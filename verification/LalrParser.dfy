/** `yyparse` (src/api/confparse/conf_yacc.c): the loop over the two stacks. */
module LalrParser {
  import opened Lalr

  const YYEMPTY := -2
  const YYEOF := 0

  /** `rest` are the tokens not shifted yet: the one in `yychar` and `yylval`, if any, and what `yylex`
      has still to return. */
  ghost predicate LookOk(input: seq<Token>, pos: nat, yychar: int, yylval: string, rest: seq<Token>) {
    && pos <= |input|
    && (|| (yychar == YYEMPTY && rest == input[pos..])
        || (yychar == YYEOF && pos == |input| && rest == [])
        || (yychar > 0 && pos > 0 && input[pos - 1] == Token(yychar, yylval) && rest == input[pos - 1..]))
  }

  /** State `state` shifts the error token; no state of these tables does. */
  function ShiftsError(state: int): bool requires 0 <= state < YYNSTATES {
    var yyn := yypact[state];
    yyn != YYPACT_NINF && 0 <= yyn + YYTERROR <= YYLAST && yycheck[yyn + YYTERROR] == YYTERROR && 0 < yytable[yyn + YYTERROR]
  }

  lemma {:induction false} NoErrorRule(state: int)
    requires 0 <= state < YYNSTATES
    ensures !ShiftsError(state)
  {
  }

  lemma {:induction false} DecideBlind(state: int, t: int, u: int)
    requires 0 <= state < YYNSTATES && yypact[state] == YYPACT_NINF
    ensures Decide(state, t) == Decide(state, u)
  {
  }

  /** `YYSTACK_RELOCATE`: both stacks move to larger arrays. */
  method Relocate(yyss: array<int>, yyvs: array<Value>, used: nat, size: nat) returns (ss: array<int>, vs: array<Value>)
    requires used <= yyss.Length == yyvs.Length <= size
    ensures fresh(ss) && fresh(vs) && ss.Length == vs.Length == size
    ensures ss[..used] == yyss[..used] && vs[..used] == yyvs[..used]
  {
    ss, vs := new int[size], new Value[size];
    for yyi := 0 to used
      invariant ss[..yyi] == yyss[..yyi] && vs[..yyi] == yyvs[..yyi]
    {
      ss[yyi] := yyss[yyi];
      vs[yyi] := yyvs[yyi];
    }
  }

  /** The stack growth after a push: doubled from YYINITDEPTH and capped at YYMAXDEPTH; `full` means
      that the cap is reached. */
  method Grow(yyss: array<int>, yyvs: array<Value>, yyssp: nat) returns (full: bool, ss: array<int>, vs: array<Value>)
    requires yyss.Length == yyvs.Length && YYINITDEPTH <= yyss.Length <= YYMAXDEPTH && yyssp < yyss.Length
    ensures full <==> yyssp + 1 >= 10000
    ensures !full ==>
      ss.Length == if yyssp + 1 < yyss.Length then yyss.Length else if 2 * yyss.Length > 10000 then 10000 else 2 * yyss.Length
    ensures !full ==>
      && ss.Length == vs.Length && yyssp + 1 < ss.Length <= YYMAXDEPTH && YYINITDEPTH <= ss.Length
      && ss[..yyssp + 1] == yyss[..yyssp + 1] && vs[..yyssp + 1] == yyvs[..yyssp + 1]
      && (ss == yyss || fresh(ss)) && (vs == yyvs || fresh(vs))
  {
    var yystacksize := yyss.Length;
    full, ss, vs := false, yyss, yyvs;
    if yystacksize - 1 <= yyssp {
      if YYMAXDEPTH <= yystacksize {
        return true, yyss, yyvs;
      }
      yystacksize := yystacksize * 2;
      if YYMAXDEPTH < yystacksize {
        yystacksize := YYMAXDEPTH;
      }
      ss, vs := Relocate(yyss, yyvs, yyssp + 1, yystacksize);
    }
  }

  /** The two stacks hold configuration `c`; `yystate` is about to be pushed, or has just been. */
  ghost predicate Holds(c: Config, ss: seq<int>, vs: seq<Value>, yyssp: nat, yystate: int) {
    && |ss| == |vs| && yyssp < |ss|
    && c.states == ss[..yyssp] + [yystate] && c.vals == vs[1..yyssp + 1]
  }

  lemma {:induction false} HoldsPushed(c: Config, ss: seq<int>, vs: seq<Value>, yyssp: nat, yystate: int)
    requires Holds(c, ss, vs, yyssp, yystate)
    ensures Holds(c, ss[yyssp := yystate], vs, yyssp, yystate) && ss[yyssp := yystate][..yyssp + 1] == c.states
    ensures |c.states| == yyssp + 1 && Top(c.states) == yystate
  {
  }

  lemma {:induction false} HoldsMoved(c: Config, ss: seq<int>, vs: seq<Value>, yyssp: nat, yystate: int,
      ss1: seq<int>, vs1: seq<Value>)
    requires Holds(c, ss, vs, yyssp, yystate)
    requires yyssp + 1 <= |ss1| == |vs1| && ss1[..yyssp + 1] == ss[..yyssp + 1] && vs1[..yyssp + 1] == vs[..yyssp + 1]
    ensures Holds(c, ss1, vs1, yyssp, yystate)
  {
    assert ss1[..yyssp] == ss1[..yyssp + 1][..yyssp] && ss[..yyssp] == ss[..yyssp + 1][..yyssp];
    assert vs1[1..yyssp + 1] == vs1[..yyssp + 1][1..] && vs[1..yyssp + 1] == vs[..yyssp + 1][1..];
  }

  /** Pop `len` entries of each stack, then push. */
  lemma {:induction false} HoldsReplaced(c: Config, d: Config, ss: seq<int>, vs: seq<Value>, yyssp: nat, len: nat,
      q: int, v: Value)
    requires yyssp < |ss| && len <= yyssp && yyssp - len + 1 < |ss|
    requires Holds(c, ss, vs, yyssp, ss[yyssp])
    requires d.states == c.states[..|c.states| - len] + [q] && d.vals == c.vals[..|c.vals| - len] + [v]
    ensures Holds(d, ss, vs[yyssp - len + 1 := v], yyssp - len + 1, q)
    ensures Top(c.states[..|c.states| - len]) == ss[yyssp - len]
  {
    assert c.states[..|c.states| - len] == ss[..yyssp - len + 1];
    assert c.vals[..|c.vals| - len] == vs[1..yyssp - len + 1];
  }

  /** `yybackup`, up to `yytoken`: a token is read only when the state needs one and there is none yet. */
  method LookUp(input: seq<Token>, pos0: nat, yychar0: int, yylval0: string, yystate: int, ghost rest: seq<Token>)
    returns (pos: nat, yychar: int, yylval: string, yytoken: int)
    requires LookOk(input, pos0, yychar0, yylval0, rest) && 0 <= yystate < YYNSTATES
    requires forall t :: t in input ==> t.code > 0
    ensures LookOk(input, pos, yychar, yylval, rest) && forall t :: t in rest ==> t.code > 0
    ensures 0 <= yytoken < YYNTOKENS && Decide(yystate, yytoken) == Decide(yystate, LookAhead(rest))
    ensures if yypact[yystate] == YYPACT_NINF then pos == pos0 && yychar == yychar0 else yychar != YYEMPTY
  {
    hide Decide;
    pos, yychar, yylval, yytoken := pos0, yychar0, yylval0, 0;
    if yypact[yystate] == YYPACT_NINF {
      DecideBlind(yystate, yytoken, LookAhead(rest));
      return;
    }
    if yychar == YYEMPTY {
      if pos < |input| {
        yychar, yylval := input[pos].code, input[pos].text;
        pos := pos + 1;
      } else {
        yychar := YYEOF;
      }
    }
    yytoken := if yychar <= YYEOF then 0 else Translate(yychar);
  }

  /** The error path: no state shifts the error token, so every state is popped. */
  method PopAll(yyss: array<int>, yyssp0: nat, ghost c: Config)
    requires Wf(c) && yyssp0 < yyss.Length && yyss[..yyssp0 + 1] == c.states
  {
    hide Edge, Typed;
    var yyssp := yyssp0;
    var yystate := yyss[yyssp];
    StateRange(c.states, c.vals, yyssp);
    while yyssp != 0
      invariant yyssp <= yyssp0 && yystate == yyss[yyssp] == c.states[yyssp] && 0 <= yystate < YYNSTATES
    {
      NoErrorRule(yystate);
      if ShiftsError(yystate) { assert false; }
      yyssp := yyssp - 1;
      StateRange(c.states, c.vals, yyssp);
      yystate := yyss[yyssp];
      assert c.states[yyssp] == yyss[..yyssp0 + 1][yyssp];
    }
  }

  /** `yyreduce` */
  method ReduceStacks(yyss: array<int>, yyvs: array<Value>, yyssp0: nat, ghost c: Config, rule: int, result: seq<Block>)
    returns (yyssp: nat, yystate: int, programResult: seq<Block>)
    requires Reducible(c, rule) && c.result == result && yyssp0 + 1 < yyss.Length == yyvs.Length
    requires Holds(c, yyss[..], yyvs[..], yyssp0, yyss[yyssp0])
    modifies yyvs
    ensures yyssp < yyss.Length && Holds(ReduceTo(c, rule), yyss[..], yyvs[..], yyssp, yystate)
    ensures programResult == ReduceTo(c, rule).result
  {
    hide Decide, Edge, Typed, Goto, Build, ReduceTo, Reducible, Wf, HandleOk, Holds;
    ghost var d := ReduceTo(c, rule);
    RuleRange(c, rule);
    var yylen := yyr2[rule];
    ReduceShape(c, rule, yylen, d);
    HandleSlice(c, yyss[..], yyvs[..], yyssp0, yylen);
    var yyval := yyvs[yyssp0 + 1 - yylen];
    yyval, programResult := Action(rule, yyvs[yyssp0 + 1 - yylen..yyssp0 + 1], result, c);
    yyssp := yyssp0 - yylen;
    yystate := Goto(yyr1[rule], yyss[yyssp]);
    HoldsReplaced(c, d, yyss[..], yyvs[..], yyssp0, yylen, yystate, yyval);
    yyssp := yyssp + 1;
    yyvs[yyssp] := yyval;
  }

  lemma {:induction false} HandleSlice(c: Config, ss: seq<int>, vs: seq<Value>, yyssp: nat, len: nat)
    requires yyssp < |ss| && Holds(c, ss, vs, yyssp, ss[yyssp]) && len <= |c.vals|
    ensures len <= yyssp && vs[yyssp + 1 - len..yyssp + 1] == c.vals[|c.vals| - len..]
    ensures Top(c.states[..|c.states| - len]) == ss[yyssp - len]
  {
  }

  /** The semantic action of a rule, on the values of its right-hand side. */
  method Action(rule: int, args: seq<Value>, result: seq<Block>, ghost c: Config)
    returns (yyval: Value, programResult: seq<Block>)
    requires Reducible(c, rule) && yyr2[rule] <= |c.vals| && args == c.vals[|c.vals| - yyr2[rule]..] && result == c.result
    ensures programResult == ReduceTo(c, rule).result
    ensures ReduceTo(c, rule).vals == c.vals[..|c.vals| - yyr2[rule]] + [yyval]
  {
    hide Edge, Typed, Goto, Decide;
    HandleThere(c, rule);
    yyval := Build(rule, args);
    programResult := if rule == 2 then args[0].blocks else result;
  }

  lemma {:induction false} ReduceShape(c: Config, rule: int, len: int, d: Config)
    requires Reducible(c, rule) && len == yyr2[rule] && d == ReduceTo(c, rule)
    ensures 0 <= len <= 4 && len <= |c.vals| && YYNTOKENS <= yyr1[rule] < 16
    ensures d.states == c.states[..|c.states| - len] + [Goto(yyr1[rule], Top(c.states[..|c.states| - len]))]
    ensures |d.vals| == |c.vals| - len + 1
  {
    hide Edge, Typed, Goto, Decide, Build;
    HandleThere(c, rule);
  }

  /** `yynewstate` from `yysetstate` on: the state is pushed and the stacks grow if they are full. */
  method Enter(yyss0: array<int>, yyvs0: array<Value>, yyssp: nat, yystate: int, ghost c: Config)
    returns (full: bool, yyss: array<int>, yyvs: array<Value>)
    requires yyss0.Length == yyvs0.Length && YYINITDEPTH <= yyss0.Length <= YYMAXDEPTH && yyssp < yyss0.Length
    requires Holds(c, yyss0[..], yyvs0[..], yyssp, yystate)
    modifies yyss0
    ensures full <==> |c.states| >= YYMAXDEPTH
    ensures |c.states| == yyssp + 1 && Top(c.states) == yystate
    ensures !full ==>
      && yyss.Length == yyvs.Length && yyssp + 1 < yyss.Length <= YYMAXDEPTH && YYINITDEPTH <= yyss.Length
      && Holds(c, yyss[..], yyvs[..], yyssp, yystate) && yyss[..yyssp + 1] == c.states
      && (yyss == yyss0 || fresh(yyss)) && (yyvs == yyvs0 || fresh(yyvs))
  {
    hide Holds;
    HoldsPushed(c, yyss0[..], yyvs0[..], yyssp, yystate);
    yyss0[yyssp] := yystate;
    ghost var ss, vs := yyss0[..], yyvs0[..];
    full, yyss, yyvs := Grow(yyss0, yyvs0, yyssp);
    if !full {
      HoldsMoved(c, ss, vs, yyssp, yystate, yyss[..], yyvs[..]);
      assert yyss[..yyssp + 1] == yyss[..][..yyssp + 1];
    }
  }

  /** The shift, once decided: the stacks hold the configuration after it, its top state not pushed yet. */
  method ShiftStacks(yyss: array<int>, yyvs: array<Value>, yyssp0: nat, ghost c: Config, q: int, yylval: string)
    returns (yyssp: nat, yystate: int)
    requires c.rest != [] && c.rest[0].text == yylval && Wf(c) && yyssp0 + 1 < yyss.Length == yyvs.Length
    requires Holds(c, yyss[..], yyvs[..], yyssp0, yyss[yyssp0])
    modifies yyvs
    ensures yyssp < yyss.Length && Holds(ShiftTo(c, q), yyss[..], yyvs[..], yyssp, yystate)
  {
    hide Holds, Wf, StackOk;
    SameStack(c);
    HoldsReplaced(c, ShiftTo(c, q), yyss[..], yyvs[..], yyssp0, 0, q, Text(yylval));
    yystate := q;
    yyssp := yyssp0 + 1;
    yyvs[yyssp] := Text(yylval);
  }

  lemma {:induction false} SameStack(c: Config)
    requires Wf(c)
    ensures c.states[..|c.states| - 0] == c.states && c.vals[..|c.vals| - 0] == c.vals
  {
  }

  /** The loop is where the automaton is: `c` leads to the same outcome as the start, and the result and the
      depth so far agree with it. */
  ghost predicate OnTrack(input: seq<Token>, c: Config, result: seq<Block>, peak: nat)
    requires forall t :: t in input ==> t.code > 0
  {
    && Wf(c) && Wf(Start(input)) && Run(c, YYMAXDEPTH) == Run(Start(input), YYMAXDEPTH) && c.result == result
    && peak < YYMAXDEPTH && Max(peak, Deepest(c)) == Deepest(Start(input))
  }

  /** `yyparse`.  It returns 0 with the tree the automaton accepts, 1 when it rejects, and 2 ("memory
      exhausted") when it runs out of stack; every access to the two stacks is in bounds.  `peak` is the
      greatest number of entries the state stack ever has. */
  method YYParse(input: seq<Token>) returns (yyresult: int, programResult: seq<Block>, ghost peak: nat)
    requires forall t :: t in input ==> t.code > 0
    ensures match Run(Start(input), 10000)
      case Accepted(bs) => yyresult == 0 && programResult == bs
      case Rejected => yyresult == 1
      case Exhausted => yyresult == 2
    ensures if yyresult == 2 then peak >= 10000 else peak == Deepest(Start(input)) < 10000
  {
    hide Run, Decide, Rank, Reducible, ReduceTo, ShiftTo, Next, Holds, Deepest, OnTrack, LookAhead, LookOk, StackOk;
    var yyss, yyvs := new int[YYINITDEPTH], new Value[YYINITDEPTH];
    var yyssp: nat, yystate, yychar, yylval, pos: nat := 0, 0, YYEMPTY, "", 0;
    programResult, peak := [], 0;
    ghost var c := Start(input);
    StartOk(input, yyss[..], yyvs[..], yylval);
    while true
      invariant yyss.Length == yyvs.Length && YYINITDEPTH <= yyss.Length <= YYMAXDEPTH && yyssp < yyss.Length
      invariant fresh(yyss) && fresh(yyvs) && Holds(c, yyss[..], yyvs[..], yyssp, yystate)
      invariant OnTrack(input, c, programResult, peak) && LookOk(input, pos, yychar, yylval, c.rest)
      decreases |c.rest|, Rank(Top(c.states)), |c.states|
    {
      var full, yytoken;
      full, yyss, yyvs := Enter(yyss, yyvs, yyssp, yystate, c);
      TrackTop(input, c, programResult, peak);
      ghost var was := peak;
      peak := Max(peak, yyssp + 1);
      if full {
        return 2, programResult, peak;
      }
      pos, yychar, yylval, yytoken := LookUp(input, pos, yychar, yylval, yystate, c.rest);
      match Decide(yystate, yytoken)
      case Accept =>
        TrackEnd(input, c, programResult, was);
        return 0, programResult, peak;
      case Error =>
        TrackEnd(input, c, programResult, was);
        PopAll(yyss, yyssp, c);
        return 1, programResult, peak;
      case Shift(q) =>
        LooksBeforeShift(yystate, yytoken, q);
        TrackShift(input, c, programResult, was, q);
        RestShifted(c, q, input, pos, yychar, yylval);
        yyssp, yystate := ShiftStacks(yyss, yyvs, yyssp, c, q, yylval);
        if yychar != YYEOF {
          yychar := YYEMPTY;
        }
        c := ShiftTo(c, q);
      case Reduce(rule) =>
        TrackReduce(input, c, programResult, was, rule);
        yyssp, yystate, programResult := ReduceStacks(yyss, yyvs, yyssp, c, rule, programResult);
        c := ReduceTo(c, rule);
    }
  }

  lemma {:induction false} TrackTop(input: seq<Token>, c: Config, result: seq<Block>, peak: nat)
    requires (forall t :: t in input ==> t.code > 0) && OnTrack(input, c, result, peak)
    ensures Wf(c) && 0 <= Top(c.states) < YYNSTATES && Next(c) == Decide(Top(c.states), LookAhead(c.rest))
    ensures Wf(Start(input)) && (|c.states| >= YYMAXDEPTH ==> Run(Start(input), YYMAXDEPTH) == Exhausted)
  {
    hide Run, Decide, Deepest;
    TopRange(c);
    RunCases(c);
  }

  lemma {:induction false} TrackEnd(input: seq<Token>, c: Config, result: seq<Block>, peak: nat)
    requires (forall t :: t in input ==> t.code > 0) && OnTrack(input, c, result, peak)
    requires |c.states| < YYMAXDEPTH && (Next(c) == Accept || Next(c) == Error)
    ensures Run(Start(input), YYMAXDEPTH) == if Next(c) == Accept then Accepted(result) else Rejected
    ensures Max(peak, |c.states|) == Deepest(Start(input)) < YYMAXDEPTH
  {
    hide Run, Decide, Deepest, Next;
    RunCases(c);
  }

  lemma {:induction false} TrackShift(input: seq<Token>, c: Config, result: seq<Block>, peak: nat, q: int)
    requires (forall t :: t in input ==> t.code > 0) && OnTrack(input, c, result, peak)
    requires |c.states| < YYMAXDEPTH && Next(c) == Shift(q)
    ensures c.rest != [] && OnTrack(input, ShiftTo(c, q), result, Max(peak, |c.states|))
  {
    hide Run, Decide, Deepest, Next, StackOk;
    RunCases(c);
  }

  lemma {:induction false} TrackReduce(input: seq<Token>, c: Config, result: seq<Block>, peak: nat, rule: int)
    requires (forall t :: t in input ==> t.code > 0) && OnTrack(input, c, result, peak)
    requires |c.states| < YYMAXDEPTH && Next(c) == Reduce(rule)
    ensures Reducible(c, rule) && c.result == result
    ensures OnTrack(input, ReduceTo(c, rule), ReduceTo(c, rule).result, Max(peak, |c.states|))
    ensures var d := ReduceTo(c, rule);
      && d.rest == c.rest
      && (Rank(Top(d.states)) < Rank(Top(c.states)) ||
          (Rank(Top(d.states)) == Rank(Top(c.states)) && |d.states| < |c.states|))
  {
    hide Run, Decide, Deepest, Next, StackOk, Rank, ReduceTo;
    RunCases(c);
    ReduceKeeps(c, rule);
  }

  lemma {:induction false} StartOk(input: seq<Token>, ss: seq<int>, vs: seq<Value>, yylval: string)
    requires (forall t :: t in input ==> t.code > 0) && |ss| == |vs| > 0
    ensures Wf(Start(input)) && Holds(Start(input), ss, vs, 0, 0)
    ensures LookOk(input, 0, YYEMPTY, yylval, Start(input).rest) && OnTrack(input, Start(input), [], 0)
  {
    hide Run;
  }

  lemma {:induction false} RestShifted(c: Config, q: int, input: seq<Token>, pos: nat, yychar: int, yylval: string)
    requires Wf(c) && c.rest != [] && LookOk(input, pos, yychar, yylval, c.rest) && yychar != YYEMPTY
    ensures yychar != YYEOF && c.rest[0].text == yylval
    ensures LookOk(input, pos, YYEMPTY, yylval, ShiftTo(c, q).rest) && |ShiftTo(c, q).rest| < |c.rest|
  {
  }

  lemma {:induction false} TopRange(c: Config)
    requires Wf(c)
    ensures 0 <= Top(c.states) < YYNSTATES && Next(c) == Decide(Top(c.states), LookAhead(c.rest))
  {
    TopEdges(c.states, c.vals);
  }

  lemma {:induction false} LooksBeforeShift(state: int, tok: int, q: int)
    requires 0 <= state < YYNSTATES && Decide(state, tok) == Shift(q)
    ensures yypact[state] != YYPACT_NINF
  {
  }

  lemma {:induction false} RunCases(c: Config)
    requires Wf(c)
    ensures |c.states| >= YYMAXDEPTH ==> Run(c, YYMAXDEPTH) == Exhausted
    ensures |c.states| < YYMAXDEPTH ==> match Next(c)
      case Accept => Run(c, YYMAXDEPTH) == Accepted(c.result) && Deepest(c) == |c.states|
      case Error => Run(c, YYMAXDEPTH) == Rejected && Deepest(c) == |c.states|
      case Shift(q) =>
        && ShiftOk(c, q) && Run(c, YYMAXDEPTH) == Run(ShiftTo(c, q), YYMAXDEPTH)
        && Deepest(c) == Max(|c.states|, Deepest(ShiftTo(c, q)))
      case Reduce(rule) =>
        && ReduceOk(c, rule) && Run(c, YYMAXDEPTH) == Run(ReduceTo(c, rule), YYMAXDEPTH)
        && Deepest(c) == Max(|c.states|, Deepest(ReduceTo(c, rule)))
  {
    match Next(c)
    case Shift(q) => ShiftKeeps(c, q);
    case Reduce(rule) => NextReduce(c, rule); ReduceKeeps(c, rule);
    case _ =>
  }

  ghost predicate ShiftOk(c: Config, q: int) { c.rest != [] && Wf(ShiftTo(c, q)) }

  ghost predicate ReduceOk(c: Config, rule: int) { Reducible(c, rule) && Wf(ReduceTo(c, rule)) }

  lemma {:induction false} StateRange(states: seq<int>, vals: seq<Value>, i: nat)
    requires StackOk(states, vals) && i < |states|
    ensures 0 <= states[i] < YYNSTATES
  {
    if i > 0 { assert Edge(states[i - 1], states[i - 1 + 1]); }
  }
}
