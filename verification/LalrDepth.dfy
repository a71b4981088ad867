/** How deep the stack of the configuration parser gets (src/api/confparse/conf_yacc.c). */
module LalrDepth {
  import opened Lalr
  import opened LalrCorrect

  /** The stack limit matters exactly when the run gets that deep. */
  lemma {:induction false} ExhaustedIsDeep(c: Config, max: nat)
    requires Wf(c)
    ensures Run(c, max) == Exhausted <==> Deepest(c) >= max
    decreases |c.rest|, Rank(Top(c.states)), |c.states|
  {
    hide Decide, Edge, Typed, Goto, StackOk, Rank;
    match Next(c)
    case Shift(q) =>
      ShiftKeeps(c, q);
      ExhaustedIsDeep(ShiftTo(c, q), max);
    case Reduce(rule) =>
      NextReduce(c, rule);
      ReduceKeeps(c, rule);
      ExhaustedIsDeep(ReduceTo(c, rule), max);
    case _ =>
  }

  /** The greatest depth of the stack over the run on a sentence, in closed form: with `bs[i]` the (i+1)-th of
      B blocks, it is the greatest of B + 2 and, for each i, (i + 1) + d + 5 if the block has d > 0 definitions
      and (i + 1) + 4 if it has none. */
  lemma {:induction false} SentenceDepth(input: seq<Token>, bs: seq<Block>)
    requires (forall t :: t in input ==> t.code > 0) && Syms(input) == Yield(bs)
    ensures var depth := Deepest(Start(input));
      && depth >= |bs| + 2 && (forall i :: 0 <= i < |bs| ==> depth >= BlockDepth(1 + i, bs[i]))
      && (depth == |bs| + 2 || exists i :: 0 <= i < |bs| && depth == BlockDepth(1 + i, bs[i]))
  {
    hide Deepest, Run, Peak, BlockDepth;
    DeepestIsPeak(input, bs);
    PeakClosed(1, bs);
  }

  lemma {:induction false} DeepestIsPeak(input: seq<Token>, bs: seq<Block>)
    requires (forall t :: t in input ==> t.code > 0) && Syms(input) == Yield(bs)
    ensures Deepest(Start(input)) == Peak(1, bs)
  {
    hide Deepest, Run, Peak, Yield, Syms;
    var peak := Peak(1, bs);
    RecognisesGrammar(input, bs, peak);
    RecognisesGrammar(input, bs, peak + 1);
    ExhaustedIsDeep(Start(input), peak);
    ExhaustedIsDeep(Start(input), peak + 1);
  }

  // ---------- any input ----------

  /** The states over a symbol that can be empty. */
  predicate Light(q: int) { q == 2 || q == 3 || q == 7 || q == 9 || q == 13 }

  /** The stack entries that stand for at least one token. */
  function Solid(states: seq<int>): nat {
    if |states| <= 1 then 0
    else Solid(states[..|states| - 1]) + if Light(states[|states| - 1]) then 0 else 1
  }

  lemma {:induction false} SolidPush(states: seq<int>, q: int)
    requires states != []
    ensures Solid(states + [q]) == Solid(states) + if Light(q) then 0 else 1
  {
    assert (states + [q])[..|states|] == states;
  }

  /** At most one entry of a stack is light. */
  lemma {:induction false} MostlySolid(states: seq<int>, vals: seq<Value>)
    requires StackOk(states, vals)
    ensures |states| <= Solid(states) + 1 + if Light(Top(states)) || Top(states) == 12 then 1 else 0
    decreases |states|
  {
    hide Typed;
    var n := |vals|;
    if n == 0 {
    } else {
      assert Edge(states[n - 1], states[n - 1 + 1]);
      MostlySolid(states[..n], vals[..n - 1]);
    }
  }

  lemma {:induction false} SolidBelow(states: seq<int>, len: nat)
    requires len < |states|
    ensures Solid(states[..|states| - len]) + (if len > 0 && !Light(Top(states)) then 1 else 0) <= Solid(states)
  {
    if len == 0 {
      assert states[..|states|] == states;
    } else {
      var rest := states[..|states| - 1];
      SolidBelow(rest, len - 1);
      assert rest[..|rest| - (len - 1)] == states[..|states| - len];
    }
  }

  /** A shift trades a token for an entry, and a reduction does not make more of what it takes off. */
  lemma {:induction false} ShiftSolid(c: Config, q: int)
    requires Wf(c) && Next(c) == Shift(q)
    ensures c.rest != [] && Solid(ShiftTo(c, q).states) + |ShiftTo(c, q).rest| <= Solid(c.states) + |c.rest|
  {
    ShiftKeeps(c, q);
    SolidPush(c.states, q);
  }

  lemma {:induction false} ReduceSolid(c: Config, rule: int)
    requires Reducible(c, rule)
    ensures Solid(ReduceTo(c, rule).states) <= Solid(c.states)
  {
    hide Wf, ReduceTo, HandleOk, Uncovers, Solid, Decide, Next;
    HandleBelow(c, rule);
    ReducedShape(c, rule);
    var len := yyr2[rule];
    var below := c.states[..|c.states| - len];
    SolidBelow(c.states, len);
    SolidPush(below, Goto(yyr1[rule], Top(below)));
    ReduceLight(rule, Top(c.states), Top(below));
  }

  /** A reduction that takes nothing off, or only an entry that can be empty, leads to a state that can be. */
  lemma {:induction false} ReduceLight(rule: int, top: int, below: int)
    requires Uncovers(rule, top, below)
    ensures !Light(Goto(yyr1[rule], below)) ==> yyr2[rule] > 0 && !Light(top)
  {
  }

  lemma {:induction false} DepthByTokens(c: Config)
    requires Wf(c)
    ensures Deepest(c) <= Solid(c.states) + |c.rest| + 2
    decreases |c.rest|, Rank(Top(c.states)), |c.states|
  {
    hide Decide, Edge, Typed, Goto, Solid, Rank;
    MostlySolid(c.states, c.vals);
    match Next(c)
    case Shift(q) =>
      ShiftKeeps(c, q);
      ShiftSolid(c, q);
      DepthByTokens(ShiftTo(c, q));
    case Reduce(rule) =>
      NextReduce(c, rule);
      ReduceKeeps(c, rule);
      ReduceSolid(c, rule);
      DepthByTokens(ReduceTo(c, rule));
    case _ =>
  }

  /** An input shorter than the stack limit by more than two tokens never exhausts the stack, so it is rejected
      exactly when it is no sentence: with the limit of 10000, every input of fewer than 9998 tokens. */
  lemma {:induction false} ShortInputsDecided(input: seq<Token>, max: nat)
    requires (forall t :: t in input ==> t.code > 0) && |input| + 2 < max
    ensures Deepest(Start(input)) <= |input| + 2 && Run(Start(input), max) != Exhausted
    ensures Run(Start(input), max) == Rejected <==> forall bs :: Yield(bs) != Syms(input)
  {
    hide Deepest, Run, Yield, Syms, Peak;
    DepthByTokens(Start(input));
    ExhaustedIsDeep(Start(input), max);
    forall bs | Yield(bs) == Syms(input) ensures Run(Start(input), max) != Rejected {
      RecognisesGrammar(input, bs, max);
    }
    if Run(Start(input), max).Accepted? {
      RecognisesGrammar(input, Run(Start(input), max).blocks, max);
    }
  }

  // ---------- the automaton and the grammar ----------

  /** Whatever the stack limit, an input that is accepted is in the language of the grammar, and the sentence of the
      tree it is accepted with; one that is rejected is not; and one shorter than the limit by more than two tokens
      is accepted or rejected. */
  lemma {:induction false} AutomatonIsGrammar(input: seq<Token>, max: nat)
    requires forall t :: t in input ==> t.code > 0
    ensures match Run(Start(input), max)
      case Accepted(bs) => InLanguage(Syms(input)) && Yield(bs) == Syms(input)
      case Rejected => !InLanguage(Syms(input))
      case Exhausted => |input| + 2 >= max
  {
    hide Deepest, Run, Yield, Syms, Peak, InLanguage;
    GrammarIsYield(Syms(input));
    match Run(Start(input), max)
    case Accepted(bs) =>
      RecognisesGrammar(input, bs, max);
    case Rejected =>
      if bs :| Yield(bs) == Syms(input) { RecognisesGrammar(input, bs, max); }
    case Exhausted =>
      if |input| + 2 < max { ShortInputsDecided(input, max); }
  }
}
