/** The automaton recognises exactly the grammar, builds the tree in source order, and runs out of stack
    exactly on the inputs that are nested or long enough. */
module LalrCorrect {
  import opened Lalr

  // ---------- the grammar ----------

  /** Terminals: the look-ahead symbols of the tables, with the texts of the two kinds that have one. */
  datatype Sym = Ident(text: string) | KeyVal(text: string) | BeginBlock | EndBlock | Affect | EndAffect | Junk(code: int)

  function SymOf(t: Token): Sym {
    match t.code
    case 259 => BeginBlock case 260 => EndBlock case 261 => Affect case 262 => EndAffect
    case 263 => Ident(t.text) case 264 => KeyVal(t.text)
    case _ => Junk(t.code)
  }

  function Syms(ts: seq<Token>): (r: seq<Sym>)
    ensures |r| == |ts| && forall i :: 0 <= i < |ts| ==> r[i] == SymOf(ts[i])
  {
    if ts == [] then [] else [SymOf(ts[0])] + Syms(ts[1..])
  }

  /** The sentence of a definition, of a list of definitions, of a block and of a file. */
  function YieldDef(d: Def): seq<Sym> { [Ident(d.name), Affect, KeyVal(d.value), EndAffect] }

  function YieldDefs(ds: seq<Def>): seq<Sym> { if ds == [] then [] else YieldDef(ds[0]) + YieldDefs(ds[1..]) }

  function YieldBlock(b: Block): seq<Sym> { [Ident(b.name), BeginBlock] + YieldDefs(b.defs) + [EndBlock] }

  function Yield(bs: seq<Block>): seq<Sym> { if bs == [] then [] else YieldBlock(bs[0]) + Yield(bs[1..]) }

  // ---------- stack depth ----------

  /** The greatest number of stack entries while `ds` is parsed on top of `h` entries. */
  function DefsPeak(h: nat, ds: seq<Def>): nat
    decreases ds
  {
    if ds == [] then h + 1 else Max(h + 4, DefsPeak(h + 1, ds[1..]))
  }

  function BlockPeak(h: nat, b: Block): nat { Max(DefsPeak(h + 2, b.defs), h + 4) }

  function Peak(h: nat, bs: seq<Block>): nat
    decreases bs
  {
    if bs == [] then h + 1 else Max(BlockPeak(h, bs[0]), Peak(h + 1, bs[1..]))
  }

  // ---------- the automaton accepts what the grammar derives ----------

  /** `c` with `q` and `v` pushed and the first `k` tokens gone. */
  ghost function Pushed(c: Config, q: int, v: Value, k: nat): Config
    requires k <= |c.rest|
  {
    Config(c.states + [q], c.vals + [v], c.rest[k..], c.result)
  }

  lemma {:induction false} StepShift(c: Config, top: int, tok: int, q: int, max: nat)
    requires Wf(c) && Top(c.states) == top && LookAhead(c.rest) == tok
    requires 0 <= top < YYNSTATES && Decide(top, tok) == Shift(q)
    ensures c.rest != [] && Wf(Pushed(c, q, Text(c.rest[0].text), 1))
    ensures Run(c, max) == if |c.states| >= max then Exhausted else Run(Pushed(c, q, Text(c.rest[0].text), 1), max)
  {
    hide Decide;
    ShiftKeeps(c, q);
  }

  lemma {:induction false} StepReduce(c: Config, top: int, rule: int, max: nat)
    requires Wf(c) && Top(c.states) == top && 0 <= top < YYNSTATES && Decide(top, LookAhead(c.rest)) == Reduce(rule)
    ensures Reducible(c, rule) && Wf(ReduceTo(c, rule))
    ensures Run(c, max) == if |c.states| >= max then Exhausted else Run(ReduceTo(c, rule), max)
  {
    hide Decide;
    NextReduce(c, rule);
    ReduceKeeps(c, rule);
  }

  /** Shifting a token whose symbol is known. */
  lemma {:induction false} ShiftSym(c: Config, top: int, y: Sym, q: int, max: nat)
    requires Wf(c) && c.rest != [] && Top(c.states) == top && SymOf(c.rest[0]) == y && !y.Junk?
    requires 0 <= top < YYNSTATES && Decide(top, SymCode(y)) == Shift(q)
    ensures Wf(Pushed(c, q, Text(c.rest[0].text), 1))
    ensures Run(c, max) == if |c.states| >= max then Exhausted else Run(Pushed(c, q, Text(c.rest[0].text), 1), max)
    ensures y.Ident? || y.KeyVal? ==> c.rest[0].text == y.text
  {
    hide Decide;
    StepShift(c, top, SymCode(y), q, max);
  }

  /** The symbol number of a terminal. */
  function SymCode(y: Sym): int {
    match y
    case BeginBlock => 4 case EndBlock => 5 case Affect => 6 case EndAffect => 7 case Ident(_) => 8 case KeyVal(_) => 9
    case Junk(_) => 2
  }

  /** Four shifts and a reduction turn the tokens of a definition into one stack entry. */
  lemma {:induction false} RunDef(c: Config, d: Def, max: nat)
    requires Wf(c) && (Top(c.states) == 5 || Top(c.states) == 10) && |c.rest| >= 4
    requires forall i :: 0 <= i < 4 ==> SymOf(c.rest[i]) == YieldDef(d)[i]
    ensures Wf(Pushed(c, 10, ADef(d), 4))
    ensures Run(c, max) == if |c.states| + 4 >= max then Exhausted else Run(Pushed(c, 10, ADef(d), 4), max)
  {
    hide SymOf, Run, Decide;
    DecideDef();
    var p, r := c.states, c.rest;
    hide Wf;
    ShiftSym(c, Top(p), YieldDef(d)[0], 8, max);
    var c1 := Config(p + [8], c.vals + [Text(d.name)], r[1..], c.result);
    ShiftSym(c1, 8, YieldDef(d)[1], 11, max);
    var v1 := Text(r[1].text);
    var c2 := Config(p + [8, 11], c.vals + [Text(d.name), v1], r[2..], c.result);
    assert Pushed(c1, 11, v1, 1) == c2;
    ShiftSym(c2, 11, YieldDef(d)[2], 14, max);
    var c3 := Config(p + [8, 11, 14], c.vals + [Text(d.name), v1, Text(d.value)], r[3..], c.result);
    assert Pushed(c2, 14, Text(d.value), 1) == c3;
    ShiftSym(c3, 14, YieldDef(d)[3], 15, max);
    var v3 := Text(r[3].text);
    var c4 := Config(p + [8, 11, 14, 15], c.vals + [Text(d.name), v1, Text(d.value), v3], r[4..], c.result);
    assert Pushed(c3, 15, v3, 1) == c4;
    StepReduce(c4, 15, 8, max);
    ReducedDef(c, c4, d);
  }

  lemma {:induction false} DecideDef()
    ensures Decide(5, 8) == Decide(10, 8) == Shift(8)
    ensures Decide(8, 6) == Shift(11) && Decide(11, 9) == Shift(14) && Decide(14, 7) == Shift(15)
    ensures forall tok :: Decide(15, tok) == Reduce(8)
  {
  }

  lemma {:induction false} ReducedDef(c: Config, c4: Config, d: Def)
    requires Wf(c) && (Top(c.states) == 5 || Top(c.states) == 10) && Reducible(c4, 8)
    requires c4.states == c.states + [8, 11, 14, 15] && |c4.vals| == |c.vals| + 4 && c4.vals[..|c.vals|] == c.vals
    requires c4.vals[|c.vals|] == Text(d.name) && c4.vals[|c.vals| + 2] == Text(d.value)
    requires |c.rest| >= 4 && c4.rest == c.rest[4..] && c4.result == c.result
    ensures ReduceTo(c4, 8) == Pushed(c, 10, ADef(d), 4)
  {
    assert c4.states[..|c4.states| - 4] == c.states;
  }

  lemma {:induction false} SymsDrop(ts: seq<Token>, k: nat)
    requires k <= |ts|
    ensures Syms(ts[k..]) == Syms(ts)[k..]
  {
  }

  /** `c` after a run over `k` tokens that leaves `v` on top, in the state `Goto` says. */
  ghost function Arrived(c: Config, lhs: int, v: Value, k: nat): Config
    requires YYNTOKENS <= lhs < 16 && k <= |c.rest|
  {
    Pushed(c, Goto(lhs, Top(c.states)), v, k)
  }

  lemma {:induction false} DecideLists()
    ensures forall top, tok :: (top == 5 || top == 10) && tok == 5 ==> Decide(top, tok) == Reduce(7)
    ensures forall top, tok :: (top == 0 || top == 4) && tok == 0 ==> Decide(top, tok) == Reduce(4)
    ensures forall tok :: Decide(13, tok) == Reduce(6) && Decide(12, tok) == Reduce(5)
    ensures forall tok :: Decide(7, tok) == Reduce(3) && Decide(3, tok) == Reduce(2)
    ensures Decide(0, 8) == Decide(4, 8) == Shift(1) && Decide(1, 4) == Shift(5)
    ensures Decide(9, 5) == Shift(12) && Decide(2, 0) == Accept
    ensures Goto(14, 5) == 9 && Goto(14, 10) == 13 && Goto(15, 5) == Goto(15, 10) == 10
    ensures Goto(12, 0) == 3 && Goto(12, 4) == 7 && Goto(13, 0) == Goto(13, 4) == 4 && Goto(11, 0) == 2
  {
  }

  /** A list of definitions up to the end of its block becomes one stack entry. */
  lemma {:induction false} RunDefs(c: Config, ds: seq<Def>, tail: seq<Sym>, max: nat)
    requires Wf(c) && (Top(c.states) == 5 || Top(c.states) == 10)
    requires Syms(c.rest) == YieldDefs(ds) + [EndBlock] + tail
    ensures |YieldDefs(ds)| <= |c.rest|
    ensures var d := Arrived(c, 14, Defs(ds), |YieldDefs(ds)|);
      Wf(d) && Run(c, max) == if DefsPeak(|c.states|, ds) >= max then Exhausted else Run(d, max)
    decreases ds
  {
    hide Run, Wf, DefsPeak, Syms, SymOf, YieldDefs, YieldDef, Goto;
    DefsTokens(c.rest, ds, tail);
    if ds == [] {
      NoDefs(c, max);
    } else {
      RunDef(c, ds[0], max);
      RunDefs(Pushed(c, 10, ADef(ds[0]), 4), ds[1..], tail, max);
      MoreDefs(c, ds, |YieldDefs(ds[1..])|, max);
    }
  }

  lemma {:induction false} DefsTokens(ts: seq<Token>, ds: seq<Def>, tail: seq<Sym>)
    requires Syms(ts) == YieldDefs(ds) + [EndBlock] + tail
    ensures |YieldDefs(ds)| <= |ts|
    ensures ds == [] ==> YieldDefs(ds) == [] && ts != [] && SymOf(ts[0]) == EndBlock
    ensures ds != [] ==>
      && 4 <= |ts| && |YieldDefs(ds)| == |YieldDefs(ds[1..])| + 4
      && (forall i :: 0 <= i < 4 ==> SymOf(ts[i]) == YieldDef(ds[0])[i])
      && Syms(ts[4..]) == YieldDefs(ds[1..]) + [EndBlock] + tail
  {
    hide SymOf, Syms;
    var y := YieldDefs(ds) + [EndBlock] + tail;
    SymsAt(ts, 0);
    if ds != [] {
      assert y[..4] == YieldDef(ds[0]);
      forall i | 0 <= i < 4 ensures SymOf(ts[i]) == YieldDef(ds[0])[i] {
        SymsAt(ts, i);
        assert y[i] == y[..4][i];
      }
      SymsDrop(ts, 4);
      assert y[4..] == YieldDefs(ds[1..]) + [EndBlock] + tail;
    }
  }

  lemma {:induction false} NoDefs(c: Config, max: nat)
    requires Wf(c) && (Top(c.states) == 5 || Top(c.states) == 10) && c.rest != [] && SymOf(c.rest[0]) == EndBlock
    ensures var d := Arrived(c, 14, Defs([]), 0);
      Wf(d) && Run(c, max) == if DefsPeak(|c.states|, []) >= max then Exhausted else Run(d, max)
  {
    hide Decide, Goto, Run, Wf;
    DecideLists();
    StepReduce(c, Top(c.states), 7, max);
    ReducedEmpty(c, 7);
    RunFull(ReduceTo(c, 7), max);
  }

  /** The step from the list of the other definitions to the list of all. */
  lemma {:induction false} MoreDefs(c: Config, ds: seq<Def>, k: nat, max: nat)
    requires ds != [] && Wf(c) && (Top(c.states) == 5 || Top(c.states) == 10) && k + 4 <= |c.rest|
    requires var c1 := Pushed(c, 10, ADef(ds[0]), 4);
      var c2 := Arrived(c1, 14, Defs(ds[1..]), k);
      && Wf(c1) && Run(c, max) == (if |c.states| + 4 >= max then Exhausted else Run(c1, max))
      && Wf(c2) && Run(c1, max) == (if DefsPeak(|c.states| + 1, ds[1..]) >= max then Exhausted else Run(c2, max))
    ensures var d := Arrived(c, 14, Defs(ds), k + 4);
      Wf(d) && Run(c, max) == if DefsPeak(|c.states|, ds) >= max then Exhausted else Run(d, max)
  {
    hide Decide, Goto, Run, Wf;
    DecideLists();
    var c1 := Pushed(c, 10, ADef(ds[0]), 4);
    var c2 := Arrived(c1, 14, Defs(ds[1..]), k);
    StepReduce(c2, 13, 6, max);
    ReducedTwo(c, c2, 6, 10, ADef(ds[0]), 13, Defs(ds[1..]));
    assert [ds[0]] + ds[1..] == ds;
    assert c.rest[4..][k..] == c.rest[k + 4..];
    assert ReduceTo(c2, 6) == Arrived(c, 14, Defs(ds), k + 4);
    RunFull(ReduceTo(c2, 6), max);
    DefsPeakAbove(|c.states| + 1, ds[1..]);
  }

  lemma {:induction false} RunFull(c: Config, max: nat)
    requires Wf(c)
    ensures |c.states| >= max ==> Run(c, max) == Exhausted
  {
  }

  lemma {:induction false} DefsPeakAbove(h: nat, ds: seq<Def>)
    ensures DefsPeak(h, ds) > h
  {
  }

  /** The empty list is pushed without taking anything off the stack. */
  lemma {:induction false} ReducedEmpty(c: Config, rule: int)
    requires Reducible(c, rule) && (rule == 4 || rule == 7)
    ensures ReduceTo(c, rule) == Arrived(c, yyr1[rule], if rule == 4 then Blocks([]) else Defs([]), 0)
  {
    hide Goto;
    assert c.states[..|c.states| - 0] == c.states;
  }

  /** An item and the list after it become a longer list. */
  lemma {:induction false} ReducedTwo(c: Config, d: Config, rule: int, q0: int, v0: Value, q1: int, v1: Value)
    requires Reducible(d, rule) && (rule == 3 || rule == 6)
    requires d.states == c.states + [q0] + [q1] && d.vals == c.vals + [v0] + [v1] && d.result == c.result
    requires if rule == 3 then v0.ABlock? && v1.Blocks? else v0.ADef? && v1.Defs?
    ensures ReduceTo(d, rule) == Config(c.states + [Goto(yyr1[rule], Top(c.states))],
      c.vals + [if rule == 3 then Blocks([v0.block] + v1.blocks) else Defs([v0.def] + v1.defs)], d.rest, c.result)
  {
    hide Goto, Wf, StackOk, Edge, Typed, Decide, Rank, Reduces;
    assert d.states[..|d.states| - 2] == c.states;
    assert d.vals[..|d.vals| - 2] == c.vals;
    assert d.vals[|d.vals| - 2..] == [v0, v1];
  }

  /** Two shifts, a list of definitions, a shift and a reduction turn the tokens of a block into one
      stack entry. */
  lemma {:induction false} RunBlock(c: Config, b: Block, tail: seq<Sym>, max: nat)
    requires Wf(c) && (Top(c.states) == 0 || Top(c.states) == 4)
    requires Syms(c.rest) == YieldBlock(b) + tail
    ensures |YieldBlock(b)| <= |c.rest|
    ensures var d := Pushed(c, 4, ABlock(b), |YieldBlock(b)|);
      Wf(d) && Run(c, max) == if BlockPeak(|c.states|, b) >= max then Exhausted else Run(d, max)
  {
    hide Run, Wf, DefsPeak, Syms, SymOf, YieldDefs, Goto, Decide, YieldBlock;
    BlockTokens(c.rest, b, tail);
    var k, h := |YieldDefs(b.defs)|, |c.states|;
    OpenBlock(c, b.name, max);
    var c2 := Opened(c, b.name);
    RunDefs(c2, b.defs, tail, max);
    InBlock(c, b, k);
    CloseBlock(c, b, k, max);
    DefsPeakAbove(h + 2, b.defs);
  }

  /** `c` after the name and the opening brace of a block. */
  ghost function Opened(c: Config, name: string): Config
    requires |c.rest| >= 2
  {
    Config(c.states + [1, 5], c.vals + [Text(name), Text(c.rest[1].text)], c.rest[2..], c.result)
  }

  /** `c` after the definitions of a block as well, which take `k` tokens. */
  ghost function Filled(c: Config, b: Block, k: nat): Config
    requires |c.rest| >= 2 + k
  {
    Config(c.states + [1, 5, 9], c.vals + [Text(b.name), Text(c.rest[1].text), Defs(b.defs)], c.rest[2 + k..], c.result)
  }

  lemma {:induction false} InBlock(c: Config, b: Block, k: nat)
    requires |c.rest| >= 2 + k
    ensures Top(Opened(c, b.name).states) == 5 && Arrived(Opened(c, b.name), 14, Defs(b.defs), k) == Filled(c, b, k)
  {
    hide Goto;
    DecideLists();
  }

  lemma {:induction false} OpenBlock(c: Config, name: string, max: nat)
    requires Wf(c) && (Top(c.states) == 0 || Top(c.states) == 4) && |c.rest| >= 2
    requires SymOf(c.rest[0]) == Ident(name) && SymOf(c.rest[1]) == BeginBlock
    ensures Wf(Opened(c, name)) && Top(Opened(c, name).states) == 5
    ensures Run(c, max) == if |c.states| + 1 >= max then Exhausted else Run(Opened(c, name), max)
  {
    hide Run, Wf, SymOf, Goto, Decide;
    DecideLists();
    var p := c.states;
    ShiftSym(c, Top(p), Ident(name), 1, max);
    var c1 := Config(p + [1], c.vals + [Text(name)], c.rest[1..], c.result);
    ShiftSym(c1, 1, BeginBlock, 5, max);
    assert Pushed(c1, 5, Text(c.rest[1].text), 1) == Opened(c, name);
  }

  lemma {:induction false} CloseBlock(c: Config, b: Block, k: nat, max: nat)
    requires Wf(c) && (Top(c.states) == 0 || Top(c.states) == 4) && |c.rest| >= 3 + k && SymOf(c.rest[2 + k]) == EndBlock
    requires Wf(Filled(c, b, k))
    ensures var d := Pushed(c, 4, ABlock(b), k + 3);
      Wf(d) && Run(Filled(c, b, k), max) == if |c.states| + 4 >= max then Exhausted else Run(d, max)
  {
    hide Run, Wf, SymOf, Goto, Decide;
    DecideLists();
    var c3 := Filled(c, b, k);
    ShiftSym(c3, 9, EndBlock, 12, max);
    var v := Text(c.rest[2 + k].text);
    var c4 := Config(c.states + [1, 5, 9, 12], c3.vals + [v], c.rest[3 + k..], c.result);
    assert Pushed(c3, 12, v, 1) == c4;
    StepReduce(c4, 12, 5, max);
    ReducedBlock(c, c4, b);
    RunFull(c4, max);
  }

  lemma {:induction false} BlockTokens(ts: seq<Token>, b: Block, tail: seq<Sym>)
    requires Syms(ts) == YieldBlock(b) + tail
    ensures var k := |YieldDefs(b.defs)|;
      && |YieldBlock(b)| == k + 3 <= |ts|
      && SymOf(ts[0]) == Ident(b.name) && SymOf(ts[1]) == BeginBlock && SymOf(ts[2 + k]) == EndBlock
      && Syms(ts[2..]) == YieldDefs(b.defs) + [EndBlock] + tail
  {
    hide SymOf, YieldDefs, Syms;
    var k, y := |YieldDefs(b.defs)|, YieldBlock(b) + tail;
    assert y[0] == Ident(b.name) && y[1] == BeginBlock && y[2 + k] == EndBlock;
    SymsAt(ts, 0);
    SymsAt(ts, 1);
    SymsAt(ts, 2 + k);
    SymsDrop(ts, 2);
    assert y[2..] == YieldDefs(b.defs) + [EndBlock] + tail;
  }

  lemma {:induction false} SymsAt(ts: seq<Token>, i: nat)
    requires i < |Syms(ts)|
    ensures |Syms(ts)| == |ts| && Syms(ts)[i] == SymOf(ts[i])
  {
  }

  lemma {:induction false} ReducedBlock(c: Config, c4: Config, b: Block)
    requires Wf(c) && (Top(c.states) == 0 || Top(c.states) == 4) && Reducible(c4, 5)
    requires c4.states == c.states + [1, 5, 9, 12] && |c4.vals| == |c.vals| + 4 && c4.vals[..|c.vals|] == c.vals
    requires c4.vals[|c.vals|] == Text(b.name) && c4.vals[|c.vals| + 2] == Defs(b.defs)
    requires c4.result == c.result
    ensures ReduceTo(c4, 5) == Config(c.states + [4], c.vals + [ABlock(b)], c4.rest, c.result)
  {
    assert c4.states[..|c4.states| - 4] == c.states;
  }

  lemma {:induction false} PeakAbove(h: nat, bs: seq<Block>)
    ensures Peak(h, bs) > h
    decreases bs
  {
    if bs == [] {
    } else {
      PeakAbove(h + 1, bs[1..]);
    }
  }

  /** A list of blocks up to the end of the input becomes one stack entry. */
  lemma {:induction false} RunBlocks(c: Config, bs: seq<Block>, max: nat)
    requires Wf(c) && (Top(c.states) == 0 || Top(c.states) == 4)
    requires Syms(c.rest) == Yield(bs)
    ensures var d := Arrived(c, 12, Blocks(bs), |c.rest|);
      Wf(d) && Run(c, max) == if Peak(|c.states|, bs) >= max then Exhausted else Run(d, max)
    decreases bs
  {
    hide Run, Wf, Peak, SymOf, YieldBlock, Goto, BlockPeak;
    if bs == [] {
      NoBlocks(c, max);
    } else {
      var k := |YieldBlock(bs[0])|;
      RunBlock(c, bs[0], Yield(bs[1..]), max);
      SymsDrop(c.rest, k);
      assert (YieldBlock(bs[0]) + Yield(bs[1..]))[k..] == Yield(bs[1..]);
      RunBlocks(Pushed(c, 4, ABlock(bs[0]), k), bs[1..], max);
      MoreBlocks(c, bs, k, max);
    }
  }

  lemma {:induction false} NoBlocks(c: Config, max: nat)
    requires Wf(c) && (Top(c.states) == 0 || Top(c.states) == 4) && c.rest == []
    ensures var d := Arrived(c, 12, Blocks([]), 0);
      Wf(d) && Run(c, max) == if Peak(|c.states|, []) >= max then Exhausted else Run(d, max)
  {
    hide Decide, Goto, Run, Wf;
    DecideLists();
    StepReduce(c, Top(c.states), 4, max);
    ReducedEmpty(c, 4);
    RunFull(ReduceTo(c, 4), max);
  }

  lemma {:induction false} MoreBlocks(c: Config, bs: seq<Block>, k: nat, max: nat)
    requires bs != [] && Wf(c) && (Top(c.states) == 0 || Top(c.states) == 4) && k <= |c.rest|
    requires var c1 := Pushed(c, 4, ABlock(bs[0]), k);
      var c2 := Arrived(c1, 12, Blocks(bs[1..]), |c1.rest|);
      && Wf(c1) && Run(c, max) == (if BlockPeak(|c.states|, bs[0]) >= max then Exhausted else Run(c1, max))
      && Wf(c2) && Run(c1, max) == (if Peak(|c.states| + 1, bs[1..]) >= max then Exhausted else Run(c2, max))
    ensures var d := Arrived(c, 12, Blocks(bs), |c.rest|);
      Wf(d) && Run(c, max) == if Peak(|c.states|, bs) >= max then Exhausted else Run(d, max)
  {
    hide Decide, Goto, Run, Wf, BlockPeak;
    DecideLists();
    var c1 := Pushed(c, 4, ABlock(bs[0]), k);
    var c2 := Arrived(c1, 12, Blocks(bs[1..]), |c1.rest|);
    StepReduce(c2, 7, 3, max);
    ReducedTwo(c, c2, 3, 4, ABlock(bs[0]), 7, Blocks(bs[1..]));
    assert [bs[0]] + bs[1..] == bs;
    assert ReduceTo(c2, 3) == Arrived(c, 12, Blocks(bs), |c.rest|);
    RunFull(ReduceTo(c2, 3), max);
    PeakAbove(|c.states| + 1, bs[1..]);
  }

  /** A sentence of the grammar is accepted with its tree unless the stack would overflow. */
  lemma {:induction false} RunSentence(input: seq<Token>, bs: seq<Block>, max: nat)
    requires (forall t :: t in input ==> t.code > 0) && Syms(input) == Yield(bs)
    ensures Run(Start(input), max) == if Peak(1, bs) >= max then Exhausted else Accepted(bs)
  {
    hide Decide, Goto, Peak, Run, Wf, StackOk, Yield, Syms;
    var c := Start(input);
    StartWf(input);
    RunBlocks(c, bs, max);
    PeakAbove(1, bs);
    if Peak(1, bs) < max { SentenceEnd(input, bs, max); }
  }

  lemma {:induction false} StartWf(input: seq<Token>)
    requires forall t :: t in input ==> t.code > 0
    ensures Wf(Start(input)) && Top(Start(input).states) == 0
  {
  }

  /** The last two steps: the reduction to the start symbol and the acceptance. */
  lemma {:induction false} SentenceEnd(input: seq<Token>, bs: seq<Block>, max: nat)
    requires max > 2 && Wf(Arrived(Start(input), 12, Blocks(bs), |input|))
    ensures Run(Arrived(Start(input), 12, Blocks(bs), |input|), max) == Accepted(bs)
  {
    hide Decide, Run, Wf, Goto;
    DecideLists();
    var d := Arrived(Start(input), 12, Blocks(bs), |input|);
    StepReduce(d, 3, 2, max);
    var e := Config([0, 2], [Blocks(bs)], [], bs);
    assert d.states[..|d.states| - 1] == [0];
    assert ReduceTo(d, 2) == e;
    RunAccept(e, max);
  }

  lemma {:induction false} RunAccept(e: Config, max: nat)
    requires Wf(e) && e.states == [0, 2] && e.rest == [] && max > 2
    ensures Run(e, max) == Accepted(e.result)
  {
    hide Decide, StackOk, Edge, Typed, ReduceTo, ShiftTo;
    DecideLists();
    assert Next(e) == Accept;
  }

  // ---------- the grammar derives what the automaton accepts ----------

  /** The sentence that a stack entry stands for. */
  function FringeOf(q: int, v: Value): seq<Sym> {
    match q
    case 5 => [BeginBlock] case 11 => [Affect] case 12 => [EndBlock] case 15 => [EndAffect]
    case 1 => (match v case Text(t) => [Ident(t)] case _ => [])
    case 8 => (match v case Text(t) => [Ident(t)] case _ => [])
    case 14 => (match v case Text(t) => [KeyVal(t)] case _ => [])
    case _ =>
      match v
      case Text(_) => []
      case ADef(d) => YieldDef(d)
      case Defs(ds) => YieldDefs(ds)
      case ABlock(b) => YieldBlock(b)
      case Blocks(bs) => Yield(bs)
  }

  /** The sentence that the whole stack stands for. */
  function Fringe(states: seq<int>, vals: seq<Value>): seq<Sym>
    requires |states| == |vals| + 1
  {
    if vals == [] then []
    else Fringe(states[..|vals|], vals[..|vals| - 1]) + FringeOf(states[|vals|], vals[|vals| - 1])
  }

  ghost predicate ResultOk(c: Config) {
    |c.states| >= 2 && c.states[1] == 2 ==> c.vals != [] && c.vals[0] == Blocks(c.result)
  }

  lemma {:induction false} FringeSnoc(states: seq<int>, vals: seq<Value>, q: int, v: Value)
    requires |states| == |vals| + 1
    ensures Fringe(states + [q], vals + [v]) == Fringe(states, vals) + FringeOf(q, v)
  {
    assert (states + [q])[..|vals| + 1] == states && (vals + [v])[..|vals|] == vals;
  }

  lemma {:induction false} ShiftSymbol(top: int, t: Token, q: int)
    requires 0 <= top < YYNSTATES && top != 6 && t.code > 0 && Decide(top, Translate(t.code)) == Shift(q)
    ensures FringeOf(q, Text(t.text)) == [SymOf(t)] && q != 2
  {
    ShiftTokens(top, Translate(t.code), q);
  }

  lemma {:induction false} ShiftTokens(top: int, tok: int, q: int)
    requires 0 <= top < YYNSTATES && 0 <= tok < YYNTOKENS && Decide(top, tok) == Shift(q)
    ensures match q
      case 1 => tok == 8 case 8 => tok == 8 case 5 => tok == 4 case 11 => tok == 6 case 12 => tok == 5
      case 14 => tok == 9 case 15 => tok == 7 case _ => false
  {
  }

  /** The states of a handle. */
  function HandleStates(rule: int): seq<int> {
    match rule
    case 2 => [3] case 3 => [4, 7] case 5 => [1, 5, 9, 12] case 6 => [10, 13] case 8 => [8, 11, 14, 15]
    case _ => []
  }

  lemma {:induction false} HandleIs(c: Config, rule: int)
    requires Reducible(c, rule)
    ensures var len := yyr2[rule];
      && HandleOk(c, rule) && |c.states| == |c.vals| + 1 && len <= |c.vals|
      && c.states == c.states[..|c.states| - len] + HandleStates(rule)
  {
    HandleThere(c, rule);
    TopEdges(c.states, c.vals);
  }

  lemma {:induction false} FringeTwo(s: seq<int>, v: seq<Value>, q0: int, v0: Value, q1: int, v1: Value)
    requires |s| == |v| + 1
    ensures Fringe(s + [q0, q1], v + [v0, v1]) == Fringe(s, v) + (FringeOf(q0, v0) + FringeOf(q1, v1))
  {
    hide FringeOf;
    FringeSnoc(s, v, q0, v0);
    FringeSnoc(s + [q0], v + [v0], q1, v1);
    assert s + [q0] + [q1] == s + [q0, q1] && v + [v0] + [v1] == v + [v0, v1];
  }

  lemma {:induction false} FringeFour(s: seq<int>, v: seq<Value>, q: seq<int>, w: seq<Value>)
    requires |s| == |v| + 1 && |q| == |w| == 4
    ensures Fringe(s + q, v + w)
      == Fringe(s, v) + (FringeOf(q[0], w[0]) + FringeOf(q[1], w[1]) + FringeOf(q[2], w[2]) + FringeOf(q[3], w[3]))
  {
    hide FringeOf;
    FringeTwo(s, v, q[0], w[0], q[1], w[1]);
    FringeTwo(s + [q[0], q[1]], v + [w[0], w[1]], q[2], w[2], q[3], w[3]);
    assert s + [q[0], q[1]] + [q[2], q[3]] == s + q && v + [w[0], w[1]] + [w[2], w[3]] == v + w;
  }

  /** A reduction does not change what the stack stands for. */
  lemma {:induction false} FringeReduce(c: Config, rule: int)
    requires Reducible(c, rule)
    ensures var d := ReduceTo(c, rule); |d.states| == |d.vals| + 1 && Fringe(d.states, d.vals) == Fringe(c.states, c.vals)
  {
    hide FringeOf, Fringe, Reducible, ReduceTo, Build, HandleStates;
    var s, v, a, q, b := ReducedParts(c, rule);
    FringeReplaced(s, v, HandleStates(rule), a, q, b);
  }

  /** The parts of the stack before and after a reduction, and what they stand for. */
  lemma {:induction false} ReducedParts(c: Config, rule: int)
    returns (s: seq<int>, v: seq<Value>, a: seq<Value>, q: int, b: Value)
    requires Reducible(c, rule)
    ensures var h, d := HandleStates(rule), ReduceTo(c, rule);
      && |s| == |v| + 1 && |h| == |a| && c.states == s + h && c.vals == v + a
      && d.states == s + [q] && d.vals == v + [b] && (|h| <= 2 || |h| == 4) && SameFringe(h, a, q, b)
  {
    hide FringeOf, Goto, Edge, Typed, Decide, Reducible, ReduceTo, Build, HandleOk, HandleStates, SameFringe, StackOk;
    RuleRange(c, rule);
    HandleIs(c, rule);
    ReducedShape(c, rule);
    var n, len := |c.vals|, yyr2[rule];
    s, v, a := c.states[..n + 1 - len], c.vals[..n - len], c.vals[n - len..];
    q, b := Goto(yyr1[rule], Top(s)), ReduceTo(c, rule).vals[n - len];
    SameParts(c, rule, a, q, b);
  }

  lemma {:induction false} SameParts(c: Config, rule: int, a: seq<Value>, q: int, b: Value)
    requires Reducible(c, rule) && yyr2[rule] <= |c.vals| && a == c.vals[|c.vals| - yyr2[rule]..]
    requires q == Goto(yyr1[rule], Top(c.states[..|c.states| - yyr2[rule]]))
    requires |ReduceTo(c, rule).vals| == |c.vals| - yyr2[rule] + 1 && b == ReduceTo(c, rule).vals[|c.vals| - yyr2[rule]]
    ensures |HandleStates(rule)| == |a| && (|a| <= 2 || |a| == 4) && SameFringe(HandleStates(rule), a, q, b)
  {
    hide FringeOf, Goto, Edge, Typed, Decide, SameFringe;
    HandleBelow(c, rule);
    GotoTable(rule, Top(c.states), Top(c.states[..|c.states| - yyr2[rule]]));
    FringeBuild(rule, q, a);
  }

  /** `b` in state `q` stands for what the values `a` in the states `h` do. */
  predicate SameFringe(h: seq<int>, a: seq<Value>, q: int, b: Value)
    requires |h| == |a| && (|h| <= 2 || |h| == 4)
  {
    FringeOf(q, b) ==
      if |h| == 0 then []
      else if |h| == 1 then FringeOf(h[0], a[0])
      else if |h| == 2 then FringeOf(h[0], a[0]) + FringeOf(h[1], a[1])
      else FringeOf(h[0], a[0]) + FringeOf(h[1], a[1]) + FringeOf(h[2], a[2]) + FringeOf(h[3], a[3])
  }

  lemma {:induction false} FringeReplaced(s: seq<int>, v: seq<Value>, h: seq<int>, a: seq<Value>, q: int, b: Value)
    requires |s| == |v| + 1 && |h| == |a| && (|h| <= 2 || |h| == 4)
    requires SameFringe(h, a, q, b)
    ensures Fringe(s + h, v + a) == Fringe(s + [q], v + [b])
  {
    hide FringeOf, Fringe;
    FringeSnoc(s, v, q, b);
    if |h| == 4 {
      FringeFour(s, v, h, a);
    } else if |h| == 2 {
      assert a == [a[0], a[1]] && h == [h[0], h[1]];
      FringeTwo(s, v, h[0], a[0], h[1], a[1]);
    } else if |h| == 1 {
      assert a == [a[0]] && h == [h[0]];
      FringeSnoc(s, v, h[0], a[0]);
    } else {
      assert s + h == s && v + a == v;
      assert Fringe(s, v) + [] == Fringe(s, v);
    }
  }

  /** The value a reduction builds stands for what its right-hand side stands for. */
  lemma {:induction false} FringeBuild(rule: int, q: int, a: seq<Value>)
    requires match rule
      case 2 => q == 2 && |a| == 1 && a[0].Blocks?
      case 3 => (q == 3 || q == 7) && |a| == 2 && a[0].ABlock? && a[1].Blocks?
      case 4 => (q == 3 || q == 7) && a == []
      case 5 => q == 4 && |a| == 4 && a[0].Text? && a[2].Defs?
      case 6 => (q == 9 || q == 13) && |a| == 2 && a[0].ADef? && a[1].Defs?
      case 7 => (q == 9 || q == 13) && a == []
      case 8 => q == 10 && |a| == 4 && a[0].Text? && a[2].Text?
      case _ => false
    ensures |HandleStates(rule)| == |a| && SameFringe(HandleStates(rule), a, q, Build(rule, a))
  {
    match rule {
      case 3 => assert ([a[0].block] + a[1].blocks)[1..] == a[1].blocks;
      case 6 => assert ([a[0].def] + a[1].defs)[1..] == a[1].defs;
      case _ =>
    }
  }

  lemma {:induction false} RunSound(c: Config, bs: seq<Block>, max: nat)
    requires Wf(c) && ResultOk(c) && Run(c, max) == Accepted(bs)
    ensures Fringe(c.states, c.vals) + Syms(c.rest) == Yield(bs)
    decreases |c.rest|, Rank(Top(c.states)), |c.states|
  {
    hide Fringe, FringeOf, Syms, Yield, Decide;
    match Next(c)
    case Accept => AcceptSound(c);
    case Error =>
    case Shift(q) =>
      ShiftKeeps(c, q);
      ShiftSound(c, q);
      RunSound(ShiftTo(c, q), bs, max);
    case Reduce(rule) =>
      NextReduce(c, rule);
      ReduceKeeps(c, rule);
      FringeReduce(c, rule);
      ReduceResult(c, rule);
      RunSound(ReduceTo(c, rule), bs, max);
  }

  lemma {:induction false} AcceptSound(c: Config)
    requires Wf(c) && ResultOk(c) && Next(c) == Accept
    ensures Fringe(c.states, c.vals) + Syms(c.rest) == Yield(c.result)
  {
    TopEdges(c.states, c.vals);
    AcceptIs(Top(c.states), LookAhead(c.rest));
    assert c.states == [0, 2] && c.rest == [];
    assert c.vals == [Blocks(c.result)];
    FringeSnoc([0], [], 2, Blocks(c.result));
    assert [0] + [2] == c.states && [] + [Blocks(c.result)] == c.vals;
  }

  lemma {:induction false} AcceptIs(top: int, tok: int)
    requires 0 <= top < YYNSTATES && 0 <= tok < YYNTOKENS && Decide(top, tok) == Accept
    ensures top == 2 && tok == 0
  {
  }

  lemma {:induction false} ShiftSound(c: Config, q: int)
    requires Wf(c) && Next(c) == Shift(q) && ResultOk(c)
    ensures c.rest != [] && ResultOk(ShiftTo(c, q))
    ensures var d := ShiftTo(c, q);
      |d.states| == |d.vals| + 1 && Fringe(d.states, d.vals) + Syms(d.rest) == Fringe(c.states, c.vals) + Syms(c.rest)
  {
    hide Decide, FringeOf, Fringe, Syms, SymOf;
    TopEdges(c.states, c.vals);
    ShiftSafe(Top(c.states), LookAhead(c.rest), q);
    var t := c.rest[0];
    ShiftSymbol(Top(c.states), t, q);
    hide StackOk, Wf;
    FringeSnoc(c.states, c.vals, q, Text(t.text));
    SymsHead(c.rest);
    Regroup(Fringe(c.states, c.vals), [SymOf(t)], Syms(c.rest[1..]));
  }

  lemma {:induction false} SymsHead(ts: seq<Token>)
    requires ts != []
    ensures Syms(ts) == [SymOf(ts[0])] + Syms(ts[1..])
  {
  }

  lemma {:induction false} Regroup(a: seq<Sym>, b: seq<Sym>, c: seq<Sym>)
    ensures (a + b) + c == a + (b + c)
  {
  }

  lemma {:induction false} ReduceResult(c: Config, rule: int)
    requires Reducible(c, rule) && ResultOk(c)
    ensures ResultOk(ReduceTo(c, rule))
  {
    hide Decide, Edge, Typed, Goto, StackOk;
    HandleBelow(c, rule);
    ReducedShape(c, rule);
    var len := yyr2[rule];
    var below, d := c.states[..|c.states| - len], ReduceTo(c, rule);
    GotoTable(rule, Top(c.states), Top(below));
    if rule != 2 && |below| >= 2 {
      assert d.states[1] == c.states[1] && d.vals[0] == c.vals[0];
    }
  }

  /** Rule 2 leaves the result alone on the stack; the others keep `program_result` and what is below. */
  lemma {:induction false} ReducedShape(c: Config, rule: int)
    requires Reducible(c, rule)
    ensures HandleOk(c, rule)
    ensures var len, d := yyr2[rule], ReduceTo(c, rule);
      && |c.states| == |c.vals| + 1 && len <= |c.vals|
      && d.states == c.states[..|c.states| - len] + [Goto(yyr1[rule], Top(c.states[..|c.states| - len]))]
      && d.vals[..|c.vals| - len] == c.vals[..|c.vals| - len] && |d.vals| == |c.vals| - len + 1
      && (if rule == 2 then c.states == [0, 3] && d.vals == [Blocks(d.result)] else d.result == c.result)
  {
    hide Decide, Edge, Typed, Goto;
    HandleThere(c, rule);
  }

  // ---------- the main results ----------

  /** For every token sequence and every limit on the stack, YYMAXDEPTH included, the automaton accepts it,
      with tree `bs`, if and only if it is the sentence of `bs` and the stack suffices; it rejects no
      sentence; and the only sentences it gives up on are those that need `max` stack entries or more. */
  lemma {:induction false} RecognisesGrammar(input: seq<Token>, bs: seq<Block>, max: nat)
    requires forall t :: t in input ==> t.code > 0
    ensures Run(Start(input), max) == Accepted(bs) <==> Syms(input) == Yield(bs) && Peak(1, bs) < max
    ensures Syms(input) == Yield(bs) ==> (Run(Start(input), max) == Exhausted <==> Peak(1, bs) >= max)
    ensures Syms(input) == Yield(bs) ==> Run(Start(input), max) != Rejected
  {
    hide Run, Peak, Yield, Syms;
    if Run(Start(input), max) == Accepted(bs) {
      RunSound(Start(input), bs, max);
      assert [] + Syms(input) == Syms(input);
    }
    if Syms(input) == Yield(bs) { RunSentence(input, bs, max); }
  }

  /** The depth of the stack in closed form: with `bs[i]` the (i+1)-th of B blocks, it is the greatest
      of B + 2 and, for each i, (i + 1) + d + 5 if the block has d > 0 definitions and (i + 1) + 4 if it
      has none. */
  lemma {:induction false} PeakClosed(h: nat, bs: seq<Block>)
    ensures Peak(h, bs) >= h + |bs| + 1 && forall i :: 0 <= i < |bs| ==> Peak(h, bs) >= BlockDepth(h + i, bs[i])
    ensures Peak(h, bs) == h + |bs| + 1 || exists i :: 0 <= i < |bs| && Peak(h, bs) == BlockDepth(h + i, bs[i])
    decreases bs
  {
    hide BlockPeak, BlockDepth;
    if bs == [] {
    } else {
      var rest := bs[1..];
      PeakClosed(h + 1, rest);
      BlockPeakClosed(h, bs[0]);
      forall i | 0 <= i < |bs| ensures Peak(h, bs) >= BlockDepth(h + i, bs[i]) {
        if i > 0 { assert rest[i - 1] == bs[i] && Peak(h + 1, rest) >= BlockDepth(h + 1 + (i - 1), rest[i - 1]); }
      }
      if Peak(h, bs) != BlockPeak(h, bs[0]) && Peak(h + 1, rest) != h + 1 + |rest| + 1 {
        var i :| 0 <= i < |rest| && Peak(h + 1, rest) == BlockDepth(h + 1 + i, rest[i]);
        assert bs[i + 1] == rest[i];
      }
    }
  }

  function BlockDepth(k: nat, b: Block): nat { if b.defs == [] then k + 4 else k + |b.defs| + 5 }

  lemma {:induction false} BlockPeakClosed(h: nat, b: Block)
    ensures BlockPeak(h, b) == BlockDepth(h, b)
  {
    DefsPeakClosed(h + 2, b.defs);
  }

  lemma {:induction false} DefsPeakClosed(h: nat, ds: seq<Def>)
    ensures DefsPeak(h, ds) == if ds == [] then h + 1 else h + |ds| + 3
    decreases ds
  {
    if ds == [] {
    } else {
      DefsPeakClosed(h + 1, ds[1..]);
    }
  }

  // ---------- the grammar as the rules of the tables ----------

  /** `yyrhs`, the right-hand sides of the rules: terminals are below YYNTOKENS. */
  const yyrhs: seq<seq<int>> := [[], [11, 0], [12], [13, 12], [], [8, 4, 14, 5], [15, 14], [], [8, 6, 9, 7]]

  /** A parse tree. */
  datatype Tree = Leaf(sym: Sym) | Node(rule: int, kids: seq<Tree>)

  /** `t` is a parse tree whose root is the grammar symbol `x`. */
  ghost predicate Derives(t: Tree, x: int) {
    match t
    case Leaf(y) => !y.Junk? && SymCode(y) == x
    case Node(rule, kids) =>
      && 2 <= rule <= YYNRULES && yyr1[rule] == x && |kids| == |yyrhs[rule]|
      && forall i :: 0 <= i < |kids| ==> Derives(kids[i], yyrhs[rule][i])
  }

  function Sentence(t: Tree): seq<Sym> {
    match t
    case Leaf(y) => [y]
    case Node(_, kids) => Sentences(kids)
  }

  function Sentences(ts: seq<Tree>): seq<Sym> {
    if ts == [] then [] else Sentence(ts[0]) + Sentences(ts[1..])
  }

  lemma {:induction false} LeafOf(t: Tree, x: int)
    requires Derives(t, x) && x < YYNTOKENS
    ensures t.Leaf? && SymCode(t.sym) == x && !t.sym.Junk? && Sentence(t) == [t.sym]
  {
  }

  lemma {:induction false} Two(a: Tree, b: Tree)
    ensures Sentences([a, b]) == Sentence(a) + Sentence(b)
  {
    assert [a, b][1..] == [b] && [b][1..] == [];
    assert Sentences([b]) == Sentence(b) + Sentences([b][1..]);
  }

  lemma {:induction false} Four(a: Tree, b: Tree, c: Tree, d: Tree)
    ensures Sentences([a, b, c, d]) == Sentence(a) + (Sentence(b) + (Sentence(c) + Sentence(d)))
  {
    assert [a, b, c, d][1..] == [b, c, d] && [b, c, d][1..] == [c, d];
    Two(c, d);
  }

  lemma {:induction false} TreeOfDef(t: Tree) returns (d: Def)
    requires Derives(t, 15)
    ensures Sentence(t) == YieldDef(d)
  {
    var k := t.kids;
    assert t.rule == 8 && k == [k[0], k[1], k[2], k[3]];
    LeafOf(k[0], 8);
    LeafOf(k[1], 6);
    LeafOf(k[2], 9);
    LeafOf(k[3], 7);
    Four(k[0], k[1], k[2], k[3]);
    d := Def(k[0].sym.text, k[2].sym.text);
  }

  lemma {:induction false} TreeOfDefs(t: Tree) returns (ds: seq<Def>)
    requires Derives(t, 14)
    ensures Sentence(t) == YieldDefs(ds)
    decreases t
  {
    var k := t.kids;
    if t.rule == 7 {
      ds := [];
    } else {
      assert t.rule == 6 && k == [k[0], k[1]];
      var d := TreeOfDef(k[0]);
      var rest := TreeOfDefs(k[1]);
      Two(k[0], k[1]);
      ds := [d] + rest;
    }
  }

  lemma {:induction false} TreeOfBlock(t: Tree) returns (b: Block)
    requires Derives(t, 13)
    ensures Sentence(t) == YieldBlock(b)
  {
    BlockKids(t);
    hide Derives, YieldDefs;
    var k := t.kids;
    LeafOf(k[0], 8);
    LeafOf(k[1], 4);
    var ds := TreeOfDefs(k[2]);
    LeafOf(k[3], 5);
    Four(k[0], k[1], k[2], k[3]);
    b := Block(k[0].sym.text, ds);
  }

  lemma {:induction false} BlockKids(t: Tree)
    requires Derives(t, 13)
    ensures t.Node? && |t.kids| == 4 && t.kids == [t.kids[0], t.kids[1], t.kids[2], t.kids[3]]
    ensures Derives(t.kids[0], 8) && Derives(t.kids[1], 4) && Derives(t.kids[2], 14) && Derives(t.kids[3], 5)
    ensures t.kids[2] < t
  {
  }

  lemma {:induction false} TreeOfBlocks(t: Tree) returns (bs: seq<Block>)
    requires Derives(t, 12)
    ensures Sentence(t) == Yield(bs)
    decreases t
  {
    var k := t.kids;
    if t.rule == 4 {
      bs := [];
    } else {
      assert t.rule == 3 && k == [k[0], k[1]];
      var b := TreeOfBlock(k[0]);
      var rest := TreeOfBlocks(k[1]);
      Two(k[0], k[1]);
      bs := [b] + rest;
    }
  }

  lemma {:induction false} DefTree(d: Def) returns (t: Tree)
    ensures Derives(t, 15) && Sentence(t) == YieldDef(d)
  {
    var k := [Leaf(Ident(d.name)), Leaf(Affect), Leaf(KeyVal(d.value)), Leaf(EndAffect)];
    t := Node(8, k);
    Four(k[0], k[1], k[2], k[3]);
  }

  lemma {:induction false} DefsTree(ds: seq<Def>) returns (t: Tree)
    ensures Derives(t, 14) && Sentence(t) == YieldDefs(ds)
  {
    if ds == [] {
      t := Node(7, []);
    } else {
      var a := DefTree(ds[0]);
      var b := DefsTree(ds[1..]);
      t := Node(6, [a, b]);
      Two(a, b);
    }
  }

  lemma {:induction false} BlockTree(b: Block) returns (t: Tree)
    ensures Derives(t, 13) && Sentence(t) == YieldBlock(b)
  {
    hide YieldDefs;
    var ds := DefsTree(b.defs);
    t := BlockNode(b, ds);
  }

  lemma {:induction false} BlockNode(b: Block, ds: Tree) returns (t: Tree)
    requires Derives(ds, 14) && Sentence(ds) == YieldDefs(b.defs)
    ensures Derives(t, 13) && Sentence(t) == YieldBlock(b)
  {
    hide YieldDefs;
    var k := [Leaf(Ident(b.name)), Leaf(BeginBlock), ds, Leaf(EndBlock)];
    t := Node(5, k);
    assert Derives(k[0], 8) && Derives(k[1], 4) && Derives(k[3], 5);
    Four(k[0], k[1], k[2], k[3]);
  }

  lemma {:induction false} BlocksTree(bs: seq<Block>) returns (t: Tree)
    ensures Derives(t, 12) && Sentence(t) == Yield(bs)
  {
    if bs == [] {
      t := Node(4, []);
    } else {
      var a := BlockTree(bs[0]);
      var b := BlocksTree(bs[1..]);
      t := Node(3, [a, b]);
      Two(a, b);
    }
  }

  /** The symbols are derived from `program` by the rules of the tables. */
  ghost predicate InLanguage(w: seq<Sym>) { exists t :: Derives(t, 11) && Sentence(t) == w }

  /** The symbol `program` derives exactly the sentences of lists of blocks. */
  lemma {:induction false} GrammarIsYield(w: seq<Sym>)
    ensures InLanguage(w) <==> exists bs :: Yield(bs) == w
  {
    if t :| Derives(t, 11) && Sentence(t) == w {
      assert t.rule == 2 && t.kids == [t.kids[0]];
      var bs := TreeOfBlocks(t.kids[0]);
      assert Sentences(t.kids) == Sentence(t.kids[0]) + Sentences(t.kids[1..]);
      assert Yield(bs) == w;
    }
    if bs :| Yield(bs) == w {
      var t := BlocksTree(bs);
      var p := Node(2, [t]);
      assert Sentence(p) == Sentence(t) + Sentences([t][1..]);
      assert Derives(p, 11) && Sentence(p) == w;
    }
  }
}
