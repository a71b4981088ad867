/** The tables of the configuration parser (src/api/confparse/conf_yacc.c) and the automaton they drive,
    as a function on configurations. */
module Lalr {

  // ---------- tokens and values ----------

  /** What `yylex` returns: a token number and the text it leaves in `yylval`. */
  datatype Token = Token(code: int, text: string)

  datatype Def = Def(name: string, value: string)
  datatype Block = Block(name: string, defs: seq<Def>)

  /** `YYSTYPE` */
  datatype Value = Text(text: string) | ADef(def: Def) | Defs(defs: seq<Def>) | ABlock(block: Block) | Blocks(blocks: seq<Block>)

  // ---------- tables ----------

  const YYFINAL := 6
  const YYLAST := 10
  const YYNTOKENS := 10
  const YYNSTATES := 16
  const YYNRULES := 8
  const YYPACT_NINF := -9
  const YYTERROR := 1
  const YYMAXUTOK := 264
  const YYUNDEFTOK := 2
  const YYINITDEPTH := 200
  const YYMAXDEPTH := 10000

  const yyr1: seq<int> := [0, 10, 11, 12, 12, 13, 14, 14, 15]
  const yyr2: seq<int> := [0, 2, 1, 2, 0, 4, 2, 0, 4]
  const yydefact: seq<int> := [4, 0, 0, 2, 4, 7, 1, 3, 0, 0, 7, 0, 5, 6, 0, 8]
  const yydefgoto: seq<int> := [-1, 2, 3, 4, 9, 10]
  const yypact: seq<int> := [-8, -3, 2, -9, -8, -5, -9, -9, -2, 0, -5, -1, -9, -9, 3, -9]
  const yypgoto: seq<int> := [-9, -9, 5, -9, -4, -9]
  const yytable: seq<int> := [1, 5, 6, 8, 11, 12, 13, 0, 14, 7, 15]
  const yycheck: seq<int> := [8, 4, 0, 8, 6, 5, 10, -1, 9, 4, 7]

  /** `YYTRANSLATE`, with the table `yytranslate` written as its runs. */
  function Translate(code: int): int
    requires code >= 0
  {
    if code > YYMAXUTOK then YYUNDEFTOK
    else if code == 0 then 0
    else if code < 256 then 2
    else if code == 256 then 1
    else if code == 257 then 2
    else code - 255
  }

  // ---------- one decision ----------

  datatype Act = Shift(state: int) | Reduce(rule: int) | Accept | Error

  function DefaultAct(state: int): Act requires 0 <= state < YYNSTATES {
    if yydefact[state] == 0 then Error else Reduce(yydefact[state])
  }

  /** What state `state` does on look-ahead symbol `tok`; it does not look when `yypact` is YYPACT_NINF. */
  function Decide(state: int, tok: int): Act requires 0 <= state < YYNSTATES {
    var yyn := yypact[state];
    if yyn == YYPACT_NINF then DefaultAct(state)
    else
      var yyn := yyn + tok;
      if yyn < 0 || YYLAST < yyn || yycheck[yyn] != tok then DefaultAct(state)
      else
        var yyn := yytable[yyn];
        if yyn <= 0 then (if yyn == 0 || yyn == -1 then Error else Reduce(-yyn))
        else if yyn == YYFINAL then Accept
        else Shift(yyn)
  }

  /** The state pushed after a reduction to symbol `lhs` uncovers `top`. */
  function Goto(lhs: int, top: int): int requires YYNTOKENS <= lhs < 16 {
    var yystate := yypgoto[lhs - YYNTOKENS] + top;
    if 0 <= yystate <= YYLAST && yycheck[yystate] == top then yytable[yystate] else yydefgoto[lhs - YYNTOKENS]
  }

  // ---------- configurations ----------

  /** The state stack from the bottom, the values above its bottom entry, the tokens not shifted yet,
      and `program_result`. */
  datatype Config = Config(states: seq<int>, vals: seq<Value>, rest: seq<Token>, result: seq<Block>)

  function Top(states: seq<int>): int { if states == [] then -1 else states[|states| - 1] }

  function LookAhead(rest: seq<Token>): int
    requires forall t :: t in rest ==> t.code > 0
  {
    if rest == [] then 0 else Translate(rest[0].code)
  }

  /** State `q` is pushed on top of state `p`. */
  predicate Edge(p: int, q: int) {
    match q
    case 1 => p == 0 || p == 4
    case 2 => p == 0
    case 3 => p == 0
    case 4 => p == 0 || p == 4
    case 5 => p == 1
    case 7 => p == 4
    case 8 => p == 5 || p == 10
    case 9 => p == 5
    case 10 => p == 5 || p == 10
    case 11 => p == 8
    case 12 => p == 9
    case 13 => p == 10
    case 14 => p == 11
    case 15 => p == 14
    case _ => false
  }

  /** The kind of value that belongs to a state, that is, to its accessing symbol. */
  predicate Typed(q: int, v: Value) {
    match q
    case 1 => v.Text? case 8 => v.Text? case 14 => v.Text?
    case 2 => v.Blocks? case 3 => v.Blocks? case 7 => v.Blocks?
    case 4 => v.ABlock?
    case 9 => v.Defs? case 13 => v.Defs?
    case 10 => v.ADef?
    case _ => true
  }

  ghost predicate StackOk(states: seq<int>, vals: seq<Value>) {
    && |states| == |vals| + 1 && states[0] == 0
    && forall i :: 0 <= i < |vals| ==> Edge(states[i], states[i + 1]) && Typed(states[i + 1], vals[i])
  }

  ghost predicate Wf(c: Config) {
    StackOk(c.states, c.vals) && forall t :: t in c.rest ==> t.code > 0
  }

  /** The semantic actions; `a` are the values of the right-hand side. */
  function Build(rule: int, a: seq<Value>): Value
    requires match rule
      case 2 => |a| == 1 && a[0].Blocks?
      case 3 => |a| == 2 && a[0].ABlock? && a[1].Blocks?
      case 4 => true
      case 5 => |a| == 4 && a[0].Text? && a[2].Defs?
      case 6 => |a| == 2 && a[0].ADef? && a[1].Defs?
      case 7 => true
      case 8 => |a| == 4 && a[0].Text? && a[2].Text?
      case _ => false
  {
    match rule
    case 2 => a[0]
    case 3 => Blocks([a[0].block] + a[1].blocks)
    case 4 => Blocks([])
    case 5 => ABlock(Block(a[0].text, a[2].defs))
    case 6 => Defs([a[0].def] + a[1].defs)
    case 7 => Defs([])
    case 8 => ADef(Def(a[0].text, a[2].text))
  }

  lemma {:induction false} TopEdges(states: seq<int>, vals: seq<Value>)
    requires StackOk(states, vals)
    ensures 0 <= Top(states) < YYNSTATES && Top(states) != 6
    ensures |vals| >= 1 ==> Edge(states[|vals| - 1], Top(states)) && Typed(Top(states), vals[|vals| - 1])
    ensures |vals| >= 2 ==> Edge(states[|vals| - 2], states[|vals| - 1]) && Typed(states[|vals| - 1], vals[|vals| - 2])
    ensures |vals| >= 3 ==> Edge(states[|vals| - 3], states[|vals| - 2]) && Typed(states[|vals| - 2], vals[|vals| - 3])
    ensures |vals| >= 4 ==> Edge(states[|vals| - 4], states[|vals| - 3]) && Typed(states[|vals| - 3], vals[|vals| - 4])
  {
    var n := |vals|;
    if n >= 1 { assert Edge(states[n - 1], states[n - 1 + 1]); }
    if n >= 2 { assert Edge(states[n - 2], states[n - 2 + 1]); }
    if n >= 3 { assert Edge(states[n - 3], states[n - 3 + 1]); }
    if n >= 4 { assert Edge(states[n - 4], states[n - 4 + 1]); }
  }

  // ---------- one step ----------

  lemma {:induction false} ShiftSafe(top: int, tok: int, q: int)
    requires 0 <= top < YYNSTATES && top != 6 && 0 <= tok < YYNTOKENS && Decide(top, tok) == Shift(q)
    ensures tok > 0 && Edge(top, q) && forall text :: Typed(q, Text(text))
  {
  }

  lemma {:induction false} ReduceRule(top: int, tok: int, rule: int)
    requires 0 <= top < YYNSTATES && top != 6 && 0 <= tok < YYNTOKENS && Decide(top, tok) == Reduce(rule)
    ensures Reduces(top, rule)
  {
  }

  /** The states whose default reduction is rule `rule`. */
  predicate Reduces(top: int, rule: int) {
    match rule
    case 2 => top == 3
    case 3 => top == 7
    case 4 => top == 0 || top == 4
    case 5 => top == 12
    case 6 => top == 13
    case 7 => top == 5 || top == 10
    case 8 => top == 15
    case _ => false
  }

  ghost predicate Reducible(c: Config, rule: int) { Wf(c) && Reduces(Top(c.states), rule) }

  lemma {:induction false} RuleRange(c: Config, rule: int)
    requires Reducible(c, rule)
    ensures 0 < rule <= YYNRULES && YYNTOKENS <= yyr1[rule] < 16
  {
    hide StackOk;
  }

  /** The handle of a default reduction is on the stack, with values of the right kinds. */
  ghost predicate HandleOk(c: Config, rule: int)
    requires 0 <= rule <= YYNRULES
  {
    var n, len := |c.vals|, yyr2[rule];
    len <= n && var a := c.vals[n - len..];
    match rule
    case 2 => a[0].Blocks? && c.states == [0, 3]
    case 3 => a[0].ABlock? && a[1].Blocks?
    case 5 => a[0].Text? && a[2].Defs?
    case 6 => a[0].ADef? && a[1].Defs?
    case 8 => a[0].Text? && a[2].Text?
    case _ => true
  }

  lemma {:induction false} HandleThere(c: Config, rule: int)
    requires Reducible(c, rule)
    ensures HandleOk(c, rule)
  {
    TopEdges(c.states, c.vals);
  }

  ghost function ReduceTo(c: Config, rule: int): Config
    requires Reducible(c, rule)
  {
    HandleThere(c, rule);
    var n, len := |c.vals|, yyr2[rule];
    var a, below := c.vals[n - len..], c.states[..|c.states| - len];
    Config(below + [Goto(yyr1[rule], Top(below))], c.vals[..n - len] + [Build(rule, a)], c.rest,
           if rule == 2 then a[0].blocks else c.result)
  }

  ghost function ShiftTo(c: Config, q: int): Config
    requires c.rest != []
  {
    Config(c.states + [q], c.vals + [Text(c.rest[0].text)], c.rest[1..], c.result)
  }

  /** Reductions make the stack shorter or move its top to a state with fewer reductions to come. */
  function Rank(top: int): nat {
    match top
    case 12 => 3 case 15 => 3
    case 3 => 1 case 7 => 1 case 9 => 1 case 13 => 1
    case 2 => 0
    case _ => 2
  }

  lemma {:induction false} StackPush(states: seq<int>, vals: seq<Value>, q: int, v: Value)
    requires StackOk(states, vals) && Edge(Top(states), q) && Typed(q, v)
    ensures StackOk(states + [q], vals + [v])
  {
  }

  lemma {:induction false} StackPop(states: seq<int>, vals: seq<Value>, len: nat)
    requires StackOk(states, vals) && len <= |vals|
    ensures StackOk(states[..|states| - len], vals[..|vals| - len])
  {
  }

  /** The state below a handle of rule `rule` whose last state is `top`. */
  predicate Uncovers(rule: int, top: int, below: int) {
    && Reduces(top, rule)
    && match rule
       case 2 => below == 0
       case 3 => below == 0 || below == 4
       case 4 => below == top
       case 5 => below == 0 || below == 4
       case 6 => below == 5 || below == 10
       case 7 => below == top
       case _ => below == 5 || below == 10
  }

  lemma {:induction false} HandleBelow(c: Config, rule: int)
    requires Reducible(c, rule)
    ensures HandleOk(c, rule) && Uncovers(rule, Top(c.states), Top(c.states[..|c.states| - yyr2[rule]]))
  {
    HandleThere(c, rule);
    TopEdges(c.states, c.vals);
  }

  lemma {:induction false} GotoTable(rule: int, top: int, below: int)
    requires Uncovers(rule, top, below)
    ensures var q := Goto(yyr1[rule], below);
      && Edge(below, q)
      && (Rank(q) < Rank(top) || (Rank(q) == Rank(top) && yyr2[rule] > 1))
      && match rule
         case 2 => q == 2
         case 3 => q == 3 || q == 7
         case 4 => q == 3 || q == 7
         case 5 => q == 4
         case 6 => q == 9 || q == 13
         case 7 => q == 9 || q == 13
         case _ => q == 10
  {
  }

  lemma {:induction false} ReduceKeeps(c: Config, rule: int)
    requires Reducible(c, rule)
    ensures var d := ReduceTo(c, rule);
      && Wf(d) && d.rest == c.rest
      && (Rank(Top(d.states)) < Rank(Top(c.states)) ||
          (Rank(Top(d.states)) == Rank(Top(c.states)) && |d.states| < |c.states|))
  {
    hide Decide, Edge, Typed, Goto, Uncovers;
    HandleBelow(c, rule);
    GotoTable(rule, Top(c.states), Top(c.states[..|c.states| - yyr2[rule]]));
    var len := yyr2[rule];
    StackPop(c.states, c.vals, len);
    BuildTyped(c, rule);
    StackPush(c.states[..|c.states| - len], c.vals[..|c.vals| - len],
              Goto(yyr1[rule], Top(c.states[..|c.states| - len])), Build(rule, c.vals[|c.vals| - len..]));
  }

  lemma {:induction false} BuildTyped(c: Config, rule: int)
    requires Reducible(c, rule)
    ensures HandleOk(c, rule)
    ensures Typed(Goto(yyr1[rule], Top(c.states[..|c.states| - yyr2[rule]])), Build(rule, c.vals[|c.vals| - yyr2[rule]..]))
  {
    hide Goto, Edge, Rank;
    HandleBelow(c, rule);
    GotoTable(rule, Top(c.states), Top(c.states[..|c.states| - yyr2[rule]]));
  }

  lemma {:induction false} ShiftKeeps(c: Config, q: int)
    requires Wf(c) && Next(c) == Shift(q)
    ensures c.rest != [] && Wf(ShiftTo(c, q))
  {
    TopEdges(c.states, c.vals);
    ShiftSafe(Top(c.states), LookAhead(c.rest), q);
    StackPush(c.states, c.vals, q, Text(c.rest[0].text));
  }

  /** What the automaton does next. */
  ghost function Next(c: Config): Act
    requires Wf(c)
  {
    TopEdges(c.states, c.vals);
    Decide(Top(c.states), LookAhead(c.rest))
  }

  // ---------- the whole run ----------

  datatype Outcome = Accepted(blocks: seq<Block>) | Rejected | Exhausted

  /** What the automaton makes of a configuration whose top state has just been pushed, with a stack that
      cannot hold more than `max` entries and gives up when it has that many. */
  ghost function Run(c: Config, max: nat): Outcome
    requires Wf(c)
    decreases |c.rest|, Rank(Top(c.states)), |c.states|
  {
    if |c.states| >= max then Exhausted
    else
      match Next(c)
      case Accept => Accepted(c.result)
      case Error => Rejected
      case Shift(q) =>
        ShiftKeeps(c, q);
        Run(ShiftTo(c, q), max)
      case Reduce(rule) =>
        NextReduce(c, rule);
        ReduceKeeps(c, rule);
        Run(ReduceTo(c, rule), max)
  }

  /** The greatest number of stack entries from `c` on, were the stack unlimited. */
  ghost function Deepest(c: Config): nat
    requires Wf(c)
    decreases |c.rest|, Rank(Top(c.states)), |c.states|
  {
    match Next(c)
    case Shift(q) =>
      ShiftKeeps(c, q);
      Max(|c.states|, Deepest(ShiftTo(c, q)))
    case Reduce(rule) =>
      NextReduce(c, rule);
      ReduceKeeps(c, rule);
      Max(|c.states|, Deepest(ReduceTo(c, rule)))
    case _ => |c.states|
  }

  function Max(a: nat, b: nat): nat { if a >= b then a else b }

  lemma {:induction false} NextReduce(c: Config, rule: int)
    requires Wf(c) && Next(c) == Reduce(rule)
    ensures Reducible(c, rule)
  {
    TopEdges(c.states, c.vals);
    ReduceRule(Top(c.states), LookAhead(c.rest), rule);
  }

  function Start(input: seq<Token>): Config { Config([0], [], input, []) }
}
