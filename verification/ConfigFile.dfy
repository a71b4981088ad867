/** Reading a configuration file (src/api/confparse/config_parsing.c): the parser and the grammar together. */
module ConfigFiles {
  import opened Lalr
  import opened LalrCorrect
  import opened LalrDepth
  import opened LalrParser
  import opened Options

  /** The parser would need more stack than it may have. */
  ghost predicate Overflows(input: seq<Token>)
    requires forall t :: t in input ==> t.code > 0
  {
    StartWf(input);
    Deepest(Start(input)) >= 10000
  }

  /** `config_ParseFile` on the tokens of a file that could be opened; `None` is NULL.  What it returns is the syntax
      tree of the file.  A file of fewer than 9998 tokens is accepted if and only if its tokens are derived from the
      start symbol of the grammar; a longer one that is derived can only fail for want of stack. */
  method ParseFile(input: seq<Token>) returns (r: Option<seq<Block>>)
    requires forall t :: t in input ==> t.code > 0
    ensures match r
      case Some(bs) => InLanguage(Syms(input)) && Yield(bs) == Syms(input) && !Overflows(input)
      case None => !InLanguage(Syms(input)) || Overflows(input)
    ensures |input| < 9998 ==> (r.Some? <==> InLanguage(Syms(input)))
  {
    hide Run, Deepest, InLanguage, Syms, Yield, Wf, Overflows;
    var yyresult, programResult;
    ghost var peak;
    yyresult, programResult, peak := YYParse(input);
    AutomatonIsGrammar(input, YYMAXDEPTH);
    OverflowIsExhausted(input);
    if yyresult != 0 {
      return None;
    }
    r := Some(programResult);
  }

  lemma {:induction false} OverflowIsExhausted(input: seq<Token>)
    requires forall t :: t in input ==> t.code > 0
    ensures Overflows(input) <==> Run(Start(input), YYMAXDEPTH) == Exhausted
    ensures |input| < YYMAXDEPTH - 2 ==> !Overflows(input)
  {
    hide Run, Deepest;
    StartWf(input);
    ExhaustedIsDeep(Start(input), YYMAXDEPTH);
    if |input| + 2 < YYMAXDEPTH { ShortInputsDecided(input, YYMAXDEPTH); }
  }

  /** A block with one definition, in the token numbers of the lexer: an identifier, `{`, an identifier, `=`, a value,
      `;` and `}`. */
  lemma {:induction false} OneEntryFile(input: seq<Token>, name: string, key: string, value: string)
    requires |input| == 7
    requires input[0] == Token(263, name) && input[1].code == 259 && input[2] == Token(263, key) && input[3].code == 261
    requires input[4] == Token(264, value) && input[5].code == 262 && input[6].code == 260
    ensures Run(Start(input), 10000) == Accepted([Block(name, [Def(key, value)])])
  {
    var bs := [Block(name, [Def(key, value)])];
    OneYield(name, key, value);
    hide Run, Yield;
    assert Syms(input) == Yield(bs);
    hide Syms;
    RecognisesGrammar(input, bs, 10000);
    ShortInputsDecided(input, 10000);
  }

  /** The symbols of a tree, from the front: blocks and definitions stand in the order of the file. */
  lemma {:induction false} YieldMeans(name: string, key: string, value: string, ds: seq<Def>, bs: seq<Block>)
    ensures Yield([]) == []
    ensures Yield([Block(name, [])] + bs) == [Ident(name), BeginBlock, EndBlock] + Yield(bs)
    ensures var rest := Yield([Block(name, ds)] + bs);
      && rest[..2] == [Ident(name), BeginBlock]
      && Yield([Block(name, [Def(key, value)] + ds)] + bs)
        == [Ident(name), BeginBlock, Ident(key), Affect, KeyVal(value), EndAffect] + rest[2..]
  {
    var d, b := Def(key, value), Block(name, ds);
    var b1 := Block(name, [d] + ds);
    YieldNone();
    YieldFirst(Block(name, []), bs);
    YieldFirst(b, bs);
    YieldFirst(b1, bs);
    assert YieldDefs([d] + ds) == YieldDef(d) + YieldDefs(ds) by { assert ([d] + ds)[1..] == ds; }
    hide Yield, YieldDefs;
    Within([Ident(name), BeginBlock], YieldDef(d), YieldDefs(ds), [EndBlock], Yield(bs));
  }

  lemma {:induction false} Within(a: seq<Sym>, x: seq<Sym>, y: seq<Sym>, e: seq<Sym>, z: seq<Sym>)
    ensures a + (x + y) + e + z == a + x + (a + y + e + z)[|a|..] && (a + y + e + z)[..|a|] == a
  {
  }

  lemma {:induction false} YieldFirst(b: Block, bs: seq<Block>)
    ensures Yield([b] + bs) == YieldBlock(b) + Yield(bs)
  {
    assert ([b] + bs)[1..] == bs;
    hide YieldBlock;
  }

  lemma {:induction false} YieldNone()
    ensures Yield([]) == []
  {
  }

  lemma {:induction false} OneYield(name: string, key: string, value: string)
    ensures Yield([Block(name, [Def(key, value)])])
         == [Ident(name), BeginBlock, Ident(key), Affect, KeyVal(value), EndAffect, EndBlock]
  {
    var d := Def(key, value);
    var b := Block(name, [d]);
    assert [d][1..] == [] && [b][1..] == [];
    assert YieldDefs([d]) == YieldDef(d) + [] == YieldDef(d);
    hide YieldDefs;
    assert Yield([b]) == YieldBlock(b) + [] == YieldBlock(b);
  }
}
