/** The configuration language the Rust parser accepts, as documents with their layout: which text a
    document has, and which blocks it means. */
module RustConfigText {
  import opened RustConfig

  // ---------- documents ----------

  /** White space, or a comment up to and including its line end. */
  datatype Filler = Space(b: char) | Comment(text: string)

  type Gap = seq<Filler>

  datatype Piece = Plain(b: char) | Escaped(b: char)

  datatype Written = InQuotes(quote: char, pieces: seq<Piece>) | AsIs(text: string)

  /** `key = value ;` with the gaps before its tokens. */
  datatype Entry = Entry(before: Gap, key: string, beforeEq: Gap, beforeValue: Gap, value: Written, beforeSemi: Gap)

  /** `name { entries }` */
  datatype Section = Section(before: Gap, name: string, beforeBrace: Gap, entries: seq<Entry>, beforeEnd: Gap)

  /** `unfinished` is a last comment without a line end. */
  datatype Document = Document(sections: seq<Section>, after: Gap, unfinished: string)

  predicate FillerOk(f: Filler) {
    match f
    case Space(b) => b == ' ' || b == '\t' || b == '\n' || b == '\r' || b == '\U{000C}'
    case Comment(text) => '\n' !in text
  }

  predicate GapOk(g: Gap) { forall i :: 0 <= i < |g| ==> FillerOk(g[i]) }

  predicate IdentOk(name: string) {
    && name != []
    && forall i :: 0 <= i < |name| ==>
         || 'a' <= name[i] <= 'z' || 'A' <= name[i] <= 'Z' || '0' <= name[i] <= '9'
         || name[i] == '_' || name[i] == '.' || name[i] == '-' || name[i] == ':'
  }

  predicate PieceOk(p: Piece, quote: char) { p.Plain? ==> p.b != quote && p.b != '\\' }

  predicate WrittenOk(v: Written) {
    match v
    case InQuotes(quote, pieces) =>
      (quote == '"' || quote == '\'') && forall i :: 0 <= i < |pieces| ==> PieceOk(pieces[i], quote)
    case AsIs(text) =>
      && text != [] && text[0] != '"' && text[0] != '\'' && text[0] != '#'
      && forall i :: 0 <= i < |text| ==>
           text[i] != ';' && text[i] != ' ' && text[i] != '\t' && text[i] != '\n' && text[i] != '\r' && text[i] != '\U{000C}'
  }

  /** A comment cannot follow a value without quotes directly. */
  predicate EntryOk(e: Entry) {
    && GapOk(e.before) && IdentOk(e.key) && GapOk(e.beforeEq) && GapOk(e.beforeValue) && WrittenOk(e.value)
    && GapOk(e.beforeSemi) && (e.value.AsIs? && e.beforeSemi != [] ==> e.beforeSemi[0].Space?)
  }

  predicate SectionOk(s: Section) {
    && GapOk(s.before) && IdentOk(s.name) && GapOk(s.beforeBrace) && GapOk(s.beforeEnd)
    && forall i :: 0 <= i < |s.entries| ==> EntryOk(s.entries[i])
  }

  predicate UnfinishedOk(u: string) { u != [] ==> u[0] == '#' && '\n' !in u }

  predicate DocumentOk(d: Document) {
    (forall i :: 0 <= i < |d.sections| ==> SectionOk(d.sections[i])) && GapOk(d.after) && UnfinishedOk(d.unfinished)
  }

  // ---------- their text ----------

  function FillerText(f: Filler): string { match f case Space(b) => [b] case Comment(text) => "#" + text + "\n" }

  function GapText(g: Gap): string { if g == [] then [] else FillerText(g[0]) + GapText(g[1..]) }

  function PieceText(p: Piece): string { match p case Plain(b) => [b] case Escaped(b) => ['\\', b] }

  function PiecesText(ps: seq<Piece>): string { if ps == [] then [] else PieceText(ps[0]) + PiecesText(ps[1..]) }

  function WrittenText(v: Written): string {
    match v case InQuotes(quote, pieces) => [quote] + PiecesText(pieces) + [quote] case AsIs(text) => text
  }

  function EntryText(e: Entry): string {
    e.key + (GapText(e.beforeEq) + ['='] + (GapText(e.beforeValue) + WrittenText(e.value) + (GapText(e.beforeSemi) + [';'])))
  }

  function EntriesText(es: seq<Entry>): string {
    if es == [] then [] else GapText(es[0].before) + EntryText(es[0]) + EntriesText(es[1..])
  }

  function SectionText(s: Section): string {
    s.name + (GapText(s.beforeBrace) + ['{'] + (EntriesText(s.entries) + (GapText(s.beforeEnd) + ['}'])))
  }

  function SectionsText(ss: seq<Section>): string {
    if ss == [] then [] else GapText(ss[0].before) + SectionText(ss[0]) + SectionsText(ss[1..])
  }

  function DocumentText(d: Document): string { SectionsText(d.sections) + (GapText(d.after) + d.unfinished) }

  // ---------- their meaning ----------

  function PiecesValue(ps: seq<Piece>): string { if ps == [] then [] else [ps[0].b] + PiecesValue(ps[1..]) }

  function WrittenValue(v: Written): string {
    match v case InQuotes(_, pieces) => PiecesValue(pieces) case AsIs(text) => text
  }

  /** Entries in order on top of `values`: a later entry with the same key wins. */
  function EntriesValue(es: seq<Entry>, values: Values): Values {
    if es == [] then values else EntriesValue(es[1..], values[es[0].key := WrittenValue(es[0].value)])
  }

  function SectionsValue(ss: seq<Section>, blocks: Config): Config {
    if ss == [] then blocks else SectionsValue(ss[1..], blocks[ss[0].name := EntriesValue(ss[0].entries, map[])])
  }

  function DocumentValue(d: Document): Config { SectionsValue(d.sections, map[]) }

  // ---------- the parser reads every document ----------

  /** `t` cannot be taken for the rest of a gap. */
  predicate Solid(t: string) { t != [] ==> !IsSpace(t[0]) && t[0] != '#' }

  lemma {:induction false} EolIn(text: string, t: string)
    requires '\n' !in text
    ensures AtEol(text + (['\n'] + t)) == ['\n'] + t
  {
    if text == [] {
      assert text + (['\n'] + t) == ['\n'] + t;
    } else {
      assert (text + (['\n'] + t))[1..] == text[1..] + (['\n'] + t);
      EolIn(text[1..], t);
    }
  }

  lemma {:induction false} SkipSpace(b: char, t: string)
    requires IsSpace(b)
    ensures Skip([b] + t) == Skip(t)
  {
    assert ([b] + t)[1..] == t;
  }

  lemma {:induction false} SkipFiller(f: Filler, t: string)
    requires FillerOk(f)
    ensures Skip(FillerText(f) + t) == Skip(t)
  {
    match f
    case Space(b) => SkipSpace(b, t);
    case Comment(text) =>
      var line := "#" + text;
      assert FillerText(f) + t == line + (['\n'] + t);
      EolIn(line, t);
      SkipSpace('\n', t);
  }

  lemma {:induction false} SkipGap(g: Gap, t: string)
    requires GapOk(g)
    ensures Skip(GapText(g) + t) == Skip(t)
  {
    hide Skip, FillerText, FillerOk;
    if g == [] {
      assert GapText(g) + t == t;
    } else {
      var more := GapText(g[1..]) + t;
      assert GapText(g) + t == FillerText(g[0]) + more;
      SkipFiller(g[0], more);
      SkipGap(g[1..], t);
    }
  }

  lemma {:induction false} SkipSolid(t: string)
    requires Solid(t)
    ensures Skip(t) == t
  {
  }

  lemma {:induction false} EolAll(u: string)
    requires '\n' !in u
    ensures AtEol(u) == []
  {
    if u == [] {
    } else {
      EolAll(u[1..]);
    }
  }

  lemma {:induction false} ReadIdent(name: string, t: string)
    requires IdentOk(name) && (t != [] ==> !IsIdent(t[0]))
    ensures IdentifierStep(name + t) == Got(name, t)
  {
    IdentEnds(name, t);
    assert (name + t)[..|name|] == name && (name + t)[|name|..] == t;
  }

  lemma {:induction false} IdentEnds(name: string, t: string)
    requires IdentOk(name) && (t != [] ==> !IsIdent(t[0]))
    ensures IdentLength(name + t) == |name|
  {
    var r := name + t;
    IdentLengthIs(r);
    assert forall i :: 0 <= i < |name| ==> r[i] == name[i];
    assert t != [] ==> r[|name|] == t[0];
  }

  lemma {:induction false} ReadBare(text: string, t: string)
    requires text != [] && (forall i :: 0 <= i < |text| ==> IsBare(text[i])) && (t != [] ==> !IsBare(t[0]))
    ensures Bare(text + t) == Got(text, t)
  {
    var r := text + t;
    BareLengthIs(r);
    assert forall i :: 0 <= i < |text| ==> r[i] == text[i];
    assert t != [] ==> r[|text|] == t[0];
    assert r[..|text|] == text && r[|text|..] == t;
  }

  lemma {:induction false} ReadPiece(p: Piece, quote: char, t: string, output: string)
    requires IsQuote(quote) && PieceOk(p, quote)
    ensures Quoted(PieceText(p) + t, quote, output) == Quoted(t, quote, output + [p.b])
  {
    var r := PieceText(p) + t;
    assert r[|PieceText(p)|..] == t && r[..|PieceText(p)|] == PieceText(p);
    assert p.Escaped? ==> r[0] == '\\' && r[1] == p.b;
  }

  lemma {:induction false} ReadPieces(ps: seq<Piece>, quote: char, t: string, output: string)
    requires IsQuote(quote) && forall i :: 0 <= i < |ps| ==> PieceOk(ps[i], quote)
    ensures Quoted(PiecesText(ps) + ([quote] + t), quote, output) == Got(output + PiecesValue(ps), t)
  {
    hide PieceText, PieceOk, IsQuote;
    if ps == [] {
      assert PiecesText(ps) + ([quote] + t) == [quote] + t && ([quote] + t)[1..] == t;
      assert output + PiecesValue(ps) == output;
    } else {
      hide Quoted;
      ReadPieces(ps[1..], quote, t, output + [ps[0].b]);
      PiecesMore(ps, [quote] + t, output);
      ReadPiece(ps[0], quote, PiecesText(ps[1..]) + ([quote] + t), output);
    }
  }

  lemma {:induction false} PiecesMore(ps: seq<Piece>, end: string, output: string)
    requires ps != []
    ensures PiecesText(ps) + end == PieceText(ps[0]) + (PiecesText(ps[1..]) + end)
    ensures output + [ps[0].b] + PiecesValue(ps[1..]) == output + PiecesValue(ps)
  {
    Regroup(PieceText(ps[0]), PiecesText(ps[1..]), end, []);
    Regroup(output, [ps[0].b], PiecesValue(ps[1..]), []);
  }

  lemma {:induction false} QuotedStarts(quote: char, pieces: seq<Piece>, t: string)
    ensures var r := WrittenText(InQuotes(quote, pieces)) + t;
      r != [] && r[0] == quote && r[1..] == PiecesText(pieces) + ([quote] + t)
  {
    hide PiecesText;
    var text := PiecesText(pieces);
    assert [quote] + text + [quote] + t == [quote] + (text + ([quote] + t));
  }

  lemma {:induction false} BareStarts(text: string, t: string)
    requires WrittenOk(AsIs(text))
    ensures var r := text + t; r != [] && r[0] == text[0] && IsBare(r[0]) && !IsQuote(r[0]) && r[0] != '#'
  {
  }

  lemma {:induction false} ReadWritten(g: Gap, v: Written, t: string)
    requires GapOk(g) && WrittenOk(v) && (v.AsIs? && t != [] ==> !IsBare(t[0]))
    ensures ValueStep(GapText(g) + WrittenText(v) + t) == Got(WrittenValue(v), t)
  {
    hide Skip, Quoted, Bare, PiecesText, GapText, GapOk;
    var r := WrittenText(v) + t;
    assert GapText(g) + WrittenText(v) + t == GapText(g) + r;
    match v
    case InQuotes(quote, pieces) =>
      QuotedStarts(quote, pieces, t);
      SkipGap(g, r);
      SkipSolid(r);
      ReadPieces(pieces, quote, t, []);
      assert [] + PiecesValue(pieces) == PiecesValue(pieces);
    case AsIs(text) =>
      BareStarts(text, t);
      SkipGap(g, r);
      SkipSolid(r);
      ReadBare(text, t);
  }

  lemma {:induction false} ReadByte(g: Gap, b: char, t: string)
    requires GapOk(g) && Solid([b])
    ensures ExpectStep(GapText(g) + [b] + t, b) == Got(b, t)
  {
    hide Skip;
    assert GapText(g) + [b] + t == GapText(g) + ([b] + t);
    SkipGap(g, [b] + t);
    SkipSolid([b] + t);
  }

  /** A gap and a byte that belongs to no identifier do not continue one. */
  lemma {:induction false} GapEnds(g: Gap, b: char, t: string)
    requires GapOk(g) && !IsIdent(b)
    ensures !IsIdent((GapText(g) + [b] + t)[0])
  {
    GapHead(g, [b] + t);
    assert GapText(g) + [b] + t == GapText(g) + ([b] + t);
  }

  lemma {:induction false} GapHead(g: Gap, t: string)
    requires GapOk(g) && (g != [] || t != [])
    ensures var b := (GapText(g) + t)[0]; if g == [] then b == t[0] else if g[0].Space? then IsSpace(b) else b == '#'
  {
    if g != [] { assert FillerOk(g[0]) && (GapText(g) + t)[0] == FillerText(g[0])[0]; }
  }

  lemma {:induction false} ReadEntry(e: Entry, t: string)
    requires EntryOk(e)
    ensures Definition(EntryText(e) + t) == Got((e.key, WrittenValue(e.value)), t)
  {
    hide IdentifierStep, ExpectStep, ValueStep, Skip, GapText, WrittenText;
    var r3 := GapText(e.beforeSemi) + [';'] + t;
    var r2 := GapText(e.beforeValue) + WrittenText(e.value) + r3;
    var r1 := GapText(e.beforeEq) + ['='] + r2;
    assert EntryText(e) + t == e.key + r1;
    GapEnds(e.beforeEq, '=', r2);
    ReadIdent(e.key, r1);
    ReadByte(e.beforeEq, '=', r2);
    if e.value.AsIs? { BareEnds(e.beforeSemi, t); }
    ReadWritten(e.beforeValue, e.value, r3);
    ReadByte(e.beforeSemi, ';', t);
  }

  lemma {:induction false} BareEnds(g: Gap, t: string)
    requires GapOk(g) && (g != [] ==> g[0].Space?)
    ensures !IsBare((GapText(g) + [';'] + t)[0])
  {
    GapHead(g, [';'] + t);
    assert GapText(g) + [';'] + t == GapText(g) + ([';'] + t);
  }

  lemma {:induction false} IdentSolid(name: string, t: string)
    requires IdentOk(name)
    ensures name + t != [] && Skip(name + t) == name + t && (name + t)[0] != '}'
  {
    assert (name + t)[0] == name[0] && IsIdent(name[0]);
    SkipSolid(name + t);
  }

  lemma {:induction false} ReadEntries(es: seq<Entry>, g: Gap, t: string, values: Values)
    requires (forall i :: 0 <= i < |es| ==> EntryOk(es[i])) && GapOk(g)
    ensures Definitions(EntriesText(es) + (GapText(g) + ['}']) + t, values) == Got(EntriesValue(es, values), t)
  {
    hide Definition, Skip, GapText, EntryText, WrittenValue, EntryOk;
    var r := EntriesText(es) + (GapText(g) + ['}']) + t;
    if es == [] {
      assert r == GapText(g) + (['}'] + t);
      SkipGap(g, ['}'] + t);
      SkipSolid(['}'] + t);
      assert (['}'] + t)[1..] == t;
    } else {
      var e, more := es[0], EntriesText(es[1..]) + (GapText(g) + ['}']) + t;
      EntriesMore(es, GapText(g) + ['}'], t);
      EntryStarts(e, more);
      SkipGap(e.before, EntryText(e) + more);
      ReadEntry(e, more);
      ReadEntries(es[1..], g, t, values[e.key := WrittenValue(e.value)]);
    }
  }

  lemma {:induction false} EntriesMore(es: seq<Entry>, end: string, t: string)
    requires es != []
    ensures EntriesText(es) + end + t == GapText(es[0].before) + (EntryText(es[0]) + (EntriesText(es[1..]) + end + t))
  {
    hide GapText, EntryText;
    var gap, first, more := GapText(es[0].before), EntryText(es[0]), EntriesText(es[1..]);
    assert gap + first + more + end + t == gap + (first + (more + end + t));
  }

  lemma {:induction false} EntryStarts(e: Entry, t: string)
    requires EntryOk(e)
    ensures var r := EntryText(e) + t; r != [] && Skip(r) == r && r[0] != '}'
    ensures GapOk(e.before)
  {
    hide GapText, WrittenText;
    var body := GapText(e.beforeValue) + WrittenText(e.value) + (GapText(e.beforeSemi) + [';']);
    var rest := (GapText(e.beforeEq) + ['='] + body) + t;
    assert EntryText(e) + t == e.key + rest;
    IdentSolid(e.key, rest);
  }

  lemma {:induction false} ReadSection(s: Section, t: string)
    requires SectionOk(s)
    ensures Block(SectionText(s) + t) == Got((s.name, EntriesValue(s.entries, map[])), t)
    ensures var r := SectionText(s) + t; r != [] && Skip(r) == r
  {
    hide IdentifierStep, ExpectStep, Definitions, Skip, GapText, EntriesText, EntryOk;
    var r2 := EntriesText(s.entries) + (GapText(s.beforeEnd) + ['}']) + t;
    var r1 := GapText(s.beforeBrace) + ['{'] + r2;
    assert SectionText(s) + t == s.name + r1;
    GapEnds(s.beforeBrace, '{', r2);
    ReadIdent(s.name, r1);
    ReadByte(s.beforeBrace, '{', r2);
    ReadEntries(s.entries, s.beforeEnd, t, map[]);
    IdentSolid(s.name, r1);
  }

  lemma {:induction false} ReadSections(ss: seq<Section>, g: Gap, u: string, blocks: Config)
    requires (forall i :: 0 <= i < |ss| ==> SectionOk(ss[i])) && GapOk(g) && UnfinishedOk(u)
    ensures File(SectionsText(ss) + (GapText(g) + u), blocks) == Got(SectionsValue(ss, blocks), [])
  {
    hide Block, Skip, GapText, SectionText, EntriesValue, SectionOk;
    var r := SectionsText(ss) + (GapText(g) + u);
    if ss == [] {
      assert r == GapText(g) + u;
      SkipGap(g, u);
      SkipUnfinished(u);
    } else {
      var s, more := ss[0], SectionsText(ss[1..]) + (GapText(g) + u);
      assert r == GapText(s.before) + (SectionText(s) + more);
      ReadSection(s, more);
      assert GapOk(s.before) by { assert SectionOk(s); SectionGap(s); }
      SkipGap(s.before, SectionText(s) + more);
      ReadSections(ss[1..], g, u, blocks[s.name := EntriesValue(s.entries, map[])]);
    }
  }

  lemma {:induction false} SectionGap(s: Section)
    requires SectionOk(s)
    ensures GapOk(s.before)
  {
  }

  lemma {:induction false} SkipUnfinished(u: string)
    requires UnfinishedOk(u)
    ensures Skip(u) == []
  {
    if u != [] {
      EolAll(u);
      SkipSolid([]);
    }
  }

  /** The parser inverts rendering: any layout of any blocks, with arbitrary values in quotes, reads back
      as the blocks it means, and all of it is consumed. */
  lemma {:induction false} RendersParse(d: Document)
    requires DocumentOk(d)
    ensures Parsed(DocumentText(d)) == Ok(DocumentValue(d))
  {
    ReadSections(d.sections, d.after, d.unfinished, map[]);
  }

  // ---------- the parser accepts nothing else ----------

  lemma {:induction false} SpacesSound(r: string) returns (g: Gap)
    ensures GapOk(g) && r == GapText(g) + AfterSpaces(r)
  {
    g := [];
    if r == [] || !IsSpace(r[0]) {
    } else {
      var h := SpacesSound(r[1..]);
      g := [Space(r[0])] + h;
      assert g[1..] == h;
      assert r == [r[0]] + r[1..];
    }
  }

  lemma {:induction false} EolSound(r: string) returns (text: string)
    ensures '\n' !in text && r == text + AtEol(r) && (AtEol(r) != [] ==> AtEol(r)[0] == '\n')
  {
    text := [];
    if r == [] || r[0] == '\n' {
    } else {
      var more := EolSound(r[1..]);
      text := [r[0]] + more;
      assert r == [r[0]] + r[1..];
    }
  }

  lemma {:induction false} GapJoin(g: Gap, h: Gap)
    ensures GapText(g + h) == GapText(g) + GapText(h)
  {
    if g == [] {
      assert g + h == h;
    } else {
      assert (g + h)[1..] == g[1..] + h;
      GapJoin(g[1..], h);
    }
  }

  lemma {:induction false} GapJoined(g: Gap, h: Gap) returns (k: Gap)
    requires GapOk(g) && GapOk(h)
    ensures GapOk(k) && GapText(k) == GapText(g) + GapText(h)
  {
    GapJoin(g, h);
    k := g + h;
  }

  lemma {:induction false} SkipSound(r: string) returns (g: Gap, u: string)
    ensures GapOk(g) && UnfinishedOk(u) && r == GapText(g) + u + Skip(r) && (Skip(r) != [] ==> u == [])
    decreases |r|
  {
    hide GapText, FillerOk, GapOk, AfterSpaces, AtEol;
    var t := AfterSpaces(r);
    var spaces := SpacesSound(r);
    g, u := spaces, [];
    if t == [] || t[0] != '#' {
    } else {
      var line := EolSound(t);
      var rest := AtEol(t);
      if rest == [] {
        u := line;
        SkipSolid([]);
      } else {
        var h;
        h, u := SkipSound(rest);
        g := LineGap(t, line, rest, h, u, Skip(rest));
        g := GapJoined(spaces, g);
      }
    }
  }

  lemma {:induction false} Regroup(a: string, b: string, c: string, d: string)
    ensures a + ((b + c) + d) == ((a + b) + c) + d
    ensures a + (b + c) == (a + b) + c
  {
  }

  lemma {:induction false} GapCons(f: Filler, g: Gap)
    ensures GapText([f] + g) == FillerText(f) + GapText(g)
  {
    assert ([f] + g)[1..] == g;
  }

  /** Only white space starts with a line end. */
  lemma {:induction false} NewlineFirst(h: Gap, x: string)
    requires GapOk(h) && GapText(h) + x != [] && (GapText(h) + x)[0] == '\n' && (x != [] ==> x[0] != '\n')
    ensures h != [] && h[0] == Space('\n')
  {
    assert h == [] ==> GapText(h) + x == x;
    if h == [] { assert false; }
    GapHead(h, x);
    assert (GapText(h) + x)[0] == FillerText(h[0])[0];
  }

  lemma {:induction false} LineFillers(text: string)
    ensures FillerText(Comment(text)) == "#" + text + "\n" && FillerText(Space('\n')) == "\n"
  {
  }

  /** The gap after a comment begins with its line end. */
  lemma {:induction false} LineGap(t: string, line: string, rest: string, h: Gap, u: string, after: string)
    returns (g: Gap)
    requires t == line + rest && t != [] && t[0] == '#' && rest != [] && rest[0] == '\n' && '\n' !in line
    requires GapOk(h) && UnfinishedOk(u) && rest == GapText(h) + (u + after) && Solid(after)
    ensures GapOk(g) && t == GapText(g) + (u + after)
  {
    assert line != [] && line[0] == '#';
    var text := line[1..];
    assert u + after != [] ==> (u + after)[0] == if u != [] then u[0] else after[0];
    hide GapOk, GapText, UnfinishedOk;
    NewlineFirst(h, u + after);
    g := CommentFirst(text, h);
    assert line == "#" + text;
    Regroup(line, GapText(h), u + after, []);
  }

  /** A comment takes the line end in front of it. */
  lemma {:induction false} CommentFirst(text: string, h: Gap) returns (g: Gap)
    requires GapOk(h) && h != [] && h[0] == Space('\n') && '\n' !in text
    ensures GapOk(g) && GapText(g) == "#" + text + GapText(h)
  {
    var k := h[1..];
    g := [Comment(text)] + k;
    hide GapText, FillerText;
    assert h == [h[0]] + k;
    GapCons(h[0], k);
    GapCons(Comment(text), k);
    LineFillers(text);
    Regroup("#" + text, "\n", GapText(k), []);
  }

  lemma {:induction false} ExpectSound(r: string, b: char) returns (g: Gap)
    requires ExpectStep(r, b).Got?
    ensures GapOk(g) && r == GapText(g) + [b] + ExpectStep(r, b).rest
  {
    hide Skip, GapText, GapOk;
    var u;
    g, u := SkipSound(r);
    var t := Skip(r);
    assert t == [b] + t[1..];
  }

  lemma {:induction false} IdentSound(r: string)
    requires IdentifierStep(r).Got?
    ensures var s := IdentifierStep(r); IdentOk(s.value) && r == s.value + s.rest
  {
    IdentLengthIs(r);
  }

  lemma {:induction false} BareSound(r: string)
    requires Bare(r).Got?
    ensures var s := Bare(r);
      && r != [] && s.value != [] && r[0] == s.value[0] && r == s.value + s.rest
      && (!IsQuote(r[0]) && r[0] != '#' ==> WrittenOk(AsIs(s.value)))
      && (s.rest != [] ==> !IsBare(s.rest[0]))
  {
    BareLengthIs(r);
  }

  lemma {:induction false} QuotedSound(r: string, quote: char, output: string) returns (ps: seq<Piece>)
    requires Quoted(r, quote, output).Got?
    ensures var s := Quoted(r, quote, output);
      s.value == output + PiecesValue(ps) && r == PiecesText(ps) + ([quote] + s.rest)
    ensures forall i :: 0 <= i < |ps| ==> PieceOk(ps[i], quote)
  {
    var s := Quoted(r, quote, output);
    ps := [];
    if r[0] == quote {
      assert r == [quote] + r[1..];
    } else {
      hide PiecesText, PiecesValue;
      var p := if r[0] == '\\' then Escaped(r[1]) else Plain(r[0]);
      var more := r[|PieceText(p)|..];
      var qs := QuotedSound(more, quote, output + [p.b]);
      assert r == PieceText(p) + more;
      ps := PiecesJoin(p, qs, output, quote, s.rest);
    }
  }

  lemma {:induction false} PiecesJoin(p: Piece, qs: seq<Piece>, output: string, quote: char, rest: string)
    returns (ps: seq<Piece>)
    ensures ps == [p] + qs
    ensures output + [p.b] + PiecesValue(qs) == output + PiecesValue(ps)
    ensures PieceText(p) + (PiecesText(qs) + ([quote] + rest)) == PiecesText(ps) + ([quote] + rest)
  {
    ps := [p] + qs;
    assert ps[1..] == qs;
  }

  lemma {:induction false} ValueSound(r: string) returns (g: Gap, v: Written)
    requires ValueStep(r).Got?
    ensures var s := ValueStep(r);
      && GapOk(g) && WrittenOk(v) && WrittenValue(v) == s.value && r == GapText(g) + WrittenText(v) + s.rest
      && (v.AsIs? && s.rest != [] ==> !IsBare(s.rest[0]))
  {
    hide Skip, GapText, GapOk, Quoted, Bare, IsBare, PiecesText, PiecesValue;
    var s, t := ValueStep(r), Skip(r);
    var u;
    g, u := SkipSound(r);
    if t != [] && IsQuote(t[0]) {
      var ps := QuotedSound(t[1..], t[0], []);
      v := InQuotes(t[0], ps);
      assert [] + PiecesValue(ps) == PiecesValue(ps);
      QuotedStarts(t[0], ps, s.rest);
      assert t == [t[0]] + t[1..] && WrittenText(v) + s.rest == [t[0]] + (WrittenText(v) + s.rest)[1..];
    } else {
      BareSound(t);
      v := AsIs(s.value);
      assert t[0] == s.value[0];
    }
    assert r == GapText(g) + (WrittenText(v) + s.rest);
    Regroup(GapText(g), WrittenText(v), s.rest, []);
  }

  /** `beforeSemi` cannot start with a comment: the value would have swallowed it. */
  lemma {:induction false} SemiGap(v: Written, g: Gap, r: string, t: string)
    requires GapOk(g) && r == GapText(g) + [';'] + t && (v.AsIs? && r != [] ==> !IsBare(r[0]))
    ensures v.AsIs? && g != [] ==> g[0].Space?
  {
    GapHead(g, [';'] + t);
    assert r == GapText(g) + ([';'] + t);
  }

  lemma {:induction false} EntrySound(r: string) returns (e: Entry)
    requires Definition(r).Got?
    ensures var s := Definition(r);
      EntryOk(e) && e.before == [] && s.value == (e.key, WrittenValue(e.value)) && r == EntryText(e) + s.rest
  {
    hide IdentifierStep, ExpectStep, ValueStep, GapText, GapOk, WrittenText, WrittenOk, WrittenValue, IdentOk;
    var key := IdentifierStep(r);
    IdentSound(r);
    var eq := ExpectStep(key.rest, '=');
    var g1 := ExpectSound(key.rest, '=');
    var value := ValueStep(eq.rest);
    var g2, v := ValueSound(eq.rest);
    var semi := ExpectStep(value.rest, ';');
    var g3 := ExpectSound(value.rest, ';');
    SemiGap(v, g3, value.rest, semi.rest);
    e := Entry([], key.value, g1, g2, v, g3);
    assert GapOk([]) by { NoGap(); }
    assert r == EntryText(e) + semi.rest;
  }

  lemma {:induction false} NoGap()
    ensures GapOk([])
  {
  }

  lemma {:induction false} EntriesSound(r: string, values: Values) returns (es: seq<Entry>, g: Gap)
    requires Definitions(r, values).Got?
    ensures var s := Definitions(r, values);
      && (forall i :: 0 <= i < |es| ==> EntryOk(es[i])) && GapOk(g)
      && s.value == EntriesValue(es, values) && r == EntriesText(es) + (GapText(g) + ['}']) + s.rest
    decreases |r|
  {
    hide Definition, Skip, GapText, EntryText, WrittenValue, GapOk, EntryOk;
    var s, t := Definitions(r, values), Skip(r);
    var gap, u := SkipSound(r);
    assert r == GapText(gap) + t by { DefinitionStarts(t); if t == [] { assert false; } }
    if t != [] && t[0] == '}' {
      es, g := [], gap;
      assert t == ['}'] + s.rest;
      assert r == EntriesText(es) + (GapText(g) + ['}']) + s.rest;
    } else {
      var e := EntrySound(t);
      var d := Definition(t);
      var more;
      more, g := EntriesSound(d.rest, values[d.value.0 := d.value.1]);
      e := EntryAt(e, gap);
      es := [e] + more;
      assert es[1..] == more;
      EntriesMore(es, GapText(g) + ['}'], s.rest);
    }
  }

  lemma {:induction false} DefinitionStarts(t: string)
    ensures t == [] ==> Definition(t).Fail? && Block(t).Fail?
  {
  }

  lemma {:induction false} EntryAt(e: Entry, g: Gap) returns (f: Entry)
    requires EntryOk(e) && GapOk(g)
    ensures EntryOk(f) && f.before == g && EntryText(f) == EntryText(e) && f.key == e.key && f.value == e.value
  {
    f := e.(before := g);
  }

  lemma {:induction false} SectionSound(r: string) returns (s: Section)
    requires Block(r).Got?
    ensures var b := Block(r);
      SectionOk(s) && s.before == [] && b.value == (s.name, EntriesValue(s.entries, map[])) && r == SectionText(s) + b.rest
  {
    hide IdentifierStep, ExpectStep, Definitions, GapText, GapOk, EntriesText, EntriesValue, IdentOk, EntryOk;
    var name := IdentifierStep(r);
    IdentSound(r);
    var open := ExpectStep(name.rest, '{');
    var g1 := ExpectSound(name.rest, '{');
    var values := Definitions(open.rest, map[]);
    var es, g2 := EntriesSound(open.rest, map[]);
    s := Section([], name.value, g1, es, g2);
    NoGap();
    assert r == SectionText(s) + values.rest;
  }

  lemma {:induction false} SectionAt(s: Section, g: Gap) returns (t: Section)
    requires SectionOk(s) && GapOk(g)
    ensures SectionOk(t) && t.before == g && SectionText(t) == SectionText(s) && t.name == s.name && t.entries == s.entries
  {
    t := s.(before := g);
  }

  lemma {:induction false} SectionsSound(r: string, blocks: Config) returns (ss: seq<Section>, g: Gap, u: string)
    requires File(r, blocks).Got?
    ensures (forall i :: 0 <= i < |ss| ==> SectionOk(ss[i])) && GapOk(g) && UnfinishedOk(u)
    ensures File(r, blocks).value == SectionsValue(ss, blocks) && r == SectionsText(ss) + (GapText(g) + u)
    decreases |r|
  {
    hide Block, Skip, GapText, SectionText, GapOk, SectionOk, EntriesValue, UnfinishedOk;
    var t := Skip(r);
    g, u := SkipSound(r);
    if t == [] {
      ss := [];
      assert r == GapText(g) + u;
    } else {
      var gap := g;
      assert r == GapText(gap) + t;
      var s := SectionSound(t);
      var b := Block(t);
      var more;
      more, g, u := SectionsSound(b.rest, blocks[b.value.0 := b.value.1]);
      s := SectionAt(s, gap);
      ss := [s] + more;
      assert ss[1..] == more;
    }
  }

  lemma {:induction false} ParsesRendered(input: string) returns (d: Document)
    requires Parsed(input).Ok?
    ensures DocumentOk(d) && DocumentText(d) == input && Parsed(input) == Ok(DocumentValue(d))
  {
    hide File, SectionOk, GapOk, UnfinishedOk, SectionsText, GapText, SectionsValue;
    var ss, g, u := SectionsSound(input, map[]);
    d := Document(ss, g, u);
  }

  /** The language of the parser: the texts of documents, each with its meaning. */
  lemma {:induction false} AcceptsExactly(input: string, blocks: Config)
    ensures Parsed(input) == Ok(blocks) <==>
            exists d :: DocumentOk(d) && DocumentText(d) == input && DocumentValue(d) == blocks
  {
    hide Parsed, DocumentOk, DocumentText, DocumentValue;
    if Parsed(input) == Ok(blocks) {
      var d := ParsesRendered(input);
    }
    forall d | DocumentOk(d) && DocumentText(d) == input && DocumentValue(d) == blocks
      ensures Parsed(input) == Ok(blocks)
    {
      RendersParse(d);
    }
  }

  // ---------- last wins ----------

  /** The place of the last `key` in `keys`, or -1. */
  function LastOf(keys: seq<string>, key: string): (k: int)
    ensures -1 <= k < |keys| && (k >= 0 ==> keys[k] == key)
    ensures forall j :: k < j < |keys| ==> keys[j] != key
  {
    if keys == [] then -1
    else
      var k := LastOf(keys[1..], key);
      if k >= 0 then k + 1 else if keys[0] == key then 0 else -1
  }

  function KeysOf(es: seq<Entry>): seq<string> { seq(|es|, i requires 0 <= i < |es| => es[i].key) }

  function NamesOf(ss: seq<Section>): seq<string> { seq(|ss|, i requires 0 <= i < |ss| => ss[i].name) }

  /** A key has the value of its last entry. */
  lemma {:induction false} LastEntryWins(es: seq<Entry>, values: Values, key: string)
    ensures var m, k := EntriesValue(es, values), LastOf(KeysOf(es), key);
      if k >= 0 then key in m && m[key] == WrittenValue(es[k].value)
      else if key in values then key in m && m[key] == values[key]
      else key !in m
  {
    hide WrittenValue;
    if es == [] {
    } else {
      LastEntryWins(es[1..], values[es[0].key := WrittenValue(es[0].value)], key);
      assert KeysOf(es)[1..] == KeysOf(es[1..]);
    }
  }

  /** A name has the entries of its last block, and nothing of the earlier ones. */
  lemma {:induction false} LastSectionWins(ss: seq<Section>, blocks: Config, name: string)
    ensures var m, k := SectionsValue(ss, blocks), LastOf(NamesOf(ss), name);
      if k >= 0 then name in m && m[name] == EntriesValue(ss[k].entries, map[])
      else if name in blocks then name in m && m[name] == blocks[name]
      else name !in m
  {
    hide EntriesValue;
    if ss == [] {
    } else {
      LastSectionWins(ss[1..], blocks[ss[0].name := EntriesValue(ss[0].entries, map[])], name);
      assert NamesOf(ss)[1..] == NamesOf(ss[1..]);
    }
  }

  // ---------- every value can be written ----------

  function Escape(value: string, quote: char): seq<Piece> {
    if value == [] then []
    else [if value[0] == quote || value[0] == '\\' then Escaped(value[0]) else Plain(value[0])] + Escape(value[1..], quote)
  }

  lemma {:induction false} EscapeMeans(value: string, quote: char)
    requires IsQuote(quote)
    ensures WrittenOk(InQuotes(quote, Escape(value, quote))) && WrittenValue(InQuotes(quote, Escape(value, quote))) == value
  {
    if value == [] {
    } else {
      EscapeMeans(value[1..], quote);
      var ps := Escape(value, quote);
      assert ps[1..] == Escape(value[1..], quote);
      assert value == [value[0]] + value[1..];
    }
  }

  /** Whatever the bytes of `value`, the quotes and the gaps, the quoted and escaped value reads back. */
  lemma {:induction false} AnyValueReadsBack(key: string, value: string, quote: char, g1: Gap, g2: Gap, g3: Gap,
      t: string)
    requires IdentOk(key) && IsQuote(quote) && GapOk(g1) && GapOk(g2) && GapOk(g3)
    ensures var e := Entry([], key, g1, g2, InQuotes(quote, Escape(value, quote)), g3);
      Definition(EntryText(e) + t) == Got((key, value), t)
  {
    hide WrittenOk, GapOk, EntryText, Definition, WrittenValue, IdentOk;
    EscapeMeans(value, quote);
    NoGap();
    ReadEntry(Entry([], key, g1, g2, InQuotes(quote, Escape(value, quote)), g3), t);
  }

  // ---------- in so many bytes ----------

  function Plains(value: string): seq<Piece> { if value == [] then [] else [Plain(value[0])] + Plains(value[1..]) }

  lemma {:induction false} PlainText(value: string, quote: char)
    requires quote !in value && '\\' !in value
    ensures PiecesText(Plains(value)) == value && PiecesValue(Plains(value)) == value
    ensures forall i :: 0 <= i < |Plains(value)| ==> PieceOk(Plains(value)[i], quote)
  {
    if value == [] {
    } else {
      PlainText(value[1..], quote);
      assert Plains(value)[1..] == Plains(value[1..]);
      assert value == [value[0]] + value[1..];
    }
  }

  /** A block with one definition, written out. */
  lemma {:induction false} OneEntryParses(name: string, key: string, value: string)
    requires name != [] && key != [] && '"' !in value && '\\' !in value
    requires forall b :: b in name || b in key ==>
      'a' <= b <= 'z' || 'A' <= b <= 'Z' || '0' <= b <= '9' || b == '_' || b == '.' || b == '-' || b == ':'
    ensures Parsed(name + "{" + (key + "=" + ("\"" + value + "\"") + ";") + "}") == Ok(map[name := map[key := value]])
  {
    PlainText(value, '"');
    var v := InQuotes('"', Plains(value));
    var e := Entry([], key, [], [], v, []);
    var s := Section([], name, [], [e], []);
    forall i | 0 <= i < |name| ensures name[i] in name {}
    forall i | 0 <= i < |key| ensures key[i] in key {}
    OneOk(v, e, s);
    hide EntryOk, SectionOk, IdentOk, WrittenOk;
    OneText(v, e, s, "\"" + value + "\"");
    OneValue(value, v, e, s);
    RendersParse(Document([s], [], []));
  }

  lemma {:induction false} OneOk(v: Written, e: Entry, s: Section)
    requires WrittenOk(v) && v.InQuotes? && IdentOk(e.key) && IdentOk(s.name)
    requires e == Entry([], e.key, [], [], v, []) && s == Section([], s.name, [], [e], [])
    ensures DocumentOk(Document([s], [], []))
  {
    hide WrittenOk, IdentOk;
    assert EntryOk(e) && SectionOk(s);
  }

  lemma {:induction false} OneText(v: Written, e: Entry, s: Section, quoted: string)
    requires WrittenText(v) == quoted
    requires e == Entry([], e.key, [], [], v, []) && s == Section([], s.name, [], [e], [])
    ensures DocumentText(Document([s], [], [])) == s.name + "{" + (e.key + "=" + quoted + ";") + "}"
  {
    hide WrittenText;
    assert [e][1..] == [] && [s][1..] == [];
    var text := e.key + "=" + quoted + ";";
    assert EntryText(e) == text by { Rejoin(e.key, "=", quoted, ";"); }
    hide EntryText;
    assert EntriesText([e]) == [] + text + [] == text;
    hide EntriesText;
    assert SectionText(s) == s.name + "{" + text + "}" by { Rejoin(s.name, "{", text, "}"); }
    hide SectionText;
    assert SectionsText([s]) == [] + SectionText(s) + [] == SectionText(s);
    hide SectionsText;
    assert SectionText(s) + ([] + []) == SectionText(s);
  }

  lemma {:induction false} Rejoin(a: string, b: string, c: string, d: string)
    ensures a + ([] + b + ([] + c + ([] + d))) == a + b + c + d
    ensures a + ([] + b + (c + ([] + d))) == a + b + c + d
  {
    assert [] + b == b && [] + c == c && [] + d == d;
  }

  lemma {:induction false} OneValue(value: string, v: Written, e: Entry, s: Section)
    requires WrittenValue(v) == value && e.value == v && s.entries == [e]
    ensures DocumentValue(Document([s], [], [])) == map[s.name := map[e.key := value]]
  {
    hide WrittenValue;
    assert [e][1..] == [] && [s][1..] == [];
    assert EntriesValue([e], map[]) == EntriesValue([], map[e.key := value]);
    assert SectionsValue([s], map[]) == SectionsValue([], map[s.name := map[e.key := value]]);
  }
}
