/** The recursive-descent configuration parser (rust/auks-config/src/lib.rs).

    Bytes are written as the characters with the same code, so a `string` is a `&[u8]`. */
module RustConfig {

  type Values = map<string, string>
  type Config = map<string, Values>

  datatype Why = ExpectedIdentifier | ExpectedValue | UnterminatedEscape | MissingQuote | ExpectedByte(b: char)

  datatype Result<T> = Ok(value: T) | Syntax(offset: nat, message: Why)

  // ---------- bytes ----------

  predicate IsSpace(b: char) { b == ' ' || b == '\t' || b == '\n' || b == '\r' || b == '\U{000C}' }

  predicate IsIdent(b: char) {
    'a' <= b <= 'z' || 'A' <= b <= 'Z' || '0' <= b <= '9' || b == '_' || b == '.' || b == '-' || b == ':'
  }

  predicate IsBare(b: char) { !IsSpace(b) && b != ';' }

  predicate IsQuote(b: char) { b == '"' || b == '\'' }

  // ---------- the grammar, read as a function on the remaining input ----------

  /** A construct was read and `rest` remains, or the parser stopped in front of `rest`. */
  datatype Step<T> = Got(value: T, rest: string) | Fail(rest: string, why: Why)

  function AfterSpaces(r: string): (t: string)
    ensures |t| <= |r|
  {
    if r != [] && IsSpace(r[0]) then AfterSpaces(r[1..]) else r
  }

  function AtEol(r: string): (t: string)
    ensures |t| <= |r|
    ensures r != [] && r[0] == '#' ==> |t| < |r|
  {
    if r != [] && r[0] != '\n' then AtEol(r[1..]) else r
  }

  function Skip(r: string): (t: string)
    ensures |t| <= |r|
    ensures t != [] ==> !IsSpace(t[0]) && t[0] != '#'
    decreases |r|
  {
    var t := AfterSpaces(r);
    AfterSpacesStops(r);
    if t != [] && t[0] == '#' then Skip(AtEol(t)) else t
  }

  lemma {:induction false} SkipUnfold(r: string)
    ensures var t := AfterSpaces(r); Skip(r) == if t != [] && t[0] == '#' then Skip(AtEol(t)) else t
  {
  }

  lemma {:induction false} AfterSpacesStops(r: string)
    ensures AfterSpaces(r) != [] ==> !IsSpace(AfterSpaces(r)[0])
  {
    if r == [] || !IsSpace(r[0]) {
    } else {
      AfterSpacesStops(r[1..]);
    }
  }

  function IdentLength(r: string): (n: nat)
    ensures n <= |r|
  {
    if r != [] && IsIdent(r[0]) then 1 + IdentLength(r[1..]) else 0
  }

  lemma {:induction false} IdentLengthIs(r: string)
    ensures var n := IdentLength(r); (forall i :: 0 <= i < n ==> IsIdent(r[i])) && (n < |r| ==> !IsIdent(r[n]))
  {
    hide IsIdent;
    if r == [] || !IsIdent(r[0]) {
    } else {
      IdentLengthIs(r[1..]);
    }
  }

  function IdentifierStep(r: string): (s: Step<string>)
    ensures |s.rest| <= |r|
  {
    var n := IdentLength(r);
    if n == 0 then Fail(r, ExpectedIdentifier) else Got(r[..n], r[n..])
  }

  function BareLength(r: string): (n: nat)
    ensures n <= |r|
  {
    if r != [] && IsBare(r[0]) then 1 + BareLength(r[1..]) else 0
  }

  lemma {:induction false} BareLengthIs(r: string)
    ensures var n := BareLength(r); (forall i :: 0 <= i < n ==> IsBare(r[i])) && (n < |r| ==> !IsBare(r[n]))
  {
    hide IsBare;
    if r == [] || !IsBare(r[0]) {
    } else {
      BareLengthIs(r[1..]);
    }
  }

  function Bare(r: string): (s: Step<string>)
    ensures |s.rest| <= |r| && (s.Got? ==> |s.rest| < |r|)
  {
    var n := BareLength(r);
    if n == 0 then Fail(r, ExpectedValue) else Got(r[..n], r[n..])
  }

  function Quoted(r: string, quote: char, output: string): (s: Step<string>)
    ensures |s.rest| <= |r| && (s.Got? ==> |s.rest| < |r|)
  {
    if r == [] then Fail(r, MissingQuote)
    else if r[0] == quote then Got(output, r[1..])
    else if r[0] != '\\' then Quoted(r[1..], quote, output + [r[0]])
    else if |r| > 1 then Quoted(r[2..], quote, output + [r[1]])
    else Fail(r[1..], UnterminatedEscape)
  }

  lemma {:induction false} QuotedUnfold(r: string, quote: char, output: string)
    ensures Quoted(r, quote, output) ==
      if r == [] then Fail(r, MissingQuote)
      else if r[0] == quote then Got(output, r[1..])
      else if r[0] != '\\' then Quoted(r[1..], quote, output + [r[0]])
      else if |r| > 1 then Quoted(r[2..], quote, output + [r[1]])
      else Fail(r[1..], UnterminatedEscape)
  {
  }

  function ValueStep(r: string): (s: Step<string>)
    ensures |s.rest| <= |r| && (s.Got? ==> |s.rest| < |r|)
  {
    var r := Skip(r);
    if r != [] && IsQuote(r[0]) then Quoted(r[1..], r[0], []) else Bare(r)
  }

  /** The value of a successful step is the byte itself. */
  function ExpectStep(r: string, b: char): (s: Step<char>)
    ensures |s.rest| <= |r| && (s.Got? ==> |s.rest| < |r|)
  {
    var r := Skip(r);
    if r != [] && r[0] == b then Got(b, r[1..]) else Fail(r, ExpectedByte(b))
  }

  /** What a byte in front of the rest of the input is to the parser: white space, the start of a comment, part of
      an identifier, part of a value without quotes, or a quote. */
  lemma {:induction false} ByteMeaning(b: char, t: string)
    ensures b == ' ' || b == '\t' || b == '\n' || b == '\r' || b == '\U{000C}' ==> Skip([b] + t) == Skip(t)
    ensures b != ' ' && b != '\t' && b != '\n' && b != '\r' && b != '\U{000C}' && b != '#' ==> Skip([b] + t) == [b] + t
    ensures b == '#' ==> Skip([b] + t) == Skip(AtEol(t))
    ensures AtEol([b] + t) == if b == '\n' then [b] + t else AtEol(t)
    ensures IdentLength([b] + t) ==
      if 'a' <= b <= 'z' || 'A' <= b <= 'Z' || '0' <= b <= '9' || b == '_' || b == '.' || b == '-' || b == ':'
      then 1 + IdentLength(t) else 0
    ensures BareLength([b] + t) ==
      if b != ' ' && b != '\t' && b != '\n' && b != '\r' && b != '\U{000C}' && b != ';' then 1 + BareLength(t) else 0
    ensures b == '"' || b == '\'' ==> ValueStep([b] + t) == Quoted(t, b, [])
    ensures b != ' ' && b != '\t' && b != '\n' && b != '\r' && b != '\U{000C}' && b != '#' && b != '"' && b != '\'' ==>
      ValueStep([b] + t) == Bare([b] + t)
  {
    hide Quoted, Bare;
    assert ([b] + t)[1..] == t;
  }

  /** `key = value ;` */
  function Definition(r: string): (s: Step<(string, string)>)
    ensures |s.rest| <= |r| && (s.Got? ==> |s.rest| < |r|)
  {
    var key := IdentifierStep(r);
    if key.Fail? then Fail(key.rest, key.why) else
    var eq := ExpectStep(key.rest, '=');
    if eq.Fail? then Fail(eq.rest, eq.why) else
    var value := ValueStep(eq.rest);
    if value.Fail? then Fail(value.rest, value.why) else
    var semi := ExpectStep(value.rest, ';');
    if semi.Fail? then Fail(semi.rest, semi.why) else Got((key.value, value.value), semi.rest)
  }

  /** Definitions up to and including the closing brace, added to `values`. */
  function Definitions(r: string, values: Values): (s: Step<Values>)
    ensures |s.rest| <= |r| && (s.Got? ==> |s.rest| < |r|)
    decreases |r|
  {
    var r := Skip(r);
    if r != [] && r[0] == '}' then Got(values, r[1..])
    else
      var d := Definition(r);
      if d.Fail? then Fail(d.rest, d.why) else Definitions(d.rest, values[d.value.0 := d.value.1])
  }

  /** `name { definitions }` */
  function Block(r: string): (s: Step<(string, Values)>)
    ensures |s.rest| <= |r| && (s.Got? ==> |s.rest| < |r|)
  {
    var name := IdentifierStep(r);
    if name.Fail? then Fail(name.rest, name.why) else
    var open := ExpectStep(name.rest, '{');
    if open.Fail? then Fail(open.rest, open.why) else
    var values := Definitions(open.rest, map[]);
    if values.Fail? then Fail(values.rest, values.why) else Got((name.value, values.value), values.rest)
  }

  function File(r: string, blocks: Config): (s: Step<Config>)
    ensures |s.rest| <= |r|
    decreases |r|
  {
    var r := Skip(r);
    if r == [] then Got(blocks, r)
    else
      var b := Block(r);
      if b.Fail? then Fail(b.rest, b.why) else File(b.rest, blocks[b.value.0 := b.value.1])
  }

  /** What `parse` makes of a whole input. */
  function Parsed(input: string): Result<Config> {
    match File(input, map[])
    case Got(blocks, _) => Ok(blocks)
    case Fail(rest, why) => Syntax(|input| - |rest|, why)
  }

  // ---------- the parser ----------

  class Parser {
    const input: string
    var pos: nat

    ghost predicate Valid() reads this { pos <= |input| }

    /** What is still to be read. */
    ghost function Rest(): string reads this requires Valid() { input[pos..] }

    constructor (text: string)
      ensures Valid() && input == text && pos == 0
    {
      input, pos := text, 0;
    }

    /** `r` is what a step at the current position of the input leads to. */
    ghost predicate Follows<T(!new)>(r: Result<T>, s: Step<T>) reads this requires Valid() {
      match s
      case Got(value, rest) => r == Ok(value) && Rest() == rest
      case Fail(rest, why) => r == Syntax(pos, why) && Rest() == rest
    }

    method SkipSpaceAndComments() returns (more: bool)
      requires Valid()
      modifies this
      ensures Valid() && Rest() == Skip(old(Rest())) && pos >= old(pos)
      ensures more <==> pos < |input|
    {
      hide Skip, IsSpace;
      while true
        invariant Valid() && Skip(Rest()) == Skip(old(Rest())) && pos >= old(pos)
        decreases |input| - pos
      {
        ghost var r := Rest();
        SkipUnfold(r);
        while pos < |input| && IsSpace(input[pos])
          invariant Valid() && AfterSpaces(Rest()) == AfterSpaces(r) && pos >= old(pos) && |Rest()| <= |r|
        {
          assert input[pos..][1..] == input[pos + 1..];
          pos := pos + 1;
        }
        if pos < |input| && input[pos] == '#' {
          ghost var t := Rest();
          while pos < |input| && input[pos] != '\n'
            invariant Valid() && AtEol(Rest()) == AtEol(t) && pos >= old(pos) && |Rest()| <= |t|
          {
            assert input[pos..][1..] == input[pos + 1..];
            pos := pos + 1;
          }
          assert Rest() == AtEol(t);
        } else {
          return pos < |input|;
        }
      }
    }

    method Identifier() returns (r: Result<string>)
      requires Valid()
      modifies this
      ensures Valid() && Follows(r, IdentifierStep(old(Rest()))) && pos >= old(pos)
    {
      hide IsIdent;
      var start := pos;
      while pos < |input| && IsIdent(input[pos])
        invariant Valid() && pos >= start && IdentLength(old(Rest())) == pos - start + IdentLength(Rest())
      {
        assert input[pos..] == [input[pos]] + input[pos + 1..];
        pos := pos + 1;
      }
      if start == pos {
        return Syntax(pos, ExpectedIdentifier);
      }
      r := Ok(input[start..pos]);
      assert input[start..][..pos - start] == input[start..pos];
    }

    method Value() returns (r: Result<string>)
      requires Valid()
      modifies this
      ensures Valid() && Follows(r, ValueStep(old(Rest()))) && pos >= old(pos)
    {
      hide Skip, Quoted, Bare;
      var _ := SkipSpaceAndComments();
      if pos < |input| && IsQuote(input[pos]) {
        r := QuotedValue();
      } else {
        r := BareValue();
      }
    }

    /** The branch of `value` for a value without quotes. */
    method BareValue() returns (r: Result<string>)
      requires Valid()
      modifies this
      ensures Valid() && Follows(r, Bare(old(Rest()))) && pos >= old(pos)
    {
      hide IsBare;
      var start := pos;
      while pos < |input| && IsBare(input[pos])
        invariant Valid() && pos >= start && BareLength(old(Rest())) == pos - start + BareLength(Rest())
      {
        assert input[pos..] == [input[pos]] + input[pos + 1..];
        pos := pos + 1;
      }
      if start == pos {
        return Syntax(pos, ExpectedValue);
      }
      r := Ok(input[start..pos]);
      assert input[start..][..pos - start] == input[start..pos];
    }

    /** The branch of `value` for a value in quotes. */
    method QuotedValue() returns (r: Result<string>)
      requires Valid() && pos < |input|
      modifies this
      ensures Valid() && Follows(r, Quoted(old(Rest())[1..], input[old(pos)], [])) && pos >= old(pos)
    {
      hide Quoted;
      var quote := input[pos];
      ghost var s := Quoted(Rest()[1..], quote, []);
      pos := pos + 1;
      var output := [];
      while pos < |input|
        invariant Valid() && pos >= old(pos) && Quoted(Rest(), quote, output) == s
      {
        var b := input[pos];
        QuotedUnfold(Rest(), quote, output);
        assert input[pos..][1..] == input[pos + 1..];
        pos := pos + 1;
        if b == quote {
          return Ok(output);
        }
        if b == '\\' {
          if pos < |input| {
            assert input[pos - 1..][2..] == input[pos + 1..];
            output := output + [input[pos]];
            pos := pos + 1;
          } else {
            return Syntax(pos, UnterminatedEscape);
          }
        } else {
          output := output + [b];
        }
      }
      QuotedUnfold(Rest(), quote, output);
      return Syntax(pos, MissingQuote);
    }

    method Expect(b: char) returns (r: Result<char>)
      requires Valid()
      modifies this
      ensures Valid() && Follows(r, ExpectStep(old(Rest()), b)) && pos >= old(pos)
    {
      var _ := SkipSpaceAndComments();
      var ok := Consume(b);
      r := if ok then Ok(b) else Syntax(pos, ExpectedByte(b));
    }

    method Consume(b: char) returns (ok: bool)
      requires Valid()
      modifies this
      ensures Valid() && (ok <==> old(Rest()) != [] && old(Rest())[0] == b)
      ensures pos == old(pos) + if ok then 1 else 0
    {
      ok := pos < |input| && input[pos] == b;
      if ok { pos := pos + 1; }
    }

    method Parse() returns (r: Result<Config>)
      requires Valid() && pos == 0
      modifies this
      ensures r == Parsed(input)
    {
      hide Skip, Block;
      var blocks: Config := map[];
      assert input[0..] == input;
      while true
        invariant Valid() && File(Rest(), blocks) == File(input, map[])
        decreases |input| - pos
      {
        var more := SkipSpaceAndComments();
        if !more {
          return Ok(blocks);
        }
        var block := ParseBlock();
        if block.Syntax? { return Syntax(block.offset, block.message); }
        blocks := blocks[block.value.0 := block.value.1];
      }
    }

    /** One round of the outer loop of `parse`. */
    method ParseBlock() returns (r: Result<(string, Values)>)
      requires Valid()
      modifies this
      ensures Valid() && Follows(r, Block(old(Rest()))) && pos >= old(pos)
    {
      hide Skip, Definitions, IdentifierStep, ExpectStep;
      var name := Identifier();
      if name.Syntax? { return Syntax(name.offset, name.message); }
      var open := Expect('{');
      if open.Syntax? { return Syntax(open.offset, open.message); }
      var values := ParseDefinitions();
      if values.Syntax? { return Syntax(values.offset, values.message); }
      r := Ok((name.value, values.value));
    }

    /** The inner loop of `parse`. */
    method ParseDefinitions() returns (r: Result<Values>)
      requires Valid()
      modifies this
      ensures Valid() && Follows(r, Definitions(old(Rest()), map[])) && pos >= old(pos)
    {
      hide Skip, Definition;
      var values: Values := map[];
      while true
        invariant Valid() && Definitions(Rest(), values) == Definitions(old(Rest()), map[]) && pos >= old(pos)
        decreases |input| - pos
      {
        var _ := SkipSpaceAndComments();
        var closed := Consume('}');
        if closed {
          return Ok(values);
        }
        var entry := ParseDefinition();
        if entry.Syntax? { return Syntax(entry.offset, entry.message); }
        values := values[entry.value.0 := entry.value.1];
      }
    }

    /** One round of the inner loop. */
    method ParseDefinition() returns (r: Result<(string, string)>)
      requires Valid()
      modifies this
      ensures Valid() && Follows(r, Definition(old(Rest()))) && pos >= old(pos)
    {
      hide Skip, IdentifierStep, ValueStep, ExpectStep;
      var key := Identifier();
      if key.Syntax? { return Syntax(key.offset, key.message); }
      var eq := Expect('=');
      if eq.Syntax? { return Syntax(eq.offset, eq.message); }
      var value := Value();
      if value.Syntax? { return Syntax(value.offset, value.message); }
      var semi := Expect(';');
      if semi.Syntax? { return Syntax(semi.offset, semi.message); }
      r := Ok((key.value, value.value));
    }
  }
}
