/** What the errors of the Rust configuration parser say of its input (rust/auks-config/src/lib.rs). */
module RustConfigErrors {
  import opened RustConfig

  /** `t` is the end of `r`. */
  predicate Ends(r: string, t: string) { |t| <= |r| && r[|r| - |t|..] == t }

  /** The parser stops in front of `rest` for the reason given, having read `r` so far that `rest` remains. */
  predicate Blames(r: string, rest: string, why: Why) {
    && Ends(r, rest)
    && match why
       case ExpectedByte(b) =>
         && (b == '{' || b == '=' || b == ';')
         && (rest != [] ==>
              && rest[0] != b && rest[0] != ' ' && rest[0] != '\t' && rest[0] != '\n' && rest[0] != '\r'
              && rest[0] != '\U{000C}' && rest[0] != '#')
       case ExpectedIdentifier =>
         rest != [] ==>
           !('a' <= rest[0] <= 'z' || 'A' <= rest[0] <= 'Z' || '0' <= rest[0] <= '9'
             || rest[0] == '_' || rest[0] == '.' || rest[0] == '-' || rest[0] == ':')
       case ExpectedValue => rest == [] || rest[0] == ';'
       case MissingQuote => rest == []
       case UnterminatedEscape => rest == [] && r != [] && r[|r| - 1] == '\\'
  }

  lemma {:induction false} EndsTrans(r: string, s: string, t: string)
    requires Ends(r, s) && Ends(s, t)
    ensures Ends(r, t)
  {
    assert r[|r| - |t|..] == r[|r| - |s|..][|s| - |t|..];
  }

  lemma {:induction false} EndsSlice(r: string, i: nat)
    requires i <= |r|
    ensures Ends(r, r[i..])
  {
  }

  lemma {:induction false} BlamesMore(r: string, s: string, rest: string, why: Why)
    requires Ends(r, s) && Blames(s, rest, why)
    ensures Blames(r, rest, why)
  {
    EndsTrans(r, s, rest);
    assert s != [] ==> s[|s| - 1] == r[|r| - |s|..][|s| - 1] && s[|s| - 1] == r[|r| - 1];
  }

  // ---------- what each step leaves ----------

  lemma {:induction false} SpacesEnd(r: string)
    ensures Ends(r, AfterSpaces(r))
  {
    hide Ends;
    EndsSlice(r, 0);
    assert r[0..] == r;
    if r == [] || !IsSpace(r[0]) {
    } else {
      SpacesEnd(r[1..]);
      EndsSlice(r, 1);
      EndsTrans(r, r[1..], AfterSpaces(r));
    }
  }

  lemma {:induction false} EolEnd(r: string)
    ensures Ends(r, AtEol(r))
  {
    hide Ends;
    EndsSlice(r, 0);
    assert r[0..] == r;
    if r == [] || r[0] == '\n' {
    } else {
      EolEnd(r[1..]);
      EndsSlice(r, 1);
      EndsTrans(r, r[1..], AtEol(r));
    }
  }

  lemma {:induction false} SkipEnd(r: string)
    ensures Ends(r, Skip(r))
    decreases |r|
  {
    hide Ends, AfterSpaces, AtEol, Skip;
    SkipUnfold(r);
    var t := AfterSpaces(r);
    SpacesEnd(r);
    if t == [] || t[0] != '#' {
    } else {
      EolEnd(t);
      SkipEnd(AtEol(t));
      EndsTrans(r, t, AtEol(t));
      EndsTrans(r, AtEol(t), Skip(r));
    }
  }

  lemma {:induction false} IdentifierEnd(r: string)
    ensures var s := IdentifierStep(r); if s.Got? then Ends(r, s.rest) else Blames(r, s.rest, s.why)
  {
    hide IdentLength, Ends;
    var n := IdentLength(r);
    EndsSlice(r, n);
    EndsSlice(r, 0);
    assert r[0..] == r;
    if n == 0 && r != [] { NoIdent(r); }
  }

  lemma {:induction false} NoIdent(r: string)
    requires IdentLength(r) == 0 && r != []
    ensures !('a' <= r[0] <= 'z') && !('A' <= r[0] <= 'Z') && !('0' <= r[0] <= '9')
    ensures r[0] != '_' && r[0] != '.' && r[0] != '-' && r[0] != ':'
  {
  }

  lemma {:induction false} ExpectEnd(r: string, b: char)
    requires b == '{' || b == '=' || b == ';'
    ensures var s := ExpectStep(r, b); if s.Got? then Ends(r, s.rest) else Blames(r, s.rest, s.why)
  {
    var t := Skip(r);
    SkipEnd(r);
    hide Skip;
    if t != [] && t[0] == b {
      EndsSlice(t, 1);
      EndsTrans(r, t, t[1..]);
    }
  }

  lemma {:induction false} QuotedEnd(r: string, quote: char, output: string)
    ensures var s := Quoted(r, quote, output); if s.Got? then Ends(r, s.rest) else Blames(r, s.rest, s.why)
    decreases |r|
  {
    hide Quoted, Ends, Blames;
    QuotedUnfold(r, quote, output);
    if r == [] {
      QuotedStops(r, MissingQuote);
    } else {
      EndsSlice(r, 1);
      if r[0] == quote {
      } else if r[0] != '\\' {
        QuotedEnd(r[1..], quote, output + [r[0]]);
        QuotedMore(r, r[1..], Quoted(r[1..], quote, output + [r[0]]));
      } else if |r| > 1 {
        EndsSlice(r, 2);
        QuotedEnd(r[2..], quote, output + [r[1]]);
        QuotedMore(r, r[2..], Quoted(r[2..], quote, output + [r[1]]));
      } else {
        QuotedStops(r, UnterminatedEscape);
      }
    }
  }

  lemma {:induction false} QuotedStops(r: string, why: Why)
    requires if why.MissingQuote? then r == [] else why.UnterminatedEscape? && |r| == 1 && r[0] == '\\'
    ensures Blames(r, [], why) && (r != [] ==> r[1..] == [])
  {
    EndsSlice(r, |r|);
  }

  lemma {:induction false} QuotedMore<T>(r: string, t: string, s: Step<T>)
    requires Ends(r, t) && if s.Got? then Ends(t, s.rest) else Blames(t, s.rest, s.why)
    ensures if s.Got? then Ends(r, s.rest) else Blames(r, s.rest, s.why)
  {
    hide Ends, Blames;
    if s.Got? { EndsTrans(r, t, s.rest); } else { BlamesMore(r, t, s.rest, s.why); }
  }

  lemma {:induction false} BareEnd(r: string)
    requires r != [] ==> !IsSpace(r[0])
    ensures var s := Bare(r); if s.Got? then Ends(r, s.rest) else Blames(r, s.rest, s.why)
  {
    BareLengthIs(r);
    EndsSlice(r, BareLength(r));
    EndsSlice(r, 0);
    assert r[0..] == r;
  }

  lemma {:induction false} ValueEnd(r: string)
    ensures var s := ValueStep(r); if s.Got? then Ends(r, s.rest) else Blames(r, s.rest, s.why)
  {
    hide Quoted, Bare, Ends, Blames, Skip;
    var t := Skip(r);
    SkipEnd(r);
    if t != [] && IsQuote(t[0]) {
      QuotedEnd(t[1..], t[0], []);
      EndsSlice(t, 1);
      QuotedMore(t, t[1..], Quoted(t[1..], t[0], []));
      QuotedMore(r, t, ValueStep(r));
    } else {
      BareEnd(t);
      QuotedMore(r, t, ValueStep(r));
    }
  }

  lemma {:induction false} DefinitionEnd(r: string)
    ensures var s := Definition(r); if s.Got? then Ends(r, s.rest) else Blames(r, s.rest, s.why)
  {
    hide IdentifierStep, ExpectStep, ValueStep, Ends, Blames;
    IdentifierEnd(r);
    var key := IdentifierStep(r);
    if key.Got? {
      ExpectEnd(key.rest, '=');
      var eq := ExpectStep(key.rest, '=');
      QuotedMore(r, key.rest, eq);
      if eq.Got? {
        ValueEnd(eq.rest);
        var value := ValueStep(eq.rest);
        QuotedMore(r, eq.rest, value);
        if value.Got? {
          ExpectEnd(value.rest, ';');
          QuotedMore(r, value.rest, ExpectStep(value.rest, ';'));
        }
      }
    }
  }

  lemma {:induction false} DefinitionsEnd(r: string, values: Values)
    ensures var s := Definitions(r, values); if s.Got? then Ends(r, s.rest) else Blames(r, s.rest, s.why)
    decreases |r|
  {
    hide Definition, Skip, Ends, Blames;
    var t := Skip(r);
    SkipEnd(r);
    if t != [] && t[0] == '}' {
      EndsSlice(t, 1);
      EndsTrans(r, t, t[1..]);
    } else {
      DefinitionEnd(t);
      var d := Definition(t);
      QuotedMore(r, t, d);
      if d.Got? {
        var more := values[d.value.0 := d.value.1];
        DefinitionsEnd(d.rest, more);
        QuotedMore(r, d.rest, Definitions(d.rest, more));
      }
    }
  }

  lemma {:induction false} BlockEnd(r: string)
    ensures var s := Block(r); if s.Got? then Ends(r, s.rest) else Blames(r, s.rest, s.why)
  {
    hide IdentifierStep, ExpectStep, Definitions, Ends, Blames;
    IdentifierEnd(r);
    var name := IdentifierStep(r);
    if name.Got? {
      ExpectEnd(name.rest, '{');
      var open := ExpectStep(name.rest, '{');
      QuotedMore(r, name.rest, open);
      if open.Got? {
        DefinitionsEnd(open.rest, map[]);
        QuotedMore(r, open.rest, Definitions(open.rest, map[]));
      }
    }
  }

  lemma {:induction false} FileEnd(r: string, blocks: Config)
    ensures var s := File(r, blocks); if s.Got? then s.rest == [] else Blames(r, s.rest, s.why)
    decreases |r|
  {
    hide Block, Skip, Ends, Blames;
    var t := Skip(r);
    SkipEnd(r);
    if t == [] {
    } else {
      BlockEnd(t);
      var b := Block(t);
      QuotedMore(r, t, b);
      if b.Got? {
        var more := blocks[b.value.0 := b.value.1];
        FileEnd(b.rest, more);
        if File(b.rest, more).Fail? { BlamesMore(r, b.rest, File(b.rest, more).rest, File(b.rest, more).why); }
      }
    }
  }

  /** The offset of a syntax error is where the input does not have what the message asks for: a byte other than the
      one expected and no gap, no identifier byte, the end of a value that is missing, or the end of the input within
      quotes, after a backslash if the message is about the escape. */
  lemma {:induction false} ErrorMeaning(input: string)
    ensures match Parsed(input)
      case Ok(_) => true
      case Syntax(offset, why) =>
        offset <= |input| && match why
        case ExpectedByte(b) =>
          && (b == '{' || b == '=' || b == ';')
          && (offset < |input| ==> var x := input[offset];
               x != b && x != ' ' && x != '\t' && x != '\n' && x != '\r' && x != '\U{000C}' && x != '#')
        case ExpectedIdentifier =>
          offset < |input| ==> var x := input[offset];
            !('a' <= x <= 'z' || 'A' <= x <= 'Z' || '0' <= x <= '9' || x == '_' || x == '.' || x == '-' || x == ':')
        case ExpectedValue => offset == |input| || input[offset] == ';'
        case MissingQuote => offset == |input|
        case UnterminatedEscape => offset == |input| > 0 && input[offset - 1] == '\\'
  {
    hide File;
    FileEnd(input, map[]);
  }
}
