/** The Python string operations the template preprocessor relies on, and what its escaping undoes:
    the reading of a quoted literal and the formatting of its value. */
module PyStrings {
  import opened Common

  // ----- split and join -----

  /** s.split(c) for a separator of one character. */
  function SplitOn(s: string, c: char): (pieces: seq<string>)
    ensures |pieces| > 0
  {
    if s == "" then [""]
    else
      var rest := SplitOn(s[1..], c);
      if s[0] == c then [""] + rest else [[s[0]] + rest[0]] + rest[1..]
  }

  /** separator.join(pieces) */
  function Join(separator: string, pieces: seq<string>): string {
    if |pieces| == 0 then ""
    else if |pieces| == 1 then pieces[0]
    else pieces[0] + separator + Join(separator, pieces[1..])
  }

  lemma {:induction false} JoinSplit(s: string, c: char)
    ensures Join([c], SplitOn(s, c)) == s
    ensures forall i | 0 <= i < |SplitOn(s, c)| :: c !in SplitOn(s, c)[i]
    ensures c !in s ==> SplitOn(s, c) == [s]
  {
    if s != "" {
      JoinSplit(s[1..], c);
      var rest, pieces := SplitOn(s[1..], c), SplitOn(s, c);
      assert s == [s[0]] + s[1..];
      if s[0] == c {
        assert pieces == [""] + rest && pieces[1..] == rest;
        assert Join([c], pieces) == "" + [c] + Join([c], rest);
      } else {
        JoinHead([c], s[0], rest);
        assert pieces == [[s[0]] + rest[0]] + rest[1..];
        assert c !in s ==> c !in s[1..];
      }
    }
  }

  lemma JoinHead(separator: string, x: char, pieces: seq<string>)
    requires pieces != []
    ensures Join(separator, [[x] + pieces[0]] + pieces[1..]) == [x] + Join(separator, pieces)
  {
    var more := [[x] + pieces[0]] + pieces[1..];
    assert more[1..] == pieces[1..];
    if |pieces| > 1 {
      var t := separator + Join(separator, pieces[1..]);
      assert [x] + pieces[0] + t == [x] + (pieces[0] + t);
      assert [x] + pieces[0] + separator + Join(separator, pieces[1..]) == [x] + pieces[0] + t;
      assert pieces[0] + separator + Join(separator, pieces[1..]) == pieces[0] + t;
    }
  }

  /** One character in front starts a piece of its own or goes in front of the first one. */
  function InFront(x: char, c: char, pieces: seq<string>): seq<string>
    requires pieces != []
  {
    if x == c then [""] + pieces else [[x] + pieces[0]] + pieces[1..]
  }

  lemma SplitStep(s: string, c: char)
    requires s != ""
    ensures SplitOn(s, c) == InFront(s[0], c, SplitOn(s[1..], c))
  {
  }

  lemma InFrontConcat(x: char, c: char, pieces: seq<string>, more: seq<string>)
    requires pieces != []
    ensures InFront(x, c, pieces + more) == InFront(x, c, pieces) + more
  {
    if x != c { assert (pieces + more)[1..] == pieces[1..] + more; }
  }

  lemma SplitNothing(c: char)
    ensures SplitOn("", c) == [""]
  {
  }

  lemma {:induction false} SplitAtSeparator(a: string, c: char, b: string)
    ensures SplitOn(a + [c] + b, c) == SplitOn(a, c) + SplitOn(b, c)
  {
    hide SplitOn, InFront;
    var s := a + [c] + b;
    SplitStep(s, c);
    if a == "" {
      hide *;
      SplitAtFront(s, c, b);
    } else {
      SplitAtSeparator(a[1..], c, b);
      assert s[1..] == a[1..] + [c] + b;
      SplitStep(a, c);
      InFrontConcat(a[0], c, SplitOn(a[1..], c), SplitOn(b, c));
    }
  }

  lemma SplitAtFront(s: string, c: char, b: string)
    requires s == "" + [c] + b
    ensures SplitOn(s, c) == SplitOn("", c) + SplitOn(b, c)
  {
    hide SplitOn;
    SplitStep(s, c);
    SplitNothing(c);
    assert s[1..] == b;
  }

  // ----- replacing and escaping -----

  /** s.replace(c, by) for a single character. */
  function Replace(s: string, c: char, by_: string): string {
    if s == "" then "" else (if s[0] == c then by_ else [s[0]]) + Replace(s[1..], c, by_)
  }

  /** What replaces one character. */
  function Replacement(x: char, c: char, by_: string): string {
    if x == c then by_ else [x]
  }

  lemma ReplaceStep(s: string, c: char, by_: string)
    requires s != ""
    ensures Replace(s, c, by_) == Replacement(s[0], c, by_) + Replace(s[1..], c, by_)
  {
  }

  lemma ReplaceNothing(c: char, by_: string)
    ensures Replace("", c, by_) == ""
  {
  }

  lemma {:induction false} ReplaceConcat(a: string, b: string, c: char, by_: string)
    ensures Replace(a + b, c, by_) == Replace(a, c, by_) + Replace(b, c, by_)
  {
    hide Replace, Replacement;
    if a == "" {
      assert a + b == b;
      ReplaceNothing(c, by_);
    } else {
      ReplaceConcat(a[1..], b, c, by_);
      ReplaceStep(a, c, by_);
      ReplaceStep(a + b, c, by_);
      assert (a + b)[1..] == a[1..] + b;
    }
  }

  /** The quotes a literal may have. */
  predicate IsQuote(c: char) { c == '\'' || c == '"' }

  /** escape_string */
  function EscapeString(delimiter: char, s: string): string {
    Replace(Replace(Replace(s, '\\', "\\\\"), delimiter, ['\\', delimiter]), '\n', "\\n")
  }

  /** escape_format_string */
  function EscapeFormatString(delimiter: char, s: string): string {
    Replace(Replace(EscapeString(delimiter, s), '{', "{{"), '}', "}}")
  }

  /** The text with its braces doubled, as format expects it. */
  function Doubled(s: string): string {
    Replace(Replace(s, '{', "{{"), '}', "}}")
  }

  lemma EscapeConcat(d: char, a: string, b: string)
    ensures EscapeFormatString(d, a + b) == EscapeFormatString(d, a) + EscapeFormatString(d, b)
  {
    var a1, b1 := Replace(a, '\\', "\\\\"), Replace(b, '\\', "\\\\");
    var a2, b2 := Replace(a1, d, ['\\', d]), Replace(b1, d, ['\\', d]);
    var a3, b3 := Replace(a2, '\n', "\\n"), Replace(b2, '\n', "\\n");
    ReplaceConcat(a, b, '\\', "\\\\");
    ReplaceConcat(a1, b1, d, ['\\', d]);
    ReplaceConcat(a2, b2, '\n', "\\n");
    ReplaceConcat(a3, b3, '{', "{{");
    ReplaceConcat(Replace(a3, '{', "{{"), Replace(b3, '{', "{{"), '}', "}}");
  }

  lemma ReplaceOne(c: char, by_: string, x: char)
    ensures Replace([x], c, by_) == if x == c then by_ else [x]
  {
    assert [x][1..] == "";
  }

  lemma ReplaceTwo(c: char, by_: string, x: char, y: char)
    requires x != c && y != c
    ensures Replace([x, y], c, by_) == [x, y]
  {
    ReplaceOne(c, by_, y);
    assert [x, y][1..] == [y] && [x] + [y] == [x, y];
  }

  /** What one character is escaped to. */
  function EscapedChar(d: char, c: char): string {
    if c == '\\' then "\\\\" else if c == d then ['\\', d] else if c == '\n' then "\\n"
    else if c == '{' then "{{" else if c == '}' then "}}" else [c]
  }

  lemma EscapeOne(d: char, c: char)
    requires IsQuote(d)
    ensures EscapeFormatString(d, [c]) == EscapedChar(d, c)
  {
    hide Replace;
    var e1 := Replace([c], '\\', "\\\\");
    var e2 := Replace(e1, d, ['\\', d]);
    var e3 := Replace(e2, '\n', "\\n");
    ReplaceOne('\\', "\\\\", c);
    EscapedPairs(d);
    if c == '\\' {
      ReplaceTwo(d, ['\\', d], '\\', '\\');
      ReplaceTwo('\n', "\\n", '\\', '\\');
      assert e3 == "\\\\";
    } else {
      ReplaceOne(d, ['\\', d], c);
      if c == d {
        ReplaceTwo('\n', "\\n", '\\', d);
        assert e3 == ['\\', d];
      } else {
        ReplaceOne('\n', "\\n", c);
        ReplaceOne('{', "{{", c);
        ReplaceOne('}', "}}", c);
        if c == '\n' { assert e3 == "\\n"; } else { assert e3 == [c]; }
      }
    }
  }

  /** Braces are not touched by the pairs the escaping writes. */
  lemma EscapedPairs(d: char)
    requires IsQuote(d)
    ensures Doubled("\\\\") == "\\\\" && Doubled(['\\', d]) == ['\\', d] && Doubled("\\n") == "\\n"
    ensures Replace("{{", '}', "}}") == "{{"
  {
    ReplaceTwo('{', "{{", '\\', '\\');
    ReplaceTwo('}', "}}", '\\', '\\');
    ReplaceTwo('{', "{{", '\\', d);
    ReplaceTwo('}', "}}", '\\', d);
    ReplaceTwo('{', "{{", '\\', 'n');
    ReplaceTwo('}', "}}", '\\', 'n');
    ReplaceTwo('}', "}}", '{', '{');
  }

  lemma DoubledStep(s: string)
    requires s != ""
    ensures Doubled(s) == (if s[0] == '{' then "{{" else if s[0] == '}' then "}}" else [s[0]]) + Doubled(s[1..])
  {
    var r := Replace(s[1..], '{', "{{");
    var head := if s[0] == '{' then "{{" else [s[0]];
    ReplaceConcat(head, r, '}', "}}");
    ReplaceTwo('}', "}}", '{', '{');
    ReplaceOne('}', "}}", s[0]);
  }

  lemma DoubledOne(c: char)
    ensures Doubled([c]) == if c == '{' then "{{" else if c == '}' then "}}" else [c]
  {
    DoubledStep([c]);
    assert [c][1..] == "";
  }

  // ----- reading a literal -----

  /** No carriage return and no NUL: escape_string leaves these alone, and a literal cannot hold them. */
  predicate Plain(s: string) { '\r' !in s && '\0' !in s }

  /** Reads a literal behind its opening quote: its value and what follows the closing quote.
      None where the literal is not closed on its line, for a NUL, and for the escapes that
      escape_string never writes. */
  function ReadLiteral(d: char, s: string): (r: Option<(string, string)>)
    ensures r.Some? ==> |r.value.1| < |s|
  {
    if s == "" then None
    else if s[0] == d then Some(("", s[1..]))
    else if s[0] == '\n' || s[0] == '\r' || s[0] == '\0' then None
    else if s[0] != '\\' then Behind([s[0]], ReadLiteral(d, s[1..]))
    else if |s| == 1 then None
    else if s[1] == '\\' || IsQuote(s[1]) then Behind([s[1]], ReadLiteral(d, s[2..]))
    else if s[1] == 'n' then Behind("\n", ReadLiteral(d, s[2..]))
    else None
  }

  function Behind(head: string, r: Option<(string, string)>): (q: Option<(string, string)>)
    ensures q.Some? <==> r.Some?
    ensures q.Some? ==> q.value.1 == r.value.1
  {
    match r case None => None case Some((t, rest)) => Some((head + t, rest))
  }

  lemma NothingIsEscaped(d: char)
    ensures EscapeFormatString(d, "") == "" && Doubled("") == ""
  {
  }

  /** Reading undoes the escaping of a text, exactly when the text is plain; the braces stay doubled. */
  lemma {:induction false} ReadEscaped(d: char, s: string, rest: string)
    requires IsQuote(d)
    ensures ReadLiteral(d, EscapeFormatString(d, s) + rest) ==
            if Plain(s) then Behind(Doubled(s), ReadLiteral(d, rest)) else None
  {
    hide EscapeFormatString, EscapedChar, Doubled, ReadLiteral, Behind;
    if s == "" {
      NothingIsEscaped(d);
      assert "" + rest == rest;
      BehindNothing(ReadLiteral(d, rest));
    } else {
      var c, tail := s[0], s[1..];
      assert s == [c] + tail;
      EscapeConcat(d, [c], tail);
      EscapeOne(d, c);
      ReadEscaped(d, tail, rest);
      ReadEscapedChar(d, c, EscapeFormatString(d, tail) + rest);
      assert EscapeFormatString(d, s) + rest == EscapedChar(d, c) + (EscapeFormatString(d, tail) + rest);
      assert Plain(s) <==> Plain([c]) && Plain(tail);
      BehindTwice(Doubled([c]), Doubled(tail), ReadLiteral(d, rest));
      BehindNone(Doubled([c]));
      DoubledStep(s);
      DoubledOne(c);
    }
  }

  lemma BehindNone(head: string)
    ensures Behind(head, None) == None
  {
  }

  lemma ReadEscapedChar(d: char, c: char, rest: string)
    requires IsQuote(d)
    ensures ReadLiteral(d, EscapedChar(d, c) + rest) ==
            if Plain([c]) then Behind(Doubled([c]), ReadLiteral(d, rest)) else None
  {
    hide Replace, Doubled, ReadLiteral, Behind;
    var s := EscapedChar(d, c) + rest;
    DoubledOne(c);
    if c == '{' || c == '}' {
      assert s[1..] == [c] + rest && s[1..][1..] == rest;
      ReadPlainChar(d, s);
      ReadPlainChar(d, s[1..]);
      BehindTwice([c], [c], ReadLiteral(d, rest));
      assert Plain([c]) && [c] + [c] == Doubled([c]);
    } else if |EscapedChar(d, c)| == 2 {
      assert s[2..] == rest;
      assert Doubled([c]) == [c] && Plain([c]);
      ReadPair(d, s);
    } else {
      assert s[1..] == rest;
      ReadPlainChar(d, s);
    }
  }

  /** A character that needs no escape is read as itself; a carriage return and a NUL end the reading. */
  lemma ReadPlainChar(d: char, s: string)
    requires IsQuote(d) && s != "" && s[0] != d && s[0] != '\\' && s[0] != '\n'
    ensures ReadLiteral(d, s) == if Plain([s[0]]) then Behind([s[0]], ReadLiteral(d, s[1..])) else None
  {
    assert Plain([s[0]]) <==> s[0] != '\r' && s[0] != '\0';
  }

  lemma ReadPair(d: char, s: string)
    requires IsQuote(d) && |s| > 1 && s[0] == '\\' && (s[1] == '\\' || IsQuote(s[1]) || s[1] == 'n')
    ensures ReadLiteral(d, s) == Behind([if s[1] == 'n' then '\n' else s[1]], ReadLiteral(d, s[2..]))
  {
  }

  lemma BehindNothing(r: Option<(string, string)>)
    ensures Behind("", r) == r
  {
    if r.Some? { assert "" + r.value.0 == r.value.0; }
  }

  lemma BehindTwice(a: string, b: string, r: Option<(string, string)>)
    ensures Behind(a, Behind(b, r)) == Behind(a + b, r)
  {
    if r.Some? { assert a + (b + r.value.0) == a + b + r.value.0; }
  }

  // ----- formatting -----

  /** template.format(args): {} takes the next argument, doubled braces stand for one. None for a lone
      brace, for missing arguments, and for the replacement fields that are never generated. */
  function Format(template: string, args: seq<string>): Option<string> {
    if template == "" then Some("")
    else if template[0] == '{' then
      if |template| == 1 then None
      else if template[1] == '{' then After("{", Format(template[2..], args))
      else if template[1] == '}' && |args| > 0 then After(args[0], Format(template[2..], args[1..]))
      else None
    else if template[0] == '}' then
      if |template| > 1 && template[1] == '}' then After("}", Format(template[2..], args)) else None
    else After([template[0]], Format(template[1..], args))
  }

  function After(head: string, r: Option<string>): Option<string> {
    match r case None => None case Some(t) => Some(head + t)
  }

  lemma AfterTwice(a: string, b: string, r: Option<string>)
    ensures After(a, After(b, r)) == After(a + b, r)
  {
    if r.Some? { assert a + (b + r.value) == a + b + r.value; }
  }

  lemma AfterNothing(r: Option<string>)
    ensures After("", r) == r
  {
    if r.Some? { assert "" + r.value == r.value; }
  }

  /** Formatting undoes the doubling of braces. */
  lemma {:induction false} FormatDoubled(s: string, rest: string, args: seq<string>)
    ensures Format(Doubled(s) + rest, args) == After(s, Format(rest, args))
  {
    if s == "" {
      assert Doubled(s) + rest == rest;
      AfterNothing(Format(rest, args));
    } else {
      var tail := Doubled(s[1..]) + rest;
      FormatDoubled(s[1..], rest, args);
      DoubledStep(s);
      var t := Doubled(s) + rest;
      if s[0] == '{' || s[0] == '}' {
        assert t[2..] == tail;
      } else {
        assert t[1..] == tail;
      }
      AfterTwice([s[0]], s[1..], Format(rest, args));
      assert [s[0]] + s[1..] == s;
    }
  }
}
