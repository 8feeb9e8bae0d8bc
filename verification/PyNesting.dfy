/** The indentation of the generated code: read the way Python reads it, it nests the lines as the blocks
    of the template are nested. */
module PyNesting {
  import opened PyStrings
  import opened BlockTree
  import opened PyCode

  // ----- nesting by indentation -----

  /** A line of code and the lines indented under it. */
  datatype Node = Node(text: string, inner: seq<Node>)

  function LeadingSpaces(line: string): (n: nat)
    ensures n <= |line|
  {
    if line != "" && line[0] == ' ' then 1 + LeadingSpaces(line[1..]) else 0
  }

  function Unindented(line: string): string { line[LeadingSpaces(line)..] }

  /** How many lines at the beginning are indented by more than d. */
  function Extent(lines: seq<string>, d: nat): (n: nat)
    ensures n <= |lines|
  {
    if lines != [] && LeadingSpaces(lines[0]) > d then 1 + Extent(lines[1..], d) else 0
  }

  /** Each line with those behind it that are indented more. */
  function Nest(lines: seq<string>): seq<Node>
    decreases |lines|
  {
    if lines == [] then []
    else
      var n := Extent(lines[1..], LeadingSpaces(lines[0]));
      [Node(Unindented(lines[0]), Nest(lines[1..n + 1]))] + Nest(lines[n + 1..])
  }

  /** Python passes over empty lines. */
  function NonEmpty(lines: seq<string>): seq<string> {
    if lines == [] then [] else (if lines[0] == "" then [] else [lines[0]]) + NonEmpty(lines[1..])
  }

  /** The nesting of the lines of a text. */
  function NestingOf(code: string): seq<Node> { Nest(NonEmpty(SplitOn(code, '\n'))) }

  // ----- the nesting of the template -----

  predicate IsEmptyLine(t: Tree) { t.tag != Spool && t.header == "" }

  /** The code line of a block, without its end. */
  function LineText(t: Tree, depth: int, spool: string): string {
    if t.tag == Spool then
      Indentation(depth) + (spool + "('" + Template(t.header) + "'.format(" + Arguments(t.header) + "))" + Remark(t))
    else if t.header != "" then Indentation(depth) + (t.header + Remark(t))
    else ""
  }

  /** The blocks that have a line of code, nested as in the template. */
  function Shape(items: seq<Tree>, spool: string): seq<Node>
    decreases items
  {
    if items == [] then []
    else
      (if IsEmptyLine(items[0]) then [] else [Node(LineText(items[0], 0, spool), Shape(items[0].items, spool))])
      + Shape(items[1..], spool)
  }

  /** No line of Python is continued, and none begins with a further space. */
  predicate OneLineHeaders(items: seq<Tree>)
    decreases items
  {
    items == [] ||
    var t := items[0];
    && '\n' !in t.header && (t.tag != Spool && t.header != "" ==> t.header[0] != ' ')
    && OneLineHeaders(t.items) && OneLineHeaders(items[1..])
  }

  /** Lines of text and close tags have no items. */
  predicate Tidy(items: seq<Tree>)
    decreases items
  {
    items == [] ||
    var t := items[0];
    (t.tag == Spool || IsEmptyLine(t) ==> t.items == []) && Tidy(t.items) && Tidy(items[1..])
  }

  lemma {:induction false} EachIsWellFormed(parent: Tag, items: seq<Tree>, i: nat)
    requires AllWellFormed(parent, items) && i < |items|
    ensures WellFormed(parent, items[i])
  {
    hide WellFormed;
    if i < |items| - 1 { EachIsWellFormed(parent, items[..|items| - 1], i); }
  }

  lemma {:induction false} WellFormedIsTidy(parent: Tag, items: seq<Tree>)
    requires forall i | 0 <= i < |items| :: WellFormed(parent, items[i])
    ensures Tidy(items)
    decreases items
  {
    if items != [] {
      var t := items[0];
      hide FirstWord, TagOf;
      assert WellFormed(parent, t);
      WellFormedIsTidy(parent, items[1..]);
      if t.items != [] {
        forall i | 0 <= i < |t.items| ensures WellFormed(t.tag, t.items[i]) { EachIsWellFormed(t.tag, t.items, i); }
        WellFormedIsTidy(t.tag, t.items);
        NoWordInNothing();
      }
    }
  }

  lemma {:induction false} NoWordInNothing()
    ensures FirstWord("") == ""
  {
  }

  // ----- the code, line by line -----

  /** The lines of the code, empty ones included. */
  function Texts(items: seq<Tree>, depth: int, spool: string): seq<string>
    decreases items
  {
    if items == [] then []
    else [LineText(items[0], depth, spool)] + Texts(items[0].items, depth + 1, spool) + Texts(items[1..], depth, spool)
  }

  lemma {:induction false} LineIsText(t: Tree, depth: int, spool: string)
    ensures CodeLine(t, depth, spool) == LineText(t, depth, spool) + "\n"
  {
    hide Indentation, Template, Arguments, Remark;
  }

  predicate OneLine(s: string) { '\n' !in s }

  lemma {:induction false} EscapedIsOneLine(s: string)
    ensures OneLine(EscapeFormatString('\'', s))
  {
    if s != "" {
      assert s == [s[0]] + s[1..];
      EscapeConcat('\'', [s[0]], s[1..]);
      EscapeOne('\'', s[0]);
      EscapedIsOneLine(s[1..]);
      hide EscapeFormatString;
    }
  }

  predicate AllOneLine(pieces: seq<string>) { pieces == [] || (OneLine(pieces[0]) && AllOneLine(pieces[1..])) }

  lemma {:induction false} JoinIsOneLine(separator: string, pieces: seq<string>)
    requires OneLine(separator) && AllOneLine(pieces)
    ensures OneLine(Join(separator, pieces))
  {
    if |pieces| > 1 { JoinIsOneLine(separator, pieces[1..]); }
  }

  lemma {:induction false} EscapedAllIsOneLine(texts: seq<string>)
    ensures AllOneLine(EscapedAll(texts))
  {
    if texts != [] {
      EscapedIsOneLine(texts[0]);
      EscapedAllIsOneLine(texts[1..]);
      hide EscapeFormatString, OneLine;
      assert EscapedAll(texts)[1..] == EscapedAll(texts[1..]);
    }
  }

  lemma {:induction false} ParenthesisedIsOneLine(expressions: seq<string>)
    requires AllOneLine(expressions)
    ensures AllOneLine(Parenthesised(expressions))
  {
    if expressions != [] {
      ParenthesisedIsOneLine(expressions[1..]);
      assert Parenthesised(expressions)[1..] == Parenthesised(expressions[1..]);
    }
  }

  lemma {:induction false} OddsAreOneLine(pieces: seq<string>)
    requires AllOneLine(pieces)
    ensures AllOneLine(Odds(pieces))
    decreases |pieces|
  {
    if |pieces| >= 2 {
      assert AllOneLine(pieces[1..]) && pieces[1..][1..] == pieces[2..];
      OddsAreOneLine(pieces[2..]);
      assert Odds(pieces)[1..] == Odds(pieces[2..]) && pieces[1..][0] == pieces[1];
    }
  }

  lemma {:induction false} PiecesAreOneLine(s: string, c: char)
    requires OneLine(s)
    ensures AllOneLine(SplitOn(s, c))
  {
    var pieces := SplitOn(s, c);
    if s == "" {
      assert pieces[1..] == [];
    } else {
      PiecesAreOneLine(s[1..], c);
      var rest := SplitOn(s[1..], c);
      if s[0] == c { assert pieces[1..] == rest; } else { assert pieces[1..] == rest[1..]; }
    }
  }

  lemma {:induction false} IndentationIsOneLine(indent: int)
    ensures OneLine(Indentation(indent))
    decreases indent
  {
    if indent > 0 { IndentationIsOneLine(indent - 1); }
  }

  lemma {:induction false} RemarkIsOneLine(t: Tree)
    ensures OneLine(Remark(t))
  {
    NoNewlineInDigits(if t.lineno < 0 then -t.lineno else t.lineno);
    hide Digits;
  }

  lemma {:induction false} FormatIsOneLine(header: string)
    requires OneLine(header)
    ensures OneLine(Template(header)) && OneLine(Arguments(header))
  {
    hide Join, SplitOn, EscapedAll, Evens, Odds, Parenthesised, AllOneLine;
    var pieces := SplitOn(header, '`');
    PiecesAreOneLine(header, '`');
    EscapedAllIsOneLine(Evens(pieces));
    JoinIsOneLine("{}", EscapedAll(Evens(pieces)));
    OddsAreOneLine(pieces);
    ParenthesisedIsOneLine(Odds(pieces));
    JoinIsOneLine(", ", Parenthesised(Odds(pieces)));
  }

  lemma {:induction false} TextIsOneLine(t: Tree, depth: int, spool: string)
    requires OneLine(t.header) && OneLine(spool)
    ensures OneLine(LineText(t, depth, spool))
  {
    hide Template, Arguments, Indentation, Remark;
    IndentationIsOneLine(depth);
    RemarkIsOneLine(t);
    FormatIsOneLine(t.header);
  }

  /** Splitting the code at its newlines gives its lines. */
  lemma {:induction false} SplitCode(items: seq<Tree>, depth: int, spool: string, rest: string)
    requires OneLineHeaders(items) && Tidy(items) && OneLine(spool)
    ensures SplitOn(CodeOfAll(items, depth, spool) + rest, '\n') == Texts(items, depth, spool) + SplitOn(rest, '\n')
    decreases items
  {
    hide SplitOn, CodeLine, LineText, OneLine, CodeOfAll, Texts;
    if items == [] {
      NoCode(depth, spool);
      NoTexts(depth, spool);
      assert "" + rest == rest && [] + SplitOn(rest, '\n') == SplitOn(rest, '\n');
    } else {
      var t, more := items[0], items[1..];
      var text, inner := LineText(t, depth, spool), Texts(t.items, depth + 1, spool);
      var behind, last := CodeOfAll(more, depth, spool) + rest, SplitOn(rest, '\n');
      SplitCode(more, depth, spool, rest);
      SplitCode(t.items, depth + 1, spool, behind);
      HeaderIsOneLine(items);
      TextIsOneLine(t, depth, spool);
      SplitLine(text, CodeOfAll(t.items, depth + 1, spool) + behind);
      CodeOfItems(items, depth, spool, rest);
      TextsOfFirst(items, depth, spool);
      hide OneLineHeaders, Tidy;
      Grouped([text], inner, Texts(more, depth, spool), last);
    }
  }

  lemma {:induction false} Grouped(a: seq<string>, b: seq<string>, c: seq<string>, d: seq<string>)
    ensures a + (b + (c + d)) == a + b + c + d
  {
  }

  lemma {:induction false} NoTexts(depth: int, spool: string)
    ensures Texts([], depth, spool) == []
  {
  }

  lemma {:induction false} TextsOfFirst(items: seq<Tree>, depth: int, spool: string)
    requires items != []
    ensures Texts(items, depth, spool) ==
            [LineText(items[0], depth, spool)] + Texts(items[0].items, depth + 1, spool) +
            Texts(items[1..], depth, spool)
  {
    hide LineText;
  }

  lemma {:induction false} HeaderIsOneLine(items: seq<Tree>)
    requires items != [] && OneLineHeaders(items)
    ensures OneLine(items[0].header)
  {
  }

  lemma {:induction false} SplitLine(text: string, rest: string)
    requires OneLine(text)
    ensures SplitOn(text + ['\n'] + rest, '\n') == [text] + SplitOn(rest, '\n')
  {
    hide SplitOn;
    JoinSplit(text, '\n');
    SplitAtSeparator(text, '\n', rest);
  }

  lemma {:induction false} CodeOfItems(items: seq<Tree>, depth: int, spool: string, rest: string)
    requires items != [] && (items[0].tag == Spool ==> items[0].items == [])
    ensures CodeOfAll(items, depth, spool) + rest ==
            LineText(items[0], depth, spool) + ['\n']
            + (CodeOfAll(items[0].items, depth + 1, spool) + (CodeOfAll(items[1..], depth, spool) + rest))
  {
    hide CodeLine, LineText;
    LineIsText(items[0], depth, spool);
    NoCode(depth + 1, spool);
  }

  // ----- the indentation of the lines -----

  lemma {:induction false} SpacesOfIndentation(depth: nat, body: string)
    requires body != "" && body[0] != ' '
    ensures LeadingSpaces(Indentation(depth) + body) == 4 * depth
    ensures Unindented(Indentation(depth) + body) == body == Indentation(0) + body
  {
    hide LeadingSpaces, Unindented;
    NoSpaces(body);
    if depth > 0 {
      var line := Indentation(depth - 1) + body;
      SpacesOfIndentation(depth - 1, body);
      FourMoreSpaces(line);
      FourDeeper(depth, body);
    }
  }

  lemma {:induction false} NoSpaces(body: string)
    requires body != "" && body[0] != ' '
    ensures LeadingSpaces(body) == 0 && Unindented(body) == body == Indentation(0) + body
  {
  }

  lemma {:induction false} FourDeeper(depth: nat, body: string)
    requires depth > 0
    ensures Indentation(depth) + body == "    " + (Indentation(depth - 1) + body)
  {
  }

  lemma {:induction false} FourMoreSpaces(line: string)
    ensures LeadingSpaces("    " + line) == 4 + LeadingSpaces(line) && Unindented("    " + line) == Unindented(line)
  {
    OneMoreSpace(line);
    OneMoreSpace(" " + line);
    OneMoreSpace("  " + line);
    OneMoreSpace("   " + line);
    hide LeadingSpaces, Unindented;
    assert " " + (" " + line) == "  " + line;
    assert " " + ("  " + line) == "   " + line && " " + ("   " + line) == "    " + line;
  }

  lemma {:induction false} OneMoreSpace(line: string)
    ensures LeadingSpaces(" " + line) == 1 + LeadingSpaces(line) && Unindented(" " + line) == Unindented(line)
  {
    assert (" " + line)[1..] == line;
  }

  /** A line that is not empty is indented by four for every block around it. */
  lemma {:induction false} DepthOfText(t: Tree, depth: nat, spool: string)
    requires !IsEmptyLine(t) && (t.tag != Spool ==> t.header[0] != ' ') && spool != "" && spool[0] != ' '
    ensures LineText(t, depth, spool) != "" && LeadingSpaces(LineText(t, depth, spool)) == 4 * depth
    ensures Unindented(LineText(t, depth, spool)) == LineText(t, 0, spool)
  {
    hide Template, Arguments, Remark, Indentation, LeadingSpaces, Unindented;
    var body :=
      if t.tag == Spool then spool + "('" + Template(t.header) + "'.format(" + Arguments(t.header) + "))" + Remark(t)
      else t.header + Remark(t);
    assert body[0] == if t.tag == Spool then spool[0] else t.header[0];
    SpacesOfIndentation(depth, body);
    assert LineText(t, depth, spool) == Indentation(depth) + body;
    assert |Indentation(depth) + body| >= |body| > 0;
  }

  lemma {:induction false} NonEmptyOfBoth(a: seq<string>, b: seq<string>)
    ensures NonEmpty(a + b) == NonEmpty(a) + NonEmpty(b)
  {
    if a == [] {
      assert a + b == b;
    } else {
      NonEmptyOfBoth(a[1..], b);
      NonEmptyHead(a[0], a[1..] + b);
      NonEmptyHead(a[0], a[1..]);
      hide NonEmpty;
      assert a + b == [a[0]] + (a[1..] + b) && a == [a[0]] + a[1..];
    }
  }

  lemma {:induction false} NonEmptyHead(line: string, rest: seq<string>)
    ensures NonEmpty([line] + rest) == (if line == "" then [] else [line]) + NonEmpty(rest)
  {
    assert ([line] + rest)[1..] == rest;
  }

  /** The lines of the code that are not empty: that of the first block, those of its items, those of the
      other blocks. */
  lemma {:induction false} NonEmptyTexts(items: seq<Tree>, depth: int, spool: string)
    requires items != []
    ensures var t, text := items[0], LineText(items[0], depth, spool);
      NonEmpty(Texts(items, depth, spool)) ==
      (if text == "" then [] else [text]) +
      NonEmpty(Texts(t.items, depth + 1, spool)) + NonEmpty(Texts(items[1..], depth, spool))
  {
    hide LineText;
    var text, inner := LineText(items[0], depth, spool), Texts(items[0].items, depth + 1, spool);
    NonEmptyOfBoth([text] + inner, Texts(items[1..], depth, spool));
    NonEmptyOfBoth([text], inner);
    OneNonEmpty(text);
  }

  lemma {:induction false} OneNonEmpty(text: string)
    ensures NonEmpty([text]) == if text == "" then [] else [text]
  {
    assert [text][1..] == [];
  }

  predicate IndentedBy(lines: seq<string>, n: nat) { forall line | line in lines :: LeadingSpaces(line) >= n }

  /** All lines are at least as deep as the first one, which is as deep as its blocks. */
  lemma {:induction false} TextsAreDeep(items: seq<Tree>, depth: nat, spool: string)
    requires OneLineHeaders(items) && Tidy(items) && spool != "" && spool[0] != ' '
    ensures var lines := NonEmpty(Texts(items, depth, spool));
      IndentedBy(lines, 4 * depth) && (lines != [] ==> LeadingSpaces(lines[0]) == 4 * depth)
    decreases items
  {
    hide LineText, LeadingSpaces, Texts, NonEmpty;
    if items == [] {
      NothingToIndent(depth, spool);
    } else {
      var t, text := items[0], LineText(items[0], depth, spool);
      NonEmptyTexts(items, depth, spool);
      TextsAreDeep(items[1..], depth, spool);
      TextsAreDeep(t.items, depth + 1, spool);
      if IsEmptyLine(t) {
        EmptyText(t, depth, spool);
        NothingToIndent(depth + 1, spool);
      } else {
        DepthOfText(t, depth, spool);
      }
    }
  }

  lemma {:induction false} NothingToIndent(depth: int, spool: string)
    ensures NonEmpty(Texts([], depth, spool)) == []
  {
  }

  lemma {:induction false} EmptyText(t: Tree, depth: int, spool: string)
    requires IsEmptyLine(t)
    ensures LineText(t, depth, spool) == ""
  {
  }

  lemma {:induction false} ExtentIs(a: seq<string>, b: seq<string>, d: nat)
    requires IndentedBy(a, d + 1) && (b != [] ==> LeadingSpaces(b[0]) <= d)
    ensures Extent(a + b, d) == |a|
  {
    hide LeadingSpaces;
    if a == [] {
      assert a + b == b;
    } else {
      assert a[0] in a;
      ExtentIs(a[1..], b, d);
      assert (a + b)[1..] == a[1..] + b;
    }
  }

  lemma {:induction false} NestOfFirst(text: string, inner: seq<string>, rest: seq<string>)
    requires IndentedBy(inner, LeadingSpaces(text) + 1)
    requires rest != [] ==> LeadingSpaces(rest[0]) <= LeadingSpaces(text)
    ensures Nest([text] + inner + rest) == [Node(Unindented(text), Nest(inner))] + Nest(rest)
  {
    hide Extent, LeadingSpaces, Unindented;
    var lines := [text] + inner + rest;
    ExtentIs(inner, rest, LeadingSpaces(text));
    assert lines[1..] == inner + rest;
    assert lines[1..|inner| + 1] == inner && lines[|inner| + 1..] == rest;
  }

  lemma {:induction false} NestOfTexts(items: seq<Tree>, depth: nat, spool: string)
    requires OneLineHeaders(items) && Tidy(items) && spool != "" && spool[0] != ' '
    ensures Nest(NonEmpty(Texts(items, depth, spool))) == Shape(items, spool)
    decreases items
  {
    hide LineText, LeadingSpaces, Unindented, Texts, NonEmpty, Nest;
    if items == [] {
      NothingToIndent(depth, spool);
      NothingToNest();
    } else {
      var t, more := items[0], items[1..];
      NonEmptyTexts(items, depth, spool);
      NestOfTexts(more, depth, spool);
      NestOfTexts(t.items, depth + 1, spool);
      var inner, rest := NonEmpty(Texts(t.items, depth + 1, spool)), NonEmpty(Texts(more, depth, spool));
      if IsEmptyLine(t) {
        EmptyText(t, depth, spool);
        NothingToIndent(depth + 1, spool);
        assert [] + [] + rest == rest;
      } else {
        DepthOfText(t, depth, spool);
        TextsAreDeep(t.items, depth + 1, spool);
        TextsAreDeep(more, depth, spool);
        NestOfFirst(LineText(t, depth, spool), inner, rest);
      }
    }
  }

  lemma {:induction false} NothingToNest()
    ensures Nest([]) == []
  {
  }

  /** The nesting of a template without continued lines is that of its code by indentation alone: every
      line of code has under it exactly the lines of the blocks inside its block, in order. */
  lemma {:induction false} IndentationNests(items: seq<Tree>, spool: string)
    requires Complete(Root, items) && OneLineHeaders(items)
    requires OneLine(spool) && spool != "" && spool[0] != ' '
    ensures NestingOf(CodeOfAll(items, 0, spool)) == Shape(items, spool)
  {
    hide LineText, Texts, NonEmpty, Nest, SplitOn, CodeOfAll, Shape, Tidy, OneLineHeaders, AllWellFormed, WellFormed;
    forall i | 0 <= i < |items| ensures WellFormed(Root, items[i]) { EachIsWellFormed(Root, items, i); }
    WellFormedIsTidy(Root, items);
    SplitCode(items, 0, spool, "");
    var code, texts := CodeOfAll(items, 0, spool), Texts(items, 0, spool);
    assert code + "" == code;
    NothingToSplit();
    NonEmptyOfBoth(texts, [""]);
    OneNonEmpty("");
    assert NonEmpty(texts) + [] == NonEmpty(texts);
    NestOfTexts(items, 0, spool);
  }

  lemma {:induction false} NothingToSplit()
    ensures SplitOn("", '\n') == [""]
  {
  }
}
