/** From the tree of a template to Python code, and what that code puts out. */
module PyCode {
  import opened Common
  import opened PyStrings
  import opened BlockTree
  import opened PyCpp

  // ----- the code -----

  /** Every other piece from the first on. */
  function Evens(pieces: seq<string>): (r: seq<string>)
    ensures |r| == (|pieces| + 1) / 2
  {
    if pieces == [] then [] else if |pieces| == 1 then pieces else [pieces[0]] + Evens(pieces[2..])
  }

  /** Every other piece from the second on. */
  function Odds(pieces: seq<string>): (r: seq<string>)
    ensures |r| == |pieces| / 2
  {
    if |pieces| < 2 then [] else [pieces[1]] + Odds(pieces[2..])
  }

  function EscapedAll(texts: seq<string>): seq<string> {
    if texts == [] then [] else [EscapeFormatString('\'', texts[0])] + EscapedAll(texts[1..])
  }

  function Parenthesised(expressions: seq<string>): seq<string> {
    if expressions == [] then [] else ["(" + expressions[0] + ")"] + Parenthesised(expressions[1..])
  }

  function Digits(n: nat): string {
    if n < 10 then [DIGITS[n]] else Digits(n / 10) + [DIGITS[n % 10]]
  }

  const DIGITS := "0123456789"

  function Decimal(n: int): string { if n < 0 then "-" + Digits(-n) else Digits(n) }

  /** Four spaces for every step. */
  function Indentation(indent: int): (s: string)
    ensures |s| == if indent <= 0 then 0 else 4 * indent
    ensures forall x | x in s :: x == ' '
    decreases indent
  {
    if indent <= 0 then "" else "    " + Indentation(indent - 1)
  }

  function Remark(t: Tree): string { " # line " + Decimal(t.lineno) }

  /** What stands in the quotes for a line of text: expressions in backticks become fields. */
  function Template(header: string): string {
    Join("{}", EscapedAll(Evens(SplitOn(header, '`')))) + "\\n"
  }

  function Arguments(header: string): string {
    Join(", ", Parenthesised(Odds(SplitOn(header, '`'))))
  }

  /** The line of code for a block, those of its items not included. */
  function CodeLine(t: Tree, indent: int, spool: string): string {
    if t.tag == Spool then
      Indentation(indent) + spool + "('" + Template(t.header) + "'.format(" + Arguments(t.header) + "))" +
      Remark(t) + "\n"
    else if t.header != "" then Indentation(indent) + t.header + Remark(t) + "\n"
    else "\n"
  }

  function Code(t: Tree, indent: int, spool: string): string
    decreases t
  {
    CodeLine(t, indent, spool) + if t.tag == Spool then "" else CodeOfAll(t.items, indent + 1, spool)
  }

  function CodeOfAll(items: seq<Tree>, indent: int, spool: string): string
    decreases items
  {
    if items == [] then "" else Code(items[0], indent, spool) + CodeOfAll(items[1..], indent, spool)
  }

  /** get_python_code for a block on the heap. */
  method GetPythonCode(b: Block, indent: int, spool: string, ghost t: Tree, ghost blocks: set<Block>)
      returns (r: string)
    requires Represents(b, t, blocks)
    ensures r == Code(t, indent, spool)
    decreases t
  {
    hide CodeLine, CodeOfAll;
    var line := MakeCodeLine(b.lineno, b.tag, b.header, indent, spool, t);
    if b.tag == Spool {
      assert line + "" == line;
      return line;
    }
    r := line;
    NoCode(indent + 1, spool);
    assert t.items[0..] == t.items;
    for i := 0 to |b.items|
      invariant r + CodeOfAll(t.items[i..], indent + 1, spool) == line + CodeOfAll(t.items, indent + 1, spool)
    {
      var code := GetPythonCode(b.items[i], indent + 1, spool, t.items[i], blocks);
      CodeStep(t.items, i, indent + 1, spool);
      ghost var more := CodeOfAll(t.items[i + 1..], indent + 1, spool);
      assert r + (code + more) == r + code + more;
      r := r + code;
    }
    assert t.items[|t.items|..] == [] && r + "" == r;
  }

  method MakeCodeLine(lineno: int, tag: Tag, header: string, indent: int, spool: string, ghost t: Tree)
      returns (line: string)
    requires lineno == t.lineno && tag == t.tag && header == t.header
    ensures line == CodeLine(t, indent, spool)
  {
    var remark := " # line " + Decimal(lineno);
    if tag == Spool {
      line := Indentation(indent) + spool + "('" + Template(header) + "'.format(" + Arguments(header) + "))" +
              remark + "\n";
    } else if header != "" {
      line := Indentation(indent) + header + remark + "\n";
    } else {
      line := "\n";
    }
  }

  lemma {:induction false} NoCode(indent: int, spool: string)
    ensures CodeOfAll([], indent, spool) == ""
  {
  }

  lemma {:induction false} CodeStep(items: seq<Tree>, i: nat, indent: int, spool: string)
    requires i < |items|
    ensures CodeOfAll(items[i..], indent, spool) ==
            Code(items[i], indent, spool) + CodeOfAll(items[i + 1..], indent, spool)
  {
    assert items[i..][1..] == items[i + 1..];
  }

  // ----- what a line of text means -----

  function DoubledAll(texts: seq<string>): seq<string> {
    if texts == [] then [] else [Doubled(texts[0])] + DoubledAll(texts[1..])
  }

  predicate AllPlain(texts: seq<string>) { texts == [] || (Plain(texts[0]) && AllPlain(texts[1..])) }

  /** The texts with values between them. */
  function Woven(texts: seq<string>, values: seq<string>): string
    requires 0 < |texts| <= |values| + 1
  {
    if |texts| == 1 then texts[0] else texts[0] + values[0] + Woven(texts[1..], values[1..])
  }

  lemma {:induction false} FieldIsRead(rest: string)
    ensures ReadLiteral('\'', "{}" + rest) == Behind("{}", ReadLiteral('\'', rest))
  {
    var s := "{}" + rest;
    assert s[1..] == "}" + rest && s[1..][1..] == rest;
    BehindTwice("{", "}", ReadLiteral('\'', rest));
    assert "{" + "}" == "{}";
  }

  lemma {:induction false} TemplateIsRead(texts: seq<string>, rest: string)
    requires texts != []
    ensures ReadLiteral('\'', Join("{}", EscapedAll(texts)) + rest) ==
            if AllPlain(texts) then Behind(Join("{}", DoubledAll(texts)), ReadLiteral('\'', rest)) else None
  {
    var more, r := texts[1..], ReadLiteral('\'', rest);
    JoinAll(texts);
    hide EscapeFormatString, Doubled, Plain, ReadLiteral, Join, EscapedAll, DoubledAll, Behind;
    if more == [] {
      ReadEscaped('\'', texts[0], rest);
      assert AllPlain(more);
    } else {
      var tail := Join("{}", EscapedAll(more)) + rest;
      TemplateIsRead(more, rest);
      FieldIsRead(tail);
      ReadEscaped('\'', texts[0], "{}" + tail);
      Regrouped(EscapeFormatString('\'', texts[0]), "{}", Join("{}", EscapedAll(more)), rest);
      BehindTwice("{}", Join("{}", DoubledAll(more)), r);
      BehindTwice(Doubled(texts[0]), "{}" + Join("{}", DoubledAll(more)), r);
      BehindNone(Doubled(texts[0]));
      BehindNone("{}");
    }
  }

  lemma Regrouped(a: string, b: string, c: string, d: string)
    ensures a + b + c + d == a + (b + (c + d))
    ensures a + b + c == a + (b + c)
  {
  }

  lemma BehindNone(head: string)
    ensures Behind(head, None) == None
  {
  }

  /** The first text, then the others. */
  lemma {:induction false} JoinAll(texts: seq<string>)
    requires texts != []
    ensures var escaped, doubled := Join("{}", EscapedAll(texts)), Join("{}", DoubledAll(texts));
      if |texts| == 1 then escaped == EscapeFormatString('\'', texts[0]) && doubled == Doubled(texts[0])
      else
        && escaped == EscapeFormatString('\'', texts[0]) + "{}" + Join("{}", EscapedAll(texts[1..]))
        && doubled == Doubled(texts[0]) + "{}" + Join("{}", DoubledAll(texts[1..]))
        && doubled == Doubled(texts[0]) + ("{}" + Join("{}", DoubledAll(texts[1..])))
  {
    hide EscapeFormatString, Doubled, Join;
    var escaped, doubled, more := EscapedAll(texts), DoubledAll(texts), texts[1..];
    assert escaped == [EscapeFormatString('\'', texts[0])] + EscapedAll(more) && escaped[1..] == EscapedAll(more);
    assert doubled == [Doubled(texts[0])] + DoubledAll(more) && doubled[1..] == DoubledAll(more);
    hide EscapedAll, DoubledAll;
    JoinStep("{}", escaped);
    JoinStep("{}", doubled);
    Regrouped(Doubled(texts[0]), "{}", Join("{}", DoubledAll(more)), "");
    assert |texts| == 1 ==> more == [];
    assert EscapedAll([]) == [] && DoubledAll([]) == [] by { NoTexts(); }
    SameLength(more);
  }

  lemma NoTexts()
    ensures EscapedAll([]) == [] && DoubledAll([]) == []
  {
  }

  lemma {:induction false} SameLength(texts: seq<string>)
    ensures |EscapedAll(texts)| == |DoubledAll(texts)| == |texts|
  {
    if texts != [] { SameLength(texts[1..]); }
  }

  lemma JoinStep(separator: string, pieces: seq<string>)
    requires pieces != []
    ensures Join(separator, pieces) ==
            if |pieces| == 1 then pieces[0] else pieces[0] + separator + Join(separator, pieces[1..])
  {
  }

  lemma {:induction false} FieldsAreFilled(texts: seq<string>, values: seq<string>, rest: string)
    requires 0 < |texts| <= |values| + 1
    ensures Format(Join("{}", DoubledAll(texts)) + rest, values) ==
            After(Woven(texts, values), Format(rest, values[|texts| - 1..]))
  {
    var more, r := texts[1..], Format(rest, values[|texts| - 1..]);
    JoinAll(texts);
    hide EscapeFormatString, Doubled, Format, Join, EscapedAll, DoubledAll, After;
    if more == [] {
      FormatDoubled(texts[0], rest, values);
      assert values[0..] == values;
    } else {
      var tail := Join("{}", DoubledAll(more)) + rest;
      FieldsAreFilled(more, values[1..], rest);
      FieldIsFilled(tail, values);
      FormatDoubled(texts[0], "{}" + tail, values);
      Regrouped(Doubled(texts[0]), "{}", Join("{}", DoubledAll(more)), rest);
      assert values[1..][|more| - 1..] == values[|texts| - 1..];
      AfterTwice(values[0], Woven(more, values[1..]), r);
      AfterTwice(texts[0], values[0] + Woven(more, values[1..]), r);
      Regrouped(texts[0], values[0], Woven(more, values[1..]), "");
    }
  }

  lemma FieldIsFilled(rest: string, values: seq<string>)
    requires values != []
    ensures Format("{}" + rest, values) == After(values[0], Format(rest, values[1..]))
  {
    assert ("{}" + rest)[2..] == rest;
  }

  /** The value of the literal that is generated for a line of text, braces doubled. */
  function LiteralValue(header: string): string {
    Join("{}", DoubledAll(Evens(SplitOn(header, '`')))) + "\n"
  }

  /** The code for a line of text reads as a literal exactly when the text outside the backticks is
      plain, and formatting it with the values of the expressions puts these into the unchanged text. */
  lemma {:induction false} TextLineMeans(header: string, values: seq<string>, rest: string)
    requires |values| == |Odds(SplitOn(header, '`'))|
    ensures var texts := Evens(SplitOn(header, '`'));
      && ReadLiteral('\'', Template(header) + "'" + rest) ==
         (if AllPlain(texts) then Some((LiteralValue(header), rest)) else None)
      && Format(LiteralValue(header), values) == Some(Woven(texts, values) + "\n")
  {
    LiteralIsRead(header, rest);
    LiteralIsFilled(header, values);
  }

  lemma {:induction false} LiteralIsRead(header: string, rest: string)
    ensures ReadLiteral('\'', Template(header) + "'" + rest) ==
            if AllPlain(Evens(SplitOn(header, '`'))) then Some((LiteralValue(header), rest)) else None
  {
    var texts, end := Evens(SplitOn(header, '`')), "\\n'" + rest;
    TemplateParts(header);
    hide *;
    NewlineIsRead(rest);
    TemplateIsRead(texts, end);
    Regrouped(Join("{}", EscapedAll(texts)), "\\n", "'", rest);
    assert "\\n" + ("'" + rest) == end;
    BehindSome(Join("{}", DoubledAll(texts)), "\n", rest);
  }

  lemma {:induction false} LiteralIsFilled(header: string, values: seq<string>)
    requires |values| == |Odds(SplitOn(header, '`'))|
    ensures Format(LiteralValue(header), values) == Some(Woven(Evens(SplitOn(header, '`')), values) + "\n")
  {
    var texts := Evens(SplitOn(header, '`'));
    TemplateParts(header);
    hide *;
    FieldsAreFilled(texts, values, "\n");
    NewlineIsPut(values[|texts| - 1..]);
    AfterSome(Woven(texts, values), "\n");
  }

  lemma TemplateParts(header: string)
    ensures var texts := Evens(SplitOn(header, '`'));
      && texts != [] && Template(header) == Join("{}", EscapedAll(texts)) + "\\n"
      && LiteralValue(header) == Join("{}", DoubledAll(texts)) + "\n"
  {
  }

  lemma BehindSome(head: string, t: string, rest: string)
    ensures Behind(head, Some((t, rest))) == Some((head + t, rest))
  {
  }

  lemma AfterSome(head: string, t: string)
    ensures After(head, Some(t)) == Some(head + t)
  {
  }

  lemma {:induction false} NewlineIsRead(rest: string)
    ensures ReadLiteral('\'', "\\n'" + rest) == Some(("\n", rest))
  {
    var s := "\\n'" + rest;
    assert s[2..] == "'" + rest && s[2..][1..] == rest;
    assert ReadLiteral('\'', s[2..]) == Some(("", rest));
    assert "\n" + "" == "\n";
  }

  lemma NewlineIsPut(values: seq<string>)
    ensures Format("\n", values) == Some("\n")
  {
    assert "\n"[1..] == "" && "\n" + "" == "\n";
  }

  // ----- lines of Python and line numbers -----

  function Value(digits: string): int {
    if digits == "" then 0 else 10 * Value(digits[..|digits| - 1]) + (digits[|digits| - 1] as int - '0' as int)
  }

  /** The digits are those of the number, the most significant first. */
  lemma {:induction false} DigitsMean(n: nat)
    ensures Value(Digits(n)) == n && forall x | x in Digits(n) :: '0' <= x <= '9'
  {
    if n < 10 {
      OneDigit(n);
      assert Digits(n)[..0] == "";
    } else {
      DigitsMean(n / 10);
      OneDigit(n % 10);
      assert Digits(n)[..|Digits(n)| - 1] == Digits(n / 10);
    }
  }

  lemma OneDigit(n: nat)
    requires n < 10
    ensures DIGITS[n] as int == '0' as int + n
  {
  }

  /** A line of Python is put into the code as it is, four spaces to the right for each block around it, with
      its number in a comment; the code of its block follows, one step further. */
  lemma {:induction false} PythonIsKept(t: Tree, depth: nat, spool: string)
    requires t.tag != Spool && t.header != ""
    ensures var pad, inner := seq(4 * depth, _ => ' '), CodeOfAll(t.items, depth + 1, spool);
      Code(t, depth, spool) == pad + t.header + " # line " + Decimal(t.lineno) + "\n" + inner
  {
    hide CodeOfAll, Decimal, Indentation;
    var pad, number := Indentation(depth), Decimal(t.lineno);
    forall i | 0 <= i < 4 * depth ensures pad[i] == ' ' { assert pad[i] in pad; }
    assert pad == seq(4 * depth, _ => ' ');
    assert pad + t.header + (" # line " + number) + "\n" == pad + t.header + " # line " + number + "\n";
  }

  // ----- the expressions of a line -----

  /** An expression in backticks. */
  function Ticked(e: string): string { "`" + e + "`" }

  function AllTicked(es: seq<string>): (r: seq<string>)
    ensures |r| == |es|
  {
    seq(|es|, k requires 0 <= k < |es| => Ticked(es[k]))
  }

  /** Texts and expressions in turns. */
  function Alternating(ts: seq<string>, es: seq<string>): seq<string>
    requires |ts| == |es| + 1
  {
    if es == [] then ts else [ts[0], es[0]] + Alternating(ts[1..], es[1..])
  }

  lemma {:induction false} AlternatingParts(ts: seq<string>, es: seq<string>)
    requires |ts| == |es| + 1
    ensures Evens(Alternating(ts, es)) == ts && Odds(Alternating(ts, es)) == es
  {
    if es != [] {
      AlternatingParts(ts[1..], es[1..]);
      var rest := Alternating(ts[1..], es[1..]);
      assert Alternating(ts, es)[2..] == rest;
      assert [ts[0]] + ts[1..] == ts && [es[0]] + es[1..] == es;
    }
  }

  lemma {:induction false} TickedStep(ts: seq<string>, es: seq<string>)
    requires |ts| == |es| + 1 && es != []
    ensures Woven(ts, AllTicked(es)) == ts[0] + ['`'] + (es[0] + ['`'] + Woven(ts[1..], AllTicked(es[1..])))
  {
    assert AllTicked(es)[1..] == AllTicked(es[1..]) && AllTicked(es)[0] == Ticked(es[0]);
    var more := Woven(ts[1..], AllTicked(es[1..]));
    hide Woven, AllTicked;
    assert ts[0] + Ticked(es[0]) + more == ts[0] + ['`'] + (es[0] + ['`'] + more);
  }

  /** A line splits at its backticks into the texts and expressions it was written from. */
  lemma {:induction false} SplitTicked(ts: seq<string>, es: seq<string>)
    requires |ts| == |es| + 1
    requires (forall k | 0 <= k < |ts| :: '`' !in ts[k]) && forall k | 0 <= k < |es| :: '`' !in es[k]
    ensures SplitOn(Woven(ts, AllTicked(es)), '`') == Alternating(ts, es)
  {
    hide SplitOn, Woven, AllTicked, Join, Alternating;
    JoinSplit(ts[0], '`');
    if es == [] {
      OneText(ts);
    } else {
      JoinSplit(es[0], '`');
      var more := Woven(ts[1..], AllTicked(es[1..]));
      TickedStep(ts, es);
      SplitTicked(ts[1..], es[1..]);
      SplitAtSeparator(ts[0], '`', es[0] + ['`'] + more);
      SplitAtSeparator(es[0], '`', more);
      AlternatingStep(ts, es);
    }
  }

  lemma OneText(ts: seq<string>)
    requires |ts| == 1
    ensures Woven(ts, AllTicked([])) == ts[0] && Alternating(ts, []) == [ts[0]]
  {
  }

  lemma AlternatingStep(ts: seq<string>, es: seq<string>)
    requires |ts| == |es| + 1 && es != []
    ensures Alternating(ts, es) == [ts[0]] + ([es[0]] + Alternating(ts[1..], es[1..]))
  {
  }

  lemma {:induction false} ParenthesisedInOrder(es: seq<string>)
    ensures Parenthesised(es) == seq(|es|, k requires 0 <= k < |es| => "(" + es[k] + ")")
  {
    if es != [] {
      ParenthesisedInOrder(es[1..]);
      assert forall k | 1 <= k < |es| :: es[1..][k - 1] == es[k];
    }
  }

  lemma {:induction false} EscapedInOrder(ts: seq<string>)
    ensures EscapedAll(ts) == seq(|ts|, k requires 0 <= k < |ts| => EscapeFormatString('\'', ts[k]))
  {
    hide EscapeFormatString;
    if ts != [] {
      EscapedInOrder(ts[1..]);
      assert forall k | 1 <= k < |ts| :: ts[1..][k - 1] == ts[k];
    }
  }

  /** In the code for a line the expressions are the arguments, one by one in their order, each in
      parentheses, and the texts are what stands between the fields. */
  lemma {:induction false} LineOfCode(ts: seq<string>, es: seq<string>)
    requires |ts| == |es| + 1
    requires (forall k | 0 <= k < |ts| :: '`' !in ts[k]) && forall k | 0 <= k < |es| :: '`' !in es[k]
    ensures var header := Woven(ts, AllTicked(es));
      && Evens(SplitOn(header, '`')) == ts && Odds(SplitOn(header, '`')) == es
      && Arguments(header) == Join(", ", seq(|es|, k requires 0 <= k < |es| => "(" + es[k] + ")"))
      && Template(header) ==
         Join("{}", seq(|ts|, k requires 0 <= k < |ts| => EscapeFormatString('\'', ts[k]))) + "\\n"
  {
    hide SplitOn, Join, Woven, AllTicked, EscapeFormatString, Evens, Odds, Alternating;
    SplitTicked(ts, es);
    AlternatingParts(ts, es);
    ParenthesisedInOrder(es);
    EscapedInOrder(ts);
  }

  // ----- reading arguments back -----

  /** Characters that a line of code cannot hold. */
  predicate EndsCode(c: char) { c == '\n' || c == '\r' || c == '\0' }

  /** How a character outside the quotes changes the number of open parentheses. */
  function Nesting(c: char, depth: nat): int {
    if c == '(' then depth + 1 else if c == ')' then depth - 1 else depth
  }

  function QuoteBehind(c: char, quote: Option<char>): Option<char> {
    match quote
    case Some(q) => if c == q then None else quote
    case None => if IsQuote(c) then Some(c) else None
  }

  /** Reads an expression up to the parenthesis that closes the one before it, over the quoted literals in
      it: the expression, and what follows the parenthesis. None if there is no such parenthesis, and for a
      comment. */
  function ReadExpression(s: string, depth: nat, quote: Option<char>): (r: Option<(string, string)>)
    ensures r.Some? ==> |r.value.1| < |s|
  {
    if s == "" || EndsCode(s[0]) then None
    else if quote.Some? && s[0] == '\\' then
      if |s| == 1 || EndsCode(s[1]) then None else Behind(s[..2], ReadExpression(s[2..], depth, quote))
    else if quote.Some? then Behind([s[0]], ReadExpression(s[1..], depth, QuoteBehind(s[0], quote)))
    else if s[0] == '#' then None
    else if s[0] == ')' && depth == 0 then Some(("", s[1..]))
    else Behind([s[0]], ReadExpression(s[1..], Nesting(s[0], depth), QuoteBehind(s[0], quote)))
  }

  /** The text has its parentheses and quotes closed, as every expression of one line has. */
  predicate Closed(e: string, depth: nat, quote: Option<char>) {
    if e == "" then depth == 0 && quote == None
    else if EndsCode(e[0]) then false
    else if quote.Some? && e[0] == '\\' then |e| > 1 && !EndsCode(e[1]) && Closed(e[2..], depth, quote)
    else if quote.Some? then Closed(e[1..], depth, QuoteBehind(e[0], quote))
    else e[0] != '#' && !(e[0] == ')' && depth == 0) && Closed(e[1..], Nesting(e[0], depth), QuoteBehind(e[0], quote))
  }

  predicate IsExpression(e: string) { Closed(e, 0, None) }

  lemma {:induction false} ExpressionIsRead(e: string, depth: nat, quote: Option<char>, rest: string)
    requires Closed(e, depth, quote)
    ensures ReadExpression(e + ")" + rest, depth, quote) == Some((e, rest))
    decreases |e|
  {
    var s := e + ")" + rest;
    if e == "" {
      assert s[1..] == rest;
    } else if quote.Some? && e[0] == '\\' {
      assert s[2..] == e[2..] + ")" + rest && s[..2] == e[..2];
      ExpressionIsRead(e[2..], depth, quote, rest);
      BehindSome(e[..2], e[2..], rest);
      assert e[..2] + e[2..] == e;
    } else {
      assert s[1..] == e[1..] + ")" + rest && s[0] == e[0];
      var d := if quote.Some? then depth else Nesting(e[0], depth);
      ExpressionIsRead(e[1..], d, QuoteBehind(e[0], quote), rest);
      BehindSome([e[0]], e[1..], rest);
      assert [e[0]] + e[1..] == e;
    }
  }

  /** Reads arguments in parentheses, separated by commas, up to the parenthesis that closes the call. */
  function ReadArguments(s: string): (r: Option<(seq<string>, string)>)
    ensures r.Some? ==> |r.value.1| < |s|
    decreases |s|
  {
    if StartsWith(s, ")") then Some(([], s[1..]))
    else if !StartsWith(s, "(") then None
    else
      match ReadExpression(s[1..], 0, None)
      case None => None
      case Some((e, rest)) =>
        if StartsWith(rest, ")") then Some(([e], rest[1..]))
        else if !StartsWith(rest, ", (") then None
        else
          match ReadArguments(rest[2..])
          case None => None
          case Some((more, behind)) => Some(([e] + more, behind))
  }

  predicate AllExpressions(es: seq<string>) { forall e | e in es :: IsExpression(e) }

  lemma {:induction false} ParenthesisedStep(es: seq<string>, rest: string)
    requires es != []
    ensures Join(", ", Parenthesised(es)) + ")" + rest ==
            if |es| == 1 then "(" + (es[0] + ")" + (")" + rest))
            else "(" + (es[0] + ")" + (", " + (Join(", ", Parenthesised(es[1..])) + ")" + rest)))
  {
    var all, more := Parenthesised(es), Parenthesised(es[1..]);
    assert all == ["(" + es[0] + ")"] + more && all[1..] == more;
    ParenthesisedInOrder(es[1..]);
    JoinStep(", ", all);
    hide Join, Parenthesised;
    if |es| == 1 {
      assert Join(", ", all) == "(" + es[0] + ")";
    } else {
      assert Join(", ", all) == "(" + es[0] + ")" + ", " + Join(", ", more);
    }
  }

  /** The arguments are read back as the expressions, in their order. */
  lemma {:induction false} ArgumentsAreRead(es: seq<string>, rest: string)
    requires AllExpressions(es)
    ensures ReadArguments(Join(", ", Parenthesised(es)) + ")" + rest) == Some((es, rest))
  {
    hide Join, Parenthesised, Closed, ReadExpression;
    var s := Join(", ", Parenthesised(es)) + ")" + rest;
    if es == [] {
      NoArguments();
      assert s == ")" + rest && s[1..] == rest;
    } else {
      ParenthesisedStep(es, rest);
      assert es[0] in es;
      if |es| == 1 {
        var behind := ")" + rest;
        ExpressionIsRead(es[0], 0, None, behind);
        assert s[1..] == es[0] + ")" + behind && behind[1..] == rest;
        assert [es[0]] == es;
      } else {
        var more := Join(", ", Parenthesised(es[1..])) + ")" + rest;
        var behind := ", " + more;
        assert AllExpressions(es[1..]) by { assert forall e | e in es[1..] :: e in es; }
        ArgumentsAreRead(es[1..], rest);
        ParenthesisedStep(es[1..], rest);
        assert more[0] == '(' && behind[..3] == ", (" && behind[2..] == more;
        ExpressionIsRead(es[0], 0, None, behind);
        assert s[1..] == es[0] + ")" + behind;
        assert [es[0]] + es[1..] == es;
      }
    }
  }

  lemma NoArguments()
    ensures Join(", ", Parenthesised([])) == ""
  {
  }

  // ----- what the code of a template without lines of Python puts out -----

  const PUT := "pycpp.output('"

  /** PyCPP.output keeps the text without the newline at its end. */
  function Kept(text: string): string
    requires text != ""
  {
    if text[|text| - 1] == '\n' then text[..|text| - 1] else text
  }

  /** What follows the first end of line. */
  function NextCodeLine(code: string): (rest: string)
    ensures |rest| <= |code|
  {
    if code == "" then "" else if code[0] == '\n' then code[1..] else NextCodeLine(code[1..])
  }

  /** What an expression in parentheses puts into a text; None where Python stops with an error. */
  type Evaluation = string -> Option<string>

  /** The values of the expressions, in their order. */
  function Values(value: Evaluation, es: seq<string>): (r: Option<seq<string>>)
    ensures r.Some? ==> |r.value| == |es|
    ensures r.Some? <==> forall k | 0 <= k < |es| :: value(es[k]).Some?
    ensures r.Some? ==> forall k | 0 <= k < |es| :: value(es[k]) == Some(r.value[k])
  {
    if es == [] then Some([])
    else
      var rest := Values(value, es[1..]);
      assert rest == None ==> exists k | 0 <= k < |es[1..]| :: value(es[1..][k]) == None && es[1..][k] == es[k + 1];
      if value(es[0]) == None || rest == None then None else Some([value(es[0]).value] + rest.value)
  }

  /** Runs code of calls of output with a formatted literal, empty lines between: the texts kept, None if
      Python stops with an error or the code is of another form. */
  function Exec(code: string, value: Evaluation): Option<seq<string>>
    decreases |code|
  {
    if code == "" then Some([])
    else if code[0] == '\n' then Exec(code[1..], value)
    else if !StartsWith(code, PUT) then None
    else
      match ReadLiteral('\'', code[|PUT|..])
      case None => None
      case Some((literal, rest)) =>
        if !StartsWith(rest, ".format(") then None
        else
          match ReadArguments(rest[|".format("|..])
          case None => None
          case Some((es, behind)) =>
            if !StartsWith(behind, ") #") || Values(value, es) == None then None
            else
              match Format(literal, Values(value, es).value)
              case None => None
              case Some(text) =>
                if text == "" then None else AndThen(Kept(text), Exec(NextCodeLine(behind), value))
  }

  function AndThen(text: string, r: Option<seq<string>>): Option<seq<string>> {
    match r case None => None case Some(texts) => Some([text] + texts)
  }

  /** get_output for the root of a tree. */
  function Output(t: Tree, value: Evaluation): Option<string> {
    match Exec(Code(t, -1, "pycpp.output"), value)
    case None => None
    case Some(texts) => Some(Join("\n", texts))
  }

  method GetOutput(b: Block, value: Evaluation, ghost t: Tree, ghost blocks: set<Block>) returns (r: Option<string>)
    requires Represents(b, t, blocks)
    ensures r == Output(t, value)
  {
    hide Represents, Code, Exec, Join;
    var code := GetPythonCode(b, -1, "pycpp.output", t, blocks);
    var run := Exec(code, value);
    return match run case None => None case Some(texts) => Some(Join("\n", texts));
  }

  /** The line with its expressions replaced by their values; None if one has no value, or if the text holds
      what a literal cannot. */
  function Filled(line: string, value: Evaluation): Option<string> {
    var pieces := SplitOn(line, '`');
    var values := Values(value, Odds(pieces));
    if values == None || !AllPlain(Evens(pieces)) then None else Some(Woven(Evens(pieces), values.value))
  }

  function FilledAll(lines: seq<string>, value: Evaluation): Option<seq<string>> {
    if lines == [] then Some([])
    else
      match Filled(lines[0], value)
      case None => None
      case Some(text) => AndThen(text, FilledAll(lines[1..], value))
  }

  /** A line written from texts and expressions is filled with the values of these expressions, in order. */
  lemma {:induction false} FilledInOrder(ts: seq<string>, es: seq<string>, value: Evaluation)
    requires |ts| == |es| + 1
    requires (forall k | 0 <= k < |ts| :: '`' !in ts[k]) && forall k | 0 <= k < |es| :: '`' !in es[k]
    ensures Filled(Woven(ts, AllTicked(es)), value) ==
            if AllPlain(ts) && forall k | 0 <= k < |es| :: value(es[k]).Some? then
              Some(Woven(ts, seq(|es|, k requires 0 <= k < |es| => value(es[k]).value)))
            else None
  {
    hide SplitOn, Join, AllTicked, Woven, AllPlain, Values, Evens, Odds;
    LineOfCode(ts, es);
    var values := Values(value, es);
    if values.Some? {
      assert values.value == seq(|es|, k requires 0 <= k < |es| => value(es[k]).value);
    }
  }

  /** A template without Python: no backtick, and no line with the mark. */
  predicate TextOnly(input: string) { '`' !in input && NoPython(input) }

  /** No line has the mark of Python. */
  predicate NoPython(input: string) { forall line | line in SplitOn(input, '\n') :: !IsPython(line) }

  /** What stands between backticks are expressions. */
  predicate HasExpressions(input: string) { forall line | line in SplitOn(input, '\n') :: LineHasExpressions(line) }

  predicate LineHasExpressions(line: string) { AllExpressions(Odds(SplitOn(line, '`'))) }

  function Leaves(lines: seq<Line>): seq<Tree> {
    if lines == [] then [] else Leaves(lines[..|lines| - 1]) + [Leaf(lines[|lines| - 1])]
  }

  lemma {:induction false} LeavesAreComplete(lines: seq<Line>)
    requires AllText(lines)
    ensures Complete(Root, Leaves(lines)) && LinesOf(Leaves(lines)) == lines
    ensures lines != [] ==> LastTag(Leaves(lines)) == Spool
  {
    NoItems(Root);
    if lines != [] {
      var init, last := lines[..|lines| - 1], lines[|lines| - 1];
      var x := Leaf(last);
      assert init + [last] == lines && last in lines && AllText(init);
      assert !last.py && x.tag == Spool && x.items == [];
      LeavesAreComplete(init);
      assert Leaves(lines) == Leaves(init) + [x] && (init == [] ==> Leaves(init) == []);
      LeafIsWellFormed(Root, last);
      OneMoreItem(Root, Leaves(init), x);
      hide AllWellFormed, LinesOf, WellFormed, Leaf, Leaves, AllText, HeadLine;
      assert [last] + [] == [last];
    }
  }

  lemma {:induction false} LeavesAt(lines: seq<Line>)
    requires lines != []
    ensures Leaves(lines) == [Leaf(lines[0])] + Leaves(lines[1..])
  {
    if |lines| > 1 {
      LeavesAt(lines[..|lines| - 1]);
      assert lines[1..][..|lines| - 2] == lines[..|lines| - 1][1..];
    } else {
      assert lines[..0] == [] == lines[1..] && Leaves([]) == [];
    }
  }

  function Texts(lines: seq<Line>): seq<string> {
    if lines == [] then [] else [lines[0].text] + Texts(lines[1..])
  }

  /** Lines of text, with expressions between backticks. */
  predicate AllText(lines: seq<Line>) { forall line | line in lines :: !line.py && LineHasExpressions(line.text) }

  lemma TextLineIsLogical(lines: seq<string>, at: nat)
    requires at < |lines| && !IsPython(lines[at])
    ensures LogicalLines(lines, at) == [Line(1 + at, lines[at], false)] + LogicalLines(lines, at + 1)
  {
    hide IsPython;
    assert NextLine(lines, at) == (lines[at], at + 1);
    assert MakeLine(at, lines[at]) == Line(1 + at, lines[at], false);
  }

  lemma OneMoreText(line: Line, rest: seq<Line>)
    requires !line.py && LineHasExpressions(line.text) && AllText(rest)
    ensures Texts([line] + rest) == [line.text] + Texts(rest) && AllText([line] + rest)
  {
    assert ([line] + rest)[1..] == rest;
  }

  lemma NoLogicalLines(lines: seq<string>)
    ensures LogicalLines(lines, |lines|) == [] && Texts([]) == [] && lines[|lines|..] == [] && AllText([])
  {
  }

  lemma {:induction false} TextIsNotGathered(lines: seq<string>, at: nat)
    requires at <= |lines| && forall line | line in lines :: !IsPython(line) && LineHasExpressions(line)
    ensures Texts(LogicalLines(lines, at)) == lines[at..] && AllText(LogicalLines(lines, at))
    decreases |lines| - at
  {
    hide IsPython, LogicalLines, Texts, AllText, LineHasExpressions;
    if at == |lines| {
      NoLogicalLines(lines);
    } else {
      TextIsNotGathered(lines, at + 1);
      TextLineIsLogical(lines, at);
      OneMoreText(Line(1 + at, lines[at], false), LogicalLines(lines, at + 1));
      assert lines[at..] == [lines[at]] + lines[at + 1..];
    }
  }

  lemma {:induction false} NoNewlineInDigits(n: nat)
    ensures '\n' !in Digits(n)
  {
    if n >= 10 { NoNewlineInDigits(n / 10); }
  }

  lemma {:induction false} LineIsPassed(line: string, rest: string)
    requires '\n' !in line
    ensures NextCodeLine(line + "\n" + rest) == rest
  {
    var code := line + "\n" + rest;
    if line != "" {
      LineIsPassed(line[1..], rest);
      assert code[1..] == line[1..] + "\n" + rest;
    } else {
      assert code[1..] == rest;
    }
  }

  lemma {:induction false} RemarkIsPassed(t: Tree, rest: string)
    ensures NextCodeLine(")" + Remark(t) + "\n" + rest) == rest
    ensures StartsWith(")" + Remark(t) + "\n" + rest, ") #")
  {
    NoNewlineInDigits(if t.lineno < 0 then -t.lineno else t.lineno);
    LineIsPassed(")" + Remark(t), rest);
  }

  lemma {:induction false} WithoutBacktick(text: string)
    requires '`' !in text
    ensures Evens(SplitOn(text, '`')) == [text] && Odds(SplitOn(text, '`')) == []
    ensures AllPlain([text]) == Plain(text) && Woven([text], []) == text
  {
    JoinSplit(text, '`');
    hide SplitOn, Plain;
    assert [text][1..] == [];
  }

  lemma {:induction false} UnfilledText(text: string, value: Evaluation)
    requires '`' !in text
    ensures LineHasExpressions(text) && Filled(text, value) == if Plain(text) then Some(text) else None
  {
    WithoutBacktick(text);
    hide SplitOn, Plain, AllPlain, Woven, Evens, Odds;
  }

  /** The parts of the code for a line of text: the literal, the arguments, the remark. */
  lemma {:induction false} CodeOfText(t: Tree, rest: string)
    requires t.tag == Spool
    ensures var tail := ")" + Remark(t) + "\n" + rest;
      CodeLine(t, 0, "pycpp.output") + rest ==
      PUT + (Template(t.header) + "'" + (".format(" + (Arguments(t.header) + ")" + tail)))
  {
    hide Template, Arguments, Remark;
    assert CodeLine(t, 0, "pycpp.output") ==
      "pycpp.output('" + Template(t.header) + "'.format(" + Arguments(t.header) + "))" + Remark(t) + "\n";
  }

  /** Running a call of output with a literal that reads as given. */
  lemma {:induction false} ExecCall(code: string, behind: string, literal: string, args: string,
                                    es: seq<string>, tail: string, value: Evaluation)
    requires code == PUT + behind
    requires ReadLiteral('\'', behind) == Some((literal, ".format(" + args))
    requires ReadArguments(args) == Some((es, tail)) && StartsWith(tail, ") #")
    ensures Exec(code, value) ==
            if Values(value, es) == None then None
            else
              match Format(literal, Values(value, es).value)
              case None => None
              case Some(text) => if text == "" then None else AndThen(Kept(text), Exec(NextCodeLine(tail), value))
  {
    hide ReadLiteral, ReadArguments, Format, Values, NextCodeLine, Kept;
    assert code[|PUT|..] == behind;
    assert (".format(" + args)[|".format("|..] == args;
  }

  lemma {:induction false} CallWithoutLiteral(code: string, behind: string, value: Evaluation)
    requires code == PUT + behind && ReadLiteral('\'', behind) == None
    ensures Exec(code, value) == None
  {
    hide ReadLiteral;
    assert code[|PUT|..] == behind;
  }

  /** The call of output for a line of text keeps the line with its expressions replaced by their values. */
  lemma {:induction false} ExecLine(t: Tree, rest: string, value: Evaluation)
    requires t.tag == Spool && LineHasExpressions(t.header)
    ensures Exec(CodeLine(t, 0, "pycpp.output") + rest, value) ==
            match Filled(t.header, value)
            case None => None
            case Some(text) => AndThen(text, Exec(rest, value))
  {
    hide Template, Arguments, Remark, ReadLiteral, Format, LiteralValue, NextCodeLine, AllPlain, SplitOn, Values,
      ReadArguments, Exec, Woven, CodeLine, Evens, Odds, AllExpressions;
    var texts, es := Evens(SplitOn(t.header, '`')), Odds(SplitOn(t.header, '`'));
    var tail := ")" + Remark(t) + "\n" + rest;
    var args := Arguments(t.header) + ")" + tail;
    var code, behind := CodeLine(t, 0, "pycpp.output") + rest, Template(t.header) + "'" + (".format(" + args);
    CodeOfText(t, rest);
    LiteralIsRead(t.header, ".format(" + args);
    if !AllPlain(texts) {
      CallWithoutLiteral(code, behind, value);
    } else {
      ArgumentsOfLine(t.header, tail);
      RemarkIsPassed(t, rest);
      ExecCall(code, behind, LiteralValue(t.header), args, es, tail, value);
      if Values(value, es).Some? {
        var text := Woven(texts, Values(value, es).value);
        LiteralIsFilled(t.header, Values(value, es).value);
        assert Kept(text + "\n") == text;
      }
    }
  }

  lemma ArgumentsOfLine(header: string, tail: string)
    requires LineHasExpressions(header)
    ensures ReadArguments(Arguments(header) + ")" + tail) == Some((Odds(SplitOn(header, '`')), tail))
  {
    hide AllExpressions, ReadArguments, Odds, SplitOn, Join, Parenthesised;
    ArgumentsAreRead(Odds(SplitOn(header, '`')), tail);
  }

  lemma {:induction false} ExecLeaves(lines: seq<Line>, value: Evaluation)
    requires AllText(lines)
    ensures Exec(CodeOfAll(Leaves(lines), 0, "pycpp.output"), value) == FilledAll(Texts(lines), value)
  {
    hide CodeLine, Exec, Filled, LineHasExpressions;
    if lines == [] {
      NoCode(0, "pycpp.output");
      NothingToRun(value);
    } else {
      var t, more := Leaf(lines[0]), lines[1..];
      LeavesAt(lines);
      ExecLeaves(more, value);
      var rest := CodeOfAll(Leaves(more), 0, "pycpp.output");
      assert lines[0] in lines;
      ExecLine(t, rest, value);
      assert Leaves(lines)[0] == t && Leaves(lines)[1..] == Leaves(more);
      assert ([lines[0].text] + Texts(more))[1..] == Texts(more);
      hide Leaves;
      assert CodeLine(t, 0, "pycpp.output") + "" == CodeLine(t, 0, "pycpp.output");
    }
  }

  lemma NothingToRun(value: Evaluation)
    ensures Exec("", value) == Some([]) && Leaves([]) == []
  {
  }

  lemma {:induction false} PlainPieces(s: string)
    ensures AllPlain(SplitOn(s, '\n')) <==> Plain(s)
  {
    var pieces := SplitOn(s, '\n');
    if s == "" {
      assert pieces[1..] == [];
    } else {
      PlainPieces(s[1..]);
      var rest := SplitOn(s[1..], '\n');
      assert s == [s[0]] + s[1..];
      assert Plain(s) <==> Plain([s[0]]) && Plain(s[1..]);
      if s[0] == '\n' {
        assert pieces[1..] == rest;
      } else {
        assert pieces[1..] == rest[1..];
        assert Plain([s[0]] + rest[0]) <==> Plain([s[0]]) && Plain(rest[0]);
      }
    }
  }

  /** Running the code of a template without lines of Python puts the template out, line by line, with every
      expression replaced by its value, whatever the expressions evaluate to. */
  lemma {:induction false} TemplateIsFilled(input: string, value: Evaluation)
    requires NoPython(input) && HasExpressions(input)
    ensures Parse(TemplateLines(input)).Ok?
    ensures Output(ROOT.(items := Parse(TemplateLines(input)).value), value) ==
            match FilledAll(SplitOn(input, '\n'), value)
            case None => None
            case Some(texts) => Some(Join("\n", texts))
  {
    var texts, lines := SplitOn(input, '\n'), TemplateLines(input);
    assert lines == LogicalLines(texts, 0);
    assert forall line | line in texts :: !IsPython(line) && LineHasExpressions(line);
    hide *;
    TextIsNotGathered(texts, 0);
    assert texts[0..] == texts;
    LeavesAreComplete(lines);
    ParseIsInverse(Leaves(lines));
    ExecLeaves(lines, value);
    OutputIs(Leaves(lines), value);
  }

  /** A template without Python is put out unchanged, exactly when it has no carriage return and
      no NUL. */
  lemma {:induction false} TextIsUnchanged(input: string, value: Evaluation)
    requires TextOnly(input)
    ensures Parse(TemplateLines(input)).Ok?
    ensures Output(ROOT.(items := Parse(TemplateLines(input)).value), value) ==
            if Plain(input) then Some(input) else None
  {
    var texts := SplitOn(input, '\n');
    NoBackticks(input);
    forall line | line in texts ensures LineHasExpressions(line) { UnfilledText(line, value); }
    assert NoPython(input) && HasExpressions(input);
    hide *;
    TemplateIsFilled(input, value);
    FilledWithNothing(texts, value);
    PlainPieces(input);
    JoinSplit(input, '\n');
  }

  lemma {:induction false} FilledWithNothing(texts: seq<string>, value: Evaluation)
    requires forall line | line in texts :: '`' !in line
    ensures FilledAll(texts, value) == if AllPlain(texts) then Some(texts) else None
  {
    hide Filled, Plain;
    if texts != [] {
      assert texts[0] in texts && forall line | line in texts[1..] :: line in texts;
      UnfilledText(texts[0], value);
      FilledWithNothing(texts[1..], value);
      assert [texts[0]] + texts[1..] == texts;
    }
  }

  lemma {:induction false} NoBackticks(input: string)
    requires TextOnly(input)
    ensures forall line | line in SplitOn(input, '\n') :: '`' !in line
  {
    hide SplitOn, IsPython;
    var pieces := SplitOn(input, '\n');
    forall i | 0 <= i < |pieces| ensures '`' !in pieces[i] { PiecesAreOfText(input, '\n', i); }
  }

  lemma {:induction false} OutputIs(items: seq<Tree>, value: Evaluation)
    ensures Output(ROOT.(items := items), value) ==
            match Exec(CodeOfAll(items, 0, "pycpp.output"), value)
            case None => None
            case Some(texts) => Some(Join("\n", texts))
  {
    hide Exec, Join, CodeOfAll;
    var rest := CodeOfAll(items, 0, "pycpp.output");
    assert Code(ROOT.(items := items), -1, "pycpp.output") == "\n" + rest;
    EmptyLineIsPassed(rest, value);
  }

  lemma EmptyLineIsPassed(rest: string, value: Evaluation)
    ensures Exec("\n" + rest, value) == Exec(rest, value)
  {
    assert ("\n" + rest)[1..] == rest;
  }

  lemma {:induction false} PiecesAreOfText(s: string, c: char, i: nat)
    requires i < |SplitOn(s, c)|
    ensures forall x | x in SplitOn(s, c)[i] :: x in s
  {
    if s != "" {
      var rest := SplitOn(s[1..], c);
      if s[0] == c {
        if i > 0 { PiecesAreOfText(s[1..], c, i - 1); }
      } else {
        PiecesAreOfText(s[1..], c, i);
      }
    }
  }

  /** The preprocessor on a template: what it puts out, or the error parsing stops with. */
  method Preprocess(input: string, value: Evaluation) returns (r: Result<Option<string>>)
    ensures r == match Parse(TemplateLines(input))
                 case Err(e) => Err(e)
                 case Ok(items) => Ok(Output(ROOT.(items := items), value))
    ensures NoPython(input) && HasExpressions(input) ==>
      r == Ok(match FilledAll(SplitOn(input, '\n'), value)
              case None => None
              case Some(texts) => Some(Join("\n", texts)))
    ensures TextOnly(input) ==> r == Ok(if Plain(input) then Some(input) else None)
  {
    hide Output, Represents, TemplateLines, Parse, TextOnly, NoPython, HasExpressions;
    var tree, blocks := BuildTree(input);
    if tree.Err? {
      r := Err(tree.error);
    } else {
      var output := GetOutput(tree.value, value, ROOT.(items := Parse(TemplateLines(input)).value), blocks);
      r := Ok(output);
    }
    if NoPython(input) && HasExpressions(input) { TemplateIsFilled(input, value); }
    if TextOnly(input) { TextIsUnchanged(input, value); }
  }
}
