/** The block structure of a template: a parser with a stack of open blocks, and the grammar of the
    trees it builds. */
module BlockTree {

  /** A line of the template, its continuations joined: number, text behind the #py marker if it
      has one, and whether it has. */
  datatype Line = Line(no: int, text: string, py: bool)

  /** The tags the parser gives to blocks; Blank is the tag of the empty block for a close tag. */
  datatype Tag = Root | Spool | Py | Blank | For | While | If | Elif | Else

  predicate HasRule(t: Tag) { t.For? || t.While? || t.If? || t.Elif? || t.Else? }

  function CloseTag(t: Tag): string
    requires HasRule(t)
  {
    if t == For then "endfor" else if t == While then "endwhile" else "endif"
  }

  /** The rule has a follows list, which is ('if', 'elif'). */
  predicate Follows(t: Tag) { t.Elif? || t.Else? }

  predicate MayBeFollowed(t: Tag) { t.If? || t.Elif? }

  /** White space to str.split. */
  predicate IsSpace(c: char) {
    var u := c as int;
    || 9 <= u <= 13 || 28 <= u <= 32 || u == 0x85 || u == 0xA0 || u == 0x1680 || 0x2000 <= u <= 0x200A
    || u == 0x2028 || u == 0x2029 || u == 0x202F || u == 0x205F || u == 0x3000
  }

  /** text.split()[0], empty if there is no word. */
  function FirstWord(text: string): string {
    if text == "" then ""
    else if IsSpace(text[0]) then FirstWord(text[1..])
    else Word(text)
  }

  function Word(text: string): string {
    if text == "" || IsSpace(text[0]) then "" else [text[0]] + Word(text[1..])
  }

  function WithoutColon(w: string): string {
    if w != "" && w[|w| - 1] == ':' then w[..|w| - 1] else w
  }

  /** The rule of a line of Python, Py if it has none. */
  function TagOf(text: string): (t: Tag)
    ensures HasRule(t) || t == Py
  {
    var w := WithoutColon(FirstWord(text));
    if w == "for" then For else if w == "while" then While else if w == "if" then If
    else if w == "elif" then Elif else if w == "else" then Else else Py
  }

  /** The line closes a block with this tag. */
  predicate Closes(text: string, t: Tag) { HasRule(t) && text == CloseTag(t) }

  /** No close tag opens a block. */
  lemma {:induction false} CloseTagHasNoRule(t: Tag)
    requires HasRule(t)
    ensures FirstWord(CloseTag(t)) == CloseTag(t) && TagOf(CloseTag(t)) == Py
  {
    var w := CloseTag(t);
    WordOfLetters(w);
  }

  lemma CloseTagIsNotEmpty(t: Tag)
    requires HasRule(t)
    ensures CloseTag(t) != ""
  {
  }

  lemma {:induction false} WordOfLetters(w: string)
    requires forall i | 0 <= i < |w| :: !IsSpace(w[i])
    ensures Word(w) == FirstWord(w) == w
  {
    if w != "" {
      WordOfLetters(w[1..]);
      assert [w[0]] + w[1..] == w;
    }
  }

  // ----- trees -----

  datatype Tree = Tree(lineno: int, tag: Tag, header: string, items: seq<Tree>)

  function Leaf(line: Line): Tree { Tree(line.no, if line.py then TagOf(line.text) else Spool, line.text, []) }

  /** The block that stands for a close tag: the constructors of Line and Block count its number up. */
  function BlankFor(line: Line): Tree { Tree(line.no + 1, Blank, "", []) }

  function LastTag(items: seq<Tree>): Tag { if items == [] then Root else items[|items| - 1].tag }

  /** What may stand behind a block with tag a. */
  predicate CanFollow(a: Tag, b: Tag) {
    if HasRule(a) then b == Blank || (Follows(b) && MayBeFollowed(a)) else b != Blank && !Follows(b)
  }

  /** A block inside one with tag parent. */
  predicate WellFormed(parent: Tag, t: Tree)
    decreases t
  {
    match t.tag
    case Spool => t.items == []
    case Py => t.items == [] && FirstWord(t.header) != "" && TagOf(t.header) == Py && !Closes(t.header, parent)
    case Blank => t.items == [] && t.header == ""
    case Root => false
    case _ =>
      && FirstWord(t.header) != "" && TagOf(t.header) == t.tag
      && AllWellFormed(t.tag, t.items) && !HasRule(LastTag(t.items))
  }

  /** Blocks in sequence: every if, elif, else, for or while that is not the last has what must
      come behind it. */
  predicate AllWellFormed(parent: Tag, items: seq<Tree>)
    decreases items
  {
    items == [] ||
    var init, last := items[..|items| - 1], items[|items| - 1];
    AllWellFormed(parent, init) && CanFollow(LastTag(init), last.tag) && WellFormed(parent, last)
  }

  /** The grammar of templates: no block is open at the end. */
  predicate Complete(parent: Tag, items: seq<Tree>) {
    AllWellFormed(parent, items) && !HasRule(LastTag(items))
  }

  /** The line a block was made from. */
  function HeadLine(t: Tree): Line { Line(t.lineno, t.header, t.tag != Spool) }

  /** The lines of a template, from its blocks in preorder; a Blank gives the close tag back. */
  function LinesOf(items: seq<Tree>): seq<Line>
    decreases items
  {
    if items == [] then []
    else
      var init, last := items[..|items| - 1], items[|items| - 1];
      LinesOf(init) +
      if last.tag == Blank then
        (if HasRule(LastTag(init)) then [Line(last.lineno - 1, CloseTag(LastTag(init)), true)] else [])
      else [HeadLine(last)] + LinesOf(last.items)
  }

  // ----- the parser -----

  datatype Error = NoWord(no: int) | Unexpected(no: int) | StillOpen

  datatype Result<T> = Ok(value: T) | Err(error: Error)

  /** The blocks that are open: the root, or a block inside those around it. None of them has the
      open block inside it among its items yet. */
  datatype Open = Bottom(cur: Tree) | Inside(outer: Open, cur: Tree)

  /** The block with one more item. */
  function Grown(t: Tree, x: Tree): Tree { t.(items := t.items + [x]) }

  const ROOT := Tree(0, Root, "", [])

  /** The root, and blocks with rules inside. */
  predicate IsOpen(o: Open) {
    match o
    case Bottom(t) => t == ROOT.(items := t.items)
    case Inside(outer, t) => HasRule(t.tag) && IsOpen(outer)
  }

  /** The innermost open block gets one more item. */
  function Append(o: Open, x: Tree): (r: Open)
    ensures IsOpen(r) <==> IsOpen(o)
  {
    o.(cur := Grown(o.cur, x))
  }

  /** The innermost open block becomes an item of the one around it. */
  function Close(o: Open): Open
    requires o.Inside?
  {
    Append(o.outer, o.cur)
  }

  /** One line. */
  function Step(o: Open, line: Line): (r: Result<Open>)
    requires IsOpen(o)
    ensures r.Ok? ==> IsOpen(r.value)
  {
    if !line.py then Ok(Append(o, Leaf(line)))
    else if FirstWord(line.text) == "" then Err(NoWord(line.no))
    else if Closes(line.text, o.cur.tag) then Ok(Append(Close(o), BlankFor(line)))
    else
      var tag := TagOf(line.text);
      if !HasRule(tag) then Ok(Append(o, Leaf(line)))
      else if !Follows(tag) then Ok(Inside(o, Leaf(line)))
      else if !MayBeFollowed(o.cur.tag) then Err(Unexpected(line.no))
      else Ok(Inside(Close(o), Leaf(line)))
  }

  function Run(o: Open, lines: seq<Line>): (r: Result<Open>)
    requires IsOpen(o)
    ensures r.Ok? ==> IsOpen(r.value)
    decreases |lines|
  {
    if lines == [] then Ok(o)
    else
      var next := Step(o, lines[0]);
      if next.Err? then next else Run(next.value, lines[1..])
  }

  /** The parser's result: the items of the root. */
  function Parse(lines: seq<Line>): Result<seq<Tree>> {
    match Run(Bottom(ROOT), lines)
    case Err(e) => Err(e)
    case Ok(o) => if o.Inside? then Err(StillOpen) else Ok(o.cur.items)
  }

  lemma {:induction false} RunConcat(o: Open, a: seq<Line>, b: seq<Line>)
    requires IsOpen(o)
    ensures Run(o, a + b) == var r := Run(o, a); if r.Err? then r else Run(r.value, b)
    decreases |a|
  {
    if a == [] {
      assert a + b == b;
    } else {
      assert (a + b)[0] == a[0] && (a + b)[1..] == a[1..] + b;
      var next := Step(o, a[0]);
      if next.Ok? { RunConcat(next.value, a[1..], b); }
    }
  }

  lemma {:induction false} RunOne(o: Open, line: Line)
    requires IsOpen(o)
    ensures Run(o, [line]) == Step(o, line)
  {
    var next := Step(o, line);
    assert [line][1..] == [];
    if next.Ok? { assert Run(next.value, []) == next; }
  }

  // ----- items at the end -----

  lemma {:induction false} OneMoreItem(parent: Tag, items: seq<Tree>, x: Tree)
    ensures LastTag(items + [x]) == x.tag
    ensures AllWellFormed(parent, items + [x]) <==>
      AllWellFormed(parent, items) && CanFollow(LastTag(items), x.tag) && WellFormed(parent, x)
    ensures x.tag != Blank ==> LinesOf(items + [x]) == LinesOf(items) + ([HeadLine(x)] + LinesOf(x.items))
    ensures x.tag == Blank && HasRule(LastTag(items)) ==>
      LinesOf(items + [x]) == LinesOf(items) + [Line(x.lineno - 1, CloseTag(LastTag(items)), true)]
  {
    assert (items + [x])[..|items + [x]| - 1] == items;
  }

  lemma {:induction false} NoItems(parent: Tag)
    ensures LinesOf([]) == [] && AllWellFormed(parent, [])
  {
  }

  // ----- soundness: what the parser accepts is a template -----

  /** The open block t can become the next item of p. */
  ghost predicate OpenedIn(p: Tree, t: Tree) {
    CanFollow(LastTag(p.items), t.tag) && FirstWord(t.header) != "" && TagOf(t.header) == t.tag
  }

  /** The open blocks fit into each other. */
  ghost predicate Nested(o: Open) {
    && AllWellFormed(o.cur.tag, o.cur.items)
    && match o
       case Bottom(t) => t.tag == Root
       case Inside(outer, t) => HasRule(t.tag) && OpenedIn(outer.cur, t) && Nested(outer)
  }

  /** What holds of the open blocks after every line. */
  ghost predicate Inv(o: Open) {
    Nested(o) && !HasRule(LastTag(o.cur.items))
  }

  /** The lines that led to the open blocks. */
  function LinesSoFar(o: Open): seq<Line> {
    match o
    case Bottom(t) => LinesOf(t.items)
    case Inside(outer, t) => LinesSoFar(outer) + [HeadLine(t)] + LinesOf(t.items)
  }

  lemma {:induction false} AppendFits(o: Open, x: Tree)
    requires Nested(o) && WellFormed(o.cur.tag, x) && CanFollow(LastTag(o.cur.items), x.tag)
    ensures Nested(Append(o, x)) && LastTag(Append(o, x).cur.items) == x.tag
  {
    hide WellFormed, LinesOf, TagOf, FirstWord, AllWellFormed;
    OneMoreItem(o.cur.tag, o.cur.items, x);
  }

  lemma {:induction false} AppendLines(o: Open, x: Tree)
    ensures x.tag != Blank ==> LinesSoFar(Append(o, x)) == LinesSoFar(o) + [HeadLine(x)] + LinesOf(x.items)
    ensures x.tag == Blank && HasRule(LastTag(o.cur.items)) ==>
      LinesSoFar(Append(o, x)) == LinesSoFar(o) + [Line(x.lineno - 1, CloseTag(LastTag(o.cur.items)), true)]
  {
    hide LinesOf;
    OneMoreItem(o.cur.tag, o.cur.items, x);
  }

  /** The block that is closed becomes a well-formed item of the one around it. */
  lemma {:induction false} CloseFits(o: Open)
    requires Inv(o) && o.Inside?
    ensures Nested(Close(o)) && LastTag(Close(o).cur.items) == o.cur.tag
    ensures LinesSoFar(Close(o)) == LinesSoFar(o)
  {
    assert WellFormed(o.outer.cur.tag, o.cur);
    hide LinesOf, WellFormed, AllWellFormed, TagOf, FirstWord;
    AppendFits(o.outer, o.cur);
    AppendLines(o.outer, o.cur);
  }

  lemma {:induction false} OpenFits(o: Open, line: Line)
    requires Nested(o) && line.py && FirstWord(line.text) != "" && HasRule(TagOf(line.text))
    requires CanFollow(LastTag(o.cur.items), TagOf(line.text))
    ensures Inv(Inside(o, Leaf(line))) && LinesSoFar(Inside(o, Leaf(line))) == LinesSoFar(o) + [line]
  {
    hide LinesOf, WellFormed, AllWellFormed, TagOf, FirstWord;
    NoItems(TagOf(line.text));
  }

  lemma {:induction false} LeafIsWellFormed(parent: Tag, line: Line)
    requires line.py ==> FirstWord(line.text) != "" && !HasRule(TagOf(line.text)) && !Closes(line.text, parent)
    ensures WellFormed(parent, Leaf(line)) && CanFollow(Root, Leaf(line).tag)
    ensures !HasRule(Leaf(line).tag) && Leaf(line).tag != Blank && HeadLine(Leaf(line)) == line
  {
    hide FirstWord, TagOf, Closes;
  }

  lemma {:induction false} LeafFits(o: Open, line: Line)
    requires Inv(o)
    requires line.py ==>
      FirstWord(line.text) != "" && !HasRule(TagOf(line.text)) && !Closes(line.text, o.cur.tag)
    ensures Inv(Append(o, Leaf(line))) && LinesSoFar(Append(o, Leaf(line))) == LinesSoFar(o) + [line]
  {
    LeafIsWellFormed(o.cur.tag, line);
    hide LinesOf, WellFormed, AllWellFormed, FirstWord, TagOf, Closes;
    NoItems(Root);
    AppendFits(o, Leaf(line));
    AppendLines(o, Leaf(line));
  }

  lemma {:induction false} StepKeepsInv(o: Open, line: Line)
    requires Inv(o) && IsOpen(o) && Step(o, line).Ok?
    ensures Inv(Step(o, line).value) && LinesSoFar(Step(o, line).value) == LinesSoFar(o) + [line]
  {
    hide LinesOf, LinesSoFar, AllWellFormed, TagOf, FirstWord;
    if !line.py {
      LeafFits(o, line);
    } else if Closes(line.text, o.cur.tag) {
      CloseFits(o);
      AppendFits(Close(o), BlankFor(line));
      AppendLines(Close(o), BlankFor(line));
    } else if !HasRule(TagOf(line.text)) {
      LeafFits(o, line);
    } else if !Follows(TagOf(line.text)) {
      OpenFits(o, line);
    } else {
      CloseFits(o);
      OpenFits(Close(o), line);
    }
  }

  lemma {:induction false} RunKeepsInv(o: Open, lines: seq<Line>)
    requires Inv(o) && IsOpen(o) && Run(o, lines).Ok?
    ensures Inv(Run(o, lines).value) && LinesSoFar(Run(o, lines).value) == LinesSoFar(o) + lines
    decreases |lines|
  {
    hide Inv, LinesSoFar, Step;
    if lines != [] {
      StepKeepsInv(o, lines[0]);
      RunKeepsInv(Step(o, lines[0]).value, lines[1..]);
      assert LinesSoFar(o) + [lines[0]] + lines[1..] == LinesSoFar(o) + lines;
    }
  }

  // ----- completeness: every template is accepted -----

  /** The block p inside those around it, if any, with its first items. */
  function With(o: Open, items: seq<Tree>): Open { o.(cur := o.cur.(items := items)) }

  /** The open blocks after the lines of items inside the innermost one: the last item is still open
      if it has a rule. */
  function Reached(o: Open, items: seq<Tree>): Open {
    if HasRule(LastTag(items)) then Inside(With(o, items[..|items| - 1]), items[|items| - 1])
    else With(o, items)
  }

  lemma {:induction false} ReachedOneMore(o: Open, items: seq<Tree>, x: Tree)
    ensures Reached(o, items + [x]) == if HasRule(x.tag) then Inside(With(o, items), x) else With(o, items + [x])
  {
    assert (items + [x])[..|items + [x]| - 1] == items;
  }

  lemma {:induction false} ReachedBefore(o: Open, init: seq<Tree>)
    requires IsOpen(o)
    ensures IsOpen(Reached(o, init)) && IsOpen(With(o, init)) && With(o, init).cur.tag == o.cur.tag
    ensures HasRule(LastTag(init)) ==> Reached(o, init).Inside? && Reached(o, init).cur.tag == LastTag(init)
    ensures HasRule(LastTag(init)) ==> Close(Reached(o, init)) == With(o, init)
    ensures !HasRule(LastTag(init)) ==> Reached(o, init) == With(o, init)
  {
    if HasRule(LastTag(init)) { assert init[..|init| - 1] + [init[|init| - 1]] == init; }
  }

  /** A close tag behind a block with a rule. */
  lemma {:induction false} StepBlank(o: Open, init: seq<Tree>, last: Tree)
    requires IsOpen(o) && WellFormed(o.cur.tag, last) && last.tag == Blank && HasRule(LastTag(init))
    ensures IsOpen(Reached(o, init))
    ensures Step(Reached(o, init), Line(last.lineno - 1, CloseTag(LastTag(init)), true)) ==
            Ok(Reached(o, init + [last]))
  {
    assert last == Tree(last.lineno, Blank, "", []);
    CloseTagHasNoRule(LastTag(init));
    CloseTagIsNotEmpty(LastTag(init));
    ReachedBefore(o, init);
    ReachedOneMore(o, init, last);
    hide WellFormed, FirstWord, TagOf, CloseTag, Reached;
  }

  /** A line that opens a block. */
  lemma {:induction false} StepHead(o: Open, init: seq<Tree>, last: Tree)
    requires IsOpen(o) && WellFormed(o.cur.tag, last) && CanFollow(LastTag(init), last.tag) && HasRule(last.tag)
    ensures IsOpen(Reached(o, init))
    ensures Step(Reached(o, init), HeadLine(last)) == Ok(Inside(With(o, init), last.(items := [])))
  {
    HeadOpens(o.cur.tag, last);
    ReachedBefore(o, init);
    hide WellFormed, FirstWord, TagOf, Reached, With, Closes;
  }

  lemma {:induction false} HeadOpens(parent: Tag, t: Tree)
    requires WellFormed(parent, t) && HasRule(t.tag)
    ensures FirstWord(t.header) != "" && TagOf(t.header) == t.tag && forall p: Tag :: !Closes(t.header, p)
  {
    hide TagOf, FirstWord, CloseTag, AllWellFormed;
    forall p: Tag | HasRule(p) ensures t.header != CloseTag(p) { CloseTagHasNoRule(p); }
  }

  /** A line of text, or of Python without a rule. */
  lemma {:induction false} StepLeaf(o: Open, init: seq<Tree>, last: Tree)
    requires IsOpen(o) && WellFormed(o.cur.tag, last) && CanFollow(LastTag(init), last.tag)
    requires last.tag != Blank && !HasRule(last.tag)
    ensures IsOpen(Reached(o, init)) && last.items == []
    ensures Step(Reached(o, init), HeadLine(last)) == Ok(Reached(o, init + [last]))
  {
    ReachedBefore(o, init);
    ReachedOneMore(o, init, last);
    hide FirstWord, TagOf, Reached;
  }

  lemma {:induction false} RunLinesOf(o: Open, items: seq<Tree>)
    requires IsOpen(o) && AllWellFormed(o.cur.tag, items)
    ensures Run(With(o, []), LinesOf(items)) == Ok(Reached(o, items)) && IsOpen(Reached(o, items))
    decreases items
  {
    hide FirstWord, TagOf, Step;
    if items != [] {
      var init, last := items[..|items| - 1], items[|items| - 1];
      assert items == init + [last];
      OneMoreItem(o.cur.tag, init, last);
      RunLinesOf(o, init);
      if last.tag == Blank {
        StepBlank(o, init, last);
        var line := Line(last.lineno - 1, CloseTag(LastTag(init)), true);
        RunOne(Reached(o, init), line);
        RunConcat(With(o, []), LinesOf(init), [line]);
      } else {
        var more := LinesOf(last.items);
        RunConcat(With(o, []), LinesOf(init), [HeadLine(last)] + more);
        RunConcat(Reached(o, init), [HeadLine(last)], more);
        RunOne(Reached(o, init), HeadLine(last));
        if HasRule(last.tag) {
          StepHead(o, init, last);
          RunLinesOf(Inside(With(o, init), last), last.items);
          ReachedOneMore(o, init, last);
        } else {
          StepLeaf(o, init, last);
        }
      }
    }
  }

  // ----- the parser and the grammar -----

  /** The parser accepts exactly the lines of complete templates, and gives the template back:
      no two templates have the same lines. */
  lemma {:induction false} ParseIsInverse(items: seq<Tree>)
    requires Complete(Root, items)
    ensures Parse(LinesOf(items)) == Ok(items)
  {
    RunLinesOf(Bottom(ROOT), items);
    assert With(Bottom(ROOT), []) == Bottom(ROOT);
  }

  lemma {:induction false} ParsedIsComplete(lines: seq<Line>)
    requires Parse(lines).Ok?
    ensures Complete(Root, Parse(lines).value) && LinesOf(Parse(lines).value) == lines
  {
    NoItems(Root);
    RunKeepsInv(Bottom(ROOT), lines);
    assert [] + lines == lines;
  }

  /** The parser fails exactly on what is not the lines of a complete template. */
  lemma {:induction false} ParseFailsExactly(lines: seq<Line>)
    ensures Parse(lines).Err? <==> forall items | Complete(Root, items) :: LinesOf(items) != lines
  {
    if Parse(lines).Ok? {
      ParsedIsComplete(lines);
    } else {
      forall items | Complete(Root, items) ensures LinesOf(items) != lines { ParseIsInverse(items); }
    }
  }
}
