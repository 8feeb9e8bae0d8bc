/** Which words open, continue and close the blocks of a template: the parser's steps and the trees of whole
    statements, with the words written out. */
module BlockWords {
  import opened BlockTree

  // ----- first words -----

  predicate AllSpace(s: string) { forall x | x in s :: IsSpace(x) }

  predicate IsWord(w: string) { w != "" && forall x | x in w :: !IsSpace(x) }

  predicate EndsWord(tail: string) { tail == "" || IsSpace(tail[0]) }

  lemma {:induction false} WordUpTo(w: string, tail: string)
    requires EndsWord(tail) && forall x | x in w :: !IsSpace(x)
    ensures Word(w + tail) == w
  {
    if w == "" {
      assert w + tail == tail;
    } else {
      assert (w + tail)[1..] == w[1..] + tail;
      assert w[0] in w && forall x | x in w[1..] :: x in w;
      WordUpTo(w[1..], tail);
      assert [w[0]] + w[1..] == w;
    }
  }

  lemma {:induction false} FirstWordIs(pad: string, w: string, tail: string)
    requires AllSpace(pad) && IsWord(w) && EndsWord(tail)
    ensures FirstWord(pad + w + tail) == w
  {
    var text := pad + w + tail;
    if pad == "" {
      assert text == w + tail && text[0] == w[0] && w[0] in w;
      WordUpTo(w, tail);
    } else {
      assert pad[0] in pad && forall x | x in pad[1..] :: x in pad;
      assert text[1..] == pad[1..] + w + tail;
      FirstWordIs(pad[1..], w, tail);
    }
  }

  lemma {:induction false} NoFirstWord(text: string)
    requires AllSpace(text)
    ensures FirstWord(text) == ""
  {
    if text != "" {
      assert text[0] in text && forall x | x in text[1..] :: x in text;
      NoFirstWord(text[1..]);
    }
  }

  /** A text is white space, or it has a first word. */
  lemma {:induction false} FirstWordExists(text: string) returns (pad: string, w: string, tail: string)
    requires !AllSpace(text)
    ensures AllSpace(pad) && IsWord(w) && EndsWord(tail) && text == pad + w + tail
  {
    if IsSpace(text[0]) {
      assert !AllSpace(text[1..]) by { assert text == [text[0]] + text[1..]; }
      pad, w, tail := FirstWordExists(text[1..]);
      pad := [text[0]] + pad;
      assert text == [text[0]] + text[1..];
    } else {
      pad := "";
      w, tail := WordExists(text);
    }
  }

  lemma {:induction false} WordExists(text: string) returns (w: string, tail: string)
    requires text != "" && !IsSpace(text[0])
    ensures IsWord(w) && EndsWord(tail) && text == w + tail
  {
    if |text| == 1 || IsSpace(text[1]) {
      w, tail := [text[0]], text[1..];
    } else {
      w, tail := WordExists(text[1..]);
      w := [text[0]] + w;
    }
  }

  // ----- one line -----

  /** The tag of a line of Python, from its first word. */
  lemma {:induction false} TagOfWord(pad: string, w: string, tail: string)
    requires AllSpace(pad) && IsWord(w) && EndsWord(tail)
    ensures TagOf(pad + w + tail) ==
            if w == "for" || w == "for:" then For
            else if w == "while" || w == "while:" then While
            else if w == "if" || w == "if:" then If
            else if w == "elif" || w == "elif:" then Elif
            else if w == "else" || w == "else:" then Else
            else Py
  {
    FirstWordIs(pad, w, tail);
    hide FirstWord;
    if w[|w| - 1] == ':' { assert w == w[..|w| - 1] + ":"; }
  }

  /** What the parser does with a line of Python with first word w: a close tag, the line as a whole, ends the
      innermost block if it is its own; "for", "while" and "if" open a block in the innermost one; "elif" and
      "else" take the place of an open if or elif and are refused elsewhere; any other line is an item. */
  lemma {:induction false} StepByFirstWord(o: Open, no: int, pad: string, w: string, tail: string)
    requires IsOpen(o) && AllSpace(pad) && IsWord(w) && EndsWord(tail)
    ensures var text, at := pad + w + tail, o.cur.tag;
      Step(o, Line(no, text, true)) ==
      if (at == For && text == "endfor") || (at == While && text == "endwhile") ||
         ((at == If || at == Elif || at == Else) && text == "endif")
      then Ok(Append(Close(o), Tree(no + 1, Blank, "", [])))
      else if w == "for" || w == "for:" then Ok(Inside(o, Tree(no, For, text, [])))
      else if w == "while" || w == "while:" then Ok(Inside(o, Tree(no, While, text, [])))
      else if w == "if" || w == "if:" then Ok(Inside(o, Tree(no, If, text, [])))
      else if w == "elif" || w == "elif:" || w == "else" || w == "else:" then
        if at == If || at == Elif then
          Ok(Inside(Close(o), Tree(no, if w == "elif" || w == "elif:" then Elif else Else, text, [])))
        else Err(Unexpected(no))
      else Ok(Append(o, Tree(no, Py, text, [])))
  {
    hide TagOf, FirstWord, Closes, AllSpace, IsWord, EndsWord;
    FirstWordIs(pad, w, tail);
    TagOfWord(pad, w, tail);
    ClosesInWords(pad + w + tail, o.cur.tag);
    WordIsSome(w);
  }

  lemma ClosesInWords(text: string, t: Tag)
    ensures Closes(text, t) <==>
            (t == For && text == "endfor") || (t == While && text == "endwhile") ||
            ((t == If || t == Elif || t == Else) && text == "endif")
    ensures Closes(text, t) ==> HasRule(t)
  {
  }

  lemma WordIsSome(w: string)
    ensures IsWord(w) ==> w != ""
  {
  }

  /** A line of text is an item; a line of Python without a word stops the parser. */
  lemma {:induction false} StepWithoutWord(o: Open, no: int, text: string)
    requires IsOpen(o)
    ensures Step(o, Line(no, text, false)) == Ok(Append(o, Tree(no, Spool, text, [])))
    ensures AllSpace(text) ==> Step(o, Line(no, text, true)) == Err(NoWord(no))
  {
    if AllSpace(text) { NoFirstWord(text); }
    hide FirstWord;
  }

  // ----- whole statements -----

  /** The line begins with the word, a colon right behind it or not. */
  ghost predicate Begins(header: string, w: string) {
    exists pad: string, tail: string {:trigger AllSpace(pad), EndsWord(tail)} ::
      AllSpace(pad) && EndsWord(tail) && (header == pad + w + tail || header == pad + (w + ":") + tail)
  }

  /** One arm of an if, or a loop: its line and the blocks inside. */
  datatype Arm = Arm(no: int, header: string, body: seq<Tree>)

  /** The tag of arm k of n: the first is the if, the last may be the else, those between are elifs. */
  function ArmTag(k: nat, n: nat, hasElse: bool): Tag {
    if k == 0 then If else if hasElse && k == n - 1 then Else else Elif
  }

  /** An if with any number of elifs and perhaps an else. */
  ghost predicate IsChain(arms: seq<Arm>, hasElse: bool) {
    && |arms| > (if hasElse then 1 else 0)
    && Begins(arms[0].header, "if")
    && (forall k | 1 <= k < |arms| && !(hasElse && k == |arms| - 1) :: Begins(arms[k].header, "elif"))
    && (hasElse ==> Begins(arms[|arms| - 1].header, "else"))
    && forall k | 0 <= k < |arms| :: Complete(ArmTag(k, |arms|, hasElse), arms[k].body)
  }

  /** The lines of the first k arms. */
  function ArmLines(arms: seq<Arm>, k: nat): seq<Line>
    requires k <= |arms|
  {
    if k == 0 then []
    else ArmLines(arms, k - 1) + ([Line(arms[k - 1].no, arms[k - 1].header, true)] + LinesOf(arms[k - 1].body))
  }

  /** Their blocks, one behind the other. */
  function ArmBlocks(arms: seq<Arm>, hasElse: bool, k: nat): seq<Tree>
    requires k <= |arms|
  {
    if k == 0 then []
    else
      var arm := arms[k - 1];
      ArmBlocks(arms, hasElse, k - 1) + [Tree(arm.no, ArmTag(k - 1, |arms|, hasElse), arm.header, arm.body)]
  }

  function ChainLines(arms: seq<Arm>, end: int): seq<Line> {
    ArmLines(arms, |arms|) + [Line(end, "endif", true)]
  }

  function ChainBlocks(arms: seq<Arm>, hasElse: bool, end: int): seq<Tree> {
    ArmBlocks(arms, hasElse, |arms|) + [Tree(end + 1, Blank, "", [])]
  }

  lemma {:induction false} BeginsHasTag(header: string, w: string)
    requires Begins(header, w)
    ensures w == "for" ==> FirstWord(header) != "" && TagOf(header) == For
    ensures w == "while" ==> FirstWord(header) != "" && TagOf(header) == While
    ensures w == "if" ==> FirstWord(header) != "" && TagOf(header) == If
    ensures w == "elif" ==> FirstWord(header) != "" && TagOf(header) == Elif
    ensures w == "else" ==> FirstWord(header) != "" && TagOf(header) == Else
  {
    if w == "for" || w == "while" || w == "if" || w == "elif" || w == "else" {
      var pad, tail :| AllSpace(pad) && EndsWord(tail) &&
        (header == pad + w + tail || header == pad + (w + ":") + tail);
      var word := if header == pad + w + tail then w else w + ":";
      hide Begins, AllSpace, EndsWord, TagOf, FirstWord;
      assert IsWord(word);
      FirstWordIs(pad, word, tail);
      TagOfWord(pad, word, tail);
    }
  }

  /** A block with a rule fits anywhere its tag may stand. */
  lemma {:induction false} BlockFits(parent: Tag, items: seq<Tree>, t: Tree)
    requires AllWellFormed(parent, items) && HasRule(t.tag) && CanFollow(LastTag(items), t.tag)
    requires FirstWord(t.header) != "" && TagOf(t.header) == t.tag && Complete(t.tag, t.items)
    ensures AllWellFormed(parent, items + [t]) && LastTag(items + [t]) == t.tag
    ensures LinesOf(items + [t]) == LinesOf(items) + ([Line(t.lineno, t.header, true)] + LinesOf(t.items))
  {
    hide FirstWord, TagOf, LinesOf, AllWellFormed;
    assert WellFormed(parent, t);
    OneMoreItem(parent, items, t);
  }

  /** The empty block for the close tag ends it. */
  lemma {:induction false} BlankFits(parent: Tag, items: seq<Tree>, end: int)
    requires AllWellFormed(parent, items) && HasRule(LastTag(items))
    ensures Complete(parent, items + [Tree(end + 1, Blank, "", [])])
    ensures LinesOf(items + [Tree(end + 1, Blank, "", [])]) ==
            LinesOf(items) + [Line(end, CloseTag(LastTag(items)), true)]
  {
    hide LinesOf, AllWellFormed;
    OneMoreItem(parent, items, Tree(end + 1, Blank, "", []));
  }

  lemma {:induction false} ArmsFit(parent: Tag, arms: seq<Arm>, hasElse: bool, k: nat)
    requires IsChain(arms, hasElse) && k <= |arms|
    ensures AllWellFormed(parent, ArmBlocks(arms, hasElse, k))
    ensures LinesOf(ArmBlocks(arms, hasElse, k)) == ArmLines(arms, k)
    ensures LastTag(ArmBlocks(arms, hasElse, k)) == if k == 0 then Root else ArmTag(k - 1, |arms|, hasElse)
  {
    hide AllWellFormed, LinesOf, TagOf, FirstWord, Begins, Complete;
    if k == 0 {
      NoItems(parent);
    } else {
      ArmsFit(parent, arms, hasElse, k - 1);
      var arm, tag := arms[k - 1], ArmTag(k - 1, |arms|, hasElse);
      BeginsHasTag(arm.header, if tag == If then "if" else if tag == Else then "else" else "elif");
      BlockFits(parent, ArmBlocks(arms, hasElse, k - 1), Tree(arm.no, tag, arm.header, arm.body));
    }
  }

  /** An if statement is a template of its own, of the blocks of its arms and the one for its close tag. */
  lemma {:induction false} ChainIsComplete(parent: Tag, arms: seq<Arm>, hasElse: bool, end: int)
    requires IsChain(arms, hasElse)
    ensures Complete(parent, ChainBlocks(arms, hasElse, end))
    ensures LinesOf(ChainBlocks(arms, hasElse, end)) == ChainLines(arms, end)
  {
    hide AllWellFormed, LinesOf, Complete, IsChain, ArmBlocks, ArmLines;
    ChainHasArms(arms, hasElse);
    ArmsFit(parent, arms, hasElse, |arms|);
    BlankFits(parent, ArmBlocks(arms, hasElse, |arms|), end);
  }

  lemma ChainHasArms(arms: seq<Arm>, hasElse: bool)
    requires IsChain(arms, hasElse)
    ensures |arms| > 0
  {
  }

  function LoopLines(loop: Arm, isFor: bool, end: int): seq<Line> {
    [Line(loop.no, loop.header, true)] + LinesOf(loop.body) +
    [Line(end, if isFor then "endfor" else "endwhile", true)]
  }

  function LoopBlocks(loop: Arm, isFor: bool, end: int): seq<Tree> {
    [Tree(loop.no, if isFor then For else While, loop.header, loop.body), Tree(end + 1, Blank, "", [])]
  }

  /** So is a loop. */
  lemma {:induction false} LoopIsComplete(parent: Tag, loop: Arm, isFor: bool, end: int)
    requires Begins(loop.header, if isFor then "for" else "while")
    requires Complete(if isFor then For else While, loop.body)
    ensures Complete(parent, LoopBlocks(loop, isFor, end))
    ensures LinesOf(LoopBlocks(loop, isFor, end)) == LoopLines(loop, isFor, end)
  {
    hide AllWellFormed, LinesOf, TagOf, FirstWord, Begins, Complete;
    var t := Tree(loop.no, if isFor then For else While, loop.header, loop.body);
    NoItems(parent);
    BeginsHasTag(loop.header, if isFor then "for" else "while");
    BlockFits(parent, [], t);
    assert [] + [t] == [t] && [] + ([Line(loop.no, loop.header, true)] + LinesOf(loop.body)) ==
      [Line(loop.no, loop.header, true)] + LinesOf(loop.body);
    BlankFits(parent, [t], end);
    assert [t] + [Tree(end + 1, Blank, "", [])] == [t, Tree(end + 1, Blank, "", [])];
  }

  /** Complete templates one behind the other. */
  lemma {:induction false} TemplatesConcat(parent: Tag, a: seq<Tree>, b: seq<Tree>)
    requires Complete(parent, a) && AllWellFormed(parent, b)
    ensures AllWellFormed(parent, a + b) && LinesOf(a + b) == LinesOf(a) + LinesOf(b)
    ensures b != [] ==> LastTag(a + b) == LastTag(b)
    ensures Complete(parent, b) ==> Complete(parent, a + b)
  {
    hide AllWellFormed, LinesOf, WellFormed, LastTag;
    if b == [] {
      assert a + b == a;
      NoItems(parent);
    } else {
      var init, last := b[..|b| - 1], b[|b| - 1];
      assert b == init + [last];
      OneMoreItem(parent, init, last);
      TemplatesConcat(parent, a, init);
      if init == [] { LastOfNothing(); }
      OneMoreBehind(parent, a, init, last);
    }
  }

  lemma LastOfNothing()
    ensures LastTag([]) == Root
  {
  }

  lemma {:induction false} OneMoreBehind(parent: Tag, a: seq<Tree>, init: seq<Tree>, last: Tree)
    requires AllWellFormed(parent, init + [last]) && AllWellFormed(parent, a + init)
    requires LinesOf(a + init) == LinesOf(a) + LinesOf(init)
    requires if init == [] then a + init == a && !HasRule(LastTag(a)) else LastTag(a + init) == LastTag(init)
    ensures AllWellFormed(parent, a + (init + [last])) && LastTag(a + (init + [last])) == last.tag
    ensures LinesOf(a + (init + [last])) == LinesOf(a) + LinesOf(init + [last])
  {
    hide AllWellFormed, LinesOf, WellFormed;
    assert a + (init + [last]) == (a + init) + [last];
    OneMoreItem(parent, init, last);
    OneMoreItem(parent, a + init, last);
    if last.tag == Blank { assert init != []; }
  }

  /** Between any templates, the lines of an if statement are parsed into exactly its blocks: the if, the elifs
      and the else side by side, each with the blocks of its own lines inside. */
  lemma {:induction false} ChainIsParsed(before: seq<Tree>, arms: seq<Arm>, hasElse: bool, end: int, after: seq<Tree>)
    requires Complete(Root, before) && IsChain(arms, hasElse) && Complete(Root, after)
    ensures Parse(LinesOf(before) + ChainLines(arms, end) + LinesOf(after)) ==
            Ok(before + ChainBlocks(arms, hasElse, end) + after)
  {
    hide Complete, LinesOf, IsChain, ChainBlocks, ChainLines, Parse;
    ChainIsComplete(Root, arms, hasElse, end);
    StatementIsParsed(before, ChainBlocks(arms, hasElse, end), after);
  }

  lemma {:induction false} StatementIsParsed(before: seq<Tree>, blocks: seq<Tree>, after: seq<Tree>)
    requires Complete(Root, before) && Complete(Root, blocks) && Complete(Root, after)
    ensures Parse(LinesOf(before) + LinesOf(blocks) + LinesOf(after)) == Ok(before + blocks + after)
  {
    hide AllWellFormed, LinesOf, Parse;
    TemplatesConcat(Root, before, blocks);
    TemplatesConcat(Root, before + blocks, after);
    ParseIsInverse(before + blocks + after);
  }

  /** The lines of a loop likewise. */
  lemma {:induction false} LoopIsParsed(before: seq<Tree>, loop: Arm, isFor: bool, end: int, after: seq<Tree>)
    requires Complete(Root, before) && Complete(Root, after)
    requires Begins(loop.header, if isFor then "for" else "while")
    requires Complete(if isFor then For else While, loop.body)
    ensures Parse(LinesOf(before) + LoopLines(loop, isFor, end) + LinesOf(after)) ==
            Ok(before + LoopBlocks(loop, isFor, end) + after)
  {
    hide Complete, LinesOf, Parse, Begins, LoopLines, LoopBlocks;
    LoopIsComplete(Root, loop, isFor, end);
    StatementIsParsed(before, LoopBlocks(loop, isFor, end), after);
  }

  /** The plain if with an else, for every condition. */
  lemma {:induction false} IfElseIsParsed(c: string, xs: seq<Tree>, ys: seq<Tree>, n: int, m: int, end: int)
    requires Complete(If, xs) && Complete(Else, ys)
    ensures Parse([Line(n, "if " + c + ":", true)] + LinesOf(xs) + [Line(m, "else:", true)] + LinesOf(ys) +
                  [Line(end, "endif", true)]) ==
            Ok([Tree(n, If, "if " + c + ":", xs), Tree(m, Else, "else:", ys), Tree(end + 1, Blank, "", [])])
  {
    var first, second := Arm(n, "if " + c + ":", xs), Arm(m, "else:", ys);
    var arms := [first, second];
    hide Complete, LinesOf, Parse, Begins, ChainLines, ChainBlocks;
    HeadersBegin(c);
    TwoArms(first, second, end);
    NothingComplete();
    ChainIsParsed([], arms, true, end, []);
    assert [] + ChainLines(arms, end) + [] == ChainLines(arms, end);
    assert [] + ChainBlocks(arms, true, end) + [] == ChainBlocks(arms, true, end);
  }

  lemma {:induction false} TwoArms(first: Arm, second: Arm, end: int)
    ensures ChainLines([first, second], end) ==
            [Line(first.no, first.header, true)] + LinesOf(first.body) + [Line(second.no, second.header, true)] +
            LinesOf(second.body) + [Line(end, "endif", true)]
    ensures ChainBlocks([first, second], true, end) ==
            [Tree(first.no, If, first.header, first.body), Tree(second.no, Else, second.header, second.body),
             Tree(end + 1, Blank, "", [])]
  {
    hide LinesOf;
    var arms := [first, second];
    assert ArmLines(arms, 0) == [];
    assert ArmLines(arms, 1) == [Line(first.no, first.header, true)] + LinesOf(first.body);
    assert ArmLines(arms, 2) == ArmLines(arms, 1) + ([Line(second.no, second.header, true)] + LinesOf(second.body));
    assert ArmBlocks(arms, true, 1) == [Tree(first.no, If, first.header, first.body)];
  }

  lemma NothingComplete()
    ensures Complete(Root, []) && LinesOf([]) == []
  {
  }

  lemma HeadersBegin(c: string)
    ensures Begins("if " + c + ":", "if") && Begins("else:", "else")
  {
    var pad, tail, none := "", " " + c + ":", "";
    assert AllSpace(pad) && EndsWord(tail) && EndsWord(none);
    assert "if " + c + ":" == pad + "if" + tail;
    assert "else:" == pad + ("else" + ":") + none;
  }
}
