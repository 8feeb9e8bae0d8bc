/** The template preprocessor's reading: from the text of a template, its Python lines joined with their
    continuations, to a tree of blocks on the heap. */
module PyCpp {
  import opened Common
  import opened PyStrings
  import opened BlockTree

  // ----- logical lines -----

  predicate StartsWith(s: string, p: string) { |p| <= |s| && s[..|p|] == p }

  const MARK := "#py "

  predicate IsPython(line: string) { StartsWith(line, MARK) }

  predicate EndsInBackslash(line: string) { line != "" && line[|line| - 1] == '\\' }

  /** The line without its backslash, a newline in its place. */
  function Continued(line: string): string
    requires EndsInBackslash(line)
  {
    line[..|line| - 1] + "\n"
  }

  /** The line at a position with all it is continued by, and where the next line begins. */
  function Gathered(lines: seq<string>, at: nat): (r: (string, nat))
    requires at < |lines|
    ensures at < r.1 <= |lines|
    decreases |lines| - at
  {
    if !EndsInBackslash(lines[at]) then (lines[at], at + 1)
    else if at + 1 == |lines| then (Continued(lines[at]), at + 1)
    else var (text, next) := Gathered(lines, at + 1); (Continued(lines[at]) + text, next)
  }

  /** Only lines of Python are continued. */
  function NextLine(lines: seq<string>, at: nat): (r: (string, nat))
    requires at < |lines|
    ensures at < r.1 <= |lines|
  {
    if IsPython(lines[at]) then Gathered(lines, at) else (lines[at], at + 1)
  }

  /** line_continuation_adapter.__next__ */
  method ReadLine(lines: seq<string>, at: nat) returns (text: string, next: nat)
    requires at < |lines|
    ensures (text, next) == NextLine(lines, at)
  {
    var line := lines[at];
    next := at + 1;
    text := line;
    var cont := false;
    ghost var done := "";
    GatheredAtStart(lines, at);
    hide Gathered;
    while (cont || IsPython(line)) && EndsInBackslash(line)
      invariant at < next <= |lines| && line == lines[next - 1] && text == done + line
      invariant cont ==> IsPython(lines[at])
      invariant !cont ==> next == at + 1 && done == ""
      invariant IsPython(lines[at]) ==>
        Gathered(lines, at) == (done + Gathered(lines, next - 1).0, Gathered(lines, next - 1).1)
      decreases |lines| - next
    {
      GatheredStep(lines, next - 1, done);
      text, cont := text[..|text| - 1] + "\n", true;
      assert text == done + Continued(line);
      if next == |lines| { return; } // StopIteration
      done := text;
      line := lines[next];
      next := next + 1;
      text := text + line;
    }
    GatheredStep(lines, next - 1, done);
  }

  lemma GatheredAtStart(lines: seq<string>, at: nat)
    requires at < |lines|
    ensures Gathered(lines, at) == ("" + Gathered(lines, at).0, Gathered(lines, at).1) && "" + lines[at] == lines[at]
    ensures !EndsInBackslash(lines[at]) ==> Gathered(lines, at) == (lines[at], at + 1)
  {
    assert "" + Gathered(lines, at).0 == Gathered(lines, at).0;
  }

  lemma GatheredStep(lines: seq<string>, k: nat, done: string)
    requires k < |lines|
    ensures !EndsInBackslash(lines[k]) ==> Gathered(lines, k) == (lines[k], k + 1)
    ensures EndsInBackslash(lines[k]) && k + 1 == |lines| ==> Gathered(lines, k) == (Continued(lines[k]), k + 1)
    ensures EndsInBackslash(lines[k]) && k + 1 < |lines| ==>
      && done + Gathered(lines, k).0 == done + Continued(lines[k]) + Gathered(lines, k + 1).0
      && Gathered(lines, k).1 == Gathered(lines, k + 1).1
  {
    if EndsInBackslash(lines[k]) && k + 1 < |lines| {
      var c, t := Continued(lines[k]), Gathered(lines, k + 1).0;
      assert Gathered(lines, k) == (c + t, Gathered(lines, k + 1).1);
      assert done + (c + t) == done + c + t;
    }
  }

  /** What the constructor of Line makes of a logical line; numbers begin at 1. */
  function MakeLine(no: nat, text: string): Line {
    if IsPython(text) then Line(1 + no, text[|MARK|..], true) else Line(1 + no, text, false)
  }

  /** The logical lines from a position on. */
  function LogicalLines(lines: seq<string>, at: nat): seq<Line>
    requires at <= |lines|
    decreases |lines| - at
  {
    if at == |lines| then []
    else var (text, next) := NextLine(lines, at); [MakeLine(at, text)] + LogicalLines(lines, next)
  }

  function TemplateLines(input: string): seq<Line> { LogicalLines(SplitOn(input, '\n'), 0) }

  // ----- no character of the input is lost -----

  /** The text of a line with its mark. */
  function Marked(line: Line): string { if line.py then MARK + line.text else line.text }

  /** All lines but the last get their backslashes back. */
  function Backslashed(pieces: seq<string>): seq<string> {
    if |pieces| <= 1 then pieces else [pieces[0] + "\\"] + Backslashed(pieces[1..])
  }

  /** The lines of the input that a logical line was made from. */
  function Physical(line: Line): seq<string> { Backslashed(SplitOn(Marked(line), '\n')) }

  function AllPhysical(lines: seq<Line>): seq<string> {
    if lines == [] then [] else Physical(lines[0]) + AllPhysical(lines[1..])
  }

  /** The template a list of lines was read from. */
  function Unread(lines: seq<Line>): string { Join("\n", AllPhysical(lines)) }

  /** The template ends in a line of Python that is to be continued. */
  predicate EndsOpen(lines: seq<string>, at: nat)
    requires at <= |lines|
    decreases |lines| - at
  {
    at < |lines| &&
    var next := NextLine(lines, at).1;
    if next < |lines| then EndsOpen(lines, next)
    else IsPython(lines[at]) && EndsInBackslash(lines[|lines| - 1])
  }

  lemma {:induction false} GatheredIsUndone(lines: seq<string>, at: nat)
    requires at < |lines| && forall i | 0 <= i < |lines| :: '\n' !in lines[i]
    ensures var (text, next) := Gathered(lines, at);
      Backslashed(SplitOn(text, '\n')) ==
      lines[at..next] + if next == |lines| && EndsInBackslash(lines[|lines| - 1]) then [""] else []
    decreases |lines| - at
  {
    hide Backslashed, SplitOn, Continued;
    var line := lines[at];
    var (text, next) := Gathered(lines, at);
    if !EndsInBackslash(line) {
      UncontinuedLine(line);
      assert lines[at..next] == [line];
    } else if at + 1 == |lines| {
      SplitContinued(line, "");
      UncontinuedLine("");
      assert Continued(line) + "" == text;
      assert lines[at..next] == [line];
    } else {
      GatheredIsUndone(lines, at + 1);
      SplitContinued(line, Gathered(lines, at + 1).0);
      assert lines[at..next] == [line] + lines[at + 1..next];
    }
  }

  lemma UncontinuedLine(line: string)
    requires '\n' !in line
    ensures Backslashed(SplitOn(line, '\n')) == [line]
  {
    JoinSplit(line, '\n');
    hide SplitOn;
  }

  lemma SplitContinued(line: string, rest: string)
    requires EndsInBackslash(line) && '\n' !in line
    ensures Backslashed(SplitOn(Continued(line) + rest, '\n')) == [line] + Backslashed(SplitOn(rest, '\n'))
  {
    var chopped := line[..|line| - 1];
    JoinSplit(chopped, '\n');
    SplitAtSeparator(chopped, '\n', rest);
    hide SplitOn;
    assert chopped + ['\n'] + rest == Continued(line) + rest && chopped + "\\" == line;
    assert ([chopped] + SplitOn(rest, '\n'))[1..] == SplitOn(rest, '\n');
  }

  lemma MarkedIsText(no: nat, text: string)
    ensures Marked(MakeLine(no, text)) == text
  {
    if IsPython(text) { assert text[..|MARK|] + text[|MARK|..] == text; }
  }

  lemma {:induction false} LinesAreUndone(lines: seq<string>, at: nat)
    requires at <= |lines| && forall i | 0 <= i < |lines| :: '\n' !in lines[i]
    ensures AllPhysical(LogicalLines(lines, at)) == lines[at..] + if EndsOpen(lines, at) then [""] else []
    decreases |lines| - at
  {
    hide Gathered, Backslashed, SplitOn, MakeLine, Marked;
    if at < |lines| {
      var (text, next) := NextLine(lines, at);
      LinesAreUndone(lines, next);
      LineIsUndone(lines, at);
      var line, rest := MakeLine(at, text), LogicalLines(lines, next);
      assert ([line] + rest)[1..] == rest;
      assert lines[at..] == lines[at..next] + lines[next..];
      if next == |lines| { assert lines[next..] == [] && AllPhysical([]) == []; }
    }
  }

  lemma {:induction false} LineIsUndone(lines: seq<string>, at: nat)
    requires at < |lines| && forall i | 0 <= i < |lines| :: '\n' !in lines[i]
    ensures var (text, next) := NextLine(lines, at);
      Physical(MakeLine(at, text)) ==
      lines[at..next] +
      if next == |lines| && IsPython(lines[at]) && EndsInBackslash(lines[|lines| - 1]) then [""] else []
  {
    var (text, next) := NextLine(lines, at);
    MarkedIsText(at, text);
    hide Gathered, MakeLine, Marked;
    if IsPython(lines[at]) {
      GatheredIsUndone(lines, at);
    } else {
      JoinSplit(text, '\n');
      assert lines[at..next] == [text];
    }
  }

  /** The input can be had back from its lines, but for a newline at the end of a template that
      ends in a line to be continued. */
  lemma {:induction false} ReadingLosesNothing(input: string)
    ensures Unread(TemplateLines(input)) == input + if EndsOpen(SplitOn(input, '\n'), 0) then "\n" else ""
  {
    var lines := SplitOn(input, '\n');
    JoinSplit(input, '\n');
    LinesAreUndone(lines, 0);
    assert lines[0..] == lines;
    if EndsOpen(lines, 0) {
      JoinEmpty("\n", lines);
    } else {
      assert lines + [] == lines && input + "" == input;
    }
  }

  /** The tree of a template gives the template back, character by character. */
  lemma {:induction false} TreeKeepsTemplate(input: string)
    requires Parse(TemplateLines(input)).Ok?
    ensures Unread(LinesOf(Parse(TemplateLines(input)).value)) ==
            input + if EndsOpen(SplitOn(input, '\n'), 0) then "\n" else ""
  {
    ParsedIsComplete(TemplateLines(input));
    ReadingLosesNothing(input);
  }

  lemma {:induction false} JoinEmpty(separator: string, pieces: seq<string>)
    requires pieces != []
    ensures Join(separator, pieces + [""]) == Join(separator, pieces) + separator
  {
    assert (pieces + [""])[1..] == pieces[1..] + [""];
    if |pieces| > 1 {
      JoinEmpty(separator, pieces[1..]);
      var r := Join(separator, pieces[1..]);
      assert pieces[0] + separator + (r + separator) == pieces[0] + separator + r + separator;
    }
  }

  // ----- reading in plain terms -----

  /** What a template is written from: lines of text, and Python in one or more pieces, each but the last
      continued on the next line. */
  datatype Written = Text(text: string) | Python(pieces: seq<string>)

  predicate IsWritten(w: Written) {
    match w
    case Text(s) => '\n' !in s && !StartsWith(s, "#py ")
    case Python(ps) =>
      && ps != [] && (forall i | 0 <= i < |ps| :: '\n' !in ps[i])
      && (ps[|ps| - 1] == "" || ps[|ps| - 1][|ps[|ps| - 1]| - 1] != '\\')
  }

  /** The pieces, a backslash behind each but the last. */
  function Slashed(pieces: seq<string>): seq<string> {
    seq(|pieces|, i requires 0 <= i < |pieces| => if i < |pieces| - 1 then pieces[i] + "\\" else pieces[i])
  }

  function LinesWritten(w: Written): (lines: seq<string>)
    ensures w.Python? ==> |lines| == |w.pieces|
  {
    match w
    case Text(s) => [s]
    case Python(ps) => if ps == [] then [] else Slashed(["#py " + ps[0]] + ps[1..])
  }

  function AllWritten(ws: seq<Written>): seq<string> {
    if ws == [] then [] else LinesWritten(ws[0]) + AllWritten(ws[1..])
  }

  /** Their logical lines: numbered by the lines they begin on, the mark taken off, pieces joined. */
  function AsRead(ws: seq<Written>, no: nat): seq<Line> {
    if ws == [] then []
    else
      var line := match ws[0]
                  case Text(s) => Line(no, s, false)
                  case Python(ps) => Line(no, Join("\n", ps), true);
      [line] + AsRead(ws[1..], no + |LinesWritten(ws[0])|)
  }

  lemma {:induction false} SlashedIsGathered(lines: seq<string>, at: nat, ps: seq<string>)
    requires ps != [] && (ps[|ps| - 1] == "" || ps[|ps| - 1][|ps[|ps| - 1]| - 1] != '\\')
    requires at + |ps| <= |lines| && lines[at..at + |ps|] == Slashed(ps)
    ensures Gathered(lines, at) == (Join("\n", ps), at + |ps|)
    decreases |ps|
  {
    assert lines[at] == Slashed(ps)[0];
    if |ps| > 1 {
      assert lines[at + 1..at + |ps|] == lines[at..at + |ps|][1..] == Slashed(ps[1..]);
      SlashedIsGathered(lines, at + 1, ps[1..]);
      assert Continued(ps[0] + "\\") == ps[0] + "\n";
    }
  }

  /** The next logical line is the next of what was written. */
  lemma {:induction false} WrittenIsNext(lines: seq<string>, at: nat, w: Written)
    requires IsWritten(w) && at + |LinesWritten(w)| <= |lines|
    requires lines[at..at + |LinesWritten(w)|] == LinesWritten(w)
    ensures at < |lines|
    ensures var (text, next) := NextLine(lines, at);
      next == at + |LinesWritten(w)| &&
      MakeLine(at, text) == match w
                            case Text(s) => Line(1 + at, s, false)
                            case Python(ps) => Line(1 + at, Join("\n", ps), true)
  {
    assert lines[at] == LinesWritten(w)[0];
    match w
    case Text(s) =>
    case Python(ps) =>
      var marked := ["#py " + ps[0]] + ps[1..];
      hide Gathered, Join, Slashed;
      MarkedPieces(ps, marked);
      SlashedIsGathered(lines, at, marked);
  }

  lemma {:induction false} MarkedPieces(ps: seq<string>, marked: seq<string>)
    requires ps != [] && marked == ["#py " + ps[0]] + ps[1..]
    ensures |Slashed(marked)| == |ps| && StartsWith(Slashed(marked)[0], "#py ")
    ensures Join("\n", marked) == "#py " + Join("\n", ps)
    ensures marked[|ps| - 1] == if |ps| == 1 then "#py " + ps[0] else ps[|ps| - 1]
  {
    assert marked[1..] == ps[1..];
    var rest := Join("\n", ps[1..]);
    if |ps| > 1 { assert "#py " + ps[0] + "\n" + rest == "#py " + (ps[0] + "\n" + rest); }
  }

  lemma {:induction false} WrittenIsRead(lines: seq<string>, at: nat, ws: seq<Written>)
    requires at <= |lines| && lines[at..] == AllWritten(ws) && forall i | 0 <= i < |ws| :: IsWritten(ws[i])
    ensures LogicalLines(lines, at) == AsRead(ws, 1 + at)
    decreases |ws|
  {
    hide IsWritten, LinesWritten, MakeLine, NextLine, Join;
    if ws != [] {
      var first := LinesWritten(ws[0]);
      assert lines[at..][..|first|] == first && lines[at..][|first|..] == AllWritten(ws[1..]);
      assert lines[at..at + |first|] == first && lines[at + |first|..] == AllWritten(ws[1..]);
      WrittenIsNext(lines, at, ws[0]);
      WrittenIsRead(lines, at + |first|, ws[1..]);
    }
  }

  /** Lines joined by newlines split into the same lines. */
  lemma {:induction false} SplitJoinedLines(lines: seq<string>)
    requires lines != [] && forall i | 0 <= i < |lines| :: '\n' !in lines[i]
    ensures SplitOn(Join("\n", lines), '\n') == lines
  {
    JoinSplit(lines[0], '\n');
    if |lines| > 1 {
      SplitJoinedLines(lines[1..]);
      hide SplitOn;
      SplitAtSeparator(lines[0], '\n', Join("\n", lines[1..]));
      assert lines[0] + ['\n'] + Join("\n", lines[1..]) == Join("\n", lines);
    }
  }

  lemma {:induction false} WrittenHasNoNewline(ws: seq<Written>, i: nat)
    requires (forall k | 0 <= k < |ws| :: IsWritten(ws[k])) && i < |AllWritten(ws)|
    ensures '\n' !in AllWritten(ws)[i]
  {
    var first := LinesWritten(ws[0]);
    if i < |first| {
      assert AllWritten(ws)[i] == first[i] && IsWritten(ws[0]);
    } else {
      assert AllWritten(ws)[i] == AllWritten(ws[1..])[i - |first|];
      hide LinesWritten, IsWritten;
      WrittenHasNoNewline(ws[1..], i - |first|);
    }
  }

  /** A template is read into exactly what it was written from: text as it is, Python without its mark and with
      its pieces joined by newlines, each under the number of the line it begins on. */
  lemma {:induction false} WrittenTemplateIsRead(ws: seq<Written>)
    requires ws != [] && forall i | 0 <= i < |ws| :: IsWritten(ws[i])
    ensures TemplateLines(Join("\n", AllWritten(ws))) == AsRead(ws, 1)
  {
    var lines := AllWritten(ws);
    assert lines != [] by { assert IsWritten(ws[0]) && |LinesWritten(ws[0])| > 0; }
    hide AllWritten, IsWritten, LogicalLines, SplitOn, Join;
    forall i | 0 <= i < |lines| ensures '\n' !in lines[i] { WrittenHasNoNewline(ws, i); }
    SplitJoinedLines(lines);
    assert lines[0..] == lines;
    WrittenIsRead(lines, 0, ws);
  }

  // ----- the tree on the heap -----

  class Block {
    var lineno: int
    var tag: Tag
    var header: string
    var items: seq<Block>

    constructor (lineno: int, tag: Tag, header: string)
      ensures this.lineno == lineno && this.tag == tag && this.header == header && items == []
    {
      this.lineno, this.tag, this.header, items := lineno, tag, header, [];
    }
  }

  /** The block and all below it, which are among the given ones, form the tree. */
  ghost predicate Represents(b: Block, t: Tree, blocks: set<Block>)
    reads blocks
    decreases t
  {
    && b in blocks && b.lineno == t.lineno && b.tag == t.tag && b.header == t.header && |b.items| == |t.items|
    && forall i | 0 <= i < |t.items| :: Represents(b.items[i], t.items[i], blocks)
  }

  /** The block is open: behind the items it has so far come those of the tail. */
  ghost predicate Holds(b: Block, t: Tree, tail: seq<Block>, blocks: set<Block>)
    reads b, blocks
  {
    && b.lineno == t.lineno && b.tag == t.tag && b.header == t.header
    && |b.items| == |t.items| + |tail| && b.items[|t.items|..] == tail
    && forall i | 0 <= i < |t.items| :: Represents(b.items[i], t.items[i], blocks)
  }

  /** The stack has the open blocks; each holds the one above it as its last item. */
  ghost predicate Mirrors(stack: seq<Block>, o: Open, tail: seq<Block>, blocks: set<Block>)
    reads stack, blocks
    decreases o
  {
    && stack != [] && Holds(stack[|stack| - 1], o.cur, tail, blocks)
    && (o.Bottom? ==> |stack| == 1)
    && (o.Inside? ==> |stack| > 1 && Mirrors(stack[..|stack| - 1], o.outer, [stack[|stack| - 1]], blocks))
  }

  /** The open blocks are distinct, and none is among those that are complete. */
  ghost predicate Apart(stack: seq<Block>, blocks: set<Block>) {
    && (forall k | 0 <= k < |stack| :: stack[k] !in blocks)
    && (forall j, k | 0 <= j < k < |stack| :: stack[j] != stack[k])
  }

  /** prev and cur are the open blocks of o, blocks are all others. */
  ghost predicate Ready(prev: seq<Block>, cur: Block, o: Open, blocks: set<Block>)
    reads prev, cur, blocks
  {
    Mirrors(prev + [cur], o, [], blocks) && Apart(prev + [cur], blocks)
  }

  lemma {:induction false} RepresentsAmongMore(b: Block, t: Tree, blocks: set<Block>, more: set<Block>)
    requires Represents(b, t, blocks) && blocks <= more
    ensures Represents(b, t, more)
    decreases t
  {
    forall i | 0 <= i < |t.items| ensures Represents(b.items[i], t.items[i], more) {
      RepresentsAmongMore(b.items[i], t.items[i], blocks, more);
    }
  }

  lemma {:induction false} HoldsAmongMore(b: Block, t: Tree, tail: seq<Block>, blocks: set<Block>, more: set<Block>)
    requires Holds(b, t, tail, blocks) && blocks <= more
    ensures Holds(b, t, tail, more)
  {
    forall i | 0 <= i < |t.items| ensures Represents(b.items[i], t.items[i], more) {
      RepresentsAmongMore(b.items[i], t.items[i], blocks, more);
    }
  }

  lemma {:induction false} MirrorsAmongMore(stack: seq<Block>, o: Open, tail: seq<Block>,
                                            blocks: set<Block>, more: set<Block>)
    requires Mirrors(stack, o, tail, blocks) && blocks <= more
    ensures Mirrors(stack, o, tail, more)
    decreases o
  {
    hide Holds, Represents;
    HoldsAmongMore(stack[|stack| - 1], o.cur, tail, blocks, more);
    if o.Inside? { MirrorsAmongMore(stack[..|stack| - 1], o.outer, [stack[|stack| - 1]], blocks, more); }
  }

  /** cur.items.append(Block(...)), for a block that is complete. */
  method AddLeaf(ghost prev: seq<Block>, cur: Block, lineno: int, tag: Tag, header: string,
                 ghost o: Open, ghost blocks: set<Block>)
      returns (ghost more: set<Block>)
    requires Ready(prev, cur, o, blocks)
    modifies cur`items
    ensures fresh(more - blocks) && Ready(prev, cur, Append(o, Tree(lineno, tag, header, [])), more)
  {
    var x := new Block(lineno, tag, header);
    more := blocks + {x};
    ghost var stack, leaf := prev + [cur], Tree(lineno, tag, header, []);
    MirrorsAmongMore(stack, o, [], blocks, more);
    assert stack[..|prev|] == prev;
    hide Mirrors, Represents;
    cur.items := cur.items + [x];
    GrownIsMirrored(prev, cur, o, more, leaf);
  }

  lemma {:induction false} GrownIsMirrored(prev: seq<Block>, cur: Block, o: Open, blocks: set<Block>, x: Tree)
    requires |cur.items| > 0 && Holds(cur, Grown(o.cur, x), [], blocks)
    requires o.Bottom? ==> prev == []
    requires o.Inside? ==> prev != [] && Mirrors(prev, o.outer, [cur], blocks)
    ensures Mirrors(prev + [cur], Append(o, x), [], blocks)
  {
    assert (prev + [cur])[..|prev|] == prev;
  }

  /** The innermost open block is complete. */
  lemma {:induction false} CloseBlock(prev: seq<Block>, cur: Block, o: Open, blocks: set<Block>)
    requires Ready(prev, cur, o, blocks) && o.Inside?
    ensures prev != [] && Ready(prev[..|prev| - 1], prev[|prev| - 1], Close(o), blocks + {cur})
  {
    var more, p, before := blocks + {cur}, prev[|prev| - 1], prev[..|prev| - 1];
    assert (prev + [cur])[..|prev|] == prev && before + [p] == prev;
    HoldsAmongMore(cur, o.cur, [], blocks, more);
    MirrorsAmongMore(prev, o.outer, [cur], blocks, more);
    assert Represents(cur, o.cur, more);
    assert p.items == p.items[..|o.outer.cur.items|] + [cur];
    assert Holds(p, Grown(o.outer.cur, o.cur), [], more);
    hide Holds, Represents;
    GrownIsMirrored(before, p, o.outer, more, o.cur);
  }

  /** prev[-1].items.append(Block(line)), for a block that is opened. */
  method OpenBlock(ghost before: seq<Block>, p: Block, line: Line, ghost o: Open, ghost blocks: set<Block>)
      returns (x: Block)
    requires Ready(before, p, o, blocks)
    modifies p`items
    ensures fresh(x) && Ready(before + [p], x, Inside(o, Leaf(line)), blocks)
  {
    x := new Block(line.no, Leaf(line).tag, line.text);
    ghost var prev := before + [p];
    assert prev[..|before|] == before;
    assert (prev + [x])[..|prev|] == prev;
    p.items := p.items + [x];
  }

  /** What the parser does with a line. */
  method TakeLine(prev: seq<Block>, cur: Block, line: Line,
                  ghost o: Open, ghost blocks: set<Block>, ghost own: set<Block>)
      returns (error: Option<Error>, outer: seq<Block>, inner: Block, ghost more: set<Block>, ghost owned: set<Block>)
    requires Ready(prev, cur, o, blocks) && IsOpen(o) && AllIn(prev, cur, own)
    modifies own
    ensures error == match Step(o, line) case Ok(_) => None case Err(e) => Some(e)
    ensures error == None ==> Ready(outer, inner, Step(o, line).value, more)
    ensures AllIn(outer, inner, owned) && fresh(owned - own)
  {
    error, outer, inner, more, owned := None, prev, cur, blocks, own;
    assert cur.tag == o.cur.tag && (o.Inside? ==> prev != []) && (prev != [] ==> o.Inside?);
    hide Mirrors, TagOf, FirstWord;
    if !line.py {
      more := AddLeaf(prev, cur, line.no, Spool, line.text, o, blocks);
    } else if FirstWord(line.text) == "" {
      error := Some(NoWord(line.no)); // the constructor of Line fails
    } else if Closes(line.text, cur.tag) {
      CloseBlock(prev, cur, o, blocks);
      outer, inner := prev[..|prev| - 1], prev[|prev| - 1];
      // every close tag begins with "end", so that the block for it is always added
      more := AddLeaf(outer, inner, line.no + 1, Blank, "", Close(o), blocks + {cur});
    } else if !HasRule(TagOf(line.text)) {
      more := AddLeaf(prev, cur, line.no, Py, line.text, o, blocks);
    } else if !Follows(TagOf(line.text)) {
      outer := prev + [cur];
      inner := OpenBlock(prev, cur, line, o, blocks);
      owned := own + {inner};
    } else if !MayBeFollowed(cur.tag) {
      error := Some(Unexpected(line.no));
    } else {
      CloseBlock(prev, cur, o, blocks);
      more := blocks + {cur};
      inner := OpenBlock(prev[..|prev| - 1], prev[|prev| - 1], line, Close(o), more);
      owned := own + {inner};
      assert prev[..|prev| - 1] + [prev[|prev| - 1]] == prev;
    }
  }

  ghost predicate AllIn(prev: seq<Block>, cur: Block, own: set<Block>) {
    cur in own && forall b | b in prev :: b in own
  }

  /** The constructor of PyCPP: the tree of a template, or the error it stops with. */
  method BuildTree(input: string) returns (r: Result<Block>, ghost blocks: set<Block>)
    ensures r.Err? ==> Parse(TemplateLines(input)) == Err(r.error)
    ensures r.Ok? ==> Parse(TemplateLines(input)).Ok?
    ensures r.Ok? ==> Represents(r.value, ROOT.(items := Parse(TemplateLines(input)).value), blocks)
  {
    var lines := SplitOn(input, '\n');
    var cur := new Block(0, Root, "");
    var prev: seq<Block> := [];
    ghost var o := Bottom(ROOT);
    blocks := {};
    ghost var own := {cur};
    assert AllIn(prev, cur, own);
    assert TemplateLines(input) == LogicalLines(lines, 0);
    Start(cur);
    hide *;
    var at := 0;
    while at < |lines|
      invariant at <= |lines| && Ready(prev, cur, o, blocks) && IsOpen(o)
      invariant fresh(own) && AllIn(prev, cur, own)
      invariant Run(Bottom(ROOT), TemplateLines(input)) == Run(o, LogicalLines(lines, at))
    {
      var text, next := ReadLine(lines, at);
      var line := MakeLine(at, text);
      RunStep(lines, at, o);
      var error;
      error, prev, cur, blocks, own := TakeLine(prev, cur, line, o, blocks, own);
      if error.Some? {
        Stopped(TemplateLines(input), error.value);
        return Err(error.value), blocks;
      }
      o := Step(o, line).value;
      at := next;
    }
    AllRead(lines, o);
    Ended(TemplateLines(input), o);
    Mirrored(prev, cur, o, blocks);
    if prev != [] { return Err(StillOpen), blocks; }
    blocks := blocks + {cur};
    return Ok(cur), blocks;
  }

  lemma {:induction false} Start(root: Block)
    requires root.lineno == 0 && root.tag == Root && root.header == "" && root.items == []
    ensures Ready([], root, Bottom(ROOT), {}) && IsOpen(Bottom(ROOT))
  {
    assert [] + [root] == [root];
  }

  lemma RunStep(lines: seq<string>, at: nat, o: Open)
    requires at < |lines| && IsOpen(o)
    ensures var (text, next) := NextLine(lines, at);
      var r := Step(o, MakeLine(at, text));
      Run(o, LogicalLines(lines, at)) == if r.Err? then r else Run(r.value, LogicalLines(lines, next))
  {
    var (text, next) := NextLine(lines, at);
    assert LogicalLines(lines, at)[1..] == LogicalLines(lines, next);
  }

  lemma AllRead(lines: seq<string>, o: Open)
    requires IsOpen(o)
    ensures Run(o, LogicalLines(lines, |lines|)) == Ok(o)
  {
  }

  lemma Stopped(lines: seq<Line>, e: Error)
    requires Run(Bottom(ROOT), lines) == Err(e)
    ensures Parse(lines) == Err(e)
  {
  }

  lemma Ended(lines: seq<Line>, o: Open)
    requires Run(Bottom(ROOT), lines) == Ok(o)
    ensures Parse(lines) == if o.Inside? then Err(StillOpen) else Ok(o.cur.items)
  {
  }

  lemma {:induction false} Mirrored(prev: seq<Block>, cur: Block, o: Open, blocks: set<Block>)
    requires Ready(prev, cur, o, blocks) && IsOpen(o)
    ensures prev == [] <==> o.Bottom?
    ensures prev == [] ==> Represents(cur, o.cur, blocks + {cur}) && o.cur == ROOT.(items := o.cur.items)
  {
    HoldsAmongMore(cur, o.cur, [], blocks, blocks + {cur});
  }
}
