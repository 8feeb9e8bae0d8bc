/** Marshalling of Lua call arguments: a list of typed items is flattened into six typed buffers
    and a table of types and sizes, and read back against the arguments the caller expects. */
module LuaData {
  import opened Common

  // sim_lua_arg_*
  const NIL: int := 0
  const BOOL: int := 1
  const INT: int := 2
  const FLOAT: int := 3
  const STRING: int := 4
  const CHARBUFF: int := 6
  const DOUBLE: int := 7
  const TABLE: int := 8
  const NIL_ALLOWED: int := 65536

  datatype Item =
    | Nil
    | NilTable(size: int)
    | Bool(b: bool)
    | Int(i: int)
    | Float(f: real)
    | Double(d: real)
    | Str(s: seq<Byte>)
    | Buffer(s: seq<Byte>)
    | BoolTable(bs: seq<bool>)
    | IntTable(is_: seq<int>)
    | FloatTable(fs: seq<real>)
    | DoubleTable(ds: seq<real>)
    | StringTable(ss: seq<seq<Byte>>)

  function IsTable(x: Item): bool {
    x.NilTable? || x.BoolTable? || x.IntTable? || x.FloatTable? || x.DoubleTable? || x.StringTable?
  }

  function TypeCode(x: Item): int {
    match x
    case Nil => NIL
    case NilTable(_) => NIL + TABLE
    case Bool(_) => BOOL
    case Int(_) => INT
    case Float(_) => FLOAT
    case Double(_) => DOUBLE
    case Str(_) => STRING
    case Buffer(_) => CHARBUFF
    case BoolTable(_) => BOOL + TABLE
    case IntTable(_) => INT + TABLE
    case FloatTable(_) => FLOAT + TABLE
    case DoubleTable(_) => DOUBLE + TABLE
    case StringTable(_) => STRING + TABLE
  }

  function Size(x: Item): int {
    match x
    case NilTable(n) => n
    case Buffer(s) => |s|
    case BoolTable(v) => |v|
    case IntTable(v) => |v|
    case FloatTable(v) => |v|
    case DoubleTable(v) => |v|
    case StringTable(v) => |v|
    case _ => 0
  }

  // What an item puts into each buffer.

  function Bools(x: Item): seq<bool> { match x case Bool(b) => [b] case BoolTable(v) => v case _ => [] }
  function Ints(x: Item): seq<int> { match x case Int(i) => [i] case IntTable(v) => v case _ => [] }
  function Floats(x: Item): seq<real> { match x case Float(f) => [f] case FloatTable(v) => v case _ => [] }
  function Doubles(x: Item): seq<real> { match x case Double(d) => [d] case DoubleTable(v) => v case _ => [] }
  function Strings(x: Item): seq<seq<Byte>> { match x case Str(s) => [s] case StringTable(v) => v case _ => [] }
  function Raw(x: Item): seq<Byte> { match x case Buffer(s) => s case _ => [] }
  function Chars(x: Item): seq<Byte> { Joined(Strings(x)) }

  /** Strings one after the other, each closed by a NUL. */
  function Joined(ss: seq<seq<Byte>>): seq<Byte> {
    if ss == [] then [] else Joined(ss[..|ss| - 1]) + ss[|ss| - 1] + [0]
  }

  /** The concatenation of what the items contribute. */
  function Cat<T>(f: Item -> seq<T>, items: seq<Item>): seq<T> {
    if items == [] then [] else Cat(f, items[..|items| - 1]) + f(items[|items| - 1])
  }

  /** A position in each buffer. */
  datatype Cursors = Cursors(bools: nat, ints: nat, floats: nat, doubles: nat, chars: nat, raw: nat)

  /** Where the segments of the items after `items` begin. */
  function End(items: seq<Item>): Cursors {
    Cursors(|Cat(Bools, items)|, |Cat(Ints, items)|, |Cat(Floats, items)|, |Cat(Doubles, items)|,
            |Cat(Chars, items)|, |Cat(Raw, items)|)
  }

  /** The buffer begins with the data. */
  ghost predicate Begins<T>(buffer: array<T>, data: seq<T>)
    reads buffer
  {
    |data| <= buffer.Length && buffer[..|data|] == data
  }

  /** One direction of an SLuaCallBack. */
  class Block {
    var argCount: nat
    var typeAndSize: array<int>
    var bools: array<bool>
    var ints: array<int>
    var floats: array<real>
    var doubles: array<real>
    var chars: array<Byte>
    var raw: array<Byte>

    /** A block for n arguments, without buffers yet. */
    constructor (n: nat)
      ensures argCount == n && typeAndSize.Length == 2 * n && fresh(typeAndSize)
      ensures bools.Length == ints.Length == floats.Length == doubles.Length == chars.Length == raw.Length == 0
      ensures Apart()
    {
      argCount := n;
      typeAndSize, bools, ints, floats := new int[2 * n], new bool[0], new int[0], new real[0];
      doubles, chars, raw := new real[0], new Byte[0], new Byte[0];
    }

    method Allocate(c: Cursors)
      modifies this
      ensures argCount == old(argCount) && typeAndSize == old(typeAndSize) && Apart()
      ensures Cursors(bools.Length, ints.Length, floats.Length, doubles.Length, chars.Length, raw.Length) == c
      ensures fresh(bools) && fresh(ints) && fresh(floats) && fresh(doubles) && fresh(chars) && fresh(raw)
    {
      bools, ints, floats, doubles := new bool[c.bools], new int[c.ints], new real[c.floats], new real[c.doubles];
      chars, raw := new Byte[c.chars], new Byte[c.raw];
    }

    ghost predicate Apart()
      reads this
    {
      ints != typeAndSize && floats != doubles && chars != raw
    }

    ghost function Buffers(): set<object>
      reads this
    {
      {typeAndSize as object, bools as object, ints as object, floats as object, doubles as object,
       chars as object, raw as object}
    }

    /** The buffers are as long as the items need. */
    ghost predicate Sized(items: seq<Item>)
      reads this
    {
      && Apart() && argCount == |items| && typeAndSize.Length == 2 * |items|
      && Cursors(bools.Length, ints.Length, floats.Length, doubles.Length, chars.Length, raw.Length) == End(items)
    }

    ghost predicate Typed(items: seq<Item>, n: nat)
      requires n <= |items| && typeAndSize.Length == 2 * |items|
      reads this, typeAndSize
    {
      forall i | 0 <= i < n :: typeAndSize[2 * i] == TypeCode(items[i]) && typeAndSize[2 * i + 1] == Size(items[i])
    }

    /** The buffers begin with what the items contribute. */
    ghost predicate Filled(items: seq<Item>)
      reads this, Buffers()
    {
      && Begins(bools, Cat(Bools, items)) && Begins(ints, Cat(Ints, items))
      && Begins(floats, Cat(Floats, items)) && Begins(doubles, Cat(Doubles, items))
      && Begins(chars, Cat(Chars, items)) && Begins(raw, Cat(Raw, items))
    }

    /** The block is the flattened form of the items. */
    ghost predicate Encodes(items: seq<Item>)
      reads this, Buffers()
    {
      Sized(items) && Typed(items, |items|) && Filled(items)
    }
  }

  // ----- segments of the buffers -----

  lemma CatStep<T>(f: Item -> seq<T>, items: seq<Item>, i: nat)
    requires i < |items|
    ensures Cat(f, items[..i + 1]) == Cat(f, items[..i]) + f(items[i])
    ensures f(items[i]) == [] ==> Cat(f, items[..i + 1]) == Cat(f, items[..i])
  {
    assert items[..i + 1][..i] == items[..i];
  }

  lemma {:induction false} CatIsPrefix<T>(f: Item -> seq<T>, items: seq<Item>, i: nat)
    requires i <= |items|
    ensures Cat(f, items[..i]) <= Cat(f, items)
  {
    if i < |items| {
      CatIsPrefix(f, items[..|items| - 1], i);
      assert items[..|items| - 1][..i] == items[..i];
    } else {
      assert items[..i] == items;
    }
  }

  /** The segments of item i end within the buffers. */
  lemma ItemFits(items: seq<Item>, i: nat)
    requires i < |items|
    ensures var x, c, d, e := items[i], End(items[..i]), End(items[..i + 1]), End(items);
      && d == Cursors(c.bools + |Bools(x)|, c.ints + |Ints(x)|, c.floats + |Floats(x)|,
                      c.doubles + |Doubles(x)|, c.chars + |Chars(x)|, c.raw + |Raw(x)|)
      && d.bools <= e.bools && d.ints <= e.ints && d.floats <= e.floats
      && d.doubles <= e.doubles && d.chars <= e.chars && d.raw <= e.raw
  {
    CatStep(Bools, items, i); CatIsPrefix(Bools, items, i + 1);
    CatStep(Ints, items, i); CatIsPrefix(Ints, items, i + 1);
    CatStep(Floats, items, i); CatIsPrefix(Floats, items, i + 1);
    CatStep(Doubles, items, i); CatIsPrefix(Doubles, items, i + 1);
    CatStep(Chars, items, i); CatIsPrefix(Chars, items, i + 1);
    CatStep(Raw, items, i); CatIsPrefix(Raw, items, i + 1);
  }

  // ----- writing -----

  /** Copies data to the buffer element by element, behind what it has. */
  method PutAll<T>(buffer: array<T>, at: nat, data: seq<T>, ghost has: seq<T>) returns (next: nat)
    requires Begins(buffer, has) && at == |has| && at + |data| <= buffer.Length
    modifies buffer
    ensures next == at + |data| && Begins(buffer, has + data)
  {
    next := at;
    for j := 0 to |data|
      invariant next == at + j
      invariant Begins(buffer, has + data[..j])
    {
      buffer[next] := data[j];
      next := next + 1;
    }
    assert data[..|data|] == data;
  }

  method PutStrings(buffer: array<Byte>, at: nat, ss: seq<seq<Byte>>, ghost has: seq<Byte>) returns (next: nat)
    requires Begins(buffer, has) && at == |has| && at + |Joined(ss)| <= buffer.Length
    modifies buffer
    ensures next == at + |Joined(ss)| && Begins(buffer, has + Joined(ss))
  {
    next := at;
    for j := 0 to |ss|
      invariant next == at + |Joined(ss[..j])| <= buffer.Length
      invariant Begins(buffer, has + Joined(ss[..j]))
    {
      JoinedStep(ss, j);
      ghost var now := has + Joined(ss[..j]);
      next := PutAll(buffer, next, ss[j], now);
      next := PutAll(buffer, next, [0], now + ss[j]);
      assert now + ss[j] + [0] == has + Joined(ss[..j + 1]);
    }
    assert ss[..|ss|] == ss;
  }

  /** The characters strings need, with their NULs. */
  method CountChars(ss: seq<seq<Byte>>) returns (n: nat)
    ensures n == |Joined(ss)|
  {
    n := 0;
    for j := 0 to |ss|
      invariant n == |Joined(ss[..j])|
    {
      JoinedStep(ss, j);
      n := n + |ss[j]| + 1;
    }
    assert ss[..|ss|] == ss;
  }

  lemma JoinedStep(ss: seq<seq<Byte>>, j: nat)
    requires j < |ss|
    ensures Joined(ss[..j + 1]) == Joined(ss[..j]) + ss[j] + [0]
    ensures |Joined(ss[..j + 1])| <= |Joined(ss)|
  {
    assert ss[..j + 1][..j] == ss[..j];
    JoinedGrows(ss, j + 1);
  }

  lemma {:induction false} JoinedGrows(ss: seq<seq<Byte>>, j: nat)
    requires j <= |ss|
    ensures |Joined(ss[..j])| <= |Joined(ss)|
  {
    if j < |ss| {
      JoinedGrows(ss[..|ss| - 1], j);
      assert ss[..|ss| - 1][..j] == ss[..j];
    } else {
      assert ss[..j] == ss;
    }
  }

  /** The sizing pass on one item: its entry in the table, and the counters. */
  method SizeItem(p: Block, i: nat, x: Item, c: Cursors) returns (d: Cursors)
    requires 2 * i + 1 < p.typeAndSize.Length
    modifies p.typeAndSize
    ensures p.typeAndSize[..2 * i] == old(p.typeAndSize[..2 * i])
    ensures p.typeAndSize[2 * i] == TypeCode(x) && p.typeAndSize[2 * i + 1] == Size(x)
    ensures d == Cursors(c.bools + |Bools(x)|, c.ints + |Ints(x)|, c.floats + |Floats(x)|,
                         c.doubles + |Doubles(x)|, c.chars + |Chars(x)|, c.raw + |Raw(x)|)
  {
    d := c;
    if IsTable(x) {
      p.typeAndSize[2 * i] := TypeCode(x);
      p.typeAndSize[2 * i + 1] := Size(x);
      if x.BoolTable? { d := d.(bools := d.bools + |x.bs|); }
      if x.IntTable? { d := d.(ints := d.ints + |x.is_|); }
      if x.FloatTable? { d := d.(floats := d.floats + |x.fs|); }
      if x.DoubleTable? { d := d.(doubles := d.doubles + |x.ds|); }
      if x.StringTable? {
        var n := CountChars(x.ss);
        d := d.(chars := d.chars + n);
      }
    } else {
      p.typeAndSize[2 * i + 1] := if x.Buffer? then |x.s| else 0;
      p.typeAndSize[2 * i] := TypeCode(x);
      if x.Bool? { d := d.(bools := d.bools + 1); }
      if x.Int? { d := d.(ints := d.ints + 1); }
      if x.Float? { d := d.(floats := d.floats + 1); }
      if x.Double? { d := d.(doubles := d.doubles + 1); }
      if x.Str? {
        assert [x.s][..0] == [] && Joined([x.s]) == x.s + [0];
        d := d.(chars := d.chars + |x.s| + 1);
      }
      if x.Buffer? { d := d.(raw := d.raw + |x.s|); }
    }
  }

  /** How the contents wanted of each buffer grow with item i. */
  lemma ItemStep(items: seq<Item>, i: nat)
    requires i < |items|
    ensures var x, now, next := items[i], items[..i], items[..i + 1];
      && Cat(Bools, next) == Cat(Bools, now) + Bools(x) && (Bools(x) == [] ==> Cat(Bools, next) == Cat(Bools, now))
      && Cat(Ints, next) == Cat(Ints, now) + Ints(x) && (Ints(x) == [] ==> Cat(Ints, next) == Cat(Ints, now))
      && Cat(Floats, next) == Cat(Floats, now) + Floats(x)
      && (Floats(x) == [] ==> Cat(Floats, next) == Cat(Floats, now))
      && Cat(Doubles, next) == Cat(Doubles, now) + Doubles(x)
      && (Doubles(x) == [] ==> Cat(Doubles, next) == Cat(Doubles, now))
      && Cat(Chars, next) == Cat(Chars, now) + Chars(x) && (Chars(x) == [] ==> Cat(Chars, next) == Cat(Chars, now))
      && Cat(Raw, next) == Cat(Raw, now) + Raw(x) && (Raw(x) == [] ==> Cat(Raw, next) == Cat(Raw, now))
      && (Strings(x) == [] ==> Chars(x) == [])
  {
    CatStep(Bools, items, i); CatStep(Ints, items, i); CatStep(Floats, items, i);
    CatStep(Doubles, items, i); CatStep(Chars, items, i); CatStep(Raw, items, i);
  }

  method FillBools(p: Block, ghost items: seq<Item>, ghost i: nat, data: seq<bool>, c: Cursors) returns (d: Cursors)
    requires i < |items| && (items[i].Bool? || items[i].BoolTable?) && data == Bools(items[i])
    requires p.Sized(items) && c == End(items[..i]) && p.Filled(items[..i])
    modifies p.bools
    ensures d == End(items[..i + 1]) && p.Filled(items[..i + 1])
  {
    hide Cat, Begins, Joined;
    ItemFits(items, i);
    ItemStep(items, i);
    var n := PutAll(p.bools, c.bools, data, Cat(Bools, items[..i]));
    d := c.(bools := n);
  }

  method FillInts(p: Block, ghost items: seq<Item>, ghost i: nat, data: seq<int>, c: Cursors) returns (d: Cursors)
    requires i < |items| && (items[i].Int? || items[i].IntTable?) && data == Ints(items[i])
    requires p.Sized(items) && c == End(items[..i]) && p.Filled(items[..i])
    modifies p.ints
    ensures d == End(items[..i + 1]) && p.Filled(items[..i + 1])
  {
    hide Cat, Begins, Joined;
    ItemFits(items, i);
    ItemStep(items, i);
    var n := PutAll(p.ints, c.ints, data, Cat(Ints, items[..i]));
    d := c.(ints := n);
  }

  method FillFloats(p: Block, ghost items: seq<Item>, ghost i: nat, data: seq<real>, c: Cursors) returns (d: Cursors)
    requires i < |items| && (items[i].Float? || items[i].FloatTable?) && data == Floats(items[i])
    requires p.Sized(items) && c == End(items[..i]) && p.Filled(items[..i])
    modifies p.floats
    ensures d == End(items[..i + 1]) && p.Filled(items[..i + 1])
  {
    hide Cat, Begins, Joined;
    ItemFits(items, i);
    ItemStep(items, i);
    var n := PutAll(p.floats, c.floats, data, Cat(Floats, items[..i]));
    d := c.(floats := n);
  }

  method FillDoubles(p: Block, ghost items: seq<Item>, ghost i: nat, data: seq<real>, c: Cursors) returns (d: Cursors)
    requires i < |items| && (items[i].Double? || items[i].DoubleTable?) && data == Doubles(items[i])
    requires p.Sized(items) && c == End(items[..i]) && p.Filled(items[..i])
    modifies p.doubles
    ensures d == End(items[..i + 1]) && p.Filled(items[..i + 1])
  {
    hide Cat, Begins, Joined;
    ItemFits(items, i);
    ItemStep(items, i);
    var n := PutAll(p.doubles, c.doubles, data, Cat(Doubles, items[..i]));
    d := c.(doubles := n);
  }

  method FillChars(p: Block, ghost items: seq<Item>, ghost i: nat, data: seq<seq<Byte>>, c: Cursors)
      returns (d: Cursors)
    requires i < |items| && (items[i].Str? || items[i].StringTable?) && data == Strings(items[i])
    requires p.Sized(items) && c == End(items[..i]) && p.Filled(items[..i])
    modifies p.chars
    ensures d == End(items[..i + 1]) && p.Filled(items[..i + 1])
  {
    hide Cat, Begins, Joined;
    ItemFits(items, i);
    ItemStep(items, i);
    var n := PutStrings(p.chars, c.chars, data, Cat(Chars, items[..i]));
    d := c.(chars := n);
  }

  method FillRaw(p: Block, ghost items: seq<Item>, ghost i: nat, data: seq<Byte>, c: Cursors) returns (d: Cursors)
    requires i < |items| && items[i].Buffer? && data == Raw(items[i])
    requires p.Sized(items) && c == End(items[..i]) && p.Filled(items[..i])
    modifies p.raw
    ensures d == End(items[..i + 1]) && p.Filled(items[..i + 1])
  {
    hide Cat, Begins, Joined;
    ItemFits(items, i);
    ItemStep(items, i);
    var n := PutAll(p.raw, c.raw, data, Cat(Raw, items[..i]));
    d := c.(raw := n);
  }

  /** The filling pass on one item. */
  method FillItem(p: Block, ghost items: seq<Item>, ghost i: nat, x: Item, c: Cursors) returns (d: Cursors)
    requires i < |items| && x == items[i]
    requires p.Sized(items) && c == End(items[..i]) && p.Filled(items[..i])
    modifies p.bools, p.ints, p.floats, p.doubles, p.chars, p.raw
    ensures d == End(items[..i + 1]) && p.Filled(items[..i + 1])
  {
    match x {
      case BoolTable(v) => d := FillBools(p, items, i, v, c);
      case IntTable(v) => d := FillInts(p, items, i, v, c);
      case FloatTable(v) => d := FillFloats(p, items, i, v, c);
      case DoubleTable(v) => d := FillDoubles(p, items, i, v, c);
      case StringTable(v) => d := FillChars(p, items, i, v, c);
      case NilTable(_) =>
        ItemStep(items, i);
        d := c;
      case Nil =>
        ItemStep(items, i);
        d := c;
      case Bool(b) => d := FillBools(p, items, i, [b], c);
      case Int(v) => d := FillInts(p, items, i, [v], c);
      case Float(v) => d := FillFloats(p, items, i, [v], c);
      case Double(v) => d := FillDoubles(p, items, i, [v], c);
      case Str(s) => d := FillChars(p, items, i, [s], c);
      case Buffer(s) => d := FillRaw(p, items, i, s, c);
    }
  }

  /** The sizing pass. */
  method SizePass(p: Block, items: seq<Item>) returns (c: Cursors)
    requires p.typeAndSize.Length == 2 * |items|
    modifies p.typeAndSize
    ensures c == End(items) && p.Typed(items, |items|)
  {
    hide Cat;
    c := Cursors(0, 0, 0, 0, 0, 0);
    NothingYet(items);
    for i := 0 to |items|
      invariant c == End(items[..i]) && p.Typed(items, i)
    {
      ItemFits(items, i);
      c := SizeItem(p, i, items[i], c);
    }
    assert items[..|items|] == items;
  }

  lemma NothingYet(items: seq<Item>)
    ensures End(items[..0]) == Cursors(0, 0, 0, 0, 0, 0)
    ensures Cat(Bools, items[..0]) == [] && Cat(Ints, items[..0]) == [] && Cat(Floats, items[..0]) == []
    ensures Cat(Doubles, items[..0]) == [] && Cat(Chars, items[..0]) == [] && Cat(Raw, items[..0]) == []
  {
  }

  /** The filling pass. */
  method FillPass(p: Block, items: seq<Item>)
    requires p.Sized(items)
    modifies p.bools, p.ints, p.floats, p.doubles, p.chars, p.raw
    ensures p.Filled(items)
  {
    hide Cat;
    var c := Cursors(0, 0, 0, 0, 0, 0);
    NothingYet(items);
    for i := 0 to |items|
      invariant c == End(items[..i]) && p.Filled(items[..i])
    {
      c := FillItem(p, items, i, items[i], c);
    }
    assert items[..|items|] == items;
  }

  /** writeDataToLua: sizes the buffers, allocates them and fills them. */
  method Write(items: seq<Item>) returns (p: Block)
    ensures fresh(p) && p.Encodes(items)
  {
    hide Cat, Begins;
    p := new Block(|items|);
    if items == [] {
      NothingToWrite(p);
      return;
    }
    var c := SizePass(p, items);
    p.Allocate(c);
    FillPass(p, items);
  }

  lemma NothingToWrite(p: Block)
    requires p.argCount == p.typeAndSize.Length == 0 && p.Apart()
    requires p.bools.Length == p.ints.Length == p.floats.Length == 0
    requires p.doubles.Length == p.chars.Length == p.raw.Length == 0
    ensures p.Encodes([])
  {
  }

  // ----- strings in a buffer of characters -----

  /** The position of the first NUL, the length if there is none. */
  function FirstNul(c: seq<Byte>): (z: nat)
    ensures z <= |c| && (z < |c| ==> c[z] == 0) && forall i | 0 <= i < z :: c[i] != 0
  {
    if c == [] || c[0] == 0 then 0 else 1 + FirstNul(c[1..])
  }

  /** The strings a reader finds who takes every NUL for the end of one. */
  function Split(c: seq<Byte>): seq<seq<Byte>> {
    var z := FirstNul(c);
    if z == |c| then [] else [c[..z]] + Split(c[z + 1..])
  }

  lemma {:induction false} PiecesHaveNoNul(c: seq<Byte>)
    ensures forall i | 0 <= i < |Split(c)| :: 0 !in Split(c)[i]
  {
    var z := FirstNul(c);
    if z < |c| {
      PiecesHaveNoNul(c[z + 1..]);
      var first := c[..z];
      assert 0 !in first;
      assert Split(c) == [first] + Split(c[z + 1..]);
    }
  }

  lemma SomeNul(c: seq<Byte>)
    requires Split(c) != []
    ensures FirstNul(c) < |c|
  {
  }

  lemma SplitNothing()
    ensures Split([]) == []
  {
  }

  lemma SplitFirst(c: seq<Byte>, z: nat)
    requires z < |c| && c[z] == 0 && forall i | 0 <= i < z :: c[i] != 0
    ensures FirstNul(c) == z && Split(c) == [c[..z]] + Split(c[z + 1..])
  {
  }

  lemma {:induction false} SplitConcat(a: seq<Byte>, b: seq<Byte>)
    requires a == [] || a[|a| - 1] == 0
    ensures Split(a + b) == Split(a) + Split(b)
  {
    hide Split, FirstNul;
    if a == [] {
      assert a + b == b;
      SplitNothing();
    } else {
      var z, c := FirstNul(a), a + b;
      assert z < |a|;
      SplitFirst(a, z);
      SplitFirst(c, z);
      SplitConcat(a[z + 1..], b);
      assert c[z + 1..] == a[z + 1..] + b && c[..z] == a[..z];
      assert [a[..z]] + (Split(a[z + 1..]) + Split(b)) == [a[..z]] + Split(a[z + 1..]) + Split(b);
    }
  }

  lemma SplitOne(s: seq<Byte>)
    ensures |Split(s + [0])| >= 1
    ensures 0 !in s ==> Split(s + [0]) == [s]
  {
    var c := s + [0];
    assert c[|s|] == 0;
    if 0 !in s {
      SplitFirst(c, |s|);
      assert c[..|s|] == s && c[|s| + 1..] == [];
      assert Split([]) == [];
    }
  }

  lemma {:induction false} SplitJoined(ss: seq<seq<Byte>>)
    ensures |Split(Joined(ss))| >= |ss|
    ensures (forall i | 0 <= i < |ss| :: 0 !in ss[i]) ==> Split(Joined(ss)) == ss
  {
    hide Split, FirstNul;
    if ss == [] {
      SplitNothing();
    } else {
      var init, s := ss[..|ss| - 1], ss[|ss| - 1];
      SplitJoined(init);
      SplitOne(s);
      assert Joined(ss) == Joined(init) + (s + [0]);
      JoinedEnds(init);
      SplitConcat(Joined(init), s + [0]);
      assert init + [s] == ss;
    }
  }

  lemma JoinedEnds(ss: seq<seq<Byte>>)
    ensures Joined(ss) == [] || Joined(ss)[|Joined(ss)| - 1] == 0
  {
  }

  lemma {:induction false} JoinedConcat(a: seq<seq<Byte>>, b: seq<seq<Byte>>)
    ensures Joined(a + b) == Joined(a) + Joined(b)
  {
    if b == [] {
      assert a + b == a;
    } else {
      var init, s := b[..|b| - 1], b[|b| - 1];
      JoinedConcat(a, init);
      assert (a + b)[..|a + b| - 1] == a + init;
      assert Joined(a) + (Joined(init) + s + [0]) == Joined(a) + Joined(init) + s + [0];
    }
  }

  lemma {:induction false} CharsAreJoined(items: seq<Item>)
    ensures Cat(Chars, items) == Joined(Cat(Strings, items))
  {
    if items != [] {
      CharsAreJoined(items[..|items| - 1]);
      JoinedConcat(Cat(Strings, items[..|items| - 1]), Strings(items[|items| - 1]));
    }
  }

  // ----- what a reader makes of a block -----

  /** The item with its strings replaced. */
  function WithStrings(x: Item, ss: seq<seq<Byte>>): Item
    requires |ss| == |Strings(x)|
  {
    match x
    case Str(_) => Str(ss[0])
    case StringTable(_) => StringTable(ss)
    case _ => x
  }

  /** The items as they are read when the characters split into the given pieces. */
  ghost function Reread(items: seq<Item>, pieces: seq<seq<Byte>>): (r: seq<Item>)
    requires |Cat(Strings, items)| <= |pieces|
    ensures |r| == |items|
  {
    seq(|items|, i requires 0 <= i < |items| => RereadItem(items, pieces, i))
  }

  ghost function RereadItem(items: seq<Item>, pieces: seq<seq<Byte>>, i: nat): Item
    requires i < |items| && |Cat(Strings, items)| <= |pieces|
  {
    var o := |Cat(Strings, items[..i])|;
    CatStep(Strings, items, i);
    CatIsPrefix(Strings, items, i + 1);
    WithStrings(items[i], pieces[o..o + |Strings(items[i])|])
  }

  /** An expected argument: its type, possibly with the flag that allows nil, and the least size
      of a table or buffer, 0 for any. */
  datatype Expected = Expected(kind: int, size: int)

  predicate NilAllowed(e: Expected) { e.kind / NIL_ALLOWED % 2 == 1 }

  /** The type without the flag. */
  function BaseType(e: Expected): int { if NilAllowed(e) then e.kind - NIL_ALLOWED else e.kind }

  predicate Matches(x: Item, e: Expected) {
    if x == Nil then NilAllowed(e)
    else TypeCode(x) == BaseType(e) && (IsTable(x) || x.Buffer? ==> Size(x) >= e.size || e.size == 0)
  }

  /** The first n items match what is expected. */
  predicate AllMatch(items: seq<Item>, expected: seq<Expected>, n: nat)
    requires n <= |items| && n <= |expected|
  {
    forall i | 0 <= i < n :: Matches(items[i], expected[i])
  }

  /** Reading stops behind the expected arguments, at the end, and at a nil that is not allowed. */
  predicate StopsAt(items: seq<Item>, expected: seq<Expected>, k: nat) {
    k >= |items| || k >= |expected| || (items[k] == Nil && !NilAllowed(expected[k]))
  }

  function StopFrom(items: seq<Item>, expected: seq<Expected>, k: nat): (n: nat)
    requires k <= |items| && k <= |expected|
    ensures k <= n <= |items| && n <= |expected| && StopsAt(items, expected, n)
    ensures forall i | k <= i < n :: !StopsAt(items, expected, i)
    decreases |items| - k
  {
    if StopsAt(items, expected, k) then k else StopFrom(items, expected, k + 1)
  }

  /** How many items are read. */
  function Stop(items: seq<Item>, expected: seq<Expected>): (n: nat)
    ensures n <= |items| && n <= |expected|
  {
    StopFrom(items, expected, 0)
  }

  /** The reader succeeds: there are enough arguments, those read match, and a nil that ends the
      reading comes behind the required ones. */
  ghost predicate Accepts(items: seq<Item>, expected: seq<Expected>, required: int) {
    var n := Stop(items, expected);
    && |items| >= required
    && AllMatch(items, expected, n)
    && (n < |items| && n < |expected| ==> n >= required)
  }

  /** The cursors stand at the segments of item i. */
  ghost predicate StandsAt(p: Block, items: seq<Item>, i: nat, c: Cursors)
    requires i <= |items|
    reads p, p.chars
  {
    && c.(chars := 0) == End(items[..i]).(chars := 0)
    && c.chars <= p.chars.Length && |Cat(Strings, items[..i])| <= |Split(p.chars[..])|
    && Split(p.chars[c.chars..]) == Split(p.chars[..])[|Cat(Strings, items[..i])|..]
  }

  method TakeAll<T(0)>(buffer: array<T>, at: nat, n: nat) returns (data: seq<T>)
    requires at + n <= buffer.Length
    ensures data == buffer[at..at + n]
  {
    data := [];
    for j := 0 to n
      invariant data == buffer[at..at + j]
    {
      data := data + [buffer[at + j]];
    }
  }

  /** strlen of the C string at a position. */
  method StringLength(buffer: array<Byte>, at: nat) returns (n: nat)
    requires at <= buffer.Length && FirstNul(buffer[at..]) < buffer.Length - at
    ensures n == FirstNul(buffer[at..])
  {
    ghost var rest := buffer[at..];
    n := 0;
    while buffer[at + n] != 0
      invariant n <= FirstNul(rest)
      decreases buffer.Length - n
    {
      assert rest[n] != 0;
      n := n + 1;
    }
    assert rest[n] == 0;
  }

  /** The C string at a position, and the position behind its NUL. */
  method TakeString(buffer: array<Byte>, at: nat) returns (s: seq<Byte>, next: nat)
    requires at <= buffer.Length && Split(buffer[at..]) != []
    ensures at < next <= buffer.Length
    ensures Split(buffer[at..]) == [s] + Split(buffer[next..])
  {
    hide Split, FirstNul;
    ghost var rest := buffer[at..];
    SomeNul(rest);
    var n := StringLength(buffer, at);
    SplitFirst(rest, n);
    s, next := buffer[at..at + n], at + n + 1;
    assert rest[..n] == s && rest[n + 1..] == buffer[next..];
  }

  method TakeStrings(buffer: array<Byte>, at: nat, n: nat) returns (ss: seq<seq<Byte>>, next: nat)
    requires at <= buffer.Length && n <= |Split(buffer[at..])|
    ensures |ss| == n && at <= next <= buffer.Length
    ensures Split(buffer[at..]) == ss + Split(buffer[next..])
  {
    hide Split, FirstNul;
    ss, next := [], at;
    ghost var all, rest := Split(buffer[at..]), Split(buffer[at..]);
    assert [] + rest == rest;
    for j := 0 to n
      invariant |ss| == j && at <= next <= buffer.Length
      invariant rest == Split(buffer[next..]) && all == ss + rest
    {
      var s;
      s, next := TakeString(buffer, next);
      rest := Split(buffer[next..]);
      assert ss + ([s] + rest) == (ss + [s]) + rest;
      ss := ss + [s];
    }
  }

  /** A buffer that holds what all items contribute holds the segment of item i where it belongs. */
  lemma SegmentIs<T>(f: Item -> seq<T>, items: seq<Item>, i: nat, buffer: seq<T>)
    requires i < |items| && buffer == Cat(f, items)
    ensures var at, n := |Cat(f, items[..i])|, |f(items[i])|;
      at + n <= |buffer| && buffer[at..at + n] == f(items[i])
  {
    CatStep(f, items, i);
    CatIsPrefix(f, items, i + 1);
  }

  /** The characters split into at least as many strings as the items hold. */
  lemma EnoughPieces(p: Block, items: seq<Item>)
    requires p.Encodes(items)
    ensures |Cat(Strings, items)| <= |Split(p.chars[..])|
  {
    hide Split, Joined;
    CharsAreJoined(items);
    SplitJoined(Cat(Strings, items));
    assert p.chars[..] == Cat(Chars, items);
  }

  /** Where reading item i of a block that encodes the items finds its data. */
  lemma Segments(p: Block, items: seq<Item>, i: nat, c: Cursors)
    requires p.Encodes(items) && i < |items| && StandsAt(p, items, i, c)
    ensures var x := items[i];
      && c.bools + |Bools(x)| <= p.bools.Length && p.bools[c.bools..c.bools + |Bools(x)|] == Bools(x)
      && c.ints + |Ints(x)| <= p.ints.Length && p.ints[c.ints..c.ints + |Ints(x)|] == Ints(x)
      && c.floats + |Floats(x)| <= p.floats.Length && p.floats[c.floats..c.floats + |Floats(x)|] == Floats(x)
      && c.doubles + |Doubles(x)| <= p.doubles.Length && p.doubles[c.doubles..c.doubles + |Doubles(x)|] == Doubles(x)
      && c.raw + |Raw(x)| <= p.raw.Length && p.raw[c.raw..c.raw + |Raw(x)|] == Raw(x)
      && c.chars <= p.chars.Length
  {
    hide Cat, Split;
    SegmentIs(Bools, items, i, p.bools[..]);
    SegmentIs(Ints, items, i, p.ints[..]);
    SegmentIs(Floats, items, i, p.floats[..]);
    SegmentIs(Doubles, items, i, p.doubles[..]);
    SegmentIs(Raw, items, i, p.raw[..]);
  }

  /** The cursors behind item i. */
  function Behind(c: Cursors, x: Item, chars: nat): Cursors {
    Cursors(c.bools + |Bools(x)|, c.ints + |Ints(x)|, c.floats + |Floats(x)|, c.doubles + |Doubles(x)|,
            chars, c.raw + |Raw(x)|)
  }

  /** Moving the cursors over item i. */
  lemma StandsBehind(p: Block, items: seq<Item>, i: nat, c: Cursors, read: seq<seq<Byte>>, chars: nat)
    requires p.Encodes(items) && i < |items| && StandsAt(p, items, i, c)
    requires |read| == |Strings(items[i])| && chars <= p.chars.Length
    requires Split(p.chars[c.chars..]) == read + Split(p.chars[chars..])
    ensures StandsAt(p, items, i + 1, Behind(c, items[i], chars))
    ensures |Cat(Strings, items)| <= |Split(p.chars[..])|
    ensures RereadItem(items, Split(p.chars[..]), i) == WithStrings(items[i], read)
  {
    hide Cat, Split;
    EnoughPieces(p, items);
    ItemFits(items, i);
    CatStep(Strings, items, i);
    CatIsPrefix(Strings, items, i + 1);
    var pieces, o := Split(p.chars[..]), |Cat(Strings, items[..i])|;
    assert pieces[o..][..|read|] == pieces[o..o + |read|] == read;
    assert pieces[o..][|read|..] == pieces[o + |read|..];
  }

  /** Reads a table of which the type and size are known. */
  method ReadTable(p: Block, ghost items: seq<Item>, ghost i: nat, t: int, itemCnt: int, c: Cursors)
      returns (x: Item, d: Cursors)
    requires p.Encodes(items) && i < |items| && StandsAt(p, items, i, c)
    requires IsTable(items[i]) && t == TypeCode(items[i]) - TABLE && itemCnt == Size(items[i])
    ensures |Cat(Strings, items)| <= |Split(p.chars[..])|
    ensures x == RereadItem(items, Split(p.chars[..]), i) && StandsAt(p, items, i + 1, d)
  {
    hide Cat, Split, End, RereadItem, StandsAt, Begins;
    Segments(p, items, i, c);
    x, d := Nil, c;
    ghost var read: seq<seq<Byte>> := [];
    if t == NIL { x := NilTable(itemCnt); }
    if t == BOOL {
      var v := TakeAll(p.bools, c.bools, itemCnt);
      x, d := BoolTable(v), d.(bools := d.bools + itemCnt);
    }
    if t == INT {
      var v := TakeAll(p.ints, c.ints, itemCnt);
      x, d := IntTable(v), d.(ints := d.ints + itemCnt);
    }
    if t == FLOAT {
      var v := TakeAll(p.floats, c.floats, itemCnt);
      x, d := FloatTable(v), d.(floats := d.floats + itemCnt);
    }
    if t == DOUBLE {
      var v := TakeAll(p.doubles, c.doubles, itemCnt);
      x, d := DoubleTable(v), d.(doubles := d.doubles + itemCnt);
    }
    if t == STRING {
      StringsAhead(p, items, i, c);
      var v, next := TakeStrings(p.chars, c.chars, itemCnt);
      x, d := StringTable(v), d.(chars := next);
      read := v;
    }
    assert d == Behind(c, items[i], d.chars);
    assert read == [] ==> read + Split(p.chars[c.chars..]) == Split(p.chars[c.chars..]);
    StandsBehind(p, items, i, c, read, d.chars);
  }

  lemma StringsAhead(p: Block, items: seq<Item>, i: nat, c: Cursors)
    requires p.Encodes(items) && i < |items| && StandsAt(p, items, i, c)
    ensures c.chars <= p.chars.Length && |Strings(items[i])| <= |Split(p.chars[c.chars..])|
  {
    hide Split;
    EnoughPieces(p, items);
    CatStep(Strings, items, i);
    CatIsPrefix(Strings, items, i + 1);
  }

  /** Reads a single value. */
  method ReadValue(p: Block, ghost items: seq<Item>, ghost i: nat, t: int, size: int, c: Cursors)
      returns (x: Item, d: Cursors)
    requires p.Encodes(items) && i < |items| && StandsAt(p, items, i, c)
    requires !IsTable(items[i]) && t == TypeCode(items[i]) && size == Size(items[i])
    ensures |Cat(Strings, items)| <= |Split(p.chars[..])|
    ensures x == RereadItem(items, Split(p.chars[..]), i) && StandsAt(p, items, i + 1, d)
  {
    hide Cat, Split, End, RereadItem, StandsAt, Begins;
    Segments(p, items, i, c);
    x, d := Nil, c;
    ghost var read: seq<seq<Byte>> := [];
    if t == BOOL {
      assert p.bools[c.bools..c.bools + 1][0] == p.bools[c.bools];
      x, d := Bool(p.bools[c.bools]), d.(bools := d.bools + 1);
    }
    if t == INT {
      assert p.ints[c.ints..c.ints + 1][0] == p.ints[c.ints];
      x, d := Int(p.ints[c.ints]), d.(ints := d.ints + 1);
    }
    if t == FLOAT {
      assert p.floats[c.floats..c.floats + 1][0] == p.floats[c.floats];
      x, d := Float(p.floats[c.floats]), d.(floats := d.floats + 1);
    }
    if t == DOUBLE {
      assert p.doubles[c.doubles..c.doubles + 1][0] == p.doubles[c.doubles];
      x, d := Double(p.doubles[c.doubles]), d.(doubles := d.doubles + 1);
    }
    if t == STRING {
      StringsAhead(p, items, i, c);
      var s, next := TakeString(p.chars, c.chars);
      x, d := Str(s), d.(chars := next);
      read := [s];
    }
    if t == CHARBUFF {
      x, d := Buffer(p.raw[c.raw..c.raw + size]), d.(raw := d.raw + size);
    }
    assert d == Behind(c, items[i], d.chars);
    assert read == [] ==> read + Split(p.chars[c.chars..]) == Split(p.chars[c.chars..]);
    StandsBehind(p, items, i, c, read, d.chars);
  }

  datatype Outcome = Success | NotEnough | Incorrect | WrongTableSize | WrongBufferSize | BufferInTable

  /** What is wrong with an argument that does not match. */
  function Complaint(x: Item, e: Expected): Outcome {
    if x == Nil || TypeCode(x) != BaseType(e) then Incorrect
    else if IsTable(x) then WrongTableSize
    else WrongBufferSize
  }

  /** Reads argument i; ends is set for a nil that is not allowed. */
  method ReadArgument(p: Block, e: Expected, ghost items: seq<Item>, i: nat, c: Cursors)
      returns (outcome: Outcome, ends: bool, x: Item, d: Cursors)
    requires p.Encodes(items) && i < |items| && StandsAt(p, items, i, c)
    ensures ends <==> items[i] == Nil && !NilAllowed(e)
    ensures !ends ==> outcome == if Matches(items[i], e) then Success else Complaint(items[i], e)
    ensures !ends ==> outcome == if Fits(items[i], e) then Success else Fault(items[i], e)
    ensures |Cat(Strings, items)| <= |Split(p.chars[..])|
    ensures !ends && outcome == Success ==>
      x == RereadItem(items, Split(p.chars[..]), i) && StandsAt(p, items, i + 1, d)
  {
    hide Cat, Split, Begins, RereadItem, StandsAt, Fits, Fault;
    EnoughPieces(p, items);
    JudgedAlike(items[i], e);
    outcome, ends, x, d := Success, false, Nil, c;
    var t, size := p.typeAndSize[2 * i], p.typeAndSize[2 * i + 1];
    assert t == TypeCode(items[i]) && size == Size(items[i]);
    if t == NIL {
      ends := !NilAllowed(e);
      NilStandsBehind(p, items, i, c);
      return;
    }
    if t != BaseType(e) { return Incorrect, ends, x, d; }
    if t / TABLE % 2 == 1 {
      if size < e.size && e.size != 0 { return WrongTableSize, ends, x, d; }
      if t - TABLE == CHARBUFF {
        assert false;
        return BufferInTable, ends, x, d;
      }
      x, d := ReadTable(p, items, i, t - TABLE, size, c);
    } else {
      if t == CHARBUFF && size < e.size && e.size != 0 { return WrongBufferSize, ends, x, d; }
      x, d := ReadValue(p, items, i, t, size, c);
    }
  }

  lemma NilStandsBehind(p: Block, items: seq<Item>, i: nat, c: Cursors)
    requires p.Encodes(items) && i < |items| && StandsAt(p, items, i, c) && items[i] == Nil
    ensures StandsAt(p, items, i + 1, c)
    ensures |Cat(Strings, items)| <= |Split(p.chars[..])|
    ensures RereadItem(items, Split(p.chars[..]), i) == Nil
  {
    hide Cat, Split, RereadItem;
    StandsBehind(p, items, i, c, [], c.chars);
  }

  /** The error is that of the first argument that does not match. */
  ghost predicate Complains(items: seq<Item>, expected: seq<Expected>, outcome: Outcome) {
    exists k: nat | k < |items| && k < |expected| ::
      AllMatch(items, expected, k) && !Matches(items[k], expected[k]) && outcome == Complaint(items[k], expected[k])
  }

  /** What reading must come to: success exactly when the reader accepts the items, and then the
      items before the stop, their strings as the pieces of the character buffer have them. */
  ghost predicate Reading(items: seq<Item>, expected: seq<Expected>, required: int, pieces: seq<seq<Byte>>,
                          outcome: Outcome, data: seq<Item>)
  {
    && (outcome == Success <==> Accepts(items, expected, required))
    && (outcome == NotEnough <==> |items| < required)
    && (outcome != Success && outcome != NotEnough ==> Complains(items, expected, outcome))
    && |Cat(Strings, items)| <= |pieces|
    && (outcome == Success ==> data == Reread(items, pieces)[..Stop(items, expected)])
  }

  /** readDataFromLua: reads a block against the expected arguments. */
  method Read(p: Block, expected: seq<Expected>, required: int, ghost items: seq<Item>)
      returns (outcome: Outcome, data: seq<Item>)
    requires p.Encodes(items)
    ensures Reading(items, expected, required, Split(p.chars[..]), outcome, data)
    ensures ToldPlainly(items, expected, required, outcome, data)
  {
    EnoughPieces(p, items);
    StandsAtStart(p, items, expected);
    hide *;
    ghost var pieces := Split(p.chars[..]);
    data := [];
    if p.argCount < required {
      TooFew(items, expected, required, pieces);
      ReadingIsPlain(items, expected, required, pieces, NotEnough, data);
      return NotEnough, data;
    }
    var c := Cursors(0, 0, 0, 0, 0, 0);
    var i := 0;
    while i < p.argCount
      invariant i <= Stop(items, expected) && StandsAt(p, items, i, c)
      invariant data == Reread(items, pieces)[..i]
      invariant AllMatch(items, expected, i)
    {
      StopIs(items, expected, i);
      if i >= |expected| { break; }
      var ends, x;
      outcome, ends, x, c := ReadArgument(p, expected[i], items, i, c);
      if ends {
        Judged(items, expected, required, pieces, i);
        outcome := if |data| < required then Incorrect else Success; // enough has been read
        ReadingIsPlain(items, expected, required, pieces, outcome, data);
        return;
      }
      if outcome != Success {
        Mismatch(items, expected, required, pieces, i, outcome, data);
        ReadingIsPlain(items, expected, required, pieces, outcome, data);
        return;
      }
      OneMore(items, expected, pieces, i);
      data := data + [x];
      i := i + 1;
    }
    StopIs(items, expected, i);
    Judged(items, expected, required, pieces, i);
    ReadingIsPlain(items, expected, required, pieces, Success, data);
    return Success, data;
  }

  lemma TooFew(items: seq<Item>, expected: seq<Expected>, required: int, pieces: seq<seq<Byte>>)
    requires |items| < required && |Cat(Strings, items)| <= |pieces|
    ensures Reading(items, expected, required, pieces, NotEnough, [])
  {
  }

  lemma StopIs(items: seq<Item>, expected: seq<Expected>, i: nat)
    requires i <= Stop(items, expected)
    ensures i == Stop(items, expected) <==>
            i >= |items| || i >= |expected| || (items[i] == Nil && !NilAllowed(expected[i]))
  {
    assert i == Stop(items, expected) <==> StopsAt(items, expected, i);
  }

  lemma Judged(items: seq<Item>, expected: seq<Expected>, required: int, pieces: seq<seq<Byte>>, n: nat)
    requires n == Stop(items, expected) && |items| >= required && |Cat(Strings, items)| <= |pieces|
    requires AllMatch(items, expected, n)
    ensures var data := Reread(items, pieces)[..n];
      if n < |items| && n < |expected| && n < required then Reading(items, expected, required, pieces, Incorrect, data)
      else Reading(items, expected, required, pieces, Success, data)
  {
    if n < |items| && n < |expected| {
      StopIs(items, expected, n);
      assert Complaint(items[n], expected[n]) == Incorrect && !Matches(items[n], expected[n]);
    }
  }

  lemma {:induction false} Mismatch(items: seq<Item>, expected: seq<Expected>, required: int,
                                    pieces: seq<seq<Byte>>, i: nat, outcome: Outcome, data: seq<Item>)
    requires i < Stop(items, expected) && !Matches(items[i], expected[i])
    requires |items| >= required && |Cat(Strings, items)| <= |pieces|
    requires AllMatch(items, expected, i) && outcome == Complaint(items[i], expected[i])
    ensures Reading(items, expected, required, pieces, outcome, data)
  {
  }

  lemma OneMore(items: seq<Item>, expected: seq<Expected>, pieces: seq<seq<Byte>>, i: nat)
    requires i < |items| && i < |expected| && |Cat(Strings, items)| <= |pieces|
    requires AllMatch(items, expected, i) && Matches(items[i], expected[i])
    ensures AllMatch(items, expected, i + 1)
    ensures Reread(items, pieces)[..i + 1] == Reread(items, pieces)[..i] + [RereadItem(items, pieces, i)]
  {
  }

  lemma StandsAtStart(p: Block, items: seq<Item>, expected: seq<Expected>)
    requires p.Encodes(items)
    ensures StandsAt(p, items, 0, Cursors(0, 0, 0, 0, 0, 0)) && p.argCount == |items| && AllMatch(items, expected, 0)
  {
    NothingYet(items);
    assert items[..0] == [];
    assert p.chars[0..] == p.chars[..];
    assert Split(p.chars[..])[0..] == Split(p.chars[..]);
  }

  // ----- the round trip -----

  predicate HasNul(x: Item) {
    exists k | 0 <= k < |Strings(x)| :: 0 in Strings(x)[k]
  }

  /** The first n items hold no NUL. */
  ghost predicate NulFree(items: seq<Item>, n: nat)
    requires n <= |items|
  {
    forall i | 0 <= i < n :: !HasNul(items[i])
  }

  lemma {:induction false} NoNulAnywhere(items: seq<Item>)
    requires NulFree(items, |items|)
    ensures forall k | 0 <= k < |Cat(Strings, items)| :: 0 !in Cat(Strings, items)[k]
  {
    if items != [] {
      NoNulAnywhere(items[..|items| - 1]);
      assert !HasNul(items[|items| - 1]);
    }
  }

  lemma {:induction false} CatConcat<T>(f: Item -> seq<T>, a: seq<Item>, b: seq<Item>)
    ensures Cat(f, a + b) == Cat(f, a) + Cat(f, b)
  {
    if b == [] {
      assert a + b == a;
    } else {
      CatConcat(f, a, b[..|b| - 1]);
      assert (a + b)[..|a + b| - 1] == a + b[..|b| - 1];
    }
  }

  /** The pieces begin with the strings of the first n items, if these hold no NUL. */
  lemma {:induction false} PiecesBegin(items: seq<Item>, n: nat)
    requires n <= |items| && NulFree(items, n)
    ensures Cat(Strings, items[..n]) <= Split(Cat(Chars, items))
  {
    hide Split, FirstNul, Joined;
    var first, rest := items[..n], items[n..];
    var all := Cat(Strings, first);
    CharsAreJoined(first);
    JoinedEnds(all);
    NoNulAnywhere(first);
    SplitJoined(all);
    hide Cat, NulFree;
    assert items == first + rest;
    CatConcat(Chars, first, rest);
    SplitConcat(Cat(Chars, first), Cat(Chars, rest));
  }

  /** An item before the n-th is read as it was written. */
  lemma {:induction false} ItemIsReread(items: seq<Item>, pieces: seq<seq<Byte>>, n: nat, i: nat)
    requires i < n <= |items| && |Cat(Strings, items)| <= |pieces| && Cat(Strings, items[..n]) <= pieces
    ensures RereadItem(items, pieces, i) == items[i]
  {
    hide Cat;
    var all := Cat(Strings, items[..n]);
    SegmentIs(Strings, items[..n], i, all);
    assert items[..n][..i] == items[..i];
    var at, k := |Cat(Strings, items[..i])|, |Strings(items[i])|;
    assert pieces[at..at + k] == all[at..at + k] == Strings(items[i]);
  }

  /** The first n items are read as they were written exactly when none of them holds a NUL. */
  lemma {:induction false} RereadIsExact(items: seq<Item>, pieces: seq<seq<Byte>>, n: nat)
    requires pieces == Split(Cat(Chars, items)) && n <= |items|
    ensures |Cat(Strings, items)| <= |pieces|
    ensures Reread(items, pieces)[..n] == items[..n] <==> NulFree(items, n)
  {
    hide Split, Joined, Cat, RereadItem, HasNul;
    CharsAreJoined(items);
    SplitJoined(Cat(Strings, items));
    var r := Reread(items, pieces);
    if NulFree(items, n) {
      PiecesBegin(items, n);
      forall i | 0 <= i < n ensures r[i] == items[i] { ItemIsReread(items, pieces, n, i); }
    }
    if r[..n] == items[..n] {
      PiecesHaveNoNul(Cat(Chars, items));
      forall i | 0 <= i < n ensures !HasNul(items[i]) {
        assert r[i] == r[..n][i] == items[..n][i] == items[i];
        RereadHasNoNul(items, pieces, i);
      }
    }
  }

  lemma RereadHasNoNul(items: seq<Item>, pieces: seq<seq<Byte>>, i: nat)
    requires i < |items| && |Cat(Strings, items)| <= |pieces|
    requires forall k | 0 <= k < |pieces| :: 0 !in pieces[k]
    ensures !HasNul(RereadItem(items, pieces, i))
  {
    CatStep(Strings, items, i);
    CatIsPrefix(Strings, items, i + 1);
    hide Cat;
    var o, n := |Cat(Strings, items[..i])|, |Strings(items[i])|;
    assert Strings(RereadItem(items, pieces, i)) == pieces[o..o + n];
  }

  /** Writing arguments and reading them back against a list that fits gives the arguments back,
      exactly when no string holds a NUL. */
  lemma RoundTrip(p: Block, items: seq<Item>, expected: seq<Expected>, required: int)
    requires p.Encodes(items)
    requires |expected| >= |items| && required <= |items|
    requires AllMatch(items, expected, |items|)
    ensures Accepts(items, expected, required) && Stop(items, expected) == |items|
    ensures |Cat(Strings, items)| <= |Split(p.chars[..])|
    ensures Reread(items, Split(p.chars[..])) == items <==> NulFree(items, |items|)
  {
    assert p.chars[..] == Cat(Chars, items);
    RereadIsExact(items, Split(p.chars[..]), |items|);
    hide Cat, Split, RereadItem, HasNul, TypeCode;
    var r := Reread(items, Split(p.chars[..]));
    assert r[..|items|] == r && items[..|items|] == items;
    MatchingIsRead(items, expected);
  }

  lemma MatchingIsRead(items: seq<Item>, expected: seq<Expected>)
    requires |expected| >= |items| && AllMatch(items, expected, |items|)
    ensures Stop(items, expected) == |items|
  {
    forall i | 0 <= i < |items| ensures !StopsAt(items, expected, i) {
      assert Matches(items[i], expected[i]);
    }
  }

  /** A list that is not read back: the NUL cuts the string. */
  lemma NulIsNotReadBack(p: Block)
    requires p.Encodes([Str([0])])
    ensures |Cat(Strings, [Str([0])])| <= |Split(p.chars[..])|
    ensures Reread([Str([0])], Split(p.chars[..])) != [Str([0])]
  {
    var items := [Str([0])];
    assert HasNul(items[0]) by { assert 0 in Strings(items[0])[0]; }
    RoundTrip(p, items, [Expected(STRING, 0)], 1);
  }

  // ----- what is accepted, in plain terms -----

  /** The item is of the type an expected code names, with or without the flag 65536 that allows nil. */
  predicate OfKind(x: Item, kind: int) {
    match x
    case Nil => false
    case Bool(_) => kind == 1 || kind == 1 + 65536
    case Int(_) => kind == 2 || kind == 2 + 65536
    case Float(_) => kind == 3 || kind == 3 + 65536
    case Str(_) => kind == 4 || kind == 4 + 65536
    case Buffer(_) => kind == 6 || kind == 6 + 65536
    case Double(_) => kind == 7 || kind == 7 + 65536
    case NilTable(_) => kind == 8 || kind == 8 + 65536
    case BoolTable(_) => kind == 9 || kind == 9 + 65536
    case IntTable(_) => kind == 10 || kind == 10 + 65536
    case FloatTable(_) => kind == 11 || kind == 11 + 65536
    case StringTable(_) => kind == 12 || kind == 12 + 65536
    case DoubleTable(_) => kind == 15 || kind == 15 + 65536
  }

  /** A table or buffer has at least the size asked for, where one is. */
  predicate LongEnough(x: Item, size: int) {
    match x
    case NilTable(n) => size == 0 || n >= size
    case Buffer(v) => size == 0 || |v| >= size
    case BoolTable(v) => size == 0 || |v| >= size
    case IntTable(v) => size == 0 || |v| >= size
    case FloatTable(v) => size == 0 || |v| >= size
    case StringTable(v) => size == 0 || |v| >= size
    case DoubleTable(v) => size == 0 || |v| >= size
    case _ => true
  }

  predicate MayBeNil(e: Expected) { e.kind / 65536 % 2 == 1 }

  predicate Fits(x: Item, e: Expected) {
    if x == Nil then MayBeNil(e) else OfKind(x, e.kind) && LongEnough(x, e.size)
  }

  /** The error for an argument that does not fit. */
  function Fault(x: Item, e: Expected): Outcome {
    if !OfKind(x, e.kind) then Incorrect else if x.Buffer? then WrongBufferSize else WrongTableSize
  }

  /** The first k items are there, are asked for and fit, and none of them ends the reading. */
  ghost predicate AllFit(items: seq<Item>, expected: seq<Expected>, k: nat) {
    k <= |items| && k <= |expected| && forall i | 0 <= i < k :: Fits(items[i], expected[i])
  }

  /** Item k is the first that does not fit, or the first that is not there or not asked for. */
  ghost predicate FitUpTo(items: seq<Item>, expected: seq<Expected>, k: nat) {
    AllFit(items, expected, k) && (k < |items| && k < |expected| ==> !Fits(items[k], expected[k]))
  }

  /** The reader's result for items of which exactly the first k fit: success if no more are there or asked
      for, or if a nil comes behind the required ones; otherwise the error of item k. */
  ghost predicate Told(items: seq<Item>, expected: seq<Expected>, required: int, k: nat,
                       outcome: Outcome, data: seq<Item>)
  {
    if |items| < required then outcome == NotEnough
    else if Enough(items, expected, required, k) then
      outcome == Success && |data| == k && forall i | 0 <= i < k && i < |expected| :: Fits(data[i], expected[i])
    else k < |items| && k < |expected| && outcome == Fault(items[k], expected[k])
  }

  /** Enough has been read when the first k items fit: no more are there, no more are asked for, or a nil
      comes behind the required ones. */
  ghost predicate Enough(items: seq<Item>, expected: seq<Expected>, required: int, k: nat) {
    && |items| >= required
    && (k == |items| || k == |expected| || (k < |items| && items[k] == Nil && k >= required))
  }

  /** What is told is told by the first misfit. */
  ghost predicate ToldPlainly(items: seq<Item>, expected: seq<Expected>, required: int,
                              outcome: Outcome, data: seq<Item>)
  {
    exists k: nat :: FitUpTo(items, expected, k) && Told(items, expected, required, k, outcome, data)
  }

  lemma {:induction false} SomeFitUpTo(items: seq<Item>, expected: seq<Expected>, k: nat) returns (n: nat)
    requires AllFit(items, expected, k)
    ensures FitUpTo(items, expected, n)
    decreases |items| - k
  {
    hide Fits;
    n := k;
    if k < |items| && k < |expected| && Fits(items[k], expected[k]) { n := SomeFitUpTo(items, expected, k + 1); }
  }

  /** There is only one such item. */
  lemma FitUpToOnce(items: seq<Item>, expected: seq<Expected>, k: nat, n: nat)
    requires FitUpTo(items, expected, k) && FitUpTo(items, expected, n)
    ensures k == n
  {
    hide Fits;
  }

  lemma SuccessIsEnough(items: seq<Item>, expected: seq<Expected>, required: int, outcome: Outcome, data: seq<Item>)
    requires ToldPlainly(items, expected, required, outcome, data)
    ensures outcome == Success <==>
            exists k: nat :: FitUpTo(items, expected, k) && Enough(items, expected, required, k)
  {
    hide FitUpTo, Enough;
    var k: nat :| FitUpTo(items, expected, k) && Told(items, expected, required, k, outcome, data);
    TooFewIsNotEnough(items, expected, required, k);
    if n: nat :| FitUpTo(items, expected, n) && Enough(items, expected, required, n) {
      FitUpToOnce(items, expected, k, n);
    }
  }

  lemma TooFewIsNotEnough(items: seq<Item>, expected: seq<Expected>, required: int, k: nat)
    ensures Enough(items, expected, required, k) ==> |items| >= required
  {
  }

  lemma ReadingIsPlain(items: seq<Item>, expected: seq<Expected>, required: int, pieces: seq<seq<Byte>>,
                       outcome: Outcome, data: seq<Item>)
    requires Reading(items, expected, required, pieces, outcome, data)
    ensures ToldPlainly(items, expected, required, outcome, data)
  {
    hide Reading, Fits, Told;
    var k := SomeFitUpTo(items, expected, 0);
    ReadInPlainTerms(items, expected, required, pieces, outcome, data, k);
  }

  lemma FitsIsMatches(x: Item, e: Expected)
    ensures Fits(x, e) <==> Matches(x, e)
    ensures x == Nil ==> !OfKind(x, e.kind)
    ensures !Fits(x, e) ==> Fault(x, e) == Complaint(x, e)
  {
  }

  lemma JudgedAlike(x: Item, e: Expected)
    ensures (if Fits(x, e) then Success else Fault(x, e)) == if Matches(x, e) then Success else Complaint(x, e)
  {
    hide Fits, Fault, Matches, Complaint;
    FitsIsMatches(x, e);
  }

  /** The pieces of the character buffer do not change what fits: only the strings themselves may differ. */
  lemma RereadFits(items: seq<Item>, pieces: seq<seq<Byte>>, i: nat, e: Expected)
    requires i < |items| && |Cat(Strings, items)| <= |pieces|
    ensures Fits(RereadItem(items, pieces, i), e) <==> Fits(items[i], e)
  {
    CatStep(Strings, items, i);
    CatIsPrefix(Strings, items, i + 1);
    hide Cat;
  }

  lemma FirstMisfit(items: seq<Item>, expected: seq<Expected>, k: nat)
    requires FitUpTo(items, expected, k)
    ensures AllMatch(items, expected, k) && k <= Stop(items, expected)
    ensures k < |items| && k < |expected| ==> !Matches(items[k], expected[k])
    ensures k == |items| || k == |expected| || items[k] == Nil <==> k == Stop(items, expected)
  {
    forall i | 0 <= i < k ensures Matches(items[i], expected[i]) && !StopsAt(items, expected, i) {
      FitsIsMatches(items[i], expected[i]);
    }
    if k < |items| && k < |expected| {
      FitsIsMatches(items[k], expected[k]);
      assert items[k] == Nil ==> StopsAt(items, expected, k);
    }
    hide Matches, Fits;
    assert StopsAt(items, expected, Stop(items, expected));
  }

  /** The argument complained about is the first that does not match. */
  lemma ComplaintIsFirst(items: seq<Item>, expected: seq<Expected>, k: nat, outcome: Outcome)
    requires Complains(items, expected, outcome)
    requires k < |items| && k < |expected| && AllMatch(items, expected, k) && !Matches(items[k], expected[k])
    ensures outcome == Complaint(items[k], expected[k])
  {
    hide Matches, Complaint;
    var j: nat :| j < |items| && j < |expected| && AllMatch(items, expected, j) &&
      !Matches(items[j], expected[j]) && outcome == Complaint(items[j], expected[j]);
    assert j == k;
  }

  /** What the reader says and returns, whatever is written and whatever is asked for: decided by the
      first item that does not fit. */
  lemma ReadInPlainTerms(items: seq<Item>, expected: seq<Expected>, required: int, pieces: seq<seq<Byte>>,
                         outcome: Outcome, data: seq<Item>, k: nat)
    requires Reading(items, expected, required, pieces, outcome, data)
    requires FitUpTo(items, expected, k)
    ensures Told(items, expected, required, k, outcome, data)
  {
    hide Fits, Matches, Fault, Complaint, RereadItem, Cat;
    FirstMisfit(items, expected, k);
    if |items| < required {
      assert outcome == NotEnough;
    } else if k == |items| || k == |expected| || (items[k] == Nil && k >= required) {
      assert Accepts(items, expected, required);
      forall i | 0 <= i < k ensures Fits(data[i], expected[i]) { RereadFits(items, pieces, i, expected[i]); }
    } else {
      assert !Accepts(items, expected, required);
      FitsIsMatches(items[k], expected[k]);
      ComplaintIsFirst(items, expected, k, outcome);
    }
  }

  // ----- the two directions of a call -----

  /** CLuaFunctionData: the arguments of a call and the values it returns. */
  class FunctionData {
    var inData: seq<Item>
    var outData: seq<Item>

    constructor ()
      ensures inData == [] && outData == []
    {
      inData, outData := [], [];
    }

    method PushOutData(x: Item)
      modifies `outData
      ensures outData == old(outData) + [x]
    {
      outData := outData + [x];
    }

    method PushOutDataForCall(x: Item)
      modifies `inData
      ensures inData == old(inData) + [x]
    {
      inData := inData + [x];
    }

    /** From inside a Lua function: the values returned. */
    method WriteDataToLua() returns (output: Block)
      ensures fresh(output) && output.Encodes(outData)
    {
      output := Write(outData);
    }

    /** Before a call of a Lua function: its arguments. */
    method WriteDataForCall() returns (input: Block)
      ensures fresh(input) && input.Encodes(inData)
    {
      input := Write(inData);
    }

    /** From inside a Lua function: its arguments. */
    method ReadDataFromLua(input: Block, expected: seq<Expected>, required: int, ghost sent: seq<Item>)
        returns (ok: bool)
      requires input.Encodes(sent)
      modifies `inData
      ensures ok <==> Accepts(sent, expected, required)
      ensures ok <==> exists k: nat :: FitUpTo(sent, expected, k) && Enough(sent, expected, required, k)
      ensures ok ==> (inData == sent[..Stop(sent, expected)] <==> NulFree(sent, Stop(sent, expected)))
    {
      hide Accepts, ToldPlainly, FitUpTo, Enough;
      var outcome;
      outcome, inData := Read(input, expected, required, sent);
      SuccessIsEnough(sent, expected, required, outcome, inData);
      ReadBack(input, expected, sent);
      return outcome == Success;
    }

    /** After a call of a Lua function: the values it returned. */
    method ReadDataFromCall(output: Block, expected: seq<Expected>, required: int, ghost sent: seq<Item>)
        returns (ok: bool)
      requires output.Encodes(sent)
      modifies `outData
      ensures ok <==> Accepts(sent, expected, required)
      ensures ok <==> exists k: nat :: FitUpTo(sent, expected, k) && Enough(sent, expected, required, k)
      ensures ok ==> (outData == sent[..Stop(sent, expected)] <==> NulFree(sent, Stop(sent, expected)))
    {
      hide Accepts, ToldPlainly, FitUpTo, Enough;
      var outcome;
      outcome, outData := Read(output, expected, required, sent);
      SuccessIsEnough(sent, expected, required, outcome, outData);
      ReadBack(output, expected, sent);
      return outcome == Success;
    }
  }

  lemma ReadBack(p: Block, expected: seq<Expected>, sent: seq<Item>)
    requires p.Encodes(sent)
    ensures |Cat(Strings, sent)| <= |Split(p.chars[..])|
    ensures Reread(sent, Split(p.chars[..]))[..Stop(sent, expected)] == sent[..Stop(sent, expected)] <==>
      NulFree(sent, Stop(sent, expected))
  {
    assert p.chars[..] == Cat(Chars, sent);
    RereadIsExact(sent, Split(p.chars[..]), Stop(sent, expected));
  }

  /** The arguments a caller pushes arrive at the function it calls as they were pushed, whatever their
      types and order, exactly when the function accepts them and none that it reads holds a NUL. */
  method PassArguments(caller: FunctionData, callee: FunctionData, arguments: seq<Item>,
                       expected: seq<Expected>, required: int) returns (ok: bool)
    requires caller != callee && caller.inData == []
    modifies caller, callee
    ensures ok <==> Accepts(arguments, expected, required)
    ensures ok <==> exists k: nat :: FitUpTo(arguments, expected, k) && Enough(arguments, expected, required, k)
    ensures ok ==> var n := Stop(arguments, expected);
      (callee.inData == arguments[..n] <==> NulFree(arguments, n))
  {
    for i := 0 to |arguments|
      invariant caller.inData == arguments[..i]
    {
      caller.PushOutDataForCall(arguments[i]);
    }
    assert arguments[..|arguments|] == arguments;
    var input := caller.WriteDataForCall();
    ok := callee.ReadDataFromLua(input, expected, required, arguments);
  }

  /** The values a function returns arrive at its caller in the same way. */
  method ReturnValues(callee: FunctionData, caller: FunctionData, values: seq<Item>,
                      expected: seq<Expected>, required: int) returns (ok: bool)
    requires callee != caller && callee.outData == []
    modifies callee, caller
    ensures ok <==> Accepts(values, expected, required)
    ensures ok <==> exists k: nat :: FitUpTo(values, expected, k) && Enough(values, expected, required, k)
    ensures ok ==> var n := Stop(values, expected);
      (caller.outData == values[..n] <==> NulFree(values, n))
  {
    for i := 0 to |values|
      invariant callee.outData == values[..i]
    {
      callee.PushOutData(values[i]);
    }
    assert values[..|values|] == values;
    var output := callee.WriteDataToLua();
    ok := caller.ReadDataFromCall(output, expected, required, values);
  }
}
