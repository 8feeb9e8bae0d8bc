/** The chunked transfer over shared memory: a sender that publishes chunks by raising a flag and
    a receiver that copies them out and lowers it, as a state machine with one step per C
    statement and one step per byte copied, in arbitrary interleaving. */
module SharedMemory {
  import opened Common

  type Message = seq<Byte>

  /** size is the room for data, behind header bytes; flag is the value that announces a chunk. */
  datatype Config = Config(size: nat, header: nat, flag: int) {
    predicate Valid() { size > 0 && flag != 0 }
  }

  /** The buffer both sides map: the flag byte, the three header integers and the bytes. */
  datatype Shm = Shm(flag: int, len: nat, off: nat, total: nat, mem: seq<Byte>)

  datatype SendPc =
    | SendCall   // between calls
    | SendLoop   // while (dataLength > 0)
    | SendWait   // while (flag != 0)
    | SendCopy   // memcpy, byte k next
    | SendLen | SendOff | SendTotal // the header integers
    | SendShrink // dataLength, off
    | SendFlag   // flag = 1
    | SendGaveUp // returned after a timeout

  /** n is the size of the chunk in preparation, k the number of its bytes copied. */
  datatype Sender = Sender(pc: SendPc, todo: seq<Message>, data: Message,
                           dataLength: nat, off: nat, n: nat, k: nat)

  datatype RecvPc =
    | RecvCall | RecvLoop | RecvWait
    | RecvLen | RecvOff | RecvTotal
    | RecvAlloc | RecvCopy | RecvAdvance | RecvFlag | RecvGaveUp

  /** got is retDataOff; total is totalLength, initially -1. */
  datatype Receiver = Receiver(pc: RecvPc, delivered: seq<Message>, l: nat, off: nat, k: nat,
                               got: nat, total: int, ret: Option<seq<Byte>>)

  datatype State = State(m: Shm, s: Sender, r: Receiver)

  function NewCall(delivered: seq<Message>): Receiver {
    Receiver(RecvCall, delivered, 0, 0, 0, 0, -1, None)
  }

  /** The next statement of the sender; None while it waits or has nothing left to do. */
  function SendStep(c: Config, m: Shm, s: Sender): Option<(Shm, Sender)> {
    match s.pc
    case SendCall =>
      if s.todo == [] then None
      else if s.todo[0] == [] then Some((m, s.(todo := s.todo[1..])))
      else Some((m, Sender(SendLoop, s.todo[1..], s.todo[0], |s.todo[0]|, 0, 0, 0)))
    case SendLoop => Some((m, s.(pc := if s.dataLength > 0 then SendWait else SendCall)))
    case SendWait =>
      if m.flag != 0 then None
      else Some((m, s.(pc := SendCopy, n := if s.dataLength <= c.size then s.dataLength else c.size, k := 0)))
    case SendCopy =>
      if s.k < s.n then
        if c.header + s.k < |m.mem| && s.off + s.k < |s.data| then
          Some((m.(mem := m.mem[c.header + s.k := s.data[s.off + s.k]]), s.(k := s.k + 1)))
        else None // out of bounds
      else Some((m, s.(pc := SendLen)))
    case SendLen => Some((m.(len := s.n), s.(pc := SendOff)))
    case SendOff => Some((m.(off := c.header), s.(pc := SendTotal)))
    case SendTotal => Some((m.(total := |s.data|), s.(pc := SendShrink)))
    case SendShrink =>
      Some((m, if s.dataLength <= c.size then s.(pc := SendFlag, dataLength := 0)
               else s.(pc := SendFlag, dataLength := s.dataLength - c.size, off := s.off + c.size)))
    case SendFlag => Some((m.(flag := c.flag), s.(pc := SendLoop)))
    case SendGaveUp => None
  }

  /** The next statement of the receiver; block is the memory an allocation returns. */
  function RecvStep(c: Config, m: Shm, r: Receiver, block: seq<Byte>): Option<(Shm, Receiver)> {
    match r.pc
    case RecvCall => Some((m, r.(pc := RecvLoop)))
    case RecvLoop =>
      if r.got != r.total then Some((m, r.(pc := RecvWait)))
      else if r.ret.Some? && r.got <= |r.ret.value| then
        Some((m, NewCall(r.delivered + [r.ret.value[..r.got]])))
      else None // out of bounds
    case RecvWait => if m.flag != c.flag then None else Some((m, r.(pc := RecvLen)))
    case RecvLen => Some((m, r.(pc := RecvOff, l := m.len)))
    case RecvOff => Some((m, r.(pc := RecvTotal, off := m.off)))
    case RecvTotal => Some((m, r.(pc := RecvAlloc, total := m.total)))
    case RecvAlloc =>
      if r.ret.Some? then Some((m, r.(pc := RecvCopy, k := 0)))
      else if |block| == r.total then Some((m, r.(pc := RecvCopy, k := 0, ret := Some(block))))
      else None // not what was asked for
    case RecvCopy =>
      if r.k < r.l then
        if r.off + r.k < |m.mem| && r.ret.Some? && r.got + r.k < |r.ret.value| then
          Some((m, r.(ret := Some(r.ret.value[r.got + r.k := m.mem[r.off + r.k]]), k := r.k + 1)))
        else None // out of bounds
      else Some((m, r.(pc := RecvAdvance)))
    case RecvAdvance => Some((m, r.(pc := RecvFlag, got := r.got + r.l)))
    case RecvFlag => Some((m.(flag := 0), r.(pc := RecvLoop)))
    case RecvGaveUp => None
  }

  datatype Action = Send | Receive(block: seq<Byte>) | SendTimeout | RecvTimeout

  ghost predicate Step(c: Config, x: State, a: Action, y: State) {
    match a
    case Send => y.r == x.r && SendStep(c, x.m, x.s) == Some((y.m, y.s))
    case Receive(block) => y.s == x.s && RecvStep(c, x.m, x.r, block) == Some((y.m, y.r))
    case SendTimeout => x.s.pc == SendWait && x.m.flag != 0 && y == x.(s := x.s.(pc := SendGaveUp))
    case RecvTimeout => x.r.pc == RecvWait && x.m.flag != c.flag && y == x.(r := x.r.(pc := RecvGaveUp))
  }

  ghost predicate Init(c: Config, outbox: seq<Message>, x: State) {
    && c.Valid() && x.m.flag == 0 && |x.m.mem| == c.header + c.size
    && x.s == Sender(SendCall, outbox, [], 0, 0, 0, 0)
    && x.r == NewCall([])
  }

  ghost predicate IsRun(c: Config, outbox: seq<Message>, run: seq<State>, acts: seq<Action>) {
    && |run| == |acts| + 1 && Init(c, outbox, run[0])
    && forall i | 0 <= i < |acts| :: Step(c, run[i], acts[i], run[i + 1])
  }

  // ----- what is still on its way -----

  /** The end of a message, with the length of the whole message. */
  datatype Part = Part(rest: Message, total: nat)

  function OnePart(rest: Message, total: nat): seq<Part> {
    if rest == [] then [] else [Part(rest, total)]
  }

  /** The messages as parts; an empty message is not transmitted. */
  function Parts(ms: seq<Message>): (ps: seq<Part>)
    ensures forall i | 0 <= i < |ps| :: ps[i].rest != [] && ps[i].total == |ps[i].rest|
  {
    if ms == [] then [] else OnePart(ms[0], |ms[0]|) + Parts(ms[1..])
  }

  /** The parts left once n more bytes of the first one are taken. */
  function Drop(parts: seq<Part>, n: nat): seq<Part>
    requires n > 0 ==> parts != [] && n <= |parts[0].rest|
  {
    if n == 0 then parts
    else if n == |parts[0].rest| then parts[1..]
    else [parts[0].(rest := parts[0].rest[n..])] + parts[1..]
  }

  /** What the sender has not published: the rest of its message, then the messages to come. */
  ghost function Unsent(c: Config, m: Shm, s: Sender): seq<Part>
    requires SenderOk(c, m, s)
  {
    var rest := if s.dataLength > 0 then s.data[s.off..] else [];
    OnePart(if s.pc == SendFlag then Chunk(m) + rest else rest, |s.data|) + Parts(s.todo)
  }

  ghost function Chunk(m: Shm): Message
    requires m.off + m.len <= |m.mem|
  {
    m.mem[m.off..m.off + m.len]
  }

  /** What the receiver has not copied yet of all the messages sent. */
  ghost function Missing(all: seq<Part>, r: Receiver): seq<Part>
    requires ReceiverOk(all, r)
  {
    Drop(all[|r.delivered|..], r.got)
  }

  predicate Copying(pc: SendPc) {
    pc.SendCopy? || pc.SendLen? || pc.SendOff? || pc.SendTotal? || pc.SendShrink?
  }

  /** The sender is writing to the buffer. */
  predicate Writing(pc: SendPc) { Copying(pc) || pc.SendFlag? }

  /** The receiver is reading the buffer. */
  predicate Reading(pc: RecvPc) {
    pc.RecvLen? || pc.RecvOff? || pc.RecvTotal? || pc.RecvAlloc? || pc.RecvCopy? || pc.RecvAdvance?
  }

  /** k bytes of the chunk are in the buffer. */
  ghost predicate Copied(c: Config, m: Shm, s: Sender) {
    c.header + s.k <= |m.mem| && s.off + s.k <= |s.data| &&
    m.mem[c.header..c.header + s.k] == s.data[s.off..s.off + s.k]
  }

  ghost predicate SenderOk(c: Config, m: Shm, s: Sender) {
    && |m.mem| == c.header + c.size
    && (s.dataLength > 0 ==> s.off + s.dataLength == |s.data|)
    && (s.pc == SendCall ==> s.dataLength == 0)
    && (s.pc == SendWait ==> s.dataLength > 0)
    && (Copying(s.pc) ==>
          && s.dataLength > 0 && s.n == (if s.dataLength <= c.size then s.dataLength else c.size)
          && s.k <= s.n && (s.pc != SendCopy ==> s.k == s.n)
          && Copied(c, m, s))
    && (s.pc == SendOff || s.pc == SendTotal || s.pc == SendShrink || s.pc == SendFlag ==> m.len == s.n)
    && (s.pc == SendTotal || s.pc == SendShrink || s.pc == SendFlag ==> m.off == c.header)
    && (s.pc == SendShrink || s.pc == SendFlag ==> m.total == |s.data|)
    && (s.pc == SendFlag ==> 0 < s.n <= c.size)
  }

  ghost predicate ReceiverOk(all: seq<Part>, r: Receiver) {
    var d := |r.delivered|;
    && d <= |all| && (forall i | 0 <= i < d :: r.delivered[i] == all[i].rest)
    && (forall i | 0 <= i < |all| :: all[i].rest != [] && all[i].total == |all[i].rest|)
    && (r.got > 0 ==>
          && d < |all| && r.total == all[d].total && r.got <= r.total
          && r.ret.Some? && |r.ret.value| == r.total && r.ret.value[..r.got] == all[d].rest[..r.got])
    && (r.pc == RecvCall ==> r.got == 0)
    && (Reading(r.pc) || r.pc == RecvWait ==> r.got > 0 ==> r.got < r.total)
    && (r.got == 0 && !Reading(r.pc) ==> r.total == -1 && r.ret == None)
  }

  /** A chunk is published and not yet counted as received. */
  ghost predicate InFlight(c: Config, m: Shm, r: Receiver) {
    m.flag == c.flag && r.pc != RecvFlag
  }

  /** The chunk in flight is the start of what the receiver misses. */
  ghost predicate ChunkOk(c: Config, m: Shm, missing: seq<Part>, unsent: seq<Part>) {
    && 0 < m.len <= c.size && m.off == c.header && m.off + m.len <= |m.mem|
    && missing != [] && m.len <= |missing[0].rest|
    && Chunk(m) == missing[0].rest[..m.len] && m.total == missing[0].total
    && unsent == Drop(missing, m.len)
  }

  /** What the receiver has read of the chunk so far. */
  ghost predicate ReadingOk(m: Shm, r: Receiver)
    requires m.off + m.len <= |m.mem|
  {
    && (r.pc.RecvLen? || r.pc.RecvOff? || r.pc.RecvTotal? ==> r.got == 0 ==> r.ret == None)
    && (r.pc.RecvOff? || r.pc.RecvTotal? || r.pc.RecvAlloc? || r.pc.RecvCopy? || r.pc.RecvAdvance? ==> r.l == m.len)
    && (r.pc.RecvTotal? || r.pc.RecvAlloc? || r.pc.RecvCopy? || r.pc.RecvAdvance? ==> r.off == m.off)
    && (r.pc.RecvAlloc? ==> r.total == m.total && (r.got == 0 ==> r.ret == None))
    && (r.pc.RecvCopy? || r.pc.RecvAdvance? ==>
          && r.total == m.total && r.ret.Some? && |r.ret.value| == r.total && r.got + r.l <= r.total
          && r.k <= r.l && r.ret.value[r.got..r.got + r.k] == Chunk(m)[..r.k])
    && (r.pc.RecvAdvance? ==> r.k == r.l)
  }

  /** Received and unsent bytes and the chunk between them, seen from the receiver. */
  ghost predicate LinkOk(c: Config, all: seq<Part>, m: Shm, r: Receiver, unsent: seq<Part>) {
    && ReceiverOk(all, r)
    && (m.flag == 0 || m.flag == c.flag)
    && (Reading(r.pc) || r.pc == RecvFlag ==> m.flag == c.flag)
    && (!InFlight(c, m, r) ==> unsent == Missing(all, r))
    && (InFlight(c, m, r) ==> ChunkOk(c, m, Missing(all, r), unsent))
    && (Reading(r.pc) ==> ReadingOk(m, r))
  }

  ghost predicate Inv(c: Config, outbox: seq<Message>, x: State) {
    && c.Valid()
    && SenderOk(c, x.m, x.s) && (Writing(x.s.pc) ==> x.m.flag == 0)
    && LinkOk(c, Parts(outbox), x.m, x.r, Unsent(c, x.m, x.s))
  }

  lemma SliceGrows<T>(d: seq<T>, i: nat, k: nat)
    requires i + k < |d|
    ensures d[i..i + k + 1] == d[i..i + k] + [d[i + k]]
  {
  }

  lemma SliceSplits<T>(d: seq<T>, i: nat, n: nat)
    requires i + n <= |d|
    ensures d[i..] == d[i..i + n] + d[i + n..]
  {
  }

  lemma CopyKeepsCopied(c: Config, m: Shm, s: Sender)
    requires s.k < s.n && c.header + s.k < |m.mem| && s.off + s.k < |s.data| && Copied(c, m, s)
    ensures Copied(c, m.(mem := m.mem[c.header + s.k := s.data[s.off + s.k]]), s.(k := s.k + 1))
  {
    var mem' := m.mem[c.header + s.k := s.data[s.off + s.k]];
    SliceGrows(s.data, s.off, s.k);
    SliceGrows(mem', c.header, s.k);
    assert mem'[c.header..c.header + s.k] == m.mem[c.header..c.header + s.k];
  }

  lemma SendKeepsCopied(c: Config, m: Shm, s: Sender, m': Shm, s': Sender)
    requires SendStep(c, m, s) == Some((m', s')) && Copying(s'.pc)
    requires c.header <= |m.mem| && (Copying(s.pc) ==> Copied(c, m, s))
    requires s.off <= |s.data|
    ensures Copied(c, m', s')
  {
    if s.pc == SendCopy && s.k < s.n {
      hide Copied;
      CopyKeepsCopied(c, m, s);
    } else if s.pc == SendWait {
      NothingCopied(c, m', s');
    } else {
      assert m'.mem == m.mem && s'.off == s.off && s'.k == s.k && s'.data == s.data;
    }
  }

  lemma NothingCopied(c: Config, m: Shm, s: Sender)
    requires s.k == 0 && c.header <= |m.mem| && s.off <= |s.data|
    ensures Copied(c, m, s)
  {
  }

  /** The sender writes to the buffer only between finding the flag lowered and raising it. */
  lemma SendKeepsOwnPart(c: Config, m: Shm, s: Sender, m': Shm, s': Sender)
    requires c.Valid() && SenderOk(c, m, s) && SendStep(c, m, s) == Some((m', s'))
    ensures SenderOk(c, m', s')
    ensures s.pc != SendFlag ==> m'.flag == m.flag
    ensures s.pc == SendFlag ==> m' == m.(flag := c.flag)
    ensures !Writing(s.pc) ==> m' == m
    ensures Writing(s'.pc) && !Writing(s.pc) ==> m.flag == 0
  {
    hide Copied;
    if Copying(s'.pc) { SendKeepsCopied(c, m, s, m', s'); }
  }

  lemma ShrinkKeepsUnsent(c: Config, m: Shm, s: Sender, m': Shm, s': Sender)
    requires c.Valid() && SenderOk(c, m, s) && SenderOk(c, m', s')
    requires s.pc == SendShrink && SendStep(c, m, s) == Some((m', s'))
    ensures Unsent(c, m', s') == Unsent(c, m, s)
  {
    hide Parts;
    assert Chunk(m) == s.data[s.off..s.off + s.n];
    SliceSplits(s.data, s.off, s.n);
  }

  lemma SendKeepsUnsent(c: Config, m: Shm, s: Sender, m': Shm, s': Sender)
    requires c.Valid() && SenderOk(c, m, s) && SenderOk(c, m', s')
    requires s.pc != SendFlag && SendStep(c, m, s) == Some((m', s'))
    ensures Unsent(c, m', s') == Unsent(c, m, s)
  {
    if s.pc == SendShrink {
      ShrinkKeepsUnsent(c, m, s, m', s');
    } else if s.pc == SendCall {
      assert s.dataLength == 0;
      hide SenderOk;
    } else {
      hide SenderOk, Parts, Chunk;
    }
  }

  /** Raising the flag puts the prepared chunk in flight. */
  lemma FlagPublishes(c: Config, m: Shm, s: Sender, m': Shm, s': Sender)
    requires c.Valid() && SenderOk(c, m, s) && s.pc == SendFlag && SendStep(c, m, s) == Some((m', s'))
    ensures ChunkOk(c, m', Unsent(c, m, s), Unsent(c, m', s'))
  {
    var rest := if s.dataLength > 0 then s.data[s.off..] else [];
    assert Unsent(c, m, s) == [Part(Chunk(m) + rest, |s.data|)] + Parts(s.todo);
    assert (Chunk(m) + rest)[m.len..] == rest;
  }

  /** The receiver does not see what the sender writes while the flag is lowered. */
  lemma WritingKeepsLink(c: Config, all: seq<Part>, m: Shm, r: Receiver, m': Shm, unsent: seq<Part>)
    requires c.Valid() && LinkOk(c, all, m, r, unsent) && m'.flag == m.flag && (m' == m || m.flag == 0)
    ensures LinkOk(c, all, m', r, unsent)
  {
    hide ReceiverOk, ChunkOk, ReadingOk, Missing;
  }

  lemma FlagKeepsLink(c: Config, all: seq<Part>, m: Shm, r: Receiver, m': Shm, unsent: seq<Part>, left: seq<Part>)
    requires c.Valid() && LinkOk(c, all, m, r, unsent) && m.flag == 0 && m' == m.(flag := c.flag)
    requires ChunkOk(c, m', unsent, left)
    ensures LinkOk(c, all, m', r, left)
  {
    hide ReceiverOk, ChunkOk, ReadingOk, Missing;
  }

  lemma SendKeepsInv(c: Config, outbox: seq<Message>, x: State, y: State)
    requires Inv(c, outbox, x) && Step(c, x, Send, y)
    ensures Inv(c, outbox, y)
  {
    hide SenderOk, LinkOk, SendStep, ChunkOk, Unsent, Parts;
    SendKeepsOwnPart(c, x.m, x.s, y.m, y.s);
    if x.s.pc == SendFlag {
      FlagPublishes(c, x.m, x.s, y.m, y.s);
      FlagKeepsLink(c, Parts(outbox), x.m, x.r, y.m, Unsent(c, x.m, x.s), Unsent(c, y.m, y.s));
      AfterFlag(c, x.m, x.s, y.m, y.s);
    } else {
      SendKeepsUnsent(c, x.m, x.s, y.m, y.s);
      WritingKeepsLink(c, Parts(outbox), x.m, x.r, y.m, Unsent(c, x.m, x.s));
    }
  }

  lemma AfterFlag(c: Config, m: Shm, s: Sender, m': Shm, s': Sender)
    requires s.pc == SendFlag && SendStep(c, m, s) == Some((m', s'))
    ensures !Writing(s'.pc)
  {
  }

  /** While the receiver reads, the part it misses first is the end of the message it is in. */
  lemma MissingHead(all: seq<Part>, r: Receiver)
    requires ReceiverOk(all, r) && (Reading(r.pc) || r.pc == RecvWait) && Missing(all, r) != []
    ensures |r.delivered| < |all|
    ensures var p := all[|r.delivered|];
      r.got < p.total && Missing(all, r)[0] == Part(p.rest[r.got..], p.total)
  {
  }

  lemma DropTwice(parts: seq<Part>, i: nat, n: nat)
    requires parts != [] && 0 < n && i + n <= |parts[0].rest|
    ensures Drop(Drop(parts, i), n) == Drop(parts, i + n)
  {
    assert i > 0 && i + n < |parts[0].rest| ==> parts[0].rest[i..][n..] == parts[0].rest[i + n..];
  }

  /** Counting the chunk as received. */
  lemma AdvanceReceives(c: Config, all: seq<Part>, m: Shm, r: Receiver, unsent: seq<Part>)
    requires ReceiverOk(all, r) && r.pc == RecvAdvance
    requires ChunkOk(c, m, Missing(all, r), unsent) && ReadingOk(m, r)
    ensures var r' := r.(pc := RecvFlag, got := r.got + r.l);
      ReceiverOk(all, r') && Missing(all, r') == unsent
  {
    MissingHead(all, r);
    var d, got' := |r.delivered|, r.got + r.l;
    var rest := all[d].rest;
    assert rest[r.got..][..r.l] == rest[r.got..got'];
    assert rest[..got'] == rest[..r.got] + rest[r.got..got'];
    assert r.ret.value[..got'] == r.ret.value[..r.got] + r.ret.value[r.got..got'];
    assert Chunk(m)[..r.l] == Chunk(m);
    DropTwice(all[d..], r.got, r.l);
  }

  /** Copying one byte of the chunk. */
  lemma CopyReceives(c: Config, all: seq<Part>, m: Shm, r: Receiver, r': Receiver, unsent: seq<Part>)
    requires ReceiverOk(all, r) && r.pc == RecvCopy && r.k < r.l
    requires ChunkOk(c, m, Missing(all, r), unsent) && ReadingOk(m, r)
    requires RecvStep(c, m, r, []) == Some((m, r'))
    ensures ReceiverOk(all, r') && ReadingOk(m, r') && Missing(all, r') == Missing(all, r)
  {
    var i := r.got;
    assert r'.ret.value[i..i + r'.k] == r.ret.value[i..i + r.k] + [m.mem[r.off + r.k]];
    assert Chunk(m)[..r'.k] == Chunk(m)[..r.k] + [Chunk(m)[r.k]];
    assert r'.ret.value[..i] == r.ret.value[..i];
  }

  lemma DeliverReceives(c: Config, all: seq<Part>, m: Shm, r: Receiver, r': Receiver)
    requires ReceiverOk(all, r) && r.pc == RecvLoop && r.got == r.total
    requires RecvStep(c, m, r, []) == Some((m, r'))
    ensures ReceiverOk(all, r') && Missing(all, r') == Missing(all, r)
  {
    var d := |r.delivered|;
    assert all[d].rest[..r.got] == all[d].rest;
    assert all[d..][1..] == all[d + 1..];
  }

  /** Reading the header, allocating, and leaving the copying loop. */
  lemma ReadingKeepsLink(c: Config, all: seq<Part>, m: Shm, r: Receiver, block: seq<Byte>,
                         m': Shm, r': Receiver, unsent: seq<Part>)
    requires c.Valid() && LinkOk(c, all, m, r, unsent) && RecvStep(c, m, r, block) == Some((m', r'))
    requires Reading(r.pc) && Reading(r'.pc) && !(r.pc == RecvCopy && r.k < r.l)
    ensures LinkOk(c, all, m', r', unsent)
  {
    MissingHead(all, r);
    hide Drop, Chunk;
  }

  /** Outside the reading: the calls, the waiting for a chunk and the lowering of the flag. */
  lemma RestKeepsLink(c: Config, all: seq<Part>, m: Shm, r: Receiver, block: seq<Byte>,
                      m': Shm, r': Receiver, unsent: seq<Part>)
    requires c.Valid() && LinkOk(c, all, m, r, unsent) && RecvStep(c, m, r, block) == Some((m', r'))
    requires !Reading(r.pc) && !(r.pc == RecvLoop && r.got == r.total)
    ensures LinkOk(c, all, m', r', unsent)
  {
    hide Drop, Chunk, ChunkOk;
  }

  lemma RecvKeepsLink(c: Config, all: seq<Part>, m: Shm, r: Receiver, block: seq<Byte>,
                      m': Shm, r': Receiver, unsent: seq<Part>)
    requires c.Valid() && LinkOk(c, all, m, r, unsent) && RecvStep(c, m, r, block) == Some((m', r'))
    ensures LinkOk(c, all, m', r', unsent)
  {
    hide ReceiverOk, Missing, Chunk;
    if r.pc == RecvAdvance {
      AdvanceReceives(c, all, m, r, unsent);
    } else if r.pc == RecvCopy && r.k < r.l {
      CopyReceives(c, all, m, r, r', unsent);
    } else if r.pc == RecvLoop && r.got == r.total {
      DeliverReceives(c, all, m, r, r');
    } else if Reading(r.pc) {
      hide LinkOk;
      ReadingKeepsLink(c, all, m, r, block, m', r', unsent);
    } else {
      hide LinkOk;
      RestKeepsLink(c, all, m, r, block, m', r', unsent);
    }
  }

  /** The receiver writes nothing but the flag, and no sender is writing meanwhile. */
  lemma RecvLeavesSender(c: Config, m: Shm, s: Sender, r: Receiver, block: seq<Byte>, m': Shm, r': Receiver)
    requires c.Valid() && SenderOk(c, m, s) && RecvStep(c, m, r, block) == Some((m', r'))
    ensures m' == m || m' == m.(flag := 0)
    ensures SenderOk(c, m', s) && Unsent(c, m', s) == Unsent(c, m, s)
  {
    assert m' == m || m' == m.(flag := 0);
    hide RecvStep, Parts;
  }

  lemma RecvKeepsInv(c: Config, outbox: seq<Message>, x: State, block: seq<Byte>, y: State)
    requires Inv(c, outbox, x) && Step(c, x, Receive(block), y)
    ensures Inv(c, outbox, y)
  {
    RecvKeepsLink(c, Parts(outbox), x.m, x.r, block, y.m, y.r, Unsent(c, x.m, x.s));
    RecvLeavesSender(c, x.m, x.s, x.r, block, y.m, y.r);
    hide SenderOk, LinkOk, RecvStep, Parts;
  }

  lemma TimeoutKeepsInv(c: Config, outbox: seq<Message>, x: State, a: Action, y: State)
    requires Inv(c, outbox, x) && Step(c, x, a, y) && (a == SendTimeout || a == RecvTimeout)
    ensures Inv(c, outbox, y)
  {
    hide Parts, ChunkOk;
  }

  lemma StepKeepsInv(c: Config, outbox: seq<Message>, x: State, a: Action, y: State)
    requires Inv(c, outbox, x) && Step(c, x, a, y)
    ensures Inv(c, outbox, y)
  {
    hide Inv, Step;
    match a
    case Send => SendKeepsInv(c, outbox, x, y);
    case Receive(block) => RecvKeepsInv(c, outbox, x, block, y);
    case SendTimeout => TimeoutKeepsInv(c, outbox, x, a, y);
    case RecvTimeout => TimeoutKeepsInv(c, outbox, x, a, y);
  }

  lemma InvHoldsInitially(c: Config, outbox: seq<Message>, x: State)
    requires Init(c, outbox, x)
    ensures Inv(c, outbox, x)
  {
  }

  lemma {:induction false} InvHoldsThroughout(c: Config, outbox: seq<Message>,
                                              run: seq<State>, acts: seq<Action>, i: nat)
    requires IsRun(c, outbox, run, acts) && i < |run|
    ensures Inv(c, outbox, run[i])
  {
    hide Inv, Step, Init;
    if i == 0 {
      InvHoldsInitially(c, outbox, run[0]);
    } else {
      InvHoldsThroughout(c, outbox, run, acts, i - 1);
      assert Step(c, run[i - 1], acts[i - 1], run[i - 1 + 1]);
      StepKeepsInv(c, outbox, run[i - 1], acts[i - 1], run[i]);
    }
  }

  // ----- exact delivery -----

  /** The messages that are transmitted. */
  function Sent(outbox: seq<Message>): seq<Message> {
    if outbox == [] then [] else (if outbox[0] == [] then [] else [outbox[0]]) + Sent(outbox[1..])
  }

  lemma {:induction false} PartsAreSent(outbox: seq<Message>)
    ensures |Parts(outbox)| == |Sent(outbox)|
    ensures forall i | 0 <= i < |Sent(outbox)| :: Parts(outbox)[i].rest == Sent(outbox)[i]
  {
    if outbox != [] { PartsAreSent(outbox[1..]); }
  }

  /** In every interleaving, with or without timeouts, what was received is a prefix of what was
      sent: no message is altered, lost, repeated or reordered. */
  lemma DeliveredIsPrefix(c: Config, outbox: seq<Message>, run: seq<State>, acts: seq<Action>, i: nat)
    requires IsRun(c, outbox, run, acts) && i < |run|
    ensures run[i].r.delivered <= Sent(outbox)
  {
    InvHoldsThroughout(c, outbox, run, acts, i);
    PartsAreSent(outbox);
  }

  function Concat(ms: seq<Message>): Message {
    if ms == [] then [] else ms[0] + Concat(ms[1..])
  }

  function Bytes(parts: seq<Part>): Message {
    if parts == [] then [] else parts[0].rest + Bytes(parts[1..])
  }

  lemma {:induction false} DropTakesBytes(parts: seq<Part>, n: nat)
    requires parts != [] && n <= |parts[0].rest|
    ensures parts[0].rest[..n] + Bytes(Drop(parts, n)) == Bytes(parts)
  {
    var rest := parts[0].rest;
    if 0 < n < |rest| {
      var left := [parts[0].(rest := rest[n..])] + parts[1..];
      assert Bytes(left) == rest[n..] + Bytes(left[1..]) && left[1..] == parts[1..];
    }
    assert rest[..n] + rest[n..] == rest;
  }

  lemma {:induction false} PartsHoldTheBytes(outbox: seq<Message>)
    ensures Bytes(Parts(outbox)) == Concat(outbox)
  {
    if outbox != [] {
      PartsHoldTheBytes(outbox[1..]);
      var first, rest := OnePart(outbox[0], |outbox[0]|), Parts(outbox[1..]);
      if outbox[0] == [] {
        assert first + rest == rest;
      } else {
        assert (first + rest)[1..] == rest;
      }
    }
  }

  lemma {:induction false} DeliveredBytes(all: seq<Part>, delivered: seq<Message>)
    requires |delivered| <= |all| && forall i | 0 <= i < |delivered| :: delivered[i] == all[i].rest
    ensures Concat(delivered) + Bytes(all[|delivered|..]) == Bytes(all)
  {
    if delivered != [] {
      DeliveredBytes(all[1..], delivered[1..]);
      assert all[1..][|delivered| - 1..] == all[|delivered|..];
    }
  }

  /** The bytes of the current message the receiver has counted. */
  ghost function Received(r: Receiver): Message {
    if r.got > 0 && r.ret.Some? && r.got <= |r.ret.value| then r.ret.value[..r.got] else []
  }

  /** The bytes of the chunk in flight. */
  ghost function OnTheWire(c: Config, m: Shm, r: Receiver): Message {
    if InFlight(c, m, r) && m.off + m.len <= |m.mem| then Chunk(m) else []
  }

  lemma Associates<T>(a: seq<T>, b: seq<T>, c: seq<T>, d: seq<T>)
    ensures a + (b + (c + d)) == a + b + c + d
  {
  }

  lemma LinkConserves(c: Config, all: seq<Part>, m: Shm, r: Receiver, unsent: seq<Part>)
    requires LinkOk(c, all, m, r, unsent)
    ensures Bytes(all) == Concat(r.delivered) + Received(r) + OnTheWire(c, m, r) + Bytes(unsent)
  {
    hide Concat, Bytes, ReadingOk;
    var ahead, missing := all[|r.delivered|..], Missing(all, r);
    DeliveredBytes(all, r.delivered);
    assert Received(r) + Bytes(missing) == Bytes(ahead) by {
      if r.got > 0 { DropTakesBytes(ahead, r.got); }
    }
    assert OnTheWire(c, m, r) + Bytes(unsent) == Bytes(missing) by {
      if InFlight(c, m, r) { DropTakesBytes(missing, m.len); }
    }
    Associates(Concat(r.delivered), Received(r), OnTheWire(c, m, r), Bytes(unsent));
  }

  ghost predicate Conserved(c: Config, outbox: seq<Message>, x: State) {
    SenderOk(c, x.m, x.s) && Concat(outbox) ==
      Concat(x.r.delivered) + Received(x.r) + OnTheWire(c, x.m, x.r) + Bytes(Unsent(c, x.m, x.s))
  }

  /** Conservation: at every point of every run, the delivered messages, the received part of the
      current one, the chunk in flight and the unsent rest make up exactly the bytes to be sent. */
  lemma BytesAreConserved(c: Config, outbox: seq<Message>, run: seq<State>, acts: seq<Action>, i: nat)
    requires IsRun(c, outbox, run, acts) && i < |run|
    ensures Conserved(c, outbox, run[i])
  {
    InvHoldsThroughout(c, outbox, run, acts, i);
    PartsHoldTheBytes(outbox);
    LinkConserves(c, Parts(outbox), run[i].m, run[i].r, Unsent(c, run[i].m, run[i].s));
  }

  /** No chunk is overwritten before it is read: a step that changes the header integers or the
      bytes is the sender's, finds the flag lowered, and the receiver is not reading. */
  lemma NoOverwrite(c: Config, outbox: seq<Message>, x: State, a: Action, y: State)
    requires Inv(c, outbox, x) && Step(c, x, a, y) && y.m != x.m.(flag := y.m.flag)
    ensures a == Send && x.m.flag == 0 && !Reading(x.r.pc) && !InFlight(c, x.m, x.r)
  {
    match a
    case Send => SendKeepsOwnPart(c, x.m, x.s, y.m, y.s);
    case Receive(block) => RecvLeavesSender(c, x.m, x.s, x.r, block, y.m, y.r);
    case SendTimeout =>
    case RecvTimeout =>
  }

  // ----- progress -----

  /** The sender has returned from its last call, waits for the flag or has given up. */
  predicate SenderRests(x: State) {
    x.s.pc == SendGaveUp || (x.s.pc == SendCall && x.s.todo == []) || (x.s.pc == SendWait && x.m.flag != 0)
  }

  predicate ReceiverRests(c: Config, x: State) {
    x.r.pc == RecvGaveUp || (x.r.pc == RecvWait && x.m.flag != c.flag)
  }

  /** In no other state is a side stuck: no access is out of bounds. */
  lemma SenderStopsOnlyToRest(c: Config, outbox: seq<Message>, x: State)
    requires Inv(c, outbox, x)
    ensures SendStep(c, x.m, x.s) == None <==> SenderRests(x)
  {
    hide LinkOk;
  }

  lemma ReceiverStopsOnlyToRest(c: Config, outbox: seq<Message>, x: State)
    requires Inv(c, outbox, x)
    ensures (forall block :: RecvStep(c, x.m, x.r, block) == None) <==> ReceiverRests(c, x)
  {
    hide SenderOk, Unsent, Parts;
    if Reading(x.r.pc) { MissingHead(Parts(outbox), x.r); }
    if !ReceiverRests(c, x) {
      var n: nat := if x.r.total < 0 then 0 else x.r.total;
      var block := seq(n, _ => 0 as Byte);
      assert RecvStep(c, x.m, x.r, block) != None;
    }
  }

  /** When both sides rest and neither has timed out, every message has been delivered. */
  lemma RestMeansDelivered(c: Config, outbox: seq<Message>, x: State)
    requires Inv(c, outbox, x) && SenderRests(x) && ReceiverRests(c, x)
    requires x.s.pc != SendGaveUp && x.r.pc != RecvGaveUp
    ensures x.r.delivered == Sent(outbox)
  {
    PartsAreSent(outbox);
    assert Unsent(c, x.m, x.s) == [];
    var d := |x.r.delivered|;
    assert Missing(Parts(outbox), x.r) == Drop(Parts(outbox)[d..], x.r.got) == [];
  }

  /** Bounds on the steps either side can still take. */
  ghost function SendWork(s: Sender): int {
    10 * |Concat(s.todo)| + 3 * |s.todo| + 10 * s.dataLength +
    match s.pc
    case SendCall => 0
    case SendLoop => 2
    case SendWait => 1
    case SendCopy => -(s.k as int)
    case SendLen => -1 - (s.n as int)
    case SendOff => -2 - (s.n as int)
    case SendTotal => -3 - (s.n as int)
    case SendShrink => -4 - (s.n as int)
    case SendFlag => 3
    case SendGaveUp => 0
  }

  ghost function RecvRank(r: Receiver): int {
    match r.pc
    case RecvCall => 2
    case RecvLoop => 1
    case RecvWait => 0
    case RecvLen => -1
    case RecvOff => -2
    case RecvTotal => -3
    case RecvAlloc => -4
    case RecvCopy => -5 - r.k
    case RecvAdvance => -6 - r.l
    case RecvFlag => 2
    case RecvGaveUp => 0
  }

  ghost function RecvWork(all: seq<Part>, r: Receiver): int
    requires ReceiverOk(all, r)
  {
    20 * |Bytes(Missing(all, r))| + 5 * (|all| - |r.delivered|) + RecvRank(r)
  }

  ghost function Work(c: Config, outbox: seq<Message>, x: State): int
    requires Inv(c, outbox, x)
  {
    SendWork(x.s) + RecvWork(Parts(outbox), x.r)
  }

  lemma SendLowersWork(c: Config, m: Shm, s: Sender, m': Shm, s': Sender)
    requires c.Valid() && SenderOk(c, m, s) && SendStep(c, m, s) == Some((m', s'))
    ensures SendWork(s') < SendWork(s)
  {
  }

  /** A step that neither counts a chunk nor returns a message lowers the rank. */
  lemma RecvLowersRank(c: Config, m: Shm, r: Receiver, block: seq<Byte>, m': Shm, r': Receiver)
    requires RecvStep(c, m, r, block) == Some((m', r')) && (r.pc == RecvCopy ==> r.k <= r.l)
    requires r.pc != RecvAdvance && !(r.pc == RecvLoop && r.got == r.total)
    ensures r'.delivered == r.delivered && r'.got == r.got && RecvRank(r') < RecvRank(r)
  {
  }

  lemma AdvanceLowersWork(c: Config, all: seq<Part>, m: Shm, r: Receiver, r': Receiver, unsent: seq<Part>)
    requires ReceiverOk(all, r) && ReceiverOk(all, r') && r.pc == RecvAdvance
    requires ChunkOk(c, m, Missing(all, r), unsent) && ReadingOk(m, r)
    requires r' == r.(pc := RecvFlag, got := r.got + r.l)
    ensures RecvWork(all, r') < RecvWork(all, r)
  {
    AdvanceReceives(c, all, m, r, unsent);
    DropTakesBytes(Missing(all, r), m.len);
    hide ReceiverOk, Missing, Drop, Bytes;
  }

  lemma DeliverLowersWork(c: Config, all: seq<Part>, m: Shm, r: Receiver, r': Receiver)
    requires ReceiverOk(all, r) && ReceiverOk(all, r') && r.pc == RecvLoop && r.got == r.total
    requires RecvStep(c, m, r, []) == Some((m, r'))
    ensures RecvWork(all, r') < RecvWork(all, r)
  {
    DeliverReceives(c, all, m, r, r');
    hide ReceiverOk, Missing, Bytes;
  }

  lemma RecvLowersWork(c: Config, all: seq<Part>, m: Shm, r: Receiver, block: seq<Byte>, m': Shm, r': Receiver,
                       unsent: seq<Part>)
    requires c.Valid() && LinkOk(c, all, m, r, unsent) && RecvStep(c, m, r, block) == Some((m', r'))
    requires ReceiverOk(all, r')
    ensures RecvWork(all, r') < RecvWork(all, r)
  {
    hide ReceiverOk, Drop, Bytes, ChunkOk, Chunk, RecvRank;
    if r.pc == RecvAdvance {
      AdvanceLowersWork(c, all, m, r, r', unsent);
    } else if r.pc == RecvLoop && r.got == r.total {
      DeliverLowersWork(c, all, m, r, r');
    } else {
      assert r.pc == RecvCopy ==> r.k <= r.l;
      hide RecvStep, LinkOk;
      RecvLowersRank(c, m, r, block, m', r');
    }
  }

  lemma WorkIsNonNegative(c: Config, outbox: seq<Message>, x: State)
    requires Inv(c, outbox, x)
    ensures Work(c, outbox, x) >= 0
  {
    hide SendWork, RecvWork, LinkOk, SenderOk;
    SendWorkIsNonNegative(c, x.m, x.s);
    RecvWorkIsNonNegative(c, Parts(outbox), x.m, x.r, Unsent(c, x.m, x.s));
  }

  lemma SendWorkIsNonNegative(c: Config, m: Shm, s: Sender)
    requires SenderOk(c, m, s)
    ensures SendWork(s) >= 0
  {
    hide Copied;
  }

  lemma RecvWorkIsNonNegative(c: Config, all: seq<Part>, m: Shm, r: Receiver, unsent: seq<Part>)
    requires LinkOk(c, all, m, r, unsent)
    ensures RecvWork(all, r) >= 0
  {
    if Reading(r.pc) {
      DropTakesBytes(Missing(all, r), m.len);
      assert |Bytes(Missing(all, r))| >= m.len;
      hide Missing, Drop, Bytes;
    }
  }

  lemma StepLowersWork(c: Config, outbox: seq<Message>, x: State, a: Action, y: State)
    requires Inv(c, outbox, x) && Step(c, x, a, y) && Inv(c, outbox, y) && (a.Send? || a.Receive?)
    ensures Work(c, outbox, y) < Work(c, outbox, x)
  {
    hide SendStep, RecvStep, SendWork, RecvWork, LinkOk, SenderOk, Parts;
    assert ReceiverOk(Parts(outbox), x.r) && ReceiverOk(Parts(outbox), y.r) by { LinkImpliesOk(c, outbox, x, y); }
    if a.Send? {
      SendLowersWork(c, x.m, x.s, y.m, y.s);
    } else {
      RecvLowersWork(c, Parts(outbox), x.m, x.r, a.block, y.m, y.r, Unsent(c, x.m, x.s));
    }
  }

  lemma LinkImpliesOk(c: Config, outbox: seq<Message>, x: State, y: State)
    requires Inv(c, outbox, x) && Inv(c, outbox, y)
    ensures ReceiverOk(Parts(outbox), x.r) && ReceiverOk(Parts(outbox), y.r)
  {
    hide SenderOk, ReceiverOk, Parts;
  }

  /** Only a timeout makes a side give up. */
  lemma OnlyTimeoutsGiveUp(c: Config, x: State, a: Action, y: State)
    requires Step(c, x, a, y) && (a.Send? || a.Receive?)
    ensures y.s.pc == SendGaveUp ==> x.s.pc == SendGaveUp
    ensures y.r.pc == RecvGaveUp ==> x.r.pc == RecvGaveUp
  {
  }

  ghost predicate NoTimeout(acts: seq<Action>) {
    forall i | 0 <= i < |acts| :: acts[i].Send? || acts[i].Receive?
  }

  lemma {:induction false} StepsAreBounded(c: Config, outbox: seq<Message>, run: seq<State>, acts: seq<Action>)
    requires IsRun(c, outbox, run, acts) && NoTimeout(acts)
    ensures Inv(c, outbox, run[0]) && Inv(c, outbox, run[|acts|])
    ensures |acts| + Work(c, outbox, run[|acts|]) <= Work(c, outbox, run[0])
    ensures run[|acts|].s.pc != SendGaveUp && run[|acts|].r.pc != RecvGaveUp
  {
    hide Inv, Step, Work;
    InvHoldsThroughout(c, outbox, run, acts, 0);
    InvHoldsThroughout(c, outbox, run, acts, |acts|);
    if acts != [] {
      var k := |acts| - 1;
      StepsAreBounded(c, outbox, run[..k + 1], acts[..k]);
      assert Step(c, run[k], acts[k], run[k + 1]);
      StepLowersWork(c, outbox, run[k], acts[k], run[k + 1]);
      OnlyTimeoutsGiveUp(c, run[k], acts[k], run[k + 1]);
    }
  }

  /** Without timeouts no interleaving goes on for ever, and one that cannot be continued has
      delivered every message. */
  lemma EveryRunDelivers(c: Config, outbox: seq<Message>, run: seq<State>, acts: seq<Action>)
    requires IsRun(c, outbox, run, acts) && NoTimeout(acts)
    ensures |acts| <= 30 * |Concat(outbox)| + 3 * |outbox| + 5 * |Sent(outbox)| + 2
    ensures SenderRests(run[|acts|]) && ReceiverRests(c, run[|acts|]) ==>
      run[|acts|].r.delivered == Sent(outbox)
  {
    StepsAreBounded(c, outbox, run, acts);
    WorkIsNonNegative(c, outbox, run[|acts|]);
    PartsHoldTheBytes(outbox);
    PartsAreSent(outbox);
    assert Parts(outbox)[0..] == Parts(outbox);
    if SenderRests(run[|acts|]) && ReceiverRests(c, run[|acts|]) {
      RestMeansDelivered(c, outbox, run[|acts|]);
    }
  }
}
