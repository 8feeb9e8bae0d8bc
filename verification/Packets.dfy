/** The socket protocol: a message is cut into packets, each behind a header that carries its
    size and the number of packets still to come, and put together again from a byte stream that
    arrives in arbitrary fragments. */
module Packets {
  import opened Common

  const HEADER_LENGTH: nat := 6
  /** Sizes and packet counts travel as unsigned shorts. */
  const USHORT: nat := 65536

  // ----- the wire format -----

  /** An unsigned short in the byte order both ends use: low byte first. */
  function ShortBytes(v: nat): (b: seq<Byte>)
    ensures |b| == 2
  {
    [v % 256, v / 256 % 256]
  }

  function ShortAt(s: seq<Byte>, i: nat): nat
    requires i + 1 < |s|
  {
    (s[i] as int) + 256 * (s[i + 1] as int)
  }

  lemma ShortRoundTrip(v: nat)
    ensures ShortAt(ShortBytes(v), 0) == v % USHORT
  {
    assert v == 256 * (v / 256) + v % 256;
    assert v / 256 == 256 * (v / 256 / 256) + v / 256 % 256;
    assert v == USHORT * (v / 256 / 256) + (256 * (v / 256 % 256) + v % 256);
  }

  /** The two bytes every packet starts with. */
  datatype Ids = Ids(id1: Byte, id2: Byte)

  function Header(ids: Ids, size: nat, left: nat): (h: seq<Byte>)
    ensures |h| == HEADER_LENGTH
  {
    [ids.id1, ids.id2] + ShortBytes(size) + ShortBytes(left)
  }

  /** The payloads a message is cut into, at most room bytes each. */
  function Payloads(data: seq<Byte>, room: nat): seq<seq<Byte>>
    requires room > 0
  {
    if data == [] then []
    else if |data| > room then [data[..room]] + Payloads(data[room..], room)
    else [data]
  }

  function Packet(ids: Ids, payload: seq<Byte>, left: nat): seq<Byte> {
    Header(ids, |payload|, left) + payload
  }

  /** The packets of a message: each header counts the packets behind it. */
  function Stream(ids: Ids, payloads: seq<seq<Byte>>): seq<Byte> {
    if payloads == [] then []
    else Packet(ids, payloads[0], |payloads| - 1) + Stream(ids, payloads[1..])
  }

  function Encode(ids: Ids, data: seq<Byte>, room: nat): seq<Byte>
    requires room > 0
  {
    Stream(ids, Payloads(data, room))
  }

  /** The first packet of a message, and the rest. */
  lemma FirstPacket(ids: Ids, data: seq<Byte>, room: nat, n: nat)
    requires room > 0 && data != [] && n == if |data| > room then room else |data|
    ensures |Payloads(data, room)| == 1 + |Payloads(data[n..], room)|
    ensures Encode(ids, data, room) ==
      Packet(ids, data[..n], |Payloads(data[n..], room)|) + Encode(ids, data[n..], room)
  {
    assert Payloads(data, room)[1..] == Payloads(data[n..], room);
  }

  lemma NothingToSend(ids: Ids, data: seq<Byte>, room: nat)
    requires room > 0 && data == []
    ensures Payloads(data, room) == [] && Encode(ids, data, room) == []
  {
  }

  lemma Appending(was: seq<Byte>, before: seq<Byte>, packet: seq<Byte>, next: seq<Byte>, now: seq<Byte>)
    requires was <= before <= now <= before + packet
    ensures was <= now <= before + (packet + next)
    ensures (before + packet) + next == before + (packet + next)
  {
  }

  // ----- what a receiver makes of a byte stream -----

  datatype Parsed = Malformed | Parsed(payload: seq<Byte>, left: nat, rest: seq<Byte>)

  function ParsePacket(ids: Ids, s: seq<Byte>): (p: Parsed)
    ensures p.Parsed? ==> |p.rest| + HEADER_LENGTH + |p.payload| == |s|
  {
    if |s| < HEADER_LENGTH || s[0] != ids.id1 || s[1] != ids.id2 then Malformed
    else
      var end := HEADER_LENGTH + ShortAt(s, 2);
      if |s| < end then Malformed else Parsed(s[HEADER_LENGTH..end], ShortAt(s, 4), s[end..])
  }

  /** The payloads up to the first packet that announces no further one, and what follows it. */
  function ParseMessage(ids: Ids, s: seq<Byte>): Option<(seq<Byte>, seq<Byte>)>
    decreases |s|
  {
    match ParsePacket(ids, s)
    case Malformed => None
    case Parsed(payload, left, rest) =>
      if left == 0 then Some((payload, rest))
      else
        match ParseMessage(ids, rest)
        case None => None
        case Some((more, rest')) => Some((payload + more, rest'))
  }

  lemma SliceFurther<T>(s: seq<T>, n: nat, k: nat)
    requires n + k <= |s|
    ensures s[..n + k] == s[..n] + s[n..][..k] && s[n + k..] == s[n..][k..]
  {
  }

  // ----- the two ends -----

  /** One end of a connection. With `reliable`, no call on the socket fails or times out. */
  class Connection {
    const ids: Ids
    const maxPacketSize: nat
    const reliable: bool
    var connected: bool
    /** The bytes handed to the socket so far, and the bytes of the peer not read yet. */
    var wire: seq<Byte>
    var incoming: seq<Byte>

    /** The size is an unsigned short; with 6 bytes or less per packet the loops of `SendData` would
        not end. */
    ghost predicate Valid() { HEADER_LENGTH < maxPacketSize < USHORT }

    constructor (ids: Ids, maxPacketSize: nat, reliable: bool, incoming: seq<Byte>)
      requires HEADER_LENGTH < maxPacketSize < USHORT
      ensures Valid() && connected && wire == [] && this.incoming == incoming
      ensures this.ids == ids && this.maxPacketSize == maxPacketSize && this.reliable == reliable
    {
      this.ids, this.maxPacketSize, this.reliable := ids, maxPacketSize, reliable;
      this.connected, this.wire, this.incoming := true, [], incoming;
    }

    // The operating system's side.

    /** send(): the number of bytes accepted, or -1. */
    method Send(bytes: seq<Byte>) returns (n: int)
      modifies `wire
      ensures -1 <= n <= |bytes| && (reliable ==> n == |bytes|)
      ensures wire == old(wire) + bytes[..if n < 0 then 0 else n]
    {
      if reliable { n := |bytes|; } else { n :| -1 <= n <= |bytes|; }
      wire := wire + bytes[..if n < 0 then 0 else n];
    }

    /** recv(): any positive number of bytes up to the length asked for; 0 or less when the peer
        has closed the connection or an error occurs. */
    method Recv(buffer: array<Byte>, at: nat, length: nat) returns (nb: int)
      requires at + length <= buffer.Length && length > 0
      modifies buffer, `incoming
      ensures nb <= length && nb <= |old(incoming)|
      ensures reliable && old(incoming) != [] ==> nb > 0
      ensures buffer[..at] == old(buffer[..at])
      ensures nb > 0 ==> buffer[at..at + nb] == old(incoming)[..nb] && incoming == old(incoming)[nb..]
      ensures nb <= 0 ==> incoming == old(incoming)
    {
      var fails := incoming == [];
      if !reliable && !fails { fails := *; }
      if fails {
        nb :| nb <= 0;
        return;
      }
      nb :| 0 < nb <= length && nb <= |incoming|;
      var arrived := incoming;
      for i := 0 to nb
        invariant buffer[..at] == old(buffer[..at])
        invariant buffer[at..at + i] == arrived[..i]
        invariant incoming == arrived
      {
        buffer[at + i] := arrived[i];
        assert buffer[at..at + i + 1] == buffer[at..at + i] + [arrived[i]];
      }
      incoming := incoming[nb..];
    }

    /** More than three seconds have passed. */
    method IsLate() returns (late: bool)
      ensures reliable ==> !late
    {
      if reliable { late := false; } else { late := *; }
    }

    /** select() without a timeout value. */
    method Select() returns (r: int)
      ensures reliable ==> r == 1
    {
      if reliable { r := 1; } else { r := *; }
    }

    // Sending.

    method SendSimplePacket(packet: seq<Byte>, packetsLeft: nat) returns (ok: bool)
      modifies `wire
      ensures packet == [] ==> !ok && wire == old(wire)
      ensures ok ==> wire == old(wire) + Packet(ids, packet, packetsLeft)
      ensures !ok ==> old(wire) <= wire <= old(wire) + Packet(ids, packet, packetsLeft)
      ensures reliable && packet != [] ==> ok
    {
      if packet == [] { return false; }
      var toSend := Header(ids, |packet|, packetsLeft) + packet;
      var n := Send(toSend);
      return n == |packet| + HEADER_LENGTH;
    }

    /** The counting loop. */
    method CountPackets(data: seq<Byte>) returns (packetCount: nat)
      requires Valid()
      ensures packetCount == |Payloads(data, maxPacketSize - HEADER_LENGTH)|
    {
      hide Payloads, Encode;
      var room := maxPacketSize - HEADER_LENGTH;
      var s := |data|;
      packetCount := 0;
      assert data[0..] == data;
      while s != 0
        invariant 0 <= s <= |data|
        invariant packetCount + |Payloads(data[|data| - s..], room)| == |Payloads(data, room)|
        decreases s
      {
        ghost var rest := data[|data| - s..];
        ghost var n := if s > room then room else s;
        FirstPacket(ids, rest, room, n);
        assert rest[n..] == data[|data| - (s - n)..];
        packetCount := packetCount + 1;
        if s > room { s := s - room; } else { s := 0; }
      }
      NothingToSend(ids, data[|data|..], room);
    }

    method SendData(data: seq<Byte>) returns (ok: bool)
      requires Valid()
      modifies `wire
      ensures !connected || data == [] ==> !ok && wire == old(wire)
      ensures ok ==> wire == old(wire) + Encode(ids, data, maxPacketSize - HEADER_LENGTH)
      ensures !ok ==> old(wire) <= wire <= old(wire) + Encode(ids, data, maxPacketSize - HEADER_LENGTH)
      ensures reliable && connected && data != [] ==> ok
    {
      hide Packet, Payloads, Encode;
      if !connected || data == [] { return false; }
      var room := maxPacketSize - HEADER_LENGTH;
      var packetCount := CountPackets(data);
      var s, ptr := |data|, 0;
      ghost var was, all := wire, Encode(ids, data, room);
      assert data[0..] == data;
      while s != 0
        invariant 0 <= ptr && s == |data| - ptr && 0 <= s
        invariant packetCount == |Payloads(data[ptr..], room)|
        invariant was <= wire && wire + Encode(ids, data[ptr..], room) == was + all
        decreases s
      {
        ghost var rest, before := data[ptr..], wire;
        var sizeToSend := s;
        if s > room { sizeToSend := room; }
        s := s - sizeToSend;
        FirstPacket(ids, rest, room, sizeToSend);
        packetCount := packetCount - 1;
        var payload := data[ptr..ptr + sizeToSend];
        assert rest[..sizeToSend] == payload && rest[sizeToSend..] == data[ptr + sizeToSend..];
        ghost var packet, next := Packet(ids, payload, packetCount), Encode(ids, data[ptr + sizeToSend..], room);
        var sent := SendSimplePacket(payload, packetCount);
        Appending(was, before, packet, next, wire);
        if !sent { return false; }
        ptr := ptr + sizeToSend;
      }
      NothingToSend(ids, data[ptr..], room);
      return true;
    }

    // Receiving.

    /** Fills the buffer from the socket, fragment by fragment. */
    method Fill(buffer: array<Byte>) returns (totalReceived: nat)
      modifies buffer, `incoming
      ensures totalReceived <= buffer.Length && totalReceived <= |old(incoming)|
      ensures totalReceived == buffer.Length ==>
        buffer[..] == old(incoming)[..buffer.Length] && incoming == old(incoming)[buffer.Length..]
      ensures reliable && buffer.Length <= |old(incoming)| ==> totalReceived == buffer.Length
    {
      totalReceived := 0;
      while totalReceived != buffer.Length
        invariant totalReceived <= buffer.Length && totalReceived <= |old(incoming)|
        invariant buffer[..totalReceived] == old(incoming)[..totalReceived]
        invariant incoming == old(incoming)[totalReceived..]
        decreases buffer.Length - totalReceived
      {
        ghost var got := buffer[..totalReceived];
        var nb := Recv(buffer, totalReceived, buffer.Length - totalReceived);
        if nb < 1 { break; }
        assert buffer[..totalReceived + nb] == got + buffer[totalReceived..totalReceived + nb];
        SliceFurther(old(incoming), totalReceived, nb);
        totalReceived := totalReceived + nb;
        var late := IsLate();
        if late { break; }
      }
      assert totalReceived == buffer.Length ==> buffer[..] == buffer[..totalReceived];
    }

    /** The number of packets left to read, or -1 for a time-out and -2 for an error. */
    method ReceiveSimplePacket() returns (result: int, packet: seq<Byte>)
      modifies `incoming
      ensures result >= 0 ==> ParsePacket(ids, old(incoming)) == Parsed(packet, result, incoming)
      ensures result >= 0 || result == -1 || result == -2
      ensures reliable ==> result != -1 && (result >= 0 <==> ParsePacket(ids, old(incoming)).Parsed?)
    {
      packet := [];
      var selectResult := Select();
      if selectResult == 1 {
        ghost var s := incoming;
        var headerAndSize := new Byte[HEADER_LENGTH];
        var totalReceived := Fill(headerAndSize);
        if totalReceived != HEADER_LENGTH { return -2, packet; }
        assert forall i | 0 <= i < HEADER_LENGTH :: headerAndSize[i] == s[..HEADER_LENGTH][i] == s[i];
        if headerAndSize[0] != ids.id1 || headerAndSize[1] != ids.id2 { return -2, packet; }
        var dataLength := ShortAt(headerAndSize[..], 2);
        var payload := new Byte[dataLength];
        totalReceived := Fill(payload);
        if totalReceived != dataLength { return -2, packet; }
        packet := payload[..];
        assert s[HEADER_LENGTH..][..dataLength] == s[HEADER_LENGTH..HEADER_LENGTH + dataLength];
        assert s[HEADER_LENGTH..][dataLength..] == s[HEADER_LENGTH + dataLength..];
        return ShortAt(headerAndSize[..], 4), packet;
      }
      if selectResult == 0 { return -1, packet; }
      return -2, packet;
    }

    /** The next message; dataSize is its size, 0 after a time-out and -1 after an error. */
    method ReceiveData() returns (dataSize: int, data: Option<seq<Byte>>)
      modifies `incoming
      ensures data.Some? ==> connected && dataSize == |data.value|
      ensures data.Some? ==> ParseMessage(ids, old(incoming)) == Some((data.value, incoming))
      ensures data.None? ==> dataSize == 0 || dataSize == -1
      ensures reliable && connected ==> (data.Some? <==> ParseMessage(ids, old(incoming)).Some?)
      ensures reliable && data.None? ==> dataSize == -1
      ensures !BeginsWithPacket(ids, old(incoming)) ==> data.None?
    {
      if !BeginsWithPacket(ids, incoming) { OthersAreRefused(ids, incoming); }
      if !connected { return -1, None; }
      var receivedData: seq<Byte> := [];
      assert forall more: seq<Byte> :: receivedData + more == more;
      while true
        invariant connected
        invariant ParseMessage(ids, old(incoming)) ==
          match ParseMessage(ids, incoming)
          case None => None
          case Some((more, rest)) => Some((receivedData + more, rest))
        decreases |incoming|
      {
        var result, inDat := ReceiveSimplePacket();
        if result < 0 { return result + 1, None; }
        assert forall more: seq<Byte> :: (receivedData + inDat) + more == receivedData + (inDat + more);
        receivedData := receivedData + inDat;
        if result == 0 { return |receivedData|, Some(receivedData); }
      }
    }
  }

  // ----- the packets of a message -----

  function ConcatAll(parts: seq<seq<Byte>>): seq<Byte> {
    if parts == [] then [] else parts[0] + ConcatAll(parts[1..])
  }

  lemma {:induction false} TimesIsMonotone(a: nat, b: nat, c: nat)
    requires a <= b
    ensures a * c <= b * c
  {
    if a < b {
      TimesIsMonotone(a, b - 1, c);
      assert b * c == (b - 1) * c + c;
    }
  }

  /** A message is cut into payloads none of which is empty and all but the last of which are
      full; together they are the message. */
  lemma {:induction false} PayloadsOfMessage(data: seq<Byte>, room: nat)
    requires room > 0
    ensures var ps := Payloads(data, room);
      && ConcatAll(ps) == data
      && (forall k | 0 <= k < |ps| :: 0 < |ps[k]| <= room)
      && (forall k | 0 <= k < |ps| - 1 :: |ps[k]| == room)
  {
    if |data| > room {
      PayloadsOfMessage(data[room..], room);
      var ps, rest := Payloads(data, room), Payloads(data[room..], room);
      assert ps[1..] == rest && data[..room] + data[room..] == data;
      forall k | 0 <= k < |ps| ensures 0 < |ps[k]| <= room && (k < |ps| - 1 ==> |ps[k]| == room) {
        if k > 0 { assert ps[k] == rest[k - 1]; }
      }
    }
  }

  /** There are the ceiling of size/room of them. */
  lemma {:induction false} PayloadCount(data: seq<Byte>, room: nat)
    requires room > 0
    ensures var k := |Payloads(data, room)|;
      if k == 0 then data == [] else (k - 1) * room < |data| <= k * room
  {
    if |data| > room {
      PayloadCount(data[room..], room);
      var k := |Payloads(data[room..], room)|;
      assert |Payloads(data, room)| == k + 1;
      assert (k + 1) * room == k * room + room && k * room == (k - 1) * room + room;
    }
  }

  /** At most n packets are needed exactly when the message fits into n payloads. */
  lemma PacketsNeeded(data: seq<Byte>, room: nat, n: nat)
    requires room > 0
    ensures |Payloads(data, room)| <= n <==> |data| <= n * room
  {
    PayloadCount(data, room);
    var k := |Payloads(data, room)|;
    if k <= n { TimesIsMonotone(k, n, room); } else { TimesIsMonotone(n, k - 1, room); }
  }

  // ----- the round trip -----

  /** How many packets of a message of n the receiver reads: the count of packets left is sent
      modulo 65536, and reading stops at the first zero. */
  function Consumed(n: nat): (m: nat)
    requires n > 0
    ensures 0 < m <= n && (m == n <==> n <= USHORT)
  {
    (n - 1) % USHORT + 1
  }

  lemma ConsumedStep(n: nat)
    requires n > 0
    ensures if (n - 1) % USHORT == 0 then Consumed(n) == 1 else n > 1 && Consumed(n - 1) == Consumed(n) - 1
  {
  }

  lemma ParseFirstPacket(ids: Ids, payload: seq<Byte>, left: nat, tail: seq<Byte>)
    requires |payload| < USHORT
    ensures ParsePacket(ids, Packet(ids, payload, left) + tail) == Parsed(payload, left % USHORT, tail)
  {
    ShortRoundTrip(|payload|);
    ShortRoundTrip(left);
    var s := Packet(ids, payload, left) + tail;
    assert s[2] == ShortBytes(|payload|)[0] && s[3] == ShortBytes(|payload|)[1];
    assert s[4] == ShortBytes(left)[0] && s[5] == ShortBytes(left)[1];
    assert s[HEADER_LENGTH..] == payload + tail;
  }

  lemma ConcatTake(parts: seq<seq<Byte>>, m: nat)
    requires 0 < m <= |parts|
    ensures ConcatAll(parts[..m]) == parts[0] + ConcatAll(parts[1..][..m - 1])
    ensures m == 1 ==> ConcatAll(parts[..m]) == parts[0]
  {
    assert parts[..m][1..] == parts[1..][..m - 1];
  }

  lemma ParseStreamHead(ids: Ids, payloads: seq<seq<Byte>>, tail: seq<Byte>)
    requires payloads != [] && |payloads[0]| < USHORT
    ensures ParsePacket(ids, Stream(ids, payloads) + tail) ==
      Parsed(payloads[0], (|payloads| - 1) % USHORT, Stream(ids, payloads[1..]) + tail)
  {
    var packet, rest := Packet(ids, payloads[0], |payloads| - 1), Stream(ids, payloads[1..]);
    assert packet + rest + tail == packet + (rest + tail);
    ParseFirstPacket(ids, payloads[0], |payloads| - 1, rest + tail);
  }

  lemma {:induction false} ParseStream(ids: Ids, payloads: seq<seq<Byte>>, tail: seq<Byte>)
    requires payloads != [] && forall k | 0 <= k < |payloads| :: |payloads[k]| < USHORT
    ensures var m := Consumed(|payloads|);
      ParseMessage(ids, Stream(ids, payloads) + tail) ==
      Some((ConcatAll(payloads[..m]), Stream(ids, payloads[m..]) + tail))
  {
    hide Consumed, Stream, ParsePacket, ConcatAll;
    var n, m, rest := |payloads|, Consumed(|payloads|), payloads[1..];
    var left := (n - 1) % USHORT;
    ConsumedStep(n);
    ParseStreamHead(ids, payloads, tail);
    ConcatTake(payloads, m);
    assert payloads[m..] == rest[m - 1..];
    if left == 0 {
      assert rest[0..] == rest;
    } else {
      ParseStream(ids, rest, tail);
    }
  }

  lemma {:induction false} ConcatAllSplits(parts: seq<seq<Byte>>, m: nat)
    requires m <= |parts|
    ensures ConcatAll(parts) == ConcatAll(parts[..m]) + ConcatAll(parts[m..])
  {
    if m > 0 {
      ConcatAllSplits(parts[1..], m - 1);
      assert parts[..m][1..] == parts[1..][..m - 1];
    } else {
      assert parts[..0] == [] && parts[0..] == parts;
    }
  }

  /** What a receiver makes of a message and whatever bytes follow it: the message, exactly when
      it needs at most 65536 packets; of a longer one only the beginning, cut at a packet. */
  lemma MessageRoundTrip(ids: Ids, data: seq<Byte>, room: nat, tail: seq<Byte>)
    requires data != [] && 0 < room < USHORT
    ensures var r := ParseMessage(ids, Encode(ids, data, room) + tail);
      && r.Some? && r.value.0 <= data
      && (r == Some((data, tail)) <==> |data| <= USHORT * room)
  {
    hide ParseMessage, Payloads, Stream;
    var ps := Payloads(data, room);
    PayloadsOfMessage(data, room);
    PacketsNeeded(data, room, USHORT);
    ParseStream(ids, ps, tail);
    var m := Consumed(|ps|);
    ConcatAllSplits(ps, m);
    if m == |ps| {
      assert ps[..m] == ps && ps[m..] == [];
      NothingToParse(ids, tail);
    } else {
      assert |ConcatAll(ps[m..])| >= |ps[m]| > 0;
    }
  }

  lemma NothingToParse(ids: Ids, tail: seq<Byte>)
    ensures Stream(ids, []) + tail == tail
  {
  }

  /** A message that is not received as it was sent. */
  lemma OversizedMessageIsCut(ids: Ids)
    ensures var data := seq(USHORT + 1, _ => 0 as Byte);
      ParseMessage(ids, Encode(ids, data, 1)) != Some((data, []))
  {
    var data := seq(USHORT + 1, _ => 0 as Byte);
    MessageRoundTrip(ids, data, 1, []);
    assert Encode(ids, data, 1) + [] == Encode(ids, data, 1);
  }

  // ----- what is refused -----

  /** The stream begins with the two bytes of the connection and is as long as its header announces. */
  ghost predicate BeginsWithPacket(ids: Ids, s: seq<Byte>) {
    |s| >= 6 && s[0] == ids.id1 && s[1] == ids.id2 && |s| >= 6 + (s[2] as int) + 256 * (s[3] as int)
  }

  lemma ShortsAreBytes(a: Byte, b: Byte)
    ensures ShortBytes((a as int) + 256 * (b as int)) == [a, b] && (a as int) + 256 * (b as int) < USHORT
  {
  }

  /** A packet is read exactly from a stream that begins with it: with the right two bytes, the size of
      the payload and the count of packets behind it. */
  lemma PacketIsRead(ids: Ids, s: seq<Byte>, payload: seq<Byte>, left: nat, rest: seq<Byte>)
    ensures ParsePacket(ids, s) == Parsed(payload, left, rest) <==>
            |payload| < USHORT && left < USHORT && s == Packet(ids, payload, left) + rest
  {
    if |payload| < USHORT && left < USHORT && s == Packet(ids, payload, left) + rest {
      ParseFirstPacket(ids, payload, left, rest);
    }
    if ParsePacket(ids, s) == Parsed(payload, left, rest) {
      hide ShortBytes;
      ShortsAreBytes(s[2], s[3]);
      ShortsAreBytes(s[4], s[5]);
      assert |payload| == ShortAt(s, 2) && left == ShortAt(s, 4);
      assert s[..HEADER_LENGTH] == [s[0], s[1]] + [s[2], s[3]] + [s[4], s[5]] == Header(ids, |payload|, left);
      assert s == s[..HEADER_LENGTH] + s[HEADER_LENGTH..HEADER_LENGTH + |payload|] + s[HEADER_LENGTH + |payload|..];
    }
  }

  /** A payload and the count of packets its header announces behind it. */
  datatype Frame = Frame(payload: seq<Byte>, left: nat)

  /** Packets of which the last, and no other, announces none behind it. */
  ghost predicate IsMessage(frames: seq<Frame>) {
    && frames != []
    && (forall k | 0 <= k < |frames| :: |frames[k].payload| < USHORT && frames[k].left < USHORT)
    && (forall k | 0 <= k < |frames| :: frames[k].left == 0 <==> k == |frames| - 1)
  }

  function Wire(ids: Ids, frames: seq<Frame>): seq<Byte> {
    if frames == [] then [] else Packet(ids, frames[0].payload, frames[0].left) + Wire(ids, frames[1..])
  }

  function Data(frames: seq<Frame>): seq<Byte> {
    if frames == [] then [] else frames[0].payload + Data(frames[1..])
  }

  /** A message is read from its packets, whatever counts they announce. */
  lemma {:induction false} FramesAreRead(ids: Ids, frames: seq<Frame>, rest: seq<Byte>)
    requires IsMessage(frames)
    ensures ParseMessage(ids, Wire(ids, frames) + rest) == Some((Data(frames), rest))
  {
    hide ParsePacket, Packet;
    var f, more := frames[0], frames[1..];
    var s := Wire(ids, frames) + rest;
    assert s == Packet(ids, f.payload, f.left) + (Wire(ids, more) + rest);
    PacketIsRead(ids, s, f.payload, f.left, Wire(ids, more) + rest);
    if more == [] {
      assert Wire(ids, more) + rest == rest && f.payload + [] == f.payload;
    } else {
      assert forall k | 0 <= k < |more| :: more[k] == frames[k + 1];
      FramesAreRead(ids, more, rest);
    }
  }

  lemma FirstFrame(ids: Ids, f: Frame, more: seq<Frame>, s: seq<Byte>, after: seq<Byte>, rest: seq<Byte>)
    requires s == Packet(ids, f.payload, f.left) + after && after == Wire(ids, more) + rest
    ensures s == Wire(ids, [f] + more) + rest && Data([f] + more) == f.payload + Data(more)
  {
    hide Packet;
    assert ([f] + more)[1..] == more;
  }

  lemma OneFrame(ids: Ids, f: Frame, s: seq<Byte>, rest: seq<Byte>)
    requires s == Packet(ids, f.payload, f.left) + rest
    ensures s == Wire(ids, [f]) + rest && Data([f]) == f.payload
  {
    hide Packet;
    assert [f][1..] == [] && f.payload + [] == f.payload;
    assert Packet(ids, f.payload, f.left) + [] == Packet(ids, f.payload, f.left);
  }

  /** Nothing else is read as a message. */
  lemma {:induction false} OnlyFramesAreRead(ids: Ids, s: seq<Byte>) returns (frames: seq<Frame>)
    requires ParseMessage(ids, s).Some?
    ensures var (data, rest) := ParseMessage(ids, s).value;
      IsMessage(frames) && s == Wire(ids, frames) + rest && data == Data(frames)
    decreases |s|
  {
    hide Packet, ParsePacket, Wire, Data;
    var Parsed(payload, left, rest) := ParsePacket(ids, s);
    var f := Frame(payload, left);
    PacketIsRead(ids, s, payload, left, rest);
    if left == 0 {
      frames := [f];
      OneFrame(ids, f, s, rest);
    } else {
      var more := OnlyFramesAreRead(ids, rest);
      frames := [f] + more;
      FirstFrame(ids, f, more, s, rest, ParseMessage(ids, rest).value.1);
    }
  }

  /** A stream that does not begin with a packet gives no message. */
  lemma OthersAreRefused(ids: Ids, s: seq<Byte>)
    requires !BeginsWithPacket(ids, s)
    ensures ParseMessage(ids, s) == None
  {
  }

  ghost predicate Sendable(messages: seq<seq<Byte>>, room: nat)
    requires room > 0
  {
    forall i | 0 <= i < |messages| :: messages[i] != [] && |messages[i]| <= USHORT * room
  }

  function EncodeAll(ids: Ids, messages: seq<seq<Byte>>, room: nat): seq<Byte>
    requires room > 0
  {
    if messages == [] then [] else Encode(ids, messages[0], room) + EncodeAll(ids, messages[1..], room)
  }

  /** What n calls of ReceiveData return one after the other, and the bytes left. */
  function ParseMessages(ids: Ids, s: seq<Byte>, n: nat): Option<(seq<seq<Byte>>, seq<Byte>)>
    decreases n
  {
    if n == 0 then Some(([], s))
    else
      match ParseMessage(ids, s)
      case None => None
      case Some((first, rest)) =>
        match ParseMessages(ids, rest, n - 1)
        case None => None
        case Some((more, rest')) => Some(([first] + more, rest'))
  }

  /** Any sequence of sendable messages is received message by message, in order. */
  lemma {:induction false} SessionRoundTrip(ids: Ids, messages: seq<seq<Byte>>, room: nat, tail: seq<Byte>)
    requires 0 < room < USHORT && Sendable(messages, room)
    ensures ParseMessages(ids, EncodeAll(ids, messages, room) + tail, |messages|) == Some((messages, tail))
  {
    hide Encode, ParseMessage;
    if messages == [] {
      assert [] + tail == tail;
    } else {
      var rest := messages[1..];
      var s := EncodeAll(ids, rest, room) + tail;
      MessageRoundTrip(ids, messages[0], room, s);
      SessionRoundTrip(ids, rest, room, tail);
      assert EncodeAll(ids, messages, room) + tail == Encode(ids, messages[0], room) + s;
      hide EncodeAll, Sendable;
      assert [messages[0]] + rest == messages;
    }
  }

  lemma {:induction false} EncodeOneMore(ids: Ids, messages: seq<seq<Byte>>, message: seq<Byte>, room: nat)
    requires room > 0
    ensures EncodeAll(ids, messages + [message], room) == EncodeAll(ids, messages, room) + Encode(ids, message, room)
  {
    hide Encode;
    var all := messages + [message];
    if messages == [] {
      assert all[1..] == [] && EncodeAll(ids, [], room) == [];
    } else {
      EncodeOneMore(ids, messages[1..], message, room);
      assert all[1..] == messages[1..] + [message];
      var rest := EncodeAll(ids, messages[1..], room);
      assert Encode(ids, messages[0], room) + (rest + Encode(ids, message, room)) ==
             Encode(ids, messages[0], room) + rest + Encode(ids, message, room);
    }
  }

  /** What is sent over one end of a connection and handed to the other is received there, message by
      message, however the bytes arrive. */
  method Exchange(sender: Connection, receiver: Connection, messages: seq<seq<Byte>>) returns (received: seq<seq<Byte>>)
    requires sender != receiver && sender.Valid() && sender.ids == receiver.ids
    requires sender.reliable && sender.connected && receiver.reliable && receiver.connected
    requires Sendable(messages, sender.maxPacketSize - HEADER_LENGTH)
    requires sender.wire == []
    modifies sender`wire, receiver`incoming
    ensures received == messages && receiver.incoming == []
  {
    hide Encode, EncodeAll, ParseMessage;
    var ids, room := sender.ids, sender.maxPacketSize - HEADER_LENGTH;
    NothingEncoded(ids, room);
    assert messages[..0] == [];
    for i := 0 to |messages|
      invariant sender.wire == EncodeAll(ids, messages[..i], room)
    {
      var sent := sender.SendData(messages[i]);
      EncodeOneMore(ids, messages[..i], messages[i], room);
      assert messages[..i] + [messages[i]] == messages[..i + 1];
    }
    assert messages[..|messages|] == messages == messages[0..];
    receiver.incoming := sender.wire;
    received := [];
    for i := 0 to |messages|
      invariant received == messages[..i]
      invariant receiver.incoming == EncodeAll(ids, messages[i..], room)
    {
      EncodeFirst(ids, messages, i, room);
      MessageRoundTrip(ids, messages[i], room, EncodeAll(ids, messages[i + 1..], room));
      var size, data := receiver.ReceiveData();
      received := received + [data.value];
    }
    assert messages[|messages|..] == [];
  }

  lemma NothingEncoded(ids: Ids, room: nat)
    requires room > 0
    ensures EncodeAll(ids, [], room) == []
  {
  }

  lemma EncodeFirst(ids: Ids, messages: seq<seq<Byte>>, i: nat, room: nat)
    requires i < |messages| && room > 0
    ensures EncodeAll(ids, messages[i..], room) ==
            Encode(ids, messages[i], room) + EncodeAll(ids, messages[i + 1..], room)
  {
    hide Encode;
    assert messages[i..][1..] == messages[i + 1..];
  }
}
