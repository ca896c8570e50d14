/** TDS message framing, section 2.2.3.1 of [MS-TDS]: a message is one or more
    packets, the last of which carries the end-of-message bit. */
module Tds {
  import opened Bytes
  import opened Streams

  const HEADER_LEN := 8
  const PACKET_SIZE := 4096
  const CHUNK := PACKET_SIZE - HEADER_LEN
  const MAX_MESSAGE := 32 * 1024 * 1024
  const STATUS_EOM: byte := 1

  /** A packet; `spare` is SPID, packet id and window, which readers ignore. */
  datatype Packet = Packet(typ: byte, status: byte, spare: bytes, data: bytes)

  predicate Valid(p: Packet) { |p.spare| == 4 && HEADER_LEN + |p.data| <= 0xffff }

  predicate IsLast(p: Packet) { p.status % 2 == 1 }

  function PacketHeader(p: Packet): (h: bytes)
    requires Valid(p)
    ensures |h| == HEADER_LEN
  {
    [p.typ, p.status] + PutU16BE(HEADER_LEN + |p.data|) + p.spare
  }

  function EncodePacket(p: Packet): bytes
    requires Valid(p)
  {
    PacketHeader(p) + p.data
  }

  function EncodePackets(ps: seq<Packet>): bytes
    requires forall p :: p in ps ==> Valid(p)
  {
    if ps == [] then [] else EncodePacket(ps[0]) + EncodePackets(ps[1..])
  }

  // ----------------------------------------------------------------- reading

  datatype Message = Message(typ: byte, payload: bytes, rest: bytes) | Bad

  function PacketLength(h: bytes): nat
    requires |h| == HEADER_LEN
  {
    U16BE(h[2..4])
  }

  datatype Taken = Taken(typ: byte, last: bool, data: bytes, rest: bytes) | NoPacket

  /** One packet off the stream, `total` data bytes into a message. */
  function Take(s: bytes, total: nat): (p: Taken)
    ensures p.Taken? ==> |p.rest| < |s|
  {
    if |s| < HEADER_LEN then NoPacket
    else
      var h := s[..HEADER_LEN];
      var n := PacketLength(h);
      if n < HEADER_LEN || total + n - HEADER_LEN > MAX_MESSAGE || n > |s| then NoPacket
      else Taken(h[0], h[1] % 2 == 1, s[HEADER_LEN..n], s[n..])
  }

  function Read(s: bytes, total: nat): (m: Message)
    ensures m.Message? ==> |m.rest| < |s|
    decreases |s|
  {
    match Take(s, total)
    case NoPacket => Bad
    case Taken(typ, last, data, rest) =>
      if last then Message(typ, data, rest) else Continue(typ, data, Read(rest, total + |data|))
  }

  /** The type is the first packet's; the data are concatenated. */
  function Continue(typ: byte, data: bytes, m: Message): Message {
    if m.Message? then Message(typ, data + m.payload, m.rest) else Bad
  }

  /** readTDSMessage. */
  method ReadMessage(r: Reader) returns (ok: bool, typ: byte, payload: bytes)
    modifies r
    ensures ok == Read(old(r.rest), 0).Message?
    ensures ok ==> Read(old(r.rest), 0) == Message(typ, payload, r.rest)
  {
    hide Take;
    ok, typ, payload := false, 0, [];
    var total: nat, first := 0, true;
    ghost var all := Read(r.rest, 0);
    while true
      invariant first ==> total == 0 && payload == [] && all == Read(r.rest, 0)
      invariant !first ==> all == Continue(typ, payload, Read(r.rest, total))
      decreases |r.rest|
    {
      ghost var before := payload;
      var got, pktType, last, data := ReadPacket(r, total);
      if !got { return; }
      total := total + |data|;
      payload := payload + data;
      if first {
        typ, first := pktType, false;
      }
      if last { return true, typ, payload; }
      ContinueTwice(typ, before, pktType, data, Read(r.rest, total));
    }
  }

  /** One turn of the reassembly loop: header, length checks, data. */
  method ReadPacket(r: Reader, total: nat) returns (ok: bool, typ: byte, last: bool, data: bytes)
    modifies r
    ensures ok == Take(old(r.rest), total).Taken?
    ensures ok ==> Take(old(r.rest), total) == Taken(typ, last, data, r.rest)
  {
    hide PacketLength;
    ghost var s := r.rest;
    ok, typ, last, data := false, 0, false, [];
    var got, hdr := r.ReadFull(HEADER_LEN);
    if got != Complete { return; }
    var length := PacketLength(hdr);
    if length < HEADER_LEN { return; }
    var dataLen := length - HEADER_LEN;
    if total + dataLen > MAX_MESSAGE { return; }
    var read, buf := r.ReadFull(dataLen);
    if read != Complete { return; }
    assert buf == s[HEADER_LEN..length] && r.rest == s[length..];
    ok, typ, last, data := true, hdr[0], hdr[1] % 2 == 1, buf;
  }

  lemma ContinueTwice(t: byte, a: bytes, t': byte, b: bytes, m: Message)
    ensures Continue(t, a, Continue(t', b, m)) == Continue(t, a + b, m)
  {
    if m.Message? { assert a + (b + m.payload) == a + b + m.payload; }
  }

  // ----------------------------------------------------------------- writing

  /** The packets writeTDSMessage cuts a payload into, starting at packet id `id`. */
  function Packets(typ: byte, payload: bytes, id: byte): (ps: seq<Packet>)
    ensures |ps| > 0
    decreases |payload|
  {
    if |payload| <= CHUNK then [Packet(typ, STATUS_EOM, [0, 0, id, 0], payload)]
    else [Packet(typ, 0, [0, 0, id, 0], payload[..CHUNK])] + Packets(typ, payload[CHUNK..], (id + 1) % 256)
  }

  lemma {:induction false} PacketsAreValid(typ: byte, payload: bytes, id: byte)
    ensures forall p :: p in Packets(typ, payload, id) ==>
              Valid(p) && HEADER_LEN + |p.data| <= PACKET_SIZE && p.typ == typ
    decreases |payload|
  {
    if |payload| > CHUNK { PacketsAreValid(typ, payload[CHUNK..], (id + 1) % 256); }
  }

  function Write(typ: byte, payload: bytes, id: byte): bytes {
    PacketsAreValid(typ, payload, id);
    EncodePackets(Packets(typ, payload, id))
  }

  /** writeTDSMessage: all packets assembled into one buffer. */
  method WriteMessage(typ: byte, message: bytes) returns (buf: bytes)
    ensures buf == Write(typ, message, 1)
  {
    hide PacketHeader;
    buf := [];
    var payload, id: byte, first := message, 1, true;
    while first || |payload| > 0
      invariant first ==> payload == message && buf == [] && id == 1
      invariant Write(typ, message, 1) == buf + (if first || |payload| > 0 then Write(typ, payload, id) else [])
      decreases first, |payload|
    {
      ghost var before, buf0, id0 := payload, buf, id;
      var chunk := if |payload| > CHUNK then payload[..CHUNK] else payload;
      payload := payload[|chunk|..];
      var status: byte := if |payload| == 0 then STATUS_EOM else 0;
      WriteFirst(typ, before, id);
      buf := buf + EncodePacket(Packet(typ, status, [0, 0, id, 0], chunk));
      id := (id + 1) % 256;
      first := false;
      assert buf0 + (EncodePacket(Packet(typ, status, [0, 0, id0, 0], chunk)) +
                     (if |payload| > 0 then Write(typ, payload, id) else [])) ==
             buf + (if |payload| > 0 then Write(typ, payload, id) else []);
    }
  }

  lemma WriteFirst(typ: byte, payload: bytes, id: byte)
    ensures Write(typ, payload, id) ==
            if |payload| <= CHUNK then EncodePacket(Packet(typ, STATUS_EOM, [0, 0, id, 0], payload)) + []
            else EncodePacket(Packet(typ, 0, [0, 0, id, 0], payload[..CHUNK])) +
                 Write(typ, payload[CHUNK..], (id + 1) % 256)
  {
    hide EncodePacket;
    PacketsAreValid(typ, payload, id);
    var ps := Packets(typ, payload, id);
    if |payload| <= CHUNK {
      assert ps[1..] == [];
      assert EncodePackets([]) == [];
    } else {
      PacketsAreValid(typ, payload[CHUNK..], (id + 1) % 256);
      assert ps[1..] == Packets(typ, payload[CHUNK..], (id + 1) % 256);
    }
  }

  // ---------------------------------------------------------------- theorems

  function Data(ps: seq<Packet>): bytes {
    if ps == [] then [] else ps[0].data + Data(ps[1..])
  }

  /** The end-of-message bit is on the last packet and on no other. */
  predicate OneMessage(ps: seq<Packet>) {
    |ps| > 0 && (|ps| == 1 ==> IsLast(ps[0])) && (|ps| > 1 ==> !IsLast(ps[0]) && OneMessage(ps[1..]))
  }

  lemma HeaderOfPacket(p: Packet)
    requires Valid(p)
    ensures PacketLength(PacketHeader(p)) == HEADER_LEN + |p.data|
    ensures PacketHeader(p)[0] == p.typ && PacketHeader(p)[1] == p.status
  {
    assert PacketHeader(p)[2..4] == PutU16BE(HEADER_LEN + |p.data|);
    U16BERoundTrip(HEADER_LEN + |p.data|);
  }

  lemma ReadOnePacket(p: Packet, rest: bytes, total: nat)
    requires Valid(p)
    ensures Read(EncodePacket(p) + rest, total) ==
            if total + |p.data| > MAX_MESSAGE then Bad
            else if IsLast(p) then Message(p.typ, p.data, rest)
            else Continue(p.typ, p.data, Read(rest, total + |p.data|))
  {
    hide PacketHeader, PacketLength;
    HeaderOfPacket(p);
    var s, n := EncodePacket(p) + rest, HEADER_LEN + |p.data|;
    assert s[..HEADER_LEN] == PacketHeader(p);
    assert s[HEADER_LEN..n] == p.data && s[n..] == rest;
  }

  /** However a payload is cut into packets, the reader gives back the first
      packet's type and the whole payload and stops right behind the message,
      exactly when the payload is within the size cap. */
  lemma {:induction false} ReadsAnyPacketisation(ps: seq<Packet>, rest: bytes, total: nat)
    requires OneMessage(ps) && forall p :: p in ps ==> Valid(p)
    ensures Read(EncodePackets(ps) + rest, total) ==
            if total + |Data(ps)| <= MAX_MESSAGE then Message(ps[0].typ, Data(ps), rest) else Bad
    decreases |ps|
  {
    hide EncodePacket, Read;
    var p, tail := ps[0], ps[1..];
    assert EncodePackets(ps) + rest == EncodePacket(p) + (EncodePackets(tail) + rest);
    ReadOnePacket(p, EncodePackets(tail) + rest, total);
    if tail == [] {
      assert EncodePackets(tail) + rest == rest;
      assert Data(ps) == p.data;
    } else if total + |p.data| <= MAX_MESSAGE {
      ReadsAnyPacketisation(tail, rest, total + |p.data|);
    }
  }

  lemma {:induction false} PacketsAreOneMessage(typ: byte, payload: bytes, id: byte)
    ensures OneMessage(Packets(typ, payload, id)) && Data(Packets(typ, payload, id)) == payload
    ensures Packets(typ, payload, id)[0].typ == typ
    decreases |payload|
  {
    if |payload| > CHUNK {
      PacketsAreOneMessage(typ, payload[CHUNK..], (id + 1) % 256);
      assert Packets(typ, payload, id)[1..] == Packets(typ, payload[CHUNK..], (id + 1) % 256);
      assert payload[..CHUNK] + payload[CHUNK..] == payload;
    } else {
      assert Packets(typ, payload, id)[1..] == [];
    }
  }

  /** Reading inverts writing, for every payload up to the cap and no other. */
  lemma ReadInvertsWrite(typ: byte, payload: bytes, id: byte, rest: bytes)
    ensures Read(Write(typ, payload, id) + rest, 0) ==
            if |payload| <= MAX_MESSAGE then Message(typ, payload, rest) else Bad
  {
    hide Read, EncodePackets, Packets;
    PacketsAreValid(typ, payload, id);
    PacketsAreOneMessage(typ, payload, id);
    ReadsAnyPacketisation(Packets(typ, payload, id), rest, 0);
  }

  datatype Written = Written(typ: byte, payload: bytes)

  function WriteAll(ms: seq<Written>): bytes {
    if ms == [] then [] else Write(ms[0].typ, ms[0].payload, 1) + WriteAll(ms[1..])
  }

  datatype Stream = Stream(messages: seq<Written>, rest: bytes)

  /** Messages read one after another until the stream ends or is malformed, and
      what is then left of it. */
  function ReadAll(s: bytes): Stream
    decreases |s|
  {
    match Read(s, 0)
    case Bad => Stream([], s)
    case Message(typ, payload, rest) =>
      var later := ReadAll(rest);
      Stream([Written(typ, payload)] + later.messages, later.rest)
  }

  /** A stream of written messages reads back as the same messages, to its end, if
      and only if each is within the cap. */
  lemma {:induction false} StreamRoundTrip(ms: seq<Written>)
    ensures ReadAll(WriteAll(ms)) == Stream(ms, []) <==> forall m :: m in ms ==> |m.payload| <= MAX_MESSAGE
  {
    hide Write;
    if ms == [] {
      assert Read([], 0) == Bad;
    } else {
      var m, later := ms[0], WriteAll(ms[1..]);
      ReadInvertsWrite(m.typ, m.payload, 1, later);
      StreamRoundTrip(ms[1..]);
      assert [m] + ms[1..] == ms;
      if |m.payload| <= MAX_MESSAGE {
        assert ReadAll(WriteAll(ms)) == Stream([m] + ReadAll(later).messages, ReadAll(later).rest);
        assert ([m] + ReadAll(later).messages)[1..] == ReadAll(later).messages;
      }
    }
  }
}
