/** Headers as bytes, and messages from the sender's queue to the receiver's packets. */
module Messages {

  import opened Basics
  import opened Framing
  import opened SendQueue

  const START_SIZE: nat := 4
  const COMMAND_SIZE: nat := 12
  const CHECKSUM_SIZE: nat := 4

  /** Sizes that fit the four bytes of the size field. */
  const SIZES: nat := 0x1_0000_0000

  datatype Header = Header(start: seq<nat>, command: seq<nat>, size: nat, checksum: seq<nat>)

  datatype Message = Message(start: seq<nat>, command: seq<nat>, checksum: seq<nat>, data: seq<nat>)

  predicate IsBytes(s: seq<nat>) { forall i :: 0 <= i < |s| ==> s[i] < 0x100 }

  predicate Fits(h: Header) {
    && |h.start| == START_SIZE && |h.command| == COMMAND_SIZE && |h.checksum| == CHECKSUM_SIZE && h.size < SIZES
    && IsBytes(h.start) && IsBytes(h.command) && IsBytes(h.checksum)
  }

  /** A number in n bytes, least significant first. */
  function LittleEndian(x: nat, n: nat): (r: seq<nat>)
    ensures |r| == n && IsBytes(r)
  {
    if n == 0 then [] else [x % 0x100] + LittleEndian(x / 0x100, n - 1)
  }

  function Encode(h: Header): seq<nat> {
    h.start + h.command + LittleEndian(h.size, 4) + h.checksum
  }

  function Parse(hdr: seq<nat>): Header
    requires |hdr| == HEADER_SIZE
  {
    Header(hdr[..4], hdr[4..16], MessageSize(hdr), hdr[20..])
  }

  lemma FourBytes(x: nat)
    ensures LittleEndian(x, 4) == [x % 0x100, x / 0x100 % 0x100, x / 0x100 / 0x100 % 0x100, x / 0x100 / 0x100 / 0x100 % 0x100]
  {
    assert LittleEndian(x / 0x100 / 0x100 / 0x100, 1) == [x / 0x100 / 0x100 / 0x100 % 0x100];
    assert LittleEndian(x / 0x100 / 0x100, 2) == [x / 0x100 / 0x100 % 0x100] + LittleEndian(x / 0x100 / 0x100 / 0x100, 1);
    assert LittleEndian(x / 0x100, 3) == [x / 0x100 % 0x100] + LittleEndian(x / 0x100 / 0x100, 2);
  }

  lemma SizeOf(a: nat, b: nat, c: nat, d: nat)
    requires a < 0x100 && b < 0x100 && c < 0x100 && d < 0x100
    ensures var x := a + 0x100 * b + 0x1_0000 * c + 0x100_0000 * d;
      x < SIZES && x % 0x100 == a && x / 0x100 == b + 0x100 * c + 0x1_0000 * d
  {
  }

  lemma FourBack(a: nat, b: nat, c: nat, d: nat)
    requires a < 0x100 && b < 0x100 && c < 0x100 && d < 0x100
    ensures LittleEndian(a + 0x100 * b + 0x1_0000 * c + 0x100_0000 * d, 4) == [a, b, c, d]
  {
    FourBytes(a + 0x100 * b + 0x1_0000 * c + 0x100_0000 * d);
    hide LittleEndian;
    SizeOf(a, b, c, d);
    SizeOf(b, c, d, 0);
    SizeOf(c, d, 0, 0);
  }

  lemma SumBack(x: nat)
    requires x < SIZES
    ensures x % 0x100 + 0x100 * (x / 0x100 % 0x100) + 0x1_0000 * (x / 0x100 / 0x100 % 0x100)
      + 0x100_0000 * (x / 0x100 / 0x100 / 0x100 % 0x100) == x
  {
    var y := x / 0x100;
    var z := y / 0x100;
    var w := z / 0x100;
    assert w < 0x100;
  }

  /** A header parsed is the header that was encoded. */
  lemma ParseEncoded(h: Header)
    requires Fits(h)
    ensures |Encode(h)| == HEADER_SIZE && IsBytes(Encode(h)) && Parse(Encode(h)) == h
  {
    FourBytes(h.size);
    SumBack(h.size);
    hide LittleEndian;
    var hdr := Encode(h);
    assert hdr[..4] == h.start && hdr[4..16] == h.command && hdr[20..] == h.checksum;
    assert hdr[16..20] == LittleEndian(h.size, 4);
    assert hdr[16] == hdr[16..20][0] && hdr[17] == hdr[16..20][1] && hdr[18] == hdr[16..20][2] && hdr[19] == hdr[16..20][3];
  }

  /** And every header of bytes encodes to what it was parsed from. */
  lemma EncodeParsed(hdr: seq<nat>)
    requires |hdr| == HEADER_SIZE && IsBytes(hdr)
    ensures Fits(Parse(hdr)) && Encode(Parse(hdr)) == hdr
  {
    FourBack(hdr[16], hdr[17], hdr[18], hdr[19]);
    SizeOf(hdr[16], hdr[17], hdr[18], hdr[19]);
    hide LittleEndian;
    assert hdr == hdr[..4] + hdr[4..16] + [hdr[16], hdr[17], hdr[18], hdr[19]] + hdr[20..];
  }

  // ---------------------------------------------------------------- messages

  function HeaderOf(msg: Message): Header { Header(msg.start, msg.command, |msg.data|, msg.checksum) }

  predicate Sendable(msgs: seq<Message>) { forall i :: 0 <= i < |msgs| ==> Fits(HeaderOf(msgs[i])) }

  /** The bytes of messages sent one after the other. */
  function Wire(msgs: seq<Message>): seq<nat> {
    if msgs == [] then []
    else Wire(msgs[..|msgs| - 1]) + Encode(HeaderOf(msgs[|msgs| - 1])) + msgs[|msgs| - 1].data
  }

  function AsPacket(msg: Message): Packet { Packet(Encode(HeaderOf(msg)), msg.data) }

  function AsPackets(msgs: seq<Message>): seq<Packet> {
    seq(|msgs|, i requires 0 <= i < |msgs| => AsPacket(msgs[i]))
  }

  predicate Small(msgs: seq<Message>) { forall i :: 0 <= i < |msgs| ==> |msgs[i].data| <= 32000000 }

  lemma PacketIs(msg: Message)
    requires Fits(HeaderOf(msg))
    ensures |Encode(HeaderOf(msg))| == HEADER_SIZE && MessageSize(Encode(HeaderOf(msg))) == |msg.data|
    ensures Complete(AsPacket(msg)) && (Oversized(Packet(Encode(HeaderOf(msg)), [])) <==> |msg.data| > 32000000)
  {
    ParseEncoded(HeaderOf(msg));
  }

  /** A header after whole packets opens the next one, unless it is refused. */
  lemma HeaderArrives(st: seq<Packet>, hdr: seq<nat>)
    requires (st != [] ==> Complete(st[|st| - 1])) && |hdr| == HEADER_SIZE
    ensures AbsorbAll(st, hdr) == if Oversized(Packet(hdr, [])) then None else Some(st + [Packet(hdr, [])])
  {
    var o := st + [Packet([], [])];
    assert Opened(st) == o;
    hide Complete, Oversized, AbsorbAll, Opened;
    OpenFirst(st, hdr);
    HeaderRun(o, hdr);
    assert [] + hdr == hdr;
    assert WithLast(o, Packet(hdr, [])) == st + [Packet(hdr, [])];
  }

  lemma DataArrives(st: seq<Packet>, hdr: seq<nat>, data: seq<nat>)
    requires |hdr| == HEADER_SIZE && MessageSize(hdr) == |data|
    ensures AbsorbAll(st + [Packet(hdr, [])], data) == Some(st + [Packet(hdr, data)])
  {
    var n := st + [Packet(hdr, [])];
    assert n[|n| - 1] == Packet(hdr, []);
    hide AbsorbAll, MessageSize;
    DataRun(n, data);
    assert [] + data == data;
    assert WithLast(n, Packet(hdr, data)) == st + [Packet(hdr, data)];
  }

  /** One more message on a stream of whole ones becomes one more packet, unless its header is refused. */
  lemma OneArrives(st: seq<Packet>, msg: Message)
    requires (st != [] ==> Complete(st[|st| - 1])) && Fits(HeaderOf(msg))
    ensures AbsorbAll(st, Encode(HeaderOf(msg)) + msg.data) ==
      if |msg.data| <= 32000000 then Some(st + [AsPacket(msg)]) else None
  {
    var hdr := Encode(HeaderOf(msg));
    PacketIs(msg);
    hide Encode, Complete, Oversized, MessageSize, AbsorbAll, Fits;
    HeaderArrives(st, hdr);
    AbsorbParts(st, hdr, msg.data);
    if |msg.data| <= 32000000 { DataArrives(st, hdr, msg.data); }
  }

  lemma LastWhole(msgs: seq<Message>)
    requires Sendable(msgs) && msgs != []
    ensures Complete(AsPackets(msgs)[|msgs| - 1])
  {
    PacketIs(msgs[|msgs| - 1]);
  }

  /** The messages sent are the packets received, each whole and in order, if and only if none is over the
      limit; otherwise the stream is refused. */
  lemma {:induction false} Arrives(msgs: seq<Message>)
    requires Sendable(msgs)
    ensures AbsorbAll([], Wire(msgs)) == if Small(msgs) then Some(AsPackets(msgs)) else None
  {
    if msgs == [] {
      assert AsPackets(msgs) == [];
    } else {
      var rest, last := msgs[..|msgs| - 1], msgs[|msgs| - 1];
      OneMore(msgs);
      Arrives(rest);
      AbsorbParts([], Wire(rest), Encode(HeaderOf(last)) + last.data);
      hide AbsorbAll, Wire, Complete, Sendable, Small, AsPackets, Encode;
      if Small(rest) { OneArrives(AsPackets(rest), last); }
    }
  }

  lemma OneMore(msgs: seq<Message>)
    requires Sendable(msgs) && msgs != []
    ensures var rest, last := msgs[..|msgs| - 1], msgs[|msgs| - 1];
      && Sendable(rest) && Fits(HeaderOf(last)) && (Small(msgs) <==> Small(rest) && |last.data| <= 32000000)
      && Wire(msgs) == Wire(rest) + (Encode(HeaderOf(last)) + last.data)
      && AsPackets(msgs) == AsPackets(rest) + [AsPacket(last)]
      && (AsPackets(rest) != [] ==> Complete(AsPackets(rest)[|AsPackets(rest)| - 1]))
  {
    var rest, last := msgs[..|msgs| - 1], msgs[|msgs| - 1];
    assert msgs == rest + [last];
    hide Fits, Encode;
    if rest != [] {
      assert Fits(HeaderOf(msgs[|msgs| - 2]));
      LastWhole(rest);
    }
  }

  lemma WireMore(msgs: seq<Message>, msg: Message)
    ensures Wire(msgs + [msg]) == Wire(msgs) + Encode(HeaderOf(msg)) + msg.data
  {
    assert (msgs + [msg])[..|msgs|] == msgs;
  }

  /** However the socket cut the stream, once the queue is empty the other end has the messages pushed. */
  lemma Delivered(msgs: seq<Message>, sent: seq<nat>, offset: nat, chunks: seq<seq<nat>>)
    requires Sendable(msgs) && Small(msgs) && Queued([], offset, sent, Wire(msgs)) && Joined(chunks) == sent
    ensures Received(chunks) == Some(AsPackets(msgs))
  {
    assert Flat([])[offset..] == [] && sent + [] == sent;
    ReceivedIsStream(chunks);
    Arrives(msgs);
  }
}
