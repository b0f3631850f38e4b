/** Messages on a byte stream: a header of 24 bytes that tells the size of the data that follows. */
module Framing {

  import opened Basics

  const HEADER_SIZE: nat := 24
  const MAX_SIZE: nat := 0x0200_0000
  const MAX_PROTOCOL_MESSAGE_LENGTH: nat := 32000000

  /** A message as far as it was received. */
  datatype Packet = Packet(hdr: seq<nat>, data: seq<nat>)

  /** The size field: four bytes, least significant first, after start string and command. */
  function MessageSize(hdr: seq<nat>): nat
    requires |hdr| == HEADER_SIZE
  {
    hdr[16] + 0x100 * hdr[17] + 0x1_0000 * hdr[18] + 0x100_0000 * hdr[19]
  }

  predicate Complete(p: Packet) {
    |p.hdr| == HEADER_SIZE && |p.data| == MessageSize(p.hdr)
  }

  predicate Oversized(p: Packet) {
    |p.hdr| == HEADER_SIZE && (MessageSize(p.hdr) > MAX_SIZE || MessageSize(p.hdr) > MAX_PROTOCOL_MESSAGE_LENGTH)
  }

  /** A packet on its way: no data before the header is whole, and room left for more. */
  predicate Partial(p: Packet) {
    && |p.hdr| <= HEADER_SIZE && (|p.hdr| < HEADER_SIZE ==> p.data == [])
    && (|p.hdr| == HEADER_SIZE ==> |p.data| <= MessageSize(p.hdr)) && !Oversized(p)
  }

  // ---------------------------------------------------------------- the stream byte by byte

  /** The packets, the last one opened anew where it was complete. */
  function Opened(st: seq<Packet>): (r: seq<Packet>)
    ensures |r| > 0
  {
    if st == [] || Complete(st[|st| - 1]) then st + [Packet([], [])] else st
  }

  function WithLast(st: seq<Packet>, p: Packet): seq<Packet>
    requires |st| > 0
  {
    st[|st| - 1 := p]
  }

  /** One byte: part of a header, or data. Nothing is left of a stream with an oversized header. */
  function Absorb(st: seq<Packet>, b: nat): Option<seq<Packet>> {
    var o := Opened(st);
    var p := o[|o| - 1];
    if |p.hdr| < HEADER_SIZE then
      var q := p.(hdr := p.hdr + [b]);
      if Oversized(q) then None else Some(WithLast(o, q))
    else Some(WithLast(o, p.(data := p.data + [b])))
  }

  function AbsorbAll(st: seq<Packet>, bytes: seq<nat>): Option<seq<Packet>> {
    if bytes == [] then Some(st)
    else
      match AbsorbAll(st, bytes[..|bytes| - 1])
      case None => None
      case Some(s) => Absorb(s, bytes[|bytes| - 1])
  }

  /** Absorbing a stream is absorbing its parts one after the other. */
  lemma {:induction false} AbsorbParts(st: seq<Packet>, a: seq<nat>, b: seq<nat>)
    ensures AbsorbAll(st, a + b) ==
      match AbsorbAll(st, a) { case None => None case Some(s) => AbsorbAll(s, b) }
  {
    if b == [] {
      assert a + b == a;
    } else {
      var rest := b[..|b| - 1];
      assert (a + b)[..|a + b| - 1] == a + rest;
      AbsorbParts(st, a, rest);
    }
  }

  /** Every packet but the last is complete, and the last is one on its way. */
  predicate Sound(st: seq<Packet>) {
    && (forall i :: 0 <= i < |st| - 1 ==> Complete(st[i]) && Partial(st[i]))
    && (st != [] ==> Partial(st[|st| - 1]))
  }

  lemma AbsorbSound(st: seq<Packet>, b: nat)
    requires Sound(st) && Absorb(st, b).Some?
    ensures Sound(Absorb(st, b).value)
  {
  }

  /** The bytes of the packets are the stream. */
  function Bytes(st: seq<Packet>): seq<nat> {
    if st == [] then [] else Bytes(st[..|st| - 1]) + st[|st| - 1].hdr + st[|st| - 1].data
  }

  lemma LastBytes(st: seq<Packet>, p: Packet)
    requires st != []
    ensures Bytes(WithLast(st, p)) == Bytes(st[..|st| - 1]) + p.hdr + p.data
  {
    assert WithLast(st, p)[..|st| - 1] == st[..|st| - 1];
  }

  lemma OpenedBytes(st: seq<Packet>)
    ensures Bytes(Opened(st)) == Bytes(st)
  {
    if Opened(st) != st { assert Opened(st)[..|st|] == st; }
  }

  lemma AbsorbBytes(st: seq<Packet>, b: nat)
    requires Sound(st) && Absorb(st, b).Some?
    ensures Bytes(Absorb(st, b).value) == Bytes(st) + [b]
  {
    var o := Opened(st);
    var p := o[|o| - 1];
    OpenedBytes(st);
    LastBytes(o, p.(hdr := p.hdr + [b]));
    LastBytes(o, p.(data := p.data + [b]));
    assert |p.hdr| < HEADER_SIZE ==> p.data == [];
    hide Sound, Complete, Oversized;
    assert Bytes(o) == Bytes(o[..|o| - 1]) + p.hdr + p.data;
    hide Bytes;
    assert Bytes(o[..|o| - 1]) + p.hdr + (p.data + [b]) == Bytes(o) + [b];
    assert Bytes(o[..|o| - 1]) + (p.hdr + [b]) + [] == Bytes(o[..|o| - 1]) + p.hdr + [] + [b];
  }

  /** The packets are sound and hold just these bytes. */
  predicate Holds(st: seq<Packet>, bytes: seq<nat>) {
    Sound(st) && Bytes(st) == bytes
  }

  lemma HoldsNext(st: seq<Packet>, bytes: seq<nat>, b: nat)
    requires Holds(st, bytes) && Absorb(st, b).Some?
    ensures Holds(Absorb(st, b).value, bytes + [b])
  {
    hide Sound, Bytes, Absorb;
    AbsorbSound(st, b);
    AbsorbBytes(st, b);
  }

  /** What was received is exactly what was sent, cut into whole messages and one partial one. */
  lemma {:induction false} NothingLost(bytes: seq<nat>)
    requires AbsorbAll([], bytes).Some?
    ensures Holds(AbsorbAll([], bytes).value, bytes)
  {
    if bytes != [] {
      var rest, b := bytes[..|bytes| - 1], bytes[|bytes| - 1];
      NothingLost(rest);
      hide Holds, Absorb;
      HoldsNext(AbsorbAll([], rest).value, rest, b);
      assert bytes == rest + [b];
    }
  }

  // ---------------------------------------------------------------- several bytes at once

  lemma LastTwice(st: seq<Packet>, p: Packet, q: Packet)
    requires st != []
    ensures WithLast(WithLast(st, p), q) == WithLast(st, q) && WithLast(st, p)[|st| - 1] == p
  {
  }

  /** Header bytes up to the end of the header go to the last packet together. */
  lemma {:induction false} HeaderRun(st: seq<Packet>, bytes: seq<nat>)
    requires st != [] && |st[|st| - 1].hdr| < HEADER_SIZE && |st[|st| - 1].hdr| + |bytes| <= HEADER_SIZE
    ensures var p := st[|st| - 1]; var q := p.(hdr := p.hdr + bytes);
      AbsorbAll(st, bytes) == if Oversized(q) then None else Some(WithLast(st, q))
  {
    var p := st[|st| - 1];
    if bytes == [] {
      assert p.hdr + bytes == p.hdr && WithLast(st, p) == st;
    } else {
      var rest, b := bytes[..|bytes| - 1], bytes[|bytes| - 1];
      HeaderRun(st, rest);
      assert p.hdr + bytes == p.hdr + rest + [b];
      LastTwice(st, p.(hdr := p.hdr + rest), p.(hdr := p.hdr + bytes));
    }
  }

  /** Data bytes up to the end of the message go to the last packet together. */
  lemma {:induction false} DataRun(st: seq<Packet>, bytes: seq<nat>)
    requires st != [] && |st[|st| - 1].hdr| == HEADER_SIZE && |st[|st| - 1].data| + |bytes| <= MessageSize(st[|st| - 1].hdr)
    ensures var p := st[|st| - 1]; AbsorbAll(st, bytes) == Some(WithLast(st, p.(data := p.data + bytes)))
  {
    var p := st[|st| - 1];
    if bytes == [] {
      assert p.data + bytes == p.data && WithLast(st, p) == st;
    } else {
      var rest, b := bytes[..|bytes| - 1], bytes[|bytes| - 1];
      DataRun(st, rest);
      assert p.data + bytes == p.data + rest + [b];
      LastTwice(st, p.(data := p.data + rest), p.(data := p.data + bytes));
    }
  }

  /** Opening the next packet early changes nothing for the bytes that follow. */
  lemma {:induction false} OpenFirst(st: seq<Packet>, bytes: seq<nat>)
    requires bytes != []
    ensures AbsorbAll(Opened(st), bytes) == AbsorbAll(st, bytes)
  {
    if |bytes| > 1 {
      OpenFirst(st, bytes[..|bytes| - 1]);
    } else {
      assert bytes[..0] == [];
      assert !Complete(Packet([], []));
    }
  }

  // ---------------------------------------------------------------- runs over chunks

  /** The chunks one after the other. */
  function Joined(chunks: seq<seq<nat>>): seq<nat> {
    if chunks == [] then [] else Joined(chunks[..|chunks| - 1]) + chunks[|chunks| - 1]
  }

  /** What a node is left with when it receives the chunks one by one. */
  function Received(chunks: seq<seq<nat>>): Option<seq<Packet>> {
    if chunks == [] then Some([])
    else
      match Received(chunks[..|chunks| - 1])
      case None => None
      case Some(st) => AbsorbAll(st, chunks[|chunks| - 1])
  }

  lemma {:induction false} ReceivedIsStream(chunks: seq<seq<nat>>)
    ensures Received(chunks) == AbsorbAll([], Joined(chunks))
  {
    if chunks != [] {
      ReceivedIsStream(chunks[..|chunks| - 1]);
      AbsorbParts([], Joined(chunks[..|chunks| - 1]), chunks[|chunks| - 1]);
    }
  }

  /** How the stream is cut makes no difference: both ways fail, or both leave the same complete
      messages and the same part of the last one, and no byte is lost. */
  lemma ChunkingIndependent(a: seq<seq<nat>>, b: seq<seq<nat>>)
    requires Joined(a) == Joined(b)
    ensures Received(a) == Received(b)
    ensures Received(a).Some? ==> Holds(Received(a).value, Joined(a))
  {
    ReceivedIsStream(a);
    ReceivedIsStream(b);
    if Received(a).Some? { NothingLost(Joined(a)); }
  }
}
