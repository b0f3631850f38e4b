/** The receiving and the sending end of a peer connection. */
module Net {

  import opened Basics
  import opened Framing

  const ALLOCATE_AHEAD: nat := 256 * 1024

  // ---------------------------------------------------------------- receiving

  /** A message being received: header buffer and data buffer with the number of bytes in each. The
      data buffer grows ahead of the data. */
  datatype Message = Message(inData: bool, hdrbuf: seq<nat>, nHdrPos: nat, vRecv: seq<nat>, nDataPos: nat)

  predicate ValidMessage(m: Message) {
    && |m.hdrbuf| == HEADER_SIZE && m.nHdrPos <= HEADER_SIZE && (m.inData <==> m.nHdrPos == HEADER_SIZE)
    && m.nDataPos <= |m.vRecv| <= m.nDataPos + ALLOCATE_AHEAD
    && |m.vRecv| <= if m.inData then MessageSize(m.hdrbuf) else 0
  }

  /** What was received of the message. */
  function View(m: Message): Packet
    requires ValidMessage(m)
  {
    Packet(m.hdrbuf[..m.nHdrPos], m.vRecv[..m.nDataPos])
  }

  predicate Accepted(m: Message) {
    ValidMessage(m) && (m.inData ==> MessageSize(m.hdrbuf) <= MAX_PROTOCOL_MESSAGE_LENGTH)
  }

  predicate AllValid(v: seq<Message>) {
    forall i :: 0 <= i < |v| ==> Accepted(v[i])
  }

  function Views(v: seq<Message>): seq<Packet>
    requires AllValid(v)
  {
    seq(|v|, i requires 0 <= i < |v| => View(v[i]))
  }

  const NEW_MESSAGE := Message(false, seq(HEADER_SIZE, _ => 0), 0, [], 0)

  predicate IsComplete(m: Message)
    requires ValidMessage(m)
  {
    m.inData && MessageSize(m.hdrbuf) == m.nDataPos
  }

  lemma ViewComplete(m: Message)
    requires ValidMessage(m)
    ensures IsComplete(m) <==> Complete(View(m))
  {
    if m.inData { assert m.hdrbuf[..HEADER_SIZE] == m.hdrbuf; }
  }

  /** Bytes for the header; a negative count rejects the message. */
  method ReadHeader(m: Message, pch: seq<nat>) returns (handled: int, n: Message)
    requires ValidMessage(m) && !m.inData && pch != []
    ensures handled == -1 || 0 < handled <= |pch|
    ensures handled > 0 ==> ValidMessage(n) && handled <= HEADER_SIZE - m.nHdrPos && View(n) == View(m).(hdr := View(m).hdr + pch[..handled])
    ensures handled == -1 ==> exists k :: 0 < k <= |pch| && k <= HEADER_SIZE - m.nHdrPos && Oversized(View(m).(hdr := View(m).hdr + pch[..k]))
  {
    var nCopy := Min(HEADER_SIZE - m.nHdrPos, |pch|);
    var pos := m.nHdrPos + nCopy;
    n := m.(hdrbuf := m.hdrbuf[..m.nHdrPos] + pch[..nCopy] + m.hdrbuf[pos..], nHdrPos := pos);
    assert n.hdrbuf[..pos] == m.hdrbuf[..m.nHdrPos] + pch[..nCopy];
    if pos < HEADER_SIZE { return nCopy, n; }
    assert n.hdrbuf[..HEADER_SIZE] == n.hdrbuf;
    if MessageSize(n.hdrbuf) > MAX_SIZE {
      assert Oversized(View(m).(hdr := View(m).hdr + pch[..nCopy]));
      return -1, n;
    }
    n := n.(inData := true);
    return nCopy, n;
  }

  /** Bytes for the data. */
  method ReadData(m: Message, pch: seq<nat>) returns (handled: nat, n: Message)
    requires ValidMessage(m) && m.inData && !IsComplete(m) && pch != []
    ensures 0 < handled <= |pch| && handled <= MessageSize(m.hdrbuf) - m.nDataPos
    ensures ValidMessage(n) && n.inData && n.hdrbuf == m.hdrbuf && View(n) == View(m).(data := View(m).data + pch[..handled])
  {
    var size := MessageSize(m.hdrbuf);
    var nCopy := Min(size - m.nDataPos, |pch|);
    var end := m.nDataPos + nCopy;
    var room := m.vRecv;
    if |room| < end {
      room := room + seq(Min(size, end + ALLOCATE_AHEAD) - |room|, _ => 0);
    }
    n := m.(vRecv := room[..m.nDataPos] + pch[..nCopy] + room[end..], nDataPos := end);
    assert n.vRecv[..end] == m.vRecv[..m.nDataPos] + pch[..nCopy];
    return nCopy, n;
  }

  lemma ViewsLast(v: seq<Message>, n: Message)
    requires v != [] && AllValid(v) && Accepted(n)
    ensures AllValid(v[|v| - 1 := n]) && Views(v[|v| - 1 := n]) == WithLast(Views(v), View(n))
  {
  }

  lemma ViewsOpened(v: seq<Message>)
    requires AllValid(v)
    ensures AllValid(v + [NEW_MESSAGE])
    ensures Views(if v == [] || IsComplete(v[|v| - 1]) then v + [NEW_MESSAGE] else v) == Opened(Views(v))
  {
    if v != [] { ViewComplete(v[|v| - 1]); }
  }

  lemma OversizedView(m: Message)
    requires ValidMessage(m)
    ensures Oversized(View(m)) <==> m.inData && MessageSize(m.hdrbuf) > MAX_PROTOCOL_MESSAGE_LENGTH
  {
    if m.inData { assert m.hdrbuf[..HEADER_SIZE] == m.hdrbuf; }
  }

  /** A packet with more bytes: of its header while that is not whole, else of its data. */
  function Fed(p: Packet, bytes: seq<nat>): Packet {
    if |p.hdr| < HEADER_SIZE then p.(hdr := p.hdr + bytes) else p.(data := p.data + bytes)
  }

  predicate Room(p: Packet, k: nat) {
    if |p.hdr| < HEADER_SIZE then |p.hdr| + k <= HEADER_SIZE
    else |p.hdr| == HEADER_SIZE && !Oversized(p) && |p.data| + k <= MessageSize(p.hdr)
  }

  function Last(st: seq<Packet>): Packet
    requires st != []
  {
    st[|st| - 1]
  }

  /** Bytes handled by the last, opened packet are bytes absorbed. */
  lemma Taken(st: seq<Packet>, bytes: seq<nat>)
    requires bytes != [] && Room(Last(Opened(st)), |bytes|)
    ensures var o := Opened(st); var q := Fed(Last(o), bytes);
      AbsorbAll(st, bytes) == if Oversized(q) then None else Some(WithLast(o, q))
  {
    OpenFirst(st, bytes);
    if |Last(Opened(st)).hdr| < HEADER_SIZE {
      HeaderRun(Opened(st), bytes);
    } else {
      DataRun(Opened(st), bytes);
    }
  }

  /** A stream that fails on some of its bytes fails. */
  lemma FailsEarly(st: seq<Packet>, bytes: seq<nat>, k: nat)
    requires k <= |bytes| && AbsorbAll(st, bytes[..k]).None?
    ensures AbsorbAll(st, bytes).None?
  {
    AbsorbParts(st, bytes[..k], bytes[k..]);
    assert bytes == bytes[..k] + bytes[k..];
  }

  /** How many messages are complete. */
  function Whole(st: seq<Packet>): nat {
    if st == [] then 0 else Whole(st[..|st| - 1]) + if Complete(st[|st| - 1]) then 1 else 0
  }

  lemma WholeTake(st: seq<Packet>, q: Packet)
    ensures Whole(WithLast(Opened(st), q)) == Whole(st) + if Complete(q) then 1 else 0
  {
    var o := Opened(st);
    assert WithLast(o, q)[..|o| - 1] == o[..|o| - 1];
    if o != st { assert o[..|o| - 1] == st; }
  }

  /** Bytes absorbed after the first pos are absorbed with them. */
  lemma Continued(st: seq<Packet>, mid: seq<Packet>, chunk: seq<nat>, pos: nat, end: nat)
    requires pos <= end <= |chunk| && AbsorbAll(st, chunk[..pos]) == Some(mid)
    ensures AbsorbAll(st, chunk[..end]) == AbsorbAll(mid, chunk[pos..][..end - pos])
  {
    assert chunk[..end] == chunk[..pos] + chunk[pos..end];
    assert chunk[pos..][..end - pos] == chunk[pos..end];
    hide AbsorbAll;
    AbsorbParts(st, chunk[..pos], chunk[pos..end]);
  }

  /** A message that is not complete takes as many bytes as belong to it. */
  method Feed(m: Message, pch: seq<nat>) returns (handled: int, n: Message)
    requires Accepted(m) && !IsComplete(m) && pch != []
    ensures handled == -1 || 0 < handled <= |pch|
    ensures handled > 0 ==> ValidMessage(n) && Room(View(m), handled) && View(n) == Fed(View(m), pch[..handled])
    ensures handled == -1 ==> exists k :: 0 < k <= |pch| && Room(View(m), k) && Oversized(Fed(View(m), pch[..k]))
  {
    if !m.inData {
      handled, n := ReadHeader(m, pch);
      if handled == -1 {
        ghost var k :| 0 < k <= |pch| && k <= HEADER_SIZE - m.nHdrPos && Oversized(View(m).(hdr := View(m).hdr + pch[..k]));
        assert Room(View(m), k) && Oversized(Fed(View(m), pch[..k]));
      }
    } else {
      assert m.hdrbuf[..HEADER_SIZE] == m.hdrbuf;
      handled, n := ReadData(m, pch);
    }
  }

  class Receiver {
    var vRecvMsg: seq<Message>
    var nRecvBytes: nat

    constructor ()
      ensures AllValid(vRecvMsg) && vRecvMsg == [] && nRecvBytes == 0
    {
      vRecvMsg, nRecvBytes := [], 0;
    }

    /** Makes sure the last message is one that is not complete. */
    method Open()
      requires AllValid(vRecvMsg)
      modifies `vRecvMsg
      ensures AllValid(vRecvMsg) && vRecvMsg != [] && !IsComplete(vRecvMsg[|vRecvMsg| - 1])
      ensures Views(vRecvMsg) == Opened(Views(old(vRecvMsg)))
    {
      ViewsOpened(vRecvMsg);
      if vRecvMsg == [] || IsComplete(vRecvMsg[|vRecvMsg| - 1]) { vRecvMsg := vRecvMsg + [NEW_MESSAGE]; }
    }

    /** Hands the last message as many bytes as it takes. */
    method Take(pch: seq<nat>) returns (handled: int, whole: bool)
      requires AllValid(vRecvMsg) && pch != []
      modifies `vRecvMsg
      ensures handled == -1 || 0 < handled <= |pch|
      ensures handled == -1 ==> AbsorbAll(Views(old(vRecvMsg)), pch).None?
      ensures handled > 0 ==> AllValid(vRecvMsg) && vRecvMsg != [] && AbsorbAll(Views(old(vRecvMsg)), pch[..handled]) == Some(Views(vRecvMsg))
      ensures handled > 0 ==> Whole(Views(vRecvMsg)) == Whole(Views(old(vRecvMsg))) + if whole then 1 else 0
    {
      ghost var st := Views(vRecvMsg);
      hide AbsorbAll, Opened, Oversized, Whole, Fed, Room, View, MessageSize, IsComplete;
      Open();
      ghost var open := vRecvMsg;
      var m := vRecvMsg[|vRecvMsg| - 1];
      assert Last(Opened(st)) == View(m);
      var n;
      handled, n := Feed(m, pch);
      if handled < 0 {
        ghost var k :| 0 < k <= |pch| && Room(View(m), k) && Oversized(Fed(View(m), pch[..k]));
        Taken(st, pch[..k]);
        FailsEarly(st, pch, k);
        return -1, false;
      }
      Taken(st, pch[..handled]);
      OversizedView(n);
      vRecvMsg := vRecvMsg[|vRecvMsg| - 1 := n];
      if n.inData && MessageSize(n.hdrbuf) > MAX_PROTOCOL_MESSAGE_LENGTH {
        FailsEarly(st, pch, handled);
        return -1, false;
      }
      ViewsLast(open, n);
      WholeTake(st, View(n));
      ViewComplete(n);
      whole := IsComplete(n);
    }

    /** The part of the chunk that the last message takes. */
    method ReceiveSome(chunk: seq<nat>, pos: nat, complete: bool, ghost st: seq<Packet>) returns (ok: bool, end: nat, c: bool)
      requires pos < |chunk| && AllValid(vRecvMsg) && Absorbed(st, chunk, pos, vRecvMsg, complete)
      modifies `vRecvMsg
      ensures !ok ==> Outcome(st, chunk, vRecvMsg, false, c)
      ensures ok ==> pos < end <= |chunk| && AllValid(vRecvMsg) && Absorbed(st, chunk, end, vRecvMsg, c)
    {
      hide Absorbed, AbsorbAll, Whole, Views, AllValid, Outcome;
      ghost var before := vRecvMsg;
      var handled, whole := Take(chunk[pos..]);
      if handled < 0 {
        AbsorbedFails(st, chunk, pos, before, vRecvMsg, complete);
        return false, pos, complete;
      }
      AbsorbedNext(st, chunk, pos, before, complete, handled, whole, vRecvMsg);
      return true, pos + handled, complete || whole;
    }

    /** A chunk off the wire: false rejects the peer; complete tells whether some message is whole now
        that was not before. */
    method ReceiveMsgBytes(chunk: seq<nat>) returns (ok: bool, complete: bool)
      requires AllValid(vRecvMsg)
      modifies this
      ensures nRecvBytes == old(nRecvBytes) + |chunk|
      ensures Outcome(Views(old(vRecvMsg)), chunk, vRecvMsg, ok, complete)
    {
      complete := false;
      nRecvBytes := nRecvBytes + |chunk|;
      var pos := 0;
      ghost var st := Views(vRecvMsg);
      hide Absorbed, AbsorbAll, Whole, Views, AllValid, Outcome;
      AbsorbedStart(vRecvMsg, chunk);
      while pos < |chunk|
        invariant 0 <= pos <= |chunk| && nRecvBytes == old(nRecvBytes) + |chunk|
        invariant AllValid(vRecvMsg) && Absorbed(st, chunk, pos, vRecvMsg, complete)
      {
        ok, pos, complete := ReceiveSome(chunk, pos, complete, st);
        if !ok { return false, complete; }
      }
      AbsorbedDone(st, chunk, vRecvMsg, complete);
      return true, complete;
    }
  }

  /** The result of a chunk: accepted exactly when its bytes are, with the messages they make; complete
      tells whether more of them are whole. */
  ghost predicate Outcome(st: seq<Packet>, chunk: seq<nat>, v: seq<Message>, ok: bool, complete: bool) {
    if ok then
      AllValid(v) && AbsorbAll(st, chunk) == Some(Views(v)) && (complete <==> Whole(Views(v)) > Whole(st))
    else AbsorbAll(st, chunk).None?
  }

  /** The first pos bytes of the chunk are in the messages v, and complete tells whether that made one
      whole. */
  ghost predicate Absorbed(st: seq<Packet>, chunk: seq<nat>, pos: nat, v: seq<Message>, complete: bool) {
    && pos <= |chunk| && AllValid(v) && AbsorbAll(st, chunk[..pos]) == Some(Views(v))
    && Whole(st) <= Whole(Views(v)) && (complete <==> Whole(Views(v)) > Whole(st))
  }

  lemma AbsorbedStart(v: seq<Message>, chunk: seq<nat>)
    requires AllValid(v)
    ensures Absorbed(Views(v), chunk, 0, v, false)
  {
    assert chunk[..0] == [];
  }

  lemma AbsorbedNext(st: seq<Packet>, chunk: seq<nat>, pos: nat, v: seq<Message>, complete: bool, handled: nat, whole: bool, w: seq<Message>)
    requires Absorbed(st, chunk, pos, v, complete) && AllValid(v) && AllValid(w) && 0 < handled <= |chunk| - pos
    requires AbsorbAll(Views(v), chunk[pos..][..handled]) == Some(Views(w))
    requires Whole(Views(w)) == Whole(Views(v)) + if whole then 1 else 0
    ensures Absorbed(st, chunk, pos + handled, w, complete || whole)
  {
    hide AbsorbAll, Whole;
    Continued(st, Views(v), chunk, pos, pos + handled);
  }

  lemma AbsorbedFails(st: seq<Packet>, chunk: seq<nat>, pos: nat, v: seq<Message>, w: seq<Message>, complete: bool)
    requires Absorbed(st, chunk, pos, v, complete) && AllValid(v) && AbsorbAll(Views(v), chunk[pos..]).None?
    ensures Outcome(st, chunk, w, false, complete)
  {
    hide AbsorbAll, Whole;
    Continued(st, Views(v), chunk, pos, |chunk|);
    assert chunk[pos..][..|chunk| - pos] == chunk[pos..] && chunk[..|chunk|] == chunk;
  }

  lemma AbsorbedDone(st: seq<Packet>, chunk: seq<nat>, v: seq<Message>, complete: bool)
    requires Absorbed(st, chunk, |chunk|, v, complete) && AllValid(v)
    ensures Outcome(st, chunk, v, true, complete)
  {
    assert chunk[..|chunk|] == chunk;
  }
}
