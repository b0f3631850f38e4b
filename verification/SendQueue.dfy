/** The sending end of a peer connection: a queue of buffers, the first partly sent. The socket takes
    as many bytes as it likes of each, fails, or is gone. */
module SendQueue {

  import opened Basics
  import opened Framing

  function Flat(q: seq<seq<nat>>): seq<nat> {
    if q == [] then [] else q[0] + Flat(q[1..])
  }

  function Total(q: seq<seq<nat>>): nat {
    if q == [] then 0 else |q[0]| + Total(q[1..])
  }

  lemma {:induction false} FlatSnoc(q: seq<seq<nat>>, d: seq<nat>)
    ensures Flat(q + [d]) == Flat(q) + d && Total(q + [d]) == Total(q) + |d|
  {
    if q == [] {
      assert q + [d] == [d] && [d][1..] == [];
    } else {
      assert (q + [d])[1..] == q[1..] + [d];
      FlatSnoc(q[1..], d);
    }
  }

  /** Sent bytes, then the unsent part of the queue, are all the bytes ever pushed; the queue holds no
      empty buffer, and the first is not sent whole. */
  ghost predicate Queued(q: seq<seq<nat>>, offset: nat, sent: seq<nat>, pushed: seq<nat>) {
    && (forall i :: 0 <= i < |q| ==> q[i] != [])
    && (if q == [] then offset == 0 else offset < |q[0]|)
    && offset <= |Flat(q)| && pushed == sent + Flat(q)[offset..]
  }

  lemma QueuedPush(q: seq<seq<nat>>, offset: nat, sent: seq<nat>, pushed: seq<nat>, d: seq<nat>)
    requires Queued(q, offset, sent, pushed) && d != []
    ensures Queued(q + [d], offset, sent, pushed + d)
  {
    FlatSnoc(q, d);
    assert Flat(q + [d])[offset..] == Flat(q)[offset..] + d;
    assert q != [] ==> (q + [d])[0] == q[0];
  }

  /** Bytes taken from the first buffer move from the queue to what was sent. */
  lemma QueuedSend(q: seq<seq<nat>>, offset: nat, sent: seq<nat>, pushed: seq<nat>, n: nat)
    requires q != [] && Queued(q, offset, sent, pushed) && 0 < n <= |q[0]| - offset
    ensures var now := sent + q[0][offset..offset + n];
      if offset + n == |q[0]| then Queued(q[1..], 0, now, pushed) else Queued(q, offset + n, now, pushed)
  {
    var f := Flat(q);
    assert f == q[0] + Flat(q[1..]);
    assert f[offset..offset + n] == q[0][offset..offset + n];
    assert f[offset..] == f[offset..offset + n] + f[offset + n..];
    if offset + n == |q[0]| {
      assert f[offset + n..] == Flat(q[1..]) == Flat(q[1..])[0..];
    }
  }

  lemma QueuedFirst(q: seq<seq<nat>>, offset: nat, sent: seq<nat>, pushed: seq<nat>)
    requires q != [] && Queued(q, offset, sent, pushed)
    ensures offset < |q[0]| && Total(q) == |q[0]| + Total(q[1..])
  {
  }

  /** What the socket answers to each call, by the number of bytes it is offered. */
  type Socket = (nat, nat) -> int

  ghost predicate AtMostOffered(socket: Socket) {
    forall call: nat, n: nat :: socket(call, n) <= n
  }

  ghost predicate TakesAll(socket: Socket) {
    forall call: nat, n: nat :: socket(call, n) == n
  }

  /** What is sent is what the first call takes, and more only after it took everything. */
  ghost predicate FirstTaken(socket: Socket, rest: nat, size: int) {
    if socket(0, rest) < rest then size == Max(0, socket(0, rest)) else size >= rest
  }

  lemma FirstOrMore(socket: Socket, call: nat, rest: nat, size: nat, taken: int)
    requires if call == 0 then size == 0 && taken == socket(0, rest) else FirstTaken(socket, rest, size)
    requires call > 0 ==> socket(0, rest) >= rest
    ensures FirstTaken(socket, rest, size + Max(0, taken))
  {
  }

  /** So many bytes of a buffer, from an offset, were sent. */
  ghost predicate Taken(before: seq<nat>, now: seq<nat>, data: seq<nat>, offset: nat, n: nat) {
    offset + n <= |data| && now == before + data[offset..offset + n]
  }

  /** So many bytes were added at the end. */
  ghost predicate Grown(before: seq<nat>, now: seq<nat>, n: int) { before <= now && |now| == |before| + n }

  lemma TakesGrow(before: seq<nat>, data: seq<nat>, offset: nat, n: nat)
    requires offset + n <= |data|
    ensures var now := before + data[offset..offset + n]; Taken(before, now, data, offset, n) && Grown(before, now, n)
    ensures n == 0 ==> before + data[offset..offset + n] == before
  {
  }

  lemma GrownMore(a: seq<nat>, b: seq<nat>, c: seq<nat>, n: int, k: int)
    requires Grown(a, b, n) && Grown(b, c, k)
    ensures Grown(a, c, n + k)
  {
  }

  lemma GrownIs(a: seq<nat>, b: seq<nat>, n: int)
    requires Grown(a, b, n)
    ensures a <= b && n == |b| - |a|
  {
  }

  class Sender {
    var vSendMsg: seq<seq<nat>>
    var nSendOffset: nat
    var nSendSize: int
    var nSendBytes: nat
    var fPauseSend: bool
    const nSendBufferMaxSize: nat
    ghost var sent: seq<nat>
    ghost var pushed: seq<nat>

    /** Nothing is lost or sent twice, the counters are exact, and sending pauses exactly while the queue
        is over its limit. */
    ghost predicate Keeps(q: seq<seq<nat>>)
      reads this
    {
      && Queued(q, nSendOffset, sent, pushed) && nSendSize == Total(q)
      && nSendBytes == |sent| && (fPauseSend <==> nSendSize > nSendBufferMaxSize)
    }

    ghost predicate Valid()
      reads this
    {
      Keeps(vSendMsg)
    }

    constructor (maxSize: nat)
      ensures Valid() && sent == pushed == [] && vSendMsg == []
    {
      vSendMsg, nSendOffset, nSendSize, nSendBytes, fPauseSend := [], 0, 0, 0, false;
      nSendBufferMaxSize := maxSize;
      sent, pushed := [], [];
    }

    /** Sends what the socket takes, buffer after buffer, until one is not taken whole. Finished buffers
        leave the queue at the end; a socket that takes all it is offered leaves none. */
    method SocketSendData(socket: Socket) returns (nSentSize: nat)
      requires Valid() && AtMostOffered(socket)
      modifies this
      ensures Valid() && pushed == old(pushed) && old(sent) <= sent
      ensures nSentSize == |sent| - |old(sent)|
      ensures TakesAll(socket) ==> vSendMsg == [] && sent == pushed
      ensures old(vSendMsg) != [] ==> FirstTaken(socket, |old(vSendMsg)[0]| - old(nSendOffset), nSentSize)
    {
      nSentSize := 0;
      var nMsgCount := 0;
      assert vSendMsg[0..] == vSendMsg;
      hide TakesAll, AtMostOffered, FirstTaken, Grown, Taken;
      ghost var rest := if vSendMsg == [] then 0 else |vSendMsg[0]| - nSendOffset;
      hide Queued, Total, Keeps;
      while nMsgCount < |vSendMsg|
        invariant 0 <= nMsgCount <= |vSendMsg| && vSendMsg == old(vSendMsg) && pushed == old(pushed)
        invariant Keeps(vSendMsg[nMsgCount..]) && Grown(old(sent), sent, nSentSize)
        invariant if nMsgCount == 0 then nSentSize == 0 && nSendOffset == old(nSendOffset)
                  else socket(0, rest) >= rest && FirstTaken(socket, rest, nSentSize)
      {
        ghost var before := sent;
        assert vSendMsg[nMsgCount..][1..] == vSendMsg[nMsgCount + 1..];
        var nBytes, whole := Send(socket, nMsgCount, vSendMsg[nMsgCount], vSendMsg[nMsgCount..]);
        FirstOrMore(socket, nMsgCount, rest, nSentSize, nBytes);
        GrownMore(old(sent), before, sent, nSentSize, Max(0, nBytes));
        if nBytes <= 0 { break; }
        nSentSize := nSentSize + nBytes;
        if !whole { break; }
        nMsgCount := nMsgCount + 1;
      }
      vSendMsg := vSendMsg[nMsgCount..];
      GrownIs(old(sent), sent, nSentSize);
      if vSendMsg == [] {
        SentAll();
        assert nSendOffset == 0 && nSendSize == 0;
      }
    }

    lemma SentAll()
      requires Keeps([])
      ensures nSendOffset == 0 && nSendSize == 0 && sent == pushed
    {
    }

    /** The socket takes some of the rest of a buffer, or nothing; a buffer taken whole is accounted for. */
    method Send(socket: Socket, call: nat, data: seq<nat>, ghost q: seq<seq<nat>>) returns (nBytes: int, whole: bool)
      requires AtMostOffered(socket) && q != [] && q[0] == data && Keeps(q)
      modifies `nSendBytes, `nSendOffset, `sent, `nSendSize, `fPauseSend
      ensures old(nSendOffset) < |data| && nBytes == socket(call, |data| - old(nSendOffset)) <= |data| - old(nSendOffset)
      ensures (whole <==> nBytes == |data| - old(nSendOffset)) && (TakesAll(socket) ==> whole)
      ensures Taken(old(sent), sent, data, old(nSendOffset), Max(0, nBytes))
      ensures Grown(old(sent), sent, Max(0, nBytes)) && Keeps(if whole then q[1..] else q)
    {
      hide Queued, Total, Grown, Taken;
      QueuedFirst(q, nSendOffset, sent, pushed);
      assert |data| > nSendOffset;
      nBytes, whole := socket(call, |data| - nSendOffset), false;
      TakesGrow(sent, data, nSendOffset, Max(0, nBytes));
      if nBytes <= 0 { return; }
      QueuedSend(q, nSendOffset, sent, pushed, nBytes);
      sent := sent + data[nSendOffset..nSendOffset + nBytes];
      nSendBytes := nSendBytes + nBytes;
      nSendOffset := nSendOffset + nBytes;
      if nSendOffset == |data| {
        whole := true;
        nSendOffset := 0;
        nSendSize := nSendSize - |data|;
        fPauseSend := nSendSize > nSendBufferMaxSize;
      }
    }

    /** Queues a message, its header first, and sends at once if nothing was waiting. */
    method PushMessage(socket: Socket, header: seq<nat>, data: seq<nat>) returns (nBytesSent: nat)
      requires Valid() && AtMostOffered(socket) && |header| == HEADER_SIZE
      modifies this
      ensures Valid() && pushed == old(pushed) + header + data && old(sent) <= sent
      ensures nBytesSent == |sent| - |old(sent)| && (old(vSendMsg) != [] ==> nBytesSent == 0)
      ensures old(vSendMsg) == [] && TakesAll(socket) ==> vSendMsg == [] && sent == pushed
    {
      nBytesSent := 0;
      var optimisticSend := vSendMsg == [];
      nSendSize := nSendSize + |data| + HEADER_SIZE;
      if nSendSize > nSendBufferMaxSize { fPauseSend := true; }
      QueuedPush(vSendMsg, nSendOffset, sent, pushed, header);
      FlatSnoc(vSendMsg, header);
      vSendMsg := vSendMsg + [header];
      pushed := pushed + header;
      if |data| > 0 {
        QueuedPush(vSendMsg, nSendOffset, sent, pushed, data);
        FlatSnoc(vSendMsg, data);
        vSendMsg := vSendMsg + [data];
        pushed := pushed + data;
      }
      hide Queued, Total;
      if optimisticSend { nBytesSent := SocketSendData(socket); }
    }
  }
}
