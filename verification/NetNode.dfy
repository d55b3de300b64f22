/** A peer connection as an object: messages being received chunk by chunk, and buffers
    being sent. */
module NetNode {
  import opened Basics
  import opened Framing

  const READ_AHEAD := 256 * 1024

  /** One message being received. */
  class NetMessage {
    var inData: bool
    var hdrbuf: seq<byte>
    var hdr: seq<byte>
    var nHdrPos: nat
    var vRecv: seq<byte>
    var nDataPos: nat
    var hashed: seq<byte>

    /** The buffer never outgrows the announced size, nor runs ahead of the data by more than 256 KiB. */
    ghost predicate Valid()
      reads this
    {
      && |hdrbuf| == HEADER_SIZE && nHdrPos <= HEADER_SIZE
      && (!inData ==> nDataPos == 0 && vRecv == [] && hashed == [])
      && (inData ==> hdr == hdrbuf && nHdrPos == HEADER_SIZE)
      && (inData ==> nDataPos <= |vRecv| <= SizeField(hdr) && |vRecv| <= nDataPos + READ_AHEAD)
      && (inData ==> hashed == vRecv[..nDataPos])
    }

    constructor ()
      ensures Valid() && !inData && nHdrPos == 0
    {
      inData, hdrbuf, hdr, nHdrPos := false, seq(HEADER_SIZE, _ => 0), [], 0;
      vRecv, nDataPos, hashed := [], 0, [];
    }

    predicate Complete()
      requires Valid()
      reads this
    {
      inData && SizeField(hdr) == nDataPos
    }

    ghost function Stage(): Stage
      requires Valid()
      reads this
    {
      if inData then InData(hdr, vRecv[..nDataPos]) else InHeader(hdrbuf[..nHdrPos])
    }

    ghost function Whole(): Message
      reads this
    {
      Message(hdr, vRecv)
    }

    /** Copies into the header. A whole header is examined: negative for an oversized message. */
    method ReadHeader(pch: seq<byte>) returns (handled: int)
      requires Valid() && !inData && nHdrPos < HEADER_SIZE && pch != []
      modifies this
      ensures Valid()
      ensures var n := if |pch| < HEADER_SIZE - old(nHdrPos) then |pch| else HEADER_SIZE - old(nHdrPos);
        var h := old(hdrbuf[..nHdrPos]) + pch[..n];
        && hdrbuf[..nHdrPos] == h
        && (|h| < HEADER_SIZE ==> !inData && handled == n)
        && (|h| == HEADER_SIZE ==> if SizeField(h) > MAX_SIZE then !inData && handled < 0
                                  else inData && hdr == h && nDataPos == 0 && vRecv == [] && handled == n)
    {
      var nRemaining := HEADER_SIZE - nHdrPos;
      var nCopy := if nRemaining < |pch| then nRemaining else |pch|;
      ghost var h := hdrbuf[..nHdrPos] + pch[..nCopy];
      hdrbuf := hdrbuf[..nHdrPos] + pch[..nCopy] + hdrbuf[nHdrPos + nCopy..];
      nHdrPos := nHdrPos + nCopy;
      assert hdrbuf[..nHdrPos] == h;
      if nHdrPos < HEADER_SIZE { return nCopy; }
      assert hdrbuf == h;
      hdr := hdrbuf;
      if SizeField(hdr) > MAX_SIZE { return -1; }
      inData := true;
      return nCopy;
    }

    /** Copies into the payload. */
    method ReadData(pch: seq<byte>) returns (handled: int)
      requires Valid() && inData && !Complete()
      modifies this
      ensures Valid() && inData && hdr == old(hdr)
      ensures 0 <= handled == if |pch| < SizeField(hdr) - old(nDataPos) then |pch| else SizeField(hdr) - old(nDataPos)
      ensures nDataPos == old(nDataPos) + handled
      ensures vRecv[..nDataPos] == old(vRecv[..nDataPos]) + pch[..handled]
      ensures Complete() ==> vRecv == vRecv[..nDataPos]
    {
      var size := SizeField(hdr);
      var nRemaining := size - nDataPos;
      var nCopy := if nRemaining < |pch| then nRemaining else |pch|;
      ghost var d := vRecv[..nDataPos];
      if |vRecv| < nDataPos + nCopy {
        var to := if size < nDataPos + nCopy + READ_AHEAD then size else nDataPos + nCopy + READ_AHEAD;
        vRecv := vRecv + seq(to - |vRecv|, _ => 0);
      }
      hashed := hashed + pch[..nCopy];
      vRecv := vRecv[..nDataPos] + pch[..nCopy] + vRecv[nDataPos + nCopy..];
      assert vRecv[..nDataPos + nCopy] == d + pch[..nCopy];
      nDataPos := nDataPos + nCopy;
      return nCopy;
    }
  }

  // Lists of messages

  ghost function Wholes(ms: seq<NetMessage>): (r: seq<Message>)
    reads ms
    ensures |r| == |ms|
  {
    if ms == [] then [] else Wholes(ms[..|ms| - 1]) + [ms[|ms| - 1].Whole()]
  }

  ghost predicate Distinct(ms: seq<NetMessage>) {
    forall i, j | 0 <= i < j < |ms| :: ms[i] != ms[j]
  }

  ghost predicate AllComplete(ms: seq<NetMessage>)
    reads ms
  {
    forall i | 0 <= i < |ms| :: ms[i].Valid() && ms[i].Complete()
  }

  class Node {
    var vRecvMsg: seq<NetMessage>
    var nRecvBytes: nat
    var vSendMsg: seq<seq<byte>>
    var nSendOffset: nat
    var nSendSize: nat
    var fPauseSend: bool
    var nSendBytes: nat
    const nSendBufferMaxSize: nat

    ghost predicate RecvValid()
      reads this`vRecvMsg, vRecvMsg
    {
      && Distinct(vRecvMsg)
      && (vRecvMsg != [] ==> AllComplete(vRecvMsg[..|vRecvMsg| - 1]) && Back().Valid())
    }

    ghost function Back(): NetMessage
      requires vRecvMsg != []
      reads this`vRecvMsg
    {
      vRecvMsg[|vRecvMsg| - 1]
    }

    /** What has been received, as the byte-at-a-time machine has it. */
    ghost function Received(): Inbox
      requires RecvValid()
      reads this`vRecvMsg, vRecvMsg
    {
      if vRecvMsg == [] || Back().Complete() then Inbox(Wholes(vRecvMsg), InHeader([]))
      else Inbox(Wholes(vRecvMsg[..|vRecvMsg| - 1]), Back().Stage())
    }

    /** Between calls the message at the back is not one that was given up. */
    ghost predicate Open()
      requires RecvValid()
      reads this`vRecvMsg, vRecvMsg
    {
      InboxOk(Received())
    }

    constructor (limit: nat)
      ensures vRecvMsg == [] && RecvValid() && Received() == EMPTY && Open()
      ensures nRecvBytes == 0 && Outgoing() == IDLE && nSendBufferMaxSize == limit
    {
      vRecvMsg, nRecvBytes := [], 0;
      vSendMsg, nSendOffset, nSendSize, fPauseSend, nSendBytes := [], 0, 0, false, 0;
      nSendBufferMaxSize := limit;
    }

    /** Takes a message to receive into: the incomplete one at the back or a new one. */
    method Current() returns (msg: NetMessage)
      requires RecvValid() && Open()
      modifies this`vRecvMsg
      ensures RecvValid() && Received() == old(Received())
      ensures vRecvMsg != [] && msg == Back() && !msg.Complete()
      ensures vRecvMsg == old(vRecvMsg) || (vRecvMsg == old(vRecvMsg) + [msg] && fresh(msg))
    {
      hide Wholes, AllComplete, Distinct;
      if vRecvMsg == [] || vRecvMsg[|vRecvMsg| - 1].Complete() {
        ghost var before := vRecvMsg;
        CompleteUpTo(before);
        msg := new NetMessage();
        NewBack(before, msg);
        vRecvMsg := vRecvMsg + [msg];
        assert vRecvMsg[..|vRecvMsg| - 1] == before;
      }
      msg := vRecvMsg[|vRecvMsg| - 1];
    }

    /** The back message absorbs part of a chunk; the oversized one is given up. */
    method AbsorbHeader(pch: seq<byte>) returns (ok: bool, handled: int)
      requires RecvValid() && Open() && vRecvMsg != [] && !Back().inData && pch != []
      modifies Back()
      ensures RecvValid() && Back().Valid()
      ensures ok ==> 0 < handled <= |pch| && Open() && Received() == Feed(old(Received()), pch[..handled])
      ensures !ok ==> Feed(old(Received()), pch) == Failed(Received().done)
      ensures ok ==> (Back().Complete() <==> |Received().done| > old(|Received().done|))
    {
      hide Wholes, AllComplete, Distinct, Feed;
      ghost var prefix := vRecvMsg[..|vRecvMsg| - 1];
      var msg := vRecvMsg[|vRecvMsg| - 1];
      ghost var h, done := msg.hdrbuf[..msg.nHdrPos], Wholes(prefix);
      ghost var k := if |pch| < HEADER_SIZE - |h| then |pch| else HEADER_SIZE - |h|;
      NotBefore(vRecvMsg);
      handled := msg.ReadHeader(pch);
      assert Wholes(prefix) == done && AllComplete(prefix);
      WholesLast(vRecvMsg);
      ok := handled >= 0 && !(msg.inData && SizeField(msg.hdr) > MAX_PROTOCOL_MESSAGE_LENGTH);
      HeaderAbsorbed(done, h, pch, k);
    }

    method AbsorbData(pch: seq<byte>) returns (ok: bool, handled: int)
      requires RecvValid() && Open() && vRecvMsg != [] && Back().inData && !Back().Complete() && pch != []
      modifies Back()
      ensures RecvValid() && Back().Valid()
      ensures ok ==> 0 < handled <= |pch| && Open() && Received() == Feed(old(Received()), pch[..handled])
      ensures !ok ==> Feed(old(Received()), pch) == Failed(Received().done)
      ensures ok ==> (Back().Complete() <==> |Received().done| > old(|Received().done|))
    {
      hide Wholes, AllComplete, Distinct, Feed;
      ghost var prefix := vRecvMsg[..|vRecvMsg| - 1];
      var msg := vRecvMsg[|vRecvMsg| - 1];
      ghost var h, d, done := msg.hdr, msg.vRecv[..msg.nDataPos], Wholes(prefix);
      NotBefore(vRecvMsg);
      handled := msg.ReadData(pch);
      assert Wholes(prefix) == done && AllComplete(prefix);
      WholesLast(vRecvMsg);
      ok := handled >= 0 && !(msg.inData && SizeField(msg.hdr) > MAX_PROTOCOL_MESSAGE_LENGTH);
      DataAbsorbed(done, h, d, pch, handled);
    }

    /** Receives a chunk of bytes, of any size, as if byte by byte; fails as soon as the header
        of an oversized message is in. */
    method ReceiveMsgBytes(pch: seq<byte>) returns (ok: bool, complete: bool)
      requires RecvValid() && Open()
      modifies this`vRecvMsg, this`nRecvBytes, vRecvMsg
      ensures RecvValid() && nRecvBytes == old(nRecvBytes) + |pch|
      ensures ok ==> Open() && Received() == Feed(old(Received()), pch)
      ensures !ok ==> Feed(old(Received()), pch) == Failed(Received().done)
      ensures ok ==> (complete <==> |Received().done| > old(|Received().done|))
      ensures forall m | m in vRecvMsg :: m in old(vRecvMsg) || fresh(m)
    {
      hide Wholes, AllComplete, Distinct, Feed, InboxOk, RecvValid, Received, NetMessage.Valid, NetMessage.Complete;
      complete := false;
      nRecvBytes := nRecvBytes + |pch|;
      var rest := pch;
      ghost var whole := Feed(Received(), pch);
      ghost var count := |Received().done|;
      while rest != []
        invariant RecvValid() && Open() && Feed(Received(), rest) == whole
        invariant count <= |Received().done| && (complete <==> |Received().done| > count)
        invariant forall m | m in vRecvMsg :: m in old(vRecvMsg) || fresh(m)
        invariant nRecvBytes == old(nRecvBytes) + |pch|
        decreases |rest|
      {
        var msg := Current();
        ghost var before := Received();
        var handled;
        assert msg in vRecvMsg;
        if !msg.inData {
          ok, handled := AbsorbHeader(rest);
        } else {
          ok, handled := AbsorbData(rest);
        }
        if !ok { return; }
        assert rest == rest[..handled] + rest[handled..];
        FeedAppend(before, rest[..handled], rest[handled..]);
        FeedGrows(before, rest[..handled]);
        rest := rest[handled..];
        if msg.Complete() { complete := true; }
      }
      FeedNothing(Received());
      ok := true;
    }

    // Sending

    ghost function Outgoing(): Queue
      reads this
    {
      Queue(vSendMsg, nSendOffset, nSendSize, fPauseSend, nSendBytes)
    }

    /** Offers queued buffers to the socket, whose answers are given; wire is what it took. */
    method SocketSendData(answers: seq<int>) returns (nSentSize: nat, wire: seq<byte>)
      requires QueueOk(Outgoing(), nSendBufferMaxSize)
      modifies this`vSendMsg, this`nSendOffset, this`nSendSize, this`fPauseSend, this`nSendBytes
      ensures Sending(Outgoing(), wire) == Sends(old(Outgoing()), nSendBufferMaxSize, answers, [])
      ensures QueueOk(Outgoing(), nSendBufferMaxSize)
      ensures nSentSize == nSendBytes - old(nSendBytes)
    {
      hide QueueOk, Sends, Popped;
      ghost var all := Sends(Outgoing(), nSendBufferMaxSize, answers, []);
      SendsOk(Outgoing(), nSendBufferMaxSize, answers);
      var it, k := 0, 0;
      nSentSize, wire := 0, [];
      assert vSendMsg[0..] == vSendMsg && answers[0..] == answers;
      while it < |vSendMsg| && k < |answers|
        invariant it <= |vSendMsg| && k <= |answers|
        invariant vSendMsg == old(vSendMsg) && nSentSize == nSendBytes - old(nSendBytes)
        invariant QueueOk(Outgoing().(bufs := vSendMsg[it..]), nSendBufferMaxSize)
        invariant Sends(Outgoing().(bufs := vSendMsg[it..]), nSendBufferMaxSize, answers[k..], wire) == all
        decreases |answers| - k
      {
        ghost var q := Outgoing().(bufs := vSendMsg[it..]);
        FirstBuffer(q, nSendBufferMaxSize);
        SendsCases(q, nSendBufferMaxSize, answers[k..], wire);
        var data := vSendMsg[it];
        assert data == q.bufs[0] && vSendMsg[it + 1..] == q.bufs[1..] && answers[k + 1..] == answers[k..][1..];
        assert |data| > nSendOffset;
        var nBytes := Taken(answers[k], |data| - nSendOffset);
        if nBytes <= 0 {
          vSendMsg := vSendMsg[it..];
          return;
        }
        wire := wire + data[nSendOffset..nSendOffset + nBytes];
        nSendBytes := nSendBytes + nBytes;
        nSendOffset := nSendOffset + nBytes;
        nSentSize := nSentSize + nBytes;
        if nSendOffset < |data| {
          vSendMsg := vSendMsg[it..];
          return;
        }
        nSendOffset := 0;
        nSendSize := nSendSize - |data|;
        fPauseSend := nSendSize > nSendBufferMaxSize;
        it, k := it + 1, k + 1;
        PoppedIs(q, nSendBufferMaxSize);
      }
      SendsNone(Outgoing().(bufs := vSendMsg[it..]), nSendBufferMaxSize, answers[k..], wire);
      vSendMsg := vSendMsg[it..];
    }

    /** Queues a message. If nothing was queued before, sending is tried at once. */
    method PushMessage(net: Network, command: seq<byte>, data: seq<byte>, answers: seq<int>) returns (wire: seq<byte>)
      requires Proper(net) && QueueOk(Outgoing(), nSendBufferMaxSize)
      modifies this`vSendMsg, this`nSendOffset, this`nSendSize, this`fPauseSend, this`nSendBytes
      ensures QueueOk(Outgoing(), nSendBufferMaxSize)
      ensures var q := Enqueue(old(Outgoing()), nSendBufferMaxSize, Header(net, command, data), data);
        && QueueOk(q, nSendBufferMaxSize)
        && Sending(Outgoing(), wire) ==
          if old(vSendMsg) == [] then Sends(q, nSendBufferMaxSize, answers, []) else Sending(q, [])
    {
      hide QueueOk, Header;
      HeaderSize(net, command, data);
      EnqueueKeeps(Outgoing(), nSendBufferMaxSize, Header(net, command, data), data);
      var nTotalSize := |data| + HEADER_SIZE;
      var serializedHeader := Header(net, command, data);
      var optimisticSend := vSendMsg == [];
      nSendSize := nSendSize + nTotalSize;
      if nSendSize > nSendBufferMaxSize { fPauseSend := true; }
      vSendMsg := vSendMsg + [serializedHeader];
      if |data| > 0 { vSendMsg := vSendMsg + [data]; }
      assert vSendMsg == old(vSendMsg) + (if data == [] then [serializedHeader] else [serializedHeader, data]);
      wire := [];
      if optimisticSend {
        var nBytesSent;
        nBytesSent, wire := SocketSendData(answers);
      }
    }
  }

  lemma SendsOk(q: Queue, limit: nat, answers: seq<int>)
    requires QueueOk(q, limit)
    ensures QueueOk(Sends(q, limit, answers, []).queue, limit)
  {
    SendsKeeps(q, limit, answers, []);
  }

  lemma SendsCases(q: Queue, limit: nat, answers: seq<int>, wire: seq<byte>)
    requires QueueOk(q, limit) && q.bufs != [] && answers != []
    ensures var offered := |q.bufs[0]| - q.offset; var n := Taken(answers[0], offered);
      Sends(q, limit, answers, wire) ==
        if n <= 0 then Sending(q, wire)
        else if n < offered then
          Sending(q.(offset := q.offset + n, sent := q.sent + n), wire + q.bufs[0][q.offset..q.offset + n])
        else
          Sends(Popped(q, limit), limit, answers[1..], wire + q.bufs[0][q.offset..q.offset + n])
  {
  }

  lemma SendsNone(q: Queue, limit: nat, answers: seq<int>, wire: seq<byte>)
    requires QueueOk(q, limit)
    ensures q.bufs == [] || answers == [] ==> Sends(q, limit, answers, wire) == Sending(q, wire)
  {
  }

  lemma PoppedIs(q: Queue, limit: nat)
    requires QueueOk(q, limit) && q.bufs != []
    ensures var size := q.size - |q.bufs[0]|;
      Popped(q, limit) == Queue(q.bufs[1..], 0, size, size > limit, q.sent + |q.bufs[0]| - q.offset)
  {
  }

  lemma FirstBuffer(q: Queue, limit: nat)
    requires QueueOk(q, limit) && q.bufs != []
    ensures q.offset < |q.bufs[0]| <= q.size
  {
  }

  lemma FeedNothing(s: Inbox)
    requires InboxOk(s)
    ensures Feed(s, []) == s
  {
  }

  lemma NotBefore(ms: seq<NetMessage>)
    requires Distinct(ms) && ms != []
    ensures ms[|ms| - 1] !in ms[..|ms| - 1]
  {
  }

  lemma WholesLast(ms: seq<NetMessage>)
    requires ms != []
    ensures Wholes(ms) == Wholes(ms[..|ms| - 1]) + [ms[|ms| - 1].Whole()]
  {
  }

  /** A chunk of which k bytes go into a header, the header then being whole or the chunk used up. */
  lemma HeaderAbsorbed(done: seq<Message>, h: seq<byte>, pch: seq<byte>, k: nat)
    requires |h| < HEADER_SIZE && k <= |pch| && |h| + k <= HEADER_SIZE
    ensures var s := Inbox(done, InHeader(h));
      && (|h| + k < HEADER_SIZE ==> Feed(s, pch[..k]) == Inbox(done, InHeader(h + pch[..k])))
      && (|h| + k == HEADER_SIZE ==> Feed(s, pch[..k]) == Opened(done, h + pch[..k]))
      && (Feed(s, pch[..k]).Failed? ==> Feed(s, pch) == Failed(done))
  {
    hide Feed;
    FeedHeader(done, h, pch[..k]);
    assert pch == pch[..k] + pch[k..];
    FeedAppend(Inbox(done, InHeader(h)), pch[..k], pch[k..]);
    FeedGrows(Feed(Inbox(done, InHeader(h)), pch[..k]), pch[k..]);
  }

  lemma DataAbsorbed(done: seq<Message>, h: seq<byte>, d: seq<byte>, pch: seq<byte>, k: nat)
    requires StageOk(InData(h, d)) && k <= |pch| && |d| + k <= SizeField(h)
    ensures var s := Inbox(done, InData(h, d));
      && (|d| + k < SizeField(h) ==> Feed(s, pch[..k]) == Inbox(done, InData(h, d + pch[..k])))
      && (|d| + k == SizeField(h) ==> Feed(s, pch[..k]) == Inbox(done + [Message(h, d + pch[..k])], InHeader([])))
  {
    FeedData(done, h, d, pch[..k]);
  }

  lemma CompleteUpTo(ms: seq<NetMessage>)
    requires ms != [] ==> AllComplete(ms[..|ms| - 1]) && ms[|ms| - 1].Valid() && ms[|ms| - 1].Complete()
    ensures AllComplete(ms)
  {
    if ms != [] {
      assert ms == ms[..|ms| - 1] + [ms[|ms| - 1]];
      assert forall i | 0 <= i < |ms| - 1 :: ms[i] == ms[..|ms| - 1][i];
    }
  }

  lemma NewBack(ms: seq<NetMessage>, msg: NetMessage)
    requires Distinct(ms) && msg !in ms && msg.Valid() && !msg.inData && msg.nHdrPos == 0
    ensures Distinct(ms + [msg]) && msg.Stage() == InHeader([])
  {
  }
}
