/** Message framing on a peer connection: what is written for a message, the queue of
    buffers waiting for the socket, and the receiver as a machine fed one byte at a time. */
module Framing {
  import opened Basics
  import opened Powers

  const MESSAGE_START_SIZE := 4
  const COMMAND_SIZE := 12
  const HEADER_SIZE := 24
  const MAX_SIZE := 0x0200_0000
  const MAX_PROTOCOL_MESSAGE_LENGTH := 4 * 1000 * 1000

  /** A received or sent message: its 24 header bytes and its payload. */
  datatype Message = Message(header: seq<byte>, data: seq<byte>)

  // Headers

  function LittleEndian(n: nat): (r: seq<byte>)
    ensures |r| == 4
  {
    [n % 256, (n / 0x100) % 256, (n / 0x1_0000) % 256, (n / 0x100_0000) % 256]
  }

  function Word(a: nat, b: nat, c: nat, d: nat): nat {
    a + 0x100 * b + 0x1_0000 * c + 0x100_0000 * d
  }

  /** The announced payload size, at offset 16 in little-endian order. */
  function SizeField(header: seq<byte>): nat
    requires |header| == HEADER_SIZE
  {
    Word(header[16], header[17], header[18], header[19])
  }

  /** A command as a C string: up to its first zero. */
  function Terminated(command: seq<byte>): seq<byte> {
    if command == [] || command[0] == 0 then [] else [command[0]] + Terminated(command[1..])
  }

  /** The command field: twelve bytes, cut off or padded with zeroes. */
  function CommandField(command: seq<byte>): (r: seq<byte>)
    ensures |r| == COMMAND_SIZE
  {
    var c := Terminated(command);
    if |c| >= COMMAND_SIZE then c[..COMMAND_SIZE] else c + seq(COMMAND_SIZE - |c|, _ => 0)
  }

  /** What fixes the header of a message: the network's start bytes and the checksum of a payload. */
  datatype Network = Network(start: seq<byte>, checksum: seq<byte> -> seq<byte>)

  ghost predicate Proper(net: Network) {
    |net.start| == MESSAGE_START_SIZE && forall d :: |net.checksum(d)| == 4
  }

  function Header(net: Network, command: seq<byte>, data: seq<byte>): seq<byte> {
    net.start + CommandField(command) + LittleEndian(|data|) + net.checksum(data)
  }

  lemma HeaderSize(net: Network, command: seq<byte>, data: seq<byte>)
    requires Proper(net)
    ensures |Header(net, command, data)| == HEADER_SIZE
    ensures |data| < 0x1_0000_0000 ==> SizeField(Header(net, command, data)) == |data|
  {
    var h, size := Header(net, command, data), LittleEndian(|data|);
    assert h[16] == size[0] && h[17] == size[1] && h[18] == size[2] && h[19] == size[3];
    WordOfSize(|data|);
  }

  /** A command field read back: its bytes up to the first zero, at most twelve. */
  lemma {:induction false} TerminatedIs(c: seq<byte>, zeroes: seq<byte>)
    requires (forall i | 0 <= i < |c| :: c[i] != 0) && (zeroes == [] || zeroes[0] == 0)
    ensures Terminated(c + zeroes) == c
    decreases |c|
  {
    if c == [] {
      assert c + zeroes == zeroes;
    } else {
      assert (c + zeroes)[1..] == c[1..] + zeroes;
      TerminatedIs(c[1..], zeroes);
    }
  }

  lemma {:induction false} TerminatedClean(c: seq<byte>)
    ensures forall i | 0 <= i < |Terminated(c)| :: Terminated(c)[i] != 0
  {
    if c != [] && c[0] != 0 { TerminatedClean(c[1..]); }
  }

  /** What each field of a header holds: the start bytes, the command as far as it fits, the size and the checksum. */
  lemma HeaderFields(net: Network, command: seq<byte>, data: seq<byte>)
    requires Proper(net)
    ensures var h, c := Header(net, command, data), Terminated(command);
      && |h| == HEADER_SIZE && h[..4] == net.start && h[20..] == net.checksum(data)
      && Terminated(h[4..16]) == (if |c| > COMMAND_SIZE then c[..COMMAND_SIZE] else c)
  {
    hide Terminated;
    var h, c, f := Header(net, command, data), Terminated(command), CommandField(command);
    assert h[4..16] == f;
    TerminatedClean(command);
    if |c| >= COMMAND_SIZE {
      assert f + [] == f;
      TerminatedIs(f, []);
    } else {
      TerminatedIs(c, seq(COMMAND_SIZE - |c|, _ => 0));
    }
  }

  lemma WordOfSize(n: nat)
    ensures n < 0x1_0000_0000 ==> Word(n % 256, (n / 0x100) % 256, (n / 0x1_0000) % 256, (n / 0x100_0000) % 256) == n
  {
    var n1, r0 := n / 0x100, n % 0x100;
    var n2, r1 := n1 / 0x100, n1 % 0x100;
    var n3, r2 := n2 / 0x100, n2 % 0x100;
    DivisionUnique(n, 0x1_0000, n2, 0x100 * r1 + r0);
    DivisionUnique(n, 0x100_0000, n3, 0x1_0000 * r2 + 0x100 * r1 + r0);
    if n < 0x1_0000_0000 { DivisionUnique(n3, 0x100, 0, n3); }
  }

  // The receiver, one byte at a time

  datatype Stage = InHeader(bytes: seq<byte>) | InData(header: seq<byte>, data: seq<byte>)

  /** Completed messages and the one being received, or the messages completed before the
      connection was given up. */
  datatype Inbox = Inbox(done: seq<Message>, stage: Stage) | Failed(done: seq<Message>)

  const EMPTY: Inbox := Inbox([], InHeader([]))

  ghost predicate StageOk(stage: Stage) {
    match stage
    case InHeader(bytes) => |bytes| < HEADER_SIZE
    case InData(header, data) => |header| == HEADER_SIZE && |data| < SizeField(header) <= MAX_PROTOCOL_MESSAGE_LENGTH
  }

  ghost predicate InboxOk(s: Inbox) { s.Inbox? ==> StageOk(s.stage) }

  /** The whole header is in. */
  function Opened(done: seq<Message>, header: seq<byte>): (s: Inbox)
    requires |header| == HEADER_SIZE
    ensures InboxOk(s)
  {
    if SizeField(header) > MAX_PROTOCOL_MESSAGE_LENGTH then Failed(done)
    else if SizeField(header) == 0 then Inbox(done + [Message(header, [])], InHeader([]))
    else Inbox(done, InData(header, []))
  }

  function FeedByte(s: Inbox, b: byte): (r: Inbox)
    requires InboxOk(s)
    ensures InboxOk(r)
  {
    if s.Failed? then s
    else
      match s.stage
      case InHeader(bytes) =>
        if |bytes| + 1 < HEADER_SIZE then Inbox(s.done, InHeader(bytes + [b])) else Opened(s.done, bytes + [b])
      case InData(header, data) =>
        if |data| + 1 < SizeField(header) then Inbox(s.done, InData(header, data + [b]))
        else Inbox(s.done + [Message(header, data + [b])], InHeader([]))
  }

  function Feed(s: Inbox, bytes: seq<byte>): (r: Inbox)
    requires InboxOk(s)
    ensures InboxOk(r)
    decreases |bytes|
  {
    if bytes == [] then s else Feed(FeedByte(s, bytes[0]), bytes[1..])
  }

  /** How a byte stream is cut into chunks does not matter. */
  lemma {:induction false} FeedAppend(s: Inbox, a: seq<byte>, b: seq<byte>)
    requires InboxOk(s)
    ensures Feed(Feed(s, a), b) == Feed(s, a + b)
    decreases |a|
  {
    if a == [] {
      assert a + b == b;
    } else {
      assert (a + b)[1..] == a[1..] + b;
      FeedAppend(FeedByte(s, a[0]), a[1..], b);
    }
  }

  /** A chunk that stays within the header only extends it. */
  lemma {:induction false} FeedHeader(done: seq<Message>, h: seq<byte>, bytes: seq<byte>)
    requires |h| < HEADER_SIZE && |h| + |bytes| <= HEADER_SIZE
    ensures |h| + |bytes| < HEADER_SIZE ==> Feed(Inbox(done, InHeader(h)), bytes) == Inbox(done, InHeader(h + bytes))
    ensures |h| + |bytes| == HEADER_SIZE ==> Feed(Inbox(done, InHeader(h)), bytes) == Opened(done, h + bytes)
    decreases |bytes|
  {
    if bytes == [] {
      assert h + bytes == h;
    } else {
      assert (h + [bytes[0]]) + bytes[1..] == h + bytes;
      if |h| + 1 < HEADER_SIZE {
        FeedHeader(done, h + [bytes[0]], bytes[1..]);
      } else {
        assert bytes == [bytes[0]];
      }
    }
  }

  /** A chunk that stays within the payload only extends it. */
  lemma {:induction false} FeedData(done: seq<Message>, h: seq<byte>, d: seq<byte>, bytes: seq<byte>)
    requires StageOk(InData(h, d)) && |d| + |bytes| <= SizeField(h)
    ensures |d| + |bytes| < SizeField(h) ==> Feed(Inbox(done, InData(h, d)), bytes) == Inbox(done, InData(h, d + bytes))
    ensures |d| + |bytes| == SizeField(h) ==>
      Feed(Inbox(done, InData(h, d)), bytes) == Inbox(done + [Message(h, d + bytes)], InHeader([]))
    decreases |bytes|
  {
    if bytes == [] {
      assert d + bytes == d;
    } else {
      assert (d + [bytes[0]]) + bytes[1..] == d + bytes;
      if |d| + 1 < SizeField(h) {
        FeedData(done, h, d + [bytes[0]], bytes[1..]);
      } else {
        assert bytes == [bytes[0]];
      }
    }
  }

  /** A frame, received between messages, is received as the message. */
  lemma FeedFrame(done: seq<Message>, header: seq<byte>, data: seq<byte>)
    requires |header| == HEADER_SIZE && SizeField(header) == |data| <= MAX_PROTOCOL_MESSAGE_LENGTH
    ensures Feed(Inbox(done, InHeader([])), header + data) == Inbox(done + [Message(header, data)], InHeader([]))
  {
    hide Feed, SizeField;
    FeedHeader(done, [], header);
    assert [] + header == header;
    if data == [] {
      assert header + data == header;
    } else {
      FeedAppend(Inbox(done, InHeader([])), header, data);
      FeedData(done, header, [], data);
      assert [] + data == data;
    }
  }

  /** A header that announces too much ends the connection, whatever follows it. */
  lemma OversizeRefused(done: seq<Message>, header: seq<byte>, rest: seq<byte>)
    requires |header| == HEADER_SIZE && SizeField(header) > MAX_PROTOCOL_MESSAGE_LENGTH
    ensures Feed(Inbox(done, InHeader([])), header + rest) == Failed(done)
  {
    hide Feed, SizeField;
    FeedHeader(done, [], header);
    assert [] + header == header;
    FeedAppend(Inbox(done, InHeader([])), header, rest);
    FeedGrows(Failed(done), rest);
  }

  /** Completed messages are never taken back, and a failure is final. */
  lemma {:induction false} FeedGrows(s: Inbox, bytes: seq<byte>)
    requires InboxOk(s)
    ensures s.done <= Feed(s, bytes).done
    ensures s.Failed? ==> Feed(s, bytes) == s
    decreases |bytes|
  {
    if bytes != [] { FeedGrows(FeedByte(s, bytes[0]), bytes[1..]); }
  }

  // The send queue

  /** Buffers waiting, how much of the first is gone, their total size, whether pushing should
      pause, and how many bytes the socket has taken. */
  datatype Queue = Queue(bufs: seq<seq<byte>>, offset: nat, size: nat, paused: bool, sent: nat)

  const IDLE: Queue := Queue([], 0, 0, false, 0)

  function Total(bufs: seq<seq<byte>>): nat {
    if bufs == [] then 0 else |bufs[0]| + Total(bufs[1..])
  }

  function Joined(bufs: seq<seq<byte>>): seq<byte> {
    if bufs == [] then [] else bufs[0] + Joined(bufs[1..])
  }

  ghost predicate QueueOk(q: Queue, limit: nat) {
    && (forall i | 0 <= i < |q.bufs| :: q.bufs[i] != [])
    && (if q.bufs == [] then q.offset == 0 else q.offset < |q.bufs[0]|)
    && q.size == Total(q.bufs)
    && (q.paused <==> q.size > limit)
  }

  lemma {:induction false} JoinedLength(bufs: seq<seq<byte>>)
    ensures |Joined(bufs)| == Total(bufs)
  {
    if bufs != [] { JoinedLength(bufs[1..]); }
  }

  lemma {:induction false} JoinedAppend(a: seq<seq<byte>>, b: seq<seq<byte>>)
    ensures Joined(a + b) == Joined(a) + Joined(b) && Total(a + b) == Total(a) + Total(b)
  {
    if a == [] {
      assert a + b == b;
    } else {
      JoinedAppend(a[1..], b);
      assert (a + b)[1..] == a[1..] + b && (a + b)[0] == a[0];
      assert a[0] + (Joined(a[1..]) + Joined(b)) == (a[0] + Joined(a[1..])) + Joined(b);
    }
  }

  /** Bytes not yet taken by the socket. */
  function Pending(q: Queue): seq<byte>
    requires q.offset <= Total(q.bufs)
  {
    JoinedLength(q.bufs);
    Joined(q.bufs)[q.offset..]
  }

  /** Queues a header and, unless it is empty, a payload. */
  function Enqueue(q: Queue, limit: nat, header: seq<byte>, data: seq<byte>): Queue {
    var size := q.size + HEADER_SIZE + |data|;
    q.(bufs := q.bufs + (if data == [] then [header] else [header, data]), size := size,
       paused := q.paused || size > limit)
  }

  lemma EnqueueKeeps(q: Queue, limit: nat, header: seq<byte>, data: seq<byte>)
    requires QueueOk(q, limit) && |header| == HEADER_SIZE
    ensures QueueOk(Enqueue(q, limit, header, data), limit)
    ensures q.offset <= Total(q.bufs) && q.offset <= Total(Enqueue(q, limit, header, data).bufs)
    ensures Pending(Enqueue(q, limit, header, data)) == Pending(q) + (header + data)
  {
    var more := if data == [] then [header] else [header, data];
    JoinedAppend(q.bufs, more);
    JoinedLength(q.bufs);
    Frames(header, data, more);
    assert (Joined(q.bufs) + (header + data))[q.offset..] == Joined(q.bufs)[q.offset..] + (header + data);
  }

  lemma Frames(header: seq<byte>, data: seq<byte>, more: seq<seq<byte>>)
    requires more == if data == [] then [header] else [header, data]
    ensures Joined(more) == header + data && Total(more) == |header| + |data|
  {
    if data != [] {
      assert more[1..] == [data];
      assert Joined([data]) == data + Joined([data][1..]) && Total([data]) == |data| + Total([data][1..]);
    }
  }

  /** A socket never takes more than it is offered. */
  function Taken(answer: int, offered: nat): int {
    if answer > offered then offered else answer
  }

  datatype Sending = Sending(queue: Queue, wire: seq<byte>)

  /** Offers the rest of the first buffer to the socket, again and again, as long as each is
      taken whole; the answers of the socket are given, no more answers meaning no socket. */
  function Sends(q: Queue, limit: nat, answers: seq<int>, wire: seq<byte>): Sending
    requires QueueOk(q, limit)
    decreases |answers|
  {
    if q.bufs == [] || answers == [] then Sending(q, wire)
    else
      var offered := |q.bufs[0]| - q.offset;
      var n := Taken(answers[0], offered);
      if n <= 0 then Sending(q, wire)
      else
        var wire' := wire + q.bufs[0][q.offset..q.offset + n];
        if n < offered then Sending(q.(offset := q.offset + n, sent := q.sent + n), wire')
        else Sends(Popped(q, limit), limit, answers[1..], wire')
  }

  /** The rest of the first buffer was taken. */
  function Popped(q: Queue, limit: nat): (r: Queue)
    requires QueueOk(q, limit) && q.bufs != []
    ensures QueueOk(r, limit)
  {
    var size := q.size - |q.bufs[0]|;
    Queue(q.bufs[1..], 0, size, size > limit, q.sent + |q.bufs[0]| - q.offset)
  }

  /** Sending moves bytes from the queue to the wire, in order, and keeps the books. */
  lemma {:induction false} SendsKeeps(q: Queue, limit: nat, answers: seq<int>, wire: seq<byte>)
    requires QueueOk(q, limit)
    ensures var r := Sends(q, limit, answers, wire);
      && QueueOk(r.queue, limit)
      && q.offset <= Total(q.bufs) && r.queue.offset <= Total(r.queue.bufs)
      && r.wire + Pending(r.queue) == wire + Pending(q)
      && |r.wire| - |wire| == r.queue.sent - q.sent
    decreases |answers|
  {
    if q.bufs != [] && answers != [] {
      JoinedLength(q.bufs);
      var offered := |q.bufs[0]| - q.offset;
      var n := Taken(answers[0], offered);
      if n > 0 {
        var part := q.bufs[0][q.offset..q.offset + n];
        var rest := Joined(q.bufs[1..]);
        JoinedLength(q.bufs[1..]);
        if n < offered {
          assert Joined(q.bufs)[q.offset..] == part + Joined(q.bufs)[q.offset + n..];
        } else {
          assert Joined(q.bufs)[q.offset..] == part + rest;
          assert rest[0..] == rest;
          SendsKeeps(Popped(q, limit), limit, answers[1..], wire + part);
        }
        assert (wire + part) + Joined(q.bufs)[q.offset + n..] == wire + Joined(q.bufs)[q.offset..];
      }
    }
  }

  /** What is left of buffer i when its turn comes. */
  function Offered(q: Queue, i: nat): int
    requires i < |q.bufs|
  {
    if i == 0 then |q.bufs[0]| - q.offset else |q.bufs[i]|
  }

  /** Exactly what is sent: k whole buffers, as many in a row as the socket takes, and of the next one what the socket
      takes of it, if anything. */
  ghost predicate SendsThrough(q: Queue, answers: seq<int>, r: Queue, k: nat) {
    && k <= |q.bufs| && k <= |answers| && r.bufs == q.bufs[k..]
    && (forall i | 0 <= i < k :: answers[i] >= Offered(q, i))
    && (k < |q.bufs| && k < |answers| ==> answers[k] < Offered(q, k))
    && r.offset == (if k == 0 then q.offset else 0)
                   + (if k < |q.bufs| && k < |answers| && answers[k] > 0 then answers[k] else 0)
  }

  lemma {:induction false} SendsExactly(q: Queue, limit: nat, answers: seq<int>, wire: seq<byte>) returns (k: nat)
    requires QueueOk(q, limit)
    ensures SendsThrough(q, answers, Sends(q, limit, answers, wire).queue, k)
    decreases |answers|
  {
    k := 0;
    if q.bufs != [] && answers != [] && answers[0] >= Offered(q, 0) {
      var p, rest := Popped(q, limit), answers[1..];
      var part := q.bufs[0][q.offset..];
      k := SendsExactly(p, limit, rest, wire + part);
      assert q.bufs[0][q.offset..q.offset + Offered(q, 0)] == part;
      forall i | 0 <= i < |p.bufs| ensures Offered(p, i) == Offered(q, i + 1) {
      }
      forall i | 0 <= i < k + 1 ensures answers[i] >= Offered(q, i) {
        if i > 0 { assert rest[i - 1] >= Offered(p, i - 1); }
      }
      k := k + 1;
    }
  }

  /** A socket that takes everything empties the queue. */
  lemma SendsAll(q: Queue, limit: nat, answers: seq<int>, wire: seq<byte>)
    requires QueueOk(q, limit) && |answers| >= |q.bufs| && forall i | 0 <= i < |q.bufs| :: answers[i] >= Offered(q, i)
    ensures q.offset <= Total(q.bufs)
    ensures var r := Sends(q, limit, answers, wire); r.queue.bufs == [] && r.wire == wire + Pending(q)
  {
    var k := SendsExactly(q, limit, answers, wire);
    SendsKeeps(q, limit, answers, wire);
    var r := Sends(q, limit, answers, wire);
    assert r.wire + [] == r.wire;
  }

  // Runs

  /** A connection: the sender's queue, the bytes under way, the receiver, and what was pushed. */
  datatype Link = Link(queue: Queue, flight: seq<byte>, inbox: Inbox, pushed: seq<Message>)

  /** A message is pushed (and sent at once if the queue was empty), the queue is flushed, or some
      of the bytes under way are received as one chunk. */
  datatype Event =
    | Push(command: seq<byte>, data: seq<byte>, answers: seq<int>)
    | Flush(answers: seq<int>)
    | Deliver(count: nat)

  predicate WithinLimit(e: Event) {
    e.Push? ==> |e.data| <= MAX_PROTOCOL_MESSAGE_LENGTH
  }

  /** Were all bytes under way and all bytes queued received, the messages pushed would be exactly
      those completed. */
  ghost predicate LinkOk(l: Link, limit: nat) {
    && QueueOk(l.queue, limit)
    && InboxOk(l.inbox)
    && l.queue.offset <= Total(l.queue.bufs)
    && Feed(l.inbox, l.flight + Pending(l.queue)) == Inbox(l.pushed, InHeader([]))
  }

  ghost function Step(net: Network, limit: nat, l: Link, e: Event): Link
    requires Proper(net) && LinkOk(l, limit)
  {
    match e
    case Push(command, data, answers) =>
      var header := Header(net, command, data);
      var q := Enqueue(l.queue, limit, header, data);
      var pushed := l.pushed + [Message(header, data)];
      if l.queue.bufs != [] then l.(queue := q, pushed := pushed)
      else
        HeaderSize(net, command, data);
        EnqueueKeeps(l.queue, limit, header, data);
        var s := Sends(q, limit, answers, l.flight);
        Link(s.queue, s.wire, l.inbox, pushed)
    case Flush(answers) =>
      var s := Sends(l.queue, limit, answers, l.flight);
      l.(queue := s.queue, flight := s.wire)
    case Deliver(count) =>
      var n := if count > |l.flight| then |l.flight| else count;
      l.(flight := l.flight[n..], inbox := Feed(l.inbox, l.flight[..n]))
  }

  lemma PushKeeps(net: Network, limit: nat, l: Link, e: Event)
    requires Proper(net) && LinkOk(l, limit) && e.Push? && WithinLimit(e)
    ensures LinkOk(Step(net, limit, l, e), limit)
  {
    hide Feed, QueueOk, Header, Sends, Enqueue, InboxOk, Pending;
    var header := Header(net, e.command, e.data);
    HeaderSize(net, e.command, e.data);
    var q := Enqueue(l.queue, limit, header, e.data);
    EnqueueKeeps(l.queue, limit, header, e.data);
    var before := l.flight + Pending(l.queue);
    FeedAppend(l.inbox, before, header + e.data);
    FeedFrame(l.pushed, header, e.data);
    assert before + (header + e.data) == l.flight + Pending(q);
    SendsKeeps(q, limit, e.answers, l.flight);
  }

  lemma DeliverKeeps(net: Network, limit: nat, l: Link, e: Event)
    requires Proper(net) && LinkOk(l, limit) && e.Deliver?
    ensures LinkOk(Step(net, limit, l, e), limit)
  {
    var n := if e.count > |l.flight| then |l.flight| else e.count;
    var a, b := l.flight[..n], l.flight[n..] + Pending(l.queue);
    assert a + b == l.flight + Pending(l.queue);
    FeedAppend(l.inbox, a, b);
  }

  lemma StepKeeps(net: Network, limit: nat, l: Link, e: Event)
    requires Proper(net) && LinkOk(l, limit) && WithinLimit(e)
    ensures LinkOk(Step(net, limit, l, e), limit)
  {
    hide LinkOk;
    match e
    case Push(_, _, _) => PushKeeps(net, limit, l, e);
    case Flush(answers) => FlushKeeps(net, limit, l, e);
    case Deliver(_) => DeliverKeeps(net, limit, l, e);
  }

  lemma FlushKeeps(net: Network, limit: nat, l: Link, e: Event)
    requires Proper(net) && LinkOk(l, limit) && e.Flush?
    ensures LinkOk(Step(net, limit, l, e), limit)
  {
    hide Feed, QueueOk;
    SendsKeeps(l.queue, limit, e.answers, l.flight);
  }

  /** What the receiver can rely on, at any moment. */
  ghost predicate InOrder(l: Link) {
    && l.inbox.Inbox?
    && l.inbox.done <= l.pushed
    && l.queue.size == Total(l.queue.bufs)
    && (l.flight == [] && l.queue.bufs == [] ==> l.inbox == Inbox(l.pushed, InHeader([])))
  }

  lemma LinkInOrder(l: Link, limit: nat)
    requires LinkOk(l, limit)
    ensures InOrder(l)
  {
    FeedGrows(l.inbox, l.flight + Pending(l.queue));
    if l.flight == [] && l.queue.bufs == [] { assert l.flight + Pending(l.queue) == []; }
  }

  /** From any moment on, once the socket takes all that is queued and all of it is delivered, every message pushed
      has arrived. */
  lemma Drains(net: Network, limit: nat, l: Link, answers: seq<int>)
    requires Proper(net) && LinkOk(l, limit)
    requires |answers| >= |l.queue.bufs| && forall i | 0 <= i < |l.queue.bufs| :: answers[i] >= Offered(l.queue, i)
    ensures var sent := Step(net, limit, l, Flush(answers));
      && LinkOk(sent, limit)
      && Step(net, limit, sent, Deliver(|sent.flight|)).inbox == Inbox(l.pushed, InHeader([]))
  {
    hide Feed;
    SendsAll(l.queue, limit, answers, l.flight);
    StepKeeps(net, limit, l, Flush(answers));
    var sent := Step(net, limit, l, Flush(answers));
    assert sent.flight[..|sent.flight|] == sent.flight;
  }

  /** End to end: whatever is pushed within the size limit, however the socket takes it and however
      the bytes arrive, the messages completed are a prefix of those pushed, in order and unaltered,
      all of them once all bytes have arrived. */
  ghost function Run(net: Network, limit: nat, l: Link, events: seq<Event>): (r: Link)
    requires Proper(net) && LinkOk(l, limit) && forall i | 0 <= i < |events| :: WithinLimit(events[i])
    ensures LinkOk(r, limit) && InOrder(r)
    decreases |events|
  {
    if events == [] then
      LinkInOrder(l, limit);
      l
    else
      StepKeeps(net, limit, l, events[0]);
      Run(net, limit, Step(net, limit, l, events[0]), events[1..])
  }

  lemma StartOk(limit: nat)
    ensures LinkOk(Link(IDLE, [], EMPTY, []), limit)
  {
  }
}
