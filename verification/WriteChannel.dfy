/** The daemon's side of a write stream and the socket between the two sides. The client
    waits for the answer to each request; the daemon performs a request once it has arrived
    and answers it, and may send replies to older requests again at any moment. */
module WriteChannel {
  import opened Sequences
  import opened Wire
  import opened RequestStream
  import opened FileContents

  // ---------- The daemon's file ----------

  datatype Disk = Disk(file: seq<Byte>, pos: nat)

  /** `m` is a reply the daemon may give to request `q`. */
  predicate Suits(d: Disk, q: Request, m: Reply) {
    m.id == q.id && q.command != CANCEL && m.Sendable() &&
    match m
    case Error(_, _, _, _) => true
    case Written(_, count) => q.command == WRITE && count <= |q.data|
    case SeekPos(_, pos) => q.IsSeek() && pos == SeekTarget(d.file, q)
    case Truncated(_) => q.command == TRUNCATE && SignedOffset(q.arg1, q.arg2) >= 0
    case Closed(_, _) => q.command == CLOSE
    case Info(_, _) => q.command == QUERY_INFO
    case Data(_, _, _) => false
  }

  /** What the daemon has done when it answers so. A refused request changes nothing. */
  function Performed(d: Disk, q: Request, m: Reply): Disk
    requires Suits(d, q, m)
  {
    match m
    case Written(_, count) => Disk(Overwrite(d.file, d.pos, q.data[..count]), d.pos + count)
    case SeekPos(_, pos) => d.(pos := pos)
    case Truncated(_) => d.(file := Resize(d.file, SignedOffset(q.arg1, q.arg2)))
    case _ => d
  }

  // ---------- The connection ----------

  /** How far back the requests may lie that the daemon answers again. */
  const MEMORY: nat := 0x8000_0000

  datatype Phase =
    | Settled             // the last request has been answered, and the client has decoded that
    | Owed                // the daemon has yet to answer it
    | Due(index: nat)     // the answer is in the queue

  datatype WriteNet = WriteNet(
    history: seq<Request>,   // every request the client has begun
    sent: seq<Byte>,         // every byte it has sent
    unsent: seq<Byte>,       // what it has yet to send of the last request
    replies: seq<Byte>,      // bytes in transit to the client
    head: seq<Byte>,         // bytes the client has received of the first queued reply
    queue: seq<Reply>,       // replies the client has not decoded yet
    asked: nat,              // the last request that wants an answer
    phase: Phase,
    before: Disk,            // the file before that request was performed
    disk: Disk,              // the file now
    budget: nat,             // steps the daemon takes before it hangs up
    log: seq<Reply>,         // every reply the daemon has put on the connection
    broken: bool)            // the socket has failed or is closed
  {
    /** How many of the replies the client has decoded. */
    function Decoded(): int {
      |log| - |queue|
    }

    /** The undecoded replies are the end of those put. */
    ghost predicate Logged() {
      |queue| <= |log| && queue == log[|log| - |queue|..]
    }

    ghost predicate Framed() {
      && (head != [] ==> queue != [] && |head| <= |queue[0].Encoded()|)
      && head + replies == EncodeReplies(queue)
    }

    predicate Arrived(id: nat) {
      id <= |history| - if unsent == [] then 0 else 1
    }

    /** The queued reply is not to be taken for the answer: it answers an older request, and
        none so old that their numbers agree on the wire. */
    predicate IsStray(i: nat)
      requires i < |queue|
    {
      var m := queue[i];
      && m.Sendable() && !m.Data? && m.id <= asked && asked - m.id <= MEMORY + 2
      && (phase.Owed? || (phase.Due? && i < phase.index) ==> m.id < asked)
      && (phase.Settled? || (phase.Due? && i > phase.index) ==> asked - m.id <= MEMORY)
    }

    ghost predicate Queued() {
      && asked <= |history| <= asked + 1
      && (asked < |history| ==> history[asked].command == CANCEL)
      && (forall i :: 0 <= i < |queue| && phase != Due(i) ==> IsStray(i))
      && (phase.Owed? ==> asked > 0 && history[asked - 1].command != CANCEL && disk == before)
      && (phase.Due? ==>
            && 0 < asked && Arrived(asked) && phase.index < |queue|
            && Suits(before, history[asked - 1], queue[phase.index])
            && disk == Performed(before, history[asked - 1], queue[phase.index]))
    }

    ghost predicate Valid() {
      SentInOrder(history, sent, unsent) && Framed() && Queued() && Logged()
    }
  }

  /** Sealed: the verifier looks inside only where `Mark` is mentioned. */
  ghost predicate Sealed(n: WriteNet) {
    forall k: nat {:trigger Mark(n, k)} :: Mark(n, k) ==> n.Valid()
  }

  lemma Opened(n: WriteNet)
    requires Sealed(n)
    ensures n.Valid()
  {
    assert Mark(n, 0);
  }

  // ---------- The client's moves ----------

  /** A request that wants an answer is begun. */
  function Asking(n: WriteNet, q: Request): WriteNet {
    n.(history := n.history + [q], unsent := q.Encoded(), asked := q.id, phase := Owed, before := n.disk)
  }

  lemma AskIsValid(n: WriteNet, q: Request)
    requires n.Valid() && n.unsent == [] && n.phase.Settled? && q.id == |n.history| + 1 && q.command != CANCEL
    requires |q.data| < TWO_32
    ensures Asking(n, q).Valid()
  {
    var r := Asking(n, q);
    BeginInOrder(n.history, n.sent, q);
    forall i | 0 <= i < |r.queue| ensures r.IsStray(i) {
      assert n.IsStray(i);
    }
  }

  /** A CANCEL is begun; it gets no answer. */
  function Cancelling(n: WriteNet, q: Request): WriteNet {
    n.(history := n.history + [q], unsent := q.Encoded())
  }

  lemma CancelIsValid(n: WriteNet, q: Request)
    requires n.Valid() && n.unsent == [] && n.asked == |n.history| && q.id == |n.history| + 1 && q.command == CANCEL
    requires q.data == []
    ensures Cancelling(n, q).Valid()
  {
    var r := Cancelling(n, q);
    BeginInOrder(n.history, n.sent, q);
    forall i | 0 <= i < |r.queue| && r.phase != Due(i) ensures r.IsStray(i) {
      assert n.IsStray(i);
    }
  }

  function Sending(n: WriteNet, k: nat): WriteNet
    requires k <= |n.unsent|
  {
    n.(sent := n.sent + n.unsent[..k], unsent := n.unsent[k..])
  }

  lemma SendIsValid(n: WriteNet, k: nat)
    requires n.Valid() && k <= |n.unsent|
    ensures Sending(n, k).Valid()
  {
    var r := Sending(n, k);
    SendInOrder(n.history, n.sent, n.unsent, k);
    forall i | 0 <= i < |r.queue| && r.phase != Due(i) ensures r.IsStray(i) {
      assert n.IsStray(i);
    }
  }

  function Receiving(n: WriteNet, k: nat): WriteNet
    requires k <= |n.replies|
  {
    n.(replies := n.replies[k..], head := n.head + n.replies[..k])
  }

  /** The client may ask for the rest of a header, or for the rest of the first reply. */
  predicate MayAsk(n: WriteNet, size: nat) {
    |n.head| + size <= REPLY_SIZE || (n.queue != [] && |n.head| + size <= |n.queue[0].Encoded()|)
  }

  lemma ReceiveIsValid(n: WriteNet, k: nat)
    requires n.Valid() && k <= |n.replies| && MayAsk(n, k)
    ensures Receiving(n, k).Valid()
  {
    var r := Receiving(n, k);
    Associative(n.head, n.replies[..k], n.replies[k..]);
    assert n.replies[..k] + n.replies[k..] == n.replies;
    assert r.head != [] ==> n.queue != [];
    forall i | 0 <= i < |r.queue| && r.phase != Due(i) ensures r.IsStray(i) {
      assert n.IsStray(i);
    }
  }

  /** The client has received the first reply and moves on. */
  function Decoding(n: WriteNet): WriteNet
    requires n.queue != []
  {
    n.(head := [], queue := n.queue[1..],
       phase := if n.phase.Due? then if n.phase.index == 0 then Settled else Due(n.phase.index - 1) else n.phase)
  }

  lemma DecodeIsQueued(n: WriteNet)
    requires n.Queued() && n.queue != []
    ensures Decoding(n).Queued()
  {
    var r := Decoding(n);
    forall i | 0 <= i < |r.queue| && r.phase != Due(i) ensures r.IsStray(i) {
      assert n.phase != Due(i + 1);
      assert n.IsStray(i + 1);
    }
  }

  lemma DecodeIsValid(n: WriteNet)
    requires n.Valid() && n.queue != [] && n.head == n.queue[0].Encoded()
    ensures Decoding(n).Valid()
  {
    var r := Decoding(n);
    DecodeIsQueued(n);
    assert n.head + n.replies == n.head + EncodeReplies(r.queue);
    DropPrefix(n.head, n.replies, [], EncodeReplies(r.queue));
    assert n.head + [] == n.head && [] + EncodeReplies(r.queue) == EncodeReplies(r.queue);
  }

  // ---------- The daemon's moves ----------

  function Putting(n: WriteNet, m: Reply): WriteNet {
    n.(replies := n.replies + m.Encoded(), queue := n.queue + [m], log := n.log + [m],
       budget := if n.budget == 0 then 0 else n.budget - 1)
  }

  lemma PutIsFramed(n: WriteNet, r: WriteNet, m: Reply)
    requires n.Framed() && r.head == n.head && r.replies == n.replies + m.Encoded() && r.queue == n.queue + [m]
    ensures r.Framed()
  {
    EncodeRepliesAppend(n.queue, m);
    Associative(n.head, n.replies, m.Encoded());
  }

  /** A reply to an older request, again. */
  predicate MayRepeat(n: WriteNet, m: Reply) {
    && m.Sendable() && !m.Data? && m.id <= n.asked && n.asked - m.id <= MEMORY && (n.phase.Owed? ==> m.id < n.asked)
  }

  lemma RepeatIsValid(n: WriteNet, m: Reply)
    requires n.Valid() && MayRepeat(n, m)
    ensures Putting(n, m).Valid()
  {
    var r := Putting(n, m);
    PutIsFramed(n, r, m);
    forall i | 0 <= i < |r.queue| && r.phase != Due(i) ensures r.IsStray(i) {
      if i < |n.queue| {
        assert n.IsStray(i);
      }
    }
  }

  function Answering(n: WriteNet, m: Reply): WriteNet
    requires 0 < n.asked <= |n.history| && Suits(n.before, n.history[n.asked - 1], m)
  {
    Putting(n, m).(phase := Due(|n.queue|), disk := Performed(n.before, n.history[n.asked - 1], m))
  }

  lemma AnswerIsValid(n: WriteNet, m: Reply)
    requires n.Valid() && n.phase.Owed? && n.Arrived(n.asked) && Suits(n.before, n.history[n.asked - 1], m)
    ensures Answering(n, m).Valid()
  {
    var r := Answering(n, m);
    PutIsFramed(n, r, m);
    forall i | 0 <= i < |r.queue| && r.phase != Due(i) ensures r.IsStray(i) {
      assert n.IsStray(i);
    }
  }

  /** Whatever the daemon does between two states. */
  ghost predicate Onward(a: WriteNet, b: WriteNet) {
    && b == a.(replies := b.replies, queue := b.queue, phase := b.phase, disk := b.disk, budget := b.budget, log :=
               b.log)
    && a.log <= b.log && b.Decoded() == a.Decoded() && a.queue <= b.queue && b.budget <= a.budget
    && (b.budget == a.budget ==> b == a)
    && (!a.phase.Owed? ==> b.phase == a.phase && b.disk == a.disk)
    && !(a.phase.Owed? && b.phase.Settled?)
  }

  lemma Repeated(n: WriteNet, m: Reply)
    requires Sealed(n) && n.budget > 0 && MayRepeat(n, m)
    ensures Sealed(Putting(n, m)) && Onward(n, Putting(n, m)) && Putting(n, m).budget < n.budget
  {
    Opened(n);
    RepeatIsValid(n, m);
  }

  lemma OwedIsAsked(n: WriteNet)
    requires Sealed(n) && n.phase.Owed?
    ensures 0 < n.asked <= |n.history| && n.history[n.asked - 1].command != CANCEL
  {
    Opened(n);
  }

  lemma AnswerGiven(n: WriteNet, m: Reply)
    requires Sealed(n) && n.budget > 0 && n.phase.Owed? && n.Arrived(n.asked)
    requires 0 < n.asked <= |n.history| && Suits(n.before, n.history[n.asked - 1], m)
    ensures Sealed(Answering(n, m)) && Onward(n, Answering(n, m)) && Answering(n, m).budget < n.budget
  {
    Opened(n);
    AnswerIsValid(n, m);
  }

  lemma Idled(n: WriteNet)
    requires Sealed(n) && n.budget > 0
    ensures Sealed(n.(budget := n.budget - 1)) && Onward(n, n.(budget := n.budget - 1))
  {
    Opened(n);
    SlowIsValid(n, n.(budget := n.budget - 1));
  }

  class WriteConnection {
    var net: WriteNet
    var prior: WriteNet   // before the last request that wants an answer was begun

    constructor (disk: Disk, budget: nat)
      ensures net == WriteNet([], [], [], [], [], [], 0, Settled, disk, disk, budget, [], false) && Sealed(net)
    {
      net := WriteNet([], [], [], [], [], [], 0, Settled, disk, disk, budget, [], false);
      prior := WriteNet([], [], [], [], [], [], 0, Settled, disk, disk, budget, [], false);
    }

    /** The client begins a request that wants an answer. */
    method Ask(q: Request)
      requires Sealed(net) && net.unsent == [] && net.phase.Settled? && q.id == |net.history| + 1 && q.command != CANCEL
      requires |q.data| < TWO_32
      modifies this
      ensures Sealed(net) && net == Asking(prior, q) && prior == old(net)
    {
      Opened(net);
      AskIsValid(net, q);
      prior := net;
      net := Asking(net, q);
    }

    /** The client takes a request back that it has just begun. */
    method TakeBack(ghost q: Request)
      requires Sealed(prior) && net == Asking(prior, q)
      modifies this`net
      ensures net == prior
    {
      net := prior;
    }

    method Cancel(q: Request)
      requires Sealed(net) && net.unsent == [] && net.asked == |net.history|
      requires q.id == |net.history| + 1 && q.command == CANCEL && q.data == []
      modifies this`net
      ensures Sealed(net) && net == Cancelling(old(net), q)
    {
      Opened(net);
      CancelIsValid(net, q);
      net := Cancelling(net, q);
    }

    method Decode()
      requires Sealed(net) && net.queue != [] && net.head == net.queue[0].Encoded()
      modifies this`net
      ensures Sealed(net) && net == Decoding(old(net))
    {
      Opened(net);
      DecodeIsValid(net);
      net := Decoding(net);
    }

    /** An answer: an error, or what the request asks for. */
    method Answer(q: Request) returns (m: Reply)
      requires q.command != CANCEL
      ensures Suits(net.before, q, m)
    {
      var text: seq<Byte> :| |text| < TWO_32 - REPLY_SIZE;
      var code: UInt32 :| true;
      m := Error(q.id, code, text, q.IsSeek());
      if * {
        return;
      }
      if q.command == WRITE {
        var count: UInt32 :| count <= |q.data|;
        m := Written(q.id, count);
      } else if q.IsSeek() {
        var target := SeekTarget(net.before.file, q);
        if 0 <= target < 0x8000_0000_0000_0000 {
          m := SeekPos(q.id, target);
        }
      } else if q.command == TRUNCATE && SignedOffset(q.arg1, q.arg2) >= 0 {
        m := Truncated(q.id);
      } else if q.command == CLOSE {
        m := Closed(q.id, text);
      } else if q.command == QUERY_INFO {
        m := Info(q.id, text);
      }
    }

    /** One step of the daemon. */
    method DaemonStep()
      requires Sealed(net) && net.budget > 0
      modifies this`net
      ensures Sealed(net) && Onward(old(net), net) && net.budget < old(net).budget
    {
      var again: Reply :| true;
      if MayRepeat(net, again) {
        Repeated(net, again);
        net := Putting(net, again);
      } else if net.phase.Owed? && net.Arrived(net.asked) {
        OwedIsAsked(net);
        var m := Answer(net.history[net.asked - 1]);
        AnswerGiven(net, m);
        net := Answering(net, m);
      } else {
        Idled(net);
        net := net.(budget := net.budget - 1);
      }
    }

    method Run(wait: bool)
      requires Sealed(net)
      modifies this`net
      ensures Sealed(net) && Onward(old(net), net) && (wait ==> net.replies != [] || net.budget == 0)
    {
      while net.budget > 0
        invariant Sealed(net) && Onward(old(net), net)
        decreases net.budget
      {
        if !(wait && net.replies == []) {
          if * {
            break;
          }
        }
        DaemonStep();
      }
    }

    /** A write on the socket: takes at least one byte of those offered, or fails. */
    method Send(size: nat) returns (n: nat)
      requires Sealed(net) && 0 < size <= |net.unsent|
      modifies this`net
      ensures Sealed(net) && n <= size
      ensures n == 0 ==> net == old(net).(broken := true)
      ensures n > 0 ==> Onward(Sending(old(net), n), net)
    {
      var fails: bool := *;
      if net.broken || fails {
        Fail();
        return 0;
      }
      n :| 0 < n <= size;
      Opened(net);
      SendIsValid(net, n);
      net := Sending(net, n);
      Run(false);
    }

    /** The socket fails, perhaps in the middle of a reply, or is closed. */
    method Fail()
      requires Sealed(net)
      modifies this`net
      ensures Sealed(net) && net == old(net).(broken := true)
    {
      Opened(net);
      net := net.(broken := true);
      SlowIsValid(old(net), net);
    }

    /** A read on the socket: gives at least one byte, unless the socket fails or the daemon has
        hung up. */
    method Receive(size: nat) returns (ok: bool, bytes: seq<Byte>)
      requires Sealed(net) && size > 0 && MayAsk(net, size)
      modifies this`net
      ensures Sealed(net)
      ensures ok ==> 0 < |bytes| <= size && Received(old(net), net, bytes)
      ensures !ok ==> net == old(net).(broken := true) || (HungUp(net) && Onward(old(net), net))
    {
      var fails: bool := *;
      if net.broken || fails {
        Fail();
        return false, [];
      }
      Run(true);
      MayStillAsk(old(net), net, size);
      if net.replies == [] {
        NothingLeft(net, size);
        return false, [];
      }
      var n :| 0 < n <= size && n <= |net.replies|;
      bytes := net.replies[..n];
      Opened(net);
      ReceiveIsValid(net, n);
      net := Receiving(net, n);
      ok := true;
    }
  }

  /** The daemon has hung up and the whole of what it sent has been decoded. */
  predicate HungUp(n: WriteNet) {
    n.replies == [] && n.budget == 0 && n.queue == []
  }

  lemma MayStillAsk(a: WriteNet, b: WriteNet, size: nat)
    requires Onward(a, b) && MayAsk(a, size)
    ensures MayAsk(b, size)
  {
    assert a.queue != [] ==> b.queue[0] == a.queue[0];
  }

  /** If more of a reply may be asked for and nothing is in transit, no reply has been begun. */
  lemma NothingLeft(n: WriteNet, size: nat)
    requires Sealed(n) && n.replies == [] && size > 0 && MayAsk(n, size)
    ensures n.queue == []
  {
    Opened(n);
    ShorterThanQueue(n.head, n.queue);
    assert n.head + n.replies == n.head;
  }

  lemma ShorterThanQueue(head: seq<Byte>, queue: seq<Reply>)
    requires head == EncodeReplies(queue)
    ensures queue != [] ==> |head| >= |queue[0].Encoded()| >= REPLY_SIZE
  {
  }

  lemma SlowIsValid(a: WriteNet, b: WriteNet)
    requires a.Valid() && b == a.(budget := b.budget, broken := b.broken)
    ensures b.Valid()
  {
    forall i | 0 <= i < |b.queue| && b.phase != Due(i) ensures b.IsStray(i) {
      assert a.IsStray(i);
    }
  }

  /** The client has received more of the first reply. */
  ghost predicate Received(a: WriteNet, b: WriteNet, bytes: seq<Byte>) {
    && b == a.(head := a.head + bytes, replies := b.replies, queue := b.queue, phase := b.phase, disk := b.disk,
               budget := b.budget,
               log := b.log)
    && a.log <= b.log && b.Decoded() == a.Decoded()
    && (!a.phase.Owed? ==> b.disk == a.disk) && (b.phase.Settled? <==> a.phase.Settled?)
    && (b.budget < a.budget || (b.budget == a.budget && |b.replies| < |a.replies|))
  }

  /** Once the output is flushed, the bytes sent are whole requests with their data, numbered
      1, 2, 3, ... modulo 2^32. */
  lemma SentRequests(n: WriteNet)
    requires Sealed(n) && n.unsent == []
    ensures AllOnWire(n.history, n.sent)
  {
    Opened(n);
    AllRequestsAreWhole(n.history, n.sent);
  }
}
