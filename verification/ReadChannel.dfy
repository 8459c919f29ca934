/** The daemon's side of a read stream and the socket between the two sides.
    The client's bytes reach the daemon in order; the daemon takes whole requests,
    one after the other, and puts whole replies on its byte queue to the client,
    at moments of its own choosing. */
module ReadChannel {
  import opened Sequences
  import opened Wire
  import opened RequestStream

  // ---------- Positions in the file ----------

  /** `s` is what the file holds from offset `at` on. */
  ghost predicate IsAt(file: seq<Byte>, at: nat, s: seq<Byte>) {
    s == [] || (at + |s| <= |file| && file[at..at + |s|] == s)
  }

  lemma IsAtConcat(file: seq<Byte>, at: nat, s: seq<Byte>, t: seq<Byte>)
    ensures IsAt(file, at, s + t) <==> IsAt(file, at, s) && IsAt(file, at + |s|, t)
  {
    if s == [] {
      assert s + t == t;
    } else if t == [] {
      assert s + t == s;
    } else if at + |s| + |t| <= |file| {
      assert file[at..at + |s| + |t|] == file[at..at + |s|] + file[at + |s|..at + |s| + |t|];
      assert (s + t)[..|s|] == s && (s + t)[|s|..] == t;
    }
  }

  lemma IsAtSplit(file: seq<Byte>, at: nat, s: seq<Byte>, k: nat)
    requires k <= |s| && IsAt(file, at, s)
    ensures IsAt(file, at, s[..k]) && IsAt(file, at + k, s[k..])
  {
    assert s == s[..k] + s[k..];
    IsAtConcat(file, at, s[..k], s[k..]);
  }

  // ---------- The reply stream ----------

  function NextGeneration(g: UInt32): UInt32 {
    (g + 1) % TWO_32
  }

  /** A point of the reply stream: the daemon's seek generation and file position
      there, and the last request it had answered. */
  datatype Point = Point(gen: UInt32, pos: nat, answered: nat)

  /** `m` is a reply the daemon may give to request `q`: never one to a CANCEL,
      an error to anything else, or the reply that belongs to the request. A blocked channel
      refuses a seek like anything else, without looking at it. */
  predicate Answers(file: seq<Byte>, q: Request, m: Reply) {
    q.command != CANCEL &&
    match m
    case Error(_, _, _, ofSeek) => ofSeek ==> q.IsSeek()
    case Data(_, _, _) => q.command == READ
    case SeekPos(_, pos) => q.IsSeek() && pos == SeekTarget(file, q)
    case Closed(_, body) => q.command == CLOSE && body == []
    case Info(_, _) => q.command == QUERY_INFO
    case _ => false
  }

  /** A block sent ahead of any request, or the error of a job that was to read one. */
  predicate IsReadahead(m: Reply) {
    m.id == 0 && (m.Data? || (m.Error? && !m.ofSeek))
  }

  /** An error that answers no request; its number on the wire is 0. */
  predicate IsLooseError(m: Reply) {
    m.Error? && m.id == 0
  }

  /** The point that follows a reply. A seek moves on the generation even when it is refused, unless
      the channel is blocked. */
  function After(m: Reply, p: Point): Point {
    match m
    case Data(id, _, body) => Point(p.gen, p.pos + |body|, if id == 0 then p.answered else id)
    case SeekPos(id, pos) => Point(NextGeneration(p.gen), pos, id)
    case Error(id, _, _, ofSeek) =>
      Point(if ofSeek then NextGeneration(p.gen) else p.gen, p.pos, if id == 0 then p.answered else id)
    case _ => p.(answered := m.id)
  }

  /** A reply the daemon may send at point `p`: one of readahead or the answer to a later
      request. A data block carries the generation and the bytes of the point it is sent at,
      and is empty only at the end of the file. */
  ghost predicate Continues(file: seq<Byte>, history: seq<Request>, m: Reply, p: Point) {
    && m.Sendable()
    && (IsReadahead(m) || (p.answered < m.id <= |history| && Answers(file, history[m.id - 1], m)))
    && (m.Data? ==> m.gen == p.gen && IsAt(file, p.pos, m.body) && (m.body == [] ==> p.pos >= |file|))
  }

  /** The replies `q` lead from point `p` to point `p'`. */
  ghost predicate Walk(file: seq<Byte>, history: seq<Request>, q: seq<Reply>, p: Point, p': Point) {
    if q == [] then p == p'
    else Continues(file, history, q[0], p) && Walk(file, history, q[1..], After(q[0], p), p')
  }

  lemma {:induction false} WalkAppend(file: seq<Byte>, history: seq<Request>, q: seq<Reply>, m: Reply, p: Point,
                                      p': Point)
    requires Walk(file, history, q, p, p') && Continues(file, history, m, p')
    ensures Walk(file, history, q + [m], p, After(m, p'))
  {
    if q == [] {
      assert [m][1..] == [];
    } else {
      WalkAppend(file, history, q[1..], m, After(q[0], p), p');
      assert (q + [m])[1..] == q[1..] + [m];
    }
  }

  lemma {:induction false} WalkLaterHistory(file: seq<Byte>, history: seq<Request>, r: Request, q: seq<Reply>, p: Point,
                                            p': Point)
    requires Walk(file, history, q, p, p')
    ensures Walk(file, history + [r], q, p, p')
  {
    if q != [] {
      WalkLaterHistory(file, history, r, q[1..], After(q[0], p), p');
    }
  }

  lemma {:induction false} WalkIsMonotone(file: seq<Byte>, history: seq<Request>, q: seq<Reply>, p: Point, p': Point)
    requires Walk(file, history, q, p, p')
    ensures p.answered <= p'.answered
  {
    if q != [] {
      WalkIsMonotone(file, history, q[1..], After(q[0], p), p');
    }
  }

  lemma {:induction false} WalkEarlierHistory(file: seq<Byte>, history: seq<Request>, n: nat, q: seq<Reply>, p: Point,
                                              p': Point)
    requires Walk(file, history, q, p, p') && p'.answered <= n <= |history|
    ensures Walk(file, history[..n], q, p, p')
  {
    if q != [] {
      WalkIsMonotone(file, history, q[1..], After(q[0], p), p');
      WalkEarlierHistory(file, history, n, q[1..], After(q[0], p), p');
    }
  }

  // ---------- The connection ----------

  /** How many unanswered requests the connection can hold. */
  const CAPACITY: nat := TWO_32 - 2

  /** The state of the connection and of the daemon behind it. */
  datatype Net = Net(
    history: seq<Request>,   // every request the client has begun
    sent: seq<Byte>,         // every byte it has sent
    unsent: seq<Byte>,       // what it has yet to send of the last request
    replies: seq<Byte>,      // bytes in transit to the client
    head: seq<Byte>,         // bytes the client has received of the first queued reply
    rest: seq<Byte>,         // bytes it has yet to receive of the data block it is in
    queue: seq<Reply>,       // replies the client has not decoded yet
    front: Point,            // the point of the reply stream where the queue starts
    back: Point,             // the point where it ends: the daemon's own state
    taken: nat,              // requests the daemon has taken from the connection
    budget: nat,             // steps the daemon takes before it hangs up
    log: seq<Reply>,         // every reply the daemon has put on the connection
    broken: bool)            // the socket has failed
  {
    /** How many of the replies the client has decoded. */
    function Decoded(): int {
      |log| - |queue|
    }

    /** The undecoded replies are the end of those put. */
    ghost predicate Logged() {
      |queue| <= |log| && queue == log[|log| - |queue|..]
    }

    /** A request whose number on the wire is 0 may be waiting. */
    predicate Wraps() {
      |history| >= TWO_32 && |history| % TWO_32 <= 1
    }

    /** Requests that have been sent completely. */
    function Arrived(): int {
      |history| - if unsent == [] then 0 else 1
    }

    /** Numbers on the wire tell the requests apart that may still be answered. */
    predicate WithinCapacity() {
      && |history| - front.answered <= CAPACITY
      && (Wraps() ==> forall i :: 0 <= i < |queue| ==> !IsLooseError(queue[i]))
    }

    /** The bytes sent are the begun requests, numbered from 1, short of the unsent tail. */
    ghost predicate SentWell() {
      SentInOrder(history, sent, unsent)
    }

    /** The bytes received and in transit are a data block's remainder and whole replies. */
    ghost predicate Framed() {
      && (head != [] ==> rest == [] && queue != [] && |head| <= |Decodable(queue[0])|)
      && head + replies == rest + EncodeReplies(queue)
    }

    ghost predicate Linked(file: seq<Byte>) {
      && |rest| <= front.pos && IsAt(file, front.pos - |rest|, rest)
      && Walk(file, history, queue, front, back)
      && front.answered <= back.answered <= taken <= Arrived()
    }

    ghost predicate Valid(file: seq<Byte>) {
      SentWell() && Framed() && Linked(file) && Logged()
    }

    /** How far the client may read ahead of the header it has decoded. */
    predicate MayReceive(size: nat) {
      if rest != [] then size <= |rest|
      else |head| + size <= REPLY_SIZE || (queue != [] && |head| + size <= |Decodable(queue[0])|)
    }

    /** The client has received a whole header and moves on to what follows it. */
    function Decode(): Net
      requires queue != []
    {
      this.(head := [], rest := if queue[0].Data? then queue[0].body else [],
            queue := queue[1..], front := After(queue[0], front))
    }
  }

  /** A valid state, sealed: the verifier looks inside only where `Mark` is mentioned. */
  ghost predicate Sound(file: seq<Byte>, n: Net) {
    forall k: nat {:trigger Mark(n, k)} :: Mark(n, k) ==> n.Valid(file)
  }

  lemma Unsealed(file: seq<Byte>, n: Net)
    requires Sound(file, n)
    ensures n.Valid(file)
  {
    assert Mark(n, 0);
  }

  /** Whatever the daemon does between two states: it takes requests and appends replies. */
  ghost predicate Progress(a: Net, b: Net) {
    && b == a.(replies := b.replies, queue := b.queue, back := b.back, taken := b.taken, budget := b.budget, log :=
               b.log)
    && a.queue <= b.queue && a.log <= b.log && b.Decoded() == a.Decoded()
    && (a.WithinCapacity() ==> b.WithinCapacity())
    && b.budget <= a.budget
    && (b.budget == a.budget ==> b == a)
  }

  /** What `Decode` moves past: the header of a data block, the whole of any other reply. */
  function Decodable(m: Reply): seq<Byte> {
    if m.Data? then m.Header() else m.Encoded()
  }

  lemma DecodeIsFramed(n: Net)
    requires n.Framed() && n.queue != [] && n.rest == [] && n.head == Decodable(n.queue[0])
    ensures n.Decode().Framed()
  {
    var d := n.Decode();
    assert n.head + n.replies == n.queue[0].Encoded() + EncodeReplies(d.queue);
    assert n.queue[0].Encoded() == n.head + d.rest;
    DropPrefix(n.head, n.replies, d.rest, EncodeReplies(d.queue));
    assert d.head + d.replies == d.replies;
  }

  lemma DecodeIsLinked(file: seq<Byte>, n: Net)
    requires n.Linked(file) && n.queue != [] && n.rest == []
    ensures n.Decode().Linked(file)
  {
    var d := n.Decode();
    WalkIsMonotone(file, d.history, d.queue, d.front, d.back);
  }

  lemma DecodeIsValid(file: seq<Byte>, n: Net)
    requires n.Valid(file) && n.queue != [] && n.rest == [] && n.head == Decodable(n.queue[0])
    ensures n.Decode().Valid(file)
  {
    DecodeIsFramed(n);
    DecodeIsLinked(file, n);
  }

  lemma AppendIsFramed(a: Net, b: Net, m: Reply)
    requires a.Framed()
    requires b.head == a.head && b.rest == a.rest
    requires b.replies == a.replies + m.Encoded() && b.queue == a.queue + [m]
    ensures b.Framed()
  {
    EncodeRepliesAppend(a.queue, m);
    Regroup(a.head, a.replies, m.Encoded(), a.rest, EncodeReplies(a.queue));
  }

  lemma Regroup(h: seq<Byte>, t: seq<Byte>, m: seq<Byte>, r: seq<Byte>, e: seq<Byte>)
    requires h + t == r + e
    ensures h + (t + m) == r + (e + m)
  {
    assert h + (t + m) == (h + t) + m;
    assert r + (e + m) == (r + e) + m;
  }

  lemma AppendIsLinked(file: seq<Byte>, a: Net, b: Net, m: Reply)
    requires a.Linked(file) && Continues(file, a.history, m, a.back)
    requires b.history == a.history && b.unsent == a.unsent && b.rest == a.rest && b.front == a.front
    requires b.queue == a.queue + [m] && b.back == After(m, a.back)
    requires a.taken <= b.taken <= a.Arrived() && m.id <= b.taken
    ensures b.Linked(file)
  {
    var queue, back := a.queue + [m], After(m, a.back);
    WalkAppend(file, a.history, a.queue, m, a.front, a.back);
    AnsweredGrows(file, a.history, m, a.back, b.taken);
    LinkedAgain(file, a, b, queue, back);
  }

  lemma LinkedAgain(file: seq<Byte>, a: Net, b: Net, queue: seq<Reply>, back: Point)
    requires a.Linked(file) && Walk(file, a.history, queue, a.front, back)
    requires b.history == a.history && b.unsent == a.unsent && b.rest == a.rest && b.front == a.front
    requires b.queue == queue && b.back == back && a.back.answered <= back.answered <= b.taken <= a.Arrived()
    ensures b.Linked(file)
  {
    WalkFrom(file, b.history, b.queue, b.front, b.back, b);
  }

  lemma WalkFrom(file: seq<Byte>, history: seq<Request>, queue: seq<Reply>, front: Point, back: Point, n: Net)
    requires Walk(file, history, queue, front, back)
    requires n.history == history && n.queue == queue && n.front == front && n.back == back
    requires |n.rest| <= front.pos && IsAt(file, front.pos - |n.rest|, n.rest)
    requires front.answered <= back.answered <= n.taken <= n.Arrived()
    ensures n.Linked(file)
  {
  }

  lemma AnsweredGrows(file: seq<Byte>, history: seq<Request>, m: Reply, p: Point, taken: nat)
    requires Continues(file, history, m, p) && p.answered <= taken && m.id <= taken
    ensures p.answered <= After(m, p).answered <= taken
  {
  }

  /** The daemon appends a reply. */
  lemma AppendIsValid(file: seq<Byte>, a: Net, b: Net, m: Reply)
    requires a.Valid(file) && Continues(file, a.history, m, a.back)
    requires b == a.(replies := a.replies + m.Encoded(), queue := a.queue + [m], back := After(m, a.back),
                     taken := b.taken, budget := b.budget, log := a.log + [m])
    requires a.taken <= b.taken <= a.Arrived() && m.id <= b.taken
    ensures b.Valid(file)
  {
    AppendIsFramed(a, b, m);
    AppendIsLinked(file, a, b, m);
    AppendIsLogged(a.log, a.queue, m);
    assert b.SentWell();
  }

  lemma AppendIsLogged(log: seq<Reply>, queue: seq<Reply>, m: Reply)
    requires |queue| <= |log| && queue == log[|log| - |queue|..]
    ensures queue + [m] == (log + [m])[|log| - |queue|..]
  {
  }

  lemma BeginIsValid(file: seq<Byte>, n: Net, q: Request)
    requires n.Valid(file) && n.unsent == [] && q.id == |n.history| + 1 && |q.data| < TWO_32
    ensures n.(history := n.history + [q], unsent := q.Encoded()).Valid(file)
  {
    BeginInOrder(n.history, n.sent, q);
    WalkLaterHistory(file, n.history, q, n.queue, n.front, n.back);
    var r := n.(history := n.history + [q], unsent := q.Encoded());
    WalkFrom(file, r.history, r.queue, r.front, r.back, r);
  }

  lemma WithdrawIsValid(file: seq<Byte>, n: Net)
    requires n.Valid(file) && n.history != [] && n.unsent == n.history[|n.history| - 1].Encoded()
    ensures n.(history := n.history[..|n.history| - 1], unsent := []).Valid(file)
  {
    WithdrawInOrder(n.history, n.sent, n.unsent);
    WalkEarlierHistory(file, n.history, |n.history| - 1, n.queue, n.front, n.back);
    var r := n.(history := n.history[..|n.history| - 1], unsent := []);
    WalkFrom(file, r.history, r.queue, r.front, r.back, r);
  }

  lemma TakenIsPast(file: seq<Byte>, n: Net)
    requires Sound(file, n)
    ensures n.back.answered <= n.taken <= n.Arrived() <= |n.history|
    ensures forall i :: 0 <= i < |n.history| ==> n.history[i].id == i + 1
  {
    Unsealed(file, n);
  }

  /** The daemon does nothing, or passes over a CANCEL. */
  function PassedOn(n: Net): Net
    requires n.budget > 0
  {
    n.(taken := if n.taken < n.Arrived() then n.taken + 1 else n.taken, budget := n.budget - 1)
  }

  lemma Passing(file: seq<Byte>, n: Net)
    requires Sound(file, n) && n.budget > 0
    ensures Sound(file, PassedOn(n)) && Progress(n, PassedOn(n))
  {
    Unsealed(file, n);
    var r := PassedOn(n);
    WalkFrom(file, r.history, r.queue, r.front, r.back, r);
  }

  class Connection {
    const file: seq<Byte>
    var net: Net

    constructor (file: seq<Byte>, budget: nat)
      ensures this.file == file
      ensures net == Net([], [], [], [], [], [], [], Point(0, 0, 0), Point(0, 0, 0), 0, budget, [], false)
      ensures Sound(file, net)
    {
      this.file := file;
      net := Net([], [], [], [], [], [], [], Point(0, 0, 0), Point(0, 0, 0), 0, budget, [], false);
    }

    /** The client begins a request (its bytes are still to be sent). */
    method Begin(q: Request)
      requires Sound(file, net) && net.unsent == [] && q.id == |net.history| + 1 && |q.data| < TWO_32
      modifies this
      ensures Sound(file, net)
      ensures net == old(net).(history := old(net).history + [q], unsent := q.Encoded())
    {
      Unsealed(file, net);
      BeginIsValid(file, net, q);
      net := net.(history := net.history + [q], unsent := q.Encoded());
    }

    /** The client takes back the request it has just begun and not sent any byte of. */
    method Withdraw()
      requires Sound(file, net) && net.history != []
      requires net.unsent == net.history[|net.history| - 1].Encoded()
      modifies this
      ensures Sound(file, net)
      ensures net == old(net).(history := old(net).history[..|old(net).history| - 1], unsent := [])
    {
      Unsealed(file, net);
      WithdrawIsValid(file, net);
      net := net.(history := net.history[..|net.history| - 1], unsent := []);
    }

    /** The client has received a header and moves on to what follows it. */
    method Decode()
      requires Sound(file, net) && net.queue != [] && net.rest == [] && net.head == Decodable(net.queue[0])
      modifies this
      ensures net == old(net).Decode() && Sound(file, net)
    {
      Unsealed(file, net);
      DecodeIsValid(file, net);
      net := net.Decode();
    }

    /** Some bytes from the daemon's position on; none only at the end of the file. */
    method NextBlock() returns (block: seq<Byte>)
      ensures |block| < TWO_32 && IsAt(file, net.back.pos, block)
      ensures block == [] ==> net.back.pos >= |file|
    {
      if net.back.pos >= |file| {
        return [];
      }
      var n :| 0 < n <= |file| - net.back.pos && n < TWO_32;
      return file[net.back.pos..net.back.pos + n];
    }

    /** The daemon's answer to the request it takes: an error, or what the request asks for. */
    method Answer(q: Request) returns (m: Reply)
      requires net.back.answered < q.id <= |net.history| && net.history[q.id - 1] == q && q.command != CANCEL
      ensures m.id == q.id && Continues(file, net.history, m, net.back)
    {
      var text: seq<Byte> :| |text| < TWO_32 - REPLY_SIZE;
      var code: UInt32 :| true;
      var blocked: bool := *;
      m := Error(q.id, code, text, q.IsSeek() && !blocked);
      if * {
        return;
      }
      if q.command == READ {
        var block := NextBlock();
        m := Data(q.id, net.back.gen, block);
      } else if q.IsSeek() {
        var target := SeekTarget(file, q);
        if 0 <= target < 0x8000_0000_0000_0000 {
          m := SeekPos(q.id, target);
        }
      } else if q.command == CLOSE {
        m := Closed(q.id, []);
      } else if q.command == QUERY_INFO {
        m := Info(q.id, text);
      }
    }

    /** The daemon puts a reply on the connection. */
    method Put(m: Reply)
      requires Sound(file, net) && net.budget > 0 && Continues(file, net.history, m, net.back)
      requires m.id == 0 || (net.taken < net.Arrived() && m.id == net.taken + 1)
      requires IsLooseError(m) ==> !net.Wraps()
      modifies this
      ensures Sound(file, net) && Progress(old(net), net) && net.budget < old(net).budget
    {
      ghost var before := net;
      Unsealed(file, net);
      net := net.(replies := net.replies + m.Encoded(), queue := net.queue + [m], back := After(m, net.back),
                  taken := if m.id == 0 then net.taken else m.id, budget := net.budget - 1, log := net.log + [m]);
      AppendIsValid(file, before, net, m);
    }

    /** One step of the daemon: a readahead block or the error of one, or the next complete request. */
    method DaemonStep()
      requires Sound(file, net) && net.budget > 0
      modifies this
      ensures Sound(file, net) && Progress(old(net), net) && net.budget < old(net).budget
    {
      TakenIsPast(file, net);
      var loose: bool := *;
      if * {
        var block := NextBlock();
        Put(Data(0, net.back.gen, block));
      } else if loose && !net.Wraps() {
        var text: seq<Byte> :| |text| < TWO_32 - REPLY_SIZE;
        var code: UInt32 :| true;
        Put(Error(0, code, text, false));
      } else if net.taken < net.Arrived() && net.history[net.taken].command != CANCEL {
        var m := Answer(net.history[net.taken]);
        Put(m);
      } else {
        Passing(file, net);
        net := PassedOn(net);
      }
    }

    /** The daemon runs for a while; for as long as it takes to have something to receive if `wait`. */
    method Run(wait: bool)
      requires Sound(file, net)
      modifies this
      ensures Sound(file, net) && Progress(old(net), net)
      ensures wait ==> net.replies != [] || net.budget == 0
    {
      while net.budget > 0
        invariant Sound(file, net) && Progress(old(net), net)
        decreases net.budget
      {
        if !(wait && net.replies == []) {
          if * {
            break;
          }
        }
        DaemonStep();
      }
    }

    /** A write on the socket: takes at least one byte, unless the socket fails or too many
        requests are unanswered. */
    method Send() returns (n: nat)
      requires Sound(file, net) && net.unsent != []
      modifies this
      ensures Sound(file, net) && n <= |old(net).unsent|
      ensures n == 0 ==> net == old(net).(broken := net.broken) && (net.broken || !net.WithinCapacity())
      ensures n > 0 ==> net.WithinCapacity() && Progress(SendBytes(old(net), n), net)
    {
      var fails: bool := *;
      if net.broken || fails {
        Break();
        return 0;
      }
      if !net.WithinCapacity() {
        return 0;
      }
      n :| 0 < n <= |net.unsent|;
      Unsealed(file, net);
      SendIsValid(file, net, n);
      net := SendBytes(net, n);
      Run(false);
    }

    /** The socket fails, perhaps in the middle of a reply. */
    method Break()
      requires Sound(file, net)
      modifies this
      ensures Sound(file, net) && net == old(net).(broken := true)
    {
      Unsealed(file, net);
      net := net.(broken := true);
      BrokenIsValid(file, old(net));
    }

    /** A read on the socket: gives at least one byte of what is asked for, unless the socket
        fails or the daemon has hung up and nothing is left. */
    method Receive(size: nat) returns (ok: bool, bytes: seq<Byte>)
      requires Sound(file, net) && net.MayReceive(size)
      modifies this
      ensures Sound(file, net)
      ensures ok ==> |bytes| <= size && (size > 0 ==> bytes != []) && Received(old(net), net, bytes)
      ensures !ok ==> size > 0 && (net == old(net).(broken := true) || (HungUp(net) && Progress(old(net), net)))
    {
      if size == 0 {
        return true, [];
      }
      var fails: bool := *;
      if net.broken || fails {
        Break();
        return false, [];
      }
      Run(true);
      if net.replies == [] {
        NothingLeft(file, net);
        return false, [];
      }
      bytes := Take(size, old(net));
      return true, bytes;
    }

    method Take(size: nat, ghost before: Net) returns (bytes: seq<Byte>)
      requires Sound(file, net) && Progress(before, net) && before.MayReceive(size) && size > 0 && net.replies != []
      modifies this
      ensures Sound(file, net) && 0 < |bytes| <= size && Received(before, net, bytes)
    {
      var n :| 0 < n <= size && n <= |net.replies|;
      bytes := net.replies[..n];
      Unsealed(file, net);
      MayStillReceive(before, net, size, n);
      ReceiveIsValid(file, net, n);
      ReceivedSome(before, net, n);
      net := ReceiveBytes(net, n);
    }
  }

  lemma ReceivedSome(before: Net, net: Net, n: nat)
    requires Progress(before, net) && net.Framed() && 0 < n <= |net.replies| && net.MayReceive(n)
    ensures Received(before, ReceiveBytes(net, n), net.replies[..n])
  {
    if net.rest != [] {
      assert net.replies[..n] == (net.rest + EncodeReplies(net.queue))[..n] == net.rest[..n];
    }
  }

  lemma NothingLeft(file: seq<Byte>, n: Net)
    requires Sound(file, n) && n.replies == []
    ensures n.rest == []
  {
    Unsealed(file, n);
    assert n.head + n.replies == n.rest + EncodeReplies(n.queue);
  }

  /** The daemon has hung up and all it sent has been received. */
  ghost predicate HungUp(n: Net) {
    n.replies == [] && n.rest == [] && n.budget == 0
  }

  lemma BrokenIsValid(file: seq<Byte>, n: Net)
    requires n.Valid(file)
    ensures n.(broken := true).Valid(file)
  {
  }

  function SendBytes(net: Net, n: nat): Net
    requires n <= |net.unsent|
  {
    net.(sent := net.sent + net.unsent[..n], unsent := net.unsent[n..])
  }

  lemma SendIsValid(file: seq<Byte>, net: Net, n: nat)
    requires net.Valid(file) && n <= |net.unsent|
    ensures SendBytes(net, n).Valid(file)
  {
    SendInOrder(net.history, net.sent, net.unsent, n);
  }

  function ReceiveBytes(net: Net, n: nat): Net
    requires n <= |net.replies| && net.MayReceive(n)
  {
    if net.rest == [] then net.(replies := net.replies[n..], head := net.head + net.replies[..n])
    else net.(replies := net.replies[n..], rest := net.rest[n..])
  }

  /** The client has received `bytes`: more of a header, or more of the block it is in. */
  ghost predicate Received(a: Net, b: Net, bytes: seq<Byte>) {
    && b.history == a.history && b.sent == a.sent && b.unsent == a.unsent && b.front == a.front && b.broken == a.broken
    && a.log <= b.log && b.Decoded() == a.Decoded() && (a.WithinCapacity() ==> b.WithinCapacity())
    && (if a.rest == [] then b.rest == [] && b.head == a.head + bytes
        else |bytes| <= |a.rest| && bytes == a.rest[..|bytes|] && b.rest == a.rest[|bytes|..] && b.head == a.head)
    && (if bytes == [] then b == a else b.budget < a.budget || (b.budget == a.budget && |b.replies| < |a.replies|))
  }

  lemma MayStillReceive(a: Net, b: Net, size: nat, n: nat)
    requires Progress(a, b) && a.MayReceive(size) && n <= size
    ensures b.MayReceive(n)
  {
    if a.queue != [] {
      assert b.queue[0] == a.queue[0];
    }
  }

  lemma TakeFromRest(replies: seq<Byte>, rest: seq<Byte>, tail: seq<Byte>, n: nat)
    requires replies == rest + tail && n <= |rest|
    ensures replies[..n] == rest[..n] && replies[n..] == rest[n..] + tail
  {
  }

  lemma ReceiveIsFramed(net: Net, n: nat)
    requires net.Framed() && n <= |net.replies| && net.MayReceive(n)
    ensures ReceiveBytes(net, n).Framed()
    ensures net.rest != [] ==> net.replies[..n] == net.rest[..n]
  {
    if net.rest == [] {
      Associative(net.head, net.replies[..n], net.replies[n..]);
      assert net.replies[..n] + net.replies[n..] == net.replies;
    } else {
      assert net.head + net.replies == net.replies;
      TakeFromRest(net.replies, net.rest, EncodeReplies(net.queue), n);
      assert net.head + net.replies[n..] == net.replies[n..];
    }
  }

  lemma ReceiveIsLinked(file: seq<Byte>, net: Net, n: nat)
    requires net.Linked(file) && n <= |net.replies| && net.MayReceive(n)
    ensures ReceiveBytes(net, n).Linked(file)
  {
    if net.rest != [] {
      IsAtSplit(file, net.front.pos - |net.rest|, net.rest, n);
    }
  }

  lemma ReceiveIsValid(file: seq<Byte>, net: Net, n: nat)
    requires net.Valid(file) && n <= |net.replies| && net.MayReceive(n)
    ensures ReceiveBytes(net, n).Valid(file)
    ensures net.rest != [] ==> net.replies[..n] == net.rest[..n]
  {
    ReceiveIsFramed(net, n);
    ReceiveIsLinked(file, net, n);
  }

  /** Once the output is flushed, the bytes sent are whole requests with their data, numbered
      1, 2, 3, ... modulo 2^32. */
  lemma SentRequests(file: seq<Byte>, n: Net)
    requires Sound(file, n) && n.unsent == []
    ensures AllOnWire(n.history, n.sent)
  {
    Unsealed(file, n);
    AllRequestsAreWhole(n.history, n.sent);
  }
}
