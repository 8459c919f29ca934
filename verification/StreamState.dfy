/** What a read stream keeps between the steps of its state machine, and how each step
    changes what it knows about the connection. */
module StreamState {
  import opened Sequences
  import opened Wire
  import opened StreamIo
  import opened ReadChannel
  import RequestStream

  const MAX_READ_SIZE: nat := 4 * 1024 * 1024

  datatype InputState = InReplyHeader | InBlock
  datatype PreRead = PreRead(data: seq<Byte>, gen: UInt32)

  datatype OpKind = ReadOp | SeekOp | QueryOp | CloseOp
  datatype OpState = Init | WroteRequest | HandleInput | HandleInputBlock | SkipBlock | HandleHeader | ReadBlock

  /** What an operation hands back: the source's ret_val, ret_error, ret_offset and info. */
  datatype Outcome =
    | Unfinished
    | Bytes(data: seq<Byte>)
    | Cancelled
    | Refused(code: UInt32, text: seq<Byte>)
    | At(pos: nat)
    | Information(data: seq<Byte>)
    | ClosedWell

  datatype Operation = Operation(
    kind: OpKind,
    state: OpState,
    bufferSize: nat,          // read: room in the caller's buffer
    buffer: seq<Byte>,        // what the last socket read put in the caller's (or a fresh) buffer
    offset: int,              // seek
    seekType: SeekType,
    attributes: seq<Byte>,    // query
    outcome: Outcome,
    sentCancel: bool,
    sentSeek: bool,
    seqNr: UInt32)
  {
    function Issued(): Issue {
      Issue(kind, seqNr, sentCancel, sentSeek)
    }
  }

  // ---------- Reply headers ----------

  /** get_reply_header_missing_bytes, with its 32-bit sum and 64-bit difference. */
  function MissingBytes(buffer: seq<Byte>): nat {
    if |buffer| < REPLY_SIZE then REPLY_SIZE - |buffer|
    else MissingAfterHeader(Word(buffer, 0), Word(buffer, 3), |buffer|)
  }

  function MissingAfterHeader(kind: UInt32, arg2: UInt32, len: nat): nat {
    if kind == REPLY_ERROR || kind == REPLY_INFO then ((REPLY_SIZE + arg2) % TWO_32 - len) % TWO_64
    else 0
  }

  /** Sixteen bytes of head are the header of the first queued reply. */
  lemma HeaderSeen(n: Net)
    requires n.Framed() && n.rest == [] && |n.head| >= REPLY_SIZE
    ensures n.queue != []
    ensures Word(n.head, 0) == n.queue[0].Kind() && Word(n.head, 1) == n.queue[0].id % TWO_32
    ensures Word(n.head, 2) == n.queue[0].Arg1() && Word(n.head, 3) == n.queue[0].Arg2()
  {
    var tail := EncodeReplies(n.queue[1..]);
    assert n.head + n.replies == [] + (n.queue[0].Encoded() + tail) == n.queue[0].Encoded() + tail;
    WordsSeen(n.queue[0], n.head, n.replies, tail);
  }

  lemma MissingAfterHeaderOf(m: Reply, len: nat)
    requires m.Sendable() && (m.Closed? ==> m.body == []) && REPLY_SIZE <= len <= |Decodable(m)|
    ensures len + MissingAfterHeader(m.Kind(), m.Arg2(), len) == |Decodable(m)|
  {
    if m.Error? || m.Info? {
      SmallModulo(|m.body|, TWO_32);
      SmallModulo(REPLY_SIZE + |m.body|, TWO_32);
      SmallModulo(REPLY_SIZE + |m.body| - len, TWO_64);
    }
  }

  /** A reply at the front of the queue that is not a block is an answer within the wire's limits. */
  lemma FrontReply(file: seq<Byte>, n: Net)
    requires n.Linked(file) && n.queue != []
    ensures Continues(file, n.history, n.queue[0], n.front)
    ensures n.queue[0].Sendable() && (n.queue[0].Closed? ==> n.queue[0].body == [])
  {
  }

  /** The bytes asked for end with the fixed header, then with the whole reply, never later. */
  lemma MissingBytesExact(file: seq<Byte>, n: Net)
    requires n.Framed() && n.Linked(file) && n.rest == []
    ensures n.MayReceive(MissingBytes(n.head))
    ensures |n.head| >= REPLY_SIZE ==> n.queue != [] && |n.head| + MissingBytes(n.head) == |Decodable(n.queue[0])|
  {
    if |n.head| >= REPLY_SIZE {
      HeaderSeen(n);
      FrontReply(file, n);
      MissingAfterHeaderOf(n.queue[0], |n.head|);
    }
  }

  lemma HeadIsWhole(file: seq<Byte>, n: Net)
    requires n.Framed() && n.Linked(file) && n.rest == [] && MissingBytes(n.head) == 0
    ensures n.queue != [] && n.head == Decodable(n.queue[0])
  {
    MissingBytesExact(file, n);
    assert n.head + n.replies == [] + EncodeReplies(n.queue) == EncodeReplies(n.queue);
    WholeHead(n.queue[0], n.head, n.replies, EncodeReplies(n.queue[1..]));
  }

  lemma WholeHead(m: Reply, head: seq<Byte>, t: seq<Byte>, tail: seq<Byte>)
    requires head + t == m.Encoded() + tail && |head| == |Decodable(m)|
    ensures head == Decodable(m)
  {
    assert head == (head + t)[..|head|];
    assert Decodable(m) == (m.Encoded() + tail)[..|head|];
  }

  /** The words of a whole header. */
  lemma HeaderOf(file: seq<Byte>, n: Net)
    requires Sound(file, n) && n.rest == [] && n.queue != [] && n.head == Decodable(n.queue[0])
    ensures |n.head| >= REPLY_SIZE
    ensures Word(n.head, 0) == n.queue[0].Kind() && Word(n.head, 1) == n.queue[0].id % TWO_32
    ensures Word(n.head, 2) == n.queue[0].Arg1() && Word(n.head, 3) == n.queue[0].Arg2()
  {
    Unsealed(file, n);
    HeaderSeen(n);
  }

  lemma WordsMean(m: Reply)
    requires m.Sendable()
    ensures m.Data? ==> m.Arg1() == |m.body| && m.Arg2() == m.gen
    ensures m.SeekPos? ==> m.Arg2() * TWO_32 + m.Arg1() == m.pos
  {
    if m.SeekPos? {
      assert m.pos / TWO_32 < TWO_32;
    }
  }

  /** What a client standing in a data block knows of its remainder. */
  lemma RestOfBlock(file: seq<Byte>, n: Net)
    requires Sound(file, n)
    ensures |n.rest| <= n.front.pos && IsAt(file, n.front.pos - |n.rest|, n.rest)
    ensures n.front.answered <= |n.history|
  {
    Unsealed(file, n);
  }

  // ---------- Blocks read ahead of the caller ----------

  /** The queued bytes of generation `g`. */
  ghost function Current(pre: seq<PreRead>, g: UInt32): seq<Byte> {
    if pre == [] then [] else (if pre[0].gen == g then pre[0].data else []) + Current(pre[1..], g)
  }

  /** The length of the first block of generation `g` in the queue. */
  ghost function FirstLength(pre: seq<PreRead>, g: UInt32): nat {
    if pre == [] then 0 else if pre[0].gen == g then |pre[0].data| else FirstLength(pre[1..], g)
  }

  lemma {:induction false} CurrentAppend(pre: seq<PreRead>, x: PreRead, g: UInt32)
    ensures Current(pre + [x], g) == Current(pre, g) + if x.gen == g then x.data else []
  {
    if pre == [] {
      assert [x][1..] == [];
    } else {
      CurrentAppend(pre[1..], x, g);
      assert (pre + [x])[1..] == pre[1..] + [x];
    }
  }

  lemma QueuedBlock(file: seq<Byte>, at: nat, pre: seq<PreRead>, x: PreRead, g: UInt32)
    requires x.gen == g && IsAt(file, at, Current(pre, g)) && IsAt(file, at + |Current(pre, g)|, x.data)
    ensures |Current(pre + [x], g)| == |Current(pre, g)| + |x.data|
    ensures IsAt(file, at, Current(pre + [x], g))
  {
    CurrentAppend(pre, x, g);
    IsAtConcat(file, at, Current(pre, g), x.data);
  }

  ghost predicate NoneEmpty(pre: seq<PreRead>) {
    forall i :: 0 <= i < |pre| ==> pre[i].data != []
  }

  /** The client's place in the reply stream: a data block or a header, the generation it is
      in, the blocks read ahead, and the file offset `cursor` of the next byte to return.
      `k` bytes of the current block have been received but not yet accounted for. */
  ghost predicate InPlace(file: seq<Byte>, head: seq<Byte>, rest: seq<Byte>, front: Point, state: InputState, size: nat,
                          gen: UInt32, pre: seq<PreRead>, g: UInt32, cursor: nat, k: nat)
  {
    && NoneEmpty(pre)
    && (match state
        case InReplyHeader => rest == [] && k == 0
        case InBlock =>
          && head == [] && size == |rest| + k && gen == front.gen
          && (size == 0 ==> front.pos >= |file|))
    && (if front.gen == g
        then cursor + |Current(pre, g)| + k + |rest| == front.pos && IsAt(file, cursor, Current(pre, g))
        else Current(pre, g) == [])
  }

  /** `InPlace`, sealed: the verifier looks inside only where `Mark` is mentioned. */
  ghost predicate Holds(file: seq<Byte>, head: seq<Byte>, rest: seq<Byte>, front: Point, state: InputState, size: nat,
                        gen: UInt32, pre: seq<PreRead>, g: UInt32, cursor: nat, k: nat)
  {
    forall i: nat {:trigger Mark(front, i)} :: Mark(front, i) ==>
      InPlace(file, head, rest, front, state, size, gen, pre, g, cursor, k)
  }

  lemma OpenHolds(file: seq<Byte>, head: seq<Byte>, rest: seq<Byte>, front: Point, state: InputState, size: nat,
                  gen: UInt32, pre: seq<PreRead>, g: UInt32, cursor: nat, k: nat)
    requires Holds(file, head, rest, front, state, size, gen, pre, g, cursor, k)
    ensures InPlace(file, head, rest, front, state, size, gen, pre, g, cursor, k)
  {
    assert Mark(front, 0);
  }

  /** Bytes are taken from the first queued block. */
  lemma HoldsTake(file: seq<Byte>, head: seq<Byte>, rest: seq<Byte>, front: Point, state: InputState, size: nat,
                  gen: UInt32, pre: seq<PreRead>, g: UInt32, cursor: nat, len: nat)
    requires Holds(file, head, rest, front, state, size, gen, pre, g, cursor, 0) && front.gen == g
    requires pre != [] && pre[0].gen == g && len <= |pre[0].data|
    ensures pre[0].data != [] && IsAt(file, cursor, pre[0].data[..len])
    ensures Holds(file, head, rest, front, state, size, gen, WithoutFront(pre, len), g, cursor + len, 0)
  {
    OpenHolds(file, head, rest, front, state, size, gen, pre, g, cursor, 0);
    TakeFront(pre, g, len);
    IsAtSplit(file, cursor, Current(pre, g), len);
    assert InPlace(file, head, rest, front, state, size, gen, WithoutFront(pre, len), g, cursor + len, 0);
  }

  function WithoutFront(pre: seq<PreRead>, len: nat): seq<PreRead>
    requires pre != [] && len <= |pre[0].data|
  {
    if len < |pre[0].data| then [PreRead(pre[0].data[len..], pre[0].gen)] + pre[1..] else pre[1..]
  }

  lemma TakeFront(pre: seq<PreRead>, g: UInt32, len: nat)
    requires pre != [] && pre[0].gen == g && len <= |pre[0].data|
    ensures Current(pre, g)[..len] == pre[0].data[..len]
    ensures Current(WithoutFront(pre, len), g) == Current(pre, g)[len..]
    ensures NoneEmpty(pre) ==> NoneEmpty(WithoutFront(pre, len))
  {
    var d, t := pre[0].data, Current(pre[1..], g);
    assert (d + t)[..len] == d[..len] && (d + t)[len..] == d[len..] + t;
    if len < |d| {
      assert ([PreRead(d[len..], g)] + pre[1..])[1..] == pre[1..];
    }
  }

  /** Where the reply stream stands, from what the client holds. */
  lemma FrontPosition(file: seq<Byte>, head: seq<Byte>, rest: seq<Byte>, front: Point, state: InputState, size: nat,
                      gen: UInt32, pre: seq<PreRead>, g: UInt32, cursor: nat)
    requires Holds(file, head, rest, front, state, size, gen, pre, g, cursor, 0) && front.gen == g
    ensures front.pos == cursor + |Current(pre, g)| + |rest|
  {
    OpenHolds(file, head, rest, front, state, size, gen, pre, g, cursor, 0);
  }

  /** A queued block of the current generation comes first, or can be left out. */
  lemma FrontOfQueue(file: seq<Byte>, head: seq<Byte>, rest: seq<Byte>, front: Point, state: InputState, size: nat,
                     gen: UInt32, pre: seq<PreRead>, g: UInt32, cursor: nat)
    requires Holds(file, head, rest, front, state, size, gen, pre, g, cursor, 0) && pre != []
    ensures pre[0].data != []
    ensures if pre[0].gen == g then Current(pre, g) != [] else Current(pre[1..], g) == Current(pre, g)
  {
    OpenHolds(file, head, rest, front, state, size, gen, pre, g, cursor, 0);
    assert pre[0].data != [];
  }

  /** A stale queued block is dropped. */
  lemma HoldsDrop(file: seq<Byte>, head: seq<Byte>, rest: seq<Byte>, front: Point, state: InputState, size: nat,
                  gen: UInt32, pre: seq<PreRead>, g: UInt32, cursor: nat)
    requires Holds(file, head, rest, front, state, size, gen, pre, g, cursor, 0) && pre != [] && pre[0].gen != g
    ensures Holds(file, head, rest, front, state, size, gen, pre[1..], g, cursor, 0)
  {
    OpenHolds(file, head, rest, front, state, size, gen, pre, g, cursor, 0);
    assert InPlace(file, head, rest, front, state, size, gen, pre[1..], g, cursor, 0);
  }

  /** All queued blocks are dropped, at a close. */
  lemma HoldsClear(file: seq<Byte>, head: seq<Byte>, rest: seq<Byte>, front: Point, state: InputState, size: nat,
                   gen: UInt32, pre: seq<PreRead>, g: UInt32, cursor: nat)
    requires Holds(file, head, rest, front, state, size, gen, pre, g, cursor, 0)
    ensures Holds(file, head, rest, front, state, size, gen, [], g, cursor + |Current(pre, g)|, 0)
  {
    OpenHolds(file, head, rest, front, state, size, gen, pre, g, cursor, 0);
    assert InPlace(file, head, rest, front, state, size, gen, [], g, cursor + |Current(pre, g)|, 0);
  }

  /** All queued blocks are dropped and the generation is `g'`, not the one of the reply stream. */
  lemma HoldsStale(file: seq<Byte>, head: seq<Byte>, rest: seq<Byte>, front: Point, state: InputState, size: nat,
                   gen: UInt32, pre: seq<PreRead>, g: UInt32, g': UInt32, cursor: nat)
    requires Holds(file, head, rest, front, state, size, gen, pre, g, cursor, 0) && front.gen != g'
    ensures Holds(file, head, rest, front, state, size, gen, [], g', cursor, 0)
  {
    OpenHolds(file, head, rest, front, state, size, gen, pre, g, cursor, 0);
    assert InPlace(file, head, rest, front, state, size, gen, [], g', cursor, 0);
  }

  function StateAfter(size: nat): InputState {
    if size == 0 then InReplyHeader else InBlock
  }

  /** In a current block with nothing queued the next byte is the block's; an empty one is the end. */
  lemma HoldsCurrent(file: seq<Byte>, head: seq<Byte>, rest: seq<Byte>, front: Point, size: nat,
                     gen: UInt32, pre: seq<PreRead>, g: UInt32, cursor: nat, k: nat)
    requires Holds(file, head, rest, front, InBlock, size, gen, pre, g, cursor, k) && front.gen == g && pre == []
    ensures cursor + k + |rest| == front.pos && size == |rest| + k && (size == 0 ==> cursor >= |file|)
  {
    OpenHolds(file, head, rest, front, InBlock, size, gen, pre, g, cursor, k);
  }

  /** Received block bytes are accounted for: skipped, or returned by a read. */
  lemma HoldsConsume(file: seq<Byte>, head: seq<Byte>, rest: seq<Byte>, front: Point, size: nat,
                     gen: UInt32, pre: seq<PreRead>, g: UInt32, cursor: nat, k: nat)
    requires Holds(file, head, rest, front, InBlock, size, gen, pre, g, cursor, k)
    requires front.gen == g ==> pre == []
    ensures k <= size
    ensures Holds(file, head, rest, front, StateAfter(size - k), size - k, gen, pre, g, if front.gen == g
                  then cursor + k else cursor, 0)
  {
    OpenHolds(file, head, rest, front, InBlock, size, gen, pre, g, cursor, k);
    assert InPlace(file, head, rest, front, StateAfter(size - k), size - k, gen, pre, g, if front.gen == g
                   then cursor + k else cursor, 0);
  }

  /** Received block bytes are queued. */
  lemma HoldsQueue(file: seq<Byte>, head: seq<Byte>, rest: seq<Byte>, front: Point, size: nat,
                   gen: UInt32, pre: seq<PreRead>, g: UInt32, cursor: nat, data: seq<Byte>)
    requires Holds(file, head, rest, front, InBlock, size, gen, pre, g, cursor, |data|)
    requires front.gen == g && data != [] && |data| + |rest| <= front.pos
      && IsAt(file, front.pos - |rest| - |data|, data)
    ensures |data| <= size && gen == g
    ensures Holds(file, head, rest, front, StateAfter(size - |data|), size - |data|, gen, pre + [PreRead(data, gen)], g,
                  cursor, 0)
  {
    OpenHolds(file, head, rest, front, InBlock, size, gen, pre, g, cursor, |data|);
    QueuedBlock(file, cursor, pre, PreRead(data, gen), g);
    assert InPlace(file, head, rest, front, StateAfter(size - |data|), size - |data|, gen, pre + [PreRead(data, gen)],
                   g, cursor, 0);
  }

  /** More bytes of a header arrive. */
  lemma HoldsHeader(file: seq<Byte>, head: seq<Byte>, head': seq<Byte>, rest: seq<Byte>, front: Point, size: nat,
                    gen: UInt32, pre: seq<PreRead>, g: UInt32, cursor: nat)
    requires Holds(file, head, rest, front, InReplyHeader, size, gen, pre, g, cursor, 0)
    ensures rest == [] && Holds(file, head', rest, front, InReplyHeader, size, gen, pre, g, cursor, 0)
  {
    OpenHolds(file, head, rest, front, InReplyHeader, size, gen, pre, g, cursor, 0);
    assert InPlace(file, head', rest, front, InReplyHeader, size, gen, pre, g, cursor, 0);
  }

  /** More bytes of a block arrive. */
  lemma HoldsBlock(file: seq<Byte>, head: seq<Byte>, rest: seq<Byte>, front: Point, size: nat,
                   gen: UInt32, pre: seq<PreRead>, g: UInt32, cursor: nat, n: nat)
    requires Holds(file, head, rest, front, InBlock, size, gen, pre, g, cursor, 0) && n <= |rest|
    ensures head == [] && size == |rest| && Holds(file, head, rest[n..], front, InBlock, size, gen, pre, g, cursor, n)
  {
    OpenHolds(file, head, rest, front, InBlock, size, gen, pre, g, cursor, 0);
    assert InPlace(file, head, rest[n..], front, InBlock, size, gen, pre, g, cursor, n);
  }

  /** The header of a data block is decoded. */
  lemma HoldsData(file: seq<Byte>, n: Net, size: nat, gen: UInt32, pre: seq<PreRead>, g: UInt32, cursor: nat)
    requires Sound(file, n) && n.queue != [] && n.queue[0].Data?
    requires Holds(file, n.head, n.rest, n.front, InReplyHeader, size, gen, pre, g, cursor, 0)
    ensures var d := n.Decode();
      Holds(file, d.head, d.rest, d.front, InBlock, |n.queue[0].body|, n.queue[0].gen, pre, g, cursor, 0)
  {
    OpenHolds(file, n.head, n.rest, n.front, InReplyHeader, size, gen, pre, g, cursor, 0);
    FrontReplyOf(file, n);
    var d := n.Decode();
    assert InPlace(file, d.head, d.rest, d.front, InBlock, |n.queue[0].body|, n.queue[0].gen, pre, g, cursor, 0);
  }

  /** Another reply is decoded that does not concern the file position. */
  lemma HoldsOther(file: seq<Byte>, n: Net, size: nat, gen: UInt32, pre: seq<PreRead>, g: UInt32, cursor: nat)
    requires n.queue != [] && !n.queue[0].Data? && !n.queue[0].OfSeek()
    requires Holds(file, n.head, n.rest, n.front, InReplyHeader, size, gen, pre, g, cursor, 0)
    ensures var d := n.Decode(); Holds(file, d.head, d.rest, d.front, InReplyHeader, size, gen, pre, g, cursor, 0)
  {
    OpenHolds(file, n.head, n.rest, n.front, InReplyHeader, size, gen, pre, g, cursor, 0);
    var d := n.Decode();
    assert InPlace(file, d.head, d.rest, d.front, InReplyHeader, size, gen, pre, g, cursor, 0);
  }

  /** The answer to a seek is decoded: the client is in the daemon's generation again. */
  lemma HoldsSeek(file: seq<Byte>, n: Net, size: nat, gen: UInt32, pre: seq<PreRead>, g: UInt32, cursor: nat)
    requires n.queue != [] && n.queue[0].OfSeek() && g == NextGeneration(n.front.gen)
    requires Holds(file, n.head, n.rest, n.front, InReplyHeader, size, gen, pre, g, cursor, 0)
    ensures var d := n.Decode();
      d.front.gen == g && Holds(file, d.head, d.rest, d.front, InReplyHeader, size, gen, pre, g, d.front.pos, 0)
  {
    OpenHolds(file, n.head, n.rest, n.front, InReplyHeader, size, gen, pre, g, cursor, 0);
    var d := n.Decode();
    assert InPlace(file, d.head, d.rest, d.front, InReplyHeader, size, gen, pre, g, d.front.pos, 0);
  }

  /** The requests from index `from` on that are seeks: only number `id`, if any. */
  ghost predicate SeeksOnly(history: seq<Request>, from: nat, id: nat) {
    forall i :: from <= i < |history| ==> (history[i].IsSeek() <==> i + 1 == id)
  }

  /** The reply ends the operation whose request is number `id`. */
  ghost predicate Ends(kind: OpKind, id: nat, m: Reply) {
    match kind
    case ReadOp => m.Data? || (m.Error? && m.id == id)
    case SeekOp => m.id == id && (m.Error? || m.SeekPos?)
    case QueryOp => m.id == id && (m.Error? || m.Info?)
    case CloseOp => m.id == id && (m.Error? || m.Closed?)
  }

  /** None of the replies ends the operation. */
  ghost predicate Unended(passed: seq<Reply>, kind: OpKind, id: nat) {
    forall i :: 0 <= i < |passed| ==> !Ends(kind, id, passed[i])
  }

  // ---------- The replies an operation has heard ----------

  /** The replies decoded since the connection was `begun`. */
  ghost function Heard(begun: Net, n: Net): seq<Reply> {
    if 0 <= begun.Decoded() <= n.Decoded() <= |n.log| then n.log[begun.Decoded()..n.Decoded()] else []
  }

  /** The second state of the connection comes after the first. */
  ghost predicate Later(a: Net, b: Net) {
    a.log <= b.log && 0 <= a.Decoded() <= b.Decoded() <= |b.log|
  }

  lemma NothingHeard(file: seq<Byte>, n: Net)
    requires Sound(file, n)
    ensures Later(n, n) && Heard(n, n) == []
  {
    Unsealed(file, n);
  }

  lemma HeardOn(a: Net, b: Net, c: Net)
    requires Later(a, b) && Later(b, c)
    ensures Later(a, c) && Heard(a, c) == Heard(a, b) + Heard(b, c)
  {
    assert b.log == c.log[..|b.log|];
    assert Heard(a, b) == c.log[a.Decoded()..b.Decoded()];
  }

  /** The data in the replies. */
  ghost function Payload(ms: seq<Reply>): nat {
    if ms == [] then 0 else Payload(ms[..|ms| - 1]) + if ms[|ms| - 1].Data? then |ms[|ms| - 1].body| else 0
  }

  lemma PayloadAppend(ms: seq<Reply>, m: Reply)
    ensures Payload(ms + [m]) == Payload(ms) + if m.Data? then |m.body| else 0
  {
    assert (ms + [m])[..|ms|] == ms;
  }

  lemma {:induction false} PayloadConcat(a: seq<Reply>, b: seq<Reply>)
    ensures Payload(a + b) == Payload(a) + Payload(b)
  {
    if b == [] {
      assert a + b == a;
    } else {
      var n := |b| - 1;
      PayloadConcat(a, b[..n]);
      assert (a + b[..n]) + [b[n]] == a + b && b[..n] + [b[n]] == b;
      PayloadAppend(a + b[..n], b[n]);
    }
  }

  /** The operation goes on: no reply so far has ended it, but for the data block that a read
      is in. Where the reply stream stands follows from the data heard. */
  ghost predicate GoesOn(begun: Net, n: Net, kind: OpKind, id: nat, block: bool) {
    && begun.log <= n.log && 0 <= begun.Decoded() <= n.Decoded() <= |n.log|
    && n.front.pos == begun.front.pos + Payload(Heard(begun, n))
    && var heard := Heard(begun, n);
       if block then heard != [] && heard[|heard| - 1].Data? && Unended(heard[..|heard| - 1], kind, id)
       else Unended(heard, kind, id)
  }

  /** The last reply decoded, and none before it, has ended the operation. */
  ghost predicate Settled(begun: Net, n: Net, kind: OpKind, id: nat) {
    && begun.log <= n.log && 0 <= begun.Decoded() < n.Decoded() <= |n.log|
    && var heard := Heard(begun, n);
       Ends(kind, id, heard[|heard| - 1]) && Unended(heard[..|heard| - 1], kind, id)
  }

  /** The outcome is what the reply says. */
  ghost predicate Tells(outcome: Outcome, m: Reply) {
    match outcome
    case Refused(code, text) => m.Error? && m.code == code && m.body == text
    case At(pos) => m.SeekPos? && m.pos == pos
    case Information(data) => m.Info? && m.body == data
    case ClosedWell => m.Closed?
    case _ => false
  }

  /** A read is served without a reply, or by the first data block it meets; the reply stream has
      moved by the data heard. */
  ghost predicate Served(begun: Net, n: Net, id: nat) {
    && begun.log <= n.log && n.front.pos == begun.front.pos + Payload(Heard(begun, n))
    && (n.Decoded() == begun.Decoded() || (Settled(begun, n, ReadOp, id) && n.log[n.Decoded() - 1].Data?))
  }

  /** `GoesOn`, sealed: the verifier looks inside only where `Mark` is mentioned. */
  ghost predicate Listens(begun: Net, n: Net, kind: OpKind, id: nat, block: bool) {
    forall k: nat {:trigger Mark((begun, id), k)} :: Mark((begun, id), k) ==> GoesOn(begun, n, kind, id, block)
  }

  lemma OpenListens(begun: Net, n: Net, kind: OpKind, id: nat, block: bool)
    requires Listens(begun, n, kind, id, block)
    ensures GoesOn(begun, n, kind, id, block)
  {
    assert Mark((begun, id), 0);
  }

  lemma ListensBegin(file: seq<Byte>, begun: Net, n: Net, kind: OpKind, id: nat)
    requires Sound(file, begun) && n == begun.(history := n.history, unsent := n.unsent)
    ensures Listens(begun, n, kind, id, false)
  {
    Unsealed(file, begun);
    assert Heard(begun, n) == [];
    assert GoesOn(begun, n, kind, id, false);
  }

  /** The daemon puts more replies on the connection, and bytes go either way. */
  lemma ListensOn(begun: Net, n: Net, n': Net, kind: OpKind, id: nat, block: bool)
    requires Listens(begun, n, kind, id, block) && n.log <= n'.log && n'.Decoded() == n.Decoded() && n'.front == n.front
    ensures Listens(begun, n', kind, id, block)
  {
    OpenListens(begun, n, kind, id, block);
    assert Heard(begun, n') == Heard(begun, n);
    assert GoesOn(begun, n', kind, id, block);
  }

  lemma ServedOn(begun: Net, n: Net, n': Net, id: nat)
    requires Served(begun, n, id) && n.log <= n'.log && n'.Decoded() == n.Decoded() && n'.front == n.front
    requires n.Decoded() <= |n.log|
    ensures Served(begun, n', id)
  {
    assert Heard(begun, n') == Heard(begun, n);
  }

  /** One more reply is heard. */
  lemma HeardMore(file: seq<Byte>, begun: Net, n: Net)
    requires Sound(file, n) && n.queue != [] && 0 <= begun.Decoded() <= n.Decoded()
    ensures Heard(begun, n.Decode()) == Heard(begun, n) + [n.queue[0]]
      && n.Decode().Decoded() == n.Decoded() + 1 <= |n.log|
    ensures n.log[n.Decoded()] == n.queue[0]
  {
    Unsealed(file, n);
    var d := n.Decode();
    assert n.queue[0] == n.log[n.Decoded()];
    assert n.log[begun.Decoded()..n.Decoded() + 1] == n.log[begun.Decoded()..n.Decoded()] + [n.log[n.Decoded()]];
  }

  /** A reply that moves no position but by its data. */
  lemma MovesByData(m: Reply, p: Point)
    requires !m.SeekPos?
    ensures After(m, p).pos == p.pos + if m.Data? then |m.body| else 0
  {
  }

  lemma UnendedMore(heard: seq<Reply>, m: Reply, kind: OpKind, id: nat)
    ensures Unended(heard + [m], kind, id) <==> Unended(heard, kind, id) && !Ends(kind, id, m)
  {
    assert Unended(heard + [m], kind, id) ==> !Ends(kind, id, (heard + [m])[|heard|]);
    assert Unended(heard + [m], kind, id) ==> forall i :: 0 <= i < |heard| ==> heard[i] == (heard + [m])[i];
  }

  /** A reply is passed over, or a data block is met. */
  lemma ListensDecode(file: seq<Byte>, begun: Net, n: Net, kind: OpKind, id: nat)
    requires Sound(file, n) && n.queue != [] && Listens(begun, n, kind, id, false) && !n.queue[0].SeekPos?
    ensures !Ends(kind, id, n.queue[0]) ==> Listens(begun, n.Decode(), kind, id, false)
    ensures kind.ReadOp? && n.queue[0].Data? ==> Listens(begun, n.Decode(), kind, id, true)
  {
    OpenListens(begun, n, kind, id, false);
    var m, d := n.queue[0], n.Decode();
    HeardMore(file, begun, n);
    PayloadAppend(Heard(begun, n), m);
    MovesByData(m, n.front);
    UnendedMore(Heard(begun, n), m, kind, id);
    var heard := Heard(begun, d);
    assert heard[..|heard| - 1] == Heard(begun, n);
    if !Ends(kind, id, m) {
      assert GoesOn(begun, d, kind, id, false);
    }
    if kind.ReadOp? && m.Data? {
      assert GoesOn(begun, d, kind, id, true);
    }
  }

  /** A reply ends the operation. */
  lemma ListensEnd(file: seq<Byte>, begun: Net, n: Net, kind: OpKind, id: nat)
    requires Sound(file, n) && n.queue != [] && Listens(begun, n, kind, id, false) && Ends(kind, id, n.queue[0])
    ensures Settled(begun, n.Decode(), kind, id) && n.log[n.Decoded()] == n.queue[0]
      && n.Decode().Decoded() == n.Decoded() + 1
    ensures !n.queue[0].SeekPos? ==> n.Decode().front.pos == begun.front.pos + Payload(Heard(begun, n.Decode()))
  {
    OpenListens(begun, n, kind, id, false);
    var m, d := n.queue[0], n.Decode();
    HeardMore(file, begun, n);
    var heard := Heard(begun, d);
    assert heard[..|heard| - 1] == Heard(begun, n) && heard[|heard| - 1] == m;
    if !m.SeekPos? {
      PayloadAppend(Heard(begun, n), m);
      MovesByData(m, n.front);
    }
  }

  /** A read in its data block is served by it. */
  lemma BlockServes(begun: Net, n: Net, id: nat)
    requires Listens(begun, n, ReadOp, id, true)
    ensures Served(begun, n, id)
  {
    OpenListens(begun, n, ReadOp, id, true);
    var heard := Heard(begun, n);
    assert heard[|heard| - 1] == n.log[n.Decoded() - 1];
  }

  /** The daemon has hung up and the whole of what it sent has been decoded: nothing in it ends
      the operation. */
  lemma NothingEnds(file: seq<Byte>, begun: Net, n: Net, kind: OpKind, id: nat)
    requires Sound(file, n) && n.queue == [] && Listens(begun, n, kind, id, false)
    ensures 0 <= begun.Decoded() <= |n.log| && Unended(n.log[begun.Decoded()..], kind, id)
  {
    OpenListens(begun, n, kind, id, false);
    assert Heard(begun, n) == n.log[begun.Decoded()..];
  }

  /** Without bytes in transit, a header that is not whole is empty. */
  lemma NoneQueued(file: seq<Byte>, n: Net)
    requires Sound(file, n) && HungUp(n) && MissingBytes(n.head) > 0
    ensures n.queue == []
  {
    Unsealed(file, n);
    if n.queue != [] {
      assert n.head == n.head + n.replies == n.rest + EncodeReplies(n.queue) == EncodeReplies(n.queue);
      MissingBytesExact(file, n);
    }
  }

  /** The only seek that may still be unanswered while an operation waits. */
  function SeekId(kind: OpKind, request: Request): nat {
    if kind.SeekOp? then request.id else 0
  }

  /** The part of an operation that concerns its request. */
  datatype Issue = Issue(kind: OpKind, seqNr: UInt32, sentCancel: bool, sentSeek: bool)

  /** The request of the operation in progress is the last one (but for its CANCEL), and the
      client's generation `g` is ahead of the reply stream only while its own seek is unanswered. */
  ghost predicate Follows(history: seq<Request>, front: Point, left: nat, i: Issue, request: Request, start: nat,
                          g: UInt32) {
    && 0 < request.id <= |history| && history[request.id - 1] == request
    && i.seqNr == request.id % TWO_32
    && |history| == request.id + (if i.sentCancel then 1 else 0)
    && (i.sentCancel ==> history[request.id].command == CANCEL)
    && SeeksOnly(history, front.answered, SeekId(i.kind, request))
    && (i.kind.SeekOp? ==> front.answered < request.id && start + left <= front.pos)
    && (if i.kind.SeekOp? && i.sentSeek then g == NextGeneration(front.gen) else front.gen == g)
  }

  /** `Follows`, sealed: the verifier looks inside only where `Mark` is mentioned. */
  ghost predicate Tracks(history: seq<Request>, front: Point, left: nat, i: Issue, request: Request, start: nat,
                         g: UInt32) {
    forall k: nat {:trigger Mark(front, k)} :: Mark(front, k) ==> Follows(history, front, left, i, request, start, g)
  }

  lemma OpenTracks(history: seq<Request>, front: Point, left: nat, i: Issue, request: Request, start: nat, g: UInt32)
    requires Tracks(history, front, left, i, request, start, g)
    ensures Follows(history, front, left, i, request, start, g)
  {
    assert Mark(front, 0);
  }

  lemma TracksBegin(history: seq<Request>, front: Point, left: nat, i: Issue, request: Request, start: nat, g: UInt32)
    requires SeeksOnly(history, front.answered, 0) && front.gen == g && front.answered <= |history|
    requires request.id == |history| + 1 && i.seqNr == request.id % TWO_32 && !i.sentCancel && !i.sentSeek
    requires request.IsSeek() <==> i.kind.SeekOp?
    requires start + left <= front.pos
    ensures Tracks(history + [request], front, left, i, request, start, g)
  {
    assert Follows(history + [request], front, left, i, request, start, g);
  }

  lemma TracksCancel(history: seq<Request>, front: Point, left: nat, i: Issue, request: Request, start: nat, g: UInt32,
                     q: Request)
    requires Tracks(history, front, left, i, request, start, g) && !i.sentCancel && q.command == CANCEL
    ensures Tracks(history + [q], front, left, i.(sentCancel := true), request, start, g)
  {
    OpenTracks(history, front, left, i, request, start, g);
    assert Follows(history + [q], front, left, i.(sentCancel := true), request, start, g);
  }

  /** The generation of a client whose seek request is on its way. */
  lemma TracksSeek(history: seq<Request>, front: Point, left: nat, i: Issue, request: Request, start: nat, g: UInt32)
    requires Tracks(history, front, left, i, request, start, g) && i.kind.SeekOp?
    ensures var g' := if i.sentSeek then g else NextGeneration(g);
      front.gen != g' && Tracks(history, front, left, i.(sentSeek := true), request, start, g')
  {
    OpenTracks(history, front, left, i, request, start, g);
    var g' := if i.sentSeek then g else NextGeneration(g);
    assert Follows(history, front, left, i.(sentSeek := true), request, start, g');
  }

  /** Taking the request back leaves no seek unanswered. */
  lemma TracksWithdraw(history: seq<Request>, front: Point, left: nat, i: Issue, request: Request, start: nat,
                       g: UInt32)
    requires Tracks(history, front, left, i, request, start, g) && !i.sentCancel && !i.sentSeek
    ensures history != [] && history[|history| - 1] == request && front.gen == g
    ensures SeeksOnly(history[..|history| - 1], front.answered, 0)
  {
    OpenTracks(history, front, left, i, request, start, g);
  }

  lemma TracksLess(history: seq<Request>, front: Point, left: nat, left': nat, i: Issue, request: Request, start: nat,
                   g: UInt32)
    requires Tracks(history, front, left, i, request, start, g) && left' <= left
    ensures Tracks(history, front, left', i, request, start, g)
  {
    OpenTracks(history, front, left, i, request, start, g);
    assert Follows(history, front, left', i, request, start, g);
  }

  /** The client is in the generation of the reply stream unless its seek is on its way. */
  lemma TracksGeneration(history: seq<Request>, front: Point, left: nat, i: Issue, request: Request, start: nat,
                         g: UInt32)
    requires Tracks(history, front, left, i, request, start, g)
    ensures front.gen == g <==> !(i.kind.SeekOp? && i.sentSeek)
    ensures !i.kind.SeekOp? ==> SeeksOnly(history, front.answered, 0)
  {
    OpenTracks(history, front, left, i, request, start, g);
  }

  /** What a client learns from the next reply while it waits for the answer to its request. */
  lemma TracksReply(file: seq<Byte>, n: Net, i: Issue, request: Request, start: nat, g: UInt32)
    requires Sound(file, n) && n.queue != [] && n.rest == [] && n.WithinCapacity()
    requires Tracks(n.history, n.front, 0, i, request, start, g)
    ensures var m := n.queue[0];
      && m.Sendable() && Continues(file, n.history, m, n.front)
      && (!m.Data? ==> (m.id % TWO_32 == i.seqNr <==> m.id == request.id))
      && (m.OfSeek() <==> i.kind.SeekOp? && m.id == request.id && !m.Data? && (m.Error? ==> m.ofSeek))
      && (i.kind.SeekOp? && m.id == request.id && !m.Data? ==> m.Error? || m.SeekPos?)
      && (m.SeekPos? ==> m.pos == SeekTarget(file, request))
      && n.Decode().WithinCapacity()
  {
    OpenTracks(n.history, n.front, 0, i, request, start, g);
    DecodeFacts(file, n, request.id, SeekId(i.kind, request));
  }

  /** Decoding a reply that is not the answer to a seek in progress changes none of this. */
  lemma TracksDecode(file: seq<Byte>, n: Net, i: Issue, request: Request, start: nat, g: UInt32)
    requires Sound(file, n) && n.queue != [] && n.rest == [] && n.WithinCapacity()
    requires !(i.kind.SeekOp? && n.queue[0].id == request.id && !n.queue[0].Data?)
    requires Tracks(n.history, n.front, 0, i, request, start, g)
    ensures var d := n.Decode(); Tracks(d.history, d.front, |d.rest|, i, request, start, g)
  {
    OpenTracks(n.history, n.front, 0, i, request, start, g);
    DecodeFacts(file, n, request.id, SeekId(i.kind, request));
    var d := n.Decode();
    assert Follows(d.history, d.front, |d.rest|, i, request, start, g);
  }

  /** The header of a data block is decoded while an operation waits. */
  lemma DataDecoded(file: seq<Byte>, n: Net, size: nat, gen: UInt32, pre: seq<PreRead>, g: UInt32, cursor: nat,
                    i: Issue, request: Request, start: nat)
    requires Sound(file, n) && n.queue != [] && n.queue[0].Data? && n.WithinCapacity()
    requires Holds(file, n.head, n.rest, n.front, InReplyHeader, size, gen, pre, g, cursor, 0)
    requires Tracks(n.history, n.front, |n.rest|, i, request, start, g)
    ensures n.rest == []
    ensures var d := n.Decode();
      && Holds(file, d.head, d.rest, d.front, InBlock, |n.queue[0].body|, n.queue[0].gen, pre, g, cursor, 0)
      && Tracks(d.history, d.front, |d.rest|, i, request, start, g) && d.WithinCapacity()
  {
    HoldsHeader(file, n.head, n.head, n.rest, n.front, size, gen, pre, g, cursor);
    TracksReply(file, n, i, request, start, g);
    TracksDecode(file, n, i, request, start, g);
    HoldsData(file, n, size, gen, pre, g, cursor);
  }

  /** Decoding the answer to a seek ends it. */
  lemma TracksSeekEnd(file: seq<Byte>, n: Net, i: Issue, request: Request, start: nat, g: UInt32)
    requires Sound(file, n) && n.queue != [] && n.rest == [] && n.WithinCapacity() && n.queue[0].OfSeek() && i.sentSeek
    requires Tracks(n.history, n.front, 0, i, request, start, g)
    ensures var d := n.Decode();
      g == NextGeneration(n.front.gen) && SeeksOnly(d.history, d.front.answered, 0) && start <= n.front.pos
  {
    OpenTracks(n.history, n.front, 0, i, request, start, g);
    DecodeFacts(file, n, request.id, SeekId(i.kind, request));
  }

  /** The answer to a seek: the stream is in place at the daemon's position. */
  lemma SeekAnswered(file: seq<Byte>, n: Net, i: Issue, request: Request, start: nat, size: nat, gen: UInt32,
                     pre: seq<PreRead>,
                     g: UInt32, cursor: nat)
    requires Sound(file, n) && n.queue != [] && n.WithinCapacity() && i.sentSeek && i.kind.SeekOp?
    requires n.queue[0].id == request.id && !n.queue[0].Data? && (n.queue[0].Error? ==> n.queue[0].ofSeek)
    requires Tracks(n.history, n.front, |n.rest|, i, request, start, g)
    requires Holds(file, n.head, n.rest, n.front, InReplyHeader, size, gen, pre, g, cursor, 0)
    ensures n.rest == [] && n.Decode().WithinCapacity() && SeeksOnly(n.Decode().history, n.Decode().front.answered, 0)
    ensures n.queue[0].SeekPos? ==> n.queue[0].pos == SeekTarget(file, request)
    ensures var d := n.Decode();
      d.front.gen == g && Holds(file, d.head, d.rest, d.front, InReplyHeader, size, gen, pre, g, d.front.pos, 0)
  {
    HoldsHeader(file, n.head, n.head, n.rest, n.front, size, gen, pre, g, cursor);
    TracksReply(file, n, i, request, start, g);
    TracksSeekEnd(file, n, i, request, start, g);
    HoldsSeek(file, n, size, gen, pre, g, cursor);
  }

  /** A blocked channel has refused the seek: the client is a generation ahead of the daemon. */
  lemma SeekUncounted(file: seq<Byte>, n: Net, i: Issue, request: Request, start: nat, size: nat, gen: UInt32,
                      pre: seq<PreRead>,
                    g: UInt32, cursor: nat)
    requires Sound(file, n) && n.queue != [] && n.WithinCapacity() && i.sentSeek && i.kind.SeekOp?
    requires n.queue[0].id == request.id && n.queue[0].Error? && !n.queue[0].ofSeek
    requires Tracks(n.history, n.front, |n.rest|, i, request, start, g)
    requires Holds(file, n.head, n.rest, n.front, InReplyHeader, size, gen, pre, g, cursor, 0)
    ensures n.rest == [] && n.Decode().WithinCapacity() && SeeksOnly(n.Decode().history, n.Decode().front.answered, 0)
    ensures var d := n.Decode();
      g == NextGeneration(d.front.gen)
          && Holds(file, d.head, d.rest, d.front, InReplyHeader, size, gen, pre, g, cursor, 0)
  {
    HoldsHeader(file, n.head, n.head, n.rest, n.front, size, gen, pre, g, cursor);
    TracksReply(file, n, i, request, start, g);
    TracksBlocked(file, n, i, request, start, g);
    HoldsOther(file, n, size, gen, pre, g, cursor);
  }

  /** Either way, with the next byte's place. */
  lemma SeekConcluded(file: seq<Byte>, n: Net, i: Issue, request: Request, start: nat, size: nat, gen: UInt32,
                      pre: seq<PreRead>,
                      g: UInt32, cursor: nat) returns (next: nat)
    requires Sound(file, n) && n.queue != [] && n.WithinCapacity() && i.sentSeek && i.kind.SeekOp?
    requires n.queue[0].id == request.id && (n.queue[0].SeekPos? || n.queue[0].Error?)
    requires Tracks(n.history, n.front, |n.rest|, i, request, start, g)
    requires Holds(file, n.head, n.rest, n.front, InReplyHeader, size, gen, pre, g, cursor, 0)
    ensures n.rest == [] && n.Decode().WithinCapacity() && SeeksOnly(n.Decode().history, n.Decode().front.answered, 0)
    ensures n.queue[0].SeekPos? ==> n.queue[0].pos == SeekTarget(file, request)
    ensures var d := n.Decode();
      && Holds(file, d.head, d.rest, d.front, InReplyHeader, size, gen, pre, g, next, 0)
      && if n.queue[0].OfSeek() then d.front.gen == g && next == d.front.pos else g == NextGeneration(d.front.gen)
  {
    if n.queue[0].OfSeek() {
      SeekAnswered(file, n, i, request, start, size, gen, pre, g, cursor);
      next := n.Decode().front.pos;
    } else {
      SeekUncounted(file, n, i, request, start, size, gen, pre, g, cursor);
      next := cursor;
    }
  }

  lemma TracksBlocked(file: seq<Byte>, n: Net, i: Issue, request: Request, start: nat, g: UInt32)
    requires Sound(file, n) && n.queue != [] && n.rest == [] && n.WithinCapacity() && i.sentSeek && i.kind.SeekOp?
    requires n.queue[0].id == request.id && n.queue[0].Error? && !n.queue[0].ofSeek
    requires Tracks(n.history, n.front, 0, i, request, start, g)
    ensures g == NextGeneration(n.front.gen) && SeeksOnly(n.history, n.Decode().front.answered, 0)
  {
    OpenTracks(n.history, n.front, 0, i, request, start, g);
    DecodeFacts(file, n, request.id, SeekId(i.kind, request));
  }

  /** The seeks that the replies say were counted. */
  function Counted(q: seq<Reply>): nat {
    if q == [] then 0 else Counted(q[1..]) + if q[0].OfSeek() then 1 else 0
  }

  /** From then on no block is of the client's generation, however many seeks both sides count. */
  lemma {:induction false} NeverCurrent(file: seq<Byte>, history: seq<Request>, q: seq<Reply>, p: Point, p': Point,
                                        k: nat)
    requires Walk(file, history, q, p, p') && k < |q| && q[k].Data?
    ensures q[k].gen == (p.gen + Counted(q[..k])) % TWO_32 != (NextGeneration(p.gen) + Counted(q[..k])) % TWO_32
  {
    if k == 0 {
      assert q[..0] == [];
    } else {
      NeverCurrent(file, history, q[1..], After(q[0], p), p', k - 1);
      assert q[..k][1..] == q[1..][..k - 1];
      GenerationOn(file, history, q[0], p);
      NextOn(p.gen, Counted(q[1..][..k - 1]));
    }
    Apart(p.gen, Counted(q[..k]));
  }

  lemma GenerationOn(file: seq<Byte>, history: seq<Request>, m: Reply, p: Point)
    requires Continues(file, history, m, p)
    ensures After(m, p).gen == if m.OfSeek() then NextGeneration(p.gen) else p.gen
  {
  }

  lemma NextOn(g: UInt32, n: nat)
    ensures (NextGeneration(g) + n) % TWO_32 == (g + (n + 1)) % TWO_32
  {
  }

  lemma Apart(g: UInt32, n: nat)
    ensures (g + n) % TWO_32 != (NextGeneration(g) + n) % TWO_32
  {
    NextOn(g, n);
  }

  /** A reply matched by number is the answer to that very request. */
  lemma MatchedReply(file: seq<Byte>, history: seq<Request>, m: Reply, p: Point, id: nat)
    requires Continues(file, history, m, p) && |history| - p.answered <= CAPACITY
    requires 0 < id <= |history| <= id + 1 && (|history| == id + 1 ==> history[id].command == CANCEL)
    requires IsLooseError(m) ==> |history| < TWO_32 || |history| % TWO_32 > 1
    ensures IsReadahead(m) || p.answered < m.id <= id
    ensures !m.Data? ==> (m.id % TWO_32 == id % TWO_32 <==> m.id == id)
  {
    if IsLooseError(m) {
      NeverZero(|history|, id);
    } else if !m.Data? && m.id % TWO_32 == id % TWO_32 {
      SameOrdinal(m.id, id);
    }
  }

  /** Unless the numbers wrap there, the last request and the one before it are not numbered 0. */
  lemma NeverZero(n: nat, id: nat)
    requires (n < TWO_32 || n % TWO_32 > 1) && 0 < id <= n <= id + 1
    ensures id % TWO_32 != 0
  {
  }

  lemma MatchedSeek(file: seq<Byte>, history: seq<Request>, m: Reply, p: Point, seekId: nat)
    requires Continues(file, history, m, p) && SeeksOnly(history, p.answered, seekId)
    ensures m.OfSeek() <==> 0 < m.id == seekId && !m.Data? && (m.Error? ==> m.ofSeek)
    ensures After(m, p).gen == (if m.OfSeek() then NextGeneration(p.gen) else p.gen)
    ensures p.answered <= After(m, p).answered
    ensures SeeksOnly(history, After(m, p).answered, seekId)
  {
    if !IsReadahead(m) {
      assert history[m.id - 1].IsSeek() <==> m.id == seekId;
    }
  }

  /** What a client learns by decoding the next reply while it waits for the answer to
      request `id`; request `seekId` is the only seek that may still be unanswered. */
  lemma DecodeFacts(file: seq<Byte>, n: Net, id: nat, seekId: nat)
    requires Sound(file, n) && n.queue != [] && n.rest == [] && n.WithinCapacity()
    requires 0 < id <= |n.history| <= id + 1 && (|n.history| == id + 1 ==> n.history[id].command == CANCEL)
    requires SeeksOnly(n.history, n.front.answered, seekId)
    ensures var m, d := n.queue[0], n.Decode();
      && m.Sendable() && Continues(file, n.history, m, n.front)
      && (!m.Data? ==> (m.id % TWO_32 == id % TWO_32 <==> m.id == id))
      && (IsReadahead(m) || n.front.answered < m.id <= id)
      && n.front.answered <= d.front.answered
      && (m.OfSeek() <==> 0 < m.id == seekId && !m.Data? && (m.Error? ==> m.ofSeek))
      && d.front.gen == (if m.OfSeek() then NextGeneration(n.front.gen) else n.front.gen)
      && SeeksOnly(n.history, d.front.answered, seekId)
  {
    FrontReplyOf(file, n);
    MatchedReply(file, n.history, n.queue[0], n.front, id);
    MatchedSeek(file, n.history, n.queue[0], n.front, seekId);
  }

  lemma FrontReplyOf(file: seq<Byte>, n: Net)
    requires Sound(file, n) && n.queue != []
    ensures Continues(file, n.history, n.queue[0], n.front)
  {
    Unsealed(file, n);
  }

  // ---------- A refused seek that loses data ----------

  /** A connection on which a seek has been sent as the first request, and a block sent ahead of it
      and its refusal are on their way back. */
  ghost function SeekInFlight(q: Request, block: Reply, refusal: Reply): Net {
    var queue := [block, refusal];
    Net([q], q.Encoded(), [], EncodeReplies(queue), [], [], queue, Point(0, 0, 0),
        After(refusal, After(block, Point(0, 0, 0))),
        1, 0, queue, false)
  }

  /** It can arise with every file that is not empty, every block from its start and every refusal:
      that finds the client's place past the block. */
  lemma RefusedSeekLosesData(file: seq<Byte>, q: Request, block: Reply, refusal: Reply)
    requires q.id == 1 && q.IsSeek() && q.data == []
    requires block.Data? && block.id == 0 && block.gen == 0 && block.body != [] && block.Sendable()
      && IsAt(file, 0, block.body)
    requires refusal.Error? && refusal.id == 1 && refusal.ofSeek && refusal.Sendable()
    ensures var n := SeekInFlight(q, block, refusal);
      && n.Valid(file) && n.WithinCapacity() && Ends(SeekOp, 1, n.queue[1])
      && Payload(n.queue) == |block.body|
      && n.Decode().Decode().front.pos == n.front.pos + Payload(n.queue) > n.front.pos
  {
    var n := SeekInFlight(q, block, refusal);
    SentAlone(q);
    WalkOfTwo(file, [q], block, refusal, n.front);
    NothingTaken(file, n);
    PayloadOfTwo(block, refusal);
  }

  /** The client has yet to receive anything of a connection. */
  lemma NothingTaken(file: seq<Byte>, n: Net)
    requires RequestStream.SentInOrder(n.history, n.sent, n.unsent) && Walk(file, n.history, n.queue, n.front, n.back)
    requires n.head == [] && n.rest == [] && n.replies == EncodeReplies(n.queue) && n.log == n.queue
    requires n.front.answered <= n.back.answered <= n.taken <= n.Arrived()
    ensures n.Valid(file)
  {
    assert [] + n.replies == n.replies;
    WalkFrom(file, n.history, n.queue, n.front, n.back, n);
    assert n.log[0..] == n.queue;
  }

  lemma PayloadOfTwo(a: Reply, b: Reply)
    requires a.Data? && !b.Data?
    ensures Payload([a, b]) == |a.body|
  {
    PayloadAppend([], a);
    PayloadAppend([a], b);
    assert [] + [a] == [a] && [a] + [b] == [a, b];
  }

  lemma SentAlone(q: Request)
    requires q.id == 1 && q.data == []
    ensures RequestStream.SentInOrder([q], q.Encoded(), [])
  {
    RequestStream.BeginInOrder([], [], q);
    assert [] + [q] == [q];
    RequestStream.SendInOrder([q], [], q.Encoded(), |q.Encoded()|);
    assert [] + q.Encoded()[..|q.Encoded()|] == q.Encoded();
  }

  lemma WalkOfTwo(file: seq<Byte>, history: seq<Request>, a: Reply, b: Reply, p: Point)
    requires Continues(file, history, a, p) && Continues(file, history, b, After(a, p))
    ensures Walk(file, history, [a, b], p, After(b, After(a, p)))
  {
    WalkAppend(file, history, [], a, p, p);
    assert [] + [a] == [a] && [a] + [b] == [a, b];
    WalkAppend(file, history, [a], b, p, After(a, p));
  }
}
