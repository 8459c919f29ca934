/** What a write stream keeps between the steps of its state machine: the operations, and
    how its buffers stand to the connection before and after each I/O. */
module WriteState {
  import opened Sequences
  import opened Wire
  import opened StreamIo
  import opened FileContents
  import opened RequestStream
  import opened WriteChannel

  const MAX_WRITE_SIZE: nat := 4 * 1024 * 1024

  datatype OpKind = WriteOp | SeekOp | TruncateOp | QueryOp | CloseOp
  datatype OpState = Init | WroteRequest | SendData | HandleInput

  /** What an operation hands back: the source's ret_val, ret_error, ret_offset and info. */
  datatype Outcome =
    | Unfinished
    | Wrote(count: nat)
    | At(pos: nat)
    | Resized
    | Information(data: seq<Byte>)
    | ClosedWell(etag: seq<Byte>)
    | Refused(code: UInt32, text: seq<Byte>)
    | TakenBack

  datatype Operation = Operation(
    kind: OpKind,
    state: OpState,
    data: seq<Byte>,       // write: the caller's buffer; query: the attributes
    bufferPos: nat,        // write: how much of it has been sent
    offset: int,           // seek and truncate
    seekType: SeekType,
    outcome: Outcome,
    sentCancel: bool,
    seqNr: UInt32)

  // ---------- Reply headers ----------

  /** get_reply_header_missing_bytes, with its 32-bit sum and 64-bit difference. */
  function MissingBytes(buffer: seq<Byte>): nat {
    if |buffer| < REPLY_SIZE then REPLY_SIZE - |buffer|
    else MissingAfterHeader(Word(buffer, 0), Word(buffer, 3), |buffer|)
  }

  function MissingAfterHeader(kind: UInt32, arg2: UInt32, len: nat): nat {
    if kind == REPLY_ERROR || kind == REPLY_CLOSED || kind == REPLY_INFO
    then ((REPLY_SIZE + arg2) % TWO_32 - len) % TWO_64
    else 0
  }

  lemma MissingAfterHeaderOf(m: Reply, len: nat)
    requires m.Sendable() && !m.Data? && REPLY_SIZE <= len <= |m.Encoded()|
    ensures len + MissingAfterHeader(m.Kind(), m.Arg2(), len) == |m.Encoded()|
  {
    if m.Error? || m.Closed? || m.Info? {
      SmallModulo(|m.body|, TWO_32);
      SmallModulo(REPLY_SIZE + |m.body|, TWO_32);
      SmallModulo(REPLY_SIZE + |m.body| - len, TWO_64);
    }
  }

  lemma FirstReply(n: WriteNet)
    requires n.Queued() && n.queue != []
    ensures n.queue[0].Sendable() && !n.queue[0].Data?
  {
    assert n.phase != Due(0) ==> n.IsStray(0);
  }

  lemma HeaderSeen(n: WriteNet)
    requires n.Framed() && |n.head| >= REPLY_SIZE
    ensures n.queue != []
    ensures Word(n.head, 0) == n.queue[0].Kind() && Word(n.head, 1) == n.queue[0].id % TWO_32
    ensures Word(n.head, 2) == n.queue[0].Arg1() && Word(n.head, 3) == n.queue[0].Arg2()
  {
    WordsSeen(n.queue[0], n.head, n.replies, EncodeReplies(n.queue[1..]));
  }

  /** The bytes asked for end with the fixed header, then with the whole reply, never later. */
  lemma MissingBytesExact(n: WriteNet)
    requires Sealed(n)
    ensures MayAsk(n, MissingBytes(n.head))
    ensures |n.head| >= REPLY_SIZE ==> n.queue != [] && |n.head| + MissingBytes(n.head) == |n.queue[0].Encoded()|
  {
    Opened(n);
    if |n.head| >= REPLY_SIZE {
      HeaderSeen(n);
      FirstReply(n);
      MissingAfterHeaderOf(n.queue[0], |n.head|);
    }
  }

  /** When nothing is missing, the buffer is one whole reply. */
  lemma WholeReply(n: WriteNet)
    requires Sealed(n) && MissingBytes(n.head) == 0
    ensures n.queue != [] && n.head == n.queue[0].Encoded() && |n.head| >= REPLY_SIZE
    ensures Word(n.head, 0) == n.queue[0].Kind() && Word(n.head, 1) == n.queue[0].id % TWO_32
    ensures Word(n.head, 2) == n.queue[0].Arg1() && Word(n.head, 3) == n.queue[0].Arg2()
    ensures n.head[REPLY_SIZE..] == n.queue[0].Body()
  {
    MissingBytesExact(n);
    Opened(n);
    HeaderSeen(n);
    var m, tail := n.queue[0], EncodeReplies(n.queue[1..]);
    assert n.head == (n.head + n.replies)[..|n.head|];
    assert m.Encoded() == (m.Encoded() + tail)[..|n.head|];
  }

  /** A whole reply carries the number of the last request exactly when it is its answer. */
  lemma NumberTells(n: WriteNet)
    requires Sealed(n) && n.queue != [] && !n.phase.Settled?
    ensures n.queue[0].id % TWO_32 == n.asked % TWO_32 <==> n.phase == Due(0)
    ensures n.phase == Due(0) ==>
      && 0 < n.asked <= |n.history| && Suits(n.before, n.history[n.asked - 1], n.queue[0])
      && n.disk == Performed(n.before, n.history[n.asked - 1], n.queue[0]) && n.queue[0].id == n.asked
  {
    Opened(n);
    if n.phase != Due(0) {
      assert n.IsStray(0);
      if n.queue[0].id % TWO_32 == n.asked % TWO_32 {
        SameOrdinal(n.queue[0].id, n.asked);
      }
    } else {
      assert n.history[n.asked - 1].id == n.asked;
    }
  }

  // ---------- Between operations and during one ----------

  /** The fields of the stream that the machine works on, the connection, and, about the
      operation in progress, the connection when it began and its request. */
  datatype View = View(net: WriteNet, seqNr: UInt32, inputBuffer: seq<Byte>, outputBuffer: seq<Byte>,
                       prior: WriteNet, request: Request)

  /** The buffer is what has been received of a reply, and `junk` bytes after it with undefined
      content. */
  ghost predicate Filled(buffer: seq<Byte>, head: seq<Byte>, junk: nat) {
    |buffer| == |head| + junk && buffer[..|head|] == head
  }

  lemma FilledExactly(buffer: seq<Byte>, head: seq<Byte>, junk: nat)
    requires Filled(buffer, head, junk)
    ensures buffer == head <==> junk == 0
  {
  }

  /** The replies decoded between two states of the connection. */
  ghost function Heard(a: WriteNet, b: WriteNet): seq<Reply> {
    if 0 <= a.Decoded() <= b.Decoded() <= |b.log| then b.log[a.Decoded()..b.Decoded()] else []
  }

  /** The second state comes after the first. */
  ghost predicate Later(a: WriteNet, b: WriteNet) {
    a.log <= b.log && 0 <= a.Decoded() <= b.Decoded() <= |b.log|
  }

  lemma NothingHeard(n: WriteNet)
    requires Sealed(n)
    ensures Later(n, n) && Heard(n, n) == []
    ensures Later(n, n.(broken := true)) && Heard(n, n.(broken := true)) == []
  {
    Opened(n);
  }

  lemma HeardOn(a: WriteNet, b: WriteNet, c: WriteNet)
    requires Later(a, b) && Later(b, c)
    ensures Later(a, c) && Heard(a, c) == Heard(a, b) + Heard(b, c)
  {
    assert b.log == c.log[..|b.log|];
    assert Heard(a, b) == c.log[a.Decoded()..b.Decoded()];
  }

  /** No reply decoded between the two states carries the number. */
  ghost predicate Unmatched(a: WriteNet, b: WriteNet, id: nat) {
    && Later(a, b)
    && forall i :: a.Decoded() <= i < b.Decoded() ==> b.log[i].id % TWO_32 != id % TWO_32
  }

  /** The last reply decoded is `m`, and it is the first one with the number. */
  ghost predicate FirstMatch(a: WriteNet, b: WriteNet, id: nat, m: Reply) {
    && a.log <= b.log && 0 <= a.Decoded() < b.Decoded() <= |b.log| && b.log[b.Decoded() - 1] == m
    && m.id % TWO_32 == id % TWO_32
    && forall i :: a.Decoded() <= i < b.Decoded() - 1 ==> b.log[i].id % TWO_32 != id % TWO_32
  }

  lemma HeardLast(a: WriteNet, b: WriteNet, id: nat, m: Reply)
    requires FirstMatch(a, b, id, m)
    ensures Heard(a, b) != [] && Heard(a, b)[|Heard(a, b)| - 1] == m
  {
  }

  /** One more reply is decoded. */
  lemma DecodedOne(a: WriteNet, b: WriteNet, id: nat)
    requires Sealed(b) && Unmatched(a, b, id) && b.queue != []
    ensures if b.queue[0].id % TWO_32 == id % TWO_32 then FirstMatch(a, Decoding(b), id, b.queue[0])
            else Unmatched(a, Decoding(b), id)
  {
    Opened(b);
    assert b.log[b.Decoded()] == b.queue[0];
  }

  lemma NothingDecoded(a: WriteNet, b: WriteNet, id: nat)
    requires Sealed(a) && b.log == a.log && b.queue == a.queue
    ensures Unmatched(a, b, id)
  {
    Opened(a);
  }

  ghost predicate Resting(n: WriteNet) {
    Sealed(n) && n.phase.Settled? && n.unsent == [] && n.head == []
  }

  ghost predicate Idle(v: View) {
    && Resting(v.net) && v.inputBuffer == [] && v.outputBuffer == [] && v.seqNr == (|v.net.history| + 1) % TWO_32
  }

  /** The words and the data of the request that an operation sends. */
  function CommandOf(op: Operation): (c: UInt32)
    ensures c != CANCEL
  {
    match op.kind
    case WriteOp => WRITE
    case SeekOp => if op.seekType.SeekEnd? then SEEK_END else SEEK_SET
    case TruncateOp => TRUNCATE
    case QueryOp => QUERY_INFO
    case CloseOp => CLOSE
  }

  function FirstArgument(op: Operation): UInt32 {
    if op.kind.WriteOp? then |op.data| % TWO_32
    else if op.kind.SeekOp? || op.kind.TruncateOp? then OffsetBits(op.offset) % TWO_32
    else 0
  }

  function SecondArgument(op: Operation): UInt32 {
    if op.kind.SeekOp? || op.kind.TruncateOp? then OffsetBits(op.offset) / TWO_32 else 0
  }

  function DataOf(op: Operation): seq<Byte> {
    if op.kind.WriteOp? || op.kind.QueryOp? then op.data else []
  }

  ghost predicate IsRequestOf(op: Operation, q: Request) {
    q == Request(CommandOf(op), q.id, FirstArgument(op), SecondArgument(op), DataOf(op))
  }

  /** The operation's request is the last one asked, and perhaps its cancellation was begun after it. */
  ghost predicate Running(v: View, op: Operation) {
    && Sealed(v.net) && Resting(v.prior)
    && v.request.id == |v.prior.history| + 1 && IsRequestOf(op, v.request)
    && op.seqNr == v.request.id % TWO_32 && op.outcome == Unfinished
    && v.net.asked == v.request.id && v.net.before == v.prior.disk && !v.net.phase.Settled?
    && v.net.history == v.prior.history + Requests(v.request, op.sentCancel)
    && v.seqNr == (|v.net.history| + 1) % TWO_32 && Unmatched(v.prior, v.net, v.request.id)
  }

  /** The request has just been begun. */
  lemma BeginsToRun(v: View, op: Operation)
    requires Resting(v.prior) && Sealed(v.net) && v.net == Asking(v.prior, v.request)
    requires v.request.id == |v.prior.history| + 1 && IsRequestOf(op, v.request)
    requires op.seqNr == v.request.id % TWO_32 && op.outcome == Unfinished && !op.sentCancel
    requires v.seqNr == (v.request.id + 1) % TWO_32
    ensures Runs(v, op)
  {
    NothingDecoded(v.prior, v.net, v.request.id);
    assert Requests(v.request, false) == [v.request];
    assert Running(v, op);
  }

  /** `Running`, sealed: the verifier looks inside only where `Mark` is mentioned. */
  ghost predicate Runs(v: View, op: Operation) {
    forall k: nat {:trigger Mark(op, k)} :: Mark(op, k) ==> Running(v, op)
  }

  lemma OpenRuns(v: View, op: Operation)
    requires Runs(v, op)
    ensures Running(v, op)
  {
    assert Mark(op, 0);
  }

  /** Buffers and places change, and the connection moves on. */
  lemma RunsOn(v: View, op: Operation, v': View, op': Operation)
    requires Runs(v, op) && (v'.net == v.net || Sealed(v'.net))
    requires op' == op.(state := op'.state, bufferPos := op'.bufferPos)
    requires v'.net.history == v.net.history && v'.net.asked == v.net.asked && v'.net.before == v.net.before
    requires v.net.log <= v'.net.log && v'.net.Decoded() == v.net.Decoded()
    requires v'.net.phase.Settled? ==> v.net.phase.Settled?
    requires v'.seqNr == v.seqNr && v'.prior == v.prior && v'.request == v.request
    ensures Runs(v', op')
  {
    OpenRuns(v, op);
    assert IsRequestOf(op', v'.request);
  }

  /** What a write still has to send after its command. */
  function Behind(op: Operation): seq<Byte> {
    if op.kind.WriteOp? && !op.sentCancel then op.data else []
  }

  /** What the machine has asked its driver for. */
  ghost predicate Asks(v: View, r: StateOp, op: Operation, io: IoData) {
    Runs(v, op) && op.outcome == Unfinished &&
    match r
    case OpWrite =>
      && io.size > 0 && v.inputBuffer == v.net.head
      && (match op.state
          case WroteRequest =>
            && io.size == |v.outputBuffer| && v.net.unsent == v.outputBuffer + Behind(op)
            && (io.allowCancel ==> !op.sentCancel && v.net == Asking(v.prior, v.request))
          case SendData =>
            && op.kind.WriteOp? && !op.sentCancel && !io.allowCancel && v.outputBuffer == []
            && op.bufferPos + io.size == |op.data| && v.net.unsent == op.data[op.bufferPos..]
          case _ => false)
    case OpRead =>
      && op.state.HandleInput? && v.net.unsent == [] && v.outputBuffer == []
      && io.size > 0 && MayAsk(v.net, io.size) && Filled(v.inputBuffer, v.net.head, io.size)
      && |v.inputBuffer| >= REPLY_SIZE
    case _ => false
  }

  /** What holds when the machine goes on. After a read of part of a reply, or a cancelled one,
      the end of the buffer is undefined. */
  ghost predicate Prepared(v: View, op: Operation, io: IoData) {
    match op.state
    case Init => Idle(v) && op.outcome == Unfinished && !op.sentCancel && io.res == io.size == 0 && |op.data| < TWO_32
    case WroteRequest =>
      && Runs(v, op) && op.outcome == Unfinished && v.inputBuffer == v.net.head
      && (if io.ioCancelled
          then !op.sentCancel && v.net == Asking(v.prior, v.request) && v.net.unsent == v.outputBuffer + Behind(op)
          else io.res <= |v.outputBuffer| && v.net.unsent == v.outputBuffer[io.res..] + Behind(op))
    case SendData =>
      && Runs(v, op) && op.outcome == Unfinished && v.inputBuffer == v.net.head && op.kind.WriteOp? && !op.sentCancel
      && v.outputBuffer == []
      && op.bufferPos + io.res <= |op.data| && v.net.unsent == op.data[op.bufferPos + io.res..]
    case HandleInput =>
      && Runs(v, op) && op.outcome == Unfinished && v.net.unsent == [] && v.outputBuffer == []
      && io.res <= io.size && (io.res == 0 && io.size > 0 ==> io.ioCancelled && !op.sentCancel)
      && Filled(v.inputBuffer, v.net.head, io.size - io.res) && (io.size > 0 ==> |v.inputBuffer| >= REPLY_SIZE)
  }

  /** The outcome that a reply stands for. */
  function OutcomeOf(m: Reply): Outcome
    requires !m.Data?
  {
    match m
    case Written(_, count) => Wrote(count)
    case SeekPos(_, pos) => At(pos)
    case Truncated(_) => Resized
    case Closed(_, body) => ClosedWell(body)
    case Info(_, body) => Information(body)
    case Error(_, code, body, _) => Refused(code, body)
  }

  /** The machine is done: the request was taken back before its first byte was sent, or the
      daemon has answered it. */
  ghost predicate Finished(v: View, op: Operation, m: Reply) {
    IsRequestOf(op, v.request) && v.request.id == |v.prior.history| + 1 &&
    if op.outcome == TakenBack then
      && Resting(v.prior) && v.net == v.prior && v.inputBuffer == [] && v.seqNr == (|v.net.history| + 1) % TWO_32
      && v.outputBuffer == if op.kind.QueryOp? then v.request.Encoded()[..|op.data|] else []
    else
      && Idle(v) && Suits(v.prior.disk, v.request, m) && v.net.disk == Performed(v.prior.disk, v.request, m)
      && op.outcome == OutcomeOf(m) && v.net.history == v.prior.history + Requests(v.request, op.sentCancel)
      && FirstMatch(v.prior, v.net, v.request.id, m)
  }

  /** The cancellation of the operation has been begun with part of the buffer undefined: it is no
      longer what has been received of a reply. */
  ghost predicate Garbled(v: View, op: Operation) {
    && Runs(v, op) && op.outcome == Unfinished && op.sentCancel && op.state.WroteRequest?
    && v.outputBuffer != [] && v.net.unsent == v.outputBuffer
    && |v.inputBuffer| > |v.net.head| && |v.inputBuffer| >= REPLY_SIZE
    && Filled(v.inputBuffer, v.net.head, |v.inputBuffer| - |v.net.head|)
  }

  ghost predicate Handed(v: View, r: StateOp, op: Operation, io: IoData, m: Reply) {
    if r.OpDone? then Finished(v, op, m) else Asks(v, r, op, io)
  }

  /** `Prepared`, `Handed` and `Garbled`, sealed: the verifier looks inside only where `Mark` is mentioned. */
  ghost predicate Going(v: View, op: Operation, io: IoData) {
    forall k: nat {:trigger Mark(v, k)} :: Mark(v, k) ==> Prepared(v, op, io)
  }

  ghost predicate Given(v: View, r: StateOp, op: Operation, io: IoData, m: Reply) {
    forall k: nat {:trigger Mark(v, k)} :: Mark(v, k) ==> Handed(v, r, op, io, m)
  }

  ghost predicate Lost(v: View, op: Operation) {
    forall k: nat {:trigger Mark(v, k)} :: Mark(v, k) ==> Garbled(v, op)
  }

  lemma OpenGoing(v: View, op: Operation, io: IoData)
    requires Going(v, op, io)
    ensures Prepared(v, op, io)
  {
    assert Mark(v, 0);
  }

  lemma OpenGiven(v: View, r: StateOp, op: Operation, io: IoData, m: Reply)
    requires Given(v, r, op, io, m)
    ensures Handed(v, r, op, io, m)
  {
    assert Mark(v, 0);
  }

  lemma OpenLost(v: View, op: Operation)
    requires Lost(v, op)
    ensures Garbled(v, op)
  {
    assert Mark(v, 0);
  }

  lemma Fresh(v: View, op: Operation, io: IoData)
    requires Idle(v) && op.state.Init? && op.outcome == Unfinished && !op.sentCancel && io.res == io.size == 0
      && |op.data| < TWO_32
    ensures Going(v, op, io)
  {
  }

  /** The driver looks at the cancellable again. */
  lemma Resample(v: View, op: Operation, io: IoData, cancelled: bool)
    requires Going(v, op, io)
    ensures Going(v, op, io.(cancelled := cancelled))
  {
    OpenGoing(v, op, io);
    assert Prepared(v, op, io.(cancelled := cancelled));
  }
}
