/** The client's write stream: the state machine that drives the socket, shared by the
    write, seek, truncate, query-info and close operations, and its synchronous driver. */
module OutputStream {
  import opened Sequences
  import opened Wire
  import opened StreamIo
  import opened FileContents
  import opened RequestStream
  import opened WriteChannel
  import opened WriteState
  import Text

  class FileOutputStream {
    const connection: WriteConnection
    const canSeek: bool
    const canTruncate: bool
    var seqNr: UInt32
    var currentOffset: int
    var inputBuffer: seq<Byte>
    var outputBuffer: seq<Byte>
    var etag: Text.Option<seq<Byte>>

    // The request of the operation in progress
    ghost var request: Request

    ghost function Now(): View
      reads this`seqNr, this`inputBuffer, this`outputBuffer, this`request, connection
    {
      View(connection.net, seqNr, inputBuffer, outputBuffer, connection.prior, request)
    }

    /** Between operations. */
    ghost predicate Valid()
      reads this`seqNr, this`inputBuffer, this`outputBuffer, this`request, connection
    {
      Idle(Now())
    }

    /** The client's offset is the daemon's position. */
    ghost predicate InSync()
      reads this, connection
    {
      currentOffset == connection.net.disk.pos
    }

    constructor (connection: WriteConnection, canSeek: bool, canTruncate: bool, initialOffset: nat)
      requires Sealed(connection.net) && connection.net.history == [] && Resting(connection.net)
      ensures Valid() && this.connection == connection && currentOffset == initialOffset
      ensures this.canSeek == canSeek && this.canTruncate == canTruncate
    {
      this.connection, this.canSeek, this.canTruncate := connection, canSeek, canTruncate;
      seqNr, currentOffset, inputBuffer, outputBuffer, etag := 1, initialOffset, [], [], Text.None;
    }

    // ---------- Requests ----------

    /** append_request, for a request that wants an answer; `data` is what follows it. */
    method AppendRequest(command: UInt32, arg1: UInt32, arg2: UInt32, data: seq<Byte>, separate: bool)
        returns (nr: UInt32)
      requires Valid() && command != CANCEL && |data| < TWO_32
      modifies this`seqNr, this`outputBuffer, this`request, connection
      ensures connection.prior == old(connection.net)
        && request == Request(command, |connection.prior.history| + 1, arg1, arg2, data)
      ensures connection.net == Asking(connection.prior, request) && Sealed(connection.net)
      ensures nr == request.id % TWO_32 && seqNr == (request.id + 1) % TWO_32
      ensures outputBuffer == if separate then request.Header() else request.Encoded()
    {
      nr := seqNr;
      var q := Request(command, |connection.net.history| + 1, arg1, arg2, data);
      request := q;
      SequenceNumbers(q.id);
      seqNr := (seqNr + 1) % TWO_32;
      outputBuffer := if separate then q.Header() else q.Encoded();
      connection.Ask(q);
    }

    /** Appends the operation's request and asks for the first write. */
    method Begin(op: Operation, io: IoData) returns (op': Operation, io': IoData)
      requires Prepared(Now(), op, io) && op.state.Init?
      modifies this`seqNr, this`outputBuffer, this`request, connection
      ensures Asks(Now(), OpWrite, op', io') && op'.kind == op.kind && op'.data == op.data
      ensures connection.prior == old(connection.net)
      ensures op'.offset == Target(op, old(currentOffset)) && op'.seekType == op.seekType
      ensures !op'.state.Init? && !op'.sentCancel && io'.allowCancel
    {
      op' := op.(state := WroteRequest, offset := Target(op, currentOffset));
      var nr := AppendRequest(CommandOf(op'), FirstArgument(op'), SecondArgument(op'), DataOf(op'), op.kind.WriteOp?);
      op' := op'.(seqNr := nr);
      io' := io.(size := |outputBuffer|, allowCancel := true);
      BeginsToRun(Now(), op');
    }

    /** unappend_request, when not a byte of the request has been sent. */
    method TakeBack(op: Operation, io: IoData) returns (op': Operation)
      requires Prepared(Now(), op, io) && op.state.WroteRequest? && io.ioCancelled
      modifies this`seqNr, this`outputBuffer, connection`net
      ensures op' == op.(outcome := TakenBack) && connection.net == connection.prior
      ensures forall m :: Finished(Now(), op', m)
    {
      OpenRuns(Now(), op);
      UnsentIsRequest(op, request, outputBuffer);
      SequenceNumbers(request.id);
      seqNr := (seqNr - 1) % TWO_32;
      outputBuffer := outputBuffer[..|outputBuffer| - REQUEST_SIZE];
      connection.TakeBack(request);
      op' := op.(outcome := TakenBack);
    }

    /** Bytes of the output buffer have been written: more of them, the data, or the reply is next. */
    method OnWrote(op: Operation, io: IoData) returns (again: bool, op': Operation, io': IoData)
      requires Prepared(Now(), op, io) && op.state.WroteRequest? && !io.ioCancelled
      modifies this`outputBuffer
      ensures again ==> Prepared(Now(), op', io'.Cleared()) && (op'.state.SendData? || op'.state.HandleInput?)
      ensures !again ==> Asks(Now(), OpWrite, op', io') && op'.state.WroteRequest?
      ensures op' == op.(state := op'.state, bufferPos := op'.bufferPos)
      ensures io'.cancelled == io.cancelled
    {
      ghost var v := Now();
      if io.res < |outputBuffer| {
        outputBuffer := outputBuffer[io.res..];
        RunsOn(v, op, Now(), op);
        return false, op, io.(size := |outputBuffer|, allowCancel := false);
      }
      outputBuffer := [];
      again, io' := true, io;
      op' := op.(bufferPos := 0, state := if op.kind.WriteOp? && !op.sentCancel then SendData else HandleInput);
      RunsOn(v, op, Now(), op');
    }

    /** Data of a write has been sent. */
    method OnSendData(op: Operation, io: IoData) returns (again: bool, op': Operation, io': IoData)
      requires Prepared(Now(), op, io) && op.state.SendData?
      ensures again ==> Prepared(Now(), op', io'.Cleared()) && op'.state.HandleInput?
      ensures !again ==> Asks(Now(), OpWrite, op', io') && op'.state.SendData?
      ensures op' == op.(state := op'.state, bufferPos := op'.bufferPos) && io'.cancelled == io.cancelled
    {
      op' := op.(bufferPos := op.bufferPos + io.res);
      again, io' := op'.bufferPos >= |op.data|, io;
      if again {
        op' := op'.(state := HandleInput);
      } else {
        io' := io.(size := |op.data| - op'.bufferPos, allowCancel := false);
      }
      RunsOn(Now(), op, Now(), op');
    }

    /** Appends a CANCEL for the operation. The undefined end of the input buffer stays: what is
        left there is what has been received of a reply exactly when the last read was complete. */
    method AppendCancel(op: Operation, io: IoData) returns (op': Operation, io': IoData)
      requires Prepared(Now(), op, io) && op.state.HandleInput? && io.cancelled && !op.sentCancel
      modifies this`seqNr, this`outputBuffer, connection`net
      ensures op' == op.(sentCancel := true, state := WroteRequest)
      ensures inputBuffer == connection.net.head <==> io.res == io.size
      ensures if io.res == io.size then Asks(Now(), OpWrite, op', io') else Garbled(Now(), op')
    {
      FilledExactly(inputBuffer, connection.net.head, io.size - io.res);
      OpenRuns(Now(), op);
      var q := Request(CANCEL, |connection.net.history| + 1, op.seqNr, 0, []);
      SequenceNumbers(q.id);
      seqNr := (seqNr + 1) % TWO_32;
      outputBuffer := q.Encoded();
      ghost var n := connection.net;
      connection.Cancel(q);
      CancelAdded(connection.prior.history, request);
      op' := op.(sentCancel := true, state := WroteRequest);
      io' := io.(size := |outputBuffer|, allowCancel := false);
      assert IsRequestOf(op', request) && Running(Now(), op');
    }

    /** The next pass of the machine after that, once the CANCEL is out. The daemon's replies are
        untouched, but the buffer is taken for a header: the operation may end with an outcome that
        no reply told, or ask for bytes at the wrong place. If it is ignored, the buffer is what
        has been received again exactly when that was nothing. */
    method StepGarbled(op: Operation, ghost junk: nat) returns (what: Misstep)
      requires Runs(Now(), op) && op.outcome == Unfinished && op.state.HandleInput? && op.sentCancel
      requires connection.net.unsent == [] && outputBuffer == []
      requires junk > 0 && Filled(inputBuffer, connection.net.head, junk) && |inputBuffer| >= REPLY_SIZE
      modifies this`inputBuffer
      ensures what == MisstepOf(op, old(inputBuffer)) && !Valid()
      ensures !what.AskedFor? ==>
        inputBuffer == [] && (inputBuffer == connection.net.head <==> old(|inputBuffer|) == junk)
      ensures what.AskedFor? ==> |inputBuffer| > |connection.net.head| && |inputBuffer| == old(|inputBuffer|) + what.len
      ensures what.Emptied? && connection.net.head == [] ==> Prepared(Now(), op, IoData(true, 0, 0, false, false))
    {
      ghost var v := Now();
      OpenRuns(v, op);
      what := MisstepOf(op, inputBuffer);
      if what.AskedFor? {
        var undefined := Undefined(what.len);
        inputBuffer := inputBuffer + undefined;
      } else {
        inputBuffer := [];
      }
      RunsOn(v, op, Now(), op);
    }

    /** The same from the moment the CANCEL is begun: it goes out whole, or the socket fails. */
    method GoOnGarbled(op: Operation) returns (ok: bool, op': Operation, what: Misstep)
      requires Garbled(Now(), op)
      modifies this`inputBuffer, this`outputBuffer, connection`net
      ensures ok ==>
        && op' == op.(state := HandleInput, bufferPos := 0) && what == MisstepOf(op', old(inputBuffer)) && !Valid()
        && connection.net.head == old(connection.net.head) && connection.net.unsent == []
      ensures ok && !what.AskedFor? ==>
        inputBuffer == [] && (inputBuffer == connection.net.head <==> old(connection.net.head) == [])
      ensures ok && what.AskedFor? ==> |inputBuffer| > |connection.net.head|
    {
      ok, op', what := true, op.(state := HandleInput, bufferPos := 0), Emptied;
      while outputBuffer != []
        invariant Runs(Now(), op) && connection.net.unsent == outputBuffer
        invariant inputBuffer == old(inputBuffer) && connection.net.head == old(connection.net.head)
        decreases |outputBuffer|
      {
        ghost var v := Now();
        OpenRuns(v, op);
        var n := connection.Send(|outputBuffer|);
        if n == 0 {
          return false, op, Emptied;
        }
        outputBuffer := outputBuffer[n..];
        RunsOn(v, op, Now(), op);
      }
      RunsOn(Now(), op, Now(), op');
      what := StepGarbled(op', |inputBuffer| - |connection.net.head|);
    }

    /** Drops the unread end of the buffer, and asks for what is missing of the reply. */
    method OnInput(op: Operation, io: IoData) returns (whole: bool, io': IoData)
      requires Prepared(Now(), op, io) && op.state.HandleInput? && (io.ioCancelled ==> io.cancelled)
        && (io.cancelled ==> op.sentCancel)
      modifies this`inputBuffer
      ensures whole ==>
        && Runs(Now(), op) && connection.net.unsent == [] && outputBuffer == []
        && inputBuffer == connection.net.head && MissingBytes(inputBuffer) == 0 && io' == io
      ensures !whole ==>
        && Asks(Now(), OpRead, op, io') && io'.size == MissingBytes(connection.net.head) > 0
        && io'.allowCancel == !op.sentCancel
    {
      io' := io;
      ghost var v := Now();
      OpenRuns(v, op);
      if io.res > 0 {
        inputBuffer := inputBuffer[..|inputBuffer| - (io.size - io.res)];
      }
      assert inputBuffer == connection.net.head;
      MissingBytesExact(connection.net);
      var len := MissingBytes(inputBuffer);
      whole := len == 0;
      if !whole {
        var undefined := Undefined(len);
        inputBuffer := inputBuffer + undefined;
        io' := io.(size := len, allowCancel := !op.sentCancel);
      }
      RunsOn(v, op, Now(), op);
    }

    /** Takes the words and the data of a whole reply from the buffer. */
    method TakeReply(op: Operation)
        returns (kind: UInt32, nr: UInt32, arg1: UInt32, arg2: UInt32, data: seq<Byte>, ghost m: Reply)
      requires Runs(Now(), op) && inputBuffer == connection.net.head && MissingBytes(inputBuffer) == 0
      modifies this`inputBuffer, connection`net
      ensures inputBuffer == [] && old(connection.net.queue) != [] && m == old(connection.net.queue)[0]
      ensures connection.net == Decoding(old(connection.net)) && Sealed(connection.net)
      ensures kind == m.Kind() && nr == m.id % TWO_32 && arg1 == m.Arg1() && arg2 == m.Arg2() && data == m.Body()
    {
      m := ReplyIsThere(Now(), op);
      kind, nr, arg1, arg2 := Word(inputBuffer, 0), Word(inputBuffer, 1), Word(inputBuffer, 2), Word(inputBuffer, 3);
      data := inputBuffer[REPLY_SIZE..];
      inputBuffer := [];
      connection.Decode();
    }

    /** A whole reply: the answer to the operation, or one to pass over. */
    method OnReply(op: Operation, io: IoData) returns (done: bool, op': Operation, ghost m: Reply)
      requires Runs(Now(), op) && op.state.HandleInput? && op.outcome == Unfinished && connection.net.unsent == []
        && outputBuffer == []
      requires inputBuffer == connection.net.head && MissingBytes(inputBuffer) == 0
      modifies this`inputBuffer, this`etag, connection`net
      ensures done ==> Finished(Now(), op', m) && op' == op.(outcome := op'.outcome) && op'.outcome != TakenBack
      ensures !done ==> op' == op && Prepared(Now(), op, io.Cleared())
      ensures etag == EtagAfter(op'.outcome, old(etag))
      ensures |connection.net.queue| < |old(connection.net.queue)|
      ensures connection.net.budget == old(connection.net.budget)
        && connection.net.replies == old(connection.net.replies)
      ensures connection.net.unsent == []
    {
      ghost var v := Now();
      var kind, nr, arg1, arg2, data;
      kind, nr, arg1, arg2, data, m := TakeReply(op);
      op', done := op, nr == op.seqNr;
      if !done {
        PassedOver(v, Now(), op, io);
        return;
      }
      op' := op.(outcome := Interpreted(op.kind, kind, arg1, arg2, data));
      Conclusion(v, Now(), op, m);
      if op'.outcome.ClosedWell? && op'.outcome.etag != [] {
        etag := Text.Some(op'.outcome.etag);
      }
    }

    // ---------- The machine ----------

    /** The states in which bytes are sent. */
    method StepOutput(op: Operation, io: IoData) returns (again: bool, r: StateOp, op': Operation, io': IoData)
      requires Going(Now(), op, io) && (op.state.WroteRequest? || op.state.SendData?)
      modifies this`seqNr, this`outputBuffer, connection`net
      ensures again ==> Going(Now(), op', io') && Rank(op'.state) < Rank(op.state) && op'.sentCancel == op.sentCancel
      ensures !again ==> Given(Now(), r, op', io', Truncated(0))
      ensures if op.state.WroteRequest? && io.ioCancelled then !again && r.OpDone? else !op'.outcome.TakenBack?
      ensures op'.sentCancel == op.sentCancel
      ensures !op'.outcome.ClosedWell? && (again || !r.OpDone? ==> op'.outcome == Unfinished)
      ensures again ==> !io'.ioCancelled && io'.size == 0 && io'.cancelled == io.cancelled
      ensures SameTask(op, op') && !op'.state.Init? && Steady(op, op', old(connection.net), connection.net)
    {
      OpenGoing(Now(), op, io);
      if op.state.WroteRequest? && io.ioCancelled {
        op' := TakeBack(op, io);
        return false, OpDone, op', io;
      }
      r := OpWrite;
      if op.state.WroteRequest? {
        again, op', io' := OnWrote(op, io);
      } else {
        again, op', io' := OnSendData(op, io);
      }
      if again {
        io' := io'.Cleared();
      }
    }

    /** The state in which a reply is read. */
    method StepInput(op: Operation, io: IoData)
      returns (again: bool, garbled: bool, r: StateOp, op': Operation, io': IoData, ghost m: Reply)
      requires Going(Now(), op, io) && op.state.HandleInput? && (io.ioCancelled ==> io.cancelled)
      modifies this`seqNr, this`inputBuffer, this`outputBuffer, this`etag, connection`net
      ensures again || !r.OpDone? ==> op'.outcome == Unfinished
      ensures op'.sentCancel ==> op.sentCancel || io.cancelled
      ensures !op'.outcome.TakenBack? && (again ==> !io'.ioCancelled && io'.size == 0 && io'.cancelled == io.cancelled)
      ensures again ==> op' == op && Going(Now(), op', io') && |connection.net.queue| < |old(connection.net.queue)|
      ensures garbled <==> io.cancelled && !op.sentCancel && io.res < io.size
      ensures if garbled then !again && r.OpWrite? && Lost(Now(), op') else !again ==> Given(Now(), r, op', io', m)
      ensures SameTask(op, op') && !op'.state.Init? && Steady(op, op', old(connection.net), connection.net)
      ensures etag == EtagAfter(op'.outcome, old(etag))
    {
      OpenGoing(Now(), op, io);
      again, r, op', m := false, OpWrite, op, Truncated(0);
      garbled := io.cancelled && !op.sentCancel && io.res < io.size;
      if io.cancelled && !op.sentCancel {
        op', io' := AppendCancel(op, io);
        return;
      }
      var whole;
      whole, io' := OnInput(op, io);
      r := OpRead;
      if whole {
        var done;
        done, op', m := OnReply(op, io);
        again, r, io' := !done, OpDone, io.Cleared();
      }
    }

    /** The machine in its first state. */
    method First(op: Operation, io: IoData) returns (r: StateOp, op': Operation, io': IoData, ghost m: Reply)
      requires Going(Now(), op, io) && op.state.Init? && op.outcome == Unfinished
      modifies this`seqNr, this`outputBuffer, this`request, connection
      ensures Given(Now(), r, op', io', m) && r.OpWrite? && op'.outcome == Unfinished && !op'.sentCancel
      ensures SameTask(op.(offset := Target(op, currentOffset)), op') && !op'.state.Init?
      ensures connection.prior == old(connection.net)
    {
      OpenGoing(Now(), op, io);
      op', io' := Begin(op, io);
      r, m := OpWrite, Truncated(0);
    }

    /** The machine runs until it needs I/O or is done, or has begun a cancellation that leaves
        its input buffer undefined. */
    method Iterate(op: Operation, io: IoData)
      returns (garbled: bool, r: StateOp, op': Operation, io': IoData, ghost m: Reply)
      requires Going(Now(), op, io) && !op.state.Init? && op.outcome == Unfinished && (io.ioCancelled ==> io.cancelled)
      modifies this`seqNr, this`inputBuffer, this`outputBuffer, this`etag, connection`net
      ensures garbled <==> op.state.HandleInput? && io.cancelled && !op.sentCancel && io.res < io.size
      ensures if garbled then Lost(Now(), op') && op'.outcome == Unfinished else Given(Now(), r, op', io', m)
      ensures SameTask(op, op') && !op'.state.Init? && connection.prior == old(connection.prior)
        && request == old(request)
      ensures Steady(op, op', old(connection.net), connection.net)
      ensures op'.outcome.TakenBack? ==> io.ioCancelled
      ensures op'.sentCancel ==> op.sentCancel || io.cancelled
      ensures etag == EtagAfter(op'.outcome, old(etag))
      ensures !r.OpDone? ==> op'.outcome == Unfinished
      ensures op.state.WroteRequest? && io.ioCancelled ==> r.OpDone?
    {
      garbled, op', io', r, m := false, op, io, OpDone, Truncated(0);
      var again := true;
      while again
        invariant if again then Going(Now(), op', io') && op'.sentCancel == op.sentCancel
                  else if garbled then Lost(Now(), op') else Given(Now(), r, op', io', m)
        invariant SameTask(op, op') && !op'.state.Init? && connection.prior == old(connection.prior)
          && request == old(request)
        invariant Steady(op, op', old(connection.net), connection.net)
        invariant again ==> (op' == op && io' == io) || (!io'.ioCancelled && io'.size == 0)
        invariant garbled ==> !again && r.OpWrite?
        invariant garbled || (again && op' == op && io' == io) ||
                  !(op.state.HandleInput? && io.cancelled && !op.sentCancel && io.res < io.size)
        invariant garbled ==> op.state.HandleInput? && io.cancelled && !op.sentCancel && io.res < io.size
        invariant !again && (op'.outcome.TakenBack? || (op.state.WroteRequest? && io.ioCancelled)) ==>
          io.ioCancelled && r.OpDone?
        invariant op'.sentCancel ==> op.sentCancel || io.cancelled
        invariant again ==> io'.cancelled == io.cancelled
        invariant again && op.state.WroteRequest? && io.ioCancelled ==> op' == op && io' == io
        invariant !again && !r.OpDone? ==> op'.outcome == Unfinished
        invariant etag == EtagAfter(op'.outcome, old(etag)) && (again ==> op'.outcome == Unfinished)
        decreases again, Rank(op'.state), |connection.net.queue|
      {
        if op'.state.HandleInput? {
          again, garbled, r, op', io', m := StepInput(op', io');
        } else {
          again, r, op', io' := StepOutput(op', io');
        }
      }
    }

    // ---------- The synchronous driver ----------

    /** A write on the socket; before the first byte of a request it may be cancelled. */
    method DoWrite(op: Operation, io: IoData, interrupt: bool) returns (ok: bool, io': IoData)
      requires Asks(Now(), OpWrite, op, io)
      modifies connection`net
      ensures ok ==> Prepared(Now(), op, io') && io'.cancelled == io.cancelled
      ensures ok && !io'.ioCancelled ==> |connection.net.unsent| < |old(connection.net.unsent)|
      ensures io'.ioCancelled ==> ok && interrupt && connection.net == old(connection.net) && op.state.WroteRequest?
      ensures !ok ==> Runs(Now(), op) && Dead(connection.net)
    {
      if interrupt && io.allowCancel {
        return true, io.(res := 0, ioCancelled := true);
      }
      ghost var v := Now();
      OpenRuns(v, op);
      var n := connection.Send(io.size);
      RunsOn(v, op, Now(), op);
      if n == 0 {
        return false, io.(ioCancelled := false);
      }
      SentSome(op.data, op.bufferPos, outputBuffer, Behind(op), n);
      return true, io.(res := n, ioCancelled := false);
    }

    /** A read on the socket into the end of the buffer; it may be cancelled while no CANCEL has
        been sent. */
    method DoRead(op: Operation, io: IoData, interrupt: bool) returns (ok: bool, io': IoData)
      requires Asks(Now(), OpRead, op, io)
      modifies this`inputBuffer, connection`net
      ensures ok ==> Prepared(Now(), op, io') && connection.net.unsent == []
      ensures ok && !io'.ioCancelled ==> Less(connection.net, old(connection.net))
      ensures io'.ioCancelled ==> ok && interrupt && connection.net == old(connection.net) && !op.sentCancel
      ensures io'.ioCancelled ==> io'.res < io'.size
      ensures !ok ==> Runs(Now(), op) && Dead(connection.net)
    {
      if interrupt && !op.sentCancel {
        return true, io.(res := 0, ioCancelled := true);
      }
      ghost var v := Now();
      OpenRuns(v, op);
      var bytes;
      ok, bytes := connection.Receive(io.size);
      if ok {
        var start := |inputBuffer| - io.size;
        inputBuffer := inputBuffer[..start] + bytes + inputBuffer[start + |bytes|..];
      }
      RunsOn(v, op, Now(), op);
      return ok, io.(res := |bytes|, ioCancelled := false);
    }

    method DoIo(r: StateOp, op: Operation, io: IoData, interrupt: bool, ghost m: Reply) returns (ok: bool, io': IoData)
      requires Given(Now(), r, op, io, m) && !r.OpDone?
      modifies this`inputBuffer, connection`net
      ensures if ok then Going(Now(), op, io') else Runs(Now(), op) && Dead(connection.net)
      ensures ok && io'.ioCancelled ==>
        interrupt && (op.state.WroteRequest? || (op.state.HandleInput? && !op.sentCancel && io'.res < io'.size))
      ensures ok && io'.ioCancelled ==> connection.net == old(connection.net)
      ensures ok && !io'.ioCancelled ==>
        || |connection.net.unsent| < |old(connection.net.unsent)|
        || (connection.net.unsent == old(connection.net.unsent) && Less(connection.net, old(connection.net)))
    {
      OpenGiven(Now(), r, op, io, m);
      if r.OpWrite? {
        ok, io' := DoWrite(op, io, interrupt);
      } else {
        ok, io' := DoRead(op, io, interrupt);
      }
    }

    /** The driver asks the machine for I/O and does it, until the machine is done, the socket
        fails, or a cancellation is begun with part of the input buffer undefined. The cancellable
        may fire at any moment. An answered operation was ended by the last reply decoded, the
        first that carries its number. */
    method RunSync(op0: Operation, cancellable: bool) returns (how: Driven, op: Operation, ghost m: Reply)
      requires Valid() && op0.state.Init? && op0.outcome == Unfinished && !op0.sentCancel && |op0.data| < TWO_32
      modifies this`seqNr, this`inputBuffer, this`outputBuffer, this`etag, this`request, connection
      ensures how.Completed? ==> Finished(Now(), op, m)
      ensures how.Cut? ==> Garbled(Now(), op) && cancellable
      ensures how.Broken? ==> Runs(Now(), op) && Dead(connection.net)
      ensures how.Broken? ==> connection.net.broken || Exhausted(old(connection.net), connection.net, request.id)
      ensures connection.prior == old(connection.net) && SameTask(op0.(offset := Target(op0, currentOffset)), op)
      ensures (how.Completed? && op.outcome.TakenBack?) || op.sentCancel ==> cancellable
      ensures how.Completed? ==> etag == EtagAfter(op.outcome, old(etag))
    {
      op, m := op0, Truncated(0);
      var r, io := OpDone, IoData(false, 0, 0, false, false);
      Fresh(Now(), op, io);
      var cancelled: bool := *;
      cancelled := cancellable && cancelled;
      r, op, io, m := First(op, io.(cancelled := cancelled));
      how := Completed;
      while how.Completed? && !r.OpDone?
        invariant if how.Completed? then Given(Now(), r, op, io, m)
                  else if how.Cut? then Lost(Now(), op) else Runs(Now(), op) && Dead(connection.net)
        invariant (cancelled || how.Cut? || op.outcome.TakenBack? || op.sentCancel ==> cancellable) && !op.state.Init?
        invariant how.Completed? ==> etag == EtagAfter(op.outcome, old(etag))
        invariant how.Completed? && !r.OpDone? ==> op.outcome == Unfinished
        invariant connection.prior == old(connection.net) && SameTask(op0.(offset := Target(op0, currentOffset)), op)
        decreases how.Completed? && !r.OpDone?, !op.sentCancel, |connection.net.unsent|, connection.net.budget,
                  |connection.net.replies|
      {
        how, cancelled, r, op, io, m := Turn(r, op, io, cancellable, cancelled, m);
      }
      if how.Completed? {
        OpenGiven(Now(), r, op, io, m);
      } else if how.Cut? {
        OpenLost(Now(), op);
      } else if !connection.net.broken {
        NoneCarriesIt(Now(), op);
      }
    }

    /** The I/O that the machine asked for, and the machine again; the cancellable may fire before
        and after the I/O. */
    method Turn(r0: StateOp, op0: Operation, io0: IoData, cancellable: bool, cancelled0: bool, ghost m0: Reply)
      returns (how: Driven, cancelled: bool, r: StateOp, op: Operation, io: IoData, ghost m: Reply)
      requires Given(Now(), r0, op0, io0, m0) && !r0.OpDone? && !op0.state.Init? && op0.outcome == Unfinished
      requires cancelled0 ==> cancellable
      modifies this`seqNr, this`inputBuffer, this`outputBuffer, this`etag, this`request, connection
      ensures cancelled ==> cancellable
      ensures how.Completed? ==> Given(Now(), r, op, io, m)
      ensures how.Cut? ==> Lost(Now(), op) && cancellable
      ensures how.Broken? ==> Runs(Now(), op) && Dead(connection.net)
      ensures op.outcome.TakenBack? || (op.sentCancel && !op0.sentCancel) ==> cancellable
      ensures how.Completed? ==> etag == EtagAfter(op.outcome, old(etag)) && (!r.OpDone? ==> op.outcome == Unfinished)
      ensures connection.prior == old(connection.prior) && SameTask(op0, op) && !op.state.Init?
      ensures how.Completed? && !r.OpDone? ==> Nearer(op0, op, old(connection.net), connection.net)
    {
      var now: bool, later: bool := *, *;
      cancelled := cancelled0 || (cancellable && now);
      how, r, op, m := Completed, r0, op0, m0;
      var ok;
      ok, io := DoIo(r0, op0, io0, cancelled, m0);
      if !ok {
        how := Broken;
        return;
      }
      cancelled := cancelled || (cancellable && later);
      Resample(Now(), op, io, cancelled);
      var garbled;
      garbled, r, op, io, m := Iterate(op, io.(cancelled := cancelled));
      if garbled {
        how := Cut;
      }
    }

    // ---------- The operations ----------

    function Tell(): int
      reads this
    {
      currentOffset
    }

    /** Nothing on the wire or in the daemon's file has changed. */
    twostate predicate Untouched()
      reads this`seqNr, connection
    {
      connection.net == old(connection.net) && seqNr == old(seqNr)
    }

    /** The request is on the wire, and the last reply decoded, the first one with its number, is its
        answer and says the outcome. */
    twostate predicate Answered(q: Request, outcome: Outcome)
      reads connection
    {
      var a, b := old(connection.net), connection.net;
      var heard := Heard(a, b);
      && a.history + [q] <= b.history && heard != []
      && var m := heard[|heard| - 1];
         !m.Data? && FirstMatch(a, b, q.id, m) && outcome == OutcomeOf(m)
    }

    lemma AnsweredWell(prior: WriteNet, op: Operation, m: Reply)
      requires Finished(Now(), op, m) && !op.outcome.TakenBack? && connection.prior == prior
      ensures var a, b := prior, connection.net;
        && a.history + [request] <= b.history && request == RequestFor(op, |a.history| + 1)
        && Heard(a, b) != [] && Heard(a, b)[|Heard(a, b)| - 1] == m && !m.Data?
        && FirstMatch(a, b, request.id, m) && op.outcome == OutcomeOf(m)
    {
      HeardLast(prior, connection.net, request.id, m);
    }

    /** What an operation that is not taken back has begun. */
    lemma RequestsKnown(op: Operation, cancellable: bool)
      requires IsRequestOf(op, request) && request.id == |connection.prior.history| + 1
        && (op.sentCancel ==> cancellable)
      requires connection.net.history == connection.prior.history + Requests(request, op.sentCancel)
      ensures request == RequestFor(op, |connection.prior.history| + 1)
        && connection.net.history != connection.prior.history
      ensures Requested(connection.prior.history, connection.net.history, request, cancellable)
    {
      RequestsAdded(connection.prior.history, request, op.sentCancel);
    }

    /** What an operation that comes to no end has begun. */
    lemma BegunOnly(op: Operation, task: Operation, prior: WriteNet, cancellable: bool)
      requires Runs(Now(), op) && connection.prior == prior && SameTask(task, op) && (op.sentCancel ==> cancellable)
      ensures request.id == |prior.history| + 1 && Unmatched(prior, connection.net, request.id)
      ensures Later(prior, connection.net) && connection.net.history != prior.history
      ensures Requested(prior.history, connection.net.history, RequestFor(task, |prior.history| + 1), cancellable)
    {
      OpenRuns(Now(), op);
      RequestsKnown(op, cancellable);
    }

    /** Drives an operation and says what came of it: nothing, or the daemon's answer to its request. */
    method Drive(op0: Operation, cancellable: bool) returns (result: Result)
      requires Valid() && op0.state.Init? && op0.outcome == Unfinished && !op0.sentCancel && |op0.data| < TWO_32
      modifies this`seqNr, this`inputBuffer, this`outputBuffer, this`etag, this`request, connection
      ensures !result.Rejected? && Later(old(connection.net), connection.net)
      ensures result == Done(TakenBack) ==>
        Untouched() && cancellable && (Valid() <==> op0.kind.QueryOp? ==> op0.data == [])
      ensures result.Mangled? ==> !Valid() && cancellable
      ensures result.Failed? ==>
        && Dead(connection.net) && Unmatched(old(connection.net), connection.net, |old(connection.net.history)| + 1)
        && (connection.net.broken || Exhausted(old(connection.net), connection.net, |old(connection.net.history)| + 1))
      ensures result.Done? && !result.outcome.TakenBack? ==>
        && Valid() && Answered(RequestFor(op0.(offset := Target(op0, currentOffset)),
                                          |old(connection.net.history)| + 1),
                               result.outcome)
        && Effect(op0.(offset := Target(op0, currentOffset)), result.outcome, old(connection.net.disk),
                  connection.net.disk)
      ensures result.Done? ==> etag == EtagAfter(result.outcome, old(etag))
      ensures Requested(old(connection.net.history), connection.net.history,
                        RequestFor(op0.(offset := Target(op0, currentOffset)), |old(connection.net.history)| + 1),
                        cancellable)
      ensures connection.net.history == old(connection.net.history) <==> result == Done(TakenBack)
    {
      ghost var q := RequestFor(op0.(offset := Target(op0, currentOffset)), |connection.net.history| + 1);
      NoneRequested(connection.net.history, q, cancellable);
      NothingHeard(connection.net);
      ghost var m;
      var how, op;
      how, op, m := RunSync(op0, cancellable);
      if !how.Completed? {
        BegunOnly(op, op0.(offset := Target(op0, currentOffset)), old(connection.net), cancellable);
        return if how.Cut? then Mangled else Failed;
      }
      if !op.outcome.TakenBack? {
        Outcomes(Now(), op, m);
        RequestsKnown(op, cancellable);
        AnsweredWell(old(connection.net), op, m);
      }
      return Done(op.outcome);
    }

    /** The daemon stored what the result says, at its position, and nothing else; the request
        with its data is on the wire. */
    method Write(buffer: seq<Byte>, cancellable: bool) returns (result: Result)
      requires Valid()
      modifies this, connection
      ensures Later(old(connection.net), connection.net)
      ensures Requested(old(connection.net.history), connection.net.history,
                        Request(WRITE, |old(connection.net.history)| + 1, Min(|buffer|, MAX_WRITE_SIZE), 0,
                                buffer[..Min(|buffer|, MAX_WRITE_SIZE)]), cancellable)
      ensures connection.net.history == old(connection.net.history) <==> result.Rejected? || result == Done(TakenBack)
      ensures result.Rejected? || result == Done(TakenBack) ==>
        Untouched() && Valid() && cancellable && currentOffset == old(currentOffset)
      ensures result.Mangled? ==> !Valid() && cancellable
      ensures result.Failed? ==> Dead(connection.net)
      ensures result.Done? && !result.outcome.TakenBack? ==>
        && Valid() && Answered(Request(WRITE, |old(connection.net.history)| + 1, Min(|buffer|, MAX_WRITE_SIZE), 0,
                                       buffer[..Min(|buffer|, MAX_WRITE_SIZE)]),
                               result.outcome)
        && (result.outcome.Refused? || result.outcome.Wrote?)
        && (result.outcome.Refused? ==>
            connection.net.disk == old(connection.net.disk) && currentOffset == old(currentOffset))
        && (result.outcome.Wrote? ==>
              var d, n := old(connection.net.disk), result.outcome.count;
              && n <= |buffer| && n <= MAX_WRITE_SIZE && currentOffset == old(currentOffset) + n
              && connection.net.disk == Disk(Overwrite(d.file, d.pos, buffer[..n]), d.pos + n))
      ensures result.Done? && old(InSync()) ==> InSync()
    {
      NoneRequested(connection.net.history,
                    Request(WRITE, |connection.net.history| + 1, Min(|buffer|, MAX_WRITE_SIZE), 0,
                            buffer[..Min(|buffer|, MAX_WRITE_SIZE)]), cancellable);
      NothingHeard(connection.net);
      if cancellable {
        var now: bool := *;
        if now {
          return Rejected;
        }
      }
      var data := buffer[..Min(|buffer|, MAX_WRITE_SIZE)];
      result := Drive(NewOperation(WriteOp).(data := data), cancellable);
      if result.Done? && result.outcome.Wrote? {
        Shorter(buffer, |data|, result.outcome.count);
        currentOffset := currentOffset + result.outcome.count;
      }
    }

    /** A seek that the daemon performs brings both sides to the target. One that is taken back
        before its first byte is sent still reports success and sets the offset to 0. */
    method Seek(offset: int, seekType: SeekType, cancellable: bool) returns (ok: bool, result: Result)
      requires Valid()
      modifies this, connection
      ensures Later(old(connection.net), connection.net)
      ensures
        var target := (if seekType.SeekCur? then old(currentOffset) else 0) + offset;
        Requested(old(connection.net.history), connection.net.history,
                        Request(if seekType.SeekEnd? then SEEK_END else SEEK_SET, |old(connection.net.history)| + 1,
                        OffsetBits(target) % TWO_32, OffsetBits(target) / TWO_32, []), cancellable)
      ensures connection.net.history == old(connection.net.history) <==> result.Rejected? || result == Done(TakenBack)
      ensures result.Done? && !result.outcome.TakenBack? ==>
        var target := (if seekType.SeekCur? then old(currentOffset) else 0) + offset;
        Answered(Request(if seekType.SeekEnd? then SEEK_END else SEEK_SET, |old(connection.net.history)| + 1,
                        OffsetBits(target) % TWO_32, OffsetBits(target) / TWO_32, []), result.outcome)
      ensures ok <==> result.Done? && !result.outcome.Refused?
      ensures result.Rejected? ==>
        Untouched() && Valid() && currentOffset == old(currentOffset) && (cancellable || !canSeek)
      ensures result == Done(TakenBack) ==> cancellable && Untouched() && Valid() && currentOffset == 0
      ensures result == Done(TakenBack) && old(InSync()) ==> (InSync() <==> old(currentOffset) == 0)
      ensures result.Mangled? ==> !Valid() && cancellable
      ensures result.Failed? ==> Dead(connection.net)
      ensures result.Done? && !result.outcome.TakenBack? ==>
        && Valid()
        && (result.outcome.Refused? || result.outcome.At?)
        && (result.outcome.Refused? ==>
            connection.net.disk == old(connection.net.disk) && currentOffset == old(currentOffset))
        && (result.outcome.At? ==>
              connection.net.disk == old(connection.net.disk).(pos := result.outcome.pos)
                  && currentOffset == result.outcome.pos)
      ensures result.Done? && result.outcome.At? ==>
        var target := (if seekType.SeekCur? then old(currentOffset) else 0) + offset;
        IsInt64(target) ==> currentOffset == target + if seekType.SeekEnd? then |old(connection.net.disk).file| else 0
    {
      ghost var target := (if seekType.SeekCur? then currentOffset else 0) + offset;
      NoneRequested(connection.net.history,
                    Request(if seekType.SeekEnd? then SEEK_END else SEEK_SET, |connection.net.history| + 1,
                        OffsetBits(target) % TWO_32, OffsetBits(target) / TWO_32, []), cancellable);
      NothingHeard(connection.net);
      if !canSeek {
        return false, Rejected;
      }
      if cancellable {
        var now: bool := *;
        if now {
          return false, Rejected;
        }
      }
      result := DriveSeek(offset, seekType, cancellable);
      ok := result.Done? && !result.outcome.Refused?;
      if ok {
        currentOffset := if result.outcome.At? then result.outcome.pos else 0;
      }
    }

    /** The seek on the wire. */
    method DriveSeek(offset: int, seekType: SeekType, cancellable: bool) returns (result: Result)
      requires Valid()
      modifies this, connection
      ensures Later(old(connection.net), connection.net) && currentOffset == old(currentOffset) && !result.Rejected?
      ensures
        var target := (if seekType.SeekCur? then old(currentOffset) else 0) + offset;
        var q := Request(if seekType.SeekEnd? then SEEK_END else SEEK_SET, |old(connection.net.history)| + 1,
                         OffsetBits(target) % TWO_32, OffsetBits(target) / TWO_32, []);
        && Requested(old(connection.net.history), connection.net.history, q, cancellable)
        && (result.Done? && !result.outcome.TakenBack? ==> Answered(q, result.outcome))
      ensures connection.net.history == old(connection.net.history) <==> result == Done(TakenBack)
      ensures result == Done(TakenBack) ==> cancellable && Untouched() && Valid()
      ensures result.Mangled? ==> !Valid() && cancellable
      ensures result.Failed? ==> Dead(connection.net)
      ensures result.Done? && !result.outcome.TakenBack? ==>
        && Valid() && (result.outcome.Refused? || result.outcome.At?)
        && (result.outcome.Refused? ==> connection.net.disk == old(connection.net.disk))
        && (result.outcome.At? ==> connection.net.disk == old(connection.net.disk).(pos := result.outcome.pos))
      ensures result.Done? && result.outcome.At? ==>
        var target := (if seekType.SeekCur? then old(currentOffset) else 0) + offset;
        IsInt64(target) ==>
          result.outcome.pos == target + if seekType.SeekEnd? then |old(connection.net.disk).file| else 0
    {
      result := Drive(NewOperation(SeekOp).(offset := offset, seekType := seekType), cancellable);
    }

    method TruncateTo(size: int, cancellable: bool) returns (result: Result)
      requires Valid()
      modifies this, connection
      ensures Later(old(connection.net), connection.net)
      ensures Requested(old(connection.net.history), connection.net.history,
                        Request(TRUNCATE, |old(connection.net.history)| + 1, OffsetBits(size) % TWO_32,
                                OffsetBits(size) / TWO_32, []), cancellable)
      ensures connection.net.history == old(connection.net.history) <==> result.Rejected? || result == Done(TakenBack)
      ensures result.Rejected? ==> Untouched() && Valid() && (cancellable || !canTruncate)
      ensures result == Done(TakenBack) ==> Untouched() && Valid() && cancellable
      ensures result.Mangled? ==> !Valid() && cancellable
      ensures result.Failed? ==> Dead(connection.net)
      ensures currentOffset == old(currentOffset)
      ensures result.Done? && !result.outcome.TakenBack? ==>
        && Valid() && Answered(Request(TRUNCATE, |old(connection.net.history)| + 1, OffsetBits(size) % TWO_32,
                                       OffsetBits(size) / TWO_32, []),
                               result.outcome)
        && (result.outcome.Refused? || result.outcome.Resized?)
        && (result.outcome.Refused? ==> connection.net.disk == old(connection.net.disk))
        && (result.outcome.Resized? && IsInt64(size) ==>
              size >= 0 && connection.net.disk ==
                  old(connection.net.disk).(file := Resize(old(connection.net.disk).file, size)))
        && connection.net.disk.pos == old(connection.net.disk).pos
    {
      NoneRequested(connection.net.history,
                    Request(TRUNCATE, |connection.net.history| + 1, OffsetBits(size) % TWO_32,
                            OffsetBits(size) / TWO_32, []), cancellable);
      NothingHeard(connection.net);
      if !canTruncate {
        return Rejected;
      }
      if cancellable {
        var now: bool := *;
        if now {
          return Rejected;
        }
      }
      result := Drive(NewOperation(TruncateOp).(offset := size), cancellable);
    }

    /** A query that is taken back leaves bytes of its request in the output buffer, unless it
        asked for no attributes. */
    method QueryInfo(attributes: seq<Byte>, cancellable: bool) returns (result: Result)
      requires Valid() && |attributes| < TWO_32
      modifies this, connection
      ensures Later(old(connection.net), connection.net)
      ensures Requested(old(connection.net.history), connection.net.history,
                        Request(QUERY_INFO, |old(connection.net.history)| + 1, 0, 0, attributes), cancellable)
      ensures connection.net.history == old(connection.net.history) <==> result.Rejected? || result == Done(TakenBack)
      ensures result.Rejected? || result == Done(TakenBack) ==> Untouched() && cancellable
      ensures result.Rejected? || result.Done? ==>
        && currentOffset == old(currentOffset) && connection.net.disk == old(connection.net.disk)
        && (Valid() <==> result == Done(TakenBack) ==> attributes == [])
      ensures result.Mangled? ==> !Valid() && cancellable
      ensures result.Failed? ==> Dead(connection.net)
      ensures result.Done? && !result.outcome.TakenBack? ==>
        Answered(Request(QUERY_INFO, |old(connection.net.history)| + 1, 0, 0, attributes), result.outcome)
        && (result.outcome.Refused? || result.outcome.Information?)
    {
      NoneRequested(connection.net.history, Request(QUERY_INFO, |connection.net.history| + 1, 0, 0, attributes),
                    cancellable);
      NothingHeard(connection.net);
      if cancellable {
        var now: bool := *;
        if now {
          return Rejected;
        }
      }
      result := Drive(NewOperation(QueryOp).(data := attributes), cancellable);
    }

    /** The full round trip of a close: every write has been answered before it. Whatever comes of
        it, the socket is closed. */
    method Close(cancellable: bool) returns (result: Result)
      requires Valid()
      modifies this, connection
      ensures Later(old(connection.net), connection.net)
      ensures Requested(old(connection.net.history), connection.net.history,
                        Request(CLOSE, |old(connection.net.history)| + 1, 0, 0, []), cancellable)
      ensures connection.net.history == old(connection.net.history) <==> result.Rejected? || result == Done(TakenBack)
      ensures !result.Rejected? && currentOffset == old(currentOffset)
      ensures result.Done? ==> Valid() && connection.net.broken && connection.net.disk == old(connection.net.disk)
      ensures result == Done(TakenBack) ==> cancellable && connection.net == old(connection.net).(broken := true)
      ensures result.Mangled? ==> !Valid() && cancellable
      ensures result.Failed? ==> Dead(connection.net)
      ensures result.Done? && !result.outcome.TakenBack? ==>
        && Answered(Request(CLOSE, |old(connection.net.history)| + 1, 0, 0, []), result.outcome)
        && (result.outcome.Refused? || result.outcome.ClosedWell?)
        && (result.outcome.ClosedWell? && result.outcome.etag != [] ==> etag == Text.Some(result.outcome.etag))
    {
      NoneRequested(connection.net.history, Request(CLOSE, |connection.net.history| + 1, 0, 0, []), cancellable);
      NothingHeard(connection.net);
      result := Drive(NewOperation(CloseOp), cancellable);
      if result.Done? {
        connection.Fail();
      }
    }
  }

  /** The socket has failed, or the daemon has hung up and everything it sent was decoded. */
  predicate Dead(n: WriteNet) {
    n.broken || HungUp(n)
  }

  /** No reply that the daemon has put on the connection since the first state carries the number. */
  ghost predicate Exhausted(a: WriteNet, b: WriteNet, id: nat) {
    Later(a, b) && forall i :: a.Decoded() <= i < |b.log| ==> b.log[i].id % TWO_32 != id % TWO_32
  }

  lemma NoneCarriesIt(v: View, op: Operation)
    requires Runs(v, op) && HungUp(v.net)
    ensures Exhausted(v.prior, v.net, v.request.id)
  {
    OpenRuns(v, op);
  }

  lemma Shorter(s: seq<Byte>, k: nat, n: nat)
    requires n <= k <= |s|
    ensures s[..k][..n] == s[..n]
  {
  }

  /** How a driven operation ends. */
  datatype Driven = Completed | Broken | Cut

  /** What the machine makes of a buffer that is not what has been received of a reply. */
  datatype Misstep = Mistaken(outcome: Outcome) | Emptied | AskedFor(len: nat)

  function MisstepOf(op: Operation, buffer: seq<Byte>): Misstep
    requires |buffer| >= REPLY_SIZE
  {
    var outcome := Interpreted(op.kind, Word(buffer, 0), Word(buffer, 2), Word(buffer, 3), buffer[REPLY_SIZE..]);
    if MissingBytes(buffer) > 0 then AskedFor(MissingBytes(buffer))
    else if Word(buffer, 1) == op.seqNr && !outcome.Unfinished? then Mistaken(outcome)
    else Emptied
  }

  /** With nothing of the reply received, there are undefined bytes for which a write ends with
      any count, although no reply told it. */
  lemma AnyCount(op: Operation, n: UInt32) returns (buffer: seq<Byte>)
    requires op.kind.WriteOp?
    ensures Filled(buffer, [], REPLY_SIZE) && MisstepOf(op, buffer) == Mistaken(Wrote(n))
  {
    var m := Written(op.seqNr, n);
    buffer := m.Header();
    ReplyWords(m, []);
    SmallModulo(op.seqNr, TWO_32);
    assert m.Header() + [] == buffer;
  }

  /** The request of an operation, with number `id`. */
  function RequestFor(op: Operation, id: nat): Request {
    Request(CommandOf(op), id, FirstArgument(op), SecondArgument(op), DataOf(op))
  }

  /** The offset that a request carries: a seek from the current position is made absolute. */
  function Target(op: Operation, tell: int): int {
    if op.kind.SeekOp? && op.seekType.SeekCur? then tell + op.offset else op.offset
  }

  lemma UnsentIsRequest(op: Operation, q: Request, buffer: seq<Byte>)
    requires IsRequestOf(op, q) && !op.sentCancel && q.Encoded() == buffer + Behind(op)
    ensures buffer == (if op.kind.WriteOp? then q.Header() else q.Encoded()) && |buffer| >= REQUEST_SIZE
  {
    assert (buffer + Behind(op))[..|buffer|] == buffer;
    assert q.Encoded()[..REQUEST_SIZE] == q.Header();
  }

  /** How an operation reads a reply with its number; others are of no interest to it. */
  function Interpreted(op: OpKind, kind: UInt32, arg1: UInt32, arg2: UInt32, data: seq<Byte>): Outcome {
    if kind == REPLY_ERROR then Refused(arg1, data)
    else if op.WriteOp? && kind == REPLY_WRITTEN then Wrote(arg1)
    else if op.SeekOp? && kind == REPLY_SEEK_POS then At(arg2 * TWO_32 + arg1)
    else if op.TruncateOp? && kind == REPLY_TRUNCATED then Resized
    else if op.QueryOp? && kind == REPLY_INFO then Information(data)
    else if op.CloseOp? && kind == REPLY_CLOSED then ClosedWell(data)
    else Unfinished
  }

  lemma AnswerIsInterpreted(op: Operation, q: Request, d: Disk, m: Reply)
    requires IsRequestOf(op, q) && Suits(d, q, m)
    ensures Interpreted(op.kind, m.Kind(), m.Arg1(), m.Arg2(), m.Body()) == OutcomeOf(m)
  {
    if m.SeekPos? {
      assert m.pos / TWO_32 < TWO_32;
    }
  }

  /** The buffer holds one whole reply. */
  lemma ReplyIsThere(v: View, op: Operation) returns (m: Reply)
    requires Runs(v, op) && v.inputBuffer == v.net.head && MissingBytes(v.inputBuffer) == 0
    ensures Sealed(v.net) && v.net.queue != [] && m == v.net.queue[0] && v.net.head == m.Encoded()
      && |v.inputBuffer| >= REPLY_SIZE
    ensures Word(v.inputBuffer, 0) == m.Kind() && Word(v.inputBuffer, 1) == m.id % TWO_32
    ensures Word(v.inputBuffer, 2) == m.Arg1() && Word(v.inputBuffer, 3) == m.Arg2()
    ensures v.inputBuffer[REPLY_SIZE..] == m.Body()
  {
    OpenRuns(v, op);
    WholeReply(v.net);
    m := v.net.queue[0];
  }

  lemma OwnRequest(a: seq<Request>, q: Request, cancelled: bool)
    ensures (a + Requests(q, cancelled))[|a|] == q
  {
  }

  lemma Conclusion(v: View, v': View, op: Operation, m: Reply)
    requires Runs(v, op) && v.net.unsent == [] && v.outputBuffer == []
    requires v.net.queue != [] && m == v.net.queue[0] && m.id % TWO_32 == op.seqNr
    requires v' == v.(net := Decoding(v.net), inputBuffer := []) && Sealed(v'.net)
    ensures !m.Data? && Interpreted(op.kind, m.Kind(), m.Arg1(), m.Arg2(), m.Body()) == OutcomeOf(m)
    ensures Finished(v', op.(outcome := OutcomeOf(m)), m)
  {
    OpenRuns(v, op);
    NumberTells(v.net);
    OwnRequest(v.prior.history, v.request, op.sentCancel);
    DecodedOne(v.prior, v.net, v.request.id);
    AnswerIsInterpreted(op, v.request, v.prior.disk, m);
    SameRequest(op, v.request, OutcomeOf(m));
  }

  lemma SameRequest(op: Operation, q: Request, outcome: Outcome)
    ensures IsRequestOf(op.(outcome := outcome), q) <==> IsRequestOf(op, q)
  {
  }

  lemma PassedOver(v: View, v': View, op: Operation, io: IoData)
    requires Runs(v, op) && op.state.HandleInput? && v.net.unsent == [] && v.outputBuffer == []
    requires v.net.queue != [] && v.net.queue[0].id % TWO_32 != op.seqNr
    requires v' == v.(net := Decoding(v.net), inputBuffer := []) && Sealed(v'.net)
    ensures Prepared(v', op, io.Cleared())
  {
    OpenRuns(v, op);
    NumberTells(v.net);
    DecodedOne(v.prior, v.net, v.request.id);
    assert Running(v', op);
  }

  /** What no state changes of an operation. */
  ghost predicate SameTask(a: Operation, b: Operation) {
    b.kind == a.kind && b.data == a.data && b.offset == a.offset && b.seekType == a.seekType
  }

  function Rank(state: OpState): nat {
    match state
    case Init => 3
    case WroteRequest => 2
    case SendData => 1
    case HandleInput => 0
  }

  /** Without its driver the machine only begins a cancellation or decodes what it has. */
  ghost predicate Steady(a: Operation, b: Operation, n: WriteNet, n': WriteNet) {
    || (!a.sentCancel && b.sentCancel)
    || b.outcome != Unfinished
    || (b.sentCancel == a.sentCancel && n'.unsent == n.unsent && n'.budget == n.budget && n'.replies == n.replies)
  }

  /** The daemon has less to say, or less of it is in transit. */
  ghost predicate Less(a: WriteNet, b: WriteNet) {
    a.budget < b.budget || (a.budget == b.budget && |a.replies| < |b.replies|)
  }

  /** The operation has more of its bytes sent, or less to wait for. */
  ghost predicate Nearer(a: Operation, b: Operation, n: WriteNet, n': WriteNet) {
    || (!a.sentCancel && b.sentCancel)
    || (b.sentCancel == a.sentCancel && (|n'.unsent| < |n.unsent| || (n'.unsent == n.unsent && Less(n', n))))
  }

  lemma SentSome(data: seq<Byte>, pos: nat, buffer: seq<Byte>, behind: seq<Byte>, n: nat)
    ensures n <= |buffer| ==> (buffer + behind)[n..] == buffer[n..] + behind
    ensures pos + n <= |data| ==> data[pos..][n..] == data[pos + n..]
  {
  }

  /** What an operation returns: the socket failed, it was not tried, the stream lost its place in
      the replies, or the outcome. */
  datatype Result = Failed | Rejected | Mangled | Done(outcome: Outcome)

  function NewOperation(kind: OpKind): Operation {
    Operation(kind, Init, [], 0, 0, SeekSet, Unfinished, false, 0)
  }

  /** The outcomes that each kind of operation can have, and the file after them. */
  ghost predicate Effect(op: Operation, outcome: Outcome, d: Disk, d': Disk) {
    match outcome
    case Unfinished => false
    case TakenBack => d' == d
    case Refused(_, _) => d' == d
    case Wrote(n) => op.kind.WriteOp? && n <= |op.data| && d' == Disk(Overwrite(d.file, d.pos, op.data[..n]), d.pos + n)
    case At(pos) =>
      && op.kind.SeekOp? && d' == d.(pos := pos)
      && (IsInt64(op.offset) ==> pos == op.offset + if op.seekType.SeekEnd? then |d.file| else 0)
    case Resized =>
      && op.kind.TruncateOp? && d'.pos == d.pos
      && (IsInt64(op.offset) ==> op.offset >= 0 && d'.file == Resize(d.file, op.offset))
    case Information(_) => op.kind.QueryOp? && d' == d
    case ClosedWell(_) => op.kind.CloseOp? && d' == d
  }

  lemma Outcomes(v: View, op: Operation, m: Reply)
    requires Finished(v, op, m)
    ensures Effect(op, op.outcome, v.prior.disk, v.net.disk)
  {
    if IsInt64(op.offset) {
      OffsetRoundTrip(op.offset);
    }
  }

  /** The entity tag that a close brings. */
  function EtagAfter(outcome: Outcome, etag: Text.Option<seq<Byte>>): Text.Option<seq<Byte>> {
    if outcome.ClosedWell? && outcome.etag != [] then Text.Some(outcome.etag) else etag
  }

  // ---------- Runs ----------

  datatype Call =
    | CallWrite(data: seq<Byte>, cancellable: bool)
    | CallSeek(offset: int, seekType: SeekType, cancellable: bool)
    | CallTruncate(size: int, cancellable: bool)
    | CallQuery(attributes: seq<Byte>, cancellable: bool)
    | CallClose(cancellable: bool)

  /** A call: what it returned, the offset that tell() reported and the daemon's file and position
      before and after it, the replies it decoded, the number of the next request, and the requests
      it began. */
  datatype Event = Event(call: Call, result: Result, tell: int, tell': int, before: Disk, after: Disk,
                         heard: seq<Reply>, number: nat, asked: seq<Request>)
  {
    /** The request that the call asks for. */
    function Asking(): Request {
      match call
      case CallWrite(data, _) =>
        var n := Min(|data|, MAX_WRITE_SIZE);
        Request(WRITE, number, n, 0, data[..n])
      case CallSeek(offset, seekType, _) =>
        var target := (if seekType.SeekCur? then tell else 0) + offset;
        Request(if seekType.SeekEnd? then SEEK_END else SEEK_SET, number,
                OffsetBits(target) % TWO_32, OffsetBits(target) / TWO_32, [])
      case CallTruncate(size, _) => Request(TRUNCATE, number, OffsetBits(size) % TWO_32, OffsetBits(size) / TWO_32, [])
      case CallQuery(attributes, _) => Request(QUERY_INFO, number, 0, 0, attributes)
      case CallClose(_) => Request(CLOSE, number, 0, 0, [])
    }

    /** The call begins its request and no other, but for a CANCEL of that; none if it was not tried
        or was taken back. Sealed: the verifier looks inside only where `Mark` is mentioned. */
    ghost predicate Asks() {
      forall k: nat {:trigger Mark(this, k)} :: Mark(this, k) ==>
        && Asked(asked, Asking()) && (|asked| == 2 ==> call.cancellable)
        && (asked == [] <==> result.Rejected? || result == Done(TakenBack))
    }
  }

  lemma OpenAsks(e: Event)
    requires e.Asks()
    ensures Asked(e.asked, e.Asking()) && (|e.asked| == 2 ==> e.call.cancellable)
    ensures e.asked == [] <==> e.result.Rejected? || e.result == Done(TakenBack)
  {
    assert Mark(e, 0);
  }

  lemma AsksIs(e: Event, a: seq<Request>, b: seq<Request>)
    requires Requested(a, b, e.Asking(), e.call.cancellable) && e.asked == Added(a, b)
    requires a == b <==> e.result.Rejected? || e.result == Done(TakenBack)
    ensures e.Asks() && a <= b
  {
    OpenRequested(a, b, e.Asking(), e.call.cancellable);
  }

  /** The position that a seek asks for. */
  function Wanted(file: seq<Byte>, tell: int, offset: int, seekType: SeekType): int {
    match seekType
    case SeekSet => offset
    case SeekCur => tell + offset
    case SeekEnd => |file| + offset
  }

  /** Each call does to the daemon's file what its result says, at the daemon's position, and the
      result is what the last reply says. */
  ghost predicate Honest(e: Event, canSeek: bool, canTruncate: bool) {
    && e.Asks()
    && match e.result
       case Failed => false
       case Mangled => false
       case Rejected =>
         && e.after == e.before && e.tell' == e.tell && e.heard == []
         && (e.call.cancellable || (e.call.CallSeek? && !canSeek) || (e.call.CallTruncate? && !canTruncate))
       case Done(outcome) =>
         if outcome.TakenBack? then
           && e.call.cancellable && e.after == e.before && e.heard == []
           && e.tell' == if e.call.CallSeek? then 0 else e.tell
         else
           && e.heard != [] && !e.heard[|e.heard| - 1].Data? && outcome == OutcomeOf(e.heard[|e.heard| - 1])
           && if outcome.Wrote? then
                && e.call.CallWrite? && outcome.count <= |e.call.data| && e.tell' == e.tell + outcome.count
                && e.after == Disk(Overwrite(e.before.file, e.before.pos, e.call.data[..outcome.count]),
                                   e.before.pos + outcome.count)
              else if outcome.At? then
                && e.call.CallSeek? && e.after == e.before.(pos := outcome.pos) && e.tell' == outcome.pos
                && (IsInt64(e.call.offset + if e.call.seekType.SeekCur? then e.tell else 0) ==>
                      outcome.pos == Wanted(e.before.file, e.tell, e.call.offset, e.call.seekType))
              else if outcome.Resized? then
                && e.call.CallTruncate? && e.tell' == e.tell && e.after.pos == e.before.pos
                && (IsInt64(e.call.size) ==> e.call.size >= 0 && e.after.file == Resize(e.before.file, e.call.size))
              else e.after == e.before && e.tell' == e.tell
  }

  /** Every event begins where the one before it ended. */
  ghost predicate Chained(canSeek: bool, canTruncate: bool, tell: int, disk: Disk, log: seq<Event>, tell': int,
                          disk': Disk) {
    if log == [] then tell' == tell && disk' == disk
    else
      var e := log[|log| - 1];
      && Honest(e, canSeek, canTruncate) && e.tell' == tell' && e.after == disk'
      && Chained(canSeek, canTruncate, tell, disk, log[..|log| - 1], e.tell, e.before)
  }

  /** All the replies of a run. */
  ghost function AllHeard(log: seq<Event>): seq<Reply> {
    if log == [] then [] else AllHeard(log[..|log| - 1]) + log[|log| - 1].heard
  }

  /** All the requests of a run. */
  ghost function AllAsked(log: seq<Event>): seq<Request> {
    if log == [] then [] else AllAsked(log[..|log| - 1]) + log[|log| - 1].asked
  }

  /** The account of a run, from the connection at its start to the one now. */
  ghost predicate Accounted(canSeek: bool, canTruncate: bool, first: int, a: WriteNet, log: seq<Event>, tell: int,
                            b: WriteNet) {
    && Chained(canSeek, canTruncate, first, a.disk, log, tell, b.disk)
    && Later(a, b) && AllHeard(log) == Heard(a, b) && a.history + AllAsked(log) == b.history
  }

  /** `Accounted`, sealed: the verifier looks inside only where `Mark` is mentioned. */
  ghost predicate Run(canSeek: bool, canTruncate: bool, first: int, a: WriteNet, log: seq<Event>, tell: int,
                      b: WriteNet) {
    forall k: nat {:trigger Mark(a, k)} :: Mark(a, k) ==> Accounted(canSeek, canTruncate, first, a, log, tell, b)
  }

  lemma OpenRun(canSeek: bool, canTruncate: bool, first: int, a: WriteNet, log: seq<Event>, tell: int, b: WriteNet)
    requires Run(canSeek, canTruncate, first, a, log, tell, b)
    ensures Accounted(canSeek, canTruncate, first, a, log, tell, b)
  {
    assert Mark(a, 0);
  }

  lemma RunBegins(canSeek: bool, canTruncate: bool, first: int, a: WriteNet)
    requires Sealed(a)
    ensures Run(canSeek, canTruncate, first, a, [], first, a)
  {
    NothingHeard(a);
    assert a.history + [] == a.history;
  }

  lemma RunGoesOn(canSeek: bool, canTruncate: bool, first: int, a: WriteNet, log: seq<Event>, e: Event, b: WriteNet,
                  c: WriteNet)
    requires Run(canSeek, canTruncate, first, a, log, e.tell, b) && Honest(e, canSeek, canTruncate)
    requires e.before == b.disk && e.after == c.disk && Later(b, c) && e.heard == Heard(b, c)
    requires b.history <= c.history && e.asked == Added(b.history, c.history)
    ensures Run(canSeek, canTruncate, first, a, log + [e], e.tell', c)
  {
    OpenRun(canSeek, canTruncate, first, a, log, e.tell, b);
    assert (log + [e])[..|log|] == log;
    HeardOn(a, b, c);
    Associative(a.history, AllAsked(log), e.asked);
    AddedBack(b.history, c.history);
  }

  lemma RunStops(canSeek: bool, canTruncate: bool, first: int, a: WriteNet, log: seq<Event>, tell: int, b: WriteNet,
                 c: WriteNet)
    requires Run(canSeek, canTruncate, first, a, log, tell, b) && Later(b, c) && b.history <= c.history
    ensures Chained(canSeek, canTruncate, first, a.disk, log, tell, b.disk)
    ensures AllHeard(log) <= Heard(a, c) && a.history + AllAsked(log) <= c.history
  {
    OpenRun(canSeek, canTruncate, first, a, log, tell, b);
    HeardOn(a, b, c);
  }

  /** No seek was taken back since the last one that took place. */
  ghost predicate Trusted(log: seq<Event>) {
    if log == [] then true
    else
      var e := log[|log| - 1];
      || (e.result.Done? && e.result.outcome.At?)
      || (!(e.result == Done(TakenBack) && e.call.CallSeek?) && Trusted(log[..|log| - 1]))
  }

  lemma {:induction false} TellIsRight(canSeek: bool, canTruncate: bool, disk: Disk, log: seq<Event>, tell': int,
                                       disk': Disk)
    requires Chained(canSeek, canTruncate, disk.pos, disk, log, tell', disk') && Trusted(log)
    ensures tell' == disk'.pos
  {
    if log != [] {
      var e := log[|log| - 1];
      if !(e.result.Done? && e.result.outcome.At?) {
        TellIsRight(canSeek, canTruncate, disk, log[..|log| - 1], e.tell, e.before);
      }
    }
  }

  lemma {:induction false} ChainedPrefix(canSeek: bool, canTruncate: bool, tell: int, disk: Disk, log: seq<Event>,
                                         tell': int, disk': Disk, k: nat)
    requires Chained(canSeek, canTruncate, tell, disk, log, tell', disk') && k < |log|
    ensures Honest(log[k], canSeek, canTruncate)
      && Chained(canSeek, canTruncate, tell, disk, log[..k], log[k].tell, log[k].before)
  {
    var n := |log| - 1;
    if k < n {
      ChainedPrefix(canSeek, canTruncate, tell, disk, log[..n], log[n].tell, log[n].before, k);
      assert log[..n][..k] == log[..k];
    }
  }

  /** End to end: in every run that starts in step, a write at tell() = o that reports n, with no
      seek taken back since the last one that took place, puts its first n bytes at o, changes
      nothing else, and moves tell() to o + n. */
  lemma WritesAtTell(canSeek: bool, canTruncate: bool, disk: Disk, log: seq<Event>, tell': int, disk': Disk, k: nat)
    requires Chained(canSeek, canTruncate, disk.pos, disk, log, tell', disk')
    requires k < |log| && log[k].result.Done? && log[k].result.outcome.Wrote? && Trusted(log[..k])
    ensures var e, n := log[k], log[k].result.outcome.count;
      && e.call.CallWrite? && n <= |e.call.data| && 0 <= e.tell && e.tell' == e.tell + n
      && e.after.file == Overwrite(e.before.file, e.tell, e.call.data[..n])
  {
    ChainedPrefix(canSeek, canTruncate, disk.pos, disk, log, tell', disk', k);
    TellIsRight(canSeek, canTruncate, disk, log[..k], log[k].tell, log[k].before);
  }

  /** The event that a call is. */
  twostate function Occurred(stream: FileOutputStream, call: Call, result: Result): Event
    reads stream, stream.connection
  {
    Event(call, result, old(stream.currentOffset), stream.currentOffset, old(stream.connection.net.disk),
          stream.connection.net.disk,
          Heard(old(stream.connection.net), stream.connection.net), |old(stream.connection.net.history)| + 1,
          Added(old(stream.connection.net.history), stream.connection.net.history))
  }

  /** The run goes on after this result. */
  predicate GoesOn(call: Call, result: Result) {
    && !result.Failed? && !result.Mangled?
    && !(result == Done(TakenBack) && call.CallQuery? && call.attributes != [])
  }

  method PerformWrite(stream: FileOutputStream, data: seq<Byte>, cancellable: bool) returns (result: Result)
    requires stream.Valid()
    modifies stream, stream.connection
    ensures Later(old(stream.connection.net), stream.connection.net)
    ensures old(stream.connection.net.history) <= stream.connection.net.history
    ensures GoesOn(CallWrite(data, cancellable), result) || Dead(stream.connection.net) || cancellable
    ensures GoesOn(CallWrite(data, cancellable), result) ==>
      stream.Valid() && Honest(Occurred(stream, CallWrite(data, cancellable), result), stream.canSeek,
                               stream.canTruncate)
  {
    ghost var a := stream.connection.net.history;
    NothingHeard(stream.connection.net);
    result := stream.Write(data, cancellable);
    ghost var e := Occurred(stream, CallWrite(data, cancellable), result);
    AsksIs(e, a, stream.connection.net.history);
  }

  method PerformSeek(stream: FileOutputStream, offset: int, seekType: SeekType, cancellable: bool)
      returns (result: Result)
    requires stream.Valid()
    modifies stream, stream.connection
    ensures Later(old(stream.connection.net), stream.connection.net)
    ensures old(stream.connection.net.history) <= stream.connection.net.history
    ensures GoesOn(CallSeek(offset, seekType, cancellable), result) || Dead(stream.connection.net) || cancellable
    ensures GoesOn(CallSeek(offset, seekType, cancellable), result) ==>
      stream.Valid() && Honest(Occurred(stream, CallSeek(offset, seekType, cancellable), result), stream.canSeek,
                               stream.canTruncate)
  {
    ghost var a := stream.connection.net.history;
    NothingHeard(stream.connection.net);
    var ok;
    ok, result := stream.Seek(offset, seekType, cancellable);
    ghost var e := Occurred(stream, CallSeek(offset, seekType, cancellable), result);
    AsksIs(e, a, stream.connection.net.history);
  }

  method PerformTruncate(stream: FileOutputStream, size: int, cancellable: bool) returns (result: Result)
    requires stream.Valid()
    modifies stream, stream.connection
    ensures Later(old(stream.connection.net), stream.connection.net)
    ensures old(stream.connection.net.history) <= stream.connection.net.history
    ensures GoesOn(CallTruncate(size, cancellable), result) || Dead(stream.connection.net) || cancellable
    ensures GoesOn(CallTruncate(size, cancellable), result) ==>
      stream.Valid() && Honest(Occurred(stream, CallTruncate(size, cancellable), result), stream.canSeek,
                               stream.canTruncate)
  {
    ghost var a := stream.connection.net.history;
    NothingHeard(stream.connection.net);
    result := stream.TruncateTo(size, cancellable);
    ghost var e := Occurred(stream, CallTruncate(size, cancellable), result);
    AsksIs(e, a, stream.connection.net.history);
  }

  method PerformQuery(stream: FileOutputStream, attributes: seq<Byte>, cancellable: bool) returns (result: Result)
    requires stream.Valid() && |attributes| < TWO_32
    modifies stream, stream.connection
    ensures Later(old(stream.connection.net), stream.connection.net)
    ensures old(stream.connection.net.history) <= stream.connection.net.history
    ensures GoesOn(CallQuery(attributes, cancellable), result) || Dead(stream.connection.net) || cancellable
    ensures GoesOn(CallQuery(attributes, cancellable), result) ==>
      stream.Valid() && Honest(Occurred(stream, CallQuery(attributes, cancellable), result), stream.canSeek,
                               stream.canTruncate)
  {
    ghost var a := stream.connection.net.history;
    NothingHeard(stream.connection.net);
    result := stream.QueryInfo(attributes, cancellable);
    ghost var e := Occurred(stream, CallQuery(attributes, cancellable), result);
    AsksIs(e, a, stream.connection.net.history);
  }

  method PerformClose(stream: FileOutputStream, cancellable: bool) returns (result: Result)
    requires stream.Valid()
    modifies stream, stream.connection
    ensures Later(old(stream.connection.net), stream.connection.net)
    ensures old(stream.connection.net.history) <= stream.connection.net.history
    ensures GoesOn(CallClose(cancellable), result) || Dead(stream.connection.net) || cancellable
    ensures GoesOn(CallClose(cancellable), result) ==>
      stream.Valid() && Honest(Occurred(stream, CallClose(cancellable), result), stream.canSeek, stream.canTruncate)
  {
    ghost var a := stream.connection.net.history;
    NothingHeard(stream.connection.net);
    result := stream.Close(cancellable);
    ghost var e := Occurred(stream, CallClose(cancellable), result);
    AsksIs(e, a, stream.connection.net.history);
  }

  method Perform(stream: FileOutputStream, call: Call) returns (result: Result, ghost e: Event)
    requires stream.Valid() && (call.CallQuery? ==> |call.attributes| < TWO_32)
    modifies stream, stream.connection
    ensures e == Occurred(stream, call, result) && Later(old(stream.connection.net), stream.connection.net)
    ensures old(stream.connection.net.history) <= stream.connection.net.history
    ensures GoesOn(call, result) ==> stream.Valid() && Honest(e, stream.canSeek, stream.canTruncate)
    ensures GoesOn(call, result) || Dead(stream.connection.net) || call.cancellable
  {
    match call {
      case CallWrite(data, cancellable) => result := PerformWrite(stream, data, cancellable);
      case CallSeek(offset, seekType, cancellable) => result := PerformSeek(stream, offset, seekType, cancellable);
      case CallTruncate(size, cancellable) => result := PerformTruncate(stream, size, cancellable);
      case CallQuery(attributes, cancellable) => result := PerformQuery(stream, attributes, cancellable);
      case CallClose(cancellable) => result := PerformClose(stream, cancellable);
    }
    e := Occurred(stream, call, result);
  }

  /** Any run of calls, each of which may be cancelled at any moment. The log covers every call
      before the run stopped: at a failure of the socket, at a cancellation that lost the place in
      the replies, or at a query that was taken back with its attributes. */
  method Session(stream: FileOutputStream, calls: seq<Call>)
    returns (ghost log: seq<Event>, complete: bool, ghost tell: int, ghost disk: Disk)
    requires stream.Valid()
    requires forall i :: 0 <= i < |calls| && calls[i].CallQuery? ==> |calls[i].attributes| < TWO_32
    modifies stream, stream.connection
    ensures |log| <= |calls| && forall k :: 0 <= k < |log| ==> log[k].call == calls[k]
    ensures Chained(stream.canSeek, stream.canTruncate, old(stream.currentOffset), old(stream.connection.net.disk), log,
                    tell, disk)
    ensures AllHeard(log) <= Heard(old(stream.connection.net), stream.connection.net)
    ensures old(stream.connection.net.history) + AllAsked(log) <= stream.connection.net.history
    ensures complete ==>
      && old(stream.connection.net.history) + AllAsked(log) == stream.connection.net.history
      && AllHeard(log) == Heard(old(stream.connection.net), stream.connection.net)
      && |log| == |calls| && stream.Valid() && tell == stream.currentOffset && disk == stream.connection.net.disk
      && AllOnWire(stream.connection.net.history, stream.connection.net.sent)
    ensures !complete ==> |log| < |calls| && (Dead(stream.connection.net) || calls[|log|].cancellable)
  {
    log, tell, disk := [], stream.currentOffset, stream.connection.net.disk;
    ghost var net := stream.connection.net;
    RunBegins(stream.canSeek, stream.canTruncate, tell, net);
    for k := 0 to |calls|
      invariant stream.Valid() && |log| == k && tell == stream.currentOffset && disk == stream.connection.net.disk
      invariant forall i :: 0 <= i < k ==> log[i].call == calls[i]
      invariant Run(stream.canSeek, stream.canTruncate, old(stream.currentOffset), net, log, tell,
                    stream.connection.net)
    {
      ghost var e, before := *, stream.connection.net;
      var result;
      result, e := Perform(stream, calls[k]);
      if !GoesOn(calls[k], result) {
        RunStops(stream.canSeek, stream.canTruncate, old(stream.currentOffset), net, log, tell, before,
                 stream.connection.net);
        return log, false, tell, disk;
      }
      RunGoesOn(stream.canSeek, stream.canTruncate, old(stream.currentOffset), net, log, e, before,
                stream.connection.net);
      log, tell, disk := log + [e], e.tell', e.after;
    }
    complete := true;
    OpenRun(stream.canSeek, stream.canTruncate, old(stream.currentOffset), net, log, tell, stream.connection.net);
    SentRequests(stream.connection.net);
  }
}
