/** The client's read stream: a state machine that drives the socket, shared by the
    read, seek, query-info and close operations, and its synchronous driver. */
module InputStream {
  import opened Sequences
  import opened Wire
  import opened RequestStream
  import opened ReadChannel
  import opened StreamIo
  import opened StreamState

  class FileInputStream {
    const connection: Connection
    const canSeek: bool
    var seekGeneration: UInt32
    var seqNr: UInt32
    var currentOffset: int
    var preReads: seq<PreRead>
    var inputState: InputState
    var inputBlockSize: nat
    var inputBlockGen: UInt32
    var inputBuffer: seq<Byte>
    var outputBuffer: seq<Byte>

    // The file offset of the next byte a read will return
    ghost var cursor: nat
    // About the operation in progress: its request, and the connection and the cursor
    // when it began
    ghost var request: Request
    ghost var begun: Net
    ghost var start: nat

    ghost predicate Synced()
      reads this`seekGeneration, connection
    {
      connection.net.front.gen == seekGeneration
    }

    ghost function Pre(): seq<Byte>
      reads this`preReads, this`seekGeneration
    {
      Current(preReads, seekGeneration)
    }

    ghost predicate Base()
      reads this`seqNr, connection
    {
      && Sound(connection.file, connection.net)
      && seqNr == (|connection.net.history| + 1) % TWO_32
    }

    ghost predicate Stored(k: nat)
      reads this`inputState, this`inputBlockSize, this`inputBlockGen, this`preReads, this`seekGeneration, this`cursor,
            connection
    {
      Holds(connection.file, connection.net.head, connection.net.rest, connection.net.front,
            inputState, inputBlockSize, inputBlockGen, preReads, seekGeneration, cursor, k)
    }

    /** No request on its way and none being written. */
    ghost predicate Calm()
      reads this`seqNr, this`seekGeneration, this`outputBuffer, connection
    {
      && Base() && Synced() && outputBuffer == [] && connection.net.unsent == []
      && SeeksOnly(connection.net.history, connection.net.front.answered, 0)
    }

    /** What holds between two operations. */
    ghost predicate Valid()
      reads this`inputState, this`inputBlockSize, this`inputBlockGen, this`preReads, this`seekGeneration, this`cursor,
            this`seqNr, this`outputBuffer, this`inputBuffer, connection
    {
      Calm() && Stored(0) && inputBuffer == connection.net.head
    }

    /** What holds after a blocked channel has refused a seek: the client has counted it and the
        daemon has not, so that no block is of the client's generation. */
    ghost predicate Stalled()
      reads this`inputState, this`inputBlockSize, this`inputBlockGen, this`preReads, this`seekGeneration, this`cursor,
            this`seqNr, this`outputBuffer, this`inputBuffer, connection
    {
      && Base() && seekGeneration == NextGeneration(connection.net.front.gen)
      && outputBuffer == [] && connection.net.unsent == []
      && SeeksOnly(connection.net.history, connection.net.front.answered, 0)
      && Stored(0) && inputBuffer == connection.net.head
    }

    /** The operation's request has been begun. */
    ghost predicate Busy(op: Operation)
      reads this, connection
    {
      && Base()
      && Tracks(connection.net.history, connection.net.front, |connection.net.rest|, op.Issued(), request, start,
                seekGeneration)
      && Listens(begun, connection.net, op.kind, request.id, op.kind.ReadOp? && op.state.HandleInputBlock?)
      && (op.kind.ReadOp? || op.kind.QueryOp? ==> cursor == start)
      && (op.kind.ReadOp? || op.kind.CloseOp? ==> preReads == [])
      && (op.kind.ReadOp? && !op.state.HandleInputBlock? ==> inputState.InReplyHeader?)
      && RequestOf(op)
    }

    /** The request says what the operation asks for. */
    ghost predicate RequestOf(op: Operation)
      reads this, connection
    {
      && request.data == (if op.kind.QueryOp? then op.attributes else [])
      && (op.kind.SeekOp? && IsInt64(op.offset) ==>
            SeekTarget(connection.file, request) == op.offset + if op.seekType.SeekEnd? then |connection.file| else 0)
    }

    /** The request has been sent; replies are awaited. */
    ghost predicate Waiting(op: Operation)
      reads this, connection
    {
      Busy(op) && outputBuffer == [] && connection.net.unsent == [] && connection.net.WithinCapacity() &&
      (op.kind.SeekOp? ==> op.sentSeek)
    }

    /** The connection with the request begun and nothing of it sent. */
    ghost function Opened(): Net
      reads this
    {
      begun.(history := begun.history + [request], unsent := request.Encoded())
    }

    ghost predicate JustOpened()
      reads this, connection
    {
      connection.net == Opened() && begun.unsent == [] && cursor == start
    }

    /** What each state of the machine may rely on. */
    ghost predicate Ready(op: Operation, io: IoData)
      reads this, connection
    {
      var n := connection.net;
      io.res <= io.size &&
      match op.state
      case Init =>
        && Valid() && !op.sentCancel && !op.sentSeek && n == begun && cursor == start && |op.attributes| < TWO_32
        && !io.ioCancelled
      case WroteRequest =>
        && Busy(op) && Stored(0) && inputBuffer == n.head
        && (if io.ioCancelled
            then !op.sentCancel && !op.sentSeek && outputBuffer == request.Encoded() && JustOpened()
            else io.res <= |outputBuffer| && outputBuffer[io.res..] == n.unsent && n.WithinCapacity())
      case HandleInput => Waiting(op) && Stored(0) && inputBuffer == n.head && io.res == io.size == 0
      case HandleInputBlock => Waiting(op) && Stored(0) && inputBuffer == n.head && inputState.InBlock?
      case HandleHeader =>
        && Waiting(op) && Stored(0) && inputState.InReplyHeader?
        && |inputBuffer| == |n.head| + (io.size - io.res) && inputBuffer[..|n.head|] == n.head
        && (io.res == 0 ==> io.size == 0) && (io.ioCancelled ==> io.res == 0)
      case SkipBlock =>
        && Waiting(op) && inputState.InBlock? && Stored(io.res) && inputBuffer == n.head && io.size == inputBlockSize
        && (io.ioCancelled ==> io.res == 0 && !op.sentCancel) && (op.kind.SeekOp? || op.kind.CloseOp?)
      case ReadBlock =>
        && inputState.InBlock? && Stored(io.res) && inputBuffer == n.head && io.res <= inputBlockSize
        && (op.kind.ReadOp? || op.kind.QueryOp?) && (op.kind.QueryOp? ==> Waiting(op))
        && (op.kind.ReadOp? ==> Calm() && Served(begun, n, request.id))
        && (io.ioCancelled ==> io.res == 0 && n == begun)
        && |op.buffer| == io.res && io.res + |n.rest| <= n.front.pos
        && IsAt(connection.file, n.front.pos - |n.rest| - io.res, op.buffer)
        && cursor == start && (io.size > 0 ==> io.res > 0 || io.ioCancelled)
        && (op.kind.ReadOp? ==> preReads == [] && io.size == Min(op.bufferSize, inputBlockSize))
        && (op.kind.QueryOp? ==> io.size == inputBlockSize > 0)
    }

    /** The header of the next reply has been received. */
    ghost predicate AtReply(op: Operation)
      reads this, connection
    {
      var n := connection.net;
      && op.state.HandleHeader? && Waiting(op) && Stored(0) && inputState.InReplyHeader?
      && n.queue != [] && inputBuffer == n.head == Decodable(n.queue[0])
    }

    /** What holds when the machine asks for I/O. */
    ghost predicate Pending(r: StateOp, op: Operation, io: IoData)
      reads this, connection
    {
      var n := connection.net;
      match r
      case OpDone => false
      case OpWrite =>
        && op.state.WroteRequest? && Busy(op) && Stored(0) && inputBuffer == n.head
        && outputBuffer == n.unsent && n.unsent != [] && io.size == |outputBuffer|
        && (io.allowCancel ==> !op.sentCancel && !op.sentSeek && JustOpened())
      case OpRead =>
        if op.state.HandleHeader? then
          && Waiting(op) && Stored(0) && inputState.InReplyHeader? && !io.allowCancel
          && io.size == MissingBytes(n.head) > 0
          && |inputBuffer| == |n.head| + io.size && inputBuffer[..|n.head|] == n.head
        else
          && op.state.ReadBlock? && inputState.InBlock? && Stored(0) && inputBuffer == n.head && cursor == start
          && (op.kind.ReadOp? || op.kind.QueryOp?) && (op.kind.QueryOp? ==> Waiting(op))
          && (op.kind.ReadOp? ==> Calm() && Served(begun, n, request.id))
          && io.size <= inputBlockSize && (io.allowCancel ==> !op.sentCancel && n == begun)
          && (op.kind.ReadOp? ==> preReads == [] && io.size == Min(op.bufferSize, inputBlockSize))
          && (op.kind.QueryOp? ==> io.size == inputBlockSize > 0)
      case OpSkip =>
        && op.state.SkipBlock? && Waiting(op) && inputState.InBlock? && Stored(0) && inputBuffer == n.head
        && io.size == inputBlockSize && (io.allowCancel ==> !op.sentCancel) && (op.kind.SeekOp? || op.kind.CloseOp?)
    }

    /** What holds when the operation is over: it was cancelled and has left the connection as it
        was, or a read was served, or the first reply that ends the operation says the outcome. */
    ghost predicate Finished(op: Operation)
      reads this, connection
    {
      var n := connection.net;
      match op.outcome
      case Unfinished => false
      case Bytes(data) =>
        && op.kind.ReadOp? && Valid() && |data| <= op.bufferSize && Served(begun, n, request.id)
        && IsAt(connection.file, start, data) && cursor == start + |data|
        && (data == [] && op.bufferSize > 0 ==> start >= |connection.file|)
      case Cancelled =>
        n == begun &&
        if op.kind.QueryOp? then
          request.data == op.attributes && outputBuffer == request.Encoded()[..|op.attributes|]
              && (op.attributes == [] ==> Valid()) && cursor == start
        else Valid() && (op.kind.CloseOp? || cursor == start)
      case Refused(_, _) =>
        if op.kind.SeekOp? && !LastReply().OfSeek() then Told(op) && Stalled()
        else Concluded(op) && (op.kind.SeekOp? ==> cursor == n.front.pos)
      case At(pos) =>
        && op.kind.SeekOp? && Concluded(op) && cursor == n.front.pos == pos
        && (IsInt64(op.offset) ==> pos == op.offset + if op.seekType.SeekEnd? then |connection.file| else 0)
      case Information(_) => op.kind.QueryOp? && Concluded(op)
      case ClosedWell => op.kind.CloseOp? && Concluded(op)
    }

    /** The last reply decoded. */
    ghost function LastReply(): Reply
      reads this, connection
    {
      var n := connection.net;
      if 0 < n.Decoded() <= |n.log| then n.log[n.Decoded() - 1] else Truncated(0)
    }

    /** The first reply that ends the operation is the last one decoded, and says the outcome.
        Unless that is a new position, the reply stream has moved by the data heard. */
    ghost predicate Told(op: Operation)
      reads this, connection
    {
      var n := connection.net;
      && (!op.outcome.At? ==> n.front.pos == begun.front.pos + Payload(Heard(begun, n)))
      && Settled(begun, n, op.kind, request.id) && Tells(op.outcome, LastReply())
    }

    ghost predicate Concluded(op: Operation)
      reads this, connection
    {
      Valid() && Told(op)
      && (op.kind.ReadOp? || op.kind.QueryOp? ==> cursor == start)
    }

    /** The daemon has hung up, nothing is left to receive, and of all the replies that were not
        decoded before the operation began, none ends it. */
    ghost predicate Exhausted(op: Operation)
      reads this, connection
    {
      var n := connection.net;
      && HungUp(n) && n.queue == [] && 0 <= begun.Decoded() <= |n.log|
      && Unended(n.log[begun.Decoded()..], op.kind, request.id)
    }

    // Sealed forms: the verifier looks inside only where `Mark` is mentioned.

    ghost predicate Prepared(op: Operation, io: IoData)
      reads this, connection
    {
      forall k: nat {:trigger Mark(op, k)} :: Mark(op, k) ==> Ready(op, io)
    }

    ghost predicate Asks(r: StateOp, op: Operation, io: IoData)
      reads this, connection
    {
      forall k: nat {:trigger Mark(op, k)} :: Mark(op, k) ==> Pending(r, op, io)
    }

    ghost predicate Over(op: Operation)
      reads this, connection
    {
      forall k: nat {:trigger Mark(op, k)} :: Mark(op, k) ==> Finished(op)
    }

    /** The machine has handed over: it is done, or asks for I/O. */
    ghost predicate Handed(r: StateOp, op: Operation, io: IoData)
      reads this, connection
    {
      if r.OpDone? then Over(op) else Asks(r, op, io)
    }

    lemma OpenPrepared(op: Operation, io: IoData)
      requires Prepared(op, io)
      ensures Ready(op, io)
    {
      assert Mark(op, 0);
    }

    lemma OpenHanded(r: StateOp, op: Operation, io: IoData)
      requires Handed(r, op, io)
      ensures if r.OpDone? then Finished(op) else Pending(r, op, io)
    {
      assert Mark(op, 0);
    }

    constructor (connection: Connection, canSeek: bool)
      requires connection.net ==
        Net([], [], [], [], [], [], [], Point(0, 0, 0), Point(0, 0, 0), 0, connection.net.budget, [], false)
      ensures this.connection == connection && this.canSeek == canSeek
      ensures Valid() && cursor == currentOffset == 0 && preReads == [] && seqNr == 1
    {
      this.connection, this.canSeek := connection, canSeek;
      seekGeneration, seqNr, currentOffset := 0, 1, 0;
      preReads, inputState, inputBlockSize, inputBlockGen := [], InReplyHeader, 0, 0;
      inputBuffer, outputBuffer := [], [];
      cursor, start, begun := 0, 0, connection.net;
      assert InPlace(connection.file, [], [], Point(0, 0, 0), InReplyHeader, 0, 0, [], 0, 0, 0);
      request := Request(READ, 0, 0, 0, []);
    }

    // ---------- Requests ----------

    method AppendRequest(command: UInt32, arg1: UInt32, arg2: UInt32, data: seq<Byte>)
        returns (number: UInt32, ghost q: Request)
      requires Base() && outputBuffer == [] && connection.net.unsent == [] && |data| < TWO_32
      modifies this`seqNr, this`outputBuffer, connection
      ensures Base() && number == old(seqNr)
      ensures q == Request(command, |old(connection.net).history| + 1, arg1, arg2, data)
      ensures connection.net ==
        old(connection.net).(history := old(connection.net).history + [q], unsent := q.Encoded())
      ensures outputBuffer == q.Encoded()
    {
      number := seqNr;
      var header := PutWord(command) + (PutWord(seqNr) + (PutWord(arg1) + (PutWord(arg2) + PutWord(|data| % TWO_32))));
      SequenceNumbers(|connection.net.history| + 1);
      seqNr := (seqNr + 1) % TWO_32;
      outputBuffer := outputBuffer + (header + data);
      var whole := Request(command, |connection.net.history| + 1, arg1, arg2, data);
      q := whole;
      connection.Begin(whole);
    }

    method UnappendRequest()
      requires Base() && connection.net.history != []
      requires outputBuffer == connection.net.unsent == connection.net.history[|connection.net.history| - 1].Encoded()
      modifies this`seqNr, this`outputBuffer, connection
      ensures Base()
      ensures connection.net ==
        old(connection.net).(history := old(connection.net).history[..|old(connection.net).history| - 1], unsent := [])
      ensures outputBuffer == old(outputBuffer)[..|old(outputBuffer)| - REQUEST_SIZE]
    {
      SequenceNumbers(|connection.net.history|);
      seqNr := (seqNr - 1) % TWO_32;
      outputBuffer := outputBuffer[..|outputBuffer| - REQUEST_SIZE];
      connection.Withdraw();
    }

    // ---------- The states of the machine ----------

    /** Takes bytes from the first queued block. */
    method TakeFromFront(size: nat) returns (data: seq<Byte>)
      requires Valid() && preReads != [] && preReads[0].gen == seekGeneration
      modifies this`preReads, this`cursor
      ensures Valid()
      ensures |data| == Min(size, |old(preReads)[0].data|) && (data == [] ==> size == 0)
      ensures IsAt(connection.file, old(cursor), data) && cursor == old(cursor) + |data|
    {
      var pre := preReads[0];
      var len := Min(size, |pre.data|);
      data := pre.data[..len];
      FrontOfQueue(connection.file, connection.net.head, connection.net.rest, connection.net.front,
                   inputState, inputBlockSize, inputBlockGen, preReads, seekGeneration, cursor);
      assert |data| == len && (data == [] ==> size == 0);
      HoldsTake(connection.file, connection.net.head, connection.net.rest, connection.net.front,
                inputState, inputBlockSize, inputBlockGen, preReads, seekGeneration, cursor, len);
      preReads := WithoutFront(preReads, len);
      cursor := cursor + len;
    }

    /** Serves a read from the queued blocks, if one of the current generation is left. */
    method TakePreRead(size: nat) returns (found: bool, data: seq<Byte>)
      requires Valid()
      modifies this`preReads, this`cursor
      ensures Valid()
      ensures found <==> old(Pre()) != []
      ensures !found ==> preReads == [] && cursor == old(cursor)
      ensures found ==> |data| == Min(size, old(FirstLength(preReads, seekGeneration))) && (data == [] ==> size == 0)
      ensures found ==> IsAt(connection.file, old(cursor), data) && cursor == old(cursor) + |data|
    {
      while preReads != []
        invariant Valid() && cursor == old(cursor) && Pre() == old(Pre())
        invariant FirstLength(preReads, seekGeneration) == old(FirstLength(preReads, seekGeneration))
      {
        FrontOfQueue(connection.file, connection.net.head, connection.net.rest, connection.net.front,
                     inputState, inputBlockSize, inputBlockGen, preReads, seekGeneration, cursor);
        if seekGeneration != preReads[0].gen {
          HoldsDrop(connection.file, connection.net.head, connection.net.rest, connection.net.front,
                    inputState, inputBlockSize, inputBlockGen, preReads, seekGeneration, cursor);
          preReads := preReads[1..];
        } else {
          data := TakeFromFront(size);
          return true, data;
        }
      }
      return false, [];
    }

    /** Every operation but a read served from received data starts by appending a request. */
    method BeginRequest(op: Operation, io: IoData, command: UInt32, arg1: UInt32, arg2: UInt32, data: seq<Byte>)
      returns (op': Operation, io': IoData)
      requires op.state.Init? && Valid() && !op.sentCancel && !op.sentSeek
      requires connection.net == begun && cursor == start
      requires (command == SEEK_SET || command == SEEK_END) <==> op.kind.SeekOp?
      requires op.kind.ReadOp? || op.kind.CloseOp? ==> preReads == []
      requires op.kind.ReadOp? ==> inputState.InReplyHeader?
      requires data == (if op.kind.QueryOp? then op.attributes else []) && |data| < TWO_32
      requires op.kind.SeekOp? && IsInt64(op.offset) ==>
        SeekTarget(connection.file, Request(command, 0, arg1, arg2, data)) ==
        op.offset + if op.seekType.SeekEnd? then |connection.file| else 0
      modifies this`seqNr, this`outputBuffer, this`request, connection
      ensures op' == op.(state := WroteRequest, seqNr := op'.seqNr) && Asks(OpWrite, op', io')
      ensures io'.cancelled == io.cancelled && io'.allowCancel && io'.ioCancelled == io.ioCancelled
      ensures request == Request(command, |begun.history| + 1, arg1, arg2, data)
      ensures connection.net.history == old(connection.net.history) + [request] && op'.seqNr == request.id % TWO_32
    {
      RestOfBlock(connection.file, connection.net);
      OpenHolds(connection.file, connection.net.head, connection.net.rest, connection.net.front,
                inputState, inputBlockSize, inputBlockGen, preReads, seekGeneration, cursor, 0);
      var nr, q := AppendRequest(command, arg1, arg2, data);
      request := q;
      op' := op.(state := WroteRequest, seqNr := nr);
      io' := io.(size := |outputBuffer|, allowCancel := true);
      ListensBegin(connection.file, begun, connection.net, op.kind, request.id);
      TracksBegin(begun.history, begun.front, |begun.rest|, op'.Issued(), request, start, seekGeneration);
    }

    method InitRead(op: Operation, io: IoData) returns (r: StateOp, op': Operation, io': IoData)
      requires op.kind.ReadOp? && op.state.Init? && Ready(op, io)
      modifies this`preReads, this`cursor, this`seqNr, this`outputBuffer, this`request, connection
      ensures r.OpDone? ==>
        && Over(op') && op'.outcome.Bytes?
        && |op'.outcome.data| == Min(op.bufferSize, old(FirstLength(preReads, seekGeneration)))
      ensures !r.OpDone? ==> Asks(r, op', io') && io'.allowCancel
      ensures r.OpRead? ==> io'.size == Min(op.bufferSize, inputBlockSize)
      ensures SameOperation(op.(seqNr := op'.seqNr), op') && io'.cancelled == io.cancelled && !io'.ioCancelled
      ensures !op'.sentCancel && (r.OpRead? ==> op'.state.ReadBlock?)
      ensures !r.OpWrite? ==> connection.net == old(connection.net)
      ensures r.OpWrite? ==>
        var q := Request(READ, |old(connection.net.history)| + 1, op.bufferSize % TWO_32, 0, []);
        connection.net.history == old(connection.net.history) + [q] && op'.seqNr == q.id % TWO_32
      ensures r == if old(Pre()) != [] then OpDone
                   else if old(inputState).InBlock? && old(inputBlockGen) == old(seekGeneration) then OpRead
                       else OpWrite
    {
      op', io' := op, io;
      var found, data := TakePreRead(op.bufferSize);
      if found {
        return OpDone, op.(outcome := Bytes(data)), io;
      }
      if inputState == InBlock && seekGeneration == inputBlockGen {
        assert Served(begun, connection.net, request.id);
        return OpRead, op.(state := ReadBlock),
          io.(size := Min(op.bufferSize, inputBlockSize), allowCancel := true);
      }
      OpenHolds(connection.file, connection.net.head, connection.net.rest, connection.net.front,
                inputState, inputBlockSize, inputBlockGen, preReads, seekGeneration, cursor, 0);
      op', io' := BeginRequest(op, io, READ, op.bufferSize % TWO_32, 0, []);
      return OpWrite, op', io';
    }

    method InitSeek(op: Operation, io: IoData) returns (op': Operation, io': IoData)
      requires op.kind.SeekOp? && op.state.Init? && Ready(op, io)
      modifies this`seqNr, this`outputBuffer, this`request, connection
      ensures Asks(OpWrite, op', io')
      ensures
        var offset := if op.seekType.SeekCur? then currentOffset + op.offset else op.offset;
        var q := Request(if op.seekType.SeekEnd? then SEEK_END else SEEK_SET, |old(connection.net.history)| + 1,
                         OffsetBits(offset) % TWO_32, OffsetBits(offset) / TWO_32, []);
        && SameOperation(op.(offset := offset, seqNr := op'.seqNr), op') && !op'.sentCancel
        && connection.net.history == old(connection.net.history) + [q] && op'.seqNr == q.id % TWO_32
      ensures io'.cancelled == io.cancelled && io'.ioCancelled == io.ioCancelled
    {
      var command := SEEK_SET;
      op' := op;
      if op.seekType == SeekCur {
        op' := op'.(offset := currentOffset + op.offset);
      } else if op.seekType == SeekEnd {
        command := SEEK_END;
      }
      if IsInt64(op'.offset) {
        OffsetRoundTrip(op'.offset);
      }
      var bits := OffsetBits(op'.offset);
      op', io' := BeginRequest(op', io, command, bits % TWO_32, bits / TWO_32, []);
    }

    method InitClose(op: Operation, io: IoData) returns (op': Operation, io': IoData)
      requires op.kind.CloseOp? && op.state.Init? && Ready(op, io)
      modifies this`preReads, this`cursor, this`start, this`seqNr, this`outputBuffer, this`request, connection
      ensures Asks(OpWrite, op', io') && SameOperation(op.(seqNr := op'.seqNr), op') && !op'.sentCancel
      ensures
        var q := Request(CLOSE, |old(connection.net.history)| + 1, 0, 0, []);
        connection.net.history == old(connection.net.history) + [q] && op'.seqNr == q.id % TWO_32
      ensures io'.cancelled == io.cancelled && io'.ioCancelled == io.ioCancelled
    {
      HoldsClear(connection.file, connection.net.head, connection.net.rest, connection.net.front,
                 inputState, inputBlockSize, inputBlockGen, preReads, seekGeneration, cursor);
      cursor := cursor + |Pre()|;
      start := cursor;
      preReads := [];
      op', io' := BeginRequest(op, io, CLOSE, 0, 0, []);
    }

    /** The write was cancelled before its first byte: the request is taken back. */
    method CancelEarly(op: Operation, io: IoData) returns (op': Operation)
      requires op.state.WroteRequest? && io.ioCancelled && Ready(op, io)
      modifies this`seqNr, this`outputBuffer, connection
      ensures Over(op') && op' == op.(outcome := Cancelled)
      ensures connection.net == begun
    {
      TracksWithdraw(connection.net.history, connection.net.front, |connection.net.rest|, op.Issued(), request, start,
                     seekGeneration);
      UnappendRequest();
      assert connection.net.history == begun.history;
      op' := op.(outcome := Cancelled);
    }

    /** The first byte of a seek request is out: from here on the old data is stale. */
    method MarkSeekSent(op: Operation, io: IoData) returns (op': Operation)
      requires op.kind.SeekOp? && op.state.WroteRequest? && !io.ioCancelled && Ready(op, io)
      modifies this`seekGeneration, this`preReads
      ensures op' == op.(sentSeek := true) && Ready(op', io) && preReads == []
      ensures seekGeneration == if op.sentSeek then old(seekGeneration) else NextGeneration(old(seekGeneration))
    {
      TracksSeek(connection.net.history, connection.net.front, |connection.net.rest|, op.Issued(), request, start,
                 seekGeneration);
      HoldsStale(connection.file, connection.net.head, connection.net.rest, connection.net.front,
                 inputState, inputBlockSize, inputBlockGen, preReads, seekGeneration,
                 if op.sentSeek then seekGeneration else NextGeneration(seekGeneration), cursor);
      if !op.sentSeek {
        seekGeneration := NextGeneration(seekGeneration);
      }
      preReads := [];
      return op.(sentSeek := true);
    }

    /** Part or all of the output buffer was written. */
    method OnWrote(op: Operation, io: IoData) returns (again: bool, op': Operation, io': IoData)
      requires op.state.WroteRequest? && !io.ioCancelled && Ready(op, io)
      modifies this`seekGeneration, this`preReads, this`outputBuffer
      ensures SameOperation(op, op') && op'.sentCancel == op.sentCancel
      ensures again ==> op'.state.HandleInput? && Prepared(op', io') && io' == io.Cleared()
      ensures !again ==> Asks(OpWrite, op', io') && !io'.allowCancel
      ensures io'.cancelled == io.cancelled
    {
      op' := op;
      if op.kind == SeekOp {
        op' := MarkSeekSent(op, io);
      }
      again, op', io' := Flush(op', io);
    }

    method Flush(op: Operation, io: IoData) returns (again: bool, op': Operation, io': IoData)
      requires op.state.WroteRequest? && !io.ioCancelled && Ready(op, io) && (op.kind.SeekOp? ==> op.sentSeek)
      modifies this`outputBuffer
      ensures SameOperation(op, op') && op'.sentCancel == op.sentCancel
      ensures again ==> op'.state.HandleInput? && Prepared(op', io') && io' == io.Cleared()
      ensures !again ==> Asks(OpWrite, op', io') && !io'.allowCancel
      ensures io'.cancelled == io.cancelled
    {
      if io.res < |outputBuffer| {
        outputBuffer := outputBuffer[io.res..];
        return false, op, io.(size := |outputBuffer|, allowCancel := false);
      }
      outputBuffer := [];
      return true, op.(state := HandleInput), io.Cleared();
    }

    /** Sends a CANCEL if the caller has cancelled, otherwise turns to the input. */
    method OnHandleInput(op: Operation, io: IoData) returns (again: bool, op': Operation, io': IoData)
      requires op.state.HandleInput? && Ready(op, io)
      modifies this`seqNr, this`outputBuffer, connection
      ensures SameOperation(op, op')
      ensures MayCancel(op.seqNr, op.sentCancel, op'.sentCancel, old(connection.net.history), connection.net.history)
      ensures io.cancelled && !op.sentCancel ==> !again && op'.sentCancel
      ensures again ==>
        (op'.state.HandleInputBlock? || op'.state.HandleHeader?) && Prepared(op', io') && io' == io.Cleared()
      ensures again ==> op'.sentCancel == op.sentCancel && connection.net == old(connection.net)
      ensures !again ==> Asks(OpWrite, op', io') && !op.sentCancel && op'.sentCancel && io.cancelled
      ensures io'.cancelled == io.cancelled
    {
      if io.cancelled && !op.sentCancel {
        ghost var before, history := connection.net, connection.net.history;
        var _, q := AppendRequest(CANCEL, op.seqNr, 0, []);
        TracksCancel(history, connection.net.front, |connection.net.rest|, op.Issued(), request, start, seekGeneration,
                     q);
        ListensOn(begun, before, connection.net, op.kind, request.id, false);
        return false, op.(sentCancel := true, state := WroteRequest), io.(size := |outputBuffer|, allowCancel := false);
      }
      return true, op.(state := if inputState == InBlock then HandleInputBlock else HandleHeader), io.Cleared();
    }

    /** In a data block: read it if it is wanted, skip it otherwise. */
    method OnInputBlock(op: Operation, io: IoData) returns (again: bool, r: StateOp, op': Operation, io': IoData)
      requires op.state.HandleInputBlock? && Ready(op, io)
      modifies this`inputState
      ensures SameOperation(op, op') && op'.sentCancel == op.sentCancel
      ensures again ==>
        op.kind.QueryOp? && inputState.InReplyHeader? && op'.state.HandleInput? && Prepared(op', io')
            && io' == io.Cleared()
      ensures !again ==>
        && (r.OpRead? || r.OpSkip?) && Asks(r, op', io')
        && (r.OpRead? <==> (op.kind.ReadOp? || op.kind.QueryOp?) && seekGeneration == inputBlockGen)
        && io'.size == (if r.OpRead? && op.kind.ReadOp? then Min(op.bufferSize, inputBlockSize) else inputBlockSize)
        && (io'.allowCancel <==> r.OpSkip? && !op.sentCancel)
      ensures io'.cancelled == io.cancelled
    {
      TracksGeneration(connection.net.history, connection.net.front, |connection.net.rest|, op.Issued(), request, start,
                       seekGeneration);
      OpenHolds(connection.file, connection.net.head, connection.net.rest, connection.net.front,
                inputState, inputBlockSize, inputBlockGen, preReads, seekGeneration, cursor, 0);
      if op.kind == QueryOp && inputBlockSize == 0 {
        inputState := InReplyHeader;
        return true, OpDone, op.(state := HandleInput), io.Cleared();
      }
      if (op.kind == ReadOp || op.kind == QueryOp) && seekGeneration == inputBlockGen {
        if op.kind == ReadOp {
          BlockServes(begun, connection.net, request.id);
        }
        var size := if op.kind == ReadOp then Min(op.bufferSize, inputBlockSize) else inputBlockSize;
        return false, OpRead, op.(state := ReadBlock), io.(size := size, allowCancel := false);
      }
      return false, OpSkip, op.(state := SkipBlock), io.(size := inputBlockSize, allowCancel := !op.sentCancel);
    }

    method OnSkipBlock(op: Operation, io: IoData) returns (op': Operation, io': IoData)
      requires op.state.SkipBlock? && Ready(op, io)
      modifies this`inputState, this`inputBlockSize, this`cursor
      ensures op' == op.(state := HandleInput) && Prepared(op', io') && io' == io.Cleared()
      ensures !io.ioCancelled && inputState.InBlock? ==> inputBlockSize > 0
    {
      op', io' := op.(state := HandleInput), io.Cleared();
      if io.ioCancelled {
        return;
      }
      PassBytes(op, io.res);
    }

    /** Bytes of the block are behind. */
    method PassBytes(op: Operation, n: nat)
      requires Waiting(op) && inputState.InBlock? && Stored(n) && inputBuffer == connection.net.head
      requires op.kind.SeekOp? || op.kind.CloseOp?
      modifies this`inputState, this`inputBlockSize, this`cursor
      ensures Waiting(op) && Stored(0) && (inputState.InBlock? ==> inputBlockSize > 0)
    {
      TracksGeneration(connection.net.history, connection.net.front, |connection.net.rest|, op.Issued(), request, start,
                       seekGeneration);
      HoldsConsume(connection.file, connection.net.head, connection.net.rest, connection.net.front,
                   inputBlockSize, inputBlockGen, preReads, seekGeneration, cursor, n);
      inputBlockSize := inputBlockSize - n;
      if Synced() {
        cursor := cursor + n;
      }
      if inputBlockSize == 0 {
        inputState := InReplyHeader;
      }
    }

    /** Block bytes reached the caller's buffer: the read is over. */
    method OnReadBlock(op: Operation, io: IoData) returns (op': Operation)
      requires op.state.ReadBlock? && op.kind.ReadOp? && Ready(op, io)
      modifies this`inputState, this`inputBlockSize, this`cursor
      ensures Over(op') && op' == op.(outcome := op'.outcome) && (op'.outcome.Cancelled? ==> io.ioCancelled)
    {
      if io.ioCancelled {
        op' := op.(outcome := Cancelled);
        NothingIsRead(op');
        return;
      }
      HoldsCurrent(connection.file, connection.net.head, connection.net.rest, connection.net.front,
                   inputBlockSize, inputBlockGen, preReads, seekGeneration, cursor, io.res);
      if io.res > 0 {
        TakeBytes(io.res);
      }
      op' := op.(outcome := Bytes(op.buffer));
      BytesAreRead(op');
    }

    lemma BytesAreRead(op: Operation)
      requires op.kind.ReadOp? && op.outcome.Bytes? && Valid() && Served(begun, connection.net, request.id)
      requires |op.outcome.data| <= op.bufferSize && IsAt(connection.file, start, op.outcome.data)
      requires cursor == start + |op.outcome.data|
        && (op.outcome.data == [] && op.bufferSize > 0 ==> start >= |connection.file|)
      ensures Over(op)
    {
    }

    lemma NothingIsRead(op: Operation)
      requires op.kind.ReadOp? && op.outcome.Cancelled? && Valid() && connection.net == begun && cursor == start
      ensures Over(op)
    {
    }

    /** Bytes of the current block are behind, with nothing queued before them. */
    method TakeBytes(n: nat)
      requires Calm() && inputState.InBlock? && Stored(n) && inputBuffer == connection.net.head && preReads == []
      modifies this`inputState, this`inputBlockSize, this`cursor
      ensures Valid() && cursor == old(cursor) + n
    {
      HoldsConsume(connection.file, connection.net.head, connection.net.rest, connection.net.front,
                   inputBlockSize, inputBlockGen, preReads, seekGeneration, cursor, n);
      inputBlockSize := inputBlockSize - n;
      if inputBlockSize == 0 {
        inputState := InReplyHeader;
      }
      cursor := cursor + n;
    }

    /** Block bytes reached a fresh buffer: a query keeps them for the next read. */
    method OnQueryBlock(op: Operation, io: IoData) returns (op': Operation, io': IoData)
      requires op.state.ReadBlock? && op.kind.QueryOp? && Ready(op, io)
      modifies this`inputState, this`inputBlockSize, this`preReads
      ensures op' == op.(state := HandleInput) && Prepared(op', io') && io' == io.Cleared()
      ensures !io.ioCancelled && inputState.InBlock? ==> inputBlockSize > 0
    {
      op', io' := op.(state := HandleInput), io.Cleared();
      if !io.ioCancelled && io.res > 0 {
        TracksGeneration(connection.net.history, connection.net.front, |connection.net.rest|, op.Issued(), request,
                         start, seekGeneration);
        HoldsQueue(connection.file, connection.net.head, connection.net.rest, connection.net.front,
                   inputBlockSize, inputBlockGen, preReads, seekGeneration, cursor, op.buffer);
        assert io.res <= inputBlockSize;
        inputBlockSize := inputBlockSize - io.res;
        if inputBlockSize == 0 {
          inputState := InReplyHeader;
        }
        preReads := preReads + [PreRead(op.buffer, inputBlockGen)];
      }
    }

    // ---------- Reply headers ----------

    /** Shrinks the buffer to what was received; asks for more if the header is not whole. */
    method OnHeaderBytes(op: Operation, io: IoData) returns (whole: bool, io': IoData)
      requires op.state.HandleHeader? && Ready(op, io) && !io.ioCancelled
      modifies this`inputBuffer
      ensures whole ==> AtReply(op)
      ensures !whole ==>
        && Asks(OpRead, op, io') && io'.size == MissingBytes(connection.net.head) > 0 && !io'.allowCancel
      ensures io'.cancelled == io.cancelled
    {
      if io.res > 0 {
        inputBuffer := inputBuffer[..|inputBuffer| - (io.size - io.res)];
      }
      assert inputBuffer == connection.net.head;
      HoldsHeader(connection.file, connection.net.head, connection.net.head, connection.net.rest, connection.net.front,
                  inputBlockSize, inputBlockGen, preReads, seekGeneration, cursor);
      var len := MissingBytes(inputBuffer);
      if len > 0 {
        ghost var current := inputBuffer;
        var undefined := Undefined(len);
        inputBuffer := inputBuffer + undefined;
        assert inputBuffer[..|current|] == current;
        io' := io.(size := len, allowCancel := inputBuffer == [] && !op.sentCancel);
        return false, io';
      }
      WholeHeader(connection.file, connection.net);
      return true, io;
    }

    /** decode_reply: the four words of the header, and what follows it. */
    method DecodeReply(op: Operation) returns (kind: UInt32, nr: UInt32, arg1: UInt32, arg2: UInt32, body: seq<Byte>)
      requires AtReply(op)
      ensures var m := connection.net.queue[0];
        && kind == m.Kind() && (!m.Data? ==> (nr == op.seqNr <==> m.id == request.id))
        && (m.Data? ==> arg1 == |m.body| && arg2 == m.gen)
        && (m.SeekPos? ==> arg2 * TWO_32 + arg1 == m.pos)
        && (m.Error? || m.Info? ==> body == m.body) && (m.Error? ==> arg1 == m.code)
    {
      HoldsHeader(connection.file, connection.net.head, connection.net.head, connection.net.rest, connection.net.front,
                  inputBlockSize, inputBlockGen, preReads, seekGeneration, cursor);
      TracksReply(connection.file, connection.net, op.Issued(), request, start, seekGeneration);
      HeaderOf(connection.file, connection.net);
      WordsMean(connection.net.queue[0]);
      return Word(inputBuffer, 0), Word(inputBuffer, 1), Word(inputBuffer, 2), Word(inputBuffer, 3),
          inputBuffer[REPLY_SIZE..];
    }

    /** A whole header of a data block: its payload follows. */
    method OnData(op: Operation, io: IoData, size: nat, gen: UInt32) returns (op': Operation, io': IoData)
      requires AtReply(op) && connection.net.queue[0].Data?
      requires size == |connection.net.queue[0].body| && gen == connection.net.queue[0].gen
      modifies this`inputBuffer, this`inputState, this`inputBlockSize, this`inputBlockGen, connection
      ensures op' == op.(state := HandleInputBlock) && Prepared(op', io') && io' == io.Cleared()
      ensures connection.net == old(connection.net).Decode()
    {
      DataDecoded(connection.file, connection.net, inputBlockSize, inputBlockGen, preReads, seekGeneration, cursor,
                  op.Issued(), request, start);
      inputBuffer := [];
      inputState, inputBlockSize, inputBlockGen := InBlock, size, gen;
      ListensDecode(connection.file, begun, connection.net, op.kind, request.id);
      connection.Decode();
      return op.(state := HandleInputBlock), io.Cleared();
    }

    /** A reply that does not concern this operation. */
    method PassOver(op: Operation, io: IoData) returns (io': IoData)
      requires AtReply(op) && !connection.net.queue[0].Data?
      requires !Ends(op.kind, request.id, connection.net.queue[0])
      modifies this`inputBuffer, connection
      ensures connection.net == old(connection.net).Decode()
      ensures Prepared(op, io') && io' == io.Cleared()
    {
      HoldsHeader(connection.file, connection.net.head, connection.net.head, connection.net.rest, connection.net.front,
                  inputBlockSize, inputBlockGen, preReads, seekGeneration, cursor);
      TracksReply(connection.file, connection.net, op.Issued(), request, start, seekGeneration);
      TracksDecode(connection.file, connection.net, op.Issued(), request, start, seekGeneration);
      HoldsOther(connection.file, connection.net, inputBlockSize, inputBlockGen, preReads, seekGeneration, cursor);
      ListensDecode(connection.file, begun, connection.net, op.kind, request.id);
      inputBuffer := [];
      connection.Decode();
      return io.Cleared();
    }

    /** The answer to a read, query or close. */
    method Conclude(op: Operation, outcome: Outcome) returns (op': Operation)
      requires AtReply(op) && !connection.net.queue[0].Data? && !op.kind.SeekOp?
      requires outcome.Refused? || (outcome.Information? && op.kind.QueryOp?)
        || (outcome.ClosedWell? && op.kind.CloseOp?)
      requires Ends(op.kind, request.id, connection.net.queue[0]) && Tells(outcome, connection.net.queue[0])
      modifies this`inputBuffer, connection
      ensures connection.net == old(connection.net).Decode()
      ensures op' == op.(outcome := outcome) && Over(op')
    {
      HoldsHeader(connection.file, connection.net.head, connection.net.head, connection.net.rest, connection.net.front,
                  inputBlockSize, inputBlockGen, preReads, seekGeneration, cursor);
      TracksReply(connection.file, connection.net, op.Issued(), request, start, seekGeneration);
      TracksDecode(connection.file, connection.net, op.Issued(), request, start, seekGeneration);
      HoldsOther(connection.file, connection.net, inputBlockSize, inputBlockGen, preReads, seekGeneration, cursor);
      ListensEnd(connection.file, begun, connection.net, op.kind, request.id);
      inputBuffer := [];
      connection.Decode();
      TracksGeneration(connection.net.history, connection.net.front, |connection.net.rest|, op.Issued(), request, start,
                       seekGeneration);
      return op.(outcome := outcome);
    }

    /** The answer to a seek: the stream continues at the daemon's position, unless the channel was
        blocked. */
    method ConcludeSeek(op: Operation, outcome: Outcome) returns (op': Operation)
      requires AtReply(op) && op.kind.SeekOp? && connection.net.queue[0].id == request.id
      requires var m := connection.net.queue[0];
               (m.Error? && outcome == Refused(m.code, m.body)) || (m.SeekPos? && outcome == At(m.pos))
      modifies this`inputBuffer, this`cursor, connection
      ensures connection.net == old(connection.net).Decode()
      ensures op' == op.(outcome := outcome) && Over(op')
    {
      op' := op.(outcome := outcome);
      ghost var n := connection.net;
      ghost var next := SeekConcluded(connection.file, n, op.Issued(), request, start, inputBlockSize, inputBlockGen,
                                      preReads, seekGeneration, cursor);
      ListensEnd(connection.file, begun, n, op.kind, request.id);
      inputBuffer := [];
      connection.Decode();
      cursor := next;
      SeekIsOver(op', n);
    }

    lemma SeekIsOver(op: Operation, n: Net)
      requires n.queue != [] && connection.net == n.Decode() && Base() && RequestOf(op) && op.kind.SeekOp?
      requires inputBuffer == [] && outputBuffer == [] && connection.net.unsent == [] && Stored(0)
      requires SeeksOnly(connection.net.history, connection.net.front.answered, 0)
      requires Settled(begun, connection.net, op.kind, request.id) && n.log[n.Decoded()] == n.queue[0]
      requires !n.queue[0].SeekPos? ==>
        connection.net.front.pos == begun.front.pos + Payload(Heard(begun, connection.net))
      requires if n.queue[0].OfSeek() then Synced() && cursor == connection.net.front.pos
               else seekGeneration == NextGeneration(connection.net.front.gen)
      requires var m := n.queue[0];
        || (m.Error? && op.outcome == Refused(m.code, m.body))
        || (m.SeekPos? && op.outcome == At(m.pos) && m.pos == SeekTarget(connection.file, request))
      ensures Over(op)
    {
      assert connection.net.Decoded() == n.Decoded() + 1;
    }

    /** The answer to the operation. */
    method ConcludeAny(op: Operation, outcome: Outcome) returns (op': Operation)
      requires AtReply(op) && !connection.net.queue[0].Data?
      requires Ends(op.kind, request.id, connection.net.queue[0]) && Tells(outcome, connection.net.queue[0])
      modifies this`inputBuffer, this`cursor, connection
      ensures connection.net == old(connection.net).Decode()
      ensures op' == op.(outcome := outcome) && Over(op')
    {
      if op.kind == SeekOp {
        op' := ConcludeSeek(op, outcome);
      } else {
        op' := Conclude(op, outcome);
      }
    }

    /** A whole reply: the answer to this operation's request, a data block, or one to pass over. */
    method OnReply(op: Operation, io: IoData) returns (done: bool, op': Operation, io': IoData)
      requires AtReply(op)
      modifies this`inputBuffer, this`inputState, this`inputBlockSize, this`inputBlockGen, this`cursor, connection
      ensures connection.net == old(connection.net).Decode()
      ensures SameOperation(op, op') && op'.sentCancel == op.sentCancel
      ensures done ==> Over(op') && !op'.outcome.Cancelled?
      ensures done <==>
        Ends(op.kind, request.id, old(connection.net).queue[0])
            && !(op.kind.ReadOp? && old(connection.net).queue[0].Data?)
      ensures !done ==>
        (op'.state.HandleHeader? || op'.state.HandleInputBlock?) && Prepared(op', io') && io' == io.Cleared()
      ensures io'.cancelled == io.cancelled
    {
      var kind, nr, arg1, arg2, body := DecodeReply(op);
      var verdict := Judged(op.kind, kind, nr == op.seqNr, arg1, arg2, body);
      JudgedWell(op.kind, request.id, connection.net.queue[0], nr == op.seqNr, arg1, arg2, body);
      op', io', done := op, io, verdict.Ending?;
      match verdict {
        case Ending(outcome) => op' := ConcludeAny(op, outcome);
        case Block => op', io' := OnData(op, io, arg1, arg2);
        case Ignored => io' := PassOver(op, io);
      }
    }

    // ---------- The machine ----------

    /** The first step of an operation. */
    method Begin(op: Operation, io: IoData) returns (r: StateOp, op': Operation, io': IoData)
      requires op.state.Init? && Prepared(op, io)
      modifies this, connection
      ensures Handed(r, op', io')
      ensures SameOperation(Resolved(op, currentOffset).(seqNr := op'.seqNr), op')
        && currentOffset == old(currentOffset)
        && begun == old(begun)
      ensures !op'.sentCancel && (r.OpRead? ==> op'.state.ReadBlock?)
      ensures !r.OpWrite? ==> connection.net == old(connection.net)
      ensures r.OpWrite? ==>
        var q := RequestFor(op', |old(connection.net.history)| + 1);
        connection.net.history == old(connection.net.history) + [q] && op'.seqNr == q.id % TWO_32
      ensures op.kind.CloseOp? || start == old(start)
      ensures io'.cancelled == io.cancelled && (r.OpDone? ==> op'.outcome.Bytes?) && !io'.ioCancelled
      ensures op.kind.ReadOp? ==>
        r == if old(Pre()) != [] then OpDone
             else if old(inputState).InBlock? && old(inputBlockGen) == old(seekGeneration) then OpRead else OpWrite
      ensures !op.kind.ReadOp? ==> r.OpWrite?
    {
      OpenPrepared(op, io);
      match op.kind
      case ReadOp =>
        r, op', io' := InitRead(op, io);
      case SeekOp =>
        op', io' := InitSeek(op, io);
        r := OpWrite;
      case QueryOp =>
        op', io' := BeginRequest(op, io, QUERY_INFO, 0, 0, op.attributes);
        r := OpWrite;
      case CloseOp =>
        op', io' := InitClose(op, io);
        r := OpWrite;
    }

    /** One pass of the switch, in the states that deal with the request. */
    method StepRequest(op: Operation, io: IoData) returns (again: bool, r: StateOp, op': Operation, io': IoData)
      requires (op.state.WroteRequest? || op.state.HandleInput?) && Prepared(op, io)
      modifies this`seekGeneration, this`preReads, this`outputBuffer, this`seqNr, connection
      ensures again ==> Prepared(op', io') && Rank(op'.state) < Rank(op.state) && !io'.ioCancelled
      ensures again ==> op'.sentCancel == op.sentCancel && connection.net == old(connection.net)
      ensures !again ==> Handed(r, op', io')
      ensures !again ==> r.OpDone? || r.OpWrite?
      ensures !again && r.OpDone? ==> io.ioCancelled && op'.outcome.Cancelled? && op'.sentCancel == op.sentCancel
      ensures again || !r.OpDone? ==>
        MayCancel(op.seqNr, op.sentCancel, op'.sentCancel, old(connection.net.history), connection.net.history)
      ensures SameOperation(op, op') && io'.cancelled == io.cancelled
      ensures op.sentCancel ==> op'.sentCancel
      ensures op'.sentCancel ==> op.sentCancel || io.cancelled
      ensures op.state.HandleInput? && io.cancelled && !op.sentCancel ==> !again && op'.sentCancel
      ensures io.ioCancelled && op.state.WroteRequest? ==> !again && r.OpDone?
      ensures op'.sentCancel == op.sentCancel && !r.OpDone? ==> connection.net == old(connection.net)
    {
      OpenPrepared(op, io);
      op', io' := op, io;
      if op.state == WroteRequest {
        if io.ioCancelled {
          op' := CancelEarly(op, io);
          return false, OpDone, op', io;
        }
        again, op', io' := OnWrote(op, io);
      } else {
        again, op', io' := OnHandleInput(op, io);
      }
      r := OpWrite;
    }

    /** In the states that deal with a data block. */
    method StepBlock(op: Operation, io: IoData) returns (again: bool, r: StateOp, op': Operation, io': IoData)
      requires (op.state.HandleInputBlock? || op.state.SkipBlock? || op.state.ReadBlock?) && Prepared(op, io)
      modifies this`inputState, this`inputBlockSize, this`preReads, this`cursor
      ensures again ==> Prepared(op', io') && op'.state.HandleInput? && !io'.ioCancelled
      ensures again && op.state.HandleInputBlock? ==> old(inputState).InBlock? && inputState.InReplyHeader?
      ensures again && inputState.InBlock? ==> old(inputState).InBlock?
      ensures !again ==> Handed(r, op', io')
      ensures !again ==> !r.OpWrite?
      ensures !again && r.OpDone? && op'.outcome.Cancelled? ==> io.ioCancelled
      ensures !again && !r.OpDone? ==> op.state.HandleInputBlock? && old(inputState).InBlock?
      ensures !again && !r.OpDone? ==> op.kind.ReadOp? || io'.size == old(inputBlockSize)
      ensures SameOperation(op, op') && io'.cancelled == io.cancelled && op'.sentCancel == op.sentCancel
      ensures op.state.SkipBlock? ==> again
      ensures op.state.ReadBlock? ==> again || r.OpDone?
      ensures again ==> !op.kind.ReadOp? && connection.net.head == []
      ensures !op.state.HandleInputBlock? && again && !io.ioCancelled ==> inputState.InBlock? ==> inputBlockSize > 0
    {
      OpenPrepared(op, io);
      OpenHolds(connection.file, connection.net.head, connection.net.rest, connection.net.front,
                inputState, inputBlockSize, inputBlockGen, preReads, seekGeneration, cursor,
                if op.state.HandleInputBlock? then 0 else io.res);
      op', io' := op, io;
      if op.state == HandleInputBlock {
        again, r, op', io' := OnInputBlock(op, io);
      } else if op.state == SkipBlock {
        op', io' := OnSkipBlock(op, io);
        again, r := true, OpDone;
      } else if op.kind == ReadOp {
        op' := OnReadBlock(op, io);
        again, r := false, OpDone;
      } else {
        op', io' := OnQueryBlock(op, io);
        again, r := true, OpDone;
      }
    }

    /** In the state that deals with a reply header. */
    method StepHeader(op: Operation, io: IoData) returns (again: bool, r: StateOp, op': Operation, io': IoData)
      requires op.state.HandleHeader? && Prepared(op, io)
      modifies this`inputBuffer, this`inputState, this`inputBlockSize, this`inputBlockGen, this`cursor, connection
      ensures again ==> Prepared(op', io') && Rank(op'.state) <= 2 && !io'.ioCancelled
      ensures again && !io.ioCancelled ==>
        |connection.net.queue| < |old(connection.net).queue| && old(connection.net).head != []
      ensures io.ioCancelled ==>
        again && op'.state.HandleInput? && connection.net == old(connection.net) && inputState == old(inputState)
      ensures !again ==> Handed(r, op', io')
      ensures !again && r.OpDone? ==> !op'.outcome.Cancelled?
      ensures !again && !r.OpDone? ==> r.OpRead? && io'.size > 0
      ensures SameOperation(op, op') && io'.cancelled == io.cancelled && op'.sentCancel == op.sentCancel
      ensures SameTransit(old(connection.net), connection.net)
    {
      OpenPrepared(op, io);
      op', io' := op, io;
      if io.ioCancelled {
        assert inputBuffer == connection.net.head;
        return true, OpDone, op.(state := HandleInput), io.Cleared();
      }
      var whole, done;
      whole, io' := OnHeaderBytes(op, io);
      if !whole {
        return false, OpRead, op, io';
      }
      done, op', io' := OnReply(op, io');
      return !done, OpDone, op', io';
    }

    /** The iterator: runs the machine until it asks for I/O or is done. */
    method Iterate(op: Operation, io: IoData) returns (r: StateOp, op': Operation, io': IoData)
      requires !op.state.Init? && Prepared(op, io)
      requires io.ioCancelled ==> op.state.WroteRequest? || op.state.HandleHeader? || InBlockState(op.state)
      modifies this, connection
      ensures Handed(r, op', io')
      ensures SameOperation(op, op') && currentOffset == old(currentOffset)
      ensures start == old(start) && begun == old(begun)
      ensures r.OpDone? && op'.outcome.Cancelled? ==> io.ioCancelled
      ensures r.OpDone? && op'.outcome.Cancelled? ==> op'.sentCancel == op.sentCancel
      ensures !(r.OpDone? && op'.outcome.Cancelled?) ==>
        MayCancel(op.seqNr, op.sentCancel, op'.sentCancel, old(connection.net.history), connection.net.history)
      ensures op.kind.ReadOp? && op.state.ReadBlock? ==> r.OpDone? && op'.sentCancel == op.sentCancel
      ensures op'.sentCancel ==> op.sentCancel || io.cancelled
      // for the driver's termination
      ensures op.sentCancel ==> op'.sentCancel
      ensures io.ioCancelled && io.cancelled && !op.sentCancel ==> r.OpDone? || op'.sentCancel
      ensures !r.OpDone? && op'.sentCancel == op.sentCancel ==> SameTransit(old(connection.net), connection.net)
      ensures InBlockState(op.state) && !io.ioCancelled ==> r.OpDone? || r.OpWrite? || io'.size > 0
    {
      op', io' := op, io;
      while true
        invariant !op'.state.Init? && Prepared(op', io') && SameOperation(op, op') && io'.cancelled == io.cancelled
        invariant currentOffset == old(currentOffset) && start == old(start) && begun == old(begun)
        invariant op'.sentCancel == op.sentCancel && SameTransit(old(connection.net), connection.net)
        invariant io'.ioCancelled ==> io.ioCancelled
        invariant InBlockState(op.state) && !InBlockState(op'.state) ==>
          !op.kind.ReadOp? && !io'.ioCancelled && connection.net.head == []
              && (inputState.InBlock? && !io.ioCancelled ==> inputBlockSize > 0)
        invariant Rank(op'.state) > 2 ==> op' == op && io' == io
        invariant op.kind.ReadOp? && op.state.ReadBlock? ==> op' == op
        invariant io.ioCancelled && io.cancelled && !op.sentCancel ==>
          (op' == op && io' == io) || op'.state.HandleInput?
        decreases |connection.net.queue|, inputState.InBlock?, io'.ioCancelled, Rank(op'.state)
      {
        var again: bool;
        Uncancelled(op.seqNr, op.sentCancel, connection.net.history);
        if op'.state == WroteRequest || op'.state == HandleInput {
          again, r, op', io' := StepRequest(op', io');
        } else if op'.state == HandleHeader {
          again, r, op', io' := StepHeader(op', io');
        } else {
          again, r, op', io' := StepBlock(op', io');
        }
        if !again {
          return;
        }
      }
    }

    // ---------- The driver ----------

    /** Writes what the machine has put in the output buffer. */
    method DoWrite(op: Operation, io: IoData) returns (ok: bool, io': IoData)
      requires Handed(OpWrite, op, io)
      modifies connection
      ensures ok ==> Prepared(op, io') && io' == io.(res := io'.res, ioCancelled := false)
      ensures ok ==> |connection.net.unsent| < |old(connection.net).unsent|
      ensures !ok ==> Sound(connection.file, connection.net) && Undecoded(old(connection.net), connection.net)
      ensures connection.net.history == old(connection.net.history)
      ensures !ok ==> connection.net.broken || !connection.net.WithinCapacity()
      ensures op.state.WroteRequest?
    {
      OpenHanded(OpWrite, op, io);
      ghost var before := connection.net;
      var n := connection.Send();
      if n > 0 {
        ListensOn(begun, before, connection.net, op.kind, request.id, false);
      }
      io' := io.(res := n, ioCancelled := false);
      return n > 0, io';
    }

    /** Reads into the tail of the input buffer. */
    method DoReadHeader(op: Operation, io: IoData) returns (ok: bool, io': IoData)
      requires Handed(OpRead, op, io) && op.state.HandleHeader?
      modifies this`inputBuffer, connection
      ensures ok ==> Prepared(op, io') && io' == io.(res := io'.res, ioCancelled := false)
      ensures ok ==> Consumed(old(connection.net), connection.net)
      ensures !ok ==> Sound(connection.file, connection.net) && Undecoded(old(connection.net), connection.net)
      ensures connection.net.history == old(connection.net.history)
      ensures io.size > 0 && (!ok ==> connection.net.broken || Exhausted(op))
    {
      OpenHanded(OpRead, op, io);
      ghost var n := connection.net;
      HoldsHeader(connection.file, connection.net.head, connection.net.head, connection.net.rest, connection.net.front,
                  inputBlockSize, inputBlockGen, preReads, seekGeneration, cursor);
      MayReadHeader(connection.file, connection.net);
      var bytes;
      ok, bytes := connection.Receive(io.size);
      if ok {
        var at := |inputBuffer| - io.size;
        inputBuffer := inputBuffer[..at] + bytes + inputBuffer[at + |bytes|..];
        io' := io.(res := |bytes|, ioCancelled := false);
        HoldsHeader(connection.file, n.head, connection.net.head, n.rest, n.front,
                    inputBlockSize, inputBlockGen, preReads, seekGeneration, cursor);
        ListensOn(begun, n, connection.net, op.kind, request.id, false);
      } else {
        io' := io;
        if !connection.net.broken {
          ListensOn(begun, n, connection.net, op.kind, request.id, false);
          NoneQueued(connection.file, connection.net);
          NothingEnds(connection.file, begun, connection.net, op.kind, request.id);
        }
      }
    }

    /** Reads block bytes into the caller's buffer, or a query's own. */
    method DoReadBlock(op: Operation, io: IoData) returns (ok: bool, op': Operation, io': IoData)
      requires Handed(OpRead, op, io) && !op.state.HandleHeader?
      modifies connection
      ensures ok ==> Prepared(op', io') && io' == io.(res := io'.res, ioCancelled := false)
      ensures op' == op.(buffer := op'.buffer) && op.state.ReadBlock?
      ensures ok ==>
        if io.size == 0 then connection.net == old(connection.net) else Consumed(old(connection.net), connection.net)
      ensures !ok ==> Sound(connection.file, connection.net) && Undecoded(old(connection.net), connection.net)
      ensures connection.net.history == old(connection.net.history)
      ensures !ok ==> connection.net.broken
    {
      OpenHanded(OpRead, op, io);
      ghost var n := connection.net;
      HoldsBlock(connection.file, n.head, n.rest, n.front, inputBlockSize, inputBlockGen, preReads, seekGeneration,
                 cursor, 0);
      RestOfBlock(connection.file, n);
      var bytes;
      ok, bytes := connection.Receive(io.size);
      op', io' := op.(buffer := bytes), io.(res := |bytes|, ioCancelled := false);
      if ok {
        TookBlock(op, op', io', n, bytes);
      }
    }

    /** Block bytes have been received. */
    lemma TookBlock(op: Operation, op': Operation, io: IoData, n: Net, bytes: seq<Byte>)
      requires op.state.ReadBlock? && inputState.InBlock? && inputBuffer == n.head && cursor == start
      requires op.kind.ReadOp? || op.kind.QueryOp?
      requires op' == op.(buffer := bytes) && io.res == |bytes| <= io.size <= inputBlockSize && !io.ioCancelled
      requires (io.size > 0 ==> bytes != []) && Received(n, connection.net, bytes)
      requires Sound(connection.file, n) && Sound(connection.file, connection.net)
      requires Holds(connection.file, n.head, n.rest, n.front, inputState, inputBlockSize, inputBlockGen, preReads,
                     seekGeneration, cursor, 0)
      requires seqNr == (|n.history| + 1) % TWO_32 && outputBuffer == [] && n.unsent == []
      requires op.kind.ReadOp? ==>
        && n.front.gen == seekGeneration && SeeksOnly(n.history, n.front.answered, 0) && Served(begun, n, request.id)
        && preReads == [] && io.size == Min(op.bufferSize, inputBlockSize)
      requires op.kind.QueryOp? ==>
        && Tracks(n.history, n.front, |n.rest|, op.Issued(), request, start, seekGeneration) && n.WithinCapacity()
        && Listens(begun, n, op.kind, request.id, false) && RequestOf(op) && io.size == inputBlockSize > 0
      ensures Prepared(op', io)
    {
      HoldsBlock(connection.file, n.head, n.rest, n.front, inputBlockSize, inputBlockGen, preReads, seekGeneration,
                 cursor, 0);
      HoldsBlock(connection.file, n.head, n.rest, n.front, inputBlockSize, inputBlockGen, preReads, seekGeneration,
                 cursor, |bytes|);
      RestOfBlock(connection.file, n);
      BlockBytes(connection.file, n, connection.net, bytes);
      if op.kind.QueryOp? {
        TracksLess(n.history, n.front, |n.rest|, |connection.net.rest|, op.Issued(), request, start, seekGeneration);
        ListensOn(begun, n, connection.net, op.kind, request.id, false);
      } else {
        ServedOn(begun, n, connection.net, request.id);
      }
    }

    method DoSkip(op: Operation, io: IoData) returns (ok: bool, io': IoData)
      requires Handed(OpSkip, op, io)
      modifies connection
      ensures ok ==> Prepared(op, io') && io' == io.(res := io'.res, ioCancelled := false)
      ensures ok ==>
        if io.size == 0 then connection.net == old(connection.net) else Consumed(old(connection.net), connection.net)
      ensures !ok ==> Sound(connection.file, connection.net) && Undecoded(old(connection.net), connection.net)
      ensures connection.net.history == old(connection.net.history)
      ensures (!ok ==> connection.net.broken) && op.state.SkipBlock?
    {
      OpenHanded(OpSkip, op, io);
      ghost var n := connection.net;
      HoldsBlock(connection.file, n.head, n.rest, n.front, inputBlockSize, inputBlockGen, preReads, seekGeneration,
                 cursor, 0);
      var bytes;
      ok, bytes := connection.Receive(io.size);
      io' := io.(res := |bytes|, ioCancelled := false);
      if ok {
        HoldsBlock(connection.file, n.head, n.rest, n.front, inputBlockSize, inputBlockGen, preReads, seekGeneration,
                   cursor, |bytes|);
        TracksLess(n.history, n.front, |n.rest|, |connection.net.rest|, op.Issued(), request, start, seekGeneration);
        ListensOn(begun, n, connection.net, op.kind, request.id, false);
        assert connection.net.rest == n.rest[|bytes|..];
      }
    }

    /** The call was cancelled: no byte was moved. */
    method DoCancel(r: StateOp, op: Operation, io: IoData) returns (op': Operation, io': IoData)
      requires Handed(r, op, io) && !r.OpDone? && io.allowCancel
      ensures Prepared(op', io') && io' == io.(size := io'.size, res := 0, ioCancelled := true)
      ensures op' == op.(buffer := []) && !op.sentCancel
      ensures op.state.WroteRequest? || InBlockState(op.state)
    {
      OpenHanded(r, op, io);
      RestOfBlock(connection.file, connection.net);
      return op.(buffer := []), io.(res := 0, ioCancelled := true);
    }

    /** The cancellable is sampled again. */
    lemma Resample(op: Operation, io: IoData, cancelled: bool)
      requires Prepared(op, io)
      ensures Prepared(op, io.(cancelled := cancelled))
    {
      OpenPrepared(op, io);
      assert Ready(op, io.(cancelled := cancelled));
    }

    /** One I/O call on behalf of the machine; it may be cancelled where the machine allows it. */
    method DoIo(r: StateOp, op: Operation, io: IoData, interrupt: bool) returns (ok: bool, op': Operation, io': IoData)
      requires Handed(r, op, io) && !r.OpDone?
      modifies this`inputBuffer, connection
      ensures ok ==> Prepared(op', io') && !op'.state.Init?
      ensures SameOperation(op, op') && op'.sentCancel == op.sentCancel && op'.state == op.state
      ensures ok && io'.ioCancelled ==>
        interrupt && !op.sentCancel && (op'.state.WroteRequest? || InBlockState(op'.state))
      ensures ok && !io'.ioCancelled && r.OpWrite? ==> |connection.net.unsent| < |old(connection.net).unsent|
      ensures ok && !io'.ioCancelled && !r.OpWrite? && io.size > 0 ==> Consumed(old(connection.net), connection.net)
      ensures ok && !io'.ioCancelled && !r.OpWrite? && io.size == 0 ==>
        InBlockState(op'.state) && connection.net == old(connection.net)
      ensures !ok ==> Sound(connection.file, connection.net) && Undecoded(old(connection.net), connection.net)
      ensures connection.net.history == old(connection.net.history)
      ensures !ok ==> connection.net.broken || !connection.net.WithinCapacity() || Exhausted(op)
    {
      op', io' := op, io;
      if interrupt && io.allowCancel {
        op', io' := DoCancel(r, op, io);
        ok := true;
      } else if r == OpWrite {
        ok, io' := DoWrite(op, io);
      } else if r == OpSkip {
        ok, io' := DoSkip(op, io);
      } else if op.state == HandleHeader {
        ok, io' := DoReadHeader(op, io);
      } else {
        ok, op', io' := DoReadBlock(op, io);
      }
    }

    /** run_sync_state_machine: the answer is false if the connection failed. A read was served
        from what was there or by the first data block met; any other answered operation was
        ended by the last reply decoded, the first that could, and the queue is what follows it.
        If the daemon hung up instead, none of its replies would have ended the operation. */
    method RunSync(op0: Operation, cancellable: bool) returns (ok: bool, op: Operation)
      requires Valid() && op0.state.Init? && !op0.sentCancel && !op0.sentSeek && |op0.attributes| < TWO_32
      modifies this, connection
      ensures ok ==> Over(op)
      ensures Sound(connection.file, connection.net)
      ensures !ok ==> connection.net.broken || !connection.net.WithinCapacity() || Exhausted(op)
      ensures ok && op.outcome.Cancelled? ==> cancellable
      ensures Later(begun, connection.net)
      ensures ok && op.outcome.Bytes? ==> Served(begun, connection.net, request.id)
      ensures ok && !op.outcome.Bytes? && !op.outcome.Cancelled? ==> Settled(begun, connection.net, op.kind, request.id)
      ensures connection.net.Logged()
      ensures currentOffset == old(currentOffset) && begun == old(connection.net)
      ensures op0.kind.CloseOp? || start == old(cursor)
      ensures SameOperation(Resolved(op0, currentOffset).(seqNr := op.seqNr), op) && (op.sentCancel ==> cancellable)
      ensures !(ok && op.outcome.Cancelled?) ==>
        Recorded(begun.history, connection.net.history, RequestFor(op, |begun.history| + 1),
                 op0.kind.ReadOp? && old(Supplied()), op.sentCancel)
    {
      ghost var supplied := op0.kind.ReadOp? && Supplied();
      begun, start := connection.net, cursor;
      var cancelled := *;
      cancelled := cancelled && cancellable;
      var r, io;
      r, op, io := Start(op0, cancelled);
      ok, op := Drive(r, op, io, cancellable, cancelled, RequestFor(op, |begun.history| + 1), supplied);
      if ok {
        Closing(op);
      }
    }

    lemma IsLogged()
      requires Sound(connection.file, connection.net)
      ensures connection.net.Logged()
    {
      Unsealed(connection.file, connection.net);
    }

    /** The first step, with the account of the requests begun. */
    method Start(op0: Operation, cancelled: bool) returns (r: StateOp, op: Operation, io: IoData)
      requires Valid() && op0.state.Init? && !op0.sentCancel && !op0.sentSeek && |op0.attributes| < TWO_32
      requires begun == connection.net && start == cursor
      modifies this, connection
      ensures Handed(r, op, io) && (r.OpDone? ==> op.outcome.Bytes?)
      ensures SameOperation(Resolved(op0, currentOffset).(seqNr := op.seqNr), op) && !op.sentCancel
      ensures currentOffset == old(currentOffset) && begun == old(begun) && (op.kind.CloseOp? || start == old(start))
      ensures Sound(connection.file, begun)
      ensures Recorded(begun.history, connection.net.history, RequestFor(op, |begun.history| + 1),
                       op.kind.ReadOp? && old(Supplied()), false)
      ensures if op.kind.ReadOp? && old(Supplied()) then r.OpDone? || op.state.ReadBlock?
              else op.seqNr == (|begun.history| + 1) % TWO_32
    {
      io := IoData(cancelled, 0, 0, false, false);
      Fresh(op0, io);
      r, op, io := Begin(op0, io);
      RecordBegins(begun.history, connection.net.history, RequestFor(op, |begun.history| + 1),
                   op.kind.ReadOp? && old(Supplied()));
    }

    lemma Fresh(op: Operation, io: IoData)
      requires Valid() && op.state.Init? && !op.sentCancel && !op.sentSeek && |op.attributes| < TWO_32
      requires begun == connection.net && start == cursor && !io.ioCancelled && io.res <= io.size
      ensures Prepared(op, io)
    {
    }

    /** The machine is driven until it is done or the connection fails. */
    method Drive(r0: StateOp, op0: Operation, io0: IoData, cancellable: bool, cancelled0: bool,
                 ghost q: Request, ghost supplied: bool) returns (ok: bool, op: Operation)
      requires Handed(r0, op0, io0) && Sound(connection.file, begun) && q == RequestFor(op0, |begun.history| + 1)
      requires (cancelled0 || op0.sentCancel ==> cancellable) && (r0.OpDone? ==> !op0.outcome.Cancelled?)
      requires Recorded(begun.history, connection.net.history, q, supplied, op0.sentCancel)
      requires if supplied then !op0.sentCancel && (r0.OpDone? || (op0.kind.ReadOp? && op0.state.ReadBlock?))
               else op0.seqNr == q.id % TWO_32
      modifies this, connection
      ensures SameOperation(op0, op) && currentOffset == old(currentOffset) && start == old(start)
        && begun == old(begun)
      ensures Sound(connection.file, connection.net) && Later(begun, connection.net) && connection.net.Logged()
      ensures if ok then Over(op)
              else
                && (connection.net.broken || !connection.net.WithinCapacity() || Exhausted(op))
      ensures (ok && op.outcome.Cancelled?) || op.sentCancel ==> cancellable
      ensures !(ok && op.outcome.Cancelled?) ==>
        Recorded(begun.history, connection.net.history, q, supplied, op.sentCancel)
    {
      var r, io, cancelled := r0, io0, cancelled0;
      op, ok := op0, true;
      while r != OpDone
        invariant Handed(r, op, io) && SameOperation(op0, op)
        invariant currentOffset == old(currentOffset) && begun == old(begun) && start == old(start)
        invariant cancelled || op.sentCancel || (r.OpDone? && op.outcome.Cancelled?) ==> cancellable
        invariant if supplied then !op.sentCancel && (r.OpDone? || (op.kind.ReadOp? && op.state.ReadBlock?))
                  else op.seqNr == q.id % TWO_32
        invariant !(r.OpDone? && op.outcome.Cancelled?) ==>
          Recorded(begun.history, connection.net.history, q, supplied, op.sentCancel)
        decreases !r.OpDone?, !op.sentCancel, |connection.net.unsent|, connection.net.budget, |connection.net.replies|,
                  !r.OpWrite? && io.size == 0
      {
        ghost var before, last := connection.net.history, op;
        ok, cancelled, r, op, io := Turn(r, op, io, cancellable, cancelled);
        if !(ok && r.OpDone? && op.outcome.Cancelled?) {
          RecordGoesOn(begun.history, before, connection.net.history, q, supplied, last.seqNr,
                       last.sentCancel, op.sentCancel);
        }
        if !ok {
          IsLogged();
          return;
        }
      }
      Closing(op);
      ComesLater(op);
      ok := true;
    }

    /** The I/O that the machine asked for, and the machine again. The caller may cancel at any
        time: the cancellable is looked at before the I/O and again before the machine goes on. */
    method Turn(r0: StateOp, op0: Operation, io0: IoData, cancellable: bool, cancelled0: bool)
      returns (ok: bool, cancelled: bool, r: StateOp, op: Operation, io: IoData)
      requires Handed(r0, op0, io0) && !r0.OpDone? && (cancelled0 ==> cancellable) && Sound(connection.file, begun)
      modifies this, connection
      ensures SameOperation(op0, op) && currentOffset == old(currentOffset) && start == old(start)
        && begun == old(begun)
      ensures cancelled ==> cancellable
      ensures !(ok && r.OpDone? && op.outcome.Cancelled?) ==>
        MayCancel(op0.seqNr, op0.sentCancel, op.sentCancel, old(connection.net.history), connection.net.history)
      ensures op.sentCancel && !op0.sentCancel ==> cancellable
      ensures op0.kind.ReadOp? && op0.state.ReadBlock? ==>
        op.sentCancel == op0.sentCancel && (ok ==> r.OpDone?) && (!ok ==> op.state.ReadBlock?)
      ensures ok ==> Handed(r, op, io) && (r.OpDone? && op.outcome.Cancelled? ==> cancellable)
      ensures ok && !r.OpDone? ==>
        || (!op0.sentCancel && op.sentCancel)
        || (op.sentCancel == op0.sentCancel
            && Nearer(old(connection.net), connection.net, !r0.OpWrite? && io0.size == 0, !r.OpWrite? && io.size == 0))
      ensures !ok ==> Sound(connection.file, connection.net) && Later(begun, connection.net)
      ensures !ok ==> connection.net.broken || !connection.net.WithinCapacity() || Exhausted(op)
    {
      var now: bool, later: bool := *, *;
      cancelled, r := cancelled0 || (cancellable && now), r0;
      AskedLater(r0, op0, io0);
      ghost var before := connection.net;
      ok, op, io := DoIo(r0, op0, io0, cancelled);
      if !ok {
        HeardOn(begun, before, connection.net);
        return;
      }
      cancelled := cancelled || (cancellable && later);
      Resample(op, io, cancelled);
      r, op, io := Iterate(op, io.(cancelled := cancelled));
    }

    lemma AskedLater(r: StateOp, op: Operation, io: IoData)
      requires Handed(r, op, io) && !r.OpDone? && Sound(connection.file, begun)
      ensures Later(begun, connection.net) && (forall n :: Undecoded(connection.net, n) ==> Later(connection.net, n))
    {
      OpenHanded(r, op, io);
      Unsealed(connection.file, begun);
      Unsealed(connection.file, connection.net);
      if op.state.WroteRequest? || Waiting(op) {
        OpenListens(begun, connection.net, op.kind, request.id, op.kind.ReadOp? && op.state.HandleInputBlock?);
      }
    }

    lemma Closing(op: Operation)
      requires Over(op) && Sound(connection.file, begun)
      ensures Sound(connection.file, connection.net) && connection.net.Logged()
      ensures op.outcome.Bytes? ==> Served(begun, connection.net, request.id)
      ensures !op.outcome.Bytes? && !op.outcome.Cancelled? ==> Settled(begun, connection.net, op.kind, request.id)
    {
      OpenOver(op);
      Unsealed(connection.file, connection.net);
    }

    lemma OpenOver(op: Operation)
      requires Over(op)
      ensures Finished(op)
    {
      assert Mark(op, 0);
    }

    lemma ComesLater(op: Operation)
      requires Over(op) && Sound(connection.file, begun) && Sound(connection.file, connection.net)
      ensures Later(begun, connection.net)
    {
      OpenOver(op);
      Unsealed(connection.file, begun);
      Unsealed(connection.file, connection.net);
    }

    /** What a finished operation other than a read leaves, with the last reply heard. */
    lemma EndsWith(op: Operation)
      requires Over(op) && !op.outcome.Bytes? && !op.outcome.Cancelled?
      ensures Heard(begun, connection.net) != []
      ensures var heard := Heard(begun, connection.net);
        && Tells(op.outcome, heard[|heard| - 1])
        && if op.kind.SeekOp? && !heard[|heard| - 1].OfSeek() then Stalled() else Valid()
    {
      OpenOver(op);
      LastHeard(begun, connection.net, op.kind, request.id);
    }

    /** But for a new position, the reply stream moves by the data heard. */
    lemma MovedByData(op: Operation)
      requires Over(op) && !op.outcome.At? && !op.kind.CloseOp? && Sound(connection.file, begun)
      ensures connection.net.front.pos == begun.front.pos + Payload(Heard(begun, connection.net))
    {
      OpenOver(op);
      NothingHeard(connection.file, begun);
    }

    /** Whatever the client holds serves a read. */
    lemma HeldSupplies()
      requires Valid()
      ensures Held() > 0 ==> Supplied()
    {
      OpenHolds(connection.file, connection.net.head, connection.net.rest, connection.net.front,
                inputState, inputBlockSize, inputBlockGen, preReads, seekGeneration, cursor, 0);
    }

    /** What the client holds beyond the next byte. */
    lemma HeldIs()
      requires Valid()
      ensures connection.net.front.pos == cursor + Held()
    {
      FrontPosition(connection.file, connection.net.head, connection.net.rest, connection.net.front,
                    inputState, inputBlockSize, inputBlockGen, preReads, seekGeneration, cursor);
    }

    lemma SeekEnds(op: Operation)
      requires Over(op) && op.kind.SeekOp? && (op.outcome.At? || op.outcome.Refused?)
      ensures Synced() ==> cursor == connection.net.front.pos
      ensures op.outcome.At? ==> Synced() && cursor == op.outcome.pos
      ensures op.outcome.At? && IsInt64(op.offset) ==>
        op.outcome.pos == op.offset + if op.seekType.SeekEnd? then |connection.file| else 0
    {
      OpenOver(op);
    }

    lemma Stopped(op: Operation)
      requires Over(op) && op.outcome.Cancelled?
      ensures connection.net == begun && (op.kind.CloseOp? || cursor == start)
      ensures !op.kind.QueryOp? ==> Valid()
      ensures op.kind.QueryOp? ==> |outputBuffer| == |op.attributes| && (Valid() <==> op.attributes == [])
    {
      OpenOver(op);
    }

    lemma PossibleOutcomes(op: Operation)
      requires Over(op)
      ensures match op.kind
        case ReadOp => op.outcome.Bytes? || op.outcome.Refused? || op.outcome.Cancelled?
        case SeekOp => op.outcome.At? || op.outcome.Refused? || op.outcome.Cancelled?
        case QueryOp => op.outcome.Information? || op.outcome.Refused? || op.outcome.Cancelled?
        case CloseOp => op.outcome.ClosedWell? || op.outcome.Refused? || op.outcome.Cancelled?
    {
      OpenOver(op);
    }

    lemma ReadEnds(op: Operation)
      requires Over(op) && op.kind.ReadOp?
      ensures op.outcome.Bytes? ==>
        && Valid() && |op.outcome.data| <= op.bufferSize && IsAt(connection.file, start, op.outcome.data)
        && cursor == start + |op.outcome.data|
        && (op.outcome.data == [] && op.bufferSize > 0 ==> start >= |connection.file|)
      ensures !op.outcome.Bytes? ==> cursor == start
    {
      OpenOver(op);
    }

    /** What the account of the requests begun says. */
    lemma RequestsKnown(op: Operation, ok: bool, supplied: bool)
      requires !(ok && op.outcome.Cancelled?) ==>
        Recorded(begun.history, connection.net.history, RequestFor(op, |begun.history| + 1), supplied, op.sentCancel)
      requires ok ==> Over(op)
      ensures var a, b := begun.history, connection.net.history;
        && a <= b && Asked(Added(a, b), RequestFor(op, |a| + 1)) && (|Added(a, b)| == 2 ==> op.sentCancel)
        && (b == a <==> supplied || (ok && op.outcome.Cancelled?))
    {
      if ok && op.outcome.Cancelled? {
        OpenOver(op);
      } else {
        RecordAdded(begun.history, connection.net.history, RequestFor(op, |begun.history| + 1), supplied,
                    op.sentCancel);
      }
    }

    /** RunSync, with the account of the requests begun. */
    method Ask(op0: Operation, cancellable: bool) returns (ok: bool, op: Operation)
      requires Valid() && op0.state.Init? && !op0.sentCancel && !op0.sentSeek && |op0.attributes| < TWO_32
      modifies this, connection
      ensures ok ==> Over(op)
      ensures Sound(connection.file, connection.net) && Sound(connection.file, begun)
      ensures !ok ==> connection.net.broken || !connection.net.WithinCapacity() || Exhausted(op)
      ensures ok && op.outcome.Cancelled? ==> cancellable
      ensures Later(begun, connection.net)
      ensures currentOffset == old(currentOffset) && begun == old(connection.net)
      ensures op0.kind.CloseOp? || start == old(cursor)
      ensures SameOperation(Resolved(op0, currentOffset).(seqNr := op.seqNr), op)
      ensures Requested(old(connection.net.history), connection.net.history,
                        RequestFor(op, |old(connection.net.history)| + 1), cancellable)
      ensures Silent() <==> (op0.kind.ReadOp? && old(Supplied())) || (ok && op.outcome.Cancelled?)
    {
      ok, op := RunSync(op0, cancellable);
      RequestsKnown(op, ok, op0.kind.ReadOp? && old(Supplied()));
    }

    lemma QueryEnds(op: Operation)
      requires Over(op) && op.kind.QueryOp?
      ensures cursor == start
    {
      OpenOver(op);
    }

    // ---------- The stream's operations ----------

    function Tell(): int
      reads this
    {
      currentOffset
    }

    /** The offset reported to the caller is where the next byte comes from. */
    ghost predicate InSync()
      reads this
    {
      currentOffset == cursor
    }

    /** The connection is of no more use: the socket has failed, too many requests are
        unanswered, or the daemon has hung up. */
    ghost predicate Dead()
      reads this, connection
    {
      || connection.net.broken || !connection.net.WithinCapacity()
      || (HungUp(connection.net) && connection.net.queue == [])
    }

    /** A read is served without a request: current data is queued, or the client is in a current block. */
    ghost predicate Supplied()
      reads this`preReads, this`inputState, this`inputBlockGen, this`seekGeneration
    {
      Pre() != [] || (inputState.InBlock? && inputBlockGen == seekGeneration)
    }

    /** How much data the client holds beyond the next byte. */
    ghost function Held(): nat
      reads this`preReads, this`seekGeneration, connection
    {
      |Pre()| + |connection.net.rest|
    }

    /** The replies decoded since an earlier state of the connection. */
    twostate function Learned(): seq<Reply>
      reads this, connection
    {
      Heard(old(connection.net), connection.net)
    }

    /** The operation began no request. */
    twostate predicate Silent()
      reads connection
    {
      connection.net.history == old(connection.net.history)
    }

    /** A cancelled result needs a cancellable; a refused one is what an ERROR reply says. A read that
        is not served from what the client has sends READ with the count. */
    method Read(count: nat, cancellable: bool) returns (result: ReadResult)
      requires Valid()
      modifies this, connection
      ensures result.ReadFailed? ==> Dead()
      ensures !result.ReadFailed? ==> Valid()
      ensures result.ReadBytes? ==>
        && |result.data| <= count
        && IsAt(connection.file, old(cursor), result.data)
        && cursor == old(cursor) + |result.data| && currentOffset == old(currentOffset) + |result.data|
        && (result.data == [] && count > 0 ==> old(cursor) >= |connection.file|)
      ensures result.ReadCancelled? || result.ReadRefused? ==>
        cursor == old(cursor) && currentOffset == old(currentOffset)
      ensures result.ReadCancelled? ==> cancellable && connection.net == old(connection.net)
      ensures result.ReadRefused? ==>
        var heard := Learned(); heard != [] && Tells(Refused(result.code, result.text), heard[|heard| - 1])
      ensures old(InSync()) && !result.ReadFailed? ==> InSync()
      ensures Later(old(connection.net), connection.net)
      ensures Requested(old(connection.net.history), connection.net.history,
                        Request(READ, |old(connection.net.history)| + 1, Min(count, MAX_READ_SIZE), 0, []), cancellable)
      ensures Silent() <==> old(Supplied()) || result.ReadCancelled?
      ensures !result.ReadFailed? ==>
        connection.net.front.pos == old(connection.net.front.pos) + Payload(Learned())
    {
      NothingHeard(connection.file, connection.net);
      var already: bool := *;
      ghost var q := Request(READ, |connection.net.history| + 1, Min(count, MAX_READ_SIZE), 0, []);
      NoneRequested(connection.net.history, q, cancellable);
      if cancellable && already {
        return ReadCancelled;
      }
      result := DriveRead(count, cancellable);
      if result.ReadBytes? {
        currentOffset := currentOffset + |result.data|;
      }
    }

    /** The read on the wire, if it is not served from what the client has. */
    method DriveRead(count: nat, cancellable: bool) returns (result: ReadResult)
      requires Valid()
      modifies this, connection
      ensures currentOffset == old(currentOffset)
      ensures if result.ReadFailed? then Dead() else Valid()
      ensures result.ReadBytes? ==>
        && |result.data| <= count
        && IsAt(connection.file, old(cursor), result.data) && cursor == old(cursor) + |result.data|
        && (result.data == [] && count > 0 ==> old(cursor) >= |connection.file|)
      ensures result.ReadCancelled? || result.ReadRefused? ==> cursor == old(cursor)
      ensures result.ReadCancelled? ==> cancellable && connection.net == old(connection.net)
      ensures result.ReadRefused? ==>
        var heard := Learned(); heard != [] && Tells(Refused(result.code, result.text), heard[|heard| - 1])
      ensures Later(old(connection.net), connection.net)
      ensures Requested(old(connection.net.history), connection.net.history,
                        Request(READ, |old(connection.net.history)| + 1, Min(count, MAX_READ_SIZE), 0, []), cancellable)
      ensures Silent() <==> old(Supplied()) || result.ReadCancelled?
      ensures !result.ReadFailed? ==>
        connection.net.front.pos == old(connection.net.front.pos) + Payload(Learned())
    {
      var size := if count > MAX_READ_SIZE then MAX_READ_SIZE else count;
      var ok, op := Ask(NewOperation(ReadOp).(bufferSize := size), cancellable);
      if !ok {
        return ReadFailed;
      }
      PossibleOutcomes(op);
      MovedByData(op);
      ReadEnds(op);
      match op.outcome
      case Bytes(data) =>
        return ReadBytes(data);
      case Refused(code, text) =>
        EndsWith(op);
        return ReadRefused(code, text);
      case Cancelled =>
        Stopped(op);
        return ReadCancelled;
    }

    /** The boolean is what the source returns. A seek cancelled before its first byte
        returns true as well, and leaves offset 0. A refused seek has dropped what was read
        ahead: the next byte comes after all the data received and met on the way. */
    method Seek(offset: int, seekType: SeekType, cancellable: bool) returns (ok: bool, how: SeekOutcome)
      requires Valid()
      modifies this, connection
      ensures how.SeekFailed? ==> !ok && Dead()
      ensures Later(old(connection.net), connection.net)
      ensures !how.SeekFailed? && !how.SeekBlocked? ==> Valid()
      ensures how.SeekBlocked? ==> Stalled() && currentOffset == old(currentOffset)
      ensures ok <==> how.Seeked? || how.SeekTakenBack?
      ensures how.Seeked? ==> InSync()
      ensures how.Seeked? ==>
        var target := (if seekType.SeekCur? then old(currentOffset) else 0) + offset;
        IsInt64(target) ==> currentOffset == target + if seekType.SeekEnd? then |connection.file| else 0
      ensures how.SeekTakenBack? ==>
        cancellable && currentOffset == 0 && cursor == old(cursor) && connection.net == old(connection.net)
      ensures how.SeekRejected? ==>
        currentOffset == old(currentOffset) && cursor == old(cursor) && connection.net == old(connection.net)
      ensures how.SeekRejected? ==> cancellable || !canSeek
      ensures how.SeekRefused? ==>
        && currentOffset == old(currentOffset)
        && cursor == old(cursor) + |old(Pre())| + |old(connection.net.rest)| + Payload(Learned())
      ensures how.SeekRefused? && old(InSync()) ==>
        (InSync() <==> old(Pre()) == [] && old(connection.net.rest) == [] && Payload(Learned()) == 0)
      ensures how.Seeked? || how.SeekRefused? ==> Pre() == [] && connection.net.rest == []
      ensures how.Seeked? || how.SeekRefused? || how.SeekBlocked? ==>
        var heard := Learned();
        && heard != []
        && (if how.Seeked? then Tells(At(currentOffset), heard[|heard| - 1]) else heard[|heard| - 1].Error?)
        && (how.SeekBlocked? <==> !heard[|heard| - 1].OfSeek())
      ensures !canSeek ==> how.SeekRejected?
      ensures
        var target := (if seekType.SeekCur? then old(currentOffset) else 0) + offset;
        Requested(old(connection.net.history), connection.net.history,
                  Request(if seekType.SeekEnd? then SEEK_END else SEEK_SET, |old(connection.net.history)| + 1,
                          OffsetBits(target) % TWO_32, OffsetBits(target) / TWO_32, []), cancellable)
      ensures Silent() <==> how.SeekRejected? || how.SeekTakenBack?
    {
      NothingHeard(connection.file, connection.net);
      ghost var target := (if seekType.SeekCur? then currentOffset else 0) + offset;
      NoneRequested(connection.net.history,
                    Request(if seekType.SeekEnd? then SEEK_END else SEEK_SET, |connection.net.history| + 1,
                            OffsetBits(target) % TWO_32, OffsetBits(target) / TWO_32, []), cancellable);
      if !canSeek {
        return false, SeekRejected;
      }
      var already: bool := *;
      if cancellable && already {
        return false, SeekRejected;
      }
      var position;
      how, position := SeekOnWire(offset, seekType, cancellable);
      ok := how.Seeked? || how.SeekTakenBack?;
      if ok {
        currentOffset := position;
      }
    }

    /** What becomes of a seek that is sent, and the offset it sets. */
    method SeekOnWire(offset: int, seekType: SeekType, cancellable: bool) returns (how: SeekOutcome, position: int)
      requires Valid()
      modifies this, connection
      ensures currentOffset == old(currentOffset) && !how.SeekRejected?
      ensures how.SeekFailed? ==> Dead()
      ensures Later(old(connection.net), connection.net)
      ensures !how.SeekFailed? && !how.SeekBlocked? ==> Valid()
      ensures how.SeekBlocked? ==> Stalled()
      ensures how.Seeked? ==>
        && position == cursor
        && var target := (if seekType.SeekCur? then old(currentOffset) else 0) + offset;
           IsInt64(target) ==> position == target + if seekType.SeekEnd? then |connection.file| else 0
      ensures how.SeekTakenBack? ==>
        cancellable && position == 0 && cursor == old(cursor) && connection.net == old(connection.net)
      ensures how.SeekRefused? ==>
        cursor == old(cursor) + |old(Pre())| + |old(connection.net.rest)| + Payload(Learned())
      ensures how.Seeked? || how.SeekRefused? ==> Pre() == [] && connection.net.rest == []
      ensures how.Seeked? || how.SeekRefused? || how.SeekBlocked? ==>
        var heard := Learned();
        && heard != []
        && (if how.Seeked? then Tells(At(position), heard[|heard| - 1]) else heard[|heard| - 1].Error?)
        && (how.SeekBlocked? <==> !heard[|heard| - 1].OfSeek())
      ensures
        var target := (if seekType.SeekCur? then old(currentOffset) else 0) + offset;
        Requested(old(connection.net.history), connection.net.history,
                  Request(if seekType.SeekEnd? then SEEK_END else SEEK_SET, |old(connection.net.history)| + 1,
                          OffsetBits(target) % TWO_32, OffsetBits(target) / TWO_32, []), cancellable)
      ensures Silent() <==> how.SeekTakenBack?
    {
      var done, outcome := DriveSeek(offset, seekType, cancellable);
      position := if outcome.At? then outcome.pos else 0;
      how := if !done then SeekFailed
             else if outcome.Refused? && connection.net.front.gen != seekGeneration then SeekBlocked
             else if outcome.Refused? then SeekRefused
             else if outcome.At? then Seeked else SeekTakenBack;
      if how.Seeked? || how.SeekRefused? {
        HeldIs();
      }
    }

    /** The seek on the wire. */
    method DriveSeek(offset: int, seekType: SeekType, cancellable: bool) returns (done: bool, outcome: Outcome)
      requires Valid()
      modifies this, connection
      ensures currentOffset == old(currentOffset)
      ensures !done ==> Dead()
      ensures Later(old(connection.net), connection.net)
      ensures done ==> if outcome.Refused? && !Synced() then Stalled() else Valid()
      ensures done ==> outcome.At? || outcome.Refused? || outcome.Cancelled?
      ensures done && outcome.At? ==>
        && cursor == outcome.pos
        && var target := (if seekType.SeekCur? then old(currentOffset) else 0) + offset;
           IsInt64(target) ==> cursor == target + if seekType.SeekEnd? then |connection.file| else 0
      ensures done && outcome.Cancelled? ==>
        cancellable && cursor == old(cursor) && connection.net == old(connection.net)
      ensures done && outcome.Refused? && Synced() ==>
        cursor == old(cursor) + |old(Pre())| + |old(connection.net.rest)| + Payload(Learned())
      ensures done && !outcome.Cancelled? && Synced() ==> cursor == connection.net.front.pos
      ensures done && !outcome.Cancelled? ==>
        var heard := Learned();
            heard != [] && Tells(outcome, heard[|heard| - 1]) && (Synced() <==> heard[|heard| - 1].OfSeek())
      ensures
        var target := (if seekType.SeekCur? then old(currentOffset) else 0) + offset;
        Requested(old(connection.net.history), connection.net.history,
                  Request(if seekType.SeekEnd? then SEEK_END else SEEK_SET, |old(connection.net.history)| + 1,
                          OffsetBits(target) % TWO_32, OffsetBits(target) / TWO_32, []), cancellable)
      ensures Silent() <==> done && outcome.Cancelled?
    {
      FrontPosition(connection.file, connection.net.head, connection.net.rest, connection.net.front,
                    inputState, inputBlockSize, inputBlockGen, preReads, seekGeneration, cursor);
      var op;
      done, op := Ask(NewOperation(SeekOp).(offset := offset, seekType := seekType), cancellable);
      outcome := op.outcome;
      if !done {
        return;
      }
      PossibleOutcomes(op);
      if outcome.Cancelled? {
        Stopped(op);
      } else {
        EndsWith(op);
        SeekEnds(op);
        if outcome.Refused? {
          MovedByData(op);
        }
      }
    }

    /** A query never disturbs the data: what it meets is kept for the reads to come. If it is
        cancelled before its first byte, the stream survives exactly when no attributes were asked for. */
    method QueryInfo(attributes: seq<Byte>, cancellable: bool) returns (result: QueryResult)
      requires Valid() && |attributes| < TWO_32
      modifies this, connection
      ensures result.QueryFailed? ==> Dead()
      ensures result.QueryGave? || result.QueryRefused? || result.QueryRejected? ==> Valid()
      ensures !result.QueryFailed? ==> cursor == old(cursor) && currentOffset == old(currentOffset)
      ensures Later(old(connection.net), connection.net)
      ensures !result.QueryFailed? ==>
        connection.net.front.pos == old(connection.net.front.pos) + Payload(Learned())
      ensures result.QueryTakenBack? || result.QueryRejected? ==> cancellable && connection.net == old(connection.net)
      ensures result.QueryTakenBack? ==> |outputBuffer| == |attributes| && (Valid() <==> attributes == [])
      ensures result.QueryGave? || result.QueryRefused? ==>
        var heard := Learned();
        heard != [] && Tells(if result.QueryGave? then Information(result.data)
                             else Refused(result.code, result.text), heard[|heard| - 1])
      ensures Requested(old(connection.net.history), connection.net.history,
                        Request(QUERY_INFO, |old(connection.net.history)| + 1, 0, 0, attributes), cancellable)
      ensures Silent() <==> result.QueryTakenBack? || result.QueryRejected?
    {
      NothingHeard(connection.file, connection.net);
      var already: bool := *;
      NoneRequested(connection.net.history, Request(QUERY_INFO, |connection.net.history| + 1, 0, 0, attributes),
                    cancellable);
      if cancellable && already {
        return QueryRejected;
      }
      var ok, op := Ask(NewOperation(QueryOp).(attributes := attributes), cancellable);
      if !ok {
        return QueryFailed;
      }
      PossibleOutcomes(op);
      MovedByData(op);
      QueryEnds(op);
      match op.outcome
      case Information(data) =>
        EndsWith(op);
        return QueryGave(data);
      case Refused(code, text) =>
        EndsWith(op);
        return QueryRefused(code, text);
      case Cancelled =>
        Stopped(op);
        return QueryTakenBack;
    }

    /** The socket is closed. */
    method Shut(ghost before: Net)
      requires Sound(connection.file, connection.net)
      modifies connection
      ensures connection.net == old(connection.net).(broken := true) && (old(Valid()) ==> Valid())
      ensures Heard(before, connection.net) == Heard(before, old(connection.net))
      ensures Later(before, connection.net) <==> Later(before, old(connection.net))
    {
      connection.Break();
    }

    /** Closes the stream after a full round trip; whatever comes of it, the socket is closed. */
    method Close(cancellable: bool) returns (ok: bool, failed: bool)
      requires Valid()
      modifies this, connection
      ensures failed ==> !ok && Dead()
      ensures Later(old(connection.net), connection.net) && (!failed ==> Valid())
      ensures connection.net.broken && currentOffset == old(currentOffset)
      ensures ok ==> var heard := Learned(); heard != [] && heard[|heard| - 1].Closed?
      ensures !failed && !ok ==>
        var heard := Learned(); if heard == [] then cancellable else heard[|heard| - 1].Error?
      ensures Requested(old(connection.net.history), connection.net.history,
                        Request(CLOSE, |old(connection.net.history)| + 1, 0, 0, []), cancellable)
      ensures Silent() <==> !failed && !ok && Learned() == []
    {
      NothingHeard(connection.file, connection.net);
      var done, op := Ask(NewOperation(CloseOp), cancellable);
      if done {
        PossibleOutcomes(op);
        if op.outcome.Cancelled? {
          Stopped(op);
        } else {
          EndsWith(op);
        }
      }
      Shut(begun);
      return done && op.outcome == ClosedWell, !done;
    }
  }

  /** What a reply is to an operation. */
  datatype Verdict = Ending(outcome: Outcome) | Block | Ignored

  /** The tests that the machines make on a reply header; `matches` if it carries their number. */
  function Judged(op: OpKind, kind: UInt32, matches: bool, arg1: UInt32, arg2: UInt32, body: seq<Byte>): Verdict {
    if kind == REPLY_ERROR && matches then Ending(Refused(arg1, body))
    else if kind == REPLY_DATA then Block
    else if op.SeekOp? && kind == REPLY_SEEK_POS && matches then Ending(At(arg2 * TWO_32 + arg1))
    else if op.QueryOp? && kind == REPLY_INFO && matches then Ending(Information(body))
    else if op.CloseOp? && kind == REPLY_CLOSED && matches then Ending(ClosedWell)
    else Ignored
  }

  lemma JudgedWell(op: OpKind, id: nat, m: Reply, matches: bool, arg1: UInt32, arg2: UInt32, body: seq<Byte>)
    requires !m.Data? ==> (matches <==> m.id == id)
    requires m.SeekPos? ==> arg2 * TWO_32 + arg1 == m.pos
    requires (m.Error? || m.Info? ==> body == m.body) && (m.Error? ==> arg1 == m.code)
    ensures var v := Judged(op, m.Kind(), matches, arg1, arg2, body);
      && (v.Block? <==> m.Data?)
      && (v.Ending? <==> Ends(op, id, m) && !m.Data?) && (v.Ending? ==> Tells(v.outcome, m))
  {
  }

  /** Of the replies heard the last one ended the operation. */
  lemma LastHeard(begun: Net, n: Net, kind: OpKind, id: nat)
    requires Settled(begun, n, kind, id)
    ensures var heard := Heard(begun, n); heard != [] && heard[|heard| - 1] == n.log[n.Decoded() - 1]
  {
  }

  // ---------- Whole runs ----------

  datatype Call =
    | CallRead(count: nat, cancellable: bool)
    | CallSeek(offset: int, seekType: SeekType, cancellable: bool)
    | CallQuery(attributes: seq<Byte>, cancellable: bool)
    | CallClose(cancellable: bool)

  /** What a caller saw of a call. */
  datatype Saw =
    | SawBytes(data: seq<Byte>)     // a read
    | SawSeek                       // a seek that took place
    | SawLostSeek                   // a seek taken back, which reports success
    | SawError                      // an ERROR reply
    | SawInfo(data: seq<Byte>)      // a query
    | SawNothing                    // cancelled, or not possible
    | SawClose(ok: bool)

  /** A call: what came of it, the offset that tell() reported, the file offset of the next byte and
      how much data the client held beyond it, each before and after, and the replies decoded; whether
      a read could be served without a request, the number of the next request, and those begun. */
  datatype Event = Event(call: Call, saw: Saw, tell: int, tell': int, at: nat, at': nat, held: nat, held': nat,
                         heard: seq<Reply>, supplied: bool, number: nat, asked: seq<Request>)
  {
    ghost predicate LastHeard(outcome: Outcome) {
      heard != [] && Tells(outcome, heard[|heard| - 1])
    }

    /** A seek that the daemon has answered. */
    predicate Answered() {
      saw.SawSeek? || (saw.SawError? && call.CallSeek?)
    }

    /** The request that the call asks for. */
    function Asking(): Request {
      match call
      case CallRead(count, _) => Request(READ, number, Min(count, MAX_READ_SIZE), 0, [])
      case CallSeek(offset, seekType, _) =>
        var target := (if seekType.SeekCur? then tell else 0) + offset;
        Request(if seekType.SeekEnd? then SEEK_END else SEEK_SET, number,
                        OffsetBits(target) % TWO_32, OffsetBits(target) / TWO_32, [])
      case CallQuery(attributes, _) => Request(QUERY_INFO, number, 0, 0, attributes)
      case CallClose(_) => Request(CLOSE, number, 0, 0, [])
    }

    /** The call begins its request and no other, but for a CANCEL of that; none if it is cancelled at
        once or a read needs none. Sealed: the verifier looks inside only where `Mark` is mentioned. */
    ghost predicate Asks() {
      forall k: nat {:trigger Mark(this, k)} :: Mark(this, k) ==>
        && Asked(asked, Asking()) && (|asked| == 2 ==> call.cancellable)
        && (asked == [] <==>
              || saw.SawNothing? || saw.SawLostSeek? || (call.CallRead? && supplied)
              || (saw.SawClose? && !saw.ok && heard == []))
        && (call.CallRead? && held > 0 ==> supplied)
    }

    /** No byte of the data heard is lost or made up: it is returned, skipped, or held. */
    ghost predicate Conserves() {
      at' + held' == at + held + Payload(heard)
    }
  }

  /** The position that a seek asks for. */
  function Wanted(file: seq<Byte>, tell: int, offset: int, seekType: SeekType): int {
    match seekType
    case SeekSet => offset
    case SeekCur => tell + offset
    case SeekEnd => |file| + offset
  }

  lemma OpenAsks(e: Event)
    requires e.Asks()
    ensures Asked(e.asked, e.Asking()) && (|e.asked| == 2 ==> e.call.cancellable)
    ensures e.asked == [] <==>
      || e.saw.SawNothing? || e.saw.SawLostSeek? || (e.call.CallRead? && e.supplied)
      || (e.saw.SawClose? && !e.saw.ok && e.heard == [])
    ensures e.call.CallRead? && e.held > 0 ==> e.supplied
  {
    assert Mark(e, 0);
  }

  lemma AsksIs(e: Event, a: seq<Request>, b: seq<Request>)
    requires Requested(a, b, e.Asking(), e.call.cancellable) && e.asked == Added(a, b)
    requires a == b <==>
      || e.saw.SawNothing? || e.saw.SawLostSeek? || (e.call.CallRead? && e.supplied)
      || (e.saw.SawClose? && !e.saw.ok && e.heard == [])
    requires e.call.CallRead? && e.held > 0 ==> e.supplied
    ensures e.Asks() && a <= b
  {
    OpenRequested(a, b, e.Asking(), e.call.cancellable);
  }

  /** Every call did what it reports. A read gives the file's bytes from where the last call
      left the stream, none only at the end of the file, and moves on by as many. */
  ghost predicate Honest(file: seq<Byte>, canSeek: bool, e: Event) {
    && (!e.saw.SawSeek? && !e.saw.SawClose? ==> e.Conserves())
    && (e.Answered() ==> e.held' == 0) && e.Asks()
    && match e.saw
       case SawBytes(data) =>
         && e.call.CallRead? && |data| <= e.call.count && IsAt(file, e.at, data)
         && e.at' == e.at + |data| && e.tell' == e.tell + |data|
         && (data == [] && e.call.count > 0 ==> e.at >= |file|)
       case SawSeek =>
         && e.call.CallSeek? && e.tell' == e.at' && e.LastHeard(At(e.at'))
         && (IsInt64(e.call.offset + if e.call.seekType.SeekCur? then e.tell else 0) ==>
               e.tell' == Wanted(file, e.tell, e.call.offset, e.call.seekType))
       case SawLostSeek => e.call.CallSeek? && e.call.cancellable && e.tell' == 0 && e.at' == e.at && e.heard == []
       case SawError =>
         && !e.call.CallClose? && e.tell' == e.tell && e.heard != [] && e.heard[|e.heard| - 1].Error?
         && e.at' == e.at + if e.call.CallSeek? then e.held + Payload(e.heard) else 0
       case SawInfo(data) => e.call.CallQuery? && e.tell' == e.tell && e.at' == e.at && e.LastHeard(Information(data))
       case SawNothing =>
         && e.tell' == e.tell && e.at' == e.at && e.heard == []
         && (e.call.cancellable || (e.call.CallSeek? && !canSeek))
       case SawClose(ok) => e.call.CallClose? && e.tell' == e.tell && (ok ==> e.LastHeard(ClosedWell))
  }

  lemma SeekIsHonest(file: seq<Byte>, canSeek: bool, e: Event)
    requires e.call.CallSeek? && (e.saw.SawSeek? || e.saw.SawLostSeek? || e.saw.SawError? || e.saw.SawNothing?)
    requires e.Asks() && (!e.saw.SawSeek? ==> e.Conserves()) && (e.Answered() ==> e.held' == 0)
    requires e.saw.SawSeek? ==>
      && e.tell' == e.at' && e.LastHeard(At(e.at'))
      && (IsInt64(e.call.offset + if e.call.seekType.SeekCur? then e.tell else 0) ==>
            e.tell' == Wanted(file, e.tell, e.call.offset, e.call.seekType))
    requires e.saw.SawLostSeek? ==> e.call.cancellable && e.tell' == 0 && e.at' == e.at && e.heard == []
    requires e.saw.SawError? ==>
      e.tell' == e.tell && e.heard != [] && e.heard[|e.heard| - 1].Error? && e.at' == e.at + e.held + Payload(e.heard)
    requires e.saw.SawNothing? ==>
      e.tell' == e.tell && e.at' == e.at && e.heard == [] && (e.call.cancellable || !canSeek)
    ensures Honest(file, canSeek, e)
  {
  }

  /** Each event begins where the one before it ended. */
  ghost predicate Chained(file: seq<Byte>, canSeek: bool, tell: int, at: nat, held: nat, log: seq<Event>, tell': int,
                          at': nat, held': nat) {
    if log == [] then tell' == tell && at' == at && held' == held
    else
      var e := log[|log| - 1];
      && Honest(file, canSeek, e) && e.tell' == tell' && e.at' == at' && e.held' == held'
      && Chained(file, canSeek, tell, at, held, log[..|log| - 1], e.tell, e.at, e.held)
  }

  /** All the replies of a run. */
  ghost function AllHeard(log: seq<Event>): seq<Reply> {
    if log == [] then [] else AllHeard(log[..|log| - 1]) + log[|log| - 1].heard
  }

  /** All the requests of a run. */
  ghost function AllAsked(log: seq<Event>): seq<Request> {
    if log == [] then [] else AllAsked(log[..|log| - 1]) + log[|log| - 1].asked
  }

  /** The account of a run, from the connection at its start to the one now. */
  ghost predicate Accounted(file: seq<Byte>, canSeek: bool, tell0: int, at0: nat, held0: nat, a: Net, log: seq<Event>,
                            tell: int, at: nat, held: nat, b: Net) {
    && Chained(file, canSeek, tell0, at0, held0, log, tell, at, held)
    && Later(a, b) && AllHeard(log) == Heard(a, b) && a.history + AllAsked(log) == b.history
  }

  /** `Accounted`, sealed: the verifier looks inside only where `Mark` is mentioned. */
  ghost predicate Run(file: seq<Byte>, canSeek: bool, tell0: int, at0: nat, held0: nat, a: Net, log: seq<Event>,
                      tell: int, at: nat, held: nat, b: Net) {
    forall k: nat {:trigger Mark((a, tell0), k)} :: Mark((a, tell0), k) ==>
      Accounted(file, canSeek, tell0, at0, held0, a, log, tell, at, held, b)
  }

  lemma OpenRun(file: seq<Byte>, canSeek: bool, tell0: int, at0: nat, held0: nat, a: Net, log: seq<Event>,
                tell: int, at: nat, held: nat, b: Net)
    requires Run(file, canSeek, tell0, at0, held0, a, log, tell, at, held, b)
    ensures Accounted(file, canSeek, tell0, at0, held0, a, log, tell, at, held, b)
  {
    assert Mark((a, tell0), 0);
  }

  lemma RunBegins(file: seq<Byte>, canSeek: bool, tell: int, at: nat, held: nat, a: Net)
    requires Sound(file, a)
    ensures Run(file, canSeek, tell, at, held, a, [], tell, at, held, a)
  {
    NothingHeard(file, a);
    assert a.history + [] == a.history;
  }

  lemma RunGoesOn(file: seq<Byte>, canSeek: bool, tell0: int, at0: nat, held0: nat, a: Net, log: seq<Event>,
                  e: Event, b: Net, c: Net)
    requires Run(file, canSeek, tell0, at0, held0, a, log, e.tell, e.at, e.held, b) && Honest(file, canSeek, e)
    requires Later(b, c) && e.heard == Heard(b, c)
    requires b.history <= c.history && e.asked == Added(b.history, c.history)
    ensures Run(file, canSeek, tell0, at0, held0, a, log + [e], e.tell', e.at', e.held', c)
  {
    OpenRun(file, canSeek, tell0, at0, held0, a, log, e.tell, e.at, e.held, b);
    assert (log + [e])[..|log|] == log;
    HeardOn(a, b, c);
    Associative(a.history, AllAsked(log), e.asked);
    AddedBack(b.history, c.history);
  }

  lemma RunStops(file: seq<Byte>, canSeek: bool, tell0: int, at0: nat, held0: nat, a: Net, log: seq<Event>,
                 tell: int, at: nat, held: nat, b: Net, c: Net)
    requires Run(file, canSeek, tell0, at0, held0, a, log, tell, at, held, b) && Later(b, c) && b.history <= c.history
    ensures Chained(file, canSeek, tell0, at0, held0, log, tell, at, held)
    ensures AllHeard(log) <= Heard(a, c) && a.history + AllAsked(log) <= c.history
  {
    OpenRun(file, canSeek, tell0, at0, held0, a, log, tell, at, held, b);
    HeardOn(a, b, c);
  }

  /** Since the last seek that took place no seek was taken back, none was refused that dropped or
      met data, and the stream was not closed. */
  ghost predicate Trusted(log: seq<Event>) {
    if log == [] then true
    else
      var e := log[|log| - 1];
      e.saw.SawSeek? ||
      (!e.saw.SawLostSeek? && !e.saw.SawClose? && Trusted(log[..|log| - 1])
       && (e.saw.SawError? && e.call.CallSeek? ==> e.held == 0 && Payload(e.heard) == 0))
  }

  lemma {:induction false} TellIsRight(file: seq<Byte>, canSeek: bool, tell: int, held: nat, log: seq<Event>,
                                       tell': int, at': nat, held': nat)
    requires tell >= 0 && Chained(file, canSeek, tell, tell, held, log, tell', at', held') && Trusted(log)
    ensures tell' == at'
  {
    if log != [] {
      var e := log[|log| - 1];
      if !e.saw.SawSeek? {
        TellIsRight(file, canSeek, tell, held, log[..|log| - 1], e.tell, e.at, e.held);
      }
    }
  }

  lemma {:induction false} ChainedPrefix(file: seq<Byte>, canSeek: bool, tell: int, at: nat, held: nat, log: seq<Event>,
                                         tell': int, at': nat, held': nat, k: nat)
    requires Chained(file, canSeek, tell, at, held, log, tell', at', held') && k < |log|
    ensures Honest(file, canSeek, log[k])
    ensures Chained(file, canSeek, tell, at, held, log[..k], log[k].tell, log[k].at, log[k].held)
  {
    var n := |log| - 1;
    if k < n {
      ChainedPrefix(file, canSeek, tell, at, held, log[..n], log[n].tell, log[n].at, log[n].held, k);
      assert log[..n][..k] == log[..k];
    }
  }

  /** End to end: in every run that starts in step, a read at tell() = o, with no seek lost since
      the last one that took place, returns the file's bytes from o on and moves tell() past them. */
  lemma ReadsAtTell(file: seq<Byte>, canSeek: bool, tell: int, held: nat, log: seq<Event>, tell': int, at': nat,
                    held': nat, k: nat)
    requires tell >= 0 && Chained(file, canSeek, tell, tell, held, log, tell', at', held')
    requires k < |log| && log[k].saw.SawBytes? && Trusted(log[..k])
    ensures var e := log[k]; var data := e.saw.data;
      && e.call.CallRead? && |data| <= e.call.count && 0 <= e.tell && IsAt(file, e.tell, data)
      && e.tell' == e.tell + |data| && (data == [] && e.call.count > 0 ==> e.tell >= |file|)
  {
    ChainedPrefix(file, canSeek, tell, tell, held, log, tell', at', held', k);
    TellIsRight(file, canSeek, tell, held, log[..k], log[k].tell, log[k].at, log[k].held);
  }

  // ---------- Conservation ----------

  /** The bytes that the reads of a run returned. */
  function Returned(log: seq<Event>): nat {
    if log == [] then 0
    else
      var e := log[|log| - 1];
      Returned(log[..|log| - 1]) + if e.saw.SawBytes? then |e.saw.data| else 0
  }

  /** No call of the run is a seek that the daemon answered, or a close. */
  predicate Unmoved(log: seq<Event>) {
    forall i :: 0 <= i < |log| ==> !log[i].Answered() && !log[i].saw.SawClose?
  }

  /** Between seeks the data of the replies decoded is what the reads returned and what the client
      holds more than before: no byte is lost, returned twice or made up. */
  lemma {:induction false} Conservation(file: seq<Byte>, canSeek: bool, tell: int, at: nat, held: nat, log: seq<Event>,
                                        tell': int, at': nat, held': nat)
    requires Chained(file, canSeek, tell, at, held, log, tell', at', held') && Unmoved(log)
    ensures at' == at + Returned(log) && Returned(log) + held' == held + Payload(AllHeard(log))
  {
    if log != [] {
      var n := |log| - 1;
      Conservation(file, canSeek, tell, at, held, log[..n], log[n].tell, log[n].at, log[n].held);
      PayloadConcat(AllHeard(log[..n]), log[n].heard);
    }
  }

  lemma {:induction false} ChainedSuffix(file: seq<Byte>, canSeek: bool, tell: int, at: nat, held: nat, log: seq<Event>,
                                         tell': int, at': nat, held': nat, k: nat)
    requires Chained(file, canSeek, tell, at, held, log, tell', at', held') && k < |log|
    ensures Chained(file, canSeek, log[k].tell', log[k].at', log[k].held', log[k + 1..], tell', at', held')
  {
    var n := |log| - 1;
    if k < n {
      ChainedSuffix(file, canSeek, tell, at, held, log[..n], log[n].tell, log[n].at, log[n].held, k);
      assert log[..n][k + 1..] == log[k + 1..][..n - k - 1];
    } else {
      assert log[k + 1..] == [];
    }
  }

  /** Since the last seek that the daemon answered, the bytes returned and the bytes held are exactly
      the data of the replies decoded. */
  lemma SinceSeek(file: seq<Byte>, canSeek: bool, tell: int, at: nat, held: nat, log: seq<Event>,
                  tell': int, at': nat, held': nat, k: nat)
    requires Chained(file, canSeek, tell, at, held, log, tell', at', held')
    requires k < |log| && log[k].Answered() && Unmoved(log[k + 1..])
    ensures Returned(log[k + 1..]) + held' == Payload(AllHeard(log[k + 1..]))
  {
    ChainedPrefix(file, canSeek, tell, at, held, log, tell', at', held', k);
    ChainedSuffix(file, canSeek, tell, at, held, log, tell', at', held', k);
    Conservation(file, canSeek, log[k].tell', log[k].at', log[k].held', log[k + 1..], tell', at', held');
  }

  /** Any sequence of reads, seeks, queries and closes on a stream, each of which may be
      cancelled at any moment, against any daemon that serves the file. The log covers every call
      before the run stopped, and holds every reply that was decoded in it. */
  method Session(stream: FileInputStream, calls: seq<Call>)
    returns (ghost log: seq<Event>, stopped: bool, ghost tell: int, ghost at: nat, ghost held: nat)
    requires stream.Valid()
    requires forall k :: 0 <= k < |calls| && calls[k].CallQuery? ==> |calls[k].attributes| < TWO_32
    modifies stream, stream.connection
    ensures Chained(stream.connection.file, stream.canSeek, old(stream.currentOffset), old(stream.cursor),
                    old(stream.Held()),
                    log, tell, at, held)
    ensures |log| <= |calls| && forall k :: 0 <= k < |log| ==> log[k].call == calls[k]
    ensures AllHeard(log) <= Heard(old(stream.connection.net), stream.connection.net)
    ensures old(stream.connection.net.history) + AllAsked(log) <= stream.connection.net.history
    ensures !stopped ==>
      && old(stream.connection.net.history) + AllAsked(log) == stream.connection.net.history
      && |log| == |calls| && stream.Valid() && tell == stream.currentOffset && at == stream.cursor
      && held == stream.Held()
      && AllHeard(log) == Heard(old(stream.connection.net), stream.connection.net)
      && AllOnWire(stream.connection.net.history, stream.connection.net.sent)
    ensures stopped ==>
      && |log| < |calls|
      && (stream.Dead() || (calls[|log|].CallQuery? && calls[|log|].attributes != [])
          || (calls[|log|].CallSeek? && stream.Stalled()))
  {
    log, stopped, tell, at, held := [], false, stream.currentOffset, stream.cursor, stream.Held();
    ghost var net := stream.connection.net;
    RunBegins(stream.connection.file, stream.canSeek, tell, at, held, net);
    for k := 0 to |calls|
      invariant stream.Valid() && |log| == k && forall i :: 0 <= i < k ==> log[i].call == calls[i]
      invariant Run(stream.connection.file, stream.canSeek, old(stream.currentOffset), old(stream.cursor),
                    old(stream.Held()), net, log, tell, at, held, stream.connection.net)
      invariant tell == stream.currentOffset && at == stream.cursor && held == stream.Held()
    {
      ghost var e, before := *, stream.connection.net;
      e, stopped := Perform(stream, calls[k]);
      if stopped {
        RunStops(stream.connection.file, stream.canSeek, old(stream.currentOffset), old(stream.cursor),
                 old(stream.Held()), net, log, tell, at, held, before, stream.connection.net);
        return;
      }
      RunGoesOn(stream.connection.file, stream.canSeek, old(stream.currentOffset), old(stream.cursor),
                old(stream.Held()), net, log, e, before, stream.connection.net);
      log, tell, at, held := log + [e], e.tell', e.at', e.held';
    }
    OpenRun(stream.connection.file, stream.canSeek, old(stream.currentOffset), old(stream.cursor), old(stream.Held()),
            net, log, tell, at, held, stream.connection.net);
    SentRequests(stream.connection.file, stream.connection.net);
  }

  /** The event that a call is. */
  twostate function Occurred(stream: FileInputStream, call: Call, saw: Saw): Event
    reads stream, stream.connection
  {
    Event(call, saw, old(stream.currentOffset), stream.currentOffset, old(stream.cursor), stream.cursor,
          old(stream.Held()), stream.Held(), Heard(old(stream.connection.net), stream.connection.net),
          old(stream.Supplied()), |old(stream.connection.net.history)| + 1,
          Added(old(stream.connection.net.history), stream.connection.net.history))
  }

  method PerformRead(stream: FileInputStream, count: nat, cancellable: bool) returns (saw: Saw, stopped: bool)
    requires stream.Valid()
    modifies stream, stream.connection
    ensures Later(old(stream.connection.net), stream.connection.net)
    ensures old(stream.connection.net.history) <= stream.connection.net.history
    ensures if stopped then stream.Dead() else stream.Valid()
    ensures !stopped ==>
      Honest(stream.connection.file, stream.canSeek, Occurred(stream, CallRead(count, cancellable), saw))
  {
    NothingHeard(stream.connection.file, stream.connection.net);
    stream.HeldSupplies();
    stream.HeldIs();
    ghost var net := stream.connection.net;
    var result := stream.Read(count, cancellable);
    stopped := result.ReadFailed?;
    saw := if result.ReadBytes? then SawBytes(result.data) else if result.ReadRefused? then SawError else SawNothing;
    if !stopped {
      stream.HeldIs();
    }
    ghost var e := Occurred(stream, CallRead(count, cancellable), saw);
    OpenRequested(net.history, stream.connection.net.history, e.Asking(), cancellable);
    if !stopped {
      AsksIs(e, net.history, stream.connection.net.history);
    }
  }

  method PerformSeek(stream: FileInputStream, offset: int, seekType: SeekType, cancellable: bool)
      returns (saw: Saw, stopped: bool)
    requires stream.Valid()
    modifies stream, stream.connection
    ensures Later(old(stream.connection.net), stream.connection.net)
    ensures old(stream.connection.net.history) <= stream.connection.net.history
    ensures if stopped then stream.Dead() || stream.Stalled() else stream.Valid()
    ensures !stopped ==>
      Honest(stream.connection.file, stream.canSeek, Occurred(stream, CallSeek(offset, seekType, cancellable), saw))
  {
    NothingHeard(stream.connection.file, stream.connection.net);
    stream.HeldIs();
    ghost var net := stream.connection.net;
    var ok, how := stream.Seek(offset, seekType, cancellable);
    stopped := how.SeekFailed? || how.SeekBlocked?;
    saw := if how.Seeked? then SawSeek else if how.SeekTakenBack? then SawLostSeek else if how.SeekRefused?
        then SawError else SawNothing;
    if !stopped {
      stream.HeldIs();
    }
    ghost var e := Occurred(stream, CallSeek(offset, seekType, cancellable), saw);
    OpenRequested(net.history, stream.connection.net.history, e.Asking(), cancellable);
    if !stopped {
      AsksIs(e, net.history, stream.connection.net.history);
      SeekIsHonest(stream.connection.file, stream.canSeek, e);
    }
  }

  method PerformQuery(stream: FileInputStream, attributes: seq<Byte>, cancellable: bool)
      returns (saw: Saw, stopped: bool)
    requires stream.Valid() && |attributes| < TWO_32
    modifies stream, stream.connection
    ensures stopped ==> stream.Dead() || attributes != []
    ensures Later(old(stream.connection.net), stream.connection.net) && (!stopped ==> stream.Valid())
    ensures old(stream.connection.net.history) <= stream.connection.net.history
    ensures !stopped ==>
      Honest(stream.connection.file, stream.canSeek, Occurred(stream, CallQuery(attributes, cancellable), saw))
  {
    NothingHeard(stream.connection.file, stream.connection.net);
    stream.HeldIs();
    ghost var net := stream.connection.net;
    var result := stream.QueryInfo(attributes, cancellable);
    stopped := result.QueryFailed? || (result.QueryTakenBack? && attributes != []);
    saw := if result.QueryGave? then SawInfo(result.data) else if result.QueryRefused? then SawError else SawNothing;
    if !stopped {
      stream.HeldIs();
    }
    ghost var e := Occurred(stream, CallQuery(attributes, cancellable), saw);
    OpenRequested(net.history, stream.connection.net.history, e.Asking(), cancellable);
    if !stopped {
      AsksIs(e, net.history, stream.connection.net.history);
    }
  }

  method PerformClose(stream: FileInputStream, cancellable: bool) returns (saw: Saw, stopped: bool)
    requires stream.Valid()
    modifies stream, stream.connection
    ensures Later(old(stream.connection.net), stream.connection.net)
    ensures old(stream.connection.net.history) <= stream.connection.net.history
    ensures if stopped then stream.Dead() else stream.Valid()
    ensures !stopped ==> Honest(stream.connection.file, stream.canSeek, Occurred(stream, CallClose(cancellable), saw))
  {
    var ok;
    ghost var net := stream.connection.net;
    ok, stopped := stream.Close(cancellable);
    saw := SawClose(ok);
    ghost var e := Occurred(stream, CallClose(cancellable), saw);
    OpenRequested(net.history, stream.connection.net.history, e.Asking(), cancellable);
    if !stopped {
      AsksIs(e, net.history, stream.connection.net.history);
    }
  }

  /** A call, and the event that it is. */
  method Perform(stream: FileInputStream, call: Call) returns (ghost e: Event, stopped: bool)
    requires stream.Valid() && (call.CallQuery? ==> |call.attributes| < TWO_32)
    modifies stream, stream.connection
    ensures stopped ==>
      stream.Dead() || (call.CallQuery? && call.attributes != []) || (call.CallSeek? && stream.Stalled())
    ensures Later(old(stream.connection.net), stream.connection.net) && (!stopped ==> stream.Valid())
    ensures old(stream.connection.net.history) <= stream.connection.net.history
    ensures !stopped ==> Honest(stream.connection.file, stream.canSeek, e) && e == Occurred(stream, call, e.saw)
  {
    var saw;
    match call {
      case CallRead(count, cancellable) => saw, stopped := PerformRead(stream, count, cancellable);
      case CallSeek(offset, seekType, cancellable) => saw, stopped :=
          PerformSeek(stream, offset, seekType, cancellable);
      case CallQuery(attributes, cancellable) => saw, stopped := PerformQuery(stream, attributes, cancellable);
      case CallClose(cancellable) => saw, stopped := PerformClose(stream, cancellable);
    }
    e := Occurred(stream, call, saw);
  }

  /** What came of a seek; the caller cannot tell the refusal of a blocked channel from another. */
  datatype SeekOutcome = Seeked | SeekTakenBack | SeekRejected | SeekRefused | SeekBlocked | SeekFailed

  datatype QueryResult =
    | QueryGave(data: seq<Byte>)
    | QueryRejected
    | QueryTakenBack
    | QueryRefused(code: UInt32, text: seq<Byte>)
    | QueryFailed

  datatype ReadResult =
    | ReadBytes(data: seq<Byte>)
    | ReadCancelled
    | ReadRefused(code: UInt32, text: seq<Byte>)
    | ReadFailed

  /** What is received of a block is what the file holds there. */
  lemma BlockBytes(file: seq<Byte>, n: Net, n': Net, bytes: seq<Byte>)
    requires |n.rest| <= n.front.pos && IsAt(file, n.front.pos - |n.rest|, n.rest)
    requires |bytes| <= |n.rest| && bytes == n.rest[..|bytes|] && n'.rest == n.rest[|bytes|..]
    ensures IsAt(file, n.front.pos - |n.rest|, bytes)
  {
    IsAtSplit(file, n.front.pos - |n.rest|, n.rest, |bytes|);
  }

  function NewOperation(kind: OpKind): Operation {
    Operation(kind, Init, 0, [], 0, SeekSet, [], Unfinished, false, false, 0)
  }

  /** The daemon may have put more replies; none is decoded. */
  ghost predicate Undecoded(a: Net, b: Net) {
    a.log <= b.log && b.Decoded() == a.Decoded()
  }

  /** The connection holds less that the client has yet to receive, now or ever. */
  ghost predicate Consumed(a: Net, b: Net) {
    && b.unsent == a.unsent
    && (b.budget < a.budget || (b.budget == a.budget && |b.replies| < |a.replies|))
  }

  lemma WholeHeader(file: seq<Byte>, n: Net)
    requires Sound(file, n) && n.rest == [] && MissingBytes(n.head) == 0
    ensures n.queue != [] && n.head == Decodable(n.queue[0])
  {
    Unsealed(file, n);
    HeadIsWhole(file, n);
  }

  lemma MayReadHeader(file: seq<Byte>, n: Net)
    requires Sound(file, n) && n.rest == []
    ensures n.MayReceive(MissingBytes(n.head))
  {
    Unsealed(file, n);
    MissingBytesExact(file, n);
  }

  /** The input of an operation, which no step changes. */
  ghost predicate SameOperation(a: Operation, b: Operation) {
    && b.kind == a.kind && b.bufferSize == a.bufferSize && b.attributes == a.attributes
    && b.seekType == a.seekType && b.offset == a.offset && b.seqNr == a.seqNr
  }

  /** The request of an operation, with number `id`. */
  function RequestFor(op: Operation, id: nat): Request {
    match op.kind
    case ReadOp => Request(READ, id, op.bufferSize % TWO_32, 0, [])
    case SeekOp =>
      Request(if op.seekType.SeekEnd? then SEEK_END else SEEK_SET, id,
              OffsetBits(op.offset) % TWO_32, OffsetBits(op.offset) / TWO_32, [])
    case QueryOp => Request(QUERY_INFO, id, 0, 0, op.attributes)
    case CloseOp => Request(CLOSE, id, 0, 0, [])
  }

  /** The requests begun since `a`; sealed: the verifier looks inside only where `Mark` is mentioned. */
  ghost predicate Recorded(a: seq<Request>, b: seq<Request>, q: Request, supplied: bool, cancelled: bool) {
    forall k: nat {:trigger Mark(q, k)} :: Mark(q, k) ==> b == a + if supplied then [] else Requests(q, cancelled)
  }

  lemma OpenRecorded(a: seq<Request>, b: seq<Request>, q: Request, supplied: bool, cancelled: bool)
    requires Recorded(a, b, q, supplied, cancelled)
    ensures b == a + if supplied then [] else Requests(q, cancelled)
  {
    assert Mark(q, 0);
  }

  lemma RecordAdded(a: seq<Request>, b: seq<Request>, q: Request, supplied: bool, cancelled: bool)
    requires Recorded(a, b, q, supplied, cancelled)
    ensures a <= b && Asked(Added(a, b), q)
    ensures |Added(a, b)| == if supplied then 0 else if cancelled then 2 else 1
  {
    OpenRecorded(a, b, q, supplied, cancelled);
    assert a + [] == a;
    RequestsAdded(a, q, cancelled);
  }

  lemma RecordBegins(a: seq<Request>, b: seq<Request>, q: Request, supplied: bool)
    requires b == if supplied then a else a + [q]
    ensures Recorded(a, b, q, supplied, false)
  {
    assert a + [] == a;
  }

  lemma Uncancelled(number: UInt32, sent: bool, history: seq<Request>)
    ensures MayCancel(number, sent, sent, history, history)
  {
  }

  lemma RecordGoesOn(a: seq<Request>, b: seq<Request>, b': seq<Request>, q: Request, supplied: bool, number: UInt32,
                     sent: bool, sent': bool)
    requires Recorded(a, b, q, supplied, sent) && MayCancel(number, sent, sent', b, b') && q.id == |a| + 1
    requires if supplied then sent' == sent else number == q.id % TWO_32
    ensures Recorded(a, b', q, supplied, sent')
  {
    OpenRecorded(a, b, q, supplied, sent);
    OpenCancels(number, sent, sent', b, b');
    CancelAdded(a, q);
  }

  /** Between two histories the machine begins a CANCEL that carries the number, or does not. */
  ghost predicate Cancels(number: UInt32, sent: bool, sent': bool, history: seq<Request>, history': seq<Request>) {
    if sent' && !sent then history' == history + [Request(CANCEL, |history| + 1, number, 0, [])]
    else sent' == sent && history' == history
  }

  /** `Cancels`, sealed. */
  ghost predicate MayCancel(number: UInt32, sent: bool, sent': bool, history: seq<Request>, history': seq<Request>) {
    forall k: nat {:trigger Mark(sent, k)} :: Mark(sent, k) ==> Cancels(number, sent, sent', history, history')
  }

  lemma OpenCancels(number: UInt32, sent: bool, sent': bool, history: seq<Request>, history': seq<Request>)
    requires MayCancel(number, sent, sent', history, history')
    ensures Cancels(number, sent, sent', history, history')
  {
    assert Mark(sent, 0);
  }

  /** The connection is the same but for what the client has decoded. */
  ghost predicate SameTransit(a: Net, b: Net) {
    b == a.(head := b.head, rest := b.rest, queue := b.queue, front := b.front)
  }

  /** A relative seek is resolved against the current offset before it is sent. */
  function Resolved(op: Operation, tell: int): Operation {
    if op.kind.SeekOp? && op.seekType.SeekCur? then op.(offset := tell + op.offset) else op
  }

  predicate InBlockState(state: OpState) {
    state.SkipBlock? || state.ReadBlock?
  }

  /** Less is left to send or to receive, or a read of nothing is over. */
  ghost predicate Nearer(a: Net, b: Net, nothing: bool, nothing': bool) {
    || |b.unsent| < |a.unsent|
    || (|b.unsent| == |a.unsent|
        && (b.budget < a.budget
            || (b.budget == a.budget
                && (|b.replies| < |a.replies| || (|b.replies| == |a.replies| && nothing && !nothing')))))
  }

  function Rank(state: OpState): nat {
    match state
    case Init => 4
    case WroteRequest => 3
    case SkipBlock => 3
    case ReadBlock => 3
    case HandleInput => 2
    case HandleInputBlock => 1
    case HandleHeader => 1
  }
}
