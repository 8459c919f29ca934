/** A file handle of the FUSE daemon: it keeps one stream on its file and a cached copy of
    that stream's position, and reopens the file to change direction or to go back. */
module FuseHandles {
  import opened Sequences
  import opened Wire
  import opened FileContents

  const EIO := 5
  const ENOTSUP := 95

  const PAD_BLOCK_SIZE: nat := 65536

  /** The file after a stream that stands at a place has written data. */
  function Landed(mode: Mode, content: seq<Byte>, at: nat, data: seq<Byte>): seq<Byte> {
    if mode.Append? then content + data else Overwrite(content, at, data)
  }

  function WithZeros(mode: Mode, content: seq<Byte>, at: nat, n: nat): seq<Byte> {
    Landed(mode, content, at, Zeros(n))
  }

  /** Where padding starts: at the end, but where the stream stands if the cached position is the end. */
  function PadAt(content: seq<Byte>, pos: nat, at: nat): nat {
    if |content| == pos then at else |content|
  }

  /** With the right position padding is what was asked for. */
  lemma PadsToSize(file: File, content: seq<Byte>, newSize: nat, mode: Mode, pos: nat)
    ensures file.Truncated(content, newSize, mode, pos, pos) ==
            if file.canTruncate || newSize == 0 || file.Pads(content, newSize) then Resize(content, newSize)
            else content
  {
    if file.Pads(content, newSize) {
      ZerosAtEnd(mode, content, |content|, newSize - |content|);
    }
  }

  /** Zeros written block by block are zeros written at once. */
  lemma MoreZeros(mode: Mode, content: seq<Byte>, at: nat, written: nat, block: nat, n: nat)
    requires n <= block
    ensures WithZeros(mode, content, at, written + n) ==
            Landed(mode, WithZeros(mode, content, at, written), at + written, Zeros(block)[..n])
  {
    assert Zeros(block)[..n] == Zeros(n);
    if mode.Append? {
      assert (content + Zeros(written)) + Zeros(n) == content + Zeros(written + n);
    } else if n > 0 {
      OverwriteMore(content, at, written, n);
    }
  }

  /** `WithZeros`, sealed: the verifier looks inside only where `Mark` is mentioned. */
  ghost predicate ZerosTo(content: seq<Byte>, mode: Mode, was: seq<Byte>, at: nat, n: nat) {
    forall k: nat {:trigger Mark(was, k)} :: Mark(was, k) ==> content == WithZeros(mode, was, at, n)
  }

  lemma OpenZeros(content: seq<Byte>, mode: Mode, was: seq<Byte>, at: nat, n: nat)
    requires ZerosTo(content, mode, was, at, n)
    ensures content == WithZeros(mode, was, at, n)
  {
    assert Mark(was, 0);
  }

  lemma NoZeros(mode: Mode, content: seq<Byte>, at: nat)
    ensures ZerosTo(content, mode, content, at, 0)
  {
    assert content + Zeros(0) == content;
  }

  lemma OverwriteMore(content: seq<Byte>, at: nat, n: nat, block: nat)
    requires block > 0
    ensures Overwrite(content, at, Zeros(n + block)) ==
      Overwrite(Overwrite(content, at, Zeros(n)), at + n, Zeros(block))
  {
    var a, b := Overwrite(content, at, Zeros(n + block)),
        Overwrite(Overwrite(content, at, Zeros(n)), at + n, Zeros(block));
    assert |a| == |b|;
    forall i | 0 <= i < |a| ensures a[i] == b[i] {
      OverwriteAt(content, at, Zeros(n + block), i);
      OverwriteAt(Overwrite(content, at, Zeros(n)), at + n, Zeros(block), i);
      if i < |Overwrite(content, at, Zeros(n))| {
        OverwriteAt(content, at, Zeros(n), i);
      }
    }
  }

  /** Zeros at the end, or appended, make the file longer. */
  lemma ZerosAtEnd(mode: Mode, content: seq<Byte>, at: nat, n: nat)
    requires mode.Append? || at == |content|
    ensures WithZeros(mode, content, at, n) == content + Zeros(n) == Resize(content, |content| + n)
  {
    assert content + Zeros(0) == content;
  }

  /** An error number as a result. */
  function Failure(errno: nat): (r: int)
    ensures r <= 0 && (r == 0 <==> errno == 0)
  {
    -(errno as int)
  }

  /** A C int made from a wider count. */
  function ToInt(n: int): (r: int)
    ensures -0x8000_0000 <= r < 0x8000_0000 && (-0x8000_0000 <= n < 0x8000_0000 <==> r == n)
  {
    (n + 0x8000_0000) % 0x1_0000_0000 - 0x8000_0000
  }

  /** A file on a mount whose streams can seek and truncate, or cannot. */
  class File {
    const canSeek: bool
    const canTruncate: bool
    var content: seq<Byte>
    // How many calls on the file and its streams have failed or, for a skip, come up short
    ghost var faults: nat

    /** A call may fail at any time. */
    method Attempt() returns (errno: nat)
      modifies this`faults
      ensures faults == old(faults) + if errno != 0 then 1 else 0
    {
      errno := *;
      if errno != 0 {
        faults := faults + 1;
      }
    }

    method Fault()
      modifies this`faults
      ensures faults == old(faults) + 1
    {
      faults := faults + 1;
    }

    /** The case in which a truncation pads. */
    predicate Pads(content: seq<Byte>, newSize: nat) {
      !canTruncate && canSeek && |content| < newSize
    }

    /** What a truncation that succeeds leaves, with the cached position and the stream's. */
    function Truncated(content: seq<Byte>, newSize: nat, mode: Mode, pos: nat, at: nat): seq<Byte> {
      if canTruncate || newSize == 0 then Resize(content, newSize)
      else if Pads(content, newSize) then WithZeros(mode, content, PadAt(content, pos, at), newSize - |content|)
      else content
    }
  }

  // ---------- Streams ----------

  datatype Mode = Input | Edit | Append

  /** A GIO stream. A failed seek may leave an input stream further on: gvfs's own drops what it
      has read ahead. A failed skip may have read some of the bytes. */
  class Stream {
    const file: File
    const mode: Mode
    var pos: nat

    constructor (file: File, mode: Mode, pos: nat)
      ensures this.file == file && this.mode == mode && this.pos == pos
    {
      this.file, this.mode, this.pos := file, mode, pos;
    }

    method Seek(offset: nat) returns (errno: nat)
      modifies this`pos, file`faults
      ensures file.faults == old(file.faults) + if errno != 0 then 1 else 0
      ensures errno == 0 ==> pos == offset
      ensures errno != 0 ==> old(pos) <= pos && (!mode.Input? ==> pos == old(pos))
    {
      errno := file.Attempt();
      if errno == 0 {
        pos := offset;
      } else if mode.Input? {
        var dropped: nat := *;
        if dropped >= 0 {
          pos := pos + dropped;
        }
      }
    }

    /** The number of bytes skipped, or -1 with an error. */
    method Skip(count: nat) returns (n: int, errno: nat)
      modifies this`pos, file`faults
      ensures file.faults == old(file.faults) + if n < count then 1 else 0
      ensures -1 <= n <= count && (n == -1 <==> errno != 0)
      ensures if n == -1 then old(pos) <= pos <= old(pos) + count else pos == old(pos) + n
    {
      errno := file.Attempt();
      n := *;
      if n < 0 || n > count || pos + n > |file.content| {
        n := 0;
      }
      pos := pos + n;
      if errno != 0 {
        n := -1;
      } else if n < count {
        file.Fault();
      }
    }

    /** Reads until the buffer is full, the end of the file or an error. */
    method ReadAll(size: nat) returns (data: seq<Byte>, errno: nat)
      modifies this`pos, file`faults
      ensures file.faults == old(file.faults) + if errno != 0 then 1 else 0
      ensures |data| <= size && pos == old(pos) + |data| && data == Slice(file.content, old(pos), |data|)
      ensures errno == 0 ==> data == Slice(file.content, old(pos), size)
    {
      var all := Slice(file.content, pos, size);
      errno := file.Attempt();
      var n: int := *;
      if errno == 0 || n < 0 || n > |all| {
        n := |all|;
      }
      data := all[..n];
      pos := pos + |data|;
    }

    method Truncate(size: nat) returns (errno: nat)
      modifies file`content, file`faults
      ensures file.faults == old(file.faults) + if errno != 0 then 1 else 0
      ensures file.content == if errno == 0 then Resize(old(file.content), size) else old(file.content)
    {
      errno := file.Attempt();
      if errno == 0 {
        file.content := Resize(file.content, size);
      }
    }

    method Flush() returns (errno: nat)
      modifies file`faults
      ensures file.faults == old(file.faults) + if errno != 0 then 1 else 0
    {
      errno := file.Attempt();
    }

    method WriteAll(data: seq<Byte>) returns (n: nat, errno: nat)
      modifies this`pos, file`content, file`faults
      ensures file.faults == old(file.faults) + if errno != 0 then 1 else 0
      ensures n <= |data| && (errno == 0 ==> n == |data|) && pos == old(pos) + n
      ensures file.content == Landed(mode, old(file.content), old(pos), data[..n])
    {
      errno := file.Attempt();
      var written: int := *;
      n := if errno == 0 || written < 0 || written > |data| then |data| else written;
      file.content := Landed(mode, file.content, pos, data[..n]);
      pos := pos + n;
    }
  }

  // ---------- The handle ----------

  /** The bytes of a skip that a C int does not count. */
  function Uncounted(n: nat): (r: nat)
    ensures r == 0 <==> n < 0x8000_0000
  {
    n - if ToInt(n) > 0 then ToInt(n) else 0
  }

  datatype Op = NoOp | ReadOp | WriteOp

  datatype Flags = Flags(write: bool, append: bool, trunc: bool)

  class FileHandle {
    const file: File
    var op: Op
    var stream: Stream?
    var pos: nat
    var size: int

    /** The stream is one on the handle's file, in the direction that `op` tells. */
    predicate Held()
      reads this, stream
    {
      stream != null ==> stream.file == file && op == if stream.mode.Input? then ReadOp else WriteOp
    }

    predicate Reading()
      reads this
    {
      stream != null && op == ReadOp
    }

    predicate Writing()
      reads this
    {
      stream != null && op == WriteOp
    }

    /** The cached position is the stream's. */
    predicate InSync()
      reads this, stream
    {
      Held() && (stream != null ==> pos == stream.pos)
    }

    /** How far the stream is beyond the cached position. */
    function Drift(): int
      reads this, stream
    {
      if stream == null then 0 else stream.pos - pos
    }

    constructor (file: File)
      ensures this.file == file && stream == null && InSync()
    {
      this.file, op, stream, pos, size := file, NoOp, null, 0, -1;
    }

    method CloseStream()
      requires Held()
      modifies this
      ensures InSync() && stream == null && pos == old(pos)
    {
      if stream != null {
        stream, op, size := null, NoOp, -1;
      }
    }

    /** An open stream is kept if it reads; otherwise the file is opened at its start. */
    method SetupInputStream() returns (result: int)
      requires Held()
      modifies this, file`faults
      ensures file.faults == old(file.faults) + if result < 0 then 1 else 0
      ensures old(Reading()) ==> result == 0
      ensures Held() && result <= 0 && (result == 0 <==> stream != null) && (stream != null ==> op == ReadOp)
      ensures stream == null || stream == old(stream) || fresh(stream)
      ensures old(Reading()) ==> stream == old(stream) && pos == old(pos)
      ensures !old(Reading()) && result == 0 ==> fresh(stream) && pos == stream.pos == 0
    {
      var errno: nat := 0;
      if stream != null && op != ReadOp {
        stream, size := null, -1;
      }
      if stream == null {
        errno := file.Attempt();
        if errno == 0 {
          stream := new Stream(file, Input, 0);
        }
        pos := 0;
      }
      op := if stream != null then ReadOp else NoOp;
      result := Failure(errno);
    }

    /** An open stream is kept if it writes; otherwise the file is replaced, or opened for
        appending or for editing. */
    method SetupOutputStream(flags: Flags) returns (result: int)
      requires Held()
      modifies this, file
      ensures file.faults == old(file.faults) + if result < 0 then 1 else 0
      ensures old(Writing()) ==> result == 0
      ensures Held() && result <= 0 && (result == 0 <==> stream != null) && (stream != null ==> op == WriteOp)
      ensures stream == null || stream == old(stream) || fresh(stream)
      ensures old(Writing()) ==> stream == old(stream) && pos == old(pos)
      ensures !old(Writing()) && result == 0 ==>
        fresh(stream) && stream.mode == (if flags.append && !flags.trunc then Append else Edit) && pos == stream.pos
      ensures file.content == if !old(Writing()) && flags.trunc && result == 0 then [] else old(file.content)
    {
      var errno: nat := 0;
      if stream != null && op != WriteOp {
        stream := null;
      }
      if stream == null {
        errno := file.Attempt();
        var start: nat := *;
        if flags.trunc {
          size := 0;
        }
        if errno == 0 {
          if flags.trunc {
            file.content := [];
          }
          stream := new Stream(file, if flags.append && !flags.trunc then Append else Edit, start);
          pos := stream.pos;
        }
      }
      op := if stream != null then WriteOp else NoOp;
      result := Failure(errno);
    }

    method Open(flags: Flags) returns (result: int)
      requires Held()
      modifies this, file
      ensures file.faults == old(file.faults) + if result < 0 then 1 else 0
      ensures Held() && result <= 0 && (result == 0 <==> stream != null)
      ensures stream == null || stream == old(stream) || fresh(stream)
      ensures file.content ==
        if flags.write && flags.trunc && !old(Writing()) && result == 0 then [] else old(file.content)
      ensures !flags.write && stream != null ==> op == ReadOp
      ensures old(if flags.write then Writing() else Reading()) ==> stream == old(stream) && pos == old(pos)
      ensures !old(if flags.write then Writing() else Reading()) ==>
        InSync() && (!flags.write && result == 0 ==> pos == 0)
      ensures flags.write && !old(Writing()) && stream != null ==>
        stream.mode == if flags.append && !flags.trunc then Append else Edit
    {
      if flags.write {
        result := SetupOutputStream(flags);
      } else {
        result := SetupInputStream();
      }
    }

    method Release()
      requires Held()
      modifies this
      ensures InSync() && stream == null
    {
      CloseStream();
    }

    /** Brings the stream to the offset, as the cached position tells it. Bytes that the stream
        moves and the cached position does not: `lost` by a seek or a skip that failed, and those
        of `skipped` that a C int does not count. */
    method MoveTo(offset: nat) returns (result: int, ghost skipped: nat, ghost lost: nat, ghost placed: bool)
      requires Held() && Reading()
      modifies this`pos, stream`pos, file`faults
      ensures file.faults >= old(file.faults)
      ensures result < 0 ==>
        || file.faults > old(file.faults) || skipped >= 0x8000_0000
        || (result == -ENOTSUP && !file.canSeek && offset < old(pos))
      ensures Held() && result <= 0 && (result == 0 ==> pos == offset)
      ensures Drift() == (if placed then 0 else old(Drift())) + lost + Uncounted(skipped)
      ensures skipped + lost > 0 ==> !placed && offset != old(pos)
      ensures skipped <= (if file.canSeek || offset <= old(pos) then 0 else offset - old(pos))
      ensures !file.canSeek ==> lost <= if offset <= old(pos) then 0 else offset - old(pos)
      ensures skipped >= 0x8000_0000 ==> result == -EIO && lost == 0
      ensures lost > 0 ==> result < 0 && skipped == 0
      ensures placed ==> result == 0 && offset != old(pos)
      ensures result == 0 && file.canSeek && offset != old(pos) ==> placed
      ensures !file.canSeek ==> !placed
      ensures !file.canSeek && offset < old(pos) ==> result == -ENOTSUP && pos == old(pos)
    {
      skipped, lost, placed := 0, 0, false;
      if offset == pos {
        return 0, 0, 0, false;
      }
      if file.canSeek {
        var errno := stream.Seek(offset);
        if errno == 0 {
          pos := offset;
        }
        placed, lost := errno == 0, if errno == 0 then 0 else stream.pos - old(stream.pos);
        result := Failure(errno);
        return;
      }
      if offset < pos {
        return -ENOTSUP, 0, 0, false;
      }
      var n, errno := stream.Skip(offset - pos);
      skipped, lost := if n == -1 then 0 else n, if n == -1 then stream.pos - old(stream.pos) else 0;
      var bytesSkipped := ToInt(n);
      if bytesSkipped > 0 {
        pos := pos + bytesSkipped;
      }
      result := if offset == pos then 0 else if errno != 0 then Failure(errno) else -EIO;
    }

    /** A result that is not negative is the number of bytes read where the stream stands, which is
        the offset if the cached position was right. */
    method ReadStream(length: nat, offset: nat)
      returns (result: int, data: seq<Byte>, ghost skipped: nat, ghost lost: nat, ghost placed: bool)
      requires Held() && Reading() && length < 0x8000_0000
      modifies this`pos, stream`pos, file`faults
      ensures file.faults >= old(file.faults)
      ensures result < 0 ==>
        || file.faults > old(file.faults) || skipped >= 0x8000_0000
        || (result == -ENOTSUP && !file.canSeek && offset < old(pos) && pos == old(pos))
      ensures Held()
      ensures Drift() == (if placed then 0 else old(Drift())) + lost + Uncounted(skipped)
      ensures old(InSync()) ==> (InSync() <==> skipped < 0x8000_0000 && lost == 0)
      ensures skipped <= (if file.canSeek || offset <= old(pos) then 0 else offset - old(pos))
      ensures !file.canSeek ==> lost <= if offset <= old(pos) then 0 else offset - old(pos)
      ensures result >= 0 ==>
        && result == |data| && pos == offset + |data| && |data| <= stream.pos
        && data == Slice(file.content, stream.pos - |data|, length)
        && (placed <==> file.canSeek && offset != old(pos)) && (!file.canSeek ==> old(pos) <= offset)
      ensures skipped >= 0x8000_0000 ==> result == -EIO && lost == 0
      ensures lost > 0 ==> result < 0 && skipped == 0
    {
      data := [];
      result, skipped, lost, placed := MoveTo(offset);
      if result == 0 {
        var errno: nat;
        data, errno := stream.ReadAll(length);
        pos := pos + |data|;
        result := if errno != 0 then Failure(errno) else |data|;
      }
    }

    /** A read on a stream that can neither seek nor skip backwards opens the file again. The read
        fails if it leaves the stream further on than it was before, seen from the cached position. */
    method Read(length: nat, offset: nat)
      returns (result: int, data: seq<Byte>, ghost skipped: nat, ghost lost: nat, ghost placed: bool)
      requires Held() && length < 0x8000_0000
      modifies this, stream, file`faults
      ensures file.faults >= old(file.faults)
      ensures result < 0 ==> file.faults > old(file.faults) || skipped >= 0x8000_0000
      ensures Held() && !Writing()
      ensures stream != null ==> Drift() == (if placed then 0 else old(Drift())) + lost + Uncounted(skipped)
      ensures old(InSync()) ==> (InSync() <==> skipped < 0x8000_0000 && lost == 0)
      ensures skipped <= if file.canSeek then 0 else offset
      ensures !file.canSeek ==> lost <= offset
      ensures stream == null || stream == old(stream) || fresh(stream)
      ensures stream != null && !placed ==> old(Reading()) && stream == old(stream)
      ensures result >= 0 ==>
        && stream != null && result == |data| && pos == offset + |data| && |data| <= stream.pos
        && data == Slice(file.content, stream.pos - |data|, length)
      ensures result >= 0 && !placed ==> if file.canSeek then offset == old(pos) else old(pos) <= offset
      ensures skipped >= 0x8000_0000 ==> result == -EIO && lost == 0
      ensures lost > 0 ==> result < 0 && skipped == 0
      ensures stream == null ==> lost == skipped == 0
    {
      data, skipped, lost, placed := [], 0, 0, !Reading();
      result := SetupInputStream();
      if result == 0 {
        ghost var sought;
        result, data, skipped, lost, sought := ReadStream(length, offset);
        placed := placed || sought;
        if result == -ENOTSUP && offset < pos {
          CloseStream();
          skipped, lost, placed := 0, 0, true;
          result := SetupInputStream();
          if result == 0 {
            result, data, skipped, lost, sought := ReadStream(length, offset);
          }
        }
      }
    }

    /** Without the append flag the stream is brought to the offset first, unless the cached
        position says that it is there. Then the data goes where the stream writes: at the end
        only if the stream was opened for appending. */
    method WriteStream(isAppend: bool, data: seq<Byte>, offset: nat)
        returns (result: int, ghost n: nat, ghost placed: bool)
      requires Held() && Writing() && |data| < 0x8000_0000
      modifies this`pos, this`size, stream`pos, file
      ensures file.faults >= old(file.faults)
      ensures result < 0 ==>
        || file.faults > old(file.faults)
        || (!isAppend && !file.canSeek && offset != old(pos) && pos == old(pos) && n == 0)
      ensures Held() && n <= |data| && (result >= 0 ==> result == n == |data|)
      ensures Drift() == if placed then 0 else old(Drift())
      ensures old(InSync()) ==> InSync()
      ensures placed ==> file.canSeek && !isAppend && offset != old(pos)
      ensures n > 0 || result >= 0 ==>
        pos == (if isAppend then old(pos) else offset) + n && (placed <==> !isAppend && offset != old(pos))
      ensures file.content ==
        Landed(stream.mode, old(file.content),
               if isAppend || offset == old(pos) then old(stream.pos) else offset, data[..n])
      ensures size == if old(size) != -1 && pos > old(size) then pos else old(size)
    {
      result, n, placed := 0, 0, false;
      if !isAppend && offset != pos {
        if file.canSeek {
          var errno := stream.Seek(offset);
          if errno == 0 {
            pos := offset;
          }
          placed := errno == 0;
          result := Failure(errno);
        } else {
          result := -ENOTSUP;
        }
      }
      if result == 0 {
        var written, errno := stream.WriteAll(data);
        n := written;
        pos := pos + written;
        var flushErrno := stream.Flush();
        result := if errno != 0 then Failure(errno) else if flushErrno != 0 then Failure(flushErrno) else written;
      }
      if size != -1 && pos > size {
        size := pos;
      }
    }

    method Write(data: seq<Byte>, offset: nat, append: bool) returns (result: int, ghost n: nat, ghost placed: bool)
      requires Held() && |data| < 0x8000_0000
      modifies this, stream, file
      ensures file.faults >= old(file.faults)
      ensures result < 0 ==>
        || file.faults > old(file.faults)
        || (!append && !file.canSeek && stream != null && offset != pos && n == 0
            && (old(Writing()) ==> pos == old(pos)))
      ensures Held() && n <= |data| && (result >= 0 ==> stream != null && result == n == |data|)
      ensures stream == null || stream == old(stream) || fresh(stream)
      ensures stream == null ==> n == 0
      ensures old(Writing()) ==> stream == old(stream)
      ensures !old(Writing()) && stream != null ==> stream.mode == if append then Append else Edit
      ensures Drift() == if !old(Writing()) || placed then 0 else old(Drift())
      ensures file.content ==
              Landed(if stream == null then Edit else stream.mode, old(file.content),
                     if old(Writing()) && (append || offset == old(pos)) then old(stream.pos) else offset, data[..n])
      ensures result >= 0 && (!append || old(Writing())) ==> pos == (if append then old(pos) else offset) + n
      ensures result >= 0 && old(Writing()) ==> (placed <==> !append && offset != old(pos))
    {
      n, placed := 0, false;
      result := SetupOutputStream(Flags(true, append, false));
      if result == 0 {
        result, n, placed := WriteStream(append, data, offset);
      }
    }

    // ---------- Creation and truncation ----------

    /** The handle keeps the position of whatever it held before: the cached position is right
        exactly when that was 0. */
    method Create() returns (result: int)
      requires Held()
      modifies this, file
      ensures file.faults == old(file.faults) + if result < 0 then 1 else 0
      ensures Held() && result <= 0 && (stream == null || stream == old(stream) || fresh(stream))
      ensures pos == old(pos)
      ensures result == 0 ==> Writing() && stream.mode.Edit? && stream.pos == 0 && file.content == []
      ensures result == 0 ==> (InSync() <==> old(pos) == 0)
      ensures result < 0 ==> stream == old(stream) && file.content == old(file.content)
    {
      var errno := file.Attempt();
      if errno != 0 {
        return Failure(errno);
      }
      CloseStream();
      file.content := [];
      stream := new Stream(file, Edit, 0);
      size, op := 0, WriteOp;
      result := 0;
    }

    /** Writes zeros at the end, block by block; if the cached position is there and the stream is
        not, they go where the stream stands. */
    method PadFile(num: nat, current: nat) returns (result: int, ghost n: nat)
      requires Held() && Writing() && current == |file.content|
      modifies this`pos, this`size, stream`pos, file
      ensures Held() && result <= 0 && file.faults >= old(file.faults)
      ensures file.canSeek && result < 0 ==> file.faults > old(file.faults)
      ensures Drift() == 0 || Drift() == old(Drift())
      ensures n <= num && (result == 0 ==> n == num)
      ensures ZerosTo(file.content, stream.mode, old(file.content),
                      PadAt(old(file.content), old(pos), old(stream.pos)), n)
      ensures result == 0 && num > 0 ==> pos == current + num
    {
      var written := 0;
      result, n := 0, 0;
      ghost var was, at := file.content, PadAt(file.content, pos, stream.pos);
      NoZeros(stream.mode, was, at);
      while written < num
        invariant written <= num && Held() && Writing() && ZerosTo(file.content, stream.mode, was, at, written)
        invariant result >= 0 && n == written && file.faults >= old(file.faults)
        invariant if written > 0 then pos == current + written && stream.pos == at + written
                  else pos == old(pos) && stream.pos == old(stream.pos)
      {
        var block := Min(num - written, PAD_BLOCK_SIZE);
        ghost var k;
        result, k := PadBlock(was, at, written, block, current);
        n := written + k;
        if result < 0 {
          return;
        }
        written := written + block;
      }
      result := 0;
    }

    /** One block of zeros. */
    method PadBlock(ghost was: seq<Byte>, ghost at: nat, written: nat, block: nat, current: nat)
        returns (result: int, ghost n: nat)
      requires Held() && Writing() && ZerosTo(file.content, stream.mode, was, at, written)
        && 0 < block <= PAD_BLOCK_SIZE
      requires if pos == current + written then stream.pos == at + written else written == 0 && at == current
      modifies this`pos, this`size, stream`pos, file
      ensures Held() && n <= block && (result >= 0 ==> n == block) && file.faults >= old(file.faults)
      ensures file.canSeek && result < 0 ==> file.faults > old(file.faults)
      ensures ZerosTo(file.content, stream.mode, was, at, written + n)
      ensures Drift() == 0 || Drift() == old(Drift())
      ensures result >= 0 ==> pos == current + written + block && stream.pos == at + written + block
    {
      ghost var placed;
      OpenZeros(file.content, stream.mode, was, at, written);
      result, n, placed := WriteStream(false, Zeros(block), current + written);
      MoreZeros(stream.mode, was, at, written, block, n);
    }

    /** A success means the file has the size asked for exactly in the cases named here; to
        make a file smaller without help from the stream is reported as done and not tried.
        After padding, the stream goes back and the cached position does not. */
    method TruncateStream(newSize: nat) returns (result: int)
      requires Held() && Writing()
      modifies this, stream, file
      ensures Held() && result <= 0 && (stream == null || stream == old(stream))
      ensures file.faults >= old(file.faults) && (result < 0 ==> file.faults > old(file.faults))
      ensures old(InSync()) ==>
        (InSync() <==> (result == 0 && file.Pads(old(file.content), newSize) ==> old(pos) == newSize))
      ensures result == 0 && file.Pads(old(file.content), newSize) ==>
        stream != null && pos == newSize && stream.pos == old(stream.pos)
      ensures !file.Pads(old(file.content), newSize) && stream != null ==>
        pos == old(pos) && stream.pos == old(stream.pos)
      ensures result < 0 ==> Drift() == 0 || Drift() == old(Drift())
      ensures newSize > 0 ==> stream == old(stream)
      ensures if result == 0
        then file.content == file.Truncated(old(file.content), newSize, old(stream.mode), old(pos), old(stream.pos))
              else old(InSync()) ==> old(file.content) <= file.content
    {
      var errno: nat := 0;
      result := 0;
      if file.canTruncate {
        errno := stream.Truncate(newSize);
      } else if newSize == 0 {
        stream := null;
        errno := file.Attempt();
        if errno == 0 {
          file.content := [];
        }
      } else {
        var unknown := file.Attempt();
        if unknown != 0 {
          return -ENOTSUP;
        }
        if |file.content| < newSize && file.canSeek {
          result, errno := Pad(newSize);
        }
      }
      if errno != 0 {
        result := Failure(errno);
      }
      if result == 0 && size != -1 {
        size := newSize;
      }
    }

    /** The file is padded to the size, then the stream goes back to where it was. */
    method Pad(newSize: nat) returns (result: int, errno: nat)
      requires Held() && Writing() && |file.content| < newSize
      modifies this`pos, this`size, stream`pos, file
      ensures Held() && result <= 0 && (old(InSync()) ==> old(file.content) <= file.content)
      ensures file.faults >= old(file.faults)
      ensures file.canSeek && (result < 0 || errno != 0) ==> file.faults > old(file.faults)
      ensures result == 0 && errno == 0 ==>
        && file.content == WithZeros(stream.mode, old(file.content),
                                     PadAt(old(file.content), old(pos), old(stream.pos)), newSize - |old(file.content)|)
        && pos == newSize && stream.pos == old(stream.pos)
      ensures result < 0 || errno != 0 ==> Drift() == 0 || Drift() == old(Drift())
    {
      errno := 0;
      var original := stream.pos;
      ghost var was, at := file.content, PadAt(file.content, pos, stream.pos);
      ghost var n;
      result, n := PadFile(newSize - |file.content|, |file.content|);
      OpenZeros(file.content, stream.mode, was, at, n);
      if stream.mode.Append? || at == |was| {
        ZerosAtEnd(stream.mode, was, at, n);
      }
      if result == 0 {
        errno := stream.Seek(original);
      }
    }

    /** The same behind the setup of the stream. After padding, the cached position is the new
        size, and right exactly when the stream stands there too. */
    method Ftruncate(newSize: nat, append: bool) returns (result: int)
      requires Held()
      modifies this, stream, file
      ensures Held() && result <= 0 && (stream == null || stream == old(stream) || fresh(stream))
      ensures file.faults >= old(file.faults) && (result < 0 ==> file.faults > old(file.faults))
      ensures if result == 0
              then file.content ==
                   if old(Writing())
                   then file.Truncated(old(file.content), newSize, old(stream.mode), old(pos), old(stream.pos))
                   else file.Truncated(old(file.content), newSize, if append then Append else Edit, 0, 0)
              else old(InSync()) || !old(Writing()) ==> old(file.content) <= file.content
      ensures result == 0 && file.Pads(old(file.content), newSize) ==>
        && stream != null && pos == newSize && (InSync() <==> stream.pos == newSize)
        && (old(Writing()) ==> stream == old(stream) && stream.pos == old(stream.pos))
      ensures !(result == 0 && file.Pads(old(file.content), newSize)) ==>
        Drift() == 0 || (old(Writing()) && Drift() == old(Drift()))
      ensures old(Writing()) ==> stream == null || stream == old(stream)
      ensures !old(Writing()) && stream != null ==> stream.mode == if append then Append else Edit
    {
      result := SetupOutputStream(Flags(true, append, false));
      if result == 0 {
        result := TruncateStream(newSize);
      }
    }
  }

  // ---------- Runs ----------

  datatype Call =
    | OpenCall(flags: Flags)
    | ReadCall(length: nat, offset: nat)
    | WriteCall(data: seq<Byte>, offset: nat, append: bool)
    | CreateCall
    | TruncateCall(size: nat, append: bool)
    | ReleaseCall

  /** The stream that a handle holds, and where it stands. */
  datatype Holding = Nothing | Holds(mode: Mode, at: nat)
  {
    predicate Writes() {
      Holds? && !mode.Input?
    }

    predicate Reads() {
      Holds? && mode.Input?
    }
  }

  /** The file, the stream, the cached position, and how many calls on the file have failed. */
  datatype State = State(content: seq<Byte>, held: Holding, pos: nat, faults: nat)
  {
    /** How far the stream is beyond the cached position. */
    function Drift(): int {
      if held.Nothing? then 0 else held.at - pos
    }

    /** The cached position is the stream's. */
    predicate Right() {
      Drift() == 0
    }
  }

  ghost function StateOf(h: FileHandle): State
    reads h, h.stream, h.file
  {
    State(h.file.content, if h.stream == null then Nothing else Holds(h.stream.mode, h.stream.pos),
          h.pos, h.file.faults)
  }

  /** What a call did: its result, the state before and after it, and for a read the data. Of the
      bytes that the stream moved, `skipped` are those of a skip that succeeded, `lost` those of a
      seek or a skip that failed. `placed` says that a seek took place or a stream was opened. */
  datatype Event = Event(call: Call, result: int, data: seq<Byte>, skipped: nat, lost: nat, placed: bool, before: State,
                         after: State)
  {
    /** A call on the file has failed. */
    predicate Failed() {
      before.faults < after.faults
    }
  }

  /** The call writes on the stream that was held for writing, or on a new one. */
  predicate WritesOn(a: State, b: State, mode: Mode) {
    b.held.Holds? ==> b.held.mode == if a.held.Writes() then a.held.mode else mode
  }

  /** What every call does, whether or not the cached position is right. A read that succeeds gives
      the bytes where the stream stands, which is the drift beyond the asked offset. A write puts
      its data at the end if the stream was opened for appending, at the asked offset if the stream
      was brought there, and where the stream stands if the call appends or the cached position is
      the offset. Only an open and a create empty the file. */
  ghost predicate Honest(e: Event, file: File) {
    && e.before.faults <= e.after.faults
    && (e.result < 0 ==> e.Failed() || Excused(e, file))
    && Done(e, file)
  }

  /** Without a call on the file that failed, a read fails if it skips more than a C int can count, and
      a write if it is not at the cached position of a stream that cannot seek; nothing else does. */
  predicate Excused(e: Event, file: File) {
    match e.call
    case ReadCall(_, _) => e.skipped >= 0x8000_0000
    case WriteCall(_, offset, append) =>
      && !append && !file.canSeek && e.after.held.Holds? && offset != e.after.pos
      && (e.before.held.Writes() ==> e.after.pos == e.before.pos) && e.after.content == e.before.content
    case _ => false
  }

  ghost predicate Done(e: Event, file: File) {
    match e.call
    case OpenCall(flags) => Opened(e, flags)
    case ReadCall(length, offset) => HasRead(e, file, length, offset)
    case WriteCall(data, offset, append) =>
      && WritesOn(e.before, e.after, if append then Append else Edit)
      && (e.before.held.Writes() ==> e.after.held.Writes())
      && exists n: nat :: Stored(e, data, offset, append, n)
    case CreateCall =>
      if e.result < 0 then e.after == e.before.(faults := e.after.faults)
      else e.result == 0 && e.after == State([], Holds(Edit, 0), e.before.pos, e.after.faults)
    case TruncateCall(size, append) => HasTruncated(e, file, size, append)
    case ReleaseCall => e.after.content == e.before.content && e.after.held == Nothing
  }

  ghost predicate Opened(e: Event, flags: Flags) {
    var a, b := e.before, e.after;
    && e.result <= 0 && (e.result == 0 <==> b.held.Holds?)
    && b.content == (if flags.write && flags.trunc && !a.held.Writes() && e.result == 0 then [] else a.content)
    && if if flags.write then a.held.Writes() else a.held.Reads() then b.held == a.held && b.pos == a.pos
       else
         && b.Right()
         && (if flags.write then WritesOn(a, b, if flags.append && !flags.trunc then Append else Edit)
             else b.held.Holds? ==> b.held == Holds(Input, 0))
  }

  ghost predicate HasRead(e: Event, file: File, length: nat, offset: nat) {
    var a, b := e.before, e.after;
    && b.content == a.content && !b.held.Writes()
    && (b.held.Holds? ==> b.Drift() == (if e.placed then 0 else a.Drift()) + e.lost + Uncounted(e.skipped))
    && (b.held.Nothing? ==> e.lost == e.skipped == 0)
    && e.skipped <= (if file.canSeek then 0 else offset) && (!file.canSeek ==> e.lost <= offset)
    && (e.lost > 0 || e.skipped >= 0x8000_0000 ==> e.result < 0) && (e.lost > 0 ==> e.skipped == 0)
    && (b.held.Holds? && !e.placed ==> a.held.Reads())
    && (e.result >= 0 ==>
          && b.held.Holds? && e.result == |e.data| && b.pos == offset + |e.data| && |e.data| <= b.held.at
          && e.data == Slice(a.content, b.held.at - |e.data|, length)
          && (!e.placed ==> if file.canSeek then offset == a.pos else a.pos <= offset))
  }

  ghost predicate Stored(e: Event, data: seq<Byte>, offset: nat, append: bool, n: nat) {
    var a, b := e.before, e.after;
    var stays := a.held.Writes() && (append || offset == a.pos);
    && n <= |data| && (e.result >= 0 ==> e.result == n == |data| && b.held.Holds?)
    && b.content == Landed(if b.held.Holds? then b.held.mode else Edit, a.content,
                           if stays then a.held.at else offset, data[..n])
    && b.Drift() == (if !a.held.Writes() || e.placed then 0 else a.Drift())
    && (e.result >= 0 && a.held.Writes() ==> (e.placed <==> !stays))
    && (e.result >= 0 && (!append || a.held.Writes()) ==> b.pos == (if append then a.pos else offset) + n)
  }

  ghost predicate HasTruncated(e: Event, file: File, size: nat, append: bool) {
    var a, b := e.before, e.after;
    var mode := if a.held.Writes() then a.held.mode else if append then Append else Edit;
    && e.result <= 0 && WritesOn(a, b, mode)
    && (if e.result < 0 then a.Right() || !a.held.Writes() ==> a.content <= b.content
        else if a.held.Writes() then b.content == file.Truncated(a.content, size, mode, a.pos, a.held.at)
        else b.content == file.Truncated(a.content, size, mode, 0, 0))
    && (if e.result == 0 && file.Pads(a.content, size)
        then b.held.Writes() && b.pos == size && (a.held.Writes() ==> b.held == a.held)
        else b.Drift() == 0 || (a.held.Writes() && b.Drift() == a.Drift()))
  }

  /** The sizes of one request fit a C int. */
  predicate Manageable(call: Call) {
    match call
    case ReadCall(length, _) => length < 0x8000_0000
    case WriteCall(data, _, _) => |data| < 0x8000_0000
    case _ => true
  }

  method StepRead(h: FileHandle, length: nat, offset: nat) returns (result: int, data: seq<Byte>, ghost e: Event)
    requires h.Held() && length < 0x8000_0000
    modifies h, h.stream, h.file`faults
    ensures h.Held() && (h.stream == null || h.stream == old(h.stream) || fresh(h.stream))
    ensures e == Event(ReadCall(length, offset), result, data, e.skipped, e.lost, e.placed, old(StateOf(h)), StateOf(h))
    ensures Honest(e, h.file)
  {
    ghost var skipped, lost, placed;
    result, data, skipped, lost, placed := h.Read(length, offset);
    e := Event(ReadCall(length, offset), result, data, skipped, lost, placed, old(StateOf(h)), StateOf(h));
  }

  method StepWrite(h: FileHandle, bytes: seq<Byte>, offset: nat, append: bool) returns (result: int, ghost e: Event)
    requires h.Held() && |bytes| < 0x8000_0000
    modifies h, h.stream, h.file
    ensures h.Held() && (h.stream == null || h.stream == old(h.stream) || fresh(h.stream))
    ensures e == Event(WriteCall(bytes, offset, append), result, [], 0, 0, e.placed, old(StateOf(h)), StateOf(h))
    ensures Honest(e, h.file)
  {
    ghost var n, placed;
    result, n, placed := h.Write(bytes, offset, append);
    e := Event(WriteCall(bytes, offset, append), result, [], 0, 0, placed, old(StateOf(h)), StateOf(h));
    assert bytes[..0] == [];
    assert Stored(e, bytes, offset, append, n);
  }

  method StepTruncate(h: FileHandle, size: nat, append: bool) returns (result: int, ghost e: Event)
    requires h.Held()
    modifies h, h.stream, h.file
    ensures h.Held() && (h.stream == null || h.stream == old(h.stream) || fresh(h.stream))
    ensures e == Event(TruncateCall(size, append), result, [], 0, 0, false, old(StateOf(h)), StateOf(h))
    ensures Honest(e, h.file)
  {
    result := h.Ftruncate(size, append);
    e := Event(TruncateCall(size, append), result, [], 0, 0, false, old(StateOf(h)), StateOf(h));
  }

  method Step(h: FileHandle, call: Call) returns (result: int, data: seq<Byte>, ghost e: Event)
    requires h.Held() && Manageable(call)
    modifies h, h.stream, h.file
    ensures h.Held() && (h.stream == null || h.stream == old(h.stream) || fresh(h.stream))
    ensures e == Event(call, result, data, e.skipped, e.lost, e.placed, old(StateOf(h)), StateOf(h))
    ensures Honest(e, h.file)
  {
    ghost var before := StateOf(h);
    result, data := 0, [];
    match call {
      case OpenCall(flags) => result := h.Open(flags);
      case ReadCall(length, offset) =>
        result, data, e := StepRead(h, length, offset);
        return;
      case WriteCall(bytes, offset, append) =>
        result, e := StepWrite(h, bytes, offset, append);
        return;
      case CreateCall => result := h.Create();
      case TruncateCall(size, append) =>
        result, e := StepTruncate(h, size, append);
        return;
      case ReleaseCall => h.Release();
    }
    e := Event(call, result, data, 0, 0, false, before, StateOf(h));
  }

  /** Any run of calls, by any mixture of openers of the file, whether or not the cached position
      is right: every call does what `Honest` says, in the state that the one before it left. */
  method Session(h: FileHandle, calls: seq<Call>) returns (ghost log: seq<Event>)
    requires h.Held() && forall i :: 0 <= i < |calls| ==> Manageable(calls[i])
    modifies h, h.stream, h.file
    ensures |log| == |calls| && forall i :: 0 <= i < |log| ==> log[i].call == calls[i]
    ensures h.Held() && Chained(h.file, old(StateOf(h)), log, StateOf(h))
  {
    log := [];
    for i := 0 to |calls|
      invariant h.Held() && (h.stream == null || h.stream == old(h.stream) || fresh(h.stream))
      invariant |log| == i && forall j :: 0 <= j < i ==> log[j].call == calls[j]
      invariant Run(h.file, old(StateOf(h)), log, StateOf(h))
    {
      var result, data;
      ghost var e;
      result, data, e := Step(h, calls[i]);
      Longer(h.file, old(StateOf(h)), log, e);
      log := log + [e];
    }
    OpenRun(h.file, old(StateOf(h)), log, StateOf(h));
  }

  /** `Chained`, sealed: the verifier looks inside only where `Mark` is mentioned. */
  ghost predicate Run(file: File, first: State, log: seq<Event>, last: State) {
    forall k: nat {:trigger Mark(first, k)} :: Mark(first, k) ==> Chained(file, first, log, last)
  }

  lemma OpenRun(file: File, first: State, log: seq<Event>, last: State)
    requires Run(file, first, log, last)
    ensures Chained(file, first, log, last)
  {
    assert Mark(first, 0);
  }

  /** Every call does what it should, in the state that the one before it left. */
  ghost predicate Chained(file: File, first: State, log: seq<Event>, last: State) {
    if log == [] then last == first
    else
      var e := log[|log| - 1];
      Honest(e, file) && e.after == last && Chained(file, first, log[..|log| - 1], e.before)
  }

  lemma Longer(file: File, first: State, log: seq<Event>, e: Event)
    requires Run(file, first, log, e.before) && Honest(e, file)
    ensures Run(file, first, log + [e], e.after)
  {
    OpenRun(file, first, log, e.before);
    assert (log + [e])[..|log|] == log;
  }

  lemma {:induction false} ChainedAt(file: File, first: State, log: seq<Event>, last: State, k: nat)
    requires Chained(file, first, log, last) && k < |log|
    ensures Honest(log[k], file)
    ensures k + 1 < |log| ==> log[k].after == log[k + 1].before
    ensures k == 0 ==> log[k].before == first
  {
    if k + 1 < |log| {
      ChainedAt(file, first, log[..|log| - 1], log[|log| - 1].before, k);
    }
  }

  // ---------- The cached position over a run ----------

  /** The call leaves a right cached position right. */
  predicate Keeps(e: Event, file: File) {
    match e.call
    case ReadCall(_, _) => e.lost == 0 && e.skipped < 0x8000_0000
    case CreateCall => e.result < 0 || e.before.pos == 0
    case TruncateCall(size, _) => e.result == 0 && file.Pads(e.before.content, size) ==>
        e.after.held.Holds? && e.after.held.at == size
    case _ => true
  }

  /** Exactly the calls named by `Keeps` keep a right position right. */
  lemma RightAfter(e: Event, file: File)
    requires Honest(e, file) && e.before.Right()
    ensures e.after.Right() <==> Keeps(e, file)
  {
    if e.call.WriteCall? {
      var n: nat :| Stored(e, e.call.data, e.call.offset, e.call.append, n);
    }
  }

  /** The cached position is right at the end of every run that begins so and keeps it. */
  lemma {:induction false} RightOverRun(file: File, first: State, log: seq<Event>, last: State)
    requires Chained(file, first, log, last) && first.Right()
    requires forall i :: 0 <= i < |log| ==> Keeps(log[i], file)
    ensures last.Right()
  {
    if log != [] {
      var e := log[|log| - 1];
      RightOverRun(file, first, log[..|log| - 1], e.before);
      RightAfter(e, file);
    }
  }

  /** In such a run every read that succeeds gives the bytes at its offset. */
  lemma ReadsAtOffset(file: File, first: State, log: seq<Event>, last: State, k: nat)
    requires Chained(file, first, log, last) && first.Right() && k < |log|
    requires forall i :: 0 <= i < k ==> Keeps(log[i], file)
    requires log[k].call.ReadCall? && log[k].result >= 0
    ensures log[k].data == Slice(log[k].before.content, log[k].call.offset, log[k].call.length)
  {
    RightUpTo(file, first, log, last, k);
    ReadGives(log[k], file);
  }

  /** In such a run every write stores its bytes at its offset, at the end if the stream was opened
      for appending, or where the stream stands if only the call appends. */
  lemma WritesAtOffset(file: File, first: State, log: seq<Event>, last: State, k: nat)
    requires Chained(file, first, log, last) && first.Right() && k < |log|
    requires forall i :: 0 <= i < k ==> Keeps(log[i], file)
    requires log[k].call.WriteCall? && log[k].result >= 0
    ensures var e := log[k]; var a, data := e.before, e.call.data;
      && e.result == |data| && e.after.held.Writes()
      && e.after.content == Landed(e.after.held.mode, a.content, if e.call.append then a.pos else e.call.offset, data)
  {
    RightUpTo(file, first, log, last, k);
    WriteLands(log[k], file);
  }

  lemma {:induction false} RightUpTo(file: File, first: State, log: seq<Event>, last: State, k: nat)
    requires Chained(file, first, log, last) && first.Right() && k < |log|
    requires forall i :: 0 <= i < k ==> Keeps(log[i], file)
    ensures log[k].before.Right() && Honest(log[k], file)
  {
    var n := |log| - 1;
    if k < n {
      RightUpTo(file, first, log[..n], log[n].before, k);
    } else {
      RightOverRun(file, first, log[..n], log[n].before);
    }
  }

  /** Without a failure of the file a read that skips fewer than 2^31 bytes succeeds, whatever the
      stream can do, and so does a write where the stream stands or on a stream that can seek. */
  lemma Succeeds(e: Event, file: File)
    requires Honest(e, file) && !e.Failed() && e.before.Right()
    ensures e.call.ReadCall? && e.skipped < 0x8000_0000 ==>
      e.result >= 0 && e.data == Slice(e.before.content, e.call.offset, e.call.length)
    ensures
      e.call.WriteCall? && (e.call.append || file.canSeek || (e.before.held.Writes() && e.call.offset == e.before.pos))
      ==> e.result == |e.call.data|
    ensures e.call.OpenCall? || e.call.CreateCall? || e.call.TruncateCall? ==> e.result == 0
  {
    if e.call.ReadCall? && e.skipped < 0x8000_0000 {
      ReadGives(e, file);
    } else if e.call.WriteCall? {
      var n: nat :| Stored(e, e.call.data, e.call.offset, e.call.append, n);
    }
  }

  /** A seek or a skip that failed having moved the stream: the read fails, and a read after it at
      the cached position, where no seek takes place, succeeds with bytes from further on. */
  lemma ReadsFurtherOn(file: File, first: State, log: seq<Event>, last: State, k: nat)
    requires Chained(file, first, log, last) && k + 1 < |log| && log[k].before.Right()
    requires log[k].call.ReadCall? && log[k].lost > 0
    requires log[k + 1].call.ReadCall? && log[k + 1].call.offset == log[k].after.pos && log[k + 1].result >= 0
      && !log[k + 1].placed
    ensures log[k].result < 0
    ensures var e := log[k + 1]; e.data == Slice(e.before.content, e.call.offset + log[k].lost, e.call.length)
  {
    ChainedAt(file, first, log, last, k);
    ChainedAt(file, first, log, last, k + 1);
    LostRead(log[k], log[k + 1], file);
  }

  lemma LostRead(r: Event, e: Event, file: File)
    requires Honest(r, file) && Honest(e, file) && r.after == e.before && r.before.Right()
    requires r.call.ReadCall? && r.lost > 0
    requires e.call.ReadCall? && e.call.offset == r.after.pos && e.result >= 0 && !e.placed
    ensures r.result < 0 && e.data == Slice(e.before.content, e.call.offset + r.lost, e.call.length)
  {
  }

  /** In every run, a successful read right after a successful write at the same offset, on a
      stream that was not opened for appending, gives back what was written. */
  lemma ReadBack(file: File, first: State, log: seq<Event>, last: State, k: nat)
    requires Chained(file, first, log, last) && k + 1 < |log|
    requires log[k].call.WriteCall? && (log[k].before.Right() || log[k].call.offset != log[k].before.pos)
    requires log[k].result > 0 && log[k].after.held.Holds? && log[k].after.held.mode.Edit? && !log[k].call.append
    requires log[k + 1].call == ReadCall(|log[k].call.data|, log[k].call.offset) && log[k + 1].result >= 0
    ensures log[k + 1].data == log[k].call.data
  {
    ChainedAt(file, first, log, last, k);
    ChainedAt(file, first, log, last, k + 1);
    WriteLands(log[k], file);
    ReadGives(log[k + 1], file);
    ReadAfterWrite(log[k].before.content, log[k].call.offset, log[k].call.data);
  }

  lemma WriteLands(e: Event, file: File)
    requires Honest(e, file) && e.call.WriteCall? && e.result >= 0
      && (e.before.Right() || (e.call.offset != e.before.pos && !e.call.append))
    ensures e.result == |e.call.data| && e.after.held.Writes()
    ensures e.after.content ==
      Landed(e.after.held.mode, e.before.content, if e.call.append then e.before.pos else e.call.offset, e.call.data)
  {
    var n: nat :| Stored(e, e.call.data, e.call.offset, e.call.append, n);
    assert e.call.data[..n] == e.call.data;
  }

  lemma ReadGives(e: Event, file: File)
    requires Honest(e, file) && e.call.ReadCall? && e.result >= 0 && (e.before.Right() || e.before.held.Writes())
    ensures e.data == Slice(e.before.content, e.call.offset, e.call.length)
  {
  }
}
