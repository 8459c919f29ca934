/** The byte layout of the socket protocol between a client stream and its
    daemon channel: requests are five big-endian 32-bit words followed by
    data, replies are four words followed by a body. */
module Wire {
  import opened Sequences

  const TWO_32: int := 0x1_0000_0000
  const REQUEST_SIZE: int := 20
  const REPLY_SIZE: int := 16

  type Byte = b: int | 0 <= b < 0x100
  type UInt32 = n: int | 0 <= n < 0x1_0000_0000

  // ---------- Words ----------

  function PutWord(n: UInt32): (s: seq<Byte>)
    ensures |s| == 4
  {
    [n / 0x100 / 0x100 / 0x100, n / 0x100 / 0x100 % 0x100, n / 0x100 % 0x100, n % 0x100]
  }

  function GetWord(s: seq<Byte>): UInt32
    requires |s| == 4
  {
    var a: int, b: int, c: int, d: int := s[0], s[1], s[2], s[3];
    ((a * 0x100 + b) * 0x100 + c) * 0x100 + d
  }

  lemma WordRoundTrip(n: UInt32)
    ensures GetWord(PutWord(n)) == n
  {
  }

  /** The i-th 32-bit word of a buffer. */
  function Word(s: seq<Byte>, i: nat): UInt32
    requires 4 * i + 4 <= |s|
  {
    GetWord(s[4 * i..4 * i + 4])
  }

  /** A word can be read back from any buffer it is part of. */
  lemma WordAt(s: seq<Byte>, i: nat, n: UInt32, before: seq<Byte>, after: seq<Byte>)
    requires |before| == 4 * i && s == before + (PutWord(n) + after)
    ensures Word(s, i) == n
  {
    assert s[4 * i..4 * i + 4] == PutWord(n);
    WordRoundTrip(n);
  }

  /** The words of a buffer depend only on the bytes they cover. */
  lemma WordOfPrefix(s: seq<Byte>, t: seq<Byte>, i: nat)
    requires 4 * i + 4 <= |s| && s <= t
    ensures Word(s, i) == Word(t, i)
  {
    assert s[4 * i..4 * i + 4] == t[4 * i..4 * i + 4];
  }

  // ---------- Requests ----------

  const READ: UInt32 := 0
  const WRITE: UInt32 := 1
  const CLOSE: UInt32 := 2
  const CANCEL: UInt32 := 3
  const SEEK_SET: UInt32 := 4
  const SEEK_END: UInt32 := 5
  const QUERY_INFO: UInt32 := 6
  const TRUNCATE: UInt32 := 7

  /** A request; `id` is its unbounded ordinal, of which the wire carries 32 bits. */
  datatype Request = Request(command: UInt32, id: nat, arg1: UInt32, arg2: UInt32, data: seq<Byte>)
  {
    predicate IsSeek() {
      command == SEEK_SET || command == SEEK_END
    }

    function Header(): (s: seq<Byte>)
      ensures |s| == REQUEST_SIZE
    {
      PutWord(command) + (PutWord(id % TWO_32) + (PutWord(arg1) + (PutWord(arg2) + PutWord(|data| % TWO_32))))
    }

    function Encoded(): (s: seq<Byte>)
      ensures |s| == REQUEST_SIZE + |data|
    {
      Header() + data
    }
  }

  ghost function EncodeRequests(rs: seq<Request>): seq<Byte> {
    if rs == [] then [] else EncodeRequests(rs[..|rs| - 1]) + rs[|rs| - 1].Encoded()
  }

  // ---------- Offsets ----------

  /** The client's 64-bit offset as the two words of a seek request, and back. */
  function OffsetBits(offset: int): (u: int)
    ensures 0 <= u < 0x1_0000_0000_0000_0000
  {
    offset % 0x1_0000_0000_0000_0000
  }

  function SignedOffset(arg1: UInt32, arg2: UInt32): int {
    var u: int := arg1 + arg2 * TWO_32;
    if u < 0x8000_0000_0000_0000 then u else u - 0x1_0000_0000_0000_0000
  }

  predicate IsInt64(n: int) {
    -0x8000_0000_0000_0000 <= n < 0x8000_0000_0000_0000
  }

  lemma OffsetRoundTrip(offset: int)
    requires IsInt64(offset)
    ensures SignedOffset(OffsetBits(offset) % TWO_32, OffsetBits(offset) / TWO_32) == offset
  {
    var u := OffsetBits(offset);
    assert u == (u / TWO_32) * TWO_32 + u % TWO_32;
    assert u == if offset >= 0 then offset else offset + 0x1_0000_0000_0000_0000;
  }

  /** The absolute position a seek request asks for. */
  function SeekTarget(file: seq<Byte>, q: Request): int {
    SignedOffset(q.arg1, q.arg2) + if q.command == SEEK_END then |file| else 0
  }

  // ---------- Replies ----------

  const REPLY_DATA: UInt32 := 0
  const REPLY_ERROR: UInt32 := 1
  const REPLY_SEEK_POS: UInt32 := 2
  const REPLY_WRITTEN: UInt32 := 3
  const REPLY_CLOSED: UInt32 := 4
  const REPLY_INFO: UInt32 := 5
  const REPLY_TRUNCATED: UInt32 := 6

  /** A reply; `id` is the ordinal of the request it answers (0 for a readahead
      block). `ofSeek` is not on the wire: it records that the refused request
      was a seek, and that the daemon counted it. */
  datatype Reply =
    | Data(id: nat, gen: UInt32, body: seq<Byte>)
    | Error(id: nat, code: UInt32, body: seq<Byte>, ofSeek: bool)
    | SeekPos(id: nat, pos: nat)
    | Written(id: nat, count: UInt32)
    | Closed(id: nat, body: seq<Byte>)
    | Info(id: nat, body: seq<Byte>)
    | Truncated(id: nat)
  {
    function Kind(): UInt32 {
      match this
      case Data(_, _, _) => REPLY_DATA
      case Error(_, _, _, _) => REPLY_ERROR
      case SeekPos(_, _) => REPLY_SEEK_POS
      case Written(_, _) => REPLY_WRITTEN
      case Closed(_, _) => REPLY_CLOSED
      case Info(_, _) => REPLY_INFO
      case Truncated(_) => REPLY_TRUNCATED
    }

    function Body(): seq<Byte> {
      if Data? || Error? || Closed? || Info? then body else []
    }

    /** Lengths and positions fit their words: what a daemon really sends. */
    predicate Sendable() {
      && (SeekPos? ==> pos < 0x8000_0000_0000_0000)
      && |Body()| < (if Data? then TWO_32 else TWO_32 - REPLY_SIZE)
    }

    function Arg1(): UInt32 {
      match this
      case Data(_, _, body) => |body| % TWO_32
      case Error(_, code, _, _) => code
      case SeekPos(_, pos) => pos % TWO_32
      case Written(_, count) => count
      case _ => 0
    }

    function Arg2(): UInt32 {
      match this
      case Data(_, gen, _) => gen
      case Error(_, _, body, _) => |body| % TWO_32
      case SeekPos(_, pos) => pos / TWO_32 % TWO_32
      case Closed(_, body) => |body| % TWO_32
      case Info(_, body) => |body| % TWO_32
      case _ => 0
    }

    function Header(): (s: seq<Byte>)
      ensures |s| == REPLY_SIZE
    {
      PutWord(Kind()) + (PutWord(id % TWO_32) + (PutWord(Arg1()) + PutWord(Arg2())))
    }

    function Encoded(): (s: seq<Byte>)
      ensures |s| == REPLY_SIZE + |Body()|
    {
      Header() + Body()
    }

    /** A reply to a seek request, positive or negative. */
    predicate OfSeek() {
      SeekPos? || (Error? && ofSeek)
    }
  }

  ghost function EncodeReplies(q: seq<Reply>): seq<Byte> {
    if q == [] then [] else q[0].Encoded() + EncodeReplies(q[1..])
  }

  lemma {:induction false} EncodeRepliesAppend(q: seq<Reply>, m: Reply)
    ensures EncodeReplies(q + [m]) == EncodeReplies(q) + m.Encoded()
  {
    if q == [] {
      assert [m][1..] == [];
    } else {
      EncodeRepliesAppend(q[1..], m);
      assert (q + [m])[1..] == q[1..] + [m];
      Associative(q[0].Encoded(), EncodeReplies(q[1..]), m.Encoded());
    }
  }

  lemma DropPrefix(h: seq<Byte>, t: seq<Byte>, r: seq<Byte>, e: seq<Byte>)
    requires h + t == (h + r) + e
    ensures t == r + e
  {
    assert t == (h + t)[|h|..];
    assert r + e == ((h + r) + e)[|h|..];
  }

  /** The words of a reply can be read back from any buffer that starts with it. */
  lemma ReplyWords(m: Reply, tail: seq<Byte>)
    ensures var s := m.Header() + tail;
            Word(s, 0) == m.Kind() && Word(s, 1) == m.id % TWO_32 &&
            Word(s, 2) == m.Arg1() && Word(s, 3) == m.Arg2()
  {
    var s := m.Header() + tail;
    var a, b, c, d := PutWord(m.Kind()), PutWord(m.id % TWO_32), PutWord(m.Arg1()), PutWord(m.Arg2());
    assert m.Header() == a + (b + (c + d));
    FourWords(s, a, b, c, d, tail);
    WordAt(s, 0, m.Kind(), [], b + (c + (d + tail)));
    WordAt(s, 1, m.id % TWO_32, a, c + (d + tail));
    WordAt(s, 2, m.Arg1(), a + b, d + tail);
    WordAt(s, 3, m.Arg2(), (a + b) + c, tail);
  }

  lemma FourWords(s: seq<Byte>, a: seq<Byte>, b: seq<Byte>, c: seq<Byte>, d: seq<Byte>, tail: seq<Byte>)
    requires s == (a + (b + (c + d))) + tail
    ensures s == [] + (a + (b + (c + (d + tail))))
    ensures s == a + (b + (c + (d + tail)))
    ensures s == (a + b) + (c + (d + tail))
    ensures s == ((a + b) + c) + (d + tail)
  {
  }

  /** Two ordinals less than 2^32 apart that agree on the wire are the same. */
  lemma SameOrdinal(a: nat, b: nat)
    requires a <= b < a + TWO_32 && a % TWO_32 == b % TWO_32
    ensures a == b
  {
  }
}
