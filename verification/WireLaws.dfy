/** The bytes themselves: the order of the bytes of a number, of the words of a message and of the
    parts of an attribute. */
module WireLaws {
  import opened Sequences
  import opened Wire
  import opened FileInfos

  /** The number that four bytes stand for, the most significant one first. */
  function Four(s: seq<Byte>): nat
    requires |s| == 4
  {
    var a: int, b: int, c: int, d: int := s[0], s[1], s[2], s[3];
    a * 0x100_0000 + b * 0x1_0000 + c * 0x100 + d
  }

  function Two(s: seq<Byte>): nat
    requires |s| == 2
  {
    var a: int, b: int := s[0], s[1];
    a * 0x100 + b
  }

  function Eight(s: seq<Byte>): nat
    requires |s| == 8
  {
    Four(s[..4]) * 0x1_0000_0000 + Four(s[4..])
  }

  /** The bytes of a number stand for it, and no other four bytes do. */
  lemma WordBytes(n: UInt32, s: seq<Byte>)
    requires |s| == 4
    ensures s == PutWord(n) <==> Four(s) == n
  {
    WordRoundTrip(n);
    WordIs(s);
    var a: int, b: int, c: int, d: int := s[0], s[1], s[2], s[3];
    assert GetWord(s) == a * 0x100_0000 + b * 0x1_0000 + c * 0x100 + d;
  }

  /** Four bytes are those of the number they are read as. */
  lemma WordIs(s: seq<Byte>)
    requires |s| == 4
    ensures PutWord(GetWord(s)) == s
  {
    var a: int, b: int, c: int, d: int := s[0], s[1], s[2], s[3];
    LastByte((a * 0x100 + b) * 0x100 + c, d);
    LastByte(a * 0x100 + b, c);
    LastByte(a, b);
  }

  lemma LastByte(q: int, r: int)
    requires 0 <= r < 0x100
    ensures (q * 0x100 + r) / 0x100 == q && (q * 0x100 + r) % 0x100 == r
  {
  }

  lemma ShortBytes(n: nat, s: seq<Byte>)
    requires n < 0x1_0000 && |s| == 2
    ensures s == PutShort(n) <==> Two(s) == n
  {
    var a: int, b: int := s[0], s[1];
    LastByte(a, b);
    assert s == [a, b];
  }

  lemma LongBytes(n: nat, s: seq<Byte>)
    requires n < 0x1_0000_0000_0000_0000 && |s| == 8
    ensures s == PutLong(n) <==> Eight(s) == n
  {
    var high, low := s[..4], s[4..];
    WordBytes(n / TWO_32, high);
    WordBytes(n % TWO_32, low);
    assert s == high + low;
    HighLow(n, Four(high), Four(low));
    if s == PutLong(n) {
      assert high == PutWord(n / TWO_32) && low == PutWord(n % TWO_32);
    }
  }

  lemma HighLow(n: nat, x: int, y: int)
    requires 0 <= y < TWO_32
    ensures x * TWO_32 + y == n <==> x == n / TWO_32 && y == n % TWO_32
  {
  }

  /** The command of a request, the kind of a reply: the first four bytes. */
  lemma CommandBytes(q: Request)
    ensures var b := q.Encoded()[..4];
      && (q.command == READ <==> b == [0, 0, 0, 0]) && (q.command == WRITE <==> b == [0, 0, 0, 1])
      && (q.command == CLOSE <==> b == [0, 0, 0, 2]) && (q.command == CANCEL <==> b == [0, 0, 0, 3])
      && (q.command == SEEK_SET <==> b == [0, 0, 0, 4]) && (q.command == SEEK_END <==> b == [0, 0, 0, 5])
      && (q.command == QUERY_INFO <==> b == [0, 0, 0, 6]) && (q.command == TRUNCATE <==> b == [0, 0, 0, 7])
  {
    var b := q.Encoded()[..4];
    assert b == PutWord(q.command);
    WordRoundTrip(q.command);
    SmallWord(0); SmallWord(1); SmallWord(2); SmallWord(3);
    SmallWord(4); SmallWord(5); SmallWord(6); SmallWord(7);
  }

  lemma KindBytes(m: Reply)
    ensures m.Encoded()[..4] == match m
      case Data(_, _, _) => [0, 0, 0, 0]
      case Error(_, _, _, _) => [0, 0, 0, 1]
      case SeekPos(_, _) => [0, 0, 0, 2]
      case Written(_, _) => [0, 0, 0, 3]
      case Closed(_, _) => [0, 0, 0, 4]
      case Info(_, _) => [0, 0, 0, 5]
      case Truncated(_) => [0, 0, 0, 6]
  {
    assert m.Encoded()[..4] == PutWord(m.Kind());
    SmallWord(m.Kind());
  }

  lemma SmallWord(n: UInt32)
    requires n < 0x100
    ensures PutWord(n) == [0, 0, 0, n]
  {
  }

  // ---------- Attributes ----------

  /** The attributes are counted in the first four bytes. */
  lemma CountBytes(info: seq<Attribute>)
    requires AllInRange(info) && |info| < TWO_32
    ensures Four(Marshalled(info)[..4]) == |info| && Marshalled(info)[4..] == PutAttributes(info)
  {
    Counted(|info|, PutAttributes(info));
  }

  lemma Counted(n: nat, attributes: seq<Byte>)
    requires n < TWO_32
    ensures var s := PutWord(n % TWO_32) + attributes; Four(s[..4]) == n && s[4..] == attributes
  {
    var w := PutWord(n % TWO_32);
    WordBytes(n, w);
    assert (w + attributes)[..4] == w;
  }

  /** Each attribute stands behind those before it. */
  lemma {:induction false} InfoBytes(front: seq<Attribute>, a: Attribute, back: seq<Attribute>)
    requires AllInRange(front) && a.value.InRange() && AllInRange(back)
    ensures AllInRange(front + ([a] + back))
    ensures PutAttributes(front + ([a] + back)) == PutAttributes(front) + (PutAttribute(a) + PutAttributes(back))
  {
    if front == [] {
      assert front + ([a] + back) == [a] + back && ([a] + back)[1..] == back;
    } else {
      InfoBytes(front[1..], a, back);
      MoreInfo(front, [a] + back);
      Associative(PutAttribute(front[0]), PutAttributes(front[1..]), PutAttribute(a) + PutAttributes(back));
    }
  }

  lemma MoreInfo(front: seq<Attribute>, back: seq<Attribute>)
    requires front != [] && AllInRange(front) && AllInRange(front[1..] + back)
    ensures AllInRange(front + back)
    ensures PutAttributes(front + back) == PutAttribute(front[0]) + PutAttributes(front[1..] + back)
  {
    var info := front + back;
    assert info[1..] == front[1..] + back && info[0] == front[0];
    forall i | 0 <= i < |info| ensures info[i].value.InRange() {
      if i > 0 {
        assert info[i] == info[1..][i - 1];
      }
    }
  }

  /** The bytes of an attribute: the length of its name, its name, the type of its value, its status, its value. */
  lemma AttributeBytes(a: Attribute)
    requires a.value.InRange() && |a.name| < 0x1_0000
    ensures var s, n := PutAttribute(a), |a.name|;
      && |s| >= n + 4 && Two(s[..2]) == n && s[2..2 + n] == a.name
      && s[2 + n] == TypeByte(a.value) && s[3 + n] == a.status && s[4 + n..] == PutValue(a.value)
  {
    var n := |a.name|;
    ShortBytes(n, PutShort(n));
    assert PutAttribute(a) == PutShort(n) + (a.name + ([a.value.Kind(), a.status] + PutValue(a.value)));
  }

  /** GFileAttributeType */
  function TypeByte(v: Value): Byte {
    if v.Invalid? then 0 else if v.String? then 1 else if v.ByteString? then 2 else if v.Boolean? then 3
    else if v.Uint32? then 4 else if v.Int32? then 5 else if v.Uint64? then 6 else if v.Int64? then 7
    else if v.StringList? then 9 else 8
  }

  /** The bytes of a number; a negative one stands above the others, by two's complement. */
  lemma NumberBytes(v: Value, s: seq<Byte>)
    requires v.InRange()
    ensures v.Uint32? && |s| == 4 ==> (s == PutValue(v) <==> Four(s) == v.n)
    ensures v.Int32? && |s| == 4 ==> (s == PutValue(v) <==> Four(s) == if v.i < 0 then 0x1_0000_0000 + v.i else v.i)
    ensures v.Uint64? && |s| == 8 ==> (s == PutValue(v) <==> Eight(s) == v.n)
    ensures v.Int64? && |s| == 8 ==>
      (s == PutValue(v) <==> Eight(s) == if v.i < 0 then 0x1_0000_0000_0000_0000 + v.i else v.i)
  {
    match v
    case Uint32(n) => if |s| == 4 { WordBytes(n, s); }
    case Int32(i) => if |s| == 4 { WordBytes(Unsigned(i, TWO_32), s); }
    case Uint64(n) => if |s| == 8 { LongBytes(n, s); }
    case Int64(i) => if |s| == 8 { LongBytes(Unsigned(i, 0x1_0000_0000_0000_0000), s); }
    case _ =>
  }

  /** The bytes of the other values: a string behind its length, a list behind its number of strings,
      an object behind a byte that says whether there is one. */
  lemma OtherBytes(v: Value)
    requires Carried(v) || v.OtherObject?
    ensures v.Boolean? ==> PutValue(v) == [if v.b then 1 else 0]
    ensures v.String? || v.ByteString? ==>
      PutValue(v) == [|v.text| / 0x100, |v.text| % 0x100] + v.text
    ensures v.Icon? ==> PutValue(v) == [1, |v.name| / 0x100, |v.name| % 0x100] + v.name
    ensures v.OtherObject? ==> PutValue(v) == [0]
    ensures v.StringList? ==> PutValue(v) == [|v.texts| / 0x100, |v.texts| % 0x100] + PutStrings(v.texts)
  {
    if v.Icon? {
      assert PutValue(v) == [1] + ([|v.name| / 0x100, |v.name| % 0x100] + v.name);
    } else if v.StringList? {
      ShrunkIs(v);
    }
  }

  // ---------- Bytes that were not written so ----------

  /** Reading ends at an attribute of unknown type and at an object that is not there. */
  lemma UnknownEnds(n: nat, name: Bytes, kind: Byte, status: Byte, rest: seq<Byte>, info: seq<Attribute>)
    requires kind > 9 || (kind == 8 && (rest == [] || rest[0] != 1))
    ensures ReadAttributes(n, PutString(name) + ([kind] + ([status] + rest)), info) == info
  {
    if n > 0 {
      StringBack(name, [kind] + ([status] + rest));
      UnknownKind(Fitted(name), kind, status, rest);
    }
  }

  lemma UnknownKind(name: Bytes, kind: Byte, status: Byte, rest: seq<Byte>)
    requires kind > 9 || (kind == 8 && (rest == [] || rest[0] != 1))
    ensures AfterName(name, ReadByte([kind] + ([status] + rest))).value.None?
  {
    OneByte(kind, [status] + rest);
    OneByte(status, rest);
  }

  /** A string of which bytes are missing is what is there; a number of which bytes are missing is 0. */
  lemma MissingReads(text: Bytes, n: nat, s: seq<Byte>)
    requires |text| <= n < 0x1_0000
    ensures ReadString(PutShort(n) + text) == Read(text, [])
    ensures |s| < 4 ==> ReadWord(s) == Read(0, s)
    ensures |s| < 8 ==> ReadLong(s) == Read(0, s)
  {
    ShortBack(n, text);
    assert text[..|text|] == text;
  }
}
