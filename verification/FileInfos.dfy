/** File attributes as they travel between daemon and client: a count, then for each
    attribute its name, type, status and value, big-endian, strings with 16-bit lengths. */
module FileInfos {
  import opened Sequences
  import opened Wire
  import opened Text

  // ---------- Attributes ----------

  /** The bytes of a string. */
  type Bytes = seq<Byte>

  datatype Value =
    | Invalid
    | String(text: Bytes)
    | ByteString(text: Bytes)
    | Boolean(b: bool)
    | Uint32(n: nat)
    | Int32(i: int)
    | Uint64(n: nat)
    | Int64(i: int)
    | Icon(name: Bytes)          // an object that prints as this string
    | OtherObject                // no object, or one that cannot be printed
    | StringList(texts: seq<Bytes>)
  {
    predicate InRange() {
      match this
      case Uint32(n) => n < TWO_32
      case Int32(i) => -0x8000_0000 <= i < 0x8000_0000
      case Uint64(n) => n < 0x1_0000_0000_0000_0000
      case Int64(i) => IsInt64(i)
      case _ => true
    }

    function Kind(): Byte {
      match this
      case Invalid => 0
      case String(_) => 1
      case ByteString(_) => 2
      case Boolean(_) => 3
      case Uint32(_) => 4
      case Int32(_) => 5
      case Uint64(_) => 6
      case Int64(_) => 7
      case Icon(_) => 8
      case OtherObject => 8
      case StringList(_) => 9
    }
  }

  datatype Attribute = Attribute(name: Bytes, value: Value, status: Byte)

  /** Sets an attribute of an info, at its place if it is there already. */
  function Put(info: seq<Attribute>, a: Attribute): seq<Attribute> {
    if info == [] then [a]
    else if info[0].name == a.name then [a] + info[1..]
    else [info[0]] + Put(info[1..], a)
  }

  // ---------- Writers ----------

  const MAX_LENGTH: nat := 0xFFFF

  function PutShort(n: nat): (s: seq<Byte>)
    requires n < 0x1_0000
    ensures |s| == 2
  {
    [n / 0x100, n % 0x100]
  }

  /** What a string too long for its length field is written as. */
  function Fitted(text: Bytes): Bytes {
    if |text| > MAX_LENGTH then [] else text
  }

  function PutString(text: Bytes): seq<Byte> {
    PutShort(|Fitted(text)|) + Fitted(text)
  }

  function PutStrings(texts: seq<Bytes>): seq<Byte> {
    if texts == [] then [] else PutStrings(texts[..|texts| - 1]) + PutString(texts[|texts| - 1])
  }

  function FittedList(texts: seq<Bytes>): seq<Bytes> {
    if |texts| > MAX_LENGTH then [] else seq(|texts|, i requires 0 <= i < |texts| => Fitted(texts[i]))
  }

  function PutStringList(texts: seq<Bytes>): seq<Byte> {
    PutShort(|FittedList(texts)|) + PutStrings(FittedList(texts))
  }

  function PutLong(n: nat): (s: seq<Byte>)
    requires n < 0x1_0000_0000_0000_0000
    ensures |s| == 8
  {
    PutWord(n / TWO_32) + PutWord(n % TWO_32)
  }

  /** Two's complement. */
  function Unsigned(i: int, modulus: nat): (n: nat)
    requires -(modulus as int) <= i + i < modulus
    ensures n < modulus
  {
    if i < 0 then i + modulus else i
  }

  function PutValue(v: Value): seq<Byte>
    requires v.InRange()
  {
    match v
    case Invalid => []
    case String(text) => PutString(text)
    case ByteString(text) => PutString(text)
    case Boolean(b) => [if b then 1 else 0]
    case Uint32(n) => PutWord(n)
    case Int32(i) => PutWord(Unsigned(i, TWO_32))
    case Uint64(n) => PutLong(n)
    case Int64(i) => PutLong(Unsigned(i, 0x1_0000_0000_0000_0000))
    case Icon(name) => [1] + PutString(name)
    case OtherObject => [0]
    case StringList(texts) => PutStringList(texts)
  }

  function PutAttribute(a: Attribute): seq<Byte>
    requires a.value.InRange()
  {
    PutString(a.name) + ([a.value.Kind(), a.status] + PutValue(a.value))
  }

  ghost predicate AllInRange(info: seq<Attribute>) {
    forall i :: 0 <= i < |info| ==> info[i].value.InRange()
  }

  function PutAttributes(info: seq<Attribute>): seq<Byte>
    requires AllInRange(info)
  {
    if info == [] then [] else PutAttribute(info[0]) + PutAttributes(info[1..])
  }

  // ---------- Readers ----------

  /** What was read, and the bytes after it. At the end of the data a number reads as 0. */
  datatype Read<T> = Read(value: T, rest: seq<Byte>)

  function ReadByte(s: seq<Byte>): Read<Byte> {
    if s == [] then Read(0, s) else Read(s[0], s[1..])
  }

  function ReadShort(s: seq<Byte>): (r: Read<nat>)
    ensures r.value < 0x1_0000 && |r.rest| <= |s|
  {
    if |s| < 2 then Read(0, s)
    else
      var high: int, low: int := s[0], s[1];
      Read(high * 0x100 + low, s[2..])
  }

  function ReadWord(s: seq<Byte>): (r: Read<UInt32>)
    ensures |r.rest| <= |s|
  {
    if |s| < 4 then Read(0, s) else Read(GetWord(s[..4]), s[4..])
  }

  function ReadLong(s: seq<Byte>): (r: Read<nat>)
    ensures |r.rest| <= |s| && r.value < 0x1_0000_0000_0000_0000
  {
    if |s| < 8 then Read(0, s) else Read(GetWord(s[..4]) * TWO_32 + GetWord(s[4..8]), s[8..])
  }

  function ReadString(s: seq<Byte>): (r: Read<Bytes>)
    ensures |r.rest| <= |s|
  {
    var len := ReadShort(s);
    var n := if len.value <= |len.rest| then len.value else |len.rest|;
    Read(len.rest[..n], len.rest[n..])
  }

  function ReadStrings(n: nat, s: seq<Byte>): (r: Read<seq<Bytes>>)
    ensures |r.rest| <= |s|
  {
    if n == 0 then Read([], s)
    else
      var front := ReadStrings(n - 1, s);
      var last := ReadString(front.rest);
      Read(front.value + [last.value], last.rest)
  }

  function ReadStringList(s: seq<Byte>): Read<seq<Bytes>> {
    var len := ReadShort(s);
    ReadStrings(len.value, len.rest)
  }

  function Signed(n: nat, modulus: nat): int {
    if n < modulus / 2 then n else n - modulus
  }

  function Mapped<T>(r: Read<T>, f: T -> Value): Read<Option<Value>> {
    Read(Some(f(r.value)), r.rest)
  }

  /** The value of an attribute; none when its type or its object is not known. */
  function ReadValue(kind: Byte, s: seq<Byte>): Read<Option<Value>> {
    match kind
    case 0 => Read(Some(Invalid), s)
    case 1 => Mapped(ReadString(s), t => String(t))
    case 2 => Mapped(ReadString(s), t => ByteString(t))
    case 3 => Mapped(ReadByte(s), b => Boolean(b != 0))
    case 4 => Mapped(ReadWord(s), n => Uint32(n))
    case 5 => Mapped(ReadWord(s), n => Int32(Signed(n, TWO_32)))
    case 6 => Mapped(ReadLong(s), n => Uint64(n))
    case 7 => Mapped(ReadLong(s), n => Int64(Signed(n, 0x1_0000_0000_0000_0000)))
    case 8 =>
      var tag := ReadByte(s);
      if tag.value == 1 then Mapped(ReadString(tag.rest), t => Icon(t)) else Read(None, tag.rest)
    case 9 => Mapped(ReadStringList(s), ts => StringList(ts))
    case _ => Read(None, s)
  }

  function Complete(name: Bytes, status: Byte, value: Read<Option<Value>>): Read<Option<Attribute>> {
    Read(if value.value.None? then None else Some(Attribute(name, value.value.value, status)), value.rest)
  }

  function AfterKind(name: Bytes, kind: Byte, status: Read<Byte>): Read<Option<Attribute>> {
    Complete(name, status.value, ReadValue(kind, status.rest))
  }

  function AfterName(name: Bytes, kind: Read<Byte>): Read<Option<Attribute>> {
    AfterKind(name, kind.value, ReadByte(kind.rest))
  }

  /** An attribute; none when reading must stop. */
  function ReadAttribute(s: seq<Byte>): Read<Option<Attribute>> {
    var name := ReadString(s);
    AfterName(name.value, ReadByte(name.rest))
  }

  /** An attribute of invalid type is not set. */
  function Taken(info: seq<Attribute>, a: Attribute): seq<Attribute> {
    if a.value.Invalid? then info else Put(info, a)
  }

  function ReadAttributes(n: nat, s: seq<Byte>, info: seq<Attribute>): seq<Attribute>
    decreases n
  {
    if n == 0 then info
    else
      var a := ReadAttribute(s);
      if a.value.None? then info else ReadAttributes(n - 1, a.rest, Taken(info, a.value.value))
  }

  function Counted(count: Read<UInt32>): seq<Attribute> {
    ReadAttributes(count.value, count.rest, [])
  }

  function Demarshalled(data: seq<Byte>): seq<Attribute> {
    Counted(ReadWord(data))
  }

  function Marshalled(info: seq<Attribute>): seq<Byte>
    requires AllInRange(info)
  {
    PutWord(|info| % TWO_32) + PutAttributes(info)
  }

  // ---------- Each reader takes what its writer put ----------

  lemma ShortBack(n: nat, tail: seq<Byte>)
    requires n < 0x1_0000
    ensures ReadShort(PutShort(n) + tail) == Read(n, tail)
  {
  }

  lemma StringBack(text: Bytes, tail: seq<Byte>)
    ensures ReadString(PutString(text) + tail) == Read(Fitted(text), tail)
  {
    var t := Fitted(text);
    ShortBack(|t|, t + tail);
    assert PutString(text) + tail == PutShort(|t|) + (t + tail);
    assert (t + tail)[..|t|] == t && (t + tail)[|t|..] == tail;
  }

  lemma WordBack(n: UInt32, tail: seq<Byte>)
    ensures ReadWord(PutWord(n) + tail) == Read(n, tail)
  {
    WordRoundTrip(n);
    assert (PutWord(n) + tail)[..4] == PutWord(n);
  }

  lemma LongBack(n: nat, tail: seq<Byte>)
    requires n < 0x1_0000_0000_0000_0000
    ensures ReadLong(PutLong(n) + tail) == Read(n, tail)
  {
    var s := PutLong(n) + tail;
    WordRoundTrip(n / TWO_32);
    WordRoundTrip(n % TWO_32);
    assert s[..4] == PutWord(n / TWO_32) && s[4..8] == PutWord(n % TWO_32) && s[8..] == tail;
  }

  lemma {:induction false} StringsBack(texts: seq<Bytes>, tail: seq<Byte>)
    requires forall i :: 0 <= i < |texts| ==> |texts[i]| <= MAX_LENGTH
    ensures ReadStrings(|texts|, PutStrings(texts) + tail) == Read(texts, tail)
  {
    if texts != [] {
      var n := |texts| - 1;
      var last := PutString(texts[n]);
      StringsBack(texts[..n], last + tail);
      StringBack(texts[n], tail);
      Associative(PutStrings(texts[..n]), last, tail);
      MoreStrings(n, texts, PutStrings(texts[..n]) + (last + tail), last + tail, tail);
    }
  }

  lemma MoreStrings(n: nat, texts: seq<Bytes>, s: seq<Byte>, t: seq<Byte>, tail: seq<Byte>)
    requires |texts| == n + 1 && ReadStrings(n, s) == Read(texts[..n], t) && ReadString(t) == Read(texts[n], tail)
    ensures ReadStrings(n + 1, s) == Read(texts, tail)
  {
    assert texts[..n] + [texts[n]] == texts;
  }

  lemma StringListBack(texts: seq<Bytes>, tail: seq<Byte>)
    ensures ReadStringList(PutStringList(texts) + tail) == Read(FittedList(texts), tail)
  {
    var ts := FittedList(texts);
    ShortBack(|ts|, PutStrings(ts) + tail);
    Associative(PutShort(|ts|), PutStrings(ts), tail);
    StringsBack(ts, tail);
  }

  lemma SignedBack(i: int, modulus: nat)
    requires -(modulus as int) <= i + i < modulus && modulus % 2 == 0
    ensures Signed(Unsigned(i, modulus), modulus) == i
  {
  }

  /** What is left of a value: strings and lists that are too long are emptied. */
  function Shrunk(v: Value): Value {
    match v
    case String(text) => String(Fitted(text))
    case ByteString(text) => ByteString(Fitted(text))
    case Icon(name) => Icon(Fitted(name))
    case StringList(texts) => StringList(FittedList(texts))
    case _ => v
  }

  lemma NumberBack(v: Value, tail: seq<Byte>)
    requires v.InRange() && (v.Uint32? || v.Int32? || v.Uint64? || v.Int64?)
    ensures ReadValue(v.Kind(), PutValue(v) + tail) == Read(Some(v), tail)
  {
    match v
    case Uint32(n) => WordBack(n, tail);
    case Int32(i) =>
      SignedBack(i, TWO_32);
      WordBack(Unsigned(i, TWO_32), tail);
    case Uint64(n) => LongBack(n, tail);
    case Int64(i) =>
      SignedBack(i, 0x1_0000_0000_0000_0000);
      LongBack(Unsigned(i, 0x1_0000_0000_0000_0000), tail);
  }

  lemma OneByte(b: Byte, tail: seq<Byte>)
    ensures ReadByte([b] + tail) == Read(b, tail)
  {
    assert ([b] + tail)[1..] == tail;
  }

  lemma SmallBack(v: Value, tail: seq<Byte>)
    requires v.Invalid? || v.Boolean?
    ensures ReadValue(v.Kind(), PutValue(v) + tail) == Read(Some(v), tail)
  {
    if v.Invalid? {
      assert [] + tail == tail;
    } else {
      OneByte(if v.b then 1 else 0, tail);
    }
  }

  lemma TextBack(v: Value, tail: seq<Byte>)
    requires v.String? || v.ByteString? || v.StringList?
    ensures ReadValue(v.Kind(), PutValue(v) + tail) == Read(Some(Shrunk(v)), tail)
  {
    if v.StringList? {
      StringListBack(v.texts, tail);
    } else {
      StringBack(v.text, tail);
    }
  }

  lemma ObjectBack(v: Value, tail: seq<Byte>)
    requires v.Icon? || v.OtherObject?
    ensures ReadValue(v.Kind(), PutValue(v) + tail) == Read(if v.OtherObject? then None else Some(Shrunk(v)), tail)
  {
    if v.Icon? {
      var t := PutString(v.name);
      Associative([1], t, tail);
      OneByte(1, t + tail);
      StringBack(v.name, tail);
    } else {
      OneByte(0, tail);
    }
  }

  lemma ValueBack(v: Value, tail: seq<Byte>)
    requires v.InRange()
    ensures ReadValue(v.Kind(), PutValue(v) + tail) == Read(if v.OtherObject? then None else Some(Shrunk(v)), tail)
  {
    match v
    case Invalid => SmallBack(v, tail);
    case Boolean(_) => SmallBack(v, tail);
    case Icon(_) => ObjectBack(v, tail);
    case OtherObject => ObjectBack(v, tail);
    case String(_) => TextBack(v, tail);
    case ByteString(_) => TextBack(v, tail);
    case StringList(_) => TextBack(v, tail);
    case _ => NumberBack(v, tail);
  }

  function ShrunkAttribute(a: Attribute): Attribute {
    Attribute(Fitted(a.name), Shrunk(a.value), a.status)
  }

  lemma Layout(name: seq<Byte>, kind: Byte, status: Byte, v: seq<Byte>, tail: seq<Byte>)
    ensures (name + ([kind, status] + v)) + tail == name + ([kind] + ([status] + (v + tail)))
  {
  }

  lemma KindBack(a: Attribute, name: Bytes, v: seq<Byte>, tail: seq<Byte>)
    requires ReadValue(a.value.Kind(), v) == Read(if a.value.OtherObject? then None else Some(Shrunk(a.value)), tail)
    ensures AfterName(name, ReadByte([a.value.Kind()] + ([a.status] + v))) ==
            Read(if a.value.OtherObject? then None else Some(Attribute(name, Shrunk(a.value), a.status)), tail)
  {
    OneByte(a.value.Kind(), [a.status] + v);
    OneByte(a.status, v);
  }

  lemma AttributeBack(a: Attribute, tail: seq<Byte>)
    requires a.value.InRange()
    ensures ReadAttribute(PutAttribute(a) + tail) ==
      Read(if a.value.OtherObject? then None else Some(ShrunkAttribute(a)), tail)
  {
    var v := PutValue(a.value) + tail;
    Layout(PutString(a.name), a.value.Kind(), a.status, PutValue(a.value), tail);
    StringBack(a.name, [a.value.Kind()] + ([a.status] + v));
    ValueBack(a.value, tail);
    KindBack(a, Fitted(a.name), v, tail);
  }

  // ---------- The whole info ----------

  /** What comes out of an info that was marshalled and demarshalled: everything from the
      first object that cannot be printed on is lost, attributes of invalid type are left
      out, and what does not fit is emptied. */
  function Survivors(attrs: seq<Attribute>, info: seq<Attribute>): seq<Attribute>
    decreases |attrs|
  {
    if attrs == [] || attrs[0].value.OtherObject? then info
    else Survivors(attrs[1..], Taken(info, ShrunkAttribute(attrs[0])))
  }

  lemma {:induction false} AttributesBack(attrs: seq<Attribute>, info: seq<Attribute>)
    requires AllInRange(attrs)
    ensures ReadAttributes(|attrs|, PutAttributes(attrs), info) == Survivors(attrs, info)
    decreases |attrs|
  {
    if attrs != [] {
      AttributeBack(attrs[0], PutAttributes(attrs[1..]));
      if !attrs[0].value.OtherObject? {
        AttributesBack(attrs[1..], Taken(info, ShrunkAttribute(attrs[0])));
      }
    }
  }

  lemma CountBack(n: nat, attributes: seq<Byte>)
    requires n < TWO_32
    ensures ReadWord(PutWord(n % TWO_32) + attributes) == Read(n, attributes)
  {
    SmallCount(n);
    WordBack(n, attributes);
  }

  lemma SmallCount(n: nat)
    requires n < TWO_32
    ensures n % TWO_32 == n && PutWord(n % TWO_32) == PutWord(n)
  {
  }

  /** Exactly what survives, for every info. */
  lemma InfoBack(info: seq<Attribute>)
    requires AllInRange(info) && |info| < TWO_32
    ensures Demarshalled(Marshalled(info)) == Survivors(info, [])
  {
    AttributesBack(info, []);
    CountBack(|info|, PutAttributes(info));
  }

  // ---------- When an info comes back whole ----------

  /** A value that can be carried. */
  ghost predicate Carried(v: Value) {
    match v
    case Invalid => false
    case OtherObject => false
    case String(text) => |text| <= MAX_LENGTH
    case ByteString(text) => |text| <= MAX_LENGTH
    case Icon(name) => |name| <= MAX_LENGTH
    case StringList(texts) => |texts| <= MAX_LENGTH && forall i :: 0 <= i < |texts| ==> |texts[i]| <= MAX_LENGTH
    case _ => true
  }

  ghost predicate Distinct(info: seq<Attribute>) {
    forall i, j :: 0 <= i < j < |info| ==> info[i].name != info[j].name
  }

  ghost predicate AllCarried(info: seq<Attribute>) {
    forall i :: 0 <= i < |info| ==> |info[i].name| <= MAX_LENGTH && Carried(info[i].value)
  }

  lemma ShrunkIs(v: Value)
    ensures !v.Invalid? && !v.OtherObject? ==> (Shrunk(v) == v <==> Carried(v))
  {
    if v.StringList? && |v.texts| <= MAX_LENGTH {
      forall i | 0 <= i < |v.texts| ensures Fitted(v.texts[i]) == v.texts[i] <==> |v.texts[i]| <= MAX_LENGTH {
      }
      assert FittedList(v.texts) == v.texts <==> forall i :: 0 <= i < |v.texts| ==> Fitted(v.texts[i]) == v.texts[i];
    }
  }

  lemma {:induction false} PutNew(info: seq<Attribute>, a: Attribute)
    requires forall i :: 0 <= i < |info| ==> info[i].name != a.name
    ensures Put(info, a) == info + [a]
  {
    if info != [] {
      PutNew(info[1..], a);
      assert info + [a] == [info[0]] + (info[1..] + [a]);
    }
  }

  lemma {:induction false} AllSurvive(attrs: seq<Attribute>, info: seq<Attribute>)
    requires Distinct(info + attrs) && AllCarried(attrs)
    ensures Survivors(attrs, info) == info + attrs
    decreases |attrs|
  {
    if attrs == [] {
      assert info + attrs == info;
    } else {
      var a := attrs[0];
      ShrunkIs(a.value);
      forall i | 0 <= i < |info| ensures info[i].name != a.name {
        assert (info + attrs)[i] == info[i] && (info + attrs)[|info|] == a;
      }
      PutNew(info, a);
      assert (info + [a]) + attrs[1..] == info + attrs;
      AllSurvive(attrs[1..], info + [a]);
    }
  }

  lemma {:induction false} PutLength(info: seq<Attribute>, a: Attribute)
    ensures |info| <= |Put(info, a)| <= |info| + 1
  {
    if info != [] && info[0].name != a.name {
      PutLength(info[1..], a);
    }
  }

  lemma {:induction false} SurvivorsLength(attrs: seq<Attribute>, info: seq<Attribute>)
    ensures |Survivors(attrs, info)| <= |info| + |attrs|
    decreases |attrs|
  {
    if attrs != [] && !attrs[0].value.OtherObject? {
      PutLength(info, ShrunkAttribute(attrs[0]));
      SurvivorsLength(attrs[1..], Taken(info, ShrunkAttribute(attrs[0])));
    }
  }

  lemma {:induction false} PutName(info: seq<Attribute>, a: Attribute)
    requires |Put(info, a)| == |info| + 1
    ensures Put(info, a) == info + [a]
  {
    if info != [] {
      PutName(info[1..], a);
      assert info + [a] == [info[0]] + (info[1..] + [a]);
    }
  }

  /** As many come back as were sent only if each came back, with its fitted name and value. */
  lemma {:induction false} FullLength(attrs: seq<Attribute>, info: seq<Attribute>)
    requires |Survivors(attrs, info)| == |info| + |attrs|
    ensures info <= Survivors(attrs, info)
    ensures forall i :: 0 <= i < |attrs| ==>
      && !attrs[i].value.OtherObject? && !attrs[i].value.Invalid?
      && Survivors(attrs, info)[|info| + i] == ShrunkAttribute(attrs[i])
    decreases |attrs|
  {
    if attrs != [] {
      var a := ShrunkAttribute(attrs[0]);
      PutLength(info, a);
      SurvivorsLength(attrs[1..], Taken(info, a));
      PutName(info, a);
      FullLength(attrs[1..], info + [a]);
      forall i | 0 <= i < |attrs|
        ensures !attrs[i].value.OtherObject? && !attrs[i].value.Invalid?
          && Survivors(attrs, info)[|info| + i] == ShrunkAttribute(attrs[i])
      {
        if i > 0 {
          assert attrs[i] == attrs[1..][i - 1];
        } else {
          assert (info + [a])[|info|] == a;
        }
      }
    }
  }

  lemma WholeIsCarried(info: seq<Attribute>)
    requires Survivors(info, []) == info
    ensures AllCarried(info)
  {
    FullLength(info, []);
    forall i | 0 <= i < |info| ensures |info[i].name| <= MAX_LENGTH && Carried(info[i].value) {
      OneIsCarried(info[i]);
    }
  }

  lemma OneIsCarried(a: Attribute)
    requires a == ShrunkAttribute(a) && !a.value.OtherObject? && !a.value.Invalid?
    ensures |a.name| <= MAX_LENGTH && Carried(a.value)
  {
    ShrunkIs(a.value);
  }

  /** An info comes back as it was exactly when all its attributes can be carried. */
  lemma InfoRoundTrip(info: seq<Attribute>)
    requires AllInRange(info) && |info| < TWO_32 && Distinct(info)
    ensures Demarshalled(Marshalled(info)) == info <==> AllCarried(info)
  {
    InfoBack(info);
    if AllCarried(info) {
      assert [] + info == info;
      AllSurvive(info, []);
    }
    if Survivors(info, []) == info {
      WholeIsCarried(info);
    }
  }

  // ---------- The operations ----------

  lemma {:induction false} PutAttributesAppend(info: seq<Attribute>, a: Attribute)
    requires AllInRange(info) && a.value.InRange()
    ensures AllInRange(info + [a]) && PutAttributes(info + [a]) == PutAttributes(info) + PutAttribute(a)
  {
    if info == [] {
      assert [] + [a] == [a] && [a][1..] == [];
    } else {
      PutAttributesAppend(info[1..], a);
      assert (info + [a])[1..] == info[1..] + [a];
      Associative(PutAttribute(info[0]), PutAttributes(info[1..]), PutAttribute(a));
    }
  }

  lemma PutOneMore(info: seq<Attribute>, front: seq<Attribute>, a: Attribute)
    requires AllInRange(front) && a.value.InRange() && info == front + [a]
    ensures AllInRange(info) && PutAttributes(info) == PutAttributes(front) + PutAttribute(a)
  {
    PutAttributesAppend(front, a);
  }

  lemma Regroup(count: seq<Byte>, all: seq<Byte>, front: seq<Byte>, one: seq<Byte>)
    requires all == front + one
    ensures count + all == (count + front) + one
  {
    Associative(count, front, one);
  }

  lemma MarshalMore(count: seq<Byte>, info: seq<Attribute>, i: nat)
    requires AllInRange(info) && i < |info|
    ensures count + PutAttributes(info[..i + 1]) == (count + PutAttributes(info[..i])) + PutAttribute(info[i])
  {
    assert info[..i + 1] == info[..i] + [info[i]];
    PutOneMore(info[..i + 1], info[..i], info[i]);
    Regroup(count, PutAttributes(info[..i + 1]), PutAttributes(info[..i]), PutAttribute(info[i]));
  }

  /** gvfs_file_info_marshal */
  method Marshal(info: seq<Attribute>) returns (data: seq<Byte>)
    requires AllInRange(info)
    ensures data == Marshalled(info)
  {
    data := PutWord(|info| % TWO_32);
    for i := 0 to |info|
      invariant data == PutWord(|info| % TWO_32) + PutAttributes(info[..i])
    {
      MarshalMore(PutWord(|info| % TWO_32), info, i);
      data := data + PutAttribute(info[i]);
    }
    assert info[..|info|] == info;
  }

  /** `ReadAttributes` gives `result`; sealed, so that the verifier looks inside only where
      `Mark` is mentioned. */
  ghost predicate Reads(n: nat, s: seq<Byte>, info: seq<Attribute>, result: seq<Attribute>) {
    forall k: nat {:trigger Mark(n, k)} :: Mark(n, k) ==> ReadAttributes(n, s, info) == result
  }

  lemma OpenReads(n: nat, s: seq<Byte>, info: seq<Attribute>, result: seq<Attribute>)
    requires Reads(n, s, info, result)
    ensures ReadAttributes(n, s, info) == result
  {
    assert Mark(n, 0);
  }

  /** One pass of the loop: it stops with the result, or comes closer to it. */
  method ReadOne(s: seq<Byte>, info: seq<Attribute>, ghost n: nat, ghost result: seq<Attribute>)
    returns (stop: bool, rest: seq<Byte>, info': seq<Attribute>)
    requires n > 0 && Reads(n, s, info, result)
    ensures if stop then info' == result else Reads(n - 1, rest, info', result)
  {
    OpenReads(n, s, info, result);
    var a := ReadAttribute(s);
    stop, rest, info' := a.value.None?, a.rest, info;
    if !stop {
      info' := Taken(info, a.value.value);
    }
  }

  /** gvfs_file_info_demarshal */
  method Demarshal(data: seq<Byte>) returns (info: seq<Attribute>)
    ensures info == Demarshalled(data)
  {
    var count := ReadWord(data);
    ghost var result := Counted(count);
    info := [];
    var rest, i, stop := count.rest, 0, false;
    while i < count.value && !stop
      invariant 0 <= i <= count.value
      invariant if stop then info == result else Reads(count.value - i, rest, info, result)
      decreases !stop, count.value - i
    {
      stop, rest, info := ReadOne(rest, info, count.value - i, result);
      if !stop {
        i := i + 1;
      }
    }
    if !stop {
      OpenReads(0, rest, info, result);
    }
  }
}
