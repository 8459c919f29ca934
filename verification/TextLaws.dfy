/** The string functions by their laws: the order of strcmp, which characters are escaped and how,
    which texts can be unescaped, and UTF-8 as the encoding of code points. */
module TextLaws {
  import opened Sequences
  import opened Text

  // ---------- strcmp ----------

  /** The strings agree up to index `k`, and there the first one ends or has the smaller character. */
  predicate DiffersAt(a: string, b: string, k: nat) {
    && k <= |a| && k < |b| && a[..k] == b[..k]
    && (k < |a| ==> a[k] < b[k])
  }

  /** The order is decided by the first character that differs; a prefix comes first. */
  lemma {:induction false} LessByFirstDifference(a: string, b: string)
    ensures Less(a, b) <==> exists k: nat :: DiffersAt(a, b, k)
  {
    if Less(a, b) {
      var k := Difference(a, b);
    }
    if exists k: nat :: DiffersAt(a, b, k) {
      var k: nat :| DiffersAt(a, b, k);
      DecidesLess(a, b, k);
    }
  }

  lemma {:induction false} Difference(a: string, b: string) returns (k: nat)
    requires Less(a, b)
    ensures DiffersAt(a, b, k)
  {
    k := 0;
    if a != "" && a[0] == b[0] {
      k := Difference(a[1..], b[1..]);
      assert a == [a[0]] + a[1..] && b == [b[0]] + b[1..];
      k := k + 1;
    }
  }

  lemma {:induction false} DecidesLess(a: string, b: string, k: nat)
    requires DiffersAt(a, b, k)
    ensures Less(a, b)
  {
    if k > 0 {
      assert a[..k][0] == b[..k][0];
      assert a[..k][1..] == a[1..][..k - 1] && b[..k][1..] == b[1..][..k - 1];
      DecidesLess(a[1..], b[1..], k - 1);
    }
  }

  // ---------- Percent escapes ----------

  const HEX_DIGITS := "0123456789ABCDEF"

  /** A byte that is neither unreserved nor allowed becomes a percent sign and two capital
      hexadecimal digits, the higher one first; any other stays. */
  lemma EscapedByte(c: char, allowed: string)
    requires IsByte(c)
    ensures Escape([c], allowed, false) ==
            if Unreserved(c) || c in allowed then [c]
            else ['%', HEX_DIGITS[c as int / 16], HEX_DIGITS[c as int % 16]]
  {
    assert [c][1..] == "" && EscapeByte(c, allowed) + "" == EscapeByte(c, allowed);
    HexIs(c as int / 16);
    HexIs(c as int % 16);
  }

  lemma HexIs(n: nat)
    requires n < 16
    ensures HexDigit(n) == HEX_DIGITS[n]
  {
  }

  /** If valid UTF-8 is kept, its multi-byte characters stay and the rest is escaped as before. */
  lemma Utf8Stays(a: string, b: string, allowed: string)
    requires Utf8Length(a + b) == |a| > 0
    ensures Escape(a + b, allowed, true) == a + Escape(b, allowed, true)
  {
    assert (a + b)[..|a|] == a && (a + b)[|a|..] == b;
  }

  /** The percent sign at `i` starts an escape that can be undone. */
  predicate GoodEscape(s: string, i: nat, illegal: string)
    requires i < |s|
  {
    i + 2 < |s| && HexValue(s[i + 1]) < 16 && HexValue(s[i + 2]) < 16
    && var v := HexValue(s[i + 1]) * 16 + HexValue(s[i + 2]); v != 0 && v as char !in illegal
  }

  predicate GoodEscapes(s: string, illegal: string) {
    forall i :: 0 <= i < |s| && s[i] == '%' ==> GoodEscape(s, i, illegal)
  }

  /** Capital and small letters will do for a digit. */
  lemma HexValues(n: nat)
    requires n < 16
    ensures HexValue(HEX_DIGITS[n]) == n && (n >= 10 ==> HexValue(HEX_DIGITS[n] + ('a' - 'A')) == n)
  {
    HexIs(n);
  }

  /** A text can be unescaped if and only if every percent sign starts a good escape. */
  lemma {:induction false} UnescapesExactly(s: string, illegal: string)
    ensures Unescape(s, illegal).Some? <==> GoodEscapes(s, illegal)
    decreases |s|
  {
    if s != "" {
      if s[0] != '%' {
        UnescapesExactly(s[1..], illegal);
        ShiftedEscapes(s, 1, illegal);
      } else if GoodEscape(s, 0, illegal) {
        UnescapesExactly(s[3..], illegal);
        ShiftedEscapes(s, 3, illegal);
      }
    }
  }

  lemma ShiftedEscapes(s: string, n: nat, illegal: string)
    requires n <= |s| && forall i :: 0 <= i < n && s[i] == '%' ==> GoodEscape(s, i, illegal)
    ensures GoodEscapes(s, illegal) <==> GoodEscapes(s[n..], illegal)
  {
    var t := s[n..];
    if GoodEscapes(t, illegal) {
      forall i | 0 <= i < |s| && s[i] == '%' ensures GoodEscape(s, i, illegal) {
        if i >= n {
          assert t[i - n] == '%' && GoodEscape(t, i - n, illegal);
        }
      }
    }
    if GoodEscapes(s, illegal) {
      forall i | 0 <= i < |t| && t[i] == '%' ensures GoodEscape(t, i, illegal) {
        assert s[n + i] == '%' && GoodEscape(s, n + i, illegal);
      }
    }
  }

  /** What an escape stands for. */
  lemma UnescapedOne(h: char, l: char, rest: string, illegal: string)
    requires HexValue(h) < 16 && HexValue(l) < 16
    requires var v := HexValue(h) * 16 + HexValue(l); v != 0 && v as char !in illegal
    ensures Unescape(['%', h, l] + rest, illegal) ==
            Prepend([(HexValue(h) * 16 + HexValue(l)) as char], Unescape(rest, illegal))
  {
    assert (['%', h, l] + rest)[3..] == rest;
  }

  // ---------- UTF-8 ----------

  /** A Unicode scalar value but U+0000, which ends a C string. */
  predicate Scalar(u: int) {
    0 < u < 0x110000 && !(0xD800 <= u < 0xE000)
  }

  /** The bytes of a code point. */
  function Encoded(u: int): string
    requires Scalar(u)
  {
    if u < 0x80 then [u as char]
    else if u < 0x800 then [(0xC0 + u / 0x40) as char, (0x80 + u % 0x40) as char]
    else if u < 0x10000 then
      [(0xE0 + u / 0x1000) as char, (0x80 + u / 0x40 % 0x40) as char, (0x80 + u % 0x40) as char]
    else
      [(0xF0 + u / 0x40000) as char, (0x80 + u / 0x1000 % 0x40) as char, (0x80 + u / 0x40 % 0x40) as char,
       (0x80 + u % 0x40) as char]
  }

  predicate Scalars(us: seq<int>) {
    forall i :: 0 <= i < |us| ==> Scalar(us[i])
  }

  function EncodedAll(us: seq<int>): string
    requires Scalars(us)
  {
    if us == [] then "" else Encoded(us[0]) + EncodedAll(us[1..])
  }

  /** A text is valid if and only if it is the encoding of a sequence of code points. */
  lemma Utf8IsEncoding(s: string)
    ensures Utf8Valid(s) <==> exists us :: Scalars(us) && s == EncodedAll(us)
  {
    if Utf8Valid(s) {
      var us := CodePoints(s);
    }
    if exists us :: Scalars(us) && s == EncodedAll(us) {
      var us :| Scalars(us) && s == EncodedAll(us);
      EncodingIsValid(us);
    }
  }

  lemma {:induction false} EncodingIsValid(us: seq<int>)
    requires Scalars(us)
    ensures Utf8Valid(EncodedAll(us))
  {
    if us != [] {
      EncodingIsValid(us[1..]);
      OneIsValid(us[0], EncodedAll(us[1..]));
    }
  }

  lemma OneIsValid(u: int, rest: string)
    requires Scalar(u) && Utf8Valid(rest)
    ensures Utf8Valid(Encoded(u) + rest)
  {
    var e := Encoded(u);
    var s := e + rest;
    assert s[|e|..] == rest && s[0] == e[0];
    if u >= 0x80 {
      LengthOfOne(u, rest);
    }
  }

  lemma LengthOfOne(u: int, rest: string)
    requires Scalar(u) && u >= 0x80
    ensures Utf8Length(Encoded(u) + rest) == |Encoded(u)| && (Encoded(u) + rest)[0] as int >= 0x80
  {
    if u < 0x800 {
      var s := Encoded(u) + rest;
      assert s[0] as int == 0xC0 + u / 0x40 && s[1] as int == 0x80 + u % 0x40;
    } else if u < 0x10000 {
      LengthOfThree(u, Encoded(u) + rest);
    } else {
      LengthOfFour(u, Encoded(u) + rest);
    }
  }

  lemma LengthOfThree(u: int, s: string)
    requires Scalar(u) && 0x800 <= u < 0x10000 && Encoded(u) <= s
    ensures Utf8Length(s) == 3 && s[0] as int >= 0x80
  {
    var a, b, c := u / 0x1000, u / 0x40 % 0x40, u % 0x40;
    var e := Encoded(u);
    assert s[0] == e[0] && s[1] == e[1] && s[2] == e[2];
    assert s[0] as int == 0xE0 + a && s[1] as int == 0x80 + b && s[2] as int == 0x80 + c;
    InSixes(u);
  }

  lemma LengthOfFour(u: int, s: string)
    requires Scalar(u) && 0x10000 <= u && Encoded(u) <= s
    ensures Utf8Length(s) == 4 && s[0] as int >= 0x80
  {
    var a, b, c, d := u / 0x40000, u / 0x1000 % 0x40, u / 0x40 % 0x40, u % 0x40;
    var e := Encoded(u);
    assert s[0] == e[0] && s[1] == e[1] && s[2] == e[2] && s[3] == e[3];
    assert s[0] as int == 0xF0 + a && s[1] as int == 0x80 + b && s[2] as int == 0x80 + c && s[3] as int == 0x80 + d;
    InSixes(u);
    InFirstSixes(u);
  }

  lemma InSixes(u: int)
    ensures u / 0x1000 * 0x1000 + u / 0x40 % 0x40 * 0x40 + u % 0x40 == u
  {
    Sixes(u / 0x1000, u % 0x1000 / 0x40, u % 0x40);
  }

  lemma InFirstSixes(u: int)
    ensures u / 0x40000 * 0x40000 + u / 0x1000 % 0x40 * 0x1000 == u / 0x1000 * 0x1000
  {
    FirstSixes(u / 0x40000, u % 0x40000 / 0x1000, u % 0x1000);
  }

  lemma {:induction false} CodePoints(s: string) returns (us: seq<int>)
    requires Utf8Valid(s)
    ensures Scalars(us) && s == EncodedAll(us)
    decreases |s|
  {
    us := [];
    if s != "" {
      var u, n := FirstCodePoint(s);
      us := CodePoints(s[n..]);
      OneMore(u, us);
      us := [u] + us;
      assert s == s[..n] + s[n..];
    }
  }

  lemma OneMore(u: int, us: seq<int>)
    requires Scalar(u) && Scalars(us)
    ensures Scalars([u] + us) && EncodedAll([u] + us) == Encoded(u) + EncodedAll(us)
  {
    assert ([u] + us)[1..] == us;
  }

  lemma FirstCodePoint(s: string) returns (u: int, n: nat)
    requires s != "" && Utf8Valid(s)
    ensures Scalar(u) && 0 < n <= |s| && Utf8Valid(s[n..]) && s[..n] == Encoded(u)
  {
    if s[0] as int < 0x80 {
      u, n := s[0] as int, 1;
    } else {
      n := Utf8Length(s);
      if n == 2 {
        u := TwoBytes(s);
      } else if n == 3 {
        u := ThreeBytes(s);
      } else {
        u := FourBytes(s);
      }
    }
  }

  lemma TwoBytes(s: string) returns (u: int)
    requires Utf8Length(s) == 2
    ensures Scalar(u) && s[..2] == Encoded(u)
  {
    var a, b := s[0] as int - 0xC0, s[1] as int - 0x80;
    u := a * 0x40 + b;
    assert u / 0x40 == a && u % 0x40 == b;
    assert Encoded(u) == [s[0], s[1]];
  }

  lemma ThreeBytes(s: string) returns (u: int)
    requires Utf8Length(s) == 3
    ensures Scalar(u) && s[..3] == Encoded(u)
  {
    var a, b, c := s[0] as int - 0xE0, s[1] as int - 0x80, s[2] as int - 0x80;
    u := a * 0x1000 + b * 0x40 + c;
    Sixes(a, b, c);
    assert Encoded(u) == [s[0], s[1], s[2]];
  }

  lemma Sixes(a: int, b: int, c: int)
    requires 0 <= b < 0x40 && 0 <= c < 0x40
    ensures var u := a * 0x1000 + b * 0x40 + c; u / 0x1000 == a && u / 0x40 % 0x40 == b && u % 0x40 == c
  {
    var x := a * 0x40 + b;
    Digit(x, 0x40, c);
    Digit(a, 0x40, b);
    Digit(a, 0x1000, b * 0x40 + c);
  }

  lemma Digit(x: int, base: int, c: int)
    requires (base == 0x40 || base == 0x1000 || base == 0x40000) && 0 <= c < base
    ensures (x * base + c) / base == x && (x * base + c) % base == c
  {
  }

  lemma FourBytes(s: string) returns (u: int)
    requires Utf8Length(s) == 4
    ensures Scalar(u) && s[..4] == Encoded(u)
  {
    var a, b, c, d := s[0] as int - 0xF0, s[1] as int - 0x80, s[2] as int - 0x80, s[3] as int - 0x80;
    u := a * 0x40000 + b * 0x1000 + c * 0x40 + d;
    Sixes(a * 0x40 + b, c, d);
    FirstSixes(a, b, c * 0x40 + d);
    assert Encoded(u) == [s[0], s[1], s[2], s[3]];
  }

  lemma FirstSixes(a: int, b: int, r: int)
    requires 0 <= b < 0x40 && 0 <= r < 0x1000
    ensures var u := a * 0x40000 + b * 0x1000 + r; u / 0x40000 == a && u / 0x1000 % 0x40 == b
  {
    Digit(a * 0x40 + b, 0x1000, r);
    Digit(a, 0x40, b);
    Digit(a, 0x40000, b * 0x1000 + r);
  }
}
