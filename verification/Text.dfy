/** C strings as sequences of non-zero bytes, and the GLib string functions that the
    printers and parsers of names are made of. */
module Text {
  import opened Sequences

  datatype Option<+T> = None | Some(value: T)

  /** The bytes of a C string: no NUL, nothing above 255. */
  ghost predicate IsText(s: string) {
    forall i :: 0 <= i < |s| ==> IsByte(s[i])
  }

  predicate IsByte(c: char) {
    0 < c as int < 256
  }

  // ---------- strcmp ----------

  /** strcmp (a, b) < 0 */
  predicate Less(a: string, b: string) {
    b != "" && (a == "" || a[0] < b[0] || (a[0] == b[0] && Less(a[1..], b[1..])))
  }

  lemma {:induction false} LessIsStrict(a: string)
    ensures !Less(a, a)
  {
    if a != "" {
      LessIsStrict(a[1..]);
    }
  }

  lemma {:induction false} LessIsTransitive(a: string, b: string, c: string)
    requires Less(a, b) && Less(b, c)
    ensures Less(a, c)
  {
    if a != "" && a[0] == b[0] == c[0] {
      LessIsTransitive(a[1..], b[1..], c[1..]);
    }
  }

  lemma {:induction false} LessIsTotal(a: string, b: string)
    ensures a == b || Less(a, b) || Less(b, a)
  {
    if a != "" && b != "" && a[0] == b[0] {
      LessIsTotal(a[1..], b[1..]);
      assert a == [a[0]] + a[1..] && b == [b[0]] + b[1..];
    }
  }

  // ---------- strchr and g_strsplit ----------

  /** The index of the first `c`, or the length. */
  function IndexOf(s: string, c: char): (n: nat)
    ensures n <= |s| && (n < |s| ==> s[n] == c)
  {
    if s == "" || s[0] == c then 0 else 1 + IndexOf(s[1..], c)
  }

  lemma {:induction false} NoneBefore(s: string, c: char)
    ensures c !in s[..IndexOf(s, c)] && (IndexOf(s, c) == |s| <==> c !in s)
  {
    if s != "" && s[0] != c {
      NoneBefore(s[1..], c);
      var n := IndexOf(s, c);
      assert s[..n] == [s[0]] + s[1..][..n - 1] && s == [s[0]] + s[1..];
    }
  }

  lemma {:induction false} IndexOfFirst(a: string, c: char, b: string)
    requires c !in a
    ensures IndexOf(a + [c] + b, c) == |a|
  {
    var s := a + [c] + b;
    if a != "" {
      IndexOfFirst(a[1..], c, b);
      assert s[1..] == a[1..] + [c] + b;
    }
  }

  lemma {:induction false} IndexOfNone(a: string, c: char)
    requires c !in a
    ensures IndexOf(a, c) == |a|
  {
    if a != "" {
      IndexOfNone(a[1..], c);
    }
  }

  /** g_strsplit (s, sep, 0): the empty string has no pieces. */
  function SplitOn(s: string, sep: char): (r: seq<string>) {
    if s == "" then [] else Pieces(s, sep)
  }

  function Pieces(s: string, sep: char): (r: seq<string>)
    ensures |r| >= 1
    decreases |s|
  {
    var n := IndexOf(s, sep);
    if n == |s| then [s] else [s[..n]] + Pieces(s[n + 1..], sep)
  }

  lemma PiecesOne(a: string, sep: char)
    requires sep !in a
    ensures Pieces(a, sep) == [a]
  {
    IndexOfNone(a, sep);
  }

  lemma PiecesFirst(a: string, sep: char, b: string)
    requires sep !in a
    ensures Pieces(a + [sep] + b, sep) == [a] + Pieces(b, sep)
  {
    IndexOfFirst(a, sep, b);
    var s := a + [sep] + b;
    assert s[..|a|] == a && s[|a| + 1..] == b;
  }

  lemma ConsConcat(first: string, x: seq<string>, y: seq<string>)
    ensures [first] + (x + y) == ([first] + x) + y
  {
  }

  lemma Reassociate(a: string, n: nat, sep: char, b: string)
    requires n < |a| && a[n] == sep
    ensures var first, rest := a[..n], a[n + 1..];
      a == first + [sep] + rest && a + [sep] + b == first + [sep] + (rest + [sep] + b)
  {
    var first, rest := a[..n], a[n + 1..];
    assert a == first + [sep] + rest;
    Associative(first + [sep], rest, [sep]);
    Associative(first + [sep], rest + [sep], b);
  }

  lemma {:induction false} PiecesConcat(a: string, sep: char, b: string)
    ensures Pieces(a + [sep] + b, sep) == Pieces(a, sep) + Pieces(b, sep)
    decreases |a|
  {
    var n := IndexOf(a, sep);
    NoneBefore(a, sep);
    if n == |a| {
      PiecesFirst(a, sep, b);
    } else {
      var first, rest := a[..n], a[n + 1..];
      PiecesConcat(rest, sep, b);
      PiecesFirst(first, sep, rest);
      PiecesFirst(first, sep, rest + [sep] + b);
      Reassociate(a, n, sep, b);
      ConsConcat(first, Pieces(rest, sep), Pieces(b, sep));
    }
  }

  lemma {:induction false} PiecesHaveNoSeparator(s: string, sep: char)
    ensures forall i :: 0 <= i < |Pieces(s, sep)| ==> sep !in Pieces(s, sep)[i]
    decreases |s|
  {
    var n := IndexOf(s, sep);
    NoneBefore(s, sep);
    if n < |s| {
      PiecesHaveNoSeparator(s[n + 1..], sep);
    }
  }

  lemma {:induction false} PiecesAreParts(s: string, sep: char, c: char)
    requires c !in s
    ensures forall i :: 0 <= i < |Pieces(s, sep)| ==> c !in Pieces(s, sep)[i]
    decreases |s|
  {
    var n := IndexOf(s, sep);
    if n < |s| {
      PiecesAreParts(s[n + 1..], sep, c);
    }
  }

  // ---------- Hexadecimal ----------

  function HexDigit(n: nat): char
    requires n < 16
  {
    if n < 10 then '0' + n as char else 'A' + (n - 10) as char
  }

  /** g_ascii_xdigit_value, with 16 for what is not a digit. */
  function HexValue(c: char): nat {
    if '0' <= c <= '9' then (c - '0') as nat
    else if 'A' <= c <= 'F' then (c - 'A') as nat + 10
    else if 'a' <= c <= 'f' then (c - 'a') as nat + 10
    else 16
  }

  lemma HexRoundTrip(n: nat)
    requires n < 16
    ensures HexValue(HexDigit(n)) == n
  {
  }

  // ---------- UTF-8 ----------

  predicate Continuation(c: char) {
    0x80 <= c as int < 0xC0
  }

  /** The length of the valid multi-byte character at the start of the text, 0 if there is none:
      no overlong form, no surrogate and nothing beyond U+10FFFF. */
  function Utf8Length(s: string): (n: nat)
    ensures n <= |s| && forall i :: 0 <= i < n ==> 0x80 <= s[i] as int
  {
    if s == "" then 0
    else
      var c := s[0] as int;
      if 0xC2 <= c < 0xE0 && |s| >= 2 && Continuation(s[1]) then 2
      else if 0xE0 <= c < 0xF0 && |s| >= 3 && Continuation(s[1]) && Continuation(s[2]) then
        var u := (c - 0xE0) * 0x1000 + (s[1] as int - 0x80) * 0x40 + (s[2] as int - 0x80);
        if u < 0x800 || 0xD800 <= u < 0xE000 then 0 else 3
      else if 0xF0 <= c < 0xF8 && |s| >= 4 && Continuation(s[1]) && Continuation(s[2]) && Continuation(s[3]) then
        var u := (c - 0xF0) * 0x40000 + (s[1] as int - 0x80) * 0x1000 + (s[2] as int - 0x80) * 0x40
            + (s[3] as int - 0x80);
        if u < 0x10000 || u >= 0x110000 then 0 else 4
      else 0
  }

  /** g_utf8_validate */
  predicate Utf8Valid(s: string)
    decreases |s|
  {
    s == "" ||
    (if 0 < s[0] as int < 0x80 then Utf8Valid(s[1..]) else Utf8Length(s) > 0 && Utf8Valid(s[Utf8Length(s)..]))
  }

  // ---------- Percent escapes ----------

  /** The unreserved characters of RFC 3986, section 2.3. */
  predicate Unreserved(c: char) {
    'a' <= c <= 'z' || 'A' <= c <= 'Z' || '0' <= c <= '9' || c == '-' || c == '.' || c == '_' || c == '~'
  }

  function EscapeByte(c: char, allowed: string): (r: string) {
    if Unreserved(c) || c in allowed then [c]
    else "%" + [HexDigit(c as int / 16 % 16), HexDigit(c as int % 16)]
  }

  /** g_string_append_uri_escaped: whole UTF-8 characters may be kept as they are. */
  function Escape(s: string, allowed: string, utf8: bool): (r: string)
    decreases |s|
  {
    if s == "" then ""
    else if utf8 && Utf8Length(s) > 0 then s[..Utf8Length(s)] + Escape(s[Utf8Length(s)..], allowed, utf8)
    else EscapeByte(s[0], allowed) + Escape(s[1..], allowed, utf8)
  }

  function Prepend(a: string, rest: Option<string>): Option<string> {
    if rest.None? then None else Some(a + rest.value)
  }

  /** g_uri_unescape_string (s, illegal): a bad escape, an escaped NUL or an escaped illegal
      character makes the whole string invalid. */
  function Unescape(s: string, illegal: string): (r: Option<string>)
    decreases |s|
  {
    if s == "" then Some("")
    else if s[0] != '%' then Prepend([s[0]], Unescape(s[1..], illegal))
    else if |s| < 3 || HexValue(s[1]) == 16 || HexValue(s[2]) == 16 then None
    else
      var v := HexValue(s[1]) * 16 + HexValue(s[2]);
      if v == 0 || v as char in illegal then None else Prepend([v as char], Unescape(s[3..], illegal))
  }

  lemma {:induction false} UnescapePlain(a: string, b: string, illegal: string)
    requires '%' !in a
    ensures Unescape(a + b, illegal) == Prepend(a, Unescape(b, illegal))
  {
    if a == "" {
      assert a + b == b;
      assert Unescape(b, illegal).Some? ==> "" + Unescape(b, illegal).value == Unescape(b, illegal).value;
    } else {
      assert (a + b)[1..] == a[1..] + b;
      UnescapePlain(a[1..], b, illegal);
      if Unescape(b, illegal).Some? {
        Associative([a[0]], a[1..], Unescape(b, illegal).value);
        assert [a[0]] + a[1..] == a;
      }
    }
  }

  lemma UnescapeHex(c: char, b: string, illegal: string)
    requires IsByte(c) && c !in illegal
    ensures Unescape("%" + [HexDigit(c as int / 16 % 16), HexDigit(c as int % 16)] + b, illegal) ==
      Prepend([c], Unescape(b, illegal))
  {
    var s := "%" + [HexDigit(c as int / 16 % 16), HexDigit(c as int % 16)] + b;
    HexRoundTrip(c as int / 16 % 16);
    HexRoundTrip(c as int % 16);
    assert s[3..] == b;
  }

  lemma UnescapeByte(c: char, allowed: string, b: string, illegal: string)
    requires IsByte(c) && '%' !in allowed && (c in illegal ==> c in allowed)
    ensures Unescape(EscapeByte(c, allowed) + b, illegal) == Prepend([c], Unescape(b, illegal))
  {
    if Unreserved(c) || c in allowed {
      UnescapePlain([c], b, illegal);
    } else {
      UnescapeHex(c, b, illegal);
    }
  }

  lemma {:induction false} PrependTwice(a: string, b: string, rest: Option<string>)
    ensures Prepend(a, Prepend(b, rest)) == Prepend(a + b, rest)
  {
    if rest.Some? {
      Associative(a, b, rest.value);
    }
  }

  lemma {:induction false} UnescapeEscapeThen(s: string, x: string)
    requires IsText(s)
    ensures Unescape(Escape(s, "", false) + x, "") == Prepend(s, Unescape(x, ""))
  {
    if s == "" {
      UnescapePlain("", x, "");
    } else {
      var e := Escape(s[1..], "", false);
      UnescapeEscapeThen(s[1..], x);
      Associative(EscapeByte(s[0], ""), e, x);
      UnescapeByte(s[0], "", e + x, "");
      PrependTwice([s[0]], s[1..], Unescape(x, ""));
      assert [s[0]] + s[1..] == s;
    }
  }

  /** Without UTF-8 the bytes are escaped one by one. */
  lemma {:induction false} EscapeConcatBytes(a: string, b: string, allowed: string)
    ensures Escape(a + b, allowed, false) == Escape(a, allowed, false) + Escape(b, allowed, false)
  {
    if a == "" {
      assert a + b == b;
    } else {
      EscapeConcatBytes(a[1..], b, allowed);
      assert (a + b)[1..] == a[1..] + b;
      Associative(EscapeByte(a[0], allowed), Escape(a[1..], allowed, false), Escape(b, allowed, false));
    }
  }

  /** Escaping loses nothing, when the illegal characters are among those never escaped. */
  lemma {:induction false} UnescapeUndoesEscape(s: string, allowed: string, utf8: bool, illegal: string)
    requires IsText(s) && '%' !in allowed && (forall i :: 0 <= i < |illegal| ==> illegal[i] in allowed)
    ensures Unescape(Escape(s, allowed, utf8), illegal) == Some(s)
    decreases |s|
  {
    if s != "" {
      var n := if utf8 && Utf8Length(s) > 0 then Utf8Length(s) else 1;
      UnescapeUndoesEscape(s[n..], allowed, utf8, illegal);
      assert s == s[..n] + s[n..];
      if utf8 && Utf8Length(s) > 0 {
        UnescapePlain(s[..n], Escape(s[n..], allowed, utf8), illegal);
      } else {
        assert s[..n] == [s[0]];
        UnescapeByte(s[0], allowed, Escape(s[n..], allowed, utf8), illegal);
      }
    }
  }

  predicate Escaped(c: char, allowed: string, utf8: bool) {
    Unreserved(c) || c in allowed || c == '%' || (utf8 && 0x80 <= c as int)
  }

  lemma {:induction false} EscapeAlphabet(s: string, allowed: string, utf8: bool)
    ensures forall i :: 0 <= i < |Escape(s, allowed, utf8)| ==> Escaped(Escape(s, allowed, utf8)[i], allowed, utf8)
    decreases |s|
  {
    if s != "" {
      var n := if utf8 && Utf8Length(s) > 0 then Utf8Length(s) else 1;
      EscapeAlphabet(s[n..], allowed, utf8);
    }
  }

  /** A reserved character that is not allowed never shows in the escaped text. */
  lemma EscapeHides(s: string, allowed: string, utf8: bool, c: char)
    requires !Escaped(c, allowed, utf8)
    ensures c !in Escape(s, allowed, utf8)
  {
    EscapeAlphabet(s, allowed, utf8);
  }

  predicate HexOrPercent(c: char) {
    c == '%' || HexValue(c) < 16
  }

  lemma {:induction false} EscapeAddsNone(s: string, allowed: string, utf8: bool, c: char)
    requires c !in s && !HexOrPercent(c)
    ensures c !in Escape(s, allowed, utf8)
    decreases |s|
  {
    if s != "" {
      var n := if utf8 && Utf8Length(s) > 0 then Utf8Length(s) else 1;
      EscapeAddsNone(s[n..], allowed, utf8, c);
      assert c !in s[..n];
      HexDigits(s[0]);
    }
  }

  lemma HexDigits(c: char)
    ensures HexValue(HexDigit(c as int / 16 % 16)) < 16 && HexValue(HexDigit(c as int % 16)) < 16
  {
    HexRoundTrip(c as int / 16 % 16);
    HexRoundTrip(c as int % 16);
  }
}
