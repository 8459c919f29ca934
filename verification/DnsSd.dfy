/** DNS-SD triples (RFC 6763, section 4.1): service name, service type and domain in one
    string, with dots between them. */
module DnsSd {
  import opened Sequences
  import opened Text
  import TextLaws

  /** A decoded triple; a part is missing when its escapes are malformed. */
  datatype Triple = Triple(name: Option<string>, kind: Option<string>, domain: Option<string>)

  // ---------- Encoding ----------

  /** escape_service_name2 */
  function EscapeDots(s: string): string {
    if s == "" then "" else EscapeDots(s[..|s| - 1]) + if s[|s| - 1] == '.' then "%2e" else [s[|s| - 1]]
  }

  function EscapeName(name: string): string {
    EscapeDots(Escape(name, "", false))
  }

  /** g_vfs_encode_dns_sd_triple */
  function Encoded(name: string, kind: string, domain: string): string {
    EscapeName(name) + "." + (Escape(kind, "", false) + "." + Escape(domain, "", false))
  }

  // ---------- Decoding ----------

  /** The first dot followed by an underscore, or the length. */
  function TypeDot(s: string): (n: nat)
    ensures n <= |s| && (n < |s| ==> n + 1 < |s| && s[n] == '.' && s[n + 1] == '_')
  {
    if s == "" then 0 else if s[0] == '.' && |s| > 1 && s[1] == '_' then 0 else 1 + TypeDot(s[1..])
  }

  /** The second dot, or the length. */
  function SecondDot(s: string): (n: nat)
    ensures n <= |s| && (n < |s| ==> s[n] == '.')
  {
    var i := IndexOf(s, '.');
    if i == |s| then |s| else i + 1 + IndexOf(s[i + 1..], '.')
  }

  /** What follows the name: the type up to its second dot, and the domain. */
  function DecodeRest(name: string, rest: string): Option<Triple> {
    var j := SecondDot(rest);
    if j == |rest| || j + 1 == |rest| then None
    else Some(Triple(Unescape(name, ""), Unescape(rest[..j], ""), Unescape(rest[j + 1..], "")))
  }

  /** g_vfs_decode_dns_sd_triple */
  function Decoded(s: string): Option<Triple> {
    var n := TypeDot(s);
    if n == |s| then None else DecodeRest(s[..n], s[n + 1..])
  }

  /** g_vfs_normalize_encoded_dns_sd_triple, for escapes that are well formed. */
  function Normalized(s: string): Option<string> {
    var d := Decoded(s);
    if d.None? || d.value.name.None? || d.value.kind.None? || d.value.domain.None? then None
    else Some(Encoded(d.value.name.value, d.value.kind.value, d.value.domain.value))
  }

  // ---------- Names ----------

  lemma {:induction false} DotsConcat(a: string, b: string)
    ensures EscapeDots(a + b) == EscapeDots(a) + EscapeDots(b)
  {
    if b == "" {
      assert a + b == a;
    } else {
      var n := |b| - 1;
      DotsConcat(a, b[..n]);
      assert (a + b)[..|a + b| - 1] == a + b[..n];
      Associative(EscapeDots(a), EscapeDots(b[..n]), if b[n] == '.' then "%2e" else [b[n]]);
    }
  }

  lemma {:induction false} NoDots(s: string)
    requires '.' !in s
    ensures EscapeDots(s) == s
  {
    if s != "" {
      var n := |s| - 1;
      NoDotsBefore(s, n);
      NoDots(s[..n]);
      assert EscapeDots(s) == s[..n] + [s[n]];
    }
  }

  lemma NoDotsBefore(s: string, n: nat)
    requires n < |s| && '.' !in s
    ensures '.' !in s[..n] && s[n] != '.'
  {
    assert s[n] in s;
  }

  /** A dot becomes a percent sign, 2 and a small e. */
  lemma DotEscaped(a: string, b: string)
    requires '.' !in a
    ensures EscapeDots(a + "." + b) == a + "%2e" + EscapeDots(b)
  {
    DotsConcat(a + ".", b);
    DotsConcat(a, ".");
    NoDots(a);
    assert "."[..0] == "" && EscapeDots(".") == "" + "%2e";
    Associative(a, "%2e", EscapeDots(b));
  }

  lemma NameByte(c: char, x: string)
    requires IsByte(c)
    ensures Unescape(EscapeDots(EscapeByte(c, "")) + x, "") == Prepend([c], Unescape(x, ""))
    ensures '.' !in EscapeDots(EscapeByte(c, ""))
  {
    var e := EscapeByte(c, "");
    if c == '.' {
      assert e == "." && "."[..0] == "" && EscapeDots(e) == "" + "%2e";
      var s := "%2e" + x;
      assert s[3..] == x && HexValue('2') == 2 && HexValue('e') == 14;
    } else {
      HexRoundTrip(c as int / 16 % 16);
      HexRoundTrip(c as int % 16);
      NoDots(e);
      UnescapeByte(c, "", x, "");
    }
  }

  /** A name read back from the front of a text. */
  lemma {:induction false} NameBack(name: string, x: string)
    requires IsText(name)
    ensures Unescape(EscapeName(name) + x, "") == Prepend(name, Unescape(x, "")) && '.' !in EscapeName(name)
  {
    if name == "" {
      UnescapePlain("", x, "");
    } else {
      var e := Escape(name[1..], "", false);
      DotsConcat(EscapeByte(name[0], ""), e);
      NameBack(name[1..], x);
      var a, b := EscapeDots(EscapeByte(name[0], "")), EscapeDots(e);
      NameByte(name[0], b + x);
      Associative(a, b, x);
      PrependTwice([name[0]], name[1..], Unescape(x, ""));
      assert [name[0]] + name[1..] == name;
    }
  }

  lemma NameAlone(name: string)
    requires IsText(name)
    ensures Unescape(EscapeName(name), "") == Some(name) && '.' !in EscapeName(name)
  {
    NameBack(name, "");
    assert EscapeName(name) + "" == EscapeName(name) && name + "" == name;
  }

  // ---------- Dots ----------

  lemma {:induction false} TypeDotIs(a: string, r: string)
    requires '.' !in a && r != "" && r[0] == '_'
    ensures TypeDot(a + "." + r) == |a|
  {
    var s := a + "." + r;
    if a == "" {
      assert s[0] == '.' && s[1] == r[0];
    } else {
      TypeDotIs(a[1..], r);
      assert s[1..] == a[1..] + "." + r;
      assert s[0] == a[0];
    }
  }

  /** Before a type that does not start with an underscore there is no end of the name. */
  lemma {:induction false} TypeDotLater(a: string, r: string)
    requires '.' !in a && (r == "" || r[0] != '_')
    ensures TypeDot(a + "." + r) > |a|
  {
    var s := a + "." + r;
    if a == "" {
      assert s[0] == '.' && (r != "" ==> s[1] == r[0]);
    } else {
      TypeDotLater(a[1..], r);
      assert s[1..] == a[1..] + "." + r;
      assert s[0] == a[0];
    }
  }

  ghost predicate OneDot(s: string) {
    IndexOf(s, '.') < |s| && '.' !in s[IndexOf(s, '.') + 1..]
  }

  lemma SecondDotIs(x: string, y: string)
    requires OneDot(x)
    ensures SecondDot(x + "." + y) == |x|
  {
    NoneBefore(x, '.');
    var i := IndexOf(x, '.');
    var p, q := x[..i], x[i + 1..];
    assert x + "." + y == p + "." + (q + "." + y);
    IndexOfFirst(p, '.', q + "." + y);
    IndexOfFirst(q, '.', y);
    assert (p + "." + (q + "." + y))[i + 1..] == q + "." + y;
  }

  lemma EscapeDot(a: string, b: string)
    ensures Escape(a + "." + b, "", false) == Escape(a, "", false) + "." + Escape(b, "", false)
  {
    EscapeConcatBytes(a + ".", b, "");
    EscapeConcatBytes(a, ".", "");
    DotStays();
  }

  lemma DotStays()
    ensures Escape(".", "", false) == "."
  {
    assert "."[1..] == "" && Escape(".", "", false) == "." + "";
  }

  lemma OneDotOf(p: string, q: string)
    requires '.' !in p && '.' !in q
    ensures OneDot(p + "." + q)
  {
    IndexOfFirst(p, '.', q);
    assert (p + "." + q)[|p| + 1..] == q;
  }

  lemma EscapeOneDot(x: string)
    requires OneDot(x)
    ensures OneDot(Escape(x, "", false))
  {
    NoneBefore(x, '.');
    var i := IndexOf(x, '.');
    var p, q := x[..i], x[i + 1..];
    assert x == p + "." + q;
    EscapeDot(p, q);
    EscapeAddsNone(p, "", false, '.');
    EscapeAddsNone(q, "", false, '.');
    OneDotOf(Escape(p, "", false), Escape(q, "", false));
  }

  lemma EscapeStart(s: string)
    requires s != ""
    ensures var e := Escape(s, "", false); e != "" && (e[0] == '_' <==> s[0] == '_')
  {
  }

  lemma EscapedAlone(s: string)
    requires IsText(s)
    ensures Unescape(Escape(s, "", false), "") == Some(s)
  {
    UnescapeUndoesEscape(s, "", false, "");
  }

  // ---------- The round trip ----------

  lemma RestBack(name: string, kind: string, domain: string)
    requires OneDot(kind) && domain != ""
    ensures DecodeRest(name, kind + "." + domain) ==
      Some(Triple(Unescape(name, ""), Unescape(kind, ""), Unescape(domain, "")))
  {
    var rest := kind + "." + domain;
    SecondDotIs(kind, domain);
    assert rest[..|kind|] == kind && rest[|kind| + 1..] == domain;
  }

  lemma FrontBack(a: string, r: string)
    requires '.' !in a && r != "" && r[0] == '_'
    ensures Decoded(a + "." + r) == DecodeRest(a, r)
  {
    TypeDotIs(a, r);
    var s := a + "." + r;
    assert s[..|a|] == a && s[|a| + 1..] == r;
  }

  /** A triple whose type is two labels, the first with an underscore, comes back. */
  lemma TripleBack(name: string, kind: string, domain: string)
    requires IsText(name) && IsText(kind) && IsText(domain)
    requires kind != "" && kind[0] == '_' && OneDot(kind) && domain != ""
    ensures Decoded(Encoded(name, kind, domain)) == Some(Triple(Some(name), Some(kind), Some(domain)))
  {
    var a, k, d := EscapeName(name), Escape(kind, "", false), Escape(domain, "", false);
    NameAlone(name);
    EscapeStart(kind);
    EscapeStart(domain);
    FrontBack(a, k + "." + d);
    EscapeOneDot(kind);
    RestBack(a, k, d);
    EscapedAlone(kind);
    EscapedAlone(domain);
  }

  // ---------- What does not come back ----------

  lemma LongerName(name: string, s: string, k: nat)
    requires IsText(name) && |EscapeName(name)| < k <= |s| && EscapeName(name) <= s && s[|EscapeName(name)|] != '%'
    ensures Unescape(s[..k], "") != Some(name)
  {
    var a := EscapeName(name);
    var x := s[|a|..k];
    assert s[..k] == a + x;
    NameBack(name, x);
    assert x[0] == s[|a|];
  }

  lemma NeedsUnderscore(name: string, kind: string, domain: string)
    requires IsText(name) && Decoded(Encoded(name, kind, domain)).Some?
    requires Decoded(Encoded(name, kind, domain)).value.name == Some(name)
    ensures kind != "" && kind[0] == '_'
  {
    var a, r := EscapeName(name), Escape(kind, "", false) + "." + Escape(domain, "", false);
    NameAlone(name);
    if kind == "" || kind[0] != '_' {
      if kind != "" {
        EscapeStart(kind);
      }
      TypeDotLater(a, r);
      var s := a + "." + r;
      LongerName(name, s, TypeDot(s));
    }
  }

  lemma LongerKind(kind: string, r: string, j: nat)
    requires IsText(kind) && |Escape(kind, "", false)| < j <= |r| && Escape(kind, "", false) <= r
    requires r[|Escape(kind, "", false)|] == '.'
    ensures Unescape(r[..j], "") != Some(kind)
  {
    var e := Escape(kind, "", false);
    var x := r[|e|..j];
    assert r[..j] == e + x;
    UnescapeEscapeThen(kind, x);
    assert x[0] == '.';
  }

  lemma Regrouped(x: string, y: string, d: string)
    ensures (x + "." + y) + "." + d == x + "." + (y + "." + d)
  {
  }

  lemma FrontIsText(t: string, x: string, y: string)
    requires IsText(t) && t == x + "." + y
    ensures IsText(x)
  {
    assert forall i :: 0 <= i < |x| ==> x[i] == t[i];
  }

  lemma CutAtDot(t: string) returns (p: string, q: string)
    requires '.' in t
    ensures t == p + "." + q && '.' !in p && |p| == IndexOf(t, '.')
  {
    NoneBefore(t, '.');
    var i := IndexOf(t, '.');
    p, q := t[..i], t[i + 1..];
  }

  /** The text up to the second dot, when there are at least two. */
  lemma SplitSecond(t: string) returns (x: string, y: string)
    requires '.' in t && !OneDot(t)
    ensures t == x + "." + y && OneDot(x)
  {
    var p, q := CutAtDot(t);
    if '.' !in q {
      OneDotOf(p, q);
    }
    var q', y' := CutAtDot(q);
    x, y := p + "." + q', y';
    OneDotOf(p, q');
    Regrouped(p, q', y');
  }

  lemma NoDotIsLess(kind: string, d: string, r: string, j: nat)
    requires IsText(kind) && '.' !in kind && r == Escape(kind, "", false) + "." + d && j == SecondDot(r) && j < |r|
    ensures Unescape(r[..j], "") != Some(kind)
  {
    var k := Escape(kind, "", false);
    EscapeAddsNone(kind, "", false, '.');
    IndexOfFirst(k, '.', d);
    LongerKind(kind, r, j);
  }

  lemma MoreDotsAreMore(kind: string, d: string, r: string, j: nat)
    requires IsText(kind) && '.' in kind && !OneDot(kind)
    requires r == Escape(kind, "", false) + "." + d && j == SecondDot(r)
    ensures Unescape(r[..j], "") != Some(kind)
  {
    var x, y := SplitSecond(kind);
    EscapeDot(x, y);
    var x', y' := Escape(x, "", false), Escape(y, "", false);
    Regrouped(x', y', d);
    EscapeOneDot(x);
    SecondDotIs(x', y' + "." + d);
    assert r[..|x'|] == x';
    FrontIsText(kind, x, y);
    EscapedAlone(x);
  }

  lemma NeedsOneDot(kind: string, domain: string, name: string)
    requires IsText(kind)
    requires var rest := Escape(kind, "", false) + "." + Escape(domain, "", false);
      DecodeRest(name, rest).Some? && DecodeRest(name, rest).value.kind == Some(kind)
    ensures OneDot(kind)
  {
    var d := Escape(domain, "", false);
    var r := Escape(kind, "", false) + "." + d;
    if '.' !in kind {
      NoDotIsLess(kind, d, r, SecondDot(r));
    } else if !OneDot(kind) {
      MoreDotsAreMore(kind, d, r, SecondDot(r));
    }
  }

  lemma NeedsDomain(name: string, kind: string, domain: string)
    requires OneDot(kind) && DecodeRest(name, Escape(kind, "", false) + "." + Escape(domain, "", false)).Some?
    ensures domain != ""
  {
    EscapeOneDot(kind);
    SecondDotIs(Escape(kind, "", false), Escape(domain, "", false));
  }

  /** Decoding undoes encoding exactly for types that start with an underscore and have one
      dot, in a domain that is not empty. */
  lemma TripleRoundTrip(name: string, kind: string, domain: string)
    requires IsText(name) && IsText(kind) && IsText(domain)
    ensures Decoded(Encoded(name, kind, domain)) == Some(Triple(Some(name), Some(kind), Some(domain))) <==>
            kind != "" && kind[0] == '_' && OneDot(kind) && domain != ""
  {
    if kind != "" && kind[0] == '_' && OneDot(kind) && domain != "" {
      TripleBack(name, kind, domain);
    }
    if Decoded(Encoded(name, kind, domain)) == Some(Triple(Some(name), Some(kind), Some(domain))) {
      NeedsUnderscore(name, kind, domain);
      NameAlone(name);
      EscapeStart(kind);
      FrontBack(EscapeName(name), Escape(kind, "", false) + "." + Escape(domain, "", false));
      NeedsOneDot(kind, domain, EscapeName(name));
      NeedsDomain(EscapeName(name), kind, domain);
    }
  }

  // ---------- Normal forms ----------

  lemma {:induction false} UnescapedKeeps(s: string, c: char)
    requires IsText(s) && Unescape(s, "").Some? && c != '%' && HexValue(c) == 16
    ensures IsText(Unescape(s, "").value) && (c in s ==> c in Unescape(s, "").value)
    ensures s != "" ==> Unescape(s, "").value != ""
    ensures s != "" && s[0] == c ==> Unescape(s, "").value[0] == c
    decreases |s|
  {
    if s != "" {
      if s[0] != '%' {
        UnescapedKeeps(s[1..], c);
        assert s == [s[0]] + s[1..];
      } else {
        UnescapedKeeps(s[3..], c);
        assert s == s[..3] + s[3..];
      }
    }
  }

  lemma KindParts(kind: string, i: nat)
    requires IsText(kind) && i < |kind| && kind[0] == '_' && kind[i] == '.' && Unescape(kind, "").Some?
    ensures var k := Unescape(kind, "").value; IsText(k) && k != "" && k[0] == '_' && '.' in k
  {
    UnescapedKeeps(kind, '_');
    UnescapedKeeps(kind, '.');
  }

  lemma RestParts(name: string, rest: string, t: Triple)
    requires IsText(rest) && rest != "" && rest[0] == '_' && DecodeRest(name, rest) == Some(t)
    requires t.kind.Some? && t.domain.Some?
    ensures IsText(t.kind.value) && IsText(t.domain.value) && t.domain.value != ""
    ensures t.kind.value != "" && t.kind.value[0] == '_' && '.' in t.kind.value
  {
    var j := SecondDot(rest);
    KindParts(rest[..j], IndexOf(rest, '.'));
    UnescapedKeeps(rest[j + 1..], '.');
  }

  /** The parts of a decoded triple. */
  lemma DecodedParts(s: string)
    requires IsText(s) && Normalized(s).Some?
    ensures var t := Decoded(s).value;
      && IsText(t.name.value) && IsText(t.kind.value) && IsText(t.domain.value)
      && t.kind.value != "" && t.kind.value[0] == '_' && '.' in t.kind.value && t.domain.value != ""
  {
    var n := TypeDot(s);
    UnescapedKeeps(s[..n], '.');
    RestParts(s[..n], s[n + 1..], Decoded(s).value);
  }

  lemma SameText(name: string, t: string, d: string, x: string, y: string)
    requires t + "." + d == x + "." + y
    ensures Encoded(name, t, d) == Encoded(name, x, y)
  {
    EscapeDot(t, d);
    EscapeDot(x, y);
  }

  /** Where the encoded form of a triple is taken apart. */
  lemma Recut(t: string, d: string) returns (x: string, y: string)
    requires t != "" && t[0] == '_' && '.' in t && d != ""
    ensures t + "." + d == x + "." + y && OneDot(x) && x != "" && x[0] == '_' && y != ""
  {
    if OneDot(t) {
      return t, d;
    }
    var u;
    x, u := SplitSecond(t);
    y := u + "." + d;
    assert t[0] == x[0];
    assert t + "." + d == x + "." + y;
  }

  /** What the encoded form of a triple decodes to: the same name, and of the text of type and domain
      the first two labels as the type. */
  lemma Reread(name: string, t: string, d: string) returns (x: string, y: string)
    requires IsText(name) && IsText(t) && IsText(d)
    requires t != "" && t[0] == '_' && '.' in t && d != ""
    ensures t + "." + d == x + "." + y && OneDot(x)
    ensures Decoded(Encoded(name, t, d)) == Some(Triple(Some(name), Some(x), Some(y)))
  {
    x, y := Recut(t, d);
    SameText(name, t, d, x, y);
    RecutIsText(t, d, x, y);
    TripleBack(name, x, y);
  }

  /** Normalising twice is normalising once. */
  lemma NormalizeIsIdempotent(s: string)
    requires IsText(s) && Normalized(s).Some?
    ensures Normalized(Normalized(s).value) == Normalized(s)
  {
    DecodedParts(s);
    var t := Decoded(s).value;
    var x, y := Reread(t.name.value, t.kind.value, t.domain.value);
    SameText(t.name.value, t.kind.value, t.domain.value, x, y);
  }

  /** The name, and the type and the domain with their dot. */
  ghost function Spoken(t: Triple): (string, string)
    requires t.name.Some? && t.kind.Some? && t.domain.Some?
  {
    (t.name.value, t.kind.value + "." + t.domain.value)
  }

  /** The normal form says what the text says: its triple has the same name, and type and domain
      make the same text. */
  lemma NormalFormSays(s: string)
    requires IsText(s) && Normalized(s).Some?
    ensures var t, n := Decoded(s).value, Decoded(Normalized(s).value);
      && n.Some? && n.value.name.Some? && n.value.kind.Some? && n.value.domain.Some?
      && Spoken(n.value) == Spoken(t) && OneDot(n.value.kind.value)
      && (OneDot(t.kind.value) <==> n.value == t)
  {
    DecodedParts(s);
    var t := Decoded(s).value;
    var x, y := Reread(t.name.value, t.kind.value, t.domain.value);
    if OneDot(t.kind.value) {
      SameCut(t.kind.value, t.domain.value, x, y);
    }
  }

  /** A text is cut at its second dot in one way only. */
  lemma SameCut(t: string, d: string, x: string, y: string)
    requires OneDot(t) && OneDot(x) && t + "." + d == x + "." + y
    ensures t == x && d == y
  {
    SecondDotIs(t, d);
    SecondDotIs(x, y);
    var s := t + "." + d;
    assert s[..|t|] == t && s[|t| + 1..] == d && s[..|x|] == x && s[|x| + 1..] == y;
  }

  /** Two texts have one normal form if and only if they say the same. */
  lemma NormalFormsAgree(s: string, s': string)
    requires IsText(s) && IsText(s') && Normalized(s).Some? && Normalized(s').Some?
    ensures Normalized(s) == Normalized(s') <==> Spoken(Decoded(s).value) == Spoken(Decoded(s').value)
  {
    NormalFormSays(s);
    NormalFormSays(s');
    var t, t' := Decoded(s).value, Decoded(s').value;
    if Spoken(t) == Spoken(t') {
      SameText(t.name.value, t.kind.value, t.domain.value, t'.kind.value, t'.domain.value);
    }
  }

  function Dots(s: string): nat {
    if s == "" then 0 else (if s[0] == '.' then 1 else 0) + Dots(s[1..])
  }

  /** An escape of the text stands for a dot. */
  predicate HidesDot(s: string)
    decreases |s|
  {
    if s == "" then false
    else if s[0] != '%' || |s| < 3 then HidesDot(s[1..])
    else HexValue(s[1]) * 16 + HexValue(s[2]) == 0x2e || HidesDot(s[3..])
  }

  lemma {:induction false} HiddenDots(s: string)
    requires IsText(s) && Unescape(s, "").Some?
    ensures Dots(s) <= Dots(Unescape(s, "").value)
    ensures Dots(s) == Dots(Unescape(s, "").value) <==> !HidesDot(s)
    decreases |s|
  {
    if s != "" {
      if s[0] != '%' {
        HiddenDots(s[1..]);
        assert ([s[0]] + Unescape(s[1..], "").value)[1..] == Unescape(s[1..], "").value;
      } else {
        HiddenDots(s[3..]);
        var v := HexValue(s[1]) * 16 + HexValue(s[2]);
        var u := Unescape(s[3..], "").value;
        assert Unescape(s, "").value == [v as char] + u && ([v as char] + u)[1..] == u;
        EscapeHasNone(s);
        assert v == 0x2e <==> v as char == '.';
      }
    }
  }

  lemma EscapeHasNone(s: string)
    requires |s| >= 3 && s[0] == '%' && HexValue(s[1]) < 16 && HexValue(s[2]) < 16
    ensures Dots(s) == Dots(s[3..])
  {
    assert s[1..][0] == s[1] && s[2..][0] == s[2];
    assert s[1..][1..] == s[2..] && s[2..][1..] == s[3..];
    assert Dots(s) == Dots(s[1..]) == Dots(s[2..]);
  }

  lemma {:induction false} DotsOf(s: string)
    ensures Dots(s) == 0 <==> '.' !in s
    ensures Dots(s) == 1 <==> OneDot(s)
  {
    if s != "" {
      DotsOf(s[1..]);
      assert s == [s[0]] + s[1..];
      var i := IndexOf(s, '.');
      if s[0] != '.' && i < |s| {
        assert s[i + 1..] == s[1..][i..];
      }
    }
  }

  /** The normal form decodes to the triple of the text itself if and only if no escape of the type, which
      ends at the second dot behind the name, stands for a dot. */
  lemma NormalizeKeepsTriple(s: string)
    requires IsText(s) && Normalized(s).Some?
    ensures var rest := s[TypeDot(s) + 1..];
      Decoded(Normalized(s).value) == Decoded(s) <==> !HidesDot(rest[..SecondDot(rest)])
  {
    NormalFormSays(s);
    var rest := s[TypeDot(s) + 1..];
    var j := SecondDot(rest);
    var kind := rest[..j];
    UpToSecond(rest);
    DotsOf(kind);
    HiddenDots(kind);
    DotsOf(Decoded(s).value.kind.value);
  }

  /** With such an escape the normal form decodes to another triple. */
  lemma MovedDot(name: string, kind: string, domain: string)
    requires IsText(name) && IsText(kind) && IsText(domain) && '.' !in name && domain != ""
    requires kind != "" && kind[0] == '_' && OneDot(kind) && HidesDot(kind)
    requires Unescape(name, "").Some? && Unescape(kind, "").Some? && Unescape(domain, "").Some?
    ensures var s := name + "." + (kind + "." + domain);
      Normalized(s).Some? && Decoded(Normalized(s).value) != Decoded(s)
  {
    var rest := kind + "." + domain;
    assert rest[0] == '_';
    FrontBack(name, rest);
    RestBack(name, kind, domain);
    TextsWithDot(kind, domain);
    TextsWithDot(name, rest);
    TypeOf(name, kind, domain);
    NormalizeKeepsTriple(name + "." + rest);
  }

  lemma TextsWithDot(a: string, b: string)
    requires IsText(a) && IsText(b)
    ensures IsText(a + "." + b)
  {
  }

  lemma TypeOf(name: string, kind: string, domain: string)
    requires '.' !in name && kind != "" && kind[0] == '_' && OneDot(kind)
    ensures var s := name + "." + (kind + "." + domain);
      TypeDot(s) < |s| && var rest := s[TypeDot(s) + 1..]; rest[..SecondDot(rest)] == kind
  {
    var rest := kind + "." + domain;
    TypeDotIs(name, rest);
    assert (name + "." + rest)[|name| + 1..] == rest;
    SecondDotIs(kind, domain);
    assert rest[..|kind|] == kind;
  }

  /** Such a text. */
  lemma NormalizeMovesDot()
    ensures var s := "n._a%2eb._c.d"; Normalized(s).Some? && Decoded(Normalized(s).value) != Decoded(s)
  {
    assert "n._a%2eb._c.d" == "n" + "." + ("_a%2eb._c" + "." + "d");
    MovedDotOf("n", "_a%2eb", "_c", "d");
  }

  lemma MovedDotOf(name: string, first: string, second: string, domain: string)
    requires name == "n" && first == "_a%2eb" && second == "_c" && domain == "d"
    ensures first + "." + second == "_a%2eb._c"
    ensures var s := name + "." + (first + "." + second + "." + domain);
      Normalized(s).Some? && Decoded(Normalized(s).value) != Decoded(s)
  {
    var kind := first + "." + second;
    OneDotOf(first, second);
    Readable(name, kind, domain);
    EscapedDot(kind);
    MovedDot(name, kind, domain);
  }

  lemma Readable(name: string, kind: string, domain: string)
    requires name == "n" && kind == "_a%2eb._c" && domain == "d"
    ensures Unescape(name, "").Some? && Unescape(kind, "").Some? && Unescape(domain, "").Some?
  {
    TextLaws.UnescapesExactly(name, "");
    TextLaws.UnescapesExactly(kind, "");
    TextLaws.UnescapesExactly(domain, "");
    assert HexValue('2') == 2 && HexValue('e') == 14;
  }

  lemma EscapedDot(kind: string)
    requires kind == "_a%2eb._c"
    ensures HidesDot(kind)
  {
    assert kind[1..][1..] == "%2eb._c";
    assert HidesDot("%2eb._c") by {
      assert HexValue('2') == 2 && HexValue('e') == 14;
    }
    assert HidesDot(kind[1..]);
  }

  lemma UpToSecond(rest: string)
    requires SecondDot(rest) < |rest|
    ensures OneDot(rest[..SecondDot(rest)])
  {
    var i, j := IndexOf(rest, '.'), SecondDot(rest);
    NoneBefore(rest, '.');
    NoneBefore(rest[i + 1..], '.');
    var q := rest[i + 1..][..j - i - 1];
    assert rest[..j] == rest[..i] + "." + q;
    OneDotOf(rest[..i], q);
  }

  lemma RecutIsText(t: string, d: string, x: string, y: string)
    requires IsText(t) && IsText(d) && t + "." + d == x + "." + y
    ensures IsText(x) && IsText(y)
  {
    var w := t + "." + d;
    assert forall i :: 0 <= i < |w| ==> IsByte(w[i]);
    assert forall i :: 0 <= i < |x| ==> x[i] == w[i];
    assert forall i :: 0 <= i < |y| ==> y[i] == w[|x| + 1 + i];
  }

  // ---------- The operations ----------

  method EscapeServiceName(escaped: string) returns (r: string)
    ensures r == EscapeDots(escaped)
  {
    r := "";
    for i := 0 to |escaped|
      invariant r == EscapeDots(escaped[..i])
    {
      assert escaped[..i + 1][..i] == escaped[..i];
      r := r + if escaped[i] == '.' then "%2e" else [escaped[i]];
    }
    assert escaped[..|escaped|] == escaped;
  }

  method EncodeTriple(name: string, kind: string, domain: string) returns (s: string)
    ensures s == Encoded(name, kind, domain)
  {
    var dotEscaped := EscapeServiceName(Escape(name, "", false));
    s := dotEscaped + "." + (Escape(kind, "", false) + "." + Escape(domain, "", false));
  }

  method FindType(s: string) returns (n: nat)
    ensures n == TypeDot(s)
  {
    n := 0;
    assert s[0..] == s;
    while n < |s|
      invariant n <= |s| && n + TypeDot(s[n..]) == TypeDot(s)
    {
      if s[n] == '.' && n + 1 < |s| && s[n + 1] == '_' {
        return;
      }
      assert s[n..][1..] == s[n + 1..];
      n := n + 1;
    }
  }

  method SkipToDot(s: string, from: nat) returns (n: nat)
    requires from <= |s|
    ensures n == from + IndexOf(s[from..], '.')
  {
    n := from;
    while n < |s| && s[n] != '.'
      invariant from <= n <= |s| && n + IndexOf(s[n..], '.') == from + IndexOf(s[from..], '.')
    {
      assert s[n..][1..] == s[n + 1..];
      n := n + 1;
    }
  }

  method FindSecondDot(rest: string) returns (j: nat)
    ensures j == SecondDot(rest)
  {
    var i := SkipToDot(rest, 0);
    assert rest[0..] == rest;
    if i == |rest| {
      return i;
    }
    j := SkipToDot(rest, i + 1);
  }

  method DecodeTypeAndDomain(name: string, rest: string) returns (r: Option<Triple>)
    ensures r == DecodeRest(name, rest)
  {
    var j := FindSecondDot(rest);
    if j == |rest| || j + 1 == |rest| {
      return None;
    }
    return Some(Triple(Unescape(name, ""), Unescape(rest[..j], ""), Unescape(rest[j + 1..], "")));
  }

  method DecodeTriple(s: string) returns (r: Option<Triple>)
    ensures r == Decoded(s)
  {
    var n := FindType(s);
    if n == |s| {
      return None;
    }
    r := DecodeTypeAndDomain(s[..n], s[n + 1..]);
  }
}
