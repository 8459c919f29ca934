/** Decoded URIs (RFC 3986, section 3) and their text. */
module Uris {
  import opened Sequences
  import opened Text

  datatype Uri = Uri(scheme: string, userinfo: Option<string>, host: Option<string>, port: int, path: string,
                     query: Option<string>, fragment: Option<string>)

  const SUB_DELIMS := "!$&'()*+,;="
  const IN_USERINFO := SUB_DELIMS + ":"
  const IN_PATH := SUB_DELIMS + ":@" + "/"

  // ---------- Numbers ----------

  predicate IsDigit(c: char) {
    '0' <= c <= '9'
  }

  function Digits(n: nat): (s: string)
    ensures s != "" && forall i :: 0 <= i < |s| ==> IsDigit(s[i])
  {
    if n < 10 then ['0' + n as char] else Digits(n / 10) + ['0' + (n % 10) as char]
  }

  /** printf ("%d") */
  function Decimal(n: int): string {
    if n < 0 then "-" + Digits(-n) else Digits(n)
  }

  function ReadDigits(acc: nat, s: string): nat
    decreases |s|
  {
    if s == "" || !IsDigit(s[0]) then acc else ReadDigits(acc * 10 + (s[0] - '0') as nat, s[1..])
  }

  predicate IsSpace(c: char) {
    c == ' ' || '\t' <= c <= '\r'
  }

  /** atoi, on integers without bounds. */
  function Atoi(s: string): int {
    if s == "" then 0
    else if IsSpace(s[0]) then Atoi(s[1..])
    else if s[0] == '-' then 0 - ReadDigits(0, s[1..])
    else if s[0] == '+' then ReadDigits(0, s[1..])
    else ReadDigits(0, s)
  }

  lemma {:induction false} DigitsRead(n: nat, rest: string)
    ensures ReadDigits(0, Digits(n) + rest) == ReadDigits(n, rest)
  {
    if n < 10 {
      assert (Digits(n) + rest)[1..] == rest;
    } else {
      var last := ['0' + (n % 10) as char];
      DigitsRead(n / 10, last + rest);
      Associative(Digits(n / 10), last, rest);
      assert (last + rest)[1..] == rest;
    }
  }

  lemma AtoiOfDigits(s: string)
    requires s != "" && IsDigit(s[0])
    ensures Atoi(s) == ReadDigits(0, s) && Atoi("-" + s) == 0 - ReadDigits(0, s)
  {
    assert ("-" + s)[1..] == s;
  }

  /** A number printed in front of something that is no digit is read back. */
  lemma DecimalRead(n: int, rest: string)
    requires rest == "" || !IsDigit(rest[0])
    ensures Atoi(Decimal(n) + rest) == n
  {
    var m := if n < 0 then -n else n;
    DigitsRead(m, rest);
    AtoiOfDigits(Digits(m) + rest);
    Associative("-", Digits(m), rest);
  }

  // ---------- The scheme ----------

  predicate IsAlpha(c: char) {
    'a' <= c <= 'z' || 'A' <= c <= 'Z'
  }

  predicate SchemeChar(c: char) {
    IsAlpha(c) || IsDigit(c) || c == '+' || c == '-' || c == '.'
  }

  function Lower(s: string): (r: string)
    ensures |r| == |s|
  {
    if s == "" then ""
    else
      var c := s[|s| - 1];
      Lower(s[..|s| - 1]) + [if 'A' <= c <= 'Z' then c + ('a' - 'A') else c]
  }

  function SchemeLength(s: string): (n: nat)
    ensures n <= |s| && (n < |s| ==> !SchemeChar(s[n])) && forall i :: 0 <= i < n ==> SchemeChar(s[i])
  {
    if s == "" || !SchemeChar(s[0]) then 0 else 1 + SchemeLength(s[1..])
  }

  predicate HasScheme(uri: string) {
    var n := SchemeLength(uri);
    n > 0 && IsAlpha(uri[0]) && n < |uri| && uri[n] == ':'
  }

  // ---------- Query and fragment ----------

  /** The text after the scheme: the part before the query and the fragment, and these. */
  datatype Parts = Parts(hier: string, query: Option<string>, fragment: Option<string>)

  function SplitParts(p: string): (r: Parts)
    ensures r.hier <= p
  {
    var q := IndexOf(p, '?');
    if q < |p| then
      var t := p[q + 1..];
      var f := IndexOf(t, '#');
      if f < |t| then Parts(p[..q], Some(t[..f]), Some(t[f + 1..])) else Parts(p[..q], Some(t), None)
    else
      var f := IndexOf(p, '#');
      if f < |p| then Parts(p[..f], None, Some(p[f + 1..])) else Parts(p, None, None)
  }

  // ---------- The authority ----------

  /** The index of the last `c`, or the length. */
  function LastIndexOf(s: string, c: char): (n: nat)
    ensures n <= |s| && (n < |s| ==> s[n] == c)
  {
    if c !in s then |s| else if s[|s| - 1] == c then |s| - 1 else LastIndexOf(s[..|s| - 1], c)
  }

  /** What follows the host in brackets: the first colon before any slash, or the length. */
  function PortColon(s: string): (n: nat)
    ensures n <= |s| && (n < |s| ==> s[n] == ':')
  {
    if s == "" || s[0] == '/' then |s| else if s[0] == ':' then 0 else 1 + PortColon(s[1..])
  }

  /** Host and port: an error, or the host (missing when its escapes are malformed). */
  datatype HostPort = BadHost | HostPort(host: Option<string>, port: int)

  function SplitPort(text: string, all: string, colon: nat): HostPort {
    if colon < |all| then HostPort(Some(all[..colon]), Atoi(all[colon + 1..])) else HostPort(Some(text), -1)
  }

  /** `text` is the host and port, `after` what follows the authority. A port after brackets
      is looked for in both. */
  function DecodeHost(text: string, after: string): HostPort {
    if text != "" && text[0] == '[' then BracketHost(text, text + after) else NamedHost(text, after)
  }

  function BracketHost(text: string, all: string): HostPort
    requires |text| <= |all|
  {
    var bracket := IndexOf(text, ']');
    if bracket == |text| then BadHost else SplitPort(text, all, bracket + PortColon(all[bracket..]))
  }

  function NamedHost(text: string, after: string): HostPort {
    var colon := IndexOf(text, ':');
    if colon < |text| then HostPort(Unescape(text[..colon], ""), Atoi(text[colon + 1..] + after))
    else HostPort(Unescape(text, ""), -1)
  }

  datatype Authority = BadAuthority | Authority(userinfo: Option<string>, host: Option<string>, port: int)

  function DecodeAuthority(text: string, after: string): Authority {
    var at := LastIndexOf(text, '@');
    var hp := DecodeHost(if at < |text| then text[at + 1..] else text, after);
    if at == |text| then
      if hp.BadHost? then BadAuthority else Authority(None, hp.host, hp.port)
    else
      var user := Unescape(text[..at][..IndexOf(text[..at], ':')], "");
      if user.None? || hp.BadHost? then BadAuthority else Authority(user, hp.host, hp.port)
  }

  // ---------- The whole ----------

  function WithPath(scheme: string, a: Authority, path: string, parts: Parts): Option<Uri> {
    if a.BadAuthority? || Unescape(path, "/").None? then None
    else Some(Uri(scheme, a.userinfo, a.host, a.port, Unescape(path, "/").value, parts.query, parts.fragment))
  }

  /** `rest` is what follows the two slashes, `tail` the text of the query and the fragment. */
  function DecodeRest(scheme: string, rest: string, tail: string, parts: Parts): Option<Uri> {
    var slash := IndexOf(rest, '/');
    WithPath(scheme, DecodeAuthority(rest[..slash], rest[slash..] + tail), rest[slash..], parts)
  }

  function DecodeHier(scheme: string, p: string): Option<Uri> {
    var parts := SplitParts(p);
    var hier := parts.hier;
    if "//" <= hier then DecodeRest(scheme, hier[2..], p[|hier|..], parts)
    else WithPath(scheme, Authority(None, None, -1), hier, parts)
  }

  /** g_vfs_decode_uri */
  function Decode(uri: string): Option<Uri> {
    if !HasScheme(uri) then None
    else DecodeHier(Lower(uri[..SchemeLength(uri)]), uri[SchemeLength(uri) + 1..])
  }

  /** gvfs_is_ipv6 */
  predicate Bracketed(host: string) {
    host != "" && host[0] == '[' && host[|host| - 1] == ']'
  }

  function HostText(host: string, utf8: bool): string {
    if Bracketed(host) then host else Escape(host, SUB_DELIMS, utf8)
  }

  function PortText(port: int): string {
    if port == -1 then "" else ":" + Decimal(port)
  }

  function AuthorityText(d: Uri, utf8: bool): string {
    if d.host.None? then ""
    else (if d.userinfo.None? then "" else Escape(d.userinfo.value, IN_USERINFO, utf8) + "@")
         + (HostText(d.host.value, utf8) + PortText(d.port))
  }

  function TailText(query: Option<string>, fragment: Option<string>): string {
    (if query.None? then "" else "?" + query.value) + (if fragment.None? then "" else "#" + fragment.value)
  }

  /** g_vfs_encode_uri */
  function Encode(d: Uri, utf8: bool): string {
    d.scheme + ":" + ("//" + (AuthorityText(d, utf8) + Escape(d.path, IN_PATH, utf8)) + TailText(d.query, d.fragment))
  }

  // ---------- The two operations ----------

  method DecodeScheme(uri: string) returns (scheme: Option<string>)
    ensures scheme == if HasScheme(uri) then Some(Lower(uri[..SchemeLength(uri)])) else None
  {
    if uri == "" || !IsAlpha(uri[0]) {
      return None;
    }
    var p := 0;
    while p < |uri| && uri[p] != ':'
      invariant p <= |uri| && forall i :: 0 <= i < p ==> SchemeChar(uri[i])
    {
      if !SchemeChar(uri[p]) {
        assert SchemeLength(uri) == p;
        return None;
      }
      p := p + 1;
    }
    assert SchemeLength(uri) == p;
    if p == |uri| {
      return None;
    }
    var out := "";
    for i := 0 to p
      invariant out == Lower(uri[..i])
    {
      assert uri[..i + 1][..i] == uri[..i];
      out := out + [if 'A' <= uri[i] <= 'Z' then uri[i] + ('a' - 'A') else uri[i]];
    }
    return Some(out);
  }

  /** Looks for the start of the port, which must not be in the path. */
  method FindPort(all: string, bracket: nat) returns (colon: nat)
    requires bracket <= |all|
    ensures colon == bracket + PortColon(all[bracket..])
  {
    var i := bracket;
    while i < |all| && all[i] != '/' && all[i] != ':'
      invariant bracket <= i <= |all| && i + PortColon(all[i..]) == bracket + PortColon(all[bracket..])
    {
      assert all[i..][1..] == all[i + 1..];
      i := i + 1;
    }
    return if i < |all| && all[i] == ':' then i else |all|;
  }

  method DecodeHostPort(text: string, after: string) returns (r: HostPort)
    ensures r == DecodeHost(text, after)
  {
    if text == "" || text[0] != '[' {
      return NamedHost(text, after);
    }
    var bracket := IndexOf(text, ']');
    if bracket == |text| {
      return BadHost;
    }
    var colon := FindPort(text + after, bracket);
    return SplitPort(text, text + after, colon);
  }

  method DecodeUserHost(text: string, after: string) returns (r: Authority)
    ensures r == DecodeAuthority(text, after)
  {
    var at := LastIndexOf(text, '@');
    var user: Option<string> := None;
    var host := text;
    if at < |text| {
      host := text[at + 1..];
      var password := IndexOf(text[..at], ':');
      user := Unescape(text[..at][..password], "");
      if user.None? {
        return BadAuthority;
      }
    }
    var hp := DecodeHostPort(host, after);
    if hp.BadHost? {
      return BadAuthority;
    }
    return Authority(user, hp.host, hp.port);
  }

  method DecodeUri(uri: string) returns (d: Option<Uri>)
    ensures d == Decode(uri)
  {
    var scheme := DecodeScheme(uri);
    if scheme.None? {
      return None;
    }
    var p := uri[|scheme.value| + 1..];
    var parts := SplitParts(p);
    var hier, a := parts.hier, Authority(None, None, -1);
    if "//" <= hier {
      var rest := hier[2..];
      var slash := IndexOf(rest, '/');
      a := DecodeUserHost(rest[..slash], rest[slash..] + p[|hier|..]);
      if a.BadAuthority? {
        return None;
      }
      hier := rest[slash..];
    }
    var path := Unescape(hier, "/");
    if path.None? {
      return None;
    }
    return Some(Uri(scheme.value, a.userinfo, a.host, a.port, path.value, parts.query, parts.fragment));
  }

  method EncodeHost(host: string, port: int, allowUtf8: bool) returns (text: string)
    ensures text == HostText(host, allowUtf8) + PortText(port)
  {
    text := if Bracketed(host) then host else Escape(host, SUB_DELIMS, allowUtf8);
    if port != -1 {
      text := text + (":" + Decimal(port));
    } else {
      assert text + "" == text;
    }
  }

  method EncodeAuthority(d: Uri, allowUtf8: bool) returns (text: string)
    ensures text == AuthorityText(d, allowUtf8)
  {
    if d.host.None? {
      return "";
    }
    text := "";
    if d.userinfo.Some? {
      text := Escape(d.userinfo.value, IN_USERINFO, allowUtf8) + "@";
    }
    var hostPort := EncodeHost(d.host.value, d.port, allowUtf8);
    text := text + hostPort;
  }

  method EncodeTail(query: Option<string>, fragment: Option<string>) returns (text: string)
    ensures text == TailText(query, fragment)
  {
    text := "";
    if query.Some? {
      text := "?" + query.value;
    }
    if fragment.Some? {
      text := text + ("#" + fragment.value);
    } else {
      assert text + "" == text;
    }
  }

  method EncodeUri(d: Uri, allowUtf8: bool) returns (uri: string)
    ensures uri == Encode(d, allowUtf8)
  {
    var authority := EncodeAuthority(d, allowUtf8);
    var tail := EncodeTail(d.query, d.fragment);
    uri := d.scheme + ":" + ("//" + (authority + Escape(d.path, IN_PATH, allowUtf8)) + tail);
  }

  // ---------- What survives ----------

  ghost predicate LowerScheme(s: string) {
    s != "" && IsAlpha(s[0]) && forall i :: 0 <= i < |s| ==> SchemeChar(s[i]) && !('A' <= s[i] <= 'Z')
  }

  ghost predicate NoneOf(s: string, cs: string) {
    forall i :: 0 <= i < |s| ==> s[i] !in cs
  }

  /** A bracketed host is printed as it is: nothing in it may end the authority, and no colon
      may come after its first closing bracket. When no path follows, the search for the port
      goes on into the query. */
  ghost predicate HostFits(d: Uri) {
    d.host.Some? &&
    (Bracketed(d.host.value) ==>
       var h := d.host.value;
       && NoneOf(h, "/?@") && (d.query.None? ==> '#' !in h)
       && ':' !in h[IndexOf(h, ']')..]
       && (d.path == "" && d.port == -1 ==>
             PortColon(TailText(d.query, d.fragment)) == |TailText(d.query, d.fragment)|))
  }

  ghost predicate Fits(d: Uri) {
    && LowerScheme(d.scheme) && HostFits(d)
    && (d.path == "" || d.path[0] == '/')
    && (d.query.Some? ==> '#' !in d.query.value)
    && (d.query.None? && d.fragment.Some? ==> '?' !in d.fragment.value)
  }

  ghost predicate TextFields(d: Uri) {
    && IsText(d.path) && (d.host.Some? ==> IsText(d.host.value)) && (d.userinfo.Some? ==> IsText(d.userinfo.value))
  }

  /** A password, from the first colon of the user information on, is dropped. */
  function WithoutPassword(userinfo: Option<string>): Option<string> {
    if userinfo.None? then None else Some(userinfo.value[..IndexOf(userinfo.value, ':')])
  }

  // ---------- Reading back: scheme, query and fragment ----------

  lemma {:induction false} LowerIs(s: string)
    requires forall i :: 0 <= i < |s| ==> !('A' <= s[i] <= 'Z')
    ensures Lower(s) == s
  {
    if s != "" {
      LowerIs(s[..|s| - 1]);
    }
  }

  lemma {:induction false} SchemeStops(scheme: string, rest: string)
    requires forall i :: 0 <= i < |scheme| ==> SchemeChar(scheme[i])
    ensures SchemeLength(scheme + ":" + rest) == |scheme|
  {
    if scheme != "" {
      SchemeStops(scheme[1..], rest);
      assert (scheme + ":" + rest)[1..] == scheme[1..] + ":" + rest;
    }
  }

  lemma SchemeBack(scheme: string, rest: string)
    requires LowerScheme(scheme)
    ensures var uri, n := scheme + ":" + rest, |scheme|;
      HasScheme(uri) && SchemeLength(uri) == n && Lower(uri[..n]) == scheme && uri[n + 1..] == rest
  {
    var uri, n := scheme + ":" + rest, |scheme|;
    SchemeStops(scheme, rest);
    LowerIs(scheme);
    assert uri[..n] == scheme && uri[n + 1..] == rest;
  }

  lemma CutAt(a: string, c: char, b: string)
    requires c !in a
    ensures var s := a + ([c] + b); IndexOf(s, c) == |a| && s[..|a|] == a && s[|a| + 1..] == b
  {
    IndexOfFirst(a, c, b);
    Associative(a, [c], b);
  }

  lemma QueryBack(x: string, query: string, fragment: Option<string>)
    requires '?' !in x && '#' !in query
    ensures SplitParts(x + TailText(Some(query), fragment)) == Parts(x, Some(query), fragment)
  {
    var t := query + if fragment.None? then "" else "#" + fragment.value;
    assert TailText(Some(query), fragment) == "?" + t;
    CutAt(x, '?', t);
    if fragment.Some? {
      CutAt(query, '#', fragment.value);
    } else {
      assert t == query;
      IndexOfNone(query, '#');
    }
  }

  lemma FragmentBack(x: string, fragment: Option<string>)
    requires '?' !in x && '#' !in x && (fragment.Some? ==> '?' !in fragment.value)
    ensures SplitParts(x + TailText(None, fragment)) == Parts(x, None, fragment)
  {
    IndexOfNone(x + TailText(None, fragment), '?');
    if fragment.Some? {
      assert TailText(None, fragment) == "#" + fragment.value;
      CutAt(x, '#', fragment.value);
    } else {
      assert x + TailText(None, fragment) == x;
      IndexOfNone(x, '#');
    }
  }

  lemma PartsBack(x: string, query: Option<string>, fragment: Option<string>)
    requires '?' !in x && (query.None? ==> '#' !in x)
    requires query.Some? ==> '#' !in query.value
    requires query.None? && fragment.Some? ==> '?' !in fragment.value
    ensures SplitParts(x + TailText(query, fragment)) == Parts(x, query, fragment)
  {
    if query.Some? {
      QueryBack(x, query.value, fragment);
    } else {
      FragmentBack(x, fragment);
    }
  }

  // ---------- Reading back: the authority ----------

  lemma {:induction false} LastIndexIs(a: string, c: char, b: string)
    requires c !in b
    ensures LastIndexOf(a + [c] + b, c) == |a|
  {
    var s := a + [c] + b;
    assert s[|a|] == c;
    if b == "" {
      assert s == a + [c];
    } else {
      var n := |b| - 1;
      LastIndexIs(a, c, b[..n]);
      assert s[..|s| - 1] == a + [c] + b[..n];
      assert s[|s| - 1] == b[n];
    }
  }

  lemma {:induction false} PortColonIs(a: string, b: string)
    requires ':' !in a && '/' !in a
    ensures PortColon(a + b) == |a| + PortColon(b)
  {
    if a == "" {
      assert a + b == b;
    } else {
      PortColonIs(a[1..], b);
      assert (a + b)[1..] == a[1..] + b;
    }
  }

  ghost predicate Follows(after: string) {
    after == "" || after[0] == '/' || after[0] == '?' || after[0] == '#'
  }

  lemma BracketColon(h: string, b: nat, tail: string)
    requires b <= |h| && ':' !in h[b..] && '/' !in h
    ensures b + PortColon((h + tail)[b..]) == |h| + PortColon(tail)
  {
    assert (h + tail)[b..] == h[b..] + tail;
    PortColonIs(h[b..], tail);
  }

  /** The text of a port in front of `after`. */
  ghost predicate PortRest(more: string, port: int, after: string) {
    if port == -1 then more == "" && PortColon(after) == |after|
    else more != "" && more[0] == ':' && Atoi(more[1..] + after) == port
  }

  lemma PortTextIs(port: int, after: string)
    requires Follows(after) && (port == -1 ==> PortColon(after) == |after|)
    ensures PortRest(PortText(port), port, after)
  {
    if port != -1 {
      DecimalRead(port, after);
      assert PortText(port)[1..] == Decimal(port);
    }
  }

  lemma SplitPortBack(h: string, more: string, port: int, after: string)
    requires PortRest(more, port, after)
    ensures SplitPort(h + more, h + (more + after), |h| + PortColon(more + after)) == HostPort(Some(h), port)
  {
    if port == -1 {
      assert more + after == after && h + more == h;
    } else {
      var all := h + (more + after);
      assert all[..|h|] == h && all[|h| + 1..] == more[1..] + after;
    }
  }

  lemma BracketBack(h: string, b: nat, more: string, port: int, after: string, text: string, all: string)
    requires text == h + more && all == text + after && PortRest(more, port, after)
    requires b < |h| && IndexOf(text, ']') == b && '/' !in h && ':' !in h[b..]
    ensures BracketHost(text, all) == HostPort(Some(h), port)
  {
    Associative(h, more, after);
    BracketColon(h, b, more + after);
    SplitPortBack(h, more, port, after);
  }

  lemma BracketFound(h: string, more: string)
    requires Bracketed(h)
    ensures IndexOf(h, ']') < |h| && IndexOf(h + more, ']') == IndexOf(h, ']')
  {
    var b := IndexOf(h, ']');
    NoneBefore(h, ']');
    var inside, rest := h[..b], h[b + 1..];
    assert h + more == inside + "]" + (rest + more);
    IndexOfFirst(inside, ']', rest + more);
  }

  lemma NameBack(e: string, h: string, port: int, after: string)
    requires ':' !in e && '[' !in e && Unescape(e, "") == Some(h) && Follows(after)
    ensures DecodeHost(e + PortText(port), after) == HostPort(Some(h), port)
  {
    if port == -1 {
      assert e + PortText(port) == e;
    } else {
      CutAt(e, ':', Decimal(port));
      DecimalRead(port, after);
    }
  }

  lemma NameText(h: string, utf8: bool)
    requires IsText(h)
    ensures var e := Escape(h, SUB_DELIMS, utf8); ':' !in e && '[' !in e && Unescape(e, "") == Some(h)
  {
    EscapeHides(h, SUB_DELIMS, utf8, ':');
    EscapeHides(h, SUB_DELIMS, utf8, '[');
    UnescapeUndoesEscape(h, SUB_DELIMS, utf8, "");
  }

  lemma HostBack(h: string, port: int, after: string, utf8: bool)
    requires IsText(h) && Follows(after)
    requires Bracketed(h) ==>
      '/' !in h && ':' !in h[IndexOf(h, ']')..] && (port == -1 ==> PortColon(after) == |after|)
    ensures DecodeHost(HostText(h, utf8) + PortText(port), after) == HostPort(Some(h), port)
  {
    if Bracketed(h) {
      PortTextIs(port, after);
      var text := h + PortText(port);
      BracketFound(h, PortText(port));
      BracketBack(h, IndexOf(h, ']'), PortText(port), port, after, text, text + after);
    } else {
      NameText(h, utf8);
      NameBack(Escape(h, SUB_DELIMS, utf8), h, port, after);
    }
  }

  // ---------- Reading back: the user information ----------

  lemma Utf8Stops(a: string, c: char, b: string)
    requires a != "" && c as int < 0x80
    ensures Utf8Length(a + [c] + b) == Utf8Length(a)
  {
    var s := a + [c] + b;
    assert s[|a|] == c && forall i :: 0 <= i < |a| ==> s[i] == a[i];
  }

  /** The first bytes of a text that are escaped together, and their escape. */
  function HeadLength(s: string, utf8: bool): (n: nat)
    requires s != ""
    ensures 0 < n <= |s|
  {
    if utf8 && Utf8Length(s) > 0 then Utf8Length(s) else 1
  }

  function HeadText(s: string, allowed: string, utf8: bool): string
    requires s != ""
  {
    if utf8 && Utf8Length(s) > 0 then s[..Utf8Length(s)] else EscapeByte(s[0], allowed)
  }

  lemma EscapeHead(s: string, t: string, n: nat, head: string, allowed: string, utf8: bool)
    requires s != "" && n == HeadLength(s, utf8) && t == s[n..] && head == HeadText(s, allowed, utf8)
    ensures Escape(s, allowed, utf8) == head + Escape(t, allowed, utf8)
  {
  }

  lemma SameHead(a: string, c: char, b: string, allowed: string, utf8: bool)
    requires a != "" && c as int < 0x80
    ensures var s, n := a + [c] + b, HeadLength(a, utf8);
      HeadLength(s, utf8) == n && HeadText(s, allowed, utf8) == HeadText(a, allowed, utf8) && s[n..] == a[n..] + [c] + b
  {
    Utf8Stops(a, c, b);
    var s, n := a + [c] + b, HeadLength(a, utf8);
    assert s[..n] == a[..n];
  }

  lemma {:induction false} EscapeConcat(a: string, c: char, b: string, allowed: string, utf8: bool)
    requires c in allowed && c as int < 0x80
    ensures Escape(a + [c] + b, allowed, utf8) == Escape(a, allowed, utf8) + [c] + Escape(b, allowed, utf8)
    decreases |a|
  {
    var s := a + [c] + b;
    if a == "" {
      assert s[0] == c && s[1..] == b;
    } else {
      SameHead(a, c, b, allowed, utf8);
      var n, head := HeadLength(a, utf8), HeadText(a, allowed, utf8);
      var t := a[n..];
      EscapeConcat(t, c, b, allowed, utf8);
      EscapeHead(a, t, n, head, allowed, utf8);
      EscapeHead(s, t + [c] + b, n, head, allowed, utf8);
      Associative(head, Escape(t, allowed, utf8) + [c], Escape(b, allowed, utf8));
      Associative(head, Escape(t, allowed, utf8), [c]);
    }
  }

  lemma UserCut(user: string, n: nat, utf8: bool) returns (e': string, more: string)
    requires n == IndexOf(user, ':') && n < |user|
    ensures e' == Escape(user[..n], IN_USERINFO, utf8) && Escape(user, IN_USERINFO, utf8) == e' + ":" + more
  {
    var a, b := user[..n], user[n + 1..];
    assert user == a + ":" + b;
    EscapeConcat(a, ':', b, IN_USERINFO, utf8);
    e', more := Escape(a, IN_USERINFO, utf8), Escape(b, IN_USERINFO, utf8);
  }

  lemma FirstPart(e: string, e': string, more: string)
    requires ':' !in e' && (e == e' || e == e' + ":" + more)
    ensures e[..IndexOf(e, ':')] == e'
  {
    if e == e' {
      IndexOfNone(e, ':');
    } else {
      IndexOfFirst(e', ':', more);
    }
  }

  lemma UserBack(user: string, e: string, utf8: bool)
    requires IsText(user) && e == Escape(user, IN_USERINFO, utf8)
    ensures Unescape(e[..IndexOf(e, ':')], "") == Some(user[..IndexOf(user, ':')])
  {
    var n := IndexOf(user, ':');
    NoneBefore(user, ':');
    EscapeAddsNone(user[..n], IN_USERINFO, utf8, ':');
    UnescapeUndoesEscape(user[..n], IN_USERINFO, utf8, "");
    if n < |user| {
      var e', more := UserCut(user, n, utf8);
      FirstPart(e, e', more);
    } else {
      assert user[..n] == user;
      FirstPart(e, e, "");
    }
  }

  lemma AuthorityOfHost(hp: string, after: string)
    requires '@' !in hp
    ensures var r := DecodeHost(hp, after);
      r.HostPort? ==> DecodeAuthority(hp, after) == Authority(None, r.host, r.port)
  {
  }

  lemma AuthorityOfUser(e: string, hp: string, after: string)
    requires '@' !in hp
    ensures var r, user := DecodeHost(hp, after), Unescape(e[..IndexOf(e, ':')], "");
      r.HostPort? && user.Some? ==> DecodeAuthority(e + "@" + hp, after) == Authority(user, r.host, r.port)
  {
    LastIndexIs(e, '@', hp);
    var text := e + "@" + hp;
    assert text[..|e|] == e && text[|e| + 1..] == hp;
  }

  lemma AuthorityBack(d: Uri, after: string, utf8: bool)
    requires HostFits(d) && TextFields(d) && Follows(after)
    requires Bracketed(d.host.value) && d.port == -1 ==> PortColon(after) == |after|
    ensures DecodeAuthority(AuthorityText(d, utf8), after) == Authority(WithoutPassword(d.userinfo), d.host, d.port)
  {
    var hp := HostText(d.host.value, utf8) + PortText(d.port);
    HostBack(d.host.value, d.port, after, utf8);
    HostHasNo(d, utf8);
    if d.userinfo.None? {
      assert AuthorityText(d, utf8) == hp;
      AuthorityOfHost(hp, after);
    } else {
      var e := Escape(d.userinfo.value, IN_USERINFO, utf8);
      UserBack(d.userinfo.value, e, utf8);
      AuthorityOfUser(e, hp, after);
    }
  }

  lemma NoneOfConcat(a: string, b: string, cs: string)
    requires NoneOf(a, cs) && NoneOf(b, cs)
    ensures NoneOf(a + b, cs)
  {
  }

  lemma EscapeNoneOf(s: string, allowed: string, utf8: bool, cs: string)
    requires forall i :: 0 <= i < |cs| ==> !Escaped(cs[i], allowed, utf8)
    ensures NoneOf(Escape(s, allowed, utf8), cs)
  {
    EscapeAlphabet(s, allowed, utf8);
  }

  lemma PortHasNo(port: int)
    ensures NoneOf(PortText(port), "/?#@")
  {
    assert forall i :: 0 <= i < |Decimal(port)| ==> IsDigit(Decimal(port)[i]) || Decimal(port)[i] == '-';
  }

  /** What may not show in the authority: a number sign may, if a query follows. */
  function Enders(query: Option<string>): string {
    if query.None? then "/?#" else "/?"
  }

  lemma HostHasNo(d: Uri, utf8: bool)
    requires HostFits(d)
    ensures var hp := HostText(d.host.value, utf8) + PortText(d.port);
      NoneOf(hp, Enders(d.query)) && '@' !in hp
  {
    PortHasNo(d.port);
    var h := HostText(d.host.value, utf8);
    if !Bracketed(d.host.value) {
      EscapeNoneOf(d.host.value, SUB_DELIMS, utf8, "/?#@");
    }
    assert NoneOf(h, Enders(d.query)) && '@' !in h;
    NoneOfConcat(h, PortText(d.port), Enders(d.query));
  }

  lemma AuthorityHasNo(d: Uri, utf8: bool)
    requires HostFits(d)
    ensures NoneOf(AuthorityText(d, utf8), Enders(d.query))
  {
    HostHasNo(d, utf8);
    var hp := HostText(d.host.value, utf8) + PortText(d.port);
    if d.userinfo.Some? {
      UserHasNo(d.userinfo.value, d.query, utf8);
      UserHostNone(Escape(d.userinfo.value, IN_USERINFO, utf8), hp, Enders(d.query));
    } else {
      assert "" + hp == hp;
    }
  }

  lemma UserHasNo(user: string, query: Option<string>, utf8: bool)
    ensures NoneOf(Escape(user, IN_USERINFO, utf8), Enders(query)) && '@' !in Enders(query)
  {
    EscapeNoneOf(user, IN_USERINFO, utf8, "/?#");
  }

  lemma UserHostNone(e: string, hp: string, cs: string)
    requires NoneOf(e, cs) && NoneOf(hp, cs) && '@' !in cs
    ensures NoneOf(e + "@" + hp, cs)
  {
  }

  lemma HierHasNo(a: string, e: string, query: Option<string>)
    requires NoneOf(a, Enders(query)) && '?' !in e && '#' !in e
    ensures var rest := a + e; '/' !in a && '?' !in rest && (query.None? ==> '#' !in rest)
  {
    assert query.None? ==> Enders(query)[2] == '#';
    assert Enders(query)[0] == '/' && Enders(query)[1] == '?';
  }

  // ---------- The round trip ----------

  lemma PathText(path: string, utf8: bool)
    requires IsText(path) && (path == "" || path[0] == '/')
    ensures var e := Escape(path, IN_PATH, utf8);
      && Unescape(e, "/") == Some(path) && '?' !in e && '#' !in e
      && (path == "" ==> e == "") && (path != "" ==> e != "" && e[0] == '/')
  {
    EscapeHides(path, IN_PATH, utf8, '?');
    EscapeHides(path, IN_PATH, utf8, '#');
    UnescapeUndoesEscape(path, IN_PATH, utf8, "/");
  }

  lemma SplitAuthority(a: string, e: string)
    requires '/' !in a && (e == "" || e[0] == '/')
    ensures var rest := a + e; IndexOf(rest, '/') == |a| && rest[..|a|] == a && rest[|a|..] == e
  {
    var rest := a + e;
    if e == "" {
      assert rest == a;
    } else {
      assert rest == a + ("/" + e[1..]);
      CutAt(a, '/', e[1..]);
    }
  }

  lemma HierDecoded(scheme: string, rest: string, query: Option<string>, fragment: Option<string>)
    requires '?' !in rest && (query.None? ==> '#' !in rest)
    requires query.Some? ==> '#' !in query.value
    requires query.None? && fragment.Some? ==> '?' !in fragment.value
    ensures var tail := TailText(query, fragment);
      DecodeHier(scheme, "//" + rest + tail) == DecodeRest(scheme, rest, tail, Parts("//" + rest, query, fragment))
  {
    var hier, tail := "//" + rest, TailText(query, fragment);
    PartsBack(hier, query, fragment);
    assert hier[2..] == rest && (hier + tail)[|hier|..] == tail;
  }

  lemma TailFollows(d: Uri, e: string)
    requires (e == "" || e[0] == '/')
    ensures Follows(e + TailText(d.query, d.fragment))
    ensures e != "" ==> var after := e + TailText(d.query, d.fragment); PortColon(after) == |after|
  {
  }

  lemma RestDecoded(d: Uri, a: string, e: string, parts: Parts, utf8: bool)
    requires Fits(d) && TextFields(d) && a == AuthorityText(d, utf8) && e == Escape(d.path, IN_PATH, utf8)
    requires parts.query == d.query && parts.fragment == d.fragment && '/' !in a
    requires Unescape(e, "/") == Some(d.path) && (d.path == "" ==> e == "") && (d.path != "" ==> e != "" && e[0] == '/')
    ensures DecodeRest(d.scheme, a + e, TailText(d.query, d.fragment), parts) ==
            Some(d.(userinfo := WithoutPassword(d.userinfo)))
  {
    var tail := TailText(d.query, d.fragment);
    SplitAuthority(a, e);
    TailFollows(d, e);
    assert e == "" ==> e + tail == tail;
    AuthorityBack(d, e + tail, utf8);
  }

  /** What comes back is the same URI without the password, for both forms of the text. */
  lemma DecodeEncode(d: Uri, utf8: bool)
    requires Fits(d) && TextFields(d)
    ensures Decode(Encode(d, utf8)) == Some(d.(userinfo := WithoutPassword(d.userinfo)))
  {
    var a, e, tail := AuthorityText(d, utf8), Escape(d.path, IN_PATH, utf8), TailText(d.query, d.fragment);
    SchemeBack(d.scheme, "//" + (a + e) + tail);
    PathText(d.path, utf8);
    AuthorityHasNo(d, utf8);
    HierHasNo(a, e, d.query);
    HierDecoded(d.scheme, a + e, d.query, d.fragment);
    RestDecoded(d, a, e, Parts("//" + (a + e), d.query, d.fragment), utf8);
  }

  lemma NoPassword(userinfo: Option<string>)
    ensures WithoutPassword(userinfo) == userinfo <==> (userinfo.Some? ==> ':' !in userinfo.value)
  {
    if userinfo.Some? {
      var u := userinfo.value;
      NoneBefore(u, ':');
      assert u[..|u|] == u;
    }
  }

  /** The round trip is exact when there is no password, and only then. */
  lemma UriRoundTrip(d: Uri, utf8: bool)
    requires Fits(d) && TextFields(d)
    ensures Decode(Encode(d, utf8)) == Some(d) <==> (d.userinfo.Some? ==> ':' !in d.userinfo.value)
  {
    DecodeEncode(d, utf8);
    NoPassword(d.userinfo);
  }
}
