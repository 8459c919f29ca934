/** Which decoded URIs survive being encoded and decoded: the converse of the round trip. */
module UriLimits {
  import opened Sequences
  import opened Text
  import opened Uris

  // ---------- The scheme ----------

  lemma {:induction false} LowerChars(s: string, i: nat)
    requires i < |s|
    ensures !('A' <= Lower(s)[i] <= 'Z') && (SchemeChar(s[i]) ==> SchemeChar(Lower(s)[i]))
      && (IsAlpha(s[i]) ==> IsAlpha(Lower(s)[i]))
  {
    if i < |s| - 1 {
      LowerChars(s[..|s| - 1], i);
    }
  }

  lemma LowerIsScheme(s: string)
    requires s != "" && IsAlpha(s[0]) && forall i :: 0 <= i < |s| ==> SchemeChar(s[i])
    ensures LowerScheme(Lower(s))
  {
    forall i | 0 <= i < |s| ensures SchemeChar(Lower(s)[i]) && !('A' <= Lower(s)[i] <= 'Z') {
      LowerChars(s, i);
    }
    LowerChars(s, 0);
  }

  /** The text after the scheme. */
  function AfterScheme(d: Uri, utf8: bool): string {
    "//" + (AuthorityText(d, utf8) + Escape(d.path, IN_PATH, utf8)) + TailText(d.query, d.fragment)
  }

  lemma SchemeOf(scheme: string, p: string)
    ensures DecodeHier(scheme, p).Some? ==> DecodeHier(scheme, p).value.scheme == scheme
  {
  }

  lemma DecodedScheme(d: Uri, utf8: bool)
    requires Decode(Encode(d, utf8)) == Some(d)
    ensures LowerScheme(d.scheme) && DecodeHier(d.scheme, AfterScheme(d, utf8)) == Some(d)
  {
    var s := Encode(d, utf8);
    var n := SchemeLength(s);
    SchemeOf(Lower(s[..n]), s[n + 1..]);
    LowerIsScheme(s[..n]);
    SchemeBack(d.scheme, AfterScheme(d, utf8));
  }

  // ---------- Query, fragment and path ----------

  lemma FromMark(s: string, i: nat, mark: string)
    requires i < |s| && mark == [s[i]]
    ensures s[i..] == mark + s[i + 1..] && s == s[..i] + (mark + s[i + 1..])
  {
  }

  lemma WithFragment(t: string, f: nat)
    requires f == IndexOf(t, '#')
    ensures "?" + t == TailText(Some(if f < |t| then t[..f] else t), if f < |t| then Some(t[f + 1..]) else None)
  {
    if f < |t| {
      FromMark(t, f, "#");
      Associative("?", t[..f], "#" + t[f + 1..]);
    } else {
      assert ("?" + t) + "" == "?" + t;
    }
  }

  lemma OnlyFragment(p: string, f: nat)
    requires f == IndexOf(p, '#')
    ensures p[f..] == TailText(None, if f < |p| then Some(p[f + 1..]) else None)
  {
    if f < |p| {
      FromMark(p, f, "#");
      assert "" + ("#" + p[f + 1..]) == "#" + p[f + 1..];
    }
  }

  /** What the decoder cuts off is exactly what the encoder would print for it. */
  lemma TailIsCut(p: string)
    ensures var r := SplitParts(p); p[|r.hier|..] == TailText(r.query, r.fragment)
  {
    var q := IndexOf(p, '?');
    if q < |p| {
      FromMark(p, q, "?");
      WithFragment(p[q + 1..], IndexOf(p[q + 1..], '#'));
    } else {
      OnlyFragment(p, IndexOf(p, '#'));
    }
  }

  lemma PartsFacts(p: string)
    ensures var r := SplitParts(p);
      && '?' !in r.hier && (r.query.None? ==> '#' !in r.hier)
      && (r.query.Some? ==> '#' !in r.query.value)
      && (r.query.None? && r.fragment.Some? ==> '?' !in r.fragment.value)
  {
    NoneBefore(p, '?');
    var q := IndexOf(p, '?');
    if q < |p| {
      NoneBefore(p[q + 1..], '#');
    } else {
      NoneBefore(p, '#');
    }
  }

  lemma SlashesStay(p: string)
    requires "//" <= p
    ensures "//" <= SplitParts(p).hier
  {
    assert p[0] == '/' && p[1] == '/';
    var r := SplitParts(p);
    if |r.hier| < 2 {
      assert p[|r.hier|] == p[|r.hier|..][0];
      TailIsCut(p);
    }
  }

  lemma PathStarts(text: string)
    requires text == "" || text[0] == '/'
    ensures Unescape(text, "/").Some? ==> Unescape(text, "/").value == "" || Unescape(text, "/").value[0] == '/'
  {
  }

  lemma WithPathFacts(scheme: string, a: Authority, path: string, parts: Parts)
    ensures var r := WithPath(scheme, a, path, parts);
      r.Some? ==>
        && r.value.query == parts.query && r.value.fragment == parts.fragment && a.Authority?
        && r.value.userinfo == a.userinfo && r.value.host == a.host && r.value.port == a.port
        && Unescape(path, "/") == Some(r.value.path)
  {
  }

  /** Everything but the authority. */
  ghost predicate OuterFits(d: Uri) {
    && LowerScheme(d.scheme) && (d.path == "" || d.path[0] == '/')
    && (d.query.Some? ==> '#' !in d.query.value)
    && (d.query.None? && d.fragment.Some? ==> '?' !in d.fragment.value)
  }

  /** The part before query and fragment, and where the authority ends in it. */
  lemma DecodedOuter(d: Uri, rest: string, p: string)
    requires p == "//" + rest + TailText(d.query, d.fragment) && DecodeHier(d.scheme, p) == Some(d)
    ensures (d.path == "" || d.path[0] == '/') && (d.query.Some? ==> '#' !in d.query.value)
    ensures d.query.None? && d.fragment.Some? ==> '?' !in d.fragment.value
    ensures '?' !in rest && (d.query.None? ==> '#' !in rest)
    ensures var slash := IndexOf(rest, '/');
      DecodeAuthority(rest[..slash], rest[slash..] + TailText(d.query, d.fragment)) ==
          Authority(d.userinfo, d.host, d.port)
  {
    var parts, tail := SplitParts(p), TailText(d.query, d.fragment);
    assert "//" <= p by {
      assert p[0] == '/' && p[1] == '/';
    }
    SlashesStay(p);
    DecodedRest(d, p, parts);
    TailIsCut(p);
    PartsFacts(p);
    SameFront(parts.hier, "//" + rest, p, tail);
    assert ("//" + rest)[2..] == rest;
    PathStarts(rest[IndexOf(rest, '/')..]);
  }

  lemma SameFront(hier: string, front: string, p: string, tail: string)
    requires hier <= p && p == front + tail && p[|hier|..] == tail
    ensures hier == front
  {
    assert |hier| == |front|;
    assert hier == p[..|hier|] && front == p[..|front|];
  }

  lemma DecodedRest(d: Uri, p: string, parts: Parts)
    requires parts == SplitParts(p) && "//" <= parts.hier && DecodeHier(d.scheme, p) == Some(d)
    ensures d.query == parts.query && d.fragment == parts.fragment
    ensures var rest := parts.hier[2..]; var slash := IndexOf(rest, '/');
      && DecodeAuthority(rest[..slash], rest[slash..] + p[|parts.hier|..]) == Authority(d.userinfo, d.host, d.port)
      && Unescape(rest[slash..], "/") == Some(d.path)
  {
    var rest := parts.hier[2..];
    var slash := IndexOf(rest, '/');
    WithPathFacts(d.scheme, DecodeAuthority(rest[..slash], rest[slash..] + p[|parts.hier|..]), rest[slash..], parts);
  }

  // ---------- How long a decoded host can be ----------

  lemma {:induction false} UnescapeShrinks(s: string)
    ensures Unescape(s, "").Some? ==> |Unescape(s, "").value| <= |s|
    decreases |s|
  {
    if s != "" {
      if s[0] != '%' {
        UnescapeShrinks(s[1..]);
      } else if |s| >= 3 {
        UnescapeShrinks(s[3..]);
      }
    }
  }

  lemma {:induction false} IndexAtMost(s: string, c: char, i: nat)
    requires i < |s| && s[i] == c
    ensures IndexOf(s, c) <= i
  {
    if s[0] != c {
      IndexAtMost(s[1..], c, i - 1);
    }
  }

  lemma {:induction false} PortColonAtMost(a: string, i: nat, b: string)
    requires i < |a| && a[i] == ':' && '/' !in a
    ensures PortColon(a + b) <= i
  {
    assert (a + b)[0] == a[0] && a[0] in a;
    if a[0] != ':' {
      PortColonAtMost(a[1..], i - 1, b);
      assert (a + b)[1..] == a[1..] + b;
    }
  }

  lemma {:induction false} PortColonStops(a: string, b: string)
    requires b == "" || b[0] == '/'
    ensures PortColon(a + b) < |a| || PortColon(a + b) == |a + b|
  {
    if a == "" {
      assert a + b == b;
    } else if a[0] != '/' && a[0] != ':' {
      PortColonStops(a[1..], b);
      assert (a + b)[1..] == a[1..] + b;
    }
  }

  lemma BracketBound(x: string, port: string, after: string, all: string, b: nat)
    requires all == (x + port) + after && b < |x| && '/' !in x && '/' !in port
    requires if port == "" then after == "" || after[0] == '/' else port[0] == ':'
    ensures var colon := b + PortColon(all[b..]); if colon < |all| then colon <= |x| else port == ""
  {
    var a := (x + port)[b..];
    assert all[b..] == a + after;
    if port == "" {
      PortColonStops(a, after);
    } else {
      assert a[|x| - b] == port[0];
      PortColonAtMost(a, |x| - b, after);
    }
  }

  /** The host is no longer than the text before the port. */
  lemma HostBound(x: string, port: string, after: string, h: string)
    requires '/' !in x && '/' !in port && ']' !in port
    requires if port == "" then after == "" || after[0] == '/' else port[0] == ':'
    requires DecodeHost(x + port, after).HostPort? && DecodeHost(x + port, after).host == Some(h)
    ensures |h| <= |x|
  {
    var text := x + port;
    if text != "" && text[0] == '[' {
      var b := IndexOf(text, ']');
      BracketBound(x, port, after, text + after, b);
    } else {
      NamedBound(x, port, after, h);
    }
  }

  lemma NamedBound(x: string, port: string, after: string, h: string)
    requires port == "" || port[0] == ':'
    requires NamedHost(x + port, after).HostPort? && NamedHost(x + port, after).host == Some(h)
    ensures |h| <= |x|
  {
    var text := x + port;
    var colon := IndexOf(text, ':');
    if port != "" {
      assert text[|x|] == ':';
      IndexAtMost(text, ':', |x|);
    }
    UnescapeShrinks(text[..colon]);
    UnescapeShrinks(text);
  }

  // ---------- The host text within the authority ----------

  ghost predicate UserPart(u: string) {
    u == "" || u[|u| - 1] == '@'
  }

  function HostTextIn(text: string): string {
    var at := LastIndexOf(text, '@');
    if at < |text| then text[at + 1..] else text
  }

  lemma DecodedHostText(text: string, after: string, userinfo: Option<string>, h: string, port: int)
    requires DecodeAuthority(text, after) == Authority(userinfo, Some(h), port)
    ensures DecodeHost(HostTextIn(text), after) == HostPort(Some(h), port)
  {
  }

  lemma {:induction false} LastIndexBeyond(s: string, c: char, i: nat)
    requires i < |s| && s[i] == c
    ensures i <= LastIndexOf(s, c) < |s|
  {
    assert c in s;
    if s[|s| - 1] != c {
      assert s[..|s| - 1][i] == c;
      LastIndexBeyond(s[..|s| - 1], c, i);
    }
  }

  lemma EndOf(u: string, y: string, at: nat)
    requires |u| <= at < |u + y|
    ensures (u + y)[at + 1..] == y[at + 1 - |u|..] && (u + y)[at] == y[at - |u|]
  {
  }

  lemma AtIn(u: string, y: string, text: string) returns (at: nat)
    requires '@' in y && text == u + y
    ensures at == LastIndexOf(text, '@') && |u| <= at < |text| && text[at] == '@'
  {
    var i :| 0 <= i < |y| && y[i] == '@';
    assert text[|u| + i] == '@';
    LastIndexBeyond(text, '@', |u| + i);
    at := LastIndexOf(text, '@');
  }

  lemma NoAtAfter(u: string, y: string)
    requires UserPart(u) && '@' !in y
    ensures HostTextIn(u + y) == y
  {
    if u == "" {
      assert u + y == y;
    } else {
      var v := u[..|u| - 1];
      assert u + y == v + "@" + y;
      LastIndexIs(v, '@', y);
    }
  }

  /** With an at-sign after the user part, the host text is a proper end of what follows that part. */
  lemma HostTextOf(u: string, y: string) returns (k: nat)
    requires UserPart(u)
    ensures k <= |y| && HostTextIn(u + y) == y[k..] && (k > 0 <==> '@' in y) && (k > 0 ==> y[k - 1] == '@')
  {
    if '@' in y {
      k := HostAfterAt(u, y);
    } else {
      NoAtAfter(u, y);
      k := 0;
      assert y[0..] == y;
    }
  }

  lemma HostAfterAt(u: string, y: string) returns (k: nat)
    requires '@' in y
    ensures 0 < k <= |y| && HostTextIn(u + y) == y[k..] && y[k - 1] == '@'
  {
    var at := AtIn(u, y, u + y);
    HostTextAt(u + y, at);
    EndOf(u, y, at);
    k := at + 1 - |u|;
  }

  lemma HostTextAt(text: string, at: nat)
    requires at == LastIndexOf(text, '@') && at < |text|
    ensures HostTextIn(text) == text[at + 1..]
  {
  }

  // ---------- A host in brackets ----------

  lemma Regroup(u: string, x: string, y: string, more: string)
    ensures u + ((x + "/" + y) + more) == (u + x) + "/" + (y + more)
  {
    Associative(x + "/", y, more);
    Associative(u, x + "/", y + more);
    Associative(u, x, "/");
  }

  lemma AtSlash(rest: string, a: string, b: string)
    requires '/' !in a && rest == a + "/" + b
    ensures IndexOf(rest, '/') == |a| && rest[..|a|] == a && |a| < |rest| && rest[|a|] == '/'
  {
    IndexOfFirst(a, '/', b);
  }

  lemma FirstSlash(u: string, h: string, more: string, k: nat, rest: string)
    requires '/' !in u && k == IndexOf(h, '/') && k < |h| && rest == u + (h + more)
    ensures |u| + k < |rest| && IndexOf(rest, '/') == |u| + k && rest[..|u| + k] == u + h[..k] && rest[|u| + k] == '/'
  {
    NoneBefore(h, '/');
    var x, y := h[..k], h[k + 1..];
    assert h == x + "/" + y;
    Regroup(u, x, y, more);
    AtSlash(rest, u + x, y + more);
  }

  lemma NoSlash(u: string, h: string, more: string, tail: string, userinfo: Option<string>, port: int)
    requires UserPart(u) && '/' !in u
    requires var rest := u + (h + more); var slash := IndexOf(rest, '/');
      DecodeAuthority(rest[..slash], rest[slash..] + tail) == Authority(userinfo, Some(h), port)
    ensures '/' !in h
  {
    NoneBefore(h, '/');
    if '/' in h {
      var k := IndexOf(h, '/');
      var rest := u + (h + more);
      FirstSlash(u, h, more, k, rest);
      var y, after := h[..k], rest[|u| + k..] + tail;
      assert after[0] == rest[|u| + k];
      var j := HostTextOf(u, y);
      DecodedHostText(u + y, after, userinfo, h, port);
      assert y[j..] + "" == y[j..];
      HostBound(y[j..], "", after, h);
    }
  }

  /** A host longer than its text goes on with what follows. */
  lemma HostReach(x: string, after: string, h: string)
    requires DecodeHost(x, after).HostPort? && DecodeHost(x, after).host == Some(h)
    ensures |h| <= |x| || (after != "" && h[|x|] == after[0])
  {
    if x == "" || x[0] != '[' {
      assert x + "" == x;
      NamedBound(x, "", after, h);
    }
  }

  lemma NoAt(u: string, h: string, p: string, after: string, userinfo: Option<string>, port: int)
    requires UserPart(u) && '/' !in h && p == PortText(port)
    requires DecodeAuthority(u + (h + p), after) == Authority(userinfo, Some(h), port)
    requires after != "" ==> after[0] == '/' || after[0] !in h
    ensures '@' !in h
  {
    if '@' in h {
      PortShape(port);
      AtShows(h, p);
      var k := HostTextOf(u, h + p);
      DecodedHostText(u + (h + p), after, userinfo, h, port);
      AtInHost(h, p, k);
      WholeHost(h, p, k, after, port);
    }
  }

  lemma AtShows(h: string, p: string)
    requires '@' in h
    ensures '@' in h + p
  {
    var i :| 0 <= i < |h| && h[i] == '@';
    assert (h + p)[i] == '@';
  }

  lemma AtInHost(h: string, p: string, k: nat)
    requires 0 < k <= |h + p| && (h + p)[k - 1] == '@' && '@' !in p
    ensures k <= |h| && (h + p)[k..] == h[k..] + p
  {
  }

  /** Less than the host does not decode to the host. */
  lemma WholeHost(h: string, p: string, k: nat, after: string, port: int)
    requires k <= |h| && '/' !in h && p == PortText(port)
    requires DecodeHost(h[k..] + p, after) == HostPort(Some(h), port)
    requires after != "" ==> after[0] == '/' || after[0] !in h
    ensures k == 0
  {
    PortShape(port);
    var x := h[k..];
    if p == "" && after != "" && after[0] != '/' {
      assert x + p == x;
      HostReach(x, after, h);
    } else {
      HostBound(x, p, after, h);
    }
  }

  lemma PortShape(port: int)
    ensures var p := PortText(port); '/' !in p && ']' !in p && '@' !in p && (p != "" ==> p[0] == ':')
  {
    var t := Decimal(port);
    assert forall i :: 0 <= i < |t| ==> IsDigit(t[i]) || t[i] == '-';
  }

  lemma DropFront(s: string, t: string, b: nat)
    requires b <= |s|
    ensures (s + t)[b..] == s[b..] + t
  {
  }

  lemma NoColon(h: string, b: nat, p: string, after: string, port: int)
    requires Bracketed(h) && '/' !in h && '/' !in p && b == IndexOf(h, ']')
    requires DecodeHost(h + p, after) == HostPort(Some(h), port)
    ensures ':' !in h[b..]
  {
    if ':' in h[b..] {
      var i :| 0 <= i < |h[b..]| && h[b..][i] == ':';
      BracketFound(h, p);
      var a := (h + p)[b..];
      DropFront(h, p, b);
      DropFront(h + p, after, b);
      PortColonAtMost(a, i, after);
    }
  }

  lemma NoPortInTail(h: string, b: nat, tail: string)
    requires Bracketed(h) && '/' !in h && b == IndexOf(h, ']') && ':' !in h[b..]
    requires DecodeHost(h, tail) == HostPort(Some(h), -1) && (tail == "" || tail[0] != ':')
    ensures PortColon(tail) == |tail|
  {
    BracketFound(h, "");
    assert h + "" == h;
    BracketColon(h, b, tail);
  }

  lemma TailStarts(query: Option<string>, fragment: Option<string>)
    ensures var t := TailText(query, fragment); t == "" || t[0] == '?' || (query.None? && t[0] == '#')
  {
  }

  ghost function UserText(d: Uri, utf8: bool): string {
    if d.userinfo.None? then "" else Escape(d.userinfo.value, IN_USERINFO, utf8) + "@"
  }

  lemma UserTextIs(d: Uri, utf8: bool)
    ensures UserPart(UserText(d, utf8)) && '/' !in UserText(d, utf8)
  {
    if d.userinfo.Some? {
      EscapeHides(d.userinfo.value, IN_USERINFO, utf8, '/');
    }
  }

  lemma BracketNeeds(d: Uri, u: string, h: string, p: string, e: string, utf8: bool)
    requires d.host == Some(h) && Bracketed(h) && u == UserText(d, utf8) && p == PortText(d.port)
    requires (e == "" <==> d.path == "") && (e != "" ==> e[0] == '/')
    requires var rest := u + (h + (p + e)); var slash := IndexOf(rest, '/');
      && '?' !in rest && (d.query.None? ==> '#' !in rest)
      && DecodeAuthority(rest[..slash], rest[slash..] + TailText(d.query, d.fragment)) ==
          Authority(d.userinfo, d.host, d.port)
    ensures HostFits(d)
  {
    var tail := TailText(d.query, d.fragment);
    UserTextIs(d, utf8);
    PortShape(d.port);
    TailStarts(d.query, d.fragment);
    NoSlash(u, h, p + e, tail, d.userinfo, d.port);
    WholeAuthority(u, h, p, e);
    InRest(u, h, p + e, d.query);
    var after := e + tail;
    assert e == "" ==> after == tail;
    BracketInside(u, h, p, after, d.userinfo, d.port);
    if d.path == "" && d.port == -1 {
      assert h + p == h;
      NoPortInTail(h, IndexOf(h, ']'), tail);
    }
    BracketFits(d, h, tail);
  }

  lemma BracketFits(d: Uri, h: string, tail: string)
    requires d.host == Some(h) && tail == TailText(d.query, d.fragment)
    requires '/' !in h && '?' !in h && '@' !in h && (d.query.None? ==> '#' !in h) && ':' !in h[IndexOf(h, ']')..]
    requires d.path == "" && d.port == -1 ==> PortColon(tail) == |tail|
    ensures HostFits(d)
  {
  }

  lemma BracketInside(u: string, h: string, p: string, after: string, userinfo: Option<string>, port: int)
    requires UserPart(u) && Bracketed(h) && '/' !in h && p == PortText(port)
    requires DecodeAuthority(u + (h + p), after) == Authority(userinfo, Some(h), port)
    requires after != "" ==> after[0] == '/' || after[0] !in h
    ensures '@' !in h && ':' !in h[IndexOf(h, ']')..] && DecodeHost(h + p, after) == HostPort(Some(h), port)
  {
    PortShape(port);
    NoAt(u, h, p, after, userinfo, port);
    HostIsWhole(u, h, p, after, userinfo, port);
    NoColon(h, IndexOf(h, ']'), p, after, port);
  }

  lemma WholeAuthority(u: string, h: string, p: string, e: string)
    requires '/' !in u && '/' !in h && '/' !in p && (e != "" ==> e[0] == '/')
    ensures var rest, a := u + (h + (p + e)), u + (h + p);
      IndexOf(rest, '/') == |a| && rest[..|a|] == a && rest[|a|..] == e
  {
    var a := u + (h + p);
    assert u + (h + (p + e)) == a + e;
    SplitAuthority(a, e);
  }

  lemma InRest(u: string, h: string, more: string, query: Option<string>)
    requires var rest := u + (h + more); '?' !in rest && (query.None? ==> '#' !in rest)
    ensures '?' !in h && (query.None? ==> '#' !in h)
  {
    var rest := u + (h + more);
    assert forall i :: 0 <= i < |h| ==> h[i] == rest[|u| + i] && rest[|u| + i] in rest;
  }

  lemma HostIsWhole(u: string, h: string, p: string, after: string, userinfo: Option<string>, port: int)
    requires UserPart(u) && '@' !in h && '@' !in p
    requires DecodeAuthority(u + (h + p), after) == Authority(userinfo, Some(h), port)
    ensures DecodeHost(h + p, after) == HostPort(Some(h), port)
  {
    var k := HostTextOf(u, h + p);
    DecodedHostText(u + (h + p), after, userinfo, h, port);
    assert (h + p)[0..] == h + p;
  }

  // ---------- The whole ----------

  lemma NeedsHost(d: Uri, utf8: bool)
    requires Decode(Encode(d, utf8)) == Some(d) && OuterFits(d) && TextFields(d)
    ensures d.host.Some?
  {
    if d.host.None? {
      var d' := d.(host := Some(""), userinfo := None, port := -1);
      assert AuthorityText(d, utf8) == AuthorityText(d', utf8);
      DecodeEncode(d', utf8);
    }
  }

  lemma PathTextStarts(path: string, utf8: bool)
    requires path == "" || path[0] == '/'
    ensures var e := Escape(path, IN_PATH, utf8); (e == "" <==> path == "") && (e != "" ==> e[0] == '/')
  {
  }

  lemma Flatten(u: string, h: string, p: string, e: string)
    ensures (u + (h + p)) + e == u + (h + (p + e))
  {
    Associative(u, h + p, e);
    Associative(h, p, e);
  }

  /** What survives fits. */
  lemma Survivors(d: Uri, utf8: bool)
    requires Decode(Encode(d, utf8)) == Some(d) && TextFields(d)
    ensures Fits(d)
  {
    var e := Escape(d.path, IN_PATH, utf8);
    DecodedScheme(d, utf8);
    DecodedOuter(d, AuthorityText(d, utf8) + e, AfterScheme(d, utf8));
    NeedsHost(d, utf8);
    var h := d.host.value;
    if Bracketed(h) {
      var u, p := UserText(d, utf8), PortText(d.port);
      Flatten(u, h, p, e);
      PathTextStarts(d.path, utf8);
      BracketNeeds(d, u, h, p, e, utf8);
    }
  }

  /** A URI comes back as it was if and only if it fits and holds no password. */
  lemma UriRoundTripExactly(d: Uri, utf8: bool)
    requires TextFields(d)
    ensures Decode(Encode(d, utf8)) == Some(d) <==> Fits(d) && (d.userinfo.Some? ==> ':' !in d.userinfo.value)
  {
    if Fits(d) {
      UriRoundTrip(d, utf8);
    } else if Decode(Encode(d, utf8)) == Some(d) {
      Survivors(d, utf8);
    }
  }
}
