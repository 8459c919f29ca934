/** The URI decoder by its laws: what a scheme is, that its letters may be of either case, and what
    becomes of a URI without an authority. */
module UriLaws {
  import opened Sequences
  import opened Text
  import TextLaws
  import opened Uris

  /** A capital of the scheme becomes the small letter at the same distance from `a`; every other
      character stays. */
  lemma {:induction false} LoweredAt(s: string, i: nat)
    requires i < |s|
    ensures if 'A' <= s[i] <= 'Z' then 'a' <= Lower(s)[i] <= 'z' && Lower(s)[i] - 'a' == s[i] - 'A'
            else Lower(s)[i] == s[i]
  {
    if i < |s| - 1 {
      LoweredAt(s[..|s| - 1], i);
    }
  }

  /** The characters are the same, but for the case of letters. */
  predicate SameLetters(a: string, b: string) {
    && |a| == |b|
    && forall i :: 0 <= i < |a| ==>
         || a[i] == b[i]
         || ('a' <= a[i] <= 'z' && 'A' <= b[i] <= 'Z' && a[i] - 'a' == b[i] - 'A')
         || ('A' <= a[i] <= 'Z' && 'a' <= b[i] <= 'z' && a[i] - 'A' == b[i] - 'a')
  }

  lemma LoweredAlike(a: string, b: string)
    requires SameLetters(a, b)
    ensures Lower(a) == Lower(b)
  {
    forall i | 0 <= i < |a| ensures Lower(a)[i] == Lower(b)[i] {
      LoweredAt(a, i);
      LoweredAt(b, i);
    }
  }

  lemma {:induction false} SchemeAlike(a: string, b: string, rest: string)
    requires SameLetters(a, b) && ':' !in a
    ensures ':' !in b && SchemeLength(a + ":" + rest) == SchemeLength(b + ":" + rest) <= |a|
    ensures SchemeLength(a + ":" + rest) < |a| ==> (a + ":" + rest)[SchemeLength(a + ":" + rest)] != ':'
                                                   && (b + ":" + rest)[SchemeLength(a + ":" + rest)] != ':'
  {
    assert forall i :: 0 <= i < |b| ==> b[i] != ':' by {
      assert forall i :: 0 <= i < |a| ==> a[i] in a;
    }
    if a != "" {
      assert (a + ":" + rest)[1..] == a[1..] + ":" + rest && (b + ":" + rest)[1..] == b[1..] + ":" + rest;
      SchemeAlike(a[1..], b[1..], rest);
    }
  }

  /** However the letters of its scheme are cased, a URI decodes to the same. */
  lemma SchemeCaseIsIgnored(a: string, b: string, rest: string)
    requires SameLetters(a, b) && ':' !in a
    ensures Decode(a + ":" + rest) == Decode(b + ":" + rest)
  {
    SchemeAlike(a, b, rest);
    LoweredAlike(a, b);
    var n := |a|;
    var s, t := a + ":" + rest, b + ":" + rest;
    assert s[..n] == a && t[..n] == b && s[n + 1..] == rest == t[n + 1..];
    if a != "" {
      assert IsAlpha(s[0]) <==> IsAlpha(t[0]);
    }
  }

  /** A URI has a scheme if it starts with a letter and only scheme characters precede its colon. */
  lemma SchemeExactly(uri: string)
    ensures HasScheme(uri) <==>
            exists n :: 0 < n < |uri| && uri[n] == ':' && IsAlpha(uri[0]) && forall i :: 0 <= i < n ==>
                SchemeChar(uri[i])
    ensures !HasScheme(uri) ==> Decode(uri) == None
  {
    if exists n :: 0 < n < |uri| && uri[n] == ':' && IsAlpha(uri[0]) && forall i :: 0 <= i < n ==> SchemeChar(uri[i]) {
      var n :| 0 < n < |uri| && uri[n] == ':' && IsAlpha(uri[0]) && forall i :: 0 <= i < n ==> SchemeChar(uri[i]);
      assert SchemeLength(uri) == n;
    }
  }

  /** Without two slashes after the scheme there is no authority: the rest is the path, and the URI is
      refused if and only if an escape in it is malformed or hides a slash. */
  lemma DecodedWithoutAuthority(scheme: string, path: string)
    requires scheme != "" && IsAlpha(scheme[0]) && forall i :: 0 <= i < |scheme| ==> SchemeChar(scheme[i])
    requires '?' !in path && '#' !in path && !("//" <= path)
    ensures Unescape(path, "/").Some? <==> TextLaws.GoodEscapes(path, "/")
    ensures Decode(scheme + ":" + path) ==
            if Unescape(path, "/").Some?
            then Some(Uri(Lower(scheme), None, None, -1, Unescape(path, "/").value, None, None)) else None
  {
    var uri := scheme + ":" + path;
    SchemeStops(scheme, path);
    assert uri[..|scheme|] == scheme && uri[|scheme| + 1..] == path;
    IndexOfNone(path, '?');
    IndexOfNone(path, '#');
    TextLaws.UnescapesExactly(path, "/");
  }

  // ---------- With an authority ----------

  predicate Free(s: string, cs: string) {
    forall c :: c in cs ==> c !in s
  }

  function UserText(user: Option<string>, password: Option<string>): string {
    if user.None? then "" else user.value + (if password.None? then "" else ":" + password.value) + "@"
  }

  function NameText(name: string, port: Option<string>): string {
    name + if port.None? then "" else ":" + port.value
  }

  /** The port ends where the path, the query or the fragment begins. */
  lemma {:induction false} DigitsStop(acc: nat, s: string, after: string)
    requires Follows(after)
    ensures ReadDigits(acc, s + after) == ReadDigits(acc, s)
    decreases |s|
  {
    if s == "" {
      assert s + after == after;
    } else if IsDigit(s[0]) {
      assert (s + after)[1..] == s[1..] + after;
      DigitsStop(acc * 10 + (s[0] - '0') as nat, s[1..], after);
    }
  }

  lemma {:induction false} AtoiStops(s: string, after: string)
    requires Follows(after)
    ensures Atoi(s + after) == Atoi(s)
  {
    if s == "" {
      assert s + after == after;
    } else {
      assert (s + after)[1..] == s[1..] + after;
      DigitsStop(0, s, after);
      DigitsStop(0, s[1..], after);
      if IsSpace(s[0]) {
        AtoiStops(s[1..], after);
      }
    }
  }

  /** A name that is not in brackets ends at the first colon, and a number follows. */
  lemma NamePort(name: string, port: Option<string>, after: string)
    requires ':' !in name && !("[" <= name) && Follows(after)
    ensures DecodeHost(NameText(name, port), after) ==
            HostPort(Unescape(name, ""), if port.None? then -1 else Atoi(port.value))
  {
    var text := NameText(name, port);
    if port.None? {
      assert text == name;
      IndexOfNone(name, ':');
    } else {
      CutAt(name, ':', port.value);
      AtoiStops(port.value, after);
    }
    assert text == "" || text[0] != '[';
  }

  /** The user ends at the first colon, the user information at the last at-sign. */
  lemma UserAndName(user: Option<string>, password: Option<string>, name: string, port: Option<string>, after: string)
    requires user.Some? ==> ':' !in user.value
    requires ':' !in name && !("[" <= name) && Follows(after) && '@' !in NameText(name, port)
    ensures DecodeAuthority(UserText(user, password) + NameText(name, port), after) ==
            if user.Some? && Unescape(user.value, "").None? then BadAuthority
            else Authority(if user.None? then None else Unescape(user.value, ""), Unescape(name, ""),
                           if port.None? then -1 else Atoi(port.value))
  {
    NamePort(name, port, after);
    if user.None? {
      assert UserText(user, password) + NameText(name, port) == NameText(name, port);
    } else {
      UserEnds(user.value, password, NameText(name, port));
    }
  }

  lemma UserEnds(user: string, password: Option<string>, host: string)
    requires ':' !in user && '@' !in host
    ensures var text := UserText(Some(user), password) + host;
            var at := LastIndexOf(text, '@');
      at < |text| && text[at + 1..] == host && text[..at][..IndexOf(text[..at], ':')] == user
  {
    var info := user + if password.None? then "" else ":" + password.value;
    var text := UserText(Some(user), password) + host;
    assert text == info + "@" + host;
    LastIndexIs(info, '@', host);
    assert text[..|info|] == info && text[|info| + 1..] == host;
    if password.None? {
      assert info == user;
      IndexOfNone(user, ':');
    } else {
      CutAt(user, ':', password.value);
    }
  }

  /** The path begins at the first slash behind the authority. */
  lemma PathBegins(authority: string, path: string)
    requires '/' !in authority && (path != "" ==> path[0] == '/')
    ensures IndexOf(authority + path, '/') == |authority|
    ensures (authority + path)[..|authority|] == authority && (authority + path)[|authority|..] == path
  {
    if path == "" {
      assert authority + path == authority;
      IndexOfNone(authority, '/');
    } else {
      assert path == "/" + path[1..];
      CutAt(authority, '/', path[1..]);
    }
  }

  /** A URI with an authority in general: each part is what stands between its delimiters, unescaped if it is the
      user, the host or the path; a malformed escape in the user or the path refuses the whole, one in the
      host loses the host. */
  lemma DecodedWithAuthority(scheme: string, user: Option<string>, password: Option<string>, name: string,
                             port: Option<string>, path: string, query: Option<string>, fragment: Option<string>)
    requires scheme != "" && IsAlpha(scheme[0]) && forall i :: 0 <= i < |scheme| ==> SchemeChar(scheme[i])
    requires user.Some? ==> ':' !in user.value
    requires ':' !in name && !("[" <= name) && '@' !in NameText(name, port)
    requires Free(UserText(user, password) + NameText(name, port), "/?#")
    requires (path != "" ==> path[0] == '/') && Free(path, "?#")
    requires query.Some? ==> '#' !in query.value
    requires query.None? && fragment.Some? ==> '?' !in fragment.value
    ensures
      var uri := scheme + ":" +
                 ("//" + ((UserText(user, password) + NameText(name, port)) + path) + TailText(query, fragment));
      Decode(uri) ==
      if (user.Some? && Unescape(user.value, "").None?) || Unescape(path, "/").None? then None
      else Some(Uri(Lower(scheme), if user.None? then None else Unescape(user.value, ""), Unescape(name, ""),
                    if port.None? then -1 else Atoi(port.value), Unescape(path, "/").value, query, fragment))
  {
    var authority, tail := UserText(user, password) + NameText(name, port), TailText(query, fragment);
    assert '/' in "/?#" && '?' in "/?#" && '#' in "/?#" && '?' in "?#" && '#' in "?#";
    SchemeCut(scheme, "//" + (authority + path) + tail);
    HierCut(Lower(scheme), authority, path, query, fragment);
    UserAndName(user, password, name, port, path + tail);
  }

  lemma SchemeCut(scheme: string, p: string)
    requires scheme != "" && IsAlpha(scheme[0]) && forall i :: 0 <= i < |scheme| ==> SchemeChar(scheme[i])
    ensures Decode(scheme + ":" + p) == DecodeHier(Lower(scheme), p)
  {
    SchemeStops(scheme, p);
    var uri := scheme + ":" + p;
    assert uri[..|scheme|] == scheme && uri[|scheme| + 1..] == p;
  }

  lemma HierCut(scheme: string, authority: string, path: string, query: Option<string>, fragment: Option<string>)
    requires '/' !in authority && '?' !in authority && '#' !in authority && '?' !in path && '#' !in path
    requires path != "" ==> path[0] == '/'
    requires query.Some? ==> '#' !in query.value
    requires query.None? && fragment.Some? ==> '?' !in fragment.value
    ensures var tail := TailText(query, fragment);
      DecodeHier(scheme, "//" + (authority + path) + tail) ==
      WithPath(scheme, DecodeAuthority(authority, path + tail), path, Parts("//" + (authority + path), query, fragment))
  {
    var hier, tail := "//" + (authority + path), TailText(query, fragment);
    NotInHier(authority, path);
    PartsBack(hier, query, fragment);
    assert hier[2..] == authority + path && (hier + tail)[|hier|..] == tail;
    PathBegins(authority, path);
  }

  lemma NotInHier(authority: string, path: string)
    requires '?' !in authority && '#' !in authority && '?' !in path && '#' !in path
    ensures '?' !in "//" + (authority + path) && '#' !in "//" + (authority + path)
  {
  }

  /** Behind the bracket at `b`, the first colon before any slash starts the port. */
  lemma BracketPort(h: string, b: nat, port: Option<string>, after: string)
    requires b <= |h| && ':' !in h[b..] && '/' !in h && Follows(after)
    requires port.None? ==> after == "" || after[0] == '/'
    ensures var all := NameText(h, port) + after;
      SplitPort(NameText(h, port), all, b + PortColon(all[b..])) ==
      HostPort(Some(h), if port.None? then -1 else Atoi(port.value))
  {
    var all := NameText(h, port) + after;
    if port.None? {
      assert NameText(h, port) == h;
      BracketColon(h, b, after);
    } else {
      var end := ":" + (port.value + after);
      assert all == h + end;
      BracketColon(h, b, end);
      AtoiStops(port.value, after);
      assert all[..|h|] == h && all[|h| + 1..] == port.value + after;
    }
  }

  lemma BracketEnds(inside: string, rest: string)
    requires ']' !in inside
    ensures IndexOf(("[" + inside) + ("]" + rest), ']') == |inside| + 1
    ensures IndexOf("[" + inside, ']') == |inside| + 1
  {
    CutAt("[" + inside, ']', rest);
    IndexOfNone("[" + inside, ']');
  }

  /** A host in brackets is kept as it is, up to the first colon behind the bracket, or to its end. */
  lemma DecodedBrackets(inside: string, more: string, port: Option<string>, after: string)
    requires ']' !in inside && ':' !in more && '/' !in inside + more && Follows(after)
    requires port.None? ==> after == "" || after[0] == '/'
    ensures var h := ("[" + inside) + ("]" + more);
      DecodeHost(NameText(h, port), after) == HostPort(Some(h), if port.None? then -1 else Atoi(port.value))
    ensures DecodeHost("[" + inside, after) == BadHost
  {
    var h := ("[" + inside) + ("]" + more);
    var end := if port.None? then "" else ":" + port.value;
    assert NameText(h, port) == ("[" + inside) + ("]" + (more + end));
    BracketEnds(inside, more + end);
    var b := |inside| + 1;
    assert h[b..] == "]" + more;
    NoSlash(inside, more);
    BracketPort(h, b, port, after);
  }

  lemma NoSlash(inside: string, more: string)
    requires '/' !in inside + more
    ensures '/' !in ("[" + inside) + ("]" + more)
  {
    assert forall c :: c in inside || c in more ==> c in inside + more;
  }

  // ---------- What the encoder leaves as it is ----------

  /** Letters, digits and "-._~" stand for themselves, and so do, in each part, the delimiters that part may hold;
      every other byte is printed as an escape of three characters. */
  lemma KeptCharacters(c: char)
    requires IsByte(c)
    ensures var plain := IsAlpha(c) || IsDigit(c) || c in "-._~";
      && Escape([c], IN_PATH, false) == (if plain || c in "!$&'()*+,;=:@/" then [c] else Escape([c], "", false))
      && Escape([c], IN_USERINFO, false) == (if plain || c in "!$&'()*+,;=:" then [c] else Escape([c], "", false))
      && Escape([c], SUB_DELIMS, false) == (if plain || c in "!$&'()*+,;=" then [c] else Escape([c], "", false))
      && (Escape([c], "", false) == [c] <==> plain)
      && (!plain ==> |Escape([c], "", false)| == 3)
  {
    TextLaws.EscapedByte(c, "");
    TextLaws.EscapedByte(c, IN_PATH);
    TextLaws.EscapedByte(c, IN_USERINFO);
    TextLaws.EscapedByte(c, SUB_DELIMS);
    PlainCharacters(c);
    assert IN_PATH == "!$&'()*+,;=:@/" && IN_USERINFO == "!$&'()*+,;=:" && SUB_DELIMS == "!$&'()*+,;=";
  }

  lemma PlainCharacters(c: char)
    ensures Unreserved(c) <==> IsAlpha(c) || IsDigit(c) || c in "-._~"
  {
    assert "-._~"[0] == '-' && "-._~"[1] == '.' && "-._~"[2] == '_' && "-._~"[3] == '~';
  }
}
