/** The SMB and AFP mappers: mount specs and paths to URIs and back. Entries of a server
    carry "._" in front of their names, so that they are told from the shares themselves. */
module UriMappers {
  import opened Text
  import opened Uris
  import MountSpecs

  type Entries = map<string, string>

  /** A mount and a path in it. */
  datatype Mapped = Mapped(spec: Entries, path: string)

  const DEFAULT_SMB_PORT := 445

  // ---------- Paths of URIs ----------

  function StripSlashes(s: string): string {
    if s != "" && s[0] == '/' then StripSlashes(s[1..]) else s
  }

  /** What a URI path names: nothing, a single entry, or something below one. */
  datatype Place = Root | Entry(name: string) | Below(name: string, rest: string)

  function Locate(path: string): Place {
    var p := StripSlashes(path);
    if p == "" then Root
    else
      var n := IndexOf(p, '/');
      var rest := StripSlashes(p[n..]);
      if rest == "" then Entry(p[..n]) else Below(p[..n], rest)
  }

  lemma StripOne(s: string, i: nat)
    requires i < |s| && s[i] == '/'
    ensures StripSlashes(s[i..]) == StripSlashes(s[i + 1..])
  {
    assert s[i..][1..] == s[i + 1..];
  }

  lemma LocateName(name: string)
    requires name != "" && '/' !in name
    ensures Locate("/" + name) == Entry(name)
  {
    assert ("/" + name)[1..] == name && name[0] in name;
    assert StripSlashes(name) == name;
    IndexOfNone(name, '/');
    assert name[|name|..] == "" && name[..|name|] == name;
  }

  lemma LocateBelow(name: string, path: string)
    requires name != "" && '/' !in name && SingleRooted(path)
    ensures Locate("/" + name + path) == if path == "/" then Entry(name) else Below(name, path[1..])
  {
    var p, rest := name + path, path[1..];
    assert "/" + name + path == "/" + p;
    assert ("/" + p)[1..] == p && name[0] in name;
    assert StripSlashes(p) == p;
    assert path == "/" + rest;
    CutAt(name, '/', rest);
    assert p[|name|..] == path && StripSlashes(path) == StripSlashes(rest) == rest;
  }

  predicate Slashes(s: string) {
    forall c :: c in s ==> c == '/'
  }

  lemma {:induction false} StripsAll(before: string, s: string)
    requires Slashes(before)
    ensures StripSlashes(before + s) == StripSlashes(s)
  {
    if before == "" {
      assert before + s == s;
    } else {
      assert before[0] in before && (before + s)[1..] == before[1..] + s;
      assert forall c :: c in before[1..] ==> c in before;
      StripsAll(before[1..], s);
    }
  }

  /** A name ends at the slashes behind it. */
  lemma NameEnds(name: string, after: string, rest: string)
    requires '/' !in name && Slashes(after) && (rest != "" ==> after != "")
    ensures IndexOf(name + (after + rest), '/') == |name|
  {
    if after == "" {
      assert name + (after + rest) == name;
      IndexOfNone(name, '/');
    } else {
      assert after[0] in after;
      assert after + rest == "/" + (after[1..] + rest);
      CutAt(name, '/', after[1..] + rest);
    }
  }

  lemma LocateBare(name: string, after: string, rest: string)
    requires name != "" && '/' !in name && Slashes(after) && (rest != "" ==> after != "" && rest[0] != '/')
    ensures Locate(name + (after + rest)) == if rest == "" then Entry(name) else Below(name, rest)
  {
    var p := name + (after + rest);
    assert name[0] in name;
    assert StripSlashes(p) == p;
    NameEnds(name, after, rest);
    assert p[|name|..] == after + rest && p[..|name|] == name;
    StripsAll(after, rest);
  }

  /** However many slashes there are before, between and after them, a path names what it holds besides. */
  lemma LocateExactly(before: string, name: string, after: string, rest: string)
    requires Slashes(before) && name != "" && '/' !in name && Slashes(after)
    requires rest != "" ==> after != "" && rest[0] != '/'
    ensures Locate(before) == Root
    ensures Locate(before + name + after + rest) == if rest == "" then Entry(name) else Below(name, rest)
  {
    StripsAll(before, "");
    assert before + "" == before;
    StripsAll(before, name + (after + rest));
    assert before + name + after + rest == before + (name + (after + rest));
    LocateBare(name, after, rest);
  }

  // ---------- SMB ----------

  /** The part of a spec that the host and the path give. */
  function SmbPlace(server: string, place: Place, fold: string -> string): Mapped {
    match place
    case Root => Mapped(map["type" := "smb-server", "server" := fold(server)], "/")
    case Entry(name) =>
      if "._" <= name then Mapped(map["type" := "smb-server", "server" := fold(server)], "/" + fold(name[2..]))
      else Mapped(map["type" := "smb-share", "server" := fold(server), "share" := fold(name)], "/")
    case Below(name, rest) =>
      Mapped(map["type" := "smb-share", "server" := fold(server), "share" := fold(name)], "/" + rest)
  }

  function SmbPort(m: Entries, port: int): Entries {
    if port != -1 && port != DEFAULT_SMB_PORT then m["port" := Decimal(port)] else m
  }

  function SmbUser(m: Entries, userinfo: Option<string>): Entries {
    if userinfo.None? then m
    else
      var u := userinfo.value;
      var n := IndexOf(u, ';');
      var withDomain := if 0 < n < |u| then m["domain" := u[..n]] else m;
      var user := if n < |u| then u[n + 1..] else u;
      if user != "" then withDomain["user" := user] else withDomain
  }

  /** smb_from_uri, on a decoded URI. `fold` folds the case of names. */
  function SmbFrom(d: Uri, fold: string -> string): Mapped {
    if d.host.None? || d.host.value == "" then
      Mapped(SmbUser(map["type" := "smb-network"], d.userinfo), if d.path == "" then "/" else d.path)
    else
      var at := SmbPlace(d.host.value, Locate(d.path), fold);
      Mapped(SmbUser(SmbPort(at.spec, d.port), d.userinfo), at.path)
  }

  function Lookup(m: Entries, key: string): Option<string> {
    if key in m then Some(m[key]) else None
  }

  /** A text that is not empty. */
  function Given(s: string): Option<string> {
    if s == "" then None else Some(s)
  }

  /** The first semicolon of the user information stands between the two. */
  ghost predicate FirstSemicolon(userinfo: Option<string>, domain: string, user: string) {
    userinfo == Some(domain + ";" + user) && ';' !in domain
  }

  /** What the user information says: without a semicolon it is the user, else the domain stands before the
      first one and the user behind it, each if it is not empty. */
  ghost predicate SaysUser(m: Entries, userinfo: Option<string>) {
    && (userinfo.None? ==> "user" !in m && "domain" !in m)
    && (userinfo.Some? && ';' !in userinfo.value ==> "domain" !in m && Lookup(m, "user") == Given(userinfo.value))
    && forall domain, user :: FirstSemicolon(userinfo, domain, user) ==>
         Lookup(m, "domain") == Given(domain) && Lookup(m, "user") == Given(user)
  }

  lemma UserSaid(base: Entries, userinfo: Option<string>)
    requires "user" !in base && "domain" !in base
    ensures SaysUser(SmbUser(base, userinfo), userinfo)
  {
    if userinfo.Some? && ';' !in userinfo.value {
      assert userinfo == Some(userinfo.value);
      WholeUser(base, userinfo.value);
    }
    var m := SmbUser(base, userinfo);
    forall domain, user | FirstSemicolon(userinfo, domain, user)
      ensures Lookup(m, "domain") == Given(domain) && Lookup(m, "user") == Given(user)
    {
      CutUser(base, domain, user);
    }
  }

  lemma OnlyUser(base: Entries, userinfo: Option<string>)
    requires "user" !in base && "domain" !in base
    ensures SmbUser(base, userinfo) - {"domain", "user"} == base
  {
  }

  lemma WholeUser(base: Entries, user: string)
    requires "user" !in base && "domain" !in base && ';' !in user
    ensures var m := SmbUser(base, Some(user)); "domain" !in m && Lookup(m, "user") == Given(user)
  {
    IndexOfNone(user, ';');
  }

  lemma CutUser(base: Entries, domain: string, user: string)
    requires "user" !in base && "domain" !in base && ';' !in domain
    ensures var m := SmbUser(base, Some(domain + ";" + user));
      Lookup(m, "domain") == Given(domain) && Lookup(m, "user") == Given(user)
  {
    var u := domain + ";" + user;
    IndexOfFirst(domain, ';', user);
    assert u[..|domain|] == domain && u[|domain| + 1..] == user;
  }

  /** What the host, the port and the path of an SMB URI say: without a host it is the network; else the server
      is the host, in folded case, and the path is that of a share of it, of one of its own entries, whose
      name starts with "._", or of the server itself. */
  ghost predicate SaysPlace(m: Entries, path: string, d: Uri, fold: string -> string) {
    if d.host.None? || d.host.value == "" then
      m == map["type" := "smb-network"] && path == (if d.path == "" then "/" else d.path)
    else
      && Lookup(m, "server") == Some(fold(d.host.value))
      && Lookup(m, "port") == (if d.port == -1 || d.port == 445 then None else Some(Decimal(d.port)))
      && m.Keys <= {"type", "server", "share", "port"}
      && (Slashes(d.path) ==> Lookup(m, "type") == Some("smb-server") && "share" !in m && path == "/")
      && forall before, name, after, rest ::
           Names(before, name, after, rest) && d.path == before + name + after + rest ==>
           if rest == "" && "._" <= name then
             Lookup(m, "type") == Some("smb-server") && "share" !in m && path == "/" + fold(name[2..])
           else
             Lookup(m, "type") == Some("smb-share") && Lookup(m, "share") == Some(fold(name)) && path == "/" + rest
  }

  /** Slashes, a name, slashes and what follows them. */
  ghost predicate Names(before: string, name: string, after: string, rest: string) {
    && Slashes(before) && name != "" && '/' !in name && Slashes(after)
    && (rest != "" ==> after != "" && rest[0] != '/')
  }

  lemma PlaceSaid(d: Uri, fold: string -> string)
    requires d.host.Some? && d.host.value != ""
    ensures var at := SmbPlace(d.host.value, Locate(d.path), fold);
      SaysPlace(SmbPort(at.spec, d.port), at.path, d, fold)
  {
    if Slashes(d.path) {
      LocateExactly(d.path, "-", "", "");
    }
    forall before, name, after, rest | d.path == before + name + after + rest && Names(before, name, after, rest)
      ensures Locate(d.path) == if rest == "" then Entry(name) else Below(name, rest)
    {
      LocateExactly(before, name, after, rest);
    }
  }

  /** What the spec and the path from an SMB URI are, key by key. */
  lemma SmbSays(d: Uri, fold: string -> string)
    ensures var r := SmbFrom(d, fold);
      SaysUser(r.spec, d.userinfo) && SaysPlace(r.spec - {"domain", "user"}, r.path, d, fold)
  {
    if d.host.None? || d.host.value == "" {
      UserSaid(map["type" := "smb-network"], d.userinfo);
      OnlyUser(map["type" := "smb-network"], d.userinfo);
    } else {
      var at := SmbPlace(d.host.value, Locate(d.path), fold);
      PlaceSaid(d, fold);
      UserSaid(SmbPort(at.spec, d.port), d.userinfo);
      OnlyUser(SmbPort(at.spec, d.port), d.userinfo);
    }
  }

  function ServerPath(path: string): string {
    if |path| > 1 && path[0] == '/' then "/._" + path[1..] else "/"
  }

  /** A missing share ends the text. */
  function SharePath(share: Option<string>, path: string): string {
    if share.None? then "/"
    else if path != "" && path[0] == '/' then "/" + share.value + path
    else "/" + share.value + "/" + path
  }

  function SmbUserinfo(m: Entries): Option<string> {
    if "user" !in m then None else if "domain" in m then Some(m["domain"] + ";" + m["user"]) else Some(m["user"])
  }

  function PortNumber(port: Option<string>): int {
    if port.None? || Atoi(port.value) == 0 then -1 else Atoi(port.value)
  }

  predicate IsSmb(m: Entries) {
    "type" in m && m["type"] in {"smb-network", "smb-server", "smb-share"}
  }

  /** The decoded URI that smb_to_uri prints. */
  function SmbUri(m: Entries, path: string): Uri
    requires IsSmb(m)
  {
    if m["type"] == "smb-network" then Uri("smb", None, None, -1, path, None, None)
    else if m["type"] == "smb-server" then
      Uri("smb", None, Lookup(m, "server"), PortNumber(Lookup(m, "port")), ServerPath(path), None, None)
    else
      Uri("smb", SmbUserinfo(m), Lookup(m, "server"), PortNumber(Lookup(m, "port")),
          SharePath(Lookup(m, "share"), path),
          None, None)
  }

  /** smb_to_uri and smb_from_uri */
  function SmbToText(m: Entries, path: string, utf8: bool): string
    requires IsSmb(m)
  {
    Encode(SmbUri(m, path), utf8)
  }

  function SmbFromText(uri: string, fold: string -> string): Option<Mapped> {
    if Decode(uri).None? then None else Some(SmbFrom(Decode(uri).value, fold))
  }

  // ---------- Well-formed SMB specs ----------

  ghost predicate SingleRooted(path: string) {
    path != "" && path[0] == '/' && (|path| > 1 ==> path[1] != '/')
  }

  ghost predicate Name(s: string, fold: string -> string) {
    s != "" && '/' !in s && fold(s) == s
  }

  /** A host that can be printed and read back. */
  ghost predicate Host(h: string) {
    h != "" && IsText(h) && (Bracketed(h) ==> NoneOf(h, "/?@#") && ':' !in h[IndexOf(h, ']')..])
  }

  ghost predicate GoodPort(m: Entries) {
    "port" in m ==> exists n: int :: n != -1 && n != 0 && n != DEFAULT_SMB_PORT && m["port"] == Decimal(n)
  }

  ghost predicate GoodUser(m: Entries) {
    && ("user" in m ==> m["user"] != "")
    && ("user" in m && "domain" !in m ==> ';' !in m["user"])
    && ("domain" in m ==> "user" in m && m["domain"] != "" && ';' !in m["domain"])
  }

  /** What the mapper can tell from a URI. */
  ghost predicate SmbShaped(m: Entries, path: string, fold: string -> string) {
    && IsSmb(m) && path != ""
    && (m["type"] == "smb-network" ==> m.Keys == {"type"})
    && (m["type"] != "smb-network" ==>
        "server" in m && m["server"] != "" && fold(m["server"]) == m["server"] && GoodPort(m))
    && (m["type"] == "smb-server" ==>
          m.Keys <= {"type", "server", "port"} && path[0] == '/' && (path == "/" || Name(path[1..], fold)))
    && (m["type"] == "smb-share" ==>
          && m.Keys <= {"type", "server", "share", "port", "user", "domain"} && GoodUser(m)
          && SingleRooted(path) && "share" in m && Name(m["share"], fold) && !("._" <= m["share"] && path == "/"))
  }

  /** What a URI can carry. */
  ghost predicate SmbPrintable(m: Entries, path: string) {
    && IsSmb(m) && path != "" && path[0] == '/' && IsText(path)
    && (m["type"] != "smb-network" ==> "server" in m && Host(m["server"]))
    && (m["type"] == "smb-share" ==> "share" in m && IsText(m["share"]))
    && ("user" in m ==> IsText(m["user"]) && ':' !in m["user"])
    && ("domain" in m ==> IsText(m["domain"]) && ':' !in m["domain"])
  }

  ghost predicate SmbWellFormed(m: Entries, path: string, fold: string -> string) {
    SmbShaped(m, path, fold) && SmbPrintable(m, path)
  }

  // ---------- There and back ----------

  lemma HostlessText(d: Uri, utf8: bool)
    requires d.host.None? && d.userinfo.None? && d.port == -1
    ensures Encode(d, utf8) == Encode(d.(host := Some("")), utf8)
  {
    assert AuthorityText(d, utf8) == AuthorityText(d.(host := Some("")), utf8);
  }

  lemma DecodedAgain(d: Uri, utf8: bool)
    requires d.host.Some? && LowerScheme(d.scheme) && d.path != "" && d.path[0] == '/' && IsText(d.path)
    requires d.query.None? && d.fragment.None? && (d.host.value == "" || Host(d.host.value))
    requires d.userinfo.Some? ==> IsText(d.userinfo.value) && ':' !in d.userinfo.value
    ensures Decode(Encode(d, utf8)) == Some(d)
  {
    assert d.host.value != "" && Bracketed(d.host.value) ==> NoneOf(d.host.value, "/?@") && '#' !in d.host.value by {
      assert "/?@#"[3] == '#' && "/?@#"[0] == '/' && "/?@#"[1] == '?' && "/?@#"[2] == '@';
    }
    UriRoundTrip(d, utf8);
  }

  /** An entry taken over, if there is one. */
  function With(base: Entries, m: Entries, key: string): Entries {
    if key in m then base[key := m[key]] else base
  }

  lemma ThreeKeys(m: Entries, t: string, s: string, p: string)
    requires {t, s} <= m.Keys <= {t, s, p}
    ensures m == With(map[t := m[t], s := m[s]], m, p)
  {
  }

  lemma SixKeys(m: Entries, t: string, s: string, h: string, p: string, d: string, u: string)
    requires {t, s, h} <= m.Keys <= {t, s, h, p, u, d}
    ensures m == With(With(With(map[t := m[t], s := m[s], h := m[h]], m, p), m, d), m, u)
  {
  }

  lemma PortBack(m: Entries, base: Entries)
    requires GoodPort(m)
    ensures SmbPort(base, PortNumber(Lookup(m, "port"))) == With(base, m, "port")
  {
    if "port" in m {
      var n: int :| n != -1 && n != 0 && n != DEFAULT_SMB_PORT && m["port"] == Decimal(n);
      DecimalRead(n, "");
      assert Decimal(n) + "" == Decimal(n);
    }
  }

  lemma NetworkBack(m: Entries, path: string, fold: string -> string, utf8: bool)
    requires SmbWellFormed(m, path, fold) && m["type"] == "smb-network"
    ensures SmbFromText(SmbToText(m, path, utf8), fold) == Some(Mapped(m, path))
  {
    var d := Uri("smb", None, None, -1, path, None, None);
    HostlessText(d, utf8);
    DecodedAgain(d.(host := Some("")), utf8);
    NetworkEntries(m, path, fold, d.(host := Some("")));
  }

  lemma NetworkEntries(m: Entries, path: string, fold: string -> string, d: Uri)
    requires m.Keys == {"type"} && m["type"] == "smb-network" && path != ""
    requires d == Uri("smb", None, Some(""), -1, path, None, None)
    ensures SmbFrom(d, fold) == Mapped(m, path)
  {
    assert m == map["type" := "smb-network"];
  }

  lemma ServerPlace(m: Entries, path: string, fold: string -> string)
    requires SmbShaped(m, path, fold) && m["type"] == "smb-server"
    ensures SmbPlace(m["server"], Locate(ServerPath(path)), fold) ==
            Mapped(map["type" := "smb-server", "server" := m["server"]], path)
  {
    if path == "/" {
      assert "/"[1..] == "" && StripSlashes("/") == "";
    } else {
      var name := path[1..];
      LocateName("._" + name);
      assert "/._" + name == "/" + ("._" + name);
      assert ("._" + name)[2..] == name && path == "/" + name;
    }
  }

  lemma ServerEntries(m: Entries, path: string, fold: string -> string)
    requires SmbShaped(m, path, fold) && m["type"] == "smb-server"
    ensures SmbFrom(SmbUri(m, path), fold) == Mapped(m, path)
  {
    ServerPlace(m, path, fold);
    PortBack(m, map["type" := "smb-server", "server" := m["server"]]);
    ThreeKeys(m, "type", "server", "port");
  }

  lemma ServerBack(m: Entries, path: string, fold: string -> string, utf8: bool)
    requires SmbWellFormed(m, path, fold) && m["type"] == "smb-server"
    ensures SmbFromText(SmbToText(m, path, utf8), fold) == Some(Mapped(m, path))
  {
    ServerPathText(path);
    DecodedAgain(SmbUri(m, path), utf8);
    ServerEntries(m, path, fold);
  }

  lemma ServerPathText(path: string)
    requires IsText(path)
    ensures var p := ServerPath(path); p != "" && p[0] == '/' && IsText(p)
  {
  }

  lemma SharePlace(m: Entries, path: string, fold: string -> string)
    requires SmbShaped(m, path, fold) && m["type"] == "smb-share"
    ensures SmbPlace(m["server"], Locate(SharePath(Some(m["share"]), path)), fold) ==
            Mapped(map["type" := "smb-share", "server" := m["server"], "share" := m["share"]], path)
  {
    LocateBelow(m["share"], path);
    assert path == "/" + path[1..];
  }

  lemma UserinfoText(m: Entries)
    requires "user" in m ==> IsText(m["user"]) && ':' !in m["user"]
    requires "domain" in m ==> IsText(m["domain"]) && ':' !in m["domain"]
    ensures SmbUserinfo(m).Some? ==> IsText(SmbUserinfo(m).value) && ':' !in SmbUserinfo(m).value
  {
  }

  lemma DomainAndUser(base: Entries, domain: string, user: string)
    requires ';' !in domain && domain != "" && user != ""
    ensures SmbUser(base, Some(domain + ";" + user)) == base["domain" := domain]["user" := user]
  {
    var u := domain + ";" + user;
    IndexOfFirst(domain, ';', user);
    assert u[..|domain|] == domain && u[|domain| + 1..] == user;
  }

  lemma UserinfoBack(m: Entries, base: Entries)
    requires GoodUser(m)
    ensures SmbUser(base, SmbUserinfo(m)) == With(With(base, m, "domain"), m, "user")
  {
    if "domain" in m {
      DomainAndUser(base, m["domain"], m["user"]);
    } else if "user" in m {
      IndexOfNone(m["user"], ';');
    }
  }

  lemma ShareEntries(m: Entries, path: string, fold: string -> string)
    requires SmbShaped(m, path, fold) && m["type"] == "smb-share"
    ensures SmbFrom(SmbUri(m, path), fold) == Mapped(m, path)
  {
    SharePlace(m, path, fold);
    var base := map["type" := "smb-share", "server" := m["server"], "share" := m["share"]];
    PortBack(m, base);
    UserinfoBack(m, With(base, m, "port"));
    SixKeys(m, "type", "server", "share", "port", "domain", "user");
  }

  lemma ShareBack(m: Entries, path: string, fold: string -> string, utf8: bool)
    requires SmbWellFormed(m, path, fold) && m["type"] == "smb-share"
    ensures SmbFromText(SmbToText(m, path, utf8), fold) == Some(Mapped(m, path))
  {
    var d := SmbUri(m, path);
    UserinfoText(m);
    SharePathText(m["share"], path);
    DecodedAgain(d, utf8);
    ShareEntries(m, path, fold);
  }

  lemma SharePathText(share: string, path: string)
    requires IsText(share) && IsText(path) && path != "" && path[0] == '/'
    ensures var p := SharePath(Some(share), path); p != "" && p[0] == '/' && IsText(p)
  {
  }

  /** A well-formed SMB spec and a path in it come back from their URI. */
  lemma SmbRoundTrip(m: Entries, path: string, fold: string -> string, utf8: bool)
    requires SmbWellFormed(m, path, fold)
    ensures SmbFromText(SmbToText(m, path, utf8), fold) == Some(Mapped(m, path))
  {
    if m["type"] == "smb-network" {
      NetworkBack(m, path, fold, utf8);
    } else if m["type"] == "smb-server" {
      ServerBack(m, path, fold, utf8);
    } else {
      ShareBack(m, path, fold, utf8);
    }
  }

  // ---------- Exactly which SMB specs come back ----------

  /** The URI comes back; one without a host comes back with an empty one. */
  ghost predicate Survives(d: Uri, utf8: bool) {
    Decode(Encode(d, utf8)) == Some(if d.host.None? then d.(host := Some("")) else d)
  }

  /** What folding the case of a name does not do. */
  ghost predicate Folds(fold: string -> string) {
    forall s :: (fold(s) == "" ==> s == "") && ('/' in fold(s) ==> '/' in s)
  }

  lemma {:induction false} Stripped(s: string)
    ensures var p := StripSlashes(s); p == "" || p[0] != '/'
  {
    if s != "" && s[0] == '/' {
      Stripped(s[1..]);
    }
  }

  lemma LocatedNames(path: string)
    ensures var at := Locate(path);
      && (!at.Root? ==> at.name != "" && '/' !in at.name)
      && (at.Below? ==> at.rest != "" && at.rest[0] != '/')
  {
    var p := StripSlashes(path);
    Stripped(path);
    NoneBefore(p, '/');
    Stripped(p[IndexOf(p, '/')..]);
  }

  lemma PortNeeds(m: Entries, base: Entries)
    requires "port" !in base
    requires "port" in m ==> "port" in SmbPort(base, PortNumber(Lookup(m, "port")))
    requires "port" in m ==> m["port"] == SmbPort(base, PortNumber(Lookup(m, "port")))["port"]
    ensures GoodPort(m)
  {
    if "port" in m {
      var n := PortNumber(Some(m["port"]));
      assert n != -1 && n != 0 && n != DEFAULT_SMB_PORT && m["port"] == Decimal(n);
    }
  }

  lemma UserNeeds(m: Entries, base: Entries)
    requires "user" !in base && "domain" !in base
    requires var r := SmbUser(base, SmbUserinfo(m));
      Lookup(r, "user") == Lookup(m, "user") && Lookup(r, "domain") == Lookup(m, "domain")
    ensures GoodUser(m)
  {
    if "user" in m {
      var u := SmbUserinfo(m).value;
      NoneBefore(u, ';');
      if "domain" in m {
        var n := IndexOf(u, ';');
        assert u[..|m["domain"]|] == m["domain"];
        assert u[..n] == m["domain"];
      }
    }
  }

  lemma ServerNeeds(m: Entries, path: string, fold: string -> string)
    requires IsSmb(m) && m["type"] == "smb-server" && Folds(fold) && SmbFrom(SmbUri(m, path), fold) == Mapped(m, path)
    ensures SmbShaped(m, path, fold)
  {
    var at := Locate(ServerPath(path));
    PortNeeds(m, SmbPlace(m["server"], at, fold).spec);
    ServerPathNeeds(path, at, fold);
  }

  lemma ServerPathNeeds(path: string, at: Place, fold: string -> string)
    requires Folds(fold) && at == Locate(ServerPath(path)) && (at.Root? || (at.Entry? && "._" <= at.name))
    requires path == "/" + if at.Root? then "" else fold(at.name[2..])
    ensures path == "/" || Name(path[1..], fold)
  {
    LocatedNames(ServerPath(path));
    if path != "/" {
      var name := path[1..];
      assert '/' !in at.name[2..] && name == fold(at.name[2..]);
      PrefixedName(name);
    }
  }

  lemma PrefixedName(name: string)
    requires '/' !in name
    ensures Locate("/._" + name) == Entry("._" + name) && ("._" + name)[2..] == name
  {
    LocateName("._" + name);
    assert "/._" + name == "/" + ("._" + name);
  }

  lemma ShareNamed(share: string, path: string, fold: string -> string)
    requires Folds(fold)
    requires var at := Locate(SharePath(Some(share), path)); !at.Root? && share == fold(at.name)
    requires path != "" && path[0] == '/'
    ensures Name(share, fold)
  {
    var full := SharePath(Some(share), path);
    LocatedNames(full);
    var p := share + path;
    assert full == "/" + share + path == "/" + p && full[1..] == p && share[0] in share;
    assert StripSlashes(full) == StripSlashes(p) == p;
    assert path == "/" + path[1..];
    CutAt(share, '/', path[1..]);
  }

  lemma ShareNeeds(m: Entries, path: string, fold: string -> string)
    requires IsSmb(m) && m["type"] == "smb-share" && Folds(fold) && SmbFrom(SmbUri(m, path), fold) == Mapped(m, path)
    ensures SmbShaped(m, path, fold)
  {
    var at := Locate(SharePath(Lookup(m, "share"), path));
    ShareKeys(m, m["server"], at, fold);
    SharePathNeeds(m["share"], path, at, fold);
  }

  lemma ShareKeys(m: Entries, server: string, at: Place, fold: string -> string)
    requires "type" in m && m["type"] == "smb-share"
    requires m == SmbUser(SmbPort(SmbPlace(server, at, fold).spec, PortNumber(Lookup(m, "port"))), SmbUserinfo(m))
    ensures (at.Entry? && !("._" <= at.name)) || at.Below?
    ensures {"server", "share"} <= m.Keys <= {"type", "server", "share", "port", "user", "domain"} && GoodPort(m)
      && GoodUser(m)
    ensures m["server"] == fold(server) && m["share"] == fold(at.name)
  {
    var base := SmbPlace(server, at, fold).spec;
    UserNeeds(m, SmbPort(base, PortNumber(Lookup(m, "port"))));
    PortNeeds(m, base);
  }

  lemma SharePathNeeds(share: string, path: string, at: Place, fold: string -> string)
    requires Folds(fold) && at == Locate(SharePath(Some(share), path))
    requires (at.Entry? && !("._" <= at.name)) || at.Below?
    requires share == fold(at.name) && path == if at.Entry? then "/" else "/" + at.rest
    ensures SingleRooted(path) && Name(share, fold) && !("._" <= share && path == "/")
  {
    LocatedNames(SharePath(Some(share), path));
    ShareNamed(share, path, fold);
    LocateBelow(share, path);
  }

  /** A spec and a path whose URI survives come back from it if and only if they have the shape
      that the mapper can tell. */
  lemma SmbRoundTripExactly(m: Entries, path: string, fold: string -> string, utf8: bool)
    requires IsSmb(m) && Survives(SmbUri(m, path), utf8) && Folds(fold)
    ensures SmbFromText(SmbToText(m, path, utf8), fold) == Some(Mapped(m, path)) <==> SmbShaped(m, path, fold)
  {
    SmbSurvives(m, path, fold, utf8);
    if m["type"] == "smb-network" {
      NetworkExactly(m, path, fold);
    } else if SmbShaped(m, path, fold) {
      if m["type"] == "smb-server" {
        ServerEntries(m, path, fold);
      } else {
        ShareEntries(m, path, fold);
      }
    } else if SmbFrom(SmbUri(m, path), fold) == Mapped(m, path) {
      if m["type"] == "smb-server" {
        ServerNeeds(m, path, fold);
      } else {
        ShareNeeds(m, path, fold);
      }
    }
  }

  lemma SmbSurvives(m: Entries, path: string, fold: string -> string, utf8: bool)
    requires IsSmb(m) && Survives(SmbUri(m, path), utf8)
    ensures SmbFromText(SmbToText(m, path, utf8), fold) == Some(SmbFrom(SmbUri(m, path), fold))
  {
    var d := SmbUri(m, path);
    assert SmbFrom(d.(host := Some("")), fold) == SmbFrom(d.(host := None), fold);
  }

  lemma NetworkExactly(m: Entries, path: string, fold: string -> string)
    requires IsSmb(m) && m["type"] == "smb-network"
    ensures SmbFrom(SmbUri(m, path), fold) == Mapped(m, path) <==> SmbShaped(m, path, fold)
  {
    assert m.Keys == {"type"} ==> m == map["type" := "smb-network"];
  }

  /** Different places have different URIs. */
  lemma SmbIsInjective(m: Entries, path: string, m': Entries, path': string, fold: string -> string, utf8: bool)
    requires SmbWellFormed(m, path, fold) && SmbWellFormed(m', path', fold)
    requires SmbToText(m, path, utf8) == SmbToText(m', path', utf8)
    ensures m == m' && path == path'
  {
    SmbRoundTrip(m, path, fold, utf8);
    SmbRoundTrip(m', path', fold, utf8);
  }

  // ---------- AFP ----------

  function AfpPlace(host: string, place: Place): Mapped {
    match place
    case Root => Mapped(map["type" := "afp-server", "host" := host], "/")
    case Entry(name) =>
      if "._" <= name then Mapped(map["type" := "afp-server", "host" := host], "/" + name[2..])
      else Mapped(map["type" := "afp-volume", "host" := host, "volume" := name], "/")
    case Below(name, rest) => Mapped(map["type" := "afp-volume", "host" := host, "volume" := name], "/" + rest)
  }

  /** afp_from_uri, on a decoded URI; a host is needed. */
  function AfpFrom(d: Uri): Option<Mapped> {
    if d.host.None? || d.host.value == "" then None
    else
      var at := AfpPlace(d.host.value, Locate(d.path));
      Some(if d.userinfo.None? then at else at.(spec := at.spec["user" := d.userinfo.value]))
  }

  /** What an AFP URI says: the host and, if it has one, the user; and the path is that of a volume, of one of
      the server's own entries, whose name starts with "._", or of the server itself. */
  ghost predicate AfpSays(m: Entries, path: string, d: Uri) {
    && m.Keys <= {"type", "host", "volume", "user"}
    && Lookup(m, "host") == d.host && Lookup(m, "user") == d.userinfo
    && (Slashes(d.path) ==> Lookup(m, "type") == Some("afp-server") && "volume" !in m && path == "/")
    && forall before, name, after, rest ::
         Names(before, name, after, rest) && d.path == before + name + after + rest ==>
         if rest == "" && "._" <= name then
           Lookup(m, "type") == Some("afp-server") && "volume" !in m && path == "/" + name[2..]
         else
           Lookup(m, "type") == Some("afp-volume") && Lookup(m, "volume") == Some(name) && path == "/" + rest
  }

  /** What the spec and the path from an AFP URI are, key by key; without a host there are none. */
  lemma AfpSaid(d: Uri)
    ensures AfpFrom(d).Some? <==> d.host.Some? && d.host.value != ""
    ensures AfpFrom(d).Some? ==> AfpSays(AfpFrom(d).value.spec, AfpFrom(d).value.path, d)
  {
    if Slashes(d.path) {
      LocateExactly(d.path, "-", "", "");
    }
    forall before, name, after, rest | d.path == before + name + after + rest && Names(before, name, after, rest)
      ensures Locate(d.path) == if rest == "" then Entry(name) else Below(name, rest)
    {
      LocateExactly(before, name, after, rest);
    }
  }

  predicate IsAfp(m: Entries) {
    "type" in m && m["type"] in {"afp-server", "afp-volume"}
  }

  /** The decoded URI that afp_to_uri prints. */
  function AfpUri(m: Entries, path: string): Uri
    requires IsAfp(m)
  {
    Uri("afp", Lookup(m, "user"), Lookup(m, "host"), if "port" in m then Atoi(m["port"]) else -1,
        if m["type"] == "afp-server" then ServerPath(path) else SharePath(Lookup(m, "volume"), path), None, None)
  }

  function AfpToText(m: Entries, path: string, utf8: bool): string
    requires IsAfp(m)
  {
    Encode(AfpUri(m, path), utf8)
  }

  function AfpFromText(uri: string): Option<Mapped> {
    if Decode(uri).None? then None else AfpFrom(Decode(uri).value)
  }

  /** What the mapper can tell from a URI. It never reads a port back. */
  ghost predicate AfpShaped(m: Entries, path: string) {
    && IsAfp(m) && SingleRooted(path) && "host" in m && m["host"] != ""
    && (m["type"] == "afp-server" ==> m.Keys <= {"type", "host", "user"} && '/' !in path[1..])
    && (m["type"] == "afp-volume" ==>
          && m.Keys <= {"type", "host", "volume", "user"}
          && "volume" in m && m["volume"] != "" && '/' !in m["volume"]
          && !("._" <= m["volume"] && path == "/"))
  }

  ghost predicate AfpWellFormed(m: Entries, path: string) {
    && AfpShaped(m, path) && IsText(path) && Host(m["host"]) && ("user" in m ==> IsText(m["user"]) && ':' !in m["user"])
    && (m["type"] == "afp-volume" ==> IsText(m["volume"]))
  }

  lemma FourKeys(m: Entries, t: string, h: string, v: string, u: string)
    requires {t, h, v} <= m.Keys <= {t, h, v, u}
    ensures m == With(map[t := m[t], h := m[h], v := m[v]], m, u)
  {
  }

  lemma AfpServerPlace(host: string, path: string)
    requires SingleRooted(path) && '/' !in path[1..]
    ensures AfpPlace(host, Locate(ServerPath(path))) == Mapped(map["type" := "afp-server", "host" := host], path)
  {
    if path == "/" {
      assert "/"[1..] == "" && StripSlashes("/") == "";
    } else {
      var name := path[1..];
      LocateName("._" + name);
      assert "/._" + name == "/" + ("._" + name);
      assert ("._" + name)[2..] == name && path == "/" + name;
    }
  }

  lemma AfpVolumePlace(host: string, volume: string, path: string)
    requires SingleRooted(path) && volume != "" && '/' !in volume && !("._" <= volume && path == "/")
    ensures AfpPlace(host, Locate(SharePath(Some(volume), path))) ==
            Mapped(map["type" := "afp-volume", "host" := host, "volume" := volume], path)
  {
    LocateBelow(volume, path);
    assert path == "/" + path[1..];
  }

  lemma AfpEntries(m: Entries, path: string)
    requires AfpShaped(m, path)
    ensures AfpFrom(AfpUri(m, path)) == Some(Mapped(m, path))
  {
    if m["type"] == "afp-server" {
      AfpServerPlace(m["host"], path);
      ThreeKeys(m, "type", "host", "user");
    } else {
      AfpVolumePlace(m["host"], m["volume"], path);
      FourKeys(m, "type", "host", "volume", "user");
    }
  }

  /** A well-formed AFP spec and a path in it come back from their URI. */
  lemma AfpRoundTrip(m: Entries, path: string, utf8: bool)
    requires AfpWellFormed(m, path)
    ensures AfpFromText(AfpToText(m, path, utf8)) == Some(Mapped(m, path))
  {
    if m["type"] == "afp-server" {
      ServerPathText(path);
    } else {
      SharePathText(m["volume"], path);
    }
    DecodedAgain(AfpUri(m, path), utf8);
    AfpEntries(m, path);
  }

  lemma AfpNeeds(m: Entries, path: string)
    requires IsAfp(m) && AfpFrom(AfpUri(m, path)) == Some(Mapped(m, path))
    ensures AfpShaped(m, path)
  {
    if m["type"] == "afp-server" {
      var at := Locate(ServerPath(path));
      AfpKeys(m, path, at);
      AfpServerNeeds(path, at);
    } else {
      var at := Locate(SharePath(Lookup(m, "volume"), path));
      AfpKeys(m, path, at);
      AfpVolumeNeeds(m["volume"], path, at);
    }
  }

  lemma AfpKeys(m: Entries, path: string, at: Place)
    requires IsAfp(m) && "host" in m && path == AfpPlace(m["host"], at).path
    requires m == With(AfpPlace(m["host"], at).spec, m, "user")
    ensures m["type"] == "afp-server" ==>
      && m.Keys <= {"type", "host", "user"} && (at.Root? || (at.Entry? && "._" <= at.name))
      && path == "/" + if at.Root? then "" else at.name[2..]
    ensures m["type"] == "afp-volume" ==>
      && {"volume"} <= m.Keys <= {"type", "host", "volume", "user"} && m["volume"] == at.name
      && ((at.Entry? && !("._" <= at.name)) || at.Below?) && path == if at.Entry? then "/" else "/" + at.rest
  {
  }

  lemma AfpServerNeeds(path: string, at: Place)
    requires at == Locate(ServerPath(path)) && (at.Root? || (at.Entry? && "._" <= at.name))
    requires path == "/" + if at.Root? then "" else at.name[2..]
    ensures SingleRooted(path) && '/' !in path[1..]
  {
    LocatedNames(ServerPath(path));
    if !at.Root? {
      assert path[1..] == at.name[2..];
    }
  }

  lemma AfpVolumeNeeds(volume: string, path: string, at: Place)
    requires at == Locate(SharePath(Some(volume), path)) && ((at.Entry? && !("._" <= at.name)) || at.Below?)
    requires volume == at.name && path == if at.Entry? then "/" else "/" + at.rest
    ensures SingleRooted(path) && volume != "" && '/' !in volume && !("._" <= volume && path == "/")
  {
    LocatedNames(SharePath(Some(volume), path));
    LocateBelow(volume, path);
  }

  /** A spec and a path whose URI survives come back from it if and only if they have the shape
      that the mapper can tell. */
  lemma AfpRoundTripExactly(m: Entries, path: string, utf8: bool)
    requires IsAfp(m) && Survives(AfpUri(m, path), utf8)
    ensures AfpFromText(AfpToText(m, path, utf8)) == Some(Mapped(m, path)) <==> AfpShaped(m, path)
  {
    var d := AfpUri(m, path);
    assert AfpFromText(AfpToText(m, path, utf8)) == AfpFrom(d);
    if AfpShaped(m, path) {
      AfpEntries(m, path);
    } else if AfpFrom(d) == Some(Mapped(m, path)) {
      AfpNeeds(m, path);
    }
  }

  lemma AfpIsInjective(m: Entries, path: string, m': Entries, path': string, utf8: bool)
    requires AfpWellFormed(m, path) && AfpWellFormed(m', path')
    requires AfpToText(m, path, utf8) == AfpToText(m', path', utf8)
    ensures m == m' && path == path'
  {
    AfpRoundTrip(m, path, utf8);
    AfpRoundTrip(m', path', utf8);
  }

  // ---------- Paths without a slash in front ----------

  /** In a share or a volume such a path is one below its root; of a server it names nothing. */
  lemma RelativePaths(m: Entries, path: string, utf8: bool)
    requires path == "" || path[0] != '/'
    ensures IsSmb(m) && m["type"] == "smb-share" ==> SmbToText(m, path, utf8) == SmbToText(m, "/" + path, utf8)
    ensures IsSmb(m) && m["type"] == "smb-server" ==> SmbToText(m, path, utf8) == SmbToText(m, "/", utf8)
    ensures IsAfp(m) && m["type"] == "afp-volume" ==> AfpToText(m, path, utf8) == AfpToText(m, "/" + path, utf8)
    ensures IsAfp(m) && m["type"] == "afp-server" ==> AfpToText(m, path, utf8) == AfpToText(m, "/", utf8)
  {
    assert ("/" + path)[0] == '/';
    ShareOfRelative(Lookup(m, "share"), path);
    ShareOfRelative(Lookup(m, "volume"), path);
  }

  lemma ShareOfRelative(share: Option<string>, path: string)
    requires path == "" || path[0] != '/'
    ensures SharePath(share, path) == SharePath(share, "/" + path)
  {
    if share.Some? {
      assert "/" + share.value + "/" + path == "/" + share.value + ("/" + path);
    }
  }

  // ---------- The operations ----------

  /** The scan over the slashes, the share name and the slashes after it. */
  method Scan(path: string) returns (place: Place)
    ensures place == Locate(path)
  {
    var p := 0;
    assert path[0..] == path;
    while p < |path| && path[p] == '/'
      invariant p <= |path| && StripSlashes(path[p..]) == StripSlashes(path)
    {
      StripOne(path, p);
      p := p + 1;
    }
    if p == |path| {
      return Root;
    }
    var share := path[p..];
    var end := IndexOf(share, '/');
    var q := end;
    while q < |share| && share[q] == '/'
      invariant end <= q <= |share| && StripSlashes(share[q..]) == StripSlashes(share[end..])
    {
      StripOne(share, q);
      q := q + 1;
    }
    return if q == |share| then Entry(share[..end]) else Below(share[..end], share[q..]);
  }

  /** The spec of a share or of a server, built by successive sets. */
  method NewSmbSpec(d: Uri, fold: string -> string) returns (spec: MountSpecs.MountSpec, path: string)
    requires d.host.Some? && d.host.value != ""
    ensures fresh(spec) && spec.Valid()
    ensures var at := SmbPlace(d.host.value, Locate(d.path), fold);
      path == at.path && MountSpecs.MapOf(spec.items) == SmbPort(at.spec, d.port)
  {
    var place := Scan(d.path);
    spec, path := PlacedSpec(d.host.value, place, fold);
    if d.port != -1 && d.port != DEFAULT_SMB_PORT {
      spec.Set("port", Decimal(d.port));
    }
  }

  method PlacedSpec(server: string, place: Place, fold: string -> string)
    returns (spec: MountSpecs.MountSpec, path: string)
    ensures fresh(spec) && spec.Valid()
    ensures Mapped(MountSpecs.MapOf(spec.items), path) == SmbPlace(server, place, fold)
  {
    var isServer := place.Root? || (place.Entry? && "._" <= place.name);
    spec := new MountSpecs.MountSpec(Some(if isServer then "smb-server" else "smb-share"));
    TypeOnly(spec.items);
    spec.Set("server", fold(server));
    if !isServer {
      spec.Set("share", fold(place.name));
    }
    path := if place.Root? then "/" else if isServer then "/" + fold(place.name[2..])
            else if place.Entry? then "/" else "/" + place.rest;
  }

  lemma TypeOnly(items: seq<MountSpecs.Item>)
    requires |items| == 1
    ensures MountSpecs.MapOf(items) == map[items[0].key := items[0].value]
  {
    MountSpecs.MapOfEntries(items, map[items[0].key := items[0].value]);
  }

  method SmbFromUri(uri: string, fold: string -> string) returns (spec: Option<MountSpecs.MountSpec>, path: string)
    ensures spec.Some? <==> SmbFromText(uri, fold).Some?
    ensures spec.Some? ==>
      && fresh(spec.value) && spec.value.Valid()
      && Some(Mapped(MountSpecs.MapOf(spec.value.items), path)) == SmbFromText(uri, fold)
    ensures spec.Some? ==> Decode(uri).Some? && SaysUser(MountSpecs.MapOf(spec.value.items), Decode(uri).value.userinfo)
    ensures spec.Some? ==>
      SaysPlace(MountSpecs.MapOf(spec.value.items) - {"domain", "user"}, path, Decode(uri).value, fold)
  {
    var decoded := DecodeUri(uri);
    if decoded.None? {
      return None, "";
    }
    var s;
    s, path := SmbSpec(decoded.value, fold);
    SmbSays(decoded.value, fold);
    return Some(s), path;
  }

  method SmbSpec(d: Uri, fold: string -> string) returns (s: MountSpecs.MountSpec, path: string)
    ensures fresh(s) && s.Valid() && Mapped(MountSpecs.MapOf(s.items), path) == SmbFrom(d, fold)
  {
    if d.host.None? || d.host.value == "" {
      s := new MountSpecs.MountSpec(Some("smb-network"));
      TypeOnly(s.items);
      path := if d.path == "" then "/" else d.path;
    } else {
      s, path := NewSmbSpec(d, fold);
    }
    SetSmbUser(s, d.userinfo);
  }

  method SetSmbUser(spec: MountSpecs.MountSpec, userinfo: Option<string>)
    requires spec.Valid()
    modifies spec
    ensures spec.Valid() && MountSpecs.MapOf(spec.items) == SmbUser(old(MountSpecs.MapOf(spec.items)), userinfo)
  {
    if userinfo.Some? {
      var user := userinfo.value;
      var p := IndexOf(user, ';');
      if p < |user| {
        if p > 0 {
          spec.Set("domain", user[..p]);
        }
        user := user[p + 1..];
      }
      if user != "" {
        spec.Set("user", user);
      }
    }
  }

  method AfpFromUri(uri: string) returns (spec: Option<MountSpecs.MountSpec>, path: string)
    ensures spec.Some? <==> AfpFromText(uri).Some?
    ensures spec.Some? ==>
      && fresh(spec.value) && spec.value.Valid()
      && Some(Mapped(MountSpecs.MapOf(spec.value.items), path)) == AfpFromText(uri)
    ensures spec.Some? <==> Decode(uri).Some? && Decode(uri).value.host.Some? && Decode(uri).value.host.value != ""
    ensures spec.Some? ==> AfpSays(MountSpecs.MapOf(spec.value.items), path, Decode(uri).value)
  {
    var decoded := DecodeUri(uri);
    if decoded.None? || decoded.value.host.None? || decoded.value.host.value == "" {
      return None, "";
    }
    var s;
    s, path := NewAfpSpec(decoded.value);
    AfpSaid(decoded.value);
    return Some(s), path;
  }

  /** The spec of a volume or of a server, built by successive sets. */
  method NewAfpSpec(d: Uri) returns (s: MountSpecs.MountSpec, path: string)
    requires d.host.Some? && d.host.value != ""
    ensures fresh(s) && s.Valid() && AfpFrom(d) == Some(Mapped(MountSpecs.MapOf(s.items), path))
  {
    var place := Scan(d.path);
    var isServer := place.Root? || (place.Entry? && "._" <= place.name);
    s := new MountSpecs.MountSpec(Some(if isServer then "afp-server" else "afp-volume"));
    TypeOnly(s.items);
    s.Set("host", d.host.value);
    if !isServer {
      s.Set("volume", place.name);
    }
    path := if place.Root? then "/" else if isServer then "/" + place.name[2..]
            else if place.Entry? then "/" else "/" + place.rest;
    if d.userinfo.Some? {
      s.Set("user", d.userinfo.value);
    }
  }

  /** Printing a spec and reading the text gives a spec with the same entries, and the path. */
  method SmbThroughUri(spec: MountSpecs.MountSpec, path: string, fold: string -> string, utf8: bool)
    returns (again: Option<MountSpecs.MountSpec>, path': string)
    requires spec.Valid() && SmbWellFormed(MountSpecs.MapOf(spec.items), path, fold)
    ensures again.Some? && again.value.Valid() && again.value.items == spec.items && path' == path
  {
    var text := SmbToUri(spec, path, utf8);
    SmbRoundTrip(MountSpecs.MapOf(spec.items), path, fold, utf8);
    again, path' := SmbFromUri(text, fold);
    MountSpecs.MapDetermines(again.value.items, spec.items);
  }

  method AfpThroughUri(spec: MountSpecs.MountSpec, path: string, utf8: bool)
    returns (again: Option<MountSpecs.MountSpec>, path': string)
    requires spec.Valid() && AfpWellFormed(MountSpecs.MapOf(spec.items), path)
    ensures again.Some? && again.value.Valid() && again.value.items == spec.items && path' == path
  {
    var text := AfpToUri(spec, path, utf8);
    AfpRoundTrip(MountSpecs.MapOf(spec.items), path, utf8);
    again, path' := AfpFromUri(text);
    MountSpecs.MapDetermines(again.value.items, spec.items);
  }

  method AfpToUri(spec: MountSpecs.MountSpec, path: string, utf8: bool) returns (uri: string)
    requires spec.Valid() && IsAfp(MountSpecs.MapOf(spec.items))
    ensures uri == AfpToText(MountSpecs.MapOf(spec.items), path, utf8)
  {
    var kind := spec.Lookup("type");
    var host := spec.Lookup("host");
    var port := spec.Lookup("port");
    var user := spec.Lookup("user");
    var d := Uri("afp", user, host, if port.Some? then Atoi(port.value) else -1, "", None, None);
    if kind == Some("afp-server") {
      d := d.(path := ServerPath(path));
    } else {
      var volume := spec.Lookup("volume");
      d := d.(path := SharePath(volume, path));
    }
    assert d == AfpUri(MountSpecs.MapOf(spec.items), path);
    uri := EncodeUri(d, utf8);
  }

  method SmbToUri(spec: MountSpecs.MountSpec, path: string, utf8: bool) returns (uri: string)
    requires spec.Valid() && IsSmb(MountSpecs.MapOf(spec.items))
    ensures uri == SmbToText(MountSpecs.MapOf(spec.items), path, utf8)
  {
    ghost var m := MountSpecs.MapOf(spec.items);
    var kind := spec.Lookup("type");
    var server := spec.Lookup("server");
    var share := spec.Lookup("share");
    var user := spec.Lookup("user");
    var domain := spec.Lookup("domain");
    var port := spec.Lookup("port");
    var d := Uri("smb", None, None, -1, path, None, None);
    if kind == Some("smb-server") {
      d := d.(host := server, port := PortNumber(port), path := ServerPath(path));
    } else if kind == Some("smb-share") {
      var info := if user.None? then None else if domain.Some? then Some(domain.value + ";" + user.value) else user;
      d := d.(host := server, port := PortNumber(port), path := SharePath(share, path), userinfo := info);
    }
    assert d == SmbUri(m, path);
    uri := EncodeUri(d, utf8);
  }
}
