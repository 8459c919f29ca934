/** Prefixes of canonical paths: matching, stripping and putting back the mount prefix,
    relative paths between files, and the way to the FUSE mountpoint and back. */
module PathPrefixes {
  import opened Sequences
  import opened Text
  import opened Paths

  // ---------- Paths as component sequences ----------

  function PathOf(cs: seq<string>): string {
    "/" + Joined(cs)
  }

  /** A slash and then normal components with slashes between them. */
  ghost predicate Plain(path: string) {
    exists cs :: AllNormal(cs) && path == PathOf(cs)
  }

  lemma PlainPath(path: string)
    requires Plain(path)
    ensures AllNormal(Components(path)) && path == PathOf(Components(path))
  {
    var cs :| AllNormal(cs) && path == PathOf(cs);
    PathOfIsPlain(cs);
  }

  /** The plain paths are the results of the normaliser that do not start with two slashes. */
  lemma PlainIsCanonical(path: string)
    ensures Plain(path) <==> IsCanonical(path) && !DoubleRoot(path)
  {
    if Plain(path) {
      PlainPath(path);
      PathOfIsPlain(Components(path));
    } else {
      ComponentsAreNormal(path);
      assert path != PathOf(Components(path));
    }
  }

  lemma PathOfIsPlain(cs: seq<string>)
    requires AllNormal(cs)
    ensures IsCanonical(PathOf(cs)) && !DoubleRoot(PathOf(cs)) && Components(PathOf(cs)) == cs
  {
    if cs == [] {
      assert PathOf(cs) == "/";
      CanonicalIsIdempotent("/");
      assert "/"[1..] == "" && Split("") == [""];
      ResolveStep([], "", []);
      assert [""] + [] == [""];
    } else {
      JoinedStart(cs);
      ComponentsOfJoined(cs, false);
    }
  }

  lemma {:induction false} SlashedConcat(ds: seq<string>, es: seq<string>)
    ensures Slashed(ds + es) == Slashed(ds) + Slashed(es)
  {
    if es == [] {
      assert ds + es == ds;
    } else {
      var n := |es| - 1;
      SlashedConcat(ds, es[..n]);
      assert (ds + es)[..|ds + es| - 1] == ds + es[..n];
      Associative(Slashed(ds), Slashed(es[..n]), es[n]);
      Associative(Slashed(ds), Slashed(es[..n]) + es[n], "/");
    }
  }

  lemma JoinedConcat(ds: seq<string>, es: seq<string>)
    requires ds != [] && es != []
    ensures Joined(ds + es) == Joined(ds) + "/" + Joined(es)
  {
    var n := |es| - 1;
    SlashedConcat(ds, es[..n]);
    assert ds + es == (ds + es[..n]) + [es[n]];
    JoinedLast(ds + es[..n], es[n]);
    Associative(Slashed(ds), Slashed(es[..n]), es[n]);
  }

  lemma JoinedLast(front: seq<string>, c: string)
    ensures Joined(front + [c]) == Slashed(front) + c
  {
    assert (front + [c])[..|front|] == front;
  }

  lemma {:induction false} JoinedEnd(cs: seq<string>)
    requires AllNormal(cs) && cs != []
    ensures Joined(cs) != "" && Joined(cs)[|Joined(cs)| - 1] != '/'
  {
    var c := cs[|cs| - 1];
    assert Joined(cs)[|Joined(cs)| - 1] == c[|c| - 1];
  }

  /** The pieces of a text one character longer. */
  function Longer(c: char, pieces: seq<string>): seq<string>
    requires pieces != []
  {
    if c == '/' then [""] + pieces else [[c] + pieces[0]] + pieces[1..]
  }

  lemma LongerConcat(c: char, x: seq<string>, y: seq<string>)
    requires x != []
    ensures Longer(c, x + y) == Longer(c, x) + y
  {
    assert (x + y)[1..] == x[1..] + y;
  }

  lemma SplitLonger(s: string, c: char, t: string)
    requires s == [c] + t
    ensures Split(s) == Longer(c, Split(t))
  {
    assert s[1..] == t;
  }

  lemma {:induction false} SplitConcat(a: string, b: string)
    ensures Split(a + "/" + b) == Split(a) + Split(b)
  {
    if a == "" {
      SplitSlash(b);
      assert "" + "/" + b == "/" + b;
    } else {
      var rest := a[1..];
      SplitConcat(rest, b);
      assert a + "/" + b == [a[0]] + (rest + "/" + b);
      SplitLonger(a + "/" + b, a[0], rest + "/" + b);
      SplitLonger(a, a[0], rest);
      LongerConcat(a[0], Split(rest), Split(b));
    }
  }

  lemma {:induction false} ResolveConcat(stack: seq<string>, ps: seq<string>, qs: seq<string>)
    ensures Resolve(stack, ps + qs) == Resolve(Resolve(stack, ps), qs)
    decreases |ps|
  {
    if ps == [] {
      assert ps + qs == qs;
    } else {
      ResolveConcat(After(stack, ps[0]), ps[1..], qs);
      assert (ps + qs)[1..] == ps[1..] + qs;
    }
  }

  // ---------- path_has_prefix ----------

  /** A NULL prefix matches everything, as does the empty one. */
  predicate PathHasPrefix(path: string, prefix: Option<string>) {
    prefix == None ||
    (var p := prefix.value;
     p <= path &&
     (|p| == 0 || p[|p| - 1] == '/' || |path| == |p| || path[|p|] == '/'))
  }

  lemma Rejoined(a: string, b: string)
    ensures "/" + (a + "/" + b) == ("/" + a) + ("/" + b)
  {
    Associative(a, "/", b);
    Associative("/", a, "/" + b);
  }

  lemma PathOfConcat(ds: seq<string>, es: seq<string>)
    requires AllNormal(ds) && AllNormal(es)
    ensures ds != [] && es != [] ==> PathOf(ds + es) == PathOf(ds) + PathOf(es)
    ensures ds == [] ==> PathOf(ds + es) == PathOf(es)
    ensures es == [] ==> PathOf(ds + es) == PathOf(ds)
  {
    if ds == [] {
      assert ds + es == es;
    } else if es == [] {
      assert ds + es == ds;
    } else {
      JoinedConcat(ds, es);
      Rejoined(Joined(ds), Joined(es));
    }
  }

  lemma PrefixTest(cs: seq<string>, ds: seq<string>)
    requires AllNormal(cs) && AllNormal(ds)
    ensures PathHasPrefix(PathOf(cs), Some(PathOf(ds))) <==> ds <= cs
  {
    if ds <= cs {
      assert cs == ds + cs[|ds|..];
      PathOfConcat(ds, cs[|ds|..]);
    }
    if PathHasPrefix(PathOf(cs), Some(PathOf(ds))) && ds != [] {
      JoinedEnd(ds);
      PrefixFromText(cs, ds);
    }
  }

  /** On plain paths the prefix test is the prefix relation of component sequences. */
  lemma PrefixIsComponentPrefix(path: string, prefix: string)
    requires Plain(path) && Plain(prefix)
    ensures PathHasPrefix(path, Some(prefix)) <==> Components(prefix) <= Components(path)
  {
    PlainPath(path);
    PlainPath(prefix);
    PrefixTest(Components(path), Components(prefix));
  }

  lemma SplitPrefix(j: string, k: string)
    requires k <= j && (|j| == |k| || j[|k|] == '/')
    ensures Split(k) <= Split(j)
  {
    if |j| > |k| {
      assert j == k + "/" + j[|k| + 1..];
      SplitConcat(k, j[|k| + 1..]);
    } else {
      assert j == k;
    }
  }

  lemma PrefixFromText(cs: seq<string>, ds: seq<string>)
    requires AllNormal(cs) && AllNormal(ds) && ds != []
    requires PathOf(ds) <= PathOf(cs) && (|PathOf(cs)| == |PathOf(ds)| || PathOf(cs)[|PathOf(ds)|] == '/')
    ensures ds <= cs
  {
    var j, k := Joined(cs), Joined(ds);
    assert PathOf(cs)[1..] == j && PathOf(ds)[1..] == k;
    JoinedEnd(ds);
    SplitPrefix(j, k);
    SplitJoined(ds);
    SplitJoined(cs);
  }

  lemma UnderPrefix(prefix: string, path: string) returns (ds: seq<string>, es: seq<string>)
    requires Plain(prefix) && Plain(path) && PathHasPrefix(path, Some(prefix))
    ensures AllNormal(ds) && AllNormal(es) && prefix == PathOf(ds) && path == PathOf(ds + es)
  {
    var cs :| AllNormal(cs) && path == PathOf(cs);
    ds :| AllNormal(ds) && prefix == PathOf(ds);
    PrefixTest(cs, ds);
    es := Remainder(ds, cs);
  }

  lemma Remainder(ds: seq<string>, cs: seq<string>) returns (es: seq<string>)
    requires AllNormal(cs) && ds <= cs
    ensures AllNormal(es) && cs == ds + es
  {
    es := cs[|ds|..];
  }

  // ---------- g_build_path with separator "/" ----------

  function Lead(s: string): (n: nat)
    ensures n <= |s| && (n < |s| ==> s[n] != '/')
  {
    if s == "" || s[0] != '/' then 0 else 1 + Lead(s[1..])
  }

  function Trail(s: string): (n: nat)
    ensures n <= |s| && (n < |s| ==> s[|s| - 1 - n] != '/')
  {
    if s == "" || s[|s| - 1] != '/' then 0 else 1 + Trail(s[..|s| - 1])
  }

  function Body(s: string): string {
    if Lead(s) + Trail(s) >= |s| then "" else s[Lead(s)..|s| - Trail(s)]
  }

  /** Two elements: the separators in front of the first and after the last are kept, one
      separator goes between two elements, and empty elements are left out. */
  function BuildPath(a: string, b: string): string {
    if a == "" then b
    else if b == "" then a
    else
      var middle := if Body(a) == "" then Body(b) else if Body(b) == "" then Body(a) else Body(a) + "/" + Body(b);
      a[..Lead(a)] + middle + b[|b| - Trail(b)..]
  }

  lemma PathOfParts(cs: seq<string>)
    requires AllNormal(cs)
    ensures Lead(PathOf(cs)) == 1 && Body(PathOf(cs)) == Joined(cs)
    ensures Trail(PathOf(cs)) == if cs == [] then 1 else 0
  {
    var s := PathOf(cs);
    assert s[1..] == Joined(cs);
    if cs == [] {
      assert s == "/";
    } else {
      JoinedStart(cs);
      JoinedEnd(cs);
      assert s[|s| - 1] == Joined(cs)[|Joined(cs)| - 1];
      assert Lead(Joined(cs)) == 0;
    }
  }

  lemma BuiltPath(ds: seq<string>, es: seq<string>)
    requires AllNormal(ds) && AllNormal(es)
    ensures BuildPath(PathOf(ds), PathOf(es)) == PathOf(ds + es) + if es == [] then "/" else ""
  {
    PathOfParts(ds);
    PathOfParts(es);
    var a, b := PathOf(ds), PathOf(es);
    assert a[..1] == "/";
    assert b[|b| - Trail(b)..] == if es == [] then "/" else "";
    if ds == [] {
      assert ds + es == es;
    } else if es == [] {
      assert ds + es == ds;
      JoinedStart(ds);
    } else {
      JoinedConcat(ds, es);
      JoinedStart(ds);
      JoinedStart(es);
    }
  }

  /** Putting a plain path under a plain prefix, and normalising. */
  lemma BuiltPathIsCanonical(ds: seq<string>, es: seq<string>)
    requires AllNormal(ds) && AllNormal(es)
    ensures Canonical(BuildPath(PathOf(ds), PathOf(es))) == PathOf(ds + es)
  {
    BuiltPath(ds, es);
    var cs := ds + es;
    PathOfIsPlain(cs);
    if es == [] {
      TrailingSlash(cs);
    } else {
      assert PathOf(cs) + "" == PathOf(cs);
    }
  }

  lemma TrailingSlash(cs: seq<string>)
    requires AllNormal(cs)
    ensures Canonical(PathOf(cs) + "/") == PathOf(cs)
  {
    var s := PathOf(cs) + "/";
    assert s[1..] == Joined(cs) + "/" + "";
    SplitConcat(Joined(cs), "");
    PathOfIsPlain(cs);
    assert PathOf(cs)[1..] == Joined(cs);
    ResolveConcat([], Split(Joined(cs)), [""]);
    ResolveStep(cs, "", []);
    assert [""] + [] == [""];
    if cs != [] {
      JoinedStart(cs);
      assert s[1] == Joined(cs)[0];
    }
  }

  // ---------- Mount prefixes ----------

  /** g_mount_info_resolve_path: what is left of a path below the mount prefix. */
  function ResolvePath(prefix: Option<string>, path: string): string
    requires PathHasPrefix(path, prefix)
  {
    var len := if prefix == None || prefix.value == "" then 0
               else if prefix.value[|prefix.value| - 1] == '/' then |prefix.value| - 1
               else |prefix.value|;
    if path[len..] == "" then "/" else path[len..]
  }

  /** g_mount_info_apply_prefix */
  function ApplyPrefix(prefix: Option<string>, path: string): string {
    if prefix == None || prefix.value == "" then path else BuildPath(prefix.value, path)
  }

  lemma ResolvedPath(ds: seq<string>, es: seq<string>)
    requires AllNormal(ds) && AllNormal(es)
    ensures PathHasPrefix(PathOf(ds + es), Some(PathOf(ds)))
    ensures ResolvePath(Some(PathOf(ds)), PathOf(ds + es)) == PathOf(es)
  {
    PathOfConcat(ds, es);
    if ds == [] {
      assert PathOf(ds) == "/";
      assert PathOf(es)[0..] == PathOf(es);
    } else {
      JoinedEnd(ds);
      var p := PathOf(ds);
      assert p[|p| - 1] == Joined(ds)[|Joined(ds)| - 1];
      if es != [] {
        assert (p + PathOf(es))[|p|..] == PathOf(es);
      } else {
        assert p[|p|..] == "";
      }
    }
  }

  /** Stripping the mount prefix and putting it back gives the path again. */
  lemma ApplyUndoesResolve(prefix: string, path: string)
    requires Plain(prefix) && Plain(path) && PathHasPrefix(path, Some(prefix))
    ensures Canonical(ApplyPrefix(Some(prefix), ResolvePath(Some(prefix), path))) == path
  {
    var ds, es := UnderPrefix(prefix, path);
    ResolvedPath(ds, es);
    BuiltPathIsCanonical(ds, es);
  }

  // ---------- Files below other files ----------

  /** match_prefix: the rest of the path after the prefix, the separator included. */
  function MatchPrefix(path: string, prefix: string): Option<string> {
    if !(prefix <= path) then None
    else
      var len := if |prefix| > 0 && prefix[|prefix| - 1] == '/' then |prefix| - 1 else |prefix|;
      Some(path[len..])
  }

  /** g_daemon_file_prefix_matches, for files of the same mount spec. */
  predicate PrefixMatches(parent: string, descendant: string) {
    var remainder := MatchPrefix(descendant, parent);
    remainder.Some? && remainder.value != "" && remainder.value[0] == '/'
  }

  /** g_daemon_file_get_relative_path, for files of the same mount spec. */
  function RelativePath(parent: string, descendant: string): (r: Option<string>)
    ensures r.Some? <==> PrefixMatches(parent, descendant)
  {
    if PrefixMatches(parent, descendant) then Some(MatchPrefix(descendant, parent).value[1..]) else None
  }

  /** g_daemon_file_resolve_relative_path; a new file's path is made canonical. */
  function ResolveRelativePath(path: string, relative: string): string {
    Canonical(if relative != "" && relative[0] == '/' then relative else BuildPath(path, relative))
  }

  lemma MatchedPrefix(ds: seq<string>, es: seq<string>)
    requires AllNormal(ds) && AllNormal(es)
    ensures MatchPrefix(PathOf(ds + es), PathOf(ds)) == Some(if ds != [] && es == [] then "" else PathOf(es))
  {
    PathOfConcat(ds, es);
    if ds == [] {
      assert PathOf(ds) == "/" && PathOf(es)[0..] == PathOf(es);
    } else {
      JoinedEnd(ds);
      var p := PathOf(ds);
      assert p[|p| - 1] == Joined(ds)[|Joined(ds)| - 1];
      assert es != [] ==> (p + PathOf(es))[|p|..] == PathOf(es);
      assert es == [] ==> p[|p|..] == "";
    }
  }

  lemma MatchedText(ds: seq<string>, cs: seq<string>)
    requires AllNormal(ds) && AllNormal(cs) && ds != [] && PrefixMatches(PathOf(ds), PathOf(cs))
    ensures ds <= cs
  {
    JoinedEnd(ds);
    var a, b := PathOf(ds), PathOf(cs);
    assert a[|a| - 1] == Joined(ds)[|Joined(ds)| - 1];
    assert b[|a|] == b[|a|..][0];
    PrefixFromText(cs, ds);
  }

  lemma MatchTest(ds: seq<string>, cs: seq<string>)
    requires AllNormal(ds) && AllNormal(cs)
    ensures PrefixMatches(PathOf(ds), PathOf(cs)) <==> ds < cs || (ds == [] && cs == [])
  {
    if ds <= cs {
      var es := Remainder(ds, cs);
      MatchedPrefix(ds, es);
    }
    if PrefixMatches(PathOf(ds), PathOf(cs)) && ds != [] {
      MatchedText(ds, cs);
    }
  }

  /** A file is below another one exactly when its components extend the other's; the root
      alone also counts as below itself. */
  lemma PrefixMatchesExactly(parent: string, descendant: string)
    requires Plain(parent) && Plain(descendant)
    ensures PrefixMatches(parent, descendant) <==>
            Components(parent) < Components(descendant) || (parent == "/" && descendant == "/")
  {
    PlainPath(parent);
    PlainPath(descendant);
    PathOfIsPlain([]);
    assert PathOf([]) == "/";
    MatchTest(Components(parent), Components(descendant));
  }

  /** A relative part: `Joined`, put after a plain path. */
  lemma BuiltRelative(ds: seq<string>, es: seq<string>)
    requires AllNormal(ds) && AllNormal(es)
    ensures Joined(es) == "" || Joined(es)[0] != '/'
    ensures Canonical(BuildPath(PathOf(ds), Joined(es))) == PathOf(ds + es)
  {
    if es == [] {
      PathOfIsPlain(ds);
      assert ds + es == ds;
    } else {
      JoinedStart(es);
      JoinedEnd(es);
      SameBuilt(ds, es);
      BuiltPathIsCanonical(ds, es);
    }
  }

  lemma SameBuilt(ds: seq<string>, es: seq<string>)
    requires AllNormal(ds) && AllNormal(es) && es != []
    ensures BuildPath(PathOf(ds), Joined(es)) == BuildPath(PathOf(ds), PathOf(es))
  {
    PathOfParts(es);
    BodyOfRelative(es);
    JoinedStart(es);
    SameParts(PathOf(ds), Joined(es), PathOf(es));
  }

  lemma SameParts(m: string, a: string, b: string)
    requires m != "" && a != "" && b != "" && Trail(a) == 0 && Trail(b) == 0 && Body(a) == Body(b)
    ensures BuildPath(m, a) == BuildPath(m, b)
  {
    assert a[|a|..] == b[|b|..] == "";
  }

  lemma BodyOfRelative(es: seq<string>)
    requires AllNormal(es) && es != []
    ensures Lead(Joined(es)) == 0 && Trail(Joined(es)) == 0 && Body(Joined(es)) == Joined(es)
  {
    JoinedStart(es);
    JoinedEnd(es);
  }

  lemma RelativeBack(ds: seq<string>, cs: seq<string>)
    requires AllNormal(ds) && AllNormal(cs) && PrefixMatches(PathOf(ds), PathOf(cs))
    ensures ResolveRelativePath(PathOf(ds), RelativePath(PathOf(ds), PathOf(cs)).value) == PathOf(cs)
  {
    MatchTest(ds, cs);
    var es := cs[|ds|..];
    assert cs == ds + es;
    MatchedPrefix(ds, es);
    assert PathOf(es)[1..] == Joined(es);
    BuiltRelative(ds, es);
  }

  /** Resolving a relative path against the parent gives the descendant. */
  lemma RelativeRoundTrip(parent: string, descendant: string)
    requires Plain(parent) && Plain(descendant) && PrefixMatches(parent, descendant)
    ensures ResolveRelativePath(parent, RelativePath(parent, descendant).value) == descendant
  {
    var ds :| AllNormal(ds) && parent == PathOf(ds);
    var cs :| AllNormal(cs) && descendant == PathOf(cs);
    RelativeBack(ds, cs);
  }

  // ---------- Parent and basename ----------

  ghost function LastSlashIn(path: string): (i: int)
    ensures -1 <= i < |path| && (i >= 0 ==> path[i] == '/')
  {
    if path == "" then -1
    else if path[|path| - 1] == '/' then |path| - 1
    else LastSlashIn(path[..|path| - 1])
  }

  lemma {:induction false} LastSlashBefore(a: string, c: string)
    requires a != "" && a[|a| - 1] == '/' && '/' !in c
    ensures LastSlashIn(a + c) == |a| - 1
  {
    if c == "" {
      assert a + c == a;
    } else {
      var n := |c| - 1;
      LastSlashBefore(a, c[..n]);
      assert (a + c)[..|a| + n] == a + c[..n];
      assert (a + c)[|a| + n] == c[n];
    }
  }

  /** strrchr (path, '/'): the index of the last slash, or -1. */
  method LastSlash(path: string) returns (i: int)
    ensures i == LastSlashIn(path)
  {
    i := |path| - 1;
    assert path[..|path|] == path;
    while i >= 0 && path[i] != '/'
      invariant -1 <= i < |path| && LastSlashIn(path) == LastSlashIn(path[..i + 1])
    {
      assert path[..i + 1][..i] == path[..i];
      i := i - 1;
    }
  }

  /** g_daemon_file_get_basename */
  method GetBasename(path: string) returns (base: string)
    ensures forall cs :: AllNormal(cs) && cs != [] && path == PathOf(cs) ==> base == cs[|cs| - 1]
    ensures path == "/" ==> base == path
  {
    var i := LastSlash(path);
    if i < 0 || i + 1 == |path| {
      base := path;
    } else {
      base := path[i + 1..];
    }
    forall cs | AllNormal(cs) && cs != [] && path == PathOf(cs) ensures base == cs[|cs| - 1] {
      LastComponent(cs);
    }
  }

  /** What the parent is, told from the last slash. */
  ghost predicate ParentText(path: string, parent: Option<string>) {
    var i := LastSlashIn(path);
    && (i < 0 || i + 1 == |path| ==> parent == None)
    && (i >= 0 && i + 1 < |path| && (i == 0 || path[i - 1] != '/') ==>
          parent == Some(path[..if i == 0 then 1 else i]))
  }

  lemma ParentOf(cs: seq<string>, path: string, parent: Option<string>)
    requires AllNormal(cs) && cs != [] && path == PathOf(cs) && ParentText(path, parent)
    ensures parent == Some(PathOf(cs[..|cs| - 1]))
  {
    LastComponent(cs);
    assert cs[|cs| - 1] != "";
  }

  /** g_daemon_file_get_parent: the path of the parent file, before it is made canonical. */
  method GetParent(path: string) returns (parent: Option<string>)
    ensures path == "/" ==> parent == None
    ensures forall cs :: AllNormal(cs) && cs != [] && path == PathOf(cs) ==> parent == Some(PathOf(cs[..|cs| - 1]))
  {
    parent := BeforeLastSlash(path);
    forall cs | AllNormal(cs) && cs != [] && path == PathOf(cs) ensures parent == Some(PathOf(cs[..|cs| - 1])) {
      ParentOf(cs, path, parent);
    }
  }

  method BeforeLastSlash(path: string) returns (parent: Option<string>)
    ensures ParentText(path, parent)
  {
    var base := LastSlash(path);
    if base < 0 || base + 1 == |path| {
      return None;
    }
    ghost var last := base;
    while base > 0 && path[base] == '/'
      invariant 0 <= base <= last && forall i :: base < i <= last ==> path[i] == '/'
    {
      base := base - 1;
    }
    assert base < last - 1 ==> path[last - 1] == '/';
    parent := Some(path[..base + 1]);
  }

  /** The text around the last slash of a plain path. */
  ghost predicate LastPart(cs: seq<string>)
    requires cs != []
  {
    var path := PathOf(cs);
    var n := |cs| - 1;
    var i := LastSlashIn(path);
    && i >= 0 && path[i] == '/' && path[i + 1..] == cs[n] && cs[n] != ""
    && (n == 0 ==> i == 0 && PathOf(cs[..n]) == path[..1])
    && (n > 0 ==> i > 0 && path[..i] == PathOf(cs[..n]) && path[i - 1] != '/')
  }

  lemma LastComponent(cs: seq<string>)
    requires AllNormal(cs) && cs != []
    ensures LastPart(cs)
  {
    var n := |cs| - 1;
    var front, c, path := Slashed(cs[..n]), cs[n], PathOf(cs);
    assert path == ("/" + front) + c;
    SlashedEnd(cs[..n]);
    LastSlashBefore("/" + front, c);
    if n > 0 {
      JoinedEnd(cs[..n]);
      var j := Joined(cs[..n]);
      assert front == j + "/";
      assert path[..|front|] == "/" + j;
      assert path[|front| - 1] == j[|j| - 1];
    } else {
      assert cs[..n] == [];
    }
  }

  lemma ChildOf(ds: seq<string>, c: string)
    requires AllNormal(ds) && Normal(c)
    ensures ResolveRelativePath(PathOf(ds), c) == PathOf(ds + [c])
  {
    assert Slashed([]) == "" && [c][..0] == [] && Joined([c]) == c;
    BuiltRelative(ds, [c]);
  }

  /** Resolving the basename against the parent gives the file. */
  lemma ParentAndBasename(cs: seq<string>)
    requires AllNormal(cs) && cs != []
    ensures ResolveRelativePath(PathOf(cs[..|cs| - 1]), cs[|cs| - 1]) == PathOf(cs)
  {
    var ds, c := cs[..|cs| - 1], cs[|cs| - 1];
    assert cs == ds + [c];
    ChildOf(ds, c);
  }

  /** A file is its parent's child by its own name; the root has no parent. */
  method ParentThenChild(path: string) returns (again: Option<string>)
    requires Plain(path)
    ensures again == if path == "/" then None else Some(path)
  {
    ghost var cs :| AllNormal(cs) && path == PathOf(cs);
    var parent := GetParent(path);
    var base := GetBasename(path);
    if parent.None? {
      return None;
    }
    again := Some(ResolveRelativePath(parent.value, base));
    if cs != [] {
      ParentAndBasename(cs);
      JoinedStart(cs);
    }
  }

  // ---------- The FUSE mountpoint ----------

  datatype MountInfo = MountInfo(prefix: string, fuseMountpoint: Option<string>)

  /** The path computation of g_daemon_file_get_path. */
  function FusePath(mountpoint: string, prefix: string, path: string): string
    requires |prefix| <= |path|
  {
    BuildPath(mountpoint, path[|prefix|..])
  }

  /** The test of lookup_mount_info_by_fuse_path_in_cache. */
  predicate FuseMatches(info: MountInfo, fuse: string) {
    && info.fuseMountpoint.Some? && info.fuseMountpoint.value <= fuse
    && var len := |info.fuseMountpoint.value|; |fuse| == len || fuse[len] == '/'
  }

  /** The first mount of the cache that matches. */
  method LookupByFusePath(cache: seq<MountInfo>, fuse: string) returns (found: Option<MountInfo>)
    ensures found == None <==> forall i :: 0 <= i < |cache| ==> !FuseMatches(cache[i], fuse)
    ensures found.Some? ==> exists i :: 0 <= i < |cache| && cache[i] == found.value && FuseMatches(cache[i], fuse) &&
                                        forall j :: 0 <= j < i ==> !FuseMatches(cache[j], fuse)
  {
    for i := 0 to |cache|
      invariant forall j :: 0 <= j < i ==> !FuseMatches(cache[j], fuse)
    {
      if FuseMatches(cache[i], fuse) {
        return Some(cache[i]);
      }
    }
    return None;
  }

  /** The path computation of _g_daemon_vfs_get_mount_info_by_fuse_sync. */
  function MountPath(info: MountInfo, fuse: string): string
    requires FuseMatches(info, fuse)
  {
    var len := |info.fuseMountpoint.value|;
    BuildPath(info.prefix, if |fuse| == len then "/" else fuse[len..])
  }

  lemma {:induction false} LeadStops(s: string)
    requires s != "" && s[|s| - 1] != '/'
    ensures Lead(s) < |s|
  {
    if s[0] == '/' {
      LeadStops(s[1..]);
    }
  }

  lemma WholeBody(m: string)
    requires m != "" && m[|m| - 1] != '/'
    ensures Body(m) != "" && m == m[..Lead(m)] + Body(m)
  {
    LeadStops(m);
    NoTrail(m);
    BodyFrom(m, Lead(m));
    WholeText(m, Lead(m), Body(m));
  }

  lemma BodyFrom(m: string, k: nat)
    requires k == Lead(m) && k < |m| && Trail(m) == 0
    ensures Body(m) == m[k..|m|]
  {
  }

  lemma NoTrail(m: string)
    requires m != "" && m[|m| - 1] != '/'
    ensures Trail(m) == 0
  {
  }

  lemma WholeText(m: string, k: nat, body: string)
    requires k < |m| && body == m[k..|m|]
    ensures body != "" && m == m[..k] + body
  {
  }

  lemma BuiltBelow(m: string, rest: string, j: string)
    requires m != "" && m[|m| - 1] != '/' && rest != "" && j != "" && Body(rest) == j && Trail(rest) == 0
    ensures BuildPath(m, rest) == m + ("/" + j)
  {
    WholeBody(m);
    var a, b := m[..Lead(m)], Body(m);
    Associative(a, b, "/" + j);
    Associative(b, "/", j);
    assert rest[|rest|..] == "";
  }

  lemma BuiltFusePath(mountpoint: string, rest: string, es: seq<string>)
    requires mountpoint != "" && mountpoint[|mountpoint| - 1] != '/' && AllNormal(es)
    requires rest == Joined(es) || rest == PathOf(es)
    requires es == [] ==> rest == ""
    ensures BuildPath(mountpoint, rest) == mountpoint + if es == [] then "" else PathOf(es)
  {
    if es != [] {
      BodyOfRelative(es);
      PathOfParts(es);
      JoinedStart(es);
      BuiltBelow(mountpoint, rest, Joined(es));
    }
  }

  lemma BelowMount(ds: seq<string>, es: seq<string>, prefix: string, path: string, rest: string)
    requires AllNormal(ds) && AllNormal(es) && prefix == PathOf(ds) && path == PathOf(ds + es)
    requires rest == if ds == [] then Joined(es) else if es == [] then "" else PathOf(es)
    ensures |prefix| <= |path| && path[|prefix|..] == rest
  {
    PathOfConcat(ds, es);
  }

  lemma FuseBack(mounted: MountInfo, m: string, ds: seq<string>, es: seq<string>, prefix: string, path: string)
    requires m != "" && m[|m| - 1] != '/' && AllNormal(ds) && AllNormal(es)
    requires mounted.fuseMountpoint == Some(m) && mounted.prefix == prefix
    requires prefix == PathOf(ds) && path == PathOf(ds + es)
    ensures |prefix| <= |path|
    ensures var fuse := FusePath(m, prefix, path);
      FuseMatches(mounted, fuse) && Canonical(MountPath(mounted, fuse)) == path
  {
    var rest := if ds == [] then Joined(es) else if es == [] then "" else PathOf(es);
    BelowMount(ds, es, prefix, path, rest);
    BuiltFusePath(m, rest, es);
    var fuse := BuildPath(m, rest);
    assert fuse[|m|..] == if es == [] then "" else PathOf(es);
    assert es == [] ==> PathOf(es) == "/";
    BuiltPathIsCanonical(ds, es);
  }

  /** A path below its mount prefix goes to the FUSE mountpoint and comes back. */
  lemma FuseRoundTrip(m: string, mounted: MountInfo, path: string)
    requires mounted.fuseMountpoint == Some(m) && m != "" && m[|m| - 1] != '/'
    requires Plain(mounted.prefix) && Plain(path) && PathHasPrefix(path, Some(mounted.prefix))
    ensures var fuse := FusePath(m, mounted.prefix, path);
      FuseMatches(mounted, fuse) && Canonical(MountPath(mounted, fuse)) == path
  {
    var ds, es := UnderPrefix(mounted.prefix, path);
    FuseBack(mounted, m, ds, es, mounted.prefix, path);
  }
}
