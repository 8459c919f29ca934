/** The normaliser by its laws: what each component that is added to a path does to it. Together
    with the root they fix the components of every path. */
module PathLaws {
  import opened Sequences
  import opened Text
  import opened Paths
  import opened PathPrefixes

  /** A path that does not start with a slash is taken to start at the root. */
  lemma UnrootedIsRooted(path: string)
    requires path == "" || path[0] != '/'
    ensures Canonical(path) == Canonical("/" + path) && Components(path) == Components("/" + path)
  {
    assert ("/" + path)[0] == '/' && Rooted("/" + path) == "/" + path == Rooted(path);
    if path != "" {
      assert ("/" + path)[1] == path[0];
    }
  }

  /** Components joined by slashes, without a slash in front, get one. */
  lemma RelativeIsRooted(cs: seq<string>)
    requires AllNormal(cs)
    ensures Canonical(Joined(cs)) == "/" + Joined(cs)
  {
    if cs != [] {
      JoinedStart(cs);
    }
    UnrootedIsRooted(Joined(cs));
    PathOfIsPlain(cs);
  }

  /** Two leading slashes stay if something follows them, and nothing else of them is left. */
  lemma DoubleRootStays(cs: seq<string>)
    requires AllNormal(cs)
    ensures Canonical("//" + Joined(cs)) == if cs == [] then "/" else "//" + Joined(cs)
  {
    if cs == [] {
      assert "//" + Joined(cs) == "/" + "/" && "/" == PathOf([]);
      AddComponent("/", "");
      Root();
    } else {
      ComponentsOfJoined(cs, true);
    }
  }

  lemma Root()
    ensures Components("/") == [] && Components("") == []
  {
    PathOfIsPlain([]);
    assert PathOf([]) == "/";
    assert "/" + "" == "/";
    UnrootedIsRooted("");
  }

  /** One more component: an empty one and "." change nothing, ".." takes the last component away
      if there is one, and any other is added. */
  lemma AddComponent(path: string, c: string)
    requires path != "" && path[0] == '/' && '/' !in c
    ensures var was, cs := Components(path), Components(path + "/" + c);
      && (c == "" || c == "." ==> cs == was)
      && (c == ".." ==> cs == if was == [] then [] else was[..|was| - 1])
      && (c != "" && c != "." && c != ".." ==> cs == was + [c])
  {
    var p := path[1..];
    assert (path + "/" + c)[1..] == p + "/" + c && (path + "/" + c)[0] == '/';
    SplitConcat(p, c);
    SplitAtSlash(c, "");
    ResolveConcat([], Split(p), [c]);
    ResolveStep(Components(path), c, []);
    assert [c] + [] == [c];
  }

  // ---------- Relative paths ----------

  /** An absolute path does not depend on what it is resolved against. */
  lemma AbsoluteStands(path: string, path': string, relative: string)
    requires relative != "" && relative[0] == '/'
    ensures ResolveRelativePath(path, relative) == ResolveRelativePath(path', relative) == Canonical(relative)
  {
  }

  lemma {:induction false} TrailStops(s: string)
    requires s != "" && s[0] != '/'
    ensures Trail(s) < |s|
  {
    if s[|s| - 1] == '/' {
      TrailStops(s[..|s| - 1]);
    }
  }

  /** Any other is put behind it, with a slash between, and what comes of it is normalised. */
  lemma RelativeIsAppended(path: string, relative: string)
    requires Plain(path) && (relative == "" || relative[0] != '/')
    ensures ResolveRelativePath(path, relative) ==
            Canonical(if relative == "" then path else (if path == "/" then "/" else path + "/") + relative)
  {
    if relative != "" {
      var cs :| AllNormal(cs) && path == PathOf(cs);
      PathOfParts(cs);
      TrailStops(relative);
      Halves(relative, |relative| - Trail(relative));
      if cs == [] {
        assert path == "/";
        BuiltAtRoot(relative);
      } else {
        JoinedStart(cs);
        BuiltAfter(path, Joined(cs), relative);
      }
    }
  }

  lemma Halves(s: string, n: nat)
    requires n <= |s|
    ensures s[0..n] + s[n..] == s
  {
  }

  lemma BuiltAtRoot(relative: string)
    requires relative != "" && relative[0] != '/' && Trail(relative) < |relative|
    ensures BuildPath("/", relative) == "/" + relative
  {
    var n := |relative| - Trail(relative);
    assert "/"[1..] == "" && "/"[..1] == "/" && Lead("/") == 1;
    Associative("/", relative[0..n], relative[n..]);
    Halves(relative, n);
  }

  lemma BuiltAfter(path: string, joined: string, relative: string)
    requires joined != "" && path == "/" + joined && Lead(path) == 1 && Body(path) == joined
    requires relative != "" && relative[0] != '/' && Trail(relative) < |relative|
    ensures BuildPath(path, relative) == (path + "/") + relative
  {
    var n := |relative| - Trail(relative);
    var a, b := relative[0..n], relative[n..];
    Halves(relative, n);
    assert path[..1] == "/" && a != "";
    Associative("/", joined + "/", a);
    Associative("/", joined, "/");
    Associative(path + "/", a, b);
  }

  /** The relative path is the descendant's own components. */
  lemma RelativeIsRest(ds: seq<string>, es: seq<string>)
    requires AllNormal(ds) && AllNormal(es) && (es != [] || ds == [])
    ensures RelativePath(PathOf(ds), PathOf(ds + es)) == Some(Joined(es))
  {
    MatchTest(ds, ds + es);
    MatchedPrefix(ds, es);
    assert PathOf(es)[1..] == Joined(es);
    if es == [] {
      assert ds + es == ds;
    }
  }

  /** On the FUSE mount a file's own components follow the mountpoint. */
  lemma FusePathIs(m: string, ds: seq<string>, es: seq<string>)
    requires m != "" && m[|m| - 1] != '/' && AllNormal(ds) && AllNormal(es)
    ensures |PathOf(ds)| <= |PathOf(ds + es)|
    ensures FusePath(m, PathOf(ds), PathOf(ds + es)) == m + if es == [] then "" else "/" + Joined(es)
  {
    var rest := if ds == [] then Joined(es) else if es == [] then "" else PathOf(es);
    BelowMount(ds, es, PathOf(ds), PathOf(ds + es), rest);
    BuiltFusePath(m, rest, es);
  }

  // ---------- Prefixes of any paths ----------

  /** A prefix that is there matches a path that starts with it, if the prefix is empty or ends with a slash, or the
      path ends there or goes on with one; one that is not there matches all. */
  lemma HasPrefixExactly(path: string, prefix: string)
    ensures PathHasPrefix(path, None)
    ensures PathHasPrefix(path, Some(prefix)) <==>
      exists rest :: path == prefix + rest
          && (prefix == "" || prefix[|prefix| - 1] == '/' || rest == "" || rest[0] == '/')
  {
    if prefix <= path {
      assert path == prefix + path[|prefix|..];
    }
    if rest :| path == prefix + rest && (prefix == "" || prefix[|prefix| - 1] == '/' || rest == "" || rest[0] == '/') {
      assert prefix <= path && rest == path[|prefix|..];
    }
  }

  /** What is left of a path: all of it without a prefix, what follows the prefix, or from the last slash of the
      prefix on; and "/" if that is nothing. */
  lemma ResolvedExactly(prefix: string, rest: string)
    ensures ResolvePath(None, rest) == ResolvePath(Some(""), rest) == if rest == "" then "/" else rest
    ensures ResolvePath(Some(prefix + "/"), prefix + "/" + rest) == "/" + rest
    ensures prefix != "" && prefix[|prefix| - 1] != '/' && (rest == "" || rest[0] == '/') ==>
      PathHasPrefix(prefix + rest, Some(prefix))
      && ResolvePath(Some(prefix), prefix + rest) == if rest == "" then "/" else rest
  {
    assert rest[0..] == rest && "" + rest == rest;
    CutBehind(prefix, rest);
    CutBehind(prefix, "/" + rest);
    assert prefix + "/" + rest == prefix + ("/" + rest);
  }

  lemma CutBehind(a: string, b: string)
    ensures (a + b)[|a|..] == b && a <= a + b
  {
  }
}
