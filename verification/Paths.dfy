/** Canonical mount paths: an in-place normaliser over a NUL-terminated buffer, and
    the stack of path components it computes. */
module Paths {
  import opened Sequences
  import opened Text

  const NUL: char := '\0'

  // ---------- Components ----------

  /** The pieces of a string between slashes. */
  function Split(s: string): (r: seq<string>)
    ensures |r| >= 1
  {
    if s == [] then [""]
    else
      var r := Split(s[1..]);
      if s[0] == '/' then [""] + r else [[s[0]] + r[0]] + r[1..]
  }

  predicate Normal(c: string) {
    c != "" && c != "." && c != ".." && '/' !in c
  }

  ghost predicate AllNormal(cs: seq<string>) {
    forall i :: 0 <= i < |cs| ==> Normal(cs[i])
  }

  function Popped(stack: seq<string>): seq<string> {
    if stack == [] then [] else stack[..|stack| - 1]
  }

  /** The stack after one piece: empty and "." pieces are dropped, ".." pops, and popping
      the empty stack leaves it empty. */
  function After(stack: seq<string>, c: string): seq<string> {
    if c == "" || c == "." then stack else if c == ".." then Popped(stack) else stack + [c]
  }

  function Resolve(stack: seq<string>, pieces: seq<string>): seq<string>
    decreases |pieces|
  {
    if pieces == [] then stack else Resolve(After(stack, pieces[0]), pieces[1..])
  }

  /** Every component with a slash after it. */
  function Slashed(cs: seq<string>): string {
    if cs == [] then "" else Slashed(cs[..|cs| - 1]) + cs[|cs| - 1] + "/"
  }

  /** The components with a slash between any two. */
  function Joined(cs: seq<string>): string {
    if cs == [] then "" else Slashed(cs[..|cs| - 1]) + cs[|cs| - 1]
  }

  function Rooted(path: string): (s: string)
    ensures s != [] && s[0] == '/'
  {
    if path == [] || path[0] != '/' then "/" + path else path
  }

  function Components(path: string): seq<string> {
    Resolve([], Split(Rooted(path)[1..]))
  }

  predicate DoubleRoot(path: string) {
    |path| >= 2 && path[0] == '/' && path[1] == '/'
  }

  /** What the normaliser computes. A second slash at the front is kept, unless nothing follows. */
  function Canonical(path: string): string {
    var cs := Components(path);
    if cs == [] then "/" else (if DoubleRoot(path) then "//" else "/") + Joined(cs)
  }

  ghost predicate IsCanonical(path: string) {
    Canonical(path) == path
  }

  // ---------- Lemmas about components ----------

  lemma {:induction false} SplitAtSlash(c: string, t: string)
    requires '/' !in c
    ensures Split(c + "/" + t) == [c] + Split(t)
    ensures Split(c) == [c]
  {
    if c == [] {
      assert c + "/" + t == "/" + t;
      assert ("/" + t)[1..] == t;
    } else {
      SplitAtSlash(c[1..], t);
      assert (c + "/" + t)[1..] == c[1..] + "/" + t;
      assert [c[0]] + c[1..] == c;
    }
  }

  lemma {:induction false} SplitHasNoSlash(s: string)
    ensures forall i :: 0 <= i < |Split(s)| ==> '/' !in Split(s)[i]
  {
    if s != [] {
      SplitHasNoSlash(s[1..]);
    }
  }

  lemma {:induction false} ResolveIsNormal(stack: seq<string>, pieces: seq<string>)
    requires AllNormal(stack) && forall i :: 0 <= i < |pieces| ==> '/' !in pieces[i]
    ensures AllNormal(Resolve(stack, pieces))
    decreases |pieces|
  {
    if pieces != [] {
      ResolveIsNormal(After(stack, pieces[0]), pieces[1..]);
    }
  }

  lemma {:induction false} ResolveNormal(stack: seq<string>, cs: seq<string>)
    requires AllNormal(cs)
    ensures Resolve(stack, cs) == stack + cs
    decreases |cs|
  {
    if cs != [] {
      ResolveNormal(stack + [cs[0]], cs[1..]);
      assert stack + [cs[0]] + cs[1..] == stack + cs;
    } else {
      assert stack + cs == stack;
    }
  }

  lemma {:induction false} JoinedFront(cs: seq<string>)
    requires |cs| >= 2
    ensures Joined(cs) == cs[0] + "/" + Joined(cs[1..])
  {
    SlashedFront(cs[..|cs| - 1]);
    assert cs[..|cs| - 1][1..] == cs[1..][..|cs| - 2];
    Associative(cs[0] + "/", Slashed(cs[1..][..|cs| - 2]), cs[|cs| - 1]);
  }

  lemma {:induction false} SlashedFront(cs: seq<string>)
    requires cs != []
    ensures Slashed(cs) == cs[0] + "/" + Slashed(cs[1..])
  {
    if |cs| == 1 {
      assert cs[..0] == [] && cs[1..] == [];
    } else {
      SlashedFront(cs[..|cs| - 1]);
      assert cs[..|cs| - 1][1..] == cs[1..][..|cs| - 2];
      var a, b, c := cs[0] + "/", Slashed(cs[1..][..|cs| - 2]), cs[|cs| - 1];
      Associative(a, b, c);
      Associative(a, b + c, "/");
    }
  }

  lemma {:induction false} SplitJoined(cs: seq<string>)
    requires cs != [] && AllNormal(cs)
    ensures Split(Joined(cs)) == cs
  {
    if |cs| == 1 {
      SplitAtSlash(cs[0], "");
      assert cs[..0] == [] && Joined(cs) == cs[0];
    } else {
      JoinedFront(cs);
      SplitJoined(cs[1..]);
      SplitAtSlash(cs[0], Joined(cs[1..]));
    }
  }

  /** The components of a canonical path are normal, and the path is made of them. */
  lemma ComponentsAreNormal(path: string)
    ensures AllNormal(Components(path))
  {
    SplitHasNoSlash(Rooted(path)[1..]);
    ResolveIsNormal([], Split(Rooted(path)[1..]));
  }

  lemma ResolveStep(stack: seq<string>, c: string, pieces: seq<string>)
    ensures Resolve(stack, [c] + pieces) == Resolve(After(stack, c), pieces)
  {
    assert ([c] + pieces)[1..] == pieces;
  }

  lemma SplitSlash(t: string)
    ensures Split("/" + t) == [""] + Split(t)
  {
    assert ("/" + t)[1..] == t;
  }

  lemma ComponentsOfJoined(cs: seq<string>, double: bool)
    requires AllNormal(cs) && cs != []
    ensures Components((if double then "//" else "/") + Joined(cs)) == cs
  {
    var j := Joined(cs);
    SplitJoined(cs);
    ResolveNormal([], cs);
    assert [] + cs == cs;
    if double {
      SplitSlash(j);
      ResolveStep([], "", cs);
      assert ("//" + j)[1..] == "/" + j;
    } else {
      assert ("/" + j)[1..] == j;
    }
  }

  /** Normalising twice is normalising once. */
  lemma CanonicalIsIdempotent(path: string)
    ensures IsCanonical(Canonical(path))
    ensures Components(Canonical(path)) == Components(path)
  {
    var cs := Components(path);
    ComponentsAreNormal(path);
    if cs == [] {
      assert "/"[1..] == "";
      assert Split("") == [""];
      assert [""][1..] == [];
    } else {
      ComponentsOfJoined(cs, DoubleRoot(path));
      JoinedStart(cs);
    }
  }

  lemma {:induction false} JoinedStart(cs: seq<string>)
    requires AllNormal(cs) && cs != []
    ensures Joined(cs) != [] && Joined(cs)[0] != '/'
  {
    if |cs| == 1 {
      assert cs[..0] == [];
      assert Joined(cs) == cs[0];
    } else {
      JoinedFront(cs);
    }
  }

  // ---------- The buffer ----------

  /** The buffer holds the NUL-terminated string `s`. */
  ghost predicate CString(a: array<char>, s: string)
    reads a
  {
    |s| < a.Length && a[..|s|] == s && a[|s|] == NUL && NUL !in s
  }

  /** memmove (p, q, strlen (q) + 1) */
  method MoveTail(a: array<char>, p: nat, q: nat, ghost s: string)
    requires CString(a, s) && p <= q <= |s|
    modifies a
    ensures CString(a, Cut(s, p, q))
  {
    var i := 0;
    while a[q + i] != NUL
      invariant i <= |s| - q
      invariant a[..p + i] == s[..p] + s[q..q + i]
      invariant a[q + i..|s| + 1] == s[q + i..] + [NUL]
      decreases |s| - q - i
    {
      assert a[q + i..|s| + 1][0] == a[q + i];
      ghost var left := a[q + i + 1..|s| + 1];
      assert left == a[q + i..|s| + 1][1..];
      a[p + i] := a[q + i];
      assert a[q + i + 1..|s| + 1] == left;
      i := i + 1;
    }
    assert a[q + i..|s| + 1][0] == a[q + i];
    a[p + i] := NUL;
    assert s[q..q + i] == s[q..];
    assert a[..p + i] == s[..p] + s[q..];
  }

  /** Skips until the next separator. */
  method SkipComponent(a: array<char>, p: nat, ghost s: string) returns (q: nat)
    requires CString(a, s) && p <= |s|
    ensures p <= q <= |s| && '/' !in s[p..q] && (q == |s| || s[q] == '/')
  {
    q := p;
    while a[q] != NUL && a[q] != '/'
      invariant p <= q <= |s| && '/' !in s[p..q]
      decreases |s| - q
    {
      assert a[..|s|][q] == s[q];
      assert s[p..q + 1] == s[p..q] + [s[q]];
      q := q + 1;
    }
    if q < |s| {
      assert a[..|s|][q] == s[q];
    }
  }

  method SkipSlashes(a: array<char>, p: nat, ghost s: string) returns (q: nat)
    requires CString(a, s) && p <= |s|
    ensures p <= q <= |s| && (forall i :: p <= i < q ==> s[i] == '/') && (q == |s| || s[q] != '/')
  {
    q := p;
    while a[q] != NUL && a[q] == '/'
      invariant p <= q <= |s| && forall i :: p <= i < q ==> s[i] == '/'
      decreases |s| - q
    {
      assert a[..|s|][q] == s[q];
      q := q + 1;
    }
    if q < |s| {
      assert a[..|s|][q] == s[q];
    }
  }

  /** Moves back from just after a separator to the start of the component before it;
      `lo` is where that component starts. */
  method BackUp(a: array<char>, p: nat, ghost s: string, ghost lo: nat) returns (b: nat)
    requires CString(a, s) && 1 <= lo <= p <= |s| && p < |s| && s[p] != '/'
    requires lo <= 2 || s[lo - 1] == '/'
    requires lo == 2 ==> s[1] == '/'
    requires lo < p ==> lo + 2 <= p && (forall i :: lo <= i < p - 1 ==> s[i] != '/')
    requires lo == p ==> p <= 2
    ensures b == lo
  {
    b := if p < 3 then 1 else p - 2;
    assert forall i :: 0 <= i < |s| ==> a[i] == s[i] by {
      forall i | 0 <= i < |s| ensures a[i] == s[i] {
        assert a[..|s|][i] == s[i];
      }
    }
    while b > 1 && a[b] != '/'
      invariant 1 <= b <= |s| && lo - 1 <= b && (lo < p ==> b < p - 1 || b == 1)
    {
      b := b - 1;
    }
    if a[b] == '/' {
      b := b + 1;
    }
  }

  // ---------- The normaliser ----------

  /** From the stack, the text resolves to the components; sealed, so that the verifier
      unfolds the recursion only where `Mark` is mentioned. */
  ghost predicate Leads(stack: seq<string>, text: string, comps: seq<string>) {
    forall k: nat {:trigger Mark(text, k)} :: Mark(text, k) ==> Resolve(stack, Split(text)) == comps
  }

  lemma OpenLeads(stack: seq<string>, text: string, comps: seq<string>)
    requires Leads(stack, text, comps)
    ensures Resolve(stack, Split(text)) == comps
  {
    assert Mark(text, 0);
  }

  /** The text before `p` is normalised: `stack` is what it resolves to, `open` a last component
      without a slash. What follows resolves, from there, to the components of the whole path. */
  ghost predicate Halfway(s: string, p: nat, pre: string, stack: seq<string>, open: string, comps: seq<string>) {
    && p <= |s| && AllNormal(stack) && (pre == "/" || pre == "//")
    && (if open == ""
        then s[..p] == pre + Slashed(stack) && Leads(stack, s[p..], comps)
        else s == (pre + Slashed(stack)) + open && p == |s| && Normal(open) && stack + [open] == comps)
  }

  /** Separators are removed at `p`. */
  lemma {:induction false} StripSlashes(s: string, p: nat, q: nat, stack: seq<string>)
    requires p <= q <= |s| && forall i :: p <= i < q ==> s[i] == '/'
    ensures Resolve(stack, Split(s[p..])) == Resolve(stack, Split(s[q..]))
    decreases q - p
  {
    if p < q {
      assert s[p..][1..] == s[p + 1..];
      assert Split(s[p..])[1..] == Split(s[p + 1..]);
      StripSlashes(s, p + 1, q, stack);
    }
  }

  /** The next piece of the text after `p` is `c`. */
  lemma NextPiece(s: string, p: nat, c: string, stack: seq<string>)
    requires p + |c| <= |s| && s[p..p + |c|] == c && '/' !in c && (p + |c| == |s| || s[p + |c|] == '/')
    ensures Resolve(stack, Split(s[p..])) ==
            Resolve(After(stack, c), if p + |c| == |s| then [] else Split(s[p + |c| + 1..]))
  {
    var next := if p + |c| == |s| then [] else Split(s[p + |c| + 1..]);
    assert Split(s[p..]) == [c] + next by {
      SplitAtSlash(c, if p + |c| == |s| then "" else s[p + |c| + 1..]);
      assert s[p..] == if p + |c| == |s| then c else c + "/" + s[p + |c| + 1..];
    }
    ResolveStep(stack, c, next);
  }

  /** What remains after a "." or ".." piece, whose slash (if any) is still there. */
  lemma RestOfPiece(s: string, q: nat, stack: seq<string>)
    requires q <= |s| && (q == |s| || s[q] == '/')
    ensures Resolve(stack, Split(s[q..])) == Resolve(stack, if q == |s| then [] else Split(s[q + 1..]))
  {
    if q == |s| {
      assert s[q..] == "";
      assert [""][1..] == [];
    } else {
      StripSlashes(s, q, q + 1, stack);
    }
  }

  /** The text without its part from `a` to `b`. */
  function Cut(s: string, a: nat, b: nat): (t: string)
    requires a <= b <= |s|
    ensures |t| == |s| - (b - a) && t[..a] == s[..a] && t[a..] == s[b..]
  {
    s[..a] + s[b..]
  }

  /** The piece `c` is taken from the text; its slash may stay. */
  lemma LeadsPiece(s: string, p: nat, c: string, stack: seq<string>, comps: seq<string>)
    requires p + |c| <= |s| && s[p..p + |c|] == c && '/' !in c && (p + |c| == |s| || s[p + |c|] == '/')
    requires Leads(stack, s[p..], comps)
    ensures Leads(After(stack, c), s[p + |c|..], comps)
    ensures p + |c| < |s| ==> Leads(After(stack, c), s[p + |c| + 1..], comps)
    ensures p + |c| == |s| ==> After(stack, c) == comps
  {
    OpenLeads(stack, s[p..], comps);
    NextPiece(s, p, c, stack);
    RestOfPiece(s, p + |c|, After(stack, c));
  }

  lemma DotStep(s: string, p: nat, pre: string, stack: seq<string>, comps: seq<string>)
    requires Halfway(s, p, pre, stack, "", comps)
    requires p < |s| && s[p] == '.' && (p + 1 == |s| || s[p + 1] == '/')
    ensures Halfway(Cut(s, p, p + 1), p, pre, stack, "", comps)
  {
    LeadsPiece(s, p, ".", stack, comps);
  }

  lemma PoppedPrefix(pre: string, stack: seq<string>)
    ensures pre + Slashed(Popped(stack)) <= pre + Slashed(stack)
  {
    if stack != [] {
      Associative(Slashed(Popped(stack)), stack[|stack| - 1], "/");
      Associative(pre, Slashed(Popped(stack)), stack[|stack| - 1] + "/");
    }
  }

  lemma DotDotStep(s: string, p: nat, lo: nat, pre: string, stack: seq<string>, comps: seq<string>)
    requires Halfway(s, p, pre, stack, "", comps)
    requires p + 1 < |s| && s[p] == '.' && s[p + 1] == '.' && (p + 2 == |s| || s[p + 2] == '/')
    requires lo == |pre| + |Slashed(Popped(stack))|
    ensures lo <= p && Halfway(Cut(s, lo, p + 2), lo, pre, Popped(stack), "", comps)
  {
    LeadsPiece(s, p, "..", stack, comps);
    PoppedPrefix(pre, stack);
    assert s[..lo] == s[..p][..lo] == pre + Slashed(Popped(stack));
  }

  lemma PrefixTo(s: string, p: nat, q: nat)
    requires p <= q < |s| && s[q] == '/'
    ensures s[..q + 1] == (s[..p] + s[p..q]) + "/"
  {
    assert s[..q] == s[..p] + s[p..q];
    assert s[..q + 1] == s[..q] + [s[q]];
  }

  lemma SlashedMore(pre: string, stack: seq<string>, c: string)
    ensures ((pre + Slashed(stack)) + c) + "/" == pre + Slashed(stack + [c])
  {
    assert (stack + [c])[..|stack|] == stack;
    Associative(pre, Slashed(stack), c);
    Associative(pre, Slashed(stack) + c, "/");
  }

  lemma PushStep(s: string, p: nat, q: nat, pre: string, stack: seq<string>, comps: seq<string>)
    requires Halfway(s, p, pre, stack, "", comps)
    requires p < q < |s| && s[q] == '/' && Normal(s[p..q])
    ensures Halfway(s, q + 1, pre, stack + [s[p..q]], "", comps)
  {
    var c := s[p..q];
    LeadsPiece(s, p, c, stack, comps);
    assert After(stack, c) == stack + [c] && AllNormal(stack + [c]);
    assert s[..q + 1] == pre + Slashed(stack + [c]) by {
      PrefixTo(s, p, q);
      SlashedMore(pre, stack, c);
    }
  }

  lemma OpenStep(s: string, p: nat, pre: string, stack: seq<string>, comps: seq<string>)
    requires Halfway(s, p, pre, stack, "", comps) && p < |s| && Normal(s[p..])
    ensures Halfway(s, |s|, pre, stack, s[p..], comps)
  {
    LeadsPiece(s, p, s[p..], stack, comps);
    assert s == s[..p] + s[p..];
  }

  lemma StripStep(s: string, p: nat, q: nat, pre: string, stack: seq<string>, open: string, comps: seq<string>)
    requires Halfway(s, p, pre, stack, open, comps)
    requires p <= q <= |s| && forall i :: p <= i < q ==> s[i] == '/'
    ensures Halfway(Cut(s, p, q), p, pre, stack, open, comps)
  {
    if open == "" {
      OpenLeads(stack, s[p..], comps);
      StripSlashes(s, p, q, stack);
    } else {
      assert Cut(s, p, q) == s;
    }
  }

  /** At the end the last slash goes, and what is left is the canonical path. */
  lemma LastStep(s: string, pre: string, stack: seq<string>, open: string, comps: seq<string>)
    requires Halfway(s, |s|, pre, stack, open, comps)
    ensures (if |s| > 1 && s[|s| - 1] == '/' then s[..|s| - 1] else s) ==
      if comps == [] then "/" else pre + Joined(comps)
  {
    if open == "" {
      assert s[..|s|] == s;
      LeadsPiece(s, |s|, "", stack, comps);
      if stack != [] {
        Associative(pre, Slashed(stack[..|stack| - 1]) + stack[|stack| - 1], "/");
      }
    } else {
      assert comps[..|stack|] == stack;
      Associative(pre, Slashed(stack), open);
    }
  }

  /** At the start: a second slash belongs to what is kept in front. */
  lemma FirstStep(path: string)
    ensures var s := Rooted(path); var comps := Components(path);
      && Halfway(s, 1, "/", [], "", comps)
      && (DoubleRoot(path) <==> |s| > 1 && s[1] == '/')
      && (DoubleRoot(path) ==> Halfway(s, 2, "//", [], "", comps))
  {
    var s := Rooted(path);
    assert s[..1] == "/" + Slashed([]);
    if DoubleRoot(path) {
      LeadsPiece(s, 1, "", [], Components(path));
      assert s[..2] == "//" + Slashed([]);
    }
  }

  /** Where the component before `p` starts. */
  lemma BeforePosition(s: string, p: nat, pre: string, stack: seq<string>, comps: seq<string>)
    requires Halfway(s, p, pre, stack, "", comps) && p < |s|
    ensures var lo := |pre| + |Slashed(Popped(stack))|;
      && 1 <= lo <= p && (lo <= 2 || s[lo - 1] == '/') && (lo == 2 ==> s[1] == '/')
      && (lo < p ==> lo + 2 <= p && forall i :: lo <= i < p - 1 ==> s[i] != '/')
      && (lo == p ==> p <= 2)
  {
    var lo := |pre| + |Slashed(Popped(stack))|;
    PoppedPrefix(pre, stack);
    assert forall i :: 0 <= i < p ==> s[i] == s[..p][i];
    SlashedEnd(Popped(stack));
    if stack != [] {
      var c := stack[|stack| - 1];
      Associative(Slashed(Popped(stack)), c, "/");
      Associative(pre, Slashed(Popped(stack)), c + "/");
      assert s[..p] == (pre + Slashed(Popped(stack))) + (c + "/");
      assert forall i :: lo <= i < p - 1 ==> s[..p][i] == c[i - lo];
    }
  }

  lemma SlashedEnd(cs: seq<string>)
    ensures cs != [] ==> Slashed(cs) != "" && Slashed(cs)[|Slashed(cs)| - 1] == '/'
  {
  }

  /** Removes a ".." piece with the component before it. */
  method TakeDotDot(canon: array<char>, p: nat, ghost s: string, ghost pre: string, ghost stack: seq<string>,
                    ghost comps: seq<string>)
    returns (p': nat, ghost s': string)
    requires CString(canon, s) && Halfway(s, p, pre, stack, "", comps)
    requires 1 <= p && p + 2 <= |s| && (p + 2 == |s| || s[p + 2] == '/') && s[p] == '.' && s[p + 1] == '.'
    modifies canon
    ensures CString(canon, s') && Halfway(s', p', pre, Popped(stack), "", comps) && 1 <= p' && |s'| - p' < |s| - p
  {
    BeforePosition(s, p, pre, stack, comps);
    ghost var lo := |pre| + |Slashed(Popped(stack))|;
    DotDotStep(s, p, lo, pre, stack, comps);
    p' := BackUp(canon, p, s, lo);
    MoveTail(canon, p', p + 2, s);
    s' := Cut(s, lo, p + 2);
  }

  /** Drops a "." piece or removes a ".." piece. */
  method TakeDots(canon: array<char>, p: nat, q: nat, ghost s: string, ghost pre: string, ghost stack: seq<string>,
                  ghost comps: seq<string>)
    returns (p': nat, ghost s': string, ghost stack': seq<string>)
    requires CString(canon, s) && Halfway(s, p, pre, stack, "", comps) && 1 <= p < q <= |s| && (q == |s| || s[q] == '/')
    requires s[p..q] == "." || s[p..q] == ".."
    modifies canon
    ensures CString(canon, s') && Halfway(s', p', pre, stack', "", comps) && 1 <= p' && |s'| - p' < |s| - p
  {
    DotsAt(s, p, q);
    if q == p + 1 {
      DotStep(s, p, pre, stack, comps);
      MoveTail(canon, p, q, s);
      p', s', stack' := p, Cut(s, p, q), stack;
    } else {
      p', s' := TakeDotDot(canon, p, s, pre, stack, comps);
      stack' := Popped(stack);
    }
  }

  lemma KeepStep(s: string, p: nat, q: nat, pre: string, stack: seq<string>, comps: seq<string>)
    requires Halfway(s, p, pre, stack, "", comps) && p < |s| && !DotsHere(s, p)
    requires p < q <= |s| && '/' !in s[p..q] && (q == |s| || s[q] == '/')
    ensures q < |s| ==> Halfway(s, q + 1, pre, stack + [s[p..q]], "", comps)
    ensures q == |s| ==> Halfway(s, q, pre, stack, s[p..q], comps)
  {
    DotsAt(s, p, q);
    if q < |s| {
      PushStep(s, p, q, pre, stack, comps);
    } else {
      assert s[p..q] == s[p..];
      OpenStep(s, p, pre, stack, comps);
    }
  }

  lemma CharOrEnd(canon: array<char>, s: string, i: nat)
    requires CString(canon, s) && i <= |s|
    ensures canon[i] != NUL <==> i < |s|
  {
    if i < |s| {
      assert canon[i] == canon[..|s|][i] == s[i];
      assert s[i] in s;
    }
  }

  /** Keeps a component, with its separator if it has one. */
  method KeepComponent(canon: array<char>, p: nat, ghost s: string, ghost pre: string, ghost stack: seq<string>,
                       ghost comps: seq<string>)
    returns (p': nat, ghost pre': string, ghost stack': seq<string>, ghost open: string)
    requires CString(canon, s) && Halfway(s, p, pre, stack, "", comps) && 1 <= p < |s|
    requires s[p] == '/' ==> pre == "/" && Halfway(s, p + 1, "//", [], "", comps)
    requires !DotsHere(s, p)
    ensures Halfway(s, p', pre', stack', open, comps) && p < p'
    ensures pre' == (if s[p] == '/' then "//" else pre)
  {
    p' := SkipComponent(canon, p, s);
    ghost var c := s[p..p'];
    if p' == p {
      pre', stack', open := "//", [], "";
    } else {
      assert s[p] == c[0];
      KeepStep(s, p, p', pre, stack, comps);
      pre', stack', open := pre, if p' < |s| then stack + [c] else stack, if p' < |s| then "" else c;
    }
    CharOrEnd(canon, s, p');
    if canon[p'] != NUL {
      p' := p' + 1;
    }
  }

  predicate DotsHere(s: string, p: nat)
    requires p < |s|
  {
    || (s[p] == '.' && (p + 1 == |s| || s[p + 1] == '/'))
    || (s[p] == '.' && p + 1 < |s| && s[p + 1] == '.' && (p + 2 == |s| || s[p + 2] == '/'))
  }

  lemma DotsAt(s: string, p: nat, q: nat)
    requires p <= q <= |s|
    ensures s[p..q] == "." <==> q == p + 1 && s[p] == '.'
    ensures s[p..q] == ".." <==> q == p + 2 && s[p] == '.' && s[p + 1] == '.'
  {
    if q == p + 1 {
      assert s[p..q] == [s[p]];
    } else if q == p + 2 {
      assert s[p..q] == [s[p], s[p + 1]];
    }
  }

  /** The pieces "." and "..", as the source tells them from other components. */
  method IsDots(canon: array<char>, p: nat, ghost s: string) returns (n: nat)
    requires CString(canon, s) && p < |s|
    ensures n > 0 ==> p + n <= |s| && (p + n == |s| || s[p + n] == '/') && (s[p..p + n] == "." || s[p..p + n] == "..")
    ensures n == 0 ==> !DotsHere(s, p)
  {
    forall i | 0 <= i < |s| ensures canon[i] == s[i] {
      assert canon[..|s|][i] == s[i];
    }
    if canon[p] == '.' && (canon[p + 1] == NUL || canon[p + 1] == '/') {
      assert s[p..p + 1] == ".";
      return 1;
    } else if canon[p] == '.' && canon[p + 1] == '.' && (canon[p + 2] == NUL || canon[p + 2] == '/') {
      assert s[p..p + 2] == "..";
      return 2;
    }
    return 0;
  }

  /** Removes additional separators. */
  method RemoveSeparators(canon: array<char>, p: nat, ghost s: string, ghost pre: string, ghost stack: seq<string>,
                          ghost open: string, ghost comps: seq<string>)
    returns (ghost s': string)
    requires CString(canon, s) && Halfway(s, p, pre, stack, open, comps)
    modifies canon
    ensures CString(canon, s') && Halfway(s', p, pre, stack, open, comps) && |s'| <= |s|
    ensures p == |s'| || s'[p] != '/'
  {
    var q := SkipSlashes(canon, p, s);
    StripStep(s, p, q, pre, stack, open, comps);
    if p != q {
      MoveTail(canon, p, q, s);
    }
    s' := Cut(s, p, q);
    assert q < |s| ==> s'[p..][0] == s[q..][0];
  }

  /** One pass of the loop: a piece is dropped, popped or kept, then separators are removed. */
  method Pass(canon: array<char>, p: nat, ghost s: string, ghost pre: string, ghost stack: seq<string>,
              ghost comps: seq<string>)
    returns (p': nat, ghost s': string, ghost pre': string, ghost stack': seq<string>, ghost open: string)
    requires CString(canon, s) && Halfway(s, p, pre, stack, "", comps) && 1 <= p < |s|
    requires s[p] == '/' ==> pre == "/" && Halfway(s, p + 1, "//", [], "", comps)
    modifies canon
    ensures CString(canon, s') && Halfway(s', p', pre', stack', open, comps) && 1 <= p'
    ensures p' == |s'| || s'[p'] != '/'
    ensures pre' == (if s[p] == '/' then "//" else pre)
    ensures |s'| - p' < |s| - p
  {
    s', pre', open := s, pre, "";
    var n := IsDots(canon, p, s);
    if n > 0 {
      assert s[p..p + n][0] == s[p];
      p', s', stack' := TakeDots(canon, p, p + n, s, pre, stack, comps);
    } else {
      p', pre', stack', open := KeepComponent(canon, p, s, pre, stack, comps);
    }
    s' := RemoveSeparators(canon, p', s', pre', stack', open, comps);
  }

  /** A writable copy of the path that starts with a slash. */
  method CopyRooted(path: string) returns (canon: array<char>)
    requires NUL !in path
    ensures fresh(canon) && CString(canon, Rooted(path))
  {
    var s := if path == [] || path[0] != '/' then "/" + path else path;
    canon := new char[|s| + 1](i requires 0 <= i <= |s| => if i < |s| then s[i] else NUL);
    assert canon[..|s|] == s;
  }

  /** Removes a trailing slash and returns the string. */
  method FinishString(canon: array<char>, p: nat, ghost s: string) returns (result: string)
    requires CString(canon, s) && p == |s| && s != ""
    modifies canon
    ensures result == if |s| > 1 && s[|s| - 1] == '/' then s[..|s| - 1] else s
    ensures NUL !in result
  {
    assert canon[..|s|][p - 1] == s[p - 1];
    if p > 1 && canon[p - 1] == '/' {
      canon[p - 1] := NUL;
      assert canon[..p - 1] == s[..p - 1];
      return canon[..p - 1];
    }
    return canon[..p];
  }

  /** g_mount_spec_canonicalize_path. Every pass shortens the text from `p` to the end,
      also when `p` moves back. */
  method Canonicalize(path: string) returns (result: string)
    requires NUL !in path
    ensures result == Canonical(path) && NUL !in result
  {
    ghost var s := Rooted(path);
    var canon := CopyRooted(path);
    ghost var comps, pre, stack, open, first := Components(path), "/", [], "", true;
    FirstStep(path);
    var p := 1;
    while canon[p] != NUL
      invariant CString(canon, s) && Halfway(s, p, pre, stack, open, comps) && 1 <= p
      invariant first ==> s == Rooted(path) && p == 1 && pre == "/" && stack == [] && open == ""
      invariant !first ==> (pre == "//" <==> DoubleRoot(path)) && (p == |s| || s[p] != '/')
      decreases |s| - p
    {
      assert p < |s|;
      p, s, pre, stack, open := Pass(canon, p, s, pre, stack, comps);
      first := false;
    }
    assert forall i :: 0 <= i < |s| ==> canon[i] == canon[..|s|][i] == s[i];
    assert p == |s|;
    LastStep(s, pre, stack, open, comps);
    if first {
      LeadsPiece(s, |s|, "", stack, comps);
    }
    result := FinishString(canon, p, s);
  }
}
