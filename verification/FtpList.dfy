/** Lines of an FTP directory listing in the style of `ls -l`: the tokens of a line, its
    size and date columns, and the name and target of a symbolic link. */
module FtpList {
  import opened Text
  import Uris

  const MAX_TOKENS: nat := 16

  // ---------- Tokens ----------

  /** The part of the line from `start` to `end`. */
  datatype Token = Token(start: nat, end: nat)

  predicate IsBlank(c: char) {
    c == ' ' || c == '\t' || c == '\r'
  }

  function SkipBlanks(line: string, from: nat): (n: nat)
    requires from <= |line|
    ensures from <= n <= |line| && (n < |line| ==> !IsBlank(line[n]))
    ensures forall i :: from <= i < n ==> IsBlank(line[i])
    decreases |line| - from
  {
    if from < |line| && IsBlank(line[from]) then SkipBlanks(line, from + 1) else from
  }

  function SkipToken(line: string, from: nat): (n: nat)
    requires from <= |line|
    ensures from <= n <= |line| && (n < |line| ==> IsBlank(line[n]))
    ensures forall i :: from <= i < n ==> !IsBlank(line[i])
    decreases |line| - from
  {
    if from < |line| && !IsBlank(line[from]) then SkipToken(line, from + 1) else from
  }

  /** The runs of characters that are not blank, from a position on. */
  function Runs(line: string, from: nat): seq<Token>
    requires from <= |line|
    decreases |line| - from
  {
    var start := SkipBlanks(line, from);
    if start == |line| then []
    else
      var end := SkipToken(line, start);
      [Token(start, end)] + Runs(line, end)
  }

  /** The run is not empty, holds no blank, and cannot be made longer. */
  ghost predicate IsMaximalRun(line: string, t: Token) {
    && t.start < t.end <= |line| && (forall i :: t.start <= i < t.end ==> !IsBlank(line[i]))
    && (t.start == 0 || IsBlank(line[t.start - 1])) && (t.end == |line| || IsBlank(line[t.end]))
  }

  ghost predicate Ordered(tokens: seq<Token>) {
    forall i, j :: 0 <= i < j < |tokens| ==> tokens[i].end < tokens[j].start
  }

  lemma {:induction false} RunsAreMaximal(line: string, from: nat)
    requires from <= |line| && (from == 0 || from == |line| || IsBlank(line[from]))
    ensures forall i :: 0 <= i < |Runs(line, from)| ==>
      IsMaximalRun(line, Runs(line, from)[i]) && Runs(line, from)[i].start >= from
    ensures from > 0 ==> forall i :: 0 <= i < |Runs(line, from)| ==> Runs(line, from)[i].start > from
    ensures Ordered(Runs(line, from))
    decreases |line| - from
  {
    var start := SkipBlanks(line, from);
    if start < |line| {
      RunsAreMaximal(line, SkipToken(line, start));
    }
  }

  /** No character that is not blank is missed. */
  lemma {:induction false} RunsCover(line: string, from: nat, k: nat)
    requires from <= k < |line| && !IsBlank(line[k])
    ensures exists i :: 0 <= i < |Runs(line, from)| && Runs(line, from)[i].start <= k < Runs(line, from)[i].end
    decreases |line| - from
  {
    var start := SkipBlanks(line, from);
    var end := SkipToken(line, start);
    var runs := Runs(line, from);
    if k < end {
      assert runs[0].start <= k < runs[0].end;
    } else {
      RunsCover(line, end, k);
      var i :| 0 <= i < |Runs(line, end)| && Runs(line, end)[i].start <= k < Runs(line, end)[i].end;
      assert runs[i + 1] == Runs(line, end)[i];
    }
  }

  function First(tokens: seq<Token>): seq<Token> {
    if |tokens| <= MAX_TOKENS then tokens else tokens[..MAX_TOKENS]
  }

  /** The first tokens, at most sixteen, are the first runs in order. */
  method Tokenize(line: string) returns (tokens: seq<Token>)
    ensures tokens == First(Runs(line, 0))
  {
    tokens := [];
    var pos := 0;
    while pos < |line| && |tokens| < MAX_TOKENS
      invariant pos <= |line| && |tokens| <= MAX_TOKENS && tokens + Runs(line, pos) == Runs(line, 0)
    {
      ghost var from := pos;
      while pos < |line| && IsBlank(line[pos])
        invariant from <= pos <= |line| && SkipBlanks(line, pos) == SkipBlanks(line, from)
      {
        pos := pos + 1;
      }
      if pos < |line| {
        var start := pos;
        while pos < |line| && !IsBlank(line[pos])
          invariant start <= pos <= |line| && SkipToken(line, pos) == SkipToken(line, start)
        {
          pos := pos + 1;
        }
        Concat(tokens, Token(start, pos), Runs(line, pos));
        tokens := tokens + [Token(start, pos)];
      }
    }
    if pos == |line| {
      assert Runs(line, pos) == [];
    }
    assert tokens == (tokens + Runs(line, pos))[..|tokens|];
  }

  lemma Concat(a: seq<Token>, t: Token, b: seq<Token>)
    ensures a + ([t] + b) == (a + [t]) + b
  {
  }

  // ---------- Symbolic links ----------

  predicate ArrowAt(tail: string, k: nat) {
    k + 4 <= |tail| && tail[k..k + 4] == " -> "
  }

  /** The size column is the length of the target. */
  predicate SizeFits(tail: string, size: nat) {
    size + 4 < |tail| && ArrowAt(tail, |tail| - size - 4)
  }

  /** Splits the tail of a line into name and target: by the size when that fits, otherwise
      at the last arrow that leaves both sides non-empty. */
  method SplitLink(tail: string, size: nat) returns (split: Option<(string, string)>)
    ensures split.Some? ==> split.value.0 != "" && split.value.0 + " -> " + split.value.1 == tail
    ensures SizeFits(tail, size) ==> split.Some? && |split.value.1| == size
    ensures !SizeFits(tail, size) && split.Some? ==>
      split.value.1 != "" && forall k :: |split.value.0| < k && k + 4 < |tail| ==> !ArrowAt(tail, k)
    ensures split.None? <==> !SizeFits(tail, size) && forall k :: 0 < k && k + 4 < |tail| ==> !ArrowAt(tail, k)
  {
    if |tail| <= 4 {
      return None;
    }
    if size <= |tail| - 4 && |tail| > size + 4 && tail[|tail| - size - 4..|tail| - size] == " -> " {
      Parts(tail, |tail| - size - 4);
      return Some((tail[..|tail| - size - 4], tail[|tail| - size..]));
    }
    var pos: nat := |tail| - 5;
    while pos > 0
      invariant pos + 4 < |tail| && forall k :: pos < k && k + 4 < |tail| ==> !ArrowAt(tail, k)
    {
      if tail[pos..pos + 4] == " -> " {
        assert ArrowAt(tail, pos);
        Parts(tail, pos);
        return Some((tail[..pos], tail[pos + 4..]));
      }
      pos := pos - 1;
    }
    return None;
  }

  lemma Parts(tail: string, k: nat)
    requires ArrowAt(tail, k)
    ensures tail[..k] + " -> " + tail[k + 4..] == tail
  {
    assert tail == tail[..k] + tail[k..k + 4] + tail[k + 4..];
  }

  // ---------- Columns ----------

  predicate Digit(s: string, i: int) {
    0 <= i < |s| && '0' <= s[i] <= '9'
  }

  predicate Alpha(s: string, i: int) {
    0 <= i < |s| && ('a' <= s[i] <= 'z' || 'A' <= s[i] <= 'Z')
  }

  predicate Colon(s: string, i: int) {
    0 <= i < |s| && s[i] == ':'
  }

  /** A year, or a time with one or two digits for the hour, with or without seconds. */
  predicate TimeOrYear(t: string) {
    var n := |t|;
    && n >= 4 && Digit(t, 0) && (n <= 5 || ((n == 7 || n == 8) && Colon(t, n - 3))) && Digit(t, n - 2)
    && Digit(t, n - 1)
    && (|| ((n == 4 || n == 5) && Digit(t, 1) && Digit(t, 2))
        || ((n == 4 || n == 7) && Colon(t, 1) && Digit(t, 2) && Digit(t, 3))
        || ((n == 5 || n == 8) && Digit(t, 1) && Colon(t, 2) && Digit(t, 3) && Digit(t, 4)))
  }

  /** A text of the form of the pattern, in which `d` stands for a digit. */
  predicate Matches(t: string, pattern: string) {
    && |t| == |pattern|
    && forall i :: 0 <= i < |t| ==> if pattern[i] == 'd' then Digit(t, i) else t[i] == pattern[i]
  }

  /** The six forms of the last column of the date. */
  lemma TimesExactly(t: string)
    ensures TimeOrYear(t) <==>
      || Matches(t, "dddd") || Matches(t, "ddddd") || Matches(t, "d:dd") || Matches(t, "dd:dd")
      || Matches(t, "d:dd:dd") || Matches(t, "dd:dd:dd")
  {
    if |t| == 4 {
      FourExactly(t);
    } else if |t| == 5 {
      FiveExactly(t);
    } else if |t| == 7 {
      SecondsExactly(t, 1, "d:dd:dd");
    } else if |t| == 8 {
      SecondsExactly(t, 2, "dd:dd:dd");
    }
  }

  lemma FourExactly(t: string)
    requires |t| == 4
    ensures TimeOrYear(t) <==> Matches(t, "dddd") || Matches(t, "d:dd")
  {
    assert Matches(t, "dddd") <==> Digit(t, 0) && Digit(t, 1) && Digit(t, 2) && Digit(t, 3);
    assert Matches(t, "d:dd") <==> Digit(t, 0) && Colon(t, 1) && Digit(t, 2) && Digit(t, 3);
  }

  lemma FiveExactly(t: string)
    requires |t| == 5
    ensures TimeOrYear(t) <==> Matches(t, "ddddd") || Matches(t, "dd:dd")
  {
    assert Matches(t, "ddddd") <==> Digit(t, 0) && Digit(t, 1) && Digit(t, 2) && Digit(t, 3) && Digit(t, 4);
    assert Matches(t, "dd:dd") <==> Digit(t, 0) && Digit(t, 1) && Colon(t, 2) && Digit(t, 3) && Digit(t, 4);
  }

  /** Times with seconds, with `h` digits for the hour. */
  lemma SecondsExactly(t: string, h: nat, pattern: string)
    requires (h == 1 && pattern == "d:dd:dd") || (h == 2 && pattern == "dd:dd:dd")
    requires |t| == |pattern|
    ensures TimeOrYear(t) <==> Matches(t, pattern)
  {
    assert h == 1 ==> (Matches(t, pattern) <==>
      Digit(t, 0) && Colon(t, 1) && Digit(t, 2) && Digit(t, 3) && Colon(t, 4) && Digit(t, 5) && Digit(t, 6));
    assert h == 2 ==> (Matches(t, pattern) <==>
      && Digit(t, 0) && Digit(t, 1) && Colon(t, 2) && Digit(t, 3) && Digit(t, 4) && Colon(t, 5)
      && Digit(t, 6) && Digit(t, 7));
  }

  predicate IsMonth(t: string) {
    t in {"Jan", "Feb", "Mar", "Apr", "May", "Jun", "Jul", "Aug", "Sep", "Oct", "Nov", "Dec"}
  }

  function Column(line: string, t: Token): string {
    if t.start <= t.end <= |line| then line[t.start..t.end] else ""
  }

  /** Size, month, day and time from token `pos` on. */
  predicate SizeAndDate(line: string, tokens: seq<Token>, pos: nat)
    requires pos + 3 < |tokens|
  {
    var size, month := Column(line, tokens[pos]), Column(line, tokens[pos + 1]);
    var day, time := Column(line, tokens[pos + 2]), Column(line, tokens[pos + 3]);
    && Digit(size, 0) && |month| == 3 && Alpha(month, 0) && Alpha(month, 1) && Alpha(month, 2)
    && Digit(day, 0) && (|day| == 1 || (|day| == 2 && Digit(day, 1))) && TimeOrYear(time)
    && (forall i :: 0 <= i < |size| ==> Digit(size, i)) && IsMonth(month)
  }

  /** The greatest number from 2 to `top` that passes the test, or 0. */
  method ScanDown(top: nat, test: int -> bool) returns (found: nat)
    ensures found > 0 ==> 2 <= found <= top && test(found)
    ensures forall pos: int :: 2 <= pos <= top && pos > found ==> !test(pos)
  {
    found := top;
    while found > 1 && !test(found)
      invariant found <= top && forall pos: int :: 2 <= pos <= top && pos > found ==> !test(pos)
    {
      found := found - 1;
    }
    if found <= 1 {
      found := 0;
    }
  }

  /** The scan from the right for these columns: the marker, or 0 when there are none. */
  method FindMarker(line: string, tokens: seq<Token>) returns (marker: nat)
    requires |tokens| >= 6
    ensures marker > 0 ==> 2 <= marker <= |tokens| - 5 && SizeAndDate(line, tokens, marker)
    ensures forall pos :: 2 <= pos <= |tokens| - 5 && pos > marker ==> !SizeAndDate(line, tokens, pos)
  {
    var test := (pos: int) => 0 <= pos < |tokens| - 3 && SizeAndDate(line, tokens, pos);
    marker := ScanDown(|tokens| - 5, test);
    forall pos | 2 <= pos <= |tokens| - 5 && pos > marker ensures !SizeAndDate(line, tokens, pos) {
      assert !test(pos);
    }
  }

  /** A date of twelve characters, or of eleven with a blank after it, ends one character
      before the name, whatever the name starts with. */
  function NameStart(line: string, tokens: seq<Token>, marker: nat): nat
    requires marker + 4 < |tokens|
  {
    var start, end := tokens[marker + 1].start, tokens[marker + 3].end;
    if end == start + 12 || (end == start + 11 && end + 1 < |line| && line[end + 1] == ' ') then start + 13
    else tokens[marker + 4].start
  }

  ghost predicate AreTokens(line: string, tokens: seq<Token>) {
    Ordered(tokens) && forall i :: 0 <= i < |tokens| ==> IsMaximalRun(line, tokens[i])
  }

  lemma NameIsThere(line: string, tokens: seq<Token>, marker: nat)
    requires AreTokens(line, tokens) && marker + 4 < |tokens|
    ensures NameStart(line, tokens, marker) <= tokens[marker + 4].start < |line|
  {
    var end, next := tokens[marker + 3].end, tokens[marker + 4];
    assert IsMaximalRun(line, tokens[marker + 3]) && IsMaximalRun(line, next) && end < next.start;
    if end + 1 == next.start {
      assert !IsBlank(line[next.start]);
    }
  }

  lemma TokensAreRuns(line: string)
    ensures AreTokens(line, First(Runs(line, 0)))
  {
    RunsAreMaximal(line, 0);
  }

  /** The permissions column of a symbolic link. */
  predicate LinkMode(t: string) {
    && (|t| == 10 || |t| == 11) && t[0] == 'l' && t[1] != '['
    && (t[1] == 'r' || t[1] == '-') && (t[2] == 'w' || t[2] == '-') && (t[4] == 'r' || t[4] == '-')
    && (t[5] == 'w' || t[5] == '-') && (t[7] == 'r' || t[7] == '-') && (t[8] == 'w' || t[8] == '-')
  }

  /** A link line: where its name starts, the name, and the target if the line was split. */
  datatype Link = Link(start: nat, size: nat, name: string, target: Option<string>)

  /** What a link line says of its tail, from the name on. */
  ghost predicate SplitsWell(line: string, link: Link) {
    link.start < |line| && link.name != "" &&
    var tail := line[link.start..];
    && (link.target.Some? ==> link.name + " -> " + link.target.value == tail)
    && (link.target.None? ==> link.name == tail)
    && (SizeFits(tail, link.size) ==> link.target.Some? && |link.target.value| == link.size)
    && (!SizeFits(tail, link.size) && link.target.Some? ==>
          link.target.value != "" && forall k :: |link.name| < k && k + 4 < |tail| ==> !ArrowAt(tail, k))
    && (!SizeFits(tail, link.size) && link.target.None? ==> forall k :: 0 < k && k + 4 < |tail| ==> !ArrowAt(tail, k))
  }

  function SizeOf(column: string): int {
    Uris.Atoi(if |column| > 39 then column[..39] else column)
  }

  /** The `ls -l` branch for symbolic links. */
  method ParseLink(line: string) returns (link: Option<Link>)
    ensures link.Some? ==> SplitsWell(line, link.value)
    ensures link.None? ==>
      var tokens := First(Runs(line, 0));
      |tokens| >= 6 && LinkMode(Column(line, tokens[0])) ==>
        forall pos :: 2 <= pos <= |tokens| - 5 ==> !SizeAndDate(line, tokens, pos)
    ensures link.Some? ==>
      var tokens := First(Runs(line, 0));
      |tokens| >= 6 && LinkMode(Column(line, tokens[0])) &&
      exists marker :: 2 <= marker <= |tokens| - 5 && SizeAndDate(line, tokens, marker)
                       && link.value.start == NameStart(line, tokens, marker)
                       && link.value.size == SizeOf(Column(line, tokens[marker]))
                       && forall pos :: marker < pos <= |tokens| - 5 ==> !SizeAndDate(line, tokens, pos)
  {
    var tokens := Tokenize(line);
    TokensAreRuns(line);
    if |tokens| < 6 || !LinkMode(Column(line, tokens[0])) {
      return None;
    }
    var marker := FindMarker(line, tokens);
    if marker == 0 {
      return None;
    }
    NameIsThere(line, tokens, marker);
    var start := NameStart(line, tokens, marker);
    var size := SizeOf(Column(line, tokens[marker]));
    SizeIsCounted(Column(line, tokens[marker]));
    var split := SplitLink(line[start..], size);
    if split.Some? {
      return Some(Link(start, size, split.value.0, Some(split.value.1)));
    }
    return Some(Link(start, size, line[start..], None));
  }

  lemma SizeIsCounted(column: string)
    requires Digit(column, 0)
    ensures SizeOf(column) >= 0
  {
    Uris.AtoiOfDigits(if |column| > 39 then column[..39] else column);
  }
}
