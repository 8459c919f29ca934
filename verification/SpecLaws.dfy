/** The reader of mount spec strings by its laws: what any text of a type and pairs says. */
module SpecLaws {
  import opened Sequences
  import opened Text
  import opened MountSpecs
  import Paths
  import PathLaws

  /** Pieces with commas between them. */
  function Join(pieces: seq<string>): string
    requires pieces != []
  {
    var n := |pieces| - 1;
    if n == 0 then pieces[0] else Join(pieces[..n]) + "," + pieces[n]
  }

  /** An optional type, a colon after it, and the pieces. */
  function SpecText(kind: Option<string>, pieces: seq<string>): string
    requires pieces != []
  {
    (if kind.None? then "" else kind.value + ":") + Join(pieces)
  }

  /** The type is told from the pieces. */
  ghost predicate Told(kind: Option<string>, pieces: seq<string>)
    requires pieces != []
  {
    && (if kind.None? then ':' !in Join(pieces) else ':' !in kind.value)
    && (forall i :: 0 <= i < |pieces| ==> ',' !in pieces[i])
    && Join(pieces) != ""
  }

  lemma {:induction false} JoinSplits(pieces: seq<string>)
    requires pieces != [] && forall i :: 0 <= i < |pieces| ==> ',' !in pieces[i]
    ensures Pieces(Join(pieces), ',') == pieces
  {
    var n := |pieces| - 1;
    PiecesOne(pieces[n], ',');
    if n > 0 {
      JoinSplits(pieces[..n]);
      PiecesConcat(Join(pieces[..n]), ',', pieces[n]);
      assert pieces == pieces[..n] + [pieces[n]];
    } else {
      assert pieces == [pieces[0]];
    }
  }

  lemma TextParts(kind: Option<string>, pieces: seq<string>)
    requires pieces != [] && Told(kind, pieces)
    ensures var str := SpecText(kind, pieces);
      && TypePart(str) == (if kind.None? then [] else [Raw("type", Some(kind.value))])
      && SplitOn(PairPart(str), ',') == pieces
  {
    var list := Join(pieces);
    JoinSplits(pieces);
    if kind.None? {
      assert "" + list == list;
      IndexOfNone(list, ':');
    } else {
      var t := kind.value;
      IndexOfFirst(t, ':', list);
      assert (t + ":" + list)[..|t|] == t && (t + ":" + list)[|t| + 1..] == list;
    }
  }

  /** A key, an equals sign and a value, and no other equals sign. */
  predicate IsPair(piece: string) {
    '=' in piece && forall i, j :: 0 <= i < j < |piece| && piece[i] == '=' ==> piece[j] != '='
  }

  lemma PairExactly(piece: string)
    ensures ParsePair(piece).Some? <==> IsPair(piece)
  {
    var n := IndexOf(piece, '=');
    NoneBefore(piece, '=');
    if n < |piece| {
      var key, value := piece[..n], piece[n + 1..];
      assert piece == key + "=" + value;
      PiecesFirst(key, '=', value);
      IndexOfFirst(key, '=', value);
      if '=' in value {
        var j :| 0 <= j < |value| && value[j] == '=';
        assert piece[n] == '=' && piece[n + 1 + j] == '=';
        NoneBefore(value, '=');
        assert |Pieces(value, '=')| >= 2;
      } else {
        PiecesOne(value, '=');
        OneEquals(key, value);
      }
    }
  }

  lemma OneEquals(key: string, value: string)
    requires '=' !in key && '=' !in value
    ensures IsPair(key + "=" + value)
  {
    var piece := key + "=" + value;
    assert piece[|key|] == '=';
    forall i, j | 0 <= i < j < |piece| && piece[i] == '=' ensures piece[j] != '=' {
      assert i == |key|;
      assert piece[j] == value[j - |key| - 1];
    }
  }

  lemma {:induction false} PairsExactly(pieces: seq<string>)
    ensures ParsePairs(pieces).Some? <==> forall i :: 0 <= i < |pieces| ==> IsPair(pieces[i])
  {
    if pieces != [] {
      var n := |pieces| - 1;
      PairsExactly(pieces[..n]);
      PairExactly(pieces[n]);
    }
  }

  /** A text is refused for its pairs if and only if one of its pieces has no equals sign, or more than one. */
  lemma RefusedExactly(kind: Option<string>, pieces: seq<string>)
    requires pieces != [] && Told(kind, pieces)
    ensures Parse(SpecText(kind, pieces)) == InvalidPair <==> exists i :: 0 <= i < |pieces| && !IsPair(pieces[i])
  {
    TextParts(kind, pieces);
    PairsExactly(pieces);
  }

  // ---------- The text of a spec ----------

  lemma {:induction false} ListedJoined(items: seq<Item>)
    ensures Texts(items) == [] ==> Listed(items) == ""
    ensures Texts(items) != [] ==> Listed(items) == Join(Texts(items))
  {
    if items != [] {
      var n := |items| - 1;
      ListedJoined(items[..n]);
      if items[n].key != "type" {
        var front := Texts(items[..n]);
        assert (front + [Pair(items[n])])[..|front|] == front;
        assert "" + "" + Pair(items[n]) == Pair(items[n]);
      }
    }
  }

  lemma {:induction false} GetMore(items: seq<Item>, x: Item, key: string)
    requires Get(items, key).Some?
    ensures Get(items + [x], key) == Get(items, key)
  {
    if items[0].key != key {
      assert (items + [x])[1..] == items[1..] + [x];
      GetMore(items[1..], x, key);
    }
  }

  /** A spec is printed as its type, a colon and its other items in order, each as its key, an equals sign and the
      escaped value, with commas between them; the prefix comes last, unless it is "/". */
  lemma PrintsExactly(items: seq<Item>, prefix: string, x: Item)
    requires x.key != "type" && Get(items, "type").Some?
    ensures Texts(items + [x]) == Texts(items) + [x.key + "=" + Escape(x.value, "$&'()*+", true)]
    ensures Printed(items + [x], "/") == SpecText(Get(items, "type"), Texts(items + [x]))
    ensures prefix != "/" ==>
      Printed(items + [x], prefix) ==
      SpecText(Get(items, "type"), Texts(items + [x]) + ["prefix=" + Escape(prefix, "$&'()*+", true)])
  {
    var all := items + [x];
    assert all[..|items|] == items;
    GetMore(items, x, "type");
    ListedJoined(all);
    var t, last := Texts(all), "prefix=" + Escape(prefix, "$&'()*+", true);
    assert (t + [last])[..|t|] == t;
    assert Pair(Item("prefix", prefix)) == last by {
      assert "prefix" + "=" == "prefix=";
    }
    Associative(Listed(all), ",", last);
    assert Listed(all) + "" == Listed(all);
  }

  // ---------- Texts of pairs ----------

  /** A key and a value as they are written. */
  ghost predicate Written(pairs: seq<Item>) {
    forall i :: 0 <= i < |pairs| ==>
      '=' !in pairs[i].key && '=' !in pairs[i].value && ',' !in pairs[i].key && ',' !in pairs[i].value
  }

  function PairTexts(pairs: seq<Item>): (r: seq<string>)
    ensures |r| == |pairs| && forall i :: 0 <= i < |r| ==> r[i] == pairs[i].key + "=" + pairs[i].value
  {
    seq(|pairs|, i requires 0 <= i < |pairs| => pairs[i].key + "=" + pairs[i].value)
  }

  function Meant(pairs: seq<Item>): (r: seq<Raw>)
    ensures |r| == |pairs| && forall i :: 0 <= i < |r| ==> r[i] == Raw(pairs[i].key, Unescape(pairs[i].value, ""))
  {
    seq(|pairs|, i requires 0 <= i < |pairs| => Raw(pairs[i].key, Unescape(pairs[i].value, "")))
  }

  lemma PairMeans(key: string, value: string)
    requires '=' !in key && '=' !in value
    ensures ParsePair(key + "=" + value) == Some(Raw(key, Unescape(value, "")))
  {
    PiecesFirst(key, '=', value);
    PiecesOne(value, '=');
  }

  lemma {:induction false} PairsMean(pairs: seq<Item>)
    requires Written(pairs)
    ensures ParsePairs(PairTexts(pairs)) == Some(Meant(pairs))
  {
    if pairs != [] {
      var n := |pairs| - 1;
      PairsMean(pairs[..n]);
      assert pairs == pairs[..n] + [pairs[n]];
      OneMorePair(pairs[..n], pairs[n]);
    }
  }

  lemma OneMorePair(pairs: seq<Item>, x: Item)
    requires ParsePairs(PairTexts(pairs)) == Some(Meant(pairs)) && '=' !in x.key && '=' !in x.value
    ensures ParsePairs(PairTexts(pairs + [x])) == Some(Meant(pairs + [x]))
  {
    var text := x.key + "=" + x.value;
    PairMeans(x.key, x.value);
    ParseMore(PairTexts(pairs), text);
    assert PairTexts(pairs + [x]) == PairTexts(pairs) + [text];
    assert Meant(pairs + [x]) == Meant(pairs) + [Raw(x.key, Unescape(x.value, ""))];
  }

  /** The last "prefix" pair counts, if it can be unescaped. */
  lemma {:induction false} LastPrefixIs(raws: seq<Raw>, i: nat)
    requires i < |raws| && raws[i].key == "prefix" && forall j :: i < j < |raws| ==> raws[j].key != "prefix"
    ensures LastPrefix(raws) == raws[i].value
  {
    if i < |raws| - 1 {
      LastPrefixIs(raws[..|raws| - 1], i);
    }
  }

  lemma {:induction false} NoPrefix(raws: seq<Raw>)
    requires forall j :: 0 <= j < |raws| ==> raws[j].key != "prefix"
    ensures LastPrefix(raws) == None
  {
    if raws != [] {
      NoPrefix(raws[..|raws| - 1]);
    }
  }

  /** The prefix of a text: that of its last "prefix" pair, and "/" if there is none or its escapes are malformed. */
  ghost predicate SaysPrefix(pairs: seq<Item>, prefix: string) {
    && ((forall j :: 0 <= j < |pairs| ==> pairs[j].key != "prefix") ==> prefix == "/")
    && forall i :: 0 <= i < |pairs| && IsLastPrefix(pairs, i) ==>
         var given := Unescape(pairs[i].value, "");
         prefix == Paths.Canonical(if given.None? then "/" else given.value)
  }

  predicate IsLastPrefix(pairs: seq<Item>, i: nat)
    requires i < |pairs|
  {
    pairs[i].key == "prefix" && forall j :: i < j < |pairs| ==> pairs[j].key != "prefix"
  }

  /** The item is the type or one of the pairs other than "prefix". */
  ghost predicate SaysItem(kind: Option<string>, pairs: seq<Item>, x: Item) {
    || (kind == Some(x.value) && x.key == "type")
    || exists i :: 0 <= i < |pairs| && pairs[i].key == x.key != "prefix"
        && Unescape(pairs[i].value, "") == Some(x.value)
  }

  /** What a text of pairs says: it gives no spec if and only if a value other than the prefix has malformed
      escapes, and else the items are the type and the pairs, and the prefix is the last one given. */
  lemma ReadsExactly(kind: Option<string>, pairs: seq<Item>)
    requires pairs != [] && Written(pairs) && Told(kind, PairTexts(pairs))
    ensures var r := Parse(SpecText(kind, PairTexts(pairs)));
      && (r.NullValue? <==>
          exists i :: 0 <= i < |pairs| && pairs[i].key != "prefix" && Unescape(pairs[i].value, "").None?)
      && (r.Spec? <==> !r.NullValue?)
      && (r.Spec? ==> SaysPrefix(pairs, r.prefix) && forall x :: x in r.items <==> SaysItem(kind, pairs, x))
  {
    TextParts(kind, PairTexts(pairs));
    PairsMean(pairs);
    var raws := Meant(pairs);
    var first := if kind.None? then [] else [Raw("type", Some(kind.value))];
    Assembled(kind, pairs, first, raws);
  }

  lemma Assembled(kind: Option<string>, pairs: seq<Item>, first: seq<Raw>, raws: seq<Raw>)
    requires raws == Meant(pairs) && first == if kind.None? then [] else [Raw("type", Some(kind.value))]
    ensures var r := Assemble(first, Some(raws));
      && (r.NullValue? <==>
          exists i :: 0 <= i < |pairs| && pairs[i].key != "prefix" && Unescape(pairs[i].value, "").None?)
      && (r.Spec? <==> !r.NullValue?)
      && (r.Spec? ==> SaysPrefix(pairs, r.prefix) && forall x :: x in r.items <==> SaysItem(kind, pairs, x))
  {
    NullExactly(pairs, first, raws);
    var all := first + Kept(raws);
    if !HasNull(all) {
      PrefixSaid(pairs, raws);
      forall x ensures x in Sort(ItemsOf(all)) <==> SaysItem(kind, pairs, x) {
        SortMembers(ItemsOf(all), x);
        ItemSaid(kind, pairs, first, raws, x);
      }
    }
  }

  lemma NullExactly(pairs: seq<Item>, first: seq<Raw>, raws: seq<Raw>)
    requires raws == Meant(pairs) && !HasNull(first)
    ensures HasNull(first + Kept(raws)) <==>
            exists i :: 0 <= i < |pairs| && pairs[i].key != "prefix" && Unescape(pairs[i].value, "").None?
  {
    var all := first + Kept(raws);
    if HasNull(all) {
      var j :| 0 <= j < |all| && all[j].value.None?;
      KeptMembers(raws, all[j]);
      assert all[j] in Kept(raws);
      var i :| 0 <= i < |raws| && raws[i] == all[j];
      assert pairs[i].key != "prefix";
    }
    if exists i :: 0 <= i < |pairs| && pairs[i].key != "prefix" && Unescape(pairs[i].value, "").None? {
      var i :| 0 <= i < |pairs| && pairs[i].key != "prefix" && Unescape(pairs[i].value, "").None?;
      KeptMembers(raws, raws[i]);
      var j :| 0 <= j < |Kept(raws)| && Kept(raws)[j] == raws[i];
      assert all[|first| + j].value.None?;
    }
  }

  lemma PrefixSaid(pairs: seq<Item>, raws: seq<Raw>)
    requires raws == Meant(pairs)
    ensures SaysPrefix(pairs, Paths.Canonical(if LastPrefix(raws).None? then "/" else LastPrefix(raws).value))
  {
    if forall j :: 0 <= j < |pairs| ==> pairs[j].key != "prefix" {
      NoPrefix(raws);
      PathLaws.UnrootedIsRooted("");
      PathLaws.RelativeIsRooted([]);
      assert "/" + "" == "/";
    }
    forall i | 0 <= i < |pairs| && IsLastPrefix(pairs, i) ensures LastPrefix(raws) == Unescape(pairs[i].value, "")
    {
      LastPrefixIs(raws, i);
    }
  }

  lemma ItemOfRaw(all: seq<Raw>, x: Item)
    requires !HasNull(all)
    ensures x in ItemsOf(all) <==> Raw(x.key, Some(x.value)) in all
  {
    var r := Raw(x.key, Some(x.value));
    if x in ItemsOf(all) {
      var i :| 0 <= i < |all| && ItemsOf(all)[i] == x;
      assert all[i] == r;
    }
    if r in all {
      var i :| 0 <= i < |all| && all[i] == r;
      assert ItemsOf(all)[i] == x;
    }
  }

  lemma ItemSaid(kind: Option<string>, pairs: seq<Item>, first: seq<Raw>, raws: seq<Raw>, x: Item)
    requires raws == Meant(pairs) && first == if kind.None? then [] else [Raw("type", Some(kind.value))]
    requires !HasNull(first + Kept(raws))
    ensures x in ItemsOf(first + Kept(raws)) <==> SaysItem(kind, pairs, x)
  {
    var all, r := first + Kept(raws), Raw(x.key, Some(x.value));
    KeptMembers(raws, r);
    ItemOfRaw(all, x);
    if r in raws {
      var i :| 0 <= i < |raws| && raws[i] == r;
      assert pairs[i].key == x.key;
    }
    if i :| 0 <= i < |pairs| && pairs[i].key == x.key != "prefix" && Unescape(pairs[i].value, "") == Some(x.value) {
      assert raws[i] == r;
    }
  }
}
