/** Mount specs: the array of key and value items kept sorted by key, the map it stands
    for, and the string form. */
module MountSpecs {
  import opened Sequences
  import opened Text
  import opened Paths
  import PathPrefixes

  datatype Item = Item(key: string, value: string)

  // ---------- Sorted items ----------

  /** Strictly ascending keys. */
  ghost predicate Strict(items: seq<Item>) {
    forall i, j :: 0 <= i < j < |items| ==> Less(items[i].key, items[j].key)
  }

  ghost predicate Distinct(items: seq<Item>) {
    forall i, j :: 0 <= i < j < |items| ==> items[i].key != items[j].key
  }

  predicate HasKey(items: seq<Item>, key: string) {
    exists i :: 0 <= i < |items| && items[i].key == key
  }

  /** The value of the first item with the key. */
  function Get(items: seq<Item>, key: string): (r: Option<string>)
    ensures r.Some? <==> HasKey(items, key)
    ensures r.Some? ==> Item(key, r.value) in items
  {
    if items == [] then None
    else if items[0].key == key then Some(items[0].value)
    else
      var r := Get(items[1..], key);
      assert forall i :: 1 <= i < |items| ==> items[i] == items[1..][i - 1];
      assert HasKey(items, key) ==> HasKey(items[1..], key);
      r
  }

  ghost function Keys(items: seq<Item>): set<string> {
    set x | x in items :: x.key
  }

  /** The map that a spec stands for. */
  ghost function MapOf(items: seq<Item>): map<string, string> {
    map key | key in Keys(items) && Get(items, key).Some? :: Get(items, key).value
  }

  lemma StrictIsDistinct(items: seq<Item>)
    requires Strict(items)
    ensures Distinct(items)
  {
    forall i, j | 0 <= i < j < |items| ensures items[i].key != items[j].key {
      LessIsStrict(items[i].key);
    }
  }

  /** With distinct keys, the items are exactly the entries of the map. */
  lemma MapEntries(items: seq<Item>, x: Item)
    requires Distinct(items)
    ensures x in items <==> x.key in MapOf(items) && MapOf(items)[x.key] == x.value
  {
    if x in items {
      var i :| 0 <= i < |items| && items[i] == x;
      assert HasKey(items, x.key);
      var v := Get(items, x.key).value;
      var j :| 0 <= j < |items| && items[j] == Item(x.key, v);
      assert i == j;
    }
  }

  lemma MapOfEntries(items: seq<Item>, m: map<string, string>)
    requires Distinct(items)
    requires forall k, v :: Item(k, v) in items <==> k in m && m[k] == v
    ensures MapOf(items) == m
  {
    forall k ensures k in MapOf(items) <==> k in m {
      if k in m {
        MapEntries(items, Item(k, m[k]));
      }
    }
    forall k | k in m ensures MapOf(items)[k] == m[k] {
      MapEntries(items, Item(k, m[k]));
    }
  }

  lemma StrictTail(items: seq<Item>)
    requires Strict(items) && items != []
    ensures Strict(items[1..]) && forall x :: x in items[1..] ==> Less(items[0].key, x.key)
  {
  }

  lemma BothEmpty(a: seq<Item>, b: seq<Item>)
    requires forall x :: x in a <==> x in b
    ensures a == [] <==> b == []
  {
    if a != [] {
      assert a[0] in b;
    }
    if b != [] {
      assert b[0] in a;
    }
  }

  /** There is one strictly sorted sequence with given members. */
  lemma {:induction false} SameMembers(a: seq<Item>, b: seq<Item>)
    requires Strict(a) && Strict(b) && forall x :: x in a <==> x in b
    ensures a == b
  {
    BothEmpty(a, b);
    if a != [] {
      StrictTail(a);
      StrictTail(b);
      SameFirst(a, b);
      forall x ensures x in a[1..] <==> x in b[1..] {
        LessIsStrict(x.key);
        TailMember(a, x);
        TailMember(b, x);
      }
      SameMembers(a[1..], b[1..]);
      assert a == [a[0]] + a[1..] && b == [b[0]] + b[1..];
    }
  }

  lemma TailMember(a: seq<Item>, x: Item)
    requires a != []
    ensures x in a <==> x == a[0] || x in a[1..]
  {
    assert a == [a[0]] + a[1..];
  }

  lemma SameFirst(a: seq<Item>, b: seq<Item>)
    requires Strict(a) && Strict(b) && a != [] && b != [] && a[0] in b && b[0] in a
    ensures a[0] == b[0]
  {
    StrictTail(a);
    StrictTail(b);
    TailMember(a, b[0]);
    TailMember(b, a[0]);
    if a[0] != b[0] {
      LessIsTransitive(a[0].key, b[0].key, a[0].key);
      LessIsStrict(a[0].key);
    }
  }

  /** The sorted array is a function of the map. */
  lemma MapDetermines(a: seq<Item>, b: seq<Item>)
    requires Strict(a) && Strict(b) && MapOf(a) == MapOf(b)
    ensures a == b
  {
    StrictIsDistinct(a);
    StrictIsDistinct(b);
    forall x ensures x in a <==> x in b {
      MapEntries(a, x);
      MapEntries(b, x);
    }
    SameMembers(a, b);
  }

  // ---------- g_array_sort ----------

  function Insert(x: Item, items: seq<Item>): seq<Item> {
    if items == [] || Less(x.key, items[0].key) then [x] + items else [items[0]] + Insert(x, items[1..])
  }

  function Sort(items: seq<Item>): seq<Item> {
    if items == [] then [] else Insert(items[|items| - 1], Sort(items[..|items| - 1]))
  }

  lemma {:induction false} InsertMembers(x: Item, items: seq<Item>, y: Item)
    ensures y in Insert(x, items) <==> y == x || y in items
  {
    if items != [] && !Less(x.key, items[0].key) {
      InsertMembers(x, items[1..], y);
      TailMember(items, y);
    }
  }

  lemma {:induction false} InsertStrict(x: Item, items: seq<Item>)
    requires Strict(items) && forall y :: y in items ==> y.key != x.key
    ensures Strict(Insert(x, items))
  {
    if items == [] {
    } else if Less(x.key, items[0].key) {
      forall j | 1 <= j < |items| ensures Less(x.key, items[j].key) {
        LessIsTransitive(x.key, items[0].key, items[j].key);
      }
    } else {
      InsertStrict(x, items[1..]);
      StrictTail(items);
      LessIsTotal(x.key, items[0].key);
      var rest := Insert(x, items[1..]);
      forall j | 0 <= j < |rest| ensures Less(items[0].key, rest[j].key) {
        InsertMembers(x, items[1..], rest[j]);
      }
    }
  }

  lemma {:induction false} SortMembers(items: seq<Item>, y: Item)
    ensures y in Sort(items) <==> y in items
  {
    if items != [] {
      var n := |items| - 1;
      SortMembers(items[..n], y);
      InsertMembers(items[n], Sort(items[..n]), y);
      assert items == items[..n] + [items[n]];
    }
  }

  lemma {:induction false} SortStrict(items: seq<Item>)
    requires Distinct(items)
    ensures Strict(Sort(items))
  {
    if items != [] {
      var n := |items| - 1;
      SortStrict(items[..n]);
      forall y | y in Sort(items[..n]) ensures y.key != items[n].key {
        SortMembers(items[..n], y);
      }
      InsertStrict(items[n], Sort(items[..n]));
    }
  }

  /** Sorting what has the members of a strictly sorted array gives that array. */
  lemma SortIs(items: seq<Item>, sorted: seq<Item>)
    requires Distinct(items) && Strict(sorted) && forall x :: x in items <==> x in sorted
    ensures Sort(items) == sorted
  {
    SortStrict(items);
    forall x ensures x in Sort(items) <==> x in sorted {
      SortMembers(items, x);
    }
    SameMembers(Sort(items), sorted);
  }

  // ---------- Setting a key ----------

  lemma ReplaceAt(items: seq<Item>, i: nat, value: string)
    requires i < |items| && Strict(items)
    ensures var r := items[i := Item(items[i].key, value)];
      Strict(r) && MapOf(r) == MapOf(items)[items[i].key := value]
  {
    var key := items[i].key;
    var r := items[i := Item(key, value)];
    assert forall j :: 0 <= j < |items| ==> r[j].key == items[j].key;
    StrictIsDistinct(items);
    StrictIsDistinct(r);
    var m := MapOf(items)[key := value];
    forall k, v ensures Item(k, v) in r <==> k in m && m[k] == v {
      MapEntries(items, Item(k, v));
      ReplacedMember(items, i, value, Item(k, v));
    }
    MapOfEntries(r, m);
  }

  lemma ReplacedMember(items: seq<Item>, i: nat, value: string, x: Item)
    requires i < |items| && Distinct(items)
    ensures x in items[i := Item(items[i].key, value)] <==>
            if x.key == items[i].key then x.value == value else x in items
  {
    var key := items[i].key;
    var r := items[i := Item(key, value)];
    assert r[i] == Item(key, value);
    if x in items {
      var j :| 0 <= j < |items| && items[j] == x;
      assert j != i ==> r[j] == x;
    }
    if x in r {
      var j :| 0 <= j < |r| && r[j] == x;
      assert j != i ==> items[j] == x;
    }
  }

  lemma AppendSort(items: seq<Item>, x: Item)
    requires Strict(items) && !HasKey(items, x.key)
    ensures Strict(Sort(items + [x])) && MapOf(Sort(items + [x])) == MapOf(items)[x.key := x.value]
  {
    var all := items + [x];
    StrictIsDistinct(items);
    SortStrict(all);
    StrictIsDistinct(Sort(all));
    var m := MapOf(items)[x.key := x.value];
    forall k, v ensures Item(k, v) in Sort(all) <==> k in m && m[k] == v {
      SortMembers(all, Item(k, v));
      MapEntries(items, Item(k, v));
      NewMember(items, x, Item(k, v));
    }
    MapOfEntries(Sort(all), m);
  }

  lemma NewMember(items: seq<Item>, x: Item, y: Item)
    requires !HasKey(items, x.key)
    ensures y in items + [x] <==> if y.key == x.key then y.value == x.value else y in items
  {
    assert y in items ==> HasKey(items, y.key);
  }

  /** A request to set a key, and what a run of them leaves. */
  function Entries(m: map<string, string>, sets: seq<Item>): map<string, string> {
    if sets == [] then m
    else
      Entered(Entries(m, sets[..|sets| - 1]), sets[|sets| - 1])
  }

  function Entered(m: map<string, string>, x: Item): map<string, string> {
    if x.key == "prefix" then m else m[x.key := x.value]
  }

  lemma EnteredBothWays(m: map<string, string>, x: Item, y: Item)
    requires x.key != y.key
    ensures Entered(Entered(m, x), y) == Entered(Entered(m, y), x)
  {
  }

  // ---------- The hash ----------

  /** g_str_hash: times 33 plus the signed byte, from 5381. */
  function StrHash(s: string): bv32 {
    if s == "" then 5381
    else
      var c := (s[|s| - 1] as int % 256) as bv32;
      var h := StrHash(s[..|s| - 1]);
      (h << 5) + h + (if c < 128 then c else c + 0xFFFF_FF00)
  }

  function HashItems(start: bv32, items: seq<Item>): bv32 {
    if items == [] then start else HashItems(start, items[..|items| - 1]) ^ StrHash(items[|items| - 1].value)
  }

  lemma HashMore(start: bv32, items: seq<Item>, i: nat)
    requires i < |items|
    ensures HashItems(start, items[..i + 1]) == HashItems(start, items[..i]) ^ StrHash(items[i].value)
  {
    assert items[..i + 1][..i] == items[..i];
  }

  // ---------- The string form ----------

  const ALLOWED := "$&'()*+"

  function Pair(x: Item): string {
    x.key + "=" + Escape(x.value, ALLOWED, true)
  }

  /** The printed pairs, without the type. */
  function Texts(items: seq<Item>): seq<string> {
    if items == [] then []
    else
      var n := |items| - 1;
      if items[n].key == "type" then Texts(items[..n]) else Texts(items[..n]) + [Pair(items[n])]
  }

  function Listed(items: seq<Item>): string {
    if items == [] then ""
    else
      var n := |items| - 1;
      if items[n].key == "type" then Listed(items[..n])
      else Listed(items[..n]) + (if Texts(items[..n]) == [] then "" else ",") + Pair(items[n])
  }

  function PrefixText(prefix: string): string {
    if prefix == "/" then "" else "," + Pair(Item("prefix", prefix))
  }

  function TypeText(items: seq<Item>): string {
    if Get(items, "type").None? then "" else Get(items, "type").value
  }

  /** g_mount_spec_to_string */
  function Printed(items: seq<Item>, prefix: string): string {
    TypeText(items) + ":" + (Listed(items) + PrefixText(prefix))
  }

  /** A parsed pair; the value is missing when its escapes are malformed. */
  datatype Raw = Raw(key: string, value: Option<string>)

  function ParsePair(piece: string): Option<Raw> {
    var tokens := SplitOn(piece, '=');
    if |tokens| != 2 then None else Some(Raw(tokens[0], Unescape(tokens[1], "")))
  }

  function ParsePairs(pieces: seq<string>): (r: Option<seq<Raw>>)
    ensures r.Some? ==> |r.value| == |pieces|
  {
    if pieces == [] then Some([])
    else
      var n := |pieces| - 1;
      var front, last := ParsePairs(pieces[..n]), ParsePair(pieces[n]);
      if front.None? || last.None? then None else Some(front.value + [last.value])
  }

  /** The pairs that become items. */
  function Kept(raws: seq<Raw>): seq<Raw> {
    if raws == [] then []
    else
      var n := |raws| - 1;
      if raws[n].key == "prefix" then Kept(raws[..n]) else Kept(raws[..n]) + [raws[n]]
  }

  /** The last "prefix" pair counts. */
  function LastPrefix(raws: seq<Raw>): Option<string> {
    if raws == [] then None
    else
      var n := |raws| - 1;
      if raws[n].key == "prefix" then raws[n].value else LastPrefix(raws[..n])
  }

  predicate HasNull(raws: seq<Raw>) {
    exists i :: 0 <= i < |raws| && raws[i].value.None?
  }

  function ItemsOf(raws: seq<Raw>): (items: seq<Item>)
    requires !HasNull(raws)
    ensures |items| == |raws| && forall i :: 0 <= i < |raws| ==> items[i] == Item(raws[i].key, raws[i].value.value)
  {
    seq(|raws|, i requires 0 <= i < |raws| => Item(raws[i].key, raws[i].value.value))
  }

  datatype Parsed = Spec(items: seq<Item>, prefix: string) | InvalidPair | NullValue

  function TypePart(str: string): seq<Raw> {
    var colon := IndexOf(str, ':');
    if colon == |str| then [] else [Raw("type", Some(str[..colon]))]
  }

  function PairPart(str: string): string {
    var colon := IndexOf(str, ':');
    if colon == |str| then str else str[colon + 1..]
  }

  function Assemble(first: seq<Raw>, raws: Option<seq<Raw>>): Parsed {
    if raws.None? then InvalidPair
    else
      var all := first + Kept(raws.value);
      var prefix := LastPrefix(raws.value);
      if HasNull(all) then NullValue
      else Spec(Sort(ItemsOf(all)), Canonical(if prefix.None? then "/" else prefix.value))
  }

  /** g_mount_spec_new_from_string */
  function Parse(str: string): Parsed {
    Assemble(TypePart(str), ParsePairs(SplitOn(PairPart(str), ',')))
  }

  // ---------- The string form read back ----------

  ghost predicate PlainKey(key: string) {
    '=' !in key && ',' !in key
  }

  /** What the string form can carry. */
  ghost predicate Printable(items: seq<Item>, prefix: string) {
    && HasKey(items, "type") && ':' !in TypeText(items)
    && (forall x :: x in items ==> PlainKey(x.key))
    && (prefix == "/" || exists x :: x in items && x.key != "type")
  }

  ghost predicate Readable(items: seq<Item>) {
    forall x :: x in items ==> IsText(x.value) && x.key != "prefix"
  }

  lemma PairParses(x: Item)
    requires IsText(x.value) && PlainKey(x.key)
    ensures ParsePair(Pair(x)) == Some(Raw(x.key, Some(x.value)))
    ensures ',' !in Pair(x)
  {
    var v := Escape(x.value, ALLOWED, true);
    EscapeHides(x.value, ALLOWED, true, '=');
    EscapeHides(x.value, ALLOWED, true, ',');
    UnescapeUndoesEscape(x.value, ALLOWED, true, "");
    PiecesFirst(x.key, '=', v);
    PiecesOne(v, '=');
    assert Pair(x) != "";
  }

  /** The items that are not the type, as they are parsed back. */
  function Others(items: seq<Item>): seq<Raw> {
    if items == [] then []
    else
      var n := |items| - 1;
      if items[n].key == "type" then Others(items[..n])
          else Others(items[..n]) + [Raw(items[n].key, Some(items[n].value))]
  }

  lemma {:induction false} TextsParse(items: seq<Item>)
    requires Readable(items) && forall x :: x in items ==> PlainKey(x.key)
    ensures ParsePairs(Texts(items)) == Some(Others(items))
  {
    if items != [] {
      var n := |items| - 1;
      TextsParse(items[..n]);
      if items[n].key != "type" {
        PairParses(items[n]);
        ParseMore(Texts(items[..n]), Pair(items[n]));
      }
    }
  }

  lemma ParseMore(pieces: seq<string>, piece: string)
    ensures var front, last := ParsePairs(pieces), ParsePair(piece);
      ParsePairs(pieces + [piece]) == if front.None? || last.None? then None else Some(front.value + [last.value])
  {
    assert (pieces + [piece])[..|pieces|] == pieces;
  }

  lemma {:induction false} ListedSplits(items: seq<Item>)
    requires Readable(items) && forall x :: x in items ==> PlainKey(x.key)
    ensures Texts(items) == [] ==> Listed(items) == ""
    ensures Texts(items) != [] ==> Pieces(Listed(items), ',') == Texts(items)
    ensures Texts(items) != [] ==> Listed(items) != ""
  {
    if items != [] {
      var n := |items| - 1;
      ListedSplits(items[..n]);
      if items[n].key != "type" {
        PairParses(items[n]);
        PiecesOne(Pair(items[n]), ',');
        if Texts(items[..n]) == [] {
          assert "" + "" + Pair(items[n]) == Pair(items[n]);
        } else {
          PiecesConcat(Listed(items[..n]), ',', Pair(items[n]));
        }
      }
    }
  }

  lemma {:induction false} OthersMembers(items: seq<Item>, r: Raw)
    ensures r in Others(items) <==> r.value.Some? && r.key != "type" && Item(r.key, r.value.value) in items
  {
    if items != [] {
      var n := |items| - 1;
      OthersMembers(items[..n], r);
      assert items == items[..n] + [items[n]];
    }
  }

  lemma {:induction false} OthersDistinct(items: seq<Item>)
    requires Distinct(items)
    ensures forall i, j :: 0 <= i < j < |Others(items)| ==> Others(items)[i].key != Others(items)[j].key
  {
    if items != [] {
      var n := |items| - 1;
      var front := Others(items[..n]);
      OthersDistinct(items[..n]);
      forall i | 0 <= i < |front| ensures front[i].key != items[n].key {
        OthersMembers(items[..n], front[i]);
      }
    }
  }

  lemma {:induction false} OthersKept(items: seq<Item>)
    requires Readable(items)
    ensures Kept(Others(items)) == Others(items) && LastPrefix(Others(items)) == None
  {
    if items != [] {
      var n := |items| - 1;
      OthersKept(items[..n]);
      var front := Others(items[..n]);
      if items[n].key != "type" {
        assert Others(items)[..|front|] == front;
      }
    }
  }

  lemma PrefixKept(raws: seq<Raw>, prefix: string)
    ensures var all := raws + [Raw("prefix", Some(prefix))];
      Kept(all) == Kept(raws) && LastPrefix(all) == Some(prefix)
  {
    assert (raws + [Raw("prefix", Some(prefix))])[..|raws|] == raws;
  }

  lemma {:induction false} TextsOrNone(items: seq<Item>)
    ensures Texts(items) == [] <==> forall x :: x in items ==> x.key == "type"
    ensures Texts(items) == [] <==> Others(items) == []
  {
    if items != [] {
      var n := |items| - 1;
      TextsOrNone(items[..n]);
      assert items == items[..n] + [items[n]];
    }
  }

  /** The printed form taken apart at the first colon. */
  lemma PrintedParts(items: seq<Item>, prefix: string)
    requires ':' !in TypeText(items)
    ensures TypePart(Printed(items, prefix)) == [Raw("type", Some(TypeText(items)))]
    ensures PairPart(Printed(items, prefix)) == Listed(items) + PrefixText(prefix)
  {
    var t, rest := TypeText(items), Listed(items) + PrefixText(prefix);
    IndexOfFirst(t, ':', rest);
    var str := t + ":" + rest;
    assert str[..|t|] == t && str[|t| + 1..] == rest;
  }

  /** The parsed pairs of the printed form. */
  lemma PrintedPairs(items: seq<Item>, prefix: string)
    requires Readable(items) && IsText(prefix) && Printable(items, prefix)
    ensures ParsePairs(SplitOn(Listed(items) + PrefixText(prefix), ',')) ==
            Some(Others(items) + if prefix == "/" then [] else [Raw("prefix", Some(prefix))])
  {
    ListedSplits(items);
    TextsParse(items);
    TextsOrNone(items);
    var l := Listed(items);
    if prefix == "/" {
      assert l + "" == l;
      assert Others(items) + [] == Others(items);
    } else {
      var x := Item("prefix", prefix);
      PairParses(x);
      PiecesConcat(l, ',', Pair(x));
      PiecesOne(Pair(x), ',');
      Associative(l, ",", Pair(x));
      ParseMore(Texts(items), Pair(x));
    }
  }

  /** The type and the others are the items. */
  lemma AllMembers(items: seq<Item>, raws: seq<Raw>)
    requires Distinct(items) && HasKey(items, "type") && raws == [Raw("type", Some(TypeText(items)))] + Others(items)
    ensures !HasNull(raws) && Distinct(ItemsOf(raws)) && forall x :: x in ItemsOf(raws) <==> x in items
  {
    forall i | 0 <= i < |raws| ensures raws[i].value.Some? && Item(raws[i].key, raws[i].value.value) in items {
      if i > 0 {
        OthersMembers(items, raws[i]);
      }
    }
    AllDistinct(items, raws);
    forall x | x in items ensures x in ItemsOf(raws) {
      MemberOfAll(items, raws, x);
    }
  }

  lemma AllDistinct(items: seq<Item>, raws: seq<Raw>)
    requires Distinct(items) && !HasNull(raws) && raws == [Raw("type", Some(TypeText(items)))] + Others(items)
    ensures Distinct(ItemsOf(raws))
  {
    var others := Others(items);
    OthersDistinct(items);
    forall i, j | 0 <= i < j < |raws| ensures raws[i].key != raws[j].key {
      assert raws[j] == others[j - 1];
      if i > 0 {
        assert raws[i] == others[i - 1];
      } else {
        OthersMembers(items, others[j - 1]);
      }
    }
  }

  lemma MemberOfAll(items: seq<Item>, raws: seq<Raw>, x: Item)
    requires Distinct(items) && x in items && !HasNull(raws)
    requires raws == [Raw("type", Some(TypeText(items)))] + Others(items)
    ensures x in ItemsOf(raws)
  {
    var r := Raw(x.key, Some(x.value));
    OthersMembers(items, r);
    if x.key == "type" {
      MapEntries(items, x);
      assert raws[0] == r;
    } else {
      assert r in Others(items) && r in raws;
    }
    assert r in raws;
    var i :| 0 <= i < |raws| && raws[i] == r;
    assert ItemsOf(raws)[i] == x;
  }

  lemma PrintedReadsBack(items: seq<Item>, prefix: string)
    requires Strict(items) && Readable(items) && IsText(prefix) && IsCanonical(prefix)
    requires Printable(items, prefix)
    ensures Parse(Printed(items, prefix)) == Spec(items, prefix)
  {
    StrictIsDistinct(items);
    PrintedParts(items, prefix);
    PrintedPairs(items, prefix);
    OthersKept(items);
    PrefixKept(Others(items), prefix);
    assert Others(items) + [] == Others(items);
    var all := [Raw("type", Some(TypeText(items)))] + Others(items);
    AllMembers(items, all);
    SortIs(ItemsOf(all), items);
  }

  // ---------- What the string form cannot carry ----------

  lemma PairKey(piece: string)
    requires ',' !in piece
    ensures ParsePair(piece).Some? ==> PlainKey(ParsePair(piece).value.key)
  {
    PiecesHaveNoSeparator(piece, '=');
    PiecesAreParts(piece, '=', ',');
  }

  lemma {:induction false} PairKeys(pieces: seq<string>)
    requires forall i :: 0 <= i < |pieces| ==> ',' !in pieces[i]
    ensures ParsePairs(pieces).Some? ==> forall r :: r in ParsePairs(pieces).value ==> PlainKey(r.key)
  {
    if pieces != [] {
      var n := |pieces| - 1;
      PairKeys(pieces[..n]);
      PairKey(pieces[n]);
    }
  }

  lemma {:induction false} KeptMembers(raws: seq<Raw>, r: Raw)
    ensures r in Kept(raws) <==> r in raws && r.key != "prefix"
  {
    if raws != [] {
      var n := |raws| - 1;
      KeptMembers(raws[..n], r);
      assert raws == raws[..n] + [raws[n]];
    }
  }

  lemma ParsedKeys(str: string, x: Item)
    requires Parse(str).Spec? && x in Parse(str).items
    ensures PlainKey(x.key)
  {
    var pieces := SplitOn(PairPart(str), ',');
    PiecesHaveNoSeparator(PairPart(str), ',');
    PairKeys(pieces);
    var raws := ParsePairs(pieces).value;
    var all := TypePart(str) + Kept(raws);
    SortMembers(ItemsOf(all), x);
    var i :| 0 <= i < |all| && ItemsOf(all)[i] == x;
    KeptMembers(raws, all[i]);
  }

  lemma ParsedType(str: string)
    requires Parse(str).Spec? && ':' in str
    ensures IndexOf(str, ':') < |str| && Item("type", str[..IndexOf(str, ':')]) in Parse(str).items
  {
    var colon := IndexOf(str, ':');
    NoneBefore(str, ':');
    var all := TypePart(str) + Kept(ParsePairs(SplitOn(PairPart(str), ',')).value);
    assert ItemsOf(all)[0] == Item("type", str[..colon]);
    SortMembers(ItemsOf(all), Item("type", str[..colon]));
  }

  lemma {:induction false} AllPairsParse(pieces: seq<string>, i: nat)
    requires i < |pieces| && ParsePairs(pieces).Some?
    ensures ParsePair(pieces[i]).Some?
  {
    var n := |pieces| - 1;
    if i < n {
      AllPairsParse(pieces[..n], i);
    }
  }

  lemma {:induction false} NothingListed(items: seq<Item>)
    requires Texts(items) == []
    ensures Listed(items) == ""
  {
    if items != [] {
      NothingListed(items[..|items| - 1]);
    }
  }

  lemma LonePrefix(items: seq<Item>, prefix: string)
    requires ':' !in TypeText(items) && prefix != "/" && Texts(items) == []
    ensures Parse(Printed(items, prefix)) == InvalidPair
  {
    PrintedParts(items, prefix);
    NothingListed(items);
    var rest := Pair(Item("prefix", prefix));
    PiecesFirst("", ',', rest);
    assert "" + "," + rest == "" + ("," + rest);
    assert ParsePair("").None?;
    if ParsePairs([""] + Pieces(rest, ',')).Some? {
      AllPairsParse([""] + Pieces(rest, ','), 0);
    }
  }

  lemma ReadBackIsPrintable(items: seq<Item>, prefix: string)
    requires Strict(items) && Parse(Printed(items, prefix)) == Spec(items, prefix)
    ensures Printable(items, prefix)
  {
    var str := Printed(items, prefix);
    assert str[|TypeText(items)|] == ':';
    ParsedType(str);
    NoneBefore(str, ':');
    StrictIsDistinct(items);
    var t := Item("type", str[..IndexOf(str, ':')]);
    MapEntries(items, t);
    assert TypeText(items) == t.value;
    forall x | x in items ensures PlainKey(x.key) {
      ParsedKeys(str, x);
    }
    TextsOrNone(items);
    if prefix != "/" && Texts(items) == [] {
      LonePrefix(items, prefix);
    }
  }

  /** Reading the string form back gives the spec again exactly when the form can carry it. */
  lemma StringRoundTrip(items: seq<Item>, prefix: string)
    requires Strict(items) && Readable(items) && IsText(prefix) && IsCanonical(prefix)
    ensures Parse(Printed(items, prefix)) == Spec(items, prefix) <==> Printable(items, prefix)
  {
    if Printable(items, prefix) {
      PrintedReadsBack(items, prefix);
    } else if Parse(Printed(items, prefix)) == Spec(items, prefix) {
      ReadBackIsPrintable(items, prefix);
    }
  }

  // ---------- The object ----------

  /** Equal keys and values, position by position. */
  method ItemsEqual(a: seq<Item>, b: seq<Item>) returns (equal: bool)
    ensures equal <==> a == b
    ensures Strict(a) && Strict(b) ==> (equal <==> MapOf(a) == MapOf(b))
  {
    equal := |a| == |b|;
    var i := 0;
    while equal && i < |a|
      invariant i <= |a| && (|a| == |b| ==> i <= |b|)
      invariant equal ==> |a| == |b| && a[..i] == b[..i]
      invariant !equal ==> a != b
    {
      equal := a[i].key == b[i].key && a[i].value == b[i].value;
      i := i + 1;
    }
    if equal {
      assert a[..|a|] == a && b[..|b|] == b;
    }
    if Strict(a) && Strict(b) && MapOf(a) == MapOf(b) {
      MapDetermines(a, b);
    }
  }

  datatype FromStringResult = Made(spec: MountSpec) | PairError | NullPointer

  /** g_mount_spec_new_from_data: whatever the order of the items. */
  method NewFromData(items: seq<Item>, prefix: Option<string>) returns (spec: MountSpec)
    requires prefix.Some? ==> NUL !in prefix.value
    ensures fresh(spec) && spec.isValid && spec.items == Sort(items)
    ensures spec.mountPrefix == Canonical(if prefix.None? then "/" else prefix.value) && NUL !in spec.mountPrefix
    ensures Distinct(items) && !HasKey(items, "prefix") ==> spec.Valid()
  {
    spec := new MountSpec(None);
    if prefix.Some? {
      spec.mountPrefix := Canonicalize(prefix.value);
    }
    spec.items := Sort(items);
    CanonicalIsIdempotent(if prefix.None? then "/" else prefix.value);
    if Distinct(items) && !HasKey(items, "prefix") {
      SortStrict(items);
      forall x | x in Sort(items) ensures x.key != "prefix" {
        SortMembers(items, x);
      }
      assert forall i :: 0 <= i < |Sort(items)| ==> Sort(items)[i] in Sort(items);
    }
  }

  class MountSpec {
    var items: seq<Item>
    var mountPrefix: string
    var isValid: bool

    /** Kept by every public operation. */
    ghost predicate Valid()
      reads this
    {
      Strict(items) && !HasKey(items, "prefix") && IsCanonical(mountPrefix) && NUL !in mountPrefix
    }

    constructor (kind: Option<string>)
      ensures Valid() && mountPrefix == "/"
      ensures kind.None? ==> items == [] && isValid
      ensures kind.Some? ==> items == [Item("type", kind.value)] && isValid == Utf8Valid(kind.value)
    {
      items := if kind.None? then [] else [Item("type", kind.value)];
      mountPrefix := "/";
      isValid := kind.None? || Utf8Valid(kind.value);
      new;
      CanonicalIsIdempotent("/");
      assert Split("") == [""] && [""][1..] == [] && "/"[1..] == "";
      assert !HasKey(items, "prefix");
    }

    method SetMountPrefix(prefix: string)
      requires Valid() && NUL !in prefix
      modifies this`mountPrefix
      ensures Valid() && mountPrefix == Canonical(prefix)
    {
      mountPrefix := Canonicalize(prefix);
      CanonicalIsIdempotent(prefix);
    }

    /** The key "prefix" sets the mount prefix; any other key gets the value in the map. */
    method Set(key: string, value: string)
      requires Valid() && (key == "prefix" ==> NUL !in value)
      modifies this
      ensures Valid()
      ensures key == "prefix" ==> items == old(items) && isValid == old(isValid) && mountPrefix == Canonical(value)
      ensures key != "prefix" ==>
        && MapOf(items) == old(MapOf(items))[key := value] && mountPrefix == old(mountPrefix)
        && isValid == (old(isValid) && Utf8Valid(value))
    {
      if key == "prefix" {
        SetMountPrefix(value);
        return;
      }
      if !Utf8Valid(value) {
        isValid := false;
      }
      var i := 0;
      while i < |items|
        invariant 0 <= i <= |items| && forall j :: 0 <= j < i ==> items[j].key != key
        invariant items == old(items) && mountPrefix == old(mountPrefix)
          && isValid == (old(isValid) && Utf8Valid(value))
      {
        if items[i].key == key {
          ReplaceAt(items, i, value);
          items := items[i := Item(key, value)];
          assert forall j :: 0 <= j < |items| ==> items[j].key == old(items)[j].key;
          return;
        }
        i := i + 1;
      }
      AppendSort(items, Item(key, value));
      AppendedKeys(items, Item(key, value));
      items := Sort(items + [Item(key, value)]);
    }

    /** A copy of at most `len` bytes of the value is set. */
    method SetWithLen(key: string, value: string, len: int)
      requires Valid() && len >= -1 && (key == "prefix" ==> NUL !in value)
      modifies this
      ensures Valid()
      ensures var copied := if 0 <= len < |value| then value[..len] else value;
        if key == "prefix" then items == old(items) && mountPrefix == Canonical(copied) && isValid == old(isValid)
        else
          && MapOf(items) == old(MapOf(items))[key := copied] && mountPrefix == old(mountPrefix)
          && isValid == (old(isValid) && Utf8Valid(copied))
    {
      Set(key, if 0 <= len < |value| then value[..len] else value);
    }

    method Copy() returns (copy: MountSpec)
      requires Valid()
      ensures fresh(copy) && copy.Valid() && copy.items == items && copy.mountPrefix == mountPrefix
      ensures copy.isValid == isValid
    {
      copy := new MountSpec(None);
      copy.SetMountPrefix(mountPrefix);
      var i := 0;
      while i < |items|
        invariant 0 <= i <= |items| && fresh(copy) && copy.Valid()
        invariant copy.items == items[..i] && copy.mountPrefix == mountPrefix
      {
        copy.CopyItem(items, i);
        i := i + 1;
      }
      assert items[..|items|] == items;
      copy.isValid := isValid;
    }

    method CopyItem(source: seq<Item>, i: nat)
      requires Valid() && Strict(source) && !HasKey(source, "prefix") && i < |source| && items == source[..i]
      modifies this
      ensures Valid() && items == source[..i + 1] && mountPrefix == old(mountPrefix)
    {
      assert source[i] in source && source[i].key != "prefix";
      Set(source[i].key, source[i].value);
      PrefixExtended(source, i, items);
    }

    method Lookup(key: string) returns (value: Option<string>)
      requires Valid()
      ensures value == if key in MapOf(items) then Some(MapOf(items)[key]) else None
    {
      var i := 0;
      while i < |items|
        invariant 0 <= i <= |items| && forall j :: 0 <= j < i ==> items[j].key != key
      {
        if items[i].key == key {
          StrictIsDistinct(items);
          MapEntries(items, items[i]);
          return Some(items[i].value);
        }
        i := i + 1;
      }
      return None;
    }

    method Equal(other: MountSpec) returns (equal: bool)
      requires Valid() && other.Valid()
      ensures equal <==> MapOf(items) == MapOf(other.items) && mountPrefix == other.mountPrefix
    {
      equal := ItemsEqual(items, other.items);
      equal := equal && mountPrefix == other.mountPrefix;
    }

    method Match(spec: MountSpec, path: string) returns (matches: bool)
      requires Valid() && spec.Valid()
      ensures matches <==> MapOf(items) == MapOf(spec.items) && PathPrefixes.PathHasPrefix(path, Some(mountPrefix))
    {
      matches := ItemsEqual(items, spec.items);
      matches := matches && PathPrefixes.PathHasPrefix(path, Some(mountPrefix));
    }

    method Hash() returns (hash: bv32)
      ensures hash == HashItems(StrHash(mountPrefix), items)
    {
      hash := StrHash(mountPrefix);
      var i := 0;
      while i < |items|
        invariant 0 <= i <= |items| && hash == HashItems(StrHash(mountPrefix), items[..i])
      {
        HashMore(StrHash(mountPrefix), items, i);
        hash := hash ^ StrHash(items[i].value);
        i := i + 1;
      }
      assert items[..|items|] == items;
    }

    method ToString() returns (str: string)
      ensures str == Printed(items, mountPrefix)
    {
      str := TypeText(items) + ":";
      var first := true;
      var i := 0;
      while i < |items|
        invariant 0 <= i <= |items| && str == TypeText(items) + ":" + Listed(items[..i])
        invariant first <==> Texts(items[..i]) == []
      {
        ghost var before := str;
        assert items[..i + 1][..i] == items[..i];
        if items[i].key != "type" {
          if !first {
            str := str + ",";
          }
          first := false;
          str := str + Pair(items[i]);
          Appended(TypeText(items) + ":", Listed(items[..i]), if Texts(items[..i]) == [] then ""
                   else ",", Pair(items[i]));
        }
        i := i + 1;
      }
      assert items[..|items|] == items;
      Associative(TypeText(items) + ":", Listed(items), PrefixText(mountPrefix));
      if mountPrefix != "/" {
        str := str + ("," + Pair(Item("prefix", mountPrefix)));
      }
    }
  }

  lemma Appended(a: string, b: string, c: string, d: string)
    ensures a + b + c + d == a + (b + c + d)
    ensures c == "" ==> a + b + d == a + (b + c + d)
  {
  }

  lemma AppendedKeys(items: seq<Item>, x: Item)
    requires !HasKey(items, "prefix") && x.key != "prefix"
    ensures !HasKey(Sort(items + [x]), "prefix")
  {
    var all := Sort(items + [x]);
    forall i | 0 <= i < |all| ensures all[i].key != "prefix" {
      SortMembers(items + [x], all[i]);
    }
  }

  lemma MapExtended(items: seq<Item>, x: Item)
    requires Distinct(items) && !HasKey(items, x.key)
    ensures MapOf(items + [x]) == MapOf(items)[x.key := x.value]
  {
    var m := MapOf(items)[x.key := x.value];
    forall k, v ensures Item(k, v) in items + [x] <==> k in m && m[k] == v {
      MapEntries(items, Item(k, v));
      NewMember(items, x, Item(k, v));
    }
    MapOfEntries(items + [x], m);
  }

  /** Setting the next item of a sorted array on a copy of the items before it. */
  lemma PrefixExtended(items: seq<Item>, i: nat, r: seq<Item>)
    requires Strict(items) && i < |items| && Strict(r)
    requires MapOf(r) == MapOf(items[..i])[items[i].key := items[i].value]
    ensures r == items[..i + 1]
  {
    var a, x := items[..i], items[i];
    StrictIsDistinct(items);
    MapExtended(a, x);
    assert items[..i + 1] == a + [x];
    MapDetermines(r, items[..i + 1]);
  }

  // ---------- Reading the string form ----------

  lemma {:induction false} UnescapedNoNul(s: string)
    requires NUL !in s
    ensures Unescape(s, "").Some? ==> NUL !in Unescape(s, "").value
    decreases |s|
  {
    if s != "" {
      if s[0] != '%' {
        UnescapedNoNul(s[1..]);
      } else if |s| >= 3 {
        UnescapedNoNul(s[3..]);
      }
    }
  }

  lemma PairNoNul(piece: string)
    requires NUL !in piece
    ensures ParsePair(piece).Some? && ParsePair(piece).value.value.Some? ==> NUL !in ParsePair(piece).value.value.value
  {
    PiecesAreParts(piece, '=', NUL);
    var tokens := SplitOn(piece, '=');
    if |tokens| == 2 {
      UnescapedNoNul(tokens[1]);
    }
  }

  lemma {:induction false} ParsePrefix(pieces: seq<string>, i: nat)
    requires i <= |pieces| && ParsePairs(pieces[..i]).None?
    ensures ParsePairs(pieces).None?
    decreases |pieces|
  {
    if i < |pieces| {
      var n := |pieces| - 1;
      assert pieces[..n][..i] == pieces[..i];
      ParsePrefix(pieces[..n], i);
    } else {
      assert pieces[..i] == pieces;
    }
  }

  /** The loop over the pairs; `first` holds the type, if there was one. */
  method ReadPairs(first: seq<Raw>, pairs: seq<string>) returns (ok: bool, items: seq<Raw>, prefix: Option<string>)
    requires forall i :: 0 <= i < |pairs| ==> NUL !in pairs[i]
    ensures ok <==> ParsePairs(pairs).Some?
    ensures ok ==> items == first + Kept(ParsePairs(pairs).value) && prefix == LastPrefix(ParsePairs(pairs).value)
    ensures prefix.Some? ==> NUL !in prefix.value
  {
    items, prefix := first, None;
    ghost var raws: seq<Raw> := [];
    var i := 0;
    while i < |pairs|
      invariant 0 <= i <= |pairs| && ParsePairs(pairs[..i]) == Some(raws)
      invariant items == first + Kept(raws) && prefix == LastPrefix(raws)
      invariant prefix.Some? ==> NUL !in prefix.value
    {
      var pair := ParsePair(pairs[i]);
      assert pairs[..i + 1] == pairs[..i] + [pairs[i]];
      ParseMore(pairs[..i], pairs[i]);
      PairNoNul(pairs[i]);
      if pair.None? {
        ParsePrefix(pairs, i + 1);
        return false, items, prefix;
      }
      items, prefix, raws := ReadPair(first, raws, items, prefix, pair.value);
      i := i + 1;
    }
    assert pairs[..|pairs|] == pairs;
    ok := true;
  }

  method ReadPair(ghost first: seq<Raw>, ghost raws: seq<Raw>, items: seq<Raw>, prefix: Option<string>, pair: Raw)
    returns (items': seq<Raw>, prefix': Option<string>, ghost raws': seq<Raw>)
    requires items == first + Kept(raws) && prefix == LastPrefix(raws)
    ensures raws' == raws + [pair] && items' == first + Kept(raws') && prefix' == LastPrefix(raws')
    ensures prefix' == prefix || prefix' == pair.value
  {
    items', prefix', raws' := items, prefix, raws + [pair];
    assert raws'[..|raws|] == raws;
    if pair.key == "prefix" {
      prefix' := pair.value;
    } else {
      items' := items + [pair];
    }
  }

  method FromString(text: string) returns (r: FromStringResult)
    requires NUL !in text
    ensures Parse(text).Spec? ==>
      && r.Made? && fresh(r.spec) && r.spec.isValid
      && r.spec.items == Parse(text).items && r.spec.mountPrefix == Parse(text).prefix && NUL !in r.spec.mountPrefix
    ensures Parse(text) == InvalidPair <==> r == PairError
    ensures Parse(text) == NullValue <==> r == NullPointer
  {
    var first, str := SplitType(text);
    var pairs := SplitOn(str, ',');
    PiecesAreParts(str, ',', NUL);
    r := FromPairs(first, pairs);
  }

  /** Cuts the type off at the first colon. */
  method SplitType(text: string) returns (first: seq<Raw>, str: string)
    requires NUL !in text
    ensures first == TypePart(text) && str == PairPart(text) && NUL !in str
  {
    first, str := [], text;
    var colon := IndexOf(str, ':');
    if colon < |str| {
      first := [Raw("type", Some(str[..colon]))];
      str := str[colon + 1..];
    }
  }

  method FromPairs(first: seq<Raw>, pairs: seq<string>) returns (r: FromStringResult)
    requires forall i :: 0 <= i < |pairs| ==> NUL !in pairs[i]
    ensures var parsed := Assemble(first, ParsePairs(pairs));
      && (parsed.Spec? ==>
            && r.Made? && fresh(r.spec) && r.spec.isValid
            && r.spec.items == parsed.items && r.spec.mountPrefix == parsed.prefix && NUL !in r.spec.mountPrefix)
      && (parsed == InvalidPair <==> r == PairError)
      && (parsed == NullValue <==> r == NullPointer)
  {
    var ok, items, prefix := ReadPairs(first, pairs);
    if !ok {
      return PairError;
    }
    if exists j :: 0 <= j < |items| && items[j].value.None? {
      return NullPointer;
    }
    var spec := NewFromData(ItemsOf(items), prefix);
    return Made(spec);
  }

  /** A spec sent through its string form: an equal spec comes out exactly when the form
      can carry it. */
  method ThroughString(spec: MountSpec) returns (r: FromStringResult)
    requires spec.Valid() && Readable(spec.items) && IsText(spec.mountPrefix)
      && NUL !in Printed(spec.items, spec.mountPrefix)
    ensures Printable(spec.items, spec.mountPrefix) <==>
            r.Made? && r.spec.items == spec.items && r.spec.mountPrefix == spec.mountPrefix
  {
    var str := spec.ToString();
    r := FromString(str);
    StringRoundTrip(spec.items, spec.mountPrefix);
  }

  // ---------- Runs ----------

  /** Equal specs hash equally. */
  method EqualHashes(a: MountSpec, b: MountSpec) returns (equal: bool, hashA: bv32, hashB: bv32)
    requires a.Valid() && b.Valid()
    ensures equal <==> MapOf(a.items) == MapOf(b.items) && a.mountPrefix == b.mountPrefix
    ensures equal ==> hashA == hashB
  {
    equal := a.Equal(b);
    hashA := a.Hash();
    hashB := b.Hash();
    if equal {
      MapDetermines(a.items, b.items);
    }
  }

  /** The map left by any run of sets, whatever their order and repetitions. */
  method Build(kind: Option<string>, sets: seq<Item>) returns (spec: MountSpec)
    requires forall x :: x in sets ==> NUL !in x.value
    ensures fresh(spec) && spec.Valid()
    ensures MapOf(spec.items) == Entries(if kind.None? then map[] else map["type" := kind.value], sets)
  {
    spec := new MountSpec(kind);
    ghost var m: map<string, string> := if kind.None? then map[] else map["type" := kind.value];
    StrictIsDistinct(spec.items);
    MapOfEntries(spec.items, m);
    var i := 0;
    while i < |sets|
      invariant 0 <= i <= |sets| && fresh(spec) && spec.Valid() && MapOf(spec.items) == Entries(m, sets[..i])
    {
      assert sets[i] in sets && sets[..i + 1][..i] == sets[..i];
      spec.Set(sets[i].key, sets[i].value);
      i := i + 1;
    }
    assert sets[..|sets|] == sets;
  }

  /** Two keys may be set in either order. */
  method SetBothWays(a: MountSpec, b: MountSpec, x: Item, y: Item)
    requires a != b && a.Valid() && b.Valid() && a.items == b.items && a.mountPrefix == b.mountPrefix
      && a.isValid == b.isValid
    requires x.key != y.key && NUL !in x.value && NUL !in y.value
    modifies a, b
    ensures a.Valid() && b.Valid()
    ensures a.items == b.items && a.mountPrefix == b.mountPrefix && a.isValid == b.isValid
  {
    ghost var m := MapOf(a.items);
    a.Set(x.key, x.value);
    a.Set(y.key, y.value);
    b.Set(y.key, y.value);
    b.Set(x.key, x.value);
    assert MapOf(a.items) == Entered(Entered(m, x), y);
    assert MapOf(b.items) == Entered(Entered(m, y), x);
    EnteredBothWays(m, x, y);
    MapDetermines(a.items, b.items);
  }
}
