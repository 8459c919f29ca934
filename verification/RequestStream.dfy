/** The stream of requests on the wire: what the client has sent, and what the daemon's
    reader makes of it. */
module RequestStream {
  import opened Sequences
  import opened Wire

  /** The bytes sent are the begun requests, numbered from 1, short of the unsent tail of
      the last one. */
  ghost predicate SentInOrder(history: seq<Request>, sent: seq<Byte>, unsent: seq<Byte>) {
    && (forall i :: 0 <= i < |history| ==> history[i].id == i + 1 && |history[i].data| < TWO_32)
    && sent + unsent == EncodeRequests(history)
    && (unsent != [] ==> history != [] && |unsent| <= |history[|history| - 1].Encoded()|)
  }

  lemma BeginInOrder(history: seq<Request>, sent: seq<Byte>, q: Request)
    requires SentInOrder(history, sent, []) && q.id == |history| + 1 && |q.data| < TWO_32
    ensures SentInOrder(history + [q], sent, q.Encoded())
  {
    assert (history + [q])[..|history|] == history;
    assert sent + [] == sent;
  }

  lemma WithdrawInOrder(history: seq<Request>, sent: seq<Byte>, unsent: seq<Byte>)
    requires SentInOrder(history, sent, unsent) && history != [] && unsent == history[|history| - 1].Encoded()
    ensures SentInOrder(history[..|history| - 1], sent, [])
  {
    var hs := history[..|history| - 1];
    assert sent == (sent + unsent)[..|sent|];
    assert EncodeRequests(hs) == (EncodeRequests(hs) + unsent)[..|EncodeRequests(hs)|];
    assert sent + [] == sent;
  }

  lemma SendInOrder(history: seq<Request>, sent: seq<Byte>, unsent: seq<Byte>, n: nat)
    requires SentInOrder(history, sent, unsent) && n <= |unsent|
    ensures SentInOrder(history, sent + unsent[..n], unsent[n..])
  {
    assert (sent + unsent[..n]) + unsent[n..] == sent + unsent;
  }

  // ---------- The daemon's reader ----------

  /** The requests the daemon's reader finds in the bytes it receives: twenty bytes of header,
      then as many bytes of data as it announces. `id` is the number on the wire. */
  ghost function ParseRequests(s: seq<Byte>): seq<Request> {
    if |s| < REQUEST_SIZE || |s| < REQUEST_SIZE + Word(s, 4) then []
    else
      var size := REQUEST_SIZE + Word(s, 4);
      [Request(Word(s, 0), Word(s, 1), Word(s, 2), Word(s, 3), s[REQUEST_SIZE..size])] + ParseRequests(s[size..])
  }

  ghost function OnWire(rs: seq<Request>): seq<Request> {
    if rs == [] then [] else [rs[0].(id := rs[0].id % TWO_32)] + OnWire(rs[1..])
  }

  lemma {:induction false} EncodeRequestsCons(r: Request, rs: seq<Request>)
    ensures EncodeRequests([r] + rs) == r.Encoded() + EncodeRequests(rs)
  {
    if rs == [] {
      assert [r] + rs == [r] && [r][..0] == [];
    } else {
      var n := |rs| - 1;
      EncodeRequestsCons(r, rs[..n]);
      EncodeLast([r] + rs, [r] + rs[..n], rs[n]);
      Associative(r.Encoded(), EncodeRequests(rs[..n]), rs[n].Encoded());
    }
  }

  lemma EncodeLast(all: seq<Request>, front: seq<Request>, r: Request)
    requires all == front + [r]
    ensures EncodeRequests(all) == EncodeRequests(front) + r.Encoded()
  {
    assert all[..|all| - 1] == front;
  }

  lemma RequestWords(r: Request, tail: seq<Byte>)
    ensures var s := r.Header() + tail;
            Word(s, 0) == r.command && Word(s, 1) == r.id % TWO_32 && Word(s, 2) == r.arg1 &&
            Word(s, 3) == r.arg2 && Word(s, 4) == |r.data| % TWO_32
  {
    var s := r.Header() + tail;
    var a, b, c, d, e := PutWord(r.command), PutWord(r.id % TWO_32), PutWord(r.arg1), PutWord(r.arg2),
        PutWord(|r.data| % TWO_32);
    assert s == (a + (b + (c + (d + e)))) + tail == a + (b + (c + (d + (e + tail))));
    FourWords(s, a, b, c, d + e, tail);
    assert (d + e) + tail == d + (e + tail);
    assert s == (((a + b) + c) + d) + (e + tail);
    WordAt(s, 0, r.command, [], b + (c + (d + (e + tail))));
    WordAt(s, 1, r.id % TWO_32, a, c + (d + (e + tail)));
    WordAt(s, 2, r.arg1, a + b, d + (e + tail));
    WordAt(s, 3, r.arg2, (a + b) + c, e + tail);
    WordAt(s, 4, |r.data| % TWO_32, ((a + b) + c) + d, tail);
  }

  lemma Middle(h: seq<Byte>, d: seq<Byte>, t: seq<Byte>)
    ensures var s := h + (d + t); s[|h|..|h| + |d|] == d && s[|h| + |d|..] == t
  {
  }

  lemma ParseStep(h: seq<Byte>, d: seq<Byte>, t: seq<Byte>)
    requires |h| == REQUEST_SIZE && Word(h + (d + t), 4) == |d|
    ensures var s := h + (d + t);
      ParseRequests(s) == [Request(Word(s, 0), Word(s, 1), Word(s, 2), Word(s, 3), d)] + ParseRequests(t)
  {
    Middle(h, d, t);
  }

  lemma ParseOne(r: Request, tail: seq<Byte>)
    requires |r.data| < TWO_32
    ensures ParseRequests(r.Header() + (r.data + tail)) == [r.(id := r.id % TWO_32)] + ParseRequests(tail)
  {
    RequestWords(r, r.data + tail);
    ParseStep(r.Header(), r.data, tail);
  }

  /** What is encoded is what the daemon's reader finds. */
  lemma {:induction false} ParseEncoded(rs: seq<Request>)
    requires forall i :: 0 <= i < |rs| ==> |rs[i].data| < TWO_32
    ensures ParseRequests(EncodeRequests(rs)) == OnWire(rs)
  {
    if rs != [] {
      EncodeRequestsCons(rs[0], rs[1..]);
      assert [rs[0]] + rs[1..] == rs;
      Associative(rs[0].Header(), rs[0].data, EncodeRequests(rs[1..]));
      ParseOne(rs[0], EncodeRequests(rs[1..]));
      ParseEncoded(rs[1..]);
    }
  }

  lemma {:induction false} OnWireAt(rs: seq<Request>, i: nat)
    requires i < |rs|
    ensures |OnWire(rs)| == |rs| && OnWire(rs)[i] == rs[i].(id := rs[i].id % TWO_32)
  {
    if |rs| == 1 {
      assert OnWire(rs[1..]) == [];
    } else {
      OnWireAt(rs[1..], if i == 0 then 0 else i - 1);
    }
  }

  /** Request-stream integrity. */
  lemma RequestsAreWhole(history: seq<Request>, sent: seq<Byte>, i: nat)
    requires SentInOrder(history, sent, []) && i < |history|
    ensures |ParseRequests(sent)| == |history|
    ensures ParseRequests(sent)[i] == history[i].(id := (i + 1) % TWO_32)
  {
    assert sent + [] == sent;
    ParseEncoded(history);
    OnWireAt(history, i);
  }

  /** All of them. */
  ghost predicate AllOnWire(history: seq<Request>, sent: seq<Byte>) {
    && |ParseRequests(sent)| == |history|
    && forall i :: 0 <= i < |history| ==> ParseRequests(sent)[i] == history[i].(id := (i + 1) % TWO_32)
  }

  lemma AllRequestsAreWhole(history: seq<Request>, sent: seq<Byte>)
    requires SentInOrder(history, sent, [])
    ensures AllOnWire(history, sent)
  {
    forall i | 0 <= i < |history|
      ensures |ParseRequests(sent)| == |history| && ParseRequests(sent)[i] == history[i].(id := (i + 1) % TWO_32)
    {
      RequestsAreWhole(history, sent, i);
    }
    if history == [] {
      assert sent + [] == [];
    } else {
      RequestsAreWhole(history, sent, 0);
    }
  }

  // ---------- The requests of an operation ----------

  /** The requests begun between two histories. */
  ghost function Added(a: seq<Request>, b: seq<Request>): seq<Request> {
    if a <= b then b[|a|..] else []
  }

  /** An operation begins no request, its own, or its own and then a CANCEL that names it by its
      number on the wire. */
  ghost predicate Asked(requests: seq<Request>, q: Request) {
    && |requests| <= 2 && (|requests| > 0 ==> requests[0] == q)
    && (|requests| > 1 ==> requests[1] == Request(CANCEL, q.id + 1, q.id % TWO_32, 0, []))
  }

  /** Between two histories there are the requests of one operation; a CANCEL needs a cancellable.
      Sealed: the verifier looks inside only where `Mark` is mentioned. */
  ghost predicate Requested(a: seq<Request>, b: seq<Request>, q: Request, cancellable: bool) {
    forall k: nat {:trigger Mark(q, k)} :: Mark(q, k) ==>
      a <= b && Asked(Added(a, b), q) && (|Added(a, b)| == 2 ==> cancellable)
  }

  lemma OpenRequested(a: seq<Request>, b: seq<Request>, q: Request, cancellable: bool)
    requires Requested(a, b, q, cancellable)
    ensures a <= b && Asked(Added(a, b), q) && (|Added(a, b)| == 2 ==> cancellable)
  {
    assert Mark(q, 0);
  }

  lemma NoneRequested(a: seq<Request>, q: Request, cancellable: bool)
    ensures Requested(a, a, q, cancellable)
  {
  }

  /** Its own request and perhaps the CANCEL. */
  function Requests(q: Request, cancelled: bool): seq<Request> {
    [q] + if cancelled then [Request(CANCEL, q.id + 1, q.id % TWO_32, 0, [])] else []
  }

  lemma RequestsAdded(a: seq<Request>, q: Request, cancelled: bool)
    ensures a <= a + Requests(q, cancelled) && Added(a, a + Requests(q, cancelled)) == Requests(q, cancelled)
    ensures Added(a, a) == []
    ensures Asked(Requests(q, cancelled), q) && |Requests(q, cancelled)| == if cancelled then 2 else 1
  {
  }

  lemma CancelAdded(a: seq<Request>, q: Request)
    ensures (a + Requests(q, false)) + [Request(CANCEL, q.id + 1, q.id % TWO_32, 0, [])] == a + Requests(q, true)
  {
  }

  lemma AddedOn(a: seq<Request>, b: seq<Request>, c: seq<Request>)
    requires a <= b <= c
    ensures a <= c && Added(a, c) == Added(a, b) + Added(b, c)
  {
  }

  lemma AddedBack(a: seq<Request>, b: seq<Request>)
    requires a <= b
    ensures a + Added(a, b) == b
  {
  }
}
