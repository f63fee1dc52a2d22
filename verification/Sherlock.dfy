/** The ordering checker of test_scripts/sherlock.py: the partial order it reads off a
    client's event log, and its verdict on an audit log. */
module Sherlock {
  import opened Options

  /** Lines of the client's log. `Other` stands for the SEND_* and RECEIVED lines. */
  datatype Event = Load | Unload | Sleep | Connect(rid: int) | Wait(rid: int) | Other(rid: int)

  /** `requests[b]` holds the requests that had finished when `b` connected. */
  datatype Order = Order(requests: map<int, set<int>>, finished: set<int>)

  /** SLEEP lines are read as events of request 0. */
  function Rid(e: Event): int {
    match e
    case Load => 0
    case Unload => 0
    case Sleep => 0
    case Connect(r) => r
    case Wait(r) => r
    case Other(r) => r
  }

  /** One turn of the loop; None is the failed assertion on a first event that is no CONNECT. */
  function Note(o: Order, e: Event): Option<Order> {
    if e.Load? || e.Unload? then Some(o)
    else if Rid(e) !in o.requests then
      if e.Connect? then Some(o.(requests := o.requests[e.rid := o.finished])) else None
    else if e.Wait? then Some(o.(finished := o.finished + {e.rid}))
    else Some(o)
  }

  /** The order recorded after the whole log. */
  function Recorded(es: seq<Event>): Option<Order> {
    if es == [] then Some(Order(map[], {}))
    else
      match Recorded(es[..|es| - 1])
      case None => None
      case Some(o) => Note(o, es[|es| - 1])
  }

  lemma {:induction false} RecordedFailureStays(es: seq<Event>, k: nat)
    requires k <= |es| && Recorded(es[..k]).None?
    ensures Recorded(es).None?
    decreases |es| - k
  {
    if k == |es| {
      assert es[..k] == es;
    } else {
      assert es[..k + 1][..k] == es[..k];
      RecordedFailureStays(es, k + 1);
    }
  }

  method PartiallyOrder(events: seq<Event>) returns (r: Option<Order>)
    ensures r == Recorded(events)
  {
    var o := Order(map[], {});
    for k := 0 to |events|
      invariant Recorded(events[..k]) == Some(o)
    {
      assert events[..k + 1][..k] == events[..k];
      var next := Note(o, events[k]);
      if next.None? {
        RecordedFailureStays(events, k + 1);
        return None;
      }
      o := next.value;
    }
    assert events[..|events|] == events;
    return Some(o);
  }

  /** Every predecessor of a line stands on an earlier line. */
  ghost predicate Respects(rids: seq<int>, requests: map<int, set<int>>)
    requires forall i :: 0 <= i < |rids| ==> rids[i] in requests
  {
    forall i, a :: 0 <= i < |rids| && a in requests[rids[i]] ==> a in rids[..i]
  }

  /** The verdict on an audit log, given the request ids of its lines. None is the key
      error for a request the client never made. */
  method ValidateOrder(rids: seq<int>, requests: map<int, set<int>>) returns (status: Option<int>)
    ensures status.None? <==> exists i :: 0 <= i < |rids| && rids[i] !in requests
    ensures status.Some? ==> status.value == (if Respects(rids, requests) then 0 else 1)
  {
    var verdict, happened := 0, {};
    for k := 0 to |rids|
      invariant happened == set a | a in rids[..k]
      invariant forall i :: 0 <= i < k ==> rids[i] in requests
      invariant verdict == 0 || verdict == 1
      invariant verdict == 0 <==> Respects(rids[..k], requests)
    {
      if rids[k] !in requests {
        return None;
      }
      var expected := requests[rids[k]];
      RespectsExtends(rids, k, requests);
      if !(expected <= happened) {
        verdict := 1;
      }
      happened := happened + {rids[k]};
    }
    assert rids[..|rids|] == rids;
    return Some(verdict);
  }

  /** One more line keeps the order exactly when its predecessors all came before. */
  lemma RespectsExtends(rids: seq<int>, k: nat, requests: map<int, set<int>>)
    requires k < |rids| && forall i :: 0 <= i <= k ==> rids[i] in requests
    ensures Respects(rids[..k + 1], requests)
            <==> Respects(rids[..k], requests) && requests[rids[k]] <= set a | a in rids[..k]
  {
    var whole, part := rids[..k + 1], rids[..k];
    assert forall i :: 0 <= i <= k ==> whole[..i] == rids[..i];
    assert forall i :: 0 <= i <= k ==> part[..i] == rids[..i];
    if Respects(whole, requests) {
      forall a | a in requests[rids[k]] ensures a in rids[..k] {
        assert whole[k] == rids[k];
      }
      forall i, a | 0 <= i < k && a in requests[part[i]] ensures a in part[..i] {
        assert whole[i] == part[i];
      }
    }
  }

  /** Every event of a request has a CONNECT of that request at or before it; a SLEEP counts as
      an event of request 0. */
  ghost predicate Introduced(es: seq<Event>) {
    forall j :: 0 <= j < |es| && !es[j].Load? && !es[j].Unload? ==>
      Connect(if es[j].Sleep? then 0 else es[j].rid) in es[..j + 1]
  }

  lemma IntroducedStep(p: seq<Event>, e: Event)
    ensures Introduced(p + [e]) <==> Introduced(p) && (e.Load? || e.Unload? || Connect(Rid(e)) in p + [e])
  {
    var es := p + [e];
    assert forall j :: 0 <= j < |p| ==> es[j] == p[j] && es[..j + 1] == p[..j + 1];
    assert es[..|p| + 1] == es && es[|p|] == e;
    if Introduced(es) {
      forall j | 0 <= j < |p| && !p[j].Load? && !p[j].Unload? ensures Connect(Rid(p[j])) in p[..j + 1] {
        assert es[j] == p[j];
      }
    }
  }

  ghost predicate Known(es: seq<Event>, o: Order) {
    forall b :: b in o.requests <==> Connect(b) in es
  }

  lemma NoteExact(p: seq<Event>, e: Event, o: Order)
    requires Known(p, o)
    ensures Note(o, e).Some? <==> e.Load? || e.Unload? || Connect(Rid(e)) in p + [e]
    ensures Note(o, e).Some? ==> Known(p + [e], Note(o, e).value)
  {
    assert e.Connect? ==> e == Connect(Rid(e));
    assert forall x :: x in p + [e] <==> x in p || x == e;
  }

  /** The assertion of partially_order holds exactly for such logs, and the requests recorded
      are those that connected. */
  lemma {:induction false} RecordedExact(es: seq<Event>)
    ensures Recorded(es).Some? <==> Introduced(es)
    ensures Recorded(es).Some? ==> Known(es, Recorded(es).value)
  {
    if es != [] {
      var p, e := es[..|es| - 1], es[|es| - 1];
      assert es == p + [e];
      RecordedExact(p);
      IntroducedStep(p, e);
      if Recorded(p).Some? {
        NoteExact(p, e, Recorded(p).value);
      }
    }
  }

  /** Line `j` is the first CONNECT of request `b`. */
  ghost predicate FirstConnect(es: seq<Event>, b: int, j: int) {
    0 <= j < |es| && es[j] == Connect(b) && Connect(b) !in es[..j]
  }

  /** The recorded sets: the requests waited for so far, and for each request those waited for
      before its first CONNECT. */
  ghost predicate Exact(es: seq<Event>, o: Order) {
    && Known(es, o)
    && (forall a :: a in o.finished <==> Wait(a) in es)
    && (forall a, b, j :: FirstConnect(es, b, j) && b in o.requests ==> (a in o.requests[b] <==> Wait(a) in es[..j]))
  }

  lemma FirstConnectStep(p: seq<Event>, e: Event, b: int, j: int)
    requires FirstConnect(p + [e], b, j)
    ensures (p + [e])[..j] == p[..j]
    ensures if j < |p| then FirstConnect(p, b, j) else j == |p| && e == Connect(b) && Connect(b) !in p
  {
    assert (p + [e])[..j] == p[..j];
    assert p[..|p|] == p;
  }

  lemma NoteKeepsExact(p: seq<Event>, e: Event, o: Order)
    requires Exact(p, o) && Note(o, e).Some?
    ensures Exact(p + [e], Note(o, e).value)
  {
    var es, n := p + [e], Note(o, e).value;
    NoteExact(p, e, o);
    assert forall x :: x in es <==> x in p || x == e;
    forall a, b, j | FirstConnect(es, b, j) && b in n.requests ensures a in n.requests[b] <==> Wait(a) in es[..j] {
      FirstConnectStep(p, e, b, j);
      assert p[..|p|] == p;
    }
  }

  /** What partially_order records of any log it accepts, SLEEP lines and repeated CONNECTs
      included. */
  lemma {:induction false} RecordedSets(es: seq<Event>)
    requires Introduced(es)
    ensures Recorded(es).Some? && Exact(es, Recorded(es).value)
  {
    RecordedExact(es);
    if es != [] {
      var p, e := es[..|es| - 1], es[|es| - 1];
      assert es == p + [e];
      IntroducedStep(p, e);
      RecordedSets(p);
      NoteKeepsExact(p, e, Recorded(p).value);
    }
  }

  // ----- What the recorded order means -------------------------------------------------

  /** One CONNECT per request, everything else of a request after its CONNECT, no SLEEP. */
  ghost predicate WellFormed(es: seq<Event>) {
    && (forall j :: 0 <= j < |es| ==> !es[j].Sleep?)
    && (forall j :: 0 <= j < |es| && (es[j].Wait? || es[j].Other?) ==> Connect(es[j].rid) in es[..j])
    && (forall i, j :: 0 <= i < j < |es| && es[j].Connect? ==> es[i] != es[j])
  }

  /** Request `a` was waited for before request `b` connected. */
  ghost predicate Before(es: seq<Event>, a: int, b: int) {
    exists i, j :: 0 <= i < j < |es| && es[i] == Wait(a) && es[j] == Connect(b)
  }

  lemma WellFormedPrefix(es: seq<Event>, k: nat)
    requires WellFormed(es) && k <= |es|
    ensures WellFormed(es[..k])
  {
    var p := es[..k];
    assert forall j :: 0 <= j < k ==> p[j] == es[j] && p[..j] == es[..j];
  }

  /** A log may go on with a first CONNECT, or with any other line of a connected request. */
  lemma WellFormedExtends(es: seq<Event>, e: Event)
    requires WellFormed(es) && !e.Sleep?
    requires if e.Connect? then e !in es else e.Load? || e.Unload? || Connect(e.rid) in es
    ensures WellFormed(es + [e])
  {
    var all := es + [e];
    assert forall j :: 0 <= j <= |es| ==> all[..j] == es[..j];
    assert es[..|es|] == es;
  }

  /** The three parts of a recorded order say what they should about the log. */
  ghost predicate Reads(es: seq<Event>, o: Order) {
    && (forall b :: b in o.requests <==> Connect(b) in es)
    && (forall a :: a in o.finished <==> Wait(a) in es)
    && (forall a, b :: b in o.requests ==> (a in o.requests[b] <==> Before(es, a, b)))
  }

  /** A line that is no CONNECT changes no predecessor; a WAIT finishes a request. */
  lemma ReadsLater(p: seq<Event>, e: Event, o: Order)
    requires WellFormed(p + [e]) && Reads(p, o) && !e.Connect?
    ensures Note(o, e).Some? && Reads(p + [e], Note(o, e).value)
  {
    var es := p + [e];
    assert es[..|p|] == p;
    forall a, b | b in o.requests ensures Before(es, a, b) <==> Before(p, a, b) {
      BeforePrefix(es, a, b);
    }
  }

  lemma ReadsConnect(p: seq<Event>, b: int, o: Order)
    requires WellFormed(p + [Connect(b)]) && Reads(p, o)
    ensures Note(o, Connect(b)).Some? && Reads(p + [Connect(b)], Note(o, Connect(b)).value)
  {
    var es := p + [Connect(b)];
    assert es[..|p|] == p;
    assert Connect(b) !in p;
    forall a, c | c in o.requests ensures Before(es, a, c) <==> Before(p, a, c) {
      BeforePrefix(es, a, c);
    }
    ConnectReads(p, b);
  }

  /** The recorded sets are exactly the happened-before pairs of the log. */
  lemma {:induction false} RecordedMeaning(es: seq<Event>)
    requires WellFormed(es)
    ensures Recorded(es).Some? && Reads(es, Recorded(es).value)
  {
    if es != [] {
      var p, e := es[..|es| - 1], es[|es| - 1];
      WellFormedPrefix(es, |es| - 1);
      RecordedMeaning(p);
      assert es == p + [e];
      if e.Connect? {
        ReadsConnect(p, e.rid, Recorded(p).value);
      } else {
        ReadsLater(p, e, Recorded(p).value);
      }
    }
  }

  /** A fresh CONNECT comes after exactly the WAITs so far. */
  lemma ConnectReads(p: seq<Event>, b: int)
    ensures forall a :: Connect(b) !in p ==> (Before(p + [Connect(b)], a, b) <==> Wait(a) in p)
  {
    var es := p + [Connect(b)];
    forall a | Connect(b) !in p ensures Before(es, a, b) <==> Wait(a) in p {
      if Wait(a) in p {
        var i :| 0 <= i < |p| && p[i] == Wait(a);
        assert es[i] == Wait(a) && es[|p|] == Connect(b);
      }
      if Before(es, a, b) {
        var i, j :| 0 <= i < j < |es| && es[i] == Wait(a) && es[j] == Connect(b);
        assert es[i] == p[i];
      }
    }
  }

  /** For a request already connected, later lines change no predecessor. */
  lemma BeforePrefix(es: seq<Event>, a: int, b: int)
    requires es != [] && WellFormed(es) && Connect(b) in es[..|es| - 1]
    ensures Before(es, a, b) <==> Before(es[..|es| - 1], a, b)
  {
    var p := es[..|es| - 1];
    if Before(es, a, b) {
      var i, j :| 0 <= i < j < |es| && es[i] == Wait(a) && es[j] == Connect(b);
      assert j < |p| && p[i] == es[i] && p[j] == es[j];
    }
    if Before(p, a, b) {
      var i, j :| 0 <= i < j < |p| && p[i] == Wait(a) && p[j] == Connect(b);
      assert es[i] == p[i] && es[j] == p[j];
    }
  }

  lemma BeforeIrreflexive(es: seq<Event>, a: int)
    requires WellFormed(es)
    ensures !Before(es, a, a)
  {
  }

  lemma BeforeTransitive(es: seq<Event>, a: int, b: int, c: int)
    requires WellFormed(es) && Before(es, a, b) && Before(es, b, c)
    ensures Before(es, a, c)
  {
    var i, j :| 0 <= i < j < |es| && es[i] == Wait(a) && es[j] == Connect(b);
    var k, l :| 0 <= k < l < |es| && es[k] == Wait(b) && es[l] == Connect(c);
    var m :| 0 <= m < k && es[..k][m] == Connect(b);
    assert es[m] == es[j];
  }

  /** The recorded relation is a strict interval order. */
  lemma IntervalOrder(es: seq<Event>, a: int, b: int, c: int, d: int)
    requires WellFormed(es)
    ensures !Before(es, a, a)
    ensures Before(es, a, b) && Before(es, b, c) ==> Before(es, a, c)
    ensures Before(es, a, b) && Before(es, c, d) ==> Before(es, a, d) || Before(es, c, b)
  {
    BeforeIrreflexive(es, a);
    if Before(es, a, b) && Before(es, b, c) {
      BeforeTransitive(es, a, b, c);
    }
    if Before(es, a, b) && Before(es, c, d) {
      var i, j :| 0 <= i < j < |es| && es[i] == Wait(a) && es[j] == Connect(b);
      var k, l :| 0 <= k < l < |es| && es[k] == Wait(c) && es[l] == Connect(d);
    }
  }

  /** The order of the lines extends the relation. */
  ghost predicate LinearExtension(rids: seq<int>, requests: map<int, set<int>>) {
    forall i, j :: 0 <= i < |rids| && 0 <= j < |rids| && rids[j] in requests && rids[i] in requests[rids[j]] ==> i < j
  }

  /** For a log naming every request exactly once, acceptance is being a linear extension. */
  lemma AcceptedIffLinearExtension(es: seq<Event>, rids: seq<int>)
    requires WellFormed(es) && Recorded(es).Some?
    requires forall i :: 0 <= i < |rids| ==> rids[i] in Recorded(es).value.requests
    requires forall b :: b in Recorded(es).value.requests ==> b in rids
    requires forall i, j :: 0 <= i < j < |rids| ==> rids[i] != rids[j]
    ensures Respects(rids, Recorded(es).value.requests) <==> LinearExtension(rids, Recorded(es).value.requests)
  {
    RecordedMeaning(es);
    var requests := Recorded(es).value.requests;
    if Respects(rids, requests) {
      forall i, j | 0 <= i < |rids| && 0 <= j < |rids| && rids[i] in requests[rids[j]] ensures i < j {
        var k :| 0 <= k < j && rids[..j][k] == rids[i];
        assert rids[k] == rids[i];
      }
    }
    if LinearExtension(rids, requests) {
      forall j, a | 0 <= j < |rids| && a in requests[rids[j]] ensures a in rids[..j] {
        WaitedIsConnected(es, a, rids[j]);
        var i :| 0 <= i < |rids| && rids[i] == a;
        assert rids[..j][i] == a;
      }
    }
  }

  lemma WaitedIsConnected(es: seq<Event>, a: int, b: int)
    requires WellFormed(es) && Before(es, a, b)
    ensures Connect(a) in es
  {
    var i, j :| 0 <= i < j < |es| && es[i] == Wait(a) && es[j] == Connect(b);
    var k :| 0 <= k < i && es[..i][k] == Connect(a);
    assert es[k] == Connect(a);
  }
}
