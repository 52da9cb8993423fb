/** Broadcasting along the tree of libdevcore/TreeTopology.cpp: every live node forwards what it receives to
    the nodes it selects. */
module Broadcast {
  import opened Prelude
  import opened Topology

  /** All positions that receive a message, when it is sent to xs and forwarded from there, in the order of
      one particular schedule. The bound m is below all of xs. */
  function Flood(t: Tree, xs: seq<nat>, m: int): seq<nat>
    requires t.w > 0 && -1 <= m && Within(xs, m, t.n)
    decreases if m < t.n then t.n - m else 0, |xs|
  {
    if xs == [] then []
    else [xs[0]] + Flood(t, Select(t, xs[0]), xs[0]) + Flood(t, xs[1..], m)
  }

  lemma {:induction false} FloodAppend(t: Tree, xs: seq<nat>, ys: seq<nat>, m: int)
    requires t.w > 0 && -1 <= m && Within(xs, m, t.n) && Within(ys, m, t.n)
    ensures Flood(t, xs + ys, m) == Flood(t, xs, m) + Flood(t, ys, m)
    decreases |xs|
  {
    if xs == [] {
      assert xs + ys == ys;
    } else {
      assert (xs + ys)[1..] == xs[1..] + ys;
      FloodAppend(t, xs[1..], ys, m);
      var a, b, c, d := [xs[0]], Flood(t, Select(t, xs[0]), xs[0]), Flood(t, xs[1..], m), Flood(t, ys, m);
      assert a + b + (c + d) == (a + b + c) + d;
    }
  }

  /** The bound does not matter. */
  lemma {:induction false} FloodBound(t: Tree, xs: seq<nat>, m: int, k: int)
    requires t.w > 0 && -1 <= m <= k && Within(xs, k, t.n)
    ensures Flood(t, xs, m) == Flood(t, xs, k)
    decreases |xs|
  {
    if xs == [] {
    } else {
      FloodBound(t, xs[1..], m, k);
    }
  }

  /** Of the positions under the children i, i + 1, ... of p, forwarding reaches each live one once. */
  lemma {:induction false} KidsReach(t: Tree, p: nat, i: nat, q: nat)
    requires t.w > 0 && i <= t.w && q < t.n
    ensures Count(Flood(t, Kids(t, p, i), p), q) ==
            One(q in t.live && exists k: nat :: i <= k < t.w && Under(t.w, p, k, q))
    decreases t.n - p, t.w - i, 0
  {
    if i == t.w {
    } else if Child(t.w, p, i) >= t.n {
      NoneUnder(t, p, i, q);
    } else {
      FloodKids(t, p, i, i + 1, q);
      FirstReaches(t, p, i, q);
      KidsReach(t, p, i + 1, q);
      UnderSplit(t.w, p, i, q, q in t.live);
    }
  }

  lemma FloodKids(t: Tree, p: nat, i: nat, j: nat, q: nat)
    requires j == i + 1 && i < t.w && Child(t.w, p, i) < t.n
    ensures Count(Flood(t, Kids(t, p, i), p), q) ==
            Count(Flood(t, Seen(t, Child(t.w, p, i)), p), q) + Count(Flood(t, Kids(t, p, j), p), q)
  {
    var first, rest := Seen(t, Child(t.w, p, i)), Kids(t, p, j);
    assert Kids(t, p, i) == first + rest;
    FloodAppend(t, first, rest, p);
    CountAppend(Flood(t, first, p), Flood(t, rest, p), q);
  }

  lemma NoneUnder(t: Tree, p: nat, i: nat, q: nat)
    requires i < t.w && Child(t.w, p, i) >= t.n && q < t.n
    ensures !exists k: nat :: i <= k < t.w && Under(t.w, p, k, q)
  {
    forall k: nat | i <= k < t.w ensures !Under(t.w, p, k, q) {
      if Below(t.w, Child(t.w, p, k), q) { BelowIsLarger(t.w, Child(t.w, p, k), q); }
    }
  }

  lemma UnderSplit(w: nat, p: nat, i: nat, q: nat, c: bool)
    requires i < w
    ensures One(c && exists k: nat :: i <= k < w && Under(w, p, k, q)) ==
            One(c && Under(w, p, i, q)) + One(c && exists k: nat :: i + 1 <= k < w && Under(w, p, k, q))
  {
    forall k: nat | i + 1 <= k < w ensures !(Under(w, p, i, q) && Under(w, p, k, q)) {
      if Under(w, p, i, q) && Under(w, p, k, q) { UnderOne(w, p, i, k, q); }
    }
  }

  /** The part under child number i. */
  lemma {:induction false} FirstReaches(t: Tree, p: nat, i: nat, q: nat)
    requires i < t.w && q < t.n && Child(t.w, p, i) < t.n
    ensures Count(Flood(t, Seen(t, Child(t.w, p, i)), p), q) == One(q in t.live && Under(t.w, p, i, q))
    decreases t.n - p, t.w - i, -1
  {
    var c := Child(t.w, p, i);
    SelectReaches(t, c, q);
    if Below(t.w, c, q) { BelowIsLarger(t.w, c, q); }
    if c in t.live {
      var rest := Flood(t, Select(t, c), c);
      assert Flood(t, [c], p) == [c] + rest + [];
      CountAppend([c], rest, q);
      assert [c] + rest + [] == [c] + rest && Count([c], q) == One(c == q);
    } else {
      FloodBound(t, Select(t, c), p, c);
    }
  }

  /** Forwarding from p reaches every live position below p exactly once, and no other. */
  lemma {:induction false} SelectReaches(t: Tree, p: nat, q: nat)
    requires t.w > 0 && q < t.n
    ensures Count(Flood(t, Select(t, p), p), q) == One(q in t.live && Below(t.w, p, q))
    decreases t.n - p, t.w + 1
  {
    if p < t.n {
      KidsReach(t, p, 0, q);
      if Below(t.w, p, q) { var k := UnderSome(t.w, p, q); }
      if k: nat :| 0 <= k < t.w && Under(t.w, p, k, q) { UnderIsBelow(t.w, p, k, q); }
    } else {
      assert Select(t, p) == [];
      if Below(t.w, p, q) { BelowIsLarger(t.w, p, q); }
    }
  }

  /** Messages under way, and the positions that have received one, in the order in which they did. */
  datatype Net = Net(inFlight: seq<nat>, received: seq<nat>)

  ghost predicate NetOk(t: Tree, s: Net) {
    t.w > 0 && Within(s.inFlight, -1, t.n)
  }

  /** Message number k arrives, and its receiver forwards it. */
  function Deliver(t: Tree, s: Net, k: nat): (s': Net)
    requires NetOk(t, s) && k < |s.inFlight|
    ensures NetOk(t, s')
  {
    var x := s.inFlight[k];
    Net(s.inFlight[..k] + s.inFlight[k + 1..] + Select(t, x), s.received + [x])
  }

  /** Messages arrive in any order; picks says which is next. */
  function RunNet(t: Tree, s: Net, picks: seq<nat>): (s': Net)
    requires NetOk(t, s)
    ensures NetOk(t, s')
    decreases |picks|
  {
    if picks == [] || s.inFlight == [] then s
    else RunNet(t, Deliver(t, s, picks[0] % |s.inFlight|), picks[1..])
  }

  /** What has been received and what is still to come from the messages under way. */
  ghost function Total(t: Tree, s: Net): seq<nat>
    requires NetOk(t, s)
  {
    s.received + Flood(t, s.inFlight, -1)
  }

  /** One delivery changes no count, and leaves one position less to reach. */
  lemma DeliverKeeps(t: Tree, s: Net, k: nat, q: nat)
    requires NetOk(t, s) && k < |s.inFlight|
    ensures Count(Total(t, Deliver(t, s, k)), q) == Count(Total(t, s), q)
    ensures |Flood(t, s.inFlight, -1)| == |Flood(t, Deliver(t, s, k).inFlight, -1)| + 1
  {
    var f, x := s.inFlight, s.inFlight[k];
    var a, b, c := f[..k], f[k + 1..], Select(t, x);
    var fa, fb, fc := Flood(t, a, -1), Flood(t, b, -1), Flood(t, c, -1);
    assert f == a + ([x] + b);
    FloodAppend(t, a, [x] + b, -1);
    assert ([x] + b)[1..] == b;
    FloodBound(t, c, -1, x);
    assert Flood(t, f, -1) == fa + ([x] + fc + fb);
    FloodAppend(t, a + b, c, -1);
    FloodAppend(t, a, b, -1);
    CountAppend(s.received, Flood(t, f, -1), q);
    CountAppend(fa, [x] + fc + fb, q);
    CountAppend([x] + fc, fb, q);
    CountAppend([x], fc, q);
    CountAppend(s.received + [x], fa + fb + fc, q);
    CountAppend(s.received, [x], q);
    CountAppend(fa + fb, fc, q);
    CountAppend(fa, fb, q);
  }

  lemma {:induction false} RunKeeps(t: Tree, s: Net, picks: seq<nat>, q: nat)
    requires NetOk(t, s)
    ensures Count(Total(t, RunNet(t, s, picks)), q) == Count(Total(t, s), q)
    ensures var left := |Flood(t, RunNet(t, s, picks).inFlight, -1)|;
      left == if |picks| < |Flood(t, s.inFlight, -1)| then |Flood(t, s.inFlight, -1)| - |picks| else 0
    decreases |picks|
  {
    if picks != [] && s.inFlight != [] {
      var k := picks[0] % |s.inFlight|;
      DeliverKeeps(t, s, k, q);
      RunKeeps(t, Deliver(t, s, k), picks[1..], q);
    }
  }

  /** The broadcast that position p starts: whatever the order of arrival, no position receives more than one
      message, only live positions below p receive one, and once enough messages have arrived none is under way
      and every live position below p has received exactly one. */
  lemma BroadcastReaches(t: Tree, p: nat, picks: seq<nat>, q: nat)
    requires t.w > 0 && q < t.n
    ensures var s := RunNet(t, Net(Select(t, p), []), picks);
      && Count(s.received, q) <= One(q in t.live && Below(t.w, p, q))
      && (s.inFlight == [] ==> Count(s.received, q) == One(q in t.live && Below(t.w, p, q)))
      && (|picks| >= |Flood(t, Select(t, p), p)| ==> s.inFlight == [])
  {
    var s0 := Net(Select(t, p), []);
    var s := RunNet(t, s0, picks);
    RunKeeps(t, s0, picks, q);
    FloodBound(t, Select(t, p), -1, p);
    SelectReaches(t, p, q);
    assert Total(t, s0) == Flood(t, Select(t, p), p);
    CountAppend(s.received, Flood(t, s.inFlight, -1), q);
  }

  /** Broadcast coverage: started at position 0, every other live position receives exactly one message. */
  lemma BroadcastCovers(t: Tree, picks: seq<nat>, q: nat)
    requires t.w > 0 && q < t.n
    ensures var s := RunNet(t, Net(Select(t, 0), []), picks);
      && Count(s.received, q) <= One(q in t.live && q != 0)
      && (s.inFlight == [] ==> Count(s.received, q) == One(q in t.live && q != 0))
      && (|picks| >= |Flood(t, Select(t, 0), 0)| ==> s.inFlight == [])
  {
    BroadcastReaches(t, 0, picks, q);
    if q > 0 { RootIsAbove(t.w, q); }
  }

  /** Below a live child, p does not see q; below a dead one it sees what the child would. */
  lemma {:induction false} ThroughChild(t: Tree, p: nat, c: nat, q: nat)
    requires t.w > 0 && c > p && Parent(t.w, c) == p && Below(t.w, c, q)
    ensures Through(t, p, q) <==> c !in t.live && Through(t, c, q)
    decreases q
  {
    BelowIsLarger(t.w, c, q);
    var r := Parent(t.w, q);
    if r != c {
      BelowIsLarger(t.w, c, r);
      ThroughChild(t, p, c, r);
    }
  }

  lemma {:induction false} KidsSee(t: Tree, p: nat, i: nat, q: nat)
    requires t.w > 0 && i <= t.w && q < t.n
    ensures Count(Kids(t, p, i), q) ==
            One(q in t.live && Through(t, p, q) && exists k: nat :: i <= k < t.w && Under(t.w, p, k, q))
    decreases t.n - p, t.w - i, 0
  {
    if i == t.w {
    } else if Child(t.w, p, i) >= t.n {
      NoneUnder(t, p, i, q);
    } else {
      CountAppend(Seen(t, Child(t.w, p, i)), Kids(t, p, i + 1), q);
      FirstSees(t, p, i, q);
      KidsSee(t, p, i + 1, q);
      UnderSplit(t.w, p, i, q, q in t.live && Through(t, p, q));
    }
  }

  lemma {:induction false} FirstSees(t: Tree, p: nat, i: nat, q: nat)
    requires i < t.w && q < t.n && Child(t.w, p, i) < t.n
    ensures Count(Seen(t, Child(t.w, p, i)), q) == One(q in t.live && Through(t, p, q) && Under(t.w, p, i, q))
    decreases t.n - p, t.w - i, -1
  {
    var c := Child(t.w, p, i);
    ParentOfChild(t.w, p, i);
    SelectSees(t, c, q);
    if Through(t, c, q) { ThroughIsBelow(t, c, q); BelowIsLarger(t.w, c, q); }
    if Below(t.w, c, q) { BelowIsLarger(t.w, c, q); ThroughChild(t, p, c, q); }
    assert Count([c], q) == One(c == q);
  }

  /** A position selects exactly the live positions that it sees, each once. */
  lemma {:induction false} SelectSees(t: Tree, p: nat, q: nat)
    requires t.w > 0 && q < t.n
    ensures Count(Select(t, p), q) == One(q in t.live && Through(t, p, q))
    decreases t.n - p, t.w + 1
  {
    if Through(t, p, q) { ThroughIsBelow(t, p, q); }
    if p < t.n {
      KidsSee(t, p, 0, q);
      if Below(t.w, p, q) { var k := UnderSome(t.w, p, q); }
      if k: nat :| 0 <= k < t.w && Under(t.w, p, k, q) { UnderIsBelow(t.w, p, k, q); }
    } else {
      assert Select(t, p) == [];
      if Below(t.w, p, q) { BelowIsLarger(t.w, p, q); }
    }
  }

  /** A live position sees q exactly when it is the nearest live position above q. */
  lemma {:induction false} SeesIsNearest(t: Tree, p: nat, q: nat)
    requires t.w > 0 && p in t.live
    ensures Through(t, p, q) <==> Above(t, q) != [] && Above(t, q)[0] == p
    decreases q
  {
    if q > 0 && Parent(t.w, q) !in t.live { SeesIsNearest(t, p, Parent(t.w, q)); }
  }

  /** The positions that an observer sends a message to, which starts at list index start. */
  function ObserverStart(t: Tree, start: nat): (r: seq<nat>)
    requires t.w > 0
    ensures Within(r, -1, t.n)
  {
    if start < t.n && 0 in t.live then [0] else Select(t, start)
  }

  /** What is reached from an observer. */
  lemma ObserverReaches(t: Tree, start: nat, q: nat)
    requires t.w > 0 && q < t.n
    ensures Count(Flood(t, ObserverStart(t, start), -1), q) ==
            One(q in t.live && ((start < t.n && 0 in t.live) || Below(t.w, start, q)))
  {
    if start < t.n && 0 in t.live {
      SelectReaches(t, 0, q);
      var rest := Flood(t, Select(t, 0), 0);
      assert Flood(t, [0], -1) == [0] + rest + [] == [0] + rest;
      CountAppend([0], rest, q);
      if q > 0 { RootIsAbove(t.w, q); }
    } else {
      SelectReaches(t, start, q);
      FloodBound(t, Select(t, start), -1, start);
    }
  }
}
