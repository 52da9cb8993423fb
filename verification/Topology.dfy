/** The tree behind libdevcore/TreeTopology.cpp, on positions: position p of n has the positions
    p * w + 1 .. p * w + w as children, and dead positions are skipped. */
module Topology {
  datatype Tree = Tree(n: nat, w: nat, live: set<nat>)

  function Parent(w: nat, q: nat): (p: nat)
    requires w > 0 && q > 0
    ensures p < q
  {
    DivLess(q - 1, w);
    (q - 1) / w
  }

  lemma DivLess(a: nat, w: nat)
    requires w > 0
    ensures a / w <= a
  {
    MulAtLeast(a / w, w);
    assert a == a / w * w + a % w;
  }

  function Child(w: nat, p: nat, i: nat): (c: nat)
    requires i < w
    ensures c > p
  {
    MulAtLeast(p, w);
    p * w + i + 1
  }

  lemma MulAtLeast(p: nat, w: nat)
    requires w > 0
    ensures p * w >= p
  {
    assert p * w == p * (w - 1) + p;
  }

  lemma DivIsUnique(a: nat, w: nat, q: nat, r: nat)
    requires w > 0 && r < w && a == q * w + r
    ensures a / w == q && a % w == r
  {
    var x, y := a / w, a % w;
    assert a == x * w + y;
    MulGap(x, q, w);
    MulGap(q, x, w);
  }

  lemma MulGap(x: nat, q: nat, w: nat)
    ensures x < q ==> x * w + w <= q * w
  {
    if x < q {
      assert q * w == x * w + (q - x) * w;
      MulAtLeast(w, q - x);
    }
  }

  lemma ParentOfChild(w: nat, p: nat, i: nat)
    requires i < w
    ensures Parent(w, Child(w, p, i)) == p
  {
    DivIsUnique(p * w + i, w, p, i);
  }

  lemma ChildOfParent(w: nat, q: nat)
    requires w > 0 && q > 0
    ensures (q - 1) % w < w && Child(w, Parent(w, q), (q - 1) % w) == q
  {
  }

  /** All positions of xs lie strictly between the bounds. */
  predicate Within(xs: seq<nat>, low: int, high: nat) {
    forall i :: 0 <= i < |xs| ==> low < xs[i] < high
  }

  /** The nearest live descendants of p: recursiveSelectChildNodes. */
  function Select(t: Tree, p: nat): (r: seq<nat>)
    requires t.w > 0
    ensures Within(r, p, t.n)
    decreases t.n - p, t.w + 1
  {
    Kids(t, p, 0)
  }

  /** From child number i on. */
  function Kids(t: Tree, p: nat, i: nat): (r: seq<nat>)
    requires t.w > 0 && i <= t.w
    ensures Within(r, p, t.n)
    decreases t.n - p, t.w - i
  {
    if i == t.w || Child(t.w, p, i) >= t.n then []
    else
      Seen(t, Child(t.w, p, i)) + Kids(t, p, i + 1)
  }

  /** What is selected at a child: the child, or what it would select. */
  function Seen(t: Tree, c: nat): (r: seq<nat>)
    requires t.w > 0 && c < t.n
    ensures Within(r, c - 1, t.n)
    decreases t.n - c, t.w + 2
  {
    if c in t.live then [c] else Select(t, c)
  }

  /** q lies below p. */
  predicate Below(w: nat, p: nat, q: nat)
    requires w > 0
    decreases q
  {
    q > 0 && (Parent(w, q) == p || Below(w, p, Parent(w, q)))
  }

  /** q lies below p, and every position between them is dead. */
  predicate Through(t: Tree, p: nat, q: nat)
    requires t.w > 0
    decreases q
  {
    q > 0 && (Parent(t.w, q) == p || (Parent(t.w, q) !in t.live && Through(t, p, Parent(t.w, q))))
  }

  /** The live positions above q, nearest first. */
  function Above(t: Tree, q: nat): (r: seq<nat>)
    requires t.w > 0
    decreases q
  {
    if q == 0 then []
    else (if Parent(t.w, q) in t.live then [Parent(t.w, q)] else []) + Above(t, Parent(t.w, q))
  }

  function Count<T(==)>(s: seq<T>, x: T): nat {
    if s == [] then 0 else (if s[0] == x then 1 else 0) + Count(s[1..], x)
  }

  lemma {:induction false} CountAppend<T>(a: seq<T>, b: seq<T>, x: T)
    ensures Count(a + b, x) == Count(a, x) + Count(b, x)
  {
    if a == [] {
      assert a + b == b;
    } else {
      CountAppend(a[1..], b, x);
      assert (a + b)[1..] == a[1..] + b;
    }
  }

  lemma {:induction false} BelowIsLarger(w: nat, p: nat, q: nat)
    requires w > 0 && Below(w, p, q)
    ensures p < q
    decreases q
  {
    if Parent(w, q) != p { BelowIsLarger(w, p, Parent(w, q)); }
  }

  lemma {:induction false} RootIsAbove(w: nat, q: nat)
    requires w > 0 && q > 0
    ensures Below(w, 0, q)
    decreases q
  {
    if Parent(w, q) > 0 { RootIsAbove(w, Parent(w, q)); }
  }

  lemma {:induction false} ThroughIsBelow(t: Tree, p: nat, q: nat)
    requires t.w > 0 && Through(t, p, q)
    ensures Below(t.w, p, q)
    decreases q
  {
    if Parent(t.w, q) != p { ThroughIsBelow(t, p, Parent(t.w, q)); }
  }

  /** q is in the part of the tree under child number k of p, which may be that child. */
  predicate Under(w: nat, p: nat, k: nat, q: nat)
    requires k < w
  {
    q == Child(w, p, k) || Below(w, Child(w, p, k), q)
  }

  /** The parts under different children are disjoint. */
  lemma {:induction false} UnderOne(w: nat, p: nat, k: nat, m: nat, q: nat)
    requires k < w && m < w && Under(w, p, k, q) && Under(w, p, m, q)
    ensures k == m
    decreases q
  {
    ParentOfChild(w, p, k);
    ParentOfChild(w, p, m);
    var c, d := Child(w, p, k), Child(w, p, m);
    if q == c {
      if q != d { NotUnderSibling(w, p, d, c); }
    } else if q == d {
      NotUnderSibling(w, p, c, d);
    } else {
      UnderOne(w, p, k, m, Parent(w, q));
    }
  }

  lemma NotUnderSibling(w: nat, p: nat, c: nat, d: nat)
    requires w > 0 && c > p && d > 0 && Parent(w, d) == p
    ensures !Below(w, c, d)
  {
    if Below(w, c, p) { BelowIsLarger(w, c, p); }
  }

  /** Everything below p is under one of its children. */
  lemma {:induction false} UnderSome(w: nat, p: nat, q: nat) returns (k: nat)
    requires w > 0 && Below(w, p, q)
    ensures k < w && Under(w, p, k, q)
    decreases q
  {
    if Parent(w, q) == p {
      ChildOfParent(w, q);
      k := (q - 1) % w;
    } else {
      k := UnderSome(w, p, Parent(w, q));
    }
  }

  lemma {:induction false} UnderIsBelow(w: nat, p: nat, k: nat, q: nat)
    requires k < w && Under(w, p, k, q)
    ensures Below(w, p, q)
    decreases q
  {
    ParentOfChild(w, p, k);
    if q != Child(w, p, k) { UnderIsBelow(w, p, k, Parent(w, q)); }
  }
}
