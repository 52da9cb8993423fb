/** Reading back what was encoded. */
module AbiRoundTrip {
  import opened Prelude
  import opened Bytes
  import opened Abi

  /** The bytes s stand in data at an offset. */
  predicate Occurs(s: seq<byte>, data: seq<byte>, offset: nat) {
    offset + |s| <= |data| && data[offset..offset + |s|] == s
  }

  lemma OccursInner(a: seq<byte>, b: seq<byte>, c: seq<byte>, data: seq<byte>, offset: nat)
    requires Occurs(a + b + c, data, offset)
    ensures Occurs(a, data, offset) && Occurs(b, data, offset + |a|) && Occurs(c, data, offset + |a| + |b|)
  {
    var s := a + b + c;
    assert a == s[..|a|] && b == s[|a|..|a| + |b|] && c == s[|a| + |b|..];
    assert forall k :: 0 <= k < |s| ==> data[offset + k] == s[k];
  }

  lemma OccursWithin(s: seq<byte>, part: seq<byte>, data: seq<byte>, i: nat, offset: nat)
    requires Occurs(part, s, i) && Occurs(s, data, offset)
    ensures Occurs(part, data, offset + i)
  {
    assert forall k :: 0 <= k < |s| ==> data[offset + k] == s[k];
  }

  lemma PowStep(k: nat)
    ensures Pow256(k + 4) == 0x1_0000_0000 * Pow256(k)
  {
    assert Pow256(k + 4) == 0x100 * Pow256(k + 3);
    assert Pow256(k + 2) == 0x100 * Pow256(k + 1);
  }

  lemma PowWord()
    ensures Pow256(32) == TWO_TO_256
  {
    PowStep(0);
    PowStep(4);
    PowStep(8);
    PowStep(12);
    PowStep(16);
    PowStep(20);
    PowStep(24);
    PowStep(28);
  }

  lemma WordValue(n: nat)
    requires n < TWO_TO_256
    ensures FromBigEndian(Word(n)) == n
  {
    PowWord();
    FixedValue(n, 32);
  }

  lemma ReadsWord(n: nat, data: seq<byte>, offset: nat)
    requires n < TWO_TO_256 && Occurs(Word(n), data, offset)
    ensures ReadWord(data, offset) == Ok(n)
  {
    WordValue(n);
  }

  lemma {:induction false} HeadSizeOfTimes(e: Type, n: nat)
    ensures HeadSize(Times(e, n)) == n * Words(e) * WORD
  {
    if n == 0 {
    } else {
      HeadSizeOfTimes(e, n - 1);
      assert Times(e, n)[1..] == Times(e, n - 1);
      Distribute(n, Words(e));
    }
  }

  lemma Distribute(n: nat, w: nat)
    requires n > 0
    ensures w * WORD + (n - 1) * w * WORD == n * w * WORD
  {
    assert n * w == (n - 1) * w + w;
  }

  lemma {:induction false} EncSize(v: Value, t: Type)
    requires HasType(v, t)
    ensures !Dynamic(t) ==> |Enc(v, t)| == Words(t) * WORD
    decreases v, 2
  {
    if t.Array? && !Dynamic(t) {
      var ts := Times(t.element, t.count);
      TupleSize(v.items, ts);
      HeadSizeOfTimes(t.element, t.count);
      StaticTails(v.items, ts);
      assert Enc(v, t) == EncTuple(v.items, ts) == Heads(v.items, ts, HeadSize(ts)) + [];
    }
  }

  lemma {:induction false} TupleSize(vs: seq<Value>, ts: seq<Type>)
    requires HaveTypes(vs, ts)
    ensures forall next :: |Heads(vs, ts, next)| == HeadSize(ts)
    decreases vs, 1
  {
    forall next ensures |Heads(vs, ts, next)| == HeadSize(ts) {
      if vs != [] {
        EncSize(vs[0], ts[0]);
        DynamicHead(ts[0]);
        TupleSize(vs[1..], ts[1..]);
      }
    }
  }

  lemma DynamicHead(t: Type)
    ensures Dynamic(t) ==> Words(t) == 1
  {
  }

  lemma {:induction false} StaticTails(vs: seq<Value>, ts: seq<Type>)
    requires HaveTypes(vs, ts) && forall k :: 0 <= k < |ts| ==> !Dynamic(ts[k])
    ensures Tails(vs, ts) == []
    decreases |vs|
  {
    if vs == [] {
    } else {
      StaticTails(vs[1..], ts[1..]);
    }
  }

  lemma OccursAfter(x: seq<byte>, s: seq<byte>, i: nat, front: seq<byte>)
    requires Occurs(x, s, i)
    ensures Occurs(x, front + s, |front| + i)
  {
    assert (front + s)[|front| + i..|front| + i + |x|] == s[i..i + |x|];
  }

  /** The bytes of the heads before component k. */
  function HeadsBefore(ts: seq<Type>, k: nat): nat
    requires k <= |ts|
  {
    if k == 0 then 0 else Words(ts[0]) * WORD + HeadsBefore(ts[1..], k - 1)
  }

  function TailsBefore(vs: seq<Value>, ts: seq<Type>, k: nat): nat
    requires HaveTypes(vs, ts) && k <= |vs|
    decreases k
  {
    if k == 0 then 0 else |Tail(vs[0], ts[0])| + TailsBefore(vs[1..], ts[1..], k - 1)
  }

  lemma HeadSizeIs(v: Value, t: Type, next: nat)
    requires HasType(v, t)
    ensures |Head(v, t, next)| == Words(t) * WORD
  {
    EncSize(v, t);
  }

  lemma {:induction false} HeadAt(vs: seq<Value>, ts: seq<Type>, next: nat, k: nat, tailAt: nat)
    requires HaveTypes(vs, ts) && k < |vs| && tailAt == next + TailsBefore(vs, ts, k)
    ensures Occurs(Head(vs[k], ts[k], tailAt), Heads(vs, ts, next), HeadsBefore(ts, k))
    decreases k
  {
    var head := Head(vs[0], ts[0], next);
    if k == 0 {
    } else {
      var after := next + |Tail(vs[0], ts[0])|;
      HeadSizeIs(vs[0], ts[0], next);
      HeadAt(vs[1..], ts[1..], after, k - 1, tailAt);
      OccursAfter(Head(vs[k], ts[k], tailAt), Heads(vs[1..], ts[1..], after), HeadsBefore(ts[1..], k - 1), head);
    }
  }

  lemma {:induction false} TailAt(vs: seq<Value>, ts: seq<Type>, k: nat)
    requires HaveTypes(vs, ts) && k < |vs|
    ensures Occurs(Tail(vs[k], ts[k]), Tails(vs, ts), TailsBefore(vs, ts, k))
    decreases k
  {
    if k == 0 {
    } else {
      TailAt(vs[1..], ts[1..], k - 1);
      OccursAfter(Tail(vs[k], ts[k]), Tails(vs[1..], ts[1..]), TailsBefore(vs[1..], ts[1..], k - 1),
                  Tail(vs[0], ts[0]));
    }
  }

  lemma OccursLeft(left: seq<byte>, right: seq<byte>, x: seq<byte>, i: nat, data: seq<byte>, base: nat, at: nat)
    requires Occurs(x, left, i) && Occurs(left + right, data, base) && at == base + i
    ensures Occurs(x, data, at)
  {
    assert left + right + [] == left + right;
    OccursInner(left, right, [], data, base);
    OccursWithin(left, x, data, i, base);
  }

  lemma OccursRight(left: seq<byte>, right: seq<byte>, x: seq<byte>, i: nat, data: seq<byte>, base: nat, at: nat)
    requires Occurs(x, right, i) && Occurs(left + right, data, base) && at == base + |left| + i
    ensures Occurs(x, data, at)
  {
    assert left + right + [] == left + right;
    OccursInner(left, right, [], data, base);
    OccursWithin(right, x, data, i, base + |left|);
  }

  lemma TupleIs(vs: seq<Value>, ts: seq<Type>)
    requires HaveTypes(vs, ts)
    ensures EncTuple(vs, ts) == Heads(vs, ts, HeadSize(ts)) + Tails(vs, ts)
    ensures |Heads(vs, ts, HeadSize(ts))| == HeadSize(ts)
  {
    TupleSize(vs, ts);
  }

  /** Where the tail of component k starts, counted from the start of the tuple. */
  function TailOffset(vs: seq<Value>, ts: seq<Type>, k: nat): nat
    requires HaveTypes(vs, ts) && k <= |vs|
  {
    HeadSize(ts) + TailsBefore(vs, ts, k)
  }

  /** The head of component k is found at its place among the heads, holding the offset of the tail. */
  lemma HeadFound(vs: seq<Value>, ts: seq<Type>, data: seq<byte>, base: nat, k: nat, headAt: nat, tailOffset: nat)
    requires HaveTypes(vs, ts) && k < |vs| && Occurs(EncTuple(vs, ts), data, base)
    requires headAt == base + HeadsBefore(ts, k) && tailOffset == TailOffset(vs, ts, k)
    ensures Occurs(Head(vs[k], ts[k], tailOffset), data, headAt)
  {
    TupleIs(vs, ts);
    var heads, tails := Heads(vs, ts, HeadSize(ts)), Tails(vs, ts);
    HeadAt(vs, ts, HeadSize(ts), k, tailOffset);
    OccursLeft(heads, tails, Head(vs[k], ts[k], tailOffset), HeadsBefore(ts, k), data, base, headAt);
  }

  /** The tail of component k is found at that offset. */
  lemma TailFound(vs: seq<Value>, ts: seq<Type>, data: seq<byte>, base: nat, k: nat, tailAt: nat)
    requires HaveTypes(vs, ts) && k < |vs| && Occurs(EncTuple(vs, ts), data, base)
    requires tailAt == base + TailOffset(vs, ts, k)
    ensures Occurs(Tail(vs[k], ts[k]), data, tailAt)
  {
    TupleIs(vs, ts);
    var heads, tails := Heads(vs, ts, HeadSize(ts)), Tails(vs, ts);
    TailAt(vs, ts, k);
    OccursRight(heads, tails, Tail(vs[k], ts[k]), TailsBefore(vs, ts, k), data, base, tailAt);
  }

  lemma {:induction false} HeadsBeforeOfTimes(e: Type, n: nat, k: nat)
    requires k <= n
    ensures HeadsBefore(Times(e, n), k) == k * Words(e) * WORD
  {
    if k == 0 {
    } else {
      HeadsBeforeOfTimes(e, n - 1, k - 1);
      assert Times(e, n)[1..] == Times(e, n - 1);
      Distribute(k, Words(e));
    }
  }

  /** A signed number is read back unchanged exactly within the range of the sign threshold. */
  lemma SignedIsRead(v: int)
    requires -TWO_TO_256 < v < TWO_TO_256
    ensures ReadSigned(TwosComplement(v)) == v <==> -7 * TWO_TO_252 <= v < 9 * TWO_TO_252
    ensures 16 * TWO_TO_252 == 0x1_0000_0000_0000_0000_0000_0000_0000_0000_0000_0000_0000_0000_0000_0000_0000_0000
  {
  }

  /** Reading finds every value where it was written. */
  lemma {:induction false} DecEnc(v: Value, t: Type, data: seq<byte>, offset: nat)
    requires HasType(v, t) && Occurs(Enc(v, t), data, offset) && |data| < SIZE_T
    ensures Dec(data, t, offset) == Ok(Reread(v))
    decreases v, 3
  {
    match t
    case Array(e, n) => ArrayDecodes(v, e, data, offset);
    case Vector(e) => VectorDecodes(v, e, data, offset);
    case String => StringDecodes(v, data, offset);
    case _ => ScalarDecodes(v, t, data, offset);
  }

  lemma {:induction false} ArrayDecodes(v: Value, e: Type, data: seq<byte>, offset: nat)
    requires v.Elements? && HasType(v, Array(e, |v.items|)) && Occurs(Enc(v, Array(e, |v.items|)), data, offset)
    requires |data| < SIZE_T
    ensures Dec(data, Array(e, |v.items|), offset) == Ok(Reread(v))
    decreases v, 2
  {
    ItemsDecode(v.items, e, data, offset, 0);
    assert v.items[0..] == v.items;
  }

  lemma {:induction false} VectorDecodes(v: Value, e: Type, data: seq<byte>, offset: nat)
    requires HasType(v, Vector(e)) && Occurs(Enc(v, Vector(e)), data, offset) && |data| < SIZE_T
    ensures Dec(data, Vector(e), offset) == Ok(Reread(v))
    decreases v, 2
  {
    VectorParts(v, e, data, offset);
    ItemsDecode(v.items, e, data, offset + WORD, 0);
    assert v.items[0..] == v.items && ToSize(|v.items|) == |v.items|;
  }

  lemma VectorParts(v: Value, e: Type, data: seq<byte>, offset: nat)
    requires HasType(v, Vector(e)) && Occurs(Enc(v, Vector(e)), data, offset)
    ensures ReadWord(data, offset) == Ok(|v.items|)
    ensures HaveTypes(v.items, Times(e, |v.items|))
    ensures Occurs(EncTuple(v.items, Times(e, |v.items|)), data, offset + WORD)
  {
    var count, items := Word(|v.items|), EncTuple(v.items, Times(e, |v.items|));
    assert count + items + [] == count + items;
    OccursInner(count, items, [], data, offset);
    ReadsWord(|v.items|, data, offset);
  }

  lemma StringDecodes(v: Value, data: seq<byte>, offset: nat)
    requires HasType(v, String) && Occurs(Enc(v, String), data, offset)
    ensures Dec(data, String, offset) == Ok(v)
  {
    var n, at := |v.bytes|, offset + WORD;
    OccursInner(Word(n), v.bytes, Zeros(Padding(n)), data, offset);
    ReadsWord(n, data, offset);
    assert ToSize(n) == n;
    assert data[at..at + n] == v.bytes;
  }

  lemma ScalarDecodes(v: Value, t: Type, data: seq<byte>, offset: nat)
    requires HasType(v, t) && Occurs(Enc(v, t), data, offset) && !t.Array? && !t.Vector? && !t.String?
    ensures Dec(data, t, offset) == Ok(Reread(v))
  {
    match t
    case Uint256 => WordValue(v.n);
    case Int256 => WordValue(TwosComplement(v.v));
    case Boolean => WordValue(if v.b then 1 else 0);
    case Address => assert Enc(v, t)[12..] == v.bytes;
    case Bytes32 =>
  }

  lemma {:induction false} ItemDecodes(vs: seq<Value>, ts: seq<Type>, data: seq<byte>, base: nat, k: nat, headAt: nat)
    requires HaveTypes(vs, ts) && k < |vs| && Occurs(EncTuple(vs, ts), data, base) && |data| < SIZE_T
    requires headAt == base + HeadsBefore(ts, k)
    ensures DecItem(data, ts[k], base, headAt) == Ok(Reread(vs[k]))
    decreases vs, 0, 0
  {
    if Dynamic(ts[k]) {
      var tail := TailOffset(vs, ts, k);
      var tailAt := base + tail;
      TailFound(vs, ts, data, base, k, tailAt);
      TailOffsetRead(vs, ts, data, base, k, headAt, tail);
      assert ToSize(tail) == tail;
      DecEnc(vs[k], ts[k], data, tailAt);
    } else {
      HeadFound(vs, ts, data, base, k, headAt, TailOffset(vs, ts, k));
      DecEnc(vs[k], ts[k], data, headAt);
    }
  }

  /** The head of a dynamic component leads to its tail. */
  lemma TailOffsetRead(vs: seq<Value>, ts: seq<Type>, data: seq<byte>, base: nat, k: nat, headAt: nat, tail: nat)
    requires HaveTypes(vs, ts) && k < |vs| && Dynamic(ts[k]) && |data| < SIZE_T
    requires Occurs(EncTuple(vs, ts), data, base)
    requires headAt == base + HeadsBefore(ts, k) && tail == TailOffset(vs, ts, k) && tail < SIZE_T
    ensures ReadWord(data, headAt) == Ok(tail)
  {
    HeadFound(vs, ts, data, base, k, headAt, tail);
    ReadsWord(tail, data, headAt);
  }

  lemma {:induction false} ItemsDecode(vs: seq<Value>, e: Type, data: seq<byte>, base: nat, u: nat)
    requires u <= |vs| && HaveTypes(vs, Times(e, |vs|)) && |data| < SIZE_T
    requires Occurs(EncTuple(vs, Times(e, |vs|)), data, base)
    ensures DecItems(data, e, base, u, |vs|) == Ok(RereadAll(vs[u..]))
    decreases vs, 0, |vs| - u + 1
  {
    if u < |vs| {
      HeadsBeforeOfTimes(e, |vs|, u);
      ItemDecodes(vs, Times(e, |vs|), data, base, u, base + u * Words(e) * WORD);
      ItemsDecode(vs, e, data, base, u + 1);
      assert vs[u..][1..] == vs[u + 1..];
    }
  }

  /** The arguments of a call, from number k on. */
  lemma {:induction false} ArgsDecode(vs: seq<Value>, ts: seq<Type>, data: seq<byte>, k: nat, headAt: nat)
    requires HaveTypes(vs, ts) && k <= |vs| && Occurs(EncTuple(vs, ts), data, 0) && |data| < SIZE_T
    requires headAt == HeadsBefore(ts, k)
    ensures DecArgs(data, ts[k..], headAt) == Ok(RereadAll(vs[k..]))
    decreases |vs| - k
  {
    if k < |vs| {
      ItemDecodes(vs, ts, data, 0, k, headAt);
      HeadsBeforeNext(ts, k);
      ArgsDecode(vs, ts, data, k + 1, headAt + Words(ts[k]) * WORD);
      assert vs[k..][1..] == vs[k + 1..] && ts[k..][1..] == ts[k + 1..];
    }
  }

  lemma {:induction false} HeadsBeforeNext(ts: seq<Type>, k: nat)
    requires k < |ts|
    ensures HeadsBefore(ts, k + 1) == HeadsBefore(ts, k) + Words(ts[k]) * WORD
  {
    if k == 0 {
    } else {
      HeadsBeforeNext(ts[1..], k - 1);
    }
  }

  /** A value is read back unchanged exactly when all its signed numbers are in range. */
  lemma {:induction false} RereadIsSame(v: Value, t: Type)
    requires HasType(v, t)
    ensures Reread(v) == v <==> InSignedRange(v)
    decreases v, 1
  {
    if v.Elements? {
      RereadAllIsSame(v.items, t.element);
    } else if v.Signed? {
      SignedIsRead(v.v);
    }
  }

  lemma {:induction false} RereadAllIsSame(vs: seq<Value>, e: Type)
    requires forall x :: x in vs ==> HasType(x, e)
    ensures RereadAll(vs) == vs <==> forall x :: x in vs ==> InSignedRange(x)
    decreases vs, 0
  {
    if vs == [] {
    } else {
      assert vs[0] in vs;
      RereadIsSame(vs[0], e);
      RereadAllIsSame(vs[1..], e);
      assert vs == [vs[0]] + vs[1..];
      assert RereadAll(vs)[1..] == RereadAll(vs[1..]);
    }
  }

  /** Round trip: what abiIn writes for any arguments, abiOut reads back, up to the sign threshold; and it is the
      same as was written exactly when every signed number in it is at least -7 * 2^252 and below 9 * 2^252. */
  lemma RoundTrip(vs: seq<Value>, ts: seq<Type>)
    requires HaveTypes(vs, ts) && |EncTuple(vs, ts)| < SIZE_T
    ensures DecArgs(EncTuple(vs, ts), ts, 0) == Ok(RereadAll(vs))
    ensures DecArgs(EncTuple(vs, ts), ts, 0) == Ok(vs) <==> forall x :: x in vs ==> InSignedRange(x)
  {
    var data := EncTuple(vs, ts);
    assert data[0..0 + |data|] == data;
    ArgsDecode(vs, ts, data, 0, 0);
    assert vs[0..] == vs && ts[0..] == ts;
    RereadArgs(vs, ts);
  }

  lemma {:induction false} RereadArgs(vs: seq<Value>, ts: seq<Type>)
    requires HaveTypes(vs, ts)
    ensures RereadAll(vs) == vs <==> forall x :: x in vs ==> InSignedRange(x)
    decreases |vs|
  {
    if vs == [] {
    } else {
      RereadIsSame(vs[0], ts[0]);
      RereadArgs(vs[1..], ts[1..]);
      assert vs == [vs[0]] + vs[1..];
      assert RereadAll(vs)[1..] == RereadAll(vs[1..]);
    }
  }

  /** Below the least value that is read back right, the reader gives a large positive number. */
  lemma SignThresholdExample()
    ensures ReadSigned(TwosComplement(-7 * TWO_TO_252 - 1)) == 9 * TWO_TO_252 - 1
  {
  }
}
