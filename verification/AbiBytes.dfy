/** What an encoded argument is byte by byte (libethcore/ABI.cpp; the Contract ABI Specification). */
module AbiBytes {
  import opened Prelude
  import opened Bytes
  import opened Abi
  import opened AbiRoundTrip

  lemma {:induction false} ZerosInFront(k: nat, bs: seq<byte>)
    ensures FromBigEndian(Zeros(k) + bs) == FromBigEndian(bs)
  {
    if k == 0 {
      assert Zeros(0) + bs == bs;
    } else {
      ZerosInFront(k - 1, bs);
      FirstByteIsHighest(0, Zeros(k - 1) + bs);
      assert Zeros(k) + bs == [0] + (Zeros(k - 1) + bs);
    }
  }

  /** The 32 bytes of an unsigned number, of a truth value, of an address and of a signed number stand for that number,
      in two's complement for the last. */
  lemma ScalarsAreNumbers(v: Value, t: Type)
    requires HasType(v, t) && (t.Uint256? || t.Int256? || t.Boolean? || t.Address? || t.Bytes32?)
    ensures |Enc(v, t)| == 32
    ensures t.Uint256? ==> FromBigEndian(Enc(v, t)) == v.n
    ensures t.Int256? && v.v >= 0 ==> FromBigEndian(Enc(v, t)) == v.v
    ensures t.Int256? && v.v < 0 ==>
      FromBigEndian(Enc(v, t)) - v.v ==
        0x1_0000_0000_0000_0000_0000_0000_0000_0000_0000_0000_0000_0000_0000_0000_0000_0000
    ensures t.Boolean? ==> FromBigEndian(Enc(v, t)) == One(v.b)
    ensures t.Address? ==> FromBigEndian(Enc(v, t)) == FromBigEndian(v.bytes) && Enc(v, t)[12..] == v.bytes
    ensures t.Bytes32? ==> Enc(v, t) == v.bytes
  {
    match t
    case Uint256 => WordValue(v.n);
    case Int256 => WordValue(TwosComplement(v.v));
    case Boolean => WordValue(One(v.b));
    case Address => ZerosInFront(12, v.bytes);
    case _ =>
  }

  /** A string is its length in 32 bytes, its bytes, and zeros up to a multiple of 32. */
  lemma StringIsFilled(v: Value)
    requires HasType(v, String)
    ensures var e, n := Enc(v, String), |v.bytes|;
      && |e| % 32 == 0 && 32 + n <= |e| < 32 + n + 32
      && FromBigEndian(e[..32]) == n && e[32..32 + n] == v.bytes
      && forall i :: 32 + n <= i < |e| ==> e[i] == 0
  {
    var e, n := Enc(v, String), |v.bytes|;
    WordValue(n);
    assert e[..32] == Word(n);
    FilledUp(n);
    assert e == Word(n) + v.bytes + Zeros(Padding(n));
  }

  lemma FilledUp(n: nat)
    ensures 0 <= Padding(n) < 32 && (32 + n + Padding(n)) % 32 == 0
  {
  }

  /** An array of fixed length is its elements as a tuple, and a vector has their number in front. */
  lemma ElementsAreTuples(v: Value, e: Type, n: nat)
    requires v.Elements? && |v.items| == n && forall x :: x in v.items ==> HasType(x, e)
    ensures HasType(v, Array(e, n)) ==> Enc(v, Array(e, n)) == EncTuple(v.items, Times(e, n))
    ensures HasType(v, Vector(e)) ==> |Enc(v, Vector(e))| == 32 + |EncTuple(v.items, Times(e, n))|
    ensures HasType(v, Vector(e)) ==> FromBigEndian(Enc(v, Vector(e))[..32]) == n
    ensures HasType(v, Vector(e)) ==> Enc(v, Vector(e))[32..] == EncTuple(v.items, Times(e, n))
  {
    if HasType(v, Vector(e)) { WordValue(n); }
  }

  /** The heads of the arguments and their tails, one argument more in front. */
  lemma OneMore(v: Value, t: Type, vs: seq<Value>, ts: seq<Type>, next: nat, n: nat)
    requires HasType(v, t) && HaveTypes(vs, ts) && n == next + |Tail(v, t)|
    ensures HaveTypes([v] + vs, [t] + ts) && HeadSize([t] + ts) == Words(t) * 32 + HeadSize(ts)
    ensures Heads([v] + vs, [t] + ts, next) == Head(v, t, next) + Heads(vs, ts, n)
    ensures Tails([v] + vs, [t] + ts) == Tail(v, t) + Tails(vs, ts)
  {
    assert ([v] + vs)[1..] == vs && ([t] + ts)[1..] == ts;
  }

  lemma LastOne(v: Value, t: Type, next: nat)
    requires HasType(v, t)
    ensures HaveTypes([v], [t]) && HeadSize([t]) == Words(t) * 32
    ensures Heads([v], [t], next) == Head(v, t, next) && Tails([v], [t]) == Tail(v, t)
  {
    assert [v][1..] == [] && [t][1..] == [];
    assert Head(v, t, next) + [] == Head(v, t, next) && Tail(v, t) + [] == Tail(v, t);
  }

  lemma ThreeOf(a: Value, b: Value, c: Value, s: Type, t: Type, u: Type, next: nat, m: nat, n: nat)
    requires HasType(a, s) && HasType(b, t) && HasType(c, u)
    requires m == next + |Tail(a, s)| && n == m + |Tail(b, t)|
    ensures HaveTypes([a, b, c], [s, t, u]) && HeadSize([s, t, u]) == Words(s) * 32 + Words(t) * 32 + Words(u) * 32
    ensures Heads([a, b, c], [s, t, u], next) == Head(a, s, next) + (Head(b, t, m) + Head(c, u, n))
    ensures Tails([a, b, c], [s, t, u]) == Tail(a, s) + (Tail(b, t) + Tail(c, u))
  {
    TwoOf(b, c, t, u, m, n);
    OneMore(a, s, [b, c], [t, u], next, m);
    assert [a] + [b, c] == [a, b, c] && [s] + [t, u] == [s, t, u];
  }

  lemma TwoOf(b: Value, c: Value, t: Type, u: Type, m: nat, n: nat)
    requires HasType(b, t) && HasType(c, u) && n == m + |Tail(b, t)|
    ensures HaveTypes([b, c], [t, u]) && HeadSize([t, u]) == Words(t) * 32 + Words(u) * 32
    ensures Heads([b, c], [t, u], m) == Head(b, t, m) + Head(c, u, n)
    ensures Tails([b, c], [t, u]) == Tail(b, t) + Tail(c, u)
  {
    LastOne(c, u, n);
    OneMore(b, t, [c], [u], m, n);
    assert [b] + [c] == [b, c] && [t] + [u] == [t, u];
  }

  /** Three arguments, of which the second is one static word: the first tail begins behind the heads, at 0x60. */
  lemma ThreeArguments(a: Value, b: Value, c: Value, s: Type, t: Type, u: Type, start: nat, at: nat)
    requires HasType(a, s) && HasType(b, t) && HasType(c, u) && Dynamic(s) && !Dynamic(t) && Words(t) == 1 && Dynamic(u)
    requires start == 0x60 && at == start + |Enc(a, s)|
    ensures HaveTypes([a, b, c], [s, t, u])
    ensures EncTuple([a, b, c], [s, t, u]) == Word(start) + Enc(b, t) + Word(at) + Enc(a, s) + Enc(c, u)
  {
    ThreeOf(a, b, c, s, t, u, start, at, at);
    Regroup(Word(start), Enc(b, t), Word(at), Enc(a, s), Enc(c, u));
  }

  lemma Regroup(v: seq<byte>, w: seq<byte>, x: seq<byte>, y: seq<byte>, z: seq<byte>)
    ensures v + (w + x) + (y + ([] + z)) == v + w + x + y + z
  {
  }

  /** Three unsigned numbers. */
  lemma ThreeNumbers(vs: seq<Value>, ts: seq<Type>, a: Value, b: Value, c: Value)
    requires HasType(a, Uint256) && HasType(b, Uint256) && HasType(c, Uint256)
    requires vs == [a, b, c] && ts == [Uint256, Uint256, Uint256]
    ensures HaveTypes(vs, ts) && EncTuple(vs, ts) == Word(a.n) + Word(b.n) + Word(c.n)
  {
    var next: nat := 0x60;
    ThreeOf(a, b, c, Uint256, Uint256, Uint256, next, next, next);
    StaticTails(vs, ts);
    NoTails(Word(a.n), Word(b.n), Word(c.n));
  }

  lemma NoTails(x: seq<byte>, y: seq<byte>, z: seq<byte>)
    ensures x + (y + z) + [] == x + y + z
  {
  }

  /** The arguments "dave", true and [1, 2, 3]: the heads are the offset 0x60, 1 and the offset 0xa0; then come the
      string and the vector. */
  lemma Dave(dave: Value, truth: Value, numbers: Value)
    requires dave == Raw([0x64, 0x61, 0x76, 0x65]) && truth == Truth(true)
    requires numbers == Elements([Unsigned(1), Unsigned(2), Unsigned(3)])
    ensures HaveTypes([dave, truth, numbers], [String, Boolean, Vector(Uint256)])
    ensures EncTuple([dave, truth, numbers], [String, Boolean, Vector(Uint256)]) ==
      Word(0x60) + Word(1) + Word(0xa0) + Enc(dave, String) + Enc(numbers, Vector(Uint256))
    ensures Enc(dave, String) == Word(4) + [0x64, 0x61, 0x76, 0x65] + Zeros(28)
    ensures Enc(numbers, Vector(Uint256)) == Word(3) + (Word(1) + Word(2) + Word(3))
  {
    var start: nat, at: nat := 0x60, 0xa0;
    assert Padding(4) == 28;
    var ts := Times(Uint256, 3);
    ThreeNumbers(numbers.items, ts, numbers.items[0], numbers.items[1], numbers.items[2]);
    ThreeArguments(dave, truth, numbers, String, Boolean, Vector(Uint256), start, at);
  }
}
