/**
 The recursive length prefix encoding (Appendix B of the Ethereum Yellow Paper), as a function on trees
 of byte strings, with the constants of libdevcore/RLP.h.
 */
module Rlp {
  import opened Prelude
  import opened Bytes

  const DATA_IMM_LEN_START := 0x80
  const LIST_START := 0xc0
  const MAX_LENGTH_BYTES := 8
  const IMM_LEN_COUNT := LIST_START - DATA_IMM_LEN_START - MAX_LENGTH_BYTES
  const DATA_IND_LEN_ZERO := DATA_IMM_LEN_START + IMM_LEN_COUNT - 1
  const LIST_IND_LEN_ZERO := LIST_START + IMM_LEN_COUNT - 1
  /** One more than the largest size_t. */
  const SIZE_LIMIT: nat := 0x1_0000_0000_0000_0000

  datatype Item = Data(bytes: seq<byte>) | List(items: seq<Item>)

  /** The bytes in front of a payload of the given length; base is DATA_IMM_LEN_START or LIST_START. A
      length that needs more than eight bytes has no encoding. */
  function Header(base: int, length: nat): (h: Option<seq<byte>>)
    requires base == DATA_IMM_LEN_START || base == LIST_START
    ensures h.Some? ==> 1 <= |h.value| <= 9 && base <= h.value[0] < base + 64
  {
    if length < IMM_LEN_COUNT then Some([base + length])
    else if |BigEndian(length)| <= MAX_LENGTH_BYTES then
      Some([base + IMM_LEN_COUNT - 1 + |BigEndian(length)|] + BigEndian(length))
    else None
  }

  function Encode(i: Item): (e: Option<seq<byte>>)
    ensures e.Some? ==> |e.value| > 0
    decreases i, 0
  {
    match i
    case Data(bs) =>
      if |bs| == 1 && bs[0] < DATA_IMM_LEN_START then Some(bs)
      else Prefixed(DATA_IMM_LEN_START, bs)
    case List(items) =>
      match EncodeAll(items)
      case None => None
      case Some(p) => Prefixed(LIST_START, p)
  }

  function Prefixed(base: int, payload: seq<byte>): (e: Option<seq<byte>>)
    requires base == DATA_IMM_LEN_START || base == LIST_START
    ensures e.Some? ==> |e.value| > |payload|
  {
    match Header(base, |payload|)
    case None => None
    case Some(h) => Some(h + payload)
  }

  /** The encodings of the items, one after the other. */
  function EncodeAll(items: seq<Item>): Option<seq<byte>>
    decreases items, 1
  {
    if items == [] then Some([])
    else
      match (Encode(items[0]), EncodeAll(items[1..]))
      case (Some(e), Some(rest)) => Some(e + rest)
      case _ => None
  }

  /** Lengths that fit in a size_t have a header. */
  lemma HeaderExists(base: int, length: nat)
    requires base == DATA_IMM_LEN_START || base == LIST_START
    ensures Header(base, length).Some? <==> length < SIZE_LIMIT
  {
    BigEndianLength(length, 8);
    assert Pow256(8) == SIZE_LIMIT by { Pow256Of8(); }
  }

  lemma Pow256Of8()
    ensures Pow256(8) == SIZE_LIMIT
  {
    assert Pow256(4) == 0x1_0000_0000;
  }

  lemma {:induction false} EncodeAllAppend(front: seq<Item>, last: Item)
    ensures EncodeAll(front + [last]) ==
            match (EncodeAll(front), Encode(last))
            case (Some(p), Some(e)) => Some(p + e)
            case _ => None
  {
    if front == [] {
      assert front + [last] == [last] && [last][1..] == [];
      if Encode(last).Some? { assert Encode(last).value + [] == [] + Encode(last).value; }
    } else {
      assert (front + [last])[1..] == front[1..] + [last];
      EncodeAllAppend(front[1..], last);
      match (Encode(front[0]), EncodeAll(front[1..]), Encode(last))
      case (Some(a), Some(p), Some(e)) => assert a + (p + e) == a + p + e;
      case _ =>
    }
  }

  /** The bytes are a first byte, then a length in k bytes without a leading zero, then the payload. */
  ghost predicate LongForm(e: seq<byte>, base: int, payload: seq<byte>) {
    exists be: seq<byte> ::
      && 1 <= |be| <= 8 && be[0] != 0 && FromBigEndian(be) == |payload| && 0 <= base + |be| < 0x100
      && e == [base + |be|] + be + payload
  }

  /** The header in numbers: up to 55 bytes of payload one byte, from there on the length of the length, and the
      length. */
  lemma PrefixedBytes(base: int, payload: seq<byte>)
    requires base == 0x80 || base == 0xc0
    ensures |payload| <= 55 ==> Prefixed(base, payload) == Some([base + |payload|] + payload)
    ensures 55 < |payload| < 0x1_0000_0000_0000_0000 ==>
      Prefixed(base, payload).Some? && LongForm(Prefixed(base, payload).value, base + 55, payload)
    ensures |payload| >= 0x1_0000_0000_0000_0000 ==> Prefixed(base, payload) == None
  {
    HeaderExists(base, |payload|);
    if |payload| > 55 {
      var be := BigEndian(|payload|);
      BigEndianNoLeadingZero(|payload|);
      FromToBigEndian(|payload|);
    }
  }

  /** A string: a single byte below 0x80 stands for itself, and others have a header from 0x80 or from 0xb7 on. */
  lemma StringBytes(bs: seq<byte>)
    ensures |bs| == 1 && bs[0] < 0x80 ==> Encode(Data(bs)) == Some(bs)
    ensures |bs| <= 55 && !(|bs| == 1 && bs[0] < 0x80) ==> Encode(Data(bs)) == Some([0x80 + |bs|] + bs)
    ensures 55 < |bs| < 0x1_0000_0000_0000_0000 ==>
      Encode(Data(bs)).Some? && LongForm(Encode(Data(bs)).value, 0xb7, bs)
    ensures |bs| >= 0x1_0000_0000_0000_0000 ==> Encode(Data(bs)) == None
  {
    PrefixedBytes(0x80, bs);
  }

  /** A list: the encodings of its items one after the other, with a header from 0xc0 or from 0xf7 on. */
  lemma ListBytes(items: seq<Item>, p: seq<byte>)
    requires EncodeAll(items) == Some(p)
    ensures |p| <= 55 ==> Encode(List(items)) == Some([0xc0 + |p|] + p)
    ensures 55 < |p| < 0x1_0000_0000_0000_0000 ==>
      Encode(List(items)).Some? && LongForm(Encode(List(items)).value, 0xf7, p)
    ensures |p| >= 0x1_0000_0000_0000_0000 ==> Encode(List(items)) == None
  {
    PrefixedBytes(0xc0, p);
  }

  /** The encodings of the items in order, and none for no items. */
  lemma ItemsBytes(items: seq<Item>)
    ensures EncodeAll([]) == Some([])
    ensures items != [] && Encode(items[0]).Some? && EncodeAll(items[1..]).Some? ==>
      EncodeAll(items) == Some(Encode(items[0]).value + EncodeAll(items[1..]).value)
  {
  }

  /** The list of "cat" and "dog". */
  lemma CatAndDog()
    ensures Encode(List([Data([0x63, 0x61, 0x74]), Data([0x64, 0x6f, 0x67])])) ==
            Some([0xc8, 0x83, 0x63, 0x61, 0x74, 0x83, 0x64, 0x6f, 0x67])
  {
    var cat: seq<byte>, dog: seq<byte> := [0x63, 0x61, 0x74], [0x64, 0x6f, 0x67];
    StringBytes(cat);
    StringBytes(dog);
    var c: seq<byte>, d: seq<byte> := [0x83] + cat, [0x83] + dog;
    var items := [Data(cat), Data(dog)];
    assert items[1..] == [Data(dog)] && [Data(dog)][1..] == [];
    assert EncodeAll([Data(dog)]) == Some(d + []);
    assert EncodeAll(items) == Some(c + (d + []));
    var p: seq<byte> := [0x83, 0x63, 0x61, 0x74, 0x83, 0x64, 0x6f, 0x67];
    assert c + (d + []) == p;
    ListBytes(items, p);
    assert [0xc0 + |p|] + p == [0xc8, 0x83, 0x63, 0x61, 0x74, 0x83, 0x64, 0x6f, 0x67];
  }
}
