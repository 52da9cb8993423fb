/** The strict reader RLP (libdevcore/RLP.cpp, RLP.h), as functions on the bytes it looks at. */
module RlpReader {
  import opened Prelude
  import opened Bytes
  import opened Rlp

  datatype RlpError = BadRLP | UndersizeRLP | OversizeRLP | BadCast

  /** Lengths from here on could overflow a size_t when the payload offset is added. */
  const LENGTH_LIMIT: nat := SIZE_LIMIT - 1 - 0x100

  predicate IsNull(d: seq<byte>) { d == [] }

  predicate IsData(d: seq<byte>) { d != [] && d[0] < LIST_START }

  predicate IsList(d: seq<byte>) { d != [] && d[0] >= LIST_START }

  predicate IsSingleByte(d: seq<byte>) { d != [] && d[0] < DATA_IMM_LEN_START }

  /** requireGood throws exactly when this fails: a byte that stands for itself must not have a prefix. */
  predicate Good(d: seq<byte>) {
    d != [] && (d[0] == DATA_IMM_LEN_START + 1 ==> |d| >= 2 && d[1] >= DATA_IMM_LEN_START)
  }

  function LengthSize(d: seq<byte>): nat {
    if IsData(d) && d[0] > DATA_IND_LEN_ZERO then d[0] - DATA_IND_LEN_ZERO
    else if IsList(d) && d[0] > LIST_IND_LEN_ZERO then d[0] - LIST_IND_LEN_ZERO
    else 0
  }

  function PayloadOffset(d: seq<byte>): nat {
    if IsSingleByte(d) then 0 else 1 + LengthSize(d)
  }

  /** The length held in the n bytes after the first. */
  function LongLength(d: seq<byte>, n: nat): Result<nat, RlpError> {
    if |d| <= n then Err(BadRLP)
    else if |d| > 1 && d[1] == 0 then Err(BadRLP)
    else if n > MAX_LENGTH_BYTES then Err(UndersizeRLP)
    else
      var l := FromBigEndian(d[1..n + 1]);
      if l < IMM_LEN_COUNT then Err(BadRLP)
      else if l >= LENGTH_LIMIT then Err(UndersizeRLP)
      else Ok(l)
  }

  function Length(d: seq<byte>): Result<nat, RlpError> {
    if IsNull(d) then Ok(0)
    else if !Good(d) then Err(BadRLP)
    else
      var n := d[0];
      if n < DATA_IMM_LEN_START then Ok(1)
      else if n <= DATA_IND_LEN_ZERO then Ok(n - DATA_IMM_LEN_START)
      else if n < LIST_START then LongLength(d, n - DATA_IND_LEN_ZERO)
      else if n <= LIST_IND_LEN_ZERO then Ok(n - LIST_START)
      else LongLength(d, n - LIST_IND_LEN_ZERO)
  }

  function ActualSize(d: seq<byte>): Result<nat, RlpError> {
    if IsNull(d) then Ok(0)
    else if IsSingleByte(d) then Ok(1)
    else
      var l :- Length(d);
      Ok(PayloadOffset(d) + l)
  }

  /** The checks of the constructor with ThrowOnFail | FailIfTooSmall: what it throws, or nothing. */
  function OpenLoose(d: seq<byte>): Option<RlpError> {
    match ActualSize(d)
    case Err(e) => Some(e)
    case Ok(n) => if n > |d| then Some(UndersizeRLP) else None
  }

  /** The same with VeryStrict. */
  function OpenStrict(d: seq<byte>): Option<RlpError> {
    match ActualSize(d)
    case Err(e) => Some(e)
    case Ok(n) => if n < |d| then Some(OversizeRLP) else if n > |d| then Some(UndersizeRLP) else None
  }

  function SizeAsEncoded(d: seq<byte>): (r: Result<nat, RlpError>)
    ensures r.Ok? ==> r.value <= |d| && (d != [] ==> r.value > 0)
  {
    match OpenLoose(d)
    case Some(e) => Err(e)
    case None => ActualSize(d)
  }

  function Payload(d: seq<byte>): Result<seq<byte>, RlpError> {
    var l :- Length(d);
    if l > |d| then Err(BadRLP)
    else if PayloadOffset(d) + l <= |d| then Ok(d[PayloadOffset(d)..PayloadOffset(d) + l])
    else Ok([])
  }

  /** Recursive VeryStrict decoding: a list through its items, a string through toBytes. */
  function Decode(d: seq<byte>): Result<Item, RlpError>
    decreases |d|, 1
  {
    match OpenStrict(d)
    case Some(e) => Err(e)
    case None =>
      if IsNull(d) then Err(BadCast)
      else
        var p :- Payload(d);
        if IsData(d) then Ok(Data(p))
        else if |p| < |d| then
          var items :- DecodeAll(p);
          Ok(List(items))
        else Err(BadRLP)
  }

  /** The items of a list payload, decoded one after the other. */
  function DecodeAll(payload: seq<byte>): Result<seq<Item>, RlpError>
    decreases |payload|, 2
  {
    if payload == [] then Ok([])
    else
      var n :- SizeAsEncoded(payload);
      var item :- Decode(payload[..n]);
      var rest :- DecodeAll(payload[n..]);
      Ok([item] + rest)
  }

  /** Every length written in long form is below the limit that the reader enforces. */
  predicate Readable(i: Item) {
    match i
    case Data(bs) => |bs| < LENGTH_LIMIT
    case List(items) =>
      && (EncodeAll(items).Some? ==> |EncodeAll(items).value| < LENGTH_LIMIT)
      && forall k :: 0 <= k < |items| ==> Readable(items[k])
  }

  /** A header in long form: the length bytes are read back. */
  lemma ReadsLongHeader(base: int, length: nat, rest: seq<byte>)
    requires base == DATA_IMM_LEN_START || base == LIST_START
    requires IMM_LEN_COUNT <= length < LENGTH_LIMIT && Header(base, length).Some?
    ensures var h := Header(base, length).value;
      && Length(h + rest) == Ok(length) && LengthSize(h + rest) + 1 == |h|
      && (IsData(h + rest) <==> base == DATA_IMM_LEN_START)
  {
    var be := BigEndian(length);
    var d := Header(base, length).value + rest;
    assert d[0] == base + IMM_LEN_COUNT - 1 + |be|;
    assert d[1..|be| + 1] == be;
    FromToBigEndian(length);
    BigEndianNoLeadingZero(length);
    assert d[1] == be[0];
    assert LongLength(d, |be|) == Ok(length);
  }

  /** What the reader finds at the front of bytes that start with a header and its payload. */
  lemma ReadsHeader(base: int, payload: seq<byte>, rest: seq<byte>)
    requires base == DATA_IMM_LEN_START || base == LIST_START
    requires Prefixed(base, payload).Some? && |payload| < LENGTH_LIMIT
    requires base == DATA_IMM_LEN_START && |payload| == 1 ==> payload[0] >= DATA_IMM_LEN_START
    ensures var d := Prefixed(base, payload).value + rest;
      && Length(d) == Ok(|payload|) && PayloadOffset(d) == |Header(base, |payload|).value|
      && !IsNull(d) && !IsSingleByte(d) && (IsData(d) <==> base == DATA_IMM_LEN_START)
      && Payload(d) == Ok(payload) && ActualSize(d) == Ok(|Prefixed(base, payload).value|)
  {
    var h := Header(base, |payload|).value;
    var d := Prefixed(base, payload).value + rest;
    assert d == h + (payload + rest);
    assert d[|h|..|h| + |payload|] == payload;
    if |payload| < IMM_LEN_COUNT {
      assert d[0] == base + |payload|;
    } else {
      ReadsLongHeader(base, |payload|, payload + rest);
    }
  }

  /** A length that is accepted in long form is written the one way that Header writes it. */
  lemma LongLengthIsRead(d: seq<byte>, base: int, n: nat)
    requires base == DATA_IMM_LEN_START || base == LIST_START
    requires n > 0 && LongLength(d, n).Ok? && d[0] == base + IMM_LEN_COUNT - 1 + n
    ensures Header(base, LongLength(d, n).value) == Some(d[..1 + n])
  {
    var be := d[1..n + 1];
    assert be[0] == d[1];
    ToFromBigEndian(be);
    assert d[..1 + n] == [d[0]] + be;
  }

  lemma PayloadIsRead(d: seq<byte>)
    requires d != [] && ActualSize(d).Ok? && ActualSize(d).value <= |d|
    ensures var l, o := Length(d), PayloadOffset(d);
      && l.Ok? && o + l.value == ActualSize(d).value && Payload(d) == Ok(d[o..o + l.value])
  {
    if IsSingleByte(d) { assert Good(d); }
  }

  /** Conversely, whatever the reader accepts as a prefix is the one header for that length. */
  lemma HeaderIsRead(d: seq<byte>)
    requires d != [] && !IsSingleByte(d) && ActualSize(d).Ok? && ActualSize(d).value <= |d|
    ensures Payload(d).Ok?
    ensures var p, base := Payload(d).value, if IsData(d) then DATA_IMM_LEN_START else LIST_START;
      && Prefixed(base, p) == Some(d[..ActualSize(d).value]) && |p| < LENGTH_LIMIT
      && (IsData(d) && |p| == 1 ==> p[0] >= DATA_IMM_LEN_START)
  {
    PayloadIsRead(d);
    var base := if IsData(d) then DATA_IMM_LEN_START else LIST_START;
    var p, l := Payload(d).value, LengthSize(d);
    assert d[..ActualSize(d).value] == d[..1 + l] + p;
    if l == 0 {
      assert d[..1] == [base + |p|];
    } else {
      LongLengthIsRead(d, base, l);
    }
  }

  /** Reading the front of a longer byte string sees only the first item. */
  lemma EncodedFront(i: Item, rest: seq<byte>)
    requires Encode(i).Some? && Readable(i)
    ensures SizeAsEncoded(Encode(i).value + rest) == Ok(|Encode(i).value|)
  {
    match i
    case Data(bs) =>
      if |bs| == 1 && bs[0] < DATA_IMM_LEN_START {
      } else {
        ReadsHeader(DATA_IMM_LEN_START, bs, rest);
      }
    case List(items) =>
      ReadsHeader(LIST_START, EncodeAll(items).value, rest);
  }

  /** Decoding an encoding gives the tree back. */
  lemma {:induction false} DecodeEncoded(i: Item)
    requires Encode(i).Some? && Readable(i)
    ensures Decode(Encode(i).value) == Ok(i)
    decreases i, 0
  {
    var d := Encode(i).value;
    assert d + [] == d;
    match i
    case Data(bs) =>
      if |bs| == 1 && bs[0] < DATA_IMM_LEN_START {
        assert d[0..1] == bs;
      } else {
        ReadsHeader(DATA_IMM_LEN_START, bs, []);
      }
    case List(items) =>
      ReadsHeader(LIST_START, EncodeAll(items).value, []);
      DecodeAllEncoded(items);
  }

  lemma {:induction false} DecodeAllEncoded(items: seq<Item>)
    requires EncodeAll(items).Some? && forall k :: 0 <= k < |items| ==> Readable(items[k])
    ensures DecodeAll(EncodeAll(items).value) == Ok(items)
    decreases items, 1
  {
    if items == [] {
    } else {
      var e, rest := Encode(items[0]).value, EncodeAll(items[1..]).value;
      EncodedFront(items[0], rest);
      assert (e + rest)[..|e|] == e && (e + rest)[|e|..] == rest;
      DecodeEncoded(items[0]);
      DecodeAllEncoded(items[1..]);
      assert items == [items[0]] + items[1..];
    }
  }

  /** Whatever is accepted is the encoding of what it decodes to. */
  lemma {:induction false} DecodedEncodes(d: seq<byte>)
    requires Decode(d).Ok?
    ensures Encode(Decode(d).value) == Some(d) && Readable(Decode(d).value)
    decreases |d|, 1
  {
    if IsSingleByte(d) {
      assert d[0..1] == d;
    } else {
      HeaderIsRead(d);
      assert d[..ActualSize(d).value] == d;
      if !IsData(d) { DecodedAllEncodes(Payload(d).value); }
    }
  }

  lemma {:induction false} DecodedAllEncodes(p: seq<byte>)
    requires DecodeAll(p).Ok?
    ensures EncodeAll(DecodeAll(p).value) == Some(p)
    ensures forall k :: 0 <= k < |DecodeAll(p).value| ==> Readable(DecodeAll(p).value[k])
    decreases |p|, 2
  {
    if p == [] {
    } else {
      var n := SizeAsEncoded(p).value;
      DecodedEncodes(p[..n]);
      DecodedAllEncodes(p[n..]);
      assert p == p[..n] + p[n..];
      var items := DecodeAll(p).value;
      assert items[1..] == DecodeAll(p[n..]).value;
    }
  }

  /** The reader is the exact inverse of the encoding: a byte string decodes to a tree if and only if it is
      the encoding of that tree and the tree is within the length limit. */
  lemma DecodeIsInverse(d: seq<byte>, i: Item)
    ensures Decode(d) == Ok(i) <==> Encode(i) == Some(d) && Readable(i)
  {
    if Decode(d) == Ok(i) { DecodedEncodes(d); }
    if Encode(i) == Some(d) && Readable(i) { DecodeEncoded(i); }
  }

  /** The first byte of an integer is not zero; isInt, with what it throws. */
  function IsInt(d: seq<byte>): Result<bool, RlpError> {
    if IsNull(d) then Ok(false)
    else if !Good(d) then Err(BadRLP)
    else
      var n := d[0];
      if n < DATA_IMM_LEN_START then Ok(n != 0)
      else if n == DATA_IMM_LEN_START then Ok(true)
      else if n <= DATA_IND_LEN_ZERO then
        if |d| <= 1 then Err(BadRLP) else Ok(d[1] != 0)
      else if n < LIST_START then
        if |d| <= 1 + n - DATA_IND_LEN_ZERO then Err(BadRLP) else Ok(d[1 + n - DATA_IND_LEN_ZERO] != 0)
      else Ok(false)
  }

  /** toInt with the flags Strict, for an integer type of at most maxSize bytes. */
  function ToInt(d: seq<byte>, maxSize: nat): Result<nat, RlpError> {
    if !Good(d) then Err(BadRLP)
    else
      var isInt :- IsInt(d);
      if !isInt || IsList(d) || IsNull(d) then Err(BadCast)
      else
        var p :- Payload(d);
        if |p| > maxSize then Err(BadCast) else Ok(FromBigEndian(p))
  }

  lemma IntegersAreData(d: seq<byte>)
    requires OpenStrict(d).None? && d != []
    ensures Good(d) && Payload(d).Ok?
    ensures var p := Payload(d).value;
      && IsInt(d) == Ok(IsData(d) && (p == [] || p[0] != 0))
      && (IsData(d) ==> Decode(d) == Ok(Data(p)))
      && (IsList(d) ==> !Decode(d).Ok? || Decode(d).value.List?)
  {
    PayloadIsRead(d);
  }

  /** The strings without a leading zero stand for exactly one number each. */
  lemma ShortestForm(p: seq<byte>, x: nat)
    ensures (p == [] || p[0] != 0) && FromBigEndian(p) == x <==> p == BigEndian(x)
  {
    FromToBigEndian(x);
    BigEndianNoLeadingZero(x);
    if p == [] || p[0] != 0 { ToFromBigEndian(p); }
  }

  /** An integer is read from its own encoding and from no other byte string. */
  lemma ToIntExact(d: seq<byte>, maxSize: nat, x: nat)
    requires OpenStrict(d).None?
    ensures ToInt(d, maxSize) == Ok(x) <==>
            && Encode(Data(BigEndian(x))) == Some(d) && Readable(Data(BigEndian(x)))
            && |BigEndian(x)| <= maxSize
  {
    DecodeIsInverse(d, Data(BigEndian(x)));
    if d != [] {
      IntegersAreData(d);
      ShortestForm(Payload(d).value, x);
      IntegerIsRead(d, maxSize, x);
    }
  }

  lemma IntegerIsRead(d: seq<byte>, maxSize: nat, x: nat)
    requires d != [] && Good(d) && Payload(d).Ok?
    requires var p := Payload(d).value; IsInt(d) == Ok(IsData(d) && (p == [] || p[0] != 0))
    ensures var p := Payload(d).value;
      ToInt(d, maxSize) == Ok(x) <==>
      IsData(d) && (p == [] || p[0] != 0) && |p| <= maxSize && FromBigEndian(p) == x
  {}

  /** The encoding is injective. */
  lemma EncodeInjective(i: Item, j: Item)
    requires Encode(i).Some? && Encode(i) == Encode(j) && Readable(i) && Readable(j)
    ensures i == j
  {
    DecodeEncoded(i);
    DecodeEncoded(j);
  }

  /** The first byte in numbers: what it stands for, how many bytes of length follow it, and when they are accepted. */
  lemma FirstByteRead(d: seq<byte>)
    requires d != []
    ensures d[0] < 0x80 ==> Length(d) == Ok(1) && PayloadOffset(d) == 0
    ensures 0x80 <= d[0] <= 0xb7 ==> PayloadOffset(d) == 1
    ensures 0x80 <= d[0] <= 0xb7 ==>
      Length(d) == if d[0] == 0x81 && (|d| < 2 || d[1] < 0x80) then Err(BadRLP) else Ok(d[0] - 0x80)
    ensures 0xb8 <= d[0] <= 0xbf ==> ReadsLong(d, d[0] - 0xb7)
    ensures 0xc0 <= d[0] <= 0xf7 ==> Length(d) == Ok(d[0] - 0xc0) && PayloadOffset(d) == 1
    ensures 0xf8 <= d[0] ==> ReadsLong(d, d[0] - 0xf7)
    ensures IsList(d) <==> d[0] >= 0xc0
  {
  }

  /** The next k bytes are a length, which must be above 55, have no leading zero, and leave room in a size_t. */
  predicate ReadsLong(d: seq<byte>, k: nat)
    requires k > 0
  {
    && PayloadOffset(d) == 1 + k
    && (Length(d).Ok? <==> |d| > k && d[1] != 0 && 55 < FromBigEndian(d[1..k + 1]) < 0xffff_ffff_ffff_feff)
    && (Length(d).Ok? ==> Length(d).value == FromBigEndian(d[1..k + 1]))
  }
}
