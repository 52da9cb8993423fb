/** The class ContractABI of libethcore/ABI.h, ABI.cpp. */
module ContractAbi {
  import opened Prelude
  import opened Bytes
  import opened Abi
  import opened AbiRoundTrip

  /** serialise. */
  method Serialise(v: Value, t: Type) returns (r: seq<byte>)
    requires HasType(v, t)
    ensures r == Enc(v, t)
    decreases v, 1
  {
    match t
    case Uint256 => r := Word(v.n);
    case Int256 => r := Word(TwosComplement(v.v));
    case Boolean => r := Word(if v.b then 1 else 0);
    case Address => r := Zeros(12) + v.bytes;
    case Bytes32 => r := v.bytes;
    case String =>
      r := Word(|v.bytes|);
      r := r + Zeros((|v.bytes| + 31) / WORD * WORD);
      r := r[..WORD] + v.bytes + r[WORD + |v.bytes|..];
      assert Zeros((|v.bytes| + 31) / WORD * WORD)[|v.bytes|..] == Zeros(Padding(|v.bytes|));
    case Array(e, n) =>
      var offsets, content := SerialiseElements(v.items, e);
      r := offsets + content;
    case Vector(e) =>
      var offsets, content := SerialiseElements(v.items, e);
      r := Word(|v.items|) + offsets + content;
      assert Word(|v.items|) + offsets + content == Word(|v.items|) + (offsets + content);
  }

  /** What the loop over elements keeps: the heads and tails that are still missing. */
  ghost predicate Pending(vs: seq<Value>, ts: seq<Type>, k: nat, heads: seq<byte>, tails: seq<byte>, next: nat)
    requires HaveTypes(vs, ts) && k <= |vs|
  {
    && heads + Heads(vs[k..], ts[k..], next) == Heads(vs, ts, HeadSize(ts))
    && tails + Tails(vs[k..], ts[k..]) == Tails(vs, ts)
  }

  lemma PendingStarts(vs: seq<Value>, ts: seq<Type>)
    requires HaveTypes(vs, ts)
    ensures Pending(vs, ts, 0, [], [], HeadSize(ts))
  {
    assert vs[0..] == vs && ts[0..] == ts;
  }

  lemma PendingNext(vs: seq<Value>, ts: seq<Type>, k: nat, heads: seq<byte>, tails: seq<byte>, next: nat)
    requires HaveTypes(vs, ts) && k < |vs| && Pending(vs, ts, k, heads, tails, next)
    ensures Pending(vs, ts, k + 1, heads + Head(vs[k], ts[k], next), tails + Tail(vs[k], ts[k]),
                    next + |Tail(vs[k], ts[k])|)
  {
    var head, tail, after := Head(vs[k], ts[k], next), Tail(vs[k], ts[k]), next + |Tail(vs[k], ts[k])|;
    var us, ss := vs[k..], ts[k..];
    assert us[1..] == vs[k + 1..] && ss[1..] == ts[k + 1..];
    assert heads + (head + Heads(us[1..], ss[1..], after)) == heads + head + Heads(us[1..], ss[1..], after);
    assert tails + (tail + Tails(us[1..], ss[1..])) == tails + tail + Tails(us[1..], ss[1..]);
  }

  lemma PendingEnds(vs: seq<Value>, ts: seq<Type>, heads: seq<byte>, tails: seq<byte>, next: nat)
    requires HaveTypes(vs, ts) && Pending(vs, ts, |vs|, heads, tails, next)
    ensures heads + tails == EncTuple(vs, ts)
  {
  }

  /** The loops of serialise for arrays and vectors: offsets only when the elements are dynamic. */
  method SerialiseElements(items: seq<Value>, e: Type) returns (offsets: seq<byte>, content: seq<byte>)
    requires forall x :: x in items ==> HasType(x, e)
    ensures offsets + content == EncTuple(items, Times(e, |items|))
    decreases items, 0
  {
    offsets, content := [], [];
    var length := |items| * WORD;
    ghost var ts := Times(e, |items|);
    ghost var heads: seq<byte>, tails: seq<byte>, next: nat := [], [], HeadSize(ts);
    PendingStarts(items, ts);
    HeadSizeOfTimes(e, |items|);
    DynamicHead(e);
    for k := 0 to |items|
      invariant Pending(items, ts, k, heads, tails, next)
      invariant heads == (if Dynamic(e) then offsets else content) && tails == if Dynamic(e) then content else []
      invariant if Dynamic(e) then next == length else offsets == []
    {
      PendingNext(items, ts, k, heads, tails, next);
      var out := Serialise(items[k], e);
      content := content + out;
      if Dynamic(e) {
        offsets := offsets + Word(length);
        length := length + |out|;
        heads, tails, next := offsets, content, length;
      } else {
        assert tails + [] == [];
        heads := content;
      }
    }
    PendingEnds(items, ts, heads, tails, next);
    assert heads + tails == offsets + content;
  }

  /** What the reading loops keep: the values read so far, and those still to be read. */
  function After(done: seq<Value>, rest: Result<seq<Value>, AbiError>): Result<seq<Value>, AbiError> {
    if rest.Ok? then Ok(done + rest.value) else rest
  }

  lemma AfterNothing(rest: Result<seq<Value>, AbiError>)
    ensures After([], rest) == rest
  {
    if rest.Ok? { assert [] + rest.value == rest.value; }
  }

  lemma AfterNext(done: seq<Value>, item: Value, rest: Result<seq<Value>, AbiError>)
    ensures After(done + [item], rest) == After(done, if rest.Ok? then Ok([item] + rest.value) else rest)
  {
    if rest.Ok? { assert done + [item] + rest.value == done + ([item] + rest.value); }
  }

  /** ContractABI: the buffers that abiIn fills, and the data that abiOut reads. */
  class ContractABI {
    var offset: nat
    var head: seq<byte>
    var tail: seq<byte>
    var data: seq<byte>

    constructor ()
      ensures offset == 0 && head == [] && tail == [] && data == []
    {
      offset, head, tail, data := 0, [], [], [];
    }

    /** abiIn: four bytes of the hash of the signature, if there is one, and the encoded arguments. */
    method AbiIn(h: string -> seq<byte>, sig: string, vs: seq<Value>, ts: seq<Type>) returns (r: seq<byte>)
      requires HaveTypes(vs, ts) && |h(sig)| == 32
      modifies `offset, `head, `tail
      ensures r == (if sig == "" then [] else h(sig)[..4]) + EncTuple(vs, ts)
    {
      offset := HeadSize(ts);
      head, tail := [], [];
      PendingStarts(vs, ts);
      AbiInAux(vs, ts, 0);
      PendingEnds(vs, ts, head, tail, offset);
      r := if sig == "" then head + tail else h(sig)[..4] + head + tail;
      assert h(sig)[..4] + head + tail == h(sig)[..4] + (head + tail);
      assert [] + (head + tail) == head + tail;
    }

    /** abiInAux: the arguments from number k on, one after the other. */
    method AbiInAux(vs: seq<Value>, ts: seq<Type>, k: nat)
      requires HaveTypes(vs, ts) && k <= |vs| && Pending(vs, ts, k, head, tail, offset)
      modifies `offset, `head, `tail
      ensures Pending(vs, ts, |vs|, head, tail, offset)
      decreases |vs| - k
    {
      if k == |vs| { return; }
      PendingNext(vs, ts, k, head, tail, offset);
      var out := Serialise(vs[k], ts[k]);
      if Dynamic(ts[k]) {
        tail := tail + out;
        head := head + Word(offset);
        offset := offset + |out|;
      } else {
        head := head + out;
        assert old(tail) + [] == tail;
      }
      AbiInAux(vs, ts, k + 1);
    }

    /** deserialise. */
    method Deserialise(t: Type, at: nat) returns (r: Result<Value, AbiError>)
      ensures r == Dec(data, t, at)
      decreases t, 1
    {
      match t
      case Array(e, n) =>
        var items :- DeserialiseElements(e, at, n);
        return Ok(Elements(items));
      case Vector(e) =>
        var length :- ReadWord(data, at);
        var items :- DeserialiseElements(e, at + WORD, ToSize(length));
        return Ok(Elements(items));
      case String =>
        var length :- ReadWord(data, at);
        if at + WORD + ToSize(length) - 1 >= |data| { return Err(InvalidOffset); }
        return Ok(Raw(data[at + WORD..at + WORD + ToSize(length)]));
      case _ =>
        if at + WORD - 1 >= |data| { return Err(InvalidOffset); }
        return Ok(Scalar(t, data[at..at + WORD]));
    }

    /** The loops of deserialise for arrays and vectors. */
    method DeserialiseElements(e: Type, base: nat, n: nat) returns (r: Result<seq<Value>, AbiError>)
      ensures r == DecItems(data, e, base, 0, n)
      decreases e, 3
    {
      var items: seq<Value> := [];
      AfterNothing(DecItems(data, e, base, 0, n));
      for u := 0 to n
        invariant After(items, DecItems(data, e, base, u, n)) == DecItems(data, e, base, 0, n)
      {
        var item :- DeserialiseElement(e, base, base + u * Words(e) * WORD);
        AfterNext(items, item, DecItems(data, e, base, u + 1, n));
        items := items + [item];
      }
      assert items + [] == items;
      return Ok(items);
    }

    /** The body of those loops. */
    method DeserialiseElement(e: Type, base: nat, headAt: nat) returns (r: Result<Value, AbiError>)
      ensures r == DecItem(data, e, base, headAt)
      decreases e, 2
    {
      var thisOffset := base;
      if Dynamic(e) {
        var elementOffset :- ReadWord(data, headAt);
        thisOffset := thisOffset + ToSize(elementOffset);
      } else {
        thisOffset := headAt;
      }
      r := Deserialise(e, thisOffset);
    }

    /** abiOut; an exception makes it fail. */
    method AbiOut(bytes: seq<byte>, ts: seq<Type>) returns (r: Result<seq<Value>, AbiError>)
      modifies `data, `offset
      ensures r == DecArgs(bytes, ts, 0)
    {
      data := bytes;
      offset := 0;
      r := AbiOutAux(ts);
    }

    /** abiOutAux: one argument after the other. */
    method AbiOutAux(ts: seq<Type>) returns (r: Result<seq<Value>, AbiError>)
      modifies `offset
      ensures r == DecArgs(data, ts, old(offset))
      decreases |ts|
    {
      if ts == [] { return Ok([]); }
      var at := offset;
      if Dynamic(ts[0]) {
        var dynamicOffset :- ReadWord(data, offset);
        at := ToSize(dynamicOffset);
      }
      var item :- Deserialise(ts[0], at);
      offset := offset + Words(ts[0]) * WORD;
      var rest :- AbiOutAux(ts[1..]);
      return Ok([item] + rest);
    }
  }

  /** abiIn and then abiOut: the arguments come back, except for signed numbers outside the range of the sign
      threshold. */
  method ThereAndBack(abi: ContractABI, h: string -> seq<byte>, vs: seq<Value>, ts: seq<Type>)
    returns (r: Result<seq<Value>, AbiError>)
    requires HaveTypes(vs, ts) && |EncTuple(vs, ts)| < SIZE_T && |h("")| == 32
    modifies abi
    ensures r == Ok(vs) <==> forall x :: x in vs ==> InSignedRange(x)
  {
    var bytes := abi.AbiIn(h, "", vs, ts);
    assert [] + EncTuple(vs, ts) == EncTuple(vs, ts);
    r := abi.AbiOut(bytes, ts);
    RoundTrip(vs, ts);
  }
}
