/** The Solidity contract ABI (the Formal Specification of the Encoding in the Contract ABI Specification), as
    functions on typed values, and what the reader of libethcore/ABI.h makes of a byte string. */
module Abi {
  import opened Prelude
  import opened Bytes

  const WORD: nat := 32
  const TWO_TO_256: int := 0x1_0000_0000_0000_0000_0000_0000_0000_0000_0000_0000_0000_0000_0000_0000_0000_0000
  const SIZE_T: nat := 0x1_0000_0000_0000_0000

  /** The C++ types: string stands for std::string and bytes, Array for std::array, Vector for std::vector. */
  datatype Type =
    | Uint256 | Int256 | Boolean | Address | Bytes32 | String
    | Array(element: Type, count: nat)
    | Vector(element: Type)

  datatype Value =
    | Unsigned(n: nat)
    | Signed(v: int)
    | Truth(b: bool)
    | Raw(bytes: seq<byte>)
    | Elements(items: seq<Value>)

  datatype AbiError = InvalidOffset

  /** ABIDynamicType. */
  predicate Dynamic(t: Type) {
    match t
    case String => true
    case Vector(_) => true
    case Array(e, _) => Dynamic(e)
    case _ => false
  }

  /** Length: the words that a value takes where it stands, its head. */
  function Words(t: Type): nat {
    if t.Array? && !Dynamic(t) then t.count * Words(t.element) else 1
  }

  function Times(t: Type, n: nat): (ts: seq<Type>)
    ensures |ts| == n && forall k :: 0 <= k < n ==> ts[k] == t
  {
    seq(n, _ => t)
  }

  /** The values that the C++ types can hold. */
  predicate HasType(v: Value, t: Type)
    decreases v
  {
    match t
    case Uint256 => v.Unsigned? && v.n < TWO_TO_256
    case Int256 => v.Signed? && -TWO_TO_256 < v.v < TWO_TO_256
    case Boolean => v.Truth?
    case Address => v.Raw? && |v.bytes| == 20
    case Bytes32 => v.Raw? && |v.bytes| == 32
    case String => v.Raw? && |v.bytes| < SIZE_T
    case Array(e, n) => n > 0 && v.Elements? && |v.items| == n && forall x :: x in v.items ==> HasType(x, e)
    case Vector(e) => v.Elements? && |v.items| < SIZE_T && forall x :: x in v.items ==> HasType(x, e)
  }

  ghost predicate HaveTypes(vs: seq<Value>, ts: seq<Type>) {
    |vs| == |ts| && forall k :: 0 <= k < |vs| ==> HasType(vs[k], ts[k])
  }

  /** h256(n): a number in 32 bytes. */
  function Word(n: nat): (bs: seq<byte>)
    ensures |bs| == WORD
  {
    Fixed(n, WORD)
  }

  /** A signed number in two's complement. */
  function TwosComplement(v: int): nat
    requires -TWO_TO_256 < v < TWO_TO_256
  {
    if v < 0 then v + TWO_TO_256 else v
  }

  function Zeros(n: nat): (bs: seq<byte>)
    ensures |bs| == n
  {
    seq(n, _ => 0)
  }

  /** The number of zeros that fill the last word. */
  function Padding(n: nat): nat {
    (n + 31) / WORD * WORD - n
  }

  /** enc of the specification. */
  function Enc(v: Value, t: Type): seq<byte>
    requires HasType(v, t)
    decreases v, 2
  {
    match t
    case Uint256 => Word(v.n)
    case Int256 => Word(TwosComplement(v.v))
    case Boolean => Word(if v.b then 1 else 0)
    case Address => Zeros(12) + v.bytes
    case Bytes32 => v.bytes
    case String => Word(|v.bytes|) + v.bytes + Zeros(Padding(|v.bytes|))
    case Array(e, n) => EncTuple(v.items, Times(e, n))
    case Vector(e) => Word(|v.items|) + EncTuple(v.items, Times(e, |v.items|))
  }

  /** The heads of all components, then the tails of the dynamic ones. */
  function EncTuple(vs: seq<Value>, ts: seq<Type>): seq<byte>
    requires HaveTypes(vs, ts)
    decreases vs, 1
  {
    Heads(vs, ts, HeadSize(ts)) + Tails(vs, ts)
  }

  function HeadSize(ts: seq<Type>): nat {
    if ts == [] then 0 else Words(ts[0]) * WORD + HeadSize(ts[1..])
  }

  /** The head of a component whose tail, if it has one, starts at `next`. */
  function Head(v: Value, t: Type, next: nat): seq<byte>
    requires HasType(v, t)
    decreases v, 3
  {
    if Dynamic(t) then Word(next) else Enc(v, t)
  }

  function Tail(v: Value, t: Type): seq<byte>
    requires HasType(v, t)
    decreases v, 3
  {
    if Dynamic(t) then Enc(v, t) else []
  }

  function Heads(vs: seq<Value>, ts: seq<Type>, next: nat): seq<byte>
    requires HaveTypes(vs, ts)
    decreases vs, 0
  {
    if vs == [] then []
    else Head(vs[0], ts[0], next) + Heads(vs[1..], ts[1..], next + |Tail(vs[0], ts[0])|)
  }

  function Tails(vs: seq<Value>, ts: seq<Type>): seq<byte>
    requires HaveTypes(vs, ts)
    decreases vs, 0
  {
    if vs == [] then []
    else Tail(vs[0], ts[0]) + Tails(vs[1..], ts[1..])
  }

  /** The word at an offset; validOffset throws past the end. */
  function ReadWord(data: seq<byte>, offset: nat): Result<nat, AbiError> {
    if offset + WORD - 1 >= |data| then Err(InvalidOffset) else Ok(FromBigEndian(data[offset..offset + WORD]))
  }

  /** Words above this are taken for negative numbers. */
  const SIGN_THRESHOLD: nat := 0x8fff_ffff_ffff_ffff_ffff_ffff_ffff_ffff_ffff_ffff_ffff_ffff_ffff_ffff_ffff_ffff

  function ReadSigned(u: nat): int {
    if u > SIGN_THRESHOLD 
    then -(0xffff_ffff_ffff_ffff_ffff_ffff_ffff_ffff_ffff_ffff_ffff_ffff_ffff_ffff_ffff_ffff - u + 1)
    else u
  }

  /** static_cast to size_t. */
  function ToSize(n: nat): nat {
    n % SIZE_T
  }

  /** The value of one word. */
  function Scalar(t: Type, word: seq<byte>): Value
    requires |word| == WORD
  {
    if t.Uint256? then Unsigned(FromBigEndian(word))
    else if t.Int256? then Signed(ReadSigned(FromBigEndian(word)))
    else if t.Boolean? then Truth(FromBigEndian(word) > 0)
    else if t.Address? then Raw(word[12..])
    else Raw(word)
  }

  /** What the reader finds at an offset. */
  function Dec(data: seq<byte>, t: Type, offset: nat): Result<Value, AbiError>
    decreases t, 0, 0
  {
    match t
    case Array(e, n) =>
      var items :- DecItems(data, e, offset, 0, n);
      Ok(Elements(items))
    case Vector(e) =>
      var length :- ReadWord(data, offset);
      var items :- DecItems(data, e, offset + WORD, 0, ToSize(length));
      Ok(Elements(items))
    case String =>
      var length :- ReadWord(data, offset);
      if offset + WORD + ToSize(length) - 1 >= |data| then Err(InvalidOffset)
      else Ok(Raw(data[offset + WORD..offset + WORD + ToSize(length)]))
    case _ =>
      if offset + WORD - 1 >= |data| then Err(InvalidOffset) else Ok(Scalar(t, data[offset..offset + WORD]))
  }

  /** The component with its head at headAt, in a tuple that starts at base. */
  function DecItem(data: seq<byte>, t: Type, base: nat, headAt: nat): Result<Value, AbiError>
    decreases t, 1, 0
  {
    if Dynamic(t) then
      var tail :- ReadWord(data, headAt);
      Dec(data, t, base + ToSize(tail))
    else Dec(data, t, headAt)
  }

  /** The elements u, u + 1, ... of an array of n. */
  function DecItems(data: seq<byte>, e: Type, base: nat, u: nat, n: nat): Result<seq<Value>, AbiError>
    decreases e, 2, n - u
  {
    if u >= n then Ok([])
    else
      var item :- DecItem(data, e, base, base + u * Words(e) * WORD);
      var rest :- DecItems(data, e, base, u + 1, n);
      Ok([item] + rest)
  }

  /** The arguments of a call, the next head at headAt. */
  function DecArgs(data: seq<byte>, ts: seq<Type>, headAt: nat): Result<seq<Value>, AbiError>
    decreases |ts|
  {
    if ts == [] then Ok([])
    else
      var item :- DecItem(data, ts[0], 0, headAt);
      var rest :- DecArgs(data, ts[1..], headAt + Words(ts[0]) * WORD);
      Ok([item] + rest)
  }

  /** The value with every signed number replaced by what the reader makes of it. */
  function Reread(v: Value): Value
    decreases v, 0
  {
    match v
    case Signed(x) => Signed(if -TWO_TO_256 < x < TWO_TO_256 then ReadSigned(TwosComplement(x)) else x)
    case Elements(items) => Elements(RereadAll(items))
    case _ => v
  }

  function RereadAll(vs: seq<Value>): (rs: seq<Value>)
    ensures |rs| == |vs|
    decreases vs, 1
  {
    if vs == [] then [] else [Reread(vs[0])] + RereadAll(vs[1..])
  }

  /** Every signed number in the value lies in the range that the reader understands. */
  predicate InSignedRange(v: Value)
    decreases v
  {
    match v
    case Signed(x) => -7 * TWO_TO_252 <= x < 9 * TWO_TO_252
    case Elements(items) => forall i :: i in items ==> InSignedRange(i)
    case _ => true
  }

  const TWO_TO_252: nat := 0x1000_0000_0000_0000_0000_0000_0000_0000_0000_0000_0000_0000_0000_0000_0000_0000
}
