/** Driving an RLPStream with a tree writes the recursive definition of the encoding. */
module RlpWriter {
  import opened Prelude
  import opened Bytes
  import opened Rlp
  import opened RlpStream

  /** Every byte string of the tree has a length that is a size_t. */
  predicate SizesFit(i: Item) {
    match i
    case Data(bs) => |bs| < SIZE_LIMIT
    case List(items) => forall k :: 0 <= k < |items| ==> SizesFit(items[k])
  }

  /** What a stream becomes, or which exception it throws, when one complete encoded item is appended. */
  function Appended(s: Stream, e: seq<byte>): Result<Stream, StreamError>
    requires WellNested(s)
  {
    Noted(s.(out := s.out + e), 1)
  }

  lemma {:induction false} EncodeAllPrefix(items: seq<Item>, k: nat)
    requires k <= |items| && EncodeAll(items[..k]).None?
    ensures EncodeAll(items).None?
    decreases |items|
  {
    if k == |items| {
      assert items[..k] == items;
    } else {
      var front, last := items[..|items| - 1], items[|items| - 1];
      assert front[..k] == items[..k] && items == front + [last];
      EncodeAllPrefix(front, k);
      EncodeAllAppend(front, last);
    }
  }

  /** The open list with k of its items written. */
  function Partly(s: Stream, payload: seq<byte>, left: nat): Stream {
    Stream(s.out + payload, s.stack + [(left, |s.out|)])
  }

  /** Any item but the last of an open list only lowers that list's count. */
  lemma AppendedInside(s: Stream, p: seq<byte>, left: nat, e: seq<byte>)
    requires WellNested(s) && left > 1
    ensures WellNested(Partly(s, p, left)) && Appended(Partly(s, p, left), e) == Ok(Partly(s, p + e, left - 1))
  {
    assert s.out + p + e == s.out + (p + e);
    assert (s.stack + [(left, |s.out|)])[|s.stack| := (left - 1, |s.out|)] == s.stack + [(left - 1, |s.out|)];
  }

  /** The last item closes the list: its header goes in front, and the list counts as one item outside. */
  lemma AppendedLast(s: Stream, p: seq<byte>, e: seq<byte>)
    requires WellNested(s)
    ensures WellNested(Partly(s, p, 1))
    ensures Appended(Partly(s, p, 1), e) ==
            match Prefixed(LIST_START, p + e)
            case None => Err(CountTooLarge)
            case Some(l) => Appended(s, l)
  {
    var t := Stream(s.out + p + e, s.stack + [(1, |s.out|)]);
    assert t.out[..|s.out|] == s.out && t.out[|s.out|..] == p + e;
    assert t.stack[..|t.stack| - 1] == s.stack;
  }

  lemma EmptyList(i: Item)
    requires i.List? && i.items == []
    ensures Encode(i) == Some([LIST_START])
  {
    var payload: seq<byte> := [];
    assert EncodeAll(i.items) == Some(payload);
    assert Header(LIST_START, 0) == Some([LIST_START]);
    assert [LIST_START] + payload == [LIST_START];
    assert Prefixed(LIST_START, payload) == Some([LIST_START]);
  }

  /** appendList(n) followed by its n items, recursively. */
  method WriteItem(stream: RLPStream, i: Item) returns (r: Option<StreamError>)
    requires WellNested(stream.State()) && SizesFit(i)
    modifies stream
    ensures Encode(i).None? ==> r.Some?
    ensures Encode(i).Some? ==>
      match Appended(old(stream.State()), Encode(i).value)
      case Ok(s) => r == None && stream.State() == s
      case Err(e) => r == Some(e)
    ensures r.None? ==> WellNested(stream.State())
    decreases i
  {
    match i
    case Data(bs) => r := stream.Append(bs, false);
    case List(items) =>
      ghost var s := stream.State();
      r := stream.AppendList(|items|);
      if items == [] {
        EmptyList(i);
        return;
      }
      ghost var p: seq<byte> := [];
      assert items[..0] == [];
      assert stream.State() == Partly(s, p, |items|);
      for k := 0 to |items|
        invariant r.None?
        invariant k < |items| ==>
          && EncodeAll(items[..k]) == Some(p)
          && WellNested(stream.State()) && stream.State() == Partly(s, p, |items| - k)
        invariant k == |items| ==>
          && EncodeAll(items) == Some(p)
          && match Prefixed(LIST_START, p)
             case None => false
             case Some(l) => Appended(s, l) == Ok(stream.State()) && WellNested(stream.State())
      {
        assert items[..k + 1] == items[..k] + [items[k]];
        EncodeAllAppend(items[..k], items[k]);
        if Encode(items[k]).None? { EncodeAllPrefix(items, k + 1); }
        else if k + 1 < |items| { AppendedInside(s, p, |items| - k, Encode(items[k]).value); }
        else { AppendedLast(s, p, Encode(items[k]).value); assert items[..k + 1] == items; }
        r := WriteItem(stream, items[k]);
        if r.Some? { return; }
        p := p + Encode(items[k]).value;
      }
  }

  /** rlp(item): on a new stream, the list stack is empty again at the end and the output is the encoding. */
  method Write(i: Item) returns (r: Result<seq<byte>, StreamError>)
    requires SizesFit(i)
    ensures Encode(i).Some? ==> r == Ok(Encode(i).value)
    ensures Encode(i).None? ==> r.Err?
  {
    var stream := new RLPStream();
    var e := WriteItem(stream, i);
    if e.Some? { return Err(e.value); }
    assert Encode(i).Some? ==> [] + Encode(i).value == Encode(i).value;
    r := stream.Out();
  }
}
