/** Walking over the items of a list (libdevcore/RLP.cpp): operator[] with its cache, items and toList. */
module RlpCursor {
  import opened Prelude
  import opened Bytes
  import opened Rlp
  import opened RlpReader

  /** The bytes of the items of a list, up to the end or to the first bytes that do not start an item. */
  datatype Cutting = Cutting(items: seq<seq<byte>>, tail: seq<byte>)

  function Prepend(item: seq<byte>, c: Cutting): Cutting {
    Cutting([item] + c.items, c.tail)
  }

  function Cut(payload: seq<byte>): (c: Cutting)
    ensures |c.items| <= |payload|
    ensures forall k :: 0 <= k < |c.items| ==> c.items[k] != []
  {
    if payload == [] || SizeAsEncoded(payload).Err? then Cutting([], payload)
    else
      var n := SizeAsEncoded(payload).value;
      Prepend(payload[..n], Cut(payload[n..]))
  }

  /** An item that is opened loosely is exact once it is cut off. */
  lemma FrontIsStrict(d: seq<byte>)
    requires SizeAsEncoded(d).Ok?
    ensures OpenStrict(d[..SizeAsEncoded(d).value]).None?
  {
    var n := SizeAsEncoded(d).value;
    var f := d[..n];
    if d != [] && !IsSingleByte(d) {
      PayloadIsRead(d);
      assert f[0] == d[0];
      assert |d| > 1 && n > 1 ==> f[1] == d[1];
      var k := LengthSize(d);
      if k > 0 {
        assert f[1..k + 1] == d[1..k + 1];
        assert LongLength(f, k) == LongLength(d, k);
      }
    }
  }

  lemma {:induction false} CutEncoded(items: seq<Item>)
    requires EncodeAll(items).Some? && forall k :: 0 <= k < |items| ==> Readable(items[k])
    ensures var c := Cut(EncodeAll(items).value);
      && c.tail == [] && |c.items| == |items|
      && forall k :: 0 <= k < |items| ==> Encode(items[k]) == Some(c.items[k])
  {
    if items == [] {
    } else {
      var e, rest := Encode(items[0]).value, EncodeAll(items[1..]).value;
      EncodedFront(items[0], rest);
      assert (e + rest)[..|e|] == e && (e + rest)[|e|..] == rest;
      CutEncoded(items[1..]);
      var c := Cut(rest);
      assert Cut(EncodeAll(items).value) == Cutting([e] + c.items, c.tail);
      forall k | 0 <= k < |items|
        ensures Encode(items[k]) == Some(([e] + c.items)[k])
      {
        if k > 0 { assert items[k] == items[1..][k - 1]; }
      }
    }
  }

  /** In the encoding of a list the reader finds the encodings of its items, and nothing else. */
  lemma EncodedListItems(items: seq<Item>)
    requires Encode(List(items)).Some? && Readable(List(items))
    ensures var p := Payload(Encode(List(items)).value);
      && p.Ok? && Cut(p.value).tail == []
      && |Cut(p.value).items| == |items|
      && forall k :: 0 <= k < |items| ==> Encode(items[k]) == Some(Cut(p.value).items[k])
  {
    var d := Encode(List(items)).value;
    assert d + [] == d;
    ReadsHeader(LIST_START, EncodeAll(items).value, []);
    CutEncoded(items);
  }

  /** Where item number k of the payload starts. */
  ghost function Start(w: Cutting, k: nat): nat
    requires k <= |w.items|
  {
    if k == 0 then 0 else Start(w, k - 1) + |w.items[k - 1]|
  }

  lemma {:induction false} CutAt(p: seq<byte>, k: nat)
    requires k <= |Cut(p).items|
    ensures Start(Cut(p), k) <= |p|
    ensures Cut(p[Start(Cut(p), k)..]) == Cutting(Cut(p).items[k..], Cut(p).tail)
  {
    if k == 0 {
      assert p[0..] == p && Cut(p).items[0..] == Cut(p).items;
    } else {
      CutAt(p, k - 1);
      var rest := p[Start(Cut(p), k - 1)..];
      var n := SizeAsEncoded(rest).value;
      assert Cut(rest).items[0] == rest[..n] && Cut(rest).items[1..] == Cut(rest[n..]).items;
      assert rest[n..] == p[Start(Cut(p), k)..];
    }
  }

  /** What is at the front of a payload: an item, or the end, or bytes that are no item. */
  lemma FrontItem(p: seq<byte>)
    ensures var w, n := Cut(p), SizeAsEncoded(p);
      if w.items != [] then
        && n == Ok(|w.items[0]|) && p[..n.value] == w.items[0] && OpenStrict(w.items[0]).None?
      else
        && p == w.tail && (p == [] ==> n == Ok(0)) && (p != [] ==> n.Err? && OpenLoose(p).Some?)
  {
    if SizeAsEncoded(p).Ok? { FrontIsStrict(p); }
  }

  /** What follows the first k items. */
  lemma ItemAt(p: seq<byte>, k: nat)
    requires k <= |Cut(p).items|
    ensures var w, s := Cut(p), Start(Cut(p), k);
      && s <= |p| && (k == |w.items| ==> p[s..] == w.tail)
      && var n := SizeAsEncoded(p[s..]);
         if k < |w.items| then
           && n == Ok(|w.items[k]|) && p[s..][..n.value] == w.items[k] != []
           && OpenStrict(w.items[k]).None?
         else if w.tail == [] then n == Ok(0)
         else n.Err? && OpenLoose(w.tail).Some?
  {
    CutAt(p, k);
    var w, s := Cut(p), Start(Cut(p), k);
    FrontItem(p[s..]);
    if k < |w.items| { assert Cut(p[s..]).items[0] == w.items[k]; }
  }

  /** The item is number k and ends at e, or is empty behind the last one. */
  ghost predicate IsItem(w: Cutting, k: nat, e: nat, item: seq<byte>) {
    && k <= |w.items|
    && if k < |w.items| then item == w.items[k] != [] && e == Start(w, k + 1)
       else item == w.tail == [] && e == Start(w, k)
  }

  /** Reads item number k, which starts at s: the item and the bytes from there on. */
  method ReadAt(p: seq<byte>, s: nat, ghost k: nat) returns (item: Result<seq<byte>, RlpError>, rest: seq<byte>)
    requires k <= |Cut(p).items| && s == Start(Cut(p), k)
    ensures if item.Ok? then IsItem(Cut(p), k, s + |item.value|, item.value)
      else k == |Cut(p).items| && rest == Cut(p).tail != []
  {
    ItemAt(p, k);
    rest := if s <= |p| then p[s..] else [];
    var n :- SizeAsEncoded(rest);
    return Ok(rest[..n]), rest;
  }

  class RLP {
    const data: seq<byte>
    var lastIndex: nat
    var lastEnd: nat
    var lastItem: seq<byte>

    constructor (d: seq<byte>)
      ensures data == d && Fresh()
    {
      data := d;
      lastIndex, lastEnd, lastItem := SIZE_LIMIT - 1, 0, [];
    }

    /** The bytes of the items, as far as they can be read. */
    ghost function Walk(): Cutting {
      if Payload(data).Ok? then Cut(Payload(data).value) else Cutting([], [0])
    }

    /** The cache has never been filled. */
    ghost predicate Fresh()
      reads this
    {
      lastIndex == SIZE_LIMIT - 1 && lastEnd == 0 && lastItem == []
    }

    /** A lookup past the readable items threw, and left what it could not read in the cache. */
    ghost predicate Stuck()
      reads this
    {
      && Payload(data).Ok? && lastIndex == |Walk().items| - 1 && lastEnd == Start(Walk(), lastIndex + 1)
      && lastItem == Walk().tail != []
    }

    /** The cache holds item number lastIndex, or is past the end of a well-formed list. */
    ghost predicate Filled()
      reads this
    {
      Payload(data).Ok? && IsItem(Walk(), lastIndex, lastEnd, lastItem)
    }

    ghost predicate Valid()
      reads this
    {
      Fresh() || Stuck() || Filled()
    }

    /** Goes back to item 0. */
    method Rewind() returns (r: Result<bool, RlpError>)
      requires Valid()
      modifies this
      ensures if Walk().items == [] && Walk().tail != [] then
          r.Err? && lastIndex == old(lastIndex) && lastEnd == old(lastEnd) && lastItem == old(lastItem)
        else r.Ok? && Filled() && lastIndex == 0
    {
      var p :- Payload(data);
      ItemAt(p, 0);
      assert p[0..] == p;
      var n :- SizeAsEncoded(p);
      lastEnd := n;
      lastItem := p[..n];
      lastIndex := 0;
      assert Start(Walk(), 0) == 0;
      return Ok(true);
    }

    /** Goes on to the next item. */
    method Advance() returns (r: Result<bool, RlpError>)
      requires (Filled() || Stuck()) && lastItem != []
      modifies this
      ensures if lastIndex == |Walk().items| - 1 && old(lastIndex) == lastIndex then r.Err? && Stuck()
        else r.Ok? && Filled() && lastIndex == old(lastIndex) + 1
    {
      var p := Payload(data).value;
      ghost var next := lastIndex + 1;
      var item;
      item, lastItem := ReadAt(p, lastEnd, next);
      if item.Err? { return Err(item.error); }
      var end := lastEnd + |item.value|;
      lastItem, lastEnd, lastIndex := item.value, end, lastIndex + 1;
      return Ok(true);
    }

    /** What the cache holds can be opened, unless it is stuck. */
    lemma CacheOpens()
      requires Valid()
      ensures OpenLoose(lastItem).Some? <==> Stuck()
      ensures Stuck() <==> !Fresh() && !Filled()
    {
      if Stuck() {
        ItemAt(Payload(data).value, lastIndex + 1);
        ItemAt(Payload(data).value, lastIndex);
      } else if Filled() {
        ItemAt(Payload(data).value, lastIndex);
      }
    }

    /** operator[]. For a well-formed list this is the item at that place, or null, whatever was looked up
        before. For a malformed one a lookup past the readable items throws, and from then on a lookup of
        the last readable item throws too, until an earlier item is looked up. */
    method Index(i: nat) returns (r: Result<seq<byte>, RlpError>)
      requires Valid() && i < SIZE_LIMIT
      modifies this
      ensures Valid()
      ensures old(Fresh()) && i == SIZE_LIMIT - 1 ==> r == Ok([]) && Fresh()
      ensures !(old(Fresh()) && i == SIZE_LIMIT - 1) ==>
        var w := Walk();
        if i < |w.items| && !(old(Stuck()) && i == |w.items| - 1) then r == Ok(w.items[i]) && !Stuck()
        else if w.tail == [] then r == Ok([]) && !Stuck()
        else r.Err? && (Stuck() <==> w.items != [])
    {
      if i < lastIndex {
        var _ :- Rewind();
        CacheOpens();
      }
      while lastIndex < i && lastItem != []
        invariant Valid() && lastIndex <= i
        invariant Fresh() ==> old(Fresh()) && i == SIZE_LIMIT - 1
        invariant Stuck() ==> old(Stuck()) && lastIndex == old(lastIndex)
        invariant !Stuck() && old(Stuck()) ==> i < |Walk().items| - 1
        decreases i - lastIndex
      {
        var _ :- Advance();
        CacheOpens();
      }
      CacheOpens();
      match OpenLoose(lastItem) {
        case Some(e) => return Err(e);
        case None => return Ok(lastItem);
      }
    }

    /** items, where itemCount and itemCountStrict have made sure that this is a list: the number of items. */
    method Items() returns (r: Result<nat, RlpError>)
      ensures if IsList(data) && Walk().tail != [] then r.Err?
        else r == Ok(if IsList(data) then |Walk().items| else 0)
    {
      if !IsList(data) { return Ok(0); }
      var d :- Payload(data);
      var i := 0;
      while d != []
        invariant Cut(d).tail == Walk().tail && i + |Cut(d).items| == |Walk().items|
      {
        FrontItem(d);
        var n :- SizeAsEncoded(d);
        d := d[n..];
        i := i + 1;
      }
      return Ok(i);
    }

    /** toList. The iterator's end is the place behind the data, so a readable list must not have bytes behind it:
        the loop then goes on for ever, by IteratorEnds. */
    method ToList() returns (r: Result<seq<seq<byte>>, RlpError>)
      requires IsList(data) ==> OpenLoose(data).None? && (Walk().tail == [] ==> OpenStrict(data).None?)
      ensures if !IsList(data) then r == Err(BadCast)
        else if Walk().tail != [] then r.Err?
        else r == Ok(Walk().items)
    {
      if !IsList(data) { return Err(BadCast); }
      PayloadIsRead(data);
      r := Iterate(Payload(data).value, PayloadOffset(data), |data|);
    }
  }

  /** The bytes c2 01 82 are exactly a list by the strict rules, with an item that cannot be read behind the first. */
  const MALFORMED: seq<byte> := [0xc2, 0x01, 0x82]

  lemma MalformedIsOpened()
    ensures OpenStrict(MALFORMED).None? && IsList(MALFORMED)
    ensures Payload(MALFORMED) == Ok([0x01, 0x82]) && Cut([0x01, 0x82]) == Cutting([[0x01]], [0x82])
  {
    var p: seq<byte> := [0x01, 0x82];
    assert MALFORMED[1..3] == p;
    assert p[..1] == [0x01] && p[1..] == [0x82];
    assert SizeAsEncoded(p) == Ok(1) && SizeAsEncoded(p[1..]).Err?;
    assert Cut(p[1..]) == Cutting([], p[1..]);
  }

  /** No null past the end: the first lookup finds item 0, the one past it throws, and then item 0 is not found. */
  method LookMalformedUp()
    returns (a: Result<seq<byte>, RlpError>, b: Result<seq<byte>, RlpError>, c: Result<seq<byte>, RlpError>)
    ensures OpenStrict(MALFORMED).None? && a == Ok([0x01]) && b.Err? && c.Err?
  {
    MalformedIsOpened();
    var r := new RLP(MALFORMED);
    a := r.Index(0);
    b := r.Index(1);
    c := r.Index(0);
  }

  /** RLP::iterator: the place and the bytes of the current item, and the m_remaining bytes that follow it. */
  datatype Iterator = Iterator(at: nat, current: seq<byte>, rest: seq<byte>)

  function Begin(payload: seq<byte>, offset: nat): Result<Iterator, RlpError> {
    var n :- SizeAsEncoded(payload);
    Ok(Iterator(offset, payload[..n], payload[n..]))
  }

  /** operator++. */
  function Next(it: Iterator): Result<Iterator, RlpError> {
    if it.rest == [] then Ok(Iterator(it.at + |it.current|, [], []))
    else
      var n :- SizeAsEncoded(it.rest);
      Ok(Iterator(it.at + |it.current|, it.rest[..n], it.rest[n..]))
  }

  /** The place behind all data, with nothing there. */
  predicate AtEnd(it: Iterator, end: nat) {
    it.at == end && it.current == []
  }

  /** After k steps. */
  function After(first: Result<Iterator, RlpError>, k: nat): Result<Iterator, RlpError> {
    if k == 0 then first else Stepped(After(first, k - 1))
  }

  function Stepped(r: Result<Iterator, RlpError>): Result<Iterator, RlpError> {
    var it :- r;
    Next(it)
  }

  /** Step k of the iterator: item number k, or nothing behind the last one, or an exception. */
  ghost predicate AtItem(w: Cutting, end: nat, k: nat, r: Result<Iterator, RlpError>) {
    if k < |w.items| then r.Ok? && AtSome(w, end, k, r.value)
    else if w.tail != [] then r.Err?
    else r == Ok(Iterator(end, [], []))
  }

  ghost predicate AtSome(w: Cutting, end: nat, k: nat, it: Iterator)
    requires k < |w.items|
  {
    && it.current == w.items[k] != [] && Cut(it.rest) == Cutting(w.items[k + 1..], w.tail)
    && it.at + |it.current| + |it.rest| == end
  }

  lemma FirstStep(payload: seq<byte>, offset: nat)
    ensures AtItem(Cut(payload), offset + |payload|, 0, Begin(payload, offset))
  {
    FrontItem(payload);
    if Cut(payload).items != [] { CutRest(payload); }
  }

  lemma NextStep(w: Cutting, end: nat, k: nat, n: nat, it: Iterator)
    requires k < |w.items| && n == k + 1 && AtSome(w, end, k, it)
    ensures AtItem(w, end, n, Next(it))
  {
    var p := it.rest;
    FrontItem(p);
    if n < |w.items| {
      assert Cut(p).items[0] == w.items[n] && w.items[n..][1..] == w.items[n + 1..];
      CutRest(p);
    }
  }

  lemma CutRest(p: seq<byte>)
    requires Cut(p).items != []
    ensures SizeAsEncoded(p).Ok?
    ensures Cut(p[SizeAsEncoded(p).value..]) == Cutting(Cut(p).items[1..], Cut(p).tail)
  {
  }

  lemma {:induction false} IteratorAt(w: Cutting, end: nat, first: Result<Iterator, RlpError>, k: nat)
    requires AtItem(w, end, 0, first)
    ensures AtItem(w, end, k, After(first, k))
  {
    if k == 0 {
    } else {
      IteratorAt(w, end, first, k - 1);
      StepOn(w, end, k - 1, k, After(first, k - 1));
    }
  }

  lemma StepOn(w: Cutting, end: nat, k: nat, n: nat, r: Result<Iterator, RlpError>)
    requires n == k + 1 && AtItem(w, end, k, r)
    ensures AtItem(w, end, n, Stepped(r))
  {
    if k < |w.items| { NextStep(w, end, k, n, r.value); }
  }

  /** The loop stops behind the last item. */
  lemma StopsAt(w: Cutting, last: nat, k: nat, it: Iterator, end: nat)
    requires k <= |w.items| && AtItem(w, last, k, Ok(it)) && (w.tail == [] ==> last == end)
    ensures AtEnd(it, end) <==> k == |w.items|
    ensures k < |w.items| ==> it.current == w.items[k]
    ensures k == |w.items| ==> w.tail == []
  {
  }

  /** From begin() to end(). Opening the item when it is read throws nothing: FrontItem. */
  method Iterate(payload: seq<byte>, offset: nat, end: nat) returns (r: Result<seq<seq<byte>>, RlpError>)
    requires Cut(payload).tail == [] ==> offset + |payload| == end
    ensures if Cut(payload).tail != [] then r.Err? else r == Ok(Cut(payload).items)
  {
    FirstStep(payload, offset);
    var it :- Begin(payload, offset);
    r := ReadItems(it, end, Cut(payload), offset + |payload|);
  }

  method ReadItems(first: Iterator, end: nat, ghost w: Cutting, ghost last: nat)
    returns (r: Result<seq<seq<byte>>, RlpError>)
    requires AtItem(w, last, 0, Ok(first)) && (w.tail == [] ==> last == end)
    ensures if w.tail != [] then r.Err? else r == Ok(w.items)
  {
    var ret, it := [], first;
    ghost var k := 0;
    StopsAt(w, last, k, it, end);
    while !AtEnd(it, end)
      invariant Reading(w, last, k, it, end) && ret == w.items[..k]
      decreases |w.items| - k
    {
      ghost var next := k + 1;
      ReadOne(w, last, k, next, it, end);
      ret, k := ret + [it.current], next;
      it :- Next(it);
    }
    assert w.items[..k] == w.items;
    return Ok(ret);
  }

  ghost predicate Reading(w: Cutting, last: nat, k: nat, it: Iterator, end: nat) {
    && k <= |w.items| && AtItem(w, last, k, Ok(it)) && (w.tail == [] ==> last == end)
    && (AtEnd(it, end) <==> k == |w.items|) && (k == |w.items| ==> w.tail == [])
  }

  lemma ReadOne(w: Cutting, last: nat, k: nat, next: nat, it: Iterator, end: nat)
    requires k < |w.items| && next == k + 1 && Reading(w, last, k, it, end)
    ensures w.items[..next] == w.items[..k] + [it.current]
    ensures if Next(it).Ok? then Reading(w, last, next, Next(it).value, end) else w.tail != []
  {
    NextStep(w, last, k, next, it);
    if Next(it).Ok? { StopsAt(w, last, next, Next(it).value, end); }
  }

  /** The iterator comes to end() or throws exactly when an item cannot be read or nothing follows the list. */
  lemma IteratorEnds(payload: seq<byte>, offset: nat, end: nat, first: Result<Iterator, RlpError>)
    requires first == Begin(payload, offset)
    ensures (exists k :: After(first, k).Err? || AtEnd(After(first, k).value, end)) <==>
            Cut(payload).tail != [] || offset + |payload| == end
  {
    FirstStep(payload, offset);
    EndsFrom(Cut(payload), offset + |payload|, first, end);
  }

  lemma EndsFrom(w: Cutting, last: nat, first: Result<Iterator, RlpError>, end: nat)
    requires AtItem(w, last, 0, first)
    ensures (exists k :: After(first, k).Err? || AtEnd(After(first, k).value, end)) ==> w.tail != [] || last == end
    ensures (exists k :: After(first, k).Err? || AtEnd(After(first, k).value, end)) <== w.tail != [] || last == end
  {
    if k: nat :| After(first, k).Err? || AtEnd(After(first, k).value, end) { IteratorAt(w, last, first, k); }
    var n := |w.items|;
    IteratorAt(w, last, first, n);
    assert After(first, n).Err? || After(first, n).value.at == last;
  }

  /** A list with a byte behind it, c1 01 02, can be opened without FailIfTooBig; going through it throws nothing and
      never comes to the end. */
  lemma EndlessExample()
    ensures var d: seq<byte> := [0xc1, 0x01, 0x02];
      IsList(d) && OpenLoose(d).None? && Payload(d) == Ok(d[1..2]) && PayloadOffset(d) == 1
    ensures var first := Begin([0x01], 1);
      forall k :: After(first, k).Ok? && !AtEnd(After(first, k).value, 3)
  {
    var d: seq<byte>, p: seq<byte> := [0xc1, 0x01, 0x02], [0x01];
    assert d[1..2] == p && p[..1] == p && p[1..] == [];
    assert SizeAsEncoded(p) == Ok(1);
    assert Cut(p).tail == [];
    IteratorEnds(p, 1, 3, Begin(p, 1));
  }
}
