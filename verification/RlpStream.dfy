/**
 RLPStream (libdevcore/RLP.cpp, RLP.h): payloads are written first; when the last item of a list has been
 appended, its header is inserted in front by shifting the bytes already written, which may in turn
 complete the enclosing list.
 */
module RlpStream {
  import opened Prelude
  import opened Bytes
  import opened Rlp

  datatype StreamError = ItemCountTooLarge | CountTooLarge | ListStackNotEmpty

  /** An open list: items still to come, and where its payload starts. */
  type Frame = (nat, nat)

  datatype Stream = Stream(out: seq<byte>, stack: seq<Frame>)

  /** Open lists start inside the output, inner ones not before outer ones. */
  ghost predicate WellNested(s: Stream) {
    && (forall i :: 0 <= i < |s.stack| ==> s.stack[i].1 <= |s.out|)
    && forall i, j :: 0 <= i < j < |s.stack| ==> s.stack[i].1 <= s.stack[j].1
  }

  /** What remains after `count` complete items have been appended: every list they complete gets its
      header, innermost first. */
  function Noted(s: Stream, count: nat): Result<Stream, StreamError>
    requires WellNested(s)
    decreases |s.stack|
  {
    if count == 0 || s.stack == [] then Ok(s)
    else
      var (rem, p) := s.stack[|s.stack| - 1];
      if rem < count then Err(ItemCountTooLarge)
      else if rem > count then Ok(s.(stack := s.stack[|s.stack| - 1 := (rem - count, p)]))
      else
        match Prefixed(LIST_START, s.out[p..])
        case None => Err(CountTooLarge)
        case Some(e) => Noted(Stream(s.out[..p] + e, s.stack[..|s.stack| - 1]), 1)
  }

  function WithoutZeros(bs: seq<byte>): seq<byte> {
    if bs != [] && bs[0] == 0 then WithoutZeros(bs[1..]) else bs
  }

  /** The compact form stands for the same number, in its shortest form. */
  lemma {:induction false} WithoutZerosIsShortest(bs: seq<byte>)
    ensures WithoutZeros(bs) == BigEndian(FromBigEndian(bs))
  {
    if bs != [] && bs[0] == 0 {
      WithoutZerosIsShortest(bs[1..]);
      LeadingZero(bs);
    } else {
      ToFromBigEndian(bs);
    }
  }

  lemma {:induction false} LeadingZero(bs: seq<byte>)
    requires bs != [] && bs[0] == 0
    ensures FromBigEndian(bs[1..]) == FromBigEndian(bs)
  {
    if |bs| <= 1 {
    } else {
      var front := bs[..|bs| - 1];
      LeadingZero(front);
      assert bs[1..][..|bs| - 2] == front[1..];
    }
  }

  class RLPStream {
    var out: seq<byte>
    var listStack: seq<Frame>

    function State(): Stream
      reads this
    {
      Stream(out, listStack)
    }

    constructor ()
      ensures State() == Stream([], [])
    {
      out, listStack := [], [];
    }

    /** Writes the bytes of n backwards so that the last lands at index `at`: they fill the gap between front
        and back. */
    method WriteBackwards(n: nat, at: nat, ghost front: seq<byte>, ghost gap: seq<byte>, ghost back: seq<byte>)
      requires out == front + gap + back && |gap| == |BigEndian(n)| > 0 && at == |front| + |gap| - 1
      modifies `out
      ensures out == front + BigEndian(n) + back
    {
      var s, b := n, at as int;
      ghost var left, written: seq<byte> := gap, [];
      assert left + written == gap;
      while s != 0
        invariant |left| == |BigEndian(s)| && b == |front| + |left| - 1
        invariant BigEndian(n) == BigEndian(s) + written && out == front + (left + written) + back
        decreases s
      {
        ghost var d, shorter := s % 0x100, left[..|left| - 1];
        assert left == shorter + [left[|left| - 1]];
        FillLast(front, shorter, left[|left| - 1], d, written, back);
        out := out[b := s % 0x100];
        assert BigEndian(s) + written == BigEndian(s / 0x100) + ([d] + written);
        left, written := shorter, [d] + written;
        s, b := s / 0x100, b - 1;
      }
      assert left + written == written == BigEndian(n);
    }

    /** Closes finished lists. The exceptions leave the stream as it is at that moment. */
    method NoteAppended(itemCount: nat) returns (r: Option<StreamError>)
      requires WellNested(State())
      modifies this
      ensures match old(Noted(State(), itemCount))
              case Ok(s) => r == None && State() == s
              case Err(e) => r == Some(e)
      ensures r.None? ==> WellNested(State())
    {
      if itemCount == 0 { return None; }
      var count := itemCount;
      while |listStack| > 0
        invariant WellNested(State()) && count > 0
        invariant Noted(State(), count) == old(Noted(State(), itemCount))
        decreases |listStack|
      {
        var (rem, p) := listStack[|listStack| - 1];
        if rem < count { return Some(ItemCountTooLarge); }
        if rem > count {
          listStack := listStack[|listStack| - 1 := (rem - count, p)];
          return None;
        }
        ghost var before := out;
        listStack := listStack[..|listStack| - 1];
        var s := |out| - p;
        var ok := InsertHeader(p);
        if !ok { return Some(CountTooLarge); }
        assert before[p..] == before[p..][..s];
        count := 1;
      }
      return None;
    }

    /** Makes room at p for the header of the list whose payload is out[p..] and writes it. */
    method InsertHeader(p: nat) returns (ok: bool)
      requires p <= |out|
      modifies `out
      ensures ok <==> Prefixed(LIST_START, old(out)[p..]).Some?
      ensures ok ==> out == old(out)[..p] + Prefixed(LIST_START, old(out)[p..]).value
    {
      var s := |out| - p;
      var brs := BytesRequired(s);
      var encodeSize := if s < IMM_LEN_COUNT then 1 else 1 + brs;
      ghost var front, payload := out[..p], out[p..];
      ghost var gap := Shift(p, encodeSize);
      if s < IMM_LEN_COUNT {
        out := out[p := LIST_START + s];
        assert out == front + ([LIST_START + s] + payload);
        return true;
      } else if LIST_IND_LEN_ZERO + brs <= 0xff {
        ghost var first, rest := [LIST_IND_LEN_ZERO + brs], gap[1..];
        out := out[p := LIST_IND_LEN_ZERO + brs];
        assert out == front + first + rest + payload;
        WriteBackwards(s, p + brs, front + first, rest, payload);
        assert front + first + BigEndian(s) + payload == front + (first + BigEndian(s) + payload);
        return true;
      } else {
        return false;
      }
    }

    /** resize and memmove: the bytes from p on move up by n. */
    method Shift(p: nat, n: nat) returns (ghost gap: seq<byte>)
      requires p <= |out|
      modifies `out
      ensures |gap| == n && out == old(out)[..p] + gap + old(out)[p..]
    {
      var os := |out|;
      out := out + seq(n, _ => 0);
      gap := out[p..p + n];
      out := out[..p + n] + out[p..os];
    }

    method AppendRaw(bs: seq<byte>, itemCount: nat) returns (r: Option<StreamError>)
      requires WellNested(State())
      modifies this
      ensures match old(Noted(Stream(out + bs, listStack), itemCount))
              case Ok(s) => r == None && State() == s
              case Err(e) => r == Some(e)
      ensures r.None? ==> WellNested(State())
    {
      out := out + bs;
      r := NoteAppended(itemCount);
    }

    /** pushInt: br zero bytes, then the digits from the back. */
    method PushInt(n: nat, br: nat)
      requires br == |BigEndian(n)|
      modifies `out
      ensures out == old(out) + BigEndian(n)
    {
      ghost var front, gap: seq<byte> := out, seq(br, _ => 0);
      out := out + seq(br, _ => 0);
      if br > 0 {
        assert out == front + gap + [];
        WriteBackwards(n, |out| - 1, front, gap, []);
        assert front + BigEndian(n) + [] == front + BigEndian(n);
      } else {
        assert gap == [] && BigEndian(n) == [];
      }
    }

    /** pushCount. */
    method PushCount(count: nat, base: int) returns (r: Option<StreamError>)
      requires base == DATA_IND_LEN_ZERO || base == LIST_IND_LEN_ZERO
      modifies `out
      ensures r == if base + |BigEndian(count)| > 0xff then Some(CountTooLarge) else None
      ensures r.None? ==> out == old(out) + ([base + |BigEndian(count)|] + BigEndian(count))
    {
      var br := BytesRequired(count);
      if br + base > 0xff { return Some(CountTooLarge); }
      out := out + [br + base];
      PushInt(count, br);
      return None;
    }

    /** append of a byte string, whose length is a size_t; the compact form leaves leading zeros out. */
    method Append(bs: seq<byte>, compact: bool) returns (r: Option<StreamError>)
      requires WellNested(State()) && |bs| < SIZE_LIMIT
      modifies this
      ensures var d := if compact then WithoutZeros(bs) else bs;
        && Encode(Data(d)).Some?
        && match old(Noted(Stream(out + Encode(Data(d)).value, listStack), 1))
           case Ok(s) => r == None && State() == s
           case Err(e) => r == Some(e)
      ensures r.None? ==> WellNested(State())
    {
      var d: seq<byte> := bs;
      if compact {
        while d != [] && d[0] == 0
          invariant WithoutZeros(d) == WithoutZeros(bs) && |d| <= |bs|
        {
          d := d[1..];
        }
      }
      HeaderExists(DATA_IMM_LEN_START, |d|);
      WriteData(d);
      r := NoteAppended(1);
    }

    method WriteData(d: seq<byte>)
      requires Encode(Data(d)).Some?
      modifies `out
      ensures out == old(out) + Encode(Data(d)).value
    {
      if |d| == 1 && d[0] < DATA_IMM_LEN_START {
        out := out + [d[0]];
        assert [d[0]] == d;
      } else {
        if |d| < IMM_LEN_COUNT {
          out := out + [|d| + DATA_IMM_LEN_START];
        } else {
          var r := PushCount(|d|, DATA_IND_LEN_ZERO);
        }
        ghost var h := Header(DATA_IMM_LEN_START, |d|).value;
        assert out == old(out) + h;
        out := out + d;
        assert old(out) + h + d == old(out) + (h + d);
      }
    }

    /** append of a number: its shortest big-endian form as a byte string. */
    method AppendInt(n: nat) returns (r: Option<StreamError>)
      requires WellNested(State()) && |BigEndian(n)| < SIZE_LIMIT
      modifies this
      ensures Encode(Data(BigEndian(n))).Some?
      ensures match old(Noted(Stream(out + Encode(Data(BigEndian(n))).value, listStack), 1))
              case Ok(s) => r == None && State() == s
              case Err(e) => r == Some(e)
      ensures r.None? ==> WellNested(State())
    {
      HeaderExists(DATA_IMM_LEN_START, |BigEndian(n)|);
      WriteInt(n);
      r := NoteAppended(1);
    }

    method WriteInt(n: nat)
      requires Encode(Data(BigEndian(n))).Some?
      modifies `out
      ensures out == old(out) + Encode(Data(BigEndian(n))).value
    {
      if n < DATA_IMM_LEN_START {
        SmallInt(n);
        out := out + [if n == 0 then DATA_IMM_LEN_START else n];
      } else {
        var br := BytesRequired(n);
        NotImmediate(n);
        WriteHeader(br);
        ghost var h := Header(DATA_IMM_LEN_START, br).value;
        PushInt(n, br);
        assert old(out) + h + BigEndian(n) == old(out) + (h + BigEndian(n));
      }
    }

    /** The header of a number of br bytes. */
    method WriteHeader(br: nat)
      requires Header(DATA_IMM_LEN_START, br).Some?
      modifies `out
      ensures out == old(out) + Header(DATA_IMM_LEN_START, br).value
    {
      if br < IMM_LEN_COUNT {
        out := out + [br + DATA_IMM_LEN_START];
      } else {
        var brbr := BytesRequired(br);
        out := out + [DATA_IND_LEN_ZERO + brbr];
        PushInt(br, brbr);
        assert out == old(out) + ([DATA_IND_LEN_ZERO + brbr] + BigEndian(br));
      }
    }

    /** appendList(n): opens a list of n items; an empty list is complete at once. */
    method AppendList(items: nat) returns (r: Option<StreamError>)
      requires WellNested(State())
      modifies this
      ensures items > 0 ==> r == None && State() == Stream(old(out), old(listStack) + [(items, |old(out)|)])
      ensures items == 0 ==>
        match old(Noted(Stream(out + [LIST_START], listStack), 1))
        case Ok(s) => r == None && State() == s
        case Err(e) => r == Some(e)
      ensures r.None? ==> WellNested(State())
    {
      if items > 0 {
        listStack := listStack + [(items, |out|)];
        return None;
      }
      assert Prefixed(LIST_START, []).value == [LIST_START];
      r := AppendListBytes([]);
    }

    /** appendList of a finished payload. */
    method AppendListBytes(payload: seq<byte>) returns (r: Option<StreamError>)
      requires WellNested(State()) && |payload| < SIZE_LIMIT
      modifies this
      ensures Prefixed(LIST_START, payload).Some?
      ensures match old(Noted(Stream(out + Prefixed(LIST_START, payload).value, listStack), 1))
              case Ok(s) => r == None && State() == s
              case Err(e) => r == Some(e)
      ensures r.None? ==> WellNested(State())
    {
      HeaderExists(LIST_START, |payload|);
      if |payload| < IMM_LEN_COUNT {
        out := out + [|payload| + LIST_START];
      } else {
        r := PushCount(|payload|, LIST_IND_LEN_ZERO);
      }
      ghost var h := out;
      assert h + payload == old(out) + Prefixed(LIST_START, payload).value;
      r := AppendRaw(payload, 1);
    }

    /** out(): the bytes, once no list is open. */
    method Out() returns (r: Result<seq<byte>, StreamError>)
      ensures r == if listStack == [] then Ok(out) else Err(ListStackNotEmpty)
    {
      if |listStack| > 0 { return Err(ListStackNotEmpty); }
      return Ok(out);
    }
  }

  /** The byte d takes the place of the last one of the gap. */
  lemma FillLast(front: seq<byte>, shorter: seq<byte>, last: byte, d: byte, written: seq<byte>, back: seq<byte>)
    ensures var b, out := |front| + |shorter|, front + (shorter + [last] + written) + back;
      out[b := d] == front + (shorter + ([d] + written)) + back
  {
    var b, out := |front| + |shorter|, front + (shorter + [last] + written) + back;
    assert out == front + shorter + [last] + (written + back);
    assert out[b := d] == front + shorter + [d] + (written + back);
  }

  /** One byte is enough for the numbers that stand for themselves, and for zero. */
  lemma SmallInt(n: nat)
    requires n < DATA_IMM_LEN_START
    ensures Encode(Data(BigEndian(n))) == Some([if n == 0 then DATA_IMM_LEN_START else n])
  {
    if n == 0 {
      var empty: seq<byte> := [];
      assert BigEndian(n) == empty && Header(DATA_IMM_LEN_START, 0) == Some([DATA_IMM_LEN_START]);
      assert [DATA_IMM_LEN_START] + empty == [DATA_IMM_LEN_START];
    } else {
      assert BigEndian(n / 0x100) == [] && BigEndian(n) == [n];
    }
  }

  lemma NotImmediate(n: nat)
    requires n >= DATA_IMM_LEN_START
    ensures Encode(Data(BigEndian(n))) == Prefixed(DATA_IMM_LEN_START, BigEndian(n))
  {
    FromToBigEndian(n);
    if |BigEndian(n)| == 1 {
      assert BigEndian(n)[..0] == [];
      assert FromBigEndian(BigEndian(n)) == BigEndian(n)[0];
    }
  }
}
