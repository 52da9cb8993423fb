/** The length-prefixed messages of the channel (libchannelserver/ChannelMessage.h) and their reassembly from
    reads of any size (onRead of libchannelserver/ChannelSession.cpp). */
module Framing {
  import opened Prelude
  import opened Bytes

  const HEADER_LENGTH: nat := 42
  const MAX_LENGTH: nat := 104857600
  const TWO_TO_32: int := 0x1_0000_0000

  datatype Message = Message(kind: nat, sequence: seq<byte>, result: int, data: seq<byte>)

  /** The values that the fields can hold, 32 bytes of sequence, and a total length that a reader accepts. */
  predicate Sendable(m: Message) {
    && m.kind < 0x1_0000 && |m.sequence| == 32 && -0x8000_0000 <= m.result < 0x8000_0000
    && HEADER_LENGTH + |m.data| <= MAX_LENGTH
  }

  function Frame(m: Message): seq<byte>
    requires -0x8000_0000 <= m.result < 0x8000_0000
  {
    Fixed(HEADER_LENGTH + |m.data|, 4) + Fixed(m.kind, 2) + m.sequence + Fixed(Unsigned(m.result), 4) + m.data
  }

  /** An int as the 32 bits that htonl sees, and back. */
  function Unsigned(v: int): nat
    requires -0x8000_0000 <= v < 0x8000_0000
  {
    if v < 0 then v + TWO_TO_32 else v
  }

  function Signed(n: nat): int {
    if n >= 0x8000_0000 then n - TWO_TO_32 else n
  }

  /** What decodeAMOP makes of the front of a buffer: too little yet, an illegal length, a length below the
      header's, for which assigning the data throws, or a message and its length. */
  datatype Decoded = NeedMore | Illegal | Throws | Got(message: Message, length: nat)

  function Decode(b: seq<byte>): (d: Decoded)
    ensures d.Got? ==> HEADER_LENGTH <= d.length <= |b|
  {
    if |b| < HEADER_LENGTH then NeedMore
    else
      var length := FromBigEndian(b[..4]);
      if length > MAX_LENGTH then Illegal
      else if |b| < length then NeedMore
      else if length < HEADER_LENGTH then Throws
      else Got(Message(FromBigEndian(b[4..6]), b[6..38], Signed(FromBigEndian(b[38..42])), b[42..length]), length)
  }

  /** A session reads on, has disconnected, or has stopped reading because of an exception. */
  datatype Status = Reading | Disconnected | Stopped

  datatype Drained = Drained(messages: seq<Message>, rest: seq<byte>, status: Status)

  /** Everything that can be taken from the buffer. */
  function Drain(b: seq<byte>): Drained
    decreases |b|
  {
    match Decode(b)
    case NeedMore => Drained([], b, Reading)
    case Illegal => Drained([], b, Disconnected)
    case Throws => Drained([], b, Stopped)
    case Got(m, n) =>
      var d := Drain(b[n..]);
      d.(messages := [m] + d.messages)
  }

  /** More bytes do not change what has already been recognised. */
  lemma DecodeStable(a: seq<byte>, b: seq<byte>)
    ensures !Decode(a).NeedMore? ==> Decode(a + b) == Decode(a)
  {
    if |a| >= HEADER_LENGTH {
      var c := a + b;
      assert c[..4] == a[..4] && c[4..6] == a[4..6] && c[6..38] == a[6..38] && c[38..42] == a[38..42];
      var n := FromBigEndian(a[..4]);
      if HEADER_LENGTH <= n <= |a| { assert c[42..n] == a[42..n]; }
    }
  }

  /** What a session has delivered and keeps after the reads so far. */
  function Reads(s: Drained, chunks: seq<seq<byte>>): Drained
    decreases |chunks|
  {
    if chunks == [] || s.status != Reading then s
    else
      var d := Drain(s.rest + chunks[0]);
      Reads(d.(messages := s.messages + d.messages), chunks[1..])
  }

  function Joined(chunks: seq<seq<byte>>): seq<byte> {
    if chunks == [] then [] else chunks[0] + Joined(chunks[1..])
  }

  /** The outcome e is what d took, followed by what can be taken from the rest and b. */
  predicate Continues(d: Drained, b: seq<byte>, e: Drained) {
    if d.status == Reading then SameOutcome(e, d.messages, Drain(d.rest + b))
    else e.messages == d.messages && e.status == d.status
  }

  /** Draining in two portions: what is left over is all that matters. */
  lemma {:induction false} DrainInPortions(a: seq<byte>, b: seq<byte>)
    ensures Continues(Drain(a), b, Drain(a + b))
    decreases |a|
  {
    DecodeStable(a, b);
    if Decode(a).Got? {
      var m, n := Decode(a).message, Decode(a).length;
      var d, e := Drain(a[n..]), Drain(a[n..] + b);
      assert (a + b)[n..] == a[n..] + b;
      DrainInPortions(a[n..], b);
      assert Drain(a) == d.(messages := [m] + d.messages);
      assert Drain(a + b) == e.(messages := [m] + e.messages);
      OneMore(m, d, b, e);
    } else if Decode(a).NeedMore? {
      assert [] + Drain(a + b).messages == Drain(a + b).messages;
    }
  }

  lemma OneMore(m: Message, d: Drained, b: seq<byte>, e: Drained)
    requires Continues(d, b, e)
    ensures Continues(d.(messages := [m] + d.messages), b, e.(messages := [m] + e.messages))
  {
    var f := Drain(d.rest + b).messages;
    assert [m] + (d.messages + f) == [m] + d.messages + f;
  }

  /** Nothing can be taken from the bytes yet. */
  predicate Dry(b: seq<byte>) {
    Drain(b) == Drained([], b, Reading)
  }

  lemma {:induction false} DrainedDry(b: seq<byte>)
    ensures Drain(b).status == Reading ==> Dry(Drain(b).rest)
    decreases |b|
  {
    if Decode(b).Got? { DrainedDry(b[Decode(b).length..]); }
  }

  /** However a stream of bytes is cut into reads, the same messages are delivered, the session ends in the same
      status, and as long as it reads on it keeps the same bytes. The bytes need not be valid. */
  lemma {:induction false} ChunksDoNotMatter(s: Drained, chunks: seq<seq<byte>>)
    requires s.status == Reading && Dry(s.rest)
    ensures SameOutcome(Reads(s, chunks), s.messages, Drain(s.rest + Joined(chunks)))
    decreases |chunks|
  {
    if chunks == [] {
      assert s.rest + [] == s.rest && s.messages + [] == s.messages;
    } else {
      var a, b := s.rest + chunks[0], Joined(chunks[1..]);
      assert s.rest + Joined(chunks) == a + b;
      var d := Drain(a);
      var s1 := d.(messages := s.messages + d.messages);
      var r := Reads(s1, chunks[1..]);
      assert Reads(s, chunks) == r;
      DrainInPortions(a, b);
      DrainedDry(a);
      if d.status == Reading {
        ChunksDoNotMatter(s1, chunks[1..]);
        Combine(r, s.messages, d.messages, Drain(d.rest + b), Drain(a + b));
      }
    }
  }

  lemma Combine(r: Drained, x: seq<Message>, y: seq<Message>, f: Drained, e: Drained)
    requires SameOutcome(r, x + y, f) && SameOutcome(e, y, f)
    ensures SameOutcome(r, x, e)
  {
    assert x + y + f.messages == x + (y + f.messages);
  }

  /** r delivers what `before` and then d deliver. */
  predicate SameOutcome(r: Drained, before: seq<Message>, d: Drained) {
    r.messages == before + d.messages && r.status == d.status && (d.status == Reading ==> r.rest == d.rest)
  }

  lemma FrameFields(m: Message)
    requires Sendable(m)
    ensures var f := Frame(m);
      && |f| == HEADER_LENGTH + |m.data| && FromBigEndian(f[..4]) == |f| && FromBigEndian(f[4..6]) == m.kind
      && f[6..38] == m.sequence && Signed(FromBigEndian(f[38..42])) == m.result && f[42..] == m.data
  {
    var f := Frame(m);
    FixedValue(HEADER_LENGTH + |m.data|, 4);
    FixedValue(m.kind, 2);
    FixedValue(Unsigned(m.result), 4);
    assert f[..4] == Fixed(HEADER_LENGTH + |m.data|, 4);
    assert f[4..6] == Fixed(m.kind, 2);
    assert f[38..42] == Fixed(Unsigned(m.result), 4);
  }

  /** A frame is decoded to its message, whatever follows. */
  lemma FrameDecodes(m: Message, rest: seq<byte>)
    requires Sendable(m)
    ensures Decode(Frame(m) + rest) == Got(m, |Frame(m)|)
  {
    FrameFields(m);
    DecodeStable(Frame(m), rest);
  }

  /** Part of a frame is not enough. */
  lemma PartDecodes(m: Message, k: nat)
    requires Sendable(m) && k < |Frame(m)|
    ensures Decode(Frame(m)[..k]) == NeedMore
  {
    FrameFields(m);
    if k >= HEADER_LENGTH { assert Frame(m)[..k][..4] == Frame(m)[..4]; }
  }

  ghost predicate AllSendable(ms: seq<Message>) {
    forall i :: 0 <= i < |ms| ==> Sendable(ms[i])
  }

  function Frames(ms: seq<Message>): seq<byte>
    requires AllSendable(ms)
  {
    if ms == [] then [] else assert Sendable(ms[0]); Frame(ms[0]) + Frames(ms[1..])
  }

  lemma FrameFirst(m: Message, more: seq<byte>, ms: seq<Message>, d: Drained)
    requires Sendable(m) && SameOutcome(Drain(more), ms, d)
    ensures SameOutcome(Drain(Frame(m) + more), [m] + ms, d)
  {
    FrameDecodes(m, more);
    assert (Frame(m) + more)[|Frame(m)|..] == more;
    assert [m] + (ms + d.messages) == [m] + ms + d.messages;
  }

  lemma MoreFrames(m: Message, ms: seq<Message>, t: seq<byte>)
    requires Sendable(m) && AllSendable(ms)
    ensures AllSendable([m] + ms) && Frames([m] + ms) + t == Frame(m) + (Frames(ms) + t)
  {
    assert ([m] + ms)[1..] == ms;
  }

  /** Frames at the front are delivered first, whatever follows. */
  lemma {:induction false} FramesFirst(ms: seq<Message>, t: seq<byte>)
    requires AllSendable(ms)
    ensures SameOutcome(Drain(Frames(ms) + t), ms, Drain(t))
  {
    if ms == [] {
      assert Frames(ms) + t == t && [] + Drain(t).messages == Drain(t).messages;
    } else {
      FramesFirst(ms[1..], t);
      FrameFirst(ms[0], Frames(ms[1..]) + t, ms[1..], Drain(t));
      MoreFrames(ms[0], ms[1..], t);
      assert [ms[0]] + ms[1..] == ms;
    }
  }

  /** Messages that are sent, and part of one more, cut into reads in any way: exactly those messages are
      delivered, and exactly that part is kept. */
  lemma FramingDelivers(ms: seq<Message>, next: Message, k: nat, chunks: seq<seq<byte>>)
    requires AllSendable(ms)
    requires Sendable(next) && k < |Frame(next)| && Joined(chunks) == Frames(ms) + Frame(next)[..k]
    ensures Reads(Drained([], [], Reading), chunks) == Drained(ms, Frame(next)[..k], Reading)
  {
    PartDecodes(next, k);
    FramesFirst(ms, Frame(next)[..k]);
    ChunksDoNotMatter(Drained([], [], Reading), chunks);
    assert [] + Joined(chunks) == Joined(chunks) && [] + ms == ms;
  }

  /** Conversely, whatever is decoded is a message that can be sent, and the bytes are its frame. */
  lemma DecodedIsFrame(b: seq<byte>)
    requires Decode(b).Got?
    ensures var m, n := Decode(b).message, Decode(b).length; Sendable(m) && Frame(m) == b[..n]
  {
    var m, n := Decode(b).message, Decode(b).length;
    FixedOfValue(b[..4]);
    KindField(b[4..6]);
    ResultField(b[38..42]);
    Parts(b, n);
  }

  lemma KindField(bs: seq<byte>)
    requires |bs| == 2
    ensures FromBigEndian(bs) < 0x1_0000 && Fixed(FromBigEndian(bs), 2) == bs
  {
    FixedOfValue(bs);
    FromBigEndianBound(bs);
    assert Pow256(1) == 0x100;
  }

  lemma ResultField(bs: seq<byte>)
    requires |bs| == 4
    ensures var r := Signed(FromBigEndian(bs)); -0x8000_0000 <= r < 0x8000_0000 && Fixed(Unsigned(r), 4) == bs
  {
    FixedOfValue(bs);
    FromBigEndianBound(bs);
    assert Pow256(2) == 0x1_0000 && Pow256(3) == 0x100_0000;
    assert Unsigned(Signed(FromBigEndian(bs))) == FromBigEndian(bs);
  }

  lemma Parts(b: seq<byte>, n: nat)
    requires HEADER_LENGTH <= n <= |b|
    ensures b[..4] + b[4..6] + b[6..38] + b[38..42] + b[42..n] == b[..n]
  {
  }

  /** The bytes are frames of messages that can be sent, and then t. */
  ghost predicate AfterFrames(b: seq<byte>, ms: seq<Message>, t: seq<byte>) {
    AllSendable(ms) && b == Frames(ms) + t
  }

  /** A header with a length below its own. */
  predicate TooShort(t: seq<byte>) {
    |t| >= HEADER_LENGTH && FromBigEndian(t[..4]) < HEADER_LENGTH
  }

  /** A header with a length that no reader accepts. */
  predicate TooLong(t: seq<byte>) {
    |t| >= HEADER_LENGTH && FromBigEndian(t[..4]) > MAX_LENGTH
  }

  /** What has been delivered are the frames at the front of the bytes, and the status tells what comes behind them. */
  lemma {:induction false} DrainIsFrames(b: seq<byte>)
    ensures AfterFrames(b, Drain(b).messages, Drain(b).rest)
    ensures Drain(b).status == Stopped <==> TooShort(Drain(b).rest)
    ensures Drain(b).status == Disconnected <==> TooLong(Drain(b).rest)
    decreases |b|
  {
    if Decode(b).Got? {
      DrainIsFrames(b[Decode(b).length..]);
      FirstIsFrame(b, Drain(b[Decode(b).length..]));
    } else {
      assert Frames([]) + b == b;
    }
  }

  lemma FirstIsFrame(b: seq<byte>, d: Drained)
    requires Decode(b).Got? && AfterFrames(b[Decode(b).length..], d.messages, d.rest)
    ensures AfterFrames(b, [Decode(b).message] + d.messages, d.rest)
  {
    var n := Decode(b).length;
    DecodedIsFrame(b);
    MoreFrames(Decode(b).message, d.messages, d.rest);
    assert b == b[..n] + b[n..];
  }

  /** However the bytes are cut into reads, a session stops reading without a disconnection exactly when a header with a
      length below its own follows some messages, or none. */
  lemma StopsExactly(chunks: seq<seq<byte>>)
    ensures Reads(Drained([], [], Reading), chunks).status == Stopped <==>
            exists ms, t :: AfterFrames(Joined(chunks), ms, t) && TooShort(t)
  {
    var b := Joined(chunks);
    ReadsAreDrained(chunks);
    DrainIsFrames(b);
    if ms, t :| AfterFrames(b, ms, t) && TooShort(t) { FramesFirst(ms, t); }
  }

  /** The same for a disconnection, and a length above the limit. */
  lemma DisconnectsExactly(chunks: seq<seq<byte>>)
    ensures Reads(Drained([], [], Reading), chunks).status == Disconnected <==>
            exists ms, t :: AfterFrames(Joined(chunks), ms, t) && TooLong(t)
  {
    var b := Joined(chunks);
    ReadsAreDrained(chunks);
    DrainIsFrames(b);
    if ms, t :| AfterFrames(b, ms, t) && TooLong(t) { FramesFirst(ms, t); }
  }

  lemma ReadsAreDrained(chunks: seq<seq<byte>>)
    ensures Reads(Drained([], [], Reading), chunks).status == Drain(Joined(chunks)).status
  {
    ChunksDoNotMatter(Drained([], [], Reading), chunks);
    assert [] + Joined(chunks) == Joined(chunks);
  }

  /** A header of zeros is such a header: the session stops, and delivers nothing. */
  lemma ZerosStop()
    ensures Drain(seq(HEADER_LENGTH, _ => 0)) == Drained([], seq(HEADER_LENGTH, _ => 0), Stopped)
  {
    var b: seq<byte> := seq(HEADER_LENGTH, _ => 0);
    ZerosAreZero(b[..4]);
  }

  lemma {:induction false} ZerosAreZero(bs: seq<byte>)
    requires forall i :: 0 <= i < |bs| ==> bs[i] == 0
    ensures FromBigEndian(bs) == 0
  {
    if bs == [] {
    } else {
      ZerosAreZero(bs[..|bs| - 1]);
    }
  }

  /** A header in numbers: what its first four bytes decide, and where the fields are. */
  lemma HeaderBytes(b: seq<byte>)
    requires |b| >= 42
    ensures var n := FromBigEndian(b[..4]);
      Decode(b) ==
        if n > 104857600 then Illegal
        else if n > |b| then NeedMore
        else if n < 42 then Throws
        else
          var r := FromBigEndian(b[38..42]);
          Got(Message(FromBigEndian(b[4..6]), b[6..38], if r < 0x8000_0000 then r else r - 0x1_0000_0000, b[42..n]), n)
  {
  }

  /** The frame of a message of kind 0x12 with the result -1 and the data "a". */
  lemma FrameOfA(sequence: seq<byte>, m: Message)
    requires |sequence| == 32 && m == Message(0x12, sequence, -1, [0x61])
    ensures Frame(m) == [0, 0, 0, 43, 0, 0x12] + sequence + [0xff, 0xff, 0xff, 0xff, 0x61]
  {
    var length: seq<byte>, kind: seq<byte>, result: seq<byte> := [0, 0, 0, 43], [0, 0x12], [0xff, 0xff, 0xff, 0xff];
    FourBytes(43, length);
    TwoBytes(0x12, kind);
    FourBytes(0xffff_ffff, result);
    assert Frame(m) == length + kind + sequence + result + [0x61];
  }

  lemma FourBytes(n: nat, bs: seq<byte>)
    requires |bs| == 4
    requires n == ((bs[0] as int * 0x100 + bs[1]) * 0x100 + bs[2]) * 0x100 + bs[3]
    ensures Fixed(n, 4) == bs
  {
    var three, two := bs[..3], bs[..2];
    assert three[..2] == two && two == [bs[0], bs[1]];
    TwoDigits(two, bs[0], bs[1]);
    FixedIs(n, bs, |bs|);
  }

  lemma TwoBytes(n: nat, bs: seq<byte>)
    requires |bs| == 2 && n == bs[0] as int * 0x100 + bs[1]
    ensures Fixed(n, 2) == bs
  {
    TwoDigits(bs, bs[0], bs[1]);
    FixedIs(n, bs, |bs|);
  }

  lemma TwoDigits(bs: seq<byte>, x: byte, y: byte)
    requires bs == [x, y]
    ensures FromBigEndian(bs) == x as int * 0x100 + y
  {
    var one := bs[..1];
    assert one == [x] && one[..0] == [];
    assert FromBigEndian(one) == x as int;
  }

  lemma FixedIs(n: nat, bs: seq<byte>, k: nat)
    requires FromBigEndian(bs) == n && |bs| == k
    ensures Fixed(n, k) == bs
  {
    FixedOfValue(bs);
  }

  /** ChannelMessage. */
  class ChannelMessage {
    var length: nat
    var kind: nat
    var sequence: seq<byte>
    var result: int
    var data: seq<byte>

    constructor ()
      ensures Contents() == Message(0, Fixed(0, 0), 0, [])
    {
      length, kind, sequence, result, data := 0, 0, [], 0, [];
    }

    function Contents(): Message
      reads this
    {
      Message(kind, sequence, result, data)
    }

    /** encode: appends the frame to a buffer. */
    method Encode(buffer: seq<byte>) returns (r: seq<byte>)
      requires -0x8000_0000 <= result < 0x8000_0000
      modifies `length
      ensures r == buffer + Frame(Contents()) && length == HEADER_LENGTH + |data|
    {
      length := HEADER_LENGTH + |data|;
      r := buffer + Fixed(length, 4);
      r := r + Fixed(kind, 2);
      r := r + sequence;
      r := r + Fixed(Unsigned(result), 4);
      r := r + data;
      assert r == buffer + Frame(Contents());
    }

    /** decodeAMOP: a positive result is the length of the message, 0 asks for more bytes, -1 is an illegal
        length; None stands for the exception. */
    method DecodeAMOP(buffer: seq<byte>) returns (r: Option<int>)
      modifies this
      ensures match Decode(buffer)
              case NeedMore => r == Some(0)
              case Illegal => r == Some(-1)
              case Throws => r == None
              case Got(m, n) => r == Some(n) && Contents() == m && length == n
    {
      if |buffer| < HEADER_LENGTH { return Some(0); }
      length := FromBigEndian(buffer[..4]);
      if length > MAX_LENGTH { return Some(-1); }
      if |buffer| < length { return Some(0); }
      kind := FromBigEndian(buffer[4..6]);
      sequence := buffer[6..38];
      result := Signed(FromBigEndian(buffer[38..42]));
      if length < HEADER_LENGTH { return None; }
      data := buffer[42..length];
      return Some(length);
    }
  }

  /** ChannelSession, as far as reading goes. */
  class ChannelSession {
    var recvProtocolBuffer: seq<byte>
    var delivered: seq<Message>
    var status: Status

    function Outcome(): Drained
      reads this
    {
      Drained(delivered, recvProtocolBuffer, status)
    }

    constructor ()
      ensures Outcome() == Drained([], [], Reading)
    {
      recvProtocolBuffer, delivered, status := [], [], Reading;
    }

    /** onRead without an error, which only happens while the session reads. */
    method OnRead(received: seq<byte>)
      requires status == Reading
      modifies this
      ensures Outcome() == Reads(old(Outcome()), [received])
    {
      recvProtocolBuffer := recvProtocolBuffer + received;
      ghost var before, all := delivered, Drain(recvProtocolBuffer);
      while true
        invariant status == Reading
        invariant Drain(recvProtocolBuffer).rest == all.rest && Drain(recvProtocolBuffer).status == all.status
        invariant delivered + Drain(recvProtocolBuffer).messages == before + all.messages
        decreases |recvProtocolBuffer|
      {
        var message := new ChannelMessage();
        var result := message.DecodeAMOP(recvProtocolBuffer);
        assert delivered + [] == delivered;
        if result == None {
          status := Stopped;
          break;
        }
        if result.value > 0 {
          ghost var more := Drain(recvProtocolBuffer[result.value..]).messages;
          assert delivered + ([message.Contents()] + more) == delivered + [message.Contents()] + more;
          delivered := delivered + [message.Contents()];
          recvProtocolBuffer := recvProtocolBuffer[result.value..];
        } else if result.value == 0 {
          break;
        } else {
          status := Disconnected;
          break;
        }
      }
    }
  }
}
