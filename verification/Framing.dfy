/** Length-prefixed messages on a byte stream. */
module Framing {

  type byte = x: int | 0 <= x < 256

  const TWO_TO_THE_31 := 0x8000_0000
  const TWO_TO_THE_32 := 0x1_0000_0000

  datatype ByteOrder = Little | Big

  /** Conversion to a 32-bit signed integer. */
  function ToInt32(n: int): (r: int)
    ensures -TWO_TO_THE_31 <= r < TWO_TO_THE_31
  {
    var m := n % TWO_TO_THE_32;
    if m < TWO_TO_THE_31 then m else m - TWO_TO_THE_32
  }

  function Reverse4(b: seq<byte>): (r: seq<byte>)
    requires |b| == 4
    ensures |r| == 4
  {
    [b[3], b[2], b[1], b[0]]
  }

  /** The four bytes of a C int in memory. */
  function EncodeLen(n: int, order: ByteOrder): (b: seq<byte>)
    ensures |b| == 4
  {
    var m := n % TWO_TO_THE_32;
    var m1 := m / 256;
    var m2 := m1 / 256;
    var little := [m % 256, m1 % 256, m2 % 256, m2 / 256];
    if order == Little then little else Reverse4(little)
  }

  function DecodeLen(b: seq<byte>, order: ByteOrder): int
    requires |b| == 4
  {
    var l := if order == Little then b else Reverse4(b);
    var b0: int, b1: int, b2: int, b3: int := l[0], l[1], l[2], l[3];
    ToInt32(b0 + 256 * (b1 + 256 * (b2 + 256 * b3)))
  }

  /** Both ends agree on a length as far as a C int can carry it. */
  lemma DecodeEncode(n: int, order: ByteOrder)
    ensures DecodeLen(EncodeLen(n, order), order) == ToInt32(n)
  {}

  /** ... and four bytes are the length they stand for. */
  lemma EncodeDecode(b: seq<byte>, order: ByteOrder)
    requires |b| == 4
    ensures EncodeLen(DecodeLen(b, order), order) == b
  {
    var l := if order == Little then b else Reverse4(b);
    var b0: int, b1: int, b2: int, b3: int := l[0], l[1], l[2], l[3];
    var m2 := b2 + 256 * b3;
    var m1 := b1 + 256 * m2;
    var m := b0 + 256 * m1;
    assert 0 <= m < TWO_TO_THE_32 && ToInt32(m) % TWO_TO_THE_32 == m;
    assert m % 256 == b0 && m / 256 == m1;
    assert m1 % 256 == b1 && m1 / 256 == m2;
    assert m2 % 256 == b2 && m2 / 256 == b3;
  }

  /** On the wire: the four bytes of a length below 2^31, the least significant first or last. */
  lemma WireLayout(n: nat)
    requires n < TWO_TO_THE_31
    ensures var b := EncodeLen(n, Little);
            b[0] as int + 0x100 * b[1] as int + 0x1_0000 * b[2] as int + 0x100_0000 * b[3] as int == n
    ensures var b := EncodeLen(n, Big);
            b[3] as int + 0x100 * b[2] as int + 0x1_0000 * b[1] as int + 0x100_0000 * b[0] as int == n
  {
    var m1 := n / 256;
    var m2 := m1 / 256;
    assert n % TWO_TO_THE_32 == n;
    assert EncodeLen(n, Little) == [n % 256, m1 % 256, m2 % 256, m2 / 256];
  }

  /** ... followed by the data. */
  lemma FrameLayout(m: seq<byte>, order: ByteOrder)
    ensures Frame(m, order)[..4] == EncodeLen(|m|, order) && Frame(m, order)[4..] == m
  {}

  function Frame(m: seq<byte>, order: ByteOrder): (f: seq<byte>)
    ensures |f| == 4 + |m|
  {
    EncodeLen(|m|, order) + m
  }

  function FrameAll(ms: seq<seq<byte>>, order: ByteOrder): seq<byte> {
    if ms == [] then [] else FrameAll(ms[..|ms| - 1], order) + Frame(ms[|ms| - 1], order)
  }

  /** What one receive makes of the bytes still to come: a size, the data and what remains, or the end
      of the stream in the middle of a frame. */
  datatype Reception = Closed | Received(size: int, data: seq<byte>, rest: seq<byte>)

  function Deframe(stream: seq<byte>, order: ByteOrder): Reception {
    if |stream| < 4 then Closed
    else
      var size := DecodeLen(stream[..4], order);
      if size <= 0 then Received(size, [], stream[4..])
      else if |stream| < 4 + size then Closed
      else Received(size, stream[4..4 + size], stream[4 + size..])
  }

  /** A frame is received as sent, leaving the stream at the next frame, exactly when its length is
      below 2^31. */
  lemma DeframeFrame(m: seq<byte>, rest: seq<byte>, order: ByteOrder)
    ensures Deframe(Frame(m, order) + rest, order) == Received(|m|, m, rest) <==> |m| < TWO_TO_THE_31
  {
    var stream := Frame(m, order) + rest;
    assert stream[..4] == EncodeLen(|m|, order);
    DecodeEncode(|m|, order);
    if |m| < TWO_TO_THE_31 {
      assert stream[4..4 + |m|] == m;
      assert stream[4 + |m|..] == rest;
      assert |m| == 0 ==> stream[4..] == rest;
    }
  }

  /** n successive receives. */
  function ReceiveMany(stream: seq<byte>, n: nat, order: ByteOrder): (r: (seq<seq<byte>>, seq<byte>)) {
    if n == 0 then ([], stream)
    else
      match Deframe(stream, order)
      case Closed => ([], stream)
      case Received(_, data, rest) =>
        var (more, end) := ReceiveMany(rest, n - 1, order);
        ([data] + more, end)
  }

  ghost predicate Sendable(ms: seq<seq<byte>>) {
    forall i :: 0 <= i < |ms| ==> |ms[i]| < TWO_TO_THE_31
  }

  lemma {:induction false} FrameAllConcat(a: seq<seq<byte>>, b: seq<seq<byte>>, order: ByteOrder)
    ensures FrameAll(a + b, order) == FrameAll(a, order) + FrameAll(b, order)
  {
    hide Frame;
    if b == [] {
      assert a + b == a;
    } else {
      var front, last := b[..|b| - 1], Frame(b[|b| - 1], order);
      assert (a + b)[..|a + b| - 1] == a + front;
      FrameAllConcat(a, front, order);
      assert FrameAll(a, order) + FrameAll(front, order) + last == FrameAll(a, order) + (FrameAll(front, order) + last);
    }
  }

  lemma FrameAllOne(m: seq<byte>, order: ByteOrder)
    ensures FrameAll([m], order) == Frame(m, order)
  {}

  lemma FrameAllFirst(ms: seq<seq<byte>>, order: ByteOrder)
    requires ms != []
    ensures FrameAll(ms, order) == Frame(ms[0], order) + FrameAll(ms[1..], order)
  {
    assert ms == [ms[0]] + ms[1..];
    FrameAllConcat([ms[0]], ms[1..], order);
    FrameAllOne(ms[0], order);
  }

  /** Successive receives return exactly the sent messages, in order, and end on a frame boundary. */
  lemma {:induction false} FramingRoundTrip(ms: seq<seq<byte>>, rest: seq<byte>, order: ByteOrder)
    requires Sendable(ms)
    ensures ReceiveMany(FrameAll(ms, order) + rest, |ms|, order) == (ms, rest)
    decreases |ms|
  {
    hide Frame, Deframe;
    if ms == [] {
      assert FrameAll(ms, order) + rest == rest;
    } else {
      FrameAllFirst(ms, order);
      var tail := FrameAll(ms[1..], order) + rest;
      assert FrameAll(ms, order) + rest == Frame(ms[0], order) + tail;
      DeframeFrame(ms[0], tail, order);
      FramingRoundTrip(ms[1..], rest, order);
      assert ms == [ms[0]] + ms[1..];
    }
  }

  /** Framing loses nothing: when the frames of r are the beginning of the frames of s, the messages of
      r are the beginning of s, and the remaining bytes are the frames of the remaining messages. */
  lemma {:induction false} FramesDetermineMessages(s: seq<seq<byte>>, r: seq<seq<byte>>, x: seq<byte>, order: ByteOrder)
    requires Sendable(s) && Sendable(r)
    requires FrameAll(s, order) == FrameAll(r, order) + x
    ensures r <= s && x == FrameAll(s[|r|..], order)
    decreases |r|
  {
    hide Frame, Deframe;
    if r == [] {
      assert FrameAll(r, order) + x == x && s[0..] == s;
    } else {
      FrameAllFirst(r, order);
      var restR := FrameAll(r[1..], order) + x;
      assert FrameAll(s, order) == Frame(r[0], order) + restR;
      DeframeFrame(r[0], restR, order);
      assert s != [];
      FrameAllFirst(s, order);
      DeframeFrame(s[0], FrameAll(s[1..], order), order);
      assert s[0] == r[0] && FrameAll(s[1..], order) == restR;
      FramesDetermineMessages(s[1..], r[1..], x, order);
      assert s[1..][|r| - 1..] == s[|r|..];
      assert r == [r[0]] + r[1..] && s == [s[0]] + s[1..];
    }
  }
}
