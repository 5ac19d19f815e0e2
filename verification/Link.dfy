/** One direction of a connection between two parties: what the sender has begun to send, what it has
    not written yet, what is in the channel, and what the receiver has read. */
module Link {
  import opened Framing

  type Msg = seq<byte>

  /** `sent` are the messages whose sending has begun, `out` the bytes of the last one not yet written,
      `chan` the bytes in flight, `got` the bytes of the frame being read, `rcvd` the complete ones. */
  datatype Link = Link(sent: seq<Msg>, out: seq<byte>, chan: seq<byte>, got: seq<byte>, rcvd: seq<Msg>)

  /** How many bytes the receive loops still ask for. */
  function Need(got: seq<byte>, order: ByteOrder): int {
    if |got| < 4 then 4 - |got|
    else
      var size := DecodeLen(got[..4], order);
      if size <= 0 then 0 else 4 + size - |got|
  }

  /** Nothing is lost, duplicated or reordered, and no complete frame is left unreported. */
  ghost predicate Ok(l: Link, order: ByteOrder) {
    && Sendable(l.sent) && Sendable(l.rcvd)
    && FrameAll(l.sent, order) == FrameAll(l.rcvd, order) + (l.got + (l.chan + l.out))
    && Need(l.got, order) > 0
  }

  /** The received messages are the first ones sent, and the bytes under way are exactly the frames of
      the others. */
  lemma Delivered(l: Link, order: ByteOrder)
    requires Ok(l, order)
    ensures l.rcvd <= l.sent
    ensures l.got + (l.chan + l.out) == FrameAll(l.sent[|l.rcvd|..], order)
  {
    FramesDetermineMessages(l.sent, l.rcvd, l.got + (l.chan + l.out), order);
  }

  lemma EmptyOk(order: ByteOrder)
    ensures Ok(Link([], [], [], [], []), order)
  {}

  /** The sender starts on a new message. */
  lemma BeginSend(l: Link, m: Msg, order: ByteOrder)
    requires Ok(l, order) && l.out == [] && |m| < TWO_TO_THE_31
    ensures Ok(l.(sent := l.sent + [m], out := Frame(m, order)), order)
  {
    hide Frame, Need;
    assert (l.sent + [m])[..|l.sent|] == l.sent;
    var r, f := FrameAll(l.rcvd, order), Frame(m, order);
    assert r + (l.got + (l.chan + [])) + f == r + (l.got + (l.chan + f));
  }

  /** A short write moves bytes into the channel. */
  lemma WriteSome(l: Link, n: nat, order: ByteOrder)
    requires Ok(l, order) && n <= |l.out|
    ensures Ok(l.(chan := l.chan + l.out[..n], out := l.out[n..]), order)
  {
    assert l.chan + l.out[..n] + l.out[n..] == l.chan + l.out;
  }

  /** What the receiver has read is the beginning of the frame of the next message. */
  lemma NextFrame(l: Link, order: ByteOrder)
    requires Ok(l, order) && l.got + (l.chan + l.out) != []
    ensures |l.rcvd| < |l.sent| && l.rcvd <= l.sent
    ensures var next := l.sent[|l.rcvd|];
            l.got + (l.chan + l.out) == Frame(next, order) + FrameAll(l.sent[|l.rcvd| + 1..], order)
  {
    hide Frame, Need;
    Delivered(l, order);
    var rest := l.sent[|l.rcvd|..];
    assert rest != [];
    FrameAllFirst(rest, order);
    assert rest[1..] == l.sent[|l.rcvd| + 1..];
  }

  lemma FramePrefix(got: seq<byte>, more: seq<byte>, m: Msg, tail: seq<byte>, order: ByteOrder)
    requires got + more == Frame(m, order) + tail && |m| < TWO_TO_THE_31
    ensures |got| >= 4 ==> DecodeLen(got[..4], order) == |m|
    ensures |got| == 4 + |m| ==> got == Frame(m, order) && more == tail
  {
    var stream := Frame(m, order) + tail;
    if |got| >= 4 {
      assert got[..4] == stream[..4] == EncodeLen(|m|, order);
      DecodeEncode(|m|, order);
    }
    if |got| == 4 + |m| {
      assert got == stream[..4 + |m|] == Frame(m, order);
      assert more == stream[4 + |m|..] == tail;
    }
  }

  /** A short read that does not complete the frame. */
  lemma ReadSome(l: Link, n: nat, order: ByteOrder)
    requires Ok(l, order) && n <= |l.chan| && Need(l.got + l.chan[..n], order) > 0
    ensures Ok(l.(got := l.got + l.chan[..n], chan := l.chan[n..]), order)
  {
    assert l.got + l.chan[..n] + (l.chan[n..] + l.out) == l.got + (l.chan + l.out);
  }

  /** A read that completes the frame delivers exactly the next message. */
  lemma ReadLast(l: Link, n: nat, order: ByteOrder)
    requires Ok(l, order) && 0 < n <= |l.chan| && n <= Need(l.got, order) && Need(l.got + l.chan[..n], order) <= 0
    ensures |l.rcvd| < |l.sent| && |l.got + l.chan[..n]| >= 4
    ensures (l.got + l.chan[..n])[4..] == l.sent[|l.rcvd|]
    ensures Ok(l.(rcvd := l.rcvd + [l.sent[|l.rcvd|]], got := [], chan := l.chan[n..]), order)
  {
    var got, more := l.got + l.chan[..n], l.chan[n..] + l.out;
    assert got + more == l.got + (l.chan + l.out);
    NextFrame(l, order);
    var m, tail := l.sent[|l.rcvd|], FrameAll(l.sent[|l.rcvd| + 1..], order);
    FramePrefix(l.got, l.chan + l.out, m, tail, order);
    FramePrefix(got, more, m, tail, order);
    assert |got| == 4 + |m|;
    Reported(l, m, more, order);
  }

  lemma Reported(l: Link, m: Msg, more: seq<byte>, order: ByteOrder)
    requires Sendable(l.sent) && Sendable(l.rcvd) && |l.rcvd| < |l.sent| && m == l.sent[|l.rcvd|]
    requires FrameAll(l.sent, order) == FrameAll(l.rcvd, order) + (Frame(m, order) + more)
    ensures FrameAll(l.sent, order) == FrameAll(l.rcvd + [m], order) + ([] + more)
    ensures Sendable(l.rcvd + [m])
  {}

  /** While a message is under way there are bytes in the channel or bytes still to be written. */
  lemma UnderWay(l: Link, order: ByteOrder)
    requires Ok(l, order) && |l.rcvd| < |l.sent|
    ensures l.chan != [] || l.out != []
  {
    Delivered(l, order);
    if l.chan == [] && l.out == [] {
      var rest := l.sent[|l.rcvd|..];
      FrameAllFirst(rest, order);
      assert l.got + (l.chan + l.out) == l.got + [];
      FramePrefix(l.got, [], rest[0], FrameAll(rest[1..], order), order);
    }
  }

  /** A sender that still has bytes to write has a message that is not received. */
  lemma NotYetReceived(l: Link, order: ByteOrder)
    requires Ok(l, order) && (l.out != [] || l.chan != [])
    ensures |l.rcvd| < |l.sent|
  {
    NextFrame(l, order);
  }
}
