/** The send and receive loops over a byte stream that may accept or deliver only part of a request. */
module Transmit {
  import opened Outcomes
  import opened Framing

  /** When a connection breaks: never, or after it has taken a number of bytes. */
  datatype Limit = Never | After(bytes: nat)
  {
    predicate Allows(total: nat) {
      Never? || total <= bytes
    }

    /** As much of some bytes as gets through. */
    function Cut(s: seq<byte>): seq<byte> {
      if Allows(|s|) then s else s[..bytes]
    }
  }

  /** The writing end of a stream. */
  class Sink {
    var written: seq<byte>
    const limit: Limit

    constructor (limit: Limit)
      ensures written == [] && this.limit == limit
    {
      written := [];
      this.limit := limit;
    }

    ghost predicate Valid()
      reads this
    {
      limit.Allows(|written|)
    }

    /** A write takes some of the bytes, at least one until the connection breaks. */
    method Write(data: array<byte>, from: nat, n: nat) returns (sent: int)
      requires Valid() && from + n <= data.Length && n > 0
      modifies this
      ensures Valid() && sent <= n
      ensures sent > 0 ==> written == old(written) + data[from..from + sent]
      ensures sent <= 0 ==> written == old(written) && !limit.Allows(|written| + 1)
    {
      if limit.Allows(|written| + 1) {
        sent := 1;
        sent :| 1 <= sent <= n && limit.Allows(|written| + sent);
        written := written + data[from..from + sent];
      } else {
        sent :| -1 <= sent <= 0;
      }
    }
  }

  /** The reading end: the bytes that will still arrive before the stream ends or breaks. */
  class Source {
    var pending: seq<byte>

    constructor (pending: seq<byte>)
      ensures this.pending == pending
    {
      this.pending := pending;
    }

    /** A read delivers some of the bytes, at least one as long as any will arrive. */
    method Read(data: array<byte>, at: nat, n: nat) returns (recvd: int)
      requires at + n <= data.Length && n > 0
      modifies this, data
      ensures recvd <= n && recvd <= |old(pending)| && (recvd <= 0 <==> old(pending) == [])
      ensures recvd > 0 ==> data[..] == old(data[..at]) + old(pending)[..recvd] + old(data[at + recvd..])
                            && pending == old(pending)[recvd..]
      ensures recvd <= 0 ==> data[..] == old(data[..]) && pending == []
    {
      if pending == [] {
        recvd :| -1 <= recvd <= 0;
      } else {
        recvd := 1;
        recvd :| 1 <= recvd <= n && recvd <= |pending|;
        forall i | 0 <= i < recvd {
          data[at + i] := pending[i];
        }
        pending := pending[recvd..];
      }
    }
  }

  /** Writes until everything is taken; fails exactly when the connection breaks before that. */
  method WriteFully(w: Sink, data: array<byte>, size: nat) returns (r: Outcome)
    requires w.Valid() && size <= data.Length
    modifies w
    ensures w.Valid() && w.written == w.limit.Cut(old(w.written) + data[..size])
    ensures r == Done <==> w.limit.Allows(|old(w.written)| + size)
  {
    var totalSent := 0;
    while totalSent < size
      invariant 0 <= totalSent <= size
      invariant w.Valid() && w.written == old(w.written) + data[..totalSent]
    {
      var sent := w.Write(data, totalSent, size - totalSent);
      if sent <= 0 {
        assert data[..size][..totalSent] == data[..totalSent];
        return Fatal;
      }
      totalSent := totalSent + sent;
    }
    return Done;
  }

  /** Reads until n bytes are there; fails exactly when fewer will arrive. */
  method ReadFully(s: Source, data: array<byte>, n: nat) returns (r: Outcome)
    requires n <= data.Length
    modifies s, data
    ensures r == Done <==> n <= |old(s.pending)|
    ensures r == Done ==> data[..n] == old(s.pending)[..n] && s.pending == old(s.pending)[n..]
    ensures r == Fatal ==> s.pending == []
    ensures data[n..] == old(data[n..])
  {
    var totalRecvd := 0;
    while totalRecvd < n
      invariant 0 <= totalRecvd <= n && totalRecvd <= |old(s.pending)|
      invariant data[..totalRecvd] == old(s.pending)[..totalRecvd]
      invariant data[n..] == old(data[n..])
      invariant s.pending == old(s.pending)[totalRecvd..]
    {
      ghost var t := totalRecvd;
      ghost var before, arriving := data[..], s.pending;
      var recvd := s.Read(data, totalRecvd, n - totalRecvd);
      if recvd <= 0 {
        assert data[n..] == data[..][n..] == before[n..];
        return Fatal;
      }
      totalRecvd := totalRecvd + recvd;
      assert data[..][..totalRecvd] == before[..t] + arriving[..recvd];
      assert data[..totalRecvd] == data[..][..totalRecvd];
      assert data[n..] == data[..][n..] == before[n..];
    }
    return Done;
  }

  /** Length first, then the data: exactly one frame, or as much of it as the connection takes. */
  method SendLenData(w: Sink, data: array<byte>, size: nat, order: ByteOrder) returns (r: Outcome)
    requires w.Valid() && size <= data.Length
    modifies w
    ensures w.Valid() && w.written == w.limit.Cut(old(w.written) + Frame(data[..size], order))
    ensures r == Done <==> w.limit.Allows(|old(w.written)| + 4 + size)
  {
    ghost var before := w.written;
    var len := EncodeLen(size, order);
    var plen := new byte[4](i requires 0 <= i < 4 => len[i]);
    assert plen[..4] == len;
    assert before + Frame(data[..size], order) == before + len + data[..size];
    r := WriteFully(w, plen, 4);
    if r == Done {
      r := WriteFully(w, data, size);
    } else {
      assert (before + len + data[..size])[..w.limit.bytes] == (before + len)[..w.limit.bytes];
    }
  }

  /** The size announced by the next frame, if its length has arrived. */
  function Announced(stream: seq<byte>, order: ByteOrder): int {
    if |stream| < 4 then 0 else DecodeLen(stream[..4], order)
  }

  /** One receive takes exactly what Deframe says, into the front of a buffer that is large enough; it
      fails exactly when the stream ends or breaks inside the frame, having used up what arrived. */
  method RecvLenData(s: Source, data: array<byte>, order: ByteOrder) returns (r: Outcome, size: int)
    requires Announced(s.pending, order) <= data.Length
    modifies s, data
    ensures r == Done <==> Deframe(old(s.pending), order) != Closed
    ensures r == Done ==>
              && size <= data.Length
              && Deframe(old(s.pending), order) == Received(size, if size > 0 then data[..size] else [], s.pending)
    ensures r == Fatal ==> s.pending == []
  {
    ghost var stream := s.pending;
    var plen := new byte[4](_ => 0);
    size := 0;
    r := ReadFully(s, plen, 4);
    if r == Fatal {
      return;
    }
    assert plen[..] == plen[..4] == stream[..4];
    size := DecodeLen(plen[..], order);
    if size > 0 {
      r := ReadFully(s, data, size);
      assert r == Done ==> data[..size] == stream[4..4 + size] && s.pending == stream[4 + size..];
    }
  }

  // ---------- lists of messages ----------

  /** The texts of some messages. */
  function Texts(msgs: seq<array<byte>>): (ms: seq<seq<byte>>)
    reads msgs
    ensures |ms| == |msgs|
  {
    seq(|msgs|, i requires 0 <= i < |msgs| reads msgs => msgs[i][..])
  }

  lemma FrameAllSplit(ms: seq<seq<byte>>, i: nat, order: ByteOrder)
    requires i < |ms|
    ensures FrameAll(ms[..i + 1], order) == FrameAll(ms[..i], order) + Frame(ms[i], order)
    ensures FrameAll(ms, order) == FrameAll(ms[..i + 1], order) + FrameAll(ms[i + 1..], order)
    ensures FrameAll(ms[i..], order) == Frame(ms[i], order) + FrameAll(ms[i + 1..], order)
  {
    assert ms[..i + 1][..i] == ms[..i] && ms[i..][1..] == ms[i + 1..];
    assert ms[..i + 1] + ms[i + 1..] == ms;
    FrameAllConcat(ms[..i + 1], ms[i + 1..], order);
    FrameAllFirst(ms[i..], order);
  }

  /** Sends one message after the other. */
  method SendAll(w: Sink, msgs: seq<array<byte>>, order: ByteOrder) returns (r: Outcome)
    requires w.Valid()
    modifies w
    ensures w.Valid() && w.written == w.limit.Cut(old(w.written) + FrameAll(Texts(msgs), order))
    ensures r == Done <==> w.limit.Allows(|old(w.written) + FrameAll(Texts(msgs), order)|)
  {
    hide Frame, FrameAll, Limit.Cut, Limit.Allows;
    ghost var ms, before := Texts(msgs), w.written;
    FrameAllEmpty(ms, order);
    for i := 0 to |msgs|
      invariant w.Valid() && w.written == before + FrameAll(ms[..i], order)
    {
      SendStep(w.limit, before, ms, i, order);
      assert msgs[i][..msgs[i].Length] == ms[i];
      r := SendLenData(w, msgs[i], msgs[i].Length, order);
      if r == Fatal {
        return;
      }
    }
    assert ms[..|msgs|] == ms;
    NothingCut(w.limit, w.written);
    return Done;
  }

  lemma NothingCut(limit: Limit, s: seq<byte>)
    ensures limit.Allows(|s|) ==> limit.Cut(s) == s
  {}

  /** One more message gets through whole, or what is cut off stays cut off when more follows. */
  lemma SendStep(limit: Limit, before: seq<byte>, ms: seq<seq<byte>>, i: nat, order: ByteOrder)
    requires i < |ms|
    ensures var far := before + FrameAll(ms[..i], order) + Frame(ms[i], order);
            && |far| == |before + FrameAll(ms[..i], order)| + 4 + |ms[i]|
            && far == before + FrameAll(ms[..i + 1], order)
            && if limit.Allows(|far|) then limit.Cut(far) == far
               else !limit.Allows(|before + FrameAll(ms, order)|)
                    && limit.Cut(far) == limit.Cut(before + FrameAll(ms, order))
  {
    hide Frame, FrameAll;
    FrameAllSplit(ms, i, order);
    var far, more := before + FrameAll(ms[..i + 1], order), FrameAll(ms[i + 1..], order);
    assert before + FrameAll(ms, order) == far + more;
    assert before + FrameAll(ms[..i], order) + Frame(ms[i], order) == far;
  }

  /** What one receive makes of the beginning of a frame and what follows it. */
  lemma PartialFrame(p: seq<byte>, m: seq<byte>, tail: seq<byte>, order: ByteOrder)
    requires p <= Frame(m, order) + tail && |m| < TWO_TO_THE_31
    ensures Announced(p, order) <= |m|
    ensures Deframe(p, order) == if |p| < 4 + |m| then Closed else Received(|m|, m, p[4 + |m|..])
    ensures |p| >= 4 + |m| ==> p == Frame(m, order) + p[4 + |m|..] && p[4 + |m|..] <= tail
  {
    hide Frame, DecodeLen;
    if |p| >= 4 + |m| {
      WholeFrame(p, m, tail, order);
      DeframeFrame(m, p[4 + |m|..], order);
    }
    if |p| >= 4 {
      AnnouncedSize(p, m, tail, order);
    }
  }

  lemma AnnouncedSize(p: seq<byte>, m: seq<byte>, tail: seq<byte>, order: ByteOrder)
    requires p <= Frame(m, order) + tail && |m| < TWO_TO_THE_31 && |p| >= 4
    ensures DecodeLen(p[..4], order) == |m|
  {
    hide DecodeLen, EncodeLen;
    assert p[..4] == (Frame(m, order) + tail)[..4] == EncodeLen(|m|, order);
    DecodeEncode(|m|, order);
  }

  lemma WholeFrame(p: seq<byte>, m: seq<byte>, tail: seq<byte>, order: ByteOrder)
    requires p <= Frame(m, order) + tail && |p| >= 4 + |m|
    ensures p == Frame(m, order) + p[4 + |m|..] && p[4 + |m|..] <= tail
  {
    hide Frame;
    var stream := Frame(m, order) + tail;
    assert p[..4 + |m|] == stream[..4 + |m|] == Frame(m, order);
    assert tail == stream[4 + |m|..];
  }

  /** Receives messages until they are complete or the stream ends.  Of the messages ms whose frames the
      stream begins with, it delivers exactly those that arrived whole. */
  method ReceiveAll(s: Source, buf: array<byte>, order: ByteOrder, n: nat, ghost ms: seq<seq<byte>>)
    returns (r: Outcome, got: seq<seq<byte>>)
    requires s.pending <= FrameAll(ms, order) && n == |ms| && buf.Length < TWO_TO_THE_31
    requires forall i :: 0 <= i < n ==> |ms[i]| <= buf.Length
    modifies s, buf
    ensures got <= ms && FrameAll(got, order) <= old(s.pending)
    ensures r == Done <==> got == ms
    ensures r == Done <==> old(s.pending) == FrameAll(ms, order)
    ensures r == Fatal ==> |got| < n && |old(s.pending)| < |FrameAll(ms[..|got| + 1], order)|
    ensures s.pending == []
  {
    hide Frame, Deframe, FrameAll;
    got := [];
    ghost var before := s.pending;
    FrameAllEmpty(ms, order);
    for i := 0 to n
      invariant got == ms[..i] && before == FrameAll(ms[..i], order) + s.pending
      invariant s.pending <= FrameAll(ms[i..], order)
    {
      FrameAllSplit(ms, i, order);
      PartialFrame(s.pending, ms[i], FrameAll(ms[i + 1..], order), order);
      ghost var stream := s.pending;
      var size;
      r, size := RecvLenData(s, buf, order);
      if r == Fatal {
        assert |before| < |FrameAll(ms[..i], order)| + |Frame(ms[i], order)|;
        return;
      }
      got := got + [if size > 0 then buf[..size] else []];
      assert before == FrameAll(ms[..i], order) + (Frame(ms[i], order) + s.pending);
    }
    assert ms[..n] == ms && s.pending == [];
    return Done, got;
  }

  lemma FrameAllEmpty(ms: seq<seq<byte>>, order: ByteOrder)
    ensures ms[..0] == [] && FrameAll(ms[..0], order) == [] && ms[0..] == ms && ms[|ms|..] == []
    ensures FrameAll(ms[|ms|..], order) == []
  {}

  /** Both ends together: everything that is sent arrives, in order, or exactly the messages that get
      through whole before the connection breaks. */
  method Exchange(msgs: seq<array<byte>>, limit: Limit, buf: array<byte>, order: ByteOrder)
    returns (r: Outcome, got: seq<seq<byte>>)
    requires buf.Length < TWO_TO_THE_31 && buf !in msgs
    requires forall i :: 0 <= i < |msgs| ==> msgs[i].Length <= buf.Length
    modifies buf
    ensures r == Done <==> limit.Allows(|FrameAll(Texts(msgs), order)|)
    ensures r == Done <==> got == Texts(msgs)
    ensures got <= Texts(msgs) && limit.Allows(|FrameAll(got, order)|)
    ensures r == Fatal ==> |got| < |msgs| && !limit.Allows(|FrameAll(Texts(msgs)[..|got| + 1], order)|)
  {
    hide FrameAll;
    ghost var ms := Texts(msgs);
    var w := new Sink(limit);
    var _ := SendAll(w, msgs, order);
    assert [] + FrameAll(ms, order) == FrameAll(ms, order);
    var s := new Source(w.written);
    r, got := ReceiveAll(s, buf, order, |msgs|, ms);
  }
}
