/** The gateway's relay loop between the device and the enclave, over one buffer. */
module Gateway {
  import opened Outcomes
  import opened Framing
  import opened Transmit

  const BUFFER := 1024

  /** A connected socket. */
  class Socket {
    const input: Source
    const output: Sink

    constructor (input: Source, output: Sink)
      ensures this.input == input && this.output == output
    {
      this.input := input;
      this.output := output;
    }
  }

  /** Every frame that will arrive announces a size that the buffer can hold. */
  ghost predicate FramesFit(stream: seq<byte>, order: ByteOrder, capacity: nat)
    decreases |stream|
  {
    && 0 <= Announced(stream, order) <= capacity
    && match Deframe(stream, order)
       case Closed => true
       case Received(_, _, rest) => FramesFit(rest, order, capacity)
  }

  // ---------- one direction ----------

  /** One way through the gateway: what was to arrive and what still is, what had been sent on and what
      now has, and how long the connection onwards lasts. */
  datatype Way = Way(arriving: seq<byte>, pending: seq<byte>, before: seq<byte>, written: seq<byte>, limit: Limit)

  /** Exactly the frames of ms have been taken, and exactly they have been sent on. */
  ghost predicate Relayed(y: Way, ms: seq<seq<byte>>, order: ByteOrder) {
    y.arriving == FrameAll(ms, order) + y.pending && y.written == y.before + FrameAll(ms, order)
  }

  /** The same, and then the stream ended before another whole frame. */
  ghost predicate Ended(y: Way, ms: seq<seq<byte>>, order: ByteOrder) {
    && FrameAll(ms, order) <= y.arriving
    && Deframe(y.arriving[|FrameAll(ms, order)|..], order) == Closed && y.pending == []
    && y.written == y.before + FrameAll(ms, order)
  }

  /** The same, and then one more frame was taken, of which only a beginning got through. */
  ghost predicate CutOff(y: Way, ms: seq<seq<byte>>, order: ByteOrder) {
    exists m :: IsCutOff(y, ms, m, order)
  }

  ghost predicate IsCutOff(y: Way, ms: seq<seq<byte>>, m: seq<byte>, order: ByteOrder) {
    && Relayed(y.(written := y.before + FrameAll(ms + [m], order)), ms + [m], order)
    && y.limit.Allows(|y.before + FrameAll(ms, order)|)
    && !y.limit.Allows(|y.before + FrameAll(ms + [m], order)|)
    && y.written == y.limit.Cut(y.before + FrameAll(ms + [m], order))
  }

  /** Receive one message and send it on.  It stops exactly when the stream ends inside the frame, and
      then nothing is sent on, or when the other connection breaks inside it. */
  method Forward(from: Socket, to: Socket, buf: array<byte>, order: ByteOrder) returns (r: Outcome, ghost m: seq<byte>)
    requires FramesFit(from.input.pending, order, buf.Length) && buf.Length < TWO_TO_THE_31
    requires to.output.Valid()
    modifies from.input, to.output, buf
    ensures to.output.Valid()
    ensures Deframe(old(from.input.pending), order) == Closed ==>
              r == Fatal && from.input.pending == [] && to.output.written == old(to.output.written)
    ensures Deframe(old(from.input.pending), order) != Closed ==>
              && old(from.input.pending) == Frame(m, order) + from.input.pending
              && FramesFit(from.input.pending, order, buf.Length)
              && to.output.written == to.output.limit.Cut(old(to.output.written) + Frame(m, order))
              && (r == Done <==> to.output.limit.Allows(|old(to.output.written) + Frame(m, order)|))
  {
    hide Frame, Limit.Cut;
    ghost var stream := from.input.pending;
    m := [];
    var size;
    r, size := RecvLenData(from.input, buf, order);
    if r == Fatal {
      return;
    }
    m := buf[..size];
    ReceivedIsFrame(stream, order, m, from.input.pending);
    r := SendLenData(to.output, buf, size, order);
  }

  lemma ReceivedIsFrame(stream: seq<byte>, order: ByteOrder, m: seq<byte>, rest: seq<byte>)
    requires Deframe(stream, order) == Received(|m|, m, rest) && |m| < TWO_TO_THE_31
    ensures stream == Frame(m, order) + rest
  {
    EncodeDecode(stream[..4], order);
    assert stream == stream[..4] + stream[4..];
    assert stream[4..] == m + rest;
  }

  /** What one forwarded message, or a failed one, does to a way. */
  lemma NextFrameRelayed(y: Way, ms: seq<seq<byte>>, m: seq<byte>, pending: seq<byte>, written: seq<byte>,
                         order: ByteOrder)
    requires Relayed(y, ms, order) && y.limit.Allows(|y.written|)
    requires y.pending == Frame(m, order) + pending && written == y.limit.Cut(y.written + Frame(m, order))
    ensures var z := y.(pending := pending, written := written);
            if y.limit.Allows(|y.written + Frame(m, order)|) then Relayed(z, ms + [m], order)
            else CutOff(z, ms, order)
  {
    hide Frame, Limit.Cut;
    var z := y.(pending := pending, written := written);
    assert (ms + [m])[..|ms|] == ms;
    assert y.before + FrameAll(ms, order) + Frame(m, order) == y.before + FrameAll(ms + [m], order);
    NothingCut(y.limit, y.written + Frame(m, order));
    if !y.limit.Allows(|y.written + Frame(m, order)|) {
      assert IsCutOff(z, ms, m, order);
    }
  }

  lemma StreamEnded(y: Way, ms: seq<seq<byte>>, order: ByteOrder)
    requires Relayed(y, ms, order) && Deframe(y.pending, order) == Closed
    ensures Ended(y.(pending := []), ms, order)
  {}

  // ---------- both directions ----------

  ghost function Requests(enclave: Socket, device: Socket, arriving: seq<byte>, before: seq<byte>): Way
    reads device.input, enclave.output
  {
    Way(arriving, device.input.pending, before, enclave.output.written, enclave.output.limit)
  }

  ghost function Responses(enclave: Socket, device: Socket, arriving: seq<byte>, before: seq<byte>): Way
    reads enclave.input, device.output
  {
    Way(arriving, enclave.input.pending, before, device.output.written, device.output.limit)
  }

  /** Where the loop stops: while serving a request, with as many responses relayed as requests, or while
      serving the response to the last request; always because the stream being read ends inside a frame
      or the connection being written breaks inside one. */
  ghost predicate Stopped(requests: Way, responses: Way, asked: seq<seq<byte>>, answered: seq<seq<byte>>,
                          order: ByteOrder)
  {
    || (|asked| == |answered|
        && (Ended(requests, asked, order) || CutOff(requests, asked, order)) && Relayed(responses, answered, order))
    || (|asked| == |answered| + 1
        && Relayed(requests, asked, order) && (Ended(responses, answered, order) || CutOff(responses, answered, order)))
  }

  /** Rounds of the relay: a request from the device to the enclave, then a response back.  Up to the point
      where it stops, the enclave has been sent exactly the frames taken from the device, and the device
      exactly those taken from the enclave, in lockstep. */
  method DoRelayOffload(enclave: Socket, device: Socket, buf: array<byte>, order: ByteOrder)
    returns (ghost asked: seq<seq<byte>>, ghost answered: seq<seq<byte>>)
    requires enclave.input != device.input && enclave.output != device.output
    requires enclave.output.Valid() && device.output.Valid() && buf.Length == BUFFER
    requires FramesFit(device.input.pending, order, BUFFER) && FramesFit(enclave.input.pending, order, BUFFER)
    modifies device.input, device.output, enclave.input, enclave.output, buf
    ensures Stopped(Requests(enclave, device, old(device.input.pending), old(enclave.output.written)),
                    Responses(enclave, device, old(enclave.input.pending), old(device.output.written)),
                    asked, answered, order)
  {
    hide Relayed, Ended, CutOff, Frame, FrameAll, FramesFit, Deframe, Limit.Cut, Limit.Allows;
    asked, answered := [], [];
    ghost var toCome, sent := device.input.pending, enclave.output.written;
    ghost var toCome', sent' := enclave.input.pending, device.output.written;
    NothingYet(Requests(enclave, device, toCome, sent), order);
    NothingYet(Responses(enclave, device, toCome', sent'), order);
    while true
      invariant |asked| == |answered| && enclave.output.Valid() && device.output.Valid()
      invariant Relayed(Requests(enclave, device, toCome, sent), asked, order)
      invariant Relayed(Responses(enclave, device, toCome', sent'), answered, order)
      invariant FramesFit(device.input.pending, order, BUFFER) && FramesFit(enclave.input.pending, order, BUFFER)
      decreases |device.input.pending|
    {
      ghost var y, y' := Requests(enclave, device, toCome, sent), Responses(enclave, device, toCome', sent');
      var r;
      ghost var m;
      r, m := Forward(device, enclave, buf, order);
      assert Responses(enclave, device, toCome', sent') == y';
      RoundHalf(y, Requests(enclave, device, toCome, sent), asked, m, r, order);
      if r == Fatal {
        return;
      }
      asked := asked + [m];
      y := Requests(enclave, device, toCome, sent);
      r, m := Forward(enclave, device, buf, order);
      assert Requests(enclave, device, toCome, sent) == y;
      RoundHalf(y', Responses(enclave, device, toCome', sent'), answered, m, r, order);
      if r == Fatal {
        return;
      }
      answered := answered + [m];
    }
  }

  /** One call of Forward, seen from its way. */
  lemma RoundHalf(y: Way, z: Way, ms: seq<seq<byte>>, m: seq<byte>, r: Outcome, order: ByteOrder)
    requires Relayed(y, ms, order) && y.limit.Allows(|y.written|)
    requires z == y.(pending := z.pending, written := z.written)
    requires Deframe(y.pending, order) == Closed ==> r == Fatal && z.pending == [] && z.written == y.written
    requires Deframe(y.pending, order) != Closed ==>
               && y.pending == Frame(m, order) + z.pending
               && z.written == y.limit.Cut(y.written + Frame(m, order))
               && (r == Done <==> y.limit.Allows(|y.written + Frame(m, order)|))
    ensures if r == Done then Relayed(z, ms + [m], order) else Ended(z, ms, order) || CutOff(z, ms, order)
    ensures r == Done ==> |z.pending| < |y.pending|
  {
    hide Relayed, Ended, CutOff, Frame, Deframe, Limit.Cut, Limit.Allows;
    if Deframe(y.pending, order) == Closed {
      StreamEnded(y, ms, order);
    } else {
      NextFrameRelayed(y, ms, m, z.pending, z.written, order);
    }
  }

  lemma NothingYet(y: Way, order: ByteOrder)
    requires y.pending == y.arriving && y.written == y.before
    ensures Relayed(y, [], order)
  {}

  // ---------- what the other side makes of it ----------

  /** If the bytes to arrive are the frames of some messages, those relayed are the first of them, and when
      the stream ends they are all there were. */
  lemma RelayedInOrder(y: Way, ms: seq<seq<byte>>, all: seq<seq<byte>>, order: ByteOrder)
    requires Sendable(ms) && Sendable(all) && y.arriving == FrameAll(all, order)
    requires Relayed(y, ms, order) || Ended(y, ms, order)
    ensures ms <= all
    ensures Ended(y, ms, order) ==> ms == all
  {
    hide Frame, Deframe, FrameAll;
    var rest := y.arriving[|FrameAll(ms, order)|..];
    assert y.arriving == FrameAll(ms, order) + rest;
    FramesDetermineMessages(all, ms, rest, order);
    if Ended(y, ms, order) && ms != all {
      var left := all[|ms|..];
      FrameAllFirst(left, order);
      DeframeFrame(left[0], FrameAll(left[1..], order), order);
      assert false;
    }
  }
}
