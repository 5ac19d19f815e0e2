/** What the relay guarantees in every reachable state: transparency, safety and progress. */
module RelayTheorems {
  import opened Framing
  import opened Link
  import opened Relay
  import opened RelayInvariant

  // ---------- transparency ----------

  /** Whatever one endpoint has received is what the other began to send, from the first message on. */
  lemma EndToEnd(w: World, s: State)
    requires Inv(w, s)
    ensures s.enc.rcvd <= s.gw.toEnclave == s.gw.fromDevice <= s.dev.sent
    ensures s.dev.rcvd <= s.gw.toDevice == s.gw.fromEnclave <= s.enc.sent
  {
    hide Ok, DeviceMeaning, EnclaveMeaning;
    Delivered(EG(s), w.order);
    Delivered(GD(s), w.order);
    Delivered(DG(s), w.order);
    Delivered(GE(s), w.order);
  }

  /** Each endpoint works with the other's true public key, the k-th request the enclave reads is the
      device's request k, and the k-th answer the device reads is the enclave's response k (counters are
      C ints). */
  ghost predicate Transparent(w: World, s: State) {
    && s.enc.rcvd <= s.dev.sent && s.dev.rcvd <= s.enc.sent
    && (s.dev.rcvd != [] ==> s.dev.enclavePub == w.pub(w.enclaveKey))
    && (s.enc.rcvd != [] ==> s.enc.devicePub == w.pub(w.deviceKey))
    && (forall k :: 0 <= k < |s.enc.seen| ==> s.enc.seen[k] == OffloadRequest(ToInt32(k)))
    && (forall k :: 0 <= k < |s.dev.answers| ==> s.dev.answers[k] == OffloadResponse(ToInt32(k)))
  }

  lemma KeysAgree(w: World, s: State)
    requires Lawful(w) && Inv(w, s)
    ensures s.dev.rcvd != [] ==> s.dev.enclavePub == w.pub(w.enclaveKey)
    ensures s.enc.rcvd != [] ==> s.enc.devicePub == w.pub(w.deviceKey)
  {
    hide Ok;
    EndToEnd(w, s);
    assert s.dev.rcvd != [] ==> s.dev.rcvd[0] == s.enc.sent[0];
    assert s.enc.rcvd != [] ==> s.enc.rcvd[0] == s.dev.sent[0];
  }

  lemma RequestSeen(w: World, s: State, k: nat)
    requires Lawful(w) && Inv(w, s) && k < |s.enc.seen|
    ensures s.enc.seen[k] == OffloadRequest(ToInt32(k))
  {
    hide Ok;
    EndToEnd(w, s);
    KeysAgree(w, s);
    assert |s.enc.rcvd| > k + 1;
    assert s.enc.rcvd[k + 1] == s.dev.sent[k + 1];
    assert |s.dev.rcvd| > 0;
  }

  lemma ResponseRead(w: World, s: State, k: nat)
    requires Lawful(w) && Inv(w, s) && k < |s.dev.answers|
    ensures s.dev.answers[k] == OffloadResponse(ToInt32(k))
  {
    hide Ok;
    EndToEnd(w, s);
    KeysAgree(w, s);
    assert |s.dev.rcvd| > k + 1;
    assert s.dev.rcvd[k + 1] == s.enc.sent[k + 1];
    assert |s.enc.rcvd| > 0;
  }

  lemma RelayTransparent(w: World, s: State)
    requires Lawful(w) && Inv(w, s)
    ensures Transparent(w, s)
  {
    hide Ok, DeviceMeaning, EnclaveMeaning;
    EndToEnd(w, s);
    KeysAgree(w, s);
    forall k | 0 <= k < |s.enc.seen|
      ensures s.enc.seen[k] == OffloadRequest(ToInt32(k))
    {
      RequestSeen(w, s, k);
    }
    forall k | 0 <= k < |s.dev.answers|
      ensures s.dev.answers[k] == OffloadResponse(ToInt32(k))
    {
      ResponseRead(w, s, k);
    }
  }

  // ---------- safety ----------

  /** The bytes under way are exactly the frames of the messages sent but not yet received. */
  ghost predicate Accounted(l: Link, order: ByteOrder) {
    l.rcvd <= l.sent && l.got + (l.chan + l.out) == FrameAll(l.sent[|l.rcvd|..], order)
  }

  function UnderWayOn(l: Link): int {
    |l.sent| - |l.rcvd|
  }

  /** At most one request is outstanding, every byte in flight belongs to the message that the program
      orders predict, and only the public key and the first request ever share the way to the enclave. */
  ghost predicate InFlight(w: World, s: State) {
    && |s.dev.sent| <= |s.dev.rcvd| + 1
    && Accounted(EG(s), w.order) && Accounted(GD(s), w.order) && Accounted(DG(s), w.order) && Accounted(GE(s), w.order)
    && UnderWayOn(EG(s)) <= 1 && UnderWayOn(GD(s)) <= 1
    && UnderWayOn(DG(s)) <= (if s.gw.fromDevice == [] then 2 else 1)
    && UnderWayOn(GE(s)) <= (if s.enc.rcvd == [] then 2 else 1)
  }

  lemma CountsUnderWay(w: World, s: State)
    requires Inv(w, s)
    ensures |s.dev.sent| <= |s.dev.rcvd| + 1
    ensures UnderWayOn(EG(s)) <= 1 && UnderWayOn(GD(s)) <= 1
    ensures UnderWayOn(DG(s)) <= (if s.gw.fromDevice == [] then 2 else 1)
    ensures UnderWayOn(GE(s)) <= (if s.enc.rcvd == [] then 2 else 1)
  {
    EndToEnd(w, s);
    hide Ok, DeviceMeaning, EnclaveMeaning, Links;
  }

  lemma RelaySafe(w: World, s: State)
    requires Inv(w, s)
    ensures InFlight(w, s)
  {
    hide Ok, DeviceMeaning, EnclaveMeaning, DeviceOrder, GatewayOrder, EnclaveOrder, EG, GD, DG, GE;
    CountsUnderWay(w, s);
    Delivered(EG(s), w.order);
    Delivered(GD(s), w.order);
    Delivered(DG(s), w.order);
    Delivered(GE(s), w.order);
  }

  /** The buffer each party reads its next message into. */
  function DeviceBuffer(d: Device): nat {
    if d.pc == AwaitDoc then DOC_BUFFER else CIPHER_BUFFER
  }

  function GatewayBuffer(g: Gateway): nat {
    if g.pc == RecvDoc then DOC_BUFFER else GATEWAY_BUFFER
  }

  function EnclaveBuffer(e: Enclave): nat {
    if e.pc == AwaitKey then PEM_BUFFER else CIPHER_BUFFER
  }

  /** The frame being read announces a size that its buffer holds. */
  ghost predicate Holds(got: seq<byte>, order: ByteOrder, capacity: nat) {
    |got| >= 4 ==> 0 < DecodeLen(got[..4], order) <= capacity
  }

  lemma AnnouncedFits(l: Link, order: ByteOrder, capacity: nat)
    requires Ok(l, order) && (|l.rcvd| < |l.sent| ==> |l.sent[|l.rcvd|]| <= capacity)
    ensures Holds(l.got, order, capacity)
  {
    if |l.got| >= 4 {
      NextFrame(l, order);
      FramePrefix(l.got, l.chan + l.out, l.sent[|l.rcvd|], FrameAll(l.sent[|l.rcvd| + 1..], order), order);
    }
  }

  lemma DeviceSizes(w: World, s: State, k: nat)
    requires Lawful(w) && Inv(w, s) && k < |s.dev.sent|
    ensures |s.dev.sent[k]| <= if k == 0 then GATEWAY_BUFFER else CIPHER_BUFFER
  {}

  lemma EnclaveSizes(w: World, s: State, k: nat)
    requires Lawful(w) && Inv(w, s) && k < |s.enc.sent|
    ensures |s.enc.sent[k]| <= if k == 0 then DOC_BUFFER else CIPHER_BUFFER
  {}

  /** No party is reading a frame larger than its buffer. */
  ghost predicate WithinBuffers(w: World, s: State) {
    && (DeviceReading(s.dev) ==> Holds(s.dev.got, w.order, DeviceBuffer(s.dev)))
    && (FromDevice(s.gw.pc) || FromEnclave(s.gw.pc) ==> Holds(s.gw.got, w.order, GatewayBuffer(s.gw)))
    && (EnclaveReading(s.enc) ==> Holds(s.enc.got, w.order, EnclaveBuffer(s.enc)))
  }

  /** No receive ever announces more than the fixed buffer it fills. */
  lemma BuffersSuffice(w: World, s: State)
    requires Lawful(w) && Inv(w, s)
    ensures WithinBuffers(w, s)
  {
    hide Ok, DeviceMeaning, EnclaveMeaning, Holds;
    EndToEnd(w, s);
    var d, a, b, e := |s.dev.rcvd|, |s.gw.fromEnclave|, |s.gw.fromDevice|, |s.enc.rcvd|;
    if d < |s.enc.sent| { EnclaveSizes(w, s, d); }
    if a < |s.enc.sent| { EnclaveSizes(w, s, a); }
    if b < |s.dev.sent| { DeviceSizes(w, s, b); }
    if e < |s.dev.sent| { DeviceSizes(w, s, e); }
    if DeviceReading(s.dev) { AnnouncedFits(GD(s), w.order, DeviceBuffer(s.dev)); }
    if FromDevice(s.gw.pc) { AnnouncedFits(DG(s), w.order, GatewayBuffer(s.gw)); }
    if FromEnclave(s.gw.pc) { AnnouncedFits(EG(s), w.order, GatewayBuffer(s.gw)); }
    if EnclaveReading(s.enc) { AnnouncedFits(GE(s), w.order, EnclaveBuffer(s.enc)); }
  }

  // ---------- progress ----------

  /** Some party can take a step that is more than the device choosing local work. */
  ghost predicate CanProgress(w: World, s: State) {
    exists step :: step != DeviceLocal && Enabled(w, s, step)
  }

  lemma Progresses(w: World, s: State, step: Step)
    requires step != DeviceLocal && Enabled(w, s, step)
    ensures CanProgress(w, s)
  {}

  /** A receiver that waits for a message under way can read, or the sender can write. */
  lemma ReceiverServed(l: Link, w: World)
    requires Lawful(w) && Ok(l, w.order) && |l.rcvd| < |l.sent|
    ensures CanRead(w, l.got, l.chan, 1) || CanWrite(w, l.out, l.chan, 1)
  {
    UnderWay(l, w.order);
  }

  /** A sender can write, or the channel holds something to read. */
  lemma SenderServed(l: Link, w: World)
    requires Lawful(w) && Ok(l, w.order) && l.out != []
    ensures |l.rcvd| < |l.sent|
    ensures CanWrite(w, l.out, l.chan, 1) || CanRead(w, l.got, l.chan, 1)
  {
    NotYetReceived(l, w.order);
  }

  lemma DeviceWaits(w: World, s: State)
    requires Lawful(w) && Inv(w, s) && DeviceReading(s.dev) && |s.dev.rcvd| < |s.gw.toDevice|
    ensures CanProgress(w, s)
  {
    hide Ok, DeviceMeaning, EnclaveMeaning, CanRead, CanWrite, CanProgress;
    ReceiverServed(GD(s), w);
    if CanRead(w, s.dev.got, s.gd, 1) {
      Progresses(w, s, DeviceRead(1));
    } else {
      EmptyCannotWrite(w, s.gd);
      Progresses(w, s, GatewayWrite(1));
    }
  }

  lemma EmptyCannotWrite(w: World, chan: seq<byte>)
    ensures !CanWrite(w, [], chan, 1)
  {}

  lemma EnclaveWaits(w: World, s: State)
    requires Lawful(w) && Inv(w, s) && EnclaveReading(s.enc) && |s.enc.rcvd| < |s.gw.toEnclave|
    ensures CanProgress(w, s)
  {
    hide Ok, DeviceMeaning, EnclaveMeaning, CanRead, CanWrite, CanProgress;
    ReceiverServed(GE(s), w);
    if CanRead(w, s.enc.got, s.ge, 1) {
      Progresses(w, s, EnclaveRead(1));
    } else {
      EmptyCannotWrite(w, s.ge);
      Progresses(w, s, GatewayWrite(1));
    }
  }

  lemma GatewayWaitsForDevice(w: World, s: State)
    requires Lawful(w) && Inv(w, s) && FromDevice(s.gw.pc) && |s.gw.fromDevice| < |s.dev.sent|
    ensures CanProgress(w, s)
  {
    hide Ok, DeviceMeaning, EnclaveMeaning, CanRead, CanWrite, CanProgress;
    ReceiverServed(DG(s), w);
    if CanRead(w, s.gw.got, s.dg, 1) {
      Progresses(w, s, GatewayRead(1));
    } else {
      EmptyCannotWrite(w, s.dg);
      Progresses(w, s, DeviceWrite(1));
    }
  }

  lemma GatewayWaitsForEnclave(w: World, s: State)
    requires Lawful(w) && Inv(w, s) && FromEnclave(s.gw.pc) && |s.gw.fromEnclave| < |s.enc.sent|
    ensures CanProgress(w, s)
  {
    hide Ok, DeviceMeaning, EnclaveMeaning, CanRead, CanWrite, CanProgress;
    ReceiverServed(EG(s), w);
    if CanRead(w, s.gw.got, s.eg, 1) {
      Progresses(w, s, GatewayRead(1));
    } else {
      EmptyCannotWrite(w, s.eg);
      Progresses(w, s, EnclaveWrite(1));
    }
  }

  /** While the gateway sends, the receiver of that message is waiting for it. */
  lemma GatewaySends(w: World, s: State)
    requires Lawful(w) && Inv(w, s) && (ToDevice(s.gw.pc) || ToEnclave(s.gw.pc))
    ensures CanProgress(w, s)
  {
    hide Ok, DeviceMeaning, EnclaveMeaning, CanRead, CanWrite, CanProgress;
    EndToEnd(w, s);
    if s.enc.out != [] { SenderServed(EG(s), w); }
    if s.dev.out != [] { SenderServed(DG(s), w); }
    if s.enc.pc == Respond {
      RespondEnabled(w, s);
    } else if s.dev.pc == MakeKey {
      Progresses(w, s, DeviceKey);
    } else if s.dev.pc == Choose {
      Progresses(w, s, DeviceOffload(0));
    } else if ToDevice(s.gw.pc) {
      SenderServed(GD(s), w);
      DeviceWaits(w, s);
    } else {
      SenderServed(GE(s), w);
      EnclaveWaits(w, s);
    }
  }

  lemma RespondEnabled(w: World, s: State)
    requires Lawful(w) && Inv(w, s) && s.enc.pc == Respond
    ensures CanProgress(w, s)
  {
    hide Ok;
    EndToEnd(w, s);
    var last := |s.enc.rcvd| - 1;
    assert s.enc.rcvd[last] == s.dev.sent[last];
    Progresses(w, s, EnclaveRespond(0));
  }

  /** The handshake and the loop never deadlock: whatever the sizes of the reads and writes so far, and
      however small the channels, some party can go on. */
  lemma RelayProgress(w: World, s: State)
    requires Lawful(w) && Inv(w, s)
    ensures CanProgress(w, s)
  {
    hide Ok, DeviceMeaning, EnclaveMeaning, CanRead, CanWrite, CanProgress;
    EndToEnd(w, s);
    if ToDevice(s.gw.pc) || ToEnclave(s.gw.pc) {
      GatewaySends(w, s);
    } else if s.enc.pc == Respond {
      RespondEnabled(w, s);
    } else if s.dev.pc == MakeKey {
      Progresses(w, s, DeviceKey);
    } else if s.dev.pc == Choose {
      Progresses(w, s, DeviceOffload(0));
    } else if FromDevice(s.gw.pc) {
      if |s.gw.fromDevice| < |s.dev.sent| {
        GatewayWaitsForDevice(w, s);
      } else {
        if s.dev.out != [] { SenderServed(DG(s), w); }
        DeviceWaits(w, s);
      }
    } else if |s.gw.fromEnclave| < |s.enc.sent| {
      GatewayWaitsForEnclave(w, s);
    } else {
      if s.enc.out != [] { SenderServed(EG(s), w); }
      EnclaveWaits(w, s);
    }
  }

  // ---------- refinement of a direct exchange ----------

  /** Device and enclave connected directly: the messages each has sent and received. */
  datatype Direct = Direct(deviceSent: seq<Msg>, enclaveRcvd: seq<Msg>, enclaveSent: seq<Msg>, deviceRcvd: seq<Msg>)

  function Abstract(s: State): Direct {
    Direct(s.dev.sent, s.enc.rcvd, s.enc.sent, s.dev.rcvd)
  }

  /** At the start the enclave has its attestation document to send. */
  ghost function DirectInit(w: World): Direct {
    Direct([], [], [w.attest(w.pub(w.enclaveKey))], [])
  }

  /** The device sends its key once it has the document, and a request once all answers are in. */
  ghost predicate DeviceTurn(w: World, d: Direct, m: Msg) {
    && d.deviceRcvd != [] && |d.deviceSent| <= |d.deviceRcvd|
    && if d.deviceSent == [] then m == w.writePem(w.pub(w.deviceKey))
       else |d.deviceSent| == |d.deviceRcvd|
            && w.decrypt(w.enclaveKey, m) == OffloadRequest(ToInt32(|d.deviceSent| - 1))
  }

  /** The enclave answers each request once. */
  ghost predicate EnclaveTurn(w: World, d: Direct, m: Msg) {
    && |d.enclaveRcvd| == |d.enclaveSent| + 1 && d.enclaveSent != []
    && w.decrypt(w.deviceKey, m) == OffloadResponse(ToInt32(|d.enclaveSent| - 1))
  }

  ghost predicate DirectNext(w: World, d: Direct, d': Direct) {
    || (exists m :: DeviceTurn(w, d, m) && d' == d.(deviceSent := d.deviceSent + [m]))
    || (exists m :: EnclaveTurn(w, d, m) && d' == d.(enclaveSent := d.enclaveSent + [m]))
    || (|d.enclaveRcvd| < |d.deviceSent|
        && d' == d.(enclaveRcvd := d.enclaveRcvd + [d.deviceSent[|d.enclaveRcvd|]]))
    || (|d.deviceRcvd| < |d.enclaveSent|
        && d' == d.(deviceRcvd := d.deviceRcvd + [d.enclaveSent[|d.deviceRcvd|]]))
  }

  lemma DeviceReadRefines(w: World, s: State, n: nat)
    requires Lawful(w) && Inv(w, s) && Enabled(w, s, DeviceRead(n))
    ensures var d, d' := Abstract(s), Abstract(Next(w, s, DeviceRead(n)));
            d' == d || (|d.deviceRcvd| < |d.enclaveSent|
                        && d' == d.(deviceRcvd := d.deviceRcvd + [d.enclaveSent[|d.deviceRcvd|]]))
  {
    hide Ok, DeviceMeaning, EnclaveMeaning, Need;
    EndToEnd(w, s);
    if Need(s.dev.got + s.gd[..n], w.order) <= 0 {
      ReadLast(GD(s), n, w.order);
    }
  }

  lemma EnclaveReadRefines(w: World, s: State, n: nat)
    requires Lawful(w) && Inv(w, s) && Enabled(w, s, EnclaveRead(n))
    ensures var d, d' := Abstract(s), Abstract(Next(w, s, EnclaveRead(n)));
            d' == d || (|d.enclaveRcvd| < |d.deviceSent|
                        && d' == d.(enclaveRcvd := d.enclaveRcvd + [d.deviceSent[|d.enclaveRcvd|]]))
  {
    hide Ok, DeviceMeaning, EnclaveMeaning, Need;
    EndToEnd(w, s);
    if Need(s.enc.got + s.ge[..n], w.order) <= 0 {
      ReadLast(GE(s), n, w.order);
    }
  }

  lemma DeviceSendRefines(w: World, s: State, step: Step)
    requires Lawful(w) && Inv(w, s) && Enabled(w, s, step) && (step == DeviceKey || step.DeviceOffload?)
    ensures DirectNext(w, Abstract(s), Abstract(Next(w, s, step)))
  {
    hide Ok, DeviceMeaning, EnclaveMeaning;
    KeysAgree(w, s);
    var m := if step == DeviceKey then w.writePem(w.pub(w.deviceKey))
             else w.encrypt(s.dev.enclavePub, step.seed, OffloadRequest(ToInt32(s.dev.nOffloads)));
    assert DeviceTurn(w, Abstract(s), m);
  }

  lemma EnclaveSendRefines(w: World, s: State, seed: nat)
    requires Lawful(w) && Inv(w, s) && Enabled(w, s, EnclaveRespond(seed))
    ensures DirectNext(w, Abstract(s), Abstract(Next(w, s, EnclaveRespond(seed))))
  {
    hide Ok, DeviceMeaning, EnclaveMeaning;
    KeysAgree(w, s);
    var m := w.encrypt(s.enc.devicePub, seed, OffloadResponse(ToInt32(s.enc.nResponse)));
    assert EnclaveTurn(w, Abstract(s), m);
  }

  /** Every step of the three parties is a step of the direct exchange, or invisible to it. */
  lemma RelayRefinesDirect(w: World, s: State, step: Step)
    requires Lawful(w) && Inv(w, s) && Enabled(w, s, step)
    ensures Abstract(Next(w, s, step)) == Abstract(s) || DirectNext(w, Abstract(s), Abstract(Next(w, s, step)))
  {
    hide DeviceTurn, EnclaveTurn, Inv;
    match step
    case DeviceWrite(_) =>
    case DeviceRead(n) => DeviceReadRefines(w, s, n);
    case DeviceKey => DeviceSendRefines(w, s, step);
    case DeviceLocal =>
    case DeviceOffload(_) => DeviceSendRefines(w, s, step);
    case GatewayWrite(_) =>
    case GatewayRead(_) =>
    case EnclaveWrite(_) =>
    case EnclaveRead(n) => EnclaveReadRefines(w, s, n);
    case EnclaveRespond(seed) => EnclaveSendRefines(w, s, seed);
  }

  // ---------- over whole runs ----------

  /** Every state of every run is transparent, safe, within its buffers and able to go on, and the run is
      one of the direct exchange. */
  lemma EveryRun(w: World, states: seq<State>, steps: seq<Step>, i: nat)
    requires Lawful(w) && IsRun(w, states, steps) && i < |states|
    ensures Transparent(w, states[i]) && InFlight(w, states[i])
    ensures WithinBuffers(w, states[i]) && CanProgress(w, states[i])
    ensures Abstract(states[0]) == DirectInit(w)
    ensures i < |steps| ==> Abstract(states[i + 1]) == Abstract(states[i])
                            || DirectNext(w, Abstract(states[i]), Abstract(states[i + 1]))
  {
    hide Inv, Transparent, InFlight, WithinBuffers, CanProgress, DirectNext;
    RunKeeps(w, states, steps, i);
    RelayTransparent(w, states[i]);
    RelaySafe(w, states[i]);
    BuffersSuffice(w, states[i]);
    RelayProgress(w, states[i]);
    if i < |steps| {
      RelayRefinesDirect(w, states[i], steps[i]);
    }
  }
}
