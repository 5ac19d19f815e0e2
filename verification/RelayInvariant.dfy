/** What every reachable state of the relay satisfies. */
module RelayInvariant {
  import opened Framing
  import opened Link
  import opened Relay

  // ---------- the four links of a state ----------

  function EG(s: State): Link {
    Link(s.enc.sent, s.enc.out, s.eg, if FromEnclave(s.gw.pc) then s.gw.got else [], s.gw.fromEnclave)
  }

  function GD(s: State): Link {
    Link(s.gw.toDevice, if ToDevice(s.gw.pc) then s.gw.out else [], s.gd, s.dev.got, s.dev.rcvd)
  }

  function DG(s: State): Link {
    Link(s.dev.sent, s.dev.out, s.dg, if FromDevice(s.gw.pc) then s.gw.got else [], s.gw.fromDevice)
  }

  function GE(s: State): Link {
    Link(s.gw.toEnclave, if ToEnclave(s.gw.pc) then s.gw.out else [], s.ge, s.enc.got, s.enc.rcvd)
  }

  // ---------- program order of each party ----------

  ghost predicate DeviceOrder(d: Device) {
    var s, r := |d.sent|, |d.rcvd|;
    && (d.out != [] <==> DeviceSending(d)) && (!DeviceReading(d) ==> d.got == [])
    && |d.answers| == (if r == 0 then 0 else r - 1) && d.nOffloads == (if s == 0 then 0 else s - 1)
    && match d.pc
       case AwaitDoc => s == 0 && r == 0
       case MakeKey => s == 0 && r == 1
       case SendKey => s == 1 && r == 1
       case Choose => s == r && r >= 1
       case SendRequest => s == r + 1 && r >= 1
       case AwaitResponse => s == r + 1 && r >= 1
  }

  ghost predicate GatewayOrder(g: Gateway) {
    var a, b := |g.fromEnclave|, |g.fromDevice|;
    && g.toDevice == g.fromEnclave && g.toEnclave == g.fromDevice
    && (g.out != [] <==> ToDevice(g.pc) || ToEnclave(g.pc))
    && (ToDevice(g.pc) || ToEnclave(g.pc) ==> g.got == [])
    && match g.pc
       case RecvDoc => a == 0 && b == 0
       case SendDocOn => a == 1 && b == 0
       case RecvPem => a == 1 && b == 0
       case SendPemOn => a == 1 && b == 1
       case RecvRequest => a == b && a >= 1
       case SendRequestOn => b == a + 1 && a >= 1
       case RecvResponse => b == a + 1 && a >= 1
       case SendResponseOn => a == b && a >= 2
  }

  ghost predicate EnclaveOrder(e: Enclave) {
    var s, r := |e.sent|, |e.rcvd|;
    && (e.out != [] <==> EnclaveSending(e)) && (!EnclaveReading(e) ==> e.got == [])
    && s >= 1 && |e.seen| == e.nResponse == s - 1
    && match e.pc
       case SendDoc => s == 1 && r == 0
       case AwaitKey => s == 1 && r == 0
       case AwaitRequest => s == r && r >= 1
       case Respond => r == s + 1
       case SendResponse => s == r && r >= 2
  }

  // ---------- what the messages mean ----------

  ghost predicate Ciphertext(m: Msg) {
    0 < |m| <= CIPHER_BUFFER
  }

  ghost predicate DeviceMeaning(w: World, d: Device) {
    && (d.rcvd != [] ==> d.enclavePub == w.readAttest(d.rcvd[0]))
    && (d.sent != [] ==> d.sent[0] == w.writePem(w.pub(w.deviceKey)))
    && (forall k :: 0 < k < |d.sent| ==> Ciphertext(d.sent[k]))
    && (d.enclavePub == w.pub(w.enclaveKey) ==>
          forall k :: 0 < k < |d.sent| ==> w.decrypt(w.enclaveKey, d.sent[k]) == OffloadRequest(ToInt32(k - 1)))
    && forall k :: 0 < k < |d.rcvd| && k <= |d.answers| ==> d.answers[k - 1] == w.decrypt(w.deviceKey, d.rcvd[k])
  }

  ghost predicate EnclaveMeaning(w: World, e: Enclave) {
    && e.sent != [] && e.sent[0] == w.attest(w.pub(w.enclaveKey))
    && (e.rcvd != [] ==> e.devicePub == w.readPem(e.rcvd[0]))
    && (forall k :: 0 < k < |e.sent| ==> Ciphertext(e.sent[k]))
    && (e.devicePub == w.pub(w.deviceKey) ==>
          forall k :: 0 < k < |e.sent| ==> w.decrypt(w.deviceKey, e.sent[k]) == OffloadResponse(ToInt32(k - 1)))
    && forall k :: 0 < k < |e.rcvd| && k <= |e.seen| ==> e.seen[k - 1] == w.decrypt(w.enclaveKey, e.rcvd[k])
  }

  ghost predicate Links(w: World, s: State) {
    Ok(EG(s), w.order) && Ok(GD(s), w.order) && Ok(DG(s), w.order) && Ok(GE(s), w.order)
  }

  ghost predicate Inv(w: World, s: State) {
    && DeviceOrder(s.dev) && GatewayOrder(s.gw) && EnclaveOrder(s.enc)
    && DeviceMeaning(w, s.dev) && EnclaveMeaning(w, s.enc)
    && Links(w, s)
  }

  // ---------- it holds initially and is kept by every step ----------

  lemma InitHolds(w: World)
    requires Lawful(w)
    ensures Inv(w, Init(w))
  {
    var doc := w.attest(w.pub(w.enclaveKey));
    EmptyOk(w.order);
    BeginSend(Link([], [], [], [], []), doc, w.order);
    assert [] + [doc] == [doc];
  }

  lemma DeviceWriteKeeps(w: World, s: State, n: nat)
    requires Lawful(w) && Inv(w, s) && Enabled(w, s, DeviceWrite(n))
    ensures Inv(w, Next(w, s, DeviceWrite(n)))
  {
    hide Ok, DeviceMeaning, EnclaveMeaning;
    WriteSome(DG(s), n, w.order);
    SameDeviceMeaning(w, s.dev, DeviceWrites(s.dev, n));
  }

  lemma SameDeviceMeaning(w: World, d: Device, d': Device)
    requires DeviceMeaning(w, d) && d'.sent == d.sent && d'.rcvd == d.rcvd && d'.answers == d.answers
    requires d'.enclavePub == d.enclavePub
    ensures DeviceMeaning(w, d')
  {}

  lemma SameEnclaveMeaning(w: World, e: Enclave, e': Enclave)
    requires EnclaveMeaning(w, e) && e'.sent == e.sent && e'.rcvd == e.rcvd && e'.seen == e.seen
    requires e'.devicePub == e.devicePub
    ensures EnclaveMeaning(w, e')
  {}

  lemma DeviceReadKeeps(w: World, s: State, n: nat)
    requires Lawful(w) && Inv(w, s) && Enabled(w, s, DeviceRead(n))
    ensures Inv(w, Next(w, s, DeviceRead(n)))
  {
    hide Ok, DeviceMeaning, EnclaveMeaning, Need;
    var got := s.dev.got + s.gd[..n];
    if Need(got, w.order) > 0 {
      ReadSome(GD(s), n, w.order);
      SameDeviceMeaning(w, s.dev, s.dev.(got := got));
    } else {
      ReadLast(GD(s), n, w.order);
      DeviceReceivesMeaning(w, s.dev, got[4..]);
    }
  }

  lemma DeviceReceivesMeaning(w: World, d: Device, m: Msg)
    requires DeviceMeaning(w, d) && DeviceOrder(d) && DeviceReading(d)
    ensures DeviceMeaning(w, DeviceReceives(w, d, m))
  {}

  lemma DeviceKeyKeeps(w: World, s: State)
    requires Lawful(w) && Inv(w, s) && Enabled(w, s, DeviceKey)
    ensures Inv(w, Next(w, s, DeviceKey))
  {
    hide Ok, EnclaveMeaning;
    BeginSend(DG(s), w.writePem(w.pub(w.deviceKey)), w.order);
  }

  lemma DeviceOffloadKeeps(w: World, s: State, seed: nat)
    requires Lawful(w) && Inv(w, s) && Enabled(w, s, DeviceOffload(seed))
    ensures Inv(w, Next(w, s, DeviceOffload(seed)))
  {
    hide Ok, DeviceMeaning, EnclaveMeaning;
    DeviceOffloadsMeaning(w, s.dev, seed);
    BeginSend(DG(s), w.encrypt(s.dev.enclavePub, seed, OffloadRequest(ToInt32(s.dev.nOffloads))), w.order);
  }

  lemma DeviceOffloadsMeaning(w: World, d: Device, seed: nat)
    requires Lawful(w) && DeviceMeaning(w, d) && DeviceOrder(d) && d.pc == Choose
    ensures DeviceMeaning(w, DeviceOffloads(w, d, seed))
  {}

  lemma GatewayWriteKeeps(w: World, s: State, n: nat)
    requires Lawful(w) && Inv(w, s) && Enabled(w, s, GatewayWrite(n))
    ensures Inv(w, Next(w, s, GatewayWrite(n)))
  {
    hide Ok, DeviceMeaning, EnclaveMeaning;
    if ToDevice(s.gw.pc) {
      WriteSome(GD(s), n, w.order);
    } else {
      WriteSome(GE(s), n, w.order);
    }
  }

  lemma GatewayReadDeviceKeeps(w: World, s: State, n: nat)
    requires Lawful(w) && Inv(w, s) && FromDevice(s.gw.pc) && CanRead(w, s.gw.got, s.dg, n)
    ensures Inv(w, Next(w, s, GatewayRead(n)))
  {
    hide Ok, DeviceMeaning, EnclaveMeaning, Need;
    var got := s.gw.got + s.dg[..n];
    if Need(got, w.order) > 0 {
      ReadSome(DG(s), n, w.order);
    } else {
      ReadLast(DG(s), n, w.order);
      MessageIsSendable(DG(s), w.order);
      BeginSend(GE(s), got[4..], w.order);
    }
  }

  lemma GatewayReadEnclaveKeeps(w: World, s: State, n: nat)
    requires Lawful(w) && Inv(w, s) && FromEnclave(s.gw.pc) && CanRead(w, s.gw.got, s.eg, n)
    ensures Inv(w, Next(w, s, GatewayRead(n)))
  {
    hide Ok, DeviceMeaning, EnclaveMeaning, Need;
    var got := s.gw.got + s.eg[..n];
    if Need(got, w.order) > 0 {
      ReadSome(EG(s), n, w.order);
    } else {
      ReadLast(EG(s), n, w.order);
      MessageIsSendable(EG(s), w.order);
      BeginSend(GD(s), got[4..], w.order);
    }
  }

  lemma MessageIsSendable(l: Link, order: ByteOrder)
    requires Ok(l, order) && |l.rcvd| < |l.sent|
    ensures |l.sent[|l.rcvd|]| < TWO_TO_THE_31
  {}

  lemma EnclaveWriteKeeps(w: World, s: State, n: nat)
    requires Lawful(w) && Inv(w, s) && Enabled(w, s, EnclaveWrite(n))
    ensures Inv(w, Next(w, s, EnclaveWrite(n)))
  {
    hide Ok, DeviceMeaning, EnclaveMeaning;
    WriteSome(EG(s), n, w.order);
    SameEnclaveMeaning(w, s.enc, EnclaveWrites(s.enc, n));
  }

  lemma EnclaveReadKeeps(w: World, s: State, n: nat)
    requires Lawful(w) && Inv(w, s) && Enabled(w, s, EnclaveRead(n))
    ensures Inv(w, Next(w, s, EnclaveRead(n)))
  {
    hide Ok, DeviceMeaning, EnclaveMeaning, Need;
    var got := s.enc.got + s.ge[..n];
    if Need(got, w.order) > 0 {
      ReadSome(GE(s), n, w.order);
      SameEnclaveMeaning(w, s.enc, s.enc.(got := got));
    } else {
      ReadLast(GE(s), n, w.order);
      EnclaveReceivesMeaning(w, s.enc, got[4..]);
    }
  }

  lemma EnclaveReceivesMeaning(w: World, e: Enclave, m: Msg)
    requires EnclaveMeaning(w, e) && EnclaveOrder(e) && EnclaveReading(e)
    ensures EnclaveMeaning(w, EnclaveReceives(w, e, m))
  {}

  lemma EnclaveRespondKeeps(w: World, s: State, seed: nat)
    requires Lawful(w) && Inv(w, s) && Enabled(w, s, EnclaveRespond(seed))
    ensures Inv(w, Next(w, s, EnclaveRespond(seed)))
  {
    hide Ok, DeviceMeaning, EnclaveMeaning;
    EnclaveRespondsMeaning(w, s.enc, seed);
    BeginSend(EG(s), w.encrypt(s.enc.devicePub, seed, OffloadResponse(ToInt32(s.enc.nResponse))), w.order);
  }

  lemma EnclaveRespondsMeaning(w: World, e: Enclave, seed: nat)
    requires Lawful(w) && EnclaveMeaning(w, e) && EnclaveOrder(e) && e.pc == Respond
    ensures EnclaveMeaning(w, EnclaveResponds(w, e, seed))
  {}

  lemma StepKeeps(w: World, s: State, step: Step)
    requires Lawful(w) && Inv(w, s) && Enabled(w, s, step)
    ensures Inv(w, Next(w, s, step))
  {
    match step
    case DeviceWrite(n) => DeviceWriteKeeps(w, s, n);
    case DeviceRead(n) => DeviceReadKeeps(w, s, n);
    case DeviceKey => DeviceKeyKeeps(w, s);
    case DeviceLocal =>
    case DeviceOffload(seed) => DeviceOffloadKeeps(w, s, seed);
    case GatewayWrite(n) => GatewayWriteKeeps(w, s, n);
    case GatewayRead(n) =>
      if FromDevice(s.gw.pc) { GatewayReadDeviceKeeps(w, s, n); } else { GatewayReadEnclaveKeeps(w, s, n); }
    case EnclaveWrite(n) => EnclaveWriteKeeps(w, s, n);
    case EnclaveRead(n) => EnclaveReadKeeps(w, s, n);
    case EnclaveRespond(seed) => EnclaveRespondKeeps(w, s, seed);
  }

  /** A run: the states met along a list of steps. */
  ghost predicate IsRun(w: World, states: seq<State>, steps: seq<Step>) {
    && |states| == |steps| + 1 && states[0] == Init(w)
    && forall i :: 0 <= i < |steps| ==> Enabled(w, states[i], steps[i]) && states[i + 1] == Next(w, states[i], steps[i])
  }

  lemma {:induction false} RunKeeps(w: World, states: seq<State>, steps: seq<Step>, i: nat)
    requires Lawful(w) && IsRun(w, states, steps) && i < |states|
    ensures Inv(w, states[i])
  {
    if i == 0 {
      InitHolds(w);
    } else {
      RunKeeps(w, states, steps, i - 1);
      StepKeeps(w, states[i - 1], steps[i - 1]);
    }
  }
}
