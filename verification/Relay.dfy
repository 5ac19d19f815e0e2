/** Device, gateway and enclave as one state machine over four byte channels. */
module Relay {
  import opened Framing
  import opened Link

  type Key = nat

  type int32 = n: int | -0x8000_0000 <= n < 0x8000_0000

  /** The two message texts; the counter in them is printed from a C int. */
  datatype Plain = OffloadRequest(n: int32) | OffloadResponse(n: int32)

  /** Everything outside the program: byte order, socket buffer size, keys and the libraries. */
  datatype World = World(
    order: ByteOrder, capacity: nat, enclaveKey: Key, deviceKey: Key,
    pub: Key -> Key,
    encrypt: (Key, nat, Plain) -> Msg,
    decrypt: (Key, Msg) -> Plain,
    attest: Key -> Msg, readAttest: Msg -> Key,
    writePem: Key -> Msg, readPem: Msg -> Key)

  const DOC_BUFFER := 8192
  const GATEWAY_BUFFER := 1024
  const PEM_BUFFER := 4096
  const CIPHER_BUFFER := 512

  /** Decryption undoes encryption under any padding, documents carry the two public keys faithfully, and
      nothing exceeds the fixed buffers of the parties it passes through. */
  ghost predicate Lawful(w: World) {
    && w.capacity > 0
    && (forall seed, p :: w.decrypt(w.enclaveKey, w.encrypt(w.pub(w.enclaveKey), seed, p)) == p)
    && (forall seed, p :: w.decrypt(w.deviceKey, w.encrypt(w.pub(w.deviceKey), seed, p)) == p)
    && (forall k, seed, p :: 0 < |w.encrypt(k, seed, p)| <= CIPHER_BUFFER)
    && w.readAttest(w.attest(w.pub(w.enclaveKey))) == w.pub(w.enclaveKey)
    && |w.attest(w.pub(w.enclaveKey))| <= DOC_BUFFER
    && w.readPem(w.writePem(w.pub(w.deviceKey))) == w.pub(w.deviceKey)
    && |w.writePem(w.pub(w.deviceKey))| <= GATEWAY_BUFFER
  }

  /** Such a world exists, so the guarantees below are about something: here with a cipher that only
      encodes the text. */
  lemma LawfulWorldExists() returns (w: World)
    ensures Lawful(w)
  {
    var encrypt := (k: Key, seed: nat, p: Plain) => [if p.OffloadRequest? then 0 else 1] + EncodeLen(p.n, Little);
    var decrypt := (k: Key, m: Msg) =>
      if |m| != 5 then OffloadRequest(0)
      else
        var n: int32 := DecodeLen(m[1..], Little);
        if m[0] == 0 then OffloadRequest(n) else OffloadResponse(n);
    w := World(Little, 1, 0, 0, (k: Key) => k, encrypt, decrypt,
               (k: Key) => [], (m: Msg) => 0, (k: Key) => [], (m: Msg) => 0);
    forall seed: nat, p: Plain
      ensures w.decrypt(0, w.encrypt(0, seed, p)) == p
    {
      assert w.encrypt(0, seed, p)[1..] == EncodeLen(p.n, Little);
      DecodeEncode(p.n, Little);
    }
  }

  // ---------- the three parties ----------

  datatype DevicePc = AwaitDoc | MakeKey | SendKey | Choose | SendRequest | AwaitResponse

  datatype Device = Device(pc: DevicePc, out: seq<byte>, got: seq<byte>, sent: seq<Msg>, rcvd: seq<Msg>,
                           answers: seq<Plain>, enclavePub: Key, nOffloads: nat)

  datatype GatewayPc = RecvDoc | SendDocOn | RecvPem | SendPemOn | RecvRequest | SendRequestOn | RecvResponse
                     | SendResponseOn

  datatype Gateway = Gateway(pc: GatewayPc, out: seq<byte>, got: seq<byte>, fromEnclave: seq<Msg>,
                             toDevice: seq<Msg>, fromDevice: seq<Msg>, toEnclave: seq<Msg>)

  datatype EnclavePc = SendDoc | AwaitKey | AwaitRequest | Respond | SendResponse

  datatype Enclave = Enclave(pc: EnclavePc, out: seq<byte>, got: seq<byte>, sent: seq<Msg>, rcvd: seq<Msg>,
                             seen: seq<Plain>, devicePub: Key, nResponse: nat)

  /** Channels: enclave to gateway, gateway to device, device to gateway, gateway to enclave. */
  datatype State = State(dev: Device, gw: Gateway, enc: Enclave,
                         eg: seq<byte>, gd: seq<byte>, dg: seq<byte>, ge: seq<byte>)

  ghost function Init(w: World): State {
    var doc := w.attest(w.pub(w.enclaveKey));
    State(Device(AwaitDoc, [], [], [], [], [], 0, 0),
          Gateway(RecvDoc, [], [], [], [], [], []),
          Enclave(SendDoc, Frame(doc, w.order), [], [doc], [], [], 0, 0),
          [], [], [], [])
  }

  datatype Step =
    | DeviceWrite(n: nat) | DeviceRead(n: nat) | DeviceKey | DeviceLocal | DeviceOffload(seed: nat)
    | GatewayWrite(n: nat) | GatewayRead(n: nat)
    | EnclaveWrite(n: nat) | EnclaveRead(n: nat) | EnclaveRespond(seed: nat)

  predicate DeviceSending(d: Device) {
    d.pc == SendKey || d.pc == SendRequest
  }

  predicate DeviceReading(d: Device) {
    d.pc == AwaitDoc || d.pc == AwaitResponse
  }

  predicate ToDevice(pc: GatewayPc) {
    pc == SendDocOn || pc == SendResponseOn
  }

  predicate ToEnclave(pc: GatewayPc) {
    pc == SendPemOn || pc == SendRequestOn
  }

  predicate FromDevice(pc: GatewayPc) {
    pc == RecvPem || pc == RecvRequest
  }

  predicate FromEnclave(pc: GatewayPc) {
    pc == RecvDoc || pc == RecvResponse
  }

  predicate EnclaveSending(e: Enclave) {
    e.pc == SendDoc || e.pc == SendResponse
  }

  predicate EnclaveReading(e: Enclave) {
    e.pc == AwaitKey || e.pc == AwaitRequest
  }

  /** A write of n bytes: at least one, no more than are left, and no more than the channel takes. */
  predicate CanWrite(w: World, out: seq<byte>, chan: seq<byte>, n: nat) {
    0 < n <= |out| && |chan| + n <= w.capacity
  }

  /** A read of n bytes: at least one, no more than have arrived or are asked for. */
  predicate CanRead(w: World, got: seq<byte>, chan: seq<byte>, n: nat) {
    0 < n <= |chan| && n <= Need(got, w.order)
  }

  predicate Enabled(w: World, s: State, step: Step) {
    match step
    case DeviceWrite(n) => DeviceSending(s.dev) && CanWrite(w, s.dev.out, s.dg, n)
    case DeviceRead(n) => DeviceReading(s.dev) && CanRead(w, s.dev.got, s.gd, n)
    case DeviceKey => s.dev.pc == MakeKey
    case DeviceLocal => s.dev.pc == Choose
    case DeviceOffload(_) => s.dev.pc == Choose
    case GatewayWrite(n) =>
      || (ToDevice(s.gw.pc) && CanWrite(w, s.gw.out, s.gd, n))
      || (ToEnclave(s.gw.pc) && CanWrite(w, s.gw.out, s.ge, n))
    case GatewayRead(n) =>
      || (FromDevice(s.gw.pc) && CanRead(w, s.gw.got, s.dg, n))
      || (FromEnclave(s.gw.pc) && CanRead(w, s.gw.got, s.eg, n))
    case EnclaveWrite(n) => EnclaveSending(s.enc) && CanWrite(w, s.enc.out, s.eg, n)
    case EnclaveRead(n) => EnclaveReading(s.enc) && CanRead(w, s.enc.got, s.ge, n)
    case EnclaveRespond(_) => s.enc.pc == Respond && s.enc.rcvd != [] && |s.enc.rcvd[|s.enc.rcvd| - 1]| > 0
  }

  function DeviceSends(w: World, d: Device, m: Msg, pc: DevicePc): Device {
    d.(pc := pc, out := Frame(m, w.order), sent := d.sent + [m])
  }

  function DeviceReceives(w: World, d: Device, m: Msg): Device {
    var d1 := d.(got := [], rcvd := d.rcvd + [m]);
    if d.pc == AwaitDoc then d1.(pc := MakeKey, enclavePub := w.readAttest(m))
    else d1.(pc := Choose, answers := d.answers + [w.decrypt(w.deviceKey, m)])
  }

  function DeviceWrites(d: Device, n: nat): Device
    requires n <= |d.out|
  {
    d.(out := d.out[n..],
       pc := if n < |d.out| then d.pc else if d.pc == SendKey then Choose else AwaitResponse)
  }

  function DeviceKeys(w: World, d: Device): Device {
    DeviceSends(w, d, w.writePem(w.pub(w.deviceKey)), SendKey)
  }

  function DeviceOffloads(w: World, d: Device, seed: nat): Device {
    DeviceSends(w, d, w.encrypt(d.enclavePub, seed, OffloadRequest(ToInt32(d.nOffloads))), SendRequest)
      .(nOffloads := d.nOffloads + 1)
  }

  /** A complete message is sent on at once, unchanged. */
  function GatewayReceives(w: World, g: Gateway, m: Msg): Gateway {
    var g1 := g.(got := [], out := Frame(m, w.order));
    match g.pc
    case RecvDoc => g1.(pc := SendDocOn, fromEnclave := g.fromEnclave + [m], toDevice := g.toDevice + [m])
    case RecvPem => g1.(pc := SendPemOn, fromDevice := g.fromDevice + [m], toEnclave := g.toEnclave + [m])
    case RecvRequest => g1.(pc := SendRequestOn, fromDevice := g.fromDevice + [m], toEnclave := g.toEnclave + [m])
    case _ => g1.(pc := SendResponseOn, fromEnclave := g.fromEnclave + [m], toDevice := g.toDevice + [m])
  }

  function GatewayWrites(g: Gateway, n: nat): Gateway
    requires n <= |g.out|
  {
    g.(out := g.out[n..],
       pc := if n < |g.out| then g.pc
             else match g.pc
                  case SendDocOn => RecvPem
                  case SendRequestOn => RecvResponse
                  case _ => RecvRequest)
  }

  function EnclaveReceives(w: World, e: Enclave, m: Msg): Enclave {
    var e1 := e.(got := [], rcvd := e.rcvd + [m]);
    if e.pc == AwaitKey then e1.(pc := AwaitRequest, devicePub := w.readPem(m)) else e1.(pc := Respond)
  }

  function EnclaveWrites(e: Enclave, n: nat): Enclave
    requires n <= |e.out|
  {
    e.(out := e.out[n..],
       pc := if n < |e.out| then e.pc else if e.pc == SendDoc then AwaitKey else AwaitRequest)
  }

  function EnclaveResponds(w: World, e: Enclave, seed: nat): Enclave
    requires e.rcvd != []
  {
    var m := w.encrypt(e.devicePub, seed, OffloadResponse(ToInt32(e.nResponse)));
    e.(pc := SendResponse, out := Frame(m, w.order), sent := e.sent + [m],
       seen := e.seen + [w.decrypt(w.enclaveKey, e.rcvd[|e.rcvd| - 1])], nResponse := e.nResponse + 1)
  }

  function Next(w: World, s: State, step: Step): State
    requires Enabled(w, s, step)
  {
    match step
    case DeviceWrite(n) => s.(dev := DeviceWrites(s.dev, n), dg := s.dg + s.dev.out[..n])
    case DeviceRead(n) =>
      var got := s.dev.got + s.gd[..n];
      s.(gd := s.gd[n..],
         dev := if Need(got, w.order) > 0 then s.dev.(got := got) else DeviceReceives(w, s.dev, got[4..]))
    case DeviceKey => s.(dev := DeviceKeys(w, s.dev))
    case DeviceLocal => s
    case DeviceOffload(seed) => s.(dev := DeviceOffloads(w, s.dev, seed))
    case GatewayWrite(n) =>
      var s1 := s.(gw := GatewayWrites(s.gw, n));
      if ToDevice(s.gw.pc) then s1.(gd := s.gd + s.gw.out[..n]) else s1.(ge := s.ge + s.gw.out[..n])
    case GatewayRead(n) =>
      var chan := if FromDevice(s.gw.pc) then s.dg else s.eg;
      var got := s.gw.got + chan[..n];
      var gw := if Need(got, w.order) > 0 then s.gw.(got := got) else GatewayReceives(w, s.gw, got[4..]);
      if FromDevice(s.gw.pc) then s.(gw := gw, dg := s.dg[n..]) else s.(gw := gw, eg := s.eg[n..])
    case EnclaveWrite(n) => s.(enc := EnclaveWrites(s.enc, n), eg := s.eg + s.enc.out[..n])
    case EnclaveRead(n) =>
      var got := s.enc.got + s.ge[..n];
      s.(ge := s.ge[n..],
         enc := if Need(got, w.order) > 0 then s.enc.(got := got) else EnclaveReceives(w, s.enc, got[4..]))
    case EnclaveRespond(seed) => s.(enc := EnclaveResponds(w, s.enc, seed))
  }
}
