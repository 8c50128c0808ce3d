/** `BitBoxInterpreter` of bhwi/src/bitbox/interpreter.rs over the pairing state of
    bhwi/src/bitbox/noise.rs. The Noise handshake and ciphers, protobuf and the random
    generator are library calls. */
module BitBox {
  import opened Common
  import opened Driver
  import opened BitBoxSign
  import opened SignLoop
  import opened Base32

  const OP_UNLOCK: Byte := 0x75
  const OP_I_CAN_HAS_HANDSHAEK: Byte := 0x68
  const OP_HER_COMEZ_TEH_HANDSHAEK: Byte := 0x48
  const OP_I_CAN_HAS_PAIRIN_VERIFICASHUN: Byte := 0x76
  const OP_NOISE_MSG: Byte := 0x6E
  const RESPONSE_SUCCESS: Byte := 0x00

  /** The one-round queries, by what their reply must be. */
  datatype QueryKind =
    | Version | RootFingerprint | Xpub | Address | IsRegistered | RegisterScriptConfig | RestoreQuery | BackupQuery

  datatype PolicyKey = PolicyKey(fingerprint: Option<Bytes>, path: Option<KeyPath>)

  datatype PolicyInfo = PolicyInfo(text: string, keys: seq<PolicyKey>)

  datatype SetupMode = NewWallet(entropy: Bytes) | FromMnemonic

  datatype Setup = Setup(name: string, mode: SetupMode, timestamp: nat, timezone: int)

  datatype Command =
    | UnlockAndPair
    | Query(kind: QueryKind, query: Bytes)
    | SignPsbt(psbt: BitBoxSign.Psbt, force: Option<ScriptConfig>, policy: Option<PolicyInfo>)
    | SignMessage(message: Bytes, simple: SimpleType, keypath: KeyPath)
    | ShowDescriptorAddress(descriptor: PolicyInfo, change: bool, index: nat, display: bool)
    | SetupWallet(setup: Setup)
    | Wipe
    | Restore(name: string, timestamp: nat, timezone: int)
    | TogglePassphrase

  datatype Request =
    | QueryRequest(query: Bytes)
    | RootFingerprintRequest
    | DeviceInfoRequest
    | SignInitRequest(tx: Transaction)
    | SignLoopRequest(request: SignLoop.Request)
    | SignMessageRequest(message: Bytes, simple: SimpleType, keypath: KeyPath, commitment: Bytes)
    | MessageAntikleptoSignature(nonce: Bytes)
    | AddressRequest(keypath: KeyPath, policy: PolicyInfo, display: bool)
    | SetDeviceNameRequest(name: string)
    | SetPasswordRequest(entropy: Bytes)
    | CreateBackupRequest(timestamp: nat, timezone: int)
    | RestoreRequest(timestamp: nat, timezone: int)
    | ResetRequest
    | SetPassphraseRequest(enabled: bool)

  /** A decoded response of the device. */
  datatype Reply =
    | ErrorReply(generic: bool)
    | FingerprintReply(fingerprint: Bytes)
    | InfoReply(initialized: bool, passphrase: bool, info: Bytes)
    | PubReply(text: Bytes)
    | SuccessReply
    | BtcSuccessReply
    | RegisteredReply(registered: bool)
    | NextReply(next: Next)
    | CommitmentReply(commitment: Bytes)
    | MessageReply(signature: Bytes)
    | OtherReply

  datatype Response =
    | TaskDone | DeviceAction(success: bool) | Info(info: Bytes) | MasterFingerprint(fingerprint: Bytes)
    | XpubResponse(xpub: Bytes) | AddressResponse(address: Bytes) | IsRegisteredResponse(registered: bool)
    | Registered | SignedPsbt(psbt: BitBoxSign.Psbt) | Signature(header: Byte, signature: Bytes) | BackupResponse

  datatype BitBoxError =
    | NotPaired | HandshakeFailed | PairingRejected | DecryptFailed | UnexpectedResponse | DeviceError
    | InvalidInput | InvalidSignature | NoNonce | BadPsbt | SigningFailed | Panicked

  /** `hostKey` is the static key of the host, `keys` those of the devices paired so far,
      `cipher` the two ciphers of a finished handshake. */
  datatype Noise = Noise(hostKey: Option<Bytes>, keys: seq<Bytes>, cipher: Option<Bytes>, pairingCode: Option<string>)

  type Handshake = Bytes

  datatype Library = Library(
    generateKey: nat -> Bytes,                              // the n-th draw of the random generator
    hostNonce: nat -> Option<Bytes>,
    firstMessage: Bytes -> Option<(Handshake, Bytes)>,
    readWrite: (Handshake, Bytes) -> Option<(Handshake, Bytes)>,
    remoteStatic: Handshake -> Option<Bytes>,
    hash: Handshake -> Bytes32,
    ciphers: Handshake -> Bytes,
    encrypt: (Bytes, Bytes) -> (Bytes, Bytes),
    decrypt: (Bytes, Bytes) -> Option<(Bytes, Bytes)>,
    encode: Request -> Bytes,
    decode: Bytes -> Option<Reply>,
    xpub: Bytes -> Option<Bytes>,
    crypto: Crypto,
    checks: bool)                                           // whether the program was built with overflow checks

  datatype State =
    | New
    | WaitUnlockAck
    | WaitHandshakeInit
    | WaitHandshake1(host: Handshake)
    | WaitHandshake2(host: Handshake)
    | WaitPairingConfirm(host: Handshake, code: string)
    | WaitEncryptedResponse(kind: QueryKind)
    | SignPsbtWaitFingerprint(psbt: BitBoxSign.Psbt, force: Option<ScriptConfig>, policy: Option<PolicyInfo>)
    | SignPsbtWaitNext(ctx: Ctx)
    | SignMessageWaitCommitment(nonce: Bytes)
    | SignMessageWaitSig(nonce: Bytes, commitment: Bytes)
    | ShowAddrWaitFingerprint(descriptor: PolicyInfo, change: bool, index: nat, display: bool)
    | SetupWaitInfo(setup: Setup)
    | SetupWaitName(setup: Setup)
    | SetupWaitPassword(timestamp: nat, timezone: int)
    | SetupWaitBackup
    | SetupWaitRestore
    | WipeWaitInfo
    | WipeWaitReset
    | RestoreWaitInfo(name: string, timestamp: nat, timezone: int)
    | RestoreWaitName(timestamp: nat, timezone: int)
    | RestoreWaitMnemonic
    | TogglePassphraseWaitInfo
    | TogglePassphraseWaitSet
    | Finished(response: Response)

  /** The interpreter with the Noise state that it borrows; `shown` are the codes given to
      the pairing hook, `drawn` counts the uses of the random generator. */
  datatype Machine = Machine(state: State, noise: Noise, shown: seq<string>, drawn: nat)

  type Step = (Machine, Result<Option<Transmit>, BitBoxError>)

  // ---- the ends of a branch ----

  function Fail(m: Machine, error: BitBoxError): Step {
    (m.(state := New), Err(error))
  }

  function Finish(m: Machine, response: Response): Step {
    (m.(state := Finished(response)), Ok(None))
  }

  function Plain(m: Machine, next: State, payload: Bytes): Step {
    (m.(state := next), Ok(Some(Transmit(ToDevice, payload, false))))
  }

  /** `build_encrypted`, then wait in state `next`. */
  function Encrypted(lib: Library, m: Machine, next: State, request: Request): Step {
    match m.noise.cipher
    case None => Fail(m, NotPaired)
    case Some(cipher) =>
      var (cipher', sealed) := lib.encrypt(cipher, lib.encode(request));
      (m.(state := next, noise := m.noise.(cipher := Some(cipher'))),
       Ok(Some(Transmit(ToDevice, [OP_NOISE_MSG] + sealed, true))))
  }

  predicate IsSuccess(data: Bytes) {
    data != [] && data[0] == RESPONSE_SUCCESS
  }

  /** `expect_success`, decrypt and decode; None for a reply without content. */
  function Open(lib: Library, m: Machine, data: Bytes): (Machine, Result<Option<Reply>, BitBoxError>) {
    if !IsSuccess(data) then (m, Err(UnexpectedResponse))
    else
      match m.noise.cipher
      case None => (m, Err(NotPaired))
      case Some(cipher) =>
        match lib.decrypt(cipher, data[1..])
        case None => (m, Err(DecryptFailed))
        case Some((cipher', plain)) => (m.(noise := m.noise.(cipher := Some(cipher'))), Ok(lib.decode(plain)))
  }

  /** `api::decode_response`: an error reply is an error. */
  function DecodedReply(lib: Library, m: Machine, data: Bytes): (Machine, Result<Reply, BitBoxError>) {
    match Open(lib, m, data)
    case (m', Err(error)) => (m', Err(error))
    case (m', Ok(None)) => (m', Err(UnexpectedResponse))
    case (m', Ok(Some(reply))) => (m', if reply.ErrorReply? then Err(DeviceError) else Ok(reply))
  }

  /** `decode_device_action_response`: the generic error means that the user declined. */
  function Action(lib: Library, m: Machine, data: Bytes): (Machine, Result<bool, BitBoxError>) {
    match Open(lib, m, data)
    case (m', Err(error)) => (m', Err(error))
    case (m', Ok(Some(SuccessReply))) => (m', Ok(true))
    case (m', Ok(Some(ErrorReply(generic)))) => (m', if generic then Ok(false) else Err(DeviceError))
    case (m', Ok(_)) => (m', Err(UnexpectedResponse))
  }

  // ---- start ----

  function Start(lib: Library, m: Machine, command: Command): (Machine, Result<Transmit, BitBoxError>) {
    if command.UnlockAndPair? then (m.(state := WaitUnlockAck), Ok(Transmit(ToDevice, [OP_UNLOCK], false)))
    else if m.noise.cipher.None? then (m, Err(NotPaired))
    else
      match command
      case Query(kind, query) => Started(Encrypted(lib, m, WaitEncryptedResponse(kind), QueryRequest(query)))
      case SignPsbt(psbt, force, policy) =>
        Started(Encrypted(lib, m, SignPsbtWaitFingerprint(psbt, force, policy), RootFingerprintRequest))
      case SignMessage(message, simple, keypath) =>
        (match lib.hostNonce(m.drawn)
         case None => (m.(drawn := m.drawn + 1), Err(NoNonce))
         case Some(nonce) =>
           Started(Encrypted(lib, m.(drawn := m.drawn + 1), SignMessageWaitCommitment(nonce),
                             SignMessageRequest(message, simple, keypath, lib.crypto.commit(nonce)))))
      case ShowDescriptorAddress(policy, change, index, display) =>
        Started(Encrypted(lib, m, ShowAddrWaitFingerprint(policy, change, index, display), RootFingerprintRequest))
      case SetupWallet(setup) => Started(Encrypted(lib, m, SetupWaitInfo(setup), DeviceInfoRequest))
      case Wipe => Started(Encrypted(lib, m, WipeWaitInfo, DeviceInfoRequest))
      case Restore(name, timestamp, timezone) =>
        Started(Encrypted(lib, m, RestoreWaitInfo(name, timestamp, timezone), DeviceInfoRequest))
      case TogglePassphrase => Started(Encrypted(lib, m, TogglePassphraseWaitInfo, DeviceInfoRequest))
      case UnlockAndPair => (m, Err(NotPaired))
  }

  function Started(step: Step): (Machine, Result<Transmit, BitBoxError>) {
    match step
    case (m, Ok(Some(transmit))) => (m, Ok(transmit))
    case (m, Ok(None)) => (m, Err(NotPaired))
    case (m, Err(error)) => (m, Err(error))
  }

  // ---- exchange ----

  function ExchangeStep(lib: Library, entry: Machine, data: Bytes): Step {
    var m := entry.(state := New);
    match entry.state
    case New => (m, Ok(None))
    case Finished(_) => (m, Ok(None))
    case WaitUnlockAck => Plain(m, WaitHandshakeInit, [OP_I_CAN_HAS_HANDSHAEK])
    case WaitHandshakeInit => StartHandshake(lib, m, data)
    case WaitHandshake1(host) => OnHandshake(lib, m, host, data)
    case WaitHandshake2(host) => FinalizeHandshake(lib, m, host, data)
    case WaitPairingConfirm(host, code) => ConfirmPairing(lib, m, host, code, data)
    case WaitEncryptedResponse(kind) => OnQuery(lib, m, kind, data)
    case SignPsbtWaitFingerprint(psbt, force, policy) => OnFingerprint(lib, m, psbt, force, policy, data)
    case SignPsbtWaitNext(ctx) => OnNext(lib, m, ctx, data)
    case SignMessageWaitCommitment(nonce) => OnCommitment(lib, m, nonce, data)
    case SignMessageWaitSig(nonce, commitment) => OnMessageSignature(lib, m, nonce, commitment, data)
    case ShowAddrWaitFingerprint(policy, change, index, display) =>
      OnDescriptorFingerprint(lib, m, policy, change, index, display, data)
    case _ => OnManagement(lib, entry, data)
  }

  function StartHandshake(lib: Library, m: Machine, data: Bytes): Step {
    if data != [RESPONSE_SUCCESS] then Fail(m, HandshakeFailed)
    else
      var key := if m.noise.hostKey.Some? then m.noise.hostKey.value else lib.generateKey(m.drawn);
      var m' := m.(noise := m.noise.(hostKey := Some(key)), drawn := m.drawn + 1);
      match lib.firstMessage(key)
      case None => Fail(m', HandshakeFailed)
      case Some((host, message)) => Plain(m', WaitHandshake1(host), [OP_HER_COMEZ_TEH_HANDSHAEK] + message)
  }

  function OnHandshake(lib: Library, m: Machine, host: Handshake, data: Bytes): Step {
    if !IsSuccess(data) then Fail(m, UnexpectedResponse)
    else
      match lib.readWrite(host, data[1..])
      case None => Fail(m, HandshakeFailed)
      case Some((host', message)) => Plain(m, WaitHandshake2(host'), [OP_HER_COMEZ_TEH_HANDSHAEK] + message)
  }

  function FinalizeHandshake(lib: Library, m: Machine, host: Handshake, data: Bytes): Step {
    if !IsSuccess(data) then Fail(m, UnexpectedResponse)
    else
      match lib.remoteStatic(host)
      case None => Fail(m, HandshakeFailed)
      case Some(key) =>
        if key !in m.noise.keys || data[1..] == [0x01] then
          var code := PairingCode(lib.hash(host));
          Plain(m.(shown := m.shown + [code]), WaitPairingConfirm(host, code), [OP_I_CAN_HAS_PAIRIN_VERIFICASHUN])
        else Finish(m.(noise := Paired(lib, m.noise, host, None)), TaskDone)
  }

  function Paired(lib: Library, noise: Noise, host: Handshake, code: Option<string>): Noise {
    noise.(cipher := Some(lib.ciphers(host)), pairingCode := code)
  }

  function ConfirmPairing(lib: Library, m: Machine, host: Handshake, code: string, data: Bytes): Step {
    if data != [RESPONSE_SUCCESS] then Fail(m, PairingRejected)
    else
      match lib.remoteStatic(host)
      case None => Fail(m, HandshakeFailed)
      case Some(key) =>
        var known := m.noise.(keys := if key in m.noise.keys then m.noise.keys else m.noise.keys + [key]);
        Finish(m.(noise := Paired(lib, known, host, Some(code))), TaskDone)
  }

  function OnQuery(lib: Library, m: Machine, kind: QueryKind, data: Bytes): Step {
    match DecodedReply(lib, m, data)
    case (m', Err(error)) => Fail(m', error)
    case (m', Ok(reply)) =>
      match (kind, reply)
      case (Version, InfoReply(_, _, info)) => Finish(m', Info(info))
      case (RootFingerprint, FingerprintReply(f)) => if |f| != 4 then Fail(m', InvalidSignature) else Finish(m', MasterFingerprint(f))
      case (Xpub, PubReply(text)) =>
        (match lib.xpub(text) case None => Fail(m', SigningFailed) case Some(xpub) => Finish(m', XpubResponse(xpub)))
      case (Address, PubReply(text)) => Finish(m', AddressResponse(text))
      case (IsRegistered, RegisteredReply(registered)) => Finish(m', IsRegisteredResponse(registered))
      case (RegisterScriptConfig, BtcSuccessReply) => Finish(m', Registered)
      case (RestoreQuery, SuccessReply) => Finish(m', TaskDone)
      case (BackupQuery, SuccessReply) => Finish(m', BackupResponse)
      case _ => Fail(m', UnexpectedResponse)
  }

  /** The first key of a policy that has our fingerprint. */
  function OurPolicyKey(keys: seq<PolicyKey>, fingerprint: Bytes): Option<PolicyKey> {
    if keys == [] then None
    else if keys[0].fingerprint == Some(fingerprint) then Some(keys[0])
    else OurPolicyKey(keys[1..], fingerprint)
  }

  function AccountPath(policy: PolicyInfo, fingerprint: Bytes): Option<KeyPath> {
    match OurPolicyKey(policy.keys, fingerprint)
    case None => None
    case Some(key) => key.path
  }

  /** The script config that is forced, directly or by a registered policy. */
  function ForcedConfig(force: Option<ScriptConfig>, policy: Option<PolicyInfo>, fingerprint: Bytes): Result<Option<ScriptConfig>, BitBoxError> {
    if force.Some? || policy.None? then Ok(force)
    else
      match AccountPath(policy.value, fingerprint)
      case None => Err(InvalidInput)
      case Some(path) => Ok(Some(ScriptConfig(Policy(policy.value.text), path)))
  }

  function OnFingerprint(lib: Library, m: Machine, psbt: BitBoxSign.Psbt, force: Option<ScriptConfig>, policy: Option<PolicyInfo>,
                         data: Bytes): Step {
    match DecodedReply(lib, m, data)
    case (m', Err(error)) => Fail(m', error)
    case (m', Ok(reply)) =>
      if !reply.FingerprintReply? then Fail(m', UnexpectedResponse)
      else
        match ForcedConfig(force, policy, reply.fingerprint)
        case Err(error) => Fail(m', error)
        case Ok(forced) =>
          match Lower(reply.fingerprint, psbt, forced)
          case None => Fail(m', BadPsbt)
          case Some((tx, keys)) => Encrypted(lib, m', SignPsbtWaitNext(FirstCtx(psbt, tx, keys)), SignInitRequest(tx))
  }

  function FirstCtx(psbt: BitBoxSign.Psbt, tx: Transaction, keys: seq<OurKey>): Ctx {
    Ctx(psbt, tx, keys, [], false, ExpectNext)
  }

  /** What a reply means to the signing loop. */
  function EventOf(lib: Library, m: Machine, reply: Reply): Event {
    Event(if reply.NextReply? then Some(reply.next) else None, lib.hostNonce(m.drawn), m.noise.cipher.Some?)
  }

  function OnNext(lib: Library, m: Machine, ctx: Ctx, data: Bytes): Step {
    match DecodedReply(lib, m, data)
    case (m', Err(error)) => Fail(m', error)
    case (m', Ok(reply)) =>
      var m2 := m'.(drawn := m'.drawn + 1);
      match Drive(lib.crypto, ctx, EventOf(lib, m', reply))
      case Continue(ctx', request) => Encrypted(lib, m2, SignPsbtWaitNext(ctx'), SignLoopRequest(request))
      case Signed(psbt) => Finish(m2, SignedPsbt(psbt))
      case Fail => Fail(m2, SigningFailed)
      case Panic => Fail(m2, Panicked)
  }

  function OnCommitment(lib: Library, m: Machine, nonce: Bytes, data: Bytes): Step {
    match DecodedReply(lib, m, data)
    case (m', Err(error)) => Fail(m', error)
    case (m', Ok(reply)) =>
      if !reply.CommitmentReply? then Fail(m', UnexpectedResponse)
      else Encrypted(lib, m', SignMessageWaitSig(nonce, reply.commitment), MessageAntikleptoSignature(nonce))
  }

  function OnMessageSignature(lib: Library, m: Machine, nonce: Bytes, commitment: Bytes, data: Bytes): Step {
    match DecodedReply(lib, m, data)
    case (m', Err(error)) => Fail(m', error)
    case (m', Ok(reply)) =>
      if !reply.MessageReply? then Fail(m', UnexpectedResponse)
      else if |reply.signature| != 65 then Fail(m', InvalidSignature)
      else if VerifyEcdsa(lib.crypto, nonce, commitment, reply.signature) != Accepted then Fail(m', SigningFailed)
      else
        match lib.crypto.parsers.compact(reply.signature[..64])
        case None => Fail(m', InvalidSignature)
        case Some(signature) =>
          if lib.checks && 27 + 4 + (reply.signature[64] as nat) >= 256 then Fail(m', Panicked)
          else Finish(m', Signature((27 + 4 + reply.signature[64] as nat) % 256, signature))
  }

  function OnDescriptorFingerprint(lib: Library, m: Machine, policy: PolicyInfo, change: bool, index: nat, display: bool,
                                   data: Bytes): Step {
    match DecodedReply(lib, m, data)
    case (m', Err(error)) => Fail(m', error)
    case (m', Ok(reply)) =>
      if !reply.FingerprintReply? then Fail(m', UnexpectedResponse)
      else if |reply.fingerprint| != 4 then Fail(m', InvalidSignature)
      else
        match AccountPath(policy, reply.fingerprint)
        case None => Fail(m', InvalidInput)
        case Some(path) =>
          if index >= HARDENED then Fail(m', InvalidInput)
          else Encrypted(lib, m', WaitEncryptedResponse(Address),
                         AddressRequest(path + [if change then 1 else 0, index], policy, display))
  }

  function Initialize(lib: Library, m: Machine, setup: Setup): Step {
    match setup.mode
    case NewWallet(entropy) => Encrypted(lib, m, SetupWaitPassword(setup.timestamp, setup.timezone), SetPasswordRequest(entropy))
    case FromMnemonic => Encrypted(lib, m, SetupWaitRestore, RestoreRequest(setup.timestamp, setup.timezone))
  }

  /** The setup, wipe, restore and passphrase flows. */
  function OnManagement(lib: Library, entry: Machine, data: Bytes): Step {
    var m := entry.(state := New);
    match entry.state
    case SetupWaitPassword(timestamp, timezone) =>
      (match Action(lib, m, data)
       case (m', Err(error)) => Fail(m', error)
       case (m', Ok(false)) => Finish(m', Response.DeviceAction(false))
       case (m', Ok(true)) => Encrypted(lib, m', SetupWaitBackup, CreateBackupRequest(timestamp, timezone)))
    case SetupWaitBackup =>
      (match Action(lib, m, data) case (m', Err(error)) => Fail(m', error) case (m', Ok(done)) => Finish(m', Response.DeviceAction(done)))
    case WipeWaitReset =>
      (match Action(lib, m, data) case (m', Err(error)) => Fail(m', error) case (m', Ok(done)) => Finish(m', Response.DeviceAction(done)))
    case state =>
      match DecodedReply(lib, m, data)
      case (m', Err(error)) => Fail(m', error)
      case (m', Ok(reply)) => OnManagementReply(lib, m', state, reply)
  }

  function OnManagementReply(lib: Library, m: Machine, state: State, reply: Reply): Step {
    match (state, reply)
    case (SetupWaitInfo(setup), InfoReply(initialized, _, _)) =>
      if initialized then Fail(m, InvalidInput)
      else if setup.name == "" then Initialize(lib, m, setup)
      else Encrypted(lib, m, SetupWaitName(setup), SetDeviceNameRequest(setup.name))
    case (SetupWaitName(setup), SuccessReply) => Initialize(lib, m, setup)
    case (SetupWaitRestore, SuccessReply) => Finish(m, Response.DeviceAction(true))
    case (WipeWaitInfo, InfoReply(initialized, _, _)) =>
      if !initialized then Fail(m, InvalidInput) else Encrypted(lib, m, WipeWaitReset, ResetRequest)
    case (RestoreWaitInfo(name, timestamp, timezone), InfoReply(initialized, _, _)) =>
      if initialized then Fail(m, InvalidInput)
      else if name == "" then Encrypted(lib, m, RestoreWaitMnemonic, RestoreRequest(timestamp, timezone))
      else Encrypted(lib, m, RestoreWaitName(timestamp, timezone), SetDeviceNameRequest(name))
    case (RestoreWaitName(timestamp, timezone), SuccessReply) =>
      Encrypted(lib, m, RestoreWaitMnemonic, RestoreRequest(timestamp, timezone))
    case (RestoreWaitMnemonic, SuccessReply) => Finish(m, Response.DeviceAction(true))
    case (TogglePassphraseWaitInfo, InfoReply(initialized, passphrase, _)) =>
      if !initialized then Fail(m, InvalidInput)
      else Encrypted(lib, m, TogglePassphraseWaitSet, SetPassphraseRequest(!passphrase))
    case (TogglePassphraseWaitSet, SuccessReply) => Finish(m, Response.DeviceAction(true))
    case _ => Fail(m, UnexpectedResponse)
  }

  function End(m: Machine): Option<Response> {
    match m.state case Finished(response) => Some(response) case _ => None
  }

  // ---- the contract with the driver ----

  predicate Active(m: Machine) {
    !m.state.New? && !m.state.Finished?
  }

  /** A branch either waits, with a transmit, or finishes, without one, or fails. */
  predicate WellEnded(step: Step) {
    match step.1
    case Ok(Some(_)) => Active(step.0)
    case Ok(None) => step.0.state.Finished?
    case Err(_) => true
  }

  lemma ManagementEnds(lib: Library, entry: Machine, data: Bytes)
    ensures WellEnded(OnManagement(lib, entry, data))
  {
    hide DecodedReply, Action;
  }

  lemma {:induction false} ExchangeEnds(lib: Library, m: Machine, data: Bytes)
    requires Active(m)
    ensures WellEnded(ExchangeStep(lib, m, data))
  {
    hide DecodedReply, Action, Drive, Lower, OnManagement, VerifyEcdsa, ForcedConfig, PairingCode;
    ManagementEnds(lib, m, data);
  }

  function AsInterpreter(lib: Library): Interpreter<Machine, Command, Response, BitBoxError> {
    Interpreter((m, c) => Start(lib, m, c), (m, data) => ExchangeStep(lib, m, data), m => End(m))
  }

  /** No BitBox command ends with the missing-result error, whatever is answered. */
  lemma {:induction false} BitBoxNeverMisses(lib: Library, m: Machine, command: Command, replies: seq<Driver.Reply>, allowFinalDisconnect: bool)
    ensures Driver.Run(AsInterpreter(lib), m, command, replies, allowFinalDisconnect) != MissingResult
  {
    hide ExchangeStep;
    var i, active := AsInterpreter(lib), m => Active(m);
    forall m, data | active(m)
      ensures var (m', r) := i.exchange(m, data);
              (r.Ok? && r.value.Some? ==> active(m')) && (r.Ok? && r.value.None? ==> i.end(m').Some?)
    {
      ExchangeEnds(lib, m, data);
      var (m', r) := ExchangeStep(lib, m, data);
      assert i.end(m') == End(m');
    }
    NeverMisses(i, active, m, command, replies, allowFinalDisconnect);
  }

  // ---- the interpreter and its Noise state, updated in place ----

  class NoiseState {
    var hostKey: Option<Bytes>
    var keys: seq<Bytes>
    var cipher: Option<Bytes>
    var pairingCode: Option<string>

    constructor (hostKey: Option<Bytes>, keys: seq<Bytes>)
      ensures Value() == Noise(hostKey, keys, None, None)
    {
      this.hostKey, this.keys, cipher, pairingCode := hostKey, keys, None, None;
    }

    function Value(): Noise
      reads this
    {
      Noise(hostKey, keys, cipher, pairingCode)
    }

    /** Makes a host key if there is none yet, and keeps it. */
    method StartHandshake(lib: Library, draw: nat) returns (r: Option<(Handshake, Bytes)>)
      modifies this`hostKey
      ensures hostKey == Some(if old(hostKey).Some? then old(hostKey).value else lib.generateKey(draw))
      ensures r == lib.firstMessage(hostKey.value)
    {
      if hostKey.None? {
        hostKey := Some(lib.generateKey(draw));
      }
      r := lib.firstMessage(hostKey.value);
    }

    method ConfirmPairing(key: Bytes)
      modifies this`keys
      ensures keys == if key in old(keys) then old(keys) else old(keys) + [key]
    {
      if key !in keys {
        keys := keys + [key];
      }
    }

    method Finalize(lib: Library, host: Handshake, code: Option<string>)
      modifies this`cipher, this`pairingCode
      ensures Value() == Paired(lib, old(Value()), host, code)
    {
      cipher, pairingCode := Some(lib.ciphers(host)), code;
    }

    /** None without a finished handshake. */
    method Encrypt(lib: Library, plain: Bytes) returns (r: Option<Bytes>)
      modifies this`cipher
      ensures old(cipher).None? ==> r.None? && cipher.None?
      ensures old(cipher).Some? ==> (cipher, r) == (Some(lib.encrypt(old(cipher).value, plain).0), Some(lib.encrypt(old(cipher).value, plain).1))
    {
      if cipher.None? {
        return None;
      }
      var (next, sealed) := lib.encrypt(cipher.value, plain);
      cipher := Some(next);
      r := Some(sealed);
    }

    /** None, and the cipher as it was, for what is not authentic. */
    method Decrypt(lib: Library, sealed: Bytes) returns (r: Option<Bytes>)
      requires cipher.Some?
      modifies this`cipher
      ensures var plain := lib.decrypt(old(cipher).value, sealed);
              (cipher, r) == if plain.None? then (old(cipher), None) else (Some(plain.value.0), Some(plain.value.1))
    {
      var plain := lib.decrypt(cipher.value, sealed);
      if plain.None? {
        return None;
      }
      cipher := Some(plain.value.0);
      r := Some(plain.value.1);
    }
  }

  /** What the interpreter holds: the context of the signing loop, or another state. */
  datatype Held = Signing(context: SignContext) | At(state: State)

  function StateOf(held: Held): State
    reads if held.Signing? then {held.context} else {}
  {
    match held case Signing(context) => SignPsbtWaitNext(context.Value()) case At(state) => state
  }

  /** The states of a pairing. */
  predicate Pairs(s: State) {
    s.WaitUnlockAck? || s.WaitHandshakeInit? || s.WaitHandshake1? || s.WaitHandshake2? || s.WaitPairingConfirm?
  }

  /** The states in which one reply is waited for, besides the signing loop and the
      management flows. */
  predicate Asks(s: State) {
    || s.WaitEncryptedResponse? || s.SignPsbtWaitFingerprint? || s.SignMessageWaitCommitment? || s.SignMessageWaitSig?
    || s.ShowAddrWaitFingerprint?
  }

  class BitBoxInterpreter {
    const noise: NoiseState
    var held: Held
    var shown: seq<string>
    var drawn: nat

    constructor (noise: NoiseState)
      ensures Valid() && this.noise == noise && Value() == Machine(New, noise.Value(), [], 0)
    {
      this.noise := noise;
      held, shown, drawn := At(New), [], 0;
    }

    predicate Valid()
      reads this
    {
      held.At? ==> !held.state.SignPsbtWaitNext?
    }

    ghost function Contexts(): set<SignContext>
      reads this
    {
      if held.Signing? then {held.context} else {}
    }

    function Value(): Machine
      reads this, noise, if held.Signing? then {held.context} else {}
    {
      Machine(StateOf(held), noise.Value(), shown, drawn)
    }

    method Begin(lib: Library, command: Command) returns (r: Result<Transmit, BitBoxError>)
      requires Valid()
      modifies this, noise
      ensures Valid() && Contexts() <= old(Contexts())
      ensures (Value(), r) == Start(lib, old(Value()), command)
    {
      if command.UnlockAndPair? {
        held := At(WaitUnlockAck);
        return Ok(Transmit(ToDevice, [OP_UNLOCK], false));
      }
      if noise.cipher.None? {
        return Err(NotPaired);
      }
      var sent: Result<Option<Transmit>, BitBoxError>;
      match command {
        case Query(kind, query) =>
          sent := Send(lib, At(WaitEncryptedResponse(kind)), QueryRequest(query));
        case SignPsbt(psbt, force, policy) =>
          sent := Send(lib, At(SignPsbtWaitFingerprint(psbt, force, policy)), RootFingerprintRequest);
        case SignMessage(message, simple, keypath) =>
          var nonce := lib.hostNonce(drawn);
          drawn := drawn + 1;
          if nonce.None? {
            return Err(NoNonce);
          }
          sent := Send(lib, At(SignMessageWaitCommitment(nonce.value)),
                       SignMessageRequest(message, simple, keypath, lib.crypto.commit(nonce.value)));
        case ShowDescriptorAddress(policy, change, index, display) =>
          sent := Send(lib, At(ShowAddrWaitFingerprint(policy, change, index, display)), RootFingerprintRequest);
        case SetupWallet(setup) =>
          sent := Send(lib, At(SetupWaitInfo(setup)), DeviceInfoRequest);
        case Wipe =>
          sent := Send(lib, At(WipeWaitInfo), DeviceInfoRequest);
        case Restore(name, timestamp, timezone) =>
          sent := Send(lib, At(RestoreWaitInfo(name, timestamp, timezone)), DeviceInfoRequest);
        case TogglePassphrase =>
          sent := Send(lib, At(TogglePassphraseWaitInfo), DeviceInfoRequest);
      }
      r := Ok(sent.value.value);
    }

    /** The state is taken out first, so an error leaves a new interpreter. */
    method Exchange(lib: Library, data: Bytes) returns (r: Result<Option<Transmit>, BitBoxError>)
      requires Valid()
      modifies this, noise, Contexts()
      ensures Valid() && fresh(Contexts() - old(Contexts()))
      ensures (Value(), r) == ExchangeStep(lib, old(Value()), data)
    {
      hide OnQuery, OnFingerprint, OnNext, OnCommitment, OnMessageSignature, OnDescriptorFingerprint, OnManagement, DecodedReply,
           Encrypted, StartHandshake, OnHandshake, FinalizeHandshake, ConfirmPairing;
      var taken := held;
      held := At(New);
      match taken {
        case Signing(context) => r := TakeNext(lib, context, data);
        case At(state) => r := Take(lib, state, data);
      }
    }

    /** The branches in which there is no context. */
    method Take(lib: Library, taken: State, data: Bytes) returns (r: Result<Option<Transmit>, BitBoxError>)
      requires held == At(New) && !taken.SignPsbtWaitNext?
      modifies this, noise
      ensures Valid() && fresh(Contexts())
      ensures (Value(), r) == ExchangeStep(lib, old(Value()).(state := taken), data)
    {
      hide OnQuery, OnFingerprint, OnNext, OnCommitment, OnMessageSignature, OnDescriptorFingerprint, OnManagement, DecodedReply,
           Encrypted, StartHandshake, OnHandshake, FinalizeHandshake, ConfirmPairing;
      if taken.New? || taken.Finished? {
        r := Ok(None);
      } else if Pairs(taken) {
        r := TakePairing(lib, taken, data);
      } else if Asks(taken) {
        r := TakeReply(lib, taken, data);
      } else {
        r := Manage(lib, taken, data);
      }
    }

    method TakePairing(lib: Library, taken: State, data: Bytes) returns (r: Result<Option<Transmit>, BitBoxError>)
      requires held == At(New) && Pairs(taken)
      modifies this, noise
      ensures held.At? && Valid()
      ensures (Value(), r) == ExchangeStep(lib, old(Value()).(state := taken), data)
    {
      hide OnQuery, OnFingerprint, OnNext, OnCommitment, OnMessageSignature, OnDescriptorFingerprint, OnManagement, DecodedReply,
           Encrypted, StartHandshake, OnHandshake, FinalizeHandshake, ConfirmPairing;
      match taken {
        case WaitUnlockAck =>
          held := At(WaitHandshakeInit);
          r := Ok(Some(Transmit(ToDevice, [OP_I_CAN_HAS_HANDSHAEK], false)));
        case WaitHandshakeInit =>
          r := Initiate(lib, data);
        case WaitHandshake1(host) =>
          r := ContinueHandshake(lib, host, data);
        case WaitHandshake2(host) =>
          r := FinishHandshake(lib, host, data);
        case WaitPairingConfirm(host, code) =>
          r := FinishPairing(lib, host, code, data);
      }
    }

    method TakeReply(lib: Library, taken: State, data: Bytes) returns (r: Result<Option<Transmit>, BitBoxError>)
      requires held == At(New) && Asks(taken)
      modifies this`held, noise`cipher
      ensures Valid() && fresh(Contexts())
      ensures (Value(), r) == ExchangeStep(lib, old(Value()).(state := taken), data)
    {
      hide OnQuery, OnFingerprint, OnNext, OnCommitment, OnMessageSignature, OnDescriptorFingerprint, OnManagement, DecodedReply,
           Encrypted, StartHandshake, OnHandshake, FinalizeHandshake, ConfirmPairing;
      match taken {
        case WaitEncryptedResponse(kind) =>
          r := TakeQuery(lib, kind, data);
        case SignPsbtWaitFingerprint(psbt, force, policy) =>
          r := TakeFingerprint(lib, psbt, force, policy, data);
        case SignMessageWaitCommitment(nonce) =>
          r := TakeCommitment(lib, nonce, data);
        case SignMessageWaitSig(nonce, commitment) =>
          r := TakeMessageSignature(lib, nonce, commitment, data);
        case ShowAddrWaitFingerprint(policy, change, index, display) =>
          r := TakeDescriptorFingerprint(lib, policy, change, index, display, data);
      }
    }

    /** `build_encrypted`, then wait in state `next`. */
    method Send(lib: Library, next: Held, request: Request) returns (r: Result<Option<Transmit>, BitBoxError>)
      modifies this`held, noise`cipher
      ensures (Value(), r) == Encrypted(lib, old(Value()), StateOf(next), request)
      ensures held == next || held == At(New)
    {
      var sealed := noise.Encrypt(lib, lib.encode(request));
      if sealed.None? {
        held := At(New);
        return Err(NotPaired);
      }
      held := next;
      r := Ok(Some(Transmit(ToDevice, [OP_NOISE_MSG] + sealed.value, true)));
    }

    method Unseal(lib: Library, data: Bytes) returns (r: Result<Option<Reply>, BitBoxError>)
      modifies noise`cipher
      ensures (Value(), r) == Open(lib, old(Value()), data)
    {
      if !IsSuccess(data) {
        return Err(UnexpectedResponse);
      }
      if noise.cipher.None? {
        return Err(NotPaired);
      }
      var plain := noise.Decrypt(lib, data[1..]);
      if plain.None? {
        return Err(DecryptFailed);
      }
      r := Ok(lib.decode(plain.value));
    }

    method Decode(lib: Library, data: Bytes) returns (r: Result<Reply, BitBoxError>)
      modifies noise`cipher
      ensures (Value(), r) == DecodedReply(lib, old(Value()), data)
    {
      hide Open;
      var reply := Unseal(lib, data);
      if reply.Err? {
        return Err(reply.error);
      }
      if reply.value.None? {
        return Err(UnexpectedResponse);
      }
      r := if reply.value.value.ErrorReply? then Err(DeviceError) else Ok(reply.value.value);
    }

    method DecodeAction(lib: Library, data: Bytes) returns (r: Result<bool, BitBoxError>)
      modifies noise`cipher
      ensures (Value(), r) == Action(lib, old(Value()), data)
    {
      hide Open;
      var reply := Unseal(lib, data);
      if reply.Err? {
        return Err(reply.error);
      }
      if reply.value.Some? && reply.value.value.SuccessReply? {
        return Ok(true);
      }
      if reply.value.Some? && reply.value.value.ErrorReply? {
        return if reply.value.value.generic then Ok(false) else Err(DeviceError);
      }
      r := Err(UnexpectedResponse);
    }

    /** A response finishes the command. */
    method Conclude(response: Response) returns (r: Result<Option<Transmit>, BitBoxError>)
      modifies this`held
      ensures held.At? && Valid()
      ensures (Value(), r) == Finish(old(Value()), response)
    {
      held := At(Finished(response));
      r := Ok(None);
    }

    method TakeQuery(lib: Library, kind: QueryKind, data: Bytes) returns (r: Result<Option<Transmit>, BitBoxError>)
      requires held == At(New)
      modifies this`held, noise`cipher
      ensures held.At? && Valid()
      ensures (Value(), r) == OnQuery(lib, old(Value()), kind, data)
    {
      hide DecodedReply;
      var decoded := Decode(lib, data);
      if decoded.Err? {
        return Err(decoded.error);
      }
      var reply := decoded.value;
      if kind.Version? && reply.InfoReply? {
        r := Conclude(Info(reply.info));
      } else if kind.RootFingerprint? && reply.FingerprintReply? {
        if |reply.fingerprint| != 4 {
          return Err(InvalidSignature);
        }
        r := Conclude(MasterFingerprint(reply.fingerprint));
      } else if kind.Xpub? && reply.PubReply? {
        var xpub := lib.xpub(reply.text);
        if xpub.None? {
          return Err(SigningFailed);
        }
        r := Conclude(XpubResponse(xpub.value));
      } else if kind.Address? && reply.PubReply? {
        r := Conclude(AddressResponse(reply.text));
      } else if kind.IsRegistered? && reply.RegisteredReply? {
        r := Conclude(IsRegisteredResponse(reply.registered));
      } else if kind.RegisterScriptConfig? && reply.BtcSuccessReply? {
        r := Conclude(Registered);
      } else if kind.RestoreQuery? && reply.SuccessReply? {
        r := Conclude(TaskDone);
      } else if kind.BackupQuery? && reply.SuccessReply? {
        r := Conclude(BackupResponse);
      } else {
        r := Err(UnexpectedResponse);
      }
    }

    method TakeFingerprint(lib: Library, psbt: BitBoxSign.Psbt, force: Option<ScriptConfig>, policy: Option<PolicyInfo>, data: Bytes)
      returns (r: Result<Option<Transmit>, BitBoxError>)
      requires held == At(New)
      modifies this`held, noise`cipher
      ensures Valid() && fresh(Contexts())
      ensures (Value(), r) == OnFingerprint(lib, old(Value()), psbt, force, policy, data)
    {
      hide DecodedReply, ForcedConfig, Lower, Lowered, CannotLower, Encrypted;
      var reply := Decode(lib, data);
      if reply.Err? {
        return Err(reply.error);
      }
      if !reply.value.FingerprintReply? {
        return Err(UnexpectedResponse);
      }
      var forced := ForcedConfig(force, policy, reply.value.fingerprint);
      if forced.Err? {
        return Err(forced.error);
      }
      var lowered := FromPsbt(reply.value.fingerprint, psbt, forced.value);
      LowerIs(reply.value.fingerprint, psbt, forced.value);
      if lowered.Err? {
        return Err(BadPsbt);
      }
      var (tx, keys) := lowered.value;
      var context := new SignContext(psbt, tx, keys);
      r := Send(lib, Signing(context), SignInitRequest(tx));
    }

    /** One round of the signing loop, on the context in place. */
    method TakeNext(lib: Library, context: SignContext, data: Bytes) returns (r: Result<Option<Transmit>, BitBoxError>)
      requires held == At(New)
      modifies this`held, this`drawn, noise`cipher, context
      ensures Valid() && Contexts() <= {context}
      ensures (Value(), r) == OnNext(lib, old(Value()), old(context.Value()), data)
    {
      hide DecodedReply, Drive, Encrypted;
      var reply := Decode(lib, data);
      if reply.Err? {
        return Err(reply.error);
      }
      var event := EventOf(lib, Value(), reply.value);
      drawn := drawn + 1;
      var step := context.DriveSign(lib.crypto, event);
      match step {
        case Continue(_, request) => r := Send(lib, Signing(context), SignLoopRequest(request));
        case Signed(psbt) => r := Conclude(SignedPsbt(psbt));
        case Fail => r := Err(SigningFailed);
        case Panic => r := Err(Panicked);
      }
    }

    method TakeCommitment(lib: Library, nonce: Bytes, data: Bytes) returns (r: Result<Option<Transmit>, BitBoxError>)
      requires held == At(New)
      modifies this`held, noise`cipher
      ensures held.At? && Valid()
      ensures (Value(), r) == OnCommitment(lib, old(Value()), nonce, data)
    {
      hide DecodedReply, Encrypted;
      var reply := Decode(lib, data);
      if reply.Err? {
        return Err(reply.error);
      }
      if !reply.value.CommitmentReply? {
        return Err(UnexpectedResponse);
      }
      r := Send(lib, At(SignMessageWaitSig(nonce, reply.value.commitment)), MessageAntikleptoSignature(nonce));
    }

    method TakeMessageSignature(lib: Library, nonce: Bytes, commitment: Bytes, data: Bytes)
      returns (r: Result<Option<Transmit>, BitBoxError>)
      requires held == At(New)
      modifies this`held, noise`cipher
      ensures held.At? && Valid()
      ensures (Value(), r) == OnMessageSignature(lib, old(Value()), nonce, commitment, data)
    {
      hide DecodedReply, VerifyEcdsa;
      var reply := Decode(lib, data);
      if reply.Err? {
        return Err(reply.error);
      }
      if !reply.value.MessageReply? {
        return Err(UnexpectedResponse);
      }
      var signature := reply.value.signature;
      if |signature| != 65 {
        return Err(InvalidSignature);
      }
      if VerifyEcdsa(lib.crypto, nonce, commitment, signature) != Accepted {
        return Err(SigningFailed);
      }
      var parsed := lib.crypto.parsers.compact(signature[..64]);
      if parsed.None? {
        return Err(InvalidSignature);
      }
      if lib.checks && 27 + 4 + (signature[64] as nat) >= 256 {
        return Err(Panicked);
      }
      r := Conclude(Signature((27 + 4 + signature[64] as nat) % 256, parsed.value));
    }

    method TakeDescriptorFingerprint(lib: Library, policy: PolicyInfo, change: bool, index: nat, display: bool, data: Bytes)
      returns (r: Result<Option<Transmit>, BitBoxError>)
      requires held == At(New)
      modifies this`held, noise`cipher
      ensures held.At? && Valid()
      ensures (Value(), r) == OnDescriptorFingerprint(lib, old(Value()), policy, change, index, display, data)
    {
      hide DecodedReply, AccountPath, Encrypted;
      var reply := Decode(lib, data);
      if reply.Err? {
        return Err(reply.error);
      }
      if !reply.value.FingerprintReply? {
        return Err(UnexpectedResponse);
      }
      if |reply.value.fingerprint| != 4 {
        return Err(InvalidSignature);
      }
      var path := AccountPath(policy, reply.value.fingerprint);
      if path.None? || index >= HARDENED {
        return Err(InvalidInput);
      }
      r := Send(lib, At(WaitEncryptedResponse(Address)),
                AddressRequest(path.value + [if change then 1 else 0, index], policy, display));
    }

    /** The setup, wipe, restore and passphrase flows. */
    method Manage(lib: Library, taken: State, data: Bytes) returns (r: Result<Option<Transmit>, BitBoxError>)
      requires held == At(New)
      modifies this`held, noise`cipher
      ensures held.At? && Valid()
      ensures (Value(), r) == OnManagement(lib, old(Value()).(state := taken), data)
    {
      hide DecodedReply, Action, Encrypted, OnManagementReply;
      if taken.SetupWaitPassword? || taken.SetupWaitBackup? || taken.WipeWaitReset? {
        var done := DecodeAction(lib, data);
        if done.Err? {
          return Err(done.error);
        }
        if taken.SetupWaitPassword? && done.value {
          r := Send(lib, At(SetupWaitBackup), CreateBackupRequest(taken.timestamp, taken.timezone));
        } else {
          r := Conclude(Response.DeviceAction(done.value));
        }
      } else {
        var reply := Decode(lib, data);
        if reply.Err? {
          return Err(reply.error);
        }
        r := ManageReply(lib, taken, reply.value);
      }
    }

    method ManageReply(lib: Library, taken: State, reply: Reply) returns (r: Result<Option<Transmit>, BitBoxError>)
      requires held == At(New)
      modifies this`held, noise`cipher
      ensures held.At? && Valid()
      ensures (Value(), r) == OnManagementReply(lib, old(Value()), taken, reply)
    {
      hide Encrypted, Initialize;
      if reply.InfoReply? {
        r := ManageInfo(lib, taken, reply);
      } else if reply.SuccessReply? {
        r := ManageSuccess(lib, taken);
      } else {
        r := Err(UnexpectedResponse);
      }
    }

    /** The first reply of a flow. */
    method ManageInfo(lib: Library, taken: State, reply: Reply) returns (r: Result<Option<Transmit>, BitBoxError>)
      requires held == At(New) && reply.InfoReply?
      modifies this`held, noise`cipher
      ensures held.At? && Valid()
      ensures (Value(), r) == OnManagementReply(lib, old(Value()), taken, reply)
    {
      hide Encrypted, Initialize;
      if taken.SetupWaitInfo? {
        if reply.initialized {
          return Err(InvalidInput);
        }
        if taken.setup.name == "" {
          r := StartSetup(lib, taken.setup);
        } else {
          r := Send(lib, At(SetupWaitName(taken.setup)), SetDeviceNameRequest(taken.setup.name));
        }
      } else if taken.WipeWaitInfo? {
        if !reply.initialized {
          return Err(InvalidInput);
        }
        r := Send(lib, At(WipeWaitReset), ResetRequest);
      } else if taken.RestoreWaitInfo? {
        if reply.initialized {
          return Err(InvalidInput);
        }
        if taken.name == "" {
          r := Send(lib, At(RestoreWaitMnemonic), RestoreRequest(taken.timestamp, taken.timezone));
        } else {
          r := Send(lib, At(RestoreWaitName(taken.timestamp, taken.timezone)), SetDeviceNameRequest(taken.name));
        }
      } else if taken.TogglePassphraseWaitInfo? {
        if !reply.initialized {
          return Err(InvalidInput);
        }
        r := Send(lib, At(TogglePassphraseWaitSet), SetPassphraseRequest(!reply.passphrase));
      } else {
        r := Err(UnexpectedResponse);
      }
    }

    /** A later one. */
    method ManageSuccess(lib: Library, taken: State) returns (r: Result<Option<Transmit>, BitBoxError>)
      requires held == At(New)
      modifies this`held, noise`cipher
      ensures held.At? && Valid()
      ensures (Value(), r) == OnManagementReply(lib, old(Value()), taken, SuccessReply)
    {
      hide Encrypted, Initialize;
      if taken.SetupWaitName? {
        r := StartSetup(lib, taken.setup);
      } else if taken.RestoreWaitName? {
        r := Send(lib, At(RestoreWaitMnemonic), RestoreRequest(taken.timestamp, taken.timezone));
      } else if taken.SetupWaitRestore? || taken.RestoreWaitMnemonic? || taken.TogglePassphraseWaitSet? {
        r := Conclude(Response.DeviceAction(true));
      } else {
        r := Err(UnexpectedResponse);
      }
    }

    method StartSetup(lib: Library, setup: Setup) returns (r: Result<Option<Transmit>, BitBoxError>)
      requires held == At(New)
      modifies this`held, noise`cipher
      ensures held.At? && Valid()
      ensures (Value(), r) == Initialize(lib, old(Value()), setup)
    {
      hide Encrypted;
      match setup.mode {
        case NewWallet(entropy) =>
          r := Send(lib, At(SetupWaitPassword(setup.timestamp, setup.timezone)), SetPasswordRequest(entropy));
        case FromMnemonic =>
          r := Send(lib, At(SetupWaitRestore), RestoreRequest(setup.timestamp, setup.timezone));
      }
    }

    method Initiate(lib: Library, data: Bytes) returns (r: Result<Option<Transmit>, BitBoxError>)
      modifies this, noise
      ensures held.At? && Valid()
      ensures (Value(), r) == StartHandshake(lib, old(Value()).(state := New), data)
    {
      held := At(New);
      if data != [RESPONSE_SUCCESS] {
        return Err(HandshakeFailed);
      }
      var first := noise.StartHandshake(lib, drawn);
      drawn := drawn + 1;
      if first.None? {
        return Err(HandshakeFailed);
      }
      held := At(WaitHandshake1(first.value.0));
      r := Ok(Some(Transmit(ToDevice, [OP_HER_COMEZ_TEH_HANDSHAEK] + first.value.1, false)));
    }

    method ContinueHandshake(lib: Library, host: Handshake, data: Bytes) returns (r: Result<Option<Transmit>, BitBoxError>)
      requires held == At(New)
      modifies this`held
      ensures held.At? && Valid()
      ensures (Value(), r) == OnHandshake(lib, old(Value()), host, data)
    {
      if !IsSuccess(data) {
        return Err(UnexpectedResponse);
      }
      var answered := lib.readWrite(host, data[1..]);
      if answered.None? {
        return Err(HandshakeFailed);
      }
      held := At(WaitHandshake2(answered.value.0));
      r := Ok(Some(Transmit(ToDevice, [OP_HER_COMEZ_TEH_HANDSHAEK] + answered.value.1, false)));
    }

    method FinishHandshake(lib: Library, host: Handshake, data: Bytes) returns (r: Result<Option<Transmit>, BitBoxError>)
      modifies this, noise
      ensures held.At? && Valid()
      ensures (Value(), r) == FinalizeHandshake(lib, old(Value()).(state := New), host, data)
    {
      hide PairingCode;
      held := At(New);
      if !IsSuccess(data) {
        return Err(UnexpectedResponse);
      }
      var remoteStatic := lib.remoteStatic(host);
      if remoteStatic.None? {
        return Err(HandshakeFailed);
      }
      var deviceWantsVerify := data[1..] == [0x01];
      if remoteStatic.value !in noise.keys || deviceWantsVerify {
        var code := PairingCode(lib.hash(host));
        shown := shown + [code];
        held := At(WaitPairingConfirm(host, code));
        return Ok(Some(Transmit(ToDevice, [OP_I_CAN_HAS_PAIRIN_VERIFICASHUN], false)));
      }
      noise.Finalize(lib, host, None);
      held := At(Finished(TaskDone));
      r := Ok(None);
    }

    method FinishPairing(lib: Library, host: Handshake, code: string, data: Bytes) returns (r: Result<Option<Transmit>, BitBoxError>)
      modifies this, noise
      ensures held.At? && Valid()
      ensures (Value(), r) == ConfirmPairing(lib, old(Value()).(state := New), host, code, data)
    {
      held := At(New);
      if data != [RESPONSE_SUCCESS] {
        return Err(PairingRejected);
      }
      var remoteStatic := lib.remoteStatic(host);
      if remoteStatic.None? {
        return Err(HandshakeFailed);
      }
      noise.ConfirmPairing(remoteStatic.value);
      noise.Finalize(lib, host, Some(code));
      held := At(Finished(TaskDone));
      r := Ok(None);
    }
  }

  // ---- runs ----

  /** The machine after a sequence of answers. */
  function After(lib: Library, m: Machine, answers: seq<Bytes>): Machine {
    if answers == [] then m
    else ExchangeStep(lib, After(lib, m, answers[..|answers| - 1]), answers[|answers| - 1]).0
  }

  /** What a pairing has done by the time it is in each of its states. */
  ghost predicate PairingInvariant(lib: Library, before: Machine, m: Machine, answers: seq<Bytes>) {
    match m.state
    case WaitUnlockAck => answers == [] && m == before
    case WaitHandshakeInit => |answers| == 1 && m.noise == before.noise && m.shown == before.shown
    case WaitHandshake1(_) => |answers| == 2 && m.noise.keys == before.noise.keys && m.shown == before.shown
    case WaitHandshake2(_) => |answers| == 3 && m.noise.keys == before.noise.keys && m.shown == before.shown
    case WaitPairingConfirm(host, code) =>
      && |answers| == 4 && m.noise.keys == before.noise.keys
      && code == PairingCode(lib.hash(host)) && m.shown == before.shown + [code]
    case Finished(response) =>
      && response == TaskDone && m.noise.cipher.Some?
      && exists host :: PairedWith(lib, before, m, answers, host)
    case New => m.noise.keys != before.noise.keys ==> Confirmed(answers)
    case _ => false
  }

  ghost predicate Confirmed(answers: seq<Bytes>) {
    |answers| > 4 && answers[4] == [RESPONSE_SUCCESS]
  }

  /** The device is known now: it was before, and did not ask for a verification; or its
      code was shown and it confirmed. */
  ghost predicate PairedWith(lib: Library, before: Machine, m: Machine, answers: seq<Bytes>, host: Handshake) {
    && lib.remoteStatic(host).Some?
    && var key := lib.remoteStatic(host).value;
    && key in m.noise.keys && m.noise.cipher == Some(lib.ciphers(host))
    && if |answers| == 4
       then m.noise.keys == before.noise.keys && answers[3] != [RESPONSE_SUCCESS, 0x01] && m.shown == before.shown
       else
         && |answers| == 5 && Confirmed(answers)
         && m.shown == before.shown + [PairingCode(lib.hash(host))]
         && m.noise.keys == if key in before.noise.keys then before.noise.keys else before.noise.keys + [key]
  }

  lemma {:induction false} PairingStep(lib: Library, before: Machine, m: Machine, answers: seq<Bytes>, data: Bytes)
    requires PairingInvariant(lib, before, m, answers)
    ensures PairingInvariant(lib, before, ExchangeStep(lib, m, data).0, answers + [data])
  {
    hide ExchangeStep, PairingInvariant;
    IsPairing(lib, before, m, answers);
    if m.state.WaitHandshake2? {
      VerificationStep(lib, before, m, answers, data);
    } else if m.state.WaitPairingConfirm? {
      ConfirmationStep(lib, before, m, answers, data);
    } else if m.state.New? || m.state.Finished? {
      NothingMore(lib, before, m, answers, data);
    } else {
      EarlyStep(lib, before, m, answers, data);
    }
  }

  lemma IsPairing(lib: Library, before: Machine, m: Machine, answers: seq<Bytes>)
    requires PairingInvariant(lib, before, m, answers)
    ensures Pairs(m.state) || m.state.New? || m.state.Finished?
  {
    hide PairingCode;
  }

  lemma EarlyStep(lib: Library, before: Machine, m: Machine, answers: seq<Bytes>, data: Bytes)
    requires PairingInvariant(lib, before, m, answers)
    requires m.state.WaitUnlockAck? || m.state.WaitHandshakeInit? || m.state.WaitHandshake1?
    ensures PairingInvariant(lib, before, ExchangeStep(lib, m, data).0, answers + [data])
  {
    hide PairingCode, OnQuery, OnFingerprint, OnNext, OnCommitment, OnMessageSignature, OnDescriptorFingerprint, OnManagement,
         DecodedReply, Encrypted;
  }

  lemma VerificationStep(lib: Library, before: Machine, m: Machine, answers: seq<Bytes>, data: Bytes)
    requires PairingInvariant(lib, before, m, answers) && m.state.WaitHandshake2?
    ensures PairingInvariant(lib, before, ExchangeStep(lib, m, data).0, answers + [data])
  {
    hide PairingCode, OnQuery, OnFingerprint, OnNext, OnCommitment, OnMessageSignature, OnDescriptorFingerprint, OnManagement,
         DecodedReply, Encrypted;
    var m' := ExchangeStep(lib, m, data).0;
    if m'.state.Finished? {
      assert (answers + [data])[3] == data;
      assert PairedWith(lib, before, m', answers + [data], m.state.host);
    }
  }

  lemma ConfirmationStep(lib: Library, before: Machine, m: Machine, answers: seq<Bytes>, data: Bytes)
    requires PairingInvariant(lib, before, m, answers) && m.state.WaitPairingConfirm?
    ensures PairingInvariant(lib, before, ExchangeStep(lib, m, data).0, answers + [data])
  {
    hide PairingCode, OnQuery, OnFingerprint, OnNext, OnCommitment, OnMessageSignature, OnDescriptorFingerprint, OnManagement,
         DecodedReply, Encrypted;
    var m' := ExchangeStep(lib, m, data).0;
    assert (answers + [data])[4] == data;
    if m'.state.Finished? {
      assert PairedWith(lib, before, m', answers + [data], m.state.host);
    }
  }

  lemma NothingMore(lib: Library, before: Machine, m: Machine, answers: seq<Bytes>, data: Bytes)
    requires PairingInvariant(lib, before, m, answers) && (m.state.New? || m.state.Finished?)
    ensures PairingInvariant(lib, before, ExchangeStep(lib, m, data).0, answers + [data])
  {
    hide PairingCode, OnQuery, OnFingerprint, OnNext, OnCommitment, OnMessageSignature, OnDescriptorFingerprint, OnManagement,
         DecodedReply, Encrypted;
    if m.state.Finished? {
      var host :| PairedWith(lib, before, m, answers, host);
    }
  }

  /** Pairing against any device: it finishes after four or five answers with the ciphers
      of the handshake; the static keys that count as known grow only by the key of this
      handshake, and only if the code of its hash was shown and the device then answered
      success; without that, it finishes only for a known device that does not ask for it. */
  lemma {:induction false} PairingIsConfirmed(lib: Library, m: Machine, answers: seq<Bytes>)
    requires m.state == WaitUnlockAck
    ensures PairingInvariant(lib, m, After(lib, m, answers), answers)
  {
    hide ExchangeStep, PairingInvariant;
    if answers == [] {
      PairingStarts(lib, m);
    } else {
      var init, last := answers[..|answers| - 1], answers[|answers| - 1];
      PairingIsConfirmed(lib, m, init);
      PairingStep(lib, m, After(lib, m, init), init, last);
      assert init + [last] == answers;
    }
  }

  lemma PairingStarts(lib: Library, m: Machine)
    requires m.state == WaitUnlockAck
    ensures PairingInvariant(lib, m, m, [])
  {
  }

  /** What the answers of a session mean to the signing loop. */
  function EventsOf(lib: Library, m: Machine, answers: seq<Bytes>): seq<Event> {
    if answers == [] then []
    else
      EventsOf(lib, m, answers[..|answers| - 1])
      + EventAt(lib, After(lib, m, answers[..|answers| - 1]), answers[|answers| - 1])
  }

  function EventAt(lib: Library, m: Machine, data: Bytes): seq<Event> {
    var (m', reply) := DecodedReply(lib, m.(state := New), data);
    if m.state.SignPsbtWaitNext? && reply.Ok? then [EventOf(lib, m', reply.value)] else []
  }

  function FingerprintAt(lib: Library, m: Machine, data: Bytes): Bytes {
    var reply := DecodedReply(lib, m.(state := New), data).1;
    if reply.Ok? && reply.value.FingerprintReply? then reply.value.fingerprint else []
  }

  /** The PSBT as lowered for the fingerprint that the first answer tells, and the context
      that the signing loop starts with. */
  function LoopStart(psbt: BitBoxSign.Psbt, force: Option<ScriptConfig>, policy: Option<PolicyInfo>, fingerprint: Bytes): Option<Ctx> {
    match ForcedConfig(force, policy, fingerprint)
    case Err(_) => None
    case Ok(forced) =>
      match Lower(fingerprint, psbt, forced)
      case None => None
      case Some((tx, keys)) => Some(FirstCtx(psbt, tx, keys))
  }

  /** How a signing session got where it is. */
  ghost predicate SigningInvariant(lib: Library, before: Machine, m: Machine, answers: seq<Bytes>, events: seq<Event>)
    requires before.state.SignPsbtWaitFingerprint?
  {
    if answers == [] then m == before && events == []
    else
      var first := LoopStart(before.state.psbt, before.state.force, before.state.policy, FingerprintAt(lib, before, answers[0]));
      match m.state
      case SignPsbtWaitNext(ctx) => first.Some? && Reached(lib.crypto, first.value, events) == Some(ctx)
      case Finished(response) =>
        && response.SignedPsbt? && first.Some? && events != []
        && LoopSigns(lib, first.value, events[..|events| - 1], events[|events| - 1], response.psbt)
      case New => true
      case _ => false
  }

  ghost predicate LoopSigns(lib: Library, first: Ctx, events: seq<Event>, last: Event, signed: BitBoxSign.Psbt) {
    var ctx := Reached(lib.crypto, first, events);
    ctx.Some? && Drive(lib.crypto, ctx.value, last) == Signed(signed)
  }

  lemma FingerprintStep(lib: Library, m: Machine, data: Bytes)
    requires m.state.SignPsbtWaitFingerprint?
    ensures SigningInvariant(lib, m, ExchangeStep(lib, m, data).0, [data], EventAt(lib, m, data))
  {
    hide DecodedReply, Lower, ForcedConfig, Drive;
  }

  lemma NextStep(lib: Library, before: Machine, m: Machine, answers: seq<Bytes>, events: seq<Event>, data: Bytes)
    requires before.state.SignPsbtWaitFingerprint? && answers != []
    requires SigningInvariant(lib, before, m, answers, events)
    ensures SigningInvariant(lib, before, ExchangeStep(lib, m, data).0, answers + [data], events + EventAt(lib, m, data))
  {
    hide DecodedReply, LoopStart, FingerprintAt, Drive, Reached;
    assert (answers + [data])[0] == answers[0];
    if m.state.SignPsbtWaitNext? && DecodedReply(lib, m.(state := New), data).1.Ok? {
      var (m', reply) := DecodedReply(lib, m.(state := New), data);
      var event := EventOf(lib, m', reply.value);
      var first := LoopStart(before.state.psbt, before.state.force, before.state.policy, FingerprintAt(lib, before, answers[0])).value;
      ReachedSnoc(lib.crypto, first, events, event);
      assert (events + [event])[..|events|] == events;
      assert EventAt(lib, m, data) == [event];
    }
  }

  /** Whatever the device answers, a signing session is where its answers lead the signing
      loop from the lowering of the PSBT, and can only finish with what that loop makes. */
  lemma {:induction false} SessionSigns(lib: Library, m: Machine, answers: seq<Bytes>)
    requires m.state.SignPsbtWaitFingerprint?
    ensures SigningInvariant(lib, m, After(lib, m, answers), answers, EventsOf(lib, m, answers))
  {
    hide ExchangeStep, SigningInvariant, EventAt;
    if answers == [] {
      NothingAnswered(lib, m);
    } else {
      var init, last := answers[..|answers| - 1], answers[|answers| - 1];
      assert init + [last] == answers;
      if init == [] {
        assert answers == [last];
        FingerprintStep(lib, m, last);
        assert EventsOf(lib, m, answers) == EventAt(lib, m, last);
      } else {
        SessionSigns(lib, m, init);
        NextStep(lib, m, After(lib, m, init), init, EventsOf(lib, m, init), last);
      }
    }
  }

  lemma NothingAnswered(lib: Library, m: Machine)
    requires m.state.SignPsbtWaitFingerprint?
    ensures SigningInvariant(lib, m, m, [], [])
  {
  }

  /** The PSBT that a session returns is the original, into which the signatures of the
      pass-2 rounds of this very session, each checked, were written in their order, under
      the keys found for the inputs with the fingerprint that the device told. */
  lemma {:induction false} SessionResult(lib: Library, m: Machine, answers: seq<Bytes>)
    requires m.state.SignPsbtWaitFingerprint?
    requires After(lib, m, answers).state.Finished?
    ensures After(lib, m, answers).state.response.SignedPsbt? && |answers| > 0 && EventsOf(lib, m, answers) != []
    ensures var first := LoopStart(m.state.psbt, m.state.force, m.state.policy, FingerprintAt(lib, m, answers[0]));
            && first.Some? && ConfigsInRange(first.value.tx) && |first.value.keys| == |first.value.tx.inputs|
            && SignedBy(lib.crypto, first.value, EventsOf(lib, m, answers), After(lib, m, answers).state.response.psbt)
  {
    hide After, EventsOf, Drive, Lower, ForcedConfig, Reached, AllYielded, SignaturesApplied, Lowered, Asked, Rounds, FingerprintAt, ConfigsInRange;
    SessionSigns(lib, m, answers);
    assert answers != [];
    var fingerprint := FingerprintAt(lib, m, answers[0]);
    var events := EventsOf(lib, m, answers);
    var forced := ForcedConfig(m.state.force, m.state.policy, fingerprint).value;
    var (tx, keys) := Lower(fingerprint, m.state.psbt, forced).value;
    LowerIs(fingerprint, m.state.psbt, forced);
    LoweredInRange(fingerprint, m.state.psbt, forced, tx, keys);
    WhenDone(lib.crypto, FirstCtx(m.state.psbt, tx, keys), events[..|events| - 1], events[|events| - 1]);
    assert events[..|events| - 1] + [events[|events| - 1]] == events;
  }

  ghost predicate SignedBy(lib: Crypto, first: Ctx, events: seq<Event>, signed: BitBoxSign.Psbt)
    requires events != []
  {
    var before := events[..|events| - 1];
    var asked, rounds := Asked(lib, first, before), Rounds(lib, first, before);
    var sigs := FinalSigs(lib, first, before, events[|events| - 1]);
    && signed == first.psbt.(inputs := signed.inputs)
    && |sigs| == |rounds| && AllYielded(lib, first.tx, events, asked, rounds, sigs)
    && SignaturesApplied(lib.parsers, first.psbt.inputs, sigs, first.keys, signed.inputs)
  }

  /** And if nothing was signed before and signatures of different inputs differ, every input
      of it holds the signature that the device gave when asked to sign this very input, if and
      only if the rounds asked for all inputs, in their order. */
  lemma {:induction false} SessionBelongs(lib: Library, m: Machine, answers: seq<Bytes>, first: Ctx)
    requires m.state.SignPsbtWaitFingerprint?
    requires After(lib, m, answers).state.Finished? && |answers| > 0
    requires LoopStart(m.state.psbt, m.state.force, m.state.policy, FingerprintAt(lib, m, answers[0])) == Some(first)
    requires Unsigned(first)
    requires EventsOf(lib, m, answers) != []
    requires var events := EventsOf(lib, m, answers);
             var before, last := events[..|events| - 1], events[|events| - 1];
             Distinguishable(lib.crypto.parsers, first.keys, Rounds(lib.crypto, first, before), FinalSigs(lib.crypto, first, before, last))
    ensures After(lib, m, answers).state.response.SignedPsbt?
    ensures var events := EventsOf(lib, m, answers);
            var before, last := events[..|events| - 1], events[|events| - 1];
            var signed := After(lib, m, answers).state.response.psbt;
            && |signed.inputs| == |first.psbt.inputs|
            && ((forall k :: 0 <= k < |first.keys| ==> HoldsOwn(lib.crypto, first, before, last, signed, k))
                <==> AsksInOrder(Rounds(lib.crypto, first, before), |first.keys|))
  {
    hide After, EventsOf, Drive, Lower, ForcedConfig, Reached, FingerprintAt, LoopStart, HoldsOwn, AsksInOrder, Unsigned,
         Distinguishable, Rounds, FinalSigs;
    SessionSigns(lib, m, answers);
    var events := EventsOf(lib, m, answers);
    FirstIsInitial(m, FingerprintAt(lib, m, answers[0]), first);
    BelongsIffInOrder(lib.crypto, first, events[..|events| - 1], events[|events| - 1]);
  }

  lemma FirstIsInitial(m: Machine, fingerprint: Bytes, first: Ctx)
    requires m.state.SignPsbtWaitFingerprint?
    requires LoopStart(m.state.psbt, m.state.force, m.state.policy, fingerprint) == Some(first)
    ensures Initial(first)
  {
    hide Lower, ForcedConfig;
  }

  /** A message signature is returned only for a nonce whose commitment went out with the
      request, revealed only in answer to the device's commitment, and found in it. */
  lemma {:induction false} MessageSignatureIsChecked(lib: Library, m: Machine, message: Bytes, simple: SimpleType, keypath: KeyPath,
                                                     data1: Bytes, data2: Bytes)
    requires m.noise.cipher.Some?
    ensures var (m1, sent) := Start(lib, m, SignMessage(message, simple, keypath));
            var (m2, r2) := ExchangeStep(lib, m1, data1);
            var (m3, r3) := ExchangeStep(lib, m2, data2);
            sent.Ok? && m3.state.Finished? ==>
              exists nonce, commitment, signature ::
                && lib.hostNonce(m.drawn) == Some(nonce)
                && sent.value.payload == [OP_NOISE_MSG] + lib.encrypt(m.noise.cipher.value,
                     lib.encode(SignMessageRequest(message, simple, keypath, lib.crypto.commit(nonce)))).1
                && DecodedReply(lib, m1.(state := New), data1).1 == Ok(CommitmentReply(commitment))
                && r2 == Encrypted(lib, DecodedReply(lib, m1.(state := New), data1).0, SignMessageWaitSig(nonce, commitment),
                                   MessageAntikleptoSignature(nonce)).1
                && DecodedReply(lib, m2.(state := New), data2).1 == Ok(MessageReply(signature))
                && |signature| == 65 && VerifyEcdsa(lib.crypto, nonce, commitment, signature) == Accepted
                && lib.crypto.parsers.compact(signature[..64]).Some?
                && m3.state.response == Signature((31 + signature[64] as nat) % 256, lib.crypto.parsers.compact(signature[..64]).value)
  {
    hide DecodedReply, VerifyEcdsa, OnQuery, OnFingerprint, OnNext, OnDescriptorFingerprint, OnManagement, StartHandshake,
         OnHandshake, FinalizeHandshake, ConfirmPairing;
    var (m1, sent) := Start(lib, m, SignMessage(message, simple, keypath));
    var (m2, r2) := ExchangeStep(lib, m1, data1);
    var (m3, r3) := ExchangeStep(lib, m2, data2);
    if sent.Ok? && m3.state.Finished? {
      var nonce := lib.hostNonce(m.drawn).value;
      assert m1.state == SignMessageWaitCommitment(nonce);
      var commitment := DecodedReply(lib, m1.(state := New), data1).1.value.commitment;
      assert m2.state == SignMessageWaitSig(nonce, commitment);
      var signature := DecodedReply(lib, m2.(state := New), data2).1.value.signature;
      assert |signature| == 65 && VerifyEcdsa(lib.crypto, nonce, commitment, signature) == Accepted;
    }
  }

  // ---- panics ----

  /** The header byte of the answer to SIGN MESSAGE overflows in a build that checks that. */
  ghost predicate HeaderOverflows(lib: Library, nonce: Bytes, commitment: Bytes, reply: Reply) {
    && lib.checks && reply.MessageReply? && |reply.signature| == 65
    && VerifyEcdsa(lib.crypto, nonce, commitment, reply.signature) == Accepted
    && lib.crypto.parsers.compact(reply.signature[..64]).Some? && reply.signature[64] >= 225
  }

  /** An answer stops the program exactly if it does so in the signing loop, or holds a valid
      message signature with a recovery id of 225 or more and overflow is checked. */
  lemma {:induction false} PanicsExactly(lib: Library, m: Machine, data: Bytes)
    ensures var (m', reply) := DecodedReply(lib, m.(state := New), data);
            ExchangeStep(lib, m, data).1 == Err(Panicked) <==>
            && reply.Ok?
            && ((m.state.SignPsbtWaitNext? && Drive(lib.crypto, m.state.ctx, EventOf(lib, m', reply.value)).Panic?)
                || (m.state.SignMessageWaitSig? && HeaderOverflows(lib, m.state.nonce, m.state.commitment, reply.value)))
  {
    hide DecodedReply, Drive, Lower, OnManagement, VerifyEcdsa, ForcedConfig, PairingCode, AccountPath;
    RepliesDoNotPanic(lib, m.(state := New), data);
    ManagementDoesNotPanic(lib, m, data);
    ForcingDoesNotPanic();
  }

  lemma RepliesDoNotPanic(lib: Library, m: Machine, data: Bytes)
    ensures DecodedReply(lib, m, data).1 != Err(Panicked) && Action(lib, m, data).1 != Err(Panicked)
  {
  }

  lemma ForcingDoesNotPanic()
    ensures forall force, policy, fingerprint :: ForcedConfig(force, policy, fingerprint) != Err(Panicked)
  {
  }

  lemma ManagementDoesNotPanic(lib: Library, entry: Machine, data: Bytes)
    ensures OnManagement(lib, entry, data).1 != Err(Panicked)
  {
    hide DecodedReply, Action;
    RepliesDoNotPanic(lib, entry.(state := New), data);
  }
}
