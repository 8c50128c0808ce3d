/** The other flows of the BitBox02: setting up, wiping, restoring, the passphrase, addresses of
    descriptors, and the plain messages of pairing, against any device. */
module BitBoxFlows {
  import opened Common
  import opened Driver
  import opened BitBoxSign
  import opened SignLoop
  import opened BitBox
  import opened BitBoxCommands
  import opened BitBoxSessions

  /** What an answer says, once opened. */
  function Heard(lib: BitBox.Library, m: Machine, data: Bytes): Option<BitBox.Reply> {
    match Open(lib, m.(state := New), data).1 case Ok(reply) => reply case Err(_) => None
  }

  /** A command begins with this request, sealed. */
  predicate Begins(lib: BitBox.Library, m: Machine, command: Command, request: BitBox.Request) {
    && m.noise.cipher.Some?
    && BitBox.Start(lib, m, command).1 ==
       Ok(Transmit(ToDevice, [0x6E] + lib.encrypt(m.noise.cipher.value, lib.encode(request)).1, true))
  }

  function Next(lib: BitBox.Library, m: Machine, data: Bytes): Machine {
    ExchangeStep(lib, m, data).0
  }

  predicate Fails(lib: BitBox.Library, m: Machine, data: Bytes) {
    ExchangeStep(lib, m, data).1.Err?
  }

  predicate Ends(lib: BitBox.Library, m: Machine, data: Bytes, response: Response) {
    ExchangeStep(lib, m, data).1 == Ok(None) && ExchangeStep(lib, m, data).0.state == Finished(response)
  }

  /** How an action that the user may decline ends: with what the device said of it. */
  ghost predicate EndsAsSaid(lib: BitBox.Library, m: Machine, data: Bytes) {
    match Heard(lib, m, data)
    case Some(SuccessReply) => Ends(lib, m, data, Response.DeviceAction(true))
    case Some(ErrorReply(generic)) => if generic then Ends(lib, m, data, Response.DeviceAction(false)) else Fails(lib, m, data)
    case _ => Fails(lib, m, data)
  }

  /** How an action ends that can only succeed. */
  ghost predicate EndsWithSuccess(lib: BitBox.Library, m: Machine, data: Bytes) {
    if Heard(lib, m, data) == Some(SuccessReply) then Ends(lib, m, data, Response.DeviceAction(true)) else Fails(lib, m, data)
  }

  predicate IsInfo(reply: Option<BitBox.Reply>, initialized: bool) {
    reply.Some? && reply.value.InfoReply? && reply.value.initialized == initialized
  }

  lemma DecodedIsHeard(lib: BitBox.Library, m: Machine, data: Bytes)
    ensures var (m', r) := DecodedReply(lib, m.(state := New), data);
            && (r.Ok? <==> Heard(lib, m, data).Some? && !Heard(lib, m, data).value.ErrorReply?)
            && (r.Ok? ==> r.value == Heard(lib, m, data).value)
            && m'.state == New && (m.noise.cipher.Some? ==> m'.noise.cipher.Some?)
  {
  }

  lemma ActionIsHeard(lib: BitBox.Library, m: Machine, data: Bytes)
    ensures var (m', r) := Action(lib, m.(state := New), data);
            && m' == DecodedReply(lib, m.(state := New), data).0
            && match Heard(lib, m, data)
               case Some(SuccessReply) => r == Ok(true)
               case Some(ErrorReply(generic)) => if generic then r == Ok(false) else r.Err?
               case _ => r.Err?
  {
  }

  /** Waiting for the information of the device, or for its word. */
  predicate Manages(s: State) {
    || s.SetupWaitInfo? || s.SetupWaitName? || s.SetupWaitRestore? || s.WipeWaitInfo? || s.RestoreWaitInfo? || s.RestoreWaitName?
    || s.RestoreWaitMnemonic? || s.TogglePassphraseWaitInfo? || s.TogglePassphraseWaitSet?
  }

  lemma ManagementStep(lib: BitBox.Library, m: Machine, data: Bytes)
    requires m.noise.cipher.Some? && Manages(m.state)
    ensures var m' := DecodedReply(lib, m.(state := New), data).0;
            && m'.noise.cipher.Some?
            && match Heard(lib, m, data)
               case None => Fails(lib, m, data)
               case Some(ErrorReply(_)) => Fails(lib, m, data)
               case Some(reply) => ExchangeStep(lib, m, data) == OnManagementReply(lib, m', m.state, reply)
  {
    hide DecodedReply, Heard, OnManagementReply, Action, OnQuery, OnFingerprint, OnNext, OnCommitment, OnMessageSignature,
         OnDescriptorFingerprint, StartHandshake, OnHandshake, FinalizeHandshake, ConfirmPairing;
    DecodedIsHeard(lib, m, data);
  }

  lemma ActionStep(lib: BitBox.Library, m: Machine, data: Bytes)
    requires m.state.SetupWaitBackup? || m.state.WipeWaitReset?
    ensures EndsAsSaid(lib, m, data)
  {
    hide DecodedReply, Heard, OnManagementReply, Action, OnQuery, OnFingerprint, OnNext, OnCommitment, OnMessageSignature,
         OnDescriptorFingerprint, StartHandshake, OnHandshake, FinalizeHandshake, ConfirmPairing;
    ActionIsHeard(lib, m, data);
  }

  lemma SuccessStep(lib: BitBox.Library, m: Machine, data: Bytes)
    requires m.noise.cipher.Some? && (m.state.SetupWaitRestore? || m.state.RestoreWaitMnemonic? || m.state.TogglePassphraseWaitSet?)
    ensures EndsWithSuccess(lib, m, data)
  {
    hide ExchangeStep, DecodedReply, Heard;
    ManagementStep(lib, m, data);
  }

  // ---- what cannot be opened ----

  /** The states in which answers come sealed. */
  predicate WaitsSealed(s: State) {
    Asks(s) || s.SignPsbtWaitNext? || Manages(s) || s.SetupWaitPassword? || s.SetupWaitBackup? || s.WipeWaitReset?
  }

  /** A sealed answer fails if the device does not report success, if the two are not paired, or
      if it cannot be decrypted, each with its own error; and without a pairing nothing but a
      pairing is started. */
  lemma {:induction false} Unsealing(lib: BitBox.Library, m: Machine, data: Bytes, command: Command)
    requires WaitsSealed(m.state)
    ensures data == [] || data[0] != 0x00 ==> ExchangeStep(lib, m, data).1 == Err(UnexpectedResponse)
    ensures data != [] && data[0] == 0x00 && m.noise.cipher.None? ==> ExchangeStep(lib, m, data).1 == Err(NotPaired)
    ensures data != [] && data[0] == 0x00 && m.noise.cipher.Some? && lib.decrypt(m.noise.cipher.value, data[1..]).None? ==>
              ExchangeStep(lib, m, data).1 == Err(DecryptFailed)
    ensures m.noise.cipher.None? ==> (BitBox.Start(lib, m, command).1.Ok? <==> command.UnlockAndPair?)
    ensures m.noise.cipher.None? && !command.UnlockAndPair? ==> BitBox.Start(lib, m, command).1 == Err(NotPaired)
  {
    hide OnManagementReply, Drive, Lower, ForcedConfig, VerifyEcdsa, AccountPath, EventOf;
  }

  // ---- wiping, and the passphrase ----

  /** WIPE: the reset is asked for only from a device that says that it is initialized, and what
      the device then says is the result. */
  lemma {:induction false} Wiping(lib: BitBox.Library, m: Machine, data1: Bytes, data2: Bytes)
    requires m.noise.cipher.Some?
    ensures Begins(lib, m, Wipe, DeviceInfoRequest)
    ensures var m0 := BitBox.Start(lib, m, Wipe).0;
            if IsInfo(Heard(lib, m0, data1), true)
            then Sends(lib, m0, data1, ResetRequest) && EndsAsSaid(lib, Next(lib, m0, data1), data2)
            else Fails(lib, m0, data1)
  {
    hide ExchangeStep, DecodedReply, Heard, EndsAsSaid;
    var m0 := BitBox.Start(lib, m, Wipe).0;
    ManagementStep(lib, m0, data1);
    if IsInfo(Heard(lib, m0, data1), true) {
      ActionStep(lib, Next(lib, m0, data1), data2);
    }
  }

  /** TOGGLE PASSPHRASE: an initialized device is asked for the opposite of what it says. */
  lemma {:induction false} Toggling(lib: BitBox.Library, m: Machine, data1: Bytes, data2: Bytes)
    requires m.noise.cipher.Some?
    ensures Begins(lib, m, TogglePassphrase, DeviceInfoRequest)
    ensures var m0 := BitBox.Start(lib, m, TogglePassphrase).0;
            var reply := Heard(lib, m0, data1);
            if IsInfo(reply, true)
            then Sends(lib, m0, data1, SetPassphraseRequest(!reply.value.passphrase)) && EndsWithSuccess(lib, Next(lib, m0, data1), data2)
            else Fails(lib, m0, data1)
  {
    hide ExchangeStep, DecodedReply, Heard, EndsWithSuccess;
    var m0 := BitBox.Start(lib, m, TogglePassphrase).0;
    ManagementStep(lib, m0, data1);
    if IsInfo(Heard(lib, m0, data1), true) {
      SuccessStep(lib, Next(lib, m0, data1), data2);
    }
  }

  // ---- restoring ----

  /** RESTORE: only a device that is not initialized is restored, after it got its name if there
      is one. */
  lemma {:induction false} Restoring(lib: BitBox.Library, m: Machine, name: string, timestamp: nat, timezone: int,
                                     data1: Bytes, data2: Bytes, data3: Bytes)
    requires m.noise.cipher.Some?
    ensures Begins(lib, m, Restore(name, timestamp, timezone), DeviceInfoRequest)
    ensures var m0 := BitBox.Start(lib, m, Restore(name, timestamp, timezone)).0;
            var m1 := Next(lib, m0, data1);
            if !IsInfo(Heard(lib, m0, data1), false) then Fails(lib, m0, data1)
            else if |name| == 0
            then Sends(lib, m0, data1, RestoreRequest(timestamp, timezone)) && EndsWithSuccess(lib, m1, data2)
            else
              && Sends(lib, m0, data1, SetDeviceNameRequest(name))
              && if Heard(lib, m1, data2) != Some(SuccessReply) then Fails(lib, m1, data2)
                 else Sends(lib, m1, data2, RestoreRequest(timestamp, timezone)) && EndsWithSuccess(lib, Next(lib, m1, data2), data3)
  {
    hide ExchangeStep, DecodedReply, Heard, EndsWithSuccess;
    var m0 := BitBox.Start(lib, m, Restore(name, timestamp, timezone)).0;
    var m1 := Next(lib, m0, data1);
    ManagementStep(lib, m0, data1);
    if IsInfo(Heard(lib, m0, data1), false) {
      if |name| == 0 {
        SuccessStep(lib, m1, data2);
      } else {
        ManagementStep(lib, m1, data2);
        if Heard(lib, m1, data2) == Some(SuccessReply) {
          SuccessStep(lib, Next(lib, m1, data2), data3);
        }
      }
    }
  }

  // ---- setting up ----

  /** What follows the name in SETUP: a new wallet gets its password, with the entropy of the
      host, and is then backed up if the user agreed; or the device restores a mnemonic. */
  ghost predicate SetsUp(lib: BitBox.Library, m: Machine, data: Bytes, setup: Setup, next: Bytes, last: Bytes) {
    var m1 := Next(lib, m, data);
    match setup.mode
    case NewWallet(entropy) =>
      && Sends(lib, m, data, SetPasswordRequest(entropy))
      && (match Heard(lib, m1, next)
          case Some(SuccessReply) =>
            && Sends(lib, m1, next, CreateBackupRequest(setup.timestamp, setup.timezone))
            && EndsAsSaid(lib, Next(lib, m1, next), last)
          case _ => EndsAsSaid(lib, m1, next))
    case FromMnemonic => Sends(lib, m, data, RestoreRequest(setup.timestamp, setup.timezone)) && EndsWithSuccess(lib, m1, next)
  }

  lemma InitializeSetsUp(lib: BitBox.Library, m: Machine, data: Bytes, setup: Setup, next: Bytes, last: Bytes)
    requires m.noise.cipher.Some?
    requires ExchangeStep(lib, m, data) == Initialize(lib, DecodedReply(lib, m.(state := New), data).0, setup)
    ensures SetsUp(lib, m, data, setup, next, last)
  {
    hide ExchangeStep, Heard, EndsAsSaid, EndsWithSuccess;
    DecodedIsHeard(lib, m, data);
    var m1 := Next(lib, m, data);
    if setup.mode.NewWallet? {
      PasswordStep(lib, m1, setup.timestamp, setup.timezone, next, last);
    } else {
      SuccessStep(lib, m1, next);
    }
  }

  lemma PasswordStep(lib: BitBox.Library, m: Machine, timestamp: nat, timezone: int, next: Bytes, last: Bytes)
    requires m.noise.cipher.Some? && m.state == SetupWaitPassword(timestamp, timezone)
    ensures match Heard(lib, m, next)
            case Some(SuccessReply) =>
              && Sends(lib, m, next, CreateBackupRequest(timestamp, timezone))
              && EndsAsSaid(lib, Next(lib, m, next), last)
            case _ => EndsAsSaid(lib, m, next)
  {
    hide DecodedReply, Heard, OnManagementReply, Action, OnQuery, OnFingerprint, OnNext, OnCommitment, OnMessageSignature,
         OnDescriptorFingerprint, StartHandshake, OnHandshake, FinalizeHandshake, ConfirmPairing;
    ActionIsHeard(lib, m, next);
    DecodedIsHeard(lib, m, next);
    if Heard(lib, m, next) == Some(SuccessReply) {
      ActionStep(lib, Next(lib, m, next), last);
    }
  }

  /** SETUP: only a device that is not initialized is set up, after it got its name if there is
      one. */
  lemma {:induction false} SettingUp(lib: BitBox.Library, m: Machine, setup: Setup, data1: Bytes, data2: Bytes, data3: Bytes, data4: Bytes)
    requires m.noise.cipher.Some?
    ensures Begins(lib, m, SetupWallet(setup), DeviceInfoRequest)
    ensures var m0 := BitBox.Start(lib, m, SetupWallet(setup)).0;
            var m1 := Next(lib, m0, data1);
            if !IsInfo(Heard(lib, m0, data1), false) then Fails(lib, m0, data1)
            else if |setup.name| == 0 then SetsUp(lib, m0, data1, setup, data2, data3)
            else
              && Sends(lib, m0, data1, SetDeviceNameRequest(setup.name))
              && if Heard(lib, m1, data2) != Some(SuccessReply) then Fails(lib, m1, data2)
                 else SetsUp(lib, m1, data2, setup, data3, data4)
  {
    hide ExchangeStep, DecodedReply, Heard, SetsUp, Initialize;
    var m0 := BitBox.Start(lib, m, SetupWallet(setup)).0;
    var m1 := Next(lib, m0, data1);
    ManagementStep(lib, m0, data1);
    if IsInfo(Heard(lib, m0, data1), false) {
      if |setup.name| == 0 {
        InitializeSetsUp(lib, m0, data1, setup, data2, data3);
      } else {
        ManagementStep(lib, m1, data2);
        if Heard(lib, m1, data2) == Some(SuccessReply) {
          InitializeSetsUp(lib, m1, data2, setup, data3, data4);
        }
      }
    }
  }

  // ---- addresses and queries ----

  /** The address of a descriptor is asked for at the path of our key in it, followed by the
      branch and the index; and the text of the device is the result. */
  lemma {:induction false} ShowingAddress(lib: BitBox.Library, m: Machine, policy: PolicyInfo, change: bool, index: nat, display: bool,
                                          fingerprint: Bytes, path: KeyPath, data1: Bytes, data2: Bytes)
    requires m.noise.cipher.Some?
    ensures Begins(lib, m, ShowDescriptorAddress(policy, change, index, display), RootFingerprintRequest)
    ensures var m0 := BitBox.Start(lib, m, ShowDescriptorAddress(policy, change, index, display)).0;
            Heard(lib, m0, data1) == Some(FingerprintReply(fingerprint)) && PolicyPathIs(policy, fingerprint, path) ==>
              if |fingerprint| != 4 || index >= 0x8000_0000 then Fails(lib, m0, data1)
              else
                && Sends(lib, m0, data1, AddressRequest(path + [if change then 1 else 0, index], policy, display))
                && AddressEnds(lib, Next(lib, m0, data1), data2)
  {
    hide DecodedReply, Heard, PolicyPathIs, AccountPath, OnQuery, OnFingerprint, OnNext, OnCommitment, OnMessageSignature,
         OnManagement, StartHandshake, OnHandshake, FinalizeHandshake, ConfirmPairing, AddressEnds;
    var m0 := BitBox.Start(lib, m, ShowDescriptorAddress(policy, change, index, display)).0;
    DecodedIsHeard(lib, m0, data1);
    PolicyPathFound(policy, fingerprint, path);
    var m1 := Next(lib, m0, data1);
    if m1.state == WaitEncryptedResponse(Address) {
      AddressStep(lib, m1, data2);
    }
  }

  ghost predicate AddressEnds(lib: BitBox.Library, m: Machine, data: Bytes) {
    match Heard(lib, m, data) case Some(PubReply(text)) => Ends(lib, m, data, AddressResponse(text)) case _ => Fails(lib, m, data)
  }

  lemma AddressStep(lib: BitBox.Library, m: Machine, data: Bytes)
    requires m.state == WaitEncryptedResponse(Address)
    ensures AddressEnds(lib, m, data)
  {
    hide DecodedReply, Heard, OnFingerprint, OnNext, OnCommitment, OnMessageSignature, OnDescriptorFingerprint,
         OnManagement, StartHandshake, OnHandshake, FinalizeHandshake, ConfirmPairing;
    DecodedIsHeard(lib, m, data);
  }

  /** What each query takes for its answer; every other reply is an error. */
  ghost predicate Answers(lib: BitBox.Library, kind: QueryKind, reply: BitBox.Reply, response: Response) {
    match kind
    case Version => reply.InfoReply? && response == Info(reply.info)
    case RootFingerprint => reply.FingerprintReply? && |reply.fingerprint| == 4 && response == MasterFingerprint(reply.fingerprint)
    case Xpub => reply.PubReply? && lib.xpub(reply.text).Some? && response == XpubResponse(lib.xpub(reply.text).value)
    case Address => reply.PubReply? && response == AddressResponse(reply.text)
    case IsRegistered => reply.RegisteredReply? && response == IsRegisteredResponse(reply.registered)
    case RegisterScriptConfig => reply.BtcSuccessReply? && response == Registered
    case RestoreQuery => reply.SuccessReply? && response == TaskDone
    case BackupQuery => reply.SuccessReply? && response == BackupResponse
  }

  lemma {:induction false} Querying(lib: BitBox.Library, m: Machine, kind: QueryKind, query: Bytes, data: Bytes, response: Response)
    requires m.noise.cipher.Some?
    ensures Begins(lib, m, Query(kind, query), QueryRequest(query))
    ensures var m0 := BitBox.Start(lib, m, Query(kind, query)).0;
            var reply := Heard(lib, m0, data);
            && (Ends(lib, m0, data, response) <==> reply.Some? && Answers(lib, kind, reply.value, response))
            && (ExchangeStep(lib, m0, data).1.Ok? <==> exists r :: Ends(lib, m0, data, r))
  {
    hide DecodedReply, Heard, OnFingerprint, OnNext, OnCommitment, OnMessageSignature, OnDescriptorFingerprint,
         OnManagement, StartHandshake, OnHandshake, FinalizeHandshake, ConfirmPairing;
    var m0 := BitBox.Start(lib, m, Query(kind, query)).0;
    DecodedIsHeard(lib, m0, data);
    var (m', r) := ExchangeStep(lib, m0, data);
    if r.Ok? {
      assert Ends(lib, m0, data, m'.state.response);
    }
  }

  // ---- pairing, in plain ----

  /** The messages of a pairing: unlock, the start of the handshake, its two messages, made with
      the key that the host already had or one that it draws, and, if the device has to verify,
      the request to do so. Nothing of it is sealed. */
  lemma {:induction false} PairingMessages(lib: BitBox.Library, m: Machine, data: Bytes, message: Bytes, last: Bytes,
                                           host: Handshake, host': Handshake, first: Bytes, second: Bytes, key: Bytes)
    requires key == (if m.noise.hostKey.Some? then m.noise.hostKey.value else lib.generateKey(m.drawn))
    requires lib.firstMessage(key) == Some((host, first)) && lib.readWrite(host, message) == Some((host', second))
    requires lib.remoteStatic(host').Some?
    ensures var (m0, sent) := BitBox.Start(lib, m, UnlockAndPair);
            sent == Ok(Transmit(ToDevice, [0x75], false)) && SendsPlain(lib, m0, data, [0x68])
            && var m1 := Next(lib, m0, data);
               SendsPlain(lib, m1, [0x00], [0x48] + first) && Next(lib, m1, [0x00]).noise.hostKey == Some(key)
               && var m2 := Next(lib, m1, [0x00]);
                  SendsPlain(lib, m2, [0x00] + message, [0x48] + second)
                  && var m3 := Next(lib, m2, [0x00] + message);
                     (lib.remoteStatic(host').value !in m.noise.keys || last == [0x01] ==> SendsPlain(lib, m3, [0x00] + last, [0x76]))
  {
    hide Base32.PairingCode, OnQuery, OnFingerprint, OnNext, OnCommitment, OnMessageSignature, OnDescriptorFingerprint, OnManagement;
    assert ([0x00] + message)[1..] == message;
    assert ([0x00] + last)[1..] == last;
  }

  predicate SendsPlain(lib: BitBox.Library, m: Machine, data: Bytes, payload: Bytes) {
    ExchangeStep(lib, m, data).1 == Ok(Some(Transmit(ToDevice, payload, false)))
  }
}
