/** `LedgerInterpreter` of bhwi/src/ledger/mod.rs, with the requests of
    bhwi/src/ledger/command.rs. */
module Ledger {
  import opened Common
  import opened CompactSize
  import opened MerkleProof
  import opened StoreSpec
  import opened Store
  import opened Wallet
  import opened Apdu
  import opened SignSession
  import opened PsbtFields
  import opened LedgerYields
  import opened Driver

  datatype DisplayAddress =
    | ByPath(path: KeyPath, display: bool)
    | ByDescriptor(index: nat, change: bool, display: bool)
    | ByMultisig

  /** The Ledger part of a device context. */
  datatype Context = Context(policy: LedgerWalletPolicy, hmac: Option<Bytes32>)

  /** A PSBT: the pairs of its maps, and the signature fields of its inputs. */
  datatype Psbt = Psbt(txInputs: nat, txOutputs: nat, global: PsbtMap, inputs: seq<PsbtInput<PsbtMap>>, outputs: seq<PsbtMap>)

  datatype Command =
    | OpenApp(bitcoin: bool)
    | GetAppInfo
    | GetMasterFingerprint
    | GetXpub(path: KeyPath, display: bool)
    | GetWalletAddress(address: DisplayAddress, context: Option<Context>)
    | SignMessage(message: Bytes, path: KeyPath)
    | RegisterWallet(policy: LedgerWalletPolicy)
    | SignPsbt(psbt: Psbt, policy: LedgerWalletPolicy, hmac: Option<Bytes32>)

  datatype Response =
    | AppInfo(info: Bytes)
    | MasterFingerprint(fingerprint: Bytes)
    | Signature(header: Byte, signature: Bytes)
    | TaskDone
    | Xpub(xpub: Bytes)
    | Address(address: Bytes)
    | WalletHmac(hmac: Bytes)
    | SignedPsbt(psbt: Psbt)

  datatype LedgerError =
    | MissingCommandInfo
    | BadApdu(apdu: ApduError)
    | BadStore(store: StoreError)
    | BadWallet
    | Interrupted
    | UnexpectedResult
    | UnsupportedDisplayAddress
    | InvalidPsbt
    | Panicked   // an assertion or an index out of range stops the program

  /** Parsers of the libraries, with parsed values as byte strings. */
  datatype Parsers = Parsers(
    signatures: LedgerYields.Library,
    appInfo: Bytes -> Option<Bytes>,
    xpub: Bytes -> Option<Bytes>,
    isUtf8: Bytes -> bool,
    compactSignature: Bytes -> Option<Bytes>,
    singlesig: (KeyPath, Bytes, Bytes) -> Option<LedgerWalletPolicy>)

  /** The state of the interpreter, with a store of some kind. */
  datatype Stage<+S> =
    | New
    | Running(command: Command, store: Option<S>)
    | AwaitFingerprint(address: DisplayAddress, context: Option<Context>)
    | AwaitXpub(address: DisplayAddress, fingerprint: Bytes, display: bool, context: Option<Context>)
    | AwaitAddress(store: Option<S>)
    | Finished(response: Response)

  type State = Stage<StoreState>

  // ---- requests ----

  function PathBytes(path: KeyPath): Bytes {
    if path == [] then [] else ToBe(path[0] % U32, 4) + PathBytes(path[1..])
  }

  lemma {:induction false} PathBytesLength(path: KeyPath)
    ensures |PathBytes(path)| == 4 * |path|
  {
    if path != [] {
      PathBytesLength(path[1..]);
    }
  }

  function XpubData(path: KeyPath, display: bool): Bytes {
    [if display then 1 else 0] + [|path| % 256] + PathBytes(path)
  }

  function AddressData(h: Hash, policy: LedgerWalletPolicy, hmac: Option<Bytes32>, change: bool, index: nat, display: bool): Bytes {
    [if display then 1 else 0] + Id(h, policy).raw + HmacBytes(hmac) + [if change then 1 else 0] + ToBe(index % U32, 4)
  }

  function RegisterData(h: Hash, policy: LedgerWalletPolicy): Bytes {
    EncodeLen(|Serialize(h, policy)|) + Serialize(h, policy)
  }

  function MessageData(h: Hash, message: Bytes, path: KeyPath): Bytes
    requires message != []
  {
    [|path| % 256] + PathBytes(path) + EncodeLen(|message|) + ListRoot(h, Chunks(message)).raw
  }

  /** `message.chunks(64)`. */
  function Chunks(message: Bytes): (r: seq<Bytes>)
    ensures message != [] ==> r != []
  {
    if message == [] then []
    else if |message| <= 64 then [message]
    else [message[..64]] + Chunks(message[64..])
  }

  function Transmission(c: ApduCommand): Transmit {
    Transmit(ToDevice, c.Encode(), false)
  }

  function Bitcoin(ins: Byte, data: Bytes): Transmit {
    Transmission(BitcoinCommand(ins, data))
  }

  /** GET_WALLET_ADDRESS always fits into one APDU; the other commands exactly up to a
      size that the caller can check. */
  lemma {:induction false} RequestsFit(h: Hash, policy: LedgerWalletPolicy, hmac: Option<Bytes32>, change: bool, index: nat, display: bool,
                    path: KeyPath, message: Bytes)
    requires message != []
    ensures |AddressData(h, policy, hmac, change, index, display)| == 70
    ensures |RegisterData(h, policy)| <= 255 <==> |Serialize(h, policy)| <= 252
    ensures |XpubData(path, display)| <= 255 <==> |path| <= 63
    ensures |MessageData(h, message, path)| <= 255 <==> 4 * |path| + |EncodeLen(|message|)| <= 222
  {
    hide Id, ListRoot, Serialize, PathBytes, Chunks, HmacBytes;
    PathBytesLength(path);
    if |Serialize(h, policy)| <= 252 {
      assert |EncodeLen(|Serialize(h, policy)|)| == 1;
    } else if |Serialize(h, policy)| <= 255 {
      assert |EncodeLen(|Serialize(h, policy)|)| == 3;
    }
  }

  /** The chunks are the message in pieces of 64 bytes, as many as the device expects
      from the length that is sent with the root. */
  lemma {:induction false} ChunksAreMessage(message: Bytes)
    ensures Concat(Chunks(message)) == message
    ensures |Chunks(message)| == (|message| + 63) / 64
    ensures forall i :: 0 <= i < |Chunks(message)| - 1 ==> |Chunks(message)[i]| == 64
  {
    if 0 < |message| <= 64 {
      assert Concat([message]) == message + Concat([]);
    } else if message != [] {
      ChunksAreMessage(message[64..]);
      assert message == message[..64] + message[64..];
    }
  }

  // ---- start ----

  function InputMaps(psbt: Psbt): (r: seq<PsbtMap>)
    ensures |r| == |psbt.inputs|
  {
    seq(|psbt.inputs|, i requires 0 <= i < |psbt.inputs| => psbt.inputs[i].rest)
  }

  function Start(h: Hash, s: State, command: Command): (State, Result<Transmit, LedgerError>) {
    match command
    case GetAppInfo => (Running(command, None), Ok(Transmission(ApduCommand(CLA_DEFAULT, 0x01, 0x00, 0x00, []))))
    case GetMasterFingerprint => (Running(command, None), Ok(Bitcoin(INS_GET_MASTER_FINGERPRINT, [])))
    case GetXpub(path, display) => (Running(command, None), Ok(Bitcoin(INS_GET_EXTENDED_PUBKEY, XpubData(path, display))))
    case OpenApp(bitcoin) =>
      (Running(command, None), Ok(Transmission(ApduCommand(0xE0, 0xD8, 0x00, 0x00, AppName(bitcoin)))))
    case SignMessage(message, path) =>
      if message == [] then (s, Err(Panicked))
      else (Running(command, Some(EMPTY.WithList(Chunks(message)))), Ok(Bitcoin(INS_SIGN_MESSAGE, MessageData(h, message, path))))
    case GetWalletAddress(address, context) =>
      (AwaitFingerprint(address, context), Ok(Bitcoin(INS_GET_MASTER_FINGERPRINT, [])))
    case RegisterWallet(policy) =>
      (Running(command, Some(PolicyStore(h, policy))), Ok(Bitcoin(INS_REGISTER_WALLET, RegisterData(h, policy))))
    case SignPsbt(psbt, policy, hmac) =>
      if |psbt.inputs| != psbt.txInputs || |psbt.outputs| != psbt.txOutputs then (s, Err(InvalidPsbt))
      else if psbt.inputs == [] || psbt.outputs == [] then (s, Err(Panicked))
      else
        var req := SignRequest(policy, hmac, psbt.global, InputMaps(psbt), psbt.outputs);
        (Running(command, Some(SessionStore(h, req))), Ok(Bitcoin(INS_SIGN_PSBT, SignPsbtData(h, req))))
  }

  function AppName(bitcoin: bool): Bytes {
    if bitcoin then [0x42, 0x69, 0x74, 0x63, 0x6F, 0x69, 0x6E]
    else [0x42, 0x69, 0x74, 0x63, 0x6F, 0x69, 0x6E, 0x20, 0x54, 0x65, 0x73, 0x74]
  }

  // ---- exchange ----

  type Exchanged = (State, Result<Option<Transmit>, LedgerError>)

  /** An error leaves the interpreter in the state it took on entry. */
  function Fail(error: LedgerError): Exchanged {
    (New, Err(error))
  }

  function Done(response: Response): Exchanged {
    (Finished(response), Ok(None))
  }

  /** An interrupted execution: the store answers and the command continues. */
  function Continue(h: Hash, store: StoreState, request: Bytes, next: StoreState -> State): Exchanged {
    match Step(h, store, request)
    case (_, Err(error)) => Fail(BadStore(error))
    case (store', Ok(answer)) => (next(store'), Ok(Some(Transmission(ContinueInterrupted(answer)))))
  }

  function ExchangeStep(h: Hash, lib: Parsers, s: State, data: Bytes): Exchanged {
    match ParseResponse(data)
    case Err(error) => (s, Err(BadApdu(error)))
    case Ok(res) =>
      match s
      case AwaitFingerprint(address, context) => OnFingerprint(h, res, address, context)
      case AwaitXpub(address, fingerprint, display, context) => OnXpub(h, lib, res, address, fingerprint, display, context)
      case AwaitAddress(store) =>
        if res.status == Deny then Done(TaskDone)
        else if res.status == InterruptedExecution then
          (match store
           case None => Fail(Interrupted)
           case Some(known) => Continue(h, known, res.data, store' => AwaitAddress(Some(store'))))
        else if res.status != OK || !lib.isUtf8(res.data) then Fail(UnexpectedResult)
        else Done(Address(res.data))
      case Running(command, store) =>
        if res.status == InterruptedExecution then
          (match store
           case None => Fail(Interrupted)
           case Some(known) => Continue(h, known, res.data, store' => Running(command, Some(store'))))
        else OnFinal(h, lib, res, command, store)
      case New => (New, Ok(None))
      case Finished(_) => (s, Ok(None))
  }

  function OnFingerprint(h: Hash, res: ApduResponse, address: DisplayAddress, context: Option<Context>): Exchanged {
    if |res.data| < 4 then Fail(UnexpectedResult)
    else
      match address
      case ByPath(path, display) =>
        if |path| < 5 then Fail(UnsupportedDisplayAddress)
        else (AwaitXpub(address, res.data[..4], display, context),
              Ok(Some(Bitcoin(INS_GET_EXTENDED_PUBKEY, XpubData(path[..3], false)))))
      case ByDescriptor(index, change, display) => AskAddress(h, context, change, index, display)
      case ByMultisig => Fail(UnsupportedDisplayAddress)
  }

  function AskAddress(h: Hash, context: Option<Context>, change: bool, index: nat, display: bool): Exchanged {
    match context
    case None => Fail(MissingCommandInfo)
    case Some(Context(policy, hmac)) =>
      (AwaitAddress(Some(PolicyStore(h, policy))),
       Ok(Some(Bitcoin(INS_GET_WALLET_ADDRESS, AddressData(h, policy, hmac, change, index, display)))))
  }

  function OnXpub(h: Hash, lib: Parsers, res: ApduResponse, address: DisplayAddress, fingerprint: Bytes,
                  display: bool, context: Option<Context>): Exchanged {
    match lib.xpub(res.data)
    case None => Fail(UnexpectedResult)
    case Some(xpub) =>
      match address
      case ByPath(path, _) =>
        if |path| < 5 then Fail(Panicked)
        else
          (match lib.singlesig(path, fingerprint, xpub)
           case None => Fail(BadWallet)
           case Some(policy) => AskAddress(h, Some(Context(policy, None)), path[3] == 1, path[4], display))
      case ByDescriptor(index, change, _) => AskAddress(h, context, change, index, display)
      case ByMultisig => Fail(UnsupportedDisplayAddress)
  }

  function OnFinal(h: Hash, lib: Parsers, res: ApduResponse, command: Command, store: Option<StoreState>): Exchanged {
    match command
    case GetAppInfo =>
      if res.status != OK || res.data == [] || res.data[0] != 1 then Fail(UnexpectedResult)
      else (match lib.appInfo(res.data[1..]) case None => Fail(UnexpectedResult) case Some(info) => Done(AppInfo(info)))
    case GetMasterFingerprint =>
      if |res.data| < 4 then Fail(UnexpectedResult) else Done(MasterFingerprint(res.data[..4]))
    case GetXpub(path, display) =>
      if !display && res.status == NotSupported then
        (Running(GetXpub(path, true), None), Ok(Some(Bitcoin(INS_GET_EXTENDED_PUBKEY, XpubData(path, true)))))
      else if res.status != OK then Fail(UnexpectedResult)
      else (match lib.xpub(res.data) case None => Fail(UnexpectedResult) case Some(xpub) => Done(Xpub(xpub)))
    case OpenApp(_) =>
      if res.status == OK || res.status == ClaNotSupported then Done(TaskDone) else Fail(UnexpectedResult)
    case SignMessage(_, _) =>
      if res.status == Deny || res.status == ClaNotSupported || res.status == SignatureFail then Done(TaskDone)
      else if res.status != OK then Fail(UnexpectedResult)
      else if res.data == [] then Fail(Panicked)
      else (match lib.compactSignature(res.data[1..])
            case None => Fail(UnexpectedResult)
            case Some(signature) => Done(Signature(res.data[0], signature)))
    case GetWalletAddress(_, _) =>
      if res.status == Deny then Done(TaskDone)
      else if res.status == OK && lib.isUtf8(res.data) then Done(Address(res.data))
      else Fail(UnexpectedResult)
    case RegisterWallet(_) =>
      if res.status != OK || |res.data| < 64 then Fail(UnexpectedResult) else Done(WalletHmac(res.data[32..64]))
    case SignPsbt(psbt, _, _) =>
      if res.status == Deny || res.status == ClaNotSupported || res.status == SignatureFail then Done(TaskDone)
      else if res.status != OK then Fail(UnexpectedResult)
      else
        match store
        case None => Fail(Interrupted)
        case Some(known) =>
          match Applied(lib.signatures, psbt.inputs, known.yielded)
          case None => Fail(InvalidPsbt)
          case Some(inputs) => Done(SignedPsbt(psbt.(inputs := inputs)))
  }

  function End(s: State): Option<Response> {
    match s case Finished(response) => Some(response) case _ => None
  }

  /** The interpreter, which updates its state and the store of its command in place. */
  class LedgerInterpreter {
    const h: Hash
    const lib: Parsers
    var stage: Stage<DelegatedStore>

    ghost function Stores(): set<object>
      reads this
    {
      match stage
      case Running(_, Some(store)) => {store}
      case AwaitAddress(Some(store)) => {store}
      case _ => {}
    }

    ghost predicate Valid()
      reads this, Stores()
    {
      match stage
      case Running(_, Some(store)) => store.Valid() && store.h == h
      case AwaitAddress(Some(store)) => store.Valid() && store.h == h
      case _ => true
    }

    ghost function Value(): State
      reads this, Stores()
    {
      match stage
      case New => New
      case Running(command, None) => Running(command, None)
      case Running(command, Some(store)) => Running(command, Some(store.State()))
      case AwaitFingerprint(address, context) => AwaitFingerprint(address, context)
      case AwaitXpub(address, fingerprint, display, context) => AwaitXpub(address, fingerprint, display, context)
      case AwaitAddress(None) => AwaitAddress(None)
      case AwaitAddress(Some(store)) => AwaitAddress(Some(store.State()))
      case Finished(response) => Finished(response)
    }

    constructor (h: Hash, lib: Parsers)
      ensures Valid() && this.h == h && this.lib == lib && Value() == New
    {
      this.h, this.lib, stage := h, lib, New;
    }

    method Begin(command: Command) returns (r: Result<Transmit, LedgerError>)
      requires Valid()
      modifies this
      ensures Valid() && fresh(Stores() - old(Stores()))
      ensures (Value(), r) == Start(h, old(Value()), command)
    {
      hide PolicyStore, SessionStore, SignPsbtData, RegisterData, PathBytes, XpubData, Chunks, AppName, Transmission;
      match command {
        case GetAppInfo =>
          stage := Running(command, None);
          r := Ok(Transmission(ApduCommand(CLA_DEFAULT, 0x01, 0x00, 0x00, [])));
        case GetMasterFingerprint =>
          stage := Running(command, None);
          r := Ok(Bitcoin(INS_GET_MASTER_FINGERPRINT, []));
        case GetXpub(path, display) =>
          stage := Running(command, None);
          r := Ok(Bitcoin(INS_GET_EXTENDED_PUBKEY, XpubData(path, display)));
        case OpenApp(bitcoin) =>
          stage := Running(command, None);
          r := Ok(Transmission(ApduCommand(0xE0, 0xD8, 0x00, 0x00, AppName(bitcoin))));
        case SignMessage(message, path) =>
          if message == [] {
            return Err(Panicked);
          }
          var store := new DelegatedStore(h);
          var root := store.AddKnownList(Chunks(message));
          stage := Running(command, Some(store));
          r := Ok(Bitcoin(INS_SIGN_MESSAGE, [|path| % 256] + PathBytes(path) + EncodeLen(|message|) + root.raw));
        case GetWalletAddress(address, context) =>
          stage := AwaitFingerprint(address, context);
          r := Ok(Bitcoin(INS_GET_MASTER_FINGERPRINT, []));
        case RegisterWallet(policy) =>
          var store := ToStore(h, policy);
          stage := Running(command, Some(store));
          r := Ok(Bitcoin(INS_REGISTER_WALLET, RegisterData(h, policy)));
        case SignPsbt(psbt, policy, hmac) =>
          if |psbt.inputs| != psbt.txInputs || |psbt.outputs| != psbt.txOutputs {
            return Err(InvalidPsbt);
          }
          if psbt.inputs == [] || psbt.outputs == [] {
            return Err(Panicked);
          }
          var store, apdu := StartSignPsbt(h, SignRequest(policy, hmac, psbt.global, InputMaps(psbt), psbt.outputs));
          stage := Running(command, Some(store));
          r := Ok(Transmission(apdu));
      }
    }

    /** The state is taken out first, so an error leaves a new interpreter. */
    method Exchange(data: Bytes) returns (r: Result<Option<Transmit>, LedgerError>)
      requires Valid()
      modifies this, Stores()
      ensures Valid() && fresh(Stores() - old(Stores()))
      ensures (Value(), r) == ExchangeStep(h, lib, old(Value()), data)
    {
      hide ParseResponse, OnFingerprint, OnXpub, OnFinal, Applied, Step;
      var parsed := ParseResponse(data);
      if parsed.Err? {
        return Err(BadApdu(parsed.error));
      }
      var res := parsed.value;
      var taken := stage;
      stage := New;
      match taken {
        case AwaitFingerprint(address, context) =>
          r := TakeFingerprint(res, address, context);
        case AwaitXpub(address, fingerprint, display, context) =>
          r := TakeXpub(res, address, fingerprint, display, context);
        case AwaitAddress(store) =>
          if res.status == Deny {
            stage := Finished(TaskDone);
            r := Ok(None);
          } else if res.status == InterruptedExecution {
            r := Serve(store, res.data);
            if r.Ok? {
              stage := AwaitAddress(store);
            }
          } else if res.status != OK || !lib.isUtf8(res.data) {
            r := Err(UnexpectedResult);
          } else {
            stage := Finished(Address(res.data));
            r := Ok(None);
          }
        case Running(command, store) =>
          if res.status == InterruptedExecution {
            r := Serve(store, res.data);
            if r.Ok? {
              stage := Running(command, store);
            }
          } else if command.SignPsbt? {
            r := FinishPsbt(res, command.psbt, store);
          } else {
            r := Finish(res, command);
          }
        case New =>
          r := Ok(None);
        case Finished(_) =>
          stage := taken;
          r := Ok(None);
      }
    }

    /** The store answers the device. */
    method Serve(store: Option<DelegatedStore>, request: Bytes) returns (r: Result<Option<Transmit>, LedgerError>)
      requires store.Some? ==> store.value.Valid() && store.value.h == h
      modifies if store.Some? then {store.value} else {}
      ensures store.Some? ==> store.value.Valid()
      ensures store.None? ==> r == Err(Interrupted)
      ensures store.Some? ==>
                var (after, answer) := Step(h, old(store.value.State()), request);
                && store.value.State() == after
                && r == if answer.Err? then Err(BadStore(answer.error))
                        else Ok(Some(Transmission(ContinueInterrupted(answer.value))))
    {
      hide Step;
      if store.None? {
        return Err(Interrupted);
      }
      var answer := store.value.Execute(request);
      if answer.Err? {
        return Err(BadStore(answer.error));
      }
      r := Ok(Some(Transmission(ContinueInterrupted(answer.value))));
    }

    method TakeFingerprint(res: ApduResponse, address: DisplayAddress, context: Option<Context>)
      returns (r: Result<Option<Transmit>, LedgerError>)
      requires stage == New
      modifies this
      ensures Valid() && fresh(Stores())
      ensures (Value(), r) == OnFingerprint(h, res, address, context)
    {
      hide AskAddress, XpubData, Bitcoin;
      if |res.data| < 4 {
        return Err(UnexpectedResult);
      }
      match address {
        case ByPath(path, display) =>
          if |path| < 5 {
            return Err(UnsupportedDisplayAddress);
          }
          stage := AwaitXpub(address, res.data[..4], display, context);
          r := Ok(Some(Bitcoin(INS_GET_EXTENDED_PUBKEY, XpubData(path[..3], false))));
        case ByDescriptor(index, change, display) =>
          r := Ask(context, change, index, display);
        case ByMultisig =>
          r := Err(UnsupportedDisplayAddress);
      }
    }

    method TakeXpub(res: ApduResponse, address: DisplayAddress, fingerprint: Bytes, display: bool, context: Option<Context>)
      returns (r: Result<Option<Transmit>, LedgerError>)
      requires stage == New
      modifies this
      ensures Valid() && fresh(Stores())
      ensures (Value(), r) == OnXpub(h, lib, res, address, fingerprint, display, context)
    {
      hide AskAddress;
      var xpub := lib.xpub(res.data);
      if xpub.None? {
        return Err(UnexpectedResult);
      }
      match address {
        case ByPath(path, _) =>
          if |path| < 5 {
            return Err(Panicked);
          }
          var policy := lib.singlesig(path, fingerprint, xpub.value);
          if policy.None? {
            return Err(BadWallet);
          }
          r := Ask(Some(Context(policy.value, None)), path[3] == 1, path[4], display);
        case ByDescriptor(index, change, _) =>
          r := Ask(context, change, index, display);
        case ByMultisig =>
          r := Err(UnsupportedDisplayAddress);
      }
    }

    /** Asks for the address, with a store for the policy. */
    method Ask(context: Option<Context>, change: bool, index: nat, display: bool)
      returns (r: Result<Option<Transmit>, LedgerError>)
      requires stage == New
      modifies this
      ensures Valid() && fresh(Stores())
      ensures (Value(), r) == AskAddress(h, context, change, index, display)
    {
      hide PolicyStore, AddressData;
      if context.None? {
        return Err(MissingCommandInfo);
      }
      var Context(policy, hmac) := context.value;
      var store := ToStore(h, policy);
      stage := AwaitAddress(Some(store));
      r := Ok(Some(Bitcoin(INS_GET_WALLET_ADDRESS, AddressData(h, policy, hmac, change, index, display))));
    }

    /** The last answer to a command other than SIGN_PSBT. */
    method Finish(res: ApduResponse, command: Command) returns (r: Result<Option<Transmit>, LedgerError>)
      requires stage == New && !command.SignPsbt?
      modifies this
      ensures Valid() && Stores() == {}
      ensures forall store :: (Value(), r) == OnFinal(h, lib, res, command, store)
    {
      hide XpubData, Bitcoin;
      match command {
        case GetAppInfo =>
          if res.status != OK || res.data == [] || res.data[0] != 1 {
            return Err(UnexpectedResult);
          }
          var info := lib.appInfo(res.data[1..]);
          r := Conclude(if info.Some? then Some(AppInfo(info.value)) else None);
        case GetMasterFingerprint =>
          r := Conclude(if |res.data| < 4 then None else Some(MasterFingerprint(res.data[..4])));
        case GetXpub(path, display) =>
          if !display && res.status == NotSupported {
            stage := Running(GetXpub(path, true), None);
            return Ok(Some(Bitcoin(INS_GET_EXTENDED_PUBKEY, XpubData(path, true))));
          }
          var xpub := if res.status == OK then lib.xpub(res.data) else None;
          r := Conclude(if xpub.Some? then Some(Xpub(xpub.value)) else None);
        case OpenApp(_) =>
          r := Conclude(if res.status == OK || res.status == ClaNotSupported then Some(TaskDone) else None);
        case SignMessage(_, _) =>
          if res.status == OK && res.data == [] {
            return Err(Panicked);
          }
          var signature := if res.status == OK then lib.compactSignature(res.data[1..]) else None;
          r := Conclude(if res.status == Deny || res.status == ClaNotSupported || res.status == SignatureFail then Some(TaskDone)
                        else if signature.Some? then Some(Signature(res.data[0], signature.value)) else None);
        case GetWalletAddress(_, _) =>
          r := Conclude(if res.status == Deny then Some(TaskDone)
                        else if res.status == OK && lib.isUtf8(res.data) then Some(Address(res.data)) else None);
        case RegisterWallet(_) =>
          r := Conclude(if res.status != OK || |res.data| < 64 then None else Some(WalletHmac(res.data[32..64])));
      }
    }

    /** A response ends the command; without one the result was unexpected. */
    method Conclude(response: Option<Response>) returns (r: Result<Option<Transmit>, LedgerError>)
      requires stage == New
      modifies this
      ensures Valid() && Stores() == {}
      ensures (Value(), r) == if response.Some? then Done(response.value) else Fail(UnexpectedResult)
    {
      if response.None? {
        return Err(UnexpectedResult);
      }
      stage := Finished(response.value);
      r := Ok(None);
    }

    /** The last answer to SIGN_PSBT: what was yielded goes into the PSBT. */
    method FinishPsbt(res: ApduResponse, psbt: Psbt, store: Option<DelegatedStore>)
      returns (r: Result<Option<Transmit>, LedgerError>)
      requires stage == New
      modifies this
      ensures Valid() && Stores() == {}
      ensures forall policy, hmac ::
                (Value(), r) == OnFinal(h, lib, res, SignPsbt(psbt, policy, hmac), if store.Some? then Some(old(store.value.State())) else None)
    {
      hide Applied;
      if res.status == Deny || res.status == ClaNotSupported || res.status == SignatureFail {
        stage := Finished(TaskDone);
        return Ok(None);
      }
      if res.status != OK {
        return Err(UnexpectedResult);
      }
      if store.None? {
        return Err(Interrupted);
      }
      var inputs := new PsbtInputs(psbt.inputs);
      var ok := inputs.ApplyAll(lib.signatures, store.value.yielded);
      if !ok {
        return Err(InvalidPsbt);
      }
      stage := Finished(SignedPsbt(psbt.(inputs := inputs.inputs)));
      r := Ok(None);
    }
  }

  predicate Active(s: State) {
    !s.New? && !s.Finished?
  }

  function AsInterpreter(h: Hash, lib: Parsers): Interpreter<State, Command, Response, LedgerError> {
    Interpreter((s, c) => Start(h, s, c), (s, data) => ExchangeStep(h, lib, s, data), s => End(s))
  }

  lemma {:induction false} ExchangeHonours(h: Hash, lib: Parsers, s: State, data: Bytes)
    requires Active(s)
    ensures var (s', r) := ExchangeStep(h, lib, s, data);
            r.Ok? ==> if r.value.Some? then Active(s') else End(s').Some?
  {
    hide ParseResponse, Step, Bitcoin, PolicyStore, AddressData, XpubData, Applied;
  }

  /** No Ledger command ends with the missing-result error, whatever is answered. */
  lemma {:induction false} LedgerNeverMisses(h: Hash, lib: Parsers, command: Command, replies: seq<Driver.Reply>, allowFinalDisconnect: bool)
    ensures Driver.Run(AsInterpreter(h, lib), New, command, replies, allowFinalDisconnect) != MissingResult
  {
    hide ExchangeStep;
    var i, active := AsInterpreter(h, lib), s => Active(s);
    forall s, data | active(s)
      ensures var (s', r) := i.exchange(s, data);
              (r.Ok? && r.value.Some? ==> active(s')) && (r.Ok? && r.value.None? ==> i.end(s').Some?)
    {
      ExchangeHonours(h, lib, s, data);
      var (s', r) := ExchangeStep(h, lib, s, data);
      assert i.end(s') == End(s');
    }
    NeverMisses(i, active, New, command, replies, allowFinalDisconnect);
  }

  // ---- panics ----

  /** What every started command keeps: the path of an address is long enough where it is
      taken apart. */
  predicate WellFormed(s: State) {
    s.AwaitXpub? && s.address.ByPath? ==> |s.address.path| >= 5
  }

  /** Starting stops the program exactly for an empty message and for a PSBT without inputs
      or without outputs. */
  lemma {:induction false} StartPanicsExactly(h: Hash, s: State, command: Command)
    ensures Start(h, s, command).1 == Err(Panicked) <==>
            || (command.SignMessage? && command.message == [])
            || (command.SignPsbt? && |command.psbt.inputs| == command.psbt.txInputs
                && |command.psbt.outputs| == command.psbt.txOutputs
                && (command.psbt.inputs == [] || command.psbt.outputs == []))
    ensures Start(h, s, command).1.Ok? ==> WellFormed(Start(h, s, command).0)
  {
    hide PolicyStore, SessionStore, SignPsbtData, RegisterData, MessageData, XpubData, Chunks, Bitcoin, Transmission;
  }

  /** `OK` without any data. */
  const BARE_OK: Bytes := [0x90, 0x00]

  /** An answer stops the program exactly if it is `OK` without data and a message is being
      signed. */
  lemma {:induction false} PanicsExactly(h: Hash, lib: Parsers, s: State, data: Bytes)
    requires WellFormed(s)
    ensures var (s', r) := ExchangeStep(h, lib, s, data);
            && (r == Err(Panicked) <==> s.Running? && s.command.SignMessage? && data == BARE_OK)
            && WellFormed(s')
  {
    hide ParseResponse, Step, Bitcoin, PolicyStore, AddressData, XpubData, Applied, ApduResponse.Encode;
    BareOk();
    ResponsesRoundTrip(data, ApduResponse([], OK));
  }

  lemma BareOk()
    ensures ApduResponse([], OK).Encode() == BARE_OK
  {
    assert ToBe(0x90, 1) == ToBe(0, 0) + [0x90];
    assert ToBe(0x9000, 2) == ToBe(0x90, 1) + [0];
  }
}
