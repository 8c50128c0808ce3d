/** `ColdcardInterpreter` of bhwi/src/coldcard/mod.rs. */
module Coldcard {
  import opened Common
  import opened Driver
  import opened ColdcardCipher
  import opened ColdcardApi

  /** The one-round queries, by how their reply is parsed. */
  datatype QueryKind = VersionQuery | FingerprintQuery | XpubQuery | AddressQuery

  /** The payloads of queries and message requests, and the bytes of files, as built by the
      request builders and the serializers. */
  datatype Command =
    | StartEncryptionCommand(key: Bytes)
    | BackupCommand
    | Query(kind: QueryKind, payload: Bytes)
    | SignMessage(payload: Bytes)
    | SignPsbt(file: Bytes)
    | RegisterWallet(file: Bytes)

  datatype Action = SignAction | EnrollAction

  datatype FileKind = BackupFile | SignedPsbtFile

  datatype State =
    | New
    | Running(command: Command)
    | UploadingFile(bytes: Bytes, offset: nat, action: Action)
    | VerifyingFileUpload(length: nat, sha: Digest, action: Action)
    | SigningPsbt
    | EnrollingWallet
    | PollingSignedPsbt
    | PollingBackupFile
    | DownloadingFile(kind: FileKind, fileNumber: nat, expected: Bytes32, bytes: Bytes, offset: nat, totalLen: nat)
    | Finished(response: Response)

  /** The state after a reply and the request that goes out, all in plain text. */
  type Step = (State, Result<Option<Bytes>, ColdcardError>)

  function FileUploadRequest(bytes: Bytes, offset: nat): Result<Bytes, ColdcardError>
    requires offset <= |bytes|
  {
    if offset >= U32 || |bytes| >= U32 then Err(Serialization)
    else Ok(Upload(offset, |bytes|, bytes[offset..Min(offset + MAX_UPLOAD_CHUNK_LEN, |bytes|)]))
  }

  function DownloadRequest(offset: nat, totalLen: nat, fileNumber: nat): Result<Bytes, ColdcardError>
    requires offset <= totalLen
  {
    if offset >= U32 then Err(Serialization)
    else Ok(Download(offset, Min(MAX_UPLOAD_CHUNK_LEN, totalLen - offset), fileNumber))
  }

  // ---- start ----

  function StartState(command: Command): State {
    match command
    case SignPsbt(file) => UploadingFile(file, 0, SignAction)
    case RegisterWallet(file) => UploadingFile(file, 0, EnrollAction)
    case _ => Running(command)
  }

  /** The first request of a command that goes through the cipher. */
  function FirstRequest(command: Command): Result<Bytes, ColdcardError> {
    match command
    case StartEncryptionCommand(key) => Ok(StartEncryption(key))
    case BackupCommand => Ok(START_BACKUP)
    case Query(_, payload) => Ok(payload)
    case SignMessage(payload) => Ok(payload)
    case SignPsbt(file) => FileUploadRequest(file, 0)
    case RegisterWallet(file) => FileUploadRequest(file, 0)
  }

  function ToTransmit(payload: Bytes): Transmit {
    Transmit(ToDevice, payload, true)
  }

  /** The interpreter's state with that of the engine that it borrows. */
  type Machine = (State, EngineState)

  function Start(m: Machine, command: Command): (Machine, Result<Transmit, ColdcardError>) {
    match FirstRequest(command)
    case Err(error) => (m, Err(error))
    case Ok(plain) =>
      if command.StartEncryptionCommand? then
        if m.1.Ready? then (m, Err(Encryption))
        else ((StartState(command), m.1), Ok(Transmit(ToDevice, plain, false)))
      else
        match EncryptStep(m.1, plain)
        case (_, Err(_)) => (m, Err(Encryption))
        case (engine, Ok(sealed)) => ((StartState(command), engine), Ok(ToTransmit(sealed)))
  }

  // ---- exchange, between the two ciphers ----

  function PlainStep(h: Hash, lib: Parsers, s: State, data: Bytes): Step {
    match s
    case Running(command) => OnRunning(lib, s, command, data)
    case UploadingFile(bytes, offset, action) => OnUpload(h, s, data)
    case VerifyingFileUpload(length, sha, action) => OnVerify(s, data)
    case SigningPsbt =>
      (match SigningStarted(data)
       case Err(error) => (s, Err(error))
       case Ok(_) => (PollingSignedPsbt, Ok(Some(GET_SIGNED_TRANSACTION))))
    case EnrollingWallet =>
      (match ExpectResponse(data, Okay)
       case Err(error) => (s, Err(error))
       case Ok(_) => (Finished(WalletRegistrationPending), Ok(None)))
    case PollingSignedPsbt => OnPoll(s, data, SignedPsbtFile, 1, GET_SIGNED_TRANSACTION)
    case PollingBackupFile => OnPoll(s, data, BackupFile, 0, GET_BACKUP_FILE)
    case DownloadingFile(kind, fileNumber, expected, bytes, offset, totalLen) => OnDownload(h, lib, s, data)
    case New => (s, Ok(None))
    case Finished(_) => (s, Ok(None))
  }

  function Finish(s: State, response: Result<Response, ColdcardError>): Step {
    match response
    case Err(error) => (s, Err(error))
    case Ok(r) => (Finished(r), Ok(None))
  }

  function OnRunning(lib: Parsers, s: State, command: Command, data: Bytes): Step {
    match command
    case StartEncryptionCommand(_) => Finish(s, MyPubOf(lib, data))
    case BackupCommand =>
      (match SigningStarted(data)
       case Err(error) => (s, Err(error))
       case Ok(_) => (PollingBackupFile, Ok(Some(GET_BACKUP_FILE))))
    case Query(VersionQuery, _) => Finish(s, VersionOf(lib, data))
    case Query(FingerprintQuery, _) =>
      (match XpubOf(lib, data)
       case Err(error) => (s, Err(error))
       case Ok(xpub) => (Finished(MasterFingerprint(lib.fingerprint(xpub))), Ok(None)))
    case Query(XpubQuery, _) =>
      (match XpubOf(lib, data) case Err(error) => (s, Err(error)) case Ok(xpub) => (Finished(Xpub(xpub)), Ok(None)))
    case Query(AddressQuery, _) => Finish(s, AddressOf(lib, data))
    case SignMessage(_) =>
      (match MessageSignature(lib, data)
       case Err(error) => (s, Err(error))
       case Ok(response) =>
         if response.OkResponse? || response.BusyResponse? then (s, Ok(Some(GET_SIGNED_MESSAGE)))
         else (Finished(response), Ok(None)))
    case SignPsbt(_) => (s, Err(Panicked))
    case RegisterWallet(_) => (s, Err(Panicked))
  }

  function OnUpload(h: Hash, s: State, data: Bytes): Step
    requires s.UploadingFile?
  {
    match Acknowledged(data)
    case Err(error) => (s, Err(error))
    case Ok(acknowledged) =>
      if acknowledged != s.offset then (s, Err(Serialization))
      else
        var next := Min(s.offset + MAX_UPLOAD_CHUNK_LEN, |s.bytes|);
        if next < |s.bytes| then
          match FileUploadRequest(s.bytes, next)
          case Err(error) => (s, Err(error))
          case Ok(request) => (UploadingFile(s.bytes, next, s.action), Ok(Some(request)))
        else (VerifyingFileUpload(|s.bytes|, h(s.bytes), s.action), Ok(Some(SHA256)))
  }

  function OnVerify(s: State, data: Bytes): Step
    requires s.VerifyingFileUpload?
  {
    match FileHash(data)
    case Err(error) => (s, Err(error))
    case Ok(actual) =>
      if actual != s.sha.raw || s.length >= U32 then (s, Err(Serialization))
      else
        match s.action
        case SignAction => (SigningPsbt, Ok(Some(SignTransaction(s.length, s.sha.raw))))
        case EnrollAction => (EnrollingWallet, Ok(Some(MultisigEnroll(s.length, s.sha.raw))))
  }

  function OnPoll(s: State, data: Bytes, kind: FileKind, fileNumber: nat, again: Bytes): Step {
    match FileReady(data)
    case Err(error) => (s, Err(error))
    case Ok(Pending) => (s, Ok(Some(again)))
    case Ok(Complete(length, sha)) =>
      var next := DownloadingFile(kind, fileNumber, sha, [], 0, length);
      match DownloadRequest(0, length, fileNumber)
      case Err(error) => (next, Err(error))
      case Ok(request) => (next, Ok(Some(request)))
  }

  /** A download after one more chunk. */
  function Extended(s: State, chunk: Bytes): State
    requires s.DownloadingFile?
  {
    DownloadingFile(s.kind, s.fileNumber, s.expected, s.bytes + chunk, s.offset + |chunk|, s.totalLen)
  }

  function OnDownload(h: Hash, lib: Parsers, s: State, data: Bytes): Step
    requires s.DownloadingFile?
  {
    match Downloaded(data)
    case Err(error) => (s, Err(error))
    case Ok(chunk) =>
      if chunk == [] then (s, Err(Serialization))
      else
        var next := Extended(s, chunk);
        if next.offset < next.totalLen then
          match DownloadRequest(next.offset, next.totalLen, next.fileNumber)
          case Err(error) => (next, Err(error))
          case Ok(request) => (next, Ok(Some(request)))
        else if next.offset != next.totalLen || h(next.bytes).raw != next.expected then (next, Err(Serialization))
        else
          match s.kind
          case BackupFile => (Finished(Backup(next.bytes)), Ok(None))
          case SignedPsbtFile =>
            match lib.psbt(next.bytes)
            case None => (next, Err(Serialization))
            case Some(psbt) => (Finished(SignedPsbt(psbt)), Ok(None))
  }

  /** The states in which replies come encrypted. */
  predicate Encrypts(s: State) {
    !s.New? && !s.Finished?
    && (s.Running? ==> !s.command.StartEncryptionCommand? && !s.command.SignPsbt? && !s.command.RegisterWallet?)
  }

  function ExchangeStep(h: Hash, lib: Parsers, m: Machine, data: Bytes): (Machine, Result<Option<Transmit>, ColdcardError>) {
    var (s, engine) := m;
    if !Encrypts(s) then
      match PlainStep(h, lib, s, data)
      case (s', Err(error)) => ((s', engine), Err(error))
      case (s', Ok(_)) => ((s', engine), Ok(None))
    else
      match DecryptStep(engine, data)
      case (_, Err(_)) => (m, Err(Encryption))
      case (engine', Ok(plain)) =>
        match PlainStep(h, lib, s, plain)
        case (s', Err(error)) => ((s', engine'), Err(error))
        case (s', Ok(None)) => ((s', engine'), Ok(None))
        case (s', Ok(Some(request))) =>
          match EncryptStep(engine', request)
          case (_, Err(_)) => ((s', engine'), Err(Encryption))
          case (engine2, Ok(sealed)) => ((s', engine2), Ok(Some(ToTransmit(sealed))))
  }

  function End(m: Machine): Option<Response> {
    match m.0 case Finished(response) => Some(response) case _ => None
  }

  // ---- the interpreter, updated in place ----

  class ColdcardInterpreter {
    var state: State
    const engine: Engine

    constructor (engine: Engine)
      ensures this.engine == engine && state == State.New
    {
      this.engine := engine;
      state := State.New;
    }

    function Value(): Machine
      reads this, engine
    {
      (state, engine.state)
    }

    method Begin(command: Command) returns (r: Result<Transmit, ColdcardError>)
      modifies this, engine
      ensures (Value(), r) == Start(old(Value()), command)
    {
      hide FirstRequest, EncryptStep;
      var plain := FirstRequest(command);
      if plain.Err? {
        return Err(plain.error);
      }
      if command.StartEncryptionCommand? {
        if engine.state.Ready? {
          return Err(Encryption);
        }
        state := StartState(command);
        return Ok(Transmit(ToDevice, plain.value, false));
      }
      var sealed := engine.Encrypt(plain.value);
      if sealed.Err? {
        EncryptFails(old(engine.state), plain.value);
        return Err(Encryption);
      }
      state := StartState(command);
      r := Ok(ToTransmit(sealed.value));
    }

    method Exchange(h: Hash, lib: Parsers, data: Bytes) returns (r: Result<Option<Transmit>, ColdcardError>)
      modifies this, engine
      ensures (Value(), r) == ExchangeStep(h, lib, old(Value()), data)
    {
      hide PlainStep, EncryptStep, DecryptStep;
      if !Encrypts(state) {
        var plainly := Handle(h, lib, data);
        return if plainly.Err? then Err(plainly.error) else Ok(None);
      }
      var plain := engine.Decrypt(data);
      if plain.Err? {
        DecryptFails(old(engine.state), data);
        return Err(Encryption);
      }
      var request := Handle(h, lib, plain.value);
      if request.Err? {
        return Err(request.error);
      }
      if request.value.None? {
        return Ok(None);
      }
      label Before:
      var sealed := engine.Encrypt(request.value.value);
      if sealed.Err? {
        EncryptFails(old@Before(engine.state), request.value.value);
        return Err(Encryption);
      }
      r := Ok(Some(ToTransmit(sealed.value)));
    }

    /** The transition of the state alone, with offsets and bytes updated in place. */
    method Handle(h: Hash, lib: Parsers, data: Bytes) returns (r: Result<Option<Bytes>, ColdcardError>)
      modifies this`state
      ensures (state, r) == PlainStep(h, lib, old(state), data)
    {
      hide OnRunning, OnUpload, OnVerify, OnPoll, OnDownload, SigningStarted, ExpectResponse;
      match state {
        case Running(command) =>
          r := HandleReply(lib, command, data);
        case UploadingFile(bytes, offset, action) =>
          r := HandleUpload(h, data);
        case VerifyingFileUpload(length, sha, action) =>
          r := HandleVerify(data);
        case SigningPsbt =>
          var started := SigningStarted(data);
          if started.Err? {
            return Err(started.error);
          }
          state := PollingSignedPsbt;
          r := Ok(Some(GET_SIGNED_TRANSACTION));
        case EnrollingWallet =>
          var okay := ExpectResponse(data, Okay);
          r := Conclude(if okay.Err? then Err(okay.error) else Ok(WalletRegistrationPending));
        case PollingSignedPsbt =>
          r := HandlePoll(data, SignedPsbtFile, 1, GET_SIGNED_TRANSACTION);
        case PollingBackupFile =>
          r := HandlePoll(data, BackupFile, 0, GET_BACKUP_FILE);
        case DownloadingFile(kind, fileNumber, expected, bytes, offset, totalLen) =>
          r := HandleDownload(h, lib, data);
        case New =>
          r := Ok(None);
        case Finished(_) =>
          r := Ok(None);
      }
    }

    /** A response finishes the command. */
    method Conclude(response: Result<Response, ColdcardError>) returns (r: Result<Option<Bytes>, ColdcardError>)
      modifies this`state
      ensures (state, r) == Finish(old(state), response)
    {
      if response.Err? {
        return Err(response.error);
      }
      state := Finished(response.value);
      r := Ok(None);
    }

    method HandleReply(lib: Parsers, command: Command, data: Bytes) returns (r: Result<Option<Bytes>, ColdcardError>)
      requires state == Running(command)
      modifies this`state
      ensures (state, r) == OnRunning(lib, old(state), command, data)
    {
      hide MyPubOf, SigningStarted, VersionOf, XpubOf, AddressOf, MessageSignature;
      match command {
        case StartEncryptionCommand(_) =>
          r := Conclude(MyPubOf(lib, data));
        case BackupCommand =>
          var started := SigningStarted(data);
          if started.Err? {
            return Err(started.error);
          }
          state := PollingBackupFile;
          r := Ok(Some(GET_BACKUP_FILE));
        case Query(kind, _) =>
          match kind {
            case VersionQuery =>
              r := Conclude(VersionOf(lib, data));
            case FingerprintQuery =>
              var xpub := XpubOf(lib, data);
              r := Conclude(if xpub.Err? then Err(xpub.error) else Ok(MasterFingerprint(lib.fingerprint(xpub.value))));
            case XpubQuery =>
              var xpub := XpubOf(lib, data);
              r := Conclude(if xpub.Err? then Err(xpub.error) else Ok(Xpub(xpub.value)));
            case AddressQuery =>
              r := Conclude(AddressOf(lib, data));
          }
        case SignMessage(_) =>
          var response := MessageSignature(lib, data);
          if response.Ok? && (response.value.OkResponse? || response.value.BusyResponse?) {
            return Ok(Some(GET_SIGNED_MESSAGE));
          }
          r := Conclude(response);
        case SignPsbt(_) =>
          r := Err(Panicked);
        case RegisterWallet(_) =>
          r := Err(Panicked);
      }
    }

    method HandleVerify(data: Bytes) returns (r: Result<Option<Bytes>, ColdcardError>)
      requires state.VerifyingFileUpload?
      modifies this`state
      ensures (state, r) == OnVerify(old(state), data)
    {
      hide FileHash, SignTransaction, MultisigEnroll;
      var actual := FileHash(data);
      if actual.Err? {
        return Err(actual.error);
      }
      var VerifyingFileUpload(length, sha, action) := state;
      if actual.value != sha.raw || length >= U32 {
        return Err(Serialization);
      }
      match action {
        case SignAction =>
          state := SigningPsbt;
          r := Ok(Some(SignTransaction(length, sha.raw)));
        case EnrollAction =>
          state := EnrollingWallet;
          r := Ok(Some(MultisigEnroll(length, sha.raw)));
      }
    }

    method HandlePoll(data: Bytes, kind: FileKind, fileNumber: nat, again: Bytes) returns (r: Result<Option<Bytes>, ColdcardError>)
      modifies this`state
      ensures (state, r) == OnPoll(old(state), data, kind, fileNumber, again)
    {
      hide FileReady, DownloadRequest;
      var ready := FileReady(data);
      if ready.Err? {
        return Err(ready.error);
      }
      match ready.value {
        case Pending =>
          r := Ok(Some(again));
        case Complete(length, sha) =>
          state := DownloadingFile(kind, fileNumber, sha, [], 0, length);
          var request := DownloadRequest(0, length, fileNumber);
          r := if request.Err? then Err(request.error) else Ok(Some(request.value));
      }
    }

    method HandleUpload(h: Hash, data: Bytes) returns (r: Result<Option<Bytes>, ColdcardError>)
      requires state.UploadingFile?
      modifies this`state
      ensures (state, r) == OnUpload(h, old(state), data)
    {
      hide FileUploadRequest, Acknowledged;
      var acknowledged := Acknowledged(data);
      if acknowledged.Err? {
        return Err(acknowledged.error);
      }
      if acknowledged.value != state.offset {
        return Err(Serialization);
      }
      var next := Min(state.offset + MAX_UPLOAD_CHUNK_LEN, |state.bytes|);
      if next < |state.bytes| {
        var request := FileUploadRequest(state.bytes, next);
        if request.Err? {
          return Err(request.error);
        }
        state := UploadingFile(state.bytes, next, state.action);
        return Ok(Some(request.value));
      }
      state := VerifyingFileUpload(|state.bytes|, h(state.bytes), state.action);
      r := Ok(Some(SHA256));
    }

    method HandleDownload(h: Hash, lib: Parsers, data: Bytes) returns (r: Result<Option<Bytes>, ColdcardError>)
      requires state.DownloadingFile?
      modifies this`state
      ensures (state, r) == OnDownload(h, lib, old(state), data)
    {
      hide DownloadRequest, Downloaded;
      var chunk := Downloaded(data);
      if chunk.Err? {
        return Err(chunk.error);
      }
      if chunk.value == [] {
        return Err(Serialization);
      }
      state := Extended(state, chunk.value);
      if state.offset < state.totalLen {
        var request := DownloadRequest(state.offset, state.totalLen, state.fileNumber);
        if request.Err? {
          return Err(request.error);
        }
        return Ok(Some(request.value));
      }
      if state.offset != state.totalLen {
        return Err(Serialization);
      }
      if h(state.bytes).raw != state.expected {
        return Err(Serialization);
      }
      match state.kind {
        case BackupFile =>
          state := Finished(Backup(state.bytes));
        case SignedPsbtFile =>
          var signed := lib.psbt(state.bytes);
          if signed.None? {
            return Err(Serialization);
          }
          state := Finished(SignedPsbt(signed.value));
      }
      r := Ok(None);
    }
  }

  lemma DecryptFails(s: EngineState, data: Bytes)
    ensures DecryptStep(s, data).1.Err? ==> DecryptStep(s, data).0 == s
  {
  }

  lemma EncryptFails(s: EngineState, data: Bytes)
    ensures EncryptStep(s, data).1.Err? ==> EncryptStep(s, data).0 == s
  {
  }

  // ---- the contract with the driver ----

  predicate Active(s: State) {
    Encrypts(s) || (s.Running? && s.command.StartEncryptionCommand?)
  }

  lemma {:induction false} PlainStepEnds(h: Hash, lib: Parsers, s: State, data: Bytes)
    requires Active(s)
    ensures var (s', r) := PlainStep(h, lib, s, data);
            && (r.Ok? && r.value.Some? ==> Encrypts(s') && Encrypts(s))
            && (r.Ok? && r.value.None? ==> s'.Finished?)
  {
    hide SigningStarted, MessageSignature, MyPubOf, FileReady, Acknowledged, Downloaded, FileHash, ExpectResponse,
         DownloadRequest, FileUploadRequest, XpubOf, AddressOf, VersionOf;
  }

  lemma ExchangeEnds(h: Hash, lib: Parsers, m: Machine, data: Bytes)
    requires Active(m.0)
    ensures var (m', r) := ExchangeStep(h, lib, m, data);
            && (r.Ok? && r.value.Some? ==> Active(m'.0))
            && (r.Ok? && r.value.None? ==> m'.0.Finished?)
  {
    hide PlainStep, DecryptStep, EncryptStep;
    PlainStepEnds(h, lib, m.0, data);
    var plain := DecryptStep(m.1, data).1;
    if plain.Ok? {
      PlainStepEnds(h, lib, m.0, plain.value);
    }
  }

  function AsInterpreter(h: Hash, lib: Parsers): Interpreter<Machine, Command, Response, ColdcardError> {
    Interpreter((m, c) => Start(m, c), (m, data) => ExchangeStep(h, lib, m, data), m => End(m))
  }

  /** No Coldcard command ends with the missing-result error, whatever is answered. */
  lemma {:induction false} ColdcardNeverMisses(h: Hash, lib: Parsers, m: Machine, command: Command, replies: seq<Driver.Reply>,
                                               allowFinalDisconnect: bool)
    ensures Driver.Run(AsInterpreter(h, lib), m, command, replies, allowFinalDisconnect) != MissingResult
  {
    hide ExchangeStep, FirstRequest;
    var i, active := AsInterpreter(h, lib), (m: Machine) => Active(m.0);
    forall m, data | active(m)
      ensures var (m', r) := i.exchange(m, data);
              (r.Ok? && r.value.Some? ==> active(m')) && (r.Ok? && r.value.None? ==> i.end(m').Some?)
    {
      ExchangeEnds(h, lib, m, data);
      var (m', r) := ExchangeStep(h, lib, m, data);
      assert i.end(m') == End(m');
    }
    NeverMisses(i, active, m, command, replies, allowFinalDisconnect);
  }
}
