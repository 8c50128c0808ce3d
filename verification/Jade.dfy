/** `JadeInterpreter` of bhwi/src/jade/mod.rs. CBOR, JSON and Base64 are library calls. */
module Jade {
  import opened Common
  import opened Driver

  datatype JadeError =
    | Cbor | Rpc | NoErrorOrResult | Serialization | HandshakeRefused | UnexpectedResult | Panicked

  /** The parameters of requests, as far as replies do not depend on them. */
  datatype Command =
    | Auth
    | GetInfo
    | GetMasterFingerprint
    | GetXpub(path: KeyPath)
    | GetReceiveAddress(params: Bytes)
    | RegisterDescriptor(params: Bytes)
    | RegisterMultisig(params: Bytes, addressParams: Bytes)
    | SignMessage(message: Bytes, path: KeyPath)
    | SignPsbt(psbt: Bytes)

  datatype Request =
    | First(command: Command)
    | Pin(data: Bytes)
    | MultisigAddress(params: Bytes)
    | GetExtendedData(origId: Bytes, orig: string, seqnum: nat, seqlen: nat)

  datatype Response =
    | Info(info: Bytes) | MasterFingerprint(fingerprint: Bytes) | Signature(header: Byte, signature: Bytes)
    | TaskDone | Xpub(xpub: Bytes) | Address(address: Bytes) | RegisteredDescriptor | SignedPsbt(psbt: Bytes)

  datatype PinUrls = UrlArray(urls: seq<Bytes>) | UrlObject(url: Bytes)

  datatype AuthReply = Authenticated(flag: bool) | PinServerRequired(urls: PinUrls, data: Bytes)

  /** `ResponseBytes`; sequence numbers are 32 bits wide. */
  datatype BytesReply = BytesReply(id: Bytes, seqlen: Option<nat>, seqnum: Option<nat>, result: Option<Bytes>, error: bool)

  /** Why a reply has no result: it cannot be decoded, it is an error, or it is neither. */
  datatype ReplyError = NotCbor | RpcError | Neither

  function ErrorOf(e: ReplyError): JadeError {
    match e case NotCbor => Cbor case RpcError => Rpc case Neither => NoErrorOrResult
  }

  /** Decoders of replies, up to `into_result`, and parsers, with parsed values as bytes. */
  datatype Library = Library(
    encode: (nat, Request) -> Bytes,
    auth: Bytes -> Result<AuthReply, ReplyError>,
    flag: Bytes -> Result<bool, ReplyError>,
    text: Bytes -> Result<Bytes, ReplyError>,
    info: Bytes -> Result<Bytes, ReplyError>,
    bytes: Bytes -> Option<BytesReply>,
    pinReply: Bytes -> Option<Bytes>,
    pinData: Bytes -> Bytes,
    isUtf8: Bytes -> bool,
    xpub: Bytes -> Option<Bytes>,
    fingerprint: Bytes -> Bytes,
    base64: Bytes -> Option<Bytes>,
    compact: Bytes -> Option<Bytes>,
    psbt: Bytes -> Option<Bytes>)

  datatype State =
    | New
    | Running(command: Command)
    | WaitingPinServer
    | WaitingFinalHandshake
    | GettingExtendedData(origId: Bytes, orig: string, nextSeqnum: nat, seqlen: nat, chunks: Bytes)

  /** The interpreter; `nextId` is the counter of request ids. */
  datatype Machine = Machine(state: State, response: Option<Response>, nextId: nat)

  type Step = (Machine, Result<Option<Transmit>, JadeError>)

  // ---- start ----

  function Start(lib: Library, m: Machine, command: Command): (Machine, Result<Transmit, JadeError>) {
    if command.SignMessage? && !lib.isUtf8(command.message) then (m, Err(Serialization))
    else
      (Machine(Running(command), m.response, m.nextId + 1),
       Ok(Transmit(ToDevice, lib.encode(m.nextId, First(command)), false)))
  }

  // ---- exchange ----

  function Fail(m: Machine, error: JadeError): Step {
    (m, Err(error))
  }

  function Finish(m: Machine, response: Response): Step {
    (m.(response := Some(response)), Ok(None))
  }

  function Ask(lib: Library, m: Machine, next: State, request: Request): Step {
    (Machine(next, m.response, m.nextId + 1), Ok(Some(Transmit(ToDevice, lib.encode(m.nextId, request), false))))
  }

  function ExchangeStep(lib: Library, m: Machine, data: Bytes): Step {
    match m.state
    case New => (m, Ok(None))
    case Running(command) => OnRunning(lib, m, command, data)
    case WaitingPinServer =>
      (match lib.pinReply(data)
       case None => Fail(m, Serialization)
       case Some(pin) => Ask(lib, m, WaitingFinalHandshake, Pin(pin)))
    case WaitingFinalHandshake =>
      (match lib.flag(data)
       case Err(error) => Fail(m, ErrorOf(error))
       case Ok(completed) => if completed then Finish(m, TaskDone) else Fail(m, HandshakeRefused))
    case GettingExtendedData(_, _, _, _, _) => OnFragment(lib, m, data)
  }

  function OnRunning(lib: Library, m: Machine, command: Command, data: Bytes): Step {
    match command
    case Auth => OnAuth(lib, m, data)
    case GetInfo => (match lib.info(data) case Err(error) => Fail(m, ErrorOf(error)) case Ok(info) => Finish(m, Info(info)))
    case GetMasterFingerprint =>
      (match XpubOf(lib, data)
       case Err(error) => Fail(m, error)
       case Ok(xpub) => Finish(m, MasterFingerprint(lib.fingerprint(xpub))))
    case GetXpub(_) => (match XpubOf(lib, data) case Err(error) => Fail(m, error) case Ok(xpub) => Finish(m, Xpub(xpub)))
    case SignMessage(_, _) => OnMessageSignature(lib, m, data)
    case SignPsbt(_) => OnFirstFragment(lib, m, data)
    case GetReceiveAddress(_) => (match lib.text(data) case Err(error) => Fail(m, ErrorOf(error)) case Ok(text) => Finish(m, Address(text)))
    case RegisterDescriptor(_) =>
      (match lib.flag(data)
       case Err(error) => Fail(m, ErrorOf(error))
       case Ok(registered) => if registered then Finish(m, RegisteredDescriptor) else Fail(m, UnexpectedResult))
    case RegisterMultisig(_, addressParams) =>
      match lib.flag(data)
      case Err(error) => Fail(m, ErrorOf(error))
      case Ok(registered) =>
        if !registered then Fail(m, UnexpectedResult)
        else Ask(lib, m, Running(GetReceiveAddress(addressParams)), MultisigAddress(addressParams))
  }

  function XpubOf(lib: Library, data: Bytes): Result<Bytes, JadeError> {
    match lib.text(data)
    case Err(error) => Err(ErrorOf(error))
    case Ok(text) => match lib.xpub(text) case None => Err(Serialization) case Some(xpub) => Ok(xpub)
  }

  /** Any authentication result counts, also false. */
  function OnAuth(lib: Library, m: Machine, data: Bytes): Step {
    match lib.auth(data)
    case Err(error) => Fail(m, ErrorOf(error))
    case Ok(Authenticated(_)) => Finish(m, TaskDone)
    case Ok(PinServerRequired(urls, payload)) =>
      if urls.UrlArray? && urls.urls == [] then Fail(m, UnexpectedResult)
      else
        var url := if urls.UrlArray? then urls.urls[0] else urls.url;
        (m.(state := WaitingPinServer), Ok(Some(Transmit(ToPinServer(url), lib.pinData(payload), false))))
  }

  /** The decoded signature is sliced unchecked. */
  function OnMessageSignature(lib: Library, m: Machine, data: Bytes): Step {
    match lib.text(data)
    case Err(error) => Fail(m, ErrorOf(error))
    case Ok(text) =>
      match lib.base64(text)
      case None => Fail(m, Serialization)
      case Some(sig) =>
        if sig == [] then Fail(m, Panicked)
        else (match lib.compact(sig[1..]) case None => Fail(m, Serialization) case Some(s) => Finish(m, Signature(sig[0], s)))
  }

  function OnFirstFragment(lib: Library, m: Machine, data: Bytes): Step {
    match lib.bytes(data)
    case None => Fail(m, Cbor)
    case Some(res) =>
      if res.error then Fail(m, Rpc)
      else if res.result.None? then Fail(m, NoErrorOrResult)
      else
        var seqnum, seqlen := UnwrapOr(res.seqnum, 1), UnwrapOr(res.seqlen, 1);
        if seqnum != 1 then Fail(m, UnexpectedResult)
        else if seqlen <= 1 then
          match lib.psbt(res.result.value)
          case None => Fail(m, Serialization)
          case Some(psbt) => Finish(m, SignedPsbt(psbt))
        else
          Ask(lib, m, GettingExtendedData(res.id, "sign_psbt", 2, seqlen, res.result.value),
              GetExtendedData(res.id, "sign_psbt", 2, seqlen))
  }

  function UnwrapOr(o: Option<nat>, default: nat): nat {
    match o case Some(n) => n case None => default
  }

  function OnFragment(lib: Library, m: Machine, data: Bytes): Step
    requires m.state.GettingExtendedData?
  {
    match lib.bytes(data)
    case None => Fail(m, Cbor)
    case Some(res) =>
      var s := m.state;
      if res.error then Fail(m, Rpc)
      else if res.result.None? then Fail(m, NoErrorOrResult)
      else if UnwrapOr(res.seqnum, s.nextSeqnum) != s.nextSeqnum then Fail(m, UnexpectedResult)
      else
        var chunks := s.chunks + res.result.value;
        if s.nextSeqnum >= s.seqlen then
          var m' := m.(state := s.(chunks := chunks));
          match lib.psbt(chunks)
          case None => Fail(m', Serialization)
          case Some(psbt) => Finish(m', SignedPsbt(psbt))
        else
          Ask(lib, m, s.(chunks := chunks, nextSeqnum := s.nextSeqnum + 1),
              GetExtendedData(s.origId, s.orig, s.nextSeqnum + 1, s.seqlen))
  }

  function End(m: Machine): Option<Response> {
    m.response
  }

  // ---- the interpreter, updated in place ----

  class JadeInterpreter {
    var state: State
    var response: Option<Response>
    var nextId: nat

    constructor (nextId: nat)
      ensures Value() == Machine(New, None, nextId)
    {
      state, response, this.nextId := New, None, nextId;
    }

    function Value(): Machine
      reads this
    {
      Machine(state, response, nextId)
    }

    method Request(lib: Library, request: Request) returns (t: Transmit)
      modifies this`nextId
      ensures nextId == old(nextId) + 1 && t == Transmit(ToDevice, lib.encode(old(nextId), request), false)
    {
      t := Transmit(ToDevice, lib.encode(nextId, request), false);
      nextId := nextId + 1;
    }

    method Begin(lib: Library, command: Command) returns (r: Result<Transmit, JadeError>)
      modifies this
      ensures (Value(), r) == Start(lib, old(Value()), command)
    {
      if command.SignMessage? && !lib.isUtf8(command.message) {
        return Err(Serialization);
      }
      state := Running(command);
      var t := Request(lib, First(command));
      r := Ok(t);
    }

    method Exchange(lib: Library, data: Bytes) returns (r: Result<Option<Transmit>, JadeError>)
      modifies this
      ensures (Value(), r) == ExchangeStep(lib, old(Value()), data)
    {
      match state {
        case New =>
          r := Ok(None);
        case GettingExtendedData(_, _, _, _, _) =>
          r := TakeFragment(lib, data);
        case WaitingPinServer =>
          var pin := lib.pinReply(data);
          if pin.None? {
            return Err(Serialization);
          }
          state := WaitingFinalHandshake;
          var t := Request(lib, Pin(pin.value));
          r := Ok(Some(t));
        case WaitingFinalHandshake =>
          var completed := lib.flag(data);
          if completed.Err? {
            return Err(ErrorOf(completed.error));
          }
          if !completed.value {
            return Err(HandshakeRefused);
          }
          response := Some(TaskDone);
          r := Ok(None);
        case Running(command) =>
          if command.SignPsbt? {
            r := TakeFirstFragment(lib, data);
          } else if command.Auth? {
            r := TakeAuth(lib, data);
          } else if command.RegisterDescriptor? || command.RegisterMultisig? {
            r := TakeRegistration(lib, command, data);
          } else {
            r := TakeResult(lib, command, data);
          }
      }
    }

    method TakeAuth(lib: Library, data: Bytes) returns (r: Result<Option<Transmit>, JadeError>)
      modifies this
      ensures (Value(), r) == OnAuth(lib, old(Value()), data)
    {
      var res := lib.auth(data);
      if res.Err? {
        return Err(ErrorOf(res.error));
      }
      match res.value {
        case PinServerRequired(urls, payload) =>
          if urls.UrlArray? && urls.urls == [] {
            return Err(UnexpectedResult);
          }
          var url := if urls.UrlArray? then urls.urls[0] else urls.url;
          state := WaitingPinServer;
          r := Ok(Some(Transmit(ToPinServer(url), lib.pinData(payload), false)));
        case Authenticated(_) =>
          response := Some(TaskDone);
          r := Ok(None);
      }
    }

    method TakeRegistration(lib: Library, command: Command, data: Bytes) returns (r: Result<Option<Transmit>, JadeError>)
      requires command.RegisterDescriptor? || command.RegisterMultisig?
      modifies this
      ensures (Value(), r) == OnRunning(lib, old(Value()), command, data)
    {
      var registered := lib.flag(data);
      if registered.Err? {
        return Err(ErrorOf(registered.error));
      }
      if !registered.value {
        return Err(UnexpectedResult);
      }
      if command.RegisterDescriptor? {
        response := Some(RegisteredDescriptor);
        return Ok(None);
      }
      state := Running(GetReceiveAddress(command.addressParams));
      var t := Request(lib, MultisigAddress(command.addressParams));
      r := Ok(Some(t));
    }

    /** The commands that one reply answers. */
    method TakeResult(lib: Library, command: Command, data: Bytes) returns (r: Result<Option<Transmit>, JadeError>)
      requires command.GetInfo? || command.GetMasterFingerprint? || command.GetXpub? || command.SignMessage? || command.GetReceiveAddress?
      modifies this
      ensures (Value(), r) == OnRunning(lib, old(Value()), command, data)
    {
      if command.GetInfo? {
        var info := lib.info(data);
        if info.Err? {
          return Err(ErrorOf(info.error));
        }
        response := Some(Info(info.value));
        return Ok(None);
      }
      var text := lib.text(data);
      if text.Err? {
        return Err(ErrorOf(text.error));
      }
      if command.GetReceiveAddress? {
        response := Some(Address(text.value));
        return Ok(None);
      }
      if command.SignMessage? {
        var sig := lib.base64(text.value);
        if sig.None? {
          return Err(Serialization);
        }
        if sig.value == [] {
          return Err(Panicked);
        }
        var signature := lib.compact(sig.value[1..]);
        if signature.None? {
          return Err(Serialization);
        }
        response := Some(Signature(sig.value[0], signature.value));
        return Ok(None);
      }
      var xpub := lib.xpub(text.value);
      if xpub.None? {
        return Err(Serialization);
      }
      response := Some(if command.GetXpub? then Xpub(xpub.value) else MasterFingerprint(lib.fingerprint(xpub.value)));
      r := Ok(None);
    }

    method TakeFirstFragment(lib: Library, data: Bytes) returns (r: Result<Option<Transmit>, JadeError>)
      modifies this
      ensures (Value(), r) == OnFirstFragment(lib, old(Value()), data)
    {
      var res := lib.bytes(data);
      if res.None? {
        return Err(Cbor);
      }
      if res.value.error {
        return Err(Rpc);
      }
      if res.value.result.None? {
        return Err(NoErrorOrResult);
      }
      var chunk := res.value.result.value;
      var seqnum, seqlen := UnwrapOr(res.value.seqnum, 1), UnwrapOr(res.value.seqlen, 1);
      if seqnum != 1 {
        return Err(UnexpectedResult);
      }
      if seqlen <= 1 {
        var signed := lib.psbt(chunk);
        if signed.None? {
          return Err(Serialization);
        }
        response := Some(SignedPsbt(signed.value));
        return Ok(None);
      }
      state := GettingExtendedData(res.value.id, "sign_psbt", seqnum + 1, seqlen, chunk);
      var t := Request(lib, GetExtendedData(res.value.id, "sign_psbt", seqnum + 1, seqlen));
      r := Ok(Some(t));
    }

    method TakeFragment(lib: Library, data: Bytes) returns (r: Result<Option<Transmit>, JadeError>)
      requires state.GettingExtendedData?
      modifies this
      ensures (Value(), r) == OnFragment(lib, old(Value()), data)
    {
      var res := lib.bytes(data);
      if res.None? {
        return Err(Cbor);
      }
      if res.value.error {
        return Err(Rpc);
      }
      if res.value.result.None? {
        return Err(NoErrorOrResult);
      }
      var seqnum := UnwrapOr(res.value.seqnum, state.nextSeqnum);
      if seqnum != state.nextSeqnum {
        return Err(UnexpectedResult);
      }
      state := state.(chunks := state.chunks + res.value.result.value);
      if seqnum >= state.seqlen {
        var signed := lib.psbt(state.chunks);
        if signed.None? {
          return Err(Serialization);
        }
        response := Some(SignedPsbt(signed.value));
        return Ok(None);
      }
      state := state.(nextSeqnum := seqnum + 1);
      var t := Request(lib, GetExtendedData(state.origId, state.orig, state.nextSeqnum, state.seqlen));
      r := Ok(Some(t));
    }
  }

  // ---- the contract with the driver ----

  lemma ExchangeEnds(lib: Library, m: Machine, data: Bytes)
    requires !m.state.New?
    ensures var (m', r) := ExchangeStep(lib, m, data);
            && (r.Ok? && r.value.Some? ==> !m'.state.New?)
            && (r.Ok? && r.value.None? ==> m'.response.Some?)
  {
  }

  function AsInterpreter(lib: Library): Interpreter<Machine, Command, Response, JadeError> {
    Interpreter((m, c) => Start(lib, m, c), (m, data) => ExchangeStep(lib, m, data), m => End(m))
  }

  /** No Jade command ends with the missing-result error, whatever is answered. */
  lemma {:induction false} JadeNeverMisses(lib: Library, m: Machine, command: Command, replies: seq<Driver.Reply>, allowFinalDisconnect: bool)
    ensures Driver.Run(AsInterpreter(lib), m, command, replies, allowFinalDisconnect) != MissingResult
  {
    hide ExchangeStep;
    var i, active := AsInterpreter(lib), (m: Machine) => !m.state.New?;
    forall m, data | active(m)
      ensures var (m', r) := i.exchange(m, data);
              (r.Ok? && r.value.Some? ==> active(m')) && (r.Ok? && r.value.None? ==> i.end(m').Some?)
    {
      ExchangeEnds(lib, m, data);
      var (m', r) := ExchangeStep(lib, m, data);
      assert i.end(m') == End(m');
    }
    NeverMisses(i, active, m, command, replies, allowFinalDisconnect);
  }

  // ---- reassembly ----

  type JadeTalk = Talk<Machine, Transmit, JadeError>

  function Exchanging(lib: Library): (Machine, Bytes) -> Step {
    (m, data) => ExchangeStep(lib, m, data)
  }

  function TalkWith(lib: Library, m: Machine, answers: seq<Bytes>): JadeTalk {
    Converse(Exchanging(lib), m, answers)
  }

  lemma TalkUnfolds(lib: Library, m: Machine, answers: seq<Bytes>)
    ensures answers == [] ==> TalkWith(lib, m, answers) == Talk(m, [], None)
    ensures answers != [] ==>
              var step := ExchangeStep(lib, m, answers[0]);
              TalkWith(lib, m, answers) ==
              if step.1.Err? then Talk(step.0, [], Some(Err(step.1.error)))
              else if step.1.value.None? then Talk(step.0, [], Some(Ok(())))
              else
                var rest := TalkWith(lib, step.0, answers[1..]);
                Talk(rest.s, [step.1.value.value] + rest.sent, rest.ended)
  {
    hide ExchangeStep, Converse;
    ConverseUnfolds(Exchanging(lib), m, answers);
  }

  /** A reply that carries a fragment with this number, or with none. */
  predicate IsFragment(lib: Library, answer: Bytes, seqnum: nat) {
    match lib.bytes(answer)
    case None => false
    case Some(res) => !res.error && res.result.Some? && (res.seqnum.None? || res.seqnum == Some(seqnum))
  }

  function FragmentOf(lib: Library, answer: Bytes): Bytes {
    match lib.bytes(answer)
    case None => []
    case Some(res) => match res.result case None => [] case Some(chunk) => chunk
  }

  function Joined(lib: Library, answers: seq<Bytes>): Bytes {
    if answers == [] then [] else FragmentOf(lib, answers[0]) + Joined(lib, answers[1..])
  }

  /** The first answers are the fragments from number `from` on, up to number `last`. */
  predicate AreFragments(lib: Library, answers: seq<Bytes>, from: nat, last: nat) {
    from > last || (answers != [] && IsFragment(lib, answers[0], from) && AreFragments(lib, answers[1..], from + 1, last))
  }

  function FragmentRequest(lib: Library, id: nat, origId: Bytes, seqnum: nat, seqlen: nat): Transmit {
    Transmit(ToDevice, lib.encode(id, GetExtendedData(origId, "sign_psbt", seqnum, seqlen)), false)
  }

  lemma FragmentStep(lib: Library, m: Machine, data: Bytes)
    requires m.state.GettingExtendedData? && m.state.orig == "sign_psbt"
    ensures var (m', r) := ExchangeStep(lib, m, data);
            var s := m.state;
            var chunks := s.chunks + FragmentOf(lib, data);
            if !IsFragment(lib, data, s.nextSeqnum) then r.Err?
            else if s.nextSeqnum < s.seqlen then
              && r == Ok(Some(FragmentRequest(lib, m.nextId, s.origId, s.nextSeqnum + 1, s.seqlen)))
              && m' == Machine(GettingExtendedData(s.origId, s.orig, s.nextSeqnum + 1, s.seqlen, chunks), m.response, m.nextId + 1)
            else if lib.psbt(chunks).Some? then r == Ok(None) && m'.response == Some(SignedPsbt(lib.psbt(chunks).value))
            else r.Err?
  {
  }

  /** From fragment `nextSeqnum` on, the run ends well if and only if the device sends the
      missing fragments in order and together they parse; then the result is made of all
      fragments, in order, and every one of them was asked for exactly once. */
  lemma {:induction false} RestIsJoined(lib: Library, m: Machine, answers: seq<Bytes>)
    requires m.state.GettingExtendedData? && m.state.orig == "sign_psbt" && m.state.nextSeqnum <= m.state.seqlen
    ensures var s, t := m.state, TalkWith(lib, m, answers);
            var missing := s.seqlen - s.nextSeqnum + 1;
            && (t.ended == Some(Ok(())) <==>
                  |answers| >= missing && AreFragments(lib, answers, s.nextSeqnum, s.seqlen)
                  && lib.psbt(s.chunks + Joined(lib, answers[..missing])).Some?)
            && (t.ended == Some(Ok(())) ==>
                  && t.s.response == Some(SignedPsbt(lib.psbt(s.chunks + Joined(lib, answers[..missing])).value))
                  && |t.sent| == missing - 1
                  && forall i :: 0 <= i < |t.sent| ==>
                       t.sent[i] == FragmentRequest(lib, m.nextId + i, s.origId, s.nextSeqnum + 1 + i, s.seqlen))
    decreases |answers|
  {
    hide ExchangeStep, IsFragment, FragmentOf, FragmentRequest, TalkWith, Joined;
    TalkUnfolds(lib, m, answers);
    var s := m.state;
    var missing := s.seqlen - s.nextSeqnum + 1;
    if answers != [] {
      FragmentStep(lib, m, answers[0]);
      var (m', r) := ExchangeStep(lib, m, answers[0]);
      if IsFragment(lib, answers[0], s.nextSeqnum) {
        if s.nextSeqnum < s.seqlen {
          RestIsJoined(lib, m', answers[1..]);
          if |answers| >= missing {
            JoinedShift(lib, s.chunks, answers, missing);
          }
        } else {
          JoinedOne(lib, answers);
        }
      }
    }
  }

  lemma JoinedOne(lib: Library, answers: seq<Bytes>)
    requires answers != []
    ensures Joined(lib, answers[..1]) == FragmentOf(lib, answers[0])
  {
    hide FragmentOf;
    assert Joined(lib, answers[..1][1..]) == [];
  }

  lemma JoinedShift(lib: Library, chunks: Bytes, answers: seq<Bytes>, n: nat)
    requires 0 < n <= |answers|
    ensures chunks + Joined(lib, answers[..n]) == (chunks + FragmentOf(lib, answers[0])) + Joined(lib, answers[1..][..n - 1])
  {
    hide FragmentOf;
    assert answers[..n][1..] == answers[1..][..n - 1];
  }

  /** The number of fragments that the first answer announces, at least one. */
  function Announced(lib: Library, answer: Bytes): nat {
    match lib.bytes(answer)
    case None => 1
    case Some(res) => if res.seqlen.Some? && res.seqlen.value > 1 then res.seqlen.value else 1
  }

  lemma FirstStep(lib: Library, m: Machine, data: Bytes)
    requires m.state.Running? && m.state.command.SignPsbt?
    ensures var (m', r) := ExchangeStep(lib, m, data);
            var n, chunk := Announced(lib, data), FragmentOf(lib, data);
            if !IsFragment(lib, data, 1) then r.Err?
            else if n > 1 then
              var origId := lib.bytes(data).value.id;
              && r == Ok(Some(FragmentRequest(lib, m.nextId, origId, 2, n)))
              && m' == Machine(GettingExtendedData(origId, "sign_psbt", 2, n, chunk), m.response, m.nextId + 1)
            else if lib.psbt(chunk).Some? then r == Ok(None) && m'.response == Some(SignedPsbt(lib.psbt(chunk).value))
            else r.Err?
  {
  }

  /** Signing a PSBT ends well if and only if the device sends as many fragments as its
      first answer announces, numbered from 1 in order or not numbered, and they parse
      together: the signed PSBT is fragments 1 to n, concatenated in order. Fragments 2 to
      n were asked for once each. */
  lemma {:induction false} SignedPsbtIsJoined(lib: Library, m: Machine, answers: seq<Bytes>)
    requires m.state.Running? && m.state.command.SignPsbt?
    ensures var t := TalkWith(lib, m, answers);
            && (t.ended == Some(Ok(())) <==>
                  && answers != []
                  && var n := Announced(lib, answers[0]);
                     |answers| >= n && AreFragments(lib, answers, 1, n) && lib.psbt(Joined(lib, answers[..n])).Some?)
            && (t.ended == Some(Ok(())) ==>
                  var n := Announced(lib, answers[0]);
                  && t.s.response == Some(SignedPsbt(lib.psbt(Joined(lib, answers[..n])).value))
                  && |t.sent| == n - 1
                  && forall i :: 0 <= i < |t.sent| ==>
                       t.sent[i] == FragmentRequest(lib, m.nextId + i, lib.bytes(answers[0]).value.id, i + 2, n))
  {
    hide ExchangeStep, IsFragment, FragmentOf, FragmentRequest, Announced, TalkWith, Joined;
    TalkUnfolds(lib, m, answers);
    if answers != [] {
      FirstStep(lib, m, answers[0]);
      AnnouncesOne(lib, answers[0]);
      var (m', r) := ExchangeStep(lib, m, answers[0]);
      var n := Announced(lib, answers[0]);
      if IsFragment(lib, answers[0], 1) {
        if n > 1 {
          RestIsJoined(lib, m', answers[1..]);
          if |answers| >= n {
            JoinedShift(lib, [], answers, n);
            assert [] + Joined(lib, answers[..n]) == Joined(lib, answers[..n]);
            assert [] + FragmentOf(lib, answers[0]) == FragmentOf(lib, answers[0]);
          }
        } else {
          JoinedOne(lib, answers);
        }
      }
    }
  }

  lemma AnnouncesOne(lib: Library, answer: Bytes)
    ensures Announced(lib, answer) >= 1
  {
  }

  // ---- unlocking ----

  /** The addresses under which a PIN server is offered, of which the first is used. */
  function FirstUrl(urls: PinUrls): Option<Bytes> {
    match urls
    case UrlArray(list) => if list == [] then None else Some(list[0])
    case UrlObject(url) => Some(url)
  }

  /** Unlocking ends well if and only if the device authenticates at once, whatever it says of
      it; or if it asks for its PIN server, that server's answer is passed on, and the device
      then confirms. The payload for the server and its address are what the device sent. */
  lemma {:induction false} UnlockIsConfirmed(lib: Library, m: Machine, answers: seq<Bytes>)
    requires m.state == Running(Auth)
    ensures var t := TalkWith(lib, m, answers);
            && (t.ended == Some(Ok(())) <==>
                  && |answers| > 0 && lib.auth(answers[0]).Ok?
                  && match lib.auth(answers[0]).value
                     case Authenticated(_) => true
                     case PinServerRequired(urls, _) =>
                       FirstUrl(urls).Some? && |answers| >= 3 && lib.pinReply(answers[1]).Some? && lib.flag(answers[2]) == Ok(true))
            && (t.ended == Some(Ok(())) ==>
                  && t.s.response == Some(TaskDone)
                  && match lib.auth(answers[0]).value
                     case Authenticated(_) => t.sent == []
                     case PinServerRequired(urls, payload) =>
                       t.sent == [Transmit(ToPinServer(FirstUrl(urls).value), lib.pinData(payload), false),
                                  Transmit(ToDevice, lib.encode(m.nextId, Pin(lib.pinReply(answers[1]).value)), false)])
  {
    hide TalkWith;
    TalkUnfolds(lib, m, answers);
    if answers != [] {
      var (m1, r1) := ExchangeStep(lib, m, answers[0]);
      var rest := answers[1..];
      TalkUnfolds(lib, m1, rest);
      if rest != [] {
        var (m2, r2) := ExchangeStep(lib, m1, rest[0]);
        TalkUnfolds(lib, m2, rest[1..]);
      }
    }
  }

  /** Only an unlock ever contacts the PIN server. */
  lemma {:induction false} OnlyAuthContactsPinServer(lib: Library, m: Machine, data: Bytes)
    ensures var (m', r) := ExchangeStep(lib, m, data);
            r.Ok? && r.value.Some? && r.value.value.recipient.ToPinServer? ==>
              m.state == Running(Auth) && m'.state == WaitingPinServer
  {
  }

  // ---- panics ----

  /** The reply decodes to a text whose Base64 is empty. */
  predicate EmptySignature(lib: Library, answer: Bytes) {
    lib.text(answer).Ok? && lib.base64(lib.text(answer).value) == Some([])
  }

  /** An answer stops the program exactly if a message is being signed and the signature in it
      is empty. */
  lemma PanicsExactly(lib: Library, m: Machine, data: Bytes)
    ensures var (m', r) := ExchangeStep(lib, m, data);
            && (r == Err(Panicked) <==> m.state.Running? && m.state.command.SignMessage? && EmptySignature(lib, data))
            && (r.Ok? && r.value.Some? ==> m'.state.Running? ==> !m'.state.command.SignMessage?)
  {
  }

  lemma {:induction false} OthersNeverPanic(lib: Library, m: Machine, answers: seq<Bytes>)
    requires m.state.Running? ==> !m.state.command.SignMessage?
    ensures TalkWith(lib, m, answers).ended != Some(Err(Panicked))
    decreases |answers|
  {
    hide TalkWith, ExchangeStep;
    TalkUnfolds(lib, m, answers);
    if answers != [] {
      PanicsExactly(lib, m, answers[0]);
      var (m', r) := ExchangeStep(lib, m, answers[0]);
      if r.Ok? && r.value.Some? {
        OthersNeverPanic(lib, m', answers[1..]);
      }
    }
  }

  /** Whatever the device and the PIN server answer, a started command stops the program if
      and only if it signs a message and the first answer holds an empty signature. */
  lemma {:induction false} CommandPanicsExactly(lib: Library, m: Machine, command: Command, answers: seq<Bytes>)
    requires Start(lib, m, command).1.Ok?
    ensures TalkWith(lib, Start(lib, m, command).0, answers).ended == Some(Err(Panicked)) <==>
            command.SignMessage? && answers != [] && EmptySignature(lib, answers[0])
  {
    hide TalkWith, ExchangeStep, EmptySignature;
    var s := Start(lib, m, command).0;
    if command.SignMessage? {
      TalkUnfolds(lib, s, answers);
      if answers != [] {
        PanicsExactly(lib, s, answers[0]);
        var (m', r) := ExchangeStep(lib, s, answers[0]);
        if r.Ok? && r.value.Some? {
          OthersNeverPanic(lib, m', answers[1..]);
        }
      }
    } else {
      OthersNeverPanic(lib, s, answers);
    }
  }

  /** An empty text is enough, as its Base64 decoding is empty. */
  lemma {:induction false} EmptyTextPanics(lib: Library, m: Machine, message: Bytes, path: KeyPath, data: Bytes)
    requires lib.isUtf8(message) && lib.text(data) == Ok([]) && lib.base64([]) == Some([])
    ensures TalkWith(lib, Start(lib, m, SignMessage(message, path)).0, [data]).ended == Some(Err(Panicked))
  {
    hide TalkWith, ExchangeStep;
    CommandPanicsExactly(lib, m, SignMessage(message, path), [data]);
  }

  // ---- commands of one answer ----

  /** A command starts with its own request, under the next id, unless it is to sign a message
      that is not text. */
  lemma {:induction false} Starting(lib: Library, m: Machine, command: Command)
    ensures var (s, sent) := Start(lib, m, command);
            if command.SignMessage? && !lib.isUtf8(command.message) then sent == Err(Serialization) && s == m
            else
              && sent == Ok(Transmit(ToDevice, lib.encode(m.nextId, First(command)), false))
              && s.state == Running(command) && s.nextId == m.nextId + 1
  {
  }

  /** The commands that end with their first answer. */
  predicate OneAnswer(command: Command) {
    !command.Auth? && !command.SignPsbt? && !command.RegisterMultisig?
  }

  /** What such an answer has to hold for this response. */
  ghost predicate Holds(lib: Library, command: Command, answer: Bytes, response: Response)
    requires OneAnswer(command)
  {
    match command
    case GetInfo => exists info :: lib.info(answer) == Ok(info) && response == Info(info)
    case GetMasterFingerprint =>
      exists text, xpub :: lib.text(answer) == Ok(text) && lib.xpub(text) == Some(xpub) && response == MasterFingerprint(lib.fingerprint(xpub))
    case GetXpub(_) => exists text, xpub :: lib.text(answer) == Ok(text) && lib.xpub(text) == Some(xpub) && response == Xpub(xpub)
    case GetReceiveAddress(_) => exists text :: lib.text(answer) == Ok(text) && response == Address(text)
    case RegisterDescriptor(_) => lib.flag(answer) == Ok(true) && response == RegisteredDescriptor
    case SignMessage(_, _) =>
      exists text, header: Byte, body: Bytes, signature ::
        && lib.text(answer) == Ok(text) && lib.base64(text) == Some([header] + body)
        && lib.compact(body) == Some(signature) && response == Signature(header, signature)
  }

  /** Such a command ends well if and only if its first answer holds a response, and with that
      response; it sends nothing more. */
  lemma {:induction false} OneAnswerEnds(lib: Library, m: Machine, command: Command, answers: seq<Bytes>, response: Response)
    requires m.state == Running(command) && OneAnswer(command)
    ensures var t := TalkWith(lib, m, answers);
            && t.sent == []
            && (t.ended == Some(Ok(())) && t.s.response == Some(response) <==> answers != [] && Holds(lib, command, answers[0], response))
            && (t.ended == Some(Ok(())) ==> t.s.response.Some?)
  {
    hide TalkWith;
    TalkUnfolds(lib, m, answers);
    if answers != [] {
      OneAnswerStep(lib, m, command, answers[0], response);
    }
  }

  lemma OneAnswerStep(lib: Library, m: Machine, command: Command, data: Bytes, response: Response)
    requires m.state == Running(command) && OneAnswer(command)
    ensures var (m', r) := ExchangeStep(lib, m, data);
            && (r.Ok? ==> r.value.None? && m'.response.Some?)
            && (r.Ok? && m'.response == Some(response) <==> Holds(lib, command, data, response))
  {
    if command.SignMessage? {
      SignatureHolds(lib, m, command, data, response);
    }
  }

  lemma SignatureHolds(lib: Library, m: Machine, command: Command, data: Bytes, response: Response)
    requires m.state == Running(command) && command.SignMessage?
    ensures var (m', r) := ExchangeStep(lib, m, data);
            && (r.Ok? ==> r.value.None? && m'.response.Some?)
            && (r.Ok? && m'.response == Some(response) <==> Holds(lib, command, data, response))
  {
    if lib.text(data).Ok? && lib.base64(lib.text(data).value).Some? {
      var sig := lib.base64(lib.text(data).value).value;
      if sig != [] {
        assert sig == [sig[0]] + sig[1..];
      }
      forall header: Byte, body: Bytes | sig == [header] + body ensures sig != [] && header == sig[0] && body == sig[1..] {
      }
    }
  }

  /** Registering a multisig wallet: once it is registered its address is asked for, under the
      next id, and the text that comes is the response. */
  lemma {:induction false} MultisigIsRegistered(lib: Library, m: Machine, params: Bytes, addressParams: Bytes, answers: seq<Bytes>)
    requires m.state == Running(RegisterMultisig(params, addressParams))
    ensures var t := TalkWith(lib, m, answers);
            && (t.ended == Some(Ok(())) <==> |answers| >= 2 && lib.flag(answers[0]) == Ok(true) && lib.text(answers[1]).Ok?)
            && (t.ended == Some(Ok(())) ==>
                  && t.s.response == Some(Address(lib.text(answers[1]).value))
                  && t.sent == [Transmit(ToDevice, lib.encode(m.nextId, MultisigAddress(addressParams)), false)])
  {
    hide TalkWith;
    TalkUnfolds(lib, m, answers);
    if answers != [] {
      var (m1, r1) := ExchangeStep(lib, m, answers[0]);
      TalkUnfolds(lib, m1, answers[1..]);
    }
  }
}
