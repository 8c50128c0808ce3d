/** The signing loop of the BitBox02: `drive_sign` of bhwi/src/bitbox/interpreter.rs.
    Decryption, protobuf and elliptic curves are library calls; a round takes the decoded
    reply, and the host nonce that the random generator would yield in it. */
module SignLoop {
  import opened Common
  import opened PsbtFields
  import opened BitBoxSign

  datatype Kind =
    | Input | Output | Done | PrevtxInit | PrevtxInput | PrevtxOutput | HostNonce | PaymentRequest | Unknown

  /** `BtcSignNextResponse`. */
  datatype Next = Next(kind: Kind, index: nat, prevIndex: nat, hasSignature: bool, signature: Bytes,
                       commitment: Option<Bytes>)

  /** What a round meets: the reply (None if it is no such response), the nonce (None if
      the generator fails), and whether the request can be encrypted. */
  datatype Event = Event(next: Option<Next>, nonce: Option<Bytes>, encrypts: bool)

  datatype Phase =
    | ExpectNext
    | ExpectNextWithSig
    | ExpectHostNonce(nonce: Bytes)
    | ExpectAntikleptoSig(nonce: Bytes, commitment: Bytes)

  datatype Ctx = Ctx(psbt: Psbt, tx: Transaction, keys: seq<OurKey>, sigs: seq<Bytes>, pass2: bool, phase: Phase)

  datatype Request =
    | SignInput(prevHash: Bytes, prevIndex: nat, value: nat, sequence: nat, keypath: KeyPath, configIndex: nat,
                commitment: Option<Bytes>)
    | SendPrevtx(version: nat, numInputs: nat, numOutputs: nat, locktime: nat)
    | SendPrevtxInput(input: TxIn)
    | SendPrevtxOutput(output: TxOut)
    | SignOutput(signed: TxOutput)
    | AntikleptoSignature(nonce: Bytes)

  datatype SignStep = Continue(ctx: Ctx, request: Request) | Signed(psbt: Psbt) | Fail | Panic

  /** `commit` is the host commitment to a nonce; `point` gives the x coordinate that the
      signer's point has after the tweak by a nonce, if its commitment is a point at all. */
  datatype Crypto = Crypto(parsers: Library, commit: Bytes -> Bytes, point: (Bytes, Bytes) -> Option<Bytes>)

  datatype Verdict = Accepted | Rejected | Crashed

  /** `antiklepto::verify_ecdsa`, which slices the signature unchecked. */
  function VerifyEcdsa(lib: Crypto, nonce: Bytes, commitment: Bytes, signature: Bytes): Verdict {
    match lib.point(commitment, nonce)
    case None => Rejected
    case Some(x) => if |signature| < 32 then Crashed else if signature[..32] == x then Accepted else Rejected
  }

  predicate Schnorr(tx: Transaction, input: nat)
    requires input < |tx.inputs|
  {
    tx.inputs[input].configIndex < |tx.scriptConfigs| && IsSchnorr(tx.scriptConfigs[tx.inputs[input].configIndex])
  }

  function InputRequest(input: TxInput, commitment: Option<Bytes>): Request {
    SignInput(input.prevHash, input.prevIndex, input.value, input.sequence, input.keypath, input.configIndex, commitment)
  }

  // ---- one round, as a function ----

  datatype Resolution = Ready(ctx: Ctx) | Early(step: SignStep)

  /** Settle what the previous round left open. */
  function Resolve(lib: Crypto, ctx: Ctx, next: Next, encrypts: bool): Resolution {
    match ctx.phase
    case ExpectNext => Ready(ctx)
    case ExpectNextWithSig =>
      if next.hasSignature then Ready(ctx.(phase := ExpectNext, sigs := ctx.sigs + [next.signature])) else Early(Fail)
    case ExpectHostNonce(nonce) =>
      if next.kind != HostNonce || next.commitment.None? || !encrypts then Early(Fail)
      else Early(Continue(ctx.(phase := ExpectAntikleptoSig(nonce, next.commitment.value)), AntikleptoSignature(nonce)))
    case ExpectAntikleptoSig(nonce, commitment) =>
      if !next.hasSignature then Early(Fail)
      else
        match VerifyEcdsa(lib, nonce, commitment, next.signature)
        case Accepted => Ready(ctx.(phase := ExpectNext, sigs := ctx.sigs + [next.signature]))
        case Rejected => Early(Fail)
        case Crashed => Early(Panic)
  }

  function Send(ctx: Ctx, request: Request, encrypts: bool): SignStep {
    if encrypts then Continue(ctx, request) else Fail
  }

  /** Answer the request of the device, with no phase open. */
  function Dispatch(lib: Crypto, ctx: Ctx, next: Next, nonce: Option<Bytes>, encrypts: bool): SignStep {
    var inputs := ctx.tx.inputs;
    match next.kind
    case Input => DispatchInput(lib, ctx, next.index, nonce, encrypts)
    case PrevtxInit =>
      if next.index >= |inputs| then Panic
      else (match inputs[next.index].prevTx
            case None => Fail
            case Some(prev) => Send(ctx, SendPrevtx(prev.version, |prev.inputs|, |prev.outputs|, prev.locktime), encrypts))
    case PrevtxInput =>
      if next.index >= |inputs| then Panic
      else (match inputs[next.index].prevTx
            case None => Fail
            case Some(prev) => if next.prevIndex >= |prev.inputs| then Panic
                               else Send(ctx, SendPrevtxInput(prev.inputs[next.prevIndex]), encrypts))
    case PrevtxOutput =>
      if next.index >= |inputs| then Panic
      else (match inputs[next.index].prevTx
            case None => Fail
            case Some(prev) => if next.prevIndex >= |prev.outputs| then Panic
                               else Send(ctx, SendPrevtxOutput(prev.outputs[next.prevIndex]), encrypts))
    case Output =>
      if next.index >= |ctx.tx.outputs| then Panic else Send(ctx, SignOutput(ctx.tx.outputs[next.index]), encrypts)
    case Done =>
      (match Applied(lib.parsers, ctx.psbt.inputs, ctx.sigs, ctx.keys)
       case None => Fail
       case Some(inputs') => Signed(ctx.psbt.(inputs := inputs')))
    case HostNonce => Fail
    case PaymentRequest => Fail
    case Unknown => Fail
  }

  function DispatchInput(lib: Crypto, ctx: Ctx, index: nat, nonce: Option<Bytes>, encrypts: bool): SignStep {
    if index >= |ctx.tx.inputs| then Fail
    else
      var input := ctx.tx.inputs[index];
      if input.configIndex >= |ctx.tx.scriptConfigs| then Panic
      else if ctx.pass2 && !Schnorr(ctx.tx, index) then
        if nonce.None? then Fail
        else Send(ctx.(phase := ExpectHostNonce(nonce.value)), InputRequest(input, Some(lib.commit(nonce.value))), encrypts)
      else
        Send(ctx.(phase := if ctx.pass2 then ExpectNextWithSig else ExpectNext,
                  pass2 := ctx.pass2 || index == |ctx.tx.inputs| - 1),
             InputRequest(input, None), encrypts)
  }

  function Drive(lib: Crypto, ctx: Ctx, event: Event): SignStep {
    if event.next.None? then Fail
    else
      match Resolve(lib, ctx, event.next.value, event.encrypts)
      case Early(step) => step
      case Ready(ctx') => Dispatch(lib, ctx', event.next.value, event.nonce, event.encrypts)
  }

  // ---- the same round on a context updated in place ----

  class SignContext {
    var psbt: Psbt
    var tx: Transaction
    var keys: seq<OurKey>
    var sigs: seq<Bytes>
    var pass2: bool
    var phase: Phase

    constructor (psbt: Psbt, tx: Transaction, keys: seq<OurKey>)
      ensures Value() == Ctx(psbt, tx, keys, [], false, ExpectNext)
    {
      this.psbt, this.tx, this.keys, sigs, pass2, phase := psbt, tx, keys, [], false, ExpectNext;
    }

    function Value(): Ctx
      reads this
    {
      Ctx(psbt, tx, keys, sigs, pass2, phase)
    }

    method DriveSign(lib: Crypto, event: Event) returns (step: SignStep)
      modifies this
      ensures step == Drive(lib, old(Value()), event)
      ensures step.Continue? ==> Value() == step.ctx
    {
      hide Dispatch, VerifyEcdsa, Send;
      if event.next.None? {
        return Fail;
      }
      var next := event.next.value;
      var open := phase;
      phase := ExpectNext;
      match open {
        case ExpectNext =>
        case ExpectNextWithSig =>
          if !next.hasSignature {
            return Fail;
          }
          sigs := sigs + [next.signature];
        case ExpectHostNonce(nonce) =>
          if next.kind != HostNonce || next.commitment.None? || !event.encrypts {
            return Fail;
          }
          phase := ExpectAntikleptoSig(nonce, next.commitment.value);
          return Continue(Value(), AntikleptoSignature(nonce));
        case ExpectAntikleptoSig(nonce, commitment) =>
          if !next.hasSignature {
            return Fail;
          }
          var verdict := VerifyEcdsa(lib, nonce, commitment, next.signature);
          if verdict != Accepted {
            return if verdict == Crashed then Panic else Fail;
          }
          sigs := sigs + [next.signature];
      }
      step := Answer(lib, next, event.nonce, event.encrypts);
    }

    method Answer(lib: Crypto, next: Next, nonce: Option<Bytes>, encrypts: bool) returns (step: SignStep)
      requires phase == ExpectNext
      modifies this
      ensures step == Dispatch(lib, old(Value()), next, nonce, encrypts)
      ensures step.Continue? ==> Value() == step.ctx
    {
      match next.kind {
        case Input =>
          step := AnswerInput(lib, next.index, nonce, encrypts);
        case PrevtxInit =>
          if next.index >= |tx.inputs| {
            return Panic;
          }
          var prev := tx.inputs[next.index].prevTx;
          if prev.None? || !encrypts {
            return Fail;
          }
          var p := prev.value;
          return Continue(Value(), SendPrevtx(p.version, |p.inputs|, |p.outputs|, p.locktime));
        case PrevtxInput =>
          if next.index >= |tx.inputs| {
            return Panic;
          }
          var prev := tx.inputs[next.index].prevTx;
          if prev.None? {
            return Fail;
          }
          if next.prevIndex >= |prev.value.inputs| {
            return Panic;
          }
          return Send(Value(), SendPrevtxInput(prev.value.inputs[next.prevIndex]), encrypts);
        case PrevtxOutput =>
          if next.index >= |tx.inputs| {
            return Panic;
          }
          var prev := tx.inputs[next.index].prevTx;
          if prev.None? {
            return Fail;
          }
          if next.prevIndex >= |prev.value.outputs| {
            return Panic;
          }
          return Send(Value(), SendPrevtxOutput(prev.value.outputs[next.prevIndex]), encrypts);
        case Output =>
          if next.index >= |tx.outputs| {
            return Panic;
          }
          return Send(Value(), SignOutput(tx.outputs[next.index]), encrypts);
        case Done =>
          var applied := ApplySignatures(lib.parsers, psbt.inputs, sigs, keys);
          if applied.None? {
            return Fail;
          }
          psbt := psbt.(inputs := applied.value);
          return Signed(psbt);
        case HostNonce => return Fail;
        case PaymentRequest => return Fail;
        case Unknown => return Fail;
      }
    }

    method AnswerInput(lib: Crypto, index: nat, nonce: Option<Bytes>, encrypts: bool) returns (step: SignStep)
      requires phase == ExpectNext
      modifies this
      ensures step == DispatchInput(lib, old(Value()), index, nonce, encrypts)
      ensures step.Continue? ==> Value() == step.ctx
    {
      if index >= |tx.inputs| {
        return Fail;
      }
      var input := tx.inputs[index];
      if input.configIndex >= |tx.scriptConfigs| {
        return Panic;
      }
      var performAntiklepto := pass2 && !IsSchnorr(tx.scriptConfigs[input.configIndex]);
      if performAntiklepto && nonce.None? {
        return Fail;
      }
      var request := InputRequest(input, if performAntiklepto then Some(lib.commit(nonce.value)) else None);
      if !encrypts {
        return Fail;
      }
      if performAntiklepto {
        phase := ExpectHostNonce(nonce.value);
      } else if pass2 {
        phase := ExpectNextWithSig;
      } else {
        phase := ExpectNext;
      }
      if !pass2 && index == |tx.inputs| - 1 {
        pass2 := true;
      }
      step := Continue(Value(), request);
    }
  }

  // ---- runs against any device ----

  /** The context after the given rounds, if all of them continue. */
  function Reached(lib: Crypto, start: Ctx, events: seq<Event>): Option<Ctx> {
    if events == [] then Some(start)
    else
      match Reached(lib, start, events[..|events| - 1])
      case None => None
      case Some(ctx) =>
        match Drive(lib, ctx, events[|events| - 1]) case Continue(ctx', _) => Some(ctx') case _ => None
  }

  /** The requests that the rounds send. */
  function Asked(lib: Crypto, start: Ctx, events: seq<Event>): seq<Request> {
    if events == [] then []
    else
      var before := events[..|events| - 1];
      Asked(lib, start, before)
      + match Reached(lib, start, before)
        case None => []
        case Some(ctx) => match Drive(lib, ctx, events[|events| - 1]) case Continue(_, r) => [r] case _ => []
  }

  /** A pass-2 round: which reply opened it, and for which input. */
  datatype Round = Round(at: nat, input: nat)

  function Rounds(lib: Crypto, start: Ctx, events: seq<Event>): seq<Round> {
    if events == [] then []
    else
      var before := events[..|events| - 1];
      Rounds(lib, start, before)
      + match Reached(lib, start, before)
        case None => []
        case Some(ctx) => Opens(ctx, Drive(lib, ctx, events[|events| - 1]), |before|, events[|events| - 1])
  }

  function Opens(ctx: Ctx, step: SignStep, at: nat, event: Event): seq<Round> {
    if ctx.pass2 && step.Continue? && step.request.SignInput? && event.next.Some? then [Round(at, event.next.value.index)]
    else []
  }

  /** The round asked the device to sign its input, with the commitment to a nonce made in
      that very round if the input needs it. */
  ghost predicate Opened(lib: Crypto, tx: Transaction, events: seq<Event>, asked: seq<Request>, round: Round) {
    && round.at < |events| && round.at < |asked| && round.input < |tx.inputs|
    && var input := tx.inputs[round.input];
    if Schnorr(tx, round.input) then asked[round.at] == InputRequest(input, None)
    else events[round.at].nonce.Some?
         && asked[round.at] == InputRequest(input, Some(lib.commit(events[round.at].nonce.value)))
  }

  /** The device then committed to its own nonce, and only then was the host's revealed. */
  ghost predicate Revealed(tx: Transaction, events: seq<Event>, asked: seq<Request>, round: Round) {
    var i := round.at;
    && i + 1 < |events| && i + 1 < |asked|
    && events[i].nonce.Some? && asked[i + 1] == AntikleptoSignature(events[i].nonce.value)
    && events[i + 1].next.Some? && events[i + 1].next.value.kind == HostNonce
    && events[i + 1].next.value.commitment.Some?
  }

  /** The round yielded this signature, checked if the input needs it. */
  ghost predicate Yielded(lib: Crypto, tx: Transaction, events: seq<Event>, asked: seq<Request>, round: Round, signature: Bytes) {
    && Opened(lib, tx, events, asked, round)
    && if Schnorr(tx, round.input) then Carries(events, round.at + 1, signature)
       else
         && Revealed(tx, events, asked, round) && Carries(events, round.at + 2, signature)
         && VerifyEcdsa(lib, events[round.at].nonce.value, events[round.at + 1].next.value.commitment.value, signature) == Accepted
  }

  ghost predicate Carries(events: seq<Event>, i: nat, signature: Bytes) {
    && i < |events| && events[i].next.Some?
    && events[i].next.value.hasSignature && events[i].next.value.signature == signature
  }

  ghost predicate AllYielded(lib: Crypto, tx: Transaction, events: seq<Event>, asked: seq<Request>, rounds: seq<Round>, sigs: seq<Bytes>) {
    && |sigs| <= |rounds|
    && forall k :: 0 <= k < |sigs| ==> Yielded(lib, tx, events, asked, rounds[k], sigs[k])
  }

  ghost predicate InOrder(rounds: seq<Round>, n: nat) {
    && (forall k :: 0 <= k < |rounds| ==> rounds[k].at < n)
    && forall j, k :: 0 <= j < k < |rounds| ==> rounds[j].at < rounds[k].at
  }

  /** What the phase says about the round that is still open. */
  ghost predicate Pending(lib: Crypto, tx: Transaction, events: seq<Event>, asked: seq<Request>, rounds: seq<Round>, ctx: Ctx) {
    if ctx.phase.ExpectNext? then |rounds| == |ctx.sigs|
    else
      && |rounds| == |ctx.sigs| + 1
      && var open := rounds[|ctx.sigs|];
      && Opened(lib, tx, events, asked, open)
      && match ctx.phase
         case ExpectNextWithSig => Schnorr(tx, open.input) && open.at + 1 == |events|
         case ExpectHostNonce(nonce) =>
           !Schnorr(tx, open.input) && open.at + 1 == |events| && events[open.at].nonce == Some(nonce)
         case ExpectAntikleptoSig(nonce, commitment) =>
           && !Schnorr(tx, open.input) && open.at + 2 == |events| && events[open.at].nonce == Some(nonce)
           && Revealed(tx, events, asked, open) && events[open.at + 1].next.value.commitment == Some(commitment)
         case ExpectNext => false
  }

  /** A nonce leaves the host only in the round after its commitment was sent, in answer to
      the device's commitment, and it is the nonce made for that round. */
  ghost predicate NoEarlyReveal(lib: Crypto, events: seq<Event>, asked: seq<Request>) {
    && |asked| <= |events|
    && forall i :: 0 <= i < |asked| && asked[i].AntikleptoSignature? ==>
         && i > 0 && events[i - 1].nonce == Some(asked[i].nonce)
         && asked[i - 1].SignInput? && asked[i - 1].commitment == Some(lib.commit(asked[i].nonce))
         && events[i].next.Some? && events[i].next.value.kind == HostNonce && events[i].next.value.commitment.Some?
  }

  /** Some round answered a request for the last input. */
  ghost predicate LastInputAsked(tx: Transaction, events: seq<Event>, asked: seq<Request>) {
    exists i :: 0 <= i < |asked| && i < |events| && IsLastInput(tx, events[i], asked[i])
  }

  ghost predicate IsLastInput(tx: Transaction, event: Event, request: Request) {
    request.SignInput? && event.next.Some? && event.next.value.index == |tx.inputs| - 1
  }

  ghost predicate Initial(ctx: Ctx) {
    !ctx.pass2 && ctx.phase == ExpectNext && ctx.sigs == []
  }

  /** The invariant of the loop. */
  ghost predicate Invariant(lib: Crypto, start: Ctx, events: seq<Event>, asked: seq<Request>, rounds: seq<Round>, ctx: Ctx) {
    && (ctx.psbt, ctx.tx, ctx.keys) == (start.psbt, start.tx, start.keys)
    && |asked| == |events|
    && (!ctx.pass2 ==> rounds == [] && ctx.sigs == [] && ctx.phase == ExpectNext)
    && (ctx.pass2 <==> LastInputAsked(start.tx, events, asked))
    && InOrder(rounds, |events|)
    && AllYielded(lib, start.tx, events, asked, rounds, ctx.sigs)
    && Pending(lib, start.tx, events, asked, rounds, ctx)
    && NoEarlyReveal(lib, events, asked)
  }

  // ---- the invariant holds in every reachable state ----

  lemma YieldedStill(lib: Crypto, tx: Transaction, events: seq<Event>, asked: seq<Request>, round: Round, signature: Bytes,
                     event: Event, more: seq<Request>)
    requires Yielded(lib, tx, events, asked, round, signature)
    ensures Yielded(lib, tx, events + [event], asked + more, round, signature)
  {
    hide Schnorr, VerifyEcdsa, InputRequest;
  }

  lemma AllYieldedStill(lib: Crypto, tx: Transaction, events: seq<Event>, asked: seq<Request>, rounds: seq<Round>,
                        sigs: seq<Bytes>, event: Event, more: seq<Request>, added: seq<Round>)
    requires AllYielded(lib, tx, events, asked, rounds, sigs)
    ensures AllYielded(lib, tx, events + [event], asked + more, rounds + added, sigs)
  {
    hide Yielded;
    forall k | 0 <= k < |sigs| ensures Yielded(lib, tx, events + [event], asked + more, (rounds + added)[k], sigs[k]) {
      YieldedStill(lib, tx, events, asked, rounds[k], sigs[k], event, more);
    }
  }

  /** Once the open phase is settled, every round so far has yielded its signature. */
  lemma Settled(lib: Crypto, start: Ctx, events: seq<Event>, asked: seq<Request>, rounds: seq<Round>, ctx: Ctx, event: Event)
    requires Invariant(lib, start, events, asked, rounds, ctx)
    requires event.next.Some? && Resolve(lib, ctx, event.next.value, event.encrypts).Ready?
    ensures var ctx' := Resolve(lib, ctx, event.next.value, event.encrypts).ctx;
            && ctx' == ctx.(phase := ExpectNext, sigs := ctx'.sigs) && |ctx'.sigs| == |rounds|
            && AllYielded(lib, start.tx, events + [event], asked, rounds, ctx'.sigs)
  {
    hide Yielded, Opened, Revealed, Carries, Schnorr, VerifyEcdsa, LastInputAsked, NoEarlyReveal, InOrder;
    AllYieldedStill(lib, start.tx, events, asked, rounds, ctx.sigs, event, [], []);
    assert asked + [] == asked && rounds + [] == rounds;
    if !ctx.phase.ExpectNext? {
      LastYielded(lib, start.tx, events, asked, rounds, ctx, event);
    }
  }

  lemma LastYielded(lib: Crypto, tx: Transaction, events: seq<Event>, asked: seq<Request>, rounds: seq<Round>, ctx: Ctx, event: Event)
    requires Pending(lib, tx, events, asked, rounds, ctx) && !ctx.phase.ExpectNext?
    requires event.next.Some? && Resolve(lib, ctx, event.next.value, event.encrypts).Ready?
    ensures Yielded(lib, tx, events + [event], asked, rounds[|ctx.sigs|], event.next.value.signature)
  {
    hide Schnorr, VerifyEcdsa, InputRequest;
  }

  /** What a continuing round adds to the history. */
  lemma {:induction false} StepKeeps(lib: Crypto, start: Ctx, events: seq<Event>, asked: seq<Request>, rounds: seq<Round>,
                                     ctx: Ctx, event: Event)
    requires Invariant(lib, start, events, asked, rounds, ctx)
    requires Drive(lib, ctx, event).Continue?
    ensures var step := Drive(lib, ctx, event);
            Invariant(lib, start, events + [event], asked + [step.request],
                      rounds + Opens(ctx, step, |events|, event), step.ctx)
  {
    hide AllYielded, Invariant, Pending, InOrder, NoEarlyReveal, LastInputAsked;
    var next := event.next.value;
    var resolved := Resolve(lib, ctx, next, event.encrypts);
    if resolved.Early? {
      RevealKeeps(lib, start, events, asked, rounds, ctx, event);
    } else {
      Settled(lib, start, events, asked, rounds, ctx, event);
      if next.kind == Input {
        InputKeeps(lib, start, events, asked, rounds, ctx, event);
      } else {
        OtherKeeps(lib, start, events, asked, rounds, ctx, event);
      }
    }
  }

  lemma RevealKeeps(lib: Crypto, start: Ctx, events: seq<Event>, asked: seq<Request>, rounds: seq<Round>, ctx: Ctx, event: Event)
    requires Invariant(lib, start, events, asked, rounds, ctx)
    requires Drive(lib, ctx, event).Continue? && Resolve(lib, ctx, event.next.value, event.encrypts).Early?
    ensures var step := Drive(lib, ctx, event);
            Invariant(lib, start, events + [event], asked + [step.request],
                      rounds + Opens(ctx, step, |events|, event), step.ctx)
  {
    hide AllYielded, Yielded, Schnorr, VerifyEcdsa, Dispatch;
    var step := Drive(lib, ctx, event);
    assert step == Resolve(lib, ctx, event.next.value, event.encrypts).step;
    assert rounds + Opens(ctx, step, |events|, event) == rounds;
    AllYieldedStill(lib, start.tx, events, asked, rounds, ctx.sigs, event, [step.request], []);
    assert rounds + [] == rounds;
    PassKeeps(start.tx, events, asked, event, step.request);
  }

  lemma PassKeeps(tx: Transaction, events: seq<Event>, asked: seq<Request>, event: Event, request: Request)
    requires |events| == |asked|
    ensures LastInputAsked(tx, events + [event], asked + [request]) <==>
            LastInputAsked(tx, events, asked) || IsLastInput(tx, event, request)
  {
    hide IsLastInput;
    if LastInputAsked(tx, events, asked) {
      var i :| 0 <= i < |asked| && i < |events| && IsLastInput(tx, events[i], asked[i]);
      assert IsLastInput(tx, (events + [event])[i], (asked + [request])[i]);
    }
    if IsLastInput(tx, event, request) {
      assert IsLastInput(tx, (events + [event])[|events|], (asked + [request])[|events|]);
    }
  }

  lemma RevealsStill(lib: Crypto, events: seq<Event>, asked: seq<Request>, event: Event, request: Request)
    requires NoEarlyReveal(lib, events, asked) && |asked| == |events| && !request.AntikleptoSignature?
    ensures NoEarlyReveal(lib, events + [event], asked + [request])
  {
  }

  /** A round that answers another request than for an input. */
  lemma OtherStep(lib: Crypto, ctx: Ctx, event: Event, at: nat)
    requires event.next.Some?
    requires Drive(lib, ctx, event).Continue? && Resolve(lib, ctx, event.next.value, event.encrypts).Ready?
    requires event.next.value.kind != Input
    ensures var step := Drive(lib, ctx, event);
            && step.ctx == Resolve(lib, ctx, event.next.value, event.encrypts).ctx
            && !step.request.SignInput? && !step.request.AntikleptoSignature? && Opens(ctx, step, at, event) == []
  {
    hide Resolve;
  }

  lemma InOrderStill(rounds: seq<Round>, n: nat)
    requires InOrder(rounds, n)
    ensures InOrder(rounds, n + 1)
  {
  }

  lemma OtherKeeps(lib: Crypto, start: Ctx, events: seq<Event>, asked: seq<Request>, rounds: seq<Round>, ctx: Ctx, event: Event)
    requires Invariant(lib, start, events, asked, rounds, ctx)
    requires Drive(lib, ctx, event).Continue? && Resolve(lib, ctx, event.next.value, event.encrypts).Ready?
    requires event.next.Some? && event.next.value.kind != Input
    requires var ctx' := Resolve(lib, ctx, event.next.value, event.encrypts).ctx;
             && ctx' == ctx.(phase := ExpectNext, sigs := ctx'.sigs) && |ctx'.sigs| == |rounds|
             && AllYielded(lib, start.tx, events + [event], asked, rounds, ctx'.sigs)
    ensures var step := Drive(lib, ctx, event);
            Invariant(lib, start, events + [event], asked + [step.request],
                      rounds + Opens(ctx, step, |events|, event), step.ctx)
  {
    hide Yielded, Opened, Revealed, Schnorr, VerifyEcdsa, Resolve, NoEarlyReveal, LastInputAsked, Drive, Dispatch, Opens,
         AllYielded, InOrder;
    var ctx' := Resolve(lib, ctx, event.next.value, event.encrypts).ctx;
    var step := Drive(lib, ctx, event);
    OtherStep(lib, ctx, event, |events|);
    assert rounds + Opens(ctx, step, |events|, event) == rounds;
    InOrderStill(rounds, |events|);
    YieldedWithMore(lib, start.tx, events + [event], asked, rounds, ctx'.sigs, [step.request], []);
    assert rounds + [] == rounds;
    PassKeeps(start.tx, events, asked, event, step.request);
    RevealsStill(lib, events, asked, event, step.request);
  }

  lemma YieldedWithMore(lib: Crypto, tx: Transaction, events: seq<Event>, asked: seq<Request>, rounds: seq<Round>, sigs: seq<Bytes>,
                        more: seq<Request>, added: seq<Round>)
    requires AllYielded(lib, tx, events, asked, rounds, sigs)
    ensures AllYielded(lib, tx, events, asked + more, rounds + added, sigs)
  {
    hide Schnorr, VerifyEcdsa, InputRequest;
  }

  lemma InputKeeps(lib: Crypto, start: Ctx, events: seq<Event>, asked: seq<Request>, rounds: seq<Round>, ctx: Ctx, event: Event)
    requires Invariant(lib, start, events, asked, rounds, ctx)
    requires Drive(lib, ctx, event).Continue? && Resolve(lib, ctx, event.next.value, event.encrypts).Ready?
    requires event.next.value.kind == Input
    requires var ctx' := Resolve(lib, ctx, event.next.value, event.encrypts).ctx;
             && ctx' == ctx.(phase := ExpectNext, sigs := ctx'.sigs) && |ctx'.sigs| == |rounds|
             && AllYielded(lib, start.tx, events + [event], asked, rounds, ctx'.sigs)
    ensures var step := Drive(lib, ctx, event);
            Invariant(lib, start, events + [event], asked + [step.request],
                      rounds + Opens(ctx, step, |events|, event), step.ctx)
  {
    hide Yielded, Revealed, Schnorr, VerifyEcdsa, Resolve, NoEarlyReveal, LastInputAsked, InputRequest;
    var ctx' := Resolve(lib, ctx, event.next.value, event.encrypts).ctx;
    var index := event.next.value.index;
    var step := Drive(lib, ctx, event);
    assert step == DispatchInput(lib, ctx', index, event.nonce, event.encrypts);
    var added := Opens(ctx, step, |events|, event);
    assert step.request.SignInput? && !step.request.AntikleptoSignature? by {
      SendsInput(ctx'.tx.inputs[index]);
    }
    YieldedWithMore(lib, start.tx, events + [event], asked, rounds, ctx'.sigs, [step.request], added);
    PassKeeps(start.tx, events, asked, event, step.request);
    RevealsStill(lib, events, asked, event, step.request);
  }

  lemma SendsInput(input: TxInput)
    ensures forall c :: InputRequest(input, c).SignInput?
  {
  }

  /** Against any device, in every state that a run reaches: the pass flag is set exactly
      when the last input was asked for; there are no signatures before; each completed
      pass-2 round yielded one signature, in order, and a signature of an input that is
      not Schnorr passed the check with the nonce made for its round; and no nonce leaves
      before its commitment was sent and the device had committed. */
  lemma {:induction false} AnyDevice(lib: Crypto, start: Ctx, events: seq<Event>)
    requires Initial(start) && Reached(lib, start, events).Some?
    ensures Invariant(lib, start, events, Asked(lib, start, events), Rounds(lib, start, events),
                      Reached(lib, start, events).value)
  {
    hide Drive, AllYielded, Pending, NoEarlyReveal;
    if events == [] {
      assert Invariant(lib, start, [], [], [], start) by {
        NothingYet(lib, start);
      }
    } else {
      var before, last := events[..|events| - 1], events[|events| - 1];
      AnyDevice(lib, start, before);
      assert before + [last] == events;
      StepKeeps(lib, start, before, Asked(lib, start, before), Rounds(lib, start, before),
                Reached(lib, start, before).value, last);
    }
  }

  lemma NothingYet(lib: Crypto, start: Ctx)
    requires Initial(start)
    ensures Invariant(lib, start, [], [], [], start)
  {
  }

  lemma StepNeverGoesBack(lib: Crypto, ctx: Ctx, event: Event)
    requires Drive(lib, ctx, event).Continue?
    ensures var ctx' := Drive(lib, ctx, event).ctx;
            (ctx.pass2 ==> ctx'.pass2) && ctx.sigs <= ctx'.sigs
  {
    hide VerifyEcdsa, Schnorr, Applied;
  }

  /** The pass flag never goes back, and signatures are only ever appended. */
  lemma {:induction false} NeverGoesBack(lib: Crypto, start: Ctx, events: seq<Event>, more: seq<Event>)
    requires Reached(lib, start, events + more).Some?
    ensures Reached(lib, start, events).Some?
    ensures var before, after := Reached(lib, start, events).value, Reached(lib, start, events + more).value;
            (before.pass2 ==> after.pass2) && before.sigs <= after.sigs
  {
    hide Drive;
    if more == [] {
      assert events + more == events;
    } else {
      var before := events + more[..|more| - 1];
      assert (events + more)[..|events + more| - 1] == events + more[..|more| - 1];
      NeverGoesBack(lib, start, events, more[..|more| - 1]);
      StepNeverGoesBack(lib, Reached(lib, start, before).value, more[|more| - 1]);
    }
  }

  /** The signatures that are there when the last reply is acted upon. */
  function FinalSigs(lib: Crypto, start: Ctx, events: seq<Event>, last: Event): seq<Bytes> {
    var ctx := Reached(lib, start, events);
    if ctx.None? || last.next.None? then []
    else
      var resolved := Resolve(lib, ctx.value, last.next.value, last.encrypts);
      if resolved.Ready? then resolved.ctx.sigs else []
  }

  /** If the device says that it is done, the signatures of its rounds, in their order, are
      written into the inputs 0, 1, 2, ... under the keys of these, and nothing else
      changes. */
  lemma {:induction false} WhenDone(lib: Crypto, start: Ctx, events: seq<Event>, last: Event)
    requires Initial(start) && Reached(lib, start, events).Some?
    requires Drive(lib, Reached(lib, start, events).value, last).Signed?
    ensures var psbt := Drive(lib, Reached(lib, start, events).value, last).psbt;
            var asked, rounds := Asked(lib, start, events), Rounds(lib, start, events);
            var sigs := FinalSigs(lib, start, events, last);
            && psbt == start.psbt.(inputs := psbt.inputs)
            && |sigs| == |rounds| && AllYielded(lib, start.tx, events + [last], asked, rounds, sigs)
            && SignaturesApplied(lib.parsers, start.psbt.inputs, sigs, start.keys, psbt.inputs)
  {
    hide AllYielded, SignaturesApplied, VerifyEcdsa, Applied, Pending, NoEarlyReveal, LastInputAsked, InOrder, Resolve;
    AnyDevice(lib, start, events);
    var ctx := Reached(lib, start, events).value;
    ResolvesFirst(lib, ctx, last);
    Settled(lib, start, events, Asked(lib, start, events), Rounds(lib, start, events), ctx, last);
    var ctx' := Resolve(lib, ctx, last.next.value, last.encrypts).ctx;
    AppliedIs(lib.parsers, start.psbt.inputs, ctx'.sigs, start.keys);
  }

  // ---- which signature an input gets ----

  /** Input `k` holds, under its key, a signature that was yielded by a round which asked the
      device to sign input `k`. */
  ghost predicate HoldsOwn(lib: Crypto, start: Ctx, events: seq<Event>, last: Event, signed: Psbt, k: nat)
    requires k < |signed.inputs| && k < |start.keys|
  {
    var rounds, sigs := Rounds(lib, start, events), FinalSigs(lib, start, events, last);
    var held := signed.inputs[k].Get(SlotOf(start.keys[k]));
    exists j :: 0 <= j < |rounds| && j < |sigs| && IsOwn(lib, start, events + [last], Asked(lib, start, events), rounds[j], sigs[j], held, k)
  }

  ghost predicate IsOwn(lib: Crypto, start: Ctx, events: seq<Event>, asked: seq<Request>, round: Round, signature: Bytes,
                        held: Option<Bytes>, k: nat)
    requires k < |start.keys|
  {
    && round.input == k && Yielded(lib, start.tx, events, asked, round, signature)
    && held.Some? && held == ParseFor(lib.parsers, start.keys[k], signature)
  }

  /** The rounds that count asked for the inputs in their order, and for all of them. */
  predicate AsksInOrder(rounds: seq<Round>, n: nat) {
    |rounds| >= n && forall k :: 0 <= k < n ==> rounds[k].input == k
  }

  /** The signatures of rounds for different inputs are different. */
  ghost predicate Distinguishable(parsers: Library, keys: seq<OurKey>, rounds: seq<Round>, sigs: seq<Bytes>)
  {
    forall k, i, j :: 0 <= k < |keys| && 0 <= i < |rounds| && i < |sigs| && 0 <= j < |rounds| && j < |sigs|
                      && rounds[i].input != rounds[j].input && ParseFor(parsers, keys[k], sigs[i]).Some? ==>
      ParseFor(parsers, keys[k], sigs[i]) != ParseFor(parsers, keys[k], sigs[j])
  }

  /** Nothing was signed before. */
  predicate Unsigned(start: Ctx) {
    |start.keys| <= |start.psbt.inputs|
    && forall k :: 0 <= k < |start.keys| ==> start.psbt.inputs[k].Get(SlotOf(start.keys[k])).None?
  }

  lemma HeldSignature(lib: Crypto, start: Ctx, events: seq<Event>, last: Event, k: nat)
    requires Initial(start) && Reached(lib, start, events).Some? && k < |start.keys| <= |start.psbt.inputs|
    requires Drive(lib, Reached(lib, start, events).value, last).Signed?
    ensures var signed := Drive(lib, Reached(lib, start, events).value, last).psbt;
            var sigs := FinalSigs(lib, start, events, last);
            && |signed.inputs| == |start.psbt.inputs| && |sigs| == |Rounds(lib, start, events)|
            && (k < |sigs| ==>
                  && ParseFor(lib.parsers, start.keys[k], sigs[k]).Some?
                  && signed.inputs[k].Get(SlotOf(start.keys[k])) == ParseFor(lib.parsers, start.keys[k], sigs[k]))
            && (k >= |sigs| ==> signed.inputs[k] == start.psbt.inputs[k])
  {
    hide Drive, Reached, FinalSigs, AllYielded, Rounds, ParseFor, PsbtInput.Insert, PsbtInput.Get;
    WhenDone(lib, start, events, last);
    var sigs := FinalSigs(lib, start, events, last);
    if k < |sigs| {
      var parsed := ParseFor(lib.parsers, start.keys[k], sigs[k]).value;
      InsertGet(start.psbt.inputs[k], SlotOf(start.keys[k]), parsed, SlotOf(start.keys[k]));
    }
  }

  /** If the device asked for the inputs in order, every input holds its own signature. */
  lemma {:induction false} InOrderGivesOwn(lib: Crypto, start: Ctx, events: seq<Event>, last: Event, k: nat)
    requires Initial(start) && Reached(lib, start, events).Some? && k < |start.keys| <= |start.psbt.inputs|
    requires Drive(lib, Reached(lib, start, events).value, last).Signed?
    requires k < |Rounds(lib, start, events)| && Rounds(lib, start, events)[k].input == k
    ensures var signed := Drive(lib, Reached(lib, start, events).value, last).psbt;
            |signed.inputs| == |start.psbt.inputs| && HoldsOwn(lib, start, events, last, signed, k)
  {
    hide Drive, Reached, FinalSigs, Rounds, Asked, ParseFor, PsbtInput.Get, Yielded, SignaturesApplied;
    WhenDone(lib, start, events, last);
    HeldSignature(lib, start, events, last, k);
    var sigs := FinalSigs(lib, start, events, last);
    var signed := Drive(lib, Reached(lib, start, events).value, last).psbt;
    assert IsOwn(lib, start, events + [last], Asked(lib, start, events), Rounds(lib, start, events)[k], sigs[k],
                 signed.inputs[k].Get(SlotOf(start.keys[k])), k);
  }

  /** Only then: an unsigned input gets its own signature from no other round. */
  lemma OwnComesInOrder(lib: Crypto, start: Ctx, events: seq<Event>, last: Event, k: nat)
    requires Initial(start) && Reached(lib, start, events).Some? && k < |start.keys| <= |start.psbt.inputs|
    requires Drive(lib, Reached(lib, start, events).value, last).Signed?
    requires start.psbt.inputs[k].Get(SlotOf(start.keys[k])).None?
    requires Distinguishable(lib.parsers, start.keys, Rounds(lib, start, events), FinalSigs(lib, start, events, last))
    requires var signed := Drive(lib, Reached(lib, start, events).value, last).psbt;
             |signed.inputs| == |start.psbt.inputs| && HoldsOwn(lib, start, events, last, signed, k)
    ensures k < |Rounds(lib, start, events)| && Rounds(lib, start, events)[k].input == k
  {
    hide Drive, Reached, FinalSigs, Rounds, Asked, ParseFor, PsbtInput.Get, Yielded;
    HeldSignature(lib, start, events, last, k);
    var rounds, sigs := Rounds(lib, start, events), FinalSigs(lib, start, events, last);
    var signed := Drive(lib, Reached(lib, start, events).value, last).psbt;
    var j :| 0 <= j < |rounds| && j < |sigs|
             && IsOwn(lib, start, events + [last], Asked(lib, start, events), rounds[j], sigs[j],
                      signed.inputs[k].Get(SlotOf(start.keys[k])), k);
  }

  /** In the PSBT that is returned for an unsigned one, every input holds the signature of a
      round that asked for this very input, if and only if there are at least as many rounds
      as inputs and the first ones asked for inputs 0, 1, 2, ... */
  lemma {:induction false} BelongsIffInOrder(lib: Crypto, start: Ctx, events: seq<Event>, last: Event)
    requires Initial(start) && Reached(lib, start, events).Some? && Unsigned(start)
    requires Drive(lib, Reached(lib, start, events).value, last).Signed?
    requires Distinguishable(lib.parsers, start.keys, Rounds(lib, start, events), FinalSigs(lib, start, events, last))
    ensures var signed := Drive(lib, Reached(lib, start, events).value, last).psbt;
            && |signed.inputs| == |start.psbt.inputs|
            && ((forall k :: 0 <= k < |start.keys| ==> HoldsOwn(lib, start, events, last, signed, k))
                <==> AsksInOrder(Rounds(lib, start, events), |start.keys|))
  {
    hide Drive, Reached, FinalSigs, Rounds, HoldsOwn, PsbtInput.Get, Distinguishable, AllYielded, SignaturesApplied;
    WhenDone(lib, start, events, last);
    SameInputs(lib, start, events, last);
    var rounds := Rounds(lib, start, events);
    var signed := Drive(lib, Reached(lib, start, events).value, last).psbt;
    if AsksInOrder(rounds, |start.keys|) {
      forall k | 0 <= k < |start.keys| ensures HoldsOwn(lib, start, events, last, signed, k) {
        InOrderGivesOwn(lib, start, events, last, k);
      }
    }
    if forall k :: 0 <= k < |start.keys| ==> HoldsOwn(lib, start, events, last, signed, k) {
      forall k | 0 <= k < |start.keys| ensures k < |rounds| && rounds[k].input == k {
        OwnComesInOrder(lib, start, events, last, k);
      }
      if start.keys != [] {
        OwnComesInOrder(lib, start, events, last, |start.keys| - 1);
      }
    }
  }

  lemma SameInputs(lib: Crypto, start: Ctx, events: seq<Event>, last: Event)
    requires Initial(start) && Reached(lib, start, events).Some?
    requires Drive(lib, Reached(lib, start, events).value, last).Signed?
    ensures |Drive(lib, Reached(lib, start, events).value, last).psbt.inputs| == |start.psbt.inputs|
  {
    hide Drive, Reached, FinalSigs, Rounds, AllYielded;
    WhenDone(lib, start, events, last);
  }

  lemma ResolvesFirst(lib: Crypto, ctx: Ctx, event: Event)
    requires Drive(lib, ctx, event).Signed?
    ensures event.next.Some? && Resolve(lib, ctx, event.next.value, event.encrypts).Ready?
  {
  }

  // ---- runs against an honest device ----

  /** A request of pass 1 that the host can answer. */
  predicate Answerable(tx: Transaction, event: Event) {
    && event.next.Some? && event.encrypts
    && var next := event.next.value;
    match next.kind
    case Input => next.index < |tx.inputs|
    case Output => next.index < |tx.outputs|
    case PrevtxInit => next.index < |tx.inputs| && tx.inputs[next.index].prevTx.Some?
    case PrevtxInput =>
      next.index < |tx.inputs| && tx.inputs[next.index].prevTx.Some? && next.prevIndex < |tx.inputs[next.index].prevTx.value.inputs|
    case PrevtxOutput =>
      next.index < |tx.inputs| && tx.inputs[next.index].prevTx.Some? && next.prevIndex < |tx.inputs[next.index].prevTx.value.outputs|
    case _ => false
  }

  predicate AsksInput(event: Event) {
    event.next.Some? && event.next.value.kind == Input
  }

  /** Pass 1 of an honest device: answerable requests, of which the only one for the last
      input comes after those for the other inputs. */
  ghost predicate HonestPass1(tx: Transaction, events: seq<Event>) {
    && (forall i :: 0 <= i < |events| ==> Answerable(tx, events[i]))
    && (forall i, j :: 0 <= i < j < |events| && AsksInput(events[i]) && AsksInput(events[j]) ==>
          events[i].next.value.index < events[j].next.value.index)
  }

  predicate EndsPass1(tx: Transaction, event: Event) {
    AsksInput(event) && event.next.value.index == |tx.inputs| - 1
  }

  /** Every config index of a lowered transaction can be looked up. */
  predicate ConfigsInRange(tx: Transaction) {
    forall i :: 0 <= i < |tx.inputs| ==> tx.inputs[i].configIndex < |tx.scriptConfigs|
  }

  lemma InputInRange(tx: Transaction, event: Event)
    requires Answerable(tx, event) && AsksInput(event)
    ensures event.next.value.index < |tx.inputs|
  {
  }

  lemma {:induction false} AfterPass1(lib: Crypto, start: Ctx, events: seq<Event>)
    requires Initial(start) && ConfigsInRange(start.tx) && HonestPass1(start.tx, events)
    ensures Reached(lib, start, events)
         == Some(start.(pass2 := exists i :: 0 <= i < |events| && EndsPass1(start.tx, events[i])))
  {
    hide Drive, Answerable;
    if events != [] {
      var before, last := events[..|events| - 1], events[|events| - 1];
      assert forall i :: 0 <= i < |before| ==> before[i] == events[i];
      AfterPass1(lib, start, before);
      var ctx := Reached(lib, start, before).value;
      if ctx.pass2 {
        var i :| 0 <= i < |before| && EndsPass1(start.tx, before[i]);
        assert EndsPass1(start.tx, events[i]);
        if AsksInput(last) {
          InputInRange(start.tx, last);
        }
        assert AsksInput(events[i]) && !AsksInput(events[|events| - 1]);
      }
      AnswersInPass1(lib, ctx, last);
    }
  }

  /** Outside of a phase, an answerable request is answered; in pass 1 that changes at most
      the pass flag. */
  lemma AnswersInPass1(lib: Crypto, ctx: Ctx, event: Event)
    requires ConfigsInRange(ctx.tx) && Answerable(ctx.tx, event) && ctx.phase == ExpectNext
    requires !ctx.pass2 || !AsksInput(event)
    ensures var step := Drive(lib, ctx, event);
            step.Continue? && step.ctx == ctx.(pass2 := ctx.pass2 || EndsPass1(ctx.tx, event))
  {
  }

  /** What an honest device contributes to pass 2, and the nonces that the host makes. */
  datatype Honest = Honest(nonces: seq<Bytes>, commitments: seq<Bytes>, signatures: seq<Bytes>)

  ghost predicate HonestFor(lib: Crypto, tx: Transaction, dev: Honest) {
    && |dev.nonces| == |dev.commitments| == |dev.signatures| == |tx.inputs|
    && forall i :: 0 <= i < |tx.inputs| && !Schnorr(tx, i) ==>
         VerifyEcdsa(lib, dev.nonces[i], dev.commitments[i], dev.signatures[i]) == Accepted
  }

  /** The reply that asks for input `i`, or after the last one says that all is done; it
      carries the signature of the input before. */
  function AskFor(tx: Transaction, dev: Honest, i: nat): Event
    requires i <= |tx.inputs| == |dev.signatures| == |dev.nonces|
  {
    Event(Some(Next(if i < |tx.inputs| then Input else Done, i, 0, i > 0, if i > 0 then dev.signatures[i - 1] else [], None)),
          if i < |tx.inputs| then Some(dev.nonces[i]) else None, true)
  }

  function Commits(commitment: Bytes): Event {
    Event(Some(Next(HostNonce, 0, 0, false, [], Some(commitment))), None, true)
  }

  /** The replies of pass 2 up to those that follow the request to sign input `n - 1`. */
  function Pass2(tx: Transaction, dev: Honest, n: nat): seq<Event>
    requires n <= |tx.inputs| == |dev.signatures| == |dev.nonces| == |dev.commitments|
  {
    if n == 0 then []
    else Pass2(tx, dev, n - 1) + [AskFor(tx, dev, n - 1)] + if Schnorr(tx, n - 1) then [] else [Commits(dev.commitments[n - 1])]
  }

  /** The phase in which the host waits for the signature of input `n - 1`. */
  function Waits(tx: Transaction, dev: Honest, n: nat): Phase
    requires n <= |tx.inputs| == |dev.signatures| == |dev.nonces| == |dev.commitments|
  {
    if n == 0 then ExpectNext
    else if Schnorr(tx, n - 1) then ExpectNextWithSig
    else ExpectAntikleptoSig(dev.nonces[n - 1], dev.commitments[n - 1])
  }

  lemma ReachedSnoc(lib: Crypto, start: Ctx, events: seq<Event>, event: Event)
    requires Reached(lib, start, events).Some?
    ensures var step := Drive(lib, Reached(lib, start, events).value, event);
            Reached(lib, start, events + [event]) == if step.Continue? then Some(step.ctx) else None
  {
    hide Drive;
    assert (events + [event])[..|events|] == events;
  }

  lemma {:induction false} DuringPass2(lib: Crypto, start: Ctx, pass1: seq<Event>, dev: Honest, n: nat)
    requires ConfigsInRange(start.tx) && HonestFor(lib, start.tx, dev) && n <= |start.tx.inputs|
    requires Reached(lib, start, pass1) == Some(start.(pass2 := true, phase := ExpectNext, sigs := []))
    ensures Reached(lib, start, pass1 + Pass2(start.tx, dev, n))
         == Some(start.(pass2 := true, phase := Waits(start.tx, dev, n), sigs := dev.signatures[..if n == 0 then 0 else n - 1]))
  {
    hide Drive, Schnorr, VerifyEcdsa, Reached;
    if n == 0 {
      assert pass1 + Pass2(start.tx, dev, 0) == pass1;
    } else {
      DuringPass2(lib, start, pass1, dev, n - 1);
      var before := pass1 + Pass2(start.tx, dev, n - 1);
      var asking := before + [AskFor(start.tx, dev, n - 1)];
      var ctx := Reached(lib, start, before).value;
      ReachedSnoc(lib, start, before, AskFor(start.tx, dev, n - 1));
      AsksNext(lib, start, dev, n - 1, ctx);
      if Schnorr(start.tx, n - 1) {
        assert pass1 + Pass2(start.tx, dev, n) == asking;
      } else {
        ReachedSnoc(lib, start, asking, Commits(dev.commitments[n - 1]));
        CommitsNext(lib, start, dev, n - 1, Reached(lib, start, asking).value);
        assert pass1 + Pass2(start.tx, dev, n) == asking + [Commits(dev.commitments[n - 1])];
      }
    }
  }

  lemma AsksNext(lib: Crypto, start: Ctx, dev: Honest, i: nat, ctx: Ctx)
    requires ConfigsInRange(start.tx) && HonestFor(lib, start.tx, dev) && i < |start.tx.inputs|
    requires ctx == start.(pass2 := true, phase := Waits(start.tx, dev, i), sigs := dev.signatures[..if i == 0 then 0 else i - 1])
    ensures var step := Drive(lib, ctx, AskFor(start.tx, dev, i));
            step.Continue? && step.ctx == ctx.(phase := if Schnorr(start.tx, i) then ExpectNextWithSig else ExpectHostNonce(dev.nonces[i]),
                                               sigs := dev.signatures[..i])
  {
    hide VerifyEcdsa, Schnorr, InputRequest;
    ResolvesLast(lib, start, dev, i, ctx);
  }

  /** A reply of pass 2 settles the signature of the input before. */
  lemma ResolvesLast(lib: Crypto, start: Ctx, dev: Honest, i: nat, ctx: Ctx)
    requires HonestFor(lib, start.tx, dev) && i <= |start.tx.inputs|
    requires ctx == start.(pass2 := true, phase := Waits(start.tx, dev, i), sigs := dev.signatures[..if i == 0 then 0 else i - 1])
    ensures Resolve(lib, ctx, AskFor(start.tx, dev, i).next.value, true) == Ready(ctx.(phase := ExpectNext, sigs := dev.signatures[..i]))
  {
    hide VerifyEcdsa, Schnorr;
    if i > 0 {
      assert dev.signatures[..i] == dev.signatures[..i - 1] + [dev.signatures[i - 1]];
    }
  }

  lemma CommitsNext(lib: Crypto, start: Ctx, dev: Honest, i: nat, ctx: Ctx)
    requires i < |dev.nonces| == |dev.commitments| && ctx.phase == ExpectHostNonce(dev.nonces[i])
    ensures var step := Drive(lib, ctx, Commits(dev.commitments[i]));
            step.Continue? && step.ctx == ctx.(phase := ExpectAntikleptoSig(dev.nonces[i], dev.commitments[i]))
  {
  }

  /** Against an honest device, which asks for all inputs in order, and for previous
      transactions and outputs at will, then for all inputs in order again, signing each,
      the run reaches the end, with exactly one signature for every input: that of input
      i goes into input i, under the key of input i, and nothing else changes. It fails
      there exactly when a signature cannot be parsed. */
  lemma {:induction false} HonestDevice(lib: Crypto, start: Ctx, pass1: seq<Event>, dev: Honest)
    requires Initial(start) && ConfigsInRange(start.tx) && |start.tx.inputs| > 0
    requires |start.psbt.inputs| >= |start.tx.inputs| == |start.keys|
    requires HonestPass1(start.tx, pass1) && (exists i :: 0 <= i < |pass1| && EndsPass1(start.tx, pass1[i]))
    requires HonestFor(lib, start.tx, dev)
    ensures var n := |start.tx.inputs|;
            var ctx := Reached(lib, start, pass1 + Pass2(start.tx, dev, n));
            && ctx.Some?
            && match Drive(lib, ctx.value, AskFor(start.tx, dev, n))
               case Signed(psbt) =>
                 && psbt == start.psbt.(inputs := psbt.inputs)
                 && SignaturesApplied(lib.parsers, start.psbt.inputs, dev.signatures, start.keys, psbt.inputs)
               case Fail => exists i :: 0 <= i < n && ParseFor(lib.parsers, start.keys[i], dev.signatures[i]).None?
               case _ => false
  {
    hide Applied, SignaturesApplied, Reached, VerifyEcdsa, Schnorr, HonestPass1, Resolve;
    var n := |start.tx.inputs|;
    AfterPass1(lib, start, pass1);
    DuringPass2(lib, start, pass1, dev, n);
    var ctx := Reached(lib, start, pass1 + Pass2(start.tx, dev, n)).value;
    ResolvesLast(lib, start, dev, n, ctx);
    assert dev.signatures[..n] == dev.signatures;
    AppliedIs(lib.parsers, start.psbt.inputs, dev.signatures, start.keys);
  }

  // ---- where the loop trusts the device ----

  lemma LoweredInRange(fingerprint: Bytes, psbt: Psbt, force: Option<ScriptConfig>, tx: Transaction, keys: seq<OurKey>)
    requires Lowered(fingerprint, psbt, force, tx, keys)
    ensures ConfigsInRange(tx) && |keys| == |tx.inputs| <= |psbt.inputs|
  {
    hide PlanInput, PlanOutput, InputConfigs, OutputConfigs, Uniq, LoweredOutputs;
    forall i | 0 <= i < |tx.inputs| ensures tx.inputs[i].configIndex < |tx.scriptConfigs| {
      assert LoweredInput(fingerprint, force.Some?, psbt.txInputs[i], psbt.inputs[i].rest, tx.scriptConfigs, tx.inputs[i], keys[i]);
    }
  }

  /** The requests whose index is used unchecked. */
  predicate BadIndex(tx: Transaction, next: Next) {
    match next.kind
    case Output => next.index >= |tx.outputs|
    case PrevtxInit => next.index >= |tx.inputs|
    case PrevtxInput =>
      next.index >= |tx.inputs| || (tx.inputs[next.index].prevTx.Some? && next.prevIndex >= |tx.inputs[next.index].prevTx.value.inputs|)
    case PrevtxOutput =>
      next.index >= |tx.inputs| || (tx.inputs[next.index].prevTx.Some? && next.prevIndex >= |tx.inputs[next.index].prevTx.value.outputs|)
    case _ => false
  }

  /** What stops the program in each phase. */
  predicate Stops(lib: Crypto, tx: Transaction, phase: Phase, next: Next) {
    match phase
    case ExpectNext => BadIndex(tx, next)
    case ExpectNextWithSig => next.hasSignature && BadIndex(tx, next)
    case ExpectHostNonce(_) => false
    case ExpectAntikleptoSig(nonce, commitment) =>
      && next.hasSignature
      && match lib.point(commitment, nonce)
         case None => false
         case Some(x) => |next.signature| < 32 || (next.signature[..32] == x && BadIndex(tx, next))
  }

  /** In a reachable state of a lowered PSBT the loop panics exactly on an unchecked index out
      of range, where the reply is not refused before for its signature, and on a signature
      too short for the anti-klepto check; indices of inputs, configs and keys are never out
      of range. */
  lemma {:induction false} PanicsExactly(lib: Crypto, fingerprint: Bytes, force: Option<ScriptConfig>, start: Ctx, events: seq<Event>,
                                         event: Event)
    requires Lowered(fingerprint, start.psbt, force, start.tx, start.keys)
    requires Initial(start) && Reached(lib, start, events).Some?
    ensures var ctx := Reached(lib, start, events).value;
            Drive(lib, ctx, event).Panic? <==> event.next.Some? && Stops(lib, start.tx, ctx.phase, event.next.value)
  {
    hide Lowered, Reached, AllYielded, Pending, NoEarlyReveal, LastInputAsked, InOrder, Applied, Schnorr;
    LoweredInRange(fingerprint, start.psbt, force, start.tx, start.keys);
    AnyDevice(lib, start, events);
  }

  /** It can happen in the very first round, to any PSBT: a request for the output behind the
      last one. */
  lemma {:induction false} OutputBehindLast(lib: Crypto, start: Ctx, nonce: Option<Bytes>, encrypts: bool)
    requires Initial(start)
    ensures var event := Event(Some(Next(Output, |start.tx.outputs|, 0, false, [], None)), nonce, encrypts);
            Reached(lib, start, []) == Some(start) && Drive(lib, start, event).Panic?
  {
  }

  /** And with a signature of fewer than 32 bytes, if the last input needs the anti-klepto
      check and the commitment of the device is a point. */
  lemma {:induction false} ShortSignature(lib: Crypto, start: Ctx, draw: Option<Bytes>, nonce: Bytes, commitment: Bytes, signature: Bytes)
    requires Initial(start) && ConfigsInRange(start.tx) && start.tx.inputs != [] && !Schnorr(start.tx, |start.tx.inputs| - 1)
    requires lib.point(commitment, nonce).Some? && |signature| < 32
    ensures var n := |start.tx.inputs|;
            var events := [Sign(n - 1, draw), Sign(n - 1, Some(nonce)), Commits(commitment)];
            Reached(lib, start, events).Some? && Drive(lib, Reached(lib, start, events).value, Ask(Done, 0, signature)).Panic?
  {
    hide Reached, Schnorr, InputRequest;
    var i := |start.tx.inputs| - 1;
    var e1, e2 := [] + [Sign(i, draw)], [Sign(i, draw)] + [Sign(i, Some(nonce))];
    assert Reached(lib, start, []) == Some(start) by {
      OutputBehindLast(lib, start, None, true);
    }
    ReachedSnoc(lib, start, [], Sign(i, draw));
    assert e1 == [Sign(i, draw)];
    ReachedSnoc(lib, start, e1, Sign(i, Some(nonce)));
    ReachedSnoc(lib, start, e2, Commits(commitment));
    assert e2 + [Commits(commitment)] == [Sign(i, draw), Sign(i, Some(nonce)), Commits(commitment)];
  }

  /** A reply that asks for input `i`, in a round for which the host draws this nonce. */
  function Sign(i: nat, nonce: Option<Bytes>): Event {
    Event(Some(Next(Input, i, 0, false, [], None)), nonce, true)
  }

  // ---- where the nonces matter ----

  /** The requests for which a nonce is used, if they come in pass 2. */
  predicate NeedsNonce(tx: Transaction, event: Event) {
    AsksInput(event) && event.next.value.index < |tx.inputs| && !Schnorr(tx, event.next.value.index)
  }

  predicate SameEvent(tx: Transaction, a: Event, b: Event) {
    a.next == b.next && a.encrypts == b.encrypts && (NeedsNonce(tx, a) ==> a.nonce == b.nonce)
  }

  lemma DrivesAlike(lib: Crypto, ctx: Ctx, a: Event, b: Event)
    requires SameEvent(ctx.tx, a, b)
    ensures Drive(lib, ctx, a) == Drive(lib, ctx, b)
    ensures Drive(lib, ctx, a).Continue? ==> Drive(lib, ctx, a).ctx.tx == ctx.tx
  {
    hide Schnorr, VerifyEcdsa, InputRequest, Applied;
  }

  /** Two runs that differ only in nonces that are not used reach the same context. */
  lemma {:induction false} ReachesAlike(lib: Crypto, start: Ctx, a: seq<Event>, b: seq<Event>)
    requires |a| == |b| && forall i :: 0 <= i < |a| ==> SameEvent(start.tx, a[i], b[i])
    ensures Reached(lib, start, a) == Reached(lib, start, b)
    ensures Reached(lib, start, a).Some? ==> Reached(lib, start, a).value.tx == start.tx
  {
    hide Drive, SameEvent;
    if a != [] {
      var n := |a| - 1;
      ReachesAlike(lib, start, a[..n], b[..n]);
      if Reached(lib, start, a[..n]).Some? {
        DrivesAlike(lib, Reached(lib, start, a[..n]).value, a[n], b[n]);
      }
    }
  }

  /** A reply that carries a signature and asks for input `i`, or says that all is done. */
  function Ask(kind: Kind, i: nat, signature: Bytes): Event {
    Event(Some(Next(kind, i, 0, true, signature, None)), None, true)
  }

  lemma AsksSchnorr(lib: Crypto, start: Ctx, events: seq<Event>, i: nat, signature: Bytes)
    requires Reached(lib, start, events).Some? && ConfigsInRange(start.tx)
    requires var ctx := Reached(lib, start, events).value;
             ctx.tx == start.tx && i < |ctx.tx.inputs| && Schnorr(ctx.tx, i) && (ctx.phase.ExpectNext? || ctx.phase.ExpectNextWithSig?)
    ensures var ctx := Reached(lib, start, events).value;
            && Reached(lib, start, events + [Ask(Input, i, signature)])
               == Some(ctx.(pass2 := ctx.pass2 || i == |ctx.tx.inputs| - 1,
                            phase := if ctx.pass2 then ExpectNextWithSig else ExpectNext,
                            sigs := if ctx.phase.ExpectNext? then ctx.sigs else ctx.sigs + [signature]))
            && Rounds(lib, start, events + [Ask(Input, i, signature)])
               == Rounds(lib, start, events) + if ctx.pass2 then [Round(|events|, i)] else []
  {
    hide *;
    var ctx := Reached(lib, start, events).value;
    ReachedSnoc(lib, start, events, Ask(Input, i, signature));
    RoundsSnoc(lib, start, events, Ask(Input, i, signature));
    SchnorrStep(lib, ctx, i, signature, |events|);
  }

  lemma RoundsSnoc(lib: Crypto, start: Ctx, events: seq<Event>, event: Event)
    requires Reached(lib, start, events).Some?
    ensures var ctx := Reached(lib, start, events).value;
            Rounds(lib, start, events + [event]) == Rounds(lib, start, events) + Opens(ctx, Drive(lib, ctx, event), |events|, event)
  {
    hide Drive, Opens;
    assert (events + [event])[..|events|] == events;
  }

  lemma SchnorrStep(lib: Crypto, ctx: Ctx, i: nat, signature: Bytes, at: nat)
    requires ConfigsInRange(ctx.tx) && i < |ctx.tx.inputs| && Schnorr(ctx.tx, i)
    requires ctx.phase.ExpectNext? || ctx.phase.ExpectNextWithSig?
    ensures var step := Drive(lib, ctx, Ask(Input, i, signature));
            && step.Continue?
            && step.ctx == ctx.(pass2 := ctx.pass2 || i == |ctx.tx.inputs| - 1,
                                phase := if ctx.pass2 then ExpectNextWithSig else ExpectNext,
                                sigs := if ctx.phase.ExpectNext? then ctx.sigs else ctx.sigs + [signature])
            && Opens(ctx, step, at, Ask(Input, i, signature)) == if ctx.pass2 then [Round(at, i)] else []
  {
    hide Schnorr;
  }

  lemma Unasked(lib: Crypto, start: Ctx)
    requires Initial(start)
    ensures Reached(lib, start, []) == Some(start) && Rounds(lib, start, []) == []
    ensures !start.pass2 && start.phase == ExpectNext && start.sigs == []
  {
  }

  /** Nothing makes a device ask for its inputs in order: one that asks for input 1 before
      input 0 in pass 2 gets the signature made for input 1 written into input 0. */
  lemma {:induction false} SwappedRounds(lib: Crypto, start: Ctx, one: Bytes, zero: Bytes)
    requires Initial(start) && ConfigsInRange(start.tx)
    requires |start.tx.inputs| == |start.keys| == |start.psbt.inputs| == 2
    requires Schnorr(start.tx, 0) && Schnorr(start.tx, 1) && start.keys[0].TaprootInternal? && start.keys[1].TaprootInternal?
    requires lib.parsers.taproot(one).Some? && lib.parsers.taproot(zero).Some?
    ensures var events := [Ask(Input, 0, []), Ask(Input, 1, []), Ask(Input, 1, []), Ask(Input, 0, one)];
            && Rounds(lib, start, events) == [Round(2, 1), Round(3, 0)]
            && Reached(lib, start, events).Some?
            && var step := Drive(lib, Reached(lib, start, events).value, Ask(Done, 0, zero));
               step.Signed? && |step.psbt.inputs| == 2 && step.psbt.inputs[0].tapKeySig == lib.parsers.taproot(one)
  {
    hide *;
    Unasked(lib, start);
    AsksSchnorr(lib, start, [], 0, []);
    var e1 := [] + [Ask(Input, 0, [])];
    AsksSchnorr(lib, start, e1, 1, []);
    var e2 := e1 + [Ask(Input, 1, [])];
    AsksSchnorr(lib, start, e2, 1, []);
    var e3 := e2 + [Ask(Input, 1, [])];
    AsksSchnorr(lib, start, e3, 0, one);
    var e4 := e3 + [Ask(Input, 0, one)];
    assert e4 == [Ask(Input, 0, []), Ask(Input, 1, []), Ask(Input, 1, []), Ask(Input, 0, one)];
    var ctx := Reached(lib, start, e4).value;
    assert ctx == start.(pass2 := true, phase := ExpectNextWithSig, sigs := [one]);
    LastSwapped(lib, ctx, one, zero);
  }

  lemma LastSwapped(lib: Crypto, ctx: Ctx, one: Bytes, zero: Bytes)
    requires ctx.phase == ExpectNextWithSig && ctx.sigs == [one]
    requires |ctx.keys| == |ctx.psbt.inputs| == 2 && ctx.keys[0].TaprootInternal? && ctx.keys[1].TaprootInternal?
    requires lib.parsers.taproot(one).Some? && lib.parsers.taproot(zero).Some?
    ensures var step := Drive(lib, ctx, Ask(Done, 0, zero));
            step.Signed? && |step.psbt.inputs| == 2 && step.psbt.inputs[0].tapKeySig == lib.parsers.taproot(one)
  {
    hide Applied;
    assert [one] + [zero] == [one, zero];
    AppliedIs(lib.parsers, ctx.psbt.inputs, [one, zero], ctx.keys);
  }
}
