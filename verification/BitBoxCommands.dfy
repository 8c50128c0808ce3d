/** Whole BitBox commands, from the first request on: which answers stop the program, and
    signing with an honest device. */
module BitBoxCommands {
  import opened Common
  import opened Driver
  import opened PsbtFields
  import opened BitBoxSign
  import opened SignLoop
  import opened BitBox

  // ---- conversations ----

  type BitBoxTalk = Talk<Machine, Transmit, BitBoxError>

  function Exchanging(lib: BitBox.Library): (Machine, Bytes) -> BitBox.Step {
    (m, data) => ExchangeStep(lib, m, data)
  }

  function TalkWith(lib: BitBox.Library, m: Machine, answers: seq<Bytes>): (t: BitBoxTalk)
    ensures |t.sent| <= |answers|
  {
    Converse(Exchanging(lib), m, answers)
  }

  lemma TalkUnfolds(lib: BitBox.Library, m: Machine, answers: seq<Bytes>)
    ensures answers == [] ==> TalkWith(lib, m, answers) == Talk(m, [], None)
    ensures answers != [] ==>
              var step := ExchangeStep(lib, m, answers[0]);
              TalkWith(lib, m, answers) ==
              if step.1.Err? then Talk(step.0, [], Some(Err(step.1.error)))
              else if step.1.value.None? then Talk(step.0, [], Some(Ok(())))
              else
                var rest := TalkWith(lib, step.0, answers[1..]);
                Talk(rest.s, [step.1.value.value] + rest.sent, rest.ended)
  {
    hide ExchangeStep;
    ConverseUnfolds(Exchanging(lib), m, answers);
  }

  predicate Served(step: BitBox.Step) {
    step.1.Ok? && step.1.value.Some?
  }

  /** To every answer something was sent. */
  predicate AllServed(lib: BitBox.Library, m: Machine, answers: seq<Bytes>) {
    answers == [] || (AllServed(lib, m, answers[..|answers| - 1])
                      && Served(ExchangeStep(lib, After(lib, m, answers[..|answers| - 1]), answers[|answers| - 1])))
  }

  lemma {:induction false} AfterFirst(lib: BitBox.Library, m: Machine, answers: seq<Bytes>)
    requires answers != []
    ensures After(lib, m, answers) == After(lib, ExchangeStep(lib, m, answers[0]).0, answers[1..])
    ensures AllServed(lib, m, answers) <==>
            Served(ExchangeStep(lib, m, answers[0])) && AllServed(lib, ExchangeStep(lib, m, answers[0]).0, answers[1..])
  {
    hide ExchangeStep, Served;
    var n := |answers| - 1;
    if n == 0 {
      assert answers[..0] == [] && answers[1..] == [];
    } else {
      AfterFirst(lib, m, answers[..n]);
      assert answers[..n][1..] == answers[1..][..n - 1];
    }
  }

  /** A conversation is the answers to which something was sent, and at most one more. */
  lemma {:induction false} TalkIsAfter(lib: BitBox.Library, m: Machine, answers: seq<Bytes>)
    ensures var t := TalkWith(lib, m, answers);
            var n := |t.sent|;
            var last := After(lib, m, answers[..n]);
            && AllServed(lib, m, answers[..n])
            && (t.ended.None? ==> n == |answers| && t.s == last)
            && (t.ended.Some? ==>
                  && n < |answers|
                  && var step := ExchangeStep(lib, last, answers[n]);
                     !Served(step) && t.s == step.0 && t.ended == Some(if step.1.Err? then Err(step.1.error) else Ok(())))
    decreases |answers|
  {
    hide ExchangeStep, TalkWith, After, AllServed;
    TalkUnfolds(lib, m, answers);
    NoneServed(lib, m, answers);
    if answers != [] {
      var (m', r) := ExchangeStep(lib, m, answers[0]);
      if Served((m', r)) {
        TalkIsAfter(lib, m', answers[1..]);
        var n := |TalkWith(lib, m', answers[1..]).sent|;
        AfterFirst(lib, m, answers[..n + 1]);
        assert answers[..n + 1][1..] == answers[1..][..n];
      }
    }
  }

  lemma NoneServed(lib: BitBox.Library, m: Machine, answers: seq<Bytes>)
    ensures After(lib, m, answers[..0]) == m && AllServed(lib, m, answers[..0])
  {
  }

  /** The other way around. */
  lemma {:induction false} ServedTalk(lib: BitBox.Library, m: Machine, answers: seq<Bytes>)
    requires AllServed(lib, m, answers)
    ensures var t := TalkWith(lib, m, answers);
            t.ended.None? && |t.sent| == |answers| && t.s == After(lib, m, answers)
    decreases |answers|
  {
    hide ExchangeStep, TalkWith, After, AllServed;
    TalkUnfolds(lib, m, answers);
    NoneServed(lib, m, answers);
    if answers == [] {
      assert answers[..0] == answers;
    } else {
      AfterFirst(lib, m, answers);
      ServedTalk(lib, ExchangeStep(lib, m, answers[0]).0, answers[1..]);
    }
  }

  lemma TalkEnds(lib: BitBox.Library, m: Machine, answers: seq<Bytes>, data: Bytes)
    requires AllServed(lib, m, answers)
    ensures var step := ExchangeStep(lib, After(lib, m, answers), data);
            var t := TalkWith(lib, m, answers + [data]);
            !Served(step) ==>
              t.s == step.0 && t.ended == Some(if step.1.Err? then Err(step.1.error) else Ok(())) && |t.sent| == |answers|
  {
    hide ExchangeStep, AllServed, After, Exchanging;
    ServedTalk(lib, m, answers);
    ConverseAppend(Exchanging(lib), m, answers, [data]);
    hide TalkWith;
    TalkUnfolds(lib, After(lib, m, answers), [data]);
  }

  // ---- where a served command waits ----

  lemma {:induction false} ServedIsActive(lib: BitBox.Library, m: Machine, answers: seq<Bytes>)
    requires Active(m) && AllServed(lib, m, answers)
    ensures Active(After(lib, m, answers))
  {
    hide ExchangeStep, Active;
    if answers != [] {
      var n := |answers| - 1;
      ServedIsActive(lib, m, answers[..n]);
      ExchangeEnds(lib, After(lib, m, answers[..n]), answers[n]);
      ServedEnds(ExchangeStep(lib, After(lib, m, answers[..n]), answers[n]));
    }
  }

  lemma ServedEnds(step: BitBox.Step)
    requires WellEnded(step) && Served(step)
    ensures Active(step.0)
  {
  }

  /** From the first answer on a signing session waits in the loop. */
  lemma SigningWaits(lib: BitBox.Library, m: Machine, answers: seq<Bytes>)
    requires m.state.SignPsbtWaitFingerprint? && answers != [] && AllServed(lib, m, answers)
    ensures After(lib, m, answers).state.SignPsbtWaitNext?
  {
    hide After, EventsOf, AllServed, LoopStart, LoopSigns, Reached, FingerprintAt;
    ServedIsActive(lib, m, answers);
    SessionSigns(lib, m, answers);
  }

  /** States that belong to neither of the two commands that verify signatures. */
  predicate Elsewhere(s: State) {
    !s.SignPsbtWaitFingerprint? && !s.SignPsbtWaitNext? && !s.SignMessageWaitCommitment? && !s.SignMessageWaitSig?
  }

  lemma {:induction false} StaysElsewhere(lib: BitBox.Library, m: Machine, answers: seq<Bytes>)
    requires Elsewhere(m.state)
    ensures Elsewhere(After(lib, m, answers).state)
  {
    hide ExchangeStep, Elsewhere;
    if answers != [] {
      StaysElsewhere(lib, m, answers[..|answers| - 1]);
      ElsewhereStep(lib, After(lib, m, answers[..|answers| - 1]), answers[|answers| - 1]);
    }
  }

  lemma ElsewhereStep(lib: BitBox.Library, m: Machine, data: Bytes)
    requires Elsewhere(m.state)
    ensures Elsewhere(ExchangeStep(lib, m, data).0.state)
  {
    hide DecodedReply, Action, AccountPath, Base32.PairingCode, OnManagement;
    ElsewhereManaged(lib, m, data);
  }

  lemma ElsewhereManaged(lib: BitBox.Library, m: Machine, data: Bytes)
    requires Elsewhere(m.state)
    ensures Elsewhere(OnManagement(lib, m, data).0.state)
  {
    hide DecodedReply, Action;
  }

  // ---- which answers stop the program ----

  /** What an answer decodes to. */
  function ReplyTo(lib: BitBox.Library, m: Machine, data: Bytes): Result<BitBox.Reply, BitBoxError> {
    DecodedReply(lib, m.(state := New), data).1
  }

  /** In a signing session exactly the replies stop the program that stop the round they open,
      by the phase that is open; no other answer does. */
  lemma {:induction false} SigningPanicsExactly(lib: BitBox.Library, m: Machine, answers: seq<Bytes>, data: Bytes)
    requires m.state.SignPsbtWaitFingerprint? && answers != [] && After(lib, m, answers).state.SignPsbtWaitNext?
    ensures var first := LoopStart(m.state.psbt, m.state.force, m.state.policy, FingerprintAt(lib, m, answers[0]));
            var last := After(lib, m, answers);
            var reply := ReplyTo(lib, last, data);
            && first.Some?
            && (ExchangeStep(lib, last, data).1 == Err(Panicked) <==>
                reply.Ok? && reply.value.NextReply? && Stops(lib.crypto, first.value.tx, last.state.ctx.phase, reply.value.next))
  {
    hide After, EventsOf, Drive, Reached, Lower, Lowered, ForcedConfig, FingerprintAt, DecodedReply, ExchangeStep, Stops,
         HeaderOverflows, CannotLower;
    SessionSigns(lib, m, answers);
    var fingerprint := FingerprintAt(lib, m, answers[0]);
    var last := After(lib, m, answers);
    var forced := ForcedConfig(m.state.force, m.state.policy, fingerprint).value;
    var first := LoopStart(m.state.psbt, m.state.force, m.state.policy, fingerprint).value;
    LowerIs(fingerprint, m.state.psbt, forced);
    BitBox.PanicsExactly(lib, last, data);
    var (m', reply) := DecodedReply(lib, last.(state := New), data);
    if reply.Ok? {
      SignLoop.PanicsExactly(lib.crypto, fingerprint, forced, first, EventsOf(lib, m, answers), EventOf(lib, m', reply.value));
    }
  }

  /** In SIGN MESSAGE exactly a valid signature with a recovery id of 225 or more does, for
      the nonce of the start and the commitment of the device, where overflow is checked. */
  lemma {:induction false} MessagePanicsExactly(lib: BitBox.Library, m: Machine, data1: Bytes, data2: Bytes)
    requires m.state.SignMessageWaitCommitment?
    ensures var (m1, sent) := ExchangeStep(lib, m, data1);
            var commitment, reply := ReplyTo(lib, m, data1), ReplyTo(lib, m1, data2);
            && sent != Err(Panicked)
            && (sent.Ok? ==>
                  && commitment.Ok? && commitment.value.CommitmentReply?
                  && m1.state == SignMessageWaitSig(m.state.nonce, commitment.value.commitment)
                  && (ExchangeStep(lib, m1, data2).1 == Err(Panicked) <==>
                      reply.Ok? && HeaderOverflows(lib, m.state.nonce, commitment.value.commitment, reply.value)))
  {
    hide DecodedReply, HeaderOverflows, OnQuery, OnFingerprint, OnNext, OnDescriptorFingerprint, OnManagement, StartHandshake,
         OnHandshake, FinalizeHandshake, ConfirmPairing, OnMessageSignature;
    BitBox.PanicsExactly(lib, m, data1);
    BitBox.PanicsExactly(lib, ExchangeStep(lib, m, data1).0, data2);
  }

  /** An answer that stops the program, after those to which something was sent. */
  ghost predicate StopsAt(lib: BitBox.Library, m: Machine, before: seq<Bytes>, data: Bytes) {
    var last := After(lib, m, before);
    var reply := ReplyTo(lib, last, data);
    && reply.Ok?
    && if m.state.SignPsbtWaitFingerprint? then
         && before != [] && last.state.SignPsbtWaitNext? && reply.value.NextReply?
         && var first := LoopStart(m.state.psbt, m.state.force, m.state.policy, FingerprintAt(lib, m, before[0]));
            first.Some? && Stops(lib.crypto, first.value.tx, last.state.ctx.phase, reply.value.next)
       else
         && m.state.SignMessageWaitCommitment? && |before| == 1
         && var commitment := ReplyTo(lib, m, before[0]);
            && commitment.Ok? && commitment.value.CommitmentReply?
            && HeaderOverflows(lib, m.state.nonce, commitment.value.commitment, reply.value)
  }

  lemma MessageStops(lib: BitBox.Library, m: Machine, before: seq<Bytes>, data: Bytes)
    requires m.state.SignMessageWaitCommitment? && AllServed(lib, m, before)
    ensures ExchangeStep(lib, After(lib, m, before), data).1 == Err(Panicked) <==> StopsAt(lib, m, before, data)
  {
    hide ExchangeStep, HeaderOverflows, ReplyTo;
    if before == [] {
      MessagePanicsExactly(lib, m, data, data);
    } else {
      var n := |before| - 1;
      MessageAnswers(lib, m, before);
      if |before| == 1 {
        assert before[..0] == [];
        MessagePanicsExactly(lib, m, before[0], data);
      }
    }
  }

  /** SIGN MESSAGE sends only twice: at its start, and to the commitment. */
  lemma MessageAnswers(lib: BitBox.Library, m: Machine, before: seq<Bytes>)
    requires m.state.SignMessageWaitCommitment? && AllServed(lib, m, before)
    ensures |before| <= 1
  {
    hide ExchangeStep;
    if |before| >= 2 {
      AfterFirst(lib, m, before);
      var m1 := ExchangeStep(lib, m, before[0]).0;
      AfterFirst(lib, m1, before[1..]);
      MessagePanicsExactly(lib, m, before[0], before[1]);
      SignatureIsLast(lib, m1, before[1..][0]);
    }
  }

  lemma SignatureIsLast(lib: BitBox.Library, m: Machine, data: Bytes)
    requires m.state.SignMessageWaitSig?
    ensures !Served(ExchangeStep(lib, m, data))
  {
    hide DecodedReply, VerifyEcdsa, OnQuery, OnFingerprint, OnNext, OnDescriptorFingerprint, OnManagement, StartHandshake,
         OnHandshake, FinalizeHandshake, ConfirmPairing;
  }

  lemma ElsewhereNeverStops(lib: BitBox.Library, m: Machine, before: seq<Bytes>, data: Bytes)
    requires Elsewhere(m.state)
    ensures ExchangeStep(lib, After(lib, m, before), data).1 != Err(Panicked) && !StopsAt(lib, m, before, data)
  {
    hide ExchangeStep, HeaderOverflows, DecodedReply, Drive;
    StaysElsewhere(lib, m, before);
    BitBox.PanicsExactly(lib, After(lib, m, before), data);
  }

  lemma SigningStops(lib: BitBox.Library, m: Machine, before: seq<Bytes>, data: Bytes)
    requires m.state.SignPsbtWaitFingerprint? && AllServed(lib, m, before)
    ensures ExchangeStep(lib, After(lib, m, before), data).1 == Err(Panicked) <==> StopsAt(lib, m, before, data)
  {
    hide ExchangeStep, HeaderOverflows, DecodedReply, Drive, LoopStart, FingerprintAt, Stops;
    if before == [] {
      BitBox.PanicsExactly(lib, m, data);
    } else {
      SigningWaits(lib, m, before);
      SigningPanicsExactly(lib, m, before, data);
    }
  }

  /** Where a command starts to wait. */
  lemma StartsAt(lib: BitBox.Library, m: Machine, command: Command)
    requires BitBox.Start(lib, m, command).1.Ok?
    ensures var s := BitBox.Start(lib, m, command).0.state;
            && (command.SignPsbt? ==> s == SignPsbtWaitFingerprint(command.psbt, command.force, command.policy))
            && (command.SignMessage? ==> lib.hostNonce(m.drawn).Some? && s == SignMessageWaitCommitment(lib.hostNonce(m.drawn).value))
            && (!command.SignPsbt? && !command.SignMessage? ==> Elsewhere(s))
  {
  }

  /** Whatever the device answers, a started command stops the program if and only if the
      answer after those to which something was sent does: in SIGN PSBT by the guard of the
      phase that is open, over the transaction that the PSBT was lowered to; in SIGN MESSAGE by
      the overflow of the header; and in no other command. */
  lemma {:induction false} CommandPanicsExactly(lib: BitBox.Library, m: Machine, command: Command, answers: seq<Bytes>)
    requires BitBox.Start(lib, m, command).1.Ok?
    ensures var s := BitBox.Start(lib, m, command).0;
            var t := TalkWith(lib, s, answers);
            var n := |t.sent|;
            t.ended == Some(Err(Panicked)) <==>
            n < |answers| && (command.SignPsbt? || command.SignMessage?) && StopsAt(lib, s, answers[..n], answers[n])
  {
    hide *;
    StartsAt(lib, m, command);
    var s := BitBox.Start(lib, m, command).0;
    TalkIsAfter(lib, s, answers);
    var n := |TalkWith(lib, s, answers).sent|;
    if n < |answers| {
      if command.SignPsbt? {
        SigningStops(lib, s, answers[..n], answers[n]);
      } else if command.SignMessage? {
        MessageStops(lib, s, answers[..n], answers[n]);
      } else {
        ElsewhereNeverStops(lib, s, answers[..n], answers[n]);
      }
      NotServed(ExchangeStep(lib, After(lib, s, answers[..n]), answers[n]));
    }
  }

  lemma NotServed(step: BitBox.Step)
    ensures Served(step) <==> step.1.Ok? && step.1.value.Some?
  {
  }

  // ---- a device that seals its replies ----

  /** What a device seals, the host opens and decodes, whatever the state of the cipher. */
  ghost predicate Seals(lib: BitBox.Library, seal: (Bytes, BitBox.Reply) -> Bytes) {
    forall cipher: Bytes, reply: BitBox.Reply :: !reply.ErrorReply? ==> Reads(lib, cipher, seal(cipher, reply), reply)
  }

  predicate Reads(lib: BitBox.Library, cipher: Bytes, sealed: Bytes, reply: BitBox.Reply) {
    var plain := lib.decrypt(cipher, sealed);
    plain.Some? && lib.decode(plain.value.1) == Some(reply)
  }

  function Sealed(seal: (Bytes, BitBox.Reply) -> Bytes, m: Machine, reply: BitBox.Reply): Bytes {
    [RESPONSE_SUCCESS] + match m.noise.cipher case Some(cipher) => seal(cipher, reply) case None => []
  }

  /** The answers of a device that keeps its cipher in step with the host's. */
  function Answers(lib: BitBox.Library, seal: (Bytes, BitBox.Reply) -> Bytes, m: Machine, replies: seq<BitBox.Reply>): (r: seq<Bytes>)
    ensures |r| == |replies|
  {
    if replies == [] then []
    else
      var before := Answers(lib, seal, m, replies[..|replies| - 1]);
      before + [Sealed(seal, After(lib, m, before), replies[|replies| - 1])]
  }

  lemma AnswersSnoc(lib: BitBox.Library, seal: (Bytes, BitBox.Reply) -> Bytes, m: Machine, replies: seq<BitBox.Reply>, reply: BitBox.Reply)
    ensures var before := Answers(lib, seal, m, replies);
            Answers(lib, seal, m, replies + [reply]) == before + [Sealed(seal, After(lib, m, before), reply)]
  {
    hide After, Sealed;
    assert (replies + [reply])[..|replies|] == replies;
  }

  lemma AfterSnoc(lib: BitBox.Library, m: Machine, answers: seq<Bytes>, data: Bytes)
    ensures After(lib, m, answers + [data]) == ExchangeStep(lib, After(lib, m, answers), data).0
    ensures AllServed(lib, m, answers + [data]) <==>
            AllServed(lib, m, answers) && Served(ExchangeStep(lib, After(lib, m, answers), data))
  {
    hide ExchangeStep;
    assert (answers + [data])[..|answers|] == answers;
  }

  /** The host hears what was sealed, and only its cipher moves. */
  lemma Hears(lib: BitBox.Library, seal: (Bytes, BitBox.Reply) -> Bytes, m: Machine, reply: BitBox.Reply)
    requires Seals(lib, seal) && m.noise.cipher.Some? && !reply.ErrorReply?
    ensures var (m', heard) := DecodedReply(lib, m.(state := New), Sealed(seal, m, reply));
            heard == Ok(reply) && m'.noise.cipher.Some? && m' == m.(state := New, noise := m'.noise)
  {
    var sealed := seal(m.noise.cipher.value, reply);
    assert Reads(lib, m.noise.cipher.value, sealed, reply);
    assert ([RESPONSE_SUCCESS] + sealed)[1..] == sealed;
  }

  /** The first reply to SIGN PSBT lets the loop begin. */
  lemma LoopBegins(lib: BitBox.Library, seal: (Bytes, BitBox.Reply) -> Bytes, m: Machine, fingerprint: Bytes, first: Ctx)
    requires Seals(lib, seal) && m.noise.cipher.Some? && m.state.SignPsbtWaitFingerprint?
    requires LoopStart(m.state.psbt, m.state.force, m.state.policy, fingerprint) == Some(first)
    ensures var data := Sealed(seal, m, FingerprintReply(fingerprint));
            var step := ExchangeStep(lib, m, data);
            && Served(step) && step.0.state == SignPsbtWaitNext(first)
            && step.0.noise.cipher.Some? && step.0.drawn == m.drawn
            && FingerprintAt(lib, m, data) == fingerprint
  {
    hide DecodedReply, Sealed, Seals, ForcedConfig, Lower, OnQuery, OnNext, OnCommitment, OnMessageSignature,
         OnDescriptorFingerprint, OnManagement, StartHandshake, OnHandshake, FinalizeHandshake, ConfirmPairing;
    Hears(lib, seal, m, FingerprintReply(fingerprint));
  }

  /** One round of the loop. */
  lemma LoopRound(lib: BitBox.Library, seal: (Bytes, BitBox.Reply) -> Bytes, m: Machine, next: Next)
    requires Seals(lib, seal) && m.noise.cipher.Some? && m.state.SignPsbtWaitNext?
    ensures var data := Sealed(seal, m, NextReply(next));
            var (m', r) := ExchangeStep(lib, m, data);
            var round := Drive(lib.crypto, m.state.ctx, Event(Some(next), lib.hostNonce(m.drawn), true));
            && ReplyTo(lib, m, data) == Ok(NextReply(next))
            && match round
               case Continue(ctx, _) =>
                 Served((m', r)) && m'.state == SignPsbtWaitNext(ctx) && m'.noise.cipher.Some? && m'.drawn == m.drawn + 1
               case Signed(psbt) => r == Ok(None) && m'.state == Finished(SignedPsbt(psbt))
               case Fail => r == Err(SigningFailed)
               case Panic => r == Err(Panicked)
  {
    hide DecodedReply, Sealed, Seals, Drive, OnQuery, OnFingerprint, OnCommitment, OnMessageSignature,
         OnDescriptorFingerprint, OnManagement, StartHandshake, OnHandshake, FinalizeHandshake, ConfirmPairing;
    Hears(lib, seal, m, NextReply(next));
  }

  // ---- a script for the loop ----

  /** The replies of a script that starts with the fingerprint. */
  function Replies(fingerprint: Bytes, script: seq<Event>): (r: seq<BitBox.Reply>)
    requires forall i :: 0 <= i < |script| ==> script[i].next.Some?
    ensures |r| == |script| + 1
  {
    if script == [] then [FingerprintReply(fingerprint)]
    else Replies(fingerprint, script[..|script| - 1]) + [NextReply(script[|script| - 1].next.value)]
  }

  /** What a script means to a host that has drawn `drawn` nonces before. */
  function Meant(lib: BitBox.Library, drawn: nat, script: seq<Event>): (r: seq<Event>)
    ensures |r| == |script| && forall i :: 0 <= i < |r| ==> r[i] == Event(script[i].next, lib.hostNonce(drawn + i), true)
  {
    seq(|script|, i requires 0 <= i < |script| => Event(script[i].next, lib.hostNonce(drawn + i), true))
  }

  /** The device can say this, and knows the nonces that the host draws and reveals. */
  predicate Playable(lib: BitBox.Library, drawn: nat, tx: Transaction, script: seq<Event>) {
    forall i :: 0 <= i < |script| ==>
      && script[i].next.Some? && script[i].encrypts
      && (NeedsNonce(tx, script[i]) ==> script[i].nonce == lib.hostNonce(drawn + i))
  }

  lemma MeantIsSame(lib: BitBox.Library, drawn: nat, tx: Transaction, script: seq<Event>)
    requires Playable(lib, drawn, tx, script)
    ensures forall i :: 0 <= i < |script| ==> SameEvent(tx, script[i], Meant(lib, drawn, script)[i])
  {
    hide NeedsNonce;
  }

  /** Played through the interpreter, a script leads the signing loop where it leads on its own. */
  lemma {:induction false} Plays(lib: BitBox.Library, seal: (Bytes, BitBox.Reply) -> Bytes, m: Machine, fingerprint: Bytes, first: Ctx,
                                 script: seq<Event>)
    requires Seals(lib, seal) && m.noise.cipher.Some? && m.state.SignPsbtWaitFingerprint?
    requires LoopStart(m.state.psbt, m.state.force, m.state.policy, fingerprint) == Some(first)
    requires Playable(lib, m.drawn, first.tx, script) && Reached(lib.crypto, first, script).Some?
    ensures var answers := Answers(lib, seal, m, Replies(fingerprint, script));
            var last := After(lib, m, answers);
            && AllServed(lib, m, answers)
            && last.state == SignPsbtWaitNext(Reached(lib.crypto, first, script).value)
            && last.noise.cipher.Some? && last.drawn == m.drawn + |script|
  {
    hide ExchangeStep, After, AllServed, Answers, Drive, Seals, Sealed, LoopStart, NeedsNonce, FingerprintAt;
    NoneServed(lib, m, []);
    if script == [] {
      AnswersSnoc(lib, seal, m, [], FingerprintReply(fingerprint));
      NoAnswers(lib, seal, m);
      LoopBegins(lib, seal, m, fingerprint, first);
      AfterSnoc(lib, m, [], Sealed(seal, m, FingerprintReply(fingerprint)));
    } else {
      var n := |script| - 1;
      Plays(lib, seal, m, fingerprint, first, script[..n]);
      var replies, next := Replies(fingerprint, script[..n]), script[n].next.value;
      var answers := Answers(lib, seal, m, replies);
      var before := After(lib, m, answers);
      AnswersSnoc(lib, seal, m, replies, NextReply(next));
      LoopRound(lib, seal, before, next);
      AfterSnoc(lib, m, answers, Sealed(seal, before, NextReply(next)));
      RoundIsMeant(lib, m.drawn, first, script);
    }
  }

  lemma NoAnswers(lib: BitBox.Library, seal: (Bytes, BitBox.Reply) -> Bytes, m: Machine)
    ensures Answers(lib, seal, m, []) == [] && After(lib, m, []) == m && AllServed(lib, m, [])
    ensures forall fingerprint :: [] + [FingerprintReply(fingerprint)] == Replies(fingerprint, [])
  {
  }

  lemma RoundIsMeant(lib: BitBox.Library, drawn: nat, first: Ctx, script: seq<Event>)
    requires script != [] && Playable(lib, drawn, first.tx, script) && Reached(lib.crypto, first, script).Some?
    ensures var n := |script| - 1;
            var before := Reached(lib.crypto, first, script[..n]);
            && before.Some?
            && Drive(lib.crypto, before.value, Event(script[n].next, lib.hostNonce(drawn + n), true))
               == Drive(lib.crypto, before.value, script[n])
            && Drive(lib.crypto, before.value, script[n]).Continue?
            && Drive(lib.crypto, before.value, script[n]).ctx == Reached(lib.crypto, first, script).value
  {
    hide *;
    var n := |script| - 1;
    LastReached(lib.crypto, first, script);
    SameToItself(first.tx, script[..n]);
    ReachesAlike(lib.crypto, first, script[..n], script[..n]);
    LastIsSame(lib, drawn, first.tx, script);
    DrivesAlike(lib.crypto, Reached(lib.crypto, first, script[..n]).value, script[n], Event(script[n].next, lib.hostNonce(drawn + n), true));
  }

  lemma LastReached(lib: Crypto, first: Ctx, events: seq<Event>)
    requires events != [] && Reached(lib, first, events).Some?
    ensures var n := |events| - 1;
            var before := Reached(lib, first, events[..n]);
            && before.Some? && Drive(lib, before.value, events[n]).Continue?
            && Drive(lib, before.value, events[n]).ctx == Reached(lib, first, events).value
  {
    hide Drive;
  }

  lemma LastIsSame(lib: BitBox.Library, drawn: nat, tx: Transaction, script: seq<Event>)
    requires script != [] && Playable(lib, drawn, tx, script)
    ensures var n := |script| - 1;
            SameEvent(tx, script[n], Event(script[n].next, lib.hostNonce(drawn + n), true))
  {
    hide NeedsNonce;
  }

  lemma SameToItself(tx: Transaction, events: seq<Event>)
    ensures forall i :: 0 <= i < |events| ==> SameEvent(tx, events[i], events[i])
  {
    hide NeedsNonce;
  }

  /** And the reply after it has the effect of its round. */
  lemma PlaysLast(lib: BitBox.Library, seal: (Bytes, BitBox.Reply) -> Bytes, m: Machine, fingerprint: Bytes, first: Ctx,
                  script: seq<Event>, next: Next)
    requires Seals(lib, seal) && m.noise.cipher.Some? && m.state.SignPsbtWaitFingerprint?
    requires LoopStart(m.state.psbt, m.state.force, m.state.policy, fingerprint) == Some(first)
    requires Playable(lib, m.drawn, first.tx, script) && Reached(lib.crypto, first, script).Some? && next.kind != Input
    ensures var t := TalkWith(lib, m, Answers(lib, seal, m, Replies(fingerprint, script) + [NextReply(next)]));
            match Drive(lib.crypto, Reached(lib.crypto, first, script).value, Event(Some(next), None, true))
            case Continue(_, _) => true
            case Signed(psbt) => t.ended == Some(Ok(())) && t.s.state == Finished(SignedPsbt(psbt))
            case Fail => t.ended == Some(Err(SigningFailed))
            case Panic => t.ended == Some(Err(Panicked))
  {
    hide *;
    CanBeSaid(lib, m.drawn, first.tx, script);
    Plays(lib, seal, m, fingerprint, first, script);
    var answers := Answers(lib, seal, m, Replies(fingerprint, script));
    var last := After(lib, m, answers);
    AnswersSnoc(lib, seal, m, Replies(fingerprint, script), NextReply(next));
    LoopRound(lib, seal, last, next);
    var data := Sealed(seal, last, NextReply(next));
    TalkEnds(lib, m, answers, data);
    NotServed(ExchangeStep(lib, last, data));
    NonceIsUnused(last.state.ctx.tx, next, lib.hostNonce(last.drawn));
    DrivesAlike(lib.crypto, last.state.ctx, Event(Some(next), lib.hostNonce(last.drawn), true), Event(Some(next), None, true));
  }

  lemma CanBeSaid(lib: BitBox.Library, drawn: nat, tx: Transaction, script: seq<Event>)
    requires Playable(lib, drawn, tx, script)
    ensures forall i :: 0 <= i < |script| ==> script[i].next.Some?
  {
  }

  lemma NonceIsUnused(tx: Transaction, next: Next, nonce: Option<Bytes>)
    requires next.kind != Input
    ensures SameEvent(tx, Event(Some(next), nonce, true), Event(Some(next), None, true))
  {
  }

  // ---- an honest device ----

  /** The whole script of an honest device: pass 1, pass 2, and that all is done. */
  function Script(tx: Transaction, pass1: seq<Event>, dev: Honest): seq<Event>
    requires |tx.inputs| == |dev.signatures| == |dev.nonces| == |dev.commitments|
  {
    pass1 + Pass2(tx, dev, |tx.inputs|)
  }

  /** With an honest device SIGN PSBT ends, from its first request on, with the original PSBT in
      which every input holds its signature under its key, if and only if all of them can be
      parsed. */
  lemma {:induction false} HonestSigning(lib: BitBox.Library, seal: (Bytes, BitBox.Reply) -> Bytes, m: Machine, psbt: BitBoxSign.Psbt,
                                         force: Option<ScriptConfig>, policy: Option<PolicyInfo>, fingerprint: Bytes, first: Ctx,
                                         pass1: seq<Event>, dev: Honest)
    requires m.noise.cipher.Some? && Seals(lib, seal)
    requires LoopStart(psbt, force, policy, fingerprint) == Some(first) && first.tx.inputs != []
    requires HonestPass1(first.tx, pass1) && (exists i :: 0 <= i < |pass1| && EndsPass1(first.tx, pass1[i]))
    requires HonestFor(lib.crypto, first.tx, dev) && Playable(lib, m.drawn, first.tx, Script(first.tx, pass1, dev))
    ensures var (s, sent) := BitBox.Start(lib, m, SignPsbt(psbt, force, policy));
            var n := |first.tx.inputs|;
            var done := AskFor(first.tx, dev, n).next.value;
            var replies := Replies(fingerprint, Script(first.tx, pass1, dev)) + [NextReply(done)];
            var t := TalkWith(lib, s, Answers(lib, seal, s, replies));
            && sent.Ok? && n == |first.keys|
            && (t.ended == Some(Ok(())) <==>
                forall i :: 0 <= i < n ==> ParseFor(lib.crypto.parsers, first.keys[i], dev.signatures[i]).Some?)
            && (t.ended == Some(Ok(())) ==>
                  && t.s.state.Finished? && t.s.state.response.SignedPsbt?
                  && var signed := t.s.state.response.psbt;
                     && signed == psbt.(inputs := signed.inputs)
                     && SignaturesApplied(lib.crypto.parsers, psbt.inputs, dev.signatures, first.keys, signed.inputs))
  {
    hide *;
    StartsSigning(lib, m, psbt, force, policy);
    var s := BitBox.Start(lib, m, SignPsbt(psbt, force, policy)).0;
    FirstIsLowered(psbt, force, policy, fingerprint, first);
    HonestSizes(lib.crypto, first.tx, dev);
    var script := Script(first.tx, pass1, dev);
    var n := |first.tx.inputs|;
    ScriptIs(first.tx, pass1, dev);
    HonestDevice(lib.crypto, first, pass1, dev);
    DoneIsNoInput(first.tx, dev);
    PlaysLast(lib, seal, s, fingerprint, first, script, AskFor(first.tx, dev, n).next.value);
    var ctx := Reached(lib.crypto, first, script).value;
    match Drive(lib.crypto, ctx, AskFor(first.tx, dev, n)) {
      case Signed(signed) =>
        AppliedParses(lib.crypto.parsers, psbt.inputs, dev.signatures, first.keys, signed.inputs);
      case Fail =>
    }
  }

  lemma StartsSigning(lib: BitBox.Library, m: Machine, psbt: BitBoxSign.Psbt, force: Option<ScriptConfig>, policy: Option<PolicyInfo>)
    requires m.noise.cipher.Some?
    ensures var (s, sent) := BitBox.Start(lib, m, SignPsbt(psbt, force, policy));
            && sent.Ok? && s.state == SignPsbtWaitFingerprint(psbt, force, policy) && s.noise.cipher.Some? && s.drawn == m.drawn
  {
  }

  lemma FirstIsLowered(psbt: BitBoxSign.Psbt, force: Option<ScriptConfig>, policy: Option<PolicyInfo>, fingerprint: Bytes, first: Ctx)
    requires LoopStart(psbt, force, policy, fingerprint) == Some(first)
    ensures Initial(first) && ConfigsInRange(first.tx) && first.psbt == psbt
    ensures |psbt.inputs| >= |first.tx.inputs| == |first.keys|
  {
    hide Lower, Lowered, ForcedConfig, CannotLower;
    var forced := ForcedConfig(force, policy, fingerprint).value;
    LowerIs(fingerprint, psbt, forced);
    LoweredInRange(fingerprint, psbt, forced, first.tx, first.keys);
  }

  lemma HonestSizes(lib: Crypto, tx: Transaction, dev: Honest)
    requires HonestFor(lib, tx, dev)
    ensures |tx.inputs| == |dev.signatures| == |dev.nonces| == |dev.commitments|
  {
    hide VerifyEcdsa, Schnorr;
  }

  lemma ScriptIs(tx: Transaction, pass1: seq<Event>, dev: Honest)
    requires |tx.inputs| == |dev.signatures| == |dev.nonces| == |dev.commitments|
    ensures Script(tx, pass1, dev) == pass1 + Pass2(tx, dev, |tx.inputs|)
    ensures tx.inputs != [] ==> |tx.inputs| > 0
  {
  }

  lemma DoneIsNoInput(tx: Transaction, dev: Honest)
    requires |tx.inputs| == |dev.signatures| == |dev.nonces|
    ensures var done := AskFor(tx, dev, |tx.inputs|);
            done == Event(done.next, None, true) && done.next.Some? && done.next.value.kind != Input
  {
  }

  lemma AppliedParses<T>(lib: BitBoxSign.Library, before: seq<PsbtInput<T>>, signatures: seq<Bytes>, keys: seq<OurKey>, after: seq<PsbtInput<T>>)
    requires SignaturesApplied(lib, before, signatures, keys, after) && |signatures| == |keys| <= |before|
    ensures forall i :: 0 <= i < |keys| ==> ParseFor(lib, keys[i], signatures[i]).Some?
  {
    hide ParseFor;
  }

  // ---- inputs that stop the program ----

  /** The output behind the last one, asked for as soon as the loop begins. */
  lemma {:induction false} OutputStops(lib: BitBox.Library, seal: (Bytes, BitBox.Reply) -> Bytes, m: Machine, psbt: BitBoxSign.Psbt,
                                       force: Option<ScriptConfig>, policy: Option<PolicyInfo>, fingerprint: Bytes, first: Ctx)
    requires m.noise.cipher.Some? && Seals(lib, seal) && LoopStart(psbt, force, policy, fingerprint) == Some(first)
    ensures var s := BitBox.Start(lib, m, SignPsbt(psbt, force, policy)).0;
            var replies := [FingerprintReply(fingerprint), NextReply(Next(Output, |first.tx.outputs|, 0, false, [], None))];
            TalkWith(lib, s, Answers(lib, seal, s, replies)).ended == Some(Err(Panicked))
  {
    hide *;
    StartsSigning(lib, m, psbt, force, policy);
    FirstIsLowered(psbt, force, policy, fingerprint, first);
    OutputBehindLast(lib.crypto, first, None, true);
    NothingPlayed(lib, m.drawn, first.tx, fingerprint);
    var s := BitBox.Start(lib, m, SignPsbt(psbt, force, policy)).0;
    var next := Next(Output, |first.tx.outputs|, 0, false, [], None);
    PlaysLast(lib, seal, s, fingerprint, first, [], next);
    assert [FingerprintReply(fingerprint)] + [NextReply(next)] == [FingerprintReply(fingerprint), NextReply(next)];
  }

  lemma NothingPlayed(lib: BitBox.Library, drawn: nat, tx: Transaction, fingerprint: Bytes)
    ensures Playable(lib, drawn, tx, []) && Replies(fingerprint, []) == [FingerprintReply(fingerprint)]
  {
  }

  /** A signature of fewer than 32 bytes, after a commitment, for a last input that needs the
      anti-klepto check. */
  lemma {:induction false} SignatureStops(lib: BitBox.Library, seal: (Bytes, BitBox.Reply) -> Bytes, m: Machine, psbt: BitBoxSign.Psbt,
                                          force: Option<ScriptConfig>, policy: Option<PolicyInfo>, fingerprint: Bytes, first: Ctx,
                                          nonce: Bytes, commitment: Bytes, signature: Bytes)
    requires m.noise.cipher.Some? && Seals(lib, seal) && LoopStart(psbt, force, policy, fingerprint) == Some(first)
    requires first.tx.inputs != [] && !Schnorr(first.tx, |first.tx.inputs| - 1)
    requires lib.hostNonce(m.drawn + 1) == Some(nonce) && lib.crypto.point(commitment, nonce).Some? && |signature| < 32
    ensures var s := BitBox.Start(lib, m, SignPsbt(psbt, force, policy)).0;
            var sign := NextReply(Next(Input, |first.tx.inputs| - 1, 0, false, [], None));
            var replies := [FingerprintReply(fingerprint), sign, sign, NextReply(Next(HostNonce, 0, 0, false, [], Some(commitment))),
                            NextReply(Next(Done, 0, 0, true, signature, None))];
            TalkWith(lib, s, Answers(lib, seal, s, replies)).ended == Some(Err(Panicked))
  {
    hide *;
    StartsSigning(lib, m, psbt, force, policy);
    FirstIsLowered(psbt, force, policy, fingerprint, first);
    var s := BitBox.Start(lib, m, SignPsbt(psbt, force, policy)).0;
    var i := |first.tx.inputs| - 1;
    var script := [Sign(i, lib.hostNonce(m.drawn)), Sign(i, Some(nonce)), Commits(commitment)];
    ShortSignature(lib.crypto, first, lib.hostNonce(m.drawn), nonce, commitment, signature);
    ShortScript(lib, m.drawn, first.tx, fingerprint, i, nonce, commitment);
    var next := Next(Done, 0, 0, true, signature, None);
    AskIs(signature);
    PlaysLast(lib, seal, s, fingerprint, first, script, next);
    var sign := NextReply(Next(Input, i, 0, false, [], None));
    assert [FingerprintReply(fingerprint), sign, sign, NextReply(Next(HostNonce, 0, 0, false, [], Some(commitment)))] + [NextReply(next)]
        == [FingerprintReply(fingerprint), sign, sign, NextReply(Next(HostNonce, 0, 0, false, [], Some(commitment))), NextReply(next)];
  }

  lemma AskIs(signature: Bytes)
    ensures Ask(Done, 0, signature) == Event(Some(Next(Done, 0, 0, true, signature, None)), None, true)
  {
  }

  lemma ShortScript(lib: BitBox.Library, drawn: nat, tx: Transaction, fingerprint: Bytes, i: nat, nonce: Bytes, commitment: Bytes)
    requires lib.hostNonce(drawn + 1) == Some(nonce)
    ensures var script := [Sign(i, lib.hostNonce(drawn)), Sign(i, Some(nonce)), Commits(commitment)];
            var sign := NextReply(Next(Input, i, 0, false, [], None));
            && Playable(lib, drawn, tx, script)
            && Replies(fingerprint, script) == [FingerprintReply(fingerprint), sign, sign,
                                                NextReply(Next(HostNonce, 0, 0, false, [], Some(commitment)))]
  {
    hide NeedsNonce;
    DoesNotAsk(tx, commitment);
    var one, two := Sign(i, lib.hostNonce(drawn)), Sign(i, Some(nonce));
    RepliesSnoc(fingerprint, [], one);
    RepliesSnoc(fingerprint, [one], two);
    RepliesSnoc(fingerprint, [one, two], Commits(commitment));
    assert [] + [one] == [one] && [one] + [two] == [one, two] && [one, two] + [Commits(commitment)] == [one, two, Commits(commitment)];
  }

  lemma RepliesSnoc(fingerprint: Bytes, script: seq<Event>, event: Event)
    requires event.next.Some? && forall i :: 0 <= i < |script| ==> script[i].next.Some?
    ensures Replies(fingerprint, script + [event]) == Replies(fingerprint, script) + [NextReply(event.next.value)]
  {
    assert (script + [event])[..|script|] == script;
  }

  lemma DoesNotAsk(tx: Transaction, commitment: Bytes)
    ensures !NeedsNonce(tx, Commits(commitment))
  {
  }

  /** A valid message signature with a recovery id of 225 or more, where overflow is checked. */
  lemma {:induction false} RecoveryIdStops(lib: BitBox.Library, seal: (Bytes, BitBox.Reply) -> Bytes, m: Machine,
                                           message: Bytes, simple: SimpleType, keypath: KeyPath,
                                           nonce: Bytes, commitment: Bytes, signature: Bytes)
    requires m.noise.cipher.Some? && Seals(lib, seal) && lib.hostNonce(m.drawn) == Some(nonce)
    requires lib.checks && |signature| == 65 && signature[64] >= 225
    requires VerifyEcdsa(lib.crypto, nonce, commitment, signature) == Accepted
    requires lib.crypto.parsers.compact(signature[..64]).Some?
    ensures var s := BitBox.Start(lib, m, SignMessage(message, simple, keypath)).0;
            TalkWith(lib, s, Answers(lib, seal, s, [CommitmentReply(commitment), MessageReply(signature)])).ended == Some(Err(Panicked))
  {
    hide ExchangeStep, TalkWith, After, AllServed, Answers, Seals, Sealed, DecodedReply, VerifyEcdsa;
    var s := BitBox.Start(lib, m, SignMessage(message, simple, keypath)).0;
    NoAnswers(lib, seal, s);
    AnswersSnoc(lib, seal, s, [], CommitmentReply(commitment));
    var data1 := Sealed(seal, s, CommitmentReply(commitment));
    Commit(lib, seal, s, commitment);
    AfterSnoc(lib, s, [], data1);
    var m1 := ExchangeStep(lib, s, data1).0;
    assert [] + [data1] == [data1] && [] + [CommitmentReply(commitment)] == [CommitmentReply(commitment)];
    AnswersSnoc(lib, seal, s, [CommitmentReply(commitment)], MessageReply(signature));
    assert [CommitmentReply(commitment)] + [MessageReply(signature)] == [CommitmentReply(commitment), MessageReply(signature)];
    var data2 := Sealed(seal, m1, MessageReply(signature));
    Hears(lib, seal, m1, MessageReply(signature));
    MessagePanicsExactly(lib, s, data1, data2);
    TalkEnds(lib, s, [data1], data2);
  }

  lemma Commit(lib: BitBox.Library, seal: (Bytes, BitBox.Reply) -> Bytes, m: Machine, commitment: Bytes)
    requires Seals(lib, seal) && m.noise.cipher.Some? && m.state.SignMessageWaitCommitment?
    ensures var step := ExchangeStep(lib, m, Sealed(seal, m, CommitmentReply(commitment)));
            && Served(step) && step.0.noise.cipher.Some?
            && ReplyTo(lib, m, Sealed(seal, m, CommitmentReply(commitment))) == Ok(CommitmentReply(commitment))
  {
    hide DecodedReply, Sealed, Seals, OnQuery, OnFingerprint, OnNext, OnMessageSignature, OnDescriptorFingerprint, OnManagement,
         StartHandshake, OnHandshake, FinalizeHandshake, ConfirmPairing;
    Hears(lib, seal, m, CommitmentReply(commitment));
  }
}
