/** What a device is told in a whole SIGN PSBT session, from the PSBT on, and how its signatures
    are checked. */
module BitBoxSessions {
  import opened Common
  import opened Driver
  import opened PsbtFields
  import opened BitBoxSign
  import opened SignLoop
  import opened BitBoxLowering
  import opened SignAnswers
  import opened BitBox
  import opened BitBoxCommands

  // ---- where a session starts ----

  /** The first key of a policy with this fingerprint, and the path that it has. */
  ghost predicate PolicyPathIs(policy: PolicyInfo, fingerprint: Bytes, path: KeyPath) {
    exists j: nat :: FirstPolicyKey(policy.keys, fingerprint, j) && policy.keys[j].path == Some(path)
  }

  ghost predicate FirstPolicyKey(keys: seq<PolicyKey>, fingerprint: Bytes, j: nat) {
    j < |keys| && keys[j].fingerprint == Some(fingerprint) && forall i :: 0 <= i < j ==> keys[i].fingerprint != Some(fingerprint)
  }

  lemma {:induction false} PolicyKeyFound(keys: seq<PolicyKey>, fingerprint: Bytes)
    ensures OurPolicyKey(keys, fingerprint).Some? ==>
              exists j: nat :: FirstPolicyKey(keys, fingerprint, j) && OurPolicyKey(keys, fingerprint) == Some(keys[j])
    ensures OurPolicyKey(keys, fingerprint).None? ==> forall k :: k in keys ==> k.fingerprint != Some(fingerprint)
  {
    if keys != [] {
      var rest := keys[1..];
      assert keys == [keys[0]] + rest;
      if keys[0].fingerprint == Some(fingerprint) {
        assert FirstPolicyKey(keys, fingerprint, 0);
      } else {
        PolicyKeyFound(rest, fingerprint);
        if OurPolicyKey(rest, fingerprint).Some? {
          var j: nat :| FirstPolicyKey(rest, fingerprint, j) && OurPolicyKey(rest, fingerprint) == Some(rest[j]);
          assert FirstPolicyKey(keys, fingerprint, j + 1) && keys[j + 1] == rest[j];
        }
      }
    }
  }

  lemma {:induction false} PolicyPathFound(policy: PolicyInfo, fingerprint: Bytes, path: KeyPath)
    ensures AccountPath(policy, fingerprint) == Some(path) <==> PolicyPathIs(policy, fingerprint, path)
  {
    hide OurPolicyKey;
    PolicyKeyFound(policy.keys, fingerprint);
    if OurPolicyKey(policy.keys, fingerprint).Some? {
      var j: nat :| FirstPolicyKey(policy.keys, fingerprint, j) && OurPolicyKey(policy.keys, fingerprint) == Some(policy.keys[j]);
      forall k: nat | FirstPolicyKey(policy.keys, fingerprint, k) ensures k == j {
      }
    }
  }

  /** The config that is forced: the one given; or that of the policy, at the path of our key
      in it; or none. */
  ghost predicate IsForced(force: Option<ScriptConfig>, policy: Option<PolicyInfo>, fingerprint: Bytes, forced: Option<ScriptConfig>) {
    if force.Some? || policy.None? then forced == force
    else forced.Some? && forced.value.config == Policy(policy.value.text) && PolicyPathIs(policy.value, fingerprint, forced.value.keypath)
  }

  lemma {:induction false} ForcedIs(force: Option<ScriptConfig>, policy: Option<PolicyInfo>, fingerprint: Bytes, forced: Option<ScriptConfig>)
    ensures ForcedConfig(force, policy, fingerprint) == Ok(forced) <==> IsForced(force, policy, fingerprint, forced)
  {
    hide AccountPath, PolicyPathIs;
    if force.None? && policy.Some? {
      if forced.Some? {
        PolicyPathFound(policy.value, fingerprint, forced.value.keypath);
      }
    }
  }

  /** The loop starts with the PSBT lowered for the fingerprint, under the forced config. */
  lemma StartIsLowered(psbt: BitBoxSign.Psbt, force: Option<ScriptConfig>, policy: Option<PolicyInfo>, fingerprint: Bytes,
                       first: Ctx, forced: Option<ScriptConfig>)
    requires LoopStart(psbt, force, policy, fingerprint) == Some(first) && IsForced(force, policy, fingerprint, forced)
    ensures Lower(fingerprint, psbt, forced) == Some((first.tx, first.keys)) && first.psbt == psbt
    ensures Initial(first)
  {
    hide Lower, ForcedConfig, IsForced;
    ForcedIs(force, policy, fingerprint, forced);
  }

  // ---- what is sent ----

  /** The answer to `data` is this request, under the host's cipher as it is then. */
  ghost predicate Sends(lib: BitBox.Library, m: Machine, data: Bytes, request: BitBox.Request) {
    var cipher := DecodedReply(lib, m.(state := New), data).0.noise.cipher;
    && cipher.Some?
    && ExchangeStep(lib, m, data).1 == Ok(Some(Transmit(ToDevice, [0x6E] + lib.encrypt(cipher.value, lib.encode(request)).1, true)))
  }

  lemma FirstSends(lib: BitBox.Library, m: Machine, data: Bytes)
    requires m.state.SignPsbtWaitFingerprint? && Served(ExchangeStep(lib, m, data))
    ensures var first := LoopStart(m.state.psbt, m.state.force, m.state.policy, FingerprintAt(lib, m, data));
            && first.Some? && ExchangeStep(lib, m, data).0.state == SignPsbtWaitNext(first.value)
            && Sends(lib, m, data, SignInitRequest(first.value.tx)) && EventAt(lib, m, data) == []
  {
    hide DecodedReply, Lower, ForcedConfig;
  }

  lemma LoopSends(lib: BitBox.Library, m: Machine, data: Bytes)
    requires m.state.SignPsbtWaitNext? && Served(ExchangeStep(lib, m, data))
    ensures |EventAt(lib, m, data)| == 1
    ensures var step := Drive(lib.crypto, m.state.ctx, EventAt(lib, m, data)[0]);
            && step.Continue? && ExchangeStep(lib, m, data).0.state == SignPsbtWaitNext(step.ctx)
            && Sends(lib, m, data, SignLoopRequest(step.request))
  {
    hide DecodedReply, Drive;
  }

  /** What a session sends: first the transaction as it was lowered, and then, answer by
      answer, what the loop asks the device. */
  ghost predicate TellsSession(lib: BitBox.Library, m: Machine, answers: seq<Bytes>, first: Ctx)
    requires answers != []
  {
    var events := EventsOf(lib, m, answers);
    var asked := Asked(lib.crypto, first, events);
    && After(lib, m, answers).state.SignPsbtWaitNext?
    && Reached(lib.crypto, first, events) == Some(After(lib, m, answers).state.ctx)
    && |events| == |asked| == |answers| - 1
    && Sends(lib, m, answers[0], SignInitRequest(first.tx))
    && forall i :: 0 <= i < |events| ==> TellsAt(lib, m, answers, asked, i)
  }

  ghost predicate TellsAt(lib: BitBox.Library, m: Machine, answers: seq<Bytes>, asked: seq<SignLoop.Request>, i: nat)
    requires i + 1 < |answers| && i < |asked|
  {
    Sends(lib, After(lib, m, answers[..i + 1]), answers[i + 1], SignLoopRequest(asked[i]))
  }

  lemma TellsStill(lib: BitBox.Library, m: Machine, answers: seq<Bytes>, more: seq<Bytes>, asked: seq<SignLoop.Request>,
                   asked': seq<SignLoop.Request>, i: nat)
    requires i + 1 < |answers| && i < |asked| && answers <= more && asked <= asked' && TellsAt(lib, m, answers, asked, i)
    ensures TellsAt(lib, m, more, asked', i)
  {
    hide Sends, After;
    assert more[..i + 1] == answers[..i + 1];
  }

  lemma {:induction false} SessionTells(lib: BitBox.Library, m: Machine, answers: seq<Bytes>, first: Ctx)
    requires m.state.SignPsbtWaitFingerprint? && answers != [] && AllServed(lib, m, answers)
    requires LoopStart(m.state.psbt, m.state.force, m.state.policy, FingerprintAt(lib, m, answers[0])) == Some(first)
    ensures TellsSession(lib, m, answers, first)
  {
    hide ExchangeStep, Sends, LoopStart, FingerprintAt, Drive, TellsAt, EventAt, Served;
    var n := |answers| - 1;
    var init := answers[..n];
    if n == 0 {
      FirstTells(lib, m, answers[0], first);
      assert answers == [answers[0]];
    } else {
      SessionTells(lib, m, init, first);
      var before := After(lib, m, init);
      var events := EventsOf(lib, m, init);
      var asked := Asked(lib.crypto, first, events);
      LoopSends(lib, before, answers[n]);
      var event := EventAt(lib, before, answers[n])[0];
      ReachedSnoc(lib.crypto, first, events, event);
      AskedSnoc(lib.crypto, first, events, event);
      assert EventsOf(lib, m, answers) == events + [event];
      var asked' := Asked(lib.crypto, first, events + [event]);
      assert asked'[n - 1] == Drive(lib.crypto, before.state.ctx, event).request;
      assert TellsAt(lib, m, answers, asked', n - 1) by {
        LastTells(lib, m, answers, asked');
      }
      forall i | 0 <= i < n ensures TellsAt(lib, m, answers, asked', i) {
        if i < n - 1 {
          TellsStill(lib, m, init, answers, asked, asked', i);
        }
      }
    }
  }

  lemma FirstTells(lib: BitBox.Library, m: Machine, data: Bytes, first: Ctx)
    requires m.state.SignPsbtWaitFingerprint? && AllServed(lib, m, [data])
    requires LoopStart(m.state.psbt, m.state.force, m.state.policy, FingerprintAt(lib, m, data)) == Some(first)
    ensures TellsSession(lib, m, [data], first)
  {
    hide ExchangeStep, Sends, LoopStart, FingerprintAt, Drive, EventAt, Served;
    assert [data][..0] == [];
    assert After(lib, m, []) == m;
    assert EventsOf(lib, m, []) == [];
    FirstSends(lib, m, data);
    assert EventsOf(lib, m, [data]) == [];
    StartsReached(first, lib.crypto);
  }

  lemma StartsReached(first: Ctx, lib: Crypto)
    ensures Reached(lib, first, []) == Some(first) && Asked(lib, first, []) == []
  {
  }

  lemma LastTells(lib: BitBox.Library, m: Machine, answers: seq<Bytes>, asked: seq<SignLoop.Request>)
    requires |answers| >= 2 && |asked| == |answers| - 1
    requires Sends(lib, After(lib, m, answers[..|answers| - 1]), answers[|answers| - 1], SignLoopRequest(asked[|answers| - 2]))
    ensures TellsAt(lib, m, answers, asked, |answers| - 2)
  {
    hide Sends, After;
  }

  lemma AskedSnoc(lib: Crypto, start: Ctx, events: seq<Event>, event: Event)
    requires Reached(lib, start, events).Some? && Drive(lib, Reached(lib, start, events).value, event).Continue?
    ensures Asked(lib, start, events + [event]) ==
            Asked(lib, start, events) + [Drive(lib, Reached(lib, start, events).value, event).request]
  {
    hide Drive;
    assert (events + [event])[..|events|] == events;
  }

  // ---- what it says about the PSBT ----

  /** A request to sign input `k` of the PSBT: its outpoint, sequence and value, the path of our
      key, and the index of a config of its own type. */
  ghost predicate SaysInput(fingerprint: Bytes, psbt: BitBoxSign.Psbt, forced: bool, configs: seq<ScriptConfig>, k: nat,
                            request: SignLoop.Request) {
    && request.SignInput? && k < |psbt.txInputs| && k < |psbt.inputs|
    && var txin, info := psbt.txInputs[k], psbt.inputs[k].rest;
       && info.utxo.Some? && request.value == info.utxo.value.value
       && request.prevHash == txin.prevHash && request.prevIndex == txin.prevIndex && request.sequence == txin.sequence
       && request.configIndex < |configs|
       && exists key :: OurKeyIs(fingerprint, info.keys, key) && request.keypath == key.path
                        && if forced then request.configIndex == 0
                           else ConfigIs(info.utxo.value.script, info.redeemScript, key.path, configs[request.configIndex])
  }

  lemma InputIsSaid(fingerprint: Bytes, psbt: BitBoxSign.Psbt, forced: bool, configs: seq<ScriptConfig>, k: nat, input: TxInput,
                    key: OurKey, request: SignLoop.Request)
    requires k < |psbt.txInputs| && k < |psbt.inputs|
    requires InputIs(fingerprint, forced, psbt.txInputs[k], psbt.inputs[k].rest, configs, input, key) && DescribesInput(input, request)
    ensures SaysInput(fingerprint, psbt, forced, configs, k, request)
  {
    hide OurKeyIs, ConfigIs;
  }

  /** Everything that a device was told so far is true of the PSBT: outputs, previous
      transactions, and inputs to sign. */
  ghost predicate TrueToPsbt(fingerprint: Bytes, psbt: BitBoxSign.Psbt, forced: bool, configs: seq<ScriptConfig>,
                             events: seq<Event>, asked: seq<SignLoop.Request>)
    requires |events| == |asked| && forall i :: 0 <= i < |events| ==> events[i].next.Some?
  {
    var known := Learnt(events, asked);
    && (forall k: nat :: k in known.outputs ==> OutputIsTold(fingerprint, psbt, forced, configs, k, known.outputs[k]))
    && (forall k: nat :: PrevTxFrom(known, k).Some? ==>
          k < |psbt.inputs| && psbt.inputs[k].rest.prevTx == PrevTxFrom(known, k))
    && (forall i :: 0 <= i < |events| && events[i].next.value.kind == Input ==>
          SaysInput(fingerprint, psbt, forced, configs, events[i].next.value.index, asked[i]))
  }

  ghost predicate OutputIsTold(fingerprint: Bytes, psbt: BitBoxSign.Psbt, forced: bool, configs: seq<ScriptConfig>, k: nat,
                               output: TxOutput) {
    && k < |psbt.txOutputs| && k < |psbt.outputs|
    && OutputIs(fingerprint, forced, psbt.txOutputs[k], psbt.outputs[k], configs, output)
  }

  lemma {:induction false} LoopIsTrue(lib: Crypto, fingerprint: Bytes, psbt: BitBoxSign.Psbt, forced: Option<ScriptConfig>, first: Ctx,
                                      events: seq<Event>)
    requires Lower(fingerprint, psbt, forced) == Some((first.tx, first.keys)) && Reached(lib, first, events).Some?
    ensures |Asked(lib, first, events)| == |events| && forall i :: 0 <= i < |events| ==> events[i].next.Some?
    ensures TrueToPsbt(fingerprint, psbt, forced.Some?, first.tx.scriptConfigs, events, Asked(lib, first, events))
    ensures AsksForAll(first.tx, events) ==>
              forall k: nat :: k < |psbt.txOutputs| && k < |psbt.outputs| ==> k in Learnt(events, Asked(lib, first, events)).outputs
  {
    hide Lower, Reached, Asked, Learnt, PrevTxFrom, InputIs, OutputIs, SaysInput, DescribesInput, AsksForAll;
    var tx, asked := first.tx, Asked(lib, first, events);
    LoweringSays(fingerprint, psbt, forced);
    RunAnswers(lib, first, events);
    DeviceRebuilds(lib, first, events);
    var known := Learnt(events, asked);
    TrueIsWhole(tx, known);
    forall i | 0 <= i < |events| && events[i].next.value.kind == Input
      ensures SaysInput(fingerprint, psbt, forced.Some?, tx.scriptConfigs, events[i].next.value.index, asked[i])
    {
      var k := events[i].next.value.index;
      assert IsAnswer(tx, events[i].next.value, asked[i]);
      InputIsSaid(fingerprint, psbt, forced.Some?, tx.scriptConfigs, k, tx.inputs[k], first.keys[k], asked[i]);
    }
    forall k: nat | PrevTxFrom(known, k).Some? ensures k < |psbt.inputs| && psbt.inputs[k].rest.prevTx == PrevTxFrom(known, k) {
      PrevTxIsKept(fingerprint, forced.Some?, psbt.txInputs[k], psbt.inputs[k].rest, tx.scriptConfigs, tx.inputs[k], first.keys[k]);
    }
  }

  lemma PrevTxIsKept(fingerprint: Bytes, forced: bool, txin: TxIn, info: InputInfo, configs: seq<ScriptConfig>, input: TxInput, key: OurKey)
    requires InputIs(fingerprint, forced, txin, info, configs, input, key)
    ensures input.prevTx == info.prevTx
  {
    hide OurKeyIs, ConfigIs;
  }

  /** In every signing session, after any answers: what was sent is the transaction as lowered
      and then what the loop asked; all of it is true of the PSBT, part by part; and a device
      that asked for every part knows every output and every previous transaction. */
  lemma {:induction false} SessionIsTrue(lib: BitBox.Library, m: Machine, answers: seq<Bytes>, first: Ctx, forced: Option<ScriptConfig>)
    requires m.state.SignPsbtWaitFingerprint? && answers != [] && AllServed(lib, m, answers)
    requires LoopStart(m.state.psbt, m.state.force, m.state.policy, FingerprintAt(lib, m, answers[0])) == Some(first)
    requires IsForced(m.state.force, m.state.policy, FingerprintAt(lib, m, answers[0]), forced)
    ensures TellsSession(lib, m, answers, first)
    ensures var events := EventsOf(lib, m, answers);
            var asked := Asked(lib.crypto, first, events);
            && |asked| == |events| && (forall i :: 0 <= i < |events| ==> events[i].next.Some?)
            && TrueToPsbt(FingerprintAt(lib, m, answers[0]), m.state.psbt, forced.Some?, first.tx.scriptConfigs, events, asked)
            && (AsksForAll(first.tx, events) ==>
                  forall k: nat :: k < |m.state.psbt.txOutputs| && k < |m.state.psbt.outputs| ==> k in Learnt(events, asked).outputs)
  {
    hide Lower, Reached, Asked, Learnt, TrueToPsbt, AsksForAll, IsForced, ForcedConfig, EventsOf, After, AllServed, FingerprintAt,
         TellsAt, Sends, LoopStart;
    SessionTells(lib, m, answers, first);
    StartIsLowered(m.state.psbt, m.state.force, m.state.policy, FingerprintAt(lib, m, answers[0]), first, forced);
    LoopIsTrue(lib.crypto, FingerprintAt(lib, m, answers[0]), m.state.psbt, forced, first, EventsOf(lib, m, answers));
  }

  // ---- how its signatures are checked, and where they go ----

  /** Input `k` is signed with Schnorr signatures. */
  predicate IsSchnorrInput(psbt: BitBoxSign.Psbt, forced: Option<ScriptConfig>, k: nat) {
    if forced.Some? then IsTaproot(forced.value.config)
    else k < |psbt.inputs| && psbt.inputs[k].rest.utxo.Some? && psbt.inputs[k].rest.utxo.value.script.P2tr?
  }

  /** In the PSBT that a session returns, signature k of its rounds is in input k, in the field
      that the key of this input calls for; and it was checked against the nonce of its round,
      committed to before, unless the input that the round asked for spends a taproot output, or
      a taproot config is forced. */
  lemma {:induction false} SessionChecks(lib: BitBox.Library, m: Machine, answers: seq<Bytes>, first: Ctx, forced: Option<ScriptConfig>, k: nat)
    requires m.state.SignPsbtWaitFingerprint? && After(lib, m, answers).state.Finished? && answers != []
    requires LoopStart(m.state.psbt, m.state.force, m.state.policy, FingerprintAt(lib, m, answers[0])) == Some(first)
    requires IsForced(m.state.force, m.state.policy, FingerprintAt(lib, m, answers[0]), forced)
    ensures After(lib, m, answers).state.response.SignedPsbt? && EventsOf(lib, m, answers) != []
    ensures var events := EventsOf(lib, m, answers);
            var before := events[..|events| - 1];
            var asked, rounds := Asked(lib.crypto, first, before), Rounds(lib.crypto, first, before);
            var sigs := FinalSigs(lib.crypto, first, before, events[|events| - 1]);
            var psbt, signed := m.state.psbt, After(lib, m, answers).state.response.psbt;
            && |sigs| == |rounds| && |signed.inputs| == |psbt.inputs| && |first.keys| <= |psbt.inputs|
            && (k < |rounds| ==>
                  && rounds[k].input < |first.tx.inputs|
                  && if IsSchnorrInput(psbt, forced, rounds[k].input)
                     then Unchecked(first.tx.inputs[rounds[k].input], events, asked, rounds[k].at, sigs[k])
                     else Checked(lib.crypto, first.tx.inputs[rounds[k].input], events, asked, rounds[k].at, sigs[k]))
            && (k < |psbt.inputs| ==>
                  if k < |sigs| && k < |first.keys|
                  then Lands(lib.crypto.parsers, psbt.inputs[k], first.keys[k], sigs[k], signed.inputs[k])
                  else signed.inputs[k] == psbt.inputs[k])
  {
    hide *;
    SessionResult(lib, m, answers);
    var fingerprint := FingerprintAt(lib, m, answers[0]);
    StartIsLowered(m.state.psbt, m.state.force, m.state.policy, fingerprint, first, forced);
    SignedByIs(lib.crypto, first, EventsOf(lib, m, answers), After(lib, m, answers).state.response.psbt, k);
    KeysHaveInputs(fingerprint, m.state.psbt, forced, first);
    var events := EventsOf(lib, m, answers);
    var rounds := Rounds(lib.crypto, first, events[..|events| - 1]);
    if k < |rounds| {
      SchnorrInputIs(fingerprint, m.state.psbt, forced, first, rounds[k].input);
    }
  }

  lemma KeysHaveInputs(fingerprint: Bytes, psbt: BitBoxSign.Psbt, forced: Option<ScriptConfig>, first: Ctx)
    requires Lower(fingerprint, psbt, forced) == Some((first.tx, first.keys))
    ensures |first.keys| <= |psbt.inputs|
  {
    hide Lower, InputIs, OutputIs;
    LoweringSays(fingerprint, psbt, forced);
  }

  lemma SchnorrInputIs(fingerprint: Bytes, psbt: BitBoxSign.Psbt, forced: Option<ScriptConfig>, first: Ctx, i: nat)
    requires Lower(fingerprint, psbt, forced) == Some((first.tx, first.keys)) && i < |first.tx.inputs|
    ensures Schnorr(first.tx, i) <==> IsSchnorrInput(psbt, forced, i)
  {
    hide Lower, Schnorr, IsTaproot;
    SchnorrIs(fingerprint, psbt, forced, i);
  }

  lemma SignedByIs(lib: Crypto, first: Ctx, events: seq<Event>, signed: BitBoxSign.Psbt, k: nat)
    requires events != [] && SignedBy(lib, first, events, signed)
    ensures var before := events[..|events| - 1];
            var asked, rounds := Asked(lib, first, before), Rounds(lib, first, before);
            var sigs := FinalSigs(lib, first, before, events[|events| - 1]);
            && |sigs| == |rounds| && |signed.inputs| == |first.psbt.inputs|
            && (k < |rounds| ==>
                  && rounds[k].input < |first.tx.inputs|
                  && if Schnorr(first.tx, rounds[k].input)
                     then Unchecked(first.tx.inputs[rounds[k].input], events, asked, rounds[k].at, sigs[k])
                     else Checked(lib, first.tx.inputs[rounds[k].input], events, asked, rounds[k].at, sigs[k]))
            && (k < |first.psbt.inputs| ==>
                  if k < |sigs| && k < |first.keys|
                  then Lands(lib.parsers, first.psbt.inputs[k], first.keys[k], sigs[k], signed.inputs[k])
                  else signed.inputs[k] == first.psbt.inputs[k])
  {
    hide Asked, Rounds, FinalSigs, Yielded, Schnorr, Checked, Unchecked, Lands, SignaturesApplied;
    var before := events[..|events| - 1];
    var asked, rounds := Asked(lib, first, before), Rounds(lib, first, before);
    var sigs := FinalSigs(lib, first, before, events[|events| - 1]);
    AppliedLands(lib.parsers, first.psbt.inputs, sigs, first.keys, signed.inputs);
    if k < |rounds| {
      RoundIsChecked(lib, first.tx, events, asked, rounds[k], sigs[k]);
    }
  }
}
