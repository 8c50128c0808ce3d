/** What a lowered transaction says, read off the PSBT alone. */
module BitBoxLowering {
  import opened Common
  import opened PsbtFields
  import opened BitBoxSign
  import opened SignLoop

  // ---- our key ----

  /** Origin `j` is the first one of this fingerprint. */
  ghost predicate FirstTap(fingerprint: Bytes, origins: seq<TapOrigin>, j: nat) {
    j < |origins| && origins[j].fingerprint == fingerprint && forall i :: 0 <= i < j ==> origins[i].fingerprint != fingerprint
  }

  ghost predicate FirstBip32(fingerprint: Bytes, origins: seq<Bip32Origin>, j: nat) {
    j < |origins| && origins[j].fingerprint == fingerprint && forall i :: 0 <= i < j ==> origins[i].fingerprint != fingerprint
  }

  /** A taproot origin of ours tells the key if it is the internal key and in no leaf, or
      another one and in exactly one leaf. */
  ghost predicate TapKeyIs(info: KeyInfo, o: TapOrigin, key: OurKey) {
    if info.tapInternalKey == Some(o.xonly) then o.leafHashes == [] && key == TaprootInternal(o.path)
    else |o.leafHashes| == 1 && key == TaprootScript(o.xonly, o.leafHashes[0], o.path)
  }

  /** The key is that of the first taproot origin with our fingerprint, and of the first other
      origin with it if there is none. */
  ghost predicate OurKeyIs(fingerprint: Bytes, info: KeyInfo, key: OurKey) {
    || (exists j: nat :: FirstTap(fingerprint, info.tapOrigins, j) && TapKeyIs(info, info.tapOrigins[j], key))
    || ((forall o :: o in info.tapOrigins ==> o.fingerprint != fingerprint)
        && exists j: nat :: FirstBip32(fingerprint, info.bip32, j) && key == Segwit(info.bip32[j].pubkey, info.bip32[j].path))
  }

  lemma {:induction false} TapKeyFound(fingerprint: Bytes, origins: seq<TapOrigin>, internalKey: Option<Bytes>)
    ensures FindTapKey(fingerprint, origins, internalKey).None? <==> forall o :: o in origins ==> o.fingerprint != fingerprint
    ensures FindTapKey(fingerprint, origins, internalKey).Some? ==>
              exists j: nat :: FirstTap(fingerprint, origins, j)
                          && FindTapKey(fingerprint, origins, internalKey) == FindTapKey(fingerprint, [origins[j]], internalKey)
  {
    if origins != [] {
      var rest := origins[1..];
      assert origins == [origins[0]] + rest;
      if origins[0].fingerprint == fingerprint {
        assert FirstTap(fingerprint, origins, 0);
      } else {
        TapKeyFound(fingerprint, rest, internalKey);
        if FindTapKey(fingerprint, rest, internalKey).Some? {
          var j: nat :| FirstTap(fingerprint, rest, j)
                   && FindTapKey(fingerprint, rest, internalKey) == FindTapKey(fingerprint, [rest[j]], internalKey);
          assert FirstTap(fingerprint, origins, j + 1) && origins[j + 1] == rest[j];
        }
      }
    }
  }

  lemma OneTapKey(fingerprint: Bytes, info: KeyInfo, o: TapOrigin, key: OurKey)
    requires o.fingerprint == fingerprint
    ensures FindTapKey(fingerprint, [o], info.tapInternalKey) == Some(Ok(key)) <==> TapKeyIs(info, o, key)
  {
  }

  lemma {:induction false} SegwitKeyFound(fingerprint: Bytes, origins: seq<Bip32Origin>)
    ensures FindSegwitKey(fingerprint, origins).Err? <==> forall o :: o in origins ==> o.fingerprint != fingerprint
    ensures FindSegwitKey(fingerprint, origins).Ok? ==>
              exists j: nat :: FirstBip32(fingerprint, origins, j)
                          && FindSegwitKey(fingerprint, origins) == Ok(Segwit(origins[j].pubkey, origins[j].path))
  {
    if origins != [] {
      var rest := origins[1..];
      assert origins == [origins[0]] + rest;
      if origins[0].fingerprint == fingerprint {
        assert FirstBip32(fingerprint, origins, 0);
      } else {
        SegwitKeyFound(fingerprint, rest);
        if FindSegwitKey(fingerprint, rest).Ok? {
          var j: nat :| FirstBip32(fingerprint, rest, j)
                   && FindSegwitKey(fingerprint, rest) == Ok(Segwit(rest[j].pubkey, rest[j].path));
          assert FirstBip32(fingerprint, origins, j + 1) && origins[j + 1] == rest[j];
        }
      }
    }
  }

  /** `find_our_key` finds exactly this key. */
  lemma {:induction false} OurKeyIsFound(fingerprint: Bytes, info: KeyInfo, key: OurKey)
    ensures FindOurKey(fingerprint, info) == Ok(key) <==> OurKeyIs(fingerprint, info, key)
  {
    hide FindTapKey, FindSegwitKey, TapKeyIs;
    TapKeyFound(fingerprint, info.tapOrigins, info.tapInternalKey);
    SegwitKeyFound(fingerprint, info.bip32);
    var found := FindTapKey(fingerprint, info.tapOrigins, info.tapInternalKey);
    if found.Some? {
      var j: nat :| FirstTap(fingerprint, info.tapOrigins, j) && found == FindTapKey(fingerprint, [info.tapOrigins[j]], info.tapInternalKey);
      OneTapKey(fingerprint, info, info.tapOrigins[j], key);
      forall k: nat | FirstTap(fingerprint, info.tapOrigins, k) ensures k == j {
      }
    } else if FindSegwitKey(fingerprint, info.bip32).Ok? {
      var j: nat :| FirstBip32(fingerprint, info.bip32, j)
               && FindSegwitKey(fingerprint, info.bip32) == Ok(Segwit(info.bip32[j].pubkey, info.bip32[j].path));
      forall k: nat | FirstBip32(fingerprint, info.bip32, k) ensures k == j {
      }
    }
  }

  // ---- its script config ----

  /** The longest run of hardened elements at the start of a path. */
  predicate IsHardenedPrefix(prefix: KeyPath, path: KeyPath) {
    && prefix <= path && (forall i :: 0 <= i < |prefix| ==> prefix[i] >= 0x8000_0000)
    && (|prefix| < |path| ==> path[|prefix|] < 0x8000_0000)
  }

  lemma {:induction false} HardenedPrefixIs(path: KeyPath)
    ensures IsHardenedPrefix(HardenedPrefix(path), path)
    ensures forall prefix :: IsHardenedPrefix(prefix, path) ==> prefix == HardenedPrefix(path)
  {
    if path != [] && path[0] >= 0x8000_0000 {
      HardenedPrefixIs(path[1..]);
      assert path == [path[0]] + path[1..];
      forall prefix | IsHardenedPrefix(prefix, path) ensures prefix == HardenedPrefix(path) {
        assert prefix == [path[0]] + prefix[1..];
        assert IsHardenedPrefix(prefix[1..], path[1..]);
      }
    }
  }

  /** Native, nested and taproot outputs of one key, each with a config of its own type. */
  predicate ConfigIs(script: Script, redeem: Option<Script>, path: KeyPath, c: ScriptConfig) {
    && IsHardenedPrefix(c.keypath, path)
    && match script
       case P2wpkh(_) => c.config == Simple(SimpleP2wpkh)
       case P2sh(_) => redeem.Some? && redeem.value.P2wpkh? && c.config == Simple(SimpleP2wpkhP2sh)
       case P2tr(_) => c.config == Simple(SimpleP2tr)
       case _ => false
  }

  lemma {:induction false} ConfigIsFound(script: Script, redeem: Option<Script>, path: KeyPath, c: ScriptConfig)
    ensures ScriptConfigFromUtxo(script, path, redeem) == Ok(c) <==> ConfigIs(script, redeem, path, c)
  {
    HardenedPrefixIs(path);
  }

  // ---- inputs and outputs ----

  /** The output of somebody else: type, payload and value of the one in the PSBT. */
  predicate ExternalIs(out: TxOut, output: TxOutput) {
    && output.External? && output.value == out.value
    && match output.outputType
       case TypeP2pkh => out.script == P2pkh(output.data)
       case TypeP2sh => out.script == P2sh(output.data)
       case TypeP2wpkh => out.script == P2wpkh(output.data)
       case TypeP2wsh => out.script == P2wsh(output.data)
       case TypeP2tr => out.script == P2tr(output.data)
       case TypeOpReturn => out.script == OpReturn(Some(output.data))
  }

  lemma ExternalIsFound(out: TxOut, output: TxOutput)
    ensures ExternalOutput(out) == Ok(output) <==> ExternalIs(out, output)
  {
  }

  /** What one input of the PSBT becomes, with the config that its index names. */
  ghost predicate InputIs(fingerprint: Bytes, forced: bool, txin: TxIn, info: InputInfo, configs: seq<ScriptConfig>,
                          input: TxInput, key: OurKey) {
    && OurKeyIs(fingerprint, info.keys, key) && info.utxo.Some?
    && input.prevHash == txin.prevHash && input.prevIndex == txin.prevIndex && input.sequence == txin.sequence
    && input.value == info.utxo.value.value && input.keypath == key.path && input.prevTx == info.prevTx
    && input.configIndex < |configs|
    && if forced then input.configIndex == 0
       else ConfigIs(info.utxo.value.script, info.redeemScript, key.path, configs[input.configIndex])
  }

  /** What one output becomes: internal if it has a key of ours, external otherwise. */
  ghost predicate OutputIs(fingerprint: Bytes, forced: bool, out: TxOut, info: OutputInfo, configs: seq<ScriptConfig>,
                           output: TxOutput) {
    if output.Internal? then
      && (exists key :: OurKeyIs(fingerprint, info.keys, key) && output.keypath == key.path
                        && (!forced ==> output.configIndex < |configs|
                                        && ConfigIs(out.script, info.redeemScript, key.path, configs[output.configIndex])))
      && output.value == out.value && (forced ==> output.configIndex == 0)
    else (forall key :: !OurKeyIs(fingerprint, info.keys, key)) && ExternalIs(out, output)
  }

  lemma PlannedInputIs(fingerprint: Bytes, forced: bool, txin: TxIn, info: InputInfo, configs: seq<ScriptConfig>,
                       input: TxInput, key: OurKey)
    requires LoweredInput(fingerprint, forced, txin, info, configs, input, key)
    ensures InputIs(fingerprint, forced, txin, info, configs, input, key)
  {
    hide FindOurKey, ScriptConfigFromUtxo, OurKeyIs, ConfigIs;
    OurKeyIsFound(fingerprint, info.keys, key);
    if !forced {
      ConfigIsFound(info.utxo.value.script, info.redeemScript, key.path, configs[input.configIndex]);
    }
  }

  lemma PlannedOutputIs(fingerprint: Bytes, forced: bool, out: TxOut, info: OutputInfo, configs: seq<ScriptConfig>,
                        output: TxOutput)
    requires LoweredOutput(fingerprint, forced, out, info, configs, output)
    ensures OutputIs(fingerprint, forced, out, info, configs, output)
  {
    hide FindOurKey, ScriptConfigFromUtxo, ExternalOutput, OurKeyIs, ConfigIs;
    forall key ensures FindOurKey(fingerprint, info.keys) == Ok(key) <==> OurKeyIs(fingerprint, info.keys, key) {
      OurKeyIsFound(fingerprint, info.keys, key);
    }
    ExternalIsFound(out, output);
    if output.Internal? && !forced {
      var key := FindOurKey(fingerprint, info.keys).value;
      ConfigIsFound(out.script, info.redeemScript, key.path, configs[output.configIndex]);
    }
  }

  /** A lowered transaction, read off the PSBT: every input and output with its own data, the
      key that is ours, its path, and the config of its own type at its index; the configs
      without duplicates, none unused. */
  lemma {:induction false} LoweringSays(fingerprint: Bytes, psbt: Psbt, force: Option<ScriptConfig>)
    requires Lower(fingerprint, psbt, force).Some?
    ensures var (tx, keys) := Lower(fingerprint, psbt, force).value;
            && tx.version == psbt.version && tx.locktime == psbt.locktime
            && |tx.inputs| == |keys| == (if |psbt.txInputs| <= |psbt.inputs| then |psbt.txInputs| else |psbt.inputs|)
            && |tx.outputs| == (if |psbt.txOutputs| <= |psbt.outputs| then |psbt.txOutputs| else |psbt.outputs|)
            && (forall i :: 0 <= i < |tx.inputs| ==>
                  InputIs(fingerprint, force.Some?, psbt.txInputs[i], psbt.inputs[i].rest, tx.scriptConfigs, tx.inputs[i], keys[i]))
            && (forall i :: 0 <= i < |tx.outputs| ==>
                  OutputIs(fingerprint, force.Some?, psbt.txOutputs[i], psbt.outputs[i], tx.scriptConfigs, tx.outputs[i]))
            && (force.Some? ==> tx.scriptConfigs == [force.value])
            && (force.None? ==> forall i, j :: 0 <= i < j < |tx.scriptConfigs| ==> tx.scriptConfigs[i] != tx.scriptConfigs[j])
  {
    hide Lower, LoweredInput, LoweredOutput, InputIs, OutputIs, Uniq, InputConfigs, OutputConfigs;
    var (tx, keys) := Lower(fingerprint, psbt, force).value;
    LowerIs(fingerprint, psbt, force);
    LoweredConfigs(fingerprint, psbt, force, tx, keys);
    forall i | 0 <= i < |tx.inputs|
      ensures InputIs(fingerprint, force.Some?, psbt.txInputs[i], psbt.inputs[i].rest, tx.scriptConfigs, tx.inputs[i], keys[i])
    {
      PlannedInputIs(fingerprint, force.Some?, psbt.txInputs[i], psbt.inputs[i].rest, tx.scriptConfigs, tx.inputs[i], keys[i]);
    }
    forall i | 0 <= i < |tx.outputs|
      ensures OutputIs(fingerprint, force.Some?, psbt.txOutputs[i], psbt.outputs[i], tx.scriptConfigs, tx.outputs[i])
    {
      PlannedOutputIs(fingerprint, force.Some?, psbt.txOutputs[i], psbt.outputs[i], tx.scriptConfigs, tx.outputs[i]);
    }
  }

  /** An input can be lowered: it has a utxo, a key of ours, and, unless a config is forced,
      a utxo of one of the three types. */
  ghost predicate InputCan(fingerprint: Bytes, forced: bool, info: InputInfo) {
    && info.utxo.Some?
    && exists key :: OurKeyIs(fingerprint, info.keys, key) && (forced || HasConfig(info.utxo.value.script, info.redeemScript))
  }

  predicate HasConfig(script: Script, redeem: Option<Script>) {
    script.P2wpkh? || script.P2tr? || (script.P2sh? && redeem.Some? && redeem.value.P2wpkh?)
  }

  /** An output can be lowered: if it has a key of ours its script is of one of the three types,
      or a config is forced; otherwise its script is one that can be paid to. */
  ghost predicate OutputCan(fingerprint: Bytes, forced: bool, out: TxOut, info: OutputInfo) {
    if exists key :: OurKeyIs(fingerprint, info.keys, key) then forced || HasConfig(out.script, info.redeemScript)
    else !out.script.OtherScript? && out.script != OpReturn(None)
  }

  lemma InputPlannedIff(fingerprint: Bytes, forced: bool, info: InputInfo)
    ensures PlanInput(fingerprint, forced, info).Ok? <==> InputCan(fingerprint, forced, info)
  {
    hide FindOurKey, OurKeyIs, HardenedPrefix;
    forall key ensures FindOurKey(fingerprint, info.keys) == Ok(key) <==> OurKeyIs(fingerprint, info.keys, key) {
      OurKeyIsFound(fingerprint, info.keys, key);
    }
  }

  lemma OutputPlannedIff(fingerprint: Bytes, forced: bool, out: TxOut, info: OutputInfo)
    ensures PlanOutput(fingerprint, forced, out, info).Ok? <==> OutputCan(fingerprint, forced, out, info)
  {
    hide FindOurKey, OurKeyIs, HardenedPrefix;
    forall key ensures FindOurKey(fingerprint, info.keys) == Ok(key) <==> OurKeyIs(fingerprint, info.keys, key) {
      OurKeyIsFound(fingerprint, info.keys, key);
    }
  }

  /** A PSBT is lowered if and only if each of its inputs and outputs can be. */
  lemma {:induction false} LowersIff(fingerprint: Bytes, psbt: Psbt, force: Option<ScriptConfig>)
    ensures Lower(fingerprint, psbt, force).Some? <==>
            && (forall i :: 0 <= i < |psbt.inputs| && i < |psbt.txInputs| ==> InputCan(fingerprint, force.Some?, psbt.inputs[i].rest))
            && (forall i :: 0 <= i < |psbt.outputs| && i < |psbt.txOutputs| ==>
                  OutputCan(fingerprint, force.Some?, psbt.txOutputs[i], psbt.outputs[i]))
  {
    hide Lower, PlanInput, PlanOutput, InputCan, OutputCan;
    LowerIs(fingerprint, psbt, force);
    forall info ensures PlanInput(fingerprint, force.Some?, info).Ok? <==> InputCan(fingerprint, force.Some?, info) {
      InputPlannedIff(fingerprint, force.Some?, info);
    }
    forall out, info ensures PlanOutput(fingerprint, force.Some?, out, info).Ok? <==> OutputCan(fingerprint, force.Some?, out, info) {
      OutputPlannedIff(fingerprint, force.Some?, out, info);
    }
  }

  // ---- which inputs need the anti-klepto check ----

  /** The config asks for Schnorr signatures: taproot of one key, or a policy that begins so. */
  predicate IsTaproot(c: Config) {
    c == Simple(SimpleP2tr) || (c.Policy? && |c.policy| >= 3 && c.policy[0] == 't' && c.policy[1] == 'r' && c.policy[2] == '(')
  }

  /** Without a forced config, all but the inputs with a taproot utxo are checked; with a forced
      one, all are, or none if it is a taproot config. */
  lemma {:induction false} SchnorrIs(fingerprint: Bytes, psbt: Psbt, force: Option<ScriptConfig>, i: nat)
    requires Lower(fingerprint, psbt, force).Some?
    requires i < |Lower(fingerprint, psbt, force).value.0.inputs|
    ensures var tx := Lower(fingerprint, psbt, force).value.0;
            && i < |psbt.inputs| && psbt.inputs[i].rest.utxo.Some?
            && (Schnorr(tx, i) <==> if force.Some? then IsTaproot(force.value.config) else psbt.inputs[i].rest.utxo.value.script.P2tr?)
  {
    hide Lower, OurKeyIs, OutputIs, IsHardenedPrefix;
    LoweringSays(fingerprint, psbt, force);
    var (tx, keys) := Lower(fingerprint, psbt, force).value;
    assert InputIs(fingerprint, force.Some?, psbt.txInputs[i], psbt.inputs[i].rest, tx.scriptConfigs, tx.inputs[i], keys[i]);
    if force.Some? && force.value.config.Policy? {
      PolicyPrefix(force.value.config.policy);
    }
  }

  lemma PolicyPrefix(policy: string)
    ensures "tr(" <= policy <==> |policy| >= 3 && policy[0] == 't' && policy[1] == 'r' && policy[2] == '('
  {
  }
}
