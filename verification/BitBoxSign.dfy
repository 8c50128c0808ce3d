/** Lowering a PSBT to what the BitBox02 signs, and putting its signatures back:
    bhwi/src/bitbox/sign.rs. Scripts and key origins are taken as the library decodes
    them from the PSBT. */
module BitBoxSign {
  import opened Common
  import opened PsbtFields

  const HARDENED: nat := 0x8000_0000

  datatype Script =
    | P2pkh(hash: Bytes) | P2sh(hash: Bytes) | P2wpkh(hash: Bytes) | P2wsh(hash: Bytes) | P2tr(hash: Bytes)
    | OpReturn(pushed: Option<Bytes>)   // the single data push, if the script has that form
    | OtherScript

  datatype TxOut = TxOut(value: nat, script: Script)

  datatype TxIn = TxIn(prevHash: Bytes, prevIndex: nat, signatureScript: Bytes, sequence: nat)

  datatype PrevTx = PrevTx(version: nat, inputs: seq<TxIn>, outputs: seq<TxOut>, locktime: nat)

  datatype TapOrigin = TapOrigin(xonly: Bytes, leafHashes: seq<Bytes>, fingerprint: Bytes, path: KeyPath)

  datatype Bip32Origin = Bip32Origin(pubkey: Bytes, fingerprint: Bytes, path: KeyPath)

  /** The key information of a PSBT input or output, maps in the order of their keys. */
  datatype KeyInfo = KeyInfo(tapOrigins: seq<TapOrigin>, tapInternalKey: Option<Bytes>, bip32: seq<Bip32Origin>)

  /** A PSBT input without its signature fields; `utxo` is the output that it spends, if
      the PSBT tells. */
  datatype InputInfo = InputInfo(keys: KeyInfo, redeemScript: Option<Script>, utxo: Option<TxOut>, prevTx: Option<PrevTx>)

  datatype OutputInfo = OutputInfo(keys: KeyInfo, redeemScript: Option<Script>)

  datatype Psbt = Psbt(
    version: nat, locktime: nat,
    txInputs: seq<TxIn>, txOutputs: seq<TxOut>,
    inputs: seq<PsbtInput<InputInfo>>, outputs: seq<OutputInfo>)

  datatype SignError =
    | NoUtxo | KeyReused | NotOneLeaf | NoOurKey | UnsupportedConfig | UnsupportedOutput

  datatype OurKey =
    | Segwit(pubkey: Bytes, path: KeyPath)
    | TaprootInternal(path: KeyPath)
    | TaprootScript(xonly: Bytes, leafHash: Bytes, path: KeyPath)

  datatype SimpleType = SimpleP2wpkh | SimpleP2wpkhP2sh | SimpleP2tr

  datatype Config = Simple(simple: SimpleType) | Policy(policy: string) | OtherConfig

  datatype ScriptConfig = ScriptConfig(config: Config, keypath: KeyPath)

  datatype TxInput = TxInput(prevHash: Bytes, prevIndex: nat, value: nat, sequence: nat, keypath: KeyPath,
                             configIndex: nat, prevTx: Option<PrevTx>)

  datatype OutputType = TypeP2pkh | TypeP2sh | TypeP2wpkh | TypeP2wsh | TypeP2tr | TypeOpReturn

  datatype TxOutput =
    | Internal(keypath: KeyPath, value: nat, configIndex: nat)
    | External(data: Bytes, outputType: OutputType, value: nat)

  datatype Transaction = Transaction(
    scriptConfigs: seq<ScriptConfig>, version: nat, inputs: seq<TxInput>, outputs: seq<TxOutput>, locktime: nat)

  function HardenedPrefix(path: KeyPath): KeyPath {
    if path == [] || path[0] < HARDENED then [] else [path[0]] + HardenedPrefix(path[1..])
  }

  function FindTapKey(fingerprint: Bytes, origins: seq<TapOrigin>, internalKey: Option<Bytes>): Option<Result<OurKey, SignError>> {
    if origins == [] then None
    else if origins[0].fingerprint != fingerprint then FindTapKey(fingerprint, origins[1..], internalKey)
    else
      var o := origins[0];
      Some(if internalKey == Some(o.xonly) then
             if o.leafHashes != [] then Err(KeyReused) else Ok(TaprootInternal(o.path))
           else if |o.leafHashes| != 1 then Err(NotOneLeaf)
           else Ok(TaprootScript(o.xonly, o.leafHashes[0], o.path)))
  }

  function FindSegwitKey(fingerprint: Bytes, origins: seq<Bip32Origin>): Result<OurKey, SignError> {
    if origins == [] then Err(NoOurKey)
    else if origins[0].fingerprint == fingerprint then Ok(Segwit(origins[0].pubkey, origins[0].path))
    else FindSegwitKey(fingerprint, origins[1..])
  }

  /** `find_our_key`: taproot origins first. */
  function FindOurKey(fingerprint: Bytes, info: KeyInfo): Result<OurKey, SignError> {
    match FindTapKey(fingerprint, info.tapOrigins, info.tapInternalKey)
    case Some(found) => found
    case None => FindSegwitKey(fingerprint, info.bip32)
  }

  function ScriptConfigFromUtxo(script: Script, keypath: KeyPath, redeem: Option<Script>): Result<ScriptConfig, SignError> {
    var prefix := HardenedPrefix(keypath);
    if script.P2wpkh? then Ok(ScriptConfig(Simple(SimpleP2wpkh), prefix))
    else if script.P2sh? && redeem.Some? && redeem.value.P2wpkh? then Ok(ScriptConfig(Simple(SimpleP2wpkhP2sh), prefix))
    else if script.P2tr? then Ok(ScriptConfig(Simple(SimpleP2tr), prefix))
    else Err(UnsupportedConfig)
  }

  /** `TxExternalOutput::try_from`. */
  function ExternalOutput(out: TxOut): Result<TxOutput, SignError> {
    match out.script
    case P2pkh(hash) => Ok(External(hash, TypeP2pkh, out.value))
    case P2sh(hash) => Ok(External(hash, TypeP2sh, out.value))
    case P2wpkh(hash) => Ok(External(hash, TypeP2wpkh, out.value))
    case P2wsh(hash) => Ok(External(hash, TypeP2wsh, out.value))
    case P2tr(hash) => Ok(External(hash, TypeP2tr, out.value))
    case OpReturn(Some(data)) => Ok(External(data, TypeOpReturn, out.value))
    case _ => Err(UnsupportedOutput)
  }

  function IsSchnorr(c: ScriptConfig): bool {
    c.config == Simple(SimpleP2tr) || (c.config.Policy? && "tr(" <= c.config.policy)
  }

  // ---- lowering, input by input ----

  /** What one input contributes: its key, and its script config unless one is forced. */
  datatype Plan = Plan(key: OurKey, utxo: TxOut, config: ScriptConfig)

  const FORCED_CONFIG: ScriptConfig := ScriptConfig(OtherConfig, [])

  function PlanInput(fingerprint: Bytes, forced: bool, input: InputInfo): Result<Plan, SignError> {
    if input.utxo.None? then Err(NoUtxo)
    else
      match FindOurKey(fingerprint, input.keys)
      case Err(e) => Err(e)
      case Ok(key) =>
        if forced then Ok(Plan(key, input.utxo.value, FORCED_CONFIG))
        else
          match ScriptConfigFromUtxo(input.utxo.value.script, key.path, input.redeemScript)
          case Err(e) => Err(e)
          case Ok(config) => Ok(Plan(key, input.utxo.value, config))
  }

  /** What one output contributes: its key and config if it is ours. */
  function PlanOutput(fingerprint: Bytes, forced: bool, out: TxOut, info: OutputInfo): Result<Option<Plan>, SignError> {
    match FindOurKey(fingerprint, info.keys)
    case Err(_) => (match ExternalOutput(out) case Err(e) => Err(e) case Ok(_) => Ok(None))
    case Ok(key) =>
      if forced then Ok(Some(Plan(key, out, FORCED_CONFIG)))
      else
        match ScriptConfigFromUtxo(out.script, key.path, info.redeemScript)
        case Err(e) => Err(e)
        case Ok(config) => Ok(Some(Plan(key, out, config)))
  }

  /** The configs of the first `n` inputs, in order. */
  function InputConfigs(fingerprint: Bytes, psbt: Psbt, n: nat): seq<ScriptConfig>
    requires n <= |psbt.inputs|
  {
    if n == 0 then []
    else
      InputConfigs(fingerprint, psbt, n - 1)
      + match PlanInput(fingerprint, false, psbt.inputs[n - 1].rest) case Ok(p) => [p.config] case Err(_) => []
  }

  /** The config that an output adds, if it is ours. */
  function OutputConfig(fingerprint: Bytes, out: TxOut, info: OutputInfo): seq<ScriptConfig> {
    match PlanOutput(fingerprint, false, out, info)
    case Ok(Some(p)) => [p.config]
    case _ => []
  }

  /** The configs of our outputs among the first `n`, in order. */
  function OutputConfigs(fingerprint: Bytes, psbt: Psbt, n: nat): seq<ScriptConfig>
    requires n <= |psbt.outputs| && n <= |psbt.txOutputs|
  {
    if n == 0 then []
    else OutputConfigs(fingerprint, psbt, n - 1) + OutputConfig(fingerprint, psbt.txOutputs[n - 1], psbt.outputs[n - 1])
  }

  // ---- lists without duplicates, in first-use order ----

  function Uniq(configs: seq<ScriptConfig>): seq<ScriptConfig> {
    if configs == [] then []
    else
      var before, last := Uniq(configs[..|configs| - 1]), configs[|configs| - 1];
      if last in before then before else before + [last]
  }

  function Position(configs: seq<ScriptConfig>, c: ScriptConfig): (i: nat)
    requires c in configs
    ensures i < |configs| && configs[i] == c && c !in configs[..i]
  {
    if configs[0] == c then 0
    else
      assert configs == [configs[0]] + configs[1..];
      var i := Position(configs[1..], c);
      assert configs[..i + 1] == [configs[0]] + configs[1..][..i];
      i + 1
  }

  lemma {:induction false} UniqIsUnique(configs: seq<ScriptConfig>)
    ensures forall c :: c in Uniq(configs) <==> c in configs
    ensures forall i, j :: 0 <= i < j < |Uniq(configs)| ==> Uniq(configs)[i] != Uniq(configs)[j]
  {
    if configs != [] {
      UniqIsUnique(configs[..|configs| - 1]);
      assert configs == configs[..|configs| - 1] + [configs[|configs| - 1]];
    }
  }

  /** The order is that of first use. */
  lemma {:induction false} UniqIsFirstUse(configs: seq<ScriptConfig>, i: nat, j: nat)
    requires i < j < |Uniq(configs)|
    ensures Uniq(configs)[i] in configs && Uniq(configs)[j] in configs
    ensures Position(configs, Uniq(configs)[i]) < Position(configs, Uniq(configs)[j])
  {
    var init := configs[..|configs| - 1];
    var u := Uniq(configs);
    UniqIsUnique(configs);
    UniqIsUnique(init);
    if j < |Uniq(init)| {
      UniqIsFirstUse(init, i, j);
      PositionInPrefix(init, configs, u[i]);
      PositionInPrefix(init, configs, u[j]);
    } else {
      PositionInPrefix(init, configs, u[i]);
      PositionIs(configs, u[j], |init|);
    }
  }

  lemma PositionIs(configs: seq<ScriptConfig>, c: ScriptConfig, i: nat)
    requires i < |configs| && configs[i] == c && c !in configs[..i]
    ensures Position(configs, c) == i
  {
    var p := Position(configs, c);
    forall q | 0 <= q < i ensures configs[q] != c {
      assert configs[..i][q] == configs[q];
    }
    forall q | 0 <= q < p ensures configs[q] != c {
      assert configs[..p][q] == configs[q];
    }
  }

  lemma PositionInPrefix(prefix: seq<ScriptConfig>, whole: seq<ScriptConfig>, c: ScriptConfig)
    requires prefix <= whole && c in prefix
    ensures Position(whole, c) == Position(prefix, c)
  {
    var i := Position(prefix, c);
    assert whole[..i] == prefix[..i];
    PositionIs(whole, c, i);
  }

  // ---- Transaction::from_psbt ----

  /** What a successful lowering is, for the inputs and outputs that have a counterpart
      in the unsigned transaction. */
  ghost predicate Lowered(fingerprint: Bytes, psbt: Psbt, force: Option<ScriptConfig>, tx: Transaction, keys: seq<OurKey>) {
    var n, m := Min(|psbt.txInputs|, |psbt.inputs|), Min(|psbt.txOutputs|, |psbt.outputs|);
    && |tx.inputs| == |keys| == n && |tx.outputs| == m
    && tx.version == psbt.version && tx.locktime == psbt.locktime
    && tx.scriptConfigs == (match force
                            case Some(c) => [c]
                            case None => Uniq(InputConfigs(fingerprint, psbt, n) + OutputConfigs(fingerprint, psbt, m)))
    && LoweredInputs(fingerprint, psbt, force.Some?, tx.scriptConfigs, tx.inputs, keys)
    && LoweredOutputs(fingerprint, psbt, force.Some?, tx.scriptConfigs, tx.outputs)
  }

  ghost predicate RefersTo(configs: seq<ScriptConfig>, forced: bool, index: nat, config: ScriptConfig) {
    index < |configs| && if forced then index == 0 else configs[index] == config
  }

  ghost predicate LoweredInput(fingerprint: Bytes, forced: bool, txin: TxIn, info: InputInfo,
                               configs: seq<ScriptConfig>, input: TxInput, key: OurKey) {
    var plan := PlanInput(fingerprint, forced, info);
    && plan.Ok? && key == plan.value.key
    && RefersTo(configs, forced, input.configIndex, plan.value.config)
    && input == TxInput(txin.prevHash, txin.prevIndex, plan.value.utxo.value, txin.sequence, key.path,
                        input.configIndex, info.prevTx)
  }

  ghost predicate LoweredOutput(fingerprint: Bytes, forced: bool, out: TxOut, info: OutputInfo,
                                configs: seq<ScriptConfig>, output: TxOutput) {
    match PlanOutput(fingerprint, forced, out, info)
    case Err(_) => false
    case Ok(None) => ExternalOutput(out) == Ok(output)
    case Ok(Some(plan)) =>
      && output.Internal? && RefersTo(configs, forced, output.configIndex, plan.config)
      && output == Internal(plan.key.path, out.value, output.configIndex)
  }

  /** Some input or output cannot be lowered. */
  ghost predicate CannotLower(fingerprint: Bytes, psbt: Psbt, forced: bool) {
    || (exists i :: 0 <= i < |psbt.inputs| && i < |psbt.txInputs| && PlanInput(fingerprint, forced, psbt.inputs[i].rest).Err?)
    || (exists i :: 0 <= i < |psbt.outputs| && i < |psbt.txOutputs|
                    && PlanOutput(fingerprint, forced, psbt.txOutputs[i], psbt.outputs[i]).Err?)
  }

  /** The `add_script_config` closure. */
  method AddScriptConfig(configs: seq<ScriptConfig>, c: ScriptConfig, ghost used: seq<ScriptConfig>)
    returns (configs': seq<ScriptConfig>, index: nat)
    requires configs == Uniq(used)
    ensures configs' == Uniq(used + [c]) && configs <= configs'
    ensures index < |configs'| && configs'[index] == c
  {
    assert (used + [c])[..|used|] == used;
    if c in configs {
      configs', index := configs, Position(configs, c);
    } else {
      configs', index := configs + [c], |configs|;
    }
  }

  method FromPsbt(fingerprint: Bytes, psbt: Psbt, force: Option<ScriptConfig>)
    returns (r: Result<(Transaction, seq<OurKey>), SignError>)
    ensures r.Ok? ==> Lowered(fingerprint, psbt, force, r.value.0, r.value.1)
    ensures r.Err? <==> CannotLower(fingerprint, psbt, force.Some?)
    ensures r.Ok? ==> Lower(fingerprint, psbt, force) == Some(r.value)
  {
    hide Uniq, PlanInput, PlanOutput, ExternalOutput, LoweredInput, LoweredOutput, Lower;
    var lowered := LowerInputs(fingerprint, psbt, force);
    if lowered.Err? {
      return Err(lowered.error);
    }
    var (configs, inputs, keys) := lowered.value;
    var rest := LowerOutputs(fingerprint, psbt, force, configs, inputs, keys);
    if rest.Err? {
      return Err(rest.error);
    }
    var tx := Transaction(rest.value.0, psbt.version, inputs, rest.value.1, psbt.locktime);
    LoweredIsLower(fingerprint, psbt, force, tx, keys);
    r := Ok((tx, keys));
  }

  ghost predicate LoweredInputs(fingerprint: Bytes, psbt: Psbt, forced: bool, configs: seq<ScriptConfig>,
                                inputs: seq<TxInput>, keys: seq<OurKey>) {
    && |inputs| == |keys| && |inputs| <= |psbt.inputs| && |inputs| <= |psbt.txInputs|
    && forall k :: 0 <= k < |inputs| ==> LoweredInput(fingerprint, forced, psbt.txInputs[k], psbt.inputs[k].rest,
                                                      configs, inputs[k], keys[k])
  }

  ghost predicate LoweredOutputs(fingerprint: Bytes, psbt: Psbt, forced: bool, configs: seq<ScriptConfig>, outputs: seq<TxOutput>) {
    && |outputs| <= |psbt.outputs| && |outputs| <= |psbt.txOutputs|
    && forall k :: 0 <= k < |outputs| ==> LoweredOutput(fingerprint, forced, psbt.txOutputs[k], psbt.outputs[k],
                                                        configs, outputs[k])
  }

  /** The loop over the inputs. */
  method LowerInputs(fingerprint: Bytes, psbt: Psbt, force: Option<ScriptConfig>)
    returns (r: Result<(seq<ScriptConfig>, seq<TxInput>, seq<OurKey>), SignError>)
    ensures var n := Min(|psbt.txInputs|, |psbt.inputs|);
            if r.Ok? then
              && |r.value.1| == n && LoweredInputs(fingerprint, psbt, force.Some?, r.value.0, r.value.1, r.value.2)
              && r.value.0 == (if force.Some? then [force.value] else Uniq(InputConfigs(fingerprint, psbt, n)))
              && forall i :: 0 <= i < n ==> PlanInput(fingerprint, force.Some?, psbt.inputs[i].rest).Ok?
            else exists i :: 0 <= i < n && PlanInput(fingerprint, force.Some?, psbt.inputs[i].rest).Err?
  {
    hide Uniq, PlanInput;
    var forced := force.Some?;
    var configs := if forced then [force.value] else [];
    UniqOfNothing();
    var keys: seq<OurKey>, inputs: seq<TxInput> := [], [];
    for i := 0 to Min(|psbt.txInputs|, |psbt.inputs|)
      invariant |inputs| == i && LoweredInputs(fingerprint, psbt, forced, configs, inputs, keys)
      invariant configs == if forced then [force.value] else Uniq(InputConfigs(fingerprint, psbt, i))
      invariant forall k :: 0 <= k < i ==> PlanInput(fingerprint, forced, psbt.inputs[k].rest).Ok?
    {
      var txin, info := psbt.txInputs[i], psbt.inputs[i].rest;
      var plan := PlanInput(fingerprint, forced, info);
      if plan.Err? {
        return Err(plan.error);
      }
      var index := 0;
      if !forced {
        ghost var before := configs;
        configs, index := AddScriptConfig(configs, plan.value.config, InputConfigs(fingerprint, psbt, i));
        InputsStill(fingerprint, psbt, forced, before, configs, inputs, keys);
      }
      inputs := inputs + [TxInput(txin.prevHash, txin.prevIndex, plan.value.utxo.value, txin.sequence,
                                  plan.value.key.path, index, info.prevTx)];
      keys := keys + [plan.value.key];
    }
    r := Ok((configs, inputs, keys));
  }

  /** The configs in use after all inputs and the first `m` outputs. */
  function UsedConfigs(fingerprint: Bytes, psbt: Psbt, n: nat, m: nat): seq<ScriptConfig>
    requires n <= |psbt.inputs| && m <= |psbt.outputs| && m <= |psbt.txOutputs|
  {
    InputConfigs(fingerprint, psbt, n) + OutputConfigs(fingerprint, psbt, m)
  }

  /** All inputs and the first `m` outputs are lowered. */
  ghost predicate LoweredUpTo(fingerprint: Bytes, psbt: Psbt, force: Option<ScriptConfig>, m: nat,
                              inputs: seq<TxInput>, keys: seq<OurKey>, configs: seq<ScriptConfig>, outputs: seq<TxOutput>) {
    && LoweredInputs(fingerprint, psbt, force.Some?, configs, inputs, keys)
    && |outputs| == m && LoweredOutputs(fingerprint, psbt, force.Some?, configs, outputs)
    && configs == (match force case Some(c) => [c] case None => Uniq(UsedConfigs(fingerprint, psbt, |inputs|, m)))
    && OutputsPlanned(fingerprint, psbt, force.Some?, m)
  }

  ghost predicate OutputsPlanned(fingerprint: Bytes, psbt: Psbt, forced: bool, m: nat) {
    && m <= |psbt.outputs| && m <= |psbt.txOutputs|
    && forall i :: 0 <= i < m ==> PlanOutput(fingerprint, forced, psbt.txOutputs[i], psbt.outputs[i]).Ok?
  }

  /** The loop over the outputs, which may add configs behind those of the inputs. */
  method LowerOutputs(fingerprint: Bytes, psbt: Psbt, force: Option<ScriptConfig>, initial: seq<ScriptConfig>,
                      ghost inputs: seq<TxInput>, ghost keys: seq<OurKey>)
    returns (r: Result<(seq<ScriptConfig>, seq<TxOutput>), SignError>)
    requires LoweredInputs(fingerprint, psbt, force.Some?, initial, inputs, keys)
    requires initial == match force case Some(c) => [c] case None => Uniq(InputConfigs(fingerprint, psbt, |inputs|))
    ensures var m := Min(|psbt.txOutputs|, |psbt.outputs|);
            if r.Ok? then LoweredUpTo(fingerprint, psbt, force, m, inputs, keys, r.value.0, r.value.1)
            else exists i :: 0 <= i < m && PlanOutput(fingerprint, force.Some?, psbt.txOutputs[i], psbt.outputs[i]).Err?
  {
    NoOutputs(fingerprint, psbt, force, initial, inputs, keys);
    hide *;
    var forced := force.Some?;
    var configs := initial;
    var outputs: seq<TxOutput> := [];
    var m := Min(|psbt.txOutputs|, |psbt.outputs|);
    MinIs(|psbt.txOutputs|, |psbt.outputs|);
    for i := 0 to m
      invariant LoweredUpTo(fingerprint, psbt, force, i, inputs, keys, configs, outputs)
    {
      ConfigsInUse(fingerprint, psbt, force, i, inputs, keys, configs, outputs);
      var added := LowerOutput(fingerprint, forced, psbt.txOutputs[i], psbt.outputs[i], configs,
                               UsedConfigs(fingerprint, psbt, |inputs|, i));
      if added.Err? {
        return Err(added.error);
      }
      OneMoreOutput(fingerprint, psbt, force, i, inputs, keys, configs, outputs, added.value.0, added.value.1);
      configs := added.value.0;
      outputs := outputs + [added.value.1];
    }
    r := Ok((configs, outputs));
  }

  lemma MinIs(a: nat, b: nat)
    ensures Min(a, b) <= a && Min(a, b) <= b
  {
  }

  lemma NoOutputs(fingerprint: Bytes, psbt: Psbt, force: Option<ScriptConfig>, configs: seq<ScriptConfig>,
                  inputs: seq<TxInput>, keys: seq<OurKey>)
    requires LoweredInputs(fingerprint, psbt, force.Some?, configs, inputs, keys)
    requires configs == match force case Some(c) => [c] case None => Uniq(InputConfigs(fingerprint, psbt, |inputs|))
    ensures LoweredUpTo(fingerprint, psbt, force, 0, inputs, keys, configs, [])
  {
    assert |inputs| <= |psbt.inputs|;
    hide InputConfigs, Uniq, LoweredInputs;
    assert UsedConfigs(fingerprint, psbt, |inputs|, 0) == InputConfigs(fingerprint, psbt, |inputs|);
  }

  lemma ConfigsInUse(fingerprint: Bytes, psbt: Psbt, force: Option<ScriptConfig>, m: nat,
                     inputs: seq<TxInput>, keys: seq<OurKey>, configs: seq<ScriptConfig>, outputs: seq<TxOutput>)
    requires LoweredUpTo(fingerprint, psbt, force, m, inputs, keys, configs, outputs)
    ensures |inputs| <= |psbt.inputs| && m <= |psbt.outputs| && m <= |psbt.txOutputs|
    ensures if force.Some? then |configs| == 1 else configs == Uniq(UsedConfigs(fingerprint, psbt, |inputs|, m))
  {
    hide Uniq, UsedConfigs, LoweredInput, LoweredOutput, PlanOutput;
  }

  lemma OneMoreOutput(fingerprint: Bytes, psbt: Psbt, force: Option<ScriptConfig>, m: nat,
                      inputs: seq<TxInput>, keys: seq<OurKey>, configs: seq<ScriptConfig>, outputs: seq<TxOutput>,
                      configs': seq<ScriptConfig>, output: TxOutput)
    requires LoweredUpTo(fingerprint, psbt, force, m, inputs, keys, configs, outputs)
    requires |inputs| <= |psbt.inputs| && m < |psbt.outputs| && m < |psbt.txOutputs|
    requires OutputLowered(fingerprint, force.Some?, psbt.txOutputs[m], psbt.outputs[m], configs,
                           UsedConfigs(fingerprint, psbt, |inputs|, m), configs', output)
    ensures LoweredUpTo(fingerprint, psbt, force, m + 1, inputs, keys, configs', outputs + [output])
  {
    hide Uniq, PlanOutput, InputConfigs, OutputConfig, LoweredInputs, LoweredOutputs, LoweredOutput;
    assert UsedConfigs(fingerprint, psbt, |inputs|, m) + OutputConfig(fingerprint, psbt.txOutputs[m], psbt.outputs[m])
        == UsedConfigs(fingerprint, psbt, |inputs|, m + 1);
    InputsStill(fingerprint, psbt, force.Some?, configs, configs', inputs, keys);
    OutputsStill(fingerprint, psbt, force.Some?, configs, configs', outputs);
    OutputsSnoc(fingerprint, psbt, force.Some?, configs', outputs, output);
  }

  /** What one round of that loop adds. */
  ghost predicate OutputLowered(fingerprint: Bytes, forced: bool, out: TxOut, info: OutputInfo, configs: seq<ScriptConfig>,
                                used: seq<ScriptConfig>, configs': seq<ScriptConfig>, output: TxOutput) {
    && PlanOutput(fingerprint, forced, out, info).Ok?
    && configs <= configs' && LoweredOutput(fingerprint, forced, out, info, configs', output)
    && configs' == if forced then configs else Uniq(used + OutputConfig(fingerprint, out, info))
  }

  /** One round of that loop. */
  method LowerOutput(fingerprint: Bytes, forced: bool, out: TxOut, info: OutputInfo, configs: seq<ScriptConfig>,
                     ghost used: seq<ScriptConfig>)
    returns (r: Result<(seq<ScriptConfig>, TxOutput), SignError>)
    requires if forced then |configs| == 1 else configs == Uniq(used)
    ensures if r.Ok? then OutputLowered(fingerprint, forced, out, info, configs, used, r.value.0, r.value.1)
            else PlanOutput(fingerprint, forced, out, info).Err?
  {
    hide Uniq, PlanOutput, ExternalOutput;
    var plan := PlanOutput(fingerprint, forced, out, info);
    if plan.Err? {
      return Err(plan.error);
    }
    ExternalPlan(fingerprint, forced, out, info);
    assert used + [] == used;
    if plan.value.None? {
      return Ok((configs, ExternalOutput(out).value));
    }
    var key := plan.value.value.key;
    if forced {
      return Ok((configs, Internal(key.path, out.value, 0)));
    }
    var configs', index := AddScriptConfig(configs, plan.value.value.config, used);
    r := Ok((configs', Internal(key.path, out.value, index)));
  }

  lemma OutputsSnoc(fingerprint: Bytes, psbt: Psbt, forced: bool, configs: seq<ScriptConfig>,
                    outputs: seq<TxOutput>, output: TxOutput)
    requires LoweredOutputs(fingerprint, psbt, forced, configs, outputs)
    requires |outputs| < |psbt.outputs| && |outputs| < |psbt.txOutputs|
    requires LoweredOutput(fingerprint, forced, psbt.txOutputs[|outputs|], psbt.outputs[|outputs|], configs, output)
    ensures LoweredOutputs(fingerprint, psbt, forced, configs, outputs + [output])
  {
    hide LoweredOutput;
  }

  lemma UniqOfNothing()
    ensures Uniq([]) == []
  {
  }

  lemma ExternalPlan(fingerprint: Bytes, forced: bool, out: TxOut, info: OutputInfo)
    ensures PlanOutput(fingerprint, forced, out, info) == Ok(None) ==> ExternalOutput(out).Ok?
  {
  }

  lemma InputsStill(fingerprint: Bytes, psbt: Psbt, forced: bool, configs: seq<ScriptConfig>, configs': seq<ScriptConfig>,
                    inputs: seq<TxInput>, keys: seq<OurKey>)
    requires configs <= configs' && LoweredInputs(fingerprint, psbt, forced, configs, inputs, keys)
    ensures LoweredInputs(fingerprint, psbt, forced, configs', inputs, keys)
  {
    hide PlanInput;
  }

  lemma OutputsStill(fingerprint: Bytes, psbt: Psbt, forced: bool, configs: seq<ScriptConfig>, configs': seq<ScriptConfig>,
                     outputs: seq<TxOutput>)
    requires configs <= configs' && LoweredOutputs(fingerprint, psbt, forced, configs, outputs)
    ensures LoweredOutputs(fingerprint, psbt, forced, configs', outputs)
  {
    hide PlanOutput, ExternalOutput;
  }

  // ---- what the configs of a lowered transaction are ----

  lemma {:induction false} InputConfigIsPlanned(fingerprint: Bytes, psbt: Psbt, n: nat, c: ScriptConfig)
    requires n <= |psbt.inputs| && c in InputConfigs(fingerprint, psbt, n)
    ensures exists i :: 0 <= i < n && PlanInput(fingerprint, false, psbt.inputs[i].rest).Ok?
                        && PlanInput(fingerprint, false, psbt.inputs[i].rest).value.config == c
  {
    hide PlanInput;
    if c in InputConfigs(fingerprint, psbt, n - 1) {
      InputConfigIsPlanned(fingerprint, psbt, n - 1, c);
    }
  }

  lemma {:induction false} OutputConfigIsPlanned(fingerprint: Bytes, psbt: Psbt, n: nat, c: ScriptConfig)
    requires n <= |psbt.outputs| && n <= |psbt.txOutputs| && c in OutputConfigs(fingerprint, psbt, n)
    ensures exists i :: 0 <= i < n && PlansConfig(fingerprint, psbt.txOutputs[i], psbt.outputs[i], c)
  {
    hide PlanOutput;
    if c in OutputConfigs(fingerprint, psbt, n - 1) {
      OutputConfigIsPlanned(fingerprint, psbt, n - 1, c);
    } else {
      assert PlansConfig(fingerprint, psbt.txOutputs[n - 1], psbt.outputs[n - 1], c);
    }
  }

  ghost predicate PlansConfig(fingerprint: Bytes, out: TxOut, info: OutputInfo, c: ScriptConfig) {
    var plan := PlanOutput(fingerprint, false, out, info);
    plan.Ok? && plan.value.Some? && plan.value.value.config == c
  }

  /** Unforced, the list of configs has no duplicates and no config that no input and no
      output refers to; forced, it is the one given config and every index is 0. */
  lemma {:induction false} LoweredConfigs(fingerprint: Bytes, psbt: Psbt, force: Option<ScriptConfig>, tx: Transaction, keys: seq<OurKey>)
    requires Lowered(fingerprint, psbt, force, tx, keys)
    ensures force.None? ==> forall i, j :: 0 <= i < j < |tx.scriptConfigs| ==> tx.scriptConfigs[i] != tx.scriptConfigs[j]
    ensures force.None? ==> forall c :: c in tx.scriptConfigs ==>
              || (exists i :: 0 <= i < |tx.inputs| && tx.scriptConfigs[tx.inputs[i].configIndex] == c)
              || (exists i :: 0 <= i < |tx.outputs| && tx.outputs[i].Internal? && tx.scriptConfigs[tx.outputs[i].configIndex] == c)
    ensures force.Some? ==> tx.scriptConfigs == [force.value]
                            && (forall i :: 0 <= i < |tx.inputs| ==> tx.inputs[i].configIndex == 0)
                            && (forall i :: 0 <= i < |tx.outputs| && tx.outputs[i].Internal? ==> tx.outputs[i].configIndex == 0)
  {
    ConfigIndices(fingerprint, psbt, force, tx, keys);
    if force.None? {
      hide PlanInput, PlanOutput, LoweredInput, LoweredOutput, InputConfigs, OutputConfigs, Uniq;
      var n, m := |tx.inputs|, |tx.outputs|;
      UniqIsUnique(InputConfigs(fingerprint, psbt, n) + OutputConfigs(fingerprint, psbt, m));
      forall c | c in tx.scriptConfigs
        ensures (exists i :: 0 <= i < |tx.inputs| && tx.scriptConfigs[tx.inputs[i].configIndex] == c)
             || (exists i :: 0 <= i < |tx.outputs| && tx.outputs[i].Internal? && tx.scriptConfigs[tx.outputs[i].configIndex] == c)
      {
        if c in InputConfigs(fingerprint, psbt, n) {
          InputConfigIsPlanned(fingerprint, psbt, n, c);
        } else {
          OutputConfigIsPlanned(fingerprint, psbt, m, c);
          var i :| 0 <= i < m && PlansConfig(fingerprint, psbt.txOutputs[i], psbt.outputs[i], c);
          assert tx.outputs[i].Internal? && tx.scriptConfigs[tx.outputs[i].configIndex] == c;
        }
      }
    }
  }

  lemma ConfigIndices(fingerprint: Bytes, psbt: Psbt, force: Option<ScriptConfig>, tx: Transaction, keys: seq<OurKey>)
    requires Lowered(fingerprint, psbt, force, tx, keys)
    ensures forall i :: 0 <= i < |tx.inputs| ==>
              && PlanInput(fingerprint, force.Some?, psbt.inputs[i].rest).Ok?
              && RefersTo(tx.scriptConfigs, force.Some?, tx.inputs[i].configIndex,
                          PlanInput(fingerprint, force.Some?, psbt.inputs[i].rest).value.config)
    ensures forall i :: 0 <= i < |tx.outputs| ==>
              && PlanOutput(fingerprint, force.Some?, psbt.txOutputs[i], psbt.outputs[i]).Ok?
              && (PlanOutput(fingerprint, force.Some?, psbt.txOutputs[i], psbt.outputs[i]).value.Some? <==> tx.outputs[i].Internal?)
              && (tx.outputs[i].Internal? ==>
                    RefersTo(tx.scriptConfigs, force.Some?, tx.outputs[i].configIndex,
                             PlanOutput(fingerprint, force.Some?, psbt.txOutputs[i], psbt.outputs[i]).value.value.config))
  {
    hide PlanInput, PlanOutput, InputConfigs, OutputConfigs, Uniq;
    forall i | 0 <= i < |tx.inputs|
      ensures LoweredInput(fingerprint, force.Some?, psbt.txInputs[i], psbt.inputs[i].rest, tx.scriptConfigs, tx.inputs[i], keys[i]) {
    }
    forall i | 0 <= i < |tx.outputs|
      ensures LoweredOutput(fingerprint, force.Some?, psbt.txOutputs[i], psbt.outputs[i], tx.scriptConfigs, tx.outputs[i]) {
    }
  }

  // ---- lowering as a function ----

  predicate InputPlanned(fingerprint: Bytes, forced: bool, info: InputInfo) {
    PlanInput(fingerprint, forced, info).Ok?
  }

  predicate OutputPlanned(fingerprint: Bytes, forced: bool, out: TxOut, info: OutputInfo) {
    PlanOutput(fingerprint, forced, out, info).Ok?
  }

  predicate AllPlanned(fingerprint: Bytes, psbt: Psbt, forced: bool) {
    && (forall i :: 0 <= i < Min(|psbt.txInputs|, |psbt.inputs|) ==> InputPlanned(fingerprint, forced, psbt.inputs[i].rest))
    && (forall i :: 0 <= i < Min(|psbt.txOutputs|, |psbt.outputs|) ==>
          OutputPlanned(fingerprint, forced, psbt.txOutputs[i], psbt.outputs[i]))
  }

  function IndexIn(configs: seq<ScriptConfig>, forced: bool, c: ScriptConfig): nat {
    if forced || c !in configs then 0 else Position(configs, c)
  }

  function LowerOneInput(fingerprint: Bytes, forced: bool, configs: seq<ScriptConfig>, txin: TxIn, info: InputInfo): TxInput
    requires InputPlanned(fingerprint, forced, info)
  {
    var plan := PlanInput(fingerprint, forced, info).value;
    TxInput(txin.prevHash, txin.prevIndex, plan.utxo.value, txin.sequence, plan.key.path,
            IndexIn(configs, forced, plan.config), info.prevTx)
  }

  function KeyOf(fingerprint: Bytes, forced: bool, info: InputInfo): OurKey
    requires InputPlanned(fingerprint, forced, info)
  {
    PlanInput(fingerprint, forced, info).value.key
  }

  function LowerOneOutput(fingerprint: Bytes, forced: bool, configs: seq<ScriptConfig>, out: TxOut, info: OutputInfo): TxOutput
    requires OutputPlanned(fingerprint, forced, out, info)
  {
    match PlanOutput(fingerprint, forced, out, info).value
    case Some(plan) => Internal(plan.key.path, out.value, IndexIn(configs, forced, plan.config))
    case None => ExternalOutput(out).value
  }

  function ConfigsOf(fingerprint: Bytes, psbt: Psbt, force: Option<ScriptConfig>): seq<ScriptConfig> {
    match force
    case Some(c) => [c]
    case None => Uniq(InputConfigs(fingerprint, psbt, Min(|psbt.txInputs|, |psbt.inputs|))
                      + OutputConfigs(fingerprint, psbt, Min(|psbt.txOutputs|, |psbt.outputs|)))
  }

  function Lower(fingerprint: Bytes, psbt: Psbt, force: Option<ScriptConfig>): Option<(Transaction, seq<OurKey>)> {
    var n, m := Min(|psbt.txInputs|, |psbt.inputs|), Min(|psbt.txOutputs|, |psbt.outputs|);
    if !AllPlanned(fingerprint, psbt, force.Some?) then None
    else
      var configs := ConfigsOf(fingerprint, psbt, force);
      Some((Transaction(configs, psbt.version,
                        seq(n, i requires 0 <= i < n =>
                          LowerOneInput(fingerprint, force.Some?, configs, psbt.txInputs[i], psbt.inputs[i].rest)),
                        seq(m, i requires 0 <= i < m =>
                          LowerOneOutput(fingerprint, force.Some?, configs, psbt.txOutputs[i], psbt.outputs[i])),
                        psbt.locktime),
            seq(n, i requires 0 <= i < n => KeyOf(fingerprint, force.Some?, psbt.inputs[i].rest))))
  }

  lemma {:induction false} InputConfigIsUsed(fingerprint: Bytes, psbt: Psbt, n: nat, i: nat)
    requires i < n <= |psbt.inputs| && PlanInput(fingerprint, false, psbt.inputs[i].rest).Ok?
    ensures PlanInput(fingerprint, false, psbt.inputs[i].rest).value.config in InputConfigs(fingerprint, psbt, n)
  {
    hide PlanInput;
    if i < n - 1 {
      InputConfigIsUsed(fingerprint, psbt, n - 1, i);
    }
  }

  lemma {:induction false} OutputConfigIsUsed(fingerprint: Bytes, psbt: Psbt, n: nat, i: nat)
    requires i < n <= |psbt.outputs| && n <= |psbt.txOutputs|
    requires PlanOutput(fingerprint, false, psbt.txOutputs[i], psbt.outputs[i]).Ok?
    requires PlanOutput(fingerprint, false, psbt.txOutputs[i], psbt.outputs[i]).value.Some?
    ensures PlanOutput(fingerprint, false, psbt.txOutputs[i], psbt.outputs[i]).value.value.config in OutputConfigs(fingerprint, psbt, n)
  {
    hide PlanOutput;
    if i < n - 1 {
      OutputConfigIsUsed(fingerprint, psbt, n - 1, i);
    }
  }

  /** The function lowers as specified, and fails exactly when some part cannot be lowered. */
  lemma {:induction false} LowerIs(fingerprint: Bytes, psbt: Psbt, force: Option<ScriptConfig>)
    ensures Lower(fingerprint, psbt, force).None? <==> CannotLower(fingerprint, psbt, force.Some?)
    ensures Lower(fingerprint, psbt, force).Some? ==>
              var (tx, keys) := Lower(fingerprint, psbt, force).value; Lowered(fingerprint, psbt, force, tx, keys)
  {
    hide PlanInput, PlanOutput, ExternalOutput, InputConfigs, OutputConfigs, Uniq, LoweredInput, LoweredOutput;
    if AllPlanned(fingerprint, psbt, force.Some?) {
      var configs := ConfigsOf(fingerprint, psbt, force);
      var (tx, keys) := Lower(fingerprint, psbt, force).value;
      forall i | 0 <= i < |tx.inputs|
        ensures LoweredInput(fingerprint, force.Some?, psbt.txInputs[i], psbt.inputs[i].rest, configs, tx.inputs[i], keys[i])
      {
        LowersInput(fingerprint, psbt, force, i);
      }
      forall i | 0 <= i < |tx.outputs|
        ensures LoweredOutput(fingerprint, force.Some?, psbt.txOutputs[i], psbt.outputs[i], configs, tx.outputs[i])
      {
        LowersOutput(fingerprint, psbt, force, i);
      }
    }
  }

  lemma LowersInput(fingerprint: Bytes, psbt: Psbt, force: Option<ScriptConfig>, i: nat)
    requires i < |psbt.txInputs| && i < |psbt.inputs| && InputPlanned(fingerprint, force.Some?, psbt.inputs[i].rest)
    ensures var configs, info := ConfigsOf(fingerprint, psbt, force), psbt.inputs[i].rest;
            LoweredInput(fingerprint, force.Some?, psbt.txInputs[i], info, configs,
                         LowerOneInput(fingerprint, force.Some?, configs, psbt.txInputs[i], info),
                         KeyOf(fingerprint, force.Some?, info))
  {
    hide PlanInput, InputConfigs, OutputConfigs, Uniq;
    if force.None? {
      var n, m := Min(|psbt.txInputs|, |psbt.inputs|), Min(|psbt.txOutputs|, |psbt.outputs|);
      InputConfigIsUsed(fingerprint, psbt, n, i);
      UniqIsUnique(InputConfigs(fingerprint, psbt, n) + OutputConfigs(fingerprint, psbt, m));
    }
  }

  lemma LowersOutput(fingerprint: Bytes, psbt: Psbt, force: Option<ScriptConfig>, i: nat)
    requires i < |psbt.txOutputs| && i < |psbt.outputs|
    requires OutputPlanned(fingerprint, force.Some?, psbt.txOutputs[i], psbt.outputs[i])
    ensures var configs := ConfigsOf(fingerprint, psbt, force);
            LoweredOutput(fingerprint, force.Some?, psbt.txOutputs[i], psbt.outputs[i], configs,
                          LowerOneOutput(fingerprint, force.Some?, configs, psbt.txOutputs[i], psbt.outputs[i]))
  {
    hide PlanOutput, ExternalOutput, InputConfigs, OutputConfigs, Uniq;
    ExternalPlan(fingerprint, force.Some?, psbt.txOutputs[i], psbt.outputs[i]);
    var plan := PlanOutput(fingerprint, force.Some?, psbt.txOutputs[i], psbt.outputs[i]).value;
    if force.None? && plan.Some? {
      var n, m := Min(|psbt.txInputs|, |psbt.inputs|), Min(|psbt.txOutputs|, |psbt.outputs|);
      OutputConfigIsUsed(fingerprint, psbt, m, i);
      UniqIsUnique(InputConfigs(fingerprint, psbt, n) + OutputConfigs(fingerprint, psbt, m));
    }
  }

  /** There is no other way to lower a PSBT. */
  lemma {:induction false} LoweredIsLower(fingerprint: Bytes, psbt: Psbt, force: Option<ScriptConfig>, tx: Transaction, keys: seq<OurKey>)
    requires Lowered(fingerprint, psbt, force, tx, keys)
    ensures Lower(fingerprint, psbt, force) == Some((tx, keys))
  {
    hide PlanInput, PlanOutput, ExternalOutput, InputConfigs, OutputConfigs, Uniq;
    var configs := ConfigsOf(fingerprint, psbt, force);
    var n, m := Min(|psbt.txInputs|, |psbt.inputs|), Min(|psbt.txOutputs|, |psbt.outputs|);
    UniqIsUnique(InputConfigs(fingerprint, psbt, n) + OutputConfigs(fingerprint, psbt, m));
    forall i | 0 <= i < n
      ensures InputPlanned(fingerprint, force.Some?, psbt.inputs[i].rest)
              && tx.inputs[i] == LowerOneInput(fingerprint, force.Some?, configs, psbt.txInputs[i], psbt.inputs[i].rest)
              && keys[i] == KeyOf(fingerprint, force.Some?, psbt.inputs[i].rest)
    {
      assert LoweredInput(fingerprint, force.Some?, psbt.txInputs[i], psbt.inputs[i].rest, configs, tx.inputs[i], keys[i]);
    }
    forall i | 0 <= i < m
      ensures OutputPlanned(fingerprint, force.Some?, psbt.txOutputs[i], psbt.outputs[i])
              && tx.outputs[i] == LowerOneOutput(fingerprint, force.Some?, configs, psbt.txOutputs[i], psbt.outputs[i])
    {
      assert LoweredOutput(fingerprint, force.Some?, psbt.txOutputs[i], psbt.outputs[i], configs, tx.outputs[i]);
    }
    var (tx', keys') := Lower(fingerprint, psbt, force).value;
    assert tx'.inputs == tx.inputs && tx'.outputs == tx.outputs && keys' == keys;
  }

  // ---- apply_signatures ----

  /** The library's parsers of compact ECDSA and of taproot signatures. */
  datatype Library = Library(compact: Bytes -> Option<Bytes>, taproot: Bytes -> Option<Bytes>)

  function SlotOf(key: OurKey): Slot {
    match key
    case Segwit(pubkey, _) => Ecdsa(pubkey)
    case TaprootInternal(_) => TapKey
    case TaprootScript(xonly, leafHash, _) => TapScript(xonly, leafHash)
  }

  function ParseFor(lib: Library, key: OurKey, signature: Bytes): Option<Bytes> {
    if key.Segwit? then lib.compact(signature) else lib.taproot(signature)
  }

  /** Signature `i` goes into input `i`, under key `i`; further inputs stay as they are. */
  ghost predicate SignaturesApplied<T>(lib: Library, before: seq<PsbtInput<T>>, signatures: seq<Bytes>, keys: seq<OurKey>,
                                       after: seq<PsbtInput<T>>) {
    && |after| == |before|
    && forall i :: 0 <= i < |before| ==>
         if i < |signatures| && i < |keys| then
           && ParseFor(lib, keys[i], signatures[i]).Some?
           && after[i] == before[i].Insert(SlotOf(keys[i]), ParseFor(lib, keys[i], signatures[i]).value)
         else after[i] == before[i]
  }

  method ApplySignatures<T>(lib: Library, psbtInputs: seq<PsbtInput<T>>, signatures: seq<Bytes>, keys: seq<OurKey>)
    returns (r: Option<seq<PsbtInput<T>>>)
    ensures r == Applied(lib, psbtInputs, signatures, keys)
  {
    var inputs := psbtInputs;
    var n := Min(|inputs|, Min(|signatures|, |keys|));
    for i := 0 to n
      invariant |inputs| == |psbtInputs|
      invariant AppliedUpTo(lib, psbtInputs, signatures, keys, i) == Some(inputs)
    {
      var parsed := ParseFor(lib, keys[i], signatures[i]);
      if parsed.None? {
        AppliedFails(lib, psbtInputs, signatures, keys, i + 1, n);
        return None;
      }
      inputs := inputs[i := inputs[i].Insert(SlotOf(keys[i]), parsed.value)];
    }
    r := Some(inputs);
  }

  function Applied<T>(lib: Library, inputs: seq<PsbtInput<T>>, signatures: seq<Bytes>, keys: seq<OurKey>): Option<seq<PsbtInput<T>>> {
    AppliedUpTo(lib, inputs, signatures, keys, Min(|inputs|, Min(|signatures|, |keys|)))
  }

  function AppliedUpTo<T>(lib: Library, inputs: seq<PsbtInput<T>>, signatures: seq<Bytes>, keys: seq<OurKey>, n: nat)
    : (r: Option<seq<PsbtInput<T>>>)
    requires n <= |inputs| && n <= |signatures| && n <= |keys|
    ensures r.Some? ==> |r.value| == |inputs|
  {
    if n == 0 then Some(inputs)
    else
      match AppliedUpTo(lib, inputs, signatures, keys, n - 1)
      case None => None
      case Some(before) =>
        match ParseFor(lib, keys[n - 1], signatures[n - 1])
        case None => None
        case Some(parsed) => Some(before[n - 1 := before[n - 1].Insert(SlotOf(keys[n - 1]), parsed)])
  }

  lemma {:induction false} AppliedFails<T>(lib: Library, inputs: seq<PsbtInput<T>>, signatures: seq<Bytes>, keys: seq<OurKey>,
                                           n: nat, m: nat)
    requires n <= m && m <= |inputs| && m <= |signatures| && m <= |keys|
    requires AppliedUpTo(lib, inputs, signatures, keys, n).None?
    ensures AppliedUpTo(lib, inputs, signatures, keys, m).None?
  {
    if n < m {
      AppliedFails(lib, inputs, signatures, keys, n, m - 1);
    }
  }

  lemma {:induction false} AppliedUpToIs<T>(lib: Library, inputs: seq<PsbtInput<T>>, signatures: seq<Bytes>, keys: seq<OurKey>, n: nat)
    requires n <= |inputs| && n <= |signatures| && n <= |keys|
    ensures AppliedUpTo(lib, inputs, signatures, keys, n).None? <==>
            exists i :: 0 <= i < n && ParseFor(lib, keys[i], signatures[i]).None?
    ensures AppliedUpTo(lib, inputs, signatures, keys, n).Some? ==>
            SignaturesApplied(lib, inputs, signatures[..n], keys[..n], AppliedUpTo(lib, inputs, signatures, keys, n).value)
  {
    if n > 0 {
      AppliedUpToIs(lib, inputs, signatures, keys, n - 1);
    }
  }

  /** Every signature is written into its own input under its own key and nothing else
      changes; it fails exactly when one of the signatures that have an input and a key
      cannot be parsed. */
  lemma {:induction false} AppliedIs<T>(lib: Library, inputs: seq<PsbtInput<T>>, signatures: seq<Bytes>, keys: seq<OurKey>)
    ensures match Applied(lib, inputs, signatures, keys)
            case Some(after) => SignaturesApplied(lib, inputs, signatures, keys, after)
            case None => exists i :: 0 <= i < |inputs| && i < |signatures| && i < |keys|
                                     && ParseFor(lib, keys[i], signatures[i]).None?
  {
    AppliedUpToIs(lib, inputs, signatures, keys, Min(|inputs|, Min(|signatures|, |keys|)));
  }

  /** Where a signature lands, field by field: an ECDSA signature among the partial signatures
      under the public key, a Schnorr signature in the key path, or under the key and the leaf
      that it is for; every other field stays. */
  ghost predicate Lands<T>(lib: Library, before: PsbtInput<T>, key: OurKey, signature: Bytes, after: PsbtInput<T>) {
    match key
    case Segwit(pubkey, _) =>
      && lib.compact(signature).Some?
      && after == before.(partialSigs := before.partialSigs[pubkey := lib.compact(signature).value])
    case TaprootInternal(_) => lib.taproot(signature).Some? && after == before.(tapKeySig := lib.taproot(signature))
    case TaprootScript(xonly, leafHash, _) =>
      && lib.taproot(signature).Some?
      && after == before.(tapScriptSigs := before.tapScriptSigs[(xonly, leafHash) := lib.taproot(signature).value])
  }

  /** Every signature lands in its own input. */
  lemma {:induction false} SignaturesLand<T>(lib: Library, inputs: seq<PsbtInput<T>>, signatures: seq<Bytes>, keys: seq<OurKey>)
    requires Applied(lib, inputs, signatures, keys).Some?
    ensures var after := Applied(lib, inputs, signatures, keys).value;
            && |after| == |inputs|
            && forall i :: 0 <= i < |inputs| ==>
                 if i < |signatures| && i < |keys| then Lands(lib, inputs[i], keys[i], signatures[i], after[i]) else after[i] == inputs[i]
  {
    hide Applied;
    AppliedIs(lib, inputs, signatures, keys);
    AppliedLands(lib, inputs, signatures, keys, Applied(lib, inputs, signatures, keys).value);
  }

  lemma AppliedLands<T>(lib: Library, before: seq<PsbtInput<T>>, signatures: seq<Bytes>, keys: seq<OurKey>, after: seq<PsbtInput<T>>)
    requires SignaturesApplied(lib, before, signatures, keys, after)
    ensures |after| == |before|
    ensures forall i :: 0 <= i < |before| ==>
              if i < |signatures| && i < |keys| then Lands(lib, before[i], keys[i], signatures[i], after[i]) else after[i] == before[i]
  {
  }
}
