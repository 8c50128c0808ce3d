/** Whole Ledger commands: what a device reads through the interpreter, what a signed PSBT
    holds, and which answers stop the program. */
module LedgerSession {
  import opened Common
  import opened CompactSize
  import opened MerkleProof
  import opened KeyOrder
  import opened StoreSpec
  import opened StoreRuns
  import opened Device
  import opened Lookup
  import opened Wallet
  import opened Apdu
  import opened SessionReads
  import opened SignSession
  import opened LedgerYields
  import opened Driver
  import opened Ledger

  // ---- the interpreter as a device's host ----

  function Interrupting(request: Bytes): Bytes {
    ApduResponse(request, InterruptedExecution).Encode()
  }

  /** A request interrupts the command; its answer has to arrive in a CONTINUE command. */
  function LedgerHost(h: Hash, lib: Parsers): Host<State> {
    Host((s, request) => Through(h, lib, s, request))
  }

  function Through(h: Hash, lib: Parsers, s: State, request: Bytes): (State, Result<Bytes, Refusal>) {
    var (s', r) := ExchangeStep(h, lib, s, Interrupting(request));
    (s', Heard(r))
  }

  function Heard(r: Result<Option<Transmit>, LedgerError>): Result<Bytes, Refusal> {
    match r
    case Ok(Some(transmit)) =>
      (match ParseCommand(transmit.payload)
       case Some(c) => if c == ContinueInterrupted(c.data) then Ok(c.data) else Err(Lost)
       case None => Err(Lost))
    case Err(BadStore(error)) => Err(Declined(error))
    case _ => Err(Lost)
  }

  /** The states in which a store serves the device. */
  predicate Serving(s: State) {
    (s.Running? || s.AwaitAddress?) && s.store.Some?
  }

  function WithStore(s: State, store: StoreState): State
    requires Serving(s)
  {
    if s.Running? then Running(s.command, Some(store)) else AwaitAddress(Some(store))
  }

  /** The state `b` of an interpreter that was in `s` when the command began, as long as it
      serves the device, and afterwards. */
  ghost predicate HoldsStore(s: State, a: StoreState, b: State, serving: bool)
    requires Serving(s)
  {
    if serving then b == WithStore(s, a) && Fits(a) && ByteOrDigest(a.queue) else b == New
  }

  ghost function Holds(s: State): (StoreState, State, bool) -> bool
    requires Serving(s)
  {
    (a, b, serving) => HoldsStore(s, a, b, serving)
  }

  lemma HeardContinue(answer: Bytes)
    requires |answer| <= 255
    ensures Heard(Ok(Some(Transmission(ContinueInterrupted(answer))))) == Ok(answer)
  {
    CommandArrives(ContinueInterrupted(answer));
  }

  /** An interrupted execution is a step of the store. */
  lemma Interrupts(h: Hash, lib: Parsers, s: State, request: Bytes)
    requires Serving(s)
    ensures var (store', r) := Step(h, s.store.value, request);
            ExchangeStep(h, lib, s, Interrupting(request)) ==
            if r.Err? then Fail(BadStore(r.error))
            else (WithStore(s, store'), Ok(Some(Transmission(ContinueInterrupted(r.value)))))
  {
    hide ParseResponse, Step, OnFinal, ApduResponse.Encode;
    ResponsesRoundTrip(Interrupting(request), ApduResponse(request, InterruptedExecution));
  }

  lemma SameThrough(h: Hash, lib: Parsers, s: State, a: StoreState, request: Bytes)
    requires Serving(s) && Fits(a) && ByteOrDigest(a.queue)
    ensures var (a', r) := Sent(h, a, request);
            var (b', q) := Through(h, lib, WithStore(s, a), request);
            r == q && HoldsStore(s, a', b', r.Ok?)
  {
    hide Step, ExchangeStep, Interrupting, Transmission, CountsAreTrue, Fits, ByteOrDigest;
    Interrupts(h, lib, WithStore(s, a), request);
    StepKeepsByteOrDigest(h, a, request);
    StepFrame(h, a, request);
    StepKeepsFits(h, a, request);
    var r := Step(h, a, request).1;
    if r.Ok? {
      ResponseFits(h, a, request);
      HeardContinue(r.value);
    }
  }

  lemma StepKeepsFits(h: Hash, s: StoreState, command: Bytes)
    requires Fits(s)
    ensures Fits(Step(h, s, command).0)
  {
    hide Step;
    StepFrame(h, s, command);
  }

  /** For a device, the interpreter is its store: the same answers, each in a CONTINUE
      command that arrives, until the store declines a request, which ends the command. */
  lemma {:induction false} ServesAsStore(h: Hash, lib: Parsers, s: State)
    requires Serving(s)
    ensures Simulates(StoreHost(h), LedgerHost(h, lib), Holds(s))
  {
    hide Step, ExchangeStep, Heard, HoldsStore, WithStore, Through, Sent;
    var related := Holds(s);
    forall a, b, request | related(a, b, true)
      ensures SameAnswer(StoreHost(h), LedgerHost(h, lib), related, a, b, request)
    {
      ServingState(s, a, b);
      SendsToStore(h, a, request);
      SameThrough(h, lib, s, a, request);
    }
  }

  lemma ServingState(s: State, a: StoreState, b: State)
    requires Serving(s) && HoldsStore(s, a, b, true)
    ensures b == WithStore(s, a) && Fits(a) && ByteOrDigest(a.queue)
  {
  }

  lemma HoldsFresh(s: State)
    requires Serving(s) && Fits(s.store.value) && s.store.value.queue == []
    ensures Holds(s)(s.store.value, s, true)
  {
  }

  // ---- reading a signing session ----

  function RequestOf(psbt: Psbt, policy: LedgerWalletPolicy, hmac: Option<Bytes32>): SignRequest {
    SignRequest(policy, hmac, psbt.global, InputMaps(psbt), psbt.outputs)
  }

  /** SIGN_PSBT can be started for this PSBT. */
  predicate CanSign(psbt: Psbt) {
    && |psbt.inputs| == psbt.txInputs && |psbt.outputs| == psbt.txOutputs
    && psbt.inputs != [] && psbt.outputs != []
  }

  /** The started command, its store, and what the device gets of it. */
  lemma StartsSigning(h: Hash, psbt: Psbt, policy: LedgerWalletPolicy, hmac: Option<Bytes32>)
    ensures Start(h, New, SignPsbt(psbt, policy, hmac)).1.Ok? <==> CanSign(psbt)
    ensures CanSign(psbt) ==>
              var req := RequestOf(psbt, policy, hmac);
              && req.inputs != [] && req.outputs != []
              && SessionStore(h, req).queue == []
              && Start(h, New, SignPsbt(psbt, policy, hmac)) ==
                 (Running(SignPsbt(psbt, policy, hmac), Some(SessionStore(h, req))),
                  Ok(Bitcoin(INS_SIGN_PSBT, SignPsbtData(h, req))))
              && ParseCommand(Bitcoin(INS_SIGN_PSBT, SignPsbtData(h, req)).payload)
                 == Some(BitcoinCommand(INS_SIGN_PSBT, SignPsbtData(h, req)))
  {
    hide SessionStore, SignPsbtData, Serialize, Closed, Commitments, KnowsMapping, ParseCommand;
    if CanSign(psbt) {
      SessionKnowledge(h, RequestOf(psbt, policy, hmac));
      SignPsbtFits(h, RequestOf(psbt, policy, hmac));
    }
  }

  /** Closure of the signing session through the interpreter: from the SIGN_PSBT command that
      `Start` sends, a device reads exactly the policy and every pair of every map of the
      PSBT, each answer arriving in a CONTINUE command and none refused, and the command is
      where it was before, if and only if the name of the policy has at most 255 bytes;
      unless two of the strings that were hashed collide. */
  lemma {:induction false} SigningIsClosed(h: Hash, lib: Parsers, psbt: Psbt, policy: LedgerWalletPolicy, hmac: Option<Bytes32>)
    requires CanSign(psbt)
    requires Fits(SessionStore(h, RequestOf(psbt, policy, hmac)))
    ensures var req := RequestOf(psbt, policy, hmac);
            var s := Start(h, New, SignPsbt(psbt, policy, hmac)).0;
            (ReadSession(h, LedgerHost(h, lib), s, SignPsbtData(h, req)) == (Got(ViewOfRequest(req)), s) <==> |policy.name| <= 255)
            || ClashIn(h, StoreStrings(h, SessionStore(h, req)))
  {
    hide *;
    var req := RequestOf(psbt, policy, hmac);
    RequestParts(psbt, policy, hmac);
    var s := Start(h, New, SignPsbt(psbt, policy, hmac)).0;
    var store := SessionStore(h, req);
    StartsSigning(h, psbt, policy, hmac);
    StartServes(s, SignPsbt(psbt, policy, hmac), store);
    ServesAsStore(h, lib, s);
    SessionsAlike(h, StoreHost(h), LedgerHost(h, lib), Holds(s), store, s, SignPsbtData(h, req));
    AlikeFromStart(s, ReadSession(h, StoreHost(h), store, SignPsbtData(h, req)),
                   ReadSession(h, LedgerHost(h, lib), s, SignPsbtData(h, req)));
    if !ClashIn(h, StoreStrings(h, store)) {
      if |policy.name| <= 255 {
        ShortNameReads(h, req);
      } else {
        LongNameFails(h, req);
      }
    }
  }

  lemma RequestParts(psbt: Psbt, policy: LedgerWalletPolicy, hmac: Option<Bytes32>)
    ensures var req := RequestOf(psbt, policy, hmac);
            req.policy == policy && req.inputs == InputMaps(psbt) && req.outputs == psbt.outputs && req.global == psbt.global
    ensures CanSign(psbt) ==> InputMaps(psbt) != [] && psbt.outputs != []
  {
  }

  lemma StartServes(s: State, command: Command, store: StoreState)
    requires s == Running(command, Some(store)) && Fits(store) && store.queue == []
    ensures Serving(s) && s.store == Some(store) && Holds(s)(store, s, true)
  {
    HoldsFresh(s);
  }

  /** A read that leaves the store as it was leaves the command as it was; a refused one ends it. */
  lemma AlikeFromStart<T>(s: State, p: (Read<T>, StoreState), q: (Read<T>, State))
    requires Serving(s) && Alike(Holds(s), p, q)
    ensures p.0 == q.0
    ensures !p.0.Refused? && p.1 == s.store.value ==> q.1 == s
    ensures p.0.Refused? ==> q.1 == New
  {
  }

  // ---- looking a key up ----

  /** Every key of every map, looked up through the interpreter: a key that is there gives
      its value and the command goes on; the command ends, with UnknownHash as its error, if
      and only if the map does not have the key. */
  lemma {:induction false} LookupsEndOrAnswer(h: Hash, lib: Parsers, psbt: Psbt, policy: LedgerWalletPolicy, hmac: Option<Bytes32>,
                                              m: PsbtMap, key: Bytes)
    requires CanSign(psbt)
    requires Fits(SessionStore(h, RequestOf(psbt, policy, hmac)))
    requires m == psbt.global || m in InputMaps(psbt) || m in psbt.outputs
    requires DistinctKeys(m)
    ensures var store := SessionStore(h, RequestOf(psbt, policy, hmac));
            var s := Start(h, New, SignPsbt(psbt, policy, hmac)).0;
            var r := LookupMap(h, LedgerHost(h, lib), s, MapCommitment(h, m), key);
            || ClashIn(h, StoreStrings(h, store) + {LeafBytes(key)})
            || (&& (forall v :: Pair(key, v) in m ==> r == (Got(v), s))
                && (r == (Refused(Declined(UnknownHash)), New) <==> forall p :: p in m ==> p.key != key))
  {
    hide *;
    var req := RequestOf(psbt, policy, hmac);
    RequestParts(psbt, policy, hmac);
    var s := Start(h, New, SignPsbt(psbt, policy, hmac)).0;
    var store := SessionStore(h, req);
    StartsSigning(h, psbt, policy, hmac);
    StartServes(s, SignPsbt(psbt, policy, hmac), store);
    ServesAsStore(h, lib, s);
    LookupsAlike(h, StoreHost(h), LedgerHost(h, lib), Holds(s), store, s, MapCommitment(h, m), key);
    AlikeFromStart(s, LookupMap(h, StoreHost(h), store, MapCommitment(h, m), key),
                   LookupMap(h, LedgerHost(h, lib), s, MapCommitment(h, m), key));
    SessionLookups(h, req, m, key);
    LookedUpIs(m, key);
  }

  lemma LookedUpIs(m: Mapping, key: Bytes)
    requires DistinctKeys(m)
    ensures forall v :: Pair(key, v) in m ==> LookedUp(m, key) == Got(v)
    ensures LookedUp(m, key) == Refused(Declined(UnknownHash)) <==> forall p :: p in m ==> p.key != key
    ensures LookedUp(m, key).Got? || LookedUp(m, key) == Refused(Declined(UnknownHash))
  {
    hide DistinctKeys;
    MapGetIs(m, key);
  }

  /** The keys of a map, in their order. */
  function KeyList(m: PsbtMap): ElementList {
    SortByKeySorts(m);
    Keys(SortByKey(m))
  }

  /** The one exchange in which that happens: GET_MERKLE_LEAF_INDEX for the digest of the
      key makes `exchange` fail if and only if the map does not have the key. */
  lemma {:induction false} AbsentKeyFails(h: Hash, lib: Parsers, psbt: Psbt, policy: LedgerWalletPolicy, hmac: Option<Bytes32>,
                                          m: PsbtMap, key: Bytes)
    requires CanSign(psbt)
    requires Fits(SessionStore(h, RequestOf(psbt, policy, hmac)))
    requires m == psbt.global || m in InputMaps(psbt) || m in psbt.outputs
    requires DistinctKeys(m)
    ensures var store := SessionStore(h, RequestOf(psbt, policy, hmac));
            var s := Start(h, New, SignPsbt(psbt, policy, hmac)).0;
            var request := IndexRequest(ListRoot(h, KeyList(m)), h(LeafBytes(key)));
            || ClashIn(h, StoreStrings(h, store) + {LeafBytes(key)})
            || (ExchangeStep(h, lib, s, Interrupting(request)) == Fail(BadStore(UnknownHash))
                <==> forall p :: p in m ==> p.key != key)
  {
    hide *;
    var req := RequestOf(psbt, policy, hmac);
    RequestParts(psbt, policy, hmac);
    var s := Start(h, New, SignPsbt(psbt, policy, hmac)).0;
    var store := SessionStore(h, req);
    var strings := StoreStrings(h, store) + {LeafBytes(key)};
    var keys := KeyList(m);
    var request := IndexRequest(ListRoot(h, keys), h(LeafBytes(key)));
    StartsSigning(h, psbt, policy, hmac);
    StartServes(s, SignPsbt(psbt, policy, hmac), store);
    Interrupts(h, lib, s, request);
    FailIsError(s, Step(h, store, request));
    if !ClashIn(h, strings) {
      KeysAreKnown(h, req, m);
      SoundWith(h, store, key);
      ReadsIndex(h, store, keys, key, strings);
      ReadIndexIs(h, store, ListRoot(h, keys), h(LeafBytes(key)));
      IndexIsNoRefusal(Step(h, store, request).1);
      SortedKeysAre(m, key);
    }
  }

  lemma FailIsError(s: State, step: (StoreState, StoreSpec.Reply))
    requires Serving(s)
    ensures var r := if step.1.Err? then Fail(BadStore(step.1.error))
                     else (WithStore(s, step.0), Ok(Some(Transmission(ContinueInterrupted(step.1.value)))));
            r == Fail(BadStore(UnknownHash)) <==> step.1 == Err(UnknownHash)
  {
    hide Transmission, ContinueInterrupted;
  }

  lemma IndexIsNoRefusal(r: StoreSpec.Reply)
    ensures r.Ok? && r.value != [] ==> !ParsedIndex(r.value[1..]).Refused?
  {
  }

  lemma SoundWith(h: Hash, s: StoreState, key: Bytes)
    requires s.queue == [] && Fits(s) && Closed(s) && !ClashIn(h, StoreStrings(h, s) + {LeafBytes(key)})
    ensures Sound(h, s, StoreStrings(h, s) + {LeafBytes(key)})
  {
    hide ClashIn, StoreStrings, Fits, Closed, LeafBytes;
  }

  lemma KeysAreKnown(h: Hash, req: SignRequest, m: PsbtMap)
    requires req.inputs != [] && req.outputs != []
    requires m == req.global || m in req.inputs || m in req.outputs
    requires DistinctKeys(m)
    ensures var keys := KeyList(m);
            && Closed(SessionStore(h, req)) && SessionStore(h, req).queue == []
            && keys in SessionStore(h, req).lists
            && forall i, j :: 0 <= i < j < |keys| ==> keys[i] != keys[j]
  {
    hide SessionStore, Closed, Serialize, Commitments, DistinctKeys;
    SessionKnowledge(h, req);
    SortByKeySorts(m);
    DistinctKeysOfMultiset(m, SortByKey(m));
    DistinctKeysFact(SortByKey(m));
  }

  lemma SortedKeysAre(m: PsbtMap, key: Bytes)
    ensures key in KeyList(m) <==> !forall p :: p in m ==> p.key != key
  {
    var sorted := SortByKey(m);
    SortByKeySorts(m);
    assert forall p :: p in m <==> p in multiset(sorted);
    if key in Keys(sorted) {
      var i :| 0 <= i < |sorted| && Keys(sorted)[i] == key;
      assert sorted[i] in m;
    }
    if !forall p :: p in m ==> p.key != key {
      var p :| p in m && p.key == key;
      assert p in sorted;
      var i :| 0 <= i < |sorted| && sorted[i] == p;
      assert Keys(sorted)[i] == key;
    }
  }

  // ---- reading a policy ----

  /** While a store for a policy serves the device, it reads the policy from its id, each answer
      arriving in a CONTINUE command, and the command is where it was, if and only if the name
      has at most 255 bytes; unless two of the strings that were hashed collide. */
  lemma {:induction false} PolicyIsClosed(h: Hash, lib: Parsers, s: State, policy: LedgerWalletPolicy)
    requires Serving(s) && s.store == Some(PolicyStore(h, policy)) && Fits(PolicyStore(h, policy))
    ensures (ReadPolicy(h, LedgerHost(h, lib), s, Id(h, policy)) == (Got(ViewOf(policy)), s) <==> |policy.name| <= 255)
            || ClashIn(h, StoreStrings(h, PolicyStore(h, policy)))
  {
    hide *;
    var store := PolicyStore(h, policy);
    PolicyStoreKnowledge(h, policy);
    HoldsFresh(s);
    ServesAsStore(h, lib, s);
    PoliciesAlike(h, StoreHost(h), LedgerHost(h, lib), Holds(s), store, s, Id(h, policy));
    AlikeFromStart(s, ReadPolicy(h, StoreHost(h), store, Id(h, policy)), ReadPolicy(h, LedgerHost(h, lib), s, Id(h, policy)));
    NameOfView(policy);
    ReadNameIsShort(h, store, Id(h, policy));
    if !ClashIn(h, StoreStrings(h, store)) && |policy.name| <= 255 {
      IsSound(h, store);
      ReadsPolicy(h, store, policy, StoreStrings(h, store));
    }
  }

  lemma NameOfView(policy: LedgerWalletPolicy)
    ensures ViewOf(policy).name == policy.name
  {
  }

  /** GET_WALLET_ADDRESS for a descriptor: the command arrives, and from the id in its data the
      device reads the policy. */
  lemma {:induction false} AddressIsClosed(h: Hash, lib: Parsers, policy: LedgerWalletPolicy, hmac: Option<Bytes32>, change: bool,
                                           index: nat, display: bool, answer: Bytes)
    requires ParseResponse(answer).Ok? && |ParseResponse(answer).value.data| >= 4 && Fits(PolicyStore(h, policy))
    ensures var command := GetWalletAddress(ByDescriptor(index, change, display), Some(Context(policy, hmac)));
            var (s, sent) := ExchangeStep(h, lib, Start(h, New, command).0, answer);
            var data := AddressData(h, policy, hmac, change, index, display);
            && |data| == 70 && sent == Ok(Some(Bitcoin(INS_GET_WALLET_ADDRESS, data)))
            && ParseCommand(sent.value.value.payload) == Some(BitcoinCommand(INS_GET_WALLET_ADDRESS, data))
            && ((ReadPolicy(h, LedgerHost(h, lib), s, Digest(data[1..33])) == (Got(ViewOf(policy)), s) <==> |policy.name| <= 255)
                || ClashIn(h, StoreStrings(h, PolicyStore(h, policy))))
  {
    hide *;
    var command := GetWalletAddress(ByDescriptor(index, change, display), Some(Context(policy, hmac)));
    var s := ExchangeStep(h, lib, Start(h, New, command).0, answer).0;
    var data := AddressData(h, policy, hmac, change, index, display);
    AsksAddress(h, lib, policy, hmac, change, index, display, answer);
    AddressDataHasId(h, policy, hmac, change, index, display);
    CommandArrives(BitcoinCommand(INS_GET_WALLET_ADDRESS, data));
    PayloadIs(INS_GET_WALLET_ADDRESS, data);
    PolicyIsClosed(h, lib, s, policy);
  }

  lemma AsksAddress(h: Hash, lib: Parsers, policy: LedgerWalletPolicy, hmac: Option<Bytes32>, change: bool, index: nat, display: bool,
                    answer: Bytes)
    requires ParseResponse(answer).Ok? && |ParseResponse(answer).value.data| >= 4
    ensures var command := GetWalletAddress(ByDescriptor(index, change, display), Some(Context(policy, hmac)));
            ExchangeStep(h, lib, Start(h, New, command).0, answer) ==
            (AwaitAddress(Some(PolicyStore(h, policy))),
             Ok(Some(Bitcoin(INS_GET_WALLET_ADDRESS, AddressData(h, policy, hmac, change, index, display)))))
    ensures Serving(AwaitAddress(Some(PolicyStore(h, policy))))
  {
    hide ParseResponse, PolicyStore, AddressData, Bitcoin;
  }

  lemma AddressDataHasId(h: Hash, policy: LedgerWalletPolicy, hmac: Option<Bytes32>, change: bool, index: nat, display: bool)
    ensures var data := AddressData(h, policy, hmac, change, index, display);
            |data| == 70 && Digest(data[1..33]) == Id(h, policy)
  {
    hide Id, HmacBytes;
    var data := AddressData(h, policy, hmac, change, index, display);
    assert data[1..33] == Id(h, policy).raw;
    assert Digest(Id(h, policy).raw) == Id(h, policy);
  }

  lemma PayloadIs(ins: Byte, data: Bytes)
    ensures Bitcoin(ins, data).payload == BitcoinCommand(ins, data).Encode()
    ensures BitcoinCommand(ins, data).data == data
  {
  }

  /** REGISTER_WALLET: the command arrives if and only if the serialized policy has at most 252
      bytes; a device that got its data reads the rest of the policy. */
  lemma {:induction false} RegisteringIsClosed(h: Hash, lib: Parsers, policy: LedgerWalletPolicy)
    requires Fits(PolicyStore(h, policy))
    ensures var (s, sent) := Start(h, New, RegisterWallet(policy));
            var data := RegisterData(h, policy);
            && sent == Ok(Bitcoin(INS_REGISTER_WALLET, data))
            && (ParseCommand(sent.value.payload) == Some(BitcoinCommand(INS_REGISTER_WALLET, data)) <==> |Serialize(h, policy)| <= 252)
            && ((ReadRegistered(h, LedgerHost(h, lib), s, data) == (Got(ViewOf(policy)), s) <==> |policy.name| <= 255)
                || ClashIn(h, StoreStrings(h, PolicyStore(h, policy))))
  {
    hide *;
    var store := PolicyStore(h, policy);
    var s := Start(h, New, RegisterWallet(policy)).0;
    var data := RegisterData(h, policy);
    StartsRegistering(h, policy);
    PolicyStoreKnowledge(h, policy);
    HoldsFresh(s);
    RequestsFit(h, policy, None, false, 0, false, [], [0]);
    CommandArrives(BitcoinCommand(INS_REGISTER_WALLET, data));
    PayloadIs(INS_REGISTER_WALLET, data);
    ServesAsStore(h, lib, s);
    RegisteredAlike(h, StoreHost(h), LedgerHost(h, lib), Holds(s), store, s, data);
    AlikeFromStart(s, ReadRegistered(h, StoreHost(h), store, data), ReadRegistered(h, LedgerHost(h, lib), s, data));
    NameOfView(policy);
    RegisteredNameIsShort(h, store, data);
    if !ClashIn(h, StoreStrings(h, store)) && |policy.name| <= 255 {
      IsSound(h, store);
      PolicySizes(h, policy);
      ReadsRegistered(h, store, policy);
    }
  }

  lemma StartsRegistering(h: Hash, policy: LedgerWalletPolicy)
    ensures Start(h, New, RegisterWallet(policy)) ==
            (Running(RegisterWallet(policy), Some(PolicyStore(h, policy))), Ok(Bitcoin(INS_REGISTER_WALLET, RegisterData(h, policy))))
    ensures Serving(Running(RegisterWallet(policy), Some(PolicyStore(h, policy))))
  {
    hide PolicyStore, RegisterData, Bitcoin;
  }

  lemma PolicySizes(h: Hash, policy: LedgerWalletPolicy)
    requires Fits(PolicyStore(h, policy))
    ensures |Serialize(h, policy)| < U64 && |policy.template| < U64 && |policy.keys| < U64
  {
    hide PolicyStore, Serialize, Closed;
    PolicyStoreKnowledge(h, policy);
  }

  lemma ReadsRegistered(h: Hash, s: StoreState, policy: LedgerWalletPolicy)
    requires Sound(h, s, StoreStrings(h, s)) && policy.template in s.preimages && policy.keys in s.lists
    requires |policy.name| <= 255 && |Serialize(h, policy)| < U64 && |policy.template| < U64 && |policy.keys| < U64
    ensures ReadRegistered(h, StoreHost(h), s, RegisterData(h, policy)) == (Got(ViewOf(policy)), s)
  {
    hide Sound, Serialize, ParsePolicy, ReadPolicyParts, StoreHost, Decode, EncodeLen, Encode, StoreStrings;
    var bytes := Serialize(h, policy);
    var data := RegisterData(h, policy);
    EncodeLenIs(|bytes|);
    DecodeEncode(|bytes|, bytes);
    assert data[|EncodeLen(|bytes|)|..] == bytes;
    ParsesPolicy(h, policy);
    ReadsPolicyParts(h, s, policy, StoreStrings(h, s));
  }

  lemma RegisteredNameIsShort(h: Hash, s: StoreState, data: Bytes)
    ensures var r := ReadRegistered(h, StoreHost(h), s, data).0; r.Got? ==> |r.value.name| <= 255
  {
    hide StoreHost, ParsePolicy, ReadTemplate, ReadFrom, Decode;
    if Decode(data).Ok? && |data| == Decode(data).value.read + Decode(data).value.value {
      ParsedNameIsShort(data[Decode(data).value.read..]);
    }
  }

  // ---- reading a message ----

  /** A device that holds the root and the length sent by SIGN_MESSAGE reads the message
      through the interpreter, or two of the hashed strings collide. */
  lemma {:induction false} MessageIsReadable(h: Hash, lib: Parsers, message: Bytes, path: KeyPath)
    requires message != [] && Fits(EMPTY.WithList(Chunks(message)))
    ensures var s := Start(h, New, SignMessage(message, path)).0;
            var r := ReadFrom(h, LedgerHost(h, lib), s, ListRoot(h, Chunks(message)), (|message| + 63) / 64, 0);
            (r.0.Got? && Concat(r.0.value) == message && r.1 == s) || ClashIn(h, StoreStrings(h, EMPTY.WithList(Chunks(message))))
  {
    hide *;
    var store := EMPTY.WithList(Chunks(message));
    var s := Start(h, New, SignMessage(message, path)).0;
    var root, size := ListRoot(h, Chunks(message)), (|message| + 63) / 64;
    StartsMessage(h, message, path);
    StartServes(s, SignMessage(message, path), store);
    ServesAsStore(h, lib, s);
    ListsAlike(h, StoreHost(h), LedgerHost(h, lib), Holds(s), store, s, root, size, 0);
    AlikeFromStart(s, ReadFrom(h, StoreHost(h), store, root, size, 0), ReadFrom(h, LedgerHost(h, lib), s, root, size, 0));
    ChunksAreMessage(message);
    if !ClashIn(h, StoreStrings(h, store)) {
      IsSound(h, store);
      ReadsList(h, store, Chunks(message), StoreStrings(h, store));
    }
  }

  lemma StartsMessage(h: Hash, message: Bytes, path: KeyPath)
    requires message != []
    ensures var store := EMPTY.WithList(Chunks(message));
            && Start(h, New, SignMessage(message, path)).0 == Running(SignMessage(message, path), Some(store))
            && store.queue == [] && Closed(store) && Chunks(message) in store.lists
  {
    hide Chunks, MessageData;
    WithListExtends(EMPTY, Chunks(message));
    assert Closed(EMPTY);
  }

  // ---- a whole conversation ----

  type LedgerTalk = Talk<State, Transmit, LedgerError>

  function Exchanging(h: Hash, lib: Parsers): (State, Bytes) -> (State, Result<Option<Transmit>, LedgerError>) {
    (s, data) => ExchangeStep(h, lib, s, data)
  }

  function Conversation(h: Hash, lib: Parsers, s: State, answers: seq<Bytes>): (t: LedgerTalk)
    ensures |t.sent| <= |answers|
  {
    Converse(Exchanging(h, lib), s, answers)
  }

  lemma ConversationUnfolds(h: Hash, lib: Parsers, s: State, answers: seq<Bytes>)
    ensures answers == [] ==> Conversation(h, lib, s, answers) == Talk(s, [], None)
    ensures answers != [] ==>
              var step := ExchangeStep(h, lib, s, answers[0]);
              Conversation(h, lib, s, answers) ==
              if step.1.Err? then Talk(step.0, [], Some(Err(step.1.error)))
              else if step.1.value.None? then Talk(step.0, [], Some(Ok(())))
              else
                var rest := Conversation(h, lib, step.0, answers[1..]);
                Talk(rest.s, [step.1.value.value] + rest.sent, rest.ended)
  {
    hide ExchangeStep;
    ConverseUnfolds(Exchanging(h, lib), s, answers);
  }

  // ---- which answers stop the program ----

  /** A state in which a started command waits. */
  predicate At(command: Command, s: State) {
    && Active(s) && WellFormed(s)
    && (s.Running? ==> (s.command.SignMessage? <==> command.SignMessage?))
    && (!s.Running? ==> !command.SignMessage?)
  }

  lemma StartsAt(h: Hash, command: Command)
    requires Start(h, New, command).1.Ok?
    ensures At(command, Start(h, New, command).0)
  {
    hide PolicyStore, SessionStore, SignPsbtData, RegisterData, MessageData, XpubData, Chunks, Bitcoin, Transmission;
  }

  lemma StaysAt(h: Hash, lib: Parsers, command: Command, s: State, data: Bytes)
    requires At(command, s)
    ensures var (s', r) := ExchangeStep(h, lib, s, data);
            && (r.Ok? && r.value.Some? ==> At(command, s'))
            && (r == Err(Panicked) <==> command.SignMessage? && data == BARE_OK)
  {
    hide ParseResponse, Step, Bitcoin, PolicyStore, AddressData, XpubData, Applied;
    PanicsExactly(h, lib, s, data);
  }

  lemma {:induction false} PanicsFrom(h: Hash, lib: Parsers, command: Command, s: State, answers: seq<Bytes>)
    requires At(command, s)
    ensures var t := Conversation(h, lib, s, answers);
            t.ended == Some(Err(Panicked)) <==> command.SignMessage? && |t.sent| < |answers| && answers[|t.sent|] == BARE_OK
    decreases |answers|
  {
    hide *;
    ConversationUnfolds(h, lib, s, answers);
    if answers != [] {
      StaysAt(h, lib, command, s, answers[0]);
      var (s', r) := ExchangeStep(h, lib, s, answers[0]);
      if r.Ok? && r.value.Some? {
        PanicsFrom(h, lib, command, s', answers[1..]);
      }
    }
  }

  /** Whatever the device answers, a started command stops the program if and only if it
      signs a message and the answer after those to which something was sent is a bare OK. */
  lemma {:induction false} CommandPanicsExactly(h: Hash, lib: Parsers, command: Command, answers: seq<Bytes>)
    requires Start(h, New, command).1.Ok?
    ensures var t := Conversation(h, lib, Start(h, New, command).0, answers);
            t.ended == Some(Err(Panicked)) <==> command.SignMessage? && |t.sent| < |answers| && answers[|t.sent|] == BARE_OK
  {
    hide *;
    StartsAt(h, command);
    PanicsFrom(h, lib, command, Start(h, New, command).0, answers);
  }

  /** For instance the first answer to any SIGN_MESSAGE. */
  lemma {:induction false} BareOkPanics(h: Hash, lib: Parsers, message: Bytes, path: KeyPath, more: seq<Bytes>)
    requires message != []
    ensures Start(h, New, SignMessage(message, path)).1.Ok?
    ensures Conversation(h, lib, Start(h, New, SignMessage(message, path)).0, [BARE_OK] + more).ended == Some(Err(Panicked))
  {
    hide Conversation, Exchanging, ExchangeStep, MessageData, Chunks;
    var command := SignMessage(message, path);
    var s := Start(h, New, command).0;
    StartsAt(h, command);
    StaysAt(h, lib, command, s, BARE_OK);
    ConversationUnfolds(h, lib, s, [BARE_OK] + more);
  }

  // ---- what a signed PSBT holds ----

  /** Every request is answered by the store. */
  predicate AllAnswered(h: Hash, s: StoreState, requests: seq<Bytes>)
    decreases |requests|
  {
    requests == [] || (Step(h, s, requests[0]).1.Ok? && AllAnswered(h, Step(h, s, requests[0]).0, requests[1..]))
  }

  function Interruptions(requests: seq<Bytes>): (r: seq<Bytes>)
    ensures |r| == |requests|
  {
    if requests == [] then [] else [Interrupting(requests[0])] + Interruptions(requests[1..])
  }

  /** The data of answers. */
  function Requests(answers: seq<Bytes>): (r: seq<Bytes>)
    ensures |r| == |answers|
  {
    if answers == [] then []
    else [match ParseResponse(answers[0]) case Ok(res) => res.data case Err(_) => []] + Requests(answers[1..])
  }

  function Signing(psbt: Psbt, policy: LedgerWalletPolicy, hmac: Option<Bytes32>, store: StoreState): State {
    Running(SignPsbt(psbt, policy, hmac), Some(store))
  }

  /** How one answer ends a signing session: with a signed PSBT exactly if it is OK and every
      yield can be applied. */
  lemma LastAnswer(h: Hash, lib: Parsers, psbt: Psbt, policy: LedgerWalletPolicy, hmac: Option<Bytes32>, store: StoreState, data: Bytes)
    ensures var (s', r) := ExchangeStep(h, lib, Signing(psbt, policy, hmac, store), data);
            var ok := ParseResponse(data).Ok? && ParseResponse(data).value.status == OK;
            var signed := Applied(lib.signatures, psbt.inputs, store.yielded);
            && (r.Ok? && s'.Finished? && s'.response.SignedPsbt? <==> ok && signed.Some?)
            && (ok && signed.Some? ==> r.value.None? && s' == Finished(SignedPsbt(psbt.(inputs := signed.value))))
            && (ok && signed.None? ==> r == Err(InvalidPsbt))
  {
    hide ParseResponse, Step, Applied;
  }

  /** An answer to which something is sent is a request that the store answered. */
  lemma SentMeansAnswered(h: Hash, lib: Parsers, psbt: Psbt, policy: LedgerWalletPolicy, hmac: Option<Bytes32>, store: StoreState,
                          data: Bytes)
    ensures var (s', r) := ExchangeStep(h, lib, Signing(psbt, policy, hmac, store), data);
            r.Ok? && r.value.Some? ==>
              var request := Requests([data])[0];
              && data == Interrupting(request) && Step(h, store, request).1.Ok?
              && s' == Signing(psbt, policy, hmac, Step(h, store, request).0)
  {
    hide ParseResponse, Step, Applied, ApduResponse.Encode;
    var parsed := ParseResponse(data);
    if parsed.Ok? {
      ResponsesRoundTrip(data, parsed.value);
    }
  }

  /** Where the answers lead: as long as something is sent they are requests that the store
      answers, and the state holds the store after them. */
  lemma {:induction false} SigningConversation(h: Hash, lib: Parsers, psbt: Psbt, policy: LedgerWalletPolicy, hmac: Option<Bytes32>,
                                               store: StoreState, answers: seq<Bytes>)
    ensures var t := Conversation(h, lib, Signing(psbt, policy, hmac, store), answers);
            var n := |t.sent|;
            var requests := Requests(answers[..n]);
            var last := StoreRuns.Run(h, store, requests);
            && answers[..n] == Interruptions(requests) && AllAnswered(h, store, requests)
            && (t.ended.None? ==> n == |answers| && t.s == Signing(psbt, policy, hmac, last))
            && (t.ended.Some? ==>
                  && n < |answers|
                  && var step := ExchangeStep(h, lib, Signing(psbt, policy, hmac, last), answers[n]);
                     && t.s == step.0 && (t.ended == Some(Ok(())) <==> step.1.Ok?)
                     && (step.1.Err? ==> t.ended == Some(Err(step.1.error))))
    decreases |answers|
  {
    hide ExchangeStep, Step, ParseResponse, Interrupting, Signing, Conversation, Exchanging;
    var s := Signing(psbt, policy, hmac, store);
    ConversationUnfolds(h, lib, s, answers);
    if answers != [] {
      SentMeansAnswered(h, lib, psbt, policy, hmac, store, answers[0]);
      var (s', r) := ExchangeStep(h, lib, s, answers[0]);
      if r.Ok? && r.value.Some? {
        var request := Requests([answers[0]])[0];
        var store' := Step(h, store, request).0;
        SigningConversation(h, lib, psbt, policy, hmac, store', answers[1..]);
        var n := |Conversation(h, lib, s', answers[1..]).sent|;
        assert answers[..n + 1][1..] == answers[1..][..n];
        assert answers[..n + 1] == [answers[0]] + answers[1..][..n];
        assert Requests(answers[..n + 1]) == [request] + Requests(answers[1..][..n]);
      } else {
        assert answers[..0] == [];
      }
    }
  }

  predicate IsOk(answer: Bytes) {
    ParseResponse(answer).Ok? && ParseResponse(answer).value.status == OK
  }

  /** Whatever a device answers to SIGN_PSBT, the command ends with a signed PSBT if and only
      if the answer after those to which something was sent is OK and every yield can be
      applied. It is then the original PSBT with exactly the payloads of the YIELDs among
      those answers applied, in order; and all of them are requests that the store answered. */
  lemma {:induction false} SignedPsbtArises(h: Hash, lib: Parsers, psbt: Psbt, policy: LedgerWalletPolicy, hmac: Option<Bytes32>,
                                            answers: seq<Bytes>)
    requires CanSign(psbt)
    ensures var t := Conversation(h, lib, Start(h, New, SignPsbt(psbt, policy, hmac)).0, answers);
            var n := |t.sent|;
            var requests := Requests(answers[..n]);
            var signed := Applied(lib.signatures, psbt.inputs, Yields(requests));
            && answers[..n] == Interruptions(requests)
            && AllAnswered(h, SessionStore(h, RequestOf(psbt, policy, hmac)), requests)
            && (t.ended == Some(Ok(())) && t.s.Finished? && t.s.response.SignedPsbt?
                <==> n < |answers| && IsOk(answers[n]) && signed.Some?)
            && (n < |answers| && IsOk(answers[n]) && signed.Some? ==> t.s == Finished(SignedPsbt(psbt.(inputs := signed.value))))
  {
    hide *;
    RequestParts(psbt, policy, hmac);
    StartsSigning(h, psbt, policy, hmac);
    var store := SessionStore(h, RequestOf(psbt, policy, hmac));
    NothingYielded(h, RequestOf(psbt, policy, hmac));
    SigningIs(psbt, policy, hmac, store);
    SigningConversation(h, lib, psbt, policy, hmac, store, answers);
    var t := Conversation(h, lib, Signing(psbt, policy, hmac, store), answers);
    var n := |t.sent|;
    var requests := Requests(answers[..n]);
    RunFrame(h, store, requests);
    var last := StoreRuns.Run(h, store, requests);
    assert last.yielded == Yields(requests);
    SigningIs(psbt, policy, hmac, last);
    if n < |answers| {
      LastAnswer(h, lib, psbt, policy, hmac, last, answers[n]);
      IsOkIs(answers[n]);
    }
  }

  lemma IsOkIs(answer: Bytes)
    ensures IsOk(answer) <==> ParseResponse(answer).Ok? && ParseResponse(answer).value.status == OK
  {
  }

  lemma SigningIs(psbt: Psbt, policy: LedgerWalletPolicy, hmac: Option<Bytes32>, store: StoreState)
    ensures Signing(psbt, policy, hmac, store) == Running(SignPsbt(psbt, policy, hmac), Some(store))
  {
  }

  lemma NothingYielded(h: Hash, req: SignRequest)
    requires req.inputs != [] && req.outputs != []
    ensures SessionStore(h, req).yielded == []
  {
    hide Commitments, Serialize;
    MappingsYieldNothing(PolicyStore(h, req.policy).WithMapping(req.global), req.inputs);
    MappingsYieldNothing(WithMappings(PolicyStore(h, req.policy).WithMapping(req.global), req.inputs), req.outputs);
  }

  lemma {:induction false} MappingsYieldNothing(s: StoreState, maps: seq<PsbtMap>)
    ensures WithMappings(s, maps).yielded == s.yielded
  {
    if maps != [] {
      MappingsYieldNothing(s, maps[..|maps| - 1]);
    }
  }

  lemma {:induction false} RequestsAreSent(h: Hash, lib: Parsers, psbt: Psbt, policy: LedgerWalletPolicy, hmac: Option<Bytes32>,
                                           store: StoreState, requests: seq<Bytes>)
    requires AllAnswered(h, store, requests)
    ensures var t := Conversation(h, lib, Signing(psbt, policy, hmac, store), Interruptions(requests));
            t.ended.None? && |t.sent| == |requests| && t.s == Signing(psbt, policy, hmac, StoreRuns.Run(h, store, requests))
    decreases |requests|
  {
    hide Step, ExchangeStep, Conversation, Interrupting;
    var s := Signing(psbt, policy, hmac, store);
    ConversationUnfolds(h, lib, s, Interruptions(requests));
    if requests != [] {
      Interrupts(h, lib, s, requests[0]);
      assert Interruptions(requests)[1..] == Interruptions(requests[1..]);
      RequestsAreSent(h, lib, psbt, policy, hmac, Step(h, store, requests[0]).0, requests[1..]);
    }
  }

  /** And every such session exists: a device may send any requests that the store answers,
      and then OK; the command ends with the original PSBT to which the payloads of the
      YIELDs were applied, or with an error if one of them is unusable. */
  lemma {:induction false} SignedPsbtHasTheYields(h: Hash, lib: Parsers, psbt: Psbt, policy: LedgerWalletPolicy, hmac: Option<Bytes32>,
                                                  requests: seq<Bytes>, data: Bytes)
    requires CanSign(psbt) && AllAnswered(h, SessionStore(h, RequestOf(psbt, policy, hmac)), requests)
    ensures var answers := Interruptions(requests) + [ApduResponse(data, OK).Encode()];
            var t := Conversation(h, lib, Start(h, New, SignPsbt(psbt, policy, hmac)).0, answers);
            var signed := Applied(lib.signatures, psbt.inputs, Yields(requests));
            && |t.sent| == |requests|
            && (signed.Some? ==> t.ended == Some(Ok(())) && t.s == Finished(SignedPsbt(psbt.(inputs := signed.value))))
            && (signed.None? ==> t.ended == Some(Err(InvalidPsbt)))
  {
    hide *;
    RequestParts(psbt, policy, hmac);
    StartsSigning(h, psbt, policy, hmac);
    var store := SessionStore(h, RequestOf(psbt, policy, hmac));
    NothingYielded(h, RequestOf(psbt, policy, hmac));
    SigningIs(psbt, policy, hmac, store);
    RequestsAreSent(h, lib, psbt, policy, hmac, store, requests);
    RunFrame(h, store, requests);
    var last := StoreRuns.Run(h, store, requests);
    assert last.yielded == Yields(requests);
    var answer := ApduResponse(data, OK).Encode();
    ResponsesRoundTrip(answer, ApduResponse(data, OK));
    LastAnswer(h, lib, psbt, policy, hmac, last, answer);
    ConversationGoesOn(h, lib, Signing(psbt, policy, hmac, store), Interruptions(requests), [answer]);
    ConversationUnfolds(h, lib, Signing(psbt, policy, hmac, last), [answer]);
  }

  lemma ConversationGoesOn(h: Hash, lib: Parsers, s: State, a: seq<Bytes>, b: seq<Bytes>)
    requires Conversation(h, lib, s, a).ended.None?
    ensures var t := Conversation(h, lib, s, a);
            var u := Conversation(h, lib, t.s, b);
            Conversation(h, lib, s, a + b) == Talk(u.s, t.sent + u.sent, u.ended)
  {
    hide ExchangeStep, Exchanging;
    ConverseAppend(Exchanging(h, lib), s, a, b);
  }
}
