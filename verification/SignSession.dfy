/** Starting a PSBT signing session (bhwi/src/ledger/mod.rs) and what a device can
    reach from it. The key/value pairs of the PSBT maps are taken as given. */
module SignSession {
  import opened Common
  import opened CompactSize
  import opened MerkleProof
  import opened KeyOrder
  import opened StoreSpec
  import opened Store
  import opened StoreRuns
  import opened Device
  import opened Lookup
  import opened Wallet
  import opened Apdu
  import opened SessionReads

  type PsbtMap = m: Mapping | m != [] witness [Pair([], [])]

  datatype SignRequest = SignRequest(
    policy: LedgerWalletPolicy, hmac: Option<Bytes32>, global: PsbtMap, inputs: seq<PsbtMap>, outputs: seq<PsbtMap>)

  // ---- start ----

  function Commitments(h: Hash, maps: seq<PsbtMap>): (r: seq<Bytes>)
    ensures |r| == |maps| && forall i :: 0 <= i < |r| ==> r[i] == MapCommitment(h, maps[i])
  {
    seq(|maps|, i requires 0 <= i < |maps| => MapCommitment(h, maps[i]))
  }

  function WithMappings(s: StoreState, maps: seq<PsbtMap>): StoreState {
    if maps == [] then s else WithMappings(s, maps[..|maps| - 1]).WithMapping(maps[|maps| - 1])
  }

  function SessionStore(h: Hash, req: SignRequest): StoreState
    requires req.inputs != [] && req.outputs != []
  {
    WithMappings(WithMappings(PolicyStore(h, req.policy).WithMapping(req.global), req.inputs), req.outputs)
      .WithList(Commitments(h, req.inputs)).WithList(Commitments(h, req.outputs))
  }

  function HmacBytes(hmac: Option<Bytes32>): Bytes32 {
    match hmac case Some(bytes) => bytes case None => seq(32, _ => 0)
  }

  function SignPsbtData(h: Hash, req: SignRequest): Bytes
    requires req.inputs != [] && req.outputs != []
  {
    MapCommitment(h, req.global)
    + EncodeLen(|req.inputs|) + ListRoot(h, Commitments(h, req.inputs)).raw
    + EncodeLen(|req.outputs|) + ListRoot(h, Commitments(h, req.outputs)).raw
    + Id(h, req.policy).raw + HmacBytes(req.hmac)
  }

  method MapCommitments(h: Hash, maps: seq<PsbtMap>) returns (r: seq<Bytes>)
    ensures r == Commitments(h, maps)
  {
    r := [];
    for i := 0 to |maps|
      invariant r == Commitments(h, maps)[..i]
    {
      var c := GetMerkleizedMapCommitment(h, maps[i]);
      r := r + [c];
    }
  }

  method AddMappings(store: DelegatedStore, maps: seq<PsbtMap>)
    requires store.Valid()
    modifies store
    ensures store.Valid() && store.State() == WithMappings(old(store.State()), maps)
  {
    for i := 0 to |maps|
      invariant store.Valid() && store.State() == WithMappings(old(store.State()), maps[..i])
    {
      assert maps[..i + 1][..i] == maps[..i];
      store.AddKnownMapping(maps[i]);
    }
    assert maps[..|maps|] == maps;
  }

  /** The SignPsbt branch of `start`. The commitments in the command are computed apart
      from the trees in the store; a PSBT without inputs or outputs reaches the
      assertion of the Merkle tree. */
  method StartSignPsbt(h: Hash, req: SignRequest) returns (store: DelegatedStore, command: ApduCommand)
    requires req.inputs != [] && req.outputs != []
    ensures fresh(store) && store.Valid() && store.h == h && store.State() == SessionStore(h, req)
    ensures command == BitcoinCommand(INS_SIGN_PSBT, SignPsbtData(h, req))
  {
    var globalCommitment := GetMerkleizedMapCommitment(h, req.global);
    var inputCommitments := MapCommitments(h, req.inputs);
    var outputCommitments := MapCommitments(h, req.outputs);
    store := ToStore(h, req.policy);
    store.AddKnownMapping(req.global);
    AddMappings(store, req.inputs);
    AddMappings(store, req.outputs);
    var inputsRoot := store.AddKnownList(inputCommitments);
    var outputsRoot := store.AddKnownList(outputCommitments);
    var data := globalCommitment
                + EncodeLen(|req.inputs|) + inputsRoot.raw
                + EncodeLen(|req.outputs|) + outputsRoot.raw
                + Id(h, req.policy).raw + HmacBytes(req.hmac);
    command := BitcoinCommand(INS_SIGN_PSBT, data);
  }

  /** The SIGN_PSBT command always fits into one APDU. */
  lemma {:induction false} SignPsbtFits(h: Hash, req: SignRequest)
    requires req.inputs != [] && req.outputs != []
    ensures |SignPsbtData(h, req)| <= 219
    ensures ParseCommand(BitcoinCommand(INS_SIGN_PSBT, SignPsbtData(h, req)).Encode())
            == Some(BitcoinCommand(INS_SIGN_PSBT, SignPsbtData(h, req)))
  {
    hide ListRoot, Commitments, Id, EncodeLen;
    CommandArrives(BitcoinCommand(INS_SIGN_PSBT, SignPsbtData(h, req)));
  }

  // ---- closure of the session ----

  lemma {:induction false} ReadsFrom(h: Hash, s: StoreState, l: ElementList, index: nat, strings: set<Bytes>)
    requires Sound(h, s, strings) && l in s.lists && index <= |l|
    ensures ReadFrom(h, StoreHost(h), s, ListRoot(h, l), |l|, index) == (Got(l[index..]), s)
    decreases |l| - index
  {
    hide Sound, ReadElement, ListRoot, StoreHost;
    if index < |l| {
      ReadsElement(h, s, l, index, strings);
      ReadsFrom(h, s, l, index + 1, strings);
      assert [l[index]] + l[index + 1..] == l[index..];
    } else {
      assert l[index..] == [];
    }
  }

  lemma ReadsList(h: Hash, s: StoreState, l: ElementList, strings: set<Bytes>)
    requires Sound(h, s, strings) && l in s.lists
    ensures ReadFrom(h, StoreHost(h), s, ListRoot(h, l), |l|, 0) == (Got(l), s)
  {
    ReadsFrom(h, s, l, 0, strings);
    assert l[0..] == l;
  }

  /** The trees of a mapping are known. */
  ghost predicate KnowsMapping(s: StoreState, mapping: PsbtMap) {
    SortByKeySorts(mapping);
    Keys(SortByKey(mapping)) in s.lists && Values(SortByKey(mapping)) in s.lists
  }

  lemma ReadsMap(h: Hash, s: StoreState, mapping: PsbtMap, strings: set<Bytes>)
    requires Sound(h, s, strings) && KnowsMapping(s, mapping)
    ensures ReadMap(h, StoreHost(h), s, MapCommitment(h, mapping)) == (Got(SortByKey(mapping)), s)
  {
    hide StoreHost, ReadFrom, ListRoot, SortByKey, ParseCommitment, StoreStrings, Closed, Keys, Values;
    var sorted := SortByKey(mapping);
    SortByKeySorts(mapping);
    SoundFacts(h, s, strings);
    hide Sound;
    ParsesCommitment(|sorted|, ListRoot(h, Keys(sorted)), ListRoot(h, Values(sorted)));
    ReadsList(h, s, Keys(sorted), strings);
    ReadsList(h, s, Values(sorted), strings);
    assert Zip(Keys(sorted), Values(sorted)) == sorted;
  }

  function SortedMaps(maps: seq<PsbtMap>): (r: seq<Mapping>)
    ensures |r| == |maps| && forall i :: 0 <= i < |r| ==> r[i] == SortByKey(maps[i])
  {
    seq(|maps|, i requires 0 <= i < |maps| => SortByKey(maps[i]))
  }

  lemma {:induction false} ReadsMaps(h: Hash, s: StoreState, maps: seq<PsbtMap>, strings: set<Bytes>)
    requires Sound(h, s, strings) && forall m :: m in maps ==> KnowsMapping(s, m)
    ensures ReadMaps(h, StoreHost(h), s, Commitments(h, maps)) == (Got(SortedMaps(maps)), s)
  {
    hide StoreHost, Sound, ReadMap, KnowsMapping, MapCommitment, SortByKey;
    if maps != [] {
      ReadsMap(h, s, maps[0], strings);
      ReadsMaps(h, s, maps[1..], strings);
      assert Commitments(h, maps)[1..] == Commitments(h, maps[1..]);
      assert [SortByKey(maps[0])] + SortedMaps(maps[1..]) == SortedMaps(maps);
    }
  }

  lemma ReadsCommitted(h: Hash, s: StoreState, maps: seq<PsbtMap>, strings: set<Bytes>)
    requires Sound(h, s, strings) && maps != [] && forall m :: m in maps ==> KnowsMapping(s, m)
    requires Commitments(h, maps) in s.lists
    ensures ReadCommitted(h, StoreHost(h), s, ListRoot(h, Commitments(h, maps)), |maps|) == (Got(SortedMaps(maps)), s)
  {
    hide StoreHost, Sound, ReadFrom, ReadMaps, Commitments, KnowsMapping, ListRoot;
    ReadsList(h, s, Commitments(h, maps), strings);
    ReadsMaps(h, s, maps, strings);
  }

  function ViewOf(p: LedgerWalletPolicy): PolicyView {
    PolicyView(p.version, p.name, p.template, p.keys)
  }

  lemma ReadsPolicy(h: Hash, s: StoreState, p: LedgerWalletPolicy, strings: set<Bytes>)
    requires Sound(h, s, strings) && |p.name| <= 255
    requires Serialize(h, p) in s.preimages && p.template in s.preimages && p.keys in s.lists
    ensures ReadPolicy(h, StoreHost(h), s, Id(h, p)) == (Got(ViewOf(p)), s)
  {
    hide StoreHost, ReadPreimage, Serialize, ParsePolicy, ReadPolicyParts, StoreStrings, Closed;
    ReadsPreimage(h, s, Serialize(h, p), strings);
    SoundFacts(h, s, strings);
    ParsesPolicy(h, p);
    ReadsPolicyParts(h, s, p, strings);
  }

  lemma ReadsPolicyParts(h: Hash, s: StoreState, p: LedgerWalletPolicy, strings: set<Bytes>)
    requires Sound(h, s, strings)
    requires p.template in s.preimages && p.keys in s.lists
    ensures ReadPolicyParts(h, StoreHost(h), s, Header(h, p)) == (Got(ViewOf(p)), s)
  {
    hide StoreHost, ReadPreimage, ReadFrom, ListRoot, Sound;
    ReadsList(h, s, p.keys, strings);
    if p.version == V2 {
      ReadsPreimage(h, s, p.template, strings);
      assert Digest(h(p.template).raw) == h(p.template);
    }
  }

  lemma ParsesCounted(count: nat, root: Digest, rest: Bytes)
    requires count < U64
    ensures ParseCounted(EncodeLen(count) + root.raw + rest) == Some(Counted(count, root, rest))
  {
    hide Encode, Decode;
    var bytes := EncodeLen(count) + root.raw + rest;
    DecodeEncode(count, root.raw + rest);
    assert bytes == EncodeLen(count) + (root.raw + rest);
    assert bytes[|EncodeLen(count)|..] == root.raw + rest;
    assert (root.raw + rest)[..32] == root.raw && (root.raw + rest)[32..] == rest;
    assert Digest(root.raw) == root;
  }

  function HeaderOf(h: Hash, req: SignRequest): SessionHeader
    requires req.inputs != [] && req.outputs != []
  {
    SessionHeader(MapCommitment(h, req.global), |req.inputs|, ListRoot(h, Commitments(h, req.inputs)),
                  |req.outputs|, ListRoot(h, Commitments(h, req.outputs)), Id(h, req.policy), HmacBytes(req.hmac))
  }

  lemma CommitmentShape(h: Hash, mapping: PsbtMap, rest: Bytes)
    requires |mapping| < U64
    ensures var c := MapCommitment(h, mapping);
            && Decode(c + rest).Ok? && |c| == Decode(c + rest).value.read + 64
  {
    hide Encode, Decode, SortByKey, ListRoot;
    SortByKeySorts(mapping);
    var sorted := SortByKey(mapping);
    var roots := ListRoot(h, Keys(sorted)).raw + ListRoot(h, Values(sorted)).raw;
    DecodeEncode(|sorted|, roots + rest);
    assert MapCommitment(h, mapping) + rest == EncodeLen(|sorted|) + (roots + rest);
  }

  lemma ParsesSession(h: Hash, req: SignRequest)
    requires req.inputs != [] && req.outputs != []
    requires |req.global| < U64 && |req.inputs| < U64 && |req.outputs| < U64
    ensures ParseSession(SignPsbtData(h, req)) == Some(HeaderOf(h, req))
  {
    hide MapCommitment, ListRoot, Commitments, EncodeLen, Id, Decode, ParseCounted, HmacBytes;
    var c := MapCommitment(h, req.global);
    var inRoot, outRoot := ListRoot(h, Commitments(h, req.inputs)), ListRoot(h, Commitments(h, req.outputs));
    var tail := Id(h, req.policy).raw + HmacBytes(req.hmac);
    var outs := EncodeLen(|req.outputs|) + outRoot.raw + tail;
    var ins := EncodeLen(|req.inputs|) + inRoot.raw + outs;
    var data := SignPsbtData(h, req);
    assert data == c + ins;
    hide SignPsbtData;
    CommitmentShape(h, req.global, ins);
    ParsesCounted(|req.inputs|, inRoot, outs);
    ParsesCounted(|req.outputs|, outRoot, tail);
    assert data[..|c|] == c && data[|c|..] == ins;
    assert tail[..32] == Id(h, req.policy).raw && tail[32..] == HmacBytes(req.hmac);
    assert Digest(Id(h, req.policy).raw) == Id(h, req.policy);
  }

  /** `t` knows all that `s` knows, and what it knows more is closed. */
  ghost predicate Extends(s: StoreState, t: StoreState) {
    && t.queue == s.queue
    && (forall p :: p in s.preimages ==> p in t.preimages)
    && (forall l :: l in s.lists ==> l in t.lists)
    && (Closed(s) ==> Closed(t))
  }

  lemma WithListExtends(s: StoreState, l: ElementList)
    ensures Extends(s, s.WithList(l)) && l in s.WithList(l).lists
  {
    var t := s.WithList(l);
    assert forall p :: p in t.preimages <==> p in s.preimages || p in LeafPreimages(l);
    forall m, x | Closed(s) && m in t.lists && x in m ensures LeafBytes(x) in t.preimages {
      if m !in s.lists {
        var i :| 0 <= i < |l| && l[i] == x;
        assert LeafPreimages(l)[i] == LeafBytes(x);
      }
    }
  }

  lemma WithMappingExtends(s: StoreState, m: PsbtMap)
    ensures Extends(s, s.WithMapping(m)) && KnowsMapping(s.WithMapping(m), m)
  {
    hide Closed, SortByKey;
    SortByKeySorts(m);
    WithListExtends(s, Keys(SortByKey(m)));
    WithListExtends(s.WithList(Keys(SortByKey(m))), Values(SortByKey(m)));
  }

  lemma {:induction false} WithMappingsExtends(s: StoreState, maps: seq<PsbtMap>)
    ensures Extends(s, WithMappings(s, maps))
    ensures forall m :: m in maps ==> KnowsMapping(WithMappings(s, maps), m)
  {
    hide Closed;
    if maps != [] {
      var init, last := maps[..|maps| - 1], maps[|maps| - 1];
      WithMappingsExtends(s, init);
      WithMappingExtends(WithMappings(s, init), last);
      assert maps == init + [last];
    }
  }

  /** What the store of a session knows. */
  lemma SessionKnowledge(h: Hash, req: SignRequest)
    requires req.inputs != [] && req.outputs != []
    ensures var s := SessionStore(h, req);
            && s.queue == [] && Closed(s)
            && Serialize(h, req.policy) in s.preimages && req.policy.template in s.preimages && req.policy.keys in s.lists
            && KnowsMapping(s, req.global)
            && (forall m :: m in req.inputs ==> KnowsMapping(s, m))
            && (forall m :: m in req.outputs ==> KnowsMapping(s, m))
            && Commitments(h, req.inputs) in s.lists && Commitments(h, req.outputs) in s.lists
  {
    hide Serialize, Commitments, SortByKey, Keys, Values;
    var s0 := PolicyStore(h, req.policy);
    PolicyStoreKnowledge(h, req.policy);
    hide PolicyStore, Closed;
    var s1 := s0.WithMapping(req.global);
    WithMappingExtends(s0, req.global);
    var s2 := WithMappings(s1, req.inputs);
    WithMappingsExtends(s1, req.inputs);
    var s3 := WithMappings(s2, req.outputs);
    WithMappingsExtends(s2, req.outputs);
    var s4 := s3.WithList(Commitments(h, req.inputs));
    WithListExtends(s3, Commitments(h, req.inputs));
    WithListExtends(s4, Commitments(h, req.outputs));
  }

  lemma PolicyStoreKnowledge(h: Hash, p: LedgerWalletPolicy)
    ensures var s := PolicyStore(h, p);
            s.queue == [] && Closed(s) && Serialize(h, p) in s.preimages && p.template in s.preimages && p.keys in s.lists
  {
    hide Serialize;
    var s := EMPTY.WithPreimage(Serialize(h, p));
    WithListExtends(s, p.keys);
    assert Closed(s);
    var t := s.WithList(p.keys);
    assert forall x :: x in t.preimages ==> x in t.WithPreimage(p.template).preimages;
  }

  function ViewOfRequest(req: SignRequest): SessionView {
    SessionView(ViewOf(req.policy), HmacBytes(req.hmac), SortByKey(req.global),
                SortedMaps(req.inputs), SortedMaps(req.outputs))
  }

  lemma ReadsParts(h: Hash, req: SignRequest)
    requires req.inputs != [] && req.outputs != [] && Fits(SessionStore(h, req))
    requires !ClashIn(h, StoreStrings(h, SessionStore(h, req)))
    ensures var s := SessionStore(h, req);
            ReadParts(h, StoreHost(h), s, HeaderOf(h, req), ViewOf(req.policy)) == (Got(ViewOfRequest(req)), s)
  {
    hide ListRoot, Commitments, StoreStrings, ClashIn, SessionStore, ReadMap, ReadCommitted, StoreHost, KnowsMapping, Id,
         MapCommitment, Closed, Serialize, SortByKey;
    var s := SessionStore(h, req);
    SessionKnowledge(h, req);
    ReadsMap(h, s, req.global, StoreStrings(h, s));
    ReadsCommitted(h, s, req.inputs, StoreStrings(h, s));
    ReadsCommitted(h, s, req.outputs, StoreStrings(h, s));
  }

  lemma HeaderParses(h: Hash, req: SignRequest)
    requires req.inputs != [] && req.outputs != [] && Fits(SessionStore(h, req))
    ensures ParseSession(SignPsbtData(h, req)) == Some(HeaderOf(h, req))
  {
    hide ListRoot, Commitments, SessionStore, SignPsbtData, ParseSession, KnowsMapping, HeaderOf, Closed, Serialize;
    SessionKnowledge(h, req);
    CommitmentsLength(h, req.inputs);
    CommitmentsLength(h, req.outputs);
    MappingFits(SessionStore(h, req), req.global);
    ParsesSession(h, req);
  }

  lemma SessionReadIs(h: Hash, req: SignRequest, s: StoreState)
    requires req.inputs != [] && req.outputs != [] && ParseSession(SignPsbtData(h, req)) == Some(HeaderOf(h, req))
    ensures var (policy, s1) := ReadPolicy(h, StoreHost(h), s, Id(h, req.policy));
            ReadSession(h, StoreHost(h), s, SignPsbtData(h, req)) ==
            if policy.Got? then ReadParts(h, StoreHost(h), s1, HeaderOf(h, req), policy.value) else (policy.Failed(), s1)
  {
    hide SignPsbtData, ParseSession, ReadPolicy, ReadParts, StoreHost, Commitments, ListRoot, MapCommitment, Id;
  }

  lemma SessionPolicyReads(h: Hash, req: SignRequest)
    requires req.inputs != [] && req.outputs != [] && Fits(SessionStore(h, req))
    requires |req.policy.name| <= 255 && !ClashIn(h, StoreStrings(h, SessionStore(h, req)))
    ensures var s := SessionStore(h, req);
            ReadPolicy(h, StoreHost(h), s, Id(h, req.policy)) == (Got(ViewOf(req.policy)), s)
  {
    hide SessionStore, StoreStrings, ClashIn, ReadPolicy, StoreHost, Closed, Serialize, Id;
    SessionKnowledge(h, req);
    ReadsPolicy(h, SessionStore(h, req), req.policy, StoreStrings(h, SessionStore(h, req)));
  }

  lemma ShortNameReads(h: Hash, req: SignRequest)
    requires req.inputs != [] && req.outputs != [] && Fits(SessionStore(h, req))
    requires |req.policy.name| <= 255 && !ClashIn(h, StoreStrings(h, SessionStore(h, req)))
    ensures var s := SessionStore(h, req);
            ReadSession(h, StoreHost(h), s, SignPsbtData(h, req)) == (Got(ViewOfRequest(req)), s)
  {
    hide *;
    var s := SessionStore(h, req);
    SessionPolicyReads(h, req);
    HeaderParses(h, req);
    SessionReadIs(h, req, s);
    ReadsParts(h, req);
  }

  lemma LongNameFails(h: Hash, req: SignRequest)
    requires req.inputs != [] && req.outputs != [] && Fits(SessionStore(h, req)) && |req.policy.name| > 255
    ensures var s := SessionStore(h, req);
            ReadSession(h, StoreHost(h), s, SignPsbtData(h, req)).0 != Got(ViewOfRequest(req))
  {
    hide *;
    var s := SessionStore(h, req);
    HeaderParses(h, req);
    SessionReadIs(h, req, s);
    var (policy, s1) := ReadPolicy(h, StoreHost(h), s, Id(h, req.policy));
    ReadNameIsShort(h, s, Id(h, req.policy));
    ViewHasName(req);
    if policy.Got? {
      PartsKeepPolicy(h, s1, HeaderOf(h, req), policy.value);
    }
  }

  lemma ViewHasName(req: SignRequest)
    ensures ViewOfRequest(req).policy.name == req.policy.name
  {
  }

  /** Closure of the signing session: starting from nothing but the data of the
      SIGN_PSBT command, a device reads through the store exactly the policy and every
      pair of every map of the PSBT, and no request on the way is refused, if and only
      if the policy's name has at most 255 bytes; unless two of the strings that were
      hashed collide. */
  lemma {:induction false} SessionIsClosed(h: Hash, req: SignRequest)
    requires req.inputs != [] && req.outputs != [] && Fits(SessionStore(h, req))
    ensures var s := SessionStore(h, req);
            (ReadSession(h, StoreHost(h), s, SignPsbtData(h, req)) == (Got(ViewOfRequest(req)), s) <==> |req.policy.name| <= 255)
            || ClashIn(h, StoreStrings(h, s))
  {
    hide *;
    if !ClashIn(h, StoreStrings(h, SessionStore(h, req))) {
      if |req.policy.name| <= 255 {
        ShortNameReads(h, req);
      } else {
        LongNameFails(h, req);
      }
    }
  }

  lemma PartsKeepPolicy(h: Hash, s: StoreState, header: SessionHeader, policy: PolicyView)
    ensures var r := ReadParts(h, StoreHost(h), s, header, policy).0; r.Got? ==> r.value.policy == policy
  {
    hide ReadMap, ReadCommitted, StoreHost;
  }

  lemma ReadNameIsShort(h: Hash, s: StoreState, id: Digest)
    ensures var r := ReadPolicy(h, StoreHost(h), s, id).0; r.Got? ==> |r.value.name| <= 255
  {
    hide StoreHost, ParsePolicy, ReadPreimage, ReadTemplate, ReadFrom;
    var (c, s1) := ReadPreimage(h, StoreHost(h), s, id);
    if c.Got? {
      ParsedNameIsShort(c.value.bytes);
    }
  }

  lemma MappingFits(s: StoreState, mapping: PsbtMap)
    requires KnowsMapping(s, mapping) && Fits(s)
    ensures |mapping| < U64
  {
    SortByKeySorts(mapping);
    assert |Keys(SortByKey(mapping))| < U64;
  }

  lemma CommitmentsLength(h: Hash, maps: seq<PsbtMap>)
    ensures |Commitments(h, maps)| == |maps|
  {
  }

  /** In particular every key of every map is looked up through the store as in the
      plain map, and every other key is refused. */
  lemma {:induction false} SessionLookups(h: Hash, req: SignRequest, m: PsbtMap, key: Bytes)
    requires req.inputs != [] && req.outputs != [] && Fits(SessionStore(h, req))
    requires m == req.global || m in req.inputs || m in req.outputs
    requires DistinctKeys(m)
    ensures var s := SessionStore(h, req);
            LookupMap(h, StoreHost(h), s, MapCommitment(h, m), key) == (LookedUp(m, key), s)
            || ClashIn(h, StoreStrings(h, s) + {LeafBytes(key)})
  {
    hide SessionStore, StoreHost, LookedUp, StoreStrings, ClashIn, MapCommitment, LookupMap, Closed, SortByKey, Commitments, Serialize;
    SessionKnowledge(h, req);
    LookupRefinesMap(h, SessionStore(h, req), m, key);
  }
}
