/** Reading through the store: reassembly of long answers, and the map lookup over the
    protocol as a refinement of the plain lookup. */
module Lookup {
  import opened Common
  import opened CompactSize
  import opened Merkle
  import opened MerkleProof
  import opened KeyOrder
  import opened StoreSpec
  import opened Store
  import opened StoreRuns
  import opened Device

  // ---- GET_MORE_ELEMENTS until everything is there ----

  /** How many GET_MORE_ELEMENTS empty a queue. */
  function Rounds(count: nat, size: nat): nat
    requires 1 <= size <= 253
    decreases count
  {
    if count == 0 then 0
    else
      DivFits(1, size);
      1 + Rounds(count - Fitting(count, size), size)
  }

  lemma {:induction false} RoundsIsCeil(count: nat)
    ensures Rounds(count, 1) == (count + 252) / 253
    ensures Rounds(count, 32) == (count + 6) / 7
  {
    if count > 0 {
      RoundsIsCeil(count - Fitting(count, 1));
      RoundsIsCeil(count - Fitting(count, 32));
    }
  }

  lemma MoreStep(h: Hash, s: StoreState, size: nat)
    requires s.queue != [] && Uniform(s.queue, size) && (size == 1 || size == 32)
    ensures var n := Fitting(|s.queue|, size);
            && n > 0 && |Concat(s.queue[..n])| == n * size
            && Step(h, s, [GET_MORE_ELEMENTS]) ==
               (s.(queue := s.queue[n..]), Ok([n] + [size] + Concat(s.queue[..n])))
  {
    hide Concat;
    var n := Fitting(|s.queue|, size);
    assert s.queue[0] in s.queue;
    ConcatLength(s.queue[..n], size);
  }

  lemma ConcatSplit(got: Bytes, queue: seq<Bytes>, n: nat)
    requires n <= |queue|
    ensures got + Concat(queue[..n]) + Concat(queue[n..]) == got + Concat(queue)
  {
    assert queue == queue[..n] + queue[n..];
    ConcatAppend(queue[..n], queue[n..]);
  }

  lemma CollectDone(h: Hash, s: StoreState, got: Bytes, size: nat)
    ensures Collect(StoreHost(h), s, got, |got|, size) == (Got(Collected(got, 0)), s)
  {
  }

  lemma CollectStep(h: Hash, s: StoreState, got: Bytes, want: nat, size: nat, s': StoreState, r: Bytes)
    requires |got| < want && Step(h, s, [GET_MORE_ELEMENTS]) == (s', Ok(r))
    requires |r| > 2 && r[1] == size && |r| == 2 + r[0] * size
    ensures var (c, s'') := Collect(StoreHost(h), s', got + r[2..], want, size);
            Collect(StoreHost(h), s, got, want, size) ==
            (if c.Got? then Got(Collected(c.value.bytes, c.value.followUps + 1)) else c, s'')
  {
    hide Step, StoreHost;
    SendsToStore(h, s, [GET_MORE_ELEMENTS]);
  }

  /** Everything that was queued arrives, in order, and the queue is empty again. */
  lemma {:induction false} CollectsQueue(h: Hash, s: StoreState, got: Bytes, want: nat, size: nat)
    requires Uniform(s.queue, size) && (size == 1 || size == 32)
    requires want == |got| + |s.queue| * size
    ensures Collect(StoreHost(h), s, got, want, size) ==
            (Got(Collected(got + Concat(s.queue), Rounds(|s.queue|, size))), s.(queue := []))
    decreases |s.queue|
  {
    hide Step, Fitting, Collect, Concat, StoreHost;
    if s.queue == [] {
      ConcatLength(s.queue, size);
      assert got + Concat(s.queue) == got;
      CollectDone(h, s, got, size);
    } else {
      var n := Fitting(|s.queue|, size);
      MoreStep(h, s, size);
      var now, rest := s.queue[..n], s.queue[n..];
      var s', r := s.(queue := rest), [n] + [size] + Concat(now);
      assert r[2..] == Concat(now);
      assert |s.queue| * size == n * size + |rest| * size;
      CollectStep(h, s, got, want, size, s', r);
      CollectsQueue(h, s', got + Concat(now), want, size);
      ConcatSplit(got, s.queue, n);
    }
  }

  // ---- Stores whose knowledge is closed and collision-free ----

  /** The elements of every known list are known preimages. */
  ghost predicate Closed(s: StoreState) {
    forall l, x :: l in s.lists && x in l ==> LeafBytes(x) in s.preimages
  }

  /** Every string that was hashed for the store. */
  ghost function StoreStrings(h: Hash, s: StoreState): set<Bytes> {
    (set p | p in s.preimages) + (set l, x | l in s.lists && x in ListStrings(h, l) :: x)
  }

  /** The store between two reads: the queue is empty, sizes are machine sizes, and no
      two of the given strings, which include all that were hashed for it, collide. */
  ghost predicate Sound(h: Hash, s: StoreState, strings: set<Bytes>) {
    && s.queue == [] && Fits(s) && Closed(s)
    && StoreStrings(h, s) <= strings && !ClashIn(h, strings)
  }

  lemma SoundFacts(h: Hash, s: StoreState, strings: set<Bytes>)
    requires Sound(h, s, strings)
    ensures forall p :: p in s.preimages ==> p in strings && |p| < U64
    ensures forall l :: l in s.lists ==> ListStrings(h, l) <= strings && |l| < U64
  {
  }

  lemma {:induction false} FindsPreimage(h: Hash, preimages: seq<Bytes>, p: Bytes, strings: set<Bytes>)
    requires p in preimages && !ClashIn(h, strings)
    requires forall q :: q in preimages ==> q in strings
    ensures FindPreimage(h, preimages, h(p).raw) == Some(p)
  {
    if h(preimages[0]).raw == h(p).raw {
      assert h(preimages[0]) == h(p);
      ClashOf(h, strings, preimages[0], p);
    } else {
      FindsPreimage(h, preimages[1..], p, strings);
    }
  }

  /** The first tree with the root of a known list is the tree of that list. */
  lemma {:induction false} FindsList(h: Hash, lists: seq<ElementList>, l: ElementList, strings: set<Bytes>)
    requires l in lists && !ClashIn(h, strings)
    requires forall m :: m in lists ==> ListStrings(h, m) <= strings
    ensures FindList(h, lists, ListRoot(h, l).raw) == Some(l)
  {
    hide ListRoot, ListStrings;
    if ListRoot(h, lists[0]).raw == ListRoot(h, l).raw {
      assert ListRoot(h, lists[0]) == ListRoot(h, l);
      RootBindsList(h, lists[0], l);
    } else {
      FindsList(h, lists[1..], l, strings);
    }
  }

  // ---- GET_PREIMAGE ----

  /** The store's answer for a known preimage. */
  lemma PreimageAnswer(h: Hash, s: StoreState, p: Bytes, strings: set<Bytes>)
    requires Sound(h, s, strings) && p in s.preimages
    ensures var n := FirstPayload(p);
            Step(h, s, PreimageRequest(h(p))) ==
            (s.(queue := Singles(p[n..])), Ok(EncodeLen(|p|) + [n] + p[..n]))
  {
    hide FindPreimage, FirstPayload, GetPreimage;
    SoundFacts(h, s, strings);
    FindsPreimage(h, s.preimages, p, strings);
    PreimageStep(h, s, h(p));
    hide Sound, Step, PreimageRequest;
    GetPreimageFound(h, s, p);
  }

  lemma PreimageStep(h: Hash, s: StoreState, hash: Digest)
    ensures Step(h, s, PreimageRequest(hash)) == GetPreimage(h, s, [0] + hash.raw)
  {
    hide GetPreimage, GetMerkleLeafProof, GetMerkleLeafIndex, GetMoreElements;
    assert PreimageRequest(hash)[1..] == [0] + hash.raw;
  }

  lemma GetPreimageFound(h: Hash, s: StoreState, p: Bytes)
    requires s.queue == [] && FindPreimage(h, s.preimages, h(p).raw) == Some(p)
    ensures var n := FirstPayload(p);
            GetPreimage(h, s, [0] + h(p).raw) == (s.(queue := Singles(p[n..])), Ok(EncodeLen(|p|) + [n] + p[..n]))
  {
    hide FindPreimage, FirstPayload, EncodeLen;
    assert ([0] + h(p).raw)[1..] == h(p).raw;
    assert s.queue + Singles(p[FirstPayload(p)..]) == Singles(p[FirstPayload(p)..]);
  }

  /** A known preimage is read back whole, from its hash, with ceil(rest / 253)
      follow-ups, and the store is as before. */
  lemma {:induction false} ReadsPreimage(h: Hash, s: StoreState, p: Bytes, strings: set<Bytes>)
    requires Sound(h, s, strings) && p in s.preimages
    ensures ReadPreimage(h, StoreHost(h), s, h(p)) == (Got(Collected(p, (|p| - FirstPayload(p) + 252) / 253)), s)
  {
    SendsToStore(h, s, PreimageRequest(h(p)));
    hide StoreHost, Step, EncodeLen, FirstPayload, StoreStrings, Closed, Collect, PreimageRequest, ParsePreimageReply, Concat, Rounds;
    PreimageAnswer(h, s, p, strings);
    var n := FirstPayload(p);
    SoundFacts(h, s, strings);
    ParsesPreimageReply(p);
    CollectsQueue(h, s.(queue := Singles(p[n..])), p[..n], |p|, 1);
    ConcatSingles(p[n..]);
    RoundsIsCeil(|p| - n);
    assert p[..n] + p[n..] == p;
  }

  lemma ParsesPreimageReply(p: Bytes)
    requires |p| < U64
    ensures var n := FirstPayload(p);
            ParsePreimageReply(EncodeLen(|p|) + [n] + p[..n]) == Some(PreimageReply(|p|, p[..n]))
  {
    hide EncodeLen, FirstPayload, Decode, Encode;
    var size, n := EncodeLen(|p|), FirstPayload(p);
    EncodeLenIs(|p|);
    DecodeEncode(|p|, [n] + p[..n]);
    var r := size + [n] + p[..n];
    assert r == size + ([n] + p[..n]);
    assert r[|size| + 1..] == p[..n];
  }

  lemma {:induction false} ConcatSingles(bytes: Bytes)
    ensures Concat(Singles(bytes)) == bytes
  {
    if bytes != [] {
      ConcatSingles(bytes[1..]);
      assert Singles(bytes)[1..] == Singles(bytes[1..]);
    }
  }

  // ---- GET_MERKLE_LEAF_PROOF ----

  lemma {:induction false} SplitsDigests(path: seq<Digest>)
    ensures |Concat(Raws(path))| == 32 * |path|
    ensures SplitDigests(Concat(Raws(path))) == path
  {
    if path != [] {
      SplitsDigests(path[1..]);
      assert Raws(path)[1..] == Raws(path[1..]);
      var bytes := Concat(Raws(path));
      assert bytes[..32] == path[0].raw && bytes[32..] == Concat(Raws(path[1..]));
      assert path == [path[0]] + path[1..];
    }
  }

  lemma LeafRequestParses(root: Digest, size: nat, index: nat)
    requires size < U64 && index < U64
    ensures var request := LeafRequest(root, size, index)[1..];
            && |request| >= 34 && |request| >= 32 + |EncodeLen(size)| && request[..32] == root.raw
            && Decode(request[32..]) == Ok(Decoded(size, |EncodeLen(size)|))
            && DecodeAll(request[32 + |EncodeLen(size)|..]) == Some(index)
  {
    hide Decode, DecodeAll, EncodeLen, Encode;
    EncodeLenIs(size);
    EncodeLenIs(index);
    var request := LeafRequest(root, size, index)[1..];
    assert request == root.raw + EncodeLen(size) + EncodeLen(index);
    assert request[32..] == EncodeLen(size) + EncodeLen(index);
    assert request[32 + |EncodeLen(size)|..] == EncodeLen(index);
    DecodeEncode(size, EncodeLen(index));
    DecodeAllEncode(index);
  }

  /** The store's answer for a leaf of a known list. */
  lemma LeafAnswer(h: Hash, s: StoreState, l: ElementList, index: nat, strings: set<Bytes>)
    requires Sound(h, s, strings) && l in s.lists && index < |l|
    ensures var leaves := LeafHashes(h, l);
            var proof := Raws(Path(h, leaves, 0, |l|, index));
            var now := Min(|proof|, 6);
            && |proof| <= 64
            && Step(h, s, LeafRequest(ListRoot(h, l), |l|, index)) ==
               (s.(queue := proof[now..]), Ok(leaves[index].raw + [|proof|] + [now] + Concat(proof[..now])))
  {
    hide *;
    QueueIsEmpty(h, s, strings);
    FindsKnownList(h, s, l, strings);
    LeafRequestParses(ListRoot(h, l), |l|, index);
    LeafRequestCode(h, s, ListRoot(h, l), |l|, index);
    LeafProofAnswer(h, s, LeafRequest(ListRoot(h, l), |l|, index)[1..], l, index, |EncodeLen(|l|)|);
    PathFits(h, LeafHashes(h, l), index);
    SmallCount(|Path(h, LeafHashes(h, l), 0, |l|, index)|);
  }

  lemma SmallCount(n: nat)
    requires n <= 64
    ensures n % 256 == n && Min(n, 6) % 256 == Min(n, 6) && Min(n, 6) <= n && Min(n, 6) <= 6
  {
  }

  lemma FindsKnownList(h: Hash, s: StoreState, l: ElementList, strings: set<Bytes>)
    requires Sound(h, s, strings) && l in s.lists
    ensures FindList(h, s.lists, ListRoot(h, l).raw) == Some(l) && |l| < U64
  {
    hide ListRoot, ListStrings, FindList, StoreStrings, Closed;
    SoundFacts(h, s, strings);
    FindsList(h, s.lists, l, strings);
  }

  lemma LeafProofAnswer(h: Hash, s: StoreState, request: Bytes, l: ElementList, index: nat, read: nat)
    requires s.queue == [] && |request| >= 32 + read && |request| >= 34 && index < |l|
    requires Decode(request[32..]) == Ok(Decoded(|l|, read)) && DecodeAll(request[32 + read..]) == Some(index)
    requires FindList(h, s.lists, request[..32]) == Some(l)
    ensures var leaves := LeafHashes(h, l);
            var proof := Raws(Path(h, leaves, 0, |l|, index));
            var now := Min(|proof|, 6);
            GetMerkleLeafProof(h, s, request) ==
            (s.(queue := proof[now..]), Ok(leaves[index].raw + [|proof| % 256] + [now % 256] + Concat(proof[..now])))
  {
    hide Path, Concat, Decode, DecodeAll, FindList;
  }

  lemma LeafRequestCode(h: Hash, s: StoreState, root: Digest, size: nat, index: nat)
    ensures |LeafRequest(root, size, index)| > 0
    ensures Step(h, s, LeafRequest(root, size, index)) == GetMerkleLeafProof(h, s, LeafRequest(root, size, index)[1..])
  {
    hide EncodeLen, GetMerkleLeafProof, GetPreimage;
  }

  lemma ReadLeafIs(h: Hash, s: StoreState, root: Digest, size: nat, index: nat, s': StoreState, r: Bytes,
                   reply: ProofReply, c: Collected, s'': StoreState)
    requires Step(h, s, LeafRequest(root, size, index)) == (s', Ok(r)) && ParseProofReply(r) == Some(reply)
    requires Collect(StoreHost(h), s', reply.payload, 32 * reply.total, 32) == (Got(c), s'')
    ensures ReadLeaf(h, StoreHost(h), s, root, size, index) == (CheckLeaf(h, root, size, index, reply.leaf, c), s'')
  {
    hide Step, StoreHost, LeafRequest, ParseProofReply, Collect, CheckLeaf;
    SendsToStore(h, s, LeafRequest(root, size, index));
  }

  /** The leaf and the whole proof of every position of a known list are read, in
      ceil((p - 6) / 7) follow-ups for a proof of p > 6 digests, the device's check of
      the proof succeeds, and the store is as before. */
  lemma {:induction false} ReadsLeaf(h: Hash, s: StoreState, l: ElementList, index: nat, strings: set<Bytes>)
    requires Sound(h, s, strings) && l in s.lists && index < |l|
    ensures var leaves := LeafHashes(h, l);
            var path := Path(h, leaves, 0, |l|, index);
            var left := if |path| > 6 then |path| - 6 else 0;
            ReadLeaf(h, StoreHost(h), s, ListRoot(h, l), |l|, index)
            == (Got(ProvedLeaf(leaves[index], path, (left + 6) / 7)), s)
  {
    hide *;
    QueueIsEmpty(h, s, strings);
    var leaves := LeafHashes(h, l);
    var path := Path(h, leaves, 0, |l|, index);
    var proof := Raws(path);
    var now := Min(|proof|, 6);
    LeafAnswer(h, s, l, index, strings);
    SmallCount(|path|);
    ParsesProofReply(leaves[index], proof, now);
    CollectsProof(h, s, path);
    var left := if |path| > 6 then |path| - 6 else 0;
    var c := Collected(Concat(proof), (left + 6) / 7);
    ReadLeafIs(h, s, ListRoot(h, l), |l|, index, s.(queue := proof[now..]),
               leaves[index].raw + [|proof|] + [now] + Concat(proof[..now]),
               ProofReply(leaves[index], |proof|, Concat(proof[..now])), c, s.(queue := []));
    ChecksOwnProof(h, l, index, c);
  }

  lemma ChecksOwnProof(h: Hash, l: ElementList, index: nat, c: Collected)
    requires index < |l| && c.bytes == Concat(Raws(Path(h, LeafHashes(h, l), 0, |l|, index)))
    ensures var leaves := LeafHashes(h, l);
            var path := Path(h, leaves, 0, |l|, index);
            CheckLeaf(h, ListRoot(h, l), |l|, index, leaves[index], c) == Got(ProvedLeaf(leaves[index], path, c.followUps))
  {
    hide ListRoot, LeafHashes, Path, Concat, VerifyInclusion, SplitDigests;
    SplitsDigests(Path(h, LeafHashes(h, l), 0, |l|, index));
    AcceptsOwnProof(h, l, index);
  }

  lemma QueueIsEmpty(h: Hash, s: StoreState, strings: set<Bytes>)
    requires Sound(h, s, strings)
    ensures s.queue == [] && s.(queue := []) == s
  {
  }

  lemma CollectsProof(h: Hash, s: StoreState, path: seq<Digest>)
    ensures var proof := Raws(path);
            var now := Min(|proof|, 6);
            var left := if |path| > 6 then |path| - 6 else 0;
            Collect(StoreHost(h), s.(queue := proof[now..]), Concat(proof[..now]), 32 * |proof|, 32) ==
            (Got(Collected(Concat(proof), (left + 6) / 7)), s.(queue := []))
  {
    hide Concat, Collect, Rounds;
    var proof := Raws(path);
    var now := Min(|proof|, 6);
    ConcatLength(proof[..now], 32);
    CollectsQueue(h, s.(queue := proof[now..]), Concat(proof[..now]), 32 * |proof|, 32);
    RoundsIsCeil(|proof| - now);
    ConcatSplit([], proof, now);
    assert [] + Concat(proof[..now]) == Concat(proof[..now]) && [] + Concat(proof) == Concat(proof);
  }

  lemma AcceptsOwnProof(h: Hash, l: ElementList, index: nat)
    requires index < |l|
    ensures var leaves := LeafHashes(h, l);
            VerifyInclusion(h, index, |l|, leaves[index], Path(h, leaves, 0, |l|, index)) == Some(ListRoot(h, l))
  {
    ProofIsAccepted(h, LeafHashes(h, l), index);
  }

  lemma ParsesProofReply(leaf: Digest, proof: seq<Bytes>, now: nat)
    requires now <= 6 && now <= |proof| <= 64 && forall e :: e in proof ==> |e| == 32
    ensures ParseProofReply(leaf.raw + [|proof|] + [now] + Concat(proof[..now])) ==
            Some(ProofReply(leaf, |proof|, Concat(proof[..now])))
  {
    hide Concat;
    ConcatLength(proof[..now], 32);
    var r := leaf.raw + [|proof|] + [now] + Concat(proof[..now]);
    assert r[..32] == leaf.raw && r[34..] == Concat(proof[..now]);
  }

  /** Every element of a known list is read back from the root of the list. */
  lemma {:induction false} ReadsElement(h: Hash, s: StoreState, l: ElementList, index: nat, strings: set<Bytes>)
    requires Sound(h, s, strings) && l in s.lists && index < |l|
    ensures ReadElement(h, StoreHost(h), s, ListRoot(h, l), |l|, index) == (Got(l[index]), s)
  {
    hide StoreHost, ListRoot, ListStrings, Path, StoreStrings, ReadLeaf, ReadPreimage, FirstPayload;
    ReadsLeaf(h, s, l, index, strings);
    assert l[index] in l;
    ReadsPreimage(h, s, LeafBytes(l[index]), strings);
    assert LeafBytes(l[index])[1..] == l[index];
  }

  // ---- The map lookup ----

  /** The plain lookup. */
  function MapGet(mapping: Mapping, key: Bytes): Option<Bytes> {
    if mapping == [] then None
    else if mapping[0].key == key then Some(mapping[0].value)
    else MapGet(mapping[1..], key)
  }

  lemma {:induction false} MapGetIs(mapping: Mapping, key: Bytes)
    ensures MapGet(mapping, key).None? <==> forall p :: p in mapping ==> p.key != key
    ensures forall v :: DistinctKeys(mapping) && Pair(key, v) in mapping ==> MapGet(mapping, key) == Some(v)
  {
    if mapping != [] {
      MapGetIs(mapping[1..], key);
      assert mapping == [mapping[0]] + mapping[1..];
    }
  }

  /** Sorting does not change what a mapping maps. */
  lemma MapGetSorted(mapping: Mapping, key: Bytes)
    requires DistinctKeys(mapping)
    ensures MapGet(SortByKey(mapping), key) == MapGet(mapping, key)
  {
    var sorted := SortByKey(mapping);
    SortByKeySorts(mapping);
    DistinctKeysOfMultiset(mapping, sorted);
    MapGetIs(mapping, key);
    MapGetIs(sorted, key);
    assert forall p :: p in mapping <==> p in multiset(sorted);
    forall p | p in mapping && p.key == key ensures MapGet(sorted, key) == MapGet(mapping, key) {
      assert p == Pair(key, p.value) && p in sorted;
    }
  }

  lemma ParsesCommitment(size: nat, keys: Digest, values: Digest)
    requires size < U64
    ensures ParseCommitment(EncodeLen(size) + keys.raw + values.raw) == Some(Commitment(size, keys, values))
  {
    var bytes := EncodeLen(size) + keys.raw + values.raw;
    DecodeEncode(size, keys.raw + values.raw);
    assert bytes == EncodeLen(size) + (keys.raw + values.raw);
    var read := |EncodeLen(size)|;
    assert bytes[read..read + 32] == keys.raw && bytes[read + 32..] == values.raw;
  }

  lemma {:induction false} PositionOfKey(sorted: Mapping, key: Bytes)
    requires DistinctKeys(sorted)
    ensures MapGet(sorted, key).Some? ==>
              exists i :: 0 <= i < |sorted| && sorted[i].key == key && MapGet(sorted, key) == Some(sorted[i].value)
  {
    if sorted != [] && sorted[0].key != key {
      PositionOfKey(sorted[1..], key);
      if i :| 0 <= i < |sorted[1..]| && sorted[1..][i].key == key && MapGet(sorted[1..], key) == Some(sorted[1..][i].value) {
        assert sorted[i + 1] == sorted[1..][i];
      }
    }
  }

  /** GET_MERKLE_LEAF_INDEX tells the position of a key that is there; for any other key
      the store declines it. */
  lemma {:induction false} ReadsIndex(h: Hash, s: StoreState, keys: ElementList, key: Bytes, strings: set<Bytes>)
    requires Sound(h, s, strings) && keys in s.lists && LeafBytes(key) in strings
    requires forall i, j :: 0 <= i < j < |keys| ==> keys[i] != keys[j]
    ensures var r := ReadIndex(StoreHost(h), s, ListRoot(h, keys), h(LeafBytes(key)));
            && r.1 == s
            && (forall i :: 0 <= i < |keys| && keys[i] == key ==> r.0 == Got(i))
            && (key !in keys ==> r.0 == Refused(Declined(UnknownHash)))
  {
    hide *;
    var wanted := h(LeafBytes(key));
    IndexAnswer(h, s, keys, wanted, strings);
    ReadIndexIs(h, s, ListRoot(h, keys), wanted);
    FindsKnownList(h, s, keys, strings);
    var found := LeafIndex(LeafHashes(h, keys), wanted);
    if found.Some? {
      IndexReplyParses(found.value);
      SameElement(h, s, keys, found.value, key, strings);
    }
    if key in keys {
      var i :| 0 <= i < |keys| && keys[i] == key;
      assert LeafHashes(h, keys)[i] == wanted;
    }
  }

  lemma ReadIndexIs(h: Hash, s: StoreState, root: Digest, leaf: Digest)
    ensures var (s', r) := Step(h, s, IndexRequest(root, leaf));
            ReadIndex(StoreHost(h), s, root, leaf) ==
            (if r.Err? then Refused(Declined(r.error))
             else if r.value != [] && r.value[0] == 1 then ParsedIndex(r.value[1..]) else Garbled, s')
  {
    hide Step, StoreHost, IndexRequest, ParsedIndex;
    SendsToStore(h, s, IndexRequest(root, leaf));
  }

  /** In a sound store, an element with the digest of a given string is that string. */
  lemma SameElement(h: Hash, s: StoreState, l: ElementList, i: nat, x: Bytes, strings: set<Bytes>)
    requires Sound(h, s, strings) && l in s.lists && i < |l| && LeafBytes(x) in strings
    requires h(LeafBytes(l[i])) == h(LeafBytes(x))
    ensures l[i] == x
  {
    hide StoreStrings, LeafBytes, ListStrings;
    ClosedFact(s, l, i);
    SoundFacts(h, s, strings);
    ClashOf(h, strings, LeafBytes(l[i]), LeafBytes(x));
    LeafBytesInjective(l[i], x);
  }

  lemma ClosedFact(s: StoreState, l: ElementList, i: nat)
    requires Closed(s) && l in s.lists && i < |l|
    ensures LeafBytes(l[i]) in s.preimages
  {
  }

  lemma IndexReplyParses(i: nat)
    requires i < U64
    ensures ParsedIndex(([1] + EncodeLen(i))[1..]) == Got(i)
  {
    DecodeAllEncode(i);
    assert ([1] + EncodeLen(i))[1..] == EncodeLen(i);
  }

  lemma IndexAnswer(h: Hash, s: StoreState, l: ElementList, leaf: Digest, strings: set<Bytes>)
    requires Sound(h, s, strings) && l in s.lists
    ensures Step(h, s, IndexRequest(ListRoot(h, l), leaf)) ==
            (s, match LeafIndex(LeafHashes(h, l), leaf)
                case None => Err(UnknownHash)
                case Some(i) => Ok([1] + EncodeLen(i)))
  {
    hide ListRoot, ListStrings, StoreStrings, FindList, LeafHashes, EncodeLen, Closed;
    FindsKnownList(h, s, l, strings);
    var request := IndexRequest(ListRoot(h, l), leaf);
    assert request[1..] == ListRoot(h, l).raw + leaf.raw;
    assert request[1..][..32] == ListRoot(h, l).raw && request[1..][32..64] == leaf.raw;
    assert Digest(leaf.raw) == leaf;
  }

  /** What a device reads for a key: its value, or, if the mapping has no such key, the
      refusal that ends its command. */
  function LookedUp(mapping: Mapping, key: Bytes): Read<Bytes> {
    match MapGet(mapping, key) case Some(value) => Got(value) case None => Refused(Declined(UnknownHash))
  }

  /** A device that holds only the commitment to a mapping reads, through the store, for
      every key of the mapping exactly its value; and it is refused if and only if the
      mapping does not have the key. If not, two of the strings that were hashed collide. */
  lemma {:induction false} LookupRefinesMap(h: Hash, s: StoreState, mapping: Mapping, key: Bytes)
    requires mapping != [] && DistinctKeys(mapping)
    requires s.queue == [] && Fits(s) && Closed(s)
    requires Keys(SortByKey(mapping)) in s.lists && Values(SortByKey(mapping)) in s.lists
    ensures LookupMap(h, StoreHost(h), s, MapCommitment(h, mapping), key) == (LookedUp(mapping, key), s)
            || ClashIn(h, StoreStrings(h, s) + {LeafBytes(key)})
  {
    hide ListRoot, ListStrings, StoreStrings, ReadLeaf, ReadElement, ReadIndex, ClashIn, LeafBytes, StoreHost;
    var strings := StoreStrings(h, s) + {LeafBytes(key)};
    if !ClashIn(h, strings) {
      var sorted := SortByKey(mapping);
      SortByKeySorts(mapping);
      DistinctKeysOfMultiset(mapping, sorted);
      MapGetSorted(mapping, key);
      MapGetIs(sorted, key);
      PositionOfKey(sorted, key);
      hide SortByKey, DistinctKeys, MapGet;
      var keys, values := Keys(sorted), Values(sorted);
      SoundFacts(h, s, strings);
      ParsesCommitment(|sorted|, ListRoot(h, keys), ListRoot(h, values));
      DistinctKeysFact(sorted);
      ReadsIndex(h, s, keys, key, strings);
      if key in keys {
        var i :| 0 <= i < |sorted| && sorted[i].key == key && MapGet(sorted, key) == Some(sorted[i].value);
        ReadsLeaf(h, s, keys, i, strings);
        ReadsElement(h, s, values, i, strings);
      }
    }
  }

  lemma DistinctKeysFact(pairs: Mapping)
    requires DistinctKeys(pairs)
    ensures forall i, j :: 0 <= i < j < |pairs| ==> Keys(pairs)[i] != Keys(pairs)[j]
  {
  }

  // ---- a device that wedges the store ----

  lemma {:induction false} RunAppend(h: Hash, s: StoreState, a: seq<Bytes>, b: seq<Bytes>)
    ensures Run(h, s, a + b) == Run(h, Run(h, s, a), b)
    decreases |a|
  {
    hide Step;
    if a == [] {
      assert a + b == b;
    } else {
      assert (a + b)[1..] == a[1..] + b;
      RunAppend(h, Step(h, s, a[0]).0, a[1..], b);
    }
  }

  lemma RunOne(h: Hash, s: StoreState, command: Bytes)
    ensures Run(h, s, [command]) == Step(h, s, command).0
  {
    hide Step;
    assert Run(h, Step(h, s, command).0, [command][1..]) == Step(h, s, command).0;
  }

  lemma SevenDigests(h: Hash, l: ElementList)
    requires |l| == 128
    ensures |Path(h, LeafHashes(h, l), 0, 128, 0)| == 7
  {
    assert Exp2(4) == 16;
    assert Exp2(7) == 128;
    PerfectPath(h, LeafHashes(h, l), 0, 7, 0);
  }

  lemma PreimageMixes(h: Hash, s: StoreState, p: Bytes)
    requires s.queue != [] && |s.queue[0]| == 32 && |p| >= 253
    requires FindPreimage(h, s.preimages, h(p).raw) == Some(p)
    ensures Mixes(h, s, PreimageRequest(h(p)))
  {
    hide FindPreimage;
    assert PreimageRequest(h(p))[2..] == h(p).raw;
  }

  lemma FreshStore(h: Hash, l: ElementList, p: Bytes)
    ensures var s := EMPTY.WithList(l).WithPreimage(p);
            s.queue == [] && l in s.lists && p in s.preimages && Closed(s)
  {
  }

  lemma Wedges(h: Hash, s: StoreState, l: ElementList, p: Bytes, more: seq<Bytes>)
    requires |l| == 128 && |p| >= 253 && s.queue == [] && l in s.lists && p in s.preimages
    requires Fits(s) && Closed(s) && !ClashIn(h, StoreStrings(h, s))
    ensures var run := [LeafRequest(ListRoot(h, l), 128, 0), PreimageRequest(h(p))];
            && MixesSomewhere(h, s, run)
            && Step(h, Run(h, s, run + more), [GET_MORE_ELEMENTS]).1 == Err(UnexpectedQueue)
  {
    hide *;
    var first, second := LeafRequest(ListRoot(h, l), 128, 0), PreimageRequest(h(p));
    FirstOfTwo(h, s, l);
    var s1 := Step(h, s, first).0;
    KnowsPreimage(h, s, s1, p);
    PreimageMixes(h, s1, p);
    MixingMixes(h, s1, second);
    MixesInSecond(h, s, first, second);
    RunOne(h, s, first);
    RunAppend(h, s, [first], [second]);
    RunOne(h, s1, second);
    RunAppend(h, s, [first] + [second], more);
    assert [first] + [second] == [first, second];
    MixedStays(h, Step(h, s1, second).0, more);
  }

  /** After the proof request one digest is left in the queue. */
  lemma FirstOfTwo(h: Hash, s: StoreState, l: ElementList)
    requires |l| == 128 && s.queue == [] && l in s.lists && Fits(s) && Closed(s) && !ClashIn(h, StoreStrings(h, s))
    ensures var s1 := Step(h, s, LeafRequest(ListRoot(h, l), 128, 0)).0;
            s1.queue != [] && |s1.queue[0]| == 32 && OneLength(s1.queue) && s1.preimages == s.preimages
  {
    hide *;
    IsSound(h, s);
    LeafAnswer(h, s, l, 0, StoreStrings(h, s));
    SevenDigests(h, l);
    OneOfSeven(Raws(Path(h, LeafHashes(h, l), 0, 128, 0)));
  }

  lemma OneOfSeven(proof: seq<Bytes>)
    requires |proof| == 7 && forall e :: e in proof ==> |e| == 32
    ensures Min(|proof|, 6) == 6
    ensures var queue := proof[6..]; queue != [] && |queue[0]| == 32 && OneLength(queue)
  {
  }

  lemma KnowsPreimage(h: Hash, s: StoreState, s1: StoreState, p: Bytes)
    requires p in s.preimages && s1.preimages == s.preimages && !ClashIn(h, StoreStrings(h, s))
    ensures FindPreimage(h, s1.preimages, h(p).raw) == Some(p)
  {
    FindsPreimage(h, s.preimages, p, StoreStrings(h, s));
  }

  /** The failure is real: over a known list of 128 elements and a known preimage of 253
      bytes or more, a proof request followed by GET_PREIMAGE leaves a queue that nothing
      drains, whatever the device sends after that. */
  lemma {:induction false} WedgesStore(h: Hash, l: ElementList, p: Bytes, more: seq<Bytes>)
    requires |l| == 128 && |p| >= 253 && Fits(EMPTY.WithList(l).WithPreimage(p))
    ensures var s := EMPTY.WithList(l).WithPreimage(p);
            var run := [LeafRequest(ListRoot(h, l), 128, 0), PreimageRequest(h(p))];
            || ClashIn(h, StoreStrings(h, s))
            || (&& s.queue == [] && MixesSomewhere(h, s, run)
                && Step(h, Run(h, s, run + more), [GET_MORE_ELEMENTS]).1 == Err(UnexpectedQueue))
  {
    hide *;
    FreshStore(h, l, p);
    if !ClashIn(h, StoreStrings(h, EMPTY.WithList(l).WithPreimage(p))) {
      Wedges(h, EMPTY.WithList(l).WithPreimage(p), l, p, more);
    }
  }

  lemma IsSound(h: Hash, s: StoreState)
    requires s.queue == [] && Fits(s) && Closed(s) && !ClashIn(h, StoreStrings(h, s))
    ensures Sound(h, s, StoreStrings(h, s)) && !ClashIn(h, StoreStrings(h, s))
  {
  }

  lemma MixesInSecond(h: Hash, s: StoreState, first: Bytes, second: Bytes)
    requires Mixes(h, Step(h, s, first).0, second)
    ensures MixesSomewhere(h, s, [first, second])
  {
    hide Mixes, Step;
    assert [first, second][1..] == [second];
  }
}
