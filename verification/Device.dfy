/** A signing device that holds only commitments and reads everything else through
    the client commands, checking what it gets. Its requests follow the layouts that
    bhwi/src/ledger/store.rs parses. */
module Device {
  import opened Common
  import opened CompactSize
  import opened MerkleProof
  import opened StoreSpec

  /** Why a command got no answer: the store declined it, or the host sent something else
      than a continuation. Either way the command that the device works on is over. */
  datatype Refusal = Declined(error: StoreError) | Lost

  /** What a device talks to. */
  datatype Host<!S> = Host(send: (S, Bytes) -> (S, Result<Bytes, Refusal>))

  /** What a read comes to; garbled answers are those that fail one of its checks. */
  datatype Read<+T> = Got(value: T) | Refused(why: Refusal) | Garbled
  {
    function Failed<U>(): (r: Read<U>)
      requires !Got?
      ensures !r.Got?
    {
      match this case Refused(why) => Refused(why) case Garbled => Garbled
    }
  }

  /** The store itself as a host. */
  function StoreHost(h: Hash): Host<StoreState> {
    Host((s, command) => Sent(h, s, command))
  }

  function Sent(h: Hash, s: StoreState, command: Bytes): (StoreState, Result<Bytes, Refusal>) {
    match Step(h, s, command)
    case (s', Ok(answer)) => (s', Ok(answer))
    case (s', Err(error)) => (s', Err(Declined(error)))
  }

  lemma SendsToStore(h: Hash, s: StoreState, command: Bytes)
    ensures StoreHost(h).send(s, command) == Sent(h, s, command)
  {
  }

  datatype Collected = Collected(bytes: Bytes, followUps: nat)

  /** Sends GET_MORE_ELEMENTS (0xA0), for elements of `size` bytes, until `want` bytes are there. */
  function Collect<S>(host: Host<S>, s: S, got: Bytes, want: nat, size: nat): (Read<Collected>, S)
    decreases if |got| < want then want - |got| else 0
  {
    if |got| >= want then (if |got| == want then Got(Collected(got, 0)) else Garbled, s)
    else
      match host.send(s, [0xA0])
      case (s', Err(why)) => (Refused(why), s')
      case (s', Ok(r)) =>
        if |r| <= 2 || r[1] != size || |r| != 2 + r[0] * size then (Garbled, s')
        else
          var (c, s'') := Collect(host, s', got + r[2..], want, size);
          (if c.Got? then Got(Collected(c.value.bytes, c.value.followUps + 1)) else c, s'')
  }

  /** GET_PREIMAGE, by the number that the firmware gives it, as in the other requests. */
  function PreimageRequest(hash: Digest): Bytes {
    [0x40, 0x00] + hash.raw
  }

  datatype PreimageReply = PreimageReply(total: nat, payload: Bytes)

  function ParsePreimageReply(r: Bytes): Option<PreimageReply> {
    match Decode(r)
    case Err(_) => None
    case Ok(Decoded(total, read)) =>
      if |r| <= read || |r| != read + 1 + r[read] then None else Some(PreimageReply(total, r[read + 1..]))
  }

  function ReadPreimage<S>(h: Hash, host: Host<S>, s: S, hash: Digest): (Read<Collected>, S) {
    match host.send(s, PreimageRequest(hash))
    case (s', Err(why)) => (Refused(why), s')
    case (s', Ok(r)) =>
      match ParsePreimageReply(r)
      case None => (Garbled, s')
      case Some(PreimageReply(total, payload)) =>
        var (c, s'') := Collect(host, s', payload, total, 1);
        (if c.Got? && h(c.value.bytes) != hash then Garbled else c, s'')
  }

  /** The concatenated digests of a proof, taken apart. */
  function SplitDigests(bytes: Bytes): seq<Digest>
    requires |bytes| % 32 == 0
  {
    if bytes == [] then [] else [Digest(bytes[..32])] + SplitDigests(bytes[32..])
  }

  function LeafRequest(root: Digest, size: nat, index: nat): Bytes {
    [0x41] + root.raw + EncodeLen(size) + EncodeLen(index)
  }

  datatype ProvedLeaf = ProvedLeaf(leaf: Digest, path: seq<Digest>, followUps: nat)

  datatype ProofReply = ProofReply(leaf: Digest, total: nat, payload: Bytes)

  function ParseProofReply(r: Bytes): Option<ProofReply> {
    if |r| < 34 || |r| != 34 + 32 * (r[33] as nat) then None
    else Some(ProofReply(Digest(r[..32]), r[32], r[34..]))
  }

  function ReadLeaf<S>(h: Hash, host: Host<S>, s: S, root: Digest, size: nat, index: nat): (Read<ProvedLeaf>, S) {
    match host.send(s, LeafRequest(root, size, index))
    case (s', Err(why)) => (Refused(why), s')
    case (s', Ok(r)) =>
      match ParseProofReply(r)
      case None => (Garbled, s')
      case Some(ProofReply(leaf, total, payload)) =>
        var (c, s'') := Collect(host, s', payload, 32 * total, 32);
        (if c.Got? then CheckLeaf(h, root, size, index, leaf, c.value) else c.Failed(), s'')
  }

  function CheckLeaf(h: Hash, root: Digest, size: nat, index: nat, leaf: Digest, c: Collected): Read<ProvedLeaf> {
    if |c.bytes| % 32 != 0 then Garbled
    else
      var path := SplitDigests(c.bytes);
      if VerifyInclusion(h, index, size, leaf, path) == Some(root)
      then Got(ProvedLeaf(leaf, path, c.followUps)) else Garbled
  }

  function IndexRequest(root: Digest, leaf: Digest): Bytes {
    [0x42] + root.raw + leaf.raw
  }

  function ReadIndex<S>(host: Host<S>, s: S, root: Digest, leaf: Digest): (Read<nat>, S) {
    match host.send(s, IndexRequest(root, leaf))
    case (s', Err(why)) => (Refused(why), s')
    case (s', Ok(r)) => (if r != [] && r[0] == 1 then ParsedIndex(r[1..]) else Garbled, s')
  }

  function ParsedIndex(bytes: Bytes): Read<nat> {
    match DecodeAll(bytes) case Some(index) => Got(index) case None => Garbled
  }

  /** An element of a committed list: its leaf, then the preimage without its 0x00. */
  function ReadElement<S>(h: Hash, host: Host<S>, s: S, root: Digest, size: nat, index: nat): (Read<Bytes>, S) {
    var (proved, s') := ReadLeaf(h, host, s, root, size, index);
    if !proved.Got? then (proved.Failed(), s')
    else
      var (c, s'') := ReadPreimage(h, host, s', proved.value.leaf);
      (if !c.Got? then c.Failed()
       else if c.value.bytes != [] && c.value.bytes[0] == 0 then Got(c.value.bytes[1..]) else Garbled, s'')
  }

  datatype Commitment = Commitment(size: nat, keys: Digest, values: Digest)

  function ParseCommitment(bytes: Bytes): Option<Commitment> {
    match Decode(bytes)
    case Err(_) => None
    case Ok(Decoded(size, read)) =>
      if |bytes| != read + 64 then None
      else Some(Commitment(size, Digest(bytes[read..read + 32]), Digest(bytes[read + 32..])))
  }

  /** The value under `key` in the mapping behind a commitment: the position of the key
      in the list of keys, checked by a proof, then the value at that position. */
  function LookupMap<S>(h: Hash, host: Host<S>, s: S, commitment: Bytes, key: Bytes): (Read<Bytes>, S) {
    match ParseCommitment(commitment)
    case None => (Garbled, s)
    case Some(Commitment(size, keys, values)) =>
      var wanted := h(LeafBytes(key));
      var (index, s1) := ReadIndex(host, s, keys, wanted);
      if !index.Got? then (index.Failed(), s1)
      else
        var (proved, s2) := ReadLeaf(h, host, s1, keys, size, index.value);
        if !proved.Got? then (proved.Failed(), s2)
        else if proved.value.leaf != wanted then (Garbled, s2)
        else ReadElement(h, host, s2, values, size, index.value)
  }

  // ---- reads depend on the answers only ----

  /** From states that are related while both hosts serve, they give the same answers, and
      their next states are related again: as serving hosts, or as hosts that refused. */
  ghost predicate Simulates<A(!new), B(!new)>(x: Host<A>, y: Host<B>, related: (A, B, bool) -> bool) {
    forall a, b, command :: related(a, b, true) ==> SameAnswer(x, y, related, a, b, command)
  }

  ghost predicate SameAnswer<A, B>(x: Host<A>, y: Host<B>, related: (A, B, bool) -> bool, a: A, b: B, command: Bytes) {
    var (a', r) := x.send(a, command);
    var (b', q) := y.send(b, command);
    r == q && related(a', b', r.Ok?)
  }

  /** Two reads come to the same, in related states. */
  ghost predicate Alike<A, B, T>(related: (A, B, bool) -> bool, p: (Read<T>, A), q: (Read<T>, B)) {
    p.0 == q.0 && related(p.1, q.1, !p.0.Refused?)
  }

  lemma {:induction false} CollectsAlike<A(!new), B(!new)>(x: Host<A>, y: Host<B>, related: (A, B, bool) -> bool, a: A, b: B,
      got: Bytes, want: nat, size: nat)
    requires Simulates(x, y, related) && related(a, b, true)
    ensures Alike(related, Collect(x, a, got, want, size), Collect(y, b, got, want, size))
    decreases if |got| < want then want - |got| else 0
  {
    if |got| < want {
      assert SameAnswer(x, y, related, a, b, [GET_MORE_ELEMENTS]);
      var (a', r) := x.send(a, [GET_MORE_ELEMENTS]);
      var (b', q) := y.send(b, [GET_MORE_ELEMENTS]);
      if r.Ok? && |r.value| > 2 && r.value[1] == size && |r.value| == 2 + r.value[0] * size {
        CollectsAlike(x, y, related, a', b', got + r.value[2..], want, size);
      }
    }
  }

  lemma PreimagesAlike<A(!new), B(!new)>(h: Hash, x: Host<A>, y: Host<B>, related: (A, B, bool) -> bool, a: A, b: B, hash: Digest)
    requires Simulates(x, y, related) && related(a, b, true)
    ensures Alike(related, ReadPreimage(h, x, a, hash), ReadPreimage(h, y, b, hash))
  {
    hide Collect, ParsePreimageReply;
    assert SameAnswer(x, y, related, a, b, PreimageRequest(hash));
    var (a', r) := x.send(a, PreimageRequest(hash));
    if r.Ok? && ParsePreimageReply(r.value).Some? {
      var reply := ParsePreimageReply(r.value).value;
      CollectsAlike(x, y, related, a', y.send(b, PreimageRequest(hash)).0, reply.payload, reply.total, 1);
    }
  }

  lemma LeavesAlike<A(!new), B(!new)>(h: Hash, x: Host<A>, y: Host<B>, related: (A, B, bool) -> bool, a: A, b: B,
                                      root: Digest, size: nat, index: nat)
    requires Simulates(x, y, related) && related(a, b, true)
    ensures Alike(related, ReadLeaf(h, x, a, root, size, index), ReadLeaf(h, y, b, root, size, index))
  {
    hide Collect, ParseProofReply, CheckLeaf;
    var request := LeafRequest(root, size, index);
    assert SameAnswer(x, y, related, a, b, request);
    var (a', r) := x.send(a, request);
    if r.Ok? && ParseProofReply(r.value).Some? {
      var reply := ParseProofReply(r.value).value;
      CollectsAlike(x, y, related, a', y.send(b, request).0, reply.payload, 32 * reply.total, 32);
      CheckIsNoRefusal(h, root, size, index, reply.leaf);
    }
  }

  lemma CheckIsNoRefusal(h: Hash, root: Digest, size: nat, index: nat, leaf: Digest)
    ensures forall c :: !CheckLeaf(h, root, size, index, leaf, c).Refused?
  {
  }

  lemma ElementsAlike<A(!new), B(!new)>(h: Hash, x: Host<A>, y: Host<B>, related: (A, B, bool) -> bool, a: A, b: B,
                                        root: Digest, size: nat, index: nat)
    requires Simulates(x, y, related) && related(a, b, true)
    ensures Alike(related, ReadElement(h, x, a, root, size, index), ReadElement(h, y, b, root, size, index))
  {
    hide ReadLeaf, ReadPreimage, Simulates;
    LeavesAlike(h, x, y, related, a, b, root, size, index);
    var (proved, a') := ReadLeaf(h, x, a, root, size, index);
    if proved.Got? {
      PreimagesAlike(h, x, y, related, a', ReadLeaf(h, y, b, root, size, index).1, proved.value.leaf);
    }
  }

  lemma {:induction false} LookupsAlike<A(!new), B(!new)>(h: Hash, x: Host<A>, y: Host<B>, related: (A, B, bool) -> bool, a: A, b: B,
                                       commitment: Bytes, key: Bytes)
    requires Simulates(x, y, related) && related(a, b, true)
    ensures Alike(related, LookupMap(h, x, a, commitment, key), LookupMap(h, y, b, commitment, key))
  {
    hide ReadLeaf, ReadElement, ParseCommitment, LeafBytes;
    var parsed := ParseCommitment(commitment);
    if parsed.Some? {
      var Commitment(size, keys, values) := parsed.value;
      var wanted := h(LeafBytes(key));
      assert SameAnswer(x, y, related, a, b, IndexRequest(keys, wanted));
      var (index, a1) := ReadIndex(x, a, keys, wanted);
      var b1 := ReadIndex(y, b, keys, wanted).1;
      if index.Got? {
        LeavesAlike(h, x, y, related, a1, b1, keys, size, index.value);
        var (proved, a2) := ReadLeaf(h, x, a1, keys, size, index.value);
        if proved.Got? {
          ElementsAlike(h, x, y, related, a2, ReadLeaf(h, y, b1, keys, size, index.value).1, values, size, index.value);
        }
      }
    }
  }
}
