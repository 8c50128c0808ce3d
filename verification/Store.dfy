/** `DelegatedStore` of bhwi/src/ledger/store.rs, updated in place, and its
    refinement of StoreSpec. */
module Store {
  import opened Common
  import opened CompactSize
  import opened Merkle
  import opened MerkleProof
  import opened KeyOrder
  import opened StoreSpec

  lemma ConcatSnoc(parts: seq<Bytes>, n: nat)
    requires n < |parts|
    ensures Concat(parts[..n + 1]) == Concat(parts[..n]) + parts[n]
  {
    ConcatAppend(parts[..n], [parts[n]]);
    assert parts[..n + 1] == parts[..n] + [parts[n]];
    assert Concat([parts[n]]) == parts[n] + Concat([]);
  }

  lemma {:induction false} ConcatAppend(a: seq<Bytes>, b: seq<Bytes>)
    ensures Concat(a + b) == Concat(a) + Concat(b)
  {
    hide Concat;
    if a == [] {
      assert a + b == b;
      ConcatNone(a);
    } else {
      var rest := a[1..];
      ConcatAppend(rest, b);
      assert (a + b)[1..] == rest + b && (a + b)[0] == a[0];
      ConcatStep(a);
      ConcatStep(a + b);
      Associative(a[0], Concat(rest), Concat(b));
    }
  }

  lemma Associative(a: Bytes, b: Bytes, c: Bytes)
    ensures (a + b) + c == a + (b + c)
  {
  }

  lemma ConcatNone(parts: seq<Bytes>)
    requires parts == []
    ensures Concat(parts) == []
  {
  }

  lemma ConcatStep(parts: seq<Bytes>)
    requires parts != []
    ensures Concat(parts) == parts[0] + Concat(parts[1..])
  {
  }

  lemma {:induction false} ConcatLength(parts: seq<Bytes>, length: nat)
    requires forall e :: e in parts ==> |e| == length
    ensures |Concat(parts)| == |parts| * length
  {
    if parts != [] {
      var rest := parts[1..];
      ConcatLength(rest, length);
      OneMore(|rest|, length);
    }
  }

  lemma OneMore(count: nat, length: nat)
    ensures (count + 1) * length == count * length + length
  {
  }

  function Seconds(pairs: seq<(Digest, Bytes)>): (r: seq<Bytes>)
    ensures |r| == |pairs| && forall i :: 0 <= i < |r| ==> r[i] == pairs[i].1
  {
    seq(|pairs|, i requires 0 <= i < |pairs| => pairs[i].1)
  }

  class DelegatedStore {
    const h: Hash
    var yielded: seq<Bytes>
    var queue: seq<Bytes>
    var knownPreimages: seq<(Digest, Bytes)>
    var trees: seq<MerkleTree>

    /** The elements behind every known tree. */
    ghost var lists: seq<ElementList>

    ghost predicate Valid()
      reads this`knownPreimages, this`trees, this`lists
    {
      && (forall i :: 0 <= i < |knownPreimages| ==> knownPreimages[i].0 == h(knownPreimages[i].1))
      && |trees| == |lists|
      && (forall i :: 0 <= i < |trees| ==> trees[i].Valid(h) && trees[i].leaves == LeafHashes(h, lists[i]))
    }

    ghost function Preimages(): seq<Bytes>
      reads this`knownPreimages
    {
      Seconds(knownPreimages)
    }

    ghost function State(): StoreState
      reads this
    {
      StoreState(yielded, queue, Preimages(), lists)
    }

    constructor (h: Hash)
      ensures Valid() && this.h == h && State() == EMPTY
    {
      this.h := h;
      yielded, queue, knownPreimages, trees, lists := [], [], [], [], [];
    }

    method AddKnownPreimage(element: Bytes)
      requires Valid()
      modifies this
      ensures Valid() && State() == old(State()).WithPreimage(element)
    {
      ghost var before := Preimages();
      knownPreimages := knownPreimages + [(h(element), element)];
      assert Preimages() == before + [element];
    }

    /** An empty list reaches the assertion of the tree's constructor. */
    method AddKnownList(elements: ElementList) returns (root: Digest)
      requires Valid()
      modifies this
      ensures Valid() && State() == old(State()).WithList(elements)
      ensures root == ListRoot(h, elements)
    {
      var leaves: seq<Digest> := [];
      for i := 0 to |elements|
        invariant Valid() && unchanged(`yielded) && unchanged(`queue) && unchanged(`trees) && unchanged(`lists)
        invariant leaves == LeafHashes(h, elements)[..i]
        invariant Preimages() == old(Preimages()) + LeafPreimages(elements)[..i]
      {
        var preimage := [0x00] + elements[i];
        var hash := h(preimage);
        ghost var before := Preimages();
        knownPreimages := knownPreimages + [(hash, preimage)];
        leaves := leaves + [hash];
        assert Preimages() == before + [preimage];
      }
      assert leaves == LeafHashes(h, elements);
      assert LeafPreimages(elements)[..|elements|] == LeafPreimages(elements);
      var tree := NewMerkleTree(h, leaves);
      root := RootHash(h, tree);
      trees := trees + [tree];
      lists := lists + [elements];
    }

    method AddKnownMapping(mapping: Mapping)
      requires Valid() && mapping != []
      modifies this
      ensures Valid() && State() == old(State()).WithMapping(mapping)
    {
      var sorted := SortByKey(mapping);
      SortByKeySorts(mapping);
      var keys, values: seq<Bytes> := [], [];
      for i := 0 to |sorted|
        invariant keys == Keys(sorted)[..i] && values == Values(sorted)[..i]
      {
        keys := keys + [sorted[i].key];
        values := values + [sorted[i].value];
      }
      assert keys == Keys(sorted) && values == Values(sorted);
      var _ := AddKnownList(keys);
      var _ := AddKnownList(values);
    }

    method Execute(command: Bytes) returns (r: Reply)
      requires Valid()
      modifies this
      ensures Valid() && (State(), r) == Step(h, old(State()), command)
    {
      if command == [] {
        return Err(EmptyInput);
      }
      if command[0] == YIELD {
        yielded := yielded + [command[1..]];
        r := Ok([]);
      } else if command[0] == GET_PREIMAGE {
        r := GetPreimageCommand(command[1..]);
      } else if command[0] == GET_MERKLE_LEAF_PROOF {
        r := GetMerkleLeafProofCommand(command[1..]);
      } else if command[0] == GET_MERKLE_LEAF_INDEX {
        r := GetMerkleLeafIndexCommand(command[1..]);
      } else if command[0] == GET_MORE_ELEMENTS {
        r := GetMoreElementsCommand();
      } else {
        r := Err(UnknownCommand(command[0]));
      }
    }

    method GetPreimageCommand(request: Bytes) returns (r: Reply)
      requires Valid()
      modifies this`queue
      ensures Valid() && (State(), r) == GetPreimage(h, old(State()), request)
    {
      hide FindPreimage, EncodeLen;
      if |request| != 33 || request[0] != 0 {
        return Err(UnsupportedRequest(GET_PREIMAGE));
      }
      var found := SearchPreimage(request[1..]);
      if found.None? {
        return Err(UnknownHash);
      }
      var preimage := found.value;
      var size := EncodeLen(|preimage|);
      var maxPayload := 255 - |size| - 1;
      var payload := if |preimage| > maxPayload then maxPayload else |preimage|;
      for i := payload to |preimage|
        invariant queue == old(queue) + Singles(preimage[payload..])[..i - payload]
      {
        queue := queue + [[preimage[i]]];
      }
      assert Singles(preimage[payload..])[..|preimage| - payload] == Singles(preimage[payload..]);
      r := Ok(size + [payload % 256] + preimage[..payload]);
    }

    method SearchPreimage(hash: Bytes) returns (r: Option<Bytes>)
      requires Valid()
      ensures r == FindPreimage(h, Preimages(), hash)
    {
      for i := 0 to |knownPreimages|
        invariant FindPreimage(h, Preimages(), hash) == FindPreimage(h, Preimages()[i..], hash)
      {
        if knownPreimages[i].0.raw == hash {
          return Some(knownPreimages[i].1);
        }
        assert Preimages()[i..][1..] == Preimages()[i + 1..];
      }
      r := None;
    }

    /** The first tree with the wanted root. */
    method SearchTree(root: Bytes) returns (r: Option<MerkleTree>)
      requires Valid()
      ensures r.None? <==> FindList(h, lists, root).None?
      ensures r.Some? ==> r.value.Valid(h) && r.value.leaves == LeafHashes(h, FindList(h, lists, root).value)
    {
      for i := 0 to |trees|
        invariant FindList(h, lists, root) == FindList(h, lists[i..], root)
      {
        var candidate := RootHash(h, trees[i]);
        if candidate.raw == root {
          return Some(trees[i]);
        }
        assert lists[i..][1..] == lists[i + 1..];
      }
      r := None;
    }

    method GetMerkleLeafProofCommand(request: Bytes) returns (r: Reply)
      requires Valid()
      modifies this`queue
      ensures Valid() && (State(), r) == GetMerkleLeafProof(h, old(State()), request)
    {
      hide Decode, DecodeAll, Encode, Path, ListRoot, FindList, Concat, LeafHashes;
      if queue != [] {
        return Err(UnexpectedQueue);
      } else if |request| < 34 {
        return Err(UnsupportedRequest(GET_MERKLE_LEAF_PROOF));
      }
      var decoded := Decode(request[32..]);
      if decoded.Err? {
        return Err(UnsupportedRequest(GET_MERKLE_LEAF_PROOF));
      }
      var Decoded(size, read) := decoded.value;
      DecodeIsCanonical(request[32..]);
      var last := DecodeAll(request[32 + read..]);
      if last.None? {
        return Err(UnsupportedRequest(GET_MERKLE_LEAF_PROOF));
      }
      var index := last.value;
      var found := SearchTree(request[..32]);
      if found.None? {
        return Err(UnknownHash);
      }
      var tree := found.value;
      if index >= size || size != |tree.leaves| {
        return Err(InvalidIndexOrSize);
      }
      var some := GetLeafProof(h, tree, index);
      var proof := some.value;
      var firstPart, now, rest := PackProof(proof);
      queue := rest;
      r := Ok(tree.leaves[index].raw + [|proof| % 256] + [now % 256] + firstPart);
    }

    method GetMerkleLeafIndexCommand(request: Bytes) returns (r: Reply)
      requires Valid()
      ensures r == GetMerkleLeafIndex(h, State(), request)
    {
      if |request| < 64 {
        return Err(UnsupportedRequest(GET_MERKLE_LEAF_INDEX));
      }
      var found := SearchTree(request[..32]);
      if found.None? {
        return Err(UnknownHash);
      }
      var index := LeafIndex(found.value.leaves, Digest(request[32..64]));
      if index.None? {
        return Err(UnknownHash);
      }
      r := Ok([1] + EncodeLen(index.value));
    }

    method GetMoreElementsCommand() returns (r: Reply)
      requires Valid()
      modifies this`queue
      ensures Valid() && (State(), r) == GetMoreElements(old(State()))
    {
      if queue == [] {
        return Err(UnexpectedQueue);
      }
      var length := |queue[0]|;
      if exists e :: e in queue && |e| != length {
        return Err(UnexpectedQueue);
      }
      var added, elements := PackElements(queue, length);
      queue := queue[added..];
      r := Ok([added % 256] + [length % 256] + elements);
    }
  }

  /** The loop of `get_merkle_leaf_proof`: six elements go into the response. */
  method PackProof(proof: seq<Digest>) returns (firstPart: Bytes, now: nat, rest: seq<Bytes>)
    ensures now == Min(|proof|, 6)
    ensures firstPart == Concat(Raws(proof)[..now]) && rest == Raws(proof)[now..]
  {
    ghost var raws := Raws(proof);
    firstPart, now, rest := [], 0, [];
    for i := 0 to |proof|
      invariant now == Min(i, 6) && firstPart == Concat(raws[..now]) && rest == raws[now..i]
    {
      if i < 6 {
        ConcatSnoc(raws, i);
        firstPart := firstPart + proof[i].raw;
        now := now + 1;
      } else {
        assert raws[now..i + 1] == raws[now..i] + [raws[i]];
        rest := rest + [proof[i].raw];
      }
    }
    assert raws[now..|proof|] == raws[now..];
  }

  /** The loop of `get_more_elements`: as many elements as fit into 253 bytes. */
  method PackElements(queue: seq<Bytes>, length: nat) returns (added: nat, elements: Bytes)
    requires forall e :: e in queue ==> |e| == length
    ensures added == Fitting(|queue|, length) && elements == Concat(queue[..added])
  {
    hide Concat, Fitting;
    elements, added := [], 0;
    FittingStep(0, length);
    ConcatLength([], length);
    assert queue[..0] == [];
    for i := 0 to |queue|
      invariant added == Fitting(i, length) && elements == Concat(queue[..added])
    {
      FittingStep(i, length);
      ConcatLength(queue[..added], length);
      if |elements| + length <= 253 {
        ConcatSnoc(queue, added);
        elements := elements + queue[i];
        added := added + 1;
      }
    }
  }

  lemma MulMonotonic(a: nat, b: nat, c: nat)
    requires a <= b
    ensures a * c <= b * c
  {
  }

  lemma DivFits(i: nat, length: nat)
    requires length > 0
    ensures i <= 253 / length <==> i * length <= 253
  {
    var most := 253 / length;
    assert most * length <= 253 < (most + 1) * length;
    if i <= most {
      MulMonotonic(i, most, length);
    } else {
      MulMonotonic(most + 1, i, length);
    }
  }

  /** One more element is added exactly if it still fits. */
  lemma FittingStep(i: nat, length: nat)
    ensures var n := Fitting(i, length);
            && (n * length + length <= 253 ==> n == i && Fitting(i + 1, length) == n + 1)
            && (n * length + length > 253 ==> Fitting(i + 1, length) == n)
  {
    var n := Fitting(i, length);
    assert n * length + length == (n + 1) * length;
    if length > 0 {
      DivFits(n + 1, length);
    }
  }

  /** `get_merkleized_map_commitment`, which hashes the mapping on its own. */
  method GetMerkleizedMapCommitment(h: Hash, mapping: Mapping) returns (commitment: Bytes)
    requires mapping != []
    ensures commitment == MapCommitment(h, mapping)
  {
    var sorted := SortByKey(mapping);
    SortByKeySorts(mapping);
    var keysHashes, valuesHashes: seq<Digest> := [], [];
    for i := 0 to |sorted|
      invariant keysHashes == LeafHashes(h, Keys(sorted))[..i]
      invariant valuesHashes == LeafHashes(h, Values(sorted))[..i]
    {
      keysHashes := keysHashes + [h([0x00] + sorted[i].key)];
      valuesHashes := valuesHashes + [h([0x00] + sorted[i].value)];
    }
    assert keysHashes == LeafHashes(h, Keys(sorted)) && valuesHashes == LeafHashes(h, Values(sorted));
    var keysTree := NewMerkleTree(h, keysHashes);
    var keysRoot := RootHash(h, keysTree);
    var valuesTree := NewMerkleTree(h, valuesHashes);
    var valuesRoot := RootHash(h, valuesTree);
    commitment := EncodeLen(|sorted|) + keysRoot.raw + valuesRoot.raw;
  }
}
