/** What the delegated store of bhwi/src/ledger/store.rs answers, as functions of
    the lists and preimages that were put into it. */
module StoreSpec {
  import opened Common
  import opened CompactSize
  import opened Merkle
  import opened MerkleProof
  import opened KeyOrder

  datatype StoreError =
    | EmptyInput
    | UnknownCommand(code: Byte)
    | UnsupportedRequest(code: Byte)
    | InvalidIndexOrSize
    | UnknownHash
    | UnexpectedQueue

  const YIELD: Byte := 0x10
  const GET_PREIMAGE: Byte := 0x40
  const GET_MERKLE_LEAF_PROOF: Byte := 0x41
  const GET_MERKLE_LEAF_INDEX: Byte := 0x42
  const GET_MORE_ELEMENTS: Byte := 0xA0

  type ElementList = l: seq<Bytes> | l != [] witness [[]]

  datatype StoreState = StoreState(
    yielded: seq<Bytes>,
    queue: seq<Bytes>,
    preimages: seq<Bytes>,
    lists: seq<ElementList>)
  {
    function WithPreimage(element: Bytes): StoreState {
      this.(preimages := preimages + [element])
    }

    function WithList(elements: ElementList): StoreState {
      this.(preimages := preimages + LeafPreimages(elements), lists := lists + [elements])
    }

    /** The list of keys, then the list of values, both in the order of the keys. */
    function WithMapping(mapping: Mapping): StoreState
      requires mapping != []
    {
      SortByKeySorts(mapping);
      WithList(Keys(SortByKey(mapping))).WithList(Values(SortByKey(mapping)))
    }
  }

  const EMPTY: StoreState := StoreState([], [], [], [])

  function LeafPreimages(elements: seq<Bytes>): (r: seq<Bytes>)
    ensures |r| == |elements| && forall i :: 0 <= i < |r| ==> r[i] == LeafBytes(elements[i])
  {
    seq(|elements|, i requires 0 <= i < |elements| => LeafBytes(elements[i]))
  }

  /** The first known preimage of a hash. */
  function FindPreimage(h: Hash, preimages: seq<Bytes>, hash: Bytes): Option<Bytes> {
    if preimages == [] then None
    else if h(preimages[0]).raw == hash then Some(preimages[0])
    else FindPreimage(h, preimages[1..], hash)
  }

  /** The first known list with a Merkle root. */
  function FindList(h: Hash, lists: seq<ElementList>, root: Bytes): (r: Option<ElementList>)
    ensures r.Some? ==> r.value in lists && ListRoot(h, r.value).raw == root
  {
    if lists == [] then None
    else if ListRoot(h, lists[0]).raw == root then Some(lists[0])
    else FindList(h, lists[1..], root)
  }

  /** It is the first one, and it is found if there is any. */
  lemma {:induction false} FindListIsFirst(h: Hash, lists: seq<ElementList>, root: Bytes)
    ensures FindList(h, lists, root).None? <==> forall l :: l in lists ==> ListRoot(h, l).raw != root
    ensures FindList(h, lists, root).Some? ==>
              exists i :: 0 <= i < |lists| && lists[i] == FindList(h, lists, root).value
                          && ListRoot(h, lists[i]).raw == root
                          && forall j :: 0 <= j < i ==> ListRoot(h, lists[j]).raw != root
  {
    hide ListRoot;
    if lists != [] {
      var rest := lists[1..];
      FindListIsFirst(h, rest, root);
      assert lists == [lists[0]] + rest;
      if ListRoot(h, lists[0]).raw == root {
        assert lists[0] == FindList(h, lists, root).value;
      } else if FindList(h, rest, root).Some? {
        var i :| 0 <= i < |rest| && rest[i] == FindList(h, rest, root).value && ListRoot(h, rest[i]).raw == root
                 && forall j :: 0 <= j < i ==> ListRoot(h, rest[j]).raw != root;
        assert lists[i + 1] == rest[i];
        forall j | 0 <= j < i + 1 ensures ListRoot(h, lists[j]).raw != root {
          assert j > 0 ==> lists[j] == rest[j - 1];
        }
      }
    }
  }

  function Singles(bytes: Bytes): (r: seq<Bytes>)
    ensures |r| == |bytes| && forall i :: 0 <= i < |r| ==> r[i] == [bytes[i]]
  {
    seq(|bytes|, i requires 0 <= i < |bytes| => [bytes[i]])
  }

  function Raws(digests: seq<Digest>): (r: seq<Bytes>)
    ensures |r| == |digests| && forall i :: 0 <= i < |r| ==> r[i] == digests[i].raw
  {
    seq(|digests|, i requires 0 <= i < |digests| => digests[i].raw)
  }

  function Concat(parts: seq<Bytes>): Bytes {
    if parts == [] then [] else parts[0] + Concat(parts[1..])
  }

  /** How much of a preimage fits into the first answer: at most 255 bytes with the size
      in front and one count byte. */
  function FirstPayload(preimage: Bytes): (n: nat)
    ensures n <= |preimage| && n <= 253
  {
    Min(|preimage|, 255 - |EncodeLen(|preimage|)| - 1)
  }

  type Reply = Result<Bytes, StoreError>

  function GetPreimage(h: Hash, s: StoreState, request: Bytes): (StoreState, Reply) {
    if |request| != 33 || request[0] != 0 then (s, Err(UnsupportedRequest(GET_PREIMAGE)))
    else
      match FindPreimage(h, s.preimages, request[1..])
      case None => (s, Err(UnknownHash))
      case Some(preimage) =>
        var size := EncodeLen(|preimage|);
        var payload := FirstPayload(preimage);
        (s.(queue := s.queue + Singles(preimage[payload..])), Ok(size + [payload % 256] + preimage[..payload]))
  }

  function GetMerkleLeafProof(h: Hash, s: StoreState, request: Bytes): (StoreState, Reply) {
    if s.queue != [] then (s, Err(UnexpectedQueue))
    else if |request| < 34 then (s, Err(UnsupportedRequest(GET_MERKLE_LEAF_PROOF)))
    else
      match Decode(request[32..])
      case Err(_) => (s, Err(UnsupportedRequest(GET_MERKLE_LEAF_PROOF)))
      case Ok(Decoded(size, read)) =>
        DecodeIsCanonical(request[32..]);
        match DecodeAll(request[32 + read..])
        case None => (s, Err(UnsupportedRequest(GET_MERKLE_LEAF_PROOF)))
        case Some(index) =>
          match FindList(h, s.lists, request[..32])
          case None => (s, Err(UnknownHash))
          case Some(elements) =>
            if index >= size || size != |elements| then (s, Err(InvalidIndexOrSize))
            else
              var leaves := LeafHashes(h, elements);
              var proof := Raws(Path(h, leaves, 0, |leaves|, index));
              var now := Min(|proof|, 6);
              (s.(queue := proof[now..]),
               Ok(leaves[index].raw + [|proof| % 256] + [now % 256] + Concat(proof[..now])))
  }

  function GetMerkleLeafIndex(h: Hash, s: StoreState, request: Bytes): Reply {
    if |request| < 64 then Err(UnsupportedRequest(GET_MERKLE_LEAF_INDEX))
    else
      match FindList(h, s.lists, request[..32])
      case None => Err(UnknownHash)
      case Some(elements) =>
        match LeafIndex(LeafHashes(h, elements), Digest(request[32..64]))
        case None => Err(UnknownHash)
        case Some(index) => Ok([1] + EncodeLen(index))
  }

  /** How many elements of one length fit into 253 bytes. */
  function Fitting(count: nat, length: nat): (n: nat)
    ensures n <= count
  {
    if length == 0 then count else Min(count, 253 / length)
  }

  function GetMoreElements(s: StoreState): (StoreState, Reply) {
    if s.queue == [] || exists e :: e in s.queue && |e| != |s.queue[0]| then (s, Err(UnexpectedQueue))
    else
      var length := |s.queue[0]|;
      var n := Fitting(|s.queue|, length);
      (s.(queue := s.queue[n..]), Ok([n % 256] + [length % 256] + Concat(s.queue[..n])))
  }

  /** `execute`: one client command. */
  function Step(h: Hash, s: StoreState, command: Bytes): (StoreState, Reply) {
    if command == [] then (s, Err(EmptyInput))
    else if command[0] == YIELD then (s.(yielded := s.yielded + [command[1..]]), Ok([]))
    else if command[0] == GET_PREIMAGE then GetPreimage(h, s, command[1..])
    else if command[0] == GET_MERKLE_LEAF_PROOF then GetMerkleLeafProof(h, s, command[1..])
    else if command[0] == GET_MERKLE_LEAF_INDEX then (s, GetMerkleLeafIndex(h, s, command[1..]))
    else if command[0] == GET_MORE_ELEMENTS then GetMoreElements(s)
    else (s, Err(UnknownCommand(command[0])))
  }

  /** `get_merkleized_map_commitment`: size || root of the keys || root of the values. */
  function MapCommitment(h: Hash, mapping: Mapping): Bytes
    requires mapping != []
  {
    SortByKeySorts(mapping);
    var sorted := SortByKey(mapping);
    EncodeLen(|sorted|) + ListRoot(h, Keys(sorted)).raw + ListRoot(h, Values(sorted)).raw
  }

  /** The commitment and the store depend on the pairs of a mapping only. */
  lemma {:induction false} CommitmentIsCanonical(h: Hash, s: StoreState, a: Mapping, b: Mapping)
    requires a != [] && b != [] && multiset(a) == multiset(b) && DistinctKeys(a)
    ensures MapCommitment(h, a) == MapCommitment(h, b)
    ensures s.WithMapping(a) == s.WithMapping(b)
  {
    SortByKeyIsCanonical(a, b);
  }
}
