/** What every run of client commands keeps. */
module StoreRuns {
  import opened Common
  import opened CompactSize
  import opened Merkle
  import opened MerkleProof
  import opened StoreSpec
  import opened Store

  /** Sizes that a 64-bit machine can hold. */
  ghost predicate Fits(s: StoreState) {
    && (forall p :: p in s.preimages ==> |p| < U64)
    && (forall l :: l in s.lists ==> |l| < U64)
  }

  /** All queued elements have one length. */
  predicate Uniform(queue: seq<Bytes>, length: nat) {
    forall e :: e in queue ==> |e| == length
  }

  /** Queued elements are single bytes of a preimage or digests of a proof. */
  ghost predicate ByteOrDigest(queue: seq<Bytes>) {
    forall e :: e in queue ==> |e| == 1 || |e| == 32
  }

  /** All queued elements are bytes, or all are digests. */
  predicate OneLength(queue: seq<Bytes>) {
    Uniform(queue, 1) || Uniform(queue, 32)
  }

  /** A well-formed GET_PREIMAGE for a preimage that does not fit into one answer, while
      digests are still queued. */
  predicate Mixes(h: Hash, s: StoreState, command: Bytes) {
    && |command| == 34 && command[0] == GET_PREIMAGE && command[1] == 0
    && s.queue != [] && |s.queue[0]| != 1
    && var p := FindPreimage(h, s.preimages, command[2..]);
       p.Some? && FirstPayload(p.value) < |p.value|
  }

  lemma PathFits(h: Hash, leaves: seq<Digest>, index: nat)
    requires index < |leaves| < U64
    ensures |Path(h, leaves, 0, |leaves|, index)| <= 64
  {
    Exp2Of64();
    PathLength(h, leaves, 0, |leaves|, index, 64);
  }

  lemma {:induction false} Exp2Adds(a: nat, b: nat)
    ensures Exp2(a + b) == Exp2(a) * Exp2(b)
  {
    if a > 0 {
      Exp2Adds(a - 1, b);
    }
  }

  lemma Exp2Of64()
    ensures Exp2(64) == U64
  {
    assert Exp2(8) == 0x100;
    Exp2Adds(8, 8);
    assert Exp2(16) == 0x1_0000;
    Exp2Adds(16, 16);
    assert Exp2(32) == U32;
    Exp2Adds(32, 32);
  }

  lemma {:induction false} FindPreimageKnown(h: Hash, preimages: seq<Bytes>, hash: Bytes)
    ensures FindPreimage(h, preimages, hash).Some? ==>
              FindPreimage(h, preimages, hash).value in preimages && h(FindPreimage(h, preimages, hash).value).raw == hash
  {
    if preimages != [] {
      FindPreimageKnown(h, preimages[1..], hash);
      assert preimages == [preimages[0]] + preimages[1..];
    }
  }

  /** The counts in front of a payload describe it exactly. */
  predicate CountsAreTrue(code: Byte, r: Bytes) {
    if code == GET_PREIMAGE then
      Decode(r).Ok? && var read := Decode(r).value.read; |r| > read && |r| == read + 1 + r[read]
    else if code == GET_MERKLE_LEAF_PROOF then
      |r| >= 34 && |r| == 34 + 32 * (r[33] as nat) && r[33] <= r[32] <= 64
    else if code == GET_MORE_ELEMENTS then
      |r| > 2 && |r| == 2 + (r[0] as nat) * (r[1] as nat)
    else true
  }

  lemma PreimageResponseFits(h: Hash, s: StoreState, request: Bytes)
    requires Fits(s) && GetPreimage(h, s, request).1.Ok?
    ensures var (s', r) := GetPreimage(h, s, request);
            |r.value| <= 255 && CountsAreTrue(GET_PREIMAGE, r.value)
  {
    hide FindPreimage, Decode, Encode;
    FindPreimageKnown(h, s.preimages, request[1..]);
    var preimage := FindPreimage(h, s.preimages, request[1..]).value;
    var r := GetPreimage(h, s, request).1.value;
    var size := EncodeLen(|preimage|);
    hide GetPreimage, EncodeLen;
    DecodeEncode(|preimage|, r[|size|..]);
    assert r == size + r[|size|..];
  }

  lemma MoreResponseFits(s: StoreState)
    requires ByteOrDigest(s.queue) && GetMoreElements(s).1.Ok?
    ensures var (s', r) := GetMoreElements(s);
            |r.value| <= 255 && CountsAreTrue(GET_MORE_ELEMENTS, r.value)
  {
    hide Concat;
    var length := |s.queue[0]|;
    var n := Fitting(|s.queue|, length);
    assert s.queue[0] in s.queue;
    DivFits(n, length);
    ConcatLength(s.queue[..n], length);
  }

  /** Every answer fits into one APDU, and none of its count bytes was truncated. */
  lemma ResponseFits(h: Hash, s: StoreState, command: Bytes)
    requires Fits(s) && ByteOrDigest(s.queue) && Step(h, s, command).1.Ok?
    ensures var r := Step(h, s, command).1.value;
            |r| <= 255 && CountsAreTrue(command[0], r)
  {
    hide GetPreimage, GetMerkleLeafProof, GetMoreElements, CountsAreTrue, FindList, LeafHashes;
    if command[0] == GET_PREIMAGE {
      PreimageResponseFits(h, s, command[1..]);
    } else if command[0] == GET_MERKLE_LEAF_PROOF {
      ProofResponseFits(h, s, command[1..]);
    } else if command[0] == GET_MORE_ELEMENTS {
      MoreResponseFits(s);
    } else {
      OtherCountsAreTrue(command[0], Step(h, s, command).1.value);
    }
  }

  lemma OtherCountsAreTrue(code: Byte, r: Bytes)
    requires code != GET_PREIMAGE && code != GET_MERKLE_LEAF_PROOF && code != GET_MORE_ELEMENTS
    ensures CountsAreTrue(code, r)
  {
  }

  lemma ProofResponseFits(h: Hash, s: StoreState, request: Bytes)
    requires Fits(s) && GetMerkleLeafProof(h, s, request).1.Ok?
    ensures var (s', r) := GetMerkleLeafProof(h, s, request);
            && |r.value| <= 255 && CountsAreTrue(GET_MERKLE_LEAF_PROOF, r.value)
            && Uniform(s'.queue, 32)
  {
    hide GetMerkleLeafProof, LeafHashes, Path, CountsAreTrue, Exp2;
    var elements, index := ProofResponseIs(h, s, request);
    var leaves := LeafHashes(h, elements);
    PathFits(h, leaves, index);
    ProofCounts(leaves[index], Path(h, leaves, 0, |leaves|, index));
  }

  lemma ProofResponseIs(h: Hash, s: StoreState, request: Bytes) returns (elements: ElementList, index: nat)
    requires Fits(s) && GetMerkleLeafProof(h, s, request).1.Ok?
    ensures index < |elements| < U64
    ensures var leaves := LeafHashes(h, elements);
            var proof := Raws(Path(h, leaves, 0, |leaves|, index));
            var now := Min(|proof|, 6);
            && GetMerkleLeafProof(h, s, request) ==
               (s.(queue := proof[now..]), Ok(leaves[index].raw + [|proof| % 256] + [now % 256] + Concat(proof[..now])))
  {
    hide ListRoot, LeafHashes, Path, Decode, Concat, Exp2;
    DecodeIsCanonical(request[32..]);
    index := DecodeAll(request[32 + Decode(request[32..]).value.read..]).value;
    elements := FindList(h, s.lists, request[..32]).value;
  }

  lemma ProofCounts(leaf: Digest, path: seq<Digest>)
    requires |path| <= 64
    ensures var proof := Raws(path);
            var now := Min(|proof|, 6);
            var r := leaf.raw + [|proof| % 256] + [now % 256] + Concat(proof[..now]);
            |r| <= 255 && CountsAreTrue(GET_MERKLE_LEAF_PROOF, r) && Uniform(proof[now..], 32)
  {
    hide Concat, Decode;
    var proof := Raws(path);
    ConcatLength(proof[..Min(|proof|, 6)], 32);
  }

  /** A failing command changes nothing; no command changes what the store knows;
      only YIELD adds a yielded value, and it adds its payload. */
  lemma {:induction false} StepFrame(h: Hash, s: StoreState, command: Bytes)
    ensures var (s', r) := Step(h, s, command);
            && (r.Err? ==> s' == s)
            && s'.preimages == s.preimages && s'.lists == s.lists
            && s'.yielded == s.yielded + (if command != [] && command[0] == YIELD then [command[1..]] else [])
  {
    hide FindPreimage, FindList, LeafHashes, Path, Decode, Concat;
  }

  /** Every command keeps the queue to bytes of preimages and digests of proofs. */
  lemma {:induction false} StepKeepsByteOrDigest(h: Hash, s: StoreState, command: Bytes)
    requires Fits(s) && ByteOrDigest(s.queue)
    ensures ByteOrDigest(Step(h, s, command).0.queue)
  {
    hide FindPreimage, FindList, LeafHashes, Path, Decode, Concat;
    var (s', r) := Step(h, s, command);
    if r.Ok? && command[0] == GET_MERKLE_LEAF_PROOF {
      ProofResponseFits(h, s, command[1..]);
    }
  }

  /** One command keeps the queue to one element length if and only if it does not mix. */
  lemma {:induction false} StepKeepsUniform(h: Hash, s: StoreState, command: Bytes)
    requires Fits(s) && OneLength(s.queue)
    ensures OneLength(Step(h, s, command).0.queue) <==> !Mixes(h, s, command)
  {
    hide FindPreimage, FindList, LeafHashes, Path, Decode, Concat, GetPreimage, Mixes, FirstPayload;
    if command != [] && command[0] == GET_PREIMAGE {
      PreimageQueue(h, s, command);
    } else {
      NoPreimageNoMix(h, s, command);
      if Step(h, s, command).1.Ok? && command[0] == GET_MERKLE_LEAF_PROOF {
        ProofResponseFits(h, s, command[1..]);
      }
    }
  }

  lemma NoPreimageNoMix(h: Hash, s: StoreState, command: Bytes)
    requires command == [] || command[0] != GET_PREIMAGE
    ensures !Mixes(h, s, command)
  {
  }

  lemma PreimageQueue(h: Hash, s: StoreState, command: Bytes)
    requires OneLength(s.queue) && command != [] && command[0] == GET_PREIMAGE
    ensures OneLength(Step(h, s, command).0.queue) <==> !Mixes(h, s, command)
    ensures Mixes(h, s, command) ==> Mixed(Step(h, s, command).0.queue)
  {
    hide FindPreimage, FirstPayload, Decode;
    var queue := Step(h, s, command).0.queue;
    if |command| == 34 && command[1] == 0 {
      assert command[1..][1..] == command[2..];
      var p := FindPreimage(h, s.preimages, command[2..]);
      if p.Some? {
        var more := Singles(p.value[FirstPayload(p.value)..]);
        assert queue == s.queue + more;
        assert forall e :: e in queue <==> e in s.queue || e in more;
        if s.queue != [] {
          assert s.queue[0] in queue;
        }
        if more != [] {
          assert more[0] in queue && |more[0]| == 1;
        }
      }
    }
  }

  /** The queue holds elements of two lengths. */
  ghost predicate Mixed(queue: seq<Bytes>) {
    exists a, b :: a in queue && b in queue && |a| != |b|
  }

  /** The states after a sequence of commands. */
  function Run(h: Hash, s: StoreState, commands: seq<Bytes>): StoreState
    decreases |commands|
  {
    if commands == [] then s else Run(h, Step(h, s, commands[0]).0, commands[1..])
  }

  /** The payloads of the YIELD commands, in order. */
  function Yields(commands: seq<Bytes>): seq<Bytes> {
    if commands == [] then []
    else (if commands[0] != [] && commands[0][0] == YIELD then [commands[0][1..]] else []) + Yields(commands[1..])
  }

  /** Some command of the run mixes. */
  predicate MixesSomewhere(h: Hash, s: StoreState, commands: seq<Bytes>)
    decreases |commands|
  {
    commands != [] && (Mixes(h, s, commands[0]) || MixesSomewhere(h, Step(h, s, commands[0]).0, commands[1..]))
  }

  /** In every run the store's knowledge stays and the yielded values are the YIELD
      payloads in order. */
  lemma {:induction false} RunFrame(h: Hash, s: StoreState, commands: seq<Bytes>)
    ensures var s' := Run(h, s, commands);
            && s'.preimages == s.preimages && s'.lists == s.lists
            && s'.yielded == s.yielded + Yields(commands)
    decreases |commands|
  {
    hide Step;
    if commands != [] {
      StepFrame(h, s, commands[0]);
      RunFrame(h, Step(h, s, commands[0]).0, commands[1..]);
    }
  }

  lemma {:induction false} RunKeepsByteOrDigest(h: Hash, s: StoreState, commands: seq<Bytes>)
    requires Fits(s) && ByteOrDigest(s.queue)
    ensures Fits(Run(h, s, commands)) && ByteOrDigest(Run(h, s, commands).queue)
    decreases |commands|
  {
    hide Step;
    if commands != [] {
      StepFrame(h, s, commands[0]);
      StepKeepsByteOrDigest(h, s, commands[0]);
      RunKeepsByteOrDigest(h, Step(h, s, commands[0]).0, commands[1..]);
    }
  }

  /** In every run from an empty queue, whatever the device sends, every answer fits into
      one APDU and its counts are true. */
  lemma {:induction false} EveryAnswerFits(h: Hash, s: StoreState, commands: seq<Bytes>, command: Bytes)
    requires Fits(s) && s.queue == []
    ensures var r := Step(h, Run(h, s, commands), command).1;
            r.Ok? ==> |r.value| <= 255 && CountsAreTrue(command[0], r.value)
  {
    hide Step, Run, CountsAreTrue;
    RunKeepsByteOrDigest(h, s, commands);
    if Step(h, Run(h, s, commands), command).1.Ok? {
      ResponseFits(h, Run(h, s, commands), command);
    }
  }

  /** After any run the queue has elements of one length, and GET_MORE_ELEMENTS fails only
      when there is nothing to send, if and only if no command of the run mixed. */
  lemma {:induction false} RunInvariant(h: Hash, s: StoreState, commands: seq<Bytes>)
    requires Fits(s) && OneLength(s.queue)
    ensures var s' := Run(h, s, commands);
            && (OneLength(s'.queue) <==> !MixesSomewhere(h, s, commands))
            && ((Step(h, s', [GET_MORE_ELEMENTS]).1.Err? <==> s'.queue == []) <==> !MixesSomewhere(h, s, commands))
    decreases |commands|
  {
    hide Step, Mixes, OneLength, Mixed;
    if commands == [] {
      MoreFailsWhenEmpty(h, s);
    } else {
      var s1 := Step(h, s, commands[0]).0;
      StepFrame(h, s, commands[0]);
      StepKeepsUniform(h, s, commands[0]);
      if Mixes(h, s, commands[0]) {
        MixingMixes(h, s, commands[0]);
        MixedStays(h, s1, commands[1..]);
      } else {
        RunInvariant(h, s1, commands[1..]);
      }
    }
  }

  lemma MixingMixes(h: Hash, s: StoreState, command: Bytes)
    requires OneLength(s.queue) && Mixes(h, s, command)
    ensures Mixed(Step(h, s, command).0.queue)
  {
    hide Step;
    PreimageQueue(h, s, command);
  }

  lemma MixedStays(h: Hash, s: StoreState, commands: seq<Bytes>)
    requires Mixed(s.queue)
    ensures var s' := Run(h, s, commands);
            && Mixed(s'.queue) && !OneLength(s'.queue) && s'.queue != []
            && Step(h, s', [GET_MORE_ELEMENTS]).1 == Err(UnexpectedQueue)
  {
    hide Step, Run;
    var a, b :| a in s.queue && b in s.queue && |a| != |b|;
    MixedQueueStays(h, s, commands, a, b);
  }

  lemma MoreFailsWhenEmpty(h: Hash, s: StoreState)
    requires OneLength(s.queue)
    ensures Step(h, s, [GET_MORE_ELEMENTS]).1.Err? <==> s.queue == []
  {
    hide Concat;
    if s.queue != [] {
      assert s.queue[0] in s.queue;
    }
  }

  /** A queue of mixed lengths wedges the store: it is never drained, whatever the device
      sends afterwards. */
  lemma {:induction false} MixedQueueStays(h: Hash, s: StoreState, commands: seq<Bytes>, a: Bytes, b: Bytes)
    requires a in s.queue && b in s.queue && |a| != |b|
    ensures var s' := Run(h, s, commands);
            && a in s'.queue && b in s'.queue
            && Step(h, s', [GET_MORE_ELEMENTS]).1 == Err(UnexpectedQueue)
    decreases |commands|
  {
    hide FindPreimage, FindList, LeafHashes, Path, Decode, Concat;
    if commands != [] {
      var s1 := Step(h, s, commands[0]).0;
      assert a in s1.queue && b in s1.queue;
      hide Step;
      MixedQueueStays(h, s1, commands[1..], a, b);
    }
  }

  // ---- answers are as long as they can be ----

  lemma PreimageIsFull(h: Hash, s: StoreState, request: Bytes)
    requires GetPreimage(h, s, request).1.Ok?
    ensures var (s', r) := GetPreimage(h, s, request); s'.queue == s.queue || |r.value| == 255
  {
    hide FindPreimage, Encode;
    var preimage := FindPreimage(h, s.preimages, request[1..]).value;
    if FirstPayload(preimage) == |preimage| {
      assert Singles(preimage[|preimage|..]) == [];
    }
  }

  lemma MoreIsFull(s: StoreState)
    requires ByteOrDigest(s.queue) && GetMoreElements(s).1.Ok?
    ensures var (s', r) := GetMoreElements(s); s'.queue == [] || |r.value| + |s.queue[0]| > 255
  {
    hide Concat;
    var length := |s.queue[0]|;
    var n := Fitting(|s.queue|, length);
    assert s.queue[0] in s.queue;
    ConcatLength(s.queue[..n], length);
  }

  lemma ProofIsFull(h: Hash, s: StoreState, request: Bytes)
    requires Fits(s) && GetMerkleLeafProof(h, s, request).1.Ok?
    ensures var (s', r) := GetMerkleLeafProof(h, s, request); s'.queue == [] || |r.value| == 34 + 6 * 32
  {
    hide GetMerkleLeafProof, LeafHashes, Path, Concat;
    var elements, index := ProofResponseIs(h, s, request);
    var leaves := LeafHashes(h, elements);
    var proof := Raws(Path(h, leaves, 0, |leaves|, index));
    ConcatLength(proof[..Min(|proof|, 6)], 32);
  }

  /** An answer that leaves something behind is full: a preimage of which more is queued fills
      255 bytes, a proof of which more is queued brings six digests, and after
      GET_MORE_ELEMENTS nothing more would have fit. */
  lemma {:induction false} AnswersAreFull(h: Hash, s: StoreState, command: Bytes)
    requires Fits(s) && ByteOrDigest(s.queue) && Step(h, s, command).1.Ok?
    ensures var (s', r) := Step(h, s, command);
            && (command[0] == 0x40 ==> s'.queue == s.queue || |r.value| == 255)
            && (command[0] == 0x41 ==> s'.queue == [] || |r.value| == 34 + 6 * 32)
            && (command[0] == 0xA0 ==> s'.queue == [] || |r.value| + |s.queue[0]| > 255)
  {
    hide GetPreimage, GetMerkleLeafProof, GetMoreElements, GetMerkleLeafIndex;
    if command[0] == 0x40 {
      PreimageIsFull(h, s, command[1..]);
    } else if command[0] == 0x41 {
      ProofIsFull(h, s, command[1..]);
    } else if command[0] == 0xA0 {
      MoreIsFull(s);
    }
  }

  // ---- refusals ----

  /** What a well-formed request for a proof holds. */
  ghost predicate AsksProof(rest: Bytes, root: Bytes, size: nat, index: nat) {
    |root| == 32 && size < U64 && index < U64 && rest == root + Encode(size) + Encode(index)
  }

  lemma ProofRequestIs(rest: Bytes, root: Bytes, size: nat, index: nat)
    requires AsksProof(rest, root, size, index)
    ensures |rest| >= 34 && rest[..32] == root && Decode(rest[32..]) == Ok(Decoded(size, |Encode(size)|))
    ensures 32 + |Encode(size)| <= |rest| && DecodeAll(rest[32 + |Encode(size)|..]) == Some(index)
  {
    hide Encode, Decode, DecodeAll;
    assert rest[32..] == Encode(size) + Encode(index);
    DecodeEncode(size, Encode(index));
    assert rest[32 + |Encode(size)|..] == Encode(index);
    DecodeAllEncode(index);
  }

  /** A request for a proof is refused while something is queued; if it is not of this form; if
      no known list has the root; or if the size is not that of the list, or the index not in
      it; in this order. */
  lemma {:induction false} ProofRefusals(h: Hash, s: StoreState, rest: Bytes, root: Bytes, size: nat, index: nat)
    ensures var r := Step(h, s, [0x41] + rest).1;
            && (s.queue != [] ==> r == Err(UnexpectedQueue))
            && (s.queue == [] && AsksProof(rest, root, size, index) ==>
                  match FindList(h, s.lists, root)
                  case None => r == Err(UnknownHash)
                  case Some(l) => if size == |l| && index < |l| then r.Ok? else r == Err(InvalidIndexOrSize))
            && (s.queue == [] && (forall t, n, i :: !AsksProof(rest, t, n, i)) ==> r == Err(UnsupportedRequest(0x41)))
  {
    hide FindList, LeafHashes, Path, Decode, DecodeAll, Encode, Concat, ListRoot;
    assert ([0x41] + rest)[1..] == rest;
    if s.queue == [] && AsksProof(rest, root, size, index) {
      ProofRequestIs(rest, root, size, index);
    }
    if s.queue == [] && (forall t, n, i :: !AsksProof(rest, t, n, i)) && |rest| >= 34 && Decode(rest[32..]).Ok? {
      var read := Decode(rest[32..]).value.read;
      DecodeIsCanonical(rest[32..]);
      if DecodeAll(rest[32 + read..]).Some? {
        MakesProofRequest(rest);
      }
    }
  }

  lemma MakesProofRequest(rest: Bytes)
    requires |rest| >= 34 && Decode(rest[32..]).Ok? && Decode(rest[32..]).value.read <= |rest| - 32
    requires DecodeAll(rest[32 + Decode(rest[32..]).value.read..]).Some?
    ensures exists t, n, i :: AsksProof(rest, t, n, i)
  {
    hide Encode;
    var Decoded(size, read) := Decode(rest[32..]).value;
    DecodeIsCanonical(rest[32..]);
    var tail := rest[32 + read..];
    DecodeIsCanonical(tail);
    hide Decode;
    assert tail[..|tail|] == tail;
    assert rest[32..] == Encode(size) + tail;
    assert rest == rest[..32] + Encode(size) + tail;
    assert AsksProof(rest, rest[..32], size, DecodeAll(tail).value);
  }

  lemma {:induction false} FindPreimageFails(h: Hash, preimages: seq<Bytes>, hash: Bytes)
    ensures FindPreimage(h, preimages, hash).None? <==> forall p :: p in preimages ==> h(p).raw != hash
  {
    if preimages != [] {
      FindPreimageFails(h, preimages[1..], hash);
      assert preimages == [preimages[0]] + preimages[1..];
    }
  }

  /** When the other commands are refused, and why. */
  lemma {:induction false} OtherRefusals(h: Hash, s: StoreState, command: Bytes)
    ensures var r := Step(h, s, command).1;
            && (r == Err(EmptyInput) <==> command == [])
            && (forall code :: r == Err(UnknownCommand(code)) <==>
                  command != [] && command[0] == code
                  && code != 0x10 && code != 0x40 && code != 0x41 && code != 0x42 && code != 0xA0)
            && (command != [] && command[0] == 0x40 ==>
                  if |command| != 34 || command[1] != 0 then r == Err(UnsupportedRequest(0x40))
                  else if forall p :: p in s.preimages ==> h(p).raw != command[2..] then r == Err(UnknownHash) else r.Ok?)
            && (command != [] && command[0] == 0x42 ==>
                  if |command| < 65 then r == Err(UnsupportedRequest(0x42))
                  else if forall l :: l in s.lists ==> ListRoot(h, l).raw != command[1..33] then r == Err(UnknownHash)
                  else r.Ok? || r == Err(UnknownHash))
            && (command != [] && command[0] == 0xA0 ==>
                  if s.queue == [] || exists e :: e in s.queue && |e| != |s.queue[0]| then r == Err(UnexpectedQueue) else r.Ok?)
  {
    hide FindPreimage, FindList, LeafHashes, LeafIndex, Path, Decode, DecodeAll, EncodeLen, Concat, ListRoot;
    if command != [] && command[0] == 0x40 && |command| == 34 {
      assert command[1..][1..] == command[2..];
      FindPreimageFails(h, s.preimages, command[2..]);
    }
    if command != [] && command[0] == 0x42 && |command| >= 65 {
      assert command[1..][..32] == command[1..33];
      FindListIsFirst(h, s.lists, command[1..33]);
    }
  }
}
