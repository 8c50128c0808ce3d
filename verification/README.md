# Protocol cores of bhwi, modelled and proved in Dafny

`bhwi` talks to hardware wallets without doing any I/O itself: an interpreter turns a
command into bytes for the device, takes the bytes that come back, and either asks for
more or has a response. This project models those protocol cores and proves what they
promise, against any device where that is possible and against a device that follows
its own protocol where the promise needs one.

All files verify together: `dafny verify dfyconfig.toml`.

## What is modelled

**Ledger: the delegated store.** The host commits to a PSBT and a wallet policy by
Merkle roots and then answers the device's client commands out of a store of preimages
and trees. `Merkle`, `MerkleProof` (trees, audit paths, what a proof and a root are
worth), `CompactSize`, `KeyOrder` (encodings and the order of maps), `StoreSpec`,
`Store` (the commands as a step function, and the class that updates its fields in
place), `StoreRuns` (what every run keeps), `Device`, `SessionReads` (a device that reads
through any host, checking proofs), `Lookup` (what it reads when the host is the store),
`Wallet`, `SignSession` (policies, and a whole signing session), `Apdu`, `LedgerYields`,
`Ledger` (framing, yielded signatures, and the interpreter), `LedgerSession` (whole
commands, with the interpreter as the device's host), `LedgerRequests` (requests and
answers byte by byte, and what a device has been told by them).

**BitBox02.** `BitBoxSign` (lowering a PSBT and putting signatures back), `SignLoop` (the
two-pass signing loop with its anti-klepto handshake), `U2f` (packet codec), `Base32`
(the pairing code), `BitBox` (pairing, and every state of the interpreter),
`BitBoxCommands` (whole commands), `BitBoxLowering` (a lowered transaction, read off the
PSBT alone), `SignAnswers`, `BitBoxSessions` (what a device learns while it signs, and how
its signatures are checked), `BitBoxFlows` (setup, wiping, restoring, queries, and the
messages of pairing).

**Coldcard.** `ColdcardCipher` (the stream cipher), `ColdcardApi` (message layouts),
`Coldcard` (the interpreter), `ColdcardRuns` (the two ciphers over a conversation),
`ColdcardFiles` (uploads and downloads), `ColdcardCommands` (whole commands).

**Jade and the driver.** `Jade` (the interpreter and the reassembly of fragments), `Driver`
(the loop that drives any interpreter, and its contract with it).

`Common` and `PsbtFields` hold shared types.

## How to read it

- SHA-256 is a parameter `h` from byte strings to digests. Nothing assumes that it is
  injective. A result that rests on it reads "equal, or `ClashIn(h, S)`", where `S` is a
  finite set of strings that the program itself hashed.
- Libraries are parameters too: parsers, protobuf, CBOR, key agreement, the tweak of a
  point. Theorems hold for every choice of them.
- Where the source changes state step by step there is a class or a method with a loop,
  proved equal to a function on values; the theorems are about that function.
- An index out of range or a failed assertion of the source is the result `Panic` or
  `Panicked`, never excluded silently.

## What was found

- A device cannot learn that a map has no such key: the store refuses
  GET_MERKLE_LEAF_INDEX for a digest that is not in the list, which makes `exchange` fail,
  and the command is over (`LedgerSession.AbsentKeyFails`). A lookup gives the value of
  every key that is there, and ends the command with UnknownHash if and only if the key is
  not (`LedgerSession.LookupsEndOrAnswer`).
- GET_PREIMAGE does not check that the queue is empty. For a preimage that does not fit
  into one answer, while digests are queued, it mixes lengths in the queue, and nothing
  drains it again (`StoreRuns.MixedQueueStays`). A run leaves a queue that can be drained
  if and only if none of its commands is of this kind (`StoreRuns.RunInvariant`); a list of
  128 elements and a preimage of 253 bytes are enough (`Lookup.WedgesStore`).
- The one-byte length of a policy name does not describe names above 255 bytes; a signing
  session can be read by the device exactly up to that length
  (`Wallet.PolicyIsReadable`, `LedgerSession.SigningIsClosed`), and so can the policy when
  it is registered or an address is asked for (`LedgerSession.RegisteringIsClosed`,
  `LedgerSession.AddressIsClosed`).
- REGISTER_WALLET, SIGN_MESSAGE and GET_EXTENDED_PUBKEY fit into an APDU only up to sizes
  that nothing checks (`Ledger.RequestsFit`).
- A bare OK in answer to the Ledger's SIGN_MESSAGE stops the program: it takes the first
  byte of the data (`LedgerSession.CommandPanicsExactly`, `LedgerSession.BareOkPanics`). So
  does starting to sign an empty message, or a PSBT without inputs or without outputs
  (`Ledger.StartPanicsExactly`). Nothing else does.
- The BitBox loop checks the index of an input, and uses those of outputs and previous
  transactions unchecked; the anti-klepto check slices the signature unchecked; and in a
  build with overflow checks the recovery id of a message signature can overflow. Which
  answers stop a BitBox command, and that no other does, is
  `BitBoxCommands.CommandPanicsExactly`; `BitBoxCommands.OutputStops`, `SignatureStops` and
  `RecoveryIdStops` are answers that do.
- The loop writes signatures by the order of the rounds, not by the inputs that they were
  made for (`SignLoop.WhenDone`). If nothing was signed before and signatures of different
  inputs differ, every input of the returned PSBT holds its own signature if and only if the
  device asked for all inputs, in their order (`SignLoop.BelongsIffInOrder`,
  `BitBox.SessionBelongs`, with `SignLoop.SwappedRounds` as an example of a device that does
  not).
- A Coldcard file announced as empty can never be downloaded
  (`ColdcardFiles.EmptyFileNeverFinishes`).
- Decoding a Coldcard message signature slices unchecked
  (`ColdcardApi.MessageSignaturePanics`): the bare tag stops the program
  (`ColdcardCommands.BareTagPanics`); no other command and no other reply does
  (`ColdcardCommands.CommandPanicsExactly`).
- Jade's message signature is sliced unchecked after decoding its Base64: an empty text
  stops the program (`Jade.CommandPanicsExactly`, `Jade.EmptyTextPanics`), nothing else
  does.
- The encoder of U2F-HID stops one frame below the 7609 bytes of the standard
  (`U2f.U2fHid.Encode`). Its 16-bit size computation overflows for 65534 and 65535 bytes: a
  single report whose header announces 65535 stops the decoder, in every build
  (`U2f.DecodePanicsExactly`, `U2f.OneReportPanics`).

## Model

| member | source | states |
|---|---|---|
| Merkle.IsPowerOf2Decides | bhwi/src/ledger/merkle.rs:151-153 | the bit trick decides exactly the powers of two |
| Merkle.FloorLg | bhwi/src/ledger/merkle.rs:130-140 | the loop yields the r with 2^r <= n < 2^(r+1) |
| Merkle.Pow2 | bhwi/src/ledger/merkle.rs:142-149 | the loop yields 2^n |
| Merkle.LargestPowerOf2LessThan | bhwi/src/ledger/merkle.rs:157-167 | the split of section 2.1 of RFC 6962, which only one power of two can be |
| Merkle.SplitIsUnique | bhwi/src/ledger/merkle.rs:157-167 | no other power of two lies in [n/2, n) |
| Merkle.NewTree | bhwi/src/ledger/merkle.rs:71-93 | the built tree has the shape of RFC 6962, node hashes and left heights at every node |
| Merkle.RepresentsValue | bhwi/src/ledger/merkle.rs:95-100 | the value stored at a node is the Merkle tree hash of its range |
| Merkle.HeightOfLeft | bhwi/src/ledger/merkle.rs:102-128 | the left child is perfect, so 2 to the height stored in it is its size |
| Merkle.GetProofIsPath | bhwi/src/ledger/merkle.rs:110-128 | the proof is the audit path of section 2.1.1 of RFC 6962, for every tree and index |
| Merkle.PathLength | bhwi/src/ledger/merkle.rs:110-128 | a path is at most ceil(log2 n) long |
| Merkle.NewMerkleTree | bhwi/src/ledger/merkle.rs:18-24 | the tree over all given leaves |
| Merkle.RootHash | bhwi/src/ledger/merkle.rs:30-36 | the stored root is the Merkle tree hash of the leaves |
| Merkle.LeafIndex | bhwi/src/ledger/merkle.rs:43-46 | the first position of a leaf, or none if it is absent |
| Merkle.GetLeafProof | bhwi/src/ledger/merkle.rs:48-56 | the audit path for every index in range, nothing otherwise |
| MerkleProof.VerifyIsFold | bhwi/src/ledger/merkle.rs:110-128 | the iterative verifier of section 2.1.3.2 of RFC 9162 equals the fold over RFC 6962's tree, for every path, right or wrong |
| MerkleProof.ProofIsAccepted | bhwi/src/ledger/merkle.rs:48-56 | that verifier accepts the proof of every leaf of every tree |
| MerkleProof.AcceptedIsGenuine | bhwi/src/ledger/merkle.rs:48-56 | an accepted leaf and path are those of the tree, or two hashed strings collide |
| MerkleProof.MthBinds | bhwi/src/ledger/merkle.rs:71-93 | equal hashes of two ranges, of any sizes, mean equal ranges of elements or a collision |
| MerkleProof.RootBindsList | bhwi/src/ledger/merkle.rs:71-93 | two lists with one root are equal, or two hashed strings collide |
| MerkleProof.RootIsTreeHash | bhwi/src/ledger/merkle.rs:71-93 | the root of a list by section 2.1 of RFC 6962 down to the hashed bytes: 0x00 and the element, or 0x01 and the roots of its first 2^e elements and of the others |
| CompactSize.DecodeEncode | bhwi/src/ledger/mod.rs:259-302 | every 64-bit integer survives encoding and decoding, whatever follows it |
| CompactSize.DecodeExactly | bhwi/src/ledger/mod.rs:259-302 | exactly the canonical encodings are accepted, with their value and width |
| KeyOrder.SortByKeySorts | bhwi/src/ledger/store.rs:269-293 | sorting yields the same pairs in ascending order of keys |
| KeyOrder.LexLeIs | bhwi/src/ledger/store.rs:269-293 | that order: a prefix comes first, otherwise the smaller byte at the first difference |
| KeyOrder.SortByKeyIsCanonical | bhwi/src/ledger/store.rs:76-90 | with distinct keys, the order of the pairs does not matter |
| StoreSpec.FindListIsFirst | bhwi/src/ledger/store.rs:183-190 | the tree that is found is the first with the requested root, and there is none if and only if no known tree has that root |
| StoreSpec.CommitmentIsCanonical | bhwi/src/ledger/store.rs:76-90 | commitment and stored trees depend only on the pairs of a mapping |
| Store.DelegatedStore.AddKnownPreimage | bhwi/src/ledger/store.rs:40-46 | one more known preimage, and nothing else changes |
| Store.DelegatedStore.AddKnownList | bhwi/src/ledger/store.rs:55-75 | the tree and the prefixed leaves become known; the root is returned |
| Store.DelegatedStore.AddKnownMapping | bhwi/src/ledger/store.rs:76-90 | the lists of sorted keys and of their values become known |
| Store.DelegatedStore.Execute | bhwi/src/ledger/store.rs:92-115 | one command on the fields is the step function on their value |
| Store.DelegatedStore.GetPreimageCommand | bhwi/src/ledger/store.rs:121-159 | answer and queue of GET_PREIMAGE |
| Store.DelegatedStore.GetMerkleLeafProofCommand | bhwi/src/ledger/store.rs:161-215 | answer and queue of GET_MERKLE_LEAF_PROOF, with the first six digests |
| Store.DelegatedStore.GetMerkleLeafIndexCommand | bhwi/src/ledger/store.rs:217-236 | answer of GET_MERKLE_LEAF_INDEX |
| Store.DelegatedStore.GetMoreElementsCommand | bhwi/src/ledger/store.rs:238-263 | the longest run of queued elements that fits, taken off the queue |
| Store.PackElements | bhwi/src/ledger/store.rs:238-263 | the packing loop takes min(count, 253 / length) elements, in order |
| Store.PackProof | bhwi/src/ledger/store.rs:161-215 | six digests go into the answer and the rest is queued |
| Store.GetMerkleizedMapCommitment | bhwi/src/ledger/store.rs:269-293 | size, root of the sorted keys, root of their values |
| StoreRuns.EveryAnswerFits | bhwi/src/ledger/store.rs:92-263 | in every run from an empty queue, whatever the device sends, every answer has at most 255 bytes and its count bytes are the true counts |
| StoreRuns.StepKeepsByteOrDigest | bhwi/src/ledger/store.rs:92-263 | every command keeps the queue to single bytes and digests |
| StoreRuns.StepFrame | bhwi/src/ledger/store.rs:92-115 | a failing command changes nothing; none changes what is known; only YIELD adds to the yields, its payload |
| StoreRuns.StepKeepsUniform | bhwi/src/ledger/store.rs:121-159 | one command keeps one element length if and only if it is not a GET_PREIMAGE for a preimage that overflows while digests are queued |
| StoreRuns.RunFrame | bhwi/src/ledger/store.rs:92-119 | over any run knowledge stays and the yields are the YIELD payloads in order |
| StoreRuns.RunInvariant | bhwi/src/ledger/store.rs:92-263 | after any run the queue has one element length, and GET_MORE_ELEMENTS fails only when nothing is queued, if and only if no command of the run was of that kind |
| StoreRuns.MixedQueueStays | bhwi/src/ledger/store.rs:238-263 | a queue with two lengths is never drained, whatever is sent |
| StoreRuns.AnswersAreFull | bhwi/src/ledger/store.rs:121-263 | an answer that leaves something queued is full: 255 bytes of a preimage, six digests of a proof, or no room for one element more |
| StoreRuns.ProofRefusals | bhwi/src/ledger/store.rs:161-215 | a proof is refused while something is queued, for a request of another form, for an unknown root, and for a wrong size or index, in this order, and otherwise given |
| StoreRuns.OtherRefusals | bhwi/src/ledger/store.rs:92-263 | when every other command is refused, and with which error |
| Lookup.WedgesStore | bhwi/src/ledger/store.rs:121-215 | such a queue is reached from an empty one by a proof request and a GET_PREIMAGE over a list of 128 elements and a preimage of 253 bytes, or hashed strings collide |
| Device.LookupsAlike | bhwi/src/ledger/store.rs:92-115 | what a device looks up depends on the answers of its host only, so two hosts that answer alike let it read the same |
| Lookup.CollectsQueue | bhwi/src/ledger/store.rs:238-263 | GET_MORE_ELEMENTS until all is there yields the queue in order and empties it |
| Lookup.RoundsIsCeil | bhwi/src/ledger/store.rs:238-263 | that takes ceil(n/253) follow-ups for bytes and ceil(n/7) for digests |
| Lookup.FindsList | bhwi/src/ledger/store.rs:183-190 | the first tree with the root of a known list is the tree of that list, or a collision |
| Lookup.ReadsPreimage | bhwi/src/ledger/store.rs:121-159 | a known preimage is read back whole from its hash, in that many rounds |
| Lookup.ReadsLeaf | bhwi/src/ledger/store.rs:161-215 | leaf and whole proof of every position are read and the proof is accepted |
| Lookup.ReadsIndex | bhwi/src/ledger/store.rs:217-236 | the position of a key that is there is read; for any other key the store refuses with UnknownHash |
| Lookup.ReadsElement | bhwi/src/ledger/store.rs:55-215 | every element of a known list is read by root, size and index |
| Lookup.LookupRefinesMap | bhwi/src/ledger/store.rs:76-293 | looking a key up from the commitment, over the protocol, reads its value as in the plain map, and is refused with UnknownHash if and only if the map does not have the key; or two hashed strings collide |
| Wallet.ToStore | bhwi/src/ledger/wallet.rs:116-131 | the store knows the serialized policy, its keys and its template |
| Wallet.ParsesPolicy | bhwi/src/ledger/wallet.rs:69-107 | a serialized policy parses back to its parts, for both versions |
| Wallet.PolicyIsReadable | bhwi/src/ledger/wallet.rs:69-107 | that holds if and only if the name has at most 255 bytes |
| SignSession.MapCommitments | bhwi/src/ledger/mod.rs:357-438 | the commitments of all maps, in order |
| SignSession.AddMappings | bhwi/src/ledger/mod.rs:357-438 | all maps become known |
| SignSession.StartSignPsbt | bhwi/src/ledger/mod.rs:357-438 | store and command of a signing session |
| SignSession.SignPsbtFits | bhwi/src/ledger/command.rs:110-134 | the SIGN_PSBT payload has at most 219 bytes and arrives |
| SignSession.SessionIsClosed | bhwi/src/ledger/mod.rs:357-438 | from the data of the command alone a device reads the policy and every pair of every map, refused nowhere, if and only if the policy name has at most 255 bytes, or a collision |
| SignSession.SessionLookups | bhwi/src/ledger/mod.rs:357-438 | every key of every map of the PSBT is read as in the plain map, and every other key is refused, or a collision |
| Apdu.CommandArrives | bhwi/src/ledger/apdu.rs:120-126 | a command parses back if and only if its data has at most 255 bytes |
| Apdu.ResponsesRoundTrip | bhwi/src/ledger/apdu.rs:156-178 | parsing accepts exactly the encoded responses and inverts them |
| PsbtFields.InsertGet | bhwi/src/ledger/mod.rs:198-221 | a signature inserted is seen in its slot and nowhere else |
| LedgerYields.PsbtInputs.Apply | bhwi/src/ledger/mod.rs:198-221 | one yield changes at most its slot of its input, and nothing when it is refused |
| LedgerYields.PsbtInputs.ApplyAll | bhwi/src/ledger/mod.rs:760-775 | the yields are applied in order |
| LedgerYields.AppliedSucceeds | bhwi/src/ledger/mod.rs:228-257 | this succeeds if and only if every yield parses and names an input |
| LedgerYields.AppliedIsLast | bhwi/src/ledger/mod.rs:198-221 | every slot then holds the last yield for it, everything else is as it was |
| LedgerYields.YieldIsMeant | bhwi/src/ledger/mod.rs:228-257 | a yield of input number, key length, key and signature goes to this input, into the slot that the length of the key calls for, with the parsed signature; tags from 2^31 on store nothing; what cannot be parsed is refused |
| LedgerYields.ParsedIsYield | bhwi/src/ledger/mod.rs:228-257 | nothing else is taken for a yield |
| LedgerYields.SignedIfUsable | bhwi/src/ledger/mod.rs:760-783 | a list of yields is applied if and only if all of them can be used and name an input |
| LedgerYields.SignedAsYielded | bhwi/src/ledger/mod.rs:198-257 | and then every slot of every input holds the last signature that was sent for it, or what it held before |
| Ledger.RequestsFit | bhwi/src/ledger/command.rs:49-158 | GET_WALLET_ADDRESS always fits into an APDU; the other commands exactly up to the given sizes |
| Ledger.ChunksAreMessage | bhwi/src/ledger/mod.rs:331-347 | a message is the concatenation of its ceil(n/64) chunks |
| Ledger.StartPanicsExactly | bhwi/src/ledger/mod.rs:315-442 | starting stops the program exactly for an empty message and for a PSBT without inputs or outputs |
| Ledger.LedgerInterpreter.Begin | bhwi/src/ledger/mod.rs:315-442 | state, store and first transmit of a command |
| Ledger.LedgerInterpreter.Exchange | bhwi/src/ledger/mod.rs:444-788 | state, store and result of one exchange, with the state taken out first and the store updated in place |
| Ledger.LedgerInterpreter.FinishPsbt | bhwi/src/ledger/mod.rs:760-783 | the yields of the store go into the PSBT, in order |
| Ledger.PanicsExactly | bhwi/src/ledger/mod.rs:701-722 | an answer stops the program exactly if it is OK without data while a message is being signed |
| Ledger.ExchangeHonours | bhwi/src/ledger/mod.rs:444-788 | from every active state, a transmit leads to an active state and its absence to a response |
| Ledger.LedgerNeverMisses | bhwi/src/ledger/mod.rs:304-797 | no command ends with the missing-result error, whatever is answered |
| LedgerSession.ServesAsStore | bhwi/src/ledger/mod.rs:593-626 | for a device the interpreter is its store: the same answers, each in a CONTINUE command that arrives, until a request is refused, which ends the command |
| LedgerSession.SigningIsClosed | bhwi/src/ledger/mod.rs:357-626 | through the interpreter, from the SIGN_PSBT command that is sent, a device reads the policy and every pair of every map and the command goes on, if and only if the policy name has at most 255 bytes, or a collision |
| LedgerSession.LookupsEndOrAnswer | bhwi/src/ledger/mod.rs:614-626 | through the interpreter, a key that is in a map gives its value and the command goes on; the command ends with UnknownHash if and only if the key is not there; or a collision |
| LedgerSession.AbsentKeyFails | bhwi/src/ledger/store.rs:217-236 | the exchange that asks for the position of a key fails with UnknownHash if and only if the map does not have the key, or a collision |
| LedgerSession.MessageIsReadable | bhwi/src/ledger/mod.rs:331-347 | through the interpreter, a device with root and length of SIGN_MESSAGE reads the message, or a collision |
| LedgerSession.PolicyIsClosed | bhwi/src/ledger/wallet.rs:116-131 | through the interpreter, while a store for a policy serves, a device reads the policy from its id and the command goes on, if and only if the name has at most 255 bytes, or a collision |
| LedgerSession.RegisteringIsClosed | bhwi/src/ledger/mod.rs:353-356 | REGISTER_WALLET arrives if and only if the serialized policy has at most 252 bytes, and from its data the policy is read under that condition on the name |
| LedgerSession.AddressIsClosed | bhwi/src/ledger/mod.rs:487-519 | GET_WALLET_ADDRESS for a descriptor arrives, and from its data the policy is read under that condition on the name |
| LedgerSession.CommandPanicsExactly | bhwi/src/ledger/mod.rs:444-788 | whatever is answered, a started command stops the program if and only if it signs a message and the next answer after the served requests is a bare OK |
| LedgerSession.BareOkPanics | bhwi/src/ledger/mod.rs:701-722 | for instance the first answer to any SIGN_MESSAGE |
| LedgerSession.SignedPsbtArises | bhwi/src/ledger/mod.rs:614-783 | whatever is answered to SIGN_PSBT, it ends with a signed PSBT if and only if the next answer after the served requests is OK and every yield can be applied, and then with the original PSBT and exactly the yields of those requests, in order |
| LedgerSession.SignedPsbtHasTheYields | bhwi/src/ledger/mod.rs:614-783 | every such session is possible: any requests that the store answers, then OK, end the command that way |
| LedgerRequests.SigningTells | bhwi/src/ledger/mod.rs:357-438 | from the bytes that are sent, through the interpreter, a device reads the given HMAC or 32 zeros, every part of the policy, and every map of the PSBT in its place, with its pairs in order, or a collision |
| LedgerRequests.SigningHeader | bhwi/src/ledger/command.rs:110-134 | the header of SIGN_PSBT holds the HMAC, the hash of the serialized policy, and both counts |
| LedgerRequests.XpubIsAsked | bhwi/src/ledger/command.rs:49-68 | GET_EXTENDED_PUBKEY holds the display byte, the length and the numbers of the path, and arrives if and only if the path has at most 63; a device that has to display it is asked again |
| LedgerRequests.DescriptorAddress | bhwi/src/ledger/mod.rs:451-519 | GET_WALLET_ADDRESS for a descriptor holds display byte, policy id, HMAC or zeros, branch and index, after the fingerprint was asked for |
| LedgerRequests.PathAddress | bhwi/src/ledger/mod.rs:463-552 | by path, the key of its first three elements is asked for silently, and then the address of its branch and index, under the policy made of path, fingerprint and key, without HMAC |
| LedgerRequests.MessageIsTold | bhwi/src/ledger/command.rs:136-158 | from the path, length and root in the data of SIGN_MESSAGE a device reads the message, through the interpreter, or a collision |
| LedgerRequests.RegisteringTells | bhwi/src/ledger/command.rs:71-81 | from the data of REGISTER_WALLET a device reads every part of the policy, or a collision |
| LedgerRequests.FixedRequests | bhwi/src/ledger/command.rs:16-46 | the requests without data of the caller, byte by byte |
| LedgerRequests.QueryAnswers | bhwi/src/ledger/mod.rs:626-700 | what the answers to the four queries hold, and where |
| LedgerRequests.ResultAnswers | bhwi/src/ledger/mod.rs:701-757 | what the answers to SIGN_MESSAGE, REGISTER_WALLET and GET_WALLET_ADDRESS hold, and where |
| LedgerRequests.Refusals | bhwi/src/ledger/mod.rs:701-783 | a refusal ends signing and address commands with no result, and registering with an error |
| LedgerRequests.RequestIsServed | bhwi/src/ledger/mod.rs:593-626 | a request that interrupts a command is answered with the answer of the store in a CONTINUE command, byte by byte, or ends it |
| LedgerRequests.YieldsAreTaken | bhwi/src/ledger/store.rs:92-119 | every YIELD is taken, answered with nothing, and kept |
| LedgerRequests.SignedPsbtIsYielded | bhwi/src/ledger/mod.rs:614-783 | whatever is asked for in between, a SIGN_PSBT whose requests are answered and that ends with OK yields the original PSBT, in which every slot holds the last signature that the device sent for it |
| LedgerRequests.YieldingSigns | bhwi/src/ledger/mod.rs:614-783 | in particular a device may yield all its signatures one after the other |
| Driver.RunCommandInner | bhwi-async/src/lib.rs:516-565 | the loop computes the recursive run of the interpreter over the replies |
| Driver.NeverMisses | bhwi-async/src/lib.rs:516-565 | an interpreter that honours the contract never leaves the loop without a response |
| Driver.RunConverses | bhwi-async/src/lib.rs:516-565 | a command that is answered throughout ends as its conversation does; where the connection breaks, it ends by the recipient of the last transmit, and whether that was written and may be the last |
| U2f.U2fHid.Encode | bhwi/src/bitbox/u2f.rs:84-120 | writes the frames of messages up to 7550 bytes in place, keeps the rest of the buffer, refuses longer ones or stops, for every message, buffer and build |
| U2f.EncodePanicsExactly | bhwi/src/bitbox/u2f.rs:75-120 | which messages stop the encoder; none of fewer than 65534 bytes does, and what it accepts has at most 7550 |
| U2f.U2fHid.Decode | bhwi/src/bitbox/u2f.rs:122-149 | collects the message bytes, for every buffer and build |
| U2f.DecodePanicsExactly | bhwi/src/bitbox/u2f.rs:75-149 | decoding stops the program exactly for a header of this channel and command that announces 65534 bytes or more where overflow is checked, or 65535 where it is not and fewer than 71092 bytes are there |
| U2f.OneReportPanics | bhwi/src/bitbox/u2f.rs:122-149 | a single report that announces 65535 bytes does, in every build |
| U2f.DecodesEncoded | bhwi/src/bitbox/u2f.rs:75-149 | frames decode to their message, whatever the padding, and every shorter piece of at least 7 bytes to nothing yet |
| U2f.FramesAre | bhwi/src/bitbox/u2f.rs:84-120 | the frames byte by byte: channel, command, length and 57 bytes, then channel, sequence number from 0 on and 59 bytes each |
| Base32.Base32Rfc4648 | bhwi/src/bitbox/noise.rs:231-253 | the accumulator loop yields the encoding of section 6 of RFC 4648 although its buffer drops high bits |
| Base32.ShiftIn | bhwi/src/bitbox/noise.rs:236-238 | shifting a byte into 64 bits keeps the bits still to be written |
| Base32.RoundTrip | bhwi/src/bitbox/noise.rs:231-253 | the encoding decodes to the input, for every byte string |
| Base32.PairingCodeShows100Bits | bhwi/src/bitbox/noise.rs:169-178 | two hashes have one pairing code if and only if their first 100 bits agree |
| Base32.CodeIsShown | bhwi/src/bitbox/noise.rs:169-179 | the code is four groups of five characters on two lines, and character j stands for bits 5j to 5j + 4 of the hash |
| BitBoxSign.UniqIsFirstUse | bhwi/src/bitbox/sign.rs:397-405 | the list of configs is in the order of first use |
| BitBoxSign.AddScriptConfig | bhwi/src/bitbox/sign.rs:397-405 | one config more, at its old position if it was there |
| BitBoxSign.FromPsbt | bhwi/src/bitbox/sign.rs:382-472 | inputs, outputs and keys are aligned with the PSBT and refer to their own configs; it fails if and only if some part cannot be lowered |
| BitBoxSign.LowerInputs | bhwi/src/bitbox/sign.rs:407-435 | the loop over the inputs |
| BitBoxSign.LowerOutputs | bhwi/src/bitbox/sign.rs:437-460 | the loop over the outputs, which keeps what the inputs refer to |
| BitBoxSign.LoweredConfigs | bhwi/src/bitbox/sign.rs:382-472 | unforced, configs have no duplicates and none is unused; forced, there is one and every index is 0 |
| BitBoxSign.LowerIs | bhwi/src/bitbox/sign.rs:382-472 | lowering as a function meets the specification, and fails exactly when it must |
| BitBoxSign.LoweredIsLower | bhwi/src/bitbox/sign.rs:382-472 | nothing else meets the specification |
| BitBoxSign.ApplySignatures | bhwi/src/bitbox/sign.rs:498-531 | the loop over signatures, keys and inputs |
| BitBoxSign.AppliedIs | bhwi/src/bitbox/sign.rs:498-531 | signature i goes into input i under key i and nothing else changes; it fails only for an unparsable signature |
| BitBoxSign.SignaturesLand | bhwi/src/bitbox/sign.rs:498-531 | signature i lands in input i, field by field: ECDSA under its public key, Schnorr in the key path, or under its key and leaf; all else stays |
| BitBoxLowering.OurKeyIsFound | bhwi/src/bitbox/sign.rs:305-343 | our key is that of the first taproot origin with the fingerprint, if it is in the right number of leaves, otherwise that of the first other origin |
| BitBoxLowering.ConfigIsFound | bhwi/src/bitbox/sign.rs:345-379 | native, nested and taproot scripts have the config of their own type, at the longest hardened prefix of the path, and no other script has one |
| BitBoxLowering.LoweringSays | bhwi/src/bitbox/sign.rs:382-473 | the lowered transaction, read off the PSBT alone: each input with its outpoint, value, sequence, path, previous transaction and config type, each output internal or with type, payload and value of its script |
| BitBoxLowering.LowersIff | bhwi/src/bitbox/sign.rs:382-473 | lowering succeeds if and only if every input has a utxo, a key of ours and a config, and every output a config or a script that can be paid to |
| BitBoxLowering.SchnorrIs | bhwi/src/bitbox/sign.rs:475-495 | unforced, exactly the inputs that spend taproot outputs are signed without the check; forced, all or none by the config |
| SignLoop.SignContext.DriveSign | bhwi/src/bitbox/interpreter.rs:406-596 | one round on the fields is the round on their value |
| SignLoop.SignContext.AnswerInput | bhwi/src/bitbox/interpreter.rs:469-513 | the answer to a request for an input, with nonce, phase and pass flag |
| SignLoop.StepKeeps | bhwi/src/bitbox/interpreter.rs:406-596 | every continuing round keeps the invariant of the loop |
| SignLoop.AnyDevice | bhwi/src/bitbox/interpreter.rs:406-596 | in every reachable state: pass 2 exactly after the last input was asked for, no signatures before, one per completed pass-2 round, each non-Schnorr one checked with the nonce of its round, no nonce revealed before both commitments |
| SignLoop.NeverGoesBack | bhwi/src/bitbox/interpreter.rs:406-596 | the pass flag stays set and signatures are only appended |
| SignLoop.WhenDone | bhwi/src/bitbox/interpreter.rs:583-590 | the signatures of the rounds go, in their order, into inputs 0, 1, 2, ... under their keys, and nothing else changes |
| SignLoop.BelongsIffInOrder | bhwi/src/bitbox/interpreter.rs:406-596 | in the returned PSBT every input holds the signature of a round that asked for this input if and only if there are as many rounds as inputs and the first ones asked for inputs 0, 1, 2, ..., given that nothing was signed before and signatures of different inputs differ |
| SignLoop.InOrderGivesOwn | bhwi/src/bitbox/interpreter.rs:406-596 | in that order an input always gets its own signature |
| SignLoop.SwappedRounds | bhwi/src/bitbox/interpreter.rs:469-513 | a device that asks in another order gets signatures into the wrong inputs |
| SignLoop.AfterPass1 | bhwi/src/bitbox/interpreter.rs:469-582 | an honest pass 1 is answered throughout and changes only the pass flag |
| SignLoop.DuringPass2 | bhwi/src/bitbox/interpreter.rs:415-513 | in pass 2 the honest signatures are gathered one by one |
| SignLoop.HonestDevice | bhwi/src/bitbox/interpreter.rs:406-596 | an honest run reaches the end with one signature per input, each in its own input under its own key, and fails there only if one cannot be parsed |
| SignLoop.PanicsExactly | bhwi/src/bitbox/interpreter.rs:406-596 | for a lowered PSBT a reachable round panics if and only if, by its phase, a signature to be checked is too short or an unchecked index out of range is reached |
| SignLoop.OutputBehindLast | bhwi/src/bitbox/interpreter.rs:561-571 | a request for the output behind the last one panics, in the first round, for every PSBT |
| SignLoop.ShortSignature | bhwi/src/bitbox/interpreter.rs:452-462 | so does a short signature after a commitment |
| SignAnswers.RunAnswers | bhwi/src/bitbox/interpreter.rs:469-582 | in every run, each answer is the part that was asked for, field by field |
| SignAnswers.DeviceRebuilds | bhwi/src/bitbox/interpreter.rs:514-571 | against any device: what it puts together is true of the transaction, and one that asks for every part has all outputs and every previous transaction exactly |
| SignAnswers.HonestRebuilds | bhwi/src/bitbox/interpreter.rs:469-582 | an honest pass 1 that asks for every part is answered throughout, before anything is signed |
| SignAnswers.RoundIsChecked | bhwi/src/bitbox/interpreter.rs:415-513 | a signature that is not Schnorr: committed to, revealed after the commitment of the device, and equal to the point of both; all others as they came |
| BitBox.PairingIsConfirmed | bhwi/src/bitbox/interpreter.rs:975-1039 | pairing ends after four or five answers; a key becomes known only if its code was shown and the device answered success; without that only for a known device |
| BitBox.PairingStep | bhwi/src/bitbox/interpreter.rs:975-1039 | every exchange keeps that account of the pairing |
| BitBox.SessionSigns | bhwi/src/bitbox/interpreter.rs:1045-1091 | a signing session is where its answers lead the signing loop from the lowered PSBT |
| BitBox.SessionResult | bhwi/src/bitbox/interpreter.rs:1045-1091 | the returned PSBT is the original with the checked signatures of the rounds of this session written in |
| BitBox.SessionBelongs | bhwi/src/bitbox/interpreter.rs:1045-1091 | and every input of it holds its own signature if and only if the rounds of this session asked for all inputs in order |
| BitBox.MessageSignatureIsChecked | bhwi/src/bitbox/interpreter.rs:1092-1139 | a message signature is returned only for the nonce committed to at the start, revealed after the device's commitment, and found in it |
| BitBoxCommands.SigningPanicsExactly | bhwi/src/bitbox/interpreter.rs:406-596 | in a signing session an answer stops the program exactly by the guard of the phase that is open, over the transaction that the PSBT was lowered to |
| BitBoxCommands.MessagePanicsExactly | bhwi/src/bitbox/interpreter.rs:1092-1139 | in SIGN MESSAGE exactly a checked signature whose header byte overflows does, for the nonce of the start and the device's commitment |
| BitBoxCommands.CommandPanicsExactly | bhwi/src/bitbox/interpreter.rs:971-1320 | whatever is answered, a started command stops the program if and only if the next answer after those to which something was sent is of these two kinds |
| BitBoxCommands.OutputStops | bhwi/src/bitbox/interpreter.rs:561-571 | a request for the output behind the last one stops every SIGN PSBT as soon as its loop begins |
| BitBoxCommands.SignatureStops | bhwi/src/bitbox/interpreter.rs:452-462 | so does a short signature after a commitment |
| BitBoxCommands.RecoveryIdStops | bhwi/src/bitbox/interpreter.rs:1132-1136 | a checked message signature with a recovery id of 225 or more does, where overflow is checked |
| BitBoxCommands.HonestSigning | bhwi/src/bitbox/interpreter.rs:727-1091 | with an honest device SIGN PSBT ends, through the interpreter, with every input's own signature under its own key, if and only if all of them can be parsed |
| BitBoxSessions.ForcedIs | bhwi/src/bitbox/interpreter.rs:1045-1091 | the config that is forced: the given one, or that of the policy at the path of the first key with the fingerprint |
| BitBoxSessions.SessionTells | bhwi/src/bitbox/interpreter.rs:1045-1091 | what a session sends, answer by answer: the lowered transaction, then what the loop asks, each sealed under the cipher of its moment |
| BitBoxSessions.SessionIsTrue | bhwi/src/bitbox/interpreter.rs:406-596 | against any device: all that a session tells is true of the PSBT, part by part, and a device that asks for every part knows all of it |
| BitBoxSessions.SessionChecks | bhwi/src/bitbox/interpreter.rs:406-596 | in the returned PSBT, signature k is in input k, in the field for its key, and was checked unless the input that its round asked for spends a taproot output, or a taproot config is forced |
| BitBoxFlows.Unsealing | bhwi/src/bitbox/interpreter.rs:617-625 | an answer that reports no success, comes without a pairing, or cannot be decrypted fails with its own error; unpaired, only a pairing can be started |
| BitBoxFlows.Wiping | bhwi/src/bitbox/interpreter.rs:1226-1246 | the reset is asked for only from an initialized device, and what it says is the result |
| BitBoxFlows.Toggling | bhwi/src/bitbox/interpreter.rs:1293-1318 | an initialized device is asked for the opposite of its setting |
| BitBoxFlows.Restoring | bhwi/src/bitbox/interpreter.rs:1247-1292 | only a device that is not initialized is restored, after it got its name |
| BitBoxFlows.SettingUp | bhwi/src/bitbox/interpreter.rs:1171-1225 | only a device that is not initialized is set up: name, then password with the entropy of the host and backup, or restoring |
| BitBoxFlows.ShowingAddress | bhwi/src/bitbox/interpreter.rs:1140-1170 | the address of a descriptor is asked for at the path of our key, branch and index |
| BitBoxFlows.Querying | bhwi/src/bitbox/interpreter.rs:607-725 | a query ends with a response if and only if the reply is of its kind, and with what that says |
| BitBoxFlows.PairingMessages | bhwi/src/bitbox/interpreter.rs:971-1026 | the messages of a pairing, byte by byte |
| BitBox.NoiseState.StartHandshake | bhwi/src/bitbox/noise.rs:114-143 | a host key is made if there is none, and kept |
| BitBox.NoiseState.ConfirmPairing | bhwi/src/bitbox/noise.rs:201-208 | the device key becomes known, once |
| BitBox.NoiseState.Finalize | bhwi/src/bitbox/noise.rs:181-198 | the ciphers of the handshake replace those before; known keys stay |
| BitBox.BitBoxInterpreter.Begin | bhwi/src/bitbox/interpreter.rs:727-969 | state, Noise state and first transmit of a command |
| BitBox.BitBoxInterpreter.Exchange | bhwi/src/bitbox/interpreter.rs:971-1320 | state, Noise state and result of one exchange, every branch in place |
| BitBox.BitBoxInterpreter.FinishHandshake | bhwi/src/bitbox/interpreter.rs:1001-1026 | a verification is asked for if the device is unknown or wants one; otherwise it is paired |
| BitBox.BitBoxInterpreter.FinishPairing | bhwi/src/bitbox/interpreter.rs:1027-1039 | only the exact success answer confirms the pairing |
| BitBox.ExchangeEnds | bhwi/src/bitbox/interpreter.rs:971-1320 | every branch waits with a transmit, finishes without one, or fails |
| BitBox.BitBoxNeverMisses | bhwi/src/bitbox/interpreter.rs:727-1328 | no command ends with the missing-result error, whatever is answered |
| ColdcardCipher.Engine.MakeReady | bhwi/src/coldcard/encrypt.rs:23-43 | the engine becomes ready, both positions at 0, only from its first state and a good key |
| ColdcardCipher.Engine.Encrypt | bhwi/src/coldcard/encrypt.rs:58-66 | the data under the keystream, and the position advanced by its length |
| ColdcardCipher.Engine.Decrypt | bhwi/src/coldcard/encrypt.rs:68-76 | the same for the other direction |
| ColdcardCipher.ApplyTwice | bhwi/src/coldcard/encrypt.rs:58-76 | the keystream undoes itself from the same position |
| ColdcardCipher.ApplyConcat | bhwi/src/coldcard/encrypt.rs:58-76 | what is encrypted in pieces may be decrypted in others |
| ColdcardCipher.ApplyCiphers | bhwi/src/coldcard/encrypt.rs:58-76 | bit by bit, the result differs from the data exactly where the keystream is 1 |
| ColdcardCipher.CipheredIsApply | bhwi/src/coldcard/encrypt.rs:58-76 | nothing else does that |
| ColdcardCipher.UnchangedUnderZeros | bhwi/src/coldcard/encrypt.rs:58-76 | data leaves as it is if and only if the keystream over it is zero |
| ColdcardCipher.Understands | bhwi/src/coldcard/encrypt.rs:58-76 | engines in step recover each other's data and stay in step |
| ColdcardApi.ReadsUpload | bhwi/src/coldcard/api.rs:119-126 | the fields of an upload request are read back |
| ColdcardApi.ReadsDownload | bhwi/src/coldcard/api.rs:155-161 | the fields of a download request are read back |
| ColdcardApi.ParseResponseIs | bhwi/src/coldcard/api.rs:352-378 | a response has a tag and data if and only if it is that tag and that data |
| ColdcardApi.ResponsesAre | bhwi/src/coldcard/api.rs:431-483 | acknowledgements, hashes, chunks and announcements are accepted exactly in their encoding |
| ColdcardApi.MessageSignaturePanics | bhwi/src/coldcard/api.rs:533-560 | decoding a message signature panics exactly on the given responses |
| ColdcardApi.RequestsAre | bhwi/src/coldcard/api.rs:7-161 | the words of the requests, and the version, lengths and hashes behind them |
| ColdcardApi.TagsAre | bhwi/src/coldcard/api.rs:352-378 | the words of the responses |
| ColdcardApi.TextsAre | bhwi/src/coldcard/api.rs:380-496 | what a text is taken for |
| ColdcardApi.OtherAnswers | bhwi/src/coldcard/api.rs:387-560 | what okay, busy, refused and error mean to each decoder |
| ColdcardApi.MyPubIs | bhwi/src/coldcard/api.rs:498-531 | key, fingerprint and extended key of the device, at their places |
| ColdcardApi.SignatureIs | bhwi/src/coldcard/api.rs:533-560 | header byte and signature behind the address of any length |
| Coldcard.ColdcardInterpreter.Begin | bhwi/src/coldcard/mod.rs:243-309 | state, engine and first transmit of a command |
| Coldcard.ColdcardInterpreter.Exchange | bhwi/src/coldcard/mod.rs:311-563 | one exchange on state and engine, every branch in place |
| Coldcard.ColdcardInterpreter.HandleUpload | bhwi/src/coldcard/mod.rs:375-407 | the upload branch, with the offset updated in place |
| Coldcard.ColdcardInterpreter.HandleDownload | bhwi/src/coldcard/mod.rs:514-561 | the download branch, with bytes and offset updated in place |
| Coldcard.PlainStepEnds | bhwi/src/coldcard/mod.rs:311-563 | a request leaves an encrypted state to wait in; without one a response is ready |
| Coldcard.ColdcardNeverMisses | bhwi/src/coldcard/mod.rs:243-571 | no command ends with the missing-result error, whatever is answered |
| ColdcardRuns.RoundInStep | bhwi/src/coldcard/mod.rs:195-203 | in one round the host takes in exactly the reply and the device hears exactly the request |
| ColdcardRuns.StaysInStep | bhwi/src/coldcard/mod.rs:195-203 | over any conversation the device hears exactly the plain requests, the ciphers end in step, and the positions count the bytes |
| ColdcardRuns.CommandStaysInStep | bhwi/src/coldcard/mod.rs:243-309 | the same for a whole command, with its first request |
| ColdcardRuns.PayloadsAreCiphered | bhwi/src/coldcard/mod.rs:195-203 | every payload of a conversation is its request under the keystream at its place, and equal to it only where that is zero |
| ColdcardRuns.PositionsCount | bhwi/src/coldcard/mod.rs:195-203 | against any answers the positions count the encrypted payloads handed out and the bytes taken in |
| ColdcardFiles.UploadCount | bhwi/src/coldcard/mod.rs:205-216 | a file takes max(1, ceil(n/2048)) upload requests |
| ColdcardFiles.UploadCarriesFile | bhwi/src/coldcard/mod.rs:205-216 | they say where their parts belong, and concatenate to the file |
| ColdcardFiles.UploadProtocol | bhwi/src/coldcard/mod.rs:375-436 | against any device: chunks in order, each after its acknowledgement, then the hash, and signing or enrolling only after that very hash was answered |
| ColdcardFiles.HonestUpload | bhwi/src/coldcard/mod.rs:375-436 | with an honest device every file arrives and is acted upon |
| ColdcardFiles.DownloadProtocol | bhwi/src/coldcard/mod.rs:514-561 | against any device: each request asks for what is missing, at most one per byte, and the result has exactly the announced length and hash and is what was sent |
| ColdcardFiles.FileIsAnnounced | bhwi/src/coldcard/mod.rs:454-561 | from the polling on, a backup or signed PSBT comes only from a file that a reply announced with its length and hash |
| ColdcardFiles.HonestFile | bhwi/src/coldcard/mod.rs:454-561 | with an honest device the file arrives in ceil(n/2048) requests if and only if it is not empty and can be parsed |
| ColdcardFiles.EmptyFileNeverFinishes | bhwi/src/coldcard/mod.rs:514-561 | no replies finish the download of a file announced as empty |
| ColdcardCommands.SignPsbtCommand | bhwi/src/coldcard/mod.rs:284-561 | whatever is answered, SIGN ends well only if the whole file was sent, each part acknowledged and its hash confirmed, before signing was asked for, the device agreed, and the response is the file it then announced and sent |
| ColdcardCommands.RegisterWalletCommand | bhwi/src/coldcard/mod.rs:294-453 | registering ends well only after the same upload and an okay to the enrollment |
| ColdcardCommands.BackupCommandEnds | bhwi/src/coldcard/mod.rs:243-561 | a backup ends well only if the device agreed to it, with the file that it announced and sent |
| ColdcardCommands.HonestSigning | bhwi/src/coldcard/mod.rs:284-561 | with an honest device, however long it is busy, the whole command ends with the signed PSBT if and only if its file is not empty and can be parsed |
| ColdcardCommands.HonestBackup | bhwi/src/coldcard/mod.rs:243-561 | and a backup with its file if and only if that is not empty |
| ColdcardCommands.CommandPanicsExactly | bhwi/src/coldcard/mod.rs:311-563 | whatever is answered, a command stops the program if and only if it signs a message and is sent a signature that the decoder panics on |
| ColdcardCommands.BareTagPanics | bhwi/src/coldcard/api.rs:533-560 | the bare tag of a message signature is such a reply |
| ColdcardCommands.Querying | bhwi/src/coldcard/mod.rs:243-370 | a query sends its payload and ends with the text of the answer |
| ColdcardCommands.StartingEncryption | bhwi/src/coldcard/mod.rs:243-344 | the key of the host goes out behind its word and version, and the key of the device is the response |
| ColdcardCommands.SigningMessage | bhwi/src/coldcard/mod.rs:329-339 | the signature is asked for again as long as the device waits, and is the response |
| ColdcardCommands.FilesAreAsked | bhwi/src/coldcard/mod.rs:454-513 | the words with which backups and files are asked for |
| Jade.JadeInterpreter.Begin | bhwi/src/jade/mod.rs:209-312 | state and first transmit of a command |
| Jade.JadeInterpreter.Exchange | bhwi/src/jade/mod.rs:313-518 | state, response and result of one exchange, every branch in place |
| Jade.JadeInterpreter.TakeFirstFragment | bhwi/src/jade/mod.rs:424-459 | the first fragment of a signed PSBT |
| Jade.JadeInterpreter.TakeFragment | bhwi/src/jade/mod.rs:314-350 | one more fragment, with chunks and number updated in place |
| Jade.RestIsJoined | bhwi/src/jade/mod.rs:314-350 | from any fragment on: ends well if and only if the missing fragments come in order and parse, each asked for once |
| Jade.SignedPsbtIsJoined | bhwi/src/jade/mod.rs:314-459 | the signed PSBT is fragments 1 to n in order, n as the first answer announces, and signing ends well if and only if they come and parse |
| Jade.UnlockIsConfirmed | bhwi/src/jade/mod.rs:358-400 | unlocking ends well if and only if the device authenticates, or the PIN server that it names answers, with that passed on, and the handshake is confirmed |
| Jade.OnlyAuthContactsPinServer | bhwi/src/jade/mod.rs:358-384 | only unlocking ever addresses the PIN server |
| Jade.CommandPanicsExactly | bhwi/src/jade/mod.rs:313-518 | whatever is answered, a command stops the program if and only if it signs a message and the first answer holds an empty signature |
| Jade.EmptyTextPanics | bhwi/src/jade/mod.rs:414-422 | an empty text is such an answer |
| Jade.Starting | bhwi/src/jade/mod.rs:209-312 | a command sends its request under the next id, unless it signs a message that is not text |
| Jade.OneAnswerEnds | bhwi/src/jade/mod.rs:400-518 | the commands of one answer end well if and only if it holds their result, and with that |
| Jade.MultisigIsRegistered | bhwi/src/jade/mod.rs:461-503 | the address of a multisig wallet is asked for once it is registered, and is the response |
| Jade.JadeNeverMisses | bhwi/src/jade/mod.rs:209-523 | no command ends with the missing-result error, whatever is answered |

## Left out

- Cryptography: SHA-256, secp256k1, AES, Noise and the random generator are parameters; counters of the Noise ciphers and the distinctness of nonces are not modelled.
- Library parsers and serializers (PSBT, miniscript, protobuf, CBOR, JSON, Base64, xpub strings): values are taken as decoded, requests of Jade and of the BitBox as values before encoding.
- Transports, the PIN server's HTTP, the command line, web and wasm code.
- The field-by-field pair lists of PSBT maps (bhwi/src/ledger/psbt.rs): maps are given.
- Conversions from the common commands and to the common responses, coin and network selection, and the builders of one-round Coldcard queries: their payloads are given.
- Merkle trees have at least one leaf; an empty message, or a PSBT without inputs or outputs, reaches the assertion of the source and is the result Panicked in Ledger.Start.
- Sizes: lists and preimages are below 2^64, as usize is taken to be 64 bits wide; the overflow inside floor_lg for sizes of 2^63 and more is not modelled.
- U2f.U2fHid.Decode: does not check the headers of continuation frames, as the source does not; so frames of other channels would be taken as payload.
- BitBoxSign.FromPsbt: does not say which of several errors is reported.
- BitBoxSign.AppliedIs: does not say which of several unparsable signatures is reported.
- SignLoop.WhenDone: a device may ask for fewer, more or other inputs than there are; the loop accepts this, and the contract says where the signatures then go.
- ColdcardCipher.Engine.MakeReady: the key agreement is a parameter that yields the keystream; its exhaustion is not modelled.
- Jade.JadeInterpreter.Exchange: the counter of request ids is a field, while the source shares it between interpreters.
