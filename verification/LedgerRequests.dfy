/** The requests of the Ledger, byte by byte as a device takes them apart, and what a device
    that gets them has been told. */
module LedgerRequests {
  import opened Common
  import opened CompactSize
  import opened Merkle
  import opened MerkleProof
  import opened KeyOrder
  import opened StoreSpec
  import opened StoreRuns
  import opened Device
  import opened Lookup
  import opened Wallet
  import opened Apdu
  import opened SessionReads
  import opened SignSession
  import opened PsbtFields
  import opened LedgerYields
  import opened Driver
  import opened Ledger
  import opened LedgerSession

  /** The device gets a command of the Bitcoin application with this code and data. */
  predicate Gets(sent: Transmit, code: Byte, data: Bytes) {
    && sent.recipient == ToDevice && !sent.encrypted
    && ParseCommand(sent.payload) == Some(ApduCommand(0xE1, code, 0, 1, data))
  }

  lemma BitcoinArrives(code: Byte, data: Bytes)
    ensures forall got :: Gets(Bitcoin(code, data), code, got) <==> got == data && |data| <= 255
  {
    var c := BitcoinCommand(code, data);
    CommandArrives(c);
    assert c.Encode()[5..] == data;
  }

  // ---- starting to sign ----

  const NO_HMAC: Bytes := seq(32, _ => 0)

  /** The same pairs, in ascending order of their keys. */
  ghost predicate IsSorted(view: Mapping, given: Mapping) {
    Ascending(view) && multiset(view) == multiset(given)
  }

  /** All that a device was told about a PSBT and its policy. */
  ghost predicate Tells(view: SessionView, psbt: Psbt, policy: LedgerWalletPolicy, hmac: Bytes) {
    && view.hmac == hmac
    && view.policy.version == policy.version && view.policy.name == policy.name
    && view.policy.template == policy.template && view.policy.keys == policy.keys
    && IsSorted(view.global, psbt.global)
    && |view.inputs| == |psbt.inputs| && |view.outputs| == |psbt.outputs|
    && (forall i :: 0 <= i < |psbt.inputs| ==> IsSorted(view.inputs[i], psbt.inputs[i].rest))
    && (forall i :: 0 <= i < |psbt.outputs| ==> IsSorted(view.outputs[i], psbt.outputs[i]))
  }

  lemma ViewTells(psbt: Psbt, policy: LedgerWalletPolicy, hmac: Option<Bytes32>)
    requires CanSign(psbt)
    ensures Tells(ViewOfRequest(RequestOf(psbt, policy, hmac)), psbt, policy, if hmac.Some? then hmac.value else NO_HMAC)
  {
    hide SortByKey, Ascending;
    SortByKeySorts(psbt.global);
    forall i | 0 <= i < |psbt.inputs| ensures IsSorted(SortByKey(InputMaps(psbt)[i]), psbt.inputs[i].rest) {
      SortByKeySorts(psbt.inputs[i].rest);
    }
    forall i | 0 <= i < |psbt.outputs| ensures IsSorted(SortByKey(psbt.outputs[i]), psbt.outputs[i]) {
      SortByKeySorts(psbt.outputs[i]);
    }
  }

  /** From the very bytes that `start` sends, a device reads through the interpreter the HMAC
      that was given, or 32 zeros, the policy with all its parts, and every map of the PSBT
      with its pairs, input by input and output by output, if the name of the policy has at
      most 255 bytes, or two of the hashed strings collide. */
  lemma {:induction false} SigningTells(h: Hash, lib: Parsers, psbt: Psbt, policy: LedgerWalletPolicy, hmac: Option<Bytes32>)
    requires CanSign(psbt) && |policy.name| <= 255
    requires Fits(SessionStore(h, RequestOf(psbt, policy, hmac)))
    ensures var (s, sent) := Start(h, New, SignPsbt(psbt, policy, hmac));
            && sent.Ok? && ParseCommand(sent.value.payload).Some?
            && var data := ParseCommand(sent.value.payload).value.data;
            && Gets(sent.value, 0x04, data)
            && (var (read, after) := ReadSession(h, LedgerHost(h, lib), s, data);
                || (read.Got? && after == s && Tells(read.value, psbt, policy, if hmac.Some? then hmac.value else NO_HMAC))
                || ClashIn(h, StoreStrings(h, SessionStore(h, RequestOf(psbt, policy, hmac)))))
  {
    hide *;
    RequestParts(psbt, policy, hmac);
    var req := RequestOf(psbt, policy, hmac);
    StartsSigning(h, psbt, policy, hmac);
    SigningArrives(h, req);
    PayloadIs(INS_SIGN_PSBT, SignPsbtData(h, req));
    SigningIsClosed(h, lib, psbt, policy, hmac);
    ViewTells(psbt, policy, hmac);
  }

  lemma SigningArrives(h: Hash, req: SignRequest)
    requires req.inputs != [] && req.outputs != []
    ensures Gets(Bitcoin(INS_SIGN_PSBT, SignPsbtData(h, req)), 0x04, SignPsbtData(h, req))
  {
    hide SignPsbtData, Gets, Bitcoin, BitcoinCommand, ParseCommand;
    SignPsbtFits(h, req);
    BitcoinArrives(0x04, SignPsbtData(h, req));
  }

  /** The header of SIGN_PSBT alone already holds the HMAC and the id of the policy. */
  lemma {:induction false} SigningHeader(h: Hash, psbt: Psbt, policy: LedgerWalletPolicy, hmac: Option<Bytes32>)
    requires CanSign(psbt) && Fits(SessionStore(h, RequestOf(psbt, policy, hmac)))
    ensures var sent := Start(h, New, SignPsbt(psbt, policy, hmac)).1;
            && sent.Ok? && ParseCommand(sent.value.payload).Some?
            && var header := ParseSession(ParseCommand(sent.value.payload).value.data);
            && header.Some?
            && header.value.hmac == (if hmac.Some? then hmac.value else NO_HMAC)
            && header.value.policyId == h(Serialize(h, policy))
            && header.value.inputCount == |psbt.inputs| && header.value.outputCount == |psbt.outputs|
  {
    hide SessionStore, Serialize, SignPsbtData, ParseSession, MapCommitment, ListRoot, Commitments, Start, ParseCommand;
    StartsSigning(h, psbt, policy, hmac);
    HeaderParses(h, RequestOf(psbt, policy, hmac));
  }

  // ---- paths ----

  /** Four bytes for every child number, the most significant first. */
  ghost predicate TellsPath(data: Bytes, path: KeyPath) {
    && |data| == 4 * |path|
    && forall i :: 0 <= i < |path| ==> FromBe(data[4 * i..4 * i + 4]) == path[i] % 0x1_0000_0000
  }

  lemma {:induction false} PathTells(path: KeyPath)
    ensures TellsPath(PathBytes(path), path)
  {
    hide FromBe, ToBe;
    PathBytesLength(path);
    if path != [] {
      PathTells(path[1..]);
      Exp256Values();
      var data := PathBytes(path);
      forall i | 0 <= i < |path| ensures FromBe(data[4 * i..4 * i + 4]) == path[i] % U32 {
        if i == 0 {
          assert data[0..4] == ToBe(path[0] % U32, 4);
          FromBeToBe(path[0] % U32, 4);
        } else {
          var rest := PathBytes(path[1..]);
          assert data[4 * i..4 * i + 4] == rest[4 * (i - 1)..4 * (i - 1) + 4];
        }
      }
    }
  }

  /** GET_EXTENDED_PUBKEY. */
  ghost predicate TellsXpub(data: Bytes, path: KeyPath, display: bool) {
    && |data| >= 2 && data[0] == (if display then 1 else 0) && data[1] == |path| % 256
    && TellsPath(data[2..], path)
  }

  lemma XpubTells(path: KeyPath, display: bool)
    ensures TellsXpub(XpubData(path, display), path, display)
    ensures forall got :: Gets(Bitcoin(INS_GET_EXTENDED_PUBKEY, XpubData(path, display)), 0x00, got) <==>
                          got == XpubData(path, display) && |path| <= 63
  {
    hide PathBytes, TellsPath, Gets;
    var data := XpubData(path, display);
    PathTells(path);
    PathBytesLength(path);
    assert data[2..] == PathBytes(path);
    BitcoinArrives(0x00, data);
  }

  /** A device is asked for the key of this path, on its screen or not, if the path has at
      most 63 elements; the command does not arrive for a longer one. If the device wants to
      show the key, it is asked again, to show it. */
  lemma {:induction false} XpubIsAsked(h: Hash, lib: Parsers, path: KeyPath, display: bool, text: Bytes)
    ensures var (s, sent) := Start(h, New, GetXpub(path, display));
            && sent.Ok?
            && (|path| <= 63 <==> exists data :: Gets(sent.value, 0x00, data) && TellsXpub(data, path, display))
            && (!display ==>
                  var (s', again) := ExchangeStep(h, lib, s, text + [0x6A, 0x82]);
                  && again.Ok? && again.value.Some? && s' == Start(h, New, GetXpub(path, true)).0
                  && again.value.value == Start(h, New, GetXpub(path, true)).1.value)
  {
    hide TellsXpub, XpubData, Gets, Bitcoin, ParseResponse;
    XpubTells(path, display);
    AnswerIs(text, NotSupported, [0x6A, 0x82]);
  }

  /** How an answer with this status is read. */
  lemma AnswerIs(body: Bytes, status: StatusWord, code: Bytes)
    requires |code| == 2 && Code(status) == 256 * (code[0] as nat) + code[1]
    ensures ParseResponse(body + code) == Ok(ApduResponse(body, status))
  {
    hide ToBe, Code;
    TwoBytes(Code(status));
    ResponsesRoundTrip(body + code, ApduResponse(body, status));
  }

  // ---- addresses ----

  /** GET_WALLET_ADDRESS: screen or not, the id of the policy, its HMAC, the branch, and the
      index. */
  ghost predicate TellsAddress(h: Hash, data: Bytes, policy: LedgerWalletPolicy, hmac: Bytes, change: bool, index: nat, display: bool) {
    && |data| == 70
    && data[0] == (if display then 1 else 0)
    && data[1..33] == h(Serialize(h, policy)).raw
    && data[33..65] == hmac
    && data[65] == (if change then 1 else 0)
    && FromBe(data[66..]) == index % 0x1_0000_0000
  }

  lemma AddressTells(h: Hash, policy: LedgerWalletPolicy, hmac: Option<Bytes32>, change: bool, index: nat, display: bool)
    ensures var data := AddressData(h, policy, hmac, change, index, display);
            && TellsAddress(h, data, policy, if hmac.Some? then hmac.value else NO_HMAC, change, index, display)
            && Gets(Bitcoin(INS_GET_WALLET_ADDRESS, data), 0x03, data)
  {
    hide Serialize, FromBe, ToBe, Gets;
    var data := AddressData(h, policy, hmac, change, index, display);
    assert data[1..33] == Id(h, policy).raw;
    assert data[33..65] == if hmac.Some? then hmac.value else NO_HMAC;
    assert data[66..] == ToBe(index % U32, 4);
    Exp256Values();
    FromBeToBe(index % U32, 4);
    BitcoinArrives(0x03, data);
  }

  /** An address of a registered descriptor: after the device's fingerprint, it is asked for
      with the HMAC of the context. */
  lemma {:induction false} DescriptorAddress(h: Hash, lib: Parsers, index: nat, change: bool, display: bool,
                                             policy: LedgerWalletPolicy, hmac: Option<Bytes32>, fingerprint: Bytes)
    requires |fingerprint| >= 4
    ensures var (s, first) := Start(h, New, GetWalletAddress(ByDescriptor(index, change, display), Some(Context(policy, hmac))));
            && first.Ok? && Gets(first.value, 0x05, [])
            && var (s', second) := ExchangeStep(h, lib, s, fingerprint + [0x90, 0x00]);
               && second.Ok? && second.value.Some?
               && AddressIsAsked(h, second.value.value, policy, if hmac.Some? then hmac.value else NO_HMAC, change, index, display)
  {
    hide AddressData, Gets, TellsAddress, PolicyStore, ParseResponse;
    AnswerIs(fingerprint, OK, [0x90, 0x00]);
    BitcoinArrives(0x05, []);
    AddressTells(h, policy, hmac, change, index, display);
  }

  ghost predicate AddressIsAsked(h: Hash, sent: Transmit, policy: LedgerWalletPolicy, hmac: Bytes, change: bool, index: nat, display: bool) {
    exists data :: Gets(sent, 0x03, data) && TellsAddress(h, data, policy, hmac, change, index, display)
  }

  lemma GetsParses(sent: Transmit, code: Byte, data: Bytes)
    requires Gets(sent, code, data)
    ensures ParseCommand(sent.payload) == Some(ApduCommand(0xE1, code, 0, 1, data))
  {
  }

  /** An address by path: the device is asked for its fingerprint, then, silently, for the key
      of the first three elements of the path, and then for the address with the branch and the
      index that the path ends in, under the policy made of the path, the fingerprint and the
      key, which is not registered. */
  lemma {:induction false} PathAddress(h: Hash, lib: Parsers, path: KeyPath, display: bool, context: Option<Context>,
                                       fingerprint: Bytes, more: Bytes, key: Bytes, policy: LedgerWalletPolicy)
    requires |fingerprint| == 4 && |path| >= 5
    requires lib.xpub(key).Some? && lib.singlesig(path, fingerprint, lib.xpub(key).value) == Some(policy)
    ensures var (s, first) := Start(h, New, GetWalletAddress(ByPath(path, display), context));
            && first.Ok? && Gets(first.value, 0x05, [])
            && var (s1, second) := ExchangeStep(h, lib, s, fingerprint + more + [0x90, 0x00]);
               && second.Ok? && second.value.Some?
               && (exists asked :: Gets(second.value.value, 0x00, asked) && TellsXpub(asked, [path[0], path[1], path[2]], false))
               && var (s2, third) := ExchangeStep(h, lib, s1, key + [0x90, 0x00]);
                  && third.Ok? && third.value.Some?
                  && AddressIsAsked(h, third.value.value, policy, NO_HMAC, path[3] == 1, path[4], display)
  {
    hide AddressData, XpubData, Gets, TellsXpub, ParseResponse, TellsAddress, PolicyStore;
    var three := path[..3];
    assert three == [path[0], path[1], path[2]];
    AnswerIs(fingerprint + more, OK, [0x90, 0x00]);
    AnswerIs(key, OK, [0x90, 0x00]);
    assert (fingerprint + more)[..4] == fingerprint;
    BitcoinArrives(0x05, []);
    XpubTells(three, false);
    AddressTells(h, policy, None, path[3] == 1, path[4], display);
  }

  // ---- messages and policies ----

  /** SIGN_MESSAGE: the path, the length of the message and the root of its chunks. */
  ghost predicate TellsMessage(h: Hash, data: Bytes, message: Bytes, path: KeyPath)
    requires message != []
  {
    && |data| >= 1 + 4 * |path| && data[0] == |path| % 256 && TellsPath(data[1..1 + 4 * |path|], path)
    && ParseCounted(data[1 + 4 * |path|..]) == Some(Counted(|message|, ListRoot(h, Chunks(message)), []))
  }

  lemma MessageTells(h: Hash, message: Bytes, path: KeyPath)
    requires 0 < |message| < U64
    ensures TellsMessage(h, MessageData(h, message, path), message, path)
  {
    hide ListRoot, PathBytes, TellsPath, ParseCounted, EncodeLen, Chunks;
    PathTells(path);
    PathBytesLength(path);
    var data := MessageData(h, message, path);
    var n := 4 * |path|;
    var tail := EncodeLen(|message|) + ListRoot(h, Chunks(message)).raw;
    assert data[1..1 + n] == PathBytes(path);
    assert data[1 + n..] == tail + [];
    ParsesCounted(|message|, ListRoot(h, Chunks(message)), []);
  }

  /** A device that gets SIGN_MESSAGE reads the message from the length and the root in its
      data, through the interpreter, or two of the hashed strings collide. */
  lemma {:induction false} MessageIsTold(h: Hash, lib: Parsers, message: Bytes, path: KeyPath)
    requires 0 < |message| < U64 && Fits(EMPTY.WithList(Chunks(message)))
    requires |MessageData(h, message, path)| <= 255
    ensures var (s, sent) := Start(h, New, SignMessage(message, path));
            && sent.Ok? && ParseCommand(sent.value.payload).Some?
            && var data := ParseCommand(sent.value.payload).value.data;
            && Gets(sent.value, 0x10, data) && TellsMessage(h, data, message, path)
            && var told := ParseCounted(data[1 + 4 * |path|..]).value;
               var read := ReadFrom(h, LedgerHost(h, lib), s, told.root, (told.count + 63) / 64, 0);
               || (read.0.Got? && Concat(read.0.value) == message && read.1 == s)
               || ClashIn(h, StoreStrings(h, EMPTY.WithList(Chunks(message))))
  {
    hide MessageData, Chunks, Gets, ParseCounted, TellsPath, ReadFrom, LedgerHost, StoreStrings, ClashIn, Concat, Fits;
    var data := MessageData(h, message, path);
    MessageTells(h, message, path);
    BitcoinArrives(0x10, data);
    GetsParses(Bitcoin(INS_SIGN_MESSAGE, data), 0x10, data);
    MessageIsReadable(h, lib, message, path);
  }

  /** REGISTER_WALLET: the device reads every part of the policy from its data. */
  lemma {:induction false} RegisteringTells(h: Hash, lib: Parsers, policy: LedgerWalletPolicy)
    requires Fits(PolicyStore(h, policy)) && |Serialize(h, policy)| <= 252 && |policy.name| <= 255
    ensures var (s, sent) := Start(h, New, RegisterWallet(policy));
            && sent.Ok? && ParseCommand(sent.value.payload).Some?
            && var data := ParseCommand(sent.value.payload).value.data;
            && Gets(sent.value, 0x02, data)
            && var read := ReadRegistered(h, LedgerHost(h, lib), s, data);
               || (read.0 == Got(PolicyView(policy.version, policy.name, policy.template, policy.keys)) && read.1 == s)
               || ClashIn(h, StoreStrings(h, PolicyStore(h, policy)))
  {
    hide RegisterData, Gets, ReadRegistered, LedgerHost, StoreStrings, ClashIn, Fits, Serialize, PolicyStore, ParseCommand;
    var data := RegisterData(h, policy);
    RegisteringIsClosed(h, lib, policy);
    RequestsFit(h, policy, None, false, 0, false, [], [0]);
    BitcoinArrives(0x02, data);
    GetsParses(Bitcoin(INS_REGISTER_WALLET, data), 0x02, data);
  }

  // ---- commands of one round ----

  /** A command whose data is a text. */
  predicate SendsText(r: Result<Transmit, LedgerError>, header: Bytes, text: string) {
    && r.Ok? && r.value.recipient == ToDevice && !r.value.encrypted
    && var payload := r.value.payload;
       && |payload| == 5 + |text| && payload[..5] == header
       && forall i :: 0 <= i < |text| ==> payload[5 + i] == text[i] as int
  }

  function ToDeviceOnly(payload: Bytes): Result<Transmit, LedgerError> {
    Ok(Transmit(ToDevice, payload, false))
  }

  /** The requests that hold no data of the caller. */
  lemma {:induction false} FixedRequests(h: Hash, s: State)
    ensures Start(h, s, GetMasterFingerprint).1 == ToDeviceOnly([0xE1, 0x05, 0x00, 0x01, 0x00])
    ensures Start(h, s, GetAppInfo).1 == ToDeviceOnly([0xB0, 0x01, 0x00, 0x00, 0x00])
    ensures SendsText(Start(h, s, OpenApp(true)).1, [0xE0, 0xD8, 0x00, 0x00, 0x07], "Bitcoin")
    ensures SendsText(Start(h, s, OpenApp(false)).1, [0xE0, 0xD8, 0x00, 0x00, 0x0C], "Bitcoin Test")
  {
    assert |AppName(true)| == 0x07 && |AppName(false)| == 0x0C;
    assert [0xE1, 0x05, 0x00, 0x01, 0x00] + [] == [0xE1, 0x05, 0x00, 0x01, 0x00];
    assert [0xB0, 0x01, 0x00, 0x00, 0x00] + [] == [0xB0, 0x01, 0x00, 0x00, 0x00];
  }

  /** The answer ends the command with this response. */
  predicate Ends(h: Hash, lib: Parsers, s: State, answer: Bytes, response: Response) {
    ExchangeStep(h, lib, s, answer) == (Finished(response), Ok(None))
  }

  /** What the last answer to a query holds, and where. */
  lemma {:induction false} QueryAnswers(h: Hash, lib: Parsers, path: KeyPath, display: bool, bitcoin: bool, body: Bytes, four: Bytes)
    requires |four| == 4
    ensures Ends(h, lib, Start(h, New, GetMasterFingerprint).0, four + body + [0x90, 0x00], MasterFingerprint(four))
    ensures lib.appInfo(body).Some? ==>
              Ends(h, lib, Start(h, New, GetAppInfo).0, [0x01] + body + [0x90, 0x00], AppInfo(lib.appInfo(body).value))
    ensures lib.xpub(body).Some? ==>
              Ends(h, lib, Start(h, New, GetXpub(path, display)).0, body + [0x90, 0x00], Xpub(lib.xpub(body).value))
    ensures Ends(h, lib, Start(h, New, OpenApp(bitcoin)).0, body + [0x90, 0x00], TaskDone)
  {
    hide ParseResponse, XpubData, Bitcoin, AppName, Transmission, Step;
    AnswerIs(body, OK, [0x90, 0x00]);
    AnswerIs(four + body, OK, [0x90, 0x00]);
    assert (four + body)[..4] == four;
    AnswerIs([0x01] + body, OK, [0x90, 0x00]);
    assert ([0x01] + body)[1..] == body;
  }

  /** And what the last answer to the other commands holds. */
  lemma {:induction false} ResultAnswers(h: Hash, lib: Parsers, path: KeyPath, message: Bytes, policy: LedgerWalletPolicy,
                                         header: Byte, body: Bytes, id: Bytes32, hmac: Bytes32)
    requires message != []
    ensures lib.compactSignature(body).Some? ==>
              Ends(h, lib, Start(h, New, SignMessage(message, path)).0, [header] + body + [0x90, 0x00],
                   Signature(header, lib.compactSignature(body).value))
    ensures Ends(h, lib, Start(h, New, RegisterWallet(policy)).0, id + hmac + body + [0x90, 0x00], WalletHmac(hmac))
    ensures lib.isUtf8(body) ==>
              Ends(h, lib, AwaitAddress(Some(PolicyStore(h, policy))), body + [0x90, 0x00], Address(body))
  {
    hide ParseResponse, PolicyStore, RegisterData, MessageData, Chunks, Bitcoin, Step;
    AnswerIs(body, OK, [0x90, 0x00]);
    AnswerIs([header] + body, OK, [0x90, 0x00]);
    assert ([header] + body)[1..] == body;
    AnswerIs(id + hmac + body, OK, [0x90, 0x00]);
    assert (id + hmac + body)[32..64] == hmac;
  }

  /** What a device answers when its user refuses. */
  lemma {:induction false} Refusals(h: Hash, lib: Parsers, path: KeyPath, message: Bytes, psbt: Psbt, policy: LedgerWalletPolicy,
                                    hmac: Option<Bytes32>, body: Bytes)
    requires message != [] && CanSign(psbt)
    ensures Ends(h, lib, Start(h, New, SignMessage(message, path)).0, body + [0x69, 0x85], TaskDone)
    ensures Ends(h, lib, Start(h, New, SignPsbt(psbt, policy, hmac)).0, body + [0x69, 0x85], TaskDone)
    ensures Ends(h, lib, AwaitAddress(Some(PolicyStore(h, policy))), body + [0x69, 0x85], TaskDone)
    ensures ExchangeStep(h, lib, Start(h, New, RegisterWallet(policy)).0, body + [0x69, 0x85]) == (New, Err(UnexpectedResult))
  {
    hide ParseResponse, PolicyStore, SessionStore, SignPsbtData, RegisterData, MessageData, Chunks, Bitcoin, Applied;
    AnswerIs(body, Deny, [0x69, 0x85]);
  }

  // ---- what a device is answered, and what it yields ----

  /** A request that interrupts the command is answered by the store, in a CONTINUE command. */
  lemma {:induction false} RequestIsServed(h: Hash, lib: Parsers, s: State, request: Bytes)
    requires Serving(s)
    ensures var (store, answer) := Step(h, s.store.value, request);
            ExchangeStep(h, lib, s, request + [0xE0, 0x00]) ==
            if answer.Err? then (New, Err(BadStore(answer.error)))
            else (WithStore(s, store), Ok(Some(Transmit(ToDevice, [0xF8, 0x01, 0x00, 0x01, |answer.value| % 256] + answer.value, false))))
  {
    hide Step, ParseResponse, ExchangeStep;
    InterruptingIs(request);
    Interrupts(h, lib, s, request);
  }

  lemma InterruptingIs(request: Bytes)
    ensures Interrupting(request) == request + [0xE0, 0x00]
  {
    hide ToBe;
    TwoBytes(0xE000);
  }

  /** The requests with which a device yields. */
  function YieldRequests(ys: seq<DeviceYield>): (r: seq<Bytes>)
    ensures |r| == |ys|
  {
    if ys == [] then [] else YieldRequests(ys[..|ys| - 1]) + [[0x10] + YieldBytes(ys[|ys| - 1])]
  }

  lemma {:induction false} YieldsAppend(a: seq<Bytes>, b: seq<Bytes>)
    ensures Yields(a + b) == Yields(a) + Yields(b)
  {
    if a == [] {
      assert a + b == b;
    } else {
      assert (a + b)[1..] == a[1..] + b;
      YieldsAppend(a[1..], b);
    }
  }

  lemma {:induction false} AllAnsweredAppend(h: Hash, s: StoreState, a: seq<Bytes>, b: seq<Bytes>)
    ensures AllAnswered(h, s, a + b) <==> AllAnswered(h, s, a) && AllAnswered(h, StoreRuns.Run(h, s, a), b)
    decreases |a|
  {
    hide Step;
    if a == [] {
      assert a + b == b;
    } else {
      assert (a + b)[1..] == a[1..] + b;
      AllAnsweredAppend(h, Step(h, s, a[0]).0, a[1..], b);
    }
  }

  /** In any state the store takes every yield, answers nothing, and keeps its payload. */
  lemma {:induction false} YieldsAreTaken(h: Hash, s: StoreState, ys: seq<DeviceYield>)
    ensures AllAnswered(h, s, YieldRequests(ys)) && Yields(YieldRequests(ys)) == AllBytes(ys)
    ensures forall y: DeviceYield :: Step(h, s, [0x10] + YieldBytes(y)).1 == Ok([])
  {
    hide YieldBytes;
    forall y: DeviceYield ensures Step(h, s, [0x10] + YieldBytes(y)).1 == Ok([]) {
      YieldStep(h, s, YieldBytes(y));
    }
    if ys != [] {
      var n := |ys| - 1;
      var last := [0x10] + YieldBytes(ys[n]);
      YieldsAreTaken(h, s, ys[..n]);
      YieldsAppend(YieldRequests(ys[..n]), [last]);
      AllAnsweredAppend(h, s, YieldRequests(ys[..n]), [last]);
      YieldStep(h, StoreRuns.Run(h, s, YieldRequests(ys[..n])), YieldBytes(ys[n]));
      OneYield(h, StoreRuns.Run(h, s, YieldRequests(ys[..n])), YieldBytes(ys[n]));
    }
  }

  lemma YieldStep(h: Hash, s: StoreState, payload: Bytes)
    ensures Step(h, s, [0x10] + payload) == (s.(yielded := s.yielded + [payload]), Ok([]))
  {
    assert ([0x10] + payload)[1..] == payload;
  }

  lemma OneYield(h: Hash, s: StoreState, payload: Bytes)
    ensures AllAnswered(h, s, [[0x10] + payload]) && Yields([[0x10] + payload]) == [payload]
  {
    hide Step;
    YieldStep(h, s, payload);
    assert ([0x10] + payload)[1..] == payload;
    assert Yields([[0x10] + payload][1..]) == [];
  }

  /** Whatever a device asks for while it signs, and whatever it yields in between, if the store
      answers all of it, the host can use the yields, and the device then says OK, the command
      ends with the original PSBT, in which every slot of every input holds the last signature
      that the device sent for it, or what it held before. */
  lemma {:induction false} SignedPsbtIsYielded(h: Hash, lib: Parsers, psbt: Psbt, policy: LedgerWalletPolicy, hmac: Option<Bytes32>,
                                               requests: seq<Bytes>, ys: seq<DeviceYield>, body: Bytes, i: nat, slot: Slot)
    requires CanSign(psbt) && AllAnswered(h, SessionStore(h, RequestOf(psbt, policy, hmac)), requests)
    requires Yields(requests) == AllBytes(ys) && forall y :: y in ys ==> Usable(lib.signatures, y) && y.input < |psbt.inputs|
    requires i < |psbt.inputs|
    ensures var answers := Interruptions(requests) + [body + [0x90, 0x00]];
            var t := Conversation(h, lib, Start(h, New, SignPsbt(psbt, policy, hmac)).0, answers);
            && t.ended == Some(Ok(())) && t.s.Finished? && t.s.response.SignedPsbt?
            && var signed := t.s.response.psbt;
               && signed == psbt.(inputs := signed.inputs) && |signed.inputs| == |psbt.inputs|
               && signed.inputs[i].rest == psbt.inputs[i].rest
               && signed.inputs[i].Get(slot) == (match LastSigned(lib.signatures, ys, i, slot)
                                                 case Some(signature) => Some(signature)
                                                 case None => psbt.inputs[i].Get(slot))
  {
    hide *;
    OkIs(body);
    SignedPsbtHasTheYields(h, lib, psbt, policy, hmac, requests, body);
    SignedAsYielded(lib.signatures, psbt.inputs, ys, i, slot);
  }

  lemma OkIs(body: Bytes)
    ensures ApduResponse(body, OK).Encode() == body + [0x90, 0x00]
  {
    hide ToBe;
    TwoBytes(0x9000);
  }

  /** In particular a device may yield all its signatures one after the other. */
  lemma {:induction false} YieldingSigns(h: Hash, lib: Parsers, psbt: Psbt, policy: LedgerWalletPolicy, hmac: Option<Bytes32>,
                                         ys: seq<DeviceYield>, body: Bytes, i: nat, slot: Slot)
    requires CanSign(psbt) && i < |psbt.inputs|
    requires forall y :: y in ys ==> Usable(lib.signatures, y) && y.input < |psbt.inputs|
    ensures var answers := Interruptions(YieldRequests(ys)) + [body + [0x90, 0x00]];
            var t := Conversation(h, lib, Start(h, New, SignPsbt(psbt, policy, hmac)).0, answers);
            && t.s.Finished? && t.s.response.SignedPsbt? && |t.s.response.psbt.inputs| == |psbt.inputs|
            && t.s.response.psbt.inputs[i].Get(slot) == (match LastSigned(lib.signatures, ys, i, slot)
                                                         case Some(signature) => Some(signature)
                                                         case None => psbt.inputs[i].Get(slot))
  {
    hide *;
    RequestParts(psbt, policy, hmac);
    YieldsAreTaken(h, SessionStore(h, RequestOf(psbt, policy, hmac)), ys);
    SignedPsbtIsYielded(h, lib, psbt, policy, hmac, YieldRequests(ys), ys, body, i, slot);
  }
}
