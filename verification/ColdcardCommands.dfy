/** Whole Coldcard commands, from the first request to the response. */
module ColdcardCommands {
  import opened Common
  import opened Driver
  import opened ColdcardApi
  import opened Coldcard
  import opened ColdcardRuns
  import opened ColdcardFiles

  // ---- the upload that comes first ----

  /** The answers to an upload: each offset, then the hash. */
  lemma {:induction false} UploadRepliesAre(h: Hash, file: Bytes, offset: nat, action: Action)
    requires offset <= |file| && (offset == 0 || offset < |file|)
    ensures var replies := HonestUploadReplies(h, file, offset);
            && |replies| == |Expected(h, file, offset, action)|
            && (forall i :: 0 <= i < |replies| - 1 ==> replies[i] == TagBytes(Int1) + ToLe(offset + 2048 * i, 4))
            && replies[|replies| - 1] == TagBytes(Biny) + h(file).raw
    decreases |file| - offset
  {
    hide *;
    var next := Min(offset + MAX_UPLOAD_CHUNK_LEN, |file|);
    var replies := HonestUploadReplies(h, file, offset);
    NextOffset(offset, |file|);
    ExpectedStep(h, file, offset, action);
    HonestUploadStep(h, file, offset);
    if next < |file| {
      UploadRepliesAre(h, file, next, action);
      ExpectedLength(h, file, next, action);
      var rest := HonestUploadReplies(h, file, next);
      assert replies == [replies[0]] + rest && replies[|replies| - 1] == rest[|rest| - 1];
      forall i | 0 <= i < |replies| - 1
        ensures replies[i] == TagBytes(Int1) + ToLe(offset + 2048 * i, 4)
      {
        assert i > 0 ==> replies[i] == rest[i - 1] && next + 2048 * (i - 1) == offset + 2048 * i;
      }
    }
  }

  lemma HonestUploadStep(h: Hash, file: Bytes, offset: nat)
    requires offset <= |file|
    ensures var next := Min(offset + MAX_UPLOAD_CHUNK_LEN, |file|);
            HonestUploadReplies(h, file, offset) ==
            [TagBytes(Int1) + ToLe(offset, 4)]
            + if next < |file| then HonestUploadReplies(h, file, next) else [TagBytes(Biny) + h(file).raw]
  {
    hide TagBytes, ToLe;
  }

  lemma TalkGoesOn(h: Hash, lib: Parsers, s: State, a: seq<Bytes>, b: seq<Bytes>)
    requires TalkPlainly(h, lib, s, a).ended.None?
    ensures var t := TalkPlainly(h, lib, s, a);
            var u := TalkPlainly(h, lib, t.s, b);
            TalkPlainly(h, lib, s, a + b) == Talk(u.s, t.sent + u.sent, u.ended)
  {
    hide Plainly, PlainStep;
    ConverseAppend(Plainly(h, lib), s, a, b);
  }

  /** Against any device, a command that uploads a file and ends well got exactly the answers
      of an honest device to the upload, and goes on from the request to act upon the file. */
  lemma UploadComesFirst(h: Hash, lib: Parsers, file: Bytes, action: Action, replies: seq<Bytes>)
    requires |file| < U32 && TalkPlainly(h, lib, UploadingFile(file, 0, action), replies).ended == Some(Ok(()))
    ensures var upload := HonestUploadReplies(h, file, 0);
            && upload <= replies
            && var t := TalkPlainly(h, lib, UploadingFile(file, 0, action), replies);
               var rest := TalkPlainly(h, lib, Acting(action), replies[|upload|..]);
               t == Talk(rest.s, Expected(h, file, 0, action) + rest.sent, rest.ended)
  {
    hide *;
    var upload := HonestUploadReplies(h, file, 0);
    UploadProtocol(h, lib, file, 0, action, replies);
    UploadRepliesAre(h, file, 0, action);
    HonestUpload(h, lib, file, 0, action);
    var n := |upload|;
    SentNeedsReplies(h, lib, UploadingFile(file, 0, action), replies);
    assert replies[..n] == upload by {
      forall i | 0 <= i < n ensures replies[i] == upload[i] {
        assert 0 + 2048 * i == 2048 * i;
      }
    }
    assert replies == upload + replies[n..];
    TalkGoesOn(h, lib, UploadingFile(file, 0, action), upload, replies[n..]);
  }

  lemma SentNeedsReplies(h: Hash, lib: Parsers, s: State, replies: seq<Bytes>)
    ensures |TalkPlainly(h, lib, s, replies).sent| <= |replies|
  {
  }

  // ---- against any device ----

  /** The state is finished with a file that some replies announced and brought. */
  ghost predicate FromFile(h: Hash, lib: Parsers, kind: FileKind, replies: seq<Bytes>, state: State) {
    exists j, k :: SentFile(h, lib, kind, replies, j, k, state)
  }

  /** SIGN a PSBT: whatever is answered, if the command ends well, then the file was sent
      whole, every part of it acknowledged, and its hash confirmed, before signing was asked
      for; the device agreed to sign; and the response is the file whose length and hash it
      announced after that and which it then sent. */
  lemma {:induction false} SignPsbtCommand(h: Hash, lib: Parsers, file: Bytes, replies: seq<Bytes>)
    requires FirstRequest(SignPsbt(file)).Ok?
    ensures var t := TalkPlainly(h, lib, StartState(SignPsbt(file)), replies);
            var upload := HonestUploadReplies(h, file, 0);
            t.ended == Some(Ok(())) ==>
              && upload <= replies && |upload| < |replies|
              && UploadFrom(file, 0) + [SHA256, SignTransaction(|file|, h(file).raw)] <= [FirstRequest(SignPsbt(file)).value] + t.sent
              && SigningStarted(replies[|upload|]).Ok?
              && FromFile(h, lib, SignedPsbtFile, replies[|upload| + 1..], t.s)
  {
    hide *;
    Uploads(file);
    var s := StartState(SignPsbt(file));
    var t := TalkPlainly(h, lib, s, replies);
    if t.ended == Some(Ok(())) {
      UploadComesFirst(h, lib, file, SignAction, replies);
      WholeUpload(h, file, SignAction, t.sent);
      var n := |HonestUploadReplies(h, file, 0)|;
      var rest := replies[n..];
      AfterSigning(h, lib, rest);
      assert rest[1..] == replies[n + 1..];
    }
  }

  /** The first request is the first of the upload; files of 4 GiB and more are refused. */
  lemma Uploads(file: Bytes)
    ensures FirstRequest(SignPsbt(file)).Ok? <==> |file| < U32
    ensures FirstRequest(RegisterWallet(file)) == FirstRequest(SignPsbt(file))
    ensures |file| < U32 ==> FirstRequest(SignPsbt(file)) == Ok(UploadFrom(file, 0)[0])
    ensures StartState(SignPsbt(file)) == UploadingFile(file, 0, SignAction)
    ensures StartState(RegisterWallet(file)) == UploadingFile(file, 0, EnrollAction)
  {
    hide *;
    StartsUpload(file);
    UploadStarts(file);
  }

  lemma StartsUpload(file: Bytes)
    ensures FirstRequest(SignPsbt(file)) == FileUploadRequest(file, 0) == FirstRequest(RegisterWallet(file))
    ensures StartState(SignPsbt(file)) == UploadingFile(file, 0, SignAction)
    ensures StartState(RegisterWallet(file)) == UploadingFile(file, 0, EnrollAction)
  {
    hide FileUploadRequest;
  }

  lemma UploadStarts(file: Bytes)
    ensures FileUploadRequest(file, 0) == if |file| < U32 then Ok(UploadFrom(file, 0)[0]) else Err(Serialization)
  {
    hide Upload, UploadFrom, Min;
    FirstPart(file, 0);
  }

  lemma WholeUpload(h: Hash, file: Bytes, action: Action, sent: seq<Bytes>)
    requires |sent| >= |Expected(h, file, 0, action)| && Expected(h, file, 0, action) <= sent
    ensures UploadFrom(file, 0) + [SHA256, ActRequest(action, |file|, h(file).raw)] <= [UploadFrom(file, 0)[0]] + sent
    ensures ActRequest(SignAction, |file|, h(file).raw) == SignTransaction(|file|, h(file).raw)
    ensures ActRequest(EnrollAction, |file|, h(file).raw) == MultisigEnroll(|file|, h(file).raw)
  {
    hide UploadFrom, SignTransaction, MultisigEnroll;
    var first := UploadFrom(file, 0);
    assert first == [first[0]] + first[1..];
    assert [first[0]] + Expected(h, file, 0, action) == first + [SHA256, ActRequest(action, |file|, h(file).raw)];
  }

  lemma AfterSigning(h: Hash, lib: Parsers, replies: seq<Bytes>)
    ensures var t := TalkPlainly(h, lib, Acting(SignAction), replies);
            t.ended == Some(Ok(())) ==>
              && replies != [] && SigningStarted(replies[0]).Ok?
              && FromFile(h, lib, SignedPsbtFile, replies[1..], t.s)
  {
    hide TalkPlainly, SentFile, SigningStarted;
    TalkUnfolds(h, lib, SigningPsbt, replies);
    if replies != [] && SigningStarted(replies[0]).Ok? {
      FileIsAnnounced(h, lib, SignedPsbtFile, replies[1..]);
    }
  }

  /** Registering a wallet ends well only after the same upload, when the device answered okay
      to the request to enroll the file. */
  lemma {:induction false} RegisterWalletCommand(h: Hash, lib: Parsers, file: Bytes, replies: seq<Bytes>)
    requires FirstRequest(RegisterWallet(file)).Ok?
    ensures var t := TalkPlainly(h, lib, StartState(RegisterWallet(file)), replies);
            var upload := HonestUploadReplies(h, file, 0);
            t.ended == Some(Ok(())) ==>
              && upload <= replies && |upload| < |replies|
              && [FirstRequest(RegisterWallet(file)).value] + t.sent
                 == UploadFrom(file, 0) + [SHA256, MultisigEnroll(|file|, h(file).raw)]
              && ExpectResponse(replies[|upload|], Okay).Ok? && t.s == Finished(WalletRegistrationPending)
  {
    hide *;
    Uploads(file);
    var t := TalkPlainly(h, lib, StartState(RegisterWallet(file)), replies);
    if t.ended == Some(Ok(())) {
      UploadComesFirst(h, lib, file, EnrollAction, replies);
      WholeUpload(h, file, EnrollAction, t.sent);
      AfterEnrolling(h, lib, replies[|HonestUploadReplies(h, file, 0)|..]);
      SameLength(h, file, EnrollAction, t.sent);
    }
  }

  lemma ExpectedIs(h: Hash, file: Bytes, action: Action)
    ensures |Expected(h, file, 0, action)| == |UploadFrom(file, 0)| + 1
  {
    hide UploadFrom, ActRequest;
  }

  lemma SameLength(h: Hash, file: Bytes, action: Action, sent: seq<Bytes>)
    requires sent == Expected(h, file, 0, action) + []
    ensures [UploadFrom(file, 0)[0]] + sent == UploadFrom(file, 0) + [SHA256, ActRequest(action, |file|, h(file).raw)]
  {
    hide *;
    WholeUpload(h, file, action, sent);
    ExpectedIs(h, file, action);
  }

  lemma AfterEnrolling(h: Hash, lib: Parsers, replies: seq<Bytes>)
    ensures var t := TalkPlainly(h, lib, Acting(EnrollAction), replies);
            t.ended == Some(Ok(())) ==>
              replies != [] && ExpectResponse(replies[0], Okay).Ok? && t.s == Finished(WalletRegistrationPending) && t.sent == []
  {
    hide TalkPlainly, ExpectResponse;
    TalkUnfolds(h, lib, EnrollingWallet, replies);
  }

  /** A backup ends well only if the device agreed to make one, and then with the file whose
      length and hash it announced and which it sent. */
  lemma {:induction false} BackupCommandEnds(h: Hash, lib: Parsers, replies: seq<Bytes>)
    ensures var t := TalkPlainly(h, lib, StartState(BackupCommand), replies);
            t.ended == Some(Ok(())) ==>
              && replies != [] && SigningStarted(replies[0]).Ok? && t.s.Finished? && t.s.response.Backup?
              && FromFile(h, lib, BackupFile, replies[1..], t.s)
  {
    hide TalkPlainly, SigningStarted, SentFile;
    TalkUnfolds(h, lib, Running(BackupCommand), replies);
    if replies != [] && SigningStarted(replies[0]).Ok? {
      FileIsAnnounced(h, lib, BackupFile, replies[1..]);
      var t := TalkPlainly(h, lib, StartState(BackupCommand), replies);
      if t.ended == Some(Ok(())) {
        var j: nat, k: nat :| SentFile(h, lib, BackupFile, replies[1..], j, k, t.s);
        SentBackup(h, lib, replies[1..], j, k, t.s);
      }
    }
  }

  lemma SentBackup(h: Hash, lib: Parsers, replies: seq<Bytes>, j: nat, k: nat, s: State)
    requires SentFile(h, lib, BackupFile, replies, j, k, s)
    ensures s.Finished? && s.response.Backup?
  {
    hide Gathered, Announcement;
  }

  // ---- with an honest device ----

  /** Any number of polls for a file that is not ready. */
  function Busies(n: nat): (r: seq<Bytes>)
    ensures |r| == n
  {
    if n == 0 then [] else [TagBytes(Busy)] + Busies(n - 1)
  }

  lemma {:induction false} PollsWhileBusy(h: Hash, lib: Parsers, kind: FileKind, n: nat)
    ensures var t := TalkPlainly(h, lib, Polling(kind), Busies(n));
            t.ended.None? && t.s == Polling(kind) && |t.sent| == n && forall i :: 0 <= i < n ==> t.sent[i] == Again(kind)
  {
    hide TalkPlainly, PlainStep, FileReady, TagBytes;
    TalkUnfolds(h, lib, Polling(kind), Busies(n));
    if n > 0 {
      BusyIsPending();
      PollStep(h, lib, kind, TagBytes(Busy));
      assert Busies(n)[1..] == Busies(n - 1);
      PollsWhileBusy(h, lib, kind, n - 1);
    }
  }

  lemma BusyIsPending()
    ensures FileReady(TagBytes(Busy)) == Ok(Pending) && SigningStarted(TagBytes(Busy)).Ok?
  {
    hide ParseResponse, TagBytes;
    ParseResponseIs(TagBytes(Busy), Busy, []);
    assert TagBytes(Busy) + [] == TagBytes(Busy);
  }

  /** What an honest device answers from the request to make a file on: it is busy with it
      for a while, announces it, and sends it. */
  function HonestFileReplies(h: Hash, polls: nat, file: Bytes): seq<Bytes>
    requires |file| < U32
  {
    [TagBytes(Busy)] + (Busies(polls) + ([Announcement(|file|, h(file).raw)] + HonestDownloadReplies(file, 0)))
  }

  lemma FileIsFetched(h: Hash, lib: Parsers, kind: FileKind, polls: nat, file: Bytes)
    requires |file| < U32
    ensures var t := TalkPlainly(h, lib, Polling(kind), HonestFileReplies(h, polls, file)[1..]);
            && (t.ended == Some(Ok(())) <==> file != [] && FileResponse(lib, kind, file).Some?)
            && (t.ended == Some(Ok(())) ==> t.s == Finished(FileResponse(lib, kind, file).value)
                                            && |t.sent| == polls + (|file| + 2047) / 2048)
  {
    hide TalkPlainly, FileResponse, Announcement, HonestDownloadReplies, TagBytes;
    var rest := [Announcement(|file|, h(file).raw)] + HonestDownloadReplies(file, 0);
    assert HonestFileReplies(h, polls, file)[1..] == Busies(polls) + rest;
    PollsWhileBusy(h, lib, kind, polls);
    TalkGoesOn(h, lib, Polling(kind), Busies(polls), rest);
    HonestFile(h, lib, kind, file);
  }

  /** With an honest device, however long it is busy, a backup ends with its file, if and only
      if that is not empty. */
  lemma {:induction false} HonestBackup(h: Hash, lib: Parsers, polls: nat, file: Bytes)
    requires |file| < U32
    ensures var t := TalkPlainly(h, lib, StartState(BackupCommand), HonestFileReplies(h, polls, file));
            && (t.ended == Some(Ok(())) <==> file != [])
            && (t.ended == Some(Ok(())) ==> t.s == Finished(Backup(file)) && |t.sent| == 1 + polls + (|file| + 2047) / 2048)
  {
    hide TalkPlainly, HonestFileReplies, SigningStarted, TagBytes;
    var replies := HonestFileReplies(h, polls, file);
    BusyIsPending();
    FirstIsBusy(h, polls, file);
    TalkUnfolds(h, lib, Running(BackupCommand), replies);
    FileIsFetched(h, lib, BackupFile, polls, file);
  }

  lemma FirstIsBusy(h: Hash, polls: nat, file: Bytes)
    requires |file| < U32
    ensures HonestFileReplies(h, polls, file) != [] && HonestFileReplies(h, polls, file)[0] == TagBytes(Busy)
  {
  }

  /** And a PSBT is signed: the whole upload, signing, and the download of the signed PSBT, if
      and only if that is not empty and can be parsed. */
  lemma {:induction false} HonestSigning(h: Hash, lib: Parsers, file: Bytes, polls: nat, signed: Bytes)
    requires |file| < U32 && |signed| < U32
    ensures var replies := HonestUploadReplies(h, file, 0) + HonestFileReplies(h, polls, signed);
            var t := TalkPlainly(h, lib, StartState(SignPsbt(file)), replies);
            && (t.ended == Some(Ok(())) <==> signed != [] && lib.psbt(signed).Some?)
            && (t.ended == Some(Ok(())) ==> t.s == Finished(SignedPsbt(lib.psbt(signed).value)))
  {
    hide *;
    var s := StartState(SignPsbt(file));
    var more := HonestFileReplies(h, polls, signed);
    Uploads(file);
    HonestUpload(h, lib, file, 0, SignAction);
    TalkGoesOn(h, lib, s, HonestUploadReplies(h, file, 0), more);
    SignsHonestly(h, lib, polls, signed);
  }

  lemma SignsHonestly(h: Hash, lib: Parsers, polls: nat, signed: Bytes)
    requires |signed| < U32
    ensures var t := TalkPlainly(h, lib, Acting(SignAction), HonestFileReplies(h, polls, signed));
            && (t.ended == Some(Ok(())) <==> signed != [] && lib.psbt(signed).Some?)
            && (t.ended == Some(Ok(())) ==> t.s == Finished(SignedPsbt(lib.psbt(signed).value)))
  {
    hide TalkPlainly, HonestFileReplies, SigningStarted, TagBytes;
    BusyIsPending();
    FirstIsBusy(h, polls, signed);
    TalkUnfolds(h, lib, SigningPsbt, HonestFileReplies(h, polls, signed));
    FileIsFetched(h, lib, SignedPsbtFile, polls, signed);
  }

  // ---- panics ----

  /** A state in which a started command waits: the two that are handled at the start do not
      wait as such, and only SIGN MESSAGE waits for a message signature. */
  predicate At(command: Command, s: State) {
    && !(s.Running? && (s.command.SignPsbt? || s.command.RegisterWallet?))
    && (s.Running? && s.command.SignMessage? <==> command.SignMessage?)
  }

  /** The replies that stop the decoding of a message signature. */
  predicate BadSignature(reply: Bytes) {
    |reply| >= 4 && reply[..4] == TagBytes(Smrx) && (|reply| < 8 || |reply| == 8 + FromLe(reply[4..8]))
  }

  lemma StaysAt(h: Hash, lib: Parsers, command: Command, s: State, reply: Bytes)
    requires At(command, s)
    ensures var (s', r) := PlainStep(h, lib, s, reply);
            && (r.Ok? && r.value.Some? ==> At(command, s'))
            && (r == Err(Panicked) <==> command.SignMessage? && BadSignature(reply))
  {
    hide OnRunning, OnUpload, OnVerify, OnPoll, OnDownload, BadSignature, SigningStarted, ExpectResponse;
    OnlySignaturesPanic(lib, reply);
    if s.Running? {
      StaysRunning(lib, command, s, reply);
    } else {
      TransfersGoOn(h, lib, s, reply);
    }
  }

  lemma StaysRunning(lib: Parsers, command: Command, s: State, reply: Bytes)
    requires At(command, s) && s.Running?
    ensures var (s', r) := OnRunning(lib, s, s.command, reply);
            && (r.Ok? && r.value.Some? ==> At(command, s'))
            && (r == Err(Panicked) <==> command.SignMessage? && BadSignature(reply))
  {
    hide SigningStarted, MessageSignature, MyPubOf, XpubOf, AddressOf, VersionOf, BadSignature;
    OnlySignaturesPanic(lib, reply);
    SignaturePanics(lib, reply);
  }

  lemma TransfersGoOn(h: Hash, lib: Parsers, s: State, reply: Bytes)
    ensures s.UploadingFile? ==> OnUpload(h, s, reply).1 != Err(Panicked) && !OnUpload(h, s, reply).0.Running?
    ensures s.VerifyingFileUpload? ==> OnVerify(s, reply).1 != Err(Panicked) && !OnVerify(s, reply).0.Running?
    ensures s.DownloadingFile? ==> OnDownload(h, lib, s, reply).1 != Err(Panicked) && !OnDownload(h, lib, s, reply).0.Running?
    ensures forall kind, number, again ::
              var step := OnPoll(s, reply, kind, number, again);
              step.1 != Err(Panicked) && (s.Running? || !step.0.Running?)
  {
    hide FileReady, Acknowledged, Downloaded, FileHash, Upload, Download, SignTransaction, MultisigEnroll;
    OnlySignaturesPanic(lib, reply);
  }

  lemma SignaturePanics(lib: Parsers, reply: Bytes)
    ensures MessageSignature(lib, reply) == Err(Panicked) <==> BadSignature(reply)
  {
    hide MessageSignature;
    MessageSignaturePanics(lib, reply);
  }

  lemma OnlySignaturesPanic(lib: Parsers, reply: Bytes)
    ensures SigningStarted(reply) != Err(Panicked) && MyPubOf(lib, reply) != Err(Panicked) && FileReady(reply) != Err(Panicked)
    ensures Acknowledged(reply) != Err(Panicked) && Downloaded(reply) != Err(Panicked) && FileHash(reply) != Err(Panicked)
    ensures ExpectResponse(reply, Okay) != Err(Panicked) && XpubOf(lib, reply) != Err(Panicked)
    ensures AddressOf(lib, reply) != Err(Panicked) && VersionOf(lib, reply) != Err(Panicked)
  {
    hide TagOf, FromLe;
  }

  lemma {:induction false} PanicsFrom(h: Hash, lib: Parsers, command: Command, s: State, replies: seq<Bytes>)
    requires At(command, s)
    ensures var t := TalkPlainly(h, lib, s, replies);
            t.ended == Some(Err(Panicked)) <==> command.SignMessage? && |t.sent| < |replies| && BadSignature(replies[|t.sent|])
    decreases |replies|
  {
    hide *;
    TalkUnfolds(h, lib, s, replies);
    if replies != [] {
      StaysAt(h, lib, command, s, replies[0]);
      var (s', r) := PlainStep(h, lib, s, replies[0]);
      if r.Ok? && r.value.Some? {
        PanicsFrom(h, lib, command, s', replies[1..]);
      }
    }
  }

  /** Whatever is answered, a command stops the program if and only if it signs a message and
      the reply after those to which something was sent is such a bad signature. */
  lemma {:induction false} CommandPanicsExactly(h: Hash, lib: Parsers, command: Command, replies: seq<Bytes>)
    ensures var t := TalkPlainly(h, lib, StartState(command), replies);
            t.ended == Some(Err(Panicked)) <==> command.SignMessage? && |t.sent| < |replies| && BadSignature(replies[|t.sent|])
  {
    hide TalkPlainly, BadSignature;
    PanicsFrom(h, lib, command, StartState(command), replies);
  }

  /** A reply that is nothing but the tag of a message signature is one. */
  lemma {:induction false} BareTagPanics(h: Hash, lib: Parsers, payload: Bytes, more: seq<Bytes>)
    ensures TalkPlainly(h, lib, StartState(SignMessage(payload)), [TagBytes(Smrx)] + more).ended == Some(Err(Panicked))
  {
    hide TalkPlainly, TagBytes, PlainStep, FromLe;
    var s, replies := StartState(SignMessage(payload)), [TagBytes(Smrx)] + more;
    assert TagBytes(Smrx)[..4] == TagBytes(Smrx);
    StaysAt(h, lib, SignMessage(payload), s, TagBytes(Smrx));
    TalkUnfolds(h, lib, s, replies);
  }

  // ---- commands without files ----

  /** What the text of an answer to a query comes to. */
  function TextResult(lib: Parsers, kind: QueryKind, text: Bytes): Result<Response, ColdcardError> {
    match kind
    case VersionQuery => if lib.isUtf8(text) then Ok(Version(text)) else Err(Serialization)
    case AddressQuery => if lib.isUtf8(text) then Ok(Address(text)) else Err(Serialization)
    case XpubQuery => if lib.isUtf8(text) && lib.xpub(text).Some? then Ok(Xpub(lib.xpub(text).value)) else Err(Serialization)
    case FingerprintQuery =>
      if lib.isUtf8(text) && lib.xpub(text).Some? then Ok(MasterFingerprint(lib.fingerprint(lib.xpub(text).value)))
      else Err(Serialization)
  }

  /** A query sends its payload, and the text of the answer is the response. */
  lemma {:induction false} Querying(h: Hash, lib: Parsers, kind: QueryKind, payload: Bytes, reply: Bytes, text: Bytes)
    requires Says(reply, "asci", text)
    ensures FirstRequest(Query(kind, payload)) == Ok(payload)
    ensures var t := TalkPlainly(h, lib, StartState(Query(kind, payload)), [reply]);
            match TextResult(lib, kind, text)
            case Ok(response) => t == Talk(Finished(response), [], Some(Ok(())))
            case Err(error) => t.ended == Some(Err(error))
  {
    hide TalkPlainly, Says, XpubOf, AddressOf, VersionOf;
    TextsAre(lib, reply, text);
    TalkUnfolds(h, lib, StartState(Query(kind, payload)), [reply]);
  }

  /** The start of the encryption goes out in the clear, with the key of the host, unless it was
      started before; the key of the device is the response. */
  lemma {:induction false} StartingEncryption(h: Hash, lib: Parsers, m: Machine, own: Bytes, reply: Bytes, key: Bytes, fingerprint: Bytes, more: Bytes)
    requires |key| == 64 && |fingerprint| == 4
    requires Says(reply, "mypb", key + fingerprint + ToLe(0, 4) + [] + more)
    ensures var r := FirstRequest(StartEncryptionCommand(own));
            r.Ok? && |r.value| >= 8 && Spells(r.value[..4], "ncry") && FromLe(r.value[4..8]) == 1 && r.value[8..] == own
            && Coldcard.Start(m, StartEncryptionCommand(own)) ==
               if m.1.Ready? then (m, Err(Encryption))
               else ((StartState(StartEncryptionCommand(own)), m.1), Ok(Transmit(ToDevice, r.value, false)))
    ensures TalkPlainly(h, lib, StartState(StartEncryptionCommand(own)), [reply])
         == Talk(Finished(MyPub(key, fingerprint, None)), [], Some(Ok(())))
  {
    hide TalkPlainly, Says, MyPubOf, ToLe, FromLe, Spells, StartEncryption;
    RequestsAre(own, 0, []);
    MyPubIs(lib, reply, key, fingerprint, [], more);
    TalkUnfolds(h, lib, StartState(StartEncryptionCommand(own)), [reply]);
  }

  /** Not yet: the device is busy, or has nothing to say. */
  ghost predicate Waits(reply: Bytes) {
    exists data :: Says(reply, "busy", data) || Says(reply, "okay", data)
  }

  /** SIGN MESSAGE asks for the signature again as long as the device waits, and ends with the
      signature that then comes, behind the address that made it. */
  lemma {:induction false} SigningMessage(h: Hash, lib: Parsers, payload: Bytes, waits: seq<Bytes>, reply: Bytes,
                                          address: Bytes, header: Byte, signature: Bytes)
    requires forall i :: 0 <= i < |waits| ==> Waits(waits[i])
    requires |address| < U32 && Says(reply, "smrx", ToLe(|address|, 4) + address + [header] + signature)
    ensures FirstRequest(SignMessage(payload)) == Ok(payload)
    ensures var t := TalkPlainly(h, lib, StartState(SignMessage(payload)), waits + [reply]);
            && |t.sent| == |waits| && (forall i :: 0 <= i < |t.sent| ==> Spells(t.sent[i], "smok"))
            && match lib.compact(signature)
               case Some(parsed) => t.ended == Some(Ok(())) && t.s == Finished(Signature(header, parsed))
               case None => t.ended == Some(Err(Serialization))
    decreases |waits|
  {
    hide TalkPlainly, Says, MessageSignature, ToLe, Spells;
    var s, replies := StartState(SignMessage(payload)), waits + [reply];
    TalkUnfolds(h, lib, s, replies);
    RequestsAre([], 0, []);
    if waits == [] {
      SignatureIs(lib, reply, address, header, signature);
    } else {
      var data :| Says(waits[0], "busy", data) || Says(waits[0], "okay", data);
      OtherAnswers(lib, waits[0], data);
      assert replies[1..] == waits[1..] + [reply];
      SigningMessage(h, lib, payload, waits[1..], reply, address, header, signature);
    }
  }

  /** The words with which a backup begins, and with which files are asked for. */
  lemma {:induction false} FilesAreAsked()
    ensures FirstRequest(BackupCommand).Ok? && Spells(FirstRequest(BackupCommand).value, "back")
    ensures Spells(Again(BackupFile), "bkok") && Spells(Again(SignedPsbtFile), "stok")
  {
    hide Spells;
    RequestsAre([], 0, []);
  }
}
