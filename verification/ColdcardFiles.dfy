/** File transfers to and from a Coldcard, against any device and against an honest one. */
module ColdcardFiles {
  import opened Common
  import opened ColdcardApi
  import opened Driver
  import opened Coldcard
  import opened ColdcardRuns

  // ---- uploads ----

  /** The requests that carry the file from `offset` on. */
  function UploadFrom(file: Bytes, offset: nat): (r: seq<Bytes>)
    requires offset <= |file|
    ensures |r| >= 1
    decreases |file| - offset
  {
    var next := Min(offset + MAX_UPLOAD_CHUNK_LEN, |file|);
    [Upload(offset, |file|, file[offset..next])] + if next < |file| then UploadFrom(file, next) else []
  }

  /** The part of the file in an upload request, as a device reads it. */
  function Carried(request: Bytes): Bytes {
    match ReadUpload(request) case Some(fields) => fields.data case None => []
  }

  function AllCarried(requests: seq<Bytes>): Bytes {
    if requests == [] then [] else Carried(requests[0]) + AllCarried(requests[1..])
  }

  /** The request carries what the file has at `at`, and says so. */
  predicate CarriesAt(request: Bytes, file: Bytes, at: nat) {
    && at <= |file|
    && ReadUpload(request) == Some(UploadFields(at, |file|, file[at..Min(at + MAX_UPLOAD_CHUNK_LEN, |file|)]))
  }

  /** As many requests as the file has chunks, and at least one. */
  lemma {:induction false} UploadCount(file: Bytes, offset: nat)
    requires offset <= |file| && (offset == 0 || offset < |file|)
    ensures |UploadFrom(file, offset)| == if |file| == 0 then 1 else (|file| - offset + 2047) / 2048
    decreases |file| - offset
  {
    hide Upload;
    var next := Min(offset + MAX_UPLOAD_CHUNK_LEN, |file|);
    if next < |file| {
      UploadCount(file, next);
    }
  }

  /** The requests say where each of their parts belongs, and concatenate to the file. */
  lemma {:induction false} UploadCarriesFile(file: Bytes, offset: nat)
    requires offset <= |file| < U32 && (offset == 0 || offset < |file|)
    ensures AllCarried(UploadFrom(file, offset)) == file[offset..]
    ensures forall i :: 0 <= i < |UploadFrom(file, offset)| ==> CarriesAt(UploadFrom(file, offset)[i], file, offset + 2048 * i)
    decreases |file| - offset
  {
    hide UploadFrom, CarriesAt, AllCarried;
    var next := Min(offset + MAX_UPLOAD_CHUNK_LEN, |file|);
    var r := UploadFrom(file, offset);
    HeadCarries(file, offset);
    UploadFromStep(file, offset);
    if next < |file| {
      UploadCarriesFile(file, next);
      assert file[offset..] == file[offset..next] + file[next..];
      forall i | 0 < i < |r|
        ensures CarriesAt(r[i], file, offset + 2048 * i)
      {
        assert r[i] == r[1..][i - 1];
        assert next + 2048 * (i - 1) == offset + 2048 * i;
      }
    } else {
      assert file[offset..] == file[offset..next];
    }
  }

  lemma HeadCarries(file: Bytes, offset: nat)
    requires offset <= |file| < U32
    ensures var r, next := UploadFrom(file, offset), Min(offset + MAX_UPLOAD_CHUNK_LEN, |file|);
            && CarriesAt(r[0], file, offset)
            && AllCarried(r) == if |r| == 1 then file[offset..next] else file[offset..next] + AllCarried(r[1..])
  {
    hide Upload, ReadUpload, AllCarried;
    var r, next := UploadFrom(file, offset), Min(offset + MAX_UPLOAD_CHUNK_LEN, |file|);
    ReadsUpload(offset, |file|, file[offset..next]);
    AllCarriedStep(r);
  }

  lemma AllCarriedStep(requests: seq<Bytes>)
    requires requests != []
    ensures AllCarried(requests) == Carried(requests[0]) + AllCarried(requests[1..])
    ensures |requests| == 1 ==> AllCarried(requests) == Carried(requests[0])
  {
    hide Carried;
  }

  function ActRequest(action: Action, length: nat, sha: Bytes): Bytes {
    if action.SignAction? then SignTransaction(length, sha) else MultisigEnroll(length, sha)
  }

  /** What is asked once the request for `offset` is out, until the file is acted upon. */
  function Expected(h: Hash, file: Bytes, offset: nat, action: Action): seq<Bytes>
    requires offset <= |file|
  {
    UploadFrom(file, offset)[1..] + [SHA256, ActRequest(action, |file|, h(file).raw)]
  }

  lemma UploadFromStep(file: Bytes, offset: nat)
    requires offset <= |file|
    ensures var next := Min(offset + MAX_UPLOAD_CHUNK_LEN, |file|);
            if next < |file| then UploadFrom(file, offset)[1..] == UploadFrom(file, next)
            else |UploadFrom(file, offset)| == 1
  {
  }

  function Acting(action: Action): State {
    if action.SignAction? then SigningPsbt else EnrollingWallet
  }

  /** The right acknowledgement, and nothing else, moves an upload on. */
  lemma UploadStep(h: Hash, lib: Parsers, file: Bytes, offset: nat, action: Action, reply: Bytes)
    requires offset <= |file| < U32 && (offset == 0 || offset < |file|)
    ensures var step := PlainStep(h, lib, UploadingFile(file, offset, action), reply);
            var next := Min(offset + MAX_UPLOAD_CHUNK_LEN, |file|);
            if reply != TagBytes(Int1) + ToLe(offset, 4) then step.1.Err?
            else if next < |file| then step == (UploadingFile(file, next, action), Ok(Some(UploadFrom(file, next)[0])))
            else step == (VerifyingFileUpload(|file|, h(file), action), Ok(Some(SHA256)))
  {
    hide Upload, TagBytes, ToLe, Acknowledged, UploadFrom;
    var next := Min(offset + MAX_UPLOAD_CHUNK_LEN, |file|);
    FirstPart(file, next);
    ResponsesAre(reply, offset, seq(32, _ => 0), []);
  }

  lemma FirstPart(file: Bytes, offset: nat)
    requires offset <= |file|
    ensures UploadFrom(file, offset)[0] == Upload(offset, |file|, file[offset..Min(offset + MAX_UPLOAD_CHUNK_LEN, |file|)])
  {
    hide Upload;
  }

  /** The right hash, and nothing else, lets the file be acted upon. */
  lemma VerifyStep(h: Hash, lib: Parsers, length: nat, sha: Digest, action: Action, reply: Bytes)
    requires length < U32
    ensures var step := PlainStep(h, lib, VerifyingFileUpload(length, sha, action), reply);
            if reply != TagBytes(Biny) + sha.raw then step.1.Err?
            else step == (Acting(action), Ok(Some(ActRequest(action, length, sha.raw))))
  {
    hide TagBytes, SignTransaction, MultisigEnroll, FileHash;
    ResponsesAre(reply, 0, sha.raw, []);
    if FileHash(reply).Ok? {
      ResponsesAre(reply, 0, FileHash(reply).value, []);
    }
  }

  lemma ExpectedStep(h: Hash, file: Bytes, offset: nat, action: Action)
    requires offset <= |file|
    ensures var next := Min(offset + MAX_UPLOAD_CHUNK_LEN, |file|);
            Expected(h, file, offset, action) ==
            if next < |file| then [UploadFrom(file, next)[0]] + Expected(h, file, next, action)
            else [SHA256, ActRequest(action, |file|, h(file).raw)]
  {
    hide Upload, ActRequest;
    UploadFromStep(file, offset);
  }

  lemma ConverseStep(h: Hash, lib: Parsers, s: State, replies: seq<Bytes>, s': State, request: Bytes)
    requires replies != [] && PlainStep(h, lib, s, replies[0]) == (s', Ok(Some(request)))
    ensures var t, rest := TalkPlainly(h, lib, s, replies), TalkPlainly(h, lib, s', replies[1..]);
            t == Talk(rest.s, [request] + rest.sent, rest.ended)
  {
    hide PlainStep, TalkPlainly;
    TalkUnfolds(h, lib, s, replies);
  }

  lemma ConverseStops(h: Hash, lib: Parsers, s: State, replies: seq<Bytes>)
    requires replies == [] || PlainStep(h, lib, s, replies[0]).1.Err? || PlainStep(h, lib, s, replies[0]).1.value.None?
    ensures TalkPlainly(h, lib, s, replies).sent == []
    ensures replies == [] || PlainStep(h, lib, s, replies[0]).1.Err? ==> TalkPlainly(h, lib, s, replies).ended != Some(Ok(()))
  {
    hide PlainStep, TalkPlainly;
    TalkUnfolds(h, lib, s, replies);
  }

  /** Against any device: the chunks of the file are sent in order, each only after the
      device acknowledged the one before; then its hash is asked for; and the file is
      signed or enrolled, with its true length and hash, only if the device answered with
      that very hash. */
  lemma {:induction false} UploadProtocol(h: Hash, lib: Parsers, file: Bytes, offset: nat, action: Action, replies: seq<Bytes>)
    requires offset <= |file| < U32 && (offset == 0 || offset < |file|)
    ensures var t := TalkPlainly(h, lib, UploadingFile(file, offset, action), replies);
            var expected := Expected(h, file, offset, action);
            && (forall i :: 0 <= i < |t.sent| && i < |expected| ==> t.sent[i] == expected[i])
            && (forall i :: 0 <= i < |t.sent| && i < |expected| - 1 ==> replies[i] == TagBytes(Int1) + ToLe(offset + 2048 * i, 4))
            && (|t.sent| >= |expected| ==> replies[|expected| - 1] == TagBytes(Biny) + h(file).raw)
            && (t.ended == Some(Ok(())) ==> |t.sent| >= |expected|)
    decreases |file| - offset
  {
    hide *;
    NextOffset(offset, |file|);
    var s := UploadingFile(file, offset, action);
    var next := Min(offset + MAX_UPLOAD_CHUNK_LEN, |file|);
    if replies == [] || replies[0] != TagBytes(Int1) + ToLe(offset, 4) {
      if replies != [] {
        UploadStep(h, lib, file, offset, action, replies[0]);
      }
      ConverseStops(h, lib, s, replies);
      ExpectedLength(h, file, offset, action);
    } else {
      UploadStep(h, lib, file, offset, action, replies[0]);
      ExpectedStep(h, file, offset, action);
      if next < |file| {
        ConverseStep(h, lib, s, replies, UploadingFile(file, next, action), UploadFrom(file, next)[0]);
        UploadProtocol(h, lib, file, next, action, replies[1..]);
        ExpectedLength(h, file, next, action);
        ProtocolShifts(UploadFrom(file, next)[0], TalkPlainly(h, lib, UploadingFile(file, next, action), replies[1..]).sent,
                       Expected(h, file, next, action), replies, offset);
      } else {
        ConverseStep(h, lib, s, replies, VerifyingFileUpload(|file|, h(file), action), SHA256);
        VerifyProtocol(h, lib, |file|, h(file), action, replies[1..]);
      }
    }
  }

  /** The protocol from one chunk on, from that of the next one on. */
  lemma ProtocolShifts(first: Bytes, sent: seq<Bytes>, expected: seq<Bytes>, replies: seq<Bytes>, offset: nat)
    requires |expected| >= 2 && |sent| < |replies| && replies[0] == TagBytes(Int1) + ToLe(offset, 4)
    requires forall i :: 0 <= i < |sent| && i < |expected| ==> sent[i] == expected[i]
    requires forall i :: 0 <= i < |sent| && i < |expected| - 1 ==> replies[1..][i] == TagBytes(Int1) + ToLe(offset + 2048 + 2048 * i, 4)
    ensures var s, e := [first] + sent, [first] + expected;
            && (forall i :: 0 <= i < |s| && i < |e| ==> s[i] == e[i])
            && (forall i :: 0 <= i < |s| && i < |e| - 1 ==> replies[i] == TagBytes(Int1) + ToLe(offset + 2048 * i, 4))
            && (|sent| >= |expected| ==> replies[|e| - 1] == replies[1..][|expected| - 1])
  {
    hide TagBytes, ToLe;
    forall i | 0 < i < |sent| + 1 && i < |expected|
      ensures replies[i] == TagBytes(Int1) + ToLe(offset + 2048 * i, 4)
    {
      assert replies[i] == replies[1..][i - 1];
      assert offset + 2048 + 2048 * (i - 1) == offset + 2048 * i;
    }
  }

  lemma NextOffset(offset: nat, n: nat)
    ensures var next := Min(offset + MAX_UPLOAD_CHUNK_LEN, n); next < n ==> next == offset + 2048
  {
  }

  lemma ExpectedLength(h: Hash, file: Bytes, offset: nat, action: Action)
    requires offset <= |file|
    ensures |Expected(h, file, offset, action)| >= 2
  {
  }

  lemma VerifyProtocol(h: Hash, lib: Parsers, length: nat, sha: Digest, action: Action, replies: seq<Bytes>)
    requires length < U32
    ensures var t := TalkPlainly(h, lib, VerifyingFileUpload(length, sha, action), replies);
            && (|t.sent| > 0 ==> t.sent[0] == ActRequest(action, length, sha.raw) && replies[0] == TagBytes(Biny) + sha.raw)
            && (t.ended == Some(Ok(())) ==> |t.sent| > 0)
  {
    hide PlainStep, TalkPlainly, TagBytes, ActRequest;
    var s := VerifyingFileUpload(length, sha, action);
    if replies == [] || replies[0] != TagBytes(Biny) + sha.raw {
      if replies != [] {
        VerifyStep(h, lib, length, sha, action, replies[0]);
      }
      ConverseStops(h, lib, s, replies);
    } else {
      VerifyStep(h, lib, length, sha, action, replies[0]);
      ConverseStep(h, lib, s, replies, Acting(action), ActRequest(action, length, sha.raw));
    }
  }

  /** What an honest device answers to the upload of a file: each offset, and the hash of
      what it received. */
  function HonestUploadReplies(h: Hash, file: Bytes, offset: nat): seq<Bytes>
    requires offset <= |file|
    decreases |file| - offset
  {
    var next := Min(offset + MAX_UPLOAD_CHUNK_LEN, |file|);
    [TagBytes(Int1) + ToLe(offset, 4)]
    + if next < |file| then HonestUploadReplies(h, file, next) else [TagBytes(Biny) + h(file).raw]
  }

  /** With such a device every upload arrives, and the file is acted upon. */
  lemma {:induction false} HonestUpload(h: Hash, lib: Parsers, file: Bytes, offset: nat, action: Action)
    requires offset <= |file| < U32 && (offset == 0 || offset < |file|)
    ensures TalkPlainly(h, lib, UploadingFile(file, offset, action), HonestUploadReplies(h, file, offset))
         == Talk(Acting(action), Expected(h, file, offset, action), None)
    decreases |file| - offset
  {
    hide PlainStep, TalkPlainly, Expected, TagBytes, ToLe, UploadFrom, ActRequest;
    var s := UploadingFile(file, offset, action);
    var replies := HonestUploadReplies(h, file, offset);
    var next := Min(offset + MAX_UPLOAD_CHUNK_LEN, |file|);
    UploadStep(h, lib, file, offset, action, replies[0]);
    ExpectedStep(h, file, offset, action);
    if next < |file| {
      assert replies[1..] == HonestUploadReplies(h, file, next);
      ConverseStep(h, lib, s, replies, UploadingFile(file, next, action), UploadFrom(file, next)[0]);
      HonestUpload(h, lib, file, next, action);
    } else {
      var verify, last := VerifyingFileUpload(|file|, h(file), action), replies[1..];
      assert last == [TagBytes(Biny) + h(file).raw] && |last[1..]| == 0;
      ConverseStep(h, lib, s, replies, verify, SHA256);
      VerifyStep(h, lib, |file|, h(file), action, last[0]);
      var act := ActRequest(action, |file|, h(file).raw);
      ConverseStep(h, lib, verify, last, Acting(action), act);
      ConverseNothing(h, lib, Acting(action), last[1..]);
      assert [SHA256] + ([act] + []) == [SHA256, act];
    }
  }

  lemma ConverseNothing(h: Hash, lib: Parsers, s: State, replies: seq<Bytes>)
    requires |replies| == 0
    ensures TalkPlainly(h, lib, s, replies) == Talk(s, [], None)
  {
    hide PlainStep, TalkPlainly;
    TalkUnfolds(h, lib, s, replies);
  }

  // ---- downloads ----

  /** The part of the file in a reply. */
  function ChunkOf(reply: Bytes): Bytes {
    match Downloaded(reply) case Ok(chunk) => chunk case Err(_) => []
  }

  function Gathered(replies: seq<Bytes>): Bytes {
    if replies == [] then [] else ChunkOf(replies[0]) + Gathered(replies[1..])
  }

  /** The response that a downloaded file makes, if it can be parsed. */
  function FileResponse(lib: Parsers, kind: FileKind, file: Bytes): Option<Response> {
    match kind
    case BackupFile => Some(Backup(file))
    case SignedPsbtFile => match lib.psbt(file) case None => None case Some(psbt) => Some(SignedPsbt(psbt))
  }

  function FileNumber(kind: FileKind): nat {
    if kind.BackupFile? then 0 else 1
  }

  function Downloading(kind: FileKind, expected: Bytes32, bytes: Bytes, total: nat): State {
    DownloadingFile(kind, FileNumber(kind), expected, bytes, |bytes|, total)
  }

  function Remaining(kind: FileKind, bytes: Bytes, total: nat): Bytes
    requires |bytes| <= total
  {
    Download(|bytes|, Min(MAX_UPLOAD_CHUNK_LEN, total - |bytes|), FileNumber(kind))
  }

  /** The request for what is missing after `so`. */
  predicate AsksNext(request: Bytes, kind: FileKind, so: Bytes, total: nat) {
    |so| < total && request == Remaining(kind, so, total)
  }

  /** What a reply does to a download. */
  lemma DownloadStep(h: Hash, lib: Parsers, kind: FileKind, expected: Bytes32, bytes: Bytes, total: nat, reply: Bytes)
    requires total < U32
    ensures var step := PlainStep(h, lib, Downloading(kind, expected, bytes, total), reply);
            var file := bytes + ChunkOf(reply);
            if ChunkOf(reply) == [] || |file| > total then step.1.Err?
            else if |file| < total then step == (Downloading(kind, expected, file, total), Ok(Some(Remaining(kind, file, total))))
            else if h(file).raw == expected && FileResponse(lib, kind, file).Some?
            then step == (Finished(FileResponse(lib, kind, file).value), Ok(None))
            else step.1.Err?
  {
    hide Downloaded, Download;
  }

  /** Against any device: every request asks for what is missing next, each reply brings
      some of it, so that there are at most as many as the file has bytes; and the download
      only finishes with a file of exactly the announced length and hash, which is what the
      device sent, in order. */
  lemma {:induction false} DownloadProtocol(h: Hash, lib: Parsers, kind: FileKind, expected: Bytes32, bytes: Bytes, total: nat,
                                            replies: seq<Bytes>)
    requires |bytes| <= total < U32
    ensures var t := TalkPlainly(h, lib, Downloading(kind, expected, bytes, total), replies);
            && |t.sent| <= total - |bytes|
            && (forall i :: 0 <= i < |t.sent| ==> AsksNext(t.sent[i], kind, bytes + Gathered(replies[..i + 1]), total))
            && (t.ended == Some(Ok(())) ==>
                  && |t.sent| < |replies|
                  && var file := bytes + Gathered(replies[..|t.sent| + 1]);
                     |file| == total && h(file).raw == expected
                     && FileResponse(lib, kind, file).Some? && t.s == Finished(FileResponse(lib, kind, file).value))
    decreases |replies|
  {
    hide PlainStep, TalkPlainly, ChunkOf, Download, FileResponse;
    var s := Downloading(kind, expected, bytes, total);
    if replies == [] {
      ConverseNothing(h, lib, s, replies);
    } else {
      DownloadStep(h, lib, kind, expected, bytes, total, replies[0]);
      var file := bytes + ChunkOf(replies[0]);
      GatheredOne(replies);
      if ChunkOf(replies[0]) != [] && |file| < total {
        ConverseStep(h, lib, s, replies, Downloading(kind, expected, file, total), Remaining(kind, file, total));
        DownloadProtocol(h, lib, kind, expected, file, total, replies[1..]);
        var t, rest := TalkPlainly(h, lib, s, replies), TalkPlainly(h, lib, Downloading(kind, expected, file, total), replies[1..]);
        forall i | 0 <= i < |t.sent|
          ensures AsksNext(t.sent[i], kind, bytes + Gathered(replies[..i + 1]), total)
        {
          GatheredShift(bytes, replies, i);
          if i == 0 {
            assert bytes + Gathered(replies[..1]) == file;
          } else {
            assert t.sent[i] == rest.sent[i - 1];
          }
        }
        if t.ended == Some(Ok(())) {
          GatheredShift(bytes, replies, |t.sent|);
        }
      } else {
        ConverseEnds(h, lib, s, replies);
      }
    }
  }

  lemma GatheredOne(replies: seq<Bytes>)
    requires replies != []
    ensures Gathered(replies[..1]) == ChunkOf(replies[0])
  {
    hide ChunkOf;
    assert Gathered(replies[..1][1..]) == [];
  }

  lemma GatheredShift(bytes: Bytes, replies: seq<Bytes>, i: nat)
    requires i < |replies|
    ensures bytes + Gathered(replies[..i + 1]) == (bytes + ChunkOf(replies[0])) + Gathered(replies[1..][..i])
  {
    hide ChunkOf;
    assert replies[..i + 1][1..] == replies[1..][..i];
  }

  lemma ConverseEnds(h: Hash, lib: Parsers, s: State, replies: seq<Bytes>)
    requires replies != [] && (PlainStep(h, lib, s, replies[0]).1.Err? || PlainStep(h, lib, s, replies[0]).1.value.None?)
    ensures var t, step := TalkPlainly(h, lib, s, replies), PlainStep(h, lib, s, replies[0]);
            t.sent == [] && t.s == step.0 && t.ended == Some(if step.1.Ok? then Ok(()) else Err(step.1.error))
  {
    hide PlainStep, TalkPlainly;
    TalkUnfolds(h, lib, s, replies);
  }

  function Polling(kind: FileKind): State {
    if kind.BackupFile? then PollingBackupFile else PollingSignedPsbt
  }

  function Again(kind: FileKind): Bytes {
    if kind.BackupFile? then GET_BACKUP_FILE else GET_SIGNED_TRANSACTION
  }

  lemma PollStep(h: Hash, lib: Parsers, kind: FileKind, reply: Bytes)
    ensures var step := PlainStep(h, lib, Polling(kind), reply);
            match FileReady(reply)
            case Err(_) => step.1.Err?
            case Ok(Pending) => step == (Polling(kind), Ok(Some(Again(kind))))
            case Ok(Complete(length, sha)) =>
              step == (Downloading(kind, sha, [], length), Ok(Some(Remaining(kind, [], length))))
  {
    hide FileReady, Download;
  }

  /** The reply that announces a file of this length and hash. */
  function Announcement(length: nat, sha: Bytes32): Bytes {
    TagBytes(Strx) + (ToLe(length, 4) + sha)
  }

  lemma ReadyIsAnnounced(reply: Bytes, length: nat, sha: Bytes32)
    requires FileReady(reply) == Ok(Complete(length, sha))
    ensures length < U32 && reply == Announcement(length, sha)
  {
    hide TagBytes, ParseResponse, ToLe, FromLe;
    var data := ParseResponse(reply).value.1;
    Exp256Values();
    ToLeFromLe(data[..4]);
    ResponsesAre(reply, length, sha, []);
  }

  /** Reply `j` announces the file that the replies from then up to `k` bring, and the
      state is finished with that file. */
  ghost predicate SentFile(h: Hash, lib: Parsers, kind: FileKind, replies: seq<Bytes>, j: nat, k: nat, state: State) {
    && j < k <= |replies|
    && var file := Gathered(replies[j + 1..k]);
       && |file| < U32 && replies[j] == Announcement(|file|, h(file).raw)
       && FileResponse(lib, kind, file).Some? && state == Finished(FileResponse(lib, kind, file).value)
  }

  /** A backup or a signed PSBT comes only from a file whose length and hash the device
      announced, after any number of polls, and that it then sent. */
  lemma {:induction false} FileIsAnnounced(h: Hash, lib: Parsers, kind: FileKind, replies: seq<Bytes>)
    ensures var t := TalkPlainly(h, lib, Polling(kind), replies);
            t.ended == Some(Ok(())) ==> exists j, k :: SentFile(h, lib, kind, replies, j, k, t.s)
    decreases |replies|
  {
    hide PlainStep, TalkPlainly, Gathered, FileReady, Announcement, FileResponse;
    var s := Polling(kind);
    var t := TalkPlainly(h, lib, s, replies);
    if replies == [] {
      ConverseNothing(h, lib, s, replies);
    } else {
      PollStep(h, lib, kind, replies[0]);
      match FileReady(replies[0]) {
        case Err(_) =>
          ConverseEnds(h, lib, s, replies);
        case Ok(Pending) =>
          ConverseStep(h, lib, s, replies, s, Again(kind));
          FileIsAnnounced(h, lib, kind, replies[1..]);
          if t.ended == Some(Ok(())) {
            var rest := replies[1..];
            var j: nat, k: nat :| SentFile(h, lib, kind, rest, j, k, t.s);
            assert rest[j + 1..k] == replies[j + 1 + 1..k + 1] && rest[j] == replies[j + 1];
            assert SentFile(h, lib, kind, replies, j + 1, k + 1, t.s);
          }
        case Ok(Complete(length, sha)) =>
          ReadyIsAnnounced(replies[0], length, sha);
          ConverseStep(h, lib, s, replies, Downloading(kind, sha, [], length), Remaining(kind, [], length));
          DownloadProtocol(h, lib, kind, sha, [], length, replies[1..]);
          if t.ended == Some(Ok(())) {
            var n := |TalkPlainly(h, lib, Downloading(kind, sha, [], length), replies[1..]).sent|;
            var file := Gathered(replies[1..][..n + 1]);
            assert [] + file == file;
            assert replies[1..][..n + 1] == replies[0 + 1..n + 2];
            assert SentFile(h, lib, kind, replies, 0, n + 2, t.s);
          }
      }
    }
  }

  // ---- an honest device ----

  /** The replies to the requests of a download, each with all that was asked for. */
  function HonestDownloadReplies(file: Bytes, offset: nat): seq<Bytes>
    requires offset <= |file|
    decreases |file| - offset
  {
    var next := Min(offset + MAX_UPLOAD_CHUNK_LEN, |file|);
    [TagBytes(Biny) + file[offset..next]] + if next < |file| then HonestDownloadReplies(file, next) else []
  }

  lemma ChunkOfReply(chunk: Bytes)
    ensures ChunkOf(TagBytes(Biny) + chunk) == chunk
  {
    ResponsesAre(TagBytes(Biny) + chunk, 0, seq(32, _ => 0), chunk);
  }

  lemma {:induction false} HonestDownload(h: Hash, lib: Parsers, kind: FileKind, file: Bytes, offset: nat)
    requires offset <= |file| < U32 && (offset == 0 || offset < |file|)
    ensures var t := TalkPlainly(h, lib, Downloading(kind, h(file).raw, file[..offset], |file|), HonestDownloadReplies(file, offset));
            && t.ended.Some?
            && (t.ended == Some(Ok(())) <==> file != [] && FileResponse(lib, kind, file).Some?)
            && (t.ended == Some(Ok(())) ==> t.s == Finished(FileResponse(lib, kind, file).value)
                                            && |t.sent| == (|file| - offset + 2047) / 2048 - 1)
    decreases |file| - offset
  {
    hide PlainStep, TalkPlainly, ChunkOf, FileResponse, Remaining, TagBytes;
    var expected := h(file).raw;
    var s := Downloading(kind, expected, file[..offset], |file|);
    var replies := HonestDownloadReplies(file, offset);
    var next := Min(offset + MAX_UPLOAD_CHUNK_LEN, |file|);
    ChunkOfReply(file[offset..next]);
    DownloadStep(h, lib, kind, expected, file[..offset], |file|, replies[0]);
    assert file[..offset] + file[offset..next] == file[..next];
    if next < |file| {
      assert replies[1..] == HonestDownloadReplies(file, next);
      ConverseStep(h, lib, s, replies, Downloading(kind, expected, file[..next], |file|), Remaining(kind, file[..next], |file|));
      HonestDownload(h, lib, kind, file, next);
    } else {
      assert file[..next] == file;
      ConverseEnds(h, lib, s, replies);
    }
  }

  /** With an honest device that has a file ready, the poll ends with that file in
      ceil(n / 2048) requests, if and only if it is not empty and can be parsed: an empty
      file is announced and asked for, but no reply finishes its download. */
  lemma {:induction false} HonestFile(h: Hash, lib: Parsers, kind: FileKind, file: Bytes)
    requires |file| < U32
    ensures var replies := [Announcement(|file|, h(file).raw)] + HonestDownloadReplies(file, 0);
            var t := TalkPlainly(h, lib, Polling(kind), replies);
            && t.ended.Some?
            && (t.ended == Some(Ok(())) <==> file != [] && FileResponse(lib, kind, file).Some?)
            && (t.ended == Some(Ok(())) ==> t.s == Finished(FileResponse(lib, kind, file).value)
                                            && |t.sent| == (|file| + 2047) / 2048)
  {
    hide PlainStep, TalkPlainly, HonestDownloadReplies, FileResponse, Remaining, TagBytes, FileReady;
    var announced := Announcement(|file|, h(file).raw);
    var replies := [announced] + HonestDownloadReplies(file, 0);
    ResponsesAre(announced, |file|, h(file).raw, []);
    PollStep(h, lib, kind, replies[0]);
    assert replies[1..] == HonestDownloadReplies(file, 0) && file[..0] == [];
    ConverseStep(h, lib, Polling(kind), replies, Downloading(kind, h(file).raw, [], |file|), Remaining(kind, [], |file|));
    HonestDownload(h, lib, kind, file, 0);
  }

  /** No reply at all finishes the download of a file announced as empty. */
  lemma {:induction false} EmptyFileNeverFinishes(h: Hash, lib: Parsers, kind: FileKind, expected: Bytes32, replies: seq<Bytes>)
    ensures var t := TalkPlainly(h, lib, Downloading(kind, expected, [], 0), replies);
            t.ended != Some(Ok(())) && (replies != [] ==> t.ended.Some?)
  {
    hide PlainStep, TalkPlainly, ChunkOf, FileResponse;
    var s := Downloading(kind, expected, [], 0);
    if replies == [] {
      ConverseNothing(h, lib, s, replies);
    } else {
      DownloadStep(h, lib, kind, expected, [], 0, replies[0]);
      ConverseEnds(h, lib, s, replies);
    }
  }
}
