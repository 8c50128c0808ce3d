/** Requests and responses of the Coldcard: bhwi/src/coldcard/api.rs. */
module ColdcardApi {
  import opened Common

  const MAX_UPLOAD_CHUNK_LEN: nat := 2048

  datatype ColdcardError = Encryption | MissingCommandInfo | Device | Serialization | UnexpectedResponse | Panicked

  // ---- requests ----

  function StartEncryption(key: Bytes): Bytes {
    [0x6E, 0x63, 0x72, 0x79] + ToLe(1, 4) + key
  }

  const START_BACKUP: Bytes := [0x62, 0x61, 0x63, 0x6B]
  const GET_SIGNED_MESSAGE: Bytes := [0x73, 0x6D, 0x6F, 0x6B]
  const SHA256: Bytes := [0x73, 0x68, 0x61, 0x32]
  const GET_SIGNED_TRANSACTION: Bytes := [0x73, 0x74, 0x6F, 0x6B]
  const GET_BACKUP_FILE: Bytes := [0x62, 0x6B, 0x6F, 0x6B]

  function Upload(offset: nat, total: nat, data: Bytes): Bytes {
    [0x75, 0x70, 0x6C, 0x64] + ToLe(offset, 4) + ToLe(total, 4) + data
  }

  function Download(offset: nat, length: nat, fileNumber: nat): Bytes {
    [0x64, 0x77, 0x6C, 0x64] + ToLe(offset, 4) + ToLe(length, 4) + ToLe(fileNumber, 4)
  }

  function SignTransaction(length: nat, sha: Bytes): Bytes {
    [0x73, 0x74, 0x78, 0x6E] + ToLe(length, 4) + ToLe(0, 4) + sha
  }

  function MultisigEnroll(length: nat, sha: Bytes): Bytes {
    [0x65, 0x6E, 0x72, 0x6C] + ToLe(length, 4) + sha
  }

  // ---- requests as a device reads them ----

  datatype UploadFields = UploadFields(offset: nat, total: nat, data: Bytes)

  function ReadUpload(request: Bytes): Option<UploadFields> {
    if |request| >= 12 && request[..4] == [0x75, 0x70, 0x6C, 0x64] then
      Some(UploadFields(FromLe(request[4..8]), FromLe(request[8..12]), request[12..]))
    else None
  }

  datatype DownloadFields = DownloadFields(offset: nat, length: nat, fileNumber: nat)

  function ReadDownload(request: Bytes): Option<DownloadFields> {
    if |request| == 16 && request[..4] == [0x64, 0x77, 0x6C, 0x64] then
      Some(DownloadFields(FromLe(request[4..8]), FromLe(request[8..12]), FromLe(request[12..])))
    else None
  }

  lemma {:induction false} ReadsUpload(offset: nat, total: nat, data: Bytes)
    requires offset < U32 && total < U32
    ensures ReadUpload(Upload(offset, total, data)) == Some(UploadFields(offset, total, data))
  {
    hide ToLe, FromLe;
    Exp256Values();
    FromLeToLe(offset, 4);
    FromLeToLe(total, 4);
    var r := Upload(offset, total, data);
    assert r[..4] == [0x75, 0x70, 0x6C, 0x64] && r[4..8] == ToLe(offset, 4) && r[8..12] == ToLe(total, 4) && r[12..] == data;
  }

  lemma {:induction false} ReadsDownload(offset: nat, length: nat, fileNumber: nat)
    requires offset < U32 && length < U32 && fileNumber < U32
    ensures ReadDownload(Download(offset, length, fileNumber)) == Some(DownloadFields(offset, length, fileNumber))
  {
    hide ToLe, FromLe;
    Exp256Values();
    FromLeToLe(offset, 4);
    FromLeToLe(length, 4);
    FromLeToLe(fileNumber, 4);
    var r := Download(offset, length, fileNumber);
    assert r[..4] == [0x64, 0x77, 0x6C, 0x64] && r[4..8] == ToLe(offset, 4) && r[8..12] == ToLe(length, 4)
        && r[12..] == ToLe(fileNumber, 4);
  }

  // ---- responses ----

  datatype Tag = Okay | Fram | ErrTag | Refu | Busy | Biny | Int1 | Int2 | Int3 | MyPb | Asci | Smrx | Strx

  function TagBytes(tag: Tag): (r: Bytes)
    ensures |r| == 4
  {
    match tag
    case Okay => [0x6F, 0x6B, 0x61, 0x79]
    case Fram => [0x66, 0x72, 0x61, 0x6D]
    case ErrTag => [0x65, 0x72, 0x72, 0x5F]
    case Refu => [0x72, 0x65, 0x66, 0x75]
    case Busy => [0x62, 0x75, 0x73, 0x79]
    case Biny => [0x62, 0x69, 0x6E, 0x79]
    case Int1 => [0x69, 0x6E, 0x74, 0x31]
    case Int2 => [0x69, 0x6E, 0x74, 0x32]
    case Int3 => [0x69, 0x6E, 0x74, 0x33]
    case MyPb => [0x6D, 0x79, 0x70, 0x62]
    case Asci => [0x61, 0x73, 0x63, 0x69]
    case Smrx => [0x73, 0x6D, 0x72, 0x78]
    case Strx => [0x73, 0x74, 0x72, 0x78]
  }

  function TagOf(b: Bytes): Option<Tag> {
    if b == TagBytes(Okay) then Some(Okay)
    else if b == TagBytes(Fram) then Some(Fram)
    else if b == TagBytes(ErrTag) then Some(ErrTag)
    else if b == TagBytes(Refu) then Some(Refu)
    else if b == TagBytes(Busy) then Some(Busy)
    else if b == TagBytes(Biny) then Some(Biny)
    else if b == TagBytes(Int1) then Some(Int1)
    else if b == TagBytes(Int2) then Some(Int2)
    else if b == TagBytes(Int3) then Some(Int3)
    else if b == TagBytes(MyPb) then Some(MyPb)
    else if b == TagBytes(Asci) then Some(Asci)
    else if b == TagBytes(Smrx) then Some(Smrx)
    else if b == TagBytes(Strx) then Some(Strx)
    else None
  }

  lemma TagOfIs(b: Bytes, tag: Tag)
    ensures TagOf(b) == Some(tag) <==> b == TagBytes(tag)
  {
    if b == TagBytes(tag) {
      assert b[0] == TagBytes(tag)[0] && b[1] == TagBytes(tag)[1] && b[3] == TagBytes(tag)[3];
    }
  }

  function ParseResponse(res: Bytes): Result<(Tag, Bytes), ColdcardError> {
    if |res| < 4 then Err(Serialization)
    else
      match TagOf(res[..4])
      case None => Err(Serialization)
      case Some(tag) => Ok((tag, res[4..]))
  }

  lemma {:induction false} ParseResponseIs(res: Bytes, tag: Tag, data: Bytes)
    ensures ParseResponse(res) == Ok((tag, data)) <==> res == TagBytes(tag) + data
  {
    hide TagOf, TagBytes;
    if |res| >= 4 {
      TagOfIs(res[..4], tag);
      assert res == res[..4] + res[4..];
      assert (TagBytes(tag) + data)[..4] == TagBytes(tag) && (TagBytes(tag) + data)[4..] == data;
    }
  }

  function ExpectResponse(res: Bytes, expected: Tag): Result<Bytes, ColdcardError> {
    match ParseResponse(res)
    case Err(error) => Err(error)
    case Ok((tag, data)) => if tag == expected then Ok(data) else Err(UnexpectedResponse)
  }

  function DecodeU32(bytes: Bytes): Result<nat, ColdcardError> {
    if |bytes| == 4 then Ok(FromLe(bytes)) else Err(Serialization)
  }

  function Acknowledged(res: Bytes): Result<nat, ColdcardError> {
    match ExpectResponse(res, Int1)
    case Err(error) => Err(error)
    case Ok(data) => DecodeU32(data)
  }

  function FileHash(res: Bytes): Result<Bytes32, ColdcardError> {
    match ExpectResponse(res, Biny)
    case Err(error) => Err(error)
    case Ok(data) => if |data| == 32 then Ok(data) else Err(Serialization)
  }

  datatype Started = StartedOk | StartedBusy

  /** `response::sign_transaction`: everything but okay and busy is an error. */
  function SigningStarted(res: Bytes): Result<Started, ColdcardError> {
    match ParseResponse(res)
    case Err(error) => Err(error)
    case Ok((Okay, _)) => Ok(StartedOk)
    case Ok((Busy, _)) => Ok(StartedBusy)
    case Ok(_) => Err(UnexpectedResponse)
  }

  datatype FileStatus = Pending | Complete(length: nat, sha: Bytes32)

  /** `response::signed_transaction`, also used for backups. */
  function FileReady(res: Bytes): Result<FileStatus, ColdcardError> {
    match ParseResponse(res)
    case Err(error) => Err(error)
    case Ok((Okay, _)) => Ok(Pending)
    case Ok((Busy, _)) => Ok(Pending)
    case Ok((Strx, data)) => if |data| == 36 then Ok(Complete(FromLe(data[..4]), data[4..])) else Err(Serialization)
    case Ok(_) => Err(UnexpectedResponse)
  }

  function Downloaded(res: Bytes): Result<Bytes, ColdcardError> {
    ExpectResponse(res, Biny)
  }

  /** Exactly these byte strings are understood as these responses. */
  lemma {:induction false} ResponsesAre(res: Bytes, n: nat, sha: Bytes32, chunk: Bytes)
    requires n < U32
    ensures Acknowledged(res) == Ok(n) <==> res == TagBytes(Int1) + ToLe(n, 4)
    ensures FileHash(res) == Ok(sha) <==> res == TagBytes(Biny) + sha
    ensures Downloaded(res) == Ok(chunk) <==> res == TagBytes(Biny) + chunk
    ensures FileReady(res) == Ok(Complete(n, sha)) <==> res == TagBytes(Strx) + (ToLe(n, 4) + sha)
  {
    hide ToLe, FromLe, TagBytes, ParseResponse;
    Exp256Values();
    FromLeToLe(n, 4);
    ParseResponseIs(res, Int1, ToLe(n, 4));
    ParseResponseIs(res, Biny, sha);
    ParseResponseIs(res, Biny, chunk);
    ParseResponseIs(res, Strx, ToLe(n, 4) + sha);
    assert (ToLe(n, 4) + sha)[..4] == ToLe(n, 4) && (ToLe(n, 4) + sha)[4..] == sha;
    if Acknowledged(res) == Ok(n) {
      ToLeFromLe(ParseResponse(res).value.1);
    }
    if FileReady(res) == Ok(Complete(n, sha)) {
      var data := ParseResponse(res).value.1;
      ToLeFromLe(data[..4]);
      assert data == data[..4] + data[4..];
    }
  }

  /** Parsers of the libraries, with parsed values as byte strings. */
  datatype Parsers = Parsers(
    isUtf8: Bytes -> bool,
    xpub: Bytes -> Option<Bytes>,
    fingerprint: Bytes -> Bytes,
    compact: Bytes -> Option<Bytes>,
    psbt: Bytes -> Option<Bytes>)

  datatype Response =
    | OkResponse | BusyResponse
    | Version(text: Bytes)
    | MasterFingerprint(fingerprint: Bytes)
    | Xpub(xpub: Bytes)
    | MyPub(key: Bytes, xpubFingerprint: Bytes, masterXpub: Option<Bytes>)
    | Signature(header: Byte, signature: Bytes)
    | Address(address: Bytes)
    | Backup(file: Bytes)
    | SignedPsbt(psbt: Bytes)
    | WalletRegistrationPending

  function XpubOf(lib: Parsers, res: Bytes): Result<Bytes, ColdcardError> {
    match ExpectResponse(res, Asci)
    case Err(error) => Err(error)
    case Ok(data) =>
      if !lib.isUtf8(data) then Err(Serialization)
      else (match lib.xpub(data) case None => Err(Serialization) case Some(xpub) => Ok(xpub))
  }

  function AddressOf(lib: Parsers, res: Bytes): Result<Response, ColdcardError> {
    match ParseResponse(res)
    case Err(error) => Err(error)
    case Ok((Asci, data)) => if lib.isUtf8(data) then Ok(Address(data)) else Err(Serialization)
    case Ok((Refu, _)) => Ok(OkResponse)
    case Ok((ErrTag, _)) => Err(Device)
    case Ok(_) => Err(UnexpectedResponse)
  }

  function VersionOf(lib: Parsers, res: Bytes): Result<Response, ColdcardError> {
    match ExpectResponse(res, Asci)
    case Err(error) => Err(error)
    case Ok(data) => if lib.isUtf8(data) then Ok(Version(data)) else Err(Serialization)
  }

  function MyPubOf(lib: Parsers, res: Bytes): Result<Response, ColdcardError> {
    match ExpectResponse(res, MyPb)
    case Err(error) => Err(error)
    case Ok(data) =>
      if |data| < 72 then Err(Serialization)
      else
        var n := FromLe(data[68..72]);
        if n == 0 || 72 + n > |data| then Ok(MyPub(data[..64], data[64..68], None))
        else if !lib.isUtf8(data[72..72 + n]) then Err(Serialization)
        else
          match lib.xpub(data[72..72 + n])
          case None => Err(Serialization)
          case Some(xpub) => Ok(MyPub(data[..64], data[64..68], Some(xpub)))
  }

  /** `response::sign_message`, which slices its data unchecked. */
  function MessageSignature(lib: Parsers, res: Bytes): Result<Response, ColdcardError> {
    match ParseResponse(res)
    case Err(error) => Err(error)
    case Ok((Okay, _)) => Ok(OkResponse)
    case Ok((Busy, _)) => Ok(BusyResponse)
    case Ok((Smrx, data)) =>
      if |data| < 4 then Err(Panicked)
      else
        var n := FromLe(data[..4]);
        if |data| < 4 + n then Err(Serialization)
        else if |data| == 4 + n then Err(Panicked)
        else
          (match lib.compact(data[4 + n + 1..])
           case None => Err(Serialization)
           case Some(signature) => Ok(Signature(data[4 + n], signature)))
    case Ok(_) => Err(UnexpectedResponse)
  }

  /** Decoding a message signature panics exactly on these responses. */
  lemma {:induction false} MessageSignaturePanics(lib: Parsers, res: Bytes)
    ensures MessageSignature(lib, res) == Err(Panicked) <==>
            |res| >= 4 && res[..4] == TagBytes(Smrx) && (|res| < 8 || |res| == 8 + FromLe(res[4..8]))
  {
    hide TagBytes, TagOf, FromLe;
    if |res| >= 4 {
      TagOfIs(res[..4], Smrx);
      if |res| >= 8 {
        assert res[4..][..4] == res[4..8];
      }
    }
  }

  // ---- the words of the protocol ----

  /** These bytes are this text. */
  predicate Spells(bytes: Bytes, text: string) {
    |bytes| == |text| && forall i :: 0 <= i < |text| ==> bytes[i] == text[i] as int
  }

  /** The requests of four letters, and what follows the letters in the others. */
  lemma {:induction false} RequestsAre(key: Bytes, length: nat, sha: Bytes)
    requires length < U32
    ensures Spells(START_BACKUP, "back") && Spells(GET_BACKUP_FILE, "bkok") && Spells(SHA256, "sha2")
    ensures Spells(GET_SIGNED_MESSAGE, "smok") && Spells(GET_SIGNED_TRANSACTION, "stok")
    ensures var r := StartEncryption(key);
            |r| >= 8 && Spells(r[..4], "ncry") && FromLe(r[4..8]) == 1 && r[8..] == key
    ensures var r := SignTransaction(length, sha);
            |r| >= 12 && Spells(r[..4], "stxn") && FromLe(r[4..8]) == length && FromLe(r[8..12]) == 0 && r[12..] == sha
    ensures var r := MultisigEnroll(length, sha);
            |r| >= 8 && Spells(r[..4], "enrl") && FromLe(r[4..8]) == length && r[8..] == sha
    ensures var r := Upload(length, length, sha); Spells(r[..4], "upld")
    ensures var r := Download(length, length, length); Spells(r[..4], "dwld")
  {
    hide ToLe, FromLe;
    Exp256Values();
    FromLeToLe(1, 4);
    FromLeToLe(0, 4);
    FromLeToLe(length, 4);
    var r := StartEncryption(key);
    assert r[..4] == [0x6E, 0x63, 0x72, 0x79] && r[4..8] == ToLe(1, 4) && r[8..] == key;
    var t := SignTransaction(length, sha);
    assert t[..4] == [0x73, 0x74, 0x78, 0x6E] && t[4..8] == ToLe(length, 4) && t[8..12] == ToLe(0, 4) && t[12..] == sha;
    var e := MultisigEnroll(length, sha);
    assert e[..4] == [0x65, 0x6E, 0x72, 0x6C] && e[4..8] == ToLe(length, 4) && e[8..] == sha;
  }

  /** The words that responses begin with. */
  lemma {:induction false} TagsAre()
    ensures Spells(TagBytes(Okay), "okay") && Spells(TagBytes(Fram), "fram") && Spells(TagBytes(ErrTag), "err_")
    ensures Spells(TagBytes(Refu), "refu") && Spells(TagBytes(Busy), "busy") && Spells(TagBytes(Biny), "biny")
    ensures Spells(TagBytes(Int1), "int1") && Spells(TagBytes(Int2), "int2") && Spells(TagBytes(Int3), "int3")
    ensures Spells(TagBytes(MyPb), "mypb") && Spells(TagBytes(Asci), "asci") && Spells(TagBytes(Smrx), "smrx")
    ensures Spells(TagBytes(Strx), "strx")
  {
  }

  // ---- what the other responses hold ----

  /** A word and what follows it. */
  ghost predicate Says(res: Bytes, word: string, data: Bytes) {
    |res| >= 4 && Spells(res[..4], word) && res[4..] == data
  }

  lemma SpellsTag(b: Bytes, tag: Tag, word: string)
    requires |b| == 4 && Spells(TagBytes(tag), word)
    ensures Spells(b, word) <==> TagOf(b) == Some(tag)
  {
    TagOfIs(b, tag);
    if Spells(b, word) {
      assert b == TagBytes(tag);
    }
  }

  lemma SaysIs(res: Bytes, tag: Tag, word: string, data: Bytes)
    requires Spells(TagBytes(tag), word)
    ensures Says(res, word, data) <==> ParseResponse(res) == Ok((tag, data))
  {
    hide TagOf, Spells, TagBytes;
    if |res| >= 4 {
      SpellsTag(res[..4], tag, word);
    }
  }

  /** The texts: an extended key, an address, a version, each for the text that it is; an address
      may also be refused, and an error is one. */
  lemma {:induction false} TextsAre(lib: Parsers, res: Bytes, text: Bytes)
    requires Says(res, "asci", text)
    ensures XpubOf(lib, res) == (if lib.isUtf8(text) && lib.xpub(text).Some? then Ok(lib.xpub(text).value) else Err(Serialization))
    ensures AddressOf(lib, res) == if lib.isUtf8(text) then Ok(Address(text)) else Err(Serialization)
    ensures VersionOf(lib, res) == if lib.isUtf8(text) then Ok(Version(text)) else Err(Serialization)
  {
    hide ParseResponse, TagBytes, Spells, Says;
    TagsAre();
    SaysIs(res, Asci, "asci", text);
  }

  lemma {:induction false} OtherAnswers(lib: Parsers, res: Bytes, data: Bytes)
    ensures Says(res, "refu", data) ==> AddressOf(lib, res) == Ok(OkResponse)
    ensures Says(res, "err_", data) ==> AddressOf(lib, res) == Err(Device)
    ensures Says(res, "okay", data) ==>
              SigningStarted(res) == Ok(StartedOk) && FileReady(res) == Ok(Pending) && MessageSignature(lib, res) == Ok(OkResponse)
    ensures Says(res, "busy", data) ==>
              SigningStarted(res) == Ok(StartedBusy) && FileReady(res) == Ok(Pending) && MessageSignature(lib, res) == Ok(BusyResponse)
    ensures Says(res, "refu", data) ==> SigningStarted(res).Err? && FileReady(res).Err? && MessageSignature(lib, res).Err?
  {
    hide ParseResponse, TagBytes, Spells, Says, FromLe;
    TagsAre();
    SaysIs(res, Refu, "refu", data);
    SaysIs(res, ErrTag, "err_", data);
    SaysIs(res, Okay, "okay", data);
    SaysIs(res, Busy, "busy", data);
  }

  /** The key of the Coldcard, the fingerprint of its master key, and that key, if it is told. */
  lemma {:induction false} MyPubIs(lib: Parsers, res: Bytes, key: Bytes, fingerprint: Bytes, text: Bytes, more: Bytes)
    requires |key| == 64 && |fingerprint| == 4 && |text| < U32
    requires Says(res, "mypb", key + fingerprint + ToLe(|text|, 4) + text + more)
    ensures MyPubOf(lib, res) ==
            if text == [] then Ok(MyPub(key, fingerprint, None))
            else if !lib.isUtf8(text) || lib.xpub(text).None? then Err(Serialization)
            else Ok(MyPub(key, fingerprint, lib.xpub(text)))
  {
    hide ParseResponse, TagBytes, Spells, Says, FromLe, ToLe;
    var data := key + fingerprint + ToLe(|text|, 4) + text + more;
    TagsAre();
    SaysIs(res, MyPb, "mypb", data);
    Exp256Values();
    FromLeToLe(|text|, 4);
    assert data[..64] == key && data[64..68] == fingerprint && data[68..72] == ToLe(|text|, 4) && data[72..72 + |text|] == text;
  }

  /** A message signature: the length of the address, the address, the header byte, and the
      signature. */
  lemma {:induction false} SignatureIs(lib: Parsers, res: Bytes, address: Bytes, header: Byte, signature: Bytes)
    requires |address| < U32 && Says(res, "smrx", ToLe(|address|, 4) + address + [header] + signature)
    ensures MessageSignature(lib, res) ==
            match lib.compact(signature) case Some(parsed) => Ok(Signature(header, parsed)) case None => Err(Serialization)
  {
    hide ParseResponse, TagBytes, Spells, Says, FromLe, ToLe;
    var data := ToLe(|address|, 4) + address + [header] + signature;
    TagsAre();
    SaysIs(res, Smrx, "smrx", data);
    Exp256Values();
    FromLeToLe(|address|, 4);
    assert data[..4] == ToLe(|address|, 4) && data[4 + |address|] == header && data[4 + |address| + 1..] == signature;
  }
}
