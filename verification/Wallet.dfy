/** `LedgerWalletPolicy` of bhwi/src/ledger/wallet.rs. The descriptor template and the
    key strings are taken as the library extracts them from the policy. */
module Wallet {
  import opened Common
  import opened CompactSize
  import opened MerkleProof
  import opened StoreSpec
  import opened Store

  datatype Version = V1 | V2

  datatype LedgerWalletPolicy = LedgerWalletPolicy(name: Bytes, version: Version, template: Bytes, keys: ElementList)

  function VersionByte(v: Version): Byte {
    match v case V1 => 1 case V2 => 2
  }

  /** `serialize`; the name's length is cast to one byte. */
  function Serialize(h: Hash, p: LedgerWalletPolicy): Bytes {
    [VersionByte(p.version)] + [|p.name| % 256] + p.name
    + EncodeLen(|p.template|)
    + (if p.version == V2 then h(p.template).raw else p.template)
    + EncodeLen(|p.keys|) + ListRoot(h, p.keys).raw
  }

  function Id(h: Hash, p: LedgerWalletPolicy): Digest {
    h(Serialize(h, p))
  }

  function PolicyStore(h: Hash, p: LedgerWalletPolicy): StoreState {
    EMPTY.WithPreimage(Serialize(h, p)).WithList(p.keys).WithPreimage(p.template)
  }

  method ToStore(h: Hash, p: LedgerWalletPolicy) returns (store: DelegatedStore)
    ensures fresh(store) && store.Valid() && store.h == h && store.State() == PolicyStore(h, p)
  {
    store := new DelegatedStore(h);
    store.AddKnownPreimage(Serialize(h, p));
    var _ := store.AddKnownList(p.keys);
    store.AddKnownPreimage(p.template);
  }

  /** What a device finds in a serialized policy. */
  datatype PolicyHeader = PolicyHeader(
    version: Version, name: Bytes, templateSize: nat, template: Bytes, keyCount: nat, keysRoot: Digest)

  /** The header that describes `p`: the template itself, or its hash for version 2. */
  function Header(h: Hash, p: LedgerWalletPolicy): PolicyHeader {
    PolicyHeader(p.version, p.name, |p.template|,
                 if p.version == V2 then h(p.template).raw else p.template,
                 |p.keys|, ListRoot(h, p.keys))
  }

  function ParsePolicy(bytes: Bytes): Option<PolicyHeader> {
    if |bytes| < 2 || (bytes[0] != 1 && bytes[0] != 2) || |bytes| < 2 + (bytes[1] as nat) then None
    else
      var version := if bytes[0] == 2 then V2 else V1;
      ParseRest(version, bytes[2..][..bytes[1]], bytes[2..][bytes[1]..])
  }

  /** What follows the name in a policy. */
  function ParseRest(version: Version, name: Bytes, rest: Bytes): Option<PolicyHeader> {
    match Decode(rest)
    case Err(_) => None
    case Ok(Decoded(templateSize, read)) => if |rest| < read then None else ParseBody(version, name, templateSize, rest[read..])
  }

  function ParseBody(version: Version, name: Bytes, templateSize: nat, body: Bytes): Option<PolicyHeader> {
    var inline := if version == V2 then 32 else templateSize;
    if |body| < inline then None
    else
      match Decode(body[inline..])
      case Err(_) => None
      case Ok(Decoded(keyCount, read)) =>
        if |body[inline..]| != read + 32 then None
        else Some(PolicyHeader(version, name, templateSize, body[..inline], keyCount, Digest(body[inline..][read..])))
  }

  lemma ParsesBody(h: Hash, p: LedgerWalletPolicy)
    requires |p.template| < U64 && |p.keys| < U64
    ensures var template := if p.version == V2 then h(p.template).raw else p.template;
            ParseBody(p.version, p.name, |p.template|, template + EncodeLen(|p.keys|) + ListRoot(h, p.keys).raw)
            == Some(Header(h, p))
  {
    hide ListRoot, Decode, Encode;
    var template := if p.version == V2 then h(p.template).raw else p.template;
    var tail := EncodeLen(|p.keys|) + ListRoot(h, p.keys).raw;
    var body := template + EncodeLen(|p.keys|) + ListRoot(h, p.keys).raw;
    assert body == template + tail;
    assert body[|template|..] == tail && body[..|template|] == template;
    DecodeEncode(|p.keys|, ListRoot(h, p.keys).raw);
    assert tail[|EncodeLen(|p.keys|)|..] == ListRoot(h, p.keys).raw;
    assert Digest(ListRoot(h, p.keys).raw) == ListRoot(h, p.keys);
  }

  lemma SkipsName(version: Byte, name: Bytes, rest: Bytes)
    requires |name| < 256
    ensures var bytes := [version] + [|name|] + name + rest;
            && |bytes| >= 2 + |name| && bytes[0] == version && bytes[1] == |name|
            && bytes[2..][..|name|] == name && bytes[2..][|name|..] == rest
  {
    var bytes := [version] + [|name|] + name + rest;
    assert bytes[2..] == name + rest;
  }

  lemma ParsesName(version: Version, name: Bytes, rest: Bytes)
    requires |name| < 256
    ensures ParsePolicy([VersionByte(version)] + [|name|] + name + rest) == ParseRest(version, name, rest)
  {
    hide Decode, ParseBody;
    SkipsName(VersionByte(version), name, rest);
  }

  lemma {:induction false} ParsesPolicy(h: Hash, p: LedgerWalletPolicy)
    requires |p.name| < 256 && |p.template| < U64 && |p.keys| < U64
    ensures ParsePolicy(Serialize(h, p)) == Some(Header(h, p))
  {
    hide ListRoot, Decode, Encode, ParseBody, ParsePolicy, Header;
    var template := if p.version == V2 then h(p.template).raw else p.template;
    var body := template + EncodeLen(|p.keys|) + ListRoot(h, p.keys).raw;
    var rest := EncodeLen(|p.template|) + body;
    assert Serialize(h, p) == [VersionByte(p.version)] + [|p.name|] + p.name + rest;
    hide Serialize, EncodeLen;
    ParsesName(p.version, p.name, rest);
    EncodeLenIs(|p.template|);
    DecodeEncode(|p.template|, body);
    assert rest[|EncodeLen(|p.template|)|..] == body;
    ParsesBody(h, p);
  }

  lemma ParsedNameIsShort(bytes: Bytes)
    ensures ParsePolicy(bytes).Some? ==> |ParsePolicy(bytes).value.name| < 256
  {
    hide Decode;
  }

  /** A device can read a serialized policy back exactly when the name has at most 255
      bytes: the one-byte length does not describe a longer name. */
  lemma {:induction false} PolicyIsReadable(h: Hash, p: LedgerWalletPolicy)
    requires |p.template| < U64 && |p.keys| < U64
    ensures ParsePolicy(Serialize(h, p)) == Some(Header(h, p)) <==> |p.name| <= 255
  {
    hide ParsePolicy, Serialize;
    ParsedNameIsShort(Serialize(h, p));
    if |p.name| < 256 {
      ParsesPolicy(h, p);
    }
  }
}
