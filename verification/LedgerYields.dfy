/** Signatures that a Ledger device yields, and how they get into the PSBT:
    `apply_psbt_signature` and `parse_sign_psbt_yielded` of bhwi/src/ledger/mod.rs and
    `PartialSignature::from_slice` of bhwi/src/ledger/psbt.rs. */
module LedgerYields {
  import opened Common
  import opened CompactSize
  import opened PsbtFields

  /** The library's parsers of keys and signatures, with values as byte strings. */
  datatype Library = Library(
    publicKey: Bytes -> Option<Bytes>,
    xOnlyKey: Bytes -> Option<Bytes>,
    ecdsaSignature: Bytes -> Option<Bytes>,
    taprootSignature: Bytes -> Option<Bytes>)

  datatype Signed = Signed(slot: Slot, signature: Bytes)

  /** `PartialSignature::from_slice`. */
  function ParsePartial(lib: Library, slice: Bytes): Option<Signed> {
    if slice == [] || slice[0] >= |slice| then None
    else
      var keyLen: nat := slice[0];
      var signature := slice[keyLen + 1..];
      if keyLen == 64 then
        match (lib.xOnlyKey(slice[1..33]), lib.taprootSignature(signature))
        case (Some(key), Some(sig)) => Some(Signed(TapScript(key, slice[33..65]), sig))
        case _ => None
      else if keyLen == 32 then
        match (lib.xOnlyKey(slice[1..33]), lib.taprootSignature(signature))
        case (Some(_), Some(sig)) => Some(Signed(TapKey, sig))
        case _ => None
      else
        match (lib.publicKey(slice[1..keyLen + 1]), lib.ecdsaSignature(signature))
        case (Some(key), Some(sig)) => Some(Signed(Ecdsa(key), sig))
        case _ => None
  }

  /** A yield names an input; MuSig2 yields carry nothing that is stored. */
  datatype Yield = Yield(input: nat, signed: Option<Signed>)

  const RESERVED_TAGS: nat := 0x8000_0000

  function ParseYield(lib: Library, data: Bytes): Option<Yield> {
    match Decode(data)
    case Err(_) => None
    case Ok(Decoded(tag, read)) =>
      DecodeIsCanonical(data);
      if tag >= RESERVED_TAGS then
        match Decode(data[read..])
        case Err(_) => None
        case Ok(Decoded(input, _)) => Some(Yield(input, None))
      else
        match ParsePartial(lib, data[read..])
        case None => None
        case Some(signed) => Some(Yield(tag, Some(signed)))
  }

  /** The inputs of a PSBT, updated in place. */
  class PsbtInputs<T> {
    var inputs: seq<PsbtInput<T>>

    constructor (inputs: seq<PsbtInput<T>>)
      ensures this.inputs == inputs
    {
      this.inputs := inputs;
    }

    /** `apply_psbt_signature`: the index is checked before the kind of the yield. */
    method Apply(lib: Library, data: Bytes) returns (ok: bool)
      modifies this
      ensures ok <==> ApplyOne(lib, old(inputs), data).Some?
      ensures inputs == if ok then ApplyOne(lib, old(inputs), data).value else old(inputs)
    {
      var parsed := ParseYield(lib, data);
      if parsed.None? {
        return false;
      }
      var Yield(index, signed) := parsed.value;
      if index >= |inputs| {
        return false;
      }
      if signed.None? {
        return true;
      }
      inputs := inputs[index := inputs[index].Insert(signed.value.slot, signed.value.signature)];
      ok := true;
    }

    /** All yields in order; the first bad one ends it. */
    method ApplyAll(lib: Library, yielded: seq<Bytes>) returns (ok: bool)
      modifies this
      ensures ok <==> Applied(lib, old(inputs), yielded).Some?
      ensures ok ==> inputs == Applied(lib, old(inputs), yielded).value
    {
      for i := 0 to |yielded|
        invariant Applied(lib, old(inputs), yielded[..i]) == Some(inputs)
      {
        assert yielded[..i + 1][..i] == yielded[..i];
        ok := Apply(lib, yielded[i]);
        if !ok {
          AppliedPrefix(lib, old(inputs), yielded, i + 1);
          return false;
        }
      }
      assert yielded[..|yielded|] == yielded;
      ok := true;
    }
  }

  function ApplyOne<T>(lib: Library, inputs: seq<PsbtInput<T>>, data: Bytes): (r: Option<seq<PsbtInput<T>>>)
    ensures r.Some? ==> |r.value| == |inputs|
  {
    match ParseYield(lib, data)
    case None => None
    case Some(Yield(index, signed)) =>
      if index >= |inputs| then None
      else if signed.None? then Some(inputs)
      else Some(inputs[index := inputs[index].Insert(signed.value.slot, signed.value.signature)])
  }

  function Applied<T>(lib: Library, inputs: seq<PsbtInput<T>>, yielded: seq<Bytes>): (r: Option<seq<PsbtInput<T>>>)
    ensures r.Some? ==> |r.value| == |inputs|
  {
    if yielded == [] then Some(inputs)
    else
      match Applied(lib, inputs, yielded[..|yielded| - 1])
      case None => None
      case Some(before) => ApplyOne(lib, before, yielded[|yielded| - 1])
  }

  lemma {:induction false} AppliedPrefix<T>(lib: Library, inputs: seq<PsbtInput<T>>, yielded: seq<Bytes>, n: nat)
    requires n <= |yielded| && Applied(lib, inputs, yielded[..n]).None?
    ensures Applied(lib, inputs, yielded).None?
  {
    if n == |yielded| {
      assert yielded[..n] == yielded;
    } else {
      assert yielded[..|yielded| - 1][..n] == yielded[..n];
      AppliedPrefix(lib, inputs, yielded[..|yielded| - 1], n);
    }
  }

  /** The signature of the last yield for one slot of one input. */
  function LastYield(lib: Library, yielded: seq<Bytes>, input: nat, slot: Slot): Option<Bytes> {
    if yielded == [] then None
    else
      match ParseYield(lib, yielded[|yielded| - 1])
      case Some(Yield(i, Some(Signed(s, signature)))) =>
        if i == input && s == slot then Some(signature) else LastYield(lib, yielded[..|yielded| - 1], input, slot)
      case _ => LastYield(lib, yielded[..|yielded| - 1], input, slot)
  }

  /** The yields are all applied if and only if every one parses and names an input. */
  lemma {:induction false} AppliedSucceeds<T>(lib: Library, inputs: seq<PsbtInput<T>>, yielded: seq<Bytes>)
    ensures Applied(lib, inputs, yielded).Some? <==>
            forall y :: y in yielded ==> ParseYield(lib, y).Some? && ParseYield(lib, y).value.input < |inputs|
  {
    hide ParseYield;
    if yielded != [] {
      var init, last := yielded[..|yielded| - 1], yielded[|yielded| - 1];
      AppliedSucceeds(lib, inputs, init);
      assert yielded == init + [last];
    }
  }

  /** The signed PSBT is the original with, in every slot, the signature of the last
      yield for that slot, and with everything else as it was. */
  lemma {:induction false} AppliedIsLast<T>(lib: Library, inputs: seq<PsbtInput<T>>, yielded: seq<Bytes>, i: nat, slot: Slot)
    requires i < |inputs| && Applied(lib, inputs, yielded).Some?
    ensures var signed := Applied(lib, inputs, yielded).value[i];
            && signed.rest == inputs[i].rest
            && signed.Get(slot) == (match LastYield(lib, yielded, i, slot)
                                    case Some(signature) => Some(signature)
                                    case None => inputs[i].Get(slot))
  {
    hide ParseYield;
    if yielded != [] {
      AppliedIsLast(lib, inputs, yielded[..|yielded| - 1], i, slot);
    }
  }

  // ---- yields, as bytes ----

  /** What a device sends in a yield: a signature for an input with the key that made it, or
      something of MuSig2 under a tag of its own. */
  datatype RawYield =
    | Partial(input: nat, key: Bytes, signature: Bytes)
    | MuSig2(tag: nat, input: nat, more: Bytes)

  predicate Sendable(y: RawYield) {
    match y
    case Partial(input, key, _) => input < 0x8000_0000 && |key| <= 255
    case MuSig2(tag, input, _) => 0x8000_0000 <= tag < U64 && input < U64
  }

  type DeviceYield = y: RawYield | Sendable(y) witness Partial(0, [], [])

  function YieldBytes(y: DeviceYield): Bytes {
    match y
    case Partial(input, key, signature) => Encode(input) + [|key|] + key + signature
    case MuSig2(tag, input, more) => Encode(tag) + Encode(input) + more
  }

  /** Where a signature under a key belongs: a key of 32 bytes signs for the key path, 64 bytes
      are a key and the leaf of a script path, and everything else is a key of ECDSA. */
  function SlotOf(lib: Library, key: Bytes): Option<Slot> {
    if |key| == 32 then (if lib.xOnlyKey(key).Some? then Some(TapKey) else None)
    else if |key| == 64 then
      (match lib.xOnlyKey(key[..32]) case Some(x) => Some(TapScript(x, key[32..])) case None => None)
    else (match lib.publicKey(key) case Some(k) => Some(Ecdsa(k)) case None => None)
  }

  function SignatureOf(lib: Library, key: Bytes, signature: Bytes): Option<Bytes> {
    if |key| == 32 || |key| == 64 then lib.taprootSignature(signature) else lib.ecdsaSignature(signature)
  }

  /** The host can make use of the yield. */
  predicate Usable(lib: Library, y: DeviceYield) {
    y.Partial? ==> SlotOf(lib, y.key).Some? && SignatureOf(lib, y.key, y.signature).Some?
  }

  /** What it says: a signature in its slot, or nothing that is stored. */
  function Meaning(lib: Library, y: DeviceYield): Yield
    requires Usable(lib, y)
  {
    Yield(y.input, if y.MuSig2? then None
                   else Some(Signed(SlotOf(lib, y.key).value, SignatureOf(lib, y.key, y.signature).value)))
  }

  lemma PartialIs(lib: Library, key: Bytes, signature: Bytes)
    requires |key| <= 255
    ensures ParsePartial(lib, [|key|] + key + signature) ==
            match (SlotOf(lib, key), SignatureOf(lib, key, signature))
            case (Some(slot), Some(parsed)) => Some(Signed(slot, parsed))
            case _ => None
  {
    var slice := [|key|] + key + signature;
    assert slice[|key| + 1..] == signature && slice[1..|key| + 1] == key;
    if |key| == 64 {
      assert slice[1..33] == key[..32] && slice[33..65] == key[32..];
    }
  }

  /** A well-formed yield is taken for what the device meant, and refused if the host cannot
      use it. */
  lemma {:induction false} YieldIsMeant(lib: Library, y: DeviceYield)
    ensures ParseYield(lib, YieldBytes(y)) == if Usable(lib, y) then Some(Meaning(lib, y)) else None
  {
    hide ParsePartial, SlotOf, SignatureOf, Decode, Encode;
    var data := YieldBytes(y);
    match y {
      case Partial(input, key, signature) =>
        var slice := [|key|] + key + signature;
        assert data == Encode(input) + slice;
        DecodeEncode(input, slice);
        assert data[|Encode(input)|..] == slice;
        PartialIs(lib, key, signature);
      case MuSig2(tag, input, more) =>
        assert data == Encode(tag) + (Encode(input) + more);
        DecodeEncode(tag, Encode(input) + more);
        assert data[|Encode(tag)|..] == Encode(input) + more;
        DecodeEncode(input, more);
    }
  }

  /** Nothing else is taken for a yield. */
  lemma {:induction false} ParsedIsYield(lib: Library, data: Bytes)
    requires ParseYield(lib, data).Some?
    ensures exists y: DeviceYield :: Usable(lib, y) && YieldBytes(y) == data && ParseYield(lib, data) == Some(Meaning(lib, y))
  {
    hide ParsePartial, SlotOf, SignatureOf, Decode, Encode;
    var y := YieldBehind(lib, data);
    YieldIsMeant(lib, y);
  }

  lemma SliceBehind(lib: Library, slice: Bytes) returns (key: Bytes, signature: Bytes)
    requires ParsePartial(lib, slice).Some?
    ensures |key| <= 255 && slice == [|key|] + key + signature
  {
    var n: nat := slice[0];
    key, signature := slice[1..n + 1], slice[n + 1..];
  }

  lemma YieldBehind(lib: Library, data: Bytes) returns (y: DeviceYield)
    requires ParseYield(lib, data).Some?
    ensures YieldBytes(y) == data
  {
    hide Decode, Encode, ParsePartial;
    var Decoded(tag, read) := Decode(data).value;
    DecodeIsCanonical(data);
    var rest := data[read..];
    if tag >= 0x8000_0000 {
      DecodeIsCanonical(rest);
      var Decoded(input, used) := Decode(rest).value;
      y := MuSig2(tag, input, rest[used..]);
      Associative(Encode(tag), Encode(input), rest[used..]);
    } else {
      var key, signature := SliceBehind(lib, rest);
      y := Partial(tag, key, signature);
      Associative(Encode(tag), [|key|], key);
      Associative(Encode(tag), [|key|] + key, signature);
    }
  }

  lemma Associative(a: Bytes, b: Bytes, c: Bytes)
    ensures (a + b) + c == a + (b + c)
  {
  }

  function AllBytes(ys: seq<DeviceYield>): (r: seq<Bytes>)
    ensures |r| == |ys|
  {
    if ys == [] then [] else AllBytes(ys[..|ys| - 1]) + [YieldBytes(ys[|ys| - 1])]
  }

  /** The last signature that a device sent for one slot of one input. */
  function LastSigned(lib: Library, ys: seq<DeviceYield>, input: nat, slot: Slot): Option<Bytes> {
    if ys == [] then None
    else
      var y := ys[|ys| - 1];
      if y.Partial? && y.input == input && SlotOf(lib, y.key) == Some(slot) then SignatureOf(lib, y.key, y.signature)
      else LastSigned(lib, ys[..|ys| - 1], input, slot)
  }

  lemma {:induction false} LastSignedIs(lib: Library, ys: seq<DeviceYield>, input: nat, slot: Slot)
    requires forall y :: y in ys ==> Usable(lib, y)
    ensures LastYield(lib, AllBytes(ys), input, slot) == LastSigned(lib, ys, input, slot)
  {
    hide ParseYield, SlotOf, SignatureOf, YieldBytes;
    if ys != [] {
      var init, last := ys[..|ys| - 1], ys[|ys| - 1];
      LastSignedIs(lib, init, input, slot);
      assert AllBytes(ys)[..|ys| - 1] == AllBytes(init);
      YieldIsMeant(lib, last);
    }
  }

  /** The signed PSBT exists if and only if the host can use all that the device yielded, and
      all of it names an input. */
  lemma {:induction false} SignedIfUsable<T>(lib: Library, inputs: seq<PsbtInput<T>>, ys: seq<DeviceYield>)
    ensures Applied(lib, inputs, AllBytes(ys)).Some? <==> forall y :: y in ys ==> Usable(lib, y) && y.input < |inputs|
  {
    hide ParseYield, SlotOf, SignatureOf, YieldBytes, Sendable;
    if ys != [] {
      var init, last := ys[..|ys| - 1], ys[|ys| - 1];
      SignedIfUsable(lib, inputs, init);
      assert ys == init + [last];
      assert AllBytes(ys)[..|ys| - 1] == AllBytes(init);
      YieldIsMeant(lib, last);
    }
  }

  /** And then every slot of every input holds the last signature that the device sent for it,
      or what it held before if there is none. */
  lemma {:induction false} SignedAsYielded<T>(lib: Library, inputs: seq<PsbtInput<T>>, ys: seq<DeviceYield>, i: nat, slot: Slot)
    requires forall y :: y in ys ==> Usable(lib, y) && y.input < |inputs|
    requires i < |inputs|
    ensures Applied(lib, inputs, AllBytes(ys)).Some?
    ensures var signed := Applied(lib, inputs, AllBytes(ys)).value[i];
            && signed.rest == inputs[i].rest
            && signed.Get(slot) == (match LastSigned(lib, ys, i, slot)
                                    case Some(signature) => Some(signature)
                                    case None => inputs[i].Get(slot))
  {
    hide Applied, AllBytes, LastYield, LastSigned, Usable, PsbtInput.Get, Sendable;
    SignedIfUsable(lib, inputs, ys);
    LastSignedIs(lib, ys, i, slot);
    AppliedIsLast(lib, inputs, AllBytes(ys), i, slot);
  }
}
