/** The Bitcoin CompactSize integer: as written by the consensus encoder, and as
    read by `deserialize_unchecked_varint` (bhwi/src/ledger/mod.rs). */
module CompactSize {
  import opened Common

  datatype DecodeError = Missing | Truncated | NonMinimal

  datatype Decoded = Decoded(value: nat, read: nat)

  function Encode(value: nat): (r: Bytes)
    requires value < U64
    ensures 1 <= |r| <= 9
  {
    if value <= 0xFC then [value]
    else if value <= 0xFFFF then [0xFD] + ToLe(value, 2)
    else if value <= 0xFFFF_FFFF then [0xFE] + ToLe(value, 4)
    else [0xFF] + ToLe(value, 8)
  }

  /** `encode::serialize(&VarInt(n as u64))`. */
  function EncodeLen(n: nat): (r: Bytes)
    ensures 1 <= |r| <= 9
  {
    Encode(n % U64)
  }

  lemma EncodeLenIs(n: nat)
    requires n < U64
    ensures EncodeLen(n) == Encode(n)
  {
  }

  function DecodeWide(data: Bytes, width: nat, least: nat): Result<Decoded, DecodeError> {
    if |data| < 1 + width then Err(Truncated)
    else
      var value := FromLe(data[1..1 + width]);
      if value < least then Err(NonMinimal) else Ok(Decoded(value, 1 + width))
  }

  function Decode(data: Bytes): Result<Decoded, DecodeError> {
    if data == [] then Err(Missing)
    else if data[0] <= 0xFC then Ok(Decoded(data[0], 1))
    else if data[0] == 0xFD then DecodeWide(data, 2, 0xFD)
    else if data[0] == 0xFE then DecodeWide(data, 4, 0x1_0000)
    else DecodeWide(data, 8, 0x1_0000_0000)
  }

  /** Every integer of at most 64 bits is read back, whatever follows it. */
  lemma {:induction false} DecodeEncode(value: nat, rest: Bytes)
    requires value < U64
    ensures Decode(Encode(value) + rest) == Ok(Decoded(value, |Encode(value)|))
  {
    var data := Encode(value) + rest;
    var width := |Encode(value)| - 1;
    Exp256Values();
    if width > 0 {
      assert data[1..1 + width] == ToLe(value, width);
      FromLeToLe(value, width);
    }
  }

  /** Only canonical encodings are accepted. */
  lemma DecodeIsCanonical(data: Bytes)
    requires Decode(data).Ok?
    ensures var Decoded(value, read) := Decode(data).value;
            value < U64 && read <= |data| && data[..read] == Encode(value)
  {
    var Decoded(value, read) := Decode(data).value;
    Exp256Values();
    if read == 1 {
      assert data[..1] == [data[0]];
    } else {
      ToLeFromLe(data[1..read]);
      assert data[..read] == [data[0]] + data[1..read];
    }
  }

  /** `Decode` accepts exactly the canonical encodings and inverts them: it
      returns `value` and `read` if and only if the first `read` bytes are the
      encoding of the 64-bit integer `value`. */
  lemma {:induction false} DecodeExactly(data: Bytes, value: nat, read: nat)
    ensures Decode(data) == Ok(Decoded(value, read)) <==>
            value < U64 && read <= |data| && data[..read] == Encode(value)
  {
    if Decode(data) == Ok(Decoded(value, read)) {
      DecodeIsCanonical(data);
    }
    if value < U64 && read <= |data| && data[..read] == Encode(value) {
      DecodeEncode(value, data[read..]);
      assert data == Encode(value) + data[read..];
    }
  }

  /** `encode::deserialize`: the integer must fill the whole input. */
  function DecodeAll(data: Bytes): Option<nat> {
    match Decode(data)
    case Ok(Decoded(value, read)) => if read == |data| then Some(value) else None
    case Err(_) => None
  }

  lemma DecodeAllEncode(value: nat)
    requires value < U64
    ensures DecodeAll(Encode(value)) == Some(value)
  {
    DecodeEncode(value, []);
    assert Encode(value) + [] == Encode(value);
  }
}
