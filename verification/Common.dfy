/** Bytes, digests and results shared by every model in this project. */
module Common {

  datatype Option<+T> = None | Some(value: T)

  datatype Result<+T, +E> = Ok(value: T) | Err(error: E)

  type Byte = b: int | 0 <= b < 256

  type Bytes = seq<Byte>

  type Bytes32 = b: Bytes | |b| == 32 witness seq(32, _ => 0)

  /** The output of SHA-256. */
  datatype Digest = Digest(raw: Bytes32)

  /** SHA-256 is any total function from byte strings to digests. No theorem
      assumes that it is injective. */
  type Hash = Bytes -> Digest

  /** The child numbers of a derivation path. */
  type KeyPath = seq<nat>

  function Min(a: nat, b: nat): nat {
    if a <= b then a else b
  }

  const U32: nat := 0x1_0000_0000
  const U64: nat := 0x1_0000_0000_0000_0000

  /** Some two different strings of `strings` have the same digest. `strings` is
      always a finite set of strings that the program itself hashed, so this
      is a concrete collision and not the mere existence of one. */
  ghost predicate ClashIn(h: Hash, strings: set<Bytes>) {
    exists a, b :: a in strings && b in strings && a != b && h(a) == h(b)
  }

  lemma ClashOf(h: Hash, strings: set<Bytes>, a: Bytes, b: Bytes)
    requires a in strings && b in strings && h(a) == h(b)
    ensures a == b || ClashIn(h, strings)
  {
  }

  /** 2^n */
  function Exp2(n: nat): (r: nat)
    ensures r >= 1
  {
    if n == 0 then 1 else 2 * Exp2(n - 1)
  }

  lemma {:induction false} Exp2Monotonic(a: nat, b: nat)
    requires a <= b
    ensures Exp2(a) <= Exp2(b)
    ensures a < b ==> 2 * Exp2(a) <= Exp2(b)
    decreases b
  {
    if a < b {
      Exp2Monotonic(a, b - 1);
    }
  }

  /** `value as uN` in little-endian order, N = 8 * width. */
  function ToLe(value: nat, width: nat): (r: Bytes)
    ensures |r| == width
  {
    if width == 0 then [] else [value % 256] + ToLe(value / 256, width - 1)
  }

  function FromLe(bytes: Bytes): nat {
    if bytes == [] then 0 else bytes[0] + 256 * FromLe(bytes[1..])
  }

  function ToBe(value: nat, width: nat): (r: Bytes)
    ensures |r| == width
  {
    if width == 0 then [] else ToBe(value / 256, width - 1) + [value % 256]
  }

  function FromBe(bytes: Bytes): nat {
    if bytes == [] then 0 else 256 * FromBe(bytes[..|bytes| - 1]) + bytes[|bytes| - 1]
  }

  /** 256^n */
  function Exp256(n: nat): (r: nat)
    ensures r >= 1
  {
    if n == 0 then 1 else 256 * Exp256(n - 1)
  }

  lemma {:induction false} FromLeToLe(value: nat, width: nat)
    requires value < Exp256(width)
    ensures FromLe(ToLe(value, width)) == value
  {
    if width > 0 {
      FromLeToLe(value / 256, width - 1);
      assert ToLe(value, width)[1..] == ToLe(value / 256, width - 1);
    }
  }

  lemma LowByte(low: Byte, high: nat)
    ensures (low + 256 * high) % 256 == low && (low + 256 * high) / 256 == high
  {
  }

  lemma {:induction false} ToLeFromLe(bytes: Bytes)
    ensures FromLe(bytes) < Exp256(|bytes|)
    ensures ToLe(FromLe(bytes), |bytes|) == bytes
  {
    if bytes != [] {
      ToLeFromLe(bytes[1..]);
      LowByte(bytes[0], FromLe(bytes[1..]));
      assert bytes == [bytes[0]] + bytes[1..];
    }
  }

  lemma {:induction false} FromBeToBe(value: nat, width: nat)
    requires value < Exp256(width)
    ensures FromBe(ToBe(value, width)) == value
  {
    if width > 0 {
      FromBeToBe(value / 256, width - 1);
      assert ToBe(value, width)[..width - 1] == ToBe(value / 256, width - 1);
    }
  }

  lemma Exp256Values()
    ensures Exp256(1) == 0x100
    ensures Exp256(2) == 0x1_0000
    ensures Exp256(4) == U32
    ensures Exp256(8) == U64
  {
    assert Exp256(3) == 0x100_0000;
    assert Exp256(5) == 0x100_0000_0000;
    assert Exp256(6) == 0x1_0000_0000_0000;
    assert Exp256(7) == 0x100_0000_0000_0000;
  }
}
