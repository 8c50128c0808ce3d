/** The stream cipher of bhwi/src/coldcard/encrypt.rs. The session key stands for its
    keystream, which is any function from positions to bytes. */
module ColdcardCipher {
  import opened Common

  type Stream = nat -> Byte

  datatype CipherError = NotReady | NotNew | BadKey

  /** The bits of `a` that differ from those of `b`, among the low `n` ones. */
  function XorBits(a: nat, b: nat, n: nat): (r: nat)
    ensures r < Exp2(n)
  {
    if n == 0 then 0 else (a + b) % 2 + 2 * XorBits(a / 2, b / 2, n - 1)
  }

  lemma {:induction false} XorBitsTwice(a: nat, b: nat, n: nat)
    requires a < Exp2(n)
    ensures XorBits(XorBits(a, b, n), b, n) == a
  {
    if n > 0 {
      var half := XorBits(a / 2, b / 2, n - 1);
      XorBitsTwice(a / 2, b / 2, n - 1);
      hide XorBits;
      LowBit(a, b, half);
      XorBitsStep(a, b, n);
      XorBitsStep((a + b) % 2 + 2 * half, b, n);
    }
  }

  lemma LowBit(a: nat, b: nat, half: nat)
    ensures ((a + b) % 2 + 2 * half) / 2 == half
    ensures ((a + b) % 2 + 2 * half + b) % 2 + 2 * (a / 2) == a
  {
  }

  lemma XorBitsStep(a: nat, b: nat, n: nat)
    requires n > 0
    ensures XorBits(a, b, n) == (a + b) % 2 + 2 * XorBits(a / 2, b / 2, n - 1)
  {
  }

  lemma TwoToEight()
    ensures Exp2(8) == 256
  {
    assert Exp2(2) == 4 && Exp2(4) == 16 && Exp2(6) == 64;
  }

  function Xor(a: Byte, b: Byte): (r: Byte) {
    TwoToEight();
    XorBits(a, b, 8)
  }

  lemma XorTwice(a: Byte, b: Byte)
    ensures Xor(Xor(a, b), b) == a
  {
    TwoToEight();
    XorBitsTwice(a, b, 8);
  }

  /** The bit of weight 2^k. */
  function Bit(n: nat, k: nat): (r: nat)
    ensures r <= 1
  {
    n / Exp2(k) % 2
  }

  lemma Halves(n: nat, m: nat)
    requires m > 0
    ensures n / (2 * m) == n / 2 / m
  {
    var q, r := n / 2 / m, n / 2 % m;
    assert n / 2 == q * m + r;
    assert n == 2 * (n / 2) + n % 2;
    assert n == q * (2 * m) + (2 * r + n % 2);
    QuotientIs(n, 2 * m, q, 2 * r + n % 2);
  }

  lemma ProductsInOrder(a: int, b: int, m: nat)
    requires a <= b
    ensures a * m <= b * m
  {
  }

  lemma QuotientIs(n: nat, m: nat, q: nat, r: nat)
    requires n == q * m + r && r < m
    ensures n / m == q
  {
    var p := n / m;
    assert n == p * m + n % m;
    if p > q {
      ProductsInOrder(q + 1, p, m);
    } else if p < q {
      ProductsInOrder(p + 1, q, m);
    }
  }

  lemma BitOfHalf(n: nat, k: nat)
    requires k > 0
    ensures Bit(n, k) == Bit(n / 2, k - 1)
    ensures Bit(n, 0) == n % 2
  {
    Halves(n, Exp2(k - 1));
  }

  /** Bit by bit, the result of `XorBits` is 1 where the operands differ. */
  lemma {:induction false} XorBitsDiffer(a: nat, b: nat, n: nat, k: nat)
    requires k < n
    ensures Bit(XorBits(a, b, n), k) == 1 <==> Bit(a, k) != Bit(b, k)
  {
    hide Bit;
    var x, half := XorBits(a, b, n), XorBits(a / 2, b / 2, n - 1);
    XorBitsStep(a, b, n);
    hide XorBits;
    LowBit(a, b, half);
    if k == 0 {
      BitOfHalf(a, 1);
      BitOfHalf(b, 1);
      BitOfHalf(x, 1);
    } else {
      BitOfHalf(a, k);
      BitOfHalf(b, k);
      BitOfHalf(x, k);
      XorBitsDiffer(a / 2, b / 2, n - 1, k - 1);
    }
  }

  /** `result` is `data` with exactly the bits turned over that are 1 in the keystream. */
  ghost predicate Ciphered(stream: Stream, at: nat, data: Bytes, result: Bytes) {
    && |result| == |data|
    && forall i, k :: 0 <= i < |data| && 0 <= k < 8 ==>
         (Bit(result[i], k) == 1 <==> Bit(data[i], k) != Bit(stream(at + i), k))
  }

  /** `apply_keystream` from the given position on. */
  function Apply(stream: Stream, at: nat, data: Bytes): (r: Bytes)
    ensures |r| == |data|
  {
    seq(|data|, i requires 0 <= i < |data| => Xor(data[i], stream(at + i)))
  }

  /** The keystream is applied bit by bit. */
  lemma {:induction false} ApplyCiphers(stream: Stream, at: nat, data: Bytes)
    ensures Ciphered(stream, at, data, Apply(stream, at, data))
  {
    forall i, k | 0 <= i < |data| && 0 <= k < 8
      ensures Bit(Apply(stream, at, data)[i], k) == 1 <==> Bit(data[i], k) != Bit(stream(at + i), k)
    {
      XorBitsDiffer(data[i], stream(at + i), 8, k);
    }
  }

  lemma {:induction false} BitsDetermine(a: nat, b: nat, n: nat)
    requires a < Exp2(n) && b < Exp2(n) && forall k :: 0 <= k < n ==> Bit(a, k) == Bit(b, k)
    ensures a == b
  {
    hide Bit;
    if n > 0 {
      forall k | 0 <= k < n - 1 ensures Bit(a / 2, k) == Bit(b / 2, k) {
        BitOfHalf(a, k + 1);
        BitOfHalf(b, k + 1);
      }
      BitsDetermine(a / 2, b / 2, n - 1);
      BitOfHalf(a, 1);
      BitOfHalf(b, 1);
    }
  }

  /** Nothing else does what `Ciphered` says. */
  lemma {:induction false} CipheredIsApply(stream: Stream, at: nat, data: Bytes, result: Bytes)
    requires Ciphered(stream, at, data, result)
    ensures result == Apply(stream, at, data)
  {
    hide Bit;
    ApplyCiphers(stream, at, data);
    var applied := Apply(stream, at, data);
    TwoToEight();
    forall i | 0 <= i < |data| ensures result[i] == applied[i] {
      forall k | 0 <= k < 8 ensures Bit(result[i], k) == Bit(applied[i], k) {
        assert Bit(result[i], k) == 1 <==> Bit(data[i], k) != Bit(stream(at + i), k);
        assert Bit(applied[i], k) == 1 <==> Bit(data[i], k) != Bit(stream(at + i), k);
      }
      BitsDetermine(result[i], applied[i], 8);
    }
  }

  /** Data leaves as it is only under a keystream of zeros. */
  lemma {:induction false} UnchangedUnderZeros(stream: Stream, at: nat, data: Bytes)
    ensures Apply(stream, at, data) == data <==> forall p :: at <= p < at + |data| ==> stream(p) == 0
  {
    hide Bit;
    ApplyCiphers(stream, at, data);
    TwoToEight();
    if Apply(stream, at, data) == data {
      forall p | at <= p < at + |data| ensures stream(p) == 0 {
        var i := p - at;
        forall k | 0 <= k < 8 ensures Bit(stream(p), k) == Bit(0, k) {
          assert Bit(data[i], k) == 1 <==> Bit(data[i], k) != Bit(stream(at + i), k);
          BitOfZero(k);
        }
        BitsDetermine(stream(p), 0, 8);
      }
    }
    if forall p :: at <= p < at + |data| ==> stream(p) == 0 {
      forall i, k | 0 <= i < |data| && 0 <= k < 8
        ensures Bit(data[i], k) == 1 <==> Bit(data[i], k) != Bit(stream(at + i), k)
      {
        assert stream(at + i) == 0;
        BitOfZero(k);
      }
      CipheredIsApply(stream, at, data, data);
    }
  }

  lemma BitOfZero(k: nat)
    ensures Bit(0, k) == 0
  {
  }

  /** From the same position, the same stream undoes itself. */
  lemma {:induction false} ApplyTwice(stream: Stream, at: nat, data: Bytes)
    ensures Apply(stream, at, Apply(stream, at, data)) == data
  {
    forall i | 0 <= i < |data| ensures Apply(stream, at, Apply(stream, at, data))[i] == data[i] {
      XorTwice(data[i], stream(at + i));
    }
  }

  /** What is encrypted in pieces can be decrypted in other pieces. */
  lemma {:induction false} ApplyConcat(stream: Stream, at: nat, a: Bytes, b: Bytes)
    ensures Apply(stream, at, a + b) == Apply(stream, at, a) + Apply(stream, at + |a|, b)
  {
    hide Xor;
    var whole, parts := Apply(stream, at, a + b), Apply(stream, at, a) + Apply(stream, at + |a|, b);
    forall i | 0 <= i < |a + b| ensures whole[i] == parts[i] {
      if i >= |a| {
        assert parts[i] == Apply(stream, at + |a|, b)[i - |a|];
        assert at + i == (at + |a|) + (i - |a|);
      }
    }
  }

  /** The engine: with its secret key only, or with the two positions in the stream. */
  datatype EngineState = New(secret: Bytes) | Ready(stream: Stream, encrypted: nat, decrypted: nat)

  class Engine {
    var state: EngineState

    constructor (secret: Bytes)
      ensures state == New(secret)
    {
      state := New(secret);
    }

    /** `session` is the key agreement, with the stream that its result stands for. */
    method MakeReady(session: (Bytes, Bytes) -> Option<Stream>, publicKey: Bytes) returns (r: Result<(), CipherError>)
      modifies this
      ensures r.Ok? <==> old(state).New? && session(old(state).secret, publicKey).Some?
      ensures state == if r.Ok? then Ready(session(old(state).secret, publicKey).value, 0, 0) else old(state)
    {
      if state.Ready? {
        return Err(NotNew);
      }
      var stream := session(state.secret, publicKey);
      if stream.None? {
        return Err(BadKey);
      }
      state := Ready(stream.value, 0, 0);
      r := Ok(());
    }

    method Encrypt(data: Bytes) returns (r: Result<Bytes, CipherError>)
      modifies this
      ensures (state, r) == EncryptStep(old(state), data)
      ensures r.Ok? <==> old(state).Ready?
      ensures r.Ok? ==> Ciphered(old(state).stream, old(state).encrypted, data, r.value)
    {
      if state.New? {
        return Err(NotReady);
      }
      var sealed := Apply(state.stream, state.encrypted, data);
      ApplyCiphers(state.stream, state.encrypted, data);
      state := Ready(state.stream, state.encrypted + |data|, state.decrypted);
      r := Ok(sealed);
    }

    method Decrypt(data: Bytes) returns (r: Result<Bytes, CipherError>)
      modifies this
      ensures (state, r) == DecryptStep(old(state), data)
      ensures r.Ok? <==> old(state).Ready?
      ensures r.Ok? ==> Ciphered(old(state).stream, old(state).decrypted, data, r.value)
    {
      if state.New? {
        return Err(NotReady);
      }
      var plain := Apply(state.stream, state.decrypted, data);
      ApplyCiphers(state.stream, state.decrypted, data);
      state := Ready(state.stream, state.encrypted, state.decrypted + |data|);
      r := Ok(plain);
    }
  }

  function EncryptStep(s: EngineState, data: Bytes): (EngineState, Result<Bytes, CipherError>) {
    match s
    case New(_) => (s, Err(NotReady))
    case Ready(stream, encrypted, decrypted) =>
      (Ready(stream, encrypted + |data|, decrypted), Ok(Apply(stream, encrypted, data)))
  }

  function DecryptStep(s: EngineState, data: Bytes): (EngineState, Result<Bytes, CipherError>) {
    match s
    case New(_) => (s, Err(NotReady))
    case Ready(stream, encrypted, decrypted) =>
      (Ready(stream, encrypted, decrypted + |data|), Ok(Apply(stream, decrypted, data)))
  }

  /** Two engines with one key, each of which has decrypted as much as the other encrypted. */
  ghost predicate InStep(a: EngineState, b: EngineState) {
    a.Ready? && b.Ready? && a.stream == b.stream && a.encrypted == b.decrypted && a.decrypted == b.encrypted
  }

  /** Engines in step understand each other and stay in step. */
  lemma {:induction false} Understands(a: EngineState, b: EngineState, data: Bytes)
    requires InStep(a, b)
    ensures var (a', sealed) := EncryptStep(a, data);
            && sealed.Ok?
            && var (b', plain) := DecryptStep(b, sealed.value);
               plain == Ok(data) && InStep(a', b')
  {
    hide Apply;
    ApplyTwice(a.stream, a.encrypted, data);
  }
}
