/** The pairing code of bhwi/src/bitbox/noise.rs: base32 as in section 6 of RFC 4648. */
module Base32 {
  import opened Common

  const ALPHABET: string := "ABCDEFGHIJKLMNOPQRSTUVWXYZ234567"

  function Letter(v: nat): char
    requires v < 32
  {
    ALPHABET[v]
  }

  // ---- RFC 4648: the input as a bit string, cut into groups of five ----

  /** Bit `t` of a byte, the most significant first. */
  function ByteBit(x: Byte, t: nat): (r: nat)
    requires t < 8
    ensures r <= 1
  {
    match t
    case 0 => x / 128 % 2
    case 1 => x / 64 % 2
    case 2 => x / 32 % 2
    case 3 => x / 16 % 2
    case 4 => x / 8 % 2
    case 5 => x / 4 % 2
    case 6 => x / 2 % 2
    case _ => x % 2
  }

  /** Bit `b` of the input, and 0 beyond its end. */
  function Bit(input: Bytes, b: nat): (r: nat)
    ensures r <= 1
  {
    if b / 8 < |input| then ByteBit(input[b / 8], b % 8) else 0
  }

  /** The number written by bits a, ..., a + len - 1. */
  function Window(input: Bytes, a: nat, len: nat): (r: nat)
    ensures r < Exp2(len)
  {
    if len == 0 then 0 else 2 * Window(input, a, len - 1) + Bit(input, a + len - 1)
  }

  function Quintet(input: Bytes, j: nat): (r: nat)
    ensures r < 32
  {
    assert Exp2(5) == 32;
    Window(input, 5 * j, 5)
  }

  /** How many characters carry data. */
  function DataChars(n: nat): nat {
    (8 * n + 4) / 5
  }

  function Quintets(input: Bytes, count: nat): (r: string)
    ensures |r| == count && forall j :: 0 <= j < count ==> r[j] == Letter(Quintet(input, j))
  {
    seq(count, j requires 0 <= j < count => Letter(Quintet(input, j)))
  }

  function Padding(n: nat): (r: string)
    ensures forall c :: c in r ==> c == '='
  {
    seq(n, _ => '=')
  }

  function Encoded(input: Bytes): (r: string)
    ensures |r| == 8 * ((|input| + 4) / 5)
  {
    var d := DataChars(|input|);
    Quintets(input, d) + Padding(8 * ((|input| + 4) / 5) - d)
  }

  // ---- the accumulator loop ----

  lemma {:induction false} WindowSplit(input: Bytes, a: nat, m: nat, n: nat)
    ensures Window(input, a, m + n) == Window(input, a, m) * Exp2(n) + Window(input, a + m, n)
  {
    hide Bit;
    if n > 0 {
      WindowSplit(input, a, m, n - 1);
      Doubled(Window(input, a, m), Exp2(n - 1));
    }
  }

  lemma Doubled(x: nat, y: nat)
    ensures x * (2 * y) == 2 * (x * y)
  {
  }

  lemma DivMod(x: nat, d: nat)
    requires d > 0
    ensures x == x / d * d + x % d && x % d < d
  {
  }

  lemma Regroup(a: nat, b: nat, k: nat, d: nat, r: nat)
    ensures (k * a + b) * d + r == a * (k * d) + (b * d + r)
  {
  }

  lemma HalfOf(x: nat, d: nat, q: nat, r: nat)
    requires r < d && x == q * d + r
    ensures x / (2 * d) == q / 2
  {
    var a, b := q / 2, q % 2;
    Regroup(a, b, 2, d, r);
    assert b * d + r < 2 * d by {
      if b == 0 {
      } else {
        assert b == 1;
      }
    }
    ModOf(x, a, 2 * d, b * d + r);
  }

  lemma Half(x: nat, d: nat)
    requires d > 0
    ensures x / d == 2 * (x / (2 * d)) + x / d % 2
  {
    DivMod(x, d);
    HalfOf(x, d, x / d, x % d);
  }

  lemma ByteBits(x: Byte)
    ensures x == 128 * (x / 128 % 2) + 64 * (x / 64 % 2) + 32 * (x / 32 % 2) + 16 * (x / 16 % 2)
               + 8 * (x / 8 % 2) + 4 * (x / 4 % 2) + 2 * (x / 2 % 2) + x % 2
  {
    Half(x, 1);
    Half(x, 2);
    Half(x, 4);
    Half(x, 8);
    Half(x, 16);
    Half(x, 32);
    Half(x, 64);
  }

  lemma Exp2Small()
    ensures Exp2(0) == 1 && Exp2(1) == 2 && Exp2(2) == 4 && Exp2(3) == 8 && Exp2(4) == 16 && Exp2(5) == 32
    ensures Exp2(6) == 64 && Exp2(7) == 128 && Exp2(8) == 256 && Exp2(9) == 512 && Exp2(10) == 1024
    ensures Exp2(11) == 2048 && Exp2(12) == 4096
  {
  }

  lemma BitOfByte(input: Bytes, i: nat, t: nat)
    requires i < |input| && t < 8
    ensures Bit(input, 8 * i + t) == ByteBit(input[i], t)
  {
    assert (8 * i + t) / 8 == i && (8 * i + t) % 8 == t;
  }

  lemma WindowByTwo(input: Bytes, a: nat, len: nat)
    ensures Window(input, a, len + 2) == 4 * Window(input, a, len) + 2 * Bit(input, a + len) + Bit(input, a + len + 1)
  {
    hide Bit;
    assert Window(input, a, len + 2) == 2 * Window(input, a, len + 1) + Bit(input, a + len + 1);
  }

  lemma WindowOfEight(input: Bytes, a: nat)
    ensures Window(input, a, 8) ==
            128 * Bit(input, a) + 64 * Bit(input, a + 1) + 32 * Bit(input, a + 2) + 16 * Bit(input, a + 3)
            + 8 * Bit(input, a + 4) + 4 * Bit(input, a + 5) + 2 * Bit(input, a + 6) + Bit(input, a + 7)
  {
    assert Window(input, a, 0) == 0;
    WindowByTwo(input, a, 0);
    WindowByTwo(input, a, 2);
    WindowByTwo(input, a, 4);
    WindowByTwo(input, a, 6);
    hide Window, Bit;
  }

  lemma WindowOfByte(input: Bytes, i: nat)
    requires i < |input|
    ensures Window(input, 8 * i, 8) == input[i]
  {
    hide Window, Bit;
    WindowOfEight(input, 8 * i);
    BitOfByte(input, i, 0);
    BitOfByte(input, i, 1);
    BitOfByte(input, i, 2);
    BitOfByte(input, i, 3);
    BitOfByte(input, i, 4);
    BitOfByte(input, i, 5);
    BitOfByte(input, i, 6);
    BitOfByte(input, i, 7);
    ByteBits(input[i]);
  }

  lemma {:induction false} WindowBeyond(input: Bytes, a: nat, len: nat)
    requires a >= 8 * |input|
    ensures Window(input, a, len) == 0
  {
    if len > 0 {
      WindowBeyond(input, a, len - 1);
    }
  }

  /** Shifting a byte into the 64-bit buffer keeps its low bits, although high ones drop. */
  lemma {:induction false} ShiftIn(buffer: nat, bits: nat, value: nat, byte: Byte)
    requires bits < 5 && buffer % Exp2(bits) == value
    ensures ((buffer * 256) % U64 + byte) % Exp2(bits + 8) == value * 256 + byte
  {
    Exp2Small();
    var dropped := (buffer * 256) / U64;
    var m := Exp2(bits + 8);
    assert (buffer * 256) % U64 == buffer * 256 - dropped * U64;
    var q := buffer / Exp2(bits);
    if bits == 0 {
      ModOf((buffer * 256) % U64 + byte, q - dropped * (U64 / 256), 256, value * 256 + byte);
    } else if bits == 1 {
      ModOf((buffer * 256) % U64 + byte, q - dropped * (U64 / 512), 512, value * 256 + byte);
    } else if bits == 2 {
      ModOf((buffer * 256) % U64 + byte, q - dropped * (U64 / 1024), 1024, value * 256 + byte);
    } else if bits == 3 {
      ModOf((buffer * 256) % U64 + byte, q - dropped * (U64 / 2048), 2048, value * 256 + byte);
    } else {
      ModOf((buffer * 256) % U64 + byte, q - dropped * (U64 / 4096), 4096, value * 256 + byte);
    }
  }

  lemma ModOf(x: int, q: int, m: int, r: int)
    requires m > 0 && 0 <= r < m && x == q * m + r
    ensures x % m == r && x / m == q
  {
    var d := x / m;
    assert x == d * m + x % m;
    Apart(d, q, m);
    Apart(q, d, m);
  }

  lemma Apart(a: int, b: int, m: int)
    requires m > 0
    ensures a > b ==> a * m >= b * m + m
  {
    if a > b {
      assert a * m - b * m == (a - b) * m;
      AtLeast(a - b, m);
    }
  }

  lemma AtLeast(k: int, m: int)
    requires k >= 1 && m > 0
    ensures k * m >= m
  {
  }

  lemma Quotient(x: nat, d: nat) returns (q: nat)
    requires d > 0
    ensures x == q * d + x % d
  {
    q := x / d;
  }

  lemma TakeFiveOf(buffer: nat, m: nat, d: nat, q: nat, hi: nat, lo: nat)
    requires hi < 32 && lo < m && d == 32 * m && buffer == q * d + (hi * m + lo)
    ensures (buffer / m) % 32 == hi && buffer % m == lo
  {
    Regroup(q, hi, 32, m, lo);
    ModOf(buffer, 32 * q + hi, m, lo);
    ModOf(32 * q + hi, q, 32, hi);
  }

  lemma ThirtyTwo(c: nat)
    ensures Exp2(c + 5) == 32 * Exp2(c)
  {
    assert Exp2(c + 2) == 4 * Exp2(c);
    assert Exp2(c + 4) == 4 * Exp2(c + 2);
  }

  /** Taking five bits off the top of the low bits of the buffer. */
  lemma TakeFive(buffer: nat, c: nat, hi: nat, lo: nat)
    requires c <= 7 && hi < 32 && lo < Exp2(c) && buffer % Exp2(c + 5) == hi * Exp2(c) + lo
    ensures (buffer / Exp2(c)) % 32 == hi && buffer % Exp2(c) == lo
  {
    ThirtyTwo(c);
    hide Exp2;
    var q := Quotient(buffer, Exp2(c + 5));
    TakeFiveOf(buffer, Exp2(c), Exp2(c + 5), q, hi, lo);
  }

  /** The last, padded group. */
  lemma TakeRest(buffer: nat, bits: nat, value: nat)
    requires 0 < bits < 5 && buffer % Exp2(bits) == value
    ensures (buffer * Exp2(5 - bits) % U64) % 32 == value * Exp2(5 - bits)
  {
    Exp2Small();
    var x := buffer * Exp2(5 - bits);
    var q, dropped := buffer / Exp2(bits), x / U64;
    assert Exp2(bits) * Exp2(5 - bits) == 32;
    assert buffer == q * Exp2(bits) + value;
    assert x == q * 32 + value * Exp2(5 - bits);
    assert x % U64 == x - dropped * U64;
    assert value < Exp2(bits);
    assert value * Exp2(5 - bits) < 32;
    ModOf(x % U64, q - dropped * (U64 / 32), 32, value * Exp2(5 - bits));
  }

  /** `(buffer << 8) | byte` on 64 bits. */
  function PushByte(buffer: nat, byte: Byte): nat {
    (buffer * 256) % U64 + byte
  }

  /** `(buffer >> bits) & 0x1f` */
  function FiveAbove(buffer: nat, bits: nat): (r: nat)
    ensures r < 32
  {
    (buffer / Exp2(bits)) % 32
  }

  /** `(buffer << (5 - bits)) & 0x1f` */
  function LastFive(buffer: nat, bits: nat): (r: nat)
    requires bits <= 5
    ensures r < 32
  {
    (buffer * Exp2(5 - bits) % U64) % 32
  }

  /** The low `bits` bits of the buffer are the input bits from 5 * k on. */
  ghost predicate Holds(input: Bytes, k: nat, buffer: nat, bits: nat) {
    buffer < U64 && buffer % Exp2(bits) == Window(input, 5 * k, bits)
  }

  /** One character out of the buffer. */
  lemma Emits(input: Bytes, k: nat, buffer: nat, bits: nat)
    requires bits <= 7 && Holds(input, k, buffer, bits + 5)
    ensures FiveAbove(buffer, bits) == Quintet(input, k)
    ensures Holds(input, k + 1, buffer, bits)
  {
    hide Window, Exp2;
    WindowSplit(input, 5 * k, 5, bits);
    TakeFive(buffer, bits, Quintet(input, k), Window(input, 5 * k + 5, bits));
  }

  /** The last character, from the bits that are left. */
  lemma EmitsRest(input: Bytes, k: nat, buffer: nat, bits: nat)
    requires 0 < bits < 5 && 5 * k + bits == 8 * |input|
    requires Holds(input, k, buffer, bits)
    ensures LastFive(buffer, bits) == Quintet(input, k)
  {
    hide Window, Exp2;
    TakeRest(buffer, bits, Window(input, 5 * k, bits));
    WindowSplit(input, 5 * k, bits, 5 - bits);
    WindowBeyond(input, 8 * |input|, 5 - bits);
  }

  lemma TakesIn(input: Bytes, i: nat, k: nat, buffer: nat, bits: nat)
    requires i < |input| && bits < 5 && 5 * k + bits == 8 * i
    requires Holds(input, k, buffer, bits)
    ensures Holds(input, k, PushByte(buffer, input[i]), bits + 8)
  {
    hide Window;
    ShiftIn(buffer, bits, Window(input, 5 * k, bits), input[i]);
    WindowOfByte(input, i);
    WindowSplit(input, 5 * k, bits, 8);
    Exp2Small();
    var dropped := buffer * 256 / U64;
    assert (buffer * 256) % U64 == 256 * (buffer - dropped * (U64 / 256));
  }

  lemma QuintetsSnoc(input: Bytes, k: nat)
    ensures Quintets(input, k) + [Letter(Quintet(input, k))] == Quintets(input, k + 1)
    ensures Quintets(input, 0) == []
  {
    hide Quintet;
  }

  method Base32Rfc4648(input: Bytes) returns (out: string)
    ensures out == Encoded(input)
  {
    hide Quintet, Quintets, Letter, Holds, PushByte, FiveAbove, LastFive;
    out := [];
    var buffer: nat, bits: nat := 0, 0;
    HoldsNothing(input);
    QuintetsSnoc(input, 0);
    for i := 0 to |input|
      invariant bits < 5 && 5 * |out| + bits == 8 * i
      invariant Holds(input, |out|, buffer, bits)
      invariant out == Quintets(input, |out|)
    {
      TakesIn(input, i, |out|, buffer, bits);
      buffer := PushByte(buffer, input[i]);
      bits := bits + 8;
      while bits >= 5
        invariant bits <= 12 && 5 * |out| + bits == 8 * (i + 1)
        invariant Holds(input, |out|, buffer, bits)
        invariant out == Quintets(input, |out|)
      {
        bits := bits - 5;
        Emits(input, |out|, buffer, bits);
        QuintetsSnoc(input, |out|);
        out := out + [Letter(FiveAbove(buffer, bits))];
      }
    }
    if bits > 0 {
      EmitsRest(input, |out|, buffer, bits);
      QuintetsSnoc(input, |out|);
      out := out + [Letter(LastFive(buffer, bits))];
    }
    out := Pad(out, |input|);
  }

  method Pad(data: string, n: nat) returns (out: string)
    requires |data| == DataChars(n)
    ensures out == data + Padding(8 * ((n + 4) / 5) - |data|)
  {
    hide DataChars, Padding;
    ghost var blocks := (n + 4) / 5;
    LastBlock(n);
    OnePad(0);
    out := data;
    while |out| % 8 != 0
      invariant |data| <= |out| <= 8 * blocks && |out| > 8 * blocks - 8
      invariant out == data + Padding(|out| - |data|)
      decreases 8 * blocks - |out|
    {
      OnePad(|out| - |data|);
      out := out + ['='];
    }
  }

  /** The characters end in the last block of eight. */
  lemma LastBlock(n: nat)
    ensures 8 * ((n + 4) / 5) - 8 < DataChars(n) <= 8 * ((n + 4) / 5)
  {
  }

  lemma OnePad(n: nat)
    ensures Padding(0) == [] && Padding(n + 1) == Padding(n) + ['=']
  {
  }

  lemma HoldsNothing(input: Bytes)
    ensures Holds(input, 0, 0, 0)
  {
  }

  // ---- decoding ----

  /** The value of a character of the alphabet. */
  function Value(c: char): Option<nat> {
    if 'A' <= c <= 'Z' then Some(c as nat - 65)
    else if '2' <= c <= '7' then Some(c as nat - 24)
    else None
  }

  /** The data characters: those in front of the padding. */
  function DataOf(s: string): seq<nat> {
    if s == [] then []
    else match Value(s[0]) case None => [] case Some(v) => [v] + DataOf(s[1..])
  }

  /** Bit `t` of five, the most significant first. */
  function FiveBit(x: nat, t: nat): nat
    requires t < 5
  {
    match t
    case 0 => x / 16 % 2
    case 1 => x / 8 % 2
    case 2 => x / 4 % 2
    case 3 => x / 2 % 2
    case _ => x % 2
  }

  function QBit(q: seq<nat>, b: nat): nat {
    if b / 5 < |q| then FiveBit(q[b / 5], b % 5) else 0
  }

  function QByte(q: seq<nat>, i: nat): nat {
    128 * QBit(q, 8 * i) + 64 * QBit(q, 8 * i + 1) + 32 * QBit(q, 8 * i + 2) + 16 * QBit(q, 8 * i + 3)
    + 8 * QBit(q, 8 * i + 4) + 4 * QBit(q, 8 * i + 5) + 2 * QBit(q, 8 * i + 6) + QBit(q, 8 * i + 7)
  }

  /** The bytes whose bits are the data characters' five bits each. */
  function Decoded(s: string): seq<nat> {
    var q := DataOf(s);
    seq(5 * |q| / 8, i requires 0 <= i < 5 * |q| / 8 => QByte(q, i))
  }

  lemma PadHasNoValue()
    ensures Value('=') == None
  {
  }

  lemma ValueOfAlphabet(v: nat)
    requires v < 32
    ensures Value(Letter(v)) == Some(v)
  {
  }

  lemma {:induction false} DataOfEncoded(input: Bytes, count: nat, from: nat, pad: string)
    requires from <= count && forall c :: c in pad ==> c == '='
    ensures var q := DataOf(Quintets(input, count)[from..] + pad);
            |q| == count - from && forall j :: 0 <= j < |q| ==> q[j] == Quintet(input, from + j)
    decreases count - from
  {
    hide Quintet, Letter, Value, Quintets;
    PadHasNoValue();
    var s := Quintets(input, count)[from..] + pad;
    if from == count {
      assert s == pad;
      assert pad != [] ==> pad[0] in pad;
    } else {
      ValueOfAlphabet(Quintet(input, from));
      assert s[0] == Letter(Quintet(input, from));
      DataOfEncoded(input, count, from + 1, pad);
      assert s[1..] == Quintets(input, count)[from + 1..] + pad;
    }
  }

  lemma QuintetBits(a: nat, b: nat, c: nat, d: nat, e: nat)
    requires a <= 1 && b <= 1 && c <= 1 && d <= 1 && e <= 1
    ensures var x := 16 * a + 8 * b + 4 * c + 2 * d + e;
            x / 16 % 2 == a && x / 8 % 2 == b && x / 4 % 2 == c && x / 2 % 2 == d && x % 2 == e
  {
    var x := 16 * a + 8 * b + 4 * c + 2 * d + e;
    assert x / 16 == a;
    assert x / 8 == 2 * a + b;
    assert x / 4 == 4 * a + 2 * b + c;
    assert x / 2 == 8 * a + 4 * b + 2 * c + d;
  }

  lemma BitOfQuintet(input: Bytes, j: nat, t: nat)
    requires t < 5
    ensures FiveBit(Quintet(input, j), t) == Bit(input, 5 * j + t)
  {
    var a := 5 * j;
    hide Bit;
    assert Window(input, a, 0) == 0;
    WindowByTwo(input, a, 0);
    WindowByTwo(input, a, 2);
    assert Window(input, a, 5) == 2 * Window(input, a, 4) + Bit(input, a + 4);
    hide Window;
    QuintetBits(Bit(input, a), Bit(input, a + 1), Bit(input, a + 2), Bit(input, a + 3), Bit(input, a + 4));
  }

  lemma QBitIs(input: Bytes, q: seq<nat>, b: nat)
    requires forall j :: 0 <= j < |q| ==> q[j] == Quintet(input, j)
    requires b < 5 * |q|
    ensures QBit(q, b) == Bit(input, b)
  {
    BitOfQuintet(input, b / 5, b % 5);
  }

  lemma QByteIs(input: Bytes, q: seq<nat>, i: nat)
    requires forall j :: 0 <= j < |q| ==> q[j] == Quintet(input, j)
    requires i < |input| && 8 * i + 7 < 5 * |q|
    ensures QByte(q, i) == input[i]
  {
    hide QBit, Bit, Quintet, ByteBit;
    QBitOfByte(input, q, i, 0);
    QBitOfByte(input, q, i, 1);
    QBitOfByte(input, q, i, 2);
    QBitOfByte(input, q, i, 3);
    QBitOfByte(input, q, i, 4);
    QBitOfByte(input, q, i, 5);
    QBitOfByte(input, q, i, 6);
    QBitOfByte(input, q, i, 7);
    BitsOfByte(input[i]);
  }

  lemma BitsOfByte(x: Byte)
    ensures x == 128 * ByteBit(x, 0) + 64 * ByteBit(x, 1) + 32 * ByteBit(x, 2) + 16 * ByteBit(x, 3)
               + 8 * ByteBit(x, 4) + 4 * ByteBit(x, 5) + 2 * ByteBit(x, 6) + ByteBit(x, 7)
  {
    ByteBits(x);
  }

  lemma QBitOfByte(input: Bytes, q: seq<nat>, i: nat, t: nat)
    requires forall j :: 0 <= j < |q| ==> q[j] == Quintet(input, j)
    requires i < |input| && t < 8 && 8 * i + t < 5 * |q|
    ensures QBit(q, 8 * i + t) == ByteBit(input[i], t)
  {
    hide QBit, Bit;
    QBitIs(input, q, 8 * i + t);
    BitOfByte(input, i, t);
  }

  /** Every byte string is read back from its encoding. */
  lemma {:induction false} RoundTrip(input: Bytes)
    ensures Decoded(Encoded(input)) == input
  {
    var d := DataChars(|input|);
    var pad := Padding(8 * ((|input| + 4) / 5) - d);
    assert Quintets(input, d)[0..] == Quintets(input, d);
    DataOfEncoded(input, d, 0, pad);
    hide Quintet, Bit;
    var q := DataOf(Encoded(input));
    assert 5 * d / 8 == |input|;
    forall i | 0 <= i < |input| ensures QByte(q, i) == input[i] {
      QByteIs(input, q, i);
    }
  }

  // ---- the pairing code ----

  function PairingCode(hash: Bytes32): string {
    var e := Encoded(hash);
    e[0..5] + " " + e[5..10] + "\n" + e[10..15] + " " + e[15..20]
  }

  /** The pairing code tells exactly the first 100 bits of the handshake hash. */
  lemma {:induction false} PairingCodeShows100Bits(a: Bytes32, b: Bytes32)
    ensures PairingCode(a) == PairingCode(b) <==> forall i :: 0 <= i < 100 ==> Bit(a, i) == Bit(b, i)
  {
    hide Quintet, Bit;
    CodeIsQuintets(a, b);
    if forall i :: 0 <= i < 100 ==> Bit(a, i) == Bit(b, i) {
      forall j | 0 <= j < 20 ensures Quintet(a, j) == Quintet(b, j) {
        SameBitsSameQuintet(a, b, j);
      }
    }
    if forall j :: 0 <= j < 20 ==> Quintet(a, j) == Quintet(b, j) {
      forall i | 0 <= i < 100 ensures Bit(a, i) == Bit(b, i) {
        assert Quintet(a, i / 5) == Quintet(b, i / 5);
        BitOfQuintet(a, i / 5, i % 5);
        BitOfQuintet(b, i / 5, i % 5);
      }
    }
  }

  lemma SameBitsSameQuintet(a: Bytes, b: Bytes, j: nat)
    requires forall i :: 5 * j <= i < 5 * j + 5 ==> Bit(a, i) == Bit(b, i)
    ensures Quintet(a, j) == Quintet(b, j)
  {
    hide Bit;
    var s := 5 * j;
    assert Window(a, s, 2) == Window(b, s, 2);
    assert Window(a, s, 4) == Window(b, s, 4);
  }

  lemma AlphabetInjective(v: nat, w: nat)
    requires v < 32 && w < 32 && Letter(v) == Letter(w)
    ensures v == w
  {
    ValueOfAlphabet(v);
    ValueOfAlphabet(w);
  }

  lemma CodeIsQuintets(a: Bytes32, b: Bytes32)
    ensures PairingCode(a) == PairingCode(b) <==> forall j :: 0 <= j < 20 ==> Quintet(a, j) == Quintet(b, j)
  {
    hide Quintet;
    var e, f := Encoded(a), Encoded(b);
    if PairingCode(a) == PairingCode(b) {
      var p, q := PairingCode(a), PairingCode(b);
      assert p[0..5] == e[0..5] && p[6..11] == e[5..10] && p[12..17] == e[10..15] && p[18..23] == e[15..20];
      assert q[0..5] == f[0..5] && q[6..11] == f[5..10] && q[12..17] == f[10..15] && q[18..23] == f[15..20];
      assert e[..20] == e[0..5] + e[5..10] + e[10..15] + e[15..20];
      assert f[..20] == f[0..5] + f[5..10] + f[10..15] + f[15..20];
      forall j | 0 <= j < 20 ensures Quintet(a, j) == Quintet(b, j) {
        assert e[..20][j] == f[..20][j];
        AlphabetInjective(Quintet(a, j), Quintet(b, j));
      }
    }
    if forall j :: 0 <= j < 20 ==> Quintet(a, j) == Quintet(b, j) {
      assert e[..20] == f[..20];
      assert e[0..5] == e[..20][0..5] && e[5..10] == e[..20][5..10] && e[10..15] == e[..20][10..15] && e[15..20] == e[..20][15..20];
      assert f[0..5] == f[..20][0..5] && f[5..10] == f[..20][5..10] && f[10..15] == f[..20][10..15] && f[15..20] == f[..20][15..20];
    }
  }

  /** The character for a number below 32: A to Z, then 2 to 7. */
  function CharOf(v: nat): char
    requires v < 32
  {
    if v < 26 then 'A' + v as char else '2' + (v - 26) as char
  }

  lemma LetterIs(v: nat)
    requires v < 32
    ensures Letter(v) == CharOf(v)
  {
  }

  lemma QuintetIs(input: Bytes, j: nat)
    ensures Quintet(input, j) == 16 * Bit(input, 5 * j) + 8 * Bit(input, 5 * j + 1) + 4 * Bit(input, 5 * j + 2)
                                 + 2 * Bit(input, 5 * j + 3) + Bit(input, 5 * j + 4)
  {
    var a := 5 * j;
    hide Bit;
    assert Window(input, a, 0) == 0;
    assert Window(input, a, 2) == 2 * Bit(input, a) + Bit(input, a + 1);
    assert Window(input, a, 4) == 4 * Window(input, a, 2) + 2 * Bit(input, a + 2) + Bit(input, a + 3);
  }

  /** What is shown: four groups of five characters on two lines, one after the other, where
      character j stands for bits 5j to 5j + 4 of the hash. */
  lemma {:induction false} CodeIsShown(hash: Bytes32)
    ensures var code := PairingCode(hash);
            && |code| == 23 && code[5] == ' ' && code[11] == '\n' && code[17] == ' '
            && forall j: nat :: j < 20 ==>
                 && j + j / 5 < 23
                 && code[j + j / 5] == CharOf(16 * Bit(hash, 5 * j) + 8 * Bit(hash, 5 * j + 1) + 4 * Bit(hash, 5 * j + 2)
                                              + 2 * Bit(hash, 5 * j + 3) + Bit(hash, 5 * j + 4))
  {
    hide Quintet, Bit, Letter, CharOf;
    var e, code := Encoded(hash), PairingCode(hash);
    assert code[0..5] == e[0..5] && code[6..11] == e[5..10] && code[12..17] == e[10..15] && code[18..23] == e[15..20];
    forall j: nat | j < 20
      ensures j + j / 5 < 23
      ensures code[j + j / 5] == CharOf(16 * Bit(hash, 5 * j) + 8 * Bit(hash, 5 * j + 1) + 4 * Bit(hash, 5 * j + 2)
                                        + 2 * Bit(hash, 5 * j + 3) + Bit(hash, 5 * j + 4))
    {
      QuintetIs(hash, j);
      LetterIs(Quintet(hash, j));
      CodeAt(e, code, j);
    }
  }

  lemma CodeAt(e: string, code: string, j: nat)
    requires |e| >= 20 && |code| == 23 && j < 20
    requires code[0..5] == e[0..5] && code[6..11] == e[5..10] && code[12..17] == e[10..15] && code[18..23] == e[15..20]
    ensures j + j / 5 < 23 && code[j + j / 5] == e[j]
  {
    if j < 5 {
      assert code[0..5][j] == e[0..5][j];
    } else if j < 10 {
      assert code[6..11][j - 5] == e[5..10][j - 5];
    } else if j < 15 {
      assert code[12..17][j - 10] == e[10..15][j - 10];
    } else {
      assert code[18..23][j - 15] == e[15..20][j - 15];
    }
  }
}
