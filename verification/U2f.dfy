/** The U2F-HID packet codec of bhwi/src/bitbox/u2f.rs: messages in reports of 64 bytes,
    as in section 11.2.4 of the FIDO Client to Authenticator Protocol 2.1. */
module U2f {
  import opened Common

  const HEADER_CONT_LEN: nat := 5
  const MAX_LEN: nat := 129 * 64

  /** The longest message that the encoder accepts: 57 bytes in the first frame and 59 in
      each of 127 more. */
  const MAX_MESSAGE: nat := 57 + 127 * 59

  datatype U2fError = HeaderTooShort | WontFit | TooManyFrames | WrongCid | WrongCmd
    | Panicked   // an overflow check or a slice out of bounds stops the program

  const U16: nat := 0x1_0000

  /** What the frames of a message take up. */
  function EncodedLen(len: nat): (r: nat)
    ensures 64 <= r && r % 64 == 0
  {
    if len < 57 then 64 else 64 + 64 * ((59 + (len - 57) - 1) / 59)
  }

  /** `get_encoded_len`, which sums in 16 bits: with overflow checks, as in a debug build,
      an overflow stops the program, and without them the sum wraps around. */
  function EncodedLenU16(len: nat, checks: bool): Option<nat>
    requires len < U16
  {
    if len < 57 then Some(64)
    else
      var sum := 59 + (len - 57);
      if checks && sum >= U16 then None
      else Some(64 + 64 * (((sum % U16 + U16 - 1) % U16) / 59))
  }

  /** It is right up to 65533, and without checks also for 65534; for 65535 the wrapped sum
      gives the length of a single frame. */
  lemma EncodedLenU16Is(len: nat, checks: bool)
    requires len < U16
    ensures EncodedLenU16(len, checks) ==
            if len <= 65533 then Some(EncodedLen(len))
            else if checks then None
            else if len == 65534 then Some(EncodedLen(len)) else Some(64)
  {
    if len >= 57 {
      hide EncodedLenU16;
      SumU16(len, checks);
    }
  }

  /** The three ranges of the sum. */
  lemma SumU16(len: nat, checks: bool)
    requires 57 <= len < U16
    ensures len <= 65533 ==> EncodedLenU16(len, checks) == Some(64 + 64 * ((len + 1) / 59))
    ensures len >= 65534 && checks ==> EncodedLenU16(len, checks) == None
    ensures len == 65534 ==> EncodedLenU16(len, false) == Some(64 + 64 * (65535 / 59))
    ensures len == 65535 ==> EncodedLenU16(len, false) == Some(64)
  {
    var sum := 59 + (len - 57);
    assert sum == len + 2;
    if len <= 65533 {
      assert sum % U16 == sum && (sum + U16 - 1) % U16 == len + 1;
    } else if len == 65534 {
      assert sum % U16 == 0 && (U16 - 1) % U16 == 65535;
    } else {
      assert sum % U16 == 1 && U16 % U16 == 0;
    }
  }

  /** Where byte `i` of a message stands in its frames. */
  function Pos(i: nat): nat {
    if i < 57 then 7 + i else 64 + 64 * ((i - 57) / 59) + 5 + (i - 57) % 59
  }

  /** Where the last byte of a message of `n` bytes ends. */
  function End(n: nat): nat {
    if n <= 57 then 7 + n else Pos(n - 1) + 1
  }

  /** Where continuation frame `f` starts, and the first message byte in it. */
  function FrameStart(f: nat): nat { 64 + 64 * f }
  function FrameFirst(f: nat): nat { 57 + 59 * f }

  /** How many continuation frames carry `n` bytes. */
  function Frames(n: nat): nat {
    if n <= 57 then 0 else (n - 57 + 58) / 59
  }

  function InitHeader(cid: nat, cmd: Byte, len: nat): (r: Bytes)
    ensures |r| == 7
  {
    ToBe(cid, 4) + [cmd] + ToBe(len, 2)
  }

  function ContHeader(cid: nat, f: nat): (r: Bytes)
    ensures |r| == 5
  {
    ToBe(cid, 4) + [f % 256]
  }

  /** The frames of `m` fill `buf` from its start. */
  ghost predicate Framed(buf: Bytes, cid: nat, cmd: Byte, m: Bytes)
  {
    && EncodedLen(|m|) <= |buf|
    && buf[..7] == InitHeader(cid, cmd, |m|)
    && Carries(buf, m, |m|, |buf|)
    && HasHeaders(buf, cid, Frames(|m|))
  }

  ghost predicate HasHeader(buf: Bytes, cid: nat, f: nat) {
    FrameStart(f) + 5 <= |buf| && buf[FrameStart(f)..FrameStart(f) + 5] == ContHeader(cid, f)
  }

  lemma PosInFrame(f: nat, k: nat)
    requires k < 59
    ensures Pos(FrameFirst(f) + k) == FrameStart(f) + 5 + k
  {
    assert (59 * f + k) / 59 == f && (59 * f + k) % 59 == k;
  }

  lemma PosFits(i: nat, n: nat)
    requires i < n
    ensures Pos(i) < EncodedLen(n)
  {
    if i >= 57 {
      assert (i - 57) / 59 <= (n - 58) / 59;
      assert (59 + (n - 57) - 1) / 59 == (n - 58) / 59 + 1;
    }
  }

  lemma {:induction false} PosGrows(i: nat, j: nat)
    requires i <= j
    ensures Pos(i) <= Pos(j)
    decreases j
  {
    if i < j {
      PosGrows(i, j - 1);
      NextPos(j - 1);
    }
  }

  lemma NextPos(i: nat)
    ensures Pos(i) < Pos(i + 1)
  {
    if i >= 57 {
      var f, k := (i - 57) / 59, (i - 57) % 59;
      hide Pos;
      PosInFrame(f, k);
      if k < 58 {
        PosInFrame(f, k + 1);
      } else {
        PosInFrame(f + 1, 0);
      }
    }
  }

  lemma PosBeforeEnd(i: nat, n: nat)
    requires i < n
    ensures Pos(i) < End(n) <= EncodedLen(n)
  {
    PosFits(n - 1, n);
    PosGrows(i, n - 1);
  }

  /** What `encode` returns for a message of `n` bytes and a buffer of `room` bytes. A message
      of 65536 bytes or more passes the test of the buffer with its length modulo 65536, so
      the frames may run out of the buffer: within a frame header, which is an error, or
      behind one, which stops the program. */
  function EncodeResult(n: nat, room: nat, checks: bool): Result<nat, U2fError> {
    match EncodedLenU16(n % U16, checks)
    case None => Err(Panicked)
    case Some(length) =>
      if room < length then Err(WontFit)
      else if n <= MAX_MESSAGE then Ok(length)
      else if room >= MAX_LEN then Err(TooManyFrames)
      else if room % 64 < HEADER_CONT_LEN then Err(HeaderTooShort)
      else Err(Panicked)
  }

  lemma NoResult(n: nat, room: nat, checks: bool)
    requires EncodedLenU16(n % U16, checks).None?
    ensures EncodeResult(n, room, checks) == Err(Panicked)
  {
  }

  lemma ResultOf(n: nat, room: nat, checks: bool, length: nat)
    requires EncodedLenU16(n % U16, checks) == Some(length)
    ensures room < length ==> EncodeResult(n, room, checks) == Err(WontFit)
    ensures room >= length && n <= MAX_MESSAGE ==> EncodeResult(n, room, checks) == Ok(length)
    ensures room >= length && n > MAX_MESSAGE && room >= MAX_LEN ==> EncodeResult(n, room, checks) == Err(TooManyFrames)
    ensures room >= length && n > MAX_MESSAGE && room < MAX_LEN ==>
              EncodeResult(n, room, checks) == Err(if room % 64 < HEADER_CONT_LEN then HeaderTooShort else Panicked)
  {
    hide EncodedLenU16;
  }

  /** With a buffer of the maximal size, encoding stops the program exactly if overflow
      checks are on and the length of the message is 65534 or 65535 modulo 65536. In any
      buffer no message of fewer than 65534 bytes does. */
  lemma {:induction false} EncodePanicsExactly(n: nat, room: nat, checks: bool)
    ensures EncodeResult(n, room, checks) == Err(Panicked) <==>
            || (checks && n % U16 >= 65534)
            || (n >= 65535 && EncodedLenU16(n % U16, checks).Some?
                && EncodedLenU16(n % U16, checks).value <= room < MAX_LEN && room % 64 >= HEADER_CONT_LEN)
    ensures EncodeResult(n, room, checks).Ok? ==> n <= MAX_MESSAGE && EncodeResult(n, room, checks) == Ok(EncodedLen(n))
    ensures n <= MAX_MESSAGE && room >= EncodedLen(n) ==> EncodeResult(n, room, checks).Ok?
  {
    hide EncodedLenU16, EncodedLen, EncodeResult;
    EncodedLenU16Is(n % U16, checks);
    if EncodedLenU16(n % U16, checks).None? {
      NoResult(n, room, checks);
    } else {
      ResultOf(n, room, checks, EncodedLenU16(n % U16, checks).value);
      LengthCovers(n, checks);
      LongNeedsMost(n);
    }
  }

  lemma LongNeedsMost(n: nat)
    ensures n > MAX_MESSAGE ==> EncodedLen(n) >= MAX_LEN
  {
    if n > MAX_MESSAGE {
      assert (59 + (n - 57) - 1) / 59 >= 128;
    }
  }

  class U2fHid {
    const cid: nat
    const cmd: Byte

    /** Whether the program was built with overflow checks. */
    const checks: bool

    constructor (cid: nat, cmd: Byte, checks: bool)
      requires cid < U32
      ensures this.cid == cid && this.cmd == cmd && this.checks == checks
    {
      this.cid, this.cmd, this.checks := cid, cmd, checks;
    }

    /** Writes the frames of a message of at most 7550 bytes into `buf`, in place, and leaves
        the padding of the last frame as it was; refuses longer messages, or stops. */
    method Encode(message: Bytes, buf: array<Byte>) returns (r: Result<nat, U2fError>)
      modifies buf
      ensures r == EncodeResult(|message|, buf.Length, checks)
      ensures r == Err(WontFit) ==> buf[..] == old(buf[..])
      ensures r.Ok? ==>
                && r.value == EncodedLen(|message|)
                && Framed(buf[..], cid, cmd, message)
                && End(|message|) <= buf.Length && buf[End(|message|)..] == old(buf[End(|message|)..])
    {
      hide Pos, EncodedLen, EncodedLenU16, EncodeResult, InitHeader, ContHeader, HasHeaders, Carries, Frames, End, Framed,
           FrameFirst, FrameStart;
      ghost var original := buf[..];
      var n := |message|;
      var length := EncodedLenU16(n % U16, checks);
      if length.None? {
        NoResult(n, buf.Length, checks);
        return Err(Panicked);
      }
      var encLen := length.value;
      LengthCovers(n, checks);
      ResultOf(n, buf.Length, checks, encLen);
      if buf.Length < encLen {
        return Err(WontFit);
      }
      var c := if n < 57 then n else 57;
      Write(buf, 0, InitHeader(cid, cmd, n % U16), message[..c]);
      var o, f := 7 + c, 0;
      FirstFrame(buf[..], cid, message, c);
      while c < n
        invariant buf.Length >= encLen && f <= 127 && f <= Frames(n)
        invariant c == if n < FrameFirst(f) then n else FrameFirst(f)
        invariant o == if c < n then FrameStart(f) else End(n)
        invariant o <= buf.Length
        invariant c == n ==> f == Frames(n)
        invariant buf[..7] == InitHeader(cid, cmd, n % U16)
        invariant Carries(buf[..], message, c, o) && HasHeaders(buf[..], cid, f)
        invariant buf[..][o..] == original[o..]
        decreases n - c
      {
        NextFrame(f);
        var take := if n - c < 59 then n - c else 59;
        RunsOut(n, f, buf.Length, take, checks, encLen);
        if buf.Length - o < HEADER_CONT_LEN {
          return Err(HeaderTooShort);
        }
        if buf.Length - o - HEADER_CONT_LEN < take {
          return Err(Panicked);
        }
        EndOfFrame(n, f);
        ghost var before := buf[..];
        WriteFrame(message, buf, f, take);
        SameSuffix(before, original, o, o + 5 + take);
        o, c, f := o + 5 + take, c + take, f + 1;
        if f > 127 {
          TooLong(n);
          return Err(TooManyFrames);
        }
      }
      ShortEnough(n, f);
      FramesComplete(buf[..], cid, cmd, message, o);
      r := Ok(encLen);
    }

    /** Writes continuation frame `f`. */
    method WriteFrame(message: Bytes, buf: array<Byte>, f: nat, take: nat)
      requires FrameFirst(f) + take <= |message| && take <= 59 && FrameStart(f) + 5 + take <= buf.Length
      requires Carries(buf[..], message, FrameFirst(f), FrameStart(f)) && HasHeaders(buf[..], cid, f)
      modifies buf
      ensures Carries(buf[..], message, FrameFirst(f) + take, FrameStart(f) + 5 + take) && HasHeaders(buf[..], cid, f + 1)
      ensures buf[..7] == old(buf[..7]) && buf[FrameStart(f) + 5 + take..] == old(buf[FrameStart(f) + 5 + take..])
    {
      hide Pos, ContHeader, HasHeaders, Carries;
      ghost var before := buf[..];
      Write(buf, FrameStart(f), ContHeader(cid, f), message[FrameFirst(f)..FrameFirst(f) + take]);
      FrameWritten(before, buf[..], cid, message, f, take);
    }

    /** Takes the frames off the front of the buffer. */
    method Decode(buf: Bytes) returns (r: Result<Option<Bytes>, U2fError>)
      ensures r == Decoded(cid, cmd, checks, buf)
    {
      hide Pos, EncodedLen, EncodedLenU16, End, Extracted, FrameFirst, FrameStart, FromBe;
      if |buf| < 7 {
        return Err(HeaderTooShort);
      }
      var len := DeclaredLen(buf);
      if FromBe(buf[..4]) != cid {
        return Err(WrongCid);
      }
      if buf[4] != cmd {
        return Err(WrongCmd);
      }
      var length := EncodedLenU16(len, checks);
      if length.None? {
        return Err(Panicked);
      }
      if |buf| < length.value {
        return Ok(None);
      }
      EncodedLenU16Is(len, checks);
      ghost var m := if |buf| >= End(len) then Extracted(buf, len) else [];
      var take := if len < 57 then len else 57;
      EndOfFirst(len);
      var res := buf[7..7 + take];
      if |buf| >= End(len) {
        ExtractedFirst(buf, len);
      }
      var rest := buf[7 + take..];
      var left := len - take;
      ghost var f := 0;
      while left > 0
        invariant left == if len <= FrameFirst(f) then 0 else len - FrameFirst(f)
        invariant left > 0 ==> FrameStart(f) <= |buf| && rest == buf[FrameStart(f)..]
        invariant |buf| >= End(len) ==> res == m[..len - left]
        invariant left == 0 ==> |buf| >= End(len)
        decreases left
      {
        take := if left < 59 then left else 59;
        EndBehindFrame(len, f, take);
        if |rest| < HEADER_CONT_LEN + take {
          return Err(Panicked);
        }
        if |buf| >= End(len) {
          ExtractedFrame(buf, len, f, take);
        }
        res := res + rest[5..5 + take];
        rest := rest[5 + take..];
        left := left - take;
        f := f + 1;
      }
      assert m[..len] == m;
      r := Ok(Some(res));
    }
  }

  /** The length that a header announces. */
  function DeclaredLen(buf: Bytes): (n: nat)
    requires |buf| >= 7
    ensures n < U16
  {
    256 * (buf[5] as nat) + buf[6]
  }

  /** What `decode` returns: the bytes at the message positions, once all frames are there. */
  function Decoded(cid: nat, cmd: Byte, checks: bool, buf: Bytes): Result<Option<Bytes>, U2fError> {
    if |buf| < 7 then Err(HeaderTooShort)
    else if FromBe(buf[..4]) != cid then Err(WrongCid)
    else if buf[4] != cmd then Err(WrongCmd)
    else
      match EncodedLenU16(DeclaredLen(buf), checks)
      case None => Err(Panicked)
      case Some(length) =>
        if |buf| < length then Ok(None)
        else if |buf| < End(DeclaredLen(buf)) then Err(Panicked)
        else Ok(Some(Extracted(buf, DeclaredLen(buf))))
  }

  /** Decoding stops the program exactly if the header is for this channel and command, and,
      with overflow checks, announces 65534 bytes or more; without them, announces 65535
      while there are 64 bytes, but fewer than the 71092 that such frames take. */
  lemma {:induction false} DecodePanicsExactly(cid: nat, cmd: Byte, checks: bool, buf: Bytes)
    ensures Decoded(cid, cmd, checks, buf) == Err(Panicked) <==>
            && |buf| >= 7 && FromBe(buf[..4]) == cid && buf[4] == cmd
            && (if checks then DeclaredLen(buf) >= 65534 else DeclaredLen(buf) == 65535 && 64 <= |buf| < 71092)
  {
    if |buf| >= 7 {
      EncodedLenU16Is(DeclaredLen(buf), checks);
      EndIsCovered(DeclaredLen(buf));
      assert End(65535) == 71092;
    }
  }

  /** A single report is enough. */
  lemma {:induction false} OneReportPanics(cid: nat, cmd: Byte, checks: bool, padding: Bytes)
    requires cid < U32 && |padding| == 57
    ensures Decoded(cid, cmd, checks, InitHeader(cid, cmd, 65535) + padding) == Err(Panicked)
  {
    hide InitHeader, Decoded;
    var buf := InitHeader(cid, cmd, 65535) + padding;
    HeaderParses(cid, cmd, 65535);
    assert buf[..7] == InitHeader(cid, cmd, 65535);
    assert buf[..4] == buf[..7][..4] && buf[4] == buf[..7][4] && buf[5] == buf[..7][5] && buf[6] == buf[..7][6];
    DecodePanicsExactly(cid, cmd, checks, buf);
  }

  function Extracted(buf: Bytes, len: nat): (m: Bytes)
    requires |buf| >= End(len)
    ensures |m| == len && forall i :: 0 <= i < len ==> Pos(i) < |buf| && m[i] == buf[Pos(i)]
  {
    assert forall i :: 0 <= i < len ==> Pos(i) < |buf| by {
      forall i | 0 <= i < len ensures Pos(i) < |buf| { PosBeforeEnd(i, len); }
    }
    seq(len, i requires 0 <= i < len => buf[Pos(i)])
  }

  /** A frame header and the payload behind it, copied to position `o`. */
  method Write(buf: array<Byte>, o: nat, header: Bytes, payload: Bytes)
    requires o + |header| + |payload| <= buf.Length
    modifies buf
    ensures var e := o + |header| + |payload|;
            && buf[..o] == old(buf[..o]) && buf[e..] == old(buf[e..])
            && buf[o..o + |header|] == header && buf[o + |header|..e] == payload
  {
    CopyAt(buf, o, header);
    ghost var between := buf[..];
    CopyAt(buf, o + |header|, payload);
    ghost var after := buf[..];
    assert after[..o] == after[..o + |header|][..o] && between[..o] == between[..o + |header|][..o];
    assert after[o..o + |header|] == after[..o + |header|][o..] && between[o..o + |header|] == between[..o + |header|][o..];
    assert between[o + |header|..][|payload|..] == between[o + |header| + |payload|..];
  }

  method CopyAt(buf: array<Byte>, o: nat, data: Bytes)
    requires o + |data| <= buf.Length
    modifies buf
    ensures buf[..o] == old(buf[..o]) && buf[o..o + |data|] == data && buf[o + |data|..] == old(buf[o + |data|..])
  {
    forall j | o <= j < o + |data| {
      buf[j] := data[j - o];
    }
  }

  /** The first `c` message bytes are in place, all before position `o`. */
  ghost predicate Carries(buf: Bytes, m: Bytes, c: nat, o: nat)
    requires c <= |m| && o <= |buf|
  {
    forall i :: 0 <= i < c ==> Pos(i) < o && buf[Pos(i)] == m[i]
  }

  ghost predicate HasHeaders(buf: Bytes, cid: nat, f: nat) {
    forall g :: 0 <= g < f ==> HasHeader(buf, cid, g)
  }

  lemma EndIsCovered(len: nat)
    ensures End(len) <= EncodedLen(len)
  {
    if len > 57 {
      PosFits(len - 1, len);
    }
  }

  /** The first frame is always there, and is all for up to 57 bytes. */
  lemma EndOfFirst(len: nat)
    ensures len <= 57 ==> End(len) == 7 + len && EncodedLen(len) == 64
    ensures FrameFirst(0) == 57 && FrameStart(0) == 64
  {
  }

  /** A message that reaches a frame ends in it or behind it. */
  lemma EndBehindFrame(len: nat, f: nat, take: nat)
    requires len > FrameFirst(f) && take == if len - FrameFirst(f) < 59 then len - FrameFirst(f) else 59
    ensures FrameStart(f) + 5 + take <= End(len)
    ensures len <= FrameFirst(f + 1) ==> End(len) == FrameStart(f) + 5 + take
    ensures FrameFirst(f + 1) == FrameFirst(f) + 59 && FrameStart(f + 1) == FrameStart(f) + 64
  {
    if len <= FrameFirst(f + 1) {
      EndOfFrame(len, f);
    } else {
      PosInFrame(f, 58);
      PosBeforeEnd(FrameFirst(f) + 58, len);
    }
  }

  lemma ExtractedFirst(buf: Bytes, len: nat)
    requires |buf| >= End(len)
    ensures var take := if len < 57 then len else 57;
            buf[7..7 + take] == Extracted(buf, len)[..take]
  {
  }

  lemma ExtractedFrame(buf: Bytes, len: nat, f: nat, take: nat)
    requires |buf| >= End(len)
    requires FrameFirst(f) + take <= len && take <= 59 && FrameStart(f) + 5 + take <= |buf|
    ensures var m := Extracted(buf, len);
            m[..FrameFirst(f)] + buf[FrameStart(f)..][5..5 + take] == m[..FrameFirst(f) + take]
  {
    hide Pos, EncodedLen;
    var m := Extracted(buf, len);
    var payload := buf[FrameStart(f)..][5..5 + take];
    forall k | 0 <= k < take ensures payload[k] == m[FrameFirst(f) + k] {
      PosInFrame(f, k);
    }
  }

  /** Every message that is encoded is decoded: the frames in any buffer give back the
      message, whatever the padding, and every shorter piece of at least 7 bytes asks for
      more. */
  lemma {:induction false} DecodesEncoded(buf: Bytes, cid: nat, cmd: Byte, checks: bool, m: Bytes, p: nat)
    requires cid < U32 && |m| <= MAX_MESSAGE && Framed(buf, cid, cmd, m)
    requires 7 <= p <= |buf|
    ensures DeclaredLen(buf[..p]) == |m|
    ensures Decoded(cid, cmd, checks, buf[..p]) == if p < EncodedLen(|m|) then Ok(None) else Ok(Some(m))
  {
    var piece := buf[..p];
    HeaderParses(cid, cmd, |m|);
    assert piece[..7] == InitHeader(cid, cmd, |m|);
    assert piece[..4] == piece[..7][..4] && piece[4] == piece[..7][4] && piece[5] == piece[..7][5] && piece[6] == piece[..7][6];
    EncodedLenU16Is(|m|, checks);
    EndIsCovered(|m|);
    hide Pos, EncodedLen, EncodedLenU16, End, InitHeader;
    if p >= EncodedLen(|m|) {
      assert Extracted(piece, |m|) == m;
    }
  }

  lemma HeaderParses(cid: nat, cmd: Byte, len: nat)
    requires cid < U32 && len < 0x1_0000
    ensures var header := InitHeader(cid, cmd, len);
            FromBe(header[..4]) == cid && header[4] == cmd && DeclaredLen(header) == len
  {
    var header := InitHeader(cid, cmd, len);
    Exp256Values();
    FromBeToBe(cid, 4);
    assert header[..4] == ToBe(cid, 4);
    assert ToBe(len, 2) == ToBe(len / 256, 1) + [len % 256];
    assert ToBe(len / 256, 1) == ToBe(0, 0) + [len / 256];
  }

  lemma FirstFrame(buf: Bytes, cid: nat, m: Bytes, c: nat)
    requires c == if |m| < 57 then |m| else 57
    requires 7 + c <= |buf| && buf[7..7 + c] == m[..c]
    ensures Carries(buf, m, c, 7 + c) && HasHeaders(buf, cid, 0)
    ensures c == if |m| < FrameFirst(0) then |m| else FrameFirst(0)
    ensures 7 + c == if c < |m| then FrameStart(0) else End(|m|)
    ensures c == |m| ==> Frames(|m|) == 0
  {
    forall i | 0 <= i < c ensures buf[Pos(i)] == m[i] {
      assert buf[7..7 + c][i] == m[..c][i];
    }
  }

  lemma TooLong(n: nat)
    ensures Frames(n) >= 128 ==> n > MAX_MESSAGE
  {
  }

  lemma ShortEnough(n: nat, f: nat)
    requires f == Frames(n) && f <= 127
    ensures n <= MAX_MESSAGE && n % 0x1_0000 == n
  {
  }

  lemma FramesComplete(buf: Bytes, cid: nat, cmd: Byte, m: Bytes, o: nat)
    requires |m| <= MAX_MESSAGE && EncodedLen(|m|) <= |buf| && o <= |buf|
    requires buf[..7] == InitHeader(cid, cmd, |m|)
    requires Carries(buf, m, |m|, o) && HasHeaders(buf, cid, Frames(|m|))
    ensures Framed(buf, cid, cmd, m)
  {
  }

  lemma SameSuffix(a: Bytes, b: Bytes, o: nat, e: nat)
    requires |a| == |b| && o <= e <= |a| && a[o..] == b[o..]
    ensures a[e..] == b[e..]
  {
    assert a[e..] == a[o..][e - o..] && b[e..] == b[o..][e - o..];
  }

  lemma NextFrame(f: nat)
    ensures FrameFirst(f + 1) == FrameFirst(f) + 59 && FrameStart(f + 1) == FrameStart(f) + 64 && FrameStart(f) >= 7
  {
  }

  /** A length that passed the test covers every frame of the message, unless the message
      has 65535 bytes or more. */
  lemma LengthCovers(n: nat, checks: bool)
    requires EncodedLenU16(n % U16, checks).Some?
    ensures EncodedLenU16(n % U16, checks).value >= 64
    ensures n < 65535 ==> EncodedLenU16(n % U16, checks).value == EncodedLen(n)
  {
    hide EncodedLenU16, EncodedLen;
    EncodedLenU16Is(n % U16, checks);
  }

  /** When a frame does not fit, and what that means for the result. */
  lemma RunsOut(n: nat, f: nat, room: nat, take: nat, checks: bool, length: nat)
    requires FrameFirst(f) < n && f <= 127 && FrameStart(f) <= room
    requires EncodedLenU16(n % U16, checks) == Some(length) && length <= room
    requires n < 65535 ==> length == EncodedLen(n)
    requires take == if n - FrameFirst(f) < 59 then n - FrameFirst(f) else 59
    ensures room < FrameStart(f) + 5 + take ==>
              EncodeResult(n, room, checks) == Err(if room - FrameStart(f) < 5 then HeaderTooShort else Panicked)
    ensures f == 127 && room >= FrameStart(f) + 5 + take ==> EncodeResult(n, room, checks) == Err(TooManyFrames)
  {
    hide EncodedLenU16, EncodeResult;
    ResultOf(n, room, checks, length);
    if n < 65535 {
      assert (59 + (n - 57) - 1) / 59 >= f + 1;
    }
  }

  lemma EndOfFrame(n: nat, f: nat)
    requires FrameFirst(f) < n
    ensures n <= FrameFirst(f + 1) ==> End(n) == FrameStart(f) + 5 + (n - FrameFirst(f)) && Frames(n) == f + 1
    ensures n > FrameFirst(f + 1) ==> Frames(n) > f + 1
  {
    if n <= FrameFirst(f + 1) {
      PosInFrame(f, n - 1 - FrameFirst(f));
    }
  }

  /** What one continuation frame adds. */
  lemma FrameWritten(before: Bytes, after: Bytes, cid: nat, m: Bytes, f: nat, take: nat)
    requires FrameFirst(f) + take <= |m| && take <= 59
    requires |before| == |after| && FrameStart(f) + 5 + take <= |before|
    requires Carries(before, m, FrameFirst(f), FrameStart(f)) && HasHeaders(before, cid, f)
    requires after[..FrameStart(f)] == before[..FrameStart(f)]
    requires after[FrameStart(f)..FrameStart(f) + 5] == ContHeader(cid, f)
    requires after[FrameStart(f) + 5..FrameStart(f) + 5 + take] == m[FrameFirst(f)..FrameFirst(f) + take]
    ensures Carries(after, m, FrameFirst(f) + take, FrameStart(f) + 5 + take) && HasHeaders(after, cid, f + 1)
    ensures after[..7] == before[..7]
  {
    hide Pos, ContHeader;
    forall i | 0 <= i < FrameFirst(f) + take
      ensures Pos(i) < FrameStart(f) + 5 + take && after[Pos(i)] == m[i]
    {
      if i < FrameFirst(f) {
        assert after[Pos(i)] == after[..FrameStart(f)][Pos(i)];
      } else {
        var k := i - FrameFirst(f);
        PosInFrame(f, k);
        assert after[FrameStart(f) + 5..FrameStart(f) + 5 + take][k] == m[FrameFirst(f)..FrameFirst(f) + take][k];
      }
    }
    forall g | 0 <= g < f
      ensures HasHeader(after, cid, g)
    {
      assert HasHeader(before, cid, g);
      assert after[FrameStart(g)..FrameStart(g) + 5] == after[..FrameStart(f)][FrameStart(g)..FrameStart(g) + 5];
      assert before[FrameStart(g)..FrameStart(g) + 5] == before[..FrameStart(f)][FrameStart(g)..FrameStart(g) + 5];
    }
    assert after[..7] == after[..FrameStart(f)][..7] && before[..7] == before[..FrameStart(f)][..7];
  }

  // ---- the frames, byte by byte ----

  /** The first frame: channel, command, length, and up to 57 bytes of the message. */
  ghost predicate FirstFrameIs(buf: Bytes, cid: nat, cmd: Byte, m: Bytes)
    requires |buf| >= 64
  {
    && FromBe(buf[..4]) == cid && buf[4] == cmd && 256 * (buf[5] as nat) + buf[6] == |m|
    && forall i :: 0 <= i < 57 && i < |m| ==> buf[7 + i] == m[i]
  }

  /** Continuation frame `f`: channel, sequence number, and up to 59 bytes more. */
  ghost predicate FrameIs(buf: Bytes, cid: nat, m: Bytes, f: nat)
    requires |buf| >= 64 * (f + 2)
  {
    var start := 64 * (f + 1);
    && FromBe(buf[start..start + 4]) == cid && buf[start + 4] == f
    && forall i :: 57 + 59 * f <= i < 57 + 59 * (f + 1) && i < |m| ==> buf[start + 5 + (i - (57 + 59 * f))] == m[i]
  }

  /** A message of n bytes takes one frame for its first 57 bytes and one for every 59 that
      follow, each with the channel and, from 0 on, its number in front. */
  lemma {:induction false} FramesAre(buf: Bytes, cid: nat, cmd: Byte, m: Bytes)
    requires cid < U32 && |m| <= MAX_MESSAGE && Framed(buf, cid, cmd, m)
    ensures var more := if |m| <= 57 then 0 else (|m| - 57 + 58) / 59;
            && more <= 127 && EncodedLen(|m|) == 64 * (more + 1) <= |buf|
            && FirstFrameIs(buf, cid, cmd, m)
            && forall f: nat :: f < more ==> FrameIs(buf, cid, m, f)
  {
    hide Pos, InitHeader, ContHeader, FrameIs, FirstFrameIs;
    var more := Frames(|m|);
    FramesLength(|m|);
    FirstFrameIsSo(buf, cid, cmd, m);
    forall f: nat | f < more ensures FrameIs(buf, cid, m, f) {
      FrameIsSo(buf, cid, cmd, m, f);
    }
  }

  lemma FramesLength(n: nat)
    requires n <= MAX_MESSAGE
    ensures Frames(n) <= 127 && EncodedLen(n) == 64 * (Frames(n) + 1)
  {
    if n == 57 {
      assert (59 + (n - 57) - 1) / 59 == 0;
    }
  }

  lemma FirstFrameIsSo(buf: Bytes, cid: nat, cmd: Byte, m: Bytes)
    requires cid < U32 && |m| <= MAX_MESSAGE && Framed(buf, cid, cmd, m) && |buf| >= 64
    ensures FirstFrameIs(buf, cid, cmd, m)
  {
    hide InitHeader, HasHeaders, Frames, EncodedLen;
    HeaderParses(cid, cmd, |m|);
    assert buf[..4] == buf[..7][..4] && buf[4] == buf[..7][4] && buf[5] == buf[..7][5] && buf[6] == buf[..7][6];
    forall i | 0 <= i < 57 && i < |m| ensures buf[7 + i] == m[i] {
      assert Pos(i) == 7 + i;
    }
  }

  lemma FrameIsSo(buf: Bytes, cid: nat, cmd: Byte, m: Bytes, f: nat)
    requires cid < U32 && |m| <= MAX_MESSAGE && Framed(buf, cid, cmd, m) && f < Frames(|m|) && |buf| >= 64 * (f + 2)
    ensures FrameIs(buf, cid, m, f)
  {
    hide Pos, InitHeader, ContHeader, Frames, EncodedLen, FromBe;
    FramesLength(|m|);
    assert HasHeader(buf, cid, f);
    ContHeaderParses(buf, cid, f);
    forall i | 57 + 59 * f <= i < 57 + 59 * (f + 1) && i < |m| ensures buf[64 * (f + 1) + 5 + (i - (57 + 59 * f))] == m[i] {
      PosInFrame(f, i - (57 + 59 * f));
    }
  }

  lemma ContHeaderParses(buf: Bytes, cid: nat, f: nat)
    requires cid < U32 && f <= 127 && HasHeader(buf, cid, f)
    ensures var start := 64 * (f + 1); FromBe(buf[start..start + 4]) == cid && buf[start + 4] == f
  {
    hide ToBe, FromBe;
    var start := 64 * (f + 1);
    Exp256Values();
    FromBeToBe(cid, 4);
    var header := buf[start..start + 5];
    assert header == ToBe(cid, 4) + [f];
    assert header[..4] == ToBe(cid, 4) && buf[start..start + 4] == header[..4] && buf[start + 4] == header[4];
  }
}
