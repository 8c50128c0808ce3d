/** APDU framing: bhwi/src/ledger/apdu.rs. */
module Apdu {
  import opened Common

  const CLA_DEFAULT: Byte := 0xB0
  const CLA_BITCOIN: Byte := 0xE1
  const CLA_FRAMEWORK: Byte := 0xF8
  const CURRENT_PROTOCOL_VERSION: Byte := 1

  const INS_GET_EXTENDED_PUBKEY: Byte := 0x00
  const INS_REGISTER_WALLET: Byte := 0x02
  const INS_GET_WALLET_ADDRESS: Byte := 0x03
  const INS_SIGN_PSBT: Byte := 0x04
  const INS_GET_MASTER_FINGERPRINT: Byte := 0x05
  const INS_SIGN_MESSAGE: Byte := 0x10
  const INS_CONTINUE_INTERRUPTED: Byte := 0x01

  datatype ApduCommand = ApduCommand(cla: Byte, ins: Byte, p1: Byte, p2: Byte, data: Bytes) {
    /** The length byte is `data.len() as u8`. */
    function Encode(): Bytes {
      [cla, ins, p1, p2, |data| % 256] + data
    }
  }

  function BitcoinCommand(ins: Byte, data: Bytes): ApduCommand {
    ApduCommand(CLA_BITCOIN, ins, 0x00, CURRENT_PROTOCOL_VERSION, data)
  }

  function ContinueInterrupted(data: Bytes): ApduCommand {
    ApduCommand(CLA_FRAMEWORK, INS_CONTINUE_INTERRUPTED, 0x00, CURRENT_PROTOCOL_VERSION, data)
  }

  /** How a device reads a command: the length byte must be the length of the rest. */
  function ParseCommand(bytes: Bytes): Option<ApduCommand> {
    if |bytes| < 5 || |bytes| != 5 + (bytes[4] as nat) then None
    else Some(ApduCommand(bytes[0], bytes[1], bytes[2], bytes[3], bytes[5..]))
  }

  /** A command arrives if and only if its data has at most 255 bytes. */
  lemma {:induction false} CommandArrives(c: ApduCommand)
    ensures ParseCommand(c.Encode()) == Some(c) <==> |c.data| <= 255
  {
    assert c.Encode()[5..] == c.data;
  }

  datatype StatusWord =
    | Deny | IncorrectData | NotSupported | WrongP1P2 | WrongDataLength | InsNotSupported
    | ClaNotSupported | BadState | SignatureFail | CommandNotAllowed | OK | InterruptedExecution

  function Code(w: StatusWord): (c: nat)
    ensures c < 0x1_0000
  {
    match w
    case Deny => 0x6985
    case IncorrectData => 0x6A80
    case NotSupported => 0x6A82
    case WrongP1P2 => 0x6A86
    case WrongDataLength => 0x6A87
    case InsNotSupported => 0x6D00
    case ClaNotSupported => 0x6E00
    case BadState => 0xB007
    case SignatureFail => 0xB008
    case CommandNotAllowed => 0x6901
    case OK => 0x9000
    case InterruptedExecution => 0xE000
  }

  function ParseStatusWord(code: nat): Option<StatusWord> {
    match code
    case 0x6985 => Some(Deny)
    case 0x6901 => Some(CommandNotAllowed)
    case 0x6A80 => Some(IncorrectData)
    case 0x6A82 => Some(NotSupported)
    case 0x6A86 => Some(WrongP1P2)
    case 0x6A87 => Some(WrongDataLength)
    case 0x6D00 => Some(InsNotSupported)
    case 0x6E00 => Some(ClaNotSupported)
    case 0xB007 => Some(BadState)
    case 0xB008 => Some(SignatureFail)
    case 0x9000 => Some(OK)
    case 0xE000 => Some(InterruptedExecution)
    case _ => None
  }

  datatype ApduResponse = ApduResponse(data: Bytes, status: StatusWord) {
    function Encode(): Bytes {
      data + ToBe(Code(status), 2)
    }
  }

  datatype ApduError = StatusWordUnknown | ResponseTooShort

  function ParseResponse(res: Bytes): Result<ApduResponse, ApduError> {
    if |res| < 2 then Err(ResponseTooShort)
    else
      match ParseStatusWord(256 * (res[|res| - 2] as nat) + res[|res| - 1])
      case None => Err(StatusWordUnknown)
      case Some(status) => Ok(ApduResponse(res[..|res| - 2], status))
  }

  /** Parsing accepts exactly the encodings of responses and inverts them. */
  lemma {:induction false} ResponsesRoundTrip(res: Bytes, r: ApduResponse)
    ensures ParseResponse(res) == Ok(r) <==> res == r.Encode()
  {
    hide Code, ParseStatusWord, ToBe;
    TwoBytes(Code(r.status));
    var encoded := r.Encode();
    assert encoded[..|encoded| - 2] == r.data;
    StatusOf(Code(r.status), r.status);
    if ParseResponse(res) == Ok(r) {
      var code := 256 * (res[|res| - 2] as nat) + res[|res| - 1];
      StatusOf(code, r.status);
      assert code / 256 == res[|res| - 2] && code % 256 == res[|res| - 1];
      assert res == res[..|res| - 2] + [res[|res| - 2], res[|res| - 1]];
    }
  }

  lemma TwoBytes(n: nat)
    requires n < 0x1_0000
    ensures ToBe(n, 2) == [n / 256, n % 256]
  {
    assert n / 256 < 256;
    assert ToBe(n / 256, 1) == ToBe(0, 0) + [n / 256];
  }

  lemma StatusOf(code: nat, w: StatusWord)
    ensures ParseStatusWord(code) == Some(w) <==> code == Code(w)
  {
  }
}
