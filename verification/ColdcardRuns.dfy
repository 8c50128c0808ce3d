/** Whole conversations with a Coldcard: the ciphers stay in step, and files arrive whole. */
module ColdcardRuns {
  import opened Common
  import opened Driver
  import opened ColdcardCipher
  import opened ColdcardApi
  import opened Coldcard

  type PlainTalk = Talk<State, Bytes, ColdcardError>

  function Plainly(h: Hash, lib: Parsers): (State, Bytes) -> Step {
    (s, reply) => PlainStep(h, lib, s, reply)
  }

  /** A conversation in plain text. */
  function TalkPlainly(h: Hash, lib: Parsers, s: State, replies: seq<Bytes>): (t: PlainTalk)
    ensures |t.sent| <= |replies|
  {
    Converse(Plainly(h, lib), s, replies)
  }

  lemma TalkUnfolds(h: Hash, lib: Parsers, s: State, replies: seq<Bytes>)
    ensures replies == [] ==> TalkPlainly(h, lib, s, replies) == Talk(s, [], None)
    ensures replies != [] ==>
              var step := PlainStep(h, lib, s, replies[0]);
              TalkPlainly(h, lib, s, replies) ==
              if step.1.Err? then Talk(step.0, [], Some(Err(step.1.error)))
              else if step.1.value.None? then Talk(step.0, [], Some(Ok(())))
              else
                var rest := TalkPlainly(h, lib, step.0, replies[1..]);
                Talk(rest.s, [step.1.value.value] + rest.sent, rest.ended)
  {
    hide PlainStep, Converse;
    ConverseUnfolds(Plainly(h, lib), s, replies);
  }

  function TotalLength(messages: seq<Bytes>): nat {
    if messages == [] then 0 else |messages[0]| + TotalLength(messages[1..])
  }

  // ---- the ciphers stay in step ----

  /** The same conversation over the wire: the device encrypts its replies and decrypts the
      requests with its own engine. `sealed` is what the host sends, `heard` what the device
      decrypts. */
  datatype Wire = Wire(host: Machine, device: EngineState, sealed: seq<Bytes>, heard: seq<Bytes>, ended: Option<Result<(), ColdcardError>>)

  function ConverseEncrypted(h: Hash, lib: Parsers, host: Machine, device: EngineState, replies: seq<Bytes>): Wire
    decreases |replies|
  {
    if replies == [] then Wire(host, device, [], [], None)
    else
      match EncryptStep(device, replies[0])
      case (_, Err(_)) => Wire(host, device, [], [], Some(Err(Encryption)))
      case (device1, Ok(sealed)) =>
        match ExchangeStep(h, lib, host, sealed)
        case (host', Err(error)) => Wire(host', device1, [], [], Some(Err(error)))
        case (host', Ok(None)) => Wire(host', device1, [], [], Some(Ok(())))
        case (host', Ok(Some(transmit))) =>
          match DecryptStep(device1, transmit.payload)
          case (_, Err(_)) => Wire(host', device1, [], [], Some(Err(Encryption)))
          case (device2, Ok(request)) =>
            var w := ConverseEncrypted(h, lib, host', device2, replies[1..]);
            Wire(w.host, w.device, [transmit.payload] + w.sealed, [request] + w.heard, w.ended)
  }

  /** One round: the host takes in exactly the reply, the device exactly the request, and
      the positions move by their lengths. */
  lemma {:induction false} RoundInStep(h: Hash, lib: Parsers, host: Machine, device: EngineState, reply: Bytes)
    requires InStep(host.1, device) && Encrypts(host.0)
    ensures var (device1, sealed) := EncryptStep(device, reply);
            && sealed.Ok?
            && var (host', r) := ExchangeStep(h, lib, host, sealed.value);
               var (s', plain) := PlainStep(h, lib, host.0, reply);
            && host'.0 == s'
            && match plain
               case Err(error) => r == Err(error) && InStep(host'.1, device1)
               case Ok(None) => r == Ok(None) && InStep(host'.1, device1)
               case Ok(Some(request)) =>
                 && r.Ok? && r.value.Some? && r.value.value.encrypted
                 && DecryptStep(device1, r.value.value.payload).1 == Ok(request)
                 && InStep(host'.1, DecryptStep(device1, r.value.value.payload).0)
                 && |r.value.value.payload| == |request|
  {
    hide PlainStep, Apply;
    Understands(device, host.1, reply);
    var (host1, plain) := DecryptStep(host.1, EncryptStep(device, reply).1.value);
    var (s', request) := PlainStep(h, lib, host.0, reply);
    if request.Ok? && request.value.Some? {
      Understands(host1, EncryptStep(device, reply).0, request.value.value);
    }
  }

  /** Over a whole conversation that starts with engines in step, the device hears exactly
      the requests of the plain conversation and the host ends in its state; the position
      of the host's encryption has moved by the bytes of the requests, and that of its
      decryption by the bytes of the replies that it took in. */
  lemma {:induction false} StaysInStep(h: Hash, lib: Parsers, host: Machine, device: EngineState, replies: seq<Bytes>)
    requires InStep(host.1, device) && Encrypts(host.0)
    ensures var plain, wire := TalkPlainly(h, lib, host.0, replies), ConverseEncrypted(h, lib, host, device, replies);
            && wire.host.0 == plain.s && wire.heard == plain.sent && wire.ended == plain.ended
            && InStep(wire.host.1, wire.device)
            && wire.host.1.encrypted == host.1.encrypted + TotalLength(plain.sent)
            && wire.host.1.decrypted == host.1.decrypted + TotalLength(TakenIn(plain, replies))
    decreases |replies|
  {
    hide PlainStep, ExchangeStep, EncryptStep, DecryptStep, TalkPlainly;
    TalkUnfolds(h, lib, host.0, replies);
    if replies == [] {
      assert TakenIn(TalkPlainly(h, lib, host.0, replies), replies) == [];
    } else {
      RoundInStep(h, lib, host, device, replies[0]);
      RoundMoves(h, lib, host, device, replies[0]);
      PlainStepEnds(h, lib, host.0, replies[0]);
      var (s', plain) := PlainStep(h, lib, host.0, replies[0]);
      var (device1, sealed) := EncryptStep(device, replies[0]);
      var (host', r) := ExchangeStep(h, lib, host, sealed.value);
      var whole := TalkPlainly(h, lib, host.0, replies);
      if plain.Ok? && plain.value.Some? {
        var (device2, request) := DecryptStep(device1, r.value.value.payload);
        StaysInStep(h, lib, host', device2, replies[1..]);
        var rest := TalkPlainly(h, lib, s', replies[1..]);
        assert TakenIn(whole, replies) == [replies[0]] + TakenIn(rest, replies[1..]);
      } else {
        assert TakenIn(whole, replies) == [replies[0]];
      }
    }
  }

  /** The replies that a conversation took in: one for each request, and the last one. */
  function TakenIn(t: PlainTalk, replies: seq<Bytes>): seq<Bytes> {
    replies[..Min(|replies|, if t.ended.Some? then |t.sent| + 1 else |t.sent|)]
  }

  lemma RoundMoves(h: Hash, lib: Parsers, host: Machine, device: EngineState, reply: Bytes)
    requires InStep(host.1, device) && Encrypts(host.0)
    ensures var (device1, sealed) := EncryptStep(device, reply);
            var (host', r) := ExchangeStep(h, lib, host, sealed.value);
            var plain := PlainStep(h, lib, host.0, reply).1;
            && host'.1.Ready?
            && host'.1.decrypted == host.1.decrypted + |reply|
            && host'.1.encrypted == host.1.encrypted + if plain.Ok? && plain.value.Some? then |plain.value.value| else 0
  {
    hide PlainStep, Apply;
    Understands(device, host.1, reply);
  }

  /** A whole command: the device also hears its first request. */
  lemma {:induction false} CommandStaysInStep(h: Hash, lib: Parsers, m: Machine, device: EngineState, command: Command,
                                              replies: seq<Bytes>)
    requires InStep(m.1, device) && !command.StartEncryptionCommand? && FirstRequest(command).Ok?
    ensures var (host, sent) := Start(m, command);
            && sent.Ok? && sent.value.encrypted
            && var (device1, heard) := DecryptStep(device, sent.value.payload);
               var plain := TalkPlainly(h, lib, StartState(command), replies);
               var wire := ConverseEncrypted(h, lib, host, device1, replies);
            && heard == Ok(FirstRequest(command).value)
            && wire.host.0 == plain.s && wire.heard == plain.sent && wire.ended == plain.ended
            && InStep(wire.host.1, wire.device)
            && wire.host.1.encrypted == m.1.encrypted + TotalLength([FirstRequest(command).value] + plain.sent)
            && wire.host.1.decrypted == m.1.decrypted + TotalLength(TakenIn(plain, replies))
  {
    hide FirstRequest, Apply, ExchangeStep, PlainStep, TalkPlainly;
    Understands(m.1, device, FirstRequest(command).value);
    var (host, sent) := Start(m, command);
    StaysInStep(h, lib, host, DecryptStep(device, sent.value.payload).0, replies);
    var asked := TalkPlainly(h, lib, StartState(command), replies).sent;
    assert ([FirstRequest(command).value] + asked)[1..] == asked;
  }

  // ---- what goes over the wire ----

  /** One payload: its request under the keystream at the position of the host. */
  lemma RoundSeals(h: Hash, lib: Parsers, host: Machine, device: EngineState, reply: Bytes)
    requires InStep(host.1, device) && Encrypts(host.0)
    ensures var (host', r) := ExchangeStep(h, lib, host, EncryptStep(device, reply).1.value);
            r.Ok? && r.value.Some? ==>
              var request := PlainStep(h, lib, host.0, reply).1;
              && request.Ok? && request.value.Some? && host.1.Ready?
              && Ciphered(host.1.stream, host.1.encrypted, request.value.value, r.value.value.payload)
              && r.value.value.payload == Apply(host.1.stream, host.1.encrypted, request.value.value)
              && host'.1.Ready? && host'.1.stream == host.1.stream
              && host'.1.encrypted == host.1.encrypted + |request.value.value|
  {
    hide PlainStep, Apply, Ciphered;
    Understands(device, host.1, reply);
    var request := PlainStep(h, lib, host.0, reply).1;
    if request.Ok? && request.value.Some? {
      ApplyCiphers(host.1.stream, host.1.encrypted, request.value.value);
    }
  }

  /** Where the keystream for request `i` begins. */
  function PositionOf(at: nat, requests: seq<Bytes>, i: nat): nat
    requires i <= |requests|
  {
    at + TotalLength(requests[..i])
  }

  /** Over a whole conversation every payload that the host sends is its request with exactly
      the bits turned over that are 1 in the keystream at its place; so a request goes out as
      it is only where the keystream is all zero. */
  lemma {:induction false} PayloadsAreCiphered(h: Hash, lib: Parsers, host: Machine, device: EngineState, replies: seq<Bytes>, i: nat)
    requires InStep(host.1, device) && Encrypts(host.0)
    requires i < |ConverseEncrypted(h, lib, host, device, replies).sealed|
    ensures var wire := ConverseEncrypted(h, lib, host, device, replies);
            && |wire.sealed| == |wire.heard|
            && var request, at := wire.heard[i], PositionOf(host.1.encrypted, wire.heard, i);
               && Ciphered(host.1.stream, at, request, wire.sealed[i])
               && (wire.sealed[i] == request <==> forall p :: at <= p < at + |request| ==> host.1.stream(p) == 0)
    decreases |replies|
  {
    hide PlainStep, ExchangeStep, EncryptStep, DecryptStep, Apply, Ciphered;
    var wire := ConverseEncrypted(h, lib, host, device, replies);
    RoundInStep(h, lib, host, device, replies[0]);
    RoundSeals(h, lib, host, device, replies[0]);
    PlainStepEnds(h, lib, host.0, replies[0]);
    var (device1, sealed) := EncryptStep(device, replies[0]);
    var (host', r) := ExchangeStep(h, lib, host, sealed.value);
    var (device2, request) := DecryptStep(device1, r.value.value.payload);
    var rest := ConverseEncrypted(h, lib, host', device2, replies[1..]);
    SealsAndHears(h, lib, host', device2, replies[1..]);
    if i == 0 {
      assert wire.heard[..0] == [];
      UnchangedUnderZeros(host.1.stream, host.1.encrypted, request.value);
    } else {
      PayloadsAreCiphered(h, lib, host', device2, replies[1..], i - 1);
      assert wire.heard[..i] == [request.value] + rest.heard[..i - 1];
      assert wire.heard[..i][1..] == rest.heard[..i - 1];
    }
  }

  lemma {:induction false} SealsAndHears(h: Hash, lib: Parsers, host: Machine, device: EngineState, replies: seq<Bytes>)
    ensures var wire := ConverseEncrypted(h, lib, host, device, replies); |wire.sealed| == |wire.heard|
    decreases |replies|
  {
    hide ExchangeStep, EncryptStep, DecryptStep;
    if replies != [] {
      var (device1, sealed) := EncryptStep(device, replies[0]);
      if sealed.Ok? {
        var (host', r) := ExchangeStep(h, lib, host, sealed.value);
        if r.Ok? && r.value.Some? {
          SealsAndHears(h, lib, host', DecryptStep(device1, r.value.value.payload).0, replies[1..]);
        }
      }
    }
  }

  // ---- against any device ----

  /** What the host handed out and took in, whatever bytes it was answered. */
  datatype Log = Log(host: Machine, handedOut: seq<Bytes>, takenIn: seq<Bytes>)

  function Answered(h: Hash, lib: Parsers, m: Machine, answers: seq<Bytes>): Log
    decreases |answers|
  {
    if answers == [] then Log(m, [], [])
    else
      var (m', r) := ExchangeStep(h, lib, m, answers[0]);
      if r.Ok? && r.value.Some? then
        var rest := Answered(h, lib, m', answers[1..]);
        Log(rest.host, [r.value.value.payload] + rest.handedOut, [answers[0]] + rest.takenIn)
      else Log(m', [], [answers[0]])
  }

  /** The positions of the host count the bytes of the encrypted payloads that it handed
      out, and of the answers that it took in, even when the last of them was an error. */
  lemma {:induction false} PositionsCount(h: Hash, lib: Parsers, m: Machine, answers: seq<Bytes>)
    requires m.1.Ready? && Encrypts(m.0)
    ensures var log := Answered(h, lib, m, answers);
            && log.host.1.Ready? && log.host.1.stream == m.1.stream
            && log.host.1.encrypted == m.1.encrypted + TotalLength(log.handedOut)
            && log.host.1.decrypted == m.1.decrypted + TotalLength(log.takenIn)
    decreases |answers|
  {
    hide PlainStep;
    if answers != [] {
      var (m', r) := ExchangeStep(h, lib, m, answers[0]);
      PlainStepEnds(h, lib, m.0, Apply(m.1.stream, m.1.decrypted, answers[0]));
      if r.Ok? && r.value.Some? {
        PositionsCount(h, lib, m', answers[1..]);
        var rest := Answered(h, lib, m', answers[1..]);
        assert ([r.value.value.payload] + rest.handedOut)[1..] == rest.handedOut;
        assert ([answers[0]] + rest.takenIn)[1..] == rest.takenIn;
      } else {
        assert TotalLength([answers[0]]) == |answers[0]|;
      }
    }
  }
}
