/** The loop that drives any interpreter: `run_command_inner` of bhwi-async/src/lib.rs. */
module Driver {
  import opened Common

  datatype Recipient = ToDevice | ToPinServer(url: Bytes)

  datatype Transmit = Transmit(recipient: Recipient, payload: Bytes, encrypted: bool)

  /** What a round trip over a transport or to the PIN server brings. */
  datatype Reply = Answer(data: Bytes) | Failure(afterWrite: bool)

  /** An interpreter as a state machine: `start`, `exchange`, and `end`, which yields a
      response or the missing-result error (None). */
  datatype Interpreter<!S, !C, !R, !E> = Interpreter(
    start: (S, C) -> (S, Result<Transmit, E>),
    exchange: (S, Bytes) -> (S, Result<Option<Transmit>, E>),
    end: S -> Option<R>)

  datatype Outcome<+R, +E> =
    | Response(response: R)
    | DeviceAction
    | Interpreting(error: E)
    | MissingResult
    | TransportFailed
    | HttpFailed
    | Waiting   // the replies given so far do not finish the command

  /** The loop, from the result of the last `exchange`. */
  function Loop<S, C, R, E>(i: Interpreter<S, C, R, E>, s: S, last: Result<Option<Transmit>, E>,
                            replies: seq<Reply>, allowFinalDisconnect: bool): Outcome<R, E>
    decreases |replies|
  {
    match last
    case Err(error) => Interpreting(error)
    case Ok(None) => (match i.end(s) case Some(response) => Response(response) case None => MissingResult)
    case Ok(Some(transmit)) =>
      if replies == [] then Waiting
      else
        match replies[0]
        case Failure(afterWrite) =>
          if transmit.recipient.ToPinServer? then HttpFailed
          else if allowFinalDisconnect && afterWrite then DeviceAction
          else TransportFailed
        case Answer(data) =>
          var (s', next) := i.exchange(s, data);
          Loop(i, s', next, replies[1..], allowFinalDisconnect)
  }

  /** A whole command. The first transmit always goes to the device, and losing the
      connection there is always an error. */
  function Run<S, C, R, E>(i: Interpreter<S, C, R, E>, s: S, command: C,
                           replies: seq<Reply>, allowFinalDisconnect: bool): Outcome<R, E>
  {
    match i.start(s, command)
    case (_, Err(error)) => Interpreting(error)
    case (s1, Ok(transmit)) =>
      if replies == [] then Waiting
      else
        match replies[0]
        case Failure(_) => TransportFailed
        case Answer(data) =>
          var (s2, next) := i.exchange(s1, data);
          Loop(i, s2, next, replies[1..], allowFinalDisconnect)
  }

  /** The part of a command between a state and a sequence of answers: the state it ends in,
      what was sent, and how the answers ended it, if they did. */
  datatype Talk<+S, +T, +E> = Talk(s: S, sent: seq<T>, ended: Option<Result<(), E>>)

  function Converse<S, T, E>(exchange: (S, Bytes) -> (S, Result<Option<T>, E>), s: S, answers: seq<Bytes>): (t: Talk<S, T, E>)
    ensures |t.sent| <= |answers|
    decreases |answers|
  {
    if answers == [] then Talk(s, [], None)
    else
      var (s', r) := exchange(s, answers[0]);
      if r.Err? then Talk(s', [], Some(Err(r.error)))
      else if r.value.None? then Talk(s', [], Some(Ok(())))
      else
        var t := Converse(exchange, s', answers[1..]);
        Talk(t.s, [r.value.value] + t.sent, t.ended)
  }

  /** One answer of a conversation. */
  lemma ConverseUnfolds<S, T, E>(exchange: (S, Bytes) -> (S, Result<Option<T>, E>), s: S, answers: seq<Bytes>)
    ensures answers == [] ==> Converse(exchange, s, answers) == Talk(s, [], None)
    ensures answers != [] ==>
              var step := exchange(s, answers[0]);
              Converse(exchange, s, answers) ==
              if step.1.Err? then Talk(step.0, [], Some(Err(step.1.error)))
              else if step.1.value.None? then Talk(step.0, [], Some(Ok(())))
              else
                var rest := Converse(exchange, step.0, answers[1..]);
                Talk(rest.s, [step.1.value.value] + rest.sent, rest.ended)
  {
  }

  /** A conversation that goes on is continued by what follows. */
  lemma {:induction false} ConverseAppend<S, T, E>(exchange: (S, Bytes) -> (S, Result<Option<T>, E>), s: S,
                                                   a: seq<Bytes>, b: seq<Bytes>)
    requires Converse(exchange, s, a).ended.None?
    ensures var t := Converse(exchange, s, a);
            var u := Converse(exchange, t.s, b);
            Converse(exchange, s, a + b) == Talk(u.s, t.sent + u.sent, u.ended) && |t.sent| == |a|
    decreases |a|
  {
    if a == [] {
      assert a + b == b;
    } else {
      assert (a + b)[1..] == a[1..] + b;
      var s' := exchange(s, a[0]).0;
      ConverseAppend(exchange, s', a[1..], b);
    }
  }

  method RunCommandInner<S, C, R, E>(i: Interpreter<S, C, R, E>, initial: S, command: C,
                                     replies: seq<Reply>, allowFinalDisconnect: bool)
    returns (outcome: Outcome<R, E>)
    ensures outcome == Run(i, initial, command, replies, allowFinalDisconnect)
  {
    var (s, started) := i.start(initial, command);
    if started.Err? {
      return Interpreting(started.error);
    }
    if replies == [] {
      return Waiting;
    }
    if replies[0].Failure? {
      return TransportFailed;
    }
    var step := i.exchange(s, replies[0].data);
    s := step.0;
    var transmit := step.1;
    var used := 1;
    while transmit.Ok? && transmit.value.Some?
      invariant 1 <= used <= |replies|
      invariant Run(i, initial, command, replies, allowFinalDisconnect)
             == Loop(i, s, transmit, replies[used..], allowFinalDisconnect)
      decreases |replies| - used
    {
      if used == |replies| {
        return Waiting;
      }
      assert replies[used..][1..] == replies[used + 1..];
      match replies[used] {
        case Failure(afterWrite) =>
          if transmit.value.value.recipient.ToPinServer? {
            return HttpFailed;
          }
          return if allowFinalDisconnect && afterWrite then DeviceAction else TransportFailed;
        case Answer(data) =>
          step := i.exchange(s, data);
          s := step.0;
          transmit := step.1;
          used := used + 1;
      }
    }
    if transmit.Err? {
      return Interpreting(transmit.error);
    }
    match i.end(s) {
      case Some(response) => return Response(response);
      case None => return MissingResult;
    }
  }

  /** The interpreter contract: in an active state, a transmit leads to an active state
      again, and "no more transmits" means that a response is ready. */
  ghost predicate Honours<S(!new), C, R, E>(i: Interpreter<S, C, R, E>, active: S -> bool) {
    forall s, data :: active(s) ==>
      var (s', r) := i.exchange(s, data);
      && (r.Ok? && r.value.Some? ==> active(s'))
      && (r.Ok? && r.value.None? ==> i.end(s').Some?)
  }

  lemma {:induction false} LoopNeverMisses<S(!new), C, R, E>(i: Interpreter<S, C, R, E>, active: S -> bool, s: S,
      last: Result<Option<Transmit>, E>, replies: seq<Reply>, allowFinalDisconnect: bool)
    requires Honours(i, active)
    requires last.Ok? && last.value.Some? ==> active(s)
    requires last.Ok? && last.value.None? ==> i.end(s).Some?
    ensures Loop(i, s, last, replies, allowFinalDisconnect) != MissingResult
    decreases |replies|
  {
    if last.Ok? && last.value.Some? && replies != [] && replies[0].Answer? {
      var (s', next) := i.exchange(s, replies[0].data);
      LoopNeverMisses(i, active, s', next, replies[1..], allowFinalDisconnect);
    }
  }

  /** Whatever the device and the PIN server answer, and however the connection fails,
      a command that was started never ends with the missing-result error. */
  lemma {:induction false} NeverMisses<S(!new), C, R, E>(i: Interpreter<S, C, R, E>, active: S -> bool, initial: S, command: C,
                                replies: seq<Reply>, allowFinalDisconnect: bool)
    requires Honours(i, active)
    requires i.start(initial, command).1.Ok? ==> active(i.start(initial, command).0)
    ensures Run(i, initial, command, replies, allowFinalDisconnect) != MissingResult
  {
    var (s1, started) := i.start(initial, command);
    if started.Ok? && replies != [] && replies[0].Answer? {
      var (s2, next) := i.exchange(s1, replies[0].data);
      LoopNeverMisses(i, active, s2, next, replies[1..], allowFinalDisconnect);
    }
  }

  // ---- what the driver makes of a conversation ----

  function AsReplies(answers: seq<Bytes>): (r: seq<Reply>)
    ensures |r| == |answers| && forall i :: 0 <= i < |r| ==> r[i] == Answer(answers[i])
  {
    seq(|answers|, i requires 0 <= i < |answers| => Answer(answers[i]))
  }

  /** How a conversation ends for the caller: with the error of the interpreter, with its
      response, or not yet. */
  function EndOf<S, C, R, E>(i: Interpreter<S, C, R, E>, t: Talk<S, Transmit, E>): Outcome<R, E> {
    match t.ended
    case None => Waiting
    case Some(Err(error)) => Interpreting(error)
    case Some(Ok(_)) => match i.end(t.s) case Some(response) => Response(response) case None => MissingResult
  }

  /** What a broken connection means after the last of these transmits: an error of HTTP if that
      went to the PIN server; the device at work, if the caller allows it and the request had
      been written; and otherwise an error of the transport, as before the first answer. */
  function Broken<R, E>(sent: seq<Transmit>, afterWrite: bool, allowFinalDisconnect: bool): Outcome<R, E> {
    if sent == [] then TransportFailed
    else if sent[|sent| - 1].recipient.ToPinServer? then HttpFailed
    else if allowFinalDisconnect && afterWrite then DeviceAction
    else TransportFailed
  }

  lemma {:induction false} LoopConverses<S, C, R, E>(i: Interpreter<S, C, R, E>, s: S, transmit: Transmit, answers: seq<Bytes>,
      afterWrite: bool, more: seq<Reply>, allowFinalDisconnect: bool)
    ensures Loop(i, s, Ok(Some(transmit)), AsReplies(answers), allowFinalDisconnect) == EndOf(i, Converse(i.exchange, s, answers))
    ensures var t := Converse(i.exchange, s, answers);
            Loop(i, s, Ok(Some(transmit)), AsReplies(answers) + [Failure(afterWrite)] + more, allowFinalDisconnect) ==
            if t.ended.Some? then EndOf(i, t) else Broken([transmit] + t.sent, afterWrite, allowFinalDisconnect)
    decreases |answers|
  {
    ConverseUnfolds(i.exchange, s, answers);
    var whole := AsReplies(answers) + [Failure(afterWrite)] + more;
    if answers == [] {
      assert whole[0] == Failure(afterWrite);
    } else {
      var (s', r) := i.exchange(s, answers[0]);
      assert AsReplies(answers)[1..] == AsReplies(answers[1..]);
      assert whole[0] == Answer(answers[0]);
      assert whole[1..] == AsReplies(answers[1..]) + [Failure(afterWrite)] + more;
      if r.Ok? && r.value.Some? {
        LoopConverses(i, s', r.value.value, answers[1..], afterWrite, more, allowFinalDisconnect);
        var t := Converse(i.exchange, s', answers[1..]);
        LastOf(transmit, r.value.value, t.sent);
      }
    }
  }

  lemma LastOf(first: Transmit, second: Transmit, sent: seq<Transmit>)
    ensures ([first] + ([second] + sent))[|sent| + 1] == ([second] + sent)[|sent|]
  {
  }

  /** A command that is answered throughout ends as its conversation does; if the connection
      breaks before that, it ends as the last transmit calls for. */
  lemma {:induction false} RunConverses<S, C, R, E>(i: Interpreter<S, C, R, E>, initial: S, command: C, answers: seq<Bytes>,
      afterWrite: bool, more: seq<Reply>, allowFinalDisconnect: bool)
    ensures var (s, started) := i.start(initial, command);
            var t := Converse(i.exchange, s, answers);
            if started.Err? then
              && Run(i, initial, command, AsReplies(answers), allowFinalDisconnect) == Interpreting(started.error)
              && Run(i, initial, command, AsReplies(answers) + [Failure(afterWrite)] + more, allowFinalDisconnect)
                 == Interpreting(started.error)
            else
              && Run(i, initial, command, AsReplies(answers), allowFinalDisconnect) == EndOf(i, t)
              && Run(i, initial, command, AsReplies(answers) + [Failure(afterWrite)] + more, allowFinalDisconnect)
                 == if t.ended.Some? then EndOf(i, t) else Broken(t.sent, afterWrite, allowFinalDisconnect)
  {
    var (s, started) := i.start(initial, command);
    ConverseUnfolds(i.exchange, s, answers);
    var whole := AsReplies(answers) + [Failure(afterWrite)] + more;
    if answers == [] {
      assert whole[0] == Failure(afterWrite);
    } else {
      var (s', r) := i.exchange(s, answers[0]);
      assert AsReplies(answers)[1..] == AsReplies(answers[1..]);
      assert whole[0] == Answer(answers[0]);
      assert whole[1..] == AsReplies(answers[1..]) + [Failure(afterWrite)] + more;
      if r.Ok? && r.value.Some? {
        LoopConverses(i, s', r.value.value, answers[1..], afterWrite, more, allowFinalDisconnect);
      }
    }
  }
}
