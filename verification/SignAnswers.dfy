/** What the BitBox02 is told while it signs: every answer of the loop is the part of the
    transaction that was asked for, and a device that asks for all parts has the whole. */
module SignAnswers {
  import opened Common
  import opened PsbtFields
  import opened BitBoxSign
  import opened SignLoop

  // ---- one answer ----

  /** The request carries what the reply asked for. */
  ghost predicate IsAnswer(tx: Transaction, next: Next, request: Request) {
    match next.kind
    case Input => next.index < |tx.inputs| && DescribesInput(tx.inputs[next.index], request)
    case Output => request.SignOutput? && next.index < |tx.outputs| && request.signed == tx.outputs[next.index]
    case PrevtxInit =>
      && request.SendPrevtx? && next.index < |tx.inputs| && tx.inputs[next.index].prevTx.Some?
      && var prev := tx.inputs[next.index].prevTx.value;
         && request.version == prev.version && request.numInputs == |prev.inputs|
         && request.numOutputs == |prev.outputs| && request.locktime == prev.locktime
    case PrevtxInput =>
      && request.SendPrevtxInput? && next.index < |tx.inputs| && tx.inputs[next.index].prevTx.Some?
      && next.prevIndex < |tx.inputs[next.index].prevTx.value.inputs|
      && request.input == tx.inputs[next.index].prevTx.value.inputs[next.prevIndex]
    case PrevtxOutput =>
      && request.SendPrevtxOutput? && next.index < |tx.inputs| && tx.inputs[next.index].prevTx.Some?
      && next.prevIndex < |tx.inputs[next.index].prevTx.value.outputs|
      && request.output == tx.inputs[next.index].prevTx.value.outputs[next.prevIndex]
    case HostNonce => request.AntikleptoSignature?
    case _ => false
  }

  /** All that is said of an input when it is to be signed. */
  predicate DescribesInput(input: TxInput, request: Request) {
    && request.SignInput?
    && request.prevHash == input.prevHash && request.prevIndex == input.prevIndex && request.value == input.value
    && request.sequence == input.sequence && request.keypath == input.keypath && request.configIndex == input.configIndex
  }

  lemma StepAnswers(lib: Crypto, ctx: Ctx, event: Event)
    requires Drive(lib, ctx, event).Continue?
    ensures event.next.Some? && IsAnswer(ctx.tx, event.next.value, Drive(lib, ctx, event).request)
    ensures Drive(lib, ctx, event).ctx.tx == ctx.tx
  {
    hide Schnorr, VerifyEcdsa, Applied;
  }

  /** In every run, whatever the device asks for, it is answered with that part of the
      transaction that the loop began with. */
  lemma {:induction false} RunAnswers(lib: Crypto, start: Ctx, events: seq<Event>)
    requires Reached(lib, start, events).Some?
    ensures Reached(lib, start, events).value.tx == start.tx && |Asked(lib, start, events)| == |events|
    ensures forall i :: 0 <= i < |events| ==>
              events[i].next.Some? && IsAnswer(start.tx, events[i].next.value, Asked(lib, start, events)[i])
  {
    hide Drive, IsAnswer;
    if events != [] {
      var n := |events| - 1;
      RunAnswers(lib, start, events[..n]);
      StepAnswers(lib, Reached(lib, start, events[..n]).value, events[n]);
    }
  }

  // ---- what a device knows then ----

  datatype PrevTotals = PrevTotals(version: nat, numInputs: nat, numOutputs: nat, locktime: nat)

  /** The memory of a device: what it was told, by what it had asked for. */
  datatype Memory = Memory(
    outputs: map<nat, TxOutput>,
    totals: map<nat, PrevTotals>,
    prevInputs: map<(nat, nat), TxIn>,
    prevOutputs: map<(nat, nat), TxOut>)

  const BLANK: Memory := Memory(map[], map[], map[], map[])

  function Learn(known: Memory, next: Next, request: Request): Memory {
    match (next.kind, request)
    case (Output, SignOutput(output)) => known.(outputs := known.outputs[next.index := output])
    case (PrevtxInit, SendPrevtx(version, numInputs, numOutputs, locktime)) =>
      known.(totals := known.totals[next.index := PrevTotals(version, numInputs, numOutputs, locktime)])
    case (PrevtxInput, SendPrevtxInput(input)) => known.(prevInputs := known.prevInputs[(next.index, next.prevIndex) := input])
    case (PrevtxOutput, SendPrevtxOutput(output)) => known.(prevOutputs := known.prevOutputs[(next.index, next.prevIndex) := output])
    case _ => known
  }

  function Learnt(events: seq<Event>, asked: seq<Request>): Memory
    requires |events| == |asked| && forall i :: 0 <= i < |events| ==> events[i].next.Some?
  {
    if events == [] then BLANK
    else
      var n := |events| - 1;
      Learn(Learnt(events[..n], asked[..n]), events[n].next.value, asked[n])
  }

  /** Output `k`, once all outputs are known. */
  function OutputsFrom(known: Memory, n: nat): Option<seq<TxOutput>> {
    if forall k :: 0 <= k < n ==> k in known.outputs
    then Some(seq(n, k requires 0 <= k < n && k in known.outputs => known.outputs[k])) else None
  }

  predicate KnowsPrevTx(known: Memory, k: nat) {
    && k in known.totals
    && (forall j :: 0 <= j < known.totals[k].numInputs ==> (k, j) in known.prevInputs)
    && (forall j :: 0 <= j < known.totals[k].numOutputs ==> (k, j) in known.prevOutputs)
  }

  /** The previous transaction of input `k`, once all its parts are known. */
  function PrevTxFrom(known: Memory, k: nat): Option<PrevTx> {
    if !KnowsPrevTx(known, k) then None
    else
      var totals := known.totals[k];
      Some(PrevTx(totals.version,
                  seq(totals.numInputs, j requires 0 <= j < totals.numInputs && (k, j) in known.prevInputs => known.prevInputs[(k, j)]),
                  seq(totals.numOutputs, j requires 0 <= j < totals.numOutputs && (k, j) in known.prevOutputs => known.prevOutputs[(k, j)]),
                  totals.locktime))
  }

  /** Everything in the memory is true of the transaction. */
  ghost predicate True(tx: Transaction, known: Memory) {
    && (forall k: nat :: k in known.outputs ==> k < |tx.outputs| && known.outputs[k] == tx.outputs[k])
    && (forall k: nat :: k in known.totals ==>
          && k < |tx.inputs| && tx.inputs[k].prevTx.Some?
          && var prev := tx.inputs[k].prevTx.value;
             known.totals[k] == PrevTotals(prev.version, |prev.inputs|, |prev.outputs|, prev.locktime))
    && (forall k: nat, j: nat :: (k, j) in known.prevInputs ==>
          && k < |tx.inputs| && tx.inputs[k].prevTx.Some? && j < |tx.inputs[k].prevTx.value.inputs|
          && known.prevInputs[(k, j)] == tx.inputs[k].prevTx.value.inputs[j])
    && (forall k: nat, j: nat :: (k, j) in known.prevOutputs ==>
          && k < |tx.inputs| && tx.inputs[k].prevTx.Some? && j < |tx.inputs[k].prevTx.value.outputs|
          && known.prevOutputs[(k, j)] == tx.inputs[k].prevTx.value.outputs[j])
  }

  lemma LearnsTruth(tx: Transaction, known: Memory, next: Next, request: Request)
    requires True(tx, known) && IsAnswer(tx, next, request)
    ensures True(tx, Learn(known, next, request))
  {
  }

  lemma {:induction false} LearntIsTrue(tx: Transaction, events: seq<Event>, asked: seq<Request>)
    requires |events| == |asked|
    requires forall i :: 0 <= i < |events| ==> events[i].next.Some? && IsAnswer(tx, events[i].next.value, asked[i])
    ensures True(tx, Learnt(events, asked))
  {
    hide IsAnswer, Learn, True;
    if events == [] {
      BlankIsTrue(tx);
    } else {
      var n := |events| - 1;
      LearntIsTrue(tx, events[..n], asked[..n]);
      LearnsTruth(tx, Learnt(events[..n], asked[..n]), events[n].next.value, asked[n]);
    }
  }

  lemma BlankIsTrue(tx: Transaction)
    ensures True(tx, BLANK)
  {
  }

  /** What a device puts together from true parts is the whole. */
  lemma TrueIsWhole(tx: Transaction, known: Memory)
    requires True(tx, known)
    ensures OutputsFrom(known, |tx.outputs|).Some? ==> OutputsFrom(known, |tx.outputs|).value == tx.outputs
    ensures forall k: nat :: PrevTxFrom(known, k).Some? ==> k < |tx.inputs| && tx.inputs[k].prevTx == PrevTxFrom(known, k)
  {
    forall k: nat | PrevTxFrom(known, k).Some? ensures k < |tx.inputs| && tx.inputs[k].prevTx == PrevTxFrom(known, k) {
      var prev := PrevTxFrom(known, k).value;
      assert prev.inputs == tx.inputs[k].prevTx.value.inputs;
      assert prev.outputs == tx.inputs[k].prevTx.value.outputs;
    }
  }

  // ---- a device that asks for everything ----

  ghost predicate Asks(events: seq<Event>, kind: Kind, index: nat, prevIndex: nat) {
    exists i :: 0 <= i < |events| && AsksFor(events[i], kind, index, prevIndex)
  }

  predicate AsksFor(event: Event, kind: Kind, index: nat, prevIndex: nat) {
    && event.next.Some? && event.next.value.kind == kind && event.next.value.index == index
    && (kind == PrevtxInput || kind == PrevtxOutput ==> event.next.value.prevIndex == prevIndex)
  }

  /** Every output, and every part of every previous transaction. */
  ghost predicate AsksForAll(tx: Transaction, events: seq<Event>) {
    && (forall k: nat :: k < |tx.outputs| ==> Asks(events, Output, k, 0))
    && forall k: nat :: k < |tx.inputs| && tx.inputs[k].prevTx.Some? ==>
         && Asks(events, PrevtxInit, k, 0)
         && (forall j: nat :: j < |tx.inputs[k].prevTx.value.inputs| ==> Asks(events, PrevtxInput, k, j))
         && (forall j: nat :: j < |tx.inputs[k].prevTx.value.outputs| ==> Asks(events, PrevtxOutput, k, j))
  }

  /** What was asked for is in the memory. */
  predicate Knows(known: Memory, kind: Kind, index: nat, prevIndex: nat) {
    match kind
    case Output => index in known.outputs
    case PrevtxInit => index in known.totals
    case PrevtxInput => (index, prevIndex) in known.prevInputs
    case PrevtxOutput => (index, prevIndex) in known.prevOutputs
    case _ => true
  }

  lemma LearnsWhatItAsks(tx: Transaction, known: Memory, event: Event, request: Request, kind: Kind, index: nat, prevIndex: nat)
    requires event.next.Some? && IsAnswer(tx, event.next.value, request)
    ensures AsksFor(event, kind, index, prevIndex) ==> Knows(Learn(known, event.next.value, request), kind, index, prevIndex)
    ensures Knows(known, kind, index, prevIndex) ==> Knows(Learn(known, event.next.value, request), kind, index, prevIndex)
  {
  }

  lemma {:induction false} AskedIsKnown(tx: Transaction, events: seq<Event>, asked: seq<Request>, kind: Kind, index: nat, prevIndex: nat)
    requires |events| == |asked| && Asks(events, kind, index, prevIndex)
    requires forall i :: 0 <= i < |events| ==> events[i].next.Some? && IsAnswer(tx, events[i].next.value, asked[i])
    ensures Knows(Learnt(events, asked), kind, index, prevIndex)
  {
    hide IsAnswer, Learn, Knows, AsksFor;
    var n := |events| - 1;
    var i :| 0 <= i < |events| && AsksFor(events[i], kind, index, prevIndex);
    LearnsWhatItAsks(tx, Learnt(events[..n], asked[..n]), events[n], asked[n], kind, index, prevIndex);
    if i < n {
      assert AsksFor(events[..n][i], kind, index, prevIndex);
      AskedIsKnown(tx, events[..n], asked[..n], kind, index, prevIndex);
    }
  }

  /** Against any device: all that a device puts together from its answers is true of the
      transaction, and if it asked for every part it has all the outputs and every previous
      transaction, exactly. */
  lemma {:induction false} DeviceRebuilds(lib: Crypto, start: Ctx, events: seq<Event>)
    requires Reached(lib, start, events).Some?
    ensures |Asked(lib, start, events)| == |events| && forall i :: 0 <= i < |events| ==> events[i].next.Some?
    ensures var known := Learnt(events, Asked(lib, start, events));
            && True(start.tx, known)
            && (AsksForAll(start.tx, events) ==>
                  && OutputsFrom(known, |start.tx.outputs|) == Some(start.tx.outputs)
                  && forall k: nat :: k < |start.tx.inputs| && start.tx.inputs[k].prevTx.Some? ==>
                       PrevTxFrom(known, k) == start.tx.inputs[k].prevTx)
  {
    hide Reached, Asked, IsAnswer, True, Learnt, Asks;
    RunAnswers(lib, start, events);
    var tx, asked := start.tx, Asked(lib, start, events);
    var known := Learnt(events, asked);
    LearntIsTrue(tx, events, asked);
    TrueIsWhole(tx, known);
    if AsksForAll(tx, events) {
      forall k: nat | k < |tx.outputs| ensures k in known.outputs {
        AskedIsKnown(tx, events, asked, Output, k, 0);
      }
      forall k: nat | k < |tx.inputs| && tx.inputs[k].prevTx.Some? ensures KnowsPrevTx(known, k) {
        AskedIsKnown(tx, events, asked, PrevtxInit, k, 0);
        TotalsAre(tx, known, k);
        forall j: nat | j < |tx.inputs[k].prevTx.value.inputs| ensures (k, j) in known.prevInputs {
          AskedIsKnown(tx, events, asked, PrevtxInput, k, j);
        }
        forall j: nat | j < |tx.inputs[k].prevTx.value.outputs| ensures (k, j) in known.prevOutputs {
          AskedIsKnown(tx, events, asked, PrevtxOutput, k, j);
        }
      }
    }
  }

  lemma TotalsAre(tx: Transaction, known: Memory, k: nat)
    requires True(tx, known) && k in known.totals
    ensures k < |tx.inputs| && tx.inputs[k].prevTx.Some?
    ensures var prev := tx.inputs[k].prevTx.value;
            known.totals[k].numInputs == |prev.inputs| && known.totals[k].numOutputs == |prev.outputs|
  {
  }

  /** An honest pass 1 that asks for every part is answered throughout, so that its device has
      seen the whole transaction before it signs anything. */
  lemma {:induction false} HonestRebuilds(lib: Crypto, start: Ctx, pass1: seq<Event>)
    requires Initial(start) && ConfigsInRange(start.tx) && HonestPass1(start.tx, pass1) && AsksForAll(start.tx, pass1)
    ensures Reached(lib, start, pass1).Some? && Reached(lib, start, pass1).value.sigs == []
    ensures |Asked(lib, start, pass1)| == |pass1| && forall i :: 0 <= i < |pass1| ==> pass1[i].next.Some?
    ensures var known := Learnt(pass1, Asked(lib, start, pass1));
            && OutputsFrom(known, |start.tx.outputs|) == Some(start.tx.outputs)
            && forall k: nat :: k < |start.tx.inputs| && start.tx.inputs[k].prevTx.Some? ==>
                 PrevTxFrom(known, k) == start.tx.inputs[k].prevTx
  {
    hide Reached, Asked, AsksForAll, OutputsFrom, PrevTxFrom, HonestPass1, ConfigsInRange, True, Learnt;
    AfterPass1(lib, start, pass1);
    DeviceRebuilds(lib, start, pass1);
  }

  // ---- how a signature came about ----

  /** A signature that was checked: the request to sign the input came with the commitment to a
      nonce, the nonce went out after the device's own commitment, and the signature that the
      device then gave begins with the x coordinate of the point that both make. */
  ghost predicate Checked(lib: Crypto, input: TxInput, events: seq<Event>, asked: seq<Request>, at: nat, signature: Bytes) {
    && at + 1 < |asked| && at + 2 < |events|
    && DescribesInput(input, asked[at]) && events[at].nonce.Some?
    && asked[at].commitment == Some(lib.commit(events[at].nonce.value))
    && asked[at + 1].AntikleptoSignature? && asked[at + 1].nonce == events[at].nonce.value
    && events[at + 1].next.Some? && events[at + 1].next.value.commitment.Some?
    && events[at + 2].next.Some? && events[at + 2].next.value.hasSignature && events[at + 2].next.value.signature == signature
    && |signature| >= 32
    && lib.point(events[at + 1].next.value.commitment.value, events[at].nonce.value) == Some(signature[..32])
  }

  /** A signature that was taken as it came, with the reply after the request. */
  ghost predicate Unchecked(input: TxInput, events: seq<Event>, asked: seq<Request>, at: nat, signature: Bytes) {
    && at < |asked| && at + 1 < |events|
    && DescribesInput(input, asked[at]) && asked[at].commitment == None
    && events[at + 1].next.Some? && events[at + 1].next.value.hasSignature && events[at + 1].next.value.signature == signature
  }

  /** The signatures of Schnorr inputs are taken as they come, and all others are checked. */
  lemma {:induction false} RoundIsChecked(lib: Crypto, tx: Transaction, events: seq<Event>, asked: seq<Request>, round: Round, signature: Bytes)
    requires Yielded(lib, tx, events, asked, round, signature)
    ensures round.input < |tx.inputs|
    ensures if Schnorr(tx, round.input) then Unchecked(tx.inputs[round.input], events, asked, round.at, signature)
            else Checked(lib, tx.inputs[round.input], events, asked, round.at, signature)
  {
    hide Schnorr;
  }
}
