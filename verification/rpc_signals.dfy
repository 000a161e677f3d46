/** What a caller sees of its call: how often it is signalled, and what its error field says then. */
module RpcSignals {
  import opened Common
  import opened RpcWire
  import opened RpcSystem
  import C = RpcClient
  import S = RpcServer

  /** Header and body of the call's request have been written. */
  ghost predicate Whole(cl: C.Client, up: Wire, c: nat) {
    exists k: nat :: WholePair(cl, up, k, c)
  }

  predicate WholePair(cl: C.Client, up: Wire, k: nat, c: nat) {
    k < |cl.written| && cl.written[k] == c && 2 * k + 1 < |up.log|
  }

  /** The error that goes with an answer. */
  function Own(a: C.Answer): Option<C.Fault> {
    match a
    case Filled(_, _) => None
    case Refused(_, text) => Some(C.Remote(text))
  }

  predicate AtSender(cl: C.Client, c: nat) {
    !cl.sender.Unlocked? && cl.sender.c == c
  }

  predicate Ended(receiver: C.Receiver) {
    receiver.Stopping? || receiver.Stopped?
  }

  // ---------- invariant ----------

  /** How often a call has been signalled and what its error says, given whether it is pending, is being sent and has
      gone out whole, and where the receive loop is. Only a call that is about to be answered, failed or terminated can
      still be signalled. */
  ghost predicate Fine(call: C.Call, pending: bool, sending: bool, whole: bool, receiver: C.Receiver) {
    && |call.answers| <= call.signals <= 2
    && |call.answers| <= 1
    && (call.cancelled ==> !pending)
    && if call.seqNo == 0 then call.signals == 1 && call.answers == [] && call.error == Some(C.Shutdown)
       else CountOk(call, pending, sending, whole, receiver) && ErrorOk(call, whole, receiver) && KindOk(call, receiver)
  }

  /** Which errors a registered call can have. */
  predicate KindOk(call: C.Call, receiver: C.Receiver) {
    && call.error != Some(C.Shutdown)
    && (call.error.Some? && call.error.value.Decode? ==> Terminated(call, receiver))
    && (call.error.Some? && call.error.value.Remote? ==> call.error.value.text != "")
    && (call.signals > 0 && call.error == None ==>
          (call.answers != [] && call.answers[0].Filled?) || Terminated(call, receiver))
  }

  predicate CountOk(call: C.Call, pending: bool, sending: bool, whole: bool, receiver: C.Receiver) {
    && ((pending && !receiver.Stopped?) || sending ==> call.signals <= 1)
    && (!Ended(receiver) ==> call.signals <= |call.answers| + 1)
    && (!Ended(receiver) && (pending || sending || whole) ==> call.signals == |call.answers|)
    && (!receiver.Stopped? && whole && call.answers != [] ==> call.signals == 1)
    && (receiver.Stopped? && pending && call.answers != [] ==> call.signals == 2)
  }

  predicate ErrorOk(call: C.Call, whole: bool, receiver: C.Receiver) {
    && (call.signals == 0 ==> call.error == None)
    && (!Ended(receiver) && call.answers == [] ==> call.error == None || call.error.value.Encode?)
    && (|call.answers| == 1 && call.signals == 1 ==> call.error == Own(call.answers[0]))
    && (|call.answers| == 1 && call.signals == 2 ==>
          Terminated(call, receiver) || (!whole && (call.error == Own(call.answers[0]) || NotSent(call))))
  }

  predicate Terminated(call: C.Call, receiver: C.Receiver) {
    receiver.Stopped? && call.error == receiver.err
  }

  predicate NotSent(call: C.Call) {
    call.error.Some? && call.error.value.Encode?
  }

  ghost predicate SignalOk(cl: C.Client, up: Wire, c: nat)
    requires c < |cl.calls|
  {
    Fine(cl.calls[c], C.Pending(cl, c), AtSender(cl, c), Whole(cl, up, c), cl.receiver)
  }

  /** What the lock holder is sending has not gone out whole, and once removed it is not pending. */
  ghost predicate SenderBehind(cl: C.Client, up: Wire) {
    && (!cl.sender.Unlocked? ==> !Whole(cl, up, cl.sender.c))
    && (cl.sender.Removed? ==> cl.sender.c < |cl.calls| && !C.Pending(cl, cl.sender.c))
  }

  /** terminateCalls is handed nil or the error of a body that could not be decoded. */
  predicate EndOk(receiver: C.Receiver) {
    Ended(receiver) ==> receiver.err == None || receiver.err.value.Decode?
  }

  ghost predicate SignalsOk(cl: C.Client, up: Wire) {
    SenderBehind(cl, up) && EndOk(cl.receiver) && forall c :: 0 <= c < |cl.calls| ==> SignalOk(cl, up, c)
  }

  // ---------- the senders keep it ----------

  /** A request goes out whole only when its own sender writes the body. */
  lemma WholeBefore(cl: C.Client, up: Wire, step: C.SendStep, c: nat)
    requires C.SenderOk(cl) && C.RequestsFramed(cl, up) && C.SendEnabled(cl, step)
    requires Whole(C.Send(cl, up, step).0, C.Send(cl, up, step).1, c)
    ensures c < |cl.calls| && (Whole(cl, up, c) || (step.WriteBody? && cl.sender.c == c))
  {
    var (cl', up') := C.Send(cl, up, step);
    var k: nat :| WholePair(cl', up', k, c);
    if k < |cl.written| {
      assert C.PairOk(cl, up.log, k);
      assert 2 * k + 1 < |up.log| ==> WholePair(cl, up, k, c);
    }
  }

  lemma SendBehind(cl: C.Client, up: Wire, step: C.SendStep)
    requires C.SenderOk(cl) && C.RequestsFramed(cl, up) && C.SendEnabled(cl, step) && SenderBehind(cl, up)
    ensures SenderBehind(C.Send(cl, up, step).0, C.Send(cl, up, step).1)
  {
    var (cl', up') := C.Send(cl, up, step);
    if !cl'.sender.Unlocked? && Whole(cl', up', cl'.sender.c) {
      WholeBefore(cl, up, step, cl'.sender.c);
    }
  }

  lemma SendSignals(cl: C.Client, up: Wire, step: C.SendStep, c: nat)
    requires C.Numbered(cl) && C.SenderOk(cl) && C.RequestsFramed(cl, up) && C.NoneLost(cl)
    requires C.SendEnabled(cl, step) && SignalsOk(cl, up)
    requires c < |C.Send(cl, up, step).0.calls|
    ensures SignalOk(C.Send(cl, up, step).0, C.Send(cl, up, step).1, c)
  {
    if Whole(C.Send(cl, up, step).0, C.Send(cl, up, step).1, c) {
      WholeBefore(cl, up, step, c);
    }
    if c < |cl.calls| {
      KnownSignals(cl, up, step, c);
    }
  }

  lemma KnownSignals(cl: C.Client, up: Wire, step: C.SendStep, c: nat)
    requires C.SenderOk(cl) && C.NoneLost(cl) && C.SendEnabled(cl, step)
    requires SenderBehind(cl, up) && c < |cl.calls| && SignalOk(cl, up, c)
    requires Whole(C.Send(cl, up, step).0, C.Send(cl, up, step).1, c) ==>
      Whole(cl, up, c) || (step.WriteBody? && cl.sender.c == c)
    ensures c < |C.Send(cl, up, step).0.calls| && SignalOk(C.Send(cl, up, step).0, C.Send(cl, up, step).1, c)
  {
    var (cl', up') := C.Send(cl, up, step);
    SendFlags(cl, up, step, c);
    if step.FailSignal? && cl.sender.c == c {
      FineGivenUp(cl.calls[c], C.Pending(cl, c), cl.receiver, C.Encode(step.text));
    } else {
      FineSent(cl.calls[c], C.Pending(cl, c), AtSender(cl, c), Whole(cl, up, c), cl.receiver,
               cl'.calls[c], C.Pending(cl', c), AtSender(cl', c), Whole(cl', up', c));
    }
  }

  lemma FineSent(call: C.Call, pending: bool, sending: bool, whole: bool, receiver: C.Receiver,
                 call': C.Call, pending': bool, sending': bool, whole': bool)
    requires Fine(call, pending, sending, whole, receiver) && call'.(cancelled := call.cancelled) == call
    requires (pending' ==> pending) && (sending' ==> sending) && (whole' ==> whole || sending)
    requires call'.cancelled ==> !pending'
    ensures Fine(call', pending', sending', whole', receiver)
  {
  }

  lemma FineGivenUp(call: C.Call, pending: bool, receiver: C.Receiver, err: C.Fault)
    requires Fine(call, pending, true, false, receiver) && call.seqNo != 0 && !receiver.Stopped? && err.Encode?
    ensures Fine(call.Signal(Some(err)), false, false, false, receiver)
  {
  }

  /** A step of a sender leaves a call that was there alone, but for failing or cancelling it. */
  lemma SendFlags(cl: C.Client, up: Wire, step: C.SendStep, c: nat)
    requires C.SenderOk(cl) && C.SendEnabled(cl, step) && c < |cl.calls|
    requires cl.sender.Removed? ==> !C.Pending(cl, cl.sender.c)
    requires cl.calls[c].cancelled ==> !C.Pending(cl, c)
    ensures var cl' := C.Send(cl, up, step).0;
      && c < |cl'.calls| && cl'.receiver == cl.receiver && (cl'.calls[c].cancelled ==> !C.Pending(cl', c))
      && (C.Pending(cl', c) ==> C.Pending(cl, c)) && (AtSender(cl', c) ==> AtSender(cl, c))
      && (step.FailSignal? && cl.sender.c == c ==>
            !AtSender(cl', c) && !C.Pending(cl', c) && cl'.calls[c] == cl.calls[c].Signal(Some(C.Encode(step.text))))
      && (!(step.FailSignal? && cl.sender.c == c) ==> cl'.calls[c].(cancelled := cl.calls[c].cancelled) == cl.calls[c])
  {
  }

  // ---------- the receive loop keeps it ----------

  /** A call that the loop is about to answer has not been answered: its number would be in the stream twice. */
  lemma NotYetAnswered(cl: C.Client, down: Wire)
    requires C.ReceiverOk(cl, down) && Alternates(down.log) && DistinctHeaders(down.log)
    requires cl.receiver.ReadBody? && cl.receiver.call.Some?
    ensures cl.receiver.call.value < |cl.calls|
    ensures cl.calls[cl.receiver.call.value].answers == [] && cl.calls[cl.receiver.call.value].seqNo != 0
  {
    var call := cl.calls[cl.receiver.call.value];
    assert C.AnswersOk(call, cl.received, down.log);
    assert call.answers == [];
  }

  lemma ReceiveSignals(cl: C.Client, up: Wire, down: Wire, step: C.RecvStep, c: nat)
    requires C.Inv(cl, up, down) && Alternates(down.log) && DistinctHeaders(down.log)
    requires C.RecvEnabled(cl, down, step) && SignalsOk(cl, up) && c < |cl.calls|
    ensures c < |C.Receive(cl, down, step).0.calls| && SignalOk(C.Receive(cl, down, step).0, up, c)
  {
    var cl' := C.Receive(cl, down, step).0;
    assert SignalOk(cl, up, c);
    SameWhole(cl, cl', up, c);
    match step
    case Terminate => TerminateSignals(cl, up, down, c);
    case RecvBody => ResponseSignals(cl, up, down, step, c);
    case RecvBodyFail(_) => ResponseSignals(cl, up, down, step, c);
    case _ =>
  }

  lemma ResponseSignals(cl: C.Client, up: Wire, down: Wire, step: C.RecvStep, c: nat)
    requires C.ReceiverOk(cl, down) && Alternates(down.log) && DistinctHeaders(down.log)
    requires C.RecvEnabled(cl, down, step) && (step.RecvBody? || step.RecvBodyFail?)
    requires c < |cl.calls| && SignalOk(cl, up, c)
    ensures c < |C.Receive(cl, down, step).0.calls| && SignalOk(C.Receive(cl, down, step).0, up, c)
  {
    if cl.receiver.call.Some? {
      NotYetAnswered(cl, down);
    }
    if step.RecvBody? && down.log[down.taken].BodyItem? {
      BodyReadSignals(cl, up, down.log[down.taken].body, c);
    } else {
      BodyFailedSignals(cl, up, if step.RecvBody? then "unexpected header" else step.text, c);
    }
  }

  lemma BodyReadSignals(cl: C.Client, up: Wire, body: Value, c: nat)
    requires cl.receiver.ReadBody? && C.HasCall(cl) && c < |cl.calls| && SignalOk(cl, up, c)
    requires cl.receiver.call == Some(c) ==> cl.calls[c].answers == [] && cl.calls[c].seqNo != 0
    ensures c < |C.BodyRead(cl, body).calls| && SignalOk(C.BodyRead(cl, body), up, c)
  {
    var cl' := C.BodyRead(cl, body);
    SameWhole(cl, cl', up, c);
    assert cl'.calls[c].seqNo == cl.calls[c].seqNo;
    if cl.receiver.call == Some(c) {
      FineAnswered(cl.calls[c], C.Pending(cl, c), AtSender(cl, c), Whole(cl, up, c), cl.receiver, cl.received, body);
    }
  }

  lemma BodyFailedSignals(cl: C.Client, up: Wire, text: string, c: nat)
    requires cl.receiver.ReadBody? && C.HasCall(cl) && c < |cl.calls| && SignalOk(cl, up, c)
    requires cl.receiver.call == Some(c) ==> cl.calls[c].answers == [] && cl.calls[c].seqNo != 0
    ensures c < |C.BodyFailed(cl, text).calls| && SignalOk(C.BodyFailed(cl, text), up, c)
  {
    var cl' := C.BodyFailed(cl, text);
    SameWhole(cl, cl', up, c);
    assert cl'.calls[c].seqNo == cl.calls[c].seqNo;
    if cl.receiver.call == Some(c) {
      FineFailed(cl.calls[c], C.Pending(cl, c), AtSender(cl, c), Whole(cl, up, c), cl.receiver,
                 cl'.calls[c].error, cl'.receiver);
    }
  }

  lemma FineAnswered(call: C.Call, pending: bool, sending: bool, whole: bool, receiver: C.Receiver,
                     pair: nat, body: Value)
    requires Fine(call, pending, sending, whole, receiver) && receiver.ReadBody?
    requires call.seqNo != 0 && call.answers == []
    ensures Fine(call.Answered(receiver.h, pair, body), pending, sending, whole, C.ReadHeader)
  {
  }

  lemma FineFailed(call: C.Call, pending: bool, sending: bool, whole: bool, receiver: C.Receiver,
                   err: Option<C.Fault>, receiver': C.Receiver)
    requires Fine(call, pending, sending, whole, receiver) && receiver.ReadBody? && receiver'.Stopping?
    requires call.seqNo != 0 && call.answers == []
    requires err.Some? && ((err.value.Remote? && err.value.text != "") || err.value.ReadingBody?)
    ensures Fine(call.Signal(err), pending, sending, whole, receiver')
  {
  }

  lemma SameWhole(cl: C.Client, cl': C.Client, up: Wire, c: nat)
    requires cl'.written == cl.written
    ensures Whole(cl', up, c) <==> Whole(cl, up, c)
  {
    forall k: nat ensures WholePair(cl', up, k, c) <==> WholePair(cl, up, k, c) {
    }
  }

  lemma TerminateSignals(cl: C.Client, up: Wire, down: Wire, c: nat)
    requires C.Inv(cl, up, down) && C.RecvEnabled(cl, down, C.Terminate) && c < |cl.calls| && SignalOk(cl, up, c)
    requires EndOk(cl.receiver)
    ensures c < |C.Receive(cl, down, C.Terminate).0.calls| && SignalOk(C.Receive(cl, down, C.Terminate).0, up, c)
  {
    var cl' := C.Receive(cl, down, C.Terminate).0;
    SameWhole(cl, cl', up, c);
    assert c in cl.pending.Values <==> cl.calls[c].seqNo != 0 && C.Pending(cl, c);
  }

  // ---------- in every run ----------

  lemma StepSignals(config: S.Config, s: System, step: Step)
    requires Inv(s) && Enabled(config, s, step) && SignalsOk(s.cl, s.up)
    ensures SignalsOk(Apply(config, s, step).cl, Apply(config, s, step).up)
  {
    match step
    case Send(t) => SendStepSignals(s, t);
    case Receive(t) => ReceiveStepSignals(s, t);
    case _ => LogOnly(s.cl, s.up, Apply(config, s, step).up);
  }

  lemma SendStepSignals(s: System, t: C.SendStep)
    requires Inv(s) && C.SendEnabled(s.cl, t) && SignalsOk(s.cl, s.up)
    ensures SignalsOk(C.Send(s.cl, s.up, t).0, C.Send(s.cl, s.up, t).1)
  {
    var (cl', up') := C.Send(s.cl, s.up, t);
    SendBehind(s.cl, s.up, t);
    forall c | 0 <= c < |cl'.calls| ensures SignalOk(cl', up', c) {
      SendSignals(s.cl, s.up, t, c);
    }
  }

  lemma ReceiveStepSignals(s: System, t: C.RecvStep)
    requires Inv(s) && C.RecvEnabled(s.cl, s.down, t) && SignalsOk(s.cl, s.up)
    ensures SignalsOk(C.Receive(s.cl, s.down, t).0, s.up)
  {
    var cl' := C.Receive(s.cl, s.down, t).0;
    UpDistinct(s);
    DownDistinct(s);
    C.ReceiveKeepsCalls(s.cl, s.down, t);
    C.ReceiveSender(s.cl, s.down, t);
    forall c | 0 <= c < |cl'.calls| ensures SignalOk(cl', s.up, c) {
      ReceiveSignals(s.cl, s.up, s.down, t, c);
    }
    if !s.cl.sender.Unlocked? {
      SameWhole(s.cl, cl', s.up, s.cl.sender.c);
    }
  }

  lemma LogOnly(cl: C.Client, up: Wire, up': Wire)
    requires SignalsOk(cl, up) && up'.log == up.log
    ensures SignalsOk(cl, up')
  {
    forall c, k: nat ensures WholePair(cl, up', k, c) <==> WholePair(cl, up, k, c) {
    }
    forall c ensures Whole(cl, up', c) <==> Whole(cl, up, c) {
    }
    forall c | 0 <= c < |cl.calls| ensures SignalOk(cl, up', c) {
      assert SignalOk(cl, up, c);
    }
  }

  lemma {:induction false} SignalsReached(config: S.Config, run: seq<System>, i: nat)
    requires IsRun(config, run) && i < |run|
    ensures SignalsOk(run[i].cl, run[i].up)
  {
    if i > 0 {
      SignalsReached(config, run, i - 1);
      Reached(config, run, i - 1);
      assert StepAt(config, run, i - 1);
      var step :| Enabled(config, run[i - 1], step) && run[i] == Apply(config, run[i - 1], step);
      StepSignals(config, run[i - 1], step);
    }
  }

  /** No call is signalled more than twice, and a pending one not more than once before the receive loop has ended. */
  lemma AtMostTwoSignals(config: S.Config, run: seq<System>, i: nat, c: nat)
    requires IsRun(config, run) && i < |run| && c < |run[i].cl.calls|
    ensures run[i].cl.calls[c].signals <= 2
    ensures C.Pending(run[i].cl, c) && !run[i].cl.receiver.Stopped? ==> run[i].cl.calls[c].signals <= 1
  {
    SignalsReached(config, run, i);
    Reached(config, run, i);
    assert SignalOk(run[i].cl, run[i].up, c);
  }

  /** A call has the shutdown error exactly if it was never registered, and then it is signalled once and never
      answered. */
  lemma ShutdownMeans(config: S.Config, run: seq<System>, i: nat, c: nat)
    requires IsRun(config, run) && i < |run| && c < |run[i].cl.calls|
    ensures var call := run[i].cl.calls[c];
      && (call.error == Some(C.Shutdown) <==> call.seqNo == 0)
      && (call.seqNo == 0 ==> call.signals == 1 && call.answers == [])
  {
    SignalsReached(config, run, i);
    assert SignalOk(run[i].cl, run[i].up, c);
  }

  /** A call that has been signalled and shows no error has its reply filled, or the receive loop has ended and
      terminateCalls was handed nil. */
  lemma NilErrorMeans(config: S.Config, run: seq<System>, i: nat, c: nat)
    requires IsRun(config, run) && i < |run| && c < |run[i].cl.calls|
    requires run[i].cl.calls[c].signals > 0 && run[i].cl.calls[c].error == None
    ensures (run[i].cl.calls[c].answers != [] && run[i].cl.calls[c].answers[0].Filled?)
      || run[i].cl.receiver == C.Stopped(None)
  {
    SignalsReached(config, run, i);
    assert SignalOk(run[i].cl, run[i].up, c);
  }

  /** A cancelled call is not pending, so that no response that is looked up later can reach it. */
  lemma CancelledIsGone(config: S.Config, run: seq<System>, i: nat, c: nat)
    requires IsRun(config, run) && i < |run| && c < |run[i].cl.calls| && run[i].cl.calls[c].cancelled
    ensures !InPending(run[i].cl, c)
  {
    SignalsReached(config, run, i);
    assert SignalOk(run[i].cl, run[i].up, c);
  }

  /** A reply is filled only for a request that went out whole. */
  lemma FilledIsWhole(s: System, c: nat)
    requires Inv(s) && c < |s.cl.calls| && s.cl.calls[c].answers != [] && s.cl.calls[c].answers[0].Filled?
    ensures Whole(s.cl, s.up, c)
  {
    var r := AnswerSource(s, c);
    assert S.PhaseOk(s.sv, r) && S.ContentOk(s.sv, r) && S.FromWire(s.sv, s.up.log, r);
    assert C.PairOk(s.cl, s.up.log, r);
    C.OneOwner(s.cl, s.cl.written[r], c);
    assert WholePair(s.cl, s.up, r, c);
  }

  // ---------- what becomes of an answer ----------

  /** terminateCalls runs in this step, and the call is pending. */
  predicate Overwrites(run: seq<System>, k: nat, c: nat)
    requires k + 1 < |run|
  {
    run[k].cl.receiver.Stopping? && run[k + 1].cl.receiver.Stopped? && InPending(run[k].cl, c)
  }

  predicate InPending(cl: C.Client, c: nat) {
    c < |cl.calls| && cl.calls[c].seqNo in cl.pending && cl.pending[cl.calls[c].seqNo] == c
  }

  ghost predicate Overwritten(run: seq<System>, i: nat, c: nat)
    requires i < |run|
  {
    exists k: nat :: k < i && Overwrites(run, k, c)
  }

  /** A call that was answered, and whose request, if the answer is an error, went out whole. */
  ghost predicate Answered(s: System, c: nat) {
    && c < |s.cl.calls| && s.cl.calls[c].answers != []
    && (s.cl.calls[c].answers[0].Refused? ==> Whole(s.cl, s.up, c))
  }

  /** After terminateCalls calls can only be refused at once or cancelled. */
  lemma SendAfterStop(cl: C.Client, up: Wire, t: C.SendStep, c: nat)
    requires C.NoneLost(cl) && cl.receiver.Stopped? && C.SendEnabled(cl, t) && c < |C.Send(cl, up, t).0.calls|
    ensures var (cl', up') := C.Send(cl, up, t);
      && cl'.receiver == cl.receiver && cl'.written == cl.written && up'.log == up.log
      && (c < |cl.calls| ==> cl'.calls[c].(cancelled := cl.calls[c].cancelled) == cl.calls[c])
      && (c >= |cl.calls| ==> cl'.calls[c].answers == [])
  {
  }

  lemma StoppedKeeps(config: S.Config, s: System, step: Step, c: nat)
    requires Inv(s) && Enabled(config, s, step) && s.cl.receiver.Stopped? && Answered(Apply(config, s, step), c)
    ensures var s' := Apply(config, s, step);
      && Answered(s, c) && s'.cl.receiver == s.cl.receiver
      && s'.cl.calls[c].(cancelled := s.cl.calls[c].cancelled) == s.cl.calls[c]
  {
    var s' := Apply(config, s, step);
    if step.Send? {
      SendAfterStop(s.cl, s.up, step.send, c);
    }
    forall k: nat ensures WholePair(s.cl, s.up, k, c) <==> WholePair(s'.cl, s'.up, k, c) {
    }
  }

  lemma OnlyTerminateStops(config: S.Config, s: System, step: Step)
    requires Enabled(config, s, step) && !s.cl.receiver.Stopped? && Apply(config, s, step).cl.receiver.Stopped?
    ensures step == Receive(C.Terminate)
  {
    match step
    case Send(t) => SendKeepsReceiver(s.cl, s.up, t);
    case Receive(t) => ReceiveStops(s.cl, s.down, t);
    case _ =>
  }

  lemma ReceiveStops(cl: C.Client, down: Wire, t: C.RecvStep)
    requires C.RecvEnabled(cl, down, t) && C.Receive(cl, down, t).0.receiver.Stopped?
    ensures t.Terminate?
  {
  }

  lemma SendKeepsReceiver(cl: C.Client, up: Wire, t: C.SendStep)
    requires C.SendEnabled(cl, t)
    ensures C.Send(cl, up, t).0.receiver == cl.receiver
  {
  }

  lemma TerminateOverwrites(s: System, c: nat)
    requires Inv(s) && SignalsOk(s.cl, s.up) && C.RecvEnabled(s.cl, s.down, C.Terminate)
    requires var s' := s.(cl := C.Receive(s.cl, s.down, C.Terminate).0); Answered(s', c)
    ensures c < |s.cl.calls| && s.cl.calls[c].answers != []
    ensures s.cl.calls[c].signals == 1 && s.cl.calls[c].error == Own(s.cl.calls[c].answers[0])
    ensures var cl' := C.Receive(s.cl, s.down, C.Terminate).0;
      && cl'.receiver == C.Stopped(s.cl.receiver.err)
      && cl'.calls[c] == if InPending(s.cl, c) then s.cl.calls[c].Signal(s.cl.receiver.err) else s.cl.calls[c]
  {
    SameWhole(s.cl, C.Receive(s.cl, s.down, C.Terminate).0, s.up, c);
    assert SignalOk(s.cl, s.up, c);
    if s.cl.calls[c].answers[0].Filled? {
      FilledIsWhole(s, c);
    }
    assert c in s.cl.pending.Values <==> InPending(s.cl, c);
  }

  /** The error and the signals of an answered call, by whether it was overwritten. */
  ghost predicate Settled(call: C.Call, overwritten: bool, receiver: C.Receiver) {
    && call.answers != []
    && if overwritten then receiver.Stopped? && call.signals == 2 && call.error == receiver.err
       else call.signals == 1 && call.error == Own(call.answers[0])
  }

  lemma ErrorOnStop(config: S.Config, run: seq<System>, i: nat, c: nat)
    requires IsRun(config, run) && i + 1 < |run| && Answered(run[i + 1], c)
    requires !run[i].cl.receiver.Stopped? && run[i + 1].cl.receiver.Stopped?
    ensures Settled(run[i + 1].cl.calls[c], Overwrites(run, i, c), run[i + 1].cl.receiver)
  {
    Reached(config, run, i);
    SignalsReached(config, run, i);
    assert StepAt(config, run, i);
    var step :| Enabled(config, run[i], step) && run[i + 1] == Apply(config, run[i], step);
    OnlyTerminateStops(config, run[i], step);
    TerminateOverwrites(run[i], c);
  }

  lemma NextStoppedKeeps(config: S.Config, run: seq<System>, i: nat, c: nat)
    requires IsRun(config, run) && i + 1 < |run| && run[i].cl.receiver.Stopped? && Answered(run[i + 1], c)
    ensures Answered(run[i], c) && run[i + 1].cl.receiver == run[i].cl.receiver
    ensures run[i + 1].cl.calls[c].(cancelled := run[i].cl.calls[c].cancelled) == run[i].cl.calls[c]
  {
    Reached(config, run, i);
    assert StepAt(config, run, i);
    var step :| Enabled(config, run[i], step) && run[i + 1] == Apply(config, run[i], step);
    StoppedKeeps(config, run[i], step, c);
  }

  lemma {:induction false} ErrorAfterStop(config: S.Config, run: seq<System>, i: nat, c: nat)
    requires IsRun(config, run) && i < |run| && Answered(run[i], c) && run[i].cl.receiver.Stopped?
    ensures Settled(run[i].cl.calls[c], Overwritten(run, i, c), run[i].cl.receiver)
  {
    assert i > 0;
    if run[i - 1].cl.receiver.Stopped? {
      NextStoppedKeeps(config, run, i - 1, c);
      ErrorAfterStop(config, run, i - 1, c);
      assert Overwritten(run, i, c) <==> Overwritten(run, i - 1, c);
    } else {
      ErrorOnStop(config, run, i - 1, c);
      NotOverwritten(config, run, i - 1, c);
      assert Overwritten(run, i, c) <==> Overwrites(run, i - 1, c);
    }
  }

  /** Before terminateCalls has run it has overwritten nothing. */
  lemma NotOverwritten(config: S.Config, run: seq<System>, i: nat, c: nat)
    requires IsRun(config, run) && i < |run| && !run[i].cl.receiver.Stopped?
    ensures !Overwritten(run, i, c)
  {
    if Overwritten(run, i, c) {
      var k: nat :| k < i && Overwrites(run, k, c);
      NoneRegisteredAfterStop(config, run, k + 1, i);
    }
  }

  /** An answered call keeps its one signal and the error of its answer, which is nil for a filled reply, exactly if
      terminateCalls does not run while it is pending; if it does, the call is signalled again and its error becomes
      the one that terminateCalls was handed. */
  lemma ErrorOfAnswered(config: S.Config, run: seq<System>, i: nat, c: nat)
    requires IsRun(config, run) && i < |run| && Answered(run[i], c)
    ensures Settled(run[i].cl.calls[c], Overwritten(run, i, c), run[i].cl.receiver)
    ensures EndOk(run[i].cl.receiver)
  {
    SignalsReached(config, run, i);
    if run[i].cl.receiver.Stopped? {
      ErrorAfterStop(config, run, i, c);
    } else {
      Reached(config, run, i);
      NotOverwritten(config, run, i, c);
      assert SignalOk(run[i].cl, run[i].up, c);
      if run[i].cl.calls[c].answers[0].Filled? {
        FilledIsWhole(run[i], c);
      }
    }
  }

  /** The error is the server's, and reads like this text once fmt.Errorf has taken it for a format. */
  predicate Shows(error: Option<C.Fault>, errorf: string -> string, text: string) {
    error.Some? && error.value.Remote? && errorf(error.value.text) == text
  }

  /** What is used of fmt.Errorf without operands: a text without '%' comes out as it is. */
  ghost predicate IsErrorf(errorf: string -> string) {
    forall text: string :: '%' !in text ==> errorf(text) == text
  }

  /** So a refused call shows its server's error text exactly if the text survives the format, which it does if it has
      no '%', and terminateCalls did not run while the call was pending, which is also exactly if it has been signalled
      once. */
  lemma RefusalShows(config: S.Config, run: seq<System>, i: nat, c: nat, errorf: string -> string)
    requires IsErrorf(errorf)
    requires IsRun(config, run) && i < |run| && Answered(run[i], c) && run[i].cl.calls[c].answers[0].Refused?
    ensures var call := run[i].cl.calls[c];
      var text := call.answers[0].text;
      && (call.signals == 1 <==> !Overwritten(run, i, c))
      && (Shows(call.error, errorf, text) <==> errorf(text) == text && !Overwritten(run, i, c))
      && ('%' !in text ==> (Shows(call.error, errorf, text) <==> !Overwritten(run, i, c)))
  {
    ErrorOfAnswered(config, run, i, c);
  }

  /** Without knowing that the request went out whole: the error is the answer's own, the encoder's or that of
      terminateCalls. */
  lemma ErrorOfAnyAnswer(config: S.Config, run: seq<System>, i: nat, c: nat)
    requires IsRun(config, run) && i < |run| && c < |run[i].cl.calls| && run[i].cl.calls[c].answers != []
    ensures var call := run[i].cl.calls[c];
      call.error == Own(call.answers[0]) || NotSent(call) || Terminated(call, run[i].cl.receiver)
  {
    SignalsReached(config, run, i);
    assert SignalOk(run[i].cl, run[i].up, c);
  }

  // ---------- the error text that gets lost ----------

  /** The server has refused it and closed the connection. */
  function RefusedAndClosed(name: string, args: Value, text: string): System {
    Sent(name, args).(
      sv := S.Server([S.Request(name, 1, None, text, INVALID_REQUEST, None, S.Unstarted, S.Idle, 1)],
                     S.Closed, S.Free, [0]),
      up := Wire([HeaderItem(Header(name, 1, "")), BodyItem(args)], 1, false),
      down := Wire([HeaderItem(Header(name, 1, text)), BodyItem(INVALID_REQUEST)], 0, true))
  }

  /** The server is about to write the refusal. */
  function Refusing(name: string, args: Value, text: string): System {
    Sent(name, args).(
      sv := S.Server([S.Request(name, 1, None, text, INVALID_REQUEST, None, S.Unstarted, S.Idle, 0)],
                     S.Refusing, S.HeaderNext(0), []),
      up := Wire([HeaderItem(Header(name, 1, "")), BodyItem(args)], 1, false))
  }

  lemma RefusingReached(config: S.Config, name: string, args: Value, text: string)
    requires S.FindService(config.services, name) == Err(text)
    ensures Reachable(config, Refusing(name, args, text))
  {
    SentReached(config, name, args);
    var s := Extend(config, Sent(name, args), Read(S.ReadHeader));
    s := Extend(config, s, Write(S.Lock(0)));
    assert s == Refusing(name, args, text);
  }

  /** Its header is out. */
  function HalfRefused(name: string, args: Value, text: string): System {
    var s := Refusing(name, args, text);
    s.(sv := s.sv.(writer := S.BodyNext(0), answered := [0]),
       down := Wire([HeaderItem(Header(name, 1, text))], 0, false))
  }

  lemma HalfReached(config: S.Config, name: string, args: Value, text: string)
    requires S.FindService(config.services, name) == Err(text)
    ensures Reachable(config, HalfRefused(name, args, text))
  {
    RefusingReached(config, name, args, text);
    var s := Extend(config, Refusing(name, args, text), Write(S.WriteHeader(false)));
    assert s == HalfRefused(name, args, text);
  }

  lemma RefusedReached(config: S.Config, name: string, args: Value, text: string)
    requires S.FindService(config.services, name) == Err(text)
    ensures Reachable(config, RefusedAndClosed(name, args, text))
  {
    HalfReached(config, name, args, text);
    var s := Extend(config, HalfRefused(name, args, text), Write(S.WriteBody(false)));
    assert s == RefusedAndClosed(name, args, text);
  }

  /** The client has read the refusal, and the call shows it. */
  function Shown(name: string, args: Value, text: string): System {
    var s := RefusedAndClosed(name, args, text);
    var call := C.Call(name, args, 1, [C.Refused(0, text)], Some(C.Remote(text)), 1, false);
    s.(cl := s.cl.(calls := [call], received := 1), down := s.down.(taken := 2))
  }

  lemma ShownReached(config: S.Config, name: string, args: Value, text: string)
    requires S.FindService(config.services, name) == Err(text) && text != ""
    ensures Reachable(config, Shown(name, args, text))
  {
    RefusedReached(config, name, args, text);
    var s := Extend(config, RefusedAndClosed(name, args, text), Receive(C.RecvHeader));
    s := Extend(config, s, Receive(C.RecvLookup));
    s := Extend(config, s, Receive(C.RecvBody));
    assert s.cl.calls[0].answers == [C.Refused(0, text)];
    assert s == Shown(name, args, text);
  }

  /** The only call was refused, and its error is what fmt.Errorf makes of a text with a '%'. */
  ghost predicate PercentPassedOn(s: System) {
    && |s.cl.calls| == 1 && s.cl.calls[0].signals == 1
    && s.cl.calls[0].error.Some? && s.cl.calls[0].error.value.Remote? && '%' in s.cl.calls[0].error.value.text
  }

  /** The server's texts carry the names of requests, so that such a text can get there. */
  lemma PercentInName(config: S.Config, name: string, m: string)
    requires '.' !in m && name !in config.services && '%' in name
    ensures exists s :: Reachable(config, s) && PercentPassedOn(s)
  {
    var text := "rpc server: can't find service " + name;
    S.FindServiceErrors(config.services, name, m);
    ShownReached(config, name + "." + m, "", text);
    assert PercentPassedOn(Shown(name + "." + m, "", text));
  }

  /** The only call was refused with this text, was signalled twice, and shows no error. */
  ghost predicate TextLost(s: System, text: string) {
    && |s.cl.calls| == 1 && s.cl.calls[0].answers == [C.Refused(0, text)]
    && s.cl.calls[0].error == None && s.cl.calls[0].signals == 2
  }

  /** The ordinary end of a call to an unknown service or method: the server refuses it and closes the connection, and
      if the receive loop notices that before the caller has looked, the error text is gone. */
  lemma RefusalTextLost(config: S.Config, name: string, args: Value, text: string)
    requires S.FindService(config.services, name) == Err(text)
    ensures exists s :: Reachable(config, s) && TextLost(s, text)
  {
    assert text != "";
    ShownReached(config, name, args, text);
    var s := Extend(config, Shown(name, args, text), Receive(C.RecvHeaderFail));
    assert s.cl.pending[1] == 0 && 0 in s.cl.pending.Values;
    s := Extend(config, s, Receive(C.Terminate));
    assert TextLost(s, text);
  }
}
