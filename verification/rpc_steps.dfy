/** What becomes of a new call and of a request that arrives, and what alone can end either loop. */
module RpcSteps {
  import opened Common
  import opened RpcWire
  import opened RpcSystem
  import C = RpcClient
  import S = RpcServer

  // ---------- the client ----------

  /** The call is new, and the others are as they were. */
  ghost predicate Appended(cl: C.Client, cl': C.Client, name: string, args: Value) {
    && |cl'.calls| == |cl.calls| + 1 && cl'.calls[..|cl.calls|] == cl.calls
    && var call := cl'.calls[|cl.calls|];
       call.serviceMethod == name && call.args == args && call.answers == [] && !call.cancelled
  }

  /** While the client is open a new call gets the next number and its place in `pending`, and its request is next to be
      written; afterwards it gets no number, and ends at once with the shutdown error. */
  lemma NewCall(config: S.Config, s: System, name: string, args: Value)
    requires Inv(s) && Enabled(config, s, Send(C.Go(name, args)))
    ensures var s' := Apply(config, s, Send(C.Go(name, args)));
      var c := |s.cl.calls|;
      && Appended(s.cl, s'.cl, name, args) && s'.up == s.up
      && if s.cl.closing || s.cl.shutdown then
           && s'.cl.calls[c].seqNo == 0 && s'.cl.calls[c].error == Some(C.Shutdown) && s'.cl.calls[c].signals == 1
           && s'.cl.pending == s.cl.pending && s'.cl.nextSeq == s.cl.nextSeq && s'.cl.sender.Unlocked?
         else
           && s'.cl.calls[c].seqNo == s.cl.nextSeq && s'.cl.calls[c].error == None && s'.cl.calls[c].signals == 0
           && s'.cl.pending == s.cl.pending[s.cl.nextSeq := c] && s'.cl.nextSeq == s.cl.nextSeq + 1
           && s'.cl.sender == C.HeaderNext(c)
  {
  }

  /** After Close no call is registered any more. */
  lemma {:induction false} NoneRegisteredAfterClose(config: S.Config, run: seq<System>, i: nat, j: nat)
    requires IsRun(config, run) && i <= j < |run| && run[i].cl.closing
    ensures run[j].cl.closing && run[j].cl.nextSeq == run[i].cl.nextSeq
    ensures |run[i].cl.calls| <= |run[j].cl.calls|
    ensures forall c :: |run[i].cl.calls| <= c < |run[j].cl.calls| ==> run[j].cl.calls[c].seqNo == 0
    decreases j
  {
    if i < j {
      NoneRegisteredAfterClose(config, run, i, j - 1);
      assert StepAt(config, run, j - 1);
      var s := run[j - 1];
      var step :| Enabled(config, s, step) && run[j] == Apply(config, s, step);
      StepAfterClose(config, s, step);
    }
  }

  /** Nor is anything more written: Close has closed the connection. */
  lemma {:induction false} NothingSentAfterClose(config: S.Config, run: seq<System>, i: nat, j: nat)
    requires IsRun(config, run) && i <= j < |run| && run[i].cl.closing
    ensures run[j].up.log == run[i].up.log && run[j].up.broken
    decreases j
  {
    if i < j {
      NothingSentAfterClose(config, run, i, j - 1);
      assert StepAt(config, run, j - 1);
      var step :| Enabled(config, run[j - 1], step) && run[j] == Apply(config, run[j - 1], step);
      StepOnBroken(config, run[j - 1], step);
    } else {
      CloseBreaks(config, run, i);
    }
  }

  lemma {:induction false} CloseBreaks(config: S.Config, run: seq<System>, i: nat)
    requires IsRun(config, run) && i < |run| && run[i].cl.closing
    ensures run[i].up.broken
  {
    if i > 0 {
      assert StepAt(config, run, i - 1);
      var step :| Enabled(config, run[i - 1], step) && run[i] == Apply(config, run[i - 1], step);
      if run[i - 1].cl.closing {
        CloseBreaks(config, run, i - 1);
        StepOnBroken(config, run[i - 1], step);
      }
    }
  }

  lemma StepOnBroken(config: S.Config, s: System, step: Step)
    requires Enabled(config, s, step) && s.up.broken
    ensures Apply(config, s, step).up.log == s.up.log && Apply(config, s, step).up.broken
  {
    match step
    case Send(t) =>
    case Receive(t) =>
    case Read(t) =>
    case Work(t) =>
    case Write(t) =>
  }

  lemma StepAfterClose(config: S.Config, s: System, step: Step)
    requires Enabled(config, s, step) && s.cl.closing
    ensures var cl' := Apply(config, s, step).cl;
      && cl'.closing && cl'.nextSeq == s.cl.nextSeq && |s.cl.calls| <= |cl'.calls|
      && (forall c :: 0 <= c < |s.cl.calls| ==> cl'.calls[c].seqNo == s.cl.calls[c].seqNo)
      && forall c :: |s.cl.calls| <= c < |cl'.calls| ==> cl'.calls[c].seqNo == 0
  {
    match step
    case Send(t) =>
      if !t.Go? {
        C.SendKeepsCalls(s.cl, s.up, t);
      }
    case Receive(t) => C.ReceiveKeepsCalls(s.cl, s.down, t);
    case _ =>
  }

  predicate Over(cl: C.Client) {
    cl.receiver.Stopping? || cl.receiver.Stopped?
  }

  /** A body that could not be decoded has ended the loop with this text: terminateCalls is to be handed the decoder's
      error, and the call it was for, if any, is signalled with the server's error or else with the decoder's. */
  predicate EndedByBody(cl: C.Client, cl': C.Client, text: string) {
    && cl.receiver.ReadBody? && cl'.receiver == C.Stopping(Some(C.Decode(text))) && |cl'.calls| == |cl.calls|
    && (cl.receiver.call.Some? && cl.receiver.call.value < |cl.calls| ==>
          FailedBy(cl.calls[cl.receiver.call.value], cl'.calls[cl.receiver.call.value], cl.receiver.h, text))
  }

  predicate FailedBy(call: C.Call, call': C.Call, h: Header, text: string) {
    && call'.signals == call.signals + 1 && call'.answers == call.answers
    && call'.error == Some(if h.error != "" then C.Remote(h.error) else C.ReadingBody(text))
  }

  ghost predicate BodyEnds(cl: C.Client, cl': C.Client) {
    exists text :: EndedByBody(cl, cl', text)
  }

  /** The receive loop ends in two ways only: no header can be read, and then terminateCalls is handed nil, or no
      body. */
  lemma LoopEnds(config: S.Config, run: seq<System>, i: nat)
    requires IsRun(config, run) && i + 1 < |run| && !Over(run[i].cl) && Over(run[i + 1].cl)
    ensures if run[i].cl.receiver.ReadBody? then BodyEnds(run[i].cl, run[i + 1].cl)
            else run[i].cl.receiver.ReadHeader? && run[i + 1].cl == run[i].cl.(receiver := C.Stopping(None))
  {
    Reached(config, run, i);
    ReadersInStep(config, run, i);
    assert StepAt(config, run, i);
    var step :| Enabled(config, run[i], step) && run[i + 1] == Apply(config, run[i], step);
    match step
    case Send(t) => SenderLeavesLoop(run[i].cl, run[i].up, t);
    case Receive(t) => ReceiverEnds(run[i].cl, run[i].down, t);
    case _ =>
  }

  lemma ReceiverEnds(cl: C.Client, down: Wire, t: C.RecvStep)
    requires C.ReceiverOk(cl, down) && C.RecvEnabled(cl, down, t) && !Over(cl) && Over(C.Receive(cl, down, t).0)
    requires down.Available() ==> (down.log[down.taken].HeaderItem? <==> cl.receiver.ReadHeader?)
    ensures if cl.receiver.ReadBody? then BodyEnds(cl, C.Receive(cl, down, t).0)
            else cl.receiver.ReadHeader? && C.Receive(cl, down, t).0 == cl.(receiver := C.Stopping(None))
  {
    if t.RecvBodyFail? {
      assert EndedByBody(cl, C.Receive(cl, down, t).0, t.text);
    }
  }

  lemma SenderLeavesLoop(cl: C.Client, up: Wire, t: C.SendStep)
    requires C.SendEnabled(cl, t)
    ensures C.Send(cl, up, t).0.receiver == cl.receiver
  {
  }

  // ---------- the server ----------

  predicate NextIs(up: Wire, x: Item) {
    up.Available() && up.log[up.taken] == x
  }

  /** A request that has arrived, before anything is known but its header. */
  predicate IsNew(req: S.Request, h: Header, error: string) {
    && req.serviceMethod == h.serviceMethod && req.seqNo == h.seqNo && req.error == error
    && req.args == None && req.outcome == None && req.sends == 0 && req.handler.Unstarted? && req.worker.Idle?
  }

  /** A request is accepted exactly if its name resolves, whatever came before: then its body is read next; otherwise it
      is refused with the reason. */
  lemma HeaderArrives(config: S.Config, s: System, h: Header)
    requires Inv(s) && s.sv.reader.AwaitHeader? && NextIs(s.up, HeaderItem(h))
    ensures Enabled(config, s, Read(S.ReadHeader))
    ensures var sv, sv' := s.sv, Apply(config, s, Read(S.ReadHeader)).sv;
      && |sv'.requests| == |sv.requests| + 1 && sv'.requests[..|sv.requests|] == sv.requests && sv'.writer == sv.writer
      && match S.FindService(config.services, h.serviceMethod)
         case Ok(_) => sv'.reader.AwaitBody? && IsNew(sv'.requests[|sv.requests|], h, "")
         case Err(text) => sv'.reader.Refusing? && IsNew(sv'.requests[|sv.requests|], h, text)
  {
    UpDistinct(s);
    assert s.up.log[s.up.taken].header.error == "";
  }

  /** Its body, once it is there, is handed to the method, and the loop goes on to the next request. */
  lemma BodyArrives(config: S.Config, s: System, body: Value)
    requires Inv(s) && s.sv.reader.AwaitBody? && NextIs(s.up, BodyItem(body))
    ensures Enabled(config, s, Read(S.ReadBody))
    ensures var sv, sv' := s.sv, Apply(config, s, Read(S.ReadBody)).sv;
      var r := |sv.requests| - 1;
      && |sv'.requests| == |sv.requests| && sv'.requests[..r] == sv.requests[..r] && sv'.reader.AwaitHeader?
      && sv'.requests[r].args == Some(body) && sv'.requests[r].handler.Waiting? && sv'.requests[r].worker.Running?
      && sv'.requests[r].error == "" && sv'.requests[r].serviceMethod == sv.requests[r].serviceMethod
      && sv'.requests[r].seqNo == sv.requests[r].seqNo
  {
    var r := |s.sv.requests| - 1;
    assert S.ContentOk(s.sv, r);
  }

  predicate RefusalSent(sv: S.Server) {
    && sv.requests != []
    && sv.requests[|sv.requests| - 1].handler.Unstarted?
    && sv.requests[|sv.requests| - 1].error != "" && sv.requests[|sv.requests| - 1].sends == 1
  }

  /** The serve loop ends in two ways only: no header can be read, or a refusal has been sent. */
  lemma ServingEnds(config: S.Config, run: seq<System>, i: nat)
    requires IsRun(config, run) && i + 1 < |run| && !run[i].sv.reader.Closed? && run[i + 1].sv.reader.Closed?
    ensures if run[i].sv.reader.AwaitHeader? then run[i + 1].sv == run[i].sv.(reader := S.Closed)
            else run[i].sv.reader.Refusing? && RefusalSent(run[i + 1].sv)
  {
    Reached(config, run, i);
    Reached(config, run, i + 1);
    ReadersInStep(config, run, i);
    assert StepAt(config, run, i);
    var step :| Enabled(config, run[i], step) && run[i + 1] == Apply(config, run[i], step);
    if step.Write? {
      var r := run[i].sv.writer.r;
      assert S.PhaseOk(run[i].sv, r) && S.ContentOk(run[i].sv, r);
    }
  }
}
