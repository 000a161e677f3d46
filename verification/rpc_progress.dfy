/** Progress of the whole protocol: runs end but for new calls, and they end only when every call is settled. */
module RpcProgress {
  import opened RpcWire
  import opened RpcSystem
  import opened Sums
  import C = RpcClient
  import S = RpcServer

  // ---------- every step but a new call brings the system closer to rest ----------

  function CallWeight(call: C.Call): nat {
    if call.cancelled then 0 else 1
  }

  function SenderWeight(sender: C.Sender): nat {
    match sender
    case Unlocked => 0
    case HeaderNext(_) => 40
    case BodyNext(_) => 20
    case WriteFailed(_) => 2
    case Removed(_, _) => 1
  }

  function ReceiverWeight(receiver: C.Receiver): nat {
    match receiver
    case ReadHeader => 2
    case Lookup(_) => 4
    case ReadBody(_, _) => 3
    case Stopping(_) => 1
    case Stopped(_) => 0
  }

  /** What an item in a stream can still cause at its reader. */
  const UP_ITEM: nat := 16
  const DOWN_ITEM: nat := 3

  function Untaken(wire: Wire): nat {
    if wire.taken <= |wire.log| then |wire.log| - wire.taken else 0
  }

  function HandlerWeight(handler: S.Handler): nat {
    match handler
    case Unstarted => 3
    case Waiting => 2
    case Called => 1
    case TimedOut => 1
    case DoneTimeout => 0
    case DoneSent => 0
  }

  function WorkerWeight(worker: S.Worker): nat {
    match worker
    case Idle => 2
    case Running => 2
    case Exited => 0
    case _ => 1
  }

  function RequestWeight(req: S.Request): nat {
    (if req.sends == 0 then 9 else 0) + HandlerWeight(req.handler) + WorkerWeight(req.worker)
  }

  function WriterWeight(writer: S.Writer): nat {
    match writer
    case Free => 10
    case HeaderNext(_) => 9
    case BodyNext(_) => 5
  }

  function ReaderWeight(reader: S.Reader): nat {
    match reader
    case AwaitHeader => 1
    case AwaitBody => 2
    case Refusing => 1
    case Closed => 0
  }

  function CallWeights(calls: seq<C.Call>): (w: seq<nat>)
    ensures |w| == |calls| && forall c :: 0 <= c < |calls| ==> w[c] == CallWeight(calls[c])
  {
    seq(|calls|, c requires 0 <= c < |calls| => CallWeight(calls[c]))
  }

  function RequestWeights(requests: seq<S.Request>): (w: seq<nat>)
    ensures |w| == |requests| && forall r :: 0 <= r < |requests| ==> w[r] == RequestWeight(requests[r])
  {
    seq(|requests|, r requires 0 <= r < |requests| => RequestWeight(requests[r]))
  }

  function ClientWeight(cl: C.Client): nat {
    Sum(CallWeights(cl.calls)) + (if cl.closing then 0 else 1) + SenderWeight(cl.sender) + ReceiverWeight(cl.receiver)
  }

  function ServerWeight(sv: S.Server): nat {
    Sum(RequestWeights(sv.requests)) + ReaderWeight(sv.reader) + WriterWeight(sv.writer)
  }

  function Measure(s: System): nat {
    ClientWeight(s.cl) + ServerWeight(s.sv) + UP_ITEM * Untaken(s.up) + DOWN_ITEM * Untaken(s.down)
  }

  lemma SameCallWeights(calls: seq<C.Call>, calls': seq<C.Call>)
    requires |calls| == |calls'| && forall c :: 0 <= c < |calls| ==> calls'[c].cancelled == calls[c].cancelled
    ensures CallWeights(calls') == CallWeights(calls)
  {
  }

  lemma SendCloser(cl: C.Client, up: Wire, t: C.SendStep)
    requires C.SendEnabled(cl, t) && !t.Go? && up.taken <= |up.log|
    ensures var (cl', up') := C.Send(cl, up, t);
      ClientWeight(cl') + UP_ITEM * Untaken(up') < ClientWeight(cl) + UP_ITEM * Untaken(up)
  {
    var (cl', up') := C.Send(cl, up, t);
    if t.Cancel? {
      assert CallWeights(cl'.calls) == CallWeights(cl.calls)[t.c := 0];
      SumUpdate(CallWeights(cl.calls), t.c, 0);
    } else {
      SameCallWeights(cl.calls, cl'.calls);
    }
  }

  lemma ReceiveCloser(cl: C.Client, down: Wire, t: C.RecvStep)
    requires C.RecvEnabled(cl, down, t)
    ensures var (cl', down') := C.Receive(cl, down, t);
      ClientWeight(cl') + DOWN_ITEM * Untaken(down') < ClientWeight(cl) + DOWN_ITEM * Untaken(down)
  {
    NoneCancelled(cl, down, t);
    SameCallWeights(cl.calls, C.Receive(cl, down, t).0.calls);
  }

  lemma NoneCancelled(cl: C.Client, down: Wire, t: C.RecvStep)
    requires C.RecvEnabled(cl, down, t)
    ensures var cl' := C.Receive(cl, down, t).0;
      && |cl'.calls| == |cl.calls| && cl'.closing == cl.closing && cl'.sender == cl.sender
      && forall c :: 0 <= c < |cl.calls| ==> cl'.calls[c].cancelled == cl.calls[c].cancelled
  {
  }

  lemma RequestUpdate(sv: S.Server, r: nat, req: S.Request)
    requires r < |sv.requests|
    ensures Sum(RequestWeights(sv.requests[r := req]))
         == Sum(RequestWeights(sv.requests)) - RequestWeight(sv.requests[r]) + RequestWeight(req)
  {
    assert RequestWeights(sv.requests[r := req]) == RequestWeights(sv.requests)[r := RequestWeight(req)];
    SumUpdate(RequestWeights(sv.requests), r, RequestWeight(req));
  }

  lemma RequestAppend(sv: S.Server, req: S.Request)
    ensures Sum(RequestWeights(sv.requests + [req])) == Sum(RequestWeights(sv.requests)) + RequestWeight(req)
  {
    assert RequestWeights(sv.requests + [req]) == RequestWeights(sv.requests) + [RequestWeight(req)];
    SumAppend(RequestWeights(sv.requests), RequestWeight(req));
  }

  lemma ReadCloser(config: S.Config, sv: S.Server, up: Wire, t: S.ReadStep)
    requires S.ReaderOk(sv, up) && S.WorkOk(sv) && S.ReadEnabled(sv, up, t)
    ensures var (sv', up') := S.Read(config, sv, up, t);
      ServerWeight(sv') + UP_ITEM * Untaken(up') < ServerWeight(sv) + UP_ITEM * Untaken(up)
  {
    match t
    case ReadHeader =>
      if up.log[up.taken].HeaderItem? {
        AcceptWeight(config, sv, up.log[up.taken].header);
      }
    case ReadBody =>
      LastWeight(sv, S.Read(config, sv, up, t).0);
    case BodyFail(_) =>
      LastWeight(sv, S.Read(config, sv, up, t).0);
    case HeaderFail =>
  }

  lemma AcceptWeight(config: S.Config, sv: S.Server, h: Header)
    ensures Sum(RequestWeights(S.Accept(config, sv, h).requests)) == Sum(RequestWeights(sv.requests)) + 14
    ensures ReaderWeight(S.Accept(config, sv, h).reader) <= 2 && S.Accept(config, sv, h).writer == sv.writer
  {
    var sv' := S.Accept(config, sv, h);
    assert sv'.requests == sv.requests + [sv'.requests[|sv.requests|]];
    RequestAppend(sv, sv'.requests[|sv.requests|]);
  }

  /** The serve loop has started or refused the newest request. */
  lemma LastWeight(sv: S.Server, sv': S.Server)
    requires S.WorkOk(sv) && sv.requests != [] && |sv'.requests| == |sv.requests|
    requires var n := |sv.requests| - 1;
      && sv.requests[n].handler.Unstarted?
      && sv'.requests == sv.requests[n := sv'.requests[n]] && sv'.requests[n].sends == sv.requests[n].sends
      && HandlerWeight(sv'.requests[n].handler) <= 3 && WorkerWeight(sv'.requests[n].worker) <= 2
    ensures Sum(RequestWeights(sv'.requests)) <= Sum(RequestWeights(sv.requests))
  {
    var n := |sv.requests| - 1;
    assert S.PhaseOk(sv, n);
    RequestUpdate(sv, n, sv'.requests[n]);
  }

  lemma WorkCloser(config: S.Config, sv: S.Server, t: S.WorkStep)
    requires S.WorkOk(sv) && S.WorkEnabled(config, sv, t)
    ensures ServerWeight(S.Work(config, sv, t)) < ServerWeight(sv)
  {
    assert S.PhaseOk(sv, t.r);
    RequestUpdate(sv, t.r, S.Worked(sv.requests[t.r], t));
  }

  lemma WriteCloser(sv: S.Server, down: Wire, t: S.WriteStep)
    requires S.WorkOk(sv) && S.WriteEnabled(sv, t) && down.taken <= |down.log|
    ensures var (sv', down') := S.Write(sv, down, t);
      ServerWeight(sv') + DOWN_ITEM * Untaken(down') < ServerWeight(sv) + DOWN_ITEM * Untaken(down)
  {
    var (sv', down') := S.Write(sv, down, t);
    if t.WriteBody? || t.WriteError? {
      var r := sv.writer.r;
      assert S.PhaseOk(sv, r);
      assert sv'.requests == sv.requests[r := sv'.requests[r]];
      RequestUpdate(sv, r, sv'.requests[r]);
    }
  }

  /** Every step but a new call lowers the measure, failures, lost writes and the returns of methods included. */
  lemma StepsCloser(config: S.Config, s: System, step: Step)
    requires Inv(s) && Enabled(config, s, step) && !(step.Send? && step.send.Go?)
    ensures Measure(Apply(config, s, step)) < Measure(s)
  {
    match step
    case Send(t) => SendCloser(s.cl, s.up, t);
    case Receive(t) => ReceiveCloser(s.cl, s.down, t);
    case Read(t) => ReadCloser(config, s.sv, s.up, t);
    case Work(t) => WorkCloser(config, s.sv, t);
    case Write(t) => WriteCloser(s.sv, s.down, t);
  }

  /** So between two moments with no new call in between there are no more steps than the measure allows. */
  lemma {:induction false} RunsEnd(config: S.Config, run: seq<System>, i: nat, j: nat)
    requires IsRun(config, run) && i <= j < |run|
    ensures |run[i].cl.calls| <= |run[j].cl.calls|
    ensures |run[i].cl.calls| == |run[j].cl.calls| ==> j - i + Measure(run[j]) <= Measure(run[i])
    decreases j
  {
    if i < j {
      RunsEnd(config, run, i, j - 1);
      Reached(config, run, j - 1);
      assert StepAt(config, run, j - 1);
      var step :| Enabled(config, run[j - 1], step) && run[j] == Apply(config, run[j - 1], step);
      CountsCalls(config, run[j - 1], step);
      if !(step.Send? && step.send.Go?) {
        StepsCloser(config, run[j - 1], step);
      }
    }
  }

  lemma CountsCalls(config: S.Config, s: System, step: Step)
    requires Enabled(config, s, step)
    ensures |Apply(config, s, step).cl.calls| == |s.cl.calls| + if step.Send? && step.send.Go? then 1 else 0
  {
    match step
    case Receive(t) => C.ReceiveKeepsCalls(s.cl, s.down, t);
    case _ =>
  }

  // ---------- what holds besides the invariant ----------

  predicate Done(cl: C.Client, c: nat)
    requires c < |cl.calls|
  {
    cl.calls[c].signals > 0 || cl.calls[c].cancelled || (cl.sender.Removed? && cl.sender.c == c)
  }

  /** Nothing more has to be done for the call of this number. */
  predicate Heard(cl: C.Client, n: nat) {
    forall c :: 0 <= c < |cl.calls| && cl.calls[c].seqNo == n ==> Done(cl, c)
  }

  predicate HeardAt(cl: C.Client, log: seq<Item>, j: nat) {
    2 * j < |log| && log[2 * j].HeaderItem? && Heard(cl, log[2 * j].header.seqNo)
  }

  /** Every response that was read has ended its call, unless somebody else had. */
  ghost predicate AllHeard(cl: C.Client, log: seq<Item>) {
    && (forall j :: 0 <= j < cl.received ==> HeardAt(cl, log, j))
    && (cl.receiver.ReadBody? && cl.receiver.call.None? ==> Heard(cl, cl.receiver.h.seqNo))
  }

  /** While the stream up works, the request of every registered call is in it or about to be written. */
  predicate AllWritten(cl: C.Client) {
    forall c :: 0 <= c < |cl.calls| && cl.calls[c].seqNo != 0 ==> c in cl.written || cl.sender == C.HeaderNext(c)
  }

  /** While the stream down works, every response that was sent is in it. */
  predicate AllAnswered(sv: S.Server) {
    forall r :: 0 <= r < |sv.requests| && sv.requests[r].sends > 0 ==> r in sv.answered
  }

  ghost predicate Flowing(s: System) {
    && (!s.up.broken ==> AllWritten(s.cl))
    && (!s.down.broken ==> AllAnswered(s.sv))
    && AllHeard(s.cl, s.down.log)
  }

  lemma SendHeard(cl: C.Client, up: Wire, t: C.SendStep, n: nat)
    requires C.SenderOk(cl) && C.SendEnabled(cl, t) && n < cl.nextSeq && Heard(cl, n)
    ensures Heard(C.Send(cl, up, t).0, n)
  {
    var cl' := C.Send(cl, up, t).0;
    if !t.Go? {
      C.SendKeepsCalls(cl, up, t);
    }
    forall c | 0 <= c < |cl'.calls| && cl'.calls[c].seqNo == n ensures Done(cl', c) {
      assert c < |cl.calls| ==> Done(cl, c);
    }
  }

  lemma ReceiveHeard(cl: C.Client, down: Wire, t: C.RecvStep, n: nat)
    requires C.SenderOk(cl) && C.RecvEnabled(cl, down, t) && Heard(cl, n)
    ensures Heard(C.Receive(cl, down, t).0, n)
  {
    var cl' := C.Receive(cl, down, t).0;
    C.ReceiveKeepsCalls(cl, down, t);
    C.ReceiveSender(cl, down, t);
    forall c | 0 <= c < |cl'.calls| && cl'.calls[c].seqNo == n ensures Done(cl', c) {
      assert Done(cl, c);
    }
  }

  /** Numbers of responses are numbers of calls. */
  lemma DownKnown(s: System, j: nat)
    requires Inv(s) && 2 * j < |s.down.log|
    ensures s.down.log[2 * j].HeaderItem? && s.down.log[2 * j].header.seqNo < s.cl.nextSeq
  {
    assert S.PairOk(s.sv, s.down.log, j);
    var r := s.sv.answered[j];
    assert S.FromWire(s.sv, s.up.log, r);
    assert C.PairOk(s.cl, s.up.log, r);
  }

  lemma SendFlowing(s: System, t: C.SendStep)
    requires Inv(s) && Flowing(s) && C.SendEnabled(s.cl, t)
    ensures var (cl, up) := C.Send(s.cl, s.up, t); Flowing(s.(cl := cl, up := up))
  {
    var (cl', up') := C.Send(s.cl, s.up, t);
    SendAllWritten(s.cl, s.up, t);
    assert cl'.received == s.cl.received && cl'.receiver == s.cl.receiver;
    forall j | 0 <= j < s.cl.received ensures HeardAt(cl', s.down.log, j) {
      assert HeardAt(s.cl, s.down.log, j);
      DownKnown(s, j);
      SendHeard(s.cl, s.up, t, s.down.log[2 * j].header.seqNo);
    }
    if s.cl.receiver.ReadBody? && s.cl.receiver.call.None? {
      DownKnown(s, s.cl.received);
      SendHeard(s.cl, s.up, t, s.cl.receiver.h.seqNo);
    }
  }

  lemma SendAllWritten(cl: C.Client, up: Wire, t: C.SendStep)
    requires C.SenderOk(cl) && C.SendEnabled(cl, t) && (!up.broken ==> AllWritten(cl))
    ensures var (cl', up') := C.Send(cl, up, t); !up'.broken ==> AllWritten(cl')
  {
    var (cl', up') := C.Send(cl, up, t);
    if !t.Go? {
      C.SendKeepsCalls(cl, up, t);
    }
  }

  lemma ReceiveFlowing(s: System, t: C.RecvStep)
    requires Inv(s) && Flowing(s) && C.RecvEnabled(s.cl, s.down, t)
    ensures var (cl, down) := C.Receive(s.cl, s.down, t); Flowing(s.(cl := cl, down := down))
  {
    var cl' := C.Receive(s.cl, s.down, t).0;
    C.ReceiveKeepsCalls(s.cl, s.down, t);
    C.ReceiveSender(s.cl, s.down, t);
    forall j | 0 <= j < s.cl.received ensures HeardAt(cl', s.down.log, j) {
      assert HeardAt(s.cl, s.down.log, j);
      ReceiveHeard(s.cl, s.down, t, s.down.log[2 * j].header.seqNo);
    }
    NewlyHeard(s.cl, s.down, t);
  }

  /** Looking a number up without success shows that its call has been dealt with; answering it deals with it. */
  lemma NewlyHeard(cl: C.Client, down: Wire, t: C.RecvStep)
    requires C.Numbered(cl) && C.SenderOk(cl) && C.NoneLost(cl) && C.ReceiverOk(cl, down) && C.RecvEnabled(cl, down, t)
    requires AllHeard(cl, down.log)
    ensures var cl' := C.Receive(cl, down, t).0;
      && cl.received <= cl'.received <= cl.received + 1
      && (cl'.received > cl.received ==> HeardAt(cl', down.log, cl.received))
      && (cl'.receiver.ReadBody? && cl'.receiver.call.None? ==> Heard(cl', cl'.receiver.h.seqNo))
  {
    var cl' := C.Receive(cl, down, t).0;
    if t.RecvLookup? {
      forall c | 0 <= c < |cl.calls| && cl.calls[c].seqNo == cl.receiver.h.seqNo && cl.calls[c].seqNo !in cl.pending
        ensures Done(cl', c)
      {
        assert C.Accounted(cl, c);
      }
    } else if t.RecvBody? && cl'.received > cl.received {
      AnswerHeard(cl, down);
    }
  }

  lemma AnswerHeard(cl: C.Client, down: Wire)
    requires C.Numbered(cl) && C.SenderOk(cl) && C.ReceiverOk(cl, down) && C.RecvEnabled(cl, down, C.RecvBody)
    requires AllHeard(cl, down.log) && down.log[down.taken].BodyItem?
    ensures Heard(C.Receive(cl, down, C.RecvBody).0, cl.receiver.h.seqNo)
  {
    var cl' := C.Receive(cl, down, C.RecvBody).0;
    if cl.receiver.call.None? {
      ReceiveHeard(cl, down, C.RecvBody, cl.receiver.h.seqNo);
    } else {
      C.ReceiveKeepsCalls(cl, down, C.RecvBody);
      forall c | 0 <= c < |cl'.calls| && cl'.calls[c].seqNo == cl.receiver.h.seqNo ensures Done(cl', c) {
        C.OneOwner(cl, c, cl.receiver.call.value);
      }
    }
  }

  lemma ReadFlowing(config: S.Config, s: System, t: S.ReadStep)
    requires Inv(s) && Flowing(s) && S.ReadEnabled(s.sv, s.up, t)
    ensures var (sv, up) := S.Read(config, s.sv, s.up, t); Flowing(s.(sv := sv, up := up))
  {
  }

  lemma WriteFlowing(s: System, t: S.WriteStep)
    requires Inv(s) && Flowing(s) && S.WriteEnabled(s.sv, t)
    ensures var (sv, down) := S.Write(s.sv, s.down, t); Flowing(s.(sv := sv, down := down))
  {
    var (sv', down') := S.Write(s.sv, s.down, t);
    assert s.down.log <= down'.log;
    forall j | 0 <= j < s.cl.received ensures HeardAt(s.cl, down'.log, j) {
      assert HeardAt(s.cl, s.down.log, j);
    }
    WriteAllAnswered(s.sv, s.down, t);
  }

  lemma WriteAllAnswered(sv: S.Server, down: Wire, t: S.WriteStep)
    requires S.ResponsesFramed(sv, down) && S.WriteEnabled(sv, t) && (!down.broken ==> AllAnswered(sv))
    ensures var (sv', down') := S.Write(sv, down, t); !down'.broken ==> AllAnswered(sv')
  {
    var (sv', down') := S.Write(sv, down, t);
    if !down'.broken && t.WriteBody? {
      assert sv.answered[|sv.answered| - 1] == sv.writer.r;
    }
  }

  lemma StepFlowing(config: S.Config, s: System, step: Step)
    requires Inv(s) && Flowing(s) && Enabled(config, s, step)
    ensures Flowing(Apply(config, s, step))
  {
    match step
    case Send(t) => SendFlowing(s, t);
    case Receive(t) => ReceiveFlowing(s, t);
    case Read(t) => ReadFlowing(config, s, t);
    case Work(_) =>
    case Write(t) => WriteFlowing(s, t);
  }

  lemma {:induction false} FlowingReached(config: S.Config, run: seq<System>, i: nat)
    requires IsRun(config, run) && i < |run|
    ensures Flowing(run[i])
  {
    if i > 0 {
      FlowingReached(config, run, i - 1);
      Reached(config, run, i - 1);
      assert StepAt(config, run, i - 1);
      var step :| Enabled(config, run[i - 1], step) && run[i] == Apply(config, run[i - 1], step);
      StepFlowing(config, run[i - 1], step);
    }
  }

  // ---------- nothing gets stuck ----------

  /** One direction of the connection is broken, or the server has closed it. */
  predicate Dead(s: System) {
    s.up.broken || s.down.broken || s.sv.reader.Closed?
  }

  /** A step that the program takes by itself: no new call, no cancellation or Close, no return of a method, no timer
      and no failure, but for the end of a dead connection, which the receive loop notices. */
  predicate Proper(s: System, step: Step) {
    match step
    case Send(t) => t == C.WriteHeader(false) || t == C.WriteBody(false) || t.FailRemove? || t.FailSignal?
    case Receive(t) => t.RecvHeaderFail? || t.RecvBodyFail? ==> Dead(s) && !s.down.Available()
    case Read(t) => t.ReadHeader? || t.ReadBody?
    case Work(t) => t.Rendezvous? || t.WaitSent?
    case Write(t) => t.Lock? || t == S.WriteHeader(false) || t == S.WriteBody(false)
  }

  ghost predicate CanMove(config: S.Config, s: System) {
    exists step :: Proper(s, step) && Enabled(config, s, step)
  }

  /** The method of the call's own request has not returned, and its handler waits for it. */
  predicate InMethod(s: System, r: nat) {
    r < |s.sv.requests| && s.sv.requests[r].handler.Waiting? && s.sv.requests[r].worker.Running?
  }

  lemma SenderMoves(config: S.Config, s: System)
    requires Inv(s) && !s.cl.sender.Unlocked?
    ensures CanMove(config, s)
  {
    var t := match s.cl.sender
             case HeaderNext(_) => C.WriteHeader(false)
             case BodyNext(_) => C.WriteBody(false)
             case WriteFailed(_) => C.FailRemove
             case _ => C.FailSignal("");
    assert Proper(s, Send(t)) && Enabled(config, s, Send(t));
  }

  lemma WriterMoves(config: S.Config, s: System)
    requires Inv(s) && !s.sv.writer.Free?
    ensures CanMove(config, s)
  {
    var t := if s.sv.writer.HeaderNext? then S.WriteHeader(false) else S.WriteBody(false);
    assert Proper(s, Write(t)) && Enabled(config, s, Write(t));
  }

  /** The receive loop can move, unless it waits for a response that has not been written at all. */
  lemma ReceiveLoopMoves(config: S.Config, s: System)
    requires Inv(s) && s.cl.sender.Unlocked? && s.sv.writer.Free? && !s.cl.receiver.Stopped?
    requires Dead(s) || !s.cl.receiver.ReadHeader? || s.down.Available()
    ensures CanMove(config, s)
  {
    var t := match s.cl.receiver
             case ReadHeader => if s.down.Available() then C.RecvHeader else C.RecvHeaderFail
             case Lookup(_) => C.RecvLookup
             case ReadBody(_, _) => if s.down.Available() then C.RecvBody else C.RecvBodyFail("")
             case _ => C.Terminate;
    assert s.cl.receiver.ReadBody? && !s.down.Available() ==> s.down.taken == 2 * s.cl.received + 1 == |s.down.log|;
    assert Proper(s, Receive(t)) && Enabled(config, s, Receive(t));
  }

  /** The serve loop can move, unless it waits for a request that has not been written at all. */
  lemma ServeLoopMoves(config: S.Config, s: System)
    requires Inv(s) && !Dead(s) && s.cl.sender.Unlocked? && s.sv.writer.Free?
    requires !s.sv.reader.AwaitHeader? || s.up.Available()
    ensures CanMove(config, s)
  {
    var step := if s.sv.reader.AwaitHeader? then Read(S.ReadHeader)
                else if s.sv.reader.AwaitBody? then Read(S.ReadBody)
                else Write(S.Lock(|s.sv.requests| - 1));
    assert s.sv.reader.AwaitBody? ==> s.up.taken == 2 * |s.sv.requests| - 1 && |s.up.log| == 2 * |s.cl.written|;
    assert Proper(s, step) && Enabled(config, s, step);
  }

  /** A request that has been read is being executed, or can move, or its response is in the stream. */
  lemma RequestMoves(config: S.Config, s: System, r: nat)
    requires Inv(s) && r < |s.sv.requests| && s.sv.writer.Free? && s.sv.reader.AwaitHeader?
    ensures CanMove(config, s) || InMethod(s, r) || s.sv.requests[r].sends > 0
  {
    assert S.PhaseOk(s.sv, r) && S.ContentOk(s.sv, r);
    var req := s.sv.requests[r];
    var step := if req.handler.Waiting? then Work(S.Rendezvous(r))
                else if req.handler.Called? && req.worker.Sent? then Work(S.WaitSent(r))
                else Write(S.Lock(r));
    assert Proper(s, step);
    assert InMethod(s, r) || req.sends > 0 || Enabled(config, s, step);
  }

  lemma CallMoves(config: S.Config, s: System, c: nat)
    requires Inv(s) && Flowing(s) && c < |s.cl.calls| && s.cl.calls[c].signals == 0 && !s.cl.calls[c].cancelled
    requires !CanMove(config, s)
    ensures exists r :: Serves(s, r, c) && InMethod(s, r)
  {
    assert C.Accounted(s.cl, c);
    if !s.cl.sender.Unlocked? {
      SenderMoves(config, s);
    } else if !s.sv.writer.Free? {
      WriterMoves(config, s);
    } else if Dead(s) || !s.cl.receiver.ReadHeader? || s.down.Available() {
      ReceiveLoopMoves(config, s);
    } else if !s.sv.reader.AwaitHeader? || s.up.Available() {
      ServeLoopMoves(config, s);
    } else {
      var r: nat :| r < |s.cl.written| && s.cl.written[r] == c;
      assert C.PairOk(s.cl, s.up.log, r);
      assert S.FromWire(s.sv, s.up.log, r);
      RequestServes(s, r, c);
      RequestMoves(config, s, r);
      if s.sv.requests[r].sends > 0 {
        ResponseHeard(s, r, c);
      }
    }
  }

  /** The response was sent, so it has been read, so the call is done. */
  lemma ResponseHeard(s: System, r: nat, c: nat)
    requires Inv(s) && Flowing(s) && !s.down.broken && s.sv.writer.Free? && Serves(s, r, c)
    requires s.sv.requests[r].sends > 0 && s.cl.receiver.ReadHeader? && !s.down.Available()
    ensures Done(s.cl, c)
  {
    var j: nat :| j < |s.sv.answered| && s.sv.answered[j] == r;
    assert S.PairOk(s.sv, s.down.log, j);
    assert HeardAt(s.cl, s.down.log, j);
  }

  /** No call waits for ever. In every state of every run, while a call is neither signalled nor cancelled, the program
      can take a step by itself, or the call's own method, on its own arguments, is still running. Only finitely many
      steps can follow without a new call, as StepsCloser shows, so every call is settled once methods return. */
  lemma NotStuck(config: S.Config, run: seq<System>, i: nat, c: nat)
    requires IsRun(config, run) && i < |run| && c < |run[i].cl.calls|
    requires run[i].cl.calls[c].signals == 0 && !run[i].cl.calls[c].cancelled
    ensures CanMove(config, run[i]) || exists r :: Serves(run[i], r, c) && InMethod(run[i], r)
  {
    Reached(config, run, i);
    FlowingReached(config, run, i);
    if !CanMove(config, run[i]) {
      CallMoves(config, run[i], c);
    }
  }

  /** When the program has come to rest and no handler waits for its method, every call is settled. */
  lemma RestIsSettled(config: S.Config, run: seq<System>, i: nat)
    requires IsRun(config, run) && i < |run|
    requires !CanMove(config, run[i]) && forall r :: !InMethod(run[i], r)
    ensures forall c :: 0 <= c < |run[i].cl.calls| ==> run[i].cl.calls[c].signals > 0 || run[i].cl.calls[c].cancelled
  {
    forall c | 0 <= c < |run[i].cl.calls| && run[i].cl.calls[c].signals == 0 && !run[i].cl.calls[c].cancelled
      ensures false
    {
      NotStuck(config, run, i, c);
    }
  }

  /** With a timeout not even a method that never returns can hold a call up: its timer can fire. */
  lemma TimerFrees(config: S.Config, run: seq<System>, i: nat, c: nat)
    requires IsRun(config, run) && i < |run| && c < |run[i].cl.calls| && config.timeout != 0
    requires run[i].cl.calls[c].signals == 0 && !run[i].cl.calls[c].cancelled
    ensures CanMove(config, run[i])
      || exists r :: Serves(run[i], r, c) && Enabled(config, run[i], Work(S.Expire(r)))
  {
    NotStuck(config, run, i, c);
    if !CanMove(config, run[i]) {
      var r :| Serves(run[i], r, c) && InMethod(run[i], r);
      assert Enabled(config, run[i], Work(S.Expire(r)));
    }
  }
}
