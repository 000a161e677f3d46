/** Client, two streams and server together: what holds in every state of every run. */
module RpcSystem {
  import opened Common
  import opened RpcWire
  import C = RpcClient
  import S = RpcServer

  datatype System = System(cl: C.Client, sv: S.Server, up: Wire, down: Wire)

  datatype Step =
    | Send(send: C.SendStep)
    | Receive(receive: C.RecvStep)
    | Read(read: S.ReadStep)
    | Work(work: S.WorkStep)
    | Write(write: S.WriteStep)

  const INIT := System(C.INIT, S.INIT, Wire([], 0, false), Wire([], 0, false))

  predicate Enabled(config: S.Config, s: System, step: Step) {
    match step
    case Send(t) => C.SendEnabled(s.cl, t)
    case Receive(t) => C.RecvEnabled(s.cl, s.down, t)
    case Read(t) => S.ReadEnabled(s.sv, s.up, t)
    case Work(t) => S.WorkEnabled(config, s.sv, t)
    case Write(t) => S.WriteEnabled(s.sv, t)
  }

  function Apply(config: S.Config, s: System, step: Step): System
    requires Enabled(config, s, step)
  {
    match step
    case Send(t) => var (cl, up) := C.Send(s.cl, s.up, t); s.(cl := cl, up := up)
    case Receive(t) => var (cl, down) := C.Receive(s.cl, s.down, t); s.(cl := cl, down := down)
    case Read(t) => var (sv, up) := S.Read(config, s.sv, s.up, t); s.(sv := sv, up := up)
    case Work(t) => s.(sv := S.Work(config, s.sv, t))
    case Write(t) => var (sv, down) := S.Write(s.sv, s.down, t); s.(sv := sv, down := down)
  }

  ghost predicate Next(config: S.Config, s: System, s': System) {
    exists step :: Enabled(config, s, step) && s' == Apply(config, s, step)
  }

  ghost predicate StepAt(config: S.Config, run: seq<System>, i: nat)
    requires i < |run| - 1
  {
    Next(config, run[i], run[i + 1])
  }

  /** A run under every interleaving: senders, receive loop, serve loop, handlers, workers, timers, lost writes. */
  ghost predicate IsRun(config: S.Config, run: seq<System>) {
    && |run| > 0
    && run[0] == INIT
    && forall i :: 0 <= i < |run| - 1 ==> StepAt(config, run, i)
  }

  ghost predicate Inv(s: System) {
    && C.Inv(s.cl, s.up, s.down)
    && S.Inv(s.sv, s.up, s.down)
  }

  // ---------- what one end guarantees to the other ----------

  lemma UpAt(s: System, i: nat)
    requires C.RequestsFramed(s.cl, s.up) && i < |s.up.log|
    ensures i / 2 < |s.cl.written| && s.cl.written[i / 2] < |s.cl.calls|
    ensures i % 2 == 0 ==> s.up.log[i] == HeaderItem(s.cl.calls[s.cl.written[i / 2]].RequestHeader())
                           && s.cl.calls[s.cl.written[i / 2]].seqNo != 0
    ensures i % 2 == 1 ==> s.up.log[i].BodyItem?
  {
    assert i == 2 * (i / 2) + i % 2;
    assert C.PairOk(s.cl, s.up.log, i / 2);
  }

  /** Requests are well-formed pairs, their numbers never repeat, and their headers carry no error. */
  lemma UpDistinct(s: System)
    requires C.Numbered(s.cl) && C.RequestsFramed(s.cl, s.up)
    ensures Alternates(s.up.log) && DistinctHeaders(s.up.log)
    ensures forall i :: 0 <= i < |s.up.log| && s.up.log[i].HeaderItem? ==> s.up.log[i].header.error == ""
  {
    forall i | 0 <= i < |s.up.log|
      ensures i % 2 == 0 ==> s.up.log[i].HeaderItem? && s.up.log[i].header.error == ""
      ensures i % 2 == 1 ==> s.up.log[i].BodyItem?
    {
      UpAt(s, i);
    }
    forall i, j | 0 <= i < j < |s.up.log| && i % 2 == 0 && j % 2 == 0
      ensures s.up.log[i].header.seqNo != s.up.log[j].header.seqNo
    {
      UpAt(s, i);
      UpAt(s, j);
      assert s.cl.written[i / 2] < s.cl.written[j / 2];
    }
  }

  /** Responses are well-formed pairs of distinct requests, so their numbers never repeat either. */
  lemma DownDistinct(s: System)
    requires S.ReaderOk(s.sv, s.up) && S.ResponsesFramed(s.sv, s.down)
    requires Alternates(s.up.log) && DistinctHeaders(s.up.log)
    ensures Alternates(s.down.log) && DistinctHeaders(s.down.log)
  {
    var log := s.down.log;
    forall i | 0 <= i < |log|
      ensures i % 2 == 0 ==> log[i].HeaderItem? && i / 2 < |s.sv.answered| && s.sv.answered[i / 2] < |s.sv.requests|
                             && log[i].header.seqNo == s.sv.requests[s.sv.answered[i / 2]].seqNo
      ensures i % 2 == 1 ==> log[i].BodyItem?
    {
      assert i == 2 * (i / 2) + i % 2;
      assert S.PairOk(s.sv, log, i / 2);
    }
    forall i, j | 0 <= i < j < |log| && i % 2 == 0 && j % 2 == 0 ensures log[i].header.seqNo != log[j].header.seqNo {
      NumbersDiffer(s, s.sv.answered[i / 2], s.sv.answered[j / 2]);
    }
  }

  lemma NumbersDiffer(s: System, q: nat, r: nat)
    requires S.ReaderOk(s.sv, s.up) && Alternates(s.up.log) && DistinctHeaders(s.up.log)
    requires q < |s.sv.requests| && r < |s.sv.requests| && q != r
    ensures s.sv.requests[q].seqNo != s.sv.requests[r].seqNo
  {
    assert S.FromWire(s.sv, s.up.log, q) && S.FromWire(s.sv, s.up.log, r);
    assert (2 * q) % 2 == 0 && (2 * r) % 2 == 0;
  }

  // ---------- the invariant of every run ----------

  lemma UpGrows(sv: S.Server, up: Wire, up': Wire)
    requires S.ReaderOk(sv, up) && up'.taken == up.taken && up.log <= up'.log
    ensures S.ReaderOk(sv, up')
  {
    forall r | 0 <= r < |sv.requests| ensures S.FromWire(sv, up'.log, r) {
      assert S.FromWire(sv, up.log, r);
    }
  }

  lemma DownGrows(cl: C.Client, down: Wire, down': Wire)
    requires C.ReceiverOk(cl, down) && down'.taken == down.taken && down.log <= down'.log
    ensures C.ReceiverOk(cl, down')
  {
    forall c | 0 <= c < |cl.calls| ensures C.AnswersOk(cl.calls[c], cl.received, down'.log) {
      assert C.AnswersOk(cl.calls[c], cl.received, down.log);
    }
  }

  lemma SendPreserved(s: System, t: C.SendStep)
    requires Inv(s) && C.SendEnabled(s.cl, t)
    ensures var (cl, up) := C.Send(s.cl, s.up, t); Inv(s.(cl := cl, up := up))
  {
    C.SendPreserves(s.cl, s.up, s.down, t);
    UpGrows(s.sv, s.up, C.Send(s.cl, s.up, t).1);
  }

  lemma WritePreserved(s: System, t: S.WriteStep)
    requires Inv(s) && S.WriteEnabled(s.sv, t)
    ensures var (sv, down) := S.Write(s.sv, s.down, t); Inv(s.(sv := sv, down := down))
  {
    S.WritePreserves(s.sv, s.up, s.down, t);
    DownGrows(s.cl, s.down, S.Write(s.sv, s.down, t).1);
  }

  lemma ReceivePreserved(s: System, t: C.RecvStep)
    requires Inv(s) && C.RecvEnabled(s.cl, s.down, t)
    ensures var (cl, down) := C.Receive(s.cl, s.down, t); Inv(s.(cl := cl, down := down))
  {
    UpDistinct(s);
    DownDistinct(s);
    C.ReceivePreserves(s.cl, s.up, s.down, t);
    ReceiverMoves(s.sv, s.down, C.Receive(s.cl, s.down, t).1);
  }

  lemma ReadPreserved(config: S.Config, s: System, t: S.ReadStep)
    requires Inv(s) && S.ReadEnabled(s.sv, s.up, t)
    ensures var (sv, up) := S.Read(config, s.sv, s.up, t); Inv(s.(sv := sv, up := up))
  {
    UpDistinct(s);
    S.ReadPreserves(config, s.sv, s.up, s.down, t);
    ReaderMoves(s.cl, s.up, S.Read(config, s.sv, s.up, t).1);
  }

  lemma ReaderMoves(cl: C.Client, up: Wire, up': Wire)
    requires C.RequestsFramed(cl, up) && up'.log == up.log && up'.broken == up.broken
    ensures C.RequestsFramed(cl, up')
  {
    forall i | 0 <= i < |cl.written| ensures C.PairOk(cl, up'.log, i) {
      assert C.PairOk(cl, up.log, i);
    }
  }

  lemma ReceiverMoves(sv: S.Server, down: Wire, down': Wire)
    requires S.ResponsesFramed(sv, down) && down'.log == down.log && down'.broken == down.broken
    ensures S.ResponsesFramed(sv, down')
  {
    forall i | 0 <= i < |sv.answered| ensures S.PairOk(sv, down'.log, i) {
      assert S.PairOk(sv, down.log, i);
    }
  }

  lemma Preserved(config: S.Config, s: System, s': System)
    requires Inv(s) && Next(config, s, s')
    ensures Inv(s')
  {
    var step :| Enabled(config, s, step) && s' == Apply(config, s, step);
    match step
    case Send(t) => SendPreserved(s, t);
    case Receive(t) => ReceivePreserved(s, t);
    case Read(t) => ReadPreserved(config, s, t);
    case Work(t) => S.WorkPreserves(config, s.sv, s.up, s.down, t);
    case Write(t) => WritePreserved(s, t);
  }

  lemma {:induction false} Reached(config: S.Config, run: seq<System>, i: nat)
    requires IsRun(config, run) && i < |run|
    ensures Inv(run[i])
  {
    if i > 0 {
      Reached(config, run, i - 1);
      assert StepAt(config, run, i - 1);
      Preserved(config, run[i - 1], run[i]);
    }
  }

  // ---------- replies ----------

  /** Request r was sent for call c: same number, method and arguments. */
  ghost predicate Serves(s: System, r: nat, c: nat) {
    && r < |s.sv.requests| && c < |s.cl.calls|
    && s.sv.requests[r].seqNo == s.cl.calls[c].seqNo
    && s.sv.requests[r].serviceMethod == s.cl.calls[c].serviceMethod
    && (s.sv.requests[r].args.Some? ==> s.sv.requests[r].args.value == s.cl.calls[c].args)
  }

  lemma RequestServes(s: System, r: nat, c: nat)
    requires Inv(s) && r < |s.sv.requests| && c < |s.cl.calls|
    requires s.sv.requests[r].seqNo == s.cl.calls[c].seqNo
    ensures Serves(s, r, c)
  {
    assert S.FromWire(s.sv, s.up.log, r);
    assert C.PairOk(s.cl, s.up.log, r);
    C.OneOwner(s.cl, s.cl.written[r], c);
  }

  /** Where an answer came from: the response of the one request that was sent for the call. */
  lemma AnswerSource(s: System, c: nat) returns (r: nat)
    requires Inv(s) && c < |s.cl.calls| && s.cl.calls[c].answers != []
    ensures Serves(s, r, c) && S.Committed(s.sv, r)
    ensures match s.cl.calls[c].answers[0]
            case Filled(_, v) => s.sv.requests[r].error == "" && s.sv.requests[r].body == v
            case Refused(_, text) => s.sv.requests[r].error == text != ""
  {
    var a := s.cl.calls[c].answers[0];
    assert C.AnswersOk(s.cl.calls[c], s.cl.received, s.down.log);
    assert S.PairOk(s.sv, s.down.log, a.pair);
    r := s.sv.answered[a.pair];
    RequestServes(s, r, c);
  }

  /** End-to-end correlation. In every state of every run a call has been answered at most once. If its reply was
      filled, exactly one request was accepted for it, that request executed the call's own method on the call's own
      arguments, and the reply is what that execution returned. The one exception is a method that failed with an
      empty message: its response is indistinguishable from a success, and carries the placeholder body. */
  lemma ReplyCorrelation(config: S.Config, run: seq<System>, i: nat, c: nat)
    requires IsRun(config, run) && i < |run| && c < |run[i].cl.calls|
    ensures |run[i].cl.calls[c].answers| <= 1
    ensures run[i].cl.calls[c].answers != [] && run[i].cl.calls[c].answers[0].Filled? ==>
      exists r: nat :: Serves(run[i], r, c)
        && (forall q: nat :: Serves(run[i], q, c) ==> q == r)
        && run[i].sv.requests[r].args == Some(run[i].cl.calls[c].args)
        && var v := run[i].cl.calls[c].answers[0].reply;
           run[i].sv.requests[r].outcome == Some(S.Reply(v))
           || (run[i].sv.requests[r].outcome == Some(S.Failure("")) && v == INVALID_REQUEST)
  {
    var s := run[i];
    Reached(config, run, i);
    assert C.AnswersOk(s.cl.calls[c], s.cl.received, s.down.log);
    if s.cl.calls[c].answers != [] && s.cl.calls[c].answers[0].Filled? {
      var r := AnswerSource(s, c);
      assert S.PhaseOk(s.sv, r) && S.ContentOk(s.sv, r);
      UpDistinct(s);
      forall q: nat | Serves(s, q, c) ensures q == r {
        if q != r {
          NumbersDiffer(s, q, r);
        }
      }
    }
  }

  // ---------- refusals ----------

  /** After this moment the r-th request was refused because its body could not be read: nothing was taken from the
      stream. */
  predicate BodyFailsAt(run: seq<System>, k: nat, r: nat)
    requires k + 1 < |run|
  {
    && |run[k].sv.requests| == r + 1 && run[k].sv.reader.AwaitBody?
    && run[k + 1].sv.reader.Refusing? && run[k + 1].up == run[k].up
  }

  ghost predicate BodyUnread(run: seq<System>, i: nat, r: nat)
    requires i < |run|
  {
    exists k: nat :: k < i && BodyFailsAt(run, k, r)
  }

  function NameOf(sv: S.Server, r: nat): string
    requires r < |sv.requests|
  {
    sv.requests[r].serviceMethod
  }

  /** The serve loop waits only for the body of a request whose name resolves. */
  predicate AwaitsResolved(config: S.Config, sv: S.Server) {
    sv.reader.AwaitBody? ==>
      sv.requests != [] && S.FindService(config.services, NameOf(sv, |sv.requests| - 1)).Ok?
  }

  /** The serve loop is done with the r-th request, and has not started it. */
  predicate GivenUp(sv: S.Server, r: nat) {
    && r < |sv.requests| && sv.requests[r].handler.Unstarted?
    && (r == |sv.requests| - 1 ==> !sv.reader.AwaitBody?)
  }

  /** It was given up before, or its body has just failed, or its name does not resolve. */
  predicate GivenUpBy(config: S.Config, s: System, s': System, r: nat)
    requires r < |s'.sv.requests|
  {
    var req' := s'.sv.requests[r];
    if GivenUp(s.sv, r) then
      NameOf(s.sv, r) == req'.serviceMethod && s.sv.requests[r].error == req'.error
    else if r < |s.sv.requests| then
      && r == |s.sv.requests| - 1 && s.sv.reader.AwaitBody? && s'.sv.reader.Refusing? && s'.up == s.up
      && NameOf(s.sv, r) == req'.serviceMethod
    else
      S.FindService(config.services, req'.serviceMethod) == Err(req'.error)
  }

  lemma WorkResolves(config: S.Config, sv: S.Server, t: S.WorkStep)
    requires S.WorkOk(sv) && S.WorkEnabled(config, sv, t)
    ensures var sv' := S.Work(config, sv, t);
      && sv'.reader == sv.reader && |sv'.requests| == |sv.requests|
      && forall r :: 0 <= r < |sv.requests| ==> SameUnstarted(sv.requests[r], sv'.requests[r])
  {
    assert S.PhaseOk(sv, t.r);
  }

  lemma WriteResolves(sv: S.Server, down: Wire, t: S.WriteStep)
    requires S.WorkOk(sv) && S.WriteEnabled(sv, t)
    ensures var sv' := S.Write(sv, down, t).0;
      && (sv'.reader == sv.reader || (sv.reader.Refusing? && sv'.reader.Closed?)) && |sv'.requests| == |sv.requests|
      && forall r :: 0 <= r < |sv.requests| ==> SameUnstarted(sv.requests[r], sv'.requests[r])
  {
    if !sv.writer.Free? {
      assert S.PhaseOk(sv, sv.writer.r);
    }
  }

  predicate SameUnstarted(req: S.Request, req': S.Request) {
    && req'.serviceMethod == req.serviceMethod
    && (req'.handler.Unstarted? ==> req.handler.Unstarted? && req'.error == req.error)
  }

  lemma ReadResolves(config: S.Config, s: System, t: S.ReadStep, r: nat)
    requires Inv(s) && S.ReadEnabled(s.sv, s.up, t) && AwaitsResolved(config, s.sv)
    ensures AwaitsResolved(config, S.Read(config, s.sv, s.up, t).0)
    ensures var (sv, up) := S.Read(config, s.sv, s.up, t);
      GivenUp(sv, r) ==> GivenUpBy(config, s, s.(sv := sv, up := up), r)
  {
    ServerInStep(s);
  }

  lemma ServerInStep(s: System)
    requires Inv(s)
    ensures s.sv.reader.AwaitHeader? && s.up.Available() ==> s.up.log[s.up.taken].HeaderItem?
    ensures s.sv.reader.AwaitBody? && s.up.Available() ==> s.up.log[s.up.taken].BodyItem?
  {
    UpDistinct(s);
    assert (2 * |s.sv.requests|) % 2 == 0 && (2 * |s.sv.requests| - 1) % 2 == 1;
  }

  lemma ClientInStep(s: System)
    requires Inv(s)
    ensures s.cl.receiver.ReadHeader? && s.down.Available() ==> s.down.log[s.down.taken].HeaderItem?
    ensures s.cl.receiver.ReadBody? && s.down.Available() ==> s.down.log[s.down.taken].BodyItem?
  {
    UpDistinct(s);
    DownDistinct(s);
    assert (2 * s.cl.received) % 2 == 0 && (2 * s.cl.received + 1) % 2 == 1;
  }

  lemma StepResolves(config: S.Config, s: System, step: Step, r: nat)
    requires Inv(s) && Enabled(config, s, step) && AwaitsResolved(config, s.sv)
    ensures AwaitsResolved(config, Apply(config, s, step).sv)
    ensures GivenUp(Apply(config, s, step).sv, r) ==> GivenUpBy(config, s, Apply(config, s, step), r)
  {
    match step
    case Read(t) => ReadResolves(config, s, t, r);
    case Work(t) => WorkResolves(config, s.sv, t);
    case Write(t) => WriteResolves(s.sv, s.down, t);
    case _ =>
  }

  lemma {:induction false} ResolvedReached(config: S.Config, run: seq<System>, i: nat)
    requires IsRun(config, run) && i < |run|
    ensures AwaitsResolved(config, run[i].sv)
  {
    if i > 0 {
      ResolvedReached(config, run, i - 1);
      Reached(config, run, i - 1);
      assert StepAt(config, run, i - 1);
      var step :| Enabled(config, run[i - 1], step) && run[i] == Apply(config, run[i - 1], step);
      StepResolves(config, run[i - 1], step, 0);
    }
  }

  lemma GivenUpStep(config: S.Config, run: seq<System>, i: nat, r: nat)
    requires IsRun(config, run) && i + 1 < |run| && GivenUp(run[i + 1].sv, r)
    ensures GivenUpBy(config, run[i], run[i + 1], r) && AwaitsResolved(config, run[i].sv)
  {
    ResolvedReached(config, run, i);
    Reached(config, run, i);
    assert StepAt(config, run, i);
    var step :| Enabled(config, run[i], step) && run[i + 1] == Apply(config, run[i], step);
    StepResolves(config, run[i], step, r);
  }

  /** Why a request is refused: its name does not resolve, and that is what it is told, or its body could not be
      read. */
  lemma {:induction false} RefusedWhy(config: S.Config, run: seq<System>, i: nat, r: nat)
    requires IsRun(config, run) && i < |run| && GivenUp(run[i].sv, r)
    ensures var found := S.FindService(config.services, NameOf(run[i].sv, r));
      found == Err(run[i].sv.requests[r].error) || (found.Ok? && BodyUnread(run, i, r))
  {
    assert i > 0;
    GivenUpStep(config, run, i - 1, r);
    if GivenUp(run[i - 1].sv, r) {
      RefusedWhy(config, run, i - 1, r);
      assert BodyUnread(run, i - 1, r) ==> BodyUnread(run, i, r);
    } else if r < |run[i - 1].sv.requests| {
      assert BodyFailsAt(run, i - 1, r);
    }
  }

  /** What the error text of a refusing response says. */
  ghost predicate RefusedWith(config: S.Config, run: seq<System>, i: nat, r: nat, text: string)
    requires i < |run| && r < |run[i].sv.requests|
  {
    var req := run[i].sv.requests[r];
    && req.error == text != ""
    && match req.handler
       case Unstarted =>
         && req.args.None?
         && (S.FindService(config.services, req.serviceMethod) == Err(text) || BodyUnread(run, i, r))
       case TimedOut => text == S.TIMEOUT_ERROR
       case DoneTimeout => text == S.TIMEOUT_ERROR
       case _ => req.outcome == Some(S.Failure(text))
  }

  /** The response that refused a call carried the error text of the call's own request: its name does not resolve, or
      its body could not be read, or it timed out, or its method failed with that text. What becomes of the call's error
      field is RpcSignals.ErrorOfAnswered. */
  lemma RefusalCorrelation(config: S.Config, run: seq<System>, i: nat, c: nat)
    requires IsRun(config, run) && i < |run| && c < |run[i].cl.calls|
    requires run[i].cl.calls[c].answers != [] && run[i].cl.calls[c].answers[0].Refused?
    ensures exists r: nat :: Serves(run[i], r, c) && RefusedWith(config, run, i, r, run[i].cl.calls[c].answers[0].text)
  {
    Reached(config, run, i);
    var r := AnswerSource(run[i], c);
    assert S.PhaseOk(run[i].sv, r) && S.ContentOk(run[i].sv, r);
    if GivenUp(run[i].sv, r) {
      RefusedWhy(config, run, i, r);
    }
    assert RefusedWith(config, run, i, r, run[i].cl.calls[c].answers[0].text);
  }

  /** Some run leads to this state. */
  ghost predicate Reachable(config: S.Config, s: System) {
    exists run :: RunTo(config, run, s)
  }

  ghost predicate RunTo(config: S.Config, run: seq<System>, s: System) {
    IsRun(config, run) && run[|run| - 1] == s
  }

  lemma Extend(config: S.Config, s: System, step: Step) returns (s': System)
    requires Reachable(config, s) && Enabled(config, s, step)
    ensures s' == Apply(config, s, step) && Reachable(config, s')
  {
    var run :| RunTo(config, run, s);
    s' := Apply(config, s, step);
    var longer := run + [s'];
    forall i | 0 <= i < |longer| - 1 ensures StepAt(config, longer, i) {
      assert i < |run| - 1 ==> StepAt(config, run, i);
    }
    assert RunTo(config, longer, s');
  }

  /** One request is on its way. */
  function Sent(name: string, args: Value): System {
    System(C.Client([C.Call(name, args, 1, [], None, 0, false)], 2, map[1 := 0], false, false,
                    C.Unlocked, C.ReadHeader, 0, [0]),
           S.INIT, Wire([HeaderItem(Header(name, 1, "")), BodyItem(args)], 0, false), Wire([], 0, false))
  }

  lemma SentReached(config: S.Config, name: string, args: Value)
    ensures Reachable(config, Sent(name, args))
  {
    assert RunTo(config, [INIT], INIT);
    var s := Extend(config, INIT, Send(C.Go(name, args)));
    s := Extend(config, s, Send(C.WriteHeader(false)));
    s := Extend(config, s, Send(C.WriteBody(false)));
    assert s == Sent(name, args);
  }

  // A run with one call, of method "A.B" on argument "x", for the exception above.
  const ONE_CONFIG := S.Config(map["A" := {"B"}], 10)
  const FAILED := S.Request("A.B", 1, Some("x"), "", INVALID_REQUEST, Some(S.Failure("")), S.Called, S.Replying, 0)
  const RUN := Sent("A.B", "x").(sv := S.Server([FAILED], S.AwaitHeader, S.Free, []),
                                 up := Sent("A.B", "x").up.(taken := 2))
  const ANSWERED := RUN.(sv := S.Server([FAILED.(worker := S.Sent, sends := 1)], S.AwaitHeader, S.Free, [0]),
                         down := Wire([HeaderItem(Header("A.B", 1, "")), BodyItem(INVALID_REQUEST)], 0, false))

  lemma RunReached()
    ensures Reachable(ONE_CONFIG, RUN)
  {
    S.FindServiceExact(ONE_CONFIG.services, "A", "B", "A.B");
    SentReached(ONE_CONFIG, "A.B", "x");
    var s := Sent("A.B", "x");
    s := Extend(ONE_CONFIG, s, Read(S.ReadHeader));
    s := Extend(ONE_CONFIG, s, Read(S.ReadBody));
    s := Extend(ONE_CONFIG, s, Work(S.Return(0, S.Failure(""))));
    s := Extend(ONE_CONFIG, s, Work(S.Rendezvous(0)));
    assert s == RUN;
  }

  lemma AnsweredReached()
    ensures Reachable(ONE_CONFIG, ANSWERED)
  {
    RunReached();
    var s := RUN;
    s := Extend(ONE_CONFIG, s, Write(S.Lock(0)));
    s := Extend(ONE_CONFIG, s, Write(S.WriteHeader(false)));
    s := Extend(ONE_CONFIG, s, Write(S.WriteBody(false)));
    assert s == ANSWERED;
  }

  /** The only method run failed with an empty message, and the only call ends with a filled reply and no error. */
  ghost predicate FailureFilled(s: System) {
    && |s.sv.requests| == 1 && s.sv.requests[0].outcome == Some(S.Failure(""))
    && |s.cl.calls| == 1 && s.cl.calls[0].answers == [C.Filled(0, INVALID_REQUEST)] && s.cl.calls[0].error == None
  }

  /** The exception is real. */
  lemma EmptyErrorFillsReply()
    ensures exists s :: Reachable(ONE_CONFIG, s) && FailureFilled(s)
  {
    AnsweredReached();
    var s := ANSWERED;
    s := Extend(ONE_CONFIG, s, Receive(C.RecvHeader));
    s := Extend(ONE_CONFIG, s, Receive(C.RecvLookup));
    s := Extend(ONE_CONFIG, s, Receive(C.RecvBody));
    assert FailureFilled(s);
  }

  // ---------- no lost call ----------

  /** Every registered call is pending, or signalled, or cancelled, or is being failed by the goroutine that holds
      `sending`; and once the receive loop is over only the middle two are left. */
  lemma NoLostCall(config: S.Config, run: seq<System>, i: nat, c: nat)
    requires IsRun(config, run) && i < |run| && c < |run[i].cl.calls|
    ensures var cl := run[i].cl;
      || cl.calls[c].signals > 0
      || cl.calls[c].cancelled
      || (cl.calls[c].seqNo in cl.pending && cl.pending[cl.calls[c].seqNo] == c && cl.calls[c].seqNo != 0)
      || cl.sender == C.Removed(c, Some(c))
    ensures run[i].cl.receiver.Stopped? ==> run[i].cl.calls[c].signals > 0 || run[i].cl.calls[c].cancelled
  {
    Reached(config, run, i);
    assert C.Accounted(run[i].cl, c);
  }

  /** After terminateCalls no call is registered any more: later calls are signalled without a number. */
  lemma {:induction false} NoneRegisteredAfterStop(config: S.Config, run: seq<System>, i: nat, j: nat)
    requires IsRun(config, run) && i <= j < |run| && run[i].cl.receiver.Stopped?
    ensures run[j].cl.receiver.Stopped? && run[j].cl.nextSeq == run[i].cl.nextSeq
    ensures |run[i].cl.calls| <= |run[j].cl.calls|
    ensures forall c :: |run[i].cl.calls| <= c < |run[j].cl.calls| ==>
      run[j].cl.calls[c].seqNo == 0 && run[j].cl.calls[c].signals > 0
    decreases j
  {
    if i < j {
      NoneRegisteredAfterStop(config, run, i, j - 1);
      StepAfterStop(config, run, j - 1);
    }
  }

  lemma StepAfterStop(config: S.Config, run: seq<System>, i: nat)
    requires IsRun(config, run) && i < |run| - 1 && run[i].cl.receiver.Stopped?
    ensures var cl, cl' := run[i].cl, run[i + 1].cl;
      && cl'.receiver.Stopped? && cl'.nextSeq == cl.nextSeq
      && |cl.calls| <= |cl'.calls|
      && (forall c :: 0 <= c < |cl.calls| ==> C.SameCall(cl.calls[c], cl'.calls[c]))
      && (forall c :: |cl.calls| <= c < |cl'.calls| ==> cl'.calls[c].seqNo == 0 && cl'.calls[c].signals > 0)
  {
    var s, s' := run[i], run[i + 1];
    Reached(config, run, i);
    assert StepAt(config, run, i);
    var step :| Enabled(config, s, step) && s' == Apply(config, s, step);
    if step.Send? && !step.send.Go? {
      C.SendKeepsCalls(s.cl, s.up, step.send);
    }
  }

  /** A call has been removed from `pending` but not yet signalled, so were the loop over `pending` to run now, it would
      be neither signalled nor cancelled. */
  ghost predicate LosableCall(cl: C.Client) {
    && cl.receiver.Stopping? && cl.sender.Removed? && |cl.calls| == 1 && cl.calls[0].seqNo == 1
    && C.TerminateCalls(cl, None).calls[0].signals == 0
    && !C.TerminateCalls(cl, None).calls[0].cancelled
  }

  /** Why terminateCalls takes `sending` too. */
  lemma SendingLockNeeded(config: S.Config)
    ensures exists s :: Reachable(config, s) && LosableCall(s.cl)
  {
    assert RunTo(config, [INIT], INIT);
    var s := INIT;
    s := Extend(config, s, Send(C.Go("A.B", "")));
    s := Extend(config, s, Send(C.WriteError));
    s := Extend(config, s, Send(C.FailRemove));
    s := Extend(config, s, Receive(C.RecvHeaderFail));
    assert LosableCall(s.cl);
  }

  // ---------- responses ----------

  /** When a handler is done it has responded exactly once, itself or through its worker; before, at most once. */
  lemma ExactlyOneResponse(config: S.Config, run: seq<System>, i: nat, r: nat)
    requires IsRun(config, run) && i < |run| && r < |run[i].sv.requests|
    ensures run[i].sv.requests[r].sends <= 1
    ensures run[i].sv.requests[r].handler.DoneTimeout? || run[i].sv.requests[r].handler.DoneSent? ==>
      run[i].sv.requests[r].sends == 1
    ensures var answered := run[i].sv.answered;
      forall j, k :: 0 <= j < |answered| && 0 <= k < |answered| && answered[j] == answered[k] ==> j == k
    ensures config.timeout == 0 ==> !TimedOut(run[i].sv.requests[r])
  {
    Reached(config, run, i);
    assert S.PhaseOk(run[i].sv, r);
    if config.timeout == 0 {
      NoTimerNoTimeout(config, run, i, r);
    }
  }

  lemma {:induction false} NoTimerNoTimeout(config: S.Config, run: seq<System>, i: nat, r: nat)
    requires IsRun(config, run) && i < |run| && r < |run[i].sv.requests| && config.timeout == 0
    ensures !TimedOut(run[i].sv.requests[r])
  {
    if i > 0 {
      assert StepAt(config, run, i - 1);
      var step :| Enabled(config, run[i - 1], step) && run[i] == Apply(config, run[i - 1], step);
      if r < |run[i - 1].sv.requests| {
        NoTimerNoTimeout(config, run, i - 1, r);
      }
      NoTimerStep(config, run[i - 1], step, r);
    }
  }

  predicate TimedOut(req: S.Request) {
    req.handler.TimedOut? || req.handler.DoneTimeout?
  }

  lemma NoTimerStep(config: S.Config, s: System, step: Step, r: nat)
    requires config.timeout == 0 && Enabled(config, s, step) && r < |Apply(config, s, step).sv.requests|
    requires r < |s.sv.requests| ==> !TimedOut(s.sv.requests[r])
    ensures !TimedOut(Apply(config, s, step).sv.requests[r])
  {
    match step
    case Send(_) =>
    case Receive(_) =>
    case Read(_) =>
    case Work(_) =>
    case Write(_) =>
  }

  /** Once the timer has won, the worker can return at most; header and body stay what the handler made them, and
      only the handler can be inside sendResponse for this request. */
  lemma {:induction false} TimeoutIsFinal(config: S.Config, run: seq<System>, i: nat, j: nat, r: nat)
    requires IsRun(config, run) && i <= j < |run| && r < |run[i].sv.requests|
    requires run[i].sv.requests[r].handler.TimedOut? || run[i].sv.requests[r].handler.DoneTimeout?
    ensures r < |run[j].sv.requests|
    ensures run[j].sv.requests[r].handler.TimedOut? || run[j].sv.requests[r].handler.DoneTimeout?
    ensures run[j].sv.requests[r].worker.Running? || run[j].sv.requests[r].worker.Returned?
    ensures run[j].sv.requests[r].ResponseHeader() == run[i].sv.requests[r].ResponseHeader()
    ensures run[j].sv.requests[r].body == run[i].sv.requests[r].body
    ensures !run[j].sv.writer.Free? && run[j].sv.writer.r == r ==> run[j].sv.requests[r].handler.TimedOut?
    decreases j
  {
    if i < j {
      TimeoutIsFinal(config, run, i, j - 1, r);
      TimeoutStep(config, run, j - 1, r);
    }
    PhaseAt(config, run, j, r);
  }

  lemma PhaseAt(config: S.Config, run: seq<System>, i: nat, r: nat)
    requires IsRun(config, run) && i < |run| && r < |run[i].sv.requests|
    ensures S.PhaseOk(run[i].sv, r)
    ensures run[i].sv.reader.AwaitBody? ==> run[i].sv.requests[|run[i].sv.requests| - 1].handler.Unstarted?
  {
    Reached(config, run, i);
  }

  lemma TimeoutStep(config: S.Config, run: seq<System>, i: nat, r: nat)
    requires IsRun(config, run) && i < |run| - 1 && r < |run[i].sv.requests|
    requires run[i].sv.requests[r].handler.TimedOut? || run[i].sv.requests[r].handler.DoneTimeout?
    ensures r < |run[i + 1].sv.requests|
    ensures var req, req' := run[i].sv.requests[r], run[i + 1].sv.requests[r];
      && (req'.handler.TimedOut? || req'.handler.DoneTimeout?)
      && req'.ResponseHeader() == req.ResponseHeader()
      && req'.body == req.body
  {
    var s, s' := run[i], run[i + 1];
    PhaseAt(config, run, i, r);
    assert StepAt(config, run, i);
    var step :| Enabled(config, s, step) && s' == Apply(config, s, step);
    match step
    case Send(_) =>
    case Receive(_) =>
    case Read(_) =>
    case Work(_) =>
    case Write(_) =>
  }

  /** A step of request r or, while some request is inside sendResponse, the next write of that one. */
  predicate BringsForward(sv: S.Server, r: nat, step: Step) {
    || step == Work(S.Rendezvous(r))
    || step == Work(S.WaitSent(r))
    || step == Write(S.Lock(r))
    || (sv.writer.HeaderNext? && step == Write(S.WriteHeader(false)))
    || (sv.writer.BodyNext? && step == Write(S.WriteBody(false)))
  }

  /** The server never deadlocks: while some handler still waits although its method has returned, or its timer has
      fired, a step of this request or of the one that holds the mutex can be taken, without any failure. */
  lemma ServerNotStuck(config: S.Config, run: seq<System>, i: nat, r: nat)
    requires IsRun(config, run) && i < |run| && r < |run[i].sv.requests|
    requires var req := run[i].sv.requests[r];
      && !req.handler.Unstarted? && !req.handler.DoneTimeout? && !req.handler.DoneSent?
      && (req.worker.Running? ==> req.handler.TimedOut?)
    ensures exists step :: BringsForward(run[i].sv, r, step) && Enabled(config, run[i], step)
  {
    Reached(config, run, i);
    var sv := run[i].sv;
    assert S.PhaseOk(sv, r) && S.ContentOk(sv, r);
    var step := if sv.writer.HeaderNext? then Write(S.WriteHeader(false))
                else if sv.writer.BodyNext? then Write(S.WriteBody(false))
                else if sv.requests[r].handler.Waiting? then Work(S.Rendezvous(r))
                else if sv.requests[r].worker.Sent? then Work(S.WaitSent(r))
                else Write(S.Lock(r));
    assert BringsForward(sv, r, step) && Enabled(config, run[i], step);
  }

  // ---------- framing ----------

  datatype Message = Message(header: Header, body: Value)

  /** The stream of complete messages. */
  function Stream(ms: seq<Message>): seq<Item> {
    seq(2 * |ms|, k requires 0 <= k < 2 * |ms| =>
      if k % 2 == 0 then HeaderItem(ms[k / 2].header) else BodyItem(ms[k / 2].body))
  }

  function Requests(cl: C.Client): seq<Message>
    requires forall i :: 0 <= i < |cl.written| ==> cl.written[i] < |cl.calls|
  {
    seq(|cl.written|, i requires 0 <= i < |cl.written| =>
      Message(cl.calls[cl.written[i]].RequestHeader(), cl.calls[cl.written[i]].args))
  }

  function Responses(sv: S.Server): seq<Message>
    requires forall i :: 0 <= i < |sv.answered| ==> sv.answered[i] < |sv.requests|
  {
    seq(|sv.answered|, i requires 0 <= i < |sv.answered| =>
      Message(sv.requests[sv.answered[i]].ResponseHeader(), sv.requests[sv.answered[i]].body))
  }

  /** With any number of concurrent senders the stream up is a concatenation of whole requests, the last of which may
      still lack its body; then its body is the next thing to be written, by the goroutine that holds `sending`. */
  lemma RequestFraming(config: S.Config, run: seq<System>, i: nat)
    requires IsRun(config, run) && i < |run|
    ensures var s := run[i];
      && (forall k :: 0 <= k < |s.cl.written| ==> s.cl.written[k] < |s.cl.calls|)
      && s.up.log <= Stream(Requests(s.cl))
      && |Stream(Requests(s.cl))| - |s.up.log| <= 1
      && (s.up.log != Stream(Requests(s.cl)) && !s.up.broken ==>
            s.cl.sender == C.BodyNext(s.cl.written[|s.cl.written| - 1]))
  {
    Reached(config, run, i);
    var s := run[i];
    forall k | 0 <= k < |s.cl.written| ensures s.cl.written[k] < |s.cl.calls| {
      assert C.PairOk(s.cl, s.up.log, k);
    }
    forall k | 0 <= k < |s.up.log| ensures s.up.log[k] == Stream(Requests(s.cl))[k] {
      assert k == 2 * (k / 2) + k % 2;
      assert C.PairOk(s.cl, s.up.log, k / 2);
    }
  }

  /** The same for the stream down, with the mutex of serveCodec. */
  lemma ResponseFraming(config: S.Config, run: seq<System>, i: nat)
    requires IsRun(config, run) && i < |run|
    ensures var s := run[i];
      && (forall k :: 0 <= k < |s.sv.answered| ==> s.sv.answered[k] < |s.sv.requests|)
      && s.down.log <= Stream(Responses(s.sv))
      && |Stream(Responses(s.sv))| - |s.down.log| <= 1
      && (s.down.log != Stream(Responses(s.sv)) && !s.down.broken ==>
            s.sv.writer == S.BodyNext(s.sv.answered[|s.sv.answered| - 1]))
  {
    Reached(config, run, i);
    var s := run[i];
    forall k | 0 <= k < |s.sv.answered| ensures s.sv.answered[k] < |s.sv.requests| {
      assert S.PairOk(s.sv, s.down.log, k);
    }
    forall k | 0 <= k < |s.down.log| ensures s.down.log[k] == Stream(Responses(s.sv))[k] {
      assert k == 2 * (k / 2) + k % 2;
      assert S.PairOk(s.sv, s.down.log, k / 2);
    }
  }

  /** Neither reader ever gets out of step: what it decodes next is of the kind it expects. */
  lemma ReadersInStep(config: S.Config, run: seq<System>, i: nat)
    requires IsRun(config, run) && i < |run|
    ensures var s := run[i];
      && (s.cl.receiver.ReadHeader? && s.down.Available() ==> s.down.log[s.down.taken].HeaderItem?)
      && (s.cl.receiver.ReadBody? && s.down.Available() ==> s.down.log[s.down.taken].BodyItem?)
      && (s.sv.reader.AwaitHeader? && s.up.Available() ==> s.up.log[s.up.taken].HeaderItem?)
      && (s.sv.reader.AwaitBody? && s.up.Available() ==> s.up.log[s.up.taken].BodyItem?)
  {
    Reached(config, run, i);
    ServerInStep(run[i]);
    ClientInStep(run[i]);
  }
}
