/** The server end of one connection: the serve loop of serveCodec, and for every accepted request the handler
    goroutine, the worker goroutine and the timer of handleRequest. */
module RpcServer {
  import opened Common
  import opened RpcWire

  /** With the ten seconds that serveCodec passes on. */
  const TIMEOUT_ERROR := "rpc server: request handle timeout: expect within 10s"

  /** Registered services with their methods, and the handling timeout; 0 means none. */
  datatype Config = Config(services: map<string, set<string>>, timeout: nat)

  // ---------- findService ----------

  /** strings.LastIndex(s, "."), or -1. */
  function LastDot(s: string): (i: int)
    ensures -1 <= i < |s|
    ensures i >= 0 ==> s[i] == '.' && '.' !in s[i + 1..]
    ensures i == -1 ==> '.' !in s
  {
    if s == "" then -1
    else if s[|s| - 1] == '.' then |s| - 1
    else
      var i := LastDot(s[..|s| - 1]);
      assert s == s[..|s| - 1] + [s[|s| - 1]];
      assert i >= 0 ==> s[i + 1..] == s[..|s| - 1][i + 1..] + [s[|s| - 1]];
      i
  }

  function FindService(services: map<string, set<string>>, serviceMethod: string): Result<(string, string)> {
    var dot := LastDot(serviceMethod);
    if dot < 0 then Err("rpc server: service/method request ill-formed: " + serviceMethod)
    else
      var (name, m) := (serviceMethod[..dot], serviceMethod[dot + 1..]);
      if name !in services then Err("rpc server: can't find service " + name)
      else if m !in services[name] then Err("rpc server: can't find method " + m)
      else Ok((name, m))
  }

  /** A request is served exactly when its name is a registered service, a dot and a dot-free method of it. */
  lemma FindServiceExact(services: map<string, set<string>>, name: string, m: string, serviceMethod: string)
    ensures FindService(services, serviceMethod) == Ok((name, m)) <==>
      serviceMethod == name + "." + m && '.' !in m && name in services && m in services[name]
  {
    var dot := LastDot(serviceMethod);
    if dot >= 0 {
      assert serviceMethod == serviceMethod[..dot] + "." + serviceMethod[dot + 1..];
    }
    if serviceMethod == name + "." + m && '.' !in m {
      assert serviceMethod[|name|] == '.';
      assert serviceMethod[|name| + 1..] == m;
      assert dot == |name|;
      assert serviceMethod[..dot] == name;
    }
  }

  /** What is wrong with a name: it has no dot, or what stands before the last dot is no service, or what stands behind
      it is no method of that service. */
  lemma FindServiceErrors(services: map<string, set<string>>, name: string, m: string)
    requires '.' !in m
    ensures FindService(services, m) == Err("rpc server: service/method request ill-formed: " + m)
    ensures name !in services ==>
      FindService(services, name + "." + m) == Err("rpc server: can't find service " + name)
    ensures name in services && m !in services[name] ==>
      FindService(services, name + "." + m) == Err("rpc server: can't find method " + m)
  {
    var whole := name + "." + m;
    assert LastDot(m) == -1;
    assert whole[|name|] == '.' && whole[|name| + 1..] == m && whole[..|name|] == name;
    assert LastDot(whole) == |name|;
  }

  // ---------- state ----------

  /** What the service method returned. */
  datatype Outcome = Reply(value: Value) | Failure(text: string)

  /** Unstarted: the serve loop still owns the request. Called: the handler has received from `called`. */
  datatype Handler = Unstarted | Waiting | Called | TimedOut | DoneTimeout | DoneSent

  /** Returned: blocked on `called`. Replying: past it. Sent: blocked on `sent`. */
  datatype Worker = Idle | Running | Returned | Replying | Sent | Exited

  /** `error` and `body` are what a response written now would carry; `sends` counts finished sendResponse calls. */
  datatype Request = Request(serviceMethod: string, seqNo: nat, args: Option<Value>,
                             error: string, body: Value, outcome: Option<Outcome>,
                             handler: Handler, worker: Worker, sends: nat)
  {
    function ResponseHeader(): Header {
      Header(serviceMethod, seqNo, error)
    }

    function Refuse(text: string): Request {
      this.(error := text, body := INVALID_REQUEST)
    }
  }

  /** The serve loop; in AwaitBody and Refusing it deals with the newest request. */
  datatype Reader = AwaitHeader | AwaitBody | Refusing | Closed

  /** Who holds the `sending` mutex, and how far its Write has come. */
  datatype Writer = Free | HeaderNext(r: nat) | BodyNext(r: nat)

  datatype Server = Server(requests: seq<Request>, reader: Reader, writer: Writer, answered: seq<nat>)

  const INIT := Server([], AwaitHeader, Free, [])

  function Update(sv: Server, r: nat, req: Request): Server
    requires r < |sv.requests|
  {
    sv.(requests := sv.requests[r := req])
  }

  // ---------- steps of the serve loop ----------

  datatype ReadStep = ReadHeader | HeaderFail | ReadBody | BodyFail(text: string)

  predicate ReadEnabled(sv: Server, up: Wire, step: ReadStep) {
    match step
    case ReadHeader => sv.reader.AwaitHeader? && up.Available()
    case HeaderFail => sv.reader.AwaitHeader?
    case ReadBody => sv.reader.AwaitBody? && up.Available() && sv.requests != []
    case BodyFail(text) => sv.reader.AwaitBody? && sv.requests != [] && text != ""
  }

  /** The server and the stream it reads; `Closed` also means ServeConn has closed the connection. */
  function Read(config: Config, sv: Server, up: Wire, step: ReadStep): (Server, Wire)
    requires ReadEnabled(sv, up, step)
  {
    match step
    case ReadHeader =>
      var x := up.log[up.taken];
      (if x.HeaderItem? then Accept(config, sv, x.header) else sv.(reader := Closed), up.Take())
    case HeaderFail =>
      (sv.(reader := Closed), up)
    case ReadBody =>
      var x := up.log[up.taken];
      (if x.BodyItem? then Start(sv, x.body) else RefuseLast(sv, "unexpected header"), up.Take())
    case BodyFail(text) =>
      (RefuseLast(sv, text), up)
  }

  /** A fresh header per request: nothing is shared between two requests. */
  function Accept(config: Config, sv: Server, h: Header): Server {
    var req := Request(h.serviceMethod, h.seqNo, None, h.error, INVALID_REQUEST, None, Unstarted, Idle, 0);
    match FindService(config.services, h.serviceMethod)
    case Ok(_) => sv.(requests := sv.requests + [req], reader := AwaitBody)
    case Err(text) => sv.(requests := sv.requests + [req.Refuse(text)], reader := Refusing)
  }

  function Start(sv: Server, args: Value): Server
    requires sv.requests != []
  {
    var r := |sv.requests| - 1;
    Update(sv, r, sv.requests[r].(args := Some(args), handler := Waiting, worker := Running)).(reader := AwaitHeader)
  }

  function RefuseLast(sv: Server, text: string): Server
    requires sv.requests != []
  {
    var r := |sv.requests| - 1;
    Update(sv, r, sv.requests[r].Refuse(text)).(reader := Refusing)
  }

  // ---------- steps of handler, worker and timer ----------

  datatype WorkStep =
    | Return(r: nat, outcome: Outcome)
    | Rendezvous(r: nat)
    | Expire(r: nat)
    | WaitSent(r: nat)

  predicate WorkEnabled(config: Config, sv: Server, step: WorkStep) {
    && step.r < |sv.requests|
    && var req := sv.requests[step.r];
       match step
       case Return(_, _) => req.worker.Running?
       case Rendezvous(_) => req.handler.Waiting? && req.worker.Returned? && req.outcome.Some?
       case Expire(_) => config.timeout != 0 && req.handler.Waiting?
       case WaitSent(_) => req.handler.Called? && req.worker.Sent?
  }

  function Work(config: Config, sv: Server, step: WorkStep): Server
    requires WorkEnabled(config, sv, step)
  {
    Update(sv, step.r, Worked(sv.requests[step.r], step))
  }

  function Worked(req: Request, step: WorkStep): Request
    requires step.Rendezvous? ==> req.outcome.Some?
  {
    match step
    case Return(_, outcome) =>
      req.(worker := Returned, outcome := Some(outcome))
    case Rendezvous(_) =>
      var req' := req.(handler := Called, worker := Replying);
      (match req.outcome.value
       case Reply(v) => req'.(body := v)
       case Failure(text) => req'.Refuse(text))
    case Expire(_) =>
      req.(handler := TimedOut).Refuse(TIMEOUT_ERROR)
    case WaitSent(_) =>
      req.(handler := DoneSent, worker := Exited)
  }

  // ---------- steps of sendResponse ----------

  datatype WriteStep = Lock(r: nat) | WriteHeader(lost: bool) | WriteBody(lost: bool) | WriteError

  /** Who is at a call of sendResponse: the timed-out handler, the worker past `called`, or the serve loop. */
  predicate WantsToSend(sv: Server, r: nat)
    requires r < |sv.requests|
  {
    var req := sv.requests[r];
    || req.handler.TimedOut?
    || req.worker.Replying?
    || (sv.reader.Refusing? && r == |sv.requests| - 1 && req.handler.Unstarted?)
  }

  predicate WriteEnabled(sv: Server, step: WriteStep) {
    match step
    case Lock(r) => sv.writer.Free? && r < |sv.requests| && WantsToSend(sv, r)
    case WriteHeader(_) => sv.writer.HeaderNext? && sv.writer.r < |sv.requests|
    case WriteBody(_) => sv.writer.BodyNext? && sv.writer.r < |sv.requests|
    case WriteError => !sv.writer.Free? && sv.writer.r < |sv.requests|
  }

  /** The server and the stream it writes after a step inside sendResponse. */
  function Write(sv: Server, down: Wire, step: WriteStep): (Server, Wire)
    requires WriteEnabled(sv, step)
  {
    match step
    case Lock(r) =>
      (sv.(writer := HeaderNext(r)), down)
    case WriteHeader(lost) =>
      var r := sv.writer.r;
      var down' := down.Put(HeaderItem(sv.requests[r].ResponseHeader()), lost);
      (sv.(writer := BodyNext(r), answered := if down'.broken then sv.answered else sv.answered + [r]), down')
    case WriteBody(lost) =>
      var r := sv.writer.r;
      var down' := down.Put(BodyItem(sv.requests[r].body), lost);
      (FinishSend(sv, r), if sv.requests[r].handler.Unstarted? then down'.(broken := true) else down')
    case WriteError =>
      (FinishSend(sv, sv.writer.r), down.(broken := true))
  }

  /** sendResponse returns to its caller; after a refusal the serve loop returns and the connection is closed. */
  function FinishSend(sv: Server, r: nat): Server
    requires r < |sv.requests|
  {
    var req := sv.requests[r].(sends := sv.requests[r].sends + 1);
    if req.handler.Unstarted? then
      Update(sv, r, req).(writer := Free, reader := Closed)
    else if req.handler.TimedOut? then
      Update(sv, r, req.(handler := DoneTimeout)).(writer := Free)
    else
      Update(sv, r, req.(worker := Sent)).(writer := Free)
  }

  // ---------- invariant ----------

  /** The phases handler and worker can be in together, and how often each has responded. */
  ghost predicate PhaseOk(sv: Server, r: nat)
    requires r < |sv.requests|
  {
    var req := sv.requests[r];
    var holds := !sv.writer.Free? && sv.writer.r == r;
    match req.handler
    case Unstarted =>
      && r == |sv.requests| - 1
      && !sv.reader.AwaitHeader?
      && req.worker.Idle?
      && (holds ==> sv.reader.Refusing?)
      && req.sends <= 1
      && (req.sends == 1 ==> sv.reader.Closed?)
    case Waiting => (req.worker.Running? || req.worker.Returned?) && req.sends == 0 && !holds
    case Called => (req.worker.Replying? && req.sends == 0) || (req.worker.Sent? && req.sends == 1 && !holds)
    case TimedOut => (req.worker.Running? || req.worker.Returned?) && req.sends == 0
    case DoneTimeout => (req.worker.Running? || req.worker.Returned?) && req.sends == 1 && !holds
    case DoneSent => req.worker.Exited? && req.sends == 1 && !holds
  }

  /** Nothing about the response of a committed request can change any more. */
  predicate Committed(sv: Server, r: nat)
    requires r < |sv.requests|
  {
    match sv.requests[r].handler
    case Unstarted => !sv.reader.AwaitBody?
    case Waiting => false
    case _ => true
  }

  /** What a committed response says is what the method returned, or a non-empty error text. */
  ghost predicate ContentOk(sv: Server, r: nat)
    requires r < |sv.requests|
  {
    var req := sv.requests[r];
    && (req.outcome.Some? <==> req.worker.Returned? || req.worker.Replying? || req.worker.Sent? || req.worker.Exited?)
    && (req.args.Some? <==> !req.handler.Unstarted?)
    && match req.handler
       case Unstarted =>
         && req.body == INVALID_REQUEST
         && (sv.reader.AwaitBody? ==> req.error == "")
         && (!sv.reader.AwaitBody? ==> req.error != "")
       case Waiting => req.error == "" && req.body == INVALID_REQUEST
       case Called => req.outcome.Some? && Reports(req, req.outcome.value)
       case DoneSent => req.outcome.Some? && Reports(req, req.outcome.value)
       case TimedOut => req.error == TIMEOUT_ERROR && req.body == INVALID_REQUEST
       case DoneTimeout => req.error == TIMEOUT_ERROR && req.body == INVALID_REQUEST
  }

  ghost predicate Reports(req: Request, outcome: Outcome) {
    match outcome
    case Reply(v) => req.error == "" && req.body == v
    case Failure(text) => req.error == text && req.body == INVALID_REQUEST
  }

  /** The r-th request is the r-th pair of the stream up. */
  ghost predicate FromWire(sv: Server, log: seq<Item>, r: nat)
    requires r < |sv.requests|
  {
    && 2 * r < |log|
    && log[2 * r].HeaderItem?
    && log[2 * r].header.serviceMethod == sv.requests[r].serviceMethod
    && log[2 * r].header.seqNo == sv.requests[r].seqNo
    && (sv.requests[r].args.Some? ==> 2 * r + 1 < |log| && log[2 * r + 1] == BodyItem(sv.requests[r].args.value))
  }

  ghost predicate ReaderOk(sv: Server, up: Wire) {
    && up.taken <= |up.log|
    && (sv.reader.AwaitHeader? ==> up.taken == 2 * |sv.requests|)
    && (sv.reader.AwaitBody? || sv.reader.Refusing? ==> sv.requests != [])
    && (sv.reader.AwaitBody? ==> up.taken == 2 * |sv.requests| - 1 && sv.requests[|sv.requests| - 1].handler.Unstarted?)
    && (sv.reader.Refusing? ==> sv.requests[|sv.requests| - 1].handler.Unstarted?)
    && (forall r :: 0 <= r < |sv.requests| ==> FromWire(sv, up.log, r))
  }

  ghost predicate WorkOk(sv: Server) {
    && (forall r :: 0 <= r < |sv.requests| ==> PhaseOk(sv, r) && ContentOk(sv, r))
    && (!sv.writer.Free? ==> sv.writer.r < |sv.requests| && WantsToSend(sv, sv.writer.r))
  }

  /** The i-th pair of the stream down is the committed response of one request, whose sendResponse has run or is
      running. */
  ghost predicate PairOk(sv: Server, log: seq<Item>, i: nat) {
    && i < |sv.answered|
    && sv.answered[i] < |sv.requests|
    && Committed(sv, sv.answered[i])
    && (sv.requests[sv.answered[i]].sends > 0 || sv.writer == BodyNext(sv.answered[i]))
    && 2 * i < |log|
    && log[2 * i] == HeaderItem(sv.requests[sv.answered[i]].ResponseHeader())
    && (2 * i + 1 < |log| ==> log[2 * i + 1] == BodyItem(sv.requests[sv.answered[i]].body))
  }

  /** The stream down is (header, body) pairs of distinct requests; an unfinished pair belongs to the lock holder. */
  ghost predicate ResponsesFramed(sv: Server, down: Wire) {
    && (forall i :: 0 <= i < |sv.answered| ==> PairOk(sv, down.log, i))
    && (forall i, j :: 0 <= i < j < |sv.answered| ==> sv.answered[i] != sv.answered[j])
    && 2 * |sv.answered| - 1 <= |down.log| <= 2 * |sv.answered|
    && (!down.broken ==> if sv.writer.BodyNext? then
                           |down.log| == 2 * |sv.answered| - 1 && sv.answered[|sv.answered| - 1] == sv.writer.r
                         else |down.log| == 2 * |sv.answered|)
  }

  ghost predicate Inv(sv: Server, up: Wire, down: Wire) {
    && ReaderOk(sv, up)
    && WorkOk(sv)
    && ResponsesFramed(sv, down)
  }

  // ---------- the serve loop keeps the invariant ----------

  lemma ReadReader(config: Config, sv: Server, up: Wire, step: ReadStep)
    requires ReaderOk(sv, up) && ReadEnabled(sv, up, step)
    ensures ReaderOk(Read(config, sv, up, step).0, Read(config, sv, up, step).1)
  {
    var sv' := Read(config, sv, up, step).0;
    forall r | 0 <= r < |sv'.requests| ensures FromWire(sv', up.log, r) {
      assert r < |sv.requests| ==> FromWire(sv, up.log, r);
    }
  }

  lemma ReadWorkAt(config: Config, sv: Server, up: Wire, step: ReadStep, r: nat)
    requires ReaderOk(sv, up) && ReadEnabled(sv, up, step)
    requires up.Available() && up.log[up.taken].HeaderItem? ==> up.log[up.taken].header.error == ""
    requires r < |Read(config, sv, up, step).0.requests|
    requires r < |sv.requests| ==> PhaseOk(sv, r) && ContentOk(sv, r)
    requires !sv.writer.Free? ==> sv.writer.r < |sv.requests|
    ensures PhaseOk(Read(config, sv, up, step).0, r) && ContentOk(Read(config, sv, up, step).0, r)
  {
    if step.ReadHeader? && up.log[up.taken].HeaderItem? {
      AcceptWorkAt(config, sv, up.log[up.taken].header, r);
    }
  }

  lemma AcceptWorkAt(config: Config, sv: Server, h: Header, r: nat)
    requires sv.reader.AwaitHeader? && h.error == ""
    requires r < |Accept(config, sv, h).requests|
    requires r < |sv.requests| ==> PhaseOk(sv, r) && ContentOk(sv, r)
    requires !sv.writer.Free? ==> sv.writer.r < |sv.requests|
    ensures PhaseOk(Accept(config, sv, h), r) && ContentOk(Accept(config, sv, h), r)
  {
  }

  lemma ReadWork(config: Config, sv: Server, up: Wire, step: ReadStep)
    requires ReaderOk(sv, up) && WorkOk(sv) && ReadEnabled(sv, up, step)
    requires up.Available() && up.log[up.taken].HeaderItem? ==> up.log[up.taken].header.error == ""
    ensures WorkOk(Read(config, sv, up, step).0)
  {
    var sv' := Read(config, sv, up, step).0;
    assert !sv.writer.Free? ==> PhaseOk(sv, sv.writer.r);
    forall r | 0 <= r < |sv'.requests| ensures PhaseOk(sv', r) && ContentOk(sv', r) {
      ReadWorkAt(config, sv, up, step, r);
    }
  }

  lemma ReadFramed(config: Config, sv: Server, up: Wire, down: Wire, step: ReadStep)
    requires ReaderOk(sv, up) && WorkOk(sv) && ResponsesFramed(sv, down) && ReadEnabled(sv, up, step)
    ensures ResponsesFramed(Read(config, sv, up, step).0, down)
  {
    var sv' := Read(config, sv, up, step).0;
    forall i | 0 <= i < |sv.answered| ensures PairOk(sv', down.log, i) {
      assert PairOk(sv, down.log, i);
      assert PhaseOk(sv, sv.answered[i]);
    }
  }

  lemma ReadPreserves(config: Config, sv: Server, up: Wire, down: Wire, step: ReadStep)
    requires Inv(sv, up, down) && ReadEnabled(sv, up, step)
    requires up.Available() && up.log[up.taken].HeaderItem? ==> up.log[up.taken].header.error == ""
    ensures Inv(Read(config, sv, up, step).0, Read(config, sv, up, step).1, down)
  {
    ReadReader(config, sv, up, step);
    ReadWork(config, sv, up, step);
    ReadFramed(config, sv, up, down, step);
  }

  // ---------- handler, worker and timer keep the invariant ----------

  lemma WorkWork(config: Config, sv: Server, step: WorkStep)
    requires WorkOk(sv) && WorkEnabled(config, sv, step)
    ensures WorkOk(Work(config, sv, step))
  {
    var sv' := Work(config, sv, step);
    assert PhaseOk(sv, step.r) && ContentOk(sv, step.r);
    forall r | 0 <= r < |sv'.requests| ensures PhaseOk(sv', r) && ContentOk(sv', r) {
      assert PhaseOk(sv, r) && ContentOk(sv, r);
    }
  }

  lemma WorkPreserves(config: Config, sv: Server, up: Wire, down: Wire, step: WorkStep)
    requires Inv(sv, up, down) && WorkEnabled(config, sv, step)
    ensures Inv(Work(config, sv, step), up, down)
  {
    var sv' := Work(config, sv, step);
    WorkWork(config, sv, step);
    forall r | 0 <= r < |sv'.requests| ensures FromWire(sv', up.log, r) {
      assert FromWire(sv, up.log, r);
    }
    forall i | 0 <= i < |sv.answered| ensures PairOk(sv', down.log, i) {
      assert PairOk(sv, down.log, i);
      assert PhaseOk(sv, sv.answered[i]);
    }
  }

  // ---------- sendResponse keeps the invariant ----------

  lemma WriteWork(sv: Server, down: Wire, step: WriteStep)
    requires WorkOk(sv) && WriteEnabled(sv, step)
    ensures WorkOk(Write(sv, down, step).0)
  {
    var sv' := Write(sv, down, step).0;
    assert !sv.writer.Free? ==> PhaseOk(sv, sv.writer.r) && ContentOk(sv, sv.writer.r);
    forall r | 0 <= r < |sv'.requests| ensures PhaseOk(sv', r) && ContentOk(sv', r) {
      assert PhaseOk(sv, r) && ContentOk(sv, r);
    }
  }

  lemma WriteReader(sv: Server, up: Wire, down: Wire, step: WriteStep)
    requires ReaderOk(sv, up) && WorkOk(sv) && WriteEnabled(sv, step)
    ensures ReaderOk(Write(sv, down, step).0, up)
  {
    var sv' := Write(sv, down, step).0;
    forall r | 0 <= r < |sv'.requests| ensures FromWire(sv', up.log, r) {
      assert FromWire(sv, up.log, r);
    }
  }

  lemma HeaderFramed(sv: Server, down: Wire, step: WriteStep)
    requires WorkOk(sv) && ResponsesFramed(sv, down) && WriteEnabled(sv, step) && step.WriteHeader?
    ensures ResponsesFramed(Write(sv, down, step).0, Write(sv, down, step).1)
  {
    var (sv', down') := Write(sv, down, step);
    assert PhaseOk(sv, sv.writer.r);
    forall i | 0 <= i < |sv.answered| ensures sv.answered[i] != sv.writer.r {
      assert PairOk(sv, down.log, i);
    }
    forall i | 0 <= i < |sv'.answered| ensures PairOk(sv', down'.log, i) {
      assert i < |sv.answered| ==> PairOk(sv, down.log, i);
    }
  }

  lemma WriteFramed(sv: Server, down: Wire, step: WriteStep)
    requires WorkOk(sv) && ResponsesFramed(sv, down) && WriteEnabled(sv, step)
    ensures ResponsesFramed(Write(sv, down, step).0, Write(sv, down, step).1)
  {
    if step.WriteHeader? {
      HeaderFramed(sv, down, step);
    } else {
      var (sv', down') := Write(sv, down, step);
      assert !sv.writer.Free? ==> PhaseOk(sv, sv.writer.r);
      forall i | 0 <= i < |sv'.answered| ensures PairOk(sv', down'.log, i) {
        assert PairOk(sv, down.log, i);
      }
    }
  }

  lemma WritePreserves(sv: Server, up: Wire, down: Wire, step: WriteStep)
    requires Inv(sv, up, down) && WriteEnabled(sv, step)
    ensures Inv(Write(sv, down, step).0, up, Write(sv, down, step).1)
  {
    WriteReader(sv, up, down, step);
    WriteWork(sv, down, step);
    WriteFramed(sv, down, step);
  }
}
