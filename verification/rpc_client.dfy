/** The client end: one step per critical section or blocking point of client.go. */
module RpcClient {
  import opened Common
  import opened RpcWire

  /** The errors a call can end with: errShutdown, an encoder's error, what fmt.Errorf makes of an error text from the
      server, a decoder's error, and the latter with the prefix that the receive loop adds. */
  datatype Fault =
    | Shutdown
    | Encode(text: string)
    | Remote(text: string)
    | Decode(text: string)
    | ReadingBody(text: string)

  /** What the receive loop did to a call, and from which (header, body) pair of the stream. */
  datatype Answer = Filled(pair: nat, reply: Value) | Refused(pair: nat, text: string)

  /** `seqNo` is 0 until the call is registered. `signals` counts the sends on `Done`. */
  datatype Call = Call(serviceMethod: string, args: Value, seqNo: nat, answers: seq<Answer>,
                       error: Option<Fault>, signals: nat, cancelled: bool)
  {
    function Signal(err: Option<Fault>): Call {
      this.(error := err, signals := signals + 1)
    }

    /** The second and third case of the receive loop, when the body could be read. */
    function Answered(h: Header, pair: nat, body: Value): Call {
      var text := if h.error != "" then Some(Remote(h.error)) else error;
      var answer := if h.error != "" then Refused(pair, h.error) else Filled(pair, body);
      Signal(text).(answers := answers + [answer])
    }

    function RequestHeader(): Header {
      Header(serviceMethod, seqNo, "")
    }
  }

  /** Where the goroutine that holds `sending` is. */
  datatype Sender =
    | Unlocked
    | HeaderNext(c: nat)
    | BodyNext(c: nat)
    | WriteFailed(c: nat)
    | Removed(c: nat, found: Option<nat>)

  /** Where the receive loop is; `err` is what terminateCalls is handed. */
  datatype Receiver =
    | ReadHeader
    | Lookup(h: Header)
    | ReadBody(h: Header, call: Option<nat>)
    | Stopping(err: Option<Fault>)
    | Stopped(err: Option<Fault>)

  /** `calls` holds every call that ever reached `send`; `written` those whose header went out. */
  datatype Client = Client(calls: seq<Call>, nextSeq: nat, pending: map<nat, nat>,
                           closing: bool, shutdown: bool,
                           sender: Sender, receiver: Receiver, received: nat, written: seq<nat>)

  const INIT := Client([], 1, map[], false, false, Unlocked, ReadHeader, 0, [])

  // ---------- the critical sections of client.go ----------

  /** registerCall, for a call that is appended to the history. */
  function RegisterCall(cl: Client, serviceMethod: string, args: Value): Client
    requires !cl.closing && !cl.shutdown
  {
    cl.(calls := cl.calls + [Call(serviceMethod, args, cl.nextSeq, [], None, 0, false)],
        pending := cl.pending[cl.nextSeq := |cl.calls|],
        nextSeq := cl.nextSeq + 1)
  }

  /** The error path of send: the call is signalled without ever getting a number. */
  function RejectCall(cl: Client, serviceMethod: string, args: Value): Client {
    cl.(calls := cl.calls + [Call(serviceMethod, args, 0, [], Some(Shutdown), 1, false)])
  }

  function RemoveCall(cl: Client, seqNo: nat): Client {
    cl.(pending := cl.pending - {seqNo})
  }

  function TerminateCalls(cl: Client, err: Option<Fault>): Client {
    cl.(shutdown := true,
        calls := seq(|cl.calls|, c requires 0 <= c < |cl.calls| =>
                       if c in cl.pending.Values then cl.calls[c].Signal(err) else cl.calls[c]))
  }

  // ---------- steps ----------

  /** Steps of the goroutines that call Go, Call and Close. */
  datatype SendStep =
    | Go(serviceMethod: string, args: Value)
    | WriteHeader(lost: bool)
    | WriteBody(lost: bool)
    | WriteError
    | FailRemove
    | FailSignal(text: string)
    | Cancel(c: nat)
    | Close

  /** Steps of the receive loop. */
  datatype RecvStep =
    | RecvHeader
    | RecvHeaderFail
    | RecvLookup
    | RecvBody
    | RecvBodyFail(text: string)
    | Terminate

  predicate SendEnabled(cl: Client, step: SendStep) {
    match step
    case Go(_, _) => cl.sender.Unlocked?
    case WriteHeader(_) => cl.sender.HeaderNext? && cl.sender.c < |cl.calls|
    case WriteBody(_) => cl.sender.BodyNext? && cl.sender.c < |cl.calls|
    case WriteError => cl.sender.HeaderNext? || cl.sender.BodyNext?
    case FailRemove => cl.sender.WriteFailed? && cl.sender.c < |cl.calls|
    case FailSignal(_) => cl.sender.Removed? && (cl.sender.found.Some? ==> cl.sender.found.value < |cl.calls|)
    // Call cancels only after Go has returned, so never the call whose sender still holds the lock
    case Cancel(c) => c < |cl.calls| && !cl.calls[c].cancelled && (cl.sender.Unlocked? || cl.sender.c != c)
    case Close => !cl.closing
  }

  /** The client and the stream it writes after a step of a sender. */
  function Send(cl: Client, up: Wire, step: SendStep): (Client, Wire)
    requires SendEnabled(cl, step)
  {
    match step
    case Go(name, args) =>
      if cl.closing || cl.shutdown then
        (RejectCall(cl, name, args), up)
      else
        (RegisterCall(cl, name, args).(sender := HeaderNext(|cl.calls|)), up)
    case WriteHeader(lost) =>
      var c := cl.sender.c;
      var up' := up.Put(HeaderItem(cl.calls[c].RequestHeader()), lost);
      (cl.(sender := BodyNext(c), written := if up'.broken then cl.written else cl.written + [c]), up')
    case WriteBody(lost) =>
      (cl.(sender := Unlocked), up.Put(BodyItem(cl.calls[cl.sender.c].args), lost))
    case WriteError =>
      // the codec closes the connection when an encoder fails
      (cl.(sender := WriteFailed(cl.sender.c)), up.(broken := true))
    case FailRemove =>
      var s := cl.calls[cl.sender.c].seqNo;
      var found := if s in cl.pending then Some(cl.pending[s]) else None;
      (RemoveCall(cl, s).(sender := Removed(cl.sender.c, found)), up)
    case FailSignal(text) =>
      (if cl.sender.found.Some? then
         var c := cl.sender.found.value;
         Update(cl, c, cl.calls[c].Signal(Some(Encode(text)))).(sender := Unlocked)
       else
         cl.(sender := Unlocked), up)
    case Cancel(c) =>
      (Update(RemoveCall(cl, cl.calls[c].seqNo), c, cl.calls[c].(cancelled := true)), up)
    case Close =>
      (cl.(closing := true), up.(broken := true))
  }

  function Update(cl: Client, c: nat, call: Call): Client
    requires c < |cl.calls|
  {
    cl.(calls := cl.calls[c := call])
  }

  predicate RecvEnabled(cl: Client, down: Wire, step: RecvStep) {
    match step
    case RecvHeader => cl.receiver.ReadHeader? && down.Available()
    case RecvHeaderFail => cl.receiver.ReadHeader?
    case RecvLookup => cl.receiver.Lookup?
    case RecvBody => cl.receiver.ReadBody? && down.Available() && HasCall(cl)
    case RecvBodyFail(_) => cl.receiver.ReadBody? && HasCall(cl)
    case Terminate => cl.receiver.Stopping? && cl.sender.Unlocked?
  }

  predicate HasCall(cl: Client)
    requires cl.receiver.ReadBody?
  {
    cl.receiver.call.Some? ==> cl.receiver.call.value < |cl.calls|
  }

  /** The client and the stream it reads after a step of the receive loop. */
  function Receive(cl: Client, down: Wire, step: RecvStep): (Client, Wire)
    requires RecvEnabled(cl, down, step)
  {
    match step
    case RecvHeader =>
      var x := down.log[down.taken];
      (cl.(receiver := if x.HeaderItem? then Lookup(x.header) else Stopping(None)), down.Take())
    case RecvHeaderFail =>
      // the inner err shadows the outer one: terminateCalls is handed nil
      (cl.(receiver := Stopping(None)), down)
    case RecvLookup =>
      var h := cl.receiver.h;
      (cl.(receiver := ReadBody(h, if h.seqNo in cl.pending then Some(cl.pending[h.seqNo]) else None)), down)
    case RecvBody =>
      var x := down.log[down.taken];
      if x.HeaderItem? then (BodyFailed(cl, "unexpected header"), down.Take())
      else (BodyRead(cl, x.body), down.Take())
    case RecvBodyFail(text) =>
      (BodyFailed(cl, text), down)
    case Terminate =>
      (TerminateCalls(cl, cl.receiver.err).(receiver := Stopped(cl.receiver.err)), down)
  }

  function BodyRead(cl: Client, body: Value): Client
    requires cl.receiver.ReadBody? && HasCall(cl)
  {
    var ReadBody(h, found) := cl.receiver;
    var cl' := cl.(receiver := ReadHeader, received := cl.received + 1);
    if found.None? then cl'
    else Update(cl', found.value, cl.calls[found.value].Answered(h, cl.received, body))
  }

  /** A body that could not be read ends the loop; a call without a server error keeps the reason. */
  function BodyFailed(cl: Client, text: string): Client
    requires cl.receiver.ReadBody? && HasCall(cl)
  {
    var ReadBody(h, found) := cl.receiver;
    var cl' := cl.(receiver := Stopping(Some(Decode(text))));
    if found.None? then cl'
    else Update(cl', found.value,
                cl.calls[found.value].Signal(Some(if h.error != "" then Remote(h.error) else ReadingBody(text))))
  }

  // ---------- invariant ----------

  /** Sequence numbers are handed out in order and never reused; `pending[s].Seq == s`. */
  ghost predicate Numbered(cl: Client) {
    && cl.nextSeq >= 1
    && (forall c :: 0 <= c < |cl.calls| ==> cl.calls[c].seqNo < cl.nextSeq)
    && (forall c, d :: 0 <= c < d < |cl.calls| && cl.calls[d].seqNo != 0 ==> cl.calls[c].seqNo < cl.calls[d].seqNo)
    && (forall s :: s in cl.pending ==> s != 0 && cl.pending[s] < |cl.calls| && cl.calls[cl.pending[s]].seqNo == s)
  }

  /** The lock holder is the newest call, it is registered, and nobody else can have removed it. */
  ghost predicate SenderOk(cl: Client) {
    !cl.sender.Unlocked? ==>
      && cl.sender.c == |cl.calls| - 1
      && cl.calls[cl.sender.c].seqNo != 0
      && !cl.calls[cl.sender.c].cancelled
      && (cl.sender.Removed? ==> cl.sender.found == Some(cl.sender.c))
      && (!cl.sender.Removed? ==> Pending(cl, cl.sender.c))
  }

  ghost predicate Pending(cl: Client, c: nat)
    requires c < |cl.calls|
  {
    cl.calls[c].seqNo in cl.pending && cl.pending[cl.calls[c].seqNo] == c
  }

  /** The i-th pair of the stream up is the request of one registered call. */
  ghost predicate PairOk(cl: Client, log: seq<Item>, i: nat) {
    && i < |cl.written|
    && cl.written[i] < |cl.calls|
    && cl.calls[cl.written[i]].seqNo != 0
    && 2 * i < |log|
    && log[2 * i] == HeaderItem(cl.calls[cl.written[i]].RequestHeader())
    && (2 * i + 1 < |log| ==> log[2 * i + 1] == BodyItem(cl.calls[cl.written[i]].args))
  }

  /** The stream up is the requests of `written`, in order of their numbers; the last one may lack its body,
      and if the stream still works that one belongs to the lock holder. */
  ghost predicate RequestsFramed(cl: Client, up: Wire) {
    && (forall i :: 0 <= i < |cl.written| ==> PairOk(cl, up.log, i))
    && (forall i, j :: 0 <= i < j < |cl.written| ==> cl.written[i] < cl.written[j])
    && (cl.sender.HeaderNext? && |cl.written| > 0 ==> cl.written[|cl.written| - 1] < cl.sender.c)
    && 2 * |cl.written| - 1 <= |up.log| <= 2 * |cl.written|
    && (!up.broken ==> if cl.sender.BodyNext? then
                         |up.log| == 2 * |cl.written| - 1 && cl.written[|cl.written| - 1] == cl.sender.c
                       else |up.log| == 2 * |cl.written|)
  }

  /** The receive loop is in step with the stream down; no call is answered twice, and every answer came from
      a pair that carries the call's own number. */
  ghost predicate ReceiverOk(cl: Client, down: Wire) {
    && down.taken <= |down.log|
    && (cl.receiver.ReadHeader? ==> down.taken == 2 * cl.received)
    && (cl.receiver.Lookup? || cl.receiver.ReadBody? ==>
          down.taken == 2 * cl.received + 1 && down.log[2 * cl.received] == HeaderItem(cl.receiver.h))
    && (cl.receiver.ReadBody? && cl.receiver.call.Some? ==>
          cl.receiver.call.value < |cl.calls| && cl.calls[cl.receiver.call.value].seqNo == cl.receiver.h.seqNo != 0)
    && 2 * cl.received <= |down.log|
    && (forall c :: 0 <= c < |cl.calls| ==> AnswersOk(cl.calls[c], cl.received, down.log))
  }

  ghost predicate AnswersOk(call: Call, received: nat, log: seq<Item>) {
    && |call.answers| <= 1
    && (|call.answers| == 1 ==> AnswerFrom(call, call.answers[0], received, log))
  }

  ghost predicate AnswerFrom(call: Call, a: Answer, received: nat, log: seq<Item>) {
    && a.pair < received
    && 2 * a.pair + 1 < |log|
    && call.seqNo != 0
    && log[2 * a.pair].HeaderItem?
    && log[2 * a.pair].header.seqNo == call.seqNo
    && match a
       case Filled(k, v) => log[2 * k].header.error == "" && log[2 * k + 1] == BodyItem(v)
       case Refused(k, text) => text != "" && log[2 * k].header.error == text
  }

  /** No registered call is forgotten. */
  ghost predicate NoneLost(cl: Client) {
    && (forall c :: 0 <= c < |cl.calls| ==> Accounted(cl, c))
    && (cl.receiver.Stopped? ==>
          && cl.shutdown
          && cl.sender.Unlocked?
          && forall c :: 0 <= c < |cl.calls| ==> cl.calls[c].signals > 0 || cl.calls[c].cancelled)
  }

  ghost predicate Accounted(cl: Client, c: nat)
    requires c < |cl.calls|
  {
    || cl.calls[c].signals > 0
    || cl.calls[c].cancelled
    || (cl.calls[c].seqNo != 0 && Pending(cl, c))
    || (cl.sender.Removed? && cl.sender.c == c)
  }

  ghost predicate Inv(cl: Client, up: Wire, down: Wire) {
    && Numbered(cl)
    && SenderOk(cl)
    && RequestsFramed(cl, up)
    && ReceiverOk(cl, down)
    && NoneLost(cl)
  }

  /** What no step but Go changes: the identity of the calls and the counter; entries only leave `pending`. */
  ghost predicate SameCalls(cl: Client, cl': Client) {
    && |cl.calls| == |cl'.calls|
    && cl.nextSeq == cl'.nextSeq
    && (forall c :: 0 <= c < |cl.calls| ==> SameCall(cl.calls[c], cl'.calls[c]))
    && cl'.pending.Keys <= cl.pending.Keys
    && (forall s :: s in cl'.pending ==> cl'.pending[s] == cl.pending[s])
  }

  ghost predicate SameCall(call: Call, call': Call) {
    && call'.seqNo == call.seqNo
    && call'.serviceMethod == call.serviceMethod
    && call'.args == call.args
    && call'.signals >= call.signals
    && (call.cancelled ==> call'.cancelled)
  }

  lemma SendKeepsCalls(cl: Client, up: Wire, step: SendStep)
    requires SendEnabled(cl, step) && !step.Go?
    ensures SameCalls(cl, Send(cl, up, step).0)
    ensures forall c :: 0 <= c < |cl.calls| ==> Send(cl, up, step).0.calls[c].answers == cl.calls[c].answers
  {
  }

  lemma ReceiveKeepsCalls(cl: Client, down: Wire, step: RecvStep)
    requires RecvEnabled(cl, down, step)
    ensures SameCalls(cl, Receive(cl, down, step).0)
    ensures Receive(cl, down, step).0.pending == cl.pending
  {
    if step.RecvBody? {
      var x := down.log[down.taken];
      if x.BodyItem? {
        BodyReadKeepsCalls(cl, x.body);
      }
    }
  }

  lemma BodyReadKeepsCalls(cl: Client, body: Value)
    requires cl.receiver.ReadBody? && HasCall(cl)
    ensures SameCalls(cl, BodyRead(cl, body))
    ensures BodyRead(cl, body).pending == cl.pending
  {
    var ReadBody(h, found) := cl.receiver;
    if found.Some? {
      assert SameCall(cl.calls[found.value], cl.calls[found.value].Answered(h, cl.received, body));
    }
  }

  lemma OneOwner(cl: Client, c: nat, d: nat)
    requires Numbered(cl) && c < |cl.calls| && d < |cl.calls|
    requires cl.calls[c].seqNo == cl.calls[d].seqNo != 0
    ensures c == d
  {
  }

  lemma NumberedKept(cl: Client, cl': Client)
    requires Numbered(cl) && SameCalls(cl, cl')
    ensures Numbered(cl')
  {
  }

  lemma PairsKept(cl: Client, log: seq<Item>, cl': Client)
    requires SameCalls(cl, cl') && cl'.written == cl.written
    requires forall i :: 0 <= i < |cl.written| ==> PairOk(cl, log, i)
    ensures forall i :: 0 <= i < |cl.written| ==> PairOk(cl', log, i)
  {
    forall i | 0 <= i < |cl.written| ensures PairOk(cl', log, i) {
      assert PairOk(cl, log, i);
    }
  }

  // ---------- the senders keep the invariant ----------

  lemma SendNumbered(cl: Client, up: Wire, step: SendStep)
    requires Numbered(cl) && SendEnabled(cl, step)
    ensures Numbered(Send(cl, up, step).0)
  {
    if !step.Go? {
      SendKeepsCalls(cl, up, step);
      NumberedKept(cl, Send(cl, up, step).0);
    }
  }

  lemma SendSender(cl: Client, up: Wire, step: SendStep)
    requires Numbered(cl) && SenderOk(cl) && SendEnabled(cl, step)
    ensures SenderOk(Send(cl, up, step).0)
  {
  }

  lemma GoFramed(cl: Client, up: Wire, step: SendStep)
    requires SenderOk(cl) && RequestsFramed(cl, up) && SendEnabled(cl, step) && step.Go?
    ensures RequestsFramed(Send(cl, up, step).0, Send(cl, up, step).1)
  {
    var (cl', up') := Send(cl, up, step);
    forall i | 0 <= i < |cl.written| ensures PairOk(cl', up'.log, i) && cl.written[i] < |cl.calls| {
      assert PairOk(cl, up.log, i);
    }
  }

  lemma HeaderFramed(cl: Client, up: Wire, step: SendStep)
    requires SenderOk(cl) && RequestsFramed(cl, up) && SendEnabled(cl, step) && step.WriteHeader?
    ensures RequestsFramed(Send(cl, up, step).0, Send(cl, up, step).1)
  {
    var (cl', up') := Send(cl, up, step);
    forall i | 0 <= i < |cl'.written| ensures PairOk(cl', up'.log, i) {
      assert i < |cl.written| ==> PairOk(cl, up.log, i);
    }
  }

  lemma BodyFramed(cl: Client, up: Wire, step: SendStep)
    requires SenderOk(cl) && RequestsFramed(cl, up) && SendEnabled(cl, step) && step.WriteBody?
    ensures RequestsFramed(Send(cl, up, step).0, Send(cl, up, step).1)
  {
    var (cl', up') := Send(cl, up, step);
    forall i | 0 <= i < |cl'.written| ensures PairOk(cl', up'.log, i) {
      assert PairOk(cl, up.log, i);
    }
  }

  lemma SendFramed(cl: Client, up: Wire, step: SendStep)
    requires SenderOk(cl) && RequestsFramed(cl, up) && SendEnabled(cl, step)
    ensures RequestsFramed(Send(cl, up, step).0, Send(cl, up, step).1)
  {
    match step
    case Go(_, _) => GoFramed(cl, up, step);
    case WriteHeader(_) => HeaderFramed(cl, up, step);
    case WriteBody(_) => BodyFramed(cl, up, step);
    case _ =>
      SendKeepsCalls(cl, up, step);
      PairsKept(cl, up.log, Send(cl, up, step).0);
  }

  lemma SendAccounted(cl: Client, up: Wire, step: SendStep, c: nat)
    requires Numbered(cl) && SenderOk(cl) && SendEnabled(cl, step)
    requires c < |Send(cl, up, step).0.calls|
    requires c < |cl.calls| ==> Accounted(cl, c)
    ensures Accounted(Send(cl, up, step).0, c)
  {
    if step.Cancel? && cl.calls[c].seqNo == cl.calls[step.c].seqNo != 0 {
      OneOwner(cl, c, step.c);
    }
  }

  lemma SendNoneLost(cl: Client, up: Wire, step: SendStep)
    requires Numbered(cl) && SenderOk(cl) && NoneLost(cl) && SendEnabled(cl, step)
    ensures NoneLost(Send(cl, up, step).0)
  {
    var cl' := Send(cl, up, step).0;
    if !step.Go? {
      SendKeepsCalls(cl, up, step);
    }
    forall c | 0 <= c < |cl'.calls| ensures Accounted(cl', c) {
      SendAccounted(cl, up, step, c);
    }
  }

  lemma SendReceiver(cl: Client, up: Wire, down: Wire, step: SendStep)
    requires ReceiverOk(cl, down) && SendEnabled(cl, step)
    ensures ReceiverOk(Send(cl, up, step).0, down)
  {
    if !step.Go? {
      SendKeepsCalls(cl, up, step);
    }
  }

  lemma SendPreserves(cl: Client, up: Wire, down: Wire, step: SendStep)
    requires Inv(cl, up, down) && SendEnabled(cl, step)
    ensures Inv(Send(cl, up, step).0, Send(cl, up, step).1, down)
  {
    SendNumbered(cl, up, step);
    SendSender(cl, up, step);
    SendFramed(cl, up, step);
    SendReceiver(cl, up, down, step);
    SendNoneLost(cl, up, step);
  }

  // ---------- the receive loop keeps the invariant ----------

  /** An answered call cannot be answered again: a second answer needs a second pair with its number. */
  lemma ReceiveBody(cl: Client, down: Wire)
    requires ReceiverOk(cl, down) && RecvEnabled(cl, down, RecvBody)
    requires Alternates(down.log) && DistinctHeaders(down.log)
    ensures ReceiverOk(Receive(cl, down, RecvBody).0, Receive(cl, down, RecvBody).1)
  {
    var k := 2 * cl.received;
    assert k % 2 == 0 && (k + 1) % 2 == 1;
    assert down.log[k + 1].BodyItem?;
    if cl.receiver.call.Some? {
      var call := cl.calls[cl.receiver.call.value];
      assert AnswersOk(call, cl.received, down.log);
      assert call.answers == [];
    }
  }

  lemma ReceiveReceiver(cl: Client, down: Wire, step: RecvStep)
    requires Numbered(cl) && ReceiverOk(cl, down) && RecvEnabled(cl, down, step)
    requires Alternates(down.log) && DistinctHeaders(down.log)
    ensures ReceiverOk(Receive(cl, down, step).0, Receive(cl, down, step).1)
  {
    if step.RecvBody? {
      ReceiveBody(cl, down);
    }
  }

  lemma ReceiveNoneLost(cl: Client, down: Wire, step: RecvStep)
    requires NoneLost(cl) && SenderOk(cl) && RecvEnabled(cl, down, step)
    ensures NoneLost(Receive(cl, down, step).0)
  {
    var cl' := Receive(cl, down, step).0;
    ReceiveKeepsCalls(cl, down, step);
    forall c | 0 <= c < |cl'.calls|
      ensures Accounted(cl', c) && (step.Terminate? ==> cl'.calls[c].signals > 0 || cl'.calls[c].cancelled)
    {
      assert Accounted(cl, c);
    }
  }

  lemma ReceiveSender(cl: Client, down: Wire, step: RecvStep)
    requires SenderOk(cl) && RecvEnabled(cl, down, step)
    ensures SenderOk(Receive(cl, down, step).0)
    ensures Receive(cl, down, step).0.sender == cl.sender && Receive(cl, down, step).0.written == cl.written
  {
    ReceiveKeepsCalls(cl, down, step);
  }

  lemma ReceivePreserves(cl: Client, up: Wire, down: Wire, step: RecvStep)
    requires Inv(cl, up, down) && RecvEnabled(cl, down, step)
    requires Alternates(down.log) && DistinctHeaders(down.log)
    ensures Inv(Receive(cl, down, step).0, up, Receive(cl, down, step).1)
  {
    var cl' := Receive(cl, down, step).0;
    ReceiveKeepsCalls(cl, down, step);
    NumberedKept(cl, cl');
    ReceiveSender(cl, down, step);
    PairsKept(cl, up.log, cl');
    ReceiveReceiver(cl, down, step);
    ReceiveNoneLost(cl, down, step);
  }
}
