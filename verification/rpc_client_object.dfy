/** The client object itself: the methods of client.go that run under `mutex`, on heap-allocated calls, each proved to
    do to the object what the function of RpcClient of the same name does to the client of the protocol proof. */
module RpcClientObject {
  import opened Common
  import opened RpcWire
  import C = RpcClient

  class Call {
    const serviceMethod: string
    const args: Value
    var seqNo: nat
    var reply: Option<Value>
    var error: Option<C.Fault>
    var signals: nat

    constructor (serviceMethod: string, args: Value)
      ensures this.serviceMethod == serviceMethod && this.args == args
      ensures seqNo == 0 && reply == None && error == None && signals == 0
    {
      this.serviceMethod, this.args := serviceMethod, args;
      seqNo, reply, error, signals := 0, None, None, 0;
    }

    /** The object agrees with a call of the protocol; who cancelled it is not recorded in the object. */
    ghost predicate Is(call: C.Call)
      reads this
    {
      && serviceMethod == call.serviceMethod
      && args == call.args
      && seqNo == call.seqNo
      && error == call.error
      && signals == call.signals
      && reply == if call.answers != [] && call.answers[|call.answers| - 1].Filled?
                  then Some(call.answers[|call.answers| - 1].reply) else None
    }

    method Done()
      modifies this`signals
      ensures signals == old(signals) + 1
    {
      signals := signals + 1;
    }

    /** One turn of the loop of terminateCalls. */
    method Fail(err: Option<C.Fault>, ghost call: C.Call)
      requires Is(call)
      modifies this`error, this`signals
      ensures Is(call.Signal(err))
    {
      error := err;
      Done();
    }
  }

  class Client {
    var nextSeq: nat
    var pending: map<nat, Call>
    var closing: bool
    var shutdown: bool
    /** Every call that reached `send`, in order. */
    ghost var calls: seq<Call>
    /** Where each of them stands in `calls`. */
    ghost var place: map<Call, nat>

    /** The object agrees with the client of the protocol. */
    ghost predicate Is(cl: C.Client)
      reads this, calls
    {
      && nextSeq == cl.nextSeq
      && closing == cl.closing
      && shutdown == cl.shutdown
      && AreCalls(calls, place, cl.calls)
      && AreEntries(pending, calls, cl.pending)
    }

    static ghost predicate AreCalls(calls: seq<Call>, place: map<Call, nat>, values: seq<C.Call>)
      reads calls
    {
      && |calls| == |values|
      && (forall i :: 0 <= i < |calls| ==> calls[i] in place && place[calls[i]] == i)
      && (forall i :: 0 <= i < |calls| ==> calls[i].Is(values[i]))
    }

    static ghost predicate AreEntries(pending: map<nat, Call>, calls: seq<Call>, entries: map<nat, nat>) {
      && pending.Keys == entries.Keys
      && (forall s :: s in pending ==> entries[s] < |calls| && pending[s] == calls[entries[s]])
    }

    constructor ()
      ensures Is(C.INIT)
    {
      nextSeq, pending, closing, shutdown := 1, map[], false, false;
      calls, place := [], map[];
    }

    method RegisterCall(call: Call, ghost cl: C.Client) returns (ok: bool)
      requires Is(cl) && call !in calls
      requires call.seqNo == 0 && call.reply == None && call.error == None && call.signals == 0
      modifies this, call`seqNo
      ensures ok == !(cl.closing || cl.shutdown)
      ensures ok ==> calls == old(calls) + [call] && Is(C.RegisterCall(cl, call.serviceMethod, call.args))
      ensures ok ==>
        call.seqNo == old(nextSeq) && nextSeq == old(nextSeq) + 1 && pending == old(pending)[call.seqNo := call]
      ensures !ok ==> unchanged(this) && unchanged(call)
    {
      if closing || shutdown {
        return false;
      }
      call.seqNo := nextSeq;
      pending := pending[call.seqNo := call];
      nextSeq := nextSeq + 1;
      Append(call, cl.calls, C.Call(call.serviceMethod, call.args, cl.nextSeq, [], None, 0, false));
      return true;
    }

    /** The error path of send. */
    method Reject(call: Call, ghost cl: C.Client)
      requires Is(cl) && call !in calls && (closing || shutdown)
      requires call.seqNo == 0 && call.reply == None && call.error == None && call.signals == 0
      modifies this`calls, this`place, call
      ensures calls == old(calls) + [call] && Is(C.RejectCall(cl, call.serviceMethod, call.args))
      ensures call.error == Some(C.Shutdown) && call.reply == None && call.signals == 1 && call.seqNo == 0
    {
      call.error := Some(C.Shutdown);
      call.Done();
      Append(call, cl.calls, C.Call(call.serviceMethod, call.args, 0, [], Some(C.Shutdown), 1, false));
    }

    ghost method Append(call: Call, values: seq<C.Call>, value: C.Call)
      requires AreCalls(calls, place, values) && call !in calls && call.Is(value)
      modifies this`calls, this`place
      ensures calls == old(calls) + [call] && AreCalls(calls, place, values + [value])
    {
      calls, place := calls + [call], place[call := |calls|];
    }

    method RemoveCall(seqNo: nat, ghost cl: C.Client) returns (call: Call?)
      requires Is(cl)
      modifies this
      ensures Is(C.RemoveCall(cl, seqNo)) && calls == old(calls)
      ensures call == if seqNo in old(pending) then old(pending)[seqNo] else null
    {
      call := if seqNo in pending then pending[seqNo] else null;
      pending := pending - {seqNo};
    }

    static ghost function AllPartly(cl: C.Client, signalled: set<nat>, err: Option<C.Fault>): seq<C.Call> {
      seq(|cl.calls|, i requires 0 <= i < |cl.calls| =>
        if i in signalled then cl.calls[i].Signal(err) else cl.calls[i])
    }

    /** `pending[s].Seq == s`, part of what holds in every run. */
    static ghost predicate ByNumber(cl: C.Client) {
      forall s :: s in cl.pending ==> cl.pending[s] < |cl.calls| && cl.calls[cl.pending[s]].seqNo == s
    }

    /** The calls of `pending` outside `todo` have been signalled, and no others. */
    ghost predicate Terminating(cl: C.Client, todo: set<nat>, signalled: set<nat>, err: Option<C.Fault>)
      reads this`pending, this`calls, this`place, calls
    {
      && AreEntries(pending, calls, cl.pending)
      && AreCalls(calls, place, AllPartly(cl, signalled, err))
      && Left(cl.pending, todo, signalled)
    }

    /** What is left to do and what has been done. */
    static ghost predicate Left(entries: map<nat, nat>, todo: set<nat>, signalled: set<nat>) {
      && todo <= entries.Keys
      && (forall s :: s in entries ==> (s in todo <==> entries[s] !in signalled))
      && signalled <= entries.Values
    }

    static lemma OneLess(cl: C.Client, todo: set<nat>, signalled: set<nat>, s: nat)
      requires Left(cl.pending, todo, signalled) && s in todo && ByNumber(cl)
      ensures Left(cl.pending, todo - {s}, signalled + {cl.pending[s]})
    {
    }

    method FailOne(s: nat, ghost cl: C.Client, ghost todo: set<nat>, ghost signalled: set<nat>, err: Option<C.Fault>)
      requires Terminating(cl, todo, signalled, err) && s in todo
      requires ByNumber(cl)
      modifies calls
      ensures Terminating(cl, todo - {s}, signalled + {cl.pending[s]}, err)
    {
      ghost var c, values := cl.pending[s], AllPartly(cl, signalled, err);
      OneMorePartly(cl, signalled, err, c);
      OneLess(cl, todo, signalled, s);
      FailAt(pending[s], c, values, err);
    }

    method FailAt(call: Call, ghost c: nat, ghost values: seq<C.Call>, err: Option<C.Fault>)
      requires AreCalls(calls, place, values) && c < |calls| && call == calls[c]
      modifies call
      ensures AreCalls(calls, place, values[c := values[c].Signal(err)])
    {
      call.Fail(err, values[c]);
      forall i | 0 <= i < |calls| && i != c ensures calls[i].Is(values[i]) {
        assert place[calls[i]] == i && old(calls[i].Is(values[i]));
      }
    }

    static lemma OneMorePartly(cl: C.Client, signalled: set<nat>, err: Option<C.Fault>, c: nat)
      requires c < |cl.calls| && c !in signalled
      ensures AllPartly(cl, signalled, err)[c] == cl.calls[c]
      ensures AllPartly(cl, signalled + {c}, err) == AllPartly(cl, signalled, err)[c := cl.calls[c].Signal(err)]
    {
    }

    lemma TerminatingAtFirst(cl: C.Client, err: Option<C.Fault>)
      requires Is(cl)
      ensures Terminating(cl, pending.Keys, {}, err)
    {
    }

    lemma Terminated(cl: C.Client, signalled: set<nat>, err: Option<C.Fault>)
      requires Terminating(cl, {}, signalled, err)
      requires nextSeq == cl.nextSeq && closing == cl.closing && shutdown
      ensures Is(C.TerminateCalls(cl, err))
    {
      forall c | c in cl.pending.Values ensures c in signalled {
        var s :| s in cl.pending && cl.pending[s] == c;
      }
      assert AllPartly(cl, signalled, err) == C.TerminateCalls(cl, err).calls;
    }

    /** The loop over `pending`, in whatever order the map yields its entries. */
    method SignalAll(err: Option<C.Fault>, ghost cl: C.Client) returns (ghost signalled: set<nat>)
      requires Terminating(cl, pending.Keys, {}, err) && ByNumber(cl)
      modifies calls
      ensures Terminating(cl, {}, signalled, err)
    {
      var todo := pending.Keys;
      signalled := {};
      while todo != {}
        invariant Terminating(cl, todo, signalled, err)
      {
        var s :| s in todo;
        FailOne(s, cl, todo, signalled, err);
        todo, signalled := todo - {s}, signalled + {cl.pending[s]};
      }
    }

    /** Every call in `pending` has the error and one signal more, and no other call has changed. */
    ghost predicate AllEnded(cl: C.Client, err: Option<C.Fault>)
      reads this`pending, this`calls, calls
    {
      && pending.Keys == cl.pending.Keys && |calls| == |cl.calls|
      && (forall s :: s in pending ==> cl.pending[s] < |calls| && pending[s] == calls[cl.pending[s]])
      && forall i :: 0 <= i < |calls| ==>
           if i in cl.pending.Values then
             calls[i].error == err && calls[i].signals == cl.calls[i].signals + 1 && calls[i].seqNo == cl.calls[i].seqNo
           else
             calls[i].Is(cl.calls[i])
    }

    lemma EndedAll(cl: C.Client, err: Option<C.Fault>)
      requires Is(C.TerminateCalls(cl, err))
      ensures shutdown && AllEnded(cl, err)
    {
      forall i | 0 <= i < |calls| ensures calls[i].Is(C.TerminateCalls(cl, err).calls[i]) {
      }
    }

    method TerminateCalls(err: Option<C.Fault>, ghost cl: C.Client)
      requires Is(cl) && ByNumber(cl)
      modifies this, calls
      ensures Is(C.TerminateCalls(cl, err)) && calls == old(calls)
      ensures shutdown && AllEnded(cl, err)
    {
      TerminatingAtFirst(cl, err);
      shutdown := true;
      ghost var signalled := SignalAll(err, cl);
      Terminated(cl, signalled, err);
      EndedAll(cl, err);
    }

    /** The switch of the receive loop for a call that is still known, when its body could be read. */
    method Deliver(h: Header, body: Value, call: Call, ghost c: nat, ghost cl: C.Client)
      requires Is(cl) && c < |calls| && call == calls[c] && cl.calls[c].answers == []
      modifies call
      ensures Is(C.Update(cl, c, cl.calls[c].Answered(h, cl.received, body)))
      ensures call.signals == old(call.signals) + 1
      ensures h.error != "" ==> call.error == Some(C.Remote(h.error)) && call.reply == old(call.reply)
      ensures h.error == "" ==> call.error == old(call.error) && call.reply == Some(body)
    {
      if h.error != "" {
        call.error := Some(C.Remote(h.error));
      } else {
        call.reply := Some(body);
      }
      call.Done();
      forall i | 0 <= i < |calls| && i != c ensures calls[i].Is(cl.calls[i]) {
        assert place[calls[i]] == i && old(calls[i].Is(cl.calls[i]));
      }
    }
  }
}
