/** Concurrent call merging: any number of goroutines in Do, interleaved at its lock, wait and unlock points. */
module Singleflight {
  import opened Common

  /** Where a goroutine is in Do, and the call object it holds. A leader goes from Running (inside fn) through Ran
      (result stored) and Released (wg.Done) to Returned (entry deleted); everyone else from Waiting to Returned. */
  datatype Phase =
    | Waiting(call: nat)
    | Running(call: nat)
    | Ran(call: nat)
    | Released(call: nat)
    | Returned(call: nat)

  datatype Caller<K> = Caller(key: K, phase: Phase)

  /** `released` stands for the WaitGroup; key and leader are for reference only. */
  datatype Call<K, R> = Call(key: K, leader: nat, result: Option<R>, released: bool)

  /** `m` maps a key to its call in flight. */
  datatype Group<!K(==), R> = Group(callers: seq<Caller<K>>, calls: seq<Call<K, R>>, m: map<K, nat>)

  function Empty<K(==), R>(): Group<K, R> {
    Group([], [], map[])
  }

  datatype Step<K, R> =
    | Enter(key: K)
    | FnReturns(i: nat, result: R)
    | WgDone(i: nat)
    | Delete(i: nat)
    | Wake(i: nat)

  predicate Enabled<K(==), R>(g: Group<K, R>, step: Step<K, R>) {
    step.Enter? ||
    (&& step.i < |g.callers|
     && g.callers[step.i].phase.call < |g.calls|
     && var phase := g.callers[step.i].phase;
        match step
        case FnReturns(_, _) => phase.Running?
        case WgDone(_) => phase.Ran?
        case Delete(_) => phase.Released?
        case Wake(_) => phase.Waiting? && g.calls[phase.call].released)
  }

  function Apply<K(==), R>(g: Group<K, R>, step: Step<K, R>): Group<K, R>
    requires Enabled(g, step)
  {
    match step
    case Enter(key) =>
      // under the mutex: join the call in flight, or become the leader of a new one
      if key in g.m then
        g.(callers := g.callers + [Caller(key, Waiting(g.m[key]))])
      else
        g.(callers := g.callers + [Caller(key, Running(|g.calls|))],
           calls := g.calls + [Call(key, |g.callers|, None, false)],
           m := g.m[key := |g.calls|])
    case FnReturns(i, r) =>
      var c := g.callers[i].phase.call;
      Move(g, i, Ran(c)).(calls := g.calls[c := g.calls[c].(result := Some(r))])
    case WgDone(i) =>
      var c := g.callers[i].phase.call;
      Move(g, i, Released(c)).(calls := g.calls[c := g.calls[c].(released := true)])
    case Delete(i) =>
      Move(g, i, Returned(g.callers[i].phase.call)).(m := g.m - {g.callers[i].key})
    case Wake(i) =>
      Move(g, i, Returned(g.callers[i].phase.call))
  }

  function Move<K(==), R>(g: Group<K, R>, i: nat, phase: Phase): Group<K, R>
    requires i < |g.callers|
  {
    g.(callers := g.callers[i := g.callers[i].(phase := phase)])
  }

  // ---------- invariant ----------

  ghost predicate Leading<K, R>(g: Group<K, R>, i: nat)
    requires i < |g.callers|
  {
    var p := g.callers[i].phase;
    p.Running? || p.Ran? || p.Released?
  }

  /** A caller's call is for its key; a leader's call is its own and is the one in the map. */
  ghost predicate CallerOk<K, R>(g: Group<K, R>, i: nat)
    requires i < |g.callers|
  {
    var Caller(key, phase) := g.callers[i];
    && phase.call < |g.calls|
    && g.calls[phase.call].key == key
    && (Leading(g, i) ==> g.calls[phase.call].leader == i && key in g.m && g.m[key] == phase.call)
    && (phase.Waiting? ==> g.calls[phase.call].leader != i)
    && (phase.Returned? ==> g.calls[phase.call].released)
  }

  /** A call's leader never lets go of it, and the call's fields record how far the leader is. */
  ghost predicate CallOk<K, R>(g: Group<K, R>, c: nat)
    requires c < |g.calls|
  {
    var call := g.calls[c];
    && call.leader < |g.callers|
    && g.callers[call.leader].phase.call == c
    && !g.callers[call.leader].phase.Waiting?
    && (call.result.Some? <==> !g.callers[call.leader].phase.Running?)
    && (call.released <==> g.callers[call.leader].phase.Released? || g.callers[call.leader].phase.Returned?)
  }

  ghost predicate EntryOk<K, R>(g: Group<K, R>, key: K) {
    key in g.m ==> g.m[key] < |g.calls| && g.calls[g.m[key]].key == key
                   && g.calls[g.m[key]].leader < |g.callers| && Leading(g, g.calls[g.m[key]].leader)
  }

  ghost predicate Inv<K(!new), R>(g: Group<K, R>) {
    && (forall i :: 0 <= i < |g.callers| ==> CallerOk(g, i))
    && (forall c :: 0 <= c < |g.calls| ==> CallOk(g, c))
    && (forall key :: EntryOk(g, key))
  }

  lemma Preserved<K(!new), R>(g: Group<K, R>, step: Step<K, R>)
    requires Inv(g) && Enabled(g, step)
    ensures Inv(Apply(g, step))
  {
    var g' := Apply(g, step);
    if !step.Enter? {
      assert CallerOk(g, step.i) && CallOk(g, g.callers[step.i].phase.call);
    }
    forall i | 0 <= i < |g'.callers| ensures CallerOk(g', i) {
      if i < |g.callers| {
        assert CallerOk(g, i) && CallOk(g, g.callers[i].phase.call);
      } else {
        assert EntryOk(g, g'.callers[i].key);
      }
    }
    forall c | 0 <= c < |g'.calls| ensures CallOk(g', c) {
      assert c < |g.calls| ==> CallOk(g, c);
    }
    forall key ensures EntryOk(g', key) {
      assert EntryOk(g, key);
      if key in g.m {
        assert CallOk(g, g.m[key]) && CallerOk(g, g.calls[g.m[key]].leader);
      }
    }
  }

  /** Callers and calls are never renamed or forgotten; only the end of fn writes a result. */
  ghost predicate Extends<K, R>(g: Group<K, R>, g': Group<K, R>) {
    && |g.callers| <= |g'.callers|
    && |g.calls| <= |g'.calls|
    && (forall i :: 0 <= i < |g.callers| ==> g'.callers[i].key == g.callers[i].key)
    && (forall c :: 0 <= c < |g.calls| ==> g'.calls[c].key == g.calls[c].key && g'.calls[c].leader == g.calls[c].leader)
  }

  lemma StepExtends<K(!new), R>(g: Group<K, R>, step: Step<K, R>)
    requires Enabled(g, step)
    ensures Extends(g, Apply(g, step))
    ensures !step.FnReturns? ==> forall c :: 0 <= c < |g.calls| ==> Apply(g, step).calls[c].result == g.calls[c].result
    ensures step.FnReturns? ==> forall c :: 0 <= c < |g.calls| && c != g.callers[step.i].phase.call ==>
                                  Apply(g, step).calls[c].result == g.calls[c].result
  {
  }

  // ---------- runs ----------

  ghost predicate Next<K(!new), R(!new)>(g: Group<K, R>, g': Group<K, R>) {
    exists step: Step<K, R> :: Enabled(g, step) && g' == Apply(g, step)
  }

  ghost predicate StepAt<K(!new), R(!new)>(run: seq<Group<K, R>>, i: nat)
    requires i < |run| - 1
  {
    Next(run[i], run[i + 1])
  }

  ghost predicate IsRun<K(!new), R(!new)>(run: seq<Group<K, R>>) {
    && |run| > 0
    && run[0] == Empty()
    && forall i :: 0 <= i < |run| - 1 ==> StepAt(run, i)
  }

  lemma {:induction false} Reached<K(!new), R(!new)>(run: seq<Group<K, R>>, i: nat)
    requires IsRun(run) && i < |run|
    ensures Inv(run[i])
  {
    if i > 0 {
      Reached(run, i - 1);
      assert StepAt(run, i - 1);
      var step :| Enabled(run[i - 1], step) && run[i] == Apply(run[i - 1], step);
      Preserved(run[i - 1], step);
    }
  }

  // ---------- what Do promises ----------

  /** At most one fn per key is between entry and deletion, and the entry a leader deletes is its own. */
  lemma OneFlightPerKey<K(!new), R(!new)>(run: seq<Group<K, R>>, n: nat, i: nat, j: nat)
    requires IsRun(run) && n < |run| && i < |run[n].callers| && j < |run[n].callers|
    requires Leading(run[n], i) && Leading(run[n], j) && run[n].callers[i].key == run[n].callers[j].key
    ensures i == j
    ensures run[n].callers[i].key in run[n].m && run[n].m[run[n].callers[i].key] == run[n].callers[i].phase.call
  {
    Reached(run, n);
    assert CallerOk(run[n], i) && CallerOk(run[n], j);
  }

  /** Results are written once. */
  lemma {:induction false} ResultKept<K(!new), R(!new)>(run: seq<Group<K, R>>, n: nat, k: nat, c: nat)
    requires IsRun(run) && n <= k < |run| && c < |run[n].calls|
    ensures c < |run[k].calls|
    ensures run[k].calls[c].key == run[n].calls[c].key && run[k].calls[c].leader == run[n].calls[c].leader
    ensures run[n].calls[c].result.Some? ==> run[k].calls[c].result == run[n].calls[c].result
    decreases k
  {
    if n < k {
      ResultKept(run, n, k - 1, c);
      Reached(run, k - 1);
      assert StepAt(run, k - 1);
      var g := run[k - 1];
      var step :| Enabled(g, step) && run[k] == Apply(g, step);
      if step.FnReturns? {
        assert CallerOk(g, step.i) && CallOk(g, c);
      }
    }
  }

  /** What a caller that has returned got: the result of the one execution it led or joined, for its own key, exactly
      as fn returned it, however long ago. */
  lemma ReturnsResultOfCall<K(!new), R(!new)>(run: seq<Group<K, R>>, n: nat, i: nat)
    requires IsRun(run) && n < |run| && i < |run[n].callers| && run[n].callers[i].phase.Returned?
    ensures var g, c := run[n], run[n].callers[i].phase.call;
      && c < |g.calls| && g.calls[c].key == g.callers[i].key && g.calls[c].result.Some?
      && forall k :: n <= k < |run| ==> c < |run[k].calls| && run[k].calls[c].result == g.calls[c].result
  {
    Reached(run, n);
    var g, c := run[n], run[n].callers[i].phase.call;
    assert CallerOk(g, i) && CallOk(g, c);
    forall k | n <= k < |run| ensures c < |run[k].calls| && run[k].calls[c].result == g.calls[c].result {
      ResultKept(run, n, k, c);
    }
  }

  /** Progress: while somebody has not returned and no fn is still executing, some step inside Do can be taken. */
  lemma NotStuck<K(!new), R(!new)>(run: seq<Group<K, R>>, n: nat, i: nat)
    requires IsRun(run) && n < |run| && i < |run[n].callers| && !run[n].callers[i].phase.Returned?
    requires forall j :: 0 <= j < |run[n].callers| ==> !run[n].callers[j].phase.Running?
    ensures exists step: Step<K, R> :: (step.WgDone? || step.Delete? || step.Wake?) && Enabled(run[n], step)
  {
    Reached(run, n);
    var g := run[n];
    assert CallerOk(g, i);
    var step: Step<K, R> :=
      match g.callers[i].phase
      case Ran(_) => WgDone(i)
      case Released(_) => Delete(i)
      case Waiting(c) => if g.calls[c].released then Wake(i) else WgDone(g.calls[c].leader)
      case _ => Wake(i);
    assert CallOk(g, g.callers[i].phase.call);
    assert Enabled(g, step);
  }

  /** Steps still to be taken by the callers inside Do. */
  function Remaining<K>(callers: seq<Caller<K>>): nat {
    if callers == [] then 0 else Remaining(callers[..|callers| - 1]) + Distance(callers[|callers| - 1].phase)
  }

  function Distance(phase: Phase): nat {
    match phase
    case Waiting(_) => 1
    case Running(_) => 3
    case Ran(_) => 2
    case Released(_) => 1
    case Returned(_) => 0
  }

  lemma {:induction false} RemainingUpdate<K>(callers: seq<Caller<K>>, i: nat, phase: Phase)
    requires i < |callers|
    ensures Remaining(callers[i := callers[i].(phase := phase)])
         == Remaining(callers) - Distance(callers[i].phase) + Distance(phase)
  {
    var callers' := callers[i := callers[i].(phase := phase)];
    if i == |callers| - 1 {
      assert callers'[..|callers| - 1] == callers[..|callers| - 1];
    } else {
      assert callers'[..|callers| - 1] == callers[..|callers| - 1][i := callers[i].(phase := phase)];
      RemainingUpdate(callers[..|callers| - 1], i, phase);
    }
  }

  /** Every step but an entry brings the callers exactly one step closer to having all returned, so with NotStuck all
      callers return once every fn has. */
  lemma StepsCloser<K(!new), R(!new)>(g: Group<K, R>, step: Step<K, R>)
    requires Enabled(g, step) && !step.Enter?
    ensures Remaining(Apply(g, step).callers) == Remaining(g.callers) - 1
  {
    var i, c := step.i, g.callers[step.i].phase.call;
    RemainingUpdate(g.callers, i, Apply(g, step).callers[i].phase);
  }
}
