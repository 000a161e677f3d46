/** The whole cache cluster: concurrent Gets at any nodes, merged per node and key by singleflight, forwarded to the
    ring owner, with evictions and peer failures at any moment. */
module Cluster {
  import opened Common
  import opened GeeCache
  import CH = ConsistentHash
  import Lru
  import SF = Singleflight
  import opened Sums

  type Answer = Result<Lru.Bytes>

  /** Each node's address with the peer list it passed to Set, the data source all nodes share, and cache bounds. */
  datatype Config = Config(hash: string -> nat, peers: map<string, seq<string>>, source: string -> Answer,
                           cacheBytes: string -> nat)

  /** One Group.Get: by a client, or by the HTTP handler on behalf of a flight at another node. */
  datatype Task = Task(node: string, key: string, origin: Option<nat>, phase: TaskPhase)

  /** Joined: inside loader.Do, as the given caller. */
  datatype TaskPhase = Start | Missed | Joined(caller: nat) | Done(answer: Answer)

  /** Where the function run by the leader of a flight is. */
  datatype Stage = Picking | Fetching(task: nat) | Local | Loaded(answer: Answer)

  /** All nodes' singleflight groups side by side: a flight is named by node and key. `stages` goes with their calls. */
  datatype State = State(tasks: seq<Task>, flights: SF.Group<(string, string), Answer>, stages: seq<Stage>,
                         caches: map<string, seq<Lru.Item>>)

  ghost function PickAt(config: Config, node: string, key: string): Option<string>
    requires node in config.peers
  {
    Pick(config.hash, node, config.peers[node], key)
  }

  datatype Step =
    | Get(node: string, key: string)
    | CacheLookup(t: nat)
    | Join(t: nat)
    | Leave(t: nat)
    | PickPeer(c: nat)
    | FetchOk(c: nat)
    | FetchError(c: nat)
    | FetchLost(c: nat)
    | Source(c: nat)
    | FnReturn(c: nat)
    | Inner(inner: SF.Step<(string, string), Answer>)

  predicate TaskAt(s: State, t: nat) {
    t < |s.tasks| && s.tasks[t].node in s.caches
  }

  predicate CallAt(s: State, c: nat) {
    c < |s.stages| && c < |s.flights.calls| && s.flights.calls[c].key.0 in s.caches
  }

  /** The flight's function has asked another node and is waiting for task `t` there. */
  predicate FetchAt(s: State, c: nat) {
    CallAt(s, c) && s.stages[c].Fetching? && s.stages[c].task < |s.tasks|
  }

  function Fetched(s: State, c: nat): TaskPhase
    requires FetchAt(s, c)
  {
    s.tasks[s.stages[c].task].phase
  }

  predicate Enabled(config: Config, s: State, step: Step) {
    match step
    case Get(node, _) => node in s.caches
    case CacheLookup(t) => TaskAt(s, t) && s.tasks[t].phase.Start?
    case Join(t) => TaskAt(s, t) && s.tasks[t].phase.Missed?
    case Leave(t) => TaskAt(s, t) && s.tasks[t].phase.Joined? && Result(s, s.tasks[t].phase.caller).Some?
    case PickPeer(c) => CallAt(s, c) && s.stages[c].Picking? && s.flights.calls[c].key.0 in config.peers
    case FetchOk(c) => FetchAt(s, c) && Fetched(s, c).Done? && Fetched(s, c).answer.Ok?
    case FetchError(c) => FetchAt(s, c) && Fetched(s, c).Done? && Fetched(s, c).answer.Err?
    case FetchLost(c) => FetchAt(s, c)
    case Source(c) => CallAt(s, c) && s.stages[c].Local?
    case FnReturn(c) => CallAt(s, c) && s.stages[c].Loaded? && SF.Enabled(s.flights, Finish(s, c))
    case Inner(inner) => !inner.Enter? && !inner.FnReturns? && SF.Enabled(s.flights, inner)
  }

  /** What Do returns to a caller that is through. */
  function Result(s: State, i: nat): Option<Answer> {
    if i < |s.flights.callers| && s.flights.callers[i].phase.Returned?
       && s.flights.callers[i].phase.call < |s.flights.calls|
    then s.flights.calls[s.flights.callers[i].phase.call].result else None
  }

  function Finish(s: State, c: nat): SF.Step<(string, string), Answer>
    requires CallAt(s, c) && s.stages[c].Loaded?
  {
    SF.FnReturns(s.flights.calls[c].leader, s.stages[c].answer)
  }

  function SetPhase(s: State, t: nat, phase: TaskPhase): State
    requires t < |s.tasks|
  {
    s.(tasks := s.tasks[t := s.tasks[t].(phase := phase)])
  }

  function SetStage(s: State, c: nat, stage: Stage): State
    requires c < |s.stages|
  {
    s.(stages := s.stages[c := stage])
  }

  ghost function Apply(config: Config, s: State, step: Step): State
    requires Enabled(config, s, step)
  {
    match step
    case Get(node, key) =>
      s.(tasks := s.tasks + [Task(node, key, None, if key == "" then Done(Err("key is required")) else Start)])
    case CacheLookup(t) =>
      var Task(node, key, _, _) := s.tasks[t];
      (match Lru.Find(s.caches[node], key)
       case None => SetPhase(s, t, Missed)
       case Some(i) =>
         SetPhase(s, t, Done(Ok(s.caches[node][i].value))).(caches := s.caches[node := Lru.Got(s.caches[node], key)]))
    case Join(t) =>
      var name := (s.tasks[t].node, s.tasks[t].key);
      SetPhase(s, t, Joined(|s.flights.callers|)).(
        flights := SF.Apply(s.flights, SF.Enter(name)),
        stages := if name in s.flights.m then s.stages else s.stages + [Picking])
    case Leave(t) =>
      SetPhase(s, t, Done(Result(s, s.tasks[t].phase.caller).value))
    case PickPeer(c) =>
      var (node, key) := s.flights.calls[c].key;
      (match PickAt(config, node, key)
       case None => SetStage(s, c, Local)
       case Some(peer) => SetStage(s, c, Fetching(|s.tasks|)).(tasks := s.tasks + [Task(peer, key, Some(c), Start)]))
    case FetchOk(c) =>
      SetStage(s, c, Loaded(s.tasks[s.stages[c].task].phase.answer))
    case FetchError(c) =>
      SetStage(s, c, Local)
    case FetchLost(c) =>
      SetStage(s, c, Local)
    case Source(c) =>
      var (node, key) := s.flights.calls[c].key;
      var r := config.source(key);
      SetStage(s, c, Loaded(r)).(
        caches := if r.Ok? then
                    s.caches[node := Lru.Trim(config.cacheBytes(node), Lru.Put(s.caches[node], key, r.value))]
                  else
                    s.caches)
    case FnReturn(c) =>
      s.(flights := SF.Apply(s.flights, Finish(s, c)))
    case Inner(inner) =>
      s.(flights := SF.Apply(s.flights, inner))
  }

  // ---------- invariant ----------

  /** What every Get of a key has to answer. */
  function Correct(config: Config, key: string): Answer {
    if key == "" then Err("key is required") else config.source(key)
  }

  ghost predicate TaskOk(config: Config, s: State, t: nat)
    requires t < |s.tasks|
  {
    var task := s.tasks[t];
    && (task.origin.None? ==> task.node in config.peers)
    && (task.phase.Done? ==> task.phase.answer == Correct(config, task.key))
    && (!task.phase.Done? ==> task.key != "")
    && (task.phase.Joined? ==> task.phase.caller < |s.flights.callers|
                               && s.flights.callers[task.phase.caller].key == (task.node, task.key))
    && (task.origin.Some? ==>
          && task.origin.value < |s.flights.calls|
          && task.key == s.flights.calls[task.origin.value].key.1
          && s.flights.calls[task.origin.value].key.0 in config.peers
          && PickAt(config, s.flights.calls[task.origin.value].key.0, task.key) == Some(task.node))
  }

  ghost predicate CallOk(config: Config, s: State, c: nat)
    requires c < |s.flights.calls| && c < |s.stages|
  {
    var call := s.flights.calls[c];
    && call.key.0 in config.peers
    && call.key.1 != ""
    && (call.result.Some? ==> s.stages[c] == Loaded(call.result.value))
    && (s.stages[c].Loaded? ==> s.stages[c].answer == config.source(call.key.1))
    && (s.stages[c].Fetching? ==>
          && s.stages[c].task < |s.tasks|
          && s.tasks[s.stages[c].task].key == call.key.1
          && s.tasks[s.stages[c].task].origin == Some(c))
  }

  ghost predicate CacheOk(config: Config, cache: seq<Lru.Item>) {
    forall i :: 0 <= i < |cache| ==> config.source(cache[i].key) == Ok(cache[i].value)
  }

  ghost predicate Inv(config: Config, s: State) {
    && SF.Inv(s.flights)
    && |s.stages| == |s.flights.calls|
    && s.caches.Keys == config.peers.Keys
    && (forall t :: 0 <= t < |s.tasks| ==> TaskOk(config, s, t))
    && (forall c :: 0 <= c < |s.stages| ==> CallOk(config, s, c))
    && (forall node :: node in s.caches ==> CacheOk(config, s.caches[node]))
  }

  /** Every node was given every node, in whatever order. */
  ghost predicate SamePeers(config: Config) {
    forall node :: node in config.peers ==> CH.SetOf(config.peers[node]) == config.peers.Keys
  }

  /** And no two nodes' virtual nodes collide. An empty address does not matter: nothing is forwarded to it. */
  ghost predicate Agreement(config: Config) {
    SamePeers(config) && CH.NoCollision(config.hash, DEFAULT_REPLICAS, config.peers.Keys - {""})
  }

  /** With agreement a key is forwarded only to its owner, which is a node and keeps it. */
  lemma OwnerKeeps(config: Config, node: string, key: string)
    requires Agreement(config) && node in config.peers && PickAt(config, node, key).Some?
    ensures PickAt(config, node, key).value in config.peers
    ensures PickAt(config, PickAt(config, node, key).value, key) == None
  {
    var owner := PickAt(config, node, key).value;
    assert node in CH.SetOf(config.peers[node]);
    CH.LookupIsPeer(config.hash, DEFAULT_REPLICAS, config.peers[node], config.hash(key));
    assert owner in CH.SetOf(config.peers[node]);
    CH.OwnersShare(config.hash, DEFAULT_REPLICAS, config.peers[node], config.peers[owner], config.hash(key));
  }

  // ---------- preservation ----------

  /** Tasks keep their identity, and flights theirs. */
  ghost predicate Grows(s: State, s': State) {
    && |s.tasks| <= |s'.tasks|
    && (forall t :: 0 <= t < |s.tasks| ==> SameTask(s.tasks[t], s'.tasks[t]))
    && SF.Extends(s.flights, s'.flights)
  }

  ghost predicate SameTask(task: Task, task': Task) {
    task'.node == task.node && task'.key == task.key && task'.origin == task.origin
  }

  lemma TaskKept(config: Config, s: State, s': State, t: nat)
    requires Grows(s, s') && t < |s.tasks| && s'.tasks[t] == s.tasks[t] && TaskOk(config, s, t)
    ensures TaskOk(config, s', t)
  {
  }

  lemma CallKept(config: Config, s: State, s': State, c: nat)
    requires Grows(s, s') && c < |s.stages| && c < |s.flights.calls| && c < |s'.stages|
    requires s'.stages[c] == s.stages[c] && s'.flights.calls[c].result == s.flights.calls[c].result
    requires CallOk(config, s, c)
    ensures CallOk(config, s', c)
  {
  }

  /** Only one task, which may be new, and caches change. */
  lemma TaskSet(config: Config, s: State, s': State, t: nat)
    requires Inv(config, s) && t < |s'.tasks|
    requires s'.flights == s.flights && s'.stages == s.stages && Grows(s, s')
    requires forall u :: 0 <= u < |s'.tasks| && u != t ==> u < |s.tasks| && s'.tasks[u] == s.tasks[u]
    requires TaskOk(config, s', t)
    requires s'.caches.Keys == s.caches.Keys && forall node :: node in s'.caches ==> CacheOk(config, s'.caches[node])
    ensures Inv(config, s')
  {
    forall u | 0 <= u < |s'.tasks| ensures TaskOk(config, s', u) {
      if u != t {
        assert s'.tasks[u] == s.tasks[u] && TaskOk(config, s, u);
        TaskKept(config, s, s', u);
      }
    }
    forall c | 0 <= c < |s.stages| ensures CallOk(config, s', c) {
      CallKept(config, s, s', c);
    }
  }

  /** The steps of a task that leave the flights alone. */
  lemma TaskStepKeeps(config: Config, s: State, step: Step)
    requires Inv(config, s) && Enabled(config, s, step)
    requires step.Get? || step.CacheLookup? || step.Leave?
    ensures Inv(config, Apply(config, s, step))
  {
    var s' := Apply(config, s, step);
    if step.Get? {
      TaskSet(config, s, s', |s.tasks|);
    } else {
      assert TaskOk(config, s, step.t);
      if step.Leave? {
        ResultCorrect(config, s, s.tasks[step.t].phase.caller);
      }
      TaskSet(config, s, s', step.t);
    }
  }

  lemma ResultCorrect(config: Config, s: State, i: nat)
    requires Inv(config, s) && Result(s, i).Some?
    ensures Result(s, i).value == config.source(s.flights.callers[i].key.1) && s.flights.callers[i].key.1 != ""
  {
    assert SF.CallerOk(s.flights, i);
    assert CallOk(config, s, s.flights.callers[i].phase.call);
  }

  lemma {:induction false} JoinKeeps(config: Config, s: State, t: nat)
    requires Inv(config, s) && Enabled(config, s, Join(t))
    ensures Inv(config, Apply(config, s, Join(t)))
  {
    var s' := Apply(config, s, Join(t));
    var enter: SF.Step<(string, string), Answer> := SF.Enter((s.tasks[t].node, s.tasks[t].key));
    SF.Preserved(s.flights, enter);
    SF.StepExtends(s.flights, enter);
    assert TaskOk(config, s, t);
    forall u | 0 <= u < |s'.tasks| ensures TaskOk(config, s', u) {
      if u != t {
        TaskKept(config, s, s', u);
      }
    }
    forall c | 0 <= c < |s'.stages| ensures CallOk(config, s', c) {
      if c < |s.stages| {
        CallKept(config, s, s', c);
      }
    }
  }

  /** Only the stage of one flight and the list of tasks change, the latter by growing. */
  lemma StageSet(config: Config, s: State, s': State, c: nat)
    requires Inv(config, s) && c < |s.stages|
    requires s'.flights == s.flights && |s'.stages| == |s.stages|
    requires forall d :: 0 <= d < |s.stages| && d != c ==> s'.stages[d] == s.stages[d]
    requires s.tasks <= s'.tasks
    requires forall t :: |s.tasks| <= t < |s'.tasks| ==> TaskOk(config, s', t)
    requires CallOk(config, s', c)
    requires s'.caches.Keys == s.caches.Keys && forall node :: node in s'.caches ==> CacheOk(config, s'.caches[node])
    ensures Inv(config, s')
  {
    forall t | 0 <= t < |s'.tasks| ensures TaskOk(config, s', t) {
      if t < |s.tasks| {
        TaskKept(config, s, s', t);
      }
    }
    forall d | 0 <= d < |s.stages| ensures CallOk(config, s', d) {
      if d != c {
        CallKept(config, s, s', d);
      }
    }
  }

  lemma PickKeeps(config: Config, s: State, c: nat)
    requires Inv(config, s) && Enabled(config, s, PickPeer(c))
    ensures Inv(config, Apply(config, s, PickPeer(c)))
  {
    assert CallOk(config, s, c);
    StageSet(config, s, Apply(config, s, PickPeer(c)), c);
  }

  lemma FetchKeeps(config: Config, s: State, step: Step)
    requires Inv(config, s) && Enabled(config, s, step) && (step.FetchOk? || step.FetchError? || step.FetchLost?)
    ensures Inv(config, Apply(config, s, step))
  {
    assert CallOk(config, s, step.c) && TaskOk(config, s, s.stages[step.c].task);
    StageSet(config, s, Apply(config, s, step), step.c);
  }

  lemma SourceKeeps(config: Config, s: State, c: nat)
    requires Inv(config, s) && Enabled(config, s, Source(c))
    ensures Inv(config, Apply(config, s, Source(c)))
  {
    var (node, key) := s.flights.calls[c].key;
    var s' := Apply(config, s, Source(c));
    assert CallOk(config, s, c);
    if config.source(key).Ok? {
      CacheGrows(config, s.caches[node], key, config.cacheBytes(node));
    }
    StageSet(config, s, s', c);
  }

  lemma CacheGrows(config: Config, cache: seq<Lru.Item>, key: string, maxBytes: nat)
    requires CacheOk(config, cache) && config.source(key).Ok?
    ensures CacheOk(config, Lru.Trim(maxBytes, Lru.Put(cache, key, config.source(key).value)))
  {
    var put := Lru.Put(cache, key, config.source(key).value);
    Lru.TrimIsLongestFit(maxBytes, put);
    assert forall i :: 0 <= i < |Lru.Trim(maxBytes, put)| ==> Lru.Trim(maxBytes, put)[i] == put[i];
  }

  lemma {:induction false} FlightStepKeeps(config: Config, s: State, step: Step)
    requires Inv(config, s) && Enabled(config, s, step) && (step.FnReturn? || step.Inner?)
    ensures Inv(config, Apply(config, s, step))
  {
    var s' := Apply(config, s, step);
    var inner := if step.FnReturn? then Finish(s, step.c) else step.inner;
    SF.Preserved(s.flights, inner);
    SF.StepExtends(s.flights, inner);
    forall t | 0 <= t < |s.tasks| ensures TaskOk(config, s', t) {
      TaskKept(config, s, s', t);
    }
    if step.FnReturn? {
      assert SF.CallOk(s.flights, step.c);
    }
    forall c | 0 <= c < |s.stages| ensures CallOk(config, s', c) {
      assert CallOk(config, s, c);
      if !(step.FnReturn? && c == step.c) {
        CallKept(config, s, s', c);
      }
    }
  }

  lemma {:induction false} Preserved(config: Config, s: State, step: Step)
    requires Inv(config, s) && Enabled(config, s, step)
    ensures Inv(config, Apply(config, s, step))
  {
    match step
    case Get(_, _) => TaskStepKeeps(config, s, step);
    case CacheLookup(_) => TaskStepKeeps(config, s, step);
    case Leave(_) => TaskStepKeeps(config, s, step);
    case Join(t) => JoinKeeps(config, s, t);
    case FnReturn(_) => FlightStepKeeps(config, s, step);
    case Inner(_) => FlightStepKeeps(config, s, step);
    case PickPeer(c) => PickKeeps(config, s, c);
    case Source(c) => SourceKeeps(config, s, c);
    case _ => FetchKeeps(config, s, step);
  }

  // ---------- runs ----------

  ghost predicate Init(config: Config, s: State) {
    && s.tasks == [] && s.flights == SF.Empty() && s.stages == []
    && s.caches.Keys == config.peers.Keys
    && forall node :: node in s.caches ==> s.caches[node] == []
  }

  ghost predicate StepAt(config: Config, run: seq<State>, i: nat)
    requires i < |run| - 1
  {
    exists step :: Enabled(config, run[i], step) && run[i + 1] == Apply(config, run[i], step)
  }

  ghost predicate IsRun(config: Config, run: seq<State>) {
    && |run| > 0
    && Init(config, run[0])
    && forall i :: 0 <= i < |run| - 1 ==> StepAt(config, run, i)
  }

  lemma {:induction false} Reached(config: Config, run: seq<State>, i: nat)
    requires IsRun(config, run) && i < |run|
    ensures Inv(config, run[i])
  {
    if i > 0 {
      Reached(config, run, i - 1);
      assert StepAt(config, run, i - 1);
      var step :| Enabled(config, run[i - 1], step) && run[i] == Apply(config, run[i - 1], step);
      Preserved(config, run[i - 1], step);
    }
  }

  // ---------- what the cluster promises ----------

  /** Whoever asks, wherever, whatever is interleaved, evicted or unreachable, and even if the nodes disagree about who
      owns what: the answer is the source's own value or error. */
  lemma AnswersAreCorrect(config: Config, run: seq<State>, i: nat, t: nat)
    requires IsRun(config, run) && i < |run| && t < |run[i].tasks| && run[i].tasks[t].phase.Done?
    ensures run[i].tasks[t].phase.answer == Correct(config, run[i].tasks[t].key)
  {
    Reached(config, run, i);
    assert TaskOk(config, run[i], t);
  }

  /** A key is forwarded at most once, and only to its owner: where a forwarded request arrives, the flight it leads or
      joins never asks anybody else; and nobody who waits for a forwarding flight was itself forwarded. */
  lemma AtMostOneHop(config: Config, run: seq<State>, i: nat, t: nat, c: nat)
    requires Agreement(config) && IsRun(config, run) && i < |run| && t < |run[i].tasks| && c < |run[i].stages|
    requires run[i].tasks[t].origin.Some?
    ensures run[i].tasks[t].node in config.peers && PickAt(config, run[i].tasks[t].node, run[i].tasks[t].key) == None
    ensures run[i].tasks[t].origin.value < |run[i].flights.calls|
      && run[i].flights.calls[run[i].tasks[t].origin.value].key.0 != run[i].tasks[t].node
    ensures |run[i].stages| == |run[i].flights.calls|
      && (run[i].flights.calls[c].key == (run[i].tasks[t].node, run[i].tasks[t].key) ==> !run[i].stages[c].Fetching?)
  {
    var s := run[i];
    Reached(config, run, i);
    assert TaskOk(config, s, t);
    OwnerKeeps(config, s.flights.calls[s.tasks[t].origin.value].key.0, s.tasks[t].key);
    if s.stages[c].Fetching? {
      FetchingForwards(config, s, c);
    }
  }

  lemma FetchingForwards(config: Config, s: State, c: nat)
    requires Inv(config, s) && c < |s.stages| && s.stages[c].Fetching?
    ensures s.flights.calls[c].key.0 in config.peers
    ensures PickAt(config, s.flights.calls[c].key.0, s.flights.calls[c].key.1).Some?
  {
    assert CallOk(config, s, c);
    assert TaskOk(config, s, s.stages[c].task);
  }

  /** The flight a task inside Do is waiting for. */
  function FlightOf(s: State, t: nat): (c: nat)
    requires t < |s.tasks| && s.tasks[t].phase.Joined? && s.tasks[t].phase.caller < |s.flights.callers|
  {
    s.flights.callers[s.tasks[t].phase.caller].phase.call
  }

  /** Flight c waits for an unfinished task at another node. */
  predicate Awaiting(s: State, c: nat)
    requires c < |s.stages|
  {
    s.stages[c].Fetching? && s.stages[c].task < |s.tasks| && !s.tasks[s.stages[c].task].phase.Done?
  }

  predicate ForSameKey(s: State, t: nat, c: nat)
    requires t < |s.tasks| && c < |s.flights.calls|
  {
    s.flights.calls[c].key == (s.tasks[t].node, s.tasks[t].key)
  }

  /** A flight that is not through always has a step to take, once what it fetches from, if anything, is done. */
  lemma FlightMoves(config: Config, s: State, c: nat) returns (step: Step)
    requires Inv(config, s) && c < |s.stages|
    requires !s.flights.calls[c].released && !Awaiting(s, c)
    ensures Enabled(config, s, step) && !step.Get? && !step.FetchLost?
  {
    assert CallOk(config, s, c) && SF.CallOk(s.flights, c);
    var leader := s.flights.calls[c].leader;
    assert SF.CallerOk(s.flights, leader);
    if s.flights.callers[leader].phase.Ran? {
      step := Inner(SF.WgDone(leader));
    } else {
      match s.stages[c]
      case Picking => step := PickPeer(c);
      case Fetching(t) => step := if s.tasks[t].phase.answer.Ok? then FetchOk(c) else FetchError(c);
      case Local => step := Source(c);
      case Loaded(_) => step := FnReturn(c);
    }
  }

  /** A task that is not done and does not wait for another node has a step to take, or its flight has. */
  lemma TaskMoves(config: Config, s: State, t: nat) returns (step: Step)
    requires Inv(config, s) && t < |s.tasks| && !s.tasks[t].phase.Done? && s.tasks[t].node in config.peers
    requires forall c :: 0 <= c < |s.stages| && ForSameKey(s, t, c) ==> !Awaiting(s, c)
    ensures Enabled(config, s, step) && !step.Get? && !step.FetchLost?
  {
    assert TaskOk(config, s, t);
    match s.tasks[t].phase
    case Start => step := CacheLookup(t);
    case Missed => step := Join(t);
    case Joined(i) =>
      assert SF.CallerOk(s.flights, i);
      var c := FlightOf(s, t);
      assert SF.CallOk(s.flights, c) && CallOk(config, s, c);
      if !s.flights.calls[c].released {
        step := FlightMoves(config, s, c);
      } else if s.flights.callers[i].phase.Returned? {
        step := Leave(t);
      } else if s.flights.callers[i].phase.Waiting? {
        step := Inner(SF.Wake(i));
      } else {
        step := Inner(SF.Delete(i));
      }
  }

  lemma TaskNode(config: Config, s: State, t: nat)
    requires Agreement(config) && t < |s.tasks| && TaskOk(config, s, t)
    ensures s.tasks[t].node in config.peers
  {
    if s.tasks[t].origin.Some? {
      OwnerKeeps(config, s.flights.calls[s.tasks[t].origin.value].key.0, s.tasks[t].key);
    }
  }

  /** No deadlock: while some Get is unfinished, a step other than a new Get or a network failure can be taken. This
      is where forwarding cycles would show. */
  lemma NotStuck(config: Config, run: seq<State>, i: nat, t: nat)
    requires Agreement(config) && IsRun(config, run) && i < |run| && t < |run[i].tasks| && !run[i].tasks[t].phase.Done?
    ensures exists step :: Enabled(config, run[i], step) && !step.Get? && !step.FetchLost?
  {
    var s := run[i];
    Reached(config, run, i);
    if c :| 0 <= c < |s.stages| && ForSameKey(s, t, c) && Awaiting(s, c) {
      assert CallOk(config, s, c);
      var u := s.stages[c].task;
      forall d | 0 <= d < |s.stages| && ForSameKey(s, u, d) ensures !Awaiting(s, d) {
        AtMostOneHop(config, run, i, u, d);
      }
      TaskNode(config, s, u);
      var step := TaskMoves(config, s, u);
    } else {
      TaskNode(config, s, t);
      var step := TaskMoves(config, s, t);
    }
  }

  /** Agreement cannot be dropped: if virtual nodes of two peers collide, those two can be given all peers in orders
      that make them forward one and the same key to each other. */
  lemma ForwardingCycle(hash: string -> nat, nodes: set<string>)
    returns (a: string, b: string, key: string, xs: seq<string>, ys: seq<string>)
    requires !CH.NoCollision(hash, DEFAULT_REPLICAS, nodes - {""})
    ensures a in nodes && b in nodes && a != b && key != "" && CH.SetOf(xs) == CH.SetOf(ys) == nodes
    ensures Pick(hash, a, xs, key) == Some(b) && Pick(hash, b, ys, key) == Some(a)
  {
    a, b :| a in nodes - {""} && b in nodes - {""} && a != b
            && !(CH.Points(hash, DEFAULT_REPLICAS, a) !! CH.Points(hash, DEFAULT_REPLICAS, b));
    var h :| h in CH.Points(hash, DEFAULT_REPLICAS, a) && h in CH.Points(hash, DEFAULT_REPLICAS, b);
    var i: nat :| i < DEFAULT_REPLICAS && hash(CH.VirtualNode(i, a)) == h;
    key := CH.VirtualNode(i, a);
    xs, ys := CH.CollisionOrders(hash, DEFAULT_REPLICAS, nodes, a, b, i);
  }

  // ---------- termination ----------

  ghost predicate Forwards(config: Config, node: string, key: string) {
    node in config.peers && PickAt(config, node, key).Some?
  }

  /** An upper bound on the steps a task in this phase still has to take, with those of a flight it may have to lead. */
  ghost function TaskWeight(config: Config, task: Task): nat {
    match task.phase
    case Start => if Forwards(config, task.node, task.key) then 17 else 8
    case Missed => if Forwards(config, task.node, task.key) then 16 else 7
    case Joined(_) => 1
    case Done(_) => 0
  }

  /** The same for the function run by a flight's leader; asking another node includes what happens there. */
  ghost function StageWeight(config: Config, node: string, key: string, stage: Stage): nat {
    match stage
    case Picking => if Forwards(config, node, key) then 11 else 2
    case Fetching(_) => 2
    case Local => 1
    case Loaded(_) => 0
  }

  ghost function TaskWeights(config: Config, s: State): seq<nat> {
    seq(|s.tasks|, t requires 0 <= t < |s.tasks| => TaskWeight(config, s.tasks[t]))
  }

  ghost function StageWeights(config: Config, s: State): seq<nat>
    requires |s.stages| == |s.flights.calls|
  {
    seq(|s.stages|, c requires 0 <= c < |s.stages| =>
      StageWeight(config, s.flights.calls[c].key.0, s.flights.calls[c].key.1, s.stages[c]))
  }

  ghost function Measure(config: Config, s: State): nat
    requires |s.stages| == |s.flights.calls|
  {
    Sum(TaskWeights(config, s)) + Sum(StageWeights(config, s)) + SF.Remaining(s.flights.callers)
  }

  /** Every step but a new Get brings the cluster closer to rest, even with failures; so, with NotStuck, every Get is
      answered once no new ones arrive. */
  lemma {:induction false} StepsCloser(config: Config, s: State, step: Step)
    requires Agreement(config) && Inv(config, s) && Enabled(config, s, step) && !step.Get?
    ensures |Apply(config, s, step).stages| == |Apply(config, s, step).flights.calls|
    ensures Measure(config, Apply(config, s, step)) < Measure(config, s)
  {
    Preserved(config, s, step);
    match step
    case CacheLookup(t) => TaskCloser(config, s, step, t);
    case Leave(t) => TaskCloser(config, s, step, t);
    case Join(t) => JoinCloser(config, s, t);
    case PickPeer(c) => PickCloser(config, s, c);
    case FnReturn(c) => FlightCloser(config, s, step);
    case Inner(_) => FlightCloser(config, s, step);
    case FetchOk(c) => StageCloser(config, s, step, c);
    case FetchError(c) => StageCloser(config, s, step, c);
    case FetchLost(c) => StageCloser(config, s, step, c);
    case Source(c) => StageCloser(config, s, step, c);
  }

  lemma TaskCloser(config: Config, s: State, step: Step, t: nat)
    requires Inv(config, s) && Enabled(config, s, step) && (step == CacheLookup(t) || step == Leave(t))
    ensures Measure(config, Apply(config, s, step)) < Measure(config, s)
  {
    var s' := Apply(config, s, step);
    assert TaskWeights(config, s') == TaskWeights(config, s)[t := TaskWeight(config, s'.tasks[t])];
    assert StageWeights(config, s') == StageWeights(config, s);
    SumUpdate(TaskWeights(config, s), t, TaskWeight(config, s'.tasks[t]));
  }

  lemma StageCloser(config: Config, s: State, step: Step, c: nat)
    requires Inv(config, s) && Enabled(config, s, step)
    requires step == FetchOk(c) || step == FetchError(c) || step == FetchLost(c) || step == Source(c)
    ensures Measure(config, Apply(config, s, step)) < Measure(config, s)
  {
    var s' := Apply(config, s, step);
    assert TaskWeights(config, s') == TaskWeights(config, s);
    StageChanged(config, s, s', c);
  }

  lemma PickCloser(config: Config, s: State, c: nat)
    requires Agreement(config) && Inv(config, s) && Enabled(config, s, PickPeer(c))
    ensures Measure(config, Apply(config, s, PickPeer(c))) < Measure(config, s)
  {
    var s' := Apply(config, s, PickPeer(c));
    var (node, key) := s.flights.calls[c].key;
    StageChanged(config, s, s', c);
    if PickAt(config, node, key).Some? {
      OwnerKeeps(config, node, key);
      TaskAdded(config, s, s', s'.tasks[|s.tasks|]);
    } else {
      assert TaskWeights(config, s') == TaskWeights(config, s);
    }
  }

  lemma StageChanged(config: Config, s: State, s': State, c: nat)
    requires |s.stages| == |s.flights.calls| && c < |s.stages| && s'.flights == s.flights
    requires |s'.stages| == |s.stages| && s'.stages == s.stages[c := s'.stages[c]]
    ensures var (node, key) := s.flights.calls[c].key;
      Sum(StageWeights(config, s')) == Sum(StageWeights(config, s))
        - StageWeight(config, node, key, s.stages[c]) + StageWeight(config, node, key, s'.stages[c])
  {
    var (node, key) := s.flights.calls[c].key;
    var x := StageWeight(config, node, key, s'.stages[c]);
    assert StageWeights(config, s') == StageWeights(config, s)[c := x];
    SumUpdate(StageWeights(config, s), c, x);
  }

  lemma TaskAdded(config: Config, s: State, s': State, task: Task)
    requires s'.tasks == s.tasks + [task]
    ensures Sum(TaskWeights(config, s')) == Sum(TaskWeights(config, s)) + TaskWeight(config, task)
  {
    assert TaskWeights(config, s') == TaskWeights(config, s) + [TaskWeight(config, task)];
    SumAppend(TaskWeights(config, s), TaskWeight(config, task));
  }

  lemma JoinCloser(config: Config, s: State, t: nat)
    requires Inv(config, s) && Enabled(config, s, Join(t))
    requires Inv(config, Apply(config, s, Join(t)))
    ensures Measure(config, Apply(config, s, Join(t))) < Measure(config, s)
  {
    var s' := Apply(config, s, Join(t));
    assert TaskWeights(config, s') == TaskWeights(config, s)[t := 1];
    SumUpdate(TaskWeights(config, s), t, 1);
    assert s'.flights.callers[..|s.flights.callers|] == s.flights.callers;
    if |s'.stages| == |s.stages| {
      assert StageWeights(config, s') == StageWeights(config, s);
    } else {
      var x := StageWeight(config, s.tasks[t].node, s.tasks[t].key, Picking);
      assert StageWeights(config, s') == StageWeights(config, s) + [x];
      SumAppend(StageWeights(config, s), x);
    }
  }

  lemma {:induction false} FlightCloser(config: Config, s: State, step: Step)
    requires Inv(config, s) && Enabled(config, s, step) && (step.FnReturn? || step.Inner?)
    requires Inv(config, Apply(config, s, step))
    ensures Measure(config, Apply(config, s, step)) < Measure(config, s)
  {
    var s' := Apply(config, s, step);
    var inner := if step.FnReturn? then Finish(s, step.c) else step.inner;
    SF.StepExtends(s.flights, inner);
    SF.StepsCloser(s.flights, inner);
    assert TaskWeights(config, s') == TaskWeights(config, s);
    assert StageWeights(config, s') == StageWeights(config, s);
  }
}
