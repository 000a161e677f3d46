/** What happens to a cluster in which two nodes forward a key to each other. */
module Deadlock {
  import opened Common
  import opened Cluster
  import opened GeeCache
  import CH = ConsistentHash
  import Lru
  import SF = Singleflight

  /** Some run leads to this state. */
  ghost predicate Reachable(config: Config, s: State) {
    exists run :: RunTo(config, run, s)
  }

  ghost predicate RunTo(config: Config, run: seq<State>, s: State) {
    IsRun(config, run) && run[|run| - 1] == s
  }

  lemma Extend(config: Config, s: State, step: Step, s': State)
    requires Reachable(config, s) && Enabled(config, s, step) && s' == Apply(config, s, step)
    ensures Reachable(config, s')
  {
    var run :| RunTo(config, run, s);
    var longer := run + [s'];
    forall i | 0 <= i < |longer| - 1 ensures StepAt(config, longer, i) {
      var taken := step;
      if i < |run| - 1 {
        assert StepAt(config, run, i);
        taken :| Enabled(config, run[i], taken) && run[i + 1] == Apply(config, run[i], taken);
      }
      assert Enabled(config, longer[i], taken) && longer[i + 1] == Apply(config, longer[i], taken);
    }
    assert RunTo(config, longer, s');
  }

  /** Nothing is cached anywhere. */
  function NoCaches(nodes: set<string>): map<string, seq<Lru.Item>> {
    map node | node in nodes :: []
  }

  /** What a task that is not in the cache does to the flights: it leads one or joins one. */
  function Arrived(s: State, t: nat): State
    requires t < |s.tasks|
  {
    var name := (s.tasks[t].node, s.tasks[t].key);
    SetPhase(s, t, Joined(|s.flights.callers|)).(
      flights := SF.Apply(s.flights, SF.Enter(name)),
      stages := if name in s.flights.m then s.stages else s.stages + [Picking])
  }

  lemma Arrive(config: Config, s: State, t: nat, s': State)
    requires Reachable(config, s) && t < |s.tasks| && s.tasks[t].phase == Start
    requires s.tasks[t].node in config.peers && s.caches == NoCaches(config.peers.Keys)
    requires s' == Arrived(s, t)
    ensures Reachable(config, s')
  {
    var missed := SetPhase(s, t, Missed);
    Extend(config, s, CacheLookup(t), missed);
    Extend(config, missed, Join(t), s');
  }

  /** A Get at a leads a flight that is about to pick a peer. */
  function Led(config: Config, a: string, key: string): State {
    State([Task(a, key, None, Joined(0))],
          SF.Group([SF.Caller((a, key), SF.Running(0))], [SF.Call((a, key), 0, None, false)], map[(a, key) := 0]),
          [Picking], NoCaches(config.peers.Keys))
  }

  /** It asks b, where the request leads a flight in turn. */
  function Asked(config: Config, a: string, b: string, key: string): State {
    State([Task(a, key, None, Joined(0)), Task(b, key, Some(0), Joined(1))],
          SF.Group([SF.Caller((a, key), SF.Running(0)), SF.Caller((b, key), SF.Running(1))],
                   [SF.Call((a, key), 0, None, false), SF.Call((b, key), 1, None, false)],
                   map[(a, key) := 0, (b, key) := 1]),
          [Fetching(1), Picking], NoCaches(config.peers.Keys))
  }

  /** That one asks a, where the request joins the first flight. */
  function Circle(config: Config, a: string, b: string, key: string): State {
    State([Task(a, key, None, Joined(0)), Task(b, key, Some(0), Joined(1)), Task(a, key, Some(1), Joined(2))],
          SF.Group([SF.Caller((a, key), SF.Running(0)), SF.Caller((b, key), SF.Running(1)),
                    SF.Caller((a, key), SF.Waiting(0))],
                   [SF.Call((a, key), 0, None, false), SF.Call((b, key), 1, None, false)],
                   map[(a, key) := 0, (b, key) := 1]),
          [Fetching(1), Fetching(2)], NoCaches(config.peers.Keys))
  }

  lemma LedReached(config: Config, a: string, key: string)
    requires a in config.peers && key != ""
    ensures Reachable(config, Led(config, a, key))
  {
    var s := State([], SF.Empty(), [], NoCaches(config.peers.Keys));
    assert RunTo(config, [s], s);
    var got := s.(tasks := [Task(a, key, None, Start)]);
    Extend(config, s, Get(a, key), got);
    Arrive(config, got, 0, Led(config, a, key));
  }

  lemma AskedReached(config: Config, a: string, b: string, key: string)
    requires a in config.peers && b in config.peers && a != b && key != "" && PickAt(config, a, key) == Some(b)
    ensures Reachable(config, Asked(config, a, b, key))
  {
    var s := Led(config, a, key);
    LedReached(config, a, key);
    var asking := s.(tasks := s.tasks + [Task(b, key, Some(0), Start)], stages := [Fetching(1)]);
    Extend(config, s, PickPeer(0), asking);
    Arrive(config, asking, 1, Asked(config, a, b, key));
  }

  lemma CircleReached(config: Config, a: string, b: string, key: string)
    requires a in config.peers && b in config.peers && a != b && key != ""
    requires PickAt(config, a, key) == Some(b) && PickAt(config, b, key) == Some(a)
    ensures Reachable(config, Circle(config, a, b, key))
  {
    var s := Asked(config, a, b, key);
    AskedReached(config, a, b, key);
    var asking := s.(tasks := s.tasks + [Task(a, key, Some(1), Start)], stages := [Fetching(1), Fetching(2)]);
    Extend(config, s, PickPeer(1), asking);
    Arrive(config, asking, 2, Circle(config, a, b, key));
  }

  /** Gets are unanswered, and nothing can happen but new Gets and network failures. */
  ghost predicate Stuck(config: Config, s: State) {
    && (exists t :: 0 <= t < |s.tasks| && !s.tasks[t].phase.Done?)
    && forall step :: Enabled(config, s, step) ==> step.Get? || step.FetchLost?
  }

  lemma CircleStuck(config: Config, a: string, b: string, key: string, step: Step)
    requires Enabled(config, Circle(config, a, b, key), step)
    ensures step.Get? || step.FetchLost?
  {
  }

  lemma CircleIsStuck(config: Config, a: string, b: string, key: string)
    ensures Stuck(config, Circle(config, a, b, key))
  {
    var s := Circle(config, a, b, key);
    assert !s.tasks[0].phase.Done?;
    forall step | Enabled(config, s, step) ensures step.Get? || step.FetchLost? {
      CircleStuck(config, a, b, key, step);
    }
  }

  /** Two nodes that forward a key to each other can deadlock. */
  lemma MutualForwardingDeadlocks(config: Config, a: string, b: string, key: string)
    requires a in config.peers && b in config.peers && a != b && key != ""
    requires PickAt(config, a, key) == Some(b) && PickAt(config, b, key) == Some(a)
    ensures exists s :: Reachable(config, s) && Stuck(config, s)
  {
    CircleReached(config, a, b, key);
    CircleIsStuck(config, a, b, key);
  }

  /** Some way of giving every node all the nodes, each in an order of its own, lets a run end in a deadlock. */
  ghost predicate CanDeadlock(hash: string -> nat, source: string -> Answer, cacheBytes: string -> nat,
                              nodes: set<string>)
  {
    exists config: Config, s :: Deadlocked(config, s)
      && config.hash == hash && config.source == source && config.cacheBytes == cacheBytes && config.peers.Keys == nodes
  }

  ghost predicate Deadlocked(config: Config, s: State) {
    SamePeers(config) && Reachable(config, s) && Stuck(config, s)
  }

  lemma CollisionDeadlocks(hash: string -> nat, source: string -> Answer, cacheBytes: string -> nat,
                           nodes: set<string>)
    requires !CH.NoCollision(hash, DEFAULT_REPLICAS, nodes - {""})
    ensures CanDeadlock(hash, source, cacheBytes, nodes)
  {
    var a, b, key, xs, ys := ForwardingCycle(hash, nodes);
    var config := Config(hash, Orders(nodes, a, xs, ys), source, cacheBytes);
    MutualForwardingDeadlocks(config, a, b, key);
    var s :| Reachable(config, s) && Stuck(config, s);
    assert Deadlocked(config, s);
  }

  /** One node gets one list of peers, all others another one. */
  function Orders(nodes: set<string>, a: string, xs: seq<string>, ys: seq<string>): (peers: map<string, seq<string>>)
    ensures peers.Keys == nodes && forall node :: node in peers ==> peers[node] == if node == a then xs else ys
  {
    map node | node in nodes :: if node == a then xs else ys
  }

  lemma NeverDeadlocked(config: Config, s: State)
    requires CH.NoCollision(config.hash, DEFAULT_REPLICAS, config.peers.Keys - {""})
    ensures !Deadlocked(config, s)
  {
    if Deadlocked(config, s) {
      var run :| RunTo(config, run, s);
      var t :| 0 <= t < |s.tasks| && !s.tasks[t].phase.Done?;
      NotStuck(config, run, |run| - 1, t);
    }
  }

  /** Whatever the hash, the data source and the cache sizes, nodes that know the same peers are safe from deadlock
      exactly if no two of them have virtual nodes that collide. */
  lemma DeadlockFree(hash: string -> nat, source: string -> Answer, cacheBytes: string -> nat,
                     nodes: set<string>)
    ensures CH.NoCollision(hash, DEFAULT_REPLICAS, nodes - {""}) <==> !CanDeadlock(hash, source, cacheBytes, nodes)
  {
    if !CH.NoCollision(hash, DEFAULT_REPLICAS, nodes - {""}) {
      CollisionDeadlocks(hash, source, cacheBytes, nodes);
    } else if CanDeadlock(hash, source, cacheBytes, nodes) {
      var config: Config, s :| Deadlocked(config, s) && config.hash == hash && config.peers.Keys == nodes;
      NeverDeadlocked(config, s);
    }
  }

  /** Agreeing on the set of peers is therefore not enough: names exist that deadlock under every hash. */
  lemma OrderOfPeersMatters(hash: string -> nat, source: string -> Answer,
                            cacheBytes: string -> nat, name: string)
    requires name != ""
    ensures CanDeadlock(hash, source, cacheBytes, {name, "1" + name})
  {
    var nodes := {name, "1" + name};
    CH.NamesCollide(hash, DEFAULT_REPLICAS, name);
    assert nodes - {""} == nodes;
    DeadlockFree(hash, source, cacheBytes, nodes);
  }
}
