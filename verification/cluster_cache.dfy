/** What the nodes of the cluster have in their caches, over whole runs. */
module ClusterCache {
  import opened Common
  import opened Cluster
  import opened GeeCache
  import CH = ConsistentHash
  import Lru
  import R = LruResidency
  import SF = Singleflight

  predicate HasKey(cache: seq<Lru.Item>, key: string) {
    exists i :: 0 <= i < |cache| && cache[i].key == key
  }

  // ---------- lookups ----------

  /** A lookup is answered from the cache, with the source's value, exactly if the key is there; it then is the most
      recent one. Otherwise the caches stay as they are. */
  lemma LookupAnswers(config: Config, s: State, t: nat)
    requires Inv(config, s) && Enabled(config, s, CacheLookup(t))
    ensures var s', node, key := Apply(config, s, CacheLookup(t)), s.tasks[t].node, s.tasks[t].key;
      if HasKey(s.caches[node], key) then
        && s'.tasks[t].phase == Done(config.source(key))
        && s'.caches[node] != [] && s'.caches[node][0] == Lru.Item(key, config.source(key).value)
      else
        s'.tasks[t].phase == Missed && s'.caches == s.caches
  {
    var cache := s.caches[s.tasks[t].node];
    assert CacheOk(config, cache);
    if Lru.Find(cache, s.tasks[t].key).Some? {
      var i := Lru.Find(cache, s.tasks[t].key).value;
      assert config.source(cache[i].key) == Ok(cache[i].value);
    }
  }

  lemma GotKeys(cache: seq<Lru.Item>, key: string, k: string)
    ensures HasKey(Lru.Got(cache, key), k) <==> HasKey(cache, k)
  {
    if Lru.Find(cache, key).Some? {
      var i, moved := Lru.Find(cache, key).value, Lru.Got(cache, key);
      if HasKey(cache, k) {
        var n :| 0 <= n < |cache| && cache[n].key == k;
        assert moved[if n == i then 0 else if n < i then n + 1 else n].key == k;
      }
    }
  }

  // ---------- loading ----------

  /** Source(c) was taken at this point of the run, at this node. */
  ghost predicate SourcedAt(config: Config, run: seq<State>, k: nat, node: string) {
    k < |run| - 1 && Sourced(config, run[k], run[k + 1], node)
  }

  ghost predicate Sourced(config: Config, s: State, s': State, node: string) {
    exists c: nat :: SourceBy(config, s, s', c, node)
  }

  ghost predicate SourceBy(config: Config, s: State, s': State, c: nat, node: string) {
    Enabled(config, s, Source(c)) && s.flights.calls[c].key.0 == node && s' == Apply(config, s, Source(c))
  }

  /** The node's own source was asked for the flight's key: the flight has its answer, and a value is in the cache
      afterwards, in place of an older one or as the most recent, exactly if it fits with the items ahead of it. */
  lemma SourceFills(config: Config, run: seq<State>, i: nat, c: nat)
    requires IsRun(config, run) && i < |run| && Enabled(config, run[i], Source(c))
    ensures var s := run[i]; var s', (node, key) := Apply(config, s, Source(c)), s.flights.calls[c].key;
      && s'.stages[c] == Loaded(config.source(key))
      && (forall other :: other in s.caches && other != node ==> s'.caches[other] == s.caches[other])
      && match config.source(key)
         case Err(_) => s'.caches == s.caches
         case Ok(v) =>
           HasKey(s'.caches[node], key) <==> Lru.Fits(config.cacheBytes(node), R.UpTo(s.caches[node], key, v))
  {
    var s := run[i];
    var (node, key) := s.flights.calls[c].key;
    OneItemEach(config, run, i, node);
    if config.source(key).Ok? {
      R.SetStays(config.cacheBytes(node), s.caches[node], key, config.source(key).value);
    }
  }

  lemma {:induction false} OneItemEach(config: Config, run: seq<State>, i: nat, node: string)
    requires IsRun(config, run) && i < |run| && node in run[i].caches
    ensures Lru.KeysDistinct(run[i].caches[node])
  {
    if i > 0 {
      var s := run[i - 1];
      Reached(config, run, i - 1);
      assert StepAt(config, run, i - 1);
      var step :| Enabled(config, s, step) && run[i] == Apply(config, s, step);
      OneItemEach(config, run, i - 1, node);
      StepDistinct(config, s, step, node);
    }
  }

  lemma StepDistinct(config: Config, s: State, step: Step, node: string)
    requires Inv(config, s) && Enabled(config, s, step) && node in s.caches && Lru.KeysDistinct(s.caches[node])
    ensures node in Apply(config, s, step).caches && Lru.KeysDistinct(Apply(config, s, step).caches[node])
  {
    if step.CacheLookup? {
      GotDistinct(s.caches[node], s.tasks[step.t].key);
    } else if step.Source? {
      var key := s.flights.calls[step.c].key.1;
      if config.source(key).Ok? {
        PutDistinct(config.cacheBytes(node), s.caches[node], key, config.source(key).value);
      }
    }
  }

  lemma GotDistinct(cache: seq<Lru.Item>, key: string)
    requires Lru.KeysDistinct(cache)
    ensures Lru.KeysDistinct(Lru.Got(cache, key))
  {
  }

  lemma PutDistinct(maxBytes: nat, cache: seq<Lru.Item>, key: string, value: Lru.Bytes)
    requires Lru.KeysDistinct(cache)
    ensures Lru.KeysDistinct(Lru.Trim(maxBytes, Lru.Put(cache, key, value)))
  {
    R.PutDistinct(cache, key, value);
    Lru.TrimIsLongestFit(maxBytes, Lru.Put(cache, key, value));
  }

  /** Any other step leaves the keys in a node's cache as they are. */
  lemma StepHolds(config: Config, s: State, step: Step, node: string, key: string)
    requires Inv(config, s) && Enabled(config, s, step) && node in s.caches
    requires !SourceBy(config, s, Apply(config, s, step), if step.Source? then step.c else 0, node)
    ensures node in Apply(config, s, step).caches
    ensures HasKey(Apply(config, s, step).caches[node], key) <==> HasKey(s.caches[node], key)
  {
    if step.CacheLookup? {
      GotKeys(s.caches[s.tasks[step.t].node], s.tasks[step.t].key, key);
    }
  }

  /** Between two loads from the source at a node no key enters or leaves its cache. */
  lemma {:induction false} HeldUntilSourced(config: Config, run: seq<State>, i: nat, j: nat, node: string, key: string)
    requires IsRun(config, run) && i <= j < |run| && node in config.peers
    requires forall k :: i <= k < j ==> !SourcedAt(config, run, k, node)
    ensures node in run[i].caches && node in run[j].caches
    ensures HasKey(run[j].caches[node], key) <==> HasKey(run[i].caches[node], key)
    decreases j - i
  {
    Reached(config, run, i);
    if i < j {
      assert StepAt(config, run, i) && !SourcedAt(config, run, i, node);
      var step :| Enabled(config, run[i], step) && run[i + 1] == Apply(config, run[i], step);
      StepHolds(config, run[i], step, node, key);
      HeldUntilSourced(config, run, i + 1, j, node, key);
    }
  }

  // ---------- who loads, and where ----------

  /** The answer of the peer that flight c asked for the node and key did not arrive. */
  ghost predicate LostAt(config: Config, run: seq<State>, k: nat, c: nat, name: (string, string)) {
    && k < |run| - 1
    && Enabled(config, run[k], FetchLost(c)) && !Enabled(config, run[k], FetchError(c))
    && run[k].flights.calls[c].key == name
    && run[k + 1] == Apply(config, run[k], FetchLost(c))
  }

  /** Why a flight asks its own node's source. */
  ghost predicate MayLoad(config: Config, run: seq<State>, i: nat, c: nat, node: string, key: string)
    requires node in config.peers
  {
    || PickAt(config, node, key) == None
    || config.source(key).Err?
    || exists k :: 0 <= k < i && LostAt(config, run, k, c, (node, key))
  }

  /** Because the node picks nobody for the key, because the source itself has an error for it, or because an answer of
      the peer got lost. */
  lemma {:induction false} OwnSource(config: Config, run: seq<State>, i: nat, c: nat)
    requires IsRun(config, run) && i < |run| && c < |run[i].stages| && run[i].stages[c].Local?
    ensures c < |run[i].flights.calls| && run[i].flights.calls[c].key.0 in config.peers
    ensures MayLoad(config, run, i, c, run[i].flights.calls[c].key.0, run[i].flights.calls[c].key.1)
  {
    Reached(config, run, i);
    assert CallOk(config, run[i], c);
    var (node, key) := run[i].flights.calls[c].key;
    if i > 0 {
      var s, s' := run[i - 1], run[i];
      Reached(config, run, i - 1);
      assert StepAt(config, run, i - 1);
      var step :| Enabled(config, s, step) && s' == Apply(config, s, step);
      StageMoves(config, s, step, c);
      if s.stages[c].Local? {
        OwnSource(config, run, i - 1, c);
      } else if step.FetchError? {
        PeerFailed(config, s, c);
      } else if step.FetchLost? {
        if Enabled(config, s, FetchError(c)) {
          PeerFailed(config, s, c);
        } else {
          assert LostAt(config, run, i - 1, c, (node, key));
        }
      }
    }
  }

  /** How a flight comes to ask its own node's source. */
  lemma StageMoves(config: Config, s: State, step: Step, c: nat)
    requires Inv(config, s) && Enabled(config, s, step)
    requires c < |Apply(config, s, step).stages| && Apply(config, s, step).stages[c].Local?
    ensures c < |s.stages| && c < |Apply(config, s, step).flights.calls|
    ensures Apply(config, s, step).flights.calls[c].key == s.flights.calls[c].key
    ensures s.stages[c].Local? || step == FetchError(c) || step == FetchLost(c)
      || (step == PickPeer(c) && PickAt(config, s.flights.calls[c].key.0, s.flights.calls[c].key.1) == None)
  {
    if step.Join? {
      var enter: SF.Step<(string, string), Answer> := SF.Enter((s.tasks[step.t].node, s.tasks[step.t].key));
      SF.StepExtends(s.flights, enter);
    } else if step.FnReturn? {
      SF.StepExtends(s.flights, Finish(s, step.c));
    } else if step.Inner? {
      SF.StepExtends(s.flights, step.inner);
    }
  }

  lemma PeerFailed(config: Config, s: State, c: nat)
    requires Inv(config, s) && Enabled(config, s, FetchError(c))
    ensures config.source(s.flights.calls[c].key.1).Err?
  {
    assert CallOk(config, s, c) && TaskOk(config, s, s.stages[c].task);
  }

  /** No answer for this key got lost. */
  ghost predicate NoneLost(config: Config, run: seq<State>, key: string) {
    forall k: nat, c: nat, node :: !LostAt(config, run, k, c, (node, key))
  }

  lemma PutKeys(maxBytes: nat, cache: seq<Lru.Item>, key: string, value: Lru.Bytes, k: string)
    requires HasKey(Lru.Trim(maxBytes, Lru.Put(cache, key, value)), k)
    ensures HasKey(cache, k) || k == key
  {
    var put := Lru.Put(cache, key, value);
    Lru.TrimIsLongestFit(maxBytes, put);
    var i :| 0 <= i < |Lru.Trim(maxBytes, put)| && Lru.Trim(maxBytes, put)[i].key == k;
    assert put[i].key == k;
    if k != key {
      assert cache[if Lru.Find(cache, key).None? then i - 1 else i].key == k;
    }
  }

  /** A key enters a cache only with a value from the source. */
  lemma NewKey(config: Config, s: State, c: nat, node: string, key: string)
    requires Inv(config, s) && Enabled(config, s, Source(c)) && node in s.caches && !HasKey(s.caches[node], key)
    requires HasKey(Apply(config, s, Source(c)).caches[node], key)
    ensures s.flights.calls[c].key == (node, key) && config.source(key).Ok?
  {
    var name := s.flights.calls[c].key;
    if config.source(name.1).Ok? && name.0 == node {
      PutKeys(config.cacheBytes(node), s.caches[node], name.1, config.source(name.1).value, key);
    }
  }

  /** Unless an answer for it got lost, a key is only ever in the caches of nodes that pick nobody for it: those that
      forward it never keep it. */
  lemma {:induction false} CachedAtOwner(config: Config, run: seq<State>, i: nat, node: string, key: string)
    requires IsRun(config, run) && i < |run| && NoneLost(config, run, key) && node in run[i].caches
    requires HasKey(run[i].caches[node], key)
    ensures node in config.peers && PickAt(config, node, key) == None
  {
    Reached(config, run, i);
    if i > 0 {
      var s := run[i - 1];
      Reached(config, run, i - 1);
      if HasKey(s.caches[node], key) {
        CachedAtOwner(config, run, i - 1, node, key);
      } else {
        assert StepAt(config, run, i - 1);
        var step :| Enabled(config, s, step) && run[i] == Apply(config, s, step);
        if !step.Source? {
          StepHolds(config, s, step, node, key);
        } else {
          NewKey(config, s, step.c, node, key);
          OwnSource(config, run, i - 1, step.c);
        }
      }
    }
  }

  /** With agreement, then, no two nodes ever have the same key in their caches. */
  lemma CachedOnce(config: Config, run: seq<State>, i: nat, key: string, node: string, node': string)
    requires Agreement(config) && "" !in config.peers
    requires IsRun(config, run) && i < |run| && NoneLost(config, run, key)
    requires node in run[i].caches && HasKey(run[i].caches[node], key)
    requires node' in run[i].caches && HasKey(run[i].caches[node'], key)
    ensures node == node'
  {
    CachedAtOwner(config, run, i, node, key);
    CachedAtOwner(config, run, i, node', key);
    OwnsItself(config, node, key);
    OwnsItself(config, node', key);
    CH.OwnersShare(config.hash, DEFAULT_REPLICAS, config.peers[node], config.peers[node'], config.hash(key));
  }

  lemma OwnsItself(config: Config, node: string, key: string)
    requires SamePeers(config) && "" !in config.peers && node in config.peers && PickAt(config, node, key) == None
    ensures CH.Lookup(RingOf(config.hash, config.peers[node]), config.hash(key)) == node
    ensures config.peers[node] != []
  {
    assert node in CH.SetOf(config.peers[node]);
    CH.LookupIsPeer(config.hash, DEFAULT_REPLICAS, config.peers[node], config.hash(key));
    assert CH.Lookup(RingOf(config.hash, config.peers[node]), config.hash(key)) in CH.SetOf(config.peers[node]);
  }
}
