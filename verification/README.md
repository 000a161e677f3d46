# Verified models of GeeRPC, GeeCache, Gee and GeeORM

The repository holds four small Go frameworks. This project models the part of each that is hard to get right and
proves what it is for. `dafny verify dfyconfig.toml` checks everything.

**RPC protocol** (`rpc_wire`, `rpc_client`, `rpc_server`, `rpc_system`, `rpc_signals`, `rpc_steps`,
`rpc_progress`, `rpc_client_object`). The client multiplexes calls over one stream; the server runs a handler, a worker and a timer per
request. Both ends are step relations, one step per critical section or blocking point, joined by two append-only
streams that can break and lose data at any write. An inductive invariant carries the theorems over all runs: what a
reply can be, why a request is refused, what the caller sees of it, what ends either loop, and, with a measure (`sums`),
that no call waits for ever. The methods that
work on heap-allocated calls under the client's mutex are classes as well, each proved to do to the object what the
protocol's function does to the state.

**Cache cluster** (`consistent_hash`, `lru`, `lru_history`, `lru_residency`, `singleflight`, `geecache`, `cluster`,
`cluster_cache`, `deadlock`). The ring, the LRU list with its map and byte count, and the per-node peer picker are classes proved against
values (a map of points, a recency list), with what holds over all histories of a cache. Call merging is a step relation
for any number of callers and keys. `cluster` composes them: any number of nodes and concurrent lookups, with eviction,
forwarding and network failure at every step, and who keeps which key over whole runs.

**Router** (`text`, `pattern`, `trie`, `trie_node`, `routes`, `conflicts`, `completeness`, `params`, `router`). The trie
is a mutable linked structure refining a tree value; the search is proved against a matching relation on patterns and
requests, with the exact conditions under which conflicting registrations do no harm.

**Schema migration** (`tables`, `migration`, `engine`). Tables are column lists with rows of cells; each statement can be
hit by a fault; a session's changes are visible to others only after a commit.

**Discovery** (`server_list`, `registry`, `discovery`, `staleness`). The expiring registry, the comma-joined header, the
timed client list and round robin, with a sharp bound on the age of a selected server's last heartbeat.

**SQL clauses** (`binding`, `generators`, `clause`, `alignment`, `record`). Placeholders and values, with the meaning of a
statement defined by binding values to placeholders first to first, and the exact text that each method of a session
sends.

## What the code does differently from what one might expect

- A method that fails with an empty message looks like a success to the client: the reply is filled with the placeholder
  body (`RpcSystem.EmptyErrorFillsReply`). For every other outcome the correlation holds.
- The receive loop does not remove an answered call from `pending`, so a call can be signalled again when the connection
  ends, and then its error is overwritten (`RpcSignals.ErrorOfAnswered`). Since the error of a failed header read is
  shadowed, it is overwritten with nil. The server closes the connection when it refuses a request, so this is how a call
  to an unknown service ends, and its error text is gone unless the caller looks before the loop notices the end
  (`RpcSignals.RefusalTextLost`). A refused call whose request went out whole shows its text exactly if it was signalled
  once and the text survives being taken for a format (`RpcSignals.RefusalShows`, `RpcSignals.PercentInName`); no call is
  signalled more than twice (`RpcSignals.AtMostTwoSignals`).
- The comment in `lru.go` speaks of adding and changing. Changing the value of a known key does not make it recent, so it
  can be the next to go (`LruResidency.OverwriteKeepsPlace`, `LruResidency.OverwrittenGoesNext`). A key that was just set
  need not be there: it is exactly if its value fits together with everything used after it, and otherwise only the
  latter is left (`LruResidency.HitAfterSet`, at an input `LruResidency.JustSetIsLost`). When that empties the cache is
  `LruResidency.SetEmpties`. A negative bound makes the eviction loop run for ever (`Lru.EvictionStops`).
- The answer of the ring depends on the order of `Add` exactly if two peers share a point, and some names share one under
  every hash function, such as `"n"` and `"1n"` with at least twelve replicas, since the replica number is written in
  front of the name. `main.go` builds the list of peers from a map, so the order differs between nodes; two nodes can then
  forward a key to each other and deadlock. Nodes are safe from that exactly if no two share a point
  (`Deadlock.DeadlockFree`).
- A literal route registered after a wildcard takes over the wildcard's node (`Conflicts.LiteralTakesWildcard`), and a
  `'*'` route registered after a `':'` one loses the requests it was for (`Completeness.StarLost`).
- `Insert` takes table and fields from the last record, whatever the others are, and `Count` ignores conditions
  (`Record.Session.Insert`, `Record.Session.Count`).
- A registry without a timeout gives no staleness bound (`Staleness.NoBoundWithoutTimeout`).

## Model

| member | source | states |
|---|---|---|
| RpcClient.SendPreserves | GeeRPC/client/client.go:254-322 | every step of Go, Call, cancel and Close keeps the client invariant: numbers in order and never reused, pending keyed by them, requests framed, no call forgotten |
| RpcClient.ReceivePreserves | GeeRPC/client/client.go:103-152 | every step of the receive loop and of terminateCalls keeps it, provided that response headers never repeat a number |
| RpcServer.LastDot | GeeRPC/server/server.go:86 | the last dot of the name, or -1 exactly if there is none |
| RpcServer.FindServiceExact | GeeRPC/server/server.go:84-105 | a name resolves exactly if it is a registered service, a dot and a dot-free method of it |
| RpcServer.FindServiceErrors | GeeRPC/server/server.go:84-105 | the three error texts, word for word, of a name without a dot, of an unregistered service and of a method that its service does not have |
| RpcServer.ReadPreserves | GeeRPC/server/server.go:152-228 | every step of the serve loop keeps the server invariant: one fresh header per request, taken from its own pair; which requests it accepts is RpcSteps.HeaderArrives |
| RpcServer.WorkPreserves | GeeRPC/server/server.go:239-273 | every meeting of handler, worker and timer keeps it |
| RpcServer.WritePreserves | GeeRPC/server/server.go:230-237 | every step inside sendResponse keeps it |
| RpcSystem.ReplyCorrelation | GeeRPC/client/client.go:122-148 | in every state of every run a call is answered at most once, and a filled reply is what the one request sent for it returned from the call's own method on its own arguments, or that method failed with an empty message |
| RpcSystem.RefusalCorrelation | GeeRPC/server/server.go:158-170 | the text of a response that refuses a call is that of the one request sent for the call, which gives the reason why the name does not resolve, or belongs to a body that could not be read, to a timeout or to its method's failure; what the caller sees of it is RpcSignals.ErrorOfAnswered |
| RpcSystem.RefusedWhy | GeeRPC/server/server.go:158-170 | in every run, a request that the serve loop has given up either has a name that does not resolve, and the error that says why, or has one that does and a body that could not be read |
| RpcSystem.EmptyErrorFillsReply | GeeRPC/server/server.go:249-255 | a run in which a method's empty error text ends as a filled reply without error |
| RpcSystem.NoLostCall | GeeRPC/client/client.go:79-114 | every registered call is pending, signalled, cancelled or being failed by the lock holder; after terminateCalls it is signalled or cancelled |
| RpcSystem.NoneRegisteredAfterStop | GeeRPC/client/client.go:79-91 | after terminateCalls no call is ever registered again, and later ones are signalled at once |
| RpcSystem.SendingLockNeeded | GeeRPC/client/client.go:103-107 | a reachable state in which a call has been removed but not yet signalled by its sender, so that terminateCalls, if it did not wait for the sending lock, would leave it unsignalled at that moment |
| RpcSystem.ExactlyOneResponse | GeeRPC/server/server.go:239-273 | a finished handler has responded exactly once, itself or through its worker, and no request gets two responses on the stream; without a timeout nothing times out |
| RpcSystem.TimeoutIsFinal | GeeRPC/server/server.go:266-269 | once the timer has won, header and body never change again and the worker cannot get to the codec |
| RpcSystem.ServerNotStuck | GeeRPC/server/server.go:245-272 | while a handler has work left a step of its own request is possible, or the next write of the response that holds the mutex; returns, timers and failures do not count |
| RpcSystem.RequestFraming | GeeRPC/client/client.go:254-278 | the request stream is whole (header, body) pairs plus at most one unfinished pair, owned by the lock holder |
| RpcSystem.ResponseFraming | GeeRPC/codec/gob.go:48-67 | the same for the response stream |
| RpcSystem.ReadersInStep | GeeRPC/codec/gob.go:40-46 | what either end decodes next is of the kind it expects |
| RpcSignals.AtMostTwoSignals | GeeRPC/client/client.go:103-152 | a call is signalled at most twice, and a pending one at most once before the receive loop has ended |
| RpcSignals.ShutdownMeans | GeeRPC/client/client.go:254-263 | a call has the shutdown error exactly if it was never registered; it then has one signal and no reply |
| RpcSignals.NilErrorMeans | GeeRPC/client/client.go:103-152 | a signalled call without an error has its reply, or terminateCalls was handed nil |
| RpcSignals.CancelledIsGone | GeeRPC/client/client.go:312-317 | a cancelled call is not pending, so no response looked up later reaches it |
| RpcSignals.ErrorOfAnswered | GeeRPC/client/client.go:110-148 | an answered call keeps one signal and its answer's own error (nil for a filled reply) exactly if terminateCalls does not run while it is pending; otherwise it has two signals and the error terminateCalls was handed |
| RpcSignals.RefusalShows | GeeRPC/client/client.go:304-322 | a refused call whose request went out whole shows the server's text as sent if and only if fmt.Errorf leaves the text as it is, for which having no '%' is enough, and terminateCalls did not run while it was pending, that is, it was signalled once |
| RpcSignals.PercentInName | GeeRPC/client/client.go:136-140 | for every unknown service with a '%' in its name, a run in which the text that is taken for a format has one |
| RpcSignals.ErrorOfAnyAnswer | GeeRPC/client/client.go:265-277 | without that provision the error is the answer's, the encoder's or that of terminateCalls |
| RpcSignals.RefusalTextLost | GeeRPC/server/server.go:161-170 | for every name the server does not resolve, a run in which the refused call ends with two signals and a nil error |
| RpcSteps.NewCall | GeeRPC/client/client.go:79-91 | an open client gives a new call the next number, its place in pending and the turn to write; otherwise the call ends at once with the shutdown error, one signal and nothing written |
| RpcSteps.NoneRegisteredAfterClose | GeeRPC/client/client.go:58-67 | after Close no call is registered any more |
| RpcSteps.NothingSentAfterClose | GeeRPC/client/client.go:58-67 | after Close nothing more is written, whoever was about to |
| RpcSteps.LoopEnds | GeeRPC/client/client.go:122-152 | the receive loop ends only by a header that cannot be read, and then hands terminateCalls nil, or by a body that cannot be decoded, and then hands it the decoder's error, with which or the server's the call is signalled |
| RpcSteps.HeaderArrives | GeeRPC/server/server.go:201-211 | a header whose name resolves makes a request without an error that waits for its body, whatever came before it; any other is refused with the reason and ends the serving |
| RpcSteps.BodyArrives | GeeRPC/server/server.go:173-226 | the body of such a request starts its method on exactly those arguments, and the loop reads on |
| RpcSteps.ServingEnds | GeeRPC/server/server.go:152-170 | the serve loop ends only when no header can be read or once a refusal has been sent |
| RpcProgress.StepsCloser | GeeRPC/client/client.go:103-322 | every step of either end but a new call lowers one measure of the whole system, failures, cancellations and lost writes included |
| RpcProgress.RunsEnd | GeeRPC/client/client.go:103-322 | between two moments without a new call there are no more steps than the measure allows |
| RpcProgress.NotStuck | GeeRPC/server/server.go:152-273 | while a call is neither signalled nor cancelled, client or server can take a step by itself, or the method of the call's own request is still running |
| RpcProgress.RestIsSettled | GeeRPC/client/client.go:103-322 | when no such step is possible and no handler waits for a method, every call has been signalled or cancelled |
| RpcProgress.TimerFrees | GeeRPC/server/server.go:262-269 | with a handling timeout a method that never returns does not hold its call up either |
| RpcClientObject.Client.RegisterCall | GeeRPC/client/client.go:79-91 | the call gets the next number and its place in pending, or nothing changes and the error is reported |
| RpcClientObject.Client.RemoveCall | GeeRPC/client/client.go:93-100 | exactly the entry of that number is removed, and its call returned |
| RpcClientObject.Client.TerminateCalls | GeeRPC/client/client.go:103-114 | exactly the pending calls get the error and one signal, in whatever order the map yields them |
| RpcClientObject.Client.Reject | GeeRPC/client/client.go:258-263 | a call refused by registration ends with the shutdown error and one signal |
| RpcClientObject.Client.Deliver | GeeRPC/client/client.go:133-147 | a response ends its call with either the error text or the reply, and one signal |
| ConsistentHash.Map.Add | GeeCache/geecache/consistenthash/consistenthash.go:51-65 | keys become the sorted list of old and new points with repetitions, and the last peer to place a point owns it |
| ConsistentHash.Map.Get | GeeCache/geecache/consistenthash/consistenthash.go:68-80 | the owner of the clockwise successor of the key's hash, wrap-around included, or nothing on an empty ring |
| ConsistentHash.Map.Search | GeeCache/geecache/consistenthash/consistenthash.go:75-77 | the binary search finds the boundary between points below and not below the hash |
| ConsistentHash.LookupClockwise | GeeCache/geecache/consistenthash/consistenthash.go:68-80 | the owner of the least point at or above the hash, or of the least point of all if there is none |
| ConsistentHash.LastPeerOwns | GeeCache/geecache/consistenthash/consistenthash.go:51-65 | a point belongs to the last peer on the list one of whose virtual nodes, named by number and peer, falls there |
| ConsistentHash.ItoaIsDecimal | GeeCache/geecache/consistenthash/consistenthash.go:56 | the number in a virtual node's name is written in decimal without a leading zero |
| ConsistentHash.LookupIsPeer | GeeCache/geecache/consistenthash/consistenthash.go:51-80 | a non-empty ring answers with a peer that was added |
| ConsistentHash.MinimalRemapping | GeeCache/geecache/consistenthash/consistenthash.go:51-80 | adding peers moves a key only to one of the peers just added, whatever collides |
| ConsistentHash.OrderIndependence | GeeCache/geecache/consistenthash/consistenthash.go:51-80 | the lookup depends only on the set of peers exactly if no two peers' virtual nodes collide |
| ConsistentHash.AddInGroups | GeeCache/geecache/consistenthash/consistenthash.go:51-65 | two Adds are one Add of the concatenation |
| ConsistentHash.NamesCollide | GeeCache/geecache/consistenthash/consistenthash.go:56 | names that collide under every hash function |
| Lru.Cache.Get | GeeCache/geecache/lru/lru.go:49-59 | the value the list holds for the key, which becomes the most recent item; a miss changes nothing |
| Lru.Cache.RemoveOldest | GeeCache/geecache/lru/lru.go:62-80 | exactly the last item goes, from list, map and byte count, and is reported; on an empty list nothing happens |
| Lru.Cache.Set | GeeCache/geecache/lru/lru.go:83-102 | the list becomes the longest most-recent part that fits of the list with the new value, and what was cut off is reported oldest first |
| Lru.Cache.Evict | GeeCache/geecache/lru/lru.go:99-101 | the loop stops, with the list's length as measure, and never removes from an empty list |
| Lru.TrimIsLongestFit | GeeCache/geecache/lru/lru.go:99-101 | what Set leaves is a prefix that fits, and no longer one fits |
| Lru.DroppedIsSuffix | GeeCache/geecache/lru/lru.go:62-80 | the evicted items, read backwards, are the rest of the list |
| Lru.EvictionStops | GeeCache/geecache/lru/lru.go:99-101 | the loop can stop exactly if the bound is not negative |
| LruHistory.HitIsLastSet | GeeCache/geecache/lru/lru.go:49-102 | over any run, a hit returns the value of the most recent Set of its key |
| LruHistory.EvictedIsCurrent | GeeCache/geecache/lru/lru.go:74-78 | every eviction reports the value its key had at that moment |
| LruHistory.StepDrops | GeeCache/geecache/lru/lru.go:83-102 | a step drops a suffix and reports it oldest first |
| LruHistory.Conservation | GeeCache/geecache/lru/lru.go:62-102 | over any run, insertions of new keys are the resident keys plus the evicted ones, with multiplicity |
| LruHistory.RecencyOrder | GeeCache/geecache/lru/lru.go:49-102 | the list is always in order of last lookup or first insertion |
| LruResidency.StaysIfFits | GeeCache/geecache/lru/lru.go:98-101 | the first n items stay exactly if they are within the bound |
| LruResidency.KeyStays | GeeCache/geecache/lru/lru.go:98-101 | a key stays, in its place, exactly if it fits together with the items in front of it |
| LruResidency.SetStays | GeeCache/geecache/lru/lru.go:83-101 | the key just set is found, where it was, exactly if the new value fits together with the items in front of it |
| LruResidency.SetLost | GeeCache/geecache/lru/lru.go:83-101 | otherwise exactly the items in front of it are left |
| LruResidency.TrimEmpties | GeeCache/geecache/lru/lru.go:98-101 | the loop empties the list exactly if its first item alone exceeds the bound |
| LruResidency.FitsCountsAll | GeeCache/geecache/lru/lru.go:98-101 | the bound is on the characters of all keys and values together |
| LruResidency.RunFits | GeeCache/geecache/lru/lru.go:98-101 | after any run the cache is within its bound |
| LruResidency.HitAfterSet | GeeCache/geecache/lru/lru.go:49-101 | after any run a Get right after a Set of its key hits exactly if the value fits together with all items used after that key, and if it misses those are all that is left |
| LruResidency.HitAfterOther | GeeCache/geecache/lru/lru.go:49-101 | and when a Set of another key leaves a resident key in the cache |
| LruResidency.AheadIsNewer | GeeCache/geecache/lru/lru.go:49-101 | the items in front of a key are the resident ones used after it |
| LruResidency.SetEmpties | GeeCache/geecache/lru/lru.go:83-101 | a Set empties the cache exactly if its item alone exceeds the bound and nothing was used after its key |
| LruResidency.OverwriteKeepsPlace | GeeCache/geecache/lru/lru.go:85-89 | changing the value of a resident key changes no key's last use and no order |
| LruResidency.OverwrittenGoesNext | GeeCache/geecache/lru/lru.go:62-89 | the key used longest ago is the next to go even right after it got a new value |
| LruResidency.JustSetIsLost | GeeCache/geecache/lru/lru.go:83-101 | a known key with an item used after it is lost by a Set to a value too large, and that item stays |
| Singleflight.Preserved | GeeCache/geecache/singleflight/singleflight.go:20-54 | every step of Do keeps the agreement of callers, calls and map |
| Singleflight.OneFlightPerKey | GeeCache/geecache/singleflight/singleflight.go:20-54 | at most one function per key is between entry and deletion, and a leader deletes its own entry |
| Singleflight.ResultKept | GeeCache/geecache/singleflight/singleflight.go:44 | a result is written once |
| Singleflight.ReturnsResultOfCall | GeeCache/geecache/singleflight/singleflight.go:31-53 | every caller returns the result of the one execution it led or joined |
| Singleflight.NotStuck | GeeCache/geecache/singleflight/singleflight.go:20-54 | while a caller is inside Do and no function is executing, some step is possible |
| Singleflight.StepsCloser | GeeCache/geecache/singleflight/singleflight.go:20-54 | every step but an entry brings the callers one step closer to having returned |
| GeeCache.SafeCache.Set | GeeCache/geecache/cache.go:20-30 | the first set creates the LRU cache; each is a Set of it |
| GeeCache.SafeCache.Get | GeeCache/geecache/cache.go:33-46 | a miss before the first set, then a Get of the LRU cache |
| GeeCache.HTTPPool.Set | GeeCache/geecache/http.go:137-151 | ring and clients are exactly those of the list, whatever was there before |
| GeeCache.HTTPPool.PickPeer | GeeCache/geecache/http.go:154-166 | another peer's client exactly when another peer owns the key, and the client map never misses |
| Cluster.Preserved | GeeCache/geecache/geecache.go:107-185 | every step of every lookup anywhere keeps the cluster invariant |
| Cluster.AnswersAreCorrect | GeeCache/geecache/geecache.go:107-185 | every Get that is answered, at any node, has the source's value or error for its key (or the error for an empty key), under any interleaving, eviction or failure, and even if the nodes disagree about the ring |
| Cluster.AtMostOneHop | GeeCache/geecache/geecache.go:123-147 | with agreement on peers and no collisions a key is forwarded at most once, and only to its owner |
| Cluster.OwnerKeeps | GeeCache/geecache/http.go:154-166 | with agreement a key is forwarded only to a node that keeps it |
| Cluster.NotStuck | GeeCache/geecache/geecache.go:107-185 | with agreement, while a Get is unfinished a step other than a new Get or a failure is possible |
| Cluster.StepsCloser | GeeCache/geecache/geecache.go:107-185 | with agreement every step but a new Get lowers a bound on the steps left, so every Get is answered |
| Cluster.ForwardingCycle | GeeCache/main.go:93-102 | whenever virtual nodes of two peers collide, those two can be given all peers in orders that make them forward one key to each other |
| ClusterCache.LookupAnswers | GeeCache/geecache/geecache.go:112-117 | a lookup is answered with the source's value exactly if the key is in the node's cache, and is then the most recent item; a miss changes no cache |
| ClusterCache.SourceFills | GeeCache/geecache/geecache.go:167-185 | asking the own source settles the flight, and a value is in the cache afterwards exactly if it fits with the items ahead of it; an error and the other nodes' caches change nothing |
| ClusterCache.HeldUntilSourced | GeeCache/geecache/geecache.go:107-185 | between two loads from the source at a node, no key enters or leaves its cache, whatever else happens |
| ClusterCache.OwnSource | GeeCache/geecache/geecache.go:123-147 | in every run a flight asks its own node's source only if the node picks nobody for the key, the source has an error for it, or the picked peer's answer got lost |
| ClusterCache.CachedAtOwner | GeeCache/geecache/geecache.go:123-185 | unless an answer for it got lost, a key is in the caches of those nodes only that pick nobody for it |
| ClusterCache.CachedOnce | GeeCache/geecache/geecache.go:123-185 | with agreement on peers and no collisions, it is in one node's cache at most |
| Deadlock.MutualForwardingDeadlocks | GeeCache/geecache/geecache.go:123-147 | two nodes that forward a key to each other reach a state with unanswered Gets in which only new Gets and network failures are possible |
| Deadlock.DeadlockFree | GeeCache/geecache/http.go:137-166 | for any hash, source, cache sizes and set of nodes that all know each other: no run deadlocks, in whatever orders the nodes got their peers, exactly if no two nodes' virtual nodes collide (an empty address aside, to which nothing is forwarded) |
| Deadlock.OrderOfPeersMatters | GeeCache/geecache/http.go:137-151 | for the names n and "1" + n such orders exist under every hash |
| Text.SplitJoin | Gee/gee/router.go:31 | splitting undoes joining exactly for non-empty lists of separator-free words |
| Text.JoinSplit | Gee/gee/router.go:31 | joining undoes splitting always |
| Text.TrimSpaceCuts | GeeRPC/xclient/discover_registry.go:62 | trimming takes white space off both ends and nothing else |
| Pattern.ParsePattern | Gee/gee/router.go:30-45 | the loop computes Parse, which ParseIsWords characterises |
| Pattern.ParseIsWords | Gee/gee/router.go:30-45 | the result is exactly the non-empty words between the slashes, in order, up to and including the first that starts with a '*' |
| Pattern.ParsePath | Gee/gee/router.go:30-45 | a path with a leading slash gives its parts back exactly if they are non-empty, slash-free and only the last starts with '*' |
| Pattern.SlashesSkipped | Gee/gee/router.go:34-42 | leading, trailing and doubled slashes change nothing |
| Pattern.PartsMean | Gee/gee/trie.go:18-89 | a ':' part matches any one segment, a '*' part any number of them but none, any other part only itself |
| Pattern.ParseJoin | Gee/gee/router.go:30-45 | joining and parsing gives a list back exactly if its words are non-empty, slash-free and only the last starts with '*' |
| Trie.FirstMatch | Gee/gee/trie.go:19-27 | the first child that matches |
| Trie.AcceptsIsMatching | Gee/gee/trie.go:65-89 | the search would stop at a node exactly if its root path matches the request |
| Trie.SearchIsFirst | Gee/gee/trie.go:65-89 | the search returns the first node in depth-first insertion order that holds a pattern and is accepted, and nil exactly if there is none |
| TrieNode.Node.MatchFirstChild | Gee/gee/trie.go:19-27 | the loop returns the first matching child, or nil |
| TrieNode.Node.MatchChildren | Gee/gee/trie.go:30-40 | the loop returns exactly the matching children, in order |
| TrieNode.Node.Insert | Gee/gee/trie.go:43-62 | the linked nodes afterwards are the tree with the pattern inserted, and stay a tree |
| TrieNode.Node.Search | Gee/gee/trie.go:65-89 | the recursion with its loop finds the node that the tree's search finds |
| Routes.SearchRefinesMatching | Gee/gee/trie.go:43-89 | after any registrations the search refines the matching relation on root paths |
| Routes.FoundIsRegistered | Gee/gee/router.go:84-95 | a found pattern was registered and has no more parts than the request, so every index of getRoute is in bounds |
| Routes.BuildClean | Gee/gee/trie.go:51-58 | in every reachable trie siblings differ and only the last can be a wildcard |
| Routes.InsertEffect | Gee/gee/trie.go:43-62 | any insertion changes the pattern at one path only, the one of the children it matched, and adds the paths up to it |
| Routes.RouteFound | Gee/gee/router.go:48-82 | under conflict-free registration a route is found exactly if some pattern in force matches, and the pattern returned is one that does |
| Routes.MostSpecificPath | Gee/gee/trie.go:65-89 | after any registrations, the node found has a literal on its path where the path of any other node that the search could return first differs from it |
| Routes.MostSpecificWins | Gee/gee/trie.go:65-89 | so under conflict-free registration, of all patterns that match, the one found has a literal where any other first differs from it |
| Routes.FreeListIsClashFree | Gee/gee/trie.go:51-58 | registration is conflict-free exactly if no pattern branches off at an earlier wildcard to a part that is new there |
| Completeness.NoneMissed | Gee/gee/trie.go:43-89 | after any registrations, every request that a pattern in force matches is found exactly if the words of each such pattern lead to a node with a pattern, a '*' by wildcards that all hold one, down to a '*' |
| Completeness.RoutingRight | Gee/gee/router.go:67-99 | after any registrations, all requests are found exactly when a pattern in force matches and get a pattern that does, if and only if this and the condition of OnlyMatchingRoutes hold |
| Completeness.CalmMissesNone | Gee/gee/trie.go:43-62 | no request is missed if no '*' part was inserted onto a ':' node |
| Completeness.CalmConflict | Gee/gee/trie.go:43-62 | that is weaker than conflict-freedom: a literal after a wildcard conflicts with it, yet no request is missed |
| Completeness.StarLost | Gee/gee/trie.go:18-27 | a '*' pattern registered after a ':' pattern matches every two-segment request, and none is found |
| Conflicts.OnlyMatchingRoutes | Gee/gee/trie.go:43-89 | no request is routed to a pattern that does not match it, exactly if every reachable pattern sits on a path that it covers |
| Conflicts.FreeListIsHeld | Gee/gee/trie.go:43-62 | conflict-free registration meets that condition |
| Conflicts.Unshadowed | Gee/gee/trie.go:65-89 | every reachable node with a pattern is the answer to some request |
| Conflicts.LiteralTakesWildcard | Gee/gee/trie.go:18-27 | a literal registered after a wildcard gets every one-segment request |
| Params.LastBinding | Gee/gee/router.go:84-95 | under each name the map holds the value of the last part of that name |
| Params.NamedValue | Gee/gee/router.go:84-95 | a ':' part binds its segment, and a '*' part the joined rest, under the part without its first character |
| Params.ParamsRebuild | Gee/gee/router.go:84-95 | putting the parameters back rebuilds every matching request, joined tail included, exactly if names are distinct and no '*' is bare |
| Router.KeyInjective | Gee/gee/router.go:53 | handler keys of different routes differ if methods have no '-' |
| Router.HandlerExists | Gee/gee/router.go:101-108 | every registered pattern has a handler |
| Router.HandlerOfFound | Gee/gee/router.go:53-115 | after any registrations a found route has a handler, the one last registered under its key, and if methods have no '-' for this method and pattern |
| Router.FoundRebuilds | Gee/gee/router.go:67-99 | if no request is routed to a pattern that does not match it, the parameters of a found route, put back into its pattern, give the request, provided that names are distinct and no '*' is bare |
| Router.HandlerOfMatch | Gee/gee/router.go:101-115 | under conflict-free registration a handler runs exactly if a pattern in force matches, and it is the one last registered with those parts |
| Router.Router.AddRoute | Gee/gee/router.go:48-64 | tries and handlers afterwards are those of the registrations including the new one; other methods' tries are untouched |
| Router.Router.FillParams | Gee/gee/router.go:86-96 | the loop extracts exactly the parameters |
| Router.Router.GetRoute | Gee/gee/router.go:67-99 | the node that the registrations determine, with its parameters, or nothing |
| Router.Router.Handle | Gee/gee/router.go:101-115 | the handler under the found pattern's key, which is always there, or the 404 reply |
| Tables.ExecuteKeepsWellFormed | GeeORM/geeorm/geeorm.go:94-99 | every statement keeps columns distinct and rows in step with them |
| Migration.ComputeDifference | GeeORM/geeorm/geeorm.go:103-116 | the elements of a that are not in b, in order |
| Migration.MigratedTable | GeeORM/geeorm/geeorm.go:119-160 | exactly the schema's columns, the same rows in order, old values in the columns that stay and NULL in the new ones |
| Migration.ColumnOrder | GeeORM/geeorm/geeorm.go:146-156 | the columns are in the schema's order exactly if one was dropped or the old ones were its beginning |
| Migration.ThereAndBack | GeeORM/geeorm/geeorm.go:119-160 | migrating to another schema and back keeps exactly the values of common columns |
| Migration.MigrateRun | GeeORM/geeorm/geeorm.go:119-160 | the statements succeed exactly if none is hit by a fault and, if columns go, the temporary name is free; then only this table is replaced, by the migrated one; and when it panics |
| Migration.MigrateAgain | GeeORM/geeorm/geeorm.go:119-160 | a second migration changes nothing |
| Engine.Session.Exec | GeeORM/session/raw.go:62-70 | the pending statements are executed in order until one fails, and forgotten |
| Engine.Session.MigrateTable | GeeORM/geeorm/geeorm.go:120-158 | the loops and branches issue exactly the migration's statements |
| Engine.Session.Finish | GeeORM/geeorm/geeorm.go:69-86 | panic and error roll back, success commits, a failed commit leaves the database as before |
| Engine.Session.Transaction | GeeORM/geeorm/geeorm.go:62-89 | for any function, all of its changes become visible or none |
| Engine.Session.Migrate | GeeORM/geeorm/geeorm.go:119-162 | commits exactly if no step fails and then replaces only this table; otherwise the database equals its state before |
| ServerList.IncreasingUnique | GeeRPC/registry/registry.go:73 | the sorted list is determined by its elements |
| ServerList.LessMeans | GeeRPC/registry/registry.go:73 | the order: proper beginnings first, else the smaller character where two addresses first differ |
| ServerList.ListRoundTrip | GeeRPC/xclient/discover_registry.go:59-66 | the client recovers the registry's list, the empty one included, exactly if all addresses are non-blank, trimmed and comma-free |
| Registry.GeeRegistry.PutServer | GeeRPC/registry/registry.go:48-58 | the address has this heartbeat as its last one, and no other changes |
| Registry.GeeRegistry.AliveServer | GeeRPC/registry/registry.go:60-75 | exactly the servers alive at their own clock readings stay, and are listed in order whatever the map's order |
| Registry.GeeRegistry.ServeHTTP | GeeRPC/registry/registry.go:83-97 | which request lists, registers or is refused |
| Discovery.Fair | GeeRPC/xclient/discover.go:67-86 | from any index, n * k round-robin Gets without an Update in between answer from each of n positions exactly k times, whatever other calls are interleaved |
| Discovery.FairAnswers | GeeRPC/xclient/discover.go:67-86 | so among their answers each server of a list without repetition comes exactly k times |
| Discovery.Balanced | GeeRPC/xclient/discover.go:79-82 | at any moment no position has been answered from more than once more often than another |
| Discovery.RandomReachesAll | GeeRPC/xclient/discover.go:75-78 | random selection answers with a listed server, and with any of them for some random number |
| Discovery.MultiServerDiscovery.Update | GeeRPC/xclient/discover.go:59-65 | the list is replaced and the index stays |
| Discovery.MultiServerDiscovery.Get | GeeRPC/xclient/discover.go:67-86 | the answer that Fair, FairAnswers and RandomReachesAll speak of, and the index after it; an empty list and an unknown mode are errors, word for word, and the list never changes |
| Discovery.GeeRegistryDiscovery.Refresh | GeeRPC/xclient/discover_registry.go:42-70 | a current list is kept, a fetched one replaces it, a failed fetch changes nothing |
| Discovery.GeeRegistryDiscovery.Get | GeeRPC/xclient/discover_registry.go:72-78 | that answer, for the list that the refresh accepted |
| Staleness.Preserved | GeeRPC/registry/registry.go:48-75 | every step of registry, clock and client keeps what the bounds rest on |
| Staleness.StalenessBound | GeeRPC/xclient/discover_registry.go:42-78 | a selected server's last heartbeat is younger than both timeouts and the fetch latency together |
| Staleness.YoungAreListed | GeeRPC/registry/registry.go:60-75 | a server heard before the list was asked for and still young when it was accepted is listed |
| Staleness.BoundIsReached | GeeRPC/xclient/discover_registry.go:46-49 | the bound is sharp |
| Staleness.NoBoundWithoutTimeout | GeeRPC/registry/registry.go:66 | with registry timeout 0 a silent server stays listed for any time |
| Binding.BindGroup | GeeORM/clause/generator.go:38-45 | a group of n placeholders takes the next n values |
| Binding.GroupEnds | GeeORM/clause/generator.go:70 | a bound group shows how many values it has |
| Generators.RowsAligned | GeeORM/clause/generator.go:54-79 | VALUES puts every row into its own group exactly if all rows after the first non-empty one are as long as it |
| Generators.AssignmentsAligned | GeeORM/clause/generator.go:101-114 | UPDATE gives every key its own value, in any order of the map, exactly if no key contains a placeholder |
| Generators.GenerateAligned | GeeORM/clause/generator.go:47-124 | every clause has one value for each placeholder and reads as meant exactly if the caller has met its condition |
| Clauses.GenBindVars | GeeORM/clause/generator.go:38-45 | num placeholders with commas |
| Clauses.GenerateValues | GeeORM/clause/generator.go:54-79 | the loop writes the groups and collects the values row by row |
| Clauses.GenerateUpdate | GeeORM/clause/generator.go:101-114 | the loop lists every key of the map once, in some order, with its value |
| Clauses.OnlyLastSettings | GeeORM/clause/clause.go:27-52 | a setting that is made again later, or of a kind not asked for, leaves no trace in the built text or values |
| Alignment.StatementAligned | GeeORM/clause/clause.go:40-52 | a built statement has one value for each placeholder and reads clause by clause as meant exactly if the caller has met the condition of every clause in it |
| Clauses.InsertAligned | GeeORM/session/record.go:28-50 | inserting any number of records of one schema is aligned |
| Clauses.Clause.Set | GeeORM/clause/clause.go:27-37 | the setting is recorded for its kind and no other kind changes |
| Clauses.Clause.Build | GeeORM/clause/clause.go:40-52 | text and values are those of the last settings of the kinds asked for, in that order, absent kinds skipped; what that says word for word is Record.Session |
| Record.Session.Insert | GeeORM/session/record.go:27-50 | what is sent: INSERT INTO with table and fields of the last record, VALUES with one group of placeholders a record, and the records' values in order |
| Record.Session.Find | GeeORM/session/record.go:64-79 | SELECT fields FROM table, then WHERE, ORDER BY and LIMIT as they were last set, in that order and each only if set, with the values of WHERE and LIMIT |
| Record.Session.Update | GeeORM/session/record.go:105-123 | UPDATE table SET with every key of the map once, in some order, then WHERE if set, with each key's value in that order before those of WHERE |
| Record.Session.Delete | GeeORM/session/record.go:130-137 | DELETE FROM table, then WHERE if set, with its values |
| Record.Session.Count | GeeORM/session/record.go:145-148 | SELECT COUNT(*) FROM table; conditions are not asked for |
| Record.Session.Where | GeeORM/session/record.go:160-164 | sets what WHERE adds to the statement and leaves the other conditions alone |
| Record.Session.OrderBy | GeeORM/session/record.go:171-174 | sets what ORDER BY adds and leaves the other conditions alone |
| Record.Session.Limit | GeeORM/session/record.go:166-169 | sets LIMIT with its one value and leaves the other conditions alone |
| Record.Session.Send | GeeORM/session/raw.go:50-102 | what was collected is sent once, and text, values and conditions are cleared |
| Record.InsertReadable | GeeORM/clause/generator.go:47-52 | from the text of an INSERT its table and its fields in order can be read off, whatever follows, if names have no comma or parenthesis |
| Record.SelectReadable | GeeORM/clause/generator.go:81-86 | likewise from the text of a SELECT, if names have no comma or blank |
| Record.RowsAreJoined | GeeORM/clause/generator.go:54-79 | the VALUES text is one parenthesised group a row, with commas, each as wide as the first row that is not empty |

## Left out

- Sockets, HTTP, hijacking, dialing, gob, JSON and protobuf bytes: messages are typed values on streams that can break.
- URL escaping of cache keys between peers: keys arrive unchanged.
- `Broadcast` in xclient, connection caching and how random selection is distributed.
- Reflection: method registration, schema parsing, hooks and row scanning; schemas are lists of distinct field names.
- SQL types, constraints, case-insensitive names and cursors left open; SQLite is a map of tables with a snapshot.
- Templates, static files, logging, middleware chains and debug pages.
- Capacity and blocking of `Done` channels: signals are counted.
- Data races: the receive loop reads `pending` without the mutex (client.go:131), which the model takes as one atomic look-up.
- A reply that is partly filled before its decoding fails.
- RpcSignals.RefusalShows: what `fmt.Errorf` makes of a text with `%` is left open; it is a parameter, known to leave other texts as they are.
- Other handling timeouts' error texts: whether there is a timeout is a parameter, the text is that for the ten seconds that serveCodec passes.
- Record.Session.Update: takes the map; the alternating list of keys and values, from which the code first makes a map, is left out, and so is `First`, which is Find after Limit.
- Panics inside a singleflight function or a service method.
- Integer wrap-around of sequence numbers, byte counts and durations; numbers are unbounded.
- Cached values with a negative or changing length, and callbacks that use the cache they are called from.
- Negative cache sizes beyond `Lru.EvictionStops`: `GeeCache.SafeCache` takes a non-negative one.
- Anonymous struct types, whose table name is empty.
- A Rollback that itself fails: the code ignores its error, and uncommitted changes are taken to be lost in any case.
- RpcServer.FindServiceExact: services are a fixed table, while the code's can grow as it serves.
- Routes.RouteFound: conflict-free registrations only, where the pattern found is also known; `Completeness.RoutingRight` has the exact condition for all others.
- Router.HandlerOfMatch: conflict-free registrations and methods without a '-' only; `Router.HandlerOfFound` has the rest. With a '-' routes can share a handler, since `"A"` with `"-x"` and `"A-"` with `"x"` share a key.
- Staleness.StalenessBound: the time between the refresh and the selection that follows it in the same Get is not counted, as the two take the lock separately.
- Discovery.GeeRegistryDiscovery.Refresh: any answer to the request counts as the registry's, since the code does not look at its status.
