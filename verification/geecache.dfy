/** One node of the cache cluster: the lock-protected cache of cache.go and the peer picker of http.go. */
module GeeCache {
  import opened Common
  import CH = ConsistentHash
  import Lru

  const DEFAULT_REPLICAS := 30
  const DEFAULT_BASE_PATH := "_geecache"

  /** cache.go: the LRU cache is created by the first set. */
  class SafeCache {
    const cacheBytes: nat
    var lru: Lru.Cache?

    ghost predicate Valid()
      reads this, lru, if lru == null then {} else set e | e in lru.list
    {
      lru != null ==> lru.Valid() && lru.maxBytes == cacheBytes && !lru.hasCallback
    }

    ghost function Contents(): seq<Lru.Item>
      reads this, lru, if lru == null then {} else set e | e in lru.list
    {
      if lru == null then [] else lru.Contents()
    }

    constructor (cacheBytes: nat)
      ensures Valid() && Contents() == [] && this.cacheBytes == cacheBytes && lru == null
    {
      this.cacheBytes, lru := cacheBytes, null;
    }

    method Set(key: string, value: Lru.Bytes)
      requires Valid()
      modifies this, lru, if lru == null then {} else set e | e in lru.list
      ensures Valid() && Contents() == Lru.Trim(cacheBytes, Lru.Put(old(Contents()), key, value))
    {
      if lru == null {
        lru := new Lru.Cache(cacheBytes, false);
      }
      lru.Set(key, value);
    }

    method Get(key: string) returns (value: Option<Lru.Bytes>)
      requires Valid()
      modifies lru
      ensures Valid() && Contents() == Lru.Got(old(Contents()), key)
      ensures value == match Lru.Find(old(Contents()), key)
                       case None => None
                       case Some(i) => Some(old(Contents())[i].value)
    {
      if lru == null {
        return None;
      }
      value := lru.Get(key);
    }
  }

  /** The ring of a node that was given a list of peers. */
  function RingOf(hash: string -> nat, peers: seq<string>): map<nat, string> {
    CH.AddAll(hash, DEFAULT_REPLICAS, map[], peers)
  }

  /** The peer a node forwards a key to, if it does not own the key itself. */
  ghost function Pick(hash: string -> nat, self: string, peers: seq<string>, key: string): Option<string> {
    var peer := CH.Lookup(RingOf(hash, peers), hash(key));
    if peer != "" && peer != self then Some(peer) else None
  }

  /** http.go: ring and HTTP clients of one node; `members` is the list last passed to Set. */
  class HTTPPool {
    const self: string
    const hash: string -> nat
    var peers: CH.Map?
    var httpGetters: map<string, string>
    ghost var members: seq<string>

    ghost predicate Valid()
      reads this, peers
    {
      peers != null ==>
        && peers.Valid()
        && peers.hash == hash
        && peers.hashMap == RingOf(hash, members)
        && httpGetters.Keys == CH.SetOf(members)
        && forall p :: p in members ==> httpGetters[p] == p + "/" + DEFAULT_BASE_PATH
    }

    constructor (self: string, hash: string -> nat)
      ensures Valid() && peers == null && this.self == self && this.hash == hash
    {
      this.self, this.hash, peers, httpGetters, members := self, hash, null, map[], [];
    }

    method Set(list: seq<string>)
      requires Valid()
      modifies this
      ensures Valid() && peers != null && fresh(peers) && members == list
    {
      var ring := new CH.Map(DEFAULT_REPLICAS, hash);
      ring.Add(list);
      peers := ring;
      members := list;
      FillGetters(list);
    }

    /** One HTTP client per peer. */
    method FillGetters(list: seq<string>)
      modifies this`httpGetters
      ensures httpGetters.Keys == CH.SetOf(list)
      ensures forall p :: p in list ==> httpGetters[p] == p + "/" + DEFAULT_BASE_PATH
    {
      httpGetters := map[];
      for n := 0 to |list|
        invariant forall p :: p in httpGetters <==> p in list[..n]
        invariant forall p :: p in httpGetters ==> httpGetters[p] == p + "/" + DEFAULT_BASE_PATH
      {
        assert list[..n + 1] == list[..n] + [list[n]];
        httpGetters := httpGetters[list[n] := list[n] + "/" + DEFAULT_BASE_PATH];
      }
      assert list[..|list|] == list;
    }

    /** Some client exactly when another peer owns the key, and then that peer's client: the map never misses. */
    method PickPeer(key: string) returns (getter: Option<string>)
      requires Valid() && peers != null
      ensures getter == match Pick(hash, self, members, key)
                        case None => None
                        case Some(peer) => Some(peer + "/" + DEFAULT_BASE_PATH)
    {
      var peer := peers.Get(key);
      if peer != "" && peer != self {
        CH.LookupIsPeer(hash, DEFAULT_REPLICAS, members, hash(key));
        assert peer in CH.SetOf(members);
        return Some(httpGetters[peer]);
      }
      return None;
    }
  }
}
