/** The consistent-hash ring of geecache: a sorted list of virtual-node hashes and the peer that owns each of them. */
module ConsistentHash {

  // ---------- strconv.Itoa and sort.Ints ----------

  function Digit(d: nat): char
    requires d < 10
  {
    "0123456789"[d]
  }

  function Itoa(n: nat): string {
    if n < 10 then [Digit(n)] else Itoa(n / 10) + [Digit(n % 10)]
  }

  predicate IsDigit(c: char) {
    '0' <= c <= '9'
  }

  /** The number that a numeral stands for. */
  function Numeral(s: string): int {
    if s == "" then 0 else 10 * Numeral(s[..|s| - 1]) + (s[|s| - 1] as int - '0' as int)
  }

  /** The decimal numeral of n: its value is n, and it has no leading zero. */
  lemma {:induction false} ItoaIsDecimal(n: nat)
    ensures Itoa(n) != "" && (forall c :: c in Itoa(n) ==> IsDigit(c)) && Numeral(Itoa(n)) == n
    ensures Itoa(n)[0] == '0' <==> n == 0
    ensures n == 0 ==> Itoa(n) == "0"
  {
    var last := Digit(n % 10);
    assert IsDigit(last) && last as int - '0' as int == n % 10;
    if n < 10 {
      assert Itoa(n) == [last] && [last][..0] == "";
    } else {
      ItoaIsDecimal(n / 10);
      assert Itoa(n)[..|Itoa(n)| - 1] == Itoa(n / 10);
    }
  }

  ghost predicate Sorted(a: seq<int>) {
    forall i, j :: 0 <= i < j < |a| ==> a[i] <= a[j]
  }

  function Insert(a: seq<int>, x: int): seq<int> {
    if a == [] || x <= a[0] then [x] + a else [a[0]] + Insert(a[1..], x)
  }

  function SortInts(a: seq<int>): seq<int> {
    if a == [] then [] else Insert(SortInts(a[1..]), a[0])
  }

  lemma {:induction false} InsertAt(a: seq<int>, x: int) returns (k: nat)
    ensures k <= |a| && Insert(a, x) == a[..k] + [x] + a[k..]
    ensures forall i :: 0 <= i < k ==> a[i] < x
    ensures k < |a| ==> x <= a[k]
  {
    if a == [] || x <= a[0] {
      k := 0;
    } else {
      var j := InsertAt(a[1..], x);
      k := j + 1;
      assert [a[0]] + (a[1..][..j] + [x] + a[1..][j..]) == a[..k] + [x] + a[k..];
    }
  }

  lemma InsertSorts(a: seq<int>, x: int)
    requires Sorted(a)
    ensures Sorted(Insert(a, x))
    ensures multiset(Insert(a, x)) == multiset(a) + multiset{x}
  {
    var k := InsertAt(a, x);
    assert a == a[..k] + a[k..];
    Spliced(a[..k], x, a[k..]);
  }

  lemma Spliced(a: seq<int>, x: int, b: seq<int>)
    requires Sorted(a + b)
    requires (forall i :: 0 <= i < |a| ==> a[i] < x) && (b != [] ==> x <= b[0])
    ensures Sorted(a + [x] + b)
  {
    var s, t := a + b, a + [x] + b;
    forall i, j | 0 <= i < j < |t| ensures t[i] <= t[j] {
      if i != |a| && j != |a| {
        assert t[i] == s[if i < |a| then i else i - 1] && t[j] == s[if j < |a| then j else j - 1];
      } else if i == |a| && j > |a| + 1 {
        assert s[|a|] == b[0] && t[j] == s[j - 1];
      }
    }
  }

  lemma {:induction false} SortIntsSorts(a: seq<int>)
    ensures Sorted(SortInts(a)) && multiset(SortInts(a)) == multiset(a)
  {
    if a != [] {
      assert a == [a[0]] + a[1..];
      SortIntsSorts(a[1..]);
      InsertSorts(SortInts(a[1..]), a[0]);
    }
  }

  // ---------- what a ring means ----------

  /** The name that is hashed for the i-th virtual node of a peer. */
  function VirtualNode(i: nat, peer: string): string {
    Itoa(i) + peer
  }

  function Points(hash: string -> nat, replicas: int, peer: string): set<nat> {
    set i | 0 <= i < replicas :: hash(VirtualNode(i, peer))
  }

  /** The hashes that Add appends for its peers, duplicates included. */
  function Hashes(hash: string -> nat, replicas: int, peers: seq<string>): seq<int> {
    if peers == [] then []
    else Hashes(hash, replicas, peers[..|peers| - 1]) + Replicas(hash, replicas, peers[|peers| - 1])
  }

  function Replicas(hash: string -> nat, replicas: int, peer: string): seq<int> {
    seq(if replicas > 0 then replicas else 0, i requires i >= 0 => hash(VirtualNode(i, peer)))
  }

  /** Who owns which point after adding peers one by one: a later peer takes over a point it shares. */
  function AddAll(hash: string -> nat, replicas: int, owner: map<nat, string>, peers: seq<string>): map<nat, string> {
    if peers == [] then owner
    else
      var peer := peers[|peers| - 1];
      AddAll(hash, replicas, owner, peers[..|peers| - 1]) + Owned(Points(hash, replicas, peer), peer)
  }

  function Owned(points: set<nat>, peer: string): map<nat, string> {
    map h | h in points :: peer
  }

  lemma OneMoreOwned(owner: map<nat, string>, points: set<nat>, h: nat, peer: string)
    ensures (owner + Owned(points, peer))[h := peer] == owner + Owned(points + {h}, peer)
  {
  }

  lemma OneMorePoint(hash: string -> nat, i: nat, peer: string)
    ensures Points(hash, i + 1, peer) == Points(hash, i, peer) + {hash(VirtualNode(i, peer))}
    ensures Replicas(hash, i + 1, peer) == Replicas(hash, i, peer) + [hash(VirtualNode(i, peer))]
  {
  }

  /** The first point met when walking clockwise from h. */
  ghost predicate IsSuccessor(points: set<nat>, h: nat, p: nat) {
    && p in points
    && (p >= h ==> forall q :: q in points && q >= h ==> p <= q)
    && (p < h ==> forall q :: q in points ==> p <= q < h)
  }

  ghost function Lookup(owner: map<nat, string>, h: nat): string {
    if owner.Keys == {} then ""
    else
      HasSuccessor(owner.Keys, h);
      var p :| IsSuccessor(owner.Keys, h, p);
      owner[p]
  }

  lemma HasSuccessor(points: set<nat>, h: nat)
    requires points != {}
    ensures exists p :: IsSuccessor(points, h, p)
  {
    var above := set p | p in points && p >= h;
    var p := Least(if above != {} then above else points);
    assert p < h ==> above == {};
    assert forall q :: q in points && q >= h ==> q in above;
    assert IsSuccessor(points, h, p);
  }

  lemma {:induction false} Least(points: set<nat>) returns (p: nat)
    requires points != {}
    ensures p in points && forall q :: q in points ==> p <= q
    decreases points
  {
    p :| p in points;
    var rest := points - {p};
    if rest != {} {
      var q := Least(rest);
      assert points == rest + {p};
      p := if q < p then q else p;
    } else {
      assert points == {p};
    }
  }

  lemma SuccessorUnique(points: set<nat>, h: nat, p: nat, q: nat)
    requires IsSuccessor(points, h, p) && IsSuccessor(points, h, q)
    ensures p == q
  {
  }

  /** The key goes to the owner of the least point at or above its hash; if there is none, of the least point. */
  lemma LookupClockwise(owner: map<nat, string>, h: nat, p: nat)
    requires p in owner
    ensures p >= h && (forall q :: q in owner && q >= h ==> p <= q) ==> Lookup(owner, h) == owner[p]
    ensures (forall q :: q in owner ==> p <= q < h) ==> Lookup(owner, h) == owner[p]
  {
    if IsSuccessor(owner.Keys, h, p) {
      LookupAt(owner, h, p);
    }
  }

  lemma LookupAt(owner: map<nat, string>, h: nat, p: nat)
    requires IsSuccessor(owner.Keys, h, p)
    ensures Lookup(owner, h) == owner[p]
  {
    var q :| IsSuccessor(owner.Keys, h, q) && Lookup(owner, h) == owner[q];
    SuccessorUnique(owner.Keys, h, p, q);
  }

  lemma OneMorePeer(hash: string -> nat, replicas: int, owner: map<nat, string>, keys: seq<int>,
                    peers: seq<string>, n: nat)
    requires n < |peers|
    ensures AddAll(hash, replicas, owner, peers[..n + 1])
         == AddAll(hash, replicas, owner, peers[..n]) + Owned(Points(hash, replicas, peers[n]), peers[n])
    ensures keys + Hashes(hash, replicas, peers[..n + 1])
         == keys + Hashes(hash, replicas, peers[..n]) + Replicas(hash, replicas, peers[n])
  {
    assert peers[..n + 1][..n] == peers[..n];
  }

  // ---------- the data structure ----------

  class Map {
    const hash: string -> nat
    const replicas: int
    var keys: seq<int>
    var hashMap: map<nat, string>

    ghost predicate Valid()
      reads this
    {
      && Sorted(keys)
      && Consistent(keys, hashMap)
    }

    constructor (replicas: int, hash: string -> nat)
      ensures Valid() && this.replicas == replicas && this.hash == hash && hashMap == map[] && keys == []
    {
      this.replicas, this.hash := replicas, hash;
      keys, hashMap := [], map[];
    }

    method Add(peers: seq<string>)
      requires Valid()
      modifies this
      ensures Valid()
      ensures hashMap == AddAll(hash, replicas, old(hashMap), peers)
      ensures keys == SortInts(old(keys) + Hashes(hash, replicas, peers))
    {
      AddPeers(peers);
      SortKeepsPoints(keys, hashMap);
      keys := SortInts(keys);
    }

    /** The outer loop of Add. */
    method AddPeers(peers: seq<string>)
      requires Consistent(keys, hashMap)
      modifies this
      ensures Consistent(keys, hashMap)
      ensures hashMap == AddAll(hash, replicas, old(hashMap), peers)
      ensures keys == old(keys) + Hashes(hash, replicas, peers)
    {
      var n := 0;
      while n < |peers|
        invariant 0 <= n <= |peers|
        invariant hashMap == AddAll(hash, replicas, old(hashMap), peers[..n])
        invariant keys == old(keys) + Hashes(hash, replicas, peers[..n])
        invariant Consistent(keys, hashMap)
      {
        OneMorePeer(hash, replicas, old(hashMap), old(keys), peers, n);
        AddPeer(peers[n]);
        n := n + 1;
      }
      assert peers[..n] == peers;
    }

    /** The inner loop of Add. */
    method AddPeer(peer: string)
      requires Consistent(keys, hashMap)
      modifies this
      ensures Consistent(keys, hashMap)
      ensures keys == old(keys) + Replicas(hash, replicas, peer)
      ensures hashMap == old(hashMap) + Owned(Points(hash, replicas, peer), peer)
    {
      var i := 0;
      while i < replicas
        invariant 0 <= i && (if replicas >= 0 then i <= replicas else i == 0)
        invariant hashMap == old(hashMap) + Owned(Points(hash, i, peer), peer)
        invariant Consistent(keys, hashMap)
        invariant keys == old(keys) + Replicas(hash, i, peer)
      {
        var h := hash(VirtualNode(i, peer));
        OneMorePoint(hash, i, peer);
        OneMoreOwned(old(hashMap), Points(hash, i, peer), h, peer);
        ConsistentAppend(keys, hashMap, h, peer);
        keys := keys + [h];
        hashMap := hashMap[h := peer];
        i := i + 1;
      }
      if replicas < 0 {
        assert Points(hash, i, peer) == Points(hash, replicas, peer) == {};
        assert Replicas(hash, i, peer) == Replicas(hash, replicas, peer) == [];
      }
    }

    /** sort.Search, then the modulo that closes the ring. */
    method Get(key: string) returns (peer: string)
      requires Valid()
      ensures peer == Lookup(hashMap, hash(key))
    {
      if |keys| == 0 {
        assert hashMap.Keys == {};
        return "";
      }
      var h := hash(key);
      var index := Search(h);
      Wraps(index, |keys|);
      var p := keys[index % |keys|];
      forall q | q in hashMap ensures keys[0] <= q && (q >= h ==> index < |keys| && keys[index] <= q) {
        var k :| 0 <= k < |keys| && keys[k] == q;
      }
      LookupAt(hashMap, h, p);
      return hashMap[p];
    }

    /** The smallest index whose point is not below h, or the length. */
    method Search(h: nat) returns (i: nat)
      requires Sorted(keys)
      ensures i <= |keys|
      ensures forall k :: 0 <= k < |keys| ==> (keys[k] >= h <==> k >= i)
    {
      var j := |keys|;
      i := 0;
      while i < j
        invariant 0 <= i <= j <= |keys|
        invariant forall k :: 0 <= k < i ==> keys[k] < h
        invariant forall k :: j <= k < |keys| ==> keys[k] >= h
      {
        var mid := (i + j) / 2;
        if keys[mid] < h {
          i := mid + 1;
        } else {
          j := mid;
        }
      }
    }
  }

  lemma ConsistentAppend(keys: seq<int>, hashMap: map<nat, string>, h: nat, peer: string)
    requires Consistent(keys, hashMap)
    ensures Consistent(keys + [h], hashMap[h := peer])
  {
  }

  lemma Wraps(i: nat, n: nat)
    requires n > 0 && i <= n
    ensures i % n == if i < n then i else 0
  {
  }

  /** The points on the ring are exactly those with an owner. */
  ghost predicate Consistent(keys: seq<int>, hashMap: map<nat, string>) {
    && (forall k :: 0 <= k < |keys| ==> keys[k] >= 0 && keys[k] in hashMap)
    && (forall h :: h in hashMap ==> h in keys)
  }

  lemma SortKeepsPoints(keys: seq<int>, hashMap: map<nat, string>)
    requires Consistent(keys, hashMap)
    ensures Sorted(SortInts(keys)) && Consistent(SortInts(keys), hashMap)
  {
    var s := SortInts(keys);
    SortIntsSorts(keys);
    assert forall h :: h in s <==> h in multiset(s);
    assert forall h :: h in keys <==> h in multiset(keys);
    assert forall k :: 0 <= k < |s| ==> s[k] in keys;
  }

  // ---------- properties ----------

  /** Which points exist, and that each belongs to a peer that put it there. */
  lemma {:induction false} PointsAdded(hash: string -> nat, replicas: int, owner: map<nat, string>,
                                         peers: seq<string>, h: nat)
    ensures h in AddAll(hash, replicas, owner, peers) <==>
      h in owner || exists p :: p in peers && h in Points(hash, replicas, p)
    ensures h in AddAll(hash, replicas, owner, peers) ==>
      var p := AddAll(hash, replicas, owner, peers)[h];
      if p in peers && h in Points(hash, replicas, p) then true
      else h in owner && owner[h] == p && forall q :: q in peers ==> h !in Points(hash, replicas, q)
  {
    if peers != [] {
      var init := peers[..|peers| - 1];
      PointsAdded(hash, replicas, owner, init, h);
      assert forall p :: p in peers <==> p in init || p == peers[|peers| - 1];
    }
  }

  /** A virtual node is named by its decimal number followed by its peer. */
  predicate PutsOn(hash: string -> nat, replicas: int, peer: string, h: nat) {
    exists i :: 0 <= i < replicas && h == hash(Itoa(i) + peer)
  }

  /** The owner of a point is the last peer on the list that puts a virtual node there. */
  lemma {:induction false} LastPeerOwns(hash: string -> nat, replicas: int, owner: map<nat, string>,
                                        peers: seq<string>, n: nat, h: nat)
    requires n < |peers| && PutsOn(hash, replicas, peers[n], h)
    requires forall k :: n < k < |peers| ==> !PutsOn(hash, replicas, peers[k], h)
    ensures h in AddAll(hash, replicas, owner, peers) && AddAll(hash, replicas, owner, peers)[h] == peers[n]
    decreases |peers|
  {
    PutsOnPoints(hash, replicas, peers[|peers| - 1], h);
    if n < |peers| - 1 {
      var init := peers[..|peers| - 1];
      assert init[n] == peers[n] && forall k :: 0 <= k < |init| ==> init[k] == peers[k];
      LastPeerOwns(hash, replicas, owner, init, n, h);
    }
  }

  lemma PutsOnPoints(hash: string -> nat, replicas: int, peer: string, h: nat)
    ensures PutsOn(hash, replicas, peer, h) <==> h in Points(hash, replicas, peer)
  {
    if PutsOn(hash, replicas, peer, h) {
      var i :| 0 <= i < replicas && h == hash(Itoa(i) + peer);
      assert h == hash(VirtualNode(i, peer));
    }
    if h in Points(hash, replicas, peer) {
      var i :| 0 <= i < replicas && h == hash(VirtualNode(i, peer));
      assert h == hash(Itoa(i) + peer);
    }
  }

  /** A non-empty ring always answers with a peer that was added. */
  lemma LookupIsPeer(hash: string -> nat, replicas: int, peers: seq<string>, h: nat)
    ensures var peer := Lookup(AddAll(hash, replicas, map[], peers), h);
      if peers != [] && replicas > 0 then peer in peers else peer == ""
  {
    var owner := AddAll(hash, replicas, map[], peers);
    if peers != [] && replicas > 0 {
      var x := hash(VirtualNode(0, peers[0]));
      assert x in Points(hash, replicas, peers[0]);
      PointsAdded(hash, replicas, map[], peers, x);
    }
    if owner.Keys != {} {
      HasSuccessor(owner.Keys, h);
      var p :| IsSuccessor(owner.Keys, h, p);
      LookupAt(owner, h, p);
      PointsAdded(hash, replicas, map[], peers, p);
    }
  }

  /** Minimal remapping: adding peers to any ring, whatever collides, moves a key only to one of the peers added. */
  lemma MinimalRemapping(hash: string -> nat, replicas: int, owner: map<nat, string>,
                         peers: seq<string>, h: nat)
    ensures var after := Lookup(AddAll(hash, replicas, owner, peers), h);
      after == Lookup(owner, h) || after in peers
  {
    var owner' := AddAll(hash, replicas, owner, peers);
    if owner'.Keys == {} {
      forall x | x in owner ensures false {
        PointsAdded(hash, replicas, owner, peers, x);
      }
      assert owner.Keys == {};
    } else {
      HasSuccessor(owner'.Keys, h);
      var p :| IsSuccessor(owner'.Keys, h, p);
      LookupAt(owner', h, p);
      PointsAdded(hash, replicas, owner, peers, p);
      if owner'[p] !in peers {
        forall q | q in owner ensures q in owner' {
          PointsAdded(hash, replicas, owner, peers, q);
        }
        LookupAt(owner, h, p);
      }
    }
  }

  /** No virtual node of one peer falls on a virtual node of another. */
  ghost predicate NoCollision(hash: string -> nat, replicas: int, peers: set<string>) {
    forall p, q :: p in peers && q in peers && p != q ==> Points(hash, replicas, p) !! Points(hash, replicas, q)
  }

  function SetOf(peers: seq<string>): set<string> {
    set p | p in peers
  }

  lemma SameRing(hash: string -> nat, replicas: int, xs: seq<string>, ys: seq<string>)
    requires SetOf(xs) == SetOf(ys) && NoCollision(hash, replicas, SetOf(xs))
    ensures AddAll(hash, replicas, map[], xs) == AddAll(hash, replicas, map[], ys)
  {
    var a, b := AddAll(hash, replicas, map[], xs), AddAll(hash, replicas, map[], ys);
    assert forall p :: p in xs <==> p in SetOf(xs);
    assert forall p :: p in ys <==> p in SetOf(ys);
    forall h | h in a || h in b ensures h in a && h in b && a[h] == b[h] {
      PointsAdded(hash, replicas, map[], xs, h);
      PointsAdded(hash, replicas, map[], ys, h);
    }
    assert a.Keys == b.Keys;
  }

  lemma SamePoints(hash: string -> nat, replicas: int, xs: seq<string>, ys: seq<string>)
    requires SetOf(xs) == SetOf(ys)
    ensures AddAll(hash, replicas, map[], xs).Keys == AddAll(hash, replicas, map[], ys).Keys
  {
    assert forall p :: p in xs <==> p in SetOf(xs);
    assert forall p :: p in ys <==> p in SetOf(ys);
    forall x ensures x in AddAll(hash, replicas, map[], xs) <==> x in AddAll(hash, replicas, map[], ys) {
      PointsAdded(hash, replicas, map[], xs, x);
      PointsAdded(hash, replicas, map[], ys, x);
    }
  }

  /** Rings of the same peers have the same points, so two owners of one key share a point. */
  lemma OwnersShare(hash: string -> nat, replicas: int, xs: seq<string>, ys: seq<string>, h: nat)
    requires SetOf(xs) == SetOf(ys) && xs != [] && replicas > 0
    ensures var p, q := Lookup(AddAll(hash, replicas, map[], xs), h), Lookup(AddAll(hash, replicas, map[], ys), h);
      q in SetOf(ys) && !(Points(hash, replicas, p) !! Points(hash, replicas, q))
  {
    var a, b := AddAll(hash, replicas, map[], xs), AddAll(hash, replicas, map[], ys);
    SamePoints(hash, replicas, xs, ys);
    assert hash(VirtualNode(0, xs[0])) in Points(hash, replicas, xs[0]);
    PointsAdded(hash, replicas, map[], xs, hash(VirtualNode(0, xs[0])));
    HasSuccessor(a.Keys, h);
    var k :| IsSuccessor(a.Keys, h, k);
    LookupAt(a, h, k);
    LookupAt(b, h, k);
    PointsAdded(hash, replicas, map[], xs, k);
    PointsAdded(hash, replicas, map[], ys, k);
  }

  ghost predicate SameAnswers(hash: string -> nat, replicas: int, xs: seq<string>, ys: seq<string>) {
    forall key: string ::
      Lookup(AddAll(hash, replicas, map[], xs), hash(key)) == Lookup(AddAll(hash, replicas, map[], ys), hash(key))
  }

  lemma {:induction false} Listing(peers: set<string>) returns (xs: seq<string>)
    ensures SetOf(xs) == peers
    decreases peers
  {
    if peers == {} {
      xs := [];
    } else {
      var p :| p in peers;
      var rest := Listing(peers - {p});
      xs := rest + [p];
      assert forall q :: q in xs <==> q in SetOf(rest) || q == p;
    }
  }

  /** Two peers that share a point answer differently when added in the two orders, for the very name they share. */
  lemma CollisionOrders(hash: string -> nat, replicas: int, peers: set<string>,
                        p: string, q: string, i: nat)
    returns (xs: seq<string>, ys: seq<string>)
    requires p in peers && q in peers && p != q
    requires i < replicas && hash(VirtualNode(i, p)) in Points(hash, replicas, q)
    ensures SetOf(xs) == peers && SetOf(ys) == peers && !SameAnswers(hash, replicas, xs, ys)
    ensures Lookup(AddAll(hash, replicas, map[], xs), hash(VirtualNode(i, p))) == q
    ensures Lookup(AddAll(hash, replicas, map[], ys), hash(VirtualNode(i, p))) == p
  {
    var rest := Listing(peers);
    xs, ys := rest + [p, q], rest + [q, p];
    assert forall x :: x in xs <==> x in SetOf(rest) || x == p || x == q;
    assert forall x :: x in ys <==> x in SetOf(rest) || x == p || x == q;
    var h := hash(VirtualNode(i, p));
    var a, b := AddAll(hash, replicas, map[], xs), AddAll(hash, replicas, map[], ys);
    assert h in Points(hash, replicas, p);
    assert ys[..|ys| - 1] == rest + [q];
    assert a[h] == q && b[h] == p;
    assert IsSuccessor(a.Keys, h, h) && IsSuccessor(b.Keys, h, h);
    LookupAt(a, h, h);
    LookupAt(b, h, h);
  }

  /** The whole lookup function depends only on the set of peers, in whatever order, grouping or repetition they were
      added, exactly if no two peers' virtual nodes collide. */
  lemma OrderIndependence(hash: string -> nat, replicas: int, peers: set<string>)
    ensures NoCollision(hash, replicas, peers) <==>
      forall xs, ys :: SetOf(xs) == peers && SetOf(ys) == peers ==> SameAnswers(hash, replicas, xs, ys)
  {
    if NoCollision(hash, replicas, peers) {
      forall xs, ys | SetOf(xs) == peers && SetOf(ys) == peers ensures SameAnswers(hash, replicas, xs, ys) {
        SameRing(hash, replicas, xs, ys);
      }
    } else {
      var p, q :| p in peers && q in peers && p != q && !(Points(hash, replicas, p) !! Points(hash, replicas, q));
      var h :| h in Points(hash, replicas, p) && h in Points(hash, replicas, q);
      var i: nat :| i < replicas && hash(VirtualNode(i, p)) == h;
      var xs, ys := CollisionOrders(hash, replicas, peers, p, q, i);
    }
  }

  /** Grouping does not matter at all: two Adds are one Add of the concatenation. */
  lemma {:induction false} AddInGroups(hash: string -> nat, replicas: int, owner: map<nat, string>,
                                         xs: seq<string>, ys: seq<string>)
    ensures AddAll(hash, replicas, AddAll(hash, replicas, owner, xs), ys) == AddAll(hash, replicas, owner, xs + ys)
  {
    if ys == [] {
      assert xs + ys == xs;
    } else {
      AddInGroups(hash, replicas, owner, xs, ys[..|ys| - 1]);
      assert (xs + ys)[..|xs + ys| - 1] == xs + ys[..|ys| - 1];
    }
  }

  /** Because the replica number is written in front of the name, some peers collide under every hash function. */
  lemma NamesCollide(hash: string -> nat, replicas: int, name: string)
    requires replicas >= 12
    ensures !NoCollision(hash, replicas, {name, "1" + name})
  {
    assert Itoa(1) == "1" && Itoa(11) == "11";
    assert VirtualNode(11, name) == VirtualNode(1, "1" + name);
    assert |"1" + name| != |name|;
    assert hash(VirtualNode(11, name)) in Points(hash, replicas, name);
    assert hash(VirtualNode(1, "1" + name)) in Points(hash, replicas, "1" + name);
  }
}
