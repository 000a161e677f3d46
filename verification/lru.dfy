/** The size-bounded LRU cache of geecache: a recency list, a map into it and a byte count, refined by an association
    list whose head is the most recent item. */
module Lru {
  import opened Common

  /** A cached value; its Len is its length. */
  type Bytes = string

  datatype Item = Item(key: string, value: Bytes)

  function Size(x: Item): nat {
    |x.key| + |x.value|
  }

  // ---------- the specification ----------

  function Total(s: seq<Item>): nat {
    if s == [] then 0 else Total(s[..|s| - 1]) + Size(s[|s| - 1])
  }

  function Find(s: seq<Item>, key: string): (r: Option<nat>)
    ensures r.Some? ==> r.value < |s| && s[r.value].key == key
    ensures r.None? <==> forall i :: 0 <= i < |s| ==> s[i].key != key
  {
    if s == [] then None
    else if s[|s| - 1].key == key then Some(|s| - 1)
    else Find(s[..|s| - 1], key)
  }

  ghost predicate KeysDistinct(s: seq<Item>) {
    forall i, j :: 0 <= i < j < |s| ==> s[i].key != s[j].key
  }

  /** Element i moved to the front, the others keeping their order. */
  function Moved<T>(s: seq<T>, i: nat): seq<T>
    requires i < |s|
  {
    seq(|s|, n requires 0 <= n < |s| => s[if n == 0 then i else if n <= i then n - 1 else n])
  }

  /** A hit makes its item the most recent one. */
  function Got(s: seq<Item>, key: string): seq<Item> {
    match Find(s, key)
    case None => s
    case Some(i) => Moved(s, i)
  }

  /** A new key goes to the front; a known key is overwritten where it is. */
  function Put(s: seq<Item>, key: string, value: Bytes): seq<Item> {
    match Find(s, key)
    case None => [Item(key, value)] + s
    case Some(i) => s[i := Item(key, value)]
  }

  /** The guard of the eviction loop is false. */
  predicate Fits(maxBytes: int, s: seq<Item>) {
    maxBytes == 0 || Total(s) <= maxBytes
  }

  /** What is left after evicting from the back. */
  function Trim(maxBytes: nat, s: seq<Item>): seq<Item> {
    if Fits(maxBytes, s) then s else Trim(maxBytes, s[..|s| - 1])
  }

  /** What was evicted, in the order of eviction. */
  function Dropped(maxBytes: nat, s: seq<Item>): seq<Item> {
    if Fits(maxBytes, s) then [] else [s[|s| - 1]] + Dropped(maxBytes, s[..|s| - 1])
  }

  function Reverse(s: seq<Item>): seq<Item> {
    if s == [] then [] else Reverse(s[1..]) + [s[0]]
  }

  lemma DropOne(maxBytes: nat, s: seq<Item>, out: seq<Item>)
    requires !Fits(maxBytes, s)
    ensures s != [] && Trim(maxBytes, s) == Trim(maxBytes, s[..|s| - 1])
    ensures out + Dropped(maxBytes, s) == (out + [s[|s| - 1]]) + Dropped(maxBytes, s[..|s| - 1])
  {
  }

  /** Set leaves exactly the longest most-recent part that fits. */
  lemma {:induction false} TrimIsLongestFit(maxBytes: nat, s: seq<Item>)
    ensures Trim(maxBytes, s) <= s && Fits(maxBytes, Trim(maxBytes, s))
    ensures forall m :: |Trim(maxBytes, s)| < m <= |s| ==> !Fits(maxBytes, s[..m])
  {
    if !Fits(maxBytes, s) {
      var init := s[..|s| - 1];
      TrimIsLongestFit(maxBytes, init);
      forall m | |Trim(maxBytes, s)| < m <= |s| ensures !Fits(maxBytes, s[..m]) {
        if m < |s| {
          assert init[..m] == s[..m];
        } else {
          assert s[..m] == s;
        }
      }
    }
  }

  /** Evictions are oldest first and nothing is evicted twice or lost: undoing them rebuilds the list. */
  lemma {:induction false} DroppedIsSuffix(maxBytes: nat, s: seq<Item>)
    ensures Trim(maxBytes, s) + Reverse(Dropped(maxBytes, s)) == s
  {
    if !Fits(maxBytes, s) {
      var init := s[..|s| - 1];
      DroppedIsSuffix(maxBytes, init);
      assert Dropped(maxBytes, s)[1..] == Dropped(maxBytes, init);
      assert s == init + [s[|s| - 1]];
    }
  }

  /** The eviction loop stops, on this list and hence on every list, exactly when the bound is not negative: an empty
      cache is then within it, and otherwise RemoveOldest on the empty list changes nothing for ever. */
  lemma EvictionStops(maxBytes: int, s: seq<Item>)
    ensures maxBytes >= 0 <==> exists n :: 0 <= n <= |s| && Fits(maxBytes, s[..n])
  {
    assert s[..0] == [];
    if maxBytes >= 0 {
      assert Fits(maxBytes, s[..0]);
    }
  }

  // ---------- the data structure ----------

  class Entry {
    const key: string
    var value: Bytes

    constructor (key: string, value: Bytes)
      ensures this.key == key && this.value == value
    {
      this.key, this.value := key, value;
    }
  }

  /** The position of a list element. */
  function IndexOf(list: seq<Entry>, e: Entry): (i: nat)
    requires e in list
    ensures i < |list| && list[i] == e
  {
    if list[|list| - 1] == e then |list| - 1 else IndexOf(list[..|list| - 1], e)
  }

  /** Every list element is the map's entry for its key, every map entry is in the list, and keys do not repeat. */
  ghost predicate Linked(list: seq<Entry>, cache: map<string, Entry>) {
    && (forall i :: 0 <= i < |list| ==> list[i].key in cache && cache[list[i].key] == list[i])
    && (forall k :: k in cache ==> cache[k] in list && cache[k].key == k)
    && (forall i, j :: 0 <= i < j < |list| ==> list[i].key != list[j].key)
  }

  lemma LinkedMoved(list: seq<Entry>, cache: map<string, Entry>, i: nat)
    requires Linked(list, cache) && i < |list|
    ensures Linked(Moved(list, i), cache)
  {
    var list' := Moved(list, i);
    forall e | e in list ensures e in list' {
      var n :| 0 <= n < |list| && list[n] == e;
      assert list'[if n == i then 0 else if n < i then n + 1 else n] == e;
    }
  }

  lemma LinkedPopped(list: seq<Entry>, cache: map<string, Entry>)
    requires Linked(list, cache) && list != []
    ensures Linked(list[..|list| - 1], cache - {list[|list| - 1].key})
  {
    assert list == list[..|list| - 1] + [list[|list| - 1]];
  }

  lemma LinkedPushed(list: seq<Entry>, cache: map<string, Entry>, e: Entry)
    requires Linked(list, cache) && e.key !in cache
    ensures Linked([e] + list, cache[e.key := e])
  {
  }

  ghost function Items(list: seq<Entry>): (s: seq<Item>)
    reads list
  {
    seq(|list|, i requires 0 <= i < |list| reads list => Item(list[i].key, list[i].value))
  }

  lemma ItemsMoved(list: seq<Entry>, i: nat)
    requires i < |list|
    ensures Items(Moved(list, i)) == Moved(Items(list), i)
    ensures Total(Items(Moved(list, i))) == Total(Items(list))
  {
    var list' := Moved(list, i);
    assert forall k :: 0 <= k < |list| ==> Items(list')[k] == Moved(Items(list), i)[k];
    TotalMoved(Items(list), i);
  }

  class Cache {
    const maxBytes: int
    const hasCallback: bool
    var usedBytes: int
    /** list.List, front first. */
    var list: seq<Entry>
    var cache: map<string, Entry>
    /** The calls made to the eviction callback. */
    var evicted: seq<Item>

    ghost function Contents(): seq<Item>
      reads this, list
    {
      Items(list)
    }

    /** List and map agree one to one, and the byte count is right. */
    ghost predicate Valid()
      reads this, list
    {
      && Linked(list, cache)
      && usedBytes == Total(Contents())
    }

    constructor (maxBytes: int, hasCallback: bool)
      ensures Valid() && Contents() == [] && evicted == []
      ensures this.maxBytes == maxBytes && this.hasCallback == hasCallback
    {
      this.maxBytes, this.hasCallback := maxBytes, hasCallback;
      usedBytes, list, cache, evicted := 0, [], map[], [];
    }

    /** The map lookup finds what a search of the list would find. */
    lemma FoundAt(key: string)
      requires Valid()
      ensures key in cache <==> Find(Contents(), key).Some?
      ensures key in cache ==> Find(Contents(), key) == Some(IndexOf(list, cache[key]))
    {
      if key in cache {
        var i := IndexOf(list, cache[key]);
        assert Contents()[i].key == key;
      }
      if Find(Contents(), key).Some? {
        assert list[Find(Contents(), key).value].key == key;
      }
    }

    method Get(key: string) returns (value: Option<Bytes>)
      requires Valid()
      modifies this`list
      ensures Valid() && Contents() == Got(old(Contents()), key)
      ensures value == match Find(old(Contents()), key) case None => None case Some(i) => Some(old(Contents())[i].value)
    {
      FoundAt(key);
      if key in cache {
        var ele := cache[key];
        MoveToFront(ele);
        return Some(ele.value);
      }
      return None;
    }

    method MoveToFront(ele: Entry)
      requires Valid() && ele in list
      modifies this`list
      ensures Valid()
      ensures var i, before := IndexOf(old(list), ele), old(Contents());
        Contents() == Moved(before, i)
    {
      var i := IndexOf(list, ele);
      LinkedMoved(list, cache, i);
      ItemsMoved(list, i);
      list := Moved(list, i);
    }

    method RemoveOldest()
      requires Valid()
      modifies this`list, this`cache, this`usedBytes, this`evicted
      ensures Valid()
      ensures old(Contents()) == [] ==> Contents() == [] && evicted == old(evicted)
      ensures old(Contents()) != [] ==>
        && Contents() == old(Contents())[..|old(Contents())| - 1]
        && evicted == old(evicted) + if hasCallback then [old(Contents())[|old(Contents())| - 1]] else []
    {
      if |list| > 0 {
        ghost var before := Contents();
        var ele := list[|list| - 1];
        LinkedPopped(list, cache);
        list := list[..|list| - 1];
        cache := cache - {ele.key};
        usedBytes := usedBytes - (|ele.value| + |ele.key|);
        if hasCallback {
          evicted := evicted + [Item(ele.key, ele.value)];
        }
        assert Contents() == before[..|before| - 1];
        assert before[|before| - 1] == Item(ele.key, ele.value);
      }
    }

    method Set(key: string, value: Bytes)
      requires Valid() && maxBytes >= 0
      modifies this, list
      ensures Valid()
      ensures Contents() == Trim(maxBytes, Put(old(Contents()), key, value))
      ensures evicted == old(evicted) + if hasCallback then Dropped(maxBytes, Put(old(Contents()), key, value)) else []
    {
      Store(key, value);
      Evict();
    }

    /** The loop at the end of Set. */
    method Evict()
      requires Valid() && maxBytes >= 0
      modifies this`list, this`cache, this`usedBytes, this`evicted
      ensures Valid()
      ensures Contents() == Trim(maxBytes, old(Contents()))
      ensures evicted == old(evicted) + if hasCallback then Dropped(maxBytes, old(Contents())) else []
    {
      ghost var whole, left, out: seq<Item> := Contents(), Contents(), [];
      while maxBytes != 0 && maxBytes < usedBytes
        invariant Valid() && left == Contents()
        invariant Trim(maxBytes, left) == Trim(maxBytes, whole)
        invariant out + Dropped(maxBytes, left) == Dropped(maxBytes, whole)
        invariant evicted == old(evicted) + if hasCallback then out else []
        decreases |left|
      {
        DropOne(maxBytes, left, out);
        RemoveOldest();
        out := out + [left[|left| - 1]];
        left := left[..|left| - 1];
      }
    }

    /** The first half of Set: overwrite in place, or push to the front. */
    method Store(key: string, value: Bytes)
      requires Valid()
      modifies this`usedBytes, this`list, this`cache, list
      ensures Valid() && Contents() == Put(old(Contents()), key, value)
    {
      FoundAt(key);
      if key in cache {
        Overwrite(cache[key], value);
      } else {
        Push(key, value);
      }
    }

    method Overwrite(kv: Entry, value: Bytes)
      requires Valid() && kv in list
      modifies this`usedBytes, kv
      ensures Valid() && Contents() == old(Contents())[IndexOf(list, kv) := Item(kv.key, value)]
    {
      ghost var before, i := Contents(), IndexOf(list, kv);
      TotalUpdated(before, i, Item(kv.key, value));
      usedBytes := usedBytes + |value| - |kv.value|;
      kv.value := value;
      assert Contents() == before[i := Item(kv.key, value)];
    }

    method Push(key: string, value: Bytes)
      requires Valid() && key !in cache
      modifies this`usedBytes, this`list, this`cache
      ensures Valid() && Contents() == [Item(key, value)] + old(Contents())
    {
      ghost var before := Contents();
      var kv := new Entry(key, value);
      TotalConcat([Item(key, value)], before);
      LinkedPushed(list, cache, kv);
      list := [kv] + list;
      cache := cache[key := kv];
      usedBytes := usedBytes + |value| + |key|;
      assert Contents() == [Item(key, value)] + before;
    }
  }

  lemma {:induction false} TotalConcat(a: seq<Item>, b: seq<Item>)
    ensures Total(a + b) == Total(a) + Total(b)
  {
    if b == [] {
      assert a + b == a;
    } else {
      assert (a + b)[..|a + b| - 1] == a + b[..|b| - 1];
      TotalConcat(a, b[..|b| - 1]);
    }
  }

  lemma TotalParts(a: seq<Item>, x: Item, b: seq<Item>)
    ensures Total(a + [x] + b) == Total(a) + Size(x) + Total(b)
    ensures Total([x] + a + b) == Total(a) + Size(x) + Total(b)
  {
    TotalConcat(a + [x], b);
    TotalConcat(a, [x]);
    TotalConcat([x] + a, b);
    TotalConcat([x], a);
    assert Total([x]) == Size(x);
  }

  lemma SplitAt(s: seq<Item>, i: nat, x: Item)
    requires i < |s|
    ensures s == s[..i] + [s[i]] + s[i + 1..]
    ensures s[i := x] == s[..i] + [x] + s[i + 1..]
    ensures Moved(s, i) == [s[i]] + s[..i] + s[i + 1..]
  {
  }

  lemma TotalMoved(s: seq<Item>, i: nat)
    requires i < |s|
    ensures Total(Moved(s, i)) == Total(s)
  {
    SplitAt(s, i, s[i]);
    TotalParts(s[..i], s[i], s[i + 1..]);
  }

  lemma TotalUpdated(s: seq<Item>, i: nat, x: Item)
    requires i < |s|
    ensures Total(s[i := x]) == Total(s) - Size(s[i]) + Size(x)
  {
    SplitAt(s, i, x);
    TotalParts(s[..i], s[i], s[i + 1..]);
    TotalParts(s[..i], x, s[i + 1..]);
  }
}
