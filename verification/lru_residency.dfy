/** Which keys the LRU cache still holds after a Set, the one just set included. */
module LruResidency {
  import opened Common
  import opened Lru
  import opened LruHistory

  /** The items in front of a key, which are those used after it; none if the key is not there. */
  function Ahead(s: seq<Item>, key: string): seq<Item> {
    match Find(s, key)
    case None => []
    case Some(i) => s[..i]
  }

  /** The part of the list that has to stay if the key just set is to stay. */
  function UpTo(s: seq<Item>, key: string, value: Bytes): seq<Item> {
    Ahead(s, key) + [Item(key, value)]
  }

  // ---------- one Set ----------

  lemma UpToIsPrefix(s: seq<Item>, key: string, value: Bytes)
    ensures UpTo(s, key, value) <= Put(s, key, value) && Ahead(s, key) <= s
    ensures Ahead(s, key) == Put(s, key, value)[..|Ahead(s, key)|]
  {
  }

  lemma TotalOfPrefix(s: seq<Item>, n: nat)
    requires n <= |s|
    ensures Total(s[..n]) <= Total(s)
  {
    TotalConcat(s[..n], s[n..]);
    assert s == s[..n] + s[n..];
  }

  /** Trimming keeps a beginning of the list exactly if it is within the bound. */
  lemma StaysIfFits(maxBytes: nat, s: seq<Item>, n: nat)
    requires n <= |s|
    ensures n <= |Trim(maxBytes, s)| <==> Fits(maxBytes, s[..n])
  {
    TrimIsLongestFit(maxBytes, s);
    var left := Trim(maxBytes, s);
    if n <= |left| {
      TotalOfPrefix(left, n);
      assert left[..n] == s[..n];
    }
  }

  /** Trimming keeps a key, in its place, exactly if it fits together with the items in front of it. */
  lemma KeyStays(maxBytes: nat, s: seq<Item>, i: nat)
    requires KeysDistinct(s) && i < |s|
    ensures Find(Trim(maxBytes, s), s[i].key) == if Fits(maxBytes, s[..i + 1]) then Some(i) else None
  {
    StaysIfFits(maxBytes, s, i + 1);
    TrimIsLongestFit(maxBytes, s);
    assert forall j :: 0 <= j < |s| && j != i ==> s[j].key != s[i].key;
  }

  lemma AnyStays(maxBytes: nat, s: seq<Item>, key: string)
    requires KeysDistinct(s)
    ensures Find(Trim(maxBytes, s), key).Some? <==>
      Find(s, key).Some? && Fits(maxBytes, s[..Find(s, key).value + 1])
  {
    TrimIsLongestFit(maxBytes, s);
    if Find(s, key).Some? {
      KeyStays(maxBytes, s, Find(s, key).value);
    }
  }

  /** So the key that was just set is there, where it was, exactly if the new value fits together with the items in
      front of it. */
  lemma SetStays(maxBytes: nat, s: seq<Item>, key: string, value: Bytes)
    requires KeysDistinct(s)
    ensures Find(Trim(maxBytes, Put(s, key, value)), key)
         == if Fits(maxBytes, UpTo(s, key, value)) then Some(|Ahead(s, key)|) else None
  {
    var wanted, n := Put(s, key, value), |Ahead(s, key)|;
    UpToIsPrefix(s, key, value);
    assert UpTo(s, key, value) == wanted[..n + 1] && wanted[n].key == key;
    PutDistinct(s, key, value);
    KeyStays(maxBytes, wanted, n);
  }

  lemma PutDistinct(s: seq<Item>, key: string, value: Bytes)
    requires KeysDistinct(s)
    ensures KeysDistinct(Put(s, key, value))
  {
  }

  /** If it does not fit, it goes with everything behind it, and everything in front of it stays. */
  lemma SetLost(maxBytes: nat, s: seq<Item>, key: string, value: Bytes)
    requires Fits(maxBytes, s) && !Fits(maxBytes, UpTo(s, key, value))
    ensures Trim(maxBytes, Put(s, key, value)) == Ahead(s, key)
  {
    var wanted, n := Put(s, key, value), |Ahead(s, key)|;
    UpToIsPrefix(s, key, value);
    assert UpTo(s, key, value) == wanted[..n + 1];
    StaysIfFits(maxBytes, wanted, n + 1);
    StaysIfFits(maxBytes, wanted, n);
    TotalOfPrefix(s, n);
    TrimIsLongestFit(maxBytes, wanted);
  }

  /** All keys and values, end to end. */
  function Laid(s: seq<Item>): string {
    if s == [] then "" else s[0].key + s[0].value + Laid(s[1..])
  }

  /** The bound is on the characters of all keys and values together. */
  lemma FitsCountsAll(maxBytes: int, s: seq<Item>)
    ensures Fits(maxBytes, s) <==> maxBytes == 0 || |Laid(s)| <= maxBytes
  {
    TotalIsLaid(s);
  }

  lemma {:induction false} TotalIsLaid(s: seq<Item>)
    ensures Total(s) == |Laid(s)|
  {
    if s != [] {
      TotalIsLaid(s[..|s| - 1]);
      LaidSum(s[..|s| - 1], s[|s| - 1]);
      assert s == s[..|s| - 1] + [s[|s| - 1]];
    }
  }

  lemma {:induction false} LaidSum(s: seq<Item>, x: Item)
    ensures Laid(s + [x]) == Laid(s) + (x.key + x.value)
  {
    if s == [] {
      assert s + [x] == [x] && [x][1..] == [];
    } else {
      assert (s + [x])[1..] == s[1..] + [x];
      LaidSum(s[1..], x);
    }
  }

  /** Trimming empties a list exactly if not even its first item is within the bound. */
  lemma TrimEmpties(maxBytes: nat, s: seq<Item>)
    requires s != []
    ensures Trim(maxBytes, s) == [] <==> maxBytes != 0 && |s[0].key| + |s[0].value| > maxBytes
  {
    StaysIfFits(maxBytes, s, 1);
    assert s[..1] == [s[0]] && Total([s[0]]) == Size(s[0]);
  }

  // ---------- over whole histories ----------

  lemma {:induction false} RunFits(maxBytes: nat, ops: seq<Op>)
    ensures Fits(maxBytes, Run(maxBytes, ops).list)
  {
    if ops != [] {
      var before, op := Run(maxBytes, ops[..|ops| - 1]), ops[|ops| - 1];
      RunFits(maxBytes, ops[..|ops| - 1]);
      match op
      case GetOp(key) => GotFits(before.list, key);
      case SetOp(key, value) => TrimIsLongestFit(maxBytes, Put(before.list, key, value));
      case RemoveOp =>
        if before.list != [] {
          TotalOfPrefix(before.list, |before.list| - 1);
        }
    }
  }

  lemma GotFits(s: seq<Item>, key: string)
    ensures Total(Got(s, key)) == Total(s)
  {
    if Find(s, key).Some? {
      TotalMoved(s, Find(s, key).value);
    }
  }

  lemma RunStep(maxBytes: nat, ops: seq<Op>, op: Op)
    ensures Run(maxBytes, ops + [op]) == Step(maxBytes, Run(maxBytes, ops), op)
  {
    assert (ops + [op])[..|ops|] == ops;
  }

  /** A Get right after a Set of its key hits exactly if the new value fits together with all items used after that key;
      if it misses, those are all that is left. */
  lemma HitAfterSet(maxBytes: nat, ops: seq<Op>, key: string, value: Bytes)
    ensures var before, after := Run(maxBytes, ops).list, Run(maxBytes, ops + [SetOp(key, value)]).list;
      && (Find(after, key).Some? <==> Fits(maxBytes, UpTo(before, key, value)))
      && (Find(after, key).None? ==> after == Ahead(before, key))
  {
    RunStep(maxBytes, ops, SetOp(key, value));
    ListInvariant(maxBytes, ops);
    RunFits(maxBytes, ops);
    SetStays(maxBytes, Run(maxBytes, ops).list, key, value);
    if !Fits(maxBytes, UpTo(Run(maxBytes, ops).list, key, value)) {
      SetLost(maxBytes, Run(maxBytes, ops).list, key, value);
    }
  }

  /** A Set of another key leaves a resident key in the cache exactly if it fits, with the other's new value, together
      with what is then in front of it. */
  lemma HitAfterOther(maxBytes: nat, ops: seq<Op>, other: string, value: Bytes, key: string)
    requires other != key
    ensures var before, after := Run(maxBytes, ops).list, Run(maxBytes, ops + [SetOp(other, value)]).list;
      var wanted := Put(before, other, value);
      && (Find(before, key).Some? <==> Find(wanted, key).Some?)
      && (Find(after, key).Some? <==> Find(wanted, key).Some? && Fits(maxBytes, wanted[..Find(wanted, key).value + 1]))
  {
    RunStep(maxBytes, ops, SetOp(other, value));
    ListInvariant(maxBytes, ops);
    OtherStays(maxBytes, Run(maxBytes, ops).list, other, value, key);
  }

  lemma OtherStays(maxBytes: nat, s: seq<Item>, other: string, value: Bytes, key: string)
    requires KeysDistinct(s) && other != key
    ensures var wanted := Put(s, other, value);
      && (Find(s, key).Some? <==> Find(wanted, key).Some?)
      && (Find(Trim(maxBytes, wanted), key).Some? <==>
            Find(wanted, key).Some? && Fits(maxBytes, wanted[..Find(wanted, key).value + 1]))
  {
    PutDistinct(s, other, value);
    SameOthers(s, other, value, key);
    AnyStays(maxBytes, Put(s, other, value), key);
  }

  lemma SameOthers(s: seq<Item>, other: string, value: Bytes, key: string)
    requires other != key
    ensures Find(s, key).Some? <==> Find(Put(s, other, value), key).Some?
  {
    var wanted, shift := Put(s, other, value), if Find(s, other).Some? then 0 else 1;
    if Find(s, key).Some? {
      assert wanted[Find(s, key).value + shift].key == key;
    }
    if Find(wanted, key).Some? {
      assert s[Find(wanted, key).value - shift].key == key;
    }
  }

  /** What stands in front of a resident key, said without the list: the resident keys that were used later. */
  lemma AheadIsNewer(maxBytes: nat, ops: seq<Op>, key: string, k: string)
    requires Find(Run(maxBytes, ops).list, key).Some?
    ensures Find(Ahead(Run(maxBytes, ops).list, key), k).Some? <==>
      Find(Run(maxBytes, ops).list, k).Some? && LastUse(maxBytes, ops, k) > LastUse(maxBytes, ops, key)
  {
    var s, use := Run(maxBytes, ops).list, (k' => LastUse(maxBytes, ops, k'));
    var i, r := Find(s, key).value, Find(s, k);
    ListInvariant(maxBytes, ops);
    RecencyOrder(maxBytes, ops);
    if r.Some? {
      assert r.value < i ==> Newer(s[r.value], s[i], use) && s[..i][r.value].key == k;
      assert i < r.value ==> Newer(s[i], s[r.value], use);
    }
  }

  /** A Set empties the cache exactly if its item alone exceeds the bound and nothing was used after its key. */
  lemma SetEmpties(maxBytes: nat, ops: seq<Op>, key: string, value: Bytes)
    ensures Run(maxBytes, ops + [SetOp(key, value)]).list == [] <==>
      maxBytes != 0 && |key| + |value| > maxBytes && Ahead(Run(maxBytes, ops).list, key) == []
  {
    var before := Run(maxBytes, ops).list;
    RunStep(maxBytes, ops, SetOp(key, value));
    RunFits(maxBytes, ops);
    UpToIsPrefix(before, key, value);
    TrimEmpties(maxBytes, Put(before, key, value));
    if Ahead(before, key) != [] {
      StaysIfFits(maxBytes, before, 1);
      TrimEmpties(maxBytes, before);
    }
  }

  /** Changing the value of a resident key is no use of it: no key's last use changes, and the keys that stay keep their
      order. */
  lemma OverwriteKeepsPlace(maxBytes: nat, ops: seq<Op>, key: string, value: Bytes, k: string)
    requires Find(Run(maxBytes, ops).list, key).Some?
    ensures Keys(Run(maxBytes, ops + [SetOp(key, value)]).list) <= Keys(Run(maxBytes, ops).list)
    ensures LastUse(maxBytes, ops + [SetOp(key, value)], k) == LastUse(maxBytes, ops, k)
  {
    var before := Run(maxBytes, ops).list;
    RunStep(maxBytes, ops, SetOp(key, value));
    TrimIsLongestFit(maxBytes, Put(before, key, value));
    assert Keys(Put(before, key, value)) == Keys(before);
    assert (ops + [SetOp(key, value)])[..|ops|] == ops;
  }

  /** So the key used longest ago is still the next to go, just after it was given a new value that fits. */
  lemma OverwrittenGoesNext(maxBytes: nat, ops: seq<Op>, key: string, value: Bytes)
    requires Find(Run(maxBytes, ops).list, key) == Some(|Run(maxBytes, ops).list| - 1)
    requires Fits(maxBytes, UpTo(Run(maxBytes, ops).list, key, value))
    ensures var st := Run(maxBytes, ops + [SetOp(key, value)] + [RemoveOp]);
      st.evicted != [] && st.evicted[|st.evicted| - 1] == Item(key, value)
  {
    var before := Run(maxBytes, ops);
    var wanted := Put(before.list, key, value);
    RunStep(maxBytes, ops, SetOp(key, value));
    RunStep(maxBytes, ops + [SetOp(key, value)], RemoveOp);
    UpToIsPrefix(before.list, key, value);
    assert UpTo(before.list, key, value) == wanted;
  }

  lemma TwoItems(maxBytes: nat, newer: Item, older: Item)
    requires newer.key != older.key && 0 < Size(newer) + Size(older) <= maxBytes
    ensures Run(maxBytes, [SetOp(older.key, older.value), SetOp(newer.key, newer.value)]).list == [newer, older]
  {
    var first, second := SetOp(older.key, older.value), SetOp(newer.key, newer.value);
    RunStep(maxBytes, [], first);
    assert [] + [first] == [first];
    assert Total([older]) == Size(older);
    RunStep(maxBytes, [first], second);
    assert [first] + [second] == [first, second];
    TotalConcat([newer], [older]);
    assert [newer] + [older] == [newer, older] && Total([newer]) == Size(newer);
  }

  /** The case that surprises: a known key with an item used after it gets a value too large for the cache. The key is
      gone although it was set last, and the cache is not empty. */
  lemma JustSetIsLost(maxBytes: nat, newer: Item, older: Item, value: Bytes)
    requires newer.key != older.key && 0 < Size(newer) + Size(older) <= maxBytes < Size(Item(older.key, value))
    ensures var ops := [SetOp(older.key, older.value), SetOp(newer.key, newer.value), SetOp(older.key, value)];
      && Run(maxBytes, ops).list == [newer]
      && LastSet(ops, older.key) == Some(value) && Find(Run(maxBytes, ops).list, older.key) == None
  {
    var ops := [SetOp(older.key, older.value), SetOp(newer.key, newer.value)];
    TwoItems(maxBytes, newer, older);
    HitAfterSet(maxBytes, ops, older.key, value);
    assert ops + [SetOp(older.key, value)] == [ops[0], ops[1], SetOp(older.key, value)];
    assert Ahead([newer, older], older.key) == [newer];
    TotalConcat([newer], [Item(older.key, value)]);
    assert Total([Item(older.key, value)]) == Size(Item(older.key, value));
  }
}
