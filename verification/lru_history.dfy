/** What the LRU cache guarantees over whole histories of operations, on the specification that Lru.Cache refines. */
module LruHistory {
  import opened Common
  import opened Lru

  datatype Op = GetOp(key: string) | SetOp(key: string, value: Bytes) | RemoveOp

  /** The resident items, the keys ever inserted anew, and the items handed to the eviction callback. */
  datatype State = State(list: seq<Item>, inserted: seq<string>, evicted: seq<Item>)

  function Step(maxBytes: nat, st: State, op: Op): State {
    match op
    case GetOp(key) => st.(list := Got(st.list, key))
    case SetOp(key, value) =>
      var wanted := Put(st.list, key, value);
      State(Trim(maxBytes, wanted),
            if Find(st.list, key).None? then st.inserted + [key] else st.inserted,
            st.evicted + Dropped(maxBytes, wanted))
    case RemoveOp =>
      if st.list == [] then st
      else State(st.list[..|st.list| - 1], st.inserted, st.evicted + [st.list[|st.list| - 1]])
  }

  function Run(maxBytes: nat, ops: seq<Op>): State {
    if ops == [] then State([], [], [])
    else Step(maxBytes, Run(maxBytes, ops[..|ops| - 1]), ops[|ops| - 1])
  }

  // ---------- items keep their latest values ----------

  /** The value of the most recent Set of a key. */
  function LastSet(ops: seq<Op>, key: string): Option<Bytes> {
    if ops == [] then None
    else
      var op := ops[|ops| - 1];
      if op.SetOp? && op.key == key then Some(op.value) else LastSet(ops[..|ops| - 1], key)
  }

  ghost predicate Current(ops: seq<Op>, s: seq<Item>) {
    forall i :: 0 <= i < |s| ==> LastSet(ops, s[i].key) == Some(s[i].value)
  }

  /** What a step made of the list before anything was dropped. */
  function Touched(st: State, op: Op): seq<Item> {
    match op
    case GetOp(key) => Got(st.list, key)
    case SetOp(key, value) => Put(st.list, key, value)
    case RemoveOp => st.list
  }

  /** A step drops a suffix, newest kept, and reports it oldest first. */
  lemma StepDrops(maxBytes: nat, st: State, op: Op) returns (dropped: seq<Item>)
    ensures Touched(st, op) == Step(maxBytes, st, op).list + Reverse(dropped)
    ensures Step(maxBytes, st, op).evicted == st.evicted + dropped
  {
    match op
    case GetOp(_) =>
      dropped := [];
    case SetOp(key, value) =>
      dropped := Dropped(maxBytes, Put(st.list, key, value));
      DroppedIsSuffix(maxBytes, Put(st.list, key, value));
    case RemoveOp =>
      dropped := if st.list == [] then [] else [st.list[|st.list| - 1]];
      assert dropped != [] ==> dropped[1..] == [] && Reverse(dropped) == dropped;
  }

  lemma {:induction false} ReverseElements(s: seq<Item>)
    ensures |Reverse(s)| == |s|
    ensures forall i :: 0 <= i < |s| ==> Reverse(s)[i] == s[|s| - 1 - i]
  {
    if s != [] {
      ReverseElements(s[1..]);
    }
  }

  lemma StepPrefix(maxBytes: nat, st: State, op: Op)
    ensures Step(maxBytes, st, op).list <= Touched(st, op)
  {
    var dropped := StepDrops(maxBytes, st, op);
  }

  lemma TouchedDistinct(st: State, op: Op)
    requires KeysDistinct(st.list)
    ensures KeysDistinct(Touched(st, op))
  {
  }

  lemma TouchedCurrent(ops: seq<Op>, st: State)
    requires ops != [] && KeysDistinct(st.list) && Current(ops[..|ops| - 1], st.list)
    ensures Current(ops, Touched(st, ops[|ops| - 1]))
  {
  }

  lemma {:induction false} ListInvariant(maxBytes: nat, ops: seq<Op>)
    ensures KeysDistinct(Run(maxBytes, ops).list) && Current(ops, Run(maxBytes, ops).list)
  {
    if ops != [] {
      var before, op := Run(maxBytes, ops[..|ops| - 1]), ops[|ops| - 1];
      ListInvariant(maxBytes, ops[..|ops| - 1]);
      TouchedDistinct(before, op);
      TouchedCurrent(ops, before);
      StepPrefix(maxBytes, before, op);
      PrefixKeeps(ops, Run(maxBytes, ops).list, Touched(before, op));
    }
  }

  lemma PrefixKeeps(ops: seq<Op>, s: seq<Item>, t: seq<Item>)
    requires s <= t && KeysDistinct(t) && Current(ops, t)
    ensures KeysDistinct(s) && Current(ops, s)
  {
    assert forall i :: 0 <= i < |s| ==> s[i] == t[i];
  }

  /** A hit always returns the value of the most recent Set of its key. */
  lemma HitIsLastSet(maxBytes: nat, ops: seq<Op>, key: string)
    ensures var r := Find(Run(maxBytes, ops).list, key);
      r.Some? ==> LastSet(ops, key) == Some(Run(maxBytes, ops).list[r.value].value)
  {
    ListInvariant(maxBytes, ops);
  }

  /** Every eviction reports the value its key had at that moment. */
  lemma EvictedIsCurrent(maxBytes: nat, ops: seq<Op>, i: nat)
    requires ops != []
    requires |Run(maxBytes, ops[..|ops| - 1]).evicted| <= i < |Run(maxBytes, ops).evicted|
    ensures LastSet(ops, Run(maxBytes, ops).evicted[i].key) == Some(Run(maxBytes, ops).evicted[i].value)
  {
    var before, op := Run(maxBytes, ops[..|ops| - 1]), ops[|ops| - 1];
    ListInvariant(maxBytes, ops[..|ops| - 1]);
    TouchedCurrent(ops, before);
    var dropped := StepDrops(maxBytes, before, op);
    ReverseElements(dropped);
    var touched := Touched(before, op);
    var k := i - |before.evicted|;
    assert touched[|touched| - 1 - k] == dropped[k];
  }

  // ---------- conservation ----------

  function Keys(s: seq<Item>): seq<string> {
    seq(|s|, i requires 0 <= i < |s| => s[i].key)
  }

  lemma KeysConcat(s: seq<Item>, t: seq<Item>)
    ensures multiset(Keys(s + t)) == multiset(Keys(s)) + multiset(Keys(t))
  {
    assert Keys(s + t) == Keys(s) + Keys(t);
  }

  lemma {:induction false} KeysReversed(s: seq<Item>)
    ensures multiset(Keys(Reverse(s))) == multiset(Keys(s))
  {
    if s != [] {
      KeysReversed(s[1..]);
      KeysConcat(Reverse(s[1..]), [s[0]]);
      KeysConcat([s[0]], s[1..]);
      assert s == [s[0]] + s[1..];
    }
  }

  lemma KeysMoved(s: seq<Item>, i: nat)
    requires i < |s|
    ensures multiset(Keys(Moved(s, i))) == multiset(Keys(s))
  {
    var a, b := Keys(s[..i]), Keys(s[i + 1..]);
    assert Keys(Moved(s, i)) == [s[i].key] + a + b;
    assert Keys(s) == a + [s[i].key] + b;
  }

  lemma StepKeys(maxBytes: nat, st: State, op: Op)
    ensures var st' := Step(maxBytes, st, op);
      multiset(Keys(st'.list)) + multiset(Keys(st'.evicted))
        == multiset(Keys(Touched(st, op))) + multiset(Keys(st.evicted))
  {
    var list := Step(maxBytes, st, op).list;
    var dropped := StepDrops(maxBytes, st, op);
    KeysReversed(dropped);
    KeysConcat(list, Reverse(dropped));
    KeysConcat(st.evicted, dropped);
  }

  /** Conservation: the insertions of new keys are exactly the resident keys and the evicted ones, with multiplicity. */
  lemma {:induction false} Conservation(maxBytes: nat, ops: seq<Op>)
    ensures var st := Run(maxBytes, ops);
      multiset(st.inserted) == multiset(Keys(st.list)) + multiset(Keys(st.evicted))
  {
    if ops == [] {
      assert Keys([]) == [];
    } else {
      var before, op := Run(maxBytes, ops[..|ops| - 1]), ops[|ops| - 1];
      Conservation(maxBytes, ops[..|ops| - 1]);
      StepKeys(maxBytes, before, op);
      TouchedKeys(before, op);
    }
  }

  lemma TouchedKeys(st: State, op: Op)
    ensures multiset(Keys(Touched(st, op))) ==
      multiset(Keys(st.list)) + if op.SetOp? && Find(st.list, op.key).None? then multiset{op.key} else multiset{}
  {
    match op
    case GetOp(key) =>
      var r := Find(st.list, key);
      if r.Some? {
        KeysMoved(st.list, r.value);
      }
    case SetOp(key, value) =>
      if Find(st.list, key).Some? {
        assert Keys(Touched(st, op)) == Keys(st.list);
      } else {
        assert Keys(Touched(st, op)) == [key] + Keys(st.list);
      }
    case RemoveOp =>
  }

  // ---------- recency ----------

  /** A lookup uses its key, and so does the insertion of a new one; overwriting does not. */
  predicate Uses(st: State, op: Op, key: string) {
    (op.GetOp? && op.key == key) || (op.SetOp? && op.key == key && Find(st.list, key).None?)
  }

  /** When a key was last used. */
  function LastUse(maxBytes: nat, ops: seq<Op>, key: string): nat {
    if ops == [] then 0
    else
      var before, op := Run(maxBytes, ops[..|ops| - 1]), ops[|ops| - 1];
      if Uses(before, op, key) then |ops| else LastUse(maxBytes, ops[..|ops| - 1], key)
  }

  lemma {:induction false} LastUseBound(maxBytes: nat, ops: seq<Op>, key: string)
    ensures LastUse(maxBytes, ops, key) <= |ops|
  {
    if ops != [] {
      LastUseBound(maxBytes, ops[..|ops| - 1], key);
    }
  }

  ghost predicate InOrder(s: seq<Item>, use: string -> nat) {
    forall i, j :: 0 <= i < j < |s| ==> Newer(s[i], s[j], use)
  }

  predicate Newer(x: Item, y: Item, use: string -> nat) {
    use(x.key) > use(y.key)
  }

  /** One step keeps the order: what it uses moves to the front, and nothing else moves. */
  lemma TouchedInOrder(st: State, op: Op, use: string -> nat, use': string -> nat, now: nat)
    requires KeysDistinct(st.list) && InOrder(st.list, use)
    requires forall k :: use(k) < now
    requires forall k :: use'(k) == if Uses(st, op, k) then now else use(k)
    ensures InOrder(Touched(st, op), use')
  {
    match op
    case GetOp(key) => GotInOrder(st, key, use, use', now);
    case SetOp(key, value) => PutInOrder(st, key, value, use, use', now);
    case RemoveOp =>
  }

  lemma GotInOrder(st: State, key: string, use: string -> nat, use': string -> nat, now: nat)
    requires KeysDistinct(st.list) && InOrder(st.list, use)
    requires forall k :: use(k) < now
    requires forall k :: use'(k) == if k == key then now else use(k)
    ensures InOrder(Got(st.list, key), use')
  {
    var s, found := Got(st.list, key), Find(st.list, key);
    forall i, j | 0 <= i < j < |s| ensures Newer(s[i], s[j], use') {
      if found.None? {
        assert Newer(st.list[i], st.list[j], use);
      } else {
        var r := found.value;
        assert s[j] == st.list[if j <= r then j - 1 else j] && s[j].key != key;
        if i > 0 {
          assert s[i] == st.list[if i <= r then i - 1 else i] && Newer(s[i], s[j], use);
        }
      }
    }
  }

  lemma PutInOrder(st: State, key: string, value: Bytes, use: string -> nat, use': string -> nat,
                   now: nat)
    requires KeysDistinct(st.list) && InOrder(st.list, use)
    requires forall k :: use(k) < now
    requires forall k :: use'(k) == if k == key && Find(st.list, key).None? then now else use(k)
    ensures InOrder(Put(st.list, key, value), use')
  {
    var s := Put(st.list, key, value);
    forall i, j | 0 <= i < j < |s| ensures Newer(s[i], s[j], use') {
      if Find(st.list, key).None? {
        assert s[j] == st.list[j - 1] && s[j].key != key;
        assert i > 0 ==> s[i] == st.list[i - 1] && Newer(s[i], s[j], use);
      } else {
        assert Newer(st.list[i], st.list[j], use);
      }
    }
  }

  /** The list is always in order of last use, most recent first; so what is evicted is what was used longest ago. */
  lemma {:induction false} RecencyOrder(maxBytes: nat, ops: seq<Op>)
    ensures InOrder(Run(maxBytes, ops).list, k => LastUse(maxBytes, ops, k))
  {
    if ops != [] {
      var init, op := ops[..|ops| - 1], ops[|ops| - 1];
      var before := Run(maxBytes, init);
      ListInvariant(maxBytes, init);
      RecencyOrder(maxBytes, init);
      forall k ensures LastUse(maxBytes, init, k) < |ops| {
        LastUseBound(maxBytes, init, k);
      }
      TouchedInOrder(before, op, k => LastUse(maxBytes, init, k), k => LastUse(maxBytes, ops, k), |ops|);
      StepPrefix(maxBytes, before, op);
      InOrderPrefix(Run(maxBytes, ops).list, Touched(before, op), k => LastUse(maxBytes, ops, k));
    }
  }

  lemma InOrderPrefix(s: seq<Item>, t: seq<Item>, use: string -> nat)
    requires s <= t && InOrder(t, use)
    ensures InOrder(s, use)
  {
    assert forall i :: 0 <= i < |s| ==> s[i] == t[i];
  }
}
