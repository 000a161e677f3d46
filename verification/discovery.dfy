/** Server selection: the fixed list with round robin, and the list fetched from the registry. */
module Discovery {
  import opened Common
  import opened ServerList
  import Text

  datatype Mode = RandomSelect | RoundRobinSelect | OtherMode

  // ---------- selection as a function ----------

  datatype Picker = Picker(index: nat, servers: seq<string>)

  datatype Op = Get(mode: Mode, random: nat) | GetAll | Update(servers: seq<string>)

  /** The position that a Get selects; `random` is what the generator is asked for, brought into range. */
  function Position(p: Picker, mode: Mode, random: nat): Option<nat> {
    if p.servers == [] then None
    else match mode
      case RandomSelect => Some(random % |p.servers|)
      case RoundRobinSelect => Some(p.index % |p.servers|)
      case OtherMode => None
  }

  /** What a Get answers. */
  function Answer(p: Picker, mode: Mode, random: nat): Result<string> {
    match Position(p, mode, random)
    case Some(k) => Ok(p.servers[k])
    case None =>
      Err(if p.servers == [] then "rpc discovery: no available servers"
          else "rpc discovery: not supported select mode")
  }

  function Do(p: Picker, op: Op): Picker {
    match op
    case Get(mode, _) =>
      if mode == RoundRobinSelect && p.servers != [] then p.(index := (p.index + 1) % |p.servers|) else p
    case GetAll => p
    case Update(servers) => p.(servers := servers)
  }

  /** The positions that the round-robin Gets among these calls select. */
  function Selected(p: Picker, ops: seq<Op>): seq<nat>
    decreases |ops|
  {
    if ops == [] then []
    else
      var rest := Selected(Do(p, ops[0]), ops[1..]);
      if ops[0] != Get(RoundRobinSelect, RandomOf(ops[0])) then rest
      else match Position(p, RoundRobinSelect, ops[0].random)
        case Some(k) => [k] + rest
        case None => rest
  }

  function RandomOf(op: Op): nat {
    if op.Get? then op.random else 0
  }

  /** The servers that they answer with. */
  function Answers(p: Picker, ops: seq<Op>): seq<string>
    decreases |ops|
  {
    if ops == [] then []
    else
      var rest := Answers(Do(p, ops[0]), ops[1..]);
      if ops[0] != Get(RoundRobinSelect, RandomOf(ops[0])) then rest
      else match Answer(p, RoundRobinSelect, ops[0].random)
        case Ok(server) => [server] + rest
        case Err(_) => rest
  }

  function Times(answers: seq<string>, server: string): nat {
    if answers == [] then 0 else (if answers[0] == server then 1 else 0) + Times(answers[1..], server)
  }

  function Count(positions: seq<nat>, q: nat): nat {
    if positions == [] then 0 else (if positions[0] == q then 1 else 0) + Count(positions[1..], q)
  }

  /** Random selection answers with a server whenever there is one, and any of them can be the answer. */
  lemma RandomReachesAll(p: Picker, random: nat, server: string)
    requires p.servers != []
    ensures Answer(p, RandomSelect, random).Ok? && Answer(p, RandomSelect, random).value in p.servers
    ensures server in p.servers ==> exists r :: Answer(p, RandomSelect, r) == Ok(server)
  {
    if server in p.servers {
      var q: nat :| q < |p.servers| && p.servers[q] == server;
      NextBelow(q, |p.servers|);
      assert Answer(p, RandomSelect, q) == Ok(server);
    }
  }

  // ---------- fairness ----------

  /** m round-robin selections in a row. */
  function Cycle(index: nat, n: nat, m: nat): (positions: seq<nat>)
    requires n > 0
    ensures |positions| == m
    decreases m
  {
    if m == 0 then [] else [index % n] + Cycle((index + 1) % n, n, m - 1)
  }

  /** Other calls in between do not disturb the round. */
  lemma {:induction false} SelectedIsCycle(p: Picker, ops: seq<Op>)
    requires p.servers != [] && forall op :: op in ops ==> !op.Update?
    ensures Selected(p, ops) == Cycle(p.index, |p.servers|, |Selected(p, ops)|)
    decreases |ops|
  {
    if ops != [] {
      assert ops[0] in ops;
      SelectedIsCycle(Do(p, ops[0]), ops[1..]);
    }
  }

  function After(index: nat, n: nat, m: nat): (index': nat)
    requires n > 0
    ensures index < n ==> index' < n
    decreases m
  {
    if m == 0 then index else After((index + 1) % n, n, m - 1)
  }

  lemma {:induction false} CycleSplit(index: nat, n: nat, m: nat, m': nat)
    requires n > 0
    ensures Cycle(index, n, m + m') == Cycle(index, n, m) + Cycle(After(index, n, m), n, m')
    decreases m
  {
    if m > 0 {
      CycleSplit((index + 1) % n, n, m - 1, m');
    }
  }

  lemma {:induction false} CountSum(a: seq<nat>, b: seq<nat>, q: nat)
    ensures Count(a + b, q) == Count(a, q) + Count(b, q)
  {
    if a == [] {
      assert a + b == b;
    } else {
      assert (a + b)[1..] == a[1..] + b;
      CountSum(a[1..], b, q);
    }
  }

  /** Position q comes up once within a window of n, after its distance from the start. */
  lemma {:induction false} Window(start: nat, n: nat, m: nat, q: nat)
    requires start < n && q < n && m <= n
    ensures Count(Cycle(start, n, m), q) == if (if q >= start then q - start else q - start + n) < m then 1 else 0
    decreases m
  {
    if m > 0 {
      NextBelow(start, n);
      Window((start + 1) % n, n, m - 1, q);
    }
  }

  lemma CycleStart(index: nat, n: nat, m: nat)
    requires n > 0
    ensures Cycle(index, n, m) == Cycle(index % n, n, m)
  {
    NextInRound(index, n);
  }

  lemma NextInRound(index: nat, n: nat)
    requires n > 0
    ensures (index + 1) % n == (index % n + 1) % n && index % n % n == index % n
  {
    var d, r := index / n, index % n;
    NextBelow(r, n);
    if r + 1 == n {
      Quotient(index + 1, n, d + 1, 0);
    } else {
      Quotient(index + 1, n, d, r + 1);
    }
  }

  lemma NextBelow(start: nat, n: nat)
    requires start < n
    ensures start % n == start && (start + 1) % n == if start + 1 == n then 0 else start + 1
  {
    Quotient(start, n, 0, start);
    if start + 1 == n {
      Quotient(n, n, 1, 0);
    } else {
      Quotient(start + 1, n, 0, start + 1);
    }
  }

  lemma Quotient(x: nat, n: nat, d: nat, r: nat)
    requires n > 0 && x == d * n + r && r < n
    ensures x % n == r
  {
    var e := x / n;
    assert e - d >= 1 ==> (e - d) * n >= n;
    assert e - d <= -1 ==> (e - d) * n + n <= 0;
    assert x == e * n + x % n;
    assert (e - d) * n == e * n - d * n;
  }

  lemma {:induction false} FairFrom(start: nat, n: nat, k: nat, q: nat)
    requires start < n && q < n
    ensures Count(Cycle(start, n, Rounds(n, k)), q) == k
    decreases k
  {
    if k > 0 {
      var rest := After(start, n, n);
      CycleSplit(start, n, n, Rounds(n, k - 1));
      CountSum(Cycle(start, n, n), Cycle(rest, n, Rounds(n, k - 1)), q);
      FairFrom(rest, n, k - 1, q);
      Window(start, n, n, q);
    }
  }

  function Rounds(n: nat, k: nat): nat {
    if k == 0 then 0 else n + Rounds(n, k - 1)
  }

  lemma {:induction false} RoundsProduct(n: nat, k: nat)
    ensures Rounds(n, k) == n * k
  {
    if k > 0 {
      RoundsProduct(n, k - 1);
    }
  }

  /** From any index, the last Update's list included: among any calls without an Update, n * k round-robin Gets over
      n servers select each position exactly k times. */
  lemma {:induction false} Fair(p: Picker, ops: seq<Op>, k: nat, q: nat)
    requires q < |p.servers| && forall op :: op in ops ==> !op.Update?
    requires |Selected(p, ops)| == |p.servers| * k
    ensures Count(Selected(p, ops), q) == k
  {
    SelectedIsCycle(p, ops);
    CycleStart(p.index, |p.servers|, |p.servers| * k);
    RoundsProduct(|p.servers|, k);
    FairFrom(p.index % |p.servers|, |p.servers|, k, q);
  }

  /** The answers are the servers at the positions selected. */
  lemma {:induction false} TimesIsCount(p: Picker, ops: seq<Op>, q: nat)
    requires q < |p.servers| && Distinct(p.servers) && forall op :: op in ops ==> !op.Update?
    ensures |Answers(p, ops)| == |Selected(p, ops)|
    ensures Times(Answers(p, ops), p.servers[q]) == Count(Selected(p, ops), q)
    decreases |ops|
  {
    if ops != [] {
      assert ops[0] in ops;
      TimesIsCount(Do(p, ops[0]), ops[1..], q);
      var k := p.index % |p.servers|;
      assert k < q ==> p.servers[k] != p.servers[q];
      assert q < k ==> p.servers[q] != p.servers[k];
    }
  }

  /** So if no server is listed twice, each of them is the answer k times. */
  lemma FairAnswers(p: Picker, ops: seq<Op>, k: nat, server: string)
    requires server in p.servers && Distinct(p.servers) && forall op :: op in ops ==> !op.Update?
    requires |Answers(p, ops)| == |p.servers| * k
    ensures Times(Answers(p, ops), server) == k
  {
    var q: nat :| q < |p.servers| && p.servers[q] == server;
    TimesIsCount(p, ops, q);
    Fair(p, ops, k, q);
  }

  /** In between, no position is ahead of another by more than one. */
  lemma Balanced(p: Picker, ops: seq<Op>, q: nat, q': nat)
    requires q < |p.servers| && q' < |p.servers| && forall op :: op in ops ==> !op.Update?
    ensures Count(Selected(p, ops), q) <= Count(Selected(p, ops), q') + 1
  {
    var n, m := |p.servers|, |Selected(p, ops)|;
    SelectedIsCycle(p, ops);
    BalancedCycle(p.index, n, m, q);
    BalancedCycle(p.index, n, m, q');
  }

  lemma BalancedCycle(index: nat, n: nat, m: nat, q: nat)
    requires q < n
    ensures m / n <= Count(Cycle(index, n, m), q) <= m / n + 1
  {
    var k, r, start := m / n, m % n, index % n;
    RoundsProduct(n, k);
    assert m == Rounds(n, k) + r;
    CycleStart(index, n, m);
    CycleSplit(start, n, Rounds(n, k), r);
    var rest := After(start, n, Rounds(n, k));
    CountSum(Cycle(start, n, Rounds(n, k)), Cycle(rest, n, r), q);
    FairFrom(start, n, k, q);
    Window(rest, n, r, q);
  }

  // ---------- the objects ----------

  class MultiServerDiscovery {
    var index: nat
    var servers: seq<string>

    function Value(): Picker
      reads this
    {
      Picker(index, servers)
    }

    constructor (servers: seq<string>, random: nat)
      ensures Value() == Picker(random, servers)
    {
      this.servers, index := servers, random;
    }

    method Update(servers: seq<string>)
      modifies this
      ensures Value() == Do(old(Value()), Op.Update(servers))
      ensures this.servers == servers && index == old(index)
    {
      this.servers := servers;
    }

    method Get(mode: Mode, random: nat) returns (r: Result<string>)
      modifies this
      ensures Value() == Do(old(Value()), Op.Get(mode, random))
      ensures r == Answer(old(Value()), mode, random)
      ensures servers == old(servers)
      ensures servers == [] ==> r == Err("rpc discovery: no available servers")
      ensures servers != [] && mode == OtherMode ==> r == Err("rpc discovery: not supported select mode")
    {
      var n := |servers|;
      if n == 0 {
        return Err("rpc discovery: no available servers");
      }
      match mode {
        case RandomSelect =>
          r := Ok(servers[random % n]);
        case RoundRobinSelect =>
          var server := servers[index % n];
          index := (index + 1) % n;
          r := Ok(server);
        case OtherMode =>
          r := Err("rpc discovery: not supported select mode");
      }
    }

    method GetAll() returns (all: seq<string>)
      ensures all == servers
    {
      all := servers;
    }
  }

  /** The list is taken as current until the timeout after its last update; at first there is none. */
  predicate Current(lastUpdate: Option<int>, timeout: int, now: int) {
    lastUpdate.Some? && lastUpdate.value + timeout > now
  }

  const DEFAULT_UPDATE_TIMEOUT := 10_000_000_000

  class GeeRegistryDiscovery {
    const inner: MultiServerDiscovery
    const timeout: int
    var lastUpdate: Option<int>

    constructor (timeout: int, random: nat)
      ensures fresh(inner) && inner.Value() == Picker(random, []) && lastUpdate == None
      ensures this.timeout == if timeout == 0 then 10_000_000_000 else timeout
    {
      inner := new MultiServerDiscovery([], random);
      this.timeout := if timeout == 0 then DEFAULT_UPDATE_TIMEOUT else timeout;
      lastUpdate := None;
    }

    method Update(servers: seq<string>, now: int)
      modifies this, inner
      ensures inner.Value() == Do(old(inner.Value()), Op.Update(servers)) && lastUpdate == Some(now)
    {
      inner.servers := servers;
      lastUpdate := Some(now);
    }

    /** `now` and `later` are the clock when the age is checked and when the answer has been read; no answer stands for
        a failed request. */
    method Refresh(now: int, answer: Option<string>, later: int) returns (ok: bool)
      modifies this, inner
      ensures ok == (Current(old(lastUpdate), timeout, now) || answer.Some?)
      ensures inner.index == old(inner.index)
      ensures
        if Current(old(lastUpdate), timeout, now) || answer.None? then
          inner.servers == old(inner.servers) && lastUpdate == old(lastUpdate)
        else
          inner.servers == Received(answer.value) && lastUpdate == Some(later)
    {
      if lastUpdate.Some? && lastUpdate.value + timeout > now {
        return true;
      }
      if answer.None? {
        return false;
      }
      ReadList(answer.value);
      lastUpdate := Some(later);
      ok := true;
    }

    method ReadList(header: string)
      modifies inner
      ensures inner.servers == Received(header) && inner.index == old(inner.index)
    {
      var servers := Text.Split(header, ',');
      inner.servers := [];
      var i := 0;
      while i < |servers|
        invariant i <= |servers|
        invariant inner.servers == Trimmed(servers[..i])
        invariant inner.index == old(inner.index)
      {
        TrimmedStep(servers[..i], servers[i]);
        assert servers[..i + 1] == servers[..i] + [servers[i]];
        var s := Text.TrimSpace(servers[i]);
        if s != "" {
          inner.servers := inner.servers + [s];
        }
        i := i + 1;
      }
      assert servers[..i] == servers;
    }

    /** A selection uses the list as the refresh left it; a failed refresh selects nothing. */
    method Get(mode: Mode, random: nat, now: int, answer: Option<string>, later: int) returns (r: Result<string>)
      modifies this, inner
      ensures !Current(old(lastUpdate), timeout, now) && answer.None? ==>
        r.Err? && inner.Value() == old(inner.Value()) && lastUpdate == old(lastUpdate)
      ensures Current(old(lastUpdate), timeout, now) || answer.Some? ==>
        var list := if Current(old(lastUpdate), timeout, now) then old(inner.servers) else Received(answer.value);
        var before := Picker(old(inner.index), list);
        && inner.Value() == Do(before, Op.Get(mode, random))
        && lastUpdate == (if Current(old(lastUpdate), timeout, now) then old(lastUpdate) else Some(later))
        && r == Answer(before, mode, random)
    {
      var ok := Refresh(now, answer, later);
      if !ok {
        return Err("refresh failed");
      }
      r := inner.Get(mode, random);
    }

    method GetAll(now: int, answer: Option<string>, later: int) returns (r: Result<seq<string>>)
      modifies this, inner
      ensures r.Err? <==> !Current(old(lastUpdate), timeout, now) && answer.None?
      ensures r.Ok? ==> inner.servers == r.value
      ensures r.Ok? ==>
        r.value == if Current(old(lastUpdate), timeout, now) then old(inner.servers) else Received(answer.value)
      ensures inner.index == old(inner.index)
    {
      var ok := Refresh(now, answer, later);
      if !ok {
        return Err("refresh failed");
      }
      var all := inner.GetAll();
      r := Ok(all);
    }
  }
}
