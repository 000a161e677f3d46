/** How old a selected server's last heartbeat can be: the registry, one client's list, and the clock. */
module Staleness {
  import opened Common
  import opened ServerList
  import D = Discovery
  import R = Registry

  /** The client's lock is held from asking to accepting or failing. */
  datatype Fetch = Idle | Asked(at: int) | Answered(at: int, until: int, alive: seq<string>)

  /** `fetched` says that the list in use came from the registry rather than from Update, and then `asked` when it was
      asked for; `beats` are all heartbeats that the registry has had. */
  datatype System = System(now: int, starts: map<string, int>, beats: set<(string, int)>, fetch: Fetch,
                           list: seq<string>, lastUpdate: Option<int>, fetched: bool, asked: int)

  datatype Config = Config(registryTimeout: int, discoveryTimeout: int)

  datatype Step =
    | Tick(to: int)
    | Beat(addr: string)
    | Ask
    | Answer(clock: string -> int, until: int, alive: seq<string>)
    | Accept
    | Fail
    | SetList(servers: seq<string>)

  function Init(now: int): System {
    System(now, map[], {}, Idle, [], None, false, now)
  }

  /** The registry may read the clock for each server at any moment while it answers. */
  ghost predicate Reads(clock: string -> int, from: int, until: int) {
    forall addr :: from <= clock(addr) <= until
  }

  ghost predicate Enabled(c: Config, s: System, step: Step) {
    match step
    case Tick(to) => s.now <= to
    case Beat(addr) => addr != ""
    case Ask => s.fetch.Idle? && !D.Current(s.lastUpdate, c.discoveryTimeout, s.now)
    case Answer(clock, until, alive) =>
      && s.fetch.Asked? && s.now <= until && Reads(clock, s.now, until)
      && Increasing(alive) && forall addr :: addr in alive <==> addr in R.Living(s.starts, c.registryTimeout, clock)
    case Accept => s.fetch.Answered?
    case Fail => !s.fetch.Idle?
    case SetList(_) => s.fetch.Idle?
  }

  function Apply(c: Config, s: System, step: Step): System {
    match step
    case Tick(to) => s.(now := to)
    case Beat(addr) => s.(starts := s.starts[addr := s.now], beats := s.beats + {(addr, s.now)})
    case Ask => s.(fetch := Asked(s.now))
    case Answer(clock, until, alive) =>
      if s.fetch.Asked? then
        s.(now := until, starts := R.Living(s.starts, c.registryTimeout, clock),
           fetch := Answered(s.fetch.at, until, alive))
      else s
    case Accept =>
      if s.fetch.Answered? then
        s.(list := Received(Header(s.fetch.alive)), lastUpdate := Some(s.now),
           fetched := true, asked := s.fetch.at, fetch := Idle)
      else s
    case Fail => s.(fetch := Idle)
    case SetList(servers) => s.(list := servers, lastUpdate := Some(s.now), fetched := false)
  }

  ghost predicate IsRun(c: Config, run: seq<System>) {
    && run != [] && run[0] == Init(run[0].now)
    && forall i :: 0 <= i < |run| - 1 ==> StepAt(c, run, i)
  }

  ghost predicate StepAt(c: Config, run: seq<System>, i: nat)
    requires i + 1 < |run|
  {
    exists step :: Enabled(c, run[i], step) && run[i + 1] == Apply(c, run[i], step)
  }

  // ---------- invariants ----------

  /** Some heartbeat of this server was young enough at that time. */
  ghost predicate Vouched(c: Config, beats: set<(string, int)>, addr: string, at: int) {
    exists h :: (addr, h) in beats && R.Alive(c.registryTimeout, h, at)
  }

  ghost predicate AllVouched(c: Config, beats: set<(string, int)>, list: seq<string>, at: int) {
    forall addr :: addr in list ==> Vouched(c, beats, addr, at)
  }

  /** Every server with a heartbeat before `asked` that is still young at `until` is listed. */
  ghost predicate AllListed(c: Config, beats: set<(string, int)>, list: seq<string>, asked: int, until: int) {
    forall b :: b in beats && b.1 < asked && R.Alive(c.registryTimeout, b.1, until) ==> b.0 in list
  }

  ghost predicate RegistryOk(c: Config, s: System) {
    && (forall addr :: addr in s.starts ==> (addr, s.starts[addr]) in s.beats)
    && (forall b :: b in s.beats ==> b.1 <= s.now)
    && forall b :: b in s.beats ==> Kept(c, s, b)
  }

  /** A server with a young heartbeat is registered with its last one. */
  ghost predicate Kept(c: Config, s: System, b: (string, int)) {
    R.Alive(c.registryTimeout, b.1, s.now) ==> b.0 in s.starts && s.starts[b.0] >= b.1
  }

  ghost predicate FetchOk(c: Config, s: System) {
    match s.fetch
    case Idle => true
    case Asked(at) => at <= s.now
    case Answered(at, until, alive) =>
      at <= until <= s.now && AllVouched(c, s.beats, alive, at) && AllListed(c, s.beats, alive, at, until)
  }

  /** Addresses that can travel in the header. */
  ghost predicate PlainBeats(beats: set<(string, int)>) {
    forall b :: b in beats ==> Plain(b.0)
  }

  ghost predicate ListOk(c: Config, s: System) {
    s.fetched && PlainBeats(s.beats) ==>
      && s.lastUpdate.Some? && s.asked <= s.lastUpdate.value <= s.now
      && AllVouched(c, s.beats, s.list, s.asked) && AllListed(c, s.beats, s.list, s.asked, s.lastUpdate.value)
  }

  ghost predicate Inv(c: Config, s: System) {
    RegistryOk(c, s) && FetchOk(c, s) && ListOk(c, s)
  }

  lemma BeatPreserves(c: Config, s: System, addr: string)
    requires Inv(c, s)
    ensures Inv(c, Apply(c, s, Beat(addr)))
  {
    var s' := Apply(c, s, Beat(addr));
    forall b | b in s'.beats ensures Kept(c, s', b) {
      assert b in s.beats ==> Kept(c, s, b);
    }
    VouchedMore(c, s, s');
    assert PlainBeats(s'.beats) ==> PlainBeats(s.beats);
  }

  lemma VouchedMore(c: Config, s: System, s': System)
    requires s.beats <= s'.beats
    ensures forall list, at :: AllVouched(c, s.beats, list, at) ==> AllVouched(c, s'.beats, list, at)
  {
    forall list, at, addr | AllVouched(c, s.beats, list, at) && addr in list ensures Vouched(c, s'.beats, addr, at) {
      assert Vouched(c, s.beats, addr, at);
    }
  }

  lemma TickPreserves(c: Config, s: System, to: int)
    requires Inv(c, s) && s.now <= to
    ensures Inv(c, s.(now := to))
  {
    forall b | b in s.beats ensures Kept(c, s.(now := to), b) {
      assert Kept(c, s, b);
    }
  }

  lemma AnswerPreserves(c: Config, s: System, step: Step)
    requires Inv(c, s) && step.Answer? && Enabled(c, s, step)
    ensures Inv(c, Apply(c, s, step))
  {
    var s', at := Apply(c, s, step), s.fetch.at;
    forall b | b in s.beats && R.Alive(c.registryTimeout, b.1, step.until)
      ensures b.0 in s'.starts && s'.starts[b.0] >= b.1
    {
      assert Kept(c, s, b);
      assert s.now <= step.clock(b.0) <= step.until;
    }
    forall addr | addr in step.alive ensures Vouched(c, s.beats, addr, at) {
      assert (addr, s.starts[addr]) in s.beats;
      assert s.now <= step.clock(addr);
    }
  }

  lemma AcceptPreserves(c: Config, s: System)
    requires Inv(c, s) && s.fetch.Answered?
    ensures Inv(c, Apply(c, s, Accept))
  {
    var s' := Apply(c, s, Accept);
    forall b | b in s.beats ensures Kept(c, s', b) {
      assert Kept(c, s, b);
    }
    if PlainBeats(s.beats) {
      forall addr | addr in s.fetch.alive ensures Plain(addr) {
        assert Vouched(c, s.beats, addr, s.fetch.at);
      }
      ListRoundTrip(s.fetch.alive);
    }
  }

  lemma Preserved(c: Config, s: System, step: Step)
    requires Inv(c, s) && Enabled(c, s, step)
    ensures Inv(c, Apply(c, s, step))
  {
    match step
    case Tick(to) => TickPreserves(c, s, to);
    case Beat(addr) => BeatPreserves(c, s, addr);
    case Answer(_, _, _) => AnswerPreserves(c, s, step);
    case Accept => AcceptPreserves(c, s);
    case _ =>
      var s' := Apply(c, s, step);
      forall b | b in s.beats ensures Kept(c, s', b) {
        assert Kept(c, s, b);
      }
  }

  lemma {:induction false} Reached(c: Config, run: seq<System>, i: nat)
    requires IsRun(c, run) && i < |run|
    ensures Inv(c, run[i]) && run[i].now >= run[0].now
  {
    if i > 0 {
      Reached(c, run, i - 1);
      assert StepAt(c, run, i - 1);
      var step :| Enabled(c, run[i - 1], step) && run[i] == Apply(c, run[i - 1], step);
      Preserved(c, run[i - 1], step);
    }
  }

  // ---------- the bound ----------

  function Max(a: int, b: int): int {
    if a > b then a else b
  }

  /** A Get can select this server now: no fetch is under way and the list is current or has just been accepted. */
  predicate Selectable(c: Config, s: System, addr: string) {
    && s.fetch.Idle? && addr in s.list
    && (D.Current(s.lastUpdate, c.discoveryTimeout, s.now) || s.lastUpdate == Some(s.now))
  }

  /** The largest possible age of a last heartbeat, in clock ticks: it is below the two timeouts together plus the
      time that the fetch took. */
  function Bound(c: Config, latency: int): int {
    c.registryTimeout + Max(c.discoveryTimeout, 1) + latency - 2
  }

  /** In every run, a server selected from a fetched list has had a heartbeat no older than the bound. */
  lemma StalenessBound(c: Config, run: seq<System>, i: nat, addr: string)
    requires IsRun(c, run) && i < |run| && c.registryTimeout != 0
    requires PlainBeats(run[i].beats) && run[i].fetched && Selectable(c, run[i], addr)
    ensures exists h :: (addr, h) in run[i].beats && run[i].now - h <= Bound(c, run[i].lastUpdate.value - run[i].asked)
  {
    Reached(c, run, i);
    assert Vouched(c, run[i].beats, addr, run[i].asked);
  }

  /** And a server that had a heartbeat before the list was asked for, still young when it was accepted, is listed. */
  lemma YoungAreListed(c: Config, run: seq<System>, i: nat, addr: string, h: int)
    requires IsRun(c, run) && i < |run| && PlainBeats(run[i].beats) && run[i].fetched
    requires (addr, h) in run[i].beats && h < run[i].asked
    requires run[i].lastUpdate.Some? && R.Alive(c.registryTimeout, h, run[i].lastUpdate.value)
    ensures addr in run[i].list
  {
    Reached(c, run, i);
  }

  // ---------- the bound is sharp ----------

  /** Some run leads to this state. */
  ghost predicate Reachable(c: Config, s: System) {
    exists run :: IsRunTo(c, run, s)
  }

  ghost predicate IsRunTo(c: Config, run: seq<System>, s: System) {
    IsRun(c, run) && run[|run| - 1] == s
  }

  lemma Extend(c: Config, s: System, step: Step, s': System)
    requires Reachable(c, s) && Enabled(c, s, step) && s' == Apply(c, s, step)
    ensures Reachable(c, s')
  {
    var run :| IsRunTo(c, run, s);
    var longer := run + [s'];
    forall i | 0 <= i < |longer| - 1 ensures StepAt(c, longer, i) {
      var taken := step;
      if i < |run| - 1 {
        assert StepAt(c, run, i);
        taken :| Enabled(c, run[i], taken) && run[i + 1] == Apply(c, run[i], taken);
      }
      assert Enabled(c, longer[i], taken) && longer[i + 1] == Apply(c, longer[i], taken);
    }
    assert IsRunTo(c, longer, s');
  }

  /** One server, heard at time 0 only; the list in use was asked for at `asked`, and accepted `latency` later. */
  function Silent(addr: string, asked: int, latency: nat): System {
    System(asked + latency, map[addr := 0], {(addr, 0)}, Idle, [addr], Some(asked + latency), true, asked)
  }

  lemma SilentReached(c: Config, addr: string, asked: nat, latency: nat)
    requires Plain(addr) && R.Alive(c.registryTimeout, 0, asked)
    ensures Reachable(c, Silent(addr, asked, latency))
  {
    var s := Init(0);
    assert IsRunTo(c, [s], s);
    var heard := s.(starts := map[addr := 0], beats := {(addr, 0)});
    Extend(c, s, Beat(addr), heard);
    var later := heard.(now := asked);
    Extend(c, heard, Tick(asked), later);
    var asking := later.(fetch := Asked(asked));
    Extend(c, later, Ask, asking);
    SilentAnswer(c, asking, addr);
    var answered := asking.(fetch := Answered(asked, asked, [addr]));
    var arriving := answered.(now := asked + latency);
    Extend(c, answered, Tick(asked + latency), arriving);
    ListRoundTrip([addr]);
    Extend(c, arriving, Accept, Silent(addr, asked, latency));
  }

  lemma SilentAnswer(c: Config, s: System, addr: string)
    requires Reachable(c, s) && s.starts == map[addr := 0] && s.fetch == Asked(s.now)
    requires R.Alive(c.registryTimeout, 0, s.now)
    ensures Reachable(c, s.(fetch := Answered(s.now, s.now, [addr])))
  {
    var clock := (a: string) => s.now;
    assert R.Living(s.starts, c.registryTimeout, clock) == s.starts;
    Extend(c, s, Answer(clock, s.now, [addr]), s.(fetch := Answered(s.now, s.now, [addr])));
  }

  /** In this state the server can be selected, though it was heard for the last time that long ago. */
  ghost predicate SelectableAtAge(c: Config, s: System, addr: string, latency: nat, age: int) {
    && s.fetched && Selectable(c, s, addr) && s.lastUpdate.value - s.asked == latency
    && exists h :: s.beats == {(addr, h)} && s.now - h == age
  }

  /** The bound is reached: by a server that fell silent just after the registry could last vouch for it. */
  lemma BoundIsReached(c: Config, addr: string, latency: nat)
    requires c.registryTimeout > 0 && c.discoveryTimeout > 0 && Plain(addr)
    ensures exists s :: Reachable(c, s) && SelectableAtAge(c, s, addr, latency, Bound(c, latency))
  {
    var asked := c.registryTimeout - 1;
    SilentReached(c, addr, asked, latency);
    var s, last := Silent(addr, asked, latency), Tick(asked + latency + c.discoveryTimeout - 1);
    Extend(c, s, last, Apply(c, s, last));
    assert SelectableAtAge(c, Apply(c, s, last), addr, latency, Bound(c, latency));
  }

  /** Without a registry timeout there is no bound: a silent server stays listed however long ago it was heard. */
  lemma NoBoundWithoutTimeout(c: Config, addr: string, age: nat)
    requires c.registryTimeout == 0 && Plain(addr)
    ensures exists s :: Reachable(c, s) && SelectableAtAge(c, s, addr, 0, age)
  {
    SilentReached(c, addr, age, 0);
    assert SelectableAtAge(c, Silent(addr, age, 0), addr, 0, age);
  }
}
