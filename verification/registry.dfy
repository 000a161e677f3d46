/** The registry: servers with the time of their last heartbeat. */
module Registry {
  import opened Common
  import opened ServerList

  /** A timeout of 0 means that servers never expire. */
  predicate Alive(timeout: int, start: int, now: int) {
    timeout == 0 || start + timeout > now
  }

  /** Those alive, each judged at its own reading of the clock. */
  function Living(starts: map<string, int>, timeout: int, clock: string -> int): map<string, int> {
    map addr | addr in starts && Alive(timeout, starts[addr], clock(addr)) :: starts[addr]
  }

  /** The same while some addresses have not been looked at yet. */
  function LivingOrIn(starts: map<string, int>, todo: set<string>, timeout: int, clock: string -> int)
    : map<string, int>
  {
    map addr | addr in starts && (addr in todo || Alive(timeout, starts[addr], clock(addr))) :: starts[addr]
  }

  lemma AllToDo(starts: map<string, int>, timeout: int, clock: string -> int)
    ensures LivingOrIn(starts, starts.Keys, timeout, clock) == starts
    ensures LivingOrIn(starts, {}, timeout, clock) == Living(starts, timeout, clock)
  {
  }

  lemma LookedAt(starts: map<string, int>, todo: set<string>, timeout: int, clock: string -> int, addr: string)
    requires addr in starts && addr in todo
    ensures var left := LivingOrIn(starts, todo, timeout, clock);
      LivingOrIn(starts, todo - {addr}, timeout, clock) ==
        if Alive(timeout, starts[addr], clock(addr)) then left else left - {addr}
  {
  }

  class ServerItem {
    const addr: string
    var start: int

    constructor (addr: string, start: int)
      ensures this.addr == addr && this.start == start
    {
      this.addr, this.start := addr, start;
    }
  }

  datatype Reply = Servers(header: string) | Done | BadRequest | NotAllowed

  class GeeRegistry {
    const timeout: int
    var servers: map<string, ServerItem>
    /** The time of each server's last heartbeat. */
    ghost var starts: map<string, int>

    ghost predicate Valid()
      reads this, servers.Values
    {
      servers.Keys == starts.Keys && forall addr :: addr in servers ==> Is(addr, servers[addr])
    }

    ghost predicate Is(addr: string, item: ServerItem)
      requires addr in starts
      reads this, item
    {
      item.addr == addr && item.start == starts[addr]
    }

    constructor (timeout: int)
      ensures Valid() && this.timeout == timeout && starts == map[] && servers == map[]
    {
      this.timeout, servers, starts := timeout, map[], map[];
    }

    method PutServer(addr: string, now: int)
      requires Valid()
      modifies this, servers.Values
      ensures Valid() && starts == old(starts)[addr := now]
      ensures fresh(servers.Values - old(servers.Values))
    {
      if addr !in servers {
        var item := new ServerItem(addr, now);
        servers := servers[addr := item];
      } else {
        servers[addr].start := now;
      }
      starts := starts[addr := now];
    }

    method Delete(addr: string)
      requires Valid()
      modifies this
      ensures Valid() && servers.Values <= old(servers.Values)
      ensures starts == old(starts) - {addr}
    {
      servers := servers - {addr};
      starts := starts - {addr};
      forall a | a in servers ensures Is(a, servers[a]) && servers[a] in old(servers.Values) {
        assert old(Is(a, servers[a]));
      }
    }

    /** The loop of aliveServer, before the sort. */
    method Sweep(clock: string -> int) returns (alive: seq<string>)
      requires Valid()
      modifies this
      ensures Valid() && servers.Values <= old(servers.Values)
      ensures starts == Living(old(starts), timeout, clock)
      ensures Distinct(alive) && forall addr :: addr in alive <==> addr in starts
    {
      alive := [];
      var todo := servers.Keys;
      ghost var before := starts;
      AllToDo(before, timeout, clock);
      while todo != {}
        invariant Valid() && todo <= servers.Keys && servers.Values <= old(servers.Values)
        invariant Distinct(alive) && forall addr :: addr in alive <==> addr in starts && addr !in todo
        invariant starts == LivingOrIn(before, todo, timeout, clock)
      {
        var addr :| addr in todo;
        assert Is(addr, servers[addr]);
        LookedAt(before, todo, timeout, clock, addr);
        if timeout == 0 || servers[addr].start + timeout > clock(addr) {
          alive := alive + [addr];
        } else {
          Delete(addr);
        }
        todo := todo - {addr};
      }
    }

    /** The servers alive, in increasing order whatever the order of the map; the others are forgotten. */
    method AliveServer(clock: string -> int) returns (alive: seq<string>)
      requires Valid()
      modifies this
      ensures Valid() && servers.Values <= old(servers.Values)
      ensures starts == Living(old(starts), timeout, clock)
      ensures Increasing(alive) && forall addr :: addr in alive <==> addr in starts
    {
      alive := Sweep(clock);
      SortedIncreasing(alive);
      alive := Sorted(alive);
    }

    method ServeHTTP(verb: string, server: string, clock: string -> int) returns (reply: Reply)
      requires Valid()
      modifies this, servers.Values
      ensures Valid()
      ensures verb == "GET" ==>
        && starts == Living(old(starts), timeout, clock)
        && exists alive ::
             Increasing(alive) && (forall addr :: addr in alive <==> addr in starts) && reply == Servers(Header(alive))
      ensures verb == "POST" && server != "" ==> reply == Done && starts == old(starts)[server := clock(server)]
      ensures verb == "POST" && server == "" ==> reply == BadRequest && starts == old(starts)
      ensures verb != "GET" && verb != "POST" ==> reply == NotAllowed && starts == old(starts)
    {
      if verb == "GET" {
        var alive := AliveServer(clock);
        reply := Servers(Header(alive));
      } else if verb == "POST" {
        if server == "" {
          return BadRequest;
        }
        PutServer(server, clock(server));
        reply := Done;
      } else {
        reply := NotAllowed;
      }
    }
  }
}
