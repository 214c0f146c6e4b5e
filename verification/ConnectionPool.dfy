/** The database connection pool: an allocator that hands out connections, takes them back and
    evicts them on a timer. A connection is known by its name, which is never used twice. */
module ConnectionPool {
  import opened Arithmetic
  import opened Wrappers

  datatype Pooled = Pooled(name: string, lastUsed: int, inUse: bool)

  datatype Pool = Pool(conns: seq<Pooled>, maxConnections: int, minConnections: int)

  /** What a driver would answer right now: which handles are open and valid, which are valid at all,
      and for which an attempt to open them would succeed. */
  datatype Driver = Driver(usable: set<string>, valid: set<string>, opens: set<string>)

  /** An attempt to create a connection: the fresh name, and whether it opens. */
  datatype Attempt = Attempt(name: string, opens: bool)

  const CONNECTION_TIMEOUT: int := 300
  const IDLE_TIMEOUT: int := 3000

  // ----- what each operation does to the pool -----

  predicate Takeable(c: Pooled, d: Driver) { !c.inUse && (c.name in d.usable || c.name in d.opens) }

  /** The first connection that can be handed out, or the length. */
  function FirstTakeable(conns: seq<Pooled>, d: Driver): (i: nat)
    ensures i <= |conns|
    ensures i < |conns| ==> Takeable(conns[i], d)
    ensures forall j :: 0 <= j < i ==> !Takeable(conns[j], d)
  {
    if conns == [] then 0
    else if Takeable(conns[0], d) then 0
    else 1 + FirstTakeable(conns[1..], d)
  }

  function Get(p: Pool, d: Driver, a: Attempt, now: int): (Pool, Option<string>) {
    var i := FirstTakeable(p.conns, d);
    if i < |p.conns| then
      (p.(conns := p.conns[i := Pooled(p.conns[i].name, now, true)]), Some(p.conns[i].name))
    else if |p.conns| < p.maxConnections && a.opens then
      (p.(conns := p.conns + [Pooled(a.name, now, true)]), Some(a.name))
    else (p, None)
  }

  /** The position of a name, or the length. */
  function Find(conns: seq<Pooled>, name: string): (i: nat)
    ensures i <= |conns|
    ensures i < |conns| ==> conns[i].name == name
    ensures forall j :: 0 <= j < i ==> conns[j].name != name
  {
    if conns == [] then 0 else if conns[0].name == name then 0 else 1 + Find(conns[1..], name)
  }

  function Release(p: Pool, name: string, now: int): Pool {
    var i := Find(p.conns, name);
    if i < |p.conns| then p.(conns := p.conns[i := Pooled(name, now, false)]) else p
  }

  /** Whether the timer leaves a connection in the pool. */
  predicate Keeps(c: Pooled, d: Driver, now: int) {
    if c.inUse then now - c.lastUsed <= CONNECTION_TIMEOUT
    else now - c.lastUsed <= IDLE_TIMEOUT && (c.name in d.valid || c.name in d.opens)
  }

  function Kept(conns: seq<Pooled>, d: Driver, now: int): seq<Pooled> {
    if conns == [] then []
    else Kept(conns[..|conns| - 1], d, now) + (if Keeps(conns[|conns| - 1], d, now) then [conns[|conns| - 1]] else [])
  }

  function Check(p: Pool, d: Driver, now: int): Pool { p.(conns := Kept(p.conns, d, now)) }

  /** The connections that come of a list of attempts. */
  function Opened(attempts: seq<Attempt>, now: int): seq<Pooled> {
    if attempts == [] then []
    else Opened(attempts[..|attempts| - 1], now)
         + (if attempts[|attempts| - 1].opens then [Pooled(attempts[|attempts| - 1].name, now, false)] else [])
  }

  function Missing(p: Pool): nat { Max(0, p.minConnections - |p.conns|) }

  function EnsureMin(p: Pool, attempts: seq<Attempt>, now: int): Pool
    requires |attempts| == Missing(p)
  {
    p.(conns := p.conns + Opened(attempts, now))
  }

  function Initialize(p: Pool, max: int, min: int, a: Attempt, now: int): Pool {
    Pool(p.conns + Opened([a], now), max, min)
  }

  function CloseAll(p: Pool): Pool { p.(conns := []) }

  // ----- the pool as it runs -----

  class DbConnectionPool {
    var connections: seq<Pooled>
    var maxConnections: int
    var minConnections: int

    function View(): Pool
      reads this
    {
      Pool(connections, maxConnections, minConnections)
    }

    constructor ()
      ensures View() == Pool([], 50, 0)
    {
      connections, maxConnections, minConnections := [], 50, 0;
    }

    method InitializePool(max: int, min: int, a: Attempt, now: int) returns (ok: bool)
      modifies this
      ensures View() == Initialize(old(View()), max, min, a, now)
      ensures ok == a.opens
    {
      maxConnections, minConnections := max, min;
      assert Opened([a][..0], now) == [];
      if a.opens {
        connections := connections + [Pooled(a.name, now, false)];
        return true;
      }
      return false;
    }

    method GetConnection(d: Driver, a: Attempt, now: int) returns (c: Option<string>)
      modifies this
      ensures (View(), c) == Get(old(View()), d, a, now)
    {
      for i := 0 to |connections|
        invariant connections == old(connections)
        invariant i <= FirstTakeable(connections, d)
      {
        if !connections[i].inUse {
          if connections[i].name in d.usable || connections[i].name in d.opens {
            assert FirstTakeable(connections, d) == i;
            var name := connections[i].name;
            connections := connections[i := Pooled(name, now, true)];
            return Some(name);
          }
        }
      }
      if |connections| < maxConnections && a.opens {
        connections := connections + [Pooled(a.name, now, true)];
        return Some(a.name);
      }
      return None;
    }

    method ReleaseConnection(name: string, now: int)
      modifies this
      ensures View() == Release(old(View()), name, now)
    {
      for i := 0 to |connections|
        invariant connections == old(connections)
        invariant i <= Find(connections, name)
      {
        if connections[i].name == name {
          connections := connections[i := Pooled(name, now, false)];
          break;
        }
      }
    }

    /** The timer: erases while it walks. */
    method CheckConnections(d: Driver, now: int)
      modifies this
      ensures View() == Check(old(View()), d, now)
    {
      var it := 0;
      ghost var was, seen := connections, 0;
      while it < |connections|
        invariant 0 <= it <= |connections| && 0 <= seen <= |was|
        invariant connections[..it] == Kept(was[..seen], d, now)
        invariant connections[it..] == was[seen..]
        invariant maxConnections == old(maxConnections) && minConnections == old(minConnections)
        decreases |connections| - it
      {
        var c := connections[it];
        assert c == was[seen] && was[..seen + 1][..seen] == was[..seen];
        var erase :=
          if !c.inUse then now - c.lastUsed > IDLE_TIMEOUT || (c.name !in d.valid && c.name !in d.opens)
          else now - c.lastUsed > CONNECTION_TIMEOUT;
        seen := seen + 1;
        if erase {
          connections := connections[..it] + connections[it + 1..];
        } else {
          assert connections[..it + 1] == connections[..it] + [c];
          it := it + 1;
        }
      }
      assert was[..seen] == was;
      assert connections[..it] == connections;
    }

    method EnsureMinConnections(attempts: seq<Attempt>, now: int)
      requires |attempts| == Missing(View())
      modifies this
      ensures View() == EnsureMin(old(View()), attempts, now)
    {
      var toAdd := minConnections - |connections|;
      if toAdd > 0 {
        for i := 0 to toAdd
          invariant connections == old(connections) + Opened(attempts[..i], now)
          invariant maxConnections == old(maxConnections) && minConnections == old(minConnections)
        {
          assert attempts[..i + 1][..i] == attempts[..i];
          if attempts[i].opens {
            connections := connections + [Pooled(attempts[i].name, now, false)];
          }
        }
        assert attempts[..toAdd] == attempts;
      }
    }

    method CloseAllConnections()
      modifies this
      ensures View() == CloseAll(old(View()))
    {
      connections := [];
    }
  }
}
