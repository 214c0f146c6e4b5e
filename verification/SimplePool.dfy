/** The older connection pool: a queue of available connections and a list of active ones, with
    validation on every hand-over and periodic maintenance. */
module SimplePool {
  import opened Arithmetic
  import opened Wrappers

  datatype Info = Info(name: string, lastUsed: int)

  /** An attempt to create a connection: a name never used before, and whether it opens. */
  datatype Attempt = Attempt(name: string, opens: bool)

  /** `made` and `closed` record which connections were ever opened and which were closed. */
  datatype Pool = Pool(available: seq<Info>, active: seq<Info>, maxConnections: int, minConnections: int,
                       initialized: bool, made: set<string>, closed: set<string>)

  const TIMEOUT_SECONDS: int := 300

  // ----- what each lock-held step does; `valid` holds the connections that answer a query -----

  /** One turn of the loop in getConnection. */
  function Turn(p: Pool, valid: set<string>, a: Attempt, now: int): (Pool, Option<string>) {
    if p.available != [] && p.available[0].name in valid then
      (p.(available := p.available[1..], active := p.active + [p.available[0].(lastUsed := now)]), Some(p.available[0].name))
    else
      var q := if p.available == [] then p
               else p.(available := p.available[1..], closed := p.closed + {p.available[0].name});
      if |q.available| + |q.active| < q.maxConnections && a.opens then
        (q.(active := q.active + [Info(a.name, now)], made := q.made + {a.name}), Some(a.name))
      else (q, None)
  }

  function Find(s: seq<Info>, name: string): (i: nat)
    ensures i <= |s|
    ensures i < |s| ==> s[i].name == name
    ensures forall j :: 0 <= j < i ==> s[j].name != name
  {
    if s == [] then 0 else if s[0].name == name then 0 else 1 + Find(s[1..], name)
  }

  function Release(p: Pool, name: string, valid: set<string>, now: int): Pool {
    var i := Find(p.active, name);
    if i == |p.active| then p
    else
      var q := p.(active := p.active[..i] + p.active[i + 1..]);
      if name in valid then q.(available := q.available + [Info(name, now)])
      else q.(closed := q.closed + {name})
  }

  predicate Lasts(c: Info, valid: set<string>, now: int) { now - c.lastUsed < TIMEOUT_SECONDS && c.name in valid }

  function Lasting(s: seq<Info>, valid: set<string>, now: int): seq<Info> {
    if s == [] then []
    else Lasting(s[..|s| - 1], valid, now) + (if Lasts(s[|s| - 1], valid, now) then [s[|s| - 1]] else [])
  }

  function Dropped(s: seq<Info>, valid: set<string>, now: int): set<string> {
    set c | c in s && !Lasts(c, valid, now) :: c.name
  }

  function Cleanup(p: Pool, valid: set<string>, now: int): Pool {
    p.(available := Lasting(p.available, valid, now), closed := p.closed + Dropped(p.available, valid, now))
  }

  /** The attempts up to the first that fails. */
  function UntilFailure(attempts: seq<Attempt>): (n: nat)
    ensures n <= |attempts|
    ensures forall i :: 0 <= i < n ==> attempts[i].opens
    ensures n < |attempts| ==> !attempts[n].opens
  {
    if attempts == [] || !attempts[0].opens then 0 else 1 + UntilFailure(attempts[1..])
  }

  function Opened(attempts: seq<Attempt>, now: int): seq<Info> {
    if attempts == [] then []
    else Opened(attempts[..|attempts| - 1], now)
         + (if attempts[|attempts| - 1].opens then [Info(attempts[|attempts| - 1].name, now)] else [])
  }

  function NamesOf(s: seq<Info>): set<string> { set c | c in s :: c.name }

  function Add(p: Pool, attempts: seq<Attempt>, now: int): Pool {
    p.(available := p.available + Opened(attempts, now), made := p.made + NamesOf(Opened(attempts, now)))
  }

  function Missing(p: Pool): nat { Max(0, p.minConnections - |p.available| - |p.active|) }

  /** Maintenance: drop what is stale or dead, then top up, giving up at the first failure. */
  function Maintain(p: Pool, valid: set<string>, attempts: seq<Attempt>, now: int): Pool
    requires p.initialized ==> |attempts| == Missing(Cleanup(p, valid, now))
  {
    if !p.initialized then p
    else Add(Cleanup(p, valid, now), attempts[..UntilFailure(attempts)], now)
  }

  function CloseAll(p: Pool): Pool {
    p.(available := [], active := [], initialized := false, closed := p.closed + NamesOf(p.available) + NamesOf(p.active))
  }

  function ClampMax(max: int): int { Max(1, max) }

  function ClampMin(max: int, min: int): int { Max(1, Min(min, ClampMax(max))) }

  function Initialize(p: Pool, max: int, min: int, attempts: seq<Attempt>, now: int): Pool
    requires |attempts| == ClampMin(max, min)
  {
    var q := Add(CloseAll(p).(maxConnections := ClampMax(max), minConnections := ClampMin(max, min)), attempts, now);
    q.(initialized := Opened(attempts, now) != [])
  }

  // ----- the lock-held steps of all threads -----

  datatype Step =
    | TurnStep(valid: set<string>, attempt: Attempt)
    | ReleaseStep(name: string, valid: set<string>)
    | MaintainStep(valid: set<string>, attempts: seq<Attempt>)
    | InitializeStep(max: int, min: int, attempts: seq<Attempt>)
    | CloseAllStep

  datatype Timed = Timed(now: int, step: Step)

  /** Names come from a UUID, a counter and the clock: none was used before, none is used twice. */
  ghost predicate NewNames(made: set<string>, attempts: seq<Attempt>) {
    && (forall i :: 0 <= i < |attempts| ==> attempts[i].name !in made)
    && (forall i, j :: 0 <= i < j < |attempts| ==> attempts[i].name != attempts[j].name)
  }

  ghost predicate Legal(p: Pool, t: Timed) {
    match t.step
    case TurnStep(valid, a) => a.name !in p.made
    case ReleaseStep(name, valid) => true
    case MaintainStep(valid, attempts) =>
      NewNames(p.made, attempts) && (p.initialized ==> |attempts| == Missing(Cleanup(p, valid, t.now)))
    case InitializeStep(max, min, attempts) => NewNames(p.made, attempts) && |attempts| == ClampMin(max, min)
    case CloseAllStep => true
  }

  function Apply(p: Pool, t: Timed): Pool
    requires Legal(p, t)
  {
    match t.step
    case TurnStep(valid, a) => Turn(p, valid, a, t.now).0
    case ReleaseStep(name, valid) => Release(p, name, valid, t.now)
    case MaintainStep(valid, attempts) => Maintain(p, valid, attempts, t.now)
    case InitializeStep(max, min, attempts) => Initialize(p, max, min, attempts, t.now)
    case CloseAllStep => CloseAll(p)
  }

  // ----- a request: turns of the loop in getConnection, between which other threads have the lock -----

  /** One turn, and what other threads do while the request waits afterwards. */
  datatype Wait = Wait(valid: set<string>, attempt: Attempt, now: int, others: seq<Timed>)

  ghost predicate LegalAll(p: Pool, ts: seq<Timed>)
    decreases |ts|
  {
    ts == [] || (Legal(p, ts[0]) && LegalAll(Apply(p, ts[0]), ts[1..]))
  }

  function ApplyAll(p: Pool, ts: seq<Timed>): Pool
    requires LegalAll(p, ts)
    decreases |ts|
  {
    if ts == [] then p else ApplyAll(Apply(p, ts[0]), ts[1..])
  }

  ghost predicate LegalWaits(p: Pool, waits: seq<Wait>)
    decreases |waits|
  {
    waits == [] ||
    (var w := waits[0];
     var (q, c) := Turn(p, w.valid, w.attempt, w.now);
     w.attempt.name !in p.made && (c.None? ==> LegalAll(q, w.others) && LegalWaits(ApplyAll(q, w.others), waits[1..])))
  }

  /** The loop: `waits` are the turns that begin before the timeout. */
  function Turns(p: Pool, waits: seq<Wait>): (Pool, Option<string>)
    requires LegalWaits(p, waits)
    decreases |waits|
  {
    if waits == [] then (p, None)
    else
      var w := waits[0];
      var (q, c) := Turn(p, w.valid, w.attempt, w.now);
      if c.Some? then (q, c) else Turns(ApplyAll(q, w.others), waits[1..])
  }

  function Request(p: Pool, waits: seq<Wait>): (Pool, Option<string>)
    requires LegalWaits(p, waits)
  {
    if p.initialized then Turns(p, waits) else (p, None)
  }

  // ----- the pool as it runs -----

  class SimpleConnectionPool {
    var available: seq<Info>
    var active: seq<Info>
    var maxConnections: int
    var minConnections: int
    var initialized: bool
    ghost var made: set<string>
    ghost var closed: set<string>

    ghost function View(): Pool
      reads this
    {
      Pool(available, active, maxConnections, minConnections, initialized, made, closed)
    }

    constructor ()
      ensures View() == Pool([], [], 20, 2, false, {}, {})
    {
      available, active, maxConnections, minConnections, initialized := [], [], 20, 2, false;
      made, closed := {}, {};
    }

    method InitializePool(max: int, min: int, attempts: seq<Attempt>, now: int) returns (success: bool)
      requires |attempts| == ClampMin(max, min)
      modifies this
      ensures View() == Initialize(old(View()), max, min, attempts, now)
      ensures success == initialized
    {
      CloseAllConnections();
      maxConnections := Max(1, max);
      minConnections := Max(1, Min(min, maxConnections));
      hide NamesOf;
      NamesNone();
      ghost var p := View();
      for i := 0 to minConnections
        invariant minConnections == ClampMin(max, min) == |attempts|
        invariant View() == Add(p, attempts[..i], now)
      {
        AddStep(p, attempts, i, now);
        if attempts[i].opens {
          available := available + [Info(attempts[i].name, now)];
          made := made + {attempts[i].name};
        }
      }
      assert attempts[..|attempts|] == attempts;
      success := available != [];
      initialized := success;
    }

    method GetConnectionTurn(valid: set<string>, a: Attempt, now: int) returns (c: Option<string>)
      modifies this
      ensures View() == Turn(old(View()), valid, a, now).0 && c == Turn(old(View()), valid, a, now).1
    {
      if available != [] {
        var info := available[0];
        available := available[1..];
        if info.name in valid {
          active := active + [info.(lastUsed := now)];
          return Some(info.name);
        }
        closed := closed + {info.name};
      }
      if |available| + |active| < maxConnections && a.opens {
        active := active + [Info(a.name, now)];
        made := made + {a.name};
        return Some(a.name);
      }
      return None;
    }

    /** getConnection as a whole; while it waits, other threads take lock-held steps. */
    method GetConnection(waits: seq<Wait>) returns (c: Option<string>)
      requires LegalWaits(View(), waits)
      modifies this
      ensures (View(), c) == Request(old(View()), waits)
    {
      hide Turn, Legal, Apply;
      if !initialized {
        return None;
      }
      c := None;
      for i := 0 to |waits|
        invariant LegalWaits(View(), waits[i..])
        invariant Turns(old(View()), waits) == Turns(View(), waits[i..])
      {
        var w := waits[i];
        assert waits[i..][0] == w && waits[i..][1..] == waits[i + 1..];
        c := GetConnectionTurn(w.valid, w.attempt, w.now);
        if c.Some? {
          return;
        }
        OtherThreads(w.others);
      }
      assert waits[|waits|..] == [];
      return None;
    }

    method OtherThreads(ts: seq<Timed>)
      requires LegalAll(View(), ts)
      modifies this
      ensures View() == ApplyAll(old(View()), ts)
    {
      hide Legal, Apply;
      for i := 0 to |ts|
        invariant LegalAll(View(), ts[i..])
        invariant ApplyAll(old(View()), ts) == ApplyAll(View(), ts[i..])
      {
        assert ts[i..][0] == ts[i] && ts[i..][1..] == ts[i + 1..];
        TakeStep(ts[i]);
      }
      assert ts[|ts|..] == [];
    }

    method TakeStep(t: Timed)
      requires Legal(View(), t)
      modifies this
      ensures View() == Apply(old(View()), t)
    {
      match t.step
      case TurnStep(valid, a) => var c := GetConnectionTurn(valid, a, t.now);
      case ReleaseStep(name, valid) => ReleaseConnection(name, valid, t.now);
      case MaintainStep(valid, attempts) => PerformMaintenance(valid, attempts, t.now);
      case InitializeStep(max, min, attempts) => var ok := InitializePool(max, min, attempts, t.now);
      case CloseAllStep => CloseAllConnections();
    }

    method ReleaseConnection(name: string, valid: set<string>, now: int)
      modifies this
      ensures View() == Release(old(View()), name, valid, now)
    {
      for i := 0 to |active|
        invariant View() == old(View())
        invariant i <= Find(active, name)
      {
        if active[i].name == name {
          active := active[..i] + active[i + 1..];
          if name in valid {
            available := available + [Info(name, now)];
          } else {
            closed := closed + {name};
          }
          return;
        }
      }
    }

    method CleanupExpiredConnections(valid: set<string>, now: int)
      modifies this
      ensures View() == Cleanup(old(View()), valid, now)
    {
      hide Dropped;
      DroppedNone(valid, now);
      var kept: seq<Info> := [];
      ghost var was, n, p := available, 0, View();
      while available != []
        invariant n <= |was| && available == was[n..]
        invariant kept == Lasting(was[..n], valid, now)
        invariant closed == p.closed + Dropped(was[..n], valid, now)
        invariant View() == p.(available := available, closed := closed)
        decreases |available|
      {
        var info := available[0];
        available := available[1..];
        assert was[..n + 1] == was[..n] + [info] && was[..n + 1][..n] == was[..n];
        DroppedStep(was[..n], info, valid, now);
        if now - info.lastUsed < TIMEOUT_SECONDS {
          if info.name in valid {
            kept := kept + [info];
          } else {
            closed := closed + {info.name};
          }
        } else {
          closed := closed + {info.name};
        }
        n := n + 1;
      }
      assert was[..n] == was;
      available := kept;
    }

    method EnsureMinimumConnections(attempts: seq<Attempt>, now: int)
      requires |attempts| == Missing(View())
      modifies this
      ensures View() == Add(old(View()), attempts[..UntilFailure(attempts)], now)
    {
      hide NamesOf;
      NamesNone();
      ghost var p := View();
      var connectionsToCreate := minConnections - (|available| + |active|);
      if connectionsToCreate > 0 {
        for i := 0 to connectionsToCreate
          invariant View() == Add(p, attempts[..i], now)
          invariant i <= UntilFailure(attempts)
        {
          AddStep(p, attempts, i, now);
          if !attempts[i].opens {
            return;
          }
          available := available + [Info(attempts[i].name, now)];
          made := made + {attempts[i].name};
        }
      }
    }

    method PerformMaintenance(valid: set<string>, attempts: seq<Attempt>, now: int)
      requires initialized ==> |attempts| == Missing(Cleanup(View(), valid, now))
      modifies this
      ensures View() == Maintain(old(View()), valid, attempts, now)
    {
      if !initialized {
        return;
      }
      CleanupExpiredConnections(valid, now);
      EnsureMinimumConnections(attempts, now);
    }

    method CloseAllConnections()
      modifies this
      ensures View() == CloseAll(old(View()))
    {
      hide NamesOf;
      NamesNone();
      ghost var p, n := View(), 0;
      while available != []
        invariant n <= |p.available| && available == p.available[n..]
        invariant closed == p.closed + NamesOf(p.available[..n])
        invariant View() == p.(available := available, closed := closed)
        decreases |available|
      {
        var info := available[0];
        assert p.available[..n + 1] == p.available[..n] + [info];
        NamesStep(p.available[..n], info);
        closed := closed + {info.name};
        available := available[1..];
        n := n + 1;
      }
      assert p.available[..n] == p.available;
      for i := 0 to |active|
        invariant closed == p.closed + NamesOf(p.available) + NamesOf(active[..i])
        invariant View() == p.(available := [], closed := closed)
      {
        assert active[..i + 1] == active[..i] + [active[i]];
        NamesStep(active[..i], active[i]);
        closed := closed + {active[i].name};
      }
      assert active[..|active|] == active;
      active := [];
      initialized := false;
    }
  }

  // ----- one more element -----

  lemma NamesNone()
    ensures NamesOf([]) == {}
  {
  }

  lemma NamesStep(s: seq<Info>, c: Info)
    ensures NamesOf(s + [c]) == NamesOf(s) + {c.name}
  {
    assert c in s + [c];
  }

  lemma DroppedNone(valid: set<string>, now: int)
    ensures Dropped([], valid, now) == {}
  {
  }

  lemma DroppedStep(s: seq<Info>, c: Info, valid: set<string>, now: int)
    ensures Dropped(s + [c], valid, now) == Dropped(s, valid, now) + (if Lasts(c, valid, now) then {} else {c.name})
  {
    assert c in s + [c];
  }

  lemma AddStep(p: Pool, attempts: seq<Attempt>, i: nat, now: int)
    requires i < |attempts|
    ensures Add(p, attempts[..i + 1], now) ==
              if attempts[i].opens
              then Add(p, attempts[..i], now).(available := Add(p, attempts[..i], now).available + [Info(attempts[i].name, now)],
                                               made := Add(p, attempts[..i], now).made + {attempts[i].name})
              else Add(p, attempts[..i], now)
  {
    assert attempts[..i + 1][..i] == attempts[..i];
    NamesStep(Opened(attempts[..i], now), Info(attempts[i].name, now));
  }
}
