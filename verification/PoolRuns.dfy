/** Runs of the connection pool and its clients. A lease is what a client holds between getting a
    connection and giving it back; the timer may evict the connection in between. */
module PoolRuns {
  import opened Arithmetic
  import opened ConnectionPool
  import opened Wrappers

  datatype World = World(pool: Pool, leases: map<nat, string>, nextLease: nat, ever: set<string>)

  datatype Step =
    | GetStep(driver: Driver, attempt: Attempt)
    | ReleaseStep(lease: nat)
    | TimerStep(driver: Driver)
    | EnsureMinStep(attempts: seq<Attempt>)
    | InitializeStep(max: int, min: int, attempt: Attempt)
    | CloseAllStep

  datatype Timed = Timed(now: int, step: Step)

  function Names(attempts: seq<Attempt>): set<string> { set a | a in attempts :: a.name }

  ghost predicate Fresh(w: World, attempts: seq<Attempt>) {
    && (forall i :: 0 <= i < |attempts| ==> attempts[i].name !in w.ever)
    && (forall i, j :: 0 <= i < j < |attempts| ==> attempts[i].name != attempts[j].name)
  }

  /** New names are new, and a client gives back only a lease it holds. */
  ghost predicate Legal(w: World, step: Step) {
    match step
    case GetStep(d, a) => a.name !in w.ever
    case ReleaseStep(l) => l in w.leases
    case TimerStep(d) => true
    case EnsureMinStep(attempts) => |attempts| == Missing(w.pool) && Fresh(w, attempts)
    case InitializeStep(max, min, a) => a.name !in w.ever
    case CloseAllStep => true
  }

  function Apply(w: World, t: Timed): World
    requires Legal(w, t.step)
  {
    match t.step
    case GetStep(d, a) =>
      var r := Get(w.pool, d, a, t.now);
      if r.1.Some? then World(r.0, w.leases[w.nextLease := r.1.value], w.nextLease + 1, w.ever + {a.name})
      else w.(ever := w.ever + {a.name})
    case ReleaseStep(l) => w.(pool := Release(w.pool, w.leases[l], t.now), leases := w.leases - {l})
    case TimerStep(d) => w.(pool := Check(w.pool, d, t.now))
    case EnsureMinStep(attempts) =>
      w.(pool := EnsureMin(w.pool, attempts, t.now), ever := w.ever + Names(attempts))
    case InitializeStep(max, min, a) => w.(pool := Initialize(w.pool, max, min, a, t.now), ever := w.ever + {a.name})
    case CloseAllStep => w.(pool := CloseAll(w.pool))
  }

  /** A run: every step legal in the world it meets. */
  ghost predicate IsRun(ws: seq<World>, ts: seq<Timed>) {
    && |ws| == |ts| + 1
    && forall i :: 0 <= i < |ts| ==> Legal(ws[i], ts[i].step) && ws[i + 1] == Apply(ws[i], ts[i])
  }

  // ----- what each operation does, in plain terms -----

  ghost predicate IdleAndWorks(p: Pool, d: Driver, i: int) {
    0 <= i < |p.conns| && !p.conns[i].inUse && (p.conns[i].name in d.usable || p.conns[i].name in d.opens)
  }

  /** A request is answered iff some idle connection works or reopens, or there is room and a new one
      opens. It is given the first such connection, which is then in use, or else the new one, appended in
      use; nothing else changes. */
  lemma GetAnswers(p: Pool, d: Driver, a: Attempt, now: int)
    ensures var (q, c) := Get(p, d, a, now);
            && (c.Some? <==> (exists i :: IdleAndWorks(p, d, i)) || (|p.conns| < p.maxConnections && a.opens))
            && (forall i :: IdleAndWorks(p, d, i) && (forall j :: 0 <= j < i ==> !IdleAndWorks(p, d, j)) ==>
                  && c == Some(p.conns[i].name) && |q.conns| == |p.conns| && q.conns[i] == Pooled(p.conns[i].name, now, true)
                  && forall j :: 0 <= j < |p.conns| && j != i ==> q.conns[j] == p.conns[j])
            && ((forall i :: !IdleAndWorks(p, d, i)) && |p.conns| < p.maxConnections && a.opens ==>
                  c == Some(a.name) && q.conns == p.conns + [Pooled(a.name, now, true)])
            && (c.None? ==> q.conns == p.conns)
            && (q.maxConnections, q.minConnections) == (p.maxConnections, p.minConnections)
  {
    forall i | 0 <= i < |p.conns| ensures Takeable(p.conns[i], d) <==> IdleAndWorks(p, d, i) {
    }
    var f := FirstTakeable(p.conns, d);
    if f < |p.conns| {
      assert IdleAndWorks(p, d, f);
    }
    forall i | IdleAndWorks(p, d, i) && (forall j :: 0 <= j < i ==> !IdleAndWorks(p, d, j)) ensures i == f {
    }
  }

  /** What is given back is idle and was last used now: the first connection of the name, and only it. */
  lemma ReleaseEffects(p: Pool, name: string, now: int)
    ensures var q := Release(p, name, now);
            && (forall i :: 0 <= i < |p.conns| && p.conns[i].name == name && (forall j :: 0 <= j < i ==> p.conns[j].name != name) ==>
                  q == p.(conns := p.conns[i := Pooled(name, now, false)]))
            && ((forall i :: 0 <= i < |p.conns| ==> p.conns[i].name != name) ==> q == p)
  {
    var f := Find(p.conns, name);
    forall i | 0 <= i < |p.conns| && p.conns[i].name == name && (forall j :: 0 <= j < i ==> p.conns[j].name != name) ensures i == f {
    }
  }

  /** The timer keeps exactly the connections handed out at most 300 s ago, and the idle ones used within
      3000 s whose handle is valid or reopens. */
  lemma TimerKeeps(p: Pool, d: Driver, now: int, c: Pooled)
    ensures c in Check(p, d, now).conns <==>
              c in p.conns && if c.inUse then now - c.lastUsed <= 300
                              else now - c.lastUsed <= 3000 && (c.name in d.valid || c.name in d.opens)
  {
    KeptMembers(p.conns, d, now, c);
  }

  /** The timer keeps the order: what is left stands at ascending places of the pool before. */
  lemma {:induction false} TimerKeepsOrder(conns: seq<Pooled>, d: Driver, now: int) returns (places: seq<nat>)
    ensures |places| == |Kept(conns, d, now)|
    ensures forall i, j :: 0 <= i < j < |places| ==> places[i] < places[j]
    ensures forall i :: 0 <= i < |places| ==> places[i] < |conns| && Kept(conns, d, now)[i] == conns[places[i]]
  {
    if conns == [] {
      return [];
    } else {
      var n := |conns| - 1;
      var before := TimerKeepsOrder(conns[..n], d, now);
      places := before + (if Keeps(conns[n], d, now) then [n] else []);
    }
  }

  /** Topping up and initializing add exactly the attempts that open, idle and last used now. */
  lemma {:induction false} OpenedExact(attempts: seq<Attempt>, now: int, c: Pooled)
    ensures c in Opened(attempts, now) <==> exists a :: a in attempts && a.opens && c == Pooled(a.name, now, false)
  {
    if attempts == [] {
    } else {
      var n := |attempts| - 1;
      OpenedExact(attempts[..n], now, c);
      assert attempts == attempts[..n] + [attempts[n]];
    }
  }

  lemma CreatingEffects(p: Pool, attempts: seq<Attempt>, max: int, min: int, a: Attempt, now: int)
    requires |attempts| == Missing(p)
    ensures |attempts| == (if p.minConnections > |p.conns| then p.minConnections - |p.conns| else 0)
    ensures var q := EnsureMin(p, attempts, now);
            p.conns <= q.conns && (q.maxConnections, q.minConnections) == (p.maxConnections, p.minConnections)
            && q.conns[|p.conns|..] == Opened(attempts, now)
    ensures Initialize(p, max, min, a, now) ==
              Pool(if a.opens then p.conns + [Pooled(a.name, now, false)] else p.conns, max, min)
    ensures CloseAll(p) == Pool([], p.maxConnections, p.minConnections)
  {
    assert Opened([a][..0], now) == [];
  }

  // ----- the invariant -----

  ghost predicate DistinctNames(conns: seq<Pooled>) {
    forall i, j :: 0 <= i < j < |conns| ==> conns[i].name != conns[j].name
  }

  ghost predicate Held(w: World, name: string) { exists l :: l in w.leases && w.leases[l] == name }

  ghost predicate Inv(w: World) {
    && DistinctNames(w.pool.conns)
    && (forall i :: 0 <= i < |w.pool.conns| ==>
          w.pool.conns[i].name in w.ever && (w.pool.conns[i].inUse <==> Held(w, w.pool.conns[i].name)))
    && (forall l :: l in w.leases ==> l < w.nextLease && w.leases[l] in w.ever)
    && (forall l, m :: l in w.leases && m in w.leases && w.leases[l] == w.leases[m] ==> l == m)
  }

  lemma {:induction false} KeptMembers(conns: seq<Pooled>, d: Driver, now: int, c: Pooled)
    ensures c in Kept(conns, d, now) <==> c in conns && Keeps(c, d, now)
  {
    if conns == [] {
    } else {
      KeptMembers(conns[..|conns| - 1], d, now, c);
      assert conns == conns[..|conns| - 1] + [conns[|conns| - 1]];
    }
  }

  lemma {:induction false} KeptDistinct(conns: seq<Pooled>, d: Driver, now: int)
    requires DistinctNames(conns)
    ensures DistinctNames(Kept(conns, d, now))
  {
    if conns == [] {
    } else {
      var front := conns[..|conns| - 1];
      KeptDistinct(front, d, now);
      forall i | 0 <= i < |Kept(front, d, now)| ensures Kept(front, d, now)[i].name != conns[|conns| - 1].name {
        var c := Kept(front, d, now)[i];
        KeptMembers(front, d, now, c);
        assert c in Kept(front, d, now);
        var j :| 0 <= j < |front| && front[j] == c;
        assert conns[j] == c;
      }
    }
  }

  lemma {:induction false} OpenedMembers(attempts: seq<Attempt>, now: int, i: nat)
    requires i < |Opened(attempts, now)|
    ensures var c := Opened(attempts, now)[i];
            !c.inUse && exists j :: 0 <= j < |attempts| && attempts[j].name == c.name && attempts[j].opens
  {
    var n := |attempts| - 1;
    if i < |Opened(attempts[..n], now)| {
      OpenedMembers(attempts[..n], now, i);
    } else {
      assert attempts[n].opens;
    }
  }

  lemma {:induction false} OpenedDistinct(attempts: seq<Attempt>, now: int)
    requires forall i, j :: 0 <= i < j < |attempts| ==> attempts[i].name != attempts[j].name
    ensures DistinctNames(Opened(attempts, now))
  {
    if attempts == [] {
    } else {
      var n := |attempts| - 1;
      var front := attempts[..n];
      OpenedDistinct(front, now);
      forall i | 0 <= i < |Opened(front, now)| ensures Opened(front, now)[i].name != attempts[n].name {
        OpenedMembers(front, now, i);
      }
    }
  }

  lemma HeldFrame(w: World, l: nat, name: string, leases: map<nat, string>, n: string)
    requires leases == w.leases[l := name] && l !in w.leases
    ensures Held(w.(leases := leases), n) <==> n == name || Held(w, n)
  {
    var u := w.(leases := leases);
    if n == name {
      assert u.leases[l] == n;
    }
    if Held(w, n) {
      var m :| m in w.leases && w.leases[m] == n;
      assert u.leases[m] == n;
    }
  }

  lemma GetInv(w: World, t: Timed)
    requires Inv(w) && t.step.GetStep? && Legal(w, t.step)
    ensures Inv(Apply(w, t))
  {
    var d, a := t.step.driver, t.step.attempt;
    var r := Get(w.pool, d, a, t.now);
    var u := Apply(w, t);
    if r.1.Some? {
      assert w.nextLease !in w.leases;
      var i := FirstTakeable(w.pool.conns, d);
      forall j | 0 <= j < |u.pool.conns|
        ensures u.pool.conns[j].name in u.ever && (u.pool.conns[j].inUse <==> Held(u, u.pool.conns[j].name))
      {
        HeldFrame(w, w.nextLease, r.1.value, u.leases, u.pool.conns[j].name);
        assert Held(u, u.pool.conns[j].name) <==> Held(w.(leases := u.leases), u.pool.conns[j].name);
      }
      forall l | l in w.leases ensures w.leases[l] != r.1.value {
        assert i < |w.pool.conns| ==> !w.pool.conns[i].inUse;
      }
    } else {
      forall n ensures Held(u, n) <==> Held(w, n) {}
    }
  }

  lemma ReleaseInv(w: World, t: Timed)
    requires Inv(w) && t.step.ReleaseStep? && Legal(w, t.step)
    ensures Inv(Apply(w, t))
  {
    var l := t.step.lease;
    var name := w.leases[l];
    var u := Apply(w, t);
    forall n ensures Held(u, n) <==> Held(w, n) && n != name {
      if Held(w, n) && n != name {
        var m :| m in w.leases && w.leases[m] == n;
        assert m in u.leases;
      }
    }
    var i := Find(w.pool.conns, name);
    forall j | 0 <= j < |u.pool.conns|
      ensures u.pool.conns[j].name in u.ever && (u.pool.conns[j].inUse <==> Held(u, u.pool.conns[j].name))
    {
      assert u.pool.conns[j].name == w.pool.conns[j].name;
    }
  }

  lemma TimerInv(w: World, t: Timed)
    requires Inv(w) && t.step.TimerStep? && Legal(w, t.step)
    ensures Inv(Apply(w, t))
  {
    var u := Apply(w, t);
    KeptDistinct(w.pool.conns, t.step.driver, t.now);
    forall n ensures Held(u, n) <==> Held(w, n) {}
    forall j | 0 <= j < |u.pool.conns|
      ensures u.pool.conns[j].name in u.ever && (u.pool.conns[j].inUse <==> Held(u, u.pool.conns[j].name))
    {
      var c := u.pool.conns[j];
      KeptMembers(w.pool.conns, t.step.driver, t.now, c);
      assert c in u.pool.conns;
      var i :| 0 <= i < |w.pool.conns| && w.pool.conns[i] == c;
    }
  }

  lemma AppendInv(w: World, u: World, attempts: seq<Attempt>, now: int)
    requires Inv(w) && Fresh(w, attempts)
    requires u.pool.conns == w.pool.conns + Opened(attempts, now)
    requires u.leases == w.leases && u.nextLease == w.nextLease && u.ever == w.ever + Names(attempts)
    ensures Inv(u)
  {
    var more := Opened(attempts, now);
    OpenedDistinct(attempts, now);
    forall n ensures Held(u, n) <==> Held(w, n) {}
    forall j | 0 <= j < |more| ensures !more[j].inUse && more[j].name in u.ever && more[j].name !in w.ever {
      OpenedMembers(attempts, now, j);
      var h :| 0 <= h < |attempts| && attempts[h].name == more[j].name && attempts[h].opens;
      assert attempts[h] in attempts;
    }
    forall j | 0 <= j < |u.pool.conns|
      ensures u.pool.conns[j].name in u.ever && (u.pool.conns[j].inUse <==> Held(u, u.pool.conns[j].name))
    {
      if j >= |w.pool.conns| {
        assert u.pool.conns[j] == more[j - |w.pool.conns|];
      }
    }
  }

  lemma ApplyInv(w: World, t: Timed)
    requires Inv(w) && Legal(w, t.step)
    ensures Inv(Apply(w, t))
  {
    match t.step
    case GetStep(d, a) => GetInv(w, t);
    case ReleaseStep(l) => ReleaseInv(w, t);
    case TimerStep(d) => TimerInv(w, t);
    case EnsureMinStep(attempts) => AppendInv(w, Apply(w, t), attempts, t.now);
    case InitializeStep(max, min, a) =>
      assert Names([a]) == {a.name};
      AppendInv(w, Apply(w, t), [a], t.now);
    case CloseAllStep =>
      forall n ensures Held(Apply(w, t), n) <==> Held(w, n) {}
  }

  /** In every world of a run names are distinct, a pooled connection is marked in use iff a live
      lease holds it, and no two live leases hold the same connection. */
  lemma {:induction false} RunInv(ws: seq<World>, ts: seq<Timed>, n: nat)
    requires IsRun(ws, ts) && n < |ws| && Inv(ws[0])
    ensures Inv(ws[n])
  {
    if n == 0 {
    } else {
      RunInv(ws, ts, n - 1);
      ApplyInv(ws[n - 1], ts[n - 1]);
    }
  }

  /** A client is given a connection nobody holds: one that lay free in the pool, or a new one. */
  lemma GetIsExclusive(w: World, d: Driver, a: Attempt, now: int)
    requires Inv(w) && a.name !in w.ever && Get(w.pool, d, a, now).1.Some?
    ensures var name := Get(w.pool, d, a, now).1.value;
            && !Held(w, name)
            && (name == a.name || exists i :: 0 <= i < |w.pool.conns| && w.pool.conns[i].name == name && !w.pool.conns[i].inUse)
  {
    var i := FirstTakeable(w.pool.conns, d);
    if i < |w.pool.conns| {
      assert !w.pool.conns[i].inUse && !Held(w, w.pool.conns[i].name);
    }
  }

  /** Giving back a lease frees that connection at most: if it has been evicted, nothing happens. */
  lemma ReleaseTouchesOnlyItsOwn(w: World, l: nat, now: int)
    requires Inv(w) && l in w.leases
    ensures var u := Release(w.pool, w.leases[l], now);
            && |u.conns| == |w.pool.conns|
            && (forall i :: 0 <= i < |u.conns| ==> u.conns[i].name == w.pool.conns[i].name)
            && (forall i :: 0 <= i < |u.conns| && u.conns[i].name != w.leases[l] ==> u.conns[i] == w.pool.conns[i])
            && ((forall i :: 0 <= i < |w.pool.conns| ==> w.pool.conns[i].name != w.leases[l]) ==> u == w.pool)
  {
  }

  // ----- giving a connection back twice -----

  ghost predicate InUse(p: Pool, name: string) {
    exists i :: 0 <= i < |p.conns| && p.conns[i].name == name && p.conns[i].inUse
  }

  /** Two live leases hold one connection. */
  ghost predicate Shares(w: World) {
    exists l, m :: l in w.leases && m in w.leases && l != m && w.leases[l] == w.leases[m]
  }

  ghost predicate RunShares(w: World, ws: seq<World>, ts: seq<Timed>, n: nat) {
    IsRun(ws, ts) && n < |ws| && ws[0] == w && Shares(ws[n])
  }

  lemma IdleReleaseInv(w: World, name: string, now: int)
    requires Inv(w) && !InUse(w.pool, name)
    ensures Inv(w.(pool := Release(w.pool, name, now)))
  {
    var u := w.(pool := Release(w.pool, name, now));
    forall n ensures Held(u, n) <==> Held(w, n) {}
    forall j | 0 <= j < |u.pool.conns|
      ensures u.pool.conns[j].name in u.ever && (u.pool.conns[j].inUse <==> Held(u, u.pool.conns[j].name))
    {
      assert u.pool.conns[j].name == w.pool.conns[j].name;
    }
  }

  /** The client that asks next is given the connection another client still holds. */
  lemma ReleasedTwiceIsShared(w: World, name: string, other: string, now: int)
    requires Inv(w) && InUse(w.pool, name) && other !in w.ever
    ensures var u := w.(pool := Release(w.pool, name, now));
            var t := Timed(now, GetStep(Driver({name}, {name}, {name}), Attempt(other, false)));
            Legal(u, t.step) && Shares(Apply(u, t))
  {
    var d := Driver({name}, {name}, {name});
    var u := w.(pool := Release(w.pool, name, now));
    var i := Find(w.pool.conns, name);
    var j :| 0 <= j < |w.pool.conns| && w.pool.conns[j].name == name && w.pool.conns[j].inUse;
    assert i == j;
    assert u.pool.conns[i] == Pooled(name, now, false) && Takeable(u.pool.conns[i], d);
    assert FirstTakeable(u.pool.conns, d) == i;
    assert Held(w, name);
    var l :| l in w.leases && w.leases[l] == name;
    var v := Apply(u, Timed(now, GetStep(d, Attempt(other, false))));
    assert v.leases[w.nextLease] == name && v.leases[l] == name && l != w.nextLease;
  }

  lemma {:induction false} NewName(s: set<string>) returns (name: string)
    ensures name !in s && forall x :: x in s ==> |x| < |name|
    decreases |s|
  {
    if s == {} {
      return "";
    } else {
      var x :| x in s;
      var rest := NewName(s - {x});
      name := (if |rest| < |x| then x else rest) + "x";
    }
  }

  /** Giving a connection back when one no longer holds it can make two clients share a connection, at
      some point of some run from there, iff the connection is in use at that moment, that is, iff
      another client holds it. */
  lemma SecondReleaseSharesIff(w: World, name: string, now: int)
    requires Inv(w)
    ensures (exists ws, ts, n :: RunShares(w.(pool := Release(w.pool, name, now)), ws, ts, n)) <==> InUse(w.pool, name)
  {
    var u := w.(pool := Release(w.pool, name, now));
    if InUse(w.pool, name) {
      var other := NewName(w.ever);
      ReleasedTwiceIsShared(w, name, other, now);
      var t := Timed(now, GetStep(Driver({name}, {name}, {name}), Attempt(other, false)));
      assert RunShares(u, [u, Apply(u, t)], [t], 1);
    } else {
      IdleReleaseInv(w, name, now);
      forall ws, ts, n: nat ensures !RunShares(u, ws, ts, n) {
        if IsRun(ws, ts) && n < |ws| && ws[0] == u {
          RunInv(ws, ts, n);
        }
      }
    }
  }

  /** The harm is real: one client gives its connection back twice, as a failed commit followed by a
      rollback does, and two later clients end up sharing it. */
  lemma DoubleReleaseShares(name: string, other: string, now: int)
    ensures var d := Driver({name}, {name}, {name});
            var p0 := Pool([Pooled(name, now, true)], 50, 1);
            var p1 := Release(p0, name, now);
            var (p2, first) := Get(p1, d, Attempt(other, true), now);
            var p3 := Release(p2, name, now);
            var (p4, second) := Get(p3, d, Attempt(other, true), now);
            first == second == Some(name)
  {
    assert Takeable(Pooled(name, now, false), Driver({name}, {name}, {name}));
  }

  /** The timer takes nothing from a client that got its connection at most 300 s ago, and leaves no
      connection idle for more than 3000 s. */
  lemma TimerSparesRecentLeases(w: World, d: Driver, now: int, c: Pooled)
    ensures c in w.pool.conns && c.inUse && now - c.lastUsed <= 300 ==> c in Check(w.pool, d, now).conns
    ensures c in Check(w.pool, d, now).conns ==>
              c in w.pool.conns && now - c.lastUsed <= (if c.inUse then 300 else 3000)
  {
    KeptMembers(w.pool.conns, d, now, c);
  }

  // ----- capacity -----

  lemma {:induction false} OpenedSize(attempts: seq<Attempt>, now: int)
    ensures |Opened(attempts, now)| <= |attempts|
    ensures (forall a :: a in attempts ==> a.opens) ==> |Opened(attempts, now)| == |attempts|
  {
    if attempts == [] {
    } else {
      OpenedSize(attempts[..|attempts| - 1], now);
      assert attempts[|attempts| - 1] in attempts;
    }
  }

  lemma {:induction false} KeptSize(conns: seq<Pooled>, d: Driver, now: int)
    ensures |Kept(conns, d, now)| <= |conns|
  {
    if conns == [] {
    } else {
      KeptSize(conns[..|conns| - 1], d, now);
    }
  }

  ghost predicate Within(w: World, bound: int) { |w.pool.conns| <= bound && w.pool.maxConnections <= bound }

  /** Handing out, taking back, the timer and closing never take the pool past its maximum; only the
      two operations that create without looking at the maximum can, and by how much. */
  lemma ApplyCapacity(w: World, t: Timed, bound: int)
    requires Legal(w, t.step) && Within(w, bound)
    requires t.step.EnsureMinStep? ==> w.pool.minConnections <= bound
    requires t.step.InitializeStep? ==> |w.pool.conns| < bound && t.step.max <= bound
    ensures Within(Apply(w, t), bound)
  {
    match t.step
    case GetStep(d, a) =>
    case ReleaseStep(l) =>
    case TimerStep(d) => KeptSize(w.pool.conns, d, t.now);
    case EnsureMinStep(attempts) => OpenedSize(attempts, t.now);
    case InitializeStep(max, min, a) => OpenedSize([a], t.now);
    case CloseAllStep =>
  }

  /** Topping the pool up ends within the maximum whichever attempts open iff the pool was within it and
      the minimum does not exceed it. */
  lemma EnsureMinCapacityIff(p: Pool, now: int)
    ensures (forall attempts :: |attempts| == Missing(p) ==> |EnsureMin(p, attempts, now).conns| <= p.maxConnections)
            <==> |p.conns| <= p.maxConnections && p.minConnections <= p.maxConnections
  {
    var all := AllOpen(Missing(p));
    OpenedSize(all, now);
    assert |EnsureMin(p, all, now).conns| == |p.conns| + Missing(p);
    forall attempts | |attempts| == Missing(p) ensures |Opened(attempts, now)| <= Missing(p) {
      OpenedSize(attempts, now);
    }
  }

  lemma {:induction false} AllOpen(n: nat) returns (attempts: seq<Attempt>)
    ensures |attempts| == n && forall a :: a in attempts ==> a.opens
  {
    if n == 0 {
      return [];
    } else {
      var rest := AllOpen(n - 1);
      attempts := rest + [Attempt("", true)];
    }
  }

  /** The pool does pass its maximum: an empty one with maximum one and minimum two ends with two. */
  lemma EnsureMinPassesMaximum(a: string, b: string, now: int)
    ensures |EnsureMin(Pool([], 1, 2), [Attempt(a, true), Attempt(b, true)], now).conns| == 2
  {
    OpenedSize([Attempt(a, true), Attempt(b, true)], now);
  }

  /** A run whose only initialization comes first never holds more than the largest of one, the
      maximum and the minimum. */
  lemma {:induction false} RunCapacity(ws: seq<World>, ts: seq<Timed>, n: nat, max: int, min: int)
    requires IsRun(ws, ts) && 0 < n < |ws| && ws[0].pool.conns == []
    requires ts[0].step.InitializeStep? && ts[0].step.max == max && ts[0].step.min == min
    requires forall i :: 0 < i < |ts| ==> !ts[i].step.InitializeStep?
    ensures Within(ws[n], Max(1, Max(max, min))) && ws[n].pool.maxConnections == max && ws[n].pool.minConnections == min
  {
    var bound := Max(1, Max(max, min));
    if n == 1 {
      OpenedSize([ts[0].step.attempt], ts[0].now);
    } else {
      RunCapacity(ws, ts, n - 1, max, min);
      ApplyCapacity(ws[n - 1], ts[n - 1], bound);
    }
  }
}
