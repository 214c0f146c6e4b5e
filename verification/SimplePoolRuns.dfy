/** Runs of the older pool over its lock-held steps: every connection ever opened is in exactly one
    place, and the pool stays within its bounds. */
module SimplePoolRuns {
  import opened Arithmetic
  import opened SimplePool

  ghost predicate IsRun(ps: seq<Pool>, ts: seq<Timed>) {
    && |ps| == |ts| + 1
    && ps[0] == Pool([], [], 20, 2, false, {}, {})
    && forall i :: 0 <= i < |ts| ==> Legal(ps[i], ts[i]) && ps[i + 1] == Apply(ps[i], ts[i])
  }

  // ----- where connections are -----

  ghost predicate Apart(s: seq<Info>) { forall i, j :: 0 <= i < j < |s| ==> s[i].name != s[j].name }

  /** Every connection ever opened is available, active or closed, and only one of them. */
  ghost predicate Conserved(p: Pool) {
    && Apart(p.available) && Apart(p.active)
    && NamesOf(p.available) !! NamesOf(p.active) !! p.closed
    && p.made == NamesOf(p.available) + NamesOf(p.active) + p.closed
  }

  ghost predicate Bounded(p: Pool) {
    1 <= p.minConnections <= p.maxConnections && |p.available| + |p.active| <= p.maxConnections
  }

  lemma AppendNames(s: seq<Info>, c: Info)
    requires Apart(s) && c.name !in NamesOf(s)
    ensures Apart(s + [c]) && NamesOf(s + [c]) == NamesOf(s) + {c.name}
  {
    NamesStep(s, c);
    forall i | 0 <= i < |s| ensures s[i].name != c.name {
      assert s[i] in s;
    }
  }

  lemma NamesWithout(s: seq<Info>, t: seq<Info>, d: Info)
    requires forall c :: c in t <==> c in s && c.name != d.name
    ensures NamesOf(t) == NamesOf(s) - {d.name}
  {
  }

  lemma RemoveNames(s: seq<Info>, i: nat)
    requires Apart(s) && i < |s|
    ensures var t := s[..i] + s[i + 1..]; Apart(t) && NamesOf(t) == NamesOf(s) - {s[i].name}
  {
    hide NamesOf;
    var t := s[..i] + s[i + 1..];
    forall j | 0 <= j < |t| ensures t[j] == s[if j < i then j else j + 1] {
    }
    forall c ensures c in t <==> c in s && c.name != s[i].name {
      if c in s && c.name != s[i].name {
        var j :| 0 <= j < |s| && s[j] == c;
        assert t[if j < i then j else j - 1] == c;
      }
    }
    NamesWithout(s, t, s[i]);
  }

  lemma HandOverConserves(p: Pool, now: int)
    requires Conserved(p) && p.available != []
    ensures Conserved(p.(available := p.available[1..], active := p.active + [p.available[0].(lastUsed := now)]))
  {
    var h := p.available[0];
    FirstName(p.available);
    AppendNames(p.active, h.(lastUsed := now));
  }

  lemma DiscardConserves(p: Pool)
    requires Conserved(p) && p.available != []
    ensures Conserved(p.(available := p.available[1..], closed := p.closed + {p.available[0].name}))
  {
    FirstName(p.available);
  }

  lemma FirstName(s: seq<Info>)
    requires Apart(s) && s != []
    ensures Apart(s[1..]) && NamesOf(s[1..]) == NamesOf(s) - {s[0].name} && s[0].name in NamesOf(s)
  {
    RemoveNames(s, 0);
    assert s[..0] + s[1..] == s[1..];
    assert s[0] in s;
  }

  lemma CreateConserves(p: Pool, a: Attempt, now: int)
    requires Conserved(p) && a.name !in p.made
    ensures Conserved(p.(active := p.active + [Info(a.name, now)], made := p.made + {a.name}))
  {
    AppendNames(p.active, Info(a.name, now));
  }

  lemma TurnConserves(p: Pool, valid: set<string>, a: Attempt, now: int)
    requires Conserved(p) && a.name !in p.made
    ensures Conserved(Turn(p, valid, a, now).0)
  {
    hide Conserved;
    if p.available == [] {
      CreateConserves(p, a, now);
    } else if p.available[0].name in valid {
      HandOverConserves(p, now);
    } else {
      DiscardConserves(p);
      CreateConserves(p.(available := p.available[1..], closed := p.closed + {p.available[0].name}), a, now);
    }
  }

  lemma ReleaseConserves(p: Pool, name: string, valid: set<string>, now: int)
    requires Conserved(p)
    ensures Conserved(Release(p, name, valid, now))
  {
    var i := Find(p.active, name);
    if i < |p.active| {
      RemoveNames(p.active, i);
      assert p.active[i] in p.active && name in NamesOf(p.active);
      AppendNames(p.available, Info(name, now));
    }
  }

  lemma LastNameIsNew(front: seq<Info>, c: Info)
    requires Apart(front + [c])
    ensures Apart(front) && c.name !in NamesOf(front)
  {
    var s := front + [c];
    forall d | d in front ensures d.name != c.name {
      var j :| 0 <= j < |front| && front[j] == d;
      assert s[j] == d && s[|front|] == c;
    }
    forall i, j | 0 <= i < j < |front| ensures front[i].name != front[j].name {
      assert s[i] == front[i] && s[j] == front[j];
    }
  }

  lemma LastingStep(front: seq<Info>, c: Info, valid: set<string>, now: int)
    ensures Lasting(front + [c], valid, now) ==
              if Lasts(c, valid, now) then Lasting(front, valid, now) + [c] else Lasting(front, valid, now)
  {
    assert (front + [c])[..|front|] == front;
  }

  lemma {:induction false} LastingNames(s: seq<Info>, valid: set<string>, now: int)
    requires Apart(s)
    ensures Apart(Lasting(s, valid, now))
    ensures NamesOf(Lasting(s, valid, now)) == NamesOf(s) - Dropped(s, valid, now)
    ensures Dropped(s, valid, now) <= NamesOf(s)
  {
    if s == [] {
      assert NamesOf([]) == {};
    } else {
      hide NamesOf, Dropped, Lasting, Lasts, Apart;
      var front, c := s[..|s| - 1], s[|s| - 1];
      assert s == front + [c];
      LastNameIsNew(front, c);
      LastingNames(front, valid, now);
      NamesStep(front, c);
      DroppedStep(front, c, valid, now);
      LastingStep(front, c, valid, now);
      if Lasts(c, valid, now) {
        AppendNames(Lasting(front, valid, now), c);
      }
    }
  }

  lemma CleanupConserves(p: Pool, valid: set<string>, now: int)
    requires Conserved(p)
    ensures Conserved(Cleanup(p, valid, now))
  {
    LastingNames(p.available, valid, now);
  }

  lemma {:induction false} AddConserves(p: Pool, attempts: seq<Attempt>, now: int)
    requires Conserved(p) && NewNames(p.made, attempts)
    ensures Conserved(Add(p, attempts, now))
    ensures forall n :: n in Add(p, attempts, now).made && n !in p.made ==> exists i :: 0 <= i < |attempts| && attempts[i].name == n
    decreases |attempts|
  {
    if attempts == [] {
      assert NamesOf([]) == {};
      assert p.available + [] == p.available;
    } else {
      var n := |attempts| - 1;
      AddConserves(p, attempts[..n], now);
      assert attempts[..n + 1] == attempts;
      AddStep(p, attempts, n, now);
      var q := Add(p, attempts[..n], now);
      if attempts[n].opens {
        AppendNames(q.available, Info(attempts[n].name, now));
      }
    }
  }

  lemma CloseAllConserves(p: Pool)
    requires Conserved(p)
    ensures Conserved(CloseAll(p))
  {
    assert NamesOf([]) == {};
  }

  lemma ApplyConserves(p: Pool, t: Timed)
    requires Legal(p, t) && Conserved(p)
    ensures Conserved(Apply(p, t))
  {
    match t.step
    case TurnStep(valid, a) => TurnConserves(p, valid, a, t.now);
    case ReleaseStep(name, valid) => ReleaseConserves(p, name, valid, t.now);
    case MaintainStep(valid, attempts) =>
      if p.initialized {
        CleanupConserves(p, valid, t.now);
        AddConserves(Cleanup(p, valid, t.now), attempts[..UntilFailure(attempts)], t.now);
      }
    case InitializeStep(max, min, attempts) =>
      CloseAllConserves(p);
      AddConserves(CloseAll(p).(maxConnections := ClampMax(max), minConnections := ClampMin(max, min)), attempts, t.now);
    case CloseAllStep => CloseAllConserves(p);
  }

  lemma {:induction false} OpenedSize(attempts: seq<Attempt>, now: int)
    ensures |Opened(attempts, now)| <= |attempts|
    ensures (forall i :: 0 <= i < |attempts| ==> attempts[i].opens) ==> |Opened(attempts, now)| == |attempts|
  {
    if attempts == [] {
    } else {
      OpenedSize(attempts[..|attempts| - 1], now);
    }
  }

  lemma {:induction false} LastingSize(s: seq<Info>, valid: set<string>, now: int)
    ensures |Lasting(s, valid, now)| <= |s|
  {
    if s == [] {
    } else {
      LastingSize(s[..|s| - 1], valid, now);
    }
  }

  lemma ApplyBounded(p: Pool, t: Timed)
    requires Legal(p, t) && Bounded(p)
    ensures Bounded(Apply(p, t))
  {
    match t.step
    case TurnStep(valid, a) =>
    case ReleaseStep(name, valid) =>
    case MaintainStep(valid, attempts) =>
      LastingSize(p.available, valid, t.now);
      OpenedSize(attempts[..UntilFailure(attempts)], t.now);
    case InitializeStep(max, min, attempts) => OpenedSize(attempts, t.now);
    case CloseAllStep =>
  }

  /** At every lock-held step of every run, each connection ever opened is in exactly one of
      available, active and closed, and the pool is within its maximum. */
  lemma {:induction false} RunConserves(ps: seq<Pool>, ts: seq<Timed>, n: nat)
    requires IsRun(ps, ts) && n < |ps|
    ensures Conserved(ps[n]) && Bounded(ps[n])
  {
    if n == 0 {
      assert NamesOf([]) == {};
    } else {
      RunConserves(ps, ts, n - 1);
      ApplyConserves(ps[n - 1], ts[n - 1]);
      ApplyBounded(ps[n - 1], ts[n - 1]);
    }
  }

  lemma {:induction false} NamesCount(s: seq<Info>)
    requires Apart(s)
    ensures |NamesOf(s)| == |s|
  {
    if s == [] {
      assert NamesOf(s) == {};
    } else {
      var front, c := s[..|s| - 1], s[|s| - 1];
      assert s == front + [c];
      NamesCount(front);
      NamesStep(front, c);
      assert c.name !in NamesOf(front);
    }
  }

  /** Counting: as many connections were opened as are available, active and closed together. */
  lemma RunCounts(ps: seq<Pool>, ts: seq<Timed>, n: nat)
    requires IsRun(ps, ts) && n < |ps|
    ensures |ps[n].made| == |ps[n].available| + |ps[n].active| + |ps[n].closed|
  {
    RunConserves(ps, ts, n);
    var p := ps[n];
    NamesCount(p.available);
    NamesCount(p.active);
    var open := NamesOf(p.available) + NamesOf(p.active);
    assert |open| == |NamesOf(p.available)| + |NamesOf(p.active)|;
    assert |open + p.closed| == |open| + |p.closed|;
  }

  lemma ApplyKeepsClosed(p: Pool, t: Timed)
    requires Legal(p, t)
    ensures p.closed <= Apply(p, t).closed
  {
    hide Opened, Lasting, Dropped, NamesOf;
  }

  lemma ClosedIsGone(p: Pool, name: string)
    requires Conserved(p) && name in p.closed
    ensures name !in NamesOf(p.available) && name !in NamesOf(p.active)
  {
  }

  /** A closed connection stays closed: it is never available or active again. */
  lemma {:induction false} ClosedForGood(ps: seq<Pool>, ts: seq<Timed>, m: nat, n: nat, name: string)
    requires IsRun(ps, ts) && m <= n < |ps| && name in ps[m].closed
    ensures name in ps[n].closed && name !in NamesOf(ps[n].available) && name !in NamesOf(ps[n].active)
  {
    hide Apply, Legal, Conserved, NamesOf;
    RunConserves(ps, ts, n);
    if m == n {
    } else {
      ClosedForGood(ps, ts, m, n - 1, name);
      ApplyKeepsClosed(ps[n - 1], ts[n - 1]);
    }
    ClosedIsGone(ps[n], name);
  }

  /** What a client is given is neither active nor closed, answers or has just opened, and is then active. */
  lemma TurnIsExclusive(p: Pool, valid: set<string>, a: Attempt, now: int)
    requires Conserved(p) && a.name !in p.made && Turn(p, valid, a, now).1.Some?
    ensures var (q, c) := Turn(p, valid, a, now);
            && c.value !in NamesOf(p.active) + p.closed
            && q.active[..|q.active| - 1] == p.active && q.active[|q.active| - 1] == Info(c.value, now)
            && NamesOf(q.active) == NamesOf(p.active) + {c.value}
            && (c.value in valid || (c.value == a.name && a.opens))
  {
    var (q, c) := Turn(p, valid, a, now);
    if p.available != [] && p.available[0].name in valid {
      assert p.available[0] in p.available && c.value in NamesOf(p.available);
    }
    NamesStep(p.active, Info(c.value, now));
    assert q.active[..|p.active|] == p.active;
    assert q.active == p.active + [q.active[|p.active|]];
    NamesStep(p.active, q.active[|p.active|]);
  }

  /** Closing leaves nothing available or active and the pool uninitialized, and keeps its bounds. */
  lemma CloseAllEffects(p: Pool)
    ensures var q := CloseAll(p);
            && q.available == [] && q.active == [] && !q.initialized
            && NamesOf(p.available) + NamesOf(p.active) + p.closed == q.closed && q.made == p.made
            && (q.maxConnections, q.minConnections) == (p.maxConnections, p.minConnections)
  {
  }

  /** Initializing closes what there was, brings the maximum to one at the least and the minimum between
      one and the maximum, makes available what opens of that many attempts, and succeeds iff one does. */
  lemma InitializeEffects(p: Pool, max: int, min: int, attempts: seq<Attempt>, now: int)
    requires |attempts| == ClampMin(max, min)
    ensures var q := Initialize(p, max, min, attempts, now);
            && q.maxConnections == (if max < 1 then 1 else max)
            && q.minConnections == |attempts| == (if min < 1 then 1 else if min < q.maxConnections then min else q.maxConnections)
            && q.active == [] && NamesOf(p.available) + NamesOf(p.active) <= q.closed
            && (forall c :: c in q.available <==> c.lastUsed == now && c.name in OpenNames(attempts))
            && (q.initialized <==> exists i :: 0 <= i < |attempts| && attempts[i].opens)
  {
    forall c ensures c in Opened(attempts, now) <==> c.lastUsed == now && c.name in OpenNames(attempts) {
      OpenedExact(attempts, now, c);
    }
    var q := Initialize(p, max, min, attempts, now);
    if q.available != [] {
      assert q.available[0] in q.available;
    }
    if i :| 0 <= i < |attempts| && attempts[i].opens {
      assert attempts[i] in attempts && Info(attempts[i].name, now) in q.available;
    }
  }

  lemma {:induction false} OpenedExact(attempts: seq<Attempt>, now: int, c: Info)
    ensures c in Opened(attempts, now) <==> c.lastUsed == now && c.name in OpenNames(attempts)
  {
    if attempts == [] {
    } else {
      var n := |attempts| - 1;
      OpenedExact(attempts[..n], now, c);
      assert attempts == attempts[..n] + [attempts[n]];
      assert attempts[n].opens ==> attempts[n] in attempts && attempts[n].name in OpenNames(attempts);
      assert forall a :: a in attempts <==> a in attempts[..n] || a == attempts[n];
    }
  }

  /** A release takes effect iff the connection is active; then it alone leaves the active list. */
  lemma ReleaseIff(p: Pool, name: string, valid: set<string>, now: int)
    requires Conserved(p)
    ensures Release(p, name, valid, now) == p <==> name !in NamesOf(p.active)
    ensures NamesOf(Release(p, name, valid, now).active) == NamesOf(p.active) - {name}
    ensures name in NamesOf(p.active) && name in valid ==> Release(p, name, valid, now).available == p.available + [Info(name, now)]
    ensures name in NamesOf(p.active) && name !in valid ==>
              Release(p, name, valid, now).available == p.available && Release(p, name, valid, now).closed == p.closed + {name}
  {
    var i := Find(p.active, name);
    var q := Release(p, name, valid, now);
    if i < |p.active| {
      assert p.active[i] in p.active;
      RemoveNames(p.active, i);
      NamesStep(p.available, Info(name, now));
      assert |q.active| == |p.active| - 1;
    }
  }

  lemma {:induction false} LastingMembers(s: seq<Info>, valid: set<string>, now: int, c: Info)
    ensures c in Lasting(s, valid, now) <==> c in s && Lasts(c, valid, now)
  {
    if s == [] {
    } else {
      LastingMembers(s[..|s| - 1], valid, now, c);
      assert s == s[..|s| - 1] + [s[|s| - 1]];
    }
  }

  /** Cleaning up keeps the order of the queue. */
  lemma {:induction false} CleanupKeepsOrder(s: seq<Info>, valid: set<string>, now: int) returns (places: seq<nat>)
    ensures |places| == |Lasting(s, valid, now)|
    ensures forall i, j :: 0 <= i < j < |places| ==> places[i] < places[j]
    ensures forall i :: 0 <= i < |places| ==> places[i] < |s| && Lasting(s, valid, now)[i] == s[places[i]]
  {
    if s == [] {
      return [];
    } else {
      var n := |s| - 1;
      var before := CleanupKeepsOrder(s[..n], valid, now);
      places := before + (if Lasts(s[n], valid, now) then [n] else []);
    }
  }

  function OpenNames(attempts: seq<Attempt>): set<string> { set a | a in attempts && a.opens :: a.name }

  /** Maintenance leaves the active connections alone, keeps exactly the available ones still good,
      adds only connections it opened, and reaches the minimum iff every attempt opened. */
  lemma MaintainIff(p: Pool, valid: set<string>, attempts: seq<Attempt>, now: int)
    requires p.initialized && |attempts| == Missing(Cleanup(p, valid, now))
    ensures var q := Maintain(p, valid, attempts, now);
            && q.active == p.active
            && (forall c :: c in p.available && now - c.lastUsed < 300 && c.name in valid ==> c in q.available)
            && (forall c :: c in q.available ==>
                  now - c.lastUsed < 300 && (c.name in valid || (c.lastUsed == now && c.name in OpenNames(attempts))))
            && (|q.available| + |q.active| >= p.minConnections <==> forall i :: 0 <= i < |attempts| ==> attempts[i].opens)
  {
    var n := UntilFailure(attempts);
    var q := Maintain(p, valid, attempts, now);
    OpenedSize(attempts[..n], now);
    assert n == |attempts| ==> attempts[..n] == attempts;
    forall c ensures c in Lasting(p.available, valid, now) <==> c in p.available && Lasts(c, valid, now) {
      LastingMembers(p.available, valid, now, c);
    }
    forall c | c in Opened(attempts[..n], now) ensures c.lastUsed == now && c.name in OpenNames(attempts) {
      OpenedExact(attempts[..n], now, c);
      assert forall a :: a in attempts[..n] ==> a in attempts;
    }
  }

  // ----- requests -----

  lemma {:induction false} ApplyAllConserves(p: Pool, ts: seq<Timed>)
    requires LegalAll(p, ts) && Conserved(p) && Bounded(p)
    ensures Conserved(ApplyAll(p, ts)) && Bounded(ApplyAll(p, ts))
    decreases |ts|
  {
    hide Conserved, Bounded, Apply, Legal;
    if ts == [] {
    } else {
      ApplyConserves(p, ts[0]);
      ApplyBounded(p, ts[0]);
      ApplyAllConserves(Apply(p, ts[0]), ts[1..]);
    }
  }

  /** The connection answered, or was just opened, in some turn. */
  ghost predicate Earned(waits: seq<Wait>, name: string) {
    exists i :: 0 <= i < |waits|
                && (name in waits[i].valid || (waits[i].attempt.opens && name == waits[i].attempt.name))
  }

  lemma EarnedLater(waits: seq<Wait>, name: string)
    requires waits != [] && Earned(waits[1..], name)
    ensures Earned(waits, name)
  {
    var later := waits[1..];
    var i :| 0 <= i < |later| && (name in later[i].valid || (later[i].attempt.opens && name == later[i].attempt.name));
    assert waits[i + 1] == later[i];
  }

  /** A request, with whatever other threads do meanwhile, keeps every connection in one place and the
      pool within its maximum; what it hands out is active, not closed, and answered or was just opened
      in one of its turns. */
  lemma {:induction false} TurnsConserve(p: Pool, waits: seq<Wait>)
    requires LegalWaits(p, waits) && Conserved(p) && Bounded(p)
    ensures var (q, c) := Turns(p, waits);
            && Conserved(q) && Bounded(q)
            && (c.Some? ==> c.value in NamesOf(q.active) && c.value !in q.closed && Earned(waits, c.value))
    decreases |waits|
  {
    hide Conserved, Bounded, Turn, NamesOf, Apply, Legal;
    if waits == [] {
    } else {
      var w := waits[0];
      var (q, c) := Turn(p, w.valid, w.attempt, w.now);
      TurnKeeps(p, w);
      if c.Some? {
        TurnIsExclusive(p, w.valid, w.attempt, w.now);
        ActiveNotClosed(q, c.value);
      } else {
        ApplyAllConserves(q, w.others);
        TurnsConserve(ApplyAll(q, w.others), waits[1..]);
        var d := Turns(p, waits).1;
        if d.Some? {
          EarnedLater(waits, d.value);
        }
      }
    }
  }

  lemma TurnKeeps(p: Pool, w: Wait)
    requires Conserved(p) && Bounded(p) && w.attempt.name !in p.made
    ensures Conserved(Turn(p, w.valid, w.attempt, w.now).0) && Bounded(Turn(p, w.valid, w.attempt, w.now).0)
  {
    hide Conserved;
    TurnConserves(p, w.valid, w.attempt, w.now);
  }

  lemma ActiveNotClosed(p: Pool, name: string)
    requires Conserved(p) && name in NamesOf(p.active)
    ensures name !in p.closed
  {
  }

  ghost predicate Quiet(waits: seq<Wait>) { forall i :: 0 <= i < |waits| ==> waits[i].others == [] }

  /** Turn j serves: the j-th connection in the queue answers then, or a new one opens and there is room
      once the queue up to there has been discarded. */
  ghost predicate Serves(p: Pool, waits: seq<Wait>, j: int) {
    && 0 <= j < |waits|
    && ((j < |p.available| && p.available[j].name in waits[j].valid)
        || (waits[j].attempt.opens && |p.available| - Min(j + 1, |p.available|) + |p.active| < p.maxConnections))
  }

  /** A request during which no other thread takes the lock is served iff the pool is initialized and one
      of its turns serves. */
  lemma QuietRequestIff(p: Pool, waits: seq<Wait>)
    requires LegalWaits(p, waits) && Quiet(waits)
    ensures Request(p, waits).1.Some? <==> p.initialized && exists j :: Serves(p, waits, j)
  {
    QuietTurnsIff(p, waits);
  }

  lemma {:induction false} QuietTurnsIff(p: Pool, waits: seq<Wait>)
    requires LegalWaits(p, waits) && Quiet(waits)
    ensures Turns(p, waits).1.Some? <==> exists j :: Serves(p, waits, j)
    decreases |waits|
  {
    if waits == [] {
    } else {
      var w := waits[0];
      var (q, c) := Turn(p, w.valid, w.attempt, w.now);
      assert c.Some? <==> Serves(p, waits, 0);
      if c.None? {
        assert w.others == [];
        QuietTurnsIff(q, waits[1..]);
        forall j | 0 < j ensures Serves(p, waits, j) <==> Serves(q, waits[1..], j - 1) {
          ServesLater(p, q, waits, j);
        }
        if j :| Serves(q, waits[1..], j) {
          assert Serves(p, waits, j + 1);
        }
        if j :| Serves(p, waits, j) {
          assert Serves(q, waits[1..], j - 1);
        }
      }
    }
  }

  lemma ServesLater(p: Pool, q: Pool, waits: seq<Wait>, j: int)
    requires waits != [] && j > 0
    requires q.available == (if p.available == [] then [] else p.available[1..])
    requires q.active == p.active && q.maxConnections == p.maxConnections
    ensures Serves(p, waits, j) <==> Serves(q, waits[1..], j - 1)
  {
  }
}
