/** Whole runs of the alarm lifecycle: any interleaving of filter, query, confirm, resolve, publish
    and environment steps, each with its own clock reading. */
module AlarmRuns {
  import opened AlarmEvents
  import opened AlarmState
  import opened Text
  import opened Tracks
  import opened Wrappers

  datatype Step =
    | FilterStep(kind: int, id: int64)
    | QueryStep(id: int64)
    | ConfirmStep(id: int64, hint: Option<Hint>)
    | ResolveStep(alarm: Alarm, ruleVerdict: bool)
    | PublishStep(verified: set<string>)
    | TargetTypeStep(key: string, classId: int)
    | EnvironmentStep(rules: map<string, Alarm>, tracks: Tables, trackTypes: map<string, int>, settings: Settings)

  datatype Timed = Timed(now: int, step: Step)

  function Apply(s: State, t: Timed): State {
    match t.step
    case FilterStep(kind, id) => AddFilter(s, kind, id, t.now)
    case QueryStep(id) => Query(s, id, t.now)
    case ConfirmStep(id, hint) => Confirm(s, id, hint, t.now).0
    case ResolveStep(a, v) => Resolve(s, a, v, t.now)
    case PublishStep(verified) => Publish(s, verified, t.now)
    case TargetTypeStep(k, c) => s.(targetTypes := s.targetTypes[k := c])
    case EnvironmentStep(rules, tracks, types, settings) =>
      s.(rules := rules, tracks := tracks, trackTypes := types, settings := settings)
  }

  function Run(s: State, trace: seq<Timed>): State {
    if trace == [] then s else Apply(Run(s, trace[..|trace| - 1]), trace[|trace| - 1])
  }

  function Start(tracks: Tables, settings: Settings): State {
    State(map[], map[], map[], map[], {}, map[], map[], map[], tracks, map[], settings)
  }

  /** Alarm generation may do anything to the rule alarms, but files each under its own id. */
  ghost predicate Legal(trace: seq<Timed>) {
    forall i :: 0 <= i < |trace| ==> LegalStep(trace[i].step)
  }

  ghost predicate LegalStep(step: Step) {
    step.EnvironmentStep? ==> forall k :: k in step.rules ==> step.rules[k].alarmId == k
  }

  ghost predicate Clocked(trace: seq<Timed>, now: int) {
    && (forall i, j :: 0 <= i < j < |trace| ==> trace[i].now <= trace[j].now)
    && (forall i :: 0 <= i < |trace| ==> trace[i].now <= now)
  }

  /** What each kind of step is. */
  lemma ApplyCases(s: State, t: Timed)
    ensures t.step.FilterStep? ==> Apply(s, t) == AddFilter(s, t.step.kind, t.step.id, t.now)
    ensures t.step.QueryStep? ==> Apply(s, t) == Query(s, t.step.id, t.now)
    ensures t.step.ConfirmStep? ==> Apply(s, t) == Confirm(s, t.step.id, t.step.hint, t.now).0
    ensures t.step.ResolveStep? ==> Apply(s, t) == Resolve(s, t.step.alarm, t.step.ruleVerdict, t.now)
    ensures t.step.PublishStep? ==> Apply(s, t) == Publish(s, t.step.verified, t.now)
    ensures t.step.TargetTypeStep? ==> Apply(s, t) == s.(targetTypes := s.targetTypes[t.step.key := t.step.classId])
    ensures t.step.EnvironmentStep? ==>
              Apply(s, t) == s.(rules := t.step.rules, tracks := t.step.tracks, trackTypes := t.step.trackTypes,
                                settings := t.step.settings)
  {
    hide Confirm, Publish, AddFilter, Resolve, Query;
  }

  // ----- the invariant -----

  lemma TablesInv(s: State, t: State)
    requires Inv(s) && forall k :: k in t.rules ==> t.rules[k].alarmId == k
    requires t.manual == s.manual && t.manualAir == s.manualAir && t.confirmed == s.confirmed
             && t.confirmedAt == s.confirmedAt && t.resolvedAt == s.resolvedAt
    ensures Inv(t)
  {
    forall k | k in t.manual ensures ManualEntryOk(t, k) {
      assert ManualEntryOk(s, k);
    }
  }

  lemma QueryInv(s: State, id: int64, now: int)
    requires Inv(s)
    ensures Inv(Query(s, id, now))
  {
    hide Prune;
    InvFrame(s, Query(s, id, now).filters, s.resolvedAt);
    assert Query(s, id, now) == s.(filters := Query(s, id, now).filters, resolvedAt := s.resolvedAt);
  }

  lemma TargetTypeInv(s: State, t: Timed)
    requires Inv(s) && t.step.TargetTypeStep?
    ensures Inv(Apply(s, t))
  {
    TablesInv(s, Apply(s, t));
  }

  lemma EnvironmentInv(s: State, t: Timed)
    requires Inv(s) && t.step.EnvironmentStep? && LegalStep(t.step)
    ensures Inv(Apply(s, t))
  {
    TablesInv(s, Apply(s, t));
  }

  lemma ApplyInv(s: State, t: Timed)
    requires Inv(s) && LegalStep(t.step)
    ensures Inv(Apply(s, t))
  {
    hide Confirm, Publish, AddFilter, Resolve, Query, Inv;
    match t.step
    case FilterStep(kind, id) => AddFilterInv(s, kind, id, t.now);
    case QueryStep(id) => QueryInv(s, id, t.now);
    case ConfirmStep(id, hint) => ConfirmInv(s, id, hint, t.now);
    case ResolveStep(a, v) => ResolveInv(s, a, v, t.now);
    case PublishStep(verified) => PublishInv(s, verified, t.now);
    case TargetTypeStep(k, c) => TargetTypeInv(s, t);
    case EnvironmentStep(rules, tracks, types, settings) => EnvironmentInv(s, t);
  }

  /** Every state of every run: manual alarms are filed under "manual-" and their positive, confirmed
      id, with an air entry; the confirmed ids are exactly those with a confirm time; no recorded time
      is empty. */
  lemma {:induction false} RunInv(s: State, trace: seq<Timed>)
    requires Inv(s) && Legal(trace)
    ensures Inv(Run(s, trace))
  {
    if trace == [] {
    } else {
      var front := trace[..|trace| - 1];
      RunInv(s, front);
      ApplyInv(Run(s, front), trace[|trace| - 1]);
    }
  }

  lemma StartInv(tracks: Tables, settings: Settings)
    ensures Inv(Start(tracks, settings))
  {
  }

  lemma PrefixOfPrefix(trace: seq<Timed>, i: nat, j: nat)
    requires i <= j <= |trace|
    ensures trace[..j][..i] == trace[..i]
  {
  }

  // ----- what a confirmation touches -----

  /** The id under which a confirmation files a manual alarm, if it files one. */
  function StoredId(s: State, id: int64, hint: Option<Hint>): Option<int64> {
    if id <= 0 || HasRuleAlarm(s, id) then None
    else
      var hit := ConfirmHit(s, id, hint);
      if hit.Miss? then None else Some(EffectiveUniqueId(hit, id))
  }

  predicate Stores(s: State, t: Timed, id: int64) {
    t.step.ConfirmStep? && StoredId(s, t.step.id, t.step.hint) == Some(id)
  }

  predicate Clears(s: State, t: Timed, id: int64) {
    t.step.ConfirmStep? && t.step.id > 0 && (t.step.id == id || Stores(s, t, id))
  }

  predicate Arms(t: Timed, kind: int, id: int64) {
    t.step == FilterStep(kind, id) && id > 0
  }

  // ----- filters refine their history -----

  /** The filter armed at step i is the latest word on (kind, id), and has not expired: it lasts the time
      to live set when it was armed, and a second at the least. */
  ghost predicate LiveFilter(s: State, trace: seq<Timed>, i: int, kind: int, id: int64, now: int) {
    && 0 <= i < |trace|
    && Arms(trace[i], kind, id)
    && (now - trace[i].now < 1000 || now - trace[i].now < Run(s, trace[..i]).settings.filterTtlMs)
    && forall j :: i < j < |trace| ==> !Arms(trace[j], kind, id) && !Clears(Run(s, trace[..j]), trace[j], id)
  }

  /** The expiry last written for (kind, id), if no confirmation has cleared it since. */
  ghost function Latest(s: State, trace: seq<Timed>, kind: int, id: int64): Option<int> {
    if trace == [] then None
    else
      var front, last := trace[..|trace| - 1], trace[|trace| - 1];
      if Arms(last, kind, id) then Some(Expiry(Run(s, front), last.now))
      else if Clears(Run(s, front), last, id) then None
      else Latest(s, front, kind, id)
  }

  /** The four ways a confirmation can end. */
  lemma ConfirmCases(s: State, id: int64, hint: Option<Hint>, now: int)
    ensures var marked, stored := MarkConfirmed(s, id, now), StoredId(s, id, hint);
            Confirm(s, id, hint, now).0 ==
              if id <= 0 then s
              else if stored.Some? then StoreManual(marked, stored.value, ConfirmHit(s, id, hint), now)
              else if HasRuleAlarm(s, id) then
                marked.(rules := Raise(s.rules, id, ThreatFloor(s)), resolvedAt := ResolveRules(marked, id, marked.confirmedAt[id]))
              else marked
  {
  }

  /** What a step may do to the filter of (kind, id). */
  ghost predicate FilterEffect(s: State, u: State, t: Timed, kind: int, id: int64) {
    var k := (kind, id);
    if Arms(t, kind, id) then k in u.filters && u.filters[k] == Expiry(s, t.now)
    else if Clears(s, t, id) then k !in u.filters
    else
      && (k in u.filters ==> k in s.filters && u.filters[k] == s.filters[k])
      && (k in s.filters && k !in u.filters ==> s.filters[k] <= t.now)
  }

  lemma ClearAt(f: map<FilterKey, int>, id: int64, kind: int, other: int64)
    requires kind == 0 || kind == 1
    ensures (kind, other) in ClearFilter(f, id) <==> (kind, other) in f && other != id
    ensures (kind, other) in ClearFilter(f, id) ==> ClearFilter(f, id)[(kind, other)] == f[(kind, other)]
  {
  }

  lemma ConfirmFilterTable(s: State, id: int64, hint: Option<Hint>, now: int)
    ensures var stored := StoredId(s, id, hint);
            Confirm(s, id, hint, now).0.filters ==
              if id <= 0 then s.filters
              else if stored.Some? then ClearFilter(ClearFilter(s.filters, id), stored.value)
              else ClearFilter(s.filters, id)
  {
    hide Confirm, StoredId, HasRuleAlarm, ConfirmHit, BuildManual, Raise, ResolveRules, ClearFilter;
    ConfirmCases(s, id, hint, now);
  }

  lemma ConfirmFilters(s: State, t: Timed, kind: int, other: int64)
    requires t.step.ConfirmStep? && (kind == 0 || kind == 1)
    ensures FilterEffect(s, Confirm(s, t.step.id, t.step.hint, t.now).0, t, kind, other)
  {
    hide Confirm, StoredId, ClearFilter;
    var id, hint := t.step.id, t.step.hint;
    ConfirmFilterTable(s, id, hint, t.now);
    NothingStored(s, id, hint);
    ClearAt(s.filters, id, kind, other);
    if StoredId(s, id, hint).Some? {
      ClearAt(ClearFilter(s.filters, id), StoredId(s, id, hint).value, kind, other);
    }
  }

  lemma NothingStored(s: State, id: int64, hint: Option<Hint>)
    ensures id <= 0 ==> StoredId(s, id, hint) == None
  {
  }

  lemma PruneAt(f: map<FilterKey, int>, now: int, k: FilterKey)
    ensures k in Prune(f, now) <==> k in f && f[k] > now
    ensures k in Prune(f, now) ==> Prune(f, now)[k] == f[k]
  {
  }

  lemma PublishFilters(s: State, verified: set<string>, now: int)
    ensures Publish(s, verified, now).filters == s.filters || Publish(s, verified, now).filters == Prune(s.filters, now)
  {
  }

  lemma PublishFilterAt(s: State, t: Timed, kind: int, id: int64)
    requires t.step.PublishStep?
    ensures FilterEffect(s, Publish(s, t.step.verified, t.now), t, kind, id)
  {
    hide Publish, Prune;
    PruneAt(s.filters, t.now, (kind, id));
    PublishFilters(s, t.step.verified, t.now);
    assert !Arms(t, kind, id) && !Clears(s, t, id);
  }

  lemma QueryFilterAt(s: State, t: Timed, kind: int, id: int64)
    requires t.step.QueryStep?
    ensures FilterEffect(s, Query(s, t.step.id, t.now), t, kind, id)
  {
    hide Prune;
    PruneAt(s.filters, t.now, (kind, id));
  }

  lemma AddFilterAt(s: State, t: Timed, kind: int, id: int64)
    requires t.step.FilterStep?
    ensures FilterEffect(s, AddFilter(s, t.step.kind, t.step.id, t.now), t, kind, id)
  {
    hide Without;
  }

  lemma SameFilterAt(s: State, u: State, t: Timed, kind: int, id: int64)
    requires !t.step.FilterStep? && !t.step.ConfirmStep? && u.filters == s.filters
    ensures FilterEffect(s, u, t, kind, id)
  {
  }

  lemma ApplyFilters(s: State, t: Timed, kind: int, id: int64)
    requires kind == 0 || kind == 1
    ensures FilterEffect(s, Apply(s, t), t, kind, id)
  {
    hide Apply, Confirm, Publish, AddFilter, Query, TimesWith, FilterEffect;
    ApplyCases(s, t);
    match t.step
    case ConfirmStep(i, hint) => ConfirmFilters(s, t, kind, id);
    case PublishStep(verified) => PublishFilterAt(s, t, kind, id);
    case QueryStep(i) => QueryFilterAt(s, t, kind, id);
    case FilterStep(c, i) => AddFilterAt(s, t, kind, id);
    case ResolveStep(a, v) => SameFilterAt(s, Apply(s, t), t, kind, id);
    case TargetTypeStep(k, c) => SameFilterAt(s, Apply(s, t), t, kind, id);
    case EnvironmentStep(rules, tracks, types, settings) => SameFilterAt(s, Apply(s, t), t, kind, id);
  }

  lemma {:induction false} StoreTracksLatest(s: State, trace: seq<Timed>, kind: int, id: int64, now: int)
    requires s.filters == map[] && Clocked(trace, now) && (kind == 0 || kind == 1)
    ensures var f, latest := Run(s, trace).filters, Latest(s, trace, kind, id);
            && ((kind, id) in f ==> latest == Some(f[(kind, id)]))
            && ((kind, id) !in f && latest.Some? ==> latest.value <= now)
  {
    hide Apply, Clears;
    if trace == [] {
    } else {
      var front, last := trace[..|trace| - 1], trace[|trace| - 1];
      StoreTracksLatest(s, front, kind, id, last.now);
      ApplyFilters(Run(s, front), last, kind, id);
    }
  }

  lemma {:induction false} LatestIsLive(s: State, trace: seq<Timed>, kind: int, id: int64, now: int)
    ensures (Latest(s, trace, kind, id).Some? && now < Latest(s, trace, kind, id).value)
            <==> exists i :: LiveFilter(s, trace, i, kind, id, now)
  {
    hide Run, Clears;
    if trace == [] {
    } else {
      var n := |trace| - 1;
      var front, last := trace[..n], trace[n];
      LatestIsLive(s, front, kind, id, now);
      forall i | 0 <= i < n ensures trace[..i] == front[..i] && trace[i] == front[i] {
        PrefixOfPrefix(trace, i, n);
      }
      if Arms(last, kind, id) {
        assert LiveFilter(s, trace, n, kind, id, now) <==> now < Expiry(Run(s, front), last.now);
      } else if !Clears(Run(s, front), last, id) {
        LiveStep(s, trace, front, kind, id, now);
      }
    }
  }

  lemma LiveStep(s: State, trace: seq<Timed>, front: seq<Timed>, kind: int, id: int64, now: int)
    requires trace != [] && front == trace[..|trace| - 1]
    requires !Arms(trace[|trace| - 1], kind, id) && !Clears(Run(s, front), trace[|trace| - 1], id)
    ensures (exists i :: LiveFilter(s, trace, i, kind, id, now)) <==> exists i :: LiveFilter(s, front, i, kind, id, now)
  {
    hide Run, Clears;
    forall i | 0 <= i < |front| ensures trace[..i] == front[..i] && trace[i] == front[i] {
      PrefixOfPrefix(trace, i, |front|);
    }
    if i :| LiveFilter(s, trace, i, kind, id, now) {
      assert LiveFilter(s, front, i, kind, id, now);
    }
    if i :| LiveFilter(s, front, i, kind, id, now) {
      assert LiveFilter(s, trace, i, kind, id, now);
    }
  }

  /** Pruning on the way is never observable: an id is filtered iff for one of the two types the
      latest of its arming and clearing steps is an arming that has not run out. */
  lemma {:induction false} FilterRefinesHistory(s: State, trace: seq<Timed>, id: int64, now: int)
    requires s.filters == map[] && Clocked(trace, now)
    ensures Filtered(Run(s, trace).filters, id, now)
            <==> id > 0 && ((exists i :: LiveFilter(s, trace, i, 0, id, now)) || (exists i :: LiveFilter(s, trace, i, 1, id, now)))
  {
    hide Run, Latest, LiveFilter;
    StoreTracksLatest(s, trace, 0, id, now);
    StoreTracksLatest(s, trace, 1, id, now);
    LatestIsLive(s, trace, 0, id, now);
    LatestIsLive(s, trace, 1, id, now);
  }

  // ----- confirmation is permanent, times are written once -----

  ghost predicate Grows(s: State, t: State) {
    && s.confirmed <= t.confirmed
    && (forall id :: id in s.confirmedAt ==> id in t.confirmedAt && t.confirmedAt[id] == s.confirmedAt[id])
    && (forall k :: k in s.resolvedAt ==> k in t.resolvedAt && t.resolvedAt[k] == s.resolvedAt[k])
  }

  lemma GrowsTransitive(s: State, t: State, u: State)
    requires Grows(s, t) && Grows(t, u)
    ensures Grows(s, u)
  {
  }

  lemma SameGrows(s: State)
    ensures Grows(s, s)
  {
  }

  lemma MarkGrows(s: State, id: int64, now: int)
    ensures Grows(s, MarkConfirmed(s, id, now))
  {
  }

  lemma ConfirmGrows(s: State, id: int64, hint: Option<Hint>, now: int)
    ensures Grows(s, Confirm(s, id, hint, now).0)
  {
    hide Confirm, StoredId, HasRuleAlarm, ConfirmHit, BuildManual, Raise, MarkConfirmed;
    ConfirmCases(s, id, hint, now);
    if id > 0 {
      var marked, stored := MarkConfirmed(s, id, now), StoredId(s, id, hint);
      MarkGrows(s, id, now);
      if stored.Some? {
        MarkGrows(marked, stored.value, now);
        GrowsTransitive(s, marked, MarkConfirmed(marked, stored.value, now));
      } else if HasRuleAlarm(s, id) {
        assert Grows(marked, Confirm(s, id, hint, now).0);
        GrowsTransitive(s, marked, Confirm(s, id, hint, now).0);
      }
    }
  }

  lemma PublishGrows(s: State, verified: set<string>, now: int)
    ensures Grows(s, Publish(s, verified, now))
  {
    hide Refresh, Stale, DropsAir, SeesAir, EarnsTime, FiltersAfter, AsksFilter;
    var t, u := Sync(s, now), Publish(s, verified, now);
    assert u.confirmed == s.confirmed && u.confirmedAt == s.confirmedAt;
    assert u.resolvedAt == s.resolvedAt || u.resolvedAt == TimesAfter(t, verified, now);
  }

  lemma ResolveGrows(s: State, a: Alarm, ruleVerdict: bool, now: int)
    ensures Grows(s, Resolve(s, a, ruleVerdict, now))
  {
  }

  lemma OtherGrows(s: State, u: State)
    requires u.confirmed == s.confirmed && u.confirmedAt == s.confirmedAt && u.resolvedAt == s.resolvedAt
    ensures Grows(s, u)
  {
  }

  lemma ApplyGrows(s: State, t: Timed)
    ensures Grows(s, Apply(s, t))
  {
    hide Apply, Confirm, Publish, Resolve, Without, Prune, Grows;
    ApplyCases(s, t);
    match t.step
    case ConfirmStep(id, hint) => ConfirmGrows(s, id, hint, t.now);
    case PublishStep(verified) => PublishGrows(s, verified, t.now);
    case ResolveStep(alarm, v) => ResolveGrows(s, alarm, v, t.now);
    case FilterStep(kind, id) => OtherGrows(s, Apply(s, t));
    case QueryStep(id) => OtherGrows(s, Apply(s, t));
    case TargetTypeStep(k, c) => OtherGrows(s, Apply(s, t));
    case EnvironmentStep(rules, tracks, types, settings) => OtherGrows(s, Apply(s, t));
  }

  /** No confirmed id is ever unconfirmed and no recorded time ever changes. */
  lemma {:induction false} RunGrows(s: State, trace: seq<Timed>, i: nat)
    requires i <= |trace|
    ensures Grows(Run(s, trace[..i]), Run(s, trace))
    decreases |trace|
  {
    hide Apply, Grows;
    if i == |trace| {
      assert trace[..i] == trace;
      SameGrows(Run(s, trace));
    } else {
      var front := trace[..|trace| - 1];
      PrefixOfPrefix(trace, i, |trace| - 1);
      RunGrows(s, front, i);
      ApplyGrows(Run(s, front), trace[|trace| - 1]);
      GrowsTransitive(Run(s, trace[..i]), Run(s, front), Run(s, trace));
    }
  }

  /** From its confirmation on, every rule alarm of the id is "verified", with a time. */
  lemma {:induction false} ConfirmedForGood(s: State, trace: seq<Timed>, i: nat, a: Alarm, ruleVerdict: bool, now: int)
    requires Inv(s) && Legal(trace) && i <= |trace|
    requires a.uniqueId in Run(s, trace[..i]).confirmed
    ensures var d := DispositionOf(Run(s, trace), a, ruleVerdict, now);
            && d.taskStatus == 3 && d.resolved.At?
            && (a.alarmId !in Run(s, trace).resolvedAt ==>
                  d.resolved == TimeOfConfirm(Run(s, trace[..i]).confirmedAt, a.uniqueId, NoTime))
  {
    hide Run;
    RunGrows(s, trace, i);
    RunInv(s, trace);
    assert Legal(trace[..i]);
    RunInv(s, trace[..i]);
  }

  /** Two resolutions of the same alarm id that verify report the same time, however far apart. */
  lemma ResolveStable(s: State, trace: seq<Timed>, i: nat, j: nat)
    requires Inv(s) && Legal(trace) && i < j < |trace|
    requires trace[i].step.ResolveStep? && trace[j].step.ResolveStep?
    requires trace[i].step.alarm.alarmId == trace[j].step.alarm.alarmId
    requires Verifies(Run(s, trace[..i]).confirmed, trace[i].step.alarm, trace[i].step.ruleVerdict)
    requires Verifies(Run(s, trace[..j]).confirmed, trace[j].step.alarm, trace[j].step.ruleVerdict)
    ensures var first := DispositionOf(Run(s, trace[..i]), trace[i].step.alarm, trace[i].step.ruleVerdict, trace[i].now);
            var later := DispositionOf(Run(s, trace[..j]), trace[j].step.alarm, trace[j].step.ruleVerdict, trace[j].now);
            first == later && first.taskStatus == 3 && first.resolved.At?
  {
    hide Run;
    var before := Run(s, trace[..i]);
    assert Legal(trace[..i]) && Legal(trace[..j]);
    RunInv(s, trace[..i]);
    RunInv(s, trace[..j]);
    RunStep(s, trace, i + 1);
    assert Run(s, trace[..i + 1]) == Resolve(before, trace[i].step.alarm, trace[i].step.ruleVerdict, trace[i].now);
    PrefixOfPrefix(trace, i + 1, j);
    RunGrows(s, trace[..j], i + 1);
  }

  // ----- the life of a manual alarm -----

  /** The manual-alarm table after a confirmation. */
  lemma ConfirmManual(s: State, id: int64, hint: Option<Hint>, now: int)
    ensures var stored := StoredId(s, id, hint);
            Confirm(s, id, hint, now).0.manual ==
              if stored.None? then s.manual
              else s.manual[ManualKey(stored.value) :=
                     BuildManual(ConfirmHit(s, id, hint).track, stored.value, ThreatFloor(s), Existing(s, stored.value), now)]
  {
    hide Confirm, HasRuleAlarm, ConfirmHit, BuildManual, Raise, ResolveRules;
    ConfirmCases(s, id, hint, now);
  }

  lemma PublishManual(s: State, verified: set<string>, now: int)
    ensures Publish(s, verified, now).manual == Sync(s, now).manual
  {
  }

  /** What a step may do to the manual alarm of an id. */
  ghost predicate ManualEffect(s: State, u: State, t: Timed, id: int64) {
    var k := ManualKey(id);
    if Stores(s, t, id) then
      k in u.manual
      && u.manual[k] == BuildManual(ConfirmHit(s, t.step.id, t.step.hint).track, id, ThreatFloor(s), Existing(s, id), t.now)
    else if t.step.FilterStep? && t.step.id == id then k !in u.manual
    else if t.step.PublishStep? then
      (k in u.manual <==> k in s.manual && !Stale(s, k, t.now)) && (k in u.manual ==> u.manual[k] == Refresh(s, s.manual[k], t.now))
    else (k in u.manual <==> k in s.manual) && (k in u.manual ==> u.manual[k] == s.manual[k])
  }

  lemma ConfirmManualAt(s: State, t: Timed, id: int64)
    requires t.step.ConfirmStep?
    ensures ManualEffect(s, Confirm(s, t.step.id, t.step.hint, t.now).0, t, id)
  {
    hide Confirm, StoredId, ConfirmHit, BuildManual, ManualKey;
    ConfirmManual(s, t.step.id, t.step.hint, t.now);
    var stored := StoredId(s, t.step.id, t.step.hint);
    if stored.Some? && ManualKey(stored.value) == ManualKey(id) {
      ManualKeyInjective(stored.value, id);
    }
  }

  lemma FilterManualAt(s: State, t: Timed, id: int64)
    requires Inv(s) && t.step.FilterStep?
    ensures ManualEffect(s, Apply(s, t), t, id)
  {
    hide ManualKey;
    if ManualKey(id) in s.manual {
      assert ManualEntryOk(s, ManualKey(id));
      ManualKeyInjective(s.manual[ManualKey(id)].uniqueId, id);
    }
  }

  lemma OtherManualAt(s: State, t: Timed, id: int64)
    requires t.step.QueryStep? || t.step.ResolveStep? || t.step.TargetTypeStep? || t.step.EnvironmentStep?
    ensures ManualEffect(s, Apply(s, t), t, id)
  {
    hide StoredId, BuildManual, ManualKey, Prune, Refresh, Stale, TimesWith;
  }

  lemma PublishManualAt(s: State, t: Timed, id: int64)
    requires t.step.PublishStep?
    ensures ManualEffect(s, Apply(s, t), t, id)
  {
    hide Publish, StoredId, BuildManual, ManualKey, Refresh, Stale;
    PublishManual(s, t.step.verified, t.now);
    assert Apply(s, t) == Publish(s, t.step.verified, t.now);
  }

  lemma ApplyManualAt(s: State, t: Timed, id: int64)
    requires Inv(s)
    ensures ManualEffect(s, Apply(s, t), t, id)
  {
    hide ManualEffect, Confirm, Publish, AddFilter, Inv;
    match t.step
    case ConfirmStep(request, hint) => ConfirmManualAt(s, t, id);
    case PublishStep(verified) => PublishManualAt(s, t, id);
    case FilterStep(kind, i) => FilterManualAt(s, t, id);
    case QueryStep(i) => OtherManualAt(s, t, id);
    case ResolveStep(alarm, v) => OtherManualAt(s, t, id);
    case TargetTypeStep(k, c) => OtherManualAt(s, t, id);
    case EnvironmentStep(rules, tracks, types, settings) => OtherManualAt(s, t, id);
  }

  /** One step while the entry lives: confirmations add one, nothing else counts; the origin stays;
      the threat never drops. */
  lemma ManualAlarmStep(s: State, t: Timed, id: int64)
    requires Inv(s) && ManualKey(id) in s.manual && ManualKey(id) in Apply(s, t).manual
    ensures var a, b := s.manual[ManualKey(id)], Apply(s, t).manual[ManualKey(id)];
            && b.count == a.count + (if Stores(s, t, id) then 1 else 0)
            && b.originTime == a.originTime
            && b.threat >= a.threat
            && (a.threatTimeMs > 0 ==> b.threatTimeMs == a.threatTimeMs)
  {
    hide Apply, ManualKey;
    assert ManualEntryOk(s, ManualKey(id));
    ApplyManualAt(s, t, id);
  }

  /** An entry appears only through a confirmation that stores it, with count one. */
  lemma ManualAlarmBirth(s: State, t: Timed, id: int64)
    requires Inv(s) && ManualKey(id) !in s.manual && ManualKey(id) in Apply(s, t).manual
    ensures Stores(s, t, id)
    ensures var b := Apply(s, t).manual[ManualKey(id)];
            b.count == 1 && b.originTime == At(t.now) && b.threatTimeMs == t.now && b.threat >= 1
  {
    hide Apply, ManualKey;
    ApplyManualAt(s, t, id);
  }

  /** An entry disappears only by a kill-alarm filter on its id, or when publishing finds it trackless
      and older than ten minutes; and those steps always remove it. */
  lemma {:induction false} ManualAlarmDeath(s: State, t: Timed, id: int64)
    requires Inv(s) && ManualKey(id) in s.manual
    ensures var a := s.manual[ManualKey(id)];
            ManualKey(id) !in Apply(s, t).manual <==>
              || (t.step.FilterStep? && t.step.id == id)
              || (t.step.PublishStep? && Lookup(s.tracks, id).Miss? && Millis(a.time) > 0
                  && t.now - Millis(a.time) > 600 * 1000)
  {
    assert ManualEntryOk(s, ManualKey(id));
    ManualKeyInjective(s.manual[ManualKey(id)].uniqueId, id);
    ApplyManualAt(s, t, id);
  }

  predicate HasManual(s: State, id: int64) { ManualKey(id) in s.manual }

  /** The entry was stored at step c of the trace and has been there ever since. */
  ghost predicate AliveSince(s: State, trace: seq<Timed>, c: nat, id: int64) {
    && c < |trace|
    && !HasManual(Run(s, trace[..c]), id)
    && forall j :: c < j <= |trace| ==> HasManual(Run(s, trace[..j]), id)
  }

  function StoresUpTo(s: State, trace: seq<Timed>, c: nat, n: nat, id: int64): set<int>
    requires n <= |trace|
  {
    set j | c <= j < n && Stores(Run(s, trace[..j]), trace[j], id)
  }

  lemma RunStep(s: State, trace: seq<Timed>, n: nat)
    requires 0 < n <= |trace|
    ensures Run(s, trace[..n]) == Apply(Run(s, trace[..n - 1]), trace[n - 1])
  {
    PrefixOfPrefix(trace, n - 1, n);
    assert trace[..n][n - 1] == trace[n - 1];
  }

  lemma StoresStep(s: State, trace: seq<Timed>, c: nat, n: nat, id: int64)
    requires c < n <= |trace|
    ensures StoresUpTo(s, trace, c, n, id) ==
              StoresUpTo(s, trace, c, n - 1, id)
              + (if Stores(Run(s, trace[..n - 1]), trace[n - 1], id) then {n - 1} else {})
    ensures n - 1 !in StoresUpTo(s, trace, c, n - 1, id)
  {
  }

  lemma StoresNone(s: State, trace: seq<Timed>, c: nat, id: int64)
    requires c <= |trace|
    ensures StoresUpTo(s, trace, c, c, id) == {}
  {
  }

  /** While an entry lives, its count is the number of confirmations that stored it since it was
      created, that one included, and its origin is the moment of its creation. */
  lemma {:induction false} ManualAlarmCount(s: State, trace: seq<Timed>, c: nat, n: nat, id: int64)
    requires Inv(s) && Legal(trace) && AliveSince(s, trace, c, id) && c < n <= |trace|
    ensures HasManual(Run(s, trace[..n]), id)
    ensures var a := Run(s, trace[..n]).manual[ManualKey(id)];
            && a.count == |StoresUpTo(s, trace, c, n, id)|
            && a.originTime == At(trace[c].now)
    decreases n
  {
    hide Apply, Run, StoresUpTo, Stores, Inv, ManualKey, LegalStep;
    RunStep(s, trace, n);
    StoresStep(s, trace, c, n, id);
    assert Legal(trace[..n - 1]);
    RunInv(s, trace[..n - 1]);
    if n - 1 == c {
      ManualAlarmBirth(Run(s, trace[..c]), trace[c], id);
      StoresNone(s, trace, c, id);
    } else {
      ManualAlarmCount(s, trace, c, n - 1, id);
      ManualAlarmStep(Run(s, trace[..n - 1]), trace[n - 1], id);
    }
  }

  lemma AliveExtends(s: State, trace: seq<Timed>, c: nat, id: int64)
    requires trace != [] && AliveSince(s, trace[..|trace| - 1], c, id) && HasManual(Run(s, trace), id)
    ensures AliveSince(s, trace, c, id)
  {
    hide Run, HasManual;
    var n := |trace| - 1;
    PrefixOfPrefix(trace, c, n);
    forall j | c < j <= |trace| ensures HasManual(Run(s, trace[..j]), id) {
      if j <= n {
        PrefixOfPrefix(trace, j, n);
        assert HasManual(Run(s, trace[..n][..j]), id);
      } else {
        assert trace[..j] == trace;
      }
    }
  }

  /** Every entry of a run that began with none has such a moment of creation. */
  lemma {:induction false} ManualAlarmHasBirth(s: State, trace: seq<Timed>, id: int64) returns (c: nat)
    requires !HasManual(s, id) && HasManual(Run(s, trace), id)
    ensures AliveSince(s, trace, c, id)
  {
    var n := |trace| - 1;
    if !HasManual(Run(s, trace[..n]), id) {
      c := n;
      forall j | c < j <= |trace| ensures HasManual(Run(s, trace[..j]), id) {
        assert trace[..j] == trace;
      }
    } else {
      c := ManualAlarmHasBirth(s, trace[..n], id);
      AliveExtends(s, trace, c, id);
    }
  }

  /** While an entry lives its threat score never drops. */
  lemma {:induction false} ThreatNeverDrops(s: State, trace: seq<Timed>, c: nat, m: nat, n: nat, id: int64)
    requires Inv(s) && Legal(trace) && AliveSince(s, trace, c, id) && c < m <= n <= |trace|
    ensures HasManual(Run(s, trace[..m]), id) && HasManual(Run(s, trace[..n]), id)
    ensures Run(s, trace[..m]).manual[ManualKey(id)].threat <= Run(s, trace[..n]).manual[ManualKey(id)].threat
    decreases n
  {
    hide Apply, Run, Inv, Stores, ManualKey, LegalStep;
    if m == n {
    } else {
      RunStep(s, trace, n);
      ThreatNeverDrops(s, trace, c, m, n - 1, id);
      assert Legal(trace[..n - 1]);
      RunInv(s, trace[..n - 1]);
      ManualAlarmStep(Run(s, trace[..n - 1]), trace[n - 1], id);
    }
  }
}
