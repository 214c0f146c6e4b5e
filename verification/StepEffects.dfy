/** What every operation does to the alarm tables, table by table and in plain numbers: which entries
    are there afterwards, with which values, and what stays untouched. */
module StepEffects {
  import opened AlarmEvents
  import opened AlarmRuns
  import opened AlarmState
  import opened Text
  import opened Tracks
  import opened Wrappers

  // ----- a kill-alarm filter -----

  /** A filter on a positive id lasts the time to live, and a second at the least; the rule alarms and
      manual alarms of the id are gone and so is its target type, and nothing else changes. */
  lemma FilterEffects(s: State, kind: int, id: int64, now: int)
    requires id > 0
    ensures var u, ttl := AddFilter(s, kind, id, now), s.settings.filterTtlMs;
            && u.filters == s.filters[(kind, id) := if ttl > 1000 then now + ttl else now + 1000]
            && (forall k :: k in u.rules <==> k in s.rules && s.rules[k].uniqueId != id)
            && (forall k :: k in u.rules ==> u.rules[k] == s.rules[k])
            && (forall k :: k in u.manual <==> k in s.manual && s.manual[k].uniqueId != id)
            && (forall k :: k in u.manual ==> u.manual[k] == s.manual[k])
            && u.targetTypes == s.targetTypes - {Decimal(id)}
            && u == s.(filters := u.filters, rules := u.rules, manual := u.manual, targetTypes := u.targetTypes)
  {
    hide Decimal;
  }

  lemma FilterRejects(s: State, kind: int, id: int64, now: int)
    requires id <= 0
    ensures AddFilter(s, kind, id, now) == s
  {
  }

  /** Asking about a positive id leaves exactly the filters that have not run out, of whatever id. */
  lemma QueryEffects(s: State, id: int64, now: int, k: FilterKey)
    ensures var u := Query(s, id, now);
            && (k in u.filters <==> k in s.filters && (id <= 0 || s.filters[k] > now))
            && (k in u.filters ==> u.filters[k] == s.filters[k])
            && u == s.(filters := u.filters)
  {
  }

  ghost predicate HasRule(s: State, id: int64) { exists k :: k in s.rules && s.rules[k].uniqueId == id }

  lemma StepKeepsAway(s: State, t: Timed, id: int64)
    requires !t.step.EnvironmentStep? && !HasRule(s, id)
    ensures !HasRule(Apply(s, t), id)
  {
    hide Apply;
    RulesOnlyRaised(s, t);
    var u := Apply(s, t);
    if k :| k in u.rules && u.rules[k].uniqueId == id {
      assert k in s.rules && s.rules[k].uniqueId == id;
    }
  }

  /** No step but the environment's brings in a rule alarm or gives one another id. */
  lemma RulesOnlyRaised(s: State, t: Timed)
    requires !t.step.EnvironmentStep?
    ensures forall k :: k in Apply(s, t).rules ==> k in s.rules && Apply(s, t).rules[k].uniqueId == s.rules[k].uniqueId
  {
    hide Apply, Confirm, Publish, Resolve, Query, AddFilter;
    ApplyCases(s, t);
    match t.step
    case ConfirmStep(id, hint) => ConfirmRules(s, id, hint, t.now);
    case FilterStep(kind, id) =>
      if id > 0 {
        FilterEffects(s, kind, id, t.now);
      } else {
        FilterRejects(s, kind, id, t.now);
      }
    case _ => OtherRules(s, t);
  }

  lemma OtherRules(s: State, t: Timed)
    requires t.step.QueryStep? || t.step.ResolveStep? || t.step.PublishStep? || t.step.TargetTypeStep?
    ensures Apply(s, t).rules == s.rules
  {
  }

  /** From a filter step on there is no rule alarm of the id, until alarm generation brings one back. */
  lemma {:induction false} KilledUntilGenerated(s: State, trace: seq<Timed>, i: nat, n: nat, id: int64)
    requires i < n <= |trace| && trace[i].step.FilterStep? && trace[i].step.id == id && id > 0
    requires forall j :: i < j < n ==> !trace[j].step.EnvironmentStep?
    ensures !HasRule(Run(s, trace[..n]), id)
    decreases n
  {
    hide Apply, Run;
    RunStep(s, trace, n);
    var before := Run(s, trace[..n - 1]);
    if n - 1 == i {
      ApplyCases(before, trace[i]);
      FilterEffects(before, trace[i].step.kind, id, trace[i].now);
    } else {
      KilledUntilGenerated(s, trace, i, n - 1, id);
      StepKeepsAway(before, trace[n - 1], id);
    }
  }

  // ----- a manual confirmation -----

  /** Every rule alarm of a confirmed id is raised to the threat the settings call for, ninety without a
      setting, if it is below; every other rule alarm is left as it is. */
  lemma ConfirmRules(s: State, id: int64, hint: Option<Hint>, now: int)
    ensures var u := Confirm(s, id, hint, now).0;
            var floor := if s.settings.defaultThreat > 0 then s.settings.defaultThreat else 90;
            && u.rules.Keys == s.rules.Keys
            && (forall k :: k in s.rules ==>
                  u.rules[k] == if id > 0 && s.rules[k].uniqueId == id && s.rules[k].threat < floor
                                then s.rules[k].(threat := floor) else s.rules[k])
  {
    hide Confirm, ConfirmHit, BuildManual, ResolveRules, ClearFilter, WriteOnce, EffectiveUniqueId;
    ConfirmCases(s, id, hint, now);
    assert !HasRuleAlarm(s, id) ==> forall k :: k in s.rules ==> s.rules[k].uniqueId != id;
  }

  /** What a confirmation answers. */
  lemma ConfirmAnswers(s: State, id: int64, hint: Option<Hint>, now: int)
    ensures var result := Confirm(s, id, hint, now).1;
            result ==
              if id <= 0 then InvalidId
              else if exists k :: k in s.rules && s.rules[k].uniqueId == id then RuleAlarm
              else if Lookup(s.tracks, id).Hit? then ManualFromTrack
              else if hint.Some? && hint.value.valid then ManualFromHint
              else TrackNotFound
  {
    hide Lookup, BuildManual, Raise, ResolveRules, ClearFilter, WriteOnce;
  }

  /** The id a confirmation of a positive id files a manual alarm under: none if there is a rule alarm or
      neither track nor valid hint; otherwise the track's own secondary id if it has one. */
  lemma ConfirmFilesUnder(s: State, id: int64, hint: Option<Hint>)
    requires id > 0
    ensures StoredId(s, id, hint) ==
              if exists k :: k in s.rules && s.rules[k].uniqueId == id then None
              else if Lookup(s.tracks, id).Hit? then
                Some(if Lookup(s.tracks, id).track.secondaryId > 0 then Lookup(s.tracks, id).track.secondaryId else id)
              else if hint.Some? && hint.value.valid then Some(id) else None
  {
    hide Lookup;
  }

  /** The ids a confirmation marks, with the time they keep if they had one, and the filters it clears. */
  lemma ConfirmMarks(s: State, id: int64, hint: Option<Hint>, now: int, j: int64)
    requires id > 0
    ensures var u, marked := Confirm(s, id, hint, now).0, j == id || StoredId(s, id, hint) == Some(j);
            && (j in u.confirmed <==> j in s.confirmed || marked)
            && (j in u.confirmedAt <==> j in s.confirmedAt || marked)
            && (j in u.confirmedAt ==> u.confirmedAt[j] == if j in s.confirmedAt then s.confirmedAt[j] else At(now))
            && (forall kind :: (kind, j) in u.filters <==> (kind, j) in s.filters && !(marked && (kind == 0 || kind == 1)))
            && (forall kind :: (kind, j) in u.filters ==> u.filters[(kind, j)] == s.filters[(kind, j)])
  {
    hide Confirm, StoredId, HasRuleAlarm, ConfirmHit, BuildManual, Raise, ResolveRules, MarkConfirmed;
    ConfirmCases(s, id, hint, now);
    MarkAt(s, id, now, j);
    if StoredId(s, id, hint).Some? {
      MarkAt(MarkConfirmed(s, id, now), StoredId(s, id, hint).value, now, j);
    }
  }

  lemma MarkAt(s: State, id: int64, now: int, j: int64)
    ensures var u := MarkConfirmed(s, id, now);
            && (j in u.confirmed <==> j in s.confirmed || j == id)
            && (j in u.confirmedAt <==> j in s.confirmedAt || j == id)
            && (j in u.confirmedAt ==> u.confirmedAt[j] == if j in s.confirmedAt then s.confirmedAt[j] else At(now))
            && (forall kind :: (kind, j) in u.filters <==> (kind, j) in s.filters && !(j == id && (kind == 0 || kind == 1)))
            && (forall kind :: (kind, j) in u.filters ==> u.filters[(kind, j)] == s.filters[(kind, j)])
            && u.resolvedAt == s.resolvedAt && u.rules == s.rules
  {
  }

  lemma ResolveRulesAt(s: State, id: int64, at: Stamp, k: string)
    ensures var r := ResolveRules(s, id, at);
            && (k in r <==> k in s.resolvedAt || (k in s.rules && s.rules[k].uniqueId == id))
            && (k in r ==> r[k] == if k in s.resolvedAt then s.resolvedAt[k] else at)
  {
  }

  /** A rule alarm of the confirmed id that had no resolve time gets that of the id's confirmation; no
      other resolve time changes. */
  lemma ConfirmTimes(s: State, id: int64, hint: Option<Hint>, now: int, k: string)
    requires id > 0
    ensures var u := Confirm(s, id, hint, now).0;
            && (k in u.resolvedAt <==> k in s.resolvedAt || (k in s.rules && s.rules[k].uniqueId == id))
            && (k in u.resolvedAt ==>
                  u.resolvedAt[k] == if k in s.resolvedAt then s.resolvedAt[k]
                                     else if id in s.confirmedAt then s.confirmedAt[id] else At(now))
  {
    hide Confirm, ConfirmHit, BuildManual, Raise, EffectiveUniqueId, MarkConfirmed, ResolveRules;
    ConfirmCases(s, id, hint, now);
    MarkAt(s, id, now, id);
    var marked := MarkConfirmed(s, id, now);
    ResolveRulesAt(marked, id, marked.confirmedAt[id], k);
    if StoredId(s, id, hint).Some? {
      MarkAt(marked, StoredId(s, id, hint).value, now, id);
    }
    assert k in s.rules && s.rules[k].uniqueId == id ==> HasRuleAlarm(s, id);
  }

  /** The manual alarm a confirmation files: where the track is, or what the hint says, one confirmation
      more, the threat raised to the floor at the least, origin, first threat time and type kept. */
  lemma ConfirmFiles(s: State, id: int64, hint: Option<Hint>, now: int, v: int64)
    requires id > 0 && StoredId(s, id, hint) == Some(v)
    ensures var u, hit := Confirm(s, id, hint, now).0, Lookup(s.tracks, id);
            var floor := if s.settings.defaultThreat > 0 then s.settings.defaultThreat else 90;
            var key := "manual-" + Decimal(v);
            && (forall k :: k in u.manual <==> k in s.manual || k == key)
            && (forall k :: k in s.manual && k != key ==> u.manual[k] == s.manual[k])
            && key in u.manual
            && (var a := u.manual[key];
                && a.alarmId == key && a.conditionId == "manual_confirm" && a.uniqueId == v
                && (a.behavior, a.status, a.taskStatus, a.groupId, a.areaId) == (0, 0, 0, 0, 0)
                && a.time == At(now)
                && (hit.Hit? ==> (a.lat, a.lon, a.speed, a.course) == (hit.track.lat, hit.track.lon, hit.track.speed, hit.track.course)
                                 && a.distance == hit.track.range / 1852.0)
                && (hit.Miss? ==> (a.lat, a.lon, a.speed, a.course)
                                  == (hint.value.lat, hint.value.lon, hint.value.speed, hint.value.course) && a.distance == 0.0)
                && (key !in s.manual ==>
                      && a.targetType == 0 && a.count == 1 && a.originTime == At(now) && a.threat == (if 0 < floor then floor else 0)
                      && a.threatTimeMs == now)
                && (key in s.manual ==>
                      var b := s.manual[key];
                      && a.targetType == b.targetType && a.count == b.count + 1
                      && a.originTime == (if b.originTime.At? then b.originTime else At(now))
                      && a.threat == (if b.threat < floor then floor else b.threat)
                      && a.threatTimeMs == (if b.threatTimeMs > 0 then b.threatTimeMs else now)))
            && u.manualAir == s.manualAir[v := if hit.Hit? then hit.air else hint.value.air]
  {
    hide Confirm, Lookup, Decimal, HasRuleAlarm, Raise, ResolveRules, ClearFilter, WriteOnce;
    ConfirmCases(s, id, hint, now);
  }

  /** Without a manual alarm to file, the manual tables stay; the other tables always do. */
  lemma ConfirmLeaves(s: State, id: int64, hint: Option<Hint>, now: int)
    ensures var u := Confirm(s, id, hint, now).0;
            && (id <= 0 ==> u == s)
            && (id <= 0 || StoredId(s, id, hint).None? ==> u.manual == s.manual && u.manualAir == s.manualAir)
            && u.targetTypes == s.targetTypes && u.tracks == s.tracks && u.trackTypes == s.trackTypes && u.settings == s.settings
  {
    hide Confirm, StoredId, HasRuleAlarm, ConfirmHit, BuildManual, Raise, ResolveRules, MarkConfirmed;
    ConfirmCases(s, id, hint, now);
    MarkLeaves(s, id, now);
    if StoredId(s, id, hint).Some? {
      MarkLeaves(MarkConfirmed(s, id, now), StoredId(s, id, hint).value, now);
    }
  }

  lemma MarkLeaves(s: State, id: int64, now: int)
    ensures var u := MarkConfirmed(s, id, now);
            u == s.(filters := u.filters, confirmed := u.confirmed, confirmedAt := u.confirmedAt)
  {
  }

  // ----- the refresh before publishing -----

  /** The refresh drops exactly the manual alarms without a track that are dated and older than 600 s. An
      entry with a track shows the track as it is now, keeps its count, origin, threat time and type, and
      its threat is the floor at the least; one without is left as it is. */
  lemma SyncEffects(s: State, now: int, k: string)
    requires Inv(s) && k in s.manual
    ensures var t, a := Sync(s, now), s.manual[k];
            var hit := Lookup(s.tracks, a.uniqueId);
            var floor := if s.settings.defaultThreat > 0 then s.settings.defaultThreat else 90;
            && (k in t.manual <==> hit.Hit? || a.time.ms <= 0 || now - a.time.ms <= 600 * 1000)
            && (k in t.manual && hit.Miss? ==> t.manual[k] == a)
            && (hit.Hit? ==>
                  var b := t.manual[k];
                  && (b.alarmId, b.uniqueId, b.conditionId) == (k, a.uniqueId, "manual_confirm")
                  && (b.behavior, b.status, b.taskStatus, b.groupId, b.areaId) == (0, 0, 0, 0, 0)
                  && (b.lat, b.lon, b.speed, b.course) == (hit.track.lat, hit.track.lon, hit.track.speed, hit.track.course)
                  && b.distance == hit.track.range / 1852.0 && b.time == At(now)
                  && (b.count, b.originTime, b.threatTimeMs, b.targetType) == (a.count, a.originTime, a.threatTimeMs, a.targetType)
                  && b.threat == (if a.threat < floor then floor else a.threat))
  {
    hide Lookup, ManualKey;
    assert ManualEntryOk(s, k);
  }

  /** The air table forgets the dropped alarms, follows the tracks of the others and keeps the rest; no
      other table changes and no manual alarm appears. */
  lemma SyncLeaves(s: State, now: int, id: int64)
    requires Inv(s)
    ensures var t, k := Sync(s, now), "manual-" + Decimal(id);
            && (id in t.manualAir <==> id in s.manualAir && (k in s.manual ==> k in t.manual))
            && (id in t.manualAir ==>
                  t.manualAir[id] == if k in s.manual && Lookup(s.tracks, id).Hit? then Lookup(s.tracks, id).air else s.manualAir[id])
            && t.manual.Keys <= s.manual.Keys
            && t == s.(manual := t.manual, manualAir := t.manualAir)
  {
    hide Lookup, Decimal;
  }

  // ----- settling a rule alarm -----

  /** A confirmed id, or rules that pass, make the alarm verified: with the time on record, else the
      time the id was confirmed, else now, and that time goes on record. Otherwise the alarm keeps its own
      status, anything but 0, 1 and 2 reading as 3, without a time, and nothing is recorded. */
  lemma ResolveEffects(s: State, a: Alarm, passes: bool, now: int)
    requires Inv(s)
    ensures var d, u := DispositionOf(s, a, passes, now), Resolve(s, a, passes, now);
            var time := if a.alarmId in s.resolvedAt then s.resolvedAt[a.alarmId]
                        else if a.uniqueId in s.confirmedAt then s.confirmedAt[a.uniqueId] else At(now);
            if a.uniqueId in s.confirmed || passes
            then d == Disposition(3, time) && u == s.(resolvedAt := s.resolvedAt[a.alarmId := time])
            else d == Disposition(if 0 <= a.taskStatus <= 2 then a.taskStatus else 3, NoTime) && u == s
  {
  }

  // ----- publishing -----

  /** Besides the refresh, publishing records a resolve time for exactly the rule alarms that are
      published and verified and had none: the time the id was confirmed, else now. */
  lemma PublishEffects(s: State, verified: set<string>, now: int, k: string)
    requires Inv(s)
    ensures var u, t := Publish(s, verified, now), Sync(s, now);
            && (k in u.resolvedAt <==>
                  k in s.resolvedAt
                  || (k in s.rules && !Filtered(s.filters, s.rules[k].uniqueId, now) && now - Millis(s.rules[k].time) <= 600 * 1000
                      && (s.rules[k].uniqueId in s.confirmed || k in verified)))
            && (k in u.resolvedAt ==>
                  u.resolvedAt[k] == if k in s.resolvedAt then s.resolvedAt[k]
                                     else if s.rules[k].uniqueId in s.confirmedAt then s.confirmedAt[s.rules[k].uniqueId] else At(now))
            && u == t.(filters := u.filters, resolvedAt := u.resolvedAt)
  {
    hide Sync, AsksFilter, FiltersAfter, Inv, Filtered;
    PublishCases(s, verified, now);
    var t := Sync(s, now);
    SyncFrame(s, now);
    TimesAfterAt(t, verified, now, k);
  }

  lemma SyncFrame(s: State, now: int)
    ensures var t := Sync(s, now); t == s.(manual := t.manual, manualAir := t.manualAir)
  {
  }

  lemma TimesAfterAt(t: State, verified: set<string>, now: int, k: string)
    ensures var times := TimesAfter(t, verified, now);
            && (k in times <==>
                  k in t.resolvedAt
                  || (k in t.rules && !Filtered(t.filters, t.rules[k].uniqueId, now) && now - Millis(t.rules[k].time) <= 600 * 1000
                      && (t.rules[k].uniqueId in t.confirmed || k in verified)))
            && (k in times ==>
                  times[k] == if k in t.resolvedAt then t.resolvedAt[k]
                              else if t.rules[k].uniqueId in t.confirmedAt then t.confirmedAt[t.rules[k].uniqueId] else At(now))
  {
    hide Filtered;
  }

  ghost predicate AsksForType(t: State, k: string) {
    && k in t.targetTypes && ToLongLong(k).Some? && ToLongLong(k).value > 0
    && (forall j :: j in t.rules ==> Decimal(t.rules[j].uniqueId) != k)
    && (forall j :: j in t.manual ==> Decimal(t.manual[j].uniqueId) != k)
  }

  ghost predicate Asks(t: State) {
    || (exists j :: j in t.rules && t.rules[j].uniqueId > 0)
    || (exists j :: j in t.manual && t.manual[j].uniqueId > 0)
    || ((t.rules != map[] || t.manual != map[]) && exists j :: AsksForType(t, j))
  }

  /** Publishing prunes iff there is something to ask the filter about: a rule or manual alarm of a
      positive id, or, beside any alarm, a target type under a positive number that is no alarm's id. */
  lemma PublishPrunes(s: State, verified: set<string>, now: int, k: FilterKey)
    ensures var u, asks := Publish(s, verified, now), Asks(Sync(s, now));
            && (k in u.filters <==> k in s.filters && (asks ==> s.filters[k] > now))
            && (k in u.filters ==> u.filters[k] == s.filters[k])
  {
    hide Sync, TimesAfter, Decimal, ToLongLong;
    PublishCases(s, verified, now);
    SyncFrame(s, now);
    var t := Sync(s, now);
    forall j ensures AsksForType(t, j) <==> j in t.targetTypes && Candidate(t, j) {
    }
  }

  /** Pruning on the way does not change what is filtered, now or later. */
  lemma PublishKeepsFilters(s: State, verified: set<string>, now: int, id: int64, later: int)
    requires now <= later
    ensures Filtered(Publish(s, verified, now).filters, id, later) <==> Filtered(s.filters, id, later)
  {
    hide AsksFilter, TimesAfter, Sync;
    PublishCases(s, verified, now);
    SyncFrame(s, now);
  }
}
