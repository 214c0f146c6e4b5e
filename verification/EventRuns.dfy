/** What whole runs guarantee about the events published on the way: the levels of ranked alarms and
    the resolve times subscribers see. */
module EventRuns {
  import opened AlarmEvents
  import opened AlarmRuns
  import opened AlarmState
  import opened PublishedEvents
  import opened Ranking
  import opened StepEffects
  import opened Text
  import opened Tracks
  import opened Wrappers

  // ----- levels -----

  predicate IsManualAlarmId(k: string) { "manual-" <= k }

  /** Alarm generation leaves the ids of manual alarms alone. */
  ghost predicate RuleIdsApart(rules: map<string, Alarm>) {
    forall k :: k in rules ==> !IsManualAlarmId(k)
  }

  ghost predicate GeneratesApart(trace: seq<Timed>) {
    forall i :: 0 <= i < |trace| && trace[i].step.EnvironmentStep? ==> RuleIdsApart(trace[i].step.rules)
  }

  lemma ApplyRuleKeys(s: State, t: Timed)
    ensures !t.step.EnvironmentStep? ==> Apply(s, t).rules.Keys <= s.rules.Keys
  {
    hide Confirm, Publish, Resolve, Query;
    match t.step
    case ConfirmStep(id, hint) => ConfirmRuleKeys(s, id, hint, t.now);
    case PublishStep(verified) => PublishRules(s, verified, t.now);
    case ResolveStep(a, v) => ResolveRuleKeys(s, a, v, t.now);
    case QueryStep(id) => QueryRuleKeys(s, id, t.now);
    case FilterStep(kind, id) =>
    case TargetTypeStep(k, c) =>
    case EnvironmentStep(rules, tracks, types, settings) =>
  }

  lemma ConfirmRuleKeys(s: State, id: int64, hint: Option<Hint>, now: int)
    ensures Confirm(s, id, hint, now).0.rules.Keys == s.rules.Keys
  {
    hide Confirm, HasRuleAlarm, ConfirmHit, BuildManual, ResolveRules, StoredId, Raise, ClearFilter, WriteOnce;
    ConfirmCases(s, id, hint, now);
    RaiseKeys(s.rules, id, ThreatFloor(s));
  }

  lemma RaiseKeys(m: map<string, Alarm>, id: int64, floor: int)
    ensures Raise(m, id, floor).Keys == m.Keys
  {
  }

  lemma PublishRules(s: State, verified: set<string>, now: int)
    ensures Publish(s, verified, now).rules == s.rules
  {
  }

  lemma ResolveRuleKeys(s: State, a: Alarm, v: bool, now: int)
    ensures Resolve(s, a, v, now).rules == s.rules
  {
  }

  lemma QueryRuleKeys(s: State, id: int64, now: int)
    ensures Query(s, id, now).rules == s.rules
  {
  }

  lemma {:induction false} RunRuleIds(s: State, trace: seq<Timed>)
    requires RuleIdsApart(s.rules) && GeneratesApart(trace)
    ensures RuleIdsApart(Run(s, trace).rules)
  {
    hide Apply;
    if trace == [] {
    } else {
      var front, last := trace[..|trace| - 1], trace[|trace| - 1];
      RunRuleIds(s, front);
      ApplyRuleKeys(Run(s, front), last);
      if last.step.EnvironmentStep? {
        EnvironmentRules(Run(s, front), last);
      }
    }
  }

  lemma EnvironmentRules(s: State, t: Timed)
    requires t.step.EnvironmentStep?
    ensures Apply(s, t).rules == t.step.rules
  {
  }

  lemma ManualKeysApart(s: State)
    requires Inv(s) && RuleIdsApart(s.rules)
    ensures s.rules.Keys !! s.manual.Keys
  {
    forall k | k in s.manual ensures k !in s.rules {
      assert ManualEntryOk(s, k);
      assert "manual-" <= ManualKey(s.manual[k].uniqueId);
    }
  }

  lemma RunApart(s: State, trace: seq<Timed>, now: int)
    requires Inv(s) && Legal(trace) && RuleIdsApart(s.rules) && GeneratesApart(trace)
    ensures var t := Sync(Run(s, trace), now); Inv(t) && t.rules.Keys !! t.manual.Keys
  {
    hide Run, Inv;
    RunInv(s, trace);
    RunRuleIds(s, trace);
    SyncInv(Run(s, trace), now);
    ManualKeysApart(Sync(Run(s, trace), now));
  }

  /** In every event of every run the level of a ranked alarm is five less the number of ranked alarms
      with a higher score, or an equal score and a smaller id, as long as alarm generation leaves the ids
      of manual alarms alone. */
  lemma RunLevelByCounting(s: State, trace: seq<Timed>, now: int, e: Entry)
    requires Inv(s) && Legal(trace) && RuleIdsApart(s.rules) && GeneratesApart(trace)
    requires e in Contenders(Sync(Run(s, trace), now), now)
    ensures var es := Contenders(Sync(Run(s, trace), now), now);
            var n := |set x | x in es && (x.score > e.score || (x.score == e.score && Before(x.id, e.id)))|;
            LevelOf(LevelMap(es), e.id) == if n < 5 then 5 - n else 0
  {
    hide Run, Contenders, LevelMap, LevelOf, Inv;
    RunApart(s, trace, now);
    EventLevelByCounting(Sync(Run(s, trace), now), now, e);
  }

  /** What a subscriber reads as the level of an alarm: with its score it is among the ranked alarms and
      fewer than five of them have a higher score, or an equal score and a smaller id, and then it is
      five less their number; or it is zero. */
  lemma RunItemLevels(s: State, trace: seq<Timed>, verified: set<string>, now: int, x: AlarmInfo)
    requires Inv(s) && Legal(trace) && RuleIdsApart(s.rules) && GeneratesApart(trace)
    requires x in Event(Run(s, trace), verified, now)
    requires var t := Sync(Run(s, trace), now); FromRule(t, verified, now, x) || FromManual(t, now, x)
    ensures var es, e := Contenders(Sync(Run(s, trace), now), now), Entry(x.alarmId, x.score);
            var n := |set y | y in es && (y.score > e.score || (y.score == e.score && Before(y.id, e.id)))|;
            x.content == LevelText(if e in es && n < 5 then 5 - n else 0)
  {
    hide Run, Event, Contenders, LevelMap, LevelOf, Sync, Inv;
    RunApart(s, trace, now);
    ItemLevel(Sync(Run(s, trace), now), verified, now, x);
  }

  lemma ItemLevel(t: State, verified: set<string>, now: int, x: AlarmInfo)
    requires Inv(t) && t.rules.Keys !! t.manual.Keys && (FromRule(t, verified, now, x) || FromManual(t, now, x))
    ensures var es, e := Contenders(t, now), Entry(x.alarmId, x.score);
            var n := |set y | y in es && (y.score > e.score || (y.score == e.score && Before(y.id, e.id)))|;
            x.content == LevelText(if e in es && n < 5 then 5 - n else 0)
  {
    hide Contenders, LevelMap, LevelOf, Lookup, Filtered, Decimal;
    var es, e := Contenders(t, now), Entry(x.alarmId, x.score);
    assert x.content == LevelText(LevelOf(LevelMap(es), x.alarmId));
    if e in es {
      EventLevelByCounting(t, now, e);
    } else {
      forall y | y in es ensures y.id != x.alarmId {
        if y.id == x.alarmId {
          OtherContender(t, verified, now, x, y);
        }
      }
      LevelOfNone(es, x.alarmId);
    }
  }

  /** A contender with the id of a published alarm has its score. */
  lemma OtherContender(t: State, verified: set<string>, now: int, x: AlarmInfo, y: Entry)
    requires Inv(t) && t.rules.Keys !! t.manual.Keys && (FromRule(t, verified, now, x) || FromManual(t, now, x))
    requires y in Contenders(t, now) && y.id == x.alarmId
    ensures y == Entry(x.alarmId, x.score)
  {
    hide Contenders, LevelMap, LevelOf, Lookup, Filtered, Decimal, RuleHasTrack;
    ContendersExact(t, now, y);
    assert forall k :: k in t.manual ==> ManualEntryOk(t, k);
  }

  /** From a filter step on no event of the run carries a rule alarm of the id, even after the filter has
      run out, until alarm generation brings one back. */
  lemma KilledNotPublished(s: State, trace: seq<Timed>, i: nat, n: nat, id: int64, verified: set<string>, now: int, x: AlarmInfo)
    requires i < n <= |trace| && trace[i].step.FilterStep? && trace[i].step.id == id && id > 0
    requires forall j :: i < j < n ==> !trace[j].step.EnvironmentStep?
    requires FromRule(Sync(Run(s, trace[..n]), now), verified, now, x)
    ensures x.trackId != Decimal(id)
  {
    hide Run, Decimal, Contenders, LevelMap, LevelOf, Filtered;
    KilledUntilGenerated(s, trace, i, n, id);
    var t := Sync(Run(s, trace[..n]), now);
    var k :| k in t.rules && RuleItem(t, LevelMap(Contenders(t, now)), verified, k, now) == Some(x);
    assert t.rules[k].uniqueId != id;
    if x.trackId == Decimal(id) {
      DecimalInjective(t.rules[k].uniqueId, id);
    }
  }

  // ----- the resolve times a subscriber sees -----

  /** The step settles rule alarm k as verified at that time: a resolution of the alarm, or an event that
      carries it. */
  ghost predicate Reports(s: State, t: Timed, k: string, time: Stamp) {
    || (&& t.step.ResolveStep? && t.step.alarm.alarmId == k
        && Verifies(s.confirmed, t.step.alarm, t.step.ruleVerdict)
        && DispositionOf(s, t.step.alarm, t.step.ruleVerdict, t.now).resolved == time)
    || (t.step.PublishStep? && time.At? && exists x :: ReportedItem(s, t.step.verified, t.now, x, k, time))
  }

  ghost predicate ReportedItem(s: State, verified: set<string>, now: int, x: AlarmInfo, k: string, time: Stamp) {
    x in Event(s, verified, now) && FromRule(Sync(s, now), verified, now, x) && x.alarmId == k && x.resolved == time
  }

  lemma ResolveRecords(s: State, t: Timed, k: string, time: Stamp)
    requires Inv(s) && t.step.ResolveStep? && Reports(s, t, k, time)
    ensures time.At? && k in Apply(s, t).resolvedAt && Apply(s, t).resolvedAt[k] == time
    ensures k in s.resolvedAt ==> s.resolvedAt[k] == time
  {
  }

  lemma ItemRecords(u: State, levels: map<string, int>, verified: set<string>, k: string, now: int)
    requires Inv(u) && RuleItem(u, levels, verified, k, now).Some?
    requires RuleItem(u, levels, verified, k, now).value.resolved.At?
    ensures var time := RuleItem(u, levels, verified, k, now).value.resolved;
            && k in TimesAfter(u, verified, now) && TimesAfter(u, verified, now)[k] == time
            && (k in u.resolvedAt ==> u.resolvedAt[k] == time)
  {
    hide LevelOf, Filtered, Within, Decimal;
    assert Verifies(u.confirmed, u.rules[k], k in verified);
    assert EarnsTime(u, verified, k, now);
  }

  lemma PublishTimes(s: State, verified: set<string>, now: int)
    requires s.rules != map[]
    ensures Publish(s, verified, now).resolvedAt == TimesAfter(Sync(s, now), verified, now)
    ensures Sync(s, now).resolvedAt == s.resolvedAt
  {
  }

  lemma PublishRecords(s: State, t: Timed, k: string, time: Stamp)
    requires Inv(s) && t.step.PublishStep? && Reports(s, t, k, time)
    ensures k in Apply(s, t).resolvedAt && Apply(s, t).resolvedAt[k] == time
    ensures k in s.resolvedAt ==> s.resolvedAt[k] == time
  {
    hide Event, RuleItem, LevelMap, Contenders, Publish, Sync, TimesAfter;
    var u, verified := Sync(s, t.now), t.step.verified;
    var x :| ReportedItem(s, verified, t.now, x, k, time);
    var levels := LevelMap(Contenders(u, t.now));
    var j :| j in u.rules && RuleItem(u, levels, verified, j, t.now) == Some(x);
    SyncInv(s, t.now);
    RuleItemId(u, levels, verified, j, t.now);
    ItemRecords(u, levels, verified, k, t.now);
    SyncKeepsRules(s, t.now);
    PublishTimes(s, verified, t.now);
    assert Apply(s, t) == Publish(s, verified, t.now);
  }

  lemma SyncKeepsRules(s: State, now: int)
    ensures Sync(s, now).rules == s.rules
  {
  }

  lemma ReportRecords(s: State, t: Timed, k: string, time: Stamp)
    requires Inv(s) && Reports(s, t, k, time)
    ensures time.At? && k in Apply(s, t).resolvedAt && Apply(s, t).resolvedAt[k] == time
    ensures k in s.resolvedAt ==> s.resolvedAt[k] == time
  {
    if t.step.ResolveStep? {
      ResolveRecords(s, t, k, time);
    } else {
      PublishRecords(s, t, k, time);
    }
  }

  /** However often and however far apart a rule alarm is settled as verified in a run, by a resolution
      or in an event, the time reported for its id is the same. */
  lemma ReportedTimeStable(s: State, trace: seq<Timed>, i: nat, j: nat, k: string, first: Stamp, later: Stamp)
    requires Inv(s) && Legal(trace) && i <= j < |trace|
    requires Reports(Run(s, trace[..i]), trace[i], k, first)
    requires Reports(Run(s, trace[..j]), trace[j], k, later)
    ensures first == later && first.At?
  {
    hide Run, Apply, Reports, Inv;
    assert Legal(trace[..i]) && Legal(trace[..j]);
    RunInv(s, trace[..i]);
    RunInv(s, trace[..j]);
    ReportRecords(Run(s, trace[..i]), trace[i], k, first);
    ReportRecords(Run(s, trace[..j]), trace[j], k, later);
    if i < j {
      RunStep(s, trace, i + 1);
      PrefixOfPrefix(trace, i + 1, j);
      RunGrows(s, trace[..j], i + 1);
    }
  }
}
