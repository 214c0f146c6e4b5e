/** The alarm event that is published, as a function of the alarm state and the clock. */
module AlarmEvents {
  import opened AlarmState
  import IdentificationRules
  import opened Ranking
  import TargetIds
  import opened Text
  import opened Tracks
  import opened Wrappers

  const RANK_WINDOW_MS: int := 5 * 1000

  datatype Status = Active | Focus | Deleted

  datatype Content = LevelText(level: int) | TypeUpdate(id: int64)

  datatype AlarmInfo = AlarmInfo(alarmId: string, status: Status, ruleIds: seq<string>, taskStatus: int,
                                 content: Content, score: int, areaId: string, trackId: string,
                                 classId: int, behaviorId: int, lat: real, lon: real, alt: real,
                                 updateTime: Stamp, resolved: Stamp,
                                 ddsTrackId: int, course: real, speed: real, air: bool)

  function Append<T>(xs: seq<T>, x: Option<T>): seq<T> {
    if x.Some? then xs + [x.value] else xs
  }

  // ----- ranking -----

  predicate Within(a: Alarm, window: int, now: int) { now - Millis(a.time) <= window }

  predicate IsAirType(trackTypes: map<string, int>, condition: string) {
    condition in trackTypes && trackTypes[condition] > 0
  }

  predicate RuleHasTrack(s: State, a: Alarm) {
    if IsAirType(s.trackTypes, a.conditionId) then a.uniqueId in s.tracks.birdFuse else a.uniqueId in s.tracks.fuse
  }

  /** Ranking does not ask the kill-alarm filter. */
  function RuleEntry(s: State, k: string, now: int): Option<Entry> {
    if k in s.rules && RuleHasTrack(s, s.rules[k]) && Within(s.rules[k], RANK_WINDOW_MS, now)
    then Some(Entry(s.rules[k].alarmId, s.rules[k].threat)) else None
  }

  function ManualEntry(s: State, k: string, now: int): Option<Entry> {
    if k in s.manual && Lookup(s.tracks, s.manual[k].uniqueId).Hit? && Within(s.manual[k], RANK_WINDOW_MS, now)
    then Some(Entry(s.manual[k].alarmId, s.manual[k].threat)) else None
  }

  /** The contenders among the first n keys. */
  function RuleEntries(s: State, ks: seq<string>, n: nat, now: int): seq<Entry>
    requires n <= |ks|
  {
    if n == 0 then [] else Append(RuleEntries(s, ks, n - 1, now), RuleEntry(s, ks[n - 1], now))
  }

  function ManualEntries(s: State, ks: seq<string>, n: nat, now: int): seq<Entry>
    requires n <= |ks|
  {
    if n == 0 then [] else Append(ManualEntries(s, ks, n - 1, now), ManualEntry(s, ks[n - 1], now))
  }

  function Contenders(s: State, now: int): seq<Entry> {
    var rs, ms := TextKeys(s.rules.Keys), TextKeys(s.manual.Keys);
    RuleEntries(s, rs, |rs|, now) + ManualEntries(s, ms, |ms|, now)
  }

  // ----- the three blocks -----

  function StatusOf(code: int): Status {
    if code == 1 then Focus else if code == 2 then Deleted else Active
  }

  function RuleInfo(a: Alarm, level: int, d: Disposition, air: bool): AlarmInfo {
    AlarmInfo(a.alarmId, StatusOf(a.status), [a.conditionId], d.taskStatus, LevelText(level), a.threat,
              IdentificationRules.AreaKey(a.groupId, a.areaId), Decimal(a.uniqueId),
              a.targetType, a.behavior, a.lat, a.lon, 0.0, a.time, d.resolved,
              TargetIds.LegacyDdsTrackId(a.uniqueId), a.course, a.speed, air)
  }

  function ManualInfo(a: Alarm, level: int, resolved: Stamp, air: bool): AlarmInfo {
    AlarmInfo(a.alarmId, Active, [a.conditionId], VERIFY_SUCCESS, LevelText(level), a.threat,
              "", Decimal(a.uniqueId), a.targetType, a.behavior, a.lat, a.lon, 0.0, a.time, resolved,
              TargetIds.LegacyDdsTrackId(a.uniqueId), a.course, a.speed, air)
  }

  function TypeInfo(k: string, id: int64, classId: int, t: Track, air: bool, sure: bool, resolved: Stamp, now: int): AlarmInfo {
    AlarmInfo("-1", Active, [], if sure then VERIFY_SUCCESS else 0, TypeUpdate(id), 1,
              "", k, classId, 0, t.lat, t.lon, t.alt, At(now), if sure then resolved else NoTime,
              TargetIds.LegacyDdsTrackId(id), t.course, t.speed, air)
  }

  predicate RulePublished(s: State, k: string, now: int) {
    k in s.rules && !Filtered(s.filters, s.rules[k].uniqueId, now) && Within(s.rules[k], PUBLISH_WINDOW_MS, now)
  }

  predicate ManualPublished(s: State, k: string, now: int) {
    && k in s.manual
    && !Filtered(s.filters, s.manual[k].uniqueId, now)
    && Within(s.manual[k], PUBLISH_WINDOW_MS, now)
    && Lookup(s.tracks, s.manual[k].uniqueId).Hit?
  }

  /** The decimal ids of all rule and manual alarms, published or not. */
  function Processed(s: State): set<string> {
    (set k | k in s.rules :: Decimal(s.rules[k].uniqueId)) + (set k | k in s.manual :: Decimal(s.manual[k].uniqueId))
  }

  /** A target-type key that gets as far as the filter query. */
  predicate Candidate(s: State, k: string) {
    k !in Processed(s) && ToLongLong(k).Some? && ToLongLong(k).value > 0
  }

  function FusedTrack(s: State, id: int64): Hit {
    if id in s.tracks.fuse then Hit(s.tracks.fuse[id], false)
    else if id in s.tracks.birdFuse then Hit(s.tracks.birdFuse[id], true)
    else Miss
  }

  predicate TypePublished(s: State, k: string, now: int) {
    && k in s.targetTypes && Candidate(s, k)
    && !Filtered(s.filters, ToLongLong(k).value, now)
    && FusedTrack(s, ToLongLong(k).value).Hit?
  }

  function RuleItem(s: State, levels: map<string, int>, verified: set<string>, k: string, now: int): Option<AlarmInfo> {
    if !RulePublished(s, k, now) then None
    else
      var a := s.rules[k];
      Some(RuleInfo(a, LevelOf(levels, a.alarmId), DispositionOf(s, a, k in verified, now), IsAirType(s.trackTypes, a.conditionId)))
  }

  function ManualItem(s: State, levels: map<string, int>, k: string, now: int): Option<AlarmInfo> {
    if !ManualPublished(s, k, now) then None
    else
      var a := s.manual[k];
      Some(ManualInfo(a, LevelOf(levels, a.alarmId), TimeOfConfirm(s.confirmedAt, a.uniqueId, a.time),
                      a.uniqueId in s.manualAir && s.manualAir[a.uniqueId]))
  }

  function TypeItem(s: State, k: string, now: int): Option<AlarmInfo> {
    if !TypePublished(s, k, now) then None
    else
      var id := ToLongLong(k).value;
      var hit := FusedTrack(s, id);
      Some(TypeInfo(k, id, s.targetTypes[k], hit.track, hit.air, id in s.confirmed, TimeOfConfirm(s.confirmedAt, id, At(now)), now))
  }

  /** The items of the first n keys, in key order. */
  function RuleBlock(s: State, levels: map<string, int>, verified: set<string>, ks: seq<string>, n: nat, now: int): seq<AlarmInfo>
    requires n <= |ks|
  {
    if n == 0 then []
    else Append(RuleBlock(s, levels, verified, ks, n - 1, now), RuleItem(s, levels, verified, ks[n - 1], now))
  }

  function ManualBlock(s: State, levels: map<string, int>, ks: seq<string>, n: nat, now: int): seq<AlarmInfo>
    requires n <= |ks|
  {
    if n == 0 then [] else Append(ManualBlock(s, levels, ks, n - 1, now), ManualItem(s, levels, ks[n - 1], now))
  }

  function TypeBlock(s: State, ks: seq<string>, n: nat, now: int): seq<AlarmInfo>
    requires n <= |ks|
  {
    if n == 0 then [] else Append(TypeBlock(s, ks, n - 1, now), TypeItem(s, ks[n - 1], now))
  }

  predicate NoAlarms(s: State) { s.rules == map[] && s.manual == map[] }

  /** What is published from a state whose manual alarms have just been refreshed. */
  function EventOf(s: State, verified: set<string>, now: int): seq<AlarmInfo> {
    if NoAlarms(s) then []
    else
      var levels := LevelMap(Contenders(s, now));
      var rs, ms, ts := TextKeys(s.rules.Keys), TextKeys(s.manual.Keys), TextKeys(s.targetTypes.Keys);
      RuleBlock(s, levels, verified, rs, |rs|, now) + ManualBlock(s, levels, ms, |ms|, now) + TypeBlock(s, ts, |ts|, now)
  }

  function Event(s: State, verified: set<string>, now: int): seq<AlarmInfo> {
    EventOf(Sync(s, now), verified, now)
  }

  // ----- what publishing leaves behind -----

  /** Whether assembling the event asks the filter about a positive id, and so prunes it. */
  predicate AsksFilter(s: State) {
    || (exists k :: k in s.rules && s.rules[k].uniqueId > 0)
    || (exists k :: k in s.manual && s.manual[k].uniqueId > 0)
    || (exists k :: k in s.targetTypes && Candidate(s, k))
  }

  function FiltersAfter(f: map<FilterKey, int>, asked: bool, now: int): map<FilterKey, int> {
    if asked then Prune(f, now) else f
  }

  predicate EarnsTime(s: State, verified: set<string>, k: string, now: int) {
    RulePublished(s, k, now) && Verifies(s.confirmed, s.rules[k], k in verified)
  }

  /** Rule alarms that are published and verify get a resolve time unless they have one. */
  function TimesAfter(s: State, verified: set<string>, now: int): map<string, Stamp> {
    s.resolvedAt + map k | k in s.rules && EarnsTime(s, verified, k, now) && k !in s.resolvedAt
                     :: TimeOfConfirm(s.confirmedAt, s.rules[k].uniqueId, At(now))
  }

  function Publish(s: State, verified: set<string>, now: int): State {
    var t := Sync(s, now);
    if NoAlarms(t) then t
    else t.(filters := FiltersAfter(t.filters, AsksFilter(t), now), resolvedAt := TimesAfter(t, verified, now))
  }

  lemma RulesFiled(s: State)
    requires Inv(s)
    ensures forall k :: k in s.rules ==> s.rules[k].alarmId == k
  {
  }

  lemma PublishCases(s: State, verified: set<string>, now: int)
    ensures var t := Sync(s, now);
            if NoAlarms(t) then Event(s, verified, now) == [] && Publish(s, verified, now) == t
            else Publish(s, verified, now) ==
                   t.(filters := FiltersAfter(t.filters, AsksFilter(t), now), resolvedAt := TimesAfter(t, verified, now))
  {
  }

  lemma TimesAfterStamped(s: State, verified: set<string>, now: int)
    requires Inv(s)
    ensures forall k :: k in TimesAfter(s, verified, now) ==> TimesAfter(s, verified, now)[k].At?
  {
  }

  /** Filters and resolve times can be replaced without touching the rest of the invariant. */
  lemma InvFrame(s: State, filters: map<FilterKey, int>, resolvedAt: map<string, Stamp>)
    requires Inv(s) && forall k :: k in resolvedAt ==> resolvedAt[k].At?
    ensures Inv(s.(filters := filters, resolvedAt := resolvedAt))
  {
    var t := s.(filters := filters, resolvedAt := resolvedAt);
    forall k | k in t.manual ensures ManualEntryOk(t, k) {
      assert ManualEntryOk(s, k);
    }
  }

  lemma PublishInv(s: State, verified: set<string>, now: int)
    requires Inv(s)
    ensures Inv(Publish(s, verified, now))
  {
    SyncInv(s, now);
    var t := Sync(s, now);
    TimesAfterStamped(t, verified, now);
    InvFrame(t, Publish(s, verified, now).filters, Publish(s, verified, now).resolvedAt);
  }

  // ----- one step of the assembly -----

  lemma QueryAgain(f: map<FilterKey, int>, asked: bool, id: int64, now: int)
    ensures FiltersAfter(f, asked || id > 0, now) ==
              (if id <= 0 then FiltersAfter(f, asked, now) else Prune(FiltersAfter(f, asked, now), now))
    ensures Filtered(FiltersAfter(f, asked, now), id, now) == Filtered(f, id, now)
  {
    assert Prune(Prune(f, now), now) == Prune(f, now);
  }

  /** Whether the filter has been asked about a positive id after the first n keys. */
  predicate AskedBy(m: map<string, Alarm>, ks: seq<string>, n: nat)
    requires n <= |ks|
  {
    n > 0 && (AskedBy(m, ks, n - 1) || (ks[n - 1] in m && m[ks[n - 1]].uniqueId > 0))
  }

  predicate AskedByTypes(s: State, ks: seq<string>, n: nat)
    requires n <= |ks|
  {
    n > 0 && (AskedByTypes(s, ks, n - 1) || Candidate(s, ks[n - 1]))
  }

  /** The resolve times after the first n keys. */
  function TimesUpTo(s: State, verified: set<string>, ks: seq<string>, n: nat, now: int): map<string, Stamp>
    requires n <= |ks|
  {
    if n == 0 then s.resolvedAt
    else
      var before := TimesUpTo(s, verified, ks, n - 1, now);
      var k := ks[n - 1];
      if RulePublished(s, k, now)
      then TimesWith(before, s.confirmedAt, s.rules[k], Verifies(s.confirmed, s.rules[k], k in verified), now)
      else before
  }

  lemma {:induction false} AskedByIs(m: map<string, Alarm>, ks: seq<string>, n: nat)
    requires n <= |ks|
    ensures AskedBy(m, ks, n) <==> exists j :: 0 <= j < n && ks[j] in m && m[ks[j]].uniqueId > 0
  {
    if n == 0 {
    } else {
      AskedByIs(m, ks, n - 1);
    }
  }

  lemma {:induction false} AskedByTypesIs(s: State, ks: seq<string>, n: nat)
    requires n <= |ks|
    ensures AskedByTypes(s, ks, n) <==> exists j :: 0 <= j < n && Candidate(s, ks[j])
  {
    if n == 0 {
    } else {
      AskedByTypesIs(s, ks, n - 1);
    }
  }

  lemma {:induction false} TimesUpToAt(s: State, verified: set<string>, ks: seq<string>, n: nat, now: int, k: string)
    requires n <= |ks|
    requires forall k :: k in s.rules ==> s.rules[k].alarmId == k
    ensures var t := TimesUpTo(s, verified, ks, n, now);
            && (k in t <==> k in s.resolvedAt || (k in ks[..n] && EarnsTime(s, verified, k, now)))
            && (k in s.resolvedAt ==> t[k] == s.resolvedAt[k])
            && (k in t && k !in s.resolvedAt ==> t[k] == TimeOfConfirm(s.confirmedAt, s.rules[k].uniqueId, At(now)))
  {
    if n == 0 {
    } else {
      TimesUpToAt(s, verified, ks, n - 1, now, k);
      assert k in ks[..n] <==> k in ks[..n - 1] || k == ks[n - 1];
    }
  }

  lemma AskedByAll(m: map<string, Alarm>, ks: seq<string>)
    requires forall k :: k in ks <==> k in m.Keys
    ensures AskedBy(m, ks, |ks|) <==> exists k :: k in m && m[k].uniqueId > 0
  {
    AskedByIs(m, ks, |ks|);
    if k :| k in m && m[k].uniqueId > 0 {
      assert k in ks;
    }
  }

  lemma AskedByTypesAll(s: State, ks: seq<string>)
    requires forall k :: k in ks <==> k in s.targetTypes.Keys
    ensures AskedByTypes(s, ks, |ks|) <==> exists k :: k in s.targetTypes && Candidate(s, k)
  {
    AskedByTypesIs(s, ks, |ks|);
    if k :| k in s.targetTypes && Candidate(s, k) {
      assert k in ks;
    }
    if j :| 0 <= j < |ks| && Candidate(s, ks[j]) {
      assert ks[j] in ks;
    }
  }

  lemma TimesUpToAll(s: State, verified: set<string>, ks: seq<string>, now: int)
    requires forall k :: k in ks <==> k in s.rules.Keys
    requires forall k :: k in s.rules ==> s.rules[k].alarmId == k
    ensures TimesUpTo(s, verified, ks, |ks|, now) == TimesAfter(s, verified, now)
  {
    assert ks[..|ks|] == ks;
    var t, u := TimesUpTo(s, verified, ks, |ks|, now), TimesAfter(s, verified, now);
    forall k ensures (k in t <==> k in u) && (k in t ==> t[k] == u[k]) {
      TimesUpToAt(s, verified, ks, |ks|, now, k);
    }
  }

  /** The disposition of an alarm does not depend on the alarms handled before it. */
  lemma DisposeFresh(s: State, verified: set<string>, ks: seq<string>, n: nat, now: int)
    requires n < |ks| && ks[n] !in ks[..n] && ks[n] in s.rules
    requires forall k :: k in s.rules ==> s.rules[k].alarmId == k
    ensures var verifies := Verifies(s.confirmed, s.rules[ks[n]], ks[n] in verified);
            Dispose(TimesUpTo(s, verified, ks, n, now), s.confirmedAt, s.rules[ks[n]], verifies, now)
            == Dispose(s.resolvedAt, s.confirmedAt, s.rules[ks[n]], verifies, now)
  {
    TimesUpToAt(s, verified, ks, n, now, ks[n]);
  }

  predicate Sent(f: map<FilterKey, int>, a: Alarm, now: int) {
    !Filtered(f, a.uniqueId, now) && Within(a, PUBLISH_WINDOW_MS, now)
  }

  function TurnTimes(times: map<string, Stamp>, confirmedAt: map<int64, Stamp>, a: Alarm, sent: bool, verifies: bool, now: int):
    map<string, Stamp>
  {
    if sent then TimesWith(times, confirmedAt, a, verifies, now) else times
  }

  function TurnItem(times: map<string, Stamp>, confirmedAt: map<int64, Stamp>, a: Alarm, sent: bool, verifies: bool,
                    level: int, air: bool, now: int): Option<AlarmInfo>
  {
    if sent then Some(RuleInfo(a, level, Dispose(times, confirmedAt, a, verifies, now), air)) else None
  }

  /** One turn of the rule-alarm loop, from what the earlier turns left behind. */
  lemma RuleTurn(s: State, verified: set<string>, levels: map<string, int>, ks: seq<string>, n: nat, now: int)
    requires n < |ks| && ks[n] !in ks[..n] && ks[n] in s.rules
    requires forall k :: k in s.rules ==> s.rules[k].alarmId == k
    ensures var a, f, t := s.rules[ks[n]], FiltersAfter(s.filters, AskedBy(s.rules, ks, n), now), TimesUpTo(s, verified, ks, n, now);
            var verifies := Verifies(s.confirmed, a, ks[n] in verified);
            && FiltersAfter(f, a.uniqueId > 0, now) == FiltersAfter(s.filters, AskedBy(s.rules, ks, n + 1), now)
            && TimesUpTo(s, verified, ks, n + 1, now) == TurnTimes(t, s.confirmedAt, a, Sent(f, a, now), verifies, now)
            && RuleItem(s, levels, verified, ks[n], now) ==
                 TurnItem(t, s.confirmedAt, a, Sent(f, a, now), verifies, LevelOf(levels, a.alarmId),
                          IsAirType(s.trackTypes, a.conditionId), now)
  {
    QueryAgain(s.filters, AskedBy(s.rules, ks, n), s.rules[ks[n]].uniqueId, now);
    FiltersTwice(s.filters, AskedBy(s.rules, ks, n), s.rules[ks[n]].uniqueId > 0, now);
    DisposeFresh(s, verified, ks, n, now);
  }

  lemma RuleWalkStarts(s: State, levels: map<string, int>, verified: set<string>, ks: seq<string>, now: int)
    ensures !AskedBy(s.rules, ks, 0) && TimesUpTo(s, verified, ks, 0, now) == s.resolvedAt
    ensures RuleBlock(s, levels, verified, ks, 0, now) == []
  {
  }

  lemma RuleBlockStep(s: State, levels: map<string, int>, verified: set<string>, ks: seq<string>, n: nat, now: int)
    requires n < |ks|
    ensures RuleBlock(s, levels, verified, ks, n + 1, now) ==
              Append(RuleBlock(s, levels, verified, ks, n, now), RuleItem(s, levels, verified, ks[n], now))
  {
  }

  // ----- the later blocks do not see what the earlier ones left behind -----

  lemma ManualItemFrame(s: State, levels: map<string, int>, k: string, asked: bool, times: map<string, Stamp>, now: int)
    ensures var t := s.(filters := FiltersAfter(s.filters, asked, now), resolvedAt := times);
            ManualItem(t, levels, k, now) == ManualItem(s, levels, k, now)
  {
    if k in s.manual {
      QueryAgain(s.filters, asked, s.manual[k].uniqueId, now);
    }
  }

  lemma {:induction false} ManualBlockFrame(s: State, levels: map<string, int>, ks: seq<string>, n: nat,
                                            asked: bool, times: map<string, Stamp>, now: int)
    requires n <= |ks|
    ensures var t := s.(filters := FiltersAfter(s.filters, asked, now), resolvedAt := times);
            ManualBlock(t, levels, ks, n, now) == ManualBlock(s, levels, ks, n, now)
  {
    if n == 0 {
    } else {
      ManualBlockFrame(s, levels, ks, n - 1, asked, times, now);
      ManualItemFrame(s, levels, ks[n - 1], asked, times, now);
    }
  }

  lemma NothingAsked(f: map<FilterKey, int>, now: int)
    ensures FiltersAfter(f, false, now) == f
  {
  }

  lemma ProcessedFrame(s: State, filters: map<FilterKey, int>)
    ensures Processed(s.(filters := filters)) == Processed(s)
  {
  }

  lemma TypeItemFrame(s: State, k: string, asked: bool, times: map<string, Stamp>, now: int)
    ensures var t := s.(filters := FiltersAfter(s.filters, asked, now), resolvedAt := times);
            TypeItem(t, k, now) == TypeItem(s, k, now) && Candidate(t, k) == Candidate(s, k)
  {
    hide FiltersAfter, Filtered, ToLongLong, Decimal;
    if Candidate(s, k) {
      QueryAgain(s.filters, asked, ToLongLong(k).value, now);
    }
  }

  lemma {:induction false} TypeBlockFrame(s: State, ks: seq<string>, n: nat, asked: bool, times: map<string, Stamp>, now: int)
    requires n <= |ks|
    ensures var t := s.(filters := FiltersAfter(s.filters, asked, now), resolvedAt := times);
            && TypeBlock(t, ks, n, now) == TypeBlock(s, ks, n, now)
            && AskedByTypes(t, ks, n) == AskedByTypes(s, ks, n)
  {
    if n == 0 {
    } else {
      hide TypeItem, Candidate, FiltersAfter;
      TypeBlockFrame(s, ks, n - 1, asked, times, now);
      TypeItemFrame(s, ks[n - 1], asked, times, now);
    }
  }

  lemma FiltersTwice(f: map<FilterKey, int>, a: bool, b: bool, now: int)
    ensures FiltersAfter(FiltersAfter(f, a, now), b, now) == FiltersAfter(f, a || b, now)
  {
    assert Prune(Prune(f, now), now) == Prune(f, now);
  }

  lemma AskedAfterWalk(s: State, rs: seq<string>, ms: seq<string>, ts: seq<string>)
    requires rs == TextKeys(s.rules.Keys) && ms == TextKeys(s.manual.Keys) && ts == TextKeys(s.targetTypes.Keys)
    ensures AsksFilter(s) == (AskedBy(s.rules, rs, |rs|) || AskedBy(s.manual, ms, |ms|) || AskedByTypes(s, ts, |ts|))
  {
    hide Candidate, TextKeys, AskedBy, AskedByTypes;
    AskedByAll(s.rules, rs);
    AskedByAll(s.manual, ms);
    AskedByTypesAll(s, ts);
  }

  lemma EventAfterWalk(s: State, verified: set<string>, rs: seq<string>, ms: seq<string>, ts: seq<string>,
                       levels: map<string, int>, now: int)
    requires rs == TextKeys(s.rules.Keys) && ms == TextKeys(s.manual.Keys) && ts == TextKeys(s.targetTypes.Keys)
    requires !NoAlarms(s)
    requires levels == LevelMap(RuleEntries(s, rs, |rs|, now) + ManualEntries(s, ms, |ms|, now))
    ensures EventOf(s, verified, now) ==
              RuleBlock(s, levels, verified, rs, |rs|, now)
              + (ManualBlock(s, levels, ms, |ms|, now) + TypeBlock(s, ts, |ts|, now))
  {
    Associative(RuleBlock(s, levels, verified, rs, |rs|, now), ManualBlock(s, levels, ms, |ms|, now),
                TypeBlock(s, ts, |ts|, now));
  }

  lemma Associative<T>(a: seq<T>, b: seq<T>, c: seq<T>)
    ensures a + b + c == a + (b + c)
  {
  }
}
