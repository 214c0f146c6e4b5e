/** The configuration singleton: its alarm tables, updated in place step by step. Every method is
    tied to the step of the same name on the abstract state. */
module AlarmConfig {
  import opened AlarmEvents
  import opened AlarmState
  import opened Arithmetic
  import opened IdentificationRules
  import opened Ranking
  import opened Text
  import opened Tracks
  import opened Wrappers

  /** Whether some rule that applies to the alarm is constrained and passes. */
  ghost predicate RuleVerdict(areaRules: map<string, seq<string>>, ruleRows: map<string, seq<Row>>,
                              a: Alarm, holds: set<string>) {
    UnionPasses(areaRules, ruleRows, AreaKey(a.groupId, a.areaId), a.conditionId, holds)
  }

  /** The row texts that hold for an alarm. */
  function HoldsFor(oracle: map<string, set<string>>, alarmId: string): set<string> {
    if alarmId in oracle then oracle[alarmId] else {}
  }

  /** The rule alarms whose identification rules pass. */
  ghost function VerifiedKeys(rules: map<string, Alarm>, areaRules: map<string, seq<string>>,
                              ruleRows: map<string, seq<Row>>, oracle: map<string, set<string>>): set<string>
  {
    set k | k in rules && RuleVerdict(areaRules, ruleRows, rules[k], HoldsFor(oracle, k))
  }

  // ----- the tables while a loop is under way; `todo` holds the keys not yet visited -----

  ghost function ManualSynced(s: State, todo: set<string>, now: int): map<string, Alarm> {
    map k | k in s.manual && (k in todo || !Stale(s, k, now)) ::
      if k in todo then s.manual[k] else Refresh(s, s.manual[k], now)
  }

  ghost function AirSynced(s: State, todo: set<string>, now: int): map<int64, bool> {
    map id | id in s.manualAir && (ManualKey(id) in todo || !DropsAir(s, id, now)) ::
      if ManualKey(id) !in todo && SeesAir(s, id) then Lookup(s.tracks, id).air else s.manualAir[id]
  }

  lemma SyncStarts(s: State, now: int)
    ensures ManualSynced(s, s.manual.Keys, now) == s.manual
    ensures AirSynced(s, s.manual.Keys, now) == s.manualAir
  {
  }

  lemma SyncEnds(s: State, now: int)
    ensures ManualSynced(s, {}, now) == Sync(s, now).manual
    ensures AirSynced(s, {}, now) == Sync(s, now).manualAir
  {
  }

  lemma ManualStep(s: State, todo: set<string>, k: string, now: int)
    requires todo <= s.manual.Keys && k in todo
    ensures k in ManualSynced(s, todo, now) && ManualSynced(s, todo, now)[k] == s.manual[k]
    ensures ManualSynced(s, todo - {k}, now) ==
              if Stale(s, k, now) then ManualSynced(s, todo, now) - {k}
              else ManualSynced(s, todo, now)[k := Refresh(s, s.manual[k], now)]
  {
  }

  lemma AirStep(s: State, todo: set<string>, id: int64, now: int)
    requires ManualKey(id) in todo && todo <= s.manual.Keys && id in s.manualAir
    ensures AirSynced(s, todo - {ManualKey(id)}, now) ==
              if DropsAir(s, id, now) then AirSynced(s, todo, now) - {id}
              else if SeesAir(s, id) then AirSynced(s, todo, now)[id := Lookup(s.tracks, id).air]
              else AirSynced(s, todo, now)
  {
    forall j: int64 ensures ManualKey(j) in todo - {ManualKey(id)} <==> ManualKey(j) in todo && j != id {
      if ManualKey(j) == ManualKey(id) {
        ManualKeyInjective(j, id);
      }
    }
  }

  ghost function RaisedSoFar(m: map<string, Alarm>, todo: set<string>, id: int64, floor: int): map<string, Alarm> {
    map k | k in m :: if k in todo then m[k] else RaiseOne(m[k], id, floor)
  }

  lemma RaiseStep(m: map<string, Alarm>, todo: set<string>, k: string, id: int64, floor: int)
    requires k in todo && k in m
    ensures RaisedSoFar(m, todo, id, floor)[k] == m[k]
    ensures RaisedSoFar(m, todo - {k}, id, floor) == RaisedSoFar(m, todo, id, floor)[k := RaiseOne(m[k], id, floor)]
  {
  }

  ghost function ResolvedSoFar(m: map<string, Alarm>, times: map<string, Stamp>, todo: set<string>, id: int64, at: Stamp):
    map<string, Stamp>
  {
    times + map k | k in m && k !in todo && m[k].uniqueId == id && k !in times :: at
  }

  lemma ResolveStep(m: map<string, Alarm>, times: map<string, Stamp>, todo: set<string>, k: string, id: int64, at: Stamp)
    requires k in todo && k in m
    ensures ResolvedSoFar(m, times, todo - {k}, id, at) ==
              if m[k].uniqueId == id then WriteOnce(ResolvedSoFar(m, times, todo, id, at), k, at)
              else ResolvedSoFar(m, times, todo, id, at)
  {
  }

  lemma RaiseStarts(s: State, id: int64, floor: int, at: Stamp)
    ensures RaisedSoFar(s.rules, s.rules.Keys, id, floor) == s.rules
    ensures ResolvedSoFar(s.rules, s.resolvedAt, s.rules.Keys, id, at) == s.resolvedAt
  {
  }

  lemma RaiseEnds(s: State, id: int64, floor: int, at: Stamp)
    ensures RaisedSoFar(s.rules, {}, id, floor) == Raise(s.rules, id, floor)
    ensures ResolvedSoFar(s.rules, s.resolvedAt, {}, id, at) == ResolveRules(s, id, at)
  {
  }

  lemma NoRuleAlarms(s: State, id: int64, floor: int, at: Stamp)
    requires !HasRuleAlarm(s, id)
    ensures Raise(s.rules, id, floor) == s.rules && ResolveRules(s, id, at) == s.resolvedAt
  {
  }

  class CustomConfig {
    var filterExpireMs: map<FilterKey, int>
    var alarmData: map<string, Alarm>
    var manualAlarmData: map<string, Alarm>
    var manualAlarmAirTrack: map<int64, bool>
    var manualConfirmedIds: set<int64>
    var manualConfirmTimes: map<int64, Stamp>
    var identificationTimes: map<string, Stamp>
    var targetTypes: map<string, int>
    var tracks: Tables
    var ruleTrackTypes: map<string, int>
    var settings: Settings
    var areaRules: map<string, seq<string>>
    var ruleRows: map<string, seq<Row>>
    var publishDds: bool
    var ddsReady: bool

    function View(): State
      reads this
    {
      State(filterExpireMs, alarmData, manualAlarmData, manualAlarmAirTrack, manualConfirmedIds,
            manualConfirmTimes, identificationTimes, targetTypes, tracks, ruleTrackTypes, settings)
    }

    ghost predicate Valid()
      reads this
    {
      Inv(View())
    }

    constructor (tracks: Tables, settings: Settings)
      ensures Valid()
      ensures View() == State(map[], map[], map[], map[], {}, map[], map[], map[], tracks, map[], settings)
    {
      filterExpireMs, alarmData, manualAlarmData, manualAlarmAirTrack := map[], map[], map[], map[];
      manualConfirmedIds, manualConfirmTimes, identificationTimes, targetTypes := {}, map[], map[], map[];
      this.tracks, ruleTrackTypes, this.settings := tracks, map[], settings;
      areaRules, ruleRows, publishDds, ddsReady := map[], map[], false, false;
    }

    // ----- kill-alarm filters -----

    method PruneExpiredAlarmFiltersLocked(now: int)
      modifies `filterExpireMs
      ensures filterExpireMs == Prune(old(filterExpireMs), now)
    {
      var todo := filterExpireMs.Keys;
      ghost var was := filterExpireMs;
      while todo != {}
        invariant todo <= filterExpireMs.Keys
        invariant filterExpireMs == map k | k in was && (k in todo || was[k] > now) :: was[k]
        decreases |todo|
      {
        var k :| k in todo;
        if filterExpireMs[k] <= now {
          filterExpireMs := filterExpireMs - {k};
        }
        todo := todo - {k};
      }
    }

    method RemoveAlarmFilterForUniqueId(id: int64)
      modifies `filterExpireMs
      ensures filterExpireMs == if id <= 0 then old(filterExpireMs) else ClearFilter(old(filterExpireMs), id)
    {
      if id <= 0 {
        return;
      }
      filterExpireMs := filterExpireMs - {(0, id)};
      filterExpireMs := filterExpireMs - {(1, id)};
    }

    static method KeysOfUniqueId(m: map<string, Alarm>, id: int64) returns (doomed: set<string>)
      ensures doomed == set k | k in m && m[k].uniqueId == id
    {
      var todo := m.Keys;
      doomed := {};
      while todo != {}
        invariant todo <= m.Keys
        invariant doomed == set k | k in m && k !in todo && m[k].uniqueId == id
        decreases |todo|
      {
        var k :| k in todo;
        todo := todo - {k};
        if m[k].uniqueId == id {
          doomed := doomed + {k};
        }
      }
    }

    static method EraseKeys(m: map<string, Alarm>, keys: set<string>) returns (r: map<string, Alarm>)
      ensures r == m - keys
    {
      var doomed := keys;
      r := m;
      while doomed != {}
        invariant doomed <= keys
        invariant r == m - (keys - doomed)
        decreases |doomed|
      {
        var k :| k in doomed;
        r := r - {k};
        doomed := doomed - {k};
      }
      assert keys - {} == keys;
    }

    static method EraseByUniqueId(m: map<string, Alarm>, id: int64) returns (r: map<string, Alarm>)
      ensures r == Without(m, id)
    {
      var doomed := KeysOfUniqueId(m, id);
      r := EraseKeys(m, doomed);
    }

    method AddAlarmFilter(kind: int, id: int64, now: int)
      requires Valid()
      modifies `filterExpireMs, `alarmData, `manualAlarmData, `targetTypes
      ensures Valid()
      ensures View() == AddFilter(old(View()), kind, id, now)
    {
      AddFilterInv(View(), kind, id, now);
      StoreFilter(kind, id, now);
    }

    method StoreFilter(kind: int, id: int64, now: int)
      modifies `filterExpireMs, `alarmData, `manualAlarmData, `targetTypes
      ensures View() == AddFilter(old(View()), kind, id, now)
    {
      hide Without, Decimal;
      if id <= 0 {
        return;
      }
      filterExpireMs := filterExpireMs[(kind, id) := now + Max(1000, settings.filterTtlMs)];
      alarmData := EraseByUniqueId(alarmData, id);
      manualAlarmData := EraseByUniqueId(manualAlarmData, id);
      targetTypes := targetTypes - {Decimal(id)};
    }

    method IsUniqueIdAlarmFiltered(id: int64, now: int) returns (b: bool)
      requires Valid()
      modifies `filterExpireMs
      ensures Valid()
      ensures View() == Query(old(View()), id, now)
      ensures b == Filtered(old(View()).filters, id, now)
    {
      ghost var s := View();
      b := QueryFilter(id, now);
      InvFrame(s, filterExpireMs, s.resolvedAt);
    }

    method QueryFilter(id: int64, now: int) returns (b: bool)
      modifies `filterExpireMs
      ensures filterExpireMs == if id <= 0 then old(filterExpireMs) else Prune(old(filterExpireMs), now)
      ensures b == Filtered(old(filterExpireMs), id, now)
    {
      if id <= 0 {
        return false;
      }
      PruneExpiredAlarmFiltersLocked(now);
      b := FilterActive(filterExpireMs, 0, id, now) || FilterActive(filterExpireMs, 1, id, now);
    }

    // ----- manual confirmation -----

    method RaiseRuleAlarms(id: int64, floor: int, at: Stamp) returns (had: bool)
      requires forall k :: k in alarmData ==> alarmData[k].alarmId == k
      modifies `alarmData, `identificationTimes
      ensures had == HasRuleAlarm(old(View()), id)
      ensures alarmData == Raise(old(alarmData), id, floor)
      ensures identificationTimes == ResolveRules(old(View()), id, at)
    {
      ghost var s := View();
      RaiseStarts(s, id, floor, at);
      RaiseEnds(s, id, floor, at);
      var todo := alarmData.Keys;
      had := false;
      while todo != {}
        invariant todo <= s.rules.Keys
        invariant had <==> exists k :: k in s.rules && k !in todo && s.rules[k].uniqueId == id
        invariant alarmData == RaisedSoFar(s.rules, todo, id, floor)
        invariant identificationTimes == ResolvedSoFar(s.rules, s.resolvedAt, todo, id, at)
        decreases |todo|
      {
        var k :| k in todo;
        var mine := RaiseOneRuleAlarm(k, s.rules, s.resolvedAt, todo, id, floor, at);
        had := had || mine;
        todo := todo - {k};
      }
    }

    method RaiseOneRuleAlarm(k: string, ghost was: map<string, Alarm>, ghost times: map<string, Stamp>,
                             ghost todo: set<string>, id: int64, floor: int, at: Stamp) returns (mine: bool)
      requires k in todo && k in was && was[k].alarmId == k
      requires alarmData == RaisedSoFar(was, todo, id, floor)
      requires identificationTimes == ResolvedSoFar(was, times, todo, id, at)
      modifies `alarmData, `identificationTimes
      ensures mine <==> was[k].uniqueId == id
      ensures alarmData == RaisedSoFar(was, todo - {k}, id, floor)
      ensures identificationTimes == ResolvedSoFar(was, times, todo - {k}, id, at)
    {
      RaiseStep(was, todo, k, id, floor);
      ResolveStep(was, times, todo, k, id, at);
      var ad := alarmData[k];
      mine := ad.uniqueId == id;
      if mine {
        if ad.threat < floor {
          alarmData := alarmData[k := ad.(threat := floor)];
        } else {
          assert alarmData[k := ad] == alarmData;
        }
        if ad.alarmId !in identificationTimes {
          identificationTimes := identificationTimes[ad.alarmId := at];
        }
      } else {
        assert alarmData[k := ad] == alarmData;
      }
    }

    method MarkManuallyConfirmed(id: int64, now: int)
      modifies `manualConfirmTimes, `manualConfirmedIds
      ensures manualConfirmTimes == WriteOnce(old(manualConfirmTimes), id, At(now))
      ensures manualConfirmedIds == old(manualConfirmedIds) + {id}
    {
      if id !in manualConfirmTimes {
        manualConfirmTimes := manualConfirmTimes[id := At(now)];
      }
      manualConfirmedIds := manualConfirmedIds + {id};
    }

    method ConfirmAlarmByUniqueId(id: int64, hint: Option<Hint>, now: int) returns (ok: bool, result: ConfirmResult)
      requires Valid()
      modifies `filterExpireMs, `manualConfirmTimes, `manualConfirmedIds, `alarmData, `identificationTimes,
               `manualAlarmData, `manualAlarmAirTrack
      ensures Valid()
      ensures View() == Confirm(old(View()), id, hint, now).0
      ensures result == Confirm(old(View()), id, hint, now).1
      ensures ok <==> result != InvalidId && result != TrackNotFound
    {
      ConfirmInv(View(), id, hint, now);
      ok, result := ConfirmId(id, hint, now);
    }

    method ConfirmId(id: int64, hint: Option<Hint>, now: int) returns (ok: bool, result: ConfirmResult)
      requires forall k :: k in alarmData ==> alarmData[k].alarmId == k
      modifies `filterExpireMs, `manualConfirmTimes, `manualConfirmedIds, `alarmData, `identificationTimes,
               `manualAlarmData, `manualAlarmAirTrack
      ensures View() == Confirm(old(View()), id, hint, now).0
      ensures result == Confirm(old(View()), id, hint, now).1
      ensures ok <==> result != InvalidId && result != TrackNotFound
    {
      hide ConfirmMarked, ClearFilter;
      if id <= 0 {
        return false, InvalidId;
      }
      RemoveAlarmFilterForUniqueId(id);
      MarkManuallyConfirmed(id, now);
      assert View() == MarkConfirmed(old(View()), id, now);
      ok, result := ConfirmMarkedId(id, hint, now);
    }

    method ConfirmMarkedId(id: int64, hint: Option<Hint>, now: int) returns (ok: bool, result: ConfirmResult)
      requires forall k :: k in alarmData ==> alarmData[k].alarmId == k
      requires id > 0 && id in manualConfirmTimes
      modifies `filterExpireMs, `manualConfirmTimes, `manualConfirmedIds, `alarmData, `identificationTimes,
               `manualAlarmData, `manualAlarmAirTrack
      ensures View() == ConfirmMarked(old(View()), id, hint, now).0
      ensures result == ConfirmMarked(old(View()), id, hint, now).1
      ensures ok <==> result != TrackNotFound
      ensures result != InvalidId
    {
      hide Raise, ResolveRules, HasRuleAlarm, StoreManual, ConfirmHit, EffectiveUniqueId;
      ghost var s := View();
      var floor := if settings.defaultThreat > 0 then settings.defaultThreat else 90;
      var had := RaiseRuleAlarms(id, floor, manualConfirmTimes[id]);
      if had {
        return true, RuleAlarm;
      }
      NoRuleAlarms(s, id, floor, s.confirmedAt[id]);
      assert View() == s;
      ok, result := ConfirmWithTrack(id, hint, now);
    }

    method ConfirmWithTrack(id: int64, hint: Option<Hint>, now: int) returns (ok: bool, result: ConfirmResult)
      requires id > 0
      modifies `filterExpireMs, `manualConfirmTimes, `manualConfirmedIds, `manualAlarmData, `manualAlarmAirTrack
      ensures ok <==> ConfirmHit(old(View()), id, hint).Hit?
      ensures ok ==> var hit := ConfirmHit(old(View()), id, hint);
                     View() == StoreManual(old(View()), EffectiveUniqueId(hit, id), hit, now)
      ensures !ok ==> View() == old(View())
      ensures result == if !ok then TrackNotFound
                        else if Lookup(tracks, id).Hit? then ManualFromTrack else ManualFromHint
    {
      var hit := FindTrackByUniqueId(tracks, id);
      var usedHint := false;
      if hit.Miss? && hint.Some? && hint.value.valid {
        hit := Hit(HintTrack(hint.value, id), hint.value.air);
        usedHint := true;
      }
      if hit.Miss? {
        return false, TrackNotFound;
      }
      StoreManualAlarm(EffectiveUniqueId(hit, id), hit, now);
      return true, if usedHint then ManualFromHint else ManualFromTrack;
    }

    method StoreManualAlarm(storage: int64, hit: Hit, now: int)
      requires hit.Hit? && storage > 0
      modifies `filterExpireMs, `manualConfirmTimes, `manualConfirmedIds, `manualAlarmData, `manualAlarmAirTrack
      ensures View() == StoreManual(old(View()), storage, hit, now)
    {
      hide BuildManual, ClearFilter, WriteOnce, ManualKey;
      RemoveAlarmFilterForUniqueId(storage);
      MarkManuallyConfirmed(storage, now);
      var key := ManualKey(storage);
      var existing := if key in manualAlarmData then Some(manualAlarmData[key]) else None;
      var floor := if settings.defaultThreat > 0 then settings.defaultThreat else 90;
      manualAlarmData := manualAlarmData[key := BuildManual(hit.track, storage, floor, existing, now)];
      manualAlarmAirTrack := manualAlarmAirTrack[storage := hit.air];
    }

    // ----- refresh of the manual alarms -----

    method SyncOne(k: string, ghost s: State, ghost todo: set<string>, now: int)
      requires Inv(s) && todo <= s.manual.Keys && k in todo
      requires tracks == s.tracks && settings == s.settings
      requires manualAlarmData == ManualSynced(s, todo, now) && manualAlarmAirTrack == AirSynced(s, todo, now)
      modifies `manualAlarmData, `manualAlarmAirTrack
      ensures manualAlarmData == ManualSynced(s, todo - {k}, now)
      ensures manualAlarmAirTrack == AirSynced(s, todo - {k}, now)
    {
      ManualStep(s, todo, k, now);
      var prev := manualAlarmData[k];
      assert ManualEntryOk(s, k);
      AirStep(s, todo, prev.uniqueId, now);
      var hit := FindTrackByUniqueId(tracks, prev.uniqueId);
      if hit.Miss? {
        var alarmMs := Millis(prev.time);
        if alarmMs > 0 && now - alarmMs > PUBLISH_WINDOW_MS {
          manualAlarmAirTrack := manualAlarmAirTrack - {prev.uniqueId};
          manualAlarmData := manualAlarmData - {k};
        }
      } else {
        var floor := if settings.defaultThreat > 0 then settings.defaultThreat else 90;
        var updated := BuildManual(hit.track, prev.uniqueId, floor, Some(prev), now)
          .(count := prev.count, originTime := prev.originTime, threatTimeMs := prev.threatTimeMs);
        manualAlarmData := manualAlarmData[k := updated];
        manualAlarmAirTrack := manualAlarmAirTrack[prev.uniqueId := hit.air];
      }
    }

    method SyncManualAlarmsBeforePublish(now: int)
      requires Valid()
      modifies `manualAlarmData, `manualAlarmAirTrack
      ensures Valid()
      ensures View() == Sync(old(View()), now)
    {
      SyncInv(View(), now);
      SyncTables(now);
    }

    method SyncTables(now: int)
      requires Valid()
      modifies `manualAlarmData, `manualAlarmAirTrack
      ensures View() == Sync(old(View()), now)
    {
      hide Inv, ManualSynced, AirSynced;
      ghost var s := View();
      SyncStarts(s, now);
      SyncEnds(s, now);
      var todo := manualAlarmData.Keys;
      while todo != {}
        invariant todo <= s.manual.Keys
        invariant manualAlarmData == ManualSynced(s, todo, now) && manualAlarmAirTrack == AirSynced(s, todo, now)
        decreases |todo|
      {
        var k :| k in todo;
        SyncOne(k, s, todo, now);
        todo := todo - {k};
      }
    }

    // ----- disposition of a rule alarm -----

    method ResolveRuleAlarmDisposition(a: Alarm, holds: set<string>, now: int) returns (d: Disposition)
      requires Valid()
      modifies `identificationTimes
      ensures Valid()
      ensures View() == Resolve(old(View()), a, RuleVerdict(areaRules, ruleRows, a, holds), now)
      ensures d == DispositionOf(old(View()), a, RuleVerdict(areaRules, ruleRows, a, holds), now)
    {
      ResolveInv(View(), a, RuleVerdict(areaRules, ruleRows, a, holds), now);
      d := ResolveTables(a, holds, now);
    }

    method ResolveTables(a: Alarm, holds: set<string>, now: int) returns (d: Disposition)
      modifies `identificationTimes
      ensures View() == Resolve(old(View()), a, RuleVerdict(areaRules, ruleRows, a, holds), now)
      ensures d == DispositionOf(old(View()), a, RuleVerdict(areaRules, ruleRows, a, holds), now)
    {
      var ok := EvalRules(a, holds);
      d := DisposeOf(a, a.uniqueId in manualConfirmedIds || ok, now);
    }

    method EvalRules(a: Alarm, holds: set<string>) returns (ok: bool)
      ensures ok == RuleVerdict(areaRules, ruleRows, a, holds)
    {
      var verifyOk, anyConstrained :=
        EvalIdentificationRulesUnion(areaRules, ruleRows, AreaKey(a.groupId, a.areaId), a.conditionId, holds);
      ok := anyConstrained && verifyOk;
    }

    method EvalRulesOf(k: string, oracle: map<string, set<string>>) returns (ok: bool)
      requires k in alarmData
      ensures ok <==> k in VerifiedKeys(alarmData, areaRules, ruleRows, oracle)
    {
      ok := EvalRules(alarmData[k], HoldsFor(oracle, k));
    }

    method DisposeOf(a: Alarm, verifies: bool, now: int) returns (d: Disposition)
      modifies `identificationTimes
      ensures identificationTimes == TimesWith(old(identificationTimes), manualConfirmTimes, a, verifies, now)
      ensures d == Dispose(old(identificationTimes), manualConfirmTimes, a, verifies, now)
    {
      var status := if a.taskStatus == 0 then 0 else if a.taskStatus == 1 then 1 else if a.taskStatus == 2 then 2
                    else VERIFY_SUCCESS;
      if !verifies {
        return Disposition(status, NoTime);
      }
      if a.alarmId !in identificationTimes {
        var resolvedAt := if a.uniqueId in manualConfirmTimes then manualConfirmTimes[a.uniqueId] else At(now);
        identificationTimes := identificationTimes[a.alarmId := resolvedAt];
      }
      var time := identificationTimes[a.alarmId];
      if time == NoTime {
        time := if a.uniqueId in manualConfirmTimes then manualConfirmTimes[a.uniqueId] else NoTime;
      }
      return Disposition(VERIFY_SUCCESS, time);
    }

    method SetTargetType(id: string, kind: int)
      requires Valid()
      modifies `targetTypes
      ensures Valid()
      ensures View() == old(View()).(targetTypes := old(targetTypes)[id := kind])
    {
      ghost var s := View();
      targetTypes := targetTypes[id := kind];
      forall k | k in manualAlarmData ensures ManualEntryOk(View(), k) {
        assert ManualEntryOk(s, k);
      }
    }

    // ----- publishing -----

    method CollectRuleContenders(ks: seq<string>, now: int) returns (es: seq<Entry>)
      requires forall k :: k in ks ==> k in alarmData
      ensures es == RuleEntries(View(), ks, |ks|, now)
    {
      es := [];
      for i := 0 to |ks|
        invariant es == RuleEntries(View(), ks, i, now)
      {
        assert ks[i] in ks;
        var a := alarmData[ks[i]];
        var isAir := IsAirType(ruleTrackTypes, a.conditionId);
        var hasTrack := if isAir then a.uniqueId in tracks.birdFuse else a.uniqueId in tracks.fuse;
        if hasTrack && now - Millis(a.time) <= RANK_WINDOW_MS {
          es := es + [Entry(a.alarmId, a.threat)];
        }
      }
    }

    method CollectManualContenders(ks: seq<string>, now: int) returns (es: seq<Entry>)
      requires forall k :: k in ks ==> k in manualAlarmData
      ensures es == ManualEntries(View(), ks, |ks|, now)
    {
      es := [];
      for i := 0 to |ks|
        invariant es == ManualEntries(View(), ks, i, now)
      {
        assert ks[i] in ks;
        var a := manualAlarmData[ks[i]];
        var hit := FindTrackByUniqueId(tracks, a.uniqueId);
        if hit.Hit? && now - Millis(a.time) <= RANK_WINDOW_MS {
          es := es + [Entry(a.alarmId, a.threat)];
        }
      }
    }

    /** One rule alarm: ask the filter, look at the age, then settle its disposition. */
    method PublishRuleAlarm(k: string, levels: map<string, int>, oracle: map<string, set<string>>, now: int,
                            ghost verifies: bool) returns (item: Option<AlarmInfo>)
      requires k in alarmData
      requires verifies == Verifies(manualConfirmedIds, alarmData[k], k in VerifiedKeys(alarmData, areaRules, ruleRows, oracle))
      modifies `filterExpireMs, `identificationTimes
      ensures filterExpireMs == FiltersAfter(old(filterExpireMs), alarmData[k].uniqueId > 0, now)
      ensures var a := alarmData[k];
              identificationTimes == TurnTimes(old(identificationTimes), manualConfirmTimes, a,
                                               Sent(old(filterExpireMs), a, now), verifies, now)
      ensures var a := alarmData[k];
              item == TurnItem(old(identificationTimes), manualConfirmTimes, a, Sent(old(filterExpireMs), a, now), verifies,
                               LevelOf(levels, a.alarmId), IsAirType(ruleTrackTypes, a.conditionId), now)
    {
      var a := alarmData[k];
      var filtered := QueryFilter(a.uniqueId, now);
      if filtered || now - Millis(a.time) > PUBLISH_WINDOW_MS {
        return None;
      }
      var ok := EvalRulesOf(k, oracle);
      var d := DisposeOf(a, a.uniqueId in manualConfirmedIds || ok, now);
      return Some(RuleInfo(a, LevelOf(levels, a.alarmId), d, IsAirType(ruleTrackTypes, a.conditionId)));
    }

    method PublishRuleAlarms(ks: seq<string>, levels: map<string, int>, oracle: map<string, set<string>>, now: int)
      returns (items: seq<AlarmInfo>)
      requires Walks(ks, alarmData.Keys)
      requires forall k :: k in alarmData ==> alarmData[k].alarmId == k
      modifies `filterExpireMs, `identificationTimes
      ensures var s := old(View()); filterExpireMs == FiltersAfter(s.filters, AskedBy(s.rules, ks, |ks|), now)
      ensures var s := old(View());
              identificationTimes == TimesUpTo(s, VerifiedKeys(s.rules, areaRules, ruleRows, oracle), ks, |ks|, now)
      ensures var s := old(View());
              items == RuleBlock(s, levels, VerifiedKeys(s.rules, areaRules, ruleRows, oracle), ks, |ks|, now)
    {
      hide VerifiedKeys, TurnItem, TurnTimes, Sent, RuleItem, RuleBlock, TimesUpTo, AskedBy, Verifies;
      ghost var s, verified := View(), VerifiedKeys(alarmData, areaRules, ruleRows, oracle);
      RuleWalkStarts(s, levels, verified, ks, now);
      items := [];
      for i := 0 to |ks|
        invariant filterExpireMs == FiltersAfter(s.filters, AskedBy(s.rules, ks, i), now)
        invariant identificationTimes == TimesUpTo(s, verified, ks, i, now)
        invariant items == RuleBlock(s, levels, verified, ks, i, now)
      {
        assert ks[i] in ks;
        RuleTurn(s, verified, levels, ks, i, now);
        RuleBlockStep(s, levels, verified, ks, i, now);
        ghost var verifies := Verifies(s.confirmed, s.rules[ks[i]], ks[i] in verified);
        var item := PublishRuleAlarm(ks[i], levels, oracle, now, verifies);
        items := Append(items, item);
      }
    }

    method PublishManualAlarm(k: string, levels: map<string, int>, now: int) returns (item: Option<AlarmInfo>)
      requires k in manualAlarmData
      modifies `filterExpireMs
      ensures filterExpireMs == FiltersAfter(old(filterExpireMs), manualAlarmData[k].uniqueId > 0, now)
      ensures item == ManualItem(old(View()), levels, k, now)
    {
      var a := manualAlarmData[k];
      var isAir := a.uniqueId in manualAlarmAirTrack && manualAlarmAirTrack[a.uniqueId];
      var filtered := QueryFilter(a.uniqueId, now);
      if filtered || now - Millis(a.time) > PUBLISH_WINDOW_MS {
        return None;
      }
      var hit := FindTrackByUniqueId(tracks, a.uniqueId);
      if hit.Miss? {
        return None;
      }
      return Some(ManualInfo(a, LevelOf(levels, a.alarmId), TimeOfConfirm(manualConfirmTimes, a.uniqueId, a.time), isAir));
    }

    method PublishManualAlarms(ks: seq<string>, levels: map<string, int>, now: int) returns (items: seq<AlarmInfo>)
      requires Walks(ks, manualAlarmData.Keys)
      modifies `filterExpireMs
      ensures var s := old(View()); filterExpireMs == FiltersAfter(s.filters, AskedBy(s.manual, ks, |ks|), now)
      ensures items == ManualBlock(old(View()), levels, ks, |ks|, now)
    {
      ghost var s := View();
      items := [];
      for i := 0 to |ks|
        invariant filterExpireMs == FiltersAfter(s.filters, AskedBy(s.manual, ks, i), now)
        invariant items == ManualBlock(s, levels, ks, i, now)
      {
        assert ks[i] in ks;
        ManualItemFrame(s, levels, ks[i], AskedBy(s.manual, ks, i), s.resolvedAt, now);
        FiltersTwice(s.filters, AskedBy(s.manual, ks, i), s.manual[ks[i]].uniqueId > 0, now);
        var item := PublishManualAlarm(ks[i], levels, now);
        items := Append(items, item);
      }
    }

    method ProcessedIds() returns (ids: set<string>)
      ensures ids == Processed(View())
    {
      ids := (set k | k in alarmData :: Decimal(alarmData[k].uniqueId))
             + (set k | k in manualAlarmData :: Decimal(manualAlarmData[k].uniqueId));
    }

    method PublishTargetType(k: string, processed: set<string>, now: int) returns (item: Option<AlarmInfo>)
      requires k in targetTypes && processed == Processed(View())
      modifies `filterExpireMs
      ensures filterExpireMs == FiltersAfter(old(filterExpireMs), Candidate(old(View()), k), now)
      ensures item == TypeItem(old(View()), k, now)
    {
      hide Processed, ToLongLong, Filtered, Prune, TargetIds.LegacyDdsTrackId;
      if k in processed {
        return None;
      }
      var parsed := ToLongLong(k);
      if parsed.None? || parsed.value <= 0 {
        return None;
      }
      var id := parsed.value;
      var filtered := QueryFilter(id, now);
      if filtered {
        return None;
      }
      var hit := if id in tracks.fuse then Hit(tracks.fuse[id], false)
                 else if id in tracks.birdFuse then Hit(tracks.birdFuse[id], true)
                 else Miss;
      if hit.Miss? {
        return None;
      }
      var resolved := TimeOfConfirm(manualConfirmTimes, id, At(now));
      return Some(TypeInfo(k, id, targetTypes[k], hit.track, hit.air, id in manualConfirmedIds, resolved, now));
    }

    method PublishTargetTypes(ks: seq<string>, now: int) returns (items: seq<AlarmInfo>)
      requires Walks(ks, targetTypes.Keys)
      modifies `filterExpireMs
      ensures var s := old(View()); filterExpireMs == FiltersAfter(s.filters, AskedByTypes(s, ks, |ks|), now)
      ensures items == TypeBlock(old(View()), ks, |ks|, now)
    {
      hide TypeItem, Candidate, Processed, FiltersAfter;
      ghost var s := View();
      NothingAsked(s.filters, now);
      var processed := ProcessedIds();
      items := [];
      for i := 0 to |ks|
        invariant filterExpireMs == FiltersAfter(s.filters, AskedByTypes(s, ks, i), now)
        invariant items == TypeBlock(s, ks, i, now)
      {
        assert ks[i] in ks;
        ProcessedFrame(s, filterExpireMs);
        TypeItemFrame(s, ks[i], AskedByTypes(s, ks, i), s.resolvedAt, now);
        FiltersTwice(s.filters, AskedByTypes(s, ks, i), Candidate(s, ks[i]), now);
        var item := PublishTargetType(ks[i], processed, now);
        items := Append(items, item);
      }
    }

    method RankAlarms(rs: seq<string>, ms: seq<string>, now: int) returns (levels: map<string, int>)
      requires forall k :: k in rs ==> k in alarmData
      requires forall k :: k in ms ==> k in manualAlarmData
      ensures levels == LevelMap(RuleEntries(View(), rs, |rs|, now) + ManualEntries(View(), ms, |ms|, now))
    {
      var ruleContenders := CollectRuleContenders(rs, now);
      var manualContenders := CollectManualContenders(ms, now);
      levels := AssignLevels(ruleContenders + manualContenders);
    }

    /** The manual and the target-type block, after the rule block has left its filters and times. */
    method PublishOthers(ms: seq<string>, ts: seq<string>, levels: map<string, int>, now: int, ghost s: State, ghost asked: bool)
      returns (items: seq<AlarmInfo>)
      requires Walks(ms, manualAlarmData.Keys) && Walks(ts, targetTypes.Keys)
      requires View() == s.(filters := FiltersAfter(s.filters, asked, now), resolvedAt := identificationTimes)
      modifies `filterExpireMs
      ensures filterExpireMs == FiltersAfter(s.filters, asked || AskedBy(s.manual, ms, |ms|) || AskedByTypes(s, ts, |ts|), now)
      ensures items == ManualBlock(s, levels, ms, |ms|, now) + TypeBlock(s, ts, |ts|, now)
    {
      ghost var times, b := identificationTimes, asked || AskedBy(s.manual, ms, |ms|);
      ManualBlockFrame(s, levels, ms, |ms|, asked, times, now);
      var manualItems := PublishManualAlarms(ms, levels, now);
      FiltersTwice(s.filters, asked, AskedBy(s.manual, ms, |ms|), now);
      assert View() == s.(filters := FiltersAfter(s.filters, b, now), resolvedAt := times);
      TypeBlockFrame(s, ts, |ts|, b, times, now);
      var typeItems := PublishTargetTypes(ts, now);
      FiltersTwice(s.filters, b, AskedByTypes(s, ts, |ts|), now);
      items := manualItems + typeItems;
    }

    /** The event, from a state whose manual alarms have just been refreshed. */
    method AssembleEvent(oracle: map<string, set<string>>, now: int) returns (event: seq<AlarmInfo>)
      requires forall k :: k in alarmData ==> alarmData[k].alarmId == k
      requires !NoAlarms(View())
      modifies `filterExpireMs, `identificationTimes
      ensures event == EventOf(old(View()), VerifiedKeys(old(alarmData), areaRules, ruleRows, oracle), now)
      ensures filterExpireMs == FiltersAfter(old(filterExpireMs), AsksFilter(old(View())), now)
      ensures identificationTimes == TimesAfter(old(View()), VerifiedKeys(old(alarmData), areaRules, ruleRows, oracle), now)
    {
      hide VerifiedKeys, AsksFilter, TimesAfter, EventOf, AskedBy, AskedByTypes, RuleBlock, ManualBlock, TypeBlock, Walks;
      ghost var s, verified := View(), VerifiedKeys(alarmData, areaRules, ruleRows, oracle);
      var rs, ms, ts := TextKeys(alarmData.Keys), TextKeys(manualAlarmData.Keys), TextKeys(targetTypes.Keys);
      TextKeysWalk(alarmData.Keys);
      TextKeysWalk(manualAlarmData.Keys);
      TextKeysWalk(targetTypes.Keys);
      AskedAfterWalk(s, rs, ms, ts);
      TimesUpToAll(s, verified, rs, now);
      var levels := RankAlarms(rs, ms, now);
      EventAfterWalk(s, verified, rs, ms, ts, levels, now);
      event := PublishBlocks(rs, ms, ts, levels, oracle, now);
    }

    method PublishBlocks(rs: seq<string>, ms: seq<string>, ts: seq<string>, levels: map<string, int>,
                         oracle: map<string, set<string>>, now: int) returns (items: seq<AlarmInfo>)
      requires forall k :: k in alarmData ==> alarmData[k].alarmId == k
      requires Walks(rs, alarmData.Keys) && Walks(ms, manualAlarmData.Keys) && Walks(ts, targetTypes.Keys)
      modifies `filterExpireMs, `identificationTimes
      ensures var s := old(View());
              filterExpireMs == FiltersAfter(s.filters, AskedBy(s.rules, rs, |rs|) || AskedBy(s.manual, ms, |ms|)
                                                        || AskedByTypes(s, ts, |ts|), now)
      ensures identificationTimes ==
                TimesUpTo(old(View()), VerifiedKeys(old(alarmData), areaRules, ruleRows, oracle), rs, |rs|, now)
      ensures var s := old(View());
              items == RuleBlock(s, levels, VerifiedKeys(s.rules, areaRules, ruleRows, oracle), rs, |rs|, now)
                       + (ManualBlock(s, levels, ms, |ms|, now) + TypeBlock(s, ts, |ts|, now))
    {
      ghost var s := View();
      var ruleItems := PublishRuleAlarms(rs, levels, oracle, now);
      var others := PublishOthers(ms, ts, levels, now, s, AskedBy(s.rules, rs, |rs|));
      items := ruleItems + others;
    }

    /** Assembles the alarm event; None when nothing is sent at all. */
    method SendAllAlarmEventMsg(oracle: map<string, set<string>>, now: int) returns (event: Option<seq<AlarmInfo>>)
      requires Valid()
      modifies `filterExpireMs, `identificationTimes, `manualAlarmData, `manualAlarmAirTrack
      ensures Valid()
      ensures !(publishDds && ddsReady) ==> event == None && View() == old(View())
      ensures publishDds && ddsReady ==>
                && event == Some(Event(old(View()), VerifiedKeys(old(alarmData), areaRules, ruleRows, oracle), now))
                && View() == Publish(old(View()), VerifiedKeys(old(alarmData), areaRules, ruleRows, oracle), now)
    {
      if !publishDds || !ddsReady {
        return None;
      }
      PublishInv(View(), VerifiedKeys(alarmData, areaRules, ruleRows, oracle), now);
      var items := SyncAndAssemble(oracle, now);
      return Some(items);
    }

    method SyncAndAssemble(oracle: map<string, set<string>>, now: int) returns (event: seq<AlarmInfo>)
      requires Valid()
      modifies `filterExpireMs, `identificationTimes, `manualAlarmData, `manualAlarmAirTrack
      ensures event == Event(old(View()), VerifiedKeys(old(alarmData), areaRules, ruleRows, oracle), now)
      ensures View() == Publish(old(View()), VerifiedKeys(old(alarmData), areaRules, ruleRows, oracle), now)
    {
      hide Inv, Sync, EventOf, Publish, AsksFilter, TimesAfter, FiltersAfter, VerifiedKeys;
      RulesFiled(View());
      PublishCases(View(), VerifiedKeys(alarmData, areaRules, ruleRows, oracle), now);
      SyncManualAlarmsBeforePublish(now);
      if alarmData == map[] && manualAlarmData == map[] {
        return [];
      }
      event := AssembleEvent(oracle, now);
    }
  }
}
