/** The alarm lifecycle as a state and its steps: what each operation of the configuration
    singleton does to the alarm tables, with the clock passed in. */
module AlarmState {
  import opened Arithmetic
  import opened Text
  import opened Tracks
  import opened Wrappers

  /** A formatted date string; NoTime is the empty string. */
  datatype Stamp = NoTime | At(ms: int)

  function Millis(s: Stamp): int { if s.At? then s.ms else 0 }

  datatype Alarm = Alarm(alarmId: string, conditionId: string, uniqueId: int64,
                         targetType: int, behavior: int,
                         lat: real, lon: real, speed: real, course: real, distance: real,
                         time: Stamp, originTime: Stamp, status: int, taskStatus: int,
                         count: int, threat: int, threatTimeMs: int, groupId: int, areaId: int)

  /** (type, unique id); type 0 is sea, 1 is air. */
  type FilterKey = (int, int64)

  datatype Settings = Settings(filterTtlMs: int, defaultThreat: int)

  datatype State = State(filters: map<FilterKey, int>,
                         rules: map<string, Alarm>,
                         manual: map<string, Alarm>,
                         manualAir: map<int64, bool>,
                         confirmed: set<int64>,
                         confirmedAt: map<int64, Stamp>,
                         resolvedAt: map<string, Stamp>,
                         targetTypes: map<string, int>,
                         tracks: Tables,
                         trackTypes: map<string, int>,
                         settings: Settings)

  const PUBLISH_WINDOW_MS: int := 600 * 1000

  function ManualKey(id: int64): string { "manual-" + Decimal(id) }

  lemma ManualKeyInjective(a: int64, b: int64)
    requires ManualKey(a) == ManualKey(b)
    ensures a == b
  {
    assert ManualKey(a)[7..] == Decimal(a) && ManualKey(b)[7..] == Decimal(b);
    DecimalInjective(a, b);
  }

  // ----- what every step keeps -----

  ghost predicate ManualEntryOk(s: State, k: string)
    requires k in s.manual
  {
    var a := s.manual[k];
    && k == a.alarmId == ManualKey(a.uniqueId)
    && a.uniqueId > 0
    && a.uniqueId in s.confirmed
    && a.uniqueId in s.manualAir
    && a.count >= 1
    && a.time.At? && a.originTime.At?
  }

  ghost predicate Inv(s: State) {
    && (forall k :: k in s.rules ==> s.rules[k].alarmId == k)
    && (forall k :: k in s.manual ==> ManualEntryOk(s, k))
    && s.confirmedAt.Keys == s.confirmed
    && (forall id :: id in s.confirmedAt ==> id > 0 && s.confirmedAt[id].At?)
    && (forall k :: k in s.resolvedAt ==> s.resolvedAt[k].At?)
  }

  // ----- kill-alarm filters -----

  function Prune(f: map<FilterKey, int>, now: int): map<FilterKey, int> {
    map k | k in f && f[k] > now :: f[k]
  }

  predicate FilterActive(f: map<FilterKey, int>, kind: int, id: int64, now: int) {
    (kind, id) in f && f[(kind, id)] > now
  }

  predicate Filtered(f: map<FilterKey, int>, id: int64, now: int) {
    id > 0 && (FilterActive(f, 0, id, now) || FilterActive(f, 1, id, now))
  }

  function ClearFilter(f: map<FilterKey, int>, id: int64): map<FilterKey, int> {
    f - {(0, id), (1, id)}
  }

  function Without(m: map<string, Alarm>, id: int64): map<string, Alarm> {
    map k | k in m && m[k].uniqueId != id :: m[k]
  }

  function Expiry(s: State, now: int): int { now + Max(1000, s.settings.filterTtlMs) }

  function AddFilter(s: State, kind: int, id: int64, now: int): State {
    if id <= 0 then s
    else s.(filters := s.filters[(kind, id) := Expiry(s, now)],
            rules := Without(s.rules, id),
            manual := Without(s.manual, id),
            targetTypes := s.targetTypes - {Decimal(id)})
  }

  function Query(s: State, id: int64, now: int): State {
    if id <= 0 then s else s.(filters := Prune(s.filters, now))
  }

  // ----- manual confirmation -----

  datatype Hint = Hint(valid: bool, air: bool, lat: real, lon: real, speed: real, course: real)

  datatype ConfirmResult = InvalidId | RuleAlarm | TrackNotFound | ManualFromTrack | ManualFromHint

  function ThreatFloor(s: State): int {
    if s.settings.defaultThreat > 0 then s.settings.defaultThreat else 90
  }

  function BuildManual(t: Track, id: int64, floor: int, existing: Option<Alarm>, now: int): Alarm {
    Alarm(ManualKey(id), "manual_confirm", id,
          if existing.Some? then existing.value.targetType else 0, 0,
          t.lat, t.lon, t.speed, t.course, t.range / 1852.0,
          At(now),
          if existing.Some? && existing.value.originTime.At? then existing.value.originTime else At(now),
          0, 0,
          if existing.Some? then existing.value.count + 1 else 1,
          Max(if existing.Some? then existing.value.threat else 0, floor),
          if existing.Some? && existing.value.threatTimeMs > 0 then existing.value.threatTimeMs else now,
          0, 0)
  }

  function WriteOnce<K, V>(m: map<K, V>, k: K, v: V): map<K, V> {
    if k in m then m else m[k := v]
  }

  predicate HasRuleAlarm(s: State, id: int64) {
    exists k :: k in s.rules && s.rules[k].uniqueId == id
  }

  function RaiseOne(a: Alarm, id: int64, floor: int): Alarm {
    if a.uniqueId == id && a.threat < floor then a.(threat := floor) else a
  }

  /** Rule alarms of a confirmed id are raised at least to the floor. */
  function Raise(m: map<string, Alarm>, id: int64, floor: int): map<string, Alarm> {
    map k | k in m :: RaiseOne(m[k], id, floor)
  }

  /** Rule alarms of a confirmed id that had no resolve time get the time of the confirmation. */
  function ResolveRules(s: State, id: int64, at: Stamp): map<string, Stamp> {
    s.resolvedAt + map k | k in s.rules && s.rules[k].uniqueId == id && k !in s.resolvedAt :: at
  }

  /** A track made from the kinematics a client sent along. */
  function HintTrack(h: Hint, id: int64): Track {
    Track(if 0 <= id <= UINT32_MAX then id else 0, h.lat, h.lon, 0.0, h.speed, h.course, 0.0)
  }

  function ConfirmHit(s: State, id: int64, hint: Option<Hint>): Hit {
    var hit := Lookup(s.tracks, id);
    if hit.Miss? && hint.Some? && hint.value.valid then Hit(HintTrack(hint.value, id), hint.value.air) else hit
  }

  function MarkConfirmed(s: State, id: int64, now: int): State {
    s.(filters := ClearFilter(s.filters, id),
       confirmed := s.confirmed + {id},
       confirmedAt := WriteOnce(s.confirmedAt, id, At(now)))
  }

  function Existing(s: State, id: int64): Option<Alarm> {
    if ManualKey(id) in s.manual then Some(s.manual[ManualKey(id)]) else None
  }

  function StoreManual(s: State, id: int64, hit: Hit, now: int): State
    requires hit.Hit?
  {
    var marked := MarkConfirmed(s, id, now);
    marked.(manual := s.manual[ManualKey(id) := BuildManual(hit.track, id, ThreatFloor(s), Existing(s, id), now)],
            manualAir := s.manualAir[id := hit.air])
  }

  /** What a confirmation does once the id is marked. */
  function ConfirmMarked(s: State, id: int64, hint: Option<Hint>, now: int): (State, ConfirmResult)
    requires id in s.confirmedAt
  {
    if HasRuleAlarm(s, id) then
      (s.(rules := Raise(s.rules, id, ThreatFloor(s)), resolvedAt := ResolveRules(s, id, s.confirmedAt[id])), RuleAlarm)
    else
      var hit := ConfirmHit(s, id, hint);
      if hit.Miss? then (s, TrackNotFound)
      else (StoreManual(s, EffectiveUniqueId(hit, id), hit, now),
            if Lookup(s.tracks, id).Hit? then ManualFromTrack else ManualFromHint)
  }

  function Confirm(s: State, id: int64, hint: Option<Hint>, now: int): (State, ConfirmResult) {
    if id <= 0 then (s, InvalidId) else ConfirmMarked(MarkConfirmed(s, id, now), id, hint, now)
  }

  // ----- refresh of the manual alarms before publishing -----

  predicate Stale(s: State, k: string, now: int)
    requires k in s.manual
  {
    var a := s.manual[k];
    Lookup(s.tracks, a.uniqueId).Miss? && Millis(a.time) > 0 && now - Millis(a.time) > PUBLISH_WINDOW_MS
  }

  function Refresh(s: State, a: Alarm, now: int): Alarm {
    var hit := Lookup(s.tracks, a.uniqueId);
    if hit.Miss? then a
    else BuildManual(hit.track, a.uniqueId, ThreatFloor(s), Some(a), now)
         .(count := a.count, originTime := a.originTime, threatTimeMs := a.threatTimeMs)
  }

  predicate DropsAir(s: State, id: int64, now: int) {
    ManualKey(id) in s.manual && Stale(s, ManualKey(id), now)
  }

  predicate SeesAir(s: State, id: int64) {
    ManualKey(id) in s.manual && Lookup(s.tracks, id).Hit?
  }

  /** Every manual alarm has an air entry, so the refresh adds no key to the air table. */
  function Sync(s: State, now: int): State {
    s.(manual := map k | k in s.manual && !Stale(s, k, now) :: Refresh(s, s.manual[k], now),
       manualAir := map id | id in s.manualAir && !DropsAir(s, id, now) ::
                      if SeesAir(s, id) then Lookup(s.tracks, id).air else s.manualAir[id])
  }

  // ----- disposition of a rule alarm -----

  datatype Disposition = Disposition(taskStatus: int, resolved: Stamp)

  const VERIFY_SUCCESS: int := 3

  predicate Verifies(confirmed: set<int64>, a: Alarm, ruleVerdict: bool) { a.uniqueId in confirmed || ruleVerdict }

  function TimeOfConfirm(confirmedAt: map<int64, Stamp>, id: int64, otherwise: Stamp): Stamp {
    if id in confirmedAt then confirmedAt[id] else otherwise
  }

  /** The resolve times after a rule alarm that verifies, or not, has been looked at. */
  function TimesWith(times: map<string, Stamp>, confirmedAt: map<int64, Stamp>, a: Alarm, verifies: bool, now: int):
    map<string, Stamp>
  {
    if verifies then WriteOnce(times, a.alarmId, TimeOfConfirm(confirmedAt, a.uniqueId, At(now))) else times
  }

  function Dispose(times: map<string, Stamp>, confirmedAt: map<int64, Stamp>, a: Alarm, verifies: bool, now: int): Disposition {
    if verifies then
      var t := TimesWith(times, confirmedAt, a, verifies, now)[a.alarmId];
      Disposition(VERIFY_SUCCESS, if t.At? then t else TimeOfConfirm(confirmedAt, a.uniqueId, NoTime))
    else
      Disposition(if 0 <= a.taskStatus <= 2 then a.taskStatus else VERIFY_SUCCESS, NoTime)
  }

  function DispositionOf(s: State, a: Alarm, ruleVerdict: bool, now: int): Disposition {
    Dispose(s.resolvedAt, s.confirmedAt, a, Verifies(s.confirmed, a, ruleVerdict), now)
  }

  function Resolve(s: State, a: Alarm, ruleVerdict: bool, now: int): State {
    s.(resolvedAt := TimesWith(s.resolvedAt, s.confirmedAt, a, Verifies(s.confirmed, a, ruleVerdict), now))
  }

  // ----- steps keep the invariant -----

  lemma AddFilterInv(s: State, kind: int, id: int64, now: int)
    requires Inv(s)
    ensures Inv(AddFilter(s, kind, id, now))
  {
    hide Decimal, ManualKey, Expiry;
    var t := AddFilter(s, kind, id, now);
    forall k | k in t.manual ensures ManualEntryOk(t, k) {
      assert ManualEntryOk(s, k);
    }
  }

  lemma MarkConfirmedInv(s: State, id: int64, now: int)
    requires Inv(s) && id > 0
    ensures Inv(MarkConfirmed(s, id, now))
  {
    var t := MarkConfirmed(s, id, now);
    assert forall k :: k in t.manual ==> ManualEntryOk(s, k);
  }

  lemma StoreManualInv(s: State, id: int64, hit: Hit, now: int)
    requires Inv(s) && id > 0 && hit.Hit?
    ensures Inv(StoreManual(s, id, hit, now))
  {
    MarkConfirmedInv(s, id, now);
    var marked := MarkConfirmed(s, id, now);
    var t := StoreManual(s, id, hit, now);
    assert ManualKey(id) in s.manual ==> ManualEntryOk(s, ManualKey(id));
    forall k | k in t.manual ensures ManualEntryOk(t, k) {
      assert k != ManualKey(id) ==> ManualEntryOk(marked, k);
    }
  }

  lemma RaiseInv(s: State, id: int64, floor: int, at: Stamp)
    requires Inv(s) && at.At?
    ensures Inv(s.(rules := Raise(s.rules, id, floor), resolvedAt := ResolveRules(s, id, at)))
  {
    var t := s.(rules := Raise(s.rules, id, floor), resolvedAt := ResolveRules(s, id, at));
    assert forall k :: k in t.manual ==> ManualEntryOk(s, k);
  }

  lemma MarkedTime(s: State, id: int64, now: int)
    requires Inv(s) && id > 0
    ensures id in MarkConfirmed(s, id, now).confirmedAt && MarkConfirmed(s, id, now).confirmedAt[id].At?
  {
  }

  lemma EffectivePositive(hit: Hit, id: int64)
    requires id > 0 && hit.Hit?
    ensures EffectiveUniqueId(hit, id) > 0
  {
  }

  lemma ConfirmInv(s: State, id: int64, hint: Option<Hint>, now: int)
    requires Inv(s)
    ensures Inv(Confirm(s, id, hint, now).0)
  {
    hide Inv, MarkConfirmed, StoreManual, Raise, ResolveRules, HasRuleAlarm, ConfirmHit, EffectiveUniqueId;
    if id > 0 {
      MarkConfirmedInv(s, id, now);
      MarkedTime(s, id, now);
      var marked := MarkConfirmed(s, id, now);
      if HasRuleAlarm(marked, id) {
        RaiseInv(marked, id, ThreatFloor(marked), marked.confirmedAt[id]);
      } else {
        var hit := ConfirmHit(marked, id, hint);
        if hit.Hit? {
          EffectivePositive(hit, id);
          StoreManualInv(marked, EffectiveUniqueId(hit, id), hit, now);
        }
      }
    }
  }

  lemma SyncInv(s: State, now: int)
    requires Inv(s)
    ensures Inv(Sync(s, now))
  {
    var t := Sync(s, now);
    forall k | k in t.manual ensures ManualEntryOk(t, k) {
      assert ManualEntryOk(s, k);
    }
  }

  lemma ResolveInv(s: State, a: Alarm, ruleVerdict: bool, now: int)
    requires Inv(s)
    ensures Inv(Resolve(s, a, ruleVerdict, now))
  {
    var t := Resolve(s, a, ruleVerdict, now);
    assert forall k :: k in t.manual ==> ManualEntryOk(s, k);
  }
}
