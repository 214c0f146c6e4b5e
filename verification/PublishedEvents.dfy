/** What can be said about the events that are published: exactly which items they hold, in which
    order and with which level, and what a kill-alarm filter or a confirmation guarantees about them. */
module PublishedEvents {
  import opened AlarmEvents
  import opened AlarmRuns
  import opened AlarmState
  import opened Ranking
  import opened StepEffects
  import opened Text
  import opened Tracks
  import opened Wrappers

  // ----- membership in the blocks -----

  lemma {:induction false} RuleBlockMembers(s: State, levels: map<string, int>, verified: set<string>, ks: seq<string>, n: nat,
                                            now: int, x: AlarmInfo)
    requires n <= |ks|
    ensures x in RuleBlock(s, levels, verified, ks, n, now)
            <==> exists i :: 0 <= i < n && RuleItem(s, levels, verified, ks[i], now) == Some(x)
  {
    hide RuleItem;
    if n == 0 {
    } else {
      RuleBlockMembers(s, levels, verified, ks, n - 1, now, x);
    }
  }

  lemma {:induction false} ManualBlockMembers(s: State, levels: map<string, int>, ks: seq<string>, n: nat, now: int, x: AlarmInfo)
    requires n <= |ks|
    ensures x in ManualBlock(s, levels, ks, n, now)
            <==> exists i :: 0 <= i < n && ManualItem(s, levels, ks[i], now) == Some(x)
  {
    hide ManualItem;
    if n == 0 {
    } else {
      ManualBlockMembers(s, levels, ks, n - 1, now, x);
    }
  }

  lemma {:induction false} TypeBlockMembers(s: State, ks: seq<string>, n: nat, now: int, x: AlarmInfo)
    requires n <= |ks|
    ensures x in TypeBlock(s, ks, n, now) <==> exists i :: 0 <= i < n && TypeItem(s, ks[i], now) == Some(x)
  {
    hide TypeItem;
    if n == 0 {
    } else {
      TypeBlockMembers(s, ks, n - 1, now, x);
    }
  }

  ghost predicate FromRule(s: State, verified: set<string>, now: int, x: AlarmInfo) {
    exists k :: k in s.rules && RuleItem(s, LevelMap(Contenders(s, now)), verified, k, now) == Some(x)
  }

  ghost predicate FromManual(s: State, now: int, x: AlarmInfo) {
    exists k :: k in s.manual && ManualItem(s, LevelMap(Contenders(s, now)), k, now) == Some(x)
  }

  ghost predicate FromTargetType(s: State, now: int, x: AlarmInfo) {
    exists k :: k in s.targetTypes && TypeItem(s, k, now) == Some(x)
  }

  lemma RuleWalk(s: State, verified: set<string>, now: int, x: AlarmInfo)
    ensures var ks := TextKeys(s.rules.Keys);
            x in RuleBlock(s, LevelMap(Contenders(s, now)), verified, ks, |ks|, now) <==> FromRule(s, verified, now, x)
  {
    hide RuleItem, Contenders, LevelMap, RuleBlock;
    var ks, levels := TextKeys(s.rules.Keys), LevelMap(Contenders(s, now));
    RuleBlockMembers(s, levels, verified, ks, |ks|, now, x);
    forall i | 0 <= i < |ks| ensures ks[i] in s.rules {
      assert ks[i] in ks;
    }
    forall k | k in s.rules ensures exists i :: 0 <= i < |ks| && ks[i] == k {
      assert k in ks;
    }
  }

  lemma ManualWalk(s: State, now: int, x: AlarmInfo)
    ensures var ks := TextKeys(s.manual.Keys);
            x in ManualBlock(s, LevelMap(Contenders(s, now)), ks, |ks|, now) <==> FromManual(s, now, x)
  {
    hide ManualItem, Contenders, LevelMap, ManualBlock;
    var ks, levels := TextKeys(s.manual.Keys), LevelMap(Contenders(s, now));
    ManualBlockMembers(s, levels, ks, |ks|, now, x);
    forall i | 0 <= i < |ks| ensures ks[i] in s.manual {
      assert ks[i] in ks;
    }
    forall k | k in s.manual ensures exists i :: 0 <= i < |ks| && ks[i] == k {
      assert k in ks;
    }
  }

  lemma TypeWalk(s: State, now: int, x: AlarmInfo)
    ensures var ks := TextKeys(s.targetTypes.Keys);
            x in TypeBlock(s, ks, |ks|, now) <==> FromTargetType(s, now, x)
  {
    hide TypeItem, TypeBlock;
    var ks := TextKeys(s.targetTypes.Keys);
    TypeBlockMembers(s, ks, |ks|, now, x);
    forall i | 0 <= i < |ks| ensures ks[i] in s.targetTypes {
      assert ks[i] in ks;
    }
    forall k | k in s.targetTypes ensures exists i :: 0 <= i < |ks| && ks[i] == k {
      assert k in ks;
    }
  }

  /** An item is in the event iff there is an alarm at all and the item is that of an unfiltered rule
      alarm no older than ten minutes, of such a manual alarm with a track, or of a target-type entry
      that passes its own tests. */
  lemma EventExact(s: State, verified: set<string>, now: int, x: AlarmInfo)
    ensures x in EventOf(s, verified, now)
            <==> !NoAlarms(s) && (FromRule(s, verified, now, x) || FromManual(s, now, x) || FromTargetType(s, now, x))
  {
    hide FromRule, FromManual, FromTargetType, RuleBlock, ManualBlock, TypeBlock, LevelMap, Contenders;
    RuleWalk(s, verified, now, x);
    ManualWalk(s, now, x);
    TypeWalk(s, now, x);
  }

  // ----- order -----

  lemma RuleItemId(s: State, levels: map<string, int>, verified: set<string>, k: string, now: int)
    requires forall k :: k in s.rules ==> s.rules[k].alarmId == k
    ensures RuleItem(s, levels, verified, k, now).Some? ==> RuleItem(s, levels, verified, k, now).value.alarmId == k
  {
  }

  ghost predicate Ascending(b: seq<AlarmInfo>) {
    forall i, j :: 0 <= i < j < |b| ==> Less(b[i].alarmId, b[j].alarmId)
  }

  lemma AppendAscending(b: seq<AlarmInfo>, item: Option<AlarmInfo>)
    requires Ascending(b)
    requires item.Some? ==> forall i :: 0 <= i < |b| ==> Less(b[i].alarmId, item.value.alarmId)
    ensures Ascending(Append(b, item))
  {
  }

  lemma {:induction false} RuleBlockOrdered(s: State, levels: map<string, int>, verified: set<string>, ks: seq<string>, n: nat, now: int)
    requires n <= |ks|
    requires forall k :: k in s.rules ==> s.rules[k].alarmId == k
    requires forall i, j :: 0 <= i < j < |ks| ==> Less(ks[i], ks[j])
    ensures Ascending(RuleBlock(s, levels, verified, ks, n, now))
  {
    hide RuleItem, Less;
    if n == 0 {
    } else {
      RuleBlockOrdered(s, levels, verified, ks, n - 1, now);
      RuleItemId(s, levels, verified, ks[n - 1], now);
      var b := RuleBlock(s, levels, verified, ks, n - 1, now);
      forall i | 0 <= i < |b| ensures Less(b[i].alarmId, ks[n - 1]) {
        RuleBlockMembers(s, levels, verified, ks, n - 1, now, b[i]);
        assert b[i] in b;
        var j :| 0 <= j < n - 1 && RuleItem(s, levels, verified, ks[j], now) == Some(b[i]);
        RuleItemId(s, levels, verified, ks[j], now);
      }
      AppendAscending(b, RuleItem(s, levels, verified, ks[n - 1], now));
    }
  }

  /** The rule alarms come first, each at most once, in ascending order of alarm id. */
  lemma RuleAlarmsInOrder(s: State, verified: set<string>, now: int)
    requires Inv(s) && !NoAlarms(s)
    ensures var ks := TextKeys(s.rules.Keys);
            var b := RuleBlock(s, LevelMap(Contenders(s, now)), verified, ks, |ks|, now);
            && b <= EventOf(s, verified, now)
            && Ascending(b)
            && (forall x :: x in b <==> FromRule(s, verified, now, x))
  {
    hide RuleBlock, ManualBlock, TypeBlock, LevelMap, Contenders, Less, FromRule;
    var ks := TextKeys(s.rules.Keys);
    TextKeysAscending(s.rules.Keys);
    RuleBlockOrdered(s, LevelMap(Contenders(s, now)), verified, ks, |ks|, now);
    forall x ensures x in RuleBlock(s, LevelMap(Contenders(s, now)), verified, ks, |ks|, now) <==> FromRule(s, verified, now, x) {
      RuleWalk(s, verified, now, x);
    }
  }

  function IdsOf(b: seq<AlarmInfo>): (ids: seq<string>)
    ensures |ids| == |b| && forall i :: 0 <= i < |b| ==> ids[i] == b[i].alarmId
  {
    if b == [] then [] else [b[0].alarmId] + IdsOf(b[1..])
  }

  lemma RuleItemUnique(s: State, verified: set<string>, now: int, x: AlarmInfo, y: AlarmInfo)
    requires Inv(s) && FromRule(s, verified, now, x) && FromRule(s, verified, now, y) && x.alarmId == y.alarmId
    ensures x == y
  {
    hide RuleItem, LevelMap, Contenders;
    var levels := LevelMap(Contenders(s, now));
    var j :| j in s.rules && RuleItem(s, levels, verified, j, now) == Some(x);
    var k :| k in s.rules && RuleItem(s, levels, verified, k, now) == Some(y);
    RuleItemId(s, levels, verified, j, now);
    RuleItemId(s, levels, verified, k, now);
  }

  /** There is only one list of the published rule alarms in ascending order of id: the one the event
      begins with. */
  lemma RuleAlarmsOnlyOrder(s: State, verified: set<string>, now: int, b: seq<AlarmInfo>)
    requires Inv(s) && !NoAlarms(s) && Ascending(b)
    requires forall x :: x in b <==> FromRule(s, verified, now, x)
    ensures b <= EventOf(s, verified, now)
  {
    hide FromRule, EventOf, RuleBlock, Less;
    var ks := TextKeys(s.rules.Keys);
    var c := RuleBlock(s, LevelMap(Contenders(s, now)), verified, ks, |ks|, now);
    RuleAlarmsInOrder(s, verified, now);
    SameIds(b, c);
    AscendingUnique(IdsOf(b), IdsOf(c));
    forall i | 0 <= i < |b| ensures b[i] == c[i] {
      assert b[i] in b && c[i] in c;
      assert IdsOf(b)[i] == IdsOf(c)[i];
      RuleItemUnique(s, verified, now, b[i], c[i]);
    }
    assert b == c;
  }

  lemma SameIds(b: seq<AlarmInfo>, c: seq<AlarmInfo>)
    requires forall x :: x in b <==> x in c
    ensures forall id :: id in IdsOf(b) <==> id in IdsOf(c)
  {
    forall id | id in IdsOf(b) ensures id in IdsOf(c) {
      IdIn(b, c, id);
    }
    forall id | id in IdsOf(c) ensures id in IdsOf(b) {
      IdIn(c, b, id);
    }
  }

  lemma IdIn(b: seq<AlarmInfo>, c: seq<AlarmInfo>, id: string)
    requires id in IdsOf(b) && forall x :: x in b ==> x in c
    ensures id in IdsOf(c)
  {
    var i :| 0 <= i < |b| && IdsOf(b)[i] == id;
    assert b[i] in c;
    var j :| 0 <= j < |c| && c[j] == b[i];
    assert IdsOf(c)[j] == id;
  }

  lemma ManualItemId(s: State, levels: map<string, int>, k: string, now: int)
    requires Inv(s)
    ensures ManualItem(s, levels, k, now).Some? ==> ManualItem(s, levels, k, now).value.alarmId == k
  {
    hide Lookup, Filtered, ManualKey;
    if k in s.manual {
      assert ManualEntryOk(s, k);
    }
  }

  lemma {:induction false} ManualBlockOrdered(s: State, levels: map<string, int>, ks: seq<string>, n: nat, now: int)
    requires n <= |ks| && Inv(s)
    requires forall i, j :: 0 <= i < j < |ks| ==> Less(ks[i], ks[j])
    ensures Ascending(ManualBlock(s, levels, ks, n, now))
  {
    hide ManualItem, Less, Inv;
    if n == 0 {
    } else {
      ManualBlockOrdered(s, levels, ks, n - 1, now);
      ManualItemId(s, levels, ks[n - 1], now);
      var b := ManualBlock(s, levels, ks, n - 1, now);
      forall i | 0 <= i < |b| ensures Less(b[i].alarmId, ks[n - 1]) {
        ManualBlockMembers(s, levels, ks, n - 1, now, b[i]);
        assert b[i] in b;
        var j :| 0 <= j < n - 1 && ManualItem(s, levels, ks[j], now) == Some(b[i]);
        ManualItemId(s, levels, ks[j], now);
      }
      AppendAscending(b, ManualItem(s, levels, ks[n - 1], now));
    }
  }

  ghost predicate AscendingTracks(b: seq<AlarmInfo>) {
    forall i, j :: 0 <= i < j < |b| ==> Less(b[i].trackId, b[j].trackId)
  }

  lemma TypeItemTrack(s: State, k: string, now: int)
    ensures TypeItem(s, k, now).Some? ==> TypeItem(s, k, now).value.trackId == k
  {
    hide ToLongLong, Filtered;
  }

  lemma AppendAscendingTracks(b: seq<AlarmInfo>, item: Option<AlarmInfo>)
    requires AscendingTracks(b)
    requires item.Some? ==> forall i :: 0 <= i < |b| ==> Less(b[i].trackId, item.value.trackId)
    ensures AscendingTracks(Append(b, item))
  {
  }

  lemma {:induction false} TypeBlockOrdered(s: State, ks: seq<string>, n: nat, now: int)
    requires n <= |ks|
    requires forall i, j :: 0 <= i < j < |ks| ==> Less(ks[i], ks[j])
    ensures AscendingTracks(TypeBlock(s, ks, n, now))
  {
    hide TypeItem, Less;
    if n == 0 {
    } else {
      TypeBlockOrdered(s, ks, n - 1, now);
      TypeItemTrack(s, ks[n - 1], now);
      var b := TypeBlock(s, ks, n - 1, now);
      forall i | 0 <= i < |b| ensures Less(b[i].trackId, ks[n - 1]) {
        TypeBlockMembers(s, ks, n - 1, now, b[i]);
        assert b[i] in b;
        var j :| 0 <= j < n - 1 && TypeItem(s, ks[j], now) == Some(b[i]);
        TypeItemTrack(s, ks[j], now);
      }
      AppendAscendingTracks(b, TypeItem(s, ks[n - 1], now));
    }
  }

  /** The event is the rule alarms, then the manual alarms, each block strictly ascending by alarm id, then
      the target types, strictly ascending by their key. */
  lemma EventInOrder(s: State, verified: set<string>, now: int) returns (r: seq<AlarmInfo>, m: seq<AlarmInfo>, t: seq<AlarmInfo>)
    requires Inv(s) && !NoAlarms(s)
    ensures EventOf(s, verified, now) == r + m + t
    ensures Ascending(r) && forall x :: x in r <==> FromRule(s, verified, now, x)
    ensures Ascending(m) && forall x :: x in m <==> FromManual(s, now, x)
    ensures AscendingTracks(t) && forall x :: x in t <==> FromTargetType(s, now, x)
  {
    hide RuleBlock, ManualBlock, TypeBlock, LevelMap, Contenders, Less, FromRule, FromManual, FromTargetType;
    var levels := LevelMap(Contenders(s, now));
    var rs, ms, ts := TextKeys(s.rules.Keys), TextKeys(s.manual.Keys), TextKeys(s.targetTypes.Keys);
    r, m, t := RuleBlock(s, levels, verified, rs, |rs|, now), ManualBlock(s, levels, ms, |ms|, now), TypeBlock(s, ts, |ts|, now);
    TextKeysAscending(s.rules.Keys);
    TextKeysAscending(s.manual.Keys);
    TextKeysAscending(s.targetTypes.Keys);
    RuleBlockOrdered(s, levels, verified, rs, |rs|, now);
    ManualBlockOrdered(s, levels, ms, |ms|, now);
    TypeBlockOrdered(s, ts, |ts|, now);
    forall x ensures (x in r <==> FromRule(s, verified, now, x)) && (x in m <==> FromManual(s, now, x))
                     && (x in t <==> FromTargetType(s, now, x)) {
      RuleWalk(s, verified, now, x);
      ManualWalk(s, now, x);
      TypeWalk(s, now, x);
    }
  }

  // ----- levels -----

  lemma {:induction false} RuleEntriesIds(s: State, ks: seq<string>, n: nat, now: int)
    requires n <= |ks| && forall i :: 0 <= i < |ks| ==> ks[i] !in ks[..i]
    requires forall k :: k in s.rules ==> s.rules[k].alarmId == k
    ensures var es := RuleEntries(s, ks, n, now);
            && DistinctIds(es)
            && forall e :: e in es ==> e.id in ks[..n] && e.id in s.rules && RuleEntry(s, e.id, now) == Some(e)
  {
    if n == 0 {
    } else {
      RuleEntriesIds(s, ks, n - 1, now);
      assert ks[..n] == ks[..n - 1] + [ks[n - 1]];
      var es := RuleEntries(s, ks, n - 1, now);
      assert forall e :: e in es ==> e.id != ks[n - 1];
      assert forall i :: 0 <= i < |es| ==> es[i] in es;
    }
  }

  lemma {:induction false} ManualEntriesIds(s: State, ks: seq<string>, n: nat, now: int)
    requires n <= |ks| && forall i :: 0 <= i < |ks| ==> ks[i] !in ks[..i]
    requires forall k :: k in s.manual ==> s.manual[k].alarmId == k
    ensures var es := ManualEntries(s, ks, n, now);
            && DistinctIds(es)
            && forall e :: e in es ==> e.id in ks[..n] && e.id in s.manual && ManualEntry(s, e.id, now) == Some(e)
  {
    if n == 0 {
    } else {
      ManualEntriesIds(s, ks, n - 1, now);
      assert ks[..n] == ks[..n - 1] + [ks[n - 1]];
      var es := ManualEntries(s, ks, n - 1, now);
      assert forall e :: e in es ==> e.id != ks[n - 1];
      assert forall i :: 0 <= i < |es| ==> es[i] in es;
    }
  }

  lemma {:induction false} RuleEntriesMembers(s: State, ks: seq<string>, n: nat, now: int, e: Entry)
    requires n <= |ks|
    ensures e in RuleEntries(s, ks, n, now) <==> exists i :: 0 <= i < n && RuleEntry(s, ks[i], now) == Some(e)
  {
    hide RuleEntry;
    if n == 0 {
    } else {
      RuleEntriesMembers(s, ks, n - 1, now, e);
    }
  }

  lemma {:induction false} ManualEntriesMembers(s: State, ks: seq<string>, n: nat, now: int, e: Entry)
    requires n <= |ks|
    ensures e in ManualEntries(s, ks, n, now) <==> exists i :: 0 <= i < n && ManualEntry(s, ks[i], now) == Some(e)
  {
    hide ManualEntry;
    if n == 0 {
    } else {
      ManualEntriesMembers(s, ks, n - 1, now, e);
    }
  }

  ghost predicate RuleContends(s: State, now: int, e: Entry) {
    exists k :: k in s.rules && now - Millis(s.rules[k].time) <= 5 * 1000
                && (if s.rules[k].conditionId in s.trackTypes && s.trackTypes[s.rules[k].conditionId] > 0
                    then s.rules[k].uniqueId in s.tracks.birdFuse else s.rules[k].uniqueId in s.tracks.fuse)
                && e == Entry(s.rules[k].alarmId, s.rules[k].threat)
  }

  ghost predicate ManualContends(s: State, now: int, e: Entry) {
    exists k :: k in s.manual && Lookup(s.tracks, s.manual[k].uniqueId).Hit? && now - Millis(s.manual[k].time) <= 5 * 1000
                && e == Entry(s.manual[k].alarmId, s.manual[k].threat)
  }

  /** Ranked are, with their scores, exactly the rule and manual alarms at most five seconds old that have
      a track. */
  lemma ContendersExact(s: State, now: int, e: Entry)
    ensures e in Contenders(s, now) <==> RuleContends(s, now, e) || ManualContends(s, now, e)
  {
    hide RuleEntries, ManualEntries, Lookup;
    var rs, ms := TextKeys(s.rules.Keys), TextKeys(s.manual.Keys);
    RuleEntriesMembers(s, rs, |rs|, now, e);
    ManualEntriesMembers(s, ms, |ms|, now, e);
    if RuleContends(s, now, e) {
      var k :| k in s.rules && RuleEntry(s, k, now) == Some(e);
      assert k in rs;
    }
    if ManualContends(s, now, e) {
      var k :| k in s.manual && ManualEntry(s, k, now) == Some(e);
      assert k in ms;
    }
  }

  /** Unless a rule alarm borrows the id of a manual one, no two contenders share an id. */
  lemma ContendersDistinct(s: State, now: int)
    requires Inv(s) && s.rules.Keys !! s.manual.Keys
    ensures DistinctIds(Contenders(s, now))
  {
    hide RuleEntry, ManualEntry;
    var rs, ms := TextKeys(s.rules.Keys), TextKeys(s.manual.Keys);
    TextKeysWalk(s.rules.Keys);
    TextKeysWalk(s.manual.Keys);
    RuleEntriesIds(s, rs, |rs|, now);
    forall k | k in s.manual ensures s.manual[k].alarmId == k {
      assert ManualEntryOk(s, k);
    }
    ManualEntriesIds(s, ms, |ms|, now);
    DistinctConcat(RuleEntries(s, rs, |rs|, now), ManualEntries(s, ms, |ms|, now), s.rules.Keys, s.manual.Keys);
  }

  lemma DistinctConcat(a: seq<Entry>, b: seq<Entry>, x: set<string>, y: set<string>)
    requires DistinctIds(a) && DistinctIds(b) && x !! y
    requires (forall e :: e in a ==> e.id in x) && (forall e :: e in b ==> e.id in y)
    ensures DistinctIds(a + b)
  {
    forall i, j | 0 <= i < j < |a + b| ensures (a + b)[i].id != (a + b)[j].id {
      if i < |a| && |a| <= j {
        assert a[i] in a && b[j - |a|] in b;
      }
    }
  }

  /** The level shown for a contender is five less the number of contenders with a higher score, or an
      equal score and a smaller id. */
  lemma EventLevelByCounting(s: State, now: int, e: Entry)
    requires Inv(s) && s.rules.Keys !! s.manual.Keys && e in Contenders(s, now)
    ensures var es := Contenders(s, now);
            var n := |set x | x in es && (x.score > e.score || (x.score == e.score && Before(x.id, e.id)))|;
            LevelOf(LevelMap(es), e.id) == if n < 5 then 5 - n else 0
  {
    hide LevelMap, LevelOf, Contenders;
    ContendersDistinct(s, now);
    RankByCounting(Contenders(s, now), e);
  }

  lemma {:induction false} EntriesIgnoreFilters(s: State, t: State, ks: seq<string>, n: nat, now: int)
    requires n <= |ks| && t == s.(filters := t.filters)
    ensures RuleEntries(s, ks, n, now) == RuleEntries(t, ks, n, now)
    ensures ManualEntries(s, ks, n, now) == ManualEntries(t, ks, n, now)
  {
    if n == 0 {
    } else {
      EntriesIgnoreFilters(s, t, ks, n - 1, now);
    }
  }

  /** The ranking is the same whatever is filtered: an alarm that is not published keeps its rank. */
  lemma RankingIgnoresFilters(s: State, filters: map<FilterKey, int>, now: int)
    ensures Contenders(s.(filters := filters), now) == Contenders(s, now)
  {
    var rs, ms := TextKeys(s.rules.Keys), TextKeys(s.manual.Keys);
    EntriesIgnoreFilters(s, s.(filters := filters), rs, |rs|, now);
    EntriesIgnoreFilters(s, s.(filters := filters), ms, |ms|, now);
  }

  // ----- no filtered id is published -----

  /** Every item names an id, in decimal, that no filter covers. */
  lemma EventUnfiltered(s: State, verified: set<string>, now: int, x: AlarmInfo)
    requires x in EventOf(s, verified, now)
    ensures ToLongLong(x.trackId).Some? && !Filtered(s.filters, ToLongLong(x.trackId).value, now)
  {
    hide EventOf, ToLongLong, Filtered, Contenders, LevelMap, LevelOf, DispositionOf, Lookup, Decimal;
    EventExact(s, verified, now, x);
    if FromRule(s, verified, now, x) {
      var k :| k in s.rules && RuleItem(s, LevelMap(Contenders(s, now)), verified, k, now) == Some(x);
      DecimalRoundTrip(s.rules[k].uniqueId);
    } else if FromManual(s, now, x) {
      var k :| k in s.manual && ManualItem(s, LevelMap(Contenders(s, now)), k, now) == Some(x);
      DecimalRoundTrip(s.manual[k].uniqueId);
    } else {
      assert FromTargetType(s, now, x);
    }
  }

  /** A kill-alarm filter of either type keeps its id out of every event until it runs out or a
      confirmation clears it, whatever else happens in between. */
  lemma {:induction false} KillSwitch(s: State, trace: seq<Timed>, i: nat, kind: int, id: int64, verified: set<string>, now: int, x: AlarmInfo)
    requires s.filters == map[] && Clocked(trace, now) && (kind == 0 || kind == 1)
    requires LiveFilter(s, trace, i, kind, id, now)
    requires x in Event(Run(s, trace), verified, now)
    ensures ToLongLong(x.trackId) != Some(id)
  {
    hide Run, EventOf, Filtered, ToLongLong;
    var t := Run(s, trace);
    assert id > 0;
    FilterRefinesHistory(s, trace, id, now);
    EventUnfiltered(Sync(t, now), verified, now, x);
    assert Sync(t, now).filters == t.filters;
  }

  // ----- what a confirmation makes visible -----

  /** A rule alarm of a confirmed id that is recent enough is published as verified at once, with its score
      raised to the threat the settings call for. */
  lemma ConfirmPublishesRuleAlarms(s: State, id: int64, hint: Option<Hint>, verified: set<string>, now: int, k: string)
    requires Inv(s) && id > 0 && k in s.rules && s.rules[k].uniqueId == id
    requires now - Millis(s.rules[k].time) <= 600 * 1000
    ensures var floor := if s.settings.defaultThreat > 0 then s.settings.defaultThreat else 90;
            exists x :: x in Event(Confirm(s, id, hint, now).0, verified, now)
                        && x.alarmId == k && x.taskStatus == 3 && x.resolved.At?
                        && x.score == if s.rules[k].threat < floor then floor else s.rules[k].threat
  {
    hide Inv, EventOf, LevelMap, Contenders, Raise, ResolveRules, ManualEntryOk, Confirm, Sync, Within;
    var u := Confirm(s, id, hint, now).0;
    ConfirmInv(s, id, hint, now);
    SyncInv(u, now);
    var t := Sync(u, now);
    ConfirmedRuleAlarm(s, id, hint, now, k);
    ConfirmRules(s, id, hint, now);
    PublishedRuleAlarm(t, verified, now, k);
  }

  lemma ConfirmedRuleAlarm(s: State, id: int64, hint: Option<Hint>, now: int, k: string)
    requires id > 0 && k in s.rules && s.rules[k].uniqueId == id
    ensures var u := Sync(Confirm(s, id, hint, now).0, now);
            && k in u.rules && u.rules == Confirm(s, id, hint, now).0.rules
            && u.rules[k].uniqueId == id && u.rules[k].time == s.rules[k].time
            && id in u.confirmed && !Filtered(u.filters, id, now)
  {
    hide ResolveRules;
    ConfirmCases(s, id, hint, now);
    assert HasRuleAlarm(s, id);
  }

  lemma PublishedRuleAlarm(t: State, verified: set<string>, now: int, k: string)
    requires Inv(t) && k in t.rules && t.rules[k].uniqueId in t.confirmed
    requires !Filtered(t.filters, t.rules[k].uniqueId, now) && now - Millis(t.rules[k].time) <= 600 * 1000
    ensures exists x :: x in EventOf(t, verified, now)
                        && x.alarmId == k && x.taskStatus == 3 && x.resolved.At? && x.score == t.rules[k].threat
  {
    hide EventOf, LevelMap, Contenders, LevelOf;
    var d := DispositionOf(t, t.rules[k], k in verified, now);
    assert d.taskStatus == VERIFY_SUCCESS && d.resolved.At?;
    var item := RuleItem(t, LevelMap(Contenders(t, now)), verified, k, now);
    assert item.Some? && item.value.alarmId == k && item.value.score == t.rules[k].threat;
    assert FromRule(t, verified, now, item.value);
    EventExact(t, verified, now, item.value);
  }

  /** In any state a manual alarm is in an event sent at once iff no filter covers its id and a lookup of
      its id finds a track. */
  lemma ManualShownIff(s: State, k: string, verified: set<string>, now: int)
    requires Inv(s) && k in s.manual && k !in s.rules
    ensures (exists x :: x in Event(s, verified, now) && x.alarmId == k)
            <==> !Filtered(s.filters, s.manual[k].uniqueId, now) && Lookup(s.tracks, s.manual[k].uniqueId).Hit?
  {
    hide EventOf, Lookup, Filtered, ManualKey;
    SyncInv(s, now);
    assert ManualEntryOk(s, k);
    NoPlaceholder(s.manual[k].uniqueId);
    ManualPublishedIff(Sync(s, now), k, verified, now);
  }

  /** No manual alarm has the id that stands for "no alarm" on target-type items. */
  lemma NoPlaceholder(id: int64)
    ensures ManualKey(id) != "-1"
  {
    assert ManualKey(id)[0] == 'm';
  }

  lemma ManualPublishedIff(t: State, k: string, verified: set<string>, now: int)
    requires Inv(t) && k !in t.rules && k != "-1"
    ensures (exists x :: x in EventOf(t, verified, now) && x.alarmId == k) <==> ManualPublished(t, k, now)
  {
    hide EventOf, LevelMap, Contenders, LevelOf, Lookup, ManualKey, Filtered;
    if ManualPublished(t, k, now) {
      assert ManualEntryOk(t, k);
      var item := ManualItem(t, LevelMap(Contenders(t, now)), k, now);
      assert FromManual(t, now, item.value);
      EventExact(t, verified, now, item.value);
    }
    forall x | x in EventOf(t, verified, now) && x.alarmId == k ensures ManualPublished(t, k, now) {
      EventExact(t, verified, now, x);
      if FromManual(t, now, x) {
        var j :| j in t.manual && ManualItem(t, LevelMap(Contenders(t, now)), j, now) == Some(x);
        assert ManualEntryOk(t, j);
      }
    }
  }

  /** A confirmation that files a manual alarm makes it appear in an event sent at once iff a lookup
      of the id it is filed under finds a track. A hint from the client is not enough. */
  lemma ConfirmPublishesManualAlarm(s: State, id: int64, hint: Option<Hint>, u: int64, verified: set<string>, now: int)
    requires Inv(s) && StoredId(s, id, hint) == Some(u) && ManualKey(u) !in s.rules
    ensures (exists x :: x in Event(Confirm(s, id, hint, now).0, verified, now) && x.alarmId == ManualKey(u))
            <==> Lookup(s.tracks, u).Hit?
  {
    hide Inv, EventOf, Lookup, ManualKey, Filtered, Confirm, Sync, StoredId;
    ConfirmInv(s, id, hint, now);
    ConfirmedManualAlarm(s, id, hint, u, now);
    ManualShownIff(Confirm(s, id, hint, now).0, ManualKey(u), verified, now);
  }

  /** With empty track tables every confirmation with a valid hint answers ok and shows nothing, then
      or later. */
  lemma HintNotShown(id: int64, h: Hint, settings: Settings, now: int, verified: set<string>, later: int)
    requires id > 0 && h.valid
    ensures var (s, result) := Confirm(Start(Tables(map[], map[], map[], map[]), settings), id, Some(h), now);
            result == ManualFromHint && Event(s, verified, later) == []
  {
    hide Lookup, Event;
    var t := Tables(map[], map[], map[], map[]);
    forall i: int64 ensures Lookup(t, i).Miss? {
      LookupPriority(t, i);
    }
    var s := Confirm(Start(t, settings), id, Some(h), now).0;
    ConfirmCases(Start(t, settings), id, Some(h), now);
    NothingShown(s, verified, later);
  }

  lemma ConfirmedManualAlarm(s: State, id: int64, hint: Option<Hint>, u: int64, now: int)
    requires StoredId(s, id, hint) == Some(u)
    ensures var t := Confirm(s, id, hint, now).0;
            && ManualKey(u) in t.manual && t.manual[ManualKey(u)].uniqueId == u
            && t.tracks == s.tracks && t.rules == s.rules && !Filtered(t.filters, u, now)
  {
    hide ManualKey, HasRuleAlarm, Lookup, Raise, ResolveRules;
    ConfirmCases(s, id, hint, now);
  }

  /** When a track was found for the requested id, the id its alarm is filed under leads to a track
      again iff it fits 31 bits, or one of the two tables with 64-bit keys knows it. */
  lemma StoredIdFindsTrackIff(t: Tables, id: int64)
    requires Lookup(t, id).Hit?
    ensures var u := EffectiveUniqueId(Lookup(t, id), id);
            Lookup(t, u).Hit? <==> u <= 0x7FFF_FFFF || u in t.birdFuse || u in t.fuse
                                   || SecondaryKeys(t.birdFuse, u) != {} || SecondaryKeys(t.fuse, u) != {}
  {
    hide Lookup;
    LookupPriority(t, id);
    var hit := Lookup(t, id);
    var u := EffectiveUniqueId(hit, id);
    LookupPriority(t, u);
    if u > INT_MAX {
      WideSources(t, u);
    } else if u != id {
      var i :| 0 <= i < SOURCES && Offers(t, i, id) && Provides(t, i, id, hit);
      assert exists k :: k in Table(t, i) && Table(t, i)[k] == hit.track;
      var k :| k in Table(t, i) && Table(t, i)[k] == hit.track;
      var j := 4 + i % 4;
      assert Table(t, j) == Table(t, i);
      assert k in SecondaryKeys(Table(t, j), u);
      assert Offers(t, j, u);
    }
  }

  lemma WideSources(t: Tables, u: int64)
    requires u > INT_MAX
    ensures (exists i :: 0 <= i < SOURCES && Offers(t, i, u))
            <==> u in t.birdFuse || u in t.fuse || SecondaryKeys(t.birdFuse, u) != {} || SecondaryKeys(t.fuse, u) != {}
  {
    assert Offers(t, 0, u) <==> u in t.birdFuse;
    assert Offers(t, 2, u) <==> u in t.fuse;
    assert Offers(t, 4, u) <==> SecondaryKeys(t.birdFuse, u) != {};
    assert Offers(t, 6, u) <==> SecondaryKeys(t.fuse, u) != {};
    assert !Offers(t, 1, u) && !Offers(t, 3, u) && !Offers(t, 5, u) && !Offers(t, 7, u);
  }

  /** Such an alarm is lost: a radar track under 5 with a secondary id of 2^31 is found, the confirmation
      answers ok, and no event ever shows the alarm while the tables stay as they are. */
  lemma StoredIdLost(settings: Settings, now: int, verified: set<string>, later: int)
    ensures var t := Tables(map[], map[], map[], map[5 := Track(0x8000_0000, 0.0, 0.0, 0.0, 0.0, 0.0, 0.0)]);
            var (s, result) := Confirm(Start(t, settings), 5, None, now);
            && Lookup(t, 5).Hit? && EffectiveUniqueId(Lookup(t, 5), 5) == 0x8000_0000
            && Lookup(t, 0x8000_0000).Miss?
            && result == ManualFromTrack && ManualKey(0x8000_0000) in s.manual
            && Event(s, verified, later) == []
  {
    hide Lookup, Event;
    var t := Tables(map[], map[], map[], map[5 := Track(0x8000_0000, 0.0, 0.0, 0.0, 0.0, 0.0, 0.0)]);
    assert Offers(t, 3, 5);
    LookupPriority(t, 5);
    var i :| 0 <= i < SOURCES && Offers(t, i, 5) && Provides(t, i, 5, Lookup(t, 5));
    assert Lookup(t, 5).track == t.radar[5];
    StoredIdFindsTrackIff(t, 5);
    var s := Confirm(Start(t, settings), 5, None, now).0;
    ConfirmCases(Start(t, settings), 5, None, now);
    NothingShown(s, verified, later);
  }

  /** With no rule alarm, no target type and no manual alarm whose id leads to a track, the event is empty. */
  lemma NothingShown(s: State, verified: set<string>, now: int)
    requires s.rules == map[] && s.targetTypes == map[]
    requires forall k :: k in s.manual ==> Lookup(s.tracks, s.manual[k].uniqueId).Miss?
    ensures Event(s, verified, now) == []
  {
    hide Lookup, EventOf, Contenders, LevelMap;
    var t := Sync(s, now);
    if EventOf(t, verified, now) != [] {
      var x := EventOf(t, verified, now)[0];
      EventExact(t, verified, now, x);
      assert false;
    }
  }

  // ----- the target-type block -----

  predicate IsAlarmId(s: State, id: int64) {
    (exists k :: k in s.rules && s.rules[k].uniqueId == id) || (exists k :: k in s.manual && s.manual[k].uniqueId == id)
  }

  lemma ProcessedIs(s: State, id: int64)
    ensures Decimal(id) in Processed(s) <==> IsAlarmId(s, id)
  {
    hide Decimal;
    if Decimal(id) in Processed(s) {
      if k :| k in s.rules && Decimal(s.rules[k].uniqueId) == Decimal(id) {
        DecimalInjective(s.rules[k].uniqueId, id);
      } else {
        var k :| k in s.manual && Decimal(s.manual[k].uniqueId) == Decimal(id);
        DecimalInjective(s.manual[k].uniqueId, id);
      }
    }
  }

  predicate Canonical(k: string) { ToLongLong(k).Some? && k == Decimal(ToLongLong(k).value) }

  /** The target-type block repeats the id of an alarm iff some key that is not written the way
      QString::number writes it stands for a positive, unfiltered alarm id with a fused track. */
  lemma TargetTypesRepeatIff(s: State, now: int)
    ensures (exists k :: TypePublished(s, k, now) && IsAlarmId(s, ToLongLong(k).value))
            <==> exists k :: k in s.targetTypes && !Canonical(k) && ToLongLong(k).Some? && ToLongLong(k).value > 0
                             && IsAlarmId(s, ToLongLong(k).value) && !Filtered(s.filters, ToLongLong(k).value, now)
                             && FusedTrack(s, ToLongLong(k).value).Hit?
  {
    hide Decimal, ToLongLong, IsAlarmId, Filtered, FusedTrack;
    forall k | ToLongLong(k).Some? && IsAlarmId(s, ToLongLong(k).value)
      ensures k in Processed(s) <==> Canonical(k)
    {
      ProcessedIs(s, ToLongLong(k).value);
      if k in Processed(s) {
        if r :| r in s.rules && Decimal(s.rules[r].uniqueId) == k {
          DecimalRoundTrip(s.rules[r].uniqueId);
        } else {
          var r :| r in s.manual && Decimal(s.manual[r].uniqueId) == k;
          DecimalRoundTrip(s.manual[r].uniqueId);
        }
      }
    }
  }

  /** It happens: with a rule alarm of id seven and a target type under "07", the id is in the event
      twice, once as the alarm and once as a target type of its own. */
  lemma TargetTypeRepeats(a: Alarm, t: Track, settings: Settings, verified: set<string>)
    requires a.alarmId == "r" && a.uniqueId == 7 && a.time == At(0)
    ensures var s := State(map[], map["r" := a], map[], map[], {}, map[], map[], map["07" := 1],
                           Tables(map[], map[], map[7 := t], map[]), map[], settings);
            && Inv(s)
            && (exists x :: x in EventOf(s, verified, 0) && x.alarmId == "r" && ToLongLong(x.trackId) == Some(7))
            && (exists x :: x in EventOf(s, verified, 0) && x.alarmId == "-1" && ToLongLong(x.trackId) == Some(7))
  {
    hide EventOf, LevelMap, Contenders, LevelOf, ToLongLong, Decimal;
    var s := State(map[], map["r" := a], map[], map[], {}, map[], map[], map["07" := 1],
                   Tables(map[], map[], map[7 := t], map[]), map[], settings);
    NonCanonicalKey();
    DecimalRoundTrip(7);
    var levels := LevelMap(Contenders(s, 0));
    var item := RuleItem(s, levels, verified, "r", 0);
    assert FromRule(s, verified, 0, item.value);
    EventExact(s, verified, 0, item.value);
    assert "07" in s.targetTypes && "07" !in Processed(s);
    var extra := TypeItem(s, "07", 0);
    assert FromTargetType(s, 0, extra.value);
    EventExact(s, verified, 0, extra.value);
  }

  /** Such keys exist: "07" is read as seven. */
  lemma NonCanonicalKey()
    ensures ToLongLong("07") == Some(7) && "07" != Decimal(7)
  {
    assert TrimLeft("07") == "07" && TrimRight("07") == "07";
    assert AllDigits("07");
    assert "07"[..1] == "0" && "0"[..0] == "";
    assert DigitsValue("0") == 0;
    assert DigitsValue("07") == 7;
  }
}
