/** Which alarms and target types are published, and what a subscriber reads about each, field by field
    and in plain numbers. */
module PublishedItems {
  import opened AlarmEvents
  import opened AlarmState
  import opened PublishedEvents
  import opened Ranking
  import opened StepEffects
  import TargetIds
  import opened Text
  import opened Tracks
  import opened Wrappers

  /** The 31-bit form of an id. */
  lemma DdsTrackId(id: int64)
    ensures TargetIds.LegacyDdsTrackId(id) == if id > 0 then id % 0x8000_0000 else 0
  {
    hide TargetIds.LegacyDdsTrackId;
    if id > 0 {
      TargetIds.LegacyIsMod(id);
    } else {
      TargetIds.LegacyOfNone(id);
    }
  }

  /** A rule alarm is published iff its id is unfiltered and it is at most 600 s old. The item carries the
      alarm as it is filed, the 31-bit id beside the full one; it is verified, with the time on record, else
      that of the id's confirmation, else now, if its id is confirmed or its rules pass, and otherwise keeps
      its own status, anything but 0, 1 and 2 reading as 3, without a time. */
  lemma RuleItemsCarryAlarms(s: State, levels: map<string, int>, verified: set<string>, k: string, now: int)
    requires Inv(s) && k in s.rules
    ensures var item, a := RuleItem(s, levels, verified, k, now), s.rules[k];
            && (item.Some? <==> !Filtered(s.filters, a.uniqueId, now) && now - Millis(a.time) <= 600 * 1000)
            && (item.Some? ==>
                  var x := item.value;
                  && x.alarmId == k && x.trackId == Decimal(a.uniqueId)
                  && x.ddsTrackId == (if a.uniqueId > 0 then a.uniqueId % 0x8000_0000 else 0)
                  && x.content == LevelText(if k in levels then levels[k] else 0)
                  && x.status == (if a.status == 1 then Focus else if a.status == 2 then Deleted else Active)
                  && x.ruleIds == [a.conditionId] && x.areaId == Decimal(a.groupId) + "_" + Decimal(a.areaId)
                  && (x.classId, x.behaviorId, x.score) == (a.targetType, a.behavior, a.threat)
                  && (x.lat, x.lon, x.alt, x.speed, x.course) == (a.lat, a.lon, 0.0, a.speed, a.course)
                  && x.updateTime == a.time
                  && x.air == (a.conditionId in s.trackTypes && s.trackTypes[a.conditionId] > 0)
                  && if a.uniqueId in s.confirmed || k in verified
                     then x.taskStatus == 3 && x.resolved == if k in s.resolvedAt then s.resolvedAt[k]
                                                             else if a.uniqueId in s.confirmedAt then s.confirmedAt[a.uniqueId]
                                                             else At(now)
                     else x.taskStatus == (if 0 <= a.taskStatus <= 2 then a.taskStatus else 3) && x.resolved == NoTime)
  {
    hide Decimal, Filtered, TargetIds.LegacyDdsTrackId, DispositionOf;
    DdsTrackId(s.rules[k].uniqueId);
    ResolveEffects(s, s.rules[k], k in verified, now);
  }

  /** A manual alarm is published iff its id is unfiltered and leads to a track. The item shows where the
      track is now and how it moves, under the positive, confirmed id that leads to it, as verified at the
      time of the id's confirmation. */
  lemma ManualItemsFollowTracks(s: State, levels: map<string, int>, k: string, now: int)
    requires Inv(s) && k in s.manual
    ensures var item, a := ManualItem(Sync(s, now), levels, k, now), s.manual[k];
            var hit := Lookup(s.tracks, a.uniqueId);
            var floor := if s.settings.defaultThreat > 0 then s.settings.defaultThreat else 90;
            && (item.Some? <==> !Filtered(s.filters, a.uniqueId, now) && hit.Hit?)
            && (item.Some? ==>
                  var x := item.value;
                  && a.uniqueId > 0 && a.uniqueId in s.confirmed
                  && x.alarmId == k == "manual-" + Decimal(a.uniqueId) && x.trackId == Decimal(a.uniqueId)
                  && x.ddsTrackId == a.uniqueId % 0x8000_0000
                  && x.content == LevelText(if k in levels then levels[k] else 0)
                  && x.status == Active && x.ruleIds == ["manual_confirm"] && x.areaId == ""
                  && (x.classId, x.behaviorId) == (a.targetType, 0)
                  && x.score == (if a.threat < floor then floor else a.threat)
                  && (x.lat, x.lon, x.alt) == (hit.track.lat, hit.track.lon, 0.0)
                  && (x.speed, x.course, x.air) == (hit.track.speed, hit.track.course, hit.air)
                  && x.updateTime == At(now)
                  && x.taskStatus == 3 && x.resolved == s.confirmedAt[a.uniqueId] && x.resolved.At?)
  {
    hide Lookup, Decimal, Filtered, TargetIds.LegacyDdsTrackId, Sync, Inv;
    ManualFiled(s, k);
    var t, u := Sync(s, now), s.manual[k].uniqueId;
    SyncEffects(s, now, k);
    SyncLeaves(s, now, u);
    DdsTrackId(u);
  }

  lemma ManualFiled(s: State, k: string)
    requires Inv(s) && k in s.manual
    ensures var u := s.manual[k].uniqueId;
            && k == "manual-" + Decimal(u) && u > 0 && u in s.confirmed && u in s.confirmedAt && s.confirmedAt[u].At?
            && u in s.manualAir && s.manual[k].time.At?
  {
    assert ManualEntryOk(s, k);
  }

  /** A target-type entry is published iff its key is no alarm's id in decimal, reads as a positive number,
      and that id is unfiltered and has a fused track. The item shows that track, sea before air, and is
      verified, at the time of the confirmation, iff the id is confirmed. */
  lemma TypeItemsFollowTracks(s: State, k: string, now: int)
    requires k in s.targetTypes
    ensures var item, id := TypeItem(s, k, now), ToLongLong(k);
            && (item.Some? <==>
                  && (forall j :: j in s.rules ==> Decimal(s.rules[j].uniqueId) != k)
                  && (forall j :: j in s.manual ==> Decimal(s.manual[j].uniqueId) != k)
                  && id.Some? && id.value > 0 && !Filtered(s.filters, id.value, now)
                  && (id.value in s.tracks.fuse || id.value in s.tracks.birdFuse))
            && (item.Some? ==>
                  var x, id := item.value, id.value;
                  var t := if id in s.tracks.fuse then s.tracks.fuse[id] else s.tracks.birdFuse[id];
                  && x.alarmId == "-1" && x.trackId == k && x.ddsTrackId == id % 0x8000_0000
                  && x.content == TypeUpdate(id) && x.status == Active && x.ruleIds == [] && x.areaId == ""
                  && (x.classId, x.behaviorId, x.score) == (s.targetTypes[k], 0, 1)
                  && (x.lat, x.lon, x.alt, x.speed, x.course) == (t.lat, t.lon, t.alt, t.speed, t.course)
                  && x.air == (id !in s.tracks.fuse) && x.updateTime == At(now)
                  && if id in s.confirmed
                     then x.taskStatus == 3 && x.resolved == if id in s.confirmedAt then s.confirmedAt[id] else At(now)
                     else x.taskStatus == 0 && x.resolved == NoTime)
  {
    hide ToLongLong, Decimal, Filtered, TargetIds.LegacyDdsTrackId;
    if ToLongLong(k).Some? {
      DdsTrackId(ToLongLong(k).value);
    }
  }

  /** An item with a resolve time is verified; one that is verified without a time is a rule alarm whose
      own status is none of the known ones. */
  lemma TimedIsVerified(s: State, verified: set<string>, now: int, x: AlarmInfo)
    requires Inv(s) && x in EventOf(s, verified, now)
    ensures x.resolved.At? ==> x.taskStatus == 3
    ensures x.taskStatus == 3 && !x.resolved.At? ==>
              x.alarmId in s.rules && !(0 <= s.rules[x.alarmId].taskStatus <= 2)
  {
    hide EventOf, Contenders, LevelMap, LevelOf, Lookup, Decimal, ToLongLong, Filtered;
    EventExact(s, verified, now, x);
    if FromManual(s, now, x) {
      var k :| k in s.manual && ManualItem(s, LevelMap(Contenders(s, now)), k, now) == Some(x);
      assert ManualEntryOk(s, k);
    }
  }
}
