/** The four in-memory track tables and the lookup of a track by unique id. */
module Tracks {
  import opened Text

  type uint32 = x: int | 0 <= x < 0x1_0000_0000

  const INT_MAX: int := 0x7FFF_FFFF
  const UINT32_MAX: int := 0xFFFF_FFFF

  datatype Track = Track(secondaryId: uint32, lat: real, lon: real, alt: real,
                         speed: real, course: real, range: real)

  /** birdRadar and radar are keyed by 32-bit ints, the other two by 64-bit ids. */
  datatype Tables = Tables(birdFuse: map<int64, Track>, birdRadar: map<int64, Track>,
                           fuse: map<int64, Track>, radar: map<int64, Track>)

  datatype Hit = Miss | Hit(track: Track, air: bool)

  // ----- the eight sources, in the order in which they are asked -----

  const SOURCES: nat := 8

  function Table(t: Tables, i: nat): map<int64, Track> {
    match i % 4
    case 0 => t.birdFuse
    case 1 => t.birdRadar
    case 2 => t.fuse
    case _ => t.radar
  }

  predicate ByKey(i: nat) { i < 4 }

  predicate Air(i: nat) { i % 4 < 2 }

  predicate Narrow(i: nat) { i % 2 == 1 }

  /** The keys under which a table holds a track whose secondary id is `id`. */
  function SecondaryKeys(m: map<int64, Track>, id: int64): set<int64> {
    set k | k in m && m[k].secondaryId == id
  }

  predicate Offers(t: Tables, i: nat, id: int64) {
    && (Narrow(i) ==> id <= INT_MAX)
    && if ByKey(i) then id in Table(t, i) else SecondaryKeys(Table(t, i), id) != {}
  }

  /** The track a source that matches hands out: the one under the key, or, in a scan, the
      match with the least key. */
  ghost predicate Provides(t: Tables, i: nat, id: int64, hit: Hit) {
    && hit.Hit? && hit.air == Air(i)
    && if ByKey(i) then id in Table(t, i) && hit.track == Table(t, i)[id]
       else exists k :: k in SecondaryKeys(Table(t, i), id) && hit.track == Table(t, i)[k]
                        && forall j :: j in SecondaryKeys(Table(t, i), id) ==> k <= j
  }

  function Take(t: Tables, i: nat, id: int64): Hit
    requires Offers(t, i, id)
  {
    Hit(Table(t, i)[if ByKey(i) then id else LeastId(SecondaryKeys(Table(t, i), id))], Air(i))
  }

  lemma TakeProvides(t: Tables, i: nat, id: int64)
    requires Offers(t, i, id)
    ensures Provides(t, i, id, Take(t, i, id))
  {
    if !ByKey(i) {
      assert LeastId(SecondaryKeys(Table(t, i), id)) in SecondaryKeys(Table(t, i), id);
    }
  }

  function FirstFrom(t: Tables, i: nat, id: int64): Hit
    decreases SOURCES - i
  {
    if i >= SOURCES then Miss
    else if Offers(t, i, id) then Take(t, i, id)
    else FirstFrom(t, i + 1, id)
  }

  function Lookup(t: Tables, id: int64): Hit {
    if id <= 0 then Miss else FirstFrom(t, 0, id)
  }

  lemma {:induction false} FirstFromPriority(t: Tables, i: nat, id: int64)
    requires i <= SOURCES
    ensures FirstFrom(t, i, id).Miss? <==> forall j :: i <= j < SOURCES ==> !Offers(t, j, id)
    ensures FirstFrom(t, i, id).Hit? ==>
              exists j :: i <= j < SOURCES && Offers(t, j, id) && Provides(t, j, id, FirstFrom(t, i, id))
                          && forall h :: i <= h < j ==> !Offers(t, h, id)
    decreases SOURCES - i
  {
    if i < SOURCES && Offers(t, i, id) {
      TakeProvides(t, i, id);
    } else if i < SOURCES {
      FirstFromPriority(t, i + 1, id);
      var hit := FirstFrom(t, i + 1, id);
      if hit.Hit? {
        var j :| i + 1 <= j < SOURCES && Offers(t, j, id) && Provides(t, j, id, hit)
                 && forall h :: i + 1 <= h < j ==> !Offers(t, h, id);
      }
    }
  }

  /** A lookup finds a track iff the id is positive and some source matches; what it finds comes
      from the first source that does. */
  lemma LookupPriority(t: Tables, id: int64)
    ensures Lookup(t, id).Hit? <==> id > 0 && exists i :: 0 <= i < SOURCES && Offers(t, i, id)
    ensures Lookup(t, id).Hit? ==>
              exists i :: 0 <= i < SOURCES && Offers(t, i, id) && Provides(t, i, id, Lookup(t, id))
                          && forall h :: 0 <= h < i ==> !Offers(t, h, id)
  {
    FirstFromPriority(t, 0, id);
  }

  /** The key or the secondary id of what a lookup finds is the id that was asked for. */
  lemma LookupSound(t: Tables, id: int64)
    requires Lookup(t, id).Hit?
    ensures (exists i :: 0 <= i < 4 && id in Table(t, i) && Table(t, i)[id] == Lookup(t, id).track)
            || Lookup(t, id).track.secondaryId == id
  {
    LookupPriority(t, id);
    var i :| 0 <= i < SOURCES && Offers(t, i, id) && Provides(t, i, id, Lookup(t, id));
    assert ByKey(i) ==> id in Table(t, i);
  }

  // ----- the order of the lookup, table by table -----

  /** The first track of a table with that secondary id. */
  ghost predicate FirstWith(m: map<int64, Track>, id: int64, k: int64) {
    k in m && m[k].secondaryId == id && forall j :: j in m && m[j].secondaryId == id ==> k <= j
  }

  ghost predicate NoneWith(m: map<int64, Track>, id: int64) { forall k :: k in m ==> m[k].secondaryId != id }

  /** By key the fused air tracks come first, then the air radar tracks, the fused sea tracks and the sea
      radar tracks, the two radar tables only for ids of 31 bits. */
  lemma LookupByKey(t: Tables, id: int64)
    requires id > 0
    ensures id in t.birdFuse ==> Lookup(t, id) == Hit(t.birdFuse[id], true)
    ensures id !in t.birdFuse && id <= 0x7FFF_FFFF && id in t.birdRadar ==> Lookup(t, id) == Hit(t.birdRadar[id], true)
    ensures id !in t.birdFuse && !(id <= 0x7FFF_FFFF && id in t.birdRadar) && id in t.fuse ==> Lookup(t, id) == Hit(t.fuse[id], false)
    ensures id !in t.birdFuse && id !in t.fuse && id <= 0x7FFF_FFFF && id !in t.birdRadar && id in t.radar ==>
              Lookup(t, id) == Hit(t.radar[id], false)
  {
  }

  ghost predicate NoKey(t: Tables, id: int64) {
    id !in t.birdFuse && id !in t.fuse && (id <= 0x7FFF_FFFF ==> id !in t.birdRadar && id !in t.radar)
  }

  /** Without a key the tables are searched by secondary id, in the same order and under the same
      condition, and the track with the least key is taken. */
  lemma LookupBySecondary(t: Tables, id: int64)
    requires id > 0 && NoKey(t, id)
    ensures forall k :: FirstWith(t.birdFuse, id, k) ==> Lookup(t, id) == Hit(t.birdFuse[k], true)
    ensures NoneWith(t.birdFuse, id) && id <= 0x7FFF_FFFF ==>
              forall k :: FirstWith(t.birdRadar, id, k) ==> Lookup(t, id) == Hit(t.birdRadar[k], true)
    ensures NoneWith(t.birdFuse, id) && (id <= 0x7FFF_FFFF ==> NoneWith(t.birdRadar, id)) ==>
              forall k :: FirstWith(t.fuse, id, k) ==> Lookup(t, id) == Hit(t.fuse[k], false)
    ensures NoneWith(t.birdFuse, id) && NoneWith(t.fuse, id) && id <= 0x7FFF_FFFF && NoneWith(t.birdRadar, id) ==>
              forall k :: FirstWith(t.radar, id, k) ==> Lookup(t, id) == Hit(t.radar[k], false)
    ensures NoneWith(t.birdFuse, id) && NoneWith(t.fuse, id) && (id <= 0x7FFF_FFFF ==> NoneWith(t.birdRadar, id) && NoneWith(t.radar, id))
            ==> Lookup(t, id).Miss?
  {
    hide Take, Offers;
    FromScans(t, id);
    ScanOf(t, 4, id);
    ScanOf(t, 5, id);
    ScanOf(t, 6, id);
    ScanOf(t, 7, id);
  }

  lemma FromScans(t: Tables, id: int64)
    requires id > 0 && NoKey(t, id)
    ensures Lookup(t, id) ==
              if Offers(t, 4, id) then Take(t, 4, id) else if Offers(t, 5, id) then Take(t, 5, id)
              else if Offers(t, 6, id) then Take(t, 6, id) else if Offers(t, 7, id) then Take(t, 7, id) else Miss
  {
    hide Take;
    assert !Offers(t, 0, id) && !Offers(t, 1, id) && !Offers(t, 2, id) && !Offers(t, 3, id);
    hide Offers;
    assert FirstFrom(t, 0, id) == FirstFrom(t, 4, id);
    assert FirstFrom(t, 8, id) == Miss;
    assert FirstFrom(t, 6, id) == if Offers(t, 6, id) then Take(t, 6, id) else if Offers(t, 7, id) then Take(t, 7, id) else Miss;
  }

  lemma ScanOf(t: Tables, i: nat, id: int64)
    requires 4 <= i < 8
    ensures Offers(t, i, id) <==> (i % 2 == 1 ==> id <= 0x7FFF_FFFF) && !NoneWith(Table(t, i), id)
    ensures Offers(t, i, id) ==> forall k :: FirstWith(Table(t, i), id, k) ==> Take(t, i, id) == Hit(Table(t, i)[k], i < 6)
  {
    var m := Table(t, i);
    if !NoneWith(m, id) {
      var k :| k in m && m[k].secondaryId == id;
      assert k in SecondaryKeys(m, id);
    }
    if SecondaryKeys(m, id) != {} {
      var k :| k in SecondaryKeys(m, id);
      assert k in m && m[k].secondaryId == id;
    }
    forall k | FirstWith(m, id, k) && Offers(t, i, id) ensures Take(t, i, id) == Hit(m[k], i < 6) {
      LeastProvides(t, i, id, k);
    }
  }

  // ----- the lookup as it runs -----

  method TryMap(t: Tables, i: nat, id: int64, hit: Hit) returns (r: Hit)
    requires ByKey(i)
    ensures r == if hit.Hit? then hit else if Offers(t, i, id) then Take(t, i, id) else Miss
  {
    if hit.Hit? || (Narrow(i) && id > INT_MAX) {
      return hit;
    }
    var m := Table(t, i);
    if id in m {
      return Hit(m[id], Air(i));
    }
    return hit;
  }

  method ScanMap(t: Tables, i: nat, id: int64, hit: Hit) returns (r: Hit)
    requires !ByKey(i)
    ensures r == if hit.Hit? then hit else if Offers(t, i, id) then Take(t, i, id) else Miss
  {
    if hit.Hit? || (Narrow(i) && id > INT_MAX) {
      return hit;
    }
    var m := Table(t, i);
    var ks := IdKeys(m.Keys);
    IdKeysAscending(m.Keys);
    for n := 0 to |ks|
      invariant forall j :: 0 <= j < n ==> m[ks[j]].secondaryId != id
    {
      if m[ks[n]].secondaryId == id {
        assert ks[n] in SecondaryKeys(m, id);
        forall j | j in SecondaryKeys(m, id) ensures ks[n] <= j {
          assert j in ks;
          var x :| 0 <= x < |ks| && ks[x] == j;
          assert n <= x;
        }
        LeastProvides(t, i, id, ks[n]);
        return Hit(m[ks[n]], Air(i));
      }
    }
    forall k | k in m ensures m[k].secondaryId != id {
      assert k in ks;
    }
    return hit;
  }

  lemma LeastProvides(t: Tables, i: nat, id: int64, k: int64)
    requires !ByKey(i) && Offers(t, i, id) && k in SecondaryKeys(Table(t, i), id)
    requires forall j :: j in SecondaryKeys(Table(t, i), id) ==> k <= j
    ensures Take(t, i, id) == Hit(Table(t, i)[k], Air(i))
  {
    assert LeastId(SecondaryKeys(Table(t, i), id)) == k;
  }

  method FindTrackByUniqueId(t: Tables, id: int64) returns (hit: Hit)
    ensures hit == Lookup(t, id)
  {
    hit := Miss;
    if id <= 0 {
      return;
    }
    ghost var first := FirstFrom(t, 0, id);
    hit := TryMap(t, 0, id, hit);
    hit := TryMap(t, 1, id, hit);
    hit := TryMap(t, 2, id, hit);
    hit := TryMap(t, 3, id, hit);
    assert first == if hit.Hit? then hit else FirstFrom(t, 4, id);
    hit := ScanMap(t, 4, id, hit);
    hit := ScanMap(t, 5, id, hit);
    hit := ScanMap(t, 6, id, hit);
    hit := ScanMap(t, 7, id, hit);
  }

  /** A confirmed alarm is stored under the track's own secondary id when it has one. */
  function EffectiveUniqueId(hit: Hit, request: int64): int64 {
    if hit.Hit? && hit.track.secondaryId > 0 then hit.track.secondaryId else request
  }
}
