/** Grouping the rows of a joined query into one record for each collection. */
module TrackCollections {
  import opened Text

  // ----- the order of QUuid keys; an id is its sixteen bytes, most significant first -----

  predicate Null(id: string) { forall i :: 0 <= i < |id| ==> id[i] == 0 as char }

  /** The variant, read off the ninth byte: unknown, NCS, DCE, Microsoft or reserved, in this order. */
  function Variant(id: string): nat {
    if |id| <= 8 || Null(id) then 0
    else if id[8] as int < 0x80 then 1
    else if id[8] as int < 0xC0 then 2
    else if id[8] as int < 0xE0 then 3
    else 4
  }

  /** The leading bits of the ninth byte: 0 is NCS, 10 DCE, 110 Microsoft and 111 reserved; a null id has
      no variant and comes before them all. */
  lemma VariantBits(id: string)
    requires |id| == 16 && forall i :: 0 <= i < 16 ==> id[i] as int < 256
    ensures var b := id[8] as int;
            Variant(id) == if forall i :: 0 <= i < 16 ==> id[i] as int == 0 then 0
                           else if b / 128 == 0 then 1 else if b / 64 == 2 then 2 else if b / 32 == 6 then 3 else 4
    ensures id[8] as int / 32 != 6 && id[8] as int / 64 != 2 && id[8] as int / 128 != 0 ==> id[8] as int / 32 == 7
  {
    assert Null(id) <==> forall i :: 0 <= i < 16 ==> id[i] as int == 0;
  }

  /** Ids of a smaller variant come first, and within a variant the bytes decide. */
  predicate UuidLess(a: string, b: string) {
    Variant(a) < Variant(b) || (Variant(a) == Variant(b) && Less(a, b))
  }

  function SortKey(id: string): string { [Variant(id) as char] + id }

  lemma SortKeyLess(a: string, b: string)
    ensures Less(SortKey(a), SortKey(b)) <==> UuidLess(a, b)
  {
    assert SortKey(a)[1..] == a && SortKey(b)[1..] == b;
  }

  function SortKeys(ids: set<string>): set<string> { set id | id in ids :: SortKey(id) }

  function Tails(ks: seq<string>): (ids: seq<string>)
    requires forall i :: 0 <= i < |ks| ==> ks[i] != []
    ensures |ids| == |ks| && forall i :: 0 <= i < |ks| ==> ids[i] == ks[i][1..]
  {
    if ks == [] then [] else [ks[0][1..]] + Tails(ks[1..])
  }

  lemma KeyTail(ids: set<string>, k: string)
    requires k in SortKeys(ids)
    ensures k != [] && k[1..] in ids && SortKey(k[1..]) == k
  {
    var id :| id in ids && SortKey(id) == k;
    assert k[1..] == id;
  }

  /** The keys of a QUuid-keyed QMap, in its iteration order. */
  function UuidKeys(ids: set<string>): (s: seq<string>) {
    var ks := TextKeys(SortKeys(ids));
    assert forall i :: 0 <= i < |ks| ==> ks[i] != [] by {
      forall i | 0 <= i < |ks| ensures ks[i] != [] {
        assert ks[i] in ks;
        KeyTail(ids, ks[i]);
      }
    }
    Tails(ks)
  }

  lemma UuidKeysAscending(ids: set<string>)
    ensures forall id :: id in UuidKeys(ids) <==> id in ids
    ensures forall i, j :: 0 <= i < j < |UuidKeys(ids)| ==> UuidLess(UuidKeys(ids)[i], UuidKeys(ids)[j])
  {
    hide SortKey, UuidLess, Less;
    var ks, us := TextKeys(SortKeys(ids)), UuidKeys(ids);
    TextKeysAscending(SortKeys(ids));
    forall i | 0 <= i < |us| ensures us[i] in ids && SortKey(us[i]) == ks[i] {
      assert ks[i] in ks;
      KeyTail(ids, ks[i]);
    }
    forall i, j | 0 <= i < j < |us| ensures UuidLess(us[i], us[j]) {
      SortKeyLess(us[i], us[j]);
    }
    forall id | id in ids ensures id in us {
      assert SortKey(id) in SortKeys(ids) && SortKey(id) in ks;
      var i :| 0 <= i < |ks| && ks[i] == SortKey(id);
      SortKeyInjective(us[i], id);
    }
  }

  lemma SortKeyInjective(a: string, b: string)
    requires SortKey(a) == SortKey(b)
    ensures a == b
  {
    assert SortKey(a)[1..] == a && SortKey(b)[1..] == b;
  }

  lemma UuidLessIrreflexive(a: string)
    ensures !UuidLess(a, a)
  {
    LessIrreflexive(a);
  }

  // ----- the grouping loop -----

  datatype ResultRow<T> = ResultRow(collectionId: string, sensorId: int, recordTime: int, isFused: bool, track: T)

  datatype Record<T> = Record(collectionId: string, sensorId: int, collectionTime: int, isFused: bool, tracks: seq<T>)

  type Records<T> = map<string, Record<T>>

  function AddRow<T>(m: Records<T>, r: ResultRow<T>): Records<T> {
    var c := if r.collectionId in m then m[r.collectionId]
             else Record(r.collectionId, r.sensorId, r.recordTime, false, []);
    m[r.collectionId := c.(tracks := c.tracks + [r.track], isFused := c.isFused || r.isFused)]
  }

  function Grouped<T>(rows: seq<ResultRow<T>>): Records<T> {
    if rows == [] then map[] else AddRow(Grouped(rows[..|rows| - 1]), rows[|rows| - 1])
  }

  /** QMap::values: the records in the order of the keys given. */
  function ValuesIn<T>(m: Records<T>, ks: seq<string>): (s: seq<Record<T>>)
    requires forall k :: k in ks ==> k in m
    ensures |s| == |ks| && forall i :: 0 <= i < |ks| ==> s[i] == m[ks[i]]
  {
    if ks == [] then [] else [m[ks[0]]] + ValuesIn(m, ks[1..])
  }

  /** The records of all collections, in the order of their ids. */
  function Collections<T>(rows: seq<ResultRow<T>>): seq<Record<T>> {
    UuidKeysAscending(Grouped(rows).Keys);
    ValuesIn(Grouped(rows), UuidKeys(Grouped(rows).Keys))
  }

  method GetTrackCollections<T>(rows: seq<ResultRow<T>>) returns (records: seq<Record<T>>)
    ensures records == Collections(rows)
  {
    var collectionMap: Records<T> := map[];
    for i := 0 to |rows|
      invariant collectionMap == Grouped(rows[..i])
    {
      var r := rows[i];
      assert rows[..i + 1][..i] == rows[..i];
      if r.collectionId !in collectionMap {
        collectionMap := collectionMap[r.collectionId := Record(r.collectionId, r.sensorId, r.recordTime, false, [])];
      }
      var c := collectionMap[r.collectionId];
      collectionMap := collectionMap[r.collectionId := c.(tracks := c.tracks + [r.track])];
      if r.isFused {
        collectionMap := collectionMap[r.collectionId := collectionMap[r.collectionId].(isFused := true)];
      }
    }
    assert rows[..|rows|] == rows;
    UuidKeysAscending(collectionMap.Keys);
    records := ValuesIn(collectionMap, UuidKeys(collectionMap.Keys));
  }

  // ----- what a record should hold -----

  /** The rows of one collection, in the order they come. */
  function RowsOf<T>(rows: seq<ResultRow<T>>, id: string): seq<ResultRow<T>> {
    if rows == [] then []
    else if rows[0].collectionId == id then [rows[0]] + RowsOf(rows[1..], id)
    else RowsOf(rows[1..], id)
  }

  function TracksOf<T>(rows: seq<ResultRow<T>>): (ts: seq<T>)
    ensures |ts| == |rows|
  {
    if rows == [] then [] else [rows[0].track] + TracksOf(rows[1..])
  }

  ghost predicate AnyFused<T>(rows: seq<ResultRow<T>>) { exists r :: r in rows && r.isFused }

  /** The record of a collection as its rows determine it: identity and origin from the first, the
      tracks of all in order, fused if any is. */
  ghost function Expected<T>(mine: seq<ResultRow<T>>, id: string): Record<T>
    requires mine != []
  {
    Record(id, mine[0].sensorId, mine[0].recordTime, AnyFused(mine), TracksOf(mine))
  }

  lemma {:induction false} RowsOfSnoc<T>(rows: seq<ResultRow<T>>, r: ResultRow<T>, id: string)
    ensures RowsOf(rows + [r], id) == RowsOf(rows, id) + (if r.collectionId == id then [r] else [])
  {
    var all, more := rows + [r], if r.collectionId == id then [r] else [];
    if rows == [] {
      assert all == [r] && all[1..] == rows;
    } else {
      RowsOfSnoc(rows[1..], r, id);
      assert all[1..] == rows[1..] + [r] && all[0] == rows[0];
      var mine := if rows[0].collectionId == id then [rows[0]] else [];
      assert RowsOf(rows, id) == mine + RowsOf(rows[1..], id);
      assert RowsOf(all, id) == mine + (RowsOf(rows[1..], id) + more);
    }
  }

  lemma {:induction false} TracksOfSnoc<T>(rows: seq<ResultRow<T>>, r: ResultRow<T>)
    ensures TracksOf(rows + [r]) == TracksOf(rows) + [r.track]
  {
    if rows == [] {
      assert [r][1..] == [] && rows + [r] == [r];
    } else {
      TracksOfSnoc(rows[1..], r);
      assert (rows + [r])[1..] == rows[1..] + [r] && (rows + [r])[0] == rows[0];
    }
  }

  lemma AnyFusedSnoc<T>(rows: seq<ResultRow<T>>, r: ResultRow<T>)
    ensures AnyFused(rows + [r]) <==> AnyFused(rows) || r.isFused
    ensures !AnyFused<T>([])
  {
    assert r in rows + [r];
    assert forall x :: x in rows ==> x in rows + [r];
  }

  /** There is a record for an id iff some row has it, and it is the record those rows determine. */
  lemma {:induction false} GroupedExact<T>(rows: seq<ResultRow<T>>, id: string)
    ensures id in Grouped(rows) <==> RowsOf(rows, id) != []
    ensures id in Grouped(rows) ==> Grouped(rows)[id] == Expected(RowsOf(rows, id), id)
    decreases |rows|
  {
    hide AnyFused;
    if rows == [] {
    } else {
      var front, r := rows[..|rows| - 1], rows[|rows| - 1];
      assert rows == front + [r];
      GroupedExact(front, id);
      RowsOfSnoc(front, r, id);
      if r.collectionId == id {
        var mine := RowsOf(front, id);
        TracksOfSnoc(mine, r);
        assert mine == [] ==> mine + [r] == [r] && TracksOf<T>([]) == [];
        AnyFusedSnoc(mine, r);
      } else {
        assert RowsOf(rows, id) == RowsOf(front, id);
      }
    }
  }

  /** The rows of a collection are a subsequence of the rows: their places ascend, each row is the one
      at its place, and every row with that id has a place. */
  lemma {:induction false} RowsOfPlaces<T>(rows: seq<ResultRow<T>>, id: string) returns (places: seq<nat>)
    ensures |places| == |RowsOf(rows, id)|
    ensures forall i, j :: 0 <= i < j < |places| ==> places[i] < places[j]
    ensures forall i :: 0 <= i < |places| ==> places[i] < |rows| && rows[places[i]] == RowsOf(rows, id)[i]
    ensures forall k :: 0 <= k < |rows| ==> (rows[k].collectionId == id <==> k in places)
  {
    if rows == [] {
      return [];
    }
    var front, r := rows[..|rows| - 1], rows[|rows| - 1];
    assert rows == front + [r];
    RowsOfSnoc(front, r, id);
    var before := RowsOfPlaces(front, id);
    places := before + (if r.collectionId == id then [|rows| - 1] else []);
    forall k | 0 <= k < |rows| ensures rows[k].collectionId == id <==> k in places {
      if k < |front| {
        assert front[k] == rows[k];
      } else if r.collectionId == id {
        assert places[|before|] == k;
      } else {
        assert places == before;
      }
    }
  }

  // ----- conservation -----

  function TotalTracks<T>(records: seq<Record<T>>): nat {
    if records == [] then 0 else |records[0].tracks| + TotalTracks(records[1..])
  }

  function TotalRows<T>(rows: seq<ResultRow<T>>, ks: seq<string>): nat {
    if ks == [] then 0 else |RowsOf(rows, ks[0])| + TotalRows(rows, ks[1..])
  }

  lemma {:induction false} TotalRowsSnoc<T>(rows: seq<ResultRow<T>>, r: ResultRow<T>, ks: seq<string>)
    requires forall i, j :: 0 <= i < j < |ks| ==> ks[i] != ks[j]
    ensures TotalRows(rows + [r], ks) == TotalRows(rows, ks) + (if r.collectionId in ks then 1 else 0)
  {
    if ks == [] {
    } else {
      TotalRowsSnoc(rows, r, ks[1..]);
      RowsOfSnoc(rows, r, ks[0]);
      assert r.collectionId in ks <==> r.collectionId == ks[0] || r.collectionId in ks[1..];
      assert ks[0] !in ks[1..];
    }
  }

  lemma {:induction false} TotalRowsAll<T>(rows: seq<ResultRow<T>>, ks: seq<string>)
    requires forall i, j :: 0 <= i < j < |ks| ==> ks[i] != ks[j]
    requires forall r :: r in rows ==> r.collectionId in ks
    ensures TotalRows(rows, ks) == |rows|
    decreases |rows|
  {
    if rows == [] {
      NoRows<T>(ks);
    } else {
      var front, r := rows[..|rows| - 1], rows[|rows| - 1];
      assert rows == front + [r];
      TotalRowsAll(front, ks);
      TotalRowsSnoc(front, r, ks);
    }
  }

  lemma {:induction false} NoRows<T>(ks: seq<string>)
    ensures TotalRows<T>([], ks) == 0
  {
    if ks == [] {
    } else {
      NoRows<T>(ks[1..]);
    }
  }

  lemma {:induction false} TotalsAgree<T>(rows: seq<ResultRow<T>>, ks: seq<string>)
    requires forall k :: k in ks ==> k in Grouped(rows)
    ensures TotalTracks(ValuesIn(Grouped(rows), ks)) == TotalRows(rows, ks)
  {
    if ks == [] {
    } else {
      TotalsAgree(rows, ks[1..]);
      GroupedExact(rows, ks[0]);
    }
  }

  lemma RecordIds<T>(rows: seq<ResultRow<T>>)
    ensures var ks := UuidKeys(Grouped(rows).Keys);
            |Collections(rows)| == |ks| && forall i :: 0 <= i < |ks| ==> Collections(rows)[i].collectionId == ks[i]
  {
    hide Grouped, RowsOf, UuidKeys;
    var m := Grouped(rows);
    var ks := UuidKeys(m.Keys);
    UuidKeysAscending(m.Keys);
    forall i | 0 <= i < |ks| ensures Collections(rows)[i].collectionId == ks[i] {
      assert ks[i] in ks && ks[i] in m;
      GroupedExact(rows, ks[i]);
    }
  }

  lemma KeyOfRow<T>(rows: seq<ResultRow<T>>, r: ResultRow<T>)
    requires r in rows
    ensures r.collectionId in UuidKeys(Grouped(rows).Keys)
  {
    hide Grouped, RowsOf, UuidKeys;
    UuidKeysAscending(Grouped(rows).Keys);
    GroupedExact(rows, r.collectionId);
    HasRows(rows, r);
  }

  lemma TracksConserved<T>(rows: seq<ResultRow<T>>)
    ensures TotalTracks(Collections(rows)) == |rows|
  {
    hide Grouped, RowsOf, TotalRows, TotalTracks, UuidKeys, UuidLess;
    var ks := UuidKeys(Grouped(rows).Keys);
    UuidKeysAscending(Grouped(rows).Keys);
    forall i, j | 0 <= i < j < |ks| ensures ks[i] != ks[j] {
      UuidLessIrreflexive(ks[i]);
    }
    forall r | r in rows ensures r.collectionId in ks {
      KeyOfRow(rows, r);
    }
    TotalRowsAll(rows, ks);
    TotalsAgree(rows, ks);
  }

  /** Every row is in exactly one record: the records are of different collections, in the order of their
      ids, and together hold as many tracks as there are rows. */
  lemma Conservation<T>(rows: seq<ResultRow<T>>)
    ensures TotalTracks(Collections(rows)) == |rows|
    ensures var records := Collections(rows);
            && (forall i, j :: 0 <= i < j < |records| ==> UuidLess(records[i].collectionId, records[j].collectionId))
            && (forall r :: r in rows ==> exists i :: 0 <= i < |records| && records[i].collectionId == r.collectionId)
  {
    hide Grouped, Collections, TotalTracks, UuidKeys, UuidLess;
    TracksConserved(rows);
    RecordIds(rows);
    var ks := UuidKeys(Grouped(rows).Keys);
    UuidKeysAscending(Grouped(rows).Keys);
    forall r | r in rows ensures exists i :: 0 <= i < |ks| && Collections(rows)[i].collectionId == r.collectionId {
      KeyOfRow(rows, r);
      var i :| 0 <= i < |ks| && ks[i] == r.collectionId;
      assert Collections(rows)[i].collectionId == ks[i];
    }
  }

  lemma {:induction false} HasRows<T>(rows: seq<ResultRow<T>>, r: ResultRow<T>)
    requires r in rows
    ensures RowsOf(rows, r.collectionId) != []
  {
    if rows[0] == r {
    } else {
      assert r in rows[1..];
      HasRows(rows[1..], r);
    }
  }
}
