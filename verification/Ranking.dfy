/** The five most threatening alarms get the levels 5, 4, 3, 2 and 1. */
module Ranking {
  import opened Text

  datatype Entry = Entry(id: string, score: int)

  const TOP: nat := 5

  predicate Outranks(a: Entry, b: Entry) {
    if a.score != b.score then a.score > b.score else Less(a.id, b.id)
  }

  lemma OutranksTotal()
    ensures forall a :: !Outranks(a, a)
    ensures forall a, b, c :: Outranks(a, b) && Outranks(b, c) ==> Outranks(a, c)
    ensures forall a, b :: a != b ==> Outranks(a, b) || Outranks(b, a)
  {
    LessTotal();
  }

  // ----- sorting -----

  ghost predicate Sorted(s: seq<Entry>) {
    forall i, j :: 0 <= i < j < |s| ==> !Outranks(s[j], s[i])
  }

  ghost predicate DistinctIds(s: seq<Entry>) {
    forall i, j :: 0 <= i < j < |s| ==> s[i].id != s[j].id
  }

  function Insert(e: Entry, s: seq<Entry>): seq<Entry> {
    if s == [] || Outranks(e, s[0]) then [e] + s else [s[0]] + Insert(e, s[1..])
  }

  lemma {:induction false} InsertMembers(e: Entry, s: seq<Entry>)
    ensures multiset(Insert(e, s)) == multiset(s) + multiset{e}
  {
    if s == [] {
    } else {
      assert s == [s[0]] + s[1..];
      InsertMembers(e, s[1..]);
    }
  }

  lemma {:induction false} InsertSorted(e: Entry, s: seq<Entry>)
    requires Sorted(s)
    ensures Sorted(Insert(e, s))
  {
    var r := Insert(e, s);
    if s == [] {
    } else if Outranks(e, s[0]) {
      forall j | 0 < j < |r| ensures !Outranks(r[j], e) {
        assert j > 1 ==> !Outranks(s[j - 1], s[0]);
        OutranksTotal();
      }
    } else {
      InsertSorted(e, s[1..]);
      InsertMembers(e, s[1..]);
      SameMembers(r[1..], s[1..] + [e]);
      forall j | 0 < j < |r| ensures !Outranks(r[j], r[0]) {
        assert r[j] in r[1..];
        assert r[j] in s[1..] || r[j] == e;
      }
    }
  }

  function Sort(s: seq<Entry>): seq<Entry> {
    if s == [] then [] else Insert(s[|s| - 1], Sort(s[..|s| - 1]))
  }

  lemma {:induction false} SortSorts(s: seq<Entry>)
    ensures multiset(Sort(s)) == multiset(s) && Sorted(Sort(s))
  {
    if s == [] {
    } else {
      var front := s[..|s| - 1];
      SortSorts(front);
      InsertMembers(s[|s| - 1], Sort(front));
      InsertSorted(s[|s| - 1], Sort(front));
      assert s == front + [s[|s| - 1]];
    }
  }

  /** Any sorting algorithm gives the same result. */
  lemma {:induction false} SortUnique(a: seq<Entry>, b: seq<Entry>)
    requires multiset(a) == multiset(b) && Sorted(a) && Sorted(b)
    ensures a == b
  {
    assert |multiset(a)| == |a| && |multiset(b)| == |b|;
    if a == [] {
    } else {
      SameMembers(a, b);
      FirstIsLeast(a, b);
      assert a == [a[0]] + a[1..] && b == [b[0]] + b[1..];
      assert multiset(a[1..]) == multiset(a) - multiset{a[0]};
      assert multiset(b[1..]) == multiset(b) - multiset{b[0]};
      SortUnique(a[1..], b[1..]);
    }
  }

  lemma FirstIsLeast(a: seq<Entry>, b: seq<Entry>)
    requires a != [] && b != [] && Sorted(a) && Sorted(b) && forall x :: x in a <==> x in b
    ensures a[0] == b[0]
  {
    assert a[0] in a && b[0] in b;
    var i :| 0 <= i < |b| && b[i] == a[0];
    var j :| 0 <= j < |a| && a[j] == b[0];
    assert i == 0 || !Outranks(b[i], b[0]);
    assert j == 0 || !Outranks(a[j], a[0]);
    if a[0] != b[0] {
      OutranksConnected(a[0], b[0]);
    }
  }

  lemma OutranksConnected(a: Entry, b: Entry)
    requires a != b
    ensures Outranks(a, b) || Outranks(b, a)
  {
    if a.score == b.score {
      LessConnected(a.id, b.id);
    }
  }

  lemma SameMembers(a: seq<Entry>, b: seq<Entry>)
    requires multiset(a) == multiset(b)
    ensures forall x :: x in a <==> x in b
  {
    forall x ensures x in a <==> x in b {
      assert x in a <==> x in multiset(a);
      assert x in b <==> x in multiset(b);
    }
  }

  // ----- levels -----

  /** The levels given to the first n entries. */
  function Levels(s: seq<Entry>, n: nat): map<string, int>
    requires n <= |s|
  {
    if n == 0 then map[] else Levels(s, n - 1)[s[n - 1].id := TOP - (n - 1)]
  }

  function LevelMap(entries: seq<Entry>): map<string, int> {
    var s := Sort(entries);
    Levels(s, if |s| < TOP then |s| else TOP)
  }

  function LevelOf(levels: map<string, int>, id: string): int {
    if id in levels then levels[id] else 0
  }

  method AssignLevels(entries: seq<Entry>) returns (levels: map<string, int>)
    ensures levels == LevelMap(entries)
  {
    var sorted := Sort(entries);
    var topCount := if |sorted| < TOP then |sorted| else TOP;
    levels := map[];
    for i := 0 to topCount
      invariant levels == Levels(sorted, i)
    {
      levels := levels[sorted[i].id := TOP - i];
    }
  }

  // ----- ranking by counting -----

  ghost function Above(entries: seq<Entry>, e: Entry): set<Entry> {
    set x | x in entries && Outranks(x, e)
  }

  lemma {:induction false} LevelsAt(s: seq<Entry>, n: nat, i: nat)
    requires n <= |s| && i < |s| && DistinctIds(s)
    ensures LevelOf(Levels(s, n), s[i].id) == if i < n then TOP - i else 0
  {
    if n == 0 {
    } else {
      LevelsAt(s, n - 1, i);
    }
  }

  lemma {:induction false} SortDistinct(s: seq<Entry>)
    requires DistinctIds(s)
    ensures DistinctIds(Sort(s))
  {
    if s == [] {
    } else {
      var last := s[|s| - 1];
      var front := s[..|s| - 1];
      SortDistinct(front);
      SortSorts(front);
      SameMembers(front, Sort(front));
      forall x | x in Sort(front) ensures x.id != last.id {
        assert x in front;
      }
      InsertDistinct(last, Sort(front));
    }
  }

  lemma {:induction false} InsertDistinct(e: Entry, s: seq<Entry>)
    requires DistinctIds(s) && forall x :: x in s ==> x.id != e.id
    ensures DistinctIds(Insert(e, s))
  {
    if s == [] || Outranks(e, s[0]) {
    } else {
      var r := Insert(e, s[1..]);
      InsertDistinct(e, s[1..]);
      InsertMembers(e, s[1..]);
      SameMembers(r, s[1..] + [e]);
      forall x | x in r ensures x.id != s[0].id {
        assert x in s[1..] || x == e;
      }
    }
  }

  lemma SetSnoc(a: seq<Entry>, e: Entry)
    ensures (set x | x in a + [e]) == (set x | x in a) + {e}
  {
    assert e in a + [e];
  }

  lemma {:induction false} PrefixSize(s: seq<Entry>, i: nat)
    requires i <= |s| && DistinctIds(s)
    ensures |set x | x in s[..i]| == i
  {
    if i == 0 {
    } else {
      PrefixSize(s, i - 1);
      var before := s[..i - 1];
      assert s[..i] == before + [s[i - 1]];
      SetSnoc(before, s[i - 1]);
      assert s[i - 1] !in before;
    }
  }

  lemma RankByAbove(entries: seq<Entry>, e: Entry)
    requires DistinctIds(entries) && e in entries
    ensures LevelOf(LevelMap(entries), e.id) == if |Above(entries, e)| < TOP then TOP - |Above(entries, e)| else 0
  {
    var s := Sort(entries);
    SortDistinct(entries);
    SortSorts(entries);
    SameMembers(s, entries);
    var i :| 0 <= i < |s| && s[i] == e;
    LevelsAt(s, if |s| < TOP then |s| else TOP, i);
    PrefixSize(s, i);
    forall x ensures x in s && Outranks(x, e) <==> x in s[..i] {
      AboveIsBefore(s, i, x);
    }
    forall x ensures x in Above(entries, e) <==> x in s[..i] {
      assert x in Above(entries, e) <==> x in s && Outranks(x, e);
    }
    assert Above(entries, e) == set x | x in s[..i];
  }

  /** With distinct ids the level of an alarm is five less the number of alarms with a higher score, or
      with an equal score and a smaller id, and never below zero. */
  lemma RankByCounting(entries: seq<Entry>, e: Entry)
    requires DistinctIds(entries) && e in entries
    ensures var n := |set x | x in entries && (x.score > e.score || (x.score == e.score && Before(x.id, e.id)))|;
            LevelOf(LevelMap(entries), e.id) == if n < 5 then 5 - n else 0
  {
    hide Less, Before;
    RankByAbove(entries, e);
    forall x: Entry ensures Less(x.id, e.id) <==> Before(x.id, e.id) {
      LessIsBefore(x.id, e.id);
    }
    assert Above(entries, e) == set x | x in entries && (x.score > e.score || (x.score == e.score && Before(x.id, e.id)));
  }

  /** Of two alarms the one with the higher score has the higher level, or both have none. */
  lemma HigherScoreHigherLevel(entries: seq<Entry>, a: Entry, b: Entry)
    requires DistinctIds(entries) && a in entries && b in entries && a.score > b.score
    ensures var levels := LevelMap(entries);
            LevelOf(levels, a.id) > LevelOf(levels, b.id) || LevelOf(levels, a.id) == LevelOf(levels, b.id) == 0
  {
    hide LevelMap, LevelOf;
    RankByAbove(entries, a);
    RankByAbove(entries, b);
    var above, below := Above(entries, a), Above(entries, b);
    LessIrreflexive(a.id);
    assert above + {a} <= below && a !in above;
    Larger(above + {a}, below);
  }

  lemma {:induction false} Larger<T>(a: set<T>, b: set<T>)
    requires a <= b
    ensures |a| <= |b|
  {
    if a == {} {
    } else {
      var x :| x in a;
      Larger(a - {x}, b - {x});
    }
  }

  /** An id that no alarm has gets no level. */
  lemma LevelOfNone(entries: seq<Entry>, id: string)
    requires forall e :: e in entries ==> e.id != id
    ensures LevelOf(LevelMap(entries), id) == 0
  {
    var s := Sort(entries);
    SortSorts(entries);
    SameMembers(s, entries);
    assert forall i :: 0 <= i < |s| ==> s[i] in s;
    LevelsIds(s, if |s| < TOP then |s| else TOP, id);
  }

  lemma {:induction false} LevelsIds(s: seq<Entry>, n: nat, id: string)
    requires n <= |s| && forall i :: 0 <= i < |s| ==> s[i].id != id
    ensures id !in Levels(s, n)
  {
    if n == 0 {
    } else {
      LevelsIds(s, n - 1, id);
    }
  }

  lemma AboveIsBefore(s: seq<Entry>, i: nat, x: Entry)
    requires i < |s| && Sorted(s) && DistinctIds(s)
    ensures x in s && Outranks(x, s[i]) <==> x in s[..i]
  {
    if x in s && Outranks(x, s[i]) {
      OutranksTotal();
      var j :| 0 <= j < |s| && s[j] == x;
      assert j != i && !(j > i);
      assert s[..i][j] == x;
    }
    if x in s[..i] {
      var j :| 0 <= j < i && s[j] == x;
      assert s[j].id != s[i].id && !Outranks(s[i], s[j]);
      OutranksConnected(s[i], s[j]);
    }
  }

  /** The order in which the alarms were collected does not matter, whatever their ids. */
  lemma RankOrderIrrelevant(a: seq<Entry>, b: seq<Entry>)
    requires multiset(a) == multiset(b)
    ensures LevelMap(a) == LevelMap(b)
  {
    SortSorts(a);
    SortSorts(b);
    SortUnique(Sort(a), Sort(b));
  }

  /** Every level in use belongs to one alarm, whether or not ids are distinct. */
  lemma {:induction false} LevelsInjective(s: seq<Entry>, n: nat)
    requires n <= |s| && n <= TOP
    ensures forall x :: x in Levels(s, n) ==> TOP - n < Levels(s, n)[x] <= TOP
    ensures forall x, y :: x in Levels(s, n) && y in Levels(s, n) && Levels(s, n)[x] == Levels(s, n)[y] ==> x == y
  {
    if n == 0 {
    } else {
      LevelsInjective(s, n - 1);
    }
  }

  lemma LevelsUsedOnce(entries: seq<Entry>, x: string, y: string)
    requires LevelOf(LevelMap(entries), x) == LevelOf(LevelMap(entries), y) > 0
    ensures x == y
  {
    var s := Sort(entries);
    LevelsInjective(s, if |s| < TOP then |s| else TOP);
  }
}
