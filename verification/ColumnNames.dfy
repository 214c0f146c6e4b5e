/** Turning a list of key/value rows into a table: which keys become columns, how the columns are
    named apart, and what every cell holds. */
module ColumnNames {
  import opened Rows
  import opened Text
  import opened Wrappers

  predicate IsCacheKey(key: string) { |key| >= 2 && key[0] == '_' && key[1] == 'c' }

  function CacheKey(i: nat): (k: string)
    ensures IsCacheKey(k)
  {
    "_c" + Decimal(i)
  }

  function Candidate(name: string, suffix: nat): string {
    if suffix == 0 then name else name + "_" + Decimal(suffix)
  }

  // ----- both open-ended searches end: a finite collection cannot hold infinitely many names -----

  ghost predicate Distinct(s: seq<string>) { forall i, j :: 0 <= i < j < |s| ==> s[i] != s[j] }

  lemma {:induction false} PigeonholeSet(a: seq<string>, s: set<string>)
    requires Distinct(a) && forall i :: 0 <= i < |a| ==> a[i] in s
    ensures |a| <= |s|
  {
    if a == [] {
    } else {
      var n := |a| - 1;
      PigeonholeSet(a[..n], s - {a[n]});
    }
  }

  lemma {:induction false} ElementsBound(a: seq<string>)
    ensures |set x | x in a| <= |a|
  {
    var s := set x | x in a;
    if a == [] {
      assert s == {};
    } else {
      var n := |a| - 1;
      assert a == a[..n] + [a[n]];
      ElementsBound(a[..n]);
      assert s == (set x | x in a[..n]) + {a[n]};
    }
  }

  function CacheKeys(n: nat): (ks: seq<string>)
    ensures |ks| == n && forall i :: 0 <= i < n ==> ks[i] == CacheKey(i)
  {
    if n == 0 then [] else CacheKeys(n - 1) + [CacheKey(n - 1)]
  }

  lemma CacheKeyInjective(i: nat, j: nat)
    requires CacheKey(i) == CacheKey(j)
    ensures i == j
  {
    assert CacheKey(i)[2..] == Decimal(i) && CacheKey(j)[2..] == Decimal(j);
    DecimalInjective(i, j);
  }

  lemma CacheKeysDistinct(n: nat)
    ensures Distinct(CacheKeys(n))
  {
    forall i, j | 0 <= i < j < n ensures CacheKeys(n)[i] != CacheKeys(n)[j] {
      if CacheKey(i) == CacheKey(j) {
        CacheKeyInjective(i, j);
      }
    }
  }

  lemma CacheRunBound(keys: set<string>, n: nat)
    requires forall i :: 0 <= i < n ==> CacheKey(i) in keys
    ensures n <= |keys|
  {
    CacheKeysDistinct(n);
    PigeonholeSet(CacheKeys(n), keys);
  }

  lemma CandidateInjective(name: string, i: nat, j: nat)
    requires Candidate(name, i) == Candidate(name, j)
    ensures i == j
  {
    if i > 0 && j > 0 {
      assert (name + "_" + Decimal(i))[|name| + 1..] == Decimal(i);
      assert (name + "_" + Decimal(j))[|name| + 1..] == Decimal(j);
      DecimalInjective(i, j);
    }
  }

  lemma CandidatesBound(used: seq<string>, name: string, n: nat)
    requires forall i :: 0 <= i < n ==> Candidate(name, i) in used
    ensures n <= |used|
  {
    var tried := seq(n, i requires 0 <= i => Candidate(name, i));
    forall i, j | 0 <= i < j < n ensures tried[i] != tried[j] {
      if tried[i] == tried[j] {
        CandidateInjective(name, i, j);
      }
    }
    PigeonholeSet(tried, set x | x in used);
    ElementsBound(used);
  }

  // ----- which keys of the first row become columns -----

  /** How many of _c0, _c1, ... are there before the first that is missing, from n on. */
  function CacheRun(keys: set<string>, n: nat): (r: nat)
    requires forall i :: 0 <= i < n ==> CacheKey(i) in keys
    ensures n <= r && CacheKey(r) !in keys && forall i :: 0 <= i < r ==> CacheKey(i) in keys
    decreases |keys| - n
  {
    CacheRunBound(keys, n);
    if CacheKey(n) !in keys then n
    else
      CacheRunBound(keys, n + 1);
      CacheRun(keys, n + 1)
  }

  function NonEmpty(ks: seq<string>): seq<string> {
    if ks == [] then [] else (if ks[0] == [] then [] else [ks[0]]) + NonEmpty(ks[1..])
  }

  /** Append, in order, the keys that are no cache keys and are not there yet. */
  function AddNamed(cols: seq<string>, ks: seq<string>): seq<string> {
    if ks == [] then cols
    else
      var d := AddNamed(cols, ks[..|ks| - 1]);
      if !IsCacheKey(ks[|ks| - 1]) && ks[|ks| - 1] !in d then d + [ks[|ks| - 1]] else d
  }

  function FirstCols(keys: set<string>): seq<string> {
    if CacheRun(keys, 0) == 0 then NonEmpty(TextKeys(keys)) else CacheKeys(CacheRun(keys, 0))
  }

  function DisplayCols(keys: set<string>): seq<string> {
    var cols := FirstCols(keys);
    if cols != [] && IsCacheKey(cols[0]) then AddNamed(cols, TextKeys(keys)) else cols
  }

  /** The open-ended scan. */
  method ScanCacheKeys<V>(first: Row<V>) returns (colNames: seq<string>)
    ensures colNames == CacheKeys(CacheRun(first.Keys, 0))
  {
    hide CacheKey;
    var i := 0;
    colNames := [];
    while CacheKey(i) in first
      invariant colNames == CacheKeys(i)
      invariant i <= CacheRun(first.Keys, 0)
      decreases |first.Keys| - i
    {
      CacheRunBound(first.Keys, CacheRun(first.Keys, 0));
      colNames := colNames + [CacheKey(i)];
      i := i + 1;
    }
  }

  method AddNamedKeys(colNames: seq<string>, keys: seq<string>) returns (displayCols: seq<string>)
    ensures displayCols == AddNamed(colNames, keys)
  {
    displayCols := colNames;
    for j := 0 to |keys|
      invariant displayCols == AddNamed(colNames, keys[..j])
    {
      assert keys[..j + 1][..j] == keys[..j];
      if !IsCacheKey(keys[j]) && keys[j] !in displayCols {
        displayCols := displayCols + [keys[j]];
      }
    }
    assert keys[..|keys|] == keys;
  }

  method InferColumns<V>(first: Row<V>) returns (displayCols: seq<string>)
    ensures displayCols == DisplayCols(first.Keys)
  {
    hide CacheKey, TextKeys, AddNamed, NonEmpty, IsCacheKey;
    var colNames := ScanCacheKeys(first);
    var keys := TextKeys(first.Keys);
    if colNames == [] {
      colNames := NonEmpty(keys);
    }
    displayCols := colNames;
    if colNames != [] && IsCacheKey(colNames[0]) {
      displayCols := AddNamedKeys(colNames, keys);
    }
  }

  // ----- naming the columns apart -----

  function Base(name: string, i: nat): string { if name == [] then CacheKey(i) else name }

  /** The least suffix from s on whose candidate is not used. */
  function FreeSuffix(used: seq<string>, name: string, s: nat): (r: nat)
    requires forall i :: 0 <= i < s ==> Candidate(name, i) in used
    ensures s <= r && Candidate(name, r) !in used && forall i :: 0 <= i < r ==> Candidate(name, i) in used
    decreases |used| - s
  {
    CandidatesBound(used, name, s);
    if Candidate(name, s) !in used then s
    else
      CandidatesBound(used, name, s + 1);
      FreeSuffix(used, name, s + 1)
  }

  function FreeName(used: seq<string>, name: string): string { Candidate(name, FreeSuffix(used, name, 0)) }

  function Uniquify(names: seq<string>): (u: seq<string>)
    ensures |u| == |names|
  {
    if names == [] then []
    else
      var n := |names| - 1;
      Uniquify(names[..n]) + [FreeName(Uniquify(names[..n]), Base(names[n], n))]
  }

  method FreeColumnName(uniqueCols: seq<string>, name: string) returns (unique: string)
    ensures unique == FreeName(uniqueCols, name)
  {
    hide Decimal;
    var suffix := 0;
    unique := name;
    while unique in uniqueCols
      invariant unique == Candidate(name, suffix)
      invariant suffix <= FreeSuffix(uniqueCols, name, 0)
      decreases |uniqueCols| - suffix
    {
      CandidatesBound(uniqueCols, name, FreeSuffix(uniqueCols, name, 0));
      suffix := suffix + 1;
      unique := name + "_" + Decimal(suffix);
    }
  }

  method UniqueNames(displayCols: seq<string>) returns (uniqueCols: seq<string>)
    ensures uniqueCols == Uniquify(displayCols)
  {
    hide FreeName, CacheKey;
    uniqueCols := [];
    for i := 0 to |displayCols|
      invariant uniqueCols == Uniquify(displayCols[..i])
    {
      var name := displayCols[i];
      if name == [] {
        name := CacheKey(i);
      }
      var unique := FreeColumnName(uniqueCols, name);
      assert displayCols[..i + 1][..i] == displayCols[..i];
      uniqueCols := uniqueCols + [unique];
    }
    assert displayCols[..|displayCols|] == displayCols;
  }

  lemma {:induction false} UniquifyAt(names: seq<string>, i: nat)
    requires i < |names|
    ensures var u := Uniquify(names);
            u[..i] == Uniquify(names[..i]) && u[i] == FreeName(u[..i], Base(names[i], i))
  {
    hide FreeName, Base;
    var n := |names| - 1;
    if i == n {
    } else {
      UniquifyAt(names[..n], i);
      assert names[..n][..i] == names[..i];
      assert Uniquify(names)[..i] == Uniquify(names[..n])[..i];
    }
  }

  /** The name itself, or the name, an underscore and the suffix in decimal. */
  predicate Suffixed(unique: string, name: string, suffix: nat) {
    unique == if suffix == 0 then name else name + "_" + Decimal(suffix)
  }

  ghost predicate Taken(used: seq<string>, name: string, suffix: nat) {
    exists u :: u in used && Suffixed(u, name, suffix)
  }

  ghost predicate LeastFree(unique: string, name: string, used: seq<string>) {
    exists s: nat :: Suffixed(unique, name, s) && unique !in used && forall r: nat :: r < s ==> Taken(used, name, r)
  }

  lemma FreeNameLeast(used: seq<string>, name: string)
    requires name != []
    ensures LeastFree(FreeName(used, name), name, used) && FreeName(used, name) != [] && FreeName(used, name) !in used
  {
    hide Decimal;
    var s := FreeSuffix(used, name, 0);
    assert Suffixed(FreeName(used, name), name, s);
    forall r: nat | r < s ensures Taken(used, name, r) {
      assert Suffixed(Candidate(name, r), name, r);
    }
  }

  lemma BaseNonEmpty(name: string, i: nat)
    ensures Base(name, i) != []
  {
  }

  /** The output names are pairwise distinct, one for each input, and none is empty; each is its input
      with the least suffix that no earlier output has taken. */
  lemma {:induction false} UniquifyDistinct(names: seq<string>)
    ensures |Uniquify(names)| == |names| && Distinct(Uniquify(names))
    ensures forall i :: 0 <= i < |names| ==> Uniquify(names)[i] != []
    ensures forall i :: 0 <= i < |names| ==>
              LeastFree(Uniquify(names)[i], if names[i] == [] then "_c" + Decimal(i) else names[i], Uniquify(names)[..i])
  {
    hide Uniquify, FreeName, Candidate, LeastFree, Decimal;
    var u := Uniquify(names);
    forall i | 0 <= i < |names|
      ensures u[i] !in u[..i] && u[i] != [] && LeastFree(u[i], Base(names[i], i), u[..i])
    {
      UniquifyAt(names, i);
      BaseNonEmpty(names[i], i);
      FreeNameLeast(u[..i], Base(names[i], i));
    }
    forall i, j | 0 <= i < j < |u| ensures u[i] != u[j] {
      assert u[i] in u[..j];
    }
  }

  /** Nothing is renamed iff the names were already distinct and none was empty. */
  lemma {:induction false} UniquifyIdentityIff(names: seq<string>)
    ensures Uniquify(names) == names <==> Distinct(names) && forall i :: 0 <= i < |names| ==> names[i] != []
  {
    UniquifyDistinct(names);
    if Distinct(names) && forall i :: 0 <= i < |names| ==> names[i] != [] {
      forall i | 0 <= i < |names| ensures Uniquify(names)[i] == names[i] {
        KeptUpTo(names, |names|, i);
      }
    }
  }

  /** Among distinct names, of which only the one at p may be empty, all others keep their name, as
      long as the name made up at p is not one of the later ones. */
  lemma {:induction false} KeptUpTo(names: seq<string>, p: nat, i: nat)
    requires i < |names| && i != p && Distinct(names)
    requires forall k :: 0 <= k <= i && k != p ==> names[k] != []
    requires forall k :: p < k <= i ==> names[k] != Uniquify(names)[p]
    ensures Uniquify(names)[i] == names[i]
    decreases i
  {
    var u := Uniquify(names);
    UniquifyAt(names, i);
    forall k | 0 <= k < i ensures u[k] != names[i] {
      if k != p {
        KeptUpTo(names, p, k);
      }
    }
    assert Candidate(names[i], 0) !in u[..i];
  }

  // ----- what the columns of a row set are -----

  lemma {:induction false} NonEmptyMembers(ks: seq<string>, k: string)
    ensures k in NonEmpty(ks) <==> k in ks && k != []
  {
    if ks == [] {
    } else {
      NonEmptyMembers(ks[1..], k);
      assert k in ks <==> k == ks[0] || k in ks[1..];
    }
  }

  lemma {:induction false} NonEmptyDistinct(ks: seq<string>)
    requires Distinct(ks)
    ensures Distinct(NonEmpty(ks))
  {
    if ks == [] {
    } else {
      NonEmptyDistinct(ks[1..]);
      NonEmptyMembers(ks[1..], ks[0]);
      assert ks[0] !in ks[1..];
    }
  }

  lemma {:induction false} AddNamedShape(cols: seq<string>, ks: seq<string>)
    requires Distinct(cols)
    ensures Distinct(AddNamed(cols, ks)) && cols <= AddNamed(cols, ks)
    ensures forall k :: k in AddNamed(cols, ks) <==> k in cols || (k in ks && !IsCacheKey(k))
    ensures ks != [] && !IsCacheKey(ks[0]) && ks[0] !in cols
            ==> |AddNamed(cols, ks)| > |cols| && AddNamed(cols, ks)[|cols|] == ks[0]
  {
    if ks == [] {
    } else {
      var n := |ks| - 1;
      AddNamedShape(cols, ks[..n]);
      assert ks == ks[..n] + [ks[n]];
      var d := AddNamed(cols, ks[..n]);
      if n == 0 {
        assert d == cols;
      } else {
        assert ks[..n][0] == ks[0];
      }
    }
  }

  lemma KeysDistinct(keys: set<string>)
    ensures Distinct(TextKeys(keys))
    ensures [] in keys ==> TextKeys(keys)[0] == []
  {
    TextKeysWalk(keys);
    var ks := TextKeys(keys);
    forall i, j | 0 <= i < j < |ks| ensures ks[i] != ks[j] {
      assert ks[i] in ks[..j];
    }
    if [] in keys {
      var m := LeastText(keys);
      assert IsLeastText([], keys);
      LeastTextUnique(m, [], keys);
    }
  }

  lemma FirstColsShape(keys: set<string>)
    ensures Distinct(FirstCols(keys))
    ensures forall k :: k in FirstCols(keys) <==>
              k in keys && (if CacheKey(0) in keys then k in CacheKeys(CacheRun(keys, 0)) else k != [])
  {
    var n := CacheRun(keys, 0);
    KeysDistinct(keys);
    if n == 0 {
      NonEmptyDistinct(TextKeys(keys));
      forall k ensures k in NonEmpty(TextKeys(keys)) <==> k in keys && k != [] {
        NonEmptyMembers(TextKeys(keys), k);
      }
    } else {
      CacheKeysDistinct(n);
    }
  }

  lemma {:induction false} NonEmptyAscending(ks: seq<string>)
    requires forall i, j :: 0 <= i < j < |ks| ==> Less(ks[i], ks[j])
    ensures forall i, j :: 0 <= i < j < |NonEmpty(ks)| ==> Less(NonEmpty(ks)[i], NonEmpty(ks)[j])
  {
    hide Less;
    if ks == [] {
    } else {
      var rest := NonEmpty(ks[1..]);
      NonEmptyAscending(ks[1..]);
      forall j | 0 <= j < |rest| ensures Less(ks[0], rest[j]) {
        NonEmptyMembers(ks[1..], rest[j]);
        assert rest[j] in rest;
      }
    }
  }

  /** The least key but the empty one looks like a cache key. */
  predicate LeastLooksCached(keys: set<string>) {
    keys - {[]} != {} && IsCacheKey(LeastText(keys - {[]}))
  }

  lemma FirstColIsLeast(keys: set<string>)
    requires CacheKey(0) !in keys
    ensures FirstCols(keys) != [] && IsCacheKey(FirstCols(keys)[0]) <==> LeastLooksCached(keys)
  {
    hide IsCacheKey, Less, NonEmpty;
    var ks, rest := TextKeys(keys), keys - {[]};
    TextKeysAscending(keys);
    NonEmptyAscending(ks);
    TextKeysAscending(rest);
    forall k ensures k in NonEmpty(ks) <==> k in TextKeys(rest) {
      NonEmptyMembers(ks, k);
    }
    AscendingUnique(NonEmpty(ks), TextKeys(rest));
    assert CacheRun(keys, 0) == 0;
  }

  /** Which keys of the first row are shown: with _c0 present, the unbroken run of cache keys and
      every other key that does not look like one; without it, every key, the empty one only when the
      least of the others looks like a cache key. No key is shown twice. */
  lemma {:induction false} ShownIff(keys: set<string>)
    ensures Distinct(DisplayCols(keys))
    ensures forall k :: k in DisplayCols(keys) <==>
              k in keys &&
              if CacheKey(0) in keys then IsCacheKey(k) ==> k in CacheKeys(CacheRun(keys, 0))
              else k != [] || LeastLooksCached(keys)
  {
    hide LeastLooksCached;
    var cols := FirstCols(keys);
    FirstColsShape(keys);
    AddNamedShape(cols, TextKeys(keys));
    if CacheKey(0) in keys {
      assert cols[0] == CacheKey(0);
    } else {
      FirstColIsLeast(keys);
    }
  }

  ghost predicate InRun(keys: set<string>, k: string) { exists i: nat :: RunAt(keys, k, i) }

  ghost predicate RunAt(keys: set<string>, k: string, i: nat) {
    k == "_c" + Decimal(i) && forall j: nat :: j <= i ==> "_c" + Decimal(j) in keys
  }

  /** The same, on the texts themselves: a numbered key is shown if all smaller numbers are there too. */
  lemma ShownExactly(keys: set<string>, k: string)
    ensures k in DisplayCols(keys) <==>
              k in keys &&
              if "_c0" in keys then "_c" <= k ==> InRun(keys, k)
              else k != [] || (keys - {[]} != {} && "_c" <= LeastText(keys - {[]}))
  {
    hide DisplayCols, Decimal, LeastText;
    ShownIff(keys);
    FirstCacheKey();
    PrefixIsCache(k);
    if keys - {[]} != {} {
      PrefixIsCache(LeastText(keys - {[]}));
    }
    RunIsPrefix(keys, k);
  }

  lemma PrefixIsCache(k: string)
    ensures IsCacheKey(k) <==> "_c" <= k
  {
  }

  lemma RunIsPrefix(keys: set<string>, k: string)
    ensures k in CacheKeys(CacheRun(keys, 0)) <==> InRun(keys, k)
  {
    hide Decimal;
    var n := CacheRun(keys, 0);
    if i :| 0 <= i < n && CacheKeys(n)[i] == k {
      forall j: nat | j <= i ensures "_c" + Decimal(j) in keys {
        assert CacheKey(j) in keys;
      }
      assert RunAt(keys, k, i);
    }
    if i: nat :| RunAt(keys, k, i) {
      assert CacheKey(n) == "_c" + Decimal(n);
      assert i < n;
      assert CacheKeys(n)[i] == k;
    }
  }

  ghost predicate Rising(s: seq<string>) { forall i, j :: 0 <= i < j < |s| ==> Less(s[i], s[j]) }

  lemma {:induction false} AddNamedRising(cols: seq<string>, ks: seq<string>)
    requires Rising(ks) && Distinct(cols)
    ensures cols <= AddNamed(cols, ks) && Rising(AddNamed(cols, ks)[|cols|..])
    ensures forall k :: k in AddNamed(cols, ks)[|cols|..] ==> k in ks && !IsCacheKey(k)
  {
    hide Less, IsCacheKey;
    if ks == [] {
    } else {
      var n := |ks| - 1;
      AddNamedRising(cols, ks[..n]);
      var d, e := AddNamed(cols, ks[..n]), AddNamed(cols, ks);
      forall k | k in d[|cols|..] ensures k in ks && Less(k, ks[n]) {
        var j :| 0 <= j < n && ks[j] == k;
      }
      assert e == d || e[|cols|..] == d[|cols|..] + [ks[n]];
      assert forall i :: 0 <= i < |d[|cols|..]| ==> d[|cols|..][i] in d[|cols|..];
    }
  }

  /** The order of the columns: with _c0, the numbered run in order of its numbers, then the other keys in
      their order; without, the keys in their order, the empty one, if shown, last. */
  lemma DisplayInOrder(keys: set<string>) returns (n: nat)
    ensures n <= |DisplayCols(keys)|
    ensures var d := DisplayCols(keys);
            if "_c0" in keys
            then "_c" + Decimal(n) !in keys && (forall i: nat :: i < n ==> d[i] == "_c" + Decimal(i))
                 && Rising(d[n..]) && forall k :: k in d[n..] ==> !("_c" <= k)
            else Rising(d[..n]) && [] !in d[..n] && (d[n..] == [] || d[n..] == [[]])
  {
    hide Decimal, Less, IsCacheKey;
    var ks, cols := TextKeys(keys), FirstCols(keys);
    TextKeysAscending(keys);
    FirstColsShape(keys);
    FirstCacheKey();
    ShownIff(keys);
    AddNamedRising(cols, ks);
    NonEmptyAscending(ks);
    n := |cols|;
    var d := DisplayCols(keys);
    forall k | k in d[n..] ensures !("_c" <= k) || "_c0" !in keys {
      PrefixIsCache(k);
    }
    if "_c0" in keys {
      RunFirst(keys);
    } else {
      RestIsEmpty(keys);
    }
  }

  lemma RunFirst(keys: set<string>)
    requires "_c0" in keys
    ensures var cols := FirstCols(keys);
            && DisplayCols(keys) == AddNamed(cols, TextKeys(keys)) && "_c" + Decimal(|cols|) !in keys
            && forall i: nat :: i < |cols| ==> cols[i] == "_c" + Decimal(i)
  {
    FirstCacheKey();
    hide Decimal;
    var cols := FirstCols(keys);
    assert CacheRun(keys, 0) > 0 && cols == CacheKeys(CacheRun(keys, 0));
    assert cols[0] == CacheKey(0);
  }

  lemma RestIsEmpty(keys: set<string>)
    requires "_c0" !in keys
    ensures var d, cols := DisplayCols(keys), FirstCols(keys);
            && cols <= d && cols == NonEmpty(TextKeys(keys)) && [] !in cols && (d[|cols|..] == [] || d[|cols|..] == [[]])
  {
    FirstCacheKey();
    hide Decimal, IsCacheKey, TextKeys, AddNamed, NonEmpty;
    var d, cols := DisplayCols(keys), FirstCols(keys);
    ShownIff(keys);
    FirstColsShape(keys);
    AddNamedShape(cols, TextKeys(keys));
    var rest := d[|cols|..];
    assert cols <= d;
    forall i | 0 <= i < |rest| ensures rest[i] == [] {
      assert d[|cols| + i] in d && rest[i] == d[|cols| + i];
      NotAgain(d, cols, |cols| + i);
    }
    AtMostOne(d, |cols|);
  }

  lemma TwoDiffer(d: seq<string>, i: nat, j: nat)
    requires Distinct(d) && i < j < |d|
    ensures d[i] != d[j]
  {
  }

  lemma AtMostOne(d: seq<string>, n: nat)
    requires n <= |d| && Distinct(d) && forall i :: n <= i < |d| ==> d[i] == []
    ensures d[n..] == [] || d[n..] == [[]]
  {
    if n + 1 < |d| {
      TwoDiffer(d, n, n + 1);
    }
  }

  lemma NotAgain(d: seq<string>, cols: seq<string>, i: nat)
    requires Distinct(d) && cols <= d && |cols| <= i < |d|
    ensures d[i] !in cols
  {
    assert forall j :: 0 <= j < |cols| ==> cols[j] == d[j];
  }

  lemma FirstCacheKey()
    ensures CacheKey(0) == "_c0"
  {
    assert Decimal(0) == "0";
  }

  lemma NoDigitAfterPrefix(i: nat)
    ensures CacheKey(i) != "_cx"
  {
    hide Digits;
    DecimalOfNat(i);
    assert CacheKey(i)[2] == Digits(i)[0] && IsDigit(Digits(i)[0]);
  }

  /** Keys are lost: beside _c0 a key that starts like a cache key but is none is not shown. */
  lemma CacheLookalikeLost()
    ensures "_cx" !in DisplayCols({"_c0", "_cx"})
  {
    hide CacheKey, DisplayCols, LeastLooksCached;
    var keys := {"_c0", "_cx"};
    ShownIff(keys);
    FirstCacheKey();
    forall i: nat ensures CacheKey(i) != "_cx" {
      NoDigitAfterPrefix(i);
    }
  }

  /** Every key shown under a name of its own keeps that name as its column's name; only the empty key
      is given another. */
  lemma NamesKept(keys: set<string>, i: nat)
    requires i < |DisplayCols(keys)| && DisplayCols(keys)[i] != []
    ensures Uniquify(DisplayCols(keys))[i] == DisplayCols(keys)[i]
  {
    hide Uniquify, DisplayCols, CacheRun, CacheKey, IsCacheKey, CacheKeys, LeastLooksCached;
    var d := DisplayCols(keys);
    ShownIff(keys);
    if [] !in d {
      assert forall k :: 0 <= k < |d| ==> d[k] in d;
      KeptUpTo(d, |d|, i);
    } else {
      var p :| 0 <= p < |d| && d[p] == [];
      if CacheKey(0) in keys {
        EmptyAfterRun(keys);
        CacheRunName(keys);
        forall k | p < k < |d| ensures d[k] != Uniquify(d)[p] {
          NamedAfterRun(keys, k);
        }
      } else {
        EmptyLast(keys, p);
      }
      KeptUpTo(d, p, i);
    }
  }

  lemma EmptyAfterRun(keys: set<string>)
    requires CacheKey(0) in keys && [] in DisplayCols(keys)
    ensures var d, n := DisplayCols(keys), CacheRun(keys, 0);
            n < |d| && d[n] == [] && d[..n] == CacheKeys(n)
  {
    hide Decimal, TextKeys, AddNamed;
    var cols := FirstCols(keys);
    ShownIff(keys);
    FirstColsShape(keys);
    KeysDistinct(keys);
    AddNamedShape(cols, TextKeys(keys));
    assert cols[0] == CacheKey(0);
    assert [] !in cols;
  }

  lemma NamedAfterRun(keys: set<string>, k: nat)
    requires CacheKey(0) in keys && CacheRun(keys, 0) <= k < |DisplayCols(keys)|
    requires DisplayCols(keys)[..CacheRun(keys, 0)] == CacheKeys(CacheRun(keys, 0))
    ensures !IsCacheKey(DisplayCols(keys)[k])
  {
    var d, n := DisplayCols(keys), CacheRun(keys, 0);
    ShownIff(keys);
    assert d[k] in d;
    assert forall j :: 0 <= j < n ==> CacheKeys(n)[j] == d[..n][j] == d[j];
  }

  lemma EmptyLast(keys: set<string>, k: nat)
    requires CacheKey(0) !in keys && k < |DisplayCols(keys)| && DisplayCols(keys)[k] == []
    ensures k == |DisplayCols(keys)| - 1
  {
    hide Decimal, TextKeys, AddNamed, NonEmpty;
    var d, cols := DisplayCols(keys), FirstCols(keys);
    ShownIff(keys);
    FirstColsShape(keys);
    AddNamedShape(cols, TextKeys(keys));
    assert [] !in cols;
    assert d[|d| - 1] in d;
  }

  lemma CacheRunName(keys: set<string>)
    requires CacheKey(0) in keys && [] in DisplayCols(keys)
    ensures CacheRun(keys, 0) < |DisplayCols(keys)|
    ensures Uniquify(DisplayCols(keys))[CacheRun(keys, 0)] == CacheKey(CacheRun(keys, 0))
  {
    hide Decimal, IsCacheKey, CacheKey, Uniquify, DisplayCols;
    var d, n := DisplayCols(keys), CacheRun(keys, 0);
    var u := Uniquify(d);
    EmptyAfterRun(keys);
    ShownIff(keys);
    UniquifyAt(d, n);
    forall k | 0 <= k < n ensures u[k] != CacheKey(n) {
      RunKept(d, n, k);
      if u[k] == CacheKey(n) {
        CacheKeyInjective(k, n);
      }
    }
    assert Candidate(CacheKey(n), 0) !in u[..n];
  }

  lemma RunKept(d: seq<string>, n: nat, k: nat)
    requires k < n < |d| && Distinct(d) && d[..n] == CacheKeys(n)
    ensures Uniquify(d)[k] == CacheKey(k)
  {
    hide Uniquify, CacheKey;
    forall h | 0 <= h <= k ensures d[h] == CacheKey(h) && d[h] != [] {
      assert d[..n][h] == CacheKeys(n)[h];
    }
    KeptUpTo(d, n, k);
  }

  // ----- the table -----

  datatype Table<V> = Table(columns: seq<string>, cells: seq<seq<Option<V>>>)

  /** What SQLite answers: whether the in-memory database opens, whether the table is made, which rows
      are taken, and whether the final selection works. */
  datatype Answers = Answers(opens: bool, creates: bool, refusedRows: set<nat>, selects: bool)

  ghost predicate HoldsRow<V>(cells: seq<Option<V>>, row: Row<V>, cols: seq<string>) {
    |cells| == |cols| && forall i :: 0 <= i < |cols| ==> cells[i] == if cols[i] in row then Some(row[cols[i]]) else None
  }

  ghost predicate HoldsRows<V>(t: Table<V>, rows: seq<Row<V>>)
    requires rows != []
  {
    var cols := DisplayCols(rows[0].Keys);
    && t.columns == Uniquify(cols)
    && |t.cells| == |rows|
    && forall r :: 0 <= r < |rows| ==> HoldsRow(t.cells[r], rows[r], cols)
  }

  method BindRow<V>(row: Row<V>, displayCols: seq<string>) returns (bound: seq<Option<V>>)
    ensures HoldsRow(bound, row, displayCols)
  {
    bound := [];
    for i := 0 to |displayCols|
      invariant |bound| == i
      invariant forall k :: 0 <= k < i ==> bound[k] == ValueOf(row, displayCols[k])
    {
      bound := bound + [ValueOf(row, displayCols[i])];
    }
  }

  /** materializeRowsToSqlQuery: an empty result where anything fails, and otherwise a table with a row
      for each row and in every cell what its row holds under the key of its column. */
  method MaterializeRowsToSqlQuery<V>(rows: seq<Row<V>>, a: Answers) returns (q: Option<Table<V>>)
    ensures q.Some? <==> rows != [] && a.opens && a.creates && a.selects && forall r :: 0 <= r < |rows| ==> r !in a.refusedRows
    ensures q.Some? ==> HoldsRows(q.value, rows)
  {
    hide Uniquify, DisplayCols, HoldsRow;
    if rows == [] {
      return None;
    }
    var displayCols := InferColumns(rows[0]);
    var uniqueCols := UniqueNames(displayCols);
    if !a.opens || !a.creates {
      return None;
    }
    var cells: seq<seq<Option<V>>> := [];
    for r := 0 to |rows|
      invariant |cells| == r
      invariant forall k :: 0 <= k < r ==> k !in a.refusedRows
      invariant forall k :: 0 <= k < r ==> HoldsRow(cells[k], rows[k], displayCols)
    {
      var bound := BindRow(rows[r], displayCols);
      if r in a.refusedRows {
        return None;
      }
      cells := cells + [bound];
    }
    if !a.selects {
      return None;
    }
    q := Some(Table(uniqueCols, cells));
  }

  /** Reading a column by the name of a key that is shown gives, in every row, that row's value: there is
      one column of that name, and its cells are the values of that key. */
  lemma ReadByName<V>(t: Table<V>, rows: seq<Row<V>>, key: string)
    requires rows != [] && HoldsRows(t, rows)
    requires key != [] && key in DisplayCols(rows[0].Keys)
    ensures exists i :: 0 <= i < |t.columns| && t.columns[i] == key
              && (forall j :: 0 <= j < |t.columns| && t.columns[j] == key ==> j == i)
              && forall r :: 0 <= r < |rows| ==> |t.cells[r]| == |t.columns| && t.cells[r][i] == if key in rows[r] then Some(rows[r][key]) else None
  {
    hide Uniquify, DisplayCols;
    var d := DisplayCols(rows[0].Keys);
    var i :| 0 <= i < |d| && d[i] == key;
    NamesKept(rows[0].Keys, i);
    UniquifyDistinct(d);
  }

  /** The suffix search is needed: without _c0, an empty key is given a name that a real key may have. */
  lemma MadeUpNameTaken()
    ensures Uniquify(["_c1", ""]) == ["_c1", "_c1_1"]
  {
    var names := ["_c1", ""];
    var u := Uniquify(names);
    assert CacheKey(1) == "_c1" by { assert Decimal(1) == "1"; }
    assert Candidate("_c1", 1) == "_c1_1" by { assert Decimal(1) == "1"; }
    KeptUpTo(names, 1, 0);
    UniquifyAt(names, 1);
    assert u[..1] == ["_c1"];
    assert Candidate("_c1", 0) in u[..1] && Candidate("_c1", 1) !in u[..1];
  }
}
