/** The message that lists the suspicious targets: each suspicious id once, as the latest target known
    under it or as a stub that carries the id alone. */
module SuspiciousTargets {
  import opened Text
  import opened Wrappers

  datatype Target<P> = Target(targetId: string, payload: P)

  /** The ids still looked for after a stretch of targets. */
  function Remaining<P>(targets: seq<Target<P>>, ids: set<string>): set<string> {
    if targets == [] then ids
    else
      var left := Remaining(targets[..|targets| - 1], ids);
      if Trim(targets[|targets| - 1].targetId) != [] then left - {Trim(targets[|targets| - 1].targetId)} else left
  }

  /** The targets taken, in the order they come: each the first with an id that is looked for. */
  function Matched<P>(targets: seq<Target<P>>, ids: set<string>): seq<Target<P>> {
    if targets == [] then []
    else
      var n := |targets| - 1;
      var id := Trim(targets[n].targetId);
      Matched(targets[..n], ids) + (if id != [] && id in Remaining(targets[..n], ids) then [targets[n]] else [])
  }

  function Stub<P>(id: string, nothing: P): Target<P> { Target(id, nothing) }

  /** A stub for every id of a set, in whatever order the set is walked. */
  ghost predicate StubsFor<P(!new)>(stubs: seq<Target<P>>, ids: set<string>, nothing: P) {
    && |stubs| == |ids|
    && (forall i :: 0 <= i < |stubs| ==> stubs[i].targetId in ids && stubs[i] == Target(stubs[i].targetId, nothing))
    && (forall i, j :: 0 <= i < j < |stubs| ==> stubs[i].targetId != stubs[j].targetId)
  }

  method MakeStubs<P(!new)>(ids: set<string>, nothing: P) returns (stubs: seq<Target<P>>)
    ensures StubsFor(stubs, ids, nothing)
  {
    var remainingIds := ids;
    stubs := [];
    ghost var done: set<string> := {};
    while remainingIds != {}
      invariant done !! remainingIds && done + remainingIds == ids
      invariant StubsFor(stubs, done, nothing)
      decreases |remainingIds|
    {
      var id :| id in remainingIds;
      remainingIds := remainingIds - {id};
      stubs := stubs + [Stub(id, nothing)];
      done := done + {id};
    }
  }

  method AssembleTargets<P(!new)>(targets: seq<Target<P>>, ids: set<string>, nothing: P) returns (filtered: seq<Target<P>>)
    ensures var m := Matched(targets, ids);
            m <= filtered && StubsFor(filtered[|m|..], Remaining(targets, ids), nothing)
  {
    filtered := [];
    var remainingIds := ids;
    for i := 0 to |targets|
      invariant filtered == Matched(targets[..i], ids)
      invariant remainingIds == Remaining(targets[..i], ids)
    {
      var targetId := Trim(targets[i].targetId);
      assert targets[..i + 1][..i] == targets[..i];
      if targetId != [] && targetId in remainingIds {
        filtered := filtered + [targets[i]];
        remainingIds := remainingIds - {targetId};
      }
    }
    assert targets[..|targets|] == targets;
    var stubs := MakeStubs(remainingIds, nothing);
    assert (filtered + stubs)[|filtered|..] == stubs;
    filtered := filtered + stubs;
  }

  /** What must be in place, and what the merged batch and the two publishers answer. */
  datatype Surroundings<P> = Surroundings(publishDds: bool, initialized: bool, hasSource: bool,
                                          merged: Option<seq<Target<P>>>,
                                          multi: Option<bool>, single: Option<bool>)

  /** SendSuspiciousTargetMsg: the message handed to the publishers, and the number of targets in it if
      it went out, or zero. */
  method SendSuspiciousTargetMsg<P(!new)>(s: Surroundings<P>, ids: set<string>, nothing: P)
    returns (sent: int, message: seq<Target<P>>)
    ensures var sends := s.publishDds && s.initialized && s.hasSource && s.merged.Some? && ids != {}
                         && (s.multi == Some(true) || s.single == Some(true));
            sent == if sends then |ids| else 0
    ensures sent > 0 ==>
              var m := Matched(s.merged.value, ids);
              m <= message && StubsFor(message[|m|..], Remaining(s.merged.value, ids), nothing)
  {
    if !s.publishDds || !s.initialized || !s.hasSource || (s.multi.None? && s.single.None?) || ids == {} {
      return 0, [];
    }
    if s.merged.None? {
      return 0, [];
    }
    var filtered := AssembleTargets(s.merged.value, ids, nothing);
    MatchedCount(s.merged.value, ids);
    assert |filtered[|Matched(s.merged.value, ids)|..]| == |filtered| - |Matched(s.merged.value, ids)|;
    if filtered == [] {
      return 0, [];
    }
    var ok := false;
    if s.multi.Some? {
      ok := s.multi.value || ok;
    }
    if s.single.Some? {
      ok := s.single.value || ok;
    }
    if !ok {
      return 0, [];
    }
    return |filtered|, filtered;
  }

  // ----- conservation -----

  lemma {:induction false} MatchedCount<P>(targets: seq<Target<P>>, ids: set<string>)
    ensures |Matched(targets, ids)| + |Remaining(targets, ids)| == |ids|
  {
    if targets == [] {
    } else {
      MatchedCount(targets[..|targets| - 1], ids);
    }
  }

  /** An id remains iff it is suspicious and no target carries it; the empty id is never matched. */
  lemma {:induction false} RemainingIff<P>(targets: seq<Target<P>>, ids: set<string>, id: string)
    ensures id in Remaining(targets, ids)
            <==> id in ids && (id == [] || forall k :: 0 <= k < |targets| ==> Trim(targets[k].targetId) != id)
  {
    if targets == [] {
    } else {
      var n := |targets| - 1;
      RemainingIff(targets[..n], ids, id);
      assert forall k :: 0 <= k < n ==> targets[..n][k] == targets[k];
    }
  }

  /** What is taken is the first target with its id, and a suspicious id. */
  lemma {:induction false} MatchedFirst<P>(targets: seq<Target<P>>, ids: set<string>, i: nat) returns (k: nat)
    requires i < |Matched(targets, ids)|
    ensures k < |targets| && Matched(targets, ids)[i] == targets[k]
    ensures Trim(targets[k].targetId) != [] && Trim(targets[k].targetId) in ids
    ensures forall j :: 0 <= j < k ==> Trim(targets[j].targetId) != Trim(targets[k].targetId)
  {
    var n := |targets| - 1;
    if i < |Matched(targets[..n], ids)| {
      k := MatchedFirst(targets[..n], ids, i);
    } else {
      k := n;
      RemainingIff(targets[..n], ids, Trim(targets[n].targetId));
      assert forall j :: 0 <= j < n ==> targets[..n][j] == targets[j];
    }
  }

  /** The targets taken come in the order of the batch. */
  lemma {:induction false} MatchedInOrder<P>(targets: seq<Target<P>>, ids: set<string>) returns (places: seq<nat>)
    ensures |places| == |Matched(targets, ids)|
    ensures forall i, j :: 0 <= i < j < |places| ==> places[i] < places[j]
    ensures forall i :: 0 <= i < |places| ==> places[i] < |targets| && Matched(targets, ids)[i] == targets[places[i]]
  {
    if targets == [] {
      return [];
    } else {
      var n := |targets| - 1;
      var before := MatchedInOrder(targets[..n], ids);
      places := before + (if |Matched(targets, ids)| > |before| then [n] else []);
    }
  }

  lemma {:induction false} MatchedDistinct<P>(targets: seq<Target<P>>, ids: set<string>, i: nat, j: nat)
    requires i < j < |Matched(targets, ids)|
    ensures Trim(Matched(targets, ids)[i].targetId) != Trim(Matched(targets, ids)[j].targetId)
  {
    var n := |targets| - 1;
    if j < |Matched(targets[..n], ids)| {
      MatchedDistinct(targets[..n], ids, i, j);
    } else {
      var k := MatchedFirst(targets[..n], ids, i);
      RemainingIff(targets[..n], ids, Trim(targets[n].targetId));
    }
  }

  /** The id an entry of the message stands for: what a target is known by, or what its stub carries. */
  function EntryId<P>(m: nat, filtered: seq<Target<P>>, i: nat): string
    requires i < |filtered|
  {
    if i < m then Trim(filtered[i].targetId) else filtered[i].targetId
  }

  /** Every suspicious id is in the message exactly once, nothing else is, and the id is there as a
      target, the first one with it, iff it is not empty and some target carries it. */
  lemma ExactlyOnce<P(!new)>(targets: seq<Target<P>>, ids: set<string>, filtered: seq<Target<P>>, nothing: P)
    requires Matched(targets, ids) <= filtered
    requires StubsFor(filtered[|Matched(targets, ids)|..], Remaining(targets, ids), nothing)
    ensures var m := |Matched(targets, ids)|;
            && |filtered| == |ids|
            && (forall i :: 0 <= i < |filtered| ==> EntryId(m, filtered, i) in ids)
            && (forall i, j :: 0 <= i < j < |filtered| ==> EntryId(m, filtered, i) != EntryId(m, filtered, j))
            && (forall i :: 0 <= i < |filtered| ==>
                  (i < m <==> EntryId(m, filtered, i) != []
                              && exists k :: 0 <= k < |targets| && Trim(targets[k].targetId) == EntryId(m, filtered, i)))
  {
    hide Matched, Remaining, Trim;
    var taken, left := Matched(targets, ids), Remaining(targets, ids);
    var m := |taken|;
    var stubs := filtered[m..];
    MatchedCount(targets, ids);
    forall id ensures id in left <==> id in ids && (id == [] || forall k :: 0 <= k < |targets| ==> Trim(targets[k].targetId) != id) {
      RemainingIff(targets, ids, id);
    }
    forall i | 0 <= i < |filtered|
      ensures EntryId(m, filtered, i) in ids
      ensures i < m <==> EntryId(m, filtered, i) !in left
      ensures i < m <==> EntryId(m, filtered, i) != []
                         && exists k :: 0 <= k < |targets| && Trim(targets[k].targetId) == EntryId(m, filtered, i)
    {
      if i < m {
        assert filtered[i] == taken[i];
        var k := MatchedFirst(targets, ids, i);
      } else {
        assert filtered[i] == stubs[i - m];
      }
    }
    forall i, j | 0 <= i < j < |filtered| ensures EntryId(m, filtered, i) != EntryId(m, filtered, j) {
      if j < m {
        MatchedDistinct(targets, ids, i, j);
      } else if i >= m {
        assert stubs[i - m].targetId != stubs[j - m].targetId;
      }
    }
  }
}
