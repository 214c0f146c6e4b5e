/** Evaluation of identification rules: rows of one criterion are joined by "and", criteria by
    "or", rules by "or". The verdict of a non-blank row is an oracle: `holds` is the set of the row
    texts that hold for the alarm at hand. */
module IdentificationRules {
  import opened Text

  datatype Row = Row(criteriaId: string, json: string, enabled: bool)

  const DEFAULT_CRITERIA: string := "__default__"

  function CriteriaOf(r: Row): string {
    if Blank(r.criteriaId) then DEFAULT_CRITERIA else Trim(r.criteriaId)
  }

  predicate RowPasses(r: Row, holds: set<string>) { Blank(r.json) || r.json in holds }

  /** Some enabled row says something. */
  ghost predicate Constrained(rows: seq<Row>) {
    exists r :: r in rows && r.enabled && !Blank(r.json)
  }

  ghost predicate CriterionHolds(rows: seq<Row>, c: string, holds: set<string>) {
    forall r :: r in rows && r.enabled && CriteriaOf(r) == c ==> RowPasses(r, holds)
  }

  /** The disjunctive normal form: some criterion that has an enabled row has all its enabled
      rows pass. */
  ghost predicate RulePasses(rows: seq<Row>, holds: set<string>) {
    exists r :: r in rows && r.enabled && CriterionHolds(rows, CriteriaOf(r), holds)
  }

  function RowsOf(subs: map<string, seq<Row>>, rule: string): seq<Row> {
    if rule in subs then subs[rule] else []
  }

  function AreaKey(groupId: int, areaId: int): string {
    Decimal(groupId) + "_" + Decimal(areaId)
  }

  /** The rules bound to the area, and the alarm's own rule. */
  ghost predicate Applies(areaRules: map<string, seq<string>>, areaKey: string, own: string, rule: string) {
    rule == own || (areaKey in areaRules && rule in areaRules[areaKey])
  }

  ghost predicate RuleVerifies(subs: map<string, seq<Row>>, rule: string, holds: set<string>) {
    Constrained(RowsOf(subs, rule)) && RulePasses(RowsOf(subs, rule), holds)
  }

  ghost predicate AnyConstrained(areaRules: map<string, seq<string>>, subs: map<string, seq<Row>>,
                                 areaKey: string, own: string) {
    exists rule :: Applies(areaRules, areaKey, own, rule) && Constrained(RowsOf(subs, rule))
  }

  ghost predicate UnionPasses(areaRules: map<string, seq<string>>, subs: map<string, seq<Row>>,
                              areaKey: string, own: string, holds: set<string>) {
    exists rule :: Applies(areaRules, areaKey, own, rule) && RuleVerifies(subs, rule, holds)
  }

  // ----- the evaluators as they run -----

  method RuleHasDetectionConstraints(rows: seq<Row>) returns (b: bool)
    ensures b <==> Constrained(rows)
  {
    for i := 0 to |rows|
      invariant forall r :: r in rows[..i] ==> !(r.enabled && !Blank(r.json))
    {
      if rows[i].enabled && !Blank(rows[i].json) {
        return true;
      }
    }
    assert rows[..|rows|] == rows;
    return false;
  }

  method GroupByCriteria(rows: seq<Row>) returns (groups: map<string, seq<Row>>)
    ensures forall c, r :: c in groups && r in groups[c] <==> r in rows && r.enabled && CriteriaOf(r) == c
    ensures forall c :: c in groups ==> groups[c] != []
  {
    groups := map[];
    for i := 0 to |rows|
      invariant forall c, r :: c in groups && r in groups[c] <==> r in rows[..i] && r.enabled && CriteriaOf(r) == c
      invariant forall c :: c in groups ==> groups[c] != []
    {
      var r := rows[i];
      if r.enabled {
        var c := CriteriaOf(r);
        groups := groups[c := (if c in groups then groups[c] else []) + [r]];
      }
      assert rows[..i + 1] == rows[..i] + [r];
    }
    assert rows[..|rows|] == rows;
  }

  method AllRowsPass(group: seq<Row>, holds: set<string>) returns (groupOk: bool)
    ensures groupOk <==> forall r :: r in group ==> RowPasses(r, holds)
  {
    groupOk := true;
    for i := 0 to |group|
      invariant forall r :: r in group[..i] ==> RowPasses(r, holds)
    {
      if !RowPasses(group[i], holds) {
        return false;
      }
    }
    assert group[..|group|] == group;
  }

  lemma GroupHolds(rows: seq<Row>, group: seq<Row>, c: string, holds: set<string>)
    requires forall r :: r in group <==> r in rows && r.enabled && CriteriaOf(r) == c
    ensures CriterionHolds(rows, c, holds) <==> forall r :: r in group ==> RowPasses(r, holds)
  {
  }

  method EvalSingleRuleCriteriaIntersection(rows: seq<Row>, holds: set<string>) returns (b: bool)
    ensures b <==> RulePasses(rows, holds)
  {
    hide CriteriaOf, RowPasses, CriterionHolds;
    var groups := GroupByCriteria(rows);
    var todo := groups.Keys;
    while todo != {}
      invariant todo <= groups.Keys
      invariant forall c :: c in groups && c !in todo ==> !CriterionHolds(rows, c, holds)
      decreases |todo|
    {
      var c :| c in todo;
      var groupOk := AllRowsPass(groups[c], holds);
      GroupHolds(rows, groups[c], c, holds);
      if groupOk {
        assert groups[c][0] in groups[c];
        return true;
      }
      todo := todo - {c};
    }
    forall r | r in rows && r.enabled ensures !CriterionHolds(rows, CriteriaOf(r), holds) {
      assert CriteriaOf(r) in groups && r in groups[CriteriaOf(r)];
    }
    return false;
  }

  function ApplicableRules(areaRules: map<string, seq<string>>, areaKey: string, own: string): (rules: seq<string>)
    ensures forall rule :: rule in rules <==> Applies(areaRules, areaKey, own, rule)
  {
    var bound := if areaKey in areaRules then areaRules[areaKey] else [];
    if own in bound then bound else bound + [own]
  }

  ghost predicate ConstrainedUpTo(subs: map<string, seq<Row>>, rules: seq<string>, n: nat)
    requires n <= |rules|
  {
    n > 0 && (ConstrainedUpTo(subs, rules, n - 1) || Constrained(RowsOf(subs, rules[n - 1])))
  }

  ghost predicate VerifiedUpTo(subs: map<string, seq<Row>>, rules: seq<string>, n: nat, holds: set<string>)
    requires n <= |rules|
  {
    n > 0 && (VerifiedUpTo(subs, rules, n - 1, holds) || RuleVerifies(subs, rules[n - 1], holds))
  }

  lemma {:induction false} UpToIs(subs: map<string, seq<Row>>, rules: seq<string>, n: nat, holds: set<string>)
    requires n <= |rules|
    ensures ConstrainedUpTo(subs, rules, n) <==> exists j :: 0 <= j < n && Constrained(RowsOf(subs, rules[j]))
    ensures VerifiedUpTo(subs, rules, n, holds) <==> exists j :: 0 <= j < n && RuleVerifies(subs, rules[j], holds)
  {
    hide RuleVerifies, Constrained, RowsOf;
    if n == 0 {
    } else {
      UpToIs(subs, rules, n - 1, holds);
    }
  }

  lemma UpToAll(areaRules: map<string, seq<string>>, subs: map<string, seq<Row>>, areaKey: string, own: string,
                n: nat, holds: set<string>)
    requires n <= |ApplicableRules(areaRules, areaKey, own)|
    ensures var rules := ApplicableRules(areaRules, areaKey, own);
            && (VerifiedUpTo(subs, rules, n, holds) ==> UnionPasses(areaRules, subs, areaKey, own, holds))
            && (ConstrainedUpTo(subs, rules, n) ==> AnyConstrained(areaRules, subs, areaKey, own))
            && (n == |rules| && !VerifiedUpTo(subs, rules, n, holds) ==> !UnionPasses(areaRules, subs, areaKey, own, holds))
            && (n == |rules| && !ConstrainedUpTo(subs, rules, n) ==> !AnyConstrained(areaRules, subs, areaKey, own))
  {
    var rules := ApplicableRules(areaRules, areaKey, own);
    UpToIs(subs, rules, n, holds);
    forall j | 0 <= j < n ensures Applies(areaRules, areaKey, own, rules[j]) {
      assert rules[j] in rules;
    }
    forall rule | Applies(areaRules, areaKey, own, rule) ensures exists j :: 0 <= j < |rules| && rules[j] == rule {
      assert rule in rules;
    }
  }

  /** The out-flag says exactly whether some applicable rule is constrained, also when the loop is
      left early. */
  method EvalIdentificationRulesUnion(areaRules: map<string, seq<string>>, subs: map<string, seq<Row>>,
                                      areaKey: string, own: string, holds: set<string>)
    returns (pass: bool, anyConstrained: bool)
    ensures pass <==> UnionPasses(areaRules, subs, areaKey, own, holds)
    ensures anyConstrained <==> AnyConstrained(areaRules, subs, areaKey, own)
  {
    var rules := ApplicableRules(areaRules, areaKey, own);
    ghost var upTo: nat;
    pass, anyConstrained, upTo := EvalRuleList(subs, rules, holds);
    UpToAll(areaRules, subs, areaKey, own, upTo, holds);
  }

  method EvalRuleList(subs: map<string, seq<Row>>, rules: seq<string>, holds: set<string>)
    returns (pass: bool, anyConstrained: bool, ghost upTo: nat)
    ensures upTo <= |rules| && (!pass ==> upTo == |rules|) && (pass ==> anyConstrained)
    ensures pass == VerifiedUpTo(subs, rules, upTo, holds)
    ensures anyConstrained == ConstrainedUpTo(subs, rules, upTo)
  {
    anyConstrained := false;
    for i := 0 to |rules|
      invariant anyConstrained == ConstrainedUpTo(subs, rules, i)
      invariant !VerifiedUpTo(subs, rules, i, holds)
    {
      var rows := RowsOf(subs, rules[i]);
      var c := RuleHasDetectionConstraints(rows);
      if c {
        anyConstrained := true;
        var ok := EvalSingleRuleCriteriaIntersection(rows, holds);
        if ok {
          return true, true, i + 1;
        }
      }
    }
    return false, anyConstrained, |rules|;
  }

  // ----- which rows belong together, and which rules to an area -----

  /** Rows are of one criterion iff their trimmed criterion ids agree, the empty one standing for
      "__default__". */
  lemma CriteriaExact(q: Row, r: Row)
    ensures CriteriaOf(q) == CriteriaOf(r) <==>
              Trim(q.criteriaId) == Trim(r.criteriaId)
              || (Trim(q.criteriaId) in {"", "__default__"} && Trim(r.criteriaId) in {"", "__default__"})
  {
    hide Trim;
  }

  ghost predicate Together(q: Row, r: Row) {
    || Trim(q.criteriaId) == Trim(r.criteriaId)
    || (Trim(q.criteriaId) in {"", "__default__"} && Trim(r.criteriaId) in {"", "__default__"})
  }

  /** Rows of one criterion are joined by "and", different criteria are alternatives: a rule passes iff it
      has an enabled row such that every enabled row of the same criterion is blank or holds. */
  lemma RulePassesExact(rows: seq<Row>, holds: set<string>)
    ensures RulePasses(rows, holds) <==>
              exists r :: r in rows && r.enabled
                && forall q :: q in rows && q.enabled && Together(q, r) ==> Trim(q.json) == [] || q.json in holds
  {
    hide Trim, CriteriaOf;
    forall q, r ensures CriteriaOf(q) == CriteriaOf(r) <==> Together(q, r) {
      CriteriaExact(q, r);
    }
    forall r | r in rows && r.enabled
      ensures CriterionHolds(rows, CriteriaOf(r), holds) <==>
                forall q :: q in rows && q.enabled && Together(q, r) ==> Trim(q.json) == [] || q.json in holds
    {
    }
  }

  /** The key of an area is its group, an underscore and its number, and no two areas share one. */
  lemma AreaKeyInjective(groupId: int, areaId: int, otherGroup: int, otherArea: int)
    ensures Decimal(groupId) + "_" <= AreaKey(groupId, areaId)
    ensures AreaKey(groupId, areaId) == AreaKey(otherGroup, otherArea) ==> groupId == otherGroup && areaId == otherArea
  {
    hide Decimal;
    var g, h := Decimal(groupId), Decimal(otherGroup);
    var a, b := AreaKey(groupId, areaId), AreaKey(otherGroup, otherArea);
    assert a == g + "_" + Decimal(areaId) && b == h + "_" + Decimal(otherArea);
    if a == b {
      NoUnderscore(groupId);
      NoUnderscore(otherGroup);
      assert forall i :: 0 <= i < |g| ==> a[i] == g[i];
      assert forall i :: 0 <= i < |h| ==> b[i] == h[i];
      FirstUnderscore(a, |g|, |h|);
      assert a[..|g|] == g && b[..|h|] == h;
      assert a[|g| + 1..] == Decimal(areaId) && b[|h| + 1..] == Decimal(otherArea);
      DecimalInjective(groupId, otherGroup);
      DecimalInjective(areaId, otherArea);
    }
  }

  lemma FirstUnderscore(a: string, i: nat, j: nat)
    requires i < |a| && j < |a| && a[i] == '_' && a[j] == '_'
    requires (forall k :: 0 <= k < i ==> a[k] != '_') && (forall k :: 0 <= k < j ==> a[k] != '_')
    ensures i == j
  {
  }

  lemma NoUnderscore(n: int)
    ensures forall i :: 0 <= i < |Decimal(n)| ==> Decimal(n)[i] != '_'
  {
    var d := if n < 0 then Digits(-n) else Digits(n);
    assert AllDigits(d);
  }

  // ----- what the verdict does and does not depend on -----

  /** The order and the repetition of a rule's rows do not matter. */
  lemma RowOrderIrrelevant(a: seq<Row>, b: seq<Row>, holds: set<string>)
    requires forall r :: r in a <==> r in b
    ensures Constrained(a) <==> Constrained(b)
    ensures RulePasses(a, holds) <==> RulePasses(b, holds)
  {
    forall c ensures CriterionHolds(a, c, holds) <==> CriterionHolds(b, c, holds) {
    }
  }

  /** The order of the rules of an area does not matter, nor does binding the alarm's own rule
      to the area. */
  lemma RuleOrderIrrelevant(a: map<string, seq<string>>, b: map<string, seq<string>>,
                            subs: map<string, seq<Row>>, areaKey: string, own: string, holds: set<string>)
    requires areaKey in a && areaKey in b
    requires forall rule :: rule != own ==> (rule in a[areaKey] <==> rule in b[areaKey])
    ensures AnyConstrained(a, subs, areaKey, own) <==> AnyConstrained(b, subs, areaKey, own)
    ensures UnionPasses(a, subs, areaKey, own, holds) <==> UnionPasses(b, subs, areaKey, own, holds)
  {
    assert forall rule :: Applies(a, areaKey, own, rule) <==> Applies(b, areaKey, own, rule);
  }

  /** When no single row can be verified, an alarm is still verified iff some applicable
      constrained rule also has a criterion whose enabled rows are all blank. */
  lemma BlankCriterionVerifies(areaRules: map<string, seq<string>>, subs: map<string, seq<Row>>,
                               areaKey: string, own: string, holds: set<string>)
    requires holds == {}
    ensures UnionPasses(areaRules, subs, areaKey, own, holds) <==>
              exists rule, r :: Applies(areaRules, areaKey, own, rule) && Constrained(RowsOf(subs, rule))
                && r in RowsOf(subs, rule) && r.enabled
                && forall q :: q in RowsOf(subs, rule) && q.enabled && CriteriaOf(q) == CriteriaOf(r) ==> Blank(q.json)
  {
    forall rule, r | r in RowsOf(subs, rule) && r.enabled
      ensures CriterionHolds(RowsOf(subs, rule), CriteriaOf(r), holds) <==>
                forall q :: q in RowsOf(subs, rule) && q.enabled && CriteriaOf(q) == CriteriaOf(r) ==> Blank(q.json)
    {
    }
  }
}
