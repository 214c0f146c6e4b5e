/** Inserting a list of rows in batches inside one transaction: every row once, or none at all. */
module BatchInsert {
  import opened Arithmetic
  import opened Rows
  import opened Text
  import opened Wrappers

  const BATCH_SIZE: nat := 100

  type Tuple<V> = seq<Option<V>>

  // ----- what is to be inserted -----

  /** The columns are the keys of the first row, in key order. */
  function Columns<V>(data: Row<V>): seq<string> { TextKeys(data.Keys) }

  function TupleOf<V>(data: Row<V>, columns: seq<string>): (t: Tuple<V>)
    ensures |t| == |columns|
  {
    if columns == [] then []
    else TupleOf(data, columns[..|columns| - 1]) + [ValueOf(data, columns[|columns| - 1])]
  }

  function Tuples<V>(list: seq<Row<V>>, columns: seq<string>): (ts: seq<Tuple<V>>)
    ensures |ts| == |list|
  {
    if list == [] then []
    else Tuples(list[..|list| - 1], columns) + [TupleOf(list[|list| - 1], columns)]
  }

  /** Row by row, and in each row column by column. */
  function Flatten<V>(list: seq<Row<V>>, columns: seq<string>): seq<Option<V>> {
    if list == [] then []
    else Flatten(list[..|list| - 1], columns) + TupleOf(list[|list| - 1], columns)
  }

  // ----- what a database does with a statement -----

  /** An INSERT of several groups of placeholders, one "?" for each value, and the values bound. */
  datatype Statement<V> = Statement(groups: seq<string>, values: seq<Option<V>>)

  function MarkCount(groups: seq<string>): nat {
    if groups == [] then 0 else MarkCount(groups[..|groups| - 1]) + |groups[|groups| - 1]|
  }

  /** The tuples a statement inserts: values go to placeholders in order. */
  function Inserted<V>(groups: seq<string>, values: seq<Option<V>>): (ts: seq<Tuple<V>>)
    requires MarkCount(groups) == |values|
    ensures |ts| == |groups|
  {
    if groups == [] then []
    else
      var n, k := |groups| - 1, |values| - |groups[|groups| - 1]|;
      Inserted(groups[..n], values[..k]) + [values[k..]]
  }

  function Marks(width: nat): (m: string)
    ensures |m| == width
  {
    if width == 0 then "" else Marks(width - 1) + "?"
  }

  function Groups(n: nat, width: nat): (g: seq<string>)
    ensures |g| == n
  {
    if n == 0 then [] else Groups(n - 1, width) + [Marks(width)]
  }

  /** Reading the bound values back group by group gives the tuples of the rows. */
  lemma {:induction false} FlattenReadsBack<V>(list: seq<Row<V>>, columns: seq<string>)
    ensures var g := Groups(|list|, |columns|);
            MarkCount(g) == |Flatten(list, columns)| && Inserted(g, Flatten(list, columns)) == Tuples(list, columns)
  {
    if list == [] {
    } else {
      var n := |list| - 1;
      var g := Groups(|list|, |columns|);
      FlattenReadsBack(list[..n], columns);
      assert g[..n] == Groups(n, |columns|);
      var values := Flatten(list, columns);
      var k := |values| - |columns|;
      assert values[..k] == Flatten(list[..n], columns) && values[k..] == TupleOf(list[n], columns);
    }
  }

  lemma FlattenNone<V>(columns: seq<string>)
    ensures Flatten<V>([], columns) == []
  {
  }

  lemma {:induction false} FlattenConcat<V>(a: seq<Row<V>>, b: seq<Row<V>>, columns: seq<string>)
    ensures Flatten(a + b, columns) == Flatten(a, columns) + Flatten(b, columns)
  {
    hide TupleOf;
    if b == [] {
      assert a + b == a;
    } else {
      var n := |b| - 1;
      FlattenConcat(a, b[..n], columns);
      assert (a + b)[..|a + b| - 1] == a + b[..n] && (a + b)[|a + b| - 1] == b[n];
    }
  }

  lemma {:induction false} TuplesConcat<V>(a: seq<Row<V>>, b: seq<Row<V>>, columns: seq<string>)
    ensures Tuples(a + b, columns) == Tuples(a, columns) + Tuples(b, columns)
  {
    hide TupleOf;
    if b == [] {
      assert a + b == a;
    } else {
      var n := |b| - 1;
      TuplesConcat(a, b[..n], columns);
      assert (a + b)[..|a + b| - 1] == a + b[..n] && (a + b)[|a + b| - 1] == b[n];
    }
  }

  // ----- the batches -----

  function Batches(n: nat): nat { (n + BATCH_SIZE - 1) / BATCH_SIZE }

  function From(n: nat, b: nat): (i: nat)
    ensures i <= n
  {
    Min(b * BATCH_SIZE, n)
  }

  function RowsOf<V>(list: seq<Row<V>>, b: nat): seq<Row<V>> { list[From(|list|, b)..From(|list|, b + 1)] }

  function Batch<V>(list: seq<Row<V>>, columns: seq<string>, b: nat): Statement<V>
    requires b < Batches(|list|)
  {
    Statement(Groups(|RowsOf(list, b)|, |columns|), Flatten(RowsOf(list, b), columns))
  }

  /** The values bound by the first batches, end to end. */
  function Bound<V>(list: seq<Row<V>>, columns: seq<string>, b: nat): seq<Option<V>>
    requires b <= Batches(|list|)
  {
    if b == 0 then [] else Bound(list, columns, b - 1) + Batch(list, columns, b - 1).values
  }

  lemma RowsOfStep<V>(list: seq<Row<V>>, b: nat)
    ensures list[..From(|list|, b + 1)] == list[..From(|list|, b)] + RowsOf(list, b)
  {
  }

  lemma {:induction false} BoundIsFlatten<V>(list: seq<Row<V>>, columns: seq<string>, b: nat)
    requires b <= Batches(|list|)
    ensures Bound(list, columns, b) == Flatten(list[..From(|list|, b)], columns)
  {
    hide RowsOf, Groups, Flatten;
    if b == 0 {
      assert list[..0] == [];
      FlattenNone<V>(columns);
    } else {
      BoundIsFlatten(list, columns, b - 1);
      RowsOfStep(list, b - 1);
      FlattenConcat(list[..From(|list|, b - 1)], RowsOf(list, b - 1), columns);
    }
  }

  /** The bind lists of the batches, end to end, are the row-major flattening of the whole list, and
      each batch has as many placeholders as values. */
  lemma {:induction false} BatchesCover<V>(list: seq<Row<V>>, columns: seq<string>)
    ensures Bound(list, columns, Batches(|list|)) == Flatten(list, columns)
    ensures forall b :: 0 <= b < Batches(|list|) ==>
              MarkCount(Batch(list, columns, b).groups) == |Batch(list, columns, b).values|
  {
    BoundIsFlatten(list, columns, Batches(|list|));
    assert list[..|list|] == list;
    forall b | 0 <= b < Batches(|list|)
      ensures MarkCount(Batch(list, columns, b).groups) == |Batch(list, columns, b).values|
    {
      FlattenReadsBack(RowsOf(list, b), columns);
    }
  }

  // ----- what the outside world answers -----

  datatype Start = ShuttingDown | NoConnection | ReopenFails | TransactionFails | Starts

  /** What becomes of one batch: interrupted by shutdown or timeout, not prepared, an exception while
      its values are collected, refused, or executed. */
  datatype BatchAnswer = Interrupted | PrepareFails | ValuesThrow | ExecFails | Executes

  /** How many batches are executed before the first that is not. */
  function Executed(answers: seq<BatchAnswer>): (n: nat)
    ensures n <= |answers|
    ensures forall i :: 0 <= i < n ==> answers[i].Executes?
    ensures n < |answers| ==> !answers[n].Executes?
  {
    if answers == [] || !answers[0].Executes? then 0 else 1 + Executed(answers[1..])
  }

  /** The statements executed by the first batches. */
  function Sent<V>(list: seq<Row<V>>, n: nat): seq<Statement<V>>
    requires n <= Batches(|list|)
  {
    if n == 0 then [] else Sent(list, n - 1) + [Batch(list, Columns(list[0]), n - 1)]
  }

  // ----- the insertion itself -----

  method AppendTuple<V>(before: seq<Option<V>>, data: Row<V>, columns: seq<string>) returns (values: seq<Option<V>>)
    ensures values == before + TupleOf(data, columns)
  {
    values := before;
    for k := 0 to |columns|
      invariant values == before + TupleOf(data, columns[..k])
    {
      assert columns[..k + 1][..k] == columns[..k];
      values := values + [ValueOf(data, columns[k])];
    }
    assert columns[..|columns|] == columns;
  }

  method CollectValues<V>(list: seq<Row<V>>, columns: seq<string>, from: nat, count: nat) returns (values: seq<Option<V>>)
    requires from + count <= |list|
    ensures values == Flatten(list[from..from + count], columns)
  {
    values := [];
    for j := from to from + count
      invariant values == Flatten(list[from..j], columns)
    {
      values := AppendTuple(values, list[j], columns);
      assert list[from..j + 1][..j - from] == list[from..j];
    }
  }

  class Database<V> {
    var table: seq<Tuple<V>>
    var staged: seq<Tuple<V>>
    var inTransaction: bool
    var held: int
    ghost var sent: seq<Statement<V>>

    constructor ()
      ensures table == [] && staged == [] && !inTransaction && held == 0 && sent == []
    {
      table, staged, inTransaction, held, sent := [], [], false, 0, [];
    }

    method Exec(groups: seq<string>, values: seq<Option<V>>)
      requires inTransaction && MarkCount(groups) == |values|
      modifies `staged, `sent
      ensures staged == old(staged) + Inserted(groups, values)
      ensures sent == old(sent) + [Statement(groups, values)]
    {
      staged := staged + Inserted(groups, values);
      sent := sent + [Statement(groups, values)];
    }

    method Rollback()
      modifies `staged, `inTransaction
      ensures staged == [] && !inTransaction
    {
      staged, inTransaction := [], false;
    }

    method Commit(works: bool)
      requires inTransaction
      modifies `table, `staged, `inTransaction
      ensures works ==> table == old(table) + old(staged) && staged == [] && !inTransaction
      ensures !works ==> table == old(table) && staged == old(staged) && inTransaction
    {
      if works {
        table, staged, inTransaction := table + staged, [], false;
      }
    }

    /** One turn of the loop: the statement for one batch, if nothing gets in the way. */
    method InsertBatch(list: seq<Row<V>>, columns: seq<string>, placeholders: string, b: nat, answer: BatchAnswer)
      returns (ok: bool)
      requires inTransaction && b < Batches(|list|) && placeholders == Marks(|columns|)
      modifies `staged, `sent
      ensures ok == answer.Executes?
      ensures ok ==> staged == old(staged) + Tuples(RowsOf(list, b), columns)
                     && sent == old(sent) + [Batch(list, columns, b)]
      ensures !ok ==> staged == old(staged) && sent == old(sent)
    {
      hide Flatten, Tuples, TupleOf, Marks, Inserted, MarkCount;
      if answer.Interrupted? {
        return false;
      }
      var i := b * BATCH_SIZE;
      var currentBatchSize := Min(BATCH_SIZE, |list| - i);
      var valuePlaceholders: seq<string> := [];
      for j := 0 to currentBatchSize
        invariant valuePlaceholders == Groups(j, |columns|)
      {
        valuePlaceholders := valuePlaceholders + [placeholders];
      }
      if answer.PrepareFails? {
        return false;
      }
      var values := CollectValues(list, columns, i, currentBatchSize);
      if answer.ValuesThrow? || answer.ExecFails? {
        return false;
      }
      FlattenReadsBack(RowsOf(list, b), columns);
      Exec(valuePlaceholders, values);
      return true;
    }

    /** executeBatchInsertAsync, from the moment it runs. */
    method ExecuteBatchInsert(list: seq<Row<V>>, start: Start, answers: seq<BatchAnswer>, commits: bool)
      returns (successCount: int)
      requires !inTransaction && staged == []
      requires |answers| == Batches(|list|)
      modifies this
      ensures !inTransaction && staged == [] && held == old(held)
      ensures successCount == Result(list, start, answers)
      ensures table == old(table) + Added(list, start, answers, commits)
      ensures sent == old(sent) + Sent(list, if start.Starts? then Executed(answers) else 0)
    {
      hide Batch, RowsOf, Tuples, Columns;
      successCount := 0;
      if start.ShuttingDown? || start.NoConnection? {
        return;
      }
      held := held + 1;
      if start.ReopenFails? || list == [] || start.TransactionFails? {
        held := held - 1;
        return;
      }
      inTransaction := true;
      var columns := Columns(list[0]);
      var placeholders := "";
      for k := 0 to |columns|
        invariant placeholders == Marks(k)
      {
        placeholders := placeholders + "?";
      }
      var i, b := 0, 0;
      assert list[..0] == [];
      while i < |list|
        invariant 0 <= b <= |answers| && i == b * BATCH_SIZE && b <= Executed(answers)
        invariant inTransaction && held == old(held) + 1 && table == old(table)
        invariant successCount == From(|list|, b)
        invariant staged == Tuples(list[..successCount], columns)
        invariant sent == old(sent) + Sent(list, b)
      {
        var ok := InsertBatch(list, columns, placeholders, b, answers[b]);
        if !ok {
          Rollback();
          held := held - 1;
          return;
        }
        RowsOfStep(list, b);
        TuplesConcat(list[..successCount], RowsOf(list, b), columns);
        successCount := successCount + Min(BATCH_SIZE, |list| - i);
        i := i + BATCH_SIZE;
        b := b + 1;
      }
      assert list[..|list|] == list;
      Commit(commits);
      if !commits {
        Rollback();
      }
      held := held - 1;
    }
  }

  // ----- what the caller can rely on -----

  /** The count returned: the rows of the batches executed, whatever became of the transaction. */
  function Result<V>(list: seq<Row<V>>, start: Start, answers: seq<BatchAnswer>): int {
    if start.Starts? then From(|list|, Executed(answers)) else 0
  }

  /** What the table gains. */
  function Added<V>(list: seq<Row<V>>, start: Start, answers: seq<BatchAnswer>, commits: bool): seq<Tuple<V>> {
    if start.Starts? && list != [] && Executed(answers) == |answers| && commits then Tuples(list, Columns(list[0])) else []
  }

  /** A tuple holds a row's value under each column, and an invalid variant where the row has none. */
  ghost predicate Holds<V>(t: Tuple<V>, data: Row<V>, columns: seq<string>) {
    |t| == |columns| && forall c :: 0 <= c < |t| ==> t[c] == if columns[c] in data then Some(data[columns[c]]) else None
  }

  lemma {:induction false} TupleHolds<V>(data: Row<V>, columns: seq<string>)
    ensures Holds(TupleOf(data, columns), data, columns)
  {
    if columns == [] {
    } else {
      TupleHolds(data, columns[..|columns| - 1]);
    }
  }

  /** The columns are the keys of the first row, each once, in ascending order. */
  lemma ColumnsExact<V>(data: Row<V>)
    ensures forall k :: k in Columns(data) <==> k in data
    ensures forall i, j :: 0 <= i < j < |Columns(data)| ==> Less(Columns(data)[i], Columns(data)[j])
  {
    TextKeysAscending(data.Keys);
  }

  /** Each statement inserts a hundred rows, the last one what is left, with one placeholder for each
      column in each of its groups. */
  lemma BatchSizes<V>(list: seq<Row<V>>, columns: seq<string>, b: nat)
    requires b < Batches(|list|)
    ensures var g := Batch(list, columns, b).groups;
            && |g| == (if |list| - 100 * b < 100 then |list| - 100 * b else 100)
            && forall i :: 0 <= i < |g| ==> |g[i]| == |columns| && forall j :: 0 <= j < |columns| ==> g[i][j] == '?'
  {
    GroupsExact(|RowsOf(list, b)|, |columns|);
  }

  lemma {:induction false} GroupsExact(n: nat, width: nat)
    ensures forall i :: 0 <= i < n ==> Groups(n, width)[i] == Marks(width)
    ensures forall j :: 0 <= j < width ==> Marks(width)[j] == '?'
  {
    MarksExact(width);
    if n == 0 {
    } else {
      GroupsExact(n - 1, width);
    }
  }

  lemma {:induction false} MarksExact(width: nat)
    ensures forall j :: 0 <= j < width ==> Marks(width)[j] == '?'
  {
    if width == 0 {
    } else {
      MarksExact(width - 1);
    }
  }

  /** The count returned: a hundred for each batch executed before the first that was not, and the length
      of the list if all were. */
  lemma CountReturned<V>(list: seq<Row<V>>, start: Start, answers: seq<BatchAnswer>, n: nat)
    requires |answers| == Batches(|list|) && n <= |answers|
    requires (forall i :: 0 <= i < n ==> answers[i].Executes?) && (n < |answers| ==> !answers[n].Executes?)
    ensures Result(list, start, answers) == if !start.Starts? then 0 else if n == |answers| then |list| else 100 * n
  {
    assert n == Executed(answers);
  }

  /** All or nothing: the table gains exactly one tuple for each row, in order, if everything works and
      the commit succeeds, and is unchanged otherwise. */
  lemma AllOrNothing<V>(list: seq<Row<V>>, start: Start, answers: seq<BatchAnswer>, commits: bool)
    requires |answers| == Batches(|list|)
    ensures var added := Added(list, start, answers, commits);
            if start.Starts? && commits && forall a :: a in answers ==> a.Executes?
            then |added| == |list| && forall i :: 0 <= i < |list| ==> Holds(added[i], list[i], Columns(list[0]))
            else added == []
  {
    hide TupleOf;
    if Executed(answers) < |answers| {
      assert !answers[Executed(answers)].Executes?;
    }
    forall i | 0 <= i < |list| ensures Holds(Tuples(list, Columns(list[0]))[i], list[i], Columns(list[0])) {
      TuplesAt(list, Columns(list[0]), i);
      TupleHolds(list[i], Columns(list[0]));
    }
  }

  lemma {:induction false} TuplesAt<V>(list: seq<Row<V>>, columns: seq<string>, i: nat)
    requires i < |list|
    ensures Tuples(list, columns)[i] == TupleOf(list[i], columns)
  {
    if i == |list| - 1 {
    } else {
      TuplesAt(list[..|list| - 1], columns, i);
    }
  }

  /** An exit from inside the loop returns a multiple of the batch size, smaller than the list. */
  lemma EarlyExitCount<V>(list: seq<Row<V>>, answers: seq<BatchAnswer>)
    requires |answers| == Batches(|list|) && Executed(answers) < |answers|
    ensures Result(list, Starts, answers) % 100 == 0 && Result(list, Starts, answers) < |list|
  {
  }

  /** The count is the number of rows the table gained iff the commit succeeded or no batch was
      executed: an early exit and a failed commit report rows that were rolled back. */
  lemma CountHonestIff<V>(list: seq<Row<V>>, start: Start, answers: seq<BatchAnswer>, commits: bool)
    requires |answers| == Batches(|list|)
    ensures Result(list, start, answers) == |Added(list, start, answers, commits)|
            <==> !start.Starts? || Executed(answers) == 0 || (Executed(answers) == |answers| && commits)
  {
  }

  /** A failed commit is reported as success: one row, one batch executed, nothing gained, count one. */
  lemma FailedCommitCounted<V>(data: Row<V>)
    ensures Result([data], Starts, [Executes]) == 1 && Added([data], Starts, [Executes], false) == []
  {
    assert Executed([Executes]) == 1 by { assert [Executes][1..] == []; }
  }

  /** What is stored of a row: its values under the columns it had a tuple for. */
  function Stored<V>(columns: seq<string>, t: Tuple<V>): Row<V>
    requires |t| == |columns|
  {
    if columns == [] then map[]
    else
      var n := |columns| - 1;
      if t[n].Some? then Stored(columns[..n], t[..n])[columns[n] := t[n].value] else Stored(columns[..n], t[..n])
  }

  lemma {:induction false} StoredValues<V>(columns: seq<string>, data: Row<V>)
    ensures Stored(columns, TupleOf(data, columns)) == map k | k in data && k in columns :: data[k]
  {
    if columns == [] {
    } else {
      var n := |columns| - 1;
      StoredValues(columns[..n], data);
      assert TupleOf(data, columns)[..n] == TupleOf(data, columns[..n]);
      assert columns == columns[..n] + [columns[n]];
    }
  }

  /** A row comes back from its tuple unchanged iff each of its keys is a key of the first row. */
  lemma RowSurvivesIff<V>(list: seq<Row<V>>, i: nat)
    requires i < |list|
    ensures Stored(Columns(list[0]), TupleOf(list[i], Columns(list[0]))) == list[i]
            <==> list[i].Keys <= list[0].Keys
  {
    var columns := Columns(list[0]);
    StoredValues(columns, list[i]);
    var s := Stored(columns, TupleOf(list[i], columns));
    assert s.Keys == list[i].Keys * list[0].Keys;
  }

  /** A key the first row lacks is lost: after an empty first row the second loses its only value. */
  lemma KeyLost(v: int)
    ensures var list := [map[], map["a" := v]];
            Stored(Columns(list[0]), TupleOf(list[1], Columns(list[0]))) != list[1]
  {
    RowSurvivesIff([map[], map["a" := v]], 1);
    assert "a" in map["a" := v].Keys;
  }
}
