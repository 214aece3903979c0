/** The threads table: naming one provider in every row, and the order by id. */
module Threads {
  import opened Wrappers
  import opened Sorting
  import opened Text

  datatype Thread = Thread(
    id: Option<string>,
    modelProvider: Option<string>,
    title: Option<string>,
    firstUserMessage: Option<string>,
    updatedAtMs: Option<int>,
    updatedAt: Option<int>)

  /** A column that is not in `columns` is never read. */
  datatype ThreadsTable = ThreadsTable(columns: set<string>, rows: seq<Thread>)

  /** COALESCE(model_provider, '') <> target */
  predicate Differs(row: Thread, target: string) {
    row.modelProvider.GetOr("") != target
  }

  function CountDiffering(rows: seq<Thread>, target: string): nat {
    if rows == [] then 0 else (if Differs(rows[0], target) then 1 else 0) + CountDiffering(rows[1..], target)
  }

  function AlignRow(row: Thread, target: string): Thread {
    if Differs(row, target) then row.(modelProvider := Some(target)) else row
  }

  function AlignRows(rows: seq<Thread>, target: string): (r: seq<Thread>)
    ensures |r| == |rows|
    ensures forall i | 0 <= i < |rows| :: r[i] == AlignRow(rows[i], target)
  {
    if rows == [] then [] else [AlignRow(rows[0], target)] + AlignRows(rows[1..], target)
  }

  /** The rows the UPDATE changes, by position. */
  function DifferingAt(table: ThreadsTable, target: string): set<nat> {
    set i: nat | i < |table.rows| && "model_provider" in table.columns && table.rows[i].modelProvider.GetOr("") != target
  }

  lemma {:induction false} CountIsPositions(table: ThreadsTable, target: string)
    requires "model_provider" in table.columns
    ensures CountDiffering(table.rows, target) == |DifferingAt(table, target)|
    decreases |table.rows|
  {
    if table.rows != [] {
      var n := |table.rows| - 1;
      var init := table.(rows := table.rows[..n]);
      CountIsPositions(init, target);
      CountLast(table.rows, target);
      LastPosition(table, target);
    } else {
      assert DifferingAt(table, target) == {};
    }
  }

  lemma LastPosition(table: ThreadsTable, target: string)
    requires "model_provider" in table.columns && table.rows != []
    ensures var n := |table.rows| - 1;
            var before := DifferingAt(table.(rows := table.rows[..n]), target);
            && n !in before
            && DifferingAt(table, target) == (if Differs(table.rows[n], target) then before + {n} else before)
  {}

  lemma {:induction false} CountLast(rows: seq<Thread>, target: string)
    requires rows != []
    ensures var n := |rows| - 1;
            CountDiffering(rows, target) == CountDiffering(rows[..n], target) + (if Differs(rows[n], target) then 1 else 0)
  {
    if |rows| > 1 {
      CountLast(rows[1..], target);
      assert rows[1..][..|rows| - 2] == rows[..|rows| - 1][1..];
    }
  }

  lemma {:induction false} NoneDiffering(rows: seq<Thread>, target: string)
    ensures CountDiffering(rows, target) == 0 <==> forall row | row in rows :: !Differs(row, target)
    ensures CountDiffering(rows, target) == 0 ==> AlignRows(rows, target) == rows
  {
    if rows != [] {
      NoneDiffering(rows[1..], target);
      assert rows == [rows[0]] + rows[1..];
    }
  }

  /** ORDER BY id, NULL first */
  predicate IdLe(a: Thread, b: Thread) {
    a.id.None? || (b.id.Some? && StringLe(a.id.value, b.id.value))
  }

  lemma IdLeIsPreorder()
    ensures TotalPreorder(IdLe)
  {
    hide StringLe;
    StringLeIsTotalOrder();
  }

  predicate AllNamed(rows: seq<Thread>) {
    forall row | row in rows :: row.id.Some?
  }

  lemma {:induction false} AlignCommutesWithInsert(row: Thread, rows: seq<Thread>, target: string)
    ensures Insert(IdLe, AlignRow(row, target), AlignRows(rows, target)) == AlignRows(Insert(IdLe, row, rows), target)
  {
    hide AlignRow, IdLe;
    AlignCons(row, rows, target);
    if rows != [] {
      SameOrder(row, rows[0], target);
      AlignCons(rows[0], Insert(IdLe, row, rows[1..]), target);
      AlignCommutesWithInsert(row, rows[1..], target);
    }
  }

  lemma AlignCons(row: Thread, rows: seq<Thread>, target: string)
    ensures AlignRows([row] + rows, target) == [AlignRow(row, target)] + AlignRows(rows, target)
  {
    hide AlignRow;
  }

  lemma SameOrder(a: Thread, b: Thread, target: string)
    ensures IdLe(AlignRow(a, target), AlignRow(b, target)) == IdLe(a, b)
  {}

  lemma {:induction false} AlignCommutesWithSort(rows: seq<Thread>, target: string)
    ensures Sort(IdLe, AlignRows(rows, target)) == AlignRows(Sort(IdLe, rows), target)
  {
    hide AlignRow, IdLe;
    if rows != [] {
      AlignCommutesWithSort(rows[1..], target);
      AlignCommutesWithInsert(rows[0], Sort(IdLe, rows[1..]), target);
    }
  }

  lemma {:induction false} AllAligned(rows: seq<Thread>, target: string)
    ensures CountDiffering(AlignRows(rows, target), target) == 0
    ensures AlignRows(AlignRows(rows, target), target) == AlignRows(rows, target)
  {
    var aligned := AlignRows(rows, target);
    forall row | row in aligned ensures !Differs(row, target) {
      var i :| 0 <= i < |aligned| && aligned[i] == row;
      assert aligned[i] == AlignRow(rows[i], target);
    }
    NoneDiffering(aligned, target);
  }
}
