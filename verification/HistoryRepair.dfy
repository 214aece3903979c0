/** Bringing a profile's recorded history in line with one provider: rollout files, the threads table and the
    session index. */
module HistoryRepair {
  import opened Wrappers
  import opened Sorting
  import opened Json
  import opened Rollout
  import opened Threads
  import opened SessionIndex
  import opened IndexLines

  datatype RolloutFile = RolloutFile(path: string, content: string)

  /** `rollouts` are the .jsonl files in the order the session directories list them. */
  datatype History = History(rollouts: seq<RolloutFile>, threads: Option<ThreadsTable>, index: Option<string>)

  // ---- Rollout files

  datatype RolloutUpdate = RolloutUpdate(file: nat, content: string)

  function PatchFile(file: RolloutFile, target: string): RolloutFile {
    match PatchRollout(file.content, target)
    case Some(content) => file.(content := content)
    case None => file
  }

  function CountToPatch(rollouts: seq<RolloutFile>, target: string): nat {
    if rollouts == [] then 0 else
      (if PatchRollout(rollouts[|rollouts| - 1].content, target).Some? then 1 else 0)
      + CountToPatch(rollouts[..|rollouts| - 1], target)
  }

  lemma {:induction false} NoneToPatch(rollouts: seq<RolloutFile>, target: string)
    ensures CountToPatch(rollouts, target) == 0 <==>
            forall i | 0 <= i < |rollouts| :: PatchRollout(rollouts[i].content, target).None?
    ensures CountToPatch(rollouts, target) == 0 ==>
              forall failing :: PatchFiles(rollouts, target, failing) == rollouts
  {
    hide PatchRollout;
    if rollouts != [] {
      NoneToPatch(rollouts[..|rollouts| - 1], target);
    }
  }

  /** One update for each file with something to patch, in file order. */
  ghost predicate Collected(rollouts: seq<RolloutFile>, updates: seq<RolloutUpdate>, target: string) {
    && (forall u | u in updates ::
          u.file < |rollouts| && PatchRollout(rollouts[u.file].content, target) == Some(u.content))
    && (forall k | 0 <= k < |rollouts| && PatchRollout(rollouts[k].content, target).Some? ::
          exists j | 0 <= j < |updates| :: updates[j].file == k)
    && (forall i, j | 0 <= i < j < |updates| :: updates[i].file < updates[j].file)
  }

  method CollectRolloutUpdates(rollouts: seq<RolloutFile>, target: string) returns (updates: seq<RolloutUpdate>)
    ensures |updates| == CountToPatch(rollouts, target)
    ensures Collected(rollouts, updates, target)
  {
    hide PatchRollout;
    updates := [];
    var k := 0;
    while k < |rollouts|
      invariant 0 <= k <= |rollouts|
      invariant |updates| == CountToPatch(rollouts[..k], target)
      invariant forall u | u in updates ::
                  u.file < k && PatchRollout(rollouts[u.file].content, target) == Some(u.content)
      invariant forall i | 0 <= i < k && PatchRollout(rollouts[i].content, target).Some? ::
                  exists j | 0 <= j < |updates| :: updates[j].file == i
      invariant forall i, j | 0 <= i < j < |updates| :: updates[i].file < updates[j].file
    {
      assert rollouts[..k + 1][..k] == rollouts[..k];
      match PatchRollout(rollouts[k].content, target) {
        case Some(content) =>
          ghost var earlier := updates;
          updates := updates + [RolloutUpdate(k, content)];
          assert updates[|earlier|].file == k;
          assert forall j | 0 <= j < |earlier| :: updates[j] == earlier[j];
        case None =>
      }
      k := k + 1;
    }
    assert rollouts[..k] == rollouts;
  }

  /** The file of the `i`-th update; past the last one, the end of the list. */
  function NextFile(rollouts: seq<RolloutFile>, updates: seq<RolloutUpdate>, i: nat): nat {
    if i < |updates| then updates[i].file else |rollouts|
  }

  lemma CollectedFile(rollouts: seq<RolloutFile>, updates: seq<RolloutUpdate>, target: string, i: nat)
    requires Collected(rollouts, updates, target) && i < |updates|
    ensures updates[i].file < |rollouts|
    ensures PatchFile(rollouts[updates[i].file], target) == rollouts[updates[i].file].(content := updates[i].content)
  {
    hide PatchRollout;
    assert updates[i] in updates;
  }

  /** Between one update's file and the next there is nothing to patch. */
  lemma Uncollected(rollouts: seq<RolloutFile>, updates: seq<RolloutUpdate>, target: string, i: nat)
    requires Collected(rollouts, updates, target) && i <= |updates|
    ensures NextFile(rollouts, updates, i) <= |rollouts|
    ensures i > 0 ==> updates[i - 1].file < NextFile(rollouts, updates, i)
    ensures forall k | (if i > 0 then updates[i - 1].file + 1 else 0) <= k < NextFile(rollouts, updates, i) ::
              PatchFile(rollouts[k], target) == rollouts[k]
  {
    hide PatchRollout;
    if i < |updates| { assert updates[i] in updates; }
    if i > 0 { assert updates[i - 1] in updates; }
    forall k | (if i > 0 then updates[i - 1].file + 1 else 0) <= k < NextFile(rollouts, updates, i)
      ensures PatchRollout(rollouts[k].content, target).None?
    {
      forall j | 0 <= j < |updates| ensures updates[j].file != k {
        assert j < i - 1 || j == i - 1 || j == i || i < j;
      }
    }
  }

  // ---- The plan

  datatype Plan = Plan(rowsToUpdate: nat, missing: seq<Value>)

  /** `inspect_sqlite_repair_plan`: fails on a thread without an id, which cannot be read as text. */
  function Inspect(history: History, target: string, stamp: int -> string): Option<Plan> {
    if history.threads.None? || "id" !in history.threads.value.columns then Some(Plan(0, []))
    else
      var table := history.threads.value;
      var ordered := Sort(IdLe, table.rows);
      if !AllNamed(ordered) then None
      else
        var rowsToUpdate := if "model_provider" in table.columns then CountDiffering(table.rows, target) else 0;
        Some(Plan(rowsToUpdate, Entries(Unrecorded(ordered, IndexIds(history.index.GetOr(""))), table.columns, stamp)))
  }

  /** Nothing is left to do for `target`. */
  ghost predicate Settled(history: History, target: string, stamp: int -> string) {
    CountToPatch(history.rollouts, target) == 0 && Inspect(history, target, stamp) == Some(Plan(0, []))
  }

  // ---- The repaired history

  function PatchFiles(rollouts: seq<RolloutFile>, target: string, failing: set<string>): (r: seq<RolloutFile>)
    ensures |r| == |rollouts|
    ensures forall i | 0 <= i < |rollouts| ::
              r[i] == if rollouts[i].path in failing then rollouts[i] else PatchFile(rollouts[i], target)
  {
    seq(|rollouts|, i requires 0 <= i < |rollouts| =>
      if rollouts[i].path in failing then rollouts[i] else PatchFile(rollouts[i], target))
  }

  function AlignTable(threads: Option<ThreadsTable>, target: string): Option<ThreadsTable> {
    match threads
    case None => None
    case Some(table) =>
      if "id" in table.columns && "model_provider" in table.columns then
        Some(table.(rows := AlignRows(table.rows, target)))
      else threads
  }

  function AppendMissing(index: Option<string>, missing: seq<Value>): Option<string> {
    if missing == [] then index else Some(Closed(index.GetOr("")) + EntryLines(missing))
  }

  /** The history with every repair carried out. */
  function Repaired(history: History, target: string, stamp: int -> string): History
    requires Inspect(history, target, stamp).Some?
  {
    History(
      PatchFiles(history.rollouts, target, {}),
      AlignTable(history.threads, target),
      AppendMissing(history.index, Inspect(history, target, stamp).value.missing))
  }

  lemma AlignTableIdle(history: History, target: string, stamp: int -> string)
    requires Inspect(history, target, stamp).Some? && Inspect(history, target, stamp).value.rowsToUpdate == 0
    ensures AlignTable(history.threads, target) == history.threads
  {
    if history.threads.Some? { NoneDiffering(history.threads.value.rows, target); }
  }

  // ---- The index after a repair

  ghost function ThreadIds(rows: seq<Thread>): set<string>
    requires AllNamed(rows)
  {
    set row | row in rows :: row.id.value
  }

  /** The rows behind the plan's missing entries. */
  ghost function MissingRows(table: ThreadsTable, index: Option<string>): seq<Thread>
    requires AllNamed(Sort(IdLe, table.rows))
  {
    Unrecorded(Sort(IdLe, table.rows), IndexIds(index.GetOr("")))
  }

  /** After the entries are appended the index records its old ids and every thread, each old line unchanged. */
  lemma RepairedIndexIsComplete(history: History, target: string, stamp: int -> string)
    requires Inspect(history, target, stamp).Some?
    requires history.threads.Some? && "id" in history.threads.value.columns
    ensures var rows := history.threads.value.rows;
            var old_, new_ := history.index.GetOr(""), Repaired(history, target, stamp).index.GetOr("");
            && AllNamed(rows)
            && IndexIds(new_) == IndexIds(old_) + ThreadIds(rows)
            && |SplitInclusive(old_)| <= |SplitInclusive(new_)|
            && (forall i | 0 <= i < |SplitInclusive(old_)| ::
                  LineOf(SplitInclusive(new_)[i]) == LineOf(SplitInclusive(old_)[i]))
  {
    hide SplitInclusive, IdsOf, LineOf, EntryLines, Sort, IdLe, EntryOf, PatchFiles, AlignTable;
    var table := history.threads.value;
    var missing := MissingRows(table, history.index);
    SameMembers(Sort(IdLe, table.rows), table.rows);
    AppendedIndex(history.index.GetOr(""), missing, table.columns, stamp);
    assert IndexIds(history.index.GetOr("")) + ThreadIds(missing) == IndexIds(history.index.GetOr("")) + ThreadIds(table.rows) by {
      forall row | row in table.rows && row.id.value !in IndexIds(history.index.GetOr("")) ensures row in missing {}
    }
  }

  /** The index has caught up with a table whose threads all have ids; without such a table it is as it was. */
  ghost predicate IndexCaughtUp(before: History, after: Option<string>, stamp: int -> string, added: nat) {
    if before.threads.Some? && "id" in before.threads.value.columns && AllNamed(before.threads.value.rows)
    then ThreadsRecorded(before.threads.value, before.index.GetOr(""), after.GetOr(""), stamp, added)
    else after == before.index
  }

  lemma NamedInAnyOrder(rows: seq<Thread>)
    ensures AllNamed(Sort(IdLe, rows)) <==> AllNamed(rows)
  {
    hide Sort, IdLe;
    SameMembers(Sort(IdLe, rows), rows);
  }

  /** Carrying out the plan brings the index up to date, line by line. */
  lemma RepairCatchesUp(history: History, target: string, stamp: int -> string)
    ensures var missing := if Inspect(history, target, stamp).Some? then Inspect(history, target, stamp).value.missing else [];
            IndexCaughtUp(history, AppendMissing(history.index, missing), stamp, |missing|)
  {
    hide Sort, IdLe, IndexIds, Unrecorded, Entries, EntryLines, Closed, AreMissing, LinesAdded;
    if history.threads.Some? && "id" in history.threads.value.columns {
      var table := history.threads.value;
      NamedInAnyOrder(table.rows);
      if AllNamed(table.rows) {
        var rows := MissingRows(table, history.index);
        MissingRowsAreMissing(table, history.index.GetOr(""));
        EntriesAddLines(history.index.GetOr(""), rows, table.columns, stamp);
        if rows == [] { NoLinesAdded(history.index.GetOr(""), table.columns, stamp); }
      }
    }
  }

  lemma NoLinesAdded(content: string, columns: set<string>, stamp: int -> string)
    ensures LinesAdded(content, content, [], columns, stamp)
  {
    hide SplitInclusive;
  }

  /** The steps that may fail; `rollouts` holds the files whose backup or write fails. */
  datatype Faults = Faults(
    migration: bool,
    readRollouts: bool,
    inspect: bool,
    backupDirectory: bool,
    rollouts: set<string>,
    threads: bool,
    index: bool,
    manifest: bool,
    prune: bool)

  datatype Warning =
    | Migration
    | NoProfile
    | ReadRollouts
    | InspectThreads
    | BackupDirectory
    | Skipped
    | WriteRollout(path: string)
    | UpdateThreads
    | AppendIndex
    | Manifest
    | Prune

  datatype Summary = Summary(
    changedRollouts: nat,
    updatedRows: nat,
    addedEntries: nat,
    backedUp: bool,
    warnings: seq<Warning>)

  /** What a run leaves behind: some of the files patched, the table and the index each repaired or as they were. */
  ghost predicate PartlyRepaired(before: History, after: History, target: string, stamp: int -> string) {
    && (exists failing :: after.rollouts == PatchFiles(before.rollouts, target, failing))
    && (after.threads == before.threads || after.threads == AlignTable(before.threads, target))
    && (|| after.index == before.index
        || (&& Inspect(before, target, stamp).Some?
            && after.index == AppendMissing(before.index, Inspect(before, target, stamp).value.missing)))
  }

  /** The entries are appended in id order, one for every thread the index did not record. */
  lemma MissingInIdOrder(history: History, target: string, stamp: int -> string) returns (rows: seq<Thread>)
    requires Inspect(history, target, stamp).Some?
    requires history.threads.Some? && "id" in history.threads.value.columns
    ensures SortedBy(IdLe, rows)
    ensures AllNamed(rows)
    ensures forall row | row in rows ::
              row in history.threads.value.rows && row.id.value !in IndexIds(history.index.GetOr(""))
    ensures forall row | row in history.threads.value.rows && row.id.Some? && row !in rows ::
              row.id.value in IndexIds(history.index.GetOr(""))
    ensures Inspect(history, target, stamp).value.missing == Entries(rows, history.threads.value.columns, stamp)
  {
    hide IndexIds, TotalPreorder, SortedBy, Sort, IdLe, EntryOf;
    var table := history.threads.value;
    IdLeIsPreorder();
    SortSorts(IdLe, table.rows);
    SameMembers(Sort(IdLe, table.rows), table.rows);
    rows := MissingRows(table, history.index);
    UnrecordedKeepsOrder(Sort(IdLe, table.rows), IndexIds(history.index.GetOr("")));
  }

  // ---- Running the repair again

  lemma PatchFileTwice(file: RolloutFile, target: string)
    ensures PatchRollout(PatchFile(file, target).content, target).None?
    ensures PatchFile(PatchFile(file, target), target) == PatchFile(file, target)
  {
    hide PatchRollout;
    PatchReachesFixpoint(file.content, target);
  }

  lemma PatchFilesTwice(rollouts: seq<RolloutFile>, target: string, failing: set<string>)
    ensures PatchFiles(PatchFiles(rollouts, target, failing), target, {}) == PatchFiles(rollouts, target, {})
    ensures CountToPatch(PatchFiles(rollouts, target, {}), target) == 0
  {
    hide PatchRollout, PatchFile, CountToPatch;
    forall i | 0 <= i < |rollouts|
      ensures PatchFile(PatchFile(rollouts[i], target), target) == PatchFile(rollouts[i], target)
      ensures PatchRollout(PatchFiles(rollouts, target, {})[i].content, target).None?
    {
      PatchFileTwice(rollouts[i], target);
    }
    NoneToPatch(PatchFiles(rollouts, target, {}), target);
  }

  /** Aligning the table does not change which entries are missing. */
  lemma AlignedInspection(history: History, target: string, stamp: int -> string)
    requires Inspect(history, target, stamp).Some?
    ensures var aligned := Inspect(history.(threads := AlignTable(history.threads, target)), target, stamp);
            aligned == Some(Plan(0, Inspect(history, target, stamp).value.missing))
    ensures AlignTable(AlignTable(history.threads, target), target) == AlignTable(history.threads, target)
  {
    hide Sort, IdLe, AlignRows, IndexIds, Entries, Unrecorded, CountDiffering;
    if history.threads.Some? && "id" in history.threads.value.columns {
      var table := history.threads.value;
      AllAligned(table.rows, target);
      AlignCommutesWithSort(table.rows, target);
      SameEntries(Sort(IdLe, table.rows), IndexIds(history.index.GetOr("")), table.columns, stamp, target);
    }
  }

  /** Once the missing entries are appended none is missing; the provider column is not involved. */
  lemma AppendedInspection(history: History, target: string, stamp: int -> string)
    requires Inspect(history, target, stamp).Some?
    ensures var plan := Inspect(history, target, stamp).value;
            Inspect(history.(index := AppendMissing(history.index, plan.missing)), target, stamp) ==
            Some(plan.(missing := []))
  {
    hide IndexIds, EntryLines, Closed;
    if history.threads.Some? && "id" in history.threads.value.columns {
      var table := history.threads.value;
      var ordered := Sort(IdLe, table.rows);
      SameMembers(ordered, table.rows);
      var index := AppendMissing(history.index, Inspect(history, target, stamp).value.missing);
      AppendedIndex(history.index.GetOr(""), MissingRows(table, history.index), table.columns, stamp);
      forall row | row in ordered ensures row.id.value in IndexIds(index.GetOr("")) {
        if row.id.value !in IndexIds(history.index.GetOr("")) {
          assert row in MissingRows(table, history.index);
        }
      }
      AllRecorded(ordered, IndexIds(index.GetOr("")));
    }
  }

  /** A clean run after a run that failed anywhere gives what a clean run at first would have given. */
  lemma RetryCompletesRepair(before: History, after: History, target: string, stamp: int -> string)
    requires Inspect(before, target, stamp).Some? && PartlyRepaired(before, after, target, stamp)
    ensures Inspect(after, target, stamp).Some?
    ensures Repaired(after, target, stamp) == Repaired(before, target, stamp)
  {
    hide Inspect, AlignTable, AppendMissing;
    var failing :| after.rollouts == PatchFiles(before.rollouts, target, failing);
    PatchFilesTwice(before.rollouts, target, failing);
    InspectIgnoresRollouts(before, after, target, stamp);
    AlignedInspection(before, target, stamp);
    AppendedInspection(before, target, stamp);
    AppendedInspection(before.(threads := AlignTable(before.threads, target)), target, stamp);
    NothingMissing(after.index);
  }

  lemma NothingMissing(index: Option<string>)
    ensures AppendMissing(index, []) == index
  {}

  lemma InspectIgnoresRollouts(before: History, after: History, target: string, stamp: int -> string)
    ensures Inspect(after, target, stamp) ==
            Inspect(before.(threads := after.threads, index := after.index), target, stamp)
    ensures before.(threads := before.threads) == before && before.(index := before.index) == before
  {}

  /** A run without warnings reaches a fixpoint: a second run finds no rollout to patch, no row to update and no
      entry to add. */
  lemma RepairReachesFixpoint(history: History, target: string, stamp: int -> string)
    requires Inspect(history, target, stamp).Some?
    ensures Settled(Repaired(history, target, stamp), target, stamp)
    ensures Repaired(Repaired(history, target, stamp), target, stamp) == Repaired(history, target, stamp)
  {
    hide Inspect, AlignTable, AppendMissing, PatchFiles;
    var repaired := Repaired(history, target, stamp);
    PatchFilesTwice(history.rollouts, target, {});
    InspectIgnoresRollouts(history, repaired, target, stamp);
    AlignedInspection(history, target, stamp);
    AppendedInspection(history.(threads := AlignTable(history.threads, target)), target, stamp);
    RetryCompletesRepair(history, repaired, target, stamp);
  }

  const NO_FAULTS := Faults(false, false, false, false, {}, false, false, false, false)

  /** A run that reports no warning has carried out the whole repair and says how much it changed. */
  ghost predicate CleanRun(before: History, after: History, summary: Summary, target: string, stamp: int -> string) {
    && Inspect(before, target, stamp).Some?
    && after == Repaired(before, target, stamp)
    && summary.changedRollouts == CountToPatch(before.rollouts, target)
    && summary.updatedRows == Inspect(before, target, stamp).value.rowsToUpdate
    && summary.addedEntries == |Inspect(before, target, stamp).value.missing|
  }

  lemma UntouchedIsPartlyRepaired(history: History, target: string, stamp: int -> string)
    ensures PartlyRepaired(history, history, target, stamp)
  {
    hide PatchFile, AlignTable, Inspect;
    var everyPath := set file | file in history.rollouts :: file.path;
    assert history.rollouts == PatchFiles(history.rollouts, target, everyPath);
  }

  /** What an empty plan leaves alone is already repaired. */
  lemma NothingPlanned(history: History, plan: Plan, target: string, stamp: int -> string)
    ensures CountToPatch(history.rollouts, target) == 0 ==>
              forall failing :: PatchFiles(history.rollouts, target, failing) == history.rollouts
    ensures Inspect(history, target, stamp) == Some(plan) && plan.rowsToUpdate == 0 ==>
              AlignTable(history.threads, target) == history.threads
    ensures plan.missing == [] ==> AppendMissing(history.index, plan.missing) == history.index
  {
    hide Inspect, AlignTable, CountToPatch, PatchFiles;
    NoneToPatch(history.rollouts, target);
    if Inspect(history, target, stamp) == Some(plan) && plan.rowsToUpdate == 0 {
      AlignTableIdle(history, target, stamp);
    }
  }

  /** The table holds `n` rows that the UPDATE will change. */
  ghost predicate Counted(threads: Option<ThreadsTable>, target: string, n: nat) {
    && threads.Some?
    && {"id", "model_provider"} <= threads.value.columns
    && CountDiffering(threads.value.rows, target) == n
  }

  lemma PlannedRowsAreCounted(history: History, plan: Plan, target: string, stamp: int -> string)
    ensures Inspect(history, target, stamp) == Some(plan) && plan.rowsToUpdate > 0 ==>
              Counted(history.threads, target, plan.rowsToUpdate)
  {
    hide CountDiffering, Sort, Entries, Unrecorded, IndexIds;
  }

  /** What the UPDATE leaves, row by row, is the aligned table. */
  lemma UpdatedIsAligned(before: Option<ThreadsTable>, after: Option<ThreadsTable>, target: string)
    requires before.Some? && {"id", "model_provider"} <= before.value.columns && after.Some?
    requires after.value.columns == before.value.columns && |after.value.rows| == |before.value.rows|
    requires forall i | 0 <= i < |after.value.rows| ::
               after.value.rows[i] ==
               if i in DifferingAt(before.value, target)
               then before.value.rows[i].(modelProvider := Some(target)) else before.value.rows[i]
    ensures after == AlignTable(before, target)
    ensures |DifferingAt(before.value, target)| == CountDiffering(before.value.rows, target)
  {
    CountIsPositions(before.value, target);
    assert after.value.rows == AlignRows(before.value.rows, target);
  }

  lemma PartlyRepairedByParts(
    before: History, after: History, plan: Plan, target: string, stamp: int -> string, faults: Faults)
    requires after.rollouts == before.rollouts || after.rollouts == PatchFiles(before.rollouts, target, faults.rollouts)
    requires after.threads == before.threads || after.threads == AlignTable(before.threads, target)
    requires after.index == before.index || after.index == AppendMissing(before.index, plan.missing)
    requires Inspect(before, target, stamp) == Some(plan) || plan.missing == []
    ensures PartlyRepaired(before, after, target, stamp)
  {
    hide Inspect, AlignTable, PatchFiles;
    UntouchedIsPartlyRepaired(before, target, stamp);
    if after.rollouts != before.rollouts {
      assert after.rollouts == PatchFiles(before.rollouts, target, faults.rollouts);
    }
  }

  class CodexProfile {
    var present: bool
    var rollouts: seq<RolloutFile>
    var threads: Option<ThreadsTable>
    var index: Option<string>
    var backupsMade: nat

    constructor (present: bool, history: History)
      ensures this.present == present && Contents() == history && backupsMade == 0
    {
      this.present := present;
      rollouts := history.rollouts;
      threads := history.threads;
      index := history.index;
      backupsMade := 0;
    }

    function Contents(): History
      reads this
    {
      History(rollouts, threads, index)
    }

    /** Writes the collected updates one by one; a file whose backup or write fails stays as it was. */
    method WriteRollouts(updates: seq<RolloutUpdate>, ghost target: string, failing: set<string>)
      returns (changed: nat, warnings: seq<Warning>)
      requires Collected(rollouts, updates, target)
      modifies `rollouts
      ensures rollouts == PatchFiles(old(rollouts), target, failing)
      ensures changed + |warnings| == |updates|
      ensures warnings == [] ==> rollouts == PatchFiles(old(rollouts), target, {})
      ensures failing == {} ==> warnings == []
    {
      hide PatchRollout, PatchFile, Collected;
      changed, warnings := 0, [];
      var i := 0;
      ghost var before := rollouts;
      Uncollected(before, updates, target, 0);
      while i < |updates|
        invariant 0 <= i <= |updates|
        invariant |rollouts| == |before| && changed + |warnings| == i
        invariant NextFile(before, updates, i) <= |before|
        invariant forall k | 0 <= k < NextFile(before, updates, i) :: rollouts[k] ==
                    if before[k].path in failing then before[k] else PatchFile(before[k], target)
        invariant forall k | NextFile(before, updates, i) <= k < |before| :: rollouts[k] == before[k]
        invariant failing == {} ==> warnings == []
        invariant warnings == [] ==> forall k | 0 <= k < NextFile(before, updates, i) ::
                    before[k].path in failing ==> PatchFile(before[k], target) == before[k]
      {
        var u := updates[i];
        CollectedFile(before, updates, target, i);
        Uncollected(before, updates, target, i + 1);
        if rollouts[u.file].path in failing {
          warnings := warnings + [WriteRollout(rollouts[u.file].path)];
        } else {
          rollouts := rollouts[u.file := rollouts[u.file].(content := u.content)];
          changed := changed + 1;
        }
        i := i + 1;
      }
    }

    /** `update_sqlite_provider`, which looks for its own column only: every row whose provider is not the target gets
        it, every other row and every other column stays, and the rows changed are counted. */
    method UpdateProviders(target: string) returns (updated: nat)
      modifies `threads
      ensures threads.Some? <==> old(threads).Some?
      ensures threads.None? ==> updated == 0
      ensures threads.Some? ==>
                && threads.value.columns == old(threads).value.columns
                && |threads.value.rows| == |old(threads).value.rows|
                && updated == |DifferingAt(old(threads).value, target)|
      ensures threads.Some? ==>
                forall i | 0 <= i < |threads.value.rows| ::
                  threads.value.rows[i] ==
                  if i in DifferingAt(old(threads).value, target)
                  then old(threads).value.rows[i].(modelProvider := Some(target))
                  else old(threads).value.rows[i]
    {
      updated := 0;
      if threads.Some? && "model_provider" in threads.value.columns {
        CountIsPositions(threads.value, target);
        updated := CountDiffering(threads.value.rows, target);
        threads := Some(threads.value.(rows := AlignRows(threads.value.rows, target)));
      }
    }

    /** The writes of a repair, each after its own backup: rollouts, then the table, then the index. */
    method ApplyRepairs(updates: seq<RolloutUpdate>, plan: Plan, target: string, faults: Faults)
      returns (summary: Summary)
      requires faults.readRollouts ==> updates == []
      requires !faults.readRollouts ==> Collected(rollouts, updates, target)
      requires plan.rowsToUpdate > 0 ==> Counted(threads, target, plan.rowsToUpdate)
      modifies `rollouts, `threads, `index
      ensures rollouts == if faults.readRollouts then old(rollouts) else PatchFiles(old(rollouts), target, faults.rollouts)
      ensures threads ==
              if plan.rowsToUpdate > 0 && !faults.threads then AlignTable(old(threads), target) else old(threads)
      ensures index == if faults.index then old(index) else AppendMissing(old(index), plan.missing)
      ensures summary.backedUp
      ensures summary.warnings == [] ==>
                && (!faults.readRollouts ==> rollouts == PatchFiles(old(rollouts), target, {}))
                && threads == (if plan.rowsToUpdate > 0 then AlignTable(old(threads), target) else old(threads))
                && index == AppendMissing(old(index), plan.missing)
                && summary.changedRollouts == |updates|
                && summary.updatedRows == plan.rowsToUpdate
                && summary.addedEntries == |plan.missing|
      ensures faults == NO_FAULTS ==> summary.warnings == []
    {
      hide PatchRollout, EntryLines, Closed, AlignRows, CountDiffering, PatchFiles;
      var changedRollouts, updatedRows, addedEntries, warnings := 0, 0, 0, [];
      if !faults.readRollouts {
        changedRollouts, warnings := WriteRollouts(updates, target, faults.rollouts);
      }
      if plan.rowsToUpdate > 0 {
        if faults.threads {
          warnings := warnings + [UpdateThreads];
        } else {
          ghost var before := threads;
          updatedRows := UpdateProviders(target);
          UpdatedIsAligned(before, threads, target);
        }
      }
      if plan.missing != [] {
        if faults.index {
          warnings := warnings + [AppendIndex];
        } else {
          var content;
          content, addedEntries := AppendSessionIndexEntries(index, plan.missing);
          index := Some(content);
        }
      }
      if faults.manifest { warnings := warnings + [Manifest]; }
      if faults.prune { warnings := warnings + [Prune]; }
      summary := Summary(changedRollouts, updatedRows, addedEntries, true, warnings);
    }

    /** `repair_history_for_provider` */
    method RepairHistory(target: string, stamp: int -> string, faults: Faults) returns (summary: Summary)
      modifies this
      ensures present == old(present)
      ensures PartlyRepaired(old(Contents()), Contents(), target, stamp)
      ensures summary.warnings == [] ==> CleanRun(old(Contents()), Contents(), summary, target, stamp)
      ensures present && faults == NO_FAULTS && Inspect(old(Contents()), target, stamp).Some? ==> summary.warnings == []
      ensures summary.backedUp ==>
                && (!faults.readRollouts ==> rollouts == PatchFiles(old(rollouts), target, faults.rollouts))
                && (!faults.inspect && Inspect(old(Contents()), target, stamp).Some? ==>
                      && (!faults.threads ==> threads == AlignTable(old(threads), target))
                      && (!faults.index ==>
                            index == AppendMissing(old(index), Inspect(old(Contents()), target, stamp).value.missing)))
      ensures !summary.backedUp ==> Contents() == old(Contents())
      ensures backupsMade == old(backupsMade) + if summary.backedUp then 1 else 0
      // The index, in terms of the threads' columns.
      ensures summary.warnings == [] ==> IndexCaughtUp(old(Contents()), index, stamp, summary.addedEntries)
      ensures summary.backedUp && !faults.inspect && !faults.index ==>
                exists added: nat :: IndexCaughtUp(old(Contents()), index, stamp, added)
      ensures Settled(old(Contents()), target, stamp) ==>
                !summary.backedUp && summary.changedRollouts == summary.updatedRows == summary.addedEntries == 0
    {
      hide PatchRollout, CountToPatch, Inspect, AlignTable, AppendMissing, PartlyRepaired, PatchFiles, Counted, IndexCaughtUp;
      ghost var before := Contents();
      RepairCatchesUp(before, target, stamp);
      var warnings := if faults.migration then [Migration] else [];
      if !present {
        UntouchedIsPartlyRepaired(before, target, stamp);
        return Summary(0, 0, 0, false, warnings + [NoProfile]);
      }
      var updates := [];
      if faults.readRollouts {
        warnings := warnings + [ReadRollouts];
      } else {
        updates := CollectRolloutUpdates(rollouts, target);
      }
      var plan := Plan(0, []);
      var inspected := if faults.inspect then None else Inspect(Contents(), target, stamp);
      match inspected {
        case Some(p) => plan := p;
        case None => warnings := warnings + [InspectThreads];
      }
      NothingPlanned(before, plan, target, stamp);
      PlannedRowsAreCounted(before, plan, target, stamp);
      var needsBackup := updates != [] || plan.rowsToUpdate > 0 || plan.missing != [];
      if !needsBackup {
        UntouchedIsPartlyRepaired(before, target, stamp);
        return Summary(0, 0, 0, false, warnings);
      }
      if faults.backupDirectory {
        UntouchedIsPartlyRepaired(before, target, stamp);
        return Summary(0, 0, 0, false, warnings + [BackupDirectory, Skipped]);
      }
      backupsMade := backupsMade + 1;
      summary := ApplyRepairs(updates, plan, target, faults);
      summary := summary.(warnings := warnings + summary.warnings);
      PartlyRepairedByParts(before, Contents(), plan, target, stamp, faults);
    }
  }
}
