/** Retention of history backups: at most three fresh ones a profile, and always the newest. */
module HistoryBackups {
  import opened Numbers
  import opened Sorting
  import opened Text

  const MAX_HISTORY_BACKUPS_PER_PROFILE: nat := 3
  const MIN_HISTORY_BACKUPS_PER_PROFILE: nat := 1
  const MAX_HISTORY_BACKUP_AGE_DAYS: nat := 7

  datatype BackupDir = BackupDir(path: string, modified: int, bytes: nat)

  predicate NewerFirst(a: BackupDir, b: BackupDir) {
    a.modified > b.modified || (a.modified == b.modified && StringLe(b.path, a.path))
  }

  ghost predicate DistinctPaths(dirs: seq<BackupDir>) {
    forall i, j | 0 <= i < j < |dirs| :: dirs[i].path != dirs[j].path
  }

  /** The retention rule for the directory at position `i`, newest first. */
  predicate Retained(sorted: seq<BackupDir>, cutoff: int, i: nat)
    requires i < |sorted|
  {
    i < MIN_HISTORY_BACKUPS_PER_PROFILE || (i < MAX_HISTORY_BACKUPS_PER_PROFILE && sorted[i].modified >= cutoff)
  }

  /** The paths among the first `n` that the rule gives up and the file system lets go. */
  function Removed(sorted: seq<BackupDir>, cutoff: int, removable: string -> bool, n: nat): set<string>
    requires n <= |sorted|
  {
    set i | 0 <= i < n && !Retained(sorted, cutoff, i) && removable(sorted[i].path) :: sorted[i].path
  }

  function Drop(dirs: seq<BackupDir>, paths: set<string>): seq<BackupDir> {
    if dirs == [] then [] else (if dirs[0].path in paths then [] else [dirs[0]]) + Drop(dirs[1..], paths)
  }

  function Pruned(dirs: seq<BackupDir>, cutoff: int, removable: string -> bool): seq<BackupDir> {
    var sorted := Sort(NewerFirst, dirs);
    Drop(dirs, Removed(sorted, cutoff, removable, |sorted|))
  }

  /** The backups changed later than `d`, and those of the same time whose path sorts behind its path. */
  ghost function Ahead(dirs: seq<BackupDir>, d: BackupDir): set<BackupDir> {
    set e | e in dirs && IsAhead(e, d)
  }

  ghost predicate IsAhead(e: BackupDir, d: BackupDir) {
    e.modified > d.modified || (e.modified == d.modified && exists k: nat :: BelowFrom(d.path, e.path, k))
  }

  /** The newest backup stays, and the next two if changed in the last seven days. */
  ghost predicate Kept(dirs: seq<BackupDir>, now: int, d: BackupDir) {
    d in dirs && (|Ahead(dirs, d)| < 1 || (|Ahead(dirs, d)| < 3 && d.modified >= now - 7 * 24 * 60 * 60))
  }

  class BackupRoot {
    /** The directories under the root, in the order the file system lists them. */
    var dirs: seq<BackupDir>

    constructor (dirs: seq<BackupDir>)
      ensures this.dirs == dirs
    {
      this.dirs := dirs;
    }

    method RemoveDirAll(path: string, removable: string -> bool) returns (ok: bool)
      modifies this
      ensures ok == removable(path)
      ensures dirs == if ok then Drop(old(dirs), {path}) else old(dirs)
    {
      ok := removable(path);
      if ok {
        dirs := Drop(dirs, {path});
      }
    }

    method Prune(now: int, removable: string -> bool) returns (warnings: nat)
      modifies this
      ensures var cutoff := now - MAX_HISTORY_BACKUP_AGE_DAYS * 86400;
              dirs == Pruned(old(dirs), cutoff, removable)
      ensures DistinctPaths(old(dirs)) ==>
                forall d :: d in dirs <==> Kept(old(dirs), now, d) || (d in old(dirs) && !removable(d.path))
      ensures (forall path :: removable(path)) ==> warnings == 0
    {
      hide Sort, NewerFirst, Drop, Retained, Kept, DistinctPaths;
      if DistinctPaths(dirs) { PrunedAreKept(dirs, now, removable); }
      var sorted := Sort(NewerFirst, dirs);
      var cutoff := now - MAX_HISTORY_BACKUP_AGE_DAYS * 86400;
      warnings := 0;
      DropNothing(dirs);
      assert Removed(sorted, cutoff, removable, 0) == {};
      for i := 0 to |sorted|
        invariant dirs == Drop(old(dirs), Removed(sorted, cutoff, removable, i))
        invariant (forall path :: removable(path)) ==> warnings == 0
      {
        ghost var before := Removed(sorted, cutoff, removable, i);
        DropTwice(old(dirs), before, {sorted[i].path});
        RemovedStep(sorted, cutoff, removable, i);
        if Retained(sorted, cutoff, i) {
          assert Removed(sorted, cutoff, removable, i + 1) == before;
          continue;
        }
        var ok := RemoveDirAll(sorted[i].path, removable);
        if !ok {
          assert Removed(sorted, cutoff, removable, i + 1) == before;
          warnings := warnings + 1;
        }
      }
    }
  }

  lemma RemovedStep(sorted: seq<BackupDir>, cutoff: int, removable: string -> bool, i: nat)
    requires i < |sorted|
    ensures Removed(sorted, cutoff, removable, i + 1) ==
            Removed(sorted, cutoff, removable, i) +
            (if !Retained(sorted, cutoff, i) && removable(sorted[i].path) then {sorted[i].path} else {})
  {}

  lemma {:induction false} DropNothing(dirs: seq<BackupDir>)
    ensures Drop(dirs, {}) == dirs
  {
    if dirs != [] {
      DropNothing(dirs[1..]);
      assert dirs == [dirs[0]] + dirs[1..];
    }
  }

  lemma {:induction false} DropTwice(dirs: seq<BackupDir>, a: set<string>, b: set<string>)
    ensures Drop(Drop(dirs, a), b) == Drop(dirs, a + b)
  {
    if dirs != [] {
      DropTwice(dirs[1..], a, b);
      var tail := Drop(dirs[1..], a);
      assert ([dirs[0]] + tail)[1..] == tail && [] + tail == tail;
    }
  }

  lemma {:induction false} DropMembers(dirs: seq<BackupDir>, paths: set<string>)
    ensures forall d | d in Drop(dirs, paths) :: d in dirs && d.path !in paths
    ensures forall d | d in dirs && d.path !in paths :: d in Drop(dirs, paths)
  {
    if dirs != [] {
      DropMembers(dirs[1..], paths);
      assert dirs == [dirs[0]] + dirs[1..];
    }
  }

  lemma {:induction false} DropKeepsDistinct(dirs: seq<BackupDir>, paths: set<string>)
    requires DistinctPaths(dirs)
    ensures DistinctPaths(Drop(dirs, paths))
  {
    if dirs != [] {
      var tail := Drop(dirs[1..], paths);
      DropKeepsDistinct(dirs[1..], paths);
      DropMembers(dirs[1..], paths);
      forall d | d in tail ensures d.path != dirs[0].path {
        var k :| 0 <= k < |dirs[1..]| && dirs[1..][k] == d;
        assert d == dirs[k + 1];
      }
      DistinctInFront(dirs[0], tail);
    }
  }

  lemma DistinctInFront(first: BackupDir, rest: seq<BackupDir>)
    requires DistinctPaths(rest) && forall d | d in rest :: d.path != first.path
    ensures DistinctPaths([first] + rest)
  {
    var all := [first] + rest;
    forall i, j | 0 <= i < j < |all| ensures all[i].path != all[j].path {
      assert all[j] == rest[j - 1] && all[j] in rest;
      assert i > 0 ==> all[i] == rest[i - 1];
    }
  }

  // ---- The retention policy

  function Fresh(dirs: seq<BackupDir>, cutoff: int): nat {
    if dirs == [] then 0 else (if dirs[0].modified >= cutoff then 1 else 0) + Fresh(dirs[1..], cutoff)
  }

  /** How many backups are to be left: the fresh ones up to three, but at least one if there is any. */
  function KeepCount(dirs: seq<BackupDir>, cutoff: int): nat {
    var capped := Min(MAX_HISTORY_BACKUPS_PER_PROFILE, Fresh(dirs, cutoff));
    Min(|dirs|, if capped < MIN_HISTORY_BACKUPS_PER_PROFILE then MIN_HISTORY_BACKUPS_PER_PROFILE else capped)
  }

  lemma NewerFirstIsTotal()
    ensures TotalPreorder(NewerFirst)
  {
    StringLeIsTotalOrder();
    forall a: BackupDir, b: BackupDir ensures NewerFirst(a, b) || NewerFirst(b, a) {
      assert StringLe(a.path, b.path) || StringLe(b.path, a.path);
    }
    forall a: BackupDir, b: BackupDir, c: BackupDir | NewerFirst(a, b) && NewerFirst(b, c) ensures NewerFirst(a, c) {
      if a.modified == b.modified == c.modified {
        assert StringLe(c.path, b.path) && StringLe(b.path, a.path);
      }
    }
  }

  lemma {:induction false} FreshOfInsert(d: BackupDir, dirs: seq<BackupDir>, cutoff: int)
    ensures Fresh(Insert(NewerFirst, d, dirs), cutoff) == Fresh([d] + dirs, cutoff)
  {
    assert ([d] + dirs)[1..] == dirs;
    if dirs != [] && !NewerFirst(d, dirs[0]) {
      FreshOfInsert(d, dirs[1..], cutoff);
      var tail := Insert(NewerFirst, d, dirs[1..]);
      assert ([dirs[0]] + tail)[1..] == tail && ([d] + dirs[1..])[1..] == dirs[1..];
    }
  }

  lemma {:induction false} FreshOfSort(dirs: seq<BackupDir>, cutoff: int)
    ensures Fresh(Sort(NewerFirst, dirs), cutoff) == Fresh(dirs, cutoff)
  {
    if dirs != [] {
      FreshOfSort(dirs[1..], cutoff);
      var sorted := Sort(NewerFirst, dirs[1..]);
      FreshOfInsert(dirs[0], sorted, cutoff);
      assert ([dirs[0]] + sorted)[1..] == sorted;
    }
  }

  /** Newest first, the fresh backups come before the stale ones. */
  lemma {:induction false} FreshIsPrefix(sorted: seq<BackupDir>, cutoff: int, i: nat)
    requires SortedBy(NewerFirst, sorted) && i < |sorted|
    ensures sorted[i].modified >= cutoff <==> i < Fresh(sorted, cutoff)
  {
    if sorted[0].modified < cutoff {
      assert i > 0 ==> NewerFirst(sorted[0], sorted[i]);
      StaleOnly(sorted, cutoff);
    } else if i > 0 {
      FreshIsPrefix(sorted[1..], cutoff, i - 1);
    }
  }

  lemma {:induction false} StaleOnly(sorted: seq<BackupDir>, cutoff: int)
    requires SortedBy(NewerFirst, sorted)
    requires sorted != [] ==> sorted[0].modified < cutoff
    ensures Fresh(sorted, cutoff) == 0
  {
    if |sorted| > 1 {
      assert NewerFirst(sorted[0], sorted[1]);
      StaleOnly(sorted[1..], cutoff);
    }
  }

  lemma {:induction false} FreshAtMostAll(dirs: seq<BackupDir>, cutoff: int)
    ensures Fresh(dirs, cutoff) <= |dirs|
  {
    if dirs != [] { FreshAtMostAll(dirs[1..], cutoff); }
  }

  lemma SortedDirs(dirs: seq<BackupDir>)
    requires DistinctPaths(dirs)
    ensures StrictlySorted(NewerFirst, Sort(NewerFirst, dirs)) && DistinctPaths(Sort(NewerFirst, dirs))
    ensures forall d | d in dirs :: d in Sort(NewerFirst, dirs)
    ensures forall d | d in Sort(NewerFirst, dirs) :: d in dirs
  {
    NewerFirstIsTotal();
    var sorted := Sort(NewerFirst, dirs);
    SortSorts(NewerFirst, dirs);
    SameMembers(sorted, dirs);
    assert Distinct(dirs);
    DistinctOccursOnce(dirs);
    forall i, j | 0 <= i < j < |sorted| ensures sorted[i].path != sorted[j].path {
      assert sorted[i] in dirs && sorted[j] in dirs;
      if sorted[i] == sorted[j] { RepeatOccursTwice(sorted, i, j); }
    }
    StringLeIsTotalOrder();
    forall i, j | 0 <= i < j < |sorted| ensures NewerFirst(sorted[i], sorted[j]) && !NewerFirst(sorted[j], sorted[i]) {
      assert sorted[i].path != sorted[j].path;
    }
  }

  lemma StrictlyNewer(a: BackupDir, b: BackupDir)
    ensures NewerFirst(a, b) && !NewerFirst(b, a) <==> IsAhead(a, b)
  {
    hide BelowFrom, StringLe;
    StringLeIsLexicographic(a.path, b.path);
    StringLeIsLexicographic(b.path, a.path);
    StringLeTotal(a.path, b.path);
    StringLeTotal(a.path, a.path);
    BelowIsStrict(b.path, a.path);
  }

  lemma {:induction false} DistinctCount<T>(s: seq<T>)
    requires Distinct(s)
    ensures |set x | x in s| == |s|
  {
    if s != [] {
      var n := |s| - 1;
      DistinctCount(s[..n]);
      assert s == s[..n] + [s[n]];
      assert (set x | x in s) == (set x | x in s[..n]) + {s[n]};
    }
  }

  /** The backups ahead of the one at position `i` are the first `i`. */
  lemma AheadIsPosition(dirs: seq<BackupDir>, i: nat)
    requires DistinctPaths(dirs) && i < |dirs|
    ensures |Ahead(dirs, Sort(NewerFirst, dirs)[i])| == i
  {
    hide Sort, NewerFirst, IsAhead;
    var sorted := Sort(NewerFirst, dirs);
    SortedDirs(dirs);
    forall e ensures e in Ahead(dirs, sorted[i]) <==> e in sorted[..i] {
      StrictlyNewer(e, sorted[i]);
      if e in dirs {
        assert e in sorted;
        var j :| 0 <= j < |sorted| && sorted[j] == e;
        assert j < i ==> sorted[..i][j] == e;
      }
    }
    assert Ahead(dirs, sorted[i]) == set e | e in sorted[..i];
    DistinctCount(sorted[..i]);
  }

  lemma RetainedIsKept(dirs: seq<BackupDir>, now: int, i: nat)
    requires DistinctPaths(dirs) && i < |dirs|
    ensures var sorted := Sort(NewerFirst, dirs);
            Retained(sorted, now - MAX_HISTORY_BACKUP_AGE_DAYS * 86400, i) <==> Kept(dirs, now, sorted[i])
  {
    hide Sort, NewerFirst, Ahead;
    SortedDirs(dirs);
    AheadIsPosition(dirs, i);
  }

  lemma PrunedAreKept(dirs: seq<BackupDir>, now: int, removable: string -> bool)
    requires DistinctPaths(dirs)
    ensures forall d :: d in Pruned(dirs, now - MAX_HISTORY_BACKUP_AGE_DAYS * 86400, removable) <==>
              Kept(dirs, now, d) || (d in dirs && !removable(d.path))
  {
    hide Sort, NewerFirst, Drop, Retained, Kept;
    var cutoff := now - MAX_HISTORY_BACKUP_AGE_DAYS * 86400;
    var sorted := Sort(NewerFirst, dirs);
    var removed := Removed(sorted, cutoff, removable, |sorted|);
    SortedDirs(dirs);
    DropMembers(dirs, removed);
    forall d ensures d in Pruned(dirs, cutoff, removable) <==> Kept(dirs, now, d) || (d in dirs && !removable(d.path)) {
      KeptIsMember(dirs, now, d);
      if d in dirs {
        assert d in sorted;
        var i :| 0 <= i < |sorted| && sorted[i] == d;
        RetainedIsKept(dirs, now, i);
        assert d.path in removed <==> !Retained(sorted, cutoff, i) && removable(d.path);
      }
    }
  }

  lemma KeptIsMember(dirs: seq<BackupDir>, now: int, d: BackupDir)
    ensures Kept(dirs, now, d) ==> d in dirs
  {}

  /** The rule retains exactly a newest-first prefix. */
  lemma RetainsPrefix(dirs: seq<BackupDir>, cutoff: int)
    requires DistinctPaths(dirs)
    ensures var sorted := Sort(NewerFirst, dirs);
            forall i | 0 <= i < |sorted| :: Retained(sorted, cutoff, i) <==> i < KeepCount(dirs, cutoff)
  {
    var sorted := Sort(NewerFirst, dirs);
    SortedDirs(dirs);
    FreshOfSort(dirs, cutoff);
    forall i | 0 <= i < |sorted| ensures Retained(sorted, cutoff, i) <==> i < KeepCount(dirs, cutoff) {
      FreshIsPrefix(sorted, cutoff, i);
    }
  }

  ghost predicate Removable(removable: string -> bool) {
    forall path :: removable(path)
  }

  lemma RemovedIsRest(dirs: seq<BackupDir>, cutoff: int, removable: string -> bool, i: nat)
    requires DistinctPaths(dirs) && Removable(removable) && i < |dirs|
    ensures var sorted := Sort(NewerFirst, dirs);
            sorted[i].path in Removed(sorted, cutoff, removable, |sorted|) <==> i >= KeepCount(dirs, cutoff)
  {
    var sorted := Sort(NewerFirst, dirs);
    SortedDirs(dirs);
    RetainsPrefix(dirs, cutoff);
    if sorted[i].path in Removed(sorted, cutoff, removable, |sorted|) {
      var j :| 0 <= j < |sorted| && !Retained(sorted, cutoff, j) && sorted[j].path == sorted[i].path;
      assert i == j;
    }
  }

  lemma SurvivorsArePrefix(dirs: seq<BackupDir>, cutoff: int, removable: string -> bool, d: BackupDir)
    requires DistinctPaths(dirs) && Removable(removable)
    ensures d in Pruned(dirs, cutoff, removable) <==> d in Sort(NewerFirst, dirs)[..KeepCount(dirs, cutoff)]
  {
    var sorted := Sort(NewerFirst, dirs);
    var n := KeepCount(dirs, cutoff);
    SortedDirs(dirs);
    DropMembers(dirs, Removed(sorted, cutoff, removable, |sorted|));
    if d in sorted {
      var i :| 0 <= i < |sorted| && sorted[i] == d;
      RemovedIsRest(dirs, cutoff, removable, i);
      if i < n { assert sorted[..n][i] == d; }
      if d in sorted[..n] {
        var j :| 0 <= j < n && sorted[..n][j] == d;
        RemovedIsRest(dirs, cutoff, removable, j);
      }
    }
  }

  /** When every removal succeeds the survivors are the first `KeepCount` backups, newest first. */
  lemma PruneKeepsNewestPrefix(dirs: seq<BackupDir>, cutoff: int, removable: string -> bool)
    requires DistinctPaths(dirs) && Removable(removable)
    ensures Sort(NewerFirst, Pruned(dirs, cutoff, removable)) == Sort(NewerFirst, dirs)[..KeepCount(dirs, cutoff)]
    ensures DistinctPaths(Pruned(dirs, cutoff, removable))
    ensures |Pruned(dirs, cutoff, removable)| == KeepCount(dirs, cutoff)
  {
    hide Sort, Removed, NewerFirst, Drop, Fresh, TotalPreorder;
    var sorted, pruned := Sort(NewerFirst, dirs), Pruned(dirs, cutoff, removable);
    var prefix := sorted[..KeepCount(dirs, cutoff)];
    SortedDirs(dirs);
    DropKeepsDistinct(dirs, Removed(sorted, cutoff, removable, |sorted|));
    SortedDirs(pruned);
    forall d ensures d in Sort(NewerFirst, pruned) <==> d in prefix {
      SurvivorsArePrefix(dirs, cutoff, removable, d);
    }
    StrictSortIsUnique(NewerFirst, Sort(NewerFirst, pruned), prefix);
  }

  /** No survivor is older than a removed backup, and the newest is never lost. */
  lemma PruneRemovesOldest(dirs: seq<BackupDir>, cutoff: int, removable: string -> bool, kept: BackupDir, gone: BackupDir)
    requires DistinctPaths(dirs) && Removable(removable)
    requires kept in Pruned(dirs, cutoff, removable) && gone in dirs && gone !in Pruned(dirs, cutoff, removable)
    ensures NewerFirst(kept, gone) && gone != Sort(NewerFirst, dirs)[0]
  {
    var sorted := Sort(NewerFirst, dirs);
    var n := KeepCount(dirs, cutoff);
    SortedDirs(dirs);
    SurvivorsArePrefix(dirs, cutoff, removable, kept);
    SurvivorsArePrefix(dirs, cutoff, removable, gone);
    var i :| 0 <= i < n && sorted[..n][i] == kept;
    assert gone in sorted;
    var j :| 0 <= j < |sorted| && sorted[j] == gone;
    assert sorted[i] == kept && i < j;
  }

  /** Pruning again with the same cutoff removes nothing. */
  lemma PruneTwice(dirs: seq<BackupDir>, cutoff: int, removable: string -> bool)
    requires DistinctPaths(dirs) && Removable(removable)
    ensures var pruned := Pruned(dirs, cutoff, removable);
            Pruned(pruned, cutoff, removable) == pruned
  {
    var sorted, pruned := Sort(NewerFirst, dirs), Pruned(dirs, cutoff, removable);
    var n := KeepCount(dirs, cutoff);
    PruneKeepsNewestPrefix(dirs, cutoff, removable);
    RetainsPrefix(dirs, cutoff);
    var left := Sort(NewerFirst, pruned);
    assert Removed(left, cutoff, removable, |left|) == {} by {
      forall i | 0 <= i < |left| ensures Retained(left, cutoff, i) {
        assert left[i] == sorted[i] && Retained(sorted, cutoff, i);
      }
    }
    DropNothing(pruned);
  }
}
