/** The account operations of the storage layer, statement by statement. */
module AccountStorage {
  import opened Wrappers
  import opened Sorting
  import opened Text
  import opened Database
  import opened AccountTables
  import opened AccountUpdates
  import opened AccountRows
  import opened GatewayCandidates
  import opened CandidateRows

  const SQLITE_IN_CLAUSE_BATCH_SIZE: nat := 900

  datatype Error = Refused | AccountNotFound(accountId: string)

  /** The ids an IN clause built from one chunk admits. */
  function InClause(chunk: seq<string>): set<string> {
    set id | id in NormalizeTextIds(chunk)
  }

  ghost function IdSet(ids: seq<string>): set<string> {
    set id | id in ids
  }

  /** A chunk of a normalised list admits its own ids and none of the earlier chunks'. */
  lemma ChunkClause(ids: seq<string>, i: nat, j: nat)
    requires i <= j <= |NormalizeTextIds(ids)|
    ensures var all := NormalizeTextIds(ids);
            && InClause(all[i..j]) == IdSet(all[i..j])
            && IdSet(all[..i]) !! IdSet(all[i..j])
            && IdSet(all[..j]) == IdSet(all[..i]) + IdSet(all[i..j])
  {
    hide NormalizeTextIds, Trim, InClause, IdSet, StrictlySorted, RequestedIds;
    var all := NormalizeTextIds(ids);
    NormalizedIds(ids);
    RequestedIdsAreTrimmed(ids);
    forall id | id in all[i..j] ensures Trim(id) == id && id != "" {
      assert id in all;
    }
    TrimmedClause(all[i..j]);
    SliceDisjoint(all, i, j);
    SliceUnion(all, i, j);
  }

  lemma TrimmedClause(chunk: seq<string>)
    requires forall id | id in chunk :: Trim(id) == id && id != ""
    ensures InClause(chunk) == IdSet(chunk)
  {
    NormalizedIds(chunk);
    assert RequestedIds(chunk) == IdSet(chunk);
  }

  lemma SliceDisjoint(all: seq<string>, i: nat, j: nat)
    requires i <= j <= |all| && Distinct(all)
    ensures IdSet(all[..i]) !! IdSet(all[i..j])
  {}

  lemma SliceUnion(all: seq<string>, i: nat, j: nat)
    requires i <= j <= |all|
    ensures IdSet(all[..j]) == IdSet(all[..i]) + IdSet(all[i..j])
  {
    assert all[..j] == all[..i] + all[i..j];
  }

  lemma AllDeleted(t: Tables, ids: set<string>)
    ensures AfterDeletes(t, 10, ids) == Deleted(t, ids)
    ensures AfterDeletes(t, 9, ids).accounts == t.accounts
  {
    DeletesInOrder(t, 9, ids);
    DeletesInOrder(t, 10, ids);
  }

  lemma NothingRenumbered(t: Tables, now: int)
    ensures Renumber(t, [], now) == t
  {
    RenumberByNothing(t.accounts, now);
  }

  lemma NothingDeleted(t: Tables)
    ensures Deleted(t, {}) == t && Existing(t.accounts, {}) == {}
  {
    DeletedNothing(t);
  }

  /** Deleting one more chunk extends what is deleted, and what was removed is what existed of the chunk. */
  lemma ChunkDeleted(before: Tables, ids: seq<string>, i: nat, end: nat)
    requires UniqueBy(before.accounts, AccountId) && i <= end <= |NormalizeTextIds(ids)|
    ensures var all := NormalizeTextIds(ids);
            var sofar, clause := Deleted(before, IdSet(all[..i])), InClause(all[i..end]);
            && Deleted(sofar, clause) == Deleted(before, IdSet(all[..end]))
            && |Existing(before.accounts, IdSet(all[..end]))| ==
               |Existing(before.accounts, IdSet(all[..i]))| + (|sofar.accounts| - |Deleted(sofar, clause).accounts|)
  {
    hide NormalizeTextIds, Existing, Without, UniqueBy, IdSet, InClause;
    var all := NormalizeTextIds(ids);
    ChunkClause(ids, i, end);
    DeletedTwice(before, IdSet(all[..i]), IdSet(all[i..end]));
    WithoutKeepsKeys(before.accounts, IdSet(all[..i]));
    RemovedRowsAreExistingIds(Without(before.accounts, AccountKey, IdSet(all[..i])), IdSet(all[i..end]));
    ExistingAccumulates(before.accounts, IdSet(all[..i]), IdSet(all[i..end]));
  }

  lemma WholeClause(ids: seq<string>)
    ensures var all := NormalizeTextIds(ids);
            IdSet(all[..|all|]) == RequestedIds(ids) && IdSet(all[..0]) == {}
  {
    NormalizedIds(ids);
    var all := NormalizeTextIds(ids);
    assert all[..|all|] == all;
  }

  lemma {:induction false} WhereNothing<T>(rows: seq<T>, key: T -> string)
    ensures Where(rows, key, {}) == []
  {
    if rows != [] { WhereNothing(rows[1..], key); }
  }

  /** The `i`-th update names an existing account, and the engine accepts both its statements. */
  ghost predicate Applies(accounts: seq<Account>, updates: seq<SortUpdate>, i: nat, faults: Faults)
    requires i < |updates|
  {
    Exists(accounts, updates[i].accountId) && !faults.statement(2 * i) && !faults.statement(2 * i + 1)
  }

  ghost predicate AllApply(accounts: seq<Account>, updates: seq<SortUpdate>, k: nat, faults: Faults)
    requires k <= |updates|
  {
    forall i | 0 <= i < k :: Applies(accounts, updates, i, faults)
  }

  /** The engine refuses none of the statements from `first` up to `end`. */
  ghost predicate Accepts(faults: Faults, first: nat, end: nat) {
    forall i | first <= i < end :: !faults.statement(i)
  }

  function Chunks(n: nat, batch: nat): nat
    requires batch > 0
  {
    if n == 0 then 0 else if n <= batch then 1 else 1 + Chunks(n - batch, batch)
  }

  /** The DELETE statements a batch deletion issues: ten a chunk. */
  function DeleteCount(ids: seq<string>, batch: nat): nat
    requires batch > 0
  {
    10 * Chunks(|NormalizeTextIds(ids)|, batch)
  }

  class Storage {
    const conn: Connection<Tables>

    constructor (conn: Connection<Tables>)
      ensures this.conn == conn
    {
      this.conn := conn;
    }

    /** The chunked listing behind `list_accounts_for_ids` and `list_accounts_by_statuses`. */
    method ListMatching(column: Account -> string, values: seq<string>, batch: nat) returns (out: seq<Account>)
      requires batch > 0 && UniqueBy(conn.View().accounts, AccountId)
      ensures out == Sort(AccountLe, Where(conn.View().accounts, column, RequestedIds(values)))
      ensures StrictlySorted(AccountLe, out)
    {
      var rows := conn.View().accounts;
      var all := NormalizeTextIds(values);
      WholeClause(values);
      WhereNothing(rows, column);
      out := [];
      var i := 0;
      while i < |all|
        invariant 0 <= i <= |all|
        invariant multiset(out) == multiset(Where(rows, column, IdSet(all[..i])))
      {
        var end := if i + batch < |all| then i + batch else |all|;
        ChunkClause(values, i, end);
        WhereUnion(rows, column, IdSet(all[..i]), IdSet(all[i..end]));
        out := out + Where(rows, column, InClause(all[i..end]));
        i := end;
      }
      WhereKeepsIds(rows, column, RequestedIds(values));
      RankedSortIsUnique(AccountLe, RankOf, AccountId, Where(rows, column, RequestedIds(values)), out);
      out := Sort(AccountLe, out);
    }

    method ListAccountsForIds(ids: seq<string>) returns (out: seq<Account>)
      requires UniqueBy(conn.View().accounts, AccountId)
      ensures StrictlySorted(AccountLe, out)
      ensures forall a :: a in out <==> a in conn.View().accounts && a.id in RequestedIds(ids)
      ensures forall i, j | 0 <= i < j < |out| :: RanksBefore(out[i], out[j])
    {
      out := ListMatching(AccountId, ids, SQLITE_IN_CLAUSE_BATCH_SIZE);
      SortedWhereMembers(conn.View().accounts, AccountId, RequestedIds(ids));
      StrictlyRanked(out);
    }

    method ListAccountsByStatuses(statuses: seq<string>) returns (out: seq<Account>)
      requires UniqueBy(conn.View().accounts, AccountId)
      ensures StrictlySorted(AccountLe, out)
      ensures forall a :: a in out <==> a in conn.View().accounts && StatusKey(a) in RequestedIds(statuses)
      ensures forall a :: a in out <==>
                a in conn.View().accounts && exists word | word in RequestedIds(statuses) :: MeansWord(a.status, word)
      ensures forall i, j | 0 <= i < j < |out| :: RanksBefore(out[i], out[j])
    {
      hide UniqueBy, StrictlySorted, MeansWord, RequestedIds, Sort, Where, RanksBefore;
      out := ListMatching(StatusKey, statuses, SQLITE_IN_CLAUSE_BATCH_SIZE);
      SortedWhereMembers(conn.View().accounts, StatusKey, RequestedIds(statuses));
      forall a: Account
        ensures StatusKey(a) in RequestedIds(statuses) <==>
                exists word | word in RequestedIds(statuses) :: MeansWord(a.status, word)
      {
        StatusIsRequested(a, statuses);
      }
      StrictlyRanked(out);
    }

    method ListGatewayCandidates() returns (out: seq<Candidate>)
      ensures out == Unscoped(conn.View())
      ensures forall c: Candidate :: c in out <==> IsCandidate(conn.View(), c.0, c.1)
      ensures forall i, j | 0 <= i < j < |out| ::
                || out[i].0.sort < out[j].0.sort
                || (out[i].0.sort == out[j].0.sort && out[i].0.updatedAt >= out[j].0.updatedAt)
    {
      hide Unscoped, IsCandidate;
      out := Unscoped(conn.View());
      UnscopedIsOrdered(conn.View());
      forall c: Candidate ensures c in out <==> IsCandidate(conn.View(), c.0, c.1) {
        UnscopedIsCandidates(conn.View(), c.0, c.1);
      }
    }

    /** Exactly the unscoped query's rows for the requested accounts, each once, in rank order, for any batch size. */
    method ListGatewayCandidatesForAccounts(ids: seq<string>, batch: nat) returns (out: seq<Candidate>)
      requires batch > 0 && KeysHold(conn.View())
      ensures StrictlySorted(CandidateLe, out)
      ensures forall c :: c in out <==> c in Unscoped(conn.View()) && c.0.id in RequestedIds(ids)
      ensures forall c: Candidate :: c in out <==> IsCandidate(conn.View(), c.0, c.1) && c.0.id in RequestedIds(ids)
      ensures forall i, j | 0 <= i < j < |out| :: RanksBefore(out[i].0, out[j].0)
    {
      var t := conn.View();
      var all := NormalizeTextIds(ids);
      ghost var joined := JoinAccounts(t.accounts, t.tokens, t.usage);
      WholeClause(ids);
      WhereNothing(joined, CandidateId);
      out := [];
      var i := 0;
      while i < |all|
        invariant 0 <= i <= |all|
        invariant multiset(out) == multiset(Where(joined, CandidateId, IdSet(all[..i])))
      {
        var end := if i + batch < |all| then i + batch else |all|;
        ChunkClause(ids, i, end);
        WhereUnion(joined, CandidateId, IdSet(all[..i]), IdSet(all[i..end]));
        ScopedIsUnscopedForIds(t, IdSet(all[i..end]));
        out := out + Scoped(t, InClause(all[i..end]));
        i := end;
      }
      CandidatesAreUnique(t.accounts, t.tokens, t.usage);
      WhereUnique(joined, CandidateId, RequestedIds(ids));
      WhereMembers(joined, CandidateId, RequestedIds(ids));
      RankedSortIsUnique(CandidateLe, CandidateRank, CandidateId, Where(joined, CandidateId, RequestedIds(ids)), out);
      out := Sort(CandidateLe, out);
      UnscopedMembers(t);
      forall c: Candidate ensures c in Unscoped(t) <==> IsCandidate(t, c.0, c.1) {
        UnscopedIsCandidates(t, c.0, c.1);
      }
      StrictlyRankedCandidates(out);
    }

    /** The ten DELETE statements of one chunk, in order, stopping at the first the engine refuses. The rows removed by
        the last of them are the accounts deleted. */
    method DeleteRowsOf(ids: set<string>, first: nat, faults: Faults) returns (ok: bool, removed: nat)
      requires conn.pending.Some?
      modifies conn
      ensures conn.committed == old(conn.committed) && conn.pending.Some?
      ensures ok <==> Accepts(faults, first, first + 10)
      ensures ok ==> conn.View() == Deleted(old(conn.View()), ids)
      ensures ok ==> removed == |old(conn.View()).accounts| - |conn.View().accounts|
    {
      hide Deleted, DeleteRows;
      ghost var before := conn.View();
      removed := 0;
      var k := 0;
      while k < |DELETE_ORDER|
        invariant 0 <= k <= |DELETE_ORDER|
        invariant conn.committed == old(conn.committed) && conn.pending.Some?
        invariant conn.View() == AfterDeletes(before, k, ids)
        invariant forall i | first <= i < first + k :: !faults.statement(i)
        invariant k > 0 ==> removed == |AfterDeletes(before, k - 1, ids).accounts| - |conn.View().accounts|
      {
        var rows := |conn.View().accounts|;
        AccountsShrink(conn.View(), DELETE_ORDER[k], ids);
        ok := conn.Execute(DeleteRows(conn.View(), DELETE_ORDER[k], ids), faults.statement(first + k));
        if !ok {
          return false, 0;
        }
        removed := rows - |conn.View().accounts|;
        k := k + 1;
      }
      AllDeleted(before, ids);
      ok := true;
    }

    method DeleteAccount(id: string, faults: Faults) returns (ok: bool)
      modifies conn
      ensures conn.committed == if ok then Deleted(old(conn.committed), {id}) else old(conn.committed)
      ensures ok ==> AccountsGone(old(conn.committed), conn.committed, {id})
      ensures ok ==> conn.pending == None
      ensures !ok && old(conn.pending).Some? ==> conn.pending == old(conn.pending)
      ensures !ok && old(conn.pending).None? ==>
                (conn.pending == None <==> faults.begin || (!Accepts(faults, 0, 10) && !faults.rollback))
      ensures !ok && old(conn.pending).None? && !faults.begin && Accepts(faults, 0, 10) ==>
                conn.pending == Some(Deleted(old(conn.committed), {id}))
      ensures ok <==> old(conn.pending).None? && !faults.begin && !faults.commit && Accepts(faults, 0, 10)
    {
      hide AccountsGone;
      var began := conn.Begin(faults.begin);
      if !began {
        return false;
      }
      var tx := new Transaction<Tables>(conn);
      var removed;
      ok, removed := DeleteRowsOf({id}, 0, faults);
      DeletedIsGone(old(conn.committed), {id});
      if ok {
        ok := tx.Commit(faults.commit);
      }
      tx.Drop(faults.rollback);
    }

    /** The chunks of a batch deletion, one after another, stopping at the first refused statement. */
    method DeleteChunks(ids: seq<string>, batch: nat, faults: Faults) returns (ok: bool, deleted: nat)
      requires batch > 0 && UniqueBy(conn.View().accounts, AccountId) && conn.pending.Some?
      modifies conn
      ensures conn.committed == old(conn.committed) && conn.pending.Some?
      ensures ok <==> Accepts(faults, 0, DeleteCount(ids, batch))
      ensures ok ==> conn.View() == Deleted(old(conn.View()), RequestedIds(ids))
      ensures ok ==> deleted == |Existing(old(conn.View()).accounts, RequestedIds(ids))|
    {
      hide NormalizeTextIds, Deleted, Existing, UniqueBy, IdSet, InClause, RequestedIds;
      var all := NormalizeTextIds(ids);
      ghost var before := conn.View();
      WholeClause(ids);
      NothingDeleted(before);
      deleted := 0;
      var i, statement := 0, 0;
      while i < |all|
        invariant 0 <= i <= |all|
        invariant statement + 10 * Chunks(|all| - i, batch) == DeleteCount(ids, batch)
        invariant Accepts(faults, 0, statement)
        invariant conn.committed == old(conn.committed) && conn.pending.Some?
        invariant conn.View() == Deleted(before, IdSet(all[..i]))
        invariant deleted == |Existing(before.accounts, IdSet(all[..i]))|
      {
        var end := if i + batch < |all| then i + batch else |all|;
        var removed;
        ok, removed := DeleteRowsOf(InClause(all[i..end]), statement, faults);
        if !ok {
          return false, 0;
        }
        ChunkDeleted(before, ids, i, end);
        deleted := deleted + removed;
        statement := statement + 10;
        i := end;
      }
      ok := true;
    }

    /** Deletes the requested accounts in one transaction, whatever the batch size: all of them, or nothing. */
    method DeleteAccounts(ids: seq<string>, batch: nat, faults: Faults) returns (r: Result<nat, Error>)
      requires batch > 0 && UniqueBy(conn.View().accounts, AccountId)
      modifies conn
      ensures r.Ok? ==> conn.View() == Deleted(old(conn.View()), RequestedIds(ids))
      ensures r.Ok? ==> AccountsGone(old(conn.View()), conn.View(), RequestedIds(ids))
      ensures r.Ok? ==> r.value == |Existing(old(conn.View()).accounts, RequestedIds(ids))|
      ensures r.Ok? && RequestedIds(ids) != {} ==> conn.pending == None
      ensures r.Err? ==> conn.committed == old(conn.committed)
      ensures r.Ok? <==>
              || RequestedIds(ids) == {}
              || (old(conn.pending).None? && !faults.begin && !faults.commit && Accepts(faults, 0, DeleteCount(ids, batch)))
      ensures r.Err? && old(conn.pending).Some? ==> conn.pending == old(conn.pending)
      ensures r.Err? && old(conn.pending).None? ==>
                (conn.pending == None <==>
                 faults.begin || (!Accepts(faults, 0, DeleteCount(ids, batch)) && !faults.rollback))
      ensures r.Err? && old(conn.pending).None? && !faults.begin && Accepts(faults, 0, DeleteCount(ids, batch)) ==>
                conn.pending == Some(Deleted(old(conn.committed), RequestedIds(ids)))
    {
      hide Deleted, Existing, UniqueBy, Accepts, DeleteCount, AccountsGone;
      DeletedIsGone(conn.View(), RequestedIds(ids));
      var all := NormalizeTextIds(ids);
      WholeClause(ids);
      NothingDeleted(conn.View());
      if all == [] {
        assert RequestedIds(ids) == {};
        return Ok(0);
      }
      assert all[..|all|][0] in RequestedIds(ids);
      var began := conn.Begin(faults.begin);
      if !began {
        return Err(Refused);
      }
      var tx := new Transaction<Tables>(conn);
      var ok, deleted := DeleteChunks(ids, batch, faults);
      if ok {
        ok := tx.Commit(faults.commit);
      }
      tx.Drop(faults.rollback);
      r := if ok then Ok(deleted) else Err(Refused);
    }

    /** The UPDATE of one account and the event that records it. */
    method ApplySort(u: SortUpdate, now: int, updateRefused: bool, eventRefused: bool) returns (r: Result<(), Error>)
      requires conn.pending.Some?
      modifies conn
      ensures conn.committed == old(conn.committed) && conn.pending.Some?
      ensures r.Ok? <==> !updateRefused && !eventRefused && Exists(old(conn.View()).accounts, u.accountId)
      ensures r.Ok? ==>
                var t := old(conn.View());
                conn.View() == t.(accounts := WithSort(t.accounts, u, now), events := t.events + [SortEvent(u, now)])
      ensures r.Err? && r.error.AccountNotFound? ==>
                r.error.accountId == u.accountId && !Exists(old(conn.View()).accounts, u.accountId)
    {
      var t := conn.View();
      var ok := conn.Execute(t.(accounts := WithSort(t.accounts, u, now)), updateRefused);
      if !ok {
        return Err(Refused);
      }
      if !Exists(t.accounts, u.accountId) {
        return Err(AccountNotFound(u.accountId));
      }
      t := conn.View();
      ok := conn.Execute(t.(events := t.events + [SortEvent(u, now)]), eventRefused);
      r := if ok then Ok(()) else Err(Refused);
    }

    method ApplySorts(updates: seq<SortUpdate>, now: int, faults: Faults) returns (r: Result<nat, Error>)
      requires conn.pending.Some?
      modifies conn
      ensures conn.committed == old(conn.committed) && conn.pending.Some?
      ensures r.Ok? ==> r.value == |updates| && conn.View() == Renumber(old(conn.View()), updates, now)
      ensures r.Ok? <==> AllApply(old(conn.View()).accounts, updates, |updates|, faults)
      ensures r.Err? && r.error.AccountNotFound? ==> !Exists(old(conn.View()).accounts, r.error.accountId)
    {
      hide Renumber, Exists, WithSort, SortEvent, Renumbered;
      ghost var before := conn.View();
      var updated := 0;
      assert updates[..0] == [];
      NothingRenumbered(before, now);
      while updated < |updates|
        invariant 0 <= updated <= |updates|
        invariant conn.committed == old(conn.committed) && conn.pending.Some?
        invariant conn.View() == Renumber(before, updates[..updated], now)
        invariant AllApply(before.accounts, updates, updated, faults)
      {
        var u := updates[updated];
        RenumberStep(before, updates[..updated], u, now);
        assert updates[..updated + 1] == updates[..updated] + [u];
        var step := ApplySort(u, now, faults.statement(2 * updated), faults.statement(2 * updated + 1));
        assert step.Ok? <==> Applies(before.accounts, updates, updated, faults);
        if step.Err? {
          return Err(step.error);
        }
        updated := updated + 1;
      }
      assert updates[..updated] == updates;
      r := Ok(updated);
    }

    /** Renumbers every listed account in one transaction, or nothing when one of them is missing. */
    method UpdateAccountSorts(updates: seq<SortUpdate>, now: int, faults: Faults) returns (r: Result<nat, Error>)
      modifies conn
      ensures updates == [] ==> r == Ok(0) && conn.committed == old(conn.committed) && conn.pending == old(conn.pending)
      ensures updates != [] && r.Ok? ==>
                conn.committed == Renumber(old(conn.committed), updates, now) && conn.pending == None
      ensures updates != [] && r.Ok? ==> Renumbers(old(conn.committed), conn.committed, updates, now)
      ensures r.Ok? ==> r.value == |updates|
      ensures r.Err? ==> conn.committed == old(conn.committed)
      ensures updates != [] && r.Err? && old(conn.pending).Some? ==> conn.pending == old(conn.pending)
      // A failed call leaves a transaction open exactly if its COMMIT, or the ROLLBACK of its failed work, is refused.
      ensures updates != [] && r.Err? && old(conn.pending).None? ==>
                (conn.pending == None <==>
                 || faults.begin
                 || (!AllApply(old(conn.committed).accounts, updates, |updates|, faults) && !faults.rollback))
      ensures updates != [] ==>
                (r.Ok? <==>
                 && old(conn.pending).None? && !faults.begin && !faults.commit
                 && AllApply(old(conn.committed).accounts, updates, |updates|, faults))
      ensures r.Err? && r.error.AccountNotFound? ==>
                !Exists(old(conn.committed).accounts, r.error.accountId)
      // A refused COMMIT is reported, but the renumbering stays visible in a transaction nobody ends.
      ensures updates != [] && old(conn.pending).None? && !faults.begin && faults.commit
              && AllApply(old(conn.committed).accounts, updates, |updates|, faults) ==>
                r == Err(Refused) && conn.pending == Some(Renumber(old(conn.committed), updates, now))
    {
      hide Renumbers, Renumber;
      RenumberIsLiteral(conn.committed, updates, now);
      if updates == [] {
        return Ok(0);
      }
      var began := conn.Begin(faults.begin);
      if !began {
        return Err(Refused);
      }
      var tx := new Transaction<Tables>(conn);
      r := ApplySorts(updates, now, faults);
      if r.Ok? {
        var ok := tx.Commit(faults.commit);
        r := if ok then r else Err(Refused);
      }
      tx.Drop(faults.rollback);
    }
  }

  lemma {:induction false} WhereKeepsIds(rows: seq<Account>, column: Account -> string, ids: set<string>)
    requires UniqueBy(rows, AccountId)
    ensures UniqueBy(Where(rows, column, ids), AccountId)
  {
    if rows != [] {
      WhereKeepsIds(rows[1..], column, ids);
      WhereMembers(rows[1..], column, ids);
      var tail, whole := Where(rows[1..], column, ids), Where(rows, column, ids);
      forall i, j | 0 <= i < j < |whole| ensures AccountId(whole[i]) != AccountId(whole[j]) {
        if whole == [rows[0]] + tail {
          assert whole[j] == tail[j - 1] && tail[j - 1] in tail;
          assert tail[j - 1] in rows[1..];
          var k :| 0 <= k < |rows| - 1 && rows[1..][k] == tail[j - 1];
          assert AccountId(rows[0]) != AccountId(rows[k + 1]);
          assert i > 0 ==> whole[i] == tail[i - 1];
        } else {
          assert whole == tail;
        }
      }
    }
  }

  /** A status is among the requested ones exactly if it spells one of them. */
  lemma StatusIsRequested(a: Account, statuses: seq<string>)
    ensures StatusKey(a) in RequestedIds(statuses) <==>
            exists word | word in RequestedIds(statuses) :: MeansWord(a.status, word)
  {
    hide MeansWord, StatusKey, RequestedIds;
    RequestedIdsAreTrimmed(statuses);
    forall word | word in RequestedIds(statuses) ensures StatusKey(a) == word <==> MeansWord(a.status, word) {
      TrimTightens(IsWhitespace, word);
      StatusIsWord(a, word);
    }
  }

  lemma SortedWhereMembers(rows: seq<Account>, column: Account -> string, ids: set<string>)
    ensures forall a :: a in Sort(AccountLe, Where(rows, column, ids)) <==> a in rows && column(a) in ids
  {
    WhereMembers(rows, column, ids);
    SameMembers(Sort(AccountLe, Where(rows, column, ids)), Where(rows, column, ids));
  }
}
