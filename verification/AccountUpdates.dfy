/** Deleting accounts and renumbering them: the effect on the tables, and the laws batch and single forms share. */
module AccountUpdates {
  import opened Wrappers
  import opened Text
  import opened AccountTables

  // ---- DELETE FROM table WHERE owner IN (...)

  function Without<T>(rows: seq<T>, owner: T -> Option<string>, ids: set<string>): seq<T> {
    if rows == [] then []
    else (if owner(rows[0]).Some? && owner(rows[0]).value in ids then [] else [rows[0]]) + Without(rows[1..], owner, ids)
  }

  function AccountKey(a: Account): Option<string> { Some(a.id) }
  function TokenKey(t: Token): Option<string> { Some(t.accountId) }
  function SnapshotKey(u: UsageSnapshot): Option<string> { Some(u.accountId) }
  function EventKey(e: Event): Option<string> { e.accountId }
  function OwnedKey(r: OwnedRow): Option<string> { Some(r.accountId) }
  function SourceKey(r: SourceRow): Option<string> {
    if r.sourceKind == ACCOUNT_SOURCE_KIND then Some(r.sourceId) else None
  }

  datatype TableName =
    | Metadata | Subscriptions | Tokens | Usage | Events | Bindings | Mappings | Models | Preferences | Accounts

  /** One DELETE statement. */
  function DeleteRows(t: Tables, table: TableName, ids: set<string>): Tables {
    match table
    case Metadata => t.(metadata := Without(t.metadata, OwnedKey, ids))
    case Subscriptions => t.(subscriptions := Without(t.subscriptions, OwnedKey, ids))
    case Tokens => t.(tokens := Without(t.tokens, TokenKey, ids))
    case Usage => t.(usage := Without(t.usage, SnapshotKey, ids))
    case Events => t.(events := Without(t.events, EventKey, ids))
    case Bindings => t.(bindings := Without(t.bindings, OwnedKey, ids))
    case Mappings => t.(mappings := Without(t.mappings, SourceKey, ids))
    case Models => t.(models := Without(t.models, SourceKey, ids))
    case Preferences => t.(preferences := Without(t.preferences, SourceKey, ids))
    case Accounts => t.(accounts := Without(t.accounts, AccountKey, ids))
  }

  /** The tables once every row that hangs on one of the accounts, and the accounts, are gone. */
  function Deleted(t: Tables, ids: set<string>): Tables {
    Tables(Without(t.accounts, AccountKey, ids), Without(t.metadata, OwnedKey, ids),
           Without(t.subscriptions, OwnedKey, ids), Without(t.tokens, TokenKey, ids),
           Without(t.usage, SnapshotKey, ids), Without(t.events, EventKey, ids),
           Without(t.bindings, OwnedKey, ids), Without(t.mappings, SourceKey, ids),
           Without(t.models, SourceKey, ids), Without(t.preferences, SourceKey, ids))
  }

  const DELETE_ORDER: seq<TableName> :=
    [Metadata, Subscriptions, Tokens, Usage, Events, Bindings, Mappings, Models, Preferences, Accounts]

  /** The tables after the first `k` statements. */
  function AfterDeletes(t: Tables, k: nat, ids: set<string>): Tables
    requires k <= |DELETE_ORDER|
  {
    if k == 0 then t else DeleteRows(AfterDeletes(t, k - 1, ids), DELETE_ORDER[k - 1], ids)
  }

  /** Statement by statement, the tables emptied so far; the accounts themselves go last. */
  lemma {:induction false} DeletesInOrder(t: Tables, k: nat, ids: set<string>)
    requires k <= |DELETE_ORDER|
    ensures var (d, r) := (Deleted(t, ids), AfterDeletes(t, k, ids));
            && r.metadata == (if k > 0 then d.metadata else t.metadata)
            && r.subscriptions == (if k > 1 then d.subscriptions else t.subscriptions)
            && r.tokens == (if k > 2 then d.tokens else t.tokens)
            && r.usage == (if k > 3 then d.usage else t.usage)
            && r.events == (if k > 4 then d.events else t.events)
            && r.bindings == (if k > 5 then d.bindings else t.bindings)
            && r.mappings == (if k > 6 then d.mappings else t.mappings)
            && r.models == (if k > 7 then d.models else t.models)
            && r.preferences == (if k > 8 then d.preferences else t.preferences)
            && r.accounts == (if k > 9 then d.accounts else t.accounts)
  {
    hide Without, OwnedKey, TokenKey, SnapshotKey, EventKey, SourceKey, AccountKey;
    if k > 0 {
      DeletesInOrder(t, k - 1, ids);
      assert DELETE_ORDER[k - 1] ==
             [Metadata, Subscriptions, Tokens, Usage, Events, Bindings, Mappings, Models, Preferences, Accounts][k - 1];
    }
  }

  lemma AccountsShrink(t: Tables, table: TableName, ids: set<string>)
    ensures |DeleteRows(t, table, ids).accounts| <= |t.accounts|
  {
    WithoutShrinks(t.accounts, ids);
  }

  lemma {:induction false} WithoutShrinks(accounts: seq<Account>, ids: set<string>)
    ensures |Without(accounts, AccountKey, ids)| <= |accounts|
  {
    if accounts != [] { WithoutShrinks(accounts[1..], ids); }
  }

  /** Deleting the listed accounts one by one. */
  function DeletedOneByOne(t: Tables, ids: seq<string>): Tables
    decreases |ids|
  {
    if ids == [] then t else DeletedOneByOne(Deleted(t, {ids[0]}), ids[1..])
  }

  lemma {:induction false} WithoutTwice<T>(rows: seq<T>, owner: T -> Option<string>, a: set<string>, b: set<string>)
    ensures Without(Without(rows, owner, a), owner, b) == Without(rows, owner, a + b)
  {
    if rows != [] {
      WithoutTwice(rows[1..], owner, a, b);
      var tail := Without(rows[1..], owner, a);
      assert ([rows[0]] + tail)[1..] == tail && [] + tail == tail;
    }
  }

  lemma DeletedTwice(t: Tables, a: set<string>, b: set<string>)
    ensures Deleted(Deleted(t, a), b) == Deleted(t, a + b)
  {
    WithoutTwice(t.accounts, AccountKey, a, b);
    WithoutTwice(t.metadata, OwnedKey, a, b);
    WithoutTwice(t.subscriptions, OwnedKey, a, b);
    WithoutTwice(t.tokens, TokenKey, a, b);
    WithoutTwice(t.usage, SnapshotKey, a, b);
    WithoutTwice(t.events, EventKey, a, b);
    WithoutTwice(t.bindings, OwnedKey, a, b);
    WithoutTwice(t.mappings, SourceKey, a, b);
    WithoutTwice(t.models, SourceKey, a, b);
    WithoutTwice(t.preferences, SourceKey, a, b);
  }

  lemma {:induction false} WithoutNothing<T>(rows: seq<T>, owner: T -> Option<string>)
    ensures Without(rows, owner, {}) == rows
  {
    if rows != [] {
      WithoutNothing(rows[1..], owner);
      assert rows == [rows[0]] + rows[1..];
    }
  }

  lemma DeletedNothing(t: Tables)
    ensures Deleted(t, {}) == t
  {
    WithoutNothing(t.accounts, AccountKey);
    WithoutNothing(t.metadata, OwnedKey);
    WithoutNothing(t.subscriptions, OwnedKey);
    WithoutNothing(t.tokens, TokenKey);
    WithoutNothing(t.usage, SnapshotKey);
    WithoutNothing(t.events, EventKey);
    WithoutNothing(t.bindings, OwnedKey);
    WithoutNothing(t.mappings, SourceKey);
    WithoutNothing(t.models, SourceKey);
    WithoutNothing(t.preferences, SourceKey);
  }

  /** Batch deletion refines deleting the accounts one by one, in any order and with any repetition. */
  lemma {:induction false} BatchDeletionIsSequentialDeletion(t: Tables, ids: seq<string>)
    ensures DeletedOneByOne(t, ids) == Deleted(t, set id | id in ids)
    decreases |ids|
  {
    if ids == [] {
      DeletedNothing(t);
      assert (set id | id in ids) == {};
    } else {
      BatchDeletionIsSequentialDeletion(Deleted(t, {ids[0]}), ids[1..]);
      DeletedTwice(t, {ids[0]}, set id | id in ids[1..]);
      assert ids == [ids[0]] + ids[1..];
      assert (set id | id in ids) == {ids[0]} + (set id | id in ids[1..]);
    }
  }

  /** On a list of trimmed, non-blank ids the batch form leaves the tables that single deletions in list order leave. */
  lemma TrimmedBatchMatchesSingleDeletions(t: Tables, ids: seq<string>)
    requires forall id | id in ids :: Trim(id) == id && id != ""
    ensures Deleted(t, RequestedIds(ids)) == DeletedOneByOne(t, ids)
  {
    BatchDeletionIsSequentialDeletion(t, ids);
    assert RequestedIds(ids) == set id | id in ids;
  }

  lemma {:induction false} WithoutMembers<T>(rows: seq<T>, owner: T -> Option<string>, ids: set<string>)
    ensures forall row | row in Without(rows, owner, ids) ::
              row in rows && !(owner(row).Some? && owner(row).value in ids)
    ensures forall row | row in rows && !(owner(row).Some? && owner(row).value in ids) :: row in Without(rows, owner, ids)
    ensures forall row | !(owner(row).Some? && owner(row).value in ids) ::
              multiset(Without(rows, owner, ids))[row] == multiset(rows)[row]
  {
    if rows != [] {
      WithoutMembers(rows[1..], owner, ids);
      assert rows == [rows[0]] + rows[1..];
    }
  }

  /** No row of any of the nine dependent tables outlives its account, and model-source rows of other kinds stay. */
  lemma DeletionLeavesNoDependents(t: Tables, ids: set<string>)
    ensures var d := Deleted(t, ids);
            && (forall r | r in d.metadata + d.subscriptions + d.bindings :: r.accountId !in ids)
            && (forall r | r in d.tokens :: r.accountId !in ids)
            && (forall r | r in d.usage :: r.accountId !in ids)
            && (forall e | e in d.events && e.accountId.Some? :: e.accountId.value !in ids)
            && (forall r | r in d.mappings + d.models + d.preferences && r.sourceKind == ACCOUNT_SOURCE_KIND :: r.sourceId !in ids)
    ensures var d := Deleted(t, ids);
            forall r: SourceRow | r.sourceKind != ACCOUNT_SOURCE_KIND ::
              && multiset(d.mappings)[r] == multiset(t.mappings)[r]
              && multiset(d.models)[r] == multiset(t.models)[r]
              && multiset(d.preferences)[r] == multiset(t.preferences)[r]
  {
    WithoutMembers(t.metadata, OwnedKey, ids);
    WithoutMembers(t.subscriptions, OwnedKey, ids);
    WithoutMembers(t.bindings, OwnedKey, ids);
    WithoutMembers(t.tokens, TokenKey, ids);
    WithoutMembers(t.usage, SnapshotKey, ids);
    WithoutMembers(t.events, EventKey, ids);
    WithoutMembers(t.mappings, SourceKey, ids);
    WithoutMembers(t.models, SourceKey, ids);
    WithoutMembers(t.preferences, SourceKey, ids);
    forall r: SourceRow | r.sourceKind != ACCOUNT_SOURCE_KIND
      ensures multiset(Without(t.mappings, SourceKey, ids))[r] == multiset(t.mappings)[r]
      ensures multiset(Without(t.models, SourceKey, ids))[r] == multiset(t.models)[r]
      ensures multiset(Without(t.preferences, SourceKey, ids))[r] == multiset(t.preferences)[r]
    {
      assert SourceKey(r).None?;
    }
  }

  /** The requested accounts that exist. */
  ghost function Existing(accounts: seq<Account>, ids: set<string>): set<string> {
    set a | a in accounts && a.id in ids :: a.id
  }

  lemma ExistingCons(accounts: seq<Account>, ids: set<string>)
    requires accounts != [] && UniqueBy(accounts, AccountId)
    ensures var rest := Existing(accounts[1..], ids);
            && Existing(accounts, ids) == (if accounts[0].id in ids then {accounts[0].id} + rest else rest)
            && accounts[0].id !in rest
  {
    var a := accounts[0];
    assert accounts == [a] + accounts[1..];
    forall b | b in accounts[1..] ensures b.id != a.id {
      var k :| 0 <= k < |accounts| - 1 && accounts[1..][k] == b;
      assert AccountId(accounts[0]) != AccountId(accounts[k + 1]);
    }
  }

  /** The rows removed from `accounts` are counted by the distinct requested accounts that exist. */
  lemma {:induction false} RemovedRowsAreExistingIds(accounts: seq<Account>, ids: set<string>)
    requires UniqueBy(accounts, AccountId)
    ensures |Without(accounts, AccountKey, ids)| + |Existing(accounts, ids)| == |accounts|
  {
    if accounts != [] {
      RemovedRowsAreExistingIds(accounts[1..], ids);
      ExistingCons(accounts, ids);
    }
  }

  lemma ExistingAccumulates(accounts: seq<Account>, a: set<string>, b: set<string>)
    requires a !! b
    ensures |Existing(accounts, a + b)| == |Existing(accounts, a)| + |Existing(Without(accounts, AccountKey, a), b)|
  {
    WithoutMembers(accounts, AccountKey, a);
    var one, two := Existing(accounts, a), Existing(Without(accounts, AccountKey, a), b);
    assert one !! two;
    forall id ensures id in Existing(accounts, a + b) <==> id in one + two {
      if id in Existing(accounts, a + b) && id in b {
        var account :| account in accounts && account.id == id;
        assert AccountKey(account).value !in a;
        assert account in Without(accounts, AccountKey, a);
      }
      if id in two {
        var account :| account in Without(accounts, AccountKey, a) && account.id in b && account.id == id;
        assert account in accounts;
      }
    }
    assert Existing(accounts, a + b) == one + two;
  }

  lemma {:induction false} WithoutKeepsKeys(accounts: seq<Account>, ids: set<string>)
    requires UniqueBy(accounts, AccountId)
    ensures UniqueBy(Without(accounts, AccountKey, ids), AccountId)
  {
    if accounts != [] {
      WithoutKeepsKeys(accounts[1..], ids);
      WithoutMembers(accounts[1..], AccountKey, ids);
      var tail, whole := Without(accounts[1..], AccountKey, ids), Without(accounts, AccountKey, ids);
      forall i, j | 0 <= i < j < |whole| ensures AccountId(whole[i]) != AccountId(whole[j]) {
        if whole == [accounts[0]] + tail {
          assert whole[j] == tail[j - 1] && tail[j - 1] in tail;
          assert tail[j - 1] in accounts[1..];
          var k :| 0 <= k < |accounts| - 1 && accounts[1..][k] == tail[j - 1];
          assert AccountId(accounts[0]) != AccountId(accounts[k + 1]);
          assert i > 0 ==> whole[i] == tail[i - 1];
        } else {
          assert whole == tail;
        }
      }
    }
  }

  // ---- UPDATE accounts SET sort, updated_at

  datatype SortUpdate = SortUpdate(accountId: string, sort: int)

  predicate Exists(accounts: seq<Account>, id: string) {
    exists a | a in accounts :: a.id == id
  }

  /** One UPDATE statement. */
  function WithSort(accounts: seq<Account>, u: SortUpdate, now: int): seq<Account> {
    if accounts == [] then []
    else [if accounts[0].id == u.accountId then accounts[0].(sort := u.sort, updatedAt := now) else accounts[0]]
         + WithSort(accounts[1..], u, now)
  }

  function Decimal(n: nat): string {
    (if n < 10 then "" else Decimal(n / 10)) + [((n % 10) + 48) as char]
  }

  function SortEvent(u: SortUpdate, now: int): Event {
    var digits := if u.sort < 0 then "-" + Decimal(-u.sort) else Decimal(u.sort);
    Event(Some(u.accountId), "account_sort_update", "sort=" + digits, now)
  }

  /** The sort an account is last given by the list, if it is listed. */
  function LastSort(updates: seq<SortUpdate>, id: string): Option<int> {
    if updates == [] then None
    else if updates[|updates| - 1].accountId == id then Some(updates[|updates| - 1].sort)
    else LastSort(updates[..|updates| - 1], id)
  }

  function SortEvents(updates: seq<SortUpdate>, now: int): (events: seq<Event>)
    ensures |events| == |updates|
  {
    if updates == [] then []
    else SortEvents(updates[..|updates| - 1], now) + [SortEvent(updates[|updates| - 1], now)]
  }

  function Renumbered(a: Account, updates: seq<SortUpdate>, now: int): Account {
    match LastSort(updates, a.id)
    case Some(sort) => a.(sort := sort, updatedAt := now)
    case None => a
  }

  function RenumberedAll(accounts: seq<Account>, updates: seq<SortUpdate>, now: int): seq<Account> {
    if accounts == [] then []
    else [Renumbered(accounts[0], updates, now)] + RenumberedAll(accounts[1..], updates, now)
  }

  /** What a completed renumbering leaves: each listed account with its last listed sort, one event per update. */
  function Renumber(t: Tables, updates: seq<SortUpdate>, now: int): Tables {
    t.(accounts := RenumberedAll(t.accounts, updates, now), events := t.events + SortEvents(updates, now))
  }

  lemma {:induction false} RenumberPointwise(accounts: seq<Account>, updates: seq<SortUpdate>, now: int)
    ensures var r := RenumberedAll(accounts, updates, now);
            |r| == |accounts| && forall i | 0 <= i < |accounts| :: r[i] == Renumbered(accounts[i], updates, now)
  {
    if accounts != [] { RenumberPointwise(accounts[1..], updates, now); }
  }

  lemma RenumberOnce(a: Account, done: seq<SortUpdate>, u: SortUpdate, now: int)
    ensures Renumbered(a, done + [u], now) ==
            if a.id == u.accountId then Renumbered(a, done, now).(sort := u.sort, updatedAt := now) else Renumbered(a, done, now)
    ensures Renumbered(a, done, now).id == a.id
  {
    assert (done + [u])[..|done|] == done;
  }

  lemma {:induction false} RenumberAllOnce(accounts: seq<Account>, done: seq<SortUpdate>, u: SortUpdate, now: int)
    ensures WithSort(RenumberedAll(accounts, done, now), u, now) == RenumberedAll(accounts, done + [u], now)
  {
    if accounts != [] {
      RenumberOnce(accounts[0], done, u, now);
      RenumberAllOnce(accounts[1..], done, u, now);
    }
  }

  /** One more update of the list, on tables already renumbered by the ones before it. */
  lemma RenumberStep(t: Tables, done: seq<SortUpdate>, u: SortUpdate, now: int)
    ensures var middle := Renumber(t, done, now);
            && Renumber(t, done + [u], now) ==
                 middle.(accounts := WithSort(middle.accounts, u, now), events := middle.events + [SortEvent(u, now)])
            && (Exists(middle.accounts, u.accountId) <==> Exists(t.accounts, u.accountId))
  {
    RenumberAllOnce(t.accounts, done, u, now);
    assert (done + [u])[..|done|] == done;
    assert t.events + (SortEvents(done, now) + [SortEvent(u, now)]) == t.events + SortEvents(done, now) + [SortEvent(u, now)];
    RenumberKeepsIds(t.accounts, done, now, u.accountId);
  }

  lemma RenumberKeepsIds(accounts: seq<Account>, updates: seq<SortUpdate>, now: int, id: string)
    ensures Exists(RenumberedAll(accounts, updates, now), id) <==> Exists(accounts, id)
  {
    RenumberPointwise(accounts, updates, now);
    var r := RenumberedAll(accounts, updates, now);
    forall i | 0 <= i < |accounts| ensures r[i].id == accounts[i].id && r[i] in r && accounts[i] in accounts {}
  }

  lemma {:induction false} RenumberByNothing(accounts: seq<Account>, now: int)
    ensures RenumberedAll(accounts, [], now) == accounts
  {
    if accounts != [] {
      RenumberByNothing(accounts[1..], now);
      assert accounts == [accounts[0]] + accounts[1..];
    }
  }
}
