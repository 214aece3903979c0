/** The account tables and the row-level meaning of the queries over them. */
module AccountTables {
  import opened Wrappers
  import opened Sorting
  import opened Text

  datatype Account = Account(
    id: string, labelText: string, issuer: string, chatgptAccountId: Option<string>, workspaceId: Option<string>,
    groupName: Option<string>, sort: int, status: string, createdAt: int, updatedAt: int)

  datatype Token = Token(
    accountId: string, idToken: string, accessToken: string, refreshToken: string,
    apiKeyAccessToken: Option<string>, lastRefresh: int)

  datatype UsageSnapshot = UsageSnapshot(
    id: int, accountId: string, usedPercent: Option<real>, windowMinutes: Option<int>,
    secondaryUsedPercent: Option<real>, secondaryWindowMinutes: Option<int>, capturedAt: int)

  datatype Event = Event(accountId: Option<string>, kind: string, message: string, createdAt: int)

  /** A row of a table that only matters here through the account it hangs on. */
  datatype OwnedRow = OwnedRow(accountId: string, payload: string)

  datatype SourceRow = SourceRow(sourceKind: string, sourceId: string, payload: string)

  datatype Tables = Tables(
    accounts: seq<Account>, metadata: seq<OwnedRow>, subscriptions: seq<OwnedRow>, tokens: seq<Token>,
    usage: seq<UsageSnapshot>, events: seq<Event>, bindings: seq<OwnedRow>,
    mappings: seq<SourceRow>, models: seq<SourceRow>, preferences: seq<SourceRow>)

  const ACCOUNT_SOURCE_KIND := "openai_account"

  function AccountId(a: Account): string { a.id }
  function TokenOwner(t: Token): string { t.accountId }
  function SnapshotOwner(u: UsageSnapshot): string { u.accountId }

  ghost predicate UniqueBy<T, K>(rows: seq<T>, key: T -> K) {
    forall i, j | 0 <= i < j < |rows| :: key(rows[i]) != key(rows[j])
  }

  /** The primary keys of the tables the queries join on. */
  ghost predicate KeysHold(t: Tables) {
    && UniqueBy(t.accounts, AccountId)
    && UniqueBy(t.tokens, TokenOwner)
    && UniqueBy(t.usage, (u: UsageSnapshot) => u.id)
  }

  // ---- WHERE key IN (...)

  function Where<T>(rows: seq<T>, key: T -> string, ids: set<string>): seq<T> {
    if rows == [] then [] else (if key(rows[0]) in ids then [rows[0]] else []) + Where(rows[1..], key, ids)
  }

  lemma {:induction false} WhereMembers<T>(rows: seq<T>, key: T -> string, ids: set<string>)
    ensures forall row | row in Where(rows, key, ids) :: row in rows && key(row) in ids
    ensures forall row | row in rows && key(row) in ids :: row in Where(rows, key, ids)
  {
    if rows != [] {
      WhereMembers(rows[1..], key, ids);
      assert rows == [rows[0]] + rows[1..];
    }
  }

  /** Disjoint id sets split a filtered table without loss or repetition. */
  lemma {:induction false} WhereUnion<T>(rows: seq<T>, key: T -> string, a: set<string>, b: set<string>)
    requires a !! b
    ensures multiset(Where(rows, key, a + b)) == multiset(Where(rows, key, a)) + multiset(Where(rows, key, b))
  {
    if rows != [] {
      WhereUnion(rows[1..], key, a, b);
    }
  }

  lemma {:induction false} WhereUnique<T>(rows: seq<T>, key: T -> string, ids: set<string>)
    requires UniqueBy(rows, key)
    ensures UniqueBy(Where(rows, key, ids), key)
  {
    if rows != [] {
      WhereUnique(rows[1..], key, ids);
      WhereMembers(rows[1..], key, ids);
      var tail := Where(rows[1..], key, ids);
      forall row | row in tail ensures key(row) != key(rows[0]) {
        var k :| 0 <= k < |rows| - 1 && rows[1..][k] == row;
        assert row == rows[k + 1];
      }
      if key(rows[0]) in ids {
        UniqueWithFront(rows[0], tail, key);
      } else {
        assert [] + tail == tail;
      }
    }
  }

  lemma UniqueWithFront<T>(row: T, rows: seq<T>, key: T -> string)
    requires UniqueBy(rows, key) && forall other | other in rows :: key(other) != key(row)
    ensures UniqueBy([row] + rows, key)
  {
    var all := [row] + rows;
    forall i, j | 0 <= i < j < |all| ensures key(all[i]) != key(all[j]) {
      assert all[j] == rows[j - 1] && all[j] in rows;
      assert i > 0 ==> all[i] == rows[i - 1];
    }
  }

  // ---- ORDER BY sort ASC, updated_at DESC, id ASC

  datatype Rank = Rank(sort: int, updatedAt: int, id: string)

  function RankOf(a: Account): Rank {
    Rank(a.sort, a.updatedAt, a.id)
  }

  predicate RankLe(a: Rank, b: Rank) {
    || a.sort < b.sort
    || (a.sort == b.sort && a.updatedAt > b.updatedAt)
    || (a.sort == b.sort && a.updatedAt == b.updatedAt && StringLe(a.id, b.id))
  }

  predicate AccountLe(a: Account, b: Account) {
    RankLe(RankOf(a), RankOf(b))
  }

  lemma RankLeIsTotalOrder()
    ensures TotalPreorder(RankLe) && Antisymmetric(RankLe)
  {
    StringLeIsTotalOrder();
    forall a: Rank, b: Rank ensures RankLe(a, b) || RankLe(b, a) {
      assert StringLe(a.id, b.id) || StringLe(b.id, a.id);
    }
    forall a: Rank, b: Rank | RankLe(a, b) && RankLe(b, a) ensures a == b {
      assert StringLe(a.id, b.id) && StringLe(b.id, a.id);
    }
    forall a: Rank, b: Rank, c: Rank | RankLe(a, b) && RankLe(b, c) ensures RankLe(a, c) {
      if a.sort == b.sort == c.sort && a.updatedAt == b.updatedAt == c.updatedAt {
        assert StringLe(a.id, b.id) && StringLe(b.id, c.id);
      }
    }
  }

  ghost predicate OrdersByRank<T(!new)>(le: (T, T) -> bool, rank: T -> Rank) {
    forall a, b :: le(a, b) <==> RankLe(rank(a), rank(b))
  }

  /** Sorting rows by the rank of their account is unambiguous when each account occurs once. */
  lemma RankedSortIsUnique<T(!new)>(le: (T, T) -> bool, rank: T -> Rank, id: T -> string, s: seq<T>, t: seq<T>)
    requires OrdersByRank(le, rank) && forall row :: rank(row).id == id(row)
    requires multiset(s) == multiset(t) && UniqueBy(s, id)
    ensures Sort(le, s) == Sort(le, t)
    ensures StrictlySorted(le, Sort(le, s))
    ensures forall row :: row in Sort(le, s) <==> row in s
  {
    UniqueUpToOrder(s, t, id);
    SortedWithoutTies(le, rank, id, s);
    SortedWithoutTies(le, rank, id, t);
    SameMembers(s, t);
    SameMembers(Sort(le, s), s);
    SameMembers(Sort(le, t), t);
    StrictSortIsUnique(le, Sort(le, s), Sort(le, t));
  }

  lemma SortedWithoutTies<T(!new)>(le: (T, T) -> bool, rank: T -> Rank, id: T -> string, s: seq<T>)
    requires OrdersByRank(le, rank) && forall row :: rank(row).id == id(row)
    requires UniqueBy(s, id)
    ensures StrictlySorted(le, Sort(le, s))
  {
    RankLeIsTotalOrder();
    forall a, b, c | le(a, b) && le(b, c) ensures le(a, c) {
      assert RankLe(rank(a), rank(b)) && RankLe(rank(b), rank(c));
    }
    SortSorts(le, s);
    var sorted := Sort(le, s);
    UniqueUpToOrder(s, sorted, id);
    forall i, j | 0 <= i < j < |sorted| ensures le(sorted[i], sorted[j]) && !le(sorted[j], sorted[i]) {
      assert id(sorted[i]) != id(sorted[j]);
    }
  }

  /** Key uniqueness does not depend on the order of the rows. */
  lemma {:induction false} UniqueUpToOrder<T, K>(s: seq<T>, t: seq<T>, key: T -> K)
    requires multiset(s) == multiset(t) && UniqueBy(s, key)
    ensures UniqueBy(t, key)
  {
    SameMembers(s, t);
    assert Distinct(s);
    DistinctOccursOnce(s);
    forall i, j | 0 <= i < j < |t| ensures key(t[i]) != key(t[j]) {
      assert t[i] in s && t[j] in s;
      if t[i] == t[j] { RepeatOccursTwice(t, i, j); }
    }
  }
}
