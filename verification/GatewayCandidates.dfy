/** The gateway candidate query: accounts joined with tokens and with the latest usage snapshot of a window. */
module GatewayCandidates {
  import opened Wrappers
  import opened Sorting
  import opened Text
  import opened AccountTables

  type Candidate = (Account, Token)

  function CandidateId(c: Candidate): string { c.0.id }

  // ---- ROW_NUMBER() OVER (PARTITION BY account_id ORDER BY captured_at DESC, id DESC)

  predicate Newer(a: UsageSnapshot, b: UsageSnapshot) {
    a.capturedAt > b.capturedAt || (a.capturedAt == b.capturedAt && a.id > b.id)
  }

  /** How many rows of `u`'s partition the window puts before it. */
  function RowsBefore(rows: seq<UsageSnapshot>, u: UsageSnapshot): nat {
    if rows == [] then 0
    else (if rows[0].accountId == u.accountId && Newer(rows[0], u) then 1 else 0) + RowsBefore(rows[1..], u)
  }

  function RowNumber(rows: seq<UsageSnapshot>, u: UsageSnapshot): nat {
    RowsBefore(rows, u) + 1
  }

  /** The join partners of an account: its rows numbered 1 within the whole CTE. */
  function LatestFor(rows: seq<UsageSnapshot>, window: seq<UsageSnapshot>, accountId: string): seq<UsageSnapshot> {
    if rows == [] then []
    else (if rows[0].accountId == accountId && RowNumber(window, rows[0]) == 1 then [rows[0]] else [])
         + LatestFor(rows[1..], window, accountId)
  }

  // ---- WHERE

  const BLOCKED_STATUSES := {"inactive", "disabled", "unavailable", "limited", "banned"}

  function LowerAscii(s: string): string {
    if s == "" then ""
    else [if 'A' <= s[0] <= 'Z' then ((s[0] as int) + 32) as char else s[0]] + LowerAscii(s[1..])
  }

  function StatusKey(a: Account): string {
    LowerAscii(SqlTrim(a.status))
  }

  predicate UsageAvailable(u: UsageSnapshot) {
    && u.usedPercent.Some? && u.windowMinutes.Some?
    && (u.secondaryUsedPercent.Some? <==> u.secondaryWindowMinutes.Some?)
    && u.usedPercent.value < 100.0
    && (u.secondaryUsedPercent.Some? ==> u.secondaryUsedPercent.value < 100.0)
  }

  predicate Admitted(a: Account, u: Option<UsageSnapshot>) {
    StatusKey(a) !in BLOCKED_STATUSES && (u.Some? ==> UsageAvailable(u.value))
  }

  // ---- FROM accounts JOIN tokens LEFT JOIN latest_usage

  function LeftJoin(matches: seq<UsageSnapshot>): seq<Option<UsageSnapshot>> {
    if matches == [] then [None] else seq(|matches|, i requires 0 <= i < |matches| => Some(matches[i]))
  }

  function JoinUsage(a: Account, t: Token, usages: seq<Option<UsageSnapshot>>): seq<Candidate> {
    if usages == [] then []
    else (if Admitted(a, usages[0]) then [(a, t)] else []) + JoinUsage(a, t, usages[1..])
  }

  function JoinTokens(a: Account, tokens: seq<Token>, usages: seq<Option<UsageSnapshot>>): seq<Candidate> {
    if tokens == [] then []
    else (if tokens[0].accountId == a.id then JoinUsage(a, tokens[0], usages) else []) + JoinTokens(a, tokens[1..], usages)
  }

  function JoinAccounts(accounts: seq<Account>, tokens: seq<Token>, usage: seq<UsageSnapshot>): seq<Candidate> {
    if accounts == [] then []
    else JoinTokens(accounts[0], tokens, LeftJoin(LatestFor(usage, usage, accounts[0].id)))
         + JoinAccounts(accounts[1..], tokens, usage)
  }

  /** ORDER BY sort ASC, updated_at DESC; rows that tie keep their scan order. */
  predicate ScanLe(a: Candidate, b: Candidate) {
    a.0.sort < b.0.sort || (a.0.sort == b.0.sort && a.0.updatedAt >= b.0.updatedAt)
  }

  /** `list_gateway_candidates`. */
  function Unscoped(t: Tables): seq<Candidate> {
    Sort(ScanLe, JoinAccounts(t.accounts, t.tokens, t.usage))
  }

  /** The query for one chunk: the id condition filters the accounts and, inside the CTE, the snapshots. */
  function Scoped(t: Tables, ids: set<string>): seq<Candidate> {
    Sort(ScanLe, JoinAccounts(Where(t.accounts, AccountId, ids), t.tokens, Where(t.usage, SnapshotOwner, ids)))
  }

  // ---- Pushing the id filter into the window changes no requested account

  lemma {:induction false} FilterKeepsRowNumbers(rows: seq<UsageSnapshot>, u: UsageSnapshot, ids: set<string>)
    requires u.accountId in ids
    ensures RowsBefore(Where(rows, SnapshotOwner, ids), u) == RowsBefore(rows, u)
  {
    if rows != [] {
      FilterKeepsRowNumbers(rows[1..], u, ids);
      var tail := Where(rows[1..], SnapshotOwner, ids);
      assert ([rows[0]] + tail)[1..] == tail && [] + tail == tail;
    }
  }

  lemma LatestCons(u: UsageSnapshot, rows: seq<UsageSnapshot>, window: seq<UsageSnapshot>, accountId: string)
    ensures LatestFor([u] + rows, window, accountId) ==
            (if u.accountId == accountId && RowNumber(window, u) == 1 then [u] else []) + LatestFor(rows, window, accountId)
  {
    assert ([u] + rows)[1..] == rows;
  }

  lemma {:induction false} FilterKeepsLatest(
      rows: seq<UsageSnapshot>, window: seq<UsageSnapshot>, accountId: string, ids: set<string>)
    requires accountId in ids
    ensures LatestFor(Where(rows, SnapshotOwner, ids), Where(window, SnapshotOwner, ids), accountId)
         == LatestFor(rows, window, accountId)
  {
    if rows != [] {
      hide Where, LatestFor, RowsBefore;
      FilterKeepsLatest(rows[1..], window, accountId, ids);
      assert rows == [rows[0]] + rows[1..];
      WhereCons(rows[0], rows[1..], SnapshotOwner, ids);
      LatestCons(rows[0], rows[1..], window, accountId);
      LatestCons(rows[0], Where(rows[1..], SnapshotOwner, ids), Where(window, SnapshotOwner, ids), accountId);
      if rows[0].accountId == accountId {
        FilterKeepsRowNumbers(window, rows[0], ids);
      } else {
        assert [] + Where(rows[1..], SnapshotOwner, ids) == Where(rows[1..], SnapshotOwner, ids);
      }
    }
  }

  lemma {:induction false} JoinYieldsOwnAccount(a: Account, tokens: seq<Token>, usages: seq<Option<UsageSnapshot>>)
    ensures forall c | c in JoinTokens(a, tokens, usages) :: c.0 == a
  {
    if tokens != [] {
      JoinUsageYieldsPair(a, tokens[0], usages);
      JoinYieldsOwnAccount(a, tokens[1..], usages);
    }
  }

  lemma {:induction false} JoinUsageYieldsPair(a: Account, t: Token, usages: seq<Option<UsageSnapshot>>)
    ensures forall c | c in JoinUsage(a, t, usages) :: c == (a, t)
    ensures |JoinUsage(a, t, usages)| <= |usages|
  {
    if usages != [] {
      JoinUsageYieldsPair(a, t, usages[1..]);
    }
  }

  lemma {:induction false} WhereAll<T>(rows: seq<T>, key: T -> string, ids: set<string>)
    requires forall row | row in rows :: key(row) in ids
    ensures Where(rows, key, ids) == rows
  {
    if rows != [] {
      assert rows[0] in rows;
      WhereAll(rows[1..], key, ids);
      assert rows == [rows[0]] + rows[1..];
    }
  }

  lemma {:induction false} WhereNone<T>(rows: seq<T>, key: T -> string, ids: set<string>)
    requires forall row | row in rows :: key(row) !in ids
    ensures Where(rows, key, ids) == []
  {
    if rows != [] {
      assert rows[0] in rows;
      WhereNone(rows[1..], key, ids);
    }
  }

  lemma WhereCons<T>(row: T, rows: seq<T>, key: T -> string, ids: set<string>)
    ensures Where([row] + rows, key, ids) == (if key(row) in ids then [row] else []) + Where(rows, key, ids)
  {
    assert ([row] + rows)[1..] == rows;
  }

  lemma {:induction false} WhereAppend<T>(a: seq<T>, b: seq<T>, key: T -> string, ids: set<string>)
    ensures Where(a + b, key, ids) == Where(a, key, ids) + Where(b, key, ids)
  {
    if a == [] {
      assert a + b == b;
    } else {
      WhereAppend(a[1..], b, key, ids);
      assert a + b == [a[0]] + (a[1..] + b);
      WhereCons(a[0], a[1..] + b, key, ids);
      WhereCons(a[0], a[1..], key, ids);
      assert [a[0]] + a[1..] == a;
    }
  }

  /** Filtering before the join is filtering after it, although the window then sees fewer snapshots. */
  lemma {:induction false} FilterCommutesWithJoin(
      accounts: seq<Account>, tokens: seq<Token>, usage: seq<UsageSnapshot>, ids: set<string>)
    ensures JoinAccounts(Where(accounts, AccountId, ids), tokens, Where(usage, SnapshotOwner, ids))
         == Where(JoinAccounts(accounts, tokens, usage), CandidateId, ids)
  {
    if accounts != [] {
      var a := accounts[0];
      var mine := JoinTokens(a, tokens, LeftJoin(LatestFor(usage, usage, a.id)));
      FilterCommutesWithJoin(accounts[1..], tokens, usage, ids);
      JoinYieldsOwnAccount(a, tokens, LeftJoin(LatestFor(usage, usage, a.id)));
      WhereAppend(mine, JoinAccounts(accounts[1..], tokens, usage), CandidateId, ids);
      var tail := Where(accounts[1..], AccountId, ids);
      if a.id in ids {
        FilterKeepsLatest(usage, usage, a.id, ids);
        WhereAll(mine, CandidateId, ids);
        assert ([a] + tail)[1..] == tail;
      } else {
        WhereNone(mine, CandidateId, ids);
        assert [] + tail == tail;
      }
    }
  }

  // ---- Every account yields at most one candidate

  lemma {:induction false} RowsBeforeZero(rows: seq<UsageSnapshot>, u: UsageSnapshot)
    requires RowsBefore(rows, u) == 0
    ensures forall v | v in rows && v.accountId == u.accountId :: !Newer(v, u)
  {
    if rows != [] {
      RowsBeforeZero(rows[1..], u);
      assert rows == [rows[0]] + rows[1..];
    }
  }

  lemma {:induction false} LatestRowsAreNumberedOne(rows: seq<UsageSnapshot>, window: seq<UsageSnapshot>, accountId: string)
    ensures forall u | u in LatestFor(rows, window, accountId) ::
              u in rows && u.accountId == accountId && RowNumber(window, u) == 1
  {
    if rows != [] {
      LatestRowsAreNumberedOne(rows[1..], window, accountId);
      assert rows == [rows[0]] + rows[1..];
    }
  }

  lemma {:induction false} OneLatestRow(rows: seq<UsageSnapshot>, window: seq<UsageSnapshot>, accountId: string)
    requires UniqueBy(rows, (u: UsageSnapshot) => u.id)
    requires forall u | u in rows :: u in window
    ensures |LatestFor(rows, window, accountId)| <= 1
  {
    if rows != [] {
      assert forall u | u in rows[1..] :: u in rows;
      OneLatestRow(rows[1..], window, accountId);
      LatestRowsAreNumberedOne(rows[1..], window, accountId);
      var tail := LatestFor(rows[1..], window, accountId);
      if rows[0].accountId == accountId && RowNumber(window, rows[0]) == 1 && tail != [] {
        var u := tail[0];
        assert u in rows[1..] && rows[0] in rows;
        var k :| 0 <= k < |rows| - 1 && rows[1..][k] == u;
        assert u == rows[k + 1] && u.id != rows[0].id by {
          var id := (u: UsageSnapshot) => u.id;
          assert id(rows[0]) != id(rows[k + 1]);
        }
        RowsBeforeZero(window, rows[0]);
        RowsBeforeZero(window, u);
        assert false;
      }
    }
  }

  lemma {:induction false} JoinTokensWithoutOwner(a: Account, tokens: seq<Token>, usages: seq<Option<UsageSnapshot>>)
    requires forall t | t in tokens :: t.accountId != a.id
    ensures JoinTokens(a, tokens, usages) == []
  {
    if tokens != [] {
      assert tokens[0] in tokens;
      JoinTokensWithoutOwner(a, tokens[1..], usages);
    }
  }

  lemma {:induction false} OneCandidatePerAccount(a: Account, tokens: seq<Token>, usages: seq<Option<UsageSnapshot>>)
    requires UniqueBy(tokens, TokenOwner) && |usages| <= 1
    ensures |JoinTokens(a, tokens, usages)| <= 1
  {
    if tokens != [] {
      if tokens[0].accountId == a.id {
        JoinUsageYieldsPair(a, tokens[0], usages);
        forall t | t in tokens[1..] ensures t.accountId != a.id {
          var k :| 0 <= k < |tokens| - 1 && tokens[1..][k] == t;
          assert TokenOwner(tokens[0]) != TokenOwner(tokens[k + 1]);
        }
        JoinTokensWithoutOwner(a, tokens[1..], usages);
      } else {
        OneCandidatePerAccount(a, tokens[1..], usages);
      }
    }
  }

  lemma UniqueInFront(mine: seq<Candidate>, rest: seq<Candidate>)
    requires |mine| <= 1 && UniqueBy(rest, CandidateId)
    requires forall c, d | c in mine && d in rest :: c.0.id != d.0.id
    ensures UniqueBy(mine + rest, CandidateId)
  {
    var all := mine + rest;
    forall i, j | 0 <= i < j < |all| ensures CandidateId(all[i]) != CandidateId(all[j]) {
      assert all[j] == rest[j - |mine|] && all[j] in rest;
      assert if i < |mine| then all[i] in mine else all[i] == rest[i - |mine|];
    }
  }

  lemma {:induction false} CandidatesAreUnique(accounts: seq<Account>, tokens: seq<Token>, usage: seq<UsageSnapshot>)
    requires UniqueBy(accounts, AccountId) && UniqueBy(tokens, TokenOwner) && UniqueBy(usage, (u: UsageSnapshot) => u.id)
    ensures UniqueBy(JoinAccounts(accounts, tokens, usage), CandidateId)
    ensures forall c | c in JoinAccounts(accounts, tokens, usage) :: c.0 in accounts
  {
    hide JoinTokens, LatestFor, Admitted;
    if accounts != [] {
      var a := accounts[0];
      var mine := JoinTokens(a, tokens, LeftJoin(LatestFor(usage, usage, a.id)));
      var rest := JoinAccounts(accounts[1..], tokens, usage);
      CandidatesAreUnique(accounts[1..], tokens, usage);
      OneLatestRow(usage, usage, a.id);
      OneCandidatePerAccount(a, tokens, LeftJoin(LatestFor(usage, usage, a.id)));
      JoinYieldsOwnAccount(a, tokens, LeftJoin(LatestFor(usage, usage, a.id)));
      forall c | c in rest ensures c.0.id != a.id && c.0 in accounts {
        assert c.0 in accounts[1..];
        var k :| 0 <= k < |accounts| - 1 && accounts[1..][k] == c.0;
        assert AccountId(accounts[0]) != AccountId(accounts[k + 1]);
      }
      UniqueInFront(mine, rest);
    }
  }

  // ---- The order of the batched form

  function CandidateRank(c: Candidate): Rank { RankOf(c.0) }

  predicate CandidateLe(a: Candidate, b: Candidate) {
    RankLe(CandidateRank(a), CandidateRank(b))
  }

  /** A chunk's rows are the unscoped query's rows for that chunk, in some order. */
  lemma ScopedIsUnscopedForIds(t: Tables, ids: set<string>)
    ensures multiset(Scoped(t, ids)) == multiset(Where(JoinAccounts(t.accounts, t.tokens, t.usage), CandidateId, ids))
  {
    FilterCommutesWithJoin(t.accounts, t.tokens, t.usage, ids);
  }

  lemma UnscopedMembers(t: Tables)
    ensures forall c :: c in Unscoped(t) <==> c in JoinAccounts(t.accounts, t.tokens, t.usage)
  {
    SameMembers(Unscoped(t), JoinAccounts(t.accounts, t.tokens, t.usage));
  }
}
