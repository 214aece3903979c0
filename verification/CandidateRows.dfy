/** Which rows the gateway candidate query returns and in which order, in terms of the tables' columns. */
module CandidateRows {
  import opened Wrappers
  import opened Sorting
  import opened Text
  import opened AccountTables
  import opened GatewayCandidates

  // ---- Status words

  /** The word stands in the column at `at` in any mix of ASCII cases, with nothing but spaces around it. */
  ghost predicate WordAt(column: string, word: string, at: nat) {
    && at + |word| <= |column|
    && (forall k | 0 <= k < |column| && !(at <= k < at + |word|) :: column[k] == ' ')
    && (forall k | 0 <= k < |word| ::
          word[k] == if 'A' <= column[at + k] <= 'Z' then ((column[at + k] as int) + 32) as char else column[at + k])
  }

  ghost predicate MeansWord(column: string, word: string) {
    exists at: nat :: WordAt(column, word, at)
  }

  lemma {:induction false} LowerAsciiByPosition(s: string)
    ensures |LowerAscii(s)| == |s|
    ensures forall k | 0 <= k < |s| ::
              LowerAscii(s)[k] == if 'A' <= s[k] <= 'Z' then ((s[k] as int) + 32) as char else s[k]
  {
    if s != "" {
      LowerAsciiByPosition(s[1..]);
      forall k | 0 <= k < |s|
        ensures LowerAscii(s)[k] == if 'A' <= s[k] <= 'Z' then ((s[k] as int) + 32) as char else s[k]
      {
        if k > 0 { assert s[k] == s[1..][k - 1]; }
      }
    }
  }

  /** A status is compared as the word it spells. */
  lemma StatusIsWord(a: Account, word: string)
    requires word != "" && word[0] != ' ' && word[|word| - 1] != ' '
    ensures StatusKey(a) == word <==> MeansWord(a.status, word)
  {
    hide LowerAscii, TrimWith;
    var column := a.status;
    LowerAsciiByPosition(SqlTrim(column));
    if StatusKey(a) == word {
      var at := TrimKeepsCore(IsSqlBlank, column);
      forall k | 0 <= k < |word| ensures SqlTrim(column)[k] == column[at + k] {
        assert column[at..at + |word|][k] == column[at + k];
      }
      assert WordAt(column, word, at);
    }
    if at: nat :| WordAt(column, word, at) {
      var core := column[at..at + |word|];
      assert core[0] == column[at] && core[|word| - 1] == column[at + |word| - 1];
      assert CoreAt(IsSqlBlank, column, core, at);
      TrimIsCore(IsSqlBlank, column, core, at);
      assert StatusKey(a) == word;
    }
  }

  // ---- Candidates

  /** No snapshot of `u`'s account was captured later, nor at the same time under a larger id. */
  ghost predicate IsLatest(usage: seq<UsageSnapshot>, u: UsageSnapshot) {
    forall v | v in usage && v.accountId == u.accountId ::
      v.capturedAt < u.capturedAt || (v.capturedAt == u.capturedAt && v.id <= u.id)
  }

  /** An account of the table with a token of its own, whose status is none of the five words, and which was never
      measured or has room in its latest snapshot: percentage and window are set, the secondary ones both or neither,
      and no percentage has reached 100. */
  ghost predicate IsCandidate(t: Tables, a: Account, token: Token) {
    && a in t.accounts && token in t.tokens && token.accountId == a.id
    && !MeansWord(a.status, "inactive") && !MeansWord(a.status, "disabled") && !MeansWord(a.status, "unavailable")
    && !MeansWord(a.status, "limited") && !MeansWord(a.status, "banned")
    && (|| (forall u | u in t.usage :: u.accountId != a.id)
        || (exists u | u in t.usage && u.accountId == a.id ::
              && IsLatest(t.usage, u)
              && u.usedPercent.Some? && u.usedPercent.value < 100.0 && u.windowMinutes.Some?
              && (u.secondaryUsedPercent.Some? <==> u.secondaryWindowMinutes.Some?)
              && (u.secondaryUsedPercent.Some? ==> u.secondaryUsedPercent.value < 100.0)))
  }

  lemma BlockedIsWord(a: Account)
    ensures StatusKey(a) in BLOCKED_STATUSES <==>
            || MeansWord(a.status, "inactive") || MeansWord(a.status, "disabled") || MeansWord(a.status, "unavailable")
            || MeansWord(a.status, "limited") || MeansWord(a.status, "banned")
  {
    hide MeansWord, StatusKey;
    StatusIsWord(a, "inactive");
    StatusIsWord(a, "disabled");
    StatusIsWord(a, "unavailable");
    StatusIsWord(a, "limited");
    StatusIsWord(a, "banned");
  }

  lemma {:induction false} NoneBefore(rows: seq<UsageSnapshot>, u: UsageSnapshot)
    ensures RowsBefore(rows, u) == 0 <==> IsLatest(rows, u)
  {
    if rows != [] {
      NoneBefore(rows[1..], u);
      assert rows == [rows[0]] + rows[1..];
    }
  }

  lemma {:induction false} LatestRows(rows: seq<UsageSnapshot>, window: seq<UsageSnapshot>, accountId: string)
    ensures forall u | u in LatestFor(rows, window, accountId) :: u in rows && u.accountId == accountId && IsLatest(window, u)
    ensures forall u | u in rows && u.accountId == accountId && IsLatest(window, u) :: u in LatestFor(rows, window, accountId)
  {
    hide RowsBefore, IsLatest;
    if rows != [] {
      LatestRows(rows[1..], window, accountId);
      NoneBefore(window, rows[0]);
      assert rows == [rows[0]] + rows[1..];
    }
  }

  lemma {:induction false} NeverMeasured(rows: seq<UsageSnapshot>, window: seq<UsageSnapshot>, accountId: string)
    requires forall u | u in rows :: u.accountId != accountId
    ensures LatestFor(rows, window, accountId) == []
  {
    if rows != [] {
      assert rows[0] in rows;
      NeverMeasured(rows[1..], window, accountId);
    }
  }

  /** A measured account has a latest snapshot. */
  lemma {:induction false} LatestExists(rows: seq<UsageSnapshot>, accountId: string) returns (u: UsageSnapshot)
    requires exists v | v in rows :: v.accountId == accountId
    ensures u in rows && u.accountId == accountId && IsLatest(rows, u)
  {
    assert rows == [rows[0]] + rows[1..];
    if exists v | v in rows[1..] :: v.accountId == accountId {
      u := LatestExists(rows[1..], accountId);
      var first := rows[0];
      if first.accountId == accountId
         && (first.capturedAt > u.capturedAt || (first.capturedAt == u.capturedAt && first.id > u.id)) {
        u := first;
      }
    } else {
      u := rows[0];
    }
  }

  lemma {:induction false} UsageMembers(a: Account, token: Token, usages: seq<Option<UsageSnapshot>>)
    ensures (a, token) in JoinUsage(a, token, usages) <==> exists u | u in usages :: Admitted(a, u)
  {
    hide Admitted;
    if usages != [] {
      UsageMembers(a, token, usages[1..]);
      assert usages == [usages[0]] + usages[1..];
    }
  }

  lemma {:induction false} TokenMembers(a: Account, tokens: seq<Token>, usages: seq<Option<UsageSnapshot>>, token: Token)
    ensures (a, token) in JoinTokens(a, tokens, usages) <==>
            token in tokens && token.accountId == a.id && exists u | u in usages :: Admitted(a, u)
  {
    hide Admitted, JoinUsage;
    if tokens != [] {
      TokenMembers(a, tokens[1..], usages, token);
      UsageMembers(a, tokens[0], usages);
      JoinUsageYieldsPair(a, tokens[0], usages);
      assert tokens == [tokens[0]] + tokens[1..];
    }
  }

  lemma {:induction false} AccountMembers(
      accounts: seq<Account>, tokens: seq<Token>, usage: seq<UsageSnapshot>, a: Account, token: Token)
    ensures (a, token) in JoinAccounts(accounts, tokens, usage) <==>
            && a in accounts && token in tokens && token.accountId == a.id
            && exists u | u in LeftJoin(LatestFor(usage, usage, a.id)) :: Admitted(a, u)
  {
    hide Admitted, JoinTokens, LeftJoin, LatestFor;
    if accounts != [] {
      var joined := LeftJoin(LatestFor(usage, usage, accounts[0].id));
      AccountMembers(accounts[1..], tokens, usage, a, token);
      TokenMembers(accounts[0], tokens, joined, token);
      JoinYieldsOwnAccount(accounts[0], tokens, joined);
      assert accounts == [accounts[0]] + accounts[1..];
    }
  }

  /** The rows an account is joined with admit it exactly if it was never measured or its latest row has room. */
  lemma AdmittedByLatest(usage: seq<UsageSnapshot>, a: Account)
    ensures (exists u | u in LeftJoin(LatestFor(usage, usage, a.id)) :: Admitted(a, u)) <==>
            && StatusKey(a) !in BLOCKED_STATUSES
            && (|| (forall u | u in usage :: u.accountId != a.id)
                || exists u | u in usage && u.accountId == a.id :: IsLatest(usage, u) && UsageAvailable(u))
  {
    hide LatestFor, IsLatest, StatusKey, UsageAvailable;
    var latest := LatestFor(usage, usage, a.id);
    LatestRows(usage, usage, a.id);
    if forall u | u in usage :: u.accountId != a.id {
      NeverMeasured(usage, usage, a.id);
      assert LeftJoin(latest) == [None];
      assert None in LeftJoin(latest);
    } else {
      var last := LatestExists(usage, a.id);
      assert last in latest;
      AdmittedByRow(latest, a);
    }
  }

  lemma AdmittedByRow(rows: seq<UsageSnapshot>, a: Account)
    requires rows != []
    ensures (exists u | u in LeftJoin(rows) :: Admitted(a, u)) <==>
            StatusKey(a) !in BLOCKED_STATUSES && exists u | u in rows :: UsageAvailable(u)
  {
    hide LeftJoin, StatusKey, UsageAvailable;
    JoinedRows(rows);
    if u :| u in LeftJoin(rows) && Admitted(a, u) {
      assert u.value in rows && UsageAvailable(u.value);
    }
    if u :| u in rows && UsageAvailable(u) && StatusKey(a) !in BLOCKED_STATUSES {
      assert Admitted(a, Some(u));
    }
  }

  lemma JoinedRows(rows: seq<UsageSnapshot>)
    requires rows != []
    ensures forall u | u in rows :: Some(u) in LeftJoin(rows)
    ensures forall u | u in LeftJoin(rows) :: u.Some? && u.value in rows
  {
    forall u | u in rows ensures Some(u) in LeftJoin(rows) {
      var i :| 0 <= i < |rows| && rows[i] == u;
      assert LeftJoin(rows)[i] == Some(u);
    }
  }

  lemma UnscopedIsCandidates(t: Tables, a: Account, token: Token)
    ensures (a, token) in Unscoped(t) <==> IsCandidate(t, a, token)
  {
    hide LeftJoin, LatestFor, IsLatest, MeansWord, StatusKey, JoinAccounts, Sort;
    UnscopedMembers(t);
    AccountMembers(t.accounts, t.tokens, t.usage, a, token);
    AdmittedByLatest(t.usage, a);
    BlockedIsWord(a);
    if exists u | u in t.usage && u.accountId == a.id :: IsLatest(t.usage, u) && UsageAvailable(u) {
      var u :| u in t.usage && u.accountId == a.id && IsLatest(t.usage, u) && UsageAvailable(u);
    }
  }

  // ---- Order

  lemma UnscopedIsOrdered(t: Tables)
    ensures var out := Unscoped(t);
            forall i, j | 0 <= i < j < |out| ::
              || out[i].0.sort < out[j].0.sort
              || (out[i].0.sort == out[j].0.sort && out[i].0.updatedAt >= out[j].0.updatedAt)
  {
    hide JoinAccounts;
    SortSorts(ScanLe, JoinAccounts(t.accounts, t.tokens, t.usage));
  }

  /** Smaller sort first, then the later update, then the id that is smaller where the two first differ. */
  ghost predicate RanksBefore(a: Account, b: Account) {
    || a.sort < b.sort
    || (a.sort == b.sort && a.updatedAt > b.updatedAt)
    || (a.sort == b.sort && a.updatedAt == b.updatedAt && exists k: nat :: BelowFrom(a.id, b.id, k))
  }

  lemma StrictRank(a: Account, b: Account)
    ensures RankLe(RankOf(a), RankOf(b)) && !RankLe(RankOf(b), RankOf(a)) <==> RanksBefore(a, b)
  {
    hide BelowFrom, StringLe;
    StringLeIsLexicographic(a.id, b.id);
    StringLeIsLexicographic(b.id, a.id);
    StringLeTotal(a.id, b.id);
    StringLeTotal(a.id, a.id);
    BelowIsStrict(a.id, b.id);
  }

  lemma StrictlyRanked(accounts: seq<Account>)
    requires StrictlySorted(AccountLe, accounts)
    ensures forall i, j | 0 <= i < j < |accounts| :: RanksBefore(accounts[i], accounts[j])
  {
    forall i, j | 0 <= i < j < |accounts| ensures RanksBefore(accounts[i], accounts[j]) {
      StrictRank(accounts[i], accounts[j]);
      assert AccountLe(accounts[i], accounts[j]) && !AccountLe(accounts[j], accounts[i]);
    }
  }

  lemma StrictlyRankedCandidates(candidates: seq<Candidate>)
    requires StrictlySorted(CandidateLe, candidates)
    ensures forall i, j | 0 <= i < j < |candidates| :: RanksBefore(candidates[i].0, candidates[j].0)
  {
    forall i, j | 0 <= i < j < |candidates| ensures RanksBefore(candidates[i].0, candidates[j].0) {
      StrictRank(candidates[i].0, candidates[j].0);
      assert CandidateLe(candidates[i], candidates[j]) && !CandidateLe(candidates[j], candidates[i]);
    }
  }
}
