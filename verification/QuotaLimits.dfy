/** Token quota accounting: the usage query in both its scopes, and the totals computed over it. */
module QuotaLimits {
  import opened Wrappers
  import opened Sorting
  import opened Text

  datatype StatRow = StatRow(
    keyId: Option<string>, inputTokens: Option<int>, cachedInputTokens: Option<int>, outputTokens: Option<int>,
    totalTokens: Option<int>)

  datatype LimitRow = LimitRow(keyId: string, limitTokens: int)

  datatype QuotaTables = QuotaTables(
    keys: seq<string>, limits: seq<LimitRow>, raw: seq<StatRow>, hourly: seq<StatRow>, legacy: seq<StatRow>)

  datatype UsageEntry = UsageEntry(keyId: string, tokens: nat)

  function Positive(n: int): nat {
    if n > 0 then n else 0
  }

  /** `key_id IS NOT NULL AND TRIM(key_id) <> ''` */
  predicate Named(s: StatRow) {
    s.keyId.Some? && SqlTrim(s.keyId.value) != ""
  }

  function RawTokens(s: StatRow): nat {
    match s.totalTokens
    case Some(total) => Positive(total)
    case None => Positive(s.inputTokens.GetOr(0) - s.cachedInputTokens.GetOr(0) + s.outputTokens.GetOr(0))
  }

  function RollupTokens(s: StatRow): nat {
    Positive(s.totalTokens.GetOr(0))
  }

  /** What a row adds to the usage union: rollup rows are keyed by the trimmed key id. */
  function Entry(s: StatRow, rollup: bool): UsageEntry
    requires Named(s)
  {
    if rollup then UsageEntry(SqlTrim(s.keyId.value), RollupTokens(s)) else UsageEntry(s.keyId.value, RawTokens(s))
  }

  /** One branch of the union over all keys. */
  function Scan(rows: seq<StatRow>, rollup: bool): seq<UsageEntry> {
    if rows == [] then [] else (if Named(rows[0]) then [Entry(rows[0], rollup)] else []) + Scan(rows[1..], rollup)
  }

  /** One limit row's share of the cross join, which compares the key ids untrimmed. */
  function JoinLimit(q: LimitRow, rows: seq<StatRow>, rollup: bool): seq<UsageEntry> {
    if rows == [] then []
    else (if q.limitTokens > 0 && rows[0].keyId == Some(q.keyId) && Named(rows[0]) then [Entry(rows[0], rollup)] else [])
         + JoinLimit(q, rows[1..], rollup)
  }

  function CrossJoin(limits: seq<LimitRow>, rows: seq<StatRow>, rollup: bool): seq<UsageEntry> {
    if limits == [] then [] else JoinLimit(limits[0], rows, rollup) + CrossJoin(limits[1..], rows, rollup)
  }

  /** The union in scope `AllKeys`. */
  function AllEntries(t: QuotaTables): seq<UsageEntry> {
    Scan(t.raw, false) + Scan(t.hourly, true) + Scan(t.legacy, true)
  }

  /** The union in scope `LimitedQuotaKeys`. */
  function LimitedEntries(t: QuotaTables): seq<UsageEntry> {
    CrossJoin(t.limits, t.raw, false) + CrossJoin(t.limits, t.hourly, true) + CrossJoin(t.limits, t.legacy, true)
  }

  /** `used_tokens` of one group, 0 for a key without a group. */
  function Used(entries: seq<UsageEntry>, keyId: string): nat {
    if entries == [] then 0
    else (if entries[0].keyId == keyId then entries[0].tokens else 0) + Used(entries[1..], keyId)
  }

  function Remaining(q: LimitRow, used: string -> nat): nat {
    Positive(q.limitTokens - used(q.keyId))
  }

  /** A limit row's contribution for each API key it joins. */
  function OverKeys(q: LimitRow, keys: seq<string>, used: string -> nat): nat {
    if keys == [] then 0
    else (if q.limitTokens > 0 && keys[0] == q.keyId then Remaining(q, used) else 0) + OverKeys(q, keys[1..], used)
  }

  function OverLimits(limits: seq<LimitRow>, keys: seq<string>, used: string -> nat): nat {
    if limits == [] then 0 else OverKeys(limits[0], keys, used) + OverLimits(limits[1..], keys, used)
  }

  /** `api_key_remaining_quota_tokens` */
  function RemainingQuotaTokens(t: QuotaTables): nat {
    OverLimits(t.limits, t.keys, k => Used(LimitedEntries(t), k))
  }

  // ---- The overview: api_keys LEFT JOIN limits LEFT JOIN usage

  datatype OverviewRow = OverviewRow(keyId: string, limit: Option<LimitRow>)

  datatype Overview = Overview(
    keyCount: nat, limitedKeyCount: nat, totalLimitTokens: nat, totalUsedTokens: nat, totalRemainingTokens: nat)

  function MatchingLimits(keyId: string, limits: seq<LimitRow>): seq<OverviewRow> {
    if limits == [] then []
    else (if limits[0].keyId == keyId && limits[0].limitTokens > 0 then [OverviewRow(keyId, Some(limits[0]))] else [])
         + MatchingLimits(keyId, limits[1..])
  }

  function OverviewRows(keys: seq<string>, limits: seq<LimitRow>): seq<OverviewRow> {
    if keys == [] then []
    else
      var matches := MatchingLimits(keys[0], limits);
      (if matches == [] then [OverviewRow(keys[0], None)] else matches) + OverviewRows(keys[1..], limits)
  }

  function Totals(rows: seq<OverviewRow>, used: string -> nat): Overview {
    if rows == [] then Overview(0, 0, 0, 0, 0)
    else
      var rest := Totals(rows[1..], used);
      var here := used(rows[0].keyId);
      match rows[0].limit
      case None => rest.(keyCount := rest.keyCount + 1, totalUsedTokens := rest.totalUsedTokens + here)
      case Some(q) =>
        Overview(rest.keyCount + 1, rest.limitedKeyCount + 1, rest.totalLimitTokens + Positive(q.limitTokens),
                 rest.totalUsedTokens + here, rest.totalRemainingTokens + Remaining(q, used))
  }

  function QuotaOverview(t: QuotaTables): Overview {
    Totals(OverviewRows(t.keys, t.limits), k => Used(AllEntries(t), k))
  }

  // ---- Agreement of the two totals

  ghost predicate PrimaryKeys(keys: seq<string>, limits: seq<LimitRow>) {
    && Distinct(keys)
    && forall i, j | 0 <= i < j < |limits| :: limits[i].keyId != limits[j].keyId
  }

  /** Every rollup row that counts is stored under an unpadded key id. */
  ghost predicate Unpadded(rows: seq<StatRow>) {
    forall s | s in rows && Named(s) && RollupTokens(s) > 0 :: SqlTrim(s.keyId.value) == s.keyId.value
  }

  lemma {:induction false} UsedAppend(a: seq<UsageEntry>, b: seq<UsageEntry>, keyId: string)
    ensures Used(a + b, keyId) == Used(a, keyId) + Used(b, keyId)
  {
    if a == [] {
      assert a + b == b;
    } else {
      UsedAppend(a[1..], b, keyId);
      assert (a + b)[1..] == a[1..] + b;
    }
  }

  lemma {:induction false} UsedBranches(a: seq<UsageEntry>, b: seq<UsageEntry>, c: seq<UsageEntry>, keyId: string)
    ensures Used(a + b + c, keyId) == Used(a, keyId) + Used(b, keyId) + Used(c, keyId)
  {
    UsedAppend(a + b, c, keyId);
    UsedAppend(a, b, keyId);
  }

  lemma UsedCons(e: seq<UsageEntry>, rest: seq<UsageEntry>, keyId: string)
    requires |e| <= 1
    ensures Used(e + rest, keyId) == (if e != [] && e[0].keyId == keyId then e[0].tokens else 0) + Used(rest, keyId)
  {
    UsedAppend(e, rest, keyId);
  }

  /** A limit row's join yields its own key's usage, and nothing under any other key. */
  lemma {:induction false} JoinLimitUsage(q: LimitRow, rows: seq<StatRow>, rollup: bool, keyId: string)
    requires rollup ==> Unpadded(rows)
    ensures Used(JoinLimit(q, rows, rollup), keyId) ==
            if q.limitTokens > 0 && q.keyId == keyId then Used(Scan(rows, rollup), keyId) else 0
  {
    if rows != [] {
      assert rows[0] in rows && forall s | s in rows[1..] :: s in rows;
      JoinLimitUsage(q, rows[1..], rollup, keyId);
      var mine := if Named(rows[0]) then [Entry(rows[0], rollup)] else [];
      UsedCons(mine, Scan(rows[1..], rollup), keyId);
      UsedCons(if q.limitTokens > 0 && rows[0].keyId == Some(q.keyId) then mine else [], JoinLimit(q, rows[1..], rollup), keyId);
    }
  }

  lemma {:induction false} CrossJoinUsage(limits: seq<LimitRow>, rows: seq<StatRow>, rollup: bool, keyId: string)
    requires rollup ==> Unpadded(rows)
    requires forall i, j | 0 <= i < j < |limits| :: limits[i].keyId != limits[j].keyId
    ensures Used(CrossJoin(limits, rows, rollup), keyId) ==
            if exists q | q in limits :: q.limitTokens > 0 && q.keyId == keyId then Used(Scan(rows, rollup), keyId) else 0
  {
    if limits != [] {
      var rest := limits[1..];
      JoinLimitUsage(limits[0], rows, rollup, keyId);
      CrossJoinUsage(rest, rows, rollup, keyId);
      UsedAppend(JoinLimit(limits[0], rows, rollup), CrossJoin(rest, rows, rollup), keyId);
      assert limits == [limits[0]] + rest;
      forall q | q in rest ensures q.keyId != limits[0].keyId {
        var k :| 0 <= k < |rest| && rest[k] == q;
        assert q == limits[k + 1];
      }
    }
  }

  /** Pushing the limit table into each branch leaves a limited key's usage alone. */
  lemma ScopesReportSameUsage(t: QuotaTables, q: LimitRow)
    requires PrimaryKeys(t.keys, t.limits) && Unpadded(t.hourly) && Unpadded(t.legacy)
    requires q in t.limits && q.limitTokens > 0
    ensures Used(LimitedEntries(t), q.keyId) == Used(AllEntries(t), q.keyId)
  {
    CrossJoinUsage(t.limits, t.raw, false, q.keyId);
    CrossJoinUsage(t.limits, t.hourly, true, q.keyId);
    CrossJoinUsage(t.limits, t.legacy, true, q.keyId);
    UsedBranches(Scan(t.raw, false), Scan(t.hourly, true), Scan(t.legacy, true), q.keyId);
    UsedBranches(CrossJoin(t.limits, t.raw, false), CrossJoin(t.limits, t.hourly, true),
      CrossJoin(t.limits, t.legacy, true), q.keyId);
  }

  /** The remaining tokens of the overview, one API key at a time. */
  function OverMatches(keyId: string, limits: seq<LimitRow>, used: string -> nat): nat {
    if limits == [] then 0
    else (if limits[0].keyId == keyId && limits[0].limitTokens > 0 then Remaining(limits[0], used) else 0)
         + OverMatches(keyId, limits[1..], used)
  }

  function OverAll(keys: seq<string>, limits: seq<LimitRow>, used: string -> nat): nat {
    if keys == [] then 0 else OverMatches(keys[0], limits, used) + OverAll(keys[1..], limits, used)
  }

  lemma {:induction false} TotalsAppend(a: seq<OverviewRow>, b: seq<OverviewRow>, used: string -> nat)
    ensures Totals(a + b, used).totalRemainingTokens ==
            Totals(a, used).totalRemainingTokens + Totals(b, used).totalRemainingTokens
  {
    if a == [] {
      assert a + b == b;
    } else {
      TotalsAppend(a[1..], b, used);
      assert (a + b)[1..] == a[1..] + b;
    }
  }

  lemma {:induction false} MatchesTotal(keyId: string, limits: seq<LimitRow>, used: string -> nat)
    ensures Totals(MatchingLimits(keyId, limits), used).totalRemainingTokens == OverMatches(keyId, limits, used)
  {
    if limits != [] {
      MatchesTotal(keyId, limits[1..], used);
      var tail := MatchingLimits(keyId, limits[1..]);
      assert ([OverviewRow(keyId, Some(limits[0]))] + tail)[1..] == tail && [] + tail == tail;
    }
  }

  lemma {:induction false} OverviewTotal(keys: seq<string>, limits: seq<LimitRow>, used: string -> nat)
    ensures Totals(OverviewRows(keys, limits), used).totalRemainingTokens == OverAll(keys, limits, used)
  {
    if keys != [] {
      var matches := MatchingLimits(keys[0], limits);
      var rows := if matches == [] then [OverviewRow(keys[0], None)] else matches;
      MatchesTotal(keys[0], limits, used);
      OverviewTotal(keys[1..], limits, used);
      TotalsAppend(rows, OverviewRows(keys[1..], limits), used);
      assert matches == [] ==> Totals(rows, used).totalRemainingTokens == 0;
    }
  }

  /** Summing over limits and then keys is summing over keys and then limits. */
  lemma {:induction false} SumsCommute(limits: seq<LimitRow>, keys: seq<string>, used: string -> nat)
    ensures OverLimits(limits, keys, used) == OverAll(keys, limits, used)
  {
    if limits == [] {
      NoLimitsNoTotal(keys, used);
    } else {
      SumsCommute(limits[1..], keys, used);
      SplitFirstLimit(limits, keys, used);
    }
  }

  lemma {:induction false} NoLimitsNoTotal(keys: seq<string>, used: string -> nat)
    ensures OverAll(keys, [], used) == 0
  {
    if keys != [] { NoLimitsNoTotal(keys[1..], used); }
  }

  lemma {:induction false} SplitFirstLimit(limits: seq<LimitRow>, keys: seq<string>, used: string -> nat)
    requires limits != []
    ensures OverAll(keys, limits, used) == OverKeys(limits[0], keys, used) + OverAll(keys, limits[1..], used)
  {
    if keys != [] { SplitFirstLimit(limits, keys[1..], used); }
  }

  /** Only the usage of limited keys matters to the sum over limits. */
  lemma {:induction false} OverLimitsDependsOnLimitedKeys(
      limits: seq<LimitRow>, keys: seq<string>, one: string -> nat, other: string -> nat)
    requires forall q | q in limits && q.limitTokens > 0 :: one(q.keyId) == other(q.keyId)
    ensures OverLimits(limits, keys, one) == OverLimits(limits, keys, other)
  {
    if limits != [] {
      assert limits[0] in limits && forall q | q in limits[1..] :: q in limits;
      OverLimitsDependsOnLimitedKeys(limits[1..], keys, one, other);
      OverKeysDependsOnLimit(limits[0], keys, one, other);
    }
  }

  lemma {:induction false} OverKeysDependsOnLimit(q: LimitRow, keys: seq<string>, one: string -> nat, other: string -> nat)
    requires q.limitTokens > 0 ==> one(q.keyId) == other(q.keyId)
    ensures OverKeys(q, keys, one) == OverKeys(q, keys, other)
  {
    if keys != [] { OverKeysDependsOnLimit(q, keys[1..], one, other); }
  }

  /** The total over limited keys only is the overview's total, for any usage tables without padded rollup keys. */
  lemma QuotaTotalsAgree(t: QuotaTables)
    requires PrimaryKeys(t.keys, t.limits) && Unpadded(t.hourly) && Unpadded(t.legacy)
    ensures RemainingQuotaTokens(t) == QuotaOverview(t).totalRemainingTokens
  {
    var limited := k => Used(LimitedEntries(t), k);
    var all := k => Used(AllEntries(t), k);
    forall q | q in t.limits && q.limitTokens > 0 ensures limited(q.keyId) == all(q.keyId) {
      ScopesReportSameUsage(t, q);
    }
    OverLimitsDependsOnLimitedKeys(t.limits, t.keys, limited, all);
    SumsCommute(t.limits, t.keys, all);
    OverviewTotal(t.keys, t.limits, all);
  }

  // ---- Padding is exactly what breaks the agreement

  lemma {:induction false} JoinSeesNoMore(q: LimitRow, rows: seq<StatRow>, rollup: bool)
    ensures Used(JoinLimit(q, rows, rollup), q.keyId) <= Used(Scan(rows, rollup), q.keyId)
  {
    if rows != [] {
      JoinSeesNoMore(q, rows[1..], rollup);
      var mine := if Named(rows[0]) then [Entry(rows[0], rollup)] else [];
      UsedCons(mine, Scan(rows[1..], rollup), q.keyId);
      UsedCons(if q.limitTokens > 0 && rows[0].keyId == Some(q.keyId) then mine else [], JoinLimit(q, rows[1..], rollup), q.keyId);
    }
  }

  lemma {:induction false} JoinMissesPaddedRow(q: LimitRow, rows: seq<StatRow>, s: StatRow)
    requires s in rows && Named(s) && RollupTokens(s) > 0 && SqlTrim(s.keyId.value) == q.keyId != s.keyId.value
    ensures Used(JoinLimit(q, rows, true), q.keyId) < Used(Scan(rows, true), q.keyId)
  {
    var mine := if Named(rows[0]) then [Entry(rows[0], true)] else [];
    UsedCons(mine, Scan(rows[1..], true), q.keyId);
    UsedCons(if q.limitTokens > 0 && rows[0].keyId == Some(q.keyId) then mine else [], JoinLimit(q, rows[1..], true), q.keyId);
    if rows[0] == s {
      JoinSeesNoMore(q, rows[1..], true);
    } else {
      assert rows == [rows[0]] + rows[1..];
      JoinMissesPaddedRow(q, rows[1..], s);
    }
  }

  /** A padded rollup row that counts makes the totals differ for the key it stands for. */
  lemma PaddedRowBreaksAgreement(raw: seq<StatRow>, hourly: seq<StatRow>, legacy: seq<StatRow>, s: StatRow)
    returns (keys: seq<string>, limits: seq<LimitRow>)
    requires s in hourly + legacy && Named(s) && RollupTokens(s) > 0 && SqlTrim(s.keyId.value) != s.keyId.value
    ensures PrimaryKeys(keys, limits)
    ensures var t := QuotaTables(keys, limits, raw, hourly, legacy);
            RemainingQuotaTokens(t) != QuotaOverview(t).totalRemainingTokens
  {
    var keyId := SqlTrim(s.keyId.value);
    var used := Used(Scan(raw, false) + Scan(hourly, true) + Scan(legacy, true), keyId);
    var q := LimitRow(keyId, used + 1);
    keys, limits := [keyId], [q];
    var t := QuotaTables(keys, limits, raw, hourly, legacy);
    forall rows: seq<StatRow>, rollup: bool ensures CrossJoin(limits, rows, rollup) == JoinLimit(q, rows, rollup) {
      assert limits[1..] == [] && JoinLimit(q, rows, rollup) + [] == JoinLimit(q, rows, rollup);
    }
    UsedBranches(Scan(raw, false), Scan(hourly, true), Scan(legacy, true), keyId);
    UsedBranches(JoinLimit(q, raw, false), JoinLimit(q, hourly, true), JoinLimit(q, legacy, true), keyId);
    JoinSeesNoMore(q, raw, false);
    JoinSeesNoMore(q, hourly, true);
    JoinSeesNoMore(q, legacy, true);
    if s in hourly { JoinMissesPaddedRow(q, hourly, s); } else { JoinMissesPaddedRow(q, legacy, s); }
    assert Used(LimitedEntries(t), keyId) < Used(AllEntries(t), keyId) == used;
    LoneLimitTotal(keyId, q, k => Used(LimitedEntries(t), k));
    LoneLimitTotal(keyId, q, k => Used(AllEntries(t), k));
    OverviewTotal(keys, limits, k => Used(AllEntries(t), k));
    SumsCommute(limits, keys, k => Used(AllEntries(t), k));
  }

  lemma LoneLimitTotal(keyId: string, q: LimitRow, used: string -> nat)
    requires q.keyId == keyId && q.limitTokens > 0
    ensures OverLimits([q], [keyId], used) == Remaining(q, used)
  {
    assert OverKeys(q, [keyId][1..], used) == 0 && OverLimits([q][1..], [keyId], used) == 0;
  }

  /** The two totals agree for every set of keys and limits exactly when no counted rollup row is padded. */
  lemma TotalsAgreeExactlyWhenUnpadded(raw: seq<StatRow>, hourly: seq<StatRow>, legacy: seq<StatRow>)
    ensures (forall keys, limits | PrimaryKeys(keys, limits) ::
               var t := QuotaTables(keys, limits, raw, hourly, legacy);
               RemainingQuotaTokens(t) == QuotaOverview(t).totalRemainingTokens)
            <==> Unpadded(hourly) && Unpadded(legacy)
  {
    if Unpadded(hourly) && Unpadded(legacy) {
      forall keys, limits | PrimaryKeys(keys, limits)
        ensures var t := QuotaTables(keys, limits, raw, hourly, legacy);
                RemainingQuotaTokens(t) == QuotaOverview(t).totalRemainingTokens
      {
        QuotaTotalsAgree(QuotaTables(keys, limits, raw, hourly, legacy));
      }
    } else {
      var rows := if Unpadded(hourly) then legacy else hourly;
      var s :| s in rows && Named(s) && RollupTokens(s) > 0 && SqlTrim(s.keyId.value) != s.keyId.value;
      var keys, limits := PaddedRowBreaksAgreement(raw, hourly, legacy, s);
    }
  }

  // ---- Bounds

  /** What the limited keys of an overview have consumed of their limits. */
  function ConsumedOfLimits(rows: seq<OverviewRow>, used: string -> nat): nat {
    if rows == [] then 0
    else
      var limit := if rows[0].limit.Some? then Positive(rows[0].limit.value.limitTokens) else 0;
      var here := used(rows[0].keyId);
      (if here < limit then here else limit) + ConsumedOfLimits(rows[1..], used)
  }

  lemma {:induction false} RowsCarryTheirLimit(keys: seq<string>, limits: seq<LimitRow>)
    ensures forall row | row in OverviewRows(keys, limits) && row.limit.Some? ::
              row.limit.value.keyId == row.keyId && row.limit.value.limitTokens > 0
  {
    if keys != [] {
      MatchesCarryKey(keys[0], limits);
      RowsCarryTheirLimit(keys[1..], limits);
    }
  }

  lemma {:induction false} MatchesCarryKey(keyId: string, limits: seq<LimitRow>)
    ensures forall row | row in MatchingLimits(keyId, limits) ::
              row.keyId == keyId && row.limit.Some? && row.limit.value.keyId == keyId && row.limit.value.limitTokens > 0
  {
    if limits != [] { MatchesCarryKey(keyId, limits[1..]); }
  }

  lemma {:induction false} TotalsAreBounded(rows: seq<OverviewRow>, used: string -> nat)
    requires forall row | row in rows && row.limit.Some? :: row.limit.value.keyId == row.keyId
    ensures var o := Totals(rows, used);
            && o.totalRemainingTokens <= o.totalLimitTokens <= o.totalRemainingTokens + o.totalUsedTokens
            && o.totalLimitTokens - o.totalRemainingTokens == ConsumedOfLimits(rows, used)
  {
    if rows != [] {
      assert rows[0] in rows && forall row | row in rows[1..] :: row in rows;
      TotalsAreBounded(rows[1..], used);
    }
  }

  /** For every store: limit <= remaining + used, the gap between limit and remaining is what was consumed, and no
      key has more left than its limit. */
  lemma OverviewIsBounded(t: QuotaTables)
    ensures var o := QuotaOverview(t);
            && o.totalRemainingTokens <= o.totalLimitTokens <= o.totalRemainingTokens + o.totalUsedTokens
            && o.totalLimitTokens - o.totalRemainingTokens ==
                 ConsumedOfLimits(OverviewRows(t.keys, t.limits), k => Used(AllEntries(t), k))
    ensures forall row | row in OverviewRows(t.keys, t.limits) && row.limit.Some? ::
              Remaining(row.limit.value, k => Used(AllEntries(t), k)) <= row.limit.value.limitTokens
  {
    RowsCarryTheirLimit(t.keys, t.limits);
    TotalsAreBounded(OverviewRows(t.keys, t.limits), k => Used(AllEntries(t), k));
  }

  /** Each API key is one row of the overview, so no usage is counted twice. */
  lemma {:induction false} OverviewCountsKeysOnce(keys: seq<string>, limits: seq<LimitRow>, used: string -> nat)
    requires PrimaryKeys(keys, limits)
    ensures |OverviewRows(keys, limits)| == |keys|
    ensures Totals(OverviewRows(keys, limits), used).keyCount == |keys|
  {
    if keys != [] {
      OverviewCountsKeysOnce(keys[1..], limits, used);
      AtMostOneMatch(keys[0], limits);
      var matches := MatchingLimits(keys[0], limits);
      var rows := if matches == [] then [OverviewRow(keys[0], None)] else matches;
      assert rows == [rows[0]];
      assert (rows + OverviewRows(keys[1..], limits))[1..] == OverviewRows(keys[1..], limits);
    }
  }

  lemma {:induction false} AtMostOneMatch(keyId: string, limits: seq<LimitRow>)
    requires forall i, j | 0 <= i < j < |limits| :: limits[i].keyId != limits[j].keyId
    ensures |MatchingLimits(keyId, limits)| <= 1
    ensures (forall q | q in limits :: q.keyId != keyId) ==> MatchingLimits(keyId, limits) == []
  {
    if limits != [] {
      AtMostOneMatch(keyId, limits[1..]);
      assert limits[0] in limits && forall q | q in limits[1..] :: q in limits;
      if limits[0].keyId == keyId {
        forall q | q in limits[1..] ensures q.keyId != keyId {
          var k :| 0 <= k < |limits| - 1 && limits[1..][k] == q;
          assert q == limits[k + 1];
        }
      }
    }
  }

  // ---- One key at a time

  /** The rows the single-key query sums, all three tables through the raw expression. */
  function SumForKey(rows: seq<StatRow>, keyId: string): nat {
    if rows == [] then 0
    else (if rows[0].keyId == Some(keyId) && Named(rows[0]) then RawTokens(rows[0]) else 0) + SumForKey(rows[1..], keyId)
  }

  /** `api_key_total_token_usage` */
  function ApiKeyTotalTokenUsage(t: QuotaTables, keyId: string): nat {
    var key := Trim(keyId);
    if key == "" then 0 else SumForKey(t.raw, key) + SumForKey(t.hourly, key) + SumForKey(t.legacy, key)
  }

  /** The tokens of counted rollup rows that stand for the key under a padded id. */
  function PaddedTokens(rows: seq<StatRow>, keyId: string): nat {
    if rows == [] then 0
    else (if PaddedFor(rows[0], keyId) then RollupTokens(rows[0]) else 0) + PaddedTokens(rows[1..], keyId)
  }

  predicate PaddedFor(s: StatRow, keyId: string) {
    Named(s) && RollupTokens(s) > 0 && SqlTrim(s.keyId.value) == keyId != s.keyId.value
  }

  lemma {:induction false} RawSumIsUsage(rows: seq<StatRow>, keyId: string)
    ensures SumForKey(rows, keyId) == Used(Scan(rows, false), keyId)
  {
    if rows != [] {
      RawSumIsUsage(rows[1..], keyId);
      UsedCons(if Named(rows[0]) then [Entry(rows[0], false)] else [], Scan(rows[1..], false), keyId);
    }
  }

  /** The single-key query misses exactly the padded rows of a rollup table. */
  lemma {:induction false} RollupSumMissesPadded(rows: seq<StatRow>, keyId: string)
    requires SqlTrim(keyId) == keyId && forall s | s in rows :: s.totalTokens.Some?
    ensures SumForKey(rows, keyId) + PaddedTokens(rows, keyId) == Used(Scan(rows, true), keyId)
    ensures PaddedTokens(rows, keyId) == 0 <==> forall s | s in rows :: !PaddedFor(s, keyId)
  {
    hide SqlTrim;
    if rows != [] {
      assert rows == [rows[0]] + rows[1..];
      assert rows[0] in rows && forall s | s in rows[1..] :: s in rows;
      RollupSumMissesPadded(rows[1..], keyId);
      UsedCons(if Named(rows[0]) then [Entry(rows[0], true)] else [], Scan(rows[1..], true), keyId);
    }
  }

  /** A text without white space at its ends has no spaces there. */
  lemma TrimmedIsSqlTrimmed(s: string)
    ensures SqlTrim(Trim(s)) == Trim(s)
  {
    TrimTightens(IsWhitespace, s);
    TightIsTrimmed(IsSqlBlank, Trim(s));
  }

  /** Rollup totals being NOT NULL, the single-key total never exceeds the key's usage in the overview, and equals it
      exactly if no counted rollup row stands for the key under a padded id. */
  lemma SingleKeyTotalMatchesExactlyUnlessPadded(t: QuotaTables, keyId: string)
    requires forall s | s in t.hourly + t.legacy :: s.totalTokens.Some?
    ensures var key := Trim(keyId);
            key != "" ==>
              && ApiKeyTotalTokenUsage(t, keyId) <= Used(AllEntries(t), key)
              && (ApiKeyTotalTokenUsage(t, keyId) == Used(AllEntries(t), key) <==>
                  forall s | s in t.hourly + t.legacy :: !PaddedFor(s, key))
  {
    hide PaddedFor, SqlTrim;
    var key := Trim(keyId);
    TrimmedIsSqlTrimmed(keyId);
    assert forall s | s in t.hourly :: s in t.hourly + t.legacy;
    assert forall s | s in t.legacy :: s in t.hourly + t.legacy;
    RawSumIsUsage(t.raw, key);
    RollupSumMissesPadded(t.hourly, key);
    RollupSumMissesPadded(t.legacy, key);
    UsedBranches(Scan(t.raw, false), Scan(t.hourly, true), Scan(t.legacy, true), key);
  }
}
