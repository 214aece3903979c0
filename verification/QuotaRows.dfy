/** What one usage row does to the quota answers, in terms of its columns. */
module QuotaRows {
  import opened Wrappers
  import opened Sorting
  import opened Text
  import opened QuotaLimits

  // ---- The answers as sums over keys

  function SumOver(keys: seq<string>, used: string -> nat): nat {
    if keys == [] then 0 else used(keys[0]) + SumOver(keys[1..], used)
  }

  /** What the limits of existing keys leave, a limit of zero or less being none. */
  function LeftOver(keys: seq<string>, limits: seq<LimitRow>, used: string -> nat): int {
    if limits == [] then 0
    else
      var (limit, key) := (limits[0].limitTokens, limits[0].keyId);
      (if limit > 0 && key in keys && limit > used(key) then limit - used(key) else 0) + LeftOver(keys, limits[1..], used)
  }

  lemma {:induction false} LimitOverKeys(q: LimitRow, keys: seq<string>, used: string -> nat)
    requires Distinct(keys)
    ensures OverKeys(q, keys, used) ==
            if q.limitTokens > 0 && q.keyId in keys && q.limitTokens > used(q.keyId) then q.limitTokens - used(q.keyId) else 0
  {
    if keys != [] {
      LimitOverKeys(q, keys[1..], used);
      assert keys == [keys[0]] + keys[1..];
      assert keys[0] !in keys[1..];
    }
  }

  lemma {:induction false} LimitsLeftOver(keys: seq<string>, limits: seq<LimitRow>, used: string -> nat)
    requires Distinct(keys)
    ensures OverLimits(limits, keys, used) == LeftOver(keys, limits, used)
  {
    if limits != [] {
      LimitOverKeys(limits[0], keys, used);
      LimitsLeftOver(keys, limits[1..], used);
    }
  }

  lemma {:induction false} TotalUsedIsSum(keys: seq<string>, limits: seq<LimitRow>, used: string -> nat)
    requires PrimaryKeys(keys, limits)
    ensures Totals(OverviewRows(keys, limits), used).totalUsedTokens == SumOver(keys, used)
  {
    if keys != [] {
      TotalUsedIsSum(keys[1..], limits, used);
      AtMostOneMatch(keys[0], limits);
      MatchesCarryKey(keys[0], limits);
      var matches := MatchingLimits(keys[0], limits);
      var rows := if matches == [] then [OverviewRow(keys[0], None)] else matches;
      assert rows == [rows[0]] && rows[0] in rows;
      assert rows[0].keyId == keys[0];
      assert (rows + OverviewRows(keys[1..], limits))[1..] == OverviewRows(keys[1..], limits);
    }
  }

  /** The overview adds up the keys' usage and what their limits leave. */
  lemma OverviewIsSums(t: QuotaTables)
    requires PrimaryKeys(t.keys, t.limits)
    ensures QuotaOverview(t).totalUsedTokens == SumOver(t.keys, k => Used(AllEntries(t), k))
    ensures QuotaOverview(t).totalRemainingTokens == LeftOver(t.keys, t.limits, k => Used(AllEntries(t), k))
  {
    var used := k => Used(AllEntries(t), k);
    TotalUsedIsSum(t.keys, t.limits, used);
    OverviewTotal(t.keys, t.limits, used);
    SumsCommute(t.limits, t.keys, used);
    LimitsLeftOver(t.keys, t.limits, used);
  }

  lemma {:induction false} LimitsWhole(rows: seq<OverviewRow>, used: string -> nat)
    ensures Totals(rows, used).totalLimitTokens == Totals(rows, k => 0).totalRemainingTokens
  {
    if rows != [] { LimitsWhole(rows[1..], used); }
  }

  /** The existing keys with a limit above zero. */
  ghost function LimitedKeys(keys: seq<string>, limits: seq<LimitRow>): set<string> {
    set k | k in keys && HasLimit(k, limits)
  }

  predicate HasLimit(keyId: string, limits: seq<LimitRow>) {
    exists q | q in limits :: q.keyId == keyId && q.limitTokens > 0
  }

  lemma {:induction false} LimitedRows(keys: seq<string>, limits: seq<LimitRow>, used: string -> nat)
    requires PrimaryKeys(keys, limits)
    ensures Totals(OverviewRows(keys, limits), used).limitedKeyCount ==
            |LimitedKeys(keys, limits)|
  {
    var limited := LimitedKeys(keys, limits);
    if keys == [] {
      assert limited == {};
    } else {
      LimitedRows(keys[1..], limits, used);
      AtMostOneMatch(keys[0], limits);
      MatchesExactly(keys[0], limits);
      var rest := LimitedKeys(keys[1..], limits);
      assert keys == [keys[0]] + keys[1..] && keys[0] !in keys[1..];
      var matches := MatchingLimits(keys[0], limits);
      var rows := if matches == [] then [OverviewRow(keys[0], None)] else matches;
      assert (rows + OverviewRows(keys[1..], limits))[1..] == OverviewRows(keys[1..], limits);
      assert limited == if matches == [] then rest else rest + {keys[0]};
      if matches != [] { MatchesCarryKey(keys[0], limits); assert matches[0] in matches; }
    }
  }

  lemma {:induction false} MatchesExactly(keyId: string, limits: seq<LimitRow>)
    ensures MatchingLimits(keyId, limits) != [] <==> HasLimit(keyId, limits)
  {
    if limits != [] {
      MatchesExactly(keyId, limits[1..]);
      assert limits == [limits[0]] + limits[1..];
    }
  }

  /** The limits counted and added up are the positive ones of existing keys. */
  lemma OverviewLimits(t: QuotaTables)
    requires PrimaryKeys(t.keys, t.limits)
    ensures QuotaOverview(t).totalLimitTokens == LeftOver(t.keys, t.limits, k => 0)
    ensures QuotaOverview(t).limitedKeyCount ==
            |LimitedKeys(t.keys, t.limits)|
  {
    var used, nothing: string -> nat := k => Used(AllEntries(t), k), k => 0;
    LimitedRows(t.keys, t.limits, used);
    LimitsWhole(OverviewRows(t.keys, t.limits), used);
    OverviewTotal(t.keys, t.limits, nothing);
    SumsCommute(t.limits, t.keys, nothing);
    LimitsLeftOver(t.keys, t.limits, nothing);
    LeftOverDepends(t.keys, t.limits, nothing, k => 0);
  }

  // ---- One row more

  /** The usage of the old tables, with `tokens` more for one key. */
  function Raised(t: QuotaTables, key: Option<string>, tokens: nat): string -> nat {
    k => Used(AllEntries(t), k) + (if key == Some(k) then tokens else 0)
  }

  lemma {:induction false} SumRaised(keys: seq<string>, one: string -> nat, other: string -> nat, key: Option<string>, tokens: nat)
    requires Distinct(keys)
    requires forall k :: other(k) == one(k) + (if key == Some(k) then tokens else 0)
    ensures SumOver(keys, other) == SumOver(keys, one) + (if key.Some? && key.value in keys then tokens else 0)
  {
    if keys != [] {
      SumRaised(keys[1..], one, other, key, tokens);
      assert keys == [keys[0]] + keys[1..];
      assert keys[0] !in keys[1..];
    }
  }

  lemma {:induction false} LeftOverDepends(keys: seq<string>, limits: seq<LimitRow>, one: string -> nat, other: string -> nat)
    requires forall k :: one(k) == other(k)
    ensures LeftOver(keys, limits, one) == LeftOver(keys, limits, other)
  {
    if limits != [] { LeftOverDepends(keys, limits[1..], one, other); }
  }

  lemma {:induction false} ScanAppend(a: seq<StatRow>, b: seq<StatRow>, rollup: bool)
    ensures Scan(a + b, rollup) == Scan(a, rollup) + Scan(b, rollup)
  {
    if a == [] {
      assert a + b == b;
    } else {
      hide Entry, Named;
      ScanAppend(a[1..], b, rollup);
      assert (a + b)[1..] == a[1..] + b && (a + b)[0] == a[0];
      var first := if Named(a[0]) then [Entry(a[0], rollup)] else [];
      assert first + (Scan(a[1..], rollup) + Scan(b, rollup)) == first + Scan(a[1..], rollup) + Scan(b, rollup);
    }
  }

  lemma UsedWithRow(a: seq<StatRow>, s: StatRow, b: seq<StatRow>, rollup: bool, keyId: string)
    ensures Used(Scan(a + [s] + b, rollup), keyId) ==
            Used(Scan(a + b, rollup), keyId) + Used(Scan([s], rollup), keyId)
  {
    ScanAppend(a + [s], b, rollup);
    ScanAppend(a, [s], rollup);
    ScanAppend(a, b, rollup);
    UsedBranches(Scan(a, rollup), Scan([s], rollup), Scan(b, rollup), keyId);
    UsedAppend(Scan(a, rollup), Scan(b, rollup), keyId);
  }

  lemma {:induction false} SumForKeyAppend(a: seq<StatRow>, b: seq<StatRow>, keyId: string)
    ensures SumForKey(a + b, keyId) == SumForKey(a, keyId) + SumForKey(b, keyId)
  {
    if a == [] {
      assert a + b == b;
    } else {
      SumForKeyAppend(a[1..], b, keyId);
      assert (a + b)[1..] == a[1..] + b;
    }
  }

  lemma SumWithRow(a: seq<StatRow>, s: StatRow, b: seq<StatRow>, keyId: string)
    ensures SumForKey(a + [s] + b, keyId) == SumForKey(a + b, keyId) + SumForKey([s], keyId)
  {
    SumForKeyAppend(a + [s], b, keyId);
    SumForKeyAppend(a, [s], keyId);
    SumForKeyAppend(a, b, keyId);
  }

  /** From the raised usage of each key to the answers. */
  lemma AnswersRaised(t: QuotaTables, t': QuotaTables, key: Option<string>, tokens: nat)
    requires PrimaryKeys(t.keys, t.limits) && t'.keys == t.keys && t'.limits == t.limits
    requires forall k :: Used(AllEntries(t'), k) == Used(AllEntries(t), k) + (if key == Some(k) then tokens else 0)
    ensures QuotaOverview(t').totalUsedTokens ==
            QuotaOverview(t).totalUsedTokens + (if key.Some? && key.value in t.keys then tokens else 0)
    ensures QuotaOverview(t').totalRemainingTokens == LeftOver(t.keys, t.limits, Raised(t, key, tokens))
    ensures Unpadded(t'.hourly) && Unpadded(t'.legacy) ==>
              RemainingQuotaTokens(t') == LeftOver(t.keys, t.limits, Raised(t, key, tokens))
  {
    hide AllEntries, QuotaOverview, RemainingQuotaTokens;
    OverviewIsSums(t);
    OverviewIsSums(t');
    SumRaised(t.keys, k => Used(AllEntries(t), k), k => Used(AllEntries(t'), k), key, tokens);
    LeftOverDepends(t.keys, t.limits, k => Used(AllEntries(t'), k), Raised(t, key, tokens));
    if Unpadded(t'.hourly) && Unpadded(t'.legacy) { QuotaTotalsAgree(t'); }
  }

  lemma RawRowUses(t: QuotaTables, a: seq<StatRow>, s: StatRow, b: seq<StatRow>, k: string)
    requires t.raw == a + b
    ensures Used(AllEntries(t.(raw := a + [s] + b)), k) ==
            Used(AllEntries(t), k) + (if s.keyId == Some(k) && SqlTrim(k) != "" then RawTokens(s) else 0)
  {
    var t' := t.(raw := a + [s] + b);
    UsedBranches(Scan(t.raw, false), Scan(t.hourly, true), Scan(t.legacy, true), k);
    UsedBranches(Scan(t'.raw, false), Scan(t.hourly, true), Scan(t.legacy, true), k);
    UsedWithRow(a, s, b, false, k);
  }

  lemma RawRowRaisesKey(t: QuotaTables, a: seq<StatRow>, s: StatRow, b: seq<StatRow>, k: string)
    requires t.raw == a + b
    ensures ApiKeyTotalTokenUsage(t.(raw := a + [s] + b), k) ==
            ApiKeyTotalTokenUsage(t, k) +
            (if s.keyId == Some(Trim(k)) && SqlTrim(Trim(k)) != "" && Trim(k) != "" then RawTokens(s) else 0)
  {
    hide Trim, SqlTrim, RawTokens, RollupTokens;
    SumWithRow(a, s, b, Trim(k));
  }

  /** A raw row counts under its key id as it is stored: its total if it has one, else input less cached input plus
      output, missing columns being 0, and never less than nothing. A blank key id counts nowhere. */
  lemma RawRowCounts(t: QuotaTables, a: seq<StatRow>, s: StatRow, b: seq<StatRow>)
    requires PrimaryKeys(t.keys, t.limits) && t.raw == a + b
    ensures var key := if s.keyId.Some? && SqlTrim(s.keyId.value) != "" then s.keyId else None;
            var n := if s.totalTokens.Some? then s.totalTokens.value
                     else (if s.inputTokens.Some? then s.inputTokens.value else 0)
                          - (if s.cachedInputTokens.Some? then s.cachedInputTokens.value else 0)
                          + (if s.outputTokens.Some? then s.outputTokens.value else 0);
            var tokens: nat := if n > 0 then n else 0;
            var t' := t.(raw := a + [s] + b);
            && QuotaOverview(t').totalUsedTokens ==
               QuotaOverview(t).totalUsedTokens + (if key.Some? && key.value in t.keys then tokens else 0)
            && QuotaOverview(t').totalRemainingTokens == LeftOver(t.keys, t.limits, Raised(t, key, tokens))
            && (Unpadded(t.hourly) && Unpadded(t.legacy) ==>
                  RemainingQuotaTokens(t') == LeftOver(t.keys, t.limits, Raised(t, key, tokens)))
            && forall k :: ApiKeyTotalTokenUsage(t', k) ==
                           ApiKeyTotalTokenUsage(t, k) + (if key == Some(Trim(k)) && Trim(k) != "" then tokens else 0)
  {
    var key := if s.keyId.Some? && SqlTrim(s.keyId.value) != "" then s.keyId else None;
    var t' := t.(raw := a + [s] + b);
    hide Unpadded, AllEntries, SqlTrim, Trim, SumForKey, QuotaOverview, RemainingQuotaTokens, ApiKeyTotalTokenUsage, LeftOver;
    forall k ensures Used(AllEntries(t'), k) == Used(AllEntries(t), k) + (if key == Some(k) then RawTokens(s) else 0) {
      RawRowUses(t, a, s, b, k);
    }
    AnswersRaised(t, t', key, RawTokens(s));
    forall k ensures ApiKeyTotalTokenUsage(t', k) ==
                     ApiKeyTotalTokenUsage(t, k) + (if key == Some(Trim(k)) && Trim(k) != "" then RawTokens(s) else 0) {
      RawRowRaisesKey(t, a, s, b, k);
    }
  }

  /** A rollup table with one row more, hourly or legacy. */
  predicate WithRollup(t: QuotaTables, t': QuotaTables, a: seq<StatRow>, s: StatRow, b: seq<StatRow>) {
    || (t.hourly == a + b && t' == t.(hourly := a + [s] + b))
    || (t.legacy == a + b && t' == t.(legacy := a + [s] + b))
  }

  /** A rollup row counts its total under its trimmed key id in the overview, and under its stored key id in the total of
      one key. */
  lemma RollupRowCounts(t: QuotaTables, t': QuotaTables, a: seq<StatRow>, s: StatRow, b: seq<StatRow>)
    requires PrimaryKeys(t.keys, t.limits) && WithRollup(t, t', a, s, b) && s.totalTokens.Some?
    ensures var key := if s.keyId.Some? && SqlTrim(s.keyId.value) != "" then Some(SqlTrim(s.keyId.value)) else None;
            var tokens: nat := if s.totalTokens.value > 0 then s.totalTokens.value else 0;
            && QuotaOverview(t').totalUsedTokens ==
               QuotaOverview(t).totalUsedTokens + (if key.Some? && key.value in t.keys then tokens else 0)
            && QuotaOverview(t').totalRemainingTokens == LeftOver(t.keys, t.limits, Raised(t, key, tokens))
            && (Unpadded(t'.hourly) && Unpadded(t'.legacy) ==>
                  RemainingQuotaTokens(t') == LeftOver(t.keys, t.limits, Raised(t, key, tokens)))
            && forall k :: ApiKeyTotalTokenUsage(t', k) ==
                           ApiKeyTotalTokenUsage(t, k) +
                           (if key.Some? && s.keyId == Some(Trim(k)) && Trim(k) != "" then tokens else 0)
  {
    var key := if s.keyId.Some? && SqlTrim(s.keyId.value) != "" then Some(SqlTrim(s.keyId.value)) else None;
    forall k ensures Used(AllEntries(t'), k) == Used(AllEntries(t), k) + (if key == Some(k) then RollupTokens(s) else 0) {
      UsedBranches(Scan(t.raw, false), Scan(t.hourly, true), Scan(t.legacy, true), k);
      UsedBranches(Scan(t.raw, false), Scan(t'.hourly, true), Scan(t'.legacy, true), k);
      UsedWithRow(a, s, b, true, k);
    }
    AnswersRaised(t, t', key, RollupTokens(s));
    forall k ensures ApiKeyTotalTokenUsage(t', k) ==
                     ApiKeyTotalTokenUsage(t, k) +
                     (if key.Some? && s.keyId == Some(Trim(k)) && Trim(k) != "" then RollupTokens(s) else 0) {
      SumWithRow(a, s, b, Trim(k));
    }
  }

  /** Without rows nothing is used and every limit is left whole. */
  lemma NoRowsNoUsage(keys: seq<string>, limits: seq<LimitRow>, keyId: string)
    requires PrimaryKeys(keys, limits)
    ensures var t := QuotaTables(keys, limits, [], [], []);
            && QuotaOverview(t).totalUsedTokens == ApiKeyTotalTokenUsage(t, keyId) == 0
            && QuotaOverview(t).totalRemainingTokens == LeftOver(keys, limits, k => 0)
  {
    var t := QuotaTables(keys, limits, [], [], []);
    OverviewIsSums(t);
    assert AllEntries(t) == [];
    NothingSums(keys, k => Used(AllEntries(t), k));
    LeftOverDepends(keys, limits, k => Used(AllEntries(t), k), k => 0);
  }

  lemma {:induction false} NothingSums(keys: seq<string>, used: string -> nat)
    requires forall k :: used(k) == 0
    ensures SumOver(keys, used) == 0
  {
    if keys != [] { NothingSums(keys[1..], used); }
  }
}
