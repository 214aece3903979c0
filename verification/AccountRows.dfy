/** What deleting and renumbering accounts leave in the tables, in terms of the tables' columns. */
module AccountRows {
  import opened Wrappers
  import opened Text
  import opened AccountTables
  import opened AccountUpdates

  // ---- Deletion

  /** The rows that are gone are gone in every copy, all others are there as often as before. */
  ghost predicate RowsLeft<T(!new)>(before: seq<T>, after: seq<T>, gone: T -> bool) {
    forall row :: multiset(after)[row] == if gone(row) then 0 else multiset(before)[row]
  }

  /** The accounts and what hangs on them are gone from all ten tables, and nothing else is. */
  ghost predicate AccountsGone(t: Tables, d: Tables, ids: set<string>) {
    && RowsLeft(t.accounts, d.accounts, (a: Account) => a.id in ids)
    && RowsLeft(t.metadata, d.metadata, (r: OwnedRow) => r.accountId in ids)
    && RowsLeft(t.subscriptions, d.subscriptions, (r: OwnedRow) => r.accountId in ids)
    && RowsLeft(t.tokens, d.tokens, (r: Token) => r.accountId in ids)
    && RowsLeft(t.usage, d.usage, (u: UsageSnapshot) => u.accountId in ids)
    && RowsLeft(t.events, d.events, (e: Event) => e.accountId.Some? && e.accountId.value in ids)
    && RowsLeft(t.bindings, d.bindings, (r: OwnedRow) => r.accountId in ids)
    && RowsLeft(t.mappings, d.mappings, (r: SourceRow) => r.sourceKind == "openai_account" && r.sourceId in ids)
    && RowsLeft(t.models, d.models, (r: SourceRow) => r.sourceKind == "openai_account" && r.sourceId in ids)
    && RowsLeft(t.preferences, d.preferences, (r: SourceRow) => r.sourceKind == "openai_account" && r.sourceId in ids)
  }

  lemma WithoutLeavesRows<T(!new)>(rows: seq<T>, owner: T -> Option<string>, ids: set<string>, gone: T -> bool)
    requires forall row :: gone(row) <==> owner(row).Some? && owner(row).value in ids
    ensures RowsLeft(rows, Without(rows, owner, ids), gone)
  {
    WithoutMembers(rows, owner, ids);
    forall row ensures multiset(Without(rows, owner, ids))[row] == if gone(row) then 0 else multiset(rows)[row] {
      if gone(row) {
        assert row !in Without(rows, owner, ids);
        assert row !in multiset(Without(rows, owner, ids));
      }
    }
  }

  lemma DeletedIsGone(t: Tables, ids: set<string>)
    ensures AccountsGone(t, Deleted(t, ids), ids)
  {
    hide RowsLeft, Without;
    WithoutLeavesRows(t.accounts, AccountKey, ids, (a: Account) => a.id in ids);
    WithoutLeavesRows(t.metadata, OwnedKey, ids, (r: OwnedRow) => r.accountId in ids);
    WithoutLeavesRows(t.subscriptions, OwnedKey, ids, (r: OwnedRow) => r.accountId in ids);
    WithoutLeavesRows(t.tokens, TokenKey, ids, (r: Token) => r.accountId in ids);
    WithoutLeavesRows(t.usage, SnapshotKey, ids, (u: UsageSnapshot) => u.accountId in ids);
    WithoutLeavesRows(t.events, EventKey, ids, (e: Event) => e.accountId.Some? && e.accountId.value in ids);
    WithoutLeavesRows(t.bindings, OwnedKey, ids, (r: OwnedRow) => r.accountId in ids);
    WithoutLeavesRows(t.mappings, SourceKey, ids, (r: SourceRow) => r.sourceKind == "openai_account" && r.sourceId in ids);
    WithoutLeavesRows(t.models, SourceKey, ids, (r: SourceRow) => r.sourceKind == "openai_account" && r.sourceId in ids);
    WithoutLeavesRows(t.preferences, SourceKey, ids, (r: SourceRow) => r.sourceKind == "openai_account" && r.sourceId in ids);
  }

  // ---- Renumbering

  /** The number a row of decimal digits stands for. */
  function DigitsValue(s: string): int {
    if s == "" then 0 else DigitsValue(s[..|s| - 1]) * 10 + (s[|s| - 1] as int - '0' as int)
  }

  /** Decimal digits without a superfluous zero in front. */
  ghost predicate IsDecimal(s: string, n: int) {
    && s != "" && (forall k | 0 <= k < |s| :: '0' <= s[k] <= '9')
    && (|s| > 1 ==> s[0] != '0')
    && DigitsValue(s) == n
  }

  lemma LastDigit(front: string, m: nat, digit: char)
    requires '0' <= digit <= '9'
    requires if m == 0 then front == "" else IsDecimal(front, m) && front[0] != '0'
    ensures var n := m * 10 + (digit as int - '0' as int);
            IsDecimal(front + [digit], n) && (n > 0 ==> (front + [digit])[0] != '0')
  {
    var s := front + [digit];
    assert s[..|s| - 1] == front;
  }

  lemma {:induction false} DecimalReads(n: nat)
    ensures IsDecimal(Decimal(n), n) && (n > 0 ==> Decimal(n)[0] != '0')
  {
    hide IsDecimal;
    var digit := ((n % 10) + 48) as char;
    assert n == n / 10 * 10 + n % 10;
    if n >= 10 {
      DecimalReads(n / 10);
      LastDigit(Decimal(n / 10), n / 10, digit);
    } else {
      LastDigit("", 0, digit);
    }
  }

  /** The event of one update: its account, its time and "sort=" with the number in decimal, a minus in front of a
      negative one. */
  ghost predicate RecordsSort(e: Event, u: SortUpdate, now: int) {
    && e.accountId == Some(u.accountId) && e.kind == "account_sort_update" && e.createdAt == now
    && var size := if u.sort < 0 then -u.sort else u.sort;
       exists digits ::
         && IsDecimal(digits, size)
         && e.message == (if u.sort < 0 then "sort=-" else "sort=") + digits
  }

  lemma EventRecordsSort(u: SortUpdate, now: int)
    ensures RecordsSort(SortEvent(u, now), u, now)
  {
    hide Decimal, IsDecimal;
    var digits := Decimal(if u.sort < 0 then -u.sort else u.sort);
    DecimalReads(if u.sort < 0 then -u.sort else u.sort);
    if u.sort < 0 { assert "sort=" + ("-" + digits) == "sort=-" + digits; }
  }

  /** The `j`-th update is the last one for the account. */
  ghost predicate LastFor(updates: seq<SortUpdate>, id: string, j: nat) {
    && j < |updates| && updates[j].accountId == id
    && forall k | j < k < |updates| :: updates[k].accountId != id
  }

  /** Every listed account has the sort of the last update for it and the new time, the others are as they were, one
      event for each update comes behind the old ones, and no other table changes. */
  ghost predicate Renumbers(t: Tables, r: Tables, updates: seq<SortUpdate>, now: int) {
    && r == t.(accounts := r.accounts, events := r.events)
    && |r.accounts| == |t.accounts|
    && (forall i | 0 <= i < |t.accounts| :: AccountRenumbered(t.accounts[i], r.accounts[i], updates, now))
    && |r.events| == |t.events| + |updates|
    && r.events[..|t.events|] == t.events
    && forall i | 0 <= i < |updates| :: RecordsSort(r.events[|t.events| + i], updates[i], now)
  }

  ghost predicate AccountRenumbered(before: Account, after: Account, updates: seq<SortUpdate>, now: int) {
    || (exists j: nat :: LastFor(updates, before.id, j) && after == before.(sort := updates[j].sort, updatedAt := now))
    || ((forall u | u in updates :: u.accountId != before.id) && after == before)
  }

  lemma {:induction false} LastSortIsLast(updates: seq<SortUpdate>, id: string)
    ensures LastSort(updates, id).Some? ==> exists j: nat :: LastFor(updates, id, j) && updates[j].sort == LastSort(updates, id).value
    ensures LastSort(updates, id).None? ==> forall u | u in updates :: u.accountId != id
  {
    if updates != [] {
      var n := |updates| - 1;
      var init := updates[..n];
      assert updates == init + [updates[n]];
      if updates[n].accountId == id {
        assert LastFor(updates, id, n);
      } else {
        LastSortIsLast(init, id);
        if LastSort(init, id).Some? {
          var j: nat :| LastFor(init, id, j) && init[j].sort == LastSort(init, id).value;
          assert LastFor(updates, id, j) by {
            forall k | j < k < |updates| ensures updates[k].accountId != id {
              if k < n { assert updates[k] == init[k]; }
            }
          }
        }
      }
    }
  }

  lemma AccountIsRenumbered(a: Account, updates: seq<SortUpdate>, now: int)
    ensures AccountRenumbered(a, Renumbered(a, updates, now), updates, now)
  {
    hide LastSort, LastFor;
    LastSortIsLast(updates, a.id);
  }

  lemma {:induction false} SortEventsRecord(updates: seq<SortUpdate>, now: int)
    ensures forall i | 0 <= i < |updates| :: RecordsSort(SortEvents(updates, now)[i], updates[i], now)
  {
    hide RecordsSort, SortEvent;
    if updates != [] {
      var n := |updates| - 1;
      SortEventsRecord(updates[..n], now);
      EventRecordsSort(updates[n], now);
      var events := SortEvents(updates[..n], now);
      forall i | 0 <= i < |updates| ensures RecordsSort(SortEvents(updates, now)[i], updates[i], now) {
        if i < n { assert SortEvents(updates, now)[i] == events[i] && updates[..n][i] == updates[i]; }
      }
    }
  }

  lemma RenumberIsLiteral(t: Tables, updates: seq<SortUpdate>, now: int)
    ensures Renumbers(t, Renumber(t, updates, now), updates, now)
  {
    hide RecordsSort, AccountRenumbered, Renumbered, RenumberedAll, SortEvents;
    RenumberPointwise(t.accounts, updates, now);
    SortEventsRecord(updates, now);
    forall i | 0 <= i < |t.accounts|
      ensures AccountRenumbered(t.accounts[i], RenumberedAll(t.accounts, updates, now)[i], updates, now)
    {
      AccountIsRenumbered(t.accounts[i], updates, now);
    }
    var events := t.events + SortEvents(updates, now);
    assert events[..|t.events|] == t.events;
    forall i | 0 <= i < |updates| ensures RecordsSort(events[|t.events| + i], updates[i], now) {
      assert events[|t.events| + i] == SortEvents(updates, now)[i];
    }
  }
}
