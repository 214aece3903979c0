/** Wallets and their ledger: what each operation does to the tables, and that credit is what the ledger says it is. */
module Wallet {
  import opened Wrappers

  datatype AppWallet = AppWallet(
    id: string, ownerKind: string, ownerId: string, balance: int, frozen: int, status: string, createdAt: int, updatedAt: int)

  datatype LedgerEntry = LedgerEntry(
    id: string, walletId: string, entryKind: string, amount: int, balanceAfter: int, note: Option<string>, createdAt: int)

  datatype KeyOwner = KeyOwner(keyId: string, ownerKind: string, ownerUserId: Option<string>)
  datatype UserRow = UserRow(userId: string, payload: string)

  datatype WalletTables = WalletTables(
    users: seq<string>, keyOwners: seq<KeyOwner>, sessions: seq<UserRow>, userGroups: seq<UserRow>,
    wallets: seq<AppWallet>, ledger: seq<LedgerEntry>)

  const ACTIVE := "active"
  const USER := "user"
  const PROJECT := "project"

  datatype Error = Refused | QueryReturnedNoRows | ConstraintFailed

  // ---- Queries

  function FindByOwner(wallets: seq<AppWallet>, kind: string, owner: string): (r: Option<AppWallet>)
    ensures r.Some? ==> r.value in wallets && r.value.ownerKind == kind && r.value.ownerId == owner
    ensures r.None? ==> forall w | w in wallets :: w.ownerKind != kind || w.ownerId != owner
  {
    if wallets == [] then None
    else if wallets[0].ownerKind == kind && wallets[0].ownerId == owner then Some(wallets[0])
    else
      assert wallets == [wallets[0]] + wallets[1..];
      FindByOwner(wallets[1..], kind, owner)
  }

  function FindActive(wallets: seq<AppWallet>, id: string): (r: Option<AppWallet>)
    ensures r.Some? ==> r.value in wallets && r.value.id == id && r.value.status == ACTIVE
    ensures r.None? ==> forall w | w in wallets :: w.id != id || w.status != ACTIVE
  {
    if wallets == [] then None
    else if wallets[0].id == id && wallets[0].status == ACTIVE then Some(wallets[0])
    else
      assert wallets == [wallets[0]] + wallets[1..];
      FindActive(wallets[1..], id)
  }

  // ---- Effects

  function NewWallet(id: string, kind: string, owner: string, now: int): AppWallet {
    AppWallet(id, kind, owner, 0, 0, ACTIVE, now, now)
  }

  /** The primary key and the CHECK on the owner kind; the owner is unique because the lookup found none. */
  predicate InsertAccepted(t: WalletTables, id: string, kind: string) {
    kind in {USER, PROJECT} && forall w | w in t.wallets :: w.id != id
  }

  function Credited(wallets: seq<AppWallet>, id: string, amount: int, now: int): seq<AppWallet> {
    if wallets == [] then []
    else [if wallets[0].id == id then wallets[0].(balance := wallets[0].balance + amount, updatedAt := now) else wallets[0]]
         + Credited(wallets[1..], id, amount, now)
  }

  predicate EntryAccepted(t: WalletTables, e: LedgerEntry) {
    FindActive(t.wallets, e.walletId).Some? && forall l | l in t.ledger :: l.id != e.id
  }

  function Recorded(t: WalletTables, e: LedgerEntry): LedgerEntry
    requires FindActive(t.wallets, e.walletId).Some?
  {
    e.(balanceAfter := FindActive(t.wallets, e.walletId).value.balance + e.amount)
  }

  function Adjusted(t: WalletTables, e: LedgerEntry): WalletTables
    requires EntryAccepted(t, e)
  {
    t.(wallets := Credited(t.wallets, e.walletId, e.amount, e.createdAt), ledger := t.ledger + [Recorded(t, e)])
  }

  predicate OwnedBy(w: AppWallet, userId: string) {
    w.ownerKind == USER && w.ownerId == userId
  }

  function UserWalletIds(wallets: seq<AppWallet>, userId: string): set<string> {
    set w | w in wallets && OwnedBy(w, userId) :: w.id
  }

  function LedgerWithout(ledger: seq<LedgerEntry>, ids: set<string>): seq<LedgerEntry> {
    if ledger == [] then []
    else
      var last := ledger[|ledger| - 1];
      LedgerWithout(ledger[..|ledger| - 1], ids) + (if last.walletId in ids then [] else [last])
  }

  function WalletsWithout(wallets: seq<AppWallet>, userId: string): seq<AppWallet> {
    if wallets == [] then []
    else (if OwnedBy(wallets[0], userId) then [] else [wallets[0]]) + WalletsWithout(wallets[1..], userId)
  }

  function KeyOwnersWithout(rows: seq<KeyOwner>, userId: string): seq<KeyOwner> {
    if rows == [] then []
    else (if rows[0].ownerKind == USER && rows[0].ownerUserId == Some(userId) then [] else [rows[0]])
         + KeyOwnersWithout(rows[1..], userId)
  }

  function RowsWithout(rows: seq<UserRow>, userId: string): seq<UserRow> {
    if rows == [] then []
    else (if rows[0].userId == userId then [] else [rows[0]]) + RowsWithout(rows[1..], userId)
  }

  function UsersWithout(users: seq<string>, userId: string): seq<string> {
    if users == [] then [] else (if users[0] == userId then [] else [users[0]]) + UsersWithout(users[1..], userId)
  }

  function UserDeleted(t: WalletTables, userId: string): WalletTables {
    WalletTables(UsersWithout(t.users, userId), KeyOwnersWithout(t.keyOwners, userId), RowsWithout(t.sessions, userId),
                 RowsWithout(t.userGroups, userId), WalletsWithout(t.wallets, userId),
                 LedgerWithout(t.ledger, UserWalletIds(t.wallets, userId)))
  }

  // ---- The balance invariant

  function SumFor(ledger: seq<LedgerEntry>, walletId: string): int {
    if ledger == [] then 0
    else
      var last := ledger[|ledger| - 1];
      SumFor(ledger[..|ledger| - 1], walletId) + (if last.walletId == walletId then last.amount else 0)
  }

  /** Every entry records its wallet's sum up to and including itself. */
  ghost predicate RunningBalances(ledger: seq<LedgerEntry>) {
    forall i | 0 <= i < |ledger| :: BalancedAt(ledger, i)
  }

  predicate BalancedAt(ledger: seq<LedgerEntry>, i: nat)
    requires i < |ledger|
  {
    ledger[i].balanceAfter == SumFor(ledger[..i + 1], ledger[i].walletId)
  }

  ghost predicate UniqueIds(wallets: seq<AppWallet>) {
    forall i, j | 0 <= i < j < |wallets| :: wallets[i].id != wallets[j].id
  }

  ghost predicate BalancesMatch(wallets: seq<AppWallet>, ledger: seq<LedgerEntry>) {
    forall w | w in wallets :: w.balance == SumFor(ledger, w.id)
  }

  predicate HasWallet(wallets: seq<AppWallet>, id: string) {
    exists w | w in wallets :: w.id == id
  }

  ghost predicate NoOrphans(wallets: seq<AppWallet>, ledger: seq<LedgerEntry>) {
    forall e | e in ledger :: HasWallet(wallets, e.walletId)
  }

  ghost predicate Balanced(t: WalletTables) {
    && UniqueIds(t.wallets)
    && BalancesMatch(t.wallets, t.ledger)
    && RunningBalances(t.ledger)
    && NoOrphans(t.wallets, t.ledger)
  }

  lemma RunningBalancesAppend(ledger: seq<LedgerEntry>, e: LedgerEntry)
    ensures RunningBalances(ledger + [e]) <==>
            RunningBalances(ledger) && e.balanceAfter == SumFor(ledger, e.walletId) + e.amount
  {
    hide SumFor;
    var all, n := ledger + [e], |ledger|;
    SumForAppend(ledger, e, e.walletId);
    assert all[..n + 1] == all && all[n] == e;
    forall i | 0 <= i < n ensures BalancedAt(all, i) <==> BalancedAt(ledger, i) {
      assert all[..i + 1] == ledger[..i + 1];
    }
    assert RunningBalances(all) <==> BalancedAt(all, n) && forall i | 0 <= i < n :: BalancedAt(all, i);
  }

  lemma SumForAppend(ledger: seq<LedgerEntry>, e: LedgerEntry, walletId: string)
    ensures SumFor(ledger + [e], walletId) == SumFor(ledger, walletId) + (if e.walletId == walletId then e.amount else 0)
  {
    assert (ledger + [e])[..|ledger|] == ledger;
  }

  lemma {:induction false} NoEntriesNoSum(ledger: seq<LedgerEntry>, walletId: string)
    requires forall e | e in ledger :: e.walletId != walletId
    ensures SumFor(ledger, walletId) == 0
  {
    if ledger != [] {
      var k := |ledger| - 1;
      assert ledger[k] in ledger && forall e | e in ledger[..k] :: e in ledger;
      NoEntriesNoSum(ledger[..k], walletId);
    }
  }

  lemma NewWalletKeepsBalance(t: WalletTables, id: string, kind: string, owner: string, now: int)
    requires Balanced(t) && InsertAccepted(t, id, kind)
    ensures Balanced(t.(wallets := t.wallets + [NewWallet(id, kind, owner, now)]))
  {
    forall e | e in t.ledger ensures e.walletId != id {
      var w :| w in t.wallets && w.id == e.walletId;
    }
    NoEntriesNoSum(t.ledger, id);
    var after := t.wallets + [NewWallet(id, kind, owner, now)];
    forall e | e in t.ledger ensures HasWallet(after, e.walletId) {
      var w :| w in t.wallets && w.id == e.walletId;
      assert w in after;
    }
  }

  lemma {:induction false} CreditedPointwise(wallets: seq<AppWallet>, id: string, amount: int, now: int)
    ensures var r := Credited(wallets, id, amount, now);
            && |r| == |wallets|
            && forall i | 0 <= i < |r| ::
                 && r[i].id == wallets[i].id
                 && r[i].balance == wallets[i].balance + (if wallets[i].id == id then amount else 0)
  {
    if wallets != [] { CreditedPointwise(wallets[1..], id, amount, now); }
  }

  lemma SameIdsUnique(before: seq<AppWallet>, after: seq<AppWallet>)
    requires UniqueIds(before) && |after| == |before| && forall i | 0 <= i < |after| :: after[i].id == before[i].id
    ensures UniqueIds(after)
  {}

  lemma AdjustedRuns(t: WalletTables, e: LedgerEntry)
    requires Balanced(t) && EntryAccepted(t, e)
    ensures RunningBalances(Adjusted(t, e).ledger)
  {
    hide RunningBalances, Credited;
    var target := FindActive(t.wallets, e.walletId).value;
    RunningBalancesAppend(t.ledger, Recorded(t, e));
  }

  lemma AdjustedMatches(t: WalletTables, e: LedgerEntry)
    requires Balanced(t) && EntryAccepted(t, e)
    ensures BalancesMatch(Adjusted(t, e).wallets, Adjusted(t, e).ledger)
  {
    hide RunningBalances, Credited;
    var after := Adjusted(t, e);
    CreditedPointwise(t.wallets, e.walletId, e.amount, e.createdAt);
    assert after.ledger[..|t.ledger|] == t.ledger;
    forall w | w in after.wallets ensures w.balance == SumFor(after.ledger, w.id) {
      var i :| 0 <= i < |after.wallets| && after.wallets[i] == w;
      assert t.wallets[i] in t.wallets;
    }
  }

  lemma AdjustedKeepsOwners(t: WalletTables, e: LedgerEntry)
    requires Balanced(t) && EntryAccepted(t, e)
    ensures NoOrphans(Adjusted(t, e).wallets, Adjusted(t, e).ledger)
  {
    hide RunningBalances, Credited, BalancesMatch;
    var after := Adjusted(t, e);
    CreditedPointwise(t.wallets, e.walletId, e.amount, e.createdAt);
    forall l | l in after.ledger ensures HasWallet(after.wallets, l.walletId) {
      var w :| w in t.wallets && w.id == l.walletId;
      var i :| 0 <= i < |t.wallets| && t.wallets[i] == w;
      assert after.wallets[i] in after.wallets;
    }
  }

  lemma AdjustmentKeepsBalance(t: WalletTables, e: LedgerEntry)
    requires Balanced(t) && EntryAccepted(t, e)
    ensures Balanced(Adjusted(t, e))
  {
    hide RunningBalances, BalancesMatch, UniqueIds, NoOrphans, Credited;
    var after := Adjusted(t, e);
    CreditedPointwise(t.wallets, e.walletId, e.amount, e.createdAt);
    AdjustedRuns(t, e);
    AdjustedMatches(t, e);
    assert NoOrphans(after.wallets, after.ledger) by { AdjustedKeepsOwners(t, e); }
    assert UniqueIds(after.wallets) by { SameIdsUnique(t.wallets, after.wallets); }
  }

  lemma {:induction false} LedgerWithoutKeepsOthers(ledger: seq<LedgerEntry>, ids: set<string>, walletId: string)
    requires walletId !in ids
    ensures SumFor(LedgerWithout(ledger, ids), walletId) == SumFor(ledger, walletId)
  {
    if ledger != [] {
      var k := |ledger| - 1;
      LedgerWithoutKeepsOthers(ledger[..k], ids, walletId);
      var kept := LedgerWithout(ledger[..k], ids);
      assert (kept + [ledger[k]])[..|kept|] == kept && kept + [] == kept;
    }
  }

  lemma {:induction false} LedgerWithoutRuns(ledger: seq<LedgerEntry>, ids: set<string>)
    requires RunningBalances(ledger)
    ensures RunningBalances(LedgerWithout(ledger, ids))
    ensures forall e | e in LedgerWithout(ledger, ids) :: e in ledger && e.walletId !in ids
  {
    if ledger != [] {
      var k := |ledger| - 1;
      var kept, last := LedgerWithout(ledger[..k], ids), ledger[k];
      assert ledger == ledger[..k] + [last];
      RunningBalancesAppend(ledger[..k], last);
      LedgerWithoutRuns(ledger[..k], ids);
      if last.walletId !in ids {
        LedgerWithoutKeepsOthers(ledger[..k], ids, last.walletId);
        RunningBalancesAppend(kept, last);
      } else {
        assert kept + [] == kept;
      }
    }
  }

  lemma {:induction false} WalletsWithoutMembers(wallets: seq<AppWallet>, userId: string)
    ensures forall w | w in WalletsWithout(wallets, userId) :: w in wallets && !OwnedBy(w, userId)
    ensures forall w | w in wallets && !OwnedBy(w, userId) :: w in WalletsWithout(wallets, userId)
  {
    if wallets != [] {
      WalletsWithoutMembers(wallets[1..], userId);
      assert wallets == [wallets[0]] + wallets[1..];
    }
  }

  lemma {:induction false} WalletsWithoutKeepIds(wallets: seq<AppWallet>, userId: string)
    requires UniqueIds(wallets)
    ensures UniqueIds(WalletsWithout(wallets, userId))
  {
    if wallets != [] {
      WalletsWithoutKeepIds(wallets[1..], userId);
      WalletsWithoutMembers(wallets[1..], userId);
      var tail, r := WalletsWithout(wallets[1..], userId), WalletsWithout(wallets, userId);
      forall i, j | 0 <= i < j < |r| ensures r[i].id != r[j].id {
        if r == [wallets[0]] + tail {
          assert r[j] == tail[j - 1] && tail[j - 1] in wallets[1..];
          var k :| 0 <= k < |wallets| - 1 && wallets[1..][k] == tail[j - 1];
          assert wallets[k + 1] == r[j] && wallets[0].id != wallets[k + 1].id;
          assert i > 0 ==> r[i] == tail[i - 1];
        } else {
          assert r == tail;
        }
      }
    }
  }

  lemma UserDeletionKeepsBalance(t: WalletTables, userId: string)
    requires Balanced(t)
    ensures Balanced(UserDeleted(t, userId))
  {
    WalletsWithoutKeepIds(t.wallets, userId);
    LedgerWithoutRuns(t.ledger, UserWalletIds(t.wallets, userId));
    SurvivorsKeepBalances(t.wallets, t.ledger, userId);
    SurvivorsOwnEntries(t.wallets, t.ledger, userId);
  }

  lemma SurvivorsKeepBalances(wallets: seq<AppWallet>, ledger: seq<LedgerEntry>, userId: string)
    requires UniqueIds(wallets) && BalancesMatch(wallets, ledger)
    ensures BalancesMatch(WalletsWithout(wallets, userId), LedgerWithout(ledger, UserWalletIds(wallets, userId)))
  {
    WalletsWithoutMembers(wallets, userId);
    forall w | w in WalletsWithout(wallets, userId)
      ensures w.balance == SumFor(LedgerWithout(ledger, UserWalletIds(wallets, userId)), w.id)
    {
      SurvivorIsNotDeleted(wallets, userId, w);
      LedgerWithoutKeepsOthers(ledger, UserWalletIds(wallets, userId), w.id);
    }
  }

  lemma SurvivorsOwnEntries(wallets: seq<AppWallet>, ledger: seq<LedgerEntry>, userId: string)
    requires RunningBalances(ledger) && NoOrphans(wallets, ledger)
    ensures NoOrphans(WalletsWithout(wallets, userId), LedgerWithout(ledger, UserWalletIds(wallets, userId)))
  {
    var ids := UserWalletIds(wallets, userId);
    LedgerWithoutRuns(ledger, ids);
    WalletsWithoutMembers(wallets, userId);
    forall e | e in LedgerWithout(ledger, ids) ensures HasWallet(WalletsWithout(wallets, userId), e.walletId) {
      var w :| w in wallets && w.id == e.walletId;
      assert w.id !in ids;
      assert w in WalletsWithout(wallets, userId);
    }
  }

  lemma SurvivorIsNotDeleted(wallets: seq<AppWallet>, userId: string, w: AppWallet)
    requires UniqueIds(wallets)
    requires w in wallets && !OwnedBy(w, userId)
    ensures w.id !in UserWalletIds(wallets, userId)
  {
    if w.id in UserWalletIds(wallets, userId) {
      var other :| other in wallets && OwnedBy(other, userId) && other.id == w.id;
      SameIdSameWallet(wallets, w, other);
    }
  }

  lemma SameIdSameWallet(wallets: seq<AppWallet>, a: AppWallet, b: AppWallet)
    requires UniqueIds(wallets)
    requires a in wallets && b in wallets && a.id == b.id
    ensures a == b
  {
    var i :| 0 <= i < |wallets| && wallets[i] == a;
    var j :| 0 <= j < |wallets| && wallets[j] == b;
    assert i == j;
  }

  // ---- Totals

  function SumOfBalances(wallets: seq<AppWallet>): int {
    if wallets == [] then 0 else wallets[0].balance + SumOfBalances(wallets[1..])
  }

  function SumOfAmounts(ledger: seq<LedgerEntry>): int {
    if ledger == [] then 0 else SumOfAmounts(ledger[..|ledger| - 1]) + ledger[|ledger| - 1].amount
  }

  function WalletIds(wallets: seq<AppWallet>): set<string> {
    set w | w in wallets :: w.id
  }

  function SumWithin(ledger: seq<LedgerEntry>, ids: set<string>): int {
    if ledger == [] then 0
    else
      var last := ledger[|ledger| - 1];
      SumWithin(ledger[..|ledger| - 1], ids) + (if last.walletId in ids then last.amount else 0)
  }

  lemma {:induction false} SumWithinSplits(ledger: seq<LedgerEntry>, id: string, ids: set<string>)
    requires id !in ids
    ensures SumWithin(ledger, {id} + ids) == SumFor(ledger, id) + SumWithin(ledger, ids)
  {
    if ledger != [] { SumWithinSplits(ledger[..|ledger| - 1], id, ids); }
  }

  lemma {:induction false} SumWithinAll(ledger: seq<LedgerEntry>, ids: set<string>)
    requires forall e | e in ledger :: e.walletId in ids
    ensures SumWithin(ledger, ids) == SumOfAmounts(ledger)
  {
    if ledger != [] {
      var k := |ledger| - 1;
      assert ledger[k] in ledger && forall e | e in ledger[..k] :: e in ledger;
      SumWithinAll(ledger[..k], ids);
    }
  }

  lemma {:induction false} SumWithinNone(ledger: seq<LedgerEntry>)
    ensures SumWithin(ledger, {}) == 0
  {
    if ledger != [] { SumWithinNone(ledger[..|ledger| - 1]); }
  }

  lemma {:induction false} BalancesAreLedgerSums(wallets: seq<AppWallet>, ledger: seq<LedgerEntry>)
    requires UniqueIds(wallets)
    requires BalancesMatch(wallets, ledger)
    ensures SumOfBalances(wallets) == SumWithin(ledger, WalletIds(wallets))
  {
    if wallets == [] {
      SumWithinNone(ledger);
      assert WalletIds(wallets) == {};
    } else {
      BalancesAreLedgerSums(wallets[1..], ledger);
      assert wallets == [wallets[0]] + wallets[1..];
      assert WalletIds(wallets) == {wallets[0].id} + WalletIds(wallets[1..]);
      forall w | w in wallets[1..] ensures w.id != wallets[0].id {
        var k :| 0 <= k < |wallets| - 1 && wallets[1..][k] == w;
        assert w == wallets[k + 1];
      }
      SumWithinSplits(ledger, wallets[0].id, WalletIds(wallets[1..]));
    }
  }

  lemma {:induction false} FindAppended(wallets: seq<AppWallet>, w: AppWallet)
    requires FindByOwner(wallets, w.ownerKind, w.ownerId).None?
    ensures FindByOwner(wallets + [w], w.ownerKind, w.ownerId) == Some(w)
  {
    if wallets != [] {
      FindAppended(wallets[1..], w);
      assert (wallets + [w])[1..] == wallets[1..] + [w];
    }
  }

  // ---- What a user deletion removes, row by row

  lemma {:induction false} UsersLeft(users: seq<string>, userId: string)
    ensures forall u :: multiset(UsersWithout(users, userId))[u] == if u == userId then 0 else multiset(users)[u]
    ensures |users| == |UsersWithout(users, userId)| + multiset(users)[userId]
  {
    if users != [] {
      UsersLeft(users[1..], userId);
      assert users == [users[0]] + users[1..];
    }
  }

  lemma {:induction false} KeyOwnersLeft(rows: seq<KeyOwner>, userId: string)
    ensures forall r :: multiset(KeyOwnersWithout(rows, userId))[r] ==
                        if r.ownerKind == "user" && r.ownerUserId == Some(userId) then 0 else multiset(rows)[r]
  {
    if rows != [] {
      KeyOwnersLeft(rows[1..], userId);
      assert rows == [rows[0]] + rows[1..];
    }
  }

  lemma {:induction false} RowsLeft(rows: seq<UserRow>, userId: string)
    ensures forall r :: multiset(RowsWithout(rows, userId))[r] == if r.userId == userId then 0 else multiset(rows)[r]
  {
    if rows != [] {
      RowsLeft(rows[1..], userId);
      assert rows == [rows[0]] + rows[1..];
    }
  }

  lemma {:induction false} WalletsLeft(wallets: seq<AppWallet>, userId: string)
    ensures forall w :: multiset(WalletsWithout(wallets, userId))[w] ==
                        if w.ownerKind == "user" && w.ownerId == userId then 0 else multiset(wallets)[w]
  {
    if wallets != [] {
      WalletsLeft(wallets[1..], userId);
      assert wallets == [wallets[0]] + wallets[1..];
    }
  }

  lemma {:induction false} EntriesLeft(ledger: seq<LedgerEntry>, ids: set<string>)
    ensures forall e :: multiset(LedgerWithout(ledger, ids))[e] == if e.walletId in ids then 0 else multiset(ledger)[e]
  {
    if ledger != [] {
      EntriesLeft(ledger[..|ledger| - 1], ids);
      assert ledger == ledger[..|ledger| - 1] + [ledger[|ledger| - 1]];
    }
  }

  /** The user is gone from `after`, with every row that hangs on the user, and every other row is as often there as
      before. */
  ghost predicate UserGone(before: WalletTables, after: WalletTables, userId: string) {
    && (forall u :: multiset(after.users)[u] == if u == userId then 0 else multiset(before.users)[u])
    && (forall r :: multiset(after.keyOwners)[r] ==
                    if r.ownerKind == "user" && r.ownerUserId == Some(userId) then 0 else multiset(before.keyOwners)[r])
    && (forall r :: multiset(after.sessions)[r] == if r.userId == userId then 0 else multiset(before.sessions)[r])
    && (forall r :: multiset(after.userGroups)[r] == if r.userId == userId then 0 else multiset(before.userGroups)[r])
    && (forall w :: multiset(after.wallets)[w] ==
                    if w.ownerKind == "user" && w.ownerId == userId then 0 else multiset(before.wallets)[w])
    && (forall e :: multiset(after.ledger)[e] ==
                    if exists w | w in before.wallets :: w.ownerKind == "user" && w.ownerId == userId && w.id == e.walletId
                    then 0 else multiset(before.ledger)[e])
  }

  lemma UserDeletedIsGone(t: WalletTables, userId: string)
    ensures UserGone(t, UserDeleted(t, userId), userId)
    ensures |t.users| - |UserDeleted(t, userId).users| == multiset(t.users)[userId]
  {
    UsersLeft(t.users, userId);
    KeyOwnersLeft(t.keyOwners, userId);
    RowsLeft(t.sessions, userId);
    RowsLeft(t.userGroups, userId);
    WalletsLeft(t.wallets, userId);
    EntriesLeft(t.ledger, UserWalletIds(t.wallets, userId));
  }

  // ---- What a new wallet and a booking are, column by column

  /** The wallet credited by one booking, and the entry that records it. */
  ghost predicate Booked(before: WalletTables, after: WalletTables, e: LedgerEntry) {
    && |after.wallets| == |before.wallets|
    && (exists i :: IsCredited(before.wallets, after.wallets, e, i))
    && (exists entry :: after.ledger == before.ledger + [entry] && Records(before.wallets, entry, e))
    && after == before.(wallets := after.wallets, ledger := after.ledger)
  }

  /** The `i`-th wallet is the entry's, active, and it alone changes: by the amount, at the entry's time. */
  ghost predicate IsCredited(before: seq<AppWallet>, after: seq<AppWallet>, e: LedgerEntry, i: nat) {
    && i < |before| && |after| == |before|
    && before[i].id == e.walletId && before[i].status == "active"
    && after[i] == before[i].(balance := before[i].balance + e.amount, updatedAt := e.createdAt)
    && forall j | 0 <= j < |before| && j != i :: after[j] == before[j]
  }

  ghost predicate Records(before: seq<AppWallet>, entry: LedgerEntry, e: LedgerEntry) {
    && (exists w | w in before :: w.id == e.walletId && entry.balanceAfter == w.balance + e.amount)
    && entry == e.(balanceAfter := entry.balanceAfter)
  }

  lemma {:induction false} CreditedOne(wallets: seq<AppWallet>, e: LedgerEntry, i: nat)
    requires UniqueIds(wallets) && i < |wallets| && wallets[i].id == e.walletId && wallets[i].status == "active"
    ensures IsCredited(wallets, Credited(wallets, e.walletId, e.amount, e.createdAt), e, i)
  {
    CreditedColumns(wallets, e);
  }

  lemma {:induction false} CreditedColumns(wallets: seq<AppWallet>, e: LedgerEntry)
    ensures var r := Credited(wallets, e.walletId, e.amount, e.createdAt);
            && |r| == |wallets|
            && forall j | 0 <= j < |wallets| ::
                 r[j] == if wallets[j].id == e.walletId
                         then wallets[j].(balance := wallets[j].balance + e.amount, updatedAt := e.createdAt) else wallets[j]
  {
    if wallets != [] { CreditedColumns(wallets[1..], e); }
  }

  lemma AdjustedIsBooked(t: WalletTables, e: LedgerEntry)
    requires UniqueIds(t.wallets) && EntryAccepted(t, e)
    ensures Booked(t, Adjusted(t, e), e)
  {
    var target := FindActive(t.wallets, e.walletId).value;
    var i :| 0 <= i < |t.wallets| && t.wallets[i] == target;
    CreditedOne(t.wallets, e, i);
    assert Records(t.wallets, Recorded(t, e), e);
  }
}
