/** The wallet operations statement by statement, and what runs of them leave committed and visible, whatever the
    engine refuses. */
module WalletRuns {
  import opened Wrappers
  import opened Database
  import opened Wallet

  // ---- What one operation leaves behind

  datatype Operation =
    | Ensure(id: string, ownerKind: string, ownerId: string, now: int)
    | Adjust(entry: LedgerEntry)
    | DeleteUser(userId: string)

  /** The state of the connection: what a reopened database would hold, and the open transaction's tables. */
  datatype Db = Db(committed: WalletTables, pending: Option<WalletTables>) {
    function View(): WalletTables {
      pending.GetOr(committed)
    }
  }

  /** The tables a transaction's statements have reached, and whether all of them went through. */
  datatype Work = Work(tables: WalletTables, done: bool)

  predicate Duplicate(t: WalletTables, e: LedgerEntry) {
    exists l | l in t.ledger :: l.id == e.id
  }

  function CreditOnly(t: WalletTables, e: LedgerEntry): WalletTables {
    t.(wallets := Credited(t.wallets, e.walletId, e.amount, e.createdAt))
  }

  /** The lookup, the credit and the ledger entry of one booking. */
  function Booking(t: WalletTables, e: LedgerEntry, faults: Faults): Work {
    if faults.statement(0) || FindActive(t.wallets, e.walletId).None? || faults.statement(1) then Work(t, false)
    else if Duplicate(t, e) || faults.statement(2) then Work(CreditOnly(t, e), false)
    else Work(Adjusted(t, e), true)
  }

  /** The first of the statements from `k` on that the engine refuses, else `n`. */
  function FirstRefused(faults: Faults, k: nat, n: nat): (r: nat)
    requires k <= n
    ensures k <= r <= n
    ensures forall i | k <= i < r :: !faults.statement(i)
    ensures r < n ==> faults.statement(r)
    decreases n - k
  {
    if k == n || faults.statement(k) then k else FirstRefused(faults, k + 1, n)
  }

  /** The tables after the first `n` statements of a user deletion. */
  function DeletedUpTo(t: WalletTables, userId: string, n: nat): WalletTables {
    var all := UserDeleted(t, userId);
    WalletTables(
      if n > 5 then all.users else t.users, if n > 0 then all.keyOwners else t.keyOwners,
      if n > 1 then all.sessions else t.sessions, if n > 2 then all.userGroups else t.userGroups,
      if n > 4 then all.wallets else t.wallets, if n > 3 then all.ledger else t.ledger)
  }

  const USER_STATEMENTS := 6

  function Deletion(t: WalletTables, userId: string, faults: Faults): Work {
    var n := FirstRefused(faults, 0, USER_STATEMENTS);
    Work(DeletedUpTo(t, userId, n), n == USER_STATEMENTS)
  }

  /** A transaction around `work`. A refused COMMIT or ROLLBACK leaves it open, and inside an open one none begins. */
  function Transact(db: Db, work: Work, faults: Faults): Db {
    if faults.begin || db.pending.Some? then db
    else if work.done then
      if faults.commit then db.(pending := Some(work.tables)) else Db(work.tables, None)
    else
      if faults.rollback then db.(pending := Some(work.tables)) else db
  }

  /** The wallet is inserted without a transaction, or inside the one left open. */
  function Inserted(db: Db, wallet: AppWallet): Db {
    var t := db.View();
    var after := t.(wallets := t.wallets + [wallet]);
    if db.pending.Some? then db.(pending := Some(after)) else db.(committed := after)
  }

  function Step(db: Db, op: Operation, faults: Faults): Db {
    match op
    case Ensure(id, kind, owner, now) =>
      if !faults.statement(0) && FindByOwner(db.View().wallets, kind, owner).None?
         && !faults.statement(1) && InsertAccepted(db.View(), id, kind)
      then Inserted(db, NewWallet(id, kind, owner, now))
      else db
    case Adjust(e) => Transact(db, Booking(db.committed, e, faults), faults)
    case DeleteUser(userId) => Transact(db, Deletion(db.committed, userId, faults), faults)
  }

  class WalletStorage {
    const conn: Connection<WalletTables>

    constructor (conn: Connection<WalletTables>)
      ensures this.conn == conn
    {
      this.conn := conn;
    }

    function State(): Db
      reads conn
    {
      Db(conn.committed, conn.pending)
    }

    method EnsureWalletForOwner(id: string, kind: string, owner: string, now: int, faults: Faults)
      returns (r: Result<AppWallet, Error>)
      modifies conn
      ensures State() == Step(old(State()), Ensure(id, kind, owner, now), faults)
      ensures r.Ok? ==> FindByOwner(conn.View().wallets, kind, owner) == Some(r.value)
      ensures r.Ok? ==> r.value in conn.View().wallets && r.value.ownerKind == kind && r.value.ownerId == owner
      ensures r.Ok? && (exists w | w in old(conn.View()).wallets :: w.ownerKind == kind && w.ownerId == owner) ==>
                State() == old(State())
      ensures r.Ok? && (forall w | w in old(conn.View()).wallets :: w.ownerKind != kind || w.ownerId != owner) ==>
                && r.value == AppWallet(id, kind, owner, 0, 0, "active", now, now)
                && conn.View() == old(conn.View()).(wallets := old(conn.View()).wallets + [r.value])
      ensures r.Ok? <==>
              && !faults.statement(0)
              && (|| FindByOwner(old(conn.View()).wallets, kind, owner).Some?
                  || (!faults.statement(1) && InsertAccepted(old(conn.View()), id, kind) && !faults.statement(2)))
      // The second lookup may fail after the wallet was inserted; every other error leaves nothing behind.
      ensures r.Err? && !faults.statement(2) ==> State() == old(State())
    {
      if faults.statement(0) {
        return Err(Refused);
      }
      var found := FindByOwner(conn.View().wallets, kind, owner);
      if found.Some? {
        return Ok(found.value);
      }
      var t := conn.View();
      if !InsertAccepted(t, id, kind) {
        return Err(ConstraintFailed);
      }
      var ok := conn.Execute(t.(wallets := t.wallets + [NewWallet(id, kind, owner, now)]), faults.statement(1));
      if !ok {
        return Err(Refused);
      }
      FindAppended(t.wallets, NewWallet(id, kind, owner, now));
      if faults.statement(2) {
        return Err(Refused);
      }
      found := FindByOwner(conn.View().wallets, kind, owner);
      r := if found.Some? then Ok(found.value) else Err(QueryReturnedNoRows);
    }

    /** Books one entry: committed balance and ledger move together, or not at all. */
    method AdjustWalletBalance(e: LedgerEntry, faults: Faults) returns (r: Result<LedgerEntry, Error>)
      modifies conn
      ensures State() == Step(old(State()), Adjust(e), faults)
      ensures r.Ok? <==> && old(conn.pending).None? && !faults.begin && !faults.commit && EntryAccepted(old(conn.committed), e)
                         && !faults.statement(0) && !faults.statement(1) && !faults.statement(2)
      ensures r.Ok? ==> r.value == Recorded(old(conn.committed), e) && State() == Db(Adjusted(old(conn.committed), e), None)
      ensures r.Ok? && UniqueIds(old(conn.committed).wallets) ==> Booked(old(conn.committed), conn.committed, e)
      ensures r.Err? ==> conn.committed == old(conn.committed)
      ensures r.Err? && old(conn.pending).None? ==>
                (conn.pending == None <==>
                 || faults.begin
                 || (!Booking(old(conn.committed), e, faults).done && !faults.rollback))
    {
      var began := conn.Begin(faults.begin);
      if !began {
        return Err(Refused);
      }
      var tx := new Transaction<WalletTables>(conn);
      ghost var before := conn.committed;
      r := Book(e, faults);
      if r.Ok? && UniqueIds(before.wallets) { AdjustedIsBooked(before, e); }
      if r.Ok? {
        var ok := tx.Commit(faults.commit);
        r := if ok then r else Err(Refused);
      }
      tx.Drop(faults.rollback);
    }

    /** The SELECT, the UPDATE and the INSERT of one booking. */
    method Book(e: LedgerEntry, faults: Faults) returns (r: Result<LedgerEntry, Error>)
      requires conn.pending.Some?
      modifies conn
      ensures conn.committed == old(conn.committed)
      ensures conn.pending == Some(Booking(old(conn.View()), e, faults).tables)
      ensures r.Ok? <==> Booking(old(conn.View()), e, faults).done
      ensures r.Ok? ==> r.value == Recorded(old(conn.View()), e)
    {
      var t := conn.View();
      var wallet := FindActive(t.wallets, e.walletId);
      if faults.statement(0) {
        return Err(Refused);
      }
      if wallet.None? {
        return Err(QueryReturnedNoRows);
      }
      var balanceAfter := wallet.value.balance + e.amount;
      var ok := conn.Execute(t.(wallets := Credited(t.wallets, e.walletId, e.amount, e.createdAt)), faults.statement(1));
      if !ok {
        return Err(Refused);
      }
      var entry := e.(balanceAfter := balanceAfter);
      t := conn.View();
      if exists l | l in t.ledger :: l.id == e.id {
        return Err(ConstraintFailed);
      }
      ok := conn.Execute(t.(ledger := t.ledger + [entry]), faults.statement(2));
      r := if ok then Ok(entry) else Err(Refused);
    }

    method DeleteAppUser(userId: string, faults: Faults) returns (r: Result<nat, Error>)
      modifies conn
      ensures State() == Step(old(State()), DeleteUser(userId), faults)
      ensures r.Ok? <==> && old(conn.pending).None? && !faults.begin && !faults.commit
                         && forall i | 0 <= i < USER_STATEMENTS :: !faults.statement(i)
      ensures r.Ok? ==> State() == Db(UserDeleted(old(conn.committed), userId), None)
      ensures r.Ok? ==> UserGone(old(conn.committed), conn.committed, userId)
      ensures r.Ok? ==> r.value == multiset(old(conn.committed).users)[userId]
      ensures r.Err? ==> conn.committed == old(conn.committed)
      ensures r.Err? && old(conn.pending).None? ==>
                (conn.pending == None <==>
                 || faults.begin
                 || ((exists i :: 0 <= i < USER_STATEMENTS && faults.statement(i)) && !faults.rollback))
    {
      hide UserGone, UserDeleted, DeletedUpTo;
      var began := conn.Begin(faults.begin);
      if !began {
        return Err(Refused);
      }
      var tx := new Transaction<WalletTables>(conn);
      var ok := DeleteUserRows(userId, faults);
      var deleted := |conn.committed.users| - |conn.View().users|;
      if ok {
        AllDeleted(conn.committed, userId);
        UserDeletedIsGone(conn.committed, userId);
        ok := tx.Commit(faults.commit);
      }
      tx.Drop(faults.rollback);
      r := if ok then Ok(deleted) else Err(Refused);
    }

    /** The ledger goes before the wallets: its DELETE finds them through the wallets table. */
    method DeleteUserRows(userId: string, faults: Faults) returns (ok: bool)
      requires conn.pending.Some?
      modifies conn
      ensures conn.committed == old(conn.committed)
      ensures conn.pending == Some(DeletedUpTo(old(conn.View()), userId, FirstRefused(faults, 0, USER_STATEMENTS)))
      ensures ok <==> FirstRefused(faults, 0, USER_STATEMENTS) == USER_STATEMENTS
    {
      var t := conn.View();
      t := t.(keyOwners := KeyOwnersWithout(t.keyOwners, userId));
      ok := conn.Execute(t, faults.statement(0));
      if !ok { return; }
      t := t.(sessions := RowsWithout(t.sessions, userId));
      ok := conn.Execute(t, faults.statement(1));
      if !ok { return; }
      t := t.(userGroups := RowsWithout(t.userGroups, userId));
      ok := conn.Execute(t, faults.statement(2));
      if !ok { return; }
      t := t.(ledger := LedgerWithout(t.ledger, UserWalletIds(t.wallets, userId)));
      ok := conn.Execute(t, faults.statement(3));
      if !ok { return; }
      t := t.(wallets := WalletsWithout(t.wallets, userId));
      ok := conn.Execute(t, faults.statement(4));
      if !ok { return; }
      t := t.(users := UsersWithout(t.users, userId));
      ok := conn.Execute(t, faults.statement(5));
    }
  }

  // ---- Runs

  type Run = seq<(Operation, Faults)>

  function After(db: Db, run: Run): Db {
    if run == [] then db
    else Step(After(db, run[..|run| - 1]), run[|run| - 1].0, run[|run| - 1].1)
  }

  /** Everything of `Balanced` but the balances themselves. */
  ghost predicate Sound(t: WalletTables) {
    && UniqueIds(t.wallets)
    && RunningBalances(t.ledger)
    && NoOrphans(t.wallets, t.ledger)
  }

  /** A new wallet starts at zero, and no entry waits for it. */
  lemma NewWalletIsNeutral(t: WalletTables, id: string, kind: string, owner: string, now: int)
    requires Sound(t) && InsertAccepted(t, id, kind)
    ensures var after := t.(wallets := t.wallets + [NewWallet(id, kind, owner, now)]);
            Sound(after) && (BalancesMatch(after.wallets, after.ledger) <==> BalancesMatch(t.wallets, t.ledger))
  {
    hide RunningBalances;
    forall e | e in t.ledger ensures e.walletId != id {
      var w :| w in t.wallets && w.id == e.walletId;
    }
    NoEntriesNoSum(t.ledger, id);
    var after := t.wallets + [NewWallet(id, kind, owner, now)];
    forall e | e in t.ledger ensures HasWallet(after, e.walletId) {
      var w :| w in t.wallets && w.id == e.walletId;
      assert w in after;
    }
    assert forall w | w in t.wallets :: w in after;
  }

  /** Crediting without recording leaves the wallet's balance off by the amount. */
  lemma CreditOnlyIsOff(t: WalletTables, e: LedgerEntry)
    requires Balanced(t) && FindActive(t.wallets, e.walletId).Some?
    ensures Sound(CreditOnly(t, e))
    ensures BalancesMatch(CreditOnly(t, e).wallets, t.ledger) <==> e.amount == 0
  {
    hide RunningBalances, Credited;
    var after := CreditOnly(t, e);
    CreditedPointwise(t.wallets, e.walletId, e.amount, e.createdAt);
    SameIdsUnique(t.wallets, after.wallets);
    forall l | l in t.ledger ensures HasWallet(after.wallets, l.walletId) {
      var w :| w in t.wallets && w.id == l.walletId;
      var i :| 0 <= i < |t.wallets| && t.wallets[i] == w;
      assert after.wallets[i] in after.wallets;
    }
    var target := FindActive(t.wallets, e.walletId).value;
    var k :| 0 <= k < |t.wallets| && t.wallets[k] == target;
    assert after.wallets[k] in after.wallets;
    if e.amount == 0 {
      forall w | w in after.wallets ensures w.balance == SumFor(t.ledger, w.id) {
        var i :| 0 <= i < |after.wallets| && after.wallets[i] == w;
        assert t.wallets[i] in t.wallets;
      }
    }
  }

  lemma BookingProgress(t: WalletTables, e: LedgerEntry, faults: Faults)
    requires Balanced(t)
    ensures var work := Booking(t, e, faults);
            && Sound(work.tables)
            && (BalancesMatch(work.tables.wallets, work.tables.ledger) <==> !HalfBooked(t, e, faults))
  {
    hide RunningBalances, BalancesMatch, NoOrphans, UniqueIds, Credited;
    if FindActive(t.wallets, e.walletId).Some? {
      CreditOnlyIsOff(t, e);
      if EntryAccepted(t, e) { AdjustmentKeepsBalance(t, e); }
    }
  }

  /** The credit went through and the ledger entry did not. */
  predicate HalfBooked(t: WalletTables, e: LedgerEntry, faults: Faults) {
    && FindActive(t.wallets, e.walletId).Some?
    && !faults.statement(0) && !faults.statement(1)
    && (Duplicate(t, e) || faults.statement(2))
    && e.amount != 0
  }

  /** The ledger entries are gone and the wallets, not all of them empty, are still there. */
  predicate HalfDeleted(t: WalletTables, userId: string, faults: Faults) {
    && (forall i | 0 <= i < 4 :: !faults.statement(i))
    && faults.statement(4)
    && exists w | w in t.wallets :: OwnedBy(w, userId) && w.balance != 0
  }

  /** Without their entries exactly the user's empty wallets still match. */
  lemma LedgerFirstIsOff(t: WalletTables, userId: string)
    requires Balanced(t)
    ensures var ledger := LedgerWithout(t.ledger, UserWalletIds(t.wallets, userId));
            && RunningBalances(ledger) && NoOrphans(t.wallets, ledger)
            && (BalancesMatch(t.wallets, ledger) <==> forall w | w in t.wallets && OwnedBy(w, userId) :: w.balance == 0)
  {
    hide RunningBalances;
    var ids := UserWalletIds(t.wallets, userId);
    LedgerWithoutRuns(t.ledger, ids);
    forall w | w in t.wallets
      ensures SumFor(LedgerWithout(t.ledger, ids), w.id) == if OwnedBy(w, userId) then 0 else w.balance
    {
      if OwnedBy(w, userId) {
        NoEntriesNoSum(LedgerWithout(t.ledger, ids), w.id);
      } else {
        SurvivorIsNotDeleted(t.wallets, userId, w);
        LedgerWithoutKeepsOthers(t.ledger, ids, w.id);
      }
    }
  }

  lemma DeletionProgress(t: WalletTables, userId: string, faults: Faults)
    requires Balanced(t)
    ensures var work := Deletion(t, userId, faults);
            && Sound(work.tables)
            && (BalancesMatch(work.tables.wallets, work.tables.ledger) <==> !HalfDeleted(t, userId, faults))
  {
    hide RunningBalances, BalancesMatch, NoOrphans, UniqueIds;
    LedgerFirstIsOff(t, userId);
    UserDeletionKeepsBalance(t, userId);
    var n := FirstRefused(faults, 0, USER_STATEMENTS);
    assert n == 4 <==> (forall i | 0 <= i < 4 :: !faults.statement(i)) && faults.statement(4);
  }

  /** The operation fails half-way through its writes and its ROLLBACK is refused too: the half done part stays
      visible. */
  predicate Strands(db: Db, op: Operation, faults: Faults) {
    && db.pending.None? && !faults.begin && faults.rollback
    && match op
       case Ensure(_, _, _, _) => false
       case Adjust(e) => HalfBooked(db.committed, e, faults)
       case DeleteUser(userId) => HalfDeleted(db.committed, userId, faults)
  }

  lemma StepKeepsCommitted(db: Db, op: Operation, faults: Faults)
    requires Balanced(db.committed)
    ensures Balanced(Step(db, op, faults).committed)
  {
    hide Balanced, Adjusted, DeletedUpTo;
    match op
    case Ensure(id, kind, owner, now) =>
      if db.pending.None? && InsertAccepted(db.committed, id, kind) {
        NewWalletKeepsBalance(db.committed, id, kind, owner, now);
      }
    case Adjust(e) =>
      if Booking(db.committed, e, faults).done { AdjustmentKeepsBalance(db.committed, e); }
    case DeleteUser(userId) =>
      if Deletion(db.committed, userId, faults).done {
        UserDeletionKeepsBalance(db.committed, userId);
        AllDeleted(db.committed, userId);
      }
  }

  lemma AllDeleted(t: WalletTables, userId: string)
    ensures DeletedUpTo(t, userId, USER_STATEMENTS) == UserDeleted(t, userId)
  {}

  /** Credit is conserved: after every run, whatever the engine refused, each committed wallet holds exactly its
      ledger's sum, every entry recorded the sum as it stood, and no entry is without its wallet. */
  lemma {:induction false} EveryRunIsBalanced(db: Db, run: Run)
    requires Balanced(db.committed)
    ensures Balanced(After(db, run).committed)
  {
    if run != [] {
      hide Balanced, Step;
      EveryRunIsBalanced(db, run[..|run| - 1]);
      StepKeepsCommitted(After(db, run[..|run| - 1]), run[|run| - 1].0, run[|run| - 1].1);
    }
  }

  /** One step from tables that are sound as far as they can be seen. */
  lemma StepOnVisible(db: Db, op: Operation, faults: Faults)
    requires Sound(db.View()) && Balanced(db.committed)
    ensures Sound(Step(db, op, faults).View())
    ensures Balanced(Step(db, op, faults).View()) <==> Balanced(db.View()) && !Strands(db, op, faults)
  {
    hide RunningBalances, BalancesMatch, NoOrphans, UniqueIds, Adjusted, DeletedUpTo;
    match op
    case Ensure(id, kind, owner, now) =>
      if InsertAccepted(db.View(), id, kind) { NewWalletIsNeutral(db.View(), id, kind, owner, now); }
    case Adjust(e) =>
      BookingProgress(db.committed, e, faults);
      if Booking(db.committed, e, faults).done {
        assert !HalfBooked(db.committed, e, faults);
      }
    case DeleteUser(userId) =>
      DeletionProgress(db.committed, userId, faults);
      if Deletion(db.committed, userId, faults).done {
        assert !HalfDeleted(db.committed, userId, faults);
      }
  }

  /** Some operation of the run was stranded half-way. */
  predicate AnyStranded(db: Db, run: Run) {
    run != [] &&
    var n := |run| - 1;
    AnyStranded(db, run[..n]) || Strands(After(db, run[..n]), run[n].0, run[n].1)
  }

  /** What later statements see after a run from a fresh connection is balanced exactly if no operation of the run was
      stranded half-way. */
  lemma {:induction false} VisibleIsBalancedExactlyUnlessStranded(db: Db, run: Run)
    requires Balanced(db.committed) && db.pending.None?
    ensures Sound(After(db, run).View())
    ensures Balanced(After(db, run).View()) <==> !AnyStranded(db, run)
  {
    if run != [] {
      hide Balanced, Sound, Step, Strands;
      var n := |run| - 1;
      VisibleIsBalancedExactlyUnlessStranded(db, run[..n]);
      EveryRunIsBalanced(db, run[..n]);
      StepOnVisible(After(db, run[..n]), run[n].0, run[n].1);
    }
  }

  const EMPTY := WalletTables([], [], [], [], [], [])

  /** All committed credit is all credit ever booked to the wallets that remain. */
  lemma CreditOutstandingIsCreditBooked(run: Run)
    ensures var t := After(Db(EMPTY, None), run).committed; SumOfBalances(t.wallets) == SumOfAmounts(t.ledger)
  {
    var t := After(Db(EMPTY, None), run).committed;
    EveryRunIsBalanced(Db(EMPTY, None), run);
    BalancesAreLedgerSums(t.wallets, t.ledger);
    forall e | e in t.ledger ensures e.walletId in WalletIds(t.wallets) {
      var w :| w in t.wallets && w.id == e.walletId;
    }
    SumWithinAll(t.ledger, WalletIds(t.wallets));
  }
}
