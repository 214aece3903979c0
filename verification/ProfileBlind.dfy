/** Operations one after another, some of them on settings that cannot be read. */
module ProfileBlind {
  import opened ProfileSteps
  import opened ProfileRuns

  /** An operation runs only while no other is unfinished, and nobody edits meanwhile. Any step may fail. */
  predicate Serial(m: Machine, e: Event)
    ensures Serial(m, e) ==> Enabled(m, e)
  {
    && Enabled(m, e)
    && match e
       case Run(i, _) => forall j | 0 <= j < |m.threads| && j != i :: !Unfinished(m.threads[j].pc)
       case Edit(_, _) => forall j | 0 <= j < |m.threads| :: !Unfinished(m.threads[j].pc)
  }

  predicate SerialRun(m: Machine, events: seq<Event>)
    requires Fitting(m)
    ensures SerialRun(m, events) ==> Possible(m, events)
    decreases |events|
  {
    events != [] ==> Serial(m, events[0]) && SerialRun(Next(m, events[0]), events[1..])
  }

  /** An apply that could not read the settings saves them: the save that replaces the whole backup map. */
  predicate BlindSave(m: Machine, e: Event)
    requires Enabled(m, e)
  {
    e.Run? && !e.failed && m.threads[e.thread].pc.SaveBackups? && m.threads[e.thread].pc.blind
  }

  /** Every profile with a backup still, or again, holds what the backup holds. */
  predicate NothingTakenOver(w: World) {
    forall q | q in w.backups :: ContentsOf(w, q) == w.backups[q]
  }

  predicate Guarded(m: Machine, e: Event)
    requires Enabled(m, e)
  {
    BlindSave(m, e) ==> NothingTakenOver(m.world)
  }

  /** Every blind save of the run happens while nothing is taken over. */
  predicate GuardedRun(m: Machine, events: seq<Event>)
    requires Fitting(m) && SerialRun(m, events)
    decreases |events|
  {
    events != [] ==> Guarded(m, events[0]) && GuardedRun(Next(m, events[0]), events[1..])
  }

  ghost predicate RecoverableThroughout(m: Machine, events: seq<Event>)
    requires Fitting(m) && SerialRun(m, events)
    decreases |events|
  {
    Recoverable(m) && (events != [] ==> RecoverableThroughout(Next(m, events[0]), events[1..]))
  }

  predicate Holds(m: Machine, t: Thread) {
    var (p, w) := (t.op.profile, m.world);
    match t.pc
    case ReadAuth(loaded, blind) => Loaded(w, p, loaded, blind)
    case ReadConfig(loaded, blind, auth) => Loaded(w, p, loaded, blind) && auth == ContentsOf(w, p).auth
    case SaveBackups(loaded, blind) =>
      loaded == (if blind then map[] else w.backups)[p := ContentsOf(w, p)] && (!blind ==> p !in w.backups)
    case _ => Knows(m, t)
  }

  predicate Loaded(w: World, p: string, loaded: map<string, Contents>, blind: bool) {
    if blind then loaded == map[] else loaded == w.backups && p !in w.backups
  }

  ghost predicate SerialInvariant(m: Machine) {
    && Fitting(m)
    && Safe(m)
    && (forall i | 0 <= i < |m.threads| :: Holds(m, m.threads[i]))
    && (forall i, j | 0 <= i < |m.threads| && 0 <= j < |m.threads| && i != j ::
          !(Unfinished(m.threads[i].pc) && Unfinished(m.threads[j].pc)))
  }

  lemma FinishedHolds(m: Machine, t: Thread)
    requires !Unfinished(t.pc)
    ensures Holds(m, t)
  {}

  lemma StepKeepsSafe(m: Machine, i: nat, failed: bool)
    requires SerialInvariant(m) && Serial(m, Run(i, failed)) && Guarded(m, Run(i, failed))
    ensures Safe(Ran(m, i, failed))
  {
    var p := m.threads[i].op.profile;
    assert Holds(m, m.threads[i]) && SafeAt(m, p);
    forall q ensures SafeAt(Ran(m, i, failed), q) {
      assert SafeAt(m, q);
    }
  }

  lemma StepKeepsOwn(m: Machine, i: nat, failed: bool)
    requires SerialInvariant(m) && Serial(m, Run(i, failed)) && Guarded(m, Run(i, failed))
    ensures Holds(Ran(m, i, failed), Ran(m, i, failed).threads[i])
  {
    assert Holds(m, m.threads[i]) && SafeAt(m, m.threads[i].op.profile);
  }

  lemma RunKeepsSerialInvariant(m: Machine, i: nat, failed: bool)
    requires SerialInvariant(m) && Serial(m, Run(i, failed)) && Guarded(m, Run(i, failed))
    ensures SerialInvariant(Ran(m, i, failed))
  {
    hide Advance, Holds, Safe;
    StepKeepsSafe(m, i, failed);
    StepKeepsOwn(m, i, failed);
    var r := Ran(m, i, failed);
    forall j | 0 <= j < |r.threads| ensures Holds(r, r.threads[j]) {
      if j != i { FinishedHolds(r, r.threads[j]); }
    }
  }

  lemma EditKeepsSerialInvariant(m: Machine, p: string, contents: Contents)
    requires SerialInvariant(m) && Serial(m, Edit(p, contents))
    ensures SerialInvariant(Next(m, Edit(p, contents)))
  {
    hide Holds;
    var r := Next(m, Edit(p, contents));
    forall q ensures SafeAt(r, q) {
      assert SafeAt(m, q);
    }
    forall j | 0 <= j < |r.threads| ensures Holds(r, r.threads[j]) {
      FinishedHolds(r, r.threads[j]);
    }
  }

  /** A blind save over a taken-over profile, its own included, loses that profile's original on the spot. */
  lemma BlindSaveLoses(m: Machine, i: nat, q: string)
    requires SerialInvariant(m) && Serial(m, Run(i, false)) && BlindSave(m, Run(i, false))
    requires q in m.world.backups && ContentsOf(m.world, q) != m.world.backups[q]
    ensures !RecoverableAt(Ran(m, i, false), q)
  {
    assert Holds(m, m.threads[i]) && SafeAt(m, q);
  }

  lemma {:induction false} ThroughoutExactlyWhenGuarded(m: Machine, events: seq<Event>)
    requires SerialInvariant(m) && SerialRun(m, events)
    ensures RecoverableThroughout(m, events) <==> GuardedRun(m, events)
    decreases |events|
  {
    hide Serial, Next, Holds, Safe, Recoverable, BlindSave, NothingTakenOver;
    SafeIsRecoverable(m);
    if events != [] {
      var e := events[0];
      if Guarded(m, e) {
        match e {
          case Run(i, failed) => RunKeepsSerialInvariant(m, i, failed);
          case Edit(p, contents) => EditKeepsSerialInvariant(m, p, contents);
        }
        ThroughoutExactlyWhenGuarded(Next(m, e), events[1..]);
      } else {
        UnguardedLoses(m, e);
      }
    }
  }

  lemma UnguardedLoses(m: Machine, e: Event)
    requires SerialInvariant(m) && Serial(m, e) && !Guarded(m, e)
    ensures !Recoverable(Next(m, e))
  {
    hide Next, Holds, Safe;
    var q :| q in m.world.backups && ContentsOf(m.world, q) != m.world.backups[q];
    BlindSaveLoses(m, e.thread, q);
  }

  /** Over operations run one after another, whatever fails, every profile's original is recoverable at every point if
      and only if each save that follows an unreadable load happens while nothing is taken over. */
  lemma RecoverableExactlyWhenBlindSavesAreGuarded(m: Machine, events: seq<Event>)
    requires Fitting(m) && Initial(m) && SerialRun(m, events)
    ensures RecoverableThroughout(m, events) <==> GuardedRun(m, events)
  {
    hide Holds;
    forall j | 0 <= j < |m.threads| ensures Holds(m, m.threads[j]) {
      FinishedHolds(m, m.threads[j]);
    }
    ThroughoutExactlyWhenGuarded(m, events);
  }

  /** The losing run: an apply whose load fails and whose reads and save go through loses the original of any profile
      that is taken over, another one or its own. */
  lemma BlindApplyLosesTakenOverProfile(m: Machine, i: nat, q: string)
    requires Fitting(m) && Initial(m) && i < |m.threads| && m.threads[i].op.Apply?
    requires q in m.world.backups && ContentsOf(m.world, q) != m.world.backups[q]
    ensures var m1 := Ran(m, i, true);
            && m1.threads[i].pc.ReadAuth?
            && Ran(m1, i, false).threads[i].pc.ReadConfig?
            && var m3 := Ran(Ran(m1, i, false), i, false);
            m3.threads[i].pc.SaveBackups? && !RecoverableAt(Ran(m3, i, false), q)
  {
    assert SafeAt(m, q);
    var m1 := Ran(m, i, true);
    var m2 := Ran(m1, i, false);
    var m3 := Ran(m2, i, false);
    assert m3.world == m.world && m3.originals == m.originals;
    assert m3.threads[i].pc == SaveBackups(map[m.threads[i].op.profile := ContentsOf(m.world, m.threads[i].op.profile)], true);
  }
}
