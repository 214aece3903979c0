/** Any number of takeover and restore operations interleaved step by step, with the user editing files between. */
module ProfileRuns {
  import opened Wrappers
  import opened ProfileSteps

  datatype Thread = Thread(op: Operation, pc: Pc)

  /** `originals` are the files as the user last left them while a profile had no backup: what a restore is for. */
  datatype Machine = Machine(world: World, threads: seq<Thread>, originals: map<string, Contents>)

  datatype Event = Run(thread: nat, failed: bool) | Edit(profile: string, contents: Contents)

  function OriginalIn(originals: map<string, Contents>, p: string): Contents {
    if p in originals then originals[p] else NO_FILES.contents
  }

  function Original(m: Machine, p: string): Contents {
    OriginalIn(m.originals, p)
  }

  predicate Fitting(m: Machine) {
    forall i | 0 <= i < |m.threads| :: Fits(m.threads[i].op, m.threads[i].pc)
  }

  /** An event that can happen: a thread of the machine that is not done. */
  predicate Enabled(m: Machine, e: Event) {
    e.Edit? || (e.thread < |m.threads| && !m.threads[e.thread].pc.Done?)
  }

  function Next(m: Machine, e: Event): (r: Machine)
    requires Fitting(m) && Enabled(m, e)
    ensures Fitting(r) && |r.threads| == |m.threads|
  {
    match e
    case Run(i, failed) =>
      var t := m.threads[i];
      var (w, pc) := Advance(m.world, t.op, t.pc, failed);
      m.(world := w, threads := m.threads[i := t.(pc := pc)])
    case Edit(p, contents) =>
      m.(world := WithFiles(m.world, p, FilesOf(m.world, p).(contents := contents)),
         originals := if p in m.world.backups then m.originals else m.originals[p := contents])
  }

  predicate Possible(m: Machine, events: seq<Event>)
    requires Fitting(m)
    decreases |events|
  {
    events != [] ==> Enabled(m, events[0]) && Possible(Next(m, events[0]), events[1..])
  }

  function Exec(m: Machine, events: seq<Event>): (r: Machine)
    requires Fitting(m) && Possible(m, events)
    ensures Fitting(r)
    decreases |events|
  {
    if events == [] then m else Exec(Next(m, events[0]), events[1..])
  }

  /** Run with nothing in between, a thread does what its operation does alone. */
  lemma {:induction false} AloneIsARun(m: Machine, i: nat, faults: Step -> bool) returns (events: seq<Event>)
    requires Fitting(m) && i < |m.threads|
    ensures Possible(m, events)
    ensures var (w, completed) := Alone(m.world, m.threads[i].op, m.threads[i].pc, faults);
            Exec(m, events) == m.(world := w, threads := m.threads[i := m.threads[i].(pc := Done(completed))])
    decreases Rank(m.threads[i].pc)
  {
    hide Advance, Fits;
    var t := m.threads[i];
    if t.pc.Done? {
      events := [];
      assert m.threads[i := t.(pc := Done(t.pc.completed))] == m.threads;
    } else {
      var e := Run(i, Fails(faults, t.pc));
      var next := Next(m, e);
      var rest := AloneIsARun(next, i, faults);
      events := [e] + rest;
      assert events[1..] == rest;
    }
  }

  /** The original is still there to be had: as the backup, or as the files themselves. */
  predicate RecoverableAt(m: Machine, p: string) {
    || (p in m.world.backups && m.world.backups[p] == Original(m, p))
    || ContentsOf(m.world, p) == Original(m, p)
  }

  ghost predicate Recoverable(m: Machine) {
    forall p :: RecoverableAt(m, p)
  }

  /** A profile with a backup has its original there, and one without holds it. */
  predicate SafeAt(m: Machine, p: string) {
    if p in m.world.backups then m.world.backups[p] == Original(m, p) else ContentsOf(m.world, p) == Original(m, p)
  }

  ghost predicate Safe(m: Machine) {
    forall p :: SafeAt(m, p)
  }

  lemma SafeIsRecoverable(m: Machine)
    requires Safe(m)
    ensures Recoverable(m)
  {
    forall p ensures RecoverableAt(m, p) {
      assert SafeAt(m, p);
    }
  }

  ghost predicate Initial(m: Machine) {
    && Safe(m)
    && forall i | 0 <= i < |m.threads| :: m.threads[i].pc.Start?
  }

  /** Any world is a start: a profile's original is its backup, or its files. */
  lemma EveryWorldIsInitial(w: World, ops: seq<Operation>) returns (m: Machine)
    ensures m.world == w && |m.threads| == |ops|
    ensures forall i | 0 <= i < |ops| :: m.threads[i].op == ops[i]
    ensures Fitting(m) && Initial(m)
  {
    var originals := map p | p in w.profiles.Keys + w.backups.Keys ::
      if p in w.backups then w.backups[p] else ContentsOf(w, p);
    m := Machine(w, seq(|ops|, i requires 0 <= i < |ops| => Thread(ops[i], Start)), originals);
    forall p ensures SafeAt(m, p) {
      assert p !in originals ==> FilesOf(w, p) == NO_FILES;
    }
  }

  // ---- The order in which operations may overlap

  /** Between loading the backups and saving them. */
  predicate InWindow(pc: Pc) {
    pc.ReadAuth? || pc.ReadConfig? || pc.SaveBackups?
    || pc.RestoreAuth? || pc.RestoreConfig? || pc.RemoveMarker? || pc.RemoveLegacyMarker? || pc.SaveRest?
  }

  predicate Unfinished(pc: Pc) {
    !pc.Start? && !pc.Done?
  }

  /** No two windows overlap; a restore does not begin while an apply of its profile is unfinished; nobody edits a
      profile an operation is at work on; and the settings can be read. Everything else may interleave and fail. */
  predicate Disciplined(m: Machine, e: Event)
    ensures Disciplined(m, e) ==> Enabled(m, e)
  {
    && Enabled(m, e)
    && match e
       case Run(i, failed) =>
         m.threads[i].pc.Start? ==>
           && !failed
           && (forall j | 0 <= j < |m.threads| :: !InWindow(m.threads[j].pc))
           && (m.threads[i].op.Restore? ==>
                 forall j | 0 <= j < |m.threads| && Unfinished(m.threads[j].pc) ::
                   m.threads[j].op.Restore? || m.threads[j].op.profile != m.threads[i].op.profile)
       case Edit(p, _) =>
         forall j | 0 <= j < |m.threads| && m.threads[j].op.profile == p :: !Unfinished(m.threads[j].pc)
  }

  predicate DisciplinedRun(m: Machine, events: seq<Event>)
    requires Fitting(m)
    ensures DisciplinedRun(m, events) ==> Possible(m, events)
    decreases |events|
  {
    events != [] ==> Disciplined(m, events[0]) && DisciplinedRun(Next(m, events[0]), events[1..])
  }

  // ---- What every step of a disciplined run keeps

  /** What a thread knows of the world it has left behind it. */
  predicate Knows(m: Machine, t: Thread) {
    var (p, w) := (t.op.profile, m.world);
    match t.pc
    case ReadAuth(loaded, _) => p !in w.backups && loaded == w.backups
    case ReadConfig(loaded, _, auth) => p !in w.backups && loaded == w.backups && auth == Original(m, p).auth
    case SaveBackups(loaded, _) => p !in w.backups && loaded == w.backups[p := Original(m, p)]
    case RestoreAuth(backup, rest) => HasBackup(m, p) && backup == Original(m, p) && rest == w.backups - {p}
    case RestoreConfig(backup, rest) =>
      && HasBackup(m, p) && backup == Original(m, p) && rest == w.backups - {p}
      && ContentsOf(w, p).auth == Original(m, p).auth
    case RemoveMarker(rest) => HasBackup(m, p) && rest == w.backups - {p} && ContentsOf(w, p) == Original(m, p)
    case RemoveLegacyMarker(rest) =>
      && HasBackup(m, p) && rest == w.backups - {p}
      && ContentsOf(w, p) == Original(m, p) && FilesOf(w, p).marker == None
    case SaveRest(rest) =>
      && HasBackup(m, p) && rest == w.backups - {p}
      && FilesOf(w, p) == ProfileFiles(Original(m, p), None, None)
    case _ => t.op.Apply? && Unfinished(t.pc) ==> HasBackup(m, p)
  }

  predicate HasBackup(m: Machine, p: string) {
    p in m.world.backups && m.world.backups[p] == Original(m, p)
  }

  /** Two threads at once: not both in their windows, and no restore in its window beside an unfinished apply of the same
      profile. */
  predicate Apart(s: Thread, t: Thread) {
    && !(InWindow(s.pc) && InWindow(t.pc))
    && (s.op.Restore? && InWindow(s.pc) && t.op.Apply? && Unfinished(t.pc) ==> s.op.profile != t.op.profile)
  }

  ghost predicate Invariant(m: Machine) {
    && Fitting(m)
    && Safe(m)
    && (forall i | 0 <= i < |m.threads| :: Knows(m, m.threads[i]))
    && (forall i, j | 0 <= i < |m.threads| && 0 <= j < |m.threads| && i != j :: Apart(m.threads[i], m.threads[j]))
  }

  function Ran(m: Machine, i: nat, failed: bool): Machine
    requires Fitting(m) && i < |m.threads| && !m.threads[i].pc.Done?
  {
    Next(m, Run(i, failed))
  }

  /** What one step does to the world, seen from outside: only its own profile's files, and its own entry. */
  lemma StepTouchesOwn(m: Machine, i: nat, failed: bool)
    requires Invariant(m) && i < |m.threads| && !m.threads[i].pc.Done?
    ensures var (p, w, w') := (m.threads[i].op.profile, m.world, Ran(m, i, failed).world);
            && (forall q | q != p ::
                  && FilesOf(w', q) == FilesOf(w, q)
                  && (q in w'.backups <==> q in w.backups)
                  && (q in w.backups ==> w'.backups[q] == w.backups[q]))
            && (w'.backups != w.backups ==> InWindow(m.threads[i].pc))
            && (ContentsOf(w', p) != ContentsOf(w, p) ==> HasBackup(m, p) && p in w'.backups)
  {
    assert Knows(m, m.threads[i]);
  }

  lemma StepKeepsSafe(m: Machine, i: nat, failed: bool)
    requires Invariant(m) && Disciplined(m, Run(i, failed))
    ensures Safe(Ran(m, i, failed))
  {
    hide Advance;
    var p := m.threads[i].op.profile;
    StepTouchesOwn(m, i, failed);
    OwnStaysSafe(m, i, failed);
    forall q ensures SafeAt(Ran(m, i, failed), q) {
      assert SafeAt(m, q);
    }
  }

  lemma OwnStaysSafe(m: Machine, i: nat, failed: bool)
    requires Invariant(m) && Disciplined(m, Run(i, failed))
    ensures SafeAt(Ran(m, i, failed), m.threads[i].op.profile)
  {
    assert Knows(m, m.threads[i]) && SafeAt(m, m.threads[i].op.profile);
  }

  lemma OwnKnows(m: Machine, i: nat, failed: bool)
    requires Invariant(m) && Disciplined(m, Run(i, failed))
    ensures Knows(Ran(m, i, failed), Ran(m, i, failed).threads[i])
  {
    assert Knows(m, m.threads[i]) && SafeAt(m, m.threads[i].op.profile);
  }

  /** Another thread's knowledge survives: who is in a window shares it with no one. */
  lemma OtherKnows(m: Machine, i: nat, failed: bool, j: nat)
    requires Invariant(m) && Disciplined(m, Run(i, failed)) && j < |m.threads| && j != i
    ensures Knows(Ran(m, i, failed), m.threads[j])
  {
    hide Advance;
    var (s, t) := (m.threads[i], m.threads[j]);
    assert Knows(m, t) && Knows(m, s) && Apart(s, t) && Apart(t, s);
    StepTouchesOwn(m, i, failed);
    OwnStaysSafe(m, i, failed);
    WritesNotBesideRestore(m, i, failed, j);
  }

  /** Beside a restore in its window of the same profile no step writes that profile's files or marker. */
  lemma WritesNotBesideRestore(m: Machine, i: nat, failed: bool, j: nat)
    requires Invariant(m) && Disciplined(m, Run(i, failed)) && j < |m.threads| && j != i
    ensures m.threads[j].op.Restore? && InWindow(m.threads[j].pc) && m.threads[i].op.profile == m.threads[j].op.profile ==>
              Ran(m, i, failed).world.profiles == m.world.profiles && Ran(m, i, failed).world.backups == m.world.backups
  {
    assert Apart(m.threads[i], m.threads[j]) && Apart(m.threads[j], m.threads[i]);
    assert Fits(m.threads[i].op, m.threads[i].pc);
  }

  lemma StaysApart(m: Machine, i: nat, failed: bool, j: nat)
    requires Invariant(m) && Disciplined(m, Run(i, failed)) && j < |m.threads| && j != i
    ensures Apart(Ran(m, i, failed).threads[i], m.threads[j]) && Apart(m.threads[j], Ran(m, i, failed).threads[i])
  {
    assert Apart(m.threads[i], m.threads[j]) && Apart(m.threads[j], m.threads[i]);
    assert Fits(m.threads[i].op, m.threads[i].pc) && Fits(m.threads[j].op, m.threads[j].pc);
  }

  lemma RunKeepsInvariant(m: Machine, i: nat, failed: bool)
    requires Invariant(m) && Disciplined(m, Run(i, failed))
    ensures Invariant(Ran(m, i, failed))
  {
    hide Knows, Apart, Advance, Safe;
    var r := Ran(m, i, failed);
    StepKeepsSafe(m, i, failed);
    OwnKnows(m, i, failed);
    forall j | 0 <= j < |r.threads| ensures Knows(r, r.threads[j]) {
      if j != i { OtherKnows(m, i, failed, j); }
    }
    forall j, k | 0 <= j < |r.threads| && 0 <= k < |r.threads| && j != k ensures Apart(r.threads[j], r.threads[k]) {
      if j == i { StaysApart(m, i, failed, k); }
      else if k == i { StaysApart(m, i, failed, j); }
      else { assert Apart(m.threads[j], m.threads[k]); }
    }
  }

  lemma EditKeepsInvariant(m: Machine, p: string, contents: Contents)
    requires Invariant(m) && Disciplined(m, Edit(p, contents))
    ensures Invariant(Next(m, Edit(p, contents)))
  {
    var r := Next(m, Edit(p, contents));
    forall q ensures SafeAt(r, q) {
      assert SafeAt(m, q);
    }
    forall j | 0 <= j < |r.threads| ensures Knows(r, r.threads[j]) {
      assert Knows(m, m.threads[j]);
    }
    assert forall j, k | 0 <= j < |r.threads| && 0 <= k < |r.threads| && j != k :: Apart(m.threads[j], m.threads[k]);
  }

  lemma {:induction false} DisciplinedKeepsInvariant(m: Machine, events: seq<Event>)
    requires Invariant(m) && DisciplinedRun(m, events)
    ensures Invariant(Exec(m, events))
    decreases |events|
  {
    hide Disciplined, Next, Knows, Apart, Safe;
    if events != [] {
      match events[0]
      case Run(i, failed) =>
        RunKeepsInvariant(m, i, failed);
        DisciplinedKeepsInvariant(Next(m, events[0]), events[1..]);
      case Edit(p, contents) =>
        EditKeepsInvariant(m, p, contents);
        DisciplinedKeepsInvariant(Next(m, events[0]), events[1..]);
    }
  }

  lemma InitialIsInvariant(m: Machine)
    requires Fitting(m) && Initial(m)
    ensures Invariant(m)
  {}

  /** At every point of every disciplined run of any number of operations, whichever single reads and writes failed, every
      profile's original is recoverable. */
  lemma TakeoverIsRecoverable(m: Machine, events: seq<Event>)
    requires Fitting(m) && Initial(m) && DisciplinedRun(m, events)
    ensures Recoverable(Exec(m, events))
  {
    InitialIsInvariant(m);
    DisciplinedKeepsInvariant(m, events);
    SafeIsRecoverable(Exec(m, events));
  }

  /** A restore that gives up its backup, anywhere in a disciplined run, has brought back exactly the original files,
      absence included, and no marker; other profiles and their backups are untouched by it. */
  lemma CompletedRestoreReturnsOriginal(m: Machine, events: seq<Event>, i: nat)
    requires Fitting(m) && Initial(m) && DisciplinedRun(m, events)
    requires i < |Exec(m, events).threads| && Exec(m, events).threads[i].pc.SaveRest?
    ensures var (before, p) := (Exec(m, events), Exec(m, events).threads[i].op.profile);
            var after := Next(before, Run(i, false));
            && p in before.world.backups && p !in after.world.backups
            && FilesOf(after.world, p) == ProfileFiles(Original(before, p), None, None)
            && Original(after, p) == Original(before, p)
            && after.world.profiles == before.world.profiles
            && forall q | q != p :: (q in after.world.backups <==> q in before.world.backups)
                                 && (q in before.world.backups ==> after.world.backups[q] == before.world.backups[q])
  {
    InitialIsInvariant(m);
    DisciplinedKeepsInvariant(m, events);
    var before := Exec(m, events);
    assert Knows(before, before.threads[i]);
  }
}
