/** Which operations may overlap in every order: an exact condition on the operations and the world they start from. */
module ProfileHazards {
  import opened Wrappers
  import opened ProfileSteps
  import opened ProfileRuns

  // ---- Every interleaving

  /** A step of some thread. Any step may fail, but settings can be read. */
  predicate Readable(m: Machine, e: Event)
    ensures Readable(m, e) ==> Enabled(m, e)
  {
    Enabled(m, e) && e.Run? && (m.threads[e.thread].pc.Start? ==> !e.failed)
  }

  predicate ReadableRun(m: Machine, events: seq<Event>)
    requires Fitting(m)
    ensures ReadableRun(m, events) ==> Possible(m, events)
    decreases |events|
  {
    events != [] ==> Readable(m, events[0]) && ReadableRun(Next(m, events[0]), events[1..])
  }

  ghost predicate EveryInterleavingIsRecoverable(m: Machine)
    requires Fitting(m)
  {
    forall events | ReadableRun(m, events) :: Recoverable(Exec(m, events))
  }

  // ---- The condition

  /** Patching a config of `config` makes the profile differ from its original. */
  predicate WritesOther(m: Machine, op: Operation, config: Option<string>)
    requires op.Apply?
  {
    op.patch(config).Some? && Contents(Some(op.auth), op.patch(config)) != Original(m, op.profile)
  }

  /** The apply writes something else than the original, over the files as they are or over the original. */
  predicate Changes(m: Machine, op: Operation) {
    && op.Apply?
    && (WritesOther(m, op, ContentsOf(m.world, op.profile).config) || WritesOther(m, op, Original(m, op.profile).config))
  }

  /** The operation will save the backup map: an apply without a backup, a restore with one. */
  predicate Saves(m: Machine, op: Operation) {
    op.Apply? <==> op.profile !in m.world.backups
  }

  predicate Restores(op: Operation, p: string) {
    op.Restore? && op.profile == p
  }

  /** `op` changes its profile, and `other` either restores that profile, or saves the backups while `op` is adding one. */
  predicate Hazard(m: Machine, op: Operation, other: Operation) {
    && Changes(m, op)
    && (|| Restores(other, op.profile)
        || (op.profile !in m.world.backups && Saves(m, other)))
  }

  predicate NoHazard(m: Machine) {
    forall i, j | 0 <= i < |m.threads| && 0 <= j < |m.threads| && i != j :: !Hazard(m, m.threads[i].op, m.threads[j].op)
  }

  // ---- A run keeps the operations and the originals

  ghost predicate SameSetup(start: Machine, m: Machine) {
    && |m.threads| == |start.threads|
    && m.originals == start.originals
    && forall i | 0 <= i < |m.threads| :: m.threads[i].op == start.threads[i].op
  }

  lemma StepKeepsSetup(start: Machine, m: Machine, i: nat, failed: bool)
    requires Fitting(m) && i < |m.threads| && !m.threads[i].pc.Done? && SameSetup(start, m)
    ensures SameSetup(start, Ran(m, i, failed))
    ensures forall p :: Original(Ran(m, i, failed), p) == Original(start, p)
  {
    hide Advance;
  }

  // ---- Only taken-over profiles change

  /** Some apply of the start changes the profile. */
  predicate Loose(start: Machine, p: string) {
    exists i | 0 <= i < |start.threads| :: start.threads[i].op.profile == p && Changes(start, start.threads[i].op)
  }

  /** A map that holds the profile's original, or need not since the files are and stay the original. */
  predicate CoveredAt(start: Machine, w: World, backups: map<string, Contents>, p: string) {
    if p in backups then backups[p] == Original(start, p)
    else !Loose(start, p) && ContentsOf(w, p) == Original(start, p)
  }

  ghost predicate Covers(start: Machine, w: World, backups: map<string, Contents>) {
    forall p :: CoveredAt(start, w, backups, p)
  }

  /** What a restore of `own` will save: everything else covered. */
  ghost predicate CoversOthers(start: Machine, w: World, backups: map<string, Contents>, own: string) {
    own !in backups && forall p | p != own :: CoveredAt(start, w, backups, p)
  }

  ghost predicate Keeps(start: Machine, w: World, t: Thread) {
    var p := t.op.profile;
    var original := Original(start, p);
    match t.pc
    case ReadAuth(loaded, _) => Covers(start, w, loaded) && p !in loaded
    case ReadConfig(loaded, _, auth) => Covers(start, w, loaded) && p !in loaded && auth == original.auth
    case SaveBackups(loaded, _) => Covers(start, w, loaded)
    case WriteAuth(config) => t.op.Apply? && (Loose(start, p) || Contents(Some(t.op.auth), Some(config)) == original)
    case WriteConfig(config) => t.op.Apply? && (Loose(start, p) || Contents(Some(t.op.auth), Some(config)) == original)
    case RestoreAuth(backup, rest) => backup == original && CoversOthers(start, w, rest, p)
    case RestoreConfig(backup, rest) =>
      backup == original && CoversOthers(start, w, rest, p) && ContentsOf(w, p).auth == original.auth
    case RemoveMarker(rest) => CoversOthers(start, w, rest, p) && ContentsOf(w, p) == original
    case RemoveLegacyMarker(rest) => CoversOthers(start, w, rest, p) && ContentsOf(w, p) == original
    case SaveRest(rest) => CoversOthers(start, w, rest, p) && ContentsOf(w, p) == original
    case _ => true
  }

  /** Changed profiles had a backup at the start, and nobody restores them. */
  ghost predicate OnlyTakenOverChange(start: Machine) {
    forall p | Loose(start, p) ::
      p in start.world.backups && forall i | 0 <= i < |start.threads| :: !Restores(start.threads[i].op, p)
  }

  /** A profile that no apply changes holds, file by file, what it held at the start or its original. */
  predicate NearAt(start: Machine, w: World, p: string) {
    var (now, first, original) := (ContentsOf(w, p), ContentsOf(start.world, p), Original(start, p));
    Loose(start, p) || (now.auth in {first.auth, original.auth} && now.config in {first.config, original.config})
  }

  ghost predicate CoveredInvariant(start: Machine, m: Machine) {
    && Fitting(m)
    && SameSetup(start, m)
    && OnlyTakenOverChange(start)
    && Covers(start, m.world, m.world.backups)
    && (forall p :: NearAt(start, m.world, p))
    && (forall i | 0 <= i < |m.threads| :: Keeps(start, m.world, m.threads[i]))
  }

  /** Unchanged profiles only ever move towards their originals. */
  ghost predicate Approaches(start: Machine, w: World, w': World) {
    forall p | !Loose(start, p) :: ApproachesAt(start, w, w', p)
  }

  predicate ApproachesAt(start: Machine, w: World, w': World, p: string) {
    var (was, now, original) := (ContentsOf(w, p), ContentsOf(w', p), Original(start, p));
    now.auth in {was.auth, original.auth} && now.config in {was.config, original.config}
  }

  lemma StepApproaches(start: Machine, m: Machine, i: nat, failed: bool)
    requires CoveredInvariant(start, m) && Readable(m, Run(i, failed))
    ensures Approaches(start, m.world, Ran(m, i, failed).world)
  {
    hide Covers, CoversOthers, Loose;
    assert Keeps(start, m.world, m.threads[i]);
  }

  lemma CoverStays(start: Machine, w: World, w': World, backups: map<string, Contents>)
    requires Approaches(start, w, w')
    ensures Covers(start, w, backups) ==> Covers(start, w', backups)
    ensures forall own | CoversOthers(start, w, backups, own) :: CoversOthers(start, w', backups, own)
  {
    hide Loose;
    forall p | CoveredAt(start, w, backups, p) ensures CoveredAt(start, w', backups, p) {
      if p !in backups { assert ApproachesAt(start, w, w', p); }
    }
  }

  lemma ThreadKeeps(start: Machine, w: World, w': World, t: Thread)
    requires Approaches(start, w, w') && Keeps(start, w, t)
    requires t.pc.RestoreConfig? || t.pc.RemoveMarker? || t.pc.RemoveLegacyMarker? || t.pc.SaveRest? ==>
               !Loose(start, t.op.profile)
    ensures Keeps(start, w', t)
  {
    hide Loose, Covers, CoversOthers;
    match t.pc
    case ReadAuth(loaded, _) => CoverStays(start, w, w', loaded);
    case ReadConfig(loaded, _, _) => CoverStays(start, w, w', loaded);
    case SaveBackups(loaded, _) => CoverStays(start, w, w', loaded);
    case RestoreAuth(_, rest) => CoverStays(start, w, w', rest);
    case RestoreConfig(_, rest) => CoverStays(start, w, w', rest); assert ApproachesAt(start, w, w', t.op.profile);
    case RemoveMarker(rest) => CoverStays(start, w, w', rest); assert ApproachesAt(start, w, w', t.op.profile);
    case RemoveLegacyMarker(rest) => CoverStays(start, w, w', rest); assert ApproachesAt(start, w, w', t.op.profile);
    case SaveRest(rest) => CoverStays(start, w, w', rest); assert ApproachesAt(start, w, w', t.op.profile);
    case _ =>
  }

  lemma RestoredIsNotLoose(start: Machine, m: Machine, i: nat)
    requires CoveredInvariant(start, m) && i < |m.threads| && m.threads[i].op.Restore?
    ensures !Loose(start, m.threads[i].op.profile)
  {
    assert Restores(start.threads[i].op, m.threads[i].op.profile);
  }

  lemma PatchOfUnchanged(start: Machine, m: Machine, i: nat)
    requires CoveredInvariant(start, m) && i < |m.threads| && m.threads[i].op.Apply?
    ensures var op := m.threads[i].op;
            var config := op.patch(ContentsOf(m.world, op.profile).config);
            config.Some? ==> Loose(start, op.profile) || Contents(Some(op.auth), config) == Original(start, op.profile)
  {
    var op := m.threads[i].op;
    assert NearAt(start, m.world, op.profile);
    if !Loose(start, op.profile) { assert !Changes(start, start.threads[i].op); }
  }

  /** Before the step's effect on the world: what the stepping thread will be able to say. */
  lemma OwnKeeps(start: Machine, m: Machine, i: nat, failed: bool)
    requires CoveredInvariant(start, m) && Readable(m, Run(i, failed))
    ensures Keeps(start, Ran(m, i, failed).world, Ran(m, i, failed).threads[i])
  {
    hide Loose, Covers, CoversOthers, NearAt, Changes;
    var t := m.threads[i];
    var (p, w') := (t.op.profile, Ran(m, i, failed).world);
    assert Keeps(start, m.world, t);
    assert Fits(t.op, t.pc);
    StepApproaches(start, m, i, failed);
    if t.op.Apply? { PatchOfUnchanged(start, m, i); } else { RestoredIsNotLoose(start, m, i); }
    match t.pc
    case Start =>
      LoadedIsCovered(start, m.world, p);
    case ReadAuth(loaded, _) => UncoveredIsOriginal(start, m.world, loaded, p);
    case ReadConfig(loaded, _, _) =>
      UncoveredIsOriginal(start, m.world, loaded, p);
      AddedIsCovered(start, m.world, loaded, p);
    case RestoreAuth(_, rest) => CoverStays(start, m.world, w', rest);
    case RestoreConfig(_, rest) => CoverStays(start, m.world, w', rest);
    case RemoveMarker(rest) => CoverStays(start, m.world, w', rest);
    case RemoveLegacyMarker(rest) => CoverStays(start, m.world, w', rest);
    case _ =>
  }

  lemma LoadedIsCovered(start: Machine, w: World, p: string)
    requires Covers(start, w, w.backups)
    ensures p in w.backups ==> w.backups[p] == Original(start, p)
    ensures CoversOthers(start, w, w.backups - {p}, p)
  {
    hide Loose;
    assert CoveredAt(start, w, w.backups, p);
    forall q | q != p ensures CoveredAt(start, w, w.backups - {p}, q) {
      assert CoveredAt(start, w, w.backups, q);
    }
  }

  lemma UncoveredIsOriginal(start: Machine, w: World, loaded: map<string, Contents>, p: string)
    requires Covers(start, w, loaded) && p !in loaded
    ensures ContentsOf(w, p) == Original(start, p) && !Loose(start, p)
  {
    assert CoveredAt(start, w, loaded, p);
  }

  lemma AddedIsCovered(start: Machine, w: World, loaded: map<string, Contents>, p: string)
    requires Covers(start, w, loaded)
    ensures Covers(start, w, loaded[p := Original(start, p)])
  {
    hide Loose;
    var added := loaded[p := Original(start, p)];
    forall q ensures CoveredAt(start, w, added, q) {
      assert CoveredAt(start, w, loaded, q);
    }
  }

  lemma SavedIsCovered(start: Machine, m: Machine, i: nat, failed: bool)
    requires CoveredInvariant(start, m) && Readable(m, Run(i, failed))
    ensures Covers(start, Ran(m, i, failed).world, Ran(m, i, failed).world.backups)
  {
    hide Loose, Covers, CoversOthers, NearAt;
    var t := m.threads[i];
    var w' := Ran(m, i, failed).world;
    assert Keeps(start, m.world, t) && Fits(t.op, t.pc);
    StepApproaches(start, m, i, failed);
    CoverStays(start, m.world, w', m.world.backups);
    if t.pc.SaveBackups? { CoverStays(start, m.world, w', t.pc.loaded); }
    if t.pc.SaveRest? {
      RestoredIsNotLoose(start, m, i);
      RestIsCovered(start, m.world, t.pc.rest, t.op.profile);
      CoverStays(start, m.world, w', t.pc.rest);
    }
  }

  lemma RestIsCovered(start: Machine, w: World, rest: map<string, Contents>, p: string)
    requires CoversOthers(start, w, rest, p) && ContentsOf(w, p) == Original(start, p) && !Loose(start, p)
    ensures Covers(start, w, rest)
  {
    hide Loose;
    forall q ensures CoveredAt(start, w, rest, q) {}
  }

  lemma StepKeepsCovered(start: Machine, m: Machine, i: nat, failed: bool)
    requires CoveredInvariant(start, m) && Readable(m, Run(i, failed))
    ensures CoveredInvariant(start, Ran(m, i, failed))
  {
    hide Advance, Covers, Keeps, Loose, OnlyTakenOverChange;
    var r := Ran(m, i, failed);
    StepKeepsSetup(start, m, i, failed);
    StepApproaches(start, m, i, failed);
    SavedIsCovered(start, m, i, failed);
    OwnKeeps(start, m, i, failed);
    forall j | 0 <= j < |r.threads| ensures Keeps(start, r.world, r.threads[j]) {
      if j != i {
        assert Keeps(start, m.world, m.threads[j]) && Fits(m.threads[j].op, m.threads[j].pc);
        if m.threads[j].op.Restore? { RestoredIsNotLoose(start, m, j); }
        ThreadKeeps(start, m.world, r.world, m.threads[j]);
      }
    }
    forall p ensures NearAt(start, r.world, p) {
      assert NearAt(start, m.world, p);
      if !Loose(start, p) { assert ApproachesAt(start, m.world, r.world, p); }
    }
  }

  lemma {:induction false} RunKeepsCovered(start: Machine, m: Machine, events: seq<Event>)
    requires CoveredInvariant(start, m) && ReadableRun(m, events)
    ensures CoveredInvariant(start, Exec(m, events))
    decreases |events|
  {
    hide CoveredInvariant, Next;
    if events != [] {
      FittingOfCovered(start, m);
      StepKeepsCovered(start, m, events[0].thread, events[0].failed);
      RunKeepsCovered(start, Next(m, events[0]), events[1..]);
    }
  }

  lemma FittingOfCovered(start: Machine, m: Machine)
    requires CoveredInvariant(start, m)
    ensures Fitting(m)
  {}

  // ---- One apply adds a backup, and nothing else saves

  /** The `x`-th operation is an apply without a backup that changes its profile; no other one saves or restores it. */
  predicate LoneSaver(start: Machine, x: nat) {
    && x < |start.threads|
    && Changes(start, start.threads[x].op)
    && start.threads[x].op.profile !in start.world.backups
    && forall j | 0 <= j < |start.threads| && j != x ::
         !Saves(start, start.threads[j].op) && !Restores(start.threads[j].op, start.threads[x].op.profile)
  }

  function WithOwn(start: Machine, x: nat): map<string, Contents>
    requires x < |start.threads|
  {
    var p := start.threads[x].op.profile;
    start.world.backups[p := Original(start, p)]
  }

  predicate SaverKnows(start: Machine, x: nat, m: Machine)
    requires x < |start.threads| && |m.threads| == |start.threads|
  {
    var (p, first) := (start.threads[x].op.profile, start.world.backups);
    match m.threads[x].pc
    case Start => m.world.backups == first
    case ReadAuth(loaded, _) => m.world.backups == loaded == first
    case ReadConfig(loaded, _, auth) => m.world.backups == loaded == first && auth == Original(start, p).auth
    case SaveBackups(loaded, _) => m.world.backups == first && loaded == WithOwn(start, x)
    case Done(_) => m.world.backups in {first, WithOwn(start, x)}
    case _ => m.world.backups == WithOwn(start, x)
  }

  predicate BystanderKnows(start: Machine, t: Thread) {
    if t.op.Apply? then t.op.profile in start.world.backups && !InWindow(t.pc)
    else t.op.profile !in start.world.backups && !Unfinished(t.pc)
  }

  ghost predicate LoneInvariant(start: Machine, x: nat, m: Machine) {
    && Fitting(m)
    && LoneSaver(start, x)
    && Safe(start)
    && SameSetup(start, m)
    && SaverKnows(start, x, m)
    && (forall j | 0 <= j < |m.threads| && j != x :: BystanderKnows(start, m.threads[j]))
    && (forall p | p !in start.world.backups && (p != start.threads[x].op.profile || m.world.backups == start.world.backups) ::
          ContentsOf(m.world, p) == Original(start, p))
  }

  lemma BackupsGrow(start: Machine, x: nat, m: Machine)
    requires LoneInvariant(start, x, m)
    ensures m.world.backups in {start.world.backups, WithOwn(start, x)}
  {}

  lemma SaverStep(start: Machine, x: nat, m: Machine, failed: bool)
    requires LoneInvariant(start, x, m) && Readable(m, Run(x, failed))
    ensures LoneInvariant(start, x, Ran(m, x, failed))
  {
    hide Changes, Saves;
    var r := Ran(m, x, failed);
    var p := start.threads[x].op.profile;
    StepKeepsSetup(start, m, x, failed);
    ChangesIsApply(start, start.threads[x].op);
    assert SafeAt(start, p);
    assert m.world.backups == start.world.backups ==> ContentsOf(m.world, p) == Original(start, p);
    assert SaverKnows(start, x, r);
  }

  lemma BystanderKnowsOne(start: Machine, x: nat, m: Machine, i: nat)
    requires LoneInvariant(start, x, m) && i < |m.threads| && i != x
    ensures BystanderKnows(start, m.threads[i])
    ensures m.threads[i].op.profile != start.threads[x].op.profile
    ensures start.world.backups.Keys <= m.world.backups.Keys
    ensures m.threads[i].op.Restore? ==> m.threads[i].op.profile !in m.world.backups
  {
    hide Changes, Saves;
    BackupsGrow(start, x, m);
    assert !Restores(start.threads[i].op, start.threads[x].op.profile);
    assert BystanderKnows(start, m.threads[i]);
  }

  /** A bystander saves nothing, and writes its own profile's files only if that has a backup. */
  lemma BystanderAdvance(start: Machine, m: Machine, i: nat, failed: bool)
    requires Fitting(m) && Readable(m, Run(i, failed)) && BystanderKnows(start, m.threads[i])
    requires start.world.backups.Keys <= m.world.backups.Keys
    requires m.threads[i].op.Restore? ==> m.threads[i].op.profile !in m.world.backups
    ensures var r := Ran(m, i, failed);
            && BystanderKnows(start, r.threads[i])
            && r.world.backups == m.world.backups
            && forall p | p !in start.world.backups :: ContentsOf(r.world, p) == ContentsOf(m.world, p)
  {
    assert Fits(m.threads[i].op, m.threads[i].pc);
  }

  lemma SameBackupsSameKnowledge(start: Machine, x: nat, m: Machine, r: Machine)
    requires x < |start.threads| && |m.threads| == |r.threads| == |start.threads|
    requires SaverKnows(start, x, m) && r.threads[x] == m.threads[x] && r.world.backups == m.world.backups
    ensures SaverKnows(start, x, r)
  {}

  lemma BystanderStep(start: Machine, x: nat, m: Machine, i: nat, failed: bool)
    requires LoneInvariant(start, x, m) && Readable(m, Run(i, failed)) && i != x
    ensures LoneInvariant(start, x, Ran(m, i, failed))
  {
    hide Changes, Saves, Safe, Advance, SaverKnows, BystanderKnows;
    var r := Ran(m, i, failed);
    StepKeepsSetup(start, m, i, failed);
    BystanderKnowsOne(start, x, m, i);
    BystanderAdvance(start, m, i, failed);
    assert SaverKnows(start, x, r) by { SameBackupsSameKnowledge(start, x, m, r); }
  }

  lemma {:induction false} RunKeepsLone(start: Machine, x: nat, m: Machine, events: seq<Event>)
    requires LoneInvariant(start, x, m) && ReadableRun(m, events)
    ensures LoneInvariant(start, x, Exec(m, events))
    decreases |events|
  {
    hide Next, SaverKnows, BystanderKnows, Safe, LoneSaver;
    if events != [] {
      var (i, failed) := (events[0].thread, events[0].failed);
      if i == x { SaverStep(start, x, m, failed); } else { BystanderStep(start, x, m, i, failed); }
      RunKeepsLone(start, x, Next(m, events[0]), events[1..]);
    }
  }

  lemma LoneIsSafe(start: Machine, x: nat, m: Machine)
    requires LoneInvariant(start, x, m)
    ensures Safe(m)
  {
    BackupsGrow(start, x, m);
    forall p ensures SafeAt(m, p) {
      assert SafeAt(start, p);
    }
  }

  lemma CoveredIsSafe(start: Machine, m: Machine)
    requires CoveredInvariant(start, m)
    ensures Safe(m)
  {
    hide Loose;
    forall p ensures SafeAt(m, p) {
      assert CoveredAt(start, m.world, m.world.backups, p);
    }
  }

  lemma ChangesIsApply(m: Machine, op: Operation)
    requires Changes(m, op)
    ensures op.Apply?
  {}

  lemma StartIsCovered(start: Machine)
    requires Fitting(start) && Initial(start) && NoHazard(start)
    requires forall i | 0 <= i < |start.threads| && Changes(start, start.threads[i].op) ::
               start.threads[i].op.profile in start.world.backups
    ensures CoveredInvariant(start, start)
  {
    hide Changes;
    forall p ensures CoveredAt(start, start.world, start.world.backups, p) {
      assert SafeAt(start, p);
    }
    forall p, i | Loose(start, p) && 0 <= i < |start.threads| ensures !Restores(start.threads[i].op, p) {
      var j :| 0 <= j < |start.threads| && start.threads[j].op.profile == p && Changes(start, start.threads[j].op);
      assert i != j ==> !Hazard(start, start.threads[j].op, start.threads[i].op);
      ChangesIsApply(start, start.threads[j].op);
    }
  }

  lemma StartIsLone(start: Machine, x: nat)
    requires Fitting(start) && Initial(start) && NoHazard(start)
    requires x < |start.threads| && Changes(start, start.threads[x].op)
    requires start.threads[x].op.profile !in start.world.backups
    ensures LoneInvariant(start, x, start)
  {
    hide Changes;
    forall j | 0 <= j < |start.threads| && j != x
      ensures !Saves(start, start.threads[j].op) && !Restores(start.threads[j].op, start.threads[x].op.profile)
    {
      assert !Hazard(start, start.threads[x].op, start.threads[j].op);
    }
    ChangesIsApply(start, start.threads[x].op);
    forall p | p !in start.world.backups ensures ContentsOf(start.world, p) == Original(start, p) {
      assert SafeAt(start, p);
    }
  }

  lemma NoHazardIsRecoverable(start: Machine, events: seq<Event>)
    requires Fitting(start) && Initial(start) && NoHazard(start) && ReadableRun(start, events)
    ensures Recoverable(Exec(start, events))
  {
    hide Changes, Exec, CoveredInvariant, LoneInvariant, Initial, NoHazard, Recoverable, Safe;
    var end := Exec(start, events);
    if x :| 0 <= x < |start.threads| && Changes(start, start.threads[x].op)
            && start.threads[x].op.profile !in start.world.backups {
      StartIsLone(start, x);
      RunKeepsLone(start, x, start, events);
      LoneIsSafe(start, x, end);
    } else {
      StartIsCovered(start);
      RunKeepsCovered(start, start, events);
      CoveredIsSafe(start, end);
    }
    SafeIsRecoverable(end);
  }

  // ---- Losing runs

  ghost predicate Reaches(m: Machine, r: Machine)
    requires Fitting(m)
  {
    exists events :: ReadableRun(m, events) && Exec(m, events) == r
  }

  lemma ReachesItself(m: Machine)
    requires Fitting(m)
    ensures Reaches(m, m)
  {
    assert ReadableRun(m, []) && Exec(m, []) == m;
  }

  lemma {:induction false} RunsAppend(m: Machine, a: seq<Event>, b: seq<Event>)
    requires Fitting(m) && ReadableRun(m, a) && ReadableRun(Exec(m, a), b)
    ensures ReadableRun(m, a + b) && Exec(m, a + b) == Exec(Exec(m, a), b)
    decreases |a|
  {
    hide Next, Readable;
    if a == [] {
      assert a + b == b;
    } else {
      RunsAppend(Next(m, a[0]), a[1..], b);
      assert (a + b)[1..] == a[1..] + b && (a + b)[0] == a[0];
    }
  }

  lemma OneEvent(m: Machine, e: Event)
    requires Fitting(m) && Readable(m, e)
    ensures ReadableRun(m, [e]) && Exec(m, [e]) == Next(m, e)
  {
    hide Next, Readable;
    var r := Next(m, e);
    assert ReadableRun(r, []) && Exec(r, []) == r;
    assert [e][0] == e && [e][1..] == [];
  }

  lemma ReachesFurther(m: Machine, r: Machine, i: nat)
    requires Fitting(m) && Fitting(r) && Reaches(m, r) && i < |r.threads| && !r.threads[i].pc.Done?
    ensures Reaches(m, Ran(r, i, false))
  {
    var events :| ReadableRun(m, events) && Exec(m, events) == r;
    OneEvent(r, Run(i, false));
    RunsAppend(m, events, [Run(i, false)]);
  }

  function At(m: Machine, i: nat, w: World, pc: Pc): Machine
    requires i < |m.threads|
  {
    m.(world := w, threads := m.threads[i := m.threads[i].(pc := pc)])
  }

  /** The next step of one thread, which leads where `Advance` says. */
  lemma One(start: Machine, m: Machine, i: nat) returns (r: Machine)
    requires Fitting(start) && Fitting(m) && Reaches(start, m) && i < |m.threads| && !m.threads[i].pc.Done?
    ensures Fitting(r) && Reaches(start, r)
    ensures var (w, pc) := Advance(m.world, m.threads[i].op, m.threads[i].pc, false); r == At(m, i, w, pc)
  {
    hide Advance;
    ReachesFurther(start, m, i);
    r := Ran(m, i, false);
  }

  /** An apply without a backup takes one. */
  lemma BacksUp(start: Machine, m: Machine, i: nat) returns (r: Machine)
    requires Fitting(start) && Fitting(m) && Reaches(start, m) && i < |m.threads|
    requires m.threads[i].op.Apply? && m.threads[i].pc.Start? && m.threads[i].op.profile !in m.world.backups
    ensures Fitting(r) && Reaches(start, r)
    ensures var p := m.threads[i].op.profile;
            r == At(m, i, m.world.(backups := m.world.backups[p := ContentsOf(m.world, p)]), Patch)
  {
    hide Reaches;
    r := One(start, m, i);
    r := SavesLoaded(start, r, i, m.world.backups);
    assert r.threads == m.threads[i := m.threads[i].(pc := Patch)];
  }

  lemma SavesLoaded(start: Machine, m: Machine, i: nat, loaded: map<string, Contents>) returns (r: Machine)
    requires Fitting(start) && Fitting(m) && Reaches(start, m) && i < |m.threads|
    requires m.threads[i].op.Apply? && m.threads[i].pc == ReadAuth(loaded, false)
    ensures Fitting(r) && Reaches(start, r)
    ensures var p := m.threads[i].op.profile;
            r == At(m, i, m.world.(backups := loaded[p := ContentsOf(m.world, p)]), Patch)
  {
    hide Reaches;
    r := One(start, m, i);
    r := One(start, r, i);
    r := One(start, r, i);
    assert r.threads == m.threads[i := m.threads[i].(pc := Patch)];
  }

  /** An apply writes both files. */
  lemma WritesBoth(start: Machine, m: Machine, i: nat, config: string) returns (r: Machine)
    requires Fitting(start) && Fitting(m) && Reaches(start, m) && i < |m.threads|
    requires m.threads[i].op.Apply? && m.threads[i].pc == WriteAuth(config)
    ensures Fitting(r) && Reaches(start, r)
    ensures r.originals == m.originals && r.world.backups == m.world.backups
    ensures r.threads == m.threads[i := m.threads[i].(pc := WriteMarker)]
    ensures ContentsOf(r.world, m.threads[i].op.profile) == Contents(Some(m.threads[i].op.auth), Some(config))
    ensures forall q | q != m.threads[i].op.profile :: ContentsOf(r.world, q) == ContentsOf(m.world, q)
  {
    hide Reaches;
    r := One(start, m, i);
    r := One(start, r, i);
    assert r.threads == m.threads[i := m.threads[i].(pc := WriteMarker)];
  }

  /** A restore that has loaded its backup brings it back and saves what it loaded without it. */
  lemma PutsBack(start: Machine, m: Machine, j: nat, backup: Contents, rest: map<string, Contents>) returns (r: Machine)
    requires Fitting(start) && Fitting(m) && Reaches(start, m) && j < |m.threads|
    requires m.threads[j].op.Restore? && m.threads[j].pc == RestoreAuth(backup, rest)
    ensures Fitting(r) && Reaches(start, r)
    ensures r.originals == m.originals && r.world.backups == rest
    ensures r.threads == m.threads[j := m.threads[j].(pc := ReadState)]
    ensures ContentsOf(r.world, m.threads[j].op.profile) == backup
    ensures forall q | q != m.threads[j].op.profile :: ContentsOf(r.world, q) == ContentsOf(m.world, q)
  {
    hide Reaches;
    r := PutsFilesBack(start, m, j, backup, rest);
    r := One(start, r, j);
    r := One(start, r, j);
    r := One(start, r, j);
    assert r.threads == m.threads[j := m.threads[j].(pc := ReadState)];
  }

  lemma PutsFilesBack(start: Machine, m: Machine, j: nat, backup: Contents, rest: map<string, Contents>) returns (r: Machine)
    requires Fitting(start) && Fitting(m) && Reaches(start, m) && j < |m.threads|
    requires m.threads[j].op.Restore? && m.threads[j].pc == RestoreAuth(backup, rest)
    ensures Fitting(r) && Reaches(start, r)
    ensures r.originals == m.originals && r.world.backups == m.world.backups
    ensures r.threads == m.threads[j := m.threads[j].(pc := RemoveMarker(rest))]
    ensures ContentsOf(r.world, m.threads[j].op.profile) == backup
    ensures forall q | q != m.threads[j].op.profile :: ContentsOf(r.world, q) == ContentsOf(m.world, q)
  {
    hide Reaches;
    r := One(start, m, j);
    r := One(start, r, j);
    assert r.threads == m.threads[j := m.threads[j].(pc := RemoveMarker(rest))];
  }

  /** An apply is about to write both files when a restore of its profile runs from beginning to end: the restored
      files are then overwritten, and the backup is gone. */
  lemma RestoreInsideApplyLoses(start: Machine, i: nat, j: nat) returns (r: Machine)
    requires Fitting(start) && Initial(start) && i < |start.threads| && j < |start.threads| && i != j
    requires Changes(start, start.threads[i].op) && Restores(start.threads[j].op, start.threads[i].op.profile)
    ensures Fitting(r) && Reaches(start, r) && !RecoverableAt(r, start.threads[i].op.profile)
  {
    hide Reaches;
    var op := start.threads[i].op;
    var p := op.profile;
    ReachesItself(start);
    assert SafeAt(start, p);
    if p in start.world.backups {
      r := One(start, start, i);
    } else {
      r := BacksUp(start, start, i);
    }
    assert r.world.backups[p] == Original(start, p) && r.threads[i] == Thread(op, Patch);
    var early := WritesOther(start, op, ContentsOf(start.world, p).config);
    if early {
      r := One(start, r, i);
    }
    r := One(start, r, j);
    r := PutsBack(start, r, j, Original(start, p), r.world.backups - {p});
    if !early {
      r := One(start, r, i);
    }
    r := WritesBoth(start, r, i, r.threads[i].pc.config);
  }

  /** An operation that saves has loaded the backups when an apply takes its profile over from beginning to end: the
      save then drops the new backup, or replaces it by the changed files. */
  lemma ApplyInsideWindowLoses(start: Machine, i: nat, j: nat) returns (r: Machine)
    requires Fitting(start) && Initial(start) && i < |start.threads| && j < |start.threads| && i != j
    requires Changes(start, start.threads[i].op) && start.threads[i].op.profile !in start.world.backups
    requires Saves(start, start.threads[j].op) && !Restores(start.threads[j].op, start.threads[i].op.profile)
    ensures Fitting(r) && Reaches(start, r) && !RecoverableAt(r, start.threads[i].op.profile)
  {
    hide Reaches;
    var op := start.threads[i].op;
    var p := op.profile;
    ReachesItself(start);
    assert SafeAt(start, p);
    r := One(start, start, j);
    r := BacksUp(start, r, i);
    r := One(start, r, i);
    r := WritesBoth(start, r, i, r.threads[i].pc.config);
    if start.threads[j].op.Apply? {
      r := SavesLoaded(start, r, j, start.world.backups);
    } else {
      var q := start.threads[j].op.profile;
      r := PutsBack(start, r, j, start.world.backups[q], start.world.backups - {q});
    }
  }

  lemma LosingRunEndsRecoverability(start: Machine, r: Machine, p: string)
    requires Fitting(start) && Reaches(start, r) && !RecoverableAt(r, p)
    ensures !EveryInterleavingIsRecoverable(start)
  {
    var events :| ReadableRun(start, events) && Exec(start, events) == r;
    assert !Recoverable(Exec(start, events));
  }

  lemma HazardLoses(start: Machine, i: nat, j: nat)
    requires Fitting(start) && Initial(start) && i < |start.threads| && j < |start.threads| && i != j
    requires Hazard(start, start.threads[i].op, start.threads[j].op)
    ensures !EveryInterleavingIsRecoverable(start)
  {
    hide Reaches, EveryInterleavingIsRecoverable, Changes, Saves, Initial;
    var r;
    if Restores(start.threads[j].op, start.threads[i].op.profile) {
      r := RestoreInsideApplyLoses(start, i, j);
    } else {
      r := ApplyInsideWindowLoses(start, i, j);
    }
    LosingRunEndsRecoverability(start, r, start.threads[i].op.profile);
  }

  /** Operations may overlap in every order, with single reads and writes failing anywhere, if and only if no two of
      them are a hazard to each other. */
  lemma EveryInterleavingIsRecoverableExactlyWithoutHazard(start: Machine)
    requires Fitting(start) && Initial(start)
    ensures EveryInterleavingIsRecoverable(start) <==> NoHazard(start)
  {
    hide Hazard, Initial, Recoverable;
    if NoHazard(start) {
      forall events | ReadableRun(start, events) ensures Recoverable(Exec(start, events)) {
        NoHazardIsRecoverable(start, events);
      }
    } else {
      var i, j :| 0 <= i < |start.threads| && 0 <= j < |start.threads| && i != j
                  && Hazard(start, start.threads[i].op, start.threads[j].op);
      HazardLoses(start, i, j);
    }
  }
}
