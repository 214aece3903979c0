/** Taking over Codex profiles and giving them back, one read or write at a time. */
module ProfileSteps {
  import opened Wrappers

  /** What takeover overwrites and restore must bring back: `auth.json` and `config.toml`, absence included. */
  datatype Contents = Contents(auth: Option<string>, config: Option<string>)

  datatype ProfileFiles = ProfileFiles(contents: Contents, marker: Option<string>, legacyMarker: Option<string>)

  datatype ManagedState = ManagedState(profileDir: string, marker: string)

  /** Everything the protocol reads and writes. A profile outside the map has no files. */
  datatype World = World(
    profiles: map<string, ProfileFiles>, backups: map<string, Contents>, state: Option<ManagedState>, codexHome: Option<string>)

  const NO_FILES := ProfileFiles(Contents(None, None), None, None)

  function FilesIn(profiles: map<string, ProfileFiles>, p: string): ProfileFiles {
    if p in profiles then profiles[p] else NO_FILES
  }

  function FilesOf(w: World, p: string): ProfileFiles {
    FilesIn(w.profiles, p)
  }

  function ContentsOf(w: World, p: string): Contents {
    FilesOf(w, p).contents
  }

  function WithFiles(w: World, p: string, files: ProfileFiles): World {
    w.(profiles := w.profiles[p := files])
  }

  /** `apply_direct_account` and `apply_gateway` differ in the texts they write. */
  datatype Operation =
    | Apply(profile: string, auth: string, patch: Option<string> -> Option<string>, marker: string)
    | Restore(profile: string)

  /** Where an operation stands: what it does next, and what it has read for it. */
  datatype Pc =
    | Start
    // Apply: the backup, unless there is one already.
    | ReadAuth(loaded: map<string, Contents>, blind: bool)
    | ReadConfig(loaded: map<string, Contents>, blind: bool, auth: Option<string>)
    | SaveBackups(loaded: map<string, Contents>, blind: bool)
    // Apply: the takeover.
    | Patch
    | WriteAuth(config: string)
    | WriteConfig(config: string)
    | WriteMarker
    | RemoveLegacy
    | SaveState
    | SaveHome
    // Restore.
    | RestoreAuth(backup: Contents, rest: map<string, Contents>)
    | RestoreConfig(backup: Contents, rest: map<string, Contents>)
    | RemoveMarker(rest: map<string, Contents>)
    | RemoveLegacyMarker(rest: map<string, Contents>)
    | SaveRest(rest: map<string, Contents>)
    | ReadState
    | ClearState
    | Done(completed: bool)

  predicate IsApplyPc(pc: Pc) {
    pc.ReadAuth? || pc.ReadConfig? || pc.SaveBackups? || pc.Patch? || pc.WriteAuth? || pc.WriteConfig?
    || pc.WriteMarker? || pc.RemoveLegacy? || pc.SaveState? || pc.SaveHome?
  }

  predicate IsRestorePc(pc: Pc) {
    pc.RestoreAuth? || pc.RestoreConfig? || pc.RemoveMarker? || pc.RemoveLegacyMarker? || pc.SaveRest?
    || pc.ReadState? || pc.ClearState?
  }

  predicate Fits(op: Operation, pc: Pc) {
    pc.Start? || pc.Done? || (if op.Apply? then IsApplyPc(pc) else IsRestorePc(pc))
  }

  /** Steps left at most. */
  function Rank(pc: Pc): nat {
    match pc
    case Start => 11
    case ReadAuth(_, _) => 10
    case ReadConfig(_, _, _) => 9
    case SaveBackups(_, _) => 8
    case Patch => 7
    case WriteAuth(_) => 6
    case WriteConfig(_) => 5
    case WriteMarker => 4
    case RemoveLegacy => 3
    case SaveState => 2
    case SaveHome => 1
    case RestoreAuth(_, _) => 7
    case RestoreConfig(_, _) => 6
    case RemoveMarker(_) => 5
    case RemoveLegacyMarker(_) => 4
    case SaveRest(_) => 3
    case ReadState => 2
    case ClearState => 1
    case Done(_) => 0
  }

  /** Settings that cannot be read pass for an empty backup map. */
  function Load(w: World, op: Operation, failed: bool): (pc: Pc)
    ensures Fits(op, pc) && Rank(pc) < Rank(Start)
  {
    var loaded := if failed then map[] else w.backups;
    if op.Apply? then if op.profile in loaded then Patch else ReadAuth(loaded, failed)
    else if op.profile in loaded then RestoreAuth(loaded[op.profile], loaded - {op.profile})
    else Done(false)
  }

  /** A leftover marker of the old kind does not matter; any other failure ends the operation where it stands. */
  function AdvanceApply(w: World, op: Operation, pc: Pc, failed: bool): (r: (World, Pc))
    requires op.Apply? && IsApplyPc(pc)
    ensures Fits(op, r.1) && Rank(r.1) < Rank(pc)
  {
    var p := op.profile;
    var files := FilesOf(w, p);
    if pc.RemoveLegacy? then (if failed then w else WithFiles(w, p, files.(legacyMarker := None)), SaveState)
    else if failed then (w, Done(false))
    else if pc.ReadAuth? then (w, ReadConfig(pc.loaded, pc.blind, files.contents.auth))
    else if pc.ReadConfig? then (w, SaveBackups(pc.loaded[p := Contents(pc.auth, files.contents.config)], pc.blind))
    else if pc.SaveBackups? then (w.(backups := pc.loaded), Patch)
    else if pc.Patch? then
      var config := op.patch(files.contents.config);
      (w, if config.Some? then WriteAuth(config.value) else Done(false))
    else if pc.WriteAuth? then
      (WithFiles(w, p, files.(contents := files.contents.(auth := Some(op.auth)))), WriteConfig(pc.config))
    else if pc.WriteConfig? then
      (WithFiles(w, p, files.(contents := files.contents.(config := Some(pc.config)))), WriteMarker)
    else if pc.WriteMarker? then (WithFiles(w, p, files.(marker := Some(op.marker))), RemoveLegacy)
    else if pc.SaveState? then (w.(state := Some(ManagedState(p, op.marker))), SaveHome)
    else (w.(codexHome := Some(p)), Done(true))
  }

  /** A state that cannot be read is left alone. */
  function AdvanceRestore(w: World, op: Operation, pc: Pc, failed: bool): (r: (World, Pc))
    requires op.Restore? && IsRestorePc(pc)
    ensures Fits(op, r.1) && Rank(r.1) < Rank(pc)
  {
    var p := op.profile;
    var files := FilesOf(w, p);
    if pc.ReadState? then
      (w, if !failed && w.state.Some? && w.state.value.profileDir == p then ClearState else Done(true))
    else if failed then (w, Done(false))
    else if pc.RestoreAuth? then
      (WithFiles(w, p, files.(contents := files.contents.(auth := pc.backup.auth))), RestoreConfig(pc.backup, pc.rest))
    else if pc.RestoreConfig? then
      (WithFiles(w, p, files.(contents := files.contents.(config := pc.backup.config))), RemoveMarker(pc.rest))
    else if pc.RemoveMarker? then (WithFiles(w, p, files.(marker := None)), RemoveLegacyMarker(pc.rest))
    else if pc.RemoveLegacyMarker? then (WithFiles(w, p, files.(legacyMarker := None)), SaveRest(pc.rest))
    else if pc.SaveRest? then (w.(backups := pc.rest), ReadState)
    else (w.(state := None), Done(true))
  }

  /** One step of an operation. */
  function Advance(w: World, op: Operation, pc: Pc, failed: bool): (r: (World, Pc))
    requires Fits(op, pc) && !pc.Done?
    ensures Fits(op, r.1) && Rank(r.1) < Rank(pc)
  {
    if pc.Start? then (w, Load(w, op, failed))
    else if op.Apply? then AdvanceApply(w, op, pc, failed)
    else AdvanceRestore(w, op, pc, failed)
  }

  /** The points at which an operation can fail. */
  datatype Step =
    | LoadBackupsStep | ReadAuthStep | ReadConfigStep | SaveBackupsStep | BuildAuthStep | RereadConfigStep | CreateDirStep
    | WriteAuthStep | WriteConfigStep | WriteMarkerStep | RemoveMarkerStep | RemoveLegacyMarkerStep
    | SaveStateStep | ReadStateStep | ClearStateStep | SaveHomeStep

  /** A step fails with the file or setting it touches; the directory is made right before the first write. */
  predicate Fails(faults: Step -> bool, pc: Pc) {
    match pc
    case Start => faults(LoadBackupsStep)
    case ReadAuth(_, _) => faults(ReadAuthStep)
    case ReadConfig(_, _, _) => faults(ReadConfigStep)
    case SaveBackups(_, _) => faults(SaveBackupsStep)
    case Patch => faults(BuildAuthStep) || faults(RereadConfigStep)
    case WriteAuth(_) => faults(CreateDirStep) || faults(WriteAuthStep)
    case WriteConfig(_) => faults(WriteConfigStep)
    case WriteMarker => faults(WriteMarkerStep)
    case RemoveLegacy => faults(RemoveLegacyMarkerStep)
    case SaveState => faults(SaveStateStep)
    case SaveHome => faults(SaveHomeStep)
    case RestoreAuth(_, _) => faults(CreateDirStep) || faults(WriteAuthStep)
    case RestoreConfig(_, _) => faults(WriteConfigStep)
    case RemoveMarker(_) => faults(RemoveMarkerStep)
    case RemoveLegacyMarker(_) => faults(RemoveLegacyMarkerStep)
    case SaveRest(_) => faults(SaveBackupsStep)
    case ReadState => faults(ReadStateStep)
    case ClearState => faults(ClearStateStep)
    case Done(_) => false
  }

  /** An operation run to its end with nothing in between, and whether it completed. */
  function Alone(w: World, op: Operation, pc: Pc, faults: Step -> bool): (World, bool)
    requires Fits(op, pc)
    decreases Rank(pc)
  {
    if pc.Done? then (w, pc.completed)
    else
      var (w', pc') := Advance(w, op, pc, Fails(faults, pc));
      Alone(w', op, pc', faults)
  }
}
