/** The takeover and restore operations as the service runs them, one at a time. */
module ProfileTakeover {
  import opened Wrappers
  import opened ProfileSteps

  /** Nothing but `p` is touched. */
  ghost predicate OthersKept(s: World, s': World, p: string) {
    forall q | q != p ::
      && FilesOf(s', q) == FilesOf(s, q)
      && (q in s'.backups <==> q in s.backups)
      && (q in s.backups ==> s'.backups[q] == s.backups[q])
  }

  /** An apply keeps an existing backup; without one it takes it before the first write, or writes nothing. */
  ghost predicate ApplyStep(s: World, s': World, p: string) {
    && OthersKept(s, s', p)
    && (p in s.backups ==> p in s'.backups && s'.backups[p] == s.backups[p])
    && (p !in s.backups && p in s'.backups ==> s'.backups[p] == ContentsOf(s, p))
    && (p !in s.backups && p !in s'.backups ==> ContentsOf(s', p) == ContentsOf(s, p))
  }

  /** A restore gives the backup up only after both files are back, and does nothing without one. */
  ghost predicate RestoreStep(s: World, s': World, p: string, completed: bool) {
    && OthersKept(s, s', p)
    && (p in s'.backups ==> p in s.backups && s'.backups[p] == s.backups[p])
    && (p in s.backups && p !in s'.backups ==> ContentsOf(s', p) == s.backups[p])
    && (p !in s.backups ==> ContentsOf(s', p) == ContentsOf(s, p))
    && (completed ==> p in s.backups && p !in s'.backups && FilesOf(s', p) == ProfileFiles(s.backups[p], None, None))
  }

  predicate NoFault(faults: Step -> bool, steps: set<Step>) {
    forall step | step in steps :: !faults(step)
  }

  // ---- An operation alone, step by step

  lemma AtStart(w: World, op: Operation, faults: Step -> bool)
    ensures Alone(w, op, Start, faults) ==
            Alone(w, op, Load(w, op, faults(LoadBackupsStep)), faults)
    ensures Alone(w, op, Done(false), faults) == (w, false)
  {}

  lemma AtReadAuth(w: World, op: Operation, loaded: map<string, Contents>, blind: bool, faults: Step -> bool)
    requires op.Apply?
    ensures var files := FilesOf(w, op.profile);
            Alone(w, op, ReadAuth(loaded, blind), faults) ==
            if faults(ReadAuthStep) then (w, false)
            else Alone(w, op, ReadConfig(loaded, blind, files.contents.auth), faults)
  {}

  lemma AtReadConfig(
      w: World, op: Operation, loaded: map<string, Contents>, blind: bool, auth: Option<string>, faults: Step -> bool)
    requires op.Apply?
    ensures var files := FilesOf(w, op.profile);
            Alone(w, op, ReadConfig(loaded, blind, auth), faults) ==
            if faults(ReadConfigStep) then (w, false)
            else Alone(w, op, SaveBackups(loaded[op.profile := Contents(auth, files.contents.config)], blind), faults)
  {}

  lemma AtSaveBackups(w: World, op: Operation, loaded: map<string, Contents>, blind: bool, faults: Step -> bool)
    requires op.Apply?
    ensures Alone(w, op, SaveBackups(loaded, blind), faults) ==
            if faults(SaveBackupsStep) then (w, false)
            else Alone(w.(backups := loaded), op, Patch, faults)
  {}

  lemma AtPatch(w: World, op: Operation, faults: Step -> bool)
    requires op.Apply?
    ensures var files := FilesOf(w, op.profile);
            Alone(w, op, Patch, faults) ==
            if faults(BuildAuthStep) || faults(RereadConfigStep) || op.patch(files.contents.config).None? then (w, false)
            else Alone(w, op, WriteAuth(op.patch(files.contents.config).value), faults)
  {}

  lemma AtWriteAuth(w: World, op: Operation, config: string, faults: Step -> bool)
    requires op.Apply?
    ensures var files := FilesOf(w, op.profile);
            Alone(w, op, WriteAuth(config), faults) ==
            if faults(CreateDirStep) || faults(WriteAuthStep) then (w, false)
            else Alone(WithFiles(w, op.profile, files.(contents := files.contents.(auth := Some(op.auth)))),
                       op, WriteConfig(config), faults)
  {}

  lemma AtWriteConfig(w: World, op: Operation, config: string, faults: Step -> bool)
    requires op.Apply?
    ensures var files := FilesOf(w, op.profile);
            Alone(w, op, WriteConfig(config), faults) ==
            if faults(WriteConfigStep) then (w, false)
            else Alone(WithFiles(w, op.profile, files.(contents := files.contents.(config := Some(config)))),
                       op, WriteMarker, faults)
  {}

  lemma AtWriteMarker(w: World, op: Operation, faults: Step -> bool)
    requires op.Apply?
    ensures var files := FilesOf(w, op.profile);
            Alone(w, op, WriteMarker, faults) ==
            if faults(WriteMarkerStep) then (w, false)
            else Alone(WithFiles(w, op.profile, files.(marker := Some(op.marker))), op, RemoveLegacy, faults)
  {}

  lemma AtRemoveLegacy(w: World, op: Operation, faults: Step -> bool)
    requires op.Apply?
    ensures var files := FilesOf(w, op.profile);
            Alone(w, op, RemoveLegacy, faults) ==
            Alone(if faults(RemoveLegacyMarkerStep) then w else WithFiles(w, op.profile, files.(legacyMarker := None)),
                  op, SaveState, faults)
  {}

  lemma AtSaveState(w: World, op: Operation, faults: Step -> bool)
    requires op.Apply?
    ensures Alone(w, op, SaveState, faults) ==
            if faults(SaveStateStep) then (w, false)
            else Alone(w.(state := Some(ManagedState(op.profile, op.marker))), op, SaveHome, faults)
  {}

  lemma AtSaveHome(w: World, op: Operation, faults: Step -> bool)
    requires op.Apply?
    ensures Alone(w, op, SaveHome, faults) ==
            if faults(SaveHomeStep) then (w, false)
            else (w.(codexHome := Some(op.profile)), true)
  {}

  lemma AtRestoreAuth(w: World, op: Operation, backup: Contents, rest: map<string, Contents>, faults: Step -> bool)
    requires op.Restore?
    ensures var files := FilesOf(w, op.profile);
            Alone(w, op, RestoreAuth(backup, rest), faults) ==
            if faults(CreateDirStep) || faults(WriteAuthStep) then (w, false)
            else Alone(WithFiles(w, op.profile, files.(contents := files.contents.(auth := backup.auth))),
                       op, RestoreConfig(backup, rest), faults)
  {}

  lemma AtRestoreConfig(w: World, op: Operation, backup: Contents, rest: map<string, Contents>, faults: Step -> bool)
    requires op.Restore?
    ensures var files := FilesOf(w, op.profile);
            Alone(w, op, RestoreConfig(backup, rest), faults) ==
            if faults(WriteConfigStep) then (w, false)
            else Alone(WithFiles(w, op.profile, files.(contents := files.contents.(config := backup.config))),
                       op, RemoveMarker(rest), faults)
  {}

  lemma AtRemoveMarker(w: World, op: Operation, rest: map<string, Contents>, faults: Step -> bool)
    requires op.Restore?
    ensures var files := FilesOf(w, op.profile);
            Alone(w, op, RemoveMarker(rest), faults) ==
            if faults(RemoveMarkerStep) then (w, false)
            else Alone(WithFiles(w, op.profile, files.(marker := None)), op, RemoveLegacyMarker(rest), faults)
  {}

  lemma AtRemoveLegacyMarker(w: World, op: Operation, rest: map<string, Contents>, faults: Step -> bool)
    requires op.Restore?
    ensures var files := FilesOf(w, op.profile);
            Alone(w, op, RemoveLegacyMarker(rest), faults) ==
            if faults(RemoveLegacyMarkerStep) then (w, false)
            else Alone(WithFiles(w, op.profile, files.(legacyMarker := None)), op, SaveRest(rest), faults)
  {}

  lemma AtSaveRest(w: World, op: Operation, rest: map<string, Contents>, faults: Step -> bool)
    requires op.Restore?
    ensures Alone(w, op, SaveRest(rest), faults) ==
            if faults(SaveBackupsStep) then (w, false)
            else Alone(w.(backups := rest), op, ReadState, faults)
  {}

  lemma AtReadState(w: World, op: Operation, faults: Step -> bool)
    requires op.Restore?
    ensures Alone(w, op, ReadState, faults) ==
            if !faults(ReadStateStep) && w.state.Some? && w.state.value.profileDir == op.profile
            then (if faults(ClearStateStep) then (w, false) else (w.(state := None), true))
            else (w, true)
  {}

  // ---- The operations, write by write

  class Host {
    var profiles: map<string, ProfileFiles>
    var backups: map<string, Contents>
    var state: Option<ManagedState>
    var codexHome: Option<string>

    constructor ()
      ensures Snapshot() == World(map[], map[], None, None)
    {
      profiles, backups, state, codexHome := map[], map[], None, None;
    }

    function Snapshot(): World
      reads this
    {
      World(profiles, backups, state, codexHome)
    }

    method Write(p: string, files: ProfileFiles, failed: bool) returns (ok: bool)
      modifies this`profiles
      ensures ok == !failed
      ensures profiles == if ok then old(profiles)[p := files] else old(profiles)
    {
      ok := !failed;
      if ok {
        profiles := profiles[p := files];
      }
    }

    /** `load_backups`: unreadable settings read as an empty map. */
    method ReadBackups(failed: bool) returns (loaded: map<string, Contents>)
      ensures loaded == if failed then map[] else backups
    {
      loaded := if failed then map[] else backups;
    }

    /** Without a backup of the profile in what was loaded, the files are read and what was loaded is saved with them.
        Settings that could not be read count as holding no backup, so the save then replaces the whole map. */
    method EnsureBackup(p: string, ghost op: Operation, faults: Step -> bool) returns (ok: bool)
      requires op.Apply? && op.profile == p
      modifies this`backups
      ensures ok <==> || (!faults(LoadBackupsStep) && p in old(backups))
                      || NoFault(faults, {ReadAuthStep, ReadConfigStep, SaveBackupsStep})
      ensures !ok || (!faults(LoadBackupsStep) && p in old(backups)) ==> backups == old(backups)
      ensures ok && !faults(LoadBackupsStep) && p !in old(backups) ==>
                backups == old(backups)[p := ContentsOf(old(Snapshot()), p)]
      ensures ok && faults(LoadBackupsStep) ==> backups == map[p := ContentsOf(old(Snapshot()), p)]
      ensures Alone(old(Snapshot()), op, Start, faults) ==
              if ok then Alone(Snapshot(), op, Patch, faults) else (Snapshot(), false)
    {
      hide Alone, Advance, AdvanceApply, AdvanceRestore;
      ghost var before := Snapshot();
      AtStart(before, op, faults);
      var loaded := ReadBackups(faults(LoadBackupsStep));
      if p in loaded {
        return true;
      }
      AtReadAuth(before, op, loaded, faults(LoadBackupsStep), faults);
      AtReadConfig(before, op, loaded, faults(LoadBackupsStep), ContentsOf(before, p).auth, faults);
      if faults(ReadAuthStep) || faults(ReadConfigStep) {
        return false;
      }
      loaded := loaded[p := ContentsOf(Snapshot(), p)];
      AtSaveBackups(before, op, loaded, faults(LoadBackupsStep), faults);
      ok := !faults(SaveBackupsStep);
      if ok {
        backups := loaded;
      }
    }

    /** Four writes in order, stopping at the first that fails; what was written before it stays. */
    method WriteProfileFiles(
      p: string, auth: string, config: string, marker: string, ghost op: Operation, faults: Step -> bool)
      returns (ok: bool)
      requires op.Apply? && op.profile == p && op.auth == auth && op.marker == marker
      modifies this`profiles, this`state
      ensures forall q | q != p :: FilesIn(profiles, q) == FilesIn(old(profiles), q)
      ensures ok <==> NoFault(faults, {CreateDirStep, WriteAuthStep, WriteConfigStep, WriteMarkerStep, SaveStateStep})
      ensures faults(CreateDirStep) || faults(WriteAuthStep) ==> FilesIn(profiles, p) == FilesIn(old(profiles), p)
      ensures NoFault(faults, {CreateDirStep, WriteAuthStep}) && faults(WriteConfigStep) ==>
                var files := FilesIn(old(profiles), p);
                FilesIn(profiles, p) == files.(contents := Contents(Some(auth), files.contents.config))
      ensures NoFault(faults, {CreateDirStep, WriteAuthStep, WriteConfigStep}) && faults(WriteMarkerStep) ==>
                FilesIn(profiles, p) == FilesIn(old(profiles), p).(contents := Contents(Some(auth), Some(config)))
      ensures NoFault(faults, {CreateDirStep, WriteAuthStep, WriteConfigStep, WriteMarkerStep}) ==>
                FilesIn(profiles, p) ==
                ProfileFiles(Contents(Some(auth), Some(config)), Some(marker),
                             if faults(RemoveLegacyMarkerStep) then FilesIn(old(profiles), p).legacyMarker else None)
      ensures state == if ok then Some(ManagedState(p, marker)) else old(state)
      ensures Alone(old(Snapshot()), op, WriteAuth(config), faults) ==
              if ok then Alone(Snapshot(), op, SaveHome, faults) else (Snapshot(), false)
    {
      hide Alone, Advance, AdvanceApply, AdvanceRestore;
      AtWriteAuth(Snapshot(), op, config, faults);
      if faults(CreateDirStep) {
        return false;
      }
      var files := FilesIn(profiles, p);
      files := files.(contents := files.contents.(auth := Some(auth)));
      ok := Write(p, files, faults(WriteAuthStep));
      if !ok { return; }
      AtWriteConfig(Snapshot(), op, config, faults);
      files := files.(contents := files.contents.(config := Some(config)));
      ok := Write(p, files, faults(WriteConfigStep));
      if !ok { return; }
      AtWriteMarker(Snapshot(), op, faults);
      files := files.(marker := Some(marker));
      ok := Write(p, files, faults(WriteMarkerStep));
      if !ok { return; }
      AtRemoveLegacy(Snapshot(), op, faults);
      var ignored := Write(p, files.(legacyMarker := None), faults(RemoveLegacyMarkerStep));
      AtSaveState(Snapshot(), op, faults);
      ok := !faults(SaveStateStep);
      if ok {
        state := Some(ManagedState(p, marker));
      }
    }

    /** `apply_direct_account` and `apply_gateway` from the backup on. */
    method ApplyProfile(
      p: string, auth: string, patch: Option<string> -> Option<string>, marker: string, faults: Step -> bool)
      returns (ok: bool)
      modifies this
      ensures (Snapshot(), ok) == Alone(old(Snapshot()), Apply(p, auth, patch, marker), Start, faults)
      ensures !faults(LoadBackupsStep) ==> ApplyStep(old(Snapshot()), Snapshot(), p)
      // Unreadable settings: the backup map is replaced exactly if both files can be read and the settings saved.
      ensures faults(LoadBackupsStep) ==>
                backups == if NoFault(faults, {ReadAuthStep, ReadConfigStep, SaveBackupsStep})
                           then map[p := ContentsOf(old(Snapshot()), p)] else old(backups)
      ensures forall q | q != p :: FilesIn(profiles, q) == FilesIn(old(profiles), q)
      ensures ok ==> patch(ContentsOf(old(Snapshot()), p).config).Some?
      ensures ok ==> ContentsOf(Snapshot(), p) == Contents(Some(auth), patch(ContentsOf(old(Snapshot()), p).config))
      ensures ok ==> FilesOf(Snapshot(), p).marker == Some(marker)
      ensures (forall step :: !faults(step)) && patch(ContentsOf(old(Snapshot()), p).config).Some? ==> ok
      ensures ok ==> p in backups && state == Some(ManagedState(p, marker)) && codexHome == Some(p)
    {
      hide Alone, Advance, AdvanceApply, AdvanceRestore;
      ghost var op := Apply(p, auth, patch, marker);
      ok := EnsureBackup(p, op, faults);
      if !ok { return; }
      AtPatch(Snapshot(), op, faults);
      if faults(BuildAuthStep) || faults(RereadConfigStep) {
        return false;
      }
      var config := patch(ContentsOf(Snapshot(), p).config);
      if config.None? {
        return false;
      }
      ok := WriteProfileFiles(p, auth, config.value, marker, op, faults);
      if !ok { return; }
      AtSaveHome(Snapshot(), op, faults);
      ok := !faults(SaveHomeStep);
      if ok {
        codexHome := Some(p);
      }
    }

    /** Both files back and both markers gone, stopping at the first failure. */
    method RestoreFiles(p: string, backup: Contents, ghost rest: map<string, Contents>, faults: Step -> bool)
      returns (ok: bool)
      modifies this`profiles
      ensures forall q | q != p :: FilesIn(profiles, q) == FilesIn(old(profiles), q)
      ensures ok ==> FilesIn(profiles, p) == ProfileFiles(backup, None, None)
      ensures ok <==> NoFault(faults, {CreateDirStep, WriteAuthStep, WriteConfigStep, RemoveMarkerStep, RemoveLegacyMarkerStep})
      ensures Alone(old(Snapshot()), Restore(p), RestoreAuth(backup, rest), faults) ==
              if ok then Alone(Snapshot(), Restore(p), SaveRest(rest), faults) else (Snapshot(), false)
    {
      hide Alone, Advance, AdvanceApply, AdvanceRestore;
      ghost var op := Restore(p);
      AtRestoreAuth(Snapshot(), op, backup, rest, faults);
      if faults(CreateDirStep) {
        return false;
      }
      var files := FilesOf(Snapshot(), p);
      files := files.(contents := files.contents.(auth := backup.auth));
      ok := Write(p, files, faults(WriteAuthStep));
      if !ok { return; }
      AtRestoreConfig(Snapshot(), op, backup, rest, faults);
      files := files.(contents := files.contents.(config := backup.config));
      ok := Write(p, files, faults(WriteConfigStep));
      if !ok { return; }
      AtRemoveMarker(Snapshot(), op, rest, faults);
      files := files.(marker := None);
      ok := Write(p, files, faults(RemoveMarkerStep));
      if !ok { return; }
      AtRemoveLegacyMarker(Snapshot(), op, rest, faults);
      files := files.(legacyMarker := None);
      ok := Write(p, files, faults(RemoveLegacyMarkerStep));
    }

    method RestoreProfile(p: string, faults: Step -> bool) returns (ok: bool)
      modifies this
      ensures (Snapshot(), ok) == Alone(old(Snapshot()), Restore(p), Start, faults)
      ensures RestoreStep(old(Snapshot()), Snapshot(), p, ok)
      ensures (forall step :: !faults(step)) && p in old(backups) ==> ok
      ensures ok && !faults(ReadStateStep) ==> state.Some? ==> state.value.profileDir != p
    {
      hide Alone, Advance, AdvanceApply, AdvanceRestore;
      ghost var op := Restore(p);
      AtStart(Snapshot(), op, faults);
      var loaded := ReadBackups(faults(LoadBackupsStep));
      if p !in loaded {
        return false;
      }
      var backup := loaded[p];
      loaded := loaded - {p};
      ok := RestoreFiles(p, backup, loaded, faults);
      if !ok { return; }
      AtSaveRest(Snapshot(), op, loaded, faults);
      ok := !faults(SaveBackupsStep);
      if !ok { return; }
      backups := loaded;
      AtReadState(Snapshot(), op, faults);
      if !faults(ReadStateStep) && state.Some? && state.value.profileDir == p {
        ok := !faults(ClearStateStep);
        if ok {
          state := None;
        }
      }
    }
  }
}
