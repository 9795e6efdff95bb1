/** `upgrade-installed-rescue`: one attempt, or the retry of an interrupted one. */
module UpgradeCommand {
  import opened Options
  import opened HostDisk
  import opened StateTree
  import opened UpgradeState
  import opened HostTransaction
  import opened SoftwareUpgrade

  datatype Release = Release(version: string, agent: Bytes, host: Bytes, helper: Bytes)

  const ELF: Bytes := [0x7f, 0x45, 0x4c, 0x46]

  /** The backups and modes of an unfinished upgrade are those of the `base` installation, and its
      journal is one that a later command accepts. */
  ghost predicate Describes(u: UpgradeDir, base: seq<File>) {
    && u.journal.Some? && |base| == 4 && |u.backups| == 4 && ValidJournal(u.journal.value)
    && forall i :: 0 <= i < 4 ==> u.backups[i] == base[i].bytes && u.journal.value.modes[i] == Perm(base[i].mode)
  }

  /** At most one upgrade is unfinished, and it still has all of its base installation. */
  ghost predicate Chain(upgrades: seq<UpgradeDir>, base: seq<File>) {
    forall k :: 0 <= k < |upgrades| && Unfinished(upgrades[k]) ==>
        OnlyUnfinished(upgrades, k) && Describes(upgrades[k], base)
  }

  /** A retry accepts executables only, which the first attempt did not ask for. */
  predicate Retryable(base: seq<File>) {
    |base| == 4 && forall i :: 0 <= i < 3 ==> ELF <= base[i].bytes
  }

  /** The four files as they were installed. */
  predicate InstallationOf(base: seq<File>, files: SoftwareUpgrade.Files, l: Layout) {
    && |base| == 4
    && forall i :: 0 <= i < 4 ==> l.Upgraded()[i] in files && base[i] == files[l.Upgraded()[i]]
  }

  predicate FourPaths(l: Layout) {
    forall i, j :: 0 <= i < j < 4 ==> l.Upgraded()[i] != l.Upgraded()[j]
  }

  ghost function View(d: Disk, k: nat): Install
    requires k < |d.upgrades|
    reads d`up, d`files, d`upgrades
  {
    Install(d.up, d.files, d.upgrades[k])
  }

  ghost predicate OthersKept(now: seq<UpgradeDir>, before: seq<UpgradeDir>, k: nat) {
    |now| == |before| && forall i :: 0 <= i < |now| && i != k ==> now[i] == before[i]
  }

  // ---- the steps, each equal to its specification -----------------------------------------

  method WritePhase(d: Disk, k: nat, job: Job, phase: UpgradePhase, fate: Fate) returns (ok: bool)
    requires k < |d.upgrades|
    modifies d`up, d`upgrades
    ensures OthersKept(d.upgrades, old(d.upgrades), k)
    ensures Outcome(View(d, k), ok) == PutPhase(old(View(d, k)), job, phase, fate)
  {
    if d.up && fate.Applies() {
      d.upgrades := d.upgrades[k := d.upgrades[k].(journal := Some(job.Journal(phase)))];
    }
    ok := d.Check(fate);
  }

  method StopUnits(d: Disk, k: nat, fates: Fates) returns (ok: bool)
    requires k < |d.upgrades|
    modifies d`up
    ensures Outcome(View(d, k), ok) == StopAll(old(View(d, k)), fates, 0)
  {
    for u := 0 to 2
      invariant StopAll(old(View(d, k)), fates, 0) == StopAll(View(d, k), fates, u)
    {
      ok := d.Check(fates(Stop(u)));
      if !ok { return; }
    }
    ok := true;
  }

  method ReplaceFiles(d: Disk, k: nat, job: Job, fates: Fates) returns (ok: bool)
    requires k < |d.upgrades| && job.Ok()
    modifies d`up, d`files
    ensures Outcome(View(d, k), ok) == ReplaceAll(old(View(d, k)), job, fates, 0)
  {
    for i := 0 to 4
      invariant ReplaceAll(old(View(d, k)), job, fates, 0) == ReplaceAll(View(d, k), job, fates, i)
    {
      ok := d.AtomicWrite(job.paths[i], job.New(i), fates(Replace(i)));
      if !ok { return; }
    }
    ok := true;
  }

  method RestartUnits(d: Disk, k: nat, job: Job, fates: Fates) returns (ok: bool)
    requires k < |d.upgrades| && job.Ok()
    modifies d`up
    ensures Outcome(View(d, k), ok) == RestartAll(old(View(d, k)), job, fates, 0)
  {
    for u := 0 to 2
      invariant RestartAll(old(View(d, k)), job, fates, 0) == RestartAll(View(d, k), job, fates, u)
    {
      if !job.active[u] { continue; }
      ok := d.Check(fates(Restart(u)));
      if !ok { return; }
      ok := d.Check(fates(Verify(u)));
      if !ok { return; }
    }
    ok := true;
  }

  method ReplaceTogether(d: Disk, k: nat, job: Job, fates: Fates) returns (ok: bool)
    requires k < |d.upgrades| && job.Ok()
    modifies d`up, d`files, d`upgrades
    ensures OthersKept(d.upgrades, old(d.upgrades), k)
    ensures Outcome(View(d, k), ok) == Attempt(old(View(d, k)), job, fates)
  {
    ok := StopUnits(d, k, fates);
    if !ok { return; }
    ok := WritePhase(d, k, job, UReplacing, fates(Mark(UReplacing)));
    if !ok { return; }
    ok := ReplaceFiles(d, k, job, fates);
    if !ok { return; }
    ok := RestartUnits(d, k, job, fates);
    if !ok { return; }
    ok := WritePhase(d, k, job, UCompleted, fates(Mark(UCompleted)));
    if !ok { return; }
    ok := d.Check(fates(Announce));
  }

  method UndoFiles(d: Disk, k: nat, job: Job, fates: Fates) returns (clean: bool)
    requires k < |d.upgrades| && job.Ok()
    modifies d`up, d`files
    ensures var o := UndoAll(old(View(d, k)), job, fates, 0); View(d, k) == o.st && clean == o.ok
  {
    clean := true;
    for i := 0 to 4
      invariant var whole, rest := UndoAll(old(View(d, k)), job, fates, 0), UndoAll(View(d, k), job, fates, i);
                whole.st == rest.st && whole.ok == (clean && rest.ok)
    {
      var ok := d.AtomicWrite(job.paths[i], job.Old(i), fates(UndoReplace(i)));
      clean := clean && ok;
    }
  }

  method UndoUnits(d: Disk, k: nat, fates: Fates) returns (clean: bool)
    requires k < |d.upgrades|
    modifies d`up
    ensures var o := UndoStops(old(View(d, k)), fates, 0); View(d, k) == o.st && clean == o.ok
  {
    clean := true;
    for u := 0 to 2
      invariant var whole, rest := UndoStops(old(View(d, k)), fates, 0), UndoStops(View(d, k), fates, u);
                whole.st == rest.st && whole.ok == (clean && rest.ok)
    {
      var ok := d.Check(fates(UndoStop(u)));
      clean := clean && ok;
    }
  }

  method UndoRestartUnits(d: Disk, k: nat, job: Job, fates: Fates) returns (clean: bool)
    requires k < |d.upgrades| && job.Ok()
    modifies d`up
    ensures var o := UndoRestarts(old(View(d, k)), job, fates, 0); View(d, k) == o.st && clean == o.ok
  {
    clean := true;
    for u := 0 to 2
      invariant var whole, rest := UndoRestarts(old(View(d, k)), job, fates, 0),
                UndoRestarts(View(d, k), job, fates, u);
                whole.st == rest.st && whole.ok == (clean && rest.ok)
    {
      if !job.active[u] { continue; }
      var ok := d.Check(fates(UndoRestart(u)));
      if ok { ok := d.Check(fates(UndoVerify(u))); }
      clean := clean && ok;
    }
  }

  /** The deferred half of the command: put everything back, whatever else fails. */
  method RollBack(d: Disk, k: nat, job: Job, fates: Fates)
    requires k < |d.upgrades| && job.Ok()
    modifies d`up, d`files, d`upgrades
    ensures OthersKept(d.upgrades, old(d.upgrades), k)
    ensures View(d, k) == Rollback(old(View(d, k)), job, fates)
  {
    var stopped := UndoUnits(d, k, fates);
    var undone := UndoFiles(d, k, job, fates);
    var clean := stopped && undone;
    if clean { clean := UndoRestartUnits(d, k, job, fates); }
    var ignored := WritePhase(d, k, job, if clean then URestored else URestoreFailed, fates(Conclude));
  }

  // ---- the command ------------------------------------------------------------------------

  /** Runs an attempt whose `prepared` phase is durable. */
  method RunAttempt(d: Disk, k: nat, job: Job, fates: Fates) returns (ok: bool)
    requires k < |d.upgrades| && job.Ok() && d.up && Unfinished(d.upgrades[k])
    modifies d`up, d`files, d`upgrades
    ensures OthersKept(d.upgrades, old(d.upgrades), k)
    ensures Outcome(View(d, k), ok) == Upgrade(old(View(d, k)), job, fates)
  {
    ok := ReplaceTogether(d, k, job, fates);
    if !ok { RollBack(d, k, job, fates); }
  }

  /** Everything put back as it was in the base installation (owned by root, as AtomicWrite leaves it). */
  ghost predicate BaseReturned(files: SoftwareUpgrade.Files, l: Layout, base: seq<File>)
    requires |base| == 4
  {
    forall i :: 0 <= i < 4 ==>
      l.Upgraded()[i] in files && files[l.Upgraded()[i]] == File(base[i].bytes, Perm(base[i].mode), 0, 0)
  }

  ghost predicate ReleaseInstalled(files: SoftwareUpgrade.Files, l: Layout, base: seq<File>, release: Release,
                                   config: Bytes)
    requires |base| == 4
  {
    var bytes := [release.agent, release.host, release.helper, config];
    forall i :: 0 <= i < 4 ==>
      l.Upgraded()[i] in files && files[l.Upgraded()[i]] == File(bytes[i], Perm(base[i].mode), 0, 0)
  }

  /** An attempt that is over leaves one release or the base installation, unless it undid its own
      completion. */
  ghost predicate Settled(files: SoftwareUpgrade.Files, l: Layout, base: seq<File>, release: Release, config: Bytes,
                          fates: Fates)
    requires |base| == 4
  {
    || UndoesCompleted(fates(Mark(UCompleted)), fates(Announce))
    || BaseReturned(files, l, base) || ReleaseInstalled(files, l, base, release, config)
  }

  /** The attempt is over with every step of it done, restarted units found running included. */
  ghost predicate CompletedBy(u: UpgradeDir, version: string, fates: Fates) {
    && u.journal.Some? && u.journal.value.phase.UCompleted? && u.journal.value.version == version
    && |u.journal.value.active| == 2 && NothingFailed(u.journal.value.active, fates)
  }

  /** If the directory says that everything was restored, that is so, and what ran before runs. */
  ghost predicate RestoredBy(u: UpgradeDir, fates: Fates) {
    u.journal.Some? && u.journal.value.phase.URestored? ==>
      |u.journal.value.active| == 2 && AllPutBack(u.journal.value.active, fates)
  }

  /** The directory that an attempt works on: the unfinished one, or else a new one. */
  predicate AttemptIn(k: nat, before: seq<UpgradeDir>) {
    if k < |before| then Unfinished(before[k]) else k == |before|
  }

  function JobFor(l: Layout, release: Release, config: Bytes, originals: seq<Bytes>, modes: seq<nat>,
                  active: seq<bool>): Job {
    Job(l.Upgraded(), release.version, [release.agent, release.host, release.helper, config], originals, modes, active)
  }

  /** Reads the four installed files; nothing is created before all of them have been read. */
  method ReadInstalled(d: Disk) returns (ok: bool, originals: seq<Bytes>, modes: seq<nat>)
    modifies d`up
    ensures d.up ==> old(d.up)
    ensures ok ==> d.up && |originals| == 4 && |modes| == 4
    ensures ok ==> forall i :: 0 <= i < 4 ==>
              && d.layout.Upgraded()[i] in d.files
              && originals[i] == d.files[d.layout.Upgraded()[i]].bytes
              && modes[i] == Perm(d.files[d.layout.Upgraded()[i]].mode)
  {
    originals, modes := [], [];
    var paths := d.layout.Upgraded();
    for i := 0 to 4
      invariant |originals| == i && |modes| == i && (d.up ==> old(d.up))
      invariant forall k :: 0 <= k < i ==> paths[k] in d.files && originals[k] == d.files[paths[k]].bytes
                                            && modes[k] == Perm(d.files[paths[k]].mode)
    {
      ok := d.Ask();
      if !ok || paths[i] !in d.files { return false, originals, modes; }
      originals := originals + [d.files[paths[i]].bytes];
      modes := modes + [Perm(d.files[paths[i]].mode)];
    }
    ok := d.up;
  }

  /** Creates the upgrade directory and its backups; it has no journal yet. */
  method CreateBackups(d: Disk, originals: seq<Bytes>) returns (ok: bool)
    requires d.up && |originals| == 4
    modifies d`up, d`upgrades
    ensures d.up ==> old(d.up)
    ensures d.upgrades == old(d.upgrades) ||
            (|d.upgrades| == |old(d.upgrades)| + 1 && d.upgrades[..|old(d.upgrades)|] == old(d.upgrades)
             && d.upgrades[|old(d.upgrades)|].journal == None)
    ensures ok ==> d.up && d.upgrades == old(d.upgrades) + [UpgradeDir(originals, None, [])]
  {
    var fate: Fate := *;
    var k := |d.upgrades|;
    if fate.Applies() { d.upgrades := d.upgrades + [UpgradeDir([], None, [])]; }
    ok := d.Check(fate);
    if !ok { return; }
    for i := 0 to 4
      invariant d.up && d.upgrades == old(d.upgrades) + [UpgradeDir(originals[..i], None, [])]
    {
      fate := *;
      if fate.Applies() {
        assert originals[..i + 1] == originals[..i] + [originals[i]];
        d.upgrades := d.upgrades[k := UpgradeDir(d.upgrades[k].backups + [originals[i]], None, [])];
        assert d.upgrades == old(d.upgrades) + [UpgradeDir(originals[..i + 1], None, [])];
      }
      ok := d.Check(fate);
      if !ok { return; }
    }
    assert originals[..4] == originals;
  }

  /** The backups of an unfinished upgrade, if they still are what a rollback needs. */
  method ReadUpgradeBackups(d: Disk, u: UpgradeDir, fates: Fates) returns (ok: bool, originals: seq<Bytes>)
    modifies d`up
    ensures d.up ==> old(d.up)
    ensures ok <==> old(d.up) && (forall i :: 0 <= i < 4 ==> fates(ReadBackup(i)).Fine?)
                    && |u.backups| >= 4 && forall i :: 0 <= i < 3 ==> ELF <= u.backups[i]
    ensures ok ==> d.up && originals == u.backups[..4]
  {
    originals := [];
    for i := 0 to 4
      invariant d.up == old(d.up) && (i > 0 ==> d.up) && i <= |u.backups| && originals == u.backups[..i]
      invariant forall k :: 0 <= k < i ==> fates(ReadBackup(k)).Fine? && (k < 3 ==> ELF <= u.backups[k])
    {
      ok := d.Check(fates(ReadBackup(i)));
      if !ok || i >= |u.backups| || (i < 3 && !(ELF <= u.backups[i])) { return false, originals; }
      originals := originals + [u.backups[i]];
    }
    ok := true;
  }

  /** Replaces the four files by one verified release.  A pending attempt is retried from its
      own backups, so the base installation never becomes a mixture. */
  method UpgradeInstalledRescue(d: Disk, release: Release, rewrite: (Bytes, string) -> Bytes,
                                fates: Fates) returns (ok: bool)
    requires Inv(d) && Chain(d.upgrades, d.base) && FourPaths(d.layout)
    modifies d`up, d`files, d`upgrades, d`base
    ensures Inv(d) && Chain(d.upgrades, d.base)
    ensures d.up ==> old(d.up)
    ensures old(d.saved).Some? || (!Idle(old(d.upgrades)) && !Retryable(old(d.base))) ==>
              d.files == old(d.files) && d.upgrades == old(d.upgrades) && d.base == old(d.base) && !ok
    ensures !Idle(old(d.upgrades)) ==> d.base == old(d.base)
    ensures d.base == old(d.base) || InstallationOf(d.base, old(d.files), d.layout)
    ensures Idle(old(d.upgrades)) && (!Idle(d.upgrades) || d.files != old(d.files)) ==>
              InstallationOf(d.base, old(d.files), d.layout)
    ensures ok ==> |d.base| == 4 && Idle(d.upgrades)
                   && ReleaseInstalled(d.files, d.layout, d.base, release, rewrite(d.base[3].bytes, release.version))
    ensures ok ==> exists k: nat :: k < |d.upgrades| && AttemptIn(k, old(d.upgrades))
                                    && CompletedBy(d.upgrades[k], release.version, fates)
    ensures forall k: nat :: k < |d.upgrades| && AttemptIn(k, old(d.upgrades)) ==> RestoredBy(d.upgrades[k], fates)
    ensures d.files != old(d.files) || (!Idle(old(d.upgrades)) && Idle(d.upgrades)) ==>
              && |d.base| == 4
              && (!Idle(d.upgrades) ||
                  Settled(d.files, d.layout, d.base, release, rewrite(d.base[3].bytes, release.version), fates))
  {
    hide Inv, Chain, Settled, ReleaseInstalled, CompletedBy;
    ok := d.Ask();
    if !ok || d.saved.Some? { return false; }
    var pending := PendingSoftwareUpgrade(d);
    if pending.Unsafe? { return false; }
    ok := d.Ask();
    if !ok || !(ELF <= release.agent) || !(ELF <= release.host) { return false; }
    if pending.OnePending? {
      ok := Retry(d, pending.index, release, rewrite, fates);
    } else {
      ok := FirstAttempt(d, release, rewrite, fates);
    }
  }

  /** A pending upgrade can be retried exactly when its base consists of executables: then nothing
      but a failure stops it, and otherwise nothing at all happens. */
  method Retry(d: Disk, k: nat, release: Release, rewrite: (Bytes, string) -> Bytes, fates: Fates) returns (ok: bool)
    requires Inv(d) && d.saved == None && FourPaths(d.layout) && Chain(d.upgrades, d.base) && d.up
    requires k < |d.upgrades| && OnlyUnfinished(d.upgrades, k) && ValidJournal(d.upgrades[k].journal.value)
    modifies d`up, d`files, d`upgrades
    ensures Inv(d) && Chain(d.upgrades, d.base) && |d.base| == 4
    ensures !Retryable(d.base) ==> !ok && d.files == old(d.files) && d.upgrades == old(d.upgrades)
    ensures ok <==>
              && Retryable(d.base) && (forall i :: 0 <= i < 4 ==> fates(ReadBackup(i)).Fine?)
              && fates(PreserveAttempt).Fine? && fates(Mark(UPrepared)).Fine?
              && NothingFailed(old(d.upgrades)[k].journal.value.active, fates)
    ensures |d.upgrades| == |old(d.upgrades)| && RestoredBy(d.upgrades[k], fates)
    ensures ok ==> CompletedBy(d.upgrades[k], release.version, fates)
    ensures ok ==> Idle(d.upgrades)
                   && ReleaseInstalled(d.files, d.layout, d.base, release, rewrite(d.base[3].bytes, release.version))
    ensures || !Idle(d.upgrades)
            || Settled(d.files, d.layout, d.base, release, rewrite(d.base[3].bytes, release.version), fates)
  {
    hide Settled, ReleaseInstalled, NothingFailed, AllPutBack;
    var u := d.upgrades[k];
    assert Unfinished(u) && Describes(u, d.base);
    var originals;
    ok, originals := ReadUpgradeBackups(d, u, fates);
    if !ok { return; }
    ok := PreserveAttemptOf(d, k, fates(PreserveAttempt));
    if !ok { return; }
    assert u.backups[..4] == u.backups;
    var job := JobFor(d.layout, release, rewrite(originals[3], release.version), originals, u.journal.value.modes,
                      u.journal.value.active);
    ok := Begin(d, k, job, release, fates);
  }

  /** Keeps a copy of the failed attempt's journal beside it. */
  method PreserveAttemptOf(d: Disk, k: nat, fate: Fate) returns (ok: bool)
    requires Inv(d) && Chain(d.upgrades, d.base) && d.saved == None
    requires k < |d.upgrades| && OnlyUnfinished(d.upgrades, k)
    modifies d`up, d`upgrades
    ensures Inv(d) && Chain(d.upgrades, d.base)
    ensures OnlyUnfinished(d.upgrades, k) && OthersKept(d.upgrades, old(d.upgrades), k)
    ensures d.upgrades[k] == old(d.upgrades)[k].(attempts := d.upgrades[k].attempts)
    ensures old(d.upgrades)[k].attempts <= d.upgrades[k].attempts
    ensures ok == (old(d.up) && fate.Fine?) && (ok ==> d.up)
    ensures ok ==> d.upgrades[k].attempts == old(d.upgrades)[k].attempts + [old(d.upgrades)[k].journal.value]
  {
    var u := d.upgrades[k];
    assert Unfinished(u) && Describes(u, d.base);
    if d.up && fate.Applies() { d.upgrades := d.upgrades[k := u.(attempts := u.attempts + [u.journal.value])]; }
    ok := d.Check(fate);
  }

  method FirstAttempt(d: Disk, release: Release, rewrite: (Bytes, string) -> Bytes, fates: Fates) returns (ok: bool)
    requires Inv(d) && d.saved == None && FourPaths(d.layout) && Idle(d.upgrades) && d.up
    modifies d`up, d`files, d`upgrades, d`base
    ensures Inv(d) && Chain(d.upgrades, d.base)
    ensures d.base == old(d.base) || InstallationOf(d.base, old(d.files), d.layout)
    ensures !Idle(d.upgrades) || d.files != old(d.files) || ok ==> InstallationOf(d.base, old(d.files), d.layout)
    ensures |old(d.upgrades)| <= |d.upgrades| <= |old(d.upgrades)| + 1
    ensures ok ==> |d.upgrades| == |old(d.upgrades)| + 1
                   && CompletedBy(d.upgrades[|old(d.upgrades)|], release.version, fates)
    ensures |d.upgrades| > |old(d.upgrades)| ==> RestoredBy(d.upgrades[|old(d.upgrades)|], fates)
    ensures ok ==> Idle(d.upgrades)
                   && ReleaseInstalled(d.files, d.layout, d.base, release, rewrite(d.base[3].bytes, release.version))
    ensures d.files != old(d.files) ==>
              || !Idle(d.upgrades)
              || Settled(d.files, d.layout, d.base, release, rewrite(d.base[3].bytes, release.version), fates)
  {
    hide Settled, ReleaseInstalled, NothingFailed, AllPutBack;
    var active: bool := *;
    var helperActive: bool := *;
    var originals, modes;
    ok, originals, modes := ReadInstalled(d);
    if !ok { return; }
    var k := |d.upgrades|;
    ok := CreateBackups(d, originals);
    if !ok { return; }
    var job := JobFor(d.layout, release, rewrite(originals[3], release.version), originals, modes,
                      [active, helperActive]);
    if !ValidJournal(job.Journal(UPrepared)) { return false; }
    NoteBase(d);
    ok := Begin(d, k, job, release, fates);
  }

  /** Remembers, for the proof only, the installation before the first attempt. */
  ghost method NoteBase(d: Disk)
    requires forall i :: 0 <= i < 4 ==> d.layout.Upgraded()[i] in d.files
    modifies d`base
    ensures InstallationOf(d.base, d.files, d.layout)
  {
    var p := d.layout.Upgraded();
    d.base := [d.files[p[0]], d.files[p[1]], d.files[p[2]], d.files[p[3]]];
  }

  /** How an attempt can end, told in terms of the base installation and the release. */
  lemma AttemptEnds(st: Install, job: Job, fates: Fates, l: Layout, base: seq<File>, release: Release)
    requires job.Ok() && st.up && Unfinished(st.dir) && MarkedBy(st.dir, job)
    requires ValidJournal(st.dir.journal.value)
    requires job == JobFor(l, release, job.release[3], st.dir.backups, job.modes, job.active)
    requires |base| == 4 && forall i :: 0 <= i < 4 ==>
              job.originals[i] == base[i].bytes && job.modes[i] == Perm(base[i].mode)
    ensures var o := Upgrade(st, job, fates);
            && MarkedBy(o.st.dir, job) && (Unfinished(o.st.dir) ==> Describes(o.st.dir, base))
            && (o.ok ==> o.st.dir.journal.value.phase.UCompleted?)
            && (o.ok ==> !Unfinished(o.st.dir) && ReleaseInstalled(o.st.files, l, base, release, job.release[3]))
            && (!Unfinished(o.st.dir) ==> Settled(o.st.files, l, base, release, job.release[3], fates))
  {
    hide Upgrade, Elsewhere;
    UpgradeLeaves(st, job, fates);
    var o := Upgrade(st, job, fates);
    assert Released(o.st.files, job) ==> ReleaseInstalled(o.st.files, l, base, release, job.release[3]) by {
      forall i | 0 <= i < 4
        ensures [release.agent, release.host, release.helper, job.release[3]][i] == job.release[i]
      {
      }
    }
    assert PutBack(o.st.files, job) ==> BaseReturned(o.st.files, l, base);
  }

  /** The failing case: a first attempt dies over a base that is no executable.  It stays pending,
      and every retry is refused. */
  lemma Stranded(st: Install, job: Job, fates: Fates, base: seq<File>)
    requires job.Ok() && st.up && Unfinished(st.dir) && Describes(st.dir, base)
    requires fates(Stop(0)).CrashBefore? && !Retryable(base)
    ensures var o := Upgrade(st, job, fates);
            Unfinished(o.st.dir) && Describes(o.st.dir, base) && o.st.files == st.files
  {
    var dead := st.(up := false);
    assert StopAll(st, fates, 0) == Outcome(dead, false);
    DeadDoesNothing(dead, job, fates, 0);
  }

  /** Makes the prepared phase durable and runs the attempt. */
  method Begin(d: Disk, k: nat, job: Job, release: Release, fates: Fates) returns (ok: bool)
    requires Inv(d) && d.saved == None && d.up && FourPaths(d.layout) && k < |d.upgrades|
    requires |d.base| == 4 && (forall i :: 0 <= i < |d.upgrades| && i != k ==> !Unfinished(d.upgrades[i]))
    requires Unfinished(d.upgrades[k]) ==> Describes(d.upgrades[k], d.base)
    requires d.upgrades[k].journal.None? || Unfinished(d.upgrades[k])
    requires |job.release| == 4
              && job == JobFor(d.layout, release, job.release[3], d.upgrades[k].backups, job.modes, job.active)
    requires |d.upgrades[k].backups| == 4 && ValidJournal(job.Journal(UPrepared))
    requires forall i :: 0 <= i < 4 ==>
              d.upgrades[k].backups[i] == d.base[i].bytes && job.modes[i] == Perm(d.base[i].mode)
    modifies d`up, d`files, d`upgrades
    ensures Inv(d) && Chain(d.upgrades, d.base)
    ensures ok <==> fates(Mark(UPrepared)).Fine? && NothingFailed(job.active, fates)
    ensures |d.upgrades| == |old(d.upgrades)| && RestoredBy(d.upgrades[k], fates)
    ensures ok ==> CompletedBy(d.upgrades[k], release.version, fates)
    ensures ok ==> Idle(d.upgrades) && ReleaseInstalled(d.files, d.layout, d.base, release, job.release[3])
    ensures d.files != old(d.files) || Unfinished(old(d.upgrades[k])) ==>
              !Idle(d.upgrades) || Settled(d.files, d.layout, d.base, release, job.release[3], fates)
  {
    hide Upgrade, ReleaseInstalled, Settled, NothingFailed, AllPutBack;
    assert job.Ok();
    ok := WritePhase(d, k, job, UPrepared, fates(Mark(UPrepared)));
    if !ok { return; }
    ghost var start := View(d, k);
    AttemptEnds(start, job, fates, d.layout, d.base, release);
    UpgradeSucceedsExactly(start, job, fates);
    RestoredMeans(start, job, fates);
    ok := RunAttempt(d, k, job, fates);
    assert d.upgrades[k] == Upgrade(start, job, fates).st.dir;
    if !Unfinished(d.upgrades[k]) { assert Idle(d.upgrades); }
  }
}
