/** Four installed files replaced as a unit, with a rollback that survives retries. */
module SoftwareUpgrade {
  import opened Options
  import opened HostDisk
  import opened UpgradeState

  type Files = map<Path, File>

  /** The operations of one attempt once it has its backups, read again for a retry; each happens
      at most once, so one fate for each determines the whole attempt. */
  datatype Op =
    | ReadBackup(i: nat) | PreserveAttempt
    | Stop(unit: nat) | Mark(phase: UpgradePhase) | Replace(i: nat) | Restart(unit: nat) | Verify(unit: nat) | Announce
    | UndoStop(unit: nat) | UndoReplace(i: nat) | UndoRestart(unit: nat) | UndoVerify(unit: nat) | Conclude

  type Fates = Op -> Fate

  datatype Job = Job(
    paths: seq<Path>, version: string, release: seq<Bytes>, originals: seq<Bytes>, modes: seq<nat>, active: seq<bool>)
  {
    predicate Ok() {
      && |paths| == 4 && |release| == 4 && |originals| == 4 && |modes| == 4 && |active| == 2
      && forall i, j :: 0 <= i < j < 4 ==> paths[i] != paths[j]
    }

    function Journal(phase: UpgradePhase): UpgradeJournal {
      UpgradeJournal(phase, version, true, modes, active)
    }

    function New(i: nat): File
      requires i < |release| && i < |modes|
    {
      File(release[i], modes[i], 0, 0)
    }

    function Old(i: nat): File
      requires i < |originals| && i < |modes|
    {
      File(originals[i], modes[i], 0, 0)
    }
  }

  datatype Install = Install(up: bool, files: Files, dir: UpgradeDir)

  datatype Outcome = Outcome(st: Install, ok: bool)

  // ---- one attempt as a function of its fates -------------------------------------------

  function Ask(st: Install, fate: Fate): Outcome {
    Outcome(st.(up := st.up && !fate.Crashes()), st.up && fate.Fine?)
  }

  function Put(st: Install, path: Path, file: File, fate: Fate): Outcome {
    var after := if st.up && fate.Applies() then st.(files := st.files[path := file]) else st;
    Outcome(after.(up := st.up && !fate.Crashes()), st.up && fate.Fine?)
  }

  function PutPhase(st: Install, job: Job, phase: UpgradePhase, fate: Fate): Outcome {
    var after := if st.up && fate.Applies() then st.(dir := st.dir.(journal := Some(job.Journal(phase)))) else st;
    Outcome(after.(up := st.up && !fate.Crashes()), st.up && fate.Fine?)
  }

  function StopAll(st: Install, fates: Fates, u: nat): Outcome
    decreases 2 - u
  {
    if u >= 2 then Outcome(st, true)
    else
      var o := Ask(st, fates(Stop(u)));
      if !o.ok then o else StopAll(o.st, fates, u + 1)
  }

  function ReplaceAll(st: Install, job: Job, fates: Fates, i: nat): Outcome
    requires job.Ok()
    decreases 4 - i
  {
    if i >= 4 then Outcome(st, true)
    else
      var o := Put(st, job.paths[i], job.New(i), fates(Replace(i)));
      if !o.ok then o else ReplaceAll(o.st, job, fates, i + 1)
  }

  function RestartAll(st: Install, job: Job, fates: Fates, u: nat): Outcome
    requires job.Ok()
    decreases 2 - u
  {
    if u >= 2 then Outcome(st, true)
    else if !job.active[u] then RestartAll(st, job, fates, u + 1)
    else
      var o := Ask(st, fates(Restart(u)));
      if !o.ok then o
      else
        var v := Ask(o.st, fates(Verify(u)));
        if !v.ok then v else RestartAll(v.st, job, fates, u + 1)
  }

  function Attempt(st: Install, job: Job, fates: Fates): Outcome
    requires job.Ok()
  {
    var stopped := StopAll(st, fates, 0);
    if !stopped.ok then stopped
    else
      var marked := PutPhase(stopped.st, job, UReplacing, fates(Mark(UReplacing)));
      if !marked.ok then marked
      else
        var replaced := ReplaceAll(marked.st, job, fates, 0);
        if !replaced.ok then replaced
        else
          var running := RestartAll(replaced.st, job, fates, 0);
          if !running.ok then running
          else
            var done := PutPhase(running.st, job, UCompleted, fates(Mark(UCompleted)));
            if !done.ok then done else Ask(done.st, fates(Announce))
  }

  function UndoStops(st: Install, fates: Fates, u: nat): Outcome
    decreases 2 - u
  {
    if u >= 2 then Outcome(st, true)
    else
      var o := Ask(st, fates(UndoStop(u)));
      var rest := UndoStops(o.st, fates, u + 1);
      Outcome(rest.st, o.ok && rest.ok)
  }

  /** Every file is put back even after another one failed. */
  function UndoAll(st: Install, job: Job, fates: Fates, i: nat): Outcome
    requires job.Ok()
    decreases 4 - i
  {
    if i >= 4 then Outcome(st, true)
    else
      var o := Put(st, job.paths[i], job.Old(i), fates(UndoReplace(i)));
      var rest := UndoAll(o.st, job, fates, i + 1);
      Outcome(rest.st, o.ok && rest.ok)
  }

  function UndoRestarts(st: Install, job: Job, fates: Fates, u: nat): Outcome
    requires job.Ok()
    decreases 2 - u
  {
    if u >= 2 then Outcome(st, true)
    else if !job.active[u] then UndoRestarts(st, job, fates, u + 1)
    else
      var o := Ask(st, fates(UndoRestart(u)));
      var v := if o.ok then Ask(o.st, fates(UndoVerify(u))) else o;
      var rest := UndoRestarts(v.st, job, fates, u + 1);
      Outcome(rest.st, v.ok && rest.ok)
  }

  function Rollback(st: Install, job: Job, fates: Fates): Install
    requires job.Ok()
  {
    var stopped := UndoStops(st, fates, 0);
    var undone := UndoAll(stopped.st, job, fates, 0);
    var clean := stopped.ok && undone.ok;
    var running := if clean then UndoRestarts(undone.st, job, fates, 0) else undone;
    PutPhase(running.st, job, if clean && running.ok then URestored else URestoreFailed, fates(Conclude)).st
  }

  function Upgrade(st: Install, job: Job, fates: Fates): Outcome
    requires job.Ok()
  {
    var a := Attempt(st, job, fates);
    if a.ok then a else Outcome(Rollback(a.st, job, fates), false)
  }

  // ---- what an attempt leaves behind ------------------------------------------------------

  predicate Released(files: Files, job: Job)
    requires job.Ok()
  {
    forall i :: 0 <= i < 4 ==> job.paths[i] in files && files[job.paths[i]] == job.New(i)
  }

  predicate PutBack(files: Files, job: Job)
    requires job.Ok()
  {
    forall i :: 0 <= i < 4 ==> job.paths[i] in files && files[job.paths[i]] == job.Old(i)
  }

  /** The durable phase tells the truth: a finished upgrade is wholly new or wholly original. */
  predicate Truthful(st: Install, job: Job)
    requires job.Ok()
  {
    && st.dir.journal.Some?
    && (st.dir.journal.value.phase.UCompleted? ==> Released(st.files, job))
    && (st.dir.journal.value.phase.URestored? ==> PutBack(st.files, job))
  }

  /** The completed phase is on disk, yet the command goes on to roll back: the write was
      reported as failed, or the closing message could not be printed. */
  predicate UndoesCompleted(done: Fate, announce: Fate) {
    done.Late? || (done.Fine? && (announce.Refused? || announce.Late?))
  }

  ghost predicate Elsewhere(files: Files, other: Files, job: Job) {
    forall p :: p !in job.paths ==> (p in files <==> p in other) && (p in files ==> files[p] == other[p])
  }

  /** The journal was written by this job, whatever its phase. */
  predicate MarkedBy(u: UpgradeDir, job: Job) {
    u.journal.Some? && u.journal.value == job.Journal(u.journal.value.phase)
  }

  lemma StopAllKeeps(st: Install, fates: Fates, u: nat)
    ensures var o := StopAll(st, fates, u); o.st.files == st.files && o.st.dir == st.dir && (o.ok && st.up ==> o.st.up)
    decreases 2 - u
  {
  }

  lemma RestartAllKeeps(st: Install, job: Job, fates: Fates, u: nat)
    requires job.Ok()
    ensures var o := RestartAll(st, job, fates, u);
            o.st.files == st.files && o.st.dir == st.dir && (o.ok && st.up ==> o.st.up)
    decreases 2 - u
  {
  }

  lemma UndoKeeps(st: Install, job: Job, fates: Fates, u: nat)
    requires job.Ok()
    ensures var o := UndoRestarts(st, job, fates, u); o.st.files == st.files && o.st.dir == st.dir
    ensures var o := UndoStops(st, fates, u);
            o.st.files == st.files && o.st.dir == st.dir && (o.ok && st.up ==> o.st.up)
    decreases 2 - u
  {
  }

  lemma {:induction false} ReplaceAllWrites(st: Install, job: Job, fates: Fates, i: nat)
    requires job.Ok()
    ensures var o := ReplaceAll(st, job, fates, i);
            && Elsewhere(o.st.files, st.files, job) && o.st.dir == st.dir && (o.ok && st.up ==> o.st.up)
            && (o.ok ==> forall k :: i <= k < 4 ==>
                  job.paths[k] in o.st.files && o.st.files[job.paths[k]] == job.New(k))
            && (forall k :: 0 <= k < 4 && k < i ==>
                  (job.paths[k] in o.st.files <==> job.paths[k] in st.files) &&
                  (job.paths[k] in st.files ==> o.st.files[job.paths[k]] == st.files[job.paths[k]]))
    decreases 4 - i
  {
    if i < 4 {
      var o := Put(st, job.paths[i], job.New(i), fates(Replace(i)));
      ReplaceAllWrites(o.st, job, fates, i + 1);
    }
  }

  /** A file is either put back or left alone, and a clean undo puts all of them back. */
  lemma {:induction false} UndoAllWrites(st: Install, job: Job, fates: Fates, i: nat)
    requires job.Ok()
    ensures var o := UndoAll(st, job, fates, i);
            && Elsewhere(o.st.files, st.files, job) && o.st.dir == st.dir
            && (o.ok ==> forall k :: i <= k < 4 ==>
                  job.paths[k] in o.st.files && o.st.files[job.paths[k]] == job.Old(k))
            && (forall k :: 0 <= k < 4 && k < i ==>
                  (job.paths[k] in o.st.files <==> job.paths[k] in st.files) &&
                  (job.paths[k] in st.files ==> o.st.files[job.paths[k]] == st.files[job.paths[k]]))
            && (forall k :: 0 <= k < 4 && job.paths[k] in st.files ==>
                  && job.paths[k] in o.st.files
                  && (o.st.files[job.paths[k]] == st.files[job.paths[k]] || o.st.files[job.paths[k]] == job.Old(k)))
    decreases 4 - i
  {
    if i < 4 {
      var o := Put(st, job.paths[i], job.Old(i), fates(UndoReplace(i)));
      UndoAllWrites(o.st, job, fates, i + 1);
    }
  }

  /** Before the completed phase is written nothing finished is on disk, and when it is
      written all four files are the release's. */
  lemma AttemptLeaves(st: Install, job: Job, fates: Fates)
    requires job.Ok() && st.up && Unfinished(st.dir)
    ensures var a := Attempt(st, job, fates);
            && a.st.dir.backups == st.dir.backups && a.st.dir.attempts == st.dir.attempts && a.st.dir.journal.Some?
            && (MarkedBy(st.dir, job) ==> MarkedBy(a.st.dir, job))
            && (!st.dir.journal.value.phase.UUnknown? ==> !a.st.dir.journal.value.phase.UUnknown?)
            && Elsewhere(a.st.files, st.files, job)
            && (!Unfinished(a.st.dir) ==> a.st.dir.journal.value.phase.UCompleted? && Released(a.st.files, job))
            && (a.ok ==> a.st.up && !Unfinished(a.st.dir))
            && (!Unfinished(a.st.dir) && !a.ok && a.st.up ==> UndoesCompleted(fates(Mark(UCompleted)), fates(Announce)))
  {
    hide StopAll, ReplaceAll, RestartAll;
    StopAllKeeps(st, fates, 0);
    var stopped := StopAll(st, fates, 0);
    var marked := PutPhase(stopped.st, job, UReplacing, fates(Mark(UReplacing)));
    ReplaceAllWrites(marked.st, job, fates, 0);
    RestartAllKeeps(ReplaceAll(marked.st, job, fates, 0).st, job, fates, 0);
  }

  lemma RollbackLeaves(st: Install, job: Job, fates: Fates)
    requires job.Ok() && st.dir.journal.Some?
    ensures var r := Rollback(st, job, fates);
            && r.dir.backups == st.dir.backups && r.dir.attempts == st.dir.attempts && r.dir.journal.Some?
            && (MarkedBy(st.dir, job) ==> MarkedBy(r.dir, job))
            && (!st.dir.journal.value.phase.UUnknown? ==> !r.dir.journal.value.phase.UUnknown?)
            && Elsewhere(r.files, st.files, job)
            && (r.dir == st.dir || (r.dir.journal.value.phase.URestored? && PutBack(r.files, job)) || Unfinished(r.dir))
            && (!st.up ==> r == st)
            && (Released(st.files, job) && job.release == job.originals ==> Released(r.files, job))
  {
    UndoKeeps(st, job, fates, 0);
    var stopped := UndoStops(st, fates, 0);
    UndoAllWrites(stopped.st, job, fates, 0);
    var undone := UndoAll(stopped.st, job, fates, 0);
    UndoKeeps(undone.st, job, fates, 0);
    if !st.up { DeadDoesNothing(st, job, fates, 0); }
  }

  lemma DeadDoesNothing(st: Install, job: Job, fates: Fates, k: nat)
    requires job.Ok() && !st.up
    ensures UndoStops(st, fates, k).st == st && UndoAll(st, job, fates, k).st == st
              && UndoRestarts(st, job, fates, k).st == st
    decreases 4 - k
  {
  }

  /** Whatever fails and wherever it dies, an upgrade never loses the original backups, touches
      no other file, and its durable phase is true unless a completed upgrade was undone. */
  lemma UpgradeLeaves(st: Install, job: Job, fates: Fates)
    requires job.Ok() && st.up && Unfinished(st.dir)
    ensures var o := Upgrade(st, job, fates);
            && o.st.dir.backups == st.dir.backups && o.st.dir.attempts == st.dir.attempts && o.st.dir.journal.Some?
            && (MarkedBy(st.dir, job) ==> MarkedBy(o.st.dir, job))
            && Elsewhere(o.st.files, st.files, job)
            && (o.ok ==> o.st.dir.journal.value.phase.UCompleted? && Released(o.st.files, job))
            && (!UndoesCompleted(fates(Mark(UCompleted)), fates(Announce)) || job.release == job.originals ==>
                  Truthful(o.st, job))
            && (o.st.dir.journal.value.phase.URestored? ==> PutBack(o.st.files, job))
            && (!st.dir.journal.value.phase.UUnknown? ==> !o.st.dir.journal.value.phase.UUnknown?)
  {
    AttemptLeaves(st, job, fates);
    RollbackLeaves(Attempt(st, job, fates).st, job, fates);
  }

  /** The failing case: the message after completion cannot be printed, and the process dies
      while putting back file `i`.  The disk then says `completed` over a mixture. */
  function BrokenPipeThenCrash(done: Fate, announce: Fate, i: nat): Fates {
    (op: Op) =>
      if op == Mark(UCompleted) then done
      else if op == Announce then announce
      else if op == UndoReplace(i) then CrashAfter
      else Fine
  }

  /** Up to file `i` the files are the original ones, after it the release's. */
  predicate CutAt(files: Files, job: Job, i: nat)
    requires job.Ok()
  {
    forall k :: 0 <= k < 4 ==>
      job.paths[k] in files && files[job.paths[k]] == if k <= i then job.Old(k) else job.New(k)
  }

  lemma CompletedMixture(st: Install, job: Job, done: Fate, announce: Fate, i: nat)
    requires job.Ok() && st.up && Unfinished(st.dir) && UndoesCompleted(done, announce) && i < 4
    ensures var o := Upgrade(st, job, BrokenPipeThenCrash(done, announce, i)).st;
            o.dir.journal == Some(job.Journal(UCompleted)) && CutAt(o.files, job, i)
  {
    hide Attempt, Rollback, UndoAll, UndoStops, UndoesCompleted;
    var fates := BrokenPipeThenCrash(done, announce, i);
    var a := Attempt(st, job, fates);
    AttemptCompletes(st, job, fates);
    AttemptLeaves(st, job, fates);
    UndoStopsFine(a.st, fates, 0);
    CrashAt(a.st, job, fates, 0, i);
    assert !Upgrade(st, job, fates).ok;
    DiesInRollback(a.st, job, fates);
  }

  lemma DiesInRollback(st: Install, job: Job, fates: Fates)
    requires job.Ok() && st.up
    requires UndoStops(st, fates, 0) == Outcome(st, true)
    requires var o := UndoAll(st, job, fates, 0);
             !o.ok && !o.st.up && o.st.dir == st.dir
    ensures var r := Rollback(st, job, fates); r.dir == st.dir && r.files == UndoAll(st, job, fates, 0).st.files
  {
  }

  lemma AttemptCompletes(st: Install, job: Job, fates: Fates)
    requires job.Ok() && st.up && Unfinished(st.dir)
    requires UndoesCompleted(fates(Mark(UCompleted)), fates(Announce))
    requires forall op :: op != Mark(UCompleted) && op != Announce && !op.UndoReplace? ==> fates(op).Fine?
    ensures var a := Attempt(st, job, fates); !a.ok && a.st.up && a.st.dir.journal == Some(job.Journal(UCompleted))
  {
    hide Unfinished, ReplaceAll, RestartAll, StopAll;
    StopAllFine(st, fates, 0);
    var marked := PutPhase(st, job, UReplacing, fates(Mark(UReplacing)));
    ReplaceAllFine(marked.st, job, fates, 0);
    RestartAllFine(ReplaceAll(marked.st, job, fates, 0).st, job, fates, 0);
  }

  // ---- when an attempt succeeds, and when a rollback does --------------------------------

  /** Both units were stopped, all four files and both phases written, each unit that was active
      restarted and found running, and the end announced. */
  predicate NothingFailed(active: seq<bool>, fates: Fates)
    requires |active| == 2
  {
    && (forall u :: 0 <= u < 2 ==> fates(Stop(u)).Fine?)
    && fates(Mark(UReplacing)).Fine?
    && (forall i :: 0 <= i < 4 ==> fates(Replace(i)).Fine?)
    && (forall u :: 0 <= u < 2 && active[u] ==> fates(Restart(u)).Fine? && fates(Verify(u)).Fine?)
    && fates(Mark(UCompleted)).Fine? && fates(Announce).Fine?
  }

  /** Both units were stopped again, all four files put back, and each unit that was active
      restarted and found running. */
  predicate AllPutBack(active: seq<bool>, fates: Fates)
    requires |active| == 2
  {
    && (forall u :: 0 <= u < 2 ==> fates(UndoStop(u)).Fine?)
    && (forall i :: 0 <= i < 4 ==> fates(UndoReplace(i)).Fine?)
    && (forall u :: 0 <= u < 2 && active[u] ==> fates(UndoRestart(u)).Fine? && fates(UndoVerify(u)).Fine?)
  }

  lemma {:induction false} StopsExactly(st: Install, fates: Fates, u: nat)
    requires st.up
    ensures StopAll(st, fates, u).ok <==> forall k :: u <= k < 2 ==> fates(Stop(k)).Fine?
    ensures UndoStops(st, fates, u).ok <==> forall k :: u <= k < 2 ==> fates(UndoStop(k)).Fine?
    ensures StopAll(st, fates, u).ok ==> StopAll(st, fates, u).st == st
    ensures UndoStops(st, fates, u).ok ==> UndoStops(st, fates, u).st == st
    decreases 2 - u
  {
    if u < 2 {
      var o, b := Ask(st, fates(Stop(u))), Ask(st, fates(UndoStop(u)));
      if o.ok || b.ok { StopsExactly(st, fates, u + 1); }
    }
  }

  lemma {:induction false} ReplacesExactly(st: Install, job: Job, fates: Fates, i: nat)
    requires job.Ok() && st.up
    ensures ReplaceAll(st, job, fates, i).ok <==> forall k :: i <= k < 4 ==> fates(Replace(k)).Fine?
    ensures ReplaceAll(st, job, fates, i).ok ==> ReplaceAll(st, job, fates, i).st.up
    decreases 4 - i
  {
    if i < 4 && fates(Replace(i)).Fine? {
      ReplacesExactly(Put(st, job.paths[i], job.New(i), fates(Replace(i))).st, job, fates, i + 1);
    }
  }

  lemma {:induction false} UndoesExactly(st: Install, job: Job, fates: Fates, i: nat)
    requires job.Ok() && st.up
    ensures UndoAll(st, job, fates, i).ok <==> forall k :: i <= k < 4 ==> fates(UndoReplace(k)).Fine?
    ensures UndoAll(st, job, fates, i).ok ==> UndoAll(st, job, fates, i).st.up
    decreases 4 - i
  {
    if i < 4 && fates(UndoReplace(i)).Fine? {
      UndoesExactly(Put(st, job.paths[i], job.Old(i), fates(UndoReplace(i))).st, job, fates, i + 1);
    }
  }

  lemma {:induction false} RestartsExactly(st: Install, job: Job, fates: Fates, u: nat)
    requires job.Ok() && st.up
    ensures RestartAll(st, job, fates, u).ok <==>
              forall k :: u <= k < 2 && job.active[k] ==> fates(Restart(k)).Fine? && fates(Verify(k)).Fine?
    ensures RestartAll(st, job, fates, u).ok ==> RestartAll(st, job, fates, u).st == st
    decreases 2 - u
  {
    if u < 2 { RestartsExactly(st, job, fates, u + 1); }
  }

  lemma {:induction false} UndoRestartsExactly(st: Install, job: Job, fates: Fates, u: nat)
    requires job.Ok() && st.up
    ensures UndoRestarts(st, job, fates, u).ok <==>
              forall k :: u <= k < 2 && job.active[k] ==> fates(UndoRestart(k)).Fine? && fates(UndoVerify(k)).Fine?
    ensures UndoRestarts(st, job, fates, u).ok ==> UndoRestarts(st, job, fates, u).st == st
    decreases 2 - u
  {
    if u < 2 {
      var o := Ask(st, fates(UndoRestart(u)));
      var v := if o.ok then Ask(o.st, fates(UndoVerify(u))) else o;
      if !job.active[u] || v.ok { UndoRestartsExactly(st, job, fates, u + 1); }
    }
  }

  /** An upgrade succeeds exactly when no step of it failed, the check of a restarted unit among
      them; and it touches no file before both units are stopped and the phase says so. */
  lemma UpgradeSucceedsExactly(st: Install, job: Job, fates: Fates)
    requires job.Ok() && st.up
    ensures Upgrade(st, job, fates).ok <==> NothingFailed(job.active, fates)
    ensures Attempt(st, job, fates).st.files != st.files ==>
              fates(Stop(0)).Fine? && fates(Stop(1)).Fine? && fates(Mark(UReplacing)).Fine?
  {
    hide StopAll, ReplaceAll, RestartAll, Rollback;
    StopsExactly(st, fates, 0);
    StopAllKeeps(st, fates, 0);
    var marked := PutPhase(st, job, UReplacing, fates(Mark(UReplacing)));
    if marked.ok {
      ReplacesExactly(marked.st, job, fates, 0);
      var replaced := ReplaceAll(marked.st, job, fates, 0);
      if replaced.ok { RestartsExactly(replaced.st, job, fates, 0); }
    }
  }

  /** A rollback says that it restored everything exactly when all of it went well and it could say
      so. */
  lemma RollbackEndsExactly(st: Install, job: Job, fates: Fates)
    requires job.Ok() && st.dir.journal.Some? && !st.dir.journal.value.phase.URestored?
    ensures Rollback(st, job, fates).dir.journal == Some(job.Journal(URestored)) <==>
              st.up && AllPutBack(job.active, fates) && fates(Conclude).Applies()
    ensures Rollback(st, job, fates).dir.journal.Some?
    ensures Rollback(st, job, fates).dir.journal.value.phase.URestored? ==>
              Rollback(st, job, fates).dir.journal == Some(job.Journal(URestored))
  {
    if !st.up {
      DeadDoesNothing(st, job, fates, 0);
    } else {
      StopsExactly(st, fates, 0);
      UndoKeeps(st, job, fates, 0);
      var stopped := UndoStops(st, fates, 0);
      UndoAllWrites(stopped.st, job, fates, 0);
      if stopped.ok { UndoesExactly(stopped.st, job, fates, 0); }
      var undone := UndoAll(stopped.st, job, fates, 0);
      UndoKeeps(undone.st, job, fates, 0);
      if stopped.ok && undone.ok { UndoRestartsExactly(undone.st, job, fates, 0); }
    }
  }

  /** An upgrade that ends restored did fail, and everything is back and running. */
  lemma RestoredMeans(st: Install, job: Job, fates: Fates)
    requires job.Ok() && st.up && Unfinished(st.dir)
    ensures var o := Upgrade(st, job, fates);
            o.st.dir.journal.Some? && (o.st.dir.journal.value.phase.URestored? ==>
              !NothingFailed(job.active, fates) && AllPutBack(job.active, fates) && fates(Conclude).Applies())
  {
    hide Attempt, Rollback, NothingFailed, AllPutBack;
    UpgradeSucceedsExactly(st, job, fates);
    AttemptLeaves(st, job, fates);
    RollbackEndsExactly(Attempt(st, job, fates).st, job, fates);
  }

  lemma {:induction false} StopAllFine(st: Install, fates: Fates, u: nat)
    requires st.up && forall k :: fates(Stop(k)).Fine?
    ensures StopAll(st, fates, u) == Outcome(st, true)
    decreases 2 - u
  {
    if u < 2 { StopAllFine(st, fates, u + 1); }
  }

  lemma {:induction false} UndoStopsFine(st: Install, fates: Fates, u: nat)
    requires st.up && forall k :: fates(UndoStop(k)).Fine?
    ensures UndoStops(st, fates, u) == Outcome(st, true)
    decreases 2 - u
  {
    if u < 2 { UndoStopsFine(st, fates, u + 1); }
  }

  lemma {:induction false} RestartAllFine(st: Install, job: Job, fates: Fates, u: nat)
    requires job.Ok() && st.up && forall k :: fates(Restart(k)).Fine? && fates(Verify(k)).Fine?
    ensures RestartAll(st, job, fates, u) == Outcome(st, true)
    decreases 2 - u
  {
    if u < 2 { RestartAllFine(st, job, fates, u + 1); }
  }

  lemma ReplaceAllFine(st: Install, job: Job, fates: Fates, i: nat)
    requires job.Ok() && st.up && forall k :: fates(Replace(k)).Fine?
    ensures ReplaceAll(st, job, fates, i).ok && ReplaceAll(st, job, fates, i).st.up
    decreases 4 - i
  {
  }

  lemma {:induction false} CrashAt(st: Install, job: Job, fates: Fates, k: nat, i: nat)
    requires job.Ok() && st.up && k <= i < 4
    requires fates(UndoReplace(i)).CrashAfter? && forall j :: 0 <= j < i ==> fates(UndoReplace(j)).Fine?
    ensures var o := UndoAll(st, job, fates, k);
            && !o.ok && !o.st.up && o.st.dir == st.dir
            && (forall j :: k <= j <= i ==> job.paths[j] in o.st.files && o.st.files[job.paths[j]] == job.Old(j))
            && (forall j :: 0 <= j < 4 && !(k <= j <= i) && job.paths[j] in st.files ==>
                  job.paths[j] in o.st.files && o.st.files[job.paths[j]] == st.files[job.paths[j]])
    decreases i - k
  {
    var o := Put(st, job.paths[k], job.Old(k), fates(UndoReplace(k)));
    if k < i {
      CrashAt(o.st, job, fates, k + 1, i);
    } else {
      DeadDoesNothing(o.st, job, fates, k + 1);
    }
  }

  /** Exactly when the durable phase can be trusted after every failure and crash: the completed
      phase is never undone, or there is nothing to undo. */
  lemma PhaseIsTrustedExactly(st: Install, job: Job, done: Fate, announce: Fate)
    requires job.Ok() && st.up && Unfinished(st.dir)
    ensures (forall fates: Fates :: fates(Mark(UCompleted)) == done && fates(Announce) == announce ==>
               Truthful(Upgrade(st, job, fates).st, job))
       <==> (!UndoesCompleted(done, announce) || job.release == job.originals)
  {
    if !UndoesCompleted(done, announce) || job.release == job.originals {
      forall fates: Fates | fates(Mark(UCompleted)) == done && fates(Announce) == announce
        ensures Truthful(Upgrade(st, job, fates).st, job)
      {
        UpgradeLeaves(st, job, fates);
      }
    } else {
      var i :| 0 <= i < 4 && job.release[i] != job.originals[i];
      var fates := BrokenPipeThenCrash(done, announce, i);
      CompletedMixture(st, job, done, announce, i);
      assert job.Old(i) != job.New(i);
      assert fates(Mark(UCompleted)) == done && fates(Announce) == announce;
    }
  }
}
