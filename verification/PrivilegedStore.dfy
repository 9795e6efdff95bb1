/** Store handles on one privileged state file: every commit is a compare-and-swap on what the
    handle last saw, and a commit may fail even after its rename. */
module PrivilegedStore {
  import opened DurableWrites
  import opened Options
  import opened PrivilegedState

  /** The state file and, for the proof, every version it ever held. */
  class StateFile {
    var content: Option<State>
    ghost var versions: seq<State>
    ghost var changes: seq<Change>

    constructor ()
      ensures Valid() && content == None && versions == [INITIAL] && changes == []
    {
      content, versions, changes := None, [INITIAL], [];
    }

    /** A missing file stands for the initial state. */
    ghost predicate Valid()
      reads this
    {
      && History(versions, changes)
      && versions[|versions| - 1] == (if content.Some? then content.value else INITIAL)
      && (content.None? ==> |versions| == 1)
    }
  }

  /** The revision goes beyond what was applied or delivered, and there is room for its ACK. */
  predicate Newer(s: State, r: Revision) {
    && r.revision > s.applied && r.revision >= s.pendingRevision && r.sequence >= s.lastSequence
    && |s.outbox| < 1024
  }

  /** The revision is active, with its ACK, and nothing else has changed. */
  predicate Activated(before: State, after: State, r: Revision, ack: Receipt, now: int) {
    && after.active == r.settings && after.applied == r.revision && after.signedRevision == Some(r)
    && after.lastSequence == r.sequence && after.outbox == before.outbox + [ack]
    && after.previous == Some(before.active) && after.previousRevision == before.applied
    && after.pending.None? && after.pendingRevision == 0
    && after.rejected == before.rejected && after.updatedAt == now
  }

  class Store {
    const file: StateFile
    var state: State
    var diskHash: Option<State>   // the hash of the bytes last seen, taken to be collision-free

    /** Opens the file as it is now. */
    constructor (file: StateFile)
      requires file.Valid()
      ensures this.file == file && Valid() && Current()
    {
      this.file := file;
      state := if file.content.Some? then file.content.value else INITIAL;
      diskHash := file.content;
    }

    /** What a handle remembers is what it last read or wrote. */
    ghost predicate Valid()
      reads this
    {
      state == if diskHash.Some? then diskHash.value else INITIAL
    }

    ghost predicate Current()
      reads this, file
    {
      diskHash == file.content
    }

    /** Writes the next state if the file still is what this handle last saw. */
    method Commit(next: State, ghost c: Change, now: int, fate: Fate) returns (ok: bool)
      requires Valid() && file.Valid() && Allowed(state, c) && next == After(state, c)
      modifies this, file
      ensures Valid() && file.Valid()
      ensures ok <==> old(Current()) && fate.Fine?
      ensures ok ==> Current() && state == next.(updatedAt := now)
      ensures !ok ==> state == old(state) && diskHash == old(diskHash)
      ensures old(Current()) && !fate.Refused? ==>
                && file.content == Some(next.(updatedAt := now))
                && file.versions == old(file.versions) + [next.(updatedAt := now)]
                && file.changes == old(file.changes) + [c]
      ensures !old(Current()) || fate.Refused? ==>
                && file.content == old(file.content)
                && file.versions == old(file.versions) && file.changes == old(file.changes)
    {
      if file.content != diskHash || fate.Refused? { return false; }
      var written := next.(updatedAt := now);
      assert Follows(state, c, written);
      file.content := Some(written);
      file.versions := file.versions + [written];
      file.changes := file.changes + [c];
      if fate.LateSync? { return false; }
      state, diskHash := written, Some(written);
      ok := true;
    }

    /** Stores a delivered revision without applying any of it. */
    method RecordPending(r: Revision, now: int, fate: Fate) returns (ok: bool)
      requires Valid() && file.Valid()
      modifies this, file
      ensures Valid() && file.Valid()
      ensures ok <==> Allowed(old(state), Recorded(r)) && old(Current()) && fate.Fine?
      ensures ok ==> state == After(old(state), Recorded(r)).(updatedAt := now) && file.content == Some(state)
      ensures ok <==> r.revision > old(state).applied && r.revision >= old(state).pendingRevision
                      && r.sequence >= old(state).lastSequence && old(Current()) && fate.Fine?
      ensures ok ==> state == old(state).(
                pendingRevision := r.revision, pending := Some(r.settings), pendingInfo := r.info,
                lastSequence := r.sequence, updatedAt := now)
      ensures !ok ==> state == old(state)
    {
      if r.revision <= state.applied { return false; }
      if r.revision < state.pendingRevision || r.sequence < state.lastSequence { return false; }
      var next := state;
      next := next.(pendingRevision := r.revision, lastSequence := r.sequence, pending := Some(r.settings));
      next := next.(pendingInfo := r.info);
      ok := Commit(next, Recorded(r), now, fate);
    }

    /** Restores the previous settings, never wider ones. */
    method Rollback(now: int, fate: Fate) returns (ok: bool)
      requires Valid() && file.Valid()
      modifies this, file
      ensures Valid() && file.Valid()
      ensures ok <==> Allowed(old(state), RolledBack) && old(Current()) && fate.Fine?
      ensures ok ==> state == After(old(state), RolledBack).(updatedAt := now) && file.content == Some(state)
      ensures ok ==> Subset(state.active, old(state).active)
      ensures ok ==> old(state).previous.Some? && state == old(state).(
                active := old(state).previous.value, applied := old(state).previousRevision, signedRevision := None,
                previous := None, previousRevision := 0, updatedAt := now)
      ensures !ok ==> state == old(state)
    {
      if state.previous.None? { return false; }
      var next := state;
      var restored, revision := next.previous.value, next.previousRevision;
      if !Subset(restored, next.active) { return false; }
      next := next.(active := restored, applied := revision, signedRevision := None, previous := None,
                    previousRevision := 0);
      ok := Commit(next, RolledBack, now, fate);
    }

    /** Dropping nothing is not a failure and writes nothing. */
    method DiscardPending(now: int, fate: Fate) returns (ok: bool)
      requires Valid() && file.Valid()
      modifies this, file
      ensures Valid() && file.Valid()
      ensures old(state).pending.None? ==> ok && state == old(state) && file.content == old(file.content)
      ensures old(state).pending.Some? ==> (ok <==> old(Current()) && fate.Fine?)
      ensures ok && old(state).pending.Some? ==>
                && file.content == Some(state) && state.pending.None? && state.pendingRevision == 0
                && state == old(state).(pending := None, pendingRevision := 0, pendingInfo := state.pendingInfo,
                                        updatedAt := now)
      ensures !ok ==> state == old(state)
    {
      if state.pending.None? { return true; }
      ok := Commit(NoPending(state), Discarded, now, fate);
    }

    method CommitApproved(r: Revision, ack: Receipt, now: int, fate: Fate) returns (ok: bool)
      requires Valid() && file.Valid()
      modifies this, file
      ensures Valid() && file.Valid()
      ensures ok <==> Allowed(old(state), Approved(r, ack)) && old(Current()) && fate.Fine?
      ensures ok ==> state == After(old(state), Approved(r, ack)).(updatedAt := now) && file.content == Some(state)
      ensures ok <==> Newer(old(state), r) && old(Current()) && fate.Fine?
      ensures ok ==> Activated(old(state), state, r, ack, now)
      ensures !Newer(old(state), r) ==> file.content == old(file.content)
      ensures !ok ==> state == old(state) && diskHash == old(diskHash)
    {
      if r.revision <= state.applied || r.revision < state.pendingRevision { return false; }
      if r.sequence < state.lastSequence { return false; }
      if |state.outbox| >= OUTBOX_LIMIT { return false; }
      var next := state;
      next := next.(previous := Some(next.active), previousRevision := next.applied);
      next := next.(active := r.settings, applied := r.revision, signedRevision := Some(r), lastSequence := r.sequence);
      next := next.(outbox := next.outbox + [ack]);
      ok := Commit(NoPending(next), Approved(r, ack), now, fate);
    }

    /** A same-identity approval becomes active together with its ACK, and only while it lasts. */
    method ApplyApproved(r: Revision, actual: int, ack: Receipt, hash: Settings -> string, now: int,
                         fate: Fate) returns (ok: bool)
      requires Valid() && file.Valid()
      modifies this, file
      ensures Valid() && file.Valid()
      ensures ok <==>
                && r.authorization.Some?
                && ValidApproval(r, r.agentId, r.authorization.value.serviceId, actual, now, hash)
                && Allowed(old(state), Approved(r, ack)) && old(Current()) && fate.Fine?
      ensures ok <==>
                && r.signed && !r.baseline && r.delivery.AwaitingAgent? && r.protocolVersion == 2
                && r.revision > 0 && r.generation > 0 && r.configHash == hash(r.settings)
                && r.authorization.Some?
                && var a := r.authorization.value;
                && !a.unknownFields && a.actions == 0 && a.serviceId != "" && a.nonce != "" && a.approvedBy != ""
                && a.agentId == r.agentId && a.revision == r.revision && a.generation == r.generation
                && a.configHash == r.configHash && a.targetMode == r.settings.mode == actual
                && a.issuedAt < a.expiresAt && a.issuedAt <= now + 60 && now < a.expiresAt
                && Newer(old(state), r) && old(Current()) && fate.Fine?
      ensures ok ==> Activated(old(state), state, r, ack, now) && state.active.mode == actual
                     && file.content == Some(state)
      ensures r.authorization.Some? && now >= r.authorization.value.expiresAt ==>
                !ok && file.content == old(file.content) && file.versions == old(file.versions)
      ensures !ok ==> state == old(state) && diskHash == old(diskHash)
    {
      if r.authorization.None? { return false; }
      if !ValidApproval(r, r.agentId, r.authorization.value.serviceId, actual, now, hash) { return false; }
      ok := CommitApproved(r, ack, now, fate);
    }

    /** A host-applied approval needs the panel's completed operation (`operationBinds`). */
    method ApplyHostApproved(r: Revision, operationBinds: bool, actual: int, ack: Receipt, hash: Settings -> string,
                             now: int, fate: Fate)
      returns (ok: bool)
      requires Valid() && file.Valid()
      modifies this, file
      ensures Valid() && file.Valid()
      ensures ok <==>
                && r.delivery.Applying? && r.protocolVersion == 2 && operationBinds
                && r.settings.mode == actual && r.configHash == hash(r.settings)
                && Newer(old(state), r) && old(Current()) && fate.Fine?
      ensures ok ==> Activated(old(state), state, r, ack, now) && file.content == Some(state)
      ensures !ok ==> state == old(state)
    {
      if !r.delivery.Applying? || r.protocolVersion != 2 || !operationBinds || r.settings.mode != actual
         || r.configHash != hash(r.settings) {
        return false;
      }
      ok := CommitApproved(r, ack, now, fate);
    }

    /** The first baseline; it never replaces a later history. */
    method AdoptBaseline(r: Revision, local: Settings, actual: int, ack: Receipt, hash: Settings -> string, now: int,
                         fate: Fate)
      returns (ok: bool)
      requires Valid() && file.Valid()
      modifies this, file
      ensures Valid() && file.Valid()
      ensures ok <==>
                && ValidBaseline(r, local, actual, hash) && Allowed(old(state), Adopted(r, local, ack))
                && old(Current()) && fate.Fine?
      ensures ok ==>
                && r.baseline && r.revision == 1 && r.protocolVersion == 2 && r.generation == 1
                && local.mode == actual && !local.rescueHelper && r.settings == local && r.configHash == hash(local)
                && r.authorization.Some? && r.authorization.value.actions == 0 && r.authorization.value.serviceId != ""
                && old(state).applied <= 1 && old(state).pendingRevision <= 1
                && (old(state).applied == 1 ==> old(state).active == local)
      ensures ok ==>
                && state.active == local && state.applied == 1 && state.signedRevision == Some(r)
                && state.outbox == old(state).outbox + [ack] && state.pending.None? && state.pendingRevision == 0
                && state.previous == old(state).previous && state.lastSequence == old(state).lastSequence
                && state.rejected == old(state).rejected
      ensures ok ==>
                && state == After(old(state), Adopted(r, local, ack)).(updatedAt := now)
                && file.content == Some(state)
      ensures !ok ==> state == old(state)
    {
      if !r.baseline || r.revision != 1 || r.protocolVersion != 2 || r.generation != 1 { return false; }
      if local.mode != actual || local.rescueHelper || r.settings != local { return false; }
      if r.configHash != hash(local) { return false; }
      if r.authorization.None? || r.authorization.value.actions != 0 { return false; }
      if r.authorization.value.serviceId == "" { return false; }
      if state.applied > 1 || state.pendingRevision > 1 { return false; }
      if state.applied == 1 && state.active != local { return false; }
      if |state.outbox| >= OUTBOX_LIMIT { return false; }
      var next := state.(active := local, applied := 1, signedRevision := Some(r), outbox := state.outbox + [ack]);
      ok := Commit(NoPending(next), Adopted(r, local, ack), now, fate);
    }

    /** Appends a receipt once; the same ID again is accepted and changes nothing. */
    method Enqueue(receipt: Receipt, now: int, fate: Fate) returns (ok: bool)
      requires Valid() && file.Valid()
      modifies this, file
      ensures Valid() && file.Valid()
      ensures ok <==> |old(state).outbox| < OUTBOX_LIMIT
                      && ((exists r :: r in old(state).outbox && r.id == receipt.id) || (old(Current()) && fate.Fine?))
      ensures ok && (forall r :: r in old(state).outbox ==> r.id != receipt.id) ==>
                && state == old(state).(outbox := old(state).outbox + [receipt], updatedAt := now)
                && file.content == Some(state)
      ensures ok && (exists r :: r in old(state).outbox && r.id == receipt.id) ==>
                state == old(state) && file.content == old(file.content)
      ensures !ok ==> state == old(state)
      ensures file.changes == old(file.changes) || file.changes == old(file.changes) + [Enqueued(receipt)]
    {
      if |state.outbox| >= OUTBOX_LIMIT { return false; }
      for i := 0 to |state.outbox|
        invariant forall k :: 0 <= k < i ==> state.outbox[k].id != receipt.id
      {
        if state.outbox[i].id == receipt.id {
          assert state.outbox[i] in state.outbox;
          return true;
        }
      }
      var next := state.(outbox := state.outbox + [receipt]);
      assert receipt in next.outbox;
      ok := Commit(next, Enqueued(receipt), now, fate);
    }

    /** Takes a receipt out of the outbox and, with a reason, into the rejected log. */
    method FinishReceipt(id: string, reason: string, stamp: string, now: int, fate: Fate) returns (ok: bool)
      requires Valid() && file.Valid()
      modifies this, file
      ensures Valid() && file.Valid()
      ensures ok <==> old(Current()) && fate.Fine?
      ensures ok ==>
                && state == After(old(state), Finished(id, reason, stamp)).(updatedAt := now)
                && file.content == Some(state)
      ensures !ok ==> state == old(state)
      ensures file.changes == old(file.changes) || file.changes == old(file.changes) + [Finished(id, reason, stamp)]
    {
      hide Without, Stamped;
      var pending, rejected := SplitOutbox(state.outbox, state.rejected, id, reason, stamp);
      var next := state.(outbox := pending, rejected := rejected);
      if |next.rejected| > REJECTED_LIMIT {
        next := next.(rejected := next.rejected[|next.rejected| - REJECTED_LIMIT..]);
      }
      ok := Commit(next, Finished(id, reason, stamp), now, fate);
    }
  }

  /** The receipts that stay, and the rejected log with those that go for a reason. */
  method SplitOutbox(outbox: seq<Receipt>, log: seq<Receipt>, id: string, reason: string, stamp: string)
    returns (pending: seq<Receipt>, rejected: seq<Receipt>)
    ensures pending == Without(outbox, id)
    ensures rejected == log + if reason == "" then [] else Stamped(outbox, id, stamp)
  {
    hide Without, Stamped;
    pending, rejected := [], log;
    NothingSplit(id, stamp);
    for i := 0 to |outbox|
      invariant pending + Without(outbox[i..], id) == Without(outbox, id)
      invariant reason == "" ==> rejected == log
      invariant reason != "" ==> rejected + Stamped(outbox[i..], id, stamp) == log + Stamped(outbox, id, stamp)
    {
      var r := outbox[i];
      SplitFirst(outbox, i, id, stamp);
      if r.id != id {
        pending := pending + [r];
        continue;
      }
      if reason != "" { rejected := rejected + [r.(rejected := stamp)]; }
    }
    assert outbox[|outbox|..] == [];
  }

  lemma NothingSplit(id: string, stamp: string)
    ensures Without([], id) == [] && Stamped([], id, stamp) == []
  {
  }

  lemma SplitFirst(outbox: seq<Receipt>, i: nat, id: string, stamp: string)
    requires i < |outbox|
    ensures Without(outbox[i..], id) == (if outbox[i].id == id then [] else [outbox[i]]) + Without(outbox[i + 1..], id)
    ensures Stamped(outbox[i..], id, stamp) ==
            (if outbox[i].id == id then [outbox[i].(rejected := stamp)] else []) + Stamped(outbox[i + 1..], id, stamp)
  {
    assert outbox[i..][0] == outbox[i] && outbox[i..][1..] == outbox[i + 1..];
  }

  // ---- several handles ---------------------------------------------------------------------

  /** A commit of any change that fails after its rename leaves the next version on disk, and a
      handle that is stale unless that version is what the handle last saw. */
  method LateFailureMakesStale(s: Store, c: Change, now: int) returns (ok: bool)
    requires s.Valid() && s.file.Valid() && s.Current() && Allowed(s.state, c)
    modifies s, s.file
    ensures !ok && s.Valid() && s.file.Valid() && s.state == old(s.state) && s.diskHash == old(s.diskHash)
    ensures s.file.content == Some(After(old(s.state), c).(updatedAt := now))
    ensures s.Current() <==> s.file.content == old(s.file.content)
  {
    ok := s.Commit(After(s.state, c), c, now, LateSync);
  }

  // ---- turns as a function -----------------------------------------------------------------

  datatype Turn = Use(handle: nat, change: Change, now: int, fate: Fate) | Reopen(handle: nat)

  /** The file with every version it ever held, and what each handle has last seen of it. */
  datatype World = World(
    content: Option<State>, versions: seq<State>, changes: seq<Change>, seen: seq<Option<State>>)

  function StateIn(content: Option<State>): State {
    if content.Some? then content.value else INITIAL
  }

  /** A change is written if the file still is what the handle has seen. */
  predicate Writes(w: World, turn: Turn) {
    && turn.Use? && turn.handle < |w.seen| && w.content == w.seen[turn.handle]
    && Allowed(StateIn(w.content), turn.change) && !turn.fate.Refused?
  }

  function Turned(w: World, turn: Turn): World {
    if Writes(w, turn) then
      var next := After(StateIn(w.content), turn.change).(updatedAt := turn.now);
      World(Some(next), w.versions + [next], w.changes + [turn.change],
            if turn.fate.Fine? then w.seen[turn.handle := Some(next)] else w.seen)
    else if turn.Reopen? && turn.handle < |w.seen| then w.(seen := w.seen[turn.handle := w.content])
    else w
  }

  function Run(w: World, turns: seq<Turn>): World {
    if turns == [] then w else Turned(Run(w, turns[..|turns| - 1]), turns[|turns| - 1])
  }

  /** Whether a turn reports success. */
  predicate Succeeds(w: World, turn: Turn) {
    Writes(w, turn) && turn.fate.Fine?
  }

  ghost function SeenBy(handles: seq<Store>): (seen: seq<Option<State>>)
    reads handles
    ensures |seen| == |handles| && forall i :: 0 <= i < |handles| ==> seen[i] == handles[i].diskHash
  {
    seq(|handles|, i requires 0 <= i < |handles| reads handles => handles[i].diskHash)
  }

  ghost function WorldOf(file: StateFile, handles: seq<Store>): World
    reads file, handles
  {
    World(file.content, file.versions, file.changes, SeenBy(handles))
  }

  ghost predicate HandlesOf(file: StateFile, handles: seq<Store>)
    reads file, handles
  {
    && file.Valid()
    && (forall i :: 0 <= i < |handles| ==> handles[i].file == file && handles[i].Valid())
    && (forall i, j :: 0 <= i < j < |handles| ==> handles[i] != handles[j])
  }

  method UseHandle(file: StateFile, handles: seq<Store>, turn: Turn) returns (ok: bool)
    requires HandlesOf(file, handles) && turn.Use? && turn.handle < |handles|
    modifies file, handles
    ensures HandlesOf(file, handles)
    ensures WorldOf(file, handles) == Turned(old(WorldOf(file, handles)), turn)
    ensures ok == Succeeds(old(WorldOf(file, handles)), turn)
  {
    hide History, Allowed, After;
    ok := false;
    var s := handles[turn.handle];
    if Allowed(s.state, turn.change) { ok := s.Commit(After(s.state, turn.change), turn.change, turn.now, turn.fate); }
  }

  /** One turn of one handle: a commit of an allowed change, or the handle opened anew. */
  method TakeTurn(file: StateFile, handles: seq<Store>, turn: Turn) returns (now: seq<Store>, ok: bool)
    requires HandlesOf(file, handles)
    modifies file, handles
    ensures HandlesOf(file, now) && |now| == |handles|
    ensures forall i :: 0 <= i < |now| ==> now[i] in handles || fresh(now[i])
    ensures WorldOf(file, now) == Turned(old(WorldOf(file, handles)), turn)
    ensures ok == Succeeds(old(WorldOf(file, handles)), turn)
  {
    hide History, Allowed, After;
    now, ok := handles, false;
    if turn.handle >= |now| { return; }
    match turn
    case Use(handle, change, time, fate) =>
      ok := UseHandle(file, handles, turn);
    case Reopen(handle) =>
      var s := new Store(file);
      now := now[handle := s];
  }

  /** What the first `n` turns report. */
  ghost predicate Reports(w: World, turns: seq<Turn>, n: nat, oks: seq<bool>) {
    n == |oks| <= |turns| && forall k :: 0 <= k < n ==> oks[k] == Succeeds(Run(w, turns[..k]), turns[k])
  }

  lemma OneMoreReport(w: World, turns: seq<Turn>, n: nat, oks: seq<bool>, ok: bool)
    requires n < |turns| && Reports(w, turns, n, oks) && ok == Succeeds(Run(w, turns[..n]), turns[n])
    ensures Reports(w, turns, n + 1, oks + [ok])
    ensures Run(w, turns[..n + 1]) == Turned(Run(w, turns[..n]), turns[n])
  {
    hide Succeeds, Turned;
    assert turns[..n + 1][..n] == turns[..n];
  }

  lemma NothingReported(w: World, turns: seq<Turn>)
    ensures Reports(w, turns, 0, []) && Run(w, turns[..0]) == w && turns[..|turns|] == turns
  {
  }

  /** Any turns of any handles, some of them reopened, leave one linear history in which every
      version was computed from exactly the one before it. */
  method TakeTurns(file: StateFile, handles: seq<Store>, turns: seq<Turn>) returns (now: seq<Store>, oks: seq<bool>)
    requires HandlesOf(file, handles)
    modifies file, handles
    ensures HandlesOf(file, now) && |now| == |handles|
    ensures WorldOf(file, now) == Run(old(WorldOf(file, handles)), turns)
    ensures Reports(old(WorldOf(file, handles)), turns, |turns|, oks)
  {
    hide *;
    ghost var before := WorldOf(file, handles);
    now, oks := handles, [];
    NothingReported(before, turns);
    for n := 0 to |turns|
      invariant HandlesOf(file, now) && |now| == |handles|
      invariant forall i :: 0 <= i < |now| ==> now[i] in handles || fresh(now[i])
      invariant WorldOf(file, now) == Run(before, turns[..n]) && Reports(before, turns, n, oks)
    {
      var ok;
      now, ok := TakeTurn(file, now, turns[n]);
      OneMoreReport(before, turns, n, oks, ok);
      oks := oks + [ok];
    }
  }

  // ---- stale handles -----------------------------------------------------------------------

  /** Through all turns handle `h` is not reopened and the file is never what it has seen. */
  ghost predicate StaysStale(w: World, turns: seq<Turn>, h: nat)
    requires h < |w.seen|
  {
    && (forall k :: 0 <= k < |turns| ==> turns[k] != Reopen(h))
    && (forall k :: 0 <= k <= |turns| ==> Run(w, turns[..k]).content != w.seen[h])
  }

  lemma StaleTurn(w: World, turn: Turn, h: nat)
    requires h < |w.seen| && w.content != w.seen[h] && turn != Reopen(h)
    ensures |Turned(w, turn).seen| == |w.seen| && Turned(w, turn).seen[h] == w.seen[h]
    ensures turn.handle == h ==> !Succeeds(w, turn) && Turned(w, turn) == w
  {
  }

  /** A handle whose last view is not what is on disk: whatever all handles do, every commit of it is
      refused and its view stays the same, until it is reopened or the disk is again what it saw. */
  lemma {:induction false} StaleHandleIsRefused(w: World, turns: seq<Turn>, h: nat)
    requires h < |w.seen| && StaysStale(w, turns, h)
    ensures |Run(w, turns).seen| == |w.seen| && Run(w, turns).seen[h] == w.seen[h]
    ensures forall k :: 0 <= k < |turns| && turns[k].handle == h ==>
              !Succeeds(Run(w, turns[..k]), turns[k]) && Run(w, turns[..k + 1]) == Run(w, turns[..k])
  {
    hide Turned, Succeeds;
    if turns != [] {
      var n := |turns| - 1;
      forall k | 0 <= k <= n ensures turns[..n][..k] == turns[..k] {
      }
      StaleHandleIsRefused(w, turns[..n], h);
      assert turns[..n + 1] == turns;
      assert Run(w, turns[..n]).content != w.seen[h];
      StaleTurn(Run(w, turns[..n]), turns[n], h);
      forall k | 0 <= k < n && turns[k].handle == h
        ensures !Succeeds(Run(w, turns[..k]), turns[k]) && Run(w, turns[..k + 1]) == Run(w, turns[..k])
      {
        assert turns[..n][k] == turns[k] && turns[..n][..k + 1] == turns[..k + 1];
      }
    }
  }

  /** A turn that succeeds was computed from exactly what was on disk, and the disk then holds it. */
  lemma SuccessIsFromDisk(w: World, turn: Turn)
    requires Succeeds(w, turn)
    ensures var next := Turned(w, turn);
            && w.seen[turn.handle] == w.content
            && next.content == Some(After(StateIn(w.content), turn.change).(updatedAt := turn.now))
            && next.versions == w.versions + [next.content.value] && next.seen[turn.handle] == next.content
            && forall h :: 0 <= h < |w.seen| && h != turn.handle ==> next.seen[h] == w.seen[h]
  {
  }
}
