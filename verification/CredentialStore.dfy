/** The enrolled identity on disk and the two-step refresh of its credentials. */
module CredentialStore {
  import opened DurableWrites
  import opened Options

  type uint64 = x: int | 0 <= x < 0x1_0000_0000_0000_0000

  function Successor(n: uint64): uint64 {
    if n == 0xffff_ffff_ffff_ffff then 0 else n + 1
  }

  datatype Attempt = Attempt(id: string, startedAt: int)

  datatype Token = Token(value: string, expiresAt: int)

  /** The pinned signing keys with the verification policy. */
  datatype Pins = Pins(keys: seq<string>, algorithms: seq<int>, requireAll: bool, minimum: nat)

  datatype Identity = Identity(
    endpoint: string, agentId: string, keypair: string, generation: Option<uint64>, pending: Option<Attempt>,
    access: Token, refresh: Token, scopes: seq<string>, pins: Pins, enrolledAt: int, updatedAt: int)

  /** The identity file and, for the proof, every refresh ever begun (with the generation it was
      begun at) and the refreshes that were committed. */
  class IdentityFile {
    var content: Option<Identity>
    ghost var begun: map<string, Option<uint64>>
    ghost var committed: set<string>

    constructor (content: Option<Identity>)
      requires content.Some? ==> content.value.pending.None?
      ensures this.content == content && begun == map[] && committed == {}
    {
      this.content, begun, committed := content, map[], {};
    }
  }

  /** A pending refresh was begun at the current generation and is not committed yet. */
  ghost predicate Tracked(identity: Option<Identity>, begun: map<string, Option<uint64>>, committed: set<string>) {
    identity.Some? && identity.value.pending.Some? ==>
      var id := identity.value.pending.value.id;
      id in begun && begun[id] == identity.value.generation && id !in committed
  }

  function PendingId(identity: Option<Identity>): Option<string> {
    if identity.Some? && identity.value.pending.Some? then Some(identity.value.pending.value.id) else None
  }

  /** The pair belongs to the pending refresh and advances a known generation by one. */
  predicate Commits(current: Option<Identity>, before: Identity, after: Identity) {
    && PendingId(current).Some? && before.pending.Some? && PendingId(current) == Some(before.pending.value.id)
    && current.value.refresh.value == before.refresh.value && current.value.agentId == before.agentId
    && after.agentId == before.agentId && after.generation.Some?
    && (before.generation.Some? ==> after.generation.value == Successor(before.generation.value))
  }

  // ---- the operations as functions ---------------------------------------------------------

  datatype Step =
    | Begin(newId: string, now: int, fate: Fate)
    | Commit(before: Identity, after: Identity, now: int, fate: Fate)
    | Pin(pins: Pins, now: int, fate: Fate)
    | Update(agentId: string, access: Token, refresh: Token, scopes: seq<string>, now: int, fate: Fate)
    | Reopen

  /** What a step returned: the ID of a begun refresh, a committed ID, or nothing of interest. */
  datatype Outcome = Begun(id: string) | Committed(id: string) | Other

  /** The identity as the store holds it and as it is on disk. */
  datatype Held = Held(memory: Option<Identity>, disk: Option<Identity>)

  function Persisted(h: Held, next: Identity, fate: Fate): Held {
    Held(if fate.Fine? then Some(next) else h.memory, if fate.Refused? then h.disk else Some(next))
  }

  function Refreshed(was: Identity, agentId: string, access: Token, refresh: Token, scopes: seq<string>,
                     now: int): Identity {
    was.(agentId := if agentId != "" then agentId else was.agentId, access := access,
         refresh := if refresh.value != "" then refresh else was.refresh,
         scopes := if scopes != [] then scopes else was.scopes, updatedAt := now)
  }

  predicate CanBegin(h: Held) {
    h.memory.Some? && h.memory.value.refresh.value != ""
  }

  function Turned(h: Held, step: Step): Held {
    match step
    case Begin(newId, now, fate) =>
      if !CanBegin(h) || h.memory.value.pending.Some? then h
      else Persisted(h, h.memory.value.(pending := Some(Attempt(newId, now)), updatedAt := now), fate)
    case Commit(before, after, now, fate) =>
      if !Commits(h.memory, before, after) then h
      else Persisted(h, after.(pending := None, enrolledAt := h.memory.value.enrolledAt, updatedAt := now), fate)
    case Pin(pins, now, fate) =>
      if h.memory.None? then h else Persisted(h, h.memory.value.(pins := pins, updatedAt := now), fate)
    case Update(agentId, access, refresh, scopes, now, fate) =>
      if h.memory.None? then h
      else Persisted(h, Refreshed(h.memory.value, agentId, access, refresh, scopes, now), fate)
    case Reopen => Held(h.disk, h.disk)
  }

  function Returned(h: Held, step: Step): Outcome {
    match step
    case Begin(newId, _, fate) =>
      if !CanBegin(h) then Other
      else if h.memory.value.pending.Some? then Begun(h.memory.value.pending.value.id)
      else if fate.Fine? then Begun(newId) else Other
    case Commit(before, after, _, fate) =>
      if Commits(h.memory, before, after) && fate.Fine? then Committed(before.pending.value.id) else Other
    case Pin(_, _, _) => Other
    case Update(_, _, _, _, _, _) => Other
    case Reopen => Other
  }

  function Run(h: Held, steps: seq<Step>): Held {
    if steps == [] then h else Turned(Run(h, steps[..|steps| - 1]), steps[|steps| - 1])
  }

  class Store {
    const file: IdentityFile
    var identity: Option<Identity>
    ghost var lateCommit: bool   // the last write was a commit that failed after its rename

    constructor (file: IdentityFile)
      requires Tracked(file.content, file.begun, file.committed) && file.committed <= file.begun.Keys
      ensures this.file == file && Valid() && identity == file.content && !lateCommit
    {
      this.file := file;
      identity := file.content;
      lateCommit := false;
    }

    ghost predicate Valid()
      reads this, file
    {
      && Tracked(identity, file.begun, file.committed)
      && Tracked(file.content, file.begun, file.committed)
      && (PendingId(identity).Some? ==> (lateCommit <==> PendingId(file.content) != PendingId(identity)))
      && (lateCommit ==> PendingId(identity).Some?)
      && file.committed <= file.begun.Keys
    }

    ghost function Now(): Held
      reads this, file
    {
      Held(identity, file.content)
    }

    method Persist(next: Identity, fate: Fate) returns (ok: bool)
      modifies file`content
      ensures ok <==> fate.Fine?
      ensures file.content == if fate.Refused? then old(file.content) else Some(next)
    {
      if fate.Refused? { return false; }
      file.content := Some(next);
      ok := fate.Fine?;
    }

    /** Has the refresh on disk before any request leaves the host, and returns the pending one
        again on every retry.  The ID is on disk unless a commit has failed late before. */
    method BeginRefresh(newId: string, now: int, fate: Fate) returns (begun: Option<Identity>)
      requires Valid() && newId !in file.begun
      modifies this, file
      ensures Valid() && file.committed == old(file.committed) && lateCommit == old(lateCommit)
      ensures Now() == Turned(old(Now()), Begin(newId, now, fate))
      ensures begun.Some? <==> old(identity).Some? && old(identity).value.refresh.value != ""
                               && (old(PendingId(identity)).Some? || fate.Fine?)
      ensures begun.Some? ==> begun == identity && PendingId(begun).Some?
      ensures begun.Some? && old(PendingId(identity)).None? ==>
                begun.value == old(identity).value.(pending := Some(Attempt(newId, now)), updatedAt := now)
      ensures begun.Some? ==>
                PendingId(begun) == if old(PendingId(identity)).Some? then old(PendingId(identity)) else Some(newId)
      ensures begun.Some? ==> (PendingId(file.content) == PendingId(begun) <==> !lateCommit)
      ensures begun.Some? ==>
                PendingId(begun).value in file.begun && file.begun[PendingId(begun).value] == begun.value.generation
      ensures file.begun.Keys <= old(file.begun.Keys) + {newId}
      ensures begun.None? ==> identity == old(identity)
      ensures old(PendingId(identity)).Some? ==> identity == old(identity) && file.content == old(file.content)
      ensures old(PendingId(identity)).None? && begun.Some? ==> file.content == begun
    {
      if identity.None? || identity.value.refresh.value == "" { return None; }
      var next := identity.value;
      if next.pending.None? {
        next := next.(pending := Some(Attempt(newId, now)), updatedAt := now);
        file.begun := file.begun[newId := next.generation];
        var ok := Persist(next, fate);
        if !ok { return None; }
        identity := Some(next);
      }
      begun := Some(next);
    }

    /** Publishes the result of the pending refresh, once. */
    method CommitRefresh(before: Identity, after: Identity, now: int, fate: Fate) returns (ok: bool)
      requires Valid()
      modifies this, file
      ensures Valid() && file.begun == old(file.begun)
      ensures Now() == Turned(old(Now()), Commit(before, after, now, fate))
      ensures ok <==> fate.Fine? && Commits(old(identity), before, after)
      ensures ok <==>
                && fate.Fine? && old(identity).Some? && old(identity).value.pending.Some? && before.pending.Some?
                && old(identity).value.pending.value.id == before.pending.value.id
                && old(identity).value.refresh.value == before.refresh.value
                && old(identity).value.agentId == before.agentId == after.agentId && after.generation.Some?
                && (before.generation.Some? ==>
                      after.generation.value == (before.generation.value + 1) % 0x1_0000_0000_0000_0000)
      ensures ok ==> identity == file.content && PendingId(identity).None?
      ensures file.content == if Commits(old(identity), before, after) && !fate.Refused?
                              then Some(after.(pending := None, enrolledAt := old(identity).value.enrolledAt,
                                               updatedAt := now))
                              else old(file.content)
      ensures ok ==>
                && before.pending.value.id !in old(file.committed)
                && file.committed == old(file.committed) + {before.pending.value.id}
      ensures ok ==> before.pending.value.id in file.begun
      ensures ok && before.generation.Some? && file.begun[before.pending.value.id] == before.generation ==>
                && old(identity).value.generation == before.generation
                && identity.value.generation == Some(Successor(before.generation.value))
      ensures !ok ==> identity == old(identity) && file.committed == old(file.committed)
      ensures lateCommit <==> (fate.LateSync? && Commits(old(identity), before, after))
                              || (old(lateCommit) && !(fate.Fine? && Commits(old(identity), before, after)))
    {
      if identity.None? || before.pending.None? || identity.value.pending.None?
         || identity.value.refresh.value != before.refresh.value || identity.value.agentId != before.agentId
         || identity.value.pending.value.id != before.pending.value.id || after.agentId != before.agentId
         || after.generation.None? {
        return false;
      }
      if before.generation.Some? && after.generation.value != Successor(before.generation.value) { return false; }
      var next := after.(pending := None, enrolledAt := identity.value.enrolledAt, updatedAt := now);
      ok := Persist(next, fate);
      if fate.LateSync? { lateCommit := true; }
      if !ok { return; }
      identity := Some(next);
      lateCommit := false;
      file.committed := file.committed + {before.pending.value.id};
    }

    method PinTrustBundle(pins: Pins, now: int, fate: Fate) returns (ok: bool)
      requires Valid()
      modifies this, file
      ensures Valid() && file.begun == old(file.begun) && file.committed == old(file.committed)
      ensures Now() == Turned(old(Now()), Pin(pins, now, fate))
      ensures ok <==> old(identity).Some? && fate.Fine?
      ensures ok ==> identity == file.content == Some(old(identity).value.(pins := pins, updatedAt := now))
      ensures !ok ==> identity == old(identity)
      ensures lateCommit == (old(lateCommit) && (identity.None? || fate.Refused?))
    {
      if identity.None? { return false; }
      var next := identity.value.(pins := pins, updatedAt := now);
      ok := Persist(next, fate);
      if !fate.Refused? { lateCommit := false; }
      if ok { identity := Some(next); }
    }

    /** A rotated pair; an empty refresh token or scope list keeps the old one. */
    method UpdateCredentials(agentId: string, access: Token, refresh: Token, scopes: seq<string>, now: int, fate: Fate)
      returns (ok: bool)
      requires Valid()
      modifies this, file
      ensures Valid() && file.begun == old(file.begun) && file.committed == old(file.committed)
      ensures ok <==> old(identity).Some? && fate.Fine?
      ensures Now() == Turned(old(Now()), Update(agentId, access, refresh, scopes, now, fate))
      ensures ok ==> identity == file.content
                     && var was := old(identity).value;
                        identity == Some(was.(agentId := if agentId != "" then agentId else was.agentId,
                                              access := access,
                                              refresh := if refresh.value != "" then refresh else was.refresh,
                                              scopes := if scopes != [] then scopes else was.scopes, updatedAt := now))
      ensures PendingId(identity) == old(PendingId(identity))
      ensures !ok ==> identity == old(identity)
      ensures lateCommit == (old(lateCommit) && (identity.None? || fate.Refused?))
    {
      if identity.None? { return false; }
      var next := identity.value;
      if agentId != "" { next := next.(agentId := agentId); }
      next := next.(access := access);
      if refresh.value != "" { next := next.(refresh := refresh); }
      if |scopes| > 0 { next := next.(scopes := scopes); }
      next := next.(updatedAt := now);
      ok := Persist(next, fate);
      if !fate.Refused? { lateCommit := false; }
      if ok { identity := Some(next); }
    }
  }

  // ---- whole runs --------------------------------------------------------------------------

  method Take(s: Store, step: Step) returns (now: Store, outcome: Outcome)
    requires s.Valid() && (step.Begin? ==> step.newId !in s.file.begun)
    modifies s, s.file
    ensures now.Valid() && now.file == s.file && (now == s || fresh(now))
    ensures now.Now() == Turned(old(s.Now()), step) && outcome == Returned(old(s.Now()), step)
    ensures outcome.Committed? ==> old(PendingId(s.identity)) == Some(outcome.id)
    ensures outcome.Committed? ==>
              outcome.id !in old(s.file.committed) && s.file.committed == old(s.file.committed) + {outcome.id}
    ensures !outcome.Committed? ==> s.file.committed == old(s.file.committed)
    ensures s.file.begun.Keys <= old(s.file.begun.Keys) + if step.Begin? then {step.newId} else {}
    ensures !outcome.Committed? && !(step.Commit? && step.fate.LateSync?) && !old(s.lateCommit)
              && old(PendingId(s.identity)).Some? ==>
              PendingId(now.identity) == old(PendingId(s.identity)) && !now.lateCommit
    ensures outcome.Begun? && !old(s.lateCommit) ==> PendingId(s.file.content) == Some(outcome.id)
    ensures outcome.Begun? && old(PendingId(s.identity)).Some? ==> Some(outcome.id) == old(PendingId(s.identity))
  {
    now, outcome := s, Other;
    match step
    case Begin(newId, time, fate) =>
      var begun := s.BeginRefresh(newId, time, fate);
      if begun.Some? { outcome := Begun(PendingId(begun).value); }
    case Commit(before, after, time, fate) =>
      var ok := s.CommitRefresh(before, after, time, fate);
      if ok { outcome := Committed(before.pending.value.id); }
    case Pin(pins, time, fate) =>
      var ok := s.PinTrustBundle(pins, time, fate);
    case Update(agentId, access, refresh, scopes, time, fate) =>
      var ok := s.UpdateCredentials(agentId, access, refresh, scopes, time, fate);
    case Reopen =>
      now := new Store(s.file);
  }

  /** IDs are drawn at random: none is drawn twice, or was drawn before. */
  ghost predicate FreshIds(steps: seq<Step>, drawn: set<string>) {
    && (forall i :: 0 <= i < |steps| && steps[i].Begin? ==> steps[i].newId !in drawn)
    && (forall i, j :: 0 <= i < j < |steps| && steps[i].Begin? && steps[j].Begin? ==> steps[i].newId != steps[j].newId)
  }

  /** What the first `n` steps return. */
  ghost predicate Outcomes(h: Held, steps: seq<Step>, n: nat, outcomes: seq<Outcome>) {
    n == |outcomes| <= |steps| && forall k :: 0 <= k < n ==> outcomes[k] == Returned(Run(h, steps[..k]), steps[k])
  }

  lemma OneMoreReturned(h: Held, steps: seq<Step>, n: nat, outcomes: seq<Outcome>, outcome: Outcome)
    requires n < |steps| && Outcomes(h, steps, n, outcomes) && outcome == Returned(Run(h, steps[..n]), steps[n])
    ensures Outcomes(h, steps, n + 1, outcomes + [outcome])
    ensures Run(h, steps[..n + 1]) == Turned(Run(h, steps[..n]), steps[n])
  {
    hide Returned, Turned;
    assert steps[..n + 1][..n] == steps[..n];
  }

  lemma NothingReturned(h: Held, steps: seq<Step>)
    ensures Outcomes(h, steps, 0, []) && Run(h, steps[..0]) == h
  {
  }

  /** No refresh is committed twice, whichever writes fail, early or late, and however often the
      file is reopened. */
  method CommittedAtMostOnce(s: Store, steps: seq<Step>) returns (outcomes: seq<Outcome>)
    requires s.Valid() && FreshIds(steps, s.file.begun.Keys)
    modifies s, s.file
    ensures Outcomes(old(s.Now()), steps, |steps|, outcomes)
    ensures forall i, j :: 0 <= i < j < |steps| && outcomes[i].Committed? && outcomes[j].Committed? ==>
              outcomes[i].id != outcomes[j].id
    ensures forall i :: 0 <= i < |steps| && outcomes[i].Committed? ==> outcomes[i].id !in old(s.file.committed)
  {
    hide Turned, Returned, Outcomes;
    outcomes := [];
    var now := s;
    NothingReturned(s.Now(), steps);
    for k := 0 to |steps|
      invariant now.Valid() && now.file == s.file && (now == s || fresh(now)) && |outcomes| == k
      invariant now.Now() == Run(old(s.Now()), steps[..k]) && Outcomes(old(s.Now()), steps, k, outcomes)
      invariant old(s.file.committed) <= s.file.committed
      invariant forall i :: k <= i < |steps| && steps[i].Begin? ==> steps[i].newId !in s.file.begun
      invariant forall i :: 0 <= i < k && outcomes[i].Committed? ==> outcomes[i].id in s.file.committed
      invariant forall i :: 0 <= i < k && outcomes[i].Committed? ==> outcomes[i].id !in old(s.file.committed)
      invariant forall i, j :: 0 <= i < j < k && outcomes[i].Committed? && outcomes[j].Committed? ==>
                outcomes[i].id != outcomes[j].id
    {
      var outcome;
      now, outcome := Take(now, steps[k]);
      OneMoreReturned(old(s.Now()), steps, k, outcomes, outcome);
      outcomes := outcomes + [outcome];
    }
  }

  /** Until its commit a pending refresh keeps its ID over every retry and reopening, and that ID
      is on disk whenever it is handed out, as long as no commit fails after its rename. */
  method SamePendingId(s: Store, steps: seq<Step>, id: string) returns (outcomes: seq<Outcome>, done: nat)
    requires s.Valid() && FreshIds(steps, s.file.begun.Keys) && PendingId(s.identity) == Some(id) && !s.lateCommit
    requires forall i :: 0 <= i < |steps| && steps[i].Commit? ==> !steps[i].fate.LateSync?
    modifies s, s.file
    ensures Outcomes(old(s.Now()), steps, done, outcomes)
    ensures forall i :: 0 <= i < done && outcomes[i].Begun? ==> outcomes[i].id == id
    ensures done < |steps| ==> done > 0 && outcomes[done - 1] == Committed(id)
    ensures PendingId(s.file.content) == Some(id) || (done > 0 && outcomes[done - 1] == Committed(id))
  {
    hide Turned, Returned, Outcomes;
    outcomes, done := [], 0;
    var now := s;
    NothingReturned(s.Now(), steps);
    while done < |steps|
      invariant now.Valid() && now.file == s.file && (now == s || fresh(now)) && |outcomes| == done <= |steps|
      invariant now.Now() == Run(old(s.Now()), steps[..done]) && Outcomes(old(s.Now()), steps, done, outcomes)
      invariant PendingId(now.identity) == Some(id) && !now.lateCommit
      invariant forall i :: done <= i < |steps| && steps[i].Begin? ==> steps[i].newId !in s.file.begun
      invariant forall i :: 0 <= i < done && outcomes[i].Begun? ==> outcomes[i].id == id
    {
      var outcome;
      now, outcome := Take(now, steps[done]);
      OneMoreReturned(old(s.Now()), steps, done, outcomes, outcome);
      outcomes, done := outcomes + [outcome], done + 1;
      if outcome.Committed? { return; }
    }
  }

  /** The failing case: after a commit that failed late the old ID is handed out again although
      the disk no longer knows it, and reopening the file draws another. */
  method LateCommitLosesId(s: Store, before: Identity, after: Identity, retryId: string, reopenId: string, now: int)
    returns (retry: Option<Identity>, reopened: Option<Identity>)
    requires s.Valid() && !s.lateCommit && Commits(s.identity, before, after)
    requires before.refresh.value != "" && after.refresh.value != ""
    requires retryId != reopenId && retryId !in s.file.begun && reopenId !in s.file.begun
    modifies s, s.file
    ensures retry.Some? && PendingId(retry) == Some(before.pending.value.id)
    ensures reopened.Some? && PendingId(reopened) == Some(reopenId) && PendingId(retry) != PendingId(reopened)
  {
    var ok := s.CommitRefresh(before, after, now, LateSync);
    retry := s.BeginRefresh(retryId, now, Fine);
    var again := new Store(s.file);
    reopened := again.BeginRefresh(reopenId, now, Fine);
  }

  /** What the panel answered, on top of the identity the refresh was begun with. */
  function Renewed(before: Identity, access: Token, refresh: Token, generation: uint64): Identity {
    before.(access := access, refresh := refresh, generation := Some(generation))
  }

  /** Pins stored while a refresh is under way last exactly if the refresh already began with them. */
  method PinsDuringRefresh(s: Store, pins: Pins, access: Token, refresh: Token, id: string, now: int)
    returns (before: Option<Identity>, ok: bool)
    requires s.Valid() && id !in s.file.begun
    modifies s, s.file
    ensures s.Valid()
    ensures ok == before.Some? == (old(s.identity).Some? && old(s.identity).value.refresh.value != "")
    ensures before.Some? && ok ==> s.identity.Some? && s.identity == s.file.content
                                   && (s.identity.value.pins == pins <==> before.value.pins == pins)
  {
    ok := false;
    before := s.BeginRefresh(id, now, Fine);
    if before.None? { return; }
    var pinned := s.PinTrustBundle(pins, now, Fine);
    var next := if before.value.generation.Some? then Successor(before.value.generation.value) else 1;
    ok := s.CommitRefresh(before.value, Renewed(before.value, access, refresh, next), now, Fine);
  }
}
