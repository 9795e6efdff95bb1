/** The privileged settings an Agent runs with, and every durable change to them as a function. */
module PrivilegedState {
  import opened Options

  const OUTBOX_LIMIT: nat := 1024
  const REJECTED_LIMIT: nat := 128

  /** Mode 0 is the unspecified privilege mode. */
  datatype Settings = Settings(
    mode: int, remoteControl: bool, webssh: bool, execution: bool, gpu: bool, rescueHelper: bool)

  datatype Receipt = Receipt(id: string, kind: string, payload: seq<bv8>, rejected: string)

  datatype PendingInfo = PendingInfo(upgradeClass: int, reasons: seq<string>, taskId: string, nonce: string,
                                     expiry: int)

  const NO_INFO := PendingInfo(0, [], "", "", 0)

  datatype Authorization = Authorization(
    agentId: string, serviceId: string, revision: nat, configHash: string, generation: nat, actions: nat,
    targetMode: int, nonce: string, approvedBy: string, issuedAt: int, expiresAt: int, unknownFields: bool)

  datatype Delivery = AwaitingAgent | Applying | Delivered | OtherDelivery

  datatype Revision = Revision(
    protocolVersion: nat, baseline: bool, delivery: Delivery, revision: nat, generation: nat, signed: bool,
    agentId: string, configHash: string, sequence: nat, settings: Settings, info: PendingInfo,
    authorization: Option<Authorization>)

  datatype State = State(
    lastSequence: nat, signedRevision: Option<Revision>, outbox: seq<Receipt>, rejected: seq<Receipt>,
    applied: nat, active: Settings, previous: Option<Settings>, previousRevision: nat,
    pendingRevision: nat, pending: Option<Settings>, pendingInfo: PendingInfo, updatedAt: int)

  const NOTHING := Settings(0, false, false, false, false, false)
  const INITIAL := State(0, None, [], [], 0, NOTHING, None, 0, 0, None, NO_INFO, 0)

  // ---- settings ------------------------------------------------------------------------

  /** No capability is added; an identity requirement may only be dropped. */
  predicate Subset(a: Settings, b: Settings) {
    && (a.mode == b.mode || a.mode == 0)
    && (!a.remoteControl || b.remoteControl) && (!a.webssh || b.webssh)
    && (!a.execution || b.execution) && (!a.gpu || b.gpu) && (!a.rescueHelper || b.rescueHelper)
  }

  lemma SubsetIsAPartialOrder(a: Settings, b: Settings, c: Settings)
    ensures Subset(a, a)
    ensures Subset(a, b) && Subset(b, a) ==> a == b
    ensures Subset(a, b) && Subset(b, c) ==> Subset(a, c)
    ensures Subset(NOTHING, a)
  {
  }

  function Narrowed(active: Settings, pending: Settings): Settings {
    active.(remoteControl := active.remoteControl && pending.remoteControl,
            webssh := active.webssh && pending.webssh,
            execution := active.execution && pending.execution,
            gpu := active.gpu && pending.gpu,
            rescueHelper := active.rescueHelper && pending.rescueHelper)
  }

  /** What the Agent may do now: a delivered revision can take capabilities away at once. */
  function Effective(s: State): Settings {
    if s.pending.Some? then Narrowed(s.active, s.pending.value) else s.active
  }

  /** The effective settings are the widest ones within the active settings that grant nothing
      the pending revision withdraws. */
  lemma EffectiveIsTheGreatestLowerBound(s: State, x: Settings)
    ensures Subset(Effective(s), s.active)
    ensures s.pending.Some? ==> Subset(Effective(s).(mode := 0), s.pending.value)
    ensures Subset(x, Effective(s)) <==>
            Subset(x, s.active) && (s.pending.Some? ==> Subset(x.(mode := 0), s.pending.value))
  {
  }

  // ---- approvals -----------------------------------------------------------------------

  /** The complete binding of a same-identity approval, with a settings hash supplied by `hash`. */
  predicate ValidApproval(r: Revision, agent: string, service: string, actual: int, now: int,
                          hash: Settings -> string) {
    && r.protocolVersion == 2 && !r.baseline && r.delivery.AwaitingAgent? && r.signed
    && r.revision != 0 && r.generation != 0
    && r.authorization.Some?
    && var a := r.authorization.value;
      && !a.unknownFields && a.agentId == agent && r.agentId == agent && a.serviceId == service && service != ""
      && a.revision == r.revision && a.configHash == r.configHash && a.generation == r.generation && a.actions == 0
      && a.targetMode == actual && r.settings.mode == actual && a.nonce != "" && a.approvedBy != ""
      && a.issuedAt <= now + 60 && now < a.expiresAt && a.issuedAt < a.expiresAt
      && r.configHash == hash(r.settings)
  }

  predicate ValidBaseline(r: Revision, local: Settings, actual: int, hash: Settings -> string) {
    && r.baseline && r.revision == 1 && r.protocolVersion == 2 && r.generation == 1
    && local.mode == actual && !local.rescueHelper && r.settings == local && r.configHash == hash(local)
    && r.authorization.Some? && r.authorization.value.actions == 0 && r.authorization.value.serviceId != ""
  }

  // ---- the durable changes -------------------------------------------------------------

  datatype Change =
    | Recorded(r: Revision)
    | RolledBack
    | Discarded
    | Approved(r: Revision, ack: Receipt)
    | Adopted(r: Revision, local: Settings, ack: Receipt)
    | Enqueued(receipt: Receipt)
    | Finished(id: string, reason: string, stamp: string)

  predicate ByApproval(c: Change) { c.Approved? || c.Adopted? }

  function NoPending(s: State): State {
    s.(pendingRevision := 0, pending := None, pendingInfo := NO_INFO)
  }

  /** The outbox without one receipt ID, in order. */
  function Without(outbox: seq<Receipt>, id: string): seq<Receipt> {
    if outbox == [] then []
    else if outbox[0].id == id then Without(outbox[1..], id)
    else [outbox[0]] + Without(outbox[1..], id)
  }

  /** The receipts of one ID, each with its stamped reason, in order. */
  function Stamped(outbox: seq<Receipt>, id: string, reason: string): seq<Receipt> {
    if outbox == [] then []
    else if outbox[0].id == id then [outbox[0].(rejected := reason)] + Stamped(outbox[1..], id, reason)
    else Stamped(outbox[1..], id, reason)
  }

  function Tail(s: seq<Receipt>): seq<Receipt> {
    if |s| > REJECTED_LIMIT then s[|s| - REJECTED_LIMIT..] else s
  }

  predicate Allowed(s: State, c: Change) {
    match c
    case Recorded(r) => r.revision > s.applied && r.revision >= s.pendingRevision && r.sequence >= s.lastSequence
    case RolledBack => s.previous.Some? && Subset(s.previous.value, s.active)
    case Discarded => s.pending.Some?
    case Approved(r, _) =>
      r.revision > s.applied && r.revision >= s.pendingRevision && r.sequence >= s.lastSequence
          && |s.outbox| < OUTBOX_LIMIT
    case Adopted(r, local, _) =>
      r.revision == 1 && s.applied <= 1 && s.pendingRevision <= 1 && (s.applied == 1 ==> s.active == local)
          && |s.outbox| < OUTBOX_LIMIT
    case Enqueued(receipt) => |s.outbox| < OUTBOX_LIMIT && forall r :: r in s.outbox ==> r.id != receipt.id
    case Finished(_, _, _) => true
  }

  /** The next durable state, before it is stamped with the time. */
  function After(s: State, c: Change): State
    requires Allowed(s, c)
  {
    match c
    case Recorded(r) =>
      s.(pendingRevision := r.revision, lastSequence := r.sequence, pending := Some(r.settings), pendingInfo := r.info)
    case RolledBack =>
      s.(active := s.previous.value, applied := s.previousRevision, signedRevision := None, previous := None,
         previousRevision := 0)
    case Discarded => NoPending(s)
    case Approved(r, ack) =>
      NoPending(s.(previous := Some(s.active), previousRevision := s.applied,
                   active := r.settings, applied := r.revision, signedRevision := Some(r),
                   lastSequence := r.sequence, outbox := s.outbox + [ack]))
    case Adopted(r, local, ack) =>
      NoPending(s.(active := local, applied := 1, signedRevision := Some(r), outbox := s.outbox + [ack]))
    case Enqueued(receipt) => s.(outbox := s.outbox + [receipt])
    case Finished(id, reason, stamp) =>
      s.(outbox := Without(s.outbox, id),
         rejected := Tail(s.rejected + if reason == "" then [] else Stamped(s.outbox, id, stamp)))
  }

  // ---- what every reachable state and every history keeps ------------------------------

  /** A pending revision is newer than the applied one, and so was every applied one when it came. */
  predicate Sane(s: State) {
    && (s.pending.Some? <==> s.pendingRevision > 0)
    && (s.pending.Some? ==> s.pendingRevision > s.applied)
    && (s.previous.Some? ==> s.previousRevision < s.applied)
    && |s.outbox| <= OUTBOX_LIMIT && |s.rejected| <= REJECTED_LIMIT
  }

  lemma {:induction false} WithoutIsShorter(outbox: seq<Receipt>, id: string)
    ensures |Without(outbox, id)| <= |outbox|
    ensures forall r :: r in Without(outbox, id) <==> r in outbox && r.id != id
  {
    if outbox != [] {
      WithoutIsShorter(outbox[1..], id);
      assert outbox == [outbox[0]] + outbox[1..];
    }
  }

  /** Removing one ID keeps the others in their order, wherever the outbox is cut. */
  lemma {:induction false} WithoutKeepsOrder(front: seq<Receipt>, back: seq<Receipt>, id: string)
    ensures Without(front + back, id) == Without(front, id) + Without(back, id)
  {
    if front == [] {
      assert front + back == back;
    } else {
      assert (front + back)[1..] == front[1..] + back;
      WithoutKeepsOrder(front[1..], back, id);
    }
  }

  lemma ChangesKeepSane(s: State, c: Change)
    requires Sane(s) && Allowed(s, c)
    ensures Sane(After(s, c))
  {
    if c.Finished? { WithoutIsShorter(s.outbox, c.id); }
  }

  /** One durable version follows another by one allowed change and a new time stamp. */
  predicate Follows(before: State, c: Change, after: State) {
    Allowed(before, c) && after == After(before, c).(updatedAt := after.updatedAt)
  }

  /** The durable versions of one state file, with the change that made each of them. */
  ghost predicate History(versions: seq<State>, changes: seq<Change>) {
    && |versions| == |changes| + 1
    && versions[0] == INITIAL
    && forall i :: 0 <= i < |changes| ==> Follows(versions[i], changes[i], versions[i + 1])
  }

  lemma {:induction false} EveryVersionIsSane(versions: seq<State>, changes: seq<Change>, i: nat)
    requires History(versions, changes) && i < |versions|
    ensures Sane(versions[i])
  {
    if i > 0 {
      EveryVersionIsSane(versions, changes, i - 1);
      assert Follows(versions[i - 1], changes[i - 1], versions[i]);
      ChangesKeepSane(versions[i - 1], changes[i - 1]);
    }
  }

  /** The delivery sequence never goes back, not even through a rollback. */
  lemma {:induction false} SequenceNeverDecreases(versions: seq<State>, changes: seq<Change>, i: nat, j: nat)
    requires History(versions, changes) && i <= j < |versions|
    ensures versions[i].lastSequence <= versions[j].lastSequence
    decreases j - i
  {
    if i < j {
      SequenceNeverDecreases(versions, changes, i, j - 1);
      assert Follows(versions[j - 1], changes[j - 1], versions[j]);
    }
  }

  /** Between two versions with no approval and no baseline in between, nothing was widened. */
  lemma {:induction false} OnlyApprovalWidens(versions: seq<State>, changes: seq<Change>, i: nat, j: nat)
    requires History(versions, changes) && i <= j < |versions|
    requires forall k :: i <= k < j ==> !ByApproval(changes[k])
    ensures Subset(versions[j].active, versions[i].active)
    decreases j - i
  {
    if i < j {
      OnlyApprovalWidens(versions, changes, i, j - 1);
      assert Follows(versions[j - 1], changes[j - 1], versions[j]);
      SubsetIsAPartialOrder(versions[j].active, versions[j - 1].active, versions[i].active);
    }
  }

  /** A change of the applied revision other than a rollback puts its ACK in the same version. */
  lemma AppliedWithItsAck(before: State, c: Change, after: State)
    requires Follows(before, c, after) && Sane(before)
    ensures after.applied > before.applied ==> ByApproval(c) && c.ack in after.outbox
    ensures after.applied < before.applied <==> c.RolledBack?
    ensures after.active != before.active ==> ByApproval(c) || c.RolledBack?
  {
  }

  predicate Finishes(c: Change, id: string) { c.Finished? && c.id == id }

  /** A receipt leaves the outbox only by being finished. */
  lemma {:induction false} ReceiptsStayUntilFinished(versions: seq<State>, changes: seq<Change>, i: nat, j: nat,
                                                     r: Receipt)
    requires History(versions, changes) && i <= j < |versions|
    requires r in versions[i].outbox && forall k :: i <= k < j ==> !Finishes(changes[k], r.id)
    ensures r in versions[j].outbox
    decreases j - i
  {
    if i < j {
      ReceiptsStayUntilFinished(versions, changes, i, j - 1, r);
      var c := changes[j - 1];
      assert Follows(versions[j - 1], c, versions[j]);
      if c.Finished? { WithoutIsShorter(versions[j - 1].outbox, c.id); }
    }
  }

  // ---- the order of receipts ---------------------------------------------------------------

  /** The outbox without the receipts of several IDs, in order. */
  function Kept(outbox: seq<Receipt>, finished: set<string>): seq<Receipt> {
    if outbox == [] then []
    else if outbox[0].id in finished then Kept(outbox[1..], finished)
    else [outbox[0]] + Kept(outbox[1..], finished)
  }

  lemma {:induction false} OneMoreFinished(outbox: seq<Receipt>, finished: set<string>, id: string)
    ensures Without(Kept(outbox, finished), id) == Kept(outbox, finished + {id})
  {
    if outbox != [] {
      OneMoreFinished(outbox[1..], finished, id);
      if outbox[0].id !in finished {
        assert Kept(outbox, finished)[1..] == Kept(outbox[1..], finished);
      }
    }
  }

  lemma {:induction false} KeptExactly(outbox: seq<Receipt>, finished: set<string>)
    ensures forall r :: r in Kept(outbox, finished) <==> r in outbox && r.id !in finished
    ensures finished == {} ==> Kept(outbox, finished) == outbox
  {
    if outbox != [] {
      KeptExactly(outbox[1..], finished);
      assert outbox == [outbox[0]] + outbox[1..];
    }
  }

  lemma {:induction false} NoneKept(outbox: seq<Receipt>, finished: set<string>)
    ensures Kept(outbox, finished) == [] <==> forall i :: 0 <= i < |outbox| ==> outbox[i].id in finished
  {
    if outbox != [] {
      NoneKept(outbox[1..], finished);
      assert forall i :: 0 < i < |outbox| ==> outbox[i] == outbox[1..][i - 1];
    }
  }

  ghost function FinishedIds(changes: seq<Change>): set<string> {
    set c | c in changes && c.Finished? :: c.id
  }

  lemma OneMoreChange(changes: seq<Change>, c: Change)
    ensures FinishedIds(changes + [c]) == FinishedIds(changes) + if c.Finished? then {c.id} else {}
  {
    assert forall x :: x in changes + [c] <==> x in changes || x == c;
  }

  lemma FrontStays(before: State, c: Change, after: State, front: seq<Receipt>)
    requires Follows(before, c, after) && front <= before.outbox
    ensures (if c.Finished? then Without(front, c.id) else front) <= after.outbox
  {
    if c.Finished? {
      assert before.outbox == front + before.outbox[|front|..];
      WithoutKeepsOrder(front, before.outbox[|front|..], c.id);
    }
  }

  /** Along any history the receipts not finished meanwhile stay at the front, in their order;
      whatever was appended since comes after them. */
  lemma {:induction false} OutboxKeepsOrder(versions: seq<State>, changes: seq<Change>, i: nat, j: nat)
    requires History(versions, changes) && i <= j < |versions|
    ensures Kept(versions[i].outbox, FinishedIds(changes[i..j])) <= versions[j].outbox
    decreases j - i
  {
    hide After, Without, Allowed;
    if i == j {
      assert FinishedIds(changes[i..j]) == {};
      KeptExactly(versions[i].outbox, {});
    } else {
      var c, front := changes[j - 1], Kept(versions[i].outbox, FinishedIds(changes[i..j - 1]));
      OutboxKeepsOrder(versions, changes, i, j - 1);
      FrontStays(versions[j - 1], c, versions[j], front);
      assert changes[i..j] == changes[i..j - 1] + [c];
      OneMoreChange(changes[i..j - 1], c);
      if c.Finished? {
        OneMoreFinished(versions[i].outbox, FinishedIds(changes[i..j - 1]), c.id);
      } else {
        assert FinishedIds(changes[i..j]) == FinishedIds(changes[i..j - 1]);
      }
    }
  }

  lemma {:induction false} StampedKeepsReceipts(outbox: seq<Receipt>, id: string, stamp: string)
    ensures forall r :: r in outbox && r.id == id ==> r.(rejected := stamp) in Stamped(outbox, id, stamp)
    ensures |Stamped(outbox, id, stamp)| + |Without(outbox, id)| == |outbox|
  {
    if outbox != [] {
      StampedKeepsReceipts(outbox[1..], id, stamp);
      assert outbox == [outbox[0]] + outbox[1..];
    }
  }

  lemma TailIsTheEnd(all: seq<Receipt>)
    ensures |all| <= REJECTED_LIMIT ==> Tail(all) == all
    ensures |all| > REJECTED_LIMIT ==> |Tail(all)| == REJECTED_LIMIT && Tail(all) == all[|all| - REJECTED_LIMIT..]
  {
  }

  /** Finishing a receipt with a reason moves it to the rejected log, of which the last 128 are
      kept; finishing it without one only removes it.  Nothing else moves. */
  lemma FinishingAccountsForEverything(before: State, c: Change, after: State, r: Receipt)
    requires Follows(before, c, after) && c.Finished? && r in before.outbox
    ensures r in after.outbox <==> r.id != c.id
    ensures var all := before.rejected + (if c.reason == "" then [] else Stamped(before.outbox, c.id, c.stamp));
            && (r.id == c.id && c.reason != "" ==> r.(rejected := c.stamp) in all)
            && (|all| <= REJECTED_LIMIT ==> after.rejected == all)
            && (|all| > REJECTED_LIMIT ==> after.rejected == all[|all| - REJECTED_LIMIT..])
  {
    hide Tail, Without, Stamped;
    WithoutIsShorter(before.outbox, c.id);
    StampedKeepsReceipts(before.outbox, c.id, c.stamp);
    TailIsTheEnd(before.rejected + if c.reason == "" then [] else Stamped(before.outbox, c.id, c.stamp));
  }

  /** A rollback undoes the last approval exactly; it is allowed exactly when the settings before
      that approval are within the approved ones, and only once. */
  lemma RollbackUndoesApproval(s: State, r: Revision, ack: Receipt)
    requires Allowed(s, Approved(r, ack))
    ensures var t := After(s, Approved(r, ack));
            && (Allowed(t, RolledBack) <==> Subset(s.active, r.settings))
            && (Allowed(t, RolledBack) ==>
                  After(t, RolledBack).active == s.active && After(t, RolledBack).applied == s.applied
                  && !Allowed(After(t, RolledBack), RolledBack))
  {
  }
}
