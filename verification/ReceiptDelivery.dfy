/** Delivering receipts: the runtime queue from its head, then the privileged outbox. */
module ReceiptDelivery {
  import opened DurableWrites
  import opened Options
  import R = RuntimeConfig
  import S = PrivilegedState
  import P = PrivilegedStore

  /** What an attempt to deliver comes to; a final refusal has a non-empty reason. */
  datatype Answer = Accepted | FinallyRefused | Unreachable | Undecodable

  const REASON := "refused"

  // ---- the runtime queue -------------------------------------------------------------------

  datatype Verdict = Taken | Diverted | Dropped

  predicate Final(answer: Answer) {
    answer.Accepted? || answer.FinallyRefused?
  }

  /** A receipt refused for good is put aside, or dropped if there is no privileged store. */
  function VerdictOn(answer: Answer, diagnosed: bool): Verdict {
    if answer.Accepted? then Taken else if diagnosed then Diverted else Dropped
  }

  /** An ID no receipt of the outbox has; the source draws a random one. */
  function UnusedId(outbox: seq<S.Receipt>): (id: string)
    ensures forall r :: r in outbox ==> |r.id| < |id|
  {
    if outbox == [] then "x" else UnusedId(outbox[1..]) + outbox[0].id + "x"
  }

  /** A receipt of the given content is in the outbox, for diagnosis only. */
  ghost predicate HasDiverted(outbox: seq<S.Receipt>, payload: R.Bytes) {
    exists r :: r in outbox && r.kind == "runtime-rejected" && r.payload == payload && r.rejected != ""
  }

  /** The verdicts account for the first receipts of `before`: none of them was empty, the panel
      answered each for good, and one that it refused is in the outbox or, without one, lost. */
  ghost predicate Accounts(verdicts: seq<Verdict>, before: seq<R.Bytes>, answers: nat -> Answer,
                           outbox: Option<seq<S.Receipt>>) {
    && |verdicts| <= |before|
    && forall i :: 0 <= i < |verdicts| ==>
         && before[i] != [] && (answers(i).Accepted? || answers(i).FinallyRefused?)
         && (verdicts[i].Taken? <==> answers(i).Accepted?)
         && (verdicts[i].Diverted? <==> answers(i).FinallyRefused? && outbox.Some?)
         && (verdicts[i].Dropped? <==> answers(i).FinallyRefused? && outbox.None?)
         && (verdicts[i].Diverted? ==> HasDiverted(outbox.value, before[i]))
  }

  ghost function OutboxOf(p: P.Store?): Option<seq<S.Receipt>>
    reads p
  {
    if p == null then None else Some(p.state.outbox)
  }

  lemma AccountsNext(verdicts: seq<Verdict>, before: seq<R.Bytes>, answers: nat -> Answer,
                     was: Option<seq<S.Receipt>>, now: Option<seq<S.Receipt>>)
    requires Accounts(verdicts, before, answers, was) && |verdicts| < |before| && before[|verdicts|] != []
    requires was.Some? == now.Some? && (was.Some? ==> was.value <= now.value)
    ensures Accounts(verdicts, before, answers, now)
    ensures var verdict := VerdictOn(answers(|verdicts|), now.Some?);
            Final(answers(|verdicts|)) && (verdict.Diverted? ==> HasDiverted(now.value, before[|verdicts|])) ==>
              Accounts(verdicts + [verdict], before, answers, now)
  {
    forall i | 0 <= i < |verdicts| && verdicts[i].Diverted? ensures HasDiverted(now.value, before[i]) {
      var r :| r in was.value && r.kind == "runtime-rejected" && r.payload == before[i] && r.rejected != "";
      assert r in now.value;
    }
  }

  ghost predicate Usable(q: R.Store, p: P.Store?)
    reads q, p, if p == null then {} else {p.file}
  {
    q.Valid() && (p != null ==> p.Valid() && p.file.Valid())
  }

  ghost function StateOf(p: P.Store?): Option<S.State>
    reads p
  {
    if p == null then None else Some(p.state)
  }

  /** Delivering only adds to the outbox and leaves the active settings alone. */
  ghost predicate OnlyAdded(was: Option<S.State>, now: Option<S.State>) {
    && was.Some? == now.Some?
    && (was.Some? ==> was.value.outbox <= now.value.outbox && now.value.active == was.value.active
                      && now.value.applied == was.value.applied)
  }

  lemma NothingAdded(was: Option<S.State>)
    ensures OnlyAdded(was, was)
  {
  }

  lemma AddedTwice(a: Option<S.State>, b: Option<S.State>, c: Option<S.State>)
    requires OnlyAdded(a, b) && OnlyAdded(b, c)
    ensures OnlyAdded(a, c)
  {
  }

  /** Keeps a finally refused runtime receipt for diagnosis. */
  method Divert(p: P.Store, payload: R.Bytes) returns (ok: bool)
    requires p.Valid() && p.file.Valid()
    modifies p, p.file
    ensures p.Valid() && p.file.Valid()
    ensures old(p.state).outbox <= p.state.outbox && p.state.active == old(p.state).active
              && p.state.applied == old(p.state).applied
    ensures ok ==> HasDiverted(p.state.outbox, payload)
  {
    var now: int := *;
    var fate: Fate := *;
    var r := S.Receipt(UnusedId(p.state.outbox), "runtime-rejected", payload, REASON);
    ok := p.Enqueue(r, now, fate);
    if ok { assert r in p.state.outbox; }
  }

  /** One turn of the loop: the head leaves the queue only after the panel took it, or refused
      it for good and it was put aside. */
  method DeliverHead(q: R.Store, p: P.Store?, answer: Answer) returns (ok: bool, ghost verdict: Verdict)
    requires Usable(q, p) && q.receipts != []
    modifies q`receipts, q`disk, if p == null then {} else {p, p.file}
    ensures Usable(q, p) && OnlyAdded(old(StateOf(p)), StateOf(p)) && (old(q.Genuine()) ==> q.Genuine())
    ensures q.receipts == if ok then old(q.receipts)[1..] else old(q.receipts)
    ensures ok ==> Final(answer) && verdict == VerdictOn(answer, p != null)
    ensures ok && verdict.Diverted? ==> HasDiverted(p.state.outbox, old(q.receipts)[0])
  {
    var payload := q.Receipt();
    verdict := Taken;
    if answer.Undecodable? || answer.Unreachable? { return false, verdict; }
    if answer.FinallyRefused? {
      verdict := if p == null then Dropped else Diverted;
      if p != null {
        var kept := Divert(p, payload);
        if !kept { return false, verdict; }
      }
    }
    var fate: Fate := *;
    ok := q.FinishReceipt(payload, fate);
  }

  /** Delivers from the head until nothing is left, a delivery fails, or the head is empty.
      `verdicts` tells, in order, what became of each receipt that left the queue. */
  method DrainRuntimeQueue(q: R.Store, p: P.Store?, answers: nat -> Answer)
    returns (ok: bool, ghost verdicts: seq<Verdict>)
    requires Usable(q, p)
    modifies q`receipts, q`disk, if p == null then {} else {p, p.file}
    ensures Usable(q, p) && OnlyAdded(old(StateOf(p)), StateOf(p)) && (old(q.Genuine()) ==> q.Genuine())
    ensures Accounts(verdicts, old(q.receipts), answers, OutboxOf(p)) && q.receipts == old(q.receipts)[|verdicts|..]
    ensures ok ==> q.receipts == [] || q.receipts[0] == []
  {
    hide Usable, Accounts, OnlyAdded, R.Store.Genuine;
    NothingAdded(StateOf(p));
    verdicts := [];
    NothingDelivered(q.receipts, answers, OutboxOf(p));
    ghost var all, genuine, was := q.receipts, q.Genuine(), StateOf(p);
    var attempts := 0;
    var payload := q.Receipt();
    while |payload| > 0
      invariant Usable(q, p) && OnlyAdded(was, StateOf(p)) && (genuine ==> q.Genuine())
      invariant Accounts(verdicts, all, answers, OutboxOf(p)) && attempts == |verdicts| <= |all|
      invariant q.receipts == all[|verdicts|..]
      invariant payload == if q.receipts == [] then [] else q.receipts[0]
      decreases |q.receipts|
    {
      ghost var before, state := OutboxOf(p), StateOf(p);
      assert all[attempts] == payload && all[attempts..][1..] == all[attempts + 1..];
      var done; ghost var verdict;
      done, verdict := DeliverHead(q, p, answers(attempts));
      AddedTwice(was, state, StateOf(p));
      AccountsNext(verdicts, all, answers, before, OutboxOf(p));
      if !done { return false, verdicts; }
      verdicts, attempts := verdicts + [verdict], attempts + 1;
      payload := q.Receipt();
    }
    ok := true;
  }

  lemma NothingDelivered(before: seq<R.Bytes>, answers: nat -> Answer, outbox: Option<seq<S.Receipt>>)
    ensures Accounts([], before, answers, outbox)
  {
  }

  /** With no empty receipt in it, a queue that is delivered without a failure is emptied. */
  lemma NothingStuck(before: seq<R.Bytes>, delivered: nat)
    requires delivered <= |before| && (before[delivered..] == [] || before[delivered..][0] == [])
    ensures (forall r :: r in before ==> r != []) ==> delivered == |before|
  {
    if delivered < |before| {
      assert before[delivered..][0] == before[delivered] && before[delivered] in before;
    }
  }

  /** A damaged queue: an empty receipt, which the Agent itself never queues, is never sent and
      never removed, and those behind it stay with it. */
  method EmptyReceiptBlocksQueue(q: R.Store, p: P.Store?, answers: nat -> Answer, at: nat) returns (ok: bool)
    requires Usable(q, p) && at < |q.receipts| && q.receipts[at] == []
    modifies q`receipts, q`disk, if p == null then {} else {p, p.file}
    ensures Usable(q, p) && exists n: nat :: n <= at && q.receipts == old(q.receipts)[n..]
  {
    ghost var verdicts;
    ok, verdicts := DrainRuntimeQueue(q, p, answers);
    assert |verdicts| <= at;
  }

  // ---- the privileged outbox ---------------------------------------------------------------

  /** Kept for diagnosis only: never sent, and finished with its own reason. */
  predicate Diagnostic(entry: S.Receipt) {
    entry.kind == "runtime-rejected"
  }

  function ReasonFor(entry: S.Receipt, answer: Answer): string {
    if Diagnostic(entry) then entry.rejected else if answer.Accepted? then "" else REASON
  }

  /** The change finishes the entry as the panel's answer to it demands: an accepted one leaves no
      trace, a refused one goes for a reason, and one kept for diagnosis for the reason it has. */
  predicate Demanded(c: S.Change, entry: S.Receipt, answer: Answer) {
    && c.Finished? && c.id == entry.id
    && if entry.kind == "runtime-rejected" then c.reason == entry.rejected
       else (answer.Accepted? && c.reason == "") || (answer.FinallyRefused? && c.reason != "")
  }

  /** The change finishes one of the entries. */
  ghost predicate ByAnswer(c: S.Change, entries: seq<S.Receipt>, answers: nat -> Answer) {
    exists k :: 0 <= k < |entries| && Demanded(c, entries[k], answers(k))
  }

  lemma Answered(c: S.Change, entries: seq<S.Receipt>, answers: nat -> Answer, k: nat)
    requires k < |entries| && c.Finished? && c.id == entries[k].id
    requires (Diagnostic(entries[k]) || Final(answers(k))) && c.reason == ReasonFor(entries[k], answers(k))
    ensures ByAnswer(c, entries, answers)
  {
  }

  /** One pass over the outbox as it was.  A receipt leaves only after the panel took it or
      refused it for good; the others keep their order, and success means none is left. */
  method DeliverOutbox(p: P.Store, answers: nat -> Answer) returns (ok: bool, ghost finished: set<string>)
    requires p.Valid() && p.file.Valid()
    modifies p, p.file
    ensures p.Valid() && p.file.Valid()
    ensures p.state.outbox == S.Kept(old(p.state).outbox, finished)
    ensures p.state.active == old(p.state).active && p.state.applied == old(p.state).applied
    ensures p.state.pending == old(p.state).pending && p.state.lastSequence == old(p.state).lastSequence
    ensures old(p.file.changes) <= p.file.changes
    ensures forall i :: |old(p.file.changes)| <= i < |p.file.changes| ==>
              ByAnswer(p.file.changes[i], old(p.state).outbox, answers)
    ensures ok ==> p.state.outbox == []
  {
    hide ByAnswer, S.Kept, P.StateFile.Valid, P.Store.Valid;
    finished := {};
    S.KeptExactly(p.state.outbox, {});
    var entries := p.state.outbox;
    ok := true;
    for i := 0 to |entries|
      invariant p.Valid() && p.file.Valid() && entries == old(p.state).outbox
      invariant p.state.outbox == S.Kept(entries, finished)
      invariant p.state.active == old(p.state).active && p.state.applied == old(p.state).applied
      invariant p.state.pending == old(p.state).pending && p.state.lastSequence == old(p.state).lastSequence
      invariant old(p.file.changes) <= p.file.changes
      invariant forall k :: |old(p.file.changes)| <= k < |p.file.changes| ==>
                  ByAnswer(p.file.changes[k], entries, answers)
      invariant ok ==> forall k :: 0 <= k < i ==> entries[k].id in finished
    {
      var entry, answer := entries[i], answers(i);
      if Diagnostic(entry) || Final(answer) {
        var done, change := Finish(p, entry.id, ReasonFor(entry, answer));
        Answered(change, entries, answers, i);
        if !done { return false, finished; }
        S.OneMoreFinished(entries, finished, entry.id);
        finished := finished + {entry.id};
      } else {
        ok := false;
      }
    }
    S.KeptExactly(entries, finished);
    S.NoneKept(entries, finished);
  }

  method Finish(p: P.Store, id: string, reason: string) returns (ok: bool, ghost change: S.Change)
    requires p.Valid() && p.file.Valid()
    modifies p, p.file
    ensures p.Valid() && p.file.Valid()
    ensures !ok ==> p.state == old(p.state)
    ensures ok ==> p.state.outbox == S.Without(old(p.state).outbox, id)
    ensures p.state.active == old(p.state).active && p.state.applied == old(p.state).applied
    ensures p.state.pending == old(p.state).pending && p.state.lastSequence == old(p.state).lastSequence
    ensures change.Finished? && change.id == id && change.reason == reason
    ensures p.file.changes == old(p.file.changes) || p.file.changes == old(p.file.changes) + [change]
  {
    var now: int := *;
    var stamp: string := *;
    var fate: Fate := *;
    change := S.Finished(id, reason, stamp);
    ok := p.FinishReceipt(id, reason, stamp, now, fate);
  }

  /** Both queues, the runtime one first.  Success means that nothing is left to deliver. */
  method FlushReceipts(q: R.Store, p: P.Store?, runtime: nat -> Answer, privileged: nat -> Answer) returns (ok: bool)
    requires Usable(q, p)
    modifies q`receipts, q`disk, if p == null then {} else {p, p.file}
    ensures Usable(q, p)
    ensures p != null ==> p.state.active == old(p.state.active) && p.state.applied == old(p.state.applied)
    ensures old(q.Genuine()) ==> q.Genuine() && (ok ==> q.receipts == [])
    ensures ok ==> (q.receipts == [] || q.receipts[0] == []) && (p != null ==> p.state.outbox == [])
  {
    ghost var verdicts;
    ok, verdicts := DrainRuntimeQueue(q, p, runtime);
    if !ok { return; }
    NothingStuck(old(q.receipts), |verdicts|);
    if p == null { return; }
    ghost var finished;
    ok, finished := DeliverOutbox(p, privileged);
  }
}
