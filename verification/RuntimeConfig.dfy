/** The online settings of an Agent: what a delivered configuration means, and the store that
    keeps the applied one, the one before it and the receipts still to be delivered. */
module RuntimeConfig {
  import opened DurableWrites
  import opened Options
  import opened Text

  type Bytes = seq<bv8>

  const SECOND: int := 1_000_000_000
  const RECEIPT_LIMIT: nat := 1024

  datatype Snapshot = Snapshot(
    revision: nat, memoryIncludeCache: bool, enableGpu: bool, detailedGpu: bool,
    includeNics: seq<string>, excludeNics: seq<string>, includeMountpoints: seq<string>,
    reportInterval: int, trafficResetDay: nat, remoteControl: bool, ipFromNic: bool)

  /** A delivered message; `reportInterval` holds None inside Some when the duration is invalid. */
  datatype Delivered = Delivered(
    unknownFields: bool, unsupportedFields: bool,
    memoryIncludeCache: Option<bool>, enableGpu: Option<bool>, detailedGpu: Option<bool>,
    includeNics: seq<string>, excludeNics: seq<string>, includeMountpoints: seq<string>,
    reportInterval: Option<Option<int>>, trafficResetDay: Option<nat>,
    remoteControl: Option<bool>, ipFromNic: Option<bool>)

  datatype Desired = Desired(revision: nat, runtime: Option<Delivered>)

  // ---- lists ---------------------------------------------------------------------------

  /** The cleaned list: every value trimmed, the empty ones dropped, in order. */
  function Cleaned(values: seq<string>): seq<string> {
    if values == [] then []
    else
      var v := TrimSpace(values[0]);
      (if v == "" then [] else [v]) + Cleaned(values[1..])
  }

  lemma NothingToClean()
    ensures Cleaned([]) == []
  {
  }

  lemma CleanedFirst(values: seq<string>, i: nat)
    requires i < |values|
    ensures var v := TrimSpace(values[i]);
            Cleaned(values[i..]) == if v == "" then Cleaned(values[i + 1..]) else [v] + Cleaned(values[i + 1..])
  {
    assert values[i..][0] == values[i] && values[i..][1..] == values[i + 1..];
    assert [] + Cleaned(values[i + 1..]) == Cleaned(values[i + 1..]);
  }

  method Clean(values: seq<string>) returns (result: seq<string>)
    ensures result == Cleaned(values)
  {
    hide TrimSpace, Cleaned;
    result := [];
    NothingToClean();
    assert values[0..] == values && [] + Cleaned(values) == Cleaned(values);
    for i := 0 to |values|
      invariant result + Cleaned(values[i..]) == Cleaned(values)
    {
      CleanedFirst(values, i);
      var v := TrimSpace(values[i]);
      if v != "" { result := result + [v]; }
    }
    assert values[|values|..] == [] && result + [] == result;
  }

  /** Cleaning what was cleaned changes nothing, and no entry is left blank or untrimmed. */
  lemma {:induction false} CleanedTwice(values: seq<string>)
    ensures Cleaned(Cleaned(values)) == Cleaned(values)
    ensures forall v :: v in Cleaned(values) ==> v != "" && TrimSpace(v) == v
  {
    if values != [] {
      CleanedTwice(values[1..]);
      TrimmedTwice(values[0]);
      var v := TrimSpace(values[0]);
      if v == "" {
        assert Cleaned(values) == Cleaned(values[1..]);
      } else {
        assert Cleaned(values)[0] == v && Cleaned(values)[1..] == Cleaned(values[1..]);
      }
    }
  }

  /** Cleaning works entry by entry and in order: each is trimmed, and the blank ones go. */
  lemma {:induction false} CleanedInOrder(a: seq<string>, b: seq<string>, v: string)
    ensures Cleaned(a + b) == Cleaned(a) + Cleaned(b)
    ensures Cleaned([v]) == if TrimSpace(v) == "" then [] else [TrimSpace(v)]
  {
    assert Cleaned([v][1..]) == [];
    if a == [] {
      assert a + b == b;
    } else {
      assert (a + b)[1..] == a[1..] + b;
      CleanedInOrder(a[1..], b, v);
    }
  }

  function Utf8Length(s: string): nat {
    if s == "" then 0
    else
      var first := if s[0] < '\U{80}' then 1 else if s[0] < '\U{800}' then 2 else if s[0] < '\U{10000}' then 3 else 4;
      first + Utf8Length(s[1..])
  }

  predicate ListOk(values: seq<string>) {
    |values| <= 128 && forall i :: 0 <= i < |values| ==> Utf8Length(values[i]) <= 512
  }

  predicate Validates(s: Snapshot) {
    && SECOND <= s.reportInterval <= 300 * SECOND && s.trafficResetDay <= 31
    && ListOk(s.includeNics) && ListOk(s.excludeNics) && ListOk(s.includeMountpoints)
  }

  // ---- one delivered configuration -----------------------------------------------------

  function Or<T>(v: Option<T>, base: T): T {
    if v.Some? then v.value else base
  }

  function Merged(base: Snapshot, revision: nat, v: Delivered): Snapshot {
    base.(revision := revision,
          memoryIncludeCache := Or(v.memoryIncludeCache, base.memoryIncludeCache),
          detailedGpu := Or(v.detailedGpu, base.detailedGpu),
          includeNics := Cleaned(v.includeNics), excludeNics := Cleaned(v.excludeNics),
          includeMountpoints := Cleaned(v.includeMountpoints),
          trafficResetDay := Or(v.trafficResetDay, base.trafficResetDay),
          ipFromNic := Or(v.ipFromNic, base.ipFromNic),
          reportInterval := Or(Or(v.reportInterval, Some(base.reportInterval)), base.reportInterval))
  }

  predicate Deliverable(v: Delivered) {
    && !v.unknownFields && !v.unsupportedFields && v.enableGpu.None? && v.remoteControl.None?
    && !(v.reportInterval.Some? && v.reportInterval.value.None?)
  }

  /** The settings a delivery leads to, or None if it must not be applied. */
  function FromProto(base: Snapshot, revision: nat, v: Delivered): (r: Option<Snapshot>)
    ensures r.Some? <==> Deliverable(v) && Validates(Merged(base, revision, v))
    ensures r.Some? ==>
              && r.value.includeNics == Cleaned(v.includeNics) && r.value.excludeNics == Cleaned(v.excludeNics)
              && r.value.includeMountpoints == Cleaned(v.includeMountpoints)
    ensures r.Some? ==>
              && (r.value.memoryIncludeCache <==>
                    if v.memoryIncludeCache.Some? then v.memoryIncludeCache.value else base.memoryIncludeCache)
              && (r.value.detailedGpu <==> if v.detailedGpu.Some? then v.detailedGpu.value else base.detailedGpu)
              && (r.value.ipFromNic <==> if v.ipFromNic.Some? then v.ipFromNic.value else base.ipFromNic)
              && r.value.trafficResetDay == (if v.trafficResetDay.Some? then v.trafficResetDay.value
                                             else base.trafficResetDay)
              && (v.reportInterval.Some? ==> v.reportInterval.value == Some(r.value.reportInterval))
              && (v.reportInterval.None? ==> r.value.reportInterval == base.reportInterval)
    ensures r.Some? ==> Validates(r.value) && r.value.revision == revision
                        && r.value.enableGpu == base.enableGpu && r.value.remoteControl == base.remoteControl
  {
    if !Deliverable(v) then None
    else
      var merged := Merged(base, revision, v);
      if Validates(merged) then Some(merged) else None
  }

  /** What must not be applied, limit by limit: unknown or local-only settings, an invalid duration,
      an interval not within one second and five minutes, a day past 31, and lists that are too long
      once cleaned. */
  lemma RefusedExactly(base: Snapshot, revision: nat, v: Delivered)
    ensures FromProto(base, revision, v).None? <==>
              || v.unknownFields || v.unsupportedFields || v.enableGpu.Some? || v.remoteControl.Some?
              || v.reportInterval == Some(None)
              || (var interval := if v.reportInterval.Some? then v.reportInterval.value.value else base.reportInterval;
                  interval < 1_000_000_000 || interval > 300_000_000_000)
              || (if v.trafficResetDay.Some? then v.trafficResetDay.value else base.trafficResetDay) > 31
              || TooLong(v.includeNics) || TooLong(v.excludeNics) || TooLong(v.includeMountpoints)
  {
  }

  ghost predicate TooLong(values: seq<string>) {
    |Cleaned(values)| > 128 || exists s :: s in Cleaned(values) && Utf8Length(s) > 512
  }

  lemma FromProtoIsIdempotent(base: Snapshot, revision: nat, v: Delivered)
    requires FromProto(base, revision, v).Some?
    ensures FromProto(FromProto(base, revision, v).value, revision, v) == FromProto(base, revision, v)
  {
  }

  /** The delivery that makes the settings of `w`, and those of `v` that `w` does not make.  A
      delivery always makes its lists, be they empty. */
  function Over(v: Delivered, w: Delivered): Delivered {
    w.(memoryIncludeCache := if w.memoryIncludeCache.Some? then w.memoryIncludeCache else v.memoryIncludeCache,
       detailedGpu := if w.detailedGpu.Some? then w.detailedGpu else v.detailedGpu,
       reportInterval := if w.reportInterval.Some? then w.reportInterval else v.reportInterval,
       trafficResetDay := if w.trafficResetDay.Some? then w.trafficResetDay else v.trafficResetDay,
       ipFromNic := if w.ipFromNic.Some? then w.ipFromNic else v.ipFromNic)
  }

  lemma MergedTwice(base: Snapshot, first: nat, v: Delivered, second: nat, w: Delivered)
    requires Deliverable(v) && Deliverable(w)
    ensures Merged(Merged(base, first, v), second, w) == Merged(base, second, Over(v, w))
    ensures Deliverable(Over(v, w))
  {
    hide Cleaned;
  }

  /** Two deliveries one after the other are one: what the later one sets wins, and what it does not
      set stays as the earlier one left it. */
  lemma LaterDeliveryWins(base: Snapshot, first: nat, v: Delivered, second: nat, w: Delivered)
    requires FromProto(base, first, v).Some?
    ensures FromProto(FromProto(base, first, v).value, second, w) == FromProto(base, second, Over(v, w))
  {
    hide Validates, Cleaned, Merged;
    if Deliverable(w) { MergedTwice(base, first, v, second, w); }
  }

  // ---- the store -----------------------------------------------------------------------

  datatype Persisted = Persisted(current: Snapshot, previous: Option<Snapshot>, receipts: seq<Bytes>)

  datatype Applied = Changed(next: Persisted) | Unchanged | Refusal

  /** What applying a configuration with an optional receipt does to the persisted state. */
  function Applying(p: Persisted, desired: Option<Desired>, receipt: Bytes): Applied {
    if desired.None? || desired.value.runtime.None? then Refusal
    else
      var revision := desired.value.revision;
      if revision == 0 || revision < p.current.revision then Refusal
      else if receipt != [] && |p.receipts| >= RECEIPT_LIMIT then Refusal
      else
        var next := FromProto(p.current, revision, desired.value.runtime.value);
        if next.None? then Refusal
        else if revision == p.current.revision then
          if next.value != p.current then Refusal
          else if receipt == [] then Unchanged
          else Changed(p.(receipts := p.receipts + [receipt]))
        else
          Changed(Persisted(next.value, Some(p.current), if receipt == [] then p.receipts else p.receipts + [receipt]))
  }

  function Swapped(p: Persisted): Persisted
    requires p.previous.Some?
  {
    Persisted(p.previous.value, Some(p.current), p.receipts)
  }

  /** Applying never goes back to an older revision, and keeps every waiting receipt in place. */
  lemma ApplyMovesForward(p: Persisted, desired: Option<Desired>, receipt: Bytes)
    requires Applying(p, desired, receipt).Changed?
    ensures var next := Applying(p, desired, receipt).next;
            && next.current.revision >= p.current.revision
            && next.receipts == p.receipts + (if receipt == [] then [] else [receipt])
            && desired.Some? && desired.value.runtime.Some? && next.current.revision == desired.value.revision > 0
            && FromProto(p.current, desired.value.revision, desired.value.runtime.value) == Some(next.current)
            && (next.current.revision == p.current.revision ==>
                  next.current == p.current && next.previous == p.previous)
            && (next.current.revision > p.current.revision ==> next.previous == Some(p.current))
  {
  }

  /** A configuration that may be applied is, unless it is older than the applied one, differs at the
      same revision, or brings a receipt that does not fit. */
  lemma AppliedExactly(p: Persisted, desired: Option<Desired>, receipt: Bytes)
    ensures Applying(p, desired, receipt).Refusal? <==>
              || desired.None? || desired.value.runtime.None? || desired.value.revision == 0
              || desired.value.revision < p.current.revision
              || (receipt != [] && |p.receipts| >= 1024)
              || (var next := FromProto(p.current, desired.value.revision, desired.value.runtime.value);
                  next.None? || (desired.value.revision == p.current.revision && next.value != p.current))
  {
  }

  /** The same delivery again leaves the snapshots alone, whatever receipt comes with it; it is
      refused exactly when its receipt finds the outbox full.  A different one under the same
      revision is refused also when it would mean something else. */
  lemma Redelivery(p: Persisted, revision: nat, v: Delivered, w: Delivered, receipt: Bytes, again: Bytes)
    requires revision > p.current.revision && Applying(p, Some(Desired(revision, Some(v))), receipt).Changed?
    ensures var q := Applying(p, Some(Desired(revision, Some(v))), receipt).next;
            var faithful := Applying(q, Some(Desired(revision, Some(v))), again);
            var other := Applying(q, Some(Desired(revision, Some(w))), again);
            && (faithful.Refusal? <==> again != [] && |q.receipts| >= RECEIPT_LIMIT)
            && (faithful.Unchanged? <==> again == [])
            && (faithful.Changed? ==> faithful.next == q.(receipts := q.receipts + [again]))
            && (other == if FromProto(q.current, revision, w) == Some(q.current) then faithful else Refusal)
  {
    FromProtoIsIdempotent(p.current, revision, v);
  }

  /** The failing case: the configuration is applied with the last receipt that fits, and the same
      delivery is refused. */
  lemma LastReceiptBlocksRedelivery(p: Persisted, revision: nat, v: Delivered, receipt: Bytes)
    requires revision > p.current.revision && FromProto(p.current, revision, v).Some?
    requires receipt != [] && |p.receipts| == RECEIPT_LIMIT - 1
    ensures var first := Applying(p, Some(Desired(revision, Some(v))), receipt);
            first.Changed? && Applying(first.next, Some(Desired(revision, Some(v))), receipt).Refusal?
  {
  }

  /** What is in memory and what is on disk. */
  datatype Installed = Installed(memory: Persisted, disk: Option<Persisted>)

  /** The Agent queues only messages that name a status and a time. */
  ghost predicate NoEmptyReceipt(i: Installed) {
    [] !in i.memory.receipts && (i.disk.Some? ==> [] !in i.disk.value.receipts)
  }

  class Store {
    var current: Snapshot
    var previous: Option<Snapshot>
    var receipts: seq<Bytes>
    var disk: Option<Persisted>

    function Memory(): Persisted
      reads this
    {
      Persisted(current, previous, receipts)
    }

    /** Both snapshots can always be loaded again, from memory and from disk. */
    predicate Loadable(p: Persisted) {
      Validates(p.current) && (p.previous.Some? ==> Validates(p.previous.value))
    }

    predicate Valid()
      reads this
    {
      Loadable(Memory()) && (disk.Some? ==> Loadable(disk.value))
    }

    ghost predicate Genuine()
      reads this
    {
      NoEmptyReceipt(Installed(Memory(), disk))
    }

    /** Starts from the flags, or from what is on disk if there is anything. */
    constructor (initial: Snapshot, disk: Option<Persisted>)
      requires Validates(initial)
      requires disk.Some? ==>
                Validates(disk.value.current) && (disk.value.previous.Some? ==> Validates(disk.value.previous.value))
      ensures Valid() && this.disk == disk
      ensures Memory() == if disk.Some? then disk.value else Persisted(initial, None, [])
    {
      this.disk := disk;
      current, previous, receipts := initial, None, [];
      if disk.Some? {
        current, previous, receipts := disk.value.current, disk.value.previous, disk.value.receipts;
      }
    }

    method Persist(p: Persisted, fate: Fate) returns (ok: bool)
      modifies this`disk
      ensures ok <==> fate.Fine?
      ensures disk == if fate.Refused? then old(disk) else Some(p)
    {
      if fate.Refused? { return false; }
      disk := Some(p);
      ok := fate.Fine?;
    }

    method ApplyWithReceipt(desired: Option<Desired>, receipt: Bytes, fate: Fate) returns (ok: bool)
      requires Valid()
      modifies this
      ensures Valid()
      ensures var a := Applying(old(Memory()), desired, receipt);
              && (ok <==> a.Unchanged? || (a.Changed? && fate.Fine?))
              && Memory() == (if ok && a.Changed? then a.next else old(Memory()))
              && disk == (if a.Changed? && !fate.Refused? then Some(a.next) else old(disk))
    {
      if desired.None? || desired.value.runtime.None? { return false; }
      var revision, runtime := desired.value.revision, desired.value.runtime.value;
      if revision == 0 { return false; }
      if revision < current.revision { return false; }
      if |receipt| > 0 && |receipts| >= RECEIPT_LIMIT { return false; }
      var next := FromProto(current, revision, runtime);
      if next.None? { return false; }
      if revision == current.revision {
        if next.value != current { return false; }
        if |receipt| == 0 { return true; }
        var more := receipts + [receipt];
        ok := Persist(Persisted(current, previous, more), fate);
        if ok { receipts := more; }
        return;
      }
      var before := Some(current);
      var more := receipts;
      if |receipt| > 0 { more := more + [receipt]; }
      ok := Persist(Persisted(next.value, before, more), fate);
      if !ok { return; }
      previous, receipts, current := before, more, next.value;
    }

    method Rollback(fate: Fate) returns (ok: bool)
      requires Valid()
      modifies this
      ensures Valid()
      ensures ok <==> old(previous).Some? && fate.Fine?
      ensures Memory() == if ok then Swapped(old(Memory())) else old(Memory())
      ensures ok ==> current == old(previous).value && previous == Some(old(current)) && receipts == old(receipts)
      ensures disk == if old(previous).Some? && !fate.Refused? then Some(Swapped(old(Memory()))) else old(disk)
    {
      if previous.None? { return false; }
      var rolledBack := previous.value;
      ok := Persist(Persisted(rolledBack, Some(current), receipts), fate);
      if !ok { return; }
      previous, current := Some(current), rolledBack;
    }

    /** The receipt at the head, or nothing. */
    method Receipt() returns (head: Bytes)
      ensures head == if receipts == [] then [] else receipts[0]
    {
      head := if |receipts| == 0 then [] else receipts[0];
    }

    method QueueReceipt(payload: Bytes, fate: Fate) returns (ok: bool)
      requires Valid()
      modifies this`receipts, this`disk
      ensures Valid()
      ensures ok <==> |old(receipts)| < RECEIPT_LIMIT && fate.Fine?
      ensures receipts == if ok then old(receipts) + [payload] else old(receipts)
      ensures disk == if |old(receipts)| < RECEIPT_LIMIT && !fate.Refused?
                      then Some(Persisted(current, previous, old(receipts) + [payload])) else old(disk)
    {
      if |receipts| >= RECEIPT_LIMIT { return false; }
      var next := receipts + [payload];
      ok := Persist(Persisted(current, previous, next), fate);
      if ok { receipts := next; }
    }

    /** Removes the head, and only if it still is the given receipt. */
    method FinishReceipt(payload: Bytes, fate: Fate) returns (ok: bool)
      requires Valid()
      modifies this`receipts, this`disk
      ensures Valid()
      ensures old(receipts) == [] || old(receipts)[0] != payload ==>
                ok && receipts == old(receipts) && disk == old(disk)
      ensures old(receipts) != [] && old(receipts)[0] == payload ==>
                && (ok <==> fate.Fine?)
                && receipts == (if ok then old(receipts)[1..] else old(receipts))
                && disk == (if fate.Refused? then old(disk) else Some(Persisted(current, previous, old(receipts)[1..])))
      ensures old(Genuine()) ==> Genuine()
    {
      if |receipts| == 0 || payload != receipts[0] { return true; }
      var next := receipts[1..];
      ok := Persist(Persisted(current, previous, next), fate);
      if ok { receipts := next; }
    }
  }

  // ---- runs of the store -------------------------------------------------------------------

  /** Two rollbacks are none: memory is as before, and the disk says so. */
  method RollbackTwiceIsIdentity(s: Store) returns (ok: bool)
    requires s.Valid() && s.previous.Some?
    modifies s
    ensures ok && s.Valid() && s.Memory() == old(s.Memory()) && s.disk == Some(old(s.Memory()))
  {
    ok := s.Rollback(Fine);
    if ok { ok := s.Rollback(Fine); }
  }

  /** A rollback after a newer configuration brings back the snapshot before it, and a redelivery
      then brings the newer one again. */
  method RollbackUndoesApply(s: Store, revision: nat, v: Delivered, receipt: Bytes) returns (undone: bool, again: bool)
    requires s.Valid() && revision > s.current.revision
    requires Applying(s.Memory(), Some(Desired(revision, Some(v))), receipt).Changed?
    modifies s
    ensures undone && again && s.Valid()
    ensures s.Memory() == Applying(old(s.Memory()), Some(Desired(revision, Some(v))), receipt).next
  {
    var applied := s.ApplyWithReceipt(Some(Desired(revision, Some(v))), receipt, Fine);
    undone := s.Rollback(Fine);
    assert s.current == old(s.current);
    again := s.ApplyWithReceipt(Some(Desired(revision, Some(v))), [], Fine);
  }

  datatype Operation =
    | DoApply(desired: Option<Desired>, receipt: Bytes, fate: Fate)
    | DoRollback(fate: Fate)
    | DoQueue(payload: Bytes, fate: Fate)
    | DoFinish(payload: Bytes, fate: Fate)
    | Restart(initial: Snapshot)

  function Written(i: Installed, next: Persisted, fate: Fate): Installed {
    Installed(if fate.Fine? then next else i.memory, if fate.Refused? then i.disk else Some(next))
  }

  /** Every operation as a function. */
  function Operated(i: Installed, op: Operation): Installed {
    match op
    case DoApply(desired, receipt, fate) =>
      var a := Applying(i.memory, desired, receipt);
      if a.Changed? then Written(i, a.next, fate) else i
    case DoRollback(fate) => if i.memory.previous.Some? then Written(i, Swapped(i.memory), fate) else i
    case DoQueue(payload, fate) =>
      if |i.memory.receipts| < RECEIPT_LIMIT
      then Written(i, i.memory.(receipts := i.memory.receipts + [payload]), fate) else i
    case DoFinish(payload, fate) =>
      if i.memory.receipts != [] && i.memory.receipts[0] == payload
      then Written(i, i.memory.(receipts := i.memory.receipts[1..]), fate) else i
    case Restart(initial) => Installed(if i.disk.Some? then i.disk.value else Persisted(initial, None, []), i.disk)
  }

  function Run(i: Installed, operations: seq<Operation>): Installed {
    if operations == [] then i
    else Operated(Run(i, operations[..|operations| - 1]), operations[|operations| - 1])
  }

  ghost function Of(s: Store): Installed
    reads s
  {
    Installed(s.Memory(), s.disk)
  }

  method Operate(s: Store, op: Operation) returns (after: Store)
    requires s.Valid() && (op.Restart? ==> Validates(op.initial))
    modifies s
    ensures (after == s || fresh(after)) && after.Valid() && Of(after) == Operated(old(Of(s)), op)
  {
    after := s;
    var ok;
    match op
    case DoApply(desired, receipt, fate) => ok := s.ApplyWithReceipt(desired, receipt, fate);
    case DoRollback(fate) => ok := s.Rollback(fate);
    case DoQueue(payload, fate) => ok := s.QueueReceipt(payload, fate);
    case DoFinish(payload, fate) => ok := s.FinishReceipt(payload, fate);
    case Restart(flags) => after := new Store(flags, s.disk);
  }

  /** Any operations, each with any outcome, and any restarts. */
  method OperateAll(s: Store, operations: seq<Operation>) returns (after: Store)
    requires s.Valid()
    requires forall i :: 0 <= i < |operations| && operations[i].Restart? ==> Validates(operations[i].initial)
    modifies s
    ensures after.Valid() && Of(after) == Run(old(Of(s)), operations)
  {
    hide Operated, Validates;
    after := s;
    for i := 0 to |operations|
      invariant (after == s || fresh(after)) && after.Valid()
      invariant Of(after) == Run(old(Of(s)), operations[..i])
    {
      after := Operate(after, operations[i]);
      assert operations[..i + 1][..i] == operations[..i];
    }
    assert operations[..|operations|] == operations;
  }

  /** Over any operations, failures and restarts, no empty receipt is ever queued, in memory or on
      disk. */
  lemma {:induction false} OnlyGenuineReceipts(i: Installed, operations: seq<Operation>)
    requires NoEmptyReceipt(i)
    requires forall k :: 0 <= k < |operations| && operations[k].DoQueue? ==> operations[k].payload != []
    ensures NoEmptyReceipt(Run(i, operations))
  {
    if operations != [] { OnlyGenuineReceipts(i, operations[..|operations| - 1]); }
  }

  /** What is on disk is at least as new as what is in memory, and without a file nothing was ever
      applied. */
  ghost predicate DiskIsAhead(i: Installed) {
    if i.disk.Some? then i.memory.current.revision <= i.disk.value.current.revision
    else i.memory.current.revision == 0
  }

  /** Without a rollback the applied revision never goes back, not even by a failed write or a
      restart. */
  lemma {:induction false} RevisionNeverFalls(i: Installed, operations: seq<Operation>)
    requires DiskIsAhead(i)
    requires forall k :: 0 <= k < |operations| ==> !operations[k].DoRollback?
    requires forall k :: 0 <= k < |operations| && operations[k].Restart? ==> operations[k].initial.revision == 0
    ensures var end := Run(i, operations);
            DiskIsAhead(end) && i.memory.current.revision <= end.memory.current.revision
  {
    hide FromProto;
    if operations != [] { RevisionNeverFalls(i, operations[..|operations| - 1]); }
  }
}
