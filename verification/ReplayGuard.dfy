/** The persisted record of instruction nonces that were already accepted. */
module ReplayGuard {
  import opened Options
  import opened Text

  const MAXIMUM: nat := 4096

  /** Nonces with their expiry, in nanoseconds. */
  type Record = map<string, int>

  /** `pruned` lost only expired entries and, if more than the maximum were left, entries that
      expire no later than any that stayed. */
  ghost predicate Pruned(before: Record, pruned: Record, now: int) {
    && pruned.Items <= before.Items
    && |pruned| <= MAXIMUM
    && (forall n :: n in pruned ==> now <= pruned[n])
    && (forall n :: n in before && n !in pruned && now <= before[n] ==>
          |pruned| == MAXIMUM && forall k :: k in pruned ==> before[n] <= pruned[k])
  }

  lemma SameValues(small: Record, large: Record)
    ensures small.Items <= large.Items <==> forall n :: n in small ==> n in large && small[n] == large[n]
  {
    if small.Items <= large.Items {
      forall n | n in small ensures n in large && small[n] == large[n] {
        assert (n, small[n]) in small.Items;
      }
    } else {
      var item :| item in small.Items && item !in large.Items;
      assert item.0 in small && small[item.0] == item.1;
    }
  }

  /** An unexpired entry stays if fewer than the maximum of the others expire as late as it. */
  lemma StaysRecorded(before: Record, pruned: Record, now: int, nonce: string, rivals: set<string>)
    requires Pruned(before, pruned, now) && nonce in before && now <= before[nonce] && |rivals| < MAXIMUM
    requires forall m :: m in before && m != nonce && before[nonce] <= before[m] ==> m in rivals
    ensures nonce in pruned && pruned[nonce] == before[nonce]
  {
    SameValues(pruned, before);
    Fewer(pruned.Keys, rivals);
  }

  /** An entry is lost, expired or not, if the maximum of others expire later. */
  lemma CrowdedOut(before: Record, pruned: Record, now: int, nonce: string, later: set<string>)
    requires Pruned(before, pruned, now) && nonce in before && now <= before[nonce] && |later| >= MAXIMUM
    requires forall m :: m in later ==> m in before && before[nonce] < before[m]
    ensures nonce !in pruned
  {
    SameValues(pruned, before);
    assert |later + {nonce}| == |later| + 1;
    Fewer(later + {nonce}, pruned.Keys);
  }

  lemma Fewer(a: set<string>, b: set<string>)
    ensures a <= b ==> |a| <= |b|
  {
    assert a <= b ==> b == a + (b - a);
  }

  /** The file holding the record; a record is replaced as a whole or not at all. */
  class RecordFile {
    var content: Option<Record>

    constructor ()
      ensures content == None
    {
      content := None;
    }
  }

  class Guard {
    const file: RecordFile
    var entries: Record
    var loaded: bool

    constructor (file: RecordFile)
      ensures this.file == file && !loaded && entries == map[]
    {
      this.file := file;
      entries, loaded := map[], false;
    }

    ghost function OnDisk(): Record
      reads file
    {
      if file.content.Some? then file.content.value else map[]
    }

    /** What is in memory is also on disk. */
    ghost predicate Valid()
      reads this, file
    {
      && (loaded ==> entries.Items <= OnDisk().Items)
      && (!loaded ==> entries == map[])
    }

    method Load(readable: bool) returns (ok: bool)
      requires Valid()
      modifies this
      ensures Valid()
      ensures ok <==> old(loaded) || readable
      ensures loaded == ok && entries == if old(loaded) || !ok then old(entries) else OnDisk()
    {
      if loaded { return true; }
      if !readable { return false; }
      if file.content.Some? { entries := file.content.value; }
      loaded := true;
      ok := true;
    }

    method DropExpired(now: int)
      modifies this`entries
      ensures entries == map n | n in old(entries) && now <= old(entries)[n] :: old(entries)[n]
    {
      var todo := entries.Keys;
      while todo != {}
        invariant todo <= entries.Keys && entries.Items <= old(entries).Items
        invariant forall n :: n in entries ==> n in old(entries) && entries[n] == old(entries)[n]
        invariant forall n :: n in old(entries) ==> n in todo || (n in entries <==> now <= old(entries)[n])
        invariant forall n :: n in todo ==> n in entries
        decreases |todo|
      {
        var nonce :| nonce in todo;
        todo := todo - {nonce};
        if now > entries[nonce] { entries := entries - {nonce}; }
      }
    }

    method Earliest() returns (oldest: string)
      requires |entries| > 0
      ensures oldest in entries && forall n :: n in entries ==> entries[oldest] <= entries[n]
    {
      assert entries.Keys != {};
      oldest :| oldest in entries;
      var todo := entries.Keys - {oldest};
      while todo != {}
        invariant todo <= entries.Keys && oldest in entries
        invariant forall n :: n in entries && n !in todo ==> entries[oldest] <= entries[n]
        decreases |todo|
      {
        var nonce :| nonce in todo;
        if entries[nonce] < entries[oldest] { oldest := nonce; }
        todo := todo - {nonce};
      }
    }

    method Prune(now: int)
      modifies this`entries
      ensures Pruned(old(entries), entries, now)
    {
      DropExpired(now);
      SameValues(entries, old(entries));
      while |entries| > MAXIMUM
        invariant forall n :: n in entries ==> n in old(entries) && entries[n] == old(entries)[n] && now <= entries[n]
        invariant forall n :: n in old(entries) && n !in entries && now <= old(entries)[n] ==>
                    |entries| >= MAXIMUM && forall k :: k in entries ==> old(entries)[n] <= entries[k]
        decreases |entries|
      {
        var oldest := Earliest();
        ghost var was := entries;
        entries := entries - {oldest};
        assert was.Keys == entries.Keys + {oldest};
        assert |entries.Keys| == |was.Keys| - 1;
      }
      SameValues(entries, old(entries));
    }

    /** The write either replaces the file or leaves it alone. */
    method Persist(written: bool)
      modifies file
      ensures file.content == if written then Some(entries) else old(file.content)
    {
      if written { file.content := Some(entries); }
    }

    /** The record this guard answers from. */
    ghost function Held(): Record
      reads this, file
    {
      if loaded then entries else OnDisk()
    }

    /** Accepts a nonce only if it is not on record, and then has it on disk before returning. */
    method Consume(nonce: string, expiresAt: Option<int>, now: int, readable: bool, written: bool)
      returns (ok: bool, ghost pruned: Record)
      requires Valid()
      modifies this, file
      ensures Valid() && loaded == (old(loaded) || (readable && TrimSpace(nonce) != ""))
      ensures loaded && TrimSpace(nonce) != "" ==> Pruned(old(Held()), pruned, now)
      ensures ok <==> loaded && TrimSpace(nonce) != "" && TrimSpace(nonce) !in pruned && expiresAt.Some? && written
      ensures ok ==> entries == pruned[TrimSpace(nonce) := expiresAt.value] && file.content == Some(entries)
      ensures !ok ==> file.content == old(file.content)
      ensures !ok ==> entries == if loaded && TrimSpace(nonce) != "" then pruned else old(entries)
    {
      pruned := map[];
      var trimmed := TrimSpace(nonce);
      if trimmed == "" { return false, pruned; }
      var usable := Load(readable);
      if !usable { return false, pruned; }
      ghost var before := entries;
      Prune(now);
      pruned := entries;
      assert pruned.Items <= OnDisk().Items;
      if trimmed in entries { return false, pruned; }
      if expiresAt.None? { return false, pruned; }
      entries := entries[trimmed := expiresAt.value];
      Persist(written);
      if !written {
        entries := entries - {trimmed};
        assert entries == pruned;
        return false, pruned;
      }
      ok := true;
    }

    /** Whether a nonce is on record; unable to tell, it says so. */
    method Seen(nonce: string, now: int, readable: bool) returns (seen: bool)
      requires Valid()
      modifies this
      ensures Valid() && loaded == (old(loaded) || readable)
      ensures loaded ==> Pruned(old(Held()), entries, now) && seen == (TrimSpace(nonce) in entries)
      ensures !loaded ==> seen && entries == old(entries)
    {
      var usable := Load(readable);
      if !usable { return true; }
      Prune(now);
      seen := TrimSpace(nonce) in entries;
    }
  }

  // ---- a nonce over a whole run ------------------------------------------------------------

  datatype Step =
    | Use(nonce: string, expiresAt: Option<int>, now: int, readable: bool, written: bool)
    | Look(nonce: string, now: int, readable: bool)
    | Restart

  /** No step's clock is past the expiry, and any nonce offered that expires as late is a rival. */
  ghost predicate Before(step: Step, key: string, expiry: int, rivals: set<string>) {
    && (step.Use? ==> step.now <= expiry && (TrimSpace(step.nonce) == key || TrimSpace(step.nonce) in rivals
                                             || step.expiresAt.None? || step.expiresAt.value < expiry))
    && (step.Look? ==> step.now <= expiry)
  }

  ghost predicate Recorded(record: Record, key: string, expiry: int, rivals: set<string>) {
    && key in record && record[key] == expiry
    && forall m :: m in record && m != key && expiry <= record[m] ==> m in rivals
  }

  lemma StillRecorded(before: Record, pruned: Record, now: int, key: string, expiry: int, rivals: set<string>)
    requires Recorded(before, key, expiry, rivals) && Pruned(before, pruned, now) && now <= expiry && |rivals| < MAXIMUM
    ensures Recorded(pruned, key, expiry, rivals)
  {
    StaysRecorded(before, pruned, now, key, rivals);
    SameValues(pruned, before);
  }

  /** A consumed nonce is refused by every later call up to its expiry, in this process and after
      any restarts, whatever other nonces come, provided fewer than the maximum of those expire as
      late as it does. */
  method NeverTwice(start: Guard, steps: seq<Step>, key: string, expiry: int, rivals: set<string>)
    returns (accepted: seq<bool>)
    requires start.Valid() && |rivals| < MAXIMUM
    requires Recorded(start.Held(), key, expiry, rivals) && Recorded(start.OnDisk(), key, expiry, rivals)
    requires forall i :: 0 <= i < |steps| ==> Before(steps[i], key, expiry, rivals)
    modifies start, start.file
    ensures |accepted| == |steps|
    ensures forall i :: 0 <= i < |steps| && steps[i].Use? && TrimSpace(steps[i].nonce) == key ==> !accepted[i]
    ensures key in start.OnDisk()
  {
    var g := start;
    accepted := [];
    for i := 0 to |steps|
      invariant g.file == start.file && g.Valid() && (fresh(g) || g == start) && |accepted| == i
      invariant Recorded(g.Held(), key, expiry, rivals) && Recorded(g.OnDisk(), key, expiry, rivals)
      invariant forall k :: 0 <= k < i && steps[k].Use? && TrimSpace(steps[k].nonce) == key ==> !accepted[k]
    {
      assert Before(steps[i], key, expiry, rivals);
      ghost var held := g.Held();
      var ok := false;
      match steps[i] {
        case Use(nonce, expiresAt, now, readable, written) =>
          ghost var pruned;
          ok, pruned := g.Consume(nonce, expiresAt, now, readable, written);
          if g.loaded && TrimSpace(nonce) != "" { StillRecorded(held, pruned, now, key, expiry, rivals); }
        case Look(nonce, now, readable) =>
          var seen := g.Seen(nonce, now, readable);
          if g.loaded { StillRecorded(held, g.entries, now, key, expiry, rivals); }
        case Restart =>
          g := new Guard(start.file);
      }
      accepted := accepted + [ok];
    }
  }

  // ---- the life of one nonce, exactly ------------------------------------------------------

  /** What is on record about one nonce: its expiry in memory, or what would be loaded, and on disk. */
  datatype Life = Life(loaded: bool, memory: Option<int>, disk: Option<int>)

  function Unexpired(expiry: Option<int>, now: int): Option<int> {
    if expiry.Some? && now <= expiry.value then expiry else None
  }

  /** The step gets to see the record. */
  predicate Reads(l: Life, step: Step) {
    || (step.Use? && TrimSpace(step.nonce) != "" && (l.loaded || step.readable))
    || (step.Look? && (l.loaded || step.readable))
  }

  predicate UseOf(step: Step, key: string) {
    step.Use? && TrimSpace(step.nonce) == key
  }

  /** A use of the nonce is accepted exactly if nothing unexpired is in memory about it. */
  predicate Accepts(l: Life, step: Step) {
    step.Use? && Reads(l, step) && Unexpired(l.memory, step.now).None? && step.expiresAt.Some? && step.written
  }

  /** Every read forgets in memory what has expired, every accepted use brings the disk up to memory,
      and every restart brings memory back to the disk. */
  function Lived(l: Life, step: Step, key: string, accepted: bool): Life {
    if step.Restart? then Life(false, l.disk, l.disk)
    else if !Reads(l, step) then l
    else
      var left := Unexpired(l.memory, step.now);
      if UseOf(step, key) && accepted then Life(true, step.expiresAt, step.expiresAt)
      else Life(true, left, if accepted then left else l.disk)
  }

  function LifeAfter(l: Life, steps: seq<Step>, key: string, accepted: seq<bool>): Life
    requires |steps| <= |accepted|
  {
    if steps == [] then l
    else
      var n := |steps| - 1;
      Lived(LifeAfter(l, steps[..n], key, accepted), steps[n], key, accepted[n])
  }

  function Find(record: Record, key: string): Option<int> {
    if key in record then Some(record[key]) else None
  }

  ghost function LifeIn(g: Guard, key: string): Life
    reads g, g.file
  {
    Life(g.loaded, Find(g.Held(), key), Find(g.OnDisk(), key))
  }

  /** No other nonces than these are on record. */
  ghost predicate Sparse(g: Guard, key: string, others: set<string>)
    reads g, g.file
  {
    g.Held().Keys <= others + {key} && g.OnDisk().Keys <= others + {key}
  }

  /** Where fewer than the maximum of other nonces are on record, pruning forgets just the expired. */
  lemma PrunedFinds(before: Record, pruned: Record, now: int, key: string, others: set<string>)
    requires Pruned(before, pruned, now) && before.Keys <= others + {key} && key !in others && |others| < MAXIMUM
    ensures Find(pruned, key) == Unexpired(Find(before, key), now) && pruned.Keys <= others + {key}
  {
    SameValues(pruned, before);
    if key in before && now <= before[key] { StaysRecorded(before, pruned, now, key, others); }
  }

  method Take(g: Guard, step: Step, key: string, others: set<string>) returns (ok: bool, after: Guard)
    requires g.Valid() && Sparse(g, key, others) && key !in others && |others| < MAXIMUM
    requires step.Use? ==> TrimSpace(step.nonce) in others + {key, ""}
    modifies g, g.file
    ensures (after == g || fresh(after)) && after.file == g.file && after.Valid() && Sparse(after, key, others)
    ensures UseOf(step, key) ==> ok == Accepts(old(LifeIn(g, key)), step)
    ensures ok ==> Reads(old(LifeIn(g, key)), step) && step.Use?
    ensures LifeIn(after, key) == Lived(old(LifeIn(g, key)), step, key, ok)
  {
    ok, after := false, g;
    ghost var held := g.Held();
    match step
    case Use(nonce, expiresAt, now, readable, written) =>
      ghost var pruned;
      ok, pruned := g.Consume(nonce, expiresAt, now, readable, written);
      if g.loaded && TrimSpace(nonce) != "" { PrunedFinds(held, pruned, now, key, others); }
    case Look(nonce, now, readable) =>
      var seen := g.Seen(nonce, now, readable);
      if g.loaded { PrunedFinds(held, g.entries, now, key, others); }
    case Restart =>
      after := new Guard(g.file);
  }

  /** Exactly which of the first `n` uses of the nonce are accepted; whatever is accepted was a use
      that read the record. */
  ghost predicate Answers(l: Life, steps: seq<Step>, key: string, n: nat, accepted: seq<bool>) {
    && n == |accepted| <= |steps|
    && (forall i :: 0 <= i < n && UseOf(steps[i], key) ==>
          accepted[i] == Accepts(LifeAfter(l, steps[..i], key, accepted), steps[i]))
    && (forall i :: 0 <= i < n && accepted[i] ==>
          steps[i].Use? && Reads(LifeAfter(l, steps[..i], key, accepted), steps[i]))
  }

  lemma NoAnswers(l: Life, steps: seq<Step>, key: string)
    ensures Answers(l, steps, key, 0, []) && LifeAfter(l, steps[..0], key, []) == l && steps[..|steps|] == steps
  {
  }

  lemma OneMoreAnswer(l: Life, steps: seq<Step>, key: string, n: nat, accepted: seq<bool>, ok: bool)
    requires n < |steps| && Answers(l, steps, key, n, accepted)
    requires var now := LifeAfter(l, steps[..n], key, accepted);
             (UseOf(steps[n], key) ==> ok == Accepts(now, steps[n])) && (ok ==> steps[n].Use? && Reads(now, steps[n]))
    ensures Answers(l, steps, key, n + 1, accepted + [ok])
    ensures LifeAfter(l, steps[..n + 1], key, accepted + [ok])
         == Lived(LifeAfter(l, steps[..n], key, accepted), steps[n], key, ok)
  {
    hide Reads, Lived, Accepts, UseOf;
    forall i | 0 <= i <= n
      ensures LifeAfter(l, steps[..i], key, accepted + [ok]) == LifeAfter(l, steps[..i], key, accepted)
    {
      SameLife(l, steps[..i], key, accepted + [ok], accepted);
    }
    assert steps[..n + 1][..n] == steps[..n];
  }

  /** Any uses of any nonces, with looks at the record, failures and restarts: exactly which uses of
      one nonce are accepted, while fewer than the maximum of others are on record. */
  method AnyUses(start: Guard, steps: seq<Step>, key: string, others: set<string>)
    returns (accepted: seq<bool>, g: Guard)
    requires start.Valid() && Sparse(start, key, others) && key !in others && |others| < MAXIMUM
    requires forall i :: 0 <= i < |steps| && steps[i].Use? ==> TrimSpace(steps[i].nonce) in others + {key, ""}
    modifies start, start.file
    ensures Answers(old(LifeIn(start, key)), steps, key, |steps|, accepted)
    ensures |accepted| == |steps| && LifeIn(g, key) == LifeAfter(old(LifeIn(start, key)), steps, key, accepted)
  {
    hide *;
    ghost var born := LifeIn(start, key);
    g, accepted := start, [];
    NoAnswers(born, steps, key);
    for n := 0 to |steps|
      invariant g.file == start.file && g.Valid() && (fresh(g) || g == start) && Sparse(g, key, others)
      invariant |accepted| == n && LifeIn(g, key) == LifeAfter(born, steps[..n], key, accepted)
      invariant Answers(born, steps, key, n, accepted)
    {
      var ok;
      ok, g := Take(g, steps[n], key, others);
      OneMoreAnswer(born, steps, key, n, accepted, ok);
      accepted := accepted + [ok];
    }
  }

  lemma {:induction false} SameLife(l: Life, steps: seq<Step>, key: string, a: seq<bool>, b: seq<bool>)
    requires |steps| <= |a| && |steps| <= |b| && forall i :: 0 <= i < |steps| ==> a[i] == b[i]
    ensures LifeAfter(l, steps, key, a) == LifeAfter(l, steps, key, b)
  {
    if steps != [] { SameLife(l, steps[..|steps| - 1], key, a, b); }
  }

  // ---- when a used nonce is forgotten ------------------------------------------------------

  /** Other nonces and restarts only; what is accepted was a use that read the record. */
  ghost predicate Meanwhile(l: Life, steps: seq<Step>, key: string, accepted: seq<bool>) {
    && |steps| <= |accepted|
    && forall i :: 0 <= i < |steps| ==>
         && !UseOf(steps[i], key)
         && (accepted[i] ==> Reads(LifeAfter(l, steps[..i], key, accepted), steps[i]))
  }

  predicate ReadPast(l: Life, step: Step, expiry: int) {
    Reads(l, step) && expiry < step.now
  }

  /** Step `i` read the record past the expiry, and no restart followed before step `m`. */
  ghost predicate Lapse(l: Life, steps: seq<Step>, key: string, accepted: seq<bool>, expiry: int, i: nat, m: nat)
    requires |steps| <= |accepted|
  {
    && i < |steps| && m <= |steps|
    && ReadPast(LifeAfter(l, steps[..i], key, accepted), steps[i], expiry)
    && forall k :: i < k < m ==> !steps[k].Restart?
  }

  /** Memory has forgotten the nonce and was not loaded again since. */
  ghost predicate OutOfMemory(l: Life, steps: seq<Step>, key: string, accepted: seq<bool>, expiry: int)
    requires |steps| <= |accepted|
  {
    exists i: nat :: Lapse(l, steps, key, accepted, expiry, i, |steps|)
  }

  /** Memory had forgotten the nonce when another one was accepted, and with that the disk did too. */
  ghost predicate OffDisk(l: Life, steps: seq<Step>, key: string, accepted: seq<bool>, expiry: int)
    requires |steps| <= |accepted|
  {
    exists i: nat, m: nat :: i <= m < |steps| && accepted[m] && Lapse(l, steps, key, accepted, expiry, i, m)
  }

  lemma LapseEarlier(l: Life, steps: seq<Step>, key: string, accepted: seq<bool>, expiry: int, i: nat, m: nat)
    requires |steps| <= |accepted| && i < |steps| - 1 && m < |steps|
    ensures Lapse(l, steps, key, accepted, expiry, i, m)
       <==> Lapse(l, steps[..|steps| - 1], key, accepted, expiry, i, m)
  {
    assert steps[..|steps| - 1][..i] == steps[..i];
  }

  lemma LapseLast(l: Life, steps: seq<Step>, key: string, accepted: seq<bool>, expiry: int, m: nat)
    requires 0 < |steps| <= |accepted| && |steps| - 1 <= m <= |steps|
    ensures var n := |steps| - 1;
            Lapse(l, steps, key, accepted, expiry, n, m) <==>
              ReadPast(LifeAfter(l, steps[..n], key, accepted), steps[n], expiry)
  {
  }

  lemma LapseContinues(l: Life, steps: seq<Step>, key: string, accepted: seq<bool>, expiry: int, i: nat)
    requires |steps| <= |accepted| && i < |steps| - 1
    ensures Lapse(l, steps, key, accepted, expiry, i, |steps|) <==>
              Lapse(l, steps, key, accepted, expiry, i, |steps| - 1) && !steps[|steps| - 1].Restart?
  {
    hide ReadPast;
  }

  lemma LapseInside(l: Life, steps: seq<Step>, key: string, accepted: seq<bool>, expiry: int, i: nat, m: nat)
    requires |steps| <= |accepted| && Lapse(l, steps, key, accepted, expiry, i, m)
    ensures i < |steps|
  {
  }

  lemma OutOfMemoryBy(l: Life, steps: seq<Step>, key: string, accepted: seq<bool>, expiry: int, i: nat)
    requires |steps| <= |accepted| && Lapse(l, steps, key, accepted, expiry, i, |steps|)
    ensures OutOfMemory(l, steps, key, accepted, expiry)
  {
  }

  lemma OffDiskBy(l: Life, steps: seq<Step>, key: string, accepted: seq<bool>, expiry: int, i: nat, m: nat)
    requires |steps| <= |accepted| && i <= m < |steps| && accepted[m] && Lapse(l, steps, key, accepted, expiry, i, m)
    ensures OffDisk(l, steps, key, accepted, expiry)
  {
  }

  lemma OutOfMemoryNext(l: Life, steps: seq<Step>, key: string, accepted: seq<bool>, expiry: int)
    requires 0 < |steps| <= |accepted|
    ensures var n := |steps| - 1;
            OutOfMemory(l, steps, key, accepted, expiry) <==>
              || (OutOfMemory(l, steps[..n], key, accepted, expiry) && !steps[n].Restart?)
              || ReadPast(LifeAfter(l, steps[..n], key, accepted), steps[n], expiry)
  {
    hide Lapse, ReadPast, LifeAfter;
    var n := |steps| - 1;
    LapseLast(l, steps, key, accepted, expiry, |steps|);
    if OutOfMemory(l, steps, key, accepted, expiry) {
      var i: nat :| Lapse(l, steps, key, accepted, expiry, i, |steps|);
      LapseInside(l, steps, key, accepted, expiry, i, |steps|);
      if i < n {
        LapseContinues(l, steps, key, accepted, expiry, i);
        LapseEarlier(l, steps, key, accepted, expiry, i, n);
        OutOfMemoryBy(l, steps[..n], key, accepted, expiry, i);
      }
    }
    if OutOfMemory(l, steps[..n], key, accepted, expiry) && !steps[n].Restart? {
      var i: nat :| Lapse(l, steps[..n], key, accepted, expiry, i, |steps[..n]|);
      LapseInside(l, steps[..n], key, accepted, expiry, i, n);
      LapseEarlier(l, steps, key, accepted, expiry, i, n);
      LapseContinues(l, steps, key, accepted, expiry, i);
      OutOfMemoryBy(l, steps, key, accepted, expiry, i);
    }
    if ReadPast(LifeAfter(l, steps[..n], key, accepted), steps[n], expiry) {
      OutOfMemoryBy(l, steps, key, accepted, expiry, n);
    }
  }

  lemma OffDiskNext(l: Life, steps: seq<Step>, key: string, accepted: seq<bool>, expiry: int)
    requires 0 < |steps| <= |accepted|
    ensures var n := |steps| - 1;
            OffDisk(l, steps, key, accepted, expiry) <==>
              || OffDisk(l, steps[..n], key, accepted, expiry)
              || (accepted[n] && (OutOfMemory(l, steps[..n], key, accepted, expiry)
                                  || ReadPast(LifeAfter(l, steps[..n], key, accepted), steps[n], expiry)))
  {
    hide Lapse, ReadPast, LifeAfter;
    var n := |steps| - 1;
    LapseLast(l, steps, key, accepted, expiry, n);
    if OffDisk(l, steps, key, accepted, expiry) {
      var i: nat, m: nat :| i <= m < |steps| && accepted[m] && Lapse(l, steps, key, accepted, expiry, i, m);
      if i < n {
        LapseEarlier(l, steps, key, accepted, expiry, i, m);
        if m < n {
          OffDiskBy(l, steps[..n], key, accepted, expiry, i, m);
        } else {
          OutOfMemoryBy(l, steps[..n], key, accepted, expiry, i);
        }
      }
    }
    if OffDisk(l, steps[..n], key, accepted, expiry) {
      var i: nat, m: nat :| i <= m < |steps[..n]| && accepted[m] && Lapse(l, steps[..n], key, accepted, expiry, i, m);
      LapseEarlier(l, steps, key, accepted, expiry, i, m);
      OffDiskBy(l, steps, key, accepted, expiry, i, m);
    }
    if accepted[n] && OutOfMemory(l, steps[..n], key, accepted, expiry) {
      var i: nat :| Lapse(l, steps[..n], key, accepted, expiry, i, |steps[..n]|);
      LapseInside(l, steps[..n], key, accepted, expiry, i, n);
      LapseEarlier(l, steps, key, accepted, expiry, i, n);
      OffDiskBy(l, steps, key, accepted, expiry, i, n);
    }
    if accepted[n] && ReadPast(LifeAfter(l, steps[..n], key, accepted), steps[n], expiry) {
      OffDiskBy(l, steps, key, accepted, expiry, n, n);
    }
  }

  /** A used nonce is gone from memory, and from disk, exactly in these cases. */
  lemma {:induction false} ForgottenExactly(l: Life, steps: seq<Step>, key: string, accepted: seq<bool>, expiry: int)
    requires l.memory == l.disk == Some(expiry) && Meanwhile(l, steps, key, accepted)
    ensures var end := LifeAfter(l, steps, key, accepted);
            var offDisk := OffDisk(l, steps, key, accepted, expiry);
            && (end.memory == if OutOfMemory(l, steps, key, accepted, expiry) || offDisk then None else Some(expiry))
            && (end.disk == if offDisk then None else Some(expiry))
  {
    if steps != [] {
      var n := |steps| - 1;
      forall i | 0 <= i < n ensures steps[..n][..i] == steps[..i] {
      }
      ForgottenExactly(l, steps[..n], key, accepted, expiry);
      OutOfMemoryNext(l, steps, key, accepted, expiry);
      OffDiskNext(l, steps, key, accepted, expiry);
    }
  }

  /** The second use of a nonce, with other nonces, looks and restarts in between: a use that could
      be accepted is, exactly if its own clock is past the expiry, or memory forgot the nonce past
      the expiry and no restart followed, or another nonce was accepted before the next restart. */
  lemma SecondUse(l: Life, steps: seq<Step>, key: string, accepted: seq<bool>, expiry: int, again: Step)
    requires l.memory == l.disk == Some(expiry) && Meanwhile(l, steps, key, accepted)
    requires UseOf(again, key) && again.readable && again.expiresAt.Some? && again.written && key != ""
    ensures Accepts(LifeAfter(l, steps, key, accepted), again) <==>
              || expiry < again.now
              || OutOfMemory(l, steps, key, accepted, expiry) || OffDisk(l, steps, key, accepted, expiry)
  {
    hide OutOfMemory, OffDisk, Meanwhile, LifeAfter;
    ForgottenExactly(l, steps, key, accepted, expiry);
  }

  /** Past the expiry the record is forgotten for good: if the clock then steps back, the nonce is
      accepted again while it is still valid. */
  method ClockStepBackReopens(g: Guard, nonce: string, expiry: int, first: int, late: int,
                              back: int) returns (again: bool)
    requires g.Valid() && g.loaded && TrimSpace(nonce) != "" && TrimSpace(nonce) !in g.entries
    requires first <= expiry && back <= expiry < late
    modifies g, g.file
    ensures again
  {
    ghost var pruned;
    again, pruned := g.Consume(nonce, Some(expiry), first, true, true);
    SameValues(pruned, old(g.entries));
    ghost var record := g.entries;
    var seen := g.Seen(nonce, late, true);
    SameValues(g.entries, record);
    ghost var left := g.entries;
    again, pruned := g.Consume(nonce, Some(expiry), back, true, true);
    SameValues(pruned, left);
  }
}
