/** Reading the upgrade journals left on disk. */
module UpgradeState {
  import opened Options
  import opened HostDisk

  predicate Unfinished(u: UpgradeDir) {
    u.journal.Some? && !u.journal.value.phase.UCompleted? && !u.journal.value.phase.URestored?
  }

  predicate Idle(upgrades: seq<UpgradeDir>) {
    forall i :: 0 <= i < |upgrades| ==> !Unfinished(upgrades[i])
  }

  ghost predicate OnlyUnfinished(upgrades: seq<UpgradeDir>, k: nat) {
    forall i :: 0 <= i < |upgrades| ==> (Unfinished(upgrades[i]) <==> i == k)
  }

  /** No bits beyond the nine permission bits, nothing writable by group or others, readable by
      its owner; executables have an execute bit and the configuration is private. */
  predicate SafeMode(i: nat, mode: nat) {
    && mode < 0x200
    && (mode / 2) % 2 == 0 && (mode / 16) % 2 == 0
    && (mode / 256) % 2 == 1
    && (i < 3 ==> (mode / 64) % 2 + (mode / 8) % 2 + mode % 2 > 0)
    && (i == 3 ==> mode % 64 == 0)
  }

  lemma BitsOfDigits(owner: nat, group: nat, other: nat)
    requires owner < 8 && group < 8 && other < 8
    ensures var mode := 64 * owner + 8 * group + other;
            && mode < 0x200 && mode % 64 == 8 * group + other
            && mode % 2 == other % 2 && (mode / 2) % 2 == (other / 2) % 2
            && (mode / 8) % 2 == group % 2 && (mode / 16) % 2 == (group / 2) % 2
            && (mode / 64) % 2 == owner % 2 && (mode / 256) % 2 == owner / 4
  {
    var mode := 64 * owner + 8 * group + other;
    assert mode / 2 == 2 * (16 * owner + 2 * group) + other / 2;
    assert mode / 8 == 2 * (4 * owner) + group;
    assert mode / 16 == 2 * (2 * owner) + group / 2;
    assert mode / 64 == owner && mode / 256 == owner / 4;
  }

  /** In octal digits: the owner reads; group and others never write; a configuration is the owner's
      alone, and an executable can be executed by someone. */
  lemma SafeModeDigits(i: nat, owner: nat, group: nat, other: nat)
    requires owner < 8 && group < 8 && other < 8 && i < 4
    ensures SafeMode(i, 64 * owner + 8 * group + other) <==>
              && owner >= 4 && group in {0, 1, 4, 5} && other in {0, 1, 4, 5}
              && (i == 3 ==> group == 0 && other == 0)
              && (i < 3 ==> owner in {5, 7} || group in {1, 5} || other in {1, 5})
  {
    BitsOfDigits(owner, group, other);
    BitsOfDigit(owner);
    BitsOfDigit(group);
    BitsOfDigit(other);
  }

  lemma BitsOfDigit(d: nat)
    requires d < 8
    ensures (d / 2) % 2 == 0 <==> d == 0 || d == 1 || d == 4 || d == 5
    ensures d % 2 == if d == 1 || d == 3 || d == 5 || d == 7 then 1 else 0
    ensures d / 4 == if d >= 4 then 1 else 0
  {
  }

  predicate ValidJournal(s: UpgradeJournal) {
    && (s.phase.UPrepared? || s.phase.UReplacing? || s.phase.URestoreFailed?)
    && s.bound && |s.modes| == 4 && |s.active| == 2
    && forall i :: 0 <= i < 4 ==> SafeMode(i, s.modes[i])
  }

  datatype PendingUpgrade = NonePending | OnePending(index: nat) | Unsafe

  /** The only unfinished upgrade, if its journal is safe to act on; two are never acted on. */
  method PendingSoftwareUpgrade(d: Disk) returns (r: PendingUpgrade)
    modifies d`up
    ensures d.up ==> old(d.up)
    ensures !r.Unsafe? ==> d.up
    ensures r.NonePending? ==> Idle(d.upgrades)
    ensures r.OnePending? ==> r.index < |d.upgrades| && OnlyUnfinished(d.upgrades, r.index)
                              && ValidJournal(d.upgrades[r.index].journal.value)
    ensures r.OnePending? ==> var s := d.upgrades[r.index].journal.value;
              s.bound && |s.modes| == 4 && |s.active| == 2 && s.phase in {UPrepared, UReplacing, URestoreFailed}
  {
    var listed := d.Ask();
    if !listed { return Unsafe; }
    r := NonePending;
    for i := 0 to |d.upgrades|
      invariant d.up && !r.Unsafe?
      invariant r.NonePending? ==> forall k :: 0 <= k < i ==> !Unfinished(d.upgrades[k])
      invariant r.OnePending? ==>
                r.index < i && (forall k :: 0 <= k < i ==> (Unfinished(d.upgrades[k]) <==> k == r.index))
                                  && ValidJournal(d.upgrades[r.index].journal.value)
    {
      var u := d.upgrades[i];
      if u.journal.None? { continue; }
      var read := d.Ask();
      if !read { return Unsafe; }
      if !Unfinished(u) { continue; }
      if !ValidJournal(u.journal.value) { return Unsafe; }
      if r.OnePending? { return Unsafe; }
      r := OnePending(i);
    }
  }
}
