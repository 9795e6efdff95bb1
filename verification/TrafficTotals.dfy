/** Traffic accounting per network interface: samples go to a cache, the cache is flushed into
    the store, and the totals add up both, in the source's 64-bit arithmetic. */
module TrafficTotals {
  const MODULUS: int := 0x1_0000_0000_0000_0000

  type uint64 = x: int | 0 <= x < MODULUS

  function Add(a: uint64, b: uint64): uint64 {
    if a + b < MODULUS then a + b else a + b - MODULUS
  }

  /** Bytes sent and received. */
  datatype Amount = Amount(tx: uint64, rx: uint64)

  const NOTHING := Amount(0, 0)

  datatype Traffic = Traffic(timestamp: uint64, amount: Amount)

  /** One interface's counters as the system reports them. */
  datatype Reading = Reading(name: string, counters: Amount)

  function Plus(a: Amount, b: Amount): Amount {
    Amount(Add(a.tx, b.tx), Add(a.rx, b.rx))
  }

  lemma PlusLaws(a: Amount, b: Amount, c: Amount)
    ensures Plus(Plus(a, b), c) == Plus(a, Plus(b, c)) == Plus(b, Plus(a, c))
    ensures Plus(a, b) == Plus(b, a) && Plus(a, NOTHING) == a
  {
  }

  function SafeDelta(current: uint64, previous: uint64): uint64 {
    if current >= previous then current - previous else 0
  }

  function Delta(current: Amount, previous: Amount): Amount {
    Amount(SafeDelta(current.tx, previous.tx), SafeDelta(current.rx, previous.rx))
  }

  function Sum(s: seq<Traffic>): Amount {
    if s == [] then NOTHING else Plus(Sum(s[..|s| - 1]), s[|s| - 1].amount)
  }

  lemma {:induction false} SumConcat(s: seq<Traffic>, t: seq<Traffic>)
    ensures Sum(s + t) == Plus(Sum(s), Sum(t))
  {
    hide Plus;
    PlusLaws(Sum(s), NOTHING, NOTHING);
    if t == [] {
      assert s + t == s;
    } else {
      var init := t[..|t| - 1];
      assert (s + t)[..|s + t| - 1] == s + init;
      SumConcat(s, init);
      PlusLaws(Sum(s), Sum(init), t[|t| - 1].amount);
    }
  }

  lemma EmptyIsNothing()
    ensures Sum([]) == NOTHING && forall a :: Plus(a, NOTHING) == a == Plus(NOTHING, a)
  {
  }

  lemma NothingToPurge(cutoff: uint64)
    ensures Recent([], cutoff) == [] && Sum(Expired([], cutoff)) == NOTHING && forall a :: Plus(a, NOTHING) == a
  {
  }

  lemma SumOne(t: Traffic)
    ensures Sum([t]) == t.amount
  {
    assert Sum([t]) == Plus(Sum([]), t.amount);
  }

  // ---- what a sequence of readings is worth ------------------------------------------------

  /** What the readings of one interface amount to; a smaller reading counts as no traffic. */
  function Accounted(readings: seq<Amount>): Amount {
    if |readings| < 2 then NOTHING
    else Plus(Accounted(readings[..|readings| - 1]), Delta(readings[|readings| - 1], readings[|readings| - 2]))
  }

  /** The two counters of an interface are accounted for independently. */
  lemma {:induction false} CountersAreIndependent(a: seq<Amount>, b: seq<Amount>)
    requires |a| == |b|
    ensures (forall i :: 0 <= i < |a| ==> a[i].tx == b[i].tx) ==> Accounted(a).tx == Accounted(b).tx
    ensures (forall i :: 0 <= i < |a| ==> a[i].rx == b[i].rx) ==> Accounted(a).rx == Accounted(b).rx
  {
    if |a| >= 2 { CountersAreIndependent(a[..|a| - 1], b[..|b| - 1]); }
  }

  ghost predicate Nondecreasing(readings: seq<Amount>) {
    forall i :: 0 < i < |readings| ==> readings[i - 1].tx <= readings[i].tx && readings[i - 1].rx <= readings[i].rx
  }

  /** Without a reset the total is the last reading less the first, exactly. */
  lemma {:induction false} Telescopes(readings: seq<Amount>)
    requires readings != [] && Nondecreasing(readings)
    ensures readings[0].tx <= readings[|readings| - 1].tx && readings[0].rx <= readings[|readings| - 1].rx
    ensures Accounted(readings).tx == readings[|readings| - 1].tx - readings[0].tx
    ensures Accounted(readings).rx == readings[|readings| - 1].rx - readings[0].rx
  {
    if |readings| > 1 { Telescopes(readings[..|readings| - 1]); }
  }

  /** A reset starts a new stretch; the stretches before and after it add up. */
  lemma {:induction false} ResetSplits(before: seq<Amount>, after: seq<Amount>)
    requires before != [] && after != []
    requires after[0].tx <= before[|before| - 1].tx && after[0].rx <= before[|before| - 1].rx
    ensures Accounted(before + after) == Plus(Accounted(before), Accounted(after))
  {
    var all := before + after;
    assert all[..|all| - 1] == before + after[..|after| - 1];
    if |after| == 1 {
      assert all[..|all| - 1] == before;
    } else {
      ResetSplits(before, after[..|after| - 1]);
    }
  }

  // ---- the accounts ------------------------------------------------------------------------

  /** A map lookup gives the empty list, or zero, for a missing name. */
  function Listed(m: map<string, seq<Traffic>>, name: string): seq<Traffic> {
    if name in m then m[name] else []
  }

  ghost function History(m: map<string, seq<Amount>>, name: string): seq<Amount> {
    if name in m then m[name] else []
  }

  ghost function Lost(m: map<string, Amount>, name: string): Amount {
    if name in m then m[name] else NOTHING
  }

  function Total(store: map<string, seq<Traffic>>, cache: map<string, seq<Traffic>>, name: string): Amount {
    Plus(Sum(Listed(store, name)), Sum(Listed(cache, name)))
  }

  function Recent(s: seq<Traffic>, cutoff: uint64): seq<Traffic> {
    if s == [] then []
    else Recent(s[..|s| - 1], cutoff) + if s[|s| - 1].timestamp >= cutoff then [s[|s| - 1]] else []
  }

  function Expired(s: seq<Traffic>, cutoff: uint64): seq<Traffic> {
    if s == [] then []
    else Expired(s[..|s| - 1], cutoff) + if s[|s| - 1].timestamp >= cutoff then [] else [s[|s| - 1]]
  }

  /** What is not older than the cutoff stays, in its order, and everything older goes. */
  lemma {:induction false} RecentExactly(a: seq<Traffic>, b: seq<Traffic>, cutoff: uint64)
    ensures Recent(a + b, cutoff) == Recent(a, cutoff) + Recent(b, cutoff)
    ensures forall t :: t in Recent(b, cutoff) <==> t in b && cutoff <= t.timestamp
    ensures |b| == 1 ==> Recent(b, cutoff) == if cutoff <= b[0].timestamp then b else []
    ensures (forall t :: t in b ==> cutoff <= t.timestamp) ==> Recent(b, cutoff) == b
  {
    if b == [] {
      assert a + b == a;
    } else {
      var init := b[..|b| - 1];
      assert (a + b)[..|a + b| - 1] == a + init && b == init + [b[|b| - 1]];
      RecentExactly(a, init, cutoff);
    }
  }

  lemma {:induction false} RecentAndExpired(s: seq<Traffic>, cutoff: uint64)
    ensures Plus(Sum(Recent(s, cutoff)), Sum(Expired(s, cutoff))) == Sum(s)
    ensures |Recent(s, cutoff)| + |Expired(s, cutoff)| == |s|
  {
    hide Plus;
    if s == [] {
      PlusLaws(NOTHING, NOTHING, NOTHING);
    } else {
      var init, last := s[..|s| - 1], s[|s| - 1];
      RecentAndExpired(init, cutoff);
      SumConcat(Recent(init, cutoff), [last]);
      SumConcat(Expired(init, cutoff), [last]);
      SumOne(last);
      PlusLaws(Sum(Recent(init, cutoff)), Sum(Expired(init, cutoff)), last.amount);
      PlusLaws(Sum(Recent(init, cutoff)), last.amount, Sum(Expired(init, cutoff)));
      PlusLaws(last.amount, Sum(Expired(init, cutoff)), NOTHING);
      PlusLaws(Sum(Recent(init, cutoff)), NOTHING, NOTHING);
      assert Recent(init, cutoff) + [] == Recent(init, cutoff) && Expired(init, cutoff) + [] == Expired(init, cutoff);
    }
  }

  lemma {:induction false} NothingExpires(s: seq<Traffic>, cutoff: uint64)
    ensures (forall t :: t in s ==> t.timestamp >= cutoff) ==> Recent(s, cutoff) == s && Expired(s, cutoff) == []
  {
    if s != [] {
      NothingExpires(s[..|s| - 1], cutoff);
      assert s == s[..|s| - 1] + [s[|s| - 1]];
    }
  }

  /** Drops what is older than the cutoff, in the array itself, and says how much is left. */
  method KeepRecent(arr: array<Traffic>, cutoff: uint64) returns (kept: nat)
    modifies arr
    ensures kept <= arr.Length && arr[..kept] == Recent(old(arr[..]), cutoff)
  {
    kept := 0;
    for i := 0 to arr.Length
      invariant kept <= i && arr[..kept] == Recent(old(arr[..])[..i], cutoff)
      invariant arr[i..] == old(arr[..])[i..]
    {
      assert arr[i] == arr[i..][0] == old(arr[..])[i];
      assert old(arr[..])[..i + 1][..i] == old(arr[..])[..i];
      assert arr[i..][1..] == old(arr[..])[i..][1..];
      if arr[i].timestamp >= cutoff {
        arr[kept] := arr[i];
        kept := kept + 1;
      }
    }
    assert old(arr[..])[..arr.Length] == old(arr[..]);
  }

  function Reported(io: Reading, nics: seq<string>, name: string): seq<Amount> {
    if io.name == name && Watched(nics, name) then [io.counters] else []
  }

  /** The readings of one interface among those of a sample, if the interface is watched. */
  function Readings(sample: seq<Reading>, nics: seq<string>, name: string): seq<Amount> {
    if sample == [] then []
    else
      var last := sample[|sample| - 1];
      Readings(sample[..|sample| - 1], nics, name) + Reported(last, nics, name)
  }

  predicate Watched(nics: seq<string>, name: string) {
    nics == [] || name in nics
  }

  lemma NoReadings(nics: seq<string>)
    ensures forall name :: Readings([], nics, name) == []
  {
  }

  lemma OneMoreReading(sample: seq<Reading>, i: nat, nics: seq<string>, name: string)
    requires i < |sample|
    ensures Readings(sample[..i + 1], nics, name) ==
            Readings(sample[..i], nics, name) + Reported(sample[i], nics, name)
  {
    assert sample[..i + 1][..i] == sample[..i];
  }

  /** What is stored, cached and dropped of one interface is what its readings amount to. */
  ghost predicate InBalance(store: seq<Traffic>, cache: seq<Traffic>, lost: Amount, seen: seq<Amount>) {
    Plus(Plus(Sum(store), Sum(cache)), lost) == Accounted(seen)
  }

  lemma FirstReading(store: seq<Traffic>, cache: seq<Traffic>, lost: Amount, current: Amount)
    requires InBalance(store, cache, lost, [])
    ensures InBalance(store, cache, lost, [current])
  {
  }

  lemma NextReading(store: seq<Traffic>, cache: seq<Traffic>, lost: Amount, seen: seq<Amount>, current: Amount,
                    ts: uint64)
    requires InBalance(store, cache, lost, seen) && seen != []
    ensures InBalance(store, cache + [Traffic(ts, Delta(current, seen[|seen| - 1]))], lost, seen + [current])
    ensures Delta(current, seen[|seen| - 1]) == NOTHING ==> InBalance(store, cache, lost, seen + [current])
  {
    hide Plus, Delta;
    var d := Delta(current, seen[|seen| - 1]);
    assert (seen + [current])[..|seen|] == seen;
    assert Accounted(seen + [current]) == Plus(Accounted(seen), d);
    SumConcat(cache, [Traffic(ts, d)]);
    SumOne(Traffic(ts, d));
    PlusLaws(Sum(store), Sum(cache), d);
    PlusLaws(Plus(Sum(store), Sum(cache)), d, lost);
    PlusLaws(Plus(Sum(store), Sum(cache)), lost, d);
    PlusLaws(d, lost, NOTHING);
    PlusLaws(Accounted(seen), NOTHING, NOTHING);
  }

  lemma Merged(store: seq<Traffic>, cache: seq<Traffic>, ts: uint64)
    ensures Sum(store + [Traffic(ts, Sum(cache))]) == Plus(Sum(store), Sum(cache))
    ensures Sum(cache) == NOTHING ==> Sum(store) == Plus(Sum(store), Sum(cache))
    ensures Plus(Sum(store), Sum([])) == Sum(store)
  {
    hide Plus;
    SumConcat(store, [Traffic(ts, Sum(cache))]);
    SumOne(Traffic(ts, Sum(cache)));
    PlusLaws(Sum(store), NOTHING, NOTHING);
  }

  lemma Purged(store: seq<Traffic>, cache: seq<Traffic>, lost: Amount, seen: seq<Amount>, cutoff: uint64)
    requires InBalance(store, cache, lost, seen)
    ensures InBalance(Recent(store, cutoff), cache, Plus(lost, Sum(Expired(store, cutoff))), seen)
  {
    hide Plus;
    var kept, gone := Sum(Recent(store, cutoff)), Sum(Expired(store, cutoff));
    RecentAndExpired(store, cutoff);
    PlusLaws(kept, gone, Sum(cache));
    PlusLaws(gone, kept, Sum(cache));
    PlusLaws(gone, Plus(kept, Sum(cache)), lost);
    PlusLaws(Plus(kept, Sum(cache)), gone, lost);
    PlusLaws(gone, lost, NOTHING);
  }

  /** Every interface is in balance, and the last reading of each is remembered. */
  ghost predicate Books(store: map<string, seq<Traffic>>, cache: map<string, seq<Traffic>>, last: map<string, Amount>,
                        lost: map<string, Amount>, seen: map<string, seq<Amount>>) {
    && (forall name :: InBalance(Listed(store, name), Listed(cache, name), Lost(lost, name), History(seen, name)))
    && last.Keys == seen.Keys
    && (forall name :: name in seen ==> seen[name] != [] && last[name] == seen[name][|seen[name]| - 1])
  }

  lemma BookEntry(store: map<string, seq<Traffic>>, cache: map<string, seq<Traffic>>, last: map<string, Amount>,
                  lost: map<string, Amount>, seen: map<string, seq<Amount>>, name: string, current: Amount,
                  cache': map<string, seq<Traffic>>)
    requires Books(store, cache, last, lost, seen)
    requires forall other :: other != name ==> Listed(cache', other) == Listed(cache, other)
    requires InBalance(Listed(store, name), Listed(cache', name), Lost(lost, name), History(seen, name) + [current])
    ensures Books(store, cache', last[name := current], lost, seen[name := History(seen, name) + [current]])
  {
    hide InBalance;
    var now := seen[name := History(seen, name) + [current]];
    forall any ensures InBalance(Listed(store, any), Listed(cache', any), Lost(lost, any), History(now, any)) {
      if any != name {
        assert InBalance(Listed(store, any), Listed(cache, any), Lost(lost, any), History(seen, any));
        assert History(now, any) == History(seen, any);
      }
    }
  }

  lemma BookReading(store: map<string, seq<Traffic>>, cache: map<string, seq<Traffic>>, last: map<string, Amount>,
                    lost: map<string, Amount>, seen: map<string, seq<Amount>>, io: Reading, ts: uint64)
    requires Books(store, cache, last, lost, seen)
    ensures var now := seen[io.name := History(seen, io.name) + [io.counters]];
            io.name !in last || Delta(io.counters, last[io.name]) == NOTHING ==>
              Books(store, cache, last[io.name := io.counters], lost, now)
  {
    hide InBalance, Delta;
    var name := io.name;
    assert InBalance(Listed(store, name), Listed(cache, name), Lost(lost, name), History(seen, name));
    if name !in last {
      assert History(seen, name) == [] && History(seen, name) + [io.counters] == [io.counters];
      FirstReading(Listed(store, name), Listed(cache, name), Lost(lost, name), io.counters);
      BookEntry(store, cache, last, lost, seen, name, io.counters, cache);
    } else if Delta(io.counters, last[name]) == NOTHING {
      NextReading(Listed(store, name), Listed(cache, name), Lost(lost, name), seen[name], io.counters, ts);
      BookEntry(store, cache, last, lost, seen, name, io.counters, cache);
    }
  }

  lemma BookTraffic(store: map<string, seq<Traffic>>, cache: map<string, seq<Traffic>>, last: map<string, Amount>,
                    lost: map<string, Amount>, seen: map<string, seq<Amount>>, io: Reading, ts: uint64)
    requires Books(store, cache, last, lost, seen) && io.name in last
    ensures Books(store, cache[io.name := Listed(cache, io.name) + [Traffic(ts, Delta(io.counters, last[io.name]))]],
                  last[io.name := io.counters], lost, seen[io.name := History(seen, io.name) + [io.counters]])
  {
    hide InBalance, Delta;
    var name := io.name;
    assert InBalance(Listed(store, name), Listed(cache, name), Lost(lost, name), History(seen, name));
    NextReading(Listed(store, name), Listed(cache, name), Lost(lost, name), seen[name], io.counters, ts);
    BookEntry(store, cache, last, lost, seen, name, io.counters,
              cache[name := Listed(cache, name) + [Traffic(ts, Delta(io.counters, last[name]))]]);
  }

  lemma BookPurge(store: map<string, seq<Traffic>>, cache: map<string, seq<Traffic>>, last: map<string, Amount>,
                  lost: map<string, Amount>, seen: map<string, seq<Amount>>, cutoff: uint64,
                  store': map<string, seq<Traffic>>, lost': map<string, Amount>)
    requires Books(store, cache, last, lost, seen)
    requires forall name :: Listed(store', name) == Recent(Listed(store, name), cutoff)
    requires forall name :: Lost(lost', name) == Plus(Lost(lost, name), Sum(Expired(Listed(store, name), cutoff)))
    ensures Books(store', cache, last, lost', seen)
  {
    hide Plus, Sum, Recent, Expired;
    forall name ensures InBalance(Listed(store', name), Listed(cache, name), Lost(lost', name), History(seen, name)) {
      assert InBalance(Listed(store, name), Listed(cache, name), Lost(lost, name), History(seen, name));
      Purged(Listed(store, name), Listed(cache, name), Lost(lost, name), History(seen, name), cutoff);
    }
  }

  lemma BookTotals(store: map<string, seq<Traffic>>, cache: map<string, seq<Traffic>>, last: map<string, Amount>,
                   lost: map<string, Amount>, seen: map<string, seq<Amount>>,
                   store': map<string, seq<Traffic>>, cache': map<string, seq<Traffic>>)
    requires Books(store, cache, last, lost, seen)
    requires forall name :: Total(store', cache', name) == Total(store, cache, name)
    ensures Books(store', cache', last, lost, seen)
  {
    forall name ensures InBalance(Listed(store', name), Listed(cache', name), Lost(lost, name), History(seen, name)) {
      assert InBalance(Listed(store, name), Listed(cache, name), Lost(lost, name), History(seen, name));
      assert Total(store', cache', name) == Total(store, cache, name);
    }
  }

  class NetStatic {
    const nics: seq<string>
    var store: map<string, seq<Traffic>>
    var cache: map<string, seq<Traffic>>
    var last: map<string, Amount>
    ghost var seen: map<string, seq<Amount>>   // every reading taken of each interface
    ghost var lost: map<string, Amount>        // what was dropped as expired

    ghost predicate Balanced()
      reads this
    {
      Books(store, cache, last, lost, seen)
    }

    constructor (nics: seq<string>)
      ensures Balanced() && this.nics == nics && store == map[] && cache == map[] && seen == map[] && lost == map[]
    {
      this.nics := nics;
      store, cache, last, seen, lost := map[], map[], map[], map[], map[];
    }

    /** The first reading of an interface and one without new traffic leave no entry. */
    method SampleOne(io: Reading, ts: uint64)
      requires Balanced()
      modifies this`cache, this`last, this`seen
      ensures Balanced()
      ensures forall name :: History(seen, name) == old(History(seen, name)) + Reported(io, nics, name)
      ensures Listed(cache, io.name) == old(Listed(cache, io.name)) +
                if (nics == [] || io.name in nics) && io.name in old(last)
                   && Delta(io.counters, old(last)[io.name]) != NOTHING
                then [Traffic(ts, Delta(io.counters, old(last)[io.name]))] else []
      ensures forall name :: name != io.name ==> Listed(cache, name) == old(Listed(cache, name))
    {
      hide Books, Delta;
      var name, current := io.name, io.counters;
      if nics != [] && name !in nics { return; }
      BookReading(store, cache, last, lost, seen, io, ts);
      if name in last {
        var d := Delta(current, last[name]);
        BookTraffic(store, cache, last, lost, seen, io, ts);
        if d.tx > 0 || d.rx > 0 { cache := cache[name := Listed(cache, name) + [Traffic(ts, d)]]; }
      }
      last := last[name := current];
      seen := seen[name := History(seen, name) + [current]];
    }

    method SampleOnce(sample: seq<Reading>, ts: uint64)
      requires Balanced()
      modifies this`cache, this`last, this`seen
      ensures Balanced()
      ensures forall name :: History(seen, name) == old(History(seen, name)) + Readings(sample, nics, name)
    {
      hide Balanced, Delta, Listed, Watched, Plus, History, Readings;
      ghost var first := seen;
      NoReadings(nics);
      for i := 0 to |sample|
        invariant Balanced()
        invariant forall name :: History(seen, name) == History(first, name) + Readings(sample[..i], nics, name)
      {
        ghost var before := seen;
        SampleOne(sample[i], ts);
        forall name ensures History(seen, name) == History(first, name) + Readings(sample[..i + 1], nics, name) {
          OneMoreReading(sample, i, nics, name);
          assert History(before, name) == History(first, name) + Readings(sample[..i], nics, name);
        }
      }
      assert sample[..|sample|] == sample;
    }

    method SumOf(arr: seq<Traffic>) returns (sum: Amount)
      ensures sum == Sum(arr)
    {
      sum := NOTHING;
      for i := 0 to |arr|
        invariant sum == Sum(arr[..i])
      {
        assert arr[..i + 1][..i] == arr[..i];
        sum := Plus(sum, arr[i].amount);
      }
      assert arr[..|arr|] == arr;
    }

    method FlushOne(name: string, ts: uint64)
      requires name in cache
      modifies this`store
      ensures Sum(Listed(store, name)) == Plus(old(Sum(Listed(store, name))), Sum(cache[name]))
      ensures forall other :: other != name ==> Listed(store, other) == old(Listed(store, other))
    {
      hide Sum, Plus;
      var sum := SumOf(cache[name]);
      Merged(Listed(store, name), cache[name], ts);
      assert sum == Amount(sum.tx, sum.rx);
      if sum.tx > 0 || sum.rx > 0 { store := store[name := Listed(store, name) + [Traffic(ts, sum)]]; }
    }

    /** Merges each cached list into one stored entry.  No total changes. */
    method FlushCache(ts: uint64)
      requires Balanced()
      modifies this`store, this`cache
      ensures Balanced() && cache == map[]
      ensures forall name :: Total(store, cache, name) == old(Total(store, cache, name))
      ensures forall name :: name !in old(cache) ==> Listed(store, name) == old(Listed(store, name))
    {
      hide Books, Sum, Plus;
      ghost var before, flushed := store, cache;
      var todo := cache.Keys;
      while todo != {}
        invariant cache == flushed && todo <= cache.Keys
        invariant forall name :: name in todo || name !in cache ==> Listed(store, name) == Listed(before, name)
        invariant forall name :: name in cache && name !in todo ==>
                  Sum(Listed(store, name)) == Total(before, cache, name)
        decreases |todo|
      {
        var name :| name in todo;
        todo := todo - {name};
        FlushOne(name, ts);
      }
      cache := map[];
      forall name ensures Total(store, cache, name) == Total(before, flushed, name) {
        Merged(Listed(store, name), Listed(flushed, name), ts);
      }
      BookTotals(before, flushed, last, lost, seen, store, cache);
    }

    method PurgeOne(name: string, cutoff: uint64)
      requires name in store
      modifies this`store, this`lost
      ensures Listed(store, name) == Recent(old(Listed(store, name)), cutoff) && (name in store ==> store[name] != [])
      ensures Lost(lost, name) == Plus(old(Lost(lost, name)), Sum(Expired(old(Listed(store, name)), cutoff)))
      ensures forall other :: other != name ==> (other in store <==> other in old(store))
      ensures forall other :: other != name ==>
                Listed(store, other) == old(Listed(store, other)) && Lost(lost, other) == old(Lost(lost, other))
    {
      hide Sum, Plus;
      var list := store[name];
      var arr := new Traffic[|list|](i requires 0 <= i < |list| => list[i]);
      assert arr[..] == list;
      var kept := KeepRecent(arr, cutoff);
      lost := lost[name := Plus(Lost(lost, name), Sum(Expired(list, cutoff)))];
      if kept == 0 {
        store := store - {name};
      } else {
        store := store[name := arr[..kept]];
      }
    }

    /** Drops what expired and only that. */
    method PurgeExpired(cutoff: uint64)
      requires Balanced()
      modifies this`store, this`lost
      ensures Balanced()
      ensures forall name :: Listed(store, name) == Recent(old(Listed(store, name)), cutoff)
      ensures forall name ::
                Lost(lost, name) == Plus(old(Lost(lost, name)), Sum(Expired(old(Listed(store, name)), cutoff)))
    {
      hide Books, Sum, Plus, Recent, Expired;
      ghost var before, gone := store, lost;
      var todo := store.Keys;
      while todo != {}
        invariant todo <= store.Keys && store.Keys <= before.Keys
        invariant forall name :: name in todo ==>
                  Listed(store, name) == Listed(before, name) && Lost(lost, name) == Lost(gone, name)
        invariant forall name :: name !in before ==> Lost(lost, name) == Lost(gone, name)
        invariant forall name :: name in before && name !in todo ==>
                  Listed(store, name) == Recent(Listed(before, name), cutoff)
        invariant forall name :: name in before && name !in todo ==>
                    Lost(lost, name) == Plus(Lost(gone, name), Sum(Expired(Listed(before, name), cutoff)))
        decreases |todo|
      {
        var name :| name in todo;
        PurgeOne(name, cutoff);
        todo := todo - {name};
      }
      NothingToPurge(cutoff);
      BookPurge(before, cache, last, gone, seen, cutoff, store, lost);
    }

    /** The totals by interface. */
    method GetTotalTraffic() returns (totals: map<string, Amount>)
      ensures totals.Keys == store.Keys + cache.Keys
      ensures forall name :: name in totals ==> totals[name] == Total(store, cache, name)
    {
      hide Sum, Plus;
      EmptyIsNothing();
      totals := map[];
      var todo := store.Keys;
      while todo != {}
        invariant todo <= store.Keys
        invariant forall name :: name in totals <==> name in store && name !in todo
        invariant forall name :: name in totals ==> totals[name] == Sum(Listed(store, name))
        decreases |todo|
      {
        var name :| name in todo;
        todo := todo - {name};
        var sum := SumOf(store[name]);
        totals := totals[name := sum];
      }
      todo := cache.Keys;
      while todo != {}
        invariant todo <= cache.Keys
        invariant forall name :: name in totals <==> name in store || (name in cache && name !in todo)
        invariant forall name :: name in totals ==>
                    totals[name] ==
                    if name in cache && name !in todo then Total(store, cache, name) else Sum(Listed(store, name))
        decreases |todo|
      {
        var name :| name in todo;
        todo := todo - {name};
        var sum := SumOf(cache[name]);
        totals := totals[name := Plus(if name in totals then totals[name] else NOTHING, sum)];
      }
    }
  }

  // ---- any schedule ------------------------------------------------------------------------

  datatype Event = Sampled(sample: seq<Reading>, ts: uint64) | Flushed(ts: uint64)

  /** All readings of one interface; flushes contribute none. */
  function Taken(events: seq<Event>, nics: seq<string>, name: string): seq<Amount> {
    if events == [] then []
    else
      var last := events[|events| - 1];
      Taken(events[..|events| - 1], nics, name) + if last.Sampled? then Readings(last.sample, nics, name) else []
  }

  /** The totals depend on the readings alone, whenever and however often the cache is flushed. */
  method Account(nics: seq<string>, events: seq<Event>) returns (totals: map<string, Amount>)
    ensures forall name :: name in totals ==> totals[name] == Accounted(Taken(events, nics, name))
    ensures forall name :: name !in totals ==> Accounted(Taken(events, nics, name)) == NOTHING
  {
    var net := new NetStatic(nics);
    for i := 0 to |events|
      invariant net.Balanced() && net.lost == map[]
      invariant forall name :: History(net.seen, name) == Taken(events[..i], nics, name)
    {
      assert events[..i + 1][..i] == events[..i];
      match events[i]
      case Sampled(sample, ts) => net.SampleOnce(sample, ts);
      case Flushed(ts) => net.FlushCache(ts);
    }
    assert events[..|events|] == events;
    totals := net.GetTotalTraffic();
  }
}
