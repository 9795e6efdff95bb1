/** The live streams of each upload, under one lock: begin, end, wait, cancel and prune. */
module UploadLifecycle {
  import opened Options

  /** Seconds; the source keeps a cancelled upload's entry for fifteen minutes. */
  const TOMBSTONE_TTL: int := 900

  /** `idle` names a channel; `streams` maps a stream ID to the stream whose cancel function it holds. */
  datatype Entry = Entry(active: int, idle: nat, canceled: bool, canceledAt: int, streams: map<string, nat>)

  datatype Live = Live(upload: string, stream: string)

  type Entries = map<string, Entry>
  type Streams = map<nat, Live>

  ghost function LiveIn(live: Streams, upload: string): set<nat> {
    set t | t in live && live[t].upload == upload
  }

  /** The other live streams that share the upload and stream ID of `l`. */
  ghost function SharedWith(live: Streams, l: Live): set<nat> {
    set t | t in live && live[t] == l
  }

  predicate Expired(e: Entry, now: int) {
    e.canceled && e.active == 0 && now - e.canceledAt >= TOMBSTONE_TTL
  }

  function Unexpired(entries: Entries, now: int): Entries {
    map u | u in entries && !Expired(entries[u], now) :: entries[u]
  }

  // ---- the invariant, in three independent parts -----------------------------------------

  /** Every live stream has its upload's entry, and `active` is the number of live streams. */
  ghost predicate Counted(entries: Entries, live: Streams, nextStream: nat) {
    && (forall t :: t in live ==> t < nextStream && live[t].upload != "" && live[t].upload in entries)
    && (forall u :: u in entries ==> entries[u].active == |LiveIn(live, u)|)
  }

  /** An idle channel is closed exactly while nothing is live; and an open channel always belongs
      to an upload with live streams, so whoever waits on it will be woken. */
  ghost predicate Channels(entries: Entries, closed: set<nat>, nextChannel: nat) {
    && (forall u :: u in entries ==>
          (entries[u].idle in closed <==> entries[u].active == 0) && entries[u].idle < nextChannel)
    && (forall u, v :: u in entries && v in entries && u != v ==> entries[u].idle != entries[v].idle)
    && (forall c :: c in closed ==> c < nextChannel)
    && (forall c: nat :: c < nextChannel && c !in closed ==> Awaited(entries, c))
  }

  ghost predicate Awaited(entries: Entries, c: nat) {
    exists u :: u in entries && entries[u].idle == c && entries[u].active > 0
  }

  /** The cancel functions an upload holds are those of its live streams whose stream ID is not
      empty and was not taken over or cleared by another stream. */
  ghost predicate Registrations(entries: Entries, live: Streams, displaced: set<nat>) {
    && (forall u, s :: u in entries && s in entries[u].streams ==>
          Cancellable(entries[u].streams[s], Live(u, s), live, displaced))
    && (forall t :: t in live && Cancellable(t, live[t], live, displaced) && live[t].upload in entries ==>
          live[t].stream in entries[live[t].upload].streams && entries[live[t].upload].streams[live[t].stream] == t)
  }

  ghost predicate Cancellable(t: nat, l: Live, live: Streams, displaced: set<nat>) {
    t in live && live[t] == l && l.stream != "" && t !in displaced
  }

  // ---- how each change keeps it ------------------------------------------------------------

  lemma Pruned(entries: Entries, live: Streams, nextStream: nat, closed: set<nat>, nextChannel: nat,
               displaced: set<nat>, now: int)
    requires Counted(entries, live, nextStream) && Channels(entries, closed, nextChannel)
              && Registrations(entries, live, displaced)
    ensures var kept := Unexpired(entries, now);
            && Counted(kept, live, nextStream) && Channels(kept, closed, nextChannel)
            && Registrations(kept, live, displaced)
  {
    var kept := Unexpired(entries, now);
    forall t | t in live ensures live[t].upload in kept {
      assert t in LiveIn(live, live[t].upload);
    }
    forall c: nat | c < nextChannel && c !in closed ensures Awaited(kept, c) {
      assert Awaited(entries, c);
      var u :| u in entries && entries[u].idle == c && entries[u].active > 0;
      assert u in kept;
    }
  }

  lemma Created(entries: Entries, live: Streams, nextStream: nat, closed: set<nat>, nextChannel: nat,
                displaced: set<nat>, u: string)
    requires Counted(entries, live, nextStream) && Channels(entries, closed, nextChannel)
    requires Registrations(entries, live, displaced) && u !in entries
    ensures var more := entries[u := Entry(0, nextChannel, false, 0, map[])];
            && Counted(more, live, nextStream) && Channels(more, closed + {nextChannel}, nextChannel + 1)
            && Registrations(more, live, displaced)
  {
    hide Counted, Channels, Registrations;
    CountedIdle(entries, live, nextStream, u, Entry(0, nextChannel, false, 0, map[]));
    ChannelIdle(entries, closed, nextChannel, u);
    RegisteredNone(entries, live, nextStream, displaced, u, Entry(0, nextChannel, false, 0, map[]));
  }

  lemma CountedIdle(entries: Entries, live: Streams, nextStream: nat, u: string, e: Entry)
    requires Counted(entries, live, nextStream) && u !in entries && e.active == 0
    ensures Counted(entries[u := e], live, nextStream)
  {
    assert LiveIn(live, u) == {};
  }

  lemma ChannelIdle(entries: Entries, closed: set<nat>, nextChannel: nat, u: string)
    requires Channels(entries, closed, nextChannel) && u !in entries
    ensures Channels(entries[u := Entry(0, nextChannel, false, 0, map[])], closed + {nextChannel}, nextChannel + 1)
  {
    var more := entries[u := Entry(0, nextChannel, false, 0, map[])];
    forall c: nat | c < nextChannel + 1 && c !in closed + {nextChannel} ensures Awaited(more, c) {
      assert Awaited(entries, c);
      var v :| v in entries && entries[v].idle == c && entries[v].active > 0;
      assert v in more && more[v] == entries[v];
    }
  }

  lemma RegisteredNone(entries: Entries, live: Streams, nextStream: nat, displaced: set<nat>, u: string, e: Entry)
    requires Registrations(entries, live, displaced) && Counted(entries, live, nextStream)
    requires u !in entries && e.streams == map[]
    ensures Registrations(entries[u := e], live, displaced)
  {
  }

  lemma CountedIn(entries: Entries, live: Streams, t: nat, l: Live, e: Entry)
    requires Counted(entries, live, t) && l.upload in entries && l.upload != ""
    requires e.active == entries[l.upload].active + 1
    ensures Counted(entries[l.upload := e], live[t := l], t + 1)
  {
    var after := live[t := l];
    assert LiveIn(after, l.upload) == LiveIn(live, l.upload) + {t};
    forall u | u in entries && u != l.upload ensures LiveIn(after, u) == LiveIn(live, u) {
      assert forall x :: x in LiveIn(after, u) <==> x in LiveIn(live, u);
    }
  }

  lemma CountedOut(entries: Entries, live: Streams, next: nat, t: nat, e: Entry)
    requires Counted(entries, live, next) && t in live && e.active == entries[live[t].upload].active - 1
    ensures entries[live[t].upload].active > 0
              && LiveIn(live - {t}, live[t].upload) == LiveIn(live, live[t].upload) - {t}
    ensures Counted(entries[live[t].upload := e], live - {t}, next)
    ensures e.active == 0 <==> LiveIn(live - {t}, live[t].upload) == {}
    ensures e.active == 0 ==> Counted(entries - {live[t].upload}, live - {t}, next)
  {
    var u := live[t].upload;
    var after := live - {t};
    assert t in LiveIn(live, u);
    assert LiveIn(after, u) == LiveIn(live, u) - {t};
    forall v | v in entries && v != u ensures LiveIn(after, v) == LiveIn(live, v) {
      assert forall x :: x in LiveIn(after, v) <==> x in LiveIn(live, v);
    }
    if e.active == 0 {
      assert |LiveIn(after, u)| == |LiveIn(live, u)| - 1 == 0;
      forall x | x in after ensures after[x].upload != u {
        assert x !in LiveIn(after, u);
      }
    }
  }

  lemma ChannelOpened(entries: Entries, closed: set<nat>, nextChannel: nat, u: string, e: Entry)
    requires Channels(entries, closed, nextChannel) && u in entries && entries[u].active == 0
    requires e.active > 0 && e.idle == nextChannel
    ensures Channels(entries[u := e], closed, nextChannel + 1)
  {
    var more := entries[u := e];
    forall c: nat | c < nextChannel + 1 && c !in closed ensures Awaited(more, c) {
      if c < nextChannel {
        assert Awaited(entries, c);
        var v :| v in entries && entries[v].idle == c && entries[v].active > 0;
        assert v in more && more[v] == entries[v];
      } else {
        assert u in more && more[u].idle == c;
      }
    }
  }

  lemma ChannelUsed(entries: Entries, closed: set<nat>, nextChannel: nat, u: string, e: Entry)
    requires Channels(entries, closed, nextChannel) && u in entries
    requires e.idle == entries[u].idle && (e.active > 0 <==> entries[u].active > 0)
              && (e.active == 0 <==> entries[u].active == 0)
    ensures Channels(entries[u := e], closed, nextChannel)
  {
    var more := entries[u := e];
    forall c: nat | c < nextChannel && c !in closed ensures Awaited(more, c) {
      assert Awaited(entries, c);
      var v :| v in entries && entries[v].idle == c && entries[v].active > 0;
      assert v in more && more[v].idle == c && more[v].active > 0;
    }
  }

  lemma ChannelClosed(entries: Entries, closed: set<nat>, nextChannel: nat, u: string, e: Entry)
    requires Channels(entries, closed, nextChannel) && u in entries && entries[u].active > 0
    requires e.idle == entries[u].idle && e.active == 0
    ensures entries[u].idle !in closed
    ensures Channels(entries[u := e], closed + {e.idle}, nextChannel)
    ensures Channels(entries - {u}, closed + {e.idle}, nextChannel)
  {
    var less, more := entries - {u}, entries[u := e];
    forall c: nat | c < nextChannel && c !in closed + {e.idle} ensures Awaited(more, c) && Awaited(less, c) {
      assert Awaited(entries, c);
      var v :| v in entries && entries[v].idle == c && entries[v].active > 0;
      assert v in more && more[v] == entries[v] && v in less && less[v] == entries[v];
    }
  }

  lemma RegisteredIn(entries: Entries, live: Streams, displaced: set<nat>, t: nat, l: Live, e: Entry)
    requires Registrations(entries, live, displaced) && l.upload in entries && t !in live && t !in displaced
    requires e.streams == if l.stream != "" then entries[l.upload].streams[l.stream := t] else entries[l.upload].streams
    ensures Registrations(entries[l.upload := e], live[t := l], displaced + SharedWith(live, l))
  {
  }

  lemma RegisteredOut(entries: Entries, live: Streams, displaced: set<nat>, t: nat, e: Entry)
    requires Registrations(entries, live, displaced) && t in live && live[t].upload in entries
    requires e.streams == if live[t].stream != "" then entries[live[t].upload].streams - {live[t].stream}
                          else entries[live[t].upload].streams
    ensures var after, lost := live - {t}, displaced + (SharedWith(live, live[t]) - {t});
            && Registrations(entries[live[t].upload := e], after, lost)
            && Registrations(entries - {live[t].upload}, after, lost)
  {
  }

  class Registry {
    var entries: Entries
    var closed: set<nat>
    var nextChannel: nat
    var nextStream: nat
    ghost var live: Streams
    ghost var displaced: set<nat>

    constructor ()
      ensures Valid() && entries == map[] && live == map[] && displaced == {}
      ensures Now() == Moment(map[], {}, map[], 0) && Distinguished(Now())
    {
      entries, closed, nextChannel, nextStream := map[], {}, 0, 0;
      live, displaced := map[], {};
    }

    ghost function Now(): Moment
      reads this`live, this`displaced, this`entries, this`nextStream
    {
      Moment(live, displaced, Tombs(entries), nextStream)
    }

    ghost predicate Valid()
      reads this
    {
      && Counted(entries, live, nextStream)
      && Channels(entries, closed, nextChannel)
      && Registrations(entries, live, displaced)
      && forall t :: t in displaced ==> t < nextStream
    }

    /** Closing a channel twice would panic, so that is a precondition here. */
    method Close(c: nat)
      requires c !in closed
      modifies this`closed
      ensures closed == old(closed) + {c}
    {
      closed := closed + {c};
    }

    /** Forgets cancelled uploads whose tombstone has expired; never one with a live stream. */
    method Prune(now: int)
      requires Valid()
      modifies this`entries
      ensures Valid() && entries == Unexpired(old(entries), now)
    {
      hide Counted, Channels, Registrations;
      Pruned(entries, live, nextStream, closed, nextChannel, displaced, now);
      entries := Unexpired(entries, now);
    }

    /** The entry of an upload, created idle if there is none. */
    method Open(u: string)
      requires Valid() && u != ""
      modifies this`entries, this`closed, this`nextChannel
      ensures Valid() && u in entries
      ensures u in old(entries) ==> entries == old(entries)
      ensures u !in old(entries) ==> entries == old(entries)[u := Entry(0, old(nextChannel), false, 0, map[])]
    {
      hide Counted, Registrations;
      if u in entries { return; }
      Created(entries, live, nextStream, closed, nextChannel, displaced, u);
      entries := entries[u := Entry(0, nextChannel, false, 0, map[])];
      Close(nextChannel);
      nextChannel := nextChannel + 1;
    }

    /** Counts a stream in, unless its upload was cancelled and the tombstone still stands. */
    method Begin(u: string, s: string, now: int) returns (t: Option<nat>)
      requires Valid() && u != ""
      modifies this
      ensures Valid()
      ensures t.None? <==> u in old(entries) && old(entries)[u].canceled && !Expired(old(entries)[u], now)
      ensures t.None? ==> live == old(live) && displaced == old(displaced) && entries == Unexpired(old(entries), now)
      ensures t.Some? ==> t.value !in old(live) && live == old(live)[t.value := Live(u, s)]
      ensures if t.Some? then t.value == old(nextStream) && nextStream == t.value + 1 else nextStream == old(nextStream)
      ensures t.Some? ==> u in entries && !entries[u].canceled
      ensures t.Some? && u in old(entries) && old(entries)[u].active > 0 ==> entries[u].idle == old(entries)[u].idle
      ensures t.Some? ==> displaced == old(displaced) + SharedWith(old(live), Live(u, s)) && t.value !in displaced
      ensures entries - {u} == Unexpired(old(entries), now) - {u}
    {
      hide Counted, Channels, Registrations;
      Prune(now);
      Open(u);
      if entries[u].canceled { return None; }
      var stream := Register(u, s);
      t := Some(stream);
    }

    method Register(u: string, s: string) returns (t: nat)
      requires Valid() && u in entries && u != "" && !entries[u].canceled
      modifies this
      ensures Valid()
      ensures t !in old(live) && live == old(live)[t := Live(u, s)] && t == old(nextStream) && nextStream == t + 1
      ensures entries.Keys == old(entries).Keys && !entries[u].canceled
      ensures old(entries)[u].active > 0 ==> entries[u].idle == old(entries)[u].idle
      ensures displaced == old(displaced) + SharedWith(old(live), Live(u, s)) && t !in displaced
      ensures forall v :: v != u && v in entries ==> entries[v] == old(entries)[v]
    {
      hide Counted, Channels, Registrations;
      FreshStream(u);
      t := nextStream;
      var e := entries[u];
      e := e.(active := e.active + 1, streams := if s != "" then e.streams[s := t] else e.streams);
      if e.active == 1 {
        e := e.(idle := nextChannel);
        ChannelOpened(entries, closed, nextChannel, u, e);
        nextChannel := nextChannel + 1;
      } else {
        ChannelUsed(entries, closed, nextChannel, u, e);
      }
      CountedIn(entries, live, t, Live(u, s), e);
      RegisteredIn(entries, live, displaced, t, Live(u, s), e);
      nextStream := nextStream + 1;
      displaced := displaced + SharedWith(live, Live(u, s));
      live := live[t := Live(u, s)];
      entries := entries[u := e];
    }

    lemma FreshStream(u: string)
      requires Valid() && u in entries
      ensures nextStream !in displaced && entries[u].active >= 0
      ensures forall t :: t in live ==> t < nextStream
    {
    }

    /** Ends a stream, once; the last one of a busy period closes the channel it opened. */
    method End(ghost t: nat, u: string, s: string)
      requires Valid() && t in live && live[t] == Live(u, s)
      modifies this`entries, this`closed, this`live, this`displaced
      ensures Valid()
      ensures live == old(live) - {t}
      ensures u in old(entries) && (u !in entries ==> !old(entries)[u].canceled)
      ensures displaced == old(displaced) + (SharedWith(old(live), Live(u, s)) - {t})
      ensures LiveIn(live, u) == {} ==> old(entries)[u].idle in closed && (u in entries <==> old(entries)[u].canceled)
      ensures LiveIn(live, u) != {} ==> u in entries && entries[u].idle == old(entries)[u].idle
      ensures u in entries ==>
                entries[u].canceled == old(entries)[u].canceled && entries[u].canceledAt == old(entries)[u].canceledAt
      ensures forall v :: v != u ==>
                (v in entries <==> v in old(entries)) && (v in entries ==> entries[v] == old(entries)[v])
    {
      hide Channels, Registrations;
      var e := entries[u];
      if s != "" { e := e.(streams := e.streams - {s}); }
      ghost var less := e.(active := e.active - 1);
      CountedOut(entries, live, nextStream, t, less);
      RegisteredOut(entries, live, displaced, t, less);
      displaced := displaced + (SharedWith(live, Live(u, s)) - {t});
      live := live - {t};
      if e.active > 0 {
        e := e.(active := e.active - 1);
        if e.active == 0 {
          ChannelClosed(entries, closed, nextChannel, u, e);
          Close(e.idle);
        } else {
          ChannelUsed(entries, closed, nextChannel, u, e);
        }
      }
      entries := if e.active == 0 && !e.canceled then entries - {u} else entries[u := e];
    }

    /** One look under the lock: done, or the channel that the last live stream will close. */
    method WaitStep(u: string) returns (idle: Option<nat>)
      requires Valid()
      modifies this`entries
      ensures Valid()
      ensures idle.None? <==> LiveIn(live, u) == {}
      ensures idle.None? ==>
                entries == if u in old(entries) && !old(entries)[u].canceled then old(entries) - {u} else old(entries)
      ensures idle.Some? ==>
                entries == old(entries) && u in entries && idle.value == entries[u].idle && idle.value !in closed
    {
      NothingLive(u);
      if u !in entries || entries[u].active == 0 {
        if u in entries && !entries[u].canceled {
          IdleRemoved(u);
          entries := entries - {u};
        }
        return None;
      }
      idle := Some(entries[u].idle);
    }

    lemma NothingLive(u: string)
      requires Valid()
      ensures LiveIn(live, u) == {} <==> u !in entries || entries[u].active == 0
    {
      if u !in entries {
        forall t | t in live ensures live[t].upload != u {
        }
      }
    }

    lemma IdleRemoved(u: string)
      requires Valid() && u in entries && entries[u].active == 0
      ensures Counted(entries - {u}, live, nextStream) && Channels(entries - {u}, closed, nextChannel)
      ensures Registrations(entries - {u}, live, displaced)
    {
      var less := entries - {u};
      forall t | t in live ensures live[t].upload in less {
        assert t in LiveIn(live, live[t].upload);
      }
      forall c: nat | c < nextChannel && c !in closed ensures Awaited(less, c) {
        assert Awaited(entries, c);
        var v :| v in entries && entries[v].idle == c && entries[v].active > 0;
        assert v in less;
      }
    }

    /** Marks an upload cancelled and returns the streams whose cancel functions are called:
        exactly its live streams with an ID of their own that no other stream has displaced. */
    method Cancel(u: string, now: int) returns (called: set<nat>)
      requires Valid() && u != ""
      modifies this`entries, this`closed, this`nextChannel
      ensures Valid()
      ensures u in entries && entries[u].canceled && entries[u].canceledAt == now
      ensures forall t :: t in called <==> t in LiveIn(live, u) && live[t].stream != "" && t !in displaced
      ensures entries - {u} == Unexpired(old(entries), now) - {u}
    {
      hide Counted, Channels;
      Prune(now);
      Open(u);
      var e := entries[u].(canceled := true, canceledAt := now);
      called := set s | s in e.streams :: e.streams[s];
      Marked(u, e);
      entries := entries[u := e];
      CallsAreExact(u, called);
    }

    lemma Marked(u: string, e: Entry)
      requires Valid() && u in entries && e == entries[u].(canceled := e.canceled, canceledAt := e.canceledAt)
      ensures Counted(entries[u := e], live, nextStream) && Channels(entries[u := e], closed, nextChannel)
      ensures Registrations(entries[u := e], live, displaced)
    {
      ChannelUsed(entries, closed, nextChannel, u, e);
    }

    lemma CallsAreExact(u: string, called: set<nat>)
      requires Valid() && u in entries
      requires called == set s | s in entries[u].streams :: entries[u].streams[s]
      ensures forall t :: t in called <==> t in LiveIn(live, u) && live[t].stream != "" && t !in displaced
    {
      forall t | t in LiveIn(live, u) && live[t].stream != "" && t !in displaced ensures t in called {
        assert Cancellable(t, live[t], live, displaced);
        assert live[t].stream in entries[u].streams;
      }
      forall t | t in called ensures t in LiveIn(live, u) && live[t].stream != "" && t !in displaced {
        var s :| s in entries[u].streams && entries[u].streams[s] == t;
        assert Cancellable(t, Live(u, s), live, displaced);
      }
    }
  }

  /** The failing case: two streams of one upload share an ID, the first one ends, and a cancel
      no longer reaches the second. */
  method SharedIdEscapesCancel(u: string, s: string) returns (r: Registry, called: set<nat>)
    requires u != ""
    ensures r.Valid() && |LiveIn(r.live, u)| == 1 && called == {}
  {
    hide Counted, Channels, Registrations;
    r := new Registry();
    var first := r.Begin(u, s, 0);
    var second := r.Begin(u, s, 0);
    ghost var before := r.live;
    assert first.value in before && second.value in before && first.value != second.value;
    r.End(first.value, u, s);
    called := r.Cancel(u, 0);
    assert r.live == map[second.value := Live(u, s)];
    assert LiveIn(r.live, u) == {second.value};
    assert second.value in SharedWith(before, Live(u, s));
  }

  /** A cancel reaches every live stream of its upload. */
  ghost predicate AllReachable(live: Streams, displaced: set<nat>, u: string) {
    forall t :: t in LiveIn(live, u) ==> live[t].stream != "" && t !in displaced
  }

  /** Where a cancel still reaches every stream, it goes on doing so after one more stream begins
      exactly when that stream has an ID which no live stream of the upload has; with a live ID it
      misses the streams that have it. */
  method BeginThenCancel(r: Registry, u: string, s: string, now: int) returns (begun: Option<nat>, called: set<nat>)
    requires r.Valid() && u != "" && s != "" && AllReachable(r.live, r.displaced, u)
    modifies r
    ensures r.Valid()
    ensures begun.Some? ==> called == LiveIn(r.live, u) - SharedWith(old(r.live), Live(u, s))
    ensures begun.Some? ==> (called == LiveIn(r.live, u) <==> SharedWith(old(r.live), Live(u, s)) == {})
  {
    hide Counted, Channels, Registrations;
    ghost var before := r.live;
    begun := r.Begin(u, s, now);
    called := r.Cancel(u, now);
    if begun.Some? {
      assert LiveIn(r.live, u) == LiveIn(before, u) + {begun.value};
      assert SharedWith(before, Live(u, s)) <= LiveIn(before, u);
      assert begun.value !in SharedWith(before, Live(u, s));
    }
  }

  // ---- whole interleavings -------------------------------------------------------------------

  datatype Step =
    | DoBegin(upload: string, stream: string, now: int)
    | DoEnd(ended: nat)
    | DoWait(upload: string)
    | DoCancel(upload: string, now: int)

  /** What the locked sections are about: the live streams, the ones a cancel no longer reaches,
      when each cancelled upload was cancelled, and the number of the next stream. */
  datatype Moment = Moment(live: Streams, displaced: set<nat>, tombs: map<string, int>, next: nat)

  ghost function Tombs(entries: Entries): map<string, int> {
    map u | u in entries && entries[u].canceled :: entries[u].canceledAt
  }

  /** The tombstones that still stand at a time. */
  ghost function Standing(m: Moment, now: int): map<string, int> {
    map u | u in m.tombs && (LiveIn(m.live, u) != {} || now - m.tombs[u] < TOMBSTONE_TTL) :: m.tombs[u]
  }

  /** The stream that a locked section starts. */
  ghost function Begun(m: Moment, step: Step): Option<nat> {
    if step.DoBegin? && step.upload != "" && step.upload !in Standing(m, step.now) then Some(m.next) else None
  }

  /** The streams whose cancel functions a locked section calls. */
  ghost function Calls(m: Moment, step: Step): set<nat> {
    if step.DoCancel? then
      set t | t in LiveIn(m.live, step.upload) && m.live[t].stream != "" && t !in m.displaced
    else {}
  }

  ghost function Next(m: Moment, step: Step): Moment {
    match step
    case DoBegin(u, s, now) =>
      if u == "" then m
      else if u in Standing(m, now) then m.(tombs := Standing(m, now))
      else
        var l := Live(u, s);
        Moment(m.live[m.next := l], m.displaced + SharedWith(m.live, l), Standing(m, now), m.next + 1)
    case DoEnd(t) =>
      if t in m.live then m.(live := m.live - {t}, displaced := m.displaced + (SharedWith(m.live, m.live[t]) - {t}))
      else m
    case DoWait(_) => m
    case DoCancel(u, now) => if u == "" then m else m.(tombs := Standing(m, now)[u := now])
  }

  ghost function After(m: Moment, steps: seq<Step>): Moment {
    if steps == [] then m else Next(After(m, steps[..|steps| - 1]), steps[|steps| - 1])
  }

  lemma TombsPruned(entries: Entries, live: Streams, nextStream: nat, displaced: set<nat>, now: int)
    requires Counted(entries, live, nextStream)
    ensures Tombs(Unexpired(entries, now)) == Standing(Moment(live, displaced, Tombs(entries), nextStream), now)
  {
    forall u | u in entries ensures entries[u].active == 0 <==> LiveIn(live, u) == {} {
    }
  }

  method TakeBegin(r: Registry, step: Step) returns (begun: Option<nat>)
    requires r.Valid() && step.DoBegin?
    modifies r
    ensures r.Valid() && r.Now() == Next(old(r.Now()), step) && begun == Begun(old(r.Now()), step)
  {
    hide Registrations, Channels, Counted, LiveIn;
    if step.upload == "" { return None; }
    TombsPruned(r.entries, r.live, r.nextStream, r.displaced, step.now);
    begun := r.Begin(step.upload, step.stream, step.now);
    if begun.Some? { SameTombs(old(Unexpired(r.entries, step.now)), r.entries, step.upload); }
  }

  method TakeCancel(r: Registry, step: Step) returns (called: set<nat>)
    requires r.Valid() && step.DoCancel?
    modifies r
    ensures r.Valid() && r.Now() == Next(old(r.Now()), step) && called == Calls(old(r.Now()), step)
  {
    hide Registrations, Channels, LiveIn;
    NothingUnnamed(r.live, r.entries, r.nextStream);
    if step.upload == "" { return {}; }
    TombsPruned(r.entries, r.live, r.nextStream, r.displaced, step.now);
    called := r.Cancel(step.upload, step.now);
    OneMoreTomb(old(Unexpired(r.entries, step.now)), r.entries, step.upload, step.now);
  }

  /** One locked section, as a function of the moment; `open` holds the end functions handed out and
      not yet called. */
  method Take(r: Registry, step: Step, open: Streams)
    returns (begun: Option<nat>, called: set<nat>, stillOpen: Streams)
    requires r.Valid() && open == r.live
    modifies r
    ensures r.Valid() && stillOpen == r.live
    ensures r.Now() == Next(old(r.Now()), step)
    ensures begun == Begun(old(r.Now()), step) && called == Calls(old(r.Now()), step)
  {
    hide Registrations, Channels, Counted, LiveIn, Standing;
    begun, called, stillOpen := None, {}, open;
    match step
    case DoBegin(upload, stream, now) =>
      begun := TakeBegin(r, step);
      if begun.Some? { stillOpen := stillOpen[begun.value := Live(upload, stream)]; }
    case DoEnd(ended) =>
      if ended in open {
        r.End(ended, open[ended].upload, open[ended].stream);
        EndedTombs(old(r.entries), r.entries, open[ended].upload);
        stillOpen := stillOpen - {ended};
      }
    case DoWait(upload) =>
      var idle := r.WaitStep(upload);
    case DoCancel(upload, now) =>
      called := TakeCancel(r, step);
  }

  lemma SameTombs(before: Entries, after: Entries, u: string)
    requires after - {u} == before - {u}
    requires (u in before ==> !before[u].canceled) && (u in after ==> !after[u].canceled)
    ensures Tombs(after) == Tombs(before)
  {
    forall v | v != u ensures v in after <==> v in before {
      assert v in after - {u} <==> v in before - {u};
    }
    forall v | v in after && v != u ensures after[v] == before[v] {
      assert (after - {u})[v] == (before - {u})[v];
    }
  }

  lemma OneMoreTomb(before: Entries, after: Entries, u: string, now: int)
    requires after - {u} == before - {u} && u in after && after[u].canceled && after[u].canceledAt == now
    ensures Tombs(after) == Tombs(before)[u := now]
  {
    forall v | v != u ensures v in after <==> v in before {
      assert v in after - {u} <==> v in before - {u};
    }
    forall v | v in after && v != u ensures after[v] == before[v] {
      assert (after - {u})[v] == (before - {u})[v];
    }
  }

  lemma EndedTombs(before: Entries, after: Entries, u: string)
    requires u in before && (u !in after ==> !before[u].canceled)
    requires u in after ==> after[u].canceled == before[u].canceled && after[u].canceledAt == before[u].canceledAt
    requires forall v :: v != u ==> (v in after <==> v in before) && (v in after ==> after[v] == before[v])
    ensures Tombs(after) == Tombs(before)
  {
  }

  lemma NothingUnnamed(live: Streams, entries: Entries, next: nat)
    requires Counted(entries, live, next)
    ensures LiveIn(live, "") == {}
  {
  }

  /** What the first `n` sections start and call. */
  ghost predicate Outcomes(m: Moment, steps: seq<Step>, n: nat, begun: seq<Option<nat>>, calls: seq<set<nat>>) {
    && n == |begun| == |calls| <= |steps|
    && (forall k :: 0 <= k < n ==> begun[k] == Begun(After(m, steps[..k]), steps[k]))
    && (forall k :: 0 <= k < n ==> calls[k] == Calls(After(m, steps[..k]), steps[k]))
  }

  lemma OneMoreOutcome(m: Moment, steps: seq<Step>, n: nat, begun: seq<Option<nat>>, calls: seq<set<nat>>,
                       b: Option<nat>, c: set<nat>)
    requires n < |steps| && Outcomes(m, steps, n, begun, calls)
    requires b == Begun(After(m, steps[..n]), steps[n]) && c == Calls(After(m, steps[..n]), steps[n])
    ensures Outcomes(m, steps, n + 1, begun + [b], calls + [c])
    ensures After(m, steps[..n + 1]) == Next(After(m, steps[..n]), steps[n])
  {
    hide Begun, Calls, Next;
    assert steps[..n + 1][..n] == steps[..n];
  }

  lemma NoOutcomes(m: Moment, steps: seq<Step>)
    ensures Outcomes(m, steps, 0, [], []) && After(m, steps[..0]) == m && steps[..|steps|] == steps
  {
  }

  /** Every interleaving of the locked sections is the run of the moments, with what each section
      starts and calls. */
  method Interleave(r: Registry, steps: seq<Step>, open: Streams)
    returns (begun: seq<Option<nat>>, calls: seq<set<nat>>)
    requires r.Valid() && open == r.live
    modifies r
    ensures r.Valid() && r.Now() == After(old(r.Now()), steps)
    ensures Outcomes(old(r.Now()), steps, |steps|, begun, calls)
  {
    hide *;
    begun, calls := [], [];
    var left := open;
    NoOutcomes(r.Now(), steps);
    for i := 0 to |steps|
      invariant r.Valid() && left == r.live
      invariant r.Now() == After(old(r.Now()), steps[..i])
      invariant Outcomes(old(r.Now()), steps, i, begun, calls)
    {
      var b, c;
      b, c, left := Take(r, steps[i], left);
      OneMoreOutcome(old(r.Now()), steps, i, begun, calls, b, c);
      begun, calls := begun + [b], calls + [c];
    }
  }

  // ---- after a cancel ------------------------------------------------------------------------

  predicate During(step: Step, from: int, to: int) {
    step.DoBegin? || step.DoCancel? ==> from <= step.now < to
  }

  /** While the tombstone of an upload stands, no stream of it ever starts, whatever runs beside. */
  lemma {:induction false} NoneStarts(m: Moment, steps: seq<Step>, u: string, from: int)
    requires u in m.tombs && m.tombs[u] >= from
    requires forall i :: 0 <= i < |steps| ==> During(steps[i], from, from + TOMBSTONE_TTL)
    ensures var after := After(m, steps);
            && u in after.tombs && after.tombs[u] >= from
            && LiveIn(after.live, u) <= LiveIn(m.live, u)
    ensures forall k :: 0 <= k < |steps| && steps[k].DoBegin? && steps[k].upload == u ==>
              Begun(After(m, steps[..k]), steps[k]) == None
  {
    if steps != [] {
      var n := |steps| - 1;
      NoneStarts(m, steps[..n], u, from);
      forall k | 0 <= k < n && steps[k].DoBegin? && steps[k].upload == u
        ensures Begun(After(m, steps[..k]), steps[k]) == None
      {
        assert steps[..n][..k] == steps[..k] && steps[..n][k] == steps[k];
      }
      var before := After(m, steps[..n]);
      if steps[n].DoBegin? || steps[n].DoCancel? { assert u in Standing(before, steps[n].now); }
    }
  }

  /** A cancel leaves its upload's tombstone, so no stream of it starts for fifteen minutes. */
  lemma CancelledStaysQuiet(m: Moment, u: string, now: int, steps: seq<Step>)
    requires u != "" && forall i :: 0 <= i < |steps| ==> During(steps[i], now, now + TOMBSTONE_TTL)
    ensures LiveIn(After(Next(m, DoCancel(u, now)), steps).live, u) <= LiveIn(m.live, u)
  {
    NoneStarts(Next(m, DoCancel(u, now)), steps, u, now);
  }

  // ---- which streams a cancel reaches --------------------------------------------------------

  /** A stream begins with an ID of its own: one that no live stream of the upload has. */
  ghost predicate OwnId(m: Moment, step: Step) {
    step.DoBegin? ==> step.stream != "" && SharedWith(m.live, Live(step.upload, step.stream)) == {}
  }

  ghost predicate OwnIds(m: Moment, steps: seq<Step>) {
    forall k :: 0 <= k < |steps| ==> OwnId(After(m, steps[..k]), steps[k])
  }

  /** Every live stream has an ID of its own and is registered under it. */
  ghost predicate Distinguished(m: Moment) {
    && (forall t :: t in m.live ==> m.live[t].stream != "" && t !in m.displaced)
    && (forall t, x :: t in m.live && x in m.live && m.live[t] == m.live[x] ==> t == x)
    && (forall t :: t in m.displaced ==> t < m.next)
  }

  lemma StaysDistinguished(m: Moment, step: Step)
    requires Distinguished(m) && OwnId(m, step)
    ensures Distinguished(Next(m, step))
  {
    if step.DoBegin? {
      forall x | x in m.live ensures m.live[x] != Live(step.upload, step.stream) {
        assert x !in SharedWith(m.live, Live(step.upload, step.stream));
      }
    } else if step.DoEnd? && step.ended in m.live {
      assert SharedWith(m.live, m.live[step.ended]) == {step.ended};
    }
  }

  lemma {:induction false} RunDistinguished(m: Moment, steps: seq<Step>)
    requires Distinguished(m) && OwnIds(m, steps)
    ensures Distinguished(After(m, steps))
  {
    if steps != [] {
      var n := |steps| - 1;
      forall k | 0 <= k < n ensures OwnId(After(m, steps[..n][..k]), steps[..n][k]) {
        assert steps[..n][..k] == steps[..k] && OwnId(After(m, steps[..k]), steps[k]);
      }
      RunDistinguished(m, steps[..n]);
      assert OwnId(After(m, steps[..n]), steps[n]);
      StaysDistinguished(After(m, steps[..n]), steps[n]);
    }
  }

  /** As long as every stream begins with an ID of its own, every cancel reaches exactly the live
      streams of its upload, however the sections interleave. */
  lemma EveryCancelReaches(m: Moment, steps: seq<Step>, u: string, now: int)
    requires Distinguished(m) && OwnIds(m, steps)
    ensures var end := After(m, steps); Calls(end, DoCancel(u, now)) == LiveIn(end.live, u)
  {
    RunDistinguished(m, steps);
  }
}
