/** The rescue helper's authorization watch: an event loop over signed heartbeats, credential
    changes and ticks that opens and closes the helper's gate. */
module HeartbeatGate {
  import opened Options

  /** Nanoseconds since the zero time. */
  type Time = nat

  /** What a clock can show. */
  type Instant = t: nat | 0 < t witness 1

  const SECOND: nat := 1_000_000_000
  const SILENCE: nat := 10 * SECOND
  const MIN_BACKOFF: nat := SECOND / 2
  const MAX_BACKOFF: nat := 30 * SECOND

  datatype Delivery = Applying | Delivered | AwaitingAgent | OtherDelivery

  /** A revision on the stream.  `verified` is the outcome of its signature, schema and binding
      checks; `issued` is None if the instruction carries no valid time. */
  datatype Frame = Frame(verified: bool, issued: Option<Time>, sequence: nat, rescueEnabled: bool, delivery: Delivery)

  predicate RescueAllowed(f: Frame) {
    f.rescueEnabled && !f.delivery.OtherDelivery?
  }

  /** The two flags other goroutines read. */
  datatype Flags = Flags(authorized: bool, leaseReady: bool)

  /** A frame is authentic, fresh, not from the future, newer than any before and no older a revision. */
  predicate Acceptable(f: Frame, issued: Time, sequence: nat, now: Instant) {
    && f.verified && f.issued.Some?
    && now < f.issued.value + SILENCE && f.issued.value <= now + SECOND
    && issued < f.issued.value && sequence <= f.sequence
  }

  /** Frames in the order of acceptance: each was issued after all before it. */
  ghost predicate Ordered(accepted: seq<Frame>) {
    && (forall i :: 0 <= i < |accepted| ==> accepted[i].verified && accepted[i].issued.Some?)
    && (forall i, j :: 0 <= i < j < |accepted| ==>
          accepted[i].issued.value < accepted[j].issued.value && accepted[i].sequence <= accepted[j].sequence)
  }

  /** The cursor remembers the newest accepted frame. */
  ghost predicate Remembers(accepted: seq<Frame>, issued: Time, sequence: nat) {
    if accepted == [] then issued == 0 && sequence == 0
    else var last := accepted[|accepted| - 1]; last.issued == Some(issued) && last.sequence == sequence
  }

  lemma AcceptedOnce(accepted: seq<Frame>, i: nat, j: nat)
    requires Ordered(accepted) && i < j < |accepted|
    ensures accepted[i] != accepted[j]
  {
    assert accepted[i].issued.value < accepted[j].issued.value;
  }

  lemma OneMoreAccepted(accepted: seq<Frame>, f: Frame, issued: Time, sequence: nat, now: Instant)
    requires Ordered(accepted) && Remembers(accepted, issued, sequence) && Acceptable(f, issued, sequence, now)
    ensures Ordered(accepted + [f]) && Remembers(accepted + [f], f.issued.value, f.sequence)
  {
    var more := accepted + [f];
    forall i | 0 <= i < |accepted|
      ensures more[i].issued.value < f.issued.value && more[i].sequence <= f.sequence
    {
      if i < |accepted| - 1 { assert accepted[i].issued.value < accepted[|accepted| - 1].issued.value; }
    }
  }

  /** What the loop reads from its surroundings during one tick. */
  datatype Surroundings = Surroundings(
    handoffIdentity: Option<string>, clock: Instant, identity: Option<string>, policyAllows: bool)

  datatype Event =
    | Received(now: Instant, frame: Option<Frame>, policyAllows: bool)   // None is a stream error
    | Changed(open: bool, identity: Option<string>, clock: Instant)
    | Tick(now: Instant, around: Surroundings)

  // ---- the watch as a function of its events ---------------------------------------------

  /** All that decides about the gate. */
  datatype WatchState = WatchState(
    authorized: bool, connected: bool, issued: Time, sequence: nat, token: string, watching: bool,
    lastFrame: Time, nextRetry: Time, lastLocal: Time, lastCredentialCheck: Time, backoff: nat)

  function Closed(s: WatchState, now: Instant): WatchState {
    s.(authorized := false, connected := false, nextRetry := now + s.backoff,
       backoff := if 2 * s.backoff > MAX_BACKOFF then MAX_BACKOFF else 2 * s.backoff)
  }

  function HandedOff(s: WatchState, identity: Option<string>, clock: Instant): WatchState {
    if identity.None? then Closed(s, clock)
    else if identity.value == s.token then s
    else s.(connected := false, nextRetry := 0, backoff := MIN_BACKOFF)
  }

  function Heard(s: WatchState, now: Instant, frame: Option<Frame>, policyAllows: bool): WatchState {
    if frame.None? || !Acceptable(frame.value, s.issued, s.sequence, now) then Closed(s, now)
    else
      var f := frame.value;
      var granted := RescueAllowed(f) && policyAllows;
      s.(authorized := granted, issued := f.issued.value, sequence := f.sequence,
         lastFrame := if f.issued.value < now then f.issued.value else now,
         backoff := if granted then MIN_BACKOFF else s.backoff)
  }

  function KeptConnected(s: WatchState, now: Instant, identity: Option<string>): WatchState {
    var tried :=
      if s.connected || now < s.nextRetry then s
      else if identity.None? then Closed(s, now)
      else s.(connected := true, token := identity.value,
              lastFrame := if s.lastFrame == 0 || !s.authorized then now else s.lastFrame);
    if tried.connected && now - tried.lastFrame >= SILENCE then Closed(tried, now) else tried
  }

  function Rechecked(s: WatchState, now: Instant, identity: Option<string>, clock: Instant): WatchState {
    if !s.watching && now - s.lastCredentialCheck >= 5 * SECOND
    then HandedOff(s.(lastCredentialCheck := now), identity, clock) else s
  }

  function Policed(s: WatchState, now: Instant, policyAllows: bool): WatchState {
    if now - s.lastLocal >= SECOND / 2 then s.(lastLocal := now, authorized := s.authorized && policyAllows) else s
  }

  /** Without credentials to connect with, a tick ends early. */
  function Ticked(s: WatchState, now: Instant, around: Surroundings): WatchState {
    var checked := Rechecked(s, now, around.handoffIdentity, around.clock);
    var alive := KeptConnected(checked, now, around.identity);
    if !checked.connected && now >= checked.nextRetry && around.identity.None? then alive
    else Policed(alive, now, around.policyAllows)
  }

  /** An open gate stays open at a tick exactly if none of four reasons closes it: the credentials
      are gone, as a due check or a new connection finds, the last heartbeat is ten seconds old, or
      a due look at the local policy denies it. */
  lemma TickKeepsOpen(s: WatchState, now: Instant, around: Surroundings)
    requires s.authorized && 0 < s.lastFrame && (!s.connected ==> s.nextRetry == 0)
    ensures var checked := Rechecked(s, now, around.handoffIdentity, around.clock);
            var t := Ticked(s, now, around);
            && (t.authorized <==>
                  && (checked == s || around.handoffIdentity.Some?)
                  && (checked.connected || around.identity.Some?)
                  && now < s.lastFrame + SILENCE
                  && (now - s.lastLocal >= SECOND / 2 ==> around.policyAllows))
            && (t.authorized ==> t.connected && t.lastFrame == s.lastFrame)
  {
  }

  /** A stream that was silent for ten seconds is given up and tried again later, whether the gate
      is open or closed. */
  lemma SilentStreamIsGivenUp(s: WatchState, now: Instant, around: Surroundings)
    requires 0 < s.backoff && s.connected && now >= s.lastFrame + SILENCE
    requires Rechecked(s, now, around.handoffIdentity, around.clock).connected
    ensures var t := Ticked(s, now, around);
            !t.connected && !t.authorized && t.nextRetry == now + s.backoff && t.nextRetry > now
  {
  }

  /** A tick never opens the gate, and connects a closed one as soon as its time has come. */
  lemma TickOpensNothing(s: WatchState, now: Instant, around: Surroundings)
    requires !s.authorized
    ensures var t := Ticked(s, now, around);
            && !t.authorized
            && (s.watching && !s.connected && now >= s.nextRetry && around.identity.Some? ==> t.connected)
  {
  }

  function Step(s: WatchState, e: Event): WatchState {
    match e
    case Received(now, frame, policyAllows) => if s.connected then Heard(s, now, frame, policyAllows) else s
    case Changed(open, identity, clock) =>
      if open then HandedOff(s, identity, clock) else s.(watching := false)
    case Tick(now, around) => Ticked(s, now, around)
  }

  function After(s: WatchState, events: seq<Event>): WatchState {
    if events == [] then s else Step(After(s, events[..|events| - 1]), events[|events| - 1])
  }

  class Gate {
    var authorized: bool
    var leaseReady: bool
    ghost var stores: seq<Flags>      // the flags after every atomic store
    var issued: Time                  // the cursor
    var sequence: nat
    ghost var accepted: seq<Frame>
    var connected: bool               // `frames` is not nil
    var cancelable: bool              // `cancelStream` is not nil
    ghost var streams: nat            // streams opened and not cancelled
    var token: string
    var watching: bool                // `changes` is not nil
    var lastFrame: Time
    var nextRetry: Time
    var lastLocal: Time
    var lastPublish: Time
    var lastCredentialCheck: Time
    var backoff: nat
    var published: Flags

    ghost function State(): WatchState
      reads this
    {
      WatchState(authorized, connected, issued, sequence, token, watching, lastFrame, nextRetry, lastLocal,
                  lastCredentialCheck, backoff)
    }

    ghost predicate FlagsOk()
      reads this`authorized, this`leaseReady, this`stores
    {
      && stores != [] && stores[|stores| - 1] == Flags(authorized, leaseReady)
      && (forall i :: 0 <= i < |stores| ==> stores[i].leaseReady ==> stores[i].authorized)
    }

    ghost predicate Wired()
      reads this
    {
      && FlagsOk() && leaseReady == authorized && (published.leaseReady ==> published.authorized)
      && Ordered(accepted) && Remembers(accepted, issued, sequence)
      && connected == cancelable && streams == (if connected then 1 else 0)
      && MIN_BACKOFF <= backoff <= MAX_BACKOFF
    }

    /** An open gate rests on the last accepted frame. */
    ghost predicate Valid()
      reads this
    {
      && Wired()
      && (authorized ==> accepted != [] && RescueAllowed(accepted[|accepted| - 1]) && 0 < lastFrame <= issued)
      && (authorized && !connected ==> nextRetry == 0)
    }

    lemma LastGrant()
      requires Valid() && authorized
      ensures accepted != []
      ensures var f := accepted[|accepted| - 1]; f.verified && RescueAllowed(f) && f.issued == Some(issued)
    {
    }

    /** No authorization survives startup. */
    constructor (watching: bool)
      ensures Valid() && !authorized && accepted == [] && !connected
    {
      authorized, leaseReady, stores, published := false, false, [Flags(false, false)], Flags(false, false);
      issued, sequence, accepted := 0, 0, [];
      connected, cancelable, streams, token := false, false, 0, "";
      this.watching := watching;
      lastFrame, nextRetry, lastLocal, lastPublish, lastCredentialCheck := 0, 0, 0, 0, 0;
      backoff := MIN_BACKOFF;
    }

    method StoreAuthorized(value: bool)
      requires FlagsOk() && (leaseReady ==> value)
      modifies this`authorized, this`stores
      ensures FlagsOk() && authorized == value && stores == old(stores) + [Flags(value, leaseReady)]
    {
      authorized := value;
      stores := stores + [Flags(authorized, leaseReady)];
    }

    method StoreLeaseReady(value: bool)
      requires FlagsOk() && (value ==> authorized)
      modifies this`leaseReady, this`stores
      ensures FlagsOk() && leaseReady == value && stores == old(stores) + [Flags(authorized, value)]
    {
      leaseReady := value;
      stores := stores + [Flags(authorized, leaseReady)];
    }

    /** The lease goes first, so that no reader ever sees it without the authorization. */
    method Deny()
      requires FlagsOk()
      modifies this`authorized, this`leaseReady, this`stores
      ensures FlagsOk() && !authorized && !leaseReady
      ensures stores == old(stores) + [Flags(old(authorized), false), Flags(false, false)]
    {
      StoreLeaseReady(false);
      StoreAuthorized(false);
    }

    method DropStream()
      requires connected == cancelable && streams == (if connected then 1 else 0)
      modifies this`connected, this`cancelable, this`streams
      ensures !connected && !cancelable && streams == 0
    {
      if cancelable {
        streams := streams - 1;
        cancelable := false;
      }
      connected := false;
    }

    method Disconnect(now: Instant)
      requires Valid()
      modifies this`authorized, this`leaseReady, this`stores, this`connected, this`cancelable, this`streams,
               this`nextRetry, this`backoff
      ensures Valid() && State() == Closed(old(State()), now)
      ensures !authorized && !connected && old(stores) < stores
      ensures nextRetry == now + old(backoff)
                && backoff == (if 2 * old(backoff) > MAX_BACKOFF then MAX_BACKOFF else 2 * old(backoff))
    {
      hide Ordered, Remembers;
      Deny();
      DropStream();
      nextRetry := now + backoff;
      backoff := if MAX_BACKOFF < backoff * 2 then MAX_BACKOFF else backoff * 2;
    }

    /** New credentials replace the stream and extend nothing. */
    method Handoff(identity: Option<string>, clock: Instant)
      requires Valid()
      modifies this`authorized, this`leaseReady, this`stores, this`connected, this`cancelable, this`streams,
               this`nextRetry, this`backoff
      ensures Valid() && State() == HandedOff(old(State()), identity, clock) && old(stores) <= stores
      ensures authorized == (old(authorized) && identity.Some?)
      ensures connected == (old(connected) && identity == Some(token))
      ensures identity.Some? && identity.value != token ==> nextRetry == 0 && backoff == MIN_BACKOFF
      ensures identity == Some(token) ==> nextRetry == old(nextRetry)
      ensures identity.None? ==> nextRetry > clock
    {
      if identity.None? {
        Disconnect(clock);
        return;
      }
      if identity.value == token { return; }
      DropStream();
      nextRetry := 0;
      backoff := MIN_BACKOFF;
    }

    method Accept(f: Frame, now: Instant) returns (ok: bool)
      requires Ordered(accepted) && Remembers(accepted, issued, sequence)
      modifies this`issued, this`sequence, this`accepted
      ensures Ordered(accepted) && Remembers(accepted, issued, sequence)
      ensures ok <==> Acceptable(f, old(issued), old(sequence), now)
      ensures ok <==> f.verified && f.issued.Some? && now < f.issued.value + 10 * SECOND
                      && f.issued.value <= now + SECOND && old(issued) < f.issued.value && old(sequence) <= f.sequence
      ensures ok ==> accepted == old(accepted) + [f] && f.issued == Some(issued)
      ensures ok ==> old(issued) < issued && now < issued + SILENCE
      ensures !ok ==> accepted == old(accepted) && issued == old(issued) && sequence == old(sequence)
    {
      if !f.verified { return false; }
      if f.issued.None? { return false; }
      var at := f.issued.value;
      if now - at >= SILENCE || at > now + SECOND || at <= issued || f.sequence < sequence { return false; }
      OneMoreAccepted(accepted, f, issued, sequence, now);
      issued, sequence, accepted := at, f.sequence, accepted + [f];
      ok := true;
    }

    /** A frame, or the end, of the connected stream. */
    method OnReceived(now: Instant, frame: Option<Frame>, policyAllows: bool)
      requires Valid() && connected
      modifies this`authorized, this`leaseReady, this`stores, this`connected, this`cancelable, this`streams,
               this`nextRetry, this`backoff, this`issued, this`sequence, this`accepted, this`lastFrame
      ensures Valid() && State() == Heard(old(State()), now, frame, policyAllows) && old(stores) <= stores
      ensures authorized <==> frame.Some? && Acceptable(frame.value, old(issued), old(sequence), now)
                              && RescueAllowed(frame.value) && policyAllows
      ensures authorized ==> connected && now < issued + SILENCE
      ensures authorized ==> frame.value.verified && frame.value.rescueEnabled
                             && frame.value.delivery in {Applying, Delivered, AwaitingAgent}
      ensures accepted == old(accepted) || (frame.Some? && accepted == old(accepted) + [frame.value])
      ensures connected <==> frame.Some? && Acceptable(frame.value, old(issued), old(sequence), now)
      ensures lastFrame == if !connected then old(lastFrame) else if issued < now then issued else now
      ensures authorized ==> backoff == MIN_BACKOFF
    {
      hide Ordered, Remembers, FlagsOk, Closed, Acceptable;
      if frame.None? {
        Disconnect(now);
        return;
      }
      var ok := Accept(frame.value, now);
      if !ok {
        Disconnect(now);
        return;
      }
      lastFrame := now;
      if issued < now { lastFrame := issued; }
      Judge(frame.value, policyAllows);
    }

    /** The newest frame and the local policy decide together. */
    method Judge(f: Frame, policyAllows: bool)
      requires Wired() && connected && accepted != [] && accepted[|accepted| - 1] == f && 0 < lastFrame <= issued
      modifies this`authorized, this`leaseReady, this`stores, this`backoff
      ensures Valid() && old(stores) <= stores
      ensures authorized <==> RescueAllowed(f) && policyAllows
      ensures backoff == if authorized then MIN_BACKOFF else old(backoff)
    {
      hide Ordered, Remembers, FlagsOk;
      if !RescueAllowed(f) {
        Deny();
        return;
      }
      if !policyAllows {
        Deny();
        return;
      }
      StoreAuthorized(true);
      StoreLeaseReady(true);
      backoff := MIN_BACKOFF;
    }

    /** A credential change, or the end of the notifications. */
    method OnChanged(open: bool, identity: Option<string>, clock: Instant)
      requires Valid()
      modifies this
      ensures Valid() && old(stores) <= stores && accepted == old(accepted) && lastFrame == old(lastFrame)
      ensures State() == if open then HandedOff(old(State()), identity, clock) else old(State()).(watching := false)
      ensures authorized == (old(authorized) && (open ==> identity.Some?))
      ensures connected == (old(connected) && (open ==> identity == Some(token)))
      ensures watching == (old(watching) && open)
    {
      if !open {
        watching := false;
        return;
      }
      Handoff(identity, clock);
    }

    /** Opens a stream.  Only a closed gate restarts the silence clock. */
    method Connect(identity: string, now: Instant)
      requires Valid() && !connected
      modifies this`connected, this`cancelable, this`streams, this`token, this`lastFrame
      ensures Valid() && connected && token == identity
      ensures lastFrame == if old(lastFrame) == 0 || !authorized then now else old(lastFrame)
    {
      cancelable, streams := true, streams + 1;
      token := identity;
      connected := true;
      if lastFrame == 0 || !authorized { lastFrame := now; }
    }

    ghost predicate CredentialCheckDue(now: Instant)
      reads this`watching, this`lastCredentialCheck
    {
      !watching && now - lastCredentialCheck >= 5 * SECOND
    }

    ghost predicate LocalCheckDue(now: Instant)
      reads this`lastLocal
    {
      now - lastLocal >= SECOND / 2
    }

    /** Looks at the credentials if no notifications come any more. */
    method CheckCredentials(now: Instant, identity: Option<string>, clock: Instant)
      requires Valid()
      modifies this`authorized, this`leaseReady, this`stores, this`connected, this`cancelable, this`streams,
               this`nextRetry, this`backoff, this`lastCredentialCheck
      ensures Valid() && State() == Rechecked(old(State()), now, identity, clock) && old(stores) <= stores
      ensures authorized == (old(authorized) && (old(CredentialCheckDue(now)) ==> identity.Some?))
      ensures !old(CredentialCheckDue(now)) ==>
                connected == old(connected) && nextRetry == old(nextRetry) && backoff == old(backoff)
      ensures lastCredentialCheck == if old(CredentialCheckDue(now)) then now else old(lastCredentialCheck)
    {
      if !watching && now - lastCredentialCheck >= 5 * SECOND {
        lastCredentialCheck := now;
        Handoff(identity, clock);
      }
    }

    /** Connects again when it is time, and gives up a stream that stays silent. */
    method KeepConnected(now: Instant, identity: Option<string>) returns (ok: bool)
      requires Valid()
      modifies this`authorized, this`leaseReady, this`stores, this`connected, this`cancelable, this`streams,
               this`nextRetry, this`backoff, this`token, this`lastFrame
      ensures Valid() && State() == KeptConnected(old(State()), now, identity) && old(stores) <= stores
      ensures ok <==> old(connected) || now < old(nextRetry) || identity.Some?
      ensures authorized == (old(authorized) && ok && now - old(lastFrame) < SILENCE)
      ensures authorized ==> connected && lastFrame == old(lastFrame)
      ensures connected ==> now < lastFrame + SILENCE
      ensures old(connected) && now >= old(lastFrame) + SILENCE ==>
                !connected && !authorized && nextRetry == now + old(backoff) && nextRetry > now
      ensures !old(authorized) && !old(connected) && now >= old(nextRetry) && ok ==> connected
    {
      hide FlagsOk, Ordered, Remembers;
      ok := true;
      if !connected && now >= nextRetry {
        if identity.None? {
          Disconnect(now);
          return false;
        }
        Connect(identity.value, now);
      }
      if connected && now - lastFrame >= SILENCE { Disconnect(now); }
    }

    method CheckPolicy(now: Instant, policyAllows: bool)
      requires Valid()
      modifies this`authorized, this`leaseReady, this`stores, this`lastLocal
      ensures Valid() && State() == Policed(old(State()), now, policyAllows) && old(stores) <= stores
      ensures authorized == (old(authorized) && (old(LocalCheckDue(now)) ==> policyAllows))
      ensures lastLocal == if old(LocalCheckDue(now)) then now else old(lastLocal)
    {
      if now - lastLocal >= SECOND / 2 {
        lastLocal := now;
        if !policyAllows { Deny(); }
      }
    }

    method Publish(now: Instant)
      requires Valid()
      modifies this`lastPublish, this`published
      ensures Valid() && State() == old(State())
      ensures now - old(lastPublish) >= 2 * SECOND ==> published == Flags(authorized, leaseReady) && lastPublish == now
      ensures now - old(lastPublish) < 2 * SECOND ==> published == old(published) && lastPublish == old(lastPublish)
    {
      if now - lastPublish >= 2 * SECOND {
        lastPublish := now;
        published := Flags(authorized, leaseReady);
      }
    }

    /** After a tick an open gate is connected and rests on a heartbeat issued within the last
        ten seconds. */
    method OnTick(now: Instant, around: Surroundings)
      requires Valid()
      modifies this
      ensures Valid() && old(stores) <= stores && accepted == old(accepted)
      ensures State() == Ticked(old(State()), now, around)
      ensures authorized ==> connected && now < issued + SILENCE
      ensures connected ==> now < lastFrame + SILENCE
      ensures old(connected && !CredentialCheckDue(now)) && now >= old(lastFrame) + SILENCE ==>
                !connected && !authorized && nextRetry > now
    {
      hide Wired, Rechecked, KeptConnected, Policed;
      var ok := Maintain(now, around);
      if !ok { return; }
      CheckPolicy(now, around.policyAllows);
      Publish(now);
    }

    /** The first half of a tick: the credentials and the connection. */
    method Maintain(now: Instant, around: Surroundings) returns (ok: bool)
      requires Valid()
      modifies this`authorized, this`leaseReady, this`stores, this`connected, this`cancelable, this`streams,
               this`nextRetry, this`backoff, this`lastCredentialCheck, this`token, this`lastFrame
      ensures Valid() && old(stores) <= stores
      ensures var checked := Rechecked(old(State()), now, around.handoffIdentity, around.clock);
              && State() == KeptConnected(checked, now, around.identity)
              && (ok <==> checked.connected || now < checked.nextRetry || around.identity.Some?)
      ensures authorized ==> connected && now < issued + SILENCE
      ensures connected ==> now < lastFrame + SILENCE
      ensures old(connected && !CredentialCheckDue(now)) && now >= old(lastFrame) + SILENCE ==>
                !connected && !authorized && nextRetry > now
    {
      hide FlagsOk, Ordered, Remembers, Rechecked, KeptConnected;
      CheckCredentials(now, around.handoffIdentity, around.clock);
      ok := KeepConnected(now, around.identity);
    }

    /** Cancelling the helper closes the gate and ends the loop. */
    method Stop()
      requires Valid()
      modifies this
      ensures FlagsOk() && !authorized && !leaseReady && old(stores) <= stores && streams == 0
    {
      Deny();
      DropStream();
      StoreAuthorized(false);
      StoreLeaseReady(false);
    }
  }

  // ---- whole runs --------------------------------------------------------------------------

  /** Frames the panel signed with a grant of rescue, among the events. */
  ghost predicate Granted(events: seq<Event>, f: Frame) {
    && f.verified && RescueAllowed(f) && f.issued.Some?
    && exists k :: 0 <= k < |events| && events[k].Received? && events[k].frame == Some(f)
  }

  /** The gate rests on a granted frame that was issued less than ten seconds before. */
  ghost predicate RestsOnGrant(events: seq<Event>, now: Instant) {
    exists f :: Granted(events, f) && now < f.issued.value + SILENCE
  }

  /** The watch is a function of its events.  Whatever they are, a gate that is open after a tick
      is connected and rests on a granted frame of the last ten seconds, and at no atomic store is
      a lease allowed without authorization.  (Every prefix of a run is a run.) */
  method Run(g: Gate, events: seq<Event>)
    requires g.Valid() && g.accepted == []
    modifies g
    ensures g.Valid() && old(g.stores) <= g.stores
    ensures g.State() == After(old(g.State()), events)
    ensures forall f :: f in g.accepted ==>
              exists k :: 0 <= k < |events| && events[k].Received? && events[k].frame == Some(f)
    ensures events != [] && events[|events| - 1].Tick? && g.authorized ==>
              g.connected && RestsOnGrant(events, events[|events| - 1].now)
    ensures events != [] && events[|events| - 1].Tick? && g.connected ==>
              events[|events| - 1].now < g.lastFrame + SILENCE
    ensures events != [] && events[|events| - 1].Received? && g.authorized && g.connected ==>
              RestsOnGrant(events, events[|events| - 1].now)
  {
    hide Acceptable, Closed, HandedOff, Heard, Ticked, RescueAllowed;
    hide Gate.Wired;
    for i := 0 to |events|
      invariant g.Valid() && old(g.stores) <= g.stores
      invariant g.State() == After(old(g.State()), events[..i])
      invariant forall f :: f in g.accepted ==>
                exists k :: 0 <= k < i && events[k].Received? && events[k].frame == Some(f)
      invariant i > 0 && events[i - 1].Tick? && g.authorized ==>
                  g.connected && RestsOnGrant(events, events[i - 1].now)
      invariant i > 0 && events[i - 1].Tick? && g.connected ==> events[i - 1].now < g.lastFrame + SILENCE
      invariant i > 0 && events[i - 1].Received? && g.authorized && g.connected ==>
                  RestsOnGrant(events, events[i - 1].now)
    {
      assert events[..i + 1][..i] == events[..i];
      match events[i] {
        case Received(now, frame, policyAllows) =>
          if g.connected { g.OnReceived(now, frame, policyAllows); }
        case Changed(open, identity, clock) =>
          g.OnChanged(open, identity, clock);
        case Tick(now, around) =>
          g.OnTick(now, around);
      }
      if g.authorized {
        g.LastGrant();
        ghost var f := g.accepted[|g.accepted| - 1];
        assert f in g.accepted && Granted(events, f);
      }
    }
    assert events[..|events|] == events;
  }

  /** Ten seconds after the last grant was signed the gate is closed at every tick, whatever
      reconnects, credential changes and replays happen in between. */
  method RevocationIsBounded(g: Gate, events: seq<Event>, last: Time)
    requires g.Valid() && g.accepted == []
    requires forall f :: Granted(events, f) ==> f.issued.value <= last
    modifies g
    ensures g.State() == After(old(g.State()), events)
    ensures events != [] && events[|events| - 1].Tick? && events[|events| - 1].now >= last + SILENCE ==> !g.authorized
  {
    Run(g, events);
  }
}
