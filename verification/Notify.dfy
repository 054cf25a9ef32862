/** When Emacs is told there is something to draw (`Notifier` and `NotifyState` in
    src/session.rs): a frame is held while the child is writing it, and never past its bounds.

    Instants and durations are numbers of nanoseconds. Each call reads the clock once here. */
module Notify {
  import opened Cells

  /** The emulator's own bound on a synchronized update, which is also the bound on any hold. */
  const HOLD_CEILING: nat := 150_000_000

  datatype State = State(
    minInterval: nat,
    frameCeiling: nat,
    last: Option<nat>,
    syncUntil: Option<nat>,
    lastRead: Option<nat>,
    ceilingAt: Option<nat>,
    heldSince: Option<nat>)

  /** How much of a deadline is left; nothing once it has passed or if it was never set. A deadline
      that is exactly now has not passed. */
  function Remaining(deadline: Option<nat>, now: nat): Option<nat> {
    if deadline.Some? && deadline.value >= now then Some(deadline.value - now) else None
  }

  function After(at: Option<nat>, wait: nat): Option<nat> {
    if at.Some? then Some(at.value + wait) else None
  }

  function Lesser(a: nat, b: nat): nat {
    if a <= b then a else b
  }

  function Greater(a: nat, b: nat): nat {
    if a >= b then a else b
  }

  /** Cut a wait short at a further deadline, which ends it if it has passed. */
  function CutShort(wait: Option<nat>, deadline: Option<nat>, now: nat): Option<nat> {
    if wait.None? || deadline.None? then wait
    else if Remaining(deadline, now).None? then None
    else Some(Lesser(wait.value, Remaining(deadline, now).value))
  }

  /** How much longer the frame is held for the child to finish writing it. */
  function Hold(s: State, quiescence: nat, now: nat): Option<nat> {
    var quiet := Remaining(After(s.lastRead, quiescence), now);
    CutShort(CutShort(quiet, s.ceilingAt, now), After(s.heldSince, HOLD_CEILING), now)
  }

  function Elapsed(since: nat, now: nat): nat {
    if now >= since then now - since else 0
  }

  predicate Throttled(s: State, now: nat) {
    s.last.Some? && Elapsed(s.last.value, now) < s.minInterval
  }

  /** Nothing holds a pending frame back any longer. */
  predicate Due(s: State, quiescence: nat, now: nat) {
    && Remaining(s.syncUntil, now).None?
    && !Throttled(s, now)
    && Hold(s, quiescence, now).None?
  }

  function OrZero(wait: Option<nat>): nat {
    if wait.Some? then wait.value else 0
  }

  function ThrottleLeft(s: State, now: nat): nat {
    if s.last.None? || Elapsed(s.last.value, now) >= s.minInterval then 0
    else s.minInterval - Elapsed(s.last.value, now)
  }

  function WaitLeft(s: State, quiescence: nat, now: nat): nat {
    Greater(Greater(ThrottleLeft(s, now), OrZero(Remaining(s.syncUntil, now))), OrZero(Hold(s, quiescence, now)))
  }

  // ----- the notifier's operations on its state -----

  /** The two atomics and the locked state. */
  datatype Signal = Signal(dirty: bool, notified: bool, state: State, quiescence: nat)

  function Fed(n: Signal, drawable: bool, now: nat): Signal {
    var s := n.state.(lastRead := Some(now));
    if !drawable then n.(state := s)
    else if n.dirty then
      n.(state := s.(ceilingAt := if s.ceilingAt.Some? then s.ceilingAt else Some(now + s.frameCeiling)))
    else n.(dirty := true, state := s.(heldSince := Some(now)))
  }

  function SetSync(n: Signal, deadline: Option<nat>): Signal {
    if deadline.Some? && n.dirty && n.state.syncUntil.Some? then n
    else n.(state := n.state.(syncUntil := deadline))
  }

  function SetPacing(n: Signal, minInterval: nat, frameCeiling: nat): Signal {
    n.(state := n.state.(minInterval := minInterval, frameCeiling := frameCeiling))
  }

  predicate Sends(n: Signal, now: nat) {
    !n.notified && n.dirty && Due(n.state, n.quiescence, now)
  }

  function Sent(s: State, now: nat): State {
    s.(last := Some(now), ceilingAt := None, heldSince := None)
  }

  function Flush(n: Signal, now: nat): Signal {
    if Sends(n, now) then n.(dirty := false, notified := true, state := Sent(n.state, now)) else n
  }

  /** Something pending that is no part of a frame, and so waits for nothing the child might still write. */
  function Marked(n: Signal): Signal {
    n.(dirty := true, state := n.state.(lastRead := None, ceilingAt := None, heldSince := None))
  }

  function Announce(n: Signal, now: nat): Signal {
    Flush(Marked(n), now)
  }

  function Acknowledged(n: Signal): Signal {
    n.(notified := false)
  }

  function PollWait(n: Signal, base: nat, now: nat): nat {
    if n.notified || !n.dirty then base else WaitLeft(n.state, n.quiescence, now)
  }

  // ----- the sleep is exact -----

  lemma HoldLater(s: State, quiescence: nat, now: nat, t: nat)
    requires now <= t
    ensures Hold(s, quiescence, t).None?
       <==> Hold(s, quiescence, now).None? || t > now + Hold(s, quiescence, now).value
  {
  }

  lemma ThrottleLater(s: State, now: nat, t: nat)
    requires now <= t && (s.last.Some? ==> s.last.value <= now)
    ensures Throttled(s, t) <==> t < now + ThrottleLeft(s, now)
  {
  }

  /** Something with an inclusive deadline ends exactly when the wait does. */
  predicate EndsInclusive(s: State, quiescence: nat, now: nat) {
    var w := WaitLeft(s, quiescence, now);
    Remaining(s.syncUntil, now) == Some(w) || Hold(s, quiescence, now) == Some(w)
  }

  /** `poll_wait` is exactly how long a pending frame stays held if nothing more happens: a flush
      before it has run out sends nothing, one after it sends; and one at the very instant sends
      just when it is the throttle alone that was being waited for. */
  lemma SleepIsExact(n: Signal, base: nat, now: nat, t: nat)
    requires n.dirty && !n.notified && now <= t
    requires n.state.last.Some? ==> n.state.last.value <= now
    ensures t < now + PollWait(n, base, now) ==> !Sends(n, t)
    ensures t > now + PollWait(n, base, now) ==> Sends(n, t)
    ensures t == now + PollWait(n, base, now) ==>
              (Sends(n, t) <==> !EndsInclusive(n.state, n.quiescence, now))
  {
    HoldLater(n.state, n.quiescence, now, t);
    ThrottleLater(n.state, now, t);
  }

  // ----- a held frame is bounded -----

  /** What may happen to a held frame short of an announcement. */
  datatype Event =
    | Read(drawable: bool, at: nat)
    | Sync(deadline: nat)
    | Ended
    | Pacing(minInterval: nat, frameCeiling: nat)
    | Tick(at: nat)

  function On(n: Signal, e: Event): Signal {
    match e
    case Read(drawable, at) => Fed(n, drawable, at)
    case Sync(deadline) => SetSync(n, Some(deadline))
    case Ended => SetSync(n, None)
    case Pacing(minInterval, frameCeiling) => SetPacing(n, minInterval, frameCeiling)
    case Tick(at) => Flush(n, at)
  }

  function OnAll(n: Signal, events: seq<Event>): Signal
    decreases |events|
  {
    if events == [] then n else OnAll(On(n, events[0]), events[1..])
  }

  /** None of the ticks sends. */
  predicate StaysHeld(n: Signal, events: seq<Event>)
    decreases |events|
  {
    events != [] ==>
      && (events[0].Tick? ==> !Sends(n, events[0].at))
      && StaysHeld(On(n, events[0]), events[1..])
  }

  /** The first sync deadline the frame adopts, if it did not have one from the start. */
  function FirstSync(held: Option<nat>, events: seq<Event>): Option<nat>
    decreases |events|
  {
    if held.Some? || events == [] then held
    else FirstSync(if events[0].Sync? then Some(events[0].deadline) else None, events[1..])
  }

  /** The sync deadline in force after the events: the one held until its update ends, then the next. */
  function SyncAfter(held: Option<nat>, events: seq<Event>): Option<nat>
    decreases |events|
  {
    if events == [] then held
    else
      match events[0]
      case Sync(deadline) => SyncAfter(if held.Some? then held else Some(deadline), events[1..])
      case Ended => SyncAfter(None, events[1..])
      case _ => SyncAfter(held, events[1..])
  }

  ghost predicate NoneEnded(events: seq<Event>) {
    forall i :: 0 <= i < |events| ==> !events[i].Ended?
  }

  /** The events since the last update ended, or all of them if none has. */
  function SinceEnded(events: seq<Event>): seq<Event> {
    if events == [] || events[|events| - 1].Ended? then []
    else SinceEnded(events[..|events| - 1]) + [events[|events| - 1]]
  }

  lemma {:induction false} SyncAfterSnoc(held: Option<nat>, events: seq<Event>, e: Event)
    ensures SyncAfter(held, events + [e]) == SyncAfter(SyncAfter(held, events), [e])
    decreases |events|
  {
    if events == [] {
      assert events + [e] == [e];
    } else {
      assert (events + [e])[0] == events[0] && (events + [e])[1..] == events[1..] + [e];
      match events[0]
      case Sync(deadline) => SyncAfterSnoc(if held.Some? then held else Some(deadline), events[1..], e);
      case Ended => SyncAfterSnoc(None, events[1..], e);
      case _ => SyncAfterSnoc(held, events[1..], e);
    }
  }

  lemma {:induction false} FirstSyncSnoc(held: Option<nat>, events: seq<Event>, e: Event)
    ensures FirstSync(held, events + [e]) == FirstSync(FirstSync(held, events), [e])
    decreases |events|
  {
    if held.Some? || events == [] {
      assert held.None? ==> events + [e] == [e];
    } else {
      assert (events + [e])[0] == events[0] && (events + [e])[1..] == events[1..] + [e];
      FirstSyncSnoc(if events[0].Sync? then Some(events[0].deadline) else None, events[1..], e);
    }
  }

  /** The deadline in force is the first adopted since the last update ended; the one held from the start
      counts as long as none has. */
  lemma {:induction false} SyncIsFirstSinceEnded(held: Option<nat>, events: seq<Event>)
    ensures SyncAfter(held, events) == FirstSync(if NoneEnded(events) then held else None, SinceEnded(events))
    decreases |events|
  {
    if events != [] {
      var before, e := events[..|events| - 1], events[|events| - 1];
      assert events == before + [e];
      SyncIsFirstSinceEnded(held, before);
      SyncAfterSnoc(held, before, e);
      FirstSyncSnoc(if NoneEnded(before) then held else None, SinceEnded(before), e);
      assert NoneEnded(events) <==> NoneEnded(before) && !e.Ended?;
    }
  }

  /** While a frame is held, nothing the child does moves what bounds the hold but the end of an update. */
  lemma {:induction false} BoundsStay(n: Signal, events: seq<Event>)
    requires n.dirty && !n.notified && n.state.heldSince.Some? && StaysHeld(n, events)
    ensures var m := OnAll(n, events);
            && m.dirty && !m.notified && m.quiescence == n.quiescence
            && m.state.heldSince == n.state.heldSince && m.state.last == n.state.last
            && m.state.syncUntil == SyncAfter(n.state.syncUntil, events)
    decreases |events|
  {
    if events != [] {
      BoundsStay(On(n, events[0]), events[1..]);
    }
  }

  /** A frame opened on a clean notifier is drawn by any flush later than the ceiling on a hold, the
      sync deadline then in force, and the redisplay interval, whatever else was read meanwhile and
      whatever updates began and ended. */
  lemma HeldFrameIsBounded(clean: Signal, since: nat, events: seq<Event>, t: nat)
    requires !clean.dirty && !clean.notified
    requires var n := Fed(clean, true, since); StaysHeld(n, events)
    requires var m := OnAll(Fed(clean, true, since), events);
             && t > since + HOLD_CEILING
             && (m.state.syncUntil.Some? ==> t > m.state.syncUntil.value)
             && (clean.state.last.Some? ==> t >= clean.state.last.value + m.state.minInterval)
    ensures var m := OnAll(Fed(clean, true, since), events);
            && Sends(m, t)
            && m.state.syncUntil == SyncAfter(clean.state.syncUntil, events)
  {
    BoundsStay(Fed(clean, true, since), events);
  }

  lemma {:induction false} HeldConcat(n: Signal, a: seq<Event>, b: seq<Event>)
    ensures OnAll(n, a + b) == OnAll(OnAll(n, a), b)
    ensures StaysHeld(n, a + b) <==> StaysHeld(n, a) && StaysHeld(OnAll(n, a), b)
    decreases |a|
  {
    hide Sends;
    if a == [] {
      assert a + b == b;
    } else {
      assert (a + b)[0] == a[0] && (a + b)[1..] == a[1..] + b;
      HeldConcat(On(n, a[0]), a[1..], b);
    }
  }

  lemma OneEvent(m: Signal, e: Event)
    requires !e.Tick?
    ensures OnAll(m, [e]) == On(m, e) && StaysHeld(m, [e])
  {
    hide Sends;
    assert [e][1..] == [];
    assert OnAll(On(m, e), []) == On(m, e) && StaysHeld(On(m, e), []);
  }

  lemma EndAndBegin(m: Signal, t: nat)
    ensures OnAll(m, [Ended, Sync(t)]) == SetSync(SetSync(m, None), Some(t)) && StaysHeld(m, [Ended, Sync(t)])
    ensures OnAll(m, [Sync(t)]) == SetSync(m, Some(t))
  {
    hide OnAll, StaysHeld;
    OneEvent(m, Ended);
    OneEvent(m, Sync(t));
    OneEvent(SetSync(m, None), Sync(t));
    HeldConcat(m, [Ended], [Sync(t)]);
    assert [Ended] + [Sync(t)] == [Ended, Sync(t)];
  }

  /** So a frame held so far can be held to any instant: by ending the update and beginning another, and not
      by beginning another alone while a deadline is in force. */
  lemma EndedUpdateRenewsTheHold(clean: Signal, since: nat, events: seq<Event>, t: nat)
    requires !clean.dirty && !clean.notified && StaysHeld(Fed(clean, true, since), events)
    ensures
      var n := Fed(clean, true, since);
      var renewed := events + [Ended, Sync(t)];
      && StaysHeld(n, renewed) && OnAll(n, renewed).state.syncUntil == Some(t)
      && (forall at: nat :: at <= t ==> !Sends(OnAll(n, renewed), at))
      && (OnAll(n, events).state.syncUntil.Some? ==> OnAll(n, events + [Sync(t)]) == OnAll(n, events))
  {
    var n := Fed(clean, true, since);
    BoundsStay(n, events);
    HeldConcat(n, events, [Ended, Sync(t)]);
    HeldConcat(n, events, [Sync(t)]);
    EndAndBegin(OnAll(n, events), t);
  }

  // ----- what bounds a frame that was not opened by a change -----

  /** What else may keep a frame back has passed: the update's own deadline and the throttle. */
  predicate Past(m: Signal, t: nat) {
    Remaining(m.state.syncUntil, t).None? && !Throttled(m.state, t)
  }

  predicate Armed(s: State) {
    s.ceilingAt.Some? || s.heldSince.Some?
  }

  /** The child goes on writing: no read comes later than the quiet it would take to end the hold, and
      no tick is later than that either. */
  predicate Busy(quiescence: nat, read: nat, events: seq<Event>)
    decreases |events|
  {
    events == []
    || match events[0]
       case Read(_, at) => read <= at <= read + quiescence && Busy(quiescence, at, events[1..])
       case Tick(at) => read <= at <= read + quiescence && Busy(quiescence, read, events[1..])
       case _ => Busy(quiescence, read, events[1..])
  }

  function LastRead(read: nat, events: seq<Event>): nat
    decreases |events|
  {
    if events == [] then read
    else LastRead(if events[0].Read? then events[0].at else read, events[1..])
  }

  predicate Draws(e: Event) {
    e.Read? && e.drawable
  }

  /** Nothing but reads that draw nothing, and ticks. */
  ghost predicate Undrawable(events: seq<Event>) {
    forall i :: 0 <= i < |events| ==> events[i].Tick? || (events[i].Read? && !events[i].drawable)
  }

  /** With neither bound armed, reads that draw nothing hold the frame through every tick as long as
      they keep coming, and arm neither bound on the way. */
  lemma {:induction false} UndrawableReadsHold(n: Signal, read: nat, events: seq<Event>)
    requires n.dirty && !n.notified && !Armed(n.state) && n.state.lastRead == Some(read)
    requires Undrawable(events) && Busy(n.quiescence, read, events)
    ensures StaysHeld(n, events)
    ensures OnAll(n, events) == n.(state := n.state.(lastRead := Some(LastRead(read, events))))
    ensures forall t: nat :: t <= LastRead(read, events) + n.quiescence ==> !Sends(OnAll(n, events), t)
    decreases |events|
  {
    if events != [] {
      var next := On(n, events[0]);
      UndrawableReadsHold(next, if events[0].Read? then events[0].at else read, events[1..]);
    }
  }

  /** A ceiling once armed stays where it is while the frame is held. */
  lemma {:induction false} CeilingStays(n: Signal, events: seq<Event>)
    requires n.dirty && !n.notified && n.state.ceilingAt.Some? && StaysHeld(n, events)
    ensures
      var m := OnAll(n, events);
      && m.dirty && !m.notified && m.state.ceilingAt == n.state.ceilingAt
      && m.state.syncUntil == SyncAfter(n.state.syncUntil, events)
    decreases |events|
  {
    if events != [] {
      CeilingStays(On(n, events[0]), events[1..]);
    }
  }

  /** From there on any flush past it, past the sync deadline in force and past the throttle sends. */
  lemma CeilingBounds(n: Signal, events: seq<Event>, t: nat)
    requires n.dirty && !n.notified && n.state.ceilingAt.Some? && StaysHeld(n, events)
    requires t > n.state.ceilingAt.value && Past(OnAll(n, events), t)
    ensures Sends(OnAll(n, events), t)
    ensures OnAll(n, events).state.syncUntil == SyncAfter(n.state.syncUntil, events)
  {
    CeilingStays(n, events);
  }

  predicate AnyDraws(events: seq<Event>) {
    exists i :: 0 <= i < |events| && Draws(events[i])
  }

  lemma AnyDrawsNext(events: seq<Event>)
    requires events != []
    ensures AnyDraws(events) <==> Draws(events[0]) || AnyDraws(events[1..])
  {
    if i :| 0 < i < |events| && Draws(events[i]) {
      assert Draws(events[1..][i - 1]);
    }
  }

  /** A frame no change opened gets a bound from a read that draws something, and from nothing else. */
  lemma {:induction false} ArmedIffDrawn(n: Signal, events: seq<Event>)
    requires n.dirty && !n.notified && !Armed(n.state) && StaysHeld(n, events)
    ensures
      var m := OnAll(n, events);
      m.dirty && !m.notified && (Armed(m.state) <==> AnyDraws(events))
    decreases |events|
  {
    hide AnyDraws, Throttled, Due, Hold;
    if events == [] {
      NothingDraws();
    } else {
      var next := On(n, events[0]);
      AnyDrawsNext(events);
      if Draws(events[0]) {
        CeilingStays(next, events[1..]);
      } else {
        ArmedIffDrawn(next, events[1..]);
      }
    }
  }

  lemma NothingDraws()
    ensures !AnyDraws([])
  {
  }

  /** And that bound is a ceiling from the first such read, at the pace then in force. */
  lemma {:induction false} ArmedByFirstDrawn(n: Signal, before: seq<Event>, at: nat, after: seq<Event>)
    requires n.dirty && !n.notified && !Armed(n.state) && !AnyDraws(before)
    requires StaysHeld(n, before + [Read(true, at)] + after)
    ensures
      var all := before + [Read(true, at)] + after;
      OnAll(n, all).state.ceilingAt == Some(at + OnAll(n, before).state.frameCeiling)
    decreases |before|
  {
    hide AnyDraws, Throttled, Due, Hold;
    var all := before + [Read(true, at)] + after;
    if before == [] {
      assert all[0] == Read(true, at) && all[1..] == after;
      CeilingStays(On(n, all[0]), after);
    } else {
      assert all[0] == before[0] && all[1..] == before[1..] + [Read(true, at)] + after;
      AnyDrawsNext(before);
      ArmedByFirstDrawn(On(n, before[0]), before[1..], at, after);
    }
  }

  /** So from its first drawn read on, a frame no change opened is sent by any flush past that ceiling,
      the update's own deadline and the throttle. */
  lemma DrawnReadBounds(n: Signal, before: seq<Event>, at: nat, after: seq<Event>, t: nat)
    requires n.dirty && !n.notified && !Armed(n.state) && !AnyDraws(before)
    requires StaysHeld(n, before + [Read(true, at)] + after)
    requires t > at + OnAll(n, before).state.frameCeiling
    requires Past(OnAll(n, before + [Read(true, at)] + after), t)
    ensures Sends(OnAll(n, before + [Read(true, at)] + after), t)
  {
    hide AnyDraws;
    ArmedByFirstDrawn(n, before, at, after);
    var all := before + [Read(true, at)] + after;
    assert all[|before|] == Read(true, at);
    DrawnIn(all, |before|);
    ArmedIffDrawn(n, all);
  }

  lemma DrawnIn(events: seq<Event>, i: nat)
    requires i < |events| && Draws(events[i])
    ensures AnyDraws(events)
  {
  }

  /** No run on which the child keeps writing holds the frame past `bound`. */
  ghost predicate EndsBy(n: Signal, bound: nat)
    requires n.state.lastRead.Some?
  {
    forall events: seq<Event>, t: nat ::
      t > bound && Busy(n.quiescence, n.state.lastRead.value, events) && StaysHeld(n, events) && Past(OnAll(n, events), t)
      ==> Sends(OnAll(n, events), t)
  }

  /** A pending frame is bounded over every run on which the child keeps writing exactly when a bound
      is armed at the start of it, or there is no quiet to wait for at all. */
  lemma HoldEndsIff(n: Signal)
    requires n.dirty && !n.notified && n.state.lastRead.Some?
    ensures (exists bound: nat :: EndsBy(n, bound)) <==> Armed(n.state) || n.quiescence == 0
  {
    var read := n.state.lastRead.value;
    if n.state.ceilingAt.Some? {
      CeilingEnds(n);
    } else if n.state.heldSince.Some? {
      CeilingOnHoldEnds(n);
    } else if n.quiescence == 0 {
      NoQuietEnds(n);
    } else {
      forall bound: nat ensures !EndsBy(n, bound) {
        NeverEnds(n, bound);
      }
    }
  }

  lemma CeilingEnds(n: Signal)
    requires n.dirty && !n.notified && n.state.lastRead.Some? && n.state.ceilingAt.Some?
    ensures EndsBy(n, n.state.ceilingAt.value)
  {
    forall events: seq<Event>, t: nat | StaysHeld(n, events) && Past(OnAll(n, events), t) && t > n.state.ceilingAt.value
      ensures Sends(OnAll(n, events), t)
    {
      CeilingBounds(n, events, t);
    }
  }

  lemma CeilingOnHoldEnds(n: Signal)
    requires n.dirty && !n.notified && n.state.lastRead.Some? && n.state.heldSince.Some?
    ensures EndsBy(n, n.state.heldSince.value + HOLD_CEILING)
  {
    forall events: seq<Event>, t: nat |
      StaysHeld(n, events) && Past(OnAll(n, events), t) && t > n.state.heldSince.value + HOLD_CEILING
      ensures Sends(OnAll(n, events), t)
    {
      BoundsStay(n, events);
    }
  }

  lemma NoQuietEnds(n: Signal)
    requires n.dirty && !n.notified && n.state.lastRead.Some? && n.quiescence == 0
    ensures EndsBy(n, n.state.lastRead.value)
  {
    var read := n.state.lastRead.value;
    forall events: seq<Event>, t: nat |
      Busy(0, read, events) && StaysHeld(n, events) && Past(OnAll(n, events), t) && t > read
      ensures Sends(OnAll(n, events), t)
    {
      NoTimePasses(n, read, events);
    }
  }

  lemma {:induction false} NoTimePasses(n: Signal, read: nat, events: seq<Event>)
    requires n.dirty && !n.notified && n.quiescence == 0 && n.state.lastRead == Some(read)
    requires Busy(0, read, events) && StaysHeld(n, events)
    ensures
      var m := OnAll(n, events);
      m.dirty && !m.notified && m.quiescence == 0 && m.state.lastRead == Some(read)
    decreases |events|
  {
    if events != [] {
      NoTimePasses(On(n, events[0]), read, events[1..]);
    }
  }

  /** A read that draws nothing at every instant. */
  function Drip(read: nat, count: nat): (events: seq<Event>)
    ensures |events| == count
  {
    seq(count, (i: nat) => Read(false, read + i + 1))
  }

  lemma {:induction false} DripIsBusy(quiescence: nat, read: nat, count: nat)
    requires quiescence > 0
    ensures Busy(quiescence, read, Drip(read, count)) && LastRead(read, Drip(read, count)) == read + count
    decreases count
  {
    if count > 0 {
      assert Drip(read, count)[1..] == Drip(read + 1, count - 1);
      DripIsBusy(quiescence, read + 1, count - 1);
    }
  }

  lemma NeverEnds(n: Signal, bound: nat)
    requires n.dirty && !n.notified && n.state.lastRead.Some? && !Armed(n.state) && n.quiescence > 0
    ensures !EndsBy(n, bound)
  {
    var s, read := n.state, n.state.lastRead.value;
    var count := bound + OrZero(s.syncUntil) + OrZero(s.last) + s.minInterval + 1;
    var events := Drip(read, count);
    DripIsBusy(n.quiescence, read, count);
    UndrawableReadsHold(n, read, events);
    assert Past(OnAll(n, events), read + count) && !Sends(OnAll(n, events), read + count);
  }

  /** Such a frame is left by an announcement the throttle defers: it takes both bounds down, and from
      the first read that draws nothing the frame is held through every tick, past the update's own
      deadline and the throttle, for as long as such reads keep coming. */
  lemma DeferredAnnouncementUnbounded(n: Signal, now: nat, at: nat, events: seq<Event>)
    requires !n.notified && Throttled(n.state, now)
    requires Undrawable(events) && Busy(n.quiescence, at, events)
    ensures
      var m := Fed(Announce(n, now), false, at);
      && m.dirty && !m.notified && !Armed(m.state)
      && StaysHeld(m, events) && !Armed(OnAll(m, events).state)
      && (forall t: nat :: t <= LastRead(at, events) + n.quiescence ==> !Sends(OnAll(m, events), t))
  {
    UndrawableReadsHold(Fed(Announce(n, now), false, at), at, events);
  }

  /** Half a millisecond of quiet, eight between frames: an announcement a millisecond after a frame,
      then reads that draw nothing for a fifth of a second, and the frame is still held. */
  lemma DeferredAnnouncementExample()
    ensures
      var n := Signal(false, false, State(8_000_000, 8_000_000, Some(0), None, None, None, None), 500_000);
      var m := Fed(Announce(n, 1_000_000), false, 1_000_000);
      var late := OnAll(m, Drip(1_000_000, 200_000_000));
      late.dirty && Past(late, 201_000_000) && !Sends(late, 201_000_000)
  {
    var n := Signal(false, false, State(8_000_000, 8_000_000, Some(0), None, None, None, None), 500_000);
    var m := Fed(Announce(n, 1_000_000), false, 1_000_000);
    DripIsBusy(500_000, 1_000_000, 200_000_000);
    UndrawableReadsHold(m, 1_000_000, Drip(1_000_000, 200_000_000));
  }

  // ----- frames keep their distance -----

  /** Everything that may happen to the notifier. */
  datatype Happening = Held(event: Event) | Announced(at: nat) | Taken

  function Happens(n: Signal, h: Happening): Signal {
    match h
    case Held(e) => On(n, e)
    case Announced(at) => Announce(n, at)
    case Taken => Acknowledged(n)
  }

  /** When a byte goes out: a tick or an announcement that finds none on its way and leaves one. */
  function WentOut(n: Signal, h: Happening): Option<nat> {
    if n.notified || !Happens(n, h).notified then None
    else
      match h
      case Held(Tick(at)) => Some(at)
      case Announced(at) => Some(at)
      case _ => None
  }

  /** A frame: when it was sent, and the distance from the one before it that was asked for then. */
  datatype Frame = Frame(at: nat, interval: nat)

  function Frames(n: Signal, hs: seq<Happening>): seq<Frame>
    decreases |hs|
  {
    if hs == [] then []
    else
      var at := WentOut(n, hs[0]);
      (if at.Some? then [Frame(at.value, n.state.minInterval)] else []) + Frames(Happens(n, hs[0]), hs[1..])
  }

  /** A byte that goes out is stamped, and nothing else is. */
  lemma OnlyFramesStamp(n: Signal, h: Happening)
    ensures var (at, s) := (WentOut(n, h), Happens(n, h).state);
            && s.last == (if at.Some? then at else n.state.last)
            && (at.Some? && n.state.last.Some? && n.state.minInterval > 0 ==>
                  at.value >= n.state.last.value + n.state.minInterval)
  {
  }

  /** Over any run at all, two frames one after the other are the interval apart that held when the second went out. */
  lemma {:induction false} FramesApart(n: Signal, hs: seq<Happening>)
    ensures var frames := Frames(n, hs);
            && (frames != [] && n.state.last.Some? && frames[0].interval > 0 ==>
                  frames[0].at >= n.state.last.value + frames[0].interval)
            && (forall i :: 0 < i < |frames| && frames[i].interval > 0 ==>
                  frames[i].at >= frames[i - 1].at + frames[i].interval)
    decreases |hs|
  {
    hide Happens, WentOut;
    if hs != [] {
      OnlyFramesStamp(n, hs[0]);
      FramesApart(Happens(n, hs[0]), hs[1..]);
    }
  }
}
