/** `Notifier` (src/session.rs) as the object both threads call: two flags, a locked record of
    deadlines, and a pipe. Each method is proved to leave what the function of the same name in
    `Notify` says. */
module NotifierObject {
  import opened Cells
  import opened Notify
  import N = Notify

  class Notifier {
    var dirty: bool
    var notified: bool
    var state: State
    var written: nat
    var open: bool
    const quiescence: nat

    function Value(): Signal
      reads this
    {
      Signal(dirty, notified, state, quiescence)
    }

    constructor (minInterval: nat, frameCeiling: nat, quiescence: nat)
      ensures Value() == Signal(false, false, State(minInterval, frameCeiling, None, None, None, None, None), quiescence)
      ensures written == 0 && open
    {
      dirty, notified, written, open := false, false, 0, true;
      state := State(minInterval, frameCeiling, None, None, None, None, None);
      this.quiescence := quiescence;
    }

    /** One byte down the wake pipe, unless one is in flight; whether Emacs still listens. */
    method Notify() returns (listening: bool)
      modifies this`notified, this`written
      ensures notified
      ensures written == old(written) + if !old(notified) && open then 1 else 0
      ensures listening == (old(notified) || open)
    {
      if notified {
        return true;
      }
      notified := true;
      if open {
        written := written + 1;
      }
      listening := open;
    }

    method Fed(drawable: bool, now: nat)
      modifies this`dirty, this`state
      ensures Value() == N.Fed(old(Value()), drawable, now)
    {
      state := state.(lastRead := Some(now));
      if drawable {
        var was := dirty;
        dirty := true;
        if was {
          if state.ceilingAt.None? {
            state := state.(ceilingAt := Some(now + state.frameCeiling));
          }
        } else {
          state := state.(heldSince := Some(now));
        }
      }
    }

    method HoldLeft(now: nat) returns (wait: Option<nat>)
      ensures wait == Hold(state, quiescence, now)
    {
      wait := Remaining(After(state.lastRead, quiescence), now);
      if wait.None? {
        return;
      }
      if state.ceilingAt.Some? {
        var left := Remaining(state.ceilingAt, now);
        if left.None? {
          return None;
        }
        wait := Some(Lesser(wait.value, left.value));
      }
      if state.heldSince.Some? {
        var left := Remaining(Some(state.heldSince.value + HOLD_CEILING), now);
        if left.None? {
          return None;
        }
        wait := Some(Lesser(wait.value, left.value));
      }
    }

    method Flush(now: nat) returns (listening: bool)
      modifies this`dirty, this`notified, this`state, this`written
      ensures Value() == N.Flush(old(Value()), now)
      ensures written == old(written) + if Sends(old(Value()), now) && open then 1 else 0
      ensures listening == (!Sends(old(Value()), now) || open)
    {
      if notified || !dirty {
        return true;
      }
      if Remaining(state.syncUntil, now).Some? {
        return true;
      }
      if state.last.Some? && Elapsed(state.last.value, now) < state.minInterval {
        return true;
      }
      var hold := HoldLeft(now);
      if hold.Some? {
        return true;
      }
      state := state.(last := Some(now), ceilingAt := None, heldSince := None);
      dirty := false;
      listening := Notify();
    }

    method Announce(now: nat) returns (listening: bool)
      modifies this`dirty, this`notified, this`state, this`written
      ensures Value() == N.Announce(old(Value()), now)
      ensures written == old(written) + if Sends(Marked(old(Value())), now) && open then 1 else 0
      ensures listening == (!Sends(Marked(old(Value())), now) || open)
    {
      dirty := true;
      state := state.(lastRead := None, ceilingAt := None, heldSince := None);
      listening := Flush(now);
    }

    method Acknowledge()
      modifies this`notified
      ensures Value() == Acknowledged(old(Value()))
    {
      notified := false;
    }

    /** Emacs has drawn; whether a notification is still waiting out the throttle. */
    method Rearm(now: nat) returns (waiting: bool)
      modifies this`dirty, this`notified, this`state, this`written
      ensures Value() == N.Flush(old(Value()), now)
      ensures written == old(written) + if Sends(old(Value()), now) && open then 1 else 0
      ensures waiting == (dirty && !notified)
    {
      var listening := Flush(now);
      waiting := dirty && !notified;
    }

    method SetSync(deadline: Option<nat>)
      modifies this`state
      ensures Value() == N.SetSync(old(Value()), deadline)
    {
      if deadline.None? {
        state := state.(syncUntil := None);
      } else {
        var held := dirty && state.syncUntil.Some?;
        if !held {
          state := state.(syncUntil := deadline);
        }
      }
    }

    method PollWait(base: nat, now: nat) returns (wait: nat)
      ensures wait == N.PollWait(Value(), base, now)
    {
      if notified || !dirty {
        return base;
      }
      var throttle := 0;
      if state.last.Some? {
        var elapsed := Elapsed(state.last.value, now);
        throttle := if elapsed >= state.minInterval then 0 else state.minInterval - elapsed;
      }
      var hold := HoldLeft(now);
      wait := Greater(Greater(throttle, OrZero(Remaining(state.syncUntil, now))), OrZero(hold));
    }
  }
}
