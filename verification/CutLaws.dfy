/** Whether harmful cuts can cancel out: a stream read in any number of chunks comes to what it comes to in
    one piece exactly when every cut is harmless.

    A harmful cut prints a control or skips a byte of ASCII, so reading in chunks is reading a thinned stream;
    and of what ground text above ASCII asks for, a thinned stream never asks for less. */
module CutLaws {
  import opened Utf8
  import opened ByteMachine
  import opened MachineLaws

  // ----- what is above ASCII -----

  /** How much is asked for that only ground text above ASCII asks for. */
  function Loudness(actions: seq<Action>): nat {
    if actions == [] then 0 else (if Loud(actions[0]) then 1 else 0) + Loudness(actions[1..])
  }

  lemma {:induction false} LoudnessConcat(a: seq<Action>, b: seq<Action>)
    ensures Loudness(a + b) == Loudness(a) + Loudness(b)
    decreases |a|
  {
    if a == [] {
      assert a + b == b;
    } else {
      LoudnessConcat(a[1..], b);
      assert (a + b)[1..] == a[1..] + b;
    }
  }

  lemma {:induction false} NoneIsLoud(actions: seq<Action>)
    requires forall i :: 0 <= i < |actions| ==> !Loud(actions[i])
    ensures Loudness(actions) == 0
    decreases |actions|
  {
    if actions != [] {
      NoneIsLoud(actions[1..]);
    }
  }

  lemma QuietPerform(m: Machine, op: Op, b: Byte)
    requires Ok(m) && (op.DoDigit? ==> Between(b, 0x30, 0x39))
    requires op.Exec? || op.DoApcDropExec? || op.DoOscEndExec? || op.DoUnhookExec? ==> b <= 0x1F
    ensures Loudness(Perform(m, op, b).1) == 0
  {
    hide EndsOk, IsPartial, FlatLen, Groups, OscFields, Ok, Loudness;
    var y := Perform(m, op, b).1;
    assert forall i :: 0 <= i < |y| ==> !Loud(y[i]);
    NoneIsLoud(y);
  }

  lemma ExecutesLow(s: State, b: Byte)
    requires s != Ground
    ensures
      var op := Transition(s, b).0;
      && (op.Exec? || op.DoApcDropExec? || op.DoOscEndExec? || op.DoUnhookExec? ==> b <= 0x1F)
      && (op.DoDigit? ==> Between(b, 0x30, 0x39))
  {
  }

  lemma StringIsSilent(e: Machine, b: Byte)
    requires Ok(e) && e.state != Ground
    ensures Loudness(Step(e, b).1) == 0
  {
    hide Transition, Perform, Loudness;
    ExecutesLow(e.state, b);
    QuietPerform(e, Transition(e.state, b).0, b);
  }

  /** A byte in ground: one above ASCII, or one that ends a character cut off, is heard or held back. */
  lemma GroundIsHeard(g: Machine, b: Byte)
    requires Grounded(g)
    ensures
      var (n, x) := Step(g, b);
      && (b >= 0x80 ==> Loudness(x) >= 1 || n.partial != [])
      && (g.partial != [] ==> Loudness(x) >= 1 || n.partial != [])
      && (x != [] && (g.partial != [] || b >= 0x80) ==> Loud(x[0]))
      && (g.partial != [] && b <= 0x7F ==> Loudness(x) >= 1 && (b != 0x1B ==> |x| == 2))
  {
    hide EndsOk, StringStep, Scan;
    if g.partial != [] || b >= 0x80 {
      LeadIsHigh(g.partial, b);
    }
    GroundActs(g, b);
    var x := Step(g, b).1;
    if Scan(g.partial + [b]).Char? && (g.partial != [] || b >= 0x80) {
      ShownIsLoud(g.partial + [b]);
    }
    assert |x| >= 1 ==> Loudness(x) == (if Loud(x[0]) then 1 else 0) + Loudness(x[1..]);
    assert |x| == 1 ==> x[1..] == [];
  }

  // ----- a thinned stream -----

  /** `bs` as a machine in state `g` reads it if it skips, between characters in ground, some bytes of ASCII
      that stand before one above it. */
  ghost predicate Thins(g: Machine, thin: seq<Byte>, bs: seq<Byte>)
    requires Ok(g)
    decreases |bs|
  {
    if bs == [] then thin == []
    else
      || (thin != [] && thin[0] == bs[0] && Thins(Step(g, bs[0]).0, thin[1..], bs[1..]))
      || (Skips(g, bs) && Thins(g, thin, bs[1..]))
  }

  predicate Skips(g: Machine, bs: seq<Byte>) {
    g.state == Ground && g.partial == [] && |bs| >= 2 && bs[0] <= 0x7F && bs[1] >= 0x80
  }

  lemma {:induction false} ThinsItself(g: Machine, bs: seq<Byte>)
    requires Ok(g)
    ensures Thins(g, bs, bs)
    decreases |bs|
  {
    hide Step, Ok;
    if bs != [] {
      ThinsItself(Step(g, bs[0]).0, bs[1..]);
    }
  }

  lemma {:induction false} ThinsConcat(g: Machine, thin: seq<Byte>, bs: seq<Byte>, thin2: seq<Byte>, bs2: seq<Byte>)
    requires Ok(g) && Thins(g, thin, bs) && Thins(Run(g, thin).0, thin2, bs2)
    ensures Thins(g, thin + thin2, bs + bs2)
    decreases |bs|
  {
    hide Step, Ok;
    if bs == [] {
      assert thin + thin2 == thin2 && bs + bs2 == bs2;
    } else {
      assert (bs + bs2)[1..] == bs[1..] + bs2;
      if thin != [] && thin[0] == bs[0] && Thins(Step(g, bs[0]).0, thin[1..], bs[1..]) {
        ThinsConcat(Step(g, bs[0]).0, thin[1..], bs[1..], thin2, bs2);
        assert (thin + thin2)[1..] == thin[1..] + thin2;
      } else {
        ThinsConcat(g, thin, bs[1..], thin2, bs2);
      }
    }
  }

  // ----- thinned, a stream is heard no less -----

  /** The loudness of a whole stream. */
  function Heard(m: Machine, bs: seq<Byte>): nat
    requires Ok(m)
  {
    Loudness(Run(m, bs).1)
  }

  lemma HeardStep(m: Machine, bs: seq<Byte>)
    requires Ok(m) && bs != []
    ensures Heard(m, bs) == Loudness(Step(m, bs[0]).1) + Heard(Step(m, bs[0]).0, bs[1..])
  {
    hide Step, Ok;
    RunStep(m, bs);
    LoudnessConcat(Step(m, bs[0]).1, Run(Step(m, bs[0]).0, bs[1..]).1);
  }

  /** A byte of ASCII between characters: one quiet action, or into an escape. */
  lemma AsciiStep(m: Machine, b: Byte)
    requires Grounded(m) && m.partial == [] && b <= 0x7F
    ensures Loudness(Step(m, b).1) == 0
    ensures b != 0x1B ==> Step(m, b).0 == m && |Step(m, b).1| == 1
    ensures b == 0x1B ==> Step(m, b) == (ToEscape(m), [])
  {
    hide EndsOk, StringStep;
    assert Scan([b]) == Char(1, b);
    var x := Step(m, b).1;
    assert |x| == 1 ==> x[1..] == [];
  }

  /** From the same state on, the thinned stream is heard at least as much. */
  lemma {:induction false} ThinIsHeard(g: Machine, e: Machine, thin: seq<Byte>, bs: seq<Byte>)
    requires Similar(g, e) && Ok(g) && Ok(e) && Thins(g, thin, bs)
    ensures Heard(g, thin) >= Heard(e, bs)
    decreases |bs|, 0
  {
    hide Step, Ok, Loudness, Heard, Similar, Run;
    if bs == [] {
      NothingHeard(e);
    } else {
      HeardStep(e, bs);
      if thin != [] && thin[0] == bs[0] && Thins(Step(g, bs[0]).0, thin[1..], bs[1..]) {
        HeardStep(g, thin);
        SimilarStep(g, e, bs[0]);
        SimilarIsOk(Step(g, bs[0]).0, Step(e, bs[0]).0);
        ThinIsHeard(Step(g, bs[0]).0, Step(e, bs[0]).0, thin[1..], bs[1..]);
      } else {
        SimilarGrounded(g, e);
        AsciiStep(e, bs[0]);
        if bs[0] == 0x1B {
          EscapeIsReset(e);
          ThinAfterEscape(g, ToEscape(e), 0, thin, bs[1..]);
        } else {
          ThinIsHeard(g, e, thin, bs[1..]);
        }
      }
    }
  }

  lemma SimilarGrounded(g: Machine, e: Machine)
    requires Similar(g, e) && g.state == Ground
    ensures Grounded(g) && Grounded(e) && g.partial == e.partial
  {
  }

  lemma EscapeIsReset(e: Machine)
    requires Grounded(e) && e.partial == []
    ensures Ok(ToEscape(e)) && ToEscape(e).state == Escape && Reset(ToEscape(e)) == ToEscape(e)
  {
    hide EndsOk;
  }

  /** Something is about to be heard. */
  predicate Pending(g: Machine, bs: seq<Byte>) {
    g.partial != [] || (bs != [] && bs[0] >= 0x80)
  }

  /** And after an escape only the other reading saw, which is silent until it is back in ground. */
  lemma {:induction false} ThinAfterEscape(g: Machine, e: Machine, lead: nat, thin: seq<Byte>, bs: seq<Byte>)
    requires Grounded(g) && Ok(g) && Ok(e) && e.state != Ground && (e.state == Escape ==> Reset(e) == e)
    requires Thins(g, thin, bs) && (lead >= 1 || (e.state == Escape && Pending(g, bs)))
    ensures lead + Heard(g, thin) >= Heard(e, bs)
    decreases |bs|, 0
  {
    hide Step, Ok, Loudness, Heard, Similar, Run, Reset;
    if bs == [] {
      NothingHeard(e);
    } else {
      var b := bs[0];
      HeardStep(e, bs);
      StringIsSilent(e, b);
      StringIsQuiet(e, b);
      BackInGround(e, b);
      var k := Step(e, b).0;
      if thin != [] && thin[0] == b && Thins(Step(g, b).0, thin[1..], bs[1..]) {
        HeardStep(g, thin);
        GroundActs(g, b);
        GroundIsHeard(g, b);
        var n, now := Step(g, b).0, lead + Loudness(Step(g, b).1);
        if b == 0x1B {
          BothEscape(g, n, k);
          ThinIsHeard(n, k, thin[1..], bs[1..]);
        } else if k.state != Ground {
          if e.state == Escape && b >= 0x80 {
            EscapeIgnoresHigh(e, b);
          }
          ThinAfterEscape(n, k, now, thin[1..], bs[1..]);
        } else if b <= 0x7F {
          BothGround(n, k);
          ThinIsHeard(n, k, thin[1..], bs[1..]);
        } else {
          assert b == 0x9C && e.state != Escape;
          AfterTail(g, b);
          ThinInGround(n, k, now, thin[1..], bs[1..]);
        }
      } else if k.state == Ground {
        BothGround(g, k);
        ThinIsHeard(g, k, thin, bs[1..]);
      } else {
        ThinAfterEscape(g, k, lead, thin, bs[1..]);
      }
    }
  }

  lemma NothingHeard(e: Machine)
    requires Ok(e)
    ensures Heard(e, []) == 0
  {
  }

  /** Only two strings are left for ground by a byte above ASCII, and by one byte only. */
  lemma BackInGround(e: Machine, b: Byte)
    requires Ok(e) && e.state != Ground
    ensures
      var k := Step(e, b).0;
      k.state == Ground && b > 0x7F ==> b == 0x9C && e.state != Escape
  {
    hide Ok, Perform;
  }

  /** Back in ground, in the middle of a character for the one and between two for the other. */
  lemma {:induction false} ThinInGround(g: Machine, e: Machine, lead: nat, thin: seq<Byte>, bs: seq<Byte>)
    requires Grounded(g) && Grounded(e) && Ok(g) && Ok(e) && e.partial == [] && Thins(g, thin, bs)
    requires (g.partial == [] || |g.partial| >= 2) && (|g.partial| == 2 ==> lead >= 1)
    ensures lead + Heard(g, thin) >= Heard(e, bs)
    decreases |bs|, 1
  {
    hide Step, Ok, Loudness, Heard, Similar, Run, Scan;
    if g.partial == [] {
      BothGround(g, e);
      ThinIsHeard(g, e, thin, bs);
    } else if bs == [] {
      NothingHeard(e);
    } else {
      var b := bs[0];
      var n, k := Step(g, b).0, Step(e, b).0;
      HeardStep(g, thin);
      HeardStep(e, bs);
      InsideIsHeard(g, e, b);
      if IsTail(b) {
        ThinInGround(n, k, lead + Loudness(Step(g, b).1) - 1, thin[1..], bs[1..]);
      } else {
        SimilarIsOk(n, k);
        ThinIsHeard(n, k, thin[1..], bs[1..]);
      }
    }
  }

  lemma InsideIsHeard(g: Machine, e: Machine, b: Byte)
    requires Grounded(g) && Grounded(e) && e.partial == [] && |g.partial| >= 2
    ensures
      var (n, x) := Step(g, b);
      var (k, y) := Step(e, b);
      if IsTail(b) then
        && Grounded(n) && Grounded(k) && k.partial == [] && Loudness(y) == 1 && |y| == 1
        && ((n.partial == [] && Loudness(x) == 1) || (|g.partial| == 2 && |n.partial| == 3 && x == []))
      else Loudness(x) == 1 + Loudness(y) && Similar(n, k)
  {
    hide EndsOk, StringStep, Scan, FlatLen;
    InsideCharacter(g, e, b);
    GroundIsHeard(g, b);
    GroundIsHeard(e, b);
    var x, y := Step(g, b).1, Step(e, b).1;
    assert |x| == 1 ==> x[1..] == [];
    assert |y| == 1 ==> y[1..] == [];
    if !IsTail(b) {
      OutOfCharacter(g, e, b);
      LoudnessConcat([Print(REPLACEMENT)], y);
    }
  }

  lemma OutOfCharacter(g: Machine, e: Machine, b: Byte)
    requires Grounded(g) && Grounded(e) && e.partial == [] && |g.partial| >= 2 && !IsTail(b)
    ensures Step(g, b).1 == [Print(REPLACEMENT)] + Step(e, b).1
  {
    hide EndsOk, StringStep, Scan, FreshStep, FlatLen;
    TailOf(g.partial, b);
    SimilarFresh(g.(partial := []), e, b);
  }

  // ----- an escape the one reading lost -----

  /** Having asked for `all` and ended in `end`, a reading has not come to `r`: it was heard more, or the
      other began quietly, or was loud where this one was not, or they ended in different states. */
  ghost predicate Apart(all: seq<Action>, end: Machine, r: (Machine, seq<Action>)) {
    || Loudness(all) > Loudness(r.1)
    || (r.1 != [] && !Loud(r.1[0]))
    || (|all| >= 2 && |r.1| >= 2 && !Loud(all[1]) && Loud(r.1[1]))
    || end.state != r.0.state || end.partial != r.0.partial
  }

  /** What a reading has done so far comes before what it goes on to do. */
  lemma DoneStep(done: seq<Action>, g: Machine, thin: seq<Byte>)
    requires Ok(g) && thin != []
    ensures done + Run(g, thin).1 == (done + Step(g, thin[0]).1) + Run(Step(g, thin[0]).0, thin[1..]).1
    ensures Run(g, thin).0 == Run(Step(g, thin[0]).0, thin[1..]).0
  {
    hide Step, Ok;
    RunStep(g, thin);
  }

  lemma SilentStep(e: Machine, bs: seq<Byte>)
    requires Ok(e) && bs != [] && Step(e, bs[0]).1 == []
    ensures Run(e, bs) == Run(Step(e, bs[0]).0, bs[1..])
  {
    hide Step, Ok;
    RunStep(e, bs);
    ThenNothing(Run(Step(e, bs[0]).0, bs[1..]));
  }

  lemma HeardMore(done: seq<Action>, g: Machine, thin: seq<Byte>, e: Machine, bs: seq<Byte>)
    requires Ok(g) && Ok(e) && Loudness(done) + Heard(g, thin) > Heard(e, bs)
    ensures Apart(done + Run(g, thin).1, Run(g, thin).0, Run(e, bs))
  {
    LoudnessConcat(done, Run(g, thin).1);
  }

  /** From the same state, with something heard before. */
  lemma AheadInStep(done: seq<Action>, g: Machine, thin: seq<Byte>, e: Machine, bs: seq<Byte>)
    requires Similar(g, e) && Ok(g) && Ok(e) && Thins(g, thin, bs) && done != [] && Loud(done[0])
    ensures Apart(done + Run(g, thin).1, Run(g, thin).0, Run(e, bs))
  {
    hide Run, Ok, Apart;
    ThinIsHeard(g, e, thin, bs);
    HeardMore(done, g, thin, e, bs);
  }

  /** A payload that began with a byte the first reading skipped, and is all one unfinished character to it. */
  predicate SmallPayload(g: Machine, e: Machine, bs: seq<Byte>) {
    !e.apcOverflow && |e.apc| == |g.partial| && Pending(g, bs)
  }

  /** What is done so far: something heard first, unless nothing is and something is about to be. */
  ghost predicate Began(done: seq<Action>, g: Machine, e: Machine, bs: seq<Byte>) {
    && (done != [] ==> Loud(done[0]))
    && (done == [] ==> e.state == Escape && Pending(g, bs))
    && (e.state == ApcString ==> |done| >= 2 || SmallPayload(g, e, bs))
  }

  /** Going from string to string, or on in one, without a sound. */
  lemma SilentlyOn(e: Machine, b: Byte)
    requires Ok(e) && e.state != Ground && Step(e, b).1 == [] && Step(e, b).0.state != Ground
    ensures
      var k := Step(e, b).0;
      && (k.state == ApcString && e.state != ApcString ==>
            e.state == Escape && b == 0x5F && k.apc == [] && !k.apcOverflow)
      && (k.state == ApcString && e.state == ApcString && |e.apc| < MAX_APC_RAW ==>
            k.apc == e.apc + [b] && k.apcOverflow == e.apcOverflow)
  {
    hide Ok, Digit, Collect, SubParam, NextParam, LastParam, OscEnd, OscPut, OscSeparate;
  }

  lemma SilentlyOut(e: Machine, b: Byte)
    requires Ok(e) && e.state != Ground && Step(e, b).1 == [] && Step(e, b).0.state == Ground && b > 0x7F
    ensures e.state == ApcString && e.apcOverflow && b == 0x9C
  {
    hide Ok, Digit, Collect, SubParam, NextParam, LastParam, OscEnd, OscPut, OscSeparate;
  }

  lemma HeldGrows(g: Machine, b: Byte)
    requires Grounded(g) && b != 0x1B && Step(g, b).1 == []
    ensures Step(g, b).0.partial == g.partial + [b]
  {
    hide EndsOk, StringStep, Scan;
    assert [] + [b] == [b];
  }

  lemma HeldIsShort(g: Machine)
    requires Grounded(g)
    ensures |g.partial| <= 3
  {
  }

  lemma BeganStep(done: seq<Action>, g: Machine, e: Machine, bs: seq<Byte>)
    requires Grounded(g) && Ok(g) && Ok(e) && e.state != Ground && bs != [] && Began(done, g, e, bs)
    requires Step(e, bs[0]).1 == [] && Step(e, bs[0]).0.state != Ground && bs[0] != 0x1B
    ensures Began(done + Step(g, bs[0]).1, Step(g, bs[0]).0, Step(e, bs[0]).0, bs[1..])
  {
    hide Step, Ok, Loud, Loudness, IsPartial;
    var b := bs[0];
    var (n, x) := Step(g, b);
    GroundIsHeard(g, b);
    GroundActs(g, b);
    SilentlyOn(e, b);
    HeldIsShort(g);
    if x == [] {
      HeldGrows(g, b);
    }
    if e.state == Escape && b >= 0x80 {
      EscapeIgnoresHigh(e, b);
    }
    assert x == [] ==> Loudness(x) == 0 by { NoneLoud(); }
  }

  lemma NoneLoud()
    ensures Loudness([]) == 0
  {
  }

  lemma BeganSkip(done: seq<Action>, g: Machine, e: Machine, bs: seq<Byte>)
    requires Ok(e) && e.state != Ground && Began(done, g, e, bs) && Skips(g, bs)
    requires Step(e, bs[0]).1 == [] && Step(e, bs[0]).0.state != Ground
    ensures Began(done, g, Step(e, bs[0]).0, bs[1..])
  {
    hide Step, Ok, Loud;
    SilentlyOn(e, bs[0]);
  }

  /** An escape skipped before a byte above ASCII shows, however much more is skipped after it. */
  lemma {:induction false} LostEscapeShows(done: seq<Action>, g: Machine, e: Machine, thin: seq<Byte>, bs: seq<Byte>)
    requires Grounded(g) && Ok(g) && Ok(e) && e.state != Ground && (e.state == Escape ==> Reset(e) == e)
    requires Thins(g, thin, bs) && Began(done, g, e, bs)
    ensures Apart(done + Run(g, thin).1, Run(g, thin).0, Run(e, bs))
    decreases |bs|
  {
    hide Step, Ok, Loudness, Similar, Reset, Apart, Loud;
    if bs == [] {
      NotBack(done, g, e);
    } else {
      var b := bs[0];
      var k := Step(e, b).0;
      StringIsQuiet(e, b);
      if Step(e, b).1 != [] {
        QuietFirst(done, g, thin, e, bs);
      } else {
        SilentStep(e, bs);
        if thin != [] && thin[0] == b && Thins(Step(g, b).0, thin[1..], bs[1..]) {
          DoneStep(done, g, thin);
          GroundActs(g, b);
          HeardAtOnce(done, g, e, bs);
          var n, now := Step(g, b).0, done + Step(g, b).1;
          if b == 0x1B {
            BothEscape(g, n, k);
            AheadInStep(now, n, thin[1..], k, bs[1..]);
          } else if k.state != Ground {
            BeganStep(done, g, e, bs);
            LostEscapeShows(now, n, k, thin[1..], bs[1..]);
          } else if b <= 0x7F {
            BothGround(n, k);
            AheadInStep(now, n, thin[1..], k, bs[1..]);
          } else {
            SilentlyOut(e, b);
            AfterTail(g, b);
            ApartInGround(now, n, k, thin[1..], bs[1..]);
          }
        } else if k.state == Ground {
          BothGround(g, k);
          AheadInStep(done, g, thin, k, bs[1..]);
        } else {
          BeganSkip(done, g, e, bs);
          LostEscapeShows(done, g, k, thin, bs[1..]);
        }
      }
    }
  }

  lemma NotBack(done: seq<Action>, g: Machine, e: Machine)
    requires Ok(g) && Ok(e) && g.state == Ground && e.state != Ground
    ensures Apart(done + Run(g, []).1, Run(g, []).0, Run(e, []))
  {
  }

  lemma QuietFirst(done: seq<Action>, g: Machine, thin: seq<Byte>, e: Machine, bs: seq<Byte>)
    requires Ok(g) && Ok(e) && bs != [] && Step(e, bs[0]).1 != [] && !Loud(Step(e, bs[0]).1[0])
    ensures Apart(done + Run(g, thin).1, Run(g, thin).0, Run(e, bs))
  {
    hide Step, Ok, Loud;
    RunStep(e, bs);
  }

  /** A byte of ASCII brings out what was held back, and adds to what is done. */
  lemma HeardAtOnce(done: seq<Action>, g: Machine, e: Machine, bs: seq<Byte>)
    requires Grounded(g) && bs != [] && Began(done, g, e, bs)
    ensures
      var now := done + Step(g, bs[0]).1;
      && (bs[0] <= 0x7F ==> now != [] && Loud(now[0]))
      && (done != [] ==> now != [] && now[0] == done[0])
  {
    hide Step, Ok, Loud;
    GroundIsHeard(g, bs[0]);
    NoneLoud();
  }

  /** Between two characters for the one, in the middle of one for the other, which has done more. */
  lemma ApartInGround(done: seq<Action>, g: Machine, e: Machine, thin: seq<Byte>, bs: seq<Byte>)
    requires Grounded(g) && Grounded(e) && Ok(g) && Ok(e) && e.partial == [] && Thins(g, thin, bs)
    requires (g.partial == [] || |g.partial| >= 2) && |done| >= 2 && Loud(done[0])
    ensures Apart(done + Run(g, thin).1, Run(g, thin).0, Run(e, bs))
  {
    hide Step, Ok, Similar, Apart, Loud, Run, Scan;
    if |g.partial| != 2 || Loud(done[1]) {
      assert Loudness(done) >= 1 + if Loud(done[1]) then 1 else 0;
      ThinInGround(g, e, Loudness(done) - 1, thin, bs);
      HeardMore(done, g, thin, e, bs);
    } else if bs == [] {
      StillHeld(done, g, e);
    } else {
      var b := bs[0];
      var n, k := Step(g, b).0, Step(e, b).0;
      InsideIsHeard(g, e, b);
      HeardStep(g, thin);
      HeardStep(e, bs);
      if IsTail(b) && n.partial != [] {
        ThreeHeld(done, g, e, thin, bs);
      } else {
        if n.partial == [] && k.partial == [] && n.state == Ground && k.state == Ground {
          BothGround(n, k);
        }
        SimilarIsOk(n, k);
        ThinIsHeard(n, k, thin[1..], bs[1..]);
        HeardMore(done, g, thin, e, bs);
      }
    }
  }

  lemma StillHeld(done: seq<Action>, g: Machine, e: Machine)
    requires Ok(g) && Ok(e) && g.partial != [] && e.partial == []
    ensures Apart(done + Run(g, []).1, Run(g, []).0, Run(e, []))
  {
  }

  /** The third byte of a character of four: at the fourth the other has been loud twice. */
  lemma ThreeHeld(done: seq<Action>, g: Machine, e: Machine, thin: seq<Byte>, bs: seq<Byte>)
    requires Grounded(g) && Grounded(e) && Ok(g) && Ok(e) && e.partial == [] && Thins(g, thin, bs)
    requires |g.partial| == 2 && |done| >= 2 && Loud(done[0]) && !Loud(done[1])
    requires bs != [] && IsTail(bs[0]) && Step(g, bs[0]).0.partial != []
    ensures Apart(done + Run(g, thin).1, Run(g, thin).0, Run(e, bs))
  {
    hide Step, Ok, Similar, Apart, Loud, Run, Scan;
    var b, rest := bs[0], bs[1..];
    var n, k := Step(g, b).0, Step(e, b).0;
    InsideIsHeard(g, e, b);
    HeardStep(g, thin);
    HeardStep(e, bs);
    if rest == [] {
      EndsHeld(done, g, e, thin, bs);
    } else if IsTail(rest[0]) {
      InsideIsHeard(n, k, rest[0]);
      TwiceLoud(done, g, e, thin, bs);
    } else {
      InsideIsHeard(n, k, rest[0]);
      HeardStep(n, thin[1..]);
      HeardStep(k, rest);
      SimilarIsOk(Step(n, rest[0]).0, Step(k, rest[0]).0);
      ThinIsHeard(Step(n, rest[0]).0, Step(k, rest[0]).0, thin[1..][1..], rest[1..]);
      HeardMore(done, g, thin, e, bs);
    }
  }

  lemma EndsHeld(done: seq<Action>, g: Machine, e: Machine, thin: seq<Byte>, bs: seq<Byte>)
    requires Ok(g) && Ok(e) && |bs| == 1 && thin == bs
    requires Step(g, bs[0]).0.partial != [] && Step(e, bs[0]).0.partial == []
    ensures Apart(done + Run(g, thin).1, Run(g, thin).0, Run(e, bs))
  {
    hide Step, Ok;
    RunStep(g, thin);
    RunStep(e, bs);
  }

  lemma TwiceLoud(done: seq<Action>, g: Machine, e: Machine, thin: seq<Byte>, bs: seq<Byte>)
    requires Ok(g) && Ok(e) && |done| >= 2 && !Loud(done[1]) && |bs| >= 2
    requires |Step(e, bs[0]).1| == 1
    requires var k := Step(e, bs[0]).0; |Step(k, bs[1]).1| == 1 && Loudness(Step(k, bs[1]).1) == 1
    ensures Apart(done + Run(g, thin).1, Run(g, thin).0, Run(e, bs))
  {
    hide Step, Ok, Loud;
    var k := Step(e, bs[0]).0;
    RunStep(e, bs);
    RunStep(k, bs[1..]);
    var y := Step(k, bs[1]).1;
    assert Loudness(y) == (if Loud(y[0]) then 1 else 0) + Loudness(y[1..]) && y[1..] == [];
    assert Run(e, bs).1[1] == y[0];
  }

  // ----- reading in chunks is reading a thinned stream -----

  /** The same, but that a control above ASCII may have been printed. */
  ghost predicate Alike(a: seq<Action>, b: seq<Action>) {
    |a| == |b| && forall i :: 0 <= i < |a| ==> a[i] == b[i] || (Loud(a[i]) && Loud(b[i]))
  }

  lemma {:induction false} AlikeLoudness(a: seq<Action>, b: seq<Action>)
    requires Alike(a, b)
    ensures Loudness(a) == Loudness(b)
    decreases |a|
  {
    if a != [] {
      AlikeLoudness(a[1..], b[1..]);
    }
  }

  lemma AlikeConcat(a: seq<Action>, b: seq<Action>, c: seq<Action>, d: seq<Action>)
    requires Alike(a, b) && Alike(c, d)
    ensures Alike(a + c, b + d)
  {
  }

  /** What an advance does, as the reading of a thinned stream. */
  ghost predicate ReadsAs(r: (Machine, seq<Action>), m: Machine, thin: seq<Byte>)
    requires Ok(m)
  {
    r.0 == Run(m, thin).0 && Alike(r.1, Run(m, thin).1)
  }

  lemma ControlIsLoud(p: seq<Byte>, bs: seq<Byte>)
    requires p != [] && IsPartial(p) && bs != [] && Scan(p + bs).Char?
    ensures Loud(Shown(Scan(p + bs).cp)) && Loud(Print(Scan(p + bs).cp))
  {
    assert (p + bs)[0] >= 0x80;
  }

  /** The bytes a harmful pick-up reads: all, or all but the byte of ASCII it skips. */
  function Kept(p: seq<Byte>, bs: seq<Byte>): seq<Byte>
    requires p != []
  {
    if AsciiThenHigh(p[0], bs) then [bs[0]] + bs[2..] else bs
  }

  /** A machine that holds the first byte of a character of two. */
  predicate MidPair(m: Machine, bs: seq<Byte>) {
    |m.partial| == 1 && Width(m.partial[0]) == 2 && bs != [] && IsTail(bs[0])
  }

  function PairCp(m: Machine, b: Byte): nat
    requires MidPair(m, [b])
  {
    TwoByteFront(m.partial, [b]);
    Scan(m.partial + [b]).cp
  }

  lemma PairRuns(m: Machine, bs: seq<Byte>)
    requires Grounded(m) && Ok(m) && MidPair(m, bs)
    ensures Ok(Holding(m, []))
    ensures Run(m, bs) == Then([Shown(PairCp(m, bs[0]))], Run(Holding(m, []), bs[1..]))
  {
    hide EndsOk, StringStep, Scan, Run, Step;
    GroundedIs(m);
    TwoByteFront(m.partial, bs);
    SameFront(m.partial, bs);
    PrintsUnlessC1(m.partial, bs);
    ControlIsLoud(m.partial, bs);
    CharacterRuns(m, m.partial, bs);
  }

  lemma PairSteps(m: Machine, bs: seq<Byte>)
    requires Grounded(m) && Ok(m) && MidPair(m, bs)
    ensures Step(m, bs[0]).0 == Holding(m, [])
  {
    hide EndsOk, StringStep, Scan, Step, Run;
    RunOne(m, bs[0]);
    PairRuns(m, [bs[0]]);
    NothingRead(Holding(m, []));
    assert [bs[0]][1..] == [];
  }

  lemma PairAdvances(m: Machine, bs: seq<Byte>)
    requires Grounded(m) && Ok(m) && MidPair(m, bs)
    ensures Ok(Holding(m, []))
    ensures Advance(m, bs) == Then([Print(PairCp(m, bs[0]))], Run(Holding(m, []), Kept(m.partial, bs)[1..]))
  {
    hide EndsOk, StringStep, Scan, Run, Step, Resume;
    GroundedIs(m);
    TwoByteFront(m.partial, bs);
    SameFront(m.partial, bs);
    ResumeTaken(m, bs);
    assert Kept(m.partial, bs)[1..] == bs[Resume(m, bs).taken..];
  }

  lemma PairIsLoud(m: Machine, b: Byte)
    requires Grounded(m) && MidPair(m, [b])
    ensures Loud(Shown(PairCp(m, b))) && Loud(Print(PairCp(m, b)))
    ensures IsControl(PairCp(m, b)) <==> m.partial[0] == 0xC2 && b <= 0x9F
  {
    hide Scan, EndsOk, Shown, Loud;
    GroundedIs(m);
    TwoByteFront(m.partial, [b]);
    PrintsUnlessC1(m.partial, [b]);
    ControlIsLoud(m.partial, [b]);
  }

  lemma HarmIsPair(p: seq<Byte>, bs: seq<Byte>)
    requires p != [] && !Harmless(p, bs)
    ensures |p| == 1 && Width(p[0]) == 2 && bs != [] && IsTail(bs[0])
    ensures (p[0] == 0xC2 && bs[0] <= 0x9F) || AsciiThenHigh(p[0], bs)
  {
  }

  /** A character of two bytes is the same whatever follows. */
  lemma SameFront(p: seq<Byte>, bs: seq<Byte>)
    requires |p| == 1 && Width(p[0]) == 2 && bs != [] && IsTail(bs[0])
    ensures Scan(p + bs) == Scan(p + Kept(p, bs)) == Scan(p + [bs[0]])
  {
  }

  lemma KeptThins(m: Machine, bs: seq<Byte>)
    requires Grounded(m) && Ok(m) && m.partial != [] && bs != [] && Step(m, bs[0]).0 == Holding(m, [])
    ensures Thins(m, Kept(m.partial, bs), bs)
  {
    hide Step, Ok;
    var thin, next := Kept(m.partial, bs), Step(m, bs[0]).0;
    ThinsItself(next, bs[1..]);
    if AsciiThenHigh(m.partial[0], bs) {
      ThinsItself(next, bs[2..]);
      assert bs[1..][1..] == bs[2..] == thin[1..];
      assert Skips(next, bs[1..]);
    }
  }

  lemma HarmReads(m: Machine, bs: seq<Byte>)
    requires Grounded(m) && Ok(m) && MidPair(m, bs)
    ensures ReadsAs(Advance(m, bs), m, Kept(m.partial, bs))
  {
    hide Run, Step, Ok, Loud, PairCp, Shown, Advance;
    PairRuns(m, Kept(m.partial, bs));
    PairAdvances(m, bs);
    PairIsLoud(m, bs[0]);
  }

  lemma ChunkThins(m: Machine, bs: seq<Byte>) returns (thin: seq<Byte>)
    requires Ok(m)
    ensures Thins(m, thin, bs) && ReadsAs(Advance(m, bs), m, thin)
  {
    hide Run, Step, Ok, Harmless, Kept;
    thin := bs;
    if m.partial != [] && !Harmless(m.partial, bs) {
      HeldIsGround(m);
      HarmIsPair(m.partial, bs);
      HarmReads(m, bs);
      PairSteps(m, bs);
      KeptThins(m, bs);
      thin := Kept(m.partial, bs);
    } else {
      ThinsItself(m, bs);
      if m.partial != [] {
        HeldIsGround(m);
        HarmlessLeadsOn(m, bs);
      }
    }
  }

  /** However it is cut, a stream is read as itself or thinned. */
  lemma {:induction false} ChunksThin(m: Machine, chunks: seq<seq<Byte>>) returns (thin: seq<Byte>)
    requires Ok(m)
    ensures Thins(m, thin, Joined(chunks)) && ReadsAs(AdvanceAll(m, chunks), m, thin)
    decreases |chunks|
  {
    hide Run, Step, Ok, Advance, Thins, Alike;
    if chunks == [] {
      thin := [];
      NothingRead(m);
    } else {
      var front := ChunkThins(m, chunks[0]);
      var n := Advance(m, chunks[0]).0;
      var rest := ChunksThin(n, chunks[1..]);
      thin := front + rest;
      ThinsConcat(m, front, chunks[0], rest, Joined(chunks[1..]));
      RunConcat(m, front, rest);
      AlikeConcat(Advance(m, chunks[0]).1, Run(m, front).1, AdvanceAll(n, chunks[1..]).1, Run(n, rest).1);
    }
  }

  lemma NothingRead(m: Machine)
    requires Ok(m)
    ensures Thins(m, [], []) && Run(m, []) == (m, []) && Alike([], [])
  {
  }

  // ----- harmful cuts do not cancel out -----

  lemma ApartIsNot(r: (Machine, seq<Action>), g: Machine, thin: seq<Byte>, q: (Machine, seq<Action>))
    requires Ok(g) && ReadsAs(r, g, thin) && Apart(Run(g, thin).1, Run(g, thin).0, q)
    requires r.1 != [] ==> Loud(r.1[0])
    ensures r != q
  {
    hide Run, Ok;
    AlikeLoudness(r.1, Run(g, thin).1);
  }

  lemma ThinBegins(g: Machine, thin: seq<Byte>, bs: seq<Byte>)
    requires Ok(g) && Thins(g, thin, bs) && bs != [] && bs[0] >= 0x80
    ensures thin != [] && thin[0] == bs[0]
  {
    hide Step, Ok;
  }

  /** A byte of ASCII skipped before one above it shows, however the rest of the stream is cut. */
  lemma LostByteShows(m: Machine, a: Byte, chunks: seq<seq<Byte>>)
    requires Grounded(m) && Ok(m) && m.partial == [] && a <= 0x7F
    requires Joined(chunks) != [] && Joined(chunks)[0] >= 0x80
    ensures AdvanceAll(m, chunks) != Run(m, [a] + Joined(chunks))
  {
    hide Run, Step, Ok, Loud, Reset;
    var bs := Joined(chunks);
    var thin := ChunksThin(m, chunks);
    ThinBegins(m, thin, bs);
    FirstIsLoud(m, thin);
    var r, all := AdvanceAll(m, chunks), [a] + bs;
    assert all[0] == a && all[1..] == bs;
    AsciiStep(m, a);
    RunStep(m, all);
    if a == 0x1B {
      EscapeIsReset(m);
      SilentStep(m, all);
      LostEscapeShows([], m, ToEscape(m), thin, bs);
      assert [] + Run(m, thin).1 == Run(m, thin).1;
      ApartIsNot(r, m, thin, Run(m, all));
    } else {
      QuietStep(m, a);
      assert Run(m, all).1[0] == Step(m, a).1[0];
    }
  }

  lemma QuietStep(m: Machine, a: Byte)
    requires Grounded(m) && m.partial == [] && a <= 0x7F && a != 0x1B
    ensures Step(m, a).1 != [] && !Loud(Step(m, a).1[0])
  {
    AsciiStep(m, a);
  }

  lemma HarmfulChunkShows(m: Machine, chunks: seq<seq<Byte>>)
    requires Grounded(m) && Ok(m) && m.partial != [] && chunks != [] && !Harmless(m.partial, chunks[0])
    ensures AdvanceAll(m, chunks) != Run(m, Joined(chunks))
  {
    hide Run, Step, Ok, Loud, Shown, Harmless, PairCp, Advance;
    var p, bs, below := m.partial, chunks[0], Joined(chunks[1..]);
    HarmIsPair(p, bs);
    var h, cp := Holding(m, []), PairCp(m, bs[0]);
    var later := [Kept(p, bs)[1..]] + chunks[1..];
    PairInOnePiece(m, bs, below);
    PairInChunks(m, chunks);
    PairIsLoud(m, bs[0]);
    ShownPrints(cp);
    if IsControl(cp) {
      FirstDiffers(Print(cp), Shown(cp), AdvanceAll(h, later), Run(h, bs[1..] + below));
    } else {
      SkippedByte(p, bs, below);
      LostByteShows(h, bs[1], later);
      if AdvanceAll(m, chunks) == Run(m, bs + below) {
        ThenInjective([Print(cp)], AdvanceAll(h, later), Run(h, bs[1..] + below));
      }
    }
  }

  lemma PairInOnePiece(m: Machine, bs: seq<Byte>, below: seq<Byte>)
    requires Grounded(m) && Ok(m) && MidPair(m, bs)
    ensures Ok(Holding(m, []))
    ensures Run(m, bs + below) == Then([Shown(PairCp(m, bs[0]))], Run(Holding(m, []), bs[1..] + below))
  {
    hide Run, Ok, PairCp, Shown;
    PairRuns(m, bs + below);
    assert (bs + below)[1..] == bs[1..] + below;
  }

  lemma PairInChunks(m: Machine, chunks: seq<seq<Byte>>)
    requires Grounded(m) && Ok(m) && chunks != [] && MidPair(m, chunks[0])
    ensures Ok(Holding(m, []))
    ensures
      var left := Kept(m.partial, chunks[0])[1..];
      AdvanceAll(m, chunks) == Then([Print(PairCp(m, chunks[0][0]))], AdvanceAll(Holding(m, []), [left] + chunks[1..]))
  {
    hide Run, Ok, PairCp;
    var left, h := Kept(m.partial, chunks[0])[1..], Holding(m, []);
    var later := [left] + chunks[1..];
    PairAdvances(m, chunks[0]);
    assert later[0] == left && later[1..] == chunks[1..];
    assert Advance(h, left) == Run(h, left);
    ThenThen([Print(PairCp(m, chunks[0][0]))], Run(h, left).1, AdvanceAll(Run(h, left).0, chunks[1..]));
  }

  lemma ShownPrints(cp: nat)
    ensures Shown(cp) == Print(cp) <==> !IsControl(cp)
  {
  }

  lemma SkippedByte(p: seq<Byte>, bs: seq<Byte>, below: seq<Byte>)
    requires p != [] && AsciiThenHigh(p[0], bs)
    ensures bs[1..] + below == [bs[1]] + (Kept(p, bs)[1..] + below)
    ensures Kept(p, bs)[1..] != [] && (Kept(p, bs)[1..] + below)[0] >= 0x80
  {
    assert bs[1..] == [bs[1]] + bs[2..];
  }

  /** A stream read in any number of chunks comes to what it comes to read in one piece exactly when every
      chunk picks up harmlessly what was left before it: harmful cuts never cancel out. */
  lemma {:induction false} ChunksAgreeIff(m: Machine, chunks: seq<seq<Byte>>)
    requires Ok(m)
    ensures AdvanceAll(m, chunks) == Run(m, Joined(chunks)) <==> CutHarmlessly(m, chunks)
    decreases |chunks|
  {
    hide Run, Step, Ok, Harmless;
    if chunks != [] {
      RunConcat(m, chunks[0], Joined(chunks[1..]));
      if m.partial != [] {
        HeldIsGround(m);
      }
      if Harmless(m.partial, chunks[0]) {
        if m.partial != [] {
          HarmlessLeadsOn(m, chunks[0]);
        }
        var n := Run(m, chunks[0]).0;
        ChunksAgreeIff(n, chunks[1..]);
        if AdvanceAll(m, chunks) == Run(m, Joined(chunks)) {
          ThenInjective(Run(m, chunks[0]).1, AdvanceAll(n, chunks[1..]), Run(n, Joined(chunks[1..])));
        }
      } else {
        NothingHeld(chunks[0]);
        HarmfulChunkShows(m, chunks);
      }
    } else {
      NothingRead(m);
    }
  }

  /** In particular picking a cut-off character up leads on to what reading byte by byte leads on to, however
      much is read, exactly when the cut is harmless. */
  lemma PickUpAgreesIff(m: Machine, bs: seq<Byte>)
    requires Grounded(m) && Ok(m) && m.partial != []
    ensures Resume(m, bs).taken <= |bs| && Ok(Resume(m, bs).machine)
    ensures LeadsOn(m, bs, Resume(m, bs)) <==> Harmless(m.partial, bs)
  {
    hide Run, Harmless, Resume, Ok;
    ResumeOk(m, bs);
    var (n, did) := Advance(m, bs);
    var none: seq<seq<Byte>> := [];
    assert [bs][1..] == none && Joined(none) == [] && bs + [] == bs && did + [] == did;
    assert AdvanceAll(n, none) == (n, []);
    assert AdvanceAll(m, [bs]) == Advance(m, bs) && Joined([bs]) == bs;
    ChunksAgreeIff(m, [bs]);
  }

  /** A copyright sign cut in two with `x` and a stray byte after it loses the `x`; and U+0080 cut in
      two is printed where it would have been executed. */
  lemma HarmfulCuts()
    ensures AdvanceAll(START, [[0xC3], [0xA9, 0x78, 0x80]]) != Run(START, [0xC3, 0xA9, 0x78, 0x80])
    ensures AdvanceAll(START, [[0xC2], [0x80]]) != Run(START, [0xC2, 0x80])
  {
    hide Run, AdvanceAll, Scan;
    CutInTwo(0xC3, [0xA9, 0x78, 0x80]);
    CutInTwo(0xC2, [0x80]);
    assert [0xC3] + [0xA9, 0x78, 0x80] == [0xC3, 0xA9, 0x78, 0x80] && [0xC2] + [0x80] == [0xC2, 0x80];
  }

  lemma CutInTwo(lead: Byte, bs: seq<Byte>)
    requires Width(lead) == 2 && !Harmless([lead], bs)
    ensures AdvanceAll(START, [[lead], bs]) != Run(START, [lead] + bs)
  {
    hide Run, AdvanceAll, Scan, Harmless;
    HeldAtStart(lead);
    var chunks := [[lead], bs];
    var none: seq<seq<Byte>> := [];
    assert chunks[1..] == [bs] && [bs][1..] == none && Joined(none) == [] && bs + [] == bs;
    assert Joined([bs]) == bs && Joined(chunks) == [lead] + bs;
    ChunksAgreeIff(START, chunks);
  }

  lemma HeldAtStart(lead: Byte)
    requires Width(lead) == 2
    ensures Ok(START) && Run(START, [lead]).0.partial == [lead]
  {
    assert START.partial + [lead] == [lead];
    RunOne(START, lead);
  }
}
