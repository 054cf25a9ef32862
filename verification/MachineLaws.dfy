/** How the byte-at-a-time parser reads a whole character, a malformed one, and the runs the bulk
    paths take at once; and when picking up a character cut between two reads agrees with it. */
module MachineLaws {
  import opened Utf8
  import opened ByteMachine

  ghost predicate Grounded(m: Machine) {
    Ok(m) && m.state == Ground
  }

  /** The machine in ground with `p` held back. */
  function Holding(m: Machine, p: seq<Byte>): Machine {
    m.(partial := p)
  }

  lemma RunStep(m: Machine, bs: seq<Byte>)
    requires Ok(m) && bs != []
    ensures Run(m, bs) == Then(Step(m, bs[0]).1, Run(Step(m, bs[0]).0, bs[1..]))
  {
  }

  lemma ThenNothing(r: (Machine, seq<Action>))
    ensures Then([], r) == r
  {
    assert [] + r.1 == r.1;
  }

  lemma ThenThen(a: seq<Action>, b: seq<Action>, r: (Machine, seq<Action>))
    ensures Then(a, Then(b, r)) == Then(a + b, r)
  {
    assert a + (b + r.1) == a + b + r.1;
  }

  lemma GroundedIs(m: Machine)
    requires Grounded(m)
    ensures IsPartial(m.partial) && Grounded(Holding(m, []))
  {
  }

  // ----- one character -----

  /** Reading on from a character cut off leaves more of it held back, and nothing done. */
  lemma HoldOne(m: Machine, p: seq<Byte>, b: Byte)
    requires Grounded(m) && m.partial == p && Scan(p + [b]).Short? && (p == [] ==> b != 0x1B)
    ensures Step(m, b) == (Holding(m, p + [b]), [])
  {
    if p == [] {
      assert [] + [b] == [b];
    }
  }

  /** The byte that completes a character shows it. */
  lemma CompleteOne(m: Machine, p: seq<Byte>, b: Byte)
    requires Grounded(m) && m.partial == p && Scan(p + [b]).Char? && Scan(p + [b]).cp != 0x1B
    ensures Step(m, b) == (Holding(m, []), [Shown(Scan(p + [b]).cp)])
  {
    hide StringStep, EndsOk;
    if p == [] {
      assert [] + [b] == [b];
    }
  }

  /** What the front says of the byte it starts with. */
  lemma FrontWidth(w: seq<Byte>)
    requires w != []
    ensures Scan(w).Char? ==> Width(w[0]) == Scan(w).len
    ensures Scan(w).Short? ==> Width(w[0]) >= 2
    ensures Scan(w).Bad? ==> Width(w[0]) >= 2 || (Width(w[0]) == 0 && Scan(w).len == 1)
    ensures Width(w[0]) >= 2 ==> w[0] >= 0xC2
  {
  }

  /** The first `n` bytes of `w` are a character cut off, and so is any shorter part of them. */
  ghost predicate CutOffTo(w: seq<Byte>, n: nat) {
    && n <= |w|
    && (forall i :: 1 <= i <= n ==> Scan(w[..i]).Short?)
    && (n > 0 ==> w[0] != 0x1B)
  }

  /** Reading on within a character cut off holds the bytes back, and nothing else. */
  lemma {:induction false} HeldRuns(m: Machine, w: seq<Byte>, k: nat, n: nat)
    requires Grounded(m) && k <= n && CutOffTo(w, n) && m.partial == w[..k]
    ensures Ok(Holding(m, w[..n])) && Run(m, w[k..]) == Run(Holding(m, w[..n]), w[n..])
    decreases n - k
  {
    hide EndsOk, StringStep, GroundStep, Step, Scan;
    if k < n {
      var rest := w[k..];
      assert rest[0] == w[k] && rest[1..] == w[k + 1..];
      assert w[..k] + [w[k]] == w[..k + 1];
      HoldOne(m, w[..k], w[k]);
      RunStep(m, rest);
      ThenNothing(Run(Holding(m, w[..k + 1]), w[k + 1..]));
      HeldRuns(Holding(m, w[..k + 1]), w, k + 1, n);
    }
  }

  lemma CutOffShort(w: seq<Byte>, n: nat)
    requires w != [] && n <= |w| && (Width(w[0]) >= 2 || n == 0)
    requires Scan(w).Char? ==> n < Scan(w).len
    requires Scan(w).Bad? ==> n <= Scan(w).len
    ensures CutOffTo(w, n)
  {
    forall i | 1 <= i <= n ensures Scan(w[..i]).Short? {
      if i == |w| {
        assert w[..i] == w;
      } else {
        ScanBefore(w, i);
      }
    }
  }

  lemma {:induction false} CharacterRuns(m: Machine, p: seq<Byte>, bs: seq<Byte>)
    requires Grounded(m) && m.partial == p && bs != []
    requires Scan(p + bs).Char? && Scan(p + bs).cp != 0x1B
    ensures |p| < Scan(p + bs).len <= |p + bs|
    ensures Run(m, bs)
         == Then([Shown(Scan(p + bs).cp)], Run(Holding(m, []), bs[Scan(p + bs).len - |p|..]))
  {
    hide Ok, StringStep, GroundStep, Step, Scan;
    GroundedIs(m);
    var w := p + bs;
    var last := Scan(w).len - 1;
    FrontWidth(w);
    if p != [] {
      FrontWidth(p);
      ScanPastPartial(p, bs);
    }
    CutOffShort(w, last);
    assert w[..|p|] == p && w[|p|..] == bs;
    HeldRuns(m, w, |p|, last);
    CharacterEnds(Holding(m, w[..last]), w, last);
    assert w[last + 1..] == bs[last + 1 - |p|..];
  }

  /** The byte a character ends on. */
  lemma CharacterEnds(m: Machine, w: seq<Byte>, last: nat)
    requires Grounded(m) && last < |w| && m.partial == w[..last]
    requires Scan(w).Char? && Scan(w).cp != 0x1B && Scan(w).len == last + 1
    ensures Ok(Holding(m, [])) && Run(m, w[last..]) == Then([Shown(Scan(w).cp)], Run(Holding(m, []), w[last + 1..]))
  {
    hide EndsOk, StringStep, GroundStep, Step, Scan;
    ScanPrefix(w, last + 1);
    assert w[..last] + [w[last]] == w[..last + 1];
    CompleteOne(m, w[..last], w[last]);
    RunStep(m, w[last..]);
    assert w[last..][0] == w[last] && w[last..][1..] == w[last + 1..];
  }

  /** The bytes of a character are a character by themselves. */
  lemma ScanPrefix(bs: seq<Byte>, n: nat)
    requires bs != [] && Scan(bs).Char? && n == Scan(bs).len
    ensures Scan(bs[..n]) == Scan(bs)
  {
  }

  lemma BadStep(m: Machine, p: seq<Byte>, b: Byte)
    requires Grounded(m) && m.partial == p && p != [] && Scan(p + [b]).Bad?
    ensures Step(m, b) == Then([Print(REPLACEMENT)], Step(Holding(m, []), b))
  {
  }

  lemma BadByteRuns(m: Machine, bs: seq<Byte>)
    requires Grounded(m) && m.partial == [] && bs != [] && Width(bs[0]) == 0
    ensures Run(m, bs) == Then([Malformed(bs[0], 1)], Run(m, bs[1..]))
  {
    hide EndsOk, StringStep;
    assert Step(m, bs[0]) == (m, [Malformed(bs[0], 1)]);
    RunStep(m, bs);
  }

  /** The byte that spoils what is held back is read again by itself. */
  lemma SpoiledHere(m: Machine, p: seq<Byte>, bs: seq<Byte>)
    requires Grounded(m) && m.partial == p && p != [] && bs != [] && Scan(p + [bs[0]]).Bad?
    ensures Ok(Holding(m, [])) && Run(m, bs) == Then([Print(REPLACEMENT)], Run(Holding(m, []), bs))
  {
    hide EndsOk, StringStep, GroundStep, Step, Scan;
    RunStep(m, bs);
    BadStep(m, p, bs[0]);
    RunStep(Holding(m, []), bs);
    ThenThen([Print(REPLACEMENT)], Step(Holding(m, []), bs[0]).1, Run(Step(m, bs[0]).0, bs[1..]));
  }

  /** A malformed prefix of a character that did start: held back to its end, and spoiled there. */
  lemma StartedButMalformed(m: Machine, p: seq<Byte>, w: seq<Byte>)
    requires Grounded(m) && m.partial == p && IsPartial(p) && |p| < |w| && w[..|p|] == p
    requires Scan(w).Bad? && Width(w[0]) >= 2
    ensures |p| <= Scan(w).len
    ensures Run(m, w[|p|..]) == Then([Print(REPLACEMENT)], Run(Holding(m, []), w[Scan(w).len..]))
  {
    hide Ok, StringStep, GroundStep, Step, Scan, Run, Then, Width;
    GroundedIs(m);
    var len := Scan(w).len;
    assert w == p + w[|p|..];
    if p != [] {
      ScanPastPartial(p, w[|p|..]);
    }
    CutOffShort(w, len);
    HeldRuns(m, w, |p|, len);
    assert w == w[..len] + w[len..] && w[..len] != [];
    assert w[..|w|] == w;
    assert len < |w|;
    BadHere(w[..len], w[len..]);
    SpoiledHere(Holding(m, w[..len]), w[..len], w[len..]);
    assert Holding(Holding(m, w[..len]), []) == Holding(m, []);
  }

  /** A malformed prefix is answered once, and reading goes on after it. */
  lemma MalformedRuns(m: Machine, p: seq<Byte>, bs: seq<Byte>)
    requires Grounded(m) && m.partial == p && bs != []
    requires Scan(p + bs).Bad?
    ensures |p| <= Scan(p + bs).len <= |p + bs|
    ensures Run(m, bs)
         == Then([Malformed((p + bs)[0], Scan(p + bs).len)], Run(Holding(m, []), bs[Scan(p + bs).len - |p|..]))
  {
    hide Ok, StringStep, GroundStep, Step, Scan, Run, Then, Width;
    GroundedIs(m);
    var w := p + bs;
    assert w[..|p|] == p && w[|p|..] == bs;
    FrontWidth(w);
    if p != [] {
      FrontWidth(p);
    }
    if Width(w[0]) >= 2 {
      StartedButMalformed(m, p, w);
      assert w[Scan(w).len..] == bs[Scan(w).len - |p|..];
    } else {
      assert p == [] && w == bs && Holding(m, []) == m;
      BadByteRuns(m, bs);
    }
  }

  /** Where the prefix ends, the very next byte is what spoils it. */
  lemma BadHere(p: seq<Byte>, bs: seq<Byte>)
    requires p != [] && IsPartial(p) && bs != [] && Scan(p + bs) == Bad(|p|)
    ensures Scan(p + [bs[0]]) == Bad(|p|)
  {
  }

  lemma ShortRuns(m: Machine, p: seq<Byte>, bs: seq<Byte>)
    requires Grounded(m) && m.partial == p
    requires p + bs != [] ==> Scan(p + bs).Short?
    ensures Run(m, bs) == (Holding(m, p + bs), [])
  {
    hide Ok, StringStep, GroundStep, Step, Scan;
    var w := p + bs;
    if w != [] {
      FrontWidth(w);
      CutOffShort(w, |w|);
    }
    assert w[..|p|] == p && w[|p|..] == bs && w[..|w|] == w;
    HeldRuns(m, w, |p|, |w|);
  }

  /** A character cut off by an escape is answered before the escape is read. */
  lemma ShortThenEscape(m: Machine, p: seq<Byte>, bs: seq<Byte>)
    requires Grounded(m) && m.partial == p && IsPartial(p)
    requires bs != [] && bs[0] == 0x1B
    ensures Run(m, bs)
         == Then(if p == [] then [] else [Print(REPLACEMENT)], Run(ToEscape(Holding(m, [])), bs[1..]))
  {
    RunStep(m, bs);
    if p != [] {
      assert !Scan(p + [bs[0]]).Short? && !Scan(p + [bs[0]]).Char?;
      assert [Print(REPLACEMENT)] + [] == [Print(REPLACEMENT)];
    }
  }

  // ----- a stretch of ground text -----

  function ShownAll(cps: seq<nat>): (r: seq<Action>)
    ensures |r| == |cps|
  {
    seq(|cps|, i requires 0 <= i < |cps| => Shown(cps[i]))
  }

  ghost predicate NoEscape(bs: seq<Byte>) {
    forall i :: 0 <= i < |bs| ==> bs[i] != 0x1B
  }

  /** The characters decoded in one piece are the characters read byte by byte. */
  lemma {:induction false} DecodedRuns(m: Machine, text: seq<Byte>, rest: seq<Byte>)
    requires Grounded(m) && m.partial == [] && NoEscape(text)
    ensures Run(m, text + rest)
         == Then(ShownAll(Decode(text).chars), Run(m, (text + rest)[Decode(text).upTo..]))
    decreases |text|
  {
    var d := Decode(text);
    if text == [] || !Scan(text).Char? {
      assert (text + rest)[0..] == text + rest;
      assert ShownAll([]) == [];
      ThenNothing(Run(m, text + rest));
    } else {
      var after := text[Scan(text).len..];
      FirstRuns(m, text, rest);
      DecodedRuns(m, after, rest);
      DecodeNext(text, rest);
      ThenThen([Shown(Scan(text).cp)], ShownAll(Decode(after).chars), Run(m, (text + rest)[d.upTo..]));
    }
  }

  lemma FirstRuns(m: Machine, text: seq<Byte>, rest: seq<Byte>)
    requires Grounded(m) && m.partial == [] && NoEscape(text)
    requires text != [] && Scan(text).Char?
    ensures Run(m, text + rest) == Then([Shown(Scan(text).cp)], Run(m, text[Scan(text).len..] + rest))
  {
    hide StringStep, GroundStep, Step, Scan, Ok;
    var bs := text + rest;
    ScanSettled(text, rest);
    FirstIsNotEscape(text);
    assert [] + bs == bs;
    FreshCharacterRuns(m, bs);
    assert bs[Scan(text).len..] == text[Scan(text).len..] + rest;
  }

  lemma FreshCharacterRuns(m: Machine, bs: seq<Byte>)
    requires Grounded(m) && m.partial == [] && bs != []
    requires Scan(bs).Char? && Scan(bs).cp != 0x1B
    ensures Run(m, bs) == Then([Shown(Scan(bs).cp)], Run(m, bs[Scan(bs).len..]))
  {
    hide StringStep, GroundStep, Step, Scan, Ok;
    assert [] + bs == bs;
    CharacterRuns(m, [], bs);
    assert Holding(m, []) == m;
  }

  lemma SliceFurther(text: seq<Byte>, len: nat, more: nat, rest: seq<Byte>)
    requires len + more <= |text|
    ensures (text[len..] + rest)[more..] == (text + rest)[len + more..]
  {
  }

  lemma DecodeNext(text: seq<Byte>, rest: seq<Byte>)
    requires text != [] && Scan(text).Char?
    ensures var after := text[Scan(text).len..];
            && (after + rest)[Decode(after).upTo..] == (text + rest)[Decode(text).upTo..]
            && [Shown(Scan(text).cp)] + ShownAll(Decode(after).chars) == ShownAll(Decode(text).chars)
  {
    hide Scan, Shown;
    var front := Scan(text);
    var inner := Decode(text[front.len..]);
    assert Decode(text) == Decoded([front.cp] + inner.chars, front.len + inner.upTo, inner.stop);
    SliceFurther(text, front.len, inner.upTo, rest);
    ShownCons(front.cp, inner.chars);
  }

  lemma ShownCons(cp: nat, cps: seq<nat>)
    ensures [Shown(cp)] + ShownAll(cps) == ShownAll([cp] + cps)
  {
  }

  lemma FirstIsNotEscape(bs: seq<Byte>)
    requires bs != [] && Scan(bs).Char? && NoEscape(bs)
    ensures Scan(bs).cp != 0x1B
  {
  }

  // ----- strings in bulk -----

  function Puts(bs: seq<Byte>): (r: seq<Action>)
    ensures |r| == |bs|
  {
    seq(|bs|, i requires 0 <= i < |bs| => Put(bs[i]))
  }

  lemma {:induction false} PayloadRuns(m: Machine, payload: seq<Byte>, rest: seq<Byte>)
    requires Ok(m) && m.state == DcsPassthrough
    requires forall i :: 0 <= i < |payload| ==> IsPayload(payload[i])
    ensures Run(m, payload + rest) == Then(Puts(payload), Run(m, rest))
    decreases |payload|
  {
    hide Ok, StringStep, GroundStep, Step, Run;
    if payload == [] {
      assert payload + rest == rest;
      ThenNothing(Run(m, rest));
    } else {
      PayloadStep(m, payload, rest);
      PayloadRuns(m, payload[1..], rest);
      ThenThen([Put(payload[0])], Puts(payload[1..]), Run(m, rest));
      assert [Put(payload[0])] + Puts(payload[1..]) == Puts(payload);
    }
  }

  lemma PayloadByte(m: Machine, b: Byte)
    requires Ok(m) && m.state == DcsPassthrough && IsPayload(b)
    ensures Step(m, b) == (m, [Put(b)])
  {
    assert Transition(m.state, b) == (DoPut, DcsPassthrough);
  }

  lemma PayloadStep(m: Machine, payload: seq<Byte>, rest: seq<Byte>)
    requires Ok(m) && m.state == DcsPassthrough && payload != [] && IsPayload(payload[0])
    ensures Run(m, payload + rest) == Then([Put(payload[0])], Run(m, payload[1..] + rest))
  {
    hide Ok, StringStep, GroundStep, Step;
    PayloadByte(m, payload[0]);
    RunStep(m, payload + rest);
    assert (payload + rest)[1..] == payload[1..] + rest;
  }

  predicate EndsApc(b: Byte) {
    IsCancel(b) || b == 0x1B || b == 0x9C
  }

  /** As much of `more` as the collected payload has room for, and whether some was dropped. */
  function Collected(m: Machine, more: seq<Byte>): Machine
    requires |m.apc| <= MAX_APC_RAW
  {
    var room := MAX_APC_RAW - |m.apc|;
    m.(apc := m.apc + more[..if |more| <= room then |more| else room],
       apcOverflow := m.apcOverflow || |more| > room)
  }

  lemma {:induction false} ApcRuns(m: Machine, payload: seq<Byte>, rest: seq<Byte>)
    requires Ok(m) && m.state == ApcString
    requires forall i :: 0 <= i < |payload| ==> !EndsApc(payload[i])
    ensures Ok(Collected(m, payload))
    ensures Run(m, payload + rest) == Run(Collected(m, payload), rest)
    decreases |payload|
  {
    hide EndsOk;
    if payload == [] {
      assert payload + rest == rest;
      assert Collected(m, payload) == m;
    } else {
      ApcStep(m, payload, rest);
      var next := ApcPut(m, payload[0]);
      ApcRuns(next, payload[1..], rest);
      CollectedOne(m, payload);
    }
  }

  lemma ApcByte(m: Machine, b: Byte)
    requires Ok(m) && m.state == ApcString && !EndsApc(b)
    ensures Step(m, b) == (ApcPut(m, b), [])
  {
    assert Transition(m.state, b) == (DoApcPut, ApcString);
    assert ApcPut(m, b).(state := ApcString) == ApcPut(m, b);
  }

  lemma ApcStep(m: Machine, payload: seq<Byte>, rest: seq<Byte>)
    requires Ok(m) && m.state == ApcString && payload != [] && !EndsApc(payload[0])
    ensures Ok(ApcPut(m, payload[0]))
    ensures Run(m, payload + rest) == Run(ApcPut(m, payload[0]), payload[1..] + rest)
  {
    hide Ok, StringStep, GroundStep, Step, Transition, ApcPut;
    var bs := payload + rest;
    var next := ApcPut(m, payload[0]);
    ApcByte(m, payload[0]);
    assert Ok(Step(m, payload[0]).0);
    RunStep(m, bs);
    assert bs[1..] == payload[1..] + rest;
    ThenNothing(Run(next, bs[1..]));
  }

  lemma CollectedOne(m: Machine, more: seq<Byte>)
    requires |m.apc| <= MAX_APC_RAW && more != []
    ensures |ApcPut(m, more[0]).apc| <= MAX_APC_RAW
    ensures Collected(ApcPut(m, more[0]), more[1..]) == Collected(m, more)
  {
    var next := ApcPut(m, more[0]);
    assert Collected(next, more[1..]).apc == Collected(m, more).apc;
  }

  // ----- a character cut between two reads -----

  datatype Resumed = Resumed(machine: Machine, actions: seq<Action>, taken: nat)

  /** Picking a cut-off character up again: at most four bytes are looked at together, and only
      the first character among them is kept. */
  function Resume(m: Machine, bs: seq<Byte>): (r: Resumed)
    requires IsPartial(m.partial) && m.partial != []
    ensures r.taken <= |bs|
  {
    var held := |m.partial|;
    var copied := if |bs| <= 4 - held then |bs| else 4 - held;
    var buffer := m.partial + bs[..copied];
    var d := Decode(buffer);
    ResumeTakes(m.partial, bs[..copied]);
    if d.stop.Whole? then
      Resumed(Holding(m, []), [Print(d.chars[0])], Scan(buffer).len - held)
    else if d.upTo > 0 then
      Resumed(Holding(m, []), [Print(d.chars[0])], d.upTo - held)
    else if d.stop.BadAt? then
      Resumed(Holding(m, []), [Print(REPLACEMENT)], d.stop.len - held)
    else Resumed(Holding(m, buffer), [], copied)
  }

  lemma ResumeTakes(p: seq<Byte>, b: seq<Byte>)
    requires p != [] && IsPartial(p)
    ensures Decode(p + b).upTo > 0 ==> |p| < Scan(p + b).len <= Decode(p + b).upTo <= |p + b|
    ensures Decode(p + b).upTo == 0 && Decode(p + b).stop.BadAt? ==> |p| <= Decode(p + b).stop.len <= |p + b|
    ensures !Decode(p + b).stop.Whole? || Decode(p + b).upTo > 0
  {
    ScanPastPartial(p, b);
    assert (p + b)[0..] == p + b;
  }

  /** Exactly when picking a character up again loses nothing. Only a two-byte character can go
      wrong: one in the C1 range, which is printed rather than executed; and one with a byte of
      ASCII and then a byte above it straight after, which loses the ASCII byte. */
  predicate Harmless(p: seq<Byte>, bs: seq<Byte>) {
    p == [] || |p| >= 2 || Width(p[0]) != 2 || bs == [] || !IsTail(bs[0])
    || (!(p[0] == 0xC2 && bs[0] <= 0x9F) && !AsciiThenHigh(p[0], bs))
  }

  lemma ResumeOk(m: Machine, bs: seq<Byte>)
    requires Grounded(m) && m.partial != []
    ensures Ok(Resume(m, bs).machine) && Resume(m, bs).machine.state == Ground
  {
  }

  // ----- exactly when the pick-up agrees -----

  /** What the pick-up looks at settles the front as the whole of the bytes does. */
  lemma BufferFront(p: seq<Byte>, bs: seq<Byte>, copied: nat)
    requires p != [] && IsPartial(p)
    requires copied == if |bs| <= 4 - |p| then |bs| else 4 - |p|
    ensures Scan(p + bs[..copied]) == Scan(p + bs)
    ensures Scan(p + bs).Short? ==> copied == |bs|
  {
    if copied == |bs| {
      assert bs[..copied] == bs;
    } else {
      assert p + bs == p + bs[..copied] + bs[copied..];
      ScanSettled(p + bs[..copied], bs[copied..]);
    }
  }

  lemma DecodeUpToTwo(bs: seq<Byte>)
    requires |bs| <= 2
    ensures Decode(bs).stop.Whole? || Decode(bs).upTo == 0
         || (|bs| == 2 && bs[0] <= 0x7F && bs[1] >= 0x80 && Decode(bs).upTo == 1)
    ensures |bs| == 2 && bs[0] <= 0x7F && bs[1] >= 0x80 ==> !Decode(bs).stop.Whole? && Decode(bs).upTo == 1
  {
    if |bs| == 2 && bs[0] <= 0x7F {
      assert bs[1..] == [bs[1]];
      assert Decode(bs[1..]).upTo == if bs[1] <= 0x7F then 1 else 0;
    }
  }

  /** ASCII and then a byte above it, straight after a two-byte character. */
  predicate AsciiThenHigh(lead: Byte, bs: seq<Byte>) {
    Width(lead) == 2 && |bs| >= 3 && bs[1] <= 0x7F && bs[2] >= 0x80
  }

  /** What the pick-up decodes past the character it wanted: nothing it then counts, unless ASCII
      and a byte above it follow a two-byte character. */
  lemma BufferDecoded(p: seq<Byte>, bs: seq<Byte>, copied: nat)
    requires p != [] && IsPartial(p) && Scan(p + bs).Char?
    requires copied == if |bs| <= 4 - |p| then |bs| else 4 - |p|
    ensures var d := Decode(p + bs[..copied]); var front := Scan(p + bs);
            && d.upTo > 0 && d.chars[0] == front.cp && Scan(p + bs[..copied]) == front
            && (d.stop.Whole? ==> !AsciiThenHigh(p[0], bs))
            && (!d.stop.Whole? ==> d.upTo == front.len + if AsciiThenHigh(p[0], bs) then 1 else 0)
  {
    hide Scan;
    BufferFront(p, bs, copied);
    var buffer := p + bs[..copied];
    var after := buffer[Scan(buffer).len..];
    LeavesAtMostTwo(p, bs, copied);
    DecodeUpToTwo(after);
  }

  lemma LeavesAtMostTwo(p: seq<Byte>, bs: seq<Byte>, copied: nat)
    requires p != [] && IsPartial(p) && Scan(p + bs).Char?
    requires copied == if |bs| <= 4 - |p| then |bs| else 4 - |p|
    ensures Scan(p + bs[..copied]) == Scan(p + bs)
    ensures var after := (p + bs[..copied])[Scan(p + bs).len..];
            && |after| <= 2
            && (AsciiThenHigh(p[0], bs) <==> |after| == 2 && after[0] <= 0x7F && after[1] >= 0x80)
  {
    BufferFront(p, bs, copied);
  }

  lemma ResumeTaken(m: Machine, bs: seq<Byte>)
    requires Grounded(m) && m.partial != [] && Scan(m.partial + bs).Char?
    ensures
      var p := m.partial;
      var front := Scan(p + bs);
      var taken := front.len - |p| + if AsciiThenHigh(p[0], bs) then 1 else 0;
      Resume(m, bs) == Resumed(Holding(m, []), [Print(front.cp)], taken)
  {
    hide Ok, StringStep, GroundStep, Step, Scan, Decode, AsciiThenHigh;
    GroundedIs(m);
    var p := m.partial;
    BufferDecoded(p, bs, if |bs| <= 4 - |p| then |bs| else 4 - |p|);
  }

  lemma ResumeOther(m: Machine, bs: seq<Byte>)
    requires Grounded(m) && m.partial != [] && !Scan(m.partial + bs).Char?
    ensures var p := m.partial; var front := Scan(p + bs);
            Resume(m, bs) ==
              if front.Short? then Resumed(Holding(m, p + bs), [], |bs|)
              else Resumed(Holding(m, []), [Print(REPLACEMENT)], front.len - |p|)
  {
    hide Ok, StringStep, GroundStep, Step;
    GroundedIs(m);
    var p := m.partial;
    var copied := if |bs| <= 4 - |p| then |bs| else 4 - |p|;
    BufferFront(p, bs, copied);
    ResumeTakes(p, bs[..copied]);
    if copied == |bs| {
      assert bs[..copied] == bs;
    }
    var buffer := p + bs[..copied];
    assert buffer[0..] == buffer;
  }

  /** The pick-up leads on to what reading byte by byte leads on to. */
  ghost predicate LeadsOn(m: Machine, bs: seq<Byte>, r: Resumed)
    requires Ok(m) && Ok(r.machine) && r.taken <= |bs|
  {
    Run(m, bs) == Then(r.actions, Run(r.machine, bs[r.taken..]))
  }

  lemma ShortLeadsOn(m: Machine, bs: seq<Byte>)
    requires Grounded(m) && m.partial != [] && Scan(m.partial + bs).Short?
    ensures Ok(Holding(m, m.partial + bs)) && LeadsOn(m, bs, Resumed(Holding(m, m.partial + bs), [], |bs|))
  {
    ShortRuns(m, m.partial, bs);
    assert bs[|bs|..] == [];
    ThenNothing(Run(Holding(m, m.partial + bs), []));
  }

  lemma MalformedLeadsOn(m: Machine, bs: seq<Byte>)
    requires Grounded(m) && m.partial != [] && Scan(m.partial + bs).Bad?
    ensures bs != [] && 0 <= Scan(m.partial + bs).len - |m.partial| <= |bs|
    ensures LeadsOn(m, bs, Resumed(Holding(m, []), [Print(REPLACEMENT)], Scan(m.partial + bs).len - |m.partial|))
  {
    hide EndsOk, Step, StringStep, GroundStep;
    var p := m.partial;
    assert p + [] == p;
    MalformedRuns(m, p, bs);
    assert (p + bs)[0] == p[0];
  }

  lemma OtherLeadsOn(m: Machine, bs: seq<Byte>)
    requires Grounded(m) && m.partial != [] && !Scan(m.partial + bs).Char?
    ensures Resume(m, bs).taken <= |bs| && Ok(Resume(m, bs).machine) && LeadsOn(m, bs, Resume(m, bs))
  {
    ResumeOk(m, bs);
    ResumeOther(m, bs);
    if Scan(m.partial + bs).Short? {
      ShortLeadsOn(m, bs);
    } else {
      MalformedLeadsOn(m, bs);
    }
  }

  lemma CharLeadsOn(m: Machine, bs: seq<Byte>)
    requires Grounded(m) && m.partial != [] && Scan(m.partial + bs).Char?
    requires Harmless(m.partial, bs)
    ensures Resume(m, bs).taken <= |bs| && Ok(Resume(m, bs).machine) && LeadsOn(m, bs, Resume(m, bs))
  {
    hide Step, Ok, Run, AsciiThenHigh, Scan, Decode;
    var p := m.partial;
    GroundedIs(m);
    ResumeOk(m, bs);
    ResumeTaken(m, bs);
    CharNotEmpty(p, bs);
    CharacterRuns(m, p, bs);
    PrintsUnlessC1(p, bs);
  }

  /** More bytes are needed for a character cut off, and a harmless cut of two bytes takes it whole. */
  lemma CharNotEmpty(p: seq<Byte>, bs: seq<Byte>)
    requires p != [] && IsPartial(p) && Scan(p + bs).Char?
    ensures bs != [] && Scan(p + bs).cp >= 0x80
    ensures AsciiThenHigh(p[0], bs) ==> |p| == 1 && Width(p[0]) == 2 && IsTail(bs[0])
  {
    assert p + [] == p;
  }

  lemma PrintsUnlessC1(p: seq<Byte>, bs: seq<Byte>)
    requires p != [] && IsPartial(p) && bs != [] && Scan(p + bs).Char?
    ensures IsControl(Scan(p + bs).cp) <==> (|p| == 1 && p[0] == 0xC2 && bs[0] <= 0x9F)
    ensures |p| == 1 && Width(p[0]) == 2 ==> IsTail(bs[0]) && Scan(p + bs).len == 2
  {
  }

  /** With nothing to lose, the two readings agree however the stream goes on. */
  lemma HarmlessLeadsOn(m: Machine, bs: seq<Byte>)
    requires Grounded(m) && m.partial != [] && Harmless(m.partial, bs)
    ensures Resume(m, bs).taken <= |bs| && Ok(Resume(m, bs).machine) && LeadsOn(m, bs, Resume(m, bs))
  {
    if Scan(m.partial + bs).Char? {
      CharLeadsOn(m, bs);
    } else {
      OtherLeadsOn(m, bs);
    }
  }

  // ----- what a lost byte does -----

  ghost predicate SameParams(g: Machine, e: Machine) {
    g.intermediates == e.intermediates && g.ignoring == e.ignoring && g.params == e.params && g.param == e.param
  }

  ghost predicate SameOsc(g: Machine, e: Machine) {
    g.osc == e.osc && g.oscEnds == e.oscEnds && g.oscOverflow == e.oscOverflow
  }

  ghost predicate SameApc(g: Machine, e: Machine) {
    g.apc == e.apc && g.apcOverflow == e.apcOverflow
  }

  /** The same state and all of it that can still show: what is left over in fields the state does not
      use is set again before it is looked at. */
  ghost predicate Similar(g: Machine, e: Machine) {
    && Ok(g) && Ok(e) && g.state == e.state && g.partial == e.partial
    && (g.state != Ground ==> SameParams(g, e))
    && (g.state == OscString ==> SameOsc(g, e))
    && (g.state == ApcString ==> SameApc(g, e))
  }

  predicate UsesOsc(op: Op) {
    op.DoOscSeparate? || op.DoOscPut? || op.DoOscEnd? || op.DoOscEndExec? || op.DoOscEndReset?
  }

  predicate UsesApc(op: Op) {
    op.DoApcPut? || op.DoApcEnd? || op.DoApcEndReset?
  }

  lemma ParamsSimilar(g: Machine, e: Machine, op: Op, b: Byte)
    requires Ok(g) && Ok(e) && SameParams(g, e) && OnParams(op) && (op.DoDigit? ==> Between(b, 0x30, 0x39))
    ensures
      var (n, x) := Perform(g, op, b);
      var (k, y) := Perform(e, op, b);
      x == y && SameParams(n, k) && Beside(n, g) && Beside(k, e)
  {
    hide Groups, Ok, Collect, Digit, SubParam, NextParam, LastParam, OscEnd, ApcEnd, OscPut, ApcPut, OscSeparate;
    match op {
      case DoCollect => CollectSimilar(g, e, b);
      case DoDigit => DigitSimilar(g, e, b);
      case DoSubParam => ParamSimilar(g, e);
      case DoNextParam => ParamSimilar(g, e);
      case _ => ParamSimilar(g, e);
    }
  }

  lemma CollectSimilar(g: Machine, e: Machine, b: Byte)
    requires SameParams(g, e)
    ensures SameParams(Collect(g, b), Collect(e, b)) && Beside(Collect(g, b), g) && Beside(Collect(e, b), e)
  {
  }

  lemma DigitSimilar(g: Machine, e: Machine, b: Byte)
    requires SameParams(g, e) && Between(b, 0x30, 0x39)
    ensures SameParams(Digit(g, b), Digit(e, b)) && Beside(Digit(g, b), g) && Beside(Digit(e, b), e)
  {
    hide FlatLen, Saturated;
  }

  lemma ParamSimilar(g: Machine, e: Machine)
    requires SameParams(g, e)
    ensures SameParams(SubParam(g), SubParam(e)) && Beside(SubParam(g), g) && Beside(SubParam(e), e)
    ensures SameParams(NextParam(g), NextParam(e)) && Beside(NextParam(g), g) && Beside(NextParam(e), e)
    ensures SameParams(LastParam(g), LastParam(e)) && Beside(LastParam(g), g) && Beside(LastParam(e), e)
  {
    hide FlatLen;
  }

  /** Alike but for the parameters. */
  ghost predicate Beside(n: Machine, m: Machine) {
    n.partial == m.partial && SameOsc(n, m) && SameApc(n, m)
  }

  lemma OscSimilar(g: Machine, e: Machine, op: Op, b: Byte)
    requires Ok(g) && Ok(e) && SameParams(g, e) && UsesOsc(op) && SameOsc(g, e)
    ensures
      var (n, x) := Perform(g, op, b);
      var (k, y) := Perform(e, op, b);
      && x == y && SameParams(n, k) && SameOsc(n, k) && SameApc(n, g) && SameApc(k, e)
      && n.partial == g.partial && k.partial == e.partial
  {
    hide FlatLen, Groups, OscFields, Full, IsPartial, OscEnd, OscPut, OscSeparate, ApcEnd;
    match op {
      case DoOscSeparate => OscSeparateKept(g, e);
      case DoOscPut => OscPutKept(g, e, b);
      case _ => OscEndSimilar(g, e, b);
    }
  }

  lemma OscSeparateKept(g: Machine, e: Machine)
    requires SameParams(g, e) && SameOsc(g, e)
    ensures
      var n, k := OscSeparate(g), OscSeparate(e);
      && SameParams(n, k) && SameOsc(n, k) && SameApc(n, g) && SameApc(k, e)
      && n.partial == g.partial && k.partial == e.partial
  {
  }

  lemma OscPutKept(g: Machine, e: Machine, b: Byte)
    requires SameParams(g, e) && SameOsc(g, e)
    ensures
      var n, k := OscPut(g, b), OscPut(e, b);
      && SameParams(n, k) && SameOsc(n, k) && SameApc(n, g) && SameApc(k, e)
      && n.partial == g.partial && k.partial == e.partial
  {
  }

  lemma OscEndSimilar(g: Machine, e: Machine, b: Byte)
    requires Ok(g) && Ok(e) && SameParams(g, e) && SameOsc(g, e)
    ensures
      var (n, x) := OscEnd(g, b);
      var (k, y) := OscEnd(e, b);
      && x == y && SameParams(n, k) && SameOsc(n, k) && SameApc(n, g) && SameApc(k, e)
      && n.partial == g.partial && k.partial == e.partial
  {
    hide FlatLen, OscFields, IsPartial;
  }

  /** An action on what is the same asks for the same and leaves the same. */
  lemma PerformSimilar(g: Machine, e: Machine, op: Op, b: Byte)
    requires Ok(g) && Ok(e) && SameParams(g, e) && (op.DoDigit? ==> Between(b, 0x30, 0x39))
    requires UsesOsc(op) ==> SameOsc(g, e)
    requires UsesApc(op) ==> SameApc(g, e)
    ensures
      var (n, x) := Perform(g, op, b);
      var (k, y) := Perform(e, op, b);
      && x == y && SameParams(n, k) && n.partial == g.partial && k.partial == e.partial
      && (op.DoOscStart? || SameOsc(g, e) ==> SameOsc(n, k))
      && (op.DoApcStart? || SameApc(g, e) ==> SameApc(n, k))
  {
    hide Perform, SameParams, Ok, OnParams, UsesOsc, UsesApc;
    if OnParams(op) {
      NotStarts(op);
      ParamsSimilar(g, e, op, b);
    } else if UsesOsc(op) {
      NotStarts(op);
      OscSimilar(g, e, op, b);
    } else {
      OtherSimilar(g, e, op, b);
    }
  }

  lemma NotStarts(op: Op)
    ensures OnParams(op) || UsesOsc(op) ==> !op.DoOscStart? && !op.DoApcStart?
  {
  }

  lemma OtherSimilar(g: Machine, e: Machine, op: Op, b: Byte)
    requires Ok(g) && Ok(e) && SameParams(g, e) && !OnParams(op) && !UsesOsc(op)
    requires UsesApc(op) ==> SameApc(g, e)
    ensures
      var (n, x) := Perform(g, op, b);
      var (k, y) := Perform(e, op, b);
      && x == y && SameParams(n, k) && n.partial == g.partial && k.partial == e.partial
      && (op.DoOscStart? || SameOsc(g, e) ==> SameOsc(n, k))
      && (op.DoApcStart? || SameApc(g, e) ==> SameApc(n, k))
  {
    hide FlatLen, Groups, OscFields, Full, Ok;
  }

  /** Where the fields an action uses have come from. */
  lemma UsesItsOwn(s: State, b: Byte)
    requires s != Ground
    ensures
      var (op, next) := Transition(s, b);
      && (UsesOsc(op) ==> s == OscString) && (UsesApc(op) ==> s == ApcString)
      && (next == OscString ==> s == OscString || op.DoOscStart?)
      && (next == ApcString ==> s == ApcString || op.DoApcStart?)
      && (op.DoDigit? ==> Between(b, 0x30, 0x39))
  {
  }

  lemma SimilarString(g: Machine, e: Machine, b: Byte)
    requires Similar(g, e) && g.state != Ground
    ensures Step(g, b).1 == Step(e, b).1 && Similar(Step(g, b).0, Step(e, b).0)
  {
    hide Transition, Perform, Ok, GroundStep;
    UsesItsOwn(g.state, b);
    PerformSimilar(g, e, Transition(g.state, b).0, b);
    StepOk(g, b);
    StepOk(e, b);
  }

  lemma SimilarGround(g: Machine, e: Machine, b: Byte)
    requires Similar(g, e) && g.state == Ground
    ensures Step(g, b).1 == Step(e, b).1 && Similar(Step(g, b).0, Step(e, b).0)
  {
    hide Ok, StringStep, GroundStep;
    StepOk(g, b);
    StepOk(e, b);
    SimilarText(g, e, b);
  }

  lemma SimilarText(g: Machine, e: Machine, b: Byte)
    requires g.state == Ground && e.state == Ground && g.partial == e.partial
    ensures
      var (n, x) := GroundStep(g, b);
      var (k, y) := GroundStep(e, b);
      && x == y && n.state == k.state && n.partial == k.partial
      && (n.state == Ground || (n.state == Escape && SameParams(n, k)))
  {
    hide Scan, Malformed, Shown, FreshStep, SameParams;
    SimilarFresh(g.(partial := []), e.(partial := []), b);
    SimilarFresh(g, e, b);
  }

  lemma SimilarFresh(g: Machine, e: Machine, b: Byte)
    requires g.state == Ground && e.state == Ground && g.partial == e.partial
    ensures
      var (n, x) := FreshStep(g, b);
      var (k, y) := FreshStep(e, b);
      && x == y && n.state == k.state && n.partial == k.partial
      && (n.state == Ground || (n.state == Escape && SameParams(n, k)))
  {
    hide Scan, Malformed, Shown;
  }

  lemma SimilarStep(g: Machine, e: Machine, b: Byte)
    requires Similar(g, e)
    ensures Step(g, b).1 == Step(e, b).1 && Similar(Step(g, b).0, Step(e, b).0)
  {
    hide Step, Similar;
    if g.state == Ground {
      SimilarGround(g, e, b);
    } else {
      SimilarString(g, e, b);
    }
  }

  lemma SimilarIsOk(g: Machine, e: Machine)
    requires Similar(g, e)
    ensures Ok(g) && Ok(e)
  {
  }

  /** What ground text above ASCII asks for, and nothing else does. */
  predicate Loud(a: Action) {
    (a.Print? && a.cp >= 0x80) || (a.Execute? && a.byte >= 0x80)
  }

  lemma ShownIsLoud(bs: seq<Byte>)
    requires bs != [] && Scan(bs).Char? && bs[0] >= 0x80
    ensures Loud(Shown(Scan(bs).cp))
  {
  }

  /** Ground text that begins above ASCII, or goes on from a character cut off, asks for such a thing
      first. */
  lemma {:induction false} FirstIsLoud(g: Machine, bs: seq<Byte>)
    requires Grounded(g) && (g.partial == [] ==> bs != [] && bs[0] >= 0x80)
    ensures Run(g, bs).1 != [] ==> Loud(Run(g, bs).1[0])
    decreases |bs|
  {
    hide EndsOk, StringStep, Scan;
    if bs != [] {
      RunStep(g, bs);
      var b := bs[0];
      LeadIsHigh(g.partial, b);
      if Step(g, b).1 == [] {
        FirstIsLoud(Step(g, b).0, bs[1..]);
      } else if Scan(g.partial + [b]).Char? {
        ShownIsLoud(g.partial + [b]);
      }
    }
  }

  lemma LeadIsHigh(p: seq<Byte>, b: Byte)
    requires IsPartial(p) && (p == [] ==> b >= 0x80)
    ensures (p + [b])[0] >= 0x80
    ensures p == [] ==> [] + [b] == [b] && !Scan([b]).Char?
    ensures p == [] && Scan([b]).Bad? ==> Loud(Malformed(b, 1))
  {
  }

  /** ASCII is a character of its own, and breaks off any other. */
  lemma AsciiScan(p: seq<Byte>, b: Byte)
    requires IsPartial(p) && b <= 0x7F
    ensures Scan([b]) == Char(1, b)
    ensures p != [] ==> Scan(p + [b]).Bad?
  {
  }

  lemma FreshActs(m: Machine, b: Byte)
    requires m.partial == []
    ensures
      var (n, x) := FreshStep(m, b);
      && (b != 0x1B ==> n.state == m.state && (x != [] || n.partial != []))
      && (b == 0x1B ==> n == ToEscape(m) && x == [])
      && (b <= 0x7F && b != 0x1B ==> n.partial == [] && |x| == 1)
  {
    hide Scan, Shown, Malformed;
    if b <= 0x7F {
      AsciiScan([], b);
    }
  }

  /** A byte in ground, a character cut off before it or not: something is held back or asked for. */
  lemma GroundActs(g: Machine, b: Byte)
    requires Grounded(g)
    ensures
      var (n, x) := Step(g, b);
      && (b != 0x1B ==> n.state == Ground && (x != [] || n.partial != []))
      && (b == 0x1B ==> n == ToEscape(Holding(g, [])) && x == if g.partial == [] then [] else [Print(REPLACEMENT)])
      && (b <= 0x7F && b != 0x1B ==> n.partial == [] && |x| == if g.partial == [] then 1 else 2)
  {
    hide Ok, StringStep, Scan, FreshStep, IsPartial, Reset;
    GroundedIs(g);
    if b <= 0x7F {
      AsciiScan(g.partial, b);
    }
    FreshActs(Holding(g, []), b);
  }

  lemma StringTable(s: State, b: Byte)
    requires s != Ground
    ensures
      var (op, next) := Transition(s, b);
      && (op.Exec? || op.DoApcDropExec? || op.DoOscEndExec? ==> b <= 0x1F)
      && (op.DoDigit? ==> Between(b, 0x30, 0x39))
      && (next == Escape ==> Resets(op) || (s == Escape && (op.Exec? || op.Ignore?)))
      && (b == 0x1B ==> next == Escape)
      && (next == Ground && b > 0x7F ==> op.DoUnhook? || (s == ApcString && b == 0x9C))
      && (next == ApcString ==> s == ApcString || b == 0x5F)
  {
  }

  predicate Resets(op: Op) {
    op.DoReset? || op.DoUnhookReset? || op.DoOscEndReset? || op.DoApcEndReset?
  }

  lemma PerformQuiet(m: Machine, op: Op, b: Byte)
    requires Ok(m) && (op.DoDigit? ==> Between(b, 0x30, 0x39)) && (op.Exec? || op.DoApcDropExec? || op.DoOscEndExec? ==> b <= 0x1F)
    ensures
      var (n, y) := Perform(m, op, b);
      && (y != [] ==> !Loud(y[0])) && n.partial == m.partial
      && (Resets(op) ==> Reset(n) == n) && (op.Exec? || op.Ignore? ==> n == m) && (op.DoUnhook? ==> y != [])
  {
    hide EndsOk, IsPartial, FlatLen, Groups, OscFields, Ok;
  }

  lemma StringIsQuiet(e: Machine, b: Byte)
    requires Ok(e) && e.state != Ground && (e.state == Escape ==> Reset(e) == e)
    ensures
      var (k, y) := Step(e, b);
      && (y != [] ==> !Loud(y[0]))
      && (k.state == Escape ==> Reset(k) == k)
      && (b == 0x1B ==> k.state == Escape)
      && (y == [] && k.state == Ground ==> b <= 0x7F || (b == 0x9C && e.state == ApcString))
      && (k.state == ApcString ==> e.state == ApcString || b == 0x5F)
      && k.partial == []
  {
    hide EndsOk, IsPartial, FlatLen, Transition, Perform, Loud;
    StringTable(e.state, b);
    PerformQuiet(e, Transition(e.state, b).0, b);
  }

  lemma BothEscape(g: Machine, n: Machine, k: Machine)
    requires n == ToEscape(Holding(g, [])) && Ok(n) && Ok(k) && k.state == Escape && Reset(k) == k && k.partial == []
    ensures Similar(n, k)
  {
    hide EndsOk;
  }

  lemma BothGround(n: Machine, k: Machine)
    requires Ok(n) && Ok(k) && n.state == Ground && k.state == Ground && n.partial == [] && k.partial == []
    ensures Similar(n, k)
  {
    hide EndsOk;
  }

  /** What is held back once a byte in the middle of a character has been read. */
  lemma AfterTail(g: Machine, b: Byte)
    requires Grounded(g) && b == 0x9C
    ensures Grounded(Step(g, b).0)
    ensures Step(g, b).0.partial == [] || |Step(g, b).0.partial| >= 2
  {
    hide EndsOk, StringStep;
  }

  lemma InsideCharacter(g: Machine, e: Machine, b: Byte)
    requires Grounded(g) && Grounded(e) && e.partial == [] && |g.partial| >= 2
    ensures
      var (n, x) := Step(g, b);
      var (k, y) := Step(e, b);
      if IsTail(b) then
        && Grounded(n) && Grounded(k) && k.partial == [] && |y| == 1
        && ((n.partial == [] && |x| == 1) || (|g.partial| == 2 && |n.partial| == 3 && x == []))
      else |x| == 1 + |y| && Similar(n, k)
  {
    hide EndsOk, StringStep, Scan, FreshStep, FlatLen;
    TailOf(g.partial, b);
    if IsTail(b) {
      LoneTail(e, b);
    } else {
      SimilarFresh(g.(partial := []), e, b);
      StepOk(g, b);
      StepOk(e, b);
    }
  }

  /** Past its second byte a character goes on with any byte of the right kind. */
  lemma TailOf(p: seq<Byte>, b: Byte)
    requires IsPartial(p) && |p| >= 2
    ensures Scan(p + [b]).Bad? <==> !IsTail(b)
    ensures Scan(p + [b]).Short? ==> |p| == 2
  {
  }

  lemma LoneTail(e: Machine, b: Byte)
    requires e.state == Ground && e.partial == [] && IsTail(b)
    ensures FreshStep(e, b).0 == e && |FreshStep(e, b).1| == 1
  {
  }

  lemma EscapeIgnoresHigh(e: Machine, b: Byte)
    requires Ok(e) && e.state == Escape && b >= 0x80
    ensures Step(e, b) == (e, [])
  {
    assert Transition(Escape, b) == (Ignore, Escape);
  }

  lemma TwoByteFront(p: seq<Byte>, bs: seq<Byte>)
    requires |p| == 1 && Width(p[0]) == 2 && bs != [] && IsTail(bs[0])
    ensures Scan(p + bs).Char? && Scan(p + bs).len == 2
  {
  }

  lemma FirstDiffers(a: Action, b: Action, r: (Machine, seq<Action>), q: (Machine, seq<Action>))
    requires a != b
    ensures Then([a], r) != Then([b], q)
  {
    assert Then([a], r).1[0] == a && Then([b], q).1[0] == b;
  }

  lemma ThenInjective(actions: seq<Action>, a: (Machine, seq<Action>), b: (Machine, seq<Action>))
    requires Then(actions, a) == Then(actions, b)
    ensures a == b
  {
    assert a.1 == (actions + a.1)[|actions|..];
    assert b.1 == (actions + b.1)[|actions|..];
  }

  // ----- any way of cutting the stream -----

  /** What one call does: finish the character cut off before it, then read on. */
  function Advance(m: Machine, bs: seq<Byte>): (r: (Machine, seq<Action>))
    requires Ok(m)
    ensures Ok(r.0)
  {
    if m.partial == [] then Run(m, bs)
    else
      var r := Resume(m, bs);
      ResumeOk(m, bs);
      Then(r.actions, Run(r.machine, bs[r.taken..]))
  }

  function AdvanceAll(m: Machine, chunks: seq<seq<Byte>>): (r: (Machine, seq<Action>))
    requires Ok(m)
    decreases |chunks|
  {
    if chunks == [] then (m, [])
    else
      var (n, actions) := Advance(m, chunks[0]);
      Then(actions, AdvanceAll(n, chunks[1..]))
  }

  function Joined(chunks: seq<seq<Byte>>): seq<Byte> {
    if chunks == [] then [] else chunks[0] + Joined(chunks[1..])
  }

  /** Every chunk picks up harmlessly what reading the stream before it left cut off. */
  ghost predicate CutHarmlessly(m: Machine, chunks: seq<seq<Byte>>)
    requires Ok(m)
    decreases |chunks|
  {
    chunks != [] ==> Harmless(m.partial, chunks[0]) && CutHarmlessly(Run(m, chunks[0]).0, chunks[1..])
  }

  /** However the stream is cut, as long as every cut is harmless, the performer is asked for the
      same actions and the parser ends in the same state as when it is read byte by byte. */
  lemma {:induction false} CutsDoNotShow(m: Machine, chunks: seq<seq<Byte>>)
    requires Ok(m) && CutHarmlessly(m, chunks)
    ensures AdvanceAll(m, chunks) == Run(m, Joined(chunks))
    decreases |chunks|
  {
    if chunks != [] {
      if m.partial != [] {
        HarmlessLeadsOn(m, chunks[0]);
      }
      CutsDoNotShow(Run(m, chunks[0]).0, chunks[1..]);
      RunConcat(m, chunks[0], Joined(chunks[1..]));
    }
  }

  /** So any two ways of cutting one stream come to the same. */
  lemma AnyTwoCuttings(m: Machine, a: seq<seq<Byte>>, b: seq<seq<Byte>>)
    requires Ok(m) && CutHarmlessly(m, a) && CutHarmlessly(m, b)
    requires Joined(a) == Joined(b)
    ensures AdvanceAll(m, a) == AdvanceAll(m, b)
  {
    CutsDoNotShow(m, a);
    CutsDoNotShow(m, b);
  }

  lemma NothingHeld(bs: seq<Byte>)
    ensures Harmless([], bs)
  {
  }

  lemma HeldIsGround(m: Machine)
    requires Ok(m) && m.partial != []
    ensures Grounded(m)
  {
  }

  lemma RunOne(m: Machine, b: Byte)
    requires Ok(m)
    ensures Run(m, [b]) == Step(m, b)
  {
    RunStep(m, [b]);
    assert Step(m, b).1 + [] == Step(m, b).1;
  }

  /** No chunk begins inside a two-byte character. */
  ghost predicate CutOutsidePairs(m: Machine, chunks: seq<seq<Byte>>)
    requires Ok(m)
    decreases |chunks|
  {
    chunks != [] ==>
      && (m.partial == [] || Width(m.partial[0]) != 2)
      && CutOutsidePairs(Run(m, chunks[0]).0, chunks[1..])
  }

  /** In particular every cut outside two-byte characters is harmless: inside longer characters,
      malformed ones, control sequences and strings of every kind. */
  lemma {:induction false} CutsOutsidePairsAreHarmless(m: Machine, chunks: seq<seq<Byte>>)
    requires Ok(m) && CutOutsidePairs(m, chunks)
    ensures CutHarmlessly(m, chunks)
    decreases |chunks|
  {
    if chunks != [] {
      CutsOutsidePairsAreHarmless(Run(m, chunks[0]).0, chunks[1..]);
    }
  }
}
