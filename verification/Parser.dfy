/** `Parser` (src/emu/parser/mod.rs) as the object it is: fields updated byte by byte, runs of
    ground text, device control strings and APC payloads taken in bulk, and a performer asked for
    actions as it goes. Proved to do what the byte-at-a-time `ByteMachine` does; how print and put
    runs are divided is the one thing that may differ. */
module ParserObject {
  import opened Utf8
  import opened ByteMachine
  import opened MachineLaws

  /** One call on the performer. */
  datatype Call =
    | PrintStr(text: seq<nat>)
    | PutRun(data: seq<Byte>)
    | Do(action: Action)

  function Asked(call: Call): seq<Action> {
    match call
    case PrintStr(text) => seq(|text|, i requires 0 <= i < |text| => Print(text[i]))
    case PutRun(data) => Puts(data)
    case Do(action) => [action]
  }

  function Entering(r: (Machine, seq<Action>), next: State): (Machine, seq<Action>) {
    (r.0.(state := next), r.1)
  }

  function Longer(asked: seq<Action>, more: seq<Action>): (r: seq<Action>)
    ensures r == asked + more
  {
    if more == [] then asked else asked + more
  }

  lemma LongerNothing(asked: seq<Action>)
    ensures Longer(asked, []) == asked
  {
  }

  lemma LongerBoth(asked: seq<Action>, a: seq<Action>, b: seq<Action>)
    ensures Longer(Longer(asked, a), b) == Longer(asked, a + b)
  {
    hide Longer;
    assert asked + (a + b) == asked + a + b;
  }

  // ----- what one byte does, string state by string state -----

  lemma EscapeIs(m: Machine, b: Byte)
    requires Ok(m) && m.state == Escape
    ensures StringStep(m, b) ==
      if IsC0(b) then (m, [Execute(b)])
      else if Between(b, 0x20, 0x2F) then (Collect(m, b).(state := EscapeIntermediate), [])
      else if b == 0x50 then (Reset(m).(state := DcsEntry), [])
      else if b == 0x58 || b == 0x5E then (m.(state := SosPmApcString), [])
      else if b == 0x5B then (Reset(m).(state := CsiEntry), [])
      else if b == 0x5D then (m.(osc := [], oscEnds := [], oscOverflow := false, state := OscString), [])
      else if b == 0x5F then (m.(apc := [], apcOverflow := false, state := ApcString), [])
      else if Between(b, 0x30, 0x7E) then
        (m.(state := Ground), [EscDispatch(m.intermediates, m.ignoring, b)])
      else if IsCancel(b) then (m.(state := Ground), [Execute(b)])
      else (m, [])
  {
  }

  lemma PassthroughIs(m: Machine, b: Byte)
    requires Ok(m) && m.state == DcsPassthrough
    ensures StringStep(m, b) ==
      if IsPayload(b) then (m, [Put(b)])
      else if IsCancel(b) then (m.(state := Ground), [Unhook, Execute(b)])
      else if b == 0x1B then (Reset(m).(state := Escape), [Unhook])
      else if b == 0x9C then (m.(state := Ground), [Unhook])
      else (m, [])
  {
  }

  lemma OscIs(m: Machine, b: Byte)
    requires Ok(m) && m.state == OscString
    ensures StringStep(m, b) ==
      if b == 0x07 then Entering(OscEnd(m, b), Ground)
      else if IsC0(b) then (m, [])
      else if IsCancel(b) then AndExecute(Entering(OscEnd(m, b), Ground), b)
      else if b == 0x1B then Entering(AndReset(OscEnd(m, b)), Escape)
      else if b == 0x3B then (OscSeparate(m), [])
      else (OscPut(m, b), [])
  {
  }

  lemma ApcIs(m: Machine, b: Byte)
    requires Ok(m) && m.state == ApcString
    ensures StringStep(m, b) ==
      if IsCancel(b) then (m.(apc := [], state := Ground), [Execute(b)])
      else if b == 0x1B then Entering(AndReset(ApcEnd(m)), Escape)
      else if b == 0x9C then Entering(ApcEnd(m), Ground)
      else (ApcPut(m, b), [])
  {
  }

  // ----- stretches of ground text -----

  lemma ShownJoin(text: seq<nat>, at: nat, end: nat, before: seq<Action>)
    requires at <= end <= |text|
    ensures before + ShownAll(text[..at]) + ShownAll(text[at..end]) == before + ShownAll(text[..end])
  {
    assert ShownAll(text[..end]) == ShownAll(text[..at]) + ShownAll(text[at..end]);
  }

  lemma LongerJoin(before: seq<Action>, a: seq<Action>, b: seq<Action>)
    ensures before + a + b == before + (a + b)
  {
  }

  lemma MalformedAt(m: Machine, bs: seq<Byte>)
    requires Grounded(m) && m.partial == [] && bs != [] && Scan(bs).Bad?
    ensures Run(m, bs) == Then([Malformed(bs[0], Scan(bs).len)], Run(m, bs[Scan(bs).len..]))
  {
    hide Ok, StringStep, GroundStep, Step, Scan, Run, Then, Malformed;
    assert [] + bs == bs;
    MalformedRuns(m, [], bs);
    assert Holding(m, []) == m;
  }

  /** A stretch that ends in an escape, with a character cut off before it or without. */
  lemma EscapeAfter(m: Machine, cut: seq<Byte>, bs: seq<Byte>)
    requires Grounded(m) && m.partial == [] && IsPartial(cut)
    requires bs != [] && bs[0] == 0x1B
    ensures Run(m, cut + bs)
         == Then(if cut == [] then [] else [Print(REPLACEMENT)], Run(ToEscape(m), bs[1..]))
  {
    hide EndsOk, StringStep, GroundStep, Step, Scan;
    RunConcat(m, cut, bs);
    assert [] + cut == cut;
    ShortRuns(m, [], cut);
    ShortThenEscape(Holding(m, cut), cut, bs);
    assert Holding(Holding(m, cut), []) == m;
    ThenNothing(Run(Holding(m, cut), bs));
  }

  lemma HeldBack(m: Machine, bs: seq<Byte>)
    requires Grounded(m) && m.partial == [] && IsPartial(bs)
    ensures Ok(Holding(m, bs)) && Run(m, bs) == Then([], Run(Holding(m, bs), []))
  {
    hide EndsOk, StringStep, GroundStep, Step, Scan;
    assert [] + bs == bs;
    ShortRuns(m, [], bs);
  }

  /** A stretch of text spoiled part way: what it shows, and where reading goes on. */
  lemma StretchSpoiled(m: Machine, bytes: seq<Byte>, plain: nat)
    requires Grounded(m) && m.partial == [] && plain <= |bytes| && NoEscape(bytes[..plain])
    requires Decode(bytes[..plain]).stop.BadAt?
    ensures var d := Decode(bytes[..plain]);
            && d.upTo + d.stop.len <= plain
            && Run(m, bytes) == Then(ShownAll(d.chars) + [Malformed(bytes[d.upTo], d.stop.len)],
                                     Run(m, bytes[d.upTo + d.stop.len..]))
  {
    hide Ok, StringStep, GroundStep, Step, Scan, Decode, Run, ShownAll, Malformed;
    var text, after := bytes[..plain], bytes[plain..];
    var d := Decode(text);
    var rest := bytes[d.upTo..];
    assert bytes == text + after;
    DecodedRuns(m, text, after);
    assert rest == text[d.upTo..] + after;
    ScanSettled(text[d.upTo..], after);
    MalformedAt(m, rest);
    assert rest[d.stop.len..] == bytes[d.upTo + d.stop.len..];
    ThenThen(ShownAll(d.chars), [Malformed(rest[0], d.stop.len)], Run(m, rest[d.stop.len..]));
  }

  /** A stretch of text ended by an escape. */
  lemma StretchEscaped(m: Machine, bytes: seq<Byte>, plain: nat)
    requires Grounded(m) && m.partial == [] && plain < |bytes| && NoEscape(bytes[..plain])
    requires bytes[plain] == 0x1B && !Decode(bytes[..plain]).stop.BadAt?
    ensures var d := Decode(bytes[..plain]);
            && Ok(ToEscape(m))
            && Run(m, bytes) == Then(ShownAll(d.chars) + if d.stop.ShortAt? then [Print(REPLACEMENT)] else [],
                                     Run(ToEscape(m), bytes[plain + 1..]))
  {
    hide EndsOk, StringStep, GroundStep, Step, Scan, Decode;
    var text, after := bytes[..plain], bytes[plain..];
    var d := Decode(text);
    var cut := text[d.upTo..];
    assert bytes == text + after;
    DecodedRuns(m, text, after);
    assert bytes[d.upTo..] == cut + after;
    EscapeAfter(m, cut, after);
    assert after[1..] == bytes[plain + 1..];
    ThenThen(ShownAll(d.chars), if cut == [] then [] else [Print(REPLACEMENT)], Run(ToEscape(m), after[1..]));
  }

  /** A stretch of text that ends with the read. */
  lemma StretchEnds(m: Machine, bytes: seq<Byte>)
    requires Grounded(m) && m.partial == [] && NoEscape(bytes)
    requires !Decode(bytes).stop.BadAt?
    ensures var d := Decode(bytes);
            && Ok(Holding(m, bytes[d.upTo..]))
            && Run(m, bytes) == Then(ShownAll(d.chars), Run(Holding(m, bytes[d.upTo..]), []))
  {
    hide EndsOk, StringStep, GroundStep, Step, Scan, Decode;
    var d := Decode(bytes);
    var cut := bytes[d.upTo..];
    assert bytes + [] == bytes;
    DecodedRuns(m, bytes, []);
    HeldBack(m, cut);
    ThenThen(ShownAll(d.chars), [], Run(Holding(m, cut), []));
    assert ShownAll(d.chars) + [] == ShownAll(d.chars);
  }

  function EscapeAt(bytes: seq<Byte>): (at: nat)
    ensures at <= |bytes| && NoEscape(bytes[..at])
    ensures at < |bytes| ==> bytes[at] == 0x1B
  {
    if bytes == [] || bytes[0] == 0x1B then 0
    else
      var rest := EscapeAt(bytes[1..]);
      assert forall i :: 1 <= i < 1 + rest ==> bytes[i] == bytes[1..][..rest][i - 1];
      1 + rest
  }

  method FindEscape(bytes: seq<Byte>) returns (at: nat)
    ensures at == EscapeAt(bytes)
  {
    at := 0;
    while at < |bytes| && bytes[at] != 0x1B
      invariant at <= |bytes| && EscapeAt(bytes) == at + EscapeAt(bytes[at..])
    {
      assert bytes[at..][1..] == bytes[at + 1..];
      at := at + 1;
    }
  }

  /** What one stretch of ground text comes to: where it leaves the parser, what it shows, and how
      much of the read it takes. */
  function Stretch(m: Machine, bytes: seq<Byte>): (r: Resumed)
    requires bytes != []
    ensures 0 < r.taken <= |bytes|
  {
    var plain := EscapeAt(bytes);
    var d := Decode(bytes[..plain]);
    var shown := ShownAll(d.chars);
    if d.stop.BadAt? then
      Resumed(m, shown + [Malformed(bytes[d.upTo], d.stop.len)], d.upTo + d.stop.len)
    else if plain < |bytes| then
      Resumed(ToEscape(m), shown + if d.stop.ShortAt? then [Print(REPLACEMENT)] else [], plain + 1)
    else Resumed(Holding(m, bytes[d.upTo..]), shown, |bytes|)
  }

  /** A stretch taken in one piece leads on to what reading byte by byte leads on to. */
  lemma StretchLeadsOn(m: Machine, bytes: seq<Byte>)
    requires Grounded(m) && m.partial == [] && bytes != []
    ensures Ok(Stretch(m, bytes).machine) && LeadsOn(m, bytes, Stretch(m, bytes))
    ensures Stretch(m, bytes).machine.partial != [] ==> Stretch(m, bytes).taken == |bytes|
  {
    hide EndsOk, StringStep, GroundStep, Step, Scan, Decode;
    var plain := EscapeAt(bytes);
    var d := Decode(bytes[..plain]);
    if d.stop.BadAt? {
      StretchSpoiled(m, bytes, plain);
    } else if plain < |bytes| {
      StretchEscaped(m, bytes, plain);
    } else {
      assert bytes[..plain] == bytes;
      StretchEnds(m, bytes);
      assert bytes[|bytes|..] == [];
    }
  }

  lemma NoPartialOutsideGround(m: Machine)
    requires Ok(m) && m.state != Ground
    ensures m.partial == []
  {
  }

  lemma PartialInGround(m: Machine)
    requires Ok(m) && m.partial != []
    ensures m.state == Ground && IsPartial(m.partial)
  {
  }

  lemma StringStepHoldsNothing(m: Machine, b: Byte)
    requires Ok(m) && m.state != Ground
    ensures Step(m, b).0.partial == []
  {
    PerformOk(m, Transition(m.state, b).0, b);
  }

  /** After a bulk run that did `did` up to byte `at`, that byte through the byte path. */
  lemma StringByteNext(m: Machine, bytes: seq<Byte>, at: nat, did: seq<Action>, n: Machine)
    requires Ok(m) && Ok(n) && n.state != Ground && at < |bytes|
    requires Run(m, bytes) == Then(did, Run(n, bytes[at..]))
    ensures Step(n, bytes[at]).0.partial == []
    ensures Run(m, bytes) == Then(did + Step(n, bytes[at]).1, Run(Step(n, bytes[at]).0, bytes[at + 1..]))
  {
    hide Ok, StringStep, GroundStep, Step, Run;
    StringStepHoldsNothing(n, bytes[at]);
    RunStep(n, bytes[at..]);
    assert bytes[at..][0] == bytes[at] && bytes[at..][1..] == bytes[at + 1..];
    ThenThen(did, Step(n, bytes[at]).1, Run(Step(n, bytes[at]).0, bytes[at + 1..]));
  }

  /** A pick-up that still holds bytes back has taken the whole read. */
  lemma HeldMeansAllTaken(m: Machine, bytes: seq<Byte>)
    requires Grounded(m) && m.partial != []
    ensures Resume(m, bytes).machine.partial != [] ==> Resume(m, bytes).taken == |bytes|
  {
    if Scan(m.partial + bytes).Char? {
      ResumeTaken(m, bytes);
    } else {
      ResumeOther(m, bytes);
    }
  }

  method PayloadEnd(bytes: seq<Byte>) returns (end: nat)
    ensures end <= |bytes| && forall i :: 0 <= i < end ==> IsPayload(bytes[i])
    ensures end < |bytes| ==> !IsPayload(bytes[end])
  {
    end := 0;
    while end < |bytes| && IsPayload(bytes[end])
      invariant end <= |bytes| && forall i :: 0 <= i < end ==> IsPayload(bytes[i])
    {
      end := end + 1;
    }
  }

  method ApcEndAt(bytes: seq<Byte>) returns (end: nat)
    ensures end <= |bytes| && forall i :: 0 <= i < end ==> !EndsApc(bytes[i])
    ensures end < |bytes| ==> EndsApc(bytes[end])
  {
    end := 0;
    while end < |bytes| && !EndsApc(bytes[end])
      invariant end <= |bytes| && forall i :: 0 <= i < end ==> !EndsApc(bytes[i])
    {
      end := end + 1;
    }
  }

  class Performer {
    var calls: seq<Call>
    ghost var asked: seq<Action>

    constructor ()
      ensures calls == [] && asked == []
    {
      calls, asked := [], [];
    }

    method Take(call: Call)
      modifies this
      ensures calls == old(calls) + [call] && asked == Longer(old(asked), Asked(call))
    {
      calls := calls + [call];
      asked := Longer(asked, Asked(call));
    }
  }

  class Parser {
    var state: State
    var intermediates: seq<Byte>
    var ignoring: bool
    var params: Params
    var param: nat
    var osc: seq<Byte>
    var oscEnds: seq<nat>
    var oscOverflow: bool
    var apc: seq<Byte>
    var apcOverflow: bool
    var partial: seq<Byte>

    ghost function Value(): Machine
      reads this
    {
      Machine(state, intermediates, ignoring, params, param, osc, oscEnds, oscOverflow,
              apc, apcOverflow, partial)
    }

    ghost predicate Valid()
      reads this
    {
      Ok(Value())
    }

    constructor ()
      ensures Valid() && Value() == START
    {
      state, intermediates, ignoring := Ground, [], false;
      params, param := NO_PARAMS, 0;
      osc, oscEnds, oscOverflow := [], [], false;
      apc, apcOverflow, partial := [], false, [];
    }

    // ----- the single actions -----

    method ResetParams()
      modifies this`intermediates, this`ignoring, this`param, this`params
      ensures Value() == Reset(old(Value()))
    {
      intermediates, ignoring, param, params := [], false, 0, NO_PARAMS;
    }

    method CollectByte(b: Byte)
      modifies this`intermediates, this`ignoring
      ensures Value() == Collect(old(Value()), b)
    {
      if |intermediates| == MAX_INTERMEDIATES {
        ignoring := true;
      } else {
        intermediates := intermediates + [b];
      }
    }

    method AddSubParam()
      modifies this`params, this`param, this`ignoring
      ensures Value() == SubParam(old(Value()))
    {
      if FlatLen(params) == MAX_PARAMS {
        ignoring := true;
      } else {
        params := ExtendParam(params, param);
        param := 0;
      }
    }

    method AddParam()
      modifies this`params, this`param, this`ignoring
      ensures Value() == NextParam(old(Value()))
    {
      if FlatLen(params) == MAX_PARAMS {
        ignoring := true;
      } else {
        params := PushParam(params, param);
        param := 0;
      }
    }

    method AddDigit(b: Byte)
      requires 0x30 <= b <= 0x39
      modifies this`param, this`ignoring
      ensures Value() == Digit(old(Value()), b)
    {
      if FlatLen(params) == MAX_PARAMS {
        ignoring := true;
      } else {
        param := Saturated(param * 10);
        param := Saturated(param + (b - 0x30));
      }
    }

    method CloseParams()
      modifies this`params, this`ignoring
      ensures Value() == LastParam(old(Value()))
    {
      if FlatLen(params) == MAX_PARAMS {
        ignoring := true;
      } else {
        params := PushParam(params, param);
      }
    }

    method SeparateOsc()
      modifies this`oscEnds
      ensures Value() == OscSeparate(old(Value()))
    {
      if |oscEnds| != MAX_OSC_PARAMS {
        oscEnds := oscEnds + [|osc|];
      }
    }

    method PutOsc(b: Byte)
      modifies this`osc, this`oscOverflow
      ensures Value() == OscPut(old(Value()), b)
    {
      if |osc| >= MAX_OSC_RAW {
        oscOverflow := true;
      } else {
        osc := osc + [b];
      }
    }

    method EndOsc(p: Performer, b: Byte)
      requires Valid()
      modifies this`osc, this`oscEnds, this`oscOverflow, p
      ensures Did(old(p.asked), p, OscEnd(old(Value()), b))
    {
      SeparateOsc();
      if !oscOverflow {
        var fields: seq<seq<Byte>> := [];
        for i := 0 to |oscEnds|
          invariant fields == OscFields(osc, oscEnds)[..i]
        {
          fields := fields + [osc[if i == 0 then 0 else oscEnds[i - 1]..oscEnds[i]]];
        }
        assert fields == OscFields(osc, oscEnds);
        p.Take(Do(OscDispatch(fields, b == 0x07)));
      }
      osc, oscEnds, oscOverflow := [], [], false;
    }

    method PutApc(b: Byte)
      modifies this`apc, this`apcOverflow
      ensures Value() == ApcPut(old(Value()), b)
    {
      if |apc| >= MAX_APC_RAW {
        apcOverflow := true;
      } else {
        apc := apc + [b];
      }
    }

    method EndApc(p: Performer)
      modifies this`apc, this`apcOverflow, p
      ensures Did(old(p.asked), p, ApcEnd(old(Value())))
    {
      if !apcOverflow {
        p.Take(Do(ApcDispatch(apc)));
      }
      apc, apcOverflow := [], false;
    }

    method StartOsc()
      modifies this`osc, this`oscEnds, this`oscOverflow, this`state
      ensures Value() == old(Value()).(osc := [], oscEnds := [], oscOverflow := false, state := OscString)
    {
      osc, oscEnds, oscOverflow := [], [], false;
      state := OscString;
    }

    method StartApc()
      modifies this`apc, this`apcOverflow, this`state
      ensures Value() == old(Value()).(apc := [], apcOverflow := false, state := ApcString)
    {
      apc, apcOverflow := [], false;
      state := ApcString;
    }

    // ----- one byte of a control sequence or string -----

    /** One byte outside ground; each state's arms are those of its own function. */
    method ChangeState(p: Performer, b: Byte)
      requires Valid() && state != Ground
      modifies this, p
      ensures Valid() && Did(old(p.asked), p, Step(old(Value()), b))
    {
      ghost var after := Step(Value(), b);
      match state
      case Escape => AdvanceEscape(p, b);
      case EscapeIntermediate => AdvanceEscapeIntermediate(p, b);
      case CsiEntry => AdvanceCsiEntry(p, b);
      case CsiParam => AdvanceCsiParam(p, b);
      case CsiIntermediate => AdvanceCsiIntermediate(p, b);
      case CsiIgnore => AdvanceCsiIgnore(p, b);
      case DcsEntry => AdvanceDcsEntry(p, b);
      case DcsParam => AdvanceDcsParam(p, b);
      case DcsIntermediate => AdvanceDcsIntermediate(p, b);
      case DcsIgnore => AnywhereByte(p, b);
      case DcsPassthrough => AdvanceDcsPassthrough(p, b);
      case OscString => AdvanceOscString(p, b);
      case ApcString => AdvanceApcString(p, b);
      case SosPmApcString => AnywhereByte(p, b);
    }

    ghost predicate Did(asked: seq<Action>, p: Performer, r: (Machine, seq<Action>))
      reads this, p
    {
      Value() == r.0 && p.asked == Longer(asked, r.1)
    }

    method AnywhereByte(p: Performer, b: Byte)
      requires Valid()
      modifies this, p
      ensures var t := Anywhere(old(state), b);
              var r := Perform(old(Value()), t.0, b);
              Did(old(p.asked), p, (r.0.(state := t.1), r.1))
    {
      if b == 0x18 || b == 0x1A {
        p.Take(Do(Execute(b)));
        state := Ground;
      } else if b == 0x1B {
        ResetParams();
        state := Escape;
      }
    }

    method DispatchEsc(p: Performer, b: Byte)
      modifies this`state, p
      ensures Value() == old(Value()).(state := Ground)
      ensures p.asked == old(p.asked) + [EscDispatch(intermediates, ignoring, b)]
    {
      p.Take(Do(EscDispatch(intermediates, ignoring, b)));
      state := Ground;
    }

    method DispatchCsi(p: Performer, b: Byte)
      modifies this`state, this`params, this`ignoring, p
      ensures var n := LastParam(old(Value()));
              && Value() == n.(state := Ground)
              && p.asked == old(p.asked) + [CsiDispatch(Groups(n.params), n.intermediates, n.ignoring, b)]
    {
      CloseParams();
      p.Take(Do(CsiDispatch(Groups(params), intermediates, ignoring, b)));
      state := Ground;
    }

    method HookDcs(p: Performer, b: Byte)
      modifies this`state, this`params, this`ignoring, p
      ensures var n := LastParam(old(Value()));
              && Value() == n.(state := DcsPassthrough)
              && p.asked == old(p.asked) + [Hook(Groups(n.params), n.intermediates, n.ignoring, b)]
    {
      CloseParams();
      p.Take(Do(Hook(Groups(params), intermediates, ignoring, b)));
      state := DcsPassthrough;
    }

    method AdvanceEscape(p: Performer, b: Byte)
      requires Valid() && state == Escape
      modifies this, p
      ensures Did(old(p.asked), p, StringStep(old(Value()), b))
    {
      hide StringStep;
      EscapeIs(Value(), b);
      if b <= 0x17 || b == 0x19 || 0x1C <= b <= 0x1F {
        p.Take(Do(Execute(b)));
      } else if 0x20 <= b <= 0x2F {
        CollectByte(b);
        state := EscapeIntermediate;
      } else if b == 0x50 {
        ResetParams();
        state := DcsEntry;
      } else if b == 0x58 || b == 0x5E {
        state := SosPmApcString;
      } else if b == 0x5B {
        ResetParams();
        state := CsiEntry;
      } else if b == 0x5D {
        StartOsc();
      } else if b == 0x5F {
        StartApc();
      } else if 0x30 <= b <= 0x7E {
        DispatchEsc(p, b);
      } else if b == 0x18 || b == 0x1A {
        p.Take(Do(Execute(b)));
        state := Ground;
      }
    }

    method AdvanceEscapeIntermediate(p: Performer, b: Byte)
      requires Valid() && state == EscapeIntermediate
      modifies this, p
      ensures Did(old(p.asked), p, StringStep(old(Value()), b))
    {
      if b <= 0x17 || b == 0x19 || 0x1C <= b <= 0x1F {
        p.Take(Do(Execute(b)));
      } else if 0x20 <= b <= 0x2F {
        CollectByte(b);
      } else if 0x30 <= b <= 0x7E {
        DispatchEsc(p, b);
      } else if b != 0x7F {
        AnywhereByte(p, b);
      }
    }

    method AdvanceCsiEntry(p: Performer, b: Byte)
      requires Valid() && state == CsiEntry
      modifies this, p
      ensures Did(old(p.asked), p, StringStep(old(Value()), b))
    {
      if b <= 0x17 || b == 0x19 || 0x1C <= b <= 0x1F {
        p.Take(Do(Execute(b)));
      } else if 0x20 <= b <= 0x2F {
        CollectByte(b);
        state := CsiIntermediate;
      } else if 0x30 <= b <= 0x39 {
        AddDigit(b);
        state := CsiParam;
      } else if b == 0x3A {
        AddSubParam();
        state := CsiParam;
      } else if b == 0x3B {
        AddParam();
        state := CsiParam;
      } else if 0x3C <= b <= 0x3F {
        CollectByte(b);
        state := CsiParam;
      } else if 0x40 <= b <= 0x7E {
        DispatchCsi(p, b);
      } else {
        AnywhereByte(p, b);
      }
    }

    method AdvanceCsiIgnore(p: Performer, b: Byte)
      requires Valid() && state == CsiIgnore
      modifies this, p
      ensures Did(old(p.asked), p, StringStep(old(Value()), b))
    {
      if b <= 0x17 || b == 0x19 || 0x1C <= b <= 0x1F {
        p.Take(Do(Execute(b)));
      } else if 0x20 <= b <= 0x3F {
      } else if 0x40 <= b <= 0x7E {
        state := Ground;
      } else if b != 0x7F {
        AnywhereByte(p, b);
      }
    }

    method AdvanceCsiIntermediate(p: Performer, b: Byte)
      requires Valid() && state == CsiIntermediate
      modifies this, p
      ensures Did(old(p.asked), p, StringStep(old(Value()), b))
    {
      if b <= 0x17 || b == 0x19 || 0x1C <= b <= 0x1F {
        p.Take(Do(Execute(b)));
      } else if 0x20 <= b <= 0x2F {
        CollectByte(b);
      } else if 0x30 <= b <= 0x3F {
        state := CsiIgnore;
      } else if 0x40 <= b <= 0x7E {
        DispatchCsi(p, b);
      } else {
        AnywhereByte(p, b);
      }
    }

    method AdvanceCsiParam(p: Performer, b: Byte)
      requires Valid() && state == CsiParam
      modifies this, p
      ensures Did(old(p.asked), p, StringStep(old(Value()), b))
    {
      if b <= 0x17 || b == 0x19 || 0x1C <= b <= 0x1F {
        p.Take(Do(Execute(b)));
      } else if 0x20 <= b <= 0x2F {
        CollectByte(b);
        state := CsiIntermediate;
      } else if 0x30 <= b <= 0x39 {
        AddDigit(b);
      } else if b == 0x3A {
        AddSubParam();
      } else if b == 0x3B {
        AddParam();
      } else if 0x3C <= b <= 0x3F {
        state := CsiIgnore;
      } else if 0x40 <= b <= 0x7E {
        DispatchCsi(p, b);
      } else if b != 0x7F {
        AnywhereByte(p, b);
      }
    }

    method AdvanceDcsEntry(p: Performer, b: Byte)
      requires Valid() && state == DcsEntry
      modifies this, p
      ensures Did(old(p.asked), p, StringStep(old(Value()), b))
    {
      if b <= 0x17 || b == 0x19 || 0x1C <= b <= 0x1F {
      } else if 0x20 <= b <= 0x2F {
        CollectByte(b);
        state := DcsIntermediate;
      } else if 0x30 <= b <= 0x39 {
        AddDigit(b);
        state := DcsParam;
      } else if b == 0x3A {
        AddSubParam();
        state := DcsParam;
      } else if b == 0x3B {
        AddParam();
        state := DcsParam;
      } else if 0x3C <= b <= 0x3F {
        CollectByte(b);
        state := DcsParam;
      } else if 0x40 <= b <= 0x7E {
        HookDcs(p, b);
      } else if b != 0x7F {
        AnywhereByte(p, b);
      }
    }

    method AdvanceDcsIntermediate(p: Performer, b: Byte)
      requires Valid() && state == DcsIntermediate
      modifies this, p
      ensures Did(old(p.asked), p, StringStep(old(Value()), b))
    {
      if b <= 0x17 || b == 0x19 || 0x1C <= b <= 0x1F {
      } else if 0x20 <= b <= 0x2F {
        CollectByte(b);
      } else if 0x30 <= b <= 0x3F {
        state := DcsIgnore;
      } else if 0x40 <= b <= 0x7E {
        HookDcs(p, b);
      } else if b != 0x7F {
        AnywhereByte(p, b);
      }
    }

    method AdvanceDcsParam(p: Performer, b: Byte)
      requires Valid() && state == DcsParam
      modifies this, p
      ensures Did(old(p.asked), p, StringStep(old(Value()), b))
    {
      if b <= 0x17 || b == 0x19 || 0x1C <= b <= 0x1F {
      } else if 0x20 <= b <= 0x2F {
        CollectByte(b);
        state := DcsIntermediate;
      } else if 0x30 <= b <= 0x39 {
        AddDigit(b);
      } else if b == 0x3A {
        AddSubParam();
      } else if b == 0x3B {
        AddParam();
      } else if 0x3C <= b <= 0x3F {
        state := DcsIgnore;
      } else if 0x40 <= b <= 0x7E {
        HookDcs(p, b);
      } else if b != 0x7F {
        AnywhereByte(p, b);
      }
    }

    method AdvanceDcsPassthrough(p: Performer, b: Byte)
      requires Valid() && state == DcsPassthrough
      modifies this, p
      ensures Did(old(p.asked), p, StringStep(old(Value()), b))
    {
      hide StringStep;
      PassthroughIs(Value(), b);
      if b <= 0x17 || b == 0x19 || 0x1C <= b <= 0x7E {
        p.Take(PutRun([b]));
      } else if b == 0x18 || b == 0x1A {
        p.Take(Do(Unhook));
        p.Take(Do(Execute(b)));
        LongerBoth(old(p.asked), [Unhook], [Execute(b)]);
        state := Ground;
      } else if b == 0x1B {
        p.Take(Do(Unhook));
        ResetParams();
        state := Escape;
      } else if b == 0x9C {
        p.Take(Do(Unhook));
        state := Ground;
      }
    }

    method EndOscThen(p: Performer, b: Byte, next: State)
      requires Valid()
      modifies this, p
      ensures next != Escape ==> Did(old(p.asked), p, Entering(OscEnd(old(Value()), b), next))
      ensures next == Escape ==> Did(old(p.asked), p, Entering(AndReset(OscEnd(old(Value()), b)), next))
    {
      EndOsc(p, b);
      if next == Escape {
        ResetParams();
      }
      state := next;
    }

    method EndApcThen(p: Performer, next: State)
      modifies this, p
      ensures next != Escape ==> Did(old(p.asked), p, Entering(ApcEnd(old(Value())), next))
      ensures next == Escape ==> Did(old(p.asked), p, Entering(AndReset(ApcEnd(old(Value()))), next))
    {
      EndApc(p);
      if next == Escape {
        ResetParams();
      }
      state := next;
    }

    method ExecuteThen(p: Performer, b: Byte)
      modifies this`state, p
      ensures Value() == old(Value()).(state := Ground)
      ensures p.asked == Longer(old(p.asked), [Execute(b)])
    {
      p.Take(Do(Execute(b)));
      state := Ground;
    }

    method AdvanceOscString(p: Performer, b: Byte)
      requires Valid() && state == OscString
      modifies this, p
      ensures Did(old(p.asked), p, StringStep(old(Value()), b))
    {
      hide StringStep;
      OscIs(Value(), b);
      if b <= 0x06 || 0x08 <= b <= 0x17 || b == 0x19 || 0x1C <= b <= 0x1F {
      } else if b == 0x07 {
        EndOscThen(p, b, Ground);
      } else if b == 0x18 || b == 0x1A {
        EndOscThen(p, b, Ground);
        ExecuteThen(p, b);
        LongerBoth(old(p.asked), OscEnd(old(Value()), b).1, [Execute(b)]);
      } else if b == 0x1B {
        EndOscThen(p, b, Escape);
      } else if b == 0x3B {
        SeparateOsc();
      } else {
        PutOsc(b);
      }
    }

    method AdvanceApcString(p: Performer, b: Byte)
      requires Valid() && state == ApcString
      modifies this, p
      ensures Did(old(p.asked), p, StringStep(old(Value()), b))
    {
      hide StringStep;
      ApcIs(Value(), b);
      if b == 0x18 || b == 0x1A {
        apc := [];
        ExecuteThen(p, b);
      } else if b == 0x1B {
        EndApcThen(p, Escape);
      } else if b == 0x9C {
        EndApcThen(p, Ground);
      } else {
        PutApc(b);
      }
    }

    // ----- in bulk -----

    /** Finish the first character a read cut off, at most four bytes being looked at. */
    method AdvancePartialUtf8(p: Performer, bytes: seq<Byte>) returns (taken: nat)
      requires Valid() && state == Ground && partial != []
      modifies this`partial, p
      ensures var r := Resume(old(Value()), bytes);
              Value() == r.machine && taken == r.taken && p.asked == Longer(old(p.asked), r.actions)
    {
      hide EndsOk, Scan, Decode, Longer;
      var oldBytes := |partial|;
      var toCopy := if |bytes| <= 4 - oldBytes then |bytes| else 4 - oldBytes;
      ResumeTakes(partial, bytes[..toCopy]);
      var buffer := partial + bytes[..toCopy];
      var d := Decode(buffer);
      partial := [];
      if d.stop.Whole? {
        p.Take(Do(Print(d.chars[0])));
        taken := Scan(buffer).len - oldBytes;
      } else if d.upTo > 0 {
        p.Take(Do(Print(d.chars[0])));
        taken := d.upTo - oldBytes;
      } else if d.stop.BadAt? {
        p.Take(Do(Print(REPLACEMENT)));
        taken := d.stop.len - oldBytes;
      } else {
        LongerNothing(p.asked);
        partial := buffer;
        taken := toCopy;
      }
    }

    /** Controls one at a time to `execute`, the text between them in the longest runs. */
    method GroundDispatch(p: Performer, text: seq<nat>)
      modifies p
      ensures p.asked == old(p.asked) + ShownAll(text)
    {
      var at := 0;
      assert ShownAll(text[..0]) == [];
      while at < |text|
        invariant 0 <= at <= |text|
        invariant p.asked == old(p.asked) + ShownAll(text[..at])
      {
        var end := at;
        while end < |text| && !IsControl(text[end])
          invariant at <= end <= |text|
          invariant forall i :: at <= i < end ==> !IsControl(text[i])
        {
          end := end + 1;
        }
        if end > at {
          p.Take(PrintStr(text[at..end]));
          assert Asked(PrintStr(text[at..end])) == ShownAll(text[at..end]);
          ShownJoin(text, at, end, old(p.asked));
        } else {
          end := at + 1;
          p.Take(Do(Execute(text[at])));
          assert [Execute(text[at])] == ShownAll(text[at..end]);
          ShownJoin(text, at, end, old(p.asked));
        }
        at := end;
      }
      assert text[..at] == text;
    }

    method EnterEscape()
      modifies this`state, this`intermediates, this`ignoring, this`param, this`params
      ensures Value() == ToEscape(old(Value()))
    {
      state := Escape;
      ResetParams();
    }

    /** Ground text up to the next escape, decoded in one piece. */
    method AdvanceGround(p: Performer, bytes: seq<Byte>) returns (taken: nat)
      requires Valid() && state == Ground && partial == [] && bytes != []
      modifies this, p
      ensures var r := Stretch(old(Value()), bytes);
              Value() == r.machine && taken == r.taken && p.asked == old(p.asked) + r.actions
    {
      hide EndsOk, Scan, Decode;
      var plain := FindEscape(bytes);
      var d := Decode(bytes[..plain]);
      GroundDispatch(p, d.chars);
      if d.stop.BadAt? {
        if d.stop.len == 1 && bytes[d.upTo] <= 0x9F {
          p.Take(Do(Execute(bytes[d.upTo])));
        } else {
          p.Take(Do(Print(REPLACEMENT)));
        }
        LongerJoin(old(p.asked), ShownAll(d.chars), [Malformed(bytes[d.upTo], d.stop.len)]);
        taken := d.upTo + d.stop.len;
      } else if plain < |bytes| {
        if d.stop.ShortAt? {
          p.Take(Do(Print(REPLACEMENT)));
        }
        LongerJoin(old(p.asked), ShownAll(d.chars), if d.stop.ShortAt? then [Print(REPLACEMENT)] else []);
        EnterEscape();
        taken := plain + 1;
      } else {
        partial := bytes[d.upTo..];
        taken := |bytes|;
      }
    }

    /** The longest run of device control payload in one call, then the byte that ends it. */
    method AdvanceDcsBulk(p: Performer, bytes: seq<Byte>) returns (taken: nat, ghost did: seq<Action>)
      requires Valid() && state == DcsPassthrough && bytes != []
      modifies this, p
      ensures Valid() && partial == [] && 0 < taken <= |bytes|
      ensures p.asked == old(p.asked) + did
      ensures Run(old(Value()), bytes) == Then(did, Run(Value(), bytes[taken..]))
    {
      hide Ok, StringStep, GroundStep, Step;
      ghost var m := Value();
      var end := PayloadEnd(bytes);
      PayloadRuns(m, bytes[..end], bytes[end..]);
      assert bytes[..end] + bytes[end..] == bytes;
      if end != 0 {
        p.Take(PutRun(bytes[..end]));
      }
      did := Puts(bytes[..end]);
      taken := end;
      if end < |bytes| {
        StringByteNext(m, bytes, end, did, m);
        ChangeState(p, bytes[end]);
        LongerJoin(old(p.asked), did, Step(m, bytes[end]).1);
        did := did + Step(m, bytes[end]).1;
        taken := end + 1;
      } else {
        NoPartialOutsideGround(m);
      }
    }

    /** The longest run of APC payload at once, then the byte that ends it. */
    method AdvanceApcBulk(p: Performer, bytes: seq<Byte>) returns (taken: nat, ghost did: seq<Action>)
      requires Valid() && state == ApcString && bytes != []
      modifies this, p
      ensures Valid() && partial == [] && 0 < taken <= |bytes|
      ensures p.asked == old(p.asked) + did
      ensures Run(old(Value()), bytes) == Then(did, Run(Value(), bytes[taken..]))
    {
      hide StringStep, GroundStep, Step, EndsOk;
      ghost var m := Value();
      var end := ApcEndAt(bytes);
      ApcRuns(m, bytes[..end], bytes[end..]);
      assert bytes[..end] + bytes[end..] == bytes;
      CollectApc(bytes[..end]);
      ThenNothing(Run(Value(), bytes[end..]));
      did := [];
      taken := end;
      if end < |bytes| {
        ghost var n := Value();
        StringByteNext(m, bytes, end, did, n);
        ChangeState(p, bytes[end]);
        LongerJoin(old(p.asked), did, Step(n, bytes[end]).1);
        did := did + Step(n, bytes[end]).1;
        taken := end + 1;
      }
    }

    /** As much of the payload as there is room for; more than that spoils the whole of it. */
    method CollectApc(more: seq<Byte>)
      requires |apc| <= MAX_APC_RAW
      modifies this`apc, this`apcOverflow
      ensures Value() == Collected(old(Value()), more)
    {
      var room := MAX_APC_RAW - |apc|;
      if |more| > room {
        apcOverflow := true;
      }
      apc := apc + more[..if |more| <= room then |more| else room];
    }

    /** One turn of the loop: a stretch of text, a run of a string, or one byte. */
    method AdvanceOnce(p: Performer, bytes: seq<Byte>) returns (taken: nat, ghost did: seq<Action>)
      requires Valid() && partial == [] && bytes != []
      modifies this, p
      ensures Valid() && 0 < taken <= |bytes| && (partial != [] ==> taken == |bytes|)
      ensures p.asked == old(p.asked) + did
      ensures Run(old(Value()), bytes) == Then(did, Run(Value(), bytes[taken..]))
    {
      hide Ok, StringStep, GroundStep, Step;
      ghost var was := Value();
      if state == Ground {
        StretchLeadsOn(was, bytes);
        taken := AdvanceGround(p, bytes);
        did := Stretch(was, bytes).actions;
      } else if state == DcsPassthrough {
        taken, did := AdvanceDcsBulk(p, bytes);
      } else if state == ApcString {
        taken, did := AdvanceApcBulk(p, bytes);
      } else {
        RunStep(was, bytes);
        StringStepHoldsNothing(was, bytes[0]);
        ChangeState(p, bytes[0]);
        did := Step(was, bytes[0]).1;
        taken := 1;
      }
    }

    /** Take in one read. Whatever is held back from the read before is finished first. */
    method Advance(p: Performer, bytes: seq<Byte>)
      requires Valid()
      modifies this, p
      ensures Valid()
      ensures var r := MachineLaws.Advance(old(Value()), bytes);
              Value() == r.0 && p.asked == old(p.asked) + r.1
    {
      hide Ok, StringStep, GroundStep, Step;
      var i := 0;
      ghost var m, did := Value(), [];
      ghost var target := MachineLaws.Advance(m, bytes);
      if partial != [] {
        PartialInGround(m);
        ResumeOk(m, bytes);
        i := AdvancePartialUtf8(p, bytes);
        did := Resume(m, bytes).actions;
        HeldMeansAllTaken(m, bytes);
      }
      assert bytes[0..] == bytes;
      ThenNothing(Run(Value(), bytes[i..]));
      while i != |bytes|
        invariant Valid() && i <= |bytes| && (partial != [] ==> i == |bytes|)
        invariant p.asked == old(p.asked) + did
        invariant Then(did, Run(Value(), bytes[i..])) == target
        decreases |bytes| - i
      {
        ghost var before := did;
        var rest := bytes[i..];
        var taken;
        ghost var now;
        taken, now := AdvanceOnce(p, rest);
        LongerJoin(old(p.asked), before, now);
        did := before + now;
        ThenThen(before, now, Run(Value(), rest[taken..]));
        assert rest[taken..] == bytes[i + taken..];
        i := i + taken;
      }
      assert bytes[i..] == [];
      assert did + [] == did;
    }
  }
}
