/** What control sequences mean (src/emu/parser/mod.rs), stated on the bytes that spell them: which one thing each
    asks for, with which numbers, intermediates, fields or payload, and that the parser is back on the ground. */
module ControlLaws {
  import opened Utf8
  import opened ByteMachine
  import opened MachineLaws

  type Digits = seq<Byte>

  predicate AllDigits(ds: Digits) {
    forall i :: 0 <= i < |ds| ==> 0x30 <= ds[i] <= 0x39
  }

  /** The number that decimal digits spell after `v`; no digits at all leave it, so that they spell 0. */
  function Value(v: nat, ds: Digits): nat
    requires AllDigits(ds)
    decreases |ds|
  {
    if ds == [] then v else Value(v * 10 + (ds[0] - 0x30), ds[1..])
  }

  /** A parameter as it is handed over: sixteen bits, and the highest of those for anything more. */
  function Capped(n: nat): nat {
    if n <= 0xFFFF then n else 0xFFFF
  }

  /** A parameter's subparameters, a colon between them. */
  function GroupBytes(g: seq<Digits>): seq<Byte> {
    if g == [] then [] else if |g| == 1 then g[0] else g[0] + [0x3A] + GroupBytes(g[1..])
  }

  /** Parameters, a semicolon between them. */
  function ParamBytes(gs: seq<seq<Digits>>): seq<Byte> {
    if gs == [] then [] else if |gs| == 1 then GroupBytes(gs[0]) else GroupBytes(gs[0]) + [0x3B] + ParamBytes(gs[1..])
  }

  predicate GroupOk(g: seq<Digits>) {
    g != [] && forall i :: 0 <= i < |g| ==> AllDigits(g[i])
  }

  function Numbers(g: seq<Digits>): (r: seq<nat>)
    requires GroupOk(g)
    ensures |r| == |g|
  {
    seq(|g|, i requires 0 <= i < |g| => Capped(Value(0, g[i])))
  }

  predicate GroupsOk(gs: seq<seq<Digits>>) {
    gs != [] && forall i :: 0 <= i < |gs| ==> GroupOk(gs[i])
  }

  function AllNumbers(gs: seq<seq<Digits>>): (r: seq<seq<nat>>)
    requires GroupsOk(gs)
    ensures |r| == |gs|
  {
    seq(|gs|, i requires 0 <= i < |gs| => Numbers(gs[i]))
  }

  /** How many numbers there are in all. */
  function Count(gs: seq<seq<Digits>>): nat {
    if gs == [] then 0 else |gs[0]| + Count(gs[1..])
  }

  // ----- reading on -----

  lemma RunEmpty(m: Machine)
    requires Ok(m)
    ensures Run(m, []) == (m, [])
  {
  }

  lemma RunCons(m: Machine, b: Byte, rest: seq<Byte>)
    requires Ok(m)
    ensures Run(m, [b] + rest) == Then(Step(m, b).1, Run(Step(m, b).0, rest))
  {
    assert ([b] + rest)[1..] == rest;
  }

  /** Bytes that ask for nothing, and those after them. */
  lemma RunQuiet(m: Machine, quiet: seq<Byte>, n: Machine, rest: seq<Byte>)
    requires Ok(m) && Ok(n) && Run(m, quiet) == (n, [])
    ensures Run(m, quiet + rest) == Run(n, rest)
  {
    RunConcat(m, quiet, rest);
    ThenNothing(Run(n, rest));
  }

  // ----- parameters, for either kind of sequence -----

  /** Where parameters are read, of a control sequence or of a device control string. */
  predicate AtParams(s: State, dcs: bool) {
    if dcs then s == DcsEntry || s == DcsParam else s == CsiEntry || s == CsiParam
  }

  /** A byte read among the parameters, and it is past the entry. */
  predicate Further(before: State, after: State, bs: seq<Byte>, dcs: bool) {
    var inside := if dcs then DcsParam else CsiParam;
    bs != [] || before == inside ==> after == inside
  }

  predicate BeforeFinal(s: State, dcs: bool) {
    AtParams(s, dcs) || s == if dcs then DcsIntermediate else CsiIntermediate
  }

  lemma OneDigit(m: Machine, b: Byte, dcs: bool, v: nat)
    requires Ok(m) && AtParams(m.state, dcs) && FlatLen(m.params) < 32 && m.param == Capped(v) && 0x30 <= b <= 0x39
    ensures var s := if dcs then DcsParam else CsiParam;
            Step(m, b) == (m.(param := Capped(v * 10 + (b - 0x30)), state := s), [])
  {
    hide FlatLen;
  }

  lemma {:induction false} DigitsRun(m: Machine, ds: Digits, dcs: bool, v: nat) returns (n: Machine)
    requires Ok(m) && AtParams(m.state, dcs) && FlatLen(m.params) < 32 && m.param == Capped(v) && AllDigits(ds)
    ensures Run(m, ds) == (n, []) && AtParams(n.state, dcs) && Further(m.state, n.state, ds, dcs)
    ensures n == m.(param := Capped(Value(v, ds)), state := n.state)
    decreases |ds|
  {
    hide Step, FlatLen, Ok;
    if ds == [] {
      RunEmpty(m);
      n := m;
    } else {
      OneDigit(m, ds[0], dcs, v);
      n := DigitsRun(Step(m, ds[0]).0, ds[1..], dcs, v * 10 + (ds[0] - 0x30));
      assert ds == [ds[0]] + ds[1..];
      RunCons(m, ds[0], ds[1..]);
      ThenNothing(Run(Step(m, ds[0]).0, ds[1..]));
    }
  }

  lemma OneColon(m: Machine, dcs: bool)
    requires Ok(m) && AtParams(m.state, dcs) && FlatLen(m.params) < 32
    ensures var s := if dcs then DcsParam else CsiParam;
            Step(m, 0x3A)
            == (m.(params := Params(m.params.groups, m.params.open + [m.param]), param := 0, state := s), [])
  {
  }

  lemma OneSemicolon(m: Machine, dcs: bool)
    requires Ok(m) && AtParams(m.state, dcs) && FlatLen(m.params) < 32
    ensures var s := if dcs then DcsParam else CsiParam;
            Step(m, 0x3B)
            == (m.(params := Params(m.params.groups + [m.params.open + [m.param]], []), param := 0, state := s), [])
  {
  }

  lemma NumbersCons(g: seq<Digits>)
    requires GroupOk(g)
    ensures g[1..] == [] ==> Numbers(g) == [Capped(Value(0, g[0]))]
    ensures g[1..] != [] ==> Numbers(g) == [Capped(Value(0, g[0]))] + Numbers(g[1..])
  {
    hide Value, Capped, AllDigits;
  }

  /** A group read but for its last number, which is still open to digits. */
  function GroupRead(m: Machine, g: seq<Digits>, s: State): Machine
    requires GroupOk(g)
  {
    m.(params := Params(m.params.groups, m.params.open + Numbers(g)[..|g| - 1]), param := Numbers(g)[|g| - 1],
        state := s)
  }

  lemma GroupReadOne(m: Machine, g: seq<Digits>, s: State)
    requires GroupOk(g) && |g| == 1
    ensures GroupRead(m, g, s) == m.(param := Capped(Value(0, g[0])), state := s)
  {
    hide AllDigits, Value, Capped;
    assert m.params.open + Numbers(g)[..0] == m.params.open;
  }

  lemma {:induction false} GroupRun(m: Machine, g: seq<Digits>, dcs: bool) returns (n: Machine)
    requires Ok(m) && AtParams(m.state, dcs) && m.param == 0 && GroupOk(g) && FlatLen(m.params) + |g| <= 32
    ensures Run(m, GroupBytes(g)) == (n, []) && AtParams(n.state, dcs) && Ok(n)
    ensures Further(m.state, n.state, GroupBytes(g), dcs)
    ensures n == GroupRead(m, g, n.state)
    decreases |g|
  {
    hide Step, Run, Ok, AllDigits, Value, Capped, Numbers, FlatLen, Further, AtParams, GroupRead;
    assert Capped(0) == 0 by { CappedNone(); }
    var first := DigitsRun(m, g[0], dcs, 0);
    if |g| == 1 {
      n := first;
      GroupReadOne(m, g, n.state);
    } else {
      var rest := g[1..];
      OneColon(first, dcs);
      var k := Step(first, 0x3A).0;
      FlatLenOpen(m.params, [first.param]);
      Onward(m.state, k.state, k.state, [], dcs);
      n := GroupRun(k, rest, dcs);
      Onward(m.state, k.state, n.state, GroupBytes(rest), dcs);
      ReadsOn(m, g[0], first, 0x3A, k, GroupBytes(rest));
      GroupReadOn(m, g, first, k, n);
    }
  }

  lemma GroupReadOn(m: Machine, g: seq<Digits>, first: Machine, k: Machine, n: Machine)
    requires GroupOk(g) && |g| > 1 && GroupOk(g[1..])
    requires first == m.(param := Capped(Value(0, g[0])), state := first.state)
    requires k == first.(params := Params(m.params.groups, m.params.open + [first.param]), param := 0, state := k.state)
    requires n == GroupRead(k, g[1..], n.state)
    ensures n == GroupRead(m, g, n.state)
  {
    hide AllDigits, Value, Capped, Numbers;
    NumbersCons(g);
    FrontOfMore(m.params.open, Capped(Value(0, g[0])), Numbers(g[1..]));
  }

  /** Past the entry, and from there on. */
  lemma Onward(before: State, inside: State, after: State, bs: seq<Byte>, dcs: bool)
    requires inside == if dcs then DcsParam else CsiParam
    requires after == inside || Further(inside, after, bs, dcs)
    ensures AtParams(after, dcs) && forall more :: Further(before, after, more, dcs)
  {
  }

  lemma CappedNone()
    ensures Capped(0) == 0
  {
  }

  /** Some quiet bytes, a quiet separator, and more. */
  lemma ReadsOn(m: Machine, quiet: seq<Byte>, first: Machine, b: Byte, k: Machine, rest: seq<Byte>)
    requires Ok(m) && Ok(first) && Ok(k) && Run(m, quiet) == (first, []) && Step(first, b) == (k, [])
    ensures Run(m, quiet + [b] + rest) == Run(k, rest)
  {
    hide Run, Step, Ok;
    RunQuiet(m, quiet, first, [b] + rest);
    RunCons(first, b, rest);
    ThenNothing(Run(k, rest));
    assert quiet + [b] + rest == quiet + ([b] + rest);
  }

  lemma FrontOfMore(open: seq<nat>, x: nat, rest: seq<nat>)
    requires rest != []
    ensures (open + [x]) + rest[..|rest| - 1] == open + ([x] + rest)[..|rest|]
    ensures ([x] + rest)[|rest|] == rest[|rest| - 1]
  {
  }

  lemma FlatLenIs(groups: seq<seq<nat>>, open: seq<nat>, more: seq<nat>)
    ensures FlatLen(Params(groups + [open + more], [])) == FlatLen(Params(groups, open)) + |more|
  {
    assert (groups + [open + more])[..|groups|] == groups;
  }

  /** All the parameters, up to the last, which the final byte closes. */
  lemma {:induction false} ParamsRun(m: Machine, gs: seq<seq<Digits>>, dcs: bool) returns (n: Machine)
    requires Ok(m) && AtParams(m.state, dcs) && m.param == 0 && m.params.open == []
    requires GroupsOk(gs) && FlatLen(m.params) + Count(gs) <= 32
    ensures Run(m, ParamBytes(gs)) == (n, []) && AtParams(n.state, dcs) && Ok(n)
    ensures Further(m.state, n.state, ParamBytes(gs), dcs)
    ensures n == m.(params := n.params, param := n.param, state := n.state) && FlatLen(n.params) < 32
    ensures n.params.groups + [n.params.open + [n.param]] == m.params.groups + AllNumbers(gs)
    decreases |gs|
  {
    hide Step, Run, Ok, GroupOk, GroupsOk, GroupBytes, ParamBytes, Count, FlatLen, Numbers, Further, AtParams, GroupRead,
         AllNumbers;
    ParamsFirst(gs);
    var g, rest := gs[0], gs[1..];
    AllNumbersFirst(gs);
    var first := GroupRun(m, g, dcs);
    GroupReadIs(m, g, first.state);
    if |gs| == 1 {
      n := first;
    } else {
      OneSemicolon(first, dcs);
      var k := Step(first, 0x3B).0;
      FlatLenIs(m.params.groups, [], Numbers(g));
      assert [] + Numbers(g) == Numbers(g);
      Onward(m.state, k.state, k.state, [], dcs);
      n := ParamsRun(k, rest, dcs);
      Onward(m.state, k.state, n.state, ParamBytes(rest), dcs);
      ReadsOn(m, GroupBytes(g), first, 0x3B, k, ParamBytes(rest));
    }
  }

  lemma AllNumbersFirst(gs: seq<seq<Digits>>)
    requires GroupsOk(gs)
    ensures gs[1..] == [] ==> AllNumbers(gs) == [Numbers(gs[0])]
    ensures gs[1..] != [] ==> AllNumbers(gs) == [Numbers(gs[0])] + AllNumbers(gs[1..])
  {
    hide Numbers, AllDigits;
  }

  lemma GroupReadIs(m: Machine, g: seq<Digits>, s: State)
    requires GroupOk(g) && m.params.open == []
    ensures var n := GroupRead(m, g, s);
            && n == m.(params := n.params, param := n.param, state := s) && n.params.groups == m.params.groups
            && n.params.open + [n.param] == Numbers(g)
            && FlatLen(n.params) == FlatLen(m.params) + |g| - 1
  {
    hide AllDigits, Value, Capped, FlatLen;
    var nums := Numbers(g);
    FlatLenOpen(m.params, nums[..|g| - 1]);
    assert m.params.open + nums[..|g| - 1] == nums[..|g| - 1] && nums[..|g| - 1] + [nums[|g| - 1]] == nums;
  }

  lemma ParamsFirst(gs: seq<seq<Digits>>)
    requires GroupsOk(gs)
    ensures gs != [] && GroupOk(gs[0]) && |gs[0]| >= 1 && (|gs| > 1 ==> GroupsOk(gs[1..]))
    ensures Count(gs) == |gs[0]| + if |gs| == 1 then 0 else Count(gs[1..])
    ensures ParamBytes(gs)
            == if |gs| == 1 then GroupBytes(gs[0]) else GroupBytes(gs[0]) + [0x3B] + ParamBytes(gs[1..])
  {
    hide AllDigits, GroupBytes;
  }

  lemma FlatLenOpen(p: Params, more: seq<nat>)
    ensures FlatLen(Params(p.groups, p.open + more)) == FlatLen(p) + |more|
  {
  }

  // ----- intermediates -----

  predicate AllIntermediates(bs: seq<Byte>) {
    forall i :: 0 <= i < |bs| ==> 0x20 <= bs[i] <= 0x2F
  }

  lemma OneIntermediate(m: Machine, b: Byte, dcs: bool)
    requires Ok(m) && BeforeFinal(m.state, dcs) && |m.intermediates| < 2 && 0x20 <= b <= 0x2F
    ensures var s := if dcs then DcsIntermediate else CsiIntermediate;
            Step(m, b) == (m.(intermediates := m.intermediates + [b], state := s), [])
  {
  }

  lemma {:induction false} IntermediatesRun(m: Machine, bs: seq<Byte>, dcs: bool) returns (n: Machine)
    requires Ok(m) && BeforeFinal(m.state, dcs) && AllIntermediates(bs) && |m.intermediates| + |bs| <= 2
    ensures Run(m, bs) == (n, []) && BeforeFinal(n.state, dcs) && Ok(n)
    ensures n.state == if bs == [] then m.state else if dcs then DcsIntermediate else CsiIntermediate
    ensures n == m.(intermediates := m.intermediates + bs, state := n.state)
    decreases |bs|
  {
    hide Step, Ok;
    if bs == [] {
      RunEmpty(m);
      n := m;
      assert m.intermediates + [] == m.intermediates;
    } else {
      OneIntermediate(m, bs[0], dcs);
      var k := Step(m, bs[0]).0;
      n := IntermediatesRun(k, bs[1..], dcs);
      assert bs == [bs[0]] + bs[1..];
      RunCons(m, bs[0], bs[1..]);
      ThenNothing(Run(k, bs[1..]));
      assert (m.intermediates + [bs[0]]) + bs[1..] == m.intermediates + bs;
    }
  }

  // ----- a whole sequence -----

  /** A machine that has read the introducer of a sequence. */
  function Introduced(m: Machine, dcs: bool): Machine {
    m.(state := if dcs then DcsEntry else CsiEntry, intermediates := [], ignoring := false, param := 0,
        params := NO_PARAMS)
  }

  /** Between sequences, no character cut off. */
  ghost predicate Idle(m: Machine) {
    Ok(m) && m.state == Ground && m.partial == []
  }

  lemma Introduces(m: Machine, dcs: bool, rest: seq<Byte>)
    requires Idle(m)
    ensures Ok(Introduced(m, dcs))
    ensures Run(m, [0x1B, if dcs then 0x50 else 0x5B] + rest) == Run(Introduced(m, dcs), rest)
  {
    hide Run, EndsOk;
    var b := if dcs then 0x50 else 0x5B;
    var k := Step(m, 0x1B).0;
    assert [0x1B, b] + rest == [0x1B] + ([b] + rest);
    assert Step(m, 0x1B) == (k, []);
    assert Step(k, b) == (Introduced(m, dcs), []);
    RunCons(m, 0x1B, [b] + rest);
    RunCons(k, b, rest);
    ThenNothing(Run(k, [b] + rest));
    ThenNothing(Run(Introduced(m, dcs), rest));
  }

  /** The private marker a sequence may start with; it counts as its first intermediate. */
  predicate MarkerOk(marker: seq<Byte>) {
    |marker| <= 1 && (marker != [] ==> 0x3C <= marker[0] <= 0x3F)
  }

  lemma MarkerRuns(m: Machine, marker: seq<Byte>, dcs: bool) returns (n: Machine)
    requires Ok(m) && m == Introduced(m, dcs) && MarkerOk(marker)
    ensures Run(m, marker) == (n, []) && AtParams(n.state, dcs) && Ok(n)
    ensures n == m.(intermediates := marker, state := n.state) && Further(m.state, n.state, marker, dcs)
  {
    hide Run, EndsOk;
    if marker == [] {
      RunEmpty(m);
      n := m;
    } else {
      n := Step(m, marker[0]).0;
      assert marker == [marker[0]] + [];
      assert Step(m, marker[0]) == (n, []);
      RunCons(m, marker[0], []);
      RunEmpty(n);
      ThenNothing(Run(n, []));
    }
  }

  /** The bytes between the introducer and the final byte. */
  function Body(marker: seq<Byte>, gs: seq<seq<Digits>>, inters: seq<Byte>): seq<Byte> {
    marker + ParamBytes(gs) + inters
  }

  predicate BodyOk(marker: seq<Byte>, gs: seq<seq<Digits>>, inters: seq<Byte>) {
    && MarkerOk(marker) && GroupsOk(gs) && AllIntermediates(inters)
    && Count(gs) <= 32 && |marker| + |inters| <= 2
  }

  lemma BodyRuns(m: Machine, marker: seq<Byte>, gs: seq<seq<Digits>>, inters: seq<Byte>, dcs: bool) returns (n: Machine)
    requires Ok(m) && m == Introduced(m, dcs) && BodyOk(marker, gs, inters)
    ensures Run(m, Body(marker, gs, inters)) == (n, []) && BeforeFinal(n.state, dcs) && Ok(n)
    ensures inters != [] ==> n.state == if dcs then DcsIntermediate else CsiIntermediate
    ensures inters == [] && Body(marker, gs, inters) != [] ==> n.state == if dcs then DcsParam else CsiParam
    ensures n == m.(intermediates := marker + inters, params := n.params, param := n.param, state := n.state)
    ensures FlatLen(n.params) < 32 && n.params.groups + [n.params.open + [n.param]] == AllNumbers(gs)
  {
    hide Run, Ok, GroupsOk, ParamBytes, AllNumbers, AllIntermediates, MarkerOk;
    var a := MarkerRuns(m, marker, dcs);
    assert FlatLen(a.params) == 0;
    var b := ParamsRun(a, gs, dcs);
    n := IntermediatesRun(b, inters, dcs);
    assert Body(marker, gs, inters) == marker + (ParamBytes(gs) + inters);
    RunQuiet(m, marker, a, ParamBytes(gs) + inters);
    RunQuiet(a, ParamBytes(gs), b, inters);
    assert [] + AllNumbers(gs) == AllNumbers(gs);
  }

  lemma FinalStep(m: Machine, final: Byte, dcs: bool, groups: seq<seq<nat>>)
    requires Ok(m) && BeforeFinal(m.state, dcs) && !m.ignoring && 0x40 <= final <= 0x7E
    requires FlatLen(m.params) < 32 && m.params.groups + [m.params.open + [m.param]] == groups
    ensures var (n, actions) := Step(m, final);
            && n == m.(params := Params(groups, []), state := if dcs then DcsPassthrough else Ground)
            && actions == [if dcs then Hook(groups, m.intermediates, false, final)
                           else CsiDispatch(groups, m.intermediates, false, final)]
  {
    hide FlatLen, EndsOk;
  }

  lemma SequenceRuns(m: Machine, marker: seq<Byte>, gs: seq<seq<Digits>>, inters: seq<Byte>, final: Byte, dcs: bool)
    returns (n: Machine)
    requires Idle(m) && BodyOk(marker, gs, inters) && 0x40 <= final <= 0x7E
    ensures Run(m, [0x1B, if dcs then 0x50 else 0x5B] + Body(marker, gs, inters) + [final])
            == (n, [if dcs then Hook(AllNumbers(gs), marker + inters, false, final)
                    else CsiDispatch(AllNumbers(gs), marker + inters, false, final)])
    ensures Ok(n) && n.state == (if dcs then DcsPassthrough else Ground) && n.partial == []
  {
    hide Run, Body, AllNumbers, MarkerOk, AllIntermediates, GroupsOk, FlatLen, EndsOk;
    var k := Introduced(m, dcs);
    var head, body := [0x1B, if dcs then 0x50 else 0x5B], Body(marker, gs, inters);
    Introduces(m, dcs, body + [final]);
    assert head + body + [final] == head + (body + [final]);
    var ready := BodyRuns(k, marker, gs, inters, dcs);
    RunQuiet(k, body, ready, [final]);
    FinalStep(ready, final, dcs, AllNumbers(gs));
    n := Step(ready, final).0;
    assert [final] == [final] + [];
    RunCons(ready, final, []);
    RunEmpty(n);
    assert Step(ready, final).1 + [] == Step(ready, final).1;
  }

  /** A control sequence asks for one dispatch, of the numbers as they are written. */
  lemma CsiSequence(m: Machine, marker: seq<Byte>, gs: seq<seq<Digits>>, inters: seq<Byte>, final: Byte)
    requires Idle(m) && BodyOk(marker, gs, inters) && 0x40 <= final <= 0x7E
    ensures var (n, actions) := Run(m, [0x1B, 0x5B] + Body(marker, gs, inters) + [final]);
            && Idle(n)
            && actions == [CsiDispatch(AllNumbers(gs), marker + inters, false, final)]
  {
    hide Run, Body, AllNumbers, Ok;
    var n := SequenceRuns(m, marker, gs, inters, final, false);
  }

  // ----- escapes -----

  /** An escape sequence asks for one dispatch. Six finals introduce something longer, but only straight after the
      escape. */
  lemma EscSequence(m: Machine, inters: seq<Byte>, final: Byte)
    requires Idle(m) && AllIntermediates(inters) && |inters| <= 2 && 0x30 <= final <= 0x7E
    requires inters == [] ==> final !in [0x50, 0x58, 0x5B, 0x5D, 0x5E, 0x5F]
    ensures var (n, actions) := Run(m, [0x1B] + inters + [final]);
            Idle(n) && actions == [EscDispatch(inters, false, final)]
  {
    hide Run, Ok, Step, AllIntermediates;
    var k := Escapes(m);
    assert [0x1B] + inters + [final] == [0x1B] + (inters + [final]);
    RunCons(m, 0x1B, inters + [final]);
    ThenNothing(Run(k, inters + [final]));
    var n := EscIntermediatesRun(k, inters);
    RunQuiet(k, inters, n, [final]);
    assert [] + inters == inters;
    EscFinal(n, final);
  }

  lemma Escapes(m: Machine) returns (k: Machine)
    requires Idle(m)
    ensures Step(m, 0x1B) == (k, []) && Ok(k) && k.state == Escape && k.intermediates == [] && !k.ignoring
                && k.partial == []
  {
    hide EndsOk;
    k := Step(m, 0x1B).0;
  }

  lemma EscFinal(m: Machine, final: Byte)
    requires Ok(m) && (m.state == Escape || m.state == EscapeIntermediate) && m.partial == [] && !m.ignoring
    requires 0x30 <= final <= 0x7E && (m.state == Escape ==> final !in [0x50, 0x58, 0x5B, 0x5D, 0x5E, 0x5F])
    ensures var (n, actions) := Run(m, [final]);
            Idle(n) && actions == [EscDispatch(m.intermediates, false, final)]
  {
    hide Run, EndsOk;
    LastStep(m, final);
  }

  /** The last byte of some. */
  lemma LastStep(m: Machine, b: Byte)
    requires Ok(m)
    ensures Run(m, [b]) == Step(m, b)
  {
    hide Run, Step, Ok;
    assert [b] == [b] + [];
    RunCons(m, b, []);
    RunEmpty(Step(m, b).0);
    assert Step(m, b).1 + [] == Step(m, b).1;
  }

  lemma {:induction false} EscIntermediatesRun(m: Machine, bs: seq<Byte>) returns (n: Machine)
    requires Ok(m) && (m.state == Escape || m.state == EscapeIntermediate)
    requires AllIntermediates(bs) && |m.intermediates| + |bs| <= 2
    ensures Run(m, bs) == (n, []) && Ok(n)
    ensures n == m.(intermediates := m.intermediates + bs, state := if bs == [] then m.state else EscapeIntermediate)
    decreases |bs|
  {
    hide Ok, Run;
    if bs == [] {
      RunEmpty(m);
      n := m;
      assert m.intermediates + [] == m.intermediates;
    } else {
      var k := Step(m, bs[0]).0;
      assert Step(m, bs[0]) == (m.(intermediates := m.intermediates + [bs[0]], state := EscapeIntermediate), []);
      n := EscIntermediatesRun(k, bs[1..]);
      assert bs == [bs[0]] + bs[1..];
      RunCons(m, bs[0], bs[1..]);
      ThenNothing(Run(k, bs[1..]));
      assert (m.intermediates + [bs[0]]) + bs[1..] == m.intermediates + bs;
    }
  }

  /** How a string ends: by the eight-bit terminator, or by the escape that starts a new sequence, which for the
      seven-bit terminator is an empty one. */
  lemma BackslashEnds(m: Machine)
    requires Ok(m) && m.state == Escape && m.intermediates == [] && !m.ignoring && m.partial == []
    ensures var (n, actions) := Run(m, [0x5C]);
            Idle(n) && actions == [EscDispatch([], false, 0x5C)]
  {
    hide EndsOk;
    LastStep(m, 0x5C);
  }

  // ----- device control strings -----

  /** Bytes that end no device control string and no application command. */
  predicate GoesOn(b: Byte) {
    b !in [0x18, 0x1A, 0x1B, 0x9C]
  }

  /** What a device control string hands over: bytes below DEL. */
  function Handed(data: seq<Byte>): seq<Action> {
    if data == [] then []
    else (if data[0] < 0x7F then [Put(data[0])] else []) + Handed(data[1..])
  }

  lemma {:induction false} DataRuns(m: Machine, data: seq<Byte>)
    requires Ok(m) && m.state == DcsPassthrough && forall i :: 0 <= i < |data| ==> GoesOn(data[i])
    ensures Run(m, data) == (m, Handed(data))
    decreases |data|
  {
    hide Ok, Run;
    if data == [] {
      RunEmpty(m);
    } else {
      assert Step(m, data[0]) == (m, if data[0] < 0x7F then [Put(data[0])] else []);
      DataRuns(m, data[1..]);
      assert data == [data[0]] + data[1..];
      RunCons(m, data[0], data[1..]);
    }
  }

  /** A device control string is hooked with its numbers, handed its data and unhooked. */
  lemma DcsSequence(m: Machine, marker: seq<Byte>, gs: seq<seq<Digits>>, inters: seq<Byte>, final: Byte,
                    data: seq<Byte>, long: bool)
    requires Idle(m) && BodyOk(marker, gs, inters) && 0x40 <= final <= 0x7E
    requires forall i :: 0 <= i < |data| ==> GoesOn(data[i])
    ensures var (n, actions) := Run(m, [0x1B, 0x50] + Body(marker, gs, inters) + [final]
                                       + data + if long then [0x1B, 0x5C] else [0x9C]);
            && Idle(n)
            && actions == [Hook(AllNumbers(gs), marker + inters, false, final)] + Handed(data) + [Unhook]
                          + if long then [EscDispatch([], false, 0x5C)] else []
  {
    hide Run, Body, AllNumbers, MarkerOk, AllIntermediates, GroupsOk, FlatLen, EndsOk, Handed;
    var head, end := [0x1B, 0x50] + Body(marker, gs, inters) + [final], if long then [0x1B, 0x5C] else [0x9C];
    var k := SequenceRuns(m, marker, gs, inters, final, true);
    RunConcat(m, head, data + end);
    assert head + data + end == head + (data + end);
    RunConcat(k, data, end);
    DataRuns(k, data);
    Unhooks(k, long);
  }

  lemma Unhooks(m: Machine, long: bool)
    requires Ok(m) && m.state == DcsPassthrough && m.partial == []
    ensures var (n, actions) := Run(m, if long then [0x1B, 0x5C] else [0x9C]);
            Idle(n) && actions == [Unhook] + if long then [EscDispatch([], false, 0x5C)] else []
  {
    hide Run, EndsOk;
    if long {
      var k := Step(m, 0x1B).0;
      assert [0x1B, 0x5C] == [0x1B] + [0x5C];
      RunCons(m, 0x1B, [0x5C]);
      BackslashEnds(k);
    } else {
      LastStep(m, 0x9C);
    }
  }

  // ----- application program commands -----

  lemma {:induction false} PayloadCollects(m: Machine, data: seq<Byte>) returns (n: Machine)
    requires Ok(m) && m.state == ApcString && !m.apcOverflow && forall i :: 0 <= i < |data| ==> GoesOn(data[i])
    ensures Run(m, data) == (n, []) && Ok(n) && n == m.(apc := n.apc, apcOverflow := n.apcOverflow)
    ensures n.apcOverflow == (|m.apc| + |data| > 0x80_0000)
    ensures !n.apcOverflow ==> n.apc == m.apc + data
    decreases |data|
  {
    hide EndsOk, Run;
    if data == [] {
      RunEmpty(m);
      n := m;
      assert m.apc + [] == m.apc;
    } else {
      var k := Step(m, data[0]).0;
      assert Step(m, data[0]) == (k, []);
      if k.apcOverflow {
        n := OverflowStays(k, data[1..]);
      } else {
        n := PayloadCollects(k, data[1..]);
        assert (m.apc + [data[0]]) + data[1..] == m.apc + data;
      }
      assert data == [data[0]] + data[1..];
      RunCons(m, data[0], data[1..]);
      ThenNothing(Run(k, data[1..]));
    }
  }

  lemma {:induction false} OverflowStays(m: Machine, data: seq<Byte>) returns (n: Machine)
    requires Ok(m) && m.state == ApcString && m.apcOverflow && forall i :: 0 <= i < |data| ==> GoesOn(data[i])
    ensures Run(m, data) == (n, []) && Ok(n) && n == m.(apc := n.apc) && n.apcOverflow
    decreases |data|
  {
    hide EndsOk, Run;
    if data == [] {
      RunEmpty(m);
      n := m;
    } else {
      var k := Step(m, data[0]).0;
      assert Step(m, data[0]) == (k, []);
      n := OverflowStays(k, data[1..]);
      assert data == [data[0]] + data[1..];
      RunCons(m, data[0], data[1..]);
      ThenNothing(Run(k, data[1..]));
    }
  }

  /** An application program command is handed over whole, or not at all if it is too long to keep. */
  lemma ApcSequence(m: Machine, payload: seq<Byte>, long: bool)
    requires Idle(m) && forall i :: 0 <= i < |payload| ==> GoesOn(payload[i])
    ensures var (n, actions) := Run(m, [0x1B, 0x5F] + payload + if long then [0x1B, 0x5C] else [0x9C]);
            && Idle(n)
            && actions == (if |payload| <= 0x80_0000 then [ApcDispatch(payload)] else [])
                          + if long then [EscDispatch([], false, 0x5C)] else []
  {
    hide Run, EndsOk;
    var end := if long then [0x1B, 0x5C] else [0x9C];
    var a := Step(m, 0x1B).0;
    var b := Step(a, 0x5F).0;
    assert Step(m, 0x1B) == (a, []) && Step(a, 0x5F) == (b, []) && b.state == ApcString && b.apc == []
        && !b.apcOverflow;
    assert [0x1B, 0x5F] + payload + end == [0x1B] + ([0x5F] + (payload + end));
    RunCons(m, 0x1B, [0x5F] + (payload + end));
    RunCons(a, 0x5F, payload + end);
    ThenNothing(Run(b, payload + end));
    ThenNothing(Run(a, [0x5F] + (payload + end)));
    var n := PayloadCollects(b, payload);
    assert [] + payload == payload;
    RunQuiet(b, payload, n, end);
    ApcEnds(n, long);
  }

  lemma ApcEnds(m: Machine, long: bool)
    requires Ok(m) && m.state == ApcString && m.partial == []
    ensures var (n, actions) := Run(m, if long then [0x1B, 0x5C] else [0x9C]);
            && Idle(n)
            && actions == (if m.apcOverflow then [] else [ApcDispatch(m.apc)])
                          + if long then [EscDispatch([], false, 0x5C)] else []
  {
    hide Run, Ok, Step;
    ApcEndStep(m, if long then 0x1B else 0x9C);
    if long {
      var k := Step(m, 0x1B).0;
      assert [0x1B, 0x5C] == [0x1B] + [0x5C];
      RunCons(m, 0x1B, [0x5C]);
      BackslashEnds(k);
    } else {
      LastStep(m, 0x9C);
    }
  }

  lemma ApcEndStep(m: Machine, b: Byte)
    requires Ok(m) && m.state == ApcString && m.partial == [] && (b == 0x1B || b == 0x9C)
    ensures var (n, actions) := Step(m, b);
            && Ok(n) && n.partial == [] && n.state == (if b == 0x9C then Ground else Escape)
            && (b == 0x1B ==> n.intermediates == [] && !n.ignoring)
            && actions == if m.apcOverflow then [] else [ApcDispatch(m.apc)]
  {
    hide EndsOk;
  }

  // ----- operating system commands -----

  /** What a field of an operating system command may hold. */
  predicate FieldByte(b: Byte) {
    b >= 0x20 && b != 0x3B
  }

  predicate FieldsOk(fields: seq<seq<Byte>>) {
    fields != [] && forall i, j :: 0 <= i < |fields| && 0 <= j < |fields[i]| ==> FieldByte(fields[i][j])
  }

  /** The fields, a semicolon between them. */
  function FieldBytes(fields: seq<seq<Byte>>): seq<Byte> {
    if fields == [] then [] else if |fields| == 1 then fields[0] else fields[0] + [0x3B] + FieldBytes(fields[1..])
  }

  function Flat(fields: seq<seq<Byte>>): seq<Byte> {
    if fields == [] then [] else fields[0] + Flat(fields[1..])
  }

  function FieldsLen(fields: seq<seq<Byte>>): nat {
    |Flat(fields)|
  }

  /** What has been collected stands for the fields `done`, all but the last of them ended; past the sixteenth
      nothing ends any more. */
  ghost predicate Holds(m: Machine, done: seq<seq<Byte>>) {
    && done != [] && m.state == OscString && m.partial == []
    && m.oscOverflow == (FieldsLen(done) > 0x80_0000)
    && (!m.oscOverflow ==>
          && m.osc == Flat(done)
          && |m.oscEnds| == Min(|done| - 1, 16)
          && forall i :: 0 <= i < |m.oscEnds| ==> m.oscEnds[i] == |Flat(done[..i + 1])|)
  }

  function Min(a: int, b: int): int {
    if a <= b then a else b
  }

  lemma FlatCons(first: seq<Byte>, rest: seq<seq<Byte>>)
    ensures Flat([first] + rest) == first + Flat(rest)
  {
    assert ([first] + rest)[1..] == rest;
  }

  lemma {:induction false} FlatConcat(a: seq<seq<Byte>>, b: seq<seq<Byte>>)
    ensures Flat(a + b) == Flat(a) + Flat(b)
  {
    hide Flat;
    if a == [] {
      assert a + b == b;
      EmptyField();
    } else {
      FlatConcat(a[1..], b);
      assert a + b == [a[0]] + (a[1..] + b) && a == [a[0]] + a[1..];
      FlatCons(a[0], a[1..] + b);
      FlatCons(a[0], a[1..]);
    }
  }

  lemma FlatOne(field: seq<Byte>)
    ensures Flat([field]) == field && FieldsLen([field]) == |field|
  {
    var fields := [field];
    assert fields[1..] == [] && field + [] == field;
  }

  /** The fields with one more byte on the last. */
  function Longer(done: seq<seq<Byte>>, b: Byte): seq<seq<Byte>>
    requires done != []
  {
    done[..|done| - 1] + [done[|done| - 1] + [b]]
  }

  lemma FlatLonger(done: seq<seq<Byte>>, b: Byte)
    requires done != []
    ensures Flat(Longer(done, b)) == Flat(done) + [b]
  {
    hide Flat;
    var front, last := done[..|done| - 1], done[|done| - 1];
    FlatConcat(front, [last + [b]]);
    FlatConcat(front, [last]);
    assert front + [last] == done;
    FlatOne(last);
    FlatOne(last + [b]);
    assert Flat(front) + (last + [b]) == (Flat(front) + last) + [b];
  }

  lemma OneFieldByte(m: Machine, done: seq<seq<Byte>>, b: Byte)
    requires Ok(m) && Holds(m, done) && FieldByte(b)
    ensures var (n, actions) := Step(m, b);
            actions == [] && Holds(n, Longer(done, b)) && n == m.(osc := n.osc, oscOverflow := n.oscOverflow)
  {
    hide Flat, EndsOk;
    FlatLonger(done, b);
    var n := Step(m, b).0;
    assert Step(m, b) == (OscPut(m, b), []);
    if !n.oscOverflow {
      forall i | 0 <= i < |n.oscEnds| ensures n.oscEnds[i] == |Flat(Longer(done, b)[..i + 1])| {
        assert Longer(done, b)[..i + 1] == done[..i + 1];
      }
    }
  }

  lemma OneSeparator(m: Machine, done: seq<seq<Byte>>)
    requires Ok(m) && Holds(m, done)
    ensures var (n, actions) := Step(m, 0x3B);
            actions == [] && Holds(n, done + [[]]) && n == m.(oscEnds := n.oscEnds)
  {
    hide Flat, EndsOk;
    FlatConcat(done, [[]]);
    EmptyField();
    assert Flat(done) + [] == Flat(done);
    var n := Step(m, 0x3B).0;
    assert Step(m, 0x3B) == (OscSeparate(m), []);
    if !n.oscOverflow {
      assert done[..|done|] == done;
      forall i | 0 <= i < |n.oscEnds| ensures n.oscEnds[i] == |Flat((done + [[]])[..i + 1])| {
        assert (done + [[]])[..i + 1] == done[..i + 1];
      }
    }
  }

  lemma EmptyField()
    ensures Flat([[]]) == [] && FieldsLen([[]]) == 0 && Flat([]) == []
  {
    assert Flat([[]]) == [] + Flat([]);
  }

  lemma {:induction false} FieldRuns(m: Machine, done: seq<seq<Byte>>, field: seq<Byte>) returns (n: Machine)
    requires Ok(m) && Holds(m, done) && forall j :: 0 <= j < |field| ==> FieldByte(field[j])
    ensures Run(m, field) == (n, []) && Ok(n)
    ensures Holds(n, done[..|done| - 1] + [done[|done| - 1] + field])
    decreases |field|
  {
    hide Step, Ok, Holds;
    assert done != [] by { HoldsSome(m, done); }
    if field == [] {
      RunEmpty(m);
      n := m;
      var last := done[|done| - 1];
      assert last + [] == last && done[..|done| - 1] + [last] == done;
    } else {
      OneFieldByte(m, done, field[0]);
      var k, more := Step(m, field[0]).0, Longer(done, field[0]);
      n := FieldRuns(k, more, field[1..]);
      assert field == [field[0]] + field[1..];
      RunCons(m, field[0], field[1..]);
      ThenNothing(Run(k, field[1..]));
      assert (done[|done| - 1] + [field[0]]) + field[1..] == done[|done| - 1] + field;
      assert more[..|more| - 1] + [more[|more| - 1] + field[1..]] == done[..|done| - 1] + [done[|done| - 1] + field];
    }
  }

  lemma HoldsSome(m: Machine, done: seq<seq<Byte>>)
    requires Holds(m, done)
    ensures done != []
  {
  }

  lemma {:induction false} FieldsRun(m: Machine, done: seq<seq<Byte>>, fields: seq<seq<Byte>>) returns (n: Machine)
    requires Ok(m) && Holds(m, done + [[]]) && FieldsOk(fields)
    ensures Run(m, FieldBytes(fields)) == (n, []) && Ok(n) && Holds(n, done + fields)
    decreases |fields|
  {
    hide Step, Ok, Holds, Run;
    var field, rest := fields[0], fields[1..];
    var k := FieldRuns(m, done + [[]], field);
    assert (done + [[]])[..|done|] == done && [] + field == field;
    if |fields| == 1 {
      n := k;
      assert fields == [field];
    } else {
      OneSeparator(k, done + [field]);
      var next := Step(k, 0x3B).0;
      n := FieldsRun(next, done + [field], rest);
      assert (done + [field]) + rest == done + fields;
      ReadsOn(m, field, k, 0x3B, next, FieldBytes(rest));
    }
  }

  /** The fields up to the sixteenth, which is as many as are told apart. */
  function Kept(fields: seq<seq<Byte>>): seq<seq<Byte>> {
    if |fields| <= 16 then fields else fields[..16]
  }

  lemma FlatSlice(fields: seq<seq<Byte>>, i: nat)
    requires i < |fields|
    ensures |Flat(fields[..i])| <= |Flat(fields[..i + 1])| <= |Flat(fields)|
    ensures Flat(fields)[|Flat(fields[..i])|..|Flat(fields[..i + 1])|] == fields[i]
  {
    assert fields == fields[..i] + [fields[i]] + fields[i + 1..] && fields[..i + 1] == fields[..i] + [fields[i]];
    FlatConcat(fields[..i] + [fields[i]], fields[i + 1..]);
    FlatConcat(fields[..i], [fields[i]]);
    FlatOne(fields[i]);
  }

  lemma FieldsAre(osc: seq<Byte>, ends: seq<nat>, fields: seq<seq<Byte>>)
    requires osc == Flat(fields) && EndsOk(ends, |osc|) && |ends| == Min(|fields|, 16)
    requires forall i :: 0 <= i < |ends| ==> ends[i] == |Flat(fields[..i + 1])|
    ensures OscFields(osc, ends) == Kept(fields)
  {
    hide Flat, EndsOk;
    forall i | 0 <= i < |ends| ensures OscFields(osc, ends)[i] == fields[i] {
      FlatSlice(fields, i);
      assert fields[..0] == [];
      EmptyField();
    }
  }

  lemma EndHolds(m: Machine, fields: seq<seq<Byte>>)
    requires Ok(m) && Holds(m, fields) && !m.oscOverflow
    ensures OscFields(OscSeparate(m).osc, OscSeparate(m).oscEnds) == Kept(fields)
  {
    hide Flat, FieldsLen, OscFields, Kept;
    var n := OscSeparate(m);
    assert fields[..|fields|] == fields;
    assert |n.oscEnds| == Min(|fields|, 16);
    FieldsAre(n.osc, n.oscEnds, fields);
  }

  lemma OscEnds(m: Machine, fields: seq<seq<Byte>>, bell: bool)
    requires Ok(m) && Holds(m, fields)
    ensures var (n, actions) := Run(m, if bell then [0x07] else [0x1B, 0x5C]);
            && Idle(n)
            && actions == (if FieldsLen(fields) <= 0x80_0000 then [OscDispatch(Kept(fields), bell)] else [])
                          + if bell then [] else [EscDispatch([], false, 0x5C)]
  {
    hide Run, Step, Ok, Holds, FieldsLen, Kept;
    if bell {
      OscEndStep(m, fields, 0x07);
      LastStep(m, 0x07);
    } else {
      OscEndStep(m, fields, 0x1B);
      var k := Step(m, 0x1B).0;
      assert [0x1B, 0x5C] == [0x1B] + [0x5C];
      RunCons(m, 0x1B, [0x5C]);
      BackslashEnds(k);
    }
  }

  lemma OscEndStep(m: Machine, fields: seq<seq<Byte>>, b: Byte)
    requires Ok(m) && Holds(m, fields) && (b == 0x07 || b == 0x1B)
    ensures var (n, actions) := Step(m, b);
            && Ok(n) && n.partial == [] && n.state == (if b == 0x07 then Ground else Escape)
            && (b == 0x1B ==> n.intermediates == [] && !n.ignoring)
            && actions == if FieldsLen(fields) <= 0x80_0000 then [OscDispatch(Kept(fields), b == 0x07)] else []
  {
    hide EndsOk, FieldsLen, OscFields, Kept;
    if !m.oscOverflow {
      EndHolds(m, fields);
    }
  }

  /** An operating system command is handed over field by field, or not at all if it is too long to keep. */
  lemma OscSequence(m: Machine, fields: seq<seq<Byte>>, bell: bool)
    requires Idle(m) && FieldsOk(fields)
    ensures var (n, actions) := Run(m, [0x1B, 0x5D] + FieldBytes(fields) + if bell then [0x07] else [0x1B, 0x5C]);
            && Idle(n)
            && actions == (if FieldsLen(fields) <= 0x80_0000 then [OscDispatch(Kept(fields), bell)] else [])
                          + if bell then [] else [EscDispatch([], false, 0x5C)]
  {
    hide Run, Ok, Step, Holds, FieldsOk, FieldBytes, FieldsLen, Kept;
    var end := if bell then [0x07] else [0x1B, 0x5C];
    var a := Escapes(m);
    var b := OscStarts(a);
    assert [0x1B, 0x5D] + FieldBytes(fields) + end == [0x1B] + ([0x5D] + (FieldBytes(fields) + end));
    RunCons(m, 0x1B, [0x5D] + (FieldBytes(fields) + end));
    RunCons(a, 0x5D, FieldBytes(fields) + end);
    ThenNothing(Run(b, FieldBytes(fields) + end));
    ThenNothing(Run(a, [0x5D] + (FieldBytes(fields) + end)));
    var n := FieldsRun(b, [], fields);
    assert [] + fields == fields;
    RunQuiet(b, FieldBytes(fields), n, end);
    OscEnds(n, fields, bell);
  }

  lemma OscStarts(m: Machine) returns (n: Machine)
    requires Ok(m) && m.state == Escape && m.partial == []
    ensures Step(m, 0x5D) == (n, []) && Ok(n) && Holds(n, [] + [[]])
  {
    hide Flat, EndsOk;
    assert Transition(m.state, 0x5D) == (DoOscStart, OscString);
    n := Step(m, 0x5D).0;
    EmptyField();
    var none: seq<seq<Byte>> := [];
    assert none + [[]] == [[]];
  }

  // ----- what is not well formed, and what is cut short -----

  /** Bytes of parameters where there can be none any more. */
  predicate Stray(marker: seq<Byte>, gs: seq<seq<Digits>>, inters: seq<Byte>, b: Byte) {
    if inters == [] then 0x3C <= b <= 0x3F && Body(marker, gs, inters) != [] else 0x30 <= b <= 0x3F
  }

  /** A control sequence that goes wrong asks for nothing, and is over at its final byte. */
  lemma CsiIgnored(m: Machine, marker: seq<Byte>, gs: seq<seq<Digits>>, inters: seq<Byte>, stray: Byte, more: seq<Byte>,
                   final: Byte)
    requires Idle(m) && BodyOk(marker, gs, inters) && Stray(marker, gs, inters, stray) && 0x40 <= final <= 0x7E
    requires forall i :: 0 <= i < |more| ==> 0x20 <= more[i] <= 0x3F
    ensures var (n, actions) := Run(m, [0x1B, 0x5B] + Body(marker, gs, inters) + [stray] + more + [final]);
            Idle(n) && actions == []
  {
    hide Run, Body, GroupsOk, Ok;
    var k, body := Introduced(m, false), Body(marker, gs, inters);
    assert [0x1B, 0x5B] + body + [stray] + more + [final] == [0x1B, 0x5B] + (body + ([stray] + (more + [final])));
    Introduces(m, false, body + ([stray] + (more + [final])));
    var ready := BodyRuns(k, marker, gs, inters, false);
    RunQuiet(k, body, ready, [stray] + (more + [final]));
    StrayStep(ready, stray);
    RunCons(ready, stray, more + [final]);
    ThenNothing(Run(Step(ready, stray).0, more + [final]));
    IgnoredToItsEnd(Step(ready, stray).0, more, final);
  }

  lemma StrayStep(m: Machine, stray: Byte)
    requires Ok(m) && (m.state == CsiParam || m.state == CsiIntermediate)
    requires (if m.state == CsiParam then 0x3C else 0x30) <= stray <= 0x3F
    ensures Step(m, stray) == (m.(state := CsiIgnore), [])
  {
  }

  lemma {:induction false} IgnoredToItsEnd(m: Machine, more: seq<Byte>, final: Byte)
    requires Ok(m) && m.state == CsiIgnore && m.partial == [] && 0x40 <= final <= 0x7E
    requires forall i :: 0 <= i < |more| ==> 0x20 <= more[i] <= 0x3F
    ensures Idle(Run(m, more + [final]).0) && Run(m, more + [final]).1 == []
    decreases |more|
  {
    hide Run, EndsOk;
    if more == [] {
      assert more + [final] == [final];
      LastStep(m, final);
    } else {
      assert Step(m, more[0]) == (m, []);
      assert more + [final] == [more[0]] + (more[1..] + [final]);
      RunCons(m, more[0], more[1..] + [final]);
      ThenNothing(Run(m, more[1..] + [final]));
      IgnoredToItsEnd(m, more[1..], final);
    }
  }

  /** CAN and SUB end whatever is being read, and are carried out themselves. */
  lemma CancelEnds(m: Machine, b: Byte)
    requires Ok(m) && m.partial == [] && (b == 0x18 || b == 0x1A)
    ensures var (n, actions) := Step(m, b);
            Idle(n) && actions != [] && actions[|actions| - 1] == Execute(b)
  {
    hide EndsOk, OscFields, StringStep, GroundStep;
    if m.state == Ground {
      GroundCancel(m, b);
    } else {
      StringCancel(m, b);
    }
  }

  lemma GroundCancel(m: Machine, b: Byte)
    requires Ok(m) && m.partial == [] && (b == 0x18 || b == 0x1A) && m.state == Ground
    ensures GroundStep(m, b) == (m, [Execute(b)])
  {
  }

  lemma StringCancel(m: Machine, b: Byte)
    requires Ok(m) && m.partial == [] && (b == 0x18 || b == 0x1A) && m.state != Ground
    ensures var (n, actions) := StringStep(m, b);
            n.state == Ground && n.partial == [] && actions != [] && actions[|actions| - 1] == Execute(b)
  {
    hide EndsOk, OscFields;
  }

  /** The other controls are carried out inside a control or escape sequence, which goes on as if they were not
      there. */
  lemma ControlsPass(m: Machine, b: Byte)
    requires Ok(m) && b < 0x20 && b !in [0x18, 0x1A, 0x1B]
    requires m.state in {Escape, EscapeIntermediate, CsiEntry, CsiParam, CsiIntermediate, CsiIgnore}
    ensures Step(m, b) == (m, [Execute(b)])
  {
  }

  /** Privacy messages and start-of-string ask for nothing. */
  lemma {:induction false} MessageIgnored(m: Machine, data: seq<Byte>)
    requires Ok(m) && m.state == SosPmApcString && forall i :: 0 <= i < |data| ==> data[i] !in [0x18, 0x1A, 0x1B]
    ensures Run(m, data) == (m, [])
    decreases |data|
  {
    hide Run, Ok;
    if data == [] {
      RunEmpty(m);
    } else {
      assert Step(m, data[0]) == (m, []);
      MessageIgnored(m, data[1..]);
      assert data == [data[0]] + data[1..];
      RunCons(m, data[0], data[1..]);
      ThenNothing(Run(m, data[1..]));
    }
  }

  // ----- text -----

  function TextBytes(cps: seq<nat>): seq<Byte>
    requires forall i :: 0 <= i < |cps| ==> IsScalar(cps[i])
  {
    if cps == [] then [] else Encode(cps[0]) + TextBytes(cps[1..])
  }

  /** A control, of seven bits or eight, is carried out; anything else is printed. */
  function Meanings(cps: seq<nat>): seq<Action> {
    if cps == [] then []
    else [if cps[0] <= 0x1F || 0x80 <= cps[0] <= 0x9F then Execute(cps[0]) else Print(cps[0])] + Meanings(cps[1..])
  }

  /** Text in UTF-8 asks for its characters, one by one. */
  lemma {:induction false} TextSequence(m: Machine, cps: seq<nat>)
    requires Idle(m) && forall i :: 0 <= i < |cps| ==> IsScalar(cps[i]) && cps[i] != 0x1B
    ensures Run(m, TextBytes(cps)) == (m, Meanings(cps))
    decreases |cps|
  {
    hide Run, Ok, Encode, Scan;
    if cps == [] {
      RunEmpty(m);
    } else {
      var rest := TextBytes(cps[1..]);
      ScanReadsEncoding(cps[0], rest);
      FreshCharacterRuns(m, Encode(cps[0]) + rest);
      assert (Encode(cps[0]) + rest)[|Encode(cps[0])|..] == rest;
      TextSequence(m, cps[1..]);
    }
  }

  // ----- numbers as they are usually written -----

  function Decimal(n: nat): (ds: Digits)
    ensures AllDigits(ds)
  {
    if n < 10 then [0x30 + n] else Decimal(n / 10) + [0x30 + n % 10]
  }

  lemma {:induction false} ValueSnoc(v: nat, ds: Digits, d: Byte)
    requires AllDigits(ds) && 0x30 <= d <= 0x39
    ensures AllDigits(ds + [d]) && Value(v, ds + [d]) == Value(v, ds) * 10 + (d - 0x30)
    decreases |ds|
  {
    if ds == [] {
      assert [] + [d] == [d] && [d][1..] == [];
    } else {
      assert (ds + [d])[1..] == ds[1..] + [d];
      ValueSnoc(v * 10 + (ds[0] - 0x30), ds[1..], d);
    }
  }

  /** A number written out in decimal is the number that is read. */
  lemma {:induction false} DecimalReads(n: nat)
    ensures Value(0, Decimal(n)) == n
  {
    if n >= 10 {
      DecimalReads(n / 10);
      ValueSnoc(0, Decimal(n / 10), 0x30 + n % 10);
    } else {
      assert [0x30 + n][1..] == [];
    }
  }
}
