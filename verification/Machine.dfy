/** The VT parser as a machine that reads one byte at a time (src/emu/parser/mod.rs): the
    reference the bulk paths must not be told apart from. Control strings are a transition table
    from a state and a byte to one action and the next state; ground text is decoded with the
    bytes of an unfinished character held back. */
module ByteMachine {
  import opened Utf8

  datatype State =
    | Ground | Escape | EscapeIntermediate
    | CsiEntry | CsiParam | CsiIntermediate | CsiIgnore
    | DcsEntry | DcsParam | DcsIntermediate | DcsIgnore | DcsPassthrough
    | OscString | ApcString | SosPmApcString

  const MAX_INTERMEDIATES: nat := 2
  const MAX_OSC_PARAMS: nat := 16
  const MAX_PARAMS: nat := 32
  const MAX_OSC_RAW: nat := 0x80_0000
  const MAX_APC_RAW: nat := 0x80_0000
  const REPLACEMENT: nat := 0xFFFD

  /** Parameters in groups: the finished ones, and the subparameters of the one still open. */
  datatype Params = Params(groups: seq<seq<nat>>, open: seq<nat>)

  const NO_PARAMS: Params := Params([], [])

  function Total(groups: seq<seq<nat>>): nat {
    if groups == [] then 0 else Total(groups[..|groups| - 1]) + |groups[|groups| - 1]|
  }

  function FlatLen(p: Params): nat {
    Total(p.groups) + |p.open|
  }

  /** What a consumer iterates over: an open group counts as one. */
  function Groups(p: Params): seq<seq<nat>> {
    if p.open == [] then p.groups else p.groups + [p.open]
  }

  /** What the parser asks of its performer, in the order it asks. */
  datatype Action =
    | Print(cp: nat)
    | Execute(byte: nat)
    | EscDispatch(intermediates: seq<Byte>, ignoring: bool, final: Byte)
    | CsiDispatch(params: seq<seq<nat>>, intermediates: seq<Byte>, ignoring: bool, final: Byte)
    | Hook(params: seq<seq<nat>>, intermediates: seq<Byte>, ignoring: bool, final: Byte)
    | Put(data: Byte)
    | Unhook
    | OscDispatch(fields: seq<seq<Byte>>, bell: bool)
    | ApcDispatch(payload: seq<Byte>)

  datatype Machine = Machine(
    state: State,
    intermediates: seq<Byte>,
    ignoring: bool,
    params: Params,
    param: nat,
    osc: seq<Byte>,
    oscEnds: seq<nat>,
    oscOverflow: bool,
    apc: seq<Byte>,
    apcOverflow: bool,
    partial: seq<Byte>)

  const START: Machine := Machine(Ground, [], false, NO_PARAMS, 0, [], [], false, [], false, [])

  /** What every reachable parser state satisfies, and all any step needs. */
  ghost predicate Ok(m: Machine) {
    && IsPartial(m.partial)
    && (m.partial != [] ==> m.state == Ground)
    && |m.intermediates| <= MAX_INTERMEDIATES
    && FlatLen(m.params) <= MAX_PARAMS
    && m.param <= 0xFFFF
    && |m.osc| <= MAX_OSC_RAW && |m.apc| <= MAX_APC_RAW
    && |m.oscEnds| <= MAX_OSC_PARAMS
    && EndsOk(m.oscEnds, |m.osc|)
  }

  /** Each end at or after the one before it, and none past what was collected. */
  ghost predicate EndsOk(ends: seq<nat>, len: nat) {
    && (forall i :: 0 <= i < |ends| ==> ends[i] <= len)
    && (forall i, j :: 0 <= i < j < |ends| ==> ends[i] <= ends[j])
  }

  // ----- the single actions -----

  predicate Full(m: Machine) {
    FlatLen(m.params) == MAX_PARAMS
  }

  function Collect(m: Machine, b: Byte): Machine {
    if |m.intermediates| == MAX_INTERMEDIATES then m.(ignoring := true)
    else m.(intermediates := m.intermediates + [b])
  }

  function PushParam(p: Params, item: nat): Params {
    Params(p.groups + [p.open + [item]], [])
  }

  function ExtendParam(p: Params, item: nat): Params {
    p.(open := p.open + [item])
  }

  function SubParam(m: Machine): Machine {
    if Full(m) then m.(ignoring := true) else m.(params := ExtendParam(m.params, m.param), param := 0)
  }

  function NextParam(m: Machine): Machine {
    if Full(m) then m.(ignoring := true) else m.(params := PushParam(m.params, m.param), param := 0)
  }

  function Saturated(n: nat): (r: nat)
    ensures r <= 0xFFFF
  {
    if n <= 0xFFFF then n else 0xFFFF
  }

  /** One more digit, at sixteen bits and no further. */
  function Digit(m: Machine, b: Byte): Machine
    requires 0x30 <= b <= 0x39
  {
    if Full(m) then m.(ignoring := true)
    else m.(param := Saturated(Saturated(m.param * 10) + (b - 0x30)))
  }

  function LastParam(m: Machine): Machine {
    if Full(m) then m.(ignoring := true) else m.(params := PushParam(m.params, m.param))
  }

  function Reset(m: Machine): Machine {
    m.(intermediates := [], ignoring := false, param := 0, params := NO_PARAMS)
  }

  function OscSeparate(m: Machine): Machine {
    if |m.oscEnds| == MAX_OSC_PARAMS then m else m.(oscEnds := m.oscEnds + [|m.osc|])
  }

  function OscPut(m: Machine, b: Byte): Machine {
    if |m.osc| >= MAX_OSC_RAW then m.(oscOverflow := true) else m.(osc := m.osc + [b])
  }

  /** The fields of an OSC, one up to each end. */
  function OscFields(osc: seq<Byte>, ends: seq<nat>): (fields: seq<seq<Byte>>)
    requires EndsOk(ends, |osc|)
    ensures |fields| == |ends|
  {
    seq(|ends|, i requires 0 <= i < |ends| => osc[if i == 0 then 0 else ends[i - 1]..ends[i]])
  }

  function OscEnd(m: Machine, b: Byte): (Machine, seq<Action>)
    requires Ok(m)
  {
    var n := OscSeparate(m);
    (n.(osc := [], oscEnds := [], oscOverflow := false),
     if n.oscOverflow then [] else [OscDispatch(OscFields(n.osc, n.oscEnds), b == 0x07)])
  }

  function ApcPut(m: Machine, b: Byte): Machine {
    if |m.apc| >= MAX_APC_RAW then m.(apcOverflow := true) else m.(apc := m.apc + [b])
  }

  function ApcEnd(m: Machine): (Machine, seq<Action>) {
    (m.(apc := [], apcOverflow := false), if m.apcOverflow then [] else [ApcDispatch(m.apc)])
  }

  // ----- the transition table -----

  datatype Op =
    | Ignore | Exec
    | DoCollect | DoDigit | DoSubParam | DoNextParam | DoReset
    | DoEsc | DoCsi | DoHook
    | DoPut | DoUnhook | DoUnhookExec | DoUnhookReset
    | DoOscStart | DoOscSeparate | DoOscPut | DoOscEnd | DoOscEndExec | DoOscEndReset
    | DoApcStart | DoApcPut | DoApcEnd | DoApcDropExec | DoApcEndReset

  predicate IsC0(b: Byte) {
    b <= 0x17 || b == 0x19 || 0x1C <= b <= 0x1F
  }

  predicate IsCancel(b: Byte) {
    b == 0x18 || b == 0x1A
  }

  predicate Between(b: Byte, lo: nat, hi: nat) {
    lo <= b <= hi
  }

  function Anywhere(s: State, b: Byte): (Op, State) {
    if IsCancel(b) then (Exec, Ground)
    else if b == 0x1B then (DoReset, Escape)
    else (Ignore, s)
  }

  /** A parameter byte of a control sequence, the same for CSI and DCS. */
  function Parameter(b: Byte, ready: State): (Op, State)
    requires Between(b, 0x30, 0x3F)
  {
    if b <= 0x39 then (DoDigit, ready)
    else if b == 0x3A then (DoSubParam, ready)
    else if b == 0x3B then (DoNextParam, ready)
    else (DoCollect, ready)
  }

  function Transition(s: State, b: Byte): (Op, State)
    requires s != Ground
  {
    match s
    case Escape =>
      if IsC0(b) then (Exec, s)
      else if Between(b, 0x20, 0x2F) then (DoCollect, EscapeIntermediate)
      else if b == 0x50 then (DoReset, DcsEntry)
      else if b == 0x58 || b == 0x5E then (Ignore, SosPmApcString)
      else if b == 0x5B then (DoReset, CsiEntry)
      else if b == 0x5D then (DoOscStart, OscString)
      else if b == 0x5F then (DoApcStart, ApcString)
      else if Between(b, 0x30, 0x7E) then (DoEsc, Ground)
      else if IsCancel(b) then (Exec, Ground)
      else (Ignore, s)
    case EscapeIntermediate =>
      if IsC0(b) then (Exec, s)
      else if Between(b, 0x20, 0x2F) then (DoCollect, s)
      else if Between(b, 0x30, 0x7E) then (DoEsc, Ground)
      else Anywhere(s, b)
    case CsiEntry =>
      if IsC0(b) then (Exec, s)
      else if Between(b, 0x20, 0x2F) then (DoCollect, CsiIntermediate)
      else if Between(b, 0x30, 0x3F) then Parameter(b, CsiParam)
      else if Between(b, 0x40, 0x7E) then (DoCsi, Ground)
      else Anywhere(s, b)
    case CsiParam =>
      if IsC0(b) then (Exec, s)
      else if Between(b, 0x20, 0x2F) then (DoCollect, CsiIntermediate)
      else if Between(b, 0x30, 0x3B) then Parameter(b, s)
      else if Between(b, 0x3C, 0x3F) then (Ignore, CsiIgnore)
      else if Between(b, 0x40, 0x7E) then (DoCsi, Ground)
      else Anywhere(s, b)
    case CsiIntermediate =>
      if IsC0(b) then (Exec, s)
      else if Between(b, 0x20, 0x2F) then (DoCollect, s)
      else if Between(b, 0x30, 0x3F) then (Ignore, CsiIgnore)
      else if Between(b, 0x40, 0x7E) then (DoCsi, Ground)
      else Anywhere(s, b)
    case CsiIgnore =>
      if IsC0(b) then (Exec, s)
      else if Between(b, 0x40, 0x7E) then (Ignore, Ground)
      else Anywhere(s, b)
    case DcsEntry =>
      if IsC0(b) then (Ignore, s)
      else if Between(b, 0x20, 0x2F) then (DoCollect, DcsIntermediate)
      else if Between(b, 0x30, 0x3F) then Parameter(b, DcsParam)
      else if Between(b, 0x40, 0x7E) then (DoHook, DcsPassthrough)
      else Anywhere(s, b)
    case DcsParam =>
      if IsC0(b) then (Ignore, s)
      else if Between(b, 0x20, 0x2F) then (DoCollect, DcsIntermediate)
      else if Between(b, 0x30, 0x3B) then Parameter(b, s)
      else if Between(b, 0x3C, 0x3F) then (Ignore, DcsIgnore)
      else if Between(b, 0x40, 0x7E) then (DoHook, DcsPassthrough)
      else Anywhere(s, b)
    case DcsIntermediate =>
      if IsC0(b) then (Ignore, s)
      else if Between(b, 0x20, 0x2F) then (DoCollect, s)
      else if Between(b, 0x30, 0x3F) then (Ignore, DcsIgnore)
      else if Between(b, 0x40, 0x7E) then (DoHook, DcsPassthrough)
      else Anywhere(s, b)
    case DcsIgnore => Anywhere(s, b)
    case DcsPassthrough =>
      if IsPayload(b) then (DoPut, s)
      else if IsCancel(b) then (DoUnhookExec, Ground)
      else if b == 0x1B then (DoUnhookReset, Escape)
      else if b == 0x9C then (DoUnhook, Ground)
      else (Ignore, s)
    case OscString =>
      if b == 0x07 then (DoOscEnd, Ground)
      else if IsC0(b) then (Ignore, s)
      else if IsCancel(b) then (DoOscEndExec, Ground)
      else if b == 0x1B then (DoOscEndReset, Escape)
      else if b == 0x3B then (DoOscSeparate, s)
      else (DoOscPut, s)
    case ApcString =>
      if IsCancel(b) then (DoApcDropExec, Ground)
      else if b == 0x1B then (DoApcEndReset, Escape)
      else if b == 0x9C then (DoApcEnd, Ground)
      else (DoApcPut, s)
    case SosPmApcString => Anywhere(s, b)
  }

  /** The bytes a device control string hands over as they are. */
  predicate IsPayload(b: Byte) {
    IsC0(b) || Between(b, 0x20, 0x7E)
  }

  function Perform(m: Machine, op: Op, b: Byte): (r: (Machine, seq<Action>))
    requires Ok(m) && (op.DoDigit? ==> Between(b, 0x30, 0x39))
  {
    match op
    case Ignore => (m, [])
    case Exec => (m, [Execute(b)])
    case DoCollect => (Collect(m, b), [])
    case DoDigit => (Digit(m, b), [])
    case DoSubParam => (SubParam(m), [])
    case DoNextParam => (NextParam(m), [])
    case DoReset => (Reset(m), [])
    case DoEsc => (m, [EscDispatch(m.intermediates, m.ignoring, b)])
    case DoCsi =>
      var n := LastParam(m);
      (n, [CsiDispatch(Groups(n.params), n.intermediates, n.ignoring, b)])
    case DoHook =>
      var n := LastParam(m);
      (n, [Hook(Groups(n.params), n.intermediates, n.ignoring, b)])
    case DoPut => (m, [Put(b)])
    case DoUnhook => (m, [Unhook])
    case DoUnhookExec => (m, [Unhook, Execute(b)])
    case DoUnhookReset => (Reset(m), [Unhook])
    case DoOscStart => (m.(osc := [], oscEnds := [], oscOverflow := false), [])
    case DoOscSeparate => (OscSeparate(m), [])
    case DoOscPut => (OscPut(m, b), [])
    case DoOscEnd => OscEnd(m, b)
    case DoOscEndExec => AndExecute(OscEnd(m, b), b)
    case DoOscEndReset => AndReset(OscEnd(m, b))
    case DoApcStart => (m.(apc := [], apcOverflow := false), [])
    case DoApcPut => (ApcPut(m, b), [])
    case DoApcEnd => ApcEnd(m)
    case DoApcDropExec => (m.(apc := []), [Execute(b)])
    case DoApcEndReset => AndReset(ApcEnd(m))
  }

  function AndExecute(r: (Machine, seq<Action>), b: Byte): (Machine, seq<Action>) {
    (r.0, r.1 + [Execute(b)])
  }

  function AndReset(r: (Machine, seq<Action>)): (Machine, seq<Action>) {
    (Reset(r.0), r.1)
  }

  function StringStep(m: Machine, b: Byte): (r: (Machine, seq<Action>))
    requires Ok(m) && m.state != Ground
  {
    var (op, next) := Transition(m.state, b);
    var (n, actions) := Perform(m, op, b);
    (n.(state := next), actions)
  }

  // ----- ground -----

  predicate IsControl(cp: nat) {
    cp <= 0x1F || 0x80 <= cp <= 0x9F
  }

  function Shown(cp: nat): Action {
    if IsControl(cp) then Execute(cp) else Print(cp)
  }

  /** An ill-formed prefix: a byte in the C1 range stands for that control, anything else is
      replaced. */
  function Malformed(lead: Byte, len: nat): Action {
    if len == 1 && lead <= 0x9F then Execute(lead) else Print(REPLACEMENT)
  }

  function ToEscape(m: Machine): Machine {
    Reset(m).(state := Escape)
  }

  /** A byte in ground with no character cut off before it. */
  function FreshStep(m: Machine, b: Byte): (Machine, seq<Action>) {
    if b == 0x1B then (ToEscape(m), [])
    else
      match Scan([b])
      case Short => (m.(partial := [b]), [])
      case Char(_, cp) => (m, [Shown(cp)])
      case Bad(_) => (m, [Malformed(b, 1)])
  }

  function GroundStep(m: Machine, b: Byte): (Machine, seq<Action>) {
    if m.partial == [] then FreshStep(m, b)
    else
      match Scan(m.partial + [b])
      case Short => (m.(partial := m.partial + [b]), [])
      case Char(_, cp) => (m.(partial := []), [Shown(cp)])
      case Bad(_) =>
        var (n, actions) := FreshStep(m.(partial := []), b);
        (n, [Print(REPLACEMENT)] + actions)
  }

  // ----- whole streams -----

  function Step(m: Machine, b: Byte): (r: (Machine, seq<Action>))
    requires Ok(m)
    ensures Ok(r.0)
  {
    StepOk(m, b);
    if m.state == Ground then GroundStep(m, b) else StringStep(m, b)
  }

  lemma GroundStepOk(m: Machine, b: Byte)
    requires Ok(m) && m.state == Ground
    ensures Ok(GroundStep(m, b).0)
  {
    hide Scan, EndsOk, Shown, Malformed;
    assert [] + [b] == [b];
  }

  predicate OnParams(op: Op) {
    op.DoCollect? || op.DoDigit? || op.DoSubParam? || op.DoNextParam? || op.DoCsi? || op.DoHook?
  }

  predicate OnOsc(op: Op) {
    op.DoOscStart? || op.DoOscSeparate? || op.DoOscPut? || op.DoOscEnd? || op.DoOscEndExec? || op.DoOscEndReset?
  }

  lemma ParamsOk(m: Machine, op: Op, b: Byte)
    requires Ok(m) && m.partial == [] && OnParams(op) && (op.DoDigit? ==> Between(b, 0x30, 0x39))
    ensures Ok(Perform(m, op, b).0.(state := Ground)) && Perform(m, op, b).0.partial == []
  {
    hide EndsOk, OscEnd;
    if !Full(m) {
      var pushed := PushParam(m.params, m.param);
      assert pushed.groups[..|pushed.groups| - 1] == m.params.groups;
    }
  }

  lemma OscOk(m: Machine, op: Op, b: Byte)
    requires Ok(m) && m.partial == [] && OnOsc(op)
    ensures Ok(Perform(m, op, b).0.(state := Ground)) && Perform(m, op, b).0.partial == []
  {
    hide OscFields;
  }

  lemma PerformOk(m: Machine, op: Op, b: Byte)
    requires Ok(m) && m.partial == [] && (op.DoDigit? ==> Between(b, 0x30, 0x39))
    ensures Ok(Perform(m, op, b).0.(state := Ground)) && Perform(m, op, b).0.partial == []
  {
    hide EndsOk;
    if OnParams(op) {
      ParamsOk(m, op, b);
    } else if OnOsc(op) {
      OscOk(m, op, b);
    }
  }

  lemma StepOk(m: Machine, b: Byte)
    requires Ok(m)
    ensures Ok((if m.state == Ground then GroundStep(m, b) else StringStep(m, b)).0)
  {
    if m.state == Ground {
      GroundStepOk(m, b);
    } else {
      PerformOk(m, Transition(m.state, b).0, b);
    }
  }

  function Then(actions: seq<Action>, r: (Machine, seq<Action>)): (Machine, seq<Action>) {
    (r.0, actions + r.1)
  }

  /** A whole stream, one byte at a time. */
  function Run(m: Machine, bs: seq<Byte>): (r: (Machine, seq<Action>))
    requires Ok(m)
    ensures Ok(r.0)
    decreases |bs|
  {
    if bs == [] then (m, [])
    else
      var (n, actions) := Step(m, bs[0]);
      Then(actions, Run(n, bs[1..]))
  }

  lemma {:induction false} RunConcat(m: Machine, a: seq<Byte>, b: seq<Byte>)
    requires Ok(m)
    ensures Run(m, a + b) == Then(Run(m, a).1, Run(Run(m, a).0, b))
    decreases |a|
  {
    hide Step, Ok;
    if a == [] {
      assert a + b == b;
      assert [] + Run(m, b).1 == Run(m, b).1;
    } else {
      assert (a + b)[0] == a[0] && (a + b)[1..] == a[1..] + b;
      var (n, actions) := Step(m, a[0]);
      RunConcat(n, a[1..], b);
      var rest := Run(n, a[1..]);
      ActionsAssoc(actions, rest.1, Run(rest.0, b).1);
    }
  }

  lemma ActionsAssoc(a: seq<Action>, b: seq<Action>, c: seq<Action>)
    ensures a + (b + c) == (a + b) + c
  {
  }
}
