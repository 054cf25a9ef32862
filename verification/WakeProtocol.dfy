/** The reader thread and the Emacs thread over one notifier (src/session.rs: `read_loop`, `finish`,
    `drain`, `ready` and the `Notifier` methods they call), interleaved at every load, store and
    swap of the two flags; what the lock covers is one step. */
module WakeProtocol {
  import opened Cells
  import opened Notify

  /** Where a thread stands. `AfterFeed` is the reader with text in the emulator it has not told the
      notifier of; `Woken` is Emacs having read the pipe; `Acked` is Emacs between acknowledging
      and collecting. The rest are the steps of an announcement and of a flush. */
  datatype Pc =
    | Idle
    | AfterFeed(drawable: bool)
    | AfterSync(drawable: bool)
    | Announcing
    | LoadNotified | LoadDirty | Locked | ClearDirty | SwapNotified | WriteByte
    | Woken | Acked

  datatype World = World(
    now: nat,
    dirty: bool,
    notified: bool,
    state: State,
    quiescence: nat,
    open: bool,
    unread: nat,
    written: nat,
    acks: nat,
    undrained: bool,
    reader: Pc,
    emacs: Pc)

  datatype Thread = Reader | Emacs

  datatype Act =
    | Pass(time: nat)
    | Close
    | Pace(minInterval: nat, frameCeiling: nat)
    | Feed(drawable: bool)
    | AdoptSync(deadline: Option<nat>)
    | TellFed
    | StartAnnounce
    | ClearHold
    | DropSync
    | StartFlush(who: Thread)
    | FlushOn(who: Thread)
    | FinishAck
    | ReadPipe
    | DrainAck
    | Collect

  function At(w: World, who: Thread): Pc {
    if who == Reader then w.reader else w.emacs
  }

  function GoTo(w: World, who: Thread, pc: Pc): World {
    if who == Reader then w.(reader := pc) else w.(emacs := pc)
  }

  predicate InFlush(pc: Pc) {
    pc.LoadNotified? || pc.LoadDirty? || pc.Locked? || pc.ClearDirty? || pc.SwapNotified? || pc.WriteByte?
  }

  predicate Enabled(w: World, a: Act) {
    match a
    case Pass(_) => true
    case Close => true
    case Pace(_, _) => true
    case Feed(_) => w.reader == Idle
    case AdoptSync(_) => w.reader.AfterFeed?
    case TellFed => w.reader.AfterSync?
    case StartAnnounce => w.reader == Idle
    case ClearHold => w.reader == Announcing
    case DropSync => w.reader == Idle
    case StartFlush(who) => At(w, who) == Idle
    case FlushOn(who) => InFlush(At(w, who))
    case FinishAck => w.reader == Idle
    case ReadPipe => w.emacs == Idle && w.unread > 0
    case DrainAck => w.emacs == Idle || w.emacs == Woken
    case Collect => w.emacs == Acked
  }

  function Lock(w: World): Signal {
    Signal(w.dirty, w.notified, w.state, w.quiescence)
  }

  /** One load, store, swap, write or locked section of a flush. */
  function FlushStep(w: World, who: Thread): World
    requires InFlush(At(w, who))
  {
    match At(w, who)
    case LoadNotified => GoTo(w, who, if w.notified then Idle else LoadDirty)
    case LoadDirty => GoTo(w, who, if w.dirty then Locked else Idle)
    case Locked =>
      if Due(w.state, w.quiescence, w.now) then GoTo(w.(state := Sent(w.state, w.now)), who, ClearDirty)
      else GoTo(w, who, Idle)
    case ClearDirty => GoTo(w.(dirty := false), who, SwapNotified)
    case SwapNotified => GoTo(w.(notified := true), who, if w.notified then Idle else WriteByte)
    case WriteByte =>
      GoTo(if w.open then w.(unread := w.unread + 1, written := w.written + 1) else w, who, Idle)
  }

  function Do(w: World, a: Act): World
    requires Enabled(w, a)
  {
    match a
    case Pass(time) => w.(now := w.now + time)
    case Close => w.(open := false)
    case Pace(minInterval, frameCeiling) =>
      w.(state := w.state.(minInterval := minInterval, frameCeiling := frameCeiling))
    case Feed(drawable) => w.(undrained := w.undrained || drawable, reader := AfterFeed(drawable))
    case AdoptSync(deadline) =>
      w.(state := SetSync(Lock(w), deadline).state, reader := AfterSync(w.reader.drawable))
    case TellFed =>
      var n := Fed(Lock(w), w.reader.drawable, w.now);
      w.(dirty := n.dirty, state := n.state, reader := Idle)
    case StartAnnounce => w.(dirty := true, reader := Announcing)
    case ClearHold =>
      w.(state := Marked(Lock(w)).state, reader := LoadNotified)
    case DropSync => w.(state := SetSync(Lock(w), None).state)
    case StartFlush(who) => GoTo(w, who, LoadNotified)
    case FlushOn(who) => FlushStep(w, who)
    case FinishAck => w.(notified := Acknowledged(Lock(w)).notified, acks := w.acks + 1, reader := SwapNotified)
    case ReadPipe => w.(unread := 0, emacs := Woken)
    case DrainAck => w.(notified := Acknowledged(Lock(w)).notified, acks := w.acks + 1, emacs := Acked)
    case Collect => w.(undrained := false, emacs := Idle)
  }

  predicate Start(w: World) {
    && !w.dirty && !w.notified && w.open && w.unread == 0 && w.written == 0 && w.acks == 0
    && !w.undrained && w.reader == Idle && w.emacs == Idle
  }

  /** What one step at a time, of either thread, can lead to. */
  ghost predicate Possible(w: World, acts: seq<Act>)
    decreases |acts|
  {
    acts != [] ==> Enabled(w, acts[0]) && Possible(Do(w, acts[0]), acts[1..])
  }

  function Outcome(w: World, acts: seq<Act>): World
    requires Possible(w, acts)
    decreases |acts|
  {
    if acts == [] then w else Outcome(Do(w, acts[0]), acts[1..])
  }

  // ----- nothing is lost -----

  /** The reader has text it has not told the notifier of. */
  predicate Telling(w: World) {
    (w.reader.AfterFeed? && w.reader.drawable) || (w.reader.AfterSync? && w.reader.drawable)
  }

  /** A thread has taken the flag down, or acknowledged, and is about to raise the other. */
  predicate Raising(w: World) {
    w.reader == SwapNotified || w.emacs == SwapNotified
  }

  predicate NothingLost(w: World) {
    w.undrained ==> w.dirty || w.notified || Telling(w) || Raising(w) || w.emacs == Acked
  }

  function Writing(w: World): nat {
    (if w.reader == WriteByte then 1 else 0) + (if w.emacs == WriteByte then 1 else 0)
  }

  predicate BytesBounded(w: World) {
    w.written + Writing(w) <= w.acks + if w.notified then 1 else 0
  }

  /** While Emacs listens, a raised flag means a byte it has not read, one about to be written, or
      one it has read and is about to answer. */
  predicate FlagMeansByte(w: World) {
    w.open && w.notified ==> w.unread > 0 || Writing(w) > 0 || w.emacs == Woken
  }

  /** Between them the threads are only ever where their own code goes. */
  predicate InPlace(w: World) {
    && !w.emacs.AfterFeed? && !w.emacs.AfterSync? && w.emacs != Announcing
    && w.reader != Woken && w.reader != Acked
  }

  predicate Sound(w: World) {
    NothingLost(w) && BytesBounded(w) && FlagMeansByte(w) && InPlace(w)
  }

  /** The steps of a flush that only look, up to and past the locked section. */
  predicate Looks(pc: Pc) {
    pc.LoadNotified? || pc.LoadDirty? || pc.Locked?
  }

  lemma LookKeeps(w: World, who: Thread, next: Pc)
    requires Sound(w) && Looks(At(w, who))
    requires next == Idle || next == LoadDirty || next == Locked || next == ClearDirty
    ensures Sound(GoTo(w, who, next))
  {
  }

  lemma StateIsApart(w: World, s: State)
    requires Sound(w)
    ensures Sound(w.(state := s))
  {
  }

  lemma FlushActsKeep(w: World, who: Thread)
    requires Sound(w) && (At(w, who).ClearDirty? || At(w, who).SwapNotified? || At(w, who).WriteByte?)
    ensures Sound(FlushStep(w, who))
  {
    hide Due, Sent;
  }

  lemma FlushKeeps(w: World, who: Thread)
    requires Sound(w) && InFlush(At(w, who))
    ensures Sound(FlushStep(w, who))
  {
    hide Due, Sent, Sound;
    match At(w, who)
    case LoadNotified => LookKeeps(w, who, if w.notified then Idle else LoadDirty);
    case LoadDirty => LookKeeps(w, who, if w.dirty then Locked else Idle);
    case Locked =>
      StateIsApart(w, Sent(w.state, w.now));
      LookKeeps(w, who, Idle);
      LookKeeps(w.(state := Sent(w.state, w.now)), who, ClearDirty);
    case _ => FlushActsKeep(w, who);
  }

  lemma StepKeeps(w: World, a: Act)
    requires Sound(w) && Enabled(w, a)
    ensures Sound(Do(w, a))
  {
    hide FlushStep, Due;
    match a
    case FlushOn(who) => FlushKeeps(w, who);
    case _ =>
  }

  lemma {:induction false} RunKeeps(w: World, acts: seq<Act>)
    requires Sound(w) && Possible(w, acts)
    ensures Sound(Outcome(w, acts))
    decreases |acts|
  {
    hide Sound, Do, Enabled;
    if acts != [] {
      StepKeeps(w, acts[0]);
      RunKeeps(Do(w, acts[0]), acts[1..]);
    }
  }

  /** In every interleaving, a change not yet collected has its flag up, or its wake in flight, or a
      thread inside one of the three windows: fed but not told, flag cleared but wake not raised,
      acknowledged but not collected. And bytes written never exceed acknowledgements plus one. */
  lemma NoLostWake(w: World, acts: seq<Act>)
    requires Start(w) && Possible(w, acts)
    ensures var v := Outcome(w, acts);
            && (v.undrained ==> v.dirty || v.notified || Telling(v) || Raising(v) || v.emacs == Acked)
            && v.written <= v.acks + 1
  {
    RunKeeps(w, acts);
  }

  /** So with both threads at rest and Emacs listening, a change not yet collected has either the
      flag that makes the reader's next tick try, or a byte in the pipe. */
  lemma NeverStuck(w: World, acts: seq<Act>)
    requires Start(w) && Possible(w, acts)
    requires var v := Outcome(w, acts); v.open && v.reader == Idle && v.emacs == Idle && v.undrained
    ensures var v := Outcome(w, acts); v.dirty || v.unread > 0
  {
    RunKeeps(w, acts);
  }

  /** And the tick that tries does put a byte in the pipe, once nothing holds the frame. */
  lemma DueFrameIsSent(w: World)
    requires w.reader == Idle && w.dirty && !w.notified && w.open
    requires Due(w.state, w.quiescence, w.now)
    ensures var tick := [StartFlush(Reader)] + seq(6, _ => FlushOn(Reader));
            && Possible(w, tick)
            && Outcome(w, tick) == w.(dirty := false, notified := true, state := Sent(w.state, w.now),
                                      unread := w.unread + 1, written := w.written + 1)
  {
    hide Due, Sent;
    var ticks := seq(6, _ => FlushOn(Reader));
    var tick := [StartFlush(Reader)] + ticks;
    assert tick[0] == StartFlush(Reader);
    FlushRunsThrough(Do(w, StartFlush(Reader)));
    assert tick[1..] == ticks;
  }

  lemma FlushRunsThrough(w: World)
    requires w.reader == LoadNotified && w.dirty && !w.notified && w.open
    requires Due(w.state, w.quiescence, w.now)
    ensures var ticks := seq(6, _ => FlushOn(Reader));
            && Possible(w, ticks)
            && Outcome(w, ticks) == w.(dirty := false, notified := true, state := Sent(w.state, w.now),
                                       unread := w.unread + 1, written := w.written + 1, reader := Idle)
  {
    hide Due, Sent;
    var step := FlushOn(Reader);
    var w1 := Do(w, step);
    var w2 := Do(w1, step);
    var w3 := Do(w2, step);
    var w4 := Do(w3, step);
    var w5 := Do(w4, step);
    TicksLeft(w5, 1);
    TicksLeft(w4, 2);
    TicksLeft(w3, 3);
    TicksLeft(w2, 4);
    TicksLeft(w1, 5);
    TicksLeft(w, 6);
    assert seq(0, _ => step) == [];
  }

  lemma TicksLeft(w: World, n: nat)
    requires n > 0 && Enabled(w, FlushOn(Reader))
    ensures var rest := seq(n - 1, _ => FlushOn(Reader));
            && (Possible(Do(w, FlushOn(Reader)), rest) ==>
                  && Possible(w, seq(n, _ => FlushOn(Reader)))
                  && Outcome(w, seq(n, _ => FlushOn(Reader))) == Outcome(Do(w, FlushOn(Reader)), rest))
  {
    var all := seq(n, _ => FlushOn(Reader));
    assert all[0] == FlushOn(Reader) && all[1..] == seq(n - 1, _ => FlushOn(Reader));
  }
}
