/** The graphics protocol (src/emu/kitty.rs): commands, transfers cut into chunks, and the child's
    names for pictures. The session's state is a value here and every call a function from the old
    one to the new; `KittyObject` holds the same calls as methods, proved against these. */
module KittyProtocol {
  import opened Cells
  import opened Utf8
  import Base64

  const MAX_PAYLOAD: nat := 32 * 0x10_0000

  datatype Action = Transmit | Display | Put | Delete | Query

  datatype Format = Rgb24 | Rgba32 | PngFile

  datatype Command = Command(
    action: Action, format: Format, more: bool, compressed: bool, id: nat,
    w: nat, h: nat, cols: nat, rows: nat, quiet: nat, freezeCursor: bool, unsupported: Option<string>,
    explicitAction: Option<Action>, explicitId: Option<nat>)

  const DEFAULT := Command(Transmit, Rgba32, false, false, 0, 0, 0, 0, 0, 0, false, None, None, None)

  datatype Container = Ppm | Png

  datatype Outcome =
    | Incomplete
    | Picture(container: Container, bytes: seq<nat>, w: nat, h: nat, cols: nat, rows: nat,
            client: nat, display: bool, freezeCursor: bool)
    | Place(picture: nat, freezeCursor: bool)
    | Nothing

  /** One answer to the child, `i=<id>;<text>` once framed. */
  datatype Answer = Answer(id: nat, text: string)

  /** What the protocol leans on: text out of bytes, zlib's inflate under a limit, and the
      containers raw pixels are put in. Nothing is assumed of any of them. */
  datatype Tools = Tools(
    lossy: seq<Byte> -> string,
    inflate: (seq<nat>, nat) -> Option<seq<nat>>,
    contain: (Format, nat, nat, seq<nat>) -> (Container, seq<nat>))

  datatype Transfer = Transfer(command: Command, body: seq<Byte>)

  datatype Session = Session(pending: Option<Transfer>, byClient: map<nat, nat>)

  /** What one command comes to: the session after it, what the terminal should do, and the answers
      owed, in the order they go back. */
  datatype Turn = Turn(next: Session, outcome: Outcome, answers: seq<Answer>)

  // ----- control data -----

  function DigitsValue(digits: string): (n: Option<nat>) {
    if digits == "" then Some(0)
    else
      var last, rest := digits[|digits| - 1], DigitsValue(digits[..|digits| - 1]);
      if '0' <= last <= '9' && rest.Some? then Some(rest.value * 10 + (last - '0') as nat) else None
  }

  /** A number as the standard library reads one into 32 bits: a plus sign or none, then digits;
      zero for anything it refuses. */
  function Number(value: string): (n: nat)
    ensures n < 0x1_0000_0000
  {
    var digits := if value != "" && value[0] == '+' then value[1..] else value;
    var n := DigitsValue(digits);
    if digits != "" && n.Some? && n.value < 0x1_0000_0000 then n.value else 0
  }

  function AtMost(n: nat, most: nat): nat {
    if n > most then most else n
  }

  function NamedAction(value: string): Action {
    if value == "T" then Display
    else if value == "p" then Put
    else if value == "d" then Delete
    else if value == "q" then Query
    else Transmit
  }

  function NamedFormat(value: string): Format {
    if value == "24" then Rgb24 else if value == "100" then PngFile else Rgba32
  }

  datatype Key =
    | ActionKey | FormatKey | MediumKey | CompressionKey | PlaceholderKey | MoreKey | IdKey | WidthKey | HeightKey
    | ColsKey | RowsKey | QuietKey | CursorKey

  function NamedKey(key: string): Option<Key> {
    if key == "a" then Some(ActionKey)
    else if key == "f" then Some(FormatKey)
    else if key == "t" then Some(MediumKey)
    else if key == "o" then Some(CompressionKey)
    else if key == "U" then Some(PlaceholderKey)
    else if key == "m" then Some(MoreKey)
    else if key == "i" then Some(IdKey)
    else if key == "s" then Some(WidthKey)
    else if key == "v" then Some(HeightKey)
    else if key == "c" then Some(ColsKey)
    else if key == "r" then Some(RowsKey)
    else if key == "q" then Some(QuietKey)
    else if key == "C" then Some(CursorKey)
    else None
  }

  /** One `key=value` read into the command. */
  function Read(cmd: Command, key: Key, value: string): Command {
    match key
    case ActionKey => cmd.(action := NamedAction(value), explicitAction := Some(NamedAction(value)))
    case FormatKey => cmd.(format := NamedFormat(value))
    case MediumKey => if value == "d" then cmd else cmd.(unsupported := Some("ENOTSUPPORTED:medium"))
    case CompressionKey =>
      if value == "z" then cmd.(compressed := true) else cmd.(unsupported := Some("ENOTSUPPORTED:compression"))
    case PlaceholderKey => cmd.(unsupported := Some("ENOTSUPPORTED:placeholder"))
    case MoreKey => cmd.(more := Number(value) != 0)
    case IdKey => cmd.(id := Number(value), explicitId := Some(Number(value)))
    case WidthKey => cmd.(w := Number(value))
    case HeightKey => cmd.(h := Number(value))
    case ColsKey => cmd.(cols := AtMost(Number(value), 0xFFFF))
    case RowsKey => cmd.(rows := AtMost(Number(value), 0xFFFF))
    case QuietKey => cmd.(quiet := AtMost(Number(value), 0xFF))
    case CursorKey => cmd.(freezeCursor := value == "1")
  }

  /** Where a character first stands in some text, or its length. */
  function Find<T(==)>(text: seq<T>, c: T): (at: nat)
    ensures at <= |text| && c !in text[..at]
    ensures at < |text| ==> text[at] == c
  {
    if text == [] || text[0] == c then 0 else 1 + Find(text[1..], c)
  }

  /** A pair without an equals sign is no pair, and a key nobody knows is passed over. */
  function ReadPair(cmd: Command, pair: string): Command {
    var at := Find(pair, '=');
    if at < |pair| && NamedKey(pair[..at]).Some? then Read(cmd, NamedKey(pair[..at]).value, pair[at + 1..]) else cmd
  }

  /** Everything between the commas, read in order. */
  function ReadAll(cmd: Command, control: string): Command
    decreases |control|
  {
    var at := Find(control, ',');
    var next := ReadPair(cmd, control[..at]);
    if at < |control| then ReadAll(next, control[at + 1..]) else next
  }

  function Parse(control: string): Command {
    ReadAll(DEFAULT, control)
  }

  // ----- answers -----

  /** `q=1` keeps errors and drops successes, `q=2` drops both, and a command without an id cannot be
      answered at all. */
  function Response(cmd: Command, error: Option<string>): seq<Answer> {
    if cmd.quiet >= 2 || (cmd.quiet == 1 && error.None?) || cmd.id == 0 then []
    else [Answer(cmd.id, if error.Some? then error.value else "OK")]
  }

  function Refusal(s: Session, cmd: Command, why: string): Turn {
    Turn(s, Nothing, Response(cmd, Some(why)))
  }

  // ----- commands -----

  function Standalone(s: Session, cmd: Command): Turn {
    if cmd.unsupported.Some? then Refusal(s, cmd, cmd.unsupported.value)
    else match cmd.action
      case Query => Turn(s, Nothing, Response(cmd, None))
      case Delete => Turn(s.(byClient := s.byClient - {cmd.id}), Nothing, Response(cmd, None))
      case Put =>
        if cmd.id in s.byClient then Turn(s, Place(s.byClient[cmd.id], cmd.freezeCursor), Response(cmd, None))
        else Refusal(s, cmd, "ENOENT:image")
      case _ => Turn(s, Nothing, [])
  }

  const WORD64: nat := 0x1_0000_0000_0000_0000

  /** Bytes a full picture of this size takes. */
  function TrueLen(cmd: Command): nat {
    cmd.w * cmd.h * (if cmd.format == Rgb24 then 3 else 4)
  }

  /** The same, as 64 bits hold it. */
  function ExpectedLen(cmd: Command): nat {
    TrueLen(cmd) % WORD64
  }

  /** The test a raw picture has to pass: some size, and at least half of it there. */
  predicate Described(cmd: Command, len: nat) {
    0 < ExpectedLen(cmd) <= 2 * len
  }

  /** A payload that is all there: out of its base64, out of its compression, and into a container. */
  function Finish(t: Tools, s: Session, cmd: Command, base64: seq<Byte>): Turn {
    var decoded := Base64.Decode(base64);
    if decoded.None? then Refusal(s, cmd, "EINVAL:base64")
    else
      var raw := if cmd.compressed then t.inflate(decoded.value, MAX_PAYLOAD) else decoded;
      if raw.None? then Refusal(s, cmd, "EINVAL:compression")
      else if cmd.format != PngFile && !Described(cmd, |raw.value|) then
        Refusal(s, cmd, "EINVAL:dimensions")
      else
        var held :=
          if cmd.format == PngFile then (Png, raw.value) else t.contain(cmd.format, cmd.w, cmd.h, raw.value);
        Turn(s, Picture(held.0, held.1, cmd.w, cmd.h, cmd.cols, cmd.rows, cmd.id, cmd.action == Display,
                      cmd.freezeCursor),
             Response(cmd, None))
  }

  /** More of a payload: too much of it is refused, and what is not the last of it waits. */
  function Take(t: Tools, s: Session, cmd: Command, buf: seq<Byte>, body: seq<Byte>, more: bool): Turn {
    var idle := s.(pending := None);
    if |buf| + |body| > MAX_PAYLOAD then Refusal(idle, cmd, "EBIG:payload")
    else if more then Turn(s.(pending := Some(Transfer(cmd, buf + body))), Incomplete, [])
    else Finish(t, idle, cmd, buf + body)
  }

  function Begin(t: Tools, s: Session, cmd: Command, body: seq<Byte>): Turn {
    if cmd.unsupported.Some? then Refusal(s, cmd, cmd.unsupported.value)
    else if cmd.action != Transmit && cmd.action != Display then Standalone(s, cmd)
    else Take(t, s, cmd, [], body, cmd.more)
  }

  predicate IsAside(cmd: Command) {
    cmd.explicitAction in [Some(Query), Some(Delete), Some(Put)]
  }

  function FeedCommand(t: Tools, s: Session, cmd: Command, body: seq<Byte>): Turn {
    if s.pending.None? then Begin(t, s, cmd, body)
    else if IsAside(cmd) then Standalone(s, cmd)
    else
      var opener := s.pending.value.command;
      if cmd.explicitId.Some? && cmd.explicitId.value != opener.id then
        var begun := Begin(t, s.(pending := None), cmd, body);
        begun.(answers := Response(opener, Some("EINVAL:interleaved")) + begun.answers)
      else Take(t, s, opener, s.pending.value.body, body, cmd.more)
  }

  const INTRODUCER: Byte := 0x47
  const SEMICOLON: Byte := 0x3B

  /** One whole command as it arrived. */
  function Feed(t: Tools, s: Session, payload: seq<Byte>): Turn {
    if payload == [] || payload[0] != INTRODUCER then Turn(s, Nothing, [])
    else
      var rest := payload[1..];
      var at := Find(rest, SEMICOLON);
      FeedCommand(t, s, Parse(t.lossy(rest[..at])), if at < |rest| then rest[at + 1..] else [])
  }

  // ----- what the geometry test is worth -----

  /** The test keeps a picture to twice what arrived exactly when its true size fits 64 bits. */
  lemma DescribedIsBoundedIff(cmd: Command, len: nat)
    requires Described(cmd, len) && len <= MAX_PAYLOAD
    ensures TrueLen(cmd) <= 2 * len <==> TrueLen(cmd) < WORD64
  {
  }

  /** And it need not fit, whatever fits the command's own fields: this size comes to four past a whole
      turn of 64 bits, and two bytes describe it. */
  lemma DescribedCanWrap()
    ensures
      var cmd := DEFAULT.(w := 2147418113, h := 2147549185);
      Settled(cmd) && TrueLen(cmd) == WORD64 + 4 && Described(cmd, 2)
  {
    var cmd := DEFAULT.(w := 2147418113, h := 2147549185);
    assert 2147418113 * 2147549185 == 0x4000_0000_0000_0001;
  }

  // ----- what parsing settles -----

  /** The action and id that apply are those named, or else the protocol's own. */
  predicate Settled(cmd: Command) {
    && cmd.action == (if cmd.explicitAction.Some? then cmd.explicitAction.value else Transmit)
    && cmd.id == (if cmd.explicitId.Some? then cmd.explicitId.value else 0)
    && cmd.id < 0x1_0000_0000 && cmd.w < 0x1_0000_0000 && cmd.h < 0x1_0000_0000
    && cmd.cols < 0x1_0000 && cmd.rows < 0x1_0000 && cmd.quiet < 0x100
  }

  lemma {:induction false} ReadAllSettles(cmd: Command, control: string)
    requires Settled(cmd)
    ensures Settled(ReadAll(cmd, control))
    decreases |control|
  {
    hide Number, NamedAction;
    var at := Find(control, ',');
    ReadPairSettles(cmd, control[..at]);
    if at < |control| {
      ReadAllSettles(ReadPair(cmd, control[..at]), control[at + 1..]);
    }
  }

  lemma ReadPairSettles(cmd: Command, pair: string)
    requires Settled(cmd)
    ensures Settled(ReadPair(cmd, pair))
  {
    hide Find, Read, NamedKey;
    var at := Find(pair, '=');
    if at < |pair| && NamedKey(pair[..at]).Some? {
      ReadSettles(cmd, NamedKey(pair[..at]).value, pair[at + 1..]);
    }
  }

  lemma ReadSettles(cmd: Command, key: Key, value: string)
    requires Settled(cmd)
    ensures Settled(Read(cmd, key, value))
  {
    hide Number, NamedAction, NamedFormat;
  }

  lemma ParseSettles(control: string)
    ensures Settled(Parse(control))
  {
    ReadAllSettles(DEFAULT, control);
  }

  /** Control data is read pair by pair, so what stands between commas can be added to either end. */
  lemma {:induction false} ReadAllAcross(cmd: Command, first: string, second: string)
    ensures ReadAll(cmd, first + "," + second) == ReadAll(ReadAll(cmd, first), second)
    decreases |first|
  {
    hide ReadPair, ReadAll;
    var whole, at := first + "," + second, Find(first, ',');
    FindAcross(first, ',', second);
    CommaSplits(first, second, at);
    ReadAllNext(cmd, whole);
    ReadAllNext(cmd, first);
    if at < |first| {
      ReadAllAcross(ReadPair(cmd, first[..at]), first[at + 1..], second);
    }
  }

  lemma ReadAllNext(cmd: Command, control: string)
    ensures var at := Find(control, ',');
            ReadAll(cmd, control)
            == if at < |control| then ReadAll(ReadPair(cmd, control[..at]), control[at + 1..])
               else ReadPair(cmd, control[..at])
  {
    hide ReadPair;
  }

  lemma CommaSplits(first: string, second: string, at: nat)
    requires at <= |first|
    ensures var whole := first + "," + second;
            && whole == first + [','] + second && whole[..at] == first[..at]
            && whole[at + 1..] == if at < |first| then first[at + 1..] + "," + second else second
  {
  }

  lemma {:induction false} FindAcross(first: string, c: char, second: string)
    ensures Find(first + [c] + second, c) == Find(first, c)
    decreases |first|
  {
    var whole := first + [c] + second;
    if first == "" || first[0] == c {
      assert whole[0] == c;
    } else {
      assert whole[1..] == first[1..] + [c] + second;
      FindAcross(first[1..], c, second);
    }
  }

  /** A key that is not known, wherever it stands, changes nothing. */
  lemma UnknownKeyIsIgnored(before: string, key: string, value: string, after: string)
    requires NamedKey(key).None? && '=' !in key && ',' !in key && ',' !in value
    ensures Parse(before + "," + (key + "=" + value + "," + after)) == Parse(before + "," + after)
  {
    hide ReadAll, ReadPair;
    var pair := key + "=" + value;
    ReadAllAcross(DEFAULT, before, pair + "," + after);
    ReadAllAcross(DEFAULT, before, after);
    var cmd := ReadAll(DEFAULT, before);
    ReadAllAcross(cmd, pair, after);
    OnePair(cmd, pair);
    UnknownPair(cmd, key, value);
  }

  lemma OnePair(cmd: Command, pair: string)
    requires ',' !in pair
    ensures ReadAll(cmd, pair) == ReadPair(cmd, pair)
  {
    hide ReadPair;
    var at := Find(pair, ',');
    assert pair[..|pair|] == pair;
  }

  lemma UnknownPair(cmd: Command, key: string, value: string)
    requires NamedKey(key).None? && '=' !in key
    ensures ReadPair(cmd, key + "=" + value) == cmd
  {
    hide Read, NamedKey;
    FindAcross(key, '=', value);
    var pair := key + ['='] + value;
    assert pair == key + "=" + value && pair[..|key|] == key;
  }

  // ----- one run -----

  /** One command, parsed, and the payload with it. */
  datatype Part = Part(command: Command, body: seq<Byte>)

  /** The session after some commands. */
  function After(t: Tools, s: Session, parts: seq<Part>): Session {
    if parts == [] then s
    else
      var last := parts[|parts| - 1];
      FeedCommand(t, After(t, s, parts[..|parts| - 1]), last.command, last.body).next
  }

  /** What the `i`th of some commands comes to. */
  function TurnAt(t: Tools, s: Session, parts: seq<Part>, i: nat): Turn
    requires i < |parts|
  {
    FeedCommand(t, After(t, s, parts[..i]), parts[i].command, parts[i].body)
  }

  /** The payload the chunks among some commands carry, in order. */
  function Bodies(parts: seq<Part>): seq<Byte> {
    if parts == [] then []
    else
      var last := parts[|parts| - 1];
      Bodies(parts[..|parts| - 1]) + if IsAside(last.command) then [] else last.body
  }

  /** The child's names after the probes, deletes and places among some commands, no transfer being
      under way at all. */
  function Names(byClient: map<nat, nat>, parts: seq<Part>): map<nat, nat> {
    if parts == [] then byClient
    else
      var rest, last := Names(byClient, parts[..|parts| - 1]), parts[|parts| - 1];
      if IsAside(last.command) then Standalone(Session(None, rest), last.command).next.byClient else rest
  }

  predicate Opens(cmd: Command) {
    cmd.more && cmd.unsupported.None? && (cmd.action == Transmit || cmd.action == Display)
  }

  /** A chunk of the transfer `id` names: it restates that id or none. */
  predicate Chunk(id: nat, cmd: Command) {
    !IsAside(cmd) && (cmd.explicitId.None? || cmd.explicitId.value == id)
  }

  /** What may follow an opening: chunks, every one but the last saying that more will come, and any
      probes, deletes and places in between. */
  predicate Continues(id: nat, parts: seq<Part>) {
    forall i :: 0 <= i < |parts| ==>
      || (IsAside(parts[i].command) && i < |parts| - 1)
      || (Chunk(id, parts[i].command) && (parts[i].command.more <==> i < |parts| - 1))
  }

  lemma {:induction false} NamesAndBodiesGrow(byClient: map<nat, nat>, parts: seq<Part>, k: nat)
    requires k < |parts|
    ensures Bodies(parts[..k + 1]) == Bodies(parts[..k]) + if IsAside(parts[k].command) then [] else parts[k].body
    ensures Names(byClient, parts[..k + 1])
         == if IsAside(parts[k].command)
            then Standalone(Session(None, Names(byClient, parts[..k])), parts[k].command).next.byClient
            else Names(byClient, parts[..k])
  {
    hide IsAside, Standalone;
    assert parts[..k + 1][..k] == parts[..k];
  }

  lemma {:induction false} BodiesOnlyGrow(parts: seq<Part>, k: nat)
    requires k <= |parts|
    ensures |Bodies(parts[..k])| <= |Bodies(parts)|
    decreases |parts| - k
  {
    if k < |parts| {
      NamesAndBodiesGrow(map[], parts, k);
      BodiesOnlyGrow(parts, k + 1);
    } else {
      assert parts[..k] == parts;
    }
  }

  /** An aside is answered as if no transfer were under way, and the transfer does not see it. */
  lemma AsideLeavesTransfer(s: Session, cmd: Command)
    ensures Standalone(s, cmd).outcome == Standalone(s.(pending := None), cmd).outcome
    ensures Standalone(s, cmd).answers == Standalone(s.(pending := None), cmd).answers
    ensures Standalone(s, cmd).next.pending == s.pending
    ensures Standalone(s, cmd).next.byClient == Standalone(s.(pending := None), cmd).next.byClient
  {
  }

  /** While a transfer runs: what has been taken is exactly what its chunks carried. */
  lemma {:induction false} DuringTransfer(t: Tools, byClient: map<nat, nat>, opener: Part, parts: seq<Part>, k: nat)
    requires Opens(opener.command) && Continues(opener.command.id, parts) && k < |parts|
    requires |opener.body| + |Bodies(parts[..k])| <= MAX_PAYLOAD
    ensures After(t, Session(None, byClient), [opener] + parts[..k])
         == Session(Some(Transfer(opener.command, opener.body + Bodies(parts[..k]))), Names(byClient, parts[..k]))
  {
    hide Finish, Standalone, IsAside, Bodies, Names;
    var s, all := Session(None, byClient), [opener] + parts[..k];
    if k == 0 {
      NothingYet(byClient);
      assert all == [opener] && all[..0] == [] && opener.body + [] == opener.body;
      assert [] + opener.body == opener.body;
    } else {
      var last := parts[k - 1];
      assert all[..k] == [opener] + parts[..k - 1] && all[k] == last;
      NamesAndBodiesGrow(byClient, parts, k - 1);
      DuringTransfer(t, byClient, opener, parts, k - 1);
      var before := After(t, s, all[..k]);
      assert Chunk(opener.command.id, last.command) || IsAside(last.command);
      if IsAside(last.command) {
        AsideLeavesTransfer(before, last.command);
        assert opener.body + (Bodies(parts[..k - 1]) + []) == opener.body + Bodies(parts[..k - 1]);
      } else {
        assert opener.body + Bodies(parts[..k - 1]) + last.body == opener.body + (Bodies(parts[..k - 1]) + last.body);
      }
    }
  }

  lemma NothingYet(byClient: map<nat, nat>)
    ensures Bodies([]) == [] && Names(byClient, []) == byClient
  {
  }

  /** The rest of the outcome depends on nothing a chunked transfer keeps differently. */
  lemma FinishIsTheSame(t: Tools, s: Session, u: Session, cmd: Command, base64: seq<Byte>)
    ensures var turn, other := Finish(t, s, cmd, base64), Finish(t, u, cmd.(more := false), base64);
      && turn.outcome == other.outcome && turn.answers == other.answers && turn.next == s
  {
  }

  /** A payload of at most the bound, cut into any number of chunks with any probes, deletes and
      places in between, ends in the outcome and answer of sending it whole; on the way every chunk
      is waited on in silence and everything else is answered as if it had come alone. */
  lemma ChunksReassemble(t: Tools, byClient: map<nat, nat>, opener: Part, parts: seq<Part>)
    requires Opens(opener.command) && Continues(opener.command.id, parts) && parts != []
    requires |opener.body| + |Bodies(parts)| <= MAX_PAYLOAD
    ensures
      var s := Session(None, byClient);
      var last := TurnAt(t, s, [opener] + parts, |parts|);
      var whole := FeedCommand(t, s, opener.command.(more := false), opener.body + Bodies(parts));
      && last.outcome == whole.outcome && last.answers == whole.answers
      && last.next == Session(None, Names(byClient, parts))
    ensures forall i :: 0 <= i < |parts| - 1 ==> OnTheWay(t, byClient, [opener] + parts, parts, i)
    ensures
      var first := TurnAt(t, Session(None, byClient), [opener] + parts, 0);
      first.outcome == Incomplete && first.answers == []
  {
    hide Finish, Standalone, IsAside, Bodies, Names, OnTheWay, After;
    var s, all, n := Session(None, byClient), [opener] + parts, |parts| - 1;
    forall i | 0 <= i < n ensures OnTheWay(t, byClient, all, parts, i) {
      BodiesOnlyGrow(parts, i);
      BodiesOnlyGrow(parts, i + 1);
      NamesAndBodiesGrow(byClient, parts, i);
      WaitedOn(t, byClient, opener, parts, i);
    }
    BodiesOnlyGrow(parts, n);
    NamesAndBodiesGrow(byClient, parts, n);
    assert parts[..n + 1] == parts;
    DuringTransfer(t, byClient, opener, parts, n);
    assert all[..n + 1] == [opener] + parts[..n] && all[n + 1] == parts[n];
    var body := opener.body + Bodies(parts);
    assert opener.body + Bodies(parts[..n]) + parts[n].body == body;
    assert [] + body == body;
    FinishIsTheSame(t, Session(None, Names(byClient, parts)), s, opener.command, body);
    FirstWaits(t, byClient, opener, parts);
  }

  /** What every command before the last comes to. */
  ghost predicate OnTheWay(t: Tools, byClient: map<nat, nat>, all: seq<Part>, parts: seq<Part>, i: nat)
    requires |all| == |parts| + 1 && i < |parts|
  {
    var turn := TurnAt(t, Session(None, byClient), all, i + 1);
    var alone := Standalone(Session(None, Names(byClient, parts[..i])), parts[i].command);
    if IsAside(parts[i].command) then turn.outcome == alone.outcome && turn.answers == alone.answers
    else turn.outcome == Incomplete && turn.answers == []
  }

  lemma WaitedOn(t: Tools, byClient: map<nat, nat>, opener: Part, parts: seq<Part>, i: nat)
    requires Opens(opener.command) && Continues(opener.command.id, parts) && i < |parts| - 1
    requires |opener.body| + |Bodies(parts[..i])| <= MAX_PAYLOAD
    requires |opener.body| + |Bodies(parts[..i])| + (if IsAside(parts[i].command) then 0 else |parts[i].body|) <= MAX_PAYLOAD
    ensures OnTheWay(t, byClient, [opener] + parts, parts, i)
  {
    hide Finish, Standalone, IsAside, Bodies, Names, After;
    var s, all := Session(None, byClient), [opener] + parts;
    DuringTransfer(t, byClient, opener, parts, i);
    assert all[..i + 1] == [opener] + parts[..i] && all[i + 1] == parts[i];
    AsideLeavesTransfer(After(t, s, all[..i + 1]), parts[i].command);
  }

  lemma FirstWaits(t: Tools, byClient: map<nat, nat>, opener: Part, parts: seq<Part>)
    requires Opens(opener.command) && |opener.body| <= MAX_PAYLOAD
    ensures
      var first := TurnAt(t, Session(None, byClient), [opener] + parts, 0);
      first.outcome == Incomplete && first.answers == []
  {
    hide Finish, Standalone;
    assert ([opener] + parts)[..0] == [] && ([opener] + parts)[0] == opener;
  }

  /** Past the bound, the chunk that goes past it gets the refusal the whole would have got, and the
      transfer is over. */
  lemma OverlongIsRefused(t: Tools, byClient: map<nat, nat>, opener: Part, parts: seq<Part>, k: nat)
    requires Opens(opener.command) && Continues(opener.command.id, parts) && k < |parts|
    requires |opener.body| + |Bodies(parts[..k])| <= MAX_PAYLOAD < |opener.body| + |Bodies(parts[..k + 1])|
    ensures
      var s := Session(None, byClient);
      var turn := TurnAt(t, s, [opener] + parts, k + 1);
      var whole := FeedCommand(t, s, opener.command.(more := false), opener.body + Bodies(parts));
      && turn.outcome == whole.outcome == Nothing && turn.answers == whole.answers
      && turn.answers == Response(opener.command, Some("EBIG:payload"))
      && turn.next == Session(None, Names(byClient, parts[..k + 1]))
  {
    hide Finish, Standalone, IsAside, Bodies, Names, After;
    var s, all := Session(None, byClient), [opener] + parts;
    NamesAndBodiesGrow(byClient, parts, k);
    BodiesOnlyGrow(parts, k + 1);
    DuringTransfer(t, byClient, opener, parts, k);
    assert all[..k + 1] == [opener] + parts[..k] && all[k + 1] == parts[k];
  }

  /** A PNG sent in chunks, its text having picked up newlines and echoed keys on the way, arrives
      byte for byte. */
  lemma PictureArrives(t: Tools, byClient: map<nat, nat>, opener: Part, parts: seq<Part>,
                       pieces: seq<Base64.Piece>, cut: bool, bytes: seq<Byte>)
    requires Opens(opener.command) && Continues(opener.command.id, parts) && parts != []
    requires |opener.body| + |Bodies(parts)| <= MAX_PAYLOAD
    requires opener.command.format == PngFile && !opener.command.compressed
    requires opener.body + Bodies(parts) == Base64.Arrived(pieces) + if cut then [Base64.CARET] else []
    requires Base64.Noise(pieces) && Base64.Transmitted(pieces) == Base64.Encode(bytes)
    ensures
      var c := opener.command;
      TurnAt(t, Session(None, byClient), [opener] + parts, |parts|).outcome
      == Picture(Png, bytes, c.w, c.h, c.cols, c.rows, c.id, c.action == Display, c.freezeCursor)
  {
    hide After, TurnAt, Names, Bodies, OnTheWay, Continues, IsAside, Standalone;
    ChunksReassemble(t, byClient, opener, parts);
    Base64.EchoesAreRepaired(pieces, cut, bytes);
    WholePng(t, Session(None, byClient), opener.command.(more := false), opener.body + Bodies(parts), bytes);
  }

  lemma WholePng(t: Tools, s: Session, c: Command, body: seq<Byte>, bytes: seq<nat>)
    requires s.pending.None? && c.unsupported.None? && (c.action == Transmit || c.action == Display) && !c.more
    requires c.format == PngFile && !c.compressed && |body| <= MAX_PAYLOAD && Base64.Decode(body) == Some(bytes)
    ensures FeedCommand(t, s, c, body).outcome
         == Picture(Png, bytes, c.w, c.h, c.cols, c.rows, c.id, c.action == Display, c.freezeCursor)
  {
    hide Standalone, IsAside;
    assert [] + body == body;
  }

  // ----- any run -----

  /** What a session always is: a transfer under way was opener by a command that may open one, and
      holds no more than the bound. */
  predicate Bounded(s: Session) {
    s.pending.Some? ==> Opens(s.pending.value.command) && |s.pending.value.body| <= MAX_PAYLOAD
  }

  lemma FeedCommandBounded(t: Tools, s: Session, cmd: Command, body: seq<Byte>)
    requires Bounded(s)
    ensures Bounded(FeedCommand(t, s, cmd, body).next)
  {
    hide IsAside, Finish, Response;
    FinishIsTheSame(t, s.(pending := None), s, cmd, [] + body);
    if s.pending.Some? {
      FinishIsTheSame(t, s.(pending := None), s, s.pending.value.command, s.pending.value.body + body);
    }
  }

  /** What the rest of the terminal does between commands: naming a picture, and losing one. */
  function Bind(s: Session, client: nat, picture: nat): Session {
    if client == 0 then s else s.(byClient := s.byClient[client := picture])
  }

  function Forget(s: Session, picture: nat): Session {
    s.(byClient := map c | c in s.byClient && s.byClient[c] != picture :: s.byClient[c])
  }

  datatype Event = Fed(payload: seq<Byte>) | Bound(client: nat, picture: nat) | Forgotten(picture: nat)

  function Happen(t: Tools, s: Session, e: Event): Session {
    match e
    case Fed(payload) => Feed(t, s, payload).next
    case Bound(client, picture) => Bind(s, client, picture)
    case Forgotten(picture) => Forget(s, picture)
  }

  function History(t: Tools, events: seq<Event>): Session {
    if events == [] then Session(None, map[])
    else Happen(t, History(t, events[..|events| - 1]), events[|events| - 1])
  }

  /** In no run does a transfer hold more than the bound. */
  lemma {:induction false} TransfersAreBounded(t: Tools, events: seq<Event>)
    ensures Bounded(History(t, events))
  {
    hide FeedCommand, Parse;
    if events != [] {
      var s, e := History(t, events[..|events| - 1]), events[|events| - 1];
      TransfersAreBounded(t, events[..|events| - 1]);
      if e.Fed? && e.payload != [] && e.payload[0] == INTRODUCER {
        var rest := e.payload[1..];
        var at := Find(rest, SEMICOLON);
        FeedCommandBounded(t, s, Parse(t.lossy(rest[..at])), if at < |rest| then rest[at + 1..] else []);
      }
    }
  }

  /** A probe leaves no trace: neither a picture nor a name nor a transfer comes or goes. */
  lemma ProbeLeavesNoTrace(t: Tools, s: Session, cmd: Command, body: seq<Byte>)
    requires Settled(cmd) && cmd.explicitAction == Some(Query)
    ensures FeedCommand(t, s, cmd, body).next == s
    ensures FeedCommand(t, s, cmd, body).answers == Response(cmd, cmd.unsupported)
  {
  }

  /** A second picture while one is on its way: the first is dropped and said so, under its own id
      and first, and the second fares as if nothing had been there. */
  lemma DisplacedIsTold(t: Tools, s: Session, cmd: Command, body: seq<Byte>)
    requires s.pending.Some? && !IsAside(cmd)
    requires cmd.explicitId.Some? && cmd.explicitId.value != s.pending.value.command.id
    ensures
      var turn, anew := FeedCommand(t, s, cmd, body), FeedCommand(t, s.(pending := None), cmd, body);
      && turn.next == anew.next && turn.outcome == anew.outcome
      && turn.answers == Response(s.pending.value.command, Some("EINVAL:interleaved")) + anew.answers
  {
    hide Standalone, Take;
  }

  /** A command's answers never pass what its `q` lets through. */
  ghost predicate Allowed(cmd: Command, answers: seq<Answer>) {
    forall i :: 0 <= i < |answers| ==>
      answers[i].id == cmd.id != 0 && cmd.quiet < 2 && (cmd.quiet == 1 ==> answers[i].text != "OK")
  }

  lemma ResponseIsAllowed(cmd: Command, error: Option<string>)
    requires error != Some("OK")
    ensures Allowed(cmd, Response(cmd, error))
  {
  }

  lemma StandaloneIsAllowed(s: Session, cmd: Command)
    requires cmd.unsupported != Some("OK")
    ensures Allowed(cmd, Standalone(s, cmd).answers)
  {
    hide Response;
    ResponseIsAllowed(cmd, None);
    ResponseIsAllowed(cmd, cmd.unsupported);
    ResponseIsAllowed(cmd, Some("ENOENT:image"));
  }

  lemma TakeIsAllowed(t: Tools, s: Session, cmd: Command, buf: seq<Byte>, body: seq<Byte>, more: bool)
    ensures Allowed(cmd, Take(t, s, cmd, buf, body, more).answers)
  {
    hide Response, Described;
    ResponseIsAllowed(cmd, None);
    ResponseIsAllowed(cmd, Some("EBIG:payload"));
    ResponseIsAllowed(cmd, Some("EINVAL:base64"));
    ResponseIsAllowed(cmd, Some("EINVAL:compression"));
    ResponseIsAllowed(cmd, Some("EINVAL:dimensions"));
  }

  lemma BeginIsAllowed(t: Tools, s: Session, cmd: Command, body: seq<Byte>)
    requires cmd.unsupported != Some("OK")
    ensures Allowed(cmd, Begin(t, s, cmd, body).answers)
  {
    hide Response, Take, Standalone;
    ResponseIsAllowed(cmd, cmd.unsupported);
    StandaloneIsAllowed(s, cmd);
    TakeIsAllowed(t, s, cmd, [], body, cmd.more);
  }

  /** Every answer is owed: first to the command whose transfer was under way, then to this one. */
  lemma AnswersAreOwed(t: Tools, s: Session, cmd: Command, body: seq<Byte>)
    requires cmd.unsupported != Some("OK")
    ensures
      var answers := FeedCommand(t, s, cmd, body).answers;
      if s.pending.None? then Allowed(cmd, answers)
      else exists k :: 0 <= k <= |answers| && Allowed(s.pending.value.command, answers[..k]) && Allowed(cmd, answers[k..])
  {
    hide Response, Begin, Take, Standalone, IsAside;
    BeginIsAllowed(t, s.(pending := None), cmd, body);
    StandaloneIsAllowed(s, cmd);
    var answers := FeedCommand(t, s, cmd, body).answers;
    if s.pending.None? {
      assert s.(pending := None) == s;
    } else {
      var opener := s.pending.value.command;
      TakeIsAllowed(t, s, opener, s.pending.value.body, body, cmd.more);
      ResponseIsAllowed(opener, Some("EINVAL:interleaved"));
      if IsAside(cmd) {
        assert answers[..0] == [] && answers[0..] == answers;
      } else if cmd.explicitId.Some? && cmd.explicitId.value != opener.id {
        var refusal, rest := Response(opener, Some("EINVAL:interleaved")), Begin(t, s.(pending := None), cmd, body).answers;
        assert answers == refusal + rest;
        assert answers[..|refusal|] == refusal && answers[|refusal|..] == rest;
      } else {
        assert answers[..|answers|] == answers && answers[|answers|..] == [];
      }
    }
  }

  /** A place finds what was last bound to its id, unless that was deleted or lost since. */
  lemma PlaceFindsItsPicture(s: Session, client: nat, picture: nat, lost: nat, cmd: Command)
    requires cmd.action == Put && cmd.unsupported.None? && client != 0
    ensures
      var turn := Standalone(Forget(Bind(s, client, picture), lost), cmd);
      cmd.id == client ==> turn.outcome == if picture == lost then Nothing else Place(picture, cmd.freezeCursor)
    ensures
      Standalone(Forget(s, lost), cmd).outcome != Place(lost, cmd.freezeCursor)
  {
  }
}

/** The protocol's state as the original keeps it, updated in place. */
module KittyObject {
  import opened Cells
  import opened Utf8
  import opened KittyProtocol
  import Base64

  /** Reads control data a pair at a time. */
  method ParseControl(control: string) returns (cmd: Command)
    ensures cmd == Parse(control)
  {
    hide ReadPair;
    cmd := DEFAULT;
    var rest, done := control, false;
    while !done
      invariant done ==> cmd == Parse(control)
      invariant !done ==> ReadAll(cmd, rest) == Parse(control)
      decreases !done, |rest|
    {
      var at := Find(rest, ',');
      cmd := ReadPair(cmd, rest[..at]);
      if at < |rest| {
        rest := rest[at + 1..];
      } else {
        done := true;
      }
    }
  }

  class Kitty {
    var pending: Option<Transfer>
    var byClient: map<nat, nat>

    ghost function Value(): Session
      reads this
    {
      Session(pending, byClient)
    }

    constructor ()
      ensures Value() == Session(None, map[])
    {
      pending, byClient := None, map[];
    }

    method BindClient(client: nat, picture: nat)
      modifies this`byClient
      ensures Value() == Bind(old(Value()), client, picture)
    {
      if client != 0 {
        byClient := byClient[client := picture];
      }
    }

    method ForgetPicture(picture: nat)
      modifies this`byClient
      ensures Value() == Forget(old(Value()), picture)
    {
      byClient := map c | c in byClient && byClient[c] != picture :: byClient[c];
    }

    method FeedPayload(t: Tools, payload: seq<Byte>) returns (outcome: Outcome, answers: seq<Answer>)
      modifies this
      ensures Turn(Value(), outcome, answers) == Feed(t, old(Value()), payload)
    {
      hide Parse, Base64.Decode, Response;
      if payload == [] || payload[0] != INTRODUCER {
        return Nothing, [];
      }
      var rest := payload[1..];
      var at := Find(rest, SEMICOLON);
      var cmd := ParseControl(t.lossy(rest[..at]));
      var body := if at < |rest| then rest[at + 1..] else [];
      outcome, answers := Obey(t, cmd, body);
    }

    method Obey(t: Tools, cmd: Command, body: seq<Byte>) returns (outcome: Outcome, answers: seq<Answer>)
      modifies this
      ensures Turn(Value(), outcome, answers) == FeedCommand(t, old(Value()), cmd, body)
    {
      hide Base64.Decode, Response, Finish, Standalone;
      if pending.Some? {
        if IsAside(cmd) {
          outcome, answers := AnswerAlone(cmd);
          return;
        }
        var opener, buf := pending.value.command, pending.value.body;
        pending := None;
        if cmd.explicitId.Some? && cmd.explicitId.value != opener.id {
          var refusal := Response(opener, Some("EINVAL:interleaved"));
          outcome, answers := BeginTransfer(t, cmd, body);
          answers := refusal + answers;
          return;
        }
        if |buf| + |body| > MAX_PAYLOAD {
          return Nothing, Response(opener, Some("EBIG:payload"));
        }
        buf := buf + body;
        if cmd.more {
          pending := Some(Transfer(opener, buf));
          return Incomplete, [];
        }
        outcome, answers := Complete(t, opener, buf);
        return;
      }
      outcome, answers := BeginTransfer(t, cmd, body);
    }

    method AnswerAlone(cmd: Command) returns (outcome: Outcome, answers: seq<Answer>)
      modifies this`byClient
      ensures Turn(Value(), outcome, answers) == Standalone(old(Value()), cmd)
    {
      hide Response;
      if cmd.unsupported.Some? {
        return Nothing, Response(cmd, cmd.unsupported);
      }
      match cmd.action {
        case Query =>
          return Nothing, Response(cmd, None);
        case Delete =>
          byClient := byClient - {cmd.id};
          return Nothing, Response(cmd, None);
        case Put =>
          if cmd.id in byClient {
            return Place(byClient[cmd.id], cmd.freezeCursor), Response(cmd, None);
          }
          return Nothing, Response(cmd, Some("ENOENT:image"));
        case _ =>
          return Nothing, [];
      }
    }

    method BeginTransfer(t: Tools, cmd: Command, body: seq<Byte>) returns (outcome: Outcome, answers: seq<Answer>)
      requires pending.None?
      modifies this
      ensures Turn(Value(), outcome, answers) == Begin(t, old(Value()), cmd, body)
    {
      hide Response, Finish, Standalone;
      if cmd.unsupported.Some? {
        return Nothing, Response(cmd, cmd.unsupported);
      }
      if cmd.action != Transmit && cmd.action != Display {
        outcome, answers := AnswerAlone(cmd);
        return;
      }
      if |body| > MAX_PAYLOAD {
        return Nothing, Response(cmd, Some("EBIG:payload"));
      }
      var buf := [] + body;
      if cmd.more {
        pending := Some(Transfer(cmd, buf));
        return Incomplete, [];
      }
      outcome, answers := Complete(t, cmd, buf);
    }

    method Complete(t: Tools, cmd: Command, base64: seq<Byte>) returns (outcome: Outcome, answers: seq<Answer>)
      ensures Turn(Value(), outcome, answers) == Finish(t, Value(), cmd, base64)
    {
      hide Response, TrueLen, Base64.Decode;
      var raw := Base64.DecodeBase64(base64);
      if raw.None? {
        return Nothing, Response(cmd, Some("EINVAL:base64"));
      }
      if cmd.compressed {
        raw := t.inflate(raw.value, MAX_PAYLOAD);
        if raw.None? {
          return Nothing, Response(cmd, Some("EINVAL:compression"));
        }
      }
      var held := (Png, raw.value);
      if cmd.format != PngFile {
        var needed := ExpectedLen(cmd);
        if !(0 < needed <= 2 * |raw.value|) {
          return Nothing, Response(cmd, Some("EINVAL:dimensions"));
        }
        held := t.contain(cmd.format, cmd.w, cmd.h, raw.value);
      }
      return Picture(held.0, held.1, cmd.w, cmd.h, cmd.cols, cmd.rows, cmd.id, cmd.action == Display,
                   cmd.freezeCursor),
             Response(cmd, None);
    }
  }
}
