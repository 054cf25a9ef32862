/** The state `print` and `print_str` change (src/emu/term/perform.rs), as an object over a
    `Screen`. Printing a whole text in batches is proved to leave exactly what printing it one
    character at a time leaves: grid, attachments, damage, cursor, segmenter and history. */
module TerminalObject {
  import opened Cells
  import opened Grid
  import opened GridLaws
  import opened Print
  import opened ScreenObject

  lemma DecorateWf(s: Term, g: Grid, width: nat)
    requires Wf(g)
    ensures Wf(Decorate(s, g, width))
  {
    AttachmentsSound(g, s.underline, s.link, width, Placement(0, 0, 0, 0, 0), PLAIN);
    var lined := if s.underline != DefaultColor then UnderlineCell(g, s.underline, width) else g;
    AttachmentsSound(lined, s.underline, s.link, width, Placement(0, 0, 0, 0, 0), PLAIN);
  }

  lemma PlacedWf(s: Term, c: char, width: nat)
    requires Wf(s.grid) && width >= 1
    ensures Wf(Decorate(s, Place(s.grid, c, width, s.pen).0, width))
  {
    PlaceSound(s.grid, c, width, s.pen);
    DecorateWf(s, Place(s.grid, c, width, s.pen).0, width);
  }

  lemma PrintCharWf(t: Tables, s: Term, raw: char)
    requires TermWf(s)
    ensures TermWf(PrintChar(t, s, raw))
  {
    var c := if s.decGraphics then t.decGraphic(raw) else raw;
    match Push(t, s.seg, c).1
    case NewCell(width) => PlacedWf(s, c, width);
    case JoinCell(before, after) => JoinSound(s.grid, c, before, after);
  }

  /** One character printed, and the text after it. */
  lemma PrintEachNext(t: Tables, s: Term, text: string)
    requires Shape(s.grid) && text != []
    ensures PrintEach(t, s, text) == PrintEach(t, PrintChar(t, s, text[0]), text[1..])
  {
    hide PrintChar;
  }

  /** Printing leaves the pen, and with it whether runs may be printed in one piece. */
  lemma BatchedStays(t: Tables, s: Term, raw: char, g: Grid)
    requires Shape(s.grid)
    ensures Batched(PrintChar(t, s, raw)) == Batched(s) == Batched(AfterRun(s, g, raw))
  {
    hide Place, Join, Decorate, Push;
  }

  lemma PrintedAll(t: Tables, s: Term)
    requires Shape(s.grid)
    ensures PrintEach(t, s, []) == s
  {
  }

  class Terminal {
    const tables: Tables
    const screen: Screen
    var seg: Segmenter
    var lastPrint: Option<char>
    var archived: Evicted
    var pen: Style
    var underline: Color
    var link: Option<nat>
    var decGraphics: bool
    var onAlt: bool

    ghost function Value(): Term
      reads this, screen
    {
      Term(screen.Value(), seg, lastPrint, archived, pen, underline, link, decGraphics, onAlt)
    }

    ghost predicate Valid()
      reads this, screen
    {
      Wf(screen.Value())
    }

    constructor (tables: Tables, screen: Screen, pen: Style)
      requires Wf(screen.Value())
      ensures Valid() && this.tables == tables && this.screen == screen
      ensures Value() == Term(screen.Value(), Segmenter("", 0, false), None, [], pen, DefaultColor, None, false, false)
    {
      this.tables, this.screen, this.pen := tables, screen, pen;
      seg := Segmenter("", 0, false);
      lastPrint, archived, underline, link := None, [], DefaultColor, None;
      decGraphics, onAlt := false, false;
    }

    /** A character that opens a cell of its own. */
    method PutCell(c: char, width: nat)
      requires Valid() && width >= 1
      modifies this`archived, this`lastPrint, screen
      ensures Value() == old(
        var (g, ev) := Place(Value().grid, c, width, pen);
        Value().(grid := Decorate(Value(), g, width), archived := Archive(Value(), ev), lastPrint := Some(c)))
    {
      var ev := screen.Place(c, width, pen);
      if underline != DefaultColor {
        screen.MarkUnderline(underline, width);
      }
      if link.Some? {
        screen.MarkLink(link, width);
      }
      if !onAlt {
        archived := archived + ev;
      }
      lastPrint := Some(c);
    }

    method Print(raw: char)
      requires Valid()
      modifies this, screen
      ensures Valid() && Value() == PrintChar(tables, old(Value()), raw)
    {
      PrintCharWf(tables, Value(), raw);
      var c := if decGraphics then tables.decGraphic(raw) else raw;
      var pushed := Push(tables, seg, c);
      match pushed.1
      case NewCell(width) =>
        PutCell(c, width);
        seg := pushed.0;
      case JoinCell(before, after) =>
        var settled := screen.Join(c, before, after);
        seg := pushed.0.(cells := settled);
    }

    /** A run the grid took in one piece. */
    method Landed(text: string, plain: nat) returns (placed: nat)
      requires Valid() && plain <= |text| && AllPrintable(text[..plain])
      modifies this`lastPrint, this`seg, screen
      ensures placed == WriteRun(old(Value()).grid, text[..plain], pen).1
      ensures placed == 0 ==> Value() == old(Value())
      ensures placed > 0 ==>
                Value() == AfterRun(old(Value()), WriteRun(old(Value()).grid, text[..plain], pen).0, text[placed - 1])
      ensures Valid()
    {
      WriteRunSound(screen.Value(), text[..plain], pen);
      placed := screen.WriteRun(text[..plain], pen);
      if placed > 0 {
        lastPrint := Some(text[placed - 1]);
        seg := Segmenter([text[placed - 1]], 1, false);
      }
    }

    method PrintStr(text: string)
      requires Valid()
      modifies this, screen
      ensures Valid() && Value() == PrintEach(tables, old(Value()), text)
    {
      hide PrintEach, PrintChar, WriteRun, AfterRun;
      var batched := !decGraphics && underline == DefaultColor && link.None?;
      var rest := text;
      while rest != []
        invariant Valid() && batched == Batched(Value())
        invariant PrintEach(tables, Value(), rest) == PrintEach(tables, old(Value()), text)
        decreases |rest|
      {
        ghost var was := Value();
        var plain := if batched then PlainLen(rest) else 0;
        var placed := 0;
        if plain != 0 {
          RunTurn(tables, was, rest, plain);
          placed := Landed(rest, plain);
        }
        if placed == 0 {
          PrintEachNext(tables, was, rest);
          BatchedStays(tables, was, rest[0], was.grid);
          Print(rest[0]);
          rest := rest[1..];
        } else {
          BatchedStays(tables, was, rest[placed - 1], WriteRun(was.grid, rest[..plain], was.pen).0);
          rest := rest[placed..];
        }
      }
      PrintedAll(tables, Value());
    }
  }
}
