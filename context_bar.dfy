/** The right-hand context part (statusline.js:167-202): a 15-cell gradient
    bar for the share of the context window in use, and a coloured
    percentage label.  The input is `Math.round(remaining)`, absent when
    the session reports no remaining percentage. */
module ContextBar {
  import opened Wrappers
  import opened Ansi
  import opened Palette
  import Decimal
  import Strings
  import opened Rounding

  const Segs: nat := 15

  /** `Math.max(0, Math.min(100, 100 - remaining))`. */
  function RawUsed(remaining: int): (r: int)
    ensures 0 <= r <= 100
    ensures 0 <= remaining <= 100 ==> r == 100 - remaining
    ensures remaining >= 100 <==> r == 0
    ensures remaining <= 0 <==> r == 100
  {
    if 100 - remaining < 0 then 0 else if 100 - remaining > 100 then 100 else 100 - remaining
  }

  /** `Math.min(100, Math.round((rawUsed / 80) * 100))`: the bar saturates
      once 80 per cent of the window is used. */
  function Used(rawUsed: int): int
  {
    var scaled := RoundHalfUp(rawUsed * 100, 80);
    if scaled < 100 then scaled else 100
  }

  /** The same expression evaluated as JavaScript does, in binary64: the
      quotient and the product are each rounded to the nearest double
      before `Math.round`.  Only the non-negative inputs reached are modelled. */
  function UsedAsWritten(rawUsed: int): int
  {
    if rawUsed <= 0 then 0
    else
      var quotient := Nearest(rawUsed, 80);
      var product := Nearest(100 * quotient.mant, Shift(1, quotient.exp));
      var scaled := RoundDouble(product);
      if scaled < 100 then scaled else 100
  }

  /** At 46 per cent raw usage the exact value is 57.5, which rounds to 58;
      the nearest double to 46 / 80 lies just below 0.575, and the nearest
      double to 100 times that lies below 57.5, so the line shows 57. */
  lemma UsedAsWrittenAt46()
    ensures Nearest(46, 80) == Double(5179139571476070, 53)
    ensures Nearest(100 * 5179139571476070, Shift(1, 53)) == Double(8092405580431359, 47)
    ensures UsedAsWritten(46) == 57
    ensures Used(46) == 58
  {
    PowersOfTwo();
    ShiftIsMul(80, 53);
    ShiftIsMul(46, 53);
    ShiftIsMul(46, 54);
    BinadeIs(46, 80, Top, 53);
    ShiftIsMul(9007199254740992, 53);
    ShiftIsMul(517913957147607000, 47);
    ShiftIsMul(517913957147607000, 48);
    BinadeIs(517913957147607000, 9007199254740992, Top, 47);
  }

  /** `Math.round((used / 100) * 15)`: the number of filled cells. */
  function Filled(used: int): int
  {
    RoundHalfUp(used * Segs, 100)
  }

  /** The four urgency bands: green, yellow, orange, red. */
  datatype Band = Safe | Caution | Warning | Critical

  function BandColour(b: Band): string
  {
    match b
    case Safe => Green
    case Caution => Yellow
    case Warning => Orange
    case Critical => Red
  }

  /** Band of cell `i`, from `pct = i / 15` against 0.4, 0.6 and 0.8
      (compared exactly: 0.4 * 15, 0.6 * 15 and 0.8 * 15 are whole). */
  function CellBand(i: int): Band
  {
    if i * 10 < 4 * Segs then Safe
    else if i * 10 < 6 * Segs then Caution
    else if i * 10 < 8 * Segs then Warning
    else Critical
  }

  /** Band of the label, chosen by the scaled usage. */
  function LabelBand(used: int): Band
  {
    if used < 63 then Safe
    else if used < 81 then Caution
    else if used < 95 then Warning
    else Critical
  }

  /** One cell of the bar: a coloured heavy line while filled, else a grey
      light line; each carries its own reset. */
  function Cell(i: int, filled: int): string
  {
    if i < filled then BandColour(CellBand(i)) + "━" + Reset else Grey + "─" + Reset
  }

  /** The first `n` cells, in order. */
  function Bar(n: nat, filled: int): string
  {
    if n == 0 then "" else Bar(n - 1, filled) + Cell(n - 1, filled)
  }

  /** The percentage label: the band's colour, the percentage, a reset;
      at 95 and above it also blinks and ends with a skull. */
  function Label(used: nat): string
  {
    LabelCodes(used) + LabelText(used) + Reset
  }

  function LabelCodes(used: nat): string
  {
    match LabelBand(used)
    case Critical => Blink + Red
    case b => BandColour(b)
  }

  /** What the label leaves visible. */
  function LabelText(used: nat): string
  {
    Decimal.Show(used) + (if used >= 95 then "% 💀" else "%")
  }

  /** `contextPart`. */
  function ContextPart(remaining: Option<int>): string
  {
    match remaining
    case None => ""
    case Some(r) =>
      var used := Used(RawUsed(r));
      UsedInRange(RawUsed(r));
      Bar(Segs, Filled(used)) + " " + Label(used)
  }

  /** What cell `i` shows: a heavy line while filled, else a light one. */
  function Glyph(i: int, filled: int): char
  {
    if i < filled then '━' else '─'
  }

  /** The visible glyphs of the first `n` cells. */
  function Glyphs(n: nat, filled: int): (g: string)
    ensures |g| == n
  {
    if n == 0 then "" else Glyphs(n - 1, filled) + [Glyph(n - 1, filled)]
  }

  /** statusline.js:168-202: the clamped usage, the loop that appends one
      cell per step, then the label.  `remaining` is the already rounded
      percentage, `None` when the session reports none.  The scaled usage is
      the exact `Used`, which differs from the binary64 evaluation of line
      171 at raw usage 46 (see `UsedAsWrittenAt46`). */
  method BuildContextPart(remaining: Option<int>) returns (contextPart: string)
    ensures contextPart == ContextPart(remaining)
  {
    contextPart := "";
    if remaining.Some? {
      var rawUsed := RawUsed(remaining.value);
      var used := Used(rawUsed);
      UsedInRange(rawUsed);
      var filled := Filled(used);
      var bar := "";
      for i := 0 to Segs
        invariant bar == Bar(i, filled)
      {
        var cell: string;
        if i < filled {
          cell := BandColour(CellBand(i)) + "━" + Reset;
        } else {
          cell := Grey + "─" + Reset;
        }
        bar := bar + cell;
      }
      var percent := Label(used);
      contextPart := bar + " " + percent;
    }
  }

  // ----- arithmetic -----

  /** On the integers reached, the scaling is `(5 * rawUsed + 2) / 4`, it
      stays within 0..100 and it saturates exactly from 80 on. */
  lemma UsedInRange(rawUsed: int)
    requires 0 <= rawUsed <= 100
    ensures Used(rawUsed) == (if 5 * rawUsed + 2 < 400 then (5 * rawUsed + 2) / 4 else 100)
    ensures 0 <= Used(rawUsed) <= 100
    ensures Used(rawUsed) == 100 <==> rawUsed >= 80
  {
    var s := RoundHalfUp(rawUsed * 100, 80);
    assert 4 * s - 2 <= 5 * rawUsed < 4 * s + 2;
    assert s == (5 * rawUsed + 2) / 4;
  }

  /** Scaled usage never decreases as raw usage grows. */
  lemma UsedMonotone(a: int, b: int)
    requires 0 <= a <= b <= 100
    ensures Used(a) <= Used(b)
  {
    UsedInRange(a);
    UsedInRange(b);
  }

  /** The filled count is `(3 * used + 10) / 20`, between 0 and 15; no cell
      is filled below 4 per cent and all are from 97 per cent on. */
  lemma FilledInRange(used: int)
    requires 0 <= used <= 100
    ensures Filled(used) == (3 * used + 10) / 20
    ensures 0 <= Filled(used) <= Segs
    ensures Filled(used) == 0 <==> used < 4
    ensures Filled(used) == Segs <==> used >= 97
  {
    var f := Filled(used);
    assert 20 * f - 10 <= 3 * used < 20 * f + 10;
  }

  /** Cells 0-5 are green, 6-8 yellow, 9-11 orange and 12-14 red. */
  lemma CellBands(i: int)
    requires 0 <= i < Segs
    ensures CellBand(i) == Safe <==> i <= 5
    ensures CellBand(i) == Caution <==> 6 <= i <= 8
    ensures CellBand(i) == Warning <==> 9 <= i <= 11
    ensures CellBand(i) == Critical <==> 12 <= i
  {
  }

  // ----- what the bar and the label look like -----

  lemma StripColouredGlyph(params: string, glyph: char, rest: string)
    requires AllParams(params) && glyph != Esc
    ensures Strip(Sgr(params) + [glyph] + Reset + rest) == [glyph] + Strip(rest)
  {
    var tail := Reset + rest;
    StripCode("0", rest);
    StripPlain([glyph], tail);
    StripCode(params, [glyph] + tail);
    assert Sgr(params) + [glyph] + Reset + rest == Sgr(params) + ([glyph] + tail);
  }

  lemma StripCell(i: int, filled: int, rest: string)
    ensures Strip(Cell(i, filled) + rest) == [Glyph(i, filled)] + Strip(rest)
  {
    if i < filled {
      var p := match CellBand(i)
        case Safe => "32" case Caution => "33" case Warning => "38;5;208" case Critical => "31";
      assert BandColour(CellBand(i)) == Sgr(p);
      StripColouredGlyph(p, '━', rest);
    } else {
      StripColouredGlyph("38;5;242", '─', rest);
    }
  }

  /** Every cell begins with ESC, so no match runs into it from the left. */
  lemma CellStartsWithEsc(i: int, filled: int)
    ensures Cell(i, filled) != [] && Cell(i, filled)[0] == Esc
  {
  }

  lemma BarStep(n: nat, filled: int)
    requires n > 0
    ensures Bar(n, filled) == Bar(n - 1, filled) + Cell(n - 1, filled)
    ensures Glyphs(n, filled) == Glyphs(n - 1, filled) + [Glyph(n - 1, filled)]
  {
  }

  /** The bar shows exactly its glyphs: `filled` heavy lines, then light ones. */
  lemma {:induction false} StripBarAlone(n: nat, filled: int)
    ensures Strip(Bar(n, filled)) == Glyphs(n, filled)
  {
    if n > 0 {
      StripBarAlone(n - 1, filled);
      BarStep(n, filled);
      CellStartsWithEsc(n - 1, filled);
      StripSplitAtEsc(Bar(n - 1, filled), Cell(n - 1, filled));
      StripCellAlone(n - 1, filled);
    }
  }

  lemma StripCellAlone(i: int, filled: int)
    ensures Strip(Cell(i, filled)) == [Glyph(i, filled)]
  {
    StripCell(i, filled, []);
    assert Cell(i, filled) + [] == Cell(i, filled);
  }

  /** Whatever follows it, the bar is stripped to its glyphs. */
  lemma StripBar(n: nat, filled: int, rest: string)
    ensures Strip(Bar(n, filled) + rest) == Glyphs(n, filled) + Strip(rest)
  {
    if n == 0 {
      assert Bar(0, filled) + rest == rest;
    } else {
      StripBarCells(n, filled, rest);
    }
  }

  lemma StripBarCells(n: nat, filled: int, rest: string)
    requires n > 0
    ensures Strip(Bar(n, filled) + rest) == Glyphs(n, filled) + Strip(rest)
  {
    var bar, cell := Bar(n - 1, filled), Cell(n - 1, filled);
    CellStartsWithEsc(n - 1, filled);
    StripBarAlone(n - 1, filled);
    StripCell(n - 1, filled, rest);
    StripAppendCell(bar, cell, rest, Glyphs(n - 1, filled), [Glyph(n - 1, filled)]);
  }

  /** One more cell, stripped to its glyph, extends the stripped bar. */
  lemma StripAppendCell(bar: string, cell: string, rest: string, glyphs: string, g: string)
    requires cell != [] && cell[0] == Esc
    requires Strip(bar) == glyphs && Strip(cell + rest) == g + Strip(rest)
    ensures Strip(bar + cell + rest) == glyphs + g + Strip(rest)
  {
    Strings.Assoc(bar, cell, rest);
    StripSplitAtEsc(bar, cell + rest);
    Strings.Assoc(glyphs, g, Strip(rest));
  }

  lemma StripLabelCodes(used: nat, rest: string)
    ensures Strip(LabelCodes(used) + rest) == Strip(rest)
  {
    if LabelBand(used) == Critical {
      assert Sgr("5") + Sgr("31") + rest == Sgr("5") + (Sgr("31") + rest);
      StripCode("5", Sgr("31") + rest);
      StripCode("31", rest);
    } else {
      var p := match LabelBand(used)
        case Safe => "32" case Caution => "33" case Warning => "38;5;208" case Critical => "31";
      assert LabelCodes(used) == Sgr(p);
      StripCode(p, rest);
    }
  }

  lemma StripLabel(used: nat)
    ensures Strip(Label(used)) == LabelText(used)
  {
    var text := LabelText(used);
    Ansi.NumeralWidth(used);
    assert Esc !in text;
    assert LabelCodes(used) + text + Reset == LabelCodes(used) + (text + Reset);
    StripLabelCodes(used, text + Reset);
    StripPlain(text, Reset);
    StripCode("0", []);
    assert Reset + [] == Reset;
    assert text + [] == text;
  }

  /** The visible text of the context part: the 15 glyphs, a space, the
      percentage and, from 95 on, a space and the skull. */
  lemma ContextText(r: int)
    ensures var used := Used(RawUsed(r));
            used >= 0 &&
            Strip(ContextPart(Some(r))) == Glyphs(Segs, Filled(used)) + " " + LabelText(used)
  {
    var used := Used(RawUsed(r));
    UsedInRange(RawUsed(r));
    var f := Filled(used);
    StripBar(Segs, f, " " + Label(used));
    StripPlain(" ", Label(used));
    StripLabel(used);
    assert ContextPart(Some(r)) == Bar(Segs, f) + (" " + Label(used));
  }

  /** Visible width of the context part: 15 + 1 + digits + 1, and 3 more
      (a space and the two code units of the skull) from 95 on. */
  lemma ContextWidth(r: int)
    ensures var used := Used(RawUsed(r));
            0 <= used <= 100 &&
            VisLen(ContextPart(Some(r))) ==
              Segs + 1 + |Decimal.Show(used)| + 1 + (if used >= 95 then 3 else 0)
  {
    var used := Used(RawUsed(r));
    UsedInRange(RawUsed(r));
    ContextText(r);
    var g := Glyphs(Segs, Filled(used));
    GlyphsWidth(Segs, Filled(used));
    LabelTextWidth(used);
    Utf16LengthThree(g, " ", LabelText(used));
  }

  lemma LabelTextWidth(used: nat)
    ensures Utf16Length(LabelText(used)) == |Decimal.Show(used)| + (if used >= 95 then 4 else 1)
  {
    Ansi.NumeralWidth(used);
    var tail := if used >= 95 then "% 💀" else "%";
    assert Utf16Length("%") == 1;
    assert Utf16Length("💀") == 2;
    assert Utf16Length(" 💀") == 3 by { assert " 💀"[1..] == "💀"; }
    assert Utf16Length("% 💀") == 4 by { assert "% 💀"[1..] == " 💀"; }
    assert Utf16Length(tail) == (if used >= 95 then 4 else 1);
    Utf16LengthConcat(Decimal.Show(used), tail);
  }

  lemma Utf16LengthThree(a: string, b: string, c: string)
    ensures Utf16Length(a + b + c) == Utf16Length(a) + Utf16Length(b) + Utf16Length(c)
  {
    Utf16LengthConcat(a + b, c);
    Utf16LengthConcat(a, b);
  }

  /** Glyph `i` of the bar is heavy exactly when `i < filled`. */
  lemma {:induction false} GlyphAt(n: nat, filled: int, i: nat)
    requires i < n
    ensures Glyphs(n, filled)[i] == (if i < filled then '━' else '─')
  {
    if i < n - 1 {
      GlyphAt(n - 1, filled, i);
    }
  }

  lemma {:induction false} GlyphsWidth(n: nat, filled: int)
    ensures Utf16Length(Glyphs(n, filled)) == n
  {
    if n > 0 {
      GlyphsWidth(n - 1, filled);
      Utf16LengthConcat(Glyphs(n - 1, filled), [Glyph(n - 1, filled)]);
    }
  }

  /** The context part is present exactly when a remaining percentage is. */
  lemma ContextPresent(remaining: Option<int>)
    ensures ContextPart(remaining) != "" <==> remaining.Some?
  {
    if remaining.Some? {
      ContextWidth(remaining.value);
    }
  }

  // ----- worked examples -----

  /** Nothing used: no filled cell, green "0%". */
  lemma EmptyWindow()
    ensures Used(RawUsed(100)) == 0 && Filled(0) == 0 && LabelBand(0) == Safe
  {
    UsedInRange(0);
    FilledInRange(0);
  }

  /** Window exhausted: all 15 cells, blinking red "100% 💀". */
  lemma FullWindow()
    ensures Used(RawUsed(0)) == 100 && Filled(100) == Segs && LabelBand(100) == Critical
  {
    UsedInRange(100);
    FilledInRange(100);
  }

  /** 40 per cent remaining: 60 used, scaled to 75, 11 cells, yellow label. */
  lemma FortyRemaining()
    ensures RawUsed(40) == 60 && Used(60) == 75 && Filled(75) == 11 && LabelBand(75) == Caution
  {
    UsedInRange(60);
    FilledInRange(75);
  }
}
