/** The whole status line (statusline.js:46-236): the parts, the context
    part and the fitting, for the facts gathered about the session. */
module StatusLine {
  import opened Wrappers
  import opened Ansi
  import opened Palette
  import opened Strings
  import opened Segments
  import ContextBar
  import Fitting

  /** `process.stdout.columns || 120`: an absent or zero width means 120. */
  function Columns(reported: Option<int>): int
  {
    if reported.Some? && reported.value != 0 then reported.value else 120
  }

  /** The line written for the facts, the remaining context percentage
      (rounded) and the reported terminal width. */
  function Line(f: Facts, remaining: Option<int>, reported: Option<int>): string
  {
    Fitting.Output(Parts(f), ContextBar.ContextPart(remaining), Columns(reported))
  }

  /** Build the parts, build the context part, fit them. */
  method Render(f: Facts, remaining: Option<int>, reported: Option<int>) returns (line: string)
    ensures line == Line(f, remaining, reported)
  {
    var parts := CollectParts(f);
    var contextPart := ContextBar.BuildContextPart(remaining);
    line := Fitting.FitLine(parts, contextPart, Columns(reported));
  }

  /** The model part always opens the line, whatever the width. */
  lemma LineStartsWithModel(f: Facts, remaining: Option<int>, reported: Option<int>)
    ensures StartsWith(Line(f, remaining, reported), ModelSegment(f.displayName))
  {
    PartsStart(f);
    Fitting.FitStartsWithFirst(Parts(f), ContextBar.ContextPart(remaining), Columns(reported));
  }

  /** The context part, present exactly when the session reports a
      percentage (`ContextBar.ContextPresent`), always closes the line,
      after one separator. */
  lemma LineEndsWithContext(f: Facts, remaining: Option<int>, reported: Option<int>)
    ensures var contextPart := ContextBar.ContextPart(remaining);
            contextPart != "" ==> EndsWith(Line(f, remaining, reported), Sep + contextPart)
  {
    var contextPart := ContextBar.ContextPart(remaining);
    if contextPart != "" {
      Fitting.FitEndsWithContext(Parts(f), contextPart, Columns(reported));
    }
  }

  /** Without a context percentage the line is the left-hand parts alone,
      fitted to the whole width. */
  lemma LineWithoutContext(f: Facts, reported: Option<int>)
    ensures Line(f, None, reported) == Fitting.LeftStr(Parts(f), Columns(reported))
  {
    ContextBar.ContextPresent(None);
    assert Fitting.MaxLeft(Columns(reported), "") == Columns(reported);
  }

  /** Unless even the model part overflows on its own, the line fits the
      terminal. */
  lemma LineFits(f: Facts, remaining: Option<int>, reported: Option<int>)
    requires Fitting.Kept(Parts(f), Fitting.MaxLeft(Columns(reported), ContextBar.ContextPart(remaining))) > 0
    ensures VisLen(Line(f, remaining, reported)) <= Columns(reported)
  {
    Fitting.FitWithinBudget(Parts(f), ContextBar.ContextPart(remaining), Columns(reported));
  }

  /** On a terminal wide enough for everything, every part is shown, in
      priority order, joined by the separator. */
  lemma WideTerminal(f: Facts, remaining: Option<int>, reported: Option<int>)
    requires Fitting.PrefixWidth(Parts(f), |Parts(f)|)
             <= Fitting.MaxLeft(Columns(reported), ContextBar.ContextPart(remaining))
    ensures var left := Join(Parts(f), Sep);
            Line(f, remaining, reported) ==
              if remaining.Some? then left + Sep + ContextBar.ContextPart(remaining) else left
  {
    PartsStart(f);
    ContextBar.ContextPresent(remaining);
    Fitting.FitAll(Parts(f), ContextBar.ContextPart(remaining), Columns(reported));
  }
}
