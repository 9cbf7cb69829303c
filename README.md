# tikket-statusline layout core, in Dafny

`statusline.js` prints one line for a coding-assistant session. The line gathers the following parts:

- the model name;
- the git branch, with dirty, ahead and behind flags;
- the stash count;
- the directory, with a worktree marker;
- the package version;
- the age of the last commit;
- the current task;
- the number of running sub-agents;
- on the right, a 15-cell gradient bar for the share of the context window in use, with a coloured percentage label.

The line is fitted to the terminal width. The context part stays on the right. Left-hand parts are added whole, in priority order, until the next one would overflow.

This project models the pure layout logic that runs once everything has been gathered:

- **`Ansi`**: `visLen`, the visible-width measurer. A single left-to-right pass deletes every SGR control sequence `ESC [ {digit|;}* m` (Select Graphic Rendition, section 8.3.117 of ECMA-48). `Strip` is the reference function and `StripScan` the explicit scanner proved equal to it. What is left is counted in UTF-16 code units, JavaScript's `.length`, so the skull glyph counts 2.
- **`Palette`**: the colour table and the separator, whose measured width equals the constant 3 the code uses.
- **`Rounding`**: `Math.round` on exact rationals. It also holds a model of IEEE 754 binary64 round-to-nearest-even (section 4.3.1 of IEEE 754-2008) for positive quotients and products in [2^-11, 2^53). That range covers every value statusline.js:171 reaches (1/80 to 125). Outside it, the model is not binary64.
- **`ContextBar`**: the arithmetic from the rounded remaining percentage to used, scaled and filled cells. It also holds the colour bands, the bar loop, the label and the context part's visible text and width.
- **`Strings`**: `indexOf`, `replace` of the first occurrence, `split`, `join` and `filter(Boolean).length`.
- **`Decimal`**: how template literals print non-negative integers.
- **`Segments`**: each left-hand part, built from facts given as parameters, and the `parts.push` sequence.
- **`Fitting`**: the greedy fitting loop, its fallback and the final join.
- **`StatusLine`**: the segment list, the context part and the fitting, composed.

The loops of the source stay loops, each proved against a reference function:

- the bar loop;
- the `running++` counter;
- the fitting loop with its `break` and fallback.

The `parts.push` sequence is straight-line code, and `Segments.CollectParts` keeps it straight-line. The global regex replacement in `visLen` is a library call; `Ansi.StripScan` carries it out as an explicit scan proved equal to `Ansi.Strip`.

Stripping is not idempotent: removing the inner sequence of ESC ESC [ m [ m leaves a new complete one, which only a second pass removes (`Ansi.StripNotIdempotent`).

The context part uses the exact scaled usage `ContextBar.Used`. It differs from the program at raw usage 46 (remaining 54): evaluated in binary64, statusline.js:171 gives 57 there, and the model gives 58 (see Findings).

## Model

| member | source | states |
|---|---|---|
| Ansi.Strip | statusline.js:205 | the single left-to-right pass of the global replacement: a complete SGR sequence at the current position is deleted and the pass resumes after it, any other character is kept; the result is never longer than the input |
| Ansi.VisLen | statusline.js:205 | `visLen`: the UTF-16 length of what the pass leaves |
| Ansi.MatchSgrAt | statusline.js:205 | the length of the SGR sequence the regex matches at a position, or 0 when none starts there |
| Ansi.StripScan | statusline.js:205 | the explicit scan returns exactly the string the global regex replacement leaves |
| Ansi.VisibleWidth | statusline.js:205 | `visLen` is the UTF-16 length of the stripped string |
| Ansi.ParamRun | statusline.js:205 | the greedy run of digits and semicolons: all of them qualify, and the next character does not |
| Ansi.StripCode | statusline.js:205 | one complete sequence, including the bare `ESC[m`, is removed whatever follows it |
| Ansi.StripPlain | statusline.js:205 | text without ESC passes through the pass unchanged |
| Ansi.VisLenColoured | statusline.js:205 | a piece of plain text between two SGR sequences measures as the text alone |
| Ansi.StripSplitAtEsc | statusline.js:205 | when the second string begins with ESC, stripping a concatenation strips each half |
| Ansi.SgrBeforeEsc | statusline.js:205 | a following string that begins with ESC neither creates nor changes a match in the string before it |
| Ansi.VisLenSplitAtEsc | statusline.js:205 | widths add across such a split |
| Ansi.StripNotIdempotent | statusline.js:205 | on ESC ESC [ m [ m one pass leaves ESC [ m and a second pass leaves nothing, so the pass is not idempotent |
| Ansi.SkullCountsTwo | statusline.js:198 | the skull, outside the Basic Multilingual Plane, has width 2 |
| Ansi.Utf16Length | statusline.js:205 | `.length` is between the number of characters and twice that |
| Ansi.Utf16LengthConcat | statusline.js:205 | `.length` is additive over concatenation |
| Ansi.NumeralWidth | statusline.js:192 | a printed number contains no ESC and one code unit per digit |
| Palette.SepWidth | statusline.js:208 | the separator built at line 45 measures exactly the hard-coded `sepVis` of 3 |
| Palette.VisLenAroundSep | statusline.js:221-224 | joining with the separator adds exactly 3 to the width |
| Palette.StripSep | statusline.js:45 | stripping leaves the separator's three visible characters |
| Decimal.Show | statusline.js:192 | printed numbers are non-empty strings of digits without a leading zero |
| Decimal.ValueOfShow | statusline.js:192 | reading a printed number back gives the number |
| Decimal.ShowInjective | statusline.js:192 | distinct numbers print differently |
| Decimal.ShowLengthPercent | statusline.js:192 | percentages 0..100 print with 1, 2 or 3 digits |
| Strings.IndexOf | statusline.js:49 | the result is an occurrence of the pattern and no earlier position is one; no result means no occurrence |
| Strings.ReplaceFirst | statusline.js:49 | only the first occurrence is replaced, and nothing changes without one |
| Strings.Split | statusline.js:76 | `split` with a string separator: the pieces between successive first occurrences, at least one |
| Strings.Join | statusline.js:223 | the pieces joined by the separator, as the loop's `+=` builds `leftStr` |
| Strings.CountNonEmpty | statusline.js:76 | `filter(Boolean).length` on strings: how many pieces are non-empty |
| Strings.JoinSplit | statusline.js:76 | joining the pieces of a split with the separator restores the string |
| Strings.SplitPiecesFree | statusline.js:76 | no piece of a split contains the separator |
| Strings.CountNonEmptyConcat | statusline.js:76 | counting the non-empty strings is additive over concatenation |
| Strings.StartsWithConcat | statusline.js:233 | a prefix stays a prefix whatever is appended |
| Rounding.RoundHalfUp | statusline.js:171 | `Math.round` of a rational: the nearest integer, ties going up |
| Rounding.RoundHalfEven | statusline.js:171 | the nearest integer, ties going to the even one |
| Rounding.Nearest | statusline.js:171 | for a positive quotient in [2^-11, 2^53), which covers every value line 171 reaches, the binary64 result of the division: within half a unit in the last place of the exact quotient |
| Rounding.NearestNormal | statusline.js:171 | for quotients in range the exact quotient, scaled by the chosen exponent, lies in [2^52, 2^53), and the significand in [2^52, 2^53]; 2^53 is reached when the quotient rounds up into the next binade |
| Rounding.RoundDouble | statusline.js:171 | `Math.round` of a binary64 value, ties going up |
| Rounding.BinadeBounds | statusline.js:171 | the chosen exponent is the largest that keeps the scaled quotient below 2^53 |
| Rounding.BinadeIs | statusline.js:171 | conversely, those bounds determine the exponent |
| ContextBar.RawUsed | statusline.js:170 | raw usage is in 0..100, equals 100 minus remaining inside that range, and is 0 or 100 exactly at the clamps |
| ContextBar.Used | statusline.js:171 | `Math.min(100, Math.round((rawUsed / 80) * 100))` with the quotient and the product taken exactly |
| ContextBar.UsedAsWritten | statusline.js:171 | the same expression with the quotient and the product each rounded to the nearest binary64 value before `Math.round` |
| ContextBar.UsedInRange | statusline.js:171 | scaled usage is `(5 * rawUsed + 2) / 4` capped at 100, within 0..100, and reaches 100 exactly from raw usage 80 on |
| ContextBar.UsedMonotone | statusline.js:171 | scaled usage never decreases as raw usage grows |
| ContextBar.UsedAsWrittenAt46 | statusline.js:171 | in binary64, raw usage 46 scales to 57, where exact rounding gives 58 |
| ContextBar.Filled | statusline.js:173 | `Math.round((used / 100) * 15)` on exact rationals |
| ContextBar.FilledInRange | statusline.js:173 | filled cells are `(3 * used + 10) / 20`, within 0..15; none below 4 and all from 97 on |
| ContextBar.CellBand | statusline.js:178-183 | the colour band of cell `i`, from `i / 15` against 0.4, 0.6 and 0.8 |
| ContextBar.LabelBand | statusline.js:191-199 | the label's band: green below 63, yellow below 81, orange below 95, blinking red from 95 |
| ContextBar.Cell | statusline.js:177-187 | cell `i`: its band's colour, a heavy line and a reset while filled, else grey, a light line and a reset |
| ContextBar.Bar | statusline.js:175-188 | the first `n` cells, in order, as the loop appends them |
| ContextBar.Label | statusline.js:190-199 | the label: the band's codes, the percentage, `%` (with ` 💀` from 95 on) and a reset |
| ContextBar.ContextPart | statusline.js:168-201 | `contextPart`: "" without a remaining percentage, else the 15-cell bar, a space and the label |
| ContextBar.CellBands | statusline.js:178-183 | cells 0-5 are green, 6-8 yellow, 9-11 orange and 12-14 red, each in both directions |
| ContextBar.StripCell | statusline.js:176-187 | each cell, with its colour and reset, shows a heavy line when filled and a light line otherwise |
| ContextBar.CellStartsWithEsc | statusline.js:184-186 | every cell begins with ESC |
| ContextBar.Glyphs | statusline.js:176 | the visible bar has one glyph per cell |
| ContextBar.StripBarAlone | statusline.js:175-188 | the bar strips to its glyphs |
| ContextBar.StripBar | statusline.js:175-188 | whatever follows it, the bar strips to its glyphs |
| ContextBar.GlyphAt | statusline.js:176-187 | glyph `i` is heavy exactly when `i < filled` |
| ContextBar.GlyphsWidth | statusline.js:175-188 | the bar is exactly 15 code units wide |
| ContextBar.StripLabelCodes | statusline.js:191-199 | the label's colour codes, blink included, leave nothing visible |
| ContextBar.StripLabel | statusline.js:190-199 | the label shows the percentage and a `%`, with ` 💀` added from 95 on |
| ContextBar.LabelTextWidth | statusline.js:191-198 | the label is as wide as its digits plus 1, or plus 4 from 95 on |
| ContextBar.ContextText | statusline.js:201 | the context part shows the 15 glyphs, a space and the label text |
| ContextBar.ContextWidth | statusline.js:201 | the context part is 15 + 1 + digits + 1 wide, plus 3 from 95 on |
| ContextBar.ContextPresent | statusline.js:168-169 | the context part is non-empty exactly when a remaining percentage is reported |
| ContextBar.BuildContextPart | statusline.js:168-202 | the bar loop and the label build exactly the reference context part |
| ContextBar.EmptyWindow | statusline.js:169-199 | with 100 remaining, nothing is used, no cell is filled and the label is green |
| ContextBar.FullWindow | statusline.js:169-199 | with 0 remaining, all 15 cells are filled and the label blinks red |
| ContextBar.FortyRemaining | statusline.js:169-199 | with 40 remaining: raw 60, scaled 75, 11 cells and a yellow label |
| Fitting.Cost | statusline.js:220-221 | `addedVis`: the part's width, plus the separator's 3 after the first part |
| Fitting.PrefixWidth | statusline.js:219-224 | `leftVis` after the first `k` parts have been added |
| Fitting.Kept | statusline.js:219-225 | how many parts the loop adds before it breaks or runs out |
| Fitting.LeftStr | statusline.js:217-231 | `leftStr` after the loop and the fallback: the kept parts joined by the separator, or the first part when none was kept |
| Fitting.RightReserve | statusline.js:212-213 | `rightReserve`: the context part's width plus 3 when it is present, else 0 |
| Fitting.MaxLeft | statusline.js:214 | `maxLeft`: the columns less the right reserve, possibly negative |
| Fitting.Output | statusline.js:233 | `output`: `leftStr`, then the separator and the context part when it is present |
| Fitting.FitLine | statusline.js:212-233 | the loop with its `break`, the fallback and the final join produce the reference output |
| Fitting.KeptFrom | statusline.js:219-225 | a pass never goes back and never passes the end |
| Fitting.FitStep | statusline.js:219-225 | a part that fits extends the joined prefix and the running width by its cost, and the pass goes on |
| Fitting.JoinAppend | statusline.js:223 | appending a part extends the joined prefix by the separator (after the first part) and the part |
| Fitting.JoinStep | statusline.js:220-224 | each appended part adds its cost, its width plus 3 after the first, to the measured width |
| Fitting.JoinWidth | statusline.js:219-225 | the running width `leftVis` equals `visLen(leftStr)` |
| Fitting.PrefixWidthMonotone | statusline.js:219-225 | the running width never decreases along the parts |
| Fitting.KeptFromFacts | statusline.js:219-225 | every prefix the pass keeps fits, and the part where it stops does not |
| Fitting.KeptIsLongestFit | statusline.js:219-225 | the kept parts are the longest fitting prefix: a prefix fits exactly when it is no longer, so nothing after a dropped part is shown |
| Fitting.LeftStrKept | statusline.js:219-231 | once a part is kept, `leftStr` is the kept prefix joined in order, and the fallback does not fire |
| Fitting.FitWithinBudget | statusline.js:212-233 | unless the fallback fired, the whole line fits the columns |
| Fitting.FitAll | statusline.js:219-225 | when all parts fit, all are shown, in order |
| Fitting.FitNoParts | statusline.js:213-233 | with no left-hand parts the line is as wide as the right reserve |
| Fitting.FitFallback | statusline.js:228-231 | when the first part alone overflows, it is shown verbatim and the line exceeds the columns by exactly its excess |
| Fitting.FitStartsWithFirst | statusline.js:228-233 | the line starts with the first part, kept or forced |
| Fitting.JoinStartsWithFirst | statusline.js:223 | the joined prefix starts with the first part |
| Fitting.FitEndsWithContext | statusline.js:233 | a non-empty context part always ends the line, after one separator |
| Fitting.TwoPartsExample | statusline.js:212-233 | parts of widths 10 and 8 with a context part of width 20 in 35 columns: only the first is kept and the line is 33 wide |
| Fitting.ForcedFirstExample | statusline.js:228-231 | a 10-wide first part in 5 columns is still shown |
| Segments.ModelShort | statusline.js:21-49 | `model.replace('Claude ', '')`, with `'Claude'` standing in for an absent display name |
| Segments.ModelSegment | statusline.js:50 | the model part: a purple diamond, then the short name, dimmed |
| Segments.ModelShortDropsPrefix | statusline.js:49 | a name starting with "Claude " loses exactly that prefix |
| Segments.ModelShortKeeps | statusline.js:49 | a name without "Claude " is kept |
| Segments.ModelShortDefault | statusline.js:21 | an absent name shows as "Claude" |
| Segments.ModelShortFirstOnly | statusline.js:49 | only the first "Claude " is removed |
| Segments.CountFlag | statusline.js:66-67 | an ahead or behind flag: the coloured arrow and the count, only when the count is present and positive |
| Segments.GitFlags | statusline.js:55-68 | `flags`: `*` when the status is non-empty, then the ahead and behind flags when an upstream exists |
| Segments.GitSegment | statusline.js:53-71 | the branch part, absent when git reports no branch |
| Segments.StashCount | statusline.js:76 | `stashList.split('\n').filter(Boolean).length` |
| Segments.StashSegment | statusline.js:74-80 | the stash part, present when the list is non-empty and counts at least one entry |
| Segments.WorktreeLabel | statusline.js:84-96 | the worktree marker: shown when more than one worktree is listed and the first listed path and the top level are both non-empty and differ |
| Segments.DirSegment | statusline.js:83-97 | the directory part: the base name, then the worktree marker |
| Segments.VersionSegment | statusline.js:100-108 | the version part, present when the manifest has a non-empty version |
| Segments.StashCountPositive | statusline.js:76 | the stash count is positive exactly when the list has a character other than a newline |
| Segments.AgeOf | statusline.js:113-119 | under 60 seconds, negative included, is "just now"; otherwise the count is the floor of seconds over the largest unit that fits |
| Segments.AgeText | statusline.js:115-119 | the age as printed: "just now", or the count, the unit letter and " ago" |
| Segments.AgeSegment | statusline.js:111-121 | the commit-age part, present when git gave a timestamp |
| Segments.AgeCountBounds | statusline.js:115-119 | a shown count is at least 1 and below the next unit's ratio: 60 minutes, 24 hours, 7 days |
| Segments.FirstInProgress | statusline.js:134 | the index found is in progress and no earlier entry is; none is found only if no entry is |
| Segments.CountCompleted | statusline.js:135 | at most all entries are completed |
| Segments.SummarizeCases | statusline.js:134-142 | a task in progress is named by its active form or else its subject; otherwise a non-empty list is tallied and an empty one shows nothing; done never exceeds total |
| Segments.Summarize | statusline.js:134-143 | which of the three task displays applies, with its title and counts |
| Segments.TodoSegment | statusline.js:138-143 | the task part: the current task with `[done/total]`, else the `done/total tasks` tally, else none |
| Segments.RunningCount | statusline.js:154-160 | at most one agent per task file |
| Segments.RunningCountZero | statusline.js:154-161 | no agent is counted exactly when no task file says "running" |
| Segments.RunningCountAppend | statusline.js:158 | one more file adds one exactly when its status is "running" |
| Segments.CountRunning | statusline.js:154-160 | the `running++` loop counts the files whose status is "running" |
| Segments.AgentText | statusline.js:162 | "N agent", with an "s" when N exceeds 1 |
| Segments.AgentTextPlural | statusline.js:162 | the text ends in " agents" exactly when more than one agent runs |
| Segments.AgentPart | statusline.js:162 | the agent part: an orange circle, then the count text, dimmed |
| Segments.AgentSegment | statusline.js:150-163 | the agent part, present when at least one task file says "running" |
| Segments.Parts | statusline.js:46-162 | the parts in priority order; a segment that does not exist is not pushed |
| Segments.PartsShape | statusline.js:46-162 | there are 2 to 8 parts, the model part first, and the directory part always among them |
| Segments.PartsStart | statusline.js:50 | the parts are non-empty and the model part comes first |
| Segments.CollectParts | statusline.js:46-162 | pushing each present segment in turn builds the reference list of parts |
| StatusLine.Columns | statusline.js:207 | the reported width, or 120 when it is absent or zero |
| StatusLine.Line | statusline.js:207-233 | the line written for the facts, the remaining percentage and the reported width |
| StatusLine.Render | statusline.js:207-233 | collecting, building the context part and fitting give the reference line |
| StatusLine.LineStartsWithModel | statusline.js:50 | whatever the width, the line starts with the model part |
| StatusLine.LineEndsWithContext | statusline.js:233 | whenever a context part exists, it closes the line after one separator |
| StatusLine.LineWithoutContext | statusline.js:213-233 | without a remaining percentage the line is the left-hand parts fitted to the whole width |
| StatusLine.LineFits | statusline.js:207-233 | unless even the model part overflows alone, the line fits the terminal |
| StatusLine.WideTerminal | statusline.js:207-233 | on a terminal wide enough, every part is shown in priority order, joined by the separator |

## Left out

- Reading stdin and parsing the session JSON (statusline.js:15-24) are left out. The fields used are parameters: `Segments.Facts` and the remaining percentage.
- Git runs through `execSync` (statusline.js:10-13, 53-96, 111), which is subprocess I/O. Git's trimmed outputs are given as strings, with "" where git printed nothing or failed.
- Filesystem reads are left out (statusline.js:100-108, 124-165). The model takes the parsed package version, the newest todo list and the status of each task file as parameters. Listing the directories, filtering file names by session and sorting by modification time are I/O.
- `path.basename`, `path.join` and `os.homedir` are library calls. The directory's base name is a parameter.
- `Date.now()` is the clock. The commit's age in whole seconds is a parameter.
- `process.stdout.write` is left out because it is terminal I/O. `process.stdout.columns || 120` is modelled by `StatusLine.Columns`.
- The `try/catch` blocks that silence errors are left out; they are error plumbing. An unreadable task file has an absent status.
- `Math.round(remaining)` on a fractional input is left out. The model takes the rounded value as an `int`.
- `parseInt` on git's output is left out. The ahead and behind counts are given as numbers and printed as numerals; the source prints git's own text, which is that numeral.
- JSON values of types other than strings (a numeric version, a non-string status) are left out. Only strings are modelled, so truthiness is non-emptiness.
- ContextBar.Filled: modelled on exact rationals, not binary64. For the integers 0..100 reached, exact rounding of `(used / 100) * 15` gives `(3 * used + 10) / 20`.
- ContextBar.CellBand: modelled on exact rationals, not binary64. The band tests `i / 15 < 0.4`, `< 0.6` and `< 0.8` are compared exactly as `i < 6`, `< 9` and `< 12`.
- ContextBar.ContextPart: uses the exact `ContextBar.Used`, not the binary64 evaluation of statusline.js:171 that `ContextBar.UsedAsWritten` models, so at raw usage 46 it shows 58% where the program shows 57% (see Findings). That the two agree at every other raw usage is not proved.
- Ansi.Utf16Units: Dafny characters are Unicode scalar values, so strings with lone surrogates cannot be represented.

## Findings

| source | as written | input that shows it | evidently intended | confidence | as-written member | corrected member |
|---|---|---|---|---|---|---|
| statusline.js:171 | the scaled usage is computed in binary64: the quotient `rawUsed / 80` is rounded to the nearest double, then multiplied by 100 and rounded again, before `Math.round` | raw usage 46 (remaining 54): 46 / 80 becomes 5179139571476070 · 2^-53, just below 0.575, and the product becomes 8092405580431359 · 2^-47, just below 57.5, so the label shows 57 | 58, the nearest integer to the exact 57.5, ties going up | not executed | ContextBar.UsedAsWrittenAt46 | ContextBar.UsedInRange |
