/** The fitting engine (statusline.js:207-233): keep the context part on
    the right, then add whole left-hand parts in priority order, joined by
    the separator, until the first one that would overflow the columns
    left over; if not even the first fits, show it anyway. */
module Fitting {
  import opened Ansi
  import opened Palette
  import opened Strings

  /** What adding part `i` costs: its width, plus the separator after the first. */
  function Cost(parts: seq<string>, i: nat): nat
    requires i < |parts|
  {
    if i == 0 then VisLen(parts[0]) else SepVis + VisLen(parts[i])
  }

  /** Total cost of the first `k` parts. */
  function PrefixWidth(parts: seq<string>, k: nat): nat
    requires k <= |parts|
  {
    if k == 0 then 0 else PrefixWidth(parts, k - 1) + Cost(parts, k - 1)
  }

  /** Where a pass that has kept parts `0..i-1` stops: at the first part
      whose addition would exceed `maxLeft`, or at the end. */
  function KeptFrom(parts: seq<string>, maxLeft: int, i: nat): (k: nat)
    requires i <= |parts|
    ensures i <= k <= |parts|
    decreases |parts| - i
  {
    if i == |parts| || PrefixWidth(parts, i + 1) > maxLeft then i
    else KeptFrom(parts, maxLeft, i + 1)
  }

  /** How many parts the pass keeps. */
  function Kept(parts: seq<string>, maxLeft: int): nat
  {
    KeptFrom(parts, maxLeft, 0)
  }

  /** `leftStr` after the loop and the fallback. */
  function LeftStr(parts: seq<string>, maxLeft: int): string
  {
    var k := Kept(parts, maxLeft);
    var joined := Join(parts[..k], Sep);
    if joined == "" && |parts| > 0 then parts[0] else joined
  }

  /** `rightReserve`: the context part's width and one separator, if present. */
  function RightReserve(contextPart: string): nat
  {
    if contextPart != "" then VisLen(contextPart) + SepVis else 0
  }

  /** `maxLeft`: what is left for the left-hand parts; may be negative. */
  function MaxLeft(cols: int, contextPart: string): int
  {
    cols - RightReserve(contextPart)
  }

  /** `output`. */
  function Output(parts: seq<string>, contextPart: string, cols: int): string
  {
    var left := LeftStr(parts, MaxLeft(cols, contextPart));
    if contextPart != "" then left + Sep + contextPart else left
  }

  /** The loop of statusline.js:217-225, its fallback and the final join. */
  method FitLine(parts: seq<string>, contextPart: string, cols: int) returns (output: string)
    ensures output == Output(parts, contextPart, cols)
  {
    var contextVis := VisibleWidth(contextPart);
    var rightReserve := if contextPart != "" then contextVis + SepVis else 0;
    var maxLeft := cols - rightReserve;
    assert maxLeft == MaxLeft(cols, contextPart);
    var leftStr := "";
    var leftVis := 0;
    var i := 0;
    while i < |parts|
      invariant 0 <= i <= |parts|
      invariant leftStr == Join(parts[..i], Sep)
      invariant leftVis == PrefixWidth(parts, i)
      invariant KeptFrom(parts, maxLeft, i) == Kept(parts, maxLeft)
    {
      var partVis := VisibleWidth(parts[i]);
      var addedVis := if i == 0 then partVis else SepVis + partVis;
      assert addedVis == Cost(parts, i);
      if leftVis + addedVis > maxLeft {
        break;
      }
      ghost var before, at := leftStr, i;
      leftStr := leftStr + (if i == 0 then "" else Sep) + parts[i];
      leftVis := leftVis + addedVis;
      i := i + 1;
      FitStep(parts, maxLeft, at, before, leftStr, i);
    }
    assert i == Kept(parts, maxLeft);
    if leftStr == "" && |parts| > 0 {
      leftStr := parts[0];
      leftVis := VisibleWidth(parts[0]);
    }
    assert leftStr == LeftStr(parts, maxLeft);
    output := if contextPart != "" then leftStr + Sep + contextPart else leftStr;
  }

  // ----- lemmas -----

  /** A part that fits is kept, and the pass goes on from the next one. */
  lemma FitStep(parts: seq<string>, maxLeft: int, at: nat, before: string, after: string, next: nat)
    requires at < |parts| && PrefixWidth(parts, at) + Cost(parts, at) <= maxLeft
    requires before == Join(parts[..at], Sep)
    requires after == before + (if at == 0 then "" else Sep) + parts[at] && next == at + 1
    ensures KeptFrom(parts, maxLeft, next) == KeptFrom(parts, maxLeft, at)
    ensures after == Join(parts[..next], Sep)
    ensures PrefixWidth(parts, next) == PrefixWidth(parts, at) + Cost(parts, at)
  {
    JoinAppend(parts, at);
  }

  /** Appending part `i` to the joined prefix. */
  lemma JoinAppend(parts: seq<string>, i: nat)
    requires i < |parts|
    ensures Join(parts[..i + 1], Sep) == Join(parts[..i], Sep) + (if i == 0 then "" else Sep) + parts[i]
  {
    var ps := parts[..i + 1];
    assert ps[..i] == parts[..i];
    if i == 0 {
      assert Join(parts[..0], Sep) + "" + parts[0] == parts[0];
    }
  }

  /** What appending part `i` adds to the width. */
  lemma JoinStep(parts: seq<string>, i: nat)
    requires i < |parts|
    ensures VisLen(Join(parts[..i + 1], Sep)) == VisLen(Join(parts[..i], Sep)) + Cost(parts, i)
  {
    JoinAppend(parts, i);
    if i > 0 {
      VisLenAroundSep(Join(parts[..i], Sep), parts[i]);
    } else {
      assert Join(parts[..1], Sep) == parts[0];
    }
  }

  /** The running width is the measured width of the joined prefix. */
  lemma {:induction false} JoinWidth(parts: seq<string>, k: nat)
    requires k <= |parts|
    ensures VisLen(Join(parts[..k], Sep)) == PrefixWidth(parts, k)
  {
    if k > 0 {
      JoinWidth(parts, k - 1);
      JoinStep(parts, k - 1);
    }
  }

  lemma {:induction false} PrefixWidthMonotone(parts: seq<string>, j: nat, k: nat)
    requires j <= k <= |parts|
    ensures PrefixWidth(parts, j) <= PrefixWidth(parts, k)
    decreases k - j
  {
    if j < k {
      PrefixWidthMonotone(parts, j, k - 1);
    }
  }

  lemma {:induction false} KeptFromFacts(parts: seq<string>, maxLeft: int, i: nat)
    requires i <= |parts|
    requires forall j :: 0 < j <= i ==> PrefixWidth(parts, j) <= maxLeft
    ensures forall j :: 0 < j <= KeptFrom(parts, maxLeft, i) ==> PrefixWidth(parts, j) <= maxLeft
    ensures KeptFrom(parts, maxLeft, i) < |parts| ==>
              PrefixWidth(parts, KeptFrom(parts, maxLeft, i) + 1) > maxLeft
    decreases |parts| - i
  {
    if i < |parts| && PrefixWidth(parts, i + 1) <= maxLeft {
      KeptFromFacts(parts, maxLeft, i + 1);
    }
  }

  /** The pass keeps exactly the longest prefix that fits: a prefix of
      `j >= 1` parts fits `maxLeft` if and only if it is no longer than
      the kept one.  Once a part is dropped, nothing after it comes back. */
  lemma KeptIsLongestFit(parts: seq<string>, maxLeft: int, j: nat)
    requires 0 < j <= |parts|
    ensures Kept(parts, maxLeft) <= |parts|
    ensures PrefixWidth(parts, j) <= maxLeft <==> j <= Kept(parts, maxLeft)
  {
    var k := Kept(parts, maxLeft);
    KeptFromFacts(parts, maxLeft, 0);
    if j > k {
      PrefixWidthMonotone(parts, k + 1, j);
    }
  }

  /** Unless the fallback fired, the whole line fits the columns. */
  lemma FitWithinBudget(parts: seq<string>, contextPart: string, cols: int)
    requires Kept(parts, MaxLeft(cols, contextPart)) > 0
    ensures VisLen(Output(parts, contextPart, cols)) <= cols
  {
    var maxLeft := MaxLeft(cols, contextPart);
    var k := Kept(parts, maxLeft);
    KeptIsLongestFit(parts, maxLeft, k);
    JoinWidth(parts, k);
    var left := LeftStr(parts, maxLeft);
    assert VisLen(left) == PrefixWidth(parts, k);
    if contextPart != "" {
      VisLenAroundSep(left, contextPart);
    }
  }

  /** When all parts fit, all are shown, in order. */
  lemma FitAll(parts: seq<string>, contextPart: string, cols: int)
    requires |parts| > 0
    requires PrefixWidth(parts, |parts|) <= MaxLeft(cols, contextPart)
    ensures LeftStr(parts, MaxLeft(cols, contextPart)) == Join(parts, Sep)
  {
    var maxLeft := MaxLeft(cols, contextPart);
    KeptIsLongestFit(parts, maxLeft, |parts|);
    assert Kept(parts, maxLeft) == |parts|;
    LeftStrKept(parts, maxLeft);
    assert parts[..|parts|] == parts;
  }

  /** Once a part is kept, no fallback: the line starts with the joined prefix. */
  lemma LeftStrKept(parts: seq<string>, maxLeft: int)
    requires Kept(parts, maxLeft) > 0
    ensures LeftStr(parts, maxLeft) == Join(parts[..Kept(parts, maxLeft)], Sep)
  {
    JoinStartsWithFirst(parts, Kept(parts, maxLeft));
  }

  /** With no left-hand parts the line is the separator and the context part. */
  lemma FitNoParts(contextPart: string, cols: int)
    ensures VisLen(Output([], contextPart, cols)) == RightReserve(contextPart)
  {
    assert LeftStr([], MaxLeft(cols, contextPart)) == "";
    if contextPart != "" {
      VisLenAroundSep("", contextPart);
      assert "" + Sep + contextPart == Sep + contextPart;
    }
  }

  /** The fallback: when the first part alone does not fit, it is shown
      verbatim, and the line is wider than the columns by exactly its excess. */
  lemma FitFallback(parts: seq<string>, contextPart: string, cols: int)
    requires |parts| > 0
    requires Kept(parts, MaxLeft(cols, contextPart)) == 0
    ensures VisLen(parts[0]) > MaxLeft(cols, contextPart)
    ensures LeftStr(parts, MaxLeft(cols, contextPart)) == parts[0]
    ensures VisLen(Output(parts, contextPart, cols)) == VisLen(parts[0]) + RightReserve(contextPart)
  {
    var maxLeft := MaxLeft(cols, contextPart);
    KeptIsLongestFit(parts, maxLeft, 1);
    assert PrefixWidth(parts, 1) == VisLen(parts[0]);
    if contextPart != "" {
      VisLenAroundSep(parts[0], contextPart);
    }
  }

  /** The line starts with the first part, kept or forced. */
  lemma FitStartsWithFirst(parts: seq<string>, contextPart: string, cols: int)
    requires |parts| > 0
    ensures StartsWith(Output(parts, contextPart, cols), parts[0])
  {
    var maxLeft := MaxLeft(cols, contextPart);
    var k := Kept(parts, maxLeft);
    if k > 0 {
      JoinStartsWithFirst(parts, k);
    }
    var left := LeftStr(parts, maxLeft);
    assert StartsWith(left, parts[0]);
    StartsWithConcat(left, parts[0], Sep + contextPart);
    assert left + Sep + contextPart == left + (Sep + contextPart);
  }

  lemma {:induction false} JoinStartsWithFirst(parts: seq<string>, k: nat)
    requires 0 < k <= |parts|
    ensures StartsWith(Join(parts[..k], Sep), parts[0])
  {
    JoinAppend(parts, k - 1);
    if k > 1 {
      JoinStartsWithFirst(parts, k - 1);
      StartsWithConcat(Join(parts[..k - 1], Sep), parts[0], Sep + parts[k - 1]);
      assert Join(parts[..k - 1], Sep) + Sep + parts[k - 1] == Join(parts[..k - 1], Sep) + (Sep + parts[k - 1]);
    }
  }

  /** The context part, when present, always ends the line, after one separator. */
  lemma FitEndsWithContext(parts: seq<string>, contextPart: string, cols: int)
    requires contextPart != ""
    ensures EndsWith(Output(parts, contextPart, cols), Sep + contextPart)
  {
    var left := LeftStr(parts, MaxLeft(cols, contextPart));
    assert left + Sep + contextPart == left + (Sep + contextPart);
  }

  /** Two parts of widths 10 and 8, a context part of width 20, 35 columns:
      12 columns remain, the first part fits and the second (11 more) does
      not; the line is 33 wide. */
  lemma TwoPartsExample(p0: string, p1: string, contextPart: string)
    requires VisLen(p0) == 10 && VisLen(p1) == 8 && VisLen(contextPart) == 20
    requires contextPart != ""
    ensures Output([p0, p1], contextPart, 35) == p0 + Sep + contextPart
    ensures VisLen(Output([p0, p1], contextPart, 35)) == 33
  {
    var parts := [p0, p1];
    assert MaxLeft(35, contextPart) == 12;
    assert PrefixWidth(parts, 1) == 10;
    assert PrefixWidth(parts, 2) == 21;
    assert KeptFrom(parts, 12, 1) == 1;
    assert Kept(parts, 12) == 1;
    assert parts[..1] == [p0];
    VisLenAroundSep(p0, contextPart);
  }

  /** A first part of width 10 with 5 columns and no context part is still shown. */
  lemma ForcedFirstExample(p0: string)
    requires VisLen(p0) == 10
    ensures Output([p0], "", 5) == p0
  {
    assert PrefixWidth([p0], 1) == 10;
    assert Kept([p0], 5) == 0;
  }
}
