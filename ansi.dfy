/** The visible-width measurer (`visLen`, statusline.js:205): delete every
    SGR control sequence ESC [ {digit|;}* m (Select Graphic Rendition,
    section 8.3.117 of ECMA-48) in one left-to-right pass, then count what
    is left in UTF-16 code units, JavaScript's `.length`. */
module Ansi {
  import Decimal

  const Esc: char := '\U{1B}'

  predicate IsParamChar(c: char) { '0' <= c <= '9' || c == ';' }

  predicate AllParams(p: string) { forall k :: 0 <= k < |p| ==> IsParamChar(p[k]) }

  /** One SGR control sequence with parameter string `params`. */
  function Sgr(params: string): string { [Esc, '['] + params + ['m'] }

  /** Length of the longest prefix of `s` made of digits and semicolons. */
  function ParamRun(s: string): (n: nat)
    ensures n <= |s|
    ensures forall k :: 0 <= k < n ==> IsParamChar(s[k])
    ensures n < |s| ==> !IsParamChar(s[n])
  {
    if s == [] || !IsParamChar(s[0]) then 0 else 1 + ParamRun(s[1..])
  }

  /** Does the pattern match at the start of `s`?  The parameter class
      excludes `m`, so the greedy run of parameters decides the match. */
  predicate StartsWithSgr(s: string)
  {
    && |s| >= 2 && s[0] == Esc && s[1] == '['
    && 2 + ParamRun(s[2..]) < |s| && s[2 + ParamRun(s[2..])] == 'm'
  }

  function SgrLength(s: string): (n: nat)
    requires StartsWithSgr(s)
    ensures 3 <= n <= |s| && s[n - 1] == 'm'
  {
    3 + ParamRun(s[2..])
  }

  /** `s.replace(/\x1b\[[0-9;]*m/g, '')`: a match is removed and the scan
      resumes after it; any other character is kept and the scan moves on
      by one.  Matches that the removal brings together are not rescanned. */
  function Strip(s: string): (r: string)
    ensures |r| <= |s|
    decreases |s|
  {
    if s == [] then []
    else if StartsWithSgr(s) then Strip(s[SgrLength(s)..])
    else [s[0]] + Strip(s[1..])
  }

  /** Code units of one character in UTF-16. */
  function Utf16Units(c: char): nat { if c as int < 0x1_0000 then 1 else 2 }

  /** JavaScript's `.length` of a string. */
  function Utf16Length(s: string): (n: nat)
    ensures |s| <= n <= 2 * |s|
  {
    if s == [] then 0 else Utf16Units(s[0]) + Utf16Length(s[1..])
  }

  /** `visLen`. */
  function VisLen(s: string): nat { Utf16Length(Strip(s)) }

  // ----- the scanner -----

  /** Length of the SGR sequence starting at `s[i]`, or 0 if none starts there. */
  method MatchSgrAt(s: string, i: nat) returns (n: nat)
    requires i <= |s|
    ensures n == (if StartsWithSgr(s[i..]) then SgrLength(s[i..]) else 0)
  {
    if i + 1 >= |s| || s[i] != Esc || s[i + 1] != '[' {
      return 0;
    }
    var j := i + 2;
    while j < |s| && IsParamChar(s[j])
      invariant i + 2 <= j <= |s|
      invariant ParamRun(s[i + 2..]) == (j - (i + 2)) + ParamRun(s[j..])
    {
      assert s[j..][1..] == s[j + 1..];
      j := j + 1;
    }
    assert s[i..][2..] == s[i + 2..];
    if j < |s| && s[j] == 'm' {
      n := j + 1 - i;
    } else {
      n := 0;
    }
  }

  /** The scan has reached `i`, and `out` is what the pass keeps of `s[..i]`. */
  predicate Scanned(s: string, out: string, i: nat)
  {
    i <= |s| && out + Strip(s[i..]) == Strip(s)
  }

  /** The regex replacement as an explicit scan. */
  method StripScan(s: string) returns (out: string)
    ensures out == Strip(s)
  {
    out := [];
    var i := 0;
    while i < |s|
      invariant Scanned(s, out, i)
      decreases |s| - i
    {
      var n := MatchSgrAt(s, i);
      ghost var before, at := out, i;
      if n > 0 {
        i := i + n;
        SkipStep(s, before, at, n, i);
      } else {
        out := out + [s[i]];
        i := i + 1;
        KeepStep(s, before, at, n, out, i);
      }
    }
    assert s[i..] == [];
  }

  /** A match at `at`, of length `n`, is dropped: the scan resumes after it. */
  lemma SkipStep(s: string, out: string, at: nat, n: nat, next: nat)
    requires at < |s| && n == (if StartsWithSgr(s[at..]) then SgrLength(s[at..]) else 0) && n > 0
    requires Scanned(s, out, at) && next == at + n
    ensures Scanned(s, out, next)
  {
    assert s[at..][n..] == s[next..];
  }

  /** No match at `at`: the character there is kept. */
  lemma KeepStep(s: string, before: string, at: nat, n: nat, out: string, next: nat)
    requires at < |s| && n == (if StartsWithSgr(s[at..]) then SgrLength(s[at..]) else 0) && n == 0
    requires Scanned(s, before, at) && out == before + [s[at]] && next == at + 1
    ensures Scanned(s, out, next)
  {
    assert s[at..][1..] == s[next..];
    assert Strip(s[at..]) == [s[at]] + Strip(s[next..]);
    assert before + [s[at]] + Strip(s[next..]) == before + ([s[at]] + Strip(s[next..]));
  }

  /** `visLen(s)`: strip, then take the length in code units. */
  method VisibleWidth(s: string) returns (w: nat)
    ensures w == VisLen(s)
  {
    var stripped := StripScan(s);
    w := Utf16Length(stripped);
  }

  // ----- what stripping does to concatenations -----

  lemma {:induction false} Utf16LengthConcat(a: string, b: string)
    ensures Utf16Length(a + b) == Utf16Length(a) + Utf16Length(b)
  {
    if a == [] {
      assert a + b == b;
    } else {
      assert (a + b)[0] == a[0];
      assert (a + b)[1..] == a[1..] + b;
      Utf16LengthConcat(a[1..], b);
    }
  }

  /** Text without ESC passes through unchanged. */
  lemma {:induction false} StripPlain(t: string, rest: string)
    requires Esc !in t
    ensures Strip(t + rest) == t + Strip(rest)
  {
    if t == [] {
      assert t + rest == rest;
    } else {
      assert t[0] in t;
      assert (t + rest)[0] == t[0] != Esc;
      assert Esc !in t[1..] by {
        forall k | 0 <= k < |t| - 1 ensures t[1..][k] != Esc { assert t[1..][k] == t[k + 1]; }
      }
      assert (t + rest)[1..] == t[1..] + rest;
      StripPlain(t[1..], rest);
    }
  }

  lemma ParamRunStops(p: string, rest: string)
    requires AllParams(p)
    requires rest != [] && !IsParamChar(rest[0])
    ensures ParamRun(p + rest) == |p|
  {
    assert forall k :: 0 <= k < |p| ==> (p + rest)[k] == p[k];
    assert (p + rest)[|p|] == rest[0];
  }

  /** A complete SGR sequence is removed, whatever follows it. */
  lemma StripCode(params: string, rest: string)
    requires AllParams(params)
    ensures Strip(Sgr(params) + rest) == Strip(rest)
  {
    var s := Sgr(params) + rest;
    assert s[2..] == params + (['m'] + rest);
    ParamRunStops(params, ['m'] + rest);
    assert s[2 + |params|] == 'm';
    assert s[SgrLength(s)..] == rest;
  }

  /** A coloured piece of plain text measures as the text alone. */
  lemma VisLenColoured(on: string, text: string, off: string)
    requires AllParams(on) && AllParams(off) && Esc !in text
    ensures VisLen(Sgr(on) + text + Sgr(off)) == Utf16Length(text)
  {
    StripCode(on, text + Sgr(off));
    StripPlain(text, Sgr(off));
    StripCode(off, []);
    assert Sgr(on) + text + Sgr(off) == Sgr(on) + (text + Sgr(off));
    assert Sgr(off) + [] == Sgr(off);
    assert text + [] == text;
  }

  lemma ParamRunExtend(x: string, b: string)
    requires b == [] || !IsParamChar(b[0])
    ensures ParamRun(x + b) == ParamRun(x)
  {
    assert forall k :: 0 <= k < |x| ==> (x + b)[k] == x[k];
    assert b != [] ==> (x + b)[|x|] == b[0];
  }

  /** No match can run from `a` into a string that begins with ESC, so the
      pass over `a + b` is the pass over `a` followed by the pass over `b`. */
  lemma {:induction false} StripSplitAtEsc(a: string, b: string)
    requires b == [] || b[0] == Esc
    ensures Strip(a + b) == Strip(a) + Strip(b)
    decreases |a|
  {
    if a == [] {
      assert a + b == b;
    } else {
      SgrBeforeEsc(a, b);
      if StartsWithSgr(a) {
        StripSplitAtEsc(a[SgrLength(a)..], b);
      } else {
        StripSplitAtEsc(a[1..], b);
      }
    }
  }

  /** Where `a` starts the scan of `a + b` when `b` begins with ESC: a match
      in `a` is the same match in `a + b`, and no match begins unless one
      begins in `a`. */
  lemma SgrBeforeEsc(a: string, b: string)
    requires a != [] && (b == [] || b[0] == Esc)
    ensures StartsWithSgr(a + b) == StartsWithSgr(a)
    ensures StartsWithSgr(a) ==> SgrLength(a + b) == SgrLength(a) && (a + b)[SgrLength(a)..] == a[SgrLength(a)..] + b
    ensures (a + b)[0] == a[0] && (a + b)[1..] == a[1..] + b
  {
    var s := a + b;
    if |a| >= 2 {
      assert s[2..] == a[2..] + b;
      ParamRunExtend(a[2..], b);
    } else {
      assert !StartsWithSgr(a);
      assert !StartsWithSgr(s);
    }
    if StartsWithSgr(a) {
      assert s[SgrLength(a)..] == a[SgrLength(a)..] + b;
    }
    assert s[1..] == a[1..] + b;
  }

  lemma VisLenSplitAtEsc(a: string, b: string)
    requires b == [] || b[0] == Esc
    ensures VisLen(a + b) == VisLen(a) + VisLen(b)
  {
    StripSplitAtEsc(a, b);
    Utf16LengthConcat(Strip(a), Strip(b));
  }

  /** The pass over the regex is not idempotent: removing the inner
      sequence of ESC ESC [ m [ m leaves the complete sequence ESC [ m. */
  lemma StripNotIdempotent()
    ensures var s := [Esc, Esc, '[', 'm', '[', 'm'];
            Strip(s) == [Esc, '[', 'm'] && Strip(Strip(s)) == []
  {
    var s := [Esc, Esc, '[', 'm', '[', 'm'];
    assert !StartsWithSgr(s);
    assert s[1..] == Sgr([]) + ['[', 'm'];
    StripCode([], ['[', 'm']);
    StripPlain(['[', 'm'], []);
    assert ['[', 'm'] + [] == ['[', 'm'];
    assert [Esc, '[', 'm'] == Sgr([]) + [];
    StripCode([], []);
  }

  /** The skull glyph lies outside the Basic Multilingual Plane. */
  lemma SkullCountsTwo()
    ensures VisLen("💀") == 2
  {
    StripPlain("💀", []);
    assert "💀" + [] == "💀";
  }

  /** Digits carry no escapes and are one code unit each. */
  lemma {:induction false} NumeralWidth(n: nat)
    ensures Esc !in Decimal.Show(n)
    ensures Utf16Length(Decimal.Show(n)) == |Decimal.Show(n)|
  {
    var s := Decimal.Show(n);
    DigitsWidth(s);
  }

  lemma {:induction false} DigitsWidth(s: string)
    requires forall k :: 0 <= k < |s| ==> Decimal.IsDigit(s[k])
    ensures Esc !in s
    ensures Utf16Length(s) == |s|
  {
    if s != [] {
      DigitsWidth(s[1..]);
      assert s == [s[0]] + s[1..];
    }
  }
}
