/** The string primitives the status line relies on: `indexOf`,
    `replace` with a string pattern (first occurrence only), `split`
    with a string separator, joining, and `filter(Boolean).length`. */
module Strings {
  import opened Wrappers

  predicate OccursAt(s: string, pat: string, j: nat)
  {
    j + |pat| <= |s| && s[j..j + |pat|] == pat
  }

  /** `s` begins with `t`. */
  predicate StartsWith(s: string, t: string)
  {
    |t| <= |s| && s[..|t|] == t
  }

  /** Whatever is appended, a prefix stays a prefix. */
  lemma StartsWithConcat(s: string, t: string, u: string)
    requires StartsWith(s, t)
    ensures StartsWith(s + u, t)
  {
    assert (s + u)[..|t|] == s[..|t|];
  }

  /** Concatenation does not depend on how it is grouped. */
  lemma Assoc(a: string, b: string, c: string)
    ensures a + b + c == a + (b + c)
  {
  }

  /** `s` ends with `t`. */
  predicate EndsWith(s: string, t: string)
  {
    |t| <= |s| && s[|s| - |t|..] == t
  }

  /** `s.indexOf(pat)`: the first position where `pat` occurs. */
  function IndexOf(s: string, pat: string): (r: Option<nat>)
    ensures r.Some? ==> OccursAt(s, pat, r.value)
    ensures forall j: nat :: (r.None? || j < r.value) ==> !OccursAt(s, pat, j)
    decreases |s|
  {
    if |s| < |pat| then None
    else if s[..|pat|] == pat then Some(0)
    else
      match IndexOf(s[1..], pat)
      case None =>
        assert forall j: nat :: OccursAt(s, pat, j + 1) ==> OccursAt(s[1..], pat, j) by {
          forall j: nat | OccursAt(s, pat, j + 1) ensures OccursAt(s[1..], pat, j) {
            assert s[1..][j..j + |pat|] == s[j + 1..j + 1 + |pat|];
          }
        }
        assert forall j: nat :: !OccursAt(s, pat, j) by {
          forall j: nat ensures !OccursAt(s, pat, j) {
            if j > 0 { assert !OccursAt(s[1..], pat, j - 1); }
          }
        }
        None
      case Some(k) =>
        assert s[1..][k..k + |pat|] == s[k + 1..k + 1 + |pat|];
        assert forall j: nat :: j < k + 1 ==> !OccursAt(s, pat, j) by {
          forall j: nat | j < k + 1 ensures !OccursAt(s, pat, j) {
            if j > 0 && OccursAt(s, pat, j) {
              assert s[1..][j - 1..j - 1 + |pat|] == s[j..j + |pat|];
              assert OccursAt(s[1..], pat, j - 1);
            }
          }
        }
        Some(k + 1)
  }

  /** `s.replace(pat, rep)` with a string pattern and a replacement without
      `$` patterns (which JavaScript would expand): only the first occurrence. */
  function ReplaceFirst(s: string, pat: string, rep: string): (r: string)
    ensures IndexOf(s, pat).None? ==> r == s
    ensures IndexOf(s, pat).Some? ==>
              var k := IndexOf(s, pat).value;
              r == s[..k] + rep + s[k + |pat|..] && |r| == |s| - |pat| + |rep|
  {
    match IndexOf(s, pat)
    case None => s
    case Some(k) => s[..k] + rep + s[k + |pat|..]
  }

  /** `s.split(sep)` for a non-empty string separator. */
  function Split(s: string, sep: string): (parts: seq<string>)
    requires sep != []
    ensures 1 <= |parts|
    decreases |s|
  {
    match IndexOf(s, sep)
    case None => [s]
    case Some(k) => [s[..k]] + Split(s[k + |sep|..], sep)
  }

  /** `ps.join(sep)`, built from the left as the status line builds it. */
  function Join(ps: seq<string>, sep: string): string
  {
    if |ps| == 0 then ""
    else if |ps| == 1 then ps[0]
    else Join(ps[..|ps| - 1], sep) + sep + ps[|ps| - 1]
  }

  /** `ps.filter(Boolean).length`: the empty string is the only falsy string. */
  function CountNonEmpty(ps: seq<string>): (n: nat)
    ensures n <= |ps|
  {
    if ps == [] then 0
    else (if ps[0] == "" then 0 else 1) + CountNonEmpty(ps[1..])
  }

  lemma {:induction false} JoinCons(a: string, rest: seq<string>, sep: string)
    requires rest != []
    ensures Join([a] + rest, sep) == a + sep + Join(rest, sep)
    decreases |rest|
  {
    var ps := [a] + rest;
    if |rest| == 1 {
      assert ps[..|ps| - 1] == [a];
    } else {
      var front := rest[..|rest| - 1];
      assert ps[..|ps| - 1] == [a] + front;
      JoinCons(a, front, sep);
    }
  }

  /** Joining the pieces of a split restores the string. */
  lemma {:induction false} JoinSplit(s: string, sep: string)
    requires sep != []
    ensures Join(Split(s, sep), sep) == s
    decreases |s|
  {
    if IndexOf(s, sep).Some? {
      var k := IndexOf(s, sep).value;
      var rest := s[k + |sep|..];
      SplitStep(s, sep);
      JoinSplit(rest, sep);
      JoinCons(s[..k], Split(rest, sep), sep);
    }
  }

  /** A split at the first occurrence: the piece before it, the separator,
      and the split of what follows. */
  lemma SplitStep(s: string, sep: string)
    requires sep != [] && IndexOf(s, sep).Some?
    ensures var k := IndexOf(s, sep).value;
            && Split(s, sep) == [s[..k]] + Split(s[k + |sep|..], sep)
            && s == s[..k] + sep + s[k + |sep|..]
  {
    var k := IndexOf(s, sep).value;
    assert s[k..k + |sep|] == sep;
    Dissect(s, k, k + |sep|);
  }

  lemma Dissect(s: string, i: nat, j: nat)
    requires i <= j <= |s|
    ensures s == s[..i] + s[i..j] + s[j..]
  {
  }

  /** No piece of a split contains the separator. */
  lemma {:induction false} SplitPiecesFree(s: string, sep: string, i: nat, j: nat)
    requires sep != []
    requires i < |Split(s, sep)|
    ensures !OccursAt(Split(s, sep)[i], sep, j)
    decreases |s|
  {
    match IndexOf(s, sep)
    case None =>
    case Some(k) =>
      if i == 0 {
        if OccursAt(s[..k], sep, j) {
          assert j + |sep| <= k;
          assert s[..k][j..j + |sep|] == s[j..j + |sep|];
          assert OccursAt(s, sep, j);
        }
      } else {
        SplitPiecesFree(s[k + |sep|..], sep, i - 1, j);
      }
  }

  lemma {:induction false} CountNonEmptyConcat(a: seq<string>, b: seq<string>)
    ensures CountNonEmpty(a + b) == CountNonEmpty(a) + CountNonEmpty(b)
  {
    if a == [] {
      assert a + b == b;
    } else {
      assert (a + b)[1..] == a[1..] + b;
      CountNonEmptyConcat(a[1..], b);
    }
  }
}
