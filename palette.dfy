/** The colour table `c` and the separator (statusline.js:27-45, 208). */
module Palette {
  import opened Ansi

  const Reset: string := Sgr("0")
  const Dim: string := Sgr("2")
  const Bold: string := Sgr("1")
  const Cyan: string := Sgr("36")
  const Magenta: string := Sgr("35")
  const Green: string := Sgr("32")
  const Yellow: string := Sgr("33")
  const Orange: string := Sgr("38;5;208")
  const Red: string := Sgr("31")
  const Blink: string := Sgr("5")
  const Blue: string := Sgr("38;5;75")
  const Purple: string := Sgr("38;5;141")
  const Grey: string := Sgr("38;5;242")
  const White: string := Sgr("97")
  const Pink: string := Sgr("38;5;213")

  /** Placed between two left-hand parts and before the context part. */
  const Sep: string := Grey + " · " + Reset

  /** The separator's width, which the fitting loop uses as a constant. */
  const SepVis: nat := 3

  /** The hard-coded width agrees with the measured one. */
  lemma SepWidth()
    ensures VisLen(Sep) == SepVis
  {
    VisLenColoured("38;5;242", " · ", "0");
  }

  /** The separator begins with ESC, so nothing before it can run into it. */
  lemma SepStartsWithEsc()
    ensures Sep != [] && Sep[0] == Esc
  {
  }

  /** Stripping passes over the separator as over its three visible characters. */
  lemma StripSep(rest: string)
    ensures Strip(Sep + rest) == " · " + Strip(rest)
  {
    assert Sep + rest == Sgr("38;5;242") + (" · " + (Sgr("0") + rest));
    StripCode("38;5;242", " · " + (Sgr("0") + rest));
    StripPlain(" · ", Sgr("0") + rest);
    StripCode("0", rest);
  }

  /** Width of `a + Sep + b` is additive. */
  lemma VisLenAroundSep(a: string, b: string)
    ensures VisLen(a + Sep + b) == VisLen(a) + SepVis + VisLen(b)
  {
    assert a + Sep + b == a + (Sep + b);
    StripSplitAtEsc(a, Sep + b);
    StripSep(b);
    Utf16LengthConcat(Strip(a), " · " + Strip(b));
    Utf16LengthConcat(" · ", Strip(b));
  }
}
