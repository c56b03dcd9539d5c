/** Lengths and font stacks shared by the stylesheets and the templates.
    Lengths are whole numbers of `em` written as CSS text; the column and
    float widths are CSS `min()` expressions over them. The font stacks are
    written out a second time here, as the stylesheets' own copy. */
module CssConstants {
  import opened Strings
  import opened SortedSets
  import opened FontStacks
  import Fonts

  /** The default size of `1em` in CSS pixels, used to size images. */
  const PixelsPerEm: nat := 16

  /** A length of `n` em, as CSS text. */
  function Em(n: nat): string {
    NatToString(n) + "em"
  }

  /** A CSS `min()` of two lengths. */
  function CssMin(a: string, b: string): string {
    "min(" + a + ", " + b + ")"
  }

  const MainColumnMaxInlineSizeEm: nat := 60
  const MainColumnMaxInlineSize: string := Em(MainColumnMaxInlineSizeEm)
  const MainColumnPaddingInlineEm: nat := 1
  const MainColumnPaddingInline: string := Em(MainColumnPaddingInlineEm)
  /** The viewport less the padding on both sides, but no wider than the
      column's maximum. */
  const MainColumnContentsInlineSize: string :=
    CssMin("100vi - 2 * " + MainColumnPaddingInline, MainColumnMaxInlineSize)

  const FloatMaxInlineSizeEm: nat := 20
  const FloatMaxInlineSize: string := Em(FloatMaxInlineSizeEm)
  const FloatContentsInlineSize: string := CssMin(MainColumnContentsInlineSize, FloatMaxInlineSize)

  const GalleryItemMaxBlockSizeEm: nat := 12
  const GalleryItemMaxBlockSize: string := Em(GalleryItemMaxBlockSizeEm)

  const SerifFontFamilies: seq<string> := ["Noto Serif", "Noto Sans Math", "Noto Color Emoji"]
  const SerifFontFamiliesCss: string := FamiliesToCss(SerifFontFamilies, "serif")
  const MonospaceFontFamilies: seq<string> := ["Noto Sans Mono", "Noto Color Emoji"]
  const MonospaceFontFamiliesCss: string := FamiliesToCss(MonospaceFontFamilies, "monospace")
  const AllFontFamilySequences: seq<seq<string>> := [SerifFontFamilies, MonospaceFontFamilies]
  const AllFontFamilies: seq<string> := SortedSet(Flatten(AllFontFamilySequences))

  /** The text of a length ends in `em` after the decimal digits of `n`,
      which read back as `n`. */
  lemma EmReadsBack(n: nat)
    ensures EndsWith(Em(n), "em")
    ensures var digits := Em(n)[..|Em(n)| - 2];
      digits == NatToString(n) && AllDigits(digits) && DigitsValue(digits) == n
  {
    var s := Em(n);
    assert s[|s| - 2..] == "em";
    assert s[..|s| - 2] == NatToString(n);
    NatToStringValue(n);
  }

  lemma MainColumnMaxInlineSizeValue()
    ensures MainColumnMaxInlineSize == "60em"
  {
    assert NatToString(60) == "60";
  }

  lemma MainColumnPaddingInlineValue()
    ensures MainColumnPaddingInline == "1em"
  {
    assert NatToString(1) == "1";
  }

  lemma MainColumnContentsInlineSizeValue()
    ensures MainColumnContentsInlineSize == "min(100vi - 2 * 1em, 60em)"
  {
    MainColumnMaxInlineSizeValue();
    MainColumnPaddingInlineValue();
  }

  lemma FloatMaxInlineSizeValue()
    ensures FloatMaxInlineSize == "20em"
  {
    assert NatToString(20) == "20";
  }

  lemma FloatContentsInlineSizeValue()
    ensures FloatContentsInlineSize == "min(" + "min(100vi - 2 * 1em, 60em)" + ", 20em)"
  {
    MainColumnContentsInlineSizeValue();
    FloatMaxInlineSizeValue();
  }

  lemma GalleryItemMaxBlockSizeValue()
    ensures GalleryItemMaxBlockSize == "12em"
  {
    assert NatToString(12) == "12";
  }

  /** The stylesheets name the same stacks, and the same set of families,
      as the font subsetting step. */
  lemma FontFamiliesAgree()
    ensures SerifFontFamiliesCss == Fonts.SerifFamiliesCss
    ensures MonospaceFontFamiliesCss == Fonts.MonospaceFamiliesCss
    ensures AllFontFamilies == Fonts.AllFamilies
  {
  }

  /** Every family of both stacks is listed, once, in increasing order, and
      nothing else is. */
  lemma AllFontFamiliesSpec()
    ensures StrictlySorted(AllFontFamilies)
    ensures forall f :: f in AllFontFamilies <==> f in SerifFontFamilies || f in MonospaceFontFamilies
    ensures AllFontFamilies == ["Noto Color Emoji", "Noto Sans Math", "Noto Sans Mono", "Noto Serif"]
  {
    FontFamiliesAgree();
    Fonts.AllFamiliesSpec();
    Fonts.AllFamiliesValue();
  }
}
