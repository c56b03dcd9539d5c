/** The font families the site's styles name, in the order the styles list
    them, and every family any of them uses, which is the set of fonts the
    build subsets. */
module Fonts {
  import opened Strings
  import opened SortedSets
  import opened FontStacks

  const SerifFamilies: seq<string> := ["Noto Serif", "Noto Sans Math", "Noto Color Emoji"]
  const SerifFamiliesCss: string := FamiliesToCss(SerifFamilies, "serif")
  const MonospaceFamilies: seq<string> := ["Noto Sans Mono", "Noto Color Emoji"]
  const MonospaceFamiliesCss: string := FamiliesToCss(MonospaceFamilies, "monospace")
  const AllFamilySequences: seq<seq<string>> := [SerifFamilies, MonospaceFamilies]
  /** `sorted(set(chain.from_iterable(...)))` over both stacks. */
  const AllFamilies: seq<string> := SortedSet(Flatten(AllFamilySequences))

  lemma SerifFamiliesCssValue()
    ensures SerifFamiliesCss
      == "\"Noto Serif\", " + "\"Noto Sans Math\", " + "\"Noto Color Emoji\", " + "serif"
  {
    FamiliesToCssThree("Noto Serif", "Noto Sans Math", "Noto Color Emoji", "serif");
    assert Quote("Noto Serif") + ", " == "\"Noto Serif\", ";
    assert Quote("Noto Sans Math") + ", " == "\"Noto Sans Math\", ";
    assert Quote("Noto Color Emoji") + ", " == "\"Noto Color Emoji\", ";
  }

  lemma MonospaceFamiliesCssValue()
    ensures MonospaceFamiliesCss == "\"Noto Sans Mono\", " + "\"Noto Color Emoji\", " + "monospace"
  {
    FamiliesToCssTwo("Noto Sans Mono", "Noto Color Emoji", "monospace");
    assert Quote("Noto Sans Mono") + ", " == "\"Noto Sans Mono\", ";
    assert Quote("Noto Color Emoji") + ", " == "\"Noto Color Emoji\", ";
  }

  /** Every family of every stack is listed, once, in increasing order, and
      nothing else is. */
  lemma AllFamiliesSpec()
    ensures StrictlySorted(AllFamilies)
    ensures forall f :: f in AllFamilies <==> f in SerifFamilies || f in MonospaceFamilies
  {
    var chained := Flatten(AllFamilySequences);
    SortedSetSpec(chained);
    forall f
      ensures f in chained <==> f in SerifFamilies || f in MonospaceFamilies
    {
      FlattenMembers(AllFamilySequences, f);
      if f in SerifFamilies {
        assert f in AllFamilySequences[0];
      }
      if f in MonospaceFamilies {
        assert f in AllFamilySequences[1];
      }
    }
  }

  /** The sorted set of the two stacks, worked out on symbolic names: with
      `p < q < r < s`, the chained stacks `[s, q, p, r, p]` sort to
      `[p, q, r, s]`, the repeated `p` kept once. */
  lemma SortedStacks(p: string, q: string, r: string, s: string)
    requires StrLess(p, q) && StrLess(q, r) && StrLess(r, s)
    ensures SortedSet([s, q, p, r, p]) == [p, q, r, s]
  {
    StrLessTransitive(p, q, r);
    StrLessTransitive(p, r, s);
    StrLessTransitive(q, r, s);
    StrLessIrreflexive(p);
    StrLessIrreflexive(q);
    StrLessIrreflexive(r);
    StrLessAsymmetric(p, q);
    StrLessAsymmetric(p, r);
    StrLessAsymmetric(p, s);
    StrLessAsymmetric(q, r);
    StrLessAsymmetric(q, s);
    StrLessAsymmetric(r, s);
    SortedSetCons(p, []);
    assert SortedSet([p]) == [p];
    SortedSetCons(r, [p]);
    assert Insert(r, [p]) == [p] + Insert(r, []);
    assert SortedSet([r, p]) == [p, r];
    SortedSetCons(p, [r, p]);
    assert SortedSet([p, r, p]) == [p, r];
    SortedSetCons(q, [p, r, p]);
    assert Insert(q, [p, r]) == [p] + Insert(q, [r]);
    assert SortedSet([q, p, r, p]) == [p, q, r];
    SortedSetCons(s, [q, p, r, p]);
    assert Insert(s, [p, q, r]) == [p] + Insert(s, [q, r]);
    assert Insert(s, [q, r]) == [q] + Insert(s, [r]);
    assert Insert(s, [r]) == [r] + Insert(s, []);
  }

  /** `sorted(set(...))` lists the four Noto families alphabetically. */
  lemma AllFamiliesValue()
    ensures AllFamilies == ["Noto Color Emoji", "Noto Sans Math", "Noto Sans Mono", "Noto Serif"]
  {
    ColorEmojiBeforeSansMath();
    SansMathBeforeSansMono();
    SansMonoBeforeSerif();
    FlattenTwo(SerifFamilies, MonospaceFamilies);
    assert SerifFamilies + MonospaceFamilies
      == ["Noto Serif", "Noto Sans Math", "Noto Color Emoji", "Noto Sans Mono", "Noto Color Emoji"];
    SortedStacks("Noto Color Emoji", "Noto Sans Math", "Noto Sans Mono", "Noto Serif");
  }

  // Each literal comparison is proved on its own: several of them in one
  // proof make the verifier compare every literal with every other.

  lemma ColorEmojiBeforeSansMath()
    ensures StrLess("Noto Color Emoji", "Noto Sans Math")
  {
    assert StrLessFrom("Noto Color Emoji", "Noto Sans Math", 0);
    StrLessByPosition("Noto Color Emoji", "Noto Sans Math");
  }

  lemma SansMathBeforeSansMono()
    ensures StrLess("Noto Sans Math", "Noto Sans Mono")
  {
    assert StrLessFrom("Noto Sans Math", "Noto Sans Mono", 0);
    StrLessByPosition("Noto Sans Math", "Noto Sans Mono");
  }

  lemma SansMonoBeforeSerif()
    ensures StrLess("Noto Sans Mono", "Noto Serif")
  {
    assert StrLessFrom("Noto Sans Mono", "Noto Serif", 0);
    StrLessByPosition("Noto Sans Mono", "Noto Serif");
  }
}
