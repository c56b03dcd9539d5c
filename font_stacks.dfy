/** CSS `font-family` values: a list of family names, each in double
    quotes, followed by an unquoted generic family, separated by `", "`.
    The same function is written out twice in the site, once for the font
    subsetting step and once for the CSS constants. */
module FontStacks {
  import opened Wrappers
  import opened Strings

  /** What a `font-family` value says: the named families, then the generic. */
  datatype FontStack = FontStack(families: seq<string>, generic: string)

  function Quote(family: string): string {
    "\"" + family + "\""
  }

  function QuoteAll(families: seq<string>): (r: seq<string>)
    ensures |r| == |families|
    ensures forall i :: 0 <= i < |families| ==> r[i] == Quote(families[i])
  {
    if families == [] then [] else [Quote(families[0])] + QuoteAll(families[1..])
  }

  /** The `font-family` value: quoted families, then the generic family. */
  function FamiliesToCss(families: seq<string>, generic: string): string {
    Join(QuoteAll(families) + [generic], ", ")
  }

  /** Only the generic family remains when no family is named. */
  lemma FamiliesToCssEmpty(generic: string)
    ensures FamiliesToCss([], generic) == generic
  {
    assert QuoteAll([]) + [generic] == [generic];
  }

  /** The first family comes first, quoted, followed by the rest. */
  lemma FamiliesToCssCons(family: string, families: seq<string>, generic: string)
    ensures FamiliesToCss([family] + families, generic)
      == Quote(family) + ", " + FamiliesToCss(families, generic)
  {
    var parts := QuoteAll([family] + families) + [generic];
    assert ([family] + families)[1..] == families;
    assert parts[1..] == QuoteAll(families) + [generic];
  }

  lemma FamiliesToCssTwo(a: string, b: string, generic: string)
    ensures FamiliesToCss([a, b], generic) == Quote(a) + ", " + Quote(b) + ", " + generic
  {
    FamiliesToCssEmpty(generic);
    FamiliesToCssCons(b, [], generic);
    FamiliesToCssCons(a, [b], generic);
  }

  lemma FamiliesToCssThree(a: string, b: string, c: string, generic: string)
    ensures FamiliesToCss([a, b, c], generic)
      == Quote(a) + ", " + Quote(b) + ", " + Quote(c) + ", " + generic
  {
    FamiliesToCssTwo(b, c, generic);
    FamiliesToCssCons(a, [b, c], generic);
  }

  /** Reads a `font-family` value written by `FamiliesToCss` back: a quoted
      name followed by `", "` is a family, and what is left when no quote
      opens is the generic family. */
  function ParseFamilies(css: string): Option<FontStack>
    decreases |css|
  {
    if |css| > 0 && css[0] == '"' then
      var body := css[1..];
      if '"' !in body then None
      else
        var close := IndexOf(body, '"');
        var rest := body[close + 1..];
        if !StartsWith(rest, ", ") then None
        else
          match ParseFamilies(rest[2..])
          case None => None
          case Some(stack) => Some(FontStack([body[..close]] + stack.families, stack.generic))
    else Some(FontStack([], css))
  }

  /** A family name that a double quote cannot end early. */
  predicate Unquoted(family: string) {
    '"' !in family
  }

  /** A generic family that cannot be taken for a quoted name. */
  predicate Generic(generic: string) {
    generic == [] || generic[0] != '"'
  }

  function AddFamily(family: string, parsed: Option<FontStack>): Option<FontStack> {
    match parsed
    case None => None
    case Some(stack) => Some(FontStack([family] + stack.families, stack.generic))
  }

  /** One quoted name and its separator are read as one family. */
  lemma ParseQuoted(family: string, tail: string)
    requires Unquoted(family)
    ensures ParseFamilies(Quote(family) + ", " + tail) == AddFamily(family, ParseFamilies(tail))
  {
    var css := Quote(family) + ", " + tail;
    assert css == "\"" + (family + "\"" + ", " + tail);
    var body := css[1..];
    assert body == family + "\"" + ", " + tail;
    assert body[|family|] == '"' && body[..|family|] == family;
    assert IndexOf(body, '"') == |family|;
    var rest := body[|family| + 1..];
    assert rest == ", " + tail;
    StartsWithConcat(", ", tail);
  }

  /** The value reads back as exactly the families and generic it was built
      from, so different stacks give different values. */
  lemma {:induction false} ParseFamiliesToCss(families: seq<string>, generic: string)
    requires forall i :: 0 <= i < |families| ==> Unquoted(families[i])
    requires Generic(generic)
    ensures ParseFamilies(FamiliesToCss(families, generic)) == Some(FontStack(families, generic))
    decreases |families|
  {
    if families == [] {
      FamiliesToCssEmpty(generic);
    } else {
      var f := families[0];
      FamiliesToCssCons(f, families[1..], generic);
      assert [f] + families[1..] == families;
      ParseQuoted(f, FamiliesToCss(families[1..], generic));
      ParseFamiliesToCss(families[1..], generic);
    }
  }

  lemma FamiliesToCssInjective(a: FontStack, b: FontStack)
    requires forall i :: 0 <= i < |a.families| ==> Unquoted(a.families[i])
    requires forall i :: 0 <= i < |b.families| ==> Unquoted(b.families[i])
    requires Generic(a.generic) && Generic(b.generic)
    requires FamiliesToCss(a.families, a.generic) == FamiliesToCss(b.families, b.generic)
    ensures a == b
  {
    ParseFamiliesToCss(a.families, a.generic);
    ParseFamiliesToCss(b.families, b.generic);
  }
}
