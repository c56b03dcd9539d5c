/** Shifting the heading levels of an article fragment
    (src/dseomn_website/headings.py). The parsed fragment is held as the tag
    and classes of each of its elements in document order, the order
    `cssselect` returns them in; the rewrite updates those in place. */
module Headings {
  import opened Wrappers
  import opened Strings
  import opened HtmlTree

  datatype HeadingsError = CannotAdjust(level: int, offset: int)

  /** `f"h{n}"`. */
  function HeadingTag(n: int): string {
    "h" + IntToString(n)
  }

  /** The level of an `h1`-`h6` tag. */
  function LevelOf(tag: string): (r: Option<int>)
    ensures r.Some? ==> 1 <= r.value <= 6 && HeadingTag(r.value) == tag
    ensures r.None? ==> forall n :: 1 <= n <= 6 ==> HeadingTag(n) != tag
  {
    if |tag| == 2 && tag[0] == 'h' && '1' <= tag[1] <= '6' then
      var n := DigitValue(tag[1]);
      assert HeadingTag(n) == "h" + [DigitChar(n)] == tag;
      Some(n)
    else
      assert forall n :: 1 <= n <= 6 ==> HeadingTag(n) == "h" + [DigitChar(n)];
      None
  }

  lemma LevelOfHeadingTag(n: int)
    requires 1 <= n <= 6
    ensures LevelOf(HeadingTag(n)) == Some(n)
  {
    assert HeadingTag(n) == "h" + [DigitChar(n)];
  }

  /** `element.classes.add(c)`: appended unless already present. */
  function AddClass(classes: seq<string>, c: string): (r: seq<string>)
    ensures c in r
    ensures forall x :: x in r <==> x in classes || x == c
    ensures c in classes ==> r == classes
    ensures |classes| <= |r| && r[..|classes|] == classes
  {
    if c in classes then classes else classes + [c]
  }

  lemma AddClassIdempotent(classes: seq<string>, c: string)
    ensures AddClass(AddClass(classes, c), c) == AddClass(classes, c)
  {
  }

  /** `cssselect(tag)` over the elements: the indices of the matches, in
      document order. */
  function Select(tags: seq<string>, tag: string): (r: seq<nat>)
    ensures forall k :: 0 <= k < |r| ==> r[k] < |tags| && tags[r[k]] == tag
    ensures forall i :: 0 <= i < |tags| && tags[i] == tag ==> i in r
    ensures forall j, k :: 0 <= j < k < |r| ==> r[j] < r[k]
  {
    if tags == [] then []
    else
      var front := Select(tags[..|tags| - 1], tag);
      front + (if tags[|tags| - 1] == tag then [|tags| - 1] else [])
  }

  predicate Present(tags: seq<string>, level: int) {
    exists i :: 0 <= i < |tags| && tags[i] == HeadingTag(level)
  }

  /** Level `level` has headings and cannot be moved by `offset`. */
  predicate Fails(tags: seq<string>, offset: int, level: int) {
    Present(tags, level) && !(1 <= level + offset <= 6)
  }

  /** The first level from `level` up to 6 that fails. */
  function FailingFrom(tags: seq<string>, offset: int, level: int): (r: Option<int>)
    requires level >= 1
    ensures r.Some? ==> (level <= r.value <= 6 && Fails(tags, offset, r.value)
      && forall l :: level <= l < r.value ==> !Fails(tags, offset, l))
    ensures r.None? ==> forall l :: level <= l <= 6 ==> !Fails(tags, offset, l)
    decreases 7 - level
  {
    if level > 6 then None
    else if Fails(tags, offset, level) then Some(level)
    else FailingFrom(tags, offset, level + 1)
  }

  /** The level whose range check raises, if any. */
  function FailingLevel(tags: seq<string>, offset: int): Option<int> {
    FailingFrom(tags, offset, 1)
  }

  /** Levels below `upTo` have been rewritten by the time the loop reaches
      level `upTo`. */
  function RewriteTag(tag: string, offset: int, upTo: int): string {
    match LevelOf(tag)
    case Some(l) => if l < upTo then HeadingTag(l + offset) else tag
    case None => tag
  }

  function RewriteClasses(tag: string, classes: seq<string>, upTo: int): seq<string> {
    match LevelOf(tag)
    case Some(l) => if l < upTo then AddClass(classes, HeadingTag(l)) else classes
    case None => classes
  }

  function RewriteTags(tags: seq<string>, offset: int, upTo: int): (r: seq<string>)
    ensures |r| == |tags|
  {
    seq(|tags|, i requires 0 <= i < |tags| => RewriteTag(tags[i], offset, upTo))
  }

  function RewriteAllClasses(tags: seq<string>, classes: seq<seq<string>>, upTo: int): (r: seq<seq<string>>)
    requires |tags| == |classes|
    ensures |r| == |classes|
  {
    seq(|tags|, i requires 0 <= i < |tags| => RewriteClasses(tags[i], classes[i], upTo))
  }

  /** Where the loop over levels stops: the failing level, or past 6. */
  function StopLevel(tags: seq<string>, offset: int): int {
    match FailingLevel(tags, offset)
    case Some(l) => l
    case None => 7
  }

  /** A parsed fragment: the tag and classes of each element, in document
      order. */
  class Fragment {
    var tags: seq<string>
    var classes: seq<seq<string>>

    ghost predicate Valid()
      reads this
    {
      |tags| == |classes|
    }

    /** `lxml.html.fragment_fromstring`, given the parsed tree. */
    constructor (root: Element)
      ensures Valid()
      ensures |tags| == |Preorder(root)|
      ensures forall i :: 0 <= i < |tags| ==> tags[i] == Preorder(root)[i].tag && classes[i] == Preorder(root)[i].classes
    {
      var es := Preorder(root);
      tags := seq(|es|, i requires 0 <= i < |es| => es[i].tag);
      classes := seq(|es|, i requires 0 <= i < |es| => es[i].classes);
    }

    /** `article(html, offset)`: every `hL` becomes `h(L + offset)` and gains
        class `hL`, level by level from 1 to 6; a level that has headings and
        would leave 1..6 stops the rewrite with an error. */
    method Article(offset: int) returns (r: Outcome<HeadingsError>)
      requires Valid()
      modifies this
      ensures Valid()
      ensures r == match FailingLevel(old(tags), offset)
        case None => Pass
        case Some(l) => Fail(CannotAdjust(l, offset))
      ensures tags == RewriteTags(old(tags), offset, StopLevel(old(tags), offset))
      ensures classes == RewriteAllClasses(old(tags), old(classes), StopLevel(old(tags), offset))
    {
      var parsed := tags;
      var headingsByLevel := seq(6, k requires 0 <= k < 6 => Select(parsed, HeadingTag(k + 1)));
      ghost var origTags, origClasses := tags, classes;
      var level := 1;
      while level <= 6
        invariant 1 <= level <= 7
        invariant |tags| == |classes| == |origTags| == |origClasses|
        invariant FailingLevel(origTags, offset) == FailingFrom(origTags, offset, level)
        invariant tags == RewriteTags(origTags, offset, level)
        invariant classes == RewriteAllClasses(origTags, origClasses, level)
      {
        var elements := headingsByLevel[level - 1];
        assert elements == Select(origTags, HeadingTag(level));
        var stopped := AdjustLevel(elements, offset, level, origTags, origClasses);
        if stopped {
          return Fail(CannotAdjust(level, offset));
        }
        level := level + 1;
      }
      assert FailingLevel(origTags, offset) == None;
      return Pass;
    }

    /** One pass of `Article`'s loop: the headings of `level`, selected
        before any rewrite, either all move by `offset` or, when they would
        leave 1..6, stop the rewrite with nothing changed. */
    method AdjustLevel(elements: seq<nat>, offset: int, level: int,
                       ghost origTags: seq<string>, ghost origClasses: seq<seq<string>>) returns (stopped: bool)
      requires Valid() && 1 <= level <= 6
      requires |origTags| == |origClasses| == |tags|
      requires elements == Select(origTags, HeadingTag(level))
      requires FailingLevel(origTags, offset) == FailingFrom(origTags, offset, level)
      requires tags == RewriteTags(origTags, offset, level)
      requires classes == RewriteAllClasses(origTags, origClasses, level)
      modifies this
      ensures Valid() && |tags| == |origTags|
      ensures stopped ==> FailingLevel(origTags, offset) == Some(level) && StopLevel(origTags, offset) == level
      ensures stopped ==> tags == old(tags) && classes == old(classes)
      ensures !stopped ==> FailingLevel(origTags, offset) == FailingFrom(origTags, offset, level + 1)
      ensures !stopped ==> tags == RewriteTags(origTags, offset, level + 1)
      ensures !stopped ==> classes == RewriteAllClasses(origTags, origClasses, level + 1)
    {
      if |elements| == 0 {
        NotPresent(origTags, level, elements);
        RewriteSkipsLevel(origTags, origClasses, offset, level);
        return false;
      }
      if !(1 <= level + offset <= 6) {
        StopsAt(origTags, offset, level, elements);
        return true;
      }
      RewriteLevel(elements, HeadingTag(level + offset), HeadingTag(level));
      LevelDone(origTags, origClasses, offset, level, elements, tags, classes);
      return false;
    }

    /** The inner loop over one level's headings: each element of `elements`
        (distinct indices) gets tag `newTag` and class `cls`; the others keep
        theirs. */
    method RewriteLevel(elements: seq<nat>, newTag: string, cls: string)
      requires Valid()
      requires forall k :: 0 <= k < |elements| ==> elements[k] < |tags|
      requires forall j, k :: 0 <= j < k < |elements| ==> elements[j] < elements[k]
      modifies this
      ensures Valid() && |tags| == |old(tags)|
      ensures forall i :: 0 <= i < |tags| ==>
        tags[i] == (if i in elements then newTag else old(tags)[i])
      ensures forall i :: 0 <= i < |tags| ==>
        classes[i] == (if i in elements then AddClass(old(classes)[i], cls) else old(classes)[i])
    {
      var k := 0;
      while k < |elements|
        invariant 0 <= k <= |elements|
        invariant |tags| == |classes| == |old(tags)|
        invariant forall i :: 0 <= i < |tags| ==>
          tags[i] == (if i in elements[..k] then newTag else old(tags)[i])
        invariant forall i :: 0 <= i < |tags| ==>
          classes[i] == (if i in elements[..k] then AddClass(old(classes)[i], cls) else old(classes)[i])
      {
        var i := elements[k];
        assert i !in elements[..k];
        tags := tags[i := newTag];
        classes := classes[i := AddClass(classes[i], cls)];
        assert elements[..k + 1] == elements[..k] + [i];
        k := k + 1;
      }
      assert elements[..k] == elements;
    }
  }

  /** A level with headings that cannot be moved is where the loop stops. */
  lemma StopsAt(tags: seq<string>, offset: int, level: int, elements: seq<nat>)
    requires 1 <= level <= 6 && !(1 <= level + offset <= 6)
    requires elements == Select(tags, HeadingTag(level)) && |elements| > 0
    requires FailingLevel(tags, offset) == FailingFrom(tags, offset, level)
    ensures FailingLevel(tags, offset) == Some(level) && StopLevel(tags, offset) == level
  {
    assert tags[elements[0]] == HeadingTag(level);
  }

  lemma NotPresent(tags: seq<string>, level: int, elements: seq<nat>)
    requires elements == Select(tags, HeadingTag(level)) && |elements| == 0
    ensures !Present(tags, level)
  {
  }

  /** A level without headings leaves the state as it is. */
  lemma RewriteSkipsLevel(tags: seq<string>, classes: seq<seq<string>>, offset: int, level: int)
    requires |tags| == |classes| && 1 <= level <= 6 && !Present(tags, level)
    ensures RewriteTags(tags, offset, level + 1) == RewriteTags(tags, offset, level)
    ensures RewriteAllClasses(tags, classes, level + 1) == RewriteAllClasses(tags, classes, level)
  {
    forall i | 0 <= i < |tags| ensures LevelOf(tags[i]) != Some(level) {
    }
  }

  /** After the inner loop every heading of `level` is rewritten. */
  lemma LevelDone(origTags: seq<string>, origClasses: seq<seq<string>>, offset: int, level: int,
                  elements: seq<nat>, tags: seq<string>, classes: seq<seq<string>>)
    requires |origTags| == |origClasses| == |tags| == |classes| && 1 <= level <= 6
    requires elements == Select(origTags, HeadingTag(level))
    requires forall i :: 0 <= i < |tags| ==>
      tags[i] == (if i in elements then HeadingTag(level + offset) else RewriteTags(origTags, offset, level)[i])
    requires forall i :: 0 <= i < |tags| ==>
      classes[i] == (if i in elements then AddClass(RewriteAllClasses(origTags, origClasses, level)[i], HeadingTag(level))
                     else RewriteAllClasses(origTags, origClasses, level)[i])
    ensures tags == RewriteTags(origTags, offset, level + 1)
    ensures classes == RewriteAllClasses(origTags, origClasses, level + 1)
  {
    forall i | 0 <= i < |tags|
      ensures tags[i] == RewriteTags(origTags, offset, level + 1)[i]
      ensures classes[i] == RewriteAllClasses(origTags, origClasses, level + 1)[i]
    {
      SelectedAt(origTags, HeadingTag(level), i);
      LevelDoneAt(origTags[i], origClasses[i], offset, level, i in elements, tags[i], classes[i]);
    }
  }

  lemma SelectedAt(tags: seq<string>, tag: string, i: int)
    requires 0 <= i < |tags|
    ensures i in Select(tags, tag) <==> tags[i] == tag
  {
  }

  lemma LevelDoneAt(origTag: string, origClasses: seq<string>, offset: int, level: int,
                    selected: bool, tag: string, classes: seq<string>)
    requires 1 <= level <= 6
    requires selected <==> origTag == HeadingTag(level)
    requires tag == (if selected then HeadingTag(level + offset) else RewriteTag(origTag, offset, level))
    requires classes == (if selected then AddClass(RewriteClasses(origTag, origClasses, level), HeadingTag(level))
                         else RewriteClasses(origTag, origClasses, level))
    ensures tag == RewriteTag(origTag, offset, level + 1)
    ensures classes == RewriteClasses(origTag, origClasses, level + 1)
  {
    LevelOfHeadingTag(level);
  }

  // ---------------------------------------------------------------------
  // What the rewrite promises

  /** The error is raised exactly when some level that has headings would
      move out of 1..6, and it names the lowest such level. */
  lemma FailsExactly(tags: seq<string>, offset: int)
    ensures FailingLevel(tags, offset).Some? <==>
      exists l :: 1 <= l <= 6 && Present(tags, l) && !(1 <= l + offset <= 6)
    ensures FailingLevel(tags, offset).Some? ==>
      forall l :: 1 <= l < FailingLevel(tags, offset).value ==> !Fails(tags, offset, l)
  {
  }

  /** A heading of level `l` ends with tag `h(l + offset)` (shifted once, not
      once per level it passes through) and with class `hl`. */
  lemma HeadingRewrittenOnce(tags: seq<string>, classes: seq<seq<string>>, offset: int, i: int)
    requires |tags| == |classes| && 0 <= i < |tags|
    requires FailingLevel(tags, offset).None?
    requires LevelOf(tags[i]).Some?
    ensures var l := LevelOf(tags[i]).value;
      && LevelOf(RewriteTags(tags, offset, 7)[i]) == Some(l + offset)
      && HeadingTag(l) in RewriteAllClasses(tags, classes, 7)[i]
  {
    var l := LevelOf(tags[i]).value;
    assert Present(tags, l);
    assert !Fails(tags, offset, l);
    LevelOfHeadingTag(l + offset);
  }

  /** Elements other than h1-h6 keep their tag and classes. */
  lemma NonHeadingsUnchanged(tags: seq<string>, classes: seq<seq<string>>, offset: int, upTo: int, i: int)
    requires |tags| == |classes| && 0 <= i < |tags|
    requires forall n :: 1 <= n <= 6 ==> tags[i] != HeadingTag(n)
    ensures RewriteTags(tags, offset, upTo)[i] == tags[i]
    ensures RewriteAllClasses(tags, classes, upTo)[i] == classes[i]
  {
  }

  /** With offset 0 no check fails, the tags stay as they are, and only the
      classes are added. */
  lemma ZeroOffset(tags: seq<string>, classes: seq<seq<string>>)
    requires |tags| == |classes|
    ensures FailingLevel(tags, 0).None?
    ensures RewriteTags(tags, 0, 7) == tags
  {
    forall i | 0 <= i < |tags| ensures RewriteTags(tags, 0, 7)[i] == tags[i] {
      match LevelOf(tags[i])
      case Some(l) =>
      case None =>
    }
  }

  /** Levels without headings are never checked: a fragment without headings
      passes for any offset and is left as it is. */
  lemma NoHeadings(tags: seq<string>, classes: seq<seq<string>>, offset: int)
    requires |tags| == |classes|
    requires forall i, n :: 0 <= i < |tags| && 1 <= n <= 6 ==> tags[i] != HeadingTag(n)
    ensures FailingLevel(tags, offset).None?
    ensures RewriteTags(tags, offset, 7) == tags
    ensures RewriteAllClasses(tags, classes, 7) == classes
  {
    forall i | 0 <= i < |tags|
      ensures RewriteTags(tags, offset, 7)[i] == tags[i]
      ensures RewriteAllClasses(tags, classes, 7)[i] == classes[i]
    {
      NonHeadingsUnchanged(tags, classes, offset, 7, i);
    }
  }

  /** The fixture of the module's tests: an article holding h1-h6 and a
      paragraph keeps its tags and gains one heading class per heading. */
  lemma Fixture()
    ensures var tags := ["article", "h1", "h2", "h3", "div", "h4", "h5", "h6", "p"];
      var classes: seq<seq<string>> := [[], [], [], [], [], [], [], [], []];
      && FailingLevel(tags, 0).None?
      && RewriteTags(tags, 0, 7) == tags
      && RewriteAllClasses(tags, classes, 7) == [[], ["h1"], ["h2"], ["h3"], [], ["h4"], ["h5"], ["h6"], []]
  {
    var tags := ["article", "h1", "h2", "h3", "div", "h4", "h5", "h6", "p"];
    var classes: seq<seq<string>> := [[], [], [], [], [], [], [], [], []];
    ZeroOffset(tags, classes);
    var expected: seq<seq<string>> := [[], ["h1"], ["h2"], ["h3"], [], ["h4"], ["h5"], ["h6"], []];
    forall i | 0 <= i < 9 ensures RewriteAllClasses(tags, classes, 7)[i] == expected[i] {
      if i in {1, 2, 3} {
        LevelOfHeadingTag(i);
      } else if i in {5, 6, 7} {
        LevelOfHeadingTag(i - 1);
      }
    }
  }
}
