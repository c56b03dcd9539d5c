/** Structural checks on generated HTML (src/dseomn_website/lint.py): every
    heading carries exactly one heading class, and every id inside an
    article with an id is prefixed by that article's id. A check that
    raises becomes a `Fail` carrying the first offending element found in
    document order. */
module Lint {
  import opened Wrappers
  import opened Strings
  import opened HtmlTree

  datatype LintError =
    | NoHeadingClass(tag: string)
    | MultipleHeadingClasses(tag: string, classes: set<string>)
    | IdNotPrefixed(descendantId: string, articleId: string)

  const HeadingLevels: set<string> := {"h1", "h2", "h3", "h4", "h5", "h6"}

  function HeadingClasses(e: Element): set<string> {
    set c | c in e.classes && c in HeadingLevels
  }

  // ---------------------------------------------------------------------
  // Headings

  /** The error a single element raises in `_headings`, if any. */
  function HeadingError(e: Element): Option<LintError> {
    if e.tag !in HeadingLevels then None
    else if |HeadingClasses(e)| == 0 then Some(NoHeadingClass(e.tag))
    else if |HeadingClasses(e)| > 1 then Some(MultipleHeadingClasses(e.tag, HeadingClasses(e)))
    else None
  }

  /** `_headings` over elements in document order: the first error, if any. */
  function CheckHeadings(es: seq<Element>): (r: Outcome<LintError>)
    ensures r.Pass? <==> forall i :: 0 <= i < |es| ==> HeadingError(es[i]).None?
    ensures r.Fail? ==> exists k :: (0 <= k < |es| && HeadingError(es[k]) == Some(r.error)
      && forall i :: 0 <= i < k ==> HeadingError(es[i]).None?)
  {
    if es == [] then Pass
    else if HeadingError(es[0]).Some? then Fail(HeadingError(es[0]).value)
    else
      var r := CheckHeadings(es[1..]);
      assert forall i :: 1 <= i < |es| ==> es[i] == es[1..][i - 1];
      if r.Fail? then
        var k :| 0 <= k < |es[1..]| && HeadingError(es[1..][k]) == Some(r.error)
          && forall i :: 0 <= i < k ==> HeadingError(es[1..][i]).None?;
        assert HeadingError(es[k + 1]) == Some(r.error);
        r
      else r
  }

  function Headings(root: Element): Outcome<LintError> {
    CheckHeadings(Preorder(root))
  }

  /** Every h1-h6 element has exactly one class among h1-h6. Which one does
      not matter: it need not match the element's own level. */
  predicate HeadingsOk(root: Element) {
    forall e :: e in Preorder(root) && e.tag in HeadingLevels ==> |HeadingClasses(e)| == 1
  }

  lemma HeadingsPass(root: Element)
    ensures Headings(root).Pass? <==> HeadingsOk(root)
  {
    var es := Preorder(root);
    if HeadingsOk(root) {
      forall i | 0 <= i < |es| ensures HeadingError(es[i]).None? {
        assert es[i] in es;
      }
    } else {
      var e :| e in es && e.tag in HeadingLevels && |HeadingClasses(e)| != 1;
      var i :| 0 <= i < |es| && es[i] == e;
      assert HeadingError(es[i]).Some?;
    }
  }

  /** A heading without a heading class, or with several, is reported with
      its own tag. */
  lemma HeadingErrorKinds(root: Element)
    requires Headings(root).Fail?
    ensures var err := Headings(root).error;
      || (err.NoHeadingClass? && err.tag in HeadingLevels)
      || (err.MultipleHeadingClasses? && err.tag in HeadingLevels && |err.classes| > 1
          && err.classes <= HeadingLevels)
  {
  }

  // ---------------------------------------------------------------------
  // Ids

  /** The selector `article[id]`. */
  predicate IdArticle(e: Element) {
    e.tag == "article" && e.id.Some?
  }

  /** The inner loop of `_ids`: the first descendant whose id lacks the
      prefix. */
  function CheckDescendants(ds: seq<Element>, articleId: string): (r: Outcome<LintError>)
    ensures r.Pass? <==> forall i :: 0 <= i < |ds| && ds[i].id.Some? ==>
      StartsWith(ds[i].id.value, articleId + "-")
    ensures r.Fail? ==> exists i :: (0 <= i < |ds| && ds[i].id.Some?
      && !StartsWith(ds[i].id.value, articleId + "-")
      && r.error == IdNotPrefixed(ds[i].id.value, articleId))
  {
    if ds == [] then Pass
    else if ds[0].id.Some? && !StartsWith(ds[0].id.value, articleId + "-") then
      Fail(IdNotPrefixed(ds[0].id.value, articleId))
    else
      assert forall i :: 1 <= i < |ds| ==> ds[i] == ds[1..][i - 1];
      CheckDescendants(ds[1..], articleId)
  }

  /** The outer loop of `_ids`, over the elements in document order. */
  function CheckArticles(es: seq<Element>): (r: Outcome<LintError>)
    ensures r.Pass? <==> forall i :: 0 <= i < |es| && IdArticle(es[i]) ==>
      CheckDescendants(PreorderAll(es[i].children), es[i].id.value).Pass?
    ensures r.Fail? ==> exists i :: (0 <= i < |es| && IdArticle(es[i])
      && r == CheckDescendants(PreorderAll(es[i].children), es[i].id.value))
  {
    if es == [] then Pass
    else
      var first := if IdArticle(es[0]) then CheckDescendants(PreorderAll(es[0].children), es[0].id.value) else Pass;
      assert forall i :: 1 <= i < |es| ==> es[i] == es[1..][i - 1];
      if first.Fail? then first else CheckArticles(es[1..])
  }

  function Ids(root: Element): Outcome<LintError> {
    CheckArticles(Preorder(root))
  }

  /** Every id-bearing proper descendant of an `article` with an id has an
      id starting with the article's id and a hyphen. */
  ghost predicate IdsOk(root: Element) {
    forall a, d :: a in Preorder(root) && IdArticle(a) && Descendant(d, a) && d.id.Some? ==>
      StartsWith(d.id.value, a.id.value + "-")
  }

  lemma IdsPass(root: Element)
    ensures Ids(root).Pass? <==> IdsOk(root)
  {
    var es := Preorder(root);
    if IdsOk(root) {
      forall i | 0 <= i < |es| && IdArticle(es[i])
        ensures CheckDescendants(PreorderAll(es[i].children), es[i].id.value).Pass?
      {
        var ds := PreorderAll(es[i].children);
        assert es[i] in es;
        forall k | 0 <= k < |ds| && ds[k].id.Some?
          ensures StartsWith(ds[k].id.value, es[i].id.value + "-")
        {
          assert Descendant(ds[k], es[i]);
        }
      }
    } else {
      var a, d :| a in es && IdArticle(a) && Descendant(d, a) && d.id.Some?
        && !StartsWith(d.id.value, a.id.value + "-");
      var i :| 0 <= i < |es| && es[i] == a;
      var ds := PreorderAll(a.children);
      var k :| 0 <= k < |ds| && ds[k] == d;
      assert !CheckDescendants(ds, a.id.value).Pass?;
    }
  }

  /** An article nested in another is checked against both: its own
      descendants must carry the prefixes of every enclosing article with an
      id. */
  lemma NestedArticles(root: Element, a: Element, b: Element, d: Element)
    requires IdsOk(root)
    requires a in Preorder(root) && IdArticle(a)
    requires Descendant(b, a) && IdArticle(b)
    requires Descendant(d, b) && d.id.Some?
    ensures StartsWith(d.id.value, a.id.value + "-")
    ensures StartsWith(b.id.value, a.id.value + "-")
    ensures StartsWith(d.id.value, b.id.value + "-")
  {
    DescendantTransitive(a, b, d);
    PreorderSplit(a, b);
    PreorderTransitive(root, a, b);
  }

  /** An element without an id, an article included, adds no constraint of
      its own: the tree passes exactly when each child's subtree does. */
  lemma IdlessElement(tag: string, classes: seq<string>, children: seq<Element>)
    ensures IdsOk(Element(tag, classes, None, children)) <==>
      forall c :: c in children ==> IdsOk(c)
  {
    var root := Element(tag, classes, None, children);
    if IdsOk(root) {
      forall c | c in children ensures IdsOk(c) {
        forall a, d | a in Preorder(c) && IdArticle(a) && Descendant(d, a) && d.id.Some?
          ensures StartsWith(d.id.value, a.id.value + "-")
        {
          PreorderAllMember(children, a);
        }
      }
    } else {
      var a, d :| a in Preorder(root) && IdArticle(a) && Descendant(d, a) && d.id.Some?
        && !StartsWith(d.id.value, a.id.value + "-");
      PreorderAllMember(children, a);
      var c :| c in children && a in Preorder(c);
      assert !IdsOk(c);
    }
  }

  // ---------------------------------------------------------------------
  // The whole check

  /** `html(document_or_fragment)`, given the parsed tree. */
  function Html(root: Element): Outcome<LintError> {
    match Headings(root)
    case Fail(err) => Fail(err)
    case Pass => Ids(root)
  }

  /** The page passes exactly when both checks pass; a heading problem is
      reported before any id problem. */
  lemma HtmlPass(root: Element)
    ensures Html(root).Pass? <==> HeadingsOk(root) && IdsOk(root)
    ensures !HeadingsOk(root) ==> Html(root).Fail? && !Html(root).error.IdNotPrefixed?
  {
    HeadingsPass(root);
    IdsPass(root);
    if !HeadingsOk(root) {
      HeadingErrorKinds(root);
    }
  }

  // ---------------------------------------------------------------------
  // Fixtures of the module's tests

  function Leaf(tag: string, classes: seq<string>, id: Option<string>): Element {
    Element(tag, classes, id, [])
  }

  /** A bare heading of any level without a heading class is rejected. */
  lemma BareHeadingFixture(tag: string)
    requires tag in HeadingLevels
    ensures Html(Leaf(tag, [], None)) == Fail(NoHeadingClass(tag))
  {
    var h := Leaf(tag, [], None);
    assert HeadingClasses(h) == {};
    assert Preorder(h) == [h];
  }

  /** The tree of `<!doctype html><body><hN>foo</hN></body>`. */
  function HeadingDocument(tag: string): Element {
    Element("html", [], None, [Element("body", [], None, [Leaf(tag, [], None)])])
  }

  /** The same heading inside a whole document is rejected too. */
  lemma DocumentHeadingFixture(tag: string)
    requires tag in HeadingLevels
    ensures Html(HeadingDocument(tag)) == Fail(NoHeadingClass(tag))
  {
    var h := Leaf(tag, [], None);
    var body := Element("body", [], None, [h]);
    var doc := HeadingDocument(tag);
    assert HeadingClasses(h) == {};
    assert Preorder(h) == [h];
    PreorderAllSingle(h);
    assert Preorder(body) == [body, h];
    PreorderAllSingle(body);
    assert Preorder(doc) == [doc, body, h];
    assert "html" !in HeadingLevels && "body" !in HeadingLevels;
    assert [doc, body, h][1..] == [body, h] && [body, h][1..] == [h];
  }

  lemma HeadingFixtures()
    ensures Html(Leaf("h1", ["h1", "h2"], None)).Fail?
    ensures Html(Leaf("h1", ["h1", "h2"], None)).error.MultipleHeadingClasses?
    ensures Html(Leaf("h2", ["h1"], None)) == Pass
  {
    var one := Leaf("h2", ["h1"], None);
    assert HeadingClasses(one) == {"h1"};
    var two := Leaf("h1", ["h1", "h2"], None);
    assert HeadingClasses(two) == {"h1", "h2"};
    assert Preorder(one) == [one];
    assert Preorder(two) == [two];
    assert "h2" != "article";
  }

  /** `<div><article id="foo"><div><p id="...">` */
  function ArticleInDiv(articleId: Option<string>, pId: string): Element {
    Element("div", [], None, [Element("article", [], articleId, [
      Element("div", [], None, [Leaf("p", [], Some(pId))])])])
  }

  lemma ArticleInDivOrder(articleId: Option<string>, pId: string)
    ensures var p := Leaf("p", [], Some(pId));
      var inner := Element("div", [], None, [p]);
      var article := Element("article", [], articleId, [inner]);
      && Preorder(ArticleInDiv(articleId, pId)) == [ArticleInDiv(articleId, pId), article, inner, p]
      && PreorderAll(article.children) == [inner, p]
      && Headings(ArticleInDiv(articleId, pId)) == Pass
  {
    var p := Leaf("p", [], Some(pId));
    var inner := Element("div", [], None, [p]);
    var article := Element("article", [], articleId, [inner]);
    assert Preorder(p) == [p];
    PreorderAllSingle(p);
    assert Preorder(inner) == [inner, p];
    PreorderAllSingle(inner);
    assert Preorder(article) == [article, inner, p];
    PreorderAllSingle(article);
    assert "div" !in HeadingLevels && "p" !in HeadingLevels && "article" !in HeadingLevels;
  }

  lemma ArticleInDivIds(articleId: Option<string>, pId: string)
    ensures Html(ArticleInDiv(articleId, pId)) ==
      if articleId.Some? && !StartsWith(pId, articleId.value + "-") then Fail(IdNotPrefixed(pId, articleId.value))
      else Pass
  {
    ArticleInDivOrder(articleId, pId);
    var p := Leaf("p", [], Some(pId));
    var inner := Element("div", [], None, [p]);
    var article := Element("article", [], articleId, [inner]);
    var root := ArticleInDiv(articleId, pId);
    var es := [root, article, inner, p];
    assert es[1..] == [article, inner, p];
    assert es[1..][1..] == [inner, p];
    assert es[1..][1..][1..] == [p];
    assert [inner, p][1..] == [p];
    assert CheckArticles([p]) == Pass;
    assert CheckArticles([inner, p]) == Pass;
    if articleId.Some? {
      assert CheckDescendants([inner, p], articleId.value) == CheckDescendants([p], articleId.value);
    }
  }

  lemma IdFixtureUnprefixed()
    ensures Html(ArticleInDiv(Some("foo"), "bar")) == Fail(IdNotPrefixed("bar", "foo"))
  {
    ArticleInDivIds(Some("foo"), "bar");
    assert |"bar"| < |"foo-"|;
  }

  lemma IdFixturePrefixed()
    ensures Html(ArticleInDiv(Some("foo"), "foo-bar")) == Pass
  {
    ArticleInDivIds(Some("foo"), "foo-bar");
    assert StartsWith("foo-bar", "foo-");
  }

  lemma IdFixtureIdlessArticle()
    ensures Html(ArticleInDiv(None, "bar")) == Pass
  {
    ArticleInDivIds(None, "bar");
  }

  /** `<article id="..."><article id="..." class="..."><p id="...">` */
  function NestedArticle(outerId: string, innerClasses: seq<string>, innerId: string, pId: string): Element {
    Element("article", [], Some(outerId), [Element("article", innerClasses, Some(innerId), [
      Leaf("p", [], Some(pId))])])
  }

  lemma NestedArticleOrder(outerId: string, innerClasses: seq<string>, innerId: string, pId: string)
    ensures var p := Leaf("p", [], Some(pId));
      var inner := Element("article", innerClasses, Some(innerId), [p]);
      var outer := NestedArticle(outerId, innerClasses, innerId, pId);
      && Preorder(outer) == [outer, inner, p]
      && PreorderAll(outer.children) == [inner, p]
      && PreorderAll(inner.children) == [p]
      && Headings(outer) == Pass
  {
    var p := Leaf("p", [], Some(pId));
    var inner := Element("article", innerClasses, Some(innerId), [p]);
    assert Preorder(p) == [p];
    PreorderAllSingle(p);
    assert Preorder(inner) == [inner, p];
    PreorderAllSingle(inner);
    assert "p" !in HeadingLevels && "article" !in HeadingLevels;
  }

  /** The outer article checks both descendants before the inner article
      checks its own. */
  lemma NestedArticleIds(outerId: string, innerClasses: seq<string>, innerId: string, pId: string)
    ensures Html(NestedArticle(outerId, innerClasses, innerId, pId)) ==
      if !StartsWith(innerId, outerId + "-") then Fail(IdNotPrefixed(innerId, outerId))
      else if !StartsWith(pId, outerId + "-") then Fail(IdNotPrefixed(pId, outerId))
      else if !StartsWith(pId, innerId + "-") then Fail(IdNotPrefixed(pId, innerId))
      else Pass
  {
    NestedArticleOrder(outerId, innerClasses, innerId, pId);
    var p := Leaf("p", [], Some(pId));
    var inner := Element("article", innerClasses, Some(innerId), [p]);
    var root := NestedArticle(outerId, innerClasses, innerId, pId);
    var es := [root, inner, p];
    assert es[1..] == [inner, p];
    assert [inner, p][1..] == [p];
    assert CheckArticles([p]) == Pass;
    assert CheckArticles([inner, p]) == CheckDescendants([p], innerId);
    assert CheckDescendants([inner, p], outerId) ==
      if !StartsWith(innerId, outerId + "-") then Fail(IdNotPrefixed(innerId, outerId))
      else CheckDescendants([p], outerId);
    assert Ids(root) == if CheckDescendants([inner, p], outerId).Fail? then CheckDescendants([inner, p], outerId)
      else CheckArticles([inner, p]);
  }

  lemma NestedFixtureUnprefixed()
    ensures Html(NestedArticle("foo", ["comment"], "foo-bar", "quux")) == Fail(IdNotPrefixed("quux", "foo"))
  {
    NestedArticleIds("foo", ["comment"], "foo-bar", "quux");
    NestedFixtureIdsUnprefixed();
  }

  lemma NestedFixtureIdsUnprefixed()
    ensures StartsWith("foo-bar", "foo" + "-")
    ensures !StartsWith("quux", "foo" + "-")
  {
    assert "quux"[..4][0] != "foo-"[0];
    assert StartsWith("foo-bar", "foo-");
  }

  lemma NestedFixturePrefixed()
    ensures Html(NestedArticle("foo", [], "foo-bar", "foo-bar-quux")) == Pass
  {
    NestedArticleIds("foo", [], "foo-bar", "foo-bar-quux");
    NestedFixtureIdsPrefixed();
  }

  lemma NestedFixtureIdsPrefixed()
    ensures StartsWith("foo-bar", "foo" + "-")
    ensures StartsWith("foo-bar-quux", "foo" + "-")
    ensures StartsWith("foo-bar-quux", "foo-bar" + "-")
  {
    assert StartsWith("foo-bar", "foo-");
    assert StartsWith("foo-bar-quux", "foo-");
    assert StartsWith("foo-bar-quux", "foo-bar-");
  }

  /** No class exempts an inner article, `comment` included: an id that
      carries the outer article's prefix but not the inner one's is
      rejected. */
  lemma CommentArticleNotExempt(outerId: string, innerClasses: seq<string>, innerId: string, pId: string)
    requires StartsWith(innerId, outerId + "-") && StartsWith(pId, outerId + "-")
    requires !StartsWith(pId, innerId + "-")
    ensures Html(NestedArticle(outerId, innerClasses, innerId, pId)) == Fail(IdNotPrefixed(pId, innerId))
  {
    NestedArticleIds(outerId, innerClasses, innerId, pId);
  }

  /** The module's tests expect this fragment to pass; the check as written
      rejects it. */
  lemma CommentArticleFixture()
    ensures Html(NestedArticle("foo", ["comment"], "foo-bar", "foo-quux")) == Fail(IdNotPrefixed("foo-quux", "foo-bar"))
  {
    var prefix := "foo-bar" + "-";
    assert prefix[4] == 'b' && "foo-quux"[4] == 'q';
    assert !StartsWith("foo-quux", prefix);
    assert StartsWith("foo-bar", "foo-");
    assert StartsWith("foo-quux", "foo-");
    CommentArticleNotExempt("foo", ["comment"], "foo-bar", "foo-quux");
  }
}
