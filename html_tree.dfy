/** The parsed HTML the site's checks and rewrites work on: an element with
    its tag, its classes, its `id` attribute if it has one, and its children.
    Text, comments and every other attribute play no part in those checks.
    `Preorder` lists an element and its descendants in document order, which
    is the order `cssselect` returns matches in (the element itself
    included). */
module HtmlTree {
  import opened Wrappers

  datatype Element = Element(tag: string, classes: seq<string>, id: Option<string>, children: seq<Element>)

  /** The element, then its descendants, in document order. */
  function Preorder(e: Element): (r: seq<Element>)
    ensures |r| >= 1 && r[0] == e
    decreases e
  {
    [e] + PreorderAll(e.children)
  }

  /** The elements of the trees `es`, in document order. */
  function PreorderAll(es: seq<Element>): seq<Element>
    decreases es
  {
    if es == [] then [] else Preorder(es[0]) + PreorderAll(es[1..])
  }

  lemma PreorderAllSingle(e: Element)
    ensures PreorderAll([e]) == Preorder(e)
  {
    assert [e][1..] == [];
  }

  /** `d` is a proper descendant of `a`. */
  predicate Descendant(d: Element, a: Element) {
    d in PreorderAll(a.children)
  }

  lemma {:induction false} PreorderAllMember(es: seq<Element>, y: Element)
    ensures y in PreorderAll(es) <==> exists c :: c in es && y in Preorder(c)
    decreases es
  {
    if es != [] {
      PreorderAllMember(es[1..], y);
      assert PreorderAll(es) == Preorder(es[0]) + PreorderAll(es[1..]);
      if exists c :: c in es && y in Preorder(c) {
        var c :| c in es && y in Preorder(c);
        if c != es[0] {
          assert c in es[1..];
        }
      }
    }
  }

  /** Being in a subtree is transitive. */
  lemma {:induction false} PreorderTransitive(e: Element, x: Element, y: Element)
    requires x in Preorder(e) && y in Preorder(x)
    ensures y in Preorder(e)
    decreases e
  {
    if x != e {
      PreorderAllMember(e.children, x);
      var c :| c in e.children && x in Preorder(c);
      PreorderTransitive(c, x, y);
      PreorderAllMember(e.children, y);
    }
  }

  /** A descendant of a descendant is a descendant. */
  lemma DescendantTransitive(a: Element, b: Element, d: Element)
    requires Descendant(b, a) && Descendant(d, b)
    ensures Descendant(d, a)
  {
    PreorderAllMember(a.children, b);
    var c :| c in a.children && b in Preorder(c);
    PreorderTransitive(c, b, d);
    PreorderAllMember(a.children, d);
  }

  /** Every element listed below the root is a descendant of the root. */
  lemma PreorderSplit(e: Element, x: Element)
    ensures x in Preorder(e) <==> x == e || Descendant(x, e)
  {
  }
}
