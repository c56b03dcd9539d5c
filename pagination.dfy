/** Page numbers for a blog list's navigation bar
    (src/dseomn_website/pagination.py). Every page either appears as its
    number, stands behind an ellipsis (`None`), or is left out. */
module Pagination {
  import opened Wrappers

  function Abs(x: int): nat {
    if x < 0 then -x else x
  }

  /** What page `page` contributes to the list: its number, an ellipsis,
      or nothing. */
  function Entry(page: int, current: int, total: int, side: int): seq<Option<int>> {
    if page == 1 || page == total then [Some(page)]
    else if Abs(page - current) <= side then [Some(page)]
    else if page == 2 || page == total - 1 then
      if Abs(page - current) == side + 1 then [Some(page)] else [None]
    else []
  }

  /** The entries for pages `page..total`, in order. */
  function NavFrom(page: int, current: int, total: int, side: int): seq<Option<int>>
    requires page >= 1
    decreases total - page
  {
    if page > total then [] else Entry(page, current, total, side) + NavFrom(page + 1, current, total, side)
  }

  /** Every listed number lies in `lo..hi`. */
  predicate InRange(r: seq<Option<int>>, lo: int, hi: int) {
    forall i :: 0 <= i < |r| && r[i].Some? ==> lo <= r[i].value <= hi
  }

  /** The listed numbers strictly increase. */
  predicate Increasing(r: seq<Option<int>>) {
    forall i, j :: 0 <= i < j < |r| && r[i].Some? && r[j].Some? ==> r[i].value < r[j].value
  }

  lemma {:induction false} NavFromSorted(page: int, current: int, total: int, side: int)
    requires page >= 1
    ensures InRange(NavFrom(page, current, total, side), page, total)
    ensures Increasing(NavFrom(page, current, total, side))
    decreases total - page
  {
    if page <= total {
      var e := Entry(page, current, total, side);
      var rest := NavFrom(page + 1, current, total, side);
      NavFromSorted(page + 1, current, total, side);
      var r := e + rest;
      assert r == NavFrom(page, current, total, side);
      assert |e| <= 1;
      assert forall i :: 0 <= i < |e| && e[i].Some? ==> e[i].value == page;
      assert forall i :: |e| <= i < |r| ==> r[i] == rest[i - |e|];
    }
  }

  /** `nav(current=current, total=total, show_either_side=side)`. */
  function Nav(current: int, total: int, side: int): (r: seq<Option<int>>)
    ensures InRange(r, 1, total) && Increasing(r)
  {
    NavFromSorted(1, current, total, side);
    NavFrom(1, current, total, side)
  }

  /** The pages whose number is listed. */
  predicate Shown(p: int, current: int, total: int, side: int) {
    || p == 1
    || p == total
    || Abs(p - current) <= side
    || ((p == 2 || p == total - 1) && Abs(p - current) == side + 1)
  }

  /** The pages that become an ellipsis. */
  predicate Elided(p: int, current: int, total: int, side: int) {
    && (p == 2 || p == total - 1)
    && !Shown(p, current, total, side)
  }

  // ---------------------------------------------------------------------
  // Which pages are listed

  lemma {:induction false} NavFromShown(page: int, current: int, total: int, side: int, p: int)
    requires page >= 1
    ensures Some(p) in NavFrom(page, current, total, side) <==>
      page <= p <= total && Shown(p, current, total, side)
    decreases total - page
  {
    if page <= total {
      NavFromShown(page + 1, current, total, side, p);
      var e := Entry(page, current, total, side);
      assert Some(p) in NavFrom(page, current, total, side) <==>
        Some(p) in e || Some(p) in NavFrom(page + 1, current, total, side);
    }
  }

  /** A page number is listed exactly when it is page 1, the last page, in
      the window around the current page, or the one page an ellipsis would
      otherwise stand for. */
  lemma NavShown(current: int, total: int, side: int, p: int)
    ensures Some(p) in Nav(current, total, side) <==> 1 <= p <= total && Shown(p, current, total, side)
  {
    NavFromShown(1, current, total, side, p);
  }

  /** In particular every page of the window is listed, and so are the first
      and last pages. */
  lemma WindowShown(current: int, total: int, side: int, p: int)
    requires 1 <= p <= total
    requires p == 1 || p == total || Abs(p - current) <= side
    ensures Some(p) in Nav(current, total, side)
  {
    NavShown(current, total, side, p);
  }

  lemma NavEmpty(current: int, total: int, side: int)
    requires total <= 0
    ensures Nav(current, total, side) == []
  {
  }

  lemma {:induction false} NavFromLast(page: int, current: int, total: int, side: int)
    requires 1 <= page <= total
    ensures var r := NavFrom(page, current, total, side);
      |r| >= 1 && r[|r| - 1] == Some(total)
    decreases total - page
  {
    if page < total {
      NavFromLast(page + 1, current, total, side);
      var rest := NavFrom(page + 1, current, total, side);
      var r := Entry(page, current, total, side) + rest;
      assert r[|r| - 1] == rest[|rest| - 1];
    }
  }

  /** A non-empty list starts with page 1 and ends with the last page. */
  lemma NavEnds(current: int, total: int, side: int)
    requires total >= 1
    ensures var r := Nav(current, total, side);
      |r| >= 1 && r[0] == Some(1) && r[|r| - 1] == Some(total)
  {
    NavFromLast(1, current, total, side);
  }

  // ---------------------------------------------------------------------
  // Where the ellipses are

  /** Each ellipsis in `r`, the entries for pages `page..total`, stands
      either for page 2 (at the front) or for page `total - 1` (just before
      the last page). */
  predicate EllipsesAtEnds(r: seq<Option<int>>, page: int, current: int, total: int, side: int) {
    forall i {:trigger r[i]} :: 0 <= i < |r| && r[i].None? ==>
      (i == 0 && page == 2 && Elided(2, current, total, side))
      || (i == |r| - 2 && Elided(total - 1, current, total, side) && r[i + 1] == Some(total))
  }

  lemma EllipsisAt(r: seq<Option<int>>, page: int, current: int, total: int, side: int, j: int)
    requires EllipsesAtEnds(r, page, current, total, side)
    requires 0 <= j < |r| && r[j].None?
    ensures (j == 0 && page == 2 && Elided(2, current, total, side))
      || (j == |r| - 2 && Elided(total - 1, current, total, side) && r[j + 1] == Some(total))
  {
  }

  lemma {:induction false} NavFromNone(page: int, current: int, total: int, side: int)
    requires page >= 2
    ensures EllipsesAtEnds(NavFrom(page, current, total, side), page, current, total, side)
    decreases total - page
  {
    if page <= total {
      var r := NavFrom(page, current, total, side);
      var e := Entry(page, current, total, side);
      var rest := NavFrom(page + 1, current, total, side);
      NavFromNone(page + 1, current, total, side);
      assert r == e + rest;
      forall i | 0 <= i < |r| && r[i].None?
        ensures (i == 0 && page == 2 && Elided(2, current, total, side))
          || (i == |r| - 2 && Elided(total - 1, current, total, side) && r[i + 1] == Some(total))
      {
        if i < |e| {
          assert e == [None];
          if page != 2 {
            assert page == total - 1;
            assert NavFrom(total + 1, current, total, side) == [];
            assert rest == [Some(total)];
          }
        } else {
          var j := i - |e|;
          assert 0 <= j < |rest|;
          assert rest[j].None?;
          EllipsisAt(rest, page + 1, current, total, side, j);
          assert r[i + 1] == rest[j + 1];
        }
      }
    }
  }

  /** Only two places can hold an ellipsis: right after page 1 (standing for
      page 2 onwards) and right before the last page (standing for the pages
      up to `total - 1`). So there are at most two, and nothing is listed
      twice. */
  lemma NavNone(current: int, total: int, side: int)
    ensures var r := Nav(current, total, side);
      forall i :: 0 <= i < |r| && r[i].None? ==>
        && 0 < i < |r| - 1
        && ((i == 1 && Elided(2, current, total, side))
            || (i == |r| - 2 && Elided(total - 1, current, total, side)))
  {
    var r := Nav(current, total, side);
    if total >= 1 {
      var rest := NavFrom(2, current, total, side);
      assert r == [Some(1)] + rest;
      NavFromNone(2, current, total, side);
      NavEnds(current, total, side);
      forall i | 0 <= i < |r| && r[i].None?
        ensures && 0 < i < |r| - 1
          && ((i == 1 && Elided(2, current, total, side))
              || (i == |r| - 2 && Elided(total - 1, current, total, side)))
      {
        assert r[0] == Some(1) && r[|r| - 1] == Some(total);
        assert 0 <= i - 1 < |rest|;
        assert rest[i - 1].None?;
        EllipsisAt(rest, 2, current, total, side, i - 1);
      }
    }
  }

  /** The list is never longer than the number of pages. */
  lemma {:induction false} NavFromLength(page: int, current: int, total: int, side: int)
    requires page >= 1
    ensures |NavFrom(page, current, total, side)| <= if page <= total then total - page + 1 else 0
    decreases total - page
  {
    if page <= total {
      NavFromLength(page + 1, current, total, side);
    }
  }

  lemma NavLength(current: int, total: int, side: int)
    ensures |Nav(current, total, side)| <= if total < 0 then 0 else total
  {
    NavFromLength(1, current, total, side);
  }

  /** With a window of at least one page and the current page in range, an
      ellipsis always stands for two or more pages: the numbers on either
      side of it differ by at least three. */
  lemma EllipsisHidesTwoPages(current: int, total: int, side: int, i: int)
    requires side >= 1 && 1 <= current <= total
    requires 0 <= i < |Nav(current, total, side)| && Nav(current, total, side)[i] == None
    ensures var r := Nav(current, total, side);
      0 < i < |r| - 1 && r[i - 1].Some? && r[i + 1].Some? && r[i + 1].value - r[i - 1].value >= 3
  {
    var r := Nav(current, total, side);
    NavNone(current, total, side);
    NavEnds(current, total, side);
    NavShown(current, total, side, current);
    var k :| 0 <= k < |r| && r[k] == Some(current);
    if i == 1 && Elided(2, current, total, side) {
      // Page 2 is elided, so the current page lies at least side + 2 past it.
      assert current >= side + 4;
      assert r[2].Some?;
      var b := r[2].value;
      NavShown(current, total, side, b);
      NavShown(current, total, side, 2);
      NavShown(current, total, side, 3);
      assert b != 2 && b != 3;
    } else {
      assert i == |r| - 2 && Elided(total - 1, current, total, side);
      assert current <= total - side - 3;
      assert r[i - 1].Some?;
      var a := r[i - 1].value;
      NavShown(current, total, side, a);
      NavShown(current, total, side, total - 1);
      NavShown(current, total, side, total - 2);
      assert a != total - 1 && a != total - 2;
    }
  }

  /** Without a window the property above fails: page 2 is elided on its
      own, because page 3 is listed as the page one step from the current
      page. */
  lemma EllipsisOfOnePageWithoutWindow()
    ensures Nav(4, 4, 0) == [Some(1), None, Some(3), Some(4)]
  {
    assert Entry(1, 4, 4, 0) == [Some(1)];
    assert Entry(2, 4, 4, 0) == [None];
    assert Entry(3, 4, 4, 0) == [Some(3)];
    assert Entry(4, 4, 4, 0) == [Some(4)];
  }

  /** The fixtures of the module's tests, with the default window of 2:
      lists without an ellipsis. */
  lemma FixturesWithoutEllipsis()
    ensures Nav(1, 1, 2) == [Some(1)]
    ensures Nav(1, 5, 2) == [Some(1), Some(2), Some(3), Some(4), Some(5)]
    ensures Nav(5, 5, 2) == [Some(1), Some(2), Some(3), Some(4), Some(5)]
    ensures Nav(4, 7, 2) == [Some(1), Some(2), Some(3), Some(4), Some(5), Some(6), Some(7)]
    ensures Nav(5, 9, 2) == [Some(1), Some(2), Some(3), Some(4), Some(5), Some(6), Some(7), Some(8), Some(9)]
  {
  }

  /** The fixtures of the module's tests, with the default window of 2:
      lists with an ellipsis. */
  lemma FixturesWithEllipsis()
    ensures Nav(1, 6, 2) == [Some(1), Some(2), Some(3), None, Some(6)]
    ensures Nav(6, 6, 2) == [Some(1), None, Some(4), Some(5), Some(6)]
    ensures Nav(6, 11, 2) == [Some(1), None, Some(4), Some(5), Some(6), Some(7), Some(8), None, Some(11)]
  {
  }
}
