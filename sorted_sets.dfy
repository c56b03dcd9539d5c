/** Python's `sorted(set(xs))` on strings: the distinct elements of a
    sequence in increasing code-point order (`Strings.StrLess`). The font
    family lists and the tag check on posts are built on it. */
module SortedSets {
  import opened Strings

  /** Every element is below every later one: sorted with no duplicates. */
  predicate StrictlySorted(xs: seq<string>) {
    forall i, j :: 0 <= i < j < |xs| ==> StrLess(xs[i], xs[j])
  }

  /** Inserts `x` at its place in a strictly sorted list, unless present. */
  function Insert(x: string, xs: seq<string>): seq<string>
    decreases |xs|
  {
    if xs == [] then [x]
    else if x == xs[0] then xs
    else if StrLess(x, xs[0]) then [x] + xs
    else [xs[0]] + Insert(x, xs[1..])
  }

  /** `sorted(set(xs))`. */
  function SortedSet(xs: seq<string>): seq<string>
    decreases |xs|
  {
    if xs == [] then [] else Insert(xs[0], SortedSet(xs[1..]))
  }

  lemma {:induction false} InsertSpec(x: string, xs: seq<string>)
    requires StrictlySorted(xs)
    ensures StrictlySorted(Insert(x, xs))
    ensures forall y :: y in Insert(x, xs) <==> y == x || y in xs
    decreases |xs|
  {
    if xs != [] && x != xs[0] && StrLess(x, xs[0]) {
      var r := [x] + xs;
      forall i, j | 0 <= i < j < |r|
        ensures StrLess(r[i], r[j])
      {
        if i == 0 && j > 1 {
          StrLessTransitive(x, xs[0], xs[j - 1]);
        }
      }
    } else if xs != [] && x != xs[0] {
      StrLessTotal(x, xs[0]);
      var tail := Insert(x, xs[1..]);
      InsertSpec(x, xs[1..]);
      var r := [xs[0]] + tail;
      forall i, j | 0 <= i < j < |r|
        ensures StrLess(r[i], r[j])
      {
        if i == 0 {
          assert r[j] in tail;
        }
      }
      assert forall y :: y in xs <==> y == xs[0] || y in xs[1..] by {
        assert xs == [xs[0]] + xs[1..];
      }
    }
  }

  /** The result is strictly sorted and holds exactly the input's elements. */
  lemma {:induction false} SortedSetSpec(xs: seq<string>)
    ensures StrictlySorted(SortedSet(xs))
    ensures forall y :: y in SortedSet(xs) <==> y in xs
    decreases |xs|
  {
    if xs != [] {
      SortedSetSpec(xs[1..]);
      InsertSpec(xs[0], SortedSet(xs[1..]));
      assert xs == [xs[0]] + xs[1..];
    }
  }

  /** A strictly sorted list has no element twice. */
  lemma StrictlySortedDistinct(xs: seq<string>, i: int, j: int)
    requires StrictlySorted(xs)
    requires 0 <= i < |xs| && 0 <= j < |xs| && i != j
    ensures xs[i] != xs[j]
  {
    if i < j {
      StrLessIrreflexive(xs[i]);
    } else {
      StrLessIrreflexive(xs[j]);
    }
  }

  lemma HasFirst(xs: seq<string>)
    requires xs != []
    ensures xs[0] in xs
  {
  }

  /** Two strictly sorted lists with the same elements are equal. */
  lemma {:induction false} SortedUnique(a: seq<string>, b: seq<string>)
    requires StrictlySorted(a) && StrictlySorted(b)
    requires forall y :: y in a <==> y in b
    ensures a == b
    decreases |a|
  {
    if a != [] {
      assert a[0] in b;
      var j :| 0 <= j < |b| && b[j] == a[0];
      assert b[0] in a;
      var i :| 0 <= i < |a| && a[i] == b[0];
      if i > 0 && j > 0 {
        StrLessAsymmetric(a[0], a[i]);
        assert false;
      } else if i > 0 {
        StrLessIrreflexive(a[0]);
        assert false;
      } else if j > 0 {
        StrLessIrreflexive(b[0]);
        assert false;
      }
      forall y
        ensures y in a[1..] <==> y in b[1..]
      {
        if y in a[1..] {
          var k :| 1 <= k < |a| && a[k] == y;
          StrictlySortedDistinct(a, 0, k);
          assert y in b;
          assert b == [b[0]] + b[1..];
        }
        if y in b[1..] {
          var k :| 1 <= k < |b| && b[k] == y;
          StrictlySortedDistinct(b, 0, k);
          assert y in a;
          assert a == [a[0]] + a[1..];
        }
      }
      SortedUnique(a[1..], b[1..]);
      assert a == [a[0]] + a[1..];
      assert b == [b[0]] + b[1..];
    } else if b != [] {
      HasFirst(b);
      assert false;
    }
  }

  /** `xs == sorted(set(xs))` holds exactly when `xs` is strictly sorted. */
  lemma SortedSetFixed(xs: seq<string>)
    ensures SortedSet(xs) == xs <==> StrictlySorted(xs)
  {
    SortedSetSpec(xs);
    if StrictlySorted(xs) {
      SortedUnique(SortedSet(xs), xs);
    }
  }

  /** Strict sortedness follows from each neighbouring pair being in order. */
  lemma {:induction false} SortedByNeighbours(xs: seq<string>)
    requires forall i :: 0 <= i < |xs| - 1 ==> StrLess(xs[i], xs[i + 1])
    ensures StrictlySorted(xs)
    decreases |xs|
  {
    if |xs| > 1 {
      var tail := xs[1..];
      forall i | 0 <= i < |tail| - 1
        ensures StrLess(tail[i], tail[i + 1])
      {
        assert tail[i] == xs[i + 1] && tail[i + 1] == xs[i + 2];
      }
      SortedByNeighbours(tail);
      forall i, j | 0 <= i < j < |xs|
        ensures StrLess(xs[i], xs[j])
      {
        if i == 0 && j > 1 {
          assert StrLess(tail[0], tail[j - 1]);
          StrLessTransitive(xs[0], xs[1], xs[j]);
        } else if i > 0 {
          assert StrLess(tail[i - 1], tail[j - 1]);
        }
      }
    }
  }

  lemma SortedSetCons(x: string, xs: seq<string>)
    ensures SortedSet([x] + xs) == Insert(x, SortedSet(xs))
  {
    assert ([x] + xs)[1..] == xs;
  }

  /** `itertools.chain.from_iterable`: the lists one after another. */
  function Flatten(xss: seq<seq<string>>): seq<string>
    decreases |xss|
  {
    if xss == [] then [] else xss[0] + Flatten(xss[1..])
  }

  lemma {:induction false} FlattenMembers(xss: seq<seq<string>>, y: string)
    ensures y in Flatten(xss) <==> exists i :: 0 <= i < |xss| && y in xss[i]
    decreases |xss|
  {
    if xss != [] {
      FlattenMembers(xss[1..], y);
      if y in xss[0] {
        assert y in xss[0] + Flatten(xss[1..]);
      } else if y in Flatten(xss[1..]) {
        var i :| 0 <= i < |xss[1..]| && y in xss[1..][i];
        assert y in xss[i + 1];
      } else {
        forall i | 0 <= i < |xss|
          ensures y !in xss[i]
        {
          if i > 0 {
            assert xss[i] == xss[1..][i - 1];
          }
        }
      }
    }
  }

  lemma FlattenTwo(a: seq<string>, b: seq<string>)
    ensures Flatten([a, b]) == a + b
  {
    assert Flatten([b]) == b by {
      assert [b][1..] == [];
      assert b + [] == b;
    }
    assert [a, b][1..] == [b];
  }
}
