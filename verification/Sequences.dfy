/** Lists without repetition, and lists in order. */
module Sequences {

  function Elements<T(==)>(xs: seq<T>): set<T> {
    set x | x in xs
  }

  lemma ElementsOn<T>(xs: seq<T>, x: T)
    ensures Elements(xs + [x]) == Elements(xs) + {x}
  {
  }

  ghost predicate NoRepeats<T>(xs: seq<T>) {
    forall i, j :: 0 <= i < j < |xs| ==> xs[i] != xs[j]
  }

  lemma NoRepeatsAppend<T>(a: seq<T>, b: seq<T>)
    ensures NoRepeats(a + b) <==> NoRepeats(a) && NoRepeats(b) && forall x :: x in a ==> x !in b
  {
    if NoRepeats(a + b) {
      forall i, j | 0 <= i < j < |b|
        ensures b[i] != b[j]
      {
        assert (a + b)[|a| + i] == b[i] && (a + b)[|a| + j] == b[j];
      }
      forall i, j | 0 <= i < j < |a|
        ensures a[i] != a[j]
      {
        assert (a + b)[i] == a[i] && (a + b)[j] == a[j];
      }
      forall x | x in a
        ensures x !in b
      {
        var i :| 0 <= i < |a| && a[i] == x;
        assert forall j :: 0 <= j < |b| ==> (a + b)[|a| + j] == b[j] && (a + b)[i] == x;
      }
    }
    if NoRepeats(a) && NoRepeats(b) && forall x :: x in a ==> x !in b {
      forall i, j | 0 <= i < j < |a + b|
        ensures (a + b)[i] != (a + b)[j]
      {
        assert i < |a| ==> a[i] in a;
        assert j >= |a| ==> b[j - |a|] in b;
      }
    }
  }

  /** The elements of a list in the order in which they first occur. */
  function Distinct<T(==)>(xs: seq<T>): (r: seq<T>)
    ensures Elements(r) == Elements(xs)
  {
    if xs == [] then []
    else
      var n := |xs| - 1;
      assert xs == xs[..n] + [xs[n]];
      ElementsOn(xs[..n], xs[n]);
      ElementsOn(Distinct(xs[..n]), xs[n]);
      if xs[n] in xs[..n] then Distinct(xs[..n]) else Distinct(xs[..n]) + [xs[n]]
  }

  lemma {:induction false} DistinctOnce<T>(xs: seq<T>)
    ensures NoRepeats(Distinct(xs))
    ensures forall i, j :: 0 <= i < j < |Distinct(xs)| ==>
      exists k :: 0 <= k < |xs| && xs[k] == Distinct(xs)[i] && Distinct(xs)[j] !in xs[..k + 1]
  {
    if xs != [] {
      var n := |xs| - 1;
      var sofar := Distinct(xs[..n]);
      DistinctOnce(xs[..n]);
      assert forall x :: x in sofar ==> x in Elements(sofar);
      assert forall x :: x in xs[..n] ==> x in Elements(xs[..n]);
      forall i, j | 0 <= i < j < |Distinct(xs)|
        ensures exists k :: 0 <= k < |xs| && xs[k] == Distinct(xs)[i] && Distinct(xs)[j] !in xs[..k + 1]
      {
        if j < |sofar| {
          var k :| 0 <= k < n && xs[..n][k] == sofar[i] && sofar[j] !in xs[..n][..k + 1];
          assert xs[..n][..k + 1] == xs[..k + 1] && xs[k] == Distinct(xs)[i];
        } else {
          assert sofar[i] in Elements(sofar);
          var k :| 0 <= k < n && xs[..n][k] == sofar[i];
          assert xs[..k + 1] == xs[..n][..k + 1];
          assert xs[n] !in xs[..k + 1] && xs[k] == Distinct(xs)[i];
        }
      }
    }
  }

  /** `list(dict.fromkeys(xs))` */
  method Deduplicated<T(==)>(xs: seq<T>) returns (unique: seq<T>)
    ensures unique == Distinct(xs)
    ensures Elements(unique) == Elements(xs) && NoRepeats(unique)
  {
    unique := [];
    for i := 0 to |xs|
      invariant unique == Distinct(xs[..i])
    {
      assert xs[..i + 1][..i] == xs[..i];
      assert xs[i] in Elements(unique) <==> xs[i] in xs[..i];
      if xs[i] !in unique {
        unique := unique + [xs[i]];
      }
    }
    assert xs[..|xs|] == xs;
    DistinctOnce(xs);
  }

  // ----- Insertion sort -----

  ghost predicate OrderedBy<T(!new)>(before: (T, T) -> bool, xs: seq<T>) {
    forall j, k :: 0 <= j < k < |xs| ==> before(xs[j], xs[k])
  }

  function InsertBy<T(!new)>(before: (T, T) -> bool, xs: seq<T>, x: T): (r: seq<T>)
    ensures |r| == |xs| + 1 && forall y :: y in r <==> y in xs || y == x
  {
    if xs == [] || before(x, xs[0]) then [x] + xs
    else
      assert xs == [xs[0]] + xs[1..];
      [xs[0]] + InsertBy(before, xs[1..], x)
  }

  /** `x` has its place among the elements of `xs`. */
  ghost predicate HasPlace<T(!new)>(before: (T, T) -> bool, xs: seq<T>, x: T) {
    && (forall y :: y in xs ==> before(x, y) || before(y, x))
    && (forall y, z :: y in xs && z in xs && before(x, y) && before(y, z) ==> before(x, z))
  }

  lemma {:induction false} InsertOrdered<T(!new)>(before: (T, T) -> bool, xs: seq<T>, x: T)
    requires OrderedBy(before, xs) && HasPlace(before, xs, x)
    ensures OrderedBy(before, InsertBy(before, xs, x))
  {
    if xs != [] {
      var rest := InsertBy(before, xs[1..], x);
      assert xs == [xs[0]] + xs[1..];
      if before(x, xs[0]) {
        assert forall k :: 0 < k < |xs| ==> before(xs[0], xs[k]) && xs[k] in xs;
      } else {
        InsertOrdered(before, xs[1..], x);
        forall k | 0 <= k < |rest|
          ensures before(xs[0], rest[k])
        {
          assert rest[k] in rest;
          if rest[k] != x {
            var m :| 0 <= m < |xs[1..]| && xs[1..][m] == rest[k];
            assert xs[m + 1] == rest[k];
          }
        }
      }
    }
  }

  lemma {:induction false} InsertAtEnd<T(!new)>(before: (T, T) -> bool, xs: seq<T>, x: T)
    requires forall y :: y in xs ==> !before(x, y)
    ensures InsertBy(before, xs, x) == xs + [x]
  {
    if xs != [] {
      InsertAtEnd(before, xs[1..], x);
    }
  }

  /** A set in order, one insertion for each element. */
  method SortSet<T(==,!new)>(before: (T, T) -> bool, elements: set<T>) returns (sorted: seq<T>)
    requires forall x, y :: x in elements && y in elements && x != y ==> before(x, y) || before(y, x)
    requires forall x, y, z :: x in elements && y in elements && z in elements && before(x, y) && before(y, z) ==> before(x, z)
    ensures OrderedBy(before, sorted) && forall x :: x in sorted <==> x in elements
  {
    sorted := [];
    var rest := elements;
    while rest != {}
      invariant rest <= elements && OrderedBy(before, sorted)
      invariant forall x :: x in sorted <==> x in elements && x !in rest
    {
      var x :| x in rest;
      InsertOrdered(before, sorted, x);
      sorted := InsertBy(before, sorted, x);
      rest := rest - {x};
    }
  }
}
