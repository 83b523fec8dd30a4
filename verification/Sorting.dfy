/** Sorted lists of distinct integers, as sort.Ints leaves the keys of a map. */
module Sorting {

  predicate Sorted(xs: seq<int>) {
    forall i, j | 0 <= i < j < |xs| :: xs[i] <= xs[j]
  }

  predicate Distinct(xs: seq<int>) {
    forall i, j | 0 <= i < j < |xs| :: xs[i] != xs[j]
  }

  function Elements(xs: seq<int>): (s: set<int>) {
    set x <- xs
  }

  lemma AtLeast(y: int, x: int, ys: seq<int>, rest: seq<int>)
    requires y <= x && (forall i | 0 <= i < |ys| :: y <= ys[i]) && multiset(rest) == multiset(ys) + multiset{x}
    ensures forall i | 0 <= i < |rest| :: y <= rest[i]
  {
    forall i | 0 <= i < |rest| ensures y <= rest[i] {
      assert rest[i] in multiset(rest);
      assert rest[i] == x || rest[i] in ys;
    }
  }

  /** x inserted into its place among the sorted ys. */
  function Insert(x: int, ys: seq<int>): (r: seq<int>)
    requires Sorted(ys)
    ensures Sorted(r)
    ensures multiset(r) == multiset(ys) + multiset{x}
  {
    if ys == [] then [x]
    else if x <= ys[0] then
      assert multiset([x] + ys) == multiset{x} + multiset(ys);
      [x] + ys
    else
      var rest := Insert(x, ys[1..]);
      assert ys == [ys[0]] + ys[1..];
      AtLeast(ys[0], x, ys[1..], rest);
      [ys[0]] + rest
  }

  /** sort.Ints. */
  function Sort(xs: seq<int>): (r: seq<int>)
    ensures Sorted(r) && multiset(r) == multiset(xs)
  {
    if xs == [] then [] else
      assert xs == [xs[0]] + xs[1..];
      Insert(xs[0], Sort(xs[1..]))
  }

  lemma NoElements(xs: seq<int>)
    ensures Elements(xs) == {} <==> xs == []
  {
    if xs != [] {
      assert xs[0] in Elements(xs);
    }
  }

  /** A sorted list of distinct integers is determined by its elements. */
  lemma {:induction false} SortedUnique(a: seq<int>, b: seq<int>)
    requires Sorted(a) && Sorted(b) && Distinct(a) && Distinct(b) && Elements(a) == Elements(b)
    ensures a == b
  {
    if a == [] {
      NoElements(b);
    } else {
      assert a[0] in Elements(a) && a[0] in b;
      assert b[0] in Elements(b) && b[0] in a;
      assert a[0] == b[0];
      var a1, b1 := a[1..], b[1..];
      assert a == [a[0]] + a1 && b == [b[0]] + b1;
      forall x ensures x in a1 <==> x in b1 {
        if x in a1 {
          assert x in Elements(a) && x != a[0];
          assert x in b;
        }
        if x in b1 {
          assert x in Elements(b) && x != b[0];
          assert x in a;
        }
      }
      SortedUnique(a1, b1);
    }
  }

  /** Sorting a list without repetitions keeps its elements and stays without repetitions. */
  lemma SortDistinct(xs: seq<int>)
    requires Distinct(xs)
    ensures Elements(Sort(xs)) == Elements(xs) && Distinct(Sort(xs)) && |Sort(xs)| == |xs|
  {
    var r := Sort(xs);
    forall x ensures x in r <==> x in xs {
      assert x in multiset(r) <==> x in multiset(xs);
    }
    assert |multiset(r)| == |multiset(xs)|;
    CountOnce(xs);
    AtMostOnce(r);
  }

  lemma {:induction false} CountOnce(xs: seq<int>)
    requires Distinct(xs)
    ensures forall x :: multiset(xs)[x] <= 1
  {
    if xs != [] {
      CountOnce(xs[1..]);
      assert xs == [xs[0]] + xs[1..];
      assert xs[0] !in xs[1..];
    }
  }

  lemma AtMostOnce(xs: seq<int>)
    requires forall x :: multiset(xs)[x] <= 1
    ensures Distinct(xs)
  {
    forall i, j | 0 <= i < j < |xs| ensures xs[i] != xs[j] {
      assert xs == xs[..i] + [xs[i]] + xs[i + 1..j] + [xs[j]] + xs[j + 1..];
      assert multiset(xs) == multiset(xs[..i]) + multiset{xs[i]} + multiset(xs[i + 1..j]) + multiset{xs[j]}
                             + multiset(xs[j + 1..]);
      var x := xs[i];
      assert multiset(xs)[x] <= 1;
    }
  }
}
