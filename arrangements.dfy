/** All orderings of a sequence: the full-length permutations that the seating and
    route puzzles enumerate. A permutation is any sequence with the same multiset
    of elements; when the input has no repeated elements that is an ordering that
    uses each element exactly once. */
module Arrangements {

  /** `xs` without its element at index `i`. */
  function RemoveAt<T>(xs: seq<T>, i: nat): (r: seq<T>)
    requires i < |xs|
    ensures |r| == |xs| - 1
    ensures multiset(r) == multiset(xs) - multiset{xs[i]}
  {
    assert xs == xs[..i] + [xs[i]] + xs[i + 1..];
    xs[..i] + xs[i + 1..]
  }

  /** `x` put in front of every sequence of `ps`. */
  function Prepend<T>(x: T, ps: seq<seq<T>>): (r: seq<seq<T>>)
    ensures |r| == |ps|
    ensures forall k :: 0 <= k < |r| ==> r[k] == [x] + ps[k]
  {
    seq(|ps|, k requires 0 <= k < |ps| => [x] + ps[k])
  }

  /** Every permutation of `xs`, grouped by the index of the element that comes first. */
  function Permutations<T>(xs: seq<T>): seq<seq<T>>
    decreases |xs|, 1
  {
    if xs == [] then [[]] else PermutationsFrom(xs, 0)
  }

  /** The permutations of `xs` that start with one of `xs[i..]`. */
  function PermutationsFrom<T>(xs: seq<T>, i: nat): seq<seq<T>>
    requires i <= |xs|
    decreases |xs|, 0, |xs| - i
  {
    if i == |xs| then []
    else Prepend(xs[i], Permutations(RemoveAt(xs, i))) + PermutationsFrom(xs, i + 1)
  }

  lemma PrependMembers<T>(x: T, tails: seq<seq<T>>, p: seq<T>)
    ensures p in Prepend(x, tails) <==> |p| > 0 && p[0] == x && p[1..] in tails
  {
    var r := Prepend(x, tails);
    if p in r {
      var k :| 0 <= k < |r| && r[k] == p;
      assert p[1..] == tails[k];
    }
    if |p| > 0 && p[0] == x && p[1..] in tails {
      var k :| 0 <= k < |tails| && tails[k] == p[1..];
      assert p == [x] + p[1..] == r[k];
    }
  }

  /** `p` starts with `xs[j]` and continues with a permutation of the rest. */
  ghost predicate StartsAt<T>(xs: seq<T>, j: nat, p: seq<T>)
    requires j < |xs|
  {
    |p| > 0 && p[0] == xs[j] && p[1..] in Permutations(RemoveAt(xs, j))
  }

  lemma {:induction false} PermutationsFromMembers<T>(xs: seq<T>, i: nat, p: seq<T>)
    requires i <= |xs|
    ensures p in PermutationsFrom(xs, i) <==> exists j :: i <= j < |xs| && StartsAt(xs, j, p)
    decreases |xs| - i
  {
    if i < |xs| {
      var tails := Permutations(RemoveAt(xs, i));
      var head := Prepend(xs[i], tails);
      var rest := PermutationsFrom(xs, i + 1);
      assert PermutationsFrom(xs, i) == head + rest;
      assert p in head + rest <==> p in head || p in rest;
      PermutationsFromMembers(xs, i + 1, p);
      PrependMembers(xs[i], tails, p);
      assert p in head <==> StartsAt(xs, i, p);
      if p in rest {
        var j :| i + 1 <= j < |xs| && StartsAt(xs, j, p);
        assert i <= j < |xs| && StartsAt(xs, j, p);
      }
      if exists j :: i <= j < |xs| && StartsAt(xs, j, p) {
        var j :| i <= j < |xs| && StartsAt(xs, j, p);
        if j != i {
          assert i + 1 <= j < |xs| && StartsAt(xs, j, p);
        }
      }
    }
  }

  lemma SplitFirst<T>(p: seq<T>)
    requires |p| > 0
    ensures multiset(p) == multiset{p[0]} + multiset(p[1..])
  {
    assert p == [p[0]] + p[1..];
  }

  lemma SplitAt<T>(xs: seq<T>, j: nat)
    requires j < |xs|
    ensures multiset(xs) == multiset{xs[j]} + multiset(RemoveAt(xs, j))
  {
    assert xs == xs[..j] + [xs[j]] + xs[j + 1..];
  }

  lemma {:induction false} PermutationsSound<T>(xs: seq<T>, p: seq<T>)
    requires p in Permutations(xs)
    ensures multiset(p) == multiset(xs)
    decreases |xs|
  {
    if xs != [] {
      PermutationsFromMembers(xs, 0, p);
      var j :| 0 <= j < |xs| && StartsAt(xs, j, p);
      var rest := RemoveAt(xs, j);
      PermutationsSound(rest, p[1..]);
      SplitFirst(p);
      SplitAt(xs, j);
    }
  }

  lemma {:induction false} PermutationsComplete<T>(xs: seq<T>, p: seq<T>)
    requires multiset(p) == multiset(xs)
    ensures p in Permutations(xs)
    decreases |xs|
  {
    assert |p| == |multiset(p)| == |xs|;
    if xs == [] {
      assert p == [];
    } else {
      assert p[0] in multiset(xs);
      var j :| 0 <= j < |xs| && xs[j] == p[0];
      assert p == [p[0]] + p[1..];
      assert multiset(p) == multiset{p[0]} + multiset(p[1..]);
      assert multiset(p[1..]) == multiset(RemoveAt(xs, j));
      PermutationsComplete(RemoveAt(xs, j), p[1..]);
      assert StartsAt(xs, j, p);
      PermutationsFromMembers(xs, 0, p);
    }
  }

  /** A sequence is enumerated exactly when it is a permutation of `xs`. */
  lemma PermutationsExactly<T>(xs: seq<T>, p: seq<T>)
    ensures p in Permutations(xs) <==> multiset(p) == multiset(xs)
  {
    if p in Permutations(xs) {
      PermutationsSound(xs, p);
    }
    if multiset(p) == multiset(xs) {
      PermutationsComplete(xs, p);
    }
  }

  /** No element of `xs` occurs twice. */
  predicate Distinct<T(==)>(xs: seq<T>)
  {
    forall i, j :: 0 <= i < j < |xs| ==> xs[i] != xs[j]
  }

  /** A permutation of a sequence without repetitions is one too, over the same elements. */
  lemma {:induction false} PermutationOfDistinct<T>(xs: seq<T>, p: seq<T>)
    requires Distinct(xs) && multiset(p) == multiset(xs)
    ensures Distinct(p) && |p| == |xs|
    ensures forall x :: x in p <==> x in xs
  {
    assert |p| == |multiset(p)| == |xs|;
    forall x ensures x in p <==> x in xs {
      assert x in p <==> x in multiset(p);
      assert x in xs <==> x in multiset(xs);
    }
    forall i, j | 0 <= i < j < |p| ensures p[i] != p[j] {
      if p[i] == p[j] {
        DistinctCount(xs, p[i]);
        TwiceCount(p, i, j);
        assert false;
      }
    }
  }

  lemma {:induction false} DistinctCount<T>(xs: seq<T>, x: T)
    requires Distinct(xs)
    ensures multiset(xs)[x] <= 1
  {
    if xs != [] {
      assert xs == [xs[0]] + xs[1..];
      assert Distinct(xs[1..]) by {
        forall i, j | 0 <= i < j < |xs[1..]| ensures xs[1..][i] != xs[1..][j] {
          assert xs[1..][i] == xs[i + 1] && xs[1..][j] == xs[j + 1];
        }
      }
      DistinctCount(xs[1..], x);
      if xs[0] == x {
        assert x !in xs[1..] by {
          forall k | 0 <= k < |xs[1..]| ensures xs[1..][k] != x {
            assert xs[1..][k] == xs[k + 1];
          }
        }
      }
    }
  }

  lemma {:induction false} TwiceCount<T>(p: seq<T>, i: nat, j: nat)
    requires i < j < |p| && p[i] == p[j]
    ensures multiset(p)[p[i]] >= 2
  {
    assert p == p[..i] + [p[i]] + p[i + 1..j] + [p[j]] + p[j + 1..];
  }
}
