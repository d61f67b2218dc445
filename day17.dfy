/** Eggnog containers: every subset of the containers is enumerated as a mask of
    booleans, and the answer counts the masks whose chosen containers hold exactly the
    eggnog. Containers of equal size are distinct containers. */
module Day17 {

  function Pow2(n: nat): (r: nat)
    ensures r >= 1
  {
    if n == 0 then 1 else 2 * Pow2(n - 1)
  }

  /** The masks the enumeration appends for a current prefix `p` and `n` more
      positions: `p` extended by every sequence of `n` booleans, `false` branch first. */
  function Masks(p: seq<bool>, n: nat): (r: seq<seq<bool>>)
    ensures |r| == Pow2(n)
    ensures forall i :: 0 <= i < |r| ==> |r[i]| == |p| + n && r[i][..|p|] == p
    decreases n
  {
    if n == 0 then [p]
    else
      var f, t := Masks(p + [false], n - 1), Masks(p + [true], n - 1);
      assert forall i :: 0 <= i < |f| ==> f[i][..|p|] == f[i][..|p| + 1][..|p|];
      assert forall i :: 0 <= i < |t| ==> t[i][..|p|] == t[i][..|p| + 1][..|p|];
      f + t
  }

  /** The mutable state of the enumeration: the mask being built and the masks
      collected so far. */
  class Generator {
    var current: seq<bool>
    var acc: seq<seq<bool>>

    constructor()
      ensures current == [] && acc == []
    {
      current := [];
      acc := [];
    }

    /** Appends every extension of `current` by `toAdd` booleans to `acc`, pushing a
        choice before each recursive call and popping it after, so `current` comes back
        unchanged. */
    method Generate(toAdd: nat)
      modifies this
      ensures current == old(current)
      ensures acc == old(acc) + Masks(old(current), toAdd)
      decreases toAdd
    {
      if toAdd == 0 {
        acc := acc + [current];
      } else {
        ghost var start, before := current, acc;
        current := current + [false];
        Generate(toAdd - 1);
        current := current[..|current| - 1];
        assert current == start;
        current := current + [true];
        Generate(toAdd - 1);
        current := current[..|current| - 1];
        assert current == start;
        assert acc == before + (Masks(start + [false], toAdd - 1) + Masks(start + [true], toAdd - 1));
      }
    }
  }

  /** `a` comes strictly before `b` in lexicographic order with `false < true`. */
  predicate Before(a: seq<bool>, b: seq<bool>)
  {
    |a| == |b| && exists k :: 0 <= k < |a| && a[..k] == b[..k] && !a[k] && b[k]
  }

  /** Every mask comes strictly before the ones after it, so none repeats. */
  predicate Increasing(r: seq<seq<bool>>)
  {
    forall i, j :: 0 <= i < j < |r| ==> Before(r[i], r[j]) && r[i] != r[j]
  }

  /** The masks come in strictly increasing lexicographic order, `false` before `true`,
      so no mask is produced twice. */
  lemma {:induction false} MasksOrdered(p: seq<bool>, n: nat)
    ensures Increasing(Masks(p, n))
    decreases n
  {
    var r := Masks(p, n);
    if n > 0 {
      var f, t := Masks(p + [false], n - 1), Masks(p + [true], n - 1);
      MasksOrdered(p + [false], n - 1);
      MasksOrdered(p + [true], n - 1);
      forall i, j | 0 <= i < j < |r|
        ensures Before(r[i], r[j]) && r[i] != r[j]
      {
        if j < |f| {
          assert r[i] == f[i] && r[j] == f[j];
          assert Before(f[i], f[j]);
        } else if i >= |f| {
          assert r[i] == t[i - |f|] && r[j] == t[j - |f|];
          assert Before(t[i - |f|], t[j - |f|]);
        } else {
          var a, b := f[i], t[j - |f|];
          assert r[i] == a && r[j] == b;
          var k := |p|;
          assert a[..k + 1] == p + [false] && b[..k + 1] == p + [true];
          assert a[..k] == a[..k + 1][..k] && b[..k] == b[..k + 1][..k];
          assert (p + [false])[..k] == p && (p + [true])[..k] == p;
          assert a[k] == a[..k + 1][k] && b[k] == b[..k + 1][k];
          assert a[..k] == b[..k] && !a[k] && b[k];
          assert Before(a, b);
          assert a != b by { assert a[k] != b[k]; }
        }
      }
    }
  }

  /** Every way of extending `p` by `n` booleans is among the masks. */
  lemma {:induction false} MasksComplete(p: seq<bool>, n: nat, b: seq<bool>)
    requires |b| == n
    ensures p + b in Masks(p, n)
    decreases n
  {
    if n == 0 {
      assert p + b == p;
    } else {
      var rest := b[1..];
      MasksComplete(p + [b[0]], n - 1, rest);
      assert b == [b[0]] + rest;
      assert p + [b[0]] + rest == p + b;
      var f, t := Masks(p + [false], n - 1), Masks(p + [true], n - 1);
      assert Masks(p, n) == f + t;
      if b[0] {
        assert p + b in t;
      } else {
        assert p + b in f;
      }
    }
  }

  /** The total size of the containers a mask chooses. */
  function Selected(containers: seq<nat>, mask: seq<bool>): (s: nat)
    requires |mask| <= |containers|
  {
    if mask == [] then 0
    else
      var k := |mask| - 1;
      Selected(containers, mask[..k]) + if mask[k] then containers[k] else 0
  }

  /** How many of `masks` choose containers holding exactly `liters`. */
  function CountMatching(containers: seq<nat>, liters: int, masks: seq<seq<bool>>): (r: nat)
    requires forall i :: 0 <= i < |masks| ==> |masks[i]| == |containers|
    ensures r <= |masks|
  {
    if masks == [] then 0
    else
      CountMatching(containers, liters, masks[1..]) + if Selected(containers, masks[0]) == liters then 1 else 0
  }

  lemma {:induction false} CountAppend(containers: seq<nat>, liters: int, a: seq<seq<bool>>, b: seq<seq<bool>>)
    requires forall i :: 0 <= i < |a| ==> |a[i]| == |containers|
    requires forall i :: 0 <= i < |b| ==> |b[i]| == |containers|
    ensures CountMatching(containers, liters, a + b) ==
      CountMatching(containers, liters, a) + CountMatching(containers, liters, b)
  {
    if a == [] {
      assert a + b == b;
    } else {
      assert (a + b)[1..] == a[1..] + b;
      CountAppend(containers, liters, a[1..], b);
    }
  }

  /** The number of subsets of `containers`, told apart by position, holding exactly
      `liters`: each container is either left out or used. */
  function Ways(containers: seq<nat>, liters: int): (r: nat)
  {
    if containers == [] then (if liters == 0 then 1 else 0)
    else Ways(containers[1..], liters) + Ways(containers[1..], liters - containers[0])
  }

  /** Counting the masks that extend `p` is counting the subsets of the remaining
      containers that hold what `p` leaves over. */
  lemma {:induction false} CountMasks(containers: seq<nat>, liters: int, p: seq<bool>, n: nat)
    requires |p| + n == |containers|
    ensures CountMatching(containers, liters, Masks(p, n)) ==
      Ways(containers[|p|..], liters - Selected(containers, p))
    decreases n, 1
  {
    var k := |p|;
    if n == 0 {
      var m := Masks(p, 0);
      assert containers[k..] == [] && m == [p] && m[1..] == [];
      assert CountMatching(containers, liters, m) == if Selected(containers, p) == liters then 1 else 0;
    } else {
      var f, t := Masks(p + [false], n - 1), Masks(p + [true], n - 1);
      assert Masks(p, n) == f + t;
      CountAppend(containers, liters, f, t);
      CountBranch(containers, liters, p, false, n);
      CountBranch(containers, liters, p, true, n);
      WaysStep(containers, k, liters - Selected(containers, p));
    }
  }

  /** The masks below one choice for container `|p|` count the ways of the containers
      after it, with that choice's size taken off. */
  lemma {:induction false} CountBranch(containers: seq<nat>, liters: int, p: seq<bool>, b: bool, n: nat)
    requires |p| + n == |containers| && n >= 1
    ensures CountMatching(containers, liters, Masks(p + [b], n - 1)) ==
      Ways(containers[|p| + 1..], liters - Selected(containers, p) - if b then containers[|p|] else 0)
    decreases n, 0
  {
    var q := p + [b];
    assert |q| == |p| + 1;
    CountMasks(containers, liters, q, n - 1);
    SelectedExtend(containers, p, b);
  }

  /** The containers from `k` on either skip container `k` or use it. */
  lemma WaysStep(containers: seq<nat>, k: nat, left: int)
    requires k < |containers|
    ensures Ways(containers[k..], left) ==
      Ways(containers[k + 1..], left) + Ways(containers[k + 1..], left - containers[k])
  {
    assert containers[k..][1..] == containers[k + 1..];
  }

  /** Choosing one more container adds its size; leaving it out adds nothing. */
  lemma SelectedExtend(containers: seq<nat>, p: seq<bool>, b: bool)
    requires |p| < |containers|
    ensures Selected(containers, p + [b]) == Selected(containers, p) + if b then containers[|p|] else 0
  {
    assert (p + [b])[..|p|] == p;
  }

  /** The number of ways to store `liters` with the containers, by enumerating every
      mask and counting the matching ones. */
  method Solve1(containers: seq<nat>, liters: nat) returns (r: nat)
    ensures r == Ways(containers, liters)
    ensures r <= Pow2(|containers|)
  {
    var generator := new Generator();
    generator.Generate(|containers|);
    assert generator.acc == Masks([], |containers|);
    r := CountMatching(containers, liters, generator.acc);
    CountMasks(containers, liters, [], |containers|);
    assert containers[0..] == containers;
  }

  /** Ways for a single container: none of it, or all of it. */
  lemma WaysOne(cs: seq<nat>, liters: int)
    requires |cs| == 1
    ensures Ways(cs, liters) == (if liters == 0 then 1 else 0) + (if liters == cs[0] then 1 else 0)
  {
    assert cs[1..] == [];
  }

  /** Ways for the last two containers of the sample, two of size 5. */
  lemma WaysFives(cs: seq<nat>, liters: int)
    requires cs == [5, 5]
    ensures Ways(cs, liters) == if liters == 0 || liters == 10 then 1 else if liters == 5 then 2 else 0
  {
    WaysOne(cs[1..], liters);
    WaysOne(cs[1..], liters - 5);
  }

  /** The containers 20, 15, 10, 5 and 5 store 25 liters in four ways: 15 and 10, 20 and
      either 5, and 15 with both 5s. */
  lemma Sample(cs: seq<nat>)
    requires cs == [20, 15, 10, 5, 5]
    ensures Ways(cs, 25) == 4
  {
    var fifteens, tens, fives := cs[1..], cs[2..], cs[3..];
    assert fives == [5, 5] && tens[1..] == fives && fifteens[1..] == tens;
    assert tens[0] == 10 && fifteens[0] == 15 && cs[0] == 20;
    forall t: int ensures Ways(tens, t) == Ways(fives, t) + Ways(fives, t - 10) {
    }
    WaysFives(fives, 25);
    WaysFives(fives, 15);
    WaysFives(fives, 10);
    WaysFives(fives, 0);
    WaysFives(fives, 5);
    WaysFives(fives, -5);
    WaysFives(fives, -10);
    WaysFives(fives, -20);
    assert Ways(tens, 25) == 0 && Ways(tens, 10) == 2 && Ways(tens, 5) == 2 && Ways(tens, -10) == 0;
    assert Ways(fifteens, 25) == Ways(tens, 25) + Ways(tens, 10);
    assert Ways(fifteens, 5) == Ways(tens, 5) + Ways(tens, -10);
  }
}
