/** Balancing the sleigh: split the packages into groups of equal weight, and among the
    smallest first groups pick the one whose quantum entanglement (product of weights)
    is least. A group is a selection of distinct package positions, in order, as the
    source's k-permutations of the package list. */
module Day24 {
  import opened Common
  import opened Arrangements

  /** Every position of `q` is below `n`. */
  predicate InRange(n: nat, q: seq<nat>)
  {
    forall k :: 0 <= k < |q| ==> q[k] < n
  }

  /** Distinct positions below `n`. */
  predicate IsSelection(n: nat, q: seq<nat>)
  {
    Distinct(q) && InRange(n, q)
  }

  /** Every `[j] + p` with `j` from `j0` up to `n` not already in `p`. */
  function ExtendOne(n: nat, p: seq<nat>, j0: nat): (r: seq<seq<nat>>)
    requires j0 <= n
    ensures forall q :: q in r <==> |q| > 0 && q[1..] == p && j0 <= q[0] < n && q[0] !in p
    decreases n - j0
  {
    if j0 == n then []
    else
      var rest := ExtendOne(n, p, j0 + 1);
      var here: seq<seq<nat>> := if j0 in p then [] else [[j0] + p];
      assert forall q :: q in here <==> |q| > 0 && q[1..] == p && q[0] == j0 && j0 !in p by {
        forall q ensures q in here <==> |q| > 0 && q[1..] == p && q[0] == j0 && j0 !in p {
          if |q| > 0 && q[1..] == p && q[0] == j0 {
            assert q == [j0] + p;
          }
        }
      }
      here + rest
  }

  /** Every selection of `ps` extended at the front by one new position. */
  function ExtendAll(n: nat, ps: seq<seq<nat>>): (r: seq<seq<nat>>)
    ensures forall q :: q in r <==> |q| > 0 && q[1..] in ps && q[0] < n && q[0] !in q[1..]
  {
    if ps == [] then []
    else
      var rest := ExtendAll(n, ps[1..]);
      assert forall p :: p in ps <==> p == ps[0] || p in ps[1..];
      ExtendOne(n, ps[0], 0) + rest
  }

  lemma DistinctCons(q: seq<nat>)
    requires |q| > 0
    ensures Distinct(q) <==> Distinct(q[1..]) && q[0] !in q[1..]
  {
    if Distinct(q[1..]) && q[0] !in q[1..] {
      forall i, j | 0 <= i < j < |q| ensures q[i] != q[j] {
        if i > 0 {
          assert q[i] == q[1..][i - 1] && q[j] == q[1..][j - 1];
        } else {
          assert q[j] == q[1..][j - 1];
        }
      }
    }
    if Distinct(q) {
      forall i, j | 0 <= i < j < |q[1..]| ensures q[1..][i] != q[1..][j] {
        assert q[1..][i] == q[i + 1] && q[1..][j] == q[j + 1];
      }
    }
  }

  /** All ordered selections of `i` distinct positions below `n`. */
  function Selections(n: nat, i: nat): (r: seq<seq<nat>>)
    ensures forall q :: q in r <==> |q| == i && IsSelection(n, q)
  {
    if i == 0 then [[]]
    else
      var prev := Selections(n, i - 1);
      var r := ExtendAll(n, prev);
      assert forall q :: q in r <==> |q| == i && IsSelection(n, q) by {
        forall q ensures q in r <==> |q| == i && IsSelection(n, q) {
          if |q| > 0 {
            DistinctCons(q);
            assert forall k :: 0 <= k < |q[1..]| ==> q[1..][k] == q[k + 1];
          }
        }
      }
      r
  }

  /** The weight of a group: the sum of the weights at its positions. */
  function GroupSum(packages: seq<nat>, g: seq<nat>): nat
    requires InRange(|packages|, g)
  {
    if g == [] then 0 else packages[g[0]] + GroupSum(packages, g[1..])
  }

  /** The quantum entanglement of a group: the product of the weights at its positions. */
  function Entanglement(packages: seq<nat>, g: seq<nat>): nat
    requires InRange(|packages|, g)
  {
    if g == [] then 1 else packages[g[0]] * Entanglement(packages, g[1..])
  }

  /** Distinct positions whose weights add up to `target`. */
  predicate ValidGroup(packages: seq<nat>, target: nat, g: seq<nat>)
  {
    IsSelection(|packages|, g) && GroupSum(packages, g) == target
  }

  /** The selections of `gs` that weigh exactly `target`. */
  function Matching(packages: seq<nat>, target: nat, gs: seq<seq<nat>>): (r: seq<seq<nat>>)
    requires forall g :: g in gs ==> IsSelection(|packages|, g)
    ensures forall g :: g in r <==> g in gs && ValidGroup(packages, target, g)
  {
    if gs == [] then []
    else
      var rest := Matching(packages, target, gs[1..]);
      assert forall g :: g in gs <==> g == gs[0] || g in gs[1..];
      assert gs[0] in gs;
      assert IsSelection(|packages|, gs[0]);
      assert InRange(|packages|, gs[0]);
      (if GroupSum(packages, gs[0]) == target then [gs[0]] else []) + rest
  }

  /** A selection of distinct positions below `n` has at most `n` of them. */
  lemma SelectionLength(n: nat, q: seq<nat>)
    requires IsSelection(n, q)
    ensures |q| <= n
  {
    var elems := set k | 0 <= k < |q| :: q[k];
    DistinctElems(q);
    RangeCard(n);
    SubsetCard(elems, Below(n));
  }

  lemma {:induction false} DistinctElems(q: seq<nat>)
    requires Distinct(q)
    ensures |set k | 0 <= k < |q| :: q[k]| == |q|
  {
    if q != [] {
      DistinctCons(q);
      DistinctElems(q[1..]);
      var tail := set k | 0 <= k < |q[1..]| :: q[1..][k];
      assert (set k | 0 <= k < |q| :: q[k]) == {q[0]} + tail by {
        forall x ensures x in (set k | 0 <= k < |q| :: q[k]) <==> x in {q[0]} + tail {
          if x in (set k | 0 <= k < |q| :: q[k]) {
            var k :| 0 <= k < |q| && q[k] == x;
            if k > 0 {
              assert q[1..][k - 1] == x;
            }
          }
          if x in tail {
            var k :| 0 <= k < |q[1..]| && q[1..][k] == x;
            assert q[k + 1] == x;
          }
        }
      }
      assert q[0] !in tail;
    }
  }

  /** The positions below `n`. */
  function Below(n: nat): (r: set<nat>)
    ensures forall x: nat :: x in r <==> x < n
  {
    if n == 0 then {} else Below(n - 1) + {n - 1}
  }

  lemma {:induction false} RangeCard(n: nat)
    ensures |Below(n)| == n
  {
    if n > 0 {
      RangeCard(n - 1);
    }
  }

  /** The search over growing sizes from `i`: the first size for which some group weighs
      `target`, with every group of that size; empty if no size from `i` on has one. */
  function SmallestFrom(packages: seq<nat>, target: nat, i: nat): (r: seq<seq<nat>>)
    ensures forall g :: g in r ==> ValidGroup(packages, target, g) && |g| >= i
    ensures forall g, h :: g in r && ValidGroup(packages, target, h) && |h| >= i ==> |g| <= |h|
    ensures forall g, h :: g in r && ValidGroup(packages, target, h) && |h| == |g| ==> h in r
    ensures r == [] ==> forall h :: |h| >= i ==> !ValidGroup(packages, target, h)
    decreases |packages| + 1 - i
  {
    if i > |packages| then
      assert forall h :: |h| >= i ==> !ValidGroup(packages, target, h) by {
        forall h | ValidGroup(packages, target, h) ensures |h| < i {
          SelectionLength(|packages|, h);
        }
      }
      []
    else
      var gs := Matching(packages, target, Selections(|packages|, i));
      if gs != [] then gs else SmallestFrom(packages, target, i + 1)
  }

  /** The weight each group must have: the total integer-divided by the number of groups. */
  function Target(packages: seq<nat>, nrGroups: nat): (t: nat)
    requires nrGroups > 0
    ensures t * nrGroups <= Sum(packages) < (t + 1) * nrGroups
  {
    SumNat(packages);
    Sum(packages) / nrGroups
  }

  lemma {:induction false} SumNat(s: seq<nat>)
    ensures Sum(s) >= 0
  {
    if s != [] {
      SumNat(s[1..]);
    }
  }

  function Entanglements(packages: seq<nat>, groups: seq<seq<nat>>): (es: seq<int>)
    requires forall k :: 0 <= k < |groups| ==> InRange(|packages|, groups[k])
    ensures |es| == |groups|
    ensures forall k :: 0 <= k < |groups| ==> es[k] == Entanglement(packages, groups[k])
  {
    seq(|groups|, k requires 0 <= k < |groups| => Entanglement(packages, groups[k]))
  }

  /** The least entanglement among the smallest first groups; `None` when no group of
      positions weighs the target. */
  function Solve(packages: seq<nat>, nrGroups: nat): (r: Option<nat>)
    requires nrGroups > 0
    ensures r.Some? ==> exists g :: Least(packages, Target(packages, nrGroups), g, r.value)
    ensures r.None? ==> forall h :: |h| >= 1 ==> !ValidGroup(packages, Target(packages, nrGroups), h)
  {
    var target := Target(packages, nrGroups);
    var groups := SmallestFrom(packages, target, 1);
    if groups == [] then None
    else
      assert forall k :: 0 <= k < |groups| ==> InRange(|packages|, groups[k]) by {
        forall k | 0 <= k < |groups| ensures InRange(|packages|, groups[k]) {
          assert groups[k] in groups;
          assert IsSelection(|packages|, groups[k]);
        }
      }
      var es := Entanglements(packages, groups);
      MinimalLeast(packages, target, groups, es);
      Some(MinOf(es))
  }

  /** `g` is a group of the fewest packages weighing `target`, and `e` is its
      entanglement, the least of any group of that size. */
  ghost predicate Least(packages: seq<nat>, target: nat, g: seq<nat>, e: nat)
  {
    ValidGroup(packages, target, g) && |g| >= 1 && Entanglement(packages, g) == e &&
    (forall h :: ValidGroup(packages, target, h) && |h| >= 1 ==> |g| <= |h|) &&
    (forall h :: ValidGroup(packages, target, h) && |h| == |g| ==> e <= Entanglement(packages, h))
  }

  lemma MinimalLeast(packages: seq<nat>, target: nat, groups: seq<seq<nat>>, es: seq<int>)
    requires groups == SmallestFrom(packages, target, 1) && groups != []
    requires es == Entanglements(packages, groups)
    ensures MinOf(es) >= 0 && exists g :: Least(packages, target, g, MinOf(es))
  {
    var m := MinOf(es);
    var k :| 0 <= k < |es| && es[k] == m;
    forall j | 0 <= j < |groups| ensures InRange(|packages|, groups[j]) {
      assert groups[j] in groups;
      assert IsSelection(|packages|, groups[j]);
    }
    LeastAt(packages, target, groups, es, k);
  }

  /** The group at the position of the least entanglement, among groups that are all
      the smallest and all of their size, is a least group. */
  lemma LeastAt(packages: seq<nat>, target: nat, groups: seq<seq<nat>>, es: seq<int>, k: nat)
    requires forall g :: g in groups ==> ValidGroup(packages, target, g) && |g| >= 1
    requires forall g, h :: g in groups && ValidGroup(packages, target, h) && |h| >= 1 ==> |g| <= |h|
    requires forall g, h :: g in groups && ValidGroup(packages, target, h) && |h| == |g| ==> h in groups
    requires forall j :: 0 <= j < |groups| ==> InRange(|packages|, groups[j])
    requires |es| == |groups| && forall j :: 0 <= j < |groups| ==> es[j] == Entanglement(packages, groups[j])
    requires k < |es| && forall x :: x in es ==> es[k] <= x
    ensures es[k] >= 0 && Least(packages, target, groups[k], es[k])
  {
    var g := groups[k];
    assert g in groups;
    forall h | ValidGroup(packages, target, h) && |h| == |g| ensures es[k] <= Entanglement(packages, h) {
      assert h in groups;
      var j :| 0 <= j < |groups| && groups[j] == h;
      assert es[j] in es;
    }
  }

  function Solve1(packages: seq<nat>): Option<nat>
  {
    Solve(packages, 3)
  }

  function Solve2(packages: seq<nat>): Option<nat>
  {
    Solve(packages, 4)
  }

  function Sample(): seq<nat>
  {
    [1, 2, 3, 4, 5, 7, 8, 9, 10, 11]
  }

  /** Of the sample's weights, only 9 and 11 make 20 as a pair, and 4 and 11 is the
      pair weighing 15 with the least product; no single weight is 15 or 20. */
  lemma SamplePairs(p: seq<nat>)
    requires p == Sample()
    ensures forall k :: 0 <= k < |p| ==> p[k] != 15 && p[k] != 20
    ensures forall a: nat, b: nat :: a < |p| && b < |p| && a != b && p[a] + p[b] == 20 ==> p[a] * p[b] >= 99
    ensures forall a: nat, b: nat :: a < |p| && b < |p| && a != b && p[a] + p[b] == 15 ==> p[a] * p[b] >= 44
  {
    forall a: nat, b: nat | a < |p| && b < |p| && a != b && p[a] + p[b] == 20 ensures p[a] * p[b] >= 99 {
      Pair20(p, a, b);
    }
    forall a: nat, b: nat | a < |p| && b < |p| && a != b && p[a] + p[b] == 15 ensures p[a] * p[b] >= 44 {
      Pair15(p, a, b);
    }
  }

  lemma Pair20(p: seq<nat>, a: nat, b: nat)
    requires p == Sample() && a < 10 && b < 10 && a != b && p[a] + p[b] == 20
    ensures p[a] * p[b] >= 99
  {
  }

  lemma Pair15(p: seq<nat>, a: nat, b: nat)
    requires p == Sample() && a < 10 && b < 10 && a != b && p[a] + p[b] == 15
    ensures p[a] * p[b] >= 44
  {
  }

  lemma SampleSum(p: seq<nat>)
    requires p == Sample()
    ensures Sum(p) == 60
  {
    assert p[1..][1..][1..][1..][1..][1..][1..][1..][1..][1..] == [];
  }

  /** The weight and entanglement of a group of two. */
  lemma PairGroup(p: seq<nat>, g: seq<nat>)
    requires |g| == 2 && InRange(|p|, g)
    ensures GroupSum(p, g) == p[g[0]] + p[g[1]]
    ensures Entanglement(p, g) == p[g[0]] * p[g[1]]
  {
    var t := g[1..];
    assert t[0] == g[1] && t[1..] == [];
    assert GroupSum(p, t) == p[g[1]] + GroupSum(p, t[1..]);
    assert Entanglement(p, t) == p[g[1]] * Entanglement(p, t[1..]);
  }

  /** When no single package weighs `target`, a group of at most two packages weighing
      `target` has exactly two, and its entanglement is the product of their weights. */
  lemma SampleGroup(p: seq<nat>, target: nat, g: seq<nat>)
    requires forall k :: 0 <= k < |p| ==> p[k] != target
    requires ValidGroup(p, target, g) && 1 <= |g| <= 2
    ensures |g| == 2 && g[0] != g[1] && p[g[0]] + p[g[1]] == target
    ensures Entanglement(p, g) == p[g[0]] * p[g[1]]
  {
    SingleGroup(p, g);
    PairGroup(p, g);
  }

  /** A group of one package weighs that package. */
  lemma SingleGroup(p: seq<nat>, g: seq<nat>)
    requires |g| >= 1 && InRange(|p|, g)
    ensures |g| == 1 ==> GroupSum(p, g) == p[g[0]]
  {
    if |g| == 1 {
      assert g[1..] == [];
    }
  }

  /** When no single package weighs the target, a group of two with entanglement `e`
      that no other pair of the right weight undercuts makes `e` the answer. */
  lemma PairSolve(p: seq<nat>, nrGroups: nat, best: seq<nat>, e: nat)
    requires nrGroups > 0 && forall k :: 0 <= k < |p| ==> p[k] != Target(p, nrGroups)
    requires ValidGroup(p, Target(p, nrGroups), best) && |best| == 2 && Entanglement(p, best) == e
    requires forall a: nat, b: nat :: a < |p| && b < |p| && a != b && p[a] + p[b] == Target(p, nrGroups) ==> p[a] * p[b] >= e
    ensures Solve(p, nrGroups) == Some(e)
  {
    var target := Target(p, nrGroups);
    var r := Solve(p, nrGroups);
    assert r.Some?;
    var g :| Least(p, target, g, r.value);
    SampleGroup(p, target, g);
  }

  /** With three groups the least entanglement of the sample is 9 * 11 = 99. */
  lemma SampleThreeGroups(p: seq<nat>)
    requires p == Sample()
    ensures Solve1(p) == Some(99)
  {
    SampleSum(p);
    SamplePairs(p);
    var best: seq<nat> := [7, 9];
    assert |p| == 10 && InRange(|p|, best) && Distinct(best);
    PairGroup(p, best);
    PairSolve(p, 3, best, 99);
  }

  /** With four groups the least entanglement of the sample is 4 * 11 = 44. */
  lemma SampleFourGroups(p: seq<nat>)
    requires p == Sample()
    ensures Solve2(p) == Some(44)
  {
    SampleSum(p);
    SamplePairs(p);
    var best: seq<nat> := [3, 9];
    assert |p| == 10 && InRange(|p|, best) && Distinct(best);
    PairGroup(p, best);
    PairSolve(p, 4, best, 44);
  }
}
