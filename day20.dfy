/** Infinite Elves and Infinite Houses: elf `e` brings `10 e` presents to every house
    whose number is a multiple of `e`. A sieve over the first million houses adds up the
    presents, and the answer is the first house that gets at least the target. */
module Day20 {
  import opened Common

  /** How many houses the sieve covers. */
  const NrHouses: nat := 1_000_000

  /** The sum of the divisors of `h` that are at most `e`. */
  function DivisorSum(h: nat, e: nat): (r: nat)
  {
    if e == 0 then 0 else DivisorSum(h, e - 1) + if h % e == 0 then e else 0
  }

  /** What house `h` receives: ten times the sum of its divisors. House 0 is never
      visited and stays empty. */
  function Presents(h: nat): (r: nat)
    ensures h >= 1 ==> r >= 10 * h
  {
    if h == 0 then 0 else 10 * DivisorSum(h, h)
  }

  /** What house `j` has received once the elves up to `e` have been. */
  function Delivered(j: nat, e: nat): nat
  {
    if j == 0 then 0 else 10 * DivisorSum(j, e)
  }

  /** No number above `h` divides `h`, so later elves skip house `h`. */
  lemma {:induction false} NoLargerDivisor(h: nat, e: nat)
    requires 1 <= h <= e
    ensures DivisorSum(h, e) == DivisorSum(h, h)
    decreases e
  {
    if e > h {
      NoLargerDivisor(h, e - 1);
      DivUnique(h, e, 0, h);
    }
  }

  /** A multiple `m` of `e` has no multiple of `e` strictly between it and `m + e`, and
      `m + e` is again one. */
  lemma NextMultiple(m: nat, e: nat, j: nat)
    requires e >= 1 && m % e == 0
    ensures (m + e) % e == 0
    ensures m < j < m + e ==> j % e != 0
  {
    DivUnique(m + e, e, m / e + 1, 0);
    if m < j < m + e {
      DivUnique(j, e, m / e, j - m);
    }
  }

  /** Elf `house` adds `10 house` to every house numbered a positive multiple of
      `house`, and to no other. */
  method Visit(houses: array<nat>, house: nat)
    requires house >= 1
    modifies houses
    ensures forall j :: 0 <= j < houses.Length ==>
      houses[j] == old(houses[j]) + if j > 0 && j % house == 0 then 10 * house else 0
  {
    var idx := house;
    DivUnique(house, house, 1, 0);
    while idx < houses.Length
      invariant idx >= house && idx % house == 0
      invariant forall j :: 0 <= j < houses.Length ==>
        houses[j] == old(houses[j]) + if 0 < j < idx && j % house == 0 then 10 * house else 0
      decreases houses.Length - idx
    {
      forall j | idx < j < idx + house
        ensures j % house != 0
      {
        NextMultiple(idx, house, j);
      }
      NextMultiple(idx, house, idx);
      houses[idx] := houses[idx] + house * 10;
      idx := idx + house;
    }
  }

  /** The presents of the first `n` houses, every elf below `n` having been. */
  method Sieve(n: nat) returns (houses: array<nat>)
    ensures houses.Length == n
    ensures forall h :: 0 <= h < n ==> houses[h] == Presents(h)
  {
    houses := new nat[n](_ => 0);
    var house := 1;
    while house < n
      invariant 1 <= house <= Max(n, 1)
      invariant forall j :: 0 <= j < n ==> houses[j] == Delivered(j, house - 1)
    {
      Visit(houses, house);
      house := house + 1;
    }
    forall h | 1 <= h < n
      ensures DivisorSum(h, house - 1) == DivisorSum(h, h)
    {
      NoLargerDivisor(h, house - 1);
    }
  }

  /** The first of the houses that receives at least `target` presents, if any. */
  method FirstReaching(houses: array<nat>, target: nat) returns (r: Option<nat>)
    ensures r.Some? ==> r.value < houses.Length && houses[r.value] >= target
    ensures r.Some? ==> forall k :: 0 <= k < r.value ==> houses[k] < target
    ensures r.None? ==> forall k :: 0 <= k < houses.Length ==> houses[k] < target
  {
    var i := 0;
    while i < houses.Length
      invariant i <= houses.Length
      invariant forall k :: 0 <= k < i ==> houses[k] < target
    {
      if houses[i] >= target {
        return Some(i);
      }
      i := i + 1;
    }
    return None;
  }

  /** The lowest house number, below a million, that gets at least `nrPresents`
      presents; `None` where the source panics because no house reaches it. A target up
      to ten times the last house number is always reached. */
  method Solve1(nrPresents: nat) returns (r: Option<nat>)
    ensures r.Some? ==> r.value < NrHouses && Presents(r.value) >= nrPresents
    ensures r.Some? ==> forall k :: 0 <= k < r.value ==> Presents(k) < nrPresents
    ensures r.None? <==> forall k :: 0 <= k < NrHouses ==> Presents(k) < nrPresents
    ensures nrPresents <= 10 * (NrHouses - 1) ==> r.Some?
  {
    var houses := Sieve(NrHouses);
    r := FirstReaching(houses, nrPresents);
    assert Presents(NrHouses - 1) >= 10 * (NrHouses - 1);
  }

  /** The first houses get 0, 10, 30, 40 and 70 presents. */
  lemma FirstHouses()
    ensures Presents(0) == 0 && Presents(1) == 10 && Presents(2) == 30
    ensures Presents(3) == 40 && Presents(4) == 70
  {
  }

  /** A target of 10 is first reached at house 1, and one of 70 at house 4. */
  lemma Samples(i: nat, j: nat)
    requires Presents(i) >= 10 && forall k :: 0 <= k < i ==> Presents(k) < 10
    requires Presents(j) >= 70 && forall k :: 0 <= k < j ==> Presents(k) < 70
    ensures i == 1 && j == 4
  {
    FirstHouses();
  }
}
