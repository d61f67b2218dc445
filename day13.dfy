/** Optimal seating around a circular table: each guest's happiness depends on their
    two neighbours, and the answer is the best total over all orderings of the guests. */
module Day13 {
  import opened Common
  import opened Arrangements

  type Person = string

  /** "gain n" or "lose n" happiness units. */
  datatype Change = Gain(n: nat) | Lose(n: nat)

  /** One parsed line: `person` would gain or lose units sitting next to `neighbour`. */
  datatype Relation = Relation(person: Person, change: Change, neighbour: Person)

  /** The signed value of a change. */
  function Units(c: Change): (u: int)
    ensures c.Gain? ==> u >= 0
    ensures c.Lose? ==> u <= 0
    ensures u == c.n || u == -(c.n as int)
  {
    match c
    case Gain(n) => n
    case Lose(n) => -(n as int)
  }

  /** The happiness table keyed by (person, neighbour); a later line overrides an earlier one. */
  function Relations(rs: seq<Relation>): (m: map<(Person, Person), int>)
    ensures forall a, b :: (a, b) in m <==> exists i :: 0 <= i < |rs| && rs[i].person == a && rs[i].neighbour == b
  {
    if rs == [] then map[]
    else
      var r := rs[|rs| - 1];
      var pre := rs[..|rs| - 1];
      assert forall i :: 0 <= i < |pre| ==> pre[i] == rs[i];
      Relations(pre)[(r.person, r.neighbour) := Units(r.change)]
  }

  /** The stored value is the signed change of the last line for that ordered pair. */
  lemma {:induction false} RelationsLastWins(rs: seq<Relation>, i: nat)
    requires i < |rs|
    requires forall j :: i < j < |rs| ==> (rs[j].person, rs[j].neighbour) != (rs[i].person, rs[i].neighbour)
    ensures Relations(rs)[(rs[i].person, rs[i].neighbour)] == Units(rs[i].change)
  {
    var pre := rs[..|rs| - 1];
    if i < |rs| - 1 {
      assert pre[i] == rs[i];
      assert forall j :: i < j < |pre| ==> pre[j] == rs[j];
      RelationsLastWins(pre, i);
    }
  }

  /** The guests, each once, in order of first mention as the person of a line. */
  function People(rs: seq<Relation>): (ps: seq<Person>)
    ensures Distinct(ps)
    ensures forall a :: a in ps <==> exists i :: 0 <= i < |rs| && rs[i].person == a
  {
    if rs == [] then []
    else
      var r := rs[|rs| - 1];
      var pre := rs[..|rs| - 1];
      assert forall i :: 0 <= i < |pre| ==> pre[i] == rs[i];
      var ps0 := People(pre);
      if r.person in ps0 then ps0 else ps0 + [r.person]
  }

  datatype Seating = Seating(people: seq<Person>, relations: map<(Person, Person), int>)

  /** The guests are exactly the first components of the table's keys. */
  function NewSeating(rs: seq<Relation>): (s: Seating)
    ensures Distinct(s.people)
    ensures forall a :: a in s.people <==> exists b :: (a, b) in s.relations
  {
    var s := Seating(People(rs), Relations(rs));
    assert forall a :: a in s.people ==> exists b :: (a, b) in s.relations by {
      forall a | a in s.people ensures exists b :: (a, b) in s.relations {
        var i :| 0 <= i < |rs| && rs[i].person == a;
        assert (a, rs[i].neighbour) in s.relations;
      }
    }
    s
  }

  /** Seat `i`'s left neighbour: the previous seat, wrapping from the first to the last. */
  function Left(n: nat, i: nat): (j: nat)
    requires i < n
    ensures j < n
    ensures (j + 1) % n == i
  {
    if i == 0 then DivUnique(n, n, 1, 0); n - 1
    else DivUnique(i, n, 0, i); i - 1
  }

  /** Seat `i`'s right neighbour: the next seat, wrapping from the last to the first. */
  function Right(n: nat, i: nat): (j: nat)
    requires i < n
    ensures j < n
    ensures j == (i + 1) % n
  {
    if i == n - 1 then DivUnique(n, n, 1, 0); 0
    else DivUnique(i + 1, n, 0, i + 1); i + 1
  }

  lemma LeftOfRight(n: nat, i: nat)
    requires i < n
    ensures Left(n, Right(n, i)) == i
  {
  }

  /** Every seat's happiness towards both neighbours is known. */
  predicate Seated(rel: map<(Person, Person), int>, p: seq<Person>)
  {
    forall i :: 0 <= i < |p| ==>
      (p[i], p[Left(|p|, i)]) in rel && (p[i], p[Right(|p|, i)]) in rel
  }

  function LeftUpTo(rel: map<(Person, Person), int>, p: seq<Person>, k: nat): int
    requires Seated(rel, p) && k <= |p|
  {
    if k == 0 then 0 else LeftUpTo(rel, p, k - 1) + rel[(p[k - 1], p[Left(|p|, k - 1)])]
  }

  function RightUpTo(rel: map<(Person, Person), int>, p: seq<Person>, k: nat): int
    requires Seated(rel, p) && k <= |p|
  {
    if k == 0 then 0 else RightUpTo(rel, p, k - 1) + rel[(p[k - 1], p[Right(|p|, k - 1)])]
  }

  /** The sum over seats of the happiness of each seat towards both neighbours. */
  function Score(rel: map<(Person, Person), int>, p: seq<Person>): int
    requires Seated(rel, p)
  {
    LeftUpTo(rel, p, |p|) + RightUpTo(rel, p, |p|)
  }

  /** Both directions of the couple formed by seat `k` and its right neighbour. */
  function Couple(rel: map<(Person, Person), int>, p: seq<Person>, k: nat): int
    requires Seated(rel, p) && k < |p|
  {
    LeftOfRight(|p|, k);
    rel[(p[k], p[Right(|p|, k)])] + rel[(p[Right(|p|, k)], p[k])]
  }

  function CouplesUpTo(rel: map<(Person, Person), int>, p: seq<Person>, k: nat): int
    requires Seated(rel, p) && k <= |p|
  {
    if k == 0 then 0 else CouplesUpTo(rel, p, k - 1) + Couple(rel, p, k - 1)
  }

  function BackUpTo(rel: map<(Person, Person), int>, p: seq<Person>, k: nat): int
    requires Seated(rel, p) && k <= |p|
  {
    if k == 0 then 0
    else
      LeftOfRight(|p|, k - 1);
      BackUpTo(rel, p, k - 1) + rel[(p[Right(|p|, k - 1)], p[k - 1])]
  }

  lemma {:induction false} CouplesSplit(rel: map<(Person, Person), int>, p: seq<Person>, k: nat)
    requires Seated(rel, p) && k <= |p|
    ensures CouplesUpTo(rel, p, k) == RightUpTo(rel, p, k) + BackUpTo(rel, p, k)
  {
    if k > 0 {
      CouplesSplit(rel, p, k - 1);
    }
  }

  lemma {:induction false} LeftIsBack(rel: map<(Person, Person), int>, p: seq<Person>, k: nat)
    requires Seated(rel, p) && 1 <= k <= |p|
    ensures LeftUpTo(rel, p, k) == rel[(p[0], p[Left(|p|, 0)])] + BackUpTo(rel, p, k - 1)
  {
    if k > 1 {
      LeftIsBack(rel, p, k - 1);
      assert Right(|p|, k - 2) == k - 1;
    }
  }

  /** The seat-by-seat score equals the sum, over every couple of neighbours, of
      what each feels for the other. */
  lemma ScoreByCouples(rel: map<(Person, Person), int>, p: seq<Person>)
    requires Seated(rel, p)
    ensures Score(rel, p) == CouplesUpTo(rel, p, |p|)
  {
    CouplesSplit(rel, p, |p|);
    if |p| > 0 {
      LeftIsBack(rel, p, |p|);
    }
  }

  /** Every two guests have a known relation; a lone guest needs one towards themself,
      being their own neighbour (the source panics otherwise). */
  predicate Complete(s: Seating)
  {
    forall a, b :: a in s.people && b in s.people && (a != b || |s.people| == 1) ==> (a, b) in s.relations
  }

  /** An arrangement seats every guest exactly once. */
  predicate IsArrangement(s: Seating, p: seq<Person>)
  {
    multiset(p) == multiset(s.people)
  }

  lemma ArrangementsSeated(s: Seating, p: seq<Person>)
    requires Distinct(s.people) && Complete(s) && IsArrangement(s, p)
    ensures Seated(s.relations, p)
  {
    PermutationOfDistinct(s.people, p);
  }

  lemma ArrangementsEnumerated(s: Seating)
    requires Distinct(s.people) && Complete(s)
    ensures forall k :: 0 <= k < |Permutations(s.people)| ==>
      IsArrangement(s, Permutations(s.people)[k]) && Seated(s.relations, Permutations(s.people)[k])
    ensures forall p :: IsArrangement(s, p) ==> p in Permutations(s.people)
  {
    var ps := Permutations(s.people);
    forall k | 0 <= k < |ps| ensures IsArrangement(s, ps[k]) && Seated(s.relations, ps[k]) {
      PermutationsExactly(s.people, ps[k]);
      ArrangementsSeated(s, ps[k]);
    }
    forall p | IsArrangement(s, p) ensures p in ps {
      PermutationsExactly(s.people, p);
    }
  }

  function Scores(s: Seating, ps: seq<seq<Person>>): (cs: seq<int>)
    requires forall k :: 0 <= k < |ps| ==> Seated(s.relations, ps[k])
    ensures |cs| == |ps|
    ensures forall k :: 0 <= k < |ps| ==> cs[k] == Score(s.relations, ps[k])
  {
    seq(|ps|, k requires 0 <= k < |ps| => Score(s.relations, ps[k]))
  }

  lemma ScoreBelowMax(s: Seating, ps: seq<seq<Person>>, cs: seq<int>, p: seq<Person>)
    requires forall k :: 0 <= k < |ps| ==> Seated(s.relations, ps[k])
    requires cs == Scores(s, ps) && p in ps && |cs| > 0
    ensures Seated(s.relations, p) && Score(s.relations, p) <= MaxOf(cs)
  {
    var k :| 0 <= k < |ps| && ps[k] == p;
    assert cs[k] in cs;
  }

  /** The best total happiness over all arrangements of the guests. */
  function Best(s: Seating): (r: int)
    requires Distinct(s.people) && Complete(s)
    ensures exists p :: IsArrangement(s, p) && Seated(s.relations, p) && r == Score(s.relations, p)
    ensures forall p :: IsArrangement(s, p) && Seated(s.relations, p) ==> Score(s.relations, p) <= r
  {
    var ps := Permutations(s.people);
    ArrangementsEnumerated(s);
    var cs := Scores(s, ps);
    PermutationsExactly(s.people, s.people);
    var r := MaxOf(cs);
    assert exists p :: IsArrangement(s, p) && Seated(s.relations, p) && r == Score(s.relations, p) by {
      var k :| 0 <= k < |cs| && cs[k] == r;
      assert IsArrangement(s, ps[k]) && Seated(s.relations, ps[k]);
    }
    forall p | IsArrangement(s, p) && Seated(s.relations, p) ensures Score(s.relations, p) <= r {
      ScoreBelowMax(s, ps, cs, p);
    }
    r
  }

  /** The answer for a list of relations: the best arrangement of all the guests. */
  function Solve1(rs: seq<Relation>): (r: int)
    requires Complete(NewSeating(rs))
    ensures exists p ::
      IsArrangement(NewSeating(rs), p) && Seated(NewSeating(rs).relations, p) && r == Score(NewSeating(rs).relations, p)
    ensures forall p :: IsArrangement(NewSeating(rs), p) && Seated(NewSeating(rs).relations, p) ==>
      Score(NewSeating(rs).relations, p) <= r
  {
    Best(NewSeating(rs))
  }
}
