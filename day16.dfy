/** Aunt Sue: the ticker tape lists ten compounds with their amounts, and the Sue who
    sent the gift is the first one whose remembered compounds all agree with it. A
    compound she does not remember never rules her out. */
module Day16 {
  import opened Common

  /** One aunt: her number and the compounds remembered about her. */
  datatype Sue = Sue(number: nat, properties: map<string, nat>)

  /** The analysis of the gift: ten compounds and their amounts. */
  const Tape: map<string, nat> := map[
    "children" := 3, "cats" := 7, "samoyeds" := 2, "pomeranians" := 3, "akitas" := 0,
    "vizslas" := 0, "goldfish" := 5, "trees" := 3, "cars" := 2, "perfumes" := 1
  ]

  /** Every tape compound is either unknown for this Sue or has exactly the tape value. */
  predicate Matches(s: Sue)
  {
    forall p :: p in Tape ==> p !in s.properties || s.properties[p] == Tape[p]
  }

  /** The number of the first matching Sue, in input order; `None` where the source
      would panic on an empty search. */
  function Solve1(sues: seq<Sue>): (r: Option<nat>)
    ensures r.None? <==> forall i :: 0 <= i < |sues| ==> !Matches(sues[i])
    ensures r.Some? ==> exists i :: 0 <= i < |sues| && Matches(sues[i]) && sues[i].number == r.value &&
                                   (forall j :: 0 <= j < i ==> !Matches(sues[j]))
  {
    if sues == [] then None
    else if Matches(sues[0]) then
      Some(sues[0].number)
    else
      var r := Solve1(sues[1..]);
      assert forall i :: 1 <= i < |sues| ==> sues[i] == sues[1..][i - 1];
      if r.Some? then
        var k :| 0 <= k < |sues[1..]| && Matches(sues[1..][k]) && sues[1..][k].number == r.value &&
          forall j :: 0 <= j < k ==> !Matches(sues[1..][j]);
        assert Matches(sues[k + 1]) && sues[k + 1].number == r.value;
        assert forall j :: 0 <= j < k + 1 ==> !Matches(sues[j]);
        r
      else r
  }

  /** Forgetting a compound never rules a Sue out. */
  lemma ForgetKeepsMatch(s: Sue, p: string)
    requires Matches(s)
    ensures Matches(Sue(s.number, s.properties - {p}))
  {
  }

  /** A compound the tape does not list has no bearing on the match. */
  lemma OffTapeIrrelevant(s: Sue, p: string, v: nat)
    requires p !in Tape
    ensures Matches(Sue(s.number, s.properties[p := v])) <==> Matches(s)
  {
    var t := Sue(s.number, s.properties[p := v]);
    forall q | q in Tape
      ensures (q !in t.properties || t.properties[q] == Tape[q]) <==> (q !in s.properties || s.properties[q] == Tape[q])
    {
      assert q != p;
    }
  }

  /** A Sue with a remembered amount that differs from the tape is ruled out. */
  lemma Mismatch(s: Sue, p: string)
    requires p in Tape && p in s.properties && s.properties[p] != Tape[p]
    ensures !Matches(s)
  {
  }

  /** A Sue who remembers nothing matches, and a first Sue who matches is the answer
      whatever follows her. */
  lemma FirstWins(s: Sue, rest: seq<Sue>)
    requires Matches(s)
    ensures Solve1([s] + rest) == Some(s.number)
  {
  }

  /** Sue 1 with 8 cats is ruled out, Sue 2 with 7 cats and 3 trees is not: the answer
      is 2. */
  lemma Sample(sues: seq<Sue>)
    requires sues == [Sue(1, map["cats" := 8]), Sue(2, map["cats" := 7, "trees" := 3, "cars" := 2])]
    ensures Solve1(sues) == Some(2)
  {
    Mismatch(sues[0], "cats");
    assert sues[1..] == [sues[1]];
    assert Matches(sues[1]);
  }
}
