/** Medicine for Rudolph: every replacement rule may rewrite any one occurrence of its
    left-hand side in the molecule, and the answer is how many distinct molecules one
    such rewrite can produce. */
module Day19 {
  import opened Common

  /** A replacement rule `from => to`. */
  datatype Rule = Rule(from: string, to: string)

  /** `from` occurs in `m` at position `p`. */
  predicate OccursAt(m: string, from: string, p: nat)
  {
    p + |from| <= |m| && m[p..p + |from|] == from
  }

  /** The positions of `from` in `m` from `start` on, found left to right without
      overlap: after a match the search resumes at its end (one further on for an empty
      `from`, which matches at every position including the very end). */
  function Occurrences(m: string, from: string, start: nat): (r: seq<nat>)
    requires start <= |m| + 1
    ensures forall k :: 0 <= k < |r| ==> start <= r[k] && OccursAt(m, from, r[k])
    ensures forall p :: p in r ==> start <= p && OccursAt(m, from, p)
    decreases |m| + 1 - start
  {
    if start + |from| > |m| then []
    else if m[start..start + |from|] == from then
      [start] + Occurrences(m, from, start + Max(|from|, 1))
    else
      Occurrences(m, from, start + 1)
  }

  /** Consecutive entries of `r` lie at least `w` apart. */
  predicate Spaced(r: seq<nat>, w: nat)
  {
    forall k :: 0 <= k < |r| - 1 ==> r[k] + w <= r[k + 1]
  }

  /** The occurrences come in increasing order and never overlap. */
  lemma {:induction false} OccurrencesOrdered(m: string, from: string, start: nat)
    requires start <= |m| + 1
    ensures Spaced(Occurrences(m, from, start), Max(|from|, 1))
    decreases |m| + 1 - start
  {
    if start + |from| > |m| {
    } else if m[start..start + |from|] == from {
      OccurrencesOrdered(m, from, start + Max(|from|, 1));
      OrderedAfterMatch(m, from, start);
    } else {
      OccurrencesOrdered(m, from, start + 1);
      OrderedAfterMiss(m, from, start);
    }
  }

  /** A match at `start` comes a full match width before every later occurrence. */
  lemma OrderedAfterMatch(m: string, from: string, start: nat)
    requires start + |from| <= |m| && m[start..start + |from|] == from
    requires Spaced(Occurrences(m, from, start + Max(|from|, 1)), Max(|from|, 1))
    ensures Spaced(Occurrences(m, from, start), Max(|from|, 1))
  {
    var w := Max(|from|, 1);
    var rest := Occurrences(m, from, start + w);
    assert Occurrences(m, from, start) == [start] + rest;
    assert rest != [] ==> start + w <= rest[0];
    SpacedCons(start, rest, w);
  }

  /** Without a match at `start` the search simply moves on. */
  lemma OrderedAfterMiss(m: string, from: string, start: nat)
    requires start + |from| <= |m| && m[start..start + |from|] != from
    requires Spaced(Occurrences(m, from, start + 1), Max(|from|, 1))
    ensures Spaced(Occurrences(m, from, start), Max(|from|, 1))
  {
  }

  /** An entry at least `w` before the first of a spaced sequence keeps it spaced. */
  lemma SpacedCons(x: nat, rest: seq<nat>, w: nat)
    requires Spaced(rest, w) && (rest != [] ==> x + w <= rest[0])
    ensures Spaced([x] + rest, w)
  {
    var r := [x] + rest;
    forall k | 0 <= k < |r| - 1
      ensures r[k] + w <= r[k + 1]
    {
      if k > 0 {
        assert r[k] == rest[k - 1] && r[k + 1] == rest[k];
      }
    }
  }

  /** The search is greedy from the left: an occurrence it skips overlaps one it found
      earlier. */
  lemma {:induction false} OccurrencesGreedy(m: string, from: string, start: nat, p: nat)
    requires start <= |m| + 1
    requires start <= p && OccursAt(m, from, p)
    ensures var r := Occurrences(m, from, start);
      p in r || exists k :: 0 <= k < |r| && r[k] < p < r[k] + |from|
    decreases |m| + 1 - start
  {
    var r := Occurrences(m, from, start);
    if start + |from| > |m| {
      assert false;
    } else if m[start..start + |from|] == from {
      var next := start + Max(|from|, 1);
      var rest := Occurrences(m, from, next);
      assert r == [start] + rest;
      if p == start {
        assert r[0] == p;
      } else if p < next {
        assert r[0] < p < r[0] + |from|;
      } else {
        OccurrencesGreedy(m, from, next, p);
        if p !in rest {
          var k :| 0 <= k < |rest| && rest[k] < p < rest[k] + |from|;
          assert r[k + 1] == rest[k];
        }
      }
    } else {
      if p == start {
        assert false;
      } else {
        OccurrencesGreedy(m, from, start + 1, p);
      }
    }
  }

  /** `m` with the occurrence of `rule.from` at `p` replaced by `rule.to`. */
  function Replace(m: string, p: nat, rule: Rule): (x: string)
    requires OccursAt(m, rule.from, p)
    ensures |x| == |m| - |rule.from| + |rule.to|
    ensures x[..p] == m[..p] && x[p..p + |rule.to|] == rule.to && x[p + |rule.to|..] == m[p + |rule.from|..]
  {
    m[..p] + rule.to + m[p + |rule.from|..]
  }

  /** Every molecule one rewrite produces, each distinct molecule once. */
  function Molecules(m: string, rules: seq<Rule>): set<string>
  {
    set i, p | 0 <= i < |rules| && p in Occurrences(m, rules[i].from, 0) :: Replace(m, p, rules[i])
  }

  /** Each molecule is the original with one occurrence of a rule's left-hand side
      replaced by its right-hand side, the prefix and suffix around it untouched. */
  lemma MoleculeShape(m: string, rules: seq<Rule>, x: string)
    requires x in Molecules(m, rules)
    ensures exists i, p: nat :: 0 <= i < |rules| && OccursAt(m, rules[i].from, p) &&
                              x == m[..p] + rules[i].to + m[p + |rules[i].from|..]
  {
    var i, p :| 0 <= i < |rules| && p in Occurrences(m, rules[i].from, 0) && x == Replace(m, p, rules[i]);
  }

  /** Every occurrence the search finds, of every rule, yields one of the molecules. */
  lemma MoleculesComplete(m: string, rules: seq<Rule>, i: nat, p: nat)
    requires i < |rules| && p in Occurrences(m, rules[i].from, 0)
    ensures Replace(m, p, rules[i]) in Molecules(m, rules)
  {
  }

  /** The number of distinct molecules; none at all exactly when no rule applies. */
  function Solve1(m: string, rules: seq<Rule>): (r: nat)
    ensures r == 0 <==> forall i :: 0 <= i < |rules| ==> Occurrences(m, rules[i].from, 0) == []
  {
    var ms := Molecules(m, rules);
    assert (exists i :: 0 <= i < |rules| && Occurrences(m, rules[i].from, 0) != []) ==> ms != {} by {
      if i :| 0 <= i < |rules| && Occurrences(m, rules[i].from, 0) != [] {
        var occ := Occurrences(m, rules[i].from, 0);
        MoleculesComplete(m, rules, i, occ[0]);
      }
    }
    |ms|
  }

  /** A rule applied where its left-hand side occurs produces a molecule of the expected
      length: the source's rewrites all change the length by `|to| - |from|`. */
  lemma MoleculeLength(m: string, rules: seq<Rule>, x: string)
    requires x in Molecules(m, rules)
    ensures exists i :: 0 <= i < |rules| && |x| == |m| - |rules[i].from| + |rules[i].to|
  {
    var i, p :| 0 <= i < |rules| && p in Occurrences(m, rules[i].from, 0) && x == Replace(m, p, rules[i]);
  }

  /** Rewriting the `from` between `pre` and `post` leaves `to` between them. */
  lemma ReplaceBetween(m: string, pre: string, post: string, rule: Rule)
    requires m == pre + rule.from + post
    ensures OccursAt(m, rule.from, |pre|) && Replace(m, |pre|, rule) == pre + rule.to + post
  {
    assert m[..|pre|] == pre;
    assert m[|pre|..|pre| + |rule.from|] == rule.from;
    assert m[|pre| + |rule.from|..] == post;
  }

  /** A rule found between `pre` and `post` yields the molecule with its right-hand side
      there. */
  lemma FoundBetween(m: string, rules: seq<Rule>, i: nat, pre: string, from: string, to: string, post: string)
    requires i < |rules| && rules[i] == Rule(from, to)
    requires |pre| in Occurrences(m, from, 0) && m == pre + from + post
    ensures pre + to + post in Molecules(m, rules)
  {
    ReplaceBetween(m, pre, post, rules[i]);
    MoleculesComplete(m, rules, i, |pre|);
  }

  /** The sample rules `H => HO`, `H => OH` and `O => HH`. */
  predicate SampleRules(rules: seq<Rule>)
  {
    rules == [Rule("H", "HO"), Rule("H", "OH"), Rule("O", "HH")]
  }

  lemma OccurrencesHOH(m: string)
    requires m == "HOH"
    ensures Occurrences(m, "H", 0) == [0, 2] && Occurrences(m, "O", 0) == [1]
  {
    assert m[0..1] == "H" && m[1..2] == "O" && m[2..3] == "H";
    assert Occurrences(m, "H", 3) == [];
    assert Occurrences(m, "H", 2) == [2];
    assert Occurrences(m, "H", 1) == [2];
    assert Occurrences(m, "O", 3) == [];
    assert Occurrences(m, "O", 2) == [];
    assert Occurrences(m, "O", 1) == [1];
  }

  /** What an `H` rule yields at either `H` of `HOH`. */
  lemma ReplaceHInHOH(m: string, rule: Rule, p: nat)
    requires m == "HOH" && rule.from == "H" && (p == 0 || p == 2)
    ensures OccursAt(m, rule.from, p)
    ensures Replace(m, p, rule) == if p == 0 then "" + rule.to + "OH" else "HO" + rule.to + ""
  {
    if p == 0 {
      ReplaceBetween(m, "", "OH", rule);
    } else {
      ReplaceBetween(m, "HO", "", rule);
    }
  }

  /** Which molecule a rule yields at a position of `HOH`. */
  lemma ReplaceHOH(m: string, rules: seq<Rule>, i: nat, p: nat)
    requires m == "HOH" && SampleRules(rules) && i < |rules| && p in Occurrences(m, rules[i].from, 0)
    ensures Replace(m, p, rules[i]) in {"HOOH", "HOHO", "OHOH", "HHHH"}
  {
    SpellingsHOH();
    OccurrencesHOH(m);
    var x := Replace(m, p, rules[i]);
    if i == 0 {
      assert rules[0] == Rule("H", "HO");
      ReplaceHInHOH(m, rules[0], p);
      assert x == "HOOH" || x == "HOHO";
    } else if i == 1 {
      assert rules[1] == Rule("H", "OH");
      ReplaceHInHOH(m, rules[1], p);
      assert x == "OHOH" || x == "HOOH";
    } else {
      assert rules[2] == Rule("O", "HH") && p == 1;
      ReplaceBetween(m, "H", "H", rules[2]);
      assert x == "HHHH";
    }
  }

  lemma MoleculesHOH(m: string, rules: seq<Rule>)
    requires m == "HOH" && SampleRules(rules)
    ensures Molecules(m, rules) == {"HOOH", "HOHO", "OHOH", "HHHH"}
  {
    var ms := Molecules(m, rules);
    forall x | x in ms
      ensures x in {"HOOH", "HOHO", "OHOH", "HHHH"}
    {
      var i, p :| 0 <= i < |rules| && p in Occurrences(m, rules[i].from, 0) && x == Replace(m, p, rules[i]);
      ReplaceHOH(m, rules, i, p);
    }
    MoleculesHOHFound(m, rules);
  }

  lemma MoleculesHOHFound(m: string, rules: seq<Rule>)
    requires m == "HOH" && SampleRules(rules)
    ensures var ms := Molecules(m, rules); "HOOH" in ms && "HOHO" in ms && "OHOH" in ms && "HHHH" in ms
  {
    SpellingsHOH();
    OccurrencesHOH(m);
    FoundBetween(m, rules, 0, "", "H", "HO", "OH");
    FoundBetween(m, rules, 0, "HO", "H", "HO", "");
    FoundBetween(m, rules, 1, "", "H", "OH", "OH");
    FoundBetween(m, rules, 2, "H", "O", "HH", "H");
  }

  /** The molecules of `HOH` spelt as the rewritten part between what surrounds it. */
  lemma SpellingsHOH()
    ensures "" + "HO" + "OH" == "HOOH" && "HO" + "HO" + "" == "HOHO"
    ensures "" + "OH" + "OH" == "OHOH" && "HO" + "OH" + "" == "HOOH"
    ensures "H" + "HH" + "H" == "HHHH"
    ensures "HOH" == "" + "H" + "OH" && "HOH" == "HO" + "H" + "" && "HOH" == "H" + "O" + "H"
  {
  }

  /** `HOH` becomes `HOOH`, `HOHO`, `OHOH`, `HOOH` again or `HHHH`: four molecules. */
  lemma SampleHOH(rules: seq<Rule>)
    requires SampleRules(rules)
    ensures Solve1("HOH", rules) == 4
  {
    MoleculesHOH("HOH", rules);
    FourMolecules();
  }

  lemma FourMolecules()
    ensures |{"HOOH", "HOHO", "OHOH", "HHHH"}| == 4
  {
    var a, b, c, d := "HOOH", "HOHO", "OHOH", "HHHH";
    assert a[2] != b[2] && a[0] != c[0] && a[1] != d[1];
    assert b[0] != c[0] && b[1] != d[1] && c[0] != d[0];
    assert |{a}| == 1;
    assert |{a, b}| == 2;
    assert |{a, b, c}| == 3;
  }

  /** The molecules `HOHOHO` yields under the sample rules. */
  const SevenMolecules: set<string> :=
    {"HOOHOHO", "HOHOOHO", "HOHOHOO", "OHOHOHO", "HHHHOHO", "HOHHHHO", "HOHOHHH"}

  lemma OccurrencesHOHOHO(m: string)
    requires m == "HOHOHO"
    ensures Occurrences(m, "H", 0) == [0, 2, 4] && Occurrences(m, "O", 0) == [1, 3, 5]
  {
    assert m[0..1] == "H" && m[1..2] == "O" && m[2..3] == "H";
    assert m[3..4] == "O" && m[4..5] == "H" && m[5..6] == "O";
    assert Occurrences(m, "H", 6) == [];
    assert Occurrences(m, "H", 5) == [];
    assert Occurrences(m, "H", 4) == [4];
    assert Occurrences(m, "H", 3) == [4];
    assert Occurrences(m, "H", 2) == [2, 4];
    assert Occurrences(m, "H", 1) == [2, 4];
    assert Occurrences(m, "O", 6) == [];
    assert Occurrences(m, "O", 5) == [5];
    assert Occurrences(m, "O", 4) == [5];
    assert Occurrences(m, "O", 3) == [3, 5];
    assert Occurrences(m, "O", 2) == [3, 5];
    assert Occurrences(m, "O", 1) == [1, 3, 5];
  }

  /** What a rule yields at each `H` of `HOHOHO`. */
  lemma ReplaceHInHOHOHO(m: string, rule: Rule, p: nat)
    requires m == "HOHOHO" && rule.from == "H" && (p == 0 || p == 2 || p == 4)
    ensures Replace(m, p, rule) ==
      if p == 0 then "" + rule.to + "OHOHO" else if p == 2 then "HO" + rule.to + "OHO" else "HOHO" + rule.to + "O"
  {
    if p == 0 {
      ReplaceBetween(m, "", "OHOHO", rule);
    } else if p == 2 {
      ReplaceBetween(m, "HO", "OHO", rule);
    } else {
      ReplaceBetween(m, "HOHO", "O", rule);
    }
  }

  /** What a rule yields at each `O` of `HOHOHO`. */
  lemma ReplaceOInHOHOHO(m: string, rule: Rule, p: nat)
    requires m == "HOHOHO" && rule.from == "O" && (p == 1 || p == 3 || p == 5)
    ensures Replace(m, p, rule) ==
      if p == 1 then "H" + rule.to + "HOHO" else if p == 3 then "HOH" + rule.to + "HO" else "HOHOH" + rule.to + ""
  {
    if p == 1 {
      ReplaceBetween(m, "H", "HOHO", rule);
    } else if p == 3 {
      ReplaceBetween(m, "HOH", "HO", rule);
    } else {
      ReplaceBetween(m, "HOHOH", "", rule);
    }
  }

  lemma ReplaceHOHOHO(m: string, rules: seq<Rule>, i: nat, p: nat)
    requires m == "HOHOHO" && SampleRules(rules) && i < |rules| && p in Occurrences(m, rules[i].from, 0)
    ensures Replace(m, p, rules[i]) in SevenMolecules
  {
    SpellingsHOHOHO();
    OccurrencesHOHOHO(m);
    var x := Replace(m, p, rules[i]);
    if i == 0 {
      assert rules[0] == Rule("H", "HO");
      ReplaceHInHOHOHO(m, rules[0], p);
      assert x == "HOOHOHO" || x == "HOHOOHO" || x == "HOHOHOO";
    } else if i == 1 {
      assert rules[1] == Rule("H", "OH");
      ReplaceHInHOHOHO(m, rules[1], p);
      assert x == "OHOHOHO" || x == "HOOHOHO" || x == "HOHOOHO";
    } else {
      assert rules[2] == Rule("O", "HH");
      ReplaceOInHOHOHO(m, rules[2], p);
      assert x == "HHHHOHO" || x == "HOHHHHO" || x == "HOHOHHH";
    }
  }

  /** Each of the seven molecules is found. */
  lemma FoundHOHOHO(m: string, rules: seq<Rule>)
    requires m == "HOHOHO" && SampleRules(rules)
    ensures forall x :: x in SevenMolecules ==> x in Molecules(m, rules)
  {
    SpellingsHOHOHO();
    OccurrencesHOHOHO(m);
    FoundBetween(m, rules, 0, "", "H", "HO", "OHOHO");
    FoundBetween(m, rules, 0, "HO", "H", "HO", "OHO");
    FoundBetween(m, rules, 0, "HOHO", "H", "HO", "O");
    FoundBetween(m, rules, 1, "", "H", "OH", "OHOHO");
    FoundBetween(m, rules, 2, "H", "O", "HH", "HOHO");
    FoundBetween(m, rules, 2, "HOH", "O", "HH", "HO");
    FoundBetween(m, rules, 2, "HOHOH", "O", "HH", "");
  }

  /** The molecules of `HOHOHO` spelt as the rewritten part between what surrounds it. */
  lemma SpellingsHOHOHO()
    ensures "" + "HO" + "OHOHO" == "HOOHOHO" && "HO" + "HO" + "OHO" == "HOHOOHO"
    ensures "HOHO" + "HO" + "O" == "HOHOHOO" && "" + "OH" + "OHOHO" == "OHOHOHO"
    ensures "HO" + "OH" + "OHO" == "HOOHOHO" && "HOHO" + "OH" + "O" == "HOHOOHO"
    ensures "H" + "HH" + "HOHO" == "HHHHOHO" && "HOH" + "HH" + "HO" == "HOHHHHO"
    ensures "HOHOH" + "HH" + "" == "HOHOHHH"
    ensures "HOHOHO" == "" + "H" + "OHOHO" && "HOHOHO" == "HO" + "H" + "OHO" && "HOHOHO" == "HOHO" + "H" + "O"
    ensures "HOHOHO" == "H" + "O" + "HOHO" && "HOHOHO" == "HOH" + "O" + "HO" && "HOHOHO" == "HOHOH" + "O" + ""
  {
  }

  lemma MoleculesHOHOHO(m: string, rules: seq<Rule>)
    requires m == "HOHOHO" && SampleRules(rules)
    ensures Molecules(m, rules) == SevenMolecules
  {
    var ms := Molecules(m, rules);
    forall x | x in ms
      ensures x in SevenMolecules
    {
      var i, p :| 0 <= i < |rules| && p in Occurrences(m, rules[i].from, 0) && x == Replace(m, p, rules[i]);
      ReplaceHOHOHO(m, rules, i, p);
    }
    FoundHOHOHO(m, rules);
  }

  lemma SevenDistinct()
    ensures |SevenMolecules| == 7
  {
    var a, b, c, d, e, f, g := "HOOHOHO", "HOHOOHO", "HOHOHOO", "OHOHOHO", "HHHHOHO", "HOHHHHO", "HOHOHHH";
    assert a[2] != b[2];
    assert |{a, b}| == 2;
    assert c[5] != a[5] && c[5] != b[5];
    assert |{a, b, c}| == 3;
    assert d[0] == 'O' && a[0] == 'H' && b[0] == 'H' && c[0] == 'H';
    assert |{a, b, c, d}| == 4;
    assert e[1] == 'H' && a[1] == 'O' && b[1] == 'O' && c[1] == 'O' && d[1] == 'H' && d[0] != e[0];
    assert |{a, b, c, d, e}| == 5;
    assert f[3] == 'H' && f[1] == 'O' && a[3] == 'H' && a[2] == 'O' && f[2] == 'H' && b[3] == 'O' && c[3] == 'O';
    assert d[0] != f[0] && e[1] != f[1];
    assert |{a, b, c, d, e, f}| == 6;
    assert g[6] == 'H' && a[6] == 'O' && b[6] == 'O' && c[6] == 'O' && d[6] == 'O' && e[6] == 'O' && f[6] == 'O';
  }

  /** `HOHOHO` yields seven distinct molecules; the rewrites that land on the same
      molecule count once. */
  lemma SampleHOHOHO(rules: seq<Rule>)
    requires SampleRules(rules)
    ensures Solve1("HOHOHO", rules) == 7
  {
    MoleculesHOHOHO("HOHOHO", rules);
    SevenDistinct();
  }
}
