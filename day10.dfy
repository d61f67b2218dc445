/** Elves Look, Elves Say: each step reads the number aloud, run by run, as a count
    followed by the digit. The answer is the length after a number of steps. */
module Day10 {

  /** `c` copies of `x`. */
  function Repeat(x: nat, c: nat): (r: seq<nat>)
    ensures |r| == c
  {
    if c == 0 then [] else Repeat(x, c - 1) + [x]
  }

  /** The look-and-say reading of `s`, built digit by digit from the left: a digit that
      continues the last run bumps its count, any other starts a new `[1, digit]` pair. */
  function Encode(s: seq<nat>): (e: seq<nat>)
    ensures |e| % 2 == 0
    ensures s != [] <==> |e| >= 2
    ensures s != [] ==> e[|e| - 1] == s[|s| - 1] && e[|e| - 2] >= 1
    decreases |s|
  {
    if s == [] then []
    else
      var init, x := s[..|s| - 1], s[|s| - 1];
      Push(Encode(init), x, init != [] && x == init[|init| - 1])
  }

  /** Adds digit `x` to the reading `e`: as one more copy in the last pair when it
      continues that run, as a new pair `[1, x]` otherwise. */
  function Push(e: seq<nat>, x: nat, continues: bool): (r: seq<nat>)
    requires continues ==> |e| >= 2 && e[|e| - 1] == x
    ensures |r| == if continues then |e| else |e| + 2
    ensures r[|r| - 1] == x && r[|r| - 2] >= 1
  {
    if continues then e[..|e| - 2] + [e[|e| - 2] + 1, x] else e + [1, x]
  }

  /** Reads a pair sequence back: each `count, digit` pair stands for `count` copies of
      `digit`. */
  function Decode(e: seq<nat>): seq<nat>
    decreases |e|
  {
    if |e| < 2 then [] else Decode(e[..|e| - 2]) + Repeat(e[|e| - 1], e[|e| - 2])
  }

  /** The count of the `j`th pair. */
  function CountOf(e: seq<nat>, j: nat): nat
    requires 2 * j < |e|
  {
    e[2 * j]
  }

  /** The digit of the `j`th pair. */
  function DigitOf(e: seq<nat>, j: nat): nat
    requires 2 * j + 1 < |e|
  {
    e[2 * j + 1]
  }

  /** Pairs of a positive count and a digit, no two neighbouring pairs of the same digit:
      one pair per maximal run. */
  ghost predicate WellFormed(e: seq<nat>)
  {
    |e| % 2 == 0 &&
    (forall j: nat :: 2 * j < |e| ==> CountOf(e, j) >= 1) &&
    (forall j: nat :: 0 < j && 2 * j + 1 < |e| ==> DigitOf(e, j) != DigitOf(e, j - 1))
  }

  /** Reads one step: the loop keeps the pair of the run in progress in `digit` and
      `occurrences` and pushes it when a different digit starts a new run. */
  method Expand(number: seq<nat>) returns (expanded: seq<nat>)
    requires number != []
    ensures expanded == Encode(number)
  {
    expanded := [];
    var digit := number[0];
    var occurrences := 1;
    assert number[..1][..0] == [];
    var i := 1;
    while i < |number|
      invariant 1 <= i <= |number|
      invariant digit == number[i - 1]
      invariant expanded + [occurrences, digit] == Encode(number[..i])
    {
      var current := number[i];
      assert number[..i + 1][..i] == number[..i];
      ghost var e := Encode(number[..i]);
      if current == digit {
        assert expanded == e[..|e| - 2];
        occurrences := occurrences + 1;
      } else {
        expanded := expanded + [occurrences, digit];
        digit := current;
        occurrences := 1;
      }
      i := i + 1;
    }
    assert number[..i] == number;
    expanded := expanded + [occurrences, digit];
  }

  /** Reading `a` then `k` whole pairs is reading `a` and then the pairs. */
  lemma {:induction false} DecodeAppend(a: seq<nat>, b: seq<nat>, k: nat)
    requires |b| == 2 * k
    ensures Decode(a + b) == Decode(a) + Decode(b)
    decreases k
  {
    if k == 0 {
      assert a + b == a;
    } else {
      var b' := b[..|b| - 2];
      var ab := a + b;
      assert ab[..|ab| - 2] == a + b';
      assert ab[|ab| - 1] == b[|b| - 1] && ab[|ab| - 2] == b[|b| - 2];
      var tail := Repeat(b[|b| - 1], b[|b| - 2]);
      assert Decode(ab) == Decode(a + b') + tail;
      assert Decode(b) == Decode(b') + tail;
      DecodeAppend(a, b', k - 1);
    }
  }

  /** Reading the pairs back gives the number that was read. */
  lemma {:induction false} DecodeEncode(s: seq<nat>)
    ensures Decode(Encode(s)) == s
    decreases |s|
  {
    if s != [] {
      var init, x := s[..|s| - 1], s[|s| - 1];
      SplitLast(s);
      DecodeEncode(init);
      DecodeEncodeSnoc(init, x);
    }
  }

  /** A non-empty number is its digits but the last, then the last. */
  lemma SplitLast(s: seq<nat>)
    requires s != []
    ensures s[..|s| - 1] + [s[|s| - 1]] == s
  {
  }

  /** Reading back a number with one more digit, the shorter one reading back right. */
  lemma DecodeEncodeSnoc(init: seq<nat>, x: nat)
    requires Decode(Encode(init)) == init
    ensures Decode(Encode(init + [x])) == init + [x]
  {
    var continues := init != [] && x == init[|init| - 1];
    calc {
      Decode(Encode(init + [x]));
      { EncodeSnoc(init, x); }
      Decode(Push(Encode(init), x, continues));
      { DecodePush(Encode(init), x, continues); }
      Decode(Encode(init)) + [x];
    }
  }

  /** One more digit either bumps the last count or adds a pair. */
  lemma EncodeSnoc(init: seq<nat>, x: nat)
    ensures Encode(init + [x]) == Push(Encode(init), x, init != [] && x == init[|init| - 1])
  {
    var s := init + [x];
    assert s[..|s| - 1] == init && s[|s| - 1] == x;
  }

  /** Adding a digit to a reading adds it to what the reading stands for. */
  lemma DecodePush(e: seq<nat>, x: nat, continues: bool)
    requires continues ==> |e| >= 2 && e[|e| - 1] == x
    ensures Decode(Push(e, x, continues)) == Decode(e) + [x]
  {
    if continues {
      DecodeContinue(e, x);
    } else {
      DecodeStart(e, x);
    }
  }

  /** The last pair of a reading stands for its copies at the end. */
  lemma DecodeLast(a: seq<nat>, c: nat, x: nat)
    ensures Decode(a + [c, x]) == Decode(a) + Repeat(x, c)
  {
    var e := a + [c, x];
    assert e[..|e| - 2] == a && e[|e| - 1] == x && e[|e| - 2] == c;
  }

  /** Bumping the count of the last pair adds one copy of its digit at the end. */
  lemma DecodeContinue(e: seq<nat>, x: nat)
    requires |e| >= 2 && e[|e| - 1] == x
    ensures Decode(Push(e, x, true)) == Decode(e) + [x]
  {
    var e', c := e[..|e| - 2], e[|e| - 2];
    calc {
      Decode(Push(e, x, true));
      { PushUnfold(e, x); }
      Decode(e' + [c + 1, x]);
      { DecodeLast(e', c + 1, x); }
      Decode(e') + Repeat(x, c + 1);
      { RepeatSnoc(x, c); }
      Decode(e') + (Repeat(x, c) + [x]);
      { AppendAssoc(Decode(e'), Repeat(x, c), [x]); }
      (Decode(e') + Repeat(x, c)) + [x];
      { DecodeUnfold(e); }
      Decode(e) + [x];
    }
  }

  /** A reading of at least one pair stands for the pairs before its last one, then
      the copies of its last pair. */
  lemma DecodeUnfold(e: seq<nat>)
    requires |e| >= 2
    ensures Decode(e) == Decode(e[..|e| - 2]) + Repeat(e[|e| - 1], e[|e| - 2])
  {
  }

  /** Continuing the last run bumps the last count. */
  lemma PushUnfold(e: seq<nat>, x: nat)
    requires |e| >= 2 && e[|e| - 1] == x
    ensures Push(e, x, true) == e[..|e| - 2] + [e[|e| - 2] + 1, x]
  {
  }

  /** One more copy is the copies followed by one. */
  lemma RepeatSnoc(x: nat, c: nat)
    ensures Repeat(x, c + 1) == Repeat(x, c) + [x]
  {
  }

  lemma AppendAssoc(a: seq<nat>, b: seq<nat>, c: seq<nat>)
    ensures a + (b + c) == (a + b) + c
  {
  }

  lemma DecodeStart(e: seq<nat>, x: nat)
    ensures Decode(Push(e, x, false)) == Decode(e) + [x]
  {
    assert Push(e, x, false) == e + [1, x];
    DecodeLast(e, 1, x);
    assert Repeat(x, 1) == [x];
  }

  /** The reading has one pair per maximal run: every count is positive and no two
      neighbouring pairs share a digit. */
  lemma {:induction false} EncodeWellFormed(s: seq<nat>)
    ensures WellFormed(Encode(s))
    decreases |s|
  {
    if s != [] {
      var init, x := s[..|s| - 1], s[|s| - 1];
      EncodeWellFormed(init);
      if init != [] && x == init[|init| - 1] {
        ContinueWellFormed(Encode(init), x);
      } else {
        StartWellFormed(Encode(init), x);
      }
    }
  }

  /** Bumping the last count keeps the reading well formed. */
  lemma ContinueWellFormed(e: seq<nat>, x: nat)
    requires WellFormed(e) && |e| >= 2 && e[|e| - 1] == x
    ensures WellFormed(Push(e, x, true))
  {
    var r := Push(e, x, true);
    assert |r| == |e|;
    forall j: nat | 2 * j < |r|
      ensures CountOf(r, j) >= 1
    {
      assert CountOf(r, j) >= CountOf(e, j);
    }
    forall j: nat | 0 < j && 2 * j + 1 < |r|
      ensures DigitOf(r, j) != DigitOf(r, j - 1)
    {
      assert DigitOf(r, j - 1) == DigitOf(e, j - 1);
      assert DigitOf(r, j) == DigitOf(e, j);
    }
  }

  /** A new pair whose digit differs from the last one keeps the reading well formed. */
  lemma StartWellFormed(e: seq<nat>, x: nat)
    requires WellFormed(e) && (|e| >= 2 ==> e[|e| - 1] != x)
    ensures WellFormed(Push(e, x, false))
  {
    var r := Push(e, x, false);
    var m := |e| / 2;
    assert |r| == |e| + 2;
    forall j: nat | 2 * j < |r|
      ensures CountOf(r, j) >= 1
    {
      if j < m {
        assert CountOf(r, j) == CountOf(e, j);
      }
    }
    forall j: nat | 0 < j && 2 * j + 1 < |r|
      ensures DigitOf(r, j) != DigitOf(r, j - 1)
    {
      assert DigitOf(r, j - 1) == DigitOf(e, j - 1);
      if j < m {
        assert DigitOf(r, j) == DigitOf(e, j);
      }
    }
  }

  /** `n` look-and-say steps. */
  function Iterate(s: seq<nat>, n: nat): seq<nat>
    decreases n
  {
    if n == 0 then s else Iterate(Encode(s), n - 1)
  }

  /** The length of the number after `nrSteps` steps. */
  method Solve(start: seq<nat>, nrSteps: nat) returns (r: nat)
    requires start != [] || nrSteps == 0
    ensures r == |Iterate(start, nrSteps)|
  {
    var number := start;
    var i := 0;
    while i < nrSteps
      invariant i <= nrSteps
      invariant number != [] || i == nrSteps
      invariant Iterate(start, nrSteps) == Iterate(number, nrSteps - i)
    {
      number := Expand(number);
      i := i + 1;
    }
    r := |number|;
  }

  /** `1` reads as `11`, `21`, `1211`, `111221` and `312211`: six digits after five
      steps. */
  lemma Sample(one: seq<nat>)
    requires one == [1]
    ensures Iterate(one, 5) == [3, 1, 2, 2, 1, 1]
  {
    var s1, s2, s3, s4, s5 := [1, 1], [2, 1], [1, 2, 1, 1], [1, 1, 1, 2, 2, 1], [3, 1, 2, 2, 1, 1];
    calc {
      Iterate(one, 5);
      { ReadsOne(one, s1); }
      Iterate(s1, 4);
      { ReadsOneOne(s1, s2); }
      Iterate(s2, 3);
      { ReadsTwoOne(s2, s3); }
      Iterate(s3, 2);
      { ReadsOneTwoOneOne(s3, s4); }
      Iterate(s4, 1);
      { ReadsOneOneOneTwoTwoOne(s4, s5); }
      Iterate(s5, 0);
    }
  }

  /** Reading the first `k` digits of `s`, with the reading of the first `k - 1` known. */
  lemma Reads(s: seq<nat>, k: nat, e: seq<nat>, r: seq<nat>)
    requires 1 <= k <= |s| && Encode(s[..k - 1]) == e
    requires r == Push(e, s[k - 1], k >= 2 && s[k - 1] == s[k - 2])
    ensures Encode(s[..k]) == r
  {
    assert s[..k][..k - 1] == s[..k - 1];
  }

  /** The readings of the five sample numbers, digit by digit. */
  lemma ReadsOne(s: seq<nat>, r: seq<nat>)
    requires s == [1] && r == [1, 1]
    ensures Encode(s) == r
  {
    assert s[..0] == [];
    Reads(s, 1, [], r);
    assert s[..|s|] == s;
  }

  lemma ReadsOneOne(s: seq<nat>, r: seq<nat>)
    requires s == [1, 1] && r == [2, 1]
    ensures Encode(s) == r
  {
    assert s[..0] == [];
    Reads(s, 1, [], [1, 1]);
    Reads(s, 2, [1, 1], r);
    assert s[..|s|] == s;
  }

  lemma ReadsTwoOne(s: seq<nat>, r: seq<nat>)
    requires s == [2, 1] && r == [1, 2, 1, 1]
    ensures Encode(s) == r
  {
    assert s[..0] == [];
    Reads(s, 1, [], [1, 2]);
    Reads(s, 2, [1, 2], r);
    assert s[..|s|] == s;
  }

  lemma ReadsOneTwoOneOne(s: seq<nat>, r: seq<nat>)
    requires s == [1, 2, 1, 1] && r == [1, 1, 1, 2, 2, 1]
    ensures Encode(s) == r
  {
    assert s[..0] == [];
    Reads(s, 1, [], [1, 1]);
    Reads(s, 2, [1, 1], [1, 1, 1, 2]);
    Reads(s, 3, [1, 1, 1, 2], [1, 1, 1, 2, 1, 1]);
    Reads(s, 4, [1, 1, 1, 2, 1, 1], r);
    assert s[..|s|] == s;
  }

  lemma ReadsOneOneOneTwoTwoOne(s: seq<nat>, r: seq<nat>)
    requires |s| == 6 && s[0] == 1 && s[1] == 1 && s[2] == 1 && s[3] == 2 && s[4] == 2 && s[5] == 1
    requires r == [3, 1, 2, 2, 1, 1]
    ensures Encode(s) == r
  {
    ReadsOnes(s);
    Reads(s, 4, [3, 1], [3, 1, 1, 2]);
    Reads(s, 5, [3, 1, 1, 2], [3, 1, 2, 2]);
    Reads(s, 6, [3, 1, 2, 2], r);
    assert s[..|s|] == s;
  }

  lemma ReadsOnes(s: seq<nat>)
    requires |s| >= 3 && s[0] == 1 && s[1] == 1 && s[2] == 1
    ensures Encode(s[..3]) == [3, 1]
  {
    assert s[..0] == [];
    Reads(s, 1, [], [1, 1]);
    Reads(s, 2, [1, 1], [2, 1]);
    Reads(s, 3, [2, 1], [3, 1]);
  }
}
