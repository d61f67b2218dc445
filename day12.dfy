/** JSAbacusFramework.io: the answer is the sum of every number in a JSON document,
    found by scanning the text for the pattern `-?\d+` from left to right, each match
    resuming where the previous one ended. The JSON structure itself is never parsed. */
module Day12 {
  import opened Common

  predicate IsDigit(c: char)
  {
    '0' <= c <= '9'
  }

  predicate AllDigits(d: string)
  {
    forall k :: 0 <= k < |d| ==> IsDigit(d[k])
  }

  /** The length of the run of digits starting at `i`: the greedy `\d+`. */
  function DigitRun(s: string, i: nat): (n: nat)
    requires i <= |s|
    ensures i + n <= |s|
    ensures AllDigits(s[i..i + n])
    ensures i + n == |s| || !IsDigit(s[i + n])
    decreases |s| - i
  {
    if i < |s| && IsDigit(s[i]) then
      var n := DigitRun(s, i + 1);
      DigitsCons(s, i, n);
      1 + n
    else 0
  }

  /** A digit followed by a run of digits is a longer run of digits. */
  lemma DigitsCons(s: string, i: nat, n: nat)
    requires i + 1 + n <= |s| && IsDigit(s[i]) && AllDigits(s[i + 1..i + 1 + n])
    ensures AllDigits(s[i..i + 1 + n])
  {
    assert s[i..i + 1 + n] == [s[i]] + s[i + 1..i + 1 + n];
  }

  /** The decimal value of a string of digits. */
  function Value(d: string): (v: nat)
    requires AllDigits(d)
  {
    if d == [] then 0 else 10 * Value(d[..|d| - 1]) + (d[|d| - 1] as int - '0' as int)
  }

  /** A match of `-?\d+` starts at `i`: a digit, or a minus sign directly before one. */
  predicate StartsNumber(s: string, i: nat)
    requires i < |s|
  {
    IsDigit(s[i]) || (s[i] == '-' && i + 1 < |s| && IsDigit(s[i + 1]))
  }

  /** What `-?\d+` matches: digits, with or without a leading minus sign. */
  predicate IsToken(t: string)
  {
    (t != [] && AllDigits(t)) || (|t| >= 2 && t[0] == '-' && AllDigits(t[1..]))
  }

  /** Where the match starting at `i` ends: the minus sign if any, then every digit. */
  function End(s: string, i: nat): (e: nat)
    requires i < |s| && StartsNumber(s, i)
    ensures i < e <= |s|
    ensures IsToken(s[i..e])
    ensures e == |s| || !IsDigit(s[e])
  {
    if IsDigit(s[i]) then
      var n := DigitRun(s, i);
      assert s[i..i + n] == s[i..][..n];
      i + n
    else
      var n := DigitRun(s, i + 1);
      assert s[i..i + 1 + n][1..] == s[i + 1..i + 1 + n];
      i + 1 + n
  }

  /** The number a token denotes. */
  function Parse(t: string): (v: int)
    requires IsToken(t)
  {
    if t[0] == '-' then -(Value(t[1..]) as int) else Value(t)
  }

  /** The numbers matched from position `i` on, in order: each match is as long as it
      can be and the scan resumes after it. */
  function Numbers(s: string, i: nat): (r: seq<int>)
    requires i <= |s|
    decreases |s| - i
  {
    if i == |s| then []
    else if StartsNumber(s, i) then
      var e := End(s, i);
      [Parse(s[i..e])] + Numbers(s, e)
    else Numbers(s, i + 1)
  }

  /** The sum of all numbers in the document. */
  function Solve1(json: string): (r: int)
  {
    Sum(Numbers(json, 0))
  }

  /** Without a match start from `i` on, nothing is found. */
  lemma {:induction false} NoStartNoNumbers(s: string, i: nat)
    requires i <= |s|
    requires forall k :: i <= k < |s| ==> !StartsNumber(s, k)
    ensures Numbers(s, i) == []
    decreases |s| - i
  {
    if i < |s| {
      NoStartNoNumbers(s, i + 1);
    }
  }

  /** A document without digits sums to 0. */
  lemma NoDigitsNoSum(json: string)
    requires forall k :: 0 <= k < |json| ==> !IsDigit(json[k])
    ensures Solve1(json) == 0
  {
    NoStartNoNumbers(json, 0);
  }

  /** Text placed in front does not change what is matched from a later position. */
  lemma {:induction false} RunShift(p: string, b: string, j: nat)
    requires j <= |b|
    ensures DigitRun(p + b, |p| + j) == DigitRun(b, j)
    decreases |b| - j
  {
    if j < |b| {
      assert (p + b)[|p| + j] == b[j];
      RunShift(p, b, j + 1);
    }
  }

  /** A match found after text placed in front is the same match. */
  lemma EndShift(p: string, b: string, j: nat)
    requires j < |b| && StartsNumber(b, j)
    ensures StartsNumber(p + b, |p| + j)
    ensures End(p + b, |p| + j) == |p| + End(b, j)
  {
    var x := p + b;
    assert x[|p| + j] == b[j];
    if j + 1 < |b| {
      assert x[|p| + j + 1] == b[j + 1];
    }
    RunShift(p, b, j);
    RunShift(p, b, j + 1);
  }

  lemma {:induction false} NumbersShift(p: string, b: string, j: nat)
    requires j <= |b|
    ensures Numbers(p + b, |p| + j) == Numbers(b, j)
    decreases |b| - j
  {
    if j < |b| {
      if StartsNumber(b, j) {
        NumbersShift(p, b, End(b, j));
        ShiftAfterMatch(p, b, j);
      } else {
        NumbersShift(p, b, j + 1);
        ShiftAfterMiss(p, b, j);
      }
    }
  }

  /** A match in `b` is the same match in `p + b`, and the scans go on alike. */
  lemma ShiftAfterMatch(p: string, b: string, j: nat)
    requires j < |b| && StartsNumber(b, j)
    requires Numbers(p + b, |p| + End(b, j)) == Numbers(b, End(b, j))
    ensures Numbers(p + b, |p| + j) == Numbers(b, j)
  {
    var e := End(b, j);
    EndShift(p, b, j);
    assert (p + b)[|p| + j..|p| + e] == b[j..e];
  }

  /** Without a match in `b`, there is none in `p + b` and both scans move on by one. */
  lemma ShiftAfterMiss(p: string, b: string, j: nat)
    requires j < |b| && !StartsNumber(b, j)
    requires Numbers(p + b, |p| + j + 1) == Numbers(b, j + 1)
    ensures Numbers(p + b, |p| + j) == Numbers(b, j)
  {
    var x := p + b;
    assert x[|p| + j] == b[j];
    if j + 1 < |b| {
      assert x[|p| + j + 1] == b[j + 1];
    }
  }

  /** Text after a non-digit does not change a digit run that ends before it. */
  lemma {:induction false} RunPrefix(a: string, t: string, i: nat)
    requires i <= |a| && t != [] && !IsDigit(t[0])
    ensures DigitRun(a + t, i) == DigitRun(a, i)
    decreases |a| - i
  {
    var x := a + t;
    if i < |a| {
      assert x[i] == a[i];
      RunPrefix(a, t, i + 1);
    } else {
      assert x[i] == t[0];
    }
  }

  /** A match inside `a` is not changed by a separator and text after `a`. */
  lemma EndPrefix(a: string, c: char, b: string, i: nat)
    requires i < |a| && !IsDigit(c) && c != '-'
    ensures StartsNumber(a + [c] + b, i) <==> StartsNumber(a, i)
    ensures StartsNumber(a, i) ==> End(a + [c] + b, i) == End(a, i)
  {
    var t := [c] + b;
    var x := a + [c] + b;
    assert x == a + t;
    assert x[i] == a[i];
    assert x[i + 1] == if i + 1 < |a| then a[i + 1] else c;
    RunPrefix(a, t, i);
    RunPrefix(a, t, i + 1);
  }

  /** Before a separator (neither a digit nor a minus sign), the numbers of `a` are
      matched as if the text stopped there. */
  lemma {:induction false} NumbersPrefix(a: string, c: char, b: string, i: nat)
    requires i <= |a| && !IsDigit(c) && c != '-'
    ensures Numbers(a + [c] + b, i) == Numbers(a, i) + Numbers(a + [c] + b, |a| + 1)
    decreases |a| - i
  {
    if i == |a| {
      PrefixAtSeparator(a, c, b);
    } else if StartsNumber(a, i) {
      NumbersPrefix(a, c, b, End(a, i));
      PrefixAfterMatch(a, c, b, i);
    } else {
      NumbersPrefix(a, c, b, i + 1);
      PrefixAfterMiss(a, c, b, i);
    }
  }

  /** At the separator itself nothing of `a` is left and no match starts. */
  lemma PrefixAtSeparator(a: string, c: char, b: string)
    requires !IsDigit(c) && c != '-'
    ensures Numbers(a + [c] + b, |a|) == Numbers(a, |a|) + Numbers(a + [c] + b, |a| + 1)
  {
    var x := a + [c] + b;
    assert x[|a|] == c;
  }

  /** A match inside `a` is found in `a + [c] + b` too, and the scans go on alike. */
  lemma PrefixAfterMatch(a: string, c: char, b: string, i: nat)
    requires i < |a| && !IsDigit(c) && c != '-' && StartsNumber(a, i)
    requires Numbers(a + [c] + b, End(a, i))
      == Numbers(a, End(a, i)) + Numbers(a + [c] + b, |a| + 1)
    ensures Numbers(a + [c] + b, i) == Numbers(a, i) + Numbers(a + [c] + b, |a| + 1)
  {
    var x := a + [c] + b;
    EndPrefix(a, c, b, i);
    var e := End(a, i);
    assert x[i..e] == a[i..e];
    var v, rest, after := Parse(a[i..e]), Numbers(a, e), Numbers(x, |a| + 1);
    calc {
      Numbers(x, i);
      [v] + Numbers(x, e);
      [v] + (rest + after);
      { AppendAssoc([v], rest, after); }
      ([v] + rest) + after;
      Numbers(a, i) + after;
    }
  }

  /** Without a match at `i` inside `a`, both scans move on by one. */
  lemma PrefixAfterMiss(a: string, c: char, b: string, i: nat)
    requires i < |a| && !IsDigit(c) && c != '-' && !StartsNumber(a, i)
    requires Numbers(a + [c] + b, i + 1) == Numbers(a, i + 1) + Numbers(a + [c] + b, |a| + 1)
    ensures Numbers(a + [c] + b, i) == Numbers(a, i) + Numbers(a + [c] + b, |a| + 1)
  {
    EndPrefix(a, c, b, i);
  }

  lemma AppendAssoc(p: seq<int>, q: seq<int>, r: seq<int>)
    ensures p + (q + r) == (p + q) + r
  {
  }

  /** A separator splits the sum: brackets, braces, commas, colons, quotes and names
      between the numbers do not change the result, whatever the nesting. */
  lemma Separated(a: string, c: char, b: string)
    requires !IsDigit(c) && c != '-'
    ensures Solve1(a + [c] + b) == Solve1(a) + Solve1(b)
  {
    NumbersPrefix(a, c, b, 0);
    assert a + [c] + b == (a + [c]) + b;
    NumbersShift(a + [c], b, 0);
    SumAppend(Numbers(a, 0), Numbers(b, 0));
  }

  /** A lone number, possibly negative, sums to its own value. */
  lemma Single(d: string)
    requires d != [] && AllDigits(d)
    ensures Solve1(d) == Value(d)
    ensures Solve1(['-'] + d) == -(Value(d) as int)
  {
    SinglePositive(d);
    SingleNegative(d);
    SumOne(Numbers(d, 0));
    SumOne(Numbers(['-'] + d, 0));
  }

  lemma SumOne(r: seq<int>)
    requires |r| == 1
    ensures Sum(r) == r[0]
  {
    assert r[1..] == [];
  }

  lemma SinglePositive(d: string)
    requires d != [] && AllDigits(d)
    ensures Numbers(d, 0) == [Value(d)]
  {
    RunAll(d, 0);
    assert d[0..|d|] == d;
    assert IsDigit(d[0]) && d[0] != '-';
  }

  lemma SingleNegative(d: string)
    requires d != [] && AllDigits(d)
    ensures Numbers(['-'] + d, 0) == [-(Value(d) as int)]
  {
    var m := ['-'] + d;
    EndNegative(d);
    assert m[0..|m|] == m && m[1..] == d;
    assert Parse(m) == -(Value(d) as int);
  }

  lemma EndNegative(d: string)
    requires d != [] && AllDigits(d)
    ensures StartsNumber(['-'] + d, 0) && End(['-'] + d, 0) == 1 + |d|
  {
    var m := ['-'] + d;
    RunAll(d, 0);
    RunShift(['-'], d, 0);
    assert m[1] == d[0] && m[0] == '-';
  }

  lemma {:induction false} RunAll(d: string, i: nat)
    requires i <= |d| && AllDigits(d)
    ensures DigitRun(d, i) == |d| - i
    decreases |d| - i
  {
    if i < |d| {
      RunAll(d, i + 1);
    }
  }

  /** The sum over a slice splits at a separator inside it. */
  lemma SplitAt(s: string, i: nat, j: nat, k: nat)
    requires i <= j < k <= |s| && !IsDigit(s[j]) && s[j] != '-'
    ensures Solve1(s[i..k]) == Solve1(s[i..j]) + Solve1(s[j + 1..k])
  {
    assert s[i..k] == s[i..j] + [s[j]] + s[j + 1..k];
    Separated(s[i..j], s[j], s[j + 1..k]);
  }

  /** A slice holding one digit, or a minus sign and one digit. */
  lemma OneDigit(s: string, i: nat, v: int)
    requires i < |s| && IsDigit(s[i]) && v == s[i] as int - '0' as int
    ensures Solve1(s[i..i + 1]) == v
    ensures i >= 1 && s[i - 1] == '-' ==> Solve1(s[i - 1..i + 1]) == -v
  {
    var d := s[i..i + 1];
    assert d[..0] == [] && d[0] == s[i];
    Single(d);
    if i >= 1 && s[i - 1] == '-' {
      assert s[i - 1..i + 1] == ['-'] + d;
    }
  }

  /** `[1,2,3]` sums to 6. */
  lemma SampleList(s: string)
    requires s == "[1,2,3]"
    ensures Solve1(s) == 6
  {
    assert s[0..7] == s;
    SplitAt(s, 0, 0, 7);
    SplitAt(s, 1, 2, 7);
    SplitAt(s, 3, 4, 7);
    SplitAt(s, 5, 6, 7);
    OneDigit(s, 1, 1);
    OneDigit(s, 3, 2);
    OneDigit(s, 5, 3);
  }

  /** `{"a":2,"b":4}` sums to 6: the keys hold no number. */
  lemma SampleObject(s: string)
    requires s == "{\"a\":2,\"b\":4}"
    ensures Solve1(s) == 6
  {
    assert s[0..13] == s;
    SplitAt(s, 0, 6, 13);
    EntryTwo(s[0..6]);
    EntryFour(s[7..13]);
  }

  lemma EntryTwo(s: string)
    requires s == "{\"a\":2"
    ensures Solve1(s) == 2
  {
    assert s[0..6] == s;
    SplitAt(s, 0, 4, 6);
    NoDigitsNoSum(s[0..4]);
    OneDigit(s, 5, 2);
  }

  lemma EntryFour(s: string)
    requires s == "\"b\":4}"
    ensures Solve1(s) == 4
  {
    assert s[0..6] == s;
    SplitAt(s, 0, 3, 6);
    SplitAt(s, 4, 5, 6);
    NoDigitsNoSum(s[0..3]);
    OneDigit(s, 4, 4);
  }

  /** `[[[3]]]` sums to 3, however deep the number is nested. */
  lemma SampleNested(s: string)
    requires s == "[[[3]]]"
    ensures Solve1(s) == 3
  {
    assert s[0..7] == s;
    SplitAt(s, 0, 2, 7);
    SplitAt(s, 3, 4, 7);
    NoDigitsNoSum(s[0..2]);
    NoDigitsNoSum(s[5..7]);
    OneDigit(s, 3, 3);
  }

  /** `{"a":{"b":4},"c":-1}` sums to 3: a nested 4 and a negative 1. */
  lemma SampleNestedNegative(s: string)
    requires s == "{\"a\":{\"b\":4},\"c\":-1}"
    ensures Solve1(s) == 3
  {
    assert s[0..20] == s;
    SplitAt(s, 0, 12, 20);
    NestedFour(s[0..12]);
    NegativeOne(s[13..20]);
  }

  lemma NestedFour(s: string)
    requires s == "{\"a\":{\"b\":4}"
    ensures Solve1(s) == 4
  {
    assert s[0..12] == s;
    SplitAt(s, 0, 9, 12);
    SplitAt(s, 10, 11, 12);
    NoDigitsNoSum(s[0..9]);
    NoDigitsNoSum(s[11..12]);
    OneDigit(s, 10, 4);
  }

  lemma NegativeOne(s: string)
    requires s == "\"c\":-1}"
    ensures Solve1(s) == -1
  {
    assert s[0..7] == s;
    SplitAt(s, 0, 3, 7);
    SplitAt(s, 4, 6, 7);
    NoDigitsNoSum(s[0..3]);
    OneDigit(s, 5, 1);
  }

  /** `{"a":[-1,1]}` sums to 0: the negative number cancels the positive one. */
  lemma SampleCancelInList(s: string)
    requires s == "{\"a\":[-1,1]}"
    ensures Solve1(s) == 0
  {
    assert s[0..12] == s;
    SplitAt(s, 0, 5, 12);
    SplitAt(s, 6, 8, 12);
    SplitAt(s, 9, 10, 12);
    NoDigitsNoSum(s[0..5]);
    NoDigitsNoSum(s[11..12]);
    OneDigit(s, 7, 1);
    OneDigit(s, 9, 1);
  }

  /** `[-1,{"a":1}]` sums to 0 too: nesting the numbers the other way round changes
      nothing. */
  lemma SampleCancelInObject(s: string)
    requires s == "[-1,{\"a\":1}]"
    ensures Solve1(s) == 0
  {
    assert s[0..12] == s;
    SplitAt(s, 0, 0, 12);
    SplitAt(s, 1, 3, 12);
    SplitAt(s, 4, 8, 12);
    SplitAt(s, 9, 10, 12);
    NoDigitsNoSum(s[4..8]);
    NoDigitsNoSum(s[11..12]);
    OneDigit(s, 2, 1);
    OneDigit(s, 9, 1);
  }

  /** `[]` and `{}` hold no number and sum to 0. */
  lemma SampleEmpty(s: string, t: string)
    requires s == "[]" && t == "{}"
    ensures Solve1(s) == 0 && Solve1(t) == 0
  {
    NoDigitsNoSum(s);
    NoDigitsNoSum(t);
  }
}
