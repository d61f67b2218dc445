/** Santa's next password: count upwards through lowercase strings like an odometer
    until the password has a straight of three letters, no `i`, `o` or `l`, and two
    different letter pairs. */
module Day11 {
  import opened Common

  predicate Lowercase(s: string)
  {
    forall i :: 0 <= i < |s| ==> 'a' <= s[i] <= 'z'
  }

  /** The letters after `k` wrap-arounds: `n` copies of `a`. */
  function As(n: nat): (s: string)
    ensures |s| == n && forall i :: 0 <= i < n ==> s[i] == 'a'
  {
    seq(n, _ => 'a')
  }

  /** The string read as a base-26 number, `a` being 0 and `z` 25. */
  function Value(s: string): nat
    requires Lowercase(s)
  {
    if s == [] then 0 else Value(s[..|s| - 1]) * 26 + (s[|s| - 1] as int - 'a' as int)
  }

  function Pow26(n: nat): (p: nat)
    ensures p >= 1
  {
    if n == 0 then 1 else 26 * Pow26(n - 1)
  }

  lemma {:induction false} ValueBound(s: string)
    requires Lowercase(s)
    ensures Value(s) < Pow26(|s|)
  {
    if s != [] {
      var p := s[..|s| - 1];
      ValueBound(p);
      assert Value(p) * 26 <= (Pow26(|p|) - 1) * 26;
    }
  }

  /** Two passwords of one length with the same value are the same password. */
  lemma {:induction false} ValueInjective(s: string, t: string)
    requires Lowercase(s) && Lowercase(t) && |s| == |t| && Value(s) == Value(t)
    ensures s == t
  {
    if s != [] {
      var n := |s|;
      var ds, dt := s[n - 1] as int - 'a' as int, t[n - 1] as int - 'a' as int;
      DivUnique(Value(s), 26, Value(s[..n - 1]), ds);
      DivUnique(Value(t), 26, Value(t[..n - 1]), dt);
      ValueInjective(s[..n - 1], t[..n - 1]);
      assert s == s[..n - 1] + [s[n - 1]] && t == t[..n - 1] + [t[n - 1]];
    }
  }

  /** The next password in counting order: trailing `z`s become `a` and the letter
      before them moves on by one; an all-`z` password wraps round to all `a`. */
  function Incremented(s: string): (r: string)
    requires Lowercase(s)
    ensures |r| == |s| && Lowercase(r)
  {
    if s == [] then []
    else if s[|s| - 1] == 'z' then Incremented(s[..|s| - 1]) + ['a']
    else s[..|s| - 1] + [(s[|s| - 1] as int + 1) as char]
  }

  /** Incrementing adds one to the password's value, modulo the number of passwords of
      its length. */
  lemma {:induction false} IncrementedValue(s: string)
    requires Lowercase(s)
    ensures Value(Incremented(s)) == (Value(s) + 1) % Pow26(|s|)
  {
    if s != [] {
      var p := s[..|s| - 1];
      if s[|s| - 1] == 'z' {
        IncrementedValue(p);
        IncrementedValueCarry(s);
      } else {
        IncrementedValueLast(s);
      }
    }
  }

  /** A trailing `z` turns into `a` and carries one into the rest. */
  lemma IncrementedValueCarry(s: string)
    requires Lowercase(s) && s != [] && s[|s| - 1] == 'z'
    requires Value(Incremented(s[..|s| - 1])) == (Value(s[..|s| - 1]) + 1) % Pow26(|s| - 1)
    ensures Value(Incremented(s)) == (Value(s) + 1) % Pow26(|s|)
  {
    var p := s[..|s| - 1];
    CarryStep(s);
    ModScale(Value(p) + 1, Pow26(|s| - 1));
  }

  /** The values around a carry, free of any remainder. */
  lemma CarryStep(s: string)
    requires Lowercase(s) && s != [] && s[|s| - 1] == 'z'
    ensures Value(Incremented(s)) == Value(Incremented(s[..|s| - 1])) * 26
    ensures Value(s) + 1 == (Value(s[..|s| - 1]) + 1) * 26
    ensures Pow26(|s|) == Pow26(|s| - 1) * 26
  {
    var q := Incremented(s[..|s| - 1]);
    assert Incremented(s) == q + ['a'];
    ValueSnoc(q, 'a');
  }

  /** Any other last letter just moves on by one, without overflow. */
  lemma IncrementedValueLast(s: string)
    requires Lowercase(s) && s != [] && s[|s| - 1] != 'z'
    ensures Value(Incremented(s)) == (Value(s) + 1) % Pow26(|s|)
  {
    LastStep(s);
    DivUnique(Value(s) + 1, Pow26(|s|), 0, Value(s) + 1);
  }

  /** The values when the last letter moves on by one, free of any remainder. */
  lemma LastStep(s: string)
    requires Lowercase(s) && s != [] && s[|s| - 1] != 'z'
    ensures Value(Incremented(s)) == Value(s) + 1 < Pow26(|s|)
  {
    var p := s[..|s| - 1];
    var c := (s[|s| - 1] as int + 1) as char;
    var bigP := Pow26(|s| - 1);
    assert Incremented(s) == p + [c];
    ValueSnoc(p, c);
    ValueBound(p);
    assert Value(p) * 26 <= (bigP - 1) * 26;
  }

  /** Appending a letter: the value so far times 26 plus that letter. */
  lemma ValueSnoc(p: string, c: char)
    requires Lowercase(p) && 'a' <= c <= 'z'
    ensures Lowercase(p + [c]) && Value(p + [c]) == Value(p) * 26 + (c as int - 'a' as int)
  {
    assert (p + [c])[..|p|] == p;
  }

  /** Scaling by 26 commutes with the remainder, the modulus scaled alike. */
  lemma ModScale(a: nat, b: nat)
    requires b > 0
    ensures (a % b) * 26 == (a * 26) % (b * 26)
  {
    DivUnique(a * 26, b * 26, a / b, (a % b) * 26);
  }

  /** Incrementing a password whose letters from `i` on are all `z` increments its
      first `i` letters and turns the rest into `a`. */
  lemma {:induction false} IncrementedTrailing(s: string, i: nat)
    requires Lowercase(s) && i <= |s| && forall j :: i <= j < |s| ==> s[j] == 'z'
    ensures Incremented(s) == Incremented(s[..i]) + As(|s| - i)
    decreases |s| - i
  {
    if i < |s| {
      var p := s[..|s| - 1];
      IncrementedTrailing(p, i);
      assert p[..i] == s[..i];
      assert As(|p| - i) + ['a'] == As(|s| - i);
    } else {
      assert s[..i] == s;
    }
  }

  /** `k` increments in a row. */
  function Iter(s: string, k: nat): (r: string)
    requires Lowercase(s)
    ensures |r| == |s| && Lowercase(r)
  {
    if k == 0 then s else Incremented(Iter(s, k - 1))
  }

  /** `k` increments add `k` to the value, modulo the number of passwords. */
  lemma {:induction false} IterValue(s: string, k: nat)
    requires Lowercase(s)
    ensures Value(Iter(s, k)) == (Value(s) + k) % Pow26(|s|)
  {
    if k > 0 {
      var m := Pow26(|s|);
      var prev := Iter(s, k - 1);
      var a := Value(s) + k - 1;
      IterValue(s, k - 1);
      assert Value(prev) == a % m;
      IncrementedValue(prev);
      assert Value(Iter(s, k)) == (a % m + 1) % m;
      ModSucc(a, m);
    } else {
      ValueBound(s);
      DivUnique(Value(s), Pow26(|s|), 0, Value(s));
    }
  }

  /** Adding one after reducing modulo `m` is adding one and then reducing. */
  lemma ModSucc(a: nat, m: nat)
    requires m > 0
    ensures (a % m + 1) % m == (a + 1) % m
  {
    var q, r := a / m, a % m;
    if r + 1 < m {
      DivUnique(r + 1, m, 0, r + 1);
      DivUnique(a + 1, m, q, r + 1);
    } else {
      DivUnique(r + 1, m, 1, 0);
      assert a + 1 == m * (q + 1);
      DivUnique(a + 1, m, q + 1, 0);
    }
  }

  /** Three letters in a row ending at `i`, each one more than the last. */
  predicate RunEndsAt(s: string, i: nat)
    requires 2 <= i < |s|
  {
    s[i] >= 'c' && s[i - 2] as int == s[i] as int - 2 && s[i - 1] as int == s[i] as int - 1
  }

  /** Looks for a straight ending before `k`. */
  function StraightBelow(s: string, k: nat): (b: bool)
    requires k <= |s|
    ensures b <==> exists i :: 2 <= i < k && RunEndsAt(s, i)
  {
    if k <= 2 then false else StraightBelow(s, k - 1) || RunEndsAt(s, k - 1)
  }

  predicate Straight(s: string)
  {
    StraightBelow(s, |s|)
  }

  /** The letters at `i`, `i + 1` and `i + 2` go up by one each. */
  predicate Consecutive(s: string, i: nat)
  {
    i + 2 < |s| && s[i + 1] as int == s[i] as int + 1 && s[i + 2] as int == s[i] as int + 2
  }

  /** For lowercase passwords a straight is exactly three consecutive letters
      `x`, `x+1`, `x+2`. */
  lemma StraightIff(s: string)
    requires Lowercase(s)
    ensures Straight(s) <==> exists i :: Consecutive(s, i)
  {
    if Straight(s) {
      var i :| 2 <= i < |s| && RunEndsAt(s, i);
      assert Consecutive(s, i - 2);
    }
    if exists i :: Consecutive(s, i) {
      var i :| Consecutive(s, i);
      StraightFrom(s, i);
    }
  }

  /** Three consecutive lowercase letters are a run the scan finds. */
  lemma StraightFrom(s: string, i: nat)
    requires Lowercase(s) && Consecutive(s, i)
    ensures Straight(s)
  {
    assert RunEndsAt(s, i + 2);
  }

  /** None of the easily confused letters `i`, `o` and `l`. */
  predicate NoConfusion(s: string)
  {
    'i' !in s && 'o' !in s && 'l' !in s
  }

  /** The letters at `i - 1` and `i` are equal. */
  predicate PairAt(s: string, i: int)
  {
    1 <= i < |s| && s[i - 1] == s[i]
  }

  /** The letters that occur as an adjacent equal pair. */
  function PairLetters(s: string): (ls: set<char>)
    ensures forall c :: c in ls <==> exists i :: PairAt(s, i) && s[i] == c
  {
    set i | 0 <= i < |s| && PairAt(s, i) :: s[i]
  }

  predicate Pairs(s: string)
  {
    |PairLetters(s)| >= 2
  }

  /** Two pairs of different letters, such as `aa` and `bb`. */
  lemma PairsIff(s: string)
    ensures Pairs(s) <==> exists i, j :: PairAt(s, i) && PairAt(s, j) && s[i] != s[j]
  {
    if Pairs(s) {
      PairsHasTwo(s);
    }
    if exists i, j :: PairAt(s, i) && PairAt(s, j) && s[i] != s[j] {
      var i, j :| PairAt(s, i) && PairAt(s, j) && s[i] != s[j];
      SubsetCard({s[i], s[j]}, PairLetters(s));
    }
  }

  lemma PairsHasTwo(s: string)
    requires Pairs(s)
    ensures exists i, j :: PairAt(s, i) && PairAt(s, j) && s[i] != s[j]
  {
    var ls := PairLetters(s);
    var x :| x in ls;
    assert |ls - {x}| >= 1;
    var y :| y in ls - {x};
    var i :| PairAt(s, i) && s[i] == x;
    var j :| PairAt(s, j) && s[j] == y;
  }

  predicate IsValid(s: string)
  {
    Straight(s) && NoConfusion(s) && Pairs(s)
  }

  /** A password being counted upwards in place. */
  class Password {
    var text: string

    constructor(password: string)
      ensures text == password
    {
      text := password;
    }

    /** Moves to the next password: from the right, every `z` becomes `a` until a
        letter that is not `z` moves on by one. */
    method Increment()
      requires Lowercase(text)
      modifies this
      ensures text == Incremented(old(text))
    {
      ghost var s := text;
      var i := |text|;
      while i > 0
        invariant 0 <= i <= |s| && |text| == |s| && Lowercase(s)
        invariant forall j :: i <= j < |s| ==> s[j] == 'z'
        invariant text == s[..i] + As(|s| - i)
      {
        if text[i - 1] == 'z' {
          text := text[i - 1 := 'a'];
          i := i - 1;
        } else {
          IncrementedTrailing(s, i);
          assert s[..i] == s[..i - 1] + [s[i - 1]];
          text := text[i - 1 := (text[i - 1] as int + 1) as char];
          return;
        }
      }
      IncrementedTrailing(s, 0);
    }
  }

  /** None of the first `k` passwords after `password` is valid. */
  predicate NoneValidUpTo(password: string, k: nat)
    requires Lowercase(password)
  {
    forall j :: 1 <= j <= k ==> !IsValid(Iter(password, j))
  }

  lemma NoneValidNext(password: string, k: nat)
    requires Lowercase(password) && k >= 1 && NoneValidUpTo(password, k - 1) && !IsValid(Iter(password, k))
    ensures NoneValidUpTo(password, k)
  {
  }

  /** The first valid password after `password` in counting order, trying at most
      `fuel` candidates past the first; `None` if none of those is valid. */
  method Solve(password: string, fuel: nat) returns (r: Option<string>)
    requires Lowercase(password)
    ensures r.Some? ==> exists k :: (1 <= k <= fuel + 1 && r.value == Iter(password, k) &&
      IsValid(r.value) && NoneValidUpTo(password, k - 1))
    ensures r.None? ==> NoneValidUpTo(password, fuel + 1)
  {
    var p := new Password(password);
    p.Increment();
    var k := 1;
    while !IsValid(p.text) && k <= fuel
      invariant 1 <= k <= fuel + 1
      invariant p.text == Iter(password, k)
      invariant NoneValidUpTo(password, k - 1)
    {
      NoneValidNext(password, k);
      p.Increment();
      k := k + 1;
    }
    if IsValid(p.text) {
      r := Some(p.text);
      assert 1 <= k <= fuel + 1 && r.value == Iter(password, k);
    } else {
      NoneValidNext(password, k);
      r := None;
    }
  }

  /** `abcdffaa` has the straight `abc` and the pairs `ff` and `aa`; `ghjaabcc` has the
      straight `abc` and the pairs `aa` and `cc`. */
  lemma SamplesValid(t1: string, t2: string)
    requires t1 == "abcdffaa" && t2 == "ghjaabcc"
    ensures IsValid(t1) && IsValid(t2)
  {
    assert RunEndsAt(t1, 2);
    PairsIff(t1);
    assert PairAt(t1, 5) && PairAt(t1, 7);
    assert RunEndsAt(t2, 6);
    PairsIff(t2);
    assert PairAt(t2, 4) && PairAt(t2, 7);
  }

  /** `abcdffaa` comes 17413 increments after `abcdefgh`. */
  lemma SampleOneOrder(s: string, t: string, k: nat)
    requires s == "abcdefgh" && t == "abcdffaa" && k == 17413
    ensures Iter(s, k) == t
  {
    ValueEight(s);
    ValueEight(t);
    SampleValue(s, 334123303, t, 334140716, k);
  }

  /** `ghjaabcc` comes 7585801 increments after `ghijklmn`. */
  lemma SampleTwoOrder(s: string, t: string, k: nat)
    requires s == "ghijklmn" && t == "ghjaabcc" && k == 7585801
    ensures Iter(s, k) == t
  {
    ValueEight(s);
    ValueEight(t);
    SampleValue(s, 50452618801, t, 50460204602, k);
  }

  function Digit(c: char): int
  {
    c as int - 'a' as int
  }

  /** The value of an eight-letter password, written out digit by digit. */
  lemma ValueEight(s: string)
    requires Lowercase(s) && |s| == 8
    ensures Value(s) == ((((((Digit(s[0]) * 26 + Digit(s[1])) * 26 + Digit(s[2])) * 26 + Digit(s[3])) * 26
      + Digit(s[4])) * 26 + Digit(s[5])) * 26 + Digit(s[6])) * 26 + Digit(s[7])
  {
    var d0, d1, d2, d3 := Digit(s[0]), Digit(s[1]), Digit(s[2]), Digit(s[3]);
    var d4, d5, d6, d7 := Digit(s[4]), Digit(s[5]), Digit(s[6]), Digit(s[7]);
    calc {
      Value(s);
      { assert s[..8] == s; ValuePrefix(s, 7); }
      Value(s[..7]) * 26 + d7;
      { ValuePrefix(s, 6); }
      (Value(s[..6]) * 26 + d6) * 26 + d7;
      { ValuePrefix(s, 5); }
      ((Value(s[..5]) * 26 + d5) * 26 + d6) * 26 + d7;
      { ValuePrefix(s, 4); }
      (((Value(s[..4]) * 26 + d4) * 26 + d5) * 26 + d6) * 26 + d7;
      { ValuePrefix(s, 3); }
      ((((Value(s[..3]) * 26 + d3) * 26 + d4) * 26 + d5) * 26 + d6) * 26 + d7;
      { ValuePrefix(s, 2); }
      (((((Value(s[..2]) * 26 + d2) * 26 + d3) * 26 + d4) * 26 + d5) * 26 + d6) * 26 + d7;
      { ValuePrefix(s, 1); }
      ((((((Value(s[..1]) * 26 + d1) * 26 + d2) * 26 + d3) * 26 + d4) * 26 + d5) * 26 + d6) * 26 + d7;
      { ValuePrefix(s, 0); assert Value(s[..0]) == 0; }
      ((((((d0 * 26 + d1) * 26 + d2) * 26 + d3) * 26 + d4) * 26 + d5) * 26 + d6) * 26 + d7;
    }
  }

  lemma ValuePrefix(s: string, i: nat)
    requires Lowercase(s) && i < |s|
    ensures Value(s[..i + 1]) == Value(s[..i]) * 26 + (s[i] as int - 'a' as int)
  {
    assert s[..i + 1][..i] == s[..i];
  }

  lemma SampleValue(s: string, vs: nat, t: string, vt: nat, k: nat)
    requires Lowercase(s) && Lowercase(t) && |s| == |t| == 8
    requires Value(s) == vs && Value(t) == vt && vs + k == vt
    ensures Iter(s, k) == t
  {
    IterValue(s, k);
    ValueBound(t);
    DivUnique(vs + k, Pow26(8), 0, vt);
    ValueInjective(Iter(s, k), t);
  }
}
