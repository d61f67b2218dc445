/** Doesn't He Have Intern-Elves For This?: a string is nice when it holds three vowels,
    a letter twice in a row and none of the pairs `ab`, `cd`, `pq` and `xy`. The answer
    counts the nice strings. Each rule is stated as what its pattern matches (positions in
    the string) and is decided by a left-to-right scan; lemmas tie the two together. */
module Day05 {

  predicate IsVowel(c: char)
  {
    c == 'a' || c == 'e' || c == 'i' || c == 'o' || c == 'u'
  }

  predicate IsLower(c: char)
  {
    'a' <= c <= 'z'
  }

  /** The pairs the third rule forbids. */
  predicate IsForbidden(a: char, b: char)
  {
    (a, b) in {('a', 'b'), ('c', 'd'), ('p', 'q'), ('x', 'y')}
  }

  /** What `^.*[aeiou].*[aeiou].*[aeiou].*$` matches: three vowels at increasing
      positions. */
  ghost predicate ThreeVowels(s: string)
  {
    exists i, j, k :: 0 <= i < j < k < |s| && IsVowel(s[i]) && IsVowel(s[j]) && IsVowel(s[k])
  }

  /** What `^.*(aa|bb|…|zz).*$` matches: a lower-case letter followed by itself. */
  ghost predicate DoubleLetter(s: string)
  {
    exists i :: 0 <= i < |s| - 1 && IsLower(s[i]) && s[i] == s[i + 1]
  }

  /** What `^.*(ab|cd|pq|xy).*$` matches: a forbidden pair somewhere. */
  ghost predicate HasForbiddenPair(s: string)
  {
    exists i :: 0 <= i < |s| - 1 && IsForbidden(s[i], s[i + 1])
  }

  /** A string that passes all three filters. */
  ghost predicate Nice(s: string)
  {
    ThreeVowels(s) && DoubleLetter(s) && !HasForbiddenPair(s)
  }

  /** How many vowels `s` holds, repeats counted. */
  function Vowels(s: string): (n: nat)
    ensures n <= |s|
  {
    if s == [] then 0 else (if IsVowel(s[0]) then 1 else 0) + Vowels(s[1..])
  }

  /** Scans for a lower-case letter followed by itself. */
  function ScanDouble(s: string): (b: bool)
  {
    |s| >= 2 && ((IsLower(s[0]) && s[0] == s[1]) || ScanDouble(s[1..]))
  }

  /** Scans for a forbidden pair. */
  function ScanForbidden(s: string): (b: bool)
  {
    |s| >= 2 && (IsForbidden(s[0], s[1]) || ScanForbidden(s[1..]))
  }

  /** The three filters, each decided by its scan. */
  function IsNice(s: string): (b: bool)
  {
    Vowels(s) >= 3 && ScanDouble(s) && !ScanForbidden(s)
  }

  /** Some vowel. */
  ghost predicate OneVowel(s: string)
  {
    exists i :: 0 <= i < |s| && IsVowel(s[i])
  }

  /** Two vowels at increasing positions. */
  ghost predicate TwoVowels(s: string)
  {
    exists i, j :: 0 <= i < j < |s| && IsVowel(s[i]) && IsVowel(s[j])
  }

  lemma OneVowelCons(s: string)
    requires s != []
    ensures OneVowel(s) <==> IsVowel(s[0]) || OneVowel(s[1..])
  {
    var t := s[1..];
    if OneVowel(s) {
      var i :| 0 <= i < |s| && IsVowel(s[i]);
      if i > 0 {
        assert IsVowel(t[i - 1]);
      }
    }
    if OneVowel(t) {
      var i :| 0 <= i < |t| && IsVowel(t[i]);
      assert IsVowel(s[i + 1]);
    }
  }

  lemma TwoVowelsCons(s: string)
    requires s != []
    ensures TwoVowels(s) <==> (IsVowel(s[0]) && OneVowel(s[1..])) || TwoVowels(s[1..])
  {
    var t := s[1..];
    if TwoVowels(s) {
      var i, j :| 0 <= i < j < |s| && IsVowel(s[i]) && IsVowel(s[j]);
      if i > 0 {
        assert IsVowel(t[i - 1]) && IsVowel(t[j - 1]);
      } else {
        assert IsVowel(t[j - 1]);
      }
    }
    if TwoVowels(t) {
      var i, j :| 0 <= i < j < |t| && IsVowel(t[i]) && IsVowel(t[j]);
      assert IsVowel(s[i + 1]) && IsVowel(s[j + 1]);
    }
    if IsVowel(s[0]) && OneVowel(t) {
      var j :| 0 <= j < |t| && IsVowel(t[j]);
      assert IsVowel(s[j + 1]);
    }
  }

  lemma ThreeVowelsCons(s: string)
    requires s != []
    ensures ThreeVowels(s) <==> (IsVowel(s[0]) && TwoVowels(s[1..])) || ThreeVowels(s[1..])
  {
    if ThreeVowels(s) {
      ThreeVowelsSplit(s);
    }
    ThreeVowelsJoin(s);
  }

  lemma ThreeVowelsSplit(s: string)
    requires s != [] && ThreeVowels(s)
    ensures (IsVowel(s[0]) && TwoVowels(s[1..])) || ThreeVowels(s[1..])
  {
    var t := s[1..];
    var i, j, k :| 0 <= i < j < k < |s| && IsVowel(s[i]) && IsVowel(s[j]) && IsVowel(s[k]);
    if i > 0 {
      assert IsVowel(t[i - 1]) && IsVowel(t[j - 1]) && IsVowel(t[k - 1]);
    } else {
      assert IsVowel(t[j - 1]) && IsVowel(t[k - 1]);
    }
  }

  lemma ThreeVowelsJoin(s: string)
    requires s != []
    ensures (IsVowel(s[0]) && TwoVowels(s[1..])) || ThreeVowels(s[1..]) ==> ThreeVowels(s)
  {
    if ThreeVowels(s[1..]) {
      ThreeVowelsInTail(s);
    }
    if IsVowel(s[0]) && TwoVowels(s[1..]) {
      ThreeVowelsFromHead(s);
    }
  }

  lemma ThreeVowelsInTail(s: string)
    requires s != [] && ThreeVowels(s[1..])
    ensures ThreeVowels(s)
  {
    var i, j, k :| 0 <= i < j < k < |s| - 1 && IsVowel(s[1..][i]) && IsVowel(s[1..][j]) && IsVowel(s[1..][k]);
    ThreeAt(s, i + 1, j + 1, k + 1);
  }

  lemma ThreeVowelsFromHead(s: string)
    requires s != [] && IsVowel(s[0]) && TwoVowels(s[1..])
    ensures ThreeVowels(s)
  {
    var j, k :| 0 <= j < k < |s| - 1 && IsVowel(s[1..][j]) && IsVowel(s[1..][k]);
    ThreeAt(s, 0, j + 1, k + 1);
  }

  /** Vowels at three increasing positions witness the first rule. */
  lemma ThreeAt(s: string, i: nat, j: nat, k: nat)
    requires i < j < k < |s| && IsVowel(s[i]) && IsVowel(s[j]) && IsVowel(s[k])
    ensures ThreeVowels(s)
  {
  }

  /** One, two or three vowels at increasing positions exist exactly when the string
      holds at least that many vowels. */
  lemma {:induction false} VowelCounts(s: string)
    ensures OneVowel(s) <==> Vowels(s) >= 1
    ensures TwoVowels(s) <==> Vowels(s) >= 2
    ensures ThreeVowels(s) <==> Vowels(s) >= 3
  {
    if s != [] {
      VowelCounts(s[1..]);
      OneVowelCons(s);
      TwoVowelsCons(s);
      ThreeVowelsCons(s);
    }
  }

  /** The first rule: three vowels, counting repeats. */
  lemma ThreeVowelsCount(s: string)
    ensures ThreeVowels(s) <==> Vowels(s) >= 3
  {
    VowelCounts(s);
  }

  /** The second rule's scan finds exactly the doubled letters. */
  lemma {:induction false} ScanDoubleCorrect(s: string)
    ensures ScanDouble(s) <==> DoubleLetter(s)
  {
    if |s| >= 2 {
      var t := s[1..];
      ScanDoubleCorrect(t);
      if DoubleLetter(t) {
        var i :| 0 <= i < |t| - 1 && IsLower(t[i]) && t[i] == t[i + 1];
        assert s[i + 1] == t[i] && s[i + 2] == t[i + 1];
      }
      if DoubleLetter(s) {
        var i :| 0 <= i < |s| - 1 && IsLower(s[i]) && s[i] == s[i + 1];
        if i > 0 {
          assert t[i - 1] == s[i] && t[i] == s[i + 1];
        }
      }
    }
  }

  /** The third rule's scan finds exactly the forbidden pairs. */
  lemma {:induction false} ScanForbiddenCorrect(s: string)
    ensures ScanForbidden(s) <==> HasForbiddenPair(s)
  {
    if |s| >= 2 {
      var t := s[1..];
      ScanForbiddenCorrect(t);
      if HasForbiddenPair(t) {
        var i :| 0 <= i < |t| - 1 && IsForbidden(t[i], t[i + 1]);
        assert s[i + 1] == t[i] && s[i + 2] == t[i + 1];
      }
      if HasForbiddenPair(s) {
        var i :| 0 <= i < |s| - 1 && IsForbidden(s[i], s[i + 1]);
        if i > 0 {
          assert t[i - 1] == s[i] && t[i] == s[i + 1];
        }
      }
    }
  }

  /** The scans decide niceness. */
  lemma IsNiceCorrect(s: string)
    ensures IsNice(s) <==> Nice(s)
  {
    ThreeVowelsCount(s);
    ScanDoubleCorrect(s);
    ScanForbiddenCorrect(s);
  }

  /** The positions of the nice strings. */
  ghost function NiceIndices(strings: seq<string>): set<nat>
  {
    set i: nat | i < |strings| && Nice(strings[i])
  }

  /** The number of strings passing all three filters. */
  function Solve1(strings: seq<string>): (r: nat)
    ensures r <= |strings|
  {
    if strings == [] then 0
    else Solve1(strings[..|strings| - 1]) + if IsNice(strings[|strings| - 1]) then 1 else 0
  }

  /** The count is the number of positions holding a nice string. */
  lemma {:induction false} CountsNice(strings: seq<string>)
    ensures Solve1(strings) == |NiceIndices(strings)|
  {
    if strings != [] {
      var n := |strings| - 1;
      var init := strings[..n];
      CountsNice(init);
      IsNiceCorrect(strings[n]);
      assert forall i :: 0 <= i < n ==> init[i] == strings[i];
      if Nice(strings[n]) {
        assert NiceIndices(strings) == NiceIndices(init) + {n};
      } else {
        assert NiceIndices(strings) == NiceIndices(init);
      }
    }
  }

  /** `aaa` is nice: its vowels may overlap its double letter. */
  lemma TripleA(s: string)
    requires s == "aaa"
    ensures Nice(s)
  {
    assert IsVowel(s[0]) && IsVowel(s[1]) && IsVowel(s[2]);
    assert IsLower(s[0]) && s[0] == s[1];
  }

  /** The first sample string passes all three rules. */
  lemma NiceFirst(s: string)
    requires s == "ugknbfddgicrmopn"
    ensures Nice(s)
  {
    assert IsVowel(s[0]) && IsVowel(s[9]) && IsVowel(s[13]);
    assert IsLower(s[6]) && s[6] == s[7];
    forall i | 0 <= i < |s| - 1
      ensures !IsForbidden(s[i], s[i + 1])
    {
    }
  }

  /** The third sample string has no letter twice in a row. */
  lemma NoDouble(s: string)
    requires s == "jchzalrnumimnmhp"
    ensures !Nice(s)
  {
    forall i | 0 <= i < |s| - 1
      ensures s[i] != s[i + 1]
    {
    }
  }

  /** The fourth sample string holds `xy`. */
  lemma Forbidden(s: string)
    requires s == "haegwjzuvuyypxyu"
    ensures !Nice(s)
  {
    assert IsForbidden(s[13], s[14]);
  }

  /** The fifth sample string has a single vowel. */
  lemma OneVowelOnly(s: string)
    requires s == "dvszwmarrgswjxmb"
    ensures !Nice(s)
  {
    forall i | 0 <= i < |s| && IsVowel(s[i])
      ensures i == 6
    {
    }
  }

  /** Of the five sample strings, the first two are nice: the count is 2. */
  lemma Sample(strings: seq<string>)
    requires |strings| == 5 && strings[0] == "ugknbfddgicrmopn" && strings[1] == "aaa"
    requires strings[2] == "jchzalrnumimnmhp" && strings[3] == "haegwjzuvuyypxyu"
    requires strings[4] == "dvszwmarrgswjxmb"
    ensures Solve1(strings) == 2
  {
    NiceFirst(strings[0]);
    TripleA(strings[1]);
    NoDouble(strings[2]);
    Forbidden(strings[3]);
    OneVowelOnly(strings[4]);
    CountsNice(strings);
    var nice := NiceIndices(strings);
    assert 0 in nice && 1 in nice;
    assert 2 !in nice && 3 !in nice && 4 !in nice;
    forall i | i in nice
      ensures i == 0 || i == 1
    {
      assert i < 5 && i != 2 && i != 3 && i != 4;
    }
    assert nice == {0, 1};
  }
}
