/** Not Quite Lisp: Santa starts on floor 0, goes up one floor for every `(` and down
    one for every `)`; the answer is the floor he ends on. */
module Day01 {

  /** The instructions hold only parentheses: any other character is unreachable. */
  predicate Parens(s: string)
  {
    forall i :: 0 <= i < |s| ==> s[i] == '(' || s[i] == ')'
  }

  /** One instruction's move: up for `(`, down for `)`. */
  function Step(c: char): (d: int)
    requires c == '(' || c == ')'
    ensures d == 1 <==> c == '('
    ensures d == -1 <==> c == ')'
  {
    if c == '(' then 1 else -1
  }

  /** The final floor: the moves summed from the first instruction on. */
  function Solve1(s: string): (r: int)
    requires Parens(s)
    ensures -|s| <= r <= |s|
  {
    if s == [] then 0 else Step(s[0]) + Solve1(s[1..])
  }

  /** The floor is the number of `(` minus the number of `)`. */
  lemma {:induction false} FloorIsCountDifference(s: string)
    requires Parens(s)
    ensures Solve1(s) == multiset(s)['('] as int - multiset(s)[')'] as int
  {
    if s != [] {
      FloorIsCountDifference(s[1..]);
      assert s == [s[0]] + s[1..];
      assert multiset(s) == multiset{s[0]} + multiset(s[1..]);
    }
  }

  /** Only how many of each parenthesis there are matters, not their order. */
  lemma OrderIrrelevant(s: string, t: string)
    requires Parens(s) && Parens(t)
    requires multiset(s) == multiset(t)
    ensures Solve1(s) == Solve1(t)
  {
    FloorIsCountDifference(s);
    FloorIsCountDifference(t);
  }

  /** The floors of the samples: `(())` and `()()` end on 0, `)))` and `)())())` on -3. */
  lemma Samples()
    ensures Solve1("(())") == 0 && Solve1("()()") == 0
    ensures Solve1("(((") == 3 && Solve1("(()(()(") == 3 && Solve1("))(((((") == 3
    ensures Solve1("())") == -1 && Solve1("))(") == -1
    ensures Solve1(")))") == -3 && Solve1(")())())") == -3
  {
  }
}
