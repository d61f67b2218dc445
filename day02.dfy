/** Wrapping presents: each box needs its surface plus its smallest face in paper, and
    the smallest perimeter plus its volume in ribbon. */
module Day02 {
  import opened Common

  datatype Present = Present(l: nat, w: nat, h: nat)

  /** The area of all six faces. */
  function Surface(p: Present): nat
  {
    2 * p.l * p.w + 2 * p.w * p.h + 2 * p.h * p.l
  }

  /** The area of the smallest face. */
  function Slack(p: Present): (s: nat)
    ensures s <= p.l * p.w && s <= p.l * p.h && s <= p.w * p.h
    ensures s == p.l * p.w || s == p.l * p.h || s == p.w * p.h
  {
    var faces := [p.l * p.w, p.l * p.h, p.w * p.h];
    assert faces[0] in faces && faces[1] in faces && faces[2] in faces;
    MinOf(faces)
  }

  /** The smallest perimeter of any face. */
  function ShortestDistance(p: Present): (d: nat)
    ensures d <= 2 * (p.l + p.w) && d <= 2 * (p.l + p.h) && d <= 2 * (p.w + p.h)
    ensures d == 2 * (p.l + p.w) || d == 2 * (p.l + p.h) || d == 2 * (p.w + p.h)
  {
    var perimeters := [2 * (p.l + p.w), 2 * (p.l + p.h), 2 * (p.w + p.h)];
    assert perimeters[0] in perimeters && perimeters[1] in perimeters && perimeters[2] in perimeters;
    MinOf(perimeters)
  }

  function Volume(p: Present): nat
  {
    p.l * p.w * p.h
  }

  function Paper(p: Present): nat
  {
    Surface(p) + Slack(p)
  }

  function Ribbon(p: Present): nat
  {
    ShortestDistance(p) + Volume(p)
  }

  /** The smallest perimeter goes round the two shortest sides: it is twice the sum of
      the sides less the longest one. */
  lemma ShortestAvoidsLongest(p: Present)
    ensures ShortestDistance(p) == 2 * (p.l + p.w + p.h - Max(p.l, Max(p.w, p.h)))
  {
  }

  /** Paper and ribbon do not depend on how the box is turned. */
  lemma Symmetric(p: Present)
    ensures Paper(Present(p.w, p.l, p.h)) == Paper(p) && Ribbon(Present(p.w, p.l, p.h)) == Ribbon(p)
    ensures Paper(Present(p.l, p.h, p.w)) == Paper(p) && Ribbon(Present(p.l, p.h, p.w)) == Ribbon(p)
  {
    assert p.w * p.l == p.l * p.w && p.h * p.w == p.w * p.h && p.l * p.h == p.h * p.l;
    assert p.w * p.l * p.h == p.l * p.w * p.h && p.l * p.h * p.w == p.l * p.w * p.h;
  }

  /** Paper for every present, added up. */
  function Solve1(presents: seq<Present>): (r: nat)
    ensures presents == [] ==> r == 0
    ensures |presents| == 1 ==> r == Paper(presents[0])
  {
    if presents == [] then 0 else Solve1(presents[..|presents| - 1]) + Paper(presents[|presents| - 1])
  }

  /** Ribbon for every present, added up. */
  function Solve2(presents: seq<Present>): (r: nat)
    ensures presents == [] ==> r == 0
    ensures |presents| == 1 ==> r == Ribbon(presents[0])
  {
    if presents == [] then 0 else Solve2(presents[..|presents| - 1]) + Ribbon(presents[|presents| - 1])
  }

  /** The totals of two lists of presents add up. */
  lemma {:induction false} SolveAppend(a: seq<Present>, b: seq<Present>)
    ensures Solve1(a + b) == Solve1(a) + Solve1(b)
    ensures Solve2(a + b) == Solve2(a) + Solve2(b)
    decreases |b|
  {
    if b == [] {
      assert a + b == a;
    } else {
      var b' := b[..|b| - 1];
      assert (a + b)[..|a + b| - 1] == a + b';
      SolveAppend(a, b');
    }
  }

  /** A 2x3x4 box takes 58 square feet of paper and 34 feet of ribbon, a 1x1x10 box 43
      and 14: 101 and 48 together. */
  lemma Sample(presents: seq<Present>)
    requires presents == [Present(2, 3, 4), Present(1, 1, 10)]
    ensures Solve1(presents) == 101 && Solve2(presents) == 48
  {
    assert presents[..1] == [Present(2, 3, 4)];
    assert presents[..1][..0] == [];
    assert Paper(Present(2, 3, 4)) == 58 && Paper(Present(1, 1, 10)) == 43;
    assert Ribbon(Present(2, 3, 4)) == 34 && Ribbon(Present(1, 1, 10)) == 14;
  }
}
