/** Cookie recipes: 100 teaspoons split over four ingredients, scored by the product
    of four clamped property totals, optionally only for recipes of exactly 500
    calories. */
module Day15 {
  import opened Common

  datatype Ingredient = Ingredient(capacity: int, durability: int, flavor: int, texture: int, calories: int)

  datatype Property = Capacity | Durability | Flavor | Texture | Calories

  function Value(i: Ingredient, p: Property): int
  {
    match p
    case Capacity => i.capacity
    case Durability => i.durability
    case Flavor => i.flavor
    case Texture => i.texture
    case Calories => i.calories
  }

  /** The filler ingredient added to a two-ingredient list: every property is -999. */
  const Bad: Ingredient := Ingredient(-999, -999, -999, -999, -999)

  /** The recipe's ingredient list: a list of exactly two is padded with two fillers,
      so that every recipe has four slots. */
  function NewRecipe(ingredients: seq<Ingredient>): (r: seq<Ingredient>)
    ensures |ingredients| == 2 ==> r == ingredients + [Bad, Bad]
    ensures |ingredients| != 2 ==> r == ingredients
  {
    if |ingredients| == 2 then ingredients + [Bad, Bad] else ingredients
  }

  /** The sum, over the first `k` slots, of the property times the slot's teaspoons. */
  function Total(ings: seq<Ingredient>, ps: seq<int>, p: Property, k: nat): int
    requires k <= |ps| <= |ings|
  {
    if k == 0 then 0 else Total(ings, ps, p, k - 1) + Value(ings[k - 1], p) * ps[k - 1]
  }

  /** A property total, clamped below at zero. */
  function Clamped(ings: seq<Ingredient>, ps: seq<int>, p: Property): (t: int)
    requires |ps| <= |ings|
    ensures t >= 0 && t >= Total(ings, ps, p, |ps|)
    ensures t == Total(ings, ps, p, |ps|) || t == 0
  {
    Max(Total(ings, ps, p, |ps|), 0)
  }

  /** A product of four non-negative totals is never negative, and positive exactly
      when none of them is zero. */
  lemma ProductPositive(c: int, d: int, f: int, t: int)
    requires c >= 0 && d >= 0 && f >= 0 && t >= 0
    ensures c * d * f * t >= 0
    ensures c * d * f * t > 0 <==> c > 0 && d > 0 && f > 0 && t > 0
  {
    assert c * d >= 0 && c * d * f >= 0;
    if c > 0 && d > 0 && f > 0 && t > 0 {
      assert c * d > 0 && c * d * f > 0;
    }
  }

  /** The score of a split: with the calorie rule, zero unless the clamped calories are
      500; otherwise the product of the four clamped totals, never negative. */
  function Score(ings: seq<Ingredient>, ps: seq<int>, calories: bool): (s: int)
    requires |ps| <= |ings|
    ensures s >= 0
    ensures s > 0 <==> ((!calories || Clamped(ings, ps, Calories) == 500) &&
      Clamped(ings, ps, Capacity) > 0 && Clamped(ings, ps, Durability) > 0 &&
      Clamped(ings, ps, Flavor) > 0 && Clamped(ings, ps, Texture) > 0)
  {
    if calories && Clamped(ings, ps, Calories) != 500 then 0
    else
      var c, d := Clamped(ings, ps, Capacity), Clamped(ings, ps, Durability);
      var f, t := Clamped(ings, ps, Flavor), Clamped(ings, ps, Texture);
      ProductPositive(c, d, f, t);
      c * d * f * t
  }

  /** Four non-negative teaspoon counts adding up to 100. */
  predicate IsSplit(ps: seq<int>)
  {
    |ps| == 4 && ps[0] >= 0 && ps[1] >= 0 && ps[2] >= 0 && ps[3] >= 0 && ps[0] + ps[1] + ps[2] + ps[3] == 100
  }

  /** The split with `a`, `b`, `c` teaspoons of the first three and the rest of the fourth. */
  function Split(a: nat, b: nat, c: nat): (ps: seq<int>)
    requires a + b + c <= 100
    ensures IsSplit(ps)
    ensures ps[0] == a && ps[1] == b && ps[2] == c
  {
    [a, b, c, 100 - a - b - c]
  }

  /** Every split is reached by choosing its first three counts. */
  lemma SplitOf(ps: seq<int>)
    requires IsSplit(ps)
    ensures ps == Split(ps[0], ps[1], ps[2])
  {
  }

  /** The best score over every split of 100 teaspoons, scanned by the first three counts. */
  method Perfect(ings: seq<Ingredient>, calories: bool) returns (perfect: int)
    requires |ings| >= 4
    ensures perfect >= 0
    ensures forall ps :: IsSplit(ps) ==> Score(ings, ps, calories) <= perfect
    ensures exists ps :: IsSplit(ps) && Score(ings, ps, calories) == perfect
  {
    perfect := 0;
    ghost var best := Split(0, 0, 0);
    var a := 0;
    while a <= 100
      invariant 0 <= a <= 101 && perfect >= 0
      invariant IsSplit(best) && (Score(ings, best, calories) == perfect || perfect == 0)
      invariant forall x: nat, y: nat, z: nat :: x < a && x + y + z <= 100 ==>
        Score(ings, Split(x, y, z), calories) <= perfect
    {
      var b := 0;
      while b <= 100 - a
        invariant 0 <= b <= 101 - a && perfect >= 0
        invariant IsSplit(best) && (Score(ings, best, calories) == perfect || perfect == 0)
        invariant forall x: nat, y: nat, z: nat :: (x < a || (x == a && y < b)) && x + y + z <= 100 ==>
          Score(ings, Split(x, y, z), calories) <= perfect
      {
        var c := 0;
        while c <= 100 - a - b
          invariant 0 <= c <= 101 - a - b && perfect >= 0
          invariant IsSplit(best) && (Score(ings, best, calories) == perfect || perfect == 0)
          invariant forall x: nat, y: nat, z: nat :: (x < a || (x == a && y < b) || (x == a && y == b && z < c)) && x + y + z <= 100 ==>
            Score(ings, Split(x, y, z), calories) <= perfect
        {
          var s := Score(ings, Split(a, b, c), calories);
          if s > perfect {
            perfect := s;
            best := Split(a, b, c);
          }
          c := c + 1;
        }
        b := b + 1;
      }
      a := a + 1;
    }
    forall ps | IsSplit(ps) ensures Score(ings, ps, calories) <= perfect {
      SplitOf(ps);
    }
  }

  /** The best cookie for a parsed ingredient list, with or without the calorie rule. */
  method Solve(ingredients: seq<Ingredient>, calories: bool) returns (r: int)
    requires |NewRecipe(ingredients)| >= 4
    ensures r >= 0
    ensures forall ps :: IsSplit(ps) ==> Score(NewRecipe(ingredients), ps, calories) <= r
    ensures exists ps :: IsSplit(ps) && Score(NewRecipe(ingredients), ps, calories) == r
  {
    r := Perfect(NewRecipe(ingredients), calories);
  }

  /** The two sample ingredients. */
  function Sample(): seq<Ingredient>
  {
    [Ingredient(-1, -2, 6, 3, 8), Ingredient(2, 3, -2, -1, 3)]
  }

  /** 44 teaspoons of butterscotch and 56 of cinnamon score 62842880; 40 and 60 make
      exactly 500 calories and score 57600000. */
  lemma SampleScores()
    ensures Score(NewRecipe(Sample()), Split(44, 56, 0), false) == 62842880
    ensures Score(NewRecipe(Sample()), Split(40, 60, 0), true) == 57600000
  {
    var r := NewRecipe(Sample());
    assert Clamped(r, Split(44, 56, 0), Capacity) == 68;
    assert Clamped(r, Split(44, 56, 0), Durability) == 80;
    assert Clamped(r, Split(44, 56, 0), Flavor) == 152;
    assert Clamped(r, Split(44, 56, 0), Texture) == 76;
    assert Clamped(r, Split(40, 60, 0), Calories) == 500;
    assert Clamped(r, Split(40, 60, 0), Capacity) == 80;
    assert Clamped(r, Split(40, 60, 0), Durability) == 100;
    assert Clamped(r, Split(40, 60, 0), Flavor) == 120;
    assert Clamped(r, Split(40, 60, 0), Texture) == 60;
  }
}
