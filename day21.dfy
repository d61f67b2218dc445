/** The item shop fight: the player buys one weapon, up to one armor and up to two
    rings, and the answer is the cheapest purchase with which the player, striking
    first, beats the boss. */
module Day21 {
  import opened Common

  /** The player's fixed hit points. */
  const PlayerHp: int := 100

  datatype Boss = Boss(hitPoints: int, damage: int, armor: int)

  /** A shop item; its name plays no part in the fight. */
  datatype Item = Item(cost: int, damage: int, armor: int)

  function Attack(value: int, cost: int): Item { Item(cost, value, 0) }
  function Defense(value: int, cost: int): Item { Item(cost, 0, value) }

  datatype Shop = Shop(weapons: seq<Item>, armor: seq<Item>, rings: seq<Item>)

  /** The shop's fixed stock: five weapons, five armors and six rings. */
  function NewShop(): (s: Shop)
    ensures |s.weapons| == 5 && |s.armor| == 5 && |s.rings| == 6
  {
    Shop(
      [Attack(4, 8), Attack(5, 10), Attack(6, 25), Attack(7, 40), Attack(8, 74)],
      [Defense(1, 13), Defense(2, 31), Defense(3, 53), Defense(4, 75), Defense(5, 102)],
      [Attack(1, 25), Attack(2, 50), Attack(3, 100), Defense(1, 20), Defense(2, 40), Defense(3, 80)])
  }

  datatype Stat = Cost | Damage | Armor

  function Of(i: Item, s: Stat): int
  {
    match s
    case Cost => i.cost
    case Damage => i.damage
    case Armor => i.armor
  }

  /** The sum of one statistic over an inventory. */
  function Total(inv: seq<Item>, s: Stat): int
  {
    if inv == [] then 0 else Total(inv[..|inv| - 1], s) + Of(inv[|inv| - 1], s)
  }

  /** Integer division truncating toward zero, as on the source's signed integers. */
  function Quot(a: int, b: int): (q: int)
    requires b > 0
    ensures a >= 0 ==> q == a / b
    ensures a < 0 ==> q == -((-a) / b)
  {
    if a >= 0 then a / b else -((-a) / b)
  }

  /** The number of hits of `damage` needed to bring `hp` to zero or below. */
  function Hits(hp: int, damage: int): int
    requires damage > 0
  {
    Quot(hp + damage - 1, damage)
  }

  /** What each of the player's hits takes off the boss: never less than one. */
  function PlayerDamage(boss: Boss, inv: seq<Item>): (d: int)
    ensures d >= 1 && d >= Total(inv, Damage) - boss.armor
    ensures d == 1 || d == Total(inv, Damage) - boss.armor
  {
    Max(1, Total(inv, Damage) - boss.armor)
  }

  /** What each of the boss's hits takes off the player: never less than one. */
  function BossDamage(boss: Boss, inv: seq<Item>): (d: int)
    ensures d >= 1 && d >= boss.damage - Total(inv, Armor)
    ensures d == 1 || d == boss.damage - Total(inv, Armor)
  {
    Max(1, boss.damage - Total(inv, Armor))
  }

  /** The player wins when they need no more hits than the boss does: the player
      strikes first, so a tie is theirs. */
  predicate Wins(boss: Boss, inv: seq<Item>)
  {
    Hits(boss.hitPoints, PlayerDamage(boss, inv)) <= Hits(PlayerHp, BossDamage(boss, inv))
  }

  /** The fight played out turn by turn: the player hits first, and whoever first
      brings the other to zero hit points or below wins. */
  function PlayerWinsFight(playerHp: int, bossHp: int, playerDamage: int, bossDamage: int): bool
    requires playerDamage >= 1 && bossDamage >= 1
    decreases playerHp
  {
    if bossHp <= playerDamage then true
    else if playerHp <= bossDamage then false
    else PlayerWinsFight(playerHp - bossDamage, bossHp - playerDamage, playerDamage, bossDamage)
  }

  lemma HitsOne(hp: int, d: int)
    requires 1 <= hp <= d
    ensures Hits(hp, d) == 1
  {
    assert d <= hp + d - 1 < 2 * d;
    assert (hp + d - 1) / d == 1;
  }

  lemma HitsAtLeastOne(hp: int, d: int)
    requires hp >= 1 && d >= 1
    ensures Hits(hp, d) >= 1
  {
    assert (hp + d - 1) / d >= d / d;
  }

  lemma HitsStep(hp: int, d: int)
    requires hp > d >= 1
    ensures Hits(hp - d, d) == Hits(hp, d) - 1
  {
    var x := hp - 1;
    var q, r := x / d, x % d;
    assert x == d * q + r;
    assert x + d == d * (q + 1) + r;
    DivUnique(x + d, d, q + 1, r);
  }

  /** The closed-form test agrees with the turn-by-turn fight for every positive hit
      point total and damage. */
  lemma {:induction false} FightFormula(playerHp: int, bossHp: int, playerDamage: int, bossDamage: int)
    requires playerHp >= 1 && bossHp >= 1 && playerDamage >= 1 && bossDamage >= 1
    ensures PlayerWinsFight(playerHp, bossHp, playerDamage, bossDamage) <==>
      Hits(bossHp, playerDamage) <= Hits(playerHp, bossDamage)
    decreases playerHp
  {
    if bossHp <= playerDamage {
      HitsOne(bossHp, playerDamage);
      HitsAtLeastOne(playerHp, bossDamage);
    } else if playerHp <= bossDamage {
      HitsOne(playerHp, bossDamage);
      HitsStep(bossHp, playerDamage);
      HitsAtLeastOne(bossHp - playerDamage, playerDamage);
    } else {
      HitsStep(bossHp, playerDamage);
      HitsStep(playerHp, bossDamage);
      FightFormula(playerHp - bossDamage, bossHp - playerDamage, playerDamage, bossDamage);
    }
  }

  /** Against a boss with positive hit points, `Wins` is exactly winning the fight. */
  lemma WinsIsFight(boss: Boss, inv: seq<Item>)
    requires boss.hitPoints >= 1
    ensures Wins(boss, inv) <==>
      PlayerWinsFight(PlayerHp, boss.hitPoints, PlayerDamage(boss, inv), BossDamage(boss, inv))
  {
    FightFormula(PlayerHp, boss.hitPoints, PlayerDamage(boss, inv), BossDamage(boss, inv));
  }

  /** All choices of one index below `n`, in order. */
  function Singles(n: nat): (r: seq<seq<nat>>)
    ensures |r| == n
    ensures forall k :: 0 <= k < n ==> r[k] == [k]
  {
    seq(n, k requires 0 <= k < n => [k])
  }

  /** The ordered pairs `[i, j]` with `j != i`, for one `i`, by increasing `j`. */
  function PairRow(n: nat, i: nat): (r: seq<seq<nat>>)
    requires i < n
    ensures |r| == n - 1
    ensures forall p :: p in r <==> |p| == 2 && p[0] == i && p[1] < n && p[1] != i
  {
    var left := seq(i, j requires 0 <= j < i => [i, j]);
    var right := seq(n - 1 - i, k requires 0 <= k < n - 1 - i => [i, i + 1 + k]);
    var r := left + right;
    forall p: seq<nat> | |p| == 2 && p[0] == i && p[1] < n && p[1] != i ensures p in r {
      if p[1] < i {
        assert left[p[1]] == p;
      } else {
        assert right[p[1] - i - 1] == p;
      }
    }
    r
  }

  /** The ordered pairs of distinct indices below `n` whose first index is at least `i`. */
  function PairsFrom(n: nat, i: nat): (r: seq<seq<nat>>)
    requires i <= n
    ensures |r| == (n - i) * (n - 1)
    ensures forall p :: p in r <==> |p| == 2 && i <= p[0] < n && p[1] < n && p[0] != p[1]
    decreases n - i
  {
    if i == n then []
    else
      var r := PairRow(n, i) + PairsFrom(n, i + 1);
      assert (n - i) * (n - 1) == (n - 1) + (n - (i + 1)) * (n - 1);
      r
  }

  /** Both orders of every two distinct indices, as length-two permutations list them. */
  function Pairs(n: nat): (r: seq<seq<nat>>)
    ensures |r| == n * (n - 1)
    ensures forall p :: p in r <==> |p| == 2 && p[0] < n && p[1] < n && p[0] != p[1]
  {
    PairsFrom(n, 0)
  }

  /** Exactly one weapon. */
  function WeaponChoices(n: nat): seq<seq<nat>> { Singles(n) }

  /** No armor or one. */
  function ArmorChoices(n: nat): seq<seq<nat>> { [[]] + Singles(n) }

  /** No ring, one ring, or two different rings in either order. */
  function RingChoices(n: nat): seq<seq<nat>> { [[]] + Singles(n) + Pairs(n) }

  /** Indices into the weapons, armor and rings on sale. */
  datatype Choice = Choice(weapon: seq<nat>, armor: seq<nat>, rings: seq<nat>)

  /** The choices with weapon `w` and armor `a`, in ring order. */
  function RingRow(w: seq<nat>, a: seq<nat>, rs: seq<seq<nat>>): (r: seq<Choice>)
    ensures |r| == |rs|
    ensures forall c :: c in r <==> c.weapon == w && c.armor == a && c.rings in rs
  {
    var r := seq(|rs|, k requires 0 <= k < |rs| => Choice(w, a, rs[k]));
    forall c: Choice | c.weapon == w && c.armor == a && c.rings in rs ensures c in r {
      var k :| 0 <= k < |rs| && rs[k] == c.rings;
      assert r[k] == c;
    }
    r
  }

  function ArmorRows(w: seq<nat>, arms: seq<seq<nat>>, rs: seq<seq<nat>>): (r: seq<Choice>)
    ensures |r| == |arms| * |rs|
    ensures forall c :: c in r <==> c.weapon == w && c.armor in arms && c.rings in rs
  {
    if arms == [] then []
    else
      var r := RingRow(w, arms[0], rs) + ArmorRows(w, arms[1..], rs);
      assert forall a :: a in arms <==> a == arms[0] || a in arms[1..];
      assert |arms| * |rs| == |rs| + (|arms| - 1) * |rs|;
      r
  }

  /** Every combination, weapons outermost and rings innermost, as a cartesian product. */
  function Product(ws: seq<seq<nat>>, arms: seq<seq<nat>>, rs: seq<seq<nat>>): (r: seq<Choice>)
    ensures |r| == |ws| * |arms| * |rs|
    ensures forall c :: c in r <==> c.weapon in ws && c.armor in arms && c.rings in rs
  {
    if ws == [] then []
    else
      var r := ArmorRows(ws[0], arms, rs) + Product(ws[1..], arms, rs);
      assert forall w :: w in ws <==> w == ws[0] || w in ws[1..];
      assert |ws| * |arms| * |rs| == |arms| * |rs| + (|ws| - 1) * |arms| * |rs|;
      r
  }

  /** One weapon, at most one armor, at most two rings, and never the same ring twice,
      all within the shop's stock. */
  predicate ValidChoice(c: Choice, nw: nat, na: nat, nr: nat)
  {
    && |c.weapon| == 1 && c.weapon[0] < nw
    && |c.armor| <= 1 && (forall k :: 0 <= k < |c.armor| ==> c.armor[k] < na)
    && RingSelection(c.rings, nr)
  }

  predicate Purchase(shop: Shop, c: Choice)
  {
    ValidChoice(c, |shop.weapons|, |shop.armor|, |shop.rings|)
  }

  function Choices(shop: Shop): seq<Choice>
  {
    Product(WeaponChoices(|shop.weapons|), ArmorChoices(|shop.armor|), RingChoices(|shop.rings|))
  }

  lemma SinglesExactly(n: nat, w: seq<nat>)
    ensures w in Singles(n) <==> |w| == 1 && w[0] < n
  {
    if |w| == 1 && w[0] < n {
      assert w == Singles(n)[w[0]];
    }
  }

  lemma WeaponChoicesExactly(n: nat, w: seq<nat>)
    ensures w in WeaponChoices(n) <==> |w| == 1 && w[0] < n
  {
    SinglesExactly(n, w);
  }

  lemma ArmorChoicesExactly(n: nat, a: seq<nat>)
    ensures a in ArmorChoices(n) <==> |a| <= 1 && forall k :: 0 <= k < |a| ==> a[k] < n
  {
    SinglesExactly(n, a);
    assert a in ArmorChoices(n) <==> a == [] || a in Singles(n);
  }

  /** No ring, one ring, or two different rings, all in stock. */
  predicate RingSelection(r: seq<nat>, n: nat)
  {
    |r| <= 2 && (forall k :: 0 <= k < |r| ==> r[k] < n) && (|r| == 2 ==> r[0] != r[1])
  }

  lemma RingSelectionPair(r: seq<nat>, n: nat)
    requires |r| == 2
    ensures RingSelection(r, n) <==> r[0] < n && r[1] < n && r[0] != r[1]
  {
    if r[0] < n && r[1] < n {
      forall k | 0 <= k < |r| ensures r[k] < n {
        if k == 0 {} else {}
      }
    }
  }

  lemma RingChoicesExactly(n: nat, r: seq<nat>)
    ensures r in RingChoices(n) <==> RingSelection(r, n)
  {
    SinglesExactly(n, r);
    var rs := RingChoices(n);
    assert rs == [[]] + Singles(n) + Pairs(n);
    assert r in rs <==> r == [] || r in Singles(n) || r in Pairs(n);
    if |r| == 0 {
      assert r == [];
    } else if |r| == 1 {
      assert r !in Pairs(n);
      assert RingSelection(r, n) <==> r[0] < n;
    } else if |r| == 2 {
      assert r != [] && r !in Singles(n);
      RingSelectionPair(r, n);
    } else {
      assert r != [] && r !in Singles(n) && r !in Pairs(n);
    }
  }

  /** The enumerated choices are exactly the valid ones. */
  lemma ChoicesExactly(shop: Shop, c: Choice)
    ensures c in Choices(shop) <==> Purchase(shop, c)
  {
    WeaponChoicesExactly(|shop.weapons|, c.weapon);
    ArmorChoicesExactly(|shop.armor|, c.armor);
    RingChoicesExactly(|shop.rings|, c.rings);
  }

  /** 5 weapons × 6 armor choices × 37 ring choices. */
  lemma InventoryCount()
    ensures |Choices(NewShop())| == 1110
  {
    var shop := NewShop();
    assert |WeaponChoices(|shop.weapons|)| == 5;
    assert |ArmorChoices(|shop.armor|)| == 6;
    assert |Pairs(6)| == 30;
    assert |RingChoices(|shop.rings|)| == 37;
  }

  /** The items `idx` selects from `items`. */
  function Pick(items: seq<Item>, idx: seq<nat>): (r: seq<Item>)
    requires forall k :: 0 <= k < |idx| ==> idx[k] < |items|
    ensures |r| == |idx|
    ensures forall k :: 0 <= k < |idx| ==> r[k] == items[idx[k]]
  {
    seq(|idx|, k requires 0 <= k < |idx| => items[idx[k]])
  }

  /** The inventory a choice buys: the weapon, then the armor, then the rings. */
  function Buy(shop: Shop, c: Choice): (inv: seq<Item>)
    requires Purchase(shop, c)
    ensures 1 <= |inv| <= 4
  {
    Pick(shop.weapons, c.weapon) + Pick(shop.armor, c.armor) + Pick(shop.rings, c.rings)
  }

  /** Every inventory on offer, one per enumerated choice. */
  function Inventories(shop: Shop): (invs: seq<seq<Item>>)
    ensures |invs| == |Choices(shop)|
    ensures forall k :: 0 <= k < |invs| ==> Purchase(shop, Choices(shop)[k]) && invs[k] == Buy(shop, Choices(shop)[k])
  {
    var cs := Choices(shop);
    forall k | 0 <= k < |cs| ensures Purchase(shop, cs[k]) {
      ChoicesExactly(shop, cs[k]);
    }
    seq(|cs|, k requires 0 <= k < |cs| && Purchase(shop, cs[k]) => Buy(shop, cs[k]))
  }

  /** Every purchase is among the enumerated inventories. */
  lemma InventoriesComplete(shop: Shop, c: Choice)
    requires Purchase(shop, c)
    ensures exists k :: 0 <= k < |Inventories(shop)| && Inventories(shop)[k] == Buy(shop, c)
  {
    ChoicesExactly(shop, c);
    var cs := Choices(shop);
    var k :| 0 <= k < |cs| && cs[k] == c;
    assert Inventories(shop)[k] == Buy(shop, c);
  }

  /** The smallest cost among the winning inventories of `invs`; `None` when none wins. */
  function CheapestWin(boss: Boss, invs: seq<seq<Item>>): (r: Option<int>)
    ensures r.None? <==> forall k :: 0 <= k < |invs| ==> !Wins(boss, invs[k])
    ensures r.Some? ==> exists k :: 0 <= k < |invs| && Wins(boss, invs[k]) && Total(invs[k], Cost) == r.value
    ensures r.Some? ==> forall k :: 0 <= k < |invs| && Wins(boss, invs[k]) ==> r.value <= Total(invs[k], Cost)
  {
    if invs == [] then None
    else
      var last := invs[|invs| - 1];
      var rest := CheapestWin(boss, invs[..|invs| - 1]);
      assert forall k :: 0 <= k < |invs| - 1 ==> invs[..|invs| - 1][k] == invs[k];
      if !Wins(boss, last) then rest
      else if rest.None? then Some(Total(last, Cost))
      else Some(Min(rest.value, Total(last, Cost)))
  }

  /** No enumerated inventory wins exactly when no purchase wins. */
  lemma NoWinningInventory(boss: Boss, shop: Shop)
    ensures (forall k :: 0 <= k < |Inventories(shop)| ==> !Wins(boss, Inventories(shop)[k])) <==>
      (forall c :: Purchase(shop, c) ==> !Wins(boss, Buy(shop, c)))
  {
    var invs := Inventories(shop);
    if forall k :: 0 <= k < |invs| ==> !Wins(boss, invs[k]) {
      forall c | Purchase(shop, c) ensures !Wins(boss, Buy(shop, c)) {
        InventoriesComplete(shop, c);
      }
    }
    if forall c :: Purchase(shop, c) ==> !Wins(boss, Buy(shop, c)) {
      forall k | 0 <= k < |invs| ensures !Wins(boss, invs[k]) {
        assert Purchase(shop, Choices(shop)[k]);
      }
    }
  }

  /** The cheapest winning purchase from `shop`, if any purchase wins. */
  function Cheapest(boss: Boss, shop: Shop): (r: Option<int>)
    ensures r.None? <==> forall c :: Purchase(shop, c) ==> !Wins(boss, Buy(shop, c))
    ensures r.Some? ==> exists c :: Purchase(shop, c) && Wins(boss, Buy(shop, c)) && Total(Buy(shop, c), Cost) == r.value
    ensures r.Some? ==> forall c :: Purchase(shop, c) && Wins(boss, Buy(shop, c)) ==> r.value <= Total(Buy(shop, c), Cost)
  {
    var invs := Inventories(shop);
    var r := CheapestWin(boss, invs);
    NoWinningInventory(boss, shop);
    if r.None? then r
    else
      var k :| 0 <= k < |invs| && Wins(boss, invs[k]) && Total(invs[k], Cost) == r.value;
      assert Purchase(shop, Choices(shop)[k]) && invs[k] == Buy(shop, Choices(shop)[k]);
      forall c | Purchase(shop, c) && Wins(boss, Buy(shop, c)) ensures r.value <= Total(Buy(shop, c), Cost) {
        InventoriesComplete(shop, c);
      }
      r
  }

  /** The answer for a boss: the cheapest winning purchase from the fixed shop. */
  function Solve1(boss: Boss): (r: Option<int>)
    ensures r.None? <==> forall c :: Purchase(NewShop(), c) ==> !Wins(boss, Buy(NewShop(), c))
    ensures r.Some? ==> exists c ::
      Purchase(NewShop(), c) && Wins(boss, Buy(NewShop(), c)) && Total(Buy(NewShop(), c), Cost) == r.value
    ensures r.Some? ==> forall c :: Purchase(NewShop(), c) && Wins(boss, Buy(NewShop(), c)) ==>
      r.value <= Total(Buy(NewShop(), c), Cost)
  {
    Cheapest(boss, NewShop())
  }
}
