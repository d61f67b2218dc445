/** Wizard simulator: a player who casts spells against a boss who only attacks.
    A game state is a value; `Successors` is one turn of play and `Solve1` is the
    breadth-first branch-and-bound search for the cheapest win. */
module Day22 {
  import opened Common

  datatype Actor = Player | Boss

  datatype GameState = OnGoing | Won | Lost

  /** The spells whose effect lasts several turns: they are the keys of the effect map. */
  datatype Effect = Shield | Poison | Recharge

  datatype Spell = MagicMissile | Drain | Timed(effect: Effect)

  /** The sentinel the search starts from and returns when no game is won (`i32::MAX`). */
  const IntMax: int := 0x7fff_ffff

  const MissileDamage: int := 4
  const DrainDamage: int := 2
  const DrainHeal: int := 2
  const ShieldArmor: int := 7
  const PoisonDamage: int := 3
  const RechargeMana: int := 101

  /** Mana price of a spell, as listed in the spell book. */
  function Cost(s: Spell): (c: int)
    ensures c >= 53
  {
    match s
    case MagicMissile => 53
    case Drain => 73
    case Timed(Shield) => 113
    case Timed(Poison) => 173
    case Timed(Recharge) => 229
  }

  /** Number of turns a timed spell stays active. */
  function Turns(e: Effect): (t: int)
    ensures 5 <= t <= 6
  {
    match e
    case Shield => 6
    case Poison => 6
    case Recharge => 5
  }

  /** The spell book: every spell exactly once, in the order the player tries them. */
  function NewBook(): (book: seq<Spell>)
    ensures |book| == 5
    ensures forall i, j :: 0 <= i < j < |book| ==> book[i] != book[j]
  {
    [MagicMissile, Drain, Timed(Shield), Timed(Poison), Timed(Recharge)]
  }

  datatype Game = Game(
    actor: Actor,
    mana: int,
    spentMana: int,
    playerHp: int,
    bossHp: int,
    bossDamage: int,
    book: seq<Spell>,
    effects: map<Effect, int>)

  /** Every active effect has a timer between 1 and its spell's duration. */
  predicate TimersValid(effects: map<Effect, int>)
  {
    forall e :: e in effects ==> 0 < effects[e] <= Turns(e)
  }

  /** The opening position: the player acts first with the given mana and hit points
      (500 and 50 in the puzzle), nothing spent and no effect active. */
  function NewGame(bossHp: int, bossDamage: int, mana: int, playerHp: int): (g: Game)
    ensures g.actor == Player && g.spentMana == 0 && g.effects == map[] && g.book == NewBook()
    ensures g.mana == mana && g.playerHp == playerHp
    ensures g.bossHp == bossHp && g.bossDamage == bossDamage
    ensures TimersValid(g.effects)
  {
    Game(Player, mana, 0, playerHp, bossHp, bossDamage, NewBook(), map[])
  }

  /** Classification of a game: still going, won (boss dead, player alive) or lost. */
  function State(g: Game): (s: GameState)
    ensures s == OnGoing <==> g.playerHp > 0 && g.bossHp > 0
    ensures s == Won <==> g.playerHp > 0 && g.bossHp <= 0
    ensures s == Lost <==> g.playerHp <= 0
  {
    if g.playerHp > 0 && g.bossHp > 0 then OnGoing
    else if g.playerHp > 0 then Won
    else Lost
  }

  /** What the active effects leave at the start of a turn: the player's mana, the
      player's armor for this turn and the boss's hit points. */
  datatype Resolution = Resolution(mana: int, armor: int, bossHp: int)

  function Resolve(g: Game): Resolution
  {
    Resolution(
      g.mana + (if Recharge in g.effects then RechargeMana else 0),
      if Shield in g.effects then ShieldArmor else 0,
      g.bossHp - (if Poison in g.effects then PoisonDamage else 0))
  }

  /** Lets every active effect act once, visiting the effect map in any order. */
  method ApplyEffects(g: Game) returns (r: Resolution)
    ensures r == Resolve(g)
  {
    var mana, armor, bossHp := g.mana, 0, g.bossHp;
    var pending := g.effects.Keys;
    while pending != {}
      invariant pending <= g.effects.Keys
      invariant mana == g.mana + (if Recharge in g.effects && Recharge !in pending then RechargeMana else 0)
      invariant armor == (if Shield in g.effects && Shield !in pending then ShieldArmor else 0)
      invariant bossHp == g.bossHp - (if Poison in g.effects && Poison !in pending then PoisonDamage else 0)
      decreases pending
    {
      var e :| e in pending;
      match e {
        case Shield => armor := ShieldArmor;
        case Poison => bossHp := bossHp - PoisonDamage;
        case Recharge => mana := mana + RechargeMana;
      }
      pending := pending - {e};
    }
    r := Resolution(mana, armor, bossHp);
  }

  /** Advances every timer by one turn and drops the effects that ended. The map is
      built one effect at a time: Dafny 4.11's encoding of a map comprehension over an
      empty map lets the verifier derive `false`. */
  function Tick(effects: map<Effect, int>): (r: map<Effect, int>)
    ensures forall e :: e in r <==> e in effects && effects[e] > 1
    ensures forall e :: e in r ==> r[e] == effects[e] - 1 && r[e] > 0
  {
    Advance(effects, Recharge, Advance(effects, Poison, Advance(effects, Shield, map[])))
  }

  /** Adds effect `e` with its advanced timer to `acc` when it is still running. */
  function Advance(effects: map<Effect, int>, e: Effect, acc: map<Effect, int>): (r: map<Effect, int>)
    ensures forall x :: x != e ==> (x in r <==> x in acc) && (x in acc ==> r[x] == acc[x])
    ensures e in r <==> e in acc || (e in effects && effects[e] > 1)
    ensures e in effects && effects[e] > 1 ==> r[e] == effects[e] - 1
    ensures e in r && !(e in effects && effects[e] > 1) ==> r[e] == acc[e]
  {
    if e in effects && effects[e] - 1 > 0 then acc[e := effects[e] - 1] else acc
  }

  /** A spell can be cast when the player can pay for it and its effect is not active. */
  predicate Castable(s: Spell, mana: int, effects: map<Effect, int>)
  {
    mana >= Cost(s) && !(s.Timed? && s.effect in effects)
  }

  /** The game after the player casts `s`, given the resolved mana and boss hit points
      and the already advanced effect timers. */
  function Cast(g: Game, s: Spell, mana: int, bossHp: int, effects: map<Effect, int>): (c: Game)
    ensures c.actor == Boss && c.bossDamage == g.bossDamage && c.book == g.book
    ensures c.mana == mana - Cost(s) && c.spentMana == g.spentMana + Cost(s)
  {
    match s
    case MagicMissile =>
      Game(Boss, mana - Cost(s), g.spentMana + Cost(s), g.playerHp, bossHp - MissileDamage, g.bossDamage, g.book, effects)
    case Drain =>
      Game(Boss, mana - Cost(s), g.spentMana + Cost(s), g.playerHp + DrainHeal, bossHp - DrainDamage, g.bossDamage, g.book, effects)
    case Timed(e) =>
      Game(Boss, mana - Cost(s), g.spentMana + Cost(s), g.playerHp, bossHp, g.bossDamage, g.book, effects[e := Turns(e)])
  }

  /** One successor per castable spell of `book`, in book order. */
  function PlayerTurns(g: Game, book: seq<Spell>, mana: int, bossHp: int, effects: map<Effect, int>): seq<Game>
  {
    if book == [] then []
    else
      (if Castable(book[0], mana, effects) then [Cast(g, book[0], mana, bossHp, effects)] else [])
      + PlayerTurns(g, book[1..], mana, bossHp, effects)
  }

  /** The boss's attack: at least one point of damage, reduced by the armor of a Shield
      that was active at the start of the turn. */
  function BossTurn(g: Game, r: Resolution, effects: map<Effect, int>): Game
  {
    Game(Player, r.mana, g.spentMana, g.playerHp - Max(1, g.bossDamage - r.armor), r.bossHp, g.bossDamage, g.book, effects)
  }

  /** One turn of play: effects act; if they kill the boss the game ends as it is;
      otherwise timers advance and the acting side moves. */
  function Successors(g: Game): seq<Game>
  {
    var r := Resolve(g);
    if r.bossHp <= 0 then [g.(bossHp := r.bossHp)]
    else
      var effects := Tick(g.effects);
      match g.actor
      case Player => PlayerTurns(g, g.book, r.mana, r.bossHp, effects)
      case Boss => [BossTurn(g, r, effects)]
  }

  method Play(g: Game) returns (games: seq<Game>)
    ensures games == Successors(g)
  {
    var r := ApplyEffects(g);
    if r.bossHp <= 0 {
      return [g.(bossHp := r.bossHp)];
    }
    var effects := Tick(g.effects);
    match g.actor
    case Player => games := PlayerTurns(g, g.book, r.mana, r.bossHp, effects);
    case Boss => games := [BossTurn(g, r, effects)];
  }

  // ---------------------------------------------------------------------------
  // Properties of one turn

  lemma {:induction false} PlayerTurnsMembers(g: Game, book: seq<Spell>, mana: int, bossHp: int, effects: map<Effect, int>)
    ensures forall c :: c in PlayerTurns(g, book, mana, bossHp, effects) <==>
      exists s :: s in book && Castable(s, mana, effects) && c == Cast(g, s, mana, bossHp, effects)
  {
    if book != [] {
      PlayerTurnsMembers(g, book[1..], mana, bossHp, effects);
      assert forall s :: s in book <==> s == book[0] || s in book[1..];
    }
  }

  /** On the player's turn (when effects did not already kill the boss) the successors
      are exactly the games obtained by casting a castable spell. */
  lemma PlayerMoves(g: Game)
    requires g.actor == Player && Resolve(g).bossHp > 0
    ensures forall c :: c in Successors(g) <==>
      exists s :: s in g.book && Castable(s, Resolve(g).mana, Tick(g.effects)) &&
                  c == Cast(g, s, Resolve(g).mana, Resolve(g).bossHp, Tick(g.effects))
  {
    PlayerTurnsMembers(g, g.book, Resolve(g).mana, Resolve(g).bossHp, Tick(g.effects));
  }

  lemma InBook(s: Spell)
    ensures s in NewBook()
  {
    var book := NewBook();
    match s
    case MagicMissile => assert book[0] == s;
    case Drain => assert book[1] == s;
    case Timed(Shield) => assert book[2] == s;
    case Timed(Poison) => assert book[3] == s;
    case Timed(Recharge) => assert book[4] == s;
  }

  /** A player with no affordable spell whose effect is not running has no move. */
  lemma NoMoveNoSuccessor(g: Game)
    requires g.actor == Player && Resolve(g).bossHp > 0 && g.book == NewBook()
    ensures Successors(g) == [] <==> forall s :: !Castable(s, Resolve(g).mana, Tick(g.effects))
  {
    PlayerMoves(g);
    if Successors(g) != [] {
      assert Successors(g)[0] in Successors(g);
    }
    if exists s :: Castable(s, Resolve(g).mana, Tick(g.effects)) {
      var s :| Castable(s, Resolve(g).mana, Tick(g.effects));
      InBook(s);
      var c := Cast(g, s, Resolve(g).mana, Resolve(g).bossHp, Tick(g.effects));
      assert c in Successors(g);
    }
  }

  /** Spent mana grows by the price of the cast spell on the player's turn and is
      unchanged on the boss's turn, so it never decreases. */
  lemma SpentManaGrows(g: Game)
    ensures forall c :: c in Successors(g) ==> g.spentMana <= c.spentMana
    ensures g.actor == Player && Resolve(g).bossHp > 0 ==>
      forall c :: c in Successors(g) ==> exists s :: c.spentMana == g.spentMana + Cost(s)
    ensures g.actor == Boss || Resolve(g).bossHp <= 0 ==>
      forall c :: c in Successors(g) ==> c.spentMana == g.spentMana
  {
    if g.actor == Player && Resolve(g).bossHp > 0 {
      PlayerMoves(g);
    }
  }

  /** A spell is only cast when the mana left after Recharge pays for it, so mana never
      goes negative. */
  lemma ManaNeverNegative(g: Game)
    requires g.mana >= 0
    ensures forall c :: c in Successors(g) ==> c.mana >= 0
  {
    if g.actor == Player && Resolve(g).bossHp > 0 {
      PlayerMoves(g);
    }
  }

  /** Timers stay between 1 and the spell's duration: expired effects are removed and a
      freshly cast one starts at its full duration. */
  lemma TimersStayValid(g: Game)
    requires TimersValid(g.effects)
    ensures forall c :: c in Successors(g) ==> TimersValid(c.effects)
  {
    if g.actor == Player && Resolve(g).bossHp > 0 {
      PlayerMoves(g);
      forall c | c in Successors(g) ensures TimersValid(c.effects) {
        var s :| s in g.book && Castable(s, Resolve(g).mana, Tick(g.effects)) &&
                 c == Cast(g, s, Resolve(g).mana, Resolve(g).bossHp, Tick(g.effects));
      }
    }
  }

  /** An effect whose timer reaches 0 this turn may be cast again at once. */
  lemma RecastOnExpiry(g: Game, e: Effect)
    requires g.actor == Player && Resolve(g).bossHp > 0 && g.book == NewBook()
    requires e in g.effects && g.effects[e] == 1
    requires Resolve(g).mana >= Cost(Timed(e))
    ensures exists c :: c in Successors(g) && e in c.effects && c.effects[e] == Turns(e)
  {
    PlayerMoves(g);
    InBook(Timed(e));
    var c := Cast(g, Timed(e), Resolve(g).mana, Resolve(g).bossHp, Tick(g.effects));
    assert Castable(Timed(e), Resolve(g).mana, Tick(g.effects));
    assert c in Successors(g);
  }

  /** The boss removes max(1, damage - armor) hit points, armor being 7 when Shield was
      active at the start of the turn; mana only gains Recharge, the boss only loses
      Poison's 3 hit points, and spent mana, the boss's damage and the book are kept. */
  lemma BossAttack(g: Game)
    requires g.actor == Boss && Resolve(g).bossHp > 0
    ensures |Successors(g)| == 1
    ensures var c := Successors(g)[0];
      && c.actor == Player
      && c.playerHp == g.playerHp - Max(1, g.bossDamage - (if Shield in g.effects then 7 else 0))
      && c.playerHp < g.playerHp
      && c.mana == g.mana + (if Recharge in g.effects then 101 else 0)
      && c.spentMana == g.spentMana
      && c.effects == Tick(g.effects)
      && c.bossHp == g.bossHp - (if Poison in g.effects then 3 else 0)
      && c.bossDamage == g.bossDamage
      && c.book == g.book
  {
  }

  /** If Poison alone kills the boss the turn ends there: a single game, won when the
      player is alive, with nothing else changed. */
  lemma EffectsWin(g: Game)
    requires Resolve(g).bossHp <= 0
    ensures |Successors(g)| == 1
    ensures Successors(g)[0] == g.(bossHp := g.bossHp - (if Poison in g.effects then 3 else 0))
    ensures g.playerHp > 0 ==> State(Successors(g)[0]) == Won
  {
  }

  /** Turns alternate whenever the game goes on past the effects. */
  lemma TurnsAlternate(g: Game)
    requires Resolve(g).bossHp > 0
    ensures forall c :: c in Successors(g) ==> c.actor != g.actor
  {
    if g.actor == Player {
      PlayerMoves(g);
    }
  }

  // ---------------------------------------------------------------------------
  // The search

  /** `g` is produced from `q` by `depth + 1` applications of `next`, every
      intermediate game going on. The search is stated over any successor function;
      `Solve1` instantiates it with `Successors`. */
  ghost predicate Leads(next: Game -> seq<Game>, q: Game, g: Game, depth: nat)
    decreases depth
  {
    if depth == 0 then g in next(q)
    else exists c :: c in next(q) && State(c) == OnGoing && Leads(next, c, g, depth - 1)
  }

  ghost predicate Reachable(next: Game -> seq<Game>, q: Game, g: Game)
  {
    exists depth: nat :: Leads(next, q, g, depth)
  }

  /** `next` never lowers the spent mana. */
  ghost predicate Monotone(next: Game -> seq<Game>)
  {
    forall x, c :: c in next(x) ==> x.spentMana <= c.spentMana
  }

  lemma SuccessorsMonotone()
    ensures Monotone(Successors)
  {
    forall x {
      SpentManaGrows(x);
    }
  }

  /** Spent mana never decreases along play. */
  lemma {:induction false} LeadsSpent(next: Game -> seq<Game>, q: Game, g: Game, depth: nat)
    requires Monotone(next) && Leads(next, q, g, depth)
    ensures q.spentMana <= g.spentMana
    decreases depth
  {
    if depth > 0 {
      var c :| c in next(q) && State(c) == OnGoing && Leads(next, c, g, depth - 1);
      LeadsSpent(next, c, g, depth - 1);
    }
  }

  lemma {:induction false} LeadsExtend(next: Game -> seq<Game>, a: Game, q: Game, c: Game, depth: nat)
    requires Leads(next, a, q, depth) && State(q) == OnGoing && c in next(q)
    ensures Leads(next, a, c, depth + 1)
    decreases depth
  {
    if depth > 0 {
      var b :| b in next(a) && State(b) == OnGoing && Leads(next, b, q, depth - 1);
      LeadsExtend(next, b, q, c, depth - 1);
    }
  }

  /** A queued game is the root or an ongoing game reachable from it. */
  ghost predicate Origin(next: Game -> seq<Game>, root: Game, q: Game)
  {
    q == root || (Reachable(next, root, q) && State(q) == OnGoing)
  }

  lemma OriginChild(next: Game -> seq<Game>, root: Game, q: Game, c: Game)
    requires Origin(next, root, q) && c in next(q)
    ensures Reachable(next, root, c)
  {
    if q == root {
      assert Leads(next, root, c, 0);
    } else {
      var d: nat :| Leads(next, root, q, d);
      LeadsExtend(next, root, q, c, d);
    }
  }

  /** Some game reachable from the root is won at cost `m`. */
  ghost predicate Witnessed(next: Game -> seq<Game>, root: Game, m: int)
  {
    exists g :: Reachable(next, root, g) && State(g) == Won && g.spentMana == m
  }

  /** Some queued game can still lead to `g`. */
  ghost predicate Covered(next: Game -> seq<Game>, queue: seq<Game>, g: Game)
  {
    exists q :: q in queue && Reachable(next, q, g)
  }

  /** Expanding the head of the queue keeps every reachable win accounted for: it is
      either no cheaper than the best known cost or still reachable from the queue. */
  lemma CoverAfterExpansion(next: Game -> seq<Game>, q: Game, rest: seq<Game>, queue: seq<Game>, minMana: int, g: Game)
    requires Monotone(next)
    requires forall c :: c in next(q) && State(c) == Won ==> minMana <= c.spentMana
    requires forall c :: c in next(q) && State(c) == OnGoing ==> c in queue || minMana <= c.spentMana
    requires forall x :: x in rest ==> x in queue
    requires Covered(next, [q] + rest, g) && State(g) == Won
    ensures minMana <= g.spentMana || Covered(next, queue, g)
  {
    var x :| x in [q] + rest && Reachable(next, x, g);
    if x in rest {
      assert x in queue;
    } else {
      var d: nat :| Leads(next, q, g, d);
      if d > 0 {
        var c :| c in next(q) && State(c) == OnGoing && Leads(next, c, g, d - 1);
        if c in queue {
          assert Reachable(next, c, g);
        } else {
          LeadsSpent(next, c, g, d - 1);
        }
      }
    }
  }

  /** After one expansion, every reachable win is still either no cheaper than the best
      known cost or reachable from the new queue. */
  lemma CoverQueue(next: Game -> seq<Game>, root: Game, q: Game, rest: seq<Game>, queue: seq<Game>,
                   best: int, minMana: int)
    requires Monotone(next)
    requires forall c :: c in next(q) && State(c) == Won ==> minMana <= c.spentMana
    requires forall c :: c in next(q) && State(c) == OnGoing ==> c in queue || minMana <= c.spentMana
    requires forall x :: x in rest ==> x in queue
    requires minMana <= best
    requires forall g :: Reachable(next, root, g) && State(g) == Won ==>
      best <= g.spentMana || Covered(next, [q] + rest, g)
    ensures forall g :: Reachable(next, root, g) && State(g) == Won ==>
      minMana <= g.spentMana || Covered(next, queue, g)
  {
    forall g | Reachable(next, root, g) && State(g) == Won
      ensures minMana <= g.spentMana || Covered(next, queue, g)
    {
      if g.spentMana < best {
        CoverAfterExpansion(next, q, rest, queue, minMana, g);
      }
    }
  }

  /** A reachable win lowers the best known cost to one that is still witnessed. */
  lemma WitnessedMin(next: Game -> seq<Game>, root: Game, m: int, g: Game)
    requires m == IntMax || Witnessed(next, root, m)
    requires Reachable(next, root, g) && State(g) == Won
    ensures Min(m, g.spentMana) == IntMax || Witnessed(next, root, Min(m, g.spentMana))
  {
  }

  /** Expands one queued game: every won successor lowers the best known cost, and
      every ongoing successor cheaper than that cost joins the back of the queue. */
  method Expand(ghost root: Game, q: Game, queue: seq<Game>, minMana: int)
    returns (queue': seq<Game>, minMana': int)
    requires Origin(Successors, root, q)
    requires forall x :: x in queue ==> Origin(Successors, root, x)
    requires minMana <= IntMax
    requires minMana == IntMax || Witnessed(Successors, root, minMana)
    ensures minMana' <= minMana
    ensures forall x :: x in queue ==> x in queue'
    ensures forall x :: x in queue' ==> Origin(Successors, root, x)
    ensures minMana' == IntMax || Witnessed(Successors, root, minMana')
    ensures forall c :: c in Successors(q) && State(c) == Won ==> minMana' <= c.spentMana
    ensures forall c :: c in Successors(q) && State(c) == OnGoing ==> c in queue' || minMana' <= c.spentMana
    ensures forall x :: x in queue' ==>
      x in queue || (x in Successors(q) && State(x) == OnGoing && x.spentMana < minMana)
  {
    var games := Play(q);
    queue', minMana' := queue, minMana;
    var j := 0;
    while j < |games|
      invariant 0 <= j <= |games|
      invariant minMana' <= minMana
      invariant forall x :: x in queue ==> x in queue'
      invariant forall x :: x in queue' ==> Origin(Successors, root, x)
      invariant minMana' == IntMax || Witnessed(Successors, root, minMana')
      invariant forall k :: 0 <= k < j ==> Accounted(games[k], queue', minMana')
      invariant OnlyCheaper(queue', queue, games[..j], minMana)
    {
      OriginChild(Successors, root, q, games[j]);
      ghost var (queue0, minMana0) := (queue', minMana');
      queue', minMana' := Consider(root, games[j], queue', minMana');
      OnlyCheaperLater(queue, games, j, minMana, queue0, minMana0, queue');
      QueuedOrigin(root, queue0, games[j], queue');
      forall k | 0 <= k < j + 1
        ensures Accounted(games[k], queue', minMana')
      {
        if k < j {
          AccountedLater(games[k], queue0, minMana0, queue', minMana');
        }
      }
      j := j + 1;
    }
    assert games[..j] == games;
  }

  /** Queuing an ongoing reachable game keeps every queued game an origin. */
  lemma QueuedOrigin(root: Game, queue0: seq<Game>, g: Game, queue1: seq<Game>)
    requires forall x :: x in queue0 ==> Origin(Successors, root, x)
    requires Reachable(Successors, root, g)
    requires forall x :: x in queue1 ==> x in queue0 || (x == g && State(g) == OnGoing)
    ensures forall x :: x in queue1 ==> Origin(Successors, root, x)
  {
  }

  /** Whatever `queue'` holds beyond `queue` is an ongoing game of `games` cheaper than
      `bound`. */
  predicate OnlyCheaper(queue': seq<Game>, queue: seq<Game>, games: seq<Game>, bound: int)
  {
    forall x :: x in queue' ==>
      x in queue || (x in games && State(x) == OnGoing && x.spentMana < bound)
  }

  /** Considering one more successor, against a best cost no higher than `bound`, keeps
      the queue's new entries cheaper than `bound`. */
  lemma OnlyCheaperLater(queue: seq<Game>, games: seq<Game>, j: nat, bound: int,
                         queue0: seq<Game>, minMana0: int, queue1: seq<Game>)
    requires j < |games| && minMana0 <= bound
    requires OnlyCheaper(queue0, queue, games[..j], bound)
    requires forall x :: x in queue1 ==>
      x in queue0 || (x == games[j] && State(x) == OnGoing && x.spentMana < minMana0)
    ensures OnlyCheaper(queue1, queue, games[..j + 1], bound)
  {
    assert games[..j + 1] == games[..j] + [games[j]];
  }

  /** A successor is accounted for when, if won, it is no cheaper than the best known
      cost and, if ongoing, it is queued or no cheaper than that cost. */
  predicate Accounted(g: Game, queue: seq<Game>, minMana: int)
  {
    (State(g) == Won ==> minMana <= g.spentMana) &&
    (State(g) == OnGoing ==> g in queue || minMana <= g.spentMana)
  }

  /** A growing queue and a falling best cost keep a successor accounted for. */
  lemma AccountedLater(g: Game, queue: seq<Game>, minMana: int, queue': seq<Game>, minMana': int)
    requires Accounted(g, queue, minMana)
    requires forall x :: x in queue ==> x in queue'
    requires minMana' <= minMana
    ensures Accounted(g, queue', minMana')
  {
  }

  /** Looks at one successor: a win lowers the best known cost, an ongoing game cheaper
      than that cost joins the back of the queue, a loss is dropped. */
  method Consider(ghost root: Game, g: Game, queue: seq<Game>, minMana: int)
    returns (queue': seq<Game>, minMana': int)
    requires Reachable(Successors, root, g)
    requires minMana <= IntMax
    requires minMana == IntMax || Witnessed(Successors, root, minMana)
    ensures minMana' <= minMana
    ensures forall x :: x in queue ==> x in queue'
    ensures forall x :: x in queue' ==> x in queue || (x == g && State(g) == OnGoing && g.spentMana < minMana)
    ensures minMana' == IntMax || Witnessed(Successors, root, minMana')
    ensures Accounted(g, queue', minMana')
  {
    queue', minMana' := queue, minMana;
    match State(g) {
      case OnGoing =>
        if g.spentMana < minMana {
          queue' := queue + [g];
        }
      case Won =>
        WitnessedMin(Successors, root, minMana, g);
        minMana' := Min(minMana, g.spentMana);
      case Lost =>
    }
  }

  /** Breadth-first branch and bound: expands queued games in FIFO order, records the
      cheapest won game and only queues ongoing games cheaper than the best win so far.
      `fuel` bounds the number of expansions; `exhausted` reports that it ran out. */
  method Solve1(bossHp: int, bossDamage: int, mana: int, playerHp: int, fuel: nat)
    returns (minMana: int, exhausted: bool)
    ensures minMana <= IntMax
    ensures minMana == IntMax || Witnessed(Successors, NewGame(bossHp, bossDamage, mana, playerHp), minMana)
    ensures !exhausted ==>
      forall g :: Reachable(Successors, NewGame(bossHp, bossDamage, mana, playerHp), g) && State(g) == Won ==>
        minMana <= g.spentMana
    ensures !exhausted && minMana != IntMax ==> Cheapest(NewGame(bossHp, bossDamage, mana, playerHp), minMana)
  {
    SuccessorsMonotone();
    var root := NewGame(bossHp, bossDamage, mana, playerHp);
    var queue := [root];
    minMana := IntMax;
    var steps := fuel;
    while queue != [] && steps > 0
      invariant minMana <= IntMax
      invariant forall x :: x in queue ==> Origin(Successors, root, x)
      invariant minMana == IntMax || Witnessed(Successors, root, minMana)
      invariant forall g :: Reachable(Successors, root, g) && State(g) == Won ==>
        minMana <= g.spentMana || Covered(Successors, queue, g)
      decreases steps
    {
      var q := queue[0];
      var rest := queue[1..];
      assert queue == [q] + rest;
      ghost var best := minMana;
      queue, minMana := Expand(root, q, rest, minMana);
      CoverQueue(Successors, root, q, rest, queue, best, minMana);
      steps := steps - 1;
    }
    exhausted := queue != [];
  }

  // ---------------------------------------------------------------------------
  // Scenarios

  /** On the player's turn, every castable spell of the book gives a successor. */
  lemma CastStep(g: Game, s: Spell)
    requires g.actor == Player && Resolve(g).bossHp > 0 && s in g.book
    requires Castable(s, Resolve(g).mana, Tick(g.effects))
    ensures Cast(g, s, Resolve(g).mana, Resolve(g).bossHp, Tick(g.effects)) in Successors(g)
  {
    PlayerMoves(g);
  }

  /** A successor of `q` is reachable from it. */
  lemma ReachOne(q: Game, w: Game)
    requires w in Successors(q)
    ensures Reachable(Successors, q, w)
  {
    assert Leads(Successors, q, w, 0);
  }

  /** What an ongoing successor of `q` reaches, `q` reaches. */
  lemma ReachBack(q: Game, c: Game, w: Game)
    requires c in Successors(q) && State(c) == OnGoing && Reachable(Successors, c, w)
    ensures Reachable(Successors, q, w)
  {
    var depth: nat :| Leads(Successors, c, w, depth);
    assert Leads(Successors, q, w, depth + 1);
  }

  /** A won game reachable from `root` witnesses its spent mana. */
  lemma WinWitness(root: Game, w: Game)
    requires Reachable(Successors, root, w) && State(w) == Won
    ensures Witnessed(Successors, root, w.spentMana)
  {
  }

  /** On the boss's turn, when the effects leave the boss alive, the attack is the
      successor. */
  lemma AttackStep(g: Game, d: Game)
    requires g.actor == Boss && Resolve(g).bossHp > 0
    requires d == BossTurn(g, Resolve(g), Tick(g.effects))
    ensures d in Successors(g)
  {
  }

  /** Boss at 13 hit points and 8 damage, player at 10 hit points and 250 mana: Poison,
      the boss's attack leaves the player at 2, Magic Missile, and Poison's third tick
      kills the boss, for 173 + 53 = 226 mana. */
  lemma Sample226()
    ensures Witnessed(Successors, NewGame(13, 8, 250, 10), 226)
  {
    var book := NewBook();
    var g0 := NewGame(13, 8, 250, 10);
    var g1 := Game(Boss, 77, 173, 10, 13, 8, book, map[Poison := 6]);
    var g2 := Game(Player, 77, 173, 2, 10, 8, book, map[Poison := 5]);
    var g3 := Game(Boss, 24, 226, 2, 3, 8, book, map[Poison := 4]);
    var won := g3.(bossHp := 0);
    assert won in Successors(g3);
    ReachOne(g3, won);
    Sample226Missile(g2, g3);
    ReachBack(g2, g3, won);
    Sample226Attack(g1, g2);
    ReachBack(g1, g2, won);
    Sample226Poison(g0, g1);
    ReachBack(g0, g1, won);
    WinWitness(g0, won);
  }

  lemma Sample226Poison(g0: Game, g1: Game)
    requires g0 == NewGame(13, 8, 250, 10)
    requires g1 == Game(Boss, 77, 173, 10, 13, 8, NewBook(), map[Poison := 6])
    ensures g1 in Successors(g0)
  {
    InBook(Timed(Poison));
    CastStep(g0, Timed(Poison));
  }

  lemma Sample226Attack(g1: Game, g2: Game)
    requires g1 == Game(Boss, 77, 173, 10, 13, 8, NewBook(), map[Poison := 6])
    requires g2 == Game(Player, 77, 173, 2, 10, 8, NewBook(), map[Poison := 5])
    ensures g2 in Successors(g1)
  {
    assert Tick(g1.effects) == g2.effects;
    AttackStep(g1, g2);
  }

  lemma Sample226Missile(g2: Game, g3: Game)
    requires g2 == Game(Player, 77, 173, 2, 10, 8, NewBook(), map[Poison := 5])
    requires g3 == Game(Boss, 24, 226, 2, 3, 8, NewBook(), map[Poison := 4])
    ensures g3 in Successors(g2)
  {
    InBook(MagicMissile);
    assert Tick(g2.effects) == g3.effects;
    CastStep(g2, MagicMissile);
  }

  /** Boss at 14 hit points and 8 damage, player at 10 hit points and 250 mana: Recharge,
      Shield, Drain, Poison and Magic Missile, with the boss's attacks in between, and
      Poison's third tick kills the boss, for 229 + 113 + 73 + 173 + 53 = 641 mana. */
  lemma Sample641()
    ensures Witnessed(Successors, NewGame(14, 8, 250, 10), 641)
  {
    var g0 := NewGame(14, 8, 250, 10);
    var g4 := Game(Player, 211, 342, 1, 14, 8, NewBook(), map[Recharge := 2, Shield := 5]);
    var won := Game(Boss, 114, 641, 1, -1, 8, NewBook(), map[Poison := 4]);
    Sample641Ending(g4, won);
    Sample641Opening(g0, g4, won);
    WinWitness(g0, won);
  }

  /** Recharge and Shield, each followed by the boss's attack. */
  lemma Sample641Opening(g0: Game, g4: Game, won: Game)
    requires g0 == NewGame(14, 8, 250, 10)
    requires g4 == Game(Player, 211, 342, 1, 14, 8, NewBook(), map[Recharge := 2, Shield := 5])
    requires Reachable(Successors, g4, won)
    ensures Reachable(Successors, g0, won)
  {
    var book := NewBook();
    var g1 := Game(Boss, 21, 229, 10, 14, 8, book, map[Recharge := 5]);
    var g2 := Game(Player, 122, 229, 2, 14, 8, book, map[Recharge := 4]);
    var g3 := Game(Boss, 110, 342, 2, 14, 8, book, map[Recharge := 3, Shield := 6]);
    Sample641Step3(g3, g4);
    ReachBack(g3, g4, won);
    Sample641Step2(g2, g3);
    ReachBack(g2, g3, won);
    Sample641Step1(g1, g2);
    ReachBack(g1, g2, won);
    Sample641Step0(g0, g1);
    ReachBack(g0, g1, won);
  }

  /** Drain, Poison and Magic Missile, with the boss's attacks in between, until Poison
      kills the boss. */
  lemma Sample641Ending(g4: Game, won: Game)
    requires g4 == Game(Player, 211, 342, 1, 14, 8, NewBook(), map[Recharge := 2, Shield := 5])
    requires won == Game(Boss, 114, 641, 1, -1, 8, NewBook(), map[Poison := 4])
    ensures Reachable(Successors, g4, won)
  {
    var book := NewBook();
    var g5 := Game(Boss, 239, 415, 3, 12, 8, book, map[Recharge := 1, Shield := 4]);
    var g6 := Game(Player, 340, 415, 2, 12, 8, book, map[Shield := 3]);
    var g7 := Game(Boss, 167, 588, 2, 12, 8, book, map[Shield := 2, Poison := 6]);
    var g8 := Game(Player, 167, 588, 1, 9, 8, book, map[Shield := 1, Poison := 5]);
    var g9 := Game(Boss, 114, 641, 1, 2, 8, book, map[Poison := 4]);
    assert won in Successors(g9);
    ReachOne(g9, won);
    Sample641Step8(g8, g9);
    ReachBack(g8, g9, won);
    Sample641Step7(g7, g8);
    ReachBack(g7, g8, won);
    Sample641Step6(g6, g7);
    ReachBack(g6, g7, won);
    Sample641Step5(g5, g6);
    ReachBack(g5, g6, won);
    Sample641Step4(g4, g5);
    ReachBack(g4, g5, won);
  }

  lemma Sample641Step0(g0: Game, g1: Game)
    requires g0 == NewGame(14, 8, 250, 10)
    requires g1 == Game(Boss, 21, 229, 10, 14, 8, NewBook(), map[Recharge := 5])
    ensures g1 in Successors(g0)
  {
    InBook(Timed(Recharge));
    CastStep(g0, Timed(Recharge));
  }

  lemma Sample641Step1(g1: Game, g2: Game)
    requires g1 == Game(Boss, 21, 229, 10, 14, 8, NewBook(), map[Recharge := 5])
    requires g2 == Game(Player, 122, 229, 2, 14, 8, NewBook(), map[Recharge := 4])
    ensures g2 in Successors(g1)
  {
    assert Tick(g1.effects) == g2.effects;
    AttackStep(g1, g2);
  }

  lemma Sample641Step2(g2: Game, g3: Game)
    requires g2 == Game(Player, 122, 229, 2, 14, 8, NewBook(), map[Recharge := 4])
    requires g3 == Game(Boss, 110, 342, 2, 14, 8, NewBook(), map[Recharge := 3, Shield := 6])
    ensures g3 in Successors(g2)
  {
    InBook(Timed(Shield));
    assert Tick(g2.effects) == map[Recharge := 3];
    CastStep(g2, Timed(Shield));
  }

  lemma Sample641Step3(g3: Game, g4: Game)
    requires g3 == Game(Boss, 110, 342, 2, 14, 8, NewBook(), map[Recharge := 3, Shield := 6])
    requires g4 == Game(Player, 211, 342, 1, 14, 8, NewBook(), map[Recharge := 2, Shield := 5])
    ensures g4 in Successors(g3)
  {
    assert Tick(g3.effects) == g4.effects;
    AttackStep(g3, g4);
  }

  lemma Sample641Step4(g4: Game, g5: Game)
    requires g4 == Game(Player, 211, 342, 1, 14, 8, NewBook(), map[Recharge := 2, Shield := 5])
    requires g5 == Game(Boss, 239, 415, 3, 12, 8, NewBook(), map[Recharge := 1, Shield := 4])
    ensures g5 in Successors(g4)
  {
    InBook(Drain);
    assert Tick(g4.effects) == g5.effects;
    CastStep(g4, Drain);
  }

  lemma Sample641Step5(g5: Game, g6: Game)
    requires g5 == Game(Boss, 239, 415, 3, 12, 8, NewBook(), map[Recharge := 1, Shield := 4])
    requires g6 == Game(Player, 340, 415, 2, 12, 8, NewBook(), map[Shield := 3])
    ensures g6 in Successors(g5)
  {
    assert Tick(g5.effects) == g6.effects;
    AttackStep(g5, g6);
  }

  lemma Sample641Step6(g6: Game, g7: Game)
    requires g6 == Game(Player, 340, 415, 2, 12, 8, NewBook(), map[Shield := 3])
    requires g7 == Game(Boss, 167, 588, 2, 12, 8, NewBook(), map[Shield := 2, Poison := 6])
    ensures g7 in Successors(g6)
  {
    InBook(Timed(Poison));
    assert Tick(g6.effects) == map[Shield := 2];
    CastStep(g6, Timed(Poison));
  }

  lemma Sample641Step7(g7: Game, g8: Game)
    requires g7 == Game(Boss, 167, 588, 2, 12, 8, NewBook(), map[Shield := 2, Poison := 6])
    requires g8 == Game(Player, 167, 588, 1, 9, 8, NewBook(), map[Shield := 1, Poison := 5])
    ensures g8 in Successors(g7)
  {
    assert Tick(g7.effects) == g8.effects;
    AttackStep(g7, g8);
  }

  lemma Sample641Step8(g8: Game, g9: Game)
    requires g8 == Game(Player, 167, 588, 1, 9, 8, NewBook(), map[Shield := 1, Poison := 5])
    requires g9 == Game(Boss, 114, 641, 1, 2, 8, NewBook(), map[Poison := 4])
    ensures g9 in Successors(g8)
  {
    InBook(MagicMissile);
    assert Tick(g8.effects) == g9.effects;
    CastStep(g8, MagicMissile);
  }

  // ---------------------------------------------------------------------------
  // A weaker boss is never dearer to beat

  /** The same game against a boss with `d` fewer hit points. */
  function Weakened(g: Game, d: nat): Game
  {
    g.(bossHp := g.bossHp - d)
  }

  /** While the weakened boss survives the effects, every turn of play against the
      stronger boss is played the same way against the weaker one: only the boss's hit
      points differ, by `d`. */
  lemma StepWeakened(q: Game, c: Game, d: nat)
    requires c in Successors(q) && Resolve(Weakened(q, d)).bossHp > 0
    ensures Weakened(c, d) in Successors(Weakened(q, d))
  {
    if q.actor == Player {
      CastWeakened(q, c, d);
    }
  }

  lemma CastWeakened(q: Game, c: Game, d: nat)
    requires q.actor == Player
    requires c in Successors(q) && Resolve(Weakened(q, d)).bossHp > 0
    ensures Weakened(c, d) in Successors(Weakened(q, d))
  {
    var low := Weakened(q, d);
    PlayerMoves(q);
    var s :| s in q.book && Castable(s, Resolve(q).mana, Tick(q.effects)) &&
             c == Cast(q, s, Resolve(q).mana, Resolve(q).bossHp, Tick(q.effects));
    CastCommutes(q, s, Resolve(q).mana, Resolve(q).bossHp, Tick(q.effects), d);
    CastStep(low, s);
  }

  /** Casting against the weakened boss gives the weakened cast. */
  lemma CastCommutes(g: Game, s: Spell, mana: int, bossHp: int, effects: map<Effect, int>, d: nat)
    ensures Cast(Weakened(g, d), s, mana, bossHp - d, effects) == Weakened(Cast(g, s, mana, bossHp, effects), d)
  {
  }

  /** When the effects kill the weakened boss at once, that win costs nothing more. */
  lemma DiesSooner(q: Game, d: nat)
    requires q.playerHp > 0 && Resolve(Weakened(q, d)).bossHp <= 0
    ensures Witnessed(Successors, Weakened(q, d), q.spentMana)
  {
    var low := Weakened(q, d);
    var e := low.(bossHp := Resolve(low).bossHp);
    assert e in Successors(low);
    ReachOne(low, e);
    WinWitness(low, e);
  }

  /** A won successor witnesses its own cost. */
  lemma WonChild(q: Game, c: Game)
    requires c in Successors(q) && State(c) == Won
    ensures Witnessed(Successors, q, c.spentMana)
  {
    ReachOne(q, c);
    WinWitness(q, c);
  }

  /** A cost witnessed from an ongoing successor is witnessed from its parent. */
  lemma WitnessBack(q: Game, c: Game, m: int)
    requires c in Successors(q) && State(c) == OnGoing && Witnessed(Successors, c, m)
    ensures Witnessed(Successors, q, m)
  {
    var w :| Reachable(Successors, c, w) && State(w) == Won && w.spentMana == m;
    ReachBack(q, c, w);
    WinWitness(q, w);
  }

  /** Along play, the mana spent never drops. */
  lemma PlaySpends(q: Game, w: Game, depth: nat)
    requires Leads(Successors, q, w, depth)
    ensures q.spentMana <= w.spentMana
  {
    SuccessorsMonotone();
    LeadsSpent(Successors, q, w, depth);
  }

  /** A win reached from `q` gives a win no dearer from the weakened `q`: the weakened
      boss follows the same line of play, or dies sooner, before more mana is spent. */
  lemma {:induction false} LeadsWeakened(q: Game, w: Game, d: nat, depth: nat)
    requires q.playerHp > 0 && Leads(Successors, q, w, depth) && State(w) == Won
    ensures exists m :: m <= w.spentMana && Witnessed(Successors, Weakened(q, d), m)
    decreases depth
  {
    var low := Weakened(q, d);
    if Resolve(low).bossHp <= 0 {
      DiesSooner(q, d);
      PlaySpends(q, w, depth);
    } else if depth == 0 {
      StepWeakened(q, w, d);
      WonChild(low, Weakened(w, d));
    } else {
      var c :| c in Successors(q) && State(c) == OnGoing && Leads(Successors, c, w, depth - 1);
      StepWeakened(q, c, d);
      var c' := Weakened(c, d);
      if State(c') == OnGoing {
        LeadsWeakened(c, w, d, depth - 1);
        var m :| m <= w.spentMana && Witnessed(Successors, c', m);
        WitnessBack(low, c', m);
      } else {
        WonChild(low, c');
        PlaySpends(c, w, depth - 1);
      }
    }
  }

  /** Whatever a win costs against a boss, some win against the same boss with `d`
      fewer hit points costs no more. The player must start alive: Drain could otherwise
      revive a player the weaker boss's earlier death leaves dead. */
  lemma WeakerBossNoDearer(bossHp: int, d: nat, bossDamage: int, mana: int, playerHp: int, m: int)
    requires playerHp > 0
    requires Witnessed(Successors, NewGame(bossHp + d, bossDamage, mana, playerHp), m)
    ensures exists m' :: m' <= m && Witnessed(Successors, NewGame(bossHp, bossDamage, mana, playerHp), m')
  {
    var high := NewGame(bossHp + d, bossDamage, mana, playerHp);
    var w :| Reachable(Successors, high, w) && State(w) == Won && w.spentMana == m;
    var depth: nat :| Leads(Successors, high, w, depth);
    LeadsWeakened(high, w, d, depth);
    assert Weakened(high, d) == NewGame(bossHp, bossDamage, mana, playerHp);
  }

  /** `m` is the least mana a win from `root` costs. */
  ghost predicate Cheapest(root: Game, m: int)
  {
    Witnessed(Successors, root, m) && forall m' :: Witnessed(Successors, root, m') ==> m <= m'
  }

  /** Raising the boss's hit points never lowers the least cost of a win. */
  lemma CheapestMonotone(bossHp: int, d: nat, bossDamage: int, mana: int, playerHp: int, a: int, b: int)
    requires playerHp > 0
    requires Cheapest(NewGame(bossHp, bossDamage, mana, playerHp), a)
    requires Cheapest(NewGame(bossHp + d, bossDamage, mana, playerHp), b)
    ensures a <= b
  {
    WeakerBossNoDearer(bossHp, d, bossDamage, mana, playerHp, b);
  }
}
