/** A circuit of 16-bit logic gates, one component driving each wire, evaluated on
    demand with a memo table. In part two the signal first computed for wire `a` is
    pinned on wire `b` and `a` is evaluated again. */
module Day07 {
  import opened Common

  type Label = string

  /** One parsed component; `value` is the shift amount. */
  datatype Component =
    | Wire(source: Label, destination: Label)
    | And(sourceA: Label, sourceB: Label, destination: Label)
    | Or(sourceA: Label, sourceB: Label, destination: Label)
    | Not(source: Label, destination: Label)
    | LShift(source: Label, value: nat, destination: Label)
    | RShift(source: Label, value: nat, destination: Label)

  /** The inputs a component reads. */
  function Sources(c: Component): (s: seq<Label>)
    ensures 1 <= |s| <= 2
    ensures (c.And? || c.Or?) <==> |s| == 2
  {
    match c
    case And(a, b, _) => [a, b]
    case Or(a, b, _) => [a, b]
    case _ => [c.source]
  }

  predicate IsDigit(ch: char)
  {
    '0' <= ch <= '9'
  }

  /** A non-empty run of decimal digits. */
  predicate Numeral(s: string)
  {
    |s| > 0 && forall i :: 0 <= i < |s| ==> IsDigit(s[i])
  }

  /** The value of a string of decimal digits. */
  function Decimal(s: string): (n: nat)
    requires forall i :: 0 <= i < |s| ==> IsDigit(s[i])
  {
    if s == [] then 0
    else
      assert IsDigit(s[|s| - 1]);
      10 * Decimal(s[..|s| - 1]) + (s[|s| - 1] as int - '0' as int)
  }

  /** `u16::from_str`: an optional `+` and at least one decimal digit, with a value
      that fits in 16 bits; anything else is not a number. */
  function ParseU16(s: string): (r: Option<nat>)
    ensures r.Some? ==> r.value <= 0xffff
    ensures Numeral(s) && Decimal(s) <= 0xffff ==> r == Some(Decimal(s))
    ensures |s| > 0 && s[0] == '+' && Numeral(s[1..]) && Decimal(s[1..]) <= 0xffff ==> r == Some(Decimal(s[1..]))
    ensures r.Some? ==>
      (Numeral(s) && r.value == Decimal(s)) ||
      (|s| > 0 && s[0] == '+' && Numeral(s[1..]) && r.value == Decimal(s[1..]))
  {
    if |s| > 0 && s[0] == '+' then
      if Numeral(s[1..]) && Decimal(s[1..]) <= 0xffff then Some(Decimal(s[1..])) else None
    else if Numeral(s) && Decimal(s) <= 0xffff then Some(Decimal(s))
    else None
  }

  /** The wire-to-component table: each component keyed by the wire it drives, a later
      component overriding an earlier one for the same wire. */
  function NewCircuit(cs: seq<Component>): (circuit: map<Label, Component>)
    ensures forall w :: w in circuit <==> exists i :: 0 <= i < |cs| && cs[i].destination == w
    ensures forall w :: w in circuit ==> circuit[w].destination == w && circuit[w] in cs
  {
    if cs == [] then map[]
    else
      var pre := cs[..|cs| - 1];
      assert forall i :: 0 <= i < |pre| ==> pre[i] == cs[i];
      NewCircuit(pre)[cs[|cs| - 1].destination := cs[|cs| - 1]]
  }

  /** A wire whose value needs no gate: pinned in the memo table or a literal number. */
  predicate Ready(pins: map<Label, bv16>, w: Label)
  {
    w in pins || ParseU16(w).Some?
  }

  /** What the source demands of a circuit: every shift amount is below 16, every
      wire read is ready or driven by a component, and `rank` orders the components so
      that each reads only ready wires or wires of lower rank (no cycles). */
  ghost predicate Acyclic(circuit: map<Label, Component>, pins: map<Label, bv16>, rank: map<Label, nat>)
  {
    forall w :: w in circuit ==>
      w in rank &&
      ((circuit[w].LShift? || circuit[w].RShift?) ==> circuit[w].value < 16) &&
      forall s :: s in Sources(circuit[w]) ==>
        Ready(pins, s) || (s in circuit && s in rank && rank[s] < rank[w])
  }

  /** Asking for `w` does not panic: it is ready or driven. */
  predicate Defined(circuit: map<Label, Component>, pins: map<Label, bv16>, w: Label)
  {
    Ready(pins, w) || w in circuit
  }

  ghost function Height(circuit: map<Label, Component>, pins: map<Label, bv16>, rank: map<Label, nat>, w: Label): nat
  {
    if Ready(pins, w) || w !in rank then 0 else rank[w] + 1
  }

  /** The gate of component `c` applied to its inputs' signals `x` (and `y` for the
      two-input gates): 16-bit and, or, complement and shifts. */
  function Gate(c: Component, x: bv16, y: bv16): (r: bv16)
    requires (c.LShift? || c.RShift?) ==> c.value < 16
  {
    match c
    case Wire(_, _) => x
    case And(_, _, _) => x & y
    case Or(_, _, _) => x | y
    case Not(_, _) => !x
    case LShift(_, n, _) => x << n
    case RShift(_, n, _) => x >> n
  }

  /** NOT is the 16-bit complement: every bit of the input flips. */
  lemma NotComplement(c: Component, x: bv16, y: bv16)
    requires c.Not?
    ensures Gate(c, x, y) == 0xffff - x && Gate(c, x, y) & x == 0
  {
  }

  /** The signal on wire `w`: a pinned value first, then a literal, then the gate
      driving the wire applied to the signals on its inputs. */
  ghost function Eval(circuit: map<Label, Component>, pins: map<Label, bv16>, rank: map<Label, nat>, w: Label): bv16
    requires Acyclic(circuit, pins, rank) && Defined(circuit, pins, w)
    decreases Height(circuit, pins, rank, w)
  {
    if w in pins then pins[w]
    else if ParseU16(w).Some? then ParseU16(w).value as bv16
    else
      var c := circuit[w];
      var srcs := Sources(c);
      assert srcs[0] in srcs;
      var x := Eval(circuit, pins, rank, srcs[0]);
      var y := if |srcs| == 2 then (assert srcs[1] in srcs; Eval(circuit, pins, rank, srcs[1])) else x;
      Gate(c, x, y)
  }

  /** Every memo entry holds the signal its wire carries. */
  ghost predicate Consistent(circuit: map<Label, Component>, pins: map<Label, bv16>, rank: map<Label, nat>,
                             cache: map<Label, bv16>)
    requires Acyclic(circuit, pins, rank)
  {
    (forall w :: w in pins ==> w in cache && cache[w] == pins[w]) &&
    forall w :: w in cache ==> Defined(circuit, pins, w) && cache[w] == Eval(circuit, pins, rank, w)
  }

  /** Memoised evaluation of wire `w`: a cached wire is answered from the memo table
      as is; otherwise its signal is computed (filling the table for the wires it
      reads) and recorded. Earlier entries are never changed. */
  method Signal(circuit: map<Label, Component>, ghost pins: map<Label, bv16>, ghost rank: map<Label, nat>,
                cache: map<Label, bv16>, w: Label)
    returns (value: bv16, cache': map<Label, bv16>)
    requires Acyclic(circuit, pins, rank) && Defined(circuit, pins, w)
    requires Consistent(circuit, pins, rank, cache)
    ensures value == Eval(circuit, pins, rank, w)
    ensures w in cache ==> value == cache[w] && cache' == cache
    ensures w in cache' && cache'[w] == value
    ensures forall k :: k in cache ==> k in cache' && cache'[k] == cache[k]
    ensures Consistent(circuit, pins, rank, cache')
    decreases Height(circuit, pins, rank, w)
  {
    if w in cache {
      return cache[w], cache;
    }
    var parsed := ParseU16(w);
    cache' := cache;
    if parsed.Some? {
      value := parsed.value as bv16;
    } else {
      var c := circuit[w];
      var srcs := Sources(c);
      assert srcs[0] in srcs;
      var x, y;
      x, cache' := Signal(circuit, pins, rank, cache', srcs[0]);
      y := x;
      if |srcs| == 2 {
        assert srcs[1] in srcs;
        y, cache' := Signal(circuit, pins, rank, cache', srcs[1]);
      }
      value := Gate(c, x, y);
    }
    ConsistentRecord(circuit, pins, rank, cache', w, value);
    cache' := cache'[w := value];
  }

  /** Recording the signal of a wire that is not pinned keeps the memo table consistent. */
  lemma ConsistentRecord(circuit: map<Label, Component>, pins: map<Label, bv16>, rank: map<Label, nat>,
                         cache: map<Label, bv16>, w: Label, value: bv16)
    requires Acyclic(circuit, pins, rank) && Defined(circuit, pins, w)
    requires Consistent(circuit, pins, rank, cache) && w !in pins && value == Eval(circuit, pins, rank, w)
    ensures Consistent(circuit, pins, rank, cache[w := value])
  {
  }

  /** Pinning more wires keeps a circuit acyclic. */
  lemma AcyclicPinned(circuit: map<Label, Component>, rank: map<Label, nat>, pins: map<Label, bv16>)
    requires Acyclic(circuit, map[], rank)
    ensures Acyclic(circuit, pins, rank)
  {
  }

  /** Part one evaluates `a` from an empty memo table; part two evaluates `a`, clears
      the table, pins the result on `b` and evaluates `a` again. */
  method Solve(components: seq<Component>, overrideB: bool, ghost rank: map<Label, nat>) returns (value: bv16)
    requires Acyclic(NewCircuit(components), map[], rank)
    requires Defined(NewCircuit(components), map[], "a")
    ensures !overrideB ==> value == Eval(NewCircuit(components), map[], rank, "a")
    ensures overrideB ==>
      value == Eval(NewCircuit(components), map["b" := Eval(NewCircuit(components), map[], rank, "a")], rank, "a")
  {
    var circuit := NewCircuit(components);
    var cache: map<Label, bv16> := map[];
    ghost var pins: map<Label, bv16> := map[];
    if overrideB {
      var a;
      a, cache := Signal(circuit, pins, rank, cache, "a");
      cache := map[];
      cache := cache["b" := a];
      pins := map["b" := a];
      AcyclicPinned(circuit, rank, pins);
    }
    value, cache := Signal(circuit, pins, rank, cache, "a");
  }

  function Sample(): seq<Component>
  {
    [Wire("123", "x"), Wire("456", "y"), And("x", "y", "d"), Or("x", "y", "e"),
     LShift("x", 2, "a"), RShift("y", 2, "g"), Not("x", "h"), Not("y", "i")]
  }

  function SampleRank(): map<Label, nat>
  {
    map["x" := 0, "y" := 0, "d" := 1, "e" := 1, "a" := 1, "g" := 1, "h" := 1, "i" := 1]
  }

  lemma NewCircuitSnoc(cs: seq<Component>, c: Component)
    ensures NewCircuit(cs + [c]) == NewCircuit(cs)[c.destination := c]
  {
    assert (cs + [c])[..|cs|] == cs;
  }

  lemma SampleTable()
    ensures NewCircuit(Sample()) == SampleCircuit()
  {
    var cs := Sample();
    NewCircuitSnoc([], cs[0]);
    assert cs[..1] == [] + [cs[0]];
    NewCircuitSnoc(cs[..1], cs[1]);
    assert cs[..2] == cs[..1] + [cs[1]];
    NewCircuitSnoc(cs[..2], cs[2]);
    assert cs[..3] == cs[..2] + [cs[2]];
    NewCircuitSnoc(cs[..3], cs[3]);
    assert cs[..4] == cs[..3] + [cs[3]];
    NewCircuitSnoc(cs[..4], cs[4]);
    assert cs[..5] == cs[..4] + [cs[4]];
    NewCircuitSnoc(cs[..5], cs[5]);
    assert cs[..6] == cs[..5] + [cs[5]];
    NewCircuitSnoc(cs[..6], cs[6]);
    assert cs[..7] == cs[..6] + [cs[6]];
    NewCircuitSnoc(cs[..7], cs[7]);
    assert cs == cs[..7] + [cs[7]];
  }

  lemma NotNumber(w: Label)
    requires |w| > 0 && !IsDigit(w[0]) && w[0] != '+'
    ensures ParseU16(w) == None
  {
  }

  lemma Numbers()
    ensures ParseU16("123") == Some(123) && ParseU16("456") == Some(456)
  {
    assert "123"[..2] == "12" && "12"[..1] == "1" && "1"[..0] == "";
    assert "456"[..2] == "45" && "45"[..1] == "4" && "4"[..0] == "";
    assert Numeral("123") && Numeral("456");
  }

  function SampleCircuit(): map<Label, Component>
  {
    map["x" := Wire("123", "x"), "y" := Wire("456", "y"), "d" := And("x", "y", "d"),
      "e" := Or("x", "y", "e"), "a" := LShift("x", 2, "a"), "g" := RShift("y", 2, "g"),
      "h" := Not("x", "h"), "i" := Not("y", "i")]
  }

  lemma TableAcyclic(circuit: map<Label, Component>, rank: map<Label, nat>)
    requires circuit == SampleCircuit() && rank == SampleRank()
    ensures Acyclic(circuit, map[], rank)
  {
    Numbers();
    assert Ready(map[], "123") && Ready(map[], "456");
    assert "x" in circuit && "y" in circuit && "x" in rank && "y" in rank && rank["x"] == 0 && rank["y"] == 0;
    forall w | w in circuit
      ensures w in rank && ((circuit[w].LShift? || circuit[w].RShift?) ==> circuit[w].value < 16)
      ensures forall s :: s in Sources(circuit[w]) ==> Ready(map[], s) || (s in circuit && s in rank && rank[s] < rank[w])
    {
      assert w in rank;
      if w == "x" || w == "y" {
        assert Sources(circuit[w]) == ["123"] || Sources(circuit[w]) == ["456"];
      } else {
        assert rank[w] == 1;
        assert forall s :: s in Sources(circuit[w]) ==> s == "x" || s == "y";
      }
    }
  }

  /** Any acyclic circuit with `123 -> x` and `x LSHIFT 2 -> a` drives `a` with 492. */
  lemma ShiftedSignal(circuit: map<Label, Component>, rank: map<Label, nat>)
    requires Acyclic(circuit, map[], rank)
    requires "a" in circuit && circuit["a"] == LShift("x", 2, "a")
    requires "x" in circuit && circuit["x"] == Wire("123", "x")
    ensures Eval(circuit, map[], rank, "a") == 492
  {
    Numbers();
    NotNumber("a");
    NotNumber("x");
    EvalLShift(circuit, map[], rank, "a");
    EvalWire(circuit, map[], rank, "x");
    EvalLiteral(circuit, map[], rank, "123", 123);
    var v: bv16 := 123;
    assert v << 2 == 492;
  }

  lemma EvalLiteral(circuit: map<Label, Component>, pins: map<Label, bv16>, rank: map<Label, nat>, w: Label, n: nat)
    requires Acyclic(circuit, pins, rank) && w !in pins && ParseU16(w) == Some(n)
    requires n <= 0xffff
    ensures Defined(circuit, pins, w) && Eval(circuit, pins, rank, w) == n as bv16
  {
  }

  lemma EvalWire(circuit: map<Label, Component>, pins: map<Label, bv16>, rank: map<Label, nat>, w: Label)
    requires Acyclic(circuit, pins, rank) && w !in pins && ParseU16(w) == None
    requires w in circuit && circuit[w].Wire?
    ensures Defined(circuit, pins, circuit[w].source)
    ensures Eval(circuit, pins, rank, w) == Eval(circuit, pins, rank, circuit[w].source)
  {
    assert circuit[w].source in Sources(circuit[w]);
  }

  lemma EvalLShift(circuit: map<Label, Component>, pins: map<Label, bv16>, rank: map<Label, nat>, w: Label)
    requires Acyclic(circuit, pins, rank) && w !in pins && ParseU16(w) == None
    requires w in circuit && circuit[w].LShift?
    ensures Defined(circuit, pins, circuit[w].source) && circuit[w].value < 16
    ensures Eval(circuit, pins, rank, w) == Eval(circuit, pins, rank, circuit[w].source) << circuit[w].value
  {
    assert circuit[w].source in Sources(circuit[w]);
  }

  lemma SampleAcyclic()
    ensures Acyclic(NewCircuit(Sample()), map[], SampleRank())
  {
    SampleTable();
    TableAcyclic(NewCircuit(Sample()), SampleRank());
  }

  lemma SampleEntries(circuit: map<Label, Component>)
    requires circuit == SampleCircuit()
    ensures "a" in circuit && circuit["a"] == LShift("x", 2, "a")
    ensures "x" in circuit && circuit["x"] == Wire("123", "x")
  {
  }

  /** The sample circuit is acyclic and drives `a` with 123 shifted left by 2. */
  lemma SampleSignal()
    ensures Acyclic(NewCircuit(Sample()), map[], SampleRank())
    ensures "a" in NewCircuit(Sample()) && Eval(NewCircuit(Sample()), map[], SampleRank(), "a") == 492
  {
    SampleAcyclic();
    SampleTable();
    SampleEntries(NewCircuit(Sample()));
    ShiftedSignal(NewCircuit(Sample()), SampleRank());
  }
}
