/** The reindeer race: each reindeer alternates flying at its speed and resting.
    After every second the leaders by distance each score a point; the race reports
    the largest distance and the largest score. */
module Day14 {
  import opened Common

  datatype Reindeer = Reindeer(speed: nat, flyTime: nat, restTime: nat)

  /** One full fly-and-rest cycle, in seconds. */
  function Cycle(r: Reindeer): nat
  {
    r.flyTime + r.restTime
  }

  /** A race of `time` seconds can be run: there is at least one reindeer (the source
      takes a maximum over the field), and if any second passes at all, every cycle
      lasts at least a second (each second divides by the cycle; a race of no seconds
      never divides). */
  predicate Racing(rs: seq<Reindeer>, time: nat)
  {
    |rs| > 0 && (time > 0 ==> forall i :: 0 <= i < |rs| ==> Cycle(rs[i]) > 0)
  }

  /** The reindeer flies during second `t` (counting from zero). */
  predicate Flying(r: Reindeer, t: nat)
    requires Cycle(r) > 0
  {
    t % Cycle(r) < r.flyTime
  }

  /** The distance covered in the first `t` seconds. */
  function Distance(r: Reindeer, t: nat): nat
    requires t > 0 ==> Cycle(r) > 0
  {
    if t == 0 then 0 else Distance(r, t - 1) + (if Flying(r, t - 1) then r.speed else 0)
  }

  /** The distance grows by the speed in a flying second and stands still otherwise. */
  lemma {:induction false} DistanceMonotone(r: Reindeer, t: nat, t': nat)
    requires Cycle(r) > 0 && t <= t'
    ensures Distance(r, t) <= Distance(r, t')
    decreases t' - t
  {
    if t < t' {
      DistanceMonotone(r, t, t' - 1);
    }
  }

  /** The number of flying seconds among the first `t`. */
  function Flown(r: Reindeer, t: nat): nat
    requires t > 0 ==> Cycle(r) > 0
  {
    if t == 0 then 0 else Flown(r, t - 1) + (if Flying(r, t - 1) then 1 else 0)
  }

  lemma {:induction false} DistanceFlown(r: Reindeer, t: nat)
    requires Cycle(r) > 0
    ensures Distance(r, t) == r.speed * Flown(r, t)
  {
    if t > 0 {
      DistanceFlown(r, t - 1);
      var f := Flown(r, t - 1);
      assert r.speed * (f + 1) == r.speed * f + r.speed;
    }
  }

  /** Closed form: whole cycles fly `flyTime` seconds each, and the current cycle has
      flown for as long as it has lasted, up to `flyTime`. */
  lemma {:induction false} FlownClosedForm(r: Reindeer, t: nat)
    requires Cycle(r) > 0
    ensures Flown(r, t) == (t / Cycle(r)) * r.flyTime + Min(t % Cycle(r), r.flyTime)
  {
    var c := Cycle(r);
    if t > 0 {
      var s := t - 1;
      FlownClosedForm(r, s);
      DivModNext(s, c);
      var q := s / c;
      if s % c == c - 1 {
        assert (q + 1) * r.flyTime == q * r.flyTime + r.flyTime;
      }
    }
  }

  /** The distance after `t` seconds in closed form. */
  lemma DistanceClosedForm(r: Reindeer, t: nat)
    requires Cycle(r) > 0
    ensures Distance(r, t) == r.speed * ((t / Cycle(r)) * r.flyTime + Min(t % Cycle(r), r.flyTime))
  {
    DistanceFlown(r, t);
    FlownClosedForm(r, t);
  }

  function Distances(rs: seq<Reindeer>, t: nat): (ds: seq<int>)
    requires Racing(rs, t)
    ensures |ds| == |rs|
    ensures forall i :: 0 <= i < |rs| ==> ds[i] == Distance(rs[i], t)
  {
    seq(|rs|, i requires 0 <= i < |rs| => Distance(rs[i], t))
  }

  /** The scores after `t` seconds: after each second, every reindeer at the largest
      distance scores one point, ties included. */
  function Points(rs: seq<Reindeer>, t: nat): (ps: seq<int>)
    requires Racing(rs, t)
    ensures |ps| == |rs|
  {
    if t == 0 then seq(|rs|, i => 0)
    else
      var prev := Points(rs, t - 1);
      var ds := Distances(rs, t);
      seq(|rs|, i requires 0 <= i < |rs| => prev[i] + (if ds[i] == MaxOf(ds) then 1 else 0))
  }

  /** Nobody scores more than one point a second. */
  lemma {:induction false} PointsBound(rs: seq<Reindeer>, t: nat, i: nat)
    requires Racing(rs, t) && i < |rs|
    ensures 0 <= Points(rs, t)[i] <= t
  {
    if t > 0 {
      PointsBound(rs, t - 1, i);
    }
  }

  /** Every second some reindeer scores. */
  lemma SomeoneScores(rs: seq<Reindeer>, t: nat)
    requires Racing(rs, t) && t > 0
    ensures exists i :: 0 <= i < |rs| && Points(rs, t)[i] == Points(rs, t - 1)[i] + 1
  {
    var ds := Distances(rs, t);
    var i :| 0 <= i < |ds| && ds[i] == MaxOf(ds);
    assert Points(rs, t)[i] == Points(rs, t - 1)[i] + 1;
  }

  /** The largest element of a non-empty array, scanning left to right. */
  method Largest(a: array<int>) returns (m: int)
    requires a.Length > 0
    ensures m == MaxOf(a[..])
  {
    m := a[0];
    var k := 1;
    while k < a.Length
      invariant 1 <= k <= a.Length
      invariant m in a[..k] && forall j :: 0 <= j < k ==> a[j] <= m
    {
      if a[k] > m {
        m := a[k];
      }
      k := k + 1;
    }
    assert a[..k] == a[..];
    MaxUnique(a[..], m);
  }

  lemma MaxUnique(s: seq<int>, m: int)
    requires m in s && forall j :: 0 <= j < |s| ==> s[j] <= m
    ensures m == MaxOf(s)
  {
    var k :| 0 <= k < |s| && s[k] == MaxOf(s);
  }

  /** One second of flight: every reindeer flying during second `t` moves on by its speed. */
  method Fly(rs: seq<Reindeer>, distances: array<int>, t: nat)
    requires Racing(rs, t + 1) && distances.Length == |rs| && distances[..] == Distances(rs, t)
    modifies distances
    ensures distances[..] == Distances(rs, t + 1)
  {
    var idx := 0;
    while idx < |rs|
      invariant idx <= |rs|
      invariant forall j :: 0 <= j < idx ==> distances[j] == Distance(rs[j], t + 1)
      invariant forall j :: idx <= j < |rs| ==> distances[j] == Distance(rs[j], t)
    {
      if t % Cycle(rs[idx]) < rs[idx].flyTime {
        distances[idx] := distances[idx] + rs[idx].speed;
      }
      idx := idx + 1;
    }
  }

  /** Every reindeer at distance `maxDistance` scores a point. */
  method Award(distances: array<int>, points: array<int>, maxDistance: int)
    requires distances.Length == points.Length && distances != points
    modifies points
    ensures forall j :: 0 <= j < points.Length ==>
      points[j] == old(points[j]) + (if distances[j] == maxDistance then 1 else 0)
  {
    var idx := 0;
    while idx < points.Length
      invariant idx <= points.Length
      invariant forall j :: 0 <= j < idx ==> points[j] == old(points[j]) + (if distances[j] == maxDistance then 1 else 0)
      invariant forall j :: idx <= j < points.Length ==> points[j] == old(points[j])
    {
      if distances[idx] == maxDistance {
        points[idx] := points[idx] + 1;
      }
      idx := idx + 1;
    }
  }

  lemma PointsStep(rs: seq<Reindeer>, t: nat, prev: seq<int>, now: seq<int>, leader: int)
    requires Racing(rs, t + 1) && prev == Points(rs, t) && leader == MaxOf(Distances(rs, t + 1)) && |now| == |rs|
    requires forall j :: 0 <= j < |now| ==>
      now[j] == prev[j] + (if Distances(rs, t + 1)[j] == leader then 1 else 0)
    ensures now == Points(rs, t + 1)
  {
  }

  /** One second of the race: the flyers move on, then the leaders score. */
  method Tick(rs: seq<Reindeer>, distances: array<int>, points: array<int>, t: nat)
    requires Racing(rs, t + 1) && distances.Length == |rs| && points.Length == |rs| && distances != points
    requires distances[..] == Distances(rs, t) && points[..] == Points(rs, t)
    modifies distances, points
    ensures distances[..] == Distances(rs, t + 1) && points[..] == Points(rs, t + 1)
  {
    Fly(rs, distances, t);
    var leader := Largest(distances);
    ghost var prev := points[..];
    Award(distances, points, leader);
    PointsStep(rs, t, prev, points[..], leader);
  }

  /** The race run second by second over two mutable vectors: every flying reindeer
      moves by its speed, then every leader scores. Returns the largest distance and
      the largest score. */
  method Result(rs: seq<Reindeer>, time: nat) returns (maxDistance: int, maxPoints: int)
    requires Racing(rs, time)
    ensures maxDistance == MaxOf(Distances(rs, time))
    ensures maxPoints == MaxOf(Points(rs, time))
  {
    var n := |rs|;
    var distances := new int[n](i => 0);
    var points := new int[n](i => 0);
    assert distances[..] == Distances(rs, 0);
    assert points[..] == Points(rs, 0);
    var t := 0;
    while t < time
      invariant t <= time
      invariant distances[..] == Distances(rs, t) && points[..] == Points(rs, t)
    {
      Tick(rs, distances, points, t);
      t := t + 1;
    }
    maxDistance := Largest(distances);
    maxPoints := Largest(points);
  }

  function Comet(): Reindeer { Reindeer(14, 10, 127) }
  function Dancer(): Reindeer { Reindeer(16, 11, 162) }

  /** After 1000 seconds Comet has flown 1120 km and Dancer 1056 km, so the winning
      distance is 1120. */
  lemma SampleDistance(rs: seq<Reindeer>, time: nat)
    requires rs == [Comet(), Dancer()] && time == 1000
    ensures Racing(rs, time)
    ensures MaxOf(Distances(rs, time)) == 1120
  {
    DistanceClosedForm(rs[0], time);
    DistanceClosedForm(rs[1], time);
    assert Cycle(rs[0]) == 137 && time / 137 == 7 && time % 137 == 41;
    assert Cycle(rs[1]) == 173 && time / 173 == 5 && time % 173 == 135;
    var ds := Distances(rs, time);
    assert ds[0] == 14 * (7 * 10 + 10) == 1120;
    assert ds[1] == 16 * (5 * 11 + 11) == 1056;
    assert ds == [1120, 1056];
  }

  /** Part one: the winning distance after `time` seconds. */
  method Solve1(rs: seq<Reindeer>, time: nat) returns (r: int)
    requires Racing(rs, time)
    ensures exists i :: 0 <= i < |rs| && r == Distance(rs[i], time)
    ensures forall i :: 0 <= i < |rs| ==> Distance(rs[i], time) <= r
  {
    var points;
    r, points := Result(rs, time);
    var ds := Distances(rs, time);
    assert r in ds;
    assert forall i :: 0 <= i < |rs| ==> ds[i] in ds;
  }

  /** Part two: the winning score after `time` seconds, at most one point a second. */
  method Solve2(rs: seq<Reindeer>, time: nat) returns (r: int)
    requires Racing(rs, time)
    ensures exists i :: 0 <= i < |rs| && r == Points(rs, time)[i]
    ensures forall i :: 0 <= i < |rs| ==> Points(rs, time)[i] <= r
    ensures 0 <= r <= time
  {
    var distance;
    distance, r := Result(rs, time);
    var ps := Points(rs, time);
    assert r in ps;
    var k :| 0 <= k < |ps| && ps[k] == r;
    PointsBound(rs, time, k);
    assert forall i :: 0 <= i < |rs| ==> ps[i] in ps;
  }
}
