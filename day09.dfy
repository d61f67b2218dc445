/** Shortest route through every city: the distance table is stored in both
    directions, and the answer is the cheapest open path over all orderings of the
    cities. */
module Day09 {
  import opened Common
  import opened Arrangements

  type City = string

  /** One parsed line `<from> to <to> = <length>`. */
  datatype Distance = Distance(from: City, to: City, length: nat)

  /** The line names the unordered pair `{a, b}`. */
  predicate Names(d: Distance, a: City, b: City)
  {
    (d.from == a && d.to == b) || (d.from == b && d.to == a)
  }

  /** The distance table: both directions of every line, a later line overriding an
      earlier one for the same pair. */
  function Vertices(ds: seq<Distance>): (m: map<(City, City), nat>)
    ensures forall i :: 0 <= i < |ds| ==> (ds[i].from, ds[i].to) in m && (ds[i].to, ds[i].from) in m
  {
    if ds == [] then map[]
    else
      var d := ds[|ds| - 1];
      var m0 := Vertices(ds[..|ds| - 1]);
      assert forall i :: 0 <= i < |ds| - 1 ==> ds[..|ds| - 1][i] == ds[i];
      m0[(d.from, d.to) := d.length][(d.to, d.from) := d.length]
  }

  /** Only pairs named by some line have an entry. */
  lemma {:induction false} VerticesOnlyNamed(ds: seq<Distance>, a: City, b: City)
    requires (a, b) in Vertices(ds)
    ensures exists i :: 0 <= i < |ds| && Names(ds[i], a, b)
  {
    var d := ds[|ds| - 1];
    var pre := ds[..|ds| - 1];
    if !Names(d, a, b) {
      VerticesOnlyNamed(pre, a, b);
      var i :| 0 <= i < |pre| && Names(pre[i], a, b);
      assert ds[i] == pre[i];
    }
  }

  /** Every distance is stored in both directions with the same length. */
  lemma {:induction false} VerticesSymmetric(ds: seq<Distance>, a: City, b: City)
    requires (a, b) in Vertices(ds)
    ensures (b, a) in Vertices(ds) && Vertices(ds)[(b, a)] == Vertices(ds)[(a, b)]
  {
    var d := ds[|ds| - 1];
    var pre := ds[..|ds| - 1];
    if !Names(d, a, b) {
      VerticesSymmetric(pre, a, b);
    }
  }

  /** The stored length is that of the last line naming the pair. */
  lemma {:induction false} VerticesLastWins(ds: seq<Distance>, i: nat, a: City, b: City)
    requires i < |ds| && Names(ds[i], a, b)
    requires forall j :: i < j < |ds| ==> !Names(ds[j], a, b)
    ensures (a, b) in Vertices(ds) && Vertices(ds)[(a, b)] == ds[i].length
  {
    var d := ds[|ds| - 1];
    var pre := ds[..|ds| - 1];
    if i < |ds| - 1 {
      assert pre[i] == ds[i];
      assert forall j :: i < j < |pre| ==> pre[j] == ds[j];
      VerticesLastWins(pre, i, a, b);
      assert !Names(d, a, b);
    }
  }

  /** The cities, each once, in order of first mention. */
  function Cities(ds: seq<Distance>): (cs: seq<City>)
    ensures Distinct(cs)
    ensures forall c :: c in cs <==> exists i :: 0 <= i < |ds| && (ds[i].from == c || ds[i].to == c)
  {
    if ds == [] then []
    else
      var d := ds[|ds| - 1];
      var cs0 := Cities(ds[..|ds| - 1]);
      assert forall i :: 0 <= i < |ds| - 1 ==> ds[..|ds| - 1][i] == ds[i];
      var cs1 := if d.from in cs0 then cs0 else cs0 + [d.from];
      if d.to in cs1 then cs1 else cs1 + [d.to]
  }

  datatype Graph = Graph(nodes: seq<City>, vertices: map<(City, City), nat>)

  /** The graph of a distance list: its node set is exactly the first components of
      the table's keys, which (the table being symmetric) are all cities named. */
  function NewGraph(ds: seq<Distance>): (g: Graph)
    ensures Distinct(g.nodes)
    ensures forall c :: c in g.nodes <==> exists b :: (c, b) in g.vertices
  {
    forall c, b | (c, b) in Vertices(ds) ensures c in Cities(ds) {
      VerticesOnlyNamed(ds, c, b);
    }
    var g := Graph(Cities(ds), Vertices(ds));
    assert forall c :: c in g.nodes ==> exists b :: (c, b) in g.vertices by {
      forall c | c in g.nodes ensures exists b :: (c, b) in g.vertices {
        var i :| 0 <= i < |ds| && (ds[i].from == c || ds[i].to == c);
        if ds[i].from == c {
          assert (c, ds[i].to) in g.vertices;
        } else {
          assert (c, ds[i].from) in g.vertices;
        }
      }
    }
    g
  }

  /** Every step of the path has a table entry. */
  predicate Connected(vertices: map<(City, City), nat>, p: seq<City>)
  {
    forall i :: 1 <= i < |p| ==> (p[i - 1], p[i]) in vertices
  }

  /** The length of an open path: the sum over consecutive pairs, without a return leg. */
  function Cost(vertices: map<(City, City), nat>, p: seq<City>): (c: nat)
    requires Connected(vertices, p)
    ensures |p| <= 1 ==> c == 0
  {
    if |p| <= 1 then 0
    else Cost(vertices, p[..|p| - 1]) + vertices[(p[|p| - 2], p[|p| - 1])]
  }

  lemma {:induction false} CostExtend(vertices: map<(City, City), nat>, p: seq<City>, c: City)
    requires Connected(vertices, p) && |p| > 0 && (p[|p| - 1], c) in vertices
    ensures Connected(vertices, p + [c])
    ensures Cost(vertices, p + [c]) == Cost(vertices, p) + vertices[(p[|p| - 1], c)]
  {
    assert (p + [c])[..|p|] == p;
  }

  /** Every two distinct cities have a distance (the source panics otherwise). */
  predicate Complete(g: Graph)
  {
    forall a, b :: a in g.nodes && b in g.nodes && a != b ==> (a, b) in g.vertices
  }

  /** A route visits every city exactly once. */
  predicate IsRoute(g: Graph, p: seq<City>)
  {
    multiset(p) == multiset(g.nodes)
  }

  lemma RoutesConnected(g: Graph, p: seq<City>)
    requires Distinct(g.nodes) && Complete(g) && IsRoute(g, p)
    ensures Connected(g.vertices, p)
  {
    PermutationOfDistinct(g.nodes, p);
  }

  /** The enumerated orderings are exactly the routes, and each one is connected. */
  lemma RoutesEnumerated(g: Graph)
    requires Distinct(g.nodes) && Complete(g)
    ensures forall k :: 0 <= k < |Permutations(g.nodes)| ==>
      IsRoute(g, Permutations(g.nodes)[k]) && Connected(g.vertices, Permutations(g.nodes)[k])
    ensures forall p :: IsRoute(g, p) ==> p in Permutations(g.nodes)
  {
    var ps := Permutations(g.nodes);
    forall k | 0 <= k < |ps| ensures IsRoute(g, ps[k]) && Connected(g.vertices, ps[k]) {
      PermutationsExactly(g.nodes, ps[k]);
      RoutesConnected(g, ps[k]);
    }
    forall p | IsRoute(g, p) ensures p in ps {
      PermutationsExactly(g.nodes, p);
    }
  }

  function Costs(g: Graph, ps: seq<seq<City>>): (cs: seq<int>)
    requires forall k :: 0 <= k < |ps| ==> Connected(g.vertices, ps[k])
    ensures |cs| == |ps|
    ensures forall k :: 0 <= k < |ps| ==> cs[k] == Cost(g.vertices, ps[k])
  {
    seq(|ps|, k requires 0 <= k < |ps| => Cost(g.vertices, ps[k]))
  }

  /** The shortest route length over all orderings of the graph's cities. */
  function Shortest(g: Graph): (r: int)
    requires Distinct(g.nodes) && Complete(g)
    ensures exists p :: IsRoute(g, p) && Connected(g.vertices, p) && r == Cost(g.vertices, p)
    ensures forall p :: IsRoute(g, p) && Connected(g.vertices, p) ==> r <= Cost(g.vertices, p)
  {
    var ps := Permutations(g.nodes);
    RoutesEnumerated(g);
    var cs := Costs(g, ps);
    PermutationsExactly(g.nodes, g.nodes);
    var r := MinOf(cs);
    LeastCost(g, ps, cs);
    r
  }

  /** The least of the enumerated costs is the cost of a route, and no route costs less. */
  lemma LeastCost(g: Graph, ps: seq<seq<City>>, cs: seq<int>)
    requires forall k :: 0 <= k < |ps| ==> IsRoute(g, ps[k]) && Connected(g.vertices, ps[k])
    requires forall p :: IsRoute(g, p) ==> p in ps
    requires |cs| == |ps| > 0 && forall k :: 0 <= k < |ps| ==> cs[k] == Cost(g.vertices, ps[k])
    ensures exists p :: IsRoute(g, p) && Connected(g.vertices, p) && MinOf(cs) == Cost(g.vertices, p)
    ensures forall p :: IsRoute(g, p) && Connected(g.vertices, p) ==> MinOf(cs) <= Cost(g.vertices, p)
  {
    var r := MinOf(cs);
    var k :| 0 <= k < |cs| && cs[k] == r;
    assert IsRoute(g, ps[k]) && Connected(g.vertices, ps[k]);
    forall p | IsRoute(g, p) && Connected(g.vertices, p) ensures r <= Cost(g.vertices, p) {
      var j :| 0 <= j < |ps| && ps[j] == p;
      assert cs[j] in cs;
    }
  }

  /** The answer for a distance list: the shortest route through all its cities. */
  function Solve1(ds: seq<Distance>): (r: int)
    requires Complete(NewGraph(ds))
    ensures exists p ::
      IsRoute(NewGraph(ds), p) && Connected(NewGraph(ds).vertices, p) && r == Cost(NewGraph(ds).vertices, p)
    ensures forall p :: IsRoute(NewGraph(ds), p) && Connected(NewGraph(ds).vertices, p) ==>
      r <= Cost(NewGraph(ds).vertices, p)
  {
    Shortest(NewGraph(ds))
  }
}
