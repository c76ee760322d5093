/**
 * The built-in graph of each scene and what searching it yields, whichever
 * minimum-distance vertex each round happens to select.
 */
module BuiltIn {
  import opened Opt
  import opened Graphs
  import opened Distance
  import opened PredecessorPath
  import opened Search
  import opened DistancePath
  import opened Display
  import opened Scenes

  const FirstVertices: seq<Vertex> := ["A", "B", "C", "D", "E", "F", "G", "H", "I", "J"]

  const FirstEdges: seq<Edge> :=
    [Edge("A", "B", 2), Edge("A", "E", 3), Edge("B", "C", 4), Edge("B", "F", 1),
     Edge("C", "D", 2), Edge("C", "G", 5), Edge("D", "H", 3), Edge("E", "F", 2),
     Edge("F", "G", 3), Edge("G", "H", 2), Edge("H", "I", 4), Edge("I", "J", 1),
     Edge("E", "J", 7), Edge("D", "J", 5)]

  /** The ten-vertex graph of the first scene, edges in declared order. */
  const FirstGraph: Graph := Graph(FirstVertices, FirstEdges)

  const SecondVertices: seq<Vertex> := ["A", "B", "C", "D", "E", "F"]

  const SecondEdges: seq<Edge> :=
    [Edge("A", "B", 2), Edge("A", "E", 1), Edge("B", "C", 2), Edge("B", "E", 3),
     Edge("C", "D", 1), Edge("C", "F", 4), Edge("D", "F", 1), Edge("E", "F", 5)]

  /** The six-vertex graph of the second scene. */
  const SecondGraph: Graph := Graph(SecondVertices, SecondEdges)

  /** The true distances from A in the first graph. */
  const FirstDistances: map<Vertex, nat> :=
    map["A" := 0, "B" := 2, "C" := 6, "D" := 8, "E" := 3, "F" := 3, "G" := 6, "H" := 8, "I" := 11, "J" := 10]

  /** The true distances from A in the second graph. */
  const SecondDistances: map<Vertex, nat> :=
    map["A" := 0, "B" := 2, "C" := 4, "D" := 5, "E" := 1, "F" := 6]

  // ------------------------------------------------------ graph facts

  predicate EdgeFeasible(e: Edge, phi: map<Vertex, nat>) {
    e.u in phi && e.v in phi && phi[e.v] <= phi[e.u] + e.w && phi[e.u] <= phi[e.v] + e.w
  }

  /** Well-formedness and feasibility, stated edge by edge and pair by pair. */
  lemma ByIndex(vs: seq<Vertex>, es: seq<Edge>, s: Vertex, phi: map<Vertex, nat>)
    requires forall i, j :: 0 <= i < j < |vs| ==> vs[i] != vs[j]
    requires forall k :: 0 <= k < |es| ==> es[k].u in vs && es[k].v in vs && es[k].u != es[k].v && es[k].w > 0
    requires forall i, j :: 0 <= i < j < |es| ==> !Joins(es[j], es[i].u, es[i].v)
    requires forall k :: 0 <= k < |es| ==> EdgeFeasible(es[k], phi)
    requires forall k :: 0 <= k < |vs| ==> vs[k] in phi
    requires s in phi && phi[s] == 0
    ensures WellFormed(Graph(vs, es)) && FeasiblePotential(Graph(vs, es), s, phi)
  {
    forall e | e in es
      ensures e.u in vs && e.v in vs && e.u != e.v && e.w > 0 && EdgeFeasible(e, phi)
    {
      var k :| 0 <= k < |es| && es[k] == e;
    }
    forall v | v in vs ensures v in phi {
      var k :| 0 <= k < |vs| && vs[k] == v;
    }
  }

  lemma FirstVerticesDistinct()
    ensures forall i, j :: 0 <= i < j < |FirstVertices| ==> FirstVertices[i] != FirstVertices[j]
    ensures forall k :: 0 <= k < |FirstVertices| ==> FirstVertices[k] in FirstDistances
  {
  }

  lemma FirstEdgesValid()
    ensures forall k :: 0 <= k < |FirstEdges| ==>
      FirstEdges[k].u in FirstVertices && FirstEdges[k].v in FirstVertices && FirstEdges[k].u != FirstEdges[k].v && FirstEdges[k].w > 0
  {
  }

  lemma FirstEdgesUnrepeated()
    ensures forall i, j :: 0 <= i < j < |FirstEdges| ==> !Joins(FirstEdges[j], FirstEdges[i].u, FirstEdges[i].v)
  {
  }

  lemma FirstFeasibleHead()
    ensures forall k :: 0 <= k < 7 ==> EdgeFeasible(FirstEdges[k], FirstDistances)
  {
  }

  lemma FirstFeasibleTail()
    ensures forall k :: 7 <= k < 14 ==> EdgeFeasible(FirstEdges[k], FirstDistances)
  {
  }

  lemma FirstGraphFacts()
    ensures WellFormed(FirstGraph)
    ensures FeasiblePotential(FirstGraph, "A", FirstDistances)
  {
    FirstVerticesDistinct();
    FirstEdgesValid();
    FirstEdgesUnrepeated();
    FirstFeasibleHead();
    FirstFeasibleTail();
    ByIndex(FirstVertices, FirstEdges, "A", FirstDistances);
  }

  lemma SecondVerticesDistinct()
    ensures forall i, j :: 0 <= i < j < |SecondVertices| ==> SecondVertices[i] != SecondVertices[j]
    ensures forall k :: 0 <= k < |SecondVertices| ==> SecondVertices[k] in SecondDistances
  {
  }

  lemma SecondEdgesValid()
    ensures forall k :: 0 <= k < |SecondEdges| ==>
      SecondEdges[k].u in SecondVertices && SecondEdges[k].v in SecondVertices && SecondEdges[k].u != SecondEdges[k].v && SecondEdges[k].w > 0
    ensures forall i, j :: 0 <= i < j < |SecondEdges| ==> !Joins(SecondEdges[j], SecondEdges[i].u, SecondEdges[i].v)
  {
  }

  lemma SecondFeasible()
    ensures forall k :: 0 <= k < |SecondEdges| ==> EdgeFeasible(SecondEdges[k], SecondDistances)
  {
  }

  lemma SecondGraphFacts()
    ensures WellFormed(SecondGraph)
    ensures FeasiblePotential(SecondGraph, "A", SecondDistances)
  {
    SecondVerticesDistinct();
    SecondEdgesValid();
    SecondFeasible();
    ByIndex(SecondVertices, SecondEdges, "A", SecondDistances);
  }

  // ------------------------------------------------------ shared steps

  /** A finite table entry is the weight of some walk, so no lower bound on walks exceeds it. */
  lemma AtLeast(g: Graph, s: Vertex, dist: map<Vertex, Dist>, pred: Pred, v: Vertex, d: nat)
    requires Consistent(g, s, dist, pred) && v in g.vertices && dist[v].Fin? && LowerBound(g, s, v, d)
    ensures d <= dist[v].n
  {
    Achieved(g, s, dist, pred, v);
  }

  /** A finalised vertex with a walk as light as a lower bound carries exactly that bound. */
  lemma FinalisedAt(g: Graph, s: Vertex, unvisited: set<Vertex>, dist: map<Vertex, Dist>,
                    v: Vertex, p: seq<Vertex>, d: nat)
    requires dist.Keys == VertexSet(g) && FinalisedShortest(g, s, unvisited, dist) && v in g.vertices && v !in unvisited
    requires WalkFromTo(g, s, v, p) && WalkWeight(g, p) == d && LowerBound(g, s, v, d)
    ensures dist[v] == Fin(d)
  {
  }

  /** The weight lookup meets the edge at index `k` first when no earlier edge joins the same pair. */
  lemma {:induction false} WeightAt(es: seq<Edge>, k: nat, a: Vertex, b: Vertex)
    requires k < |es| && Joins(es[k], a, b)
    requires forall j :: 0 <= j < k ==> !Joins(es[j], a, b)
    ensures EdgeWeight(es, a, b) == es[k].w
    decreases k
  {
    if k > 0 {
      assert !Joins(es[0], a, b);
      WeightAt(es[1..], k - 1, a, b);
    }
  }

  /** The index of an edge joining two adjacent vertices. */
  lemma JoiningIndex(g: Graph, a: Vertex, b: Vertex) returns (k: nat)
    requires Adjacent(g, a, b)
    ensures k < |g.edges| && Joins(g.edges[k], a, b)
  {
    var e :| e in g.edges && Joins(e, a, b);
    var i :| 0 <= i < |g.edges| && g.edges[i] == e;
    k := i;
  }

  /** Three one-element sequences make a three-element one. */
  lemma Spell<T>(a: T, b: T, c: T)
    ensures [a] + [b] == [a, b] && [a, b] + [c] == [a, b, c] && [a] + [b] + [c] == [a, b, c]
  {
  }

  /** The head of `x`'s list comes from the first edge that touches `x`, here at its second end. */
  lemma AdjacencyHead(edges: seq<Edge>, k: nat, x: Vertex)
    requires k < |edges| && edges[k].v == x && edges[k].u != x
    requires forall j :: 0 <= j < k ==> edges[j].u != x && edges[j].v != x
    ensures |AdjacencyOf(edges, x)| > 0 && AdjacencyOf(edges, x)[0] == (edges[k].u, edges[k].w)
  {
    var front, e, rest := edges[..k], edges[k], edges[k + 1..];
    assert edges == front + ([e] + rest);
    AdjacencyAppend(front, [e] + rest, x);
    AdjacencyUntouched(front, x);
    AdjacencyAppend([e], rest, x);
    assert [e][..0] == [];
    assert AdjacencyOf([e], x) == [(e.u, e.w)];
  }

  /** One step of the predecessor chain. */
  lemma PredStep(g: Graph, s: Vertex, dist: map<Vertex, Dist>, pred: Pred, v: Vertex, p: Vertex)
    requires Consistent(g, s, dist, pred) && v in g.vertices && v != s && pred[v] == Some(p)
    ensures p in g.vertices
    ensures PredPath(g, s, dist, pred, v) == Extend(PredPath(g, s, dist, pred, p), [v])
  {
  }

  // ------------------------------------------------------ the first scene

  /**
   * What the argument about the first scene uses of its graph: it is well
   * formed, the true distances from A are a feasible potential, the few
   * weights and adjacencies along A, E, J and around J, E and I.
   */
  ghost predicate FirstShape(g: Graph) {
    && WellFormed(g)
    && "A" in g.vertices && "E" in g.vertices && "I" in g.vertices && "J" in g.vertices
    && Adjacent(g, "A", "E") && Adjacent(g, "E", "J") && Adjacent(g, "J", "I")
    && W(g, "A", "E") == 3 && W(g, "E", "J") == 7 && W(g, "J", "I") == 1
    && W(g, "I", "J") == 1 && W(g, "D", "J") == 5 && W(g, "F", "E") == 2 && W(g, "H", "I") == 4
    && (forall p :: Adjacent(g, p, "J") ==> p == "I" || p == "E" || p == "D")
    && (forall p :: Adjacent(g, p, "E") ==> p == "A" || p == "F" || p == "J")
    && (forall p :: Adjacent(g, p, "I") ==> p == "H" || p == "J")
    && LowerBound(g, "A", "D", 8) && LowerBound(g, "A", "F", 3) && LowerBound(g, "A", "H", 8)
    && LowerBound(g, "A", "I", 11) && LowerBound(g, "A", "J", 10)
  }

  lemma FirstNeighbourOfJ(p: Vertex, k: nat)
    requires k < |FirstEdges| && Joins(FirstEdges[k], p, "J")
    ensures p == "I" || p == "E" || p == "D"
  {
  }

  lemma FirstNeighbourOfE(p: Vertex, k: nat)
    requires k < |FirstEdges| && Joins(FirstEdges[k], p, "E")
    ensures p == "A" || p == "F" || p == "J"
  {
  }

  lemma FirstNeighbourOfI(p: Vertex, k: nat)
    requires k < |FirstEdges| && Joins(FirstEdges[k], p, "I")
    ensures p == "H" || p == "J"
  {
  }

  lemma FirstNeighbours()
    ensures forall p :: Adjacent(FirstGraph, p, "J") ==> p == "I" || p == "E" || p == "D"
    ensures forall p :: Adjacent(FirstGraph, p, "E") ==> p == "A" || p == "F" || p == "J"
    ensures forall p :: Adjacent(FirstGraph, p, "I") ==> p == "H" || p == "J"
  {
    forall p | Adjacent(FirstGraph, p, "J") ensures p == "I" || p == "E" || p == "D" {
      var k := JoiningIndex(FirstGraph, p, "J");
      FirstNeighbourOfJ(p, k);
    }
    forall p | Adjacent(FirstGraph, p, "E") ensures p == "A" || p == "F" || p == "J" {
      var k := JoiningIndex(FirstGraph, p, "E");
      FirstNeighbourOfE(p, k);
    }
    forall p | Adjacent(FirstGraph, p, "I") ensures p == "H" || p == "J" {
      var k := JoiningIndex(FirstGraph, p, "I");
      FirstNeighbourOfI(p, k);
    }
  }

  lemma FirstWeightAE()
    ensures W(FirstGraph, "A", "E") == 3
  {
    WeightAt(FirstEdges, 1, "A", "E");
  }

  lemma FirstWeightFE()
    ensures W(FirstGraph, "F", "E") == 2
  {
    WeightAt(FirstEdges, 7, "F", "E");
  }

  lemma FirstWeightEJ()
    ensures W(FirstGraph, "E", "J") == 7
  {
    WeightAt(FirstEdges, 12, "E", "J");
  }

  lemma FirstWeightJI()
    ensures W(FirstGraph, "J", "I") == 1
  {
    WeightAt(FirstEdges, 11, "J", "I");
  }

  lemma FirstWeightIJ()
    ensures W(FirstGraph, "I", "J") == 1
  {
    WeightAt(FirstEdges, 11, "I", "J");
  }

  lemma FirstWeightDJ()
    ensures W(FirstGraph, "D", "J") == 5
  {
    WeightAt(FirstEdges, 13, "D", "J");
  }

  lemma FirstWeightHI()
    ensures W(FirstGraph, "H", "I") == 4
  {
    WeightAt(FirstEdges, 10, "H", "I");
  }

  lemma FirstAdjacent()
    ensures "A" in FirstGraph.vertices && "E" in FirstGraph.vertices && "I" in FirstGraph.vertices && "J" in FirstGraph.vertices
    ensures Adjacent(FirstGraph, "A", "E") && Adjacent(FirstGraph, "E", "J") && Adjacent(FirstGraph, "J", "I")
  {
    assert Joins(FirstEdges[1], "A", "E") && Joins(FirstEdges[12], "E", "J") && Joins(FirstEdges[11], "J", "I");
  }

  /** The true distances bound every walk from A. */
  lemma FirstBoundD()
    ensures LowerBound(FirstGraph, "A", "D", 8)
  {
    FirstGraphFacts();
    PotentialLowerBound(FirstGraph, "A", "D", FirstDistances);
  }

  lemma FirstBoundF()
    ensures LowerBound(FirstGraph, "A", "F", 3)
  {
    FirstGraphFacts();
    PotentialLowerBound(FirstGraph, "A", "F", FirstDistances);
  }

  lemma FirstBoundH()
    ensures LowerBound(FirstGraph, "A", "H", 8)
  {
    FirstGraphFacts();
    PotentialLowerBound(FirstGraph, "A", "H", FirstDistances);
  }

  lemma FirstBoundI()
    ensures LowerBound(FirstGraph, "A", "I", 11)
  {
    FirstGraphFacts();
    PotentialLowerBound(FirstGraph, "A", "I", FirstDistances);
  }

  lemma FirstBoundJ()
    ensures LowerBound(FirstGraph, "A", "J", 10)
  {
    FirstGraphFacts();
    PotentialLowerBound(FirstGraph, "A", "J", FirstDistances);
  }

  lemma FirstShapeHolds()
    ensures FirstShape(FirstGraph)
  {
    FirstGraphFacts();
    FirstBoundD();
    FirstBoundF();
    FirstBoundH();
    FirstBoundI();
    FirstBoundJ();
    FirstNeighbours();
    FirstWeightAE();
    FirstWeightFE();
    FirstWeightEJ();
    FirstWeightJI();
    FirstWeightIJ();
    FirstWeightDJ();
    FirstWeightHI();
    FirstAdjacent();
  }

  /** A, E, J is a walk of weight 10. */
  lemma FirstWalk(g: Graph)
    requires FirstShape(g)
    ensures WalkFromTo(g, "A", "J", ["A", "E", "J"])
    ensures WalkWeight(g, ["A", "E", "J"]) == 10
  {
    Spell("A", "E", "J");
    assert IsWalk(g, ["A"]);
    WalkExtend(g, ["A"], "E");
    WalkExtend(g, ["A", "E"], "J");
  }

  /** The search reaches J and finalises it at distance 10. */
  lemma FirstEnd(g: Graph, unvisited: set<Vertex>, dist: map<Vertex, Dist>)
    requires FirstShape(g) && dist.Keys == VertexSet(g)
    requires FinalisedShortest(g, "A", unvisited, dist)
    requires "J" in unvisited ==> !Reachable(g, "A", "J")
    ensures "J" !in unvisited && dist["J"] == Fin(10)
  {
    FirstWalk(g);
    FinalisedAt(g, "A", unvisited, dist, "J", ["A", "E", "J"], 10);
  }

  /** J's only neighbour whose distance fits 10 is E. */
  lemma FirstPredOfJ(g: Graph, dist: map<Vertex, Dist>, pred: Pred)
    requires FirstShape(g) && Consistent(g, "A", dist, pred)
    requires dist["J"] == Fin(10)
    ensures pred["J"] == Some("E") && dist["E"] == Fin(3)
  {
    var p := pred["J"].value;
    assert Linked(g, dist, p, "J");
    if p == "I" {
      AtLeast(g, "A", dist, pred, p, 11);
    } else if p == "D" {
      AtLeast(g, "A", dist, pred, p, 8);
    }
  }

  /** E's only neighbour whose distance fits 3 is A. */
  lemma FirstPredOfE(g: Graph, dist: map<Vertex, Dist>, pred: Pred)
    requires FirstShape(g) && Consistent(g, "A", dist, pred)
    requires dist["E"] == Fin(3) && dist["J"] == Fin(10)
    ensures pred["E"] == Some("A")
  {
    var p := pred["E"].value;
    assert Linked(g, dist, p, "E");
    if p == "F" {
      AtLeast(g, "A", dist, pred, p, 3);
    } else if p == "J" {
      WeightPositive(g, "E", "J");
    }
  }

  /** I is still unvisited when the loop stops: it is farther than J, which was selected last. */
  lemma FirstStillUnvisited(g: Graph, unvisited: set<Vertex>, dist: map<Vertex, Dist>, pred: Pred, rounds: seq<Round>)
    requires FirstShape(g) && Consistent(g, "A", dist, pred)
    requires RoundVertices(rounds) == VertexSet(g) - unvisited && Logged(g, dist, rounds)
    requires LastRoundIs(rounds, "J") && dist["J"] == Fin(10)
    ensures "I" in unvisited
  {
    if "I" !in unvisited {
      assert "I" in RoundVertices(rounds);
      var i :| 0 <= i < |rounds| && rounds[i].vertex == "I";
      assert i < |rounds| - 1;
      AtLeast(g, "A", dist, pred, "I", 11);
    }
  }

  /** The last round relaxes I through J to 11, and nothing undercuts that. */
  lemma FirstRelaxedLast(g: Graph, unvisited: set<Vertex>, dist: map<Vertex, Dist>, pred: Pred)
    requires FirstShape(g) && Consistent(g, "A", dist, pred)
    requires unvisited <= VertexSet(g) && FrontierRelaxed(g, unvisited, dist)
    requires "J" !in unvisited && "I" in unvisited && dist["J"] == Fin(10)
    ensures dist["I"] == Fin(11)
  {
    assert AtMost(dist["I"], Through(g, dist, "J", "I"));
    AtLeast(g, "A", dist, pred, "I", 11);
  }

  /** I's only neighbour whose distance fits 11 is J. */
  lemma FirstPredOfI(g: Graph, dist: map<Vertex, Dist>, pred: Pred)
    requires FirstShape(g) && Consistent(g, "A", dist, pred)
    requires dist["I"] == Fin(11)
    ensures pred["I"] == Some("J")
  {
    var p := pred["I"].value;
    assert Linked(g, dist, p, "I");
    if p == "H" {
      AtLeast(g, "A", dist, pred, p, 8);
    }
  }

  lemma FirstPath(g: Graph, dist: map<Vertex, Dist>, pred: Pred)
    requires FirstShape(g) && Consistent(g, "A", dist, pred)
    requires pred["J"] == Some("E") && pred["E"] == Some("A")
    ensures PredPath(g, "A", dist, pred, "J") == Some(["A", "E", "J"])
  {
    PredStep(g, "A", dist, pred, "J", "E");
    PredStep(g, "A", dist, pred, "E", "A");
    Spell("A", "E", "J");
  }

  /**
   * The first scene from A to J on a graph of the built-in graph's shape:
   * whatever vertex each round picks among equal minima, J ends at
   * distance 10, the path shown is A, E, J, and I, relaxed to 11 through J
   * in the last round, is left unvisited.
   */
  method FirstScene(g: Graph)
    returns (dist: map<Vertex, Dist>, pred: Pred, unvisited: set<Vertex>, path: Option<seq<Vertex>>,
             ops: seq<Op>, ghost rounds: seq<Round>)
    requires FirstShape(g)
    ensures "I" in dist && "J" in dist && "I" in pred
    ensures path == Some(["A", "E", "J"]) && dist["J"] == Fin(10)
    ensures "I" in unvisited && dist["I"] == Fin(11) && pred["I"] == Some("J")
    ensures LastRoundIs(rounds, "J")
  {
    ghost var stages;
    dist, pred, unvisited, path, ops, rounds, stages := SceneOne(g, "A", "J");
    FirstEnd(g, unvisited, dist);
    FirstPredOfJ(g, dist, pred);
    FirstPredOfE(g, dist, pred);
    FirstPath(g, dist, pred);
    FirstStillUnvisited(g, unvisited, dist, pred, rounds);
    FirstRelaxedLast(g, unvisited, dist, pred);
    FirstPredOfI(g, dist, pred);
  }

  /** The first scene as the source runs it: on its built-in graph from A to J. */
  method BuiltInFirstScene()
    returns (dist: map<Vertex, Dist>, pred: Pred, unvisited: set<Vertex>, path: Option<seq<Vertex>>,
             ops: seq<Op>, ghost rounds: seq<Round>)
    ensures "I" in dist && "J" in dist && "I" in pred
    ensures path == Some(["A", "E", "J"]) && dist["J"] == Fin(10)
    ensures "I" in unvisited && dist["I"] == Fin(11) && pred["I"] == Some("J")
    ensures LastRoundIs(rounds, "J")
  {
    FirstShapeHolds();
    dist, pred, unvisited, path, ops, rounds := FirstScene(FirstGraph);
  }

  // ------------------------------------------------------ the second scene

  /**
   * What the argument about the second scene uses of its graph: it is well
   * formed, the walks A, B, C, D and A, E, F with their weights, the true
   * distances as lower bounds, and the head of the adjacency lists of D, C
   * and B.
   */
  ghost predicate SecondShape(g: Graph) {
    && WellFormed(g)
    && "A" in g.vertices && "B" in g.vertices && "C" in g.vertices && "D" in g.vertices
    && "E" in g.vertices && "F" in g.vertices
    && Adjacent(g, "A", "B") && Adjacent(g, "B", "C") && Adjacent(g, "C", "D")
    && Adjacent(g, "A", "E") && Adjacent(g, "E", "F")
    && W(g, "A", "B") == 2 && W(g, "B", "C") == 2 && W(g, "C", "D") == 1
    && W(g, "A", "E") == 1 && W(g, "E", "F") == 5
    && LowerBound(g, "A", "B", 2) && LowerBound(g, "A", "C", 4) && LowerBound(g, "A", "D", 5)
    && LowerBound(g, "A", "E", 1) && LowerBound(g, "A", "F", 6)
    && |AdjacencyOf(g.edges, "D")| > 0 && AdjacencyOf(g.edges, "D")[0] == ("C", 1)
    && |AdjacencyOf(g.edges, "C")| > 0 && AdjacencyOf(g.edges, "C")[0] == ("B", 2)
    && |AdjacencyOf(g.edges, "B")| > 0 && AdjacencyOf(g.edges, "B")[0] == ("A", 2)
  }

  lemma SecondWeightAB()
    ensures W(SecondGraph, "A", "B") == 2
  {
    WeightAt(SecondEdges, 0, "A", "B");
  }

  lemma SecondWeightBC()
    ensures W(SecondGraph, "B", "C") == 2
  {
    WeightAt(SecondEdges, 2, "B", "C");
  }

  lemma SecondWeightCD()
    ensures W(SecondGraph, "C", "D") == 1
  {
    WeightAt(SecondEdges, 4, "C", "D");
  }

  lemma SecondWeightAE()
    ensures W(SecondGraph, "A", "E") == 1
  {
    WeightAt(SecondEdges, 1, "A", "E");
  }

  lemma SecondWeightEF()
    ensures W(SecondGraph, "E", "F") == 5
  {
    WeightAt(SecondEdges, 7, "E", "F");
  }

  lemma SecondBoundB()
    ensures LowerBound(SecondGraph, "A", "B", 2)
  {
    SecondGraphFacts();
    PotentialLowerBound(SecondGraph, "A", "B", SecondDistances);
  }

  lemma SecondBoundC()
    ensures LowerBound(SecondGraph, "A", "C", 4)
  {
    SecondGraphFacts();
    PotentialLowerBound(SecondGraph, "A", "C", SecondDistances);
  }

  lemma SecondBoundD()
    ensures LowerBound(SecondGraph, "A", "D", 5)
  {
    SecondGraphFacts();
    PotentialLowerBound(SecondGraph, "A", "D", SecondDistances);
  }

  lemma SecondBoundE()
    ensures LowerBound(SecondGraph, "A", "E", 1)
  {
    SecondGraphFacts();
    PotentialLowerBound(SecondGraph, "A", "E", SecondDistances);
  }

  lemma SecondBoundF()
    ensures LowerBound(SecondGraph, "A", "F", 6)
  {
    SecondGraphFacts();
    PotentialLowerBound(SecondGraph, "A", "F", SecondDistances);
  }

  lemma SecondHeadD()
    ensures |AdjacencyOf(SecondGraph.edges, "D")| > 0 && AdjacencyOf(SecondGraph.edges, "D")[0] == ("C", 1)
  {
    AdjacencyHead(SecondEdges, 4, "D");
  }

  lemma SecondHeadC()
    ensures |AdjacencyOf(SecondGraph.edges, "C")| > 0 && AdjacencyOf(SecondGraph.edges, "C")[0] == ("B", 2)
  {
    AdjacencyHead(SecondEdges, 2, "C");
  }

  lemma SecondHeadB()
    ensures |AdjacencyOf(SecondGraph.edges, "B")| > 0 && AdjacencyOf(SecondGraph.edges, "B")[0] == ("A", 2)
  {
    AdjacencyHead(SecondEdges, 0, "B");
  }

  lemma SecondAdjacent()
    ensures "A" in SecondGraph.vertices && "B" in SecondGraph.vertices && "C" in SecondGraph.vertices
    ensures "D" in SecondGraph.vertices && "E" in SecondGraph.vertices && "F" in SecondGraph.vertices
    ensures Adjacent(SecondGraph, "A", "B") && Adjacent(SecondGraph, "B", "C") && Adjacent(SecondGraph, "C", "D")
    ensures Adjacent(SecondGraph, "A", "E") && Adjacent(SecondGraph, "E", "F")
  {
    assert Joins(SecondEdges[0], "A", "B") && Joins(SecondEdges[2], "B", "C") && Joins(SecondEdges[4], "C", "D");
    assert Joins(SecondEdges[1], "A", "E") && Joins(SecondEdges[7], "E", "F");
  }

  lemma SecondShapeHolds()
    ensures SecondShape(SecondGraph)
  {
    SecondGraphFacts();
    SecondAdjacent();
    SecondWeightAB();
    SecondWeightBC();
    SecondWeightCD();
    SecondWeightAE();
    SecondWeightEF();
    SecondBoundB();
    SecondBoundC();
    SecondBoundD();
    SecondBoundE();
    SecondBoundF();
    SecondHeadD();
    SecondHeadC();
    SecondHeadB();
  }

  /** A, B, C, D weighs 5 and passes B at 2 and C at 4; A, E weighs 1. */
  lemma SecondWalks(g: Graph)
    requires SecondShape(g)
    ensures WalkFromTo(g, "A", "B", ["A", "B"]) && WalkWeight(g, ["A", "B"]) == 2
    ensures WalkFromTo(g, "A", "C", ["A", "B", "C"]) && WalkWeight(g, ["A", "B", "C"]) == 4
    ensures WalkFromTo(g, "A", "D", ["A", "B", "C", "D"]) && WalkWeight(g, ["A", "B", "C", "D"]) == 5
    ensures WalkFromTo(g, "A", "E", ["A", "E"]) && WalkWeight(g, ["A", "E"]) == 1
  {
    Spell("A", "B", "C");
    Spell("A", "E", "F");
    Spell4("A", "B", "C", "D");
    assert IsWalk(g, ["A"]);
    WalkExtend(g, ["A"], "B");
    WalkExtend(g, ["A", "B"], "C");
    WalkExtend(g, ["A", "B", "C"], "D");
    WalkExtend(g, ["A"], "E");
  }

  lemma Spell4<T>(a: T, b: T, c: T, d: T)
    ensures [a, b, c] + [d] == [a, b, c, d]
  {
  }

  /** A walk lighter than `d` rules out a lower bound of `d`. */
  lemma Lighter(g: Graph, s: Vertex, v: Vertex, p: seq<Vertex>, d: nat)
    requires WalkFromTo(g, s, v, p) && WalkWeight(g, p) < d
    ensures !LowerBound(g, s, v, d)
  {
  }

  /** The search finalises D at 5, and with it every vertex closer than D. */
  lemma SecondFinalised(g: Graph, unvisited: set<Vertex>, dist: map<Vertex, Dist>)
    requires SecondShape(g) && dist.Keys == VertexSet(g)
    requires FinalisedShortest(g, "A", unvisited, dist)
    requires "D" in unvisited ==> !Reachable(g, "A", "D")
    requires "D" !in unvisited ==> forall v :: v in unvisited ==> LowerBound(g, "A", v, dist["D"].n)
    ensures "D" !in unvisited && dist["D"] == Fin(5)
    ensures "C" !in unvisited && dist["C"] == Fin(4)
    ensures "B" !in unvisited && dist["B"] == Fin(2)
    ensures "E" !in unvisited && dist["E"] == Fin(1)
  {
    SecondWalks(g);
    FinalisedAt(g, "A", unvisited, dist, "D", ["A", "B", "C", "D"], 5);
    Lighter(g, "A", "C", ["A", "B", "C"], 5);
    FinalisedAt(g, "A", unvisited, dist, "C", ["A", "B", "C"], 4);
    Lighter(g, "A", "B", ["A", "B"], 5);
    FinalisedAt(g, "A", unvisited, dist, "B", ["A", "B"], 2);
    Lighter(g, "A", "E", ["A", "E"], 5);
    FinalisedAt(g, "A", unvisited, dist, "E", ["A", "E"], 1);
  }

  /** One step back from `v`: the head of its list is tight, so the walk moves to that neighbour. */
  lemma SecondStep(g: Graph, dist: map<Vertex, Dist>, v: Vertex, n: Vertex, w: nat)
    requires WellFormed(g) && dist.Keys == VertexSet(g) && v in dist && v != "A" && dist[v].Fin?
    requires |AdjacencyOf(g.edges, v)| > 0 && AdjacencyOf(g.edges, v)[0] == (n, w)
    requires n in dist && Plus(dist[n], w) == dist[v]
    ensures n in dist
    ensures DistancePairs(g, "A", dist, v) == Extend(DistancePairs(g, "A", dist, n), [(n, v)])
  {
    assert FirstTight(AdjacencyOf(g.edges, v), dist, dist[v]) == Some((n, w));
    PairsStep(g, "A", dist, v);
  }

  /** Walking back from D at 5 meets C at 4, then B at 2, then A. */
  lemma SecondPairs(g: Graph, dist: map<Vertex, Dist>)
    requires WellFormed(g) && dist.Keys == VertexSet(g)
    requires "A" in dist && "B" in dist && "C" in dist && "D" in dist
    requires |AdjacencyOf(g.edges, "D")| > 0 && AdjacencyOf(g.edges, "D")[0] == ("C", 1)
    requires |AdjacencyOf(g.edges, "C")| > 0 && AdjacencyOf(g.edges, "C")[0] == ("B", 2)
    requires |AdjacencyOf(g.edges, "B")| > 0 && AdjacencyOf(g.edges, "B")[0] == ("A", 2)
    requires dist["A"] == Fin(0) && dist["B"] == Fin(2) && dist["C"] == Fin(4) && dist["D"] == Fin(5)
    ensures DistancePairs(g, "A", dist, "D") == Some([("A", "B"), ("B", "C"), ("C", "D")])
  {
    SecondStep(g, dist, "D", "C", 1);
    SecondStep(g, dist, "C", "B", 2);
    SecondStep(g, dist, "B", "A", 2);
    PairsFromA(DistancePairs(g, "A", dist, "A"), ("A", "B"), ("B", "C"), ("C", "D"));
  }

  lemma PairsFromA<T>(o: Option<seq<T>>, a: T, b: T, c: T)
    requires o == Some([])
    ensures Extend(Extend(Extend(o, [a]), [b]), [c]) == Some([a, b, c])
  {
    assert [] + [a] == [a];
    assert [a] + [b] == [a, b];
    assert [a, b] + [c] == [a, b, c];
  }

  /** F cannot have been finalised before D: its distance is at least 6 and D's is 5. */
  lemma SecondStillUnvisited(g: Graph, unvisited: set<Vertex>, dist: map<Vertex, Dist>, pred: Pred, rounds: seq<Round>)
    requires SecondShape(g) && Consistent(g, "A", dist, pred)
    requires RoundVertices(rounds) == VertexSet(g) - unvisited && Logged(g, dist, rounds)
    requires LastRoundIs(rounds, "D") && dist["D"] == Fin(5)
    ensures "F" in unvisited
  {
    if "F" !in unvisited {
      assert "F" in RoundVertices(rounds);
      var i :| 0 <= i < |rounds| && rounds[i].vertex == "F";
      assert i < |rounds| - 1;
      AtLeast(g, "A", dist, pred, "F", 6);
    }
  }

  /** F is left at 6 through E: nothing offers less. */
  lemma SecondFarSide(g: Graph, unvisited: set<Vertex>, dist: map<Vertex, Dist>, pred: Pred)
    requires Consistent(g, "A", dist, pred) && "E" in g.vertices && "F" in g.vertices
    requires Adjacent(g, "E", "F") && W(g, "E", "F") == 5 && LowerBound(g, "A", "F", 6)
    requires unvisited <= VertexSet(g) && FrontierRelaxed(g, unvisited, dist)
    requires "E" !in unvisited && "F" in unvisited && dist["E"] == Fin(1)
    ensures dist["F"] == Fin(6)
  {
    assert AtMost(dist["F"], Through(g, dist, "E", "F"));
    AtLeast(g, "A", dist, pred, "F", 6);
  }

  lemma SecondSequence()
    ensures PathSequence("A", [("A", "B"), ("B", "C"), ("C", "D")]) == ["A", "B", "C", "D"]
  {
  }

  /**
   * The second scene from A to D on a graph of the built-in graph's shape:
   * D ends at distance 5, the pairs walked back are (A, B), (B, C), (C, D),
   * the sequence written is A, B, C, D, and F is left unvisited at 6.
   */
  method SecondScene(g: Graph)
    returns (dist: map<Vertex, Dist>, unvisited: set<Vertex>, path: Option<seq<Pair>>, ops: seq<Op>,
             ghost pred: Pred, ghost rounds: seq<Round>)
    requires SecondShape(g)
    ensures "D" in dist && "F" in dist
    ensures path == Some([("A", "B"), ("B", "C"), ("C", "D")]) && dist["D"] == Fin(5)
    ensures PathSequence("A", path.value) == ["A", "B", "C", "D"]
    ensures "F" in unvisited && dist["F"] == Fin(6)
    ensures LastRoundIs(rounds, "D")
  {
    ghost var stages;
    dist, unvisited, path, ops, pred, rounds, stages := SceneTwo(g, "A", "D");
    SecondFinalised(g, unvisited, dist);
    SecondPairs(g, dist);
    SecondSequence();
    SecondStillUnvisited(g, unvisited, dist, pred, rounds);
    SecondFarSide(g, unvisited, dist, pred);
  }

  /** The second scene as the source runs it: on its built-in graph from A to D. */
  method BuiltInSecondScene()
    returns (dist: map<Vertex, Dist>, unvisited: set<Vertex>, path: Option<seq<Pair>>, ops: seq<Op>,
             ghost pred: Pred, ghost rounds: seq<Round>)
    ensures "D" in dist && "F" in dist
    ensures path == Some([("A", "B"), ("B", "C"), ("C", "D")]) && dist["D"] == Fin(5)
    ensures PathSequence("A", path.value) == ["A", "B", "C", "D"]
    ensures "F" in unvisited && dist["F"] == Fin(6)
    ensures LastRoundIs(rounds, "D")
  {
    SecondShapeHolds();
    dist, unvisited, path, ops, pred, rounds := SecondScene(SecondGraph);
  }
}
