/**
 * `reconstruct_path` of the first scene: follow the predecessor dictionary
 * back from the end vertex, then reverse.  Also the consistency the search
 * keeps between its distance and predecessor tables, which is what makes the
 * walk back terminate and yield a shortest path.
 */
module PredecessorPath {
  import opened Opt
  import opened Lists
  import opened Graphs
  import opened Distance

  type Pred = map<Vertex, Option<Vertex>>

  function Rank(d: Dist): nat {
    match d
    case Fin(n) => n
    case Inf => 0
  }

  /** `p` is recorded as `v`'s predecessor for a reason: an edge from `p` that gives exactly `v`'s distance. */
  ghost predicate Linked(g: Graph, dist: map<Vertex, Dist>, p: Vertex, v: Vertex) {
    && p in g.vertices && p in dist && v in dist
    && Adjacent(g, p, v)
    && dist[p].Fin?
    && dist[v] == Fin(dist[p].n + W(g, p, v))
  }

  /**
   * The tables the search maintains: the start at distance 0 with no
   * predecessor, every other vertex with a predecessor exactly when its
   * distance is finite, and every predecessor linked.
   */
  ghost predicate Consistent(g: Graph, start: Vertex, dist: map<Vertex, Dist>, pred: Pred) {
    && WellFormed(g)
    && start in g.vertices
    && dist.Keys == VertexSet(g) && pred.Keys == VertexSet(g)
    && dist[start] == Fin(0) && pred[start] == None
    && (forall v :: v in g.vertices && v != start ==> (pred[v].None? <==> dist[v].Inf?))
    && (forall v :: v in g.vertices && pred[v].Some? ==> Linked(g, dist, pred[v].value, v))
  }

  lemma LinkedDecreases(g: Graph, start: Vertex, dist: map<Vertex, Dist>, pred: Pred, v: Vertex)
    requires Consistent(g, start, dist, pred) && v in g.vertices && pred[v].Some?
    ensures pred[v].value in g.vertices
    ensures Rank(dist[pred[v].value]) < Rank(dist[v])
  {
    WeightPositive(g, pred[v].value, v);
  }

  /** The path the predecessor chain spells from `start` to `v`, or `None` if it breaks off. */
  function PredPath(g: Graph, start: Vertex, dist: map<Vertex, Dist>, pred: Pred, v: Vertex): Option<seq<Vertex>>
    requires Consistent(g, start, dist, pred) && v in g.vertices
    decreases Rank(dist[v])
  {
    if v == start then Some([start])
    else match pred[v]
      case None => None
      case Some(p) =>
        LinkedDecreases(g, start, dist, pred, v);
        Extend(PredPath(g, start, dist, pred, p), [v])
  }

  /** `reconstruct_path(predecessors, start, end)`: walk back, append, reverse. */
  method ReconstructPath(ghost g: Graph, ghost dist: map<Vertex, Dist>, pred: Pred, start: Vertex, end: Vertex)
    returns (path: Option<seq<Vertex>>)
    requires Consistent(g, start, dist, pred) && end in g.vertices
    ensures path == PredPath(g, start, dist, pred, end)
  {
    var back: seq<Vertex> := [];
    var current := end;
    ExtendNil(PredPath(g, start, dist, pred, end));
    while current != start
      invariant current in g.vertices
      invariant PredPath(g, start, dist, pred, end) == Extend(PredPath(g, start, dist, pred, current), Reverse(back))
      decreases Rank(dist[current])
    {
      if pred[current].None? {
        return None;
      }
      var p := pred[current].value;
      WalkBackStep(g, start, dist, pred, end, current, back);
      back := back + [current];
      current := p;
    }
    ReverseSnoc(back, start);
    back := back + [start];
    path := Some(Reverse(back));
  }

  /** One step of the walk back keeps the loop's invariant: the part still to walk plus the reversed part walked. */
  lemma WalkBackStep(g: Graph, start: Vertex, dist: map<Vertex, Dist>, pred: Pred, end: Vertex, current: Vertex, back: seq<Vertex>)
    requires Consistent(g, start, dist, pred) && end in g.vertices && current in g.vertices
    requires current != start && pred[current].Some?
    requires PredPath(g, start, dist, pred, end) == Extend(PredPath(g, start, dist, pred, current), Reverse(back))
    ensures pred[current].value in g.vertices
    ensures Rank(dist[pred[current].value]) < Rank(dist[current])
    ensures PredPath(g, start, dist, pred, end)
         == Extend(PredPath(g, start, dist, pred, pred[current].value), Reverse(back + [current]))
  {
    LinkedDecreases(g, start, dist, pred, current);
    var p := pred[current].value;
    ReverseSnoc(back, current);
    ExtendAssoc(PredPath(g, start, dist, pred, p), [current], Reverse(back));
  }

  /** The walk back fails exactly for vertices the search never reached. */
  lemma {:induction false} PredPathDefined(g: Graph, start: Vertex, dist: map<Vertex, Dist>, pred: Pred, v: Vertex)
    requires Consistent(g, start, dist, pred) && v in g.vertices
    ensures PredPath(g, start, dist, pred, v).Some? <==> dist[v].Fin?
    decreases Rank(dist[v])
  {
    if v != start && pred[v].Some? {
      LinkedDecreases(g, start, dist, pred, v);
      PredPathDefined(g, start, dist, pred, pred[v].value);
    }
  }

  /**
   * A reconstructed path starts at `start`, ends at `v`, uses only declared
   * edges and weighs exactly `v`'s distance.
   */
  lemma {:induction false} PredPathIsWalk(g: Graph, start: Vertex, dist: map<Vertex, Dist>, pred: Pred, v: Vertex)
    requires Consistent(g, start, dist, pred) && v in g.vertices
    requires PredPath(g, start, dist, pred, v).Some?
    ensures var p := PredPath(g, start, dist, pred, v).value;
      WalkFromTo(g, start, v, p) && dist[v] == Fin(WalkWeight(g, p))
    decreases Rank(dist[v])
  {
    if v != start {
      var u := pred[v].value;
      LinkedDecreases(g, start, dist, pred, v);
      PredPathIsWalk(g, start, dist, pred, u);
      WalkExtend(g, PredPath(g, start, dist, pred, u).value, v);
    }
  }

  /** Each vertex of a reconstructed path is recorded as the predecessor of the next. */
  lemma {:induction false} PredPathFollowsLinks(g: Graph, start: Vertex, dist: map<Vertex, Dist>, pred: Pred, v: Vertex)
    requires Consistent(g, start, dist, pred) && v in g.vertices
    requires PredPath(g, start, dist, pred, v).Some?
    ensures var p := PredPath(g, start, dist, pred, v).value;
      && |p| > 0 && p[|p| - 1] == v
      && forall i :: 0 < i < |p| ==> p[i] in pred && pred[p[i]] == Some(p[i - 1])
    decreases Rank(dist[v])
  {
    var p := PredPath(g, start, dist, pred, v).value;
    if v != start {
      var u := pred[v].value;
      LinkedDecreases(g, start, dist, pred, v);
      PredPathFollowsLinks(g, start, dist, pred, u);
      var q := PredPath(g, start, dist, pred, u).value;
      assert p == q + [v];
      forall i | 0 < i < |p|
        ensures p[i] in pred && pred[p[i]] == Some(p[i - 1])
      {
        if i < |q| {
          assert p[i] == q[i] && p[i - 1] == q[i - 1];
        }
      }
    }
  }

  /** Finite distances are achieved: the predecessor chain of `v` is a walk of exactly that weight. */
  lemma Achieved(g: Graph, start: Vertex, dist: map<Vertex, Dist>, pred: Pred, v: Vertex)
    requires Consistent(g, start, dist, pred) && v in g.vertices && dist[v].Fin?
    ensures exists p :: WalkFromTo(g, start, v, p) && WalkWeight(g, p) == dist[v].n
  {
    PredPathDefined(g, start, dist, pred, v);
    PredPathIsWalk(g, start, dist, pred, v);
  }
}
