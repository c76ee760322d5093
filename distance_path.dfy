/**
 * `reconstruct_path` of the second scene: rebuild an adjacency dictionary
 * from the edge list, then walk back from the end vertex, each time moving
 * to the first neighbour whose distance plus the edge weight equals the
 * current vertex's distance, and finally reverse the collected pairs.
 *
 * As written the walk back never checks for an infinite distance, and
 * `inf + w == inf` holds, so from an unreached vertex with an unreached
 * neighbour it moves forever.  `AsWrittenCurrent` models that loop;
 * `DistancePairs` and `ReconstructByDistance` carry the guard that returns
 * `None` as soon as the current distance is infinite.
 */
module DistancePath {
  import opened Opt
  import opened Lists
  import opened Graphs
  import opened Distance
  import opened PredecessorPath

  /** One entry of an adjacency list: `(neighbour, weight)`. */
  type Entry = (Vertex, nat)

  /** One step of a reconstructed path: `(neighbour, current)`. */
  type Pair = (Vertex, Vertex)

  /** `distances.get(v, float('inf'))`. */
  function Get(dist: map<Vertex, Dist>, v: Vertex): Dist {
    if v in dist then dist[v] else Inf
  }

  // ------------------------------------------------------- adjacency lists

  /** What one edge adds to `x`'s list: the `graph_dict[u]` append, then the `graph_dict[v]` append. */
  function EdgeEntries(e: Edge, x: Vertex): seq<Entry> {
    (if e.u == x then [(e.v, e.w)] else []) + (if e.v == x then [(e.u, e.w)] else [])
  }

  /** `graph_dict[x]` once every edge has been added, in declared edge order. */
  function AdjacencyOf(edges: seq<Edge>, x: Vertex): seq<Entry>
    decreases |edges|
  {
    if edges == [] then []
    else AdjacencyOf(edges[..|edges| - 1], x) + EdgeEntries(edges[|edges| - 1], x)
  }

  lemma AdjacencySnoc(edges: seq<Edge>, i: nat, x: Vertex)
    requires i < |edges|
    ensures AdjacencyOf(edges[..i + 1], x) == AdjacencyOf(edges[..i], x) + EdgeEntries(edges[i], x)
  {
    assert edges[..i + 1][..i] == edges[..i];
  }

  /** `x`'s list holds exactly the far ends of the edges at `x`, each with that edge's weight. */
  lemma {:induction false} AdjacencyMembers(edges: seq<Edge>, x: Vertex, nb: Vertex, w: nat)
    ensures (nb, w) in AdjacencyOf(edges, x) <==>
      exists e :: e in edges && e.w == w && ((e.u == x && e.v == nb) || (e.v == x && e.u == nb))
    decreases |edges|
  {
    if edges != [] {
      var front := edges[..|edges| - 1];
      var last := edges[|edges| - 1];
      assert edges == front + [last];
      AdjacencyMembers(front, x, nb, w);
    }
  }

  /** The list built from two runs of edges is the first run's list followed by the second's. */
  lemma {:induction false} AdjacencyAppend(a: seq<Edge>, b: seq<Edge>, x: Vertex)
    ensures AdjacencyOf(a + b, x) == AdjacencyOf(a, x) + AdjacencyOf(b, x)
    decreases |b|
  {
    if b == [] {
      assert a + b == a;
    } else {
      var front := b[..|b| - 1];
      assert (a + b)[..|a + b| - 1] == a + front;
      AdjacencyAppend(a, front, x);
    }
  }

  /** Edges that do not touch `x` add nothing to its list. */
  lemma {:induction false} AdjacencyUntouched(edges: seq<Edge>, x: Vertex)
    requires forall j :: 0 <= j < |edges| ==> edges[j].u != x && edges[j].v != x
    ensures AdjacencyOf(edges, x) == []
    decreases |edges|
  {
    if edges != [] {
      AdjacencyUntouched(edges[..|edges| - 1], x);
    }
  }

  /** The dictionary construction at the top of `reconstruct_path`. */
  method BuildAdjacency(dist: map<Vertex, Dist>, edges: seq<Edge>) returns (adj: map<Vertex, seq<Entry>>)
    requires forall e :: e in edges ==> e.u in dist && e.v in dist
    ensures adj.Keys == dist.Keys
    ensures forall x :: x in adj ==> adj[x] == AdjacencyOf(edges, x)
  {
    adj := map v | v in dist :: [];
    for i := 0 to |edges|
      invariant adj.Keys == dist.Keys
      invariant forall x :: x in adj ==> adj[x] == AdjacencyOf(edges[..i], x)
    {
      var e := edges[i];
      adj := adj[e.u := adj[e.u] + [(e.v, e.w)]];
      adj := adj[e.v := adj[e.v] + [(e.u, e.w)]];
      forall x | x in adj
        ensures adj[x] == AdjacencyOf(edges[..i + 1], x)
      {
        AdjacencySnoc(edges, i, x);
      }
    }
    assert edges[..|edges|] == edges;
  }

  /** In a well-formed graph an entry of `x`'s list is an adjacent vertex at the weight `W` reports. */
  lemma EntryIsEdge(g: Graph, x: Vertex, nb: Vertex, w: nat)
    requires WellFormed(g) && (nb, w) in AdjacencyOf(g.edges, x)
    ensures nb in g.vertices && Adjacent(g, nb, x) && w == W(g, nb, x) && w > 0
  {
    AdjacencyMembers(g.edges, x, nb, w);
    var e :| e in g.edges && e.w == w && ((e.u == x && e.v == nb) || (e.v == x && e.u == nb));
    var i :| 0 <= i < |g.edges| && g.edges[i] == e;
    WeightOfEdge(g, i);
    assert Joins(e, nb, x);
  }

  /** Conversely every adjacent vertex is in the list, at the weight `W` reports. */
  lemma EdgeIsEntry(g: Graph, x: Vertex, nb: Vertex)
    requires WellFormed(g) && Adjacent(g, nb, x)
    ensures (nb, W(g, nb, x)) in AdjacencyOf(g.edges, x)
  {
    var i :| 0 <= i < |g.edges| && Joins(g.edges[i], nb, x);
    WeightOfEdge(g, i);
    var e := g.edges[i];
    assert e in g.edges && e.w == W(g, nb, x) && ((e.u == x && e.v == nb) || (e.v == x && e.u == nb));
    AdjacencyMembers(g.edges, x, nb, W(g, nb, x));
  }

  // ---------------------------------------------------- the step backwards

  /** `distances.get(neighbor, inf) + weight == distances[current]`. */
  predicate Tight(dist: map<Vertex, Dist>, entry: Entry, target: Dist) {
    Plus(Get(dist, entry.0), entry.1) == target
  }

  /** The neighbour the inner `for ... break` settles on: the first tight entry, if any. */
  function FirstTight(entries: seq<Entry>, dist: map<Vertex, Dist>, target: Dist): (r: Option<Entry>)
    ensures r.Some? ==> exists i :: 0 <= i < |entries| && entries[i] == r.value && Tight(dist, entries[i], target)
                                    && forall j :: 0 <= j < i ==> !Tight(dist, entries[j], target)
    ensures r.None? ==> forall i :: 0 <= i < |entries| ==> !Tight(dist, entries[i], target)
    decreases |entries|
  {
    if entries == [] then None
    else if Tight(dist, entries[0], target) then Some(entries[0])
    else
      var r := FirstTight(entries[1..], dist, target);
      assert forall i :: 1 <= i < |entries| ==> entries[i] == entries[1..][i - 1];
      r
  }

  /** A tight neighbour of a vertex at a finite distance is strictly closer to the start. */
  lemma TightIsCloser(g: Graph, dist: map<Vertex, Dist>, v: Vertex, entry: Entry)
    requires WellFormed(g) && dist.Keys == VertexSet(g) && v in dist && dist[v].Fin?
    requires entry in AdjacencyOf(g.edges, v) && Tight(dist, entry, dist[v])
    ensures entry.0 in dist && dist[entry.0].Fin?
    ensures dist[v].n == dist[entry.0].n + W(g, entry.0, v)
    ensures Rank(dist[entry.0]) < Rank(dist[v])
  {
    EntryIsEdge(g, v, entry.0, entry.1);
  }

  /**
   * The pairs the corrected walk back produces for `v`, in path order, or
   * `None` where it gives up: at an infinite distance, or with no tight
   * neighbour.
   */
  function DistancePairs(g: Graph, start: Vertex, dist: map<Vertex, Dist>, v: Vertex): Option<seq<Pair>>
    requires WellFormed(g) && dist.Keys == VertexSet(g) && v in dist
    decreases Rank(dist[v])
  {
    if v == start then Some([])
    else if dist[v].Inf? then None
    else match FirstTight(AdjacencyOf(g.edges, v), dist, dist[v])
      case None => None
      case Some(entry) =>
        TightIsCloser(g, dist, v, entry);
        Extend(DistancePairs(g, start, dist, entry.0), [(entry.0, v)])
  }

  /** The inner `for neighbor, weight in graph_dict[current]` loop, stopping at the first tight entry. */
  method ScanNeighbours(entries: seq<Entry>, dist: map<Vertex, Dist>, target: Dist) returns (next: Option<Entry>)
    ensures next == FirstTight(entries, dist, target)
  {
    next := None;
    var i := 0;
    while i < |entries| && next.None?
      invariant 0 <= i <= |entries|
      invariant next.None? ==> FirstTight(entries, dist, target) == FirstTight(entries[i..], dist, target)
      invariant next.Some? ==> FirstTight(entries, dist, target) == next
    {
      assert entries[i..][1..] == entries[i + 1..];
      if Tight(dist, entries[i], target) {
        next := Some(entries[i]);
      }
      i := i + 1;
    }
  }

  /** Away from the start and at a finite distance, the pairs are those of the first tight neighbour plus one step. */
  lemma PairsStep(g: Graph, start: Vertex, dist: map<Vertex, Dist>, v: Vertex)
    requires WellFormed(g) && dist.Keys == VertexSet(g) && v in dist && v != start && dist[v].Fin?
    requires FirstTight(AdjacencyOf(g.edges, v), dist, dist[v]).Some?
    ensures var entry := FirstTight(AdjacencyOf(g.edges, v), dist, dist[v]).value;
      && entry.0 in g.vertices && Adjacent(g, entry.0, v) && entry.0 in dist && dist[entry.0].Fin?
      && dist[v].n == dist[entry.0].n + W(g, entry.0, v)
      && Rank(dist[entry.0]) < Rank(dist[v])
      && DistancePairs(g, start, dist, v) == Extend(DistancePairs(g, start, dist, entry.0), [(entry.0, v)])
  {
    var entry := FirstTight(AdjacencyOf(g.edges, v), dist, dist[v]).value;
    TightIsCloser(g, dist, v, entry);
    EntryIsEdge(g, v, entry.0, entry.1);
  }

  /** A nonempty result of the walk back from `v` is the result from the neighbour found, plus that last step. */
  lemma PairsBack(g: Graph, start: Vertex, dist: map<Vertex, Dist>, v: Vertex, pairs: seq<Pair>)
    returns (u: Vertex, front: seq<Pair>)
    requires WellFormed(g) && dist.Keys == VertexSet(g) && v in dist && v != start
    requires DistancePairs(g, start, dist, v) == Some(pairs)
    ensures u in g.vertices && u in dist && Adjacent(g, u, v)
    ensures dist[u].Fin? && dist[v] == Fin(dist[u].n + W(g, u, v))
    ensures Rank(dist[u]) < Rank(dist[v])
    ensures DistancePairs(g, start, dist, u) == Some(front) && pairs == front + [(u, v)]
  {
    PairsStep(g, start, dist, v);
    u := FirstTight(AdjacencyOf(g.edges, v), dist, dist[v]).value.0;
    front := DistancePairs(g, start, dist, u).value;
  }

  lemma PathSequenceSnoc(start: Vertex, front: seq<Pair>, pair: Pair)
    ensures PathSequence(start, front + [pair]) == PathSequence(start, front) + [pair.1]
  {
    var s := PathSequence(start, front + [pair]);
    var t := PathSequence(start, front) + [pair.1];
    assert |s| == |t|;
    forall i | 0 <= i < |s| ensures s[i] == t[i] {
      if 0 < i <= |front| {
        assert (front + [pair])[i - 1] == front[i - 1];
      }
    }
  }

  /** One step of the walk back, in terms of what is left to walk and what has been collected. */
  lemma StepBack(g: Graph, start: Vertex, dist: map<Vertex, Dist>, v: Vertex, entry: Entry, back: seq<Pair>)
    requires WellFormed(g) && dist.Keys == VertexSet(g) && v in dist && v != start && dist[v].Fin?
    requires FirstTight(AdjacencyOf(g.edges, v), dist, dist[v]) == Some(entry)
    ensures entry.0 in dist && Rank(dist[entry.0]) < Rank(dist[v])
    ensures Extend(DistancePairs(g, start, dist, v), Reverse(back))
         == Extend(DistancePairs(g, start, dist, entry.0), Reverse(back + [(entry.0, v)]))
  {
    TightIsCloser(g, dist, v, entry);
    ReverseSnoc(back, (entry.0, v));
    ExtendAssoc(DistancePairs(g, start, dist, entry.0), [(entry.0, v)], Reverse(back));
  }

  /** `reconstruct_path(start, end, distances, edges)` with the guard against infinite distances. */
  method ReconstructByDistance(g: Graph, start: Vertex, end: Vertex, dist: map<Vertex, Dist>)
    returns (path: Option<seq<Pair>>)
    requires WellFormed(g) && dist.Keys == VertexSet(g) && end in dist
    ensures path == DistancePairs(g, start, dist, end)
  {
    var adj := BuildAdjacency(dist, g.edges);
    var back: seq<Pair> := [];
    var current := end;
    ghost var whole := DistancePairs(g, start, dist, end);
    ExtendNil(whole);
    while current != start
      invariant current in dist
      invariant whole == Extend(DistancePairs(g, start, dist, current), Reverse(back))
      decreases Rank(dist[current])
    {
      if dist[current] == Inf {
        return None;
      }
      var next := ScanNeighbours(adj[current], dist, dist[current]);
      if next.None? {
        return None;
      }
      var neighbour := next.value.0;
      StepBack(g, start, dist, current, next.value, back);
      back := back + [(neighbour, current)];
      current := neighbour;
    }
    assert [] + Reverse(back) == Reverse(back);
    path := Some(Reverse(back));
  }

  // ------------------------------------------------------------ properties

  /**
   * What the search leaves behind and the walk back relies on: the start at
   * distance 0, and every other vertex at a finite distance reached over an
   * edge from a vertex whose distance plus the weight gives exactly it.
   */
  ghost predicate Supported(g: Graph, start: Vertex, dist: map<Vertex, Dist>) {
    && WellFormed(g)
    && start in g.vertices
    && dist.Keys == VertexSet(g)
    && dist[start] == Fin(0)
    && forall v :: v in g.vertices && v != start && dist[v].Fin? ==>
         exists p :: Linked(g, dist, p, v)
  }

  /** Tables consistent with a predecessor map are supported: the predecessor is the witness. */
  lemma ConsistentIsSupported(g: Graph, start: Vertex, dist: map<Vertex, Dist>, pred: Pred)
    requires Consistent(g, start, dist, pred)
    ensures Supported(g, start, dist)
  {
    forall v | v in g.vertices && v != start && dist[v].Fin?
      ensures exists p :: Linked(g, dist, p, v)
    {
      assert Linked(g, dist, pred[v].value, v);
    }
  }

  /** The walk back finds a path exactly when the end vertex has a finite distance. */
  lemma {:induction false} DistancePairsDefined(g: Graph, start: Vertex, dist: map<Vertex, Dist>, v: Vertex)
    requires Supported(g, start, dist) && v in g.vertices
    ensures DistancePairs(g, start, dist, v).Some? <==> dist[v].Fin?
    decreases Rank(dist[v])
  {
    if v != start && dist[v].Fin? {
      var p :| Linked(g, dist, p, v);
      LinkedIsFound(g, dist, p, v);
      PairsStep(g, start, dist, v);
      var entry := FirstTight(AdjacencyOf(g.edges, v), dist, dist[v]).value;
      DistancePairsDefined(g, start, dist, entry.0);
    }
  }

  /** A linked neighbour is tight, so the scan of `v`'s list finds some neighbour. */
  lemma LinkedIsFound(g: Graph, dist: map<Vertex, Dist>, p: Vertex, v: Vertex)
    requires WellFormed(g) && Linked(g, dist, p, v)
    ensures FirstTight(AdjacencyOf(g.edges, v), dist, dist[v]).Some?
  {
    EdgeIsEntry(g, v, p);
    var entries := AdjacencyOf(g.edges, v);
    assert Tight(dist, (p, W(g, p, v)), dist[v]);
    var i :| 0 <= i < |entries| && entries[i] == (p, W(g, p, v));
  }

  /** `[start_vertex] + [end for _, end in path]`: the vertex sequence the second scene writes out. */
  function PathSequence(start: Vertex, pairs: seq<Pair>): seq<Vertex> {
    [start] + seq(|pairs|, i requires 0 <= i < |pairs| => pairs[i].1)
  }

  /**
   * The sequence the second scene writes out for the pairs the walk back
   * returns is a walk of the graph from the start to `v`.
   */
  lemma {:induction false} DistancePairsIsWalk(g: Graph, start: Vertex, dist: map<Vertex, Dist>, v: Vertex, pairs: seq<Pair>)
    requires WellFormed(g) && dist.Keys == VertexSet(g) && v in dist
    requires DistancePairs(g, start, dist, v) == Some(pairs)
    ensures WalkFromTo(g, start, v, PathSequence(start, pairs))
    decreases Rank(dist[v])
  {
    if v == start {
      assert PathSequence(start, pairs) == [start];
    } else {
      var u, front := PairsBack(g, start, dist, v, pairs);
      DistancePairsIsWalk(g, start, dist, u, front);
      PathSequenceSnoc(start, front, (u, v));
      WalkExtend(g, PathSequence(start, front), v);
    }
  }

  /** Each returned pair is the step between two consecutive vertices of that sequence. */
  lemma {:induction false} DistancePairsAreSteps(g: Graph, start: Vertex, dist: map<Vertex, Dist>, v: Vertex, pairs: seq<Pair>)
    requires WellFormed(g) && dist.Keys == VertexSet(g) && v in dist
    requires DistancePairs(g, start, dist, v) == Some(pairs)
    ensures forall i :: 0 <= i < |pairs| ==> pairs[i] == (PathSequence(start, pairs)[i], PathSequence(start, pairs)[i + 1])
    decreases Rank(dist[v])
  {
    if v != start {
      var q := PathSequence(start, pairs);
      var u, front := PairsBack(g, start, dist, v, pairs);
      DistancePairsAreSteps(g, start, dist, u, front);
      DistancePairsIsWalk(g, start, dist, u, front);
      var p := PathSequence(start, front);
      PathSequenceSnoc(start, front, (u, v));
      forall i | 0 <= i < |pairs|
        ensures pairs[i] == (q[i], q[i + 1])
      {
        if i < |front| {
          assert pairs[i] == front[i] == (p[i], p[i + 1]);
        }
      }
    }
  }

  /** `v`'s distance is the start's plus the weight of that walk. */
  lemma {:induction false} DistancePairsWeight(g: Graph, start: Vertex, dist: map<Vertex, Dist>, v: Vertex, pairs: seq<Pair>)
    requires WellFormed(g) && dist.Keys == VertexSet(g) && v in dist && start in dist
    requires DistancePairs(g, start, dist, v) == Some(pairs)
    ensures dist[v] == Plus(dist[start], WalkWeight(g, PathSequence(start, pairs)))
    decreases Rank(dist[v])
  {
    if v != start {
      var u, front := PairsBack(g, start, dist, v, pairs);
      DistancePairsWeight(g, start, dist, u, front);
      DistancePairsIsWalk(g, start, dist, u, front);
      WeightStepPairs(g, start, dist, front, u, v);
    }
  }

  lemma WeightStepPairs(g: Graph, start: Vertex, dist: map<Vertex, Dist>, front: seq<Pair>, u: Vertex, v: Vertex)
    requires WalkFromTo(g, start, u, PathSequence(start, front))
    requires start in dist && u in dist && v in dist
    requires dist[u] == Plus(dist[start], WalkWeight(g, PathSequence(start, front))) && dist[u].Fin?
    requires dist[v] == Fin(dist[u].n + W(g, u, v))
    ensures dist[v] == Plus(dist[start], WalkWeight(g, PathSequence(start, front + [(u, v)])))
  {
    PathSequenceSnoc(start, front, (u, v));
    WeightStep(g, start, dist, PathSequence(start, front), u, v);
  }

  lemma WeightStep(g: Graph, start: Vertex, dist: map<Vertex, Dist>, p: seq<Vertex>, u: Vertex, v: Vertex)
    requires |p| > 0 && p[|p| - 1] == u
    requires start in dist && u in dist && v in dist
    requires dist[u] == Plus(dist[start], WalkWeight(g, p)) && dist[u].Fin?
    requires dist[v] == Fin(dist[u].n + W(g, u, v))
    ensures dist[v] == Plus(dist[start], WalkWeight(g, p + [v]))
  {
    assert (p + [v])[..|p + [v]| - 1] == p;
  }

  // ------------------------------------------------------ the code as written

  /**
   * The value of `current` after `n` passes of the outer loop as written,
   * without the guard: `None` once the loop has returned `None`, and the
   * start for good once the loop has left.
   */
  function AsWrittenCurrent(g: Graph, start: Vertex, dist: map<Vertex, Dist>, end: Vertex, n: nat): (r: Option<Vertex>)
    requires WellFormed(g) && dist.Keys == VertexSet(g) && end in dist
    ensures r.Some? ==> r.value in dist
  {
    if n == 0 then Some(end)
    else match AsWrittenCurrent(g, start, dist, end, n - 1)
      case None => None
      case Some(c) =>
        if c == start then Some(c)
        else match FirstTight(AdjacencyOf(g.edges, c), dist, dist[c])
          case None => None
          case Some(entry) =>
            EntryIsEdge(g, c, entry.0, entry.1);
            Some(entry.0)
  }

  /** Three vertices, the start `A` alone, `B` and `C` joined to each other only. */
  const Stranded: Graph := Graph(["A", "B", "C"], [Edge("B", "C", 1)])

  /** The tables the search leaves for `Stranded` from `A`: nothing but `A` reached. */
  const StrandedDist: map<Vertex, Dist> := map["A" := Fin(0), "B" := Inf, "C" := Inf]

  lemma StrandedFacts()
    ensures WellFormed(Stranded) && StrandedDist.Keys == VertexSet(Stranded)
    ensures FirstTight(AdjacencyOf(Stranded.edges, "C"), StrandedDist, StrandedDist["C"]) == Some(("B", 1))
    ensures FirstTight(AdjacencyOf(Stranded.edges, "B"), StrandedDist, StrandedDist["B"]) == Some(("C", 1))
  {
    assert Stranded.edges[..0] == [];
    assert VertexSet(Stranded) == {"A", "B", "C"};
  }

  /**
   * As written, the walk back from `C` to `A` bounces between `C` and `B`
   * for ever: `current` never becomes the start and no `None` is returned.
   */
  lemma {:induction false} AsWrittenNeverReturns(n: nat)
    ensures AsWrittenCurrent(Stranded, "A", StrandedDist, "C", n) == Some(if n % 2 == 0 then "C" else "B")
  {
    StrandedFacts();
    if n > 0 {
      AsWrittenNeverReturns(n - 1);
    }
  }

  /** With the guard the same tables give `None` at once, and the scene writes that there is no path. */
  lemma CorrectedGivesUp()
    ensures DistancePairs(Stranded, "A", StrandedDist, "C") == None
  {
    StrandedFacts();
  }
}
