/**
 * The two scenes end to end: the search, then the path phase that either
 * writes the shortest path and paints its edges blue and thick, or writes
 * that there is no path.  The first scene animates its vertex fills, looks
 * the path up through the predecessor table and draws path edges at width
 * 4; the second sets its fills directly, walks back through the distances
 * and draws at width 6.
 */
module Scenes {
  import opened Opt
  import opened Lists
  import opened Graphs
  import opened Distance
  import opened Display
  import opened PredecessorPath
  import opened Search
  import opened DistancePath

  /** The separator of `" ➔ ".join(...)`. */
  const Arrow: string := " \U{2794} "

  const Title: string := "Shortest Path"

  function NoPathText(start: Vertex, end: Vertex): string {
    "No path from " + start + " to " + end
  }

  /** Python's truth value of the path a reconstruction returns: `None` and `[]` are false. */
  predicate Truthy<T>(path: Option<seq<T>>) {
    path.Some? && |path.value| > 0
  }

  /** The edge line between each two consecutive path vertices, in either declared orientation. */
  function PathKeys(g: Graph, path: seq<Vertex>): seq<EdgeKey> {
    if |path| == 0 then [] else seq(|path| - 1, i requires 0 <= i < |path| - 1 => Key(g, path[i], path[i + 1]))
  }

  /** The edge line of each `(from, to)` pair of the second scene. */
  function PairKeys(g: Graph, pairs: seq<Pair>): seq<EdgeKey> {
    seq(|pairs|, i requires 0 <= i < |pairs| => Key(g, pairs[i].0, pairs[i].1))
  }

  /** The screen once a path has been written out and its edges emphasised. */
  function PathShown(s: Screen, texts: seq<string>, keys: seq<EdgeKey>, width: nat): Screen {
    s.(edgeColour := s.edgeColour + (map k | k in keys :: Blue),
       strokeWidth := s.strokeWidth + (map k | k in keys :: width),
       texts := s.texts + texts)
  }

  /** `path_edges` of the first scene: each consecutive pair's line, looked up as `(a, b)` and else as `(b, a)`. */
  method PathEdges(g: Graph, path: seq<Vertex>) returns (keys: seq<EdgeKey>)
    requires forall i :: 0 <= i < |path| - 1 ==> Adjacent(g, path[i], path[i + 1])
    ensures |keys| == if |path| == 0 then 0 else |path| - 1
    ensures forall i :: 0 <= i < |keys| ==> keys[i] in Declared(g)
    ensures forall i :: 0 <= i < |keys| ==> keys[i] == (path[i], path[i + 1]) || keys[i] == (path[i + 1], path[i])
    ensures keys == PathKeys(g, path)
  {
    keys := [];
    var i := 0;
    while i < |path| - 1
      invariant 0 <= i <= if |path| == 0 then 0 else |path| - 1
      invariant |keys| == i
      invariant forall j :: 0 <= j < i ==> keys[j] == Key(g, path[j], path[j + 1])
    {
      KeyIsDeclared(g, path[i], path[i + 1]);
      if (path[i], path[i + 1]) in Declared(g) {
        keys := keys + [(path[i], path[i + 1])];
      } else {
        keys := keys + [(path[i + 1], path[i])];
      }
      i := i + 1;
    }
    forall j | 0 <= j < |keys| ensures keys[j] in Declared(g) {
      KeyIsDeclared(g, path[j], path[j + 1]);
    }
  }

  /**
   * What a path phase emits when there is a path: the title, the path's
   * text, every path edge painted blue and then one stroke-width change for
   * all of them.
   */
  function PathOps(text: string, keys: seq<EdgeKey>, width: nat): seq<Op> {
    [Write(Title), Write(text)] + (BlueOps(keys) + [Stroke(keys, width)])
  }

  /** Writing two captions and then emphasising the path edges. */
  lemma PathPhaseOnScreen(s: Screen, title: string, text: string, keys: seq<EdgeKey>, width: nat)
    ensures Play(s, [Write(title), Write(text)] + (BlueOps(keys) + [Stroke(keys, width)]))
         == PathShown(s, [title, text], keys, width)
  {
    var writes := [Write(title), Write(text)];
    PlayAppend(s, writes, BlueOps(keys) + [Stroke(keys, width)]);
    assert writes[..1] == [Write(title)] && [Write(title)][..0] == [];
    assert Play(s, [Write(title)]) == s.(texts := s.texts + [title]);
    var s1 := s.(texts := s.texts + [title, text]);
    assert s.texts + [title] + [text] == s.texts + [title, text];
    assert Play(s, writes) == s1;
    HighlightOnScreen(s1, keys, width);
  }

  lemma NoPathOnScreen(s: Screen, text: string)
    ensures Play(s, [Write(text)]) == s.(texts := s.texts + [text])
  {
    assert [Write(text)][..0] == [];
  }

  // ------------------------------------------------------------ scene one

  /** The path phase of the first scene, after the search has left `dist` and `pred`. */
  method PathPhaseOne(g: Graph, ghost dist: map<Vertex, Dist>, pred: Pred, start: Vertex, end: Vertex)
    returns (path: Option<seq<Vertex>>, ops: seq<Op>)
    requires Consistent(g, start, dist, pred) && end in g.vertices
    ensures path == PredPath(g, start, dist, pred, end)
    ensures path.Some? ==> WalkFromTo(g, start, end, path.value) && dist[end] == Fin(WalkWeight(g, path.value))
    ensures path.None? <==> dist[end] == Inf
    ensures ops == if Truthy(path) then PathOps(Join(path.value, Arrow), PathKeys(g, path.value), 4)
                   else [Write(NoPathText(start, end))]
    ensures forall s: Screen :: Play(s, ops) == if path.Some?
      then PathShown(s, [Title, Join(path.value, Arrow)], PathKeys(g, path.value), 4)
      else s.(texts := s.texts + [NoPathText(start, end)])
  {
    path := ReconstructPath(g, dist, pred, start, end);
    PredPathDefined(g, start, dist, pred, end);
    if path.Some? {
      PredPathIsWalk(g, start, dist, pred, end);
    }
    if Truthy(path) {
      var keys := PathEdges(g, path.value);
      var highlight := HighlightPath(keys, 4);
      ops := [Write(Title), Write(Join(path.value, Arrow))] + highlight;
      forall s: Screen ensures Play(s, ops) == PathShown(s, [Title, Join(path.value, Arrow)], keys, 4) {
        PathPhaseOnScreen(s, Title, Join(path.value, Arrow), keys, 4);
      }
    } else {
      ops := [Write(NoPathText(start, end))];
      forall s: Screen ensures Play(s, ops) == s.(texts := s.texts + [NoPathText(start, end)]) {
        NoPathOnScreen(s, NoPathText(start, end));
      }
    }
  }

  /**
   * The first scene: search with animated fills from `start`, stopping at
   * `end`, then show the path.  A path is shown exactly when `end` is
   * reachable, and it is a shortest one.
   */
  method SceneOne(g: Graph, start: Vertex, end: Vertex)
    returns (dist: map<Vertex, Dist>, pred: Pred, unvisited: set<Vertex>, path: Option<seq<Vertex>>,
             ops: seq<Op>, ghost rounds: seq<Round>, ghost stages: seq<Stage>)
    requires WellFormed(g) && start in g.vertices && end in g.vertices
    ensures Trace(g, start, end, stages, rounds) && stages[|rounds|] == Stage(unvisited, dist, pred)
    ensures SearchInvariant(g, start, unvisited, dist, pred, rounds)
    ensures FinalisedShortest(g, start, unvisited, dist)
    ensures end !in unvisited ==> LastRoundIs(rounds, end)
    ensures path == PredPath(g, start, dist, pred, end)
    ensures path.Some? <==> Reachable(g, start, end)
    ensures path.Some? ==> && WalkFromTo(g, start, end, path.value)
                           && ShortestDistance(g, start, end, WalkWeight(g, path.value))
                           && dist[end] == Fin(WalkWeight(g, path.value))
                           && end !in unvisited
    ensures ops == SearchOps(true, g.vertices, rounds)
                 + if Truthy(path) then PathOps(Join(path.value, Arrow), PathKeys(g, path.value), 4)
                   else [Write(NoPathText(start, end))]
    ensures Play(InitialScreen(g, start, end), ops) == if path.Some?
      then PathShown(SearchScreen(g, start, end, unvisited, dist), [Title, Join(path.value, Arrow)], PathKeys(g, path.value), 4)
      else SearchScreen(g, start, end, unvisited, dist).(texts := [NoPathText(start, end)])
  {
    var searchOps, pathOps;
    dist, pred, unvisited, searchOps, rounds, stages := Run(g, start, end, true);
    path, pathOps := PathPhaseOne(g, dist, pred, start, end);
    ops := searchOps + pathOps;
    PlayAppend(InitialScreen(g, start, end), searchOps, pathOps);
    if Reachable(g, start, end) {
      assert end !in unvisited;
    }
  }

  // ------------------------------------------------------------ scene two

  /** The path phase of the second scene, after the search has left `dist`. */
  method PathPhaseTwo(g: Graph, dist: map<Vertex, Dist>, start: Vertex, end: Vertex)
    returns (path: Option<seq<Pair>>, ops: seq<Op>)
    requires WellFormed(g) && dist.Keys == VertexSet(g) && end in dist
    ensures path == DistancePairs(g, start, dist, end)
    ensures ops == if Truthy(path) then PathOps(Join(PathSequence(start, path.value), Arrow), PairKeys(g, path.value), 6)
                   else [Write(NoPathText(start, end))]
    ensures forall s: Screen :: Play(s, ops) == if Truthy(path)
      then PathShown(s, [Title, Join(PathSequence(start, path.value), Arrow)], PairKeys(g, path.value), 6)
      else s.(texts := s.texts + [NoPathText(start, end)])
  {
    path := ReconstructByDistance(g, start, end, dist);
    if Truthy(path) {
      var pathSequence := PathSequence(start, path.value);
      var keys := PairKeys(g, path.value);
      var highlight := HighlightPath(keys, 6);
      ops := [Write(Title), Write(Join(pathSequence, Arrow))] + highlight;
      forall s: Screen ensures Play(s, ops) == PathShown(s, [Title, Join(pathSequence, Arrow)], keys, 6) {
        PathPhaseOnScreen(s, Title, Join(pathSequence, Arrow), keys, 6);
      }
    } else {
      ops := [Write(NoPathText(start, end))];
      forall s: Screen ensures Play(s, ops) == s.(texts := s.texts + [NoPathText(start, end)]) {
        NoPathOnScreen(s, NoPathText(start, end));
      }
    }
  }

  /**
   * What the walk back through the distances yields once the search has
   * stopped: a list of pairs exactly when `end` is reachable, tracing a
   * shortest walk, and the empty list when `end` is the start.
   */
  lemma PairsAfterSearch(g: Graph, start: Vertex, end: Vertex, unvisited: set<Vertex>,
                         dist: map<Vertex, Dist>, pred: Pred, path: Option<seq<Pair>>)
    requires Consistent(g, start, dist, pred) && end in g.vertices
    requires FinalisedShortest(g, start, unvisited, dist)
    requires end in unvisited ==> dist[end] == Inf && !Reachable(g, start, end)
    requires path == DistancePairs(g, start, dist, end)
    ensures path.Some? <==> Reachable(g, start, end)
    ensures start == end ==> path == Some([])
    ensures Truthy(path) <==> Reachable(g, start, end) && start != end
    ensures path.Some? ==> var q := PathSequence(start, path.value);
      && WalkFromTo(g, start, end, q)
      && ShortestDistance(g, start, end, WalkWeight(g, q))
      && dist[end] == Fin(WalkWeight(g, q))
      && (forall i :: 0 <= i < |path.value| ==> path.value[i] == (q[i], q[i + 1]))
  {
    ConsistentIsSupported(g, start, dist, pred);
    DistancePairsDefined(g, start, dist, end);
    if path.Some? {
      var q := PathSequence(start, path.value);
      DistancePairsIsWalk(g, start, dist, end, path.value);
      DistancePairsAreSteps(g, start, dist, end, path.value);
      DistancePairsWeight(g, start, dist, end, path.value);
      assert end !in unvisited;
    }
  }

  /**
   * The second scene: search with direct fills, then walk back through the
   * distances.  A path is shown exactly when `end` is reachable and differs
   * from `start`; when they coincide the empty list of pairs is false and
   * the scene writes that there is no path.
   */
  method SceneTwo(g: Graph, start: Vertex, end: Vertex)
    returns (dist: map<Vertex, Dist>, unvisited: set<Vertex>, path: Option<seq<Pair>>,
             ops: seq<Op>, ghost pred: Pred, ghost rounds: seq<Round>, ghost stages: seq<Stage>)
    requires WellFormed(g) && start in g.vertices && end in g.vertices
    ensures Trace(g, start, end, stages, rounds) && stages[|rounds|] == Stage(unvisited, dist, pred)
    ensures SearchInvariant(g, start, unvisited, dist, pred, rounds)
    ensures FinalisedShortest(g, start, unvisited, dist)
    ensures end !in unvisited ==> LastRoundIs(rounds, end)
    ensures end !in unvisited ==> forall v :: v in unvisited ==> LowerBound(g, start, v, dist[end].n)
    ensures end in unvisited ==> dist[end] == Inf && !Reachable(g, start, end)
    ensures path == DistancePairs(g, start, dist, end)
    ensures path.Some? <==> Reachable(g, start, end)
    ensures start == end ==> path == Some([])
    ensures Truthy(path) <==> Reachable(g, start, end) && start != end
    ensures path.Some? ==> var q := PathSequence(start, path.value);
      && WalkFromTo(g, start, end, q)
      && ShortestDistance(g, start, end, WalkWeight(g, q))
      && dist[end] == Fin(WalkWeight(g, q))
      && (forall i :: 0 <= i < |path.value| ==> path.value[i] == (q[i], q[i + 1]))
    ensures ops == SearchOps(false, g.vertices, rounds)
                 + if Truthy(path) then PathOps(Join(PathSequence(start, path.value), Arrow), PairKeys(g, path.value), 6)
                   else [Write(NoPathText(start, end))]
    ensures Play(InitialScreen(g, start, end), ops) == if Truthy(path)
      then PathShown(SearchScreen(g, start, end, unvisited, dist),
                     [Title, Join(PathSequence(start, path.value), Arrow)], PairKeys(g, path.value), 6)
      else SearchScreen(g, start, end, unvisited, dist).(texts := [NoPathText(start, end)])
  {
    var searchOps, pathOps;
    var pred';
    dist, pred', unvisited, searchOps, rounds, stages := Run(g, start, end, false);
    pred := pred';
    path, pathOps := PathPhaseTwo(g, dist, start, end);
    ops := searchOps + pathOps;
    PlayAppend(InitialScreen(g, start, end), searchOps, pathOps);
    PairsAfterSearch(g, start, end, unvisited, dist, pred, path);
  }

  /** Both scenes emphasise the same lines for the same path: the pairs' keys are the consecutive vertices' keys. */
  lemma PairKeysArePathKeys(g: Graph, start: Vertex, pairs: seq<Pair>)
    requires forall i :: 0 <= i < |pairs| ==>
      pairs[i] == (PathSequence(start, pairs)[i], PathSequence(start, pairs)[i + 1])
    ensures PairKeys(g, pairs) == PathKeys(g, PathSequence(start, pairs))
  {
    var q := PathSequence(start, pairs);
    assert |q| == |pairs| + 1;
    forall i | 0 <= i < |pairs| ensures PairKeys(g, pairs)[i] == PathKeys(g, q)[i] {
      assert pairs[i] == (q[i], q[i + 1]);
    }
  }
}
