/**
 * The Dijkstra loop both scenes run inline in `construct`: linear-scan
 * selection of a minimum-distance unvisited vertex, relaxation of the edges
 * to still-unvisited neighbours in declared edge order, finalisation, and the
 * early stop at the end vertex; together with the operations the scenes emit
 * around each step.
 */
module Search {
  import opened Opt
  import opened Graphs
  import opened Distance
  import opened Display
  import opened PredecessorPath

  // ----------------------------------------------------------- initial state

  function InitialDistances(g: Graph, start: Vertex): map<Vertex, Dist> {
    map v | v in g.vertices :: if v == start then Fin(0) else Inf
  }

  function InitialPredecessors(g: Graph): Pred {
    map v | v in g.vertices :: None
  }

  lemma InitialIsConsistent(g: Graph, start: Vertex)
    requires WellFormed(g) && start in g.vertices
    ensures Consistent(g, start, InitialDistances(g, start), InitialPredecessors(g))
  {
  }

  /** Fills before the loop: the end red, the start green (unless it is the end), the rest the default. */
  function InitialColour(start: Vertex, end: Vertex, v: Vertex): Colour {
    if v == end then Red else if v == start then Green else BlueE
  }

  function InitialScreen(g: Graph, start: Vertex, end: Vertex): Screen {
    Screen(map v | v in g.vertices :: InitialColour(start, end, v),
           map k | k in Declared(g) :: Gray,
           map[],
           CellsOf(g.vertices, InitialDistances(g, start)),
           [])
  }

  /** The screen that mirrors a search state: finalised vertices green, all edges grey, the cells showing `dist`. */
  function SearchScreen(g: Graph, start: Vertex, end: Vertex, unvisited: set<Vertex>, dist: map<Vertex, Dist>): Screen
    requires Covers(g.vertices, dist)
  {
    Screen(SearchColours(g.vertices, start, end, unvisited),
           map k | k in Declared(g) :: Gray,
           map[],
           CellsOf(g.vertices, dist),
           [])
  }

  function SearchColours(vs: seq<Vertex>, start: Vertex, end: Vertex, unvisited: set<Vertex>): map<Vertex, Colour> {
    map v | v in vs :: if v in unvisited then InitialColour(start, end, v) else Green
  }

  /** Painting the selected vertex yellow and then green leaves the colours of the next search state. */
  lemma ColoursAfterRound(vs: seq<Vertex>, start: Vertex, end: Vertex, unvisited: set<Vertex>, cur: Vertex)
    requires cur in vs
    ensures SearchColours(vs, start, end, unvisited)[cur := Yellow][cur := Green]
         == SearchColours(vs, start, end, unvisited - {cur})
  {
    var colours := SearchColours(vs, start, end, unvisited)[cur := Yellow][cur := Green];
    var target := SearchColours(vs, start, end, unvisited - {cur});
    assert colours.Keys == target.Keys;
    assert forall v :: v in colours ==> colours[v] == target[v];
  }

  // --------------------------------------------------------------- selection

  predicate IsMinimum(unvisited: set<Vertex>, dist: map<Vertex, Dist>, m: Vertex)
    requires unvisited <= dist.Keys
  {
    m in unvisited && forall v :: v in unvisited ==> AtMost(dist[m], dist[v])
  }

  lemma {:induction false} MinimumExists(s: set<Vertex>, dist: map<Vertex, Dist>)
    requires s != {} && s <= dist.Keys
    ensures exists m :: IsMinimum(s, dist, m)
    decreases |s|
  {
    var x :| x in s;
    if s != {x} {
      var rest := s - {x};
      MinimumExists(rest, dist);
      var m :| IsMinimum(rest, dist, m);
      if Less(dist[x], dist[m]) {
        assert IsMinimum(s, dist, x);
      } else {
        assert IsMinimum(s, dist, m);
      }
    } else {
      assert IsMinimum(s, dist, x);
    }
  }

  /**
   * `min(unvisited, key=lambda v: distances[v])`.  Which of several vertices
   * of equal minimum distance Python returns depends on set iteration order,
   * so any of them may be chosen here.
   */
  method SelectMin(unvisited: set<Vertex>, dist: map<Vertex, Dist>) returns (cur: Vertex)
    requires unvisited != {} && unvisited <= dist.Keys
    ensures cur in unvisited
    ensures forall v :: v in unvisited ==> AtMost(dist[cur], dist[v])
  {
    MinimumExists(unvisited, dist);
    cur :| IsMinimum(unvisited, dist, cur);
  }

  // -------------------------------------------------------------- relaxation

  /** `distances[cur] + weight` for the edge between `cur` and `v`. */
  function Through(g: Graph, dist: map<Vertex, Dist>, cur: Vertex, v: Vertex): Dist
    requires cur in dist
  {
    Plus(dist[cur], W(g, cur, v))
  }

  ghost predicate JoinedBy(es: seq<Edge>, a: Vertex, b: Vertex) {
    exists e :: e in es && Joins(e, a, b)
  }

  /**
   * `v` is an unvisited vertex that an edge of `es` joins to `cur` and whose
   * distance the way through `cur` strictly lowers.
   */
  ghost predicate Improves(g: Graph, es: seq<Edge>, unvisited: set<Vertex>, dist: map<Vertex, Dist>, cur: Vertex, v: Vertex)
    requires cur in dist && v in dist
  {
    v in unvisited && JoinedBy(es, cur, v) && Less(Through(g, dist, cur, v), dist[v])
  }

  function NeighbourSet(rs: seq<Relaxation>): set<Vertex> {
    set r | r in rs :: r.neighbour
  }

  /**
   * What a pass over the edges `es` does, `dist`/`pred` before and
   * `dist'`/`pred'` after, stated without the order of the edges: each
   * unvisited vertex an edge joins to `cur` ends at the smaller of its old
   * distance and the distance through `cur`; its predecessor becomes `cur`
   * exactly when that was a strict improvement; finalised vertices and
   * non-neighbours keep everything. The log names every improved vertex
   * exactly once, under the key of its edge and with a table that shows its
   * final distance, and its last table is the final one.
   * `RelaxPass` below fixes the order and the tables in between.
   */
  ghost predicate RelaxedBy(g: Graph, es: seq<Edge>, cur: Vertex, unvisited: set<Vertex>,
                            dist: map<Vertex, Dist>, pred: Pred,
                            dist': map<Vertex, Dist>, pred': Pred, rs: seq<Relaxation>)
    requires dist.Keys == VertexSet(g) && pred.Keys == VertexSet(g) && cur in g.vertices
  {
    RelaxedTables(g, es, cur, unvisited, dist, pred, dist', pred') && RelaxedLog(g, es, cur, unvisited, dist, dist', rs)
  }

  ghost predicate RelaxedTables(g: Graph, es: seq<Edge>, cur: Vertex, unvisited: set<Vertex>,
                                dist: map<Vertex, Dist>, pred: Pred, dist': map<Vertex, Dist>, pred': Pred)
    requires dist.Keys == VertexSet(g) && pred.Keys == VertexSet(g) && cur in g.vertices
  {
    && dist'.Keys == VertexSet(g) && pred'.Keys == VertexSet(g)
    && (forall v :: v in g.vertices ==>
          dist'[v] == if v in unvisited && JoinedBy(es, cur, v) then Min(dist[v], Through(g, dist, cur, v)) else dist[v])
    && (forall v :: v in g.vertices ==>
          pred'[v] == if Improves(g, es, unvisited, dist, cur, v) then Some(cur) else pred[v])
  }

  ghost predicate RelaxedLog(g: Graph, es: seq<Edge>, cur: Vertex, unvisited: set<Vertex>,
                             dist: map<Vertex, Dist>, dist': map<Vertex, Dist>, rs: seq<Relaxation>)
    requires dist.Keys == VertexSet(g) && cur in g.vertices && dist'.Keys == VertexSet(g)
  {
    && TablesCover(g.vertices, rs)
    && (forall r :: r in rs ==>
          && r.neighbour in g.vertices
          && Improves(g, es, unvisited, dist, cur, r.neighbour)
          && r.key == Key(g, cur, r.neighbour)
          && r.table[r.neighbour] == dist'[r.neighbour])
    && (forall v :: v in g.vertices && Improves(g, es, unvisited, dist, cur, v) ==> v in NeighbourSet(rs))
    && (forall i, j :: 0 <= i < j < |rs| ==> rs[i].neighbour != rs[j].neighbour)
    && (rs == [] ==> dist' == dist)
    && (rs != [] ==> rs[|rs| - 1].table == dist')
  }

  /** The tables and the log of improvements part-way through the inner loop. */
  datatype Pass = Pass(dist: map<Vertex, Dist>, pred: Pred, log: seq<Relaxation>)

  /**
   * The inner loop's body for `neighbour`, reached from `cur` by an edge of
   * weight `w`: when the way through `cur` is strictly shorter, the new
   * distance and `cur` as predecessor are recorded and the improvement is
   * logged with the edge's key and the new table; otherwise nothing changes.
   */
  function Improve(g: Graph, cur: Vertex, p: Pass, neighbour: Vertex, w: nat): (p': Pass)
    requires p.dist.Keys == VertexSet(g) && p.pred.Keys == VertexSet(g)
    requires cur in g.vertices && neighbour in g.vertices
    ensures p'.dist.Keys == VertexSet(g) && p'.pred.Keys == VertexSet(g)
    ensures p' == p || (p'.log == p.log + [Relaxation(neighbour, Key(g, cur, neighbour), p'.dist)]
                        && Less(p'.dist[neighbour], p.dist[neighbour]))
  {
    var newDistance := Plus(p.dist[cur], w);
    if Less(newDistance, p.dist[neighbour]) then
      var table := p.dist[neighbour := newDistance];
      Pass(table, p.pred[neighbour := Some(cur)], p.log + [Relaxation(neighbour, Key(g, cur, neighbour), table)])
    else
      p
  }

  /** One edge of the inner loop: only an edge from `cur` to an unvisited vertex is tried. */
  function RelaxStep(g: Graph, cur: Vertex, unvisited: set<Vertex>, p: Pass, e: Edge): (p': Pass)
    requires p.dist.Keys == VertexSet(g) && p.pred.Keys == VertexSet(g)
    requires cur in g.vertices && e.u in g.vertices && e.v in g.vertices
    ensures p'.dist.Keys == VertexSet(g) && p'.pred.Keys == VertexSet(g)
    ensures TablesCover(g.vertices, p.log) ==> TablesCover(g.vertices, p'.log)
  {
    if e.u == cur && e.v in unvisited then Improve(g, cur, p, e.v, e.w)
    else if e.v == cur && e.u in unvisited then Improve(g, cur, p, e.u, e.w)
    else p
  }

  /**
   * The inner loop over the first `n` declared edges, in declared order,
   * from the tables `dist`/`pred` and an empty log: the reference for the
   * order of the improvements and every table in between.
   */
  function RelaxPass(g: Graph, n: nat, cur: Vertex, unvisited: set<Vertex>, dist: map<Vertex, Dist>, pred: Pred): (p: Pass)
    requires WellFormed(g) && n <= |g.edges|
    requires dist.Keys == VertexSet(g) && pred.Keys == VertexSet(g) && cur in g.vertices
    ensures p.dist.Keys == VertexSet(g) && p.pred.Keys == VertexSet(g)
    ensures TablesCover(g.vertices, p.log)
  {
    if n == 0 then Pass(dist, pred, [])
    else
      var e := g.edges[n - 1];
      assert e in g.edges;
      RelaxStep(g, cur, unvisited, RelaxPass(g, n - 1, cur, unvisited, dist, pred), e)
  }

  lemma JoinedBySnoc(es: seq<Edge>, e: Edge, a: Vertex, b: Vertex)
    ensures JoinedBy(es + [e], a, b) <==> JoinedBy(es, a, b) || Joins(e, a, b)
  {
    if Joins(e, a, b) {
      assert e in es + [e];
    }
    if JoinedBy(es, a, b) {
      var x :| x in es && Joins(x, a, b);
      assert x in es + [x];
      assert x in es + [e];
    }
  }

  /** No edge declared before the `i`-th joins the same two vertices. */
  /** In a well-formed graph no edge before the `i`-th joins the same two vertices. */
  lemma JoinedByFirst(g: Graph, es: seq<Edge>, i: nat, a: Vertex, b: Vertex)
    requires WellFormed(g) && i < |g.edges| && Joins(g.edges[i], a, b)
    requires |es| == i && forall k :: 0 <= k < i ==> es[k] == g.edges[k]
    ensures !JoinedBy(es, a, b)
  {
    forall k | 0 <= k < i ensures !Joins(es[k], a, b) {
      assert !Joins(g.edges[i], g.edges[k].u, g.edges[k].v);
    }
  }

  /** An edge that joins `cur` to no unvisited vertex changes nothing. */
  lemma SkipStep(g: Graph, es: seq<Edge>, e: Edge, es': seq<Edge>, cur: Vertex, unvisited: set<Vertex>,
                 dist: map<Vertex, Dist>, pred: Pred, dist': map<Vertex, Dist>, pred': Pred, rs: seq<Relaxation>)
    requires dist.Keys == VertexSet(g) && pred.Keys == VertexSet(g) && cur in g.vertices
    requires es' == es + [e]
    requires RelaxedBy(g, es, cur, unvisited, dist, pred, dist', pred', rs)
    requires forall v :: v in unvisited ==> !Joins(e, cur, v)
    ensures RelaxedBy(g, es', cur, unvisited, dist, pred, dist', pred', rs)
  {
    forall v | v in unvisited ensures JoinedBy(es', cur, v) == JoinedBy(es, cur, v) {
      JoinedBySnoc(es, e, cur, v);
    }
    forall v | v in dist
      ensures Improves(g, es', unvisited, dist, cur, v) == Improves(g, es, unvisited, dist, cur, v)
    {
    }
    assert RelaxedTables(g, es', cur, unvisited, dist, pred, dist', pred');
  }

  /** Appending the edge between `cur` and `nb` adds `nb`, and only `nb`, to the vertices joined to `cur`. */
  lemma JoinedByEdge(es: seq<Edge>, e: Edge, cur: Vertex, nb: Vertex)
    requires Joins(e, cur, nb) && cur != nb
    ensures JoinedBy(es + [e], cur, nb)
    ensures forall v :: v != nb ==> (JoinedBy(es + [e], cur, v) <==> JoinedBy(es, cur, v))
  {
    JoinedBySnoc(es, e, cur, nb);
    forall v | v != nb ensures JoinedBy(es + [e], cur, v) <==> JoinedBy(es, cur, v) {
      JoinedBySnoc(es, e, cur, v);
    }
  }

  /** An edge to a neighbour met for the first time that does not lower its distance changes nothing. */
  lemma KeepStep(g: Graph, es: seq<Edge>, e: Edge, es': seq<Edge>, cur: Vertex, unvisited: set<Vertex>,
                 dist: map<Vertex, Dist>, pred: Pred, dist': map<Vertex, Dist>, pred': Pred, rs: seq<Relaxation>,
                 nb: Vertex)
    requires dist.Keys == VertexSet(g) && pred.Keys == VertexSet(g) && cur in g.vertices && cur !in unvisited
    requires es' == es + [e]
    requires RelaxedBy(g, es, cur, unvisited, dist, pred, dist', pred', rs)
    requires nb in unvisited && nb in g.vertices && Joins(e, cur, nb) && !JoinedBy(es, cur, nb)
    requires !Less(Through(g, dist, cur, nb), dist[nb])
    ensures RelaxedBy(g, es', cur, unvisited, dist, pred, dist', pred', rs)
  {
    JoinedByEdge(es, e, cur, nb);
    forall v | v in dist
      ensures Improves(g, es', unvisited, dist, cur, v) == Improves(g, es, unvisited, dist, cur, v)
    {
    }
    forall v | v in g.vertices
      ensures dist'[v] == if v in unvisited && JoinedBy(es', cur, v) then Min(dist[v], Through(g, dist, cur, v)) else dist[v]
    {
      if v == nb {
        assert dist'[v] == dist[v];
      }
    }
  }

  /** An edge to a neighbour met for the first time that lowers its distance records it, its predecessor and one log entry. */
  lemma ImproveStep(g: Graph, es: seq<Edge>, e: Edge, es': seq<Edge>, cur: Vertex, unvisited: set<Vertex>,
                    dist: map<Vertex, Dist>, pred: Pred, dist': map<Vertex, Dist>, pred': Pred, rs: seq<Relaxation>,
                    nb: Vertex)
    requires dist.Keys == VertexSet(g) && pred.Keys == VertexSet(g) && cur in g.vertices && cur !in unvisited
    requires es' == es + [e]
    requires RelaxedBy(g, es, cur, unvisited, dist, pred, dist', pred', rs)
    requires nb in unvisited && nb in g.vertices && Joins(e, cur, nb) && !JoinedBy(es, cur, nb)
    requires Less(Through(g, dist, cur, nb), dist[nb])
    ensures
      var table := dist'[nb := Through(g, dist, cur, nb)];
      RelaxedBy(g, es', cur, unvisited, dist, pred, table, pred'[nb := Some(cur)],
                rs + [Relaxation(nb, Key(g, cur, nb), table)])
  {
    JoinedByEdge(es, e, cur, nb);
    ImproveTables(g, es, e, cur, unvisited, dist, pred, dist', pred', nb);
    ImproveLog(g, es, e, cur, unvisited, dist, dist', rs, nb);
  }

  lemma ImproveTables(g: Graph, es: seq<Edge>, e: Edge, cur: Vertex, unvisited: set<Vertex>,
                      dist: map<Vertex, Dist>, pred: Pred, dist': map<Vertex, Dist>, pred': Pred, nb: Vertex)
    requires dist.Keys == VertexSet(g) && pred.Keys == VertexSet(g) && cur in g.vertices && cur !in unvisited
    requires RelaxedTables(g, es, cur, unvisited, dist, pred, dist', pred')
    requires nb in unvisited && nb in g.vertices && !JoinedBy(es, cur, nb)
    requires JoinedBy(es + [e], cur, nb)
    requires forall v :: v != nb ==> (JoinedBy(es + [e], cur, v) <==> JoinedBy(es, cur, v))
    requires Less(Through(g, dist, cur, nb), dist[nb])
    ensures RelaxedTables(g, es + [e], cur, unvisited, dist, pred, dist'[nb := Through(g, dist, cur, nb)], pred'[nb := Some(cur)])
  {
    var es' := es + [e];
    var table := dist'[nb := Through(g, dist, cur, nb)];
    var pred'' := pred'[nb := Some(cur)];
    assert Improves(g, es', unvisited, dist, cur, nb);
    forall v | v in g.vertices
      ensures table[v] == if v in unvisited && JoinedBy(es', cur, v) then Min(dist[v], Through(g, dist, cur, v)) else dist[v]
    {
    }
    forall v | v in g.vertices
      ensures pred''[v] == if Improves(g, es', unvisited, dist, cur, v) then Some(cur) else pred[v]
    {
      if v != nb {
        assert Improves(g, es', unvisited, dist, cur, v) == Improves(g, es, unvisited, dist, cur, v);
      }
    }
  }

  lemma ImproveLog(g: Graph, es: seq<Edge>, e: Edge, cur: Vertex, unvisited: set<Vertex>,
                   dist: map<Vertex, Dist>, dist': map<Vertex, Dist>, rs: seq<Relaxation>, nb: Vertex)
    requires dist.Keys == VertexSet(g) && cur in g.vertices && cur !in unvisited && dist'.Keys == VertexSet(g)
    requires RelaxedLog(g, es, cur, unvisited, dist, dist', rs)
    requires nb in unvisited && nb in g.vertices && !JoinedBy(es, cur, nb)
    requires JoinedBy(es + [e], cur, nb)
    requires forall v :: v != nb ==> (JoinedBy(es + [e], cur, v) <==> JoinedBy(es, cur, v))
    requires Less(Through(g, dist, cur, nb), dist[nb])
    ensures
      var table := dist'[nb := Through(g, dist, cur, nb)];
      RelaxedLog(g, es + [e], cur, unvisited, dist, table, rs + [Relaxation(nb, Key(g, cur, nb), table)])
  {
    var es' := es + [e];
    var table := dist'[nb := Through(g, dist, cur, nb)];
    var last := Relaxation(nb, Key(g, cur, nb), table);
    var rs' := rs + [last];
    assert Improves(g, es', unvisited, dist, cur, nb);
    forall v | v in dist && v != nb
      ensures Improves(g, es', unvisited, dist, cur, v) == Improves(g, es, unvisited, dist, cur, v)
    {
    }
    assert TablesCover(g.vertices, rs') by {
      forall r | r in rs' ensures Covers(g.vertices, r.table) {
        if r !in rs {
          assert r == last;
        }
      }
    }
    forall r | r in rs'
      ensures && r.neighbour in g.vertices
              && Improves(g, es', unvisited, dist, cur, r.neighbour)
              && r.key == Key(g, cur, r.neighbour)
              && r.table[r.neighbour] == table[r.neighbour]
    {
      if r in rs {
        assert r.neighbour != nb;
      } else {
        assert r == last;
      }
    }
    forall v | v in g.vertices && Improves(g, es', unvisited, dist, cur, v)
      ensures v in NeighbourSet(rs')
    {
      if v == nb {
        assert last in rs';
      } else {
        assert v in NeighbourSet(rs);
        var r :| r in rs && r.neighbour == v;
        assert r in rs';
      }
    }
    forall r | r in rs ensures r.neighbour != nb {
    }
    DistinctSnoc(rs, last);
    assert rs'[|rs'| - 1] == last;
  }

  /** A log naming each vertex at most once still does after an entry for a vertex it does not name. */
  lemma DistinctSnoc(rs: seq<Relaxation>, last: Relaxation)
    requires forall i, j :: 0 <= i < j < |rs| ==> rs[i].neighbour != rs[j].neighbour
    requires forall r :: r in rs ==> r.neighbour != last.neighbour
    ensures forall i, j :: 0 <= i < j < |rs| + 1 ==> (rs + [last])[i].neighbour != (rs + [last])[j].neighbour
  {
    forall i, j | 0 <= i < j < |rs| + 1 ensures (rs + [last])[i].neighbour != (rs + [last])[j].neighbour {
      assert (rs + [last])[i] == rs[i] && rs[i] in rs;
      if j < |rs| {
        assert (rs + [last])[j] == rs[j];
      }
    }
  }

  lemma TakeSnoc<T>(s: seq<T>, i: nat)
    requires i < |s|
    ensures s[..i + 1] == s[..i] + [s[i]]
  {
  }

  /**
   * The reference pass meets the order-free description: after the first
   * `n` edges, `es`, its tables and its log are those `RelaxedBy` describes.
   */
  lemma {:induction false} PassRelaxedBy(g: Graph, n: nat, es': seq<Edge>, cur: Vertex, unvisited: set<Vertex>,
                                         dist: map<Vertex, Dist>, pred: Pred)
    requires WellFormed(g) && n <= |g.edges|
    requires |es'| == n && forall k :: 0 <= k < n ==> es'[k] == g.edges[k]
    requires dist.Keys == VertexSet(g) && pred.Keys == VertexSet(g) && cur in g.vertices && cur !in unvisited
    ensures var p := RelaxPass(g, n, cur, unvisited, dist, pred);
            RelaxedBy(g, es', cur, unvisited, dist, pred, p.dist, p.pred, p.log)
  {
    if n > 0 {
      var i := n - 1;
      var es := es'[..i];
      PassRelaxedBy(g, i, es, cur, unvisited, dist, pred);
      var p := RelaxPass(g, i, cur, unvisited, dist, pred);
      var e := es'[i];
      TakeSnoc(es', i);
      var nb: Vertex;
      if e.u == cur && e.v in unvisited {
        nb := e.v;
      } else if e.v == cur && e.u in unvisited {
        nb := e.u;
      } else {
        assert RelaxPass(g, n, cur, unvisited, dist, pred) == p;
        SkipStep(g, es, e, es', cur, unvisited, dist, pred, p.dist, p.pred, p.log);
        return;
      }
      assert Joins(e, cur, nb) && !JoinedBy(es, cur, nb) && nb in g.vertices by {
        JoinedByFirst(g, es, i, cur, nb);
      }
      assert p.dist[nb] == dist[nb] && Plus(p.dist[cur], e.w) == Through(g, dist, cur, nb) by {
        WeightOfEdge(g, i);
      }
      if Less(Through(g, dist, cur, nb), dist[nb]) {
        var table := p.dist[nb := Through(g, dist, cur, nb)];
        assert RelaxPass(g, n, cur, unvisited, dist, pred)
            == Pass(table, p.pred[nb := Some(cur)], p.log + [Relaxation(nb, Key(g, cur, nb), table)]);
        ImproveStep(g, es, e, es', cur, unvisited, dist, pred, p.dist, p.pred, p.log, nb);
      } else {
        assert RelaxPass(g, n, cur, unvisited, dist, pred) == p;
        KeepStep(g, es, e, es', cur, unvisited, dist, pred, p.dist, p.pred, p.log, nb);
      }
    }
  }

  /** The whole reference pass meets the order-free description. */
  lemma PassMeetsRelaxedBy(g: Graph, cur: Vertex, unvisited: set<Vertex>, dist: map<Vertex, Dist>, pred: Pred)
    requires WellFormed(g)
    requires dist.Keys == VertexSet(g) && pred.Keys == VertexSet(g) && cur in g.vertices && cur !in unvisited
    ensures var p := RelaxPass(g, |g.edges|, cur, unvisited, dist, pred);
            RelaxedBy(g, g.edges, cur, unvisited, dist, pred, p.dist, p.pred, p.log)
  {
    PassRelaxedBy(g, |g.edges|, g.edges, cur, unvisited, dist, pred);
  }

  lemma WholePassRelaxedBy(g: Graph, cur: Vertex, unvisited: set<Vertex>, dist: map<Vertex, Dist>, pred: Pred,
                           dist': map<Vertex, Dist>, pred': Pred, rs: seq<Relaxation>)
    requires WellFormed(g)
    requires dist.Keys == VertexSet(g) && pred.Keys == VertexSet(g) && cur in g.vertices && cur !in unvisited
    requires Pass(dist', pred', rs) == RelaxPass(g, |g.edges|, cur, unvisited, dist, pred)
    ensures RelaxedBy(g, g.edges, cur, unvisited, dist, pred, dist', pred', rs)
  {
    PassMeetsRelaxedBy(g, cur, unvisited, dist, pred);
  }

  /**
   * One iteration of the inner loop: the `i`-th declared edge, relaxed when
   * it joins the current vertex to an unvisited one, with the orange / redraw
   * / grey operations when it improves that vertex's distance.
   */
  method RelaxEdge(g: Graph, cur: Vertex, unvisited: set<Vertex>, i: nat,
                   dist0: map<Vertex, Dist>, pred0: Pred, ghost rs0: seq<Relaxation>)
    returns (dist': map<Vertex, Dist>, pred': Pred, ops: seq<Op>, ghost rs: seq<Relaxation>)
    requires WellFormed(g) && i < |g.edges|
    requires dist0.Keys == VertexSet(g) && pred0.Keys == VertexSet(g) && cur in g.vertices
    ensures Pass(dist', pred', rs) == RelaxStep(g, cur, unvisited, Pass(dist0, pred0, rs0), g.edges[i])
    ensures if rs == rs0 then ops == []
            else && |rs| == |rs0| + 1 && rs == rs0 + [rs[|rs0|]]
                 && Covers(g.vertices, rs[|rs0|].table) && ops == RelaxBlock(g.vertices, rs[|rs0|])
  {
    var e := g.edges[i];
    assert e in g.edges;
    dist', pred', ops, rs := dist0, pred0, [], rs0;
    var neighbour: Vertex;
    if e.u == cur && e.v in unvisited {
      neighbour := e.v;
    } else if e.v == cur && e.u in unvisited {
      neighbour := e.u;
    } else {
      return;
    }
    var newDistance := Plus(dist'[cur], e.w);
    if Less(newDistance, dist'[neighbour]) {
      dist' := dist'[neighbour := newDistance];
      pred' := pred'[neighbour := Some(cur)];
      var key := Key(g, cur, neighbour);
      var redraw := UpdateDistanceArray(g.vertices, dist');
      var r := Relaxation(neighbour, key, dist');
      rs := rs + [r];
      assert rs[|rs0|] == r;
      ops := [PaintEdge(key, Orange)] + redraw + [PaintEdge(key, Gray)];
    }
  }

  lemma RelaxOpsSnoc(vs: seq<Vertex>, rs: seq<Relaxation>, r: Relaxation)
    requires TablesCover(vs, rs + [r])
    ensures TablesCover(vs, rs) && Covers(vs, r.table)
    ensures RelaxOps(vs, rs + [r]) == RelaxOps(vs, rs) + RelaxBlock(vs, r)
  {
    assert (rs + [r])[..|rs|] == rs;
    assert r in rs + [r];
    forall x | x in rs ensures x in rs + [r] {
    }
  }

  /**
   * The inner `for u, v, weight in edges_with_weights` loop for the current
   * vertex, with its orange / redraw / grey operations for every improving edge.
   */
  method RelaxEdges(g: Graph, cur: Vertex, unvisited: set<Vertex>, dist: map<Vertex, Dist>, pred: Pred)
    returns (dist': map<Vertex, Dist>, pred': Pred, ops: seq<Op>, ghost rs: seq<Relaxation>)
    requires WellFormed(g)
    requires dist.Keys == VertexSet(g) && pred.Keys == VertexSet(g)
    requires cur in g.vertices && cur !in unvisited
    ensures Pass(dist', pred', rs) == RelaxPass(g, |g.edges|, cur, unvisited, dist, pred)
    ensures ops == RelaxOps(g.vertices, rs)
  {
    dist', pred', ops, rs := dist, pred, [], [];
    for i := 0 to |g.edges|
      invariant Pass(dist', pred', rs) == RelaxPass(g, i, cur, unvisited, dist, pred)
      invariant TablesCover(g.vertices, rs) && ops == RelaxOps(g.vertices, rs)
    {
      var block;
      ghost var before := rs;
      dist', pred', block, rs := RelaxEdge(g, cur, unvisited, i, dist', pred', rs);
      if rs != before {
        RelaxOpsSnoc(g.vertices, before, rs[|before|]);
      }
      ops := ops + block;
    }
  }

  /** A pass of relaxation never raises a distance and leaves finalised vertices alone. */
  lemma RelaxationMonotone(g: Graph, cur: Vertex, unvisited: set<Vertex>,
                           dist: map<Vertex, Dist>, pred: Pred, dist': map<Vertex, Dist>, pred': Pred, rs: seq<Relaxation>)
    requires dist.Keys == VertexSet(g) && pred.Keys == VertexSet(g) && cur in g.vertices
    requires RelaxedBy(g, g.edges, cur, unvisited, dist, pred, dist', pred', rs)
    ensures forall v :: v in g.vertices ==> AtMost(dist'[v], dist[v])
    ensures forall v :: v in g.vertices && v !in unvisited ==> dist'[v] == dist[v] && pred'[v] == pred[v]
    ensures forall v :: v in g.vertices && dist'[v] != dist[v] ==> pred'[v] == Some(cur)
  {
    forall v | v in g.vertices && dist'[v] != dist[v] ensures pred'[v] == Some(cur) {
      assert v in unvisited && JoinedBy(g.edges, cur, v);
      assert Less(Through(g, dist, cur, v), dist[v]);
    }
  }

  // ------------------------------------------------------------- the screen

  lemma CellsReplace(vs: seq<Vertex>, a: map<Vertex, Dist>, b: map<Vertex, Dist>)
    requires Covers(vs, a) && Covers(vs, b)
    ensures CellsOf(vs, a) + CellsOf(vs, b) == CellsOf(vs, b)
  {
    var lhs := CellsOf(vs, a) + CellsOf(vs, b);
    assert lhs.Keys == CellsOf(vs, b).Keys;
    assert forall k :: k in lhs ==> lhs[k] == CellsOf(vs, b)[k];
  }

  /** Replaying one round on the screen of a search state gives the screen of the next state. */
  lemma RoundOnScreen(g: Graph, start: Vertex, end: Vertex, unvisited: set<Vertex>, dist: map<Vertex, Dist>, pred: Pred,
                      cur: Vertex, dist': map<Vertex, Dist>, pred': Pred, rs: seq<Relaxation>, animated: bool)
    requires dist.Keys == VertexSet(g) && pred.Keys == VertexSet(g) && cur in g.vertices && cur in unvisited
    requires RelaxedBy(g, g.edges, cur, unvisited - {cur}, dist, pred, dist', pred', rs)
    ensures TablesCover(g.vertices, rs)
    ensures Play(SearchScreen(g, start, end, unvisited, dist), RoundOps(animated, g.vertices, Round(cur, rs)))
         == SearchScreen(g, start, end, unvisited - {cur}, dist')
  {
    forall r | r in rs ensures r.key in Declared(g) {
      assert JoinedBy(g.edges, cur, r.neighbour);
      KeyIsDeclared(g, cur, r.neighbour);
    }
    RoundScreen(g, start, end, unvisited, dist, cur, dist', rs, animated);
  }

  lemma RoundScreen(g: Graph, start: Vertex, end: Vertex, unvisited: set<Vertex>, dist: map<Vertex, Dist>,
                    cur: Vertex, dist': map<Vertex, Dist>, rs: seq<Relaxation>, animated: bool)
    requires dist.Keys == VertexSet(g) && dist'.Keys == VertexSet(g) && cur in g.vertices
    requires TablesCover(g.vertices, rs)
    requires forall r :: r in rs ==> r.key in Declared(g)
    requires rs == [] ==> dist' == dist
    requires rs != [] ==> rs[|rs| - 1].table == dist'
    ensures Play(SearchScreen(g, start, end, unvisited, dist), RoundOps(animated, g.vertices, Round(cur, rs)))
         == SearchScreen(g, start, end, unvisited - {cur}, dist')
  {
    var vs := g.vertices;
    var s0 := SearchScreen(g, start, end, unvisited, dist);
    var yellow := [PaintVertex(cur, Yellow, animated)];
    var relax := RelaxOps(vs, rs);
    var green := [PaintVertex(cur, Green, animated)];
    var s1 := Apply(s0, yellow[0]);
    assert Play(s0, yellow) == s1 by {
      assert yellow[..0] == [];
    }
    RelaxOpsOnScreen(s1, vs, rs);
    var s2 := Play(s1, relax);
    assert s2 == s1.(cells := CellsOf(vs, dist')) by {
      if rs != [] {
        CellsReplace(vs, dist, dist');
      }
    }
    PlayAppend(s0, yellow, relax);
    PlayAppend(s0, yellow + relax, green);
    assert Play(s2, green) == Apply(s2, green[0]) by {
      assert green[..0] == [];
    }
    ColoursAfterRound(vs, start, end, unvisited, cur);
  }

  // ---------------------------------------------------------- the main loop

  function RoundVertices(rounds: seq<Round>): set<Vertex> {
    set i | 0 <= i < |rounds| :: rounds[i].vertex
  }

  /**
   * The log of rounds: distinct finalised vertices, selected in order of
   * non-decreasing distance; each logged relaxation follows an edge of the
   * round's vertex to a vertex not finalised yet, under that edge's
   * dictionary key, and its table shows the distance through the round's vertex.
   */
  ghost predicate Logged(g: Graph, dist: map<Vertex, Dist>, rounds: seq<Round>)
    requires dist.Keys == VertexSet(g)
  {
    && RoundsCover(g.vertices, rounds)
    && (forall i :: 0 <= i < |rounds| ==> rounds[i].vertex in g.vertices && dist[rounds[i].vertex].Fin?)
    && (forall i, j :: 0 <= i < j < |rounds| ==>
          rounds[i].vertex != rounds[j].vertex && dist[rounds[i].vertex].n <= dist[rounds[j].vertex].n)
    && (forall i, r :: 0 <= i < |rounds| && r in rounds[i].relaxations ==> LoggedRelaxation(g, dist, rounds, i, r))
  }

  ghost predicate LoggedRelaxation(g: Graph, dist: map<Vertex, Dist>, rounds: seq<Round>, i: nat, r: Relaxation)
    requires dist.Keys == VertexSet(g) && i < |rounds| && rounds[i].vertex in g.vertices
    requires r in rounds[i].relaxations && TablesCover(g.vertices, rounds[i].relaxations)
  {
    && r.neighbour in g.vertices
    && Adjacent(g, rounds[i].vertex, r.neighbour)
    && r.key == Key(g, rounds[i].vertex, r.neighbour)
    && r.table[r.neighbour] == Through(g, dist, rounds[i].vertex, r.neighbour)
    && (forall j :: 0 <= j <= i ==> rounds[j].vertex != r.neighbour)
  }

  /** Before the first round only the start has a finite distance. */
  ghost predicate StartPending(g: Graph, start: Vertex, unvisited: set<Vertex>, dist: map<Vertex, Dist>)
    requires dist.Keys == VertexSet(g)
  {
    start in unvisited ==> unvisited == VertexSet(g) && forall v :: v in g.vertices && v != start ==> dist[v] == Inf
  }

  ghost predicate PredecessorsFinalised(g: Graph, unvisited: set<Vertex>, pred: Pred)
    requires pred.Keys == VertexSet(g)
  {
    forall v :: v in g.vertices && pred[v].Some? ==> pred[v].value !in unvisited
  }

  /** Finalised distances are finite and no walk from the start is shorter. */
  ghost predicate FinalisedBounded(g: Graph, start: Vertex, unvisited: set<Vertex>, dist: map<Vertex, Dist>)
    requires dist.Keys == VertexSet(g)
  {
    forall v :: v in g.vertices && v !in unvisited ==> dist[v].Fin? && LowerBound(g, start, v, dist[v].n)
  }

  /** No edge from a finalised vertex offers an unvisited one less than it already has. */
  ghost predicate FrontierRelaxed(g: Graph, unvisited: set<Vertex>, dist: map<Vertex, Dist>)
    requires dist.Keys == VertexSet(g) && unvisited <= VertexSet(g)
  {
    forall x, y :: x in g.vertices && x !in unvisited && y in unvisited && Adjacent(g, x, y) ==>
      AtMost(dist[y], Through(g, dist, x, y))
  }

  /** Finalised distances are at most unvisited ones. */
  ghost predicate FinalisedFirst(g: Graph, unvisited: set<Vertex>, dist: map<Vertex, Dist>)
    requires dist.Keys == VertexSet(g) && unvisited <= VertexSet(g)
  {
    forall x, y :: x in g.vertices && x !in unvisited && y in unvisited ==> AtMost(dist[x], dist[y])
  }

  /**
   * What holds at the head of the main loop: the tables are consistent;
   * before the first round only the start is finite; predecessors are
   * finalised; finalised distances are lower bounds on every walk; the
   * frontier is relaxed; finalised distances are at most unvisited ones;
   * and the rounds logged so far are exactly the finalised vertices.
   */
  ghost predicate SearchInvariant(g: Graph, start: Vertex, unvisited: set<Vertex>,
                                  dist: map<Vertex, Dist>, pred: Pred, rounds: seq<Round>)
  {
    && Consistent(g, start, dist, pred)
    && unvisited <= VertexSet(g)
    && StartPending(g, start, unvisited, dist)
    && PredecessorsFinalised(g, unvisited, pred)
    && FinalisedBounded(g, start, unvisited, dist)
    && FrontierRelaxed(g, unvisited, dist)
    && FinalisedFirst(g, unvisited, dist)
    && RoundVertices(rounds) == VertexSet(g) - unvisited
    && Logged(g, dist, rounds)
  }

  lemma InitialInvariant(g: Graph, start: Vertex, end: Vertex)
    requires WellFormed(g) && start in g.vertices
    ensures SearchInvariant(g, start, VertexSet(g), InitialDistances(g, start), InitialPredecessors(g), [])
    ensures SearchScreen(g, start, end, VertexSet(g), InitialDistances(g, start)) == InitialScreen(g, start, end)
  {
    InitialIsConsistent(g, start);
  }

  /**
   * The key step of the optimality argument: a walk from the start to an
   * unvisited vertex weighs at least any `m` that bounds every unvisited
   * distance from below.  Its last step out of the finalised region crosses
   * the relaxed frontier.
   */
  lemma {:induction false} WalkToUnvisited(g: Graph, start: Vertex, unvisited: set<Vertex>, dist: map<Vertex, Dist>,
                                           m: Dist, p: seq<Vertex>)
    requires dist.Keys == VertexSet(g) && unvisited <= VertexSet(g) && start in dist && dist[start] == Fin(0)
    requires FinalisedBounded(g, start, unvisited, dist) && FrontierRelaxed(g, unvisited, dist)
    requires forall v :: v in unvisited ==> AtMost(m, dist[v])
    requires IsWalk(g, p) && p[0] == start && p[|p| - 1] in unvisited
    ensures AtMost(m, Fin(WalkWeight(g, p)))
    decreases |p|
  {
    AtMostFacts();
    if |p| == 1 {
      assert dist[start] == Fin(0);
    } else {
      var q := p[..|p| - 1];
      var x, y := p[|p| - 2], p[|p| - 1];
      WalkPrefix(g, p);
      assert WalkWeight(g, p) == WalkWeight(g, q) + W(g, x, y);
      if x in unvisited {
        WalkToUnvisited(g, start, unvisited, dist, m, q);
      } else {
        assert WalkFromTo(g, start, x, q);
        assert dist[x].n <= WalkWeight(g, q);
        assert AtMost(dist[y], Through(g, dist, x, y));
      }
    }
  }

  /** The vertex the round selects has its true shortest distance as a lower bound. */
  lemma SelectedIsShortest(g: Graph, start: Vertex, unvisited: set<Vertex>, dist: map<Vertex, Dist>, cur: Vertex)
    requires dist.Keys == VertexSet(g) && unvisited <= VertexSet(g) && start in dist && dist[start] == Fin(0)
    requires FinalisedBounded(g, start, unvisited, dist) && FrontierRelaxed(g, unvisited, dist)
    requires cur in unvisited && forall v :: v in unvisited ==> AtMost(dist[cur], dist[v])
    requires dist[cur].Fin?
    ensures LowerBound(g, start, cur, dist[cur].n)
  {
    forall p | WalkFromTo(g, start, cur, p) ensures dist[cur].n <= WalkWeight(g, p) {
      WalkToUnvisited(g, start, unvisited, dist, dist[cur], p);
    }
  }

  /** When the smallest unvisited distance is infinite, no unvisited vertex can be reached at all. */
  lemma StuckMeansUnreachable(g: Graph, start: Vertex, unvisited: set<Vertex>, dist: map<Vertex, Dist>, cur: Vertex)
    requires dist.Keys == VertexSet(g) && unvisited <= VertexSet(g) && start in dist && dist[start] == Fin(0)
    requires FinalisedBounded(g, start, unvisited, dist) && FrontierRelaxed(g, unvisited, dist)
    requires cur in unvisited && forall v :: v in unvisited ==> AtMost(dist[cur], dist[v])
    requires dist[cur] == Inf
    ensures forall v :: v in unvisited ==> dist[v] == Inf && !Reachable(g, start, v)
  {
    forall v | v in unvisited ensures dist[v] == Inf && !Reachable(g, start, v) {
      if Reachable(g, start, v) {
        var p :| WalkFromTo(g, start, v, p);
        WalkToUnvisited(g, start, unvisited, dist, Inf, p);
      }
    }
  }

  /** Every walk to a still-unvisited vertex weighs at least the distance of the vertex just finalised. */
  lemma FinalisedBeforeRest(g: Graph, start: Vertex, unvisited: set<Vertex>, dist: map<Vertex, Dist>, cur: Vertex)
    requires dist.Keys == VertexSet(g) && unvisited <= VertexSet(g) && start in dist && dist[start] == Fin(0)
    requires FinalisedBounded(g, start, unvisited, dist) && FrontierRelaxed(g, unvisited, dist)
    requires cur in unvisited && forall v :: v in unvisited ==> AtMost(dist[cur], dist[v])
    requires dist[cur].Fin?
    ensures forall v :: v in unvisited ==> LowerBound(g, start, v, dist[cur].n)
  {
    forall v, p | v in unvisited && WalkFromTo(g, start, v, p) ensures dist[cur].n <= WalkWeight(g, p) {
      WalkToUnvisited(g, start, unvisited, dist, dist[cur], p);
    }
  }

  /** What the relaxation pass of a round tells about the new tables, in the terms the invariant needs. */
  lemma RoundEffect(g: Graph, start: Vertex, unvisited: set<Vertex>, dist: map<Vertex, Dist>, pred: Pred,
                    rounds: seq<Round>, cur: Vertex, dist': map<Vertex, Dist>, pred': Pred, rs: seq<Relaxation>)
    requires SearchInvariant(g, start, unvisited, dist, pred, rounds)
    requires cur in unvisited && dist[cur].Fin?
    requires RelaxedBy(g, g.edges, cur, unvisited - {cur}, dist, pred, dist', pred', rs)
    ensures dist'.Keys == VertexSet(g) && pred'.Keys == VertexSet(g)
    ensures forall v :: v in g.vertices && v !in unvisited - {cur} ==> dist'[v] == dist[v] && pred'[v] == pred[v]
    ensures forall v :: v in g.vertices ==> AtMost(dist'[v], dist[v])
    ensures forall v :: v in unvisited - {cur} && Adjacent(g, cur, v) ==> AtMost(dist'[v], Through(g, dist, cur, v))
    ensures forall v :: v in g.vertices ==>
      || (dist'[v] == dist[v] && pred'[v] == pred[v])
      || (v in unvisited - {cur} && Adjacent(g, cur, v) && dist'[v] == Through(g, dist, cur, v) && pred'[v] == Some(cur))
    ensures forall v :: v in g.vertices && Improves(g, g.edges, unvisited - {cur}, dist, cur, v) ==> dist'[v] == Through(g, dist, cur, v)
    ensures forall x, v :: x in dist ==> Through(g, dist', x, v) == Through(g, dist, x, v) || x in unvisited - {cur}
  {
    RelaxationMonotone(g, cur, unvisited - {cur}, dist, pred, dist', pred', rs);
    forall v | v in unvisited - {cur} && Adjacent(g, cur, v) ensures AtMost(dist'[v], Through(g, dist, cur, v)) {
      assert JoinedBy(g.edges, cur, v);
    }
    forall v | v in g.vertices
      ensures || (dist'[v] == dist[v] && pred'[v] == pred[v])
              || (v in unvisited - {cur} && Adjacent(g, cur, v) && dist'[v] == Through(g, dist, cur, v) && pred'[v] == Some(cur))
    {
      if Improves(g, g.edges, unvisited - {cur}, dist, cur, v) {
        assert JoinedBy(g.edges, cur, v);
      }
    }
  }

  lemma LinkedKept(g: Graph, dist: map<Vertex, Dist>, dist': map<Vertex, Dist>, p: Vertex, v: Vertex)
    requires Linked(g, dist, p, v) && p in dist' && v in dist'
    requires dist'[p] == dist[p] && dist'[v] == dist[v]
    ensures Linked(g, dist', p, v)
  {}

  /** A round keeps the tables consistent, finalises the start for good, and keeps every predecessor finalised. */
  lemma ConsistentAfterRound(g: Graph, start: Vertex, unvisited: set<Vertex>, dist: map<Vertex, Dist>, pred: Pred,
                             cur: Vertex, dist': map<Vertex, Dist>, pred': Pred)
    requires Consistent(g, start, dist, pred) && unvisited <= VertexSet(g)
    requires StartPending(g, start, unvisited, dist) && PredecessorsFinalised(g, unvisited, pred)
    requires cur in unvisited && dist[cur].Fin?
    requires dist'.Keys == VertexSet(g) && pred'.Keys == VertexSet(g)
    requires forall v :: v in g.vertices && v !in unvisited - {cur} ==> dist'[v] == dist[v] && pred'[v] == pred[v]
    requires forall v :: v in g.vertices ==>
      || (dist'[v] == dist[v] && pred'[v] == pred[v])
      || (v in unvisited - {cur} && Adjacent(g, cur, v) && dist'[v] == Through(g, dist, cur, v) && pred'[v] == Some(cur))
    ensures Consistent(g, start, dist', pred')
    ensures start !in unvisited - {cur}
    ensures PredecessorsFinalised(g, unvisited - {cur}, pred')
  {
    assert start !in unvisited - {cur};
    forall v | v in g.vertices && pred'[v].Some? ensures Linked(g, dist', pred'[v].value, v) {
      var p := pred'[v].value;
      if dist'[v] == dist[v] && pred'[v] == pred[v] {
        assert p !in unvisited && p in g.vertices;
        LinkedKept(g, dist, dist', p, v);
      } else {
        assert p == cur && dist'[cur] == dist[cur];
      }
    }
  }

  /** A round keeps finalised distances lower bounds, the frontier relaxed and finalised distances below the rest. */
  lemma BoundsAfterRound(g: Graph, start: Vertex, unvisited: set<Vertex>, dist: map<Vertex, Dist>,
                         cur: Vertex, dist': map<Vertex, Dist>)
    requires dist.Keys == VertexSet(g) && unvisited <= VertexSet(g) && start in dist && dist[start] == Fin(0)
    requires FinalisedBounded(g, start, unvisited, dist) && FrontierRelaxed(g, unvisited, dist)
    requires FinalisedFirst(g, unvisited, dist)
    requires cur in unvisited && dist[cur].Fin? && forall v :: v in unvisited ==> AtMost(dist[cur], dist[v])
    requires dist'.Keys == VertexSet(g)
    requires forall v :: v in g.vertices && v !in unvisited - {cur} ==> dist'[v] == dist[v]
    requires forall v :: v in g.vertices ==> AtMost(dist'[v], dist[v])
    requires forall v :: v in unvisited - {cur} && Adjacent(g, cur, v) ==> AtMost(dist'[v], Through(g, dist, cur, v))
    requires forall v :: v in g.vertices ==> dist'[v] == dist[v] || dist'[v] == Through(g, dist, cur, v)
    ensures FinalisedBounded(g, start, unvisited - {cur}, dist')
    ensures FrontierRelaxed(g, unvisited - {cur}, dist')
    ensures FinalisedFirst(g, unvisited - {cur}, dist')
  {
    AtMostFacts();
    SelectedIsShortest(g, start, unvisited, dist, cur);
    forall x, y | x in g.vertices && x !in unvisited - {cur} && y in unvisited - {cur} && Adjacent(g, x, y)
      ensures AtMost(dist'[y], Through(g, dist', x, y))
    {
      assert Through(g, dist', x, y) == Through(g, dist, x, y);
      if x != cur {
        assert AtMost(dist[y], Through(g, dist, x, y));
      }
    }
    forall x, y | x in g.vertices && x !in unvisited - {cur} && y in unvisited - {cur}
      ensures AtMost(dist'[x], dist'[y])
    {
      assert AtMost(dist[cur], dist[y]);
      assert AtMost(dist[cur], Through(g, dist, cur, y));
      assert AtMost(dist[cur], dist'[y]);
      if x != cur {
        assert AtMost(dist[x], dist[cur]);
      }
    }
  }

  lemma RoundVerticesSnoc(rounds: seq<Round>, r: Round)
    ensures RoundVertices(rounds + [r]) == RoundVertices(rounds) + {r.vertex}
  {
    var rounds' := rounds + [r];
    forall v | v in RoundVertices(rounds') ensures v in RoundVertices(rounds) + {r.vertex} {
      var i :| 0 <= i < |rounds'| && rounds'[i].vertex == v;
      if i < |rounds| {
        assert rounds[i].vertex == v;
      }
    }
    forall v | v in RoundVertices(rounds) + {r.vertex} ensures v in RoundVertices(rounds') {
      if v == r.vertex {
        assert rounds'[|rounds|].vertex == v;
      } else {
        var i :| 0 <= i < |rounds| && rounds[i].vertex == v;
        assert rounds'[i].vertex == v;
      }
    }
  }

  /** A round appends its vertex to the log, with its relaxations, keeping the log's order and its record of the cells. */
  lemma LogAfterRound(g: Graph, unvisited: set<Vertex>, dist: map<Vertex, Dist>, rounds: seq<Round>,
                      cur: Vertex, dist': map<Vertex, Dist>, rs: seq<Relaxation>)
    requires dist.Keys == VertexSet(g) && unvisited <= VertexSet(g)
    requires RoundVertices(rounds) == VertexSet(g) - unvisited && Logged(g, dist, rounds)
    requires FinalisedFirst(g, unvisited, dist)
    requires cur in unvisited && dist[cur].Fin?
    requires dist'.Keys == VertexSet(g) && RelaxedLog(g, g.edges, cur, unvisited - {cur}, dist, dist', rs)
    requires forall v :: v in g.vertices && Improves(g, g.edges, unvisited - {cur}, dist, cur, v) ==> dist'[v] == Through(g, dist, cur, v)
    requires forall v :: v in g.vertices && v !in unvisited - {cur} ==> dist'[v] == dist[v]
    ensures RoundVertices(rounds + [Round(cur, rs)]) == VertexSet(g) - (unvisited - {cur})
    ensures Logged(g, dist', rounds + [Round(cur, rs)])
  {
    RoundVerticesSnoc(rounds, Round(cur, rs));
    LogOrderAfterRound(g, unvisited, dist, rounds, cur, dist', rs);
    LogRelaxationsAfterRound(g, unvisited, dist, rounds, cur, dist', rs);
  }

  lemma LogOrderAfterRound(g: Graph, unvisited: set<Vertex>, dist: map<Vertex, Dist>, rounds: seq<Round>,
                           cur: Vertex, dist': map<Vertex, Dist>, rs: seq<Relaxation>)
    requires dist.Keys == VertexSet(g) && unvisited <= VertexSet(g)
    requires RoundVertices(rounds) == VertexSet(g) - unvisited && Logged(g, dist, rounds)
    requires FinalisedFirst(g, unvisited, dist)
    requires cur in unvisited && dist[cur].Fin?
    requires dist'.Keys == VertexSet(g) && TablesCover(g.vertices, rs)
    requires forall v :: v in g.vertices && v !in unvisited - {cur} ==> dist'[v] == dist[v]
    ensures RoundsCover(g.vertices, rounds + [Round(cur, rs)])
    ensures forall i :: 0 <= i < |rounds| + 1 ==>
      (rounds + [Round(cur, rs)])[i].vertex in g.vertices && dist'[(rounds + [Round(cur, rs)])[i].vertex].Fin?
    ensures forall i, j :: 0 <= i < j < |rounds| + 1 ==>
      && (rounds + [Round(cur, rs)])[i].vertex != (rounds + [Round(cur, rs)])[j].vertex
      && dist'[(rounds + [Round(cur, rs)])[i].vertex].n <= dist'[(rounds + [Round(cur, rs)])[j].vertex].n
  {
    var rounds' := rounds + [Round(cur, rs)];
    var k := |rounds|;
    assert forall i :: 0 <= i < k ==> rounds'[i] == rounds[i] && rounds[i].vertex in RoundVertices(rounds);
    forall x | x in rounds' ensures TablesCover(g.vertices, x.relaxations) {
      if x != Round(cur, rs) {
        var i :| 0 <= i < |rounds'| && rounds'[i] == x;
        assert rounds[i] == x;
      }
    }
    forall i, j | 0 <= i < j < |rounds'|
      ensures rounds'[i].vertex != rounds'[j].vertex && dist'[rounds'[i].vertex].n <= dist'[rounds'[j].vertex].n
    {
      if j == k {
        assert rounds[i].vertex !in unvisited;
        assert AtMost(dist[rounds[i].vertex], dist[cur]);
      }
    }
  }

  lemma LogRelaxationsAfterRound(g: Graph, unvisited: set<Vertex>, dist: map<Vertex, Dist>, rounds: seq<Round>,
                                 cur: Vertex, dist': map<Vertex, Dist>, rs: seq<Relaxation>)
    requires dist.Keys == VertexSet(g) && unvisited <= VertexSet(g)
    requires RoundVertices(rounds) == VertexSet(g) - unvisited && Logged(g, dist, rounds)
    requires cur in unvisited && dist[cur].Fin?
    requires dist'.Keys == VertexSet(g) && RelaxedLog(g, g.edges, cur, unvisited - {cur}, dist, dist', rs)
    requires forall v :: v in g.vertices && Improves(g, g.edges, unvisited - {cur}, dist, cur, v) ==> dist'[v] == Through(g, dist, cur, v)
    requires forall v :: v in g.vertices && v !in unvisited - {cur} ==> dist'[v] == dist[v]
    requires RoundsCover(g.vertices, rounds + [Round(cur, rs)])
    ensures forall i, r :: 0 <= i < |rounds| + 1 && r in (rounds + [Round(cur, rs)])[i].relaxations ==>
      LoggedRelaxation(g, dist', rounds + [Round(cur, rs)], i, r)
  {
    var rounds' := rounds + [Round(cur, rs)];
    var k := |rounds|;
    assert forall i :: 0 <= i < k ==> rounds'[i] == rounds[i] && rounds[i].vertex in RoundVertices(rounds);
    forall i, r | 0 <= i < |rounds'| && r in rounds'[i].relaxations
      ensures LoggedRelaxation(g, dist', rounds', i, r)
    {
      var x := rounds'[i].vertex;
      if i < k {
        assert LoggedRelaxation(g, dist, rounds, i, r);
        assert dist'[x] == dist[x];
      } else {
        assert r in rs;
        assert JoinedBy(g.edges, cur, r.neighbour);
        forall j | 0 <= j <= i ensures rounds'[j].vertex != r.neighbour {
          if j < k {
            assert rounds[j].vertex in RoundVertices(rounds);
          }
        }
      }
    }
  }

  /** One round of the main loop keeps the whole invariant. */
  lemma RoundKeepsInvariant(g: Graph, start: Vertex, unvisited: set<Vertex>, dist: map<Vertex, Dist>, pred: Pred,
                            rounds: seq<Round>, cur: Vertex, dist': map<Vertex, Dist>, pred': Pred, rs: seq<Relaxation>)
    requires SearchInvariant(g, start, unvisited, dist, pred, rounds)
    requires cur in unvisited && dist[cur].Fin? && forall v :: v in unvisited ==> AtMost(dist[cur], dist[v])
    requires RelaxedBy(g, g.edges, cur, unvisited - {cur}, dist, pred, dist', pred', rs)
    ensures SearchInvariant(g, start, unvisited - {cur}, dist', pred', rounds + [Round(cur, rs)])
  {
    RoundEffect(g, start, unvisited, dist, pred, rounds, cur, dist', pred', rs);
    ConsistentAfterRound(g, start, unvisited, dist, pred, cur, dist', pred');
    BoundsAfterRound(g, start, unvisited, dist, cur, dist');
    LogAfterRound(g, unvisited, dist, rounds, cur, dist', rs);
  }

  lemma SearchOpsSnoc(animated: bool, vs: seq<Vertex>, rounds: seq<Round>, r: Round)
    requires RoundsCover(vs, rounds + [r])
    ensures RoundsCover(vs, rounds)
    ensures SearchOps(animated, vs, rounds + [r]) == SearchOps(animated, vs, rounds) + RoundOps(animated, vs, r)
  {
    assert (rounds + [r])[..|rounds|] == rounds;
    forall x | x in rounds ensures x in rounds + [r] {
    }
  }

  /** Where the main loop stands at its head: the unvisited vertices and both tables. */
  datatype Stage = Stage(unvisited: set<Vertex>, dist: map<Vertex, Dist>, pred: Pred)

  /**
   * One round of the main loop from stage `s` to stage `s'`: the round's
   * vertex is an unvisited vertex of minimum, finite distance; it leaves the
   * unvisited set; and the new tables and the round's log are those of the
   * reference pass over every declared edge, in declared order.
   */
  ghost predicate Advances(g: Graph, s: Stage, r: Round, s': Stage) {
    && WellFormed(g) && s.dist.Keys == VertexSet(g) && s.pred.Keys == VertexSet(g)
    && s.unvisited <= VertexSet(g) && r.vertex in g.vertices
    && IsMinimum(s.unvisited, s.dist, r.vertex) && s.dist[r.vertex].Fin?
    && s'.unvisited == s.unvisited - {r.vertex}
    && Pass(s'.dist, s'.pred, r.relaxations) == RelaxPass(g, |g.edges|, r.vertex, s'.unvisited, s.dist, s.pred)
  }

  /** Round `i` of `rounds` leads from `stages[i]` to `stages[i + 1]`. */
  ghost predicate StepAt(g: Graph, stages: seq<Stage>, rounds: seq<Round>, i: int) {
    0 <= i < |rounds| && i + 1 < |stages| && Advances(g, stages[i], rounds[i], stages[i + 1])
  }

  /** A step of a history stays a step when the history grows. */
  lemma StepSnoc(g: Graph, stages: seq<Stage>, rounds: seq<Round>, i: int, r: Round, s': Stage)
    requires StepAt(g, stages, rounds, i)
    ensures StepAt(g, stages + [s'], rounds + [r], i)
  {
    assert (stages + [s'])[i] == stages[i] && (stages + [s'])[i + 1] == stages[i + 1] && (rounds + [r])[i] == rounds[i];
  }

  /** A round appended to a history, from its last stage, is its last step. */
  lemma StepLast(g: Graph, stages: seq<Stage>, rounds: seq<Round>, r: Round, s': Stage)
    requires |stages| == |rounds| + 1
    requires Advances(g, stages[|rounds|], r, s')
    ensures StepAt(g, stages + [s'], rounds + [r], |rounds|)
  {
    assert (stages + [s'])[|rounds|] == stages[|rounds|] && (stages + [s'])[|rounds| + 1] == s' && (rounds + [r])[|rounds|] == r;
  }

  /** Every step of a history, and one more from its last stage, are the steps of the longer history. */
  lemma StepsSnoc(g: Graph, stages: seq<Stage>, rounds: seq<Round>, r: Round, s': Stage)
    requires |stages| == |rounds| + 1
    requires forall i :: 0 <= i < |rounds| ==> StepAt(g, stages, rounds, i)
    requires Advances(g, stages[|rounds|], r, s')
    ensures forall i :: 0 <= i < |rounds| + 1 ==> StepAt(g, stages + [s'], rounds + [r], i)
  {
    forall i | 0 <= i < |rounds| + 1 ensures StepAt(g, stages + [s'], rounds + [r], i) {
      if i < |rounds| {
        StepSnoc(g, stages, rounds, i, r, s');
      } else {
        StepLast(g, stages, rounds, r, s');
      }
    }
  }

  /** If the first `n + 1` stages hold `end`, they still do as the first stages of a longer history. */
  lemma HoldsEndSnoc(stages: seq<Stage>, n: nat, s': Stage, end: Vertex)
    requires n < |stages|
    requires forall i :: 0 <= i < n ==> end in stages[i].unvisited
    requires end in stages[n].unvisited
    ensures forall i :: 0 <= i < n + 1 ==> end in (stages + [s'])[i].unvisited
  {
    forall i | 0 <= i < n + 1 ensures end in (stages + [s'])[i].unvisited {
      assert (stages + [s'])[i] == stages[i];
    }
  }

  /**
   * The main loop's history: `stages[0]` holds the initial tables, each
   * round leads from one stage to the next, and `end` was still unvisited
   * before every round (the loop stops right after finalising it).
   */
  ghost predicate Trace(g: Graph, start: Vertex, end: Vertex, stages: seq<Stage>, rounds: seq<Round>) {
    && |stages| == |rounds| + 1
    && stages[0] == Stage(VertexSet(g), InitialDistances(g, start), InitialPredecessors(g))
    && (forall i :: 0 <= i < |rounds| ==> StepAt(g, stages, rounds, i))
    && (forall i :: 0 <= i < |rounds| ==> end in stages[i].unvisited)
  }

  lemma TraceSnoc(g: Graph, start: Vertex, end: Vertex, stages: seq<Stage>, rounds: seq<Round>, r: Round, s': Stage)
    requires Trace(g, start, end, stages, rounds)
    requires end in stages[|rounds|].unvisited
    requires Advances(g, stages[|rounds|], r, s')
    ensures Trace(g, start, end, stages + [s'], rounds + [r])
  {
    StepsSnoc(g, stages, rounds, r, s');
    HoldsEndSnoc(stages, |rounds|, s', end);
  }

  /**
   * One iteration of the main loop after a vertex of finite minimum distance
   * has been selected: remove it from `unvisited`, paint it yellow, relax its
   * edges, paint it green; the operations are appended to those emitted so far.
   */
  method SearchRound(g: Graph, start: Vertex, end: Vertex, animated: bool, unvisited: set<Vertex>,
                     dist: map<Vertex, Dist>, pred: Pred, ops: seq<Op>, ghost rounds: seq<Round>, cur: Vertex,
                     ghost stages: seq<Stage>)
    returns (unvisited': set<Vertex>, dist': map<Vertex, Dist>, pred': Pred, ops': seq<Op>, ghost rounds': seq<Round>,
             ghost round: Round, ghost stages': seq<Stage>)
    requires SearchInvariant(g, start, unvisited, dist, pred, rounds)
    requires ops == SearchOps(animated, g.vertices, rounds)
    requires Play(InitialScreen(g, start, end), ops) == SearchScreen(g, start, end, unvisited, dist)
    requires cur in unvisited && dist[cur].Fin? && forall v :: v in unvisited ==> AtMost(dist[cur], dist[v])
    requires Trace(g, start, end, stages, rounds) && stages[|rounds|] == Stage(unvisited, dist, pred) && end in unvisited
    ensures unvisited' == unvisited - {cur} && |unvisited'| < |unvisited|
    ensures round.vertex == cur && rounds' == rounds + [round]
    ensures Advances(g, Stage(unvisited, dist, pred), round, Stage(unvisited', dist', pred'))
    ensures stages' == stages + [Stage(unvisited', dist', pred')] && stages'[|rounds'|] == Stage(unvisited', dist', pred')
    ensures Trace(g, start, end, stages', rounds')
    ensures TablesCover(g.vertices, round.relaxations) && ops' == ops + RoundOps(animated, g.vertices, round)
    ensures SearchInvariant(g, start, unvisited', dist', pred', rounds')
    ensures ops' == SearchOps(animated, g.vertices, rounds')
    ensures Play(InitialScreen(g, start, end), ops') == SearchScreen(g, start, end, unvisited', dist')
    ensures LastRoundIs(rounds', cur)
    ensures forall v :: v in unvisited' ==> LowerBound(g, start, v, dist'[cur].n)
  {
    unvisited' := unvisited - {cur};
    var relaxOps;
    ghost var rs;
    dist', pred', relaxOps, rs := RelaxEdges(g, cur, unvisited', dist, pred);
    WholePassRelaxedBy(g, cur, unvisited', dist, pred, dist', pred', rs);
    round := Round(cur, rs);
    rounds' := rounds + [round];
    stages' := stages + [Stage(unvisited', dist', pred')];
    TraceSnoc(g, start, end, stages, rounds, round, Stage(unvisited', dist', pred'));
    RoundKeepsInvariant(g, start, unvisited, dist, pred, rounds, cur, dist', pred', rs);
    RoundOnScreen(g, start, end, unvisited, dist, pred, cur, dist', pred', rs, animated);
    FinalisedBeforeRest(g, start, unvisited, dist, cur);
    var roundOps := [PaintVertex(cur, Yellow, animated)] + relaxOps + [PaintVertex(cur, Green, animated)];
    assert roundOps == RoundOps(animated, g.vertices, round);
    PlayAppend(InitialScreen(g, start, end), ops, roundOps);
    SearchOpsSnoc(animated, g.vertices, rounds, round);
    ops' := ops + roundOps;
    LastRoundSnoc(rounds, round);
    RemoveOne(unvisited, cur);
  }

  /** Every finalised vertex carries its true shortest distance from the start. */
  ghost predicate FinalisedShortest(g: Graph, start: Vertex, unvisited: set<Vertex>, dist: map<Vertex, Dist>)
    requires dist.Keys == VertexSet(g)
  {
    forall v :: v in g.vertices && v !in unvisited ==> dist[v].Fin? && ShortestDistance(g, start, v, dist[v].n)
  }

  lemma FinalisedAreShortest(g: Graph, start: Vertex, unvisited: set<Vertex>, dist: map<Vertex, Dist>, pred: Pred,
                             rounds: seq<Round>)
    requires SearchInvariant(g, start, unvisited, dist, pred, rounds)
    ensures FinalisedShortest(g, start, unvisited, dist)
  {
    forall v | v in g.vertices && v !in unvisited ensures ShortestDistance(g, start, v, dist[v].n) {
      Achieved(g, start, dist, pred, v);
    }
  }

  predicate LastRoundIs(rounds: seq<Round>, v: Vertex) {
    |rounds| > 0 && rounds[|rounds| - 1].vertex == v
  }

  lemma LastRoundSnoc(rounds: seq<Round>, r: Round)
    ensures LastRoundIs(rounds + [r], r.vertex)
  {
  }

  lemma RemainsUnvisited(s: set<Vertex>, x: Vertex, y: Vertex)
    requires y in s && x != y
    ensures y in s - {x}
  {
  }

  lemma RemoveOne(s: set<Vertex>, x: Vertex)
    requires x in s
    ensures |s - {x}| < |s|
  {
  }

  /**
   * The `while unvisited` loop of both scenes, from the initial tables to the
   * early stop: the final tables, the vertices left unvisited, the emitted
   * operations and (ghost) the log of rounds they were emitted for.
   */
  method Run(g: Graph, start: Vertex, end: Vertex, animated: bool)
    returns (dist: map<Vertex, Dist>, pred: Pred, unvisited: set<Vertex>, ops: seq<Op>, ghost rounds: seq<Round>,
             ghost stages: seq<Stage>)
    requires WellFormed(g) && start in g.vertices && end in g.vertices
    ensures Trace(g, start, end, stages, rounds) && stages[|rounds|] == Stage(unvisited, dist, pred)
    ensures SearchInvariant(g, start, unvisited, dist, pred, rounds)
    ensures ops == SearchOps(animated, g.vertices, rounds)
    ensures Play(InitialScreen(g, start, end), ops) == SearchScreen(g, start, end, unvisited, dist)
    ensures FinalisedShortest(g, start, unvisited, dist)
    ensures end !in unvisited ==> LastRoundIs(rounds, end)
    ensures end !in unvisited ==> forall v :: v in unvisited ==> LowerBound(g, start, v, dist[end].n)
    ensures end in unvisited ==> forall v :: v in unvisited ==> dist[v] == Inf && !Reachable(g, start, v)
  {
    dist := InitialDistances(g, start);
    pred := InitialPredecessors(g);
    unvisited := VertexSet(g);
    ops := [];
    rounds := [];
    stages := [Stage(unvisited, dist, pred)];
    InitialInvariant(g, start, end);
    while unvisited != {}
      invariant SearchInvariant(g, start, unvisited, dist, pred, rounds)
      invariant Trace(g, start, end, stages, rounds) && stages[|rounds|] == Stage(unvisited, dist, pred)
      invariant end in unvisited
      invariant ops == SearchOps(animated, g.vertices, rounds)
      invariant Play(InitialScreen(g, start, end), ops) == SearchScreen(g, start, end, unvisited, dist)
      decreases |unvisited|
    {
      var cur := SelectMin(unvisited, dist);
      if dist[cur] == Inf {
        StuckMeansUnreachable(g, start, unvisited, dist, cur);
        break;
      }
      if cur != end {
        RemainsUnvisited(unvisited, cur, end);
      }
      ghost var round;
      unvisited, dist, pred, ops, rounds, round, stages :=
        SearchRound(g, start, end, animated, unvisited, dist, pred, ops, rounds, cur, stages);
      if cur == end {
        break;
      }
    }
    FinalisedAreShortest(g, start, unvisited, dist, pred, rounds);
  }
}
