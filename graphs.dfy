/** The optional value both path reconstructions return (Python's `None` or a value). */
module Opt {
  datatype Option<T> = None | Some(value: T)

  /** Appends `tail` to a present sequence; `None` stays `None`. */
  function Extend<T>(o: Option<seq<T>>, tail: seq<T>): Option<seq<T>> {
    match o
    case None => None
    case Some(q) => Some(q + tail)
  }

  lemma ExtendNil<T>(o: Option<seq<T>>)
    ensures Extend(o, []) == o
  {
    if o.Some? {
      assert o.value + [] == o.value;
    }
  }

  lemma ExtendAssoc<T>(o: Option<seq<T>>, a: seq<T>, b: seq<T>)
    ensures Extend(Extend(o, a), b) == Extend(o, a + b)
  {
    if o.Some? {
      assert o.value + a + b == o.value + (a + b);
    }
  }
}

/** The two Python list operations the scenes use on paths: `reverse()` and `str.join`. */
module Lists {

  function Reverse<T>(s: seq<T>): (r: seq<T>)
    ensures |r| == |s|
    decreases |s|
  {
    if s == [] then [] else Reverse(s[1..]) + [s[0]]
  }

  /** Appending before reversing puts the new element first. */
  lemma {:induction false} ReverseSnoc<T>(s: seq<T>, x: T)
    ensures Reverse(s + [x]) == [x] + Reverse(s)
    decreases |s|
  {
    if s == [] {
      assert Reverse([x]) == Reverse([x][1..]) + [x];
      assert [x][1..] == [];
    } else {
      assert (s + [x])[1..] == s[1..] + [x];
      ReverseSnoc(s[1..], x);
    }
  }

  /** `sep.join(parts)`. */
  function Join(parts: seq<string>, sep: string): string
    decreases |parts|
  {
    if parts == [] then "" else if |parts| == 1 then parts[0] else Join(parts[..|parts| - 1], sep) + sep + parts[|parts| - 1]
  }
}

/**
 * The graph both scenes search: a list of vertex labels and a list of
 * undirected, positively weighted edges in declared order, plus walks over it
 * and their weights (the reference the search is judged against).
 */
module Graphs {

  type Vertex = string

  /** One entry of the declared edge list, in its declared orientation. */
  datatype Edge = Edge(u: Vertex, v: Vertex, w: nat)

  datatype Graph = Graph(vertices: seq<Vertex>, edges: seq<Edge>)

  /** The key under which a scene stores an edge's line: its declared orientation. */
  type EdgeKey = (Vertex, Vertex)

  predicate Joins(e: Edge, a: Vertex, b: Vertex) {
    (e.u == a && e.v == b) || (e.u == b && e.v == a)
  }

  /**
   * What both scenes assume of their built-in graph: distinct labels, edges
   * between two different known vertices, positive weights, and at most one
   * edge per unordered pair.
   */
  predicate WellFormed(g: Graph) {
    && (forall i, j :: 0 <= i < j < |g.vertices| ==> g.vertices[i] != g.vertices[j])
    && (forall e :: e in g.edges ==> e.u in g.vertices && e.v in g.vertices && e.u != e.v && e.w > 0)
    && (forall i, j :: 0 <= i < j < |g.edges| ==> !Joins(g.edges[j], g.edges[i].u, g.edges[i].v))
  }

  function VertexSet(g: Graph): set<Vertex> {
    set v | v in g.vertices
  }

  predicate Adjacent(g: Graph, a: Vertex, b: Vertex) {
    exists e :: e in g.edges && Joins(e, a, b)
  }

  /** The weight of the first declared edge joining `a` and `b` (0 if there is none). */
  function EdgeWeight(edges: seq<Edge>, a: Vertex, b: Vertex): nat {
    if edges == [] then 0
    else if Joins(edges[0], a, b) then edges[0].w
    else EdgeWeight(edges[1..], a, b)
  }

  function W(g: Graph, a: Vertex, b: Vertex): nat {
    EdgeWeight(g.edges, a, b)
  }

  /** The keys of the scenes' edge dictionary: every declared orientation. */
  function Declared(g: Graph): set<EdgeKey> {
    set e | e in g.edges :: (e.u, e.v)
  }

  /** `(a, b) if (a, b) in edge_dict else (b, a)`: how a scene finds an edge's line. */
  function Key(g: Graph, a: Vertex, b: Vertex): EdgeKey {
    if (a, b) in Declared(g) then (a, b) else (b, a)
  }

  lemma KeyIsDeclared(g: Graph, a: Vertex, b: Vertex)
    requires Adjacent(g, a, b)
    ensures Key(g, a, b) in Declared(g)
    ensures Key(g, a, b) == (a, b) || Key(g, a, b) == (b, a)
  {
    var e :| e in g.edges && Joins(e, a, b);
    assert (e.u, e.v) in Declared(g);
  }

  /** In a well-formed graph the unique edge joining two vertices carries the weight `W` reports. */
  lemma {:induction false} WeightOfEdge(g: Graph, i: nat)
    requires WellFormed(g) && i < |g.edges|
    ensures W(g, g.edges[i].u, g.edges[i].v) == g.edges[i].w
    ensures W(g, g.edges[i].v, g.edges[i].u) == g.edges[i].w
  {
    var e := g.edges[i];
    forall a, b | Joins(e, a, b)
      ensures EdgeWeight(g.edges, a, b) == e.w
    {
      FirstJoining(g, 0, i, a, b);
    }
  }

  lemma {:induction false} FirstJoining(g: Graph, k: nat, i: nat, a: Vertex, b: Vertex)
    requires WellFormed(g) && k <= i < |g.edges| && Joins(g.edges[i], a, b)
    ensures EdgeWeight(g.edges[k..], a, b) == g.edges[i].w
    decreases i - k
  {
    if k < i {
      assert !Joins(g.edges[i], g.edges[k].u, g.edges[k].v);
      assert g.edges[k..][1..] == g.edges[k + 1..];
      FirstJoining(g, k + 1, i, a, b);
    }
  }

  lemma {:induction false} WeightPositive(g: Graph, a: Vertex, b: Vertex)
    requires WellFormed(g) && Adjacent(g, a, b)
    ensures W(g, a, b) > 0
    ensures W(g, a, b) == W(g, b, a)
  {
    var i :| 0 <= i < |g.edges| && Joins(g.edges[i], a, b);
    WeightOfEdge(g, i);
  }

  // ---------------------------------------------------------------- walks

  /** A walk: a non-empty vertex sequence whose consecutive vertices are joined by an edge. */
  ghost predicate IsWalk(g: Graph, p: seq<Vertex>) {
    && |p| > 0
    && (forall i :: 0 <= i < |p| ==> p[i] in g.vertices)
    && (forall i :: 0 <= i < |p| - 1 ==> Adjacent(g, p[i], p[i + 1]))
  }

  ghost predicate WalkFromTo(g: Graph, s: Vertex, t: Vertex, p: seq<Vertex>) {
    IsWalk(g, p) && p[0] == s && p[|p| - 1] == t
  }

  /** The summed weight of a walk's edges. */
  function WalkWeight(g: Graph, p: seq<Vertex>): nat
    decreases |p|
  {
    if |p| <= 1 then 0 else WalkWeight(g, p[..|p| - 1]) + W(g, p[|p| - 2], p[|p| - 1])
  }

  ghost predicate Reachable(g: Graph, s: Vertex, t: Vertex) {
    exists p :: WalkFromTo(g, s, t, p)
  }

  /** No walk from `s` to `t` weighs less than `d`. */
  ghost predicate LowerBound(g: Graph, s: Vertex, t: Vertex, d: nat) {
    forall p :: WalkFromTo(g, s, t, p) ==> d <= WalkWeight(g, p)
  }

  /** `d` is the true shortest distance from `s` to `t`. */
  ghost predicate ShortestDistance(g: Graph, s: Vertex, t: Vertex, d: nat) {
    LowerBound(g, s, t, d) && exists p :: WalkFromTo(g, s, t, p) && WalkWeight(g, p) == d
  }

  lemma {:induction false} WalkPrefix(g: Graph, p: seq<Vertex>)
    requires IsWalk(g, p) && |p| > 1
    ensures IsWalk(g, p[..|p| - 1])
    ensures Adjacent(g, p[|p| - 2], p[|p| - 1])
  {
  }

  lemma {:induction false} WalkExtend(g: Graph, p: seq<Vertex>, v: Vertex)
    requires IsWalk(g, p) && v in g.vertices && Adjacent(g, p[|p| - 1], v)
    ensures IsWalk(g, p + [v])
    ensures WalkWeight(g, p + [v]) == WalkWeight(g, p) + W(g, p[|p| - 1], v)
  {
    assert (p + [v])[..|p + [v]| - 1] == p;
  }

  /**
   * A vertex labelling that starts at 0 and that no edge can undercut in
   * either direction bounds every walk's weight from below.
   */
  ghost predicate FeasiblePotential(g: Graph, s: Vertex, phi: map<Vertex, nat>) {
    && (forall v :: v in g.vertices ==> v in phi)
    && s in phi && phi[s] == 0
    && (forall e :: e in g.edges ==> e.u in phi && e.v in phi && phi[e.v] <= phi[e.u] + e.w && phi[e.u] <= phi[e.v] + e.w)
  }

  lemma {:induction false} PotentialBound(g: Graph, s: Vertex, phi: map<Vertex, nat>, p: seq<Vertex>)
    requires WellFormed(g) && FeasiblePotential(g, s, phi)
    requires IsWalk(g, p) && p[0] == s
    ensures phi[p[|p| - 1]] <= WalkWeight(g, p)
    decreases |p|
  {
    if |p| > 1 {
      WalkPrefix(g, p);
      PotentialBound(g, s, phi, p[..|p| - 1]);
      var a, b := p[|p| - 2], p[|p| - 1];
      var i :| 0 <= i < |g.edges| && Joins(g.edges[i], a, b);
      WeightOfEdge(g, i);
    }
  }

  lemma PotentialLowerBound(g: Graph, s: Vertex, t: Vertex, phi: map<Vertex, nat>)
    requires WellFormed(g) && FeasiblePotential(g, s, phi) && t in phi
    ensures LowerBound(g, s, t, phi[t])
  {
    forall p | WalkFromTo(g, s, t, p)
      ensures phi[t] <= WalkWeight(g, p)
    {
      PotentialBound(g, s, phi, p);
    }
  }
}
