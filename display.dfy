/**
 * The visual side of both scenes, reduced to abstract operations: what each
 * `self.play(...)` (or un-animated `set_fill`) changes, and a screen those
 * operations can be replayed on.  Pacing (`run_time`, `wait`, `rate_func`)
 * is not modelled.
 */
module Display {
  import opened Graphs
  import opened Distance

  datatype Colour = BlueE | Green | Red | Yellow | Orange | Gray | Blue

  datatype Op =
    | PaintVertex(vertex: Vertex, colour: Colour, animated: bool)
    | PaintEdge(key: EdgeKey, colour: Colour)
    | SetCell(cell: Vertex, text: string)
    | Stroke(keys: seq<EdgeKey>, width: nat)
    | Write(text: string)

  /** What is on screen: vertex fills, edge colours and widths, distance cells, written captions. */
  datatype Screen = Screen(
    vertexColour: map<Vertex, Colour>,
    edgeColour: map<EdgeKey, Colour>,
    strokeWidth: map<EdgeKey, nat>,
    cells: map<Vertex, string>,
    texts: seq<string>)

  function Apply(s: Screen, op: Op): Screen {
    match op
    case PaintVertex(v, c, _) => s.(vertexColour := s.vertexColour[v := c])
    case PaintEdge(k, c) => s.(edgeColour := s.edgeColour[k := c])
    case SetCell(v, t) => s.(cells := s.cells[v := t])
    case Stroke(keys, w) => s.(strokeWidth := s.strokeWidth + map k | k in keys :: w)
    case Write(t) => s.(texts := s.texts + [t])
  }

  /** The screen after running `ops` in emission order. */
  function Play(s: Screen, ops: seq<Op>): Screen
    decreases |ops|
  {
    if ops == [] then s else Apply(Play(s, ops[..|ops| - 1]), ops[|ops| - 1])
  }

  lemma {:induction false} PlayAppend(s: Screen, a: seq<Op>, b: seq<Op>)
    ensures Play(s, a + b) == Play(Play(s, a), b)
    decreases |b|
  {
    if b == [] {
      assert a + b == a;
    } else {
      assert (a + b)[..|a + b| - 1] == a + b[..|b| - 1];
      PlayAppend(s, a, b[..|b| - 1]);
    }
  }

  // -------------------------------------------------------- distance cells

  predicate Covers(vs: seq<Vertex>, table: map<Vertex, Dist>) {
    forall v :: v in vs ==> v in table
  }

  /** The cell contents for a distance table: `"∞"` or the integer, per vertex. */
  function CellsOf(vs: seq<Vertex>, table: map<Vertex, Dist>): map<Vertex, string>
    requires Covers(vs, table)
  {
    map v | v in vs :: CellText(table[v])
  }

  /** `update_distance_array`: one cell transform per vertex, in vertex order. */
  function RedrawOps(vs: seq<Vertex>, table: map<Vertex, Dist>): seq<Op>
    requires Covers(vs, table)
    decreases |vs|
  {
    if vs == [] then []
    else RedrawOps(vs[..|vs| - 1], table) + [SetCell(vs[|vs| - 1], CellText(table[vs[|vs| - 1]]))]
  }

  method UpdateDistanceArray(vs: seq<Vertex>, table: map<Vertex, Dist>) returns (ops: seq<Op>)
    requires Covers(vs, table)
    ensures ops == RedrawOps(vs, table)
  {
    ops := [];
    for i := 0 to |vs|
      invariant ops == RedrawOps(vs[..i], table)
    {
      assert vs[..i + 1][..i] == vs[..i];
      ops := ops + [SetCell(vs[i], CellText(table[vs[i]]))];
    }
    assert vs[..|vs|] == vs;
  }

  /** A redraw leaves everything alone except the cells, which then show the whole table. */
  lemma {:induction false} RedrawShowsTable(s: Screen, vs: seq<Vertex>, table: map<Vertex, Dist>)
    requires Covers(vs, table)
    ensures Play(s, RedrawOps(vs, table)) == s.(cells := s.cells + CellsOf(vs, table))
    decreases |vs|
  {
    if vs == [] {
      assert CellsOf(vs, table) == map[];
      assert s.cells + map[] == s.cells;
    } else {
      var front := vs[..|vs| - 1];
      var last := vs[|vs| - 1];
      var ops := RedrawOps(vs, table);
      assert ops == RedrawOps(front, table) + [SetCell(last, CellText(table[last]))];
      assert ops[..|ops| - 1] == RedrawOps(front, table);
      assert Play(s, ops) == Apply(Play(s, RedrawOps(front, table)), SetCell(last, CellText(table[last])));
      RedrawShowsTable(s, front, table);
      assert vs == front + [last];
      CellsOfSnoc(s.cells, front, last, table);
    }
  }

  lemma CellsOfSnoc(cells: map<Vertex, string>, front: seq<Vertex>, last: Vertex, table: map<Vertex, Dist>)
    requires Covers(front + [last], table)
    ensures Covers(front, table)
    ensures cells + CellsOf(front + [last], table) == (cells + CellsOf(front, table))[last := CellText(table[last])]
  {
    var vs := front + [last];
    assert forall v :: v in vs <==> v in front || v == last;
    var lhs := cells + CellsOf(vs, table);
    var rhs := (cells + CellsOf(front, table))[last := CellText(table[last])];
    assert lhs.Keys == rhs.Keys;
    assert forall k :: k in lhs ==> lhs[k] == rhs[k];
  }

  // ------------------------------------------------------------ relaxations

  /**
   * One improving edge as the scene shows it: the edge looked up under
   * `key`, the neighbour whose distance fell, and the table right after.
   */
  datatype Relaxation = Relaxation(neighbour: Vertex, key: EdgeKey, table: map<Vertex, Dist>)

  predicate TablesCover(vs: seq<Vertex>, rs: seq<Relaxation>) {
    forall r :: r in rs ==> Covers(vs, r.table)
  }

  /** Orange edge, redraw of every cell, grey edge. */
  function RelaxBlock(vs: seq<Vertex>, r: Relaxation): seq<Op>
    requires Covers(vs, r.table)
  {
    [PaintEdge(r.key, Orange)] + RedrawOps(vs, r.table) + [PaintEdge(r.key, Gray)]
  }

  function RelaxOps(vs: seq<Vertex>, rs: seq<Relaxation>): seq<Op>
    requires TablesCover(vs, rs)
    decreases |rs|
  {
    if rs == [] then [] else RelaxOps(vs, rs[..|rs| - 1]) + RelaxBlock(vs, rs[|rs| - 1])
  }

  /** A block's orange edge goes back to grey, and the cells show the block's table. */
  lemma RelaxBlockOnScreen(s: Screen, vs: seq<Vertex>, r: Relaxation)
    requires Covers(vs, r.table)
    requires r.key in s.edgeColour && s.edgeColour[r.key] == Gray
    ensures Play(s, RelaxBlock(vs, r)) == s.(cells := s.cells + CellsOf(vs, r.table))
  {
    var orange := Apply(s, PaintEdge(r.key, Orange));
    var head := [PaintEdge(r.key, Orange)];
    assert Play(s, head) == orange by {
      assert head[..0] == [];
    }
    PlayAppend(s, head, RedrawOps(vs, r.table));
    RedrawShowsTable(orange, vs, r.table);
    PlayAppend(s, head + RedrawOps(vs, r.table), [PaintEdge(r.key, Gray)]);
    var mid := orange.(cells := orange.cells + CellsOf(vs, r.table));
    assert Play(mid, [PaintEdge(r.key, Gray)]) == Apply(mid, PaintEdge(r.key, Gray)) by {
      assert [PaintEdge(r.key, Gray)][..0] == [];
    }
    assert s.edgeColour[r.key := Orange][r.key := Gray] == s.edgeColour;
  }

  /**
   * However many edges improve, the edge colours end as they began and the
   * cells show the last table; with no improvement nothing happens.
   */
  lemma {:induction false} RelaxOpsOnScreen(s: Screen, vs: seq<Vertex>, rs: seq<Relaxation>)
    requires TablesCover(vs, rs)
    requires forall r :: r in rs ==> r.key in s.edgeColour && s.edgeColour[r.key] == Gray
    ensures rs == [] ==> Play(s, RelaxOps(vs, rs)) == s
    ensures rs != [] ==> Play(s, RelaxOps(vs, rs)) == s.(cells := s.cells + CellsOf(vs, rs[|rs| - 1].table))
    decreases |rs|
  {
    if rs != [] {
      var front := rs[..|rs| - 1];
      var r := rs[|rs| - 1];
      assert forall x :: x in front ==> x in rs;
      RelaxOpsOnScreen(s, vs, front);
      PlayAppend(s, RelaxOps(vs, front), RelaxBlock(vs, r));
      var before := Play(s, RelaxOps(vs, front));
      assert before.edgeColour == s.edgeColour;
      RelaxBlockOnScreen(before, vs, r);
      if front != [] {
        Overwrite(s.cells, CellsOf(vs, front[|front| - 1].table), CellsOf(vs, r.table));
      }
    }
  }

  lemma Overwrite(cells: map<Vertex, string>, a: map<Vertex, string>, b: map<Vertex, string>)
    requires a.Keys <= b.Keys
    ensures cells + a + b == cells + b
  {
    var lhs := cells + a + b;
    assert lhs.Keys == (cells + b).Keys;
    assert forall k :: k in lhs ==> lhs[k] == (cells + b)[k];
  }

  // ---------------------------------------------------------------- rounds

  /** One iteration of the main loop: the selected vertex and its improving edges in declared order. */
  datatype Round = Round(vertex: Vertex, relaxations: seq<Relaxation>)

  predicate RoundsCover(vs: seq<Vertex>, rounds: seq<Round>) {
    forall r :: r in rounds ==> TablesCover(vs, r.relaxations)
  }

  /** Yellow vertex, one block per improving edge, green vertex. */
  function RoundOps(animated: bool, vs: seq<Vertex>, r: Round): seq<Op>
    requires TablesCover(vs, r.relaxations)
  {
    [PaintVertex(r.vertex, Yellow, animated)] + RelaxOps(vs, r.relaxations) + [PaintVertex(r.vertex, Green, animated)]
  }

  /** The operations the main loop emits for a log of rounds, in order and never interleaved. */
  function SearchOps(animated: bool, vs: seq<Vertex>, rounds: seq<Round>): seq<Op>
    requires RoundsCover(vs, rounds)
    decreases |rounds|
  {
    if rounds == [] then []
    else SearchOps(animated, vs, rounds[..|rounds| - 1]) + RoundOps(animated, vs, rounds[|rounds| - 1])
  }

  // -------------------------------------------------------- path emphasis

  function BlueOps(keys: seq<EdgeKey>): seq<Op>
    decreases |keys|
  {
    if keys == [] then [] else BlueOps(keys[..|keys| - 1]) + [PaintEdge(keys[|keys| - 1], Blue)]
  }

  /** Path edges turn blue one by one, then one batched stroke change covers them all. */
  method HighlightPath(keys: seq<EdgeKey>, width: nat) returns (ops: seq<Op>)
    ensures |ops| == |keys| + 1
    ensures forall i :: 0 <= i < |keys| ==> ops[i] == PaintEdge(keys[i], Blue)
    ensures ops[|keys|] == Stroke(keys, width)
    ensures ops == BlueOps(keys) + [Stroke(keys, width)]
  {
    ops := [];
    for i := 0 to |keys|
      invariant ops == BlueOps(keys[..i])
      invariant |ops| == i
      invariant forall j :: 0 <= j < i ==> ops[j] == PaintEdge(keys[j], Blue)
    {
      assert keys[..i + 1][..i] == keys[..i];
      ops := ops + [PaintEdge(keys[i], Blue)];
    }
    assert keys[..|keys|] == keys;
    ops := ops + [Stroke(keys, width)];
  }

  /** After the emphasis every path edge is blue at the new width; nothing else changed. */
  lemma {:induction false} HighlightOnScreen(s: Screen, keys: seq<EdgeKey>, width: nat)
    ensures Play(s, BlueOps(keys) + [Stroke(keys, width)])
         == s.(edgeColour := s.edgeColour + (map k | k in keys :: Blue),
               strokeWidth := s.strokeWidth + (map k | k in keys :: width))
  {
    BlueOnScreen(s, keys);
    PlayAppend(s, BlueOps(keys), [Stroke(keys, width)]);
    assert [Stroke(keys, width)][..0] == [];
  }

  lemma {:induction false} BlueOnScreen(s: Screen, keys: seq<EdgeKey>)
    ensures Play(s, BlueOps(keys)) == s.(edgeColour := s.edgeColour + (map k | k in keys :: Blue))
    decreases |keys|
  {
    if keys == [] {
      assert s.edgeColour + (map k | k in keys :: Blue) == s.edgeColour;
    } else {
      var front := keys[..|keys| - 1];
      var last := keys[|keys| - 1];
      BlueOnScreen(s, front);
      var ops := BlueOps(keys);
      assert ops[..|ops| - 1] == BlueOps(front);
      assert Play(s, ops) == Apply(Play(s, BlueOps(front)), PaintEdge(last, Blue));
      assert keys == front + [last];
      BlueSnoc(s.edgeColour, front, last);
    }
  }

  lemma BlueSnoc(colours: map<EdgeKey, Colour>, front: seq<EdgeKey>, last: EdgeKey)
    ensures colours + (map k | k in front + [last] :: Blue) == (colours + (map k | k in front :: Blue))[last := Blue]
  {
    var keys := front + [last];
    assert forall k :: k in keys <==> k in front || k == last;
    var lhs := colours + (map k | k in keys :: Blue);
    var rhs := (colours + (map k | k in front :: Blue))[last := Blue];
    assert lhs.Keys == rhs.Keys;
    assert forall k :: k in lhs ==> lhs[k] == rhs[k];
  }
}
