# Dijkstra's algorithm, animated — a verified model

Two manim scenes animate Dijkstra's shortest-path algorithm on a small
undirected weighted graph. Both run the same loop. It picks an unvisited
vertex of smallest tentative distance, stops if that distance is
infinite, and finalises the vertex. It then relaxes the edges to
still-unvisited neighbours in the order the edges are declared, and
stops once the end vertex is finalised. The two scenes then rebuild the
path in different ways:

- The first scene (`DijkstrasAlgo1.py`) keeps a predecessor dictionary.
  It walks that back from the end vertex and reverses the result.
- The second scene (`DijkstraAlgo2.py`) keeps only the distances. It
  rebuilds an adjacency list and walks back along "tight" edges, that is
  edges where the neighbour's distance plus the weight equals the
  current vertex's distance.

Both scenes then write the path and colour its edges blue, or write
"No path from X to Y".

The model has eight modules:

- `Graphs` holds the graph, walks, walk weights and reachability.
- `Distance` holds a distance that is finite or infinite, and the text a
  distance cell shows.
- `Display` reduces every `self.play(...)` and every un-animated
  `set_fill` to an abstract screen operation, and replays those
  operations on a screen.
- `Search` is the main loop. It is an imperative method proved against a
  named search invariant.
- `PredecessorPath` is the first scene's `reconstruct_path`.
- `DistancePath` is the second scene's `reconstruct_path`.
- `Scenes` puts the search and the path phase of each scene together.
- `BuiltIn` runs both scenes on the graphs written into the source.

The main results:

- **The loop.** The loop keeps the search invariant. Every finalised
  vertex holds its true shortest distance. When the end vertex is
  finalised it was the last vertex selected, and nothing left unvisited
  is closer. When the loop gives up, nothing left unvisited is
  reachable. Each round's new tables and log of improvements are exactly
  those of a reference pass over the declared edges in declared order, so
  the loop's whole history is fixed up to the choice among equal minima.
- **The screen.** Replaying what a scene emits gives a screen on which
  finalised vertices are green, the cells show the distance table, and
  the path's edges are blue at the scene's stroke width.
- **The first scene's path.** `reconstruct_path` returns a value exactly
  when the end vertex is reachable. That value is a shortest walk, and
  it follows the predecessor links.
- **The second scene's path.** The corrected `reconstruct_path` returns a
  value exactly when the end vertex is reachable. The sequence it
  writes is a shortest walk, and each returned pair is one step of that
  walk.
- **The built-in graphs.**
  - The first scene's path A, E, J has distance 10, and I is left
    unvisited at 11.
  - The second scene's path is (A, B), (B, C), (C, D) with distance 5,
    and F is left unvisited at 6.

## Model

| member | source | states |
|---|---|---|
| Opt.ExtendAssoc | DijkstrasAlgo1.py:358-361 | appending to a path that may be absent is associative, which is how the walk back accumulates its vertices |
| Lists.ReverseSnoc | DijkstrasAlgo1.py:358-361 | reversing a list after appending an element puts that element first, which is what `path.append` then `path.reverse()` relies on |
| Graphs.WeightOfEdge | DijkstrasAlgo1.py:14-29 | in a well-formed edge list, the weight looked up for an edge's endpoints, in either order, is that edge's declared weight |
| Graphs.WeightPositive | DijkstrasAlgo1.py:243-251 | the weight between two adjacent vertices is positive and the same in both directions, because the graph is undirected |
| Graphs.KeyIsDeclared | DijkstrasAlgo1.py:257 | the key used to find an edge in `edge_dict` is one of the declared keys, oriented as `(a, b)` or `(b, a)` |
| Graphs.WalkExtend | DijkstrasAlgo1.py:243-254 | extending a walk by an adjacent vertex gives a walk whose weight grows by that edge's weight |
| Graphs.PotentialBound | DijkstrasAlgo1.py:14-29 | under a feasible potential, the potential of a walk's last vertex is at most the walk's weight |
| Graphs.PotentialLowerBound | DijkstrasAlgo1.py:14-29 | a feasible potential bounds the shortest distance from below, at every vertex |
| Distance.Min | DijkstrasAlgo1.py:251-254 | the minimum of two distances, infinity included, is one of them and at most both |
| Distance.AtMostFacts | DijkstrasAlgo1.py:233-234 | the order on distances with `float('inf')` on top is total and transitive, and adding a weight never decreases a distance |
| Distance.CellRoundTrip | DijkstrasAlgo1.py:333 | the text shown in a distance cell ("∞" or the decimal number) reads back as exactly that distance |
| Distance.DecimalRoundTrip | DijkstrasAlgo1.py:347 | `str` of a natural number is a string of digits that parses back to the same number |
| Display.PlayAppend | DijkstrasAlgo1.py:231-318 | replaying two runs of screen operations in turn equals replaying their concatenation |
| Display.UpdateDistanceArray | DijkstrasAlgo1.py:344-349 | `update_distance_array` emits one cell transform per vertex, in vertex order |
| Display.RedrawShowsTable | DijkstrasAlgo1.py:344-349 | after the redraw, every vertex's cell shows its current distance and nothing else on screen changes |
| Display.RelaxBlockOnScreen | DijkstrasAlgo1.py:256-267 | an improving relaxation turns its edge orange, redraws the table and turns the edge grey again, so only the cells change |
| Display.RelaxOpsOnScreen | DijkstrasAlgo1.py:243-267 | after all relaxations of a round, the cells show the table of the last relaxation, and nothing else changes |
| Display.HighlightPath | DijkstrasAlgo1.py:302-312 | the emphasis paints each path edge blue in path order, then sets every path edge's stroke to the given width |
| Display.HighlightOnScreen | DijkstrasAlgo1.py:302-312 | after the emphasis, the path edges are blue at the given width and the rest of the screen is unchanged |
| Display.BlueOnScreen | DijkstraAlgo2.py:265-273 | painting the path's edges blue one by one leaves exactly those edges blue |
| Search.InitialIsConsistent | DijkstrasAlgo1.py:209-212 | the initial tables (start at 0 with no predecessor, every other vertex infinite with none) are consistent |
| Search.InitialInvariant | DijkstrasAlgo1.py:205-228 | the search invariant holds before the loop, with every vertex unvisited, and the initial screen is the screen of that state |
| Search.ColoursAfterRound | DijkstrasAlgo1.py:239-270 | painting the selected vertex yellow and then green gives the colours of the next state: finalised vertices green, the others as before the loop |
| Search.MinimumExists | DijkstrasAlgo1.py:233 | a nonempty set of vertices has a vertex of least distance, so `min` is defined |
| Search.SelectMin | DijkstrasAlgo1.py:233 | the selected vertex is unvisited and its distance is at most every unvisited distance |
| Search.Improve | DijkstrasAlgo1.py:251-257 | the body for one neighbour either changes nothing or lowers the neighbour's distance and logs exactly one entry for it, under its edge's dictionary key, showing the new table |
| Search.RelaxPass | DijkstrasAlgo1.py:243-267 | the reference pass over the first edges in declared order keeps both tables defined on every vertex, and every table it logs shows every vertex |
| Search.PassRelaxedBy | DijkstrasAlgo1.py:243-267 | after the reference pass over any prefix of the edges: an unvisited neighbour joined by those edges ends at the minimum of its old distance and the distance through the current vertex, its predecessor becomes the current vertex exactly when it improved, everything else is unchanged, and the log names every improved neighbour exactly once, under its edge key, with a table showing its final distance, the last table being the final one |
| Search.PassMeetsRelaxedBy | DijkstrasAlgo1.py:243-267 | the same description holds for the reference pass over every declared edge |
| Search.RelaxEdge | DijkstrasAlgo1.py:243-267 | one iteration of the edge loop gives exactly the reference step for that edge: skip it unless it joins the current vertex to an unvisited neighbour, improve only when the way through the current vertex is strictly shorter; it emits the new log entry's orange, redraw and grey block, or nothing when nothing improved |
| Search.RelaxEdges | DijkstrasAlgo1.py:243-267 | after the edge loop, the tables and the log are exactly those of the reference pass over every declared edge in declared order, and the emitted operations are the logged blocks in log order |
| Search.RelaxationMonotone | DijkstrasAlgo1.py:251-254 | relaxation never raises a distance, never touches a finalised vertex, and records the current vertex as predecessor of every vertex it changes |
| Search.RoundScreen | DijkstrasAlgo1.py:239-271 | a round's operations take the screen of the old state to the screen of the new state |
| Search.SelectedIsShortest | DijkstrasAlgo1.py:233-236 | the vertex selected with a finite distance has no walk shorter than that distance |
| Search.StuckMeansUnreachable | DijkstrasAlgo1.py:234-235 | when the least unvisited distance is infinite, no unvisited vertex is reachable |
| Search.FinalisedBeforeRest | DijkstrasAlgo1.py:233-236 | no unvisited vertex is closer than the selected one |
| Search.ConsistentAfterRound | DijkstrasAlgo1.py:236-267 | after a round, the predecessor links still give exactly each vertex's distance, and predecessors are finalised vertices |
| Search.BoundsAfterRound | DijkstrasAlgo1.py:236-267 | after a round, finalised distances are bounded below by every walk, every frontier vertex is relaxed from every finalised neighbour, and finalised vertices come first |
| Search.LogAfterRound | DijkstrasAlgo1.py:231-271 | after a round, the logged rounds are distinct vertices in non-decreasing distance order, and they are exactly the finalised vertices |
| Search.RoundKeepsInvariant | DijkstrasAlgo1.py:231-271 | a round keeps the whole search invariant |
| Search.SearchRound | DijkstrasAlgo1.py:232-271 | one pass of the main loop removes the selected vertex from the unvisited set; the new tables and the round's log are exactly the reference pass from the old tables; the rounds grow by that round, the operations by exactly that round's yellow, relaxation and green operations, and the history by the new stage; it keeps the invariant and the screen in step with the state and leaves nothing unvisited closer than that vertex |
| Search.TraceSnoc | DijkstrasAlgo1.py:231-275 | a history of the loop, extended by one round taken from its last stage while the end vertex is still unvisited, is still a history of the loop |
| Search.FinalisedAreShortest | DijkstrasAlgo1.py:231-275 | under the search invariant, every finalised vertex's distance is its shortest distance |
| Search.Run | DijkstrasAlgo1.py:208-275 | the whole loop, in both scenes: its stages and rounds form a history that starts from the initial tables, in which every round selects an unvisited vertex of least, finite distance and applies the reference pass, and the end vertex was unvisited before every round; it keeps the search invariant, every finalised distance is the shortest distance, a finalised end vertex was the last one selected with nothing unvisited closer, when the loop gives up nothing unvisited is reachable, and replaying the emitted operations gives the screen of the final state |
| PredecessorPath.ReconstructPath | DijkstrasAlgo1.py:351-362 | `reconstruct_path` returns exactly the path `PredPath` defines: the predecessor chain from the end back to the start, reversed, or `None` where it breaks off |
| PredecessorPath.WalkBackStep | DijkstrasAlgo1.py:355-359 | one pass of the walk back keeps the loop invariant: the path still to walk, followed by the reversed path already walked, is the whole path |
| PredecessorPath.PredPathDefined | DijkstrasAlgo1.py:356-357 | the walk back returns `None` exactly when the end vertex's distance is infinite |
| PredecessorPath.PredPathIsWalk | DijkstrasAlgo1.py:351-362 | the returned path is a walk from the start to the end, and its weight equals the end's distance |
| PredecessorPath.PredPathFollowsLinks | DijkstrasAlgo1.py:358-359 | each vertex of the returned path is recorded as the predecessor of the next |
| PredecessorPath.Achieved | DijkstrasAlgo1.py:252-254 | every finite distance in the table is the weight of some walk from the start |
| DistancePath.BuildAdjacency | DijkstraAlgo2.py:312-315 | `graph_dict` has one list per vertex, holding each incident edge's other end and weight, in declared edge order |
| DistancePath.AdjacencyMembers | DijkstraAlgo2.py:313-315 | an entry is in a vertex's list exactly when some declared edge joins that vertex to it with that weight |
| DistancePath.AdjacencyAppend | DijkstraAlgo2.py:313-315 | the lists built from two runs of edges are the concatenation of the lists built from each |
| DistancePath.EntryIsEdge | DijkstraAlgo2.py:322-323 | every entry of a list is an adjacent vertex with the graph's weight, which is positive |
| DistancePath.EdgeIsEntry | DijkstraAlgo2.py:313-315 | every adjacent vertex appears in the list, with the graph's weight |
| DistancePath.FirstTight | DijkstraAlgo2.py:322-327 | the scan returns the first entry whose distance plus weight equals the target, or reports that no entry is tight |
| DistancePath.ScanNeighbours | DijkstraAlgo2.py:321-327 | the inner `for` loop with its `break` returns the first tight entry, as `FirstTight` defines it |
| DistancePath.TightIsCloser | DijkstraAlgo2.py:323-325 | a tight neighbour has a finite distance that is smaller than the current vertex's by exactly the edge's weight |
| DistancePath.PairsBack | DijkstraAlgo2.py:322-327 | a found path is the path found from the tight neighbour, followed by the step from that neighbour |
| DistancePath.StepBack | DijkstraAlgo2.py:318-327 | one pass of the corrected walk back keeps the loop invariant: the pairs still to find, followed by the reversed pairs already found, are the whole result |
| DistancePath.ReconstructByDistance | DijkstraAlgo2.py:310-331 | the corrected `reconstruct_path` returns exactly the pairs `DistancePairs` defines: the tight steps back from the end, reversed, or `None` where no neighbour is tight or the distance is infinite |
| DistancePath.ConsistentIsSupported | DijkstraAlgo2.py:220-222 | the tables the loop leaves give every finite non-start vertex a neighbour that attains its distance |
| DistancePath.DistancePairsDefined | DijkstraAlgo2.py:328-329 | the corrected walk back returns a path exactly when the end vertex's distance is finite |
| DistancePath.DistancePairsIsWalk | DijkstraAlgo2.py:259 | the vertex sequence the scene writes is a walk of the graph from the start to the end |
| DistancePath.DistancePairsAreSteps | DijkstraAlgo2.py:259 | each returned pair is the step between two consecutive vertices of that sequence |
| DistancePath.DistancePairsWeight | DijkstraAlgo2.py:323 | the end's distance is the start's distance plus the weight of that walk |
| DistancePath.StrandedFacts | DijkstraAlgo2.py:322-323 | in a graph where the end and its only neighbour are unreachable, each is "tight" for the other, since infinity plus one is infinity |
| DistancePath.AsWrittenNeverReturns | DijkstraAlgo2.py:318-329 | on that graph the loop as written moves from C to B and back for ever, and never returns |
| DistancePath.CorrectedGivesUp | DijkstraAlgo2.py:328-329 | on that graph the corrected walk back returns `None` |
| Scenes.PathEdges | DijkstrasAlgo1.py:294-300 | `path_edges` holds one declared edge key per step of the path, oriented as declared |
| Scenes.PathPhaseOnScreen | DijkstrasAlgo1.py:280-312 | the path branch writes the title and the path text, then leaves the path edges blue at the given width |
| Scenes.NoPathOnScreen | DijkstrasAlgo1.py:313-318 | the no-path branch only writes its message |
| Scenes.PathPhaseOne | DijkstrasAlgo1.py:277-318 | the first scene's path phase: the path exists exactly when the end's distance is finite, it is a walk weighing the end's distance; a nonempty path emits exactly the title, the path text, each path edge turned blue in order and one stroke change to width 4, and no path emits only the no-path message; the screen shows one or the other |
| Scenes.SceneOne | DijkstrasAlgo1.py:208-318 | the first scene: the loop's history is a trace of the algorithm, the path exists exactly when the end is reachable and is then a shortest walk, the operations are exactly the loop's operations followed by the path phase's, and the final screen is described |
| Scenes.PathPhaseTwo | DijkstraAlgo2.py:249-285 | the second scene's path phase: the corrected walk back; a nonempty result emits exactly the title, the path's sequence, each pair's edge turned blue in order and one stroke change to width 6, and otherwise only the no-path message; the screen shows one or the other |
| Scenes.PairsAfterSearch | DijkstraAlgo2.py:249-259 | after the loop, the pairs exist exactly when the end is reachable, are empty exactly when the start is the end, and spell a shortest walk |
| Scenes.SceneTwo | DijkstraAlgo2.py:178-285 | the second scene: the loop's history is a trace of the algorithm, a path is shown exactly when the end is reachable and differs from the start, that path is a shortest walk, the operations are exactly the loop's operations followed by the path phase's, and the final screen is described |
| Scenes.PairKeysArePathKeys | DijkstraAlgo2.py:265-276 | the edges the second scene highlights from the pairs are the edges of the written vertex sequence |
| BuiltIn.FirstGraphFacts | DijkstrasAlgo1.py:13-29 | the first scene's graph is well formed and has a feasible potential of its distances from A |
| BuiltIn.FirstShapeHolds | DijkstrasAlgo1.py:13-29 | the first scene's graph has the adjacency, weights and lower bounds its scene relies on |
| BuiltIn.FirstScene | DijkstrasAlgo1.py:201-318 | on any graph of that shape, from A to J: J ends at 10 with path A, E, J, J is the last vertex selected, and I stays unvisited at 11 with predecessor J |
| BuiltIn.BuiltInFirstScene | DijkstrasAlgo1.py:13-318 | the same results on the built-in graph itself |
| BuiltIn.SecondGraphFacts | DijkstraAlgo2.py:13-23 | the second scene's graph is well formed and has a feasible potential of its distances from A |
| BuiltIn.SecondShapeHolds | DijkstraAlgo2.py:13-23 | the second scene's graph has the walks, weights, lower bounds and adjacency-list heads its scene relies on |
| BuiltIn.SecondFinalised | DijkstraAlgo2.py:200-247 | from A to D, the loop finalises D at 5, along with C at 4, B at 2 and E at 1 |
| BuiltIn.SecondPairs | DijkstraAlgo2.py:310-331 | walking back from D meets C, then B, then A, giving the pairs (A, B), (B, C), (C, D) |
| BuiltIn.SecondScene | DijkstraAlgo2.py:171-285 | on any graph of that shape, from A to D: the path is (A, B), (B, C), (C, D), the written sequence is A, B, C, D, D ends at 5, and F stays unvisited at 6 |
| BuiltIn.BuiltInSecondScene | DijkstraAlgo2.py:13-285 | the same results on the built-in graph itself |

## Left out

- Rendering and timing are not modelled: manim objects, layout, fonts, `run_time`, `wait`, `rate_func` and `LaggedStart`. Screen operations are abstract, and the graph's build-up animation before the loop is not modelled.
- The title and credit texts written before the loop are not modelled, because they do not depend on the algorithm.
- Search.SelectMin: Python's `min` over a `set` breaks ties by the set's iteration order, which is not specified. The model picks any vertex of least distance, so every result holds whatever the tie-break.
- Distance.AtMostFacts: `float('inf')` is modelled as a separate `Inf` distance. Float rounding does not arise, because all weights are small integers.
- Unknown vertices are not modelled. A key missing from `distances`, `predecessors` or `edge_dict` would raise `KeyError` in the source. The model requires well-formed graphs and start and end vertices that are in the graph, which both built-in scenes satisfy.
- Search.Run: the second scene keeps no predecessor dictionary. The shared loop records predecessors for both scenes as ghost state, which the second scene's path never reads.
- BuiltIn.SecondScene: which finalised vertex gave F its distance (E, at 1 + 5) is not stated. The second scene keeps no record of that, so only F's final distance of 6 is proved, which also shows that neither C nor D improves it.
- BuiltIn.FirstScene and BuiltIn.SecondScene are stated for any graph with the built-in graph's shape. BuiltIn.FirstShapeHolds and BuiltIn.SecondShapeHolds prove that the built-in graphs have that shape.
- DistancePath.ReconstructByDistance models the corrected loop, which returns `None` when the current vertex's distance is infinite. The loop as written is modelled separately under "Findings".
- Scenes.PathPhaseOne: when the start is the end, the path is the one-vertex list `[start]`, which is truthy, and it has no edges. The emphasis at DijkstrasAlgo1.py:308-312 then calls `self.play` with no animations, which manim rejects with an error. The model does not stop there: it emits a stroke change over no edges, which leaves the screen unchanged.
- A start equal to the end in the second scene is modelled as written. The walk back returns an empty list, which is falsy, so the scene writes "No path from A to A".

## Findings

| source | as written | input that shows it | evidently intended | confidence | as-written member | corrected member |
|---|---|---|---|---|---|---|
| DijkstraAlgo2.py:318-329 | the walk back accepts a neighbour when `distances.get(neighbor, inf) + weight == distances[current]`; with both sides infinite, `inf + w == inf` holds, so an unreachable end vertex with a neighbour makes the loop move between unreachable vertices for ever | vertices A, B, C with the single edge B–C of weight 1, start A, end C: the loop leaves B and C at infinity, and the walk back goes C, B, C, B, … | return `None` when the end vertex was never reached, as the comment "No path found" says | not executed | DistancePath.AsWrittenNeverReturns | DistancePath.ReconstructByDistance |
