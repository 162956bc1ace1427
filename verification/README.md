# Short-edge pruning of skeleton graphs, in Dafny

This project models `GraphPruningUtils` of AnalyzeSkeleton. The class prunes short
edges from an undirected skeleton graph whose vertices own integer 3-D points and
keep lists of their incident edges ("branches"). The model proves what each stage
does to the graph:

- loop removal (`removeLoops`, module `Loops`);
- parallel-edge removal with the pair key `connectionHash` over the dense vertex ids
  of `mapVertexIds` (modules `PairKeys` and `Parallel`);
- dead-end pruning (`pruneDeadEnds`, `isDeadEnd`, `isShort`, module `DeadEnds`);
- cluster finding (`fillCluster`, `findClusterVertices`, `findClusters`, modules
  `Filling` and `Clusters`);
- the cleaning step, which collapses each cluster into its rounded centroid.
  Centres: `getClusterCentre`, `centroid`, `realToIntegerCoordinate` (module
  `Centres`). Boundary edges: `findEdgesWithOneEndInCluster` (module `OuterEdges`).
  Rewiring: `replaceEdge` and `mapReplacementEdges` (modules `Replacement`,
  `Rewiring`, `Collapsing`, `Initial`). The rebuild: `createCleanGraph`,
  `isNotInClusters`, `lonelyVertices`, `endpoints`, `removeDanglingBranches`
  (module `Cleaning`). The step as a whole: `cleaningStep` (module `Step`);
- the driver `pruneShortEdges` (module `Pruning`).

The graph is an arena of ids. `Graphs.Graph` maps vertex ids to vertices (points,
and the branch list as a sequence of edge ids) and edge ids to edges (two endpoint
ids and a length). The Java objects mutated in place become pure values. Where
the source iterates a hash collection, the model walks the ids in ascending order
(`Seqs.Enumerate`). `removeBranchFromEndpoints` removes the edge once from each
endpoint's list (`List.remove`), and this is `Graphs.Detach`.

The graph invariant `Graphs.Consistent` is what the source's `Graph` class keeps.
Every endpoint is a vertex of the graph. Every branch is an edge of the graph.
Every edge is listed by both endpoints. No vertex lists an edge more often than it
is an endpoint of it. Every stage keeps this invariant, and each contract below is
stated under it.

## Model

| member | source | states |
|---|---|---|
| Loops.RemoveLoops | src/main/java/sc/fiji/analyzeSkeleton/ita/GraphPruningUtils.java:96-113 | afterwards no edge has equal endpoints; exactly the loop edges are gone; every vertex (with its points) and every other edge is unchanged |
| Loops.RemoveLoopsDetaches | src/main/java/sc/fiji/analyzeSkeleton/ita/GraphPruningUtils.java:96-101 | each removed loop disappears from its vertex's branch list, and no other branch entry changes |
| Loops.RemoveLoopsConsistent | src/main/java/sc/fiji/analyzeSkeleton/ita/GraphPruningUtils.java:96-101 | loop removal keeps the graph invariant |
| Graphs.RemoveEdgesCounts | src/main/java/sc/fiji/analyzeSkeleton/ita/GraphPruningUtils.java:308-311 | detaching a list of edges (each once from each endpoint) drops exactly those edges from every branch list and leaves every other count as it was |
| Seqs.Filter | src/main/java/sc/fiji/analyzeSkeleton/ita/GraphPruningUtils.java:350 | `removeAll`/`removeIf` keep exactly the elements that pass, with their multiplicities, and the list gets shorter whenever one fails |
| Seqs.RemoveFirst | src/main/java/sc/fiji/analyzeSkeleton/ita/GraphPruningUtils.java:309-310 | `List.remove(Object)` takes away one occurrence of the element and nothing else |
| PairKeys.PairKeySymmetric | src/main/java/sc/fiji/analyzeSkeleton/ita/GraphPruningUtils.java:150-157 | the pair key does not depend on the order of the two endpoints |
| PairKeys.PairKeyInjective | src/main/java/sc/fiji/analyzeSkeleton/ita/GraphPruningUtils.java:150-157 | for ids below n, two keys are equal exactly when the unordered pairs are equal |
| PairKeys.PairKeyRange | src/main/java/sc/fiji/analyzeSkeleton/ita/GraphPruningUtils.java:153-156 | the key lies in [0, n²) |
| PairKeys.MapVertexIds | src/main/java/sc/fiji/analyzeSkeleton/ita/GraphPruningUtils.java:285-290 | each listed vertex gets its position in the list, so the ids are distinct and range over 0..n-1 |
| PairKeys.HashSamePair | src/main/java/sc/fiji/analyzeSkeleton/ita/GraphPruningUtils.java:150-157 | under dense ids, two edges have the same `connectionHash` exactly when they join the same two vertices |
| Parallel.CollectParallel | src/main/java/sc/fiji/analyzeSkeleton/ita/GraphPruningUtils.java:77-84 | an edge is collected as parallel exactly when its key was already added to `connections` by an earlier edge |
| Parallel.KeySeenIffEarlierTwin | src/main/java/sc/fiji/analyzeSkeleton/ita/GraphPruningUtils.java:79-84 | an earlier edge has the same key exactly when an earlier edge joins the same pair |
| Parallel.DroppedIffEarlierTwin | src/main/java/sc/fiji/analyzeSkeleton/ita/GraphPruningUtils.java:79-86 | dropping the collected edges drops an edge exactly when an earlier edge in the walk joins the same pair |
| Parallel.EveryPairKept | src/main/java/sc/fiji/analyzeSkeleton/ita/GraphPruningUtils.java:75-87 | every pair of vertices joined before is still joined by a kept edge |
| Parallel.FirstOfEachPairOnly | src/main/java/sc/fiji/analyzeSkeleton/ita/GraphPruningUtils.java:75-87 | keeping only the first edge of each pair leaves at most one edge per unordered pair |
| Parallel.RemoveParallelEdges | src/main/java/sc/fiji/analyzeSkeleton/ita/GraphPruningUtils.java:75-87 | the vertices and their points stay; an edge goes exactly when an earlier edge in the walk joins the same pair; every pair stays joined; no parallel edges remain; the dropped edges are detached from their endpoints; the graph invariant holds |
| DeadEnds.PruneDeadEnds | src/main/java/sc/fiji/analyzeSkeleton/ita/GraphPruningUtils.java:292-301 | the surviving edges are exactly those that are not both a dead end and shorter than the tolerance; the surviving vertices are exactly those that are not a one-branch end of such an edge, with degrees read before any removal |
| DeadEnds.DeadEndCases | src/main/java/sc/fiji/analyzeSkeleton/ita/GraphPruningUtils.java:232-235 | an edge whose two ends both have one branch survives, and so does one exactly as long as the tolerance; a shorter edge with one single-branch end goes, and that end with it |
| DeadEnds.EndsNotTerminal | src/main/java/sc/fiji/analyzeSkeleton/ita/GraphPruningUtils.java:293-298 | no endpoint of a surviving edge is among the removed vertices |
| DeadEnds.PruneDeadEndsClears | src/main/java/sc/fiji/analyzeSkeleton/ita/GraphPruningUtils.java:298-300 | the removed dead ends are detached from the remaining vertices' branch lists, and nothing else changes in them |
| DeadEnds.PruneDeadEndsConsistent | src/main/java/sc/fiji/analyzeSkeleton/ita/GraphPruningUtils.java:292-301 | dead-end pruning keeps the graph invariant; each kept branch list loses exactly the removed edges |
| Filling.LifoStep | src/main/java/sc/fiji/analyzeSkeleton/ita/GraphPruningUtils.java:213-220 | one pop-and-push keeps the stack discipline: a vertex already in the cluster has each short neighbour in the cluster or above it on the stack |
| Filling.CoveredStep | src/main/java/sc/fiji/analyzeSkeleton/ita/GraphPruningUtils.java:213-220 | one step loses no vertex of cluster or stack and keeps every short neighbour of a member in the cluster or on the stack |
| Filling.StepDecreases | src/main/java/sc/fiji/analyzeSkeleton/ita/GraphPruningUtils.java:213-220 | each step grows the cluster or shrinks the stack, so `fillCluster` terminates |
| Filling.RepopPushesNothing | src/main/java/sc/fiji/analyzeSkeleton/ita/GraphPruningUtils.java:214-219 | popping a vertex already in the cluster pushes nothing and leaves the cluster as it was |
| Filling.Fill | src/main/java/sc/fiji/analyzeSkeleton/ita/GraphPruningUtils.java:207-222 | the cluster contains the start vertex, lies in the graph and is closed under short-edge adjacency |
| Filling.FillLeast | src/main/java/sc/fiji/analyzeSkeleton/ita/GraphPruningUtils.java:207-222 | the cluster is contained in every set that contains the start and is closed under short-edge adjacency, so it is the short component |
| Filling.NeighbourSymmetric | src/main/java/sc/fiji/analyzeSkeleton/ita/GraphPruningUtils.java:216-218 | in a consistent graph, short-edge adjacency is symmetric |
| Filling.FillSame | src/main/java/sc/fiji/analyzeSkeleton/ita/GraphPruningUtils.java:207-222 | growing from any member of a cluster gives the same cluster |
| Filling.FillDisjoint | src/main/java/sc/fiji/analyzeSkeleton/ita/GraphPruningUtils.java:207-222 | when one vertex is not in the cluster grown from another, the two clusters share no vertex |
| Clusters.ShortVerticesClosed | src/main/java/sc/fiji/analyzeSkeleton/ita/GraphPruningUtils.java:225-230 | the endpoints of the short edges form a set closed under short-edge adjacency |
| Clusters.PoolStep | src/main/java/sc/fiji/analyzeSkeleton/ita/GraphPruningUtils.java:346-351 | one round takes the cluster of the first pooled vertex, which lies inside the pool, and the pool loses exactly that cluster |
| Clusters.ClustersCover | src/main/java/sc/fiji/analyzeSkeleton/ita/GraphPruningUtils.java:341-353 | a vertex is in some cluster exactly when it was in the pool |
| Clusters.ClustersDisjoint | src/main/java/sc/fiji/analyzeSkeleton/ita/GraphPruningUtils.java:341-353 | no two clusters share a vertex |
| Clusters.ClustersGrown | src/main/java/sc/fiji/analyzeSkeleton/ita/GraphPruningUtils.java:341-353 | every cluster is the cluster grown from any of its members |
| Clusters.FillOfShortVertex | src/main/java/sc/fiji/analyzeSkeleton/ita/GraphPruningUtils.java:207-230 | without loops, the cluster of an endpoint of a short edge has at least two vertices |
| Clusters.FindClustersPartition | src/main/java/sc/fiji/analyzeSkeleton/ita/GraphPruningUtils.java:225-230 | the clusters partition the endpoints of the short edges; each is the short component of each of its members; without loops each has at least two vertices |
| Centres.DivideFacts | src/main/java/sc/fiji/analyzeSkeleton/ita/GraphPruningUtils.java:122-124 | dividing by the count is NaN exactly for no points, and otherwise the quotient times the count gives the sum back |
| Centres.CentroidFacts | src/main/java/sc/fiji/analyzeSkeleton/ita/GraphPruningUtils.java:115-126 | each component is NaN exactly when there are no points, and otherwise is the mean of that coordinate |
| Centres.Round | src/main/java/sc/fiji/analyzeSkeleton/ita/GraphPruningUtils.java:305 | `Math.round` gives the integer within one half of its argument, halves rounded up |
| Centres.RealToIntegerFacts | src/main/java/sc/fiji/analyzeSkeleton/ita/GraphPruningUtils.java:303-306 | NaN coordinates become `Integer.MAX_VALUE`, and every other coordinate becomes the nearest integer |
| Centres.ClusterPoints | src/main/java/sc/fiji/analyzeSkeleton/ita/GraphPruningUtils.java:378-379 | a point is collected exactly when it is a point of one of the members; the number of points collected is the members' point counts added up, and each coordinate sum is the members' sums added up, so every point of every member counts as often as it occurs |
| Centres.ClusterCentre | src/main/java/sc/fiji/analyzeSkeleton/ita/GraphPruningUtils.java:377-385 | the centre is a new vertex with no branches and exactly one point |
| Centres.ClusterCentreRounded | src/main/java/sc/fiji/analyzeSkeleton/ita/GraphPruningUtils.java:115-126 | each coordinate of the centre's point is the mean of the members' points on that axis, rounded to the nearest integer, or `Integer.MAX_VALUE` when the members have no point; stated both over the collected list and as the members' sums divided by their point count |
| Centres.CentreWithin | src/main/java/sc/fiji/analyzeSkeleton/ita/GraphPruningUtils.java:303-306 | the rounded mean of points within a range of `int` values is within that range, so the narrowing cast cannot wrap |
| Centres.SinglePointCentre | src/main/java/sc/fiji/analyzeSkeleton/ita/GraphPruningUtils.java:115-126 | the centre of one point is that point |
| Centres.EmptyCentre | src/main/java/sc/fiji/analyzeSkeleton/ita/GraphPruningUtils.java:303-306 | a cluster without any point is centred at (MAX, MAX, MAX) |
| OuterEdges.PooledCount | src/main/java/sc/fiji/analyzeSkeleton/ita/GraphPruningUtils.java:364-366 | in a consistent graph, an edge occurs in the pooled branch lists of the members once per endpoint slot inside the cluster |
| OuterEdges.OuterEdgesOneEnd | src/main/java/sc/fiji/analyzeSkeleton/ita/GraphPruningUtils.java:361-369 | in a consistent loop-free graph, an edge is counted exactly once exactly when it has exactly one endpoint in the cluster |
| OuterEdges.AddEdgeConsistent | src/main/java/sc/fiji/analyzeSkeleton/ita/GraphPruningUtils.java:326-333 | adding a replacement edge and listing it at both endpoints keeps the graph invariant and adds no loop |
| Replacement.ReplaceEdge | src/main/java/sc/fiji/analyzeSkeleton/ita/GraphPruningUtils.java:319-339 | there is a replacement exactly when an endpoint is in the cluster; its length is 0.0; the endpoint in the cluster is replaced by the centre in its own slot, and the other stays in its slot; when both are in the cluster, only the first becomes the centre |
| Replacement.Rewire | src/main/java/sc/fiji/analyzeSkeleton/ita/GraphPruningUtils.java:272-275 | rewiring an outer edge from its current replacement (or itself) succeeds exactly when that edge touches the cluster, and adds no vertex |
| Replacement.AppendFacts | src/main/java/sc/fiji/analyzeSkeleton/ita/GraphPruningUtils.java:327-333 | `setBranch` adds the edge to the end of that vertex's branch list and changes no other vertex |
| Quotient.RepCases | src/main/java/sc/fiji/analyzeSkeleton/ita/GraphPruningUtils.java:273-275 | after k clusters are collapsed, a vertex outside them stands for itself and a member stands for one of the first k centres |
| Quotient.RepAbsorbs | src/main/java/sc/fiji/analyzeSkeleton/ita/GraphPruningUtils.java:273-275 | replacing an already replaced endpoint gives what replacing the original would: centres are never replaced again |
| Rewiring.RewireSucceeds | src/main/java/sc/fiji/analyzeSkeleton/ita/GraphPruningUtils.java:319-339 | in the cleaning step `replaceEdge` never returns null: the current edge of every outer edge touches the cluster |
| Rewiring.OuterOrderIs | src/main/java/sc/fiji/analyzeSkeleton/ita/GraphPruningUtils.java:271 | the outer edges walked are distinct and are exactly the edges with one endpoint in the cluster |
| Rewiring.RewireStep | src/main/java/sc/fiji/analyzeSkeleton/ita/GraphPruningUtils.java:272-276 | one rewiring keeps the invariant of the cluster loop, with the edge removed from the edges still to do |
| Rewiring.StepStart | src/main/java/sc/fiji/analyzeSkeleton/ita/GraphPruningUtils.java:268-272 | the invariant between clusters gives the invariant at the start of the next cluster's loop |
| Rewiring.StepEnd | src/main/java/sc/fiji/analyzeSkeleton/ita/GraphPruningUtils.java:268-277 | a cluster whose outer edges are all rewired leaves the invariant with one more cluster collapsed |
| Collapsing.RewireEach | src/main/java/sc/fiji/analyzeSkeleton/ita/GraphPruningUtils.java:272-276 | rewiring the listed outer edges in order leaves none still to do |
| Collapsing.MapReplacementEdges | src/main/java/sc/fiji/analyzeSkeleton/ita/GraphPruningUtils.java:268-277 | after cluster k is rewired, the loop invariant holds with k + 1 clusters collapsed: the graph is consistent and loop-free, and each edge crossing those clusters maps to an edge joining the representatives of its ends |
| Collapsing.CollapseAll | src/main/java/sc/fiji/analyzeSkeleton/ita/GraphPruningUtils.java:134-135 | after all clusters are rewired, the replacements stand for every crossing edge with the centres in place of the members |
| Initial.CentreAt | src/main/java/sc/fiji/analyzeSkeleton/ita/GraphPruningUtils.java:130-132 | the centre of cluster i has the id base + i and the points of `getClusterCentre` of that cluster |
| Initial.MergeStarted | src/main/java/sc/fiji/analyzeSkeleton/ita/GraphPruningUtils.java:130-132 | adding the centres to the vertices keeps every old vertex and gives each centre its cluster's centre point and no branches |
| Initial.StartBetween | src/main/java/sc/fiji/analyzeSkeleton/ita/GraphPruningUtils.java:133-135 | before any cluster is rewired, the invariant of the cluster loop holds |
| Cleaning.RemoveDanglingBranches | src/main/java/sc/fiji/analyzeSkeleton/ita/GraphPruningUtils.java:313-317 | afterwards every branch is an edge of the graph; the count of every edge that is in the graph is unchanged; edges, vertex ids and points are unchanged |
| Cleaning.DanglingRemovedConsistent | src/main/java/sc/fiji/analyzeSkeleton/ita/GraphPruningUtils.java:313-317 | a graph whose edges end at its vertices and are listed without excess becomes consistent once its dangling branches are dropped |
| Cleaning.CleanVertexIdsExist | src/main/java/sc/fiji/analyzeSkeleton/ita/GraphPruningUtils.java:173-176 | every vertex `createCleanGraph` adds exists |
| Step.NotInClustersIff | src/main/java/sc/fiji/analyzeSkeleton/ita/GraphPruningUtils.java:237-242 | an edge inside no cluster that crosses no cluster is exactly an edge with both ends outside every cluster |
| Step.ReplacedIffCrosses | src/main/java/sc/fiji/analyzeSkeleton/ita/GraphPruningUtils.java:133-135 | an edge has a replacement exactly when it has one end in some cluster and the other outside it |
| Step.KeptIff | src/main/java/sc/fiji/analyzeSkeleton/ita/GraphPruningUtils.java:165-167 | an edge is kept unreplaced exactly when both of its ends lie outside every cluster |
| Step.LonelyOutside | src/main/java/sc/fiji/analyzeSkeleton/ita/GraphPruningUtils.java:249-252 | a vertex without branches lies in no cluster |
| Step.CleanVertices | src/main/java/sc/fiji/analyzeSkeleton/ita/GraphPruningUtils.java:173-176 | the rebuilt graph's vertices are exactly the centres and the old vertices outside every cluster |
| Step.CleanConsistent | src/main/java/sc/fiji/analyzeSkeleton/ita/GraphPruningUtils.java:159-179 | the rebuilt graph satisfies the graph invariant and has no loop |
| Step.CleanPoints | src/main/java/sc/fiji/analyzeSkeleton/ita/GraphPruningUtils.java:173-176 | every old vertex that stays keeps its points |
| Step.CleanCentrePoints | src/main/java/sc/fiji/analyzeSkeleton/ita/GraphPruningUtils.java:173 | every centre has the points `getClusterCentre` gives its cluster |
| Step.CleanKeptEdges | src/main/java/sc/fiji/analyzeSkeleton/ita/GraphPruningUtils.java:165-172 | an old edge is in the rebuilt graph exactly when both its ends are outside every cluster, and then it is unchanged |
| Step.ValueCentreEnd | src/main/java/sc/fiji/analyzeSkeleton/ita/GraphPruningUtils.java:325-334 | every replacement edge has a cluster centre at one end at least, because the end in the cluster is the one replaced by the centre |
| Step.NewEdge | src/main/java/sc/fiji/analyzeSkeleton/ita/GraphPruningUtils.java:136-137 | every new edge stands for an old edge that crosses a cluster, with its ends replaced by their centres, ends at vertices of the rebuilt graph, and has the measured length between them |
| Step.CrossingReplaced | src/main/java/sc/fiji/analyzeSkeleton/ita/GraphPruningUtils.java:133-136 | every crossing edge's replacement is in the rebuilt graph and joins the representatives of its ends |
| Step.JoinsCentres | src/main/java/sc/fiji/analyzeSkeleton/ita/GraphPruningUtils.java:268-277 | an edge from one cluster to another ends up joining the two centres |
| Step.ShortAtLeastTwice | src/main/java/sc/fiji/analyzeSkeleton/ita/GraphPruningUtils.java:225-230 | there are at least twice as many cluster vertices as clusters, so collapsing never adds vertices |
| Step.CleaningStep | src/main/java/sc/fiji/analyzeSkeleton/ita/GraphPruningUtils.java:128-140 | the result is consistent and loop-free; its vertices are the old ones off the short edges (with their points) plus one centre per cluster (at the rounded centroid); its old edges are exactly those with both ends outside the clusters; every crossing edge has a stand-in joining the centres in its ends' slots, and every new edge is such a stand-in, measured |
| Pruning.MeasureKeeps | src/main/java/sc/fiji/analyzeSkeleton/ita/GraphPruningUtils.java:44 | measuring lengths keeps the graph invariant and loop-freedom |
| Pruning.PruneDeadEndsKeeps | src/main/java/sc/fiji/analyzeSkeleton/ita/GraphPruningUtils.java:47 | dead-end pruning keeps the invariant and loop-freedom, and adds no vertex |
| Pruning.CleanOnce | src/main/java/sc/fiji/analyzeSkeleton/ita/GraphPruningUtils.java:48 | the cleaning step adds no vertex and replaces the clusters as `cleaningStep` does |
| Pruning.RemoveParallelOnce | src/main/java/sc/fiji/analyzeSkeleton/ita/GraphPruningUtils.java:49 | parallel-edge removal in ascending id order keeps every vertex and the first edge of each pair, and leaves no parallel edges |
| Pruning.Round | src/main/java/sc/fiji/analyzeSkeleton/ita/GraphPruningUtils.java:46-50 | one pass is dead-end pruning, then the cleaning step, then parallel-edge removal; it gives a consistent graph without loops or parallel edges and no more vertices |
| Pruning.PreparedKeeps | src/main/java/sc/fiji/analyzeSkeleton/ita/GraphPruningUtils.java:41-44 | the set-up (loop removal, then measuring) keeps the invariant and every vertex, and leaves no loop |
| Pruning.RunRounds | src/main/java/sc/fiji/analyzeSkeleton/ita/GraphPruningUtils.java:45-53 | the loop runs one round, or with `iterate` rounds until one keeps the vertex count; the trace of graphs starts at the loop's input and ends at its result, each step is a round, and each round but the last removed a vertex |
| Pruning.PruneShortEdges | src/main/java/sc/fiji/analyzeSkeleton/ita/GraphPruningUtils.java:38-54 | the returned trace starts at the prepared graph (loops removed, edges measured) and ends at the result, and each consecutive pair is one round with its cleaned graph; without `iterate` there is exactly one round; with it every round but the last removed a vertex, and the last kept the vertex count; the result is consistent, without loops or parallel edges |

## Left out

- Step.CleanFrame: Java objects become fresh ids, and the vertex and edge lists become id-keyed maps. So a `getVertices()` list holding the same vertex twice cannot be expressed. On such a list `mapVertexIds` (lines 288-289, `Collectors.toMap`) would throw `IllegalStateException`.
- Cleaning.CleanVertexIds: `Graph.addVertex` is assumed to skip a vertex already present. `Graph` is not part of this model.
- Replacement.Append: `Vertex.setBranch` is assumed to append to the branch list. `Vertex` is not part of this model.
- Seqs.Enumerate: every walk over a `HashSet`, `HashMap` or stream of the source is fixed to ascending ids. This covers the edges in `removeParallelEdges` and `pruneShortEdges`, the clusters and the `replacements` map in `cleaningStep`, and the clean graph's edge `HashSet`. So the model proves which parallel edge survives under that order only. The other properties do not depend on the order.
- Cleaning.Measure: `euclideanDistance` and `length` (lines 186-198, 244-247) are abstracted as a parameter `dist` from the two endpoint point lists to a real. Lengths are reals, never NaN. A NaN length is never short, as a large real is not.
- Centres.Centroid: the `double` sums and division of `centroid` are exact real arithmetic. There is no rounding error and no overflow.
- Centres.RealToIntegerCoordinate: coordinates are unbounded integers, so the `(int)` narrowing of `Math.round`'s `long` at line 305 is not modelled. `Centres.CentreWithin` shows it cannot wrap for points with `int` coordinates.
- PairKeys.ConnectionHash: Java computes the key in `long`, while the model uses unbounded integers. With n < 2^31 vertex ids the key is below n² < 2^62 (`PairKeys.PairKeyRange`), so the `long` never wraps.
- Replacement.ReplaceEdge: a `null` result becomes `None`. `Rewiring.RewireSucceeds` proves that `None` never reaches `mapReplacementEdges` in a cleaning step. A `null` endpoint (the `getV1() != null` test at line 112) cannot be expressed, because endpoints are ids.
- Pruning.PruneShortEdges: `graph.clone()` and the in-place updates become pure values, so nothing is claimed about aliasing or the input object.
- Pruning.PruneShortEdges: requires `Graphs.Consistent(graph)`, the invariant the source's `Graph` and `Vertex` classes are trusted to keep (endpoints are vertices, each edge is listed by both ends).
- Step.CleaningStep: requires a loop-free graph, which `removeLoops` at the start of `pruneShortEdges` provides.
