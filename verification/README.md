# ScaleGPM: a verified model of its exact parts

ScaleGPM mines patterns in large graphs: it counts motifs, cliques and cycles, exactly or by sampling. This project
models the exact, combinatorial code of the repository in Dafny and proves what that code is for. A graph is stored as
in the source, as row pointers and sorted neighbour lists (`CsrGraph.Csr`); what the algorithms mean is stated on the
sets of neighbours alone (`CsrGraph.Adjacency`).

What is proved, component by component:

- **Core numbers** (`KCore.dfy`, `Graph.dfy`, `Pattern.dfy`). Bucket-sorted peeling in place, over four mutually
  dependent arrays, ends with the core number of every vertex, where the core number is defined independently of any
  peeling: the largest k such that the vertex lies in some subgraph of minimum degree k. The same holds of the version
  over a pattern's adjacency lists, whose 2-core is counted.
- **Vertex-induced enumeration** (`Canonical.dfy`, `Embeddings.dfy`, `Exploration.dfy`, `Exactness.dfy`,
  `VertexMiner.dfy`, `Runs.dfy`). The local canonicality test accepts one ordering of each connected vertex set, so a
  whole run holds every connected k-vertex set exactly once, for every k.
- **Motif counts** (`Motifs.dfy`, `MotifCounts.dfy`). After a 4-motif run the counters, summed over any number of
  threads, are the numbers of 4-vertex sets inducing each of the six motifs; after a 3-motif run, the numbers of
  triangles and wedges.
- **Cliques** (`Cliques.dfy`, `CliqueMining.dfy`, `EdgeFilter.dfy`, `Graph.dfy`, `Scan.dfy`). The orientation keeps
  one direction of each edge, to the end with more neighbours, and is acyclic, and no vertex keeps more successors
  than the square root of the number of edges; on it the clique extension counts each k-clique once, for every k of at
  least three; on the unoriented graph the four-level loop nest counts each 4-clique 24 times, so its division is
  exact.
- **Colour sparsification** (`Coloring.dfy`, `Graph.dfy`). One colouring keeps exactly the monochromatic cliques; all
  c^n colourings together keep c^(n-k+1) copies of each k-clique; the in-place single pass and the count/scan/fill
  version build the same graph.
- **Sampling estimators** (`Draws.dfy`, `Asap.dfy`, `AsapGrowth.dfy`, `AsapChain.dfy`, `AsapClique.dfy`,
  `AsapCliqueMean.dfy`, `AsapShapes.dfy`, `Paths.dfy`, `CommonNeighbors.dfy`, `Houses.dfy`, `JoinedTriangles.dfy`). A
  sampler is a tree of uniform draws; its mean is the exact average over all draws. Each sampler, written as the
  source's loops, is shown to follow its tree: every draw it asks for is over as many outcomes as the tree has
  branches there, and the outcome decides the branch. The mean of the tree is 2^(k-1) per simple path on k vertices,
  144 per 4-clique, 16 per house (a 5-cycle with one of its chords) and 128 per pair of triangles joined by an edge.
- **Cycle counting** (`Cycles.dfy`, `OddCycles.dfy`). The depth-first search restores its path and its marks on every
  return, and finds each simple k-cycle 2k times, where cycles are sets of edges.
- **Set intersection** (`Intersect.dfy`). Blocked merges of any lane counts, their scalar tails, and scalar and
  vectorised galloping output exactly the sorted intersection, whichever of them the build and the sizes select.
- **Edge list and schedulers** (`EdgeList.dfy`, `TaskGraph.dfy`, `Queues.dfy`, `GreedyBalance.dfy`, `Scheduler.dfy`,
  `RoundRobin.dfy`, `VertexChunking.dfy`). Every scheduler is compared with one picture: an owner for each task, and
  each queue holding its owner's tasks in order. The greedy one keeps all queues within one chunk of each other after
  every step, where the work of a task is the smaller degree of its ends.
- **Partitioners** (`Induced.dfy`, `SubgraphBuilder.dfy`, `Clusters.dfy`, `Partition2D.dfy`, `FetchedGraph.dfy`,
  `FetchPartitions.dfy`, `GraphPartition.dfy`). Edge-cut partitions are induced subgraphs of equal chunks, on which
  counting from the local ranges adds up to the whole graph's count. The files of the 2D partitioner hold each block
  of edges at its place, and fetching some clusters back gives the subgraph induced on them.
- **Support of labelled patterns** (`DomainSupport.dfy`, `EdgeMiner.dfy`). Merging the threads' objects, which stay
  shared between the maps, gives the support of all embeddings together, however they were split.

Five places where the code does not do what its surroundings expect are kept as they are and characterised exactly:

- `round_robin` drops the last chunk exactly when the number of chunks is a multiple of the number of queues and the
  stride divides the number of tasks (`RoundRobin.AllGivenUnlessDropped`, with `RoundRobin.DropExample`).
- `reinit_edgelist` does not clear `sizes`, so the counts of a second edge list are added to those of the first. The
  queue lengths that `vertex_chunking` computes after it are those of the two lists together, which is right exactly
  when the graph has no edges (`VertexChunking.ChunkAfterRefill`); on a single edge, one task is reported as two
  (`VertexChunking.RefillExample`). After one fill the lengths are always right (`VertexChunking.ChunkTasks`).
- `enumerate_odd_cycles` has as many marks as there are vertices and indexes them by vertex id, so it runs past their
  end exactly when the ids have gaps (`OddCycles.CycleCounter.EnumerateOddCycles`); one edge between vertices 0 and 2
  is enough (`OddCycles.GapExample`).
- `init` of the embedding list appends to what level one already holds, so after a second call every edge is there
  twice (`Embeddings.InitTwice`).
- The clustering constructor of the partitioner has a parameter `g` that hides the member `g`, which stays unset
  although `partition2D` reads it; the other constructors leave the clusters empty. So no object that the program
  builds can write its blocks (`GraphPartition.NeverReady`). With the constructor's graph in place of the unset
  member, writing and fetching do what they should (`GraphPartition.WriteThenFetch`).

Threads are modelled as an arbitrary split of the work, random colourings as an explicit list of colours, random draws
as the outcomes of an `Engine`, and the files of the 2D partitioner as the lists written to them.

## Model

| member | source | states |
|---|---|---|
| `KCore.ComputeCores` | sansa/src/common/graph.cc:1084-1134 | on every simple undirected graph, the value left for each vertex is its core number: the largest k such that it lies in a subgraph of minimum degree k |
| `KCore.SortByDegree` | sansa/src/common/graph.cc:1091-1110 | the counting sort leaves `vertices` and `position` as inverse permutations, sorted by degree, with every bin start right |
| `KCore.PeelAll` | sansa/src/common/graph.cc:1111-1133 | peeling a sorted order ends with the core numbers |
| `KCore.TakeVertex` | sansa/src/common/graph.cc:1111-1133 | taking one vertex keeps the order, the bin starts, the remaining degrees, and both bounds on the core numbers |
| `KCore.VisitLarger` | sansa/src/common/graph.cc:1115-1131 | one demotion keeps the permutation, the order and the bins, lowers one remaining degree, and leaves the taken vertices alone |
| `KCore.FrontSettles` | sansa/src/common/graph.cc:1111-1115 | the value of the vertex at the front is an upper bound for every subgraph that contains it |
| `KCore.AllSettled` | sansa/src/common/graph.cc:1111-1133 | when all vertices are taken, lower and upper bounds meet: the values are the core numbers |
| `PatternGraph.Pattern.ComputeKCore` | sansa/src/common/pattern.cc:195-245 | the same over a pattern's adjacency lists, in any order and without repetition: the core table holds the core numbers |
| `PatternGraph.Pattern.BuildCoreTable` | sansa/src/common/pattern.cc:183-193 | the core length grows by the number of vertices that lie in a subgraph of minimum degree two |
| `PatternGraph.DenseIsTwoCore` | sansa/src/common/pattern.cc:186-190 | the vertices with a core value above one are exactly those of the 2-core |
| `GraphObject.Graph.ComputeKCore` | sansa/src/common/graph.cc:1084-1134 | the core table of the graph object holds the core numbers and the graph is unchanged |
| `Miner.BinarySearch` | sansa/src/common/graph.cc:749-760 | the search finds the key if and only if it is in the range of the edge array |
| `Miner.IsConnected` | sansa/src/common/graph.cc:733-743 | searching the shorter list decides adjacency |
| `Miner.IsConnectedDag` | sansa/include/pangolin_cpu/miner.h:129-134 | on an oriented graph the search decides adjacency in one direction |
| `Canonical.CanonicalIsGreedy` | sansa/include/pangolin_cpu/vertex_miner.h:255-269 | an ordering that passes the local test at every step starts at its least vertex and always appends the least remaining vertex adjacent to the prefix |
| `Canonical.GreedyIsCanonical` | sansa/include/pangolin_cpu/vertex_miner.h:255-269 | and such a greedy ordering passes the test at every step |
| `Canonical.CanonicalUnique` | sansa/include/subgraph.h:76-90 | a vertex set has at most one accepted ordering |
| `Canonical.CanonicalExists` | sansa/include/subgraph.h:76-90 | every connected vertex set has one |
| `Canonical.CanonicalConnected` | sansa/include/subgraph.h:76-90 | accepted orderings are of connected sets and have no repetition |
| `VertexMining.VertexMiner.IsVertexInducedAutomorphism` | sansa/include/pangolin_cpu/vertex_miner.h:255-269 | the four loops reject exactly the vertices that the step condition excludes |
| `Embeddings.EmbeddingList.Init` | sansa/include/pangolin_cpu/embedding.h:212-234 | level one gains each edge once, as an ordered pair, or each directed edge of an oriented graph, after what it held before |
| `Embeddings.InitTwice` | sansa/include/pangolin_cpu/embedding.h:212-234 | after two calls on one graph level one has no repetition if and only if there are no edges |
| `Embeddings.EmbeddingList.AddLevel` | sansa/include/pangolin_cpu/embedding.h:261-272 | a level is opened and nothing below it changes |
| `Embeddings.EmbeddingList.GetEmbedding` | sansa/include/pangolin_cpu/vertex_miner.h:238-253 | following the back-pointers gives the stored embedding |
| `Embeddings.LevelFrame` | sansa/include/pangolin_cpu/embedding.h:235-242 | the embeddings of a level depend only on the lists up to that level |
| `Exploration.FilledIsNext` | sansa/include/pangolin_cpu/vertex_miner.h:57-78 | back-pointers written at scanned offsets read back as all extensions, in order |
| `Exploration.NextLevelExact` | sansa/include/pangolin_cpu/vertex_miner.h:24-80 | the next level holds exactly the extensions of the level, each once |
| `VertexMining.VertexMiner.ExtendVertex` | sansa/include/pangolin_cpu/vertex_miner.h:24-80 | counting, scanning and writing turn the level into its extensions, and store the 3-vertex pattern ids when 4-motifs are mined |
| `Exactness.NextIsCanonical` | sansa/include/pangolin_cpu/vertex_miner.h:24-80 | if a level lists the accepted orderings of k vertices, each once, the next lists those of k + 1 |
| `Exactness.ExactlyOnce` | sansa/include/pangolin_cpu/vertex_miner.h:24-80 | a level that lists the accepted orderings holds every connected k-vertex set exactly once |
| `Exactness.EveryLevelExactlyOnce` | sansa/include/pangolin_cpu/vertex_miner.h:24-80 | after m extensions from the edges, every connected set of m + 2 vertices is there exactly once |
| `Runs.EnumerateConnected` | sansa/include/pangolin_cpu/vertex_miner.h:24-80 | a whole run, from initialisation through k - 2 extensions, holds every connected k-vertex set exactly once |
| `Motifs.FindMotifPatternId` | sansa/include/pangolin_cpu/vertex_miner.h:271-319 | the program computes the pattern id of the extended embedding from the edges it tests |
| `Motifs.Pid3Induces` | sansa/include/pangolin_cpu/vertex_miner.h:273-280 | of three vertices the id is 0 if and only if they are joined pairwise, and 1 if and only if exactly two pairs are |
| `Motifs.Pid4Induces` | sansa/include/pangolin_cpu/vertex_miner.h:281-319 | that id is the motif the four vertices induce, however the embedding was grown |
| `Motifs.InducesByDegrees` | sansa/include/pangolin_cpu/vertex_miner.h:281-319 | a 4-vertex set induces at most one of the six motifs, told apart by its degrees |
| `MotifCounts.MotifsAreConnected` | sansa/include/pangolin_cpu/vertex_miner.h:281-319 | every set inducing one of the six motifs is a connected set of four vertices, so enumerating connected sets misses none |
| `MotifCounts.HitsCountSets` | sansa/include/pangolin_cpu/vertex_miner.h:121-145 | over a level of accepted 3-vertex orderings, the extensions with id pid are as many as the sets inducing motif pid |
| `MotifCounts.HitsCountThrees` | sansa/include/pangolin_cpu/vertex_miner.h:121-145 | over the edges, the extensions with id 0 are as many as the triangles, and those with id 1 as the sets with exactly two joined pairs |
| `VertexMining.VertexMiner.Aggregate` | sansa/include/pangolin_cpu/vertex_miner.h:121-145 | each thread's own counters grow by the extensions of the embeddings it is given, for any assignment of embeddings to threads, and all together by the extensions of each id |
| `VertexMining.VertexMiner.AggregateThree` | sansa/include/pangolin_cpu/vertex_miner.h:121-145 | in the 3-motif run the counters, summed over threads, grow by the numbers of triangles and of wedges |
| `VertexMining.VertexMiner.AggregateFour` | sansa/include/pangolin_cpu/vertex_miner.h:121-145 | in the 4-motif run each counter, summed over threads, grows by the number of sets inducing that motif |
| `Runs.CountThreeMotifs` | sansa/include/pangolin_cpu/vertex_miner.h:121-145 | a whole 3-motif run ends with the numbers of triangles and wedges, on any number of threads |
| `Runs.CountFourMotifs` | sansa/include/pangolin_cpu/vertex_miner.h:24-145 | a whole 4-motif run ends with the exact motif counts, on any number of threads |
| `Cliques.OneDirection` | sansa/src/common/graph.cc:645-650 | the orientation keeps exactly one direction of every edge |
| `Cliques.KeptDirection` | sansa/src/common/graph.cc:645-650 | an edge is kept from its end with fewer neighbours, between equals from the smaller vertex |
| `Cliques.SuccessorsSquared` | sansa/src/common/graph.cc:633-679 | the square of the number of kept successors of a vertex is at most the number of directed edges |
| `Cliques.HalfIsKept` | sansa/src/common/graph.cc:645-650 | the orientation of an undirected graph has half of its directed edges |
| `Cliques.OrientedAcyclic` | sansa/src/common/graph.cc:645-650 | no walk along kept edges returns to its start |
| `Cliques.OrientedChains` | sansa/src/common/graph.cc:633-679 | each k-clique of the graph is exactly one chain of k vertices of its orientation |
| `Cliques.UndirectedChains` | sansa/src/approx/GS/exact-counting/4clique.h:4-18 | on the unoriented graph each k-clique is k! chains |
| `GraphObject.Graph.Orientation` | sansa/src/common/graph.cc:633-679 | the graph is replaced by its orientation, lists still sorted: every edge from its end with fewer neighbours, ties by id; the new maximum degree squared is at most the old number of directed edges, half of which remain when the graph was undirected |
| `VertexMining.VertexMiner.ExtendClique` | sansa/include/pangolin_cpu/vertex_miner.h:83-118 | before the last level the extensions by common successors are stored; at the last level they are only counted |
| `CliqueMining.NextChains` | sansa/include/pangolin_cpu/vertex_miner.h:83-118 | if a level lists the chains of k vertices, each once, the next lists those of k + 1 |
| `CliqueMining.ListedChains` | sansa/include/pangolin_cpu/vertex_miner.h:83-118 | a level that lists the chains is as long as their number |
| `Runs.CountCliques` | sansa/include/pangolin_cpu/vertex_miner.h:83-118 | a whole clique run on the oriented graph counts every k-clique of the original once, for every k of at least three |
| `CliqueMining.CountFour` | sansa/src/approx/GS/exact-counting/4clique.h:4-15 | the loop nest counts the chains of four vertices |
| `CliqueMining.FourCliques` | sansa/src/approx/GS/exact-counting/4clique.h:4-18 | with or without orientation the final counter is the number of 4-cliques: the division by 24 is exact |
| `Scan.PrefixSum` | sansa/include/scan.h:38-45 | every entry is the sum of what comes before |
| `Scan.ParallelPrefixSum` | sansa/include/scan.h:5-35 | the blocked scan gives the same sums for every block size |
| `EdgeFilter.FilterEdges` | sansa/src/common/graph.cc:642-678 | count, scan and fill give the graph with every list filtered, order kept |
| `EdgeFilter.FilteredUnique` | sansa/src/common/graph.cc:340-462 | filtering a graph by a condition on its edges has one result, however it is computed |
| `EdgeFilter.FilteredSimple` | sansa/src/common/graph.cc:642-678 | a filtered simple graph is simple, and has exactly the edges kept |
| `GraphObject.Graph.ColorSparsifyFast` | sansa/src/common/graph.cc:340-414 | for the given colours, exactly the edges between equal colours remain |
| `GraphObject.Graph.ColorSparsify` | sansa/src/common/graph.cc:416-460 | the single pass, shifting row pointers while it reads them, builds the same graph |
| `GraphObject.SparsifiersAgree` | sansa/src/common/graph.cc:340-460 | for one colouring both versions give equal row pointers and column indices |
| `Coloring.KeptCliques` | sansa/src/common/graph.cc:440-456 | the cliques left by a colouring are exactly the monochromatic ones |
| `Coloring.AllColouringsKeep` | performance_model/src/data.py:107-109 | summed over all c^n colourings, c^(n-k+1) copies of each k-clique are kept: the scaling by c for edges and c^2 for triangles |
| `Asap.NeighborTest` | arya_asap/graph_counting/src/ASAP_single_machine/graph.h:628-639 | the scan of a vertex's block decides adjacency |
| `Asap.CollectCandidates` | arya_asap/graph_counting/src/ASAP_single_machine/estimating.h:624-640 | the loops collect the candidate edges, and count them |
| `Asap.CandidatesExact` | arya_asap/graph_counting/src/ASAP_single_machine/estimating.h:624-640 | the candidates are exactly the edges from an open vertex to an unused one, each once |
| `AsapChain.ChainSampler` | arya_asap/graph_counting/src/ASAP_single_machine/estimating.h:604-658 | the sampler asks for draws over all the branches the tree has at each point, and returns what the tree has where they lead, zero at dead ends |
| `AsapGrowth.StepMean` | arya_asap/graph_counting/src/ASAP_single_machine/estimating.h:621-653 | from a path drawn so far, the mean of the rest is the weight times the number of ways to grow the path at its ends to one that passes the closing tests |
| `Paths.GrowWeighted` | arya_asap/graph_counting/src/ASAP_single_machine/estimating.h:788-850 | growing paths that carry weights hands each longer path the weights of the two paths it can be grown from, step by step |
| `Paths.GrowAll` | arya_asap/graph_counting/src/ASAP_single_machine/estimating.h:621-653 | growing all m-vertex paths s times counts every path of m + s vertices 2^s times, whatever is summed over them |
| `AsapChain.ChainMean` | arya_asap/graph_counting/src/ASAP_single_machine/estimating.h:604-658 | the exact mean over all draws is 2^(k-1) times the number of simple paths on k vertices, for every k of at least two |
| `AsapClique.CliqueSampler` | arya_asap/graph_counting/src/ASAP_single_machine/estimating.h:671-753 | the sampler asks for draws over all the branches its tree has at each point, and returns what the tree has where they lead, zero when a closing test fails |
| `AsapCliqueMean.ClosingSum` | arya_asap/graph_counting/src/ASAP_single_machine/estimating.h:691-741 | over all candidates, each common neighbour of the used vertices is drawn once from each of them |
| `CommonNeighbors.ChainsByFront` | arya_asap/graph_counting/src/ASAP_single_machine/estimating.h:691-741 | summing over ordered cliques of m + 1 vertices is summing over those of m and their common neighbours |
| `AsapCliqueMean.CliqueMean` | arya_asap/graph_counting/src/ASAP_single_machine_experiments/analyze2.py:40-44 | the exact mean over all draws is 144 times the number of 4-cliques |
| `AsapShapes.ShapeSampler` | arya_asap/graph_counting/src/ASAP_single_machine/estimating.h:766-971 | for both shapes, the sampler asks for draws over all the branches its tree has at each point, and returns what the tree has where they lead, zero when a test fails |
| `AsapShapes.FirstMean` | arya_asap/graph_counting/src/ASAP_single_machine/estimating.h:788-828 | from the first edge, the mean is the weight times the worth of the paths of three that start with it |
| `AsapShapes.ShapeMean` | arya_asap/graph_counting/src/ASAP_single_machine/estimating.h:766-971 | over all draws, every path of three is reached from its first edge in either direction |
| `Houses.ChordedTwice` | arya_asap/graph_counting/src/ASAP_single_machine/estimating.h:852-853 | each house, as a cycle and one of its chords, is two closed sequences with the chord from the first vertex to the third |
| `Houses.GrownHouses` | arya_asap/graph_counting/src/ASAP_single_machine/estimating.h:813-853 | growing the closed paths of three to closed paths of five meets each house eight times |
| `AsapShapes.HouseMean` | arya_asap/graph_counting/src/ASAP_single_machine/estimating.h:766-856 | the exact mean over all draws is 16 times the number of houses |
| `JoinedTriangles.EightPaths` | arya_asap/graph_counting/src/ASAP_single_machine/estimating.h:966-969 | each pair of joined triangles is eight paths of six vertices |
| `JoinedTriangles.GrownPairs` | arya_asap/graph_counting/src/ASAP_single_machine/estimating.h:916-969 | growing all paths of three to six vertices meets each pair 64 times |
| `AsapShapes.TwoTrianglesMean` | arya_asap/graph_counting/src/ASAP_single_machine/estimating.h:870-971 | the exact mean over all draws is 128 times the number of pairs of joined triangles |
| `Cycles.SequencesPerCycle` | arya_asap/graph_counting/src/ASAP_single_machine/graph.h:456-458 | each simple cycle on k vertices, as a set of edges, is 2k closed vertex sequences |
| `Cycles.CanonicalsAreCycles` | arya_asap/graph_counting/src/ASAP_single_machine/graph.h:456-458 | a cycle's set of edges determines its sequence that starts at the least vertex and goes to its lesser neighbour |
| `OddCycles.CycleCounter.DfsCycle` | arya_asap/graph_counting/src/ASAP_single_machine/graph.h:377-427 | the search adds the number of cycle sequences that begin with the path, and leaves path and marks as they were, unless it would index a mark past the end, which happens only if the ids have gaps |
| `OddCycles.CycleCounter.EnumerateOddCycles` | arya_asap/graph_counting/src/ASAP_single_machine/graph.h:432-459 | the search stays within its marks if and only if the vertex ids have no gaps; then the result is the number of closed sequences, 2k for each simple k-cycle when k is at least three |
| `OddCycles.GapExample` | arya_asap/graph_counting/src/ASAP_single_machine/graph.h:436-446 | two vertices numbered 0 and 2 with one edge are a valid edge list with a gap |
| `Intersect.MergeSets` | sansa/include/VertexSet.h:53-64 | the merge of two sorted sets is their sorted intersection |
| `Intersect.CountCommon` | sansa/include/VertexSet.h:65-76 | the counting merge returns its size |
| `Intersect.BlockAdvance` | sansa/src/common/intersect.cc:161-284 | comparing a block with a block and advancing the one that ends first misses no common element and repeats none |
| `Intersect.ComputeMergeBased` | sansa/src/common/intersect.cc:161-284 | for any lane counts, one-by-block, block-by-block and the scalar tail write the sorted intersection |
| `Intersect.ComputeMergeBasedAVX2` | sansa/src/common/intersect.cc:161-284 | with 1x8 and 2x4 lanes the output is the sorted intersection |
| `Intersect.ComputeMergeBasedAVX512` | sansa/src/common/intersect.cc:547-668 | with 1x16 and 4x4 lanes the output is the sorted intersection |
| `Intersect.CountMergeBased` | sansa/src/common/intersect.cc:286-394 | the counting versions return the size of the intersection |
| `Intersect.BinarySearch` | sansa/src/common/intersect.cc:957-980 | the first index in the range with a value not below the target, or its end |
| `Intersect.GallopingSearch` | sansa/src/common/intersect.cc:927-955 | doubling then halving finds that index, never reading outside the range |
| `Intersect.ComputeGalloping` | sansa/src/common/intersect.cc:855-892 | the galloping intersection is the sorted intersection |
| `Intersect.BinarySearchAVX2` | sansa/src/common/intersect.cc:396-430 | the same index, with the last part compared eight lanes at a time |
| `Intersect.GallopingSearchAVX2` | sansa/src/common/intersect.cc:432-467 | the vectorised galloping search finds that index |
| `Intersect.StdMerge` | sansa/src/common/intersect.cc:777-815 | the sequential merge writes the sorted intersection |
| `Intersect.SetIntersection.ComputeCandidates` | sansa/src/common/intersect.cc:6-47 | whichever kernel the build and the size ratio select, the output is the sorted intersection, and the use of each kind is counted |
| `Intersect.IntersectionUnique` | sansa/src/common/intersect.cc:6-47 | there is only one sorted intersection, so all the kernels that may be chosen write the same list |
| `EdgeList.EdgeListIsExact` | sansa/src/common/graph.cc:702-731 | the edge list has every kept edge once, in row order, and nothing else |
| `EdgeList.HalfOfTheEdges` | sansa/src/common/graph.cc:705-706 | either direction of symmetry breaking keeps exactly half of the directed edges |
| `TaskGraph.TaskGraph.InitEdgelist` | sansa/src/common/graph.cc:702-731 | the lists hold exactly the edges, or those to the larger or the smaller end as asked, and are never filled past their end; `sizes` grows by the tasks of each vertex; an edge list already there is left alone |
| `TaskGraph.TaskGraph.ReinitEdgelist` | sansa/src/common/graph.cc:697-700 | the list is rebuilt, and its counts are added to the old ones |
| `Scheduling.SmallestScoreId` | sansa/src/common/scheduler.cc:22-32 | the first index of least score |
| `Scheduling.SmallerDegreesCover` | sansa/src/common/scheduler.cc:14-20 | the estimated work of a task is at least the number of common neighbours of its ends |
| `Scheduling.DealtIsExact` | sansa/src/common/scheduler.cc:202-212 | queues that follow an owner assignment hold every task once, in order, and their lengths add up to the number of tasks |
| `Scheduling.Scheduler.LeastFirst` | sansa/src/common/scheduler.cc:133-214 | every task is dealt to the queue of its chunk, and the chunks are assigned greedily by work: n in turn, then always to the first queue of least score; a task's work is the smaller number of neighbours of its ends, enough for their common neighbours, and the queues end within the largest chunk of each other |
| `GreedyBalance.GreedyUnique` | sansa/src/common/scheduler.cc:171-187 | the work of the chunks determines the assignment |
| `GreedyBalance.AlwaysBalanced` | sansa/src/common/scheduler.cc:171-187 | after every step no two scores differ by more than the largest chunk |
| `GreedyBalance.QueuesBalanced` | sansa/src/common/scheduler.cc:133-214 | the work in any two queues differs by at most the largest chunk W, and n times the fullest is at most the total plus (n - 1) W, the last chunk included |
| `RoundRobin.LengthIsHeld` | sansa/src/common/scheduler.cc:41-54 | those lengths are the numbers of tasks the queues receive |
| `RoundRobin.RoundRobin` | sansa/src/common/scheduler.cc:34-85 | every buffer is filled to its end with the chunks dealt to it in turn |
| `RoundRobin.TurnOfTask` | sansa/src/common/scheduler.cc:62-71 | a task's queue is its chunk number modulo the number of queues |
| `RoundRobin.AllGivenUnlessDropped` | sansa/src/common/scheduler.cc:53-68 | all tasks are dealt if and only if the chunks do not divide evenly among the queues or the last chunk is partial; otherwise exactly one chunk is missing |
| `RoundRobin.DropExample` | sansa/src/common/scheduler.cc:53-68 | two queues, stride two, 8196 tasks (the source asks for more than 8192): the last two tasks are in no queue |
| `VertexChunking.CountsByVertex` | sansa/src/common/scheduler.cc:109-114 | adding up task counts vertex by vertex gives the length of each queue |
| `VertexChunking.VertexChunking` | sansa/src/common/scheduler.cc:100-130 | a stable partition of the edge list, task e to queue (src_list[e] / stride) % n, with the right lengths if and only if `sizes` counts the tasks of each vertex |
| `VertexChunking.LengthsExactWhenSizesMatch` | sansa/src/common/scheduler.cc:106-114 | the lengths are right if and only if the sizes are the vertices' task counts |
| `VertexChunking.ChunkTasks` | sansa/src/common/scheduler.cc:100-130 | filling the edge list of a graph and chunking it deals every task to the queue of its source's chunk, with right lengths |
| `VertexChunking.LengthsOfBoth` | sansa/src/common/graph.cc:697-731 | when the sizes count an earlier list too, each length is that of the two lists together |
| `VertexChunking.LeftoverMismatch` | sansa/src/common/graph.cc:697-731 | such sizes are the task counts of the present list if and only if the earlier list was empty |
| `VertexChunking.ChunkAfterRefill` | sansa/src/common/graph.cc:697-731 | a whole run, filled twice and then chunked: the lengths are those of the two lists together, and right if and only if the graph has no edges |
| `VertexChunking.RefillExample` | sansa/src/common/graph.cc:697-731 | two vertices, one edge, symmetry broken: there is one task, and the length reported is two |
| `Induced.InducedUnique` | sansa/src/common/graph_partition.cc:24-79 | the renumbered induced subgraph is determined, list by list |
| `Induced.PartCounts` | sansa/src/common/graph_partition.cc:23-79 | chains rooted in a partition's local range are as many as those rooted in its chunk |
| `SubgraphBuilder.GenerateInducedSubgraph` | sansa/src/common/graph_partition.cc:24-79 | the masked vertices, renumbered in order, with every list sorted: the induced subgraph, and the local positions of the chunk's first and last vertex |
| `GraphPartition.PartitionedGraph.EdgecutInducedPartition1D` | sansa/src/common/graph_partition.cc:82-132 | the chunks follow one another, all of the average size rounded up until the vertices end; partition i is induced on chunk i and its neighbours, and the chunk is the contiguous local range |
| `GraphPartition.PartitionsCountOnce` | sansa/src/common/graph_partition.cc:81-132 | counting chains of k vertices (triangles for k = 3) from all local ranges counts each of the whole graph once |
| `Clusters.FillClusters` | sansa/src/common/graph_partition.cc:200-217 | each cluster lists its vertices in order, and each vertex knows its rank |
| `Partition2D.MakeBlocks` | sansa/src/common/graph_partition.cc:230-278 | partition i * nc + j lists, vertex by vertex of cluster i, the neighbours in cluster j in ascending order; its single write cursor agrees with its row pointers |
| `GraphPartition.PartitionedGraph.WithClusters` | sansa/src/common/graph_partition.cc:200-217 | the clusters are filled, and the member graph is left unset |
| `GraphPartition.NeverReady` | sansa/src/common/graph_partition.cc:200-249 | an object as any constructor leaves it never has both the graph and the clusters that writing the blocks needs |
| `GraphPartition.WriteBlocks` | sansa/src/common/graph_partition.cc:230-312 | for any graph and its clusters, part i * nc + j of the files, between its written offsets, is the block from cluster i to cluster j: row pointers, and edges source by source; the parts fill the files end to end |
| `GraphPartition.PartitionedGraph.Partition2D` | sansa/src/common/graph_partition.cc:230-312 | the same for the member graph, when it is set |
| `FetchedGraph.SubRowIs` | sansa/src/common/graph_partition.cc:396-418 | the blocks of one vertex, renumbered and joined, are in ascending order and name exactly the neighbours in the chosen clusters |
| `FetchPartitions.ReadBlocks` | sansa/src/common/graph_partition.cc:345-376 | the blocks read are those written, the degrees are their row lengths, and the edge count is their sum |
| `GraphPartition.PartitionedGraph.FetchPartitions` | sansa/src/common/graph_partition.cc:315-421 | fetching distinct clusters from what was written gives the subgraph induced on them, numbered cluster by cluster |
| `GraphPartition.WriteThenFetch` | sansa/src/common/graph_partition.cc:200-421 | clustering a graph, writing its blocks and fetching some clusters gives the subgraph induced on them |
| `Support.DomainSupport.AddVertex` | sansa/include/pangolin_cpu/domain_support.h:43-47 | a domain keeps standing for the vertices seen: flagged once there are enough, exact before |
| `Support.DomainSupport.AddVertices` | sansa/include/pangolin_cpu/domain_support.h:48-57 | the same for a set of vertices; a domain that was flagged starts again from what its set holds |
| `Support.DomainSupport.GetSupport` | sansa/include/pangolin_cpu/domain_support.h:59-61 | true if and only if every position has seen at least the threshold of distinct vertices; a threshold of zero also takes a vertex at each position |
| `EdgeMining.EdgeMiner.QuickAggregate` | sansa/include/pangolin_cpu/edge_miner.h:125-150 | each thread's map has one object for each pattern of its share, standing for what the share shows of it, and no object is shared |
| `EdgeMining.EdgeMiner.MergeQpMap` | sansa/include/pangolin_cpu/edge_miner.h:216-236 | the merged map, which takes over the first thread's object of each pattern, stands for all embeddings together |
| `EdgeMining.EdgeMiner.SupportOf` | sansa/include/pangolin_cpu/edge_miner.h:216-236 | the merged support of a pattern holds if and only if every position has enough distinct vertices over all threads |
| `EdgeMining.MinedSupport` | sansa/include/pangolin_cpu/edge_miner.h:125-236 | a whole run, aggregated by threads and merged, finds a pattern frequent if and only if it occurs and every position has enough distinct vertices |
| `EdgeMining.SplitDoesNotMatter` | sansa/include/pangolin_cpu/edge_miner.h:125-236 | two runs on the same embeddings, split differently over threads, agree on every pattern |

## Left out

- Integer widths: all counters, offsets and vertex ids are unbounded, so no overflow, no wrap-around of the doubling
  jump in galloping search, no signed vector comparison, no 2^32 level size; the estimators' weights are reals.
- `Intersect.ComputeMergeBased`: SIMD registers and lanes are modelled as membership of an element in a block.
- `Intersect.GallopingSearchAVX2`: a vector comparison is modelled as the number of lanes below the target, and lanes
  past the end that the mask discards are not read.
- `Intersect.SetIntersection.ComputeCandidates`: the hybrid AVX512 build is excluded, as its galloping search is not
  in this repository; the same choice for counting only is not modelled.
- `PatternGraph.Pattern.BuildCoreTable`: the pattern's lists are given; reading them from a file and printing are not
  modelled.
- `Canonical.CanonicalUnique`: the depth-first form of the test in `sansa/include/subgraph.h` is the same condition;
  the class around it, a vector with a bitset, is not modelled.
- `Draws.Engine.Next`: the generator is any source of outcomes in range; that its draws are uniform and independent is
  what the tree of draws expresses.
- `AsapClique.CliqueSampler`: the sampling tree for arbitrary patterns, which depends on floating-point ratios, is not
  modelled.
- `Asap.NeighborTest`: reading the edge list and building the vertex table are input; the table and list are given,
  each vertex's block holding its edges.
- `Motifs.FindMotifPatternId`: motifs of five and more vertices use floating-point polynomials and hashing; the
  `USE_WEDGE` build keeps a flag where the modelled build tests an edge.
- `GraphObject.Graph.ComputeKCore`: the maximum degree is read from the graph's metadata, so it is required to bound
  the degrees.
- `GraphObject.Graph.Orientation`: requires a vertex, as the maximum over the new degrees does; freeing the old arrays
  is not modelled.
- `GraphObject.Graph.ColorSparsify`: the colours are a parameter; the maximum degree it reports is not stored by the
  source either.
- `RoundRobin.RoundRobin`: queue buffers are lists updated in place of the parallel copies into allocated memory; the
  minimum edge-list size the source asserts is not needed and not required.
- `Scheduling.Scheduler.LeastFirst`: the chunk counters that are only printed are not modelled; the estimate of work
  is the one in use, the smaller of the two degrees.
- `Partition2D.MakeBlocks`: row pointers and column indices of all partitions are lists of lists updated position by
  position; files are the lists written to them.
- `EdgeMining.EdgeMiner.QuickAggregate`: embeddings and their quick patterns are given; edge-induced extension,
  canonical labelling and the pattern ids written back to the embedding list are not modelled.
- `Runs.CountFourMotifs`: the driver programs that call these functions are not in this repository; the runs call them
  in the order their preconditions ask for.
- Segmenting into cache-sized pieces (`csr_segmenting`), code generation, the GPU code, performance models and
  experiment scripts.
- File reading, memory mapping, printing, timers and memory management.
