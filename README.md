# Karger's minimum cut, modelled in Dafny

The program reads an undirected multigraph from a text file. Each line holds
one edge written as two vertex ids. The vertex count is the number of
distinct ids. The program then estimates the minimum cut with Karger's
randomised contraction.

One trial (`karger_step`) works in three steps:

- It visits the edges in a random order.
- It unites the endpoints of each edge that joins two different classes of a
  union-find, and stops once `n - 2` unions are done.
- It returns the number of edges whose endpoints end in different classes.

Two estimators repeat the trial:

- `karger_run_n` keeps the smallest result over a fixed number of trials.
- `karger_run_until` counts the trials until one returns a given optimum, but
  runs no more than 1000.

The model has six modules:

- `Partition` represents a partition of `0..n` as one label per vertex, and
  defines merging two classes.
- `UnionFind` is the class `QuickUnionUf`. It has a parent array and a rank
  array, with union by rank. A ghost field `rep` holds the partition the
  forest stands for.
- `Edges` holds the `Edge` datatype and `NumberOfVertices`, the loop of
  `number_of_vertices`.
- `EdgeParser` covers:
  - `split_whitespace`;
  - `usize::from_str`;
  - `string_to_edge`, with each panic turned into a `ParseError`;
  - `str::lines`;
  - the `lines().map(string_to_edge).collect()` of `parse_graph_file`.
- `Contraction` is a pure model of one trial. It is written as functions of
  the edge order: `Contract` gives the partition and the merge counter, and
  `CutSize` gives the number of crossing edges. Lemmas about these functions
  state what a trial returns.
- `Karger` holds the imperative `KargerStep`, `KargerRunN` and
  `KargerRunUntil`. Each is proved equal to the pure model for the
  permutations it is given.

The random permutation that `karger_step` draws is an argument (`perm`). Its
only obligation is to be a permutation of `0..|edges|`. The estimators take
one permutation per trial (`perms`).

Three corners of the code worth knowing:

- **Fewer than two vertices.** `number_of_vertices - 2` is computed on
  `usize` (`src/main.rs:66`), so it underflows for `n < 2` as soon as one edge
  is visited. The model therefore asks for `n >= 2`, or for a graph with no
  edges, where the loop body never runs.
- **A hit on the last trial.** `karger_run_until` returns the cap, 1000,
  whether the 1000th trial hit the optimum or no trial did (`AttemptsMeaning`).
- **No path compression.** `Find` walks parents without compressing paths.
  This changes no result (see "Left out").

## Model

| member | source | states |
|---|---|---|
| Edges.VertexSet | src/main.rs:47-51 | both endpoints of every edge are in the set |
| Edges.NumberOfVertices | src/main.rs:46-53 | the count equals the size of the set of all endpoints, and is at most twice the number of edges |
| Edges.VertexSetMembers | src/main.rs:47-51 | a vertex is counted exactly when it is `v1` or `v2` of some edge |
| Edges.VertexSetBound | src/main.rs:47-52 | each edge adds at most two vertices |
| Edges.PathOfTwoEdges | src/main.rs:46-53 | the edges (0,1), (1,2) give three vertices |
| EdgeParser.SplitWhitespace | src/main.rs:14 | every word is non-empty and contains no Unicode white space |
| EdgeParser.SplitWord | src/main.rs:14 | a word followed by white space or by nothing is split off whole |
| EdgeParser.ParseUsize | src/main.rs:18-19 | an accepted number fits in a 64-bit `usize` |
| EdgeParser.UsizeRoundTrip | src/main.rs:18 | the decimal form of any `usize` parses back to it |
| EdgeParser.StringToEdge | src/main.rs:13-29 | succeeds exactly when there are two words and both parse, and then returns them in order as (v1, v2). Otherwise the first failing check, in the order the code panics, decides the error: no word, a bad first number, no second word, a bad second number, a third word |
| EdgeParser.EdgeRoundTrip | src/main.rs:13-29 | parsing the line "v1 v2" gives back the edge |
| EdgeParser.NumbersLine | src/main.rs:13-28 | a line of two one-digit numbers gives the edge between them |
| EdgeParser.ThreeWordsRejected | src/main.rs:25-27 | a third word after two numbers is rejected as too many parts, and the line is not cut short |
| EdgeParser.SplitThree | src/main.rs:14 | three words joined by spaces split into those three words |
| EdgeParser.Lines | src/main.rs:34 | no line contains a line feed |
| EdgeParser.LinesCrLf | src/main.rs:34 | a line ended by a carriage return and a line feed is read without that carriage return, and the rest follows |
| EdgeParser.LinesCons | src/main.rs:34 | a line ended by a line feed is read as one line and the rest follows |
| EdgeParser.ParseLines | src/main.rs:35-36 | succeeds exactly when every line parses; the edge list then has one edge per line, in line order |
| EdgeParser.ParseGraphText | src/main.rs:31-37 | the text of a graph file parses exactly when each of its lines does, and then gives one edge per line |
| EdgeParser.TwoLines | src/main.rs:34 | two lines joined by a line feed are read as those two lines |
| EdgeParser.ParseTwoLines | src/main.rs:35-36 | two lines that parse give their two edges, in order |
| EdgeParser.GraphRoundTrip | src/main.rs:34-36 | writing an edge list one edge per line and parsing it back gives the same list |
| EdgeParser.TwoLineGraph | src/main.rs:31-37 | the lines "0 1" and "1 2" give two edges with three vertices |
| Partition.Merge | src/main.rs:73 | uniting `a` and `b` keeps one label per vertex and puts both in the class of `a` |
| Partition.MergeJoinsExactly | src/main.rs:72-74 | merging joins exactly the classes of the two endpoints, removes one class when they differ, and introduces no new label |
| Partition.RangeClasses | src/main.rs:61 | the initial partition has exactly `n` classes, labelled `0..n` |
| Partition.MergePreservesSamePartition | src/main.rs:72-73 | uniting the same two vertices in two descriptions of one partition keeps them descriptions of one partition |
| UnionFind.LinkRoots | src/main.rs:73 | hanging one root under another, with the rank raised as union by rank does, keeps the forest invariant and merges the two classes |
| UnionFind.QuickUnionUf.constructor | src/main.rs:61 | `n` singleton classes |
| UnionFind.QuickUnionUf.Find | src/main.rs:72 | returns a root, the same one for every member of the class |
| UnionFind.QuickUnionUf.Union | src/main.rs:73 | merges exactly the two classes involved. It reports whether they were different, and the class count then drops by one |
| Contraction.PermutationFacts | src/main.rs:40-42 | a permutation of the edge indices has one entry per edge, and every entry is a valid index |
| Contraction.Contract | src/main.rs:62-76 | the first loop leaves a partition of `0..n`: `n` labels, each below `n` |
| Contraction.ContractCountsClasses | src/main.rs:62-75 | the merge counter never exceeds `n - 2`, and `n - counter` classes remain |
| Contraction.ContractStopsWhenSaturated | src/main.rs:66-68 | breaking out after `n - 2` unions gives the same final partition as visiting the remaining edges |
| Contraction.ContractUnsaturated | src/main.rs:64-76 | if the loop ends before `n - 2` unions, every edge has both endpoints in one class |
| Contraction.CutSize | src/main.rs:79-88 | the number of crossing edges is at most the number of edges |
| Contraction.CountAlong | src/main.rs:80-86 | a walk over the edge indices counts at most one crossing edge per index |
| Contraction.CountAlongReordered | src/main.rs:81-86 | counting crossing edges does not depend on the visiting order |
| Contraction.CountAlongPermutation | src/main.rs:81-86 | walking the permutation counts every crossing edge exactly once |
| Contraction.CutSizeIgnoresLoops | src/main.rs:83-85 | self-loops never count; on the initial partition every other edge counts |
| Contraction.TrialResult | src/main.rs:56-89 | a trial returns no more than the number of edges |
| Contraction.TrialOutcome | src/main.rs:56-89 | a trial returns the crossing edges of its final partition. That partition has `n - counter >= 2` classes: exactly two, or the result is 0. The result is at most the number of edges that are not self-loops |
| Contraction.SideOf | src/main.rs:79-88 | vertices in one class of the final partition end on the same side |
| Contraction.SideOfTwoClasses | src/main.rs:62-68 | with at least two classes both sides are non-empty, so the split is a bipartition |
| Contraction.CutSizeCoarser | src/main.rs:81-86 | uniting classes never adds crossing edges |
| Contraction.TrialAboveBipartition | src/main.rs:56-89 | every trial returns at least the cut of some bipartition of `0..n` |
| Contraction.TrialNotBelowMinCut | src/main.rs:56-89 | a bound on the cut of every bipartition bounds every trial, so no trial is below the minimum cut |
| Contraction.TwoVertexContraction | src/main.rs:66-67 | with two vertices no union ever happens |
| Contraction.TwoVertexTrial | src/main.rs:66-86 | with two vertices a trial returns the number of edges that are not self-loops |
| Contraction.SingleEdgeTrial | src/main.rs:56-89 | the single edge (0,1) always gives 1 |
| Contraction.TriangleTrial | src/main.rs:56-89 | every trial on the triangle returns 2 |
| Contraction.TriangleCut | src/main.rs:79-88 | contracting any one triangle edge leaves the other two edges cut |
| Karger.KargerStep | src/main.rs:56-89 | returns the pure model's trial result for the given permutation, which is at most the number of edges that are not self-loops |
| Karger.ContractStep | src/main.rs:66-75 | one pass of the first loop: the `find` test is the model's crossing test, and the model takes the union exactly when the code does |
| Karger.VisitEdge | src/main.rs:71-75 | one pass that does not break: the union-find keeps the model's partition after the edge is visited, and the counter keeps the model's merge count |
| Karger.ContractEdges | src/main.rs:64-76 | after the first loop the union-find holds the model's final partition |
| Karger.CountCut | src/main.rs:80-86 | the second loop counts the edges of the walk that cross the partition |
| Karger.Trials | src/main.rs:94-95 | one trial result per repetition, each at most the number of edges |
| Karger.RunningMin | src/main.rs:93-101 | the minimum kept never exceeds its start value `usize::MAX` |
| Karger.RunningMinIsMinimum | src/main.rs:93-99 | the running minimum is at most `usize::MAX` and every result, and is `usize::MAX` or one of the results |
| Karger.RunningMinAttained | src/main.rs:93-99 | with at least one result, none above `usize::MAX`, some result attains the minimum |
| Karger.RunningMinMonotone | src/main.rs:94-99 | more trials never raise the minimum |
| Karger.RunNOutcome | src/main.rs:92-101 | the minimum is at most every trial result, is `usize::MAX` with no trials, and is some trial's result otherwise |
| Karger.KargerRunN | src/main.rs:92-102 | returns the running minimum of the trial results: at most each of them, `usize::MAX` for zero repeats, and one of them otherwise |
| Karger.RunNNotBelowMinCut | src/main.rs:92-101 | the minimum of at least one trial is never below the minimum cut; it is only an upper bound on it |
| Karger.Attempts | src/main.rs:107-116 | the count is at most the number of trials, and at least one when there is a trial |
| Karger.AttemptsMeaning | src/main.rs:105-117 | the count is the position of the first trial that hits `opt`, or the number of trials when none does; no earlier trial hits |
| Karger.AttemptsUnique | src/main.rs:105-117 | a count with that description is the count |
| Karger.KargerRunUntil | src/main.rs:105-117 | returns a count in [1, 1000]; below 1000 the last trial hit `opt`; no earlier trial did |
| Karger.UnreachableOptimum | src/main.rs:106-116 | an optimum larger than any trial can return uses all 1000 repetitions |
| Karger.TriangleEstimates | src/main.rs:92-117 | on the triangle any non-empty run finds 2, and the search for 2 stops after one trial |

## Left out

- Reading the file (`read_to_string`, src/main.rs:32-33) and the `Path::exists` check (src/main.rs:172) are I/O. `ParseGraphText` takes the file's text as a string.
- `random_permutation` (src/main.rs:39-44) uses the `rand` shuffle. The permutation is a parameter, required only to be a permutation of the edge indices. Uniformity is not modelled.
- The probabilistic success of Karger's algorithm is not modelled, because the code promises nothing about it.
- `analyze_graph` (src/main.rs:119-150) and `main` (src/main.rs:152-177) are not modelled: the constants 200 and 500, the clock, the `f64` mean and the printing. They only orchestrate and report.
- UnionFind.QuickUnionUf.Find: the `union_find` crate's own code is not part of this model. `Find` follows parents without path compression, and `Union` breaks rank ties towards the root of the first argument. This changes neither the partition nor any result.
- Karger.KargerStep: requires every vertex id to be below `n`. The crate indexes its arrays by the id and panics otherwise.
- Karger.KargerStep: requires `n >= 2` unless the graph has no edges. For `n < 2` the `usize` subtraction `n - 2` underflows, which is a panic in a debug build. A release build's wrap-around is not modelled.
- EdgeParser.ParseUsize: `usize` is taken to be 64 bits wide.
- EdgeParser.StringToEdge: each panic becomes an error value. The panic message with the offending line is not modelled.
- Karger.KargerRunN: the minimum equals some trial's result only when the edge count fits in a `usize`, which a `Vec` always does.
- Overflow of `combined_vertices_counter`, `cut_edges` and `repetitions` cannot happen. They are bounded by `n - 2`, the edge count and 1000.
