# PR-Sketch, modelled in Dafny

PR-Sketch is a fixed-size, lossy summary of a directed weighted graph that
arrives as a stream of edges. The repository holds three copies of it, and
this project models all three.

- **basepaper/pr_sketch/pr_sketch.py** (module `Sketch`, tables in
  `SketchCell` and `SketchTable`). This is a `width × width × depth` table of
  cells `(rank, weight, list)`. `update(s, d, w)` converts both ids with
  `str()`. Then, in every layer `k`, it applies the admission rule to cell
  `(pattern(s)[k], pattern(d)[k], k)` with the combined rank
  `min(rank(s)[k], rank(d)[k])`:
  - a higher rank evicts the occupant;
  - an equal rank adds to the weight;
  - a lower rank is appended to the cell's conflict list while the list is
    shorter than `conflict_limit`.

  `edge_query` returns the least weight over the layers whose stored rank
  equals the edge's combined rank, and 0 when none does.
  `reachability_query` is a breadth-first search over the `(u, v)` pairs
  held in the conflict lists.
- **app.py** (module `App`). This is the same class without the `str()`
  conversion. Its reachability scan walks each cell's list object instead of
  the pairs inside it. This copy also has `load_web_notredame`, a line
  decoder that calls `update(int(a), int(b), 1.0)` for every non-comment
  line with exactly two fields, and stops at the first field `int()`
  rejects.
- **basepaper/pr_sketch.py** (module `BookSketch`). This is the earlier
  dictionary-based sketch:
  - patterns and rank vectors are memoised per ASIN;
  - a hash table maps a location (a pair of columns) to the entry with the
    lexicographically greatest rank tuple seen there;
  - an exact adjacency map is searched depth-first for reachability.

Supporting modules:
- `PyText` models the parts of Python `str(int)`, `int(str)` and
  `str.split()` that the code relies on.
- `NodeHash` models the md5-based pattern and the seeded rank permutation.
- `Graphs` defines paths and reachability over an edge set.

The model follows the source's form. The array tables are an `array3` that
`update` changes in place. The dictionary sketch is a class whose `map`
fields its methods reassign. The triple loop of `__init__` that empties
every cell is the `array3` initializer of the constructors. The list
comprehensions that build a pattern are `seq` comprehensions in `Pattern`
and `GeneratePattern`. Every other statement loop of the source is a
`while` loop with its invariants. Each method is proved
against a specification function:
- `Admit` and `AdmitAll` for the cell rule, and `CellAfter` for a whole
  `load_web_notredame`;
- `MinVote` and `Estimate` for the array queries;
- `PlaceAll`, `Memo` and `IsEdgeAnswer` for the dictionary sketch;
- `Reachable` for every reachability query except the as-written one of
  app.py, which is proved to answer exactly `source == dest`.

Apart from the constructor preconditions listed under "Left out", the code
validates neither its configuration nor its weights, and the model follows
the code. An eviction installs a one-entry list even when
`conflict_limit` is 0, so the list bound the model proves is
`max(conflict_limit, 1)`.

## Model

| member | source | states |
|---|---|---|
| PyText.NatDigits | basepaper/pr_sketch/pr_sketch.py:19 | `str(n)` of a natural number is a non-empty string of digits with no leading zero |
| PyText.Decimal | basepaper/pr_sketch/pr_sketch.py:32-33 | `str(n)` of an integer is its digits, preceded by `-` exactly when it is negative |
| PyText.StartsWith | app.py:105 | `line.startswith(p)` holds exactly when `p` is no longer than the line and agrees with it character by character |
| PyText.ParseInt | app.py:109 | `int(s)` accepts an optional sign followed by ASCII digits; an unsigned result is a non-negative number made only of digits |
| PyText.ParseDecimal | app.py:109 | `int(str(n)) == n` for every integer `n` |
| PyText.DigitsValueOfNatDigits | app.py:109 | the decimal digits of a natural number read back as that number |
| PyText.Word | app.py:107 | the first token of a string: a prefix free of whitespace that ends at whitespace or at the end of the string |
| PyText.Split | app.py:107 | `str.split()` yields only non-empty tokens free of whitespace |
| PyText.SplitWordThenRest | app.py:107 | splitting a token followed by whitespace gives that token, then the split of the rest |
| PyText.WordOfToken | app.py:107 | the first token of `w + rest` is `w` when `rest` starts with whitespace |
| PyText.SplitBlank | app.py:107 | a line of whitespace splits into no tokens |
| PyText.SplitTwoFields | app.py:107-108 | `"a b\n".split()` is exactly `[a, b]` for two tokens |
| NodeHash.ToStr | basepaper/pr_sketch/pr_sketch.py:19 | `str(node)` keeps a string id and writes an integer id so that `int()` reads it back |
| NodeHash.AsStr | basepaper/pr_sketch/pr_sketch.py:32-33 | `str(node)` gives a string id with the same text, and leaves a string id unchanged |
| NodeHash.LayerHash | basepaper/pr_sketch/pr_sketch.py:19 | one layer's hash `md5(str(x) + str(seed)) % width` lies in `[0, width)` |
| NodeHash.Pattern | basepaper/pr_sketch/pr_sketch.py:21-23 | the pattern has one column per layer, each below `width` |
| NodeHash.PatternIgnoresStr | basepaper/pr_sketch/pr_sketch.py:19 | the pattern of `str(node)` equals the pattern of `node`, because the digest already hashes `str(x)` |
| NodeHash.RankSeed | basepaper/pr_sketch/pr_sketch.py:27 | the NumPy seed `hash(node) % 1000` lies in `[0, 1000)` |
| NodeHash.Rank | basepaper/pr_sketch/pr_sketch.py:25-28 | the rank vector is a permutation of `0 .. pattern_length - 1` |
| NodeHash.Min | basepaper/pr_sketch/pr_sketch.py:42 | `min(a, b)` is one of its arguments and below both |
| NodeHash.CombinedRanks | basepaper/pr_sketch/pr_sketch.py:41-42 | the combined rank of each layer is one of the two node ranks, no larger than either, and never negative |
| Graphs.ReachableRefl | basepaper/pr_sketch/pr_sketch.py:85-86 | every node reaches itself, as the `node == dest` check on the source answers true |
| Graphs.ReachableStep | basepaper/pr_sketch/pr_sketch.py:96-98 | a path extended by an edge is a path |
| Graphs.ReachablePrepend | basepaper/pr_sketch/pr_sketch.py:96-98 | an edge followed by a path is a path |
| Graphs.WalkStaysInClosed | basepaper/pr_sketch/pr_sketch.py:83-100 | a walk that starts in a set closed under edges never leaves it |
| Graphs.ClosedSetSeparates | basepaper/pr_sketch/pr_sketch.py:83-100 | a closed set holding `a` but not `b` proves `b` unreachable from `a` |
| Graphs.Chain | basepaper/main.py:4-6 | two consecutive edges make the end reachable from the start |
| Graphs.SinkReachesOnlyItself | basepaper/main.py:4-6 | a node with no outgoing edge, such as the end of the chain `a -> b -> c`, reaches no other node |
| SketchCell.Admit | basepaper/pr_sketch/pr_sketch.py:45-53 | the stored rank becomes `max(old, combined)`. Eviction installs exactly `(rank, weight, [(s, d)])`. A tie adds the weight and keeps the list. A loss only appends while the list is shorter than `conflict_limit`. The list bound `max(conflict_limit, 1)` is kept |
| SketchCell.AdmitAll | basepaper/pr_sketch/pr_sketch.py:40-53 | each layer's target cell goes through the rule with that layer's combined rank |
| SketchCell.AdmitsKeepBound | app.py:44-55 | over any run of updates a cell's rank never decreases and ends at least every admitted rank, and its list stays within `max(conflict_limit, 1)` |
| SketchCell.ConflictListIsAppendOnly | basepaper/pr_sketch/pr_sketch.py:49-53 | without an eviction the conflict list only grows at its end |
| SketchCell.TwoAdmissionsSum | basepaper/pr_sketch/pr_sketch.py:45-50 | two updates of the same edge into a lower-ranked cell leave `(rank, w1 + w2, [(s, d)])` |
| SketchCell.MinVote | basepaper/pr_sketch/pr_sketch.py:62-73 | there is no vote exactly when no layer's stored rank equals the combined rank; otherwise the vote is the weight of a matching layer and no larger than any matching weight |
| SketchCell.Estimate | basepaper/pr_sketch/pr_sketch.py:62-73 | the query answer: 0.0 when no layer's stored rank equals the combined rank, otherwise the weight of a matching layer that is no larger than any matching weight |
| SketchCell.EstimateUniform | basepaper/pr_sketch/pr_sketch.py:62-73 | when every layer matches with weight `w` the estimate is `w` |
| SketchCell.EstimateOfEmptyCells | basepaper/pr_sketch/pr_sketch.py:12-16 | a freshly initialised table estimates 0 for every edge |
| SketchCell.FreshInsertEstimate | basepaper/pr_sketch/pr_sketch.py:40-73 | after an update that took every target cell, the estimate is exactly the weight |
| SketchCell.RepeatedInsertEstimate | app.py:32-75 | two updates of the same edge into cells of lower rank estimate `w1 + w2` |
| SketchCell.EvictionSilencesLayer | basepaper/pr_sketch/pr_sketch.py:45-48 | after an eviction by a higher rank, the layer no longer votes for a lower combined rank |
| SketchTable.Targets | basepaper/pr_sketch/pr_sketch.py:41-43 | the cells an edge hashes to: the cell `(sp[k], dp[k], k)` of each layer |
| SketchTable.ApplyEdge | basepaper/pr_sketch/pr_sketch.py:40-53 | the update loop changes each target cell by the admission rule and leaves every other cell as it was |
| SketchTable.QueryLayers | basepaper/pr_sketch/pr_sketch.py:62-73 | the query loop returns `Estimate` of the target cells |
| SketchTable.RowPairsHolds | basepaper/pr_sketch/pr_sketch.py:94-96 | the pairs of one row prefix are exactly those in its cells' lists |
| SketchTable.PlanePairsHolds | basepaper/pr_sketch/pr_sketch.py:93-96 | the pairs of a prefix of rows of a layer are exactly those in their cells' lists |
| SketchTable.LayerPairsHolds | basepaper/pr_sketch/pr_sketch.py:92-96 | the pairs of a prefix of layers are exactly those in their cells' lists |
| SketchTable.PairsAreStored | basepaper/pr_sketch/pr_sketch.py:92-96 | the traversed graph is exactly the pairs held in some cell's list |
| SketchTable.ScanPairs | basepaper/pr_sketch/pr_sketch.py:92-98 | the scan enqueues `m` exactly when `(node, m)` is a stored pair |
| SketchTable.Bfs | basepaper/pr_sketch/pr_sketch.py:80-100 | the search answers true exactly when `dest` is reachable from `source` along stored pairs, `source == dest` included. It expands each node at most once and only nodes reachable from `source`, and a failed search has expanded every such node |
| Sketch.PRSketch.constructor | basepaper/pr_sketch/pr_sketch.py:5-16 | every cell starts as `(0, 0, [])` in a `width × width × depth` table |
| Sketch.PRSketch.PatternHash | basepaper/pr_sketch/pr_sketch.py:21-23 | a node's columns fit the table |
| Sketch.PRSketch.RankHash | basepaper/pr_sketch/pr_sketch.py:25-28 | a node's ranks are a permutation of `0 .. pattern_length - 1`, one at least per layer |
| Sketch.PRSketch.Combined | basepaper/pr_sketch/pr_sketch.py:41-42 | one combined rank per layer, each in `[0, pattern_length)` |
| Sketch.PRSketch.Update | basepaper/pr_sketch/pr_sketch.py:30-53 | after `str()` conversion, each target cell goes through the admission rule and every other cell is unchanged; no rank decreases and the list bound is kept |
| Sketch.PRSketch.EdgeQuery | basepaper/pr_sketch/pr_sketch.py:55-73 | reads nothing but the table and returns the min-vote estimate of the ids as given, 0 without a match |
| Sketch.PRSketch.EdgeQueryOfStr | basepaper/pr_sketch/pr_sketch.py:55-73 | the corrected query: the estimate under the `str()` ids that `update` stores with |
| Sketch.PRSketch.ReachabilityQuery | basepaper/pr_sketch/pr_sketch.py:75-100 | after `str()` conversion, true exactly when `dest` is reachable from `source` along pairs held in conflict lists; each node is expanded at most once, only reachable nodes are expanded, and a failed search has expanded them all |
| Sketch.FreshInsertThenQuery | basepaper/pr_sketch/pr_sketch.py:30-73 | for string ids, when every target cell had a lower rank, `edge_query` right after `update(s, d, w)` returns `w` |
| Sketch.FreshInsertThenQueryOfStr | basepaper/pr_sketch/pr_sketch.py:30-73 | the same for any ids through the corrected query |
| Sketch.RepeatedInsertThenQuery | basepaper/pr_sketch/pr_sketch.py:30-73 | two updates of a fresh edge sum their weights in the estimate |
| Sketch.UpdateThenReach | basepaper/pr_sketch/pr_sketch.py:30-100 | an edge that takes one of its cells is reachable right after its update |
| Sketch.IntIdsMissTheirEdge | basepaper/pr_sketch/pr_sketch.py:32-60 | for integer ids, `edge_query(0, 1)` after `update(0, 1, 1.0)` can estimate 0 where the corrected query estimates 1 |
| App.PRSketch.constructor | app.py:7-21 | every cell starts as `(0, 0, [])` in a `width × width × depth` table |
| App.PRSketch.PatternHash | app.py:23-25 | a node's columns fit the table |
| App.PRSketch.RankHash | app.py:27-30 | a node's ranks are a permutation of `0 .. pattern_length - 1`, one at least per layer |
| App.PRSketch.Combined | app.py:39-41 | one combined rank per layer, each in `[0, pattern_length)` |
| App.PRSketch.Update | app.py:32-55 | on the ids as given, each cell takes one `CellStep`: the target cell of each layer goes through the admission rule and every other cell is unchanged; the target cells as a whole are `AdmitAll` of the old ones; no rank decreases |
| App.PRSketch.EdgeQuery | app.py:57-75 | the min-vote estimate on the same ids `update` hashed, 0 without a match |
| App.PRSketch.ScanCellLists | app.py:91-97 | as written, the scan yields the second entry of every cell list whose first entry equals the node, so nothing for an int or string id |
| App.PRSketch.ReachabilityQuery | app.py:77-99 | as written, the answer is exactly `source == dest` |
| App.PRSketch.ReachabilityQueryByPairs | app.py:77-99 | the corrected search answers true exactly when `dest` is reachable along stored pairs; each node is expanded at most once, only reachable nodes are expanded, and a failed search has expanded them all |
| App.PRSketch.CellAfter | app.py:32-55 | a run of `update(s, d, 1.0)` calls, cell by cell: no cell's rank decreases |
| App.PRSketch.CellAfterAppend | app.py:104-110 | loading two batches of edges in turn leaves every cell as loading their concatenation does |
| App.PRSketch.CellAfterUntouched | app.py:32-55 | a cell that no loaded edge hashes to keeps its value |
| App.PRSketch.LoadWebNotreDame | app.py:101-110 | every two-field, non-comment line becomes one `update(int(a), int(b), 1.0)` in order; a field `int()` rejects stops the load with the earlier updates kept; every cell ends as the old cell after those updates, in order |
| App.EdgesBeforeFailure | app.py:104-110 | the loaded edges are at most one per line, and both ends of each are integer ids |
| App.EdgesComeFromRecords | app.py:107-110 | every loaded edge is the pair of integers decoded from one record line |
| App.DecodeLine | app.py:105-109 | a `#` line is skipped; a line is recorded exactly when it is not a comment and splits into two tokens, with both fields parsed by `int()`; a non-integer field is an error |
| App.EdgesStopAtFailure | app.py:109 | lines after a field `int()` rejects add no edge |
| App.DecodeRecordLine | app.py:105-110 | the line `"a b\n"` written from two integers decodes to the edge `(a, b)` |
| App.DecimalIsToken | app.py:107 | the decimal text of an integer is one token that does not start with `#` |
| App.RepeatedInsertThenQuery | app.py:32-75 | for any ids, integer ones included, two updates of an edge into cells of lower rank make `edge_query` return `w1 + w2` |
| App.ReachabilityMissesStoredEdge | app.py:91-99 | after `update(0, 1)` into a one-cell sketch, the as-written query answers false and the corrected one true |
| BookSketch.LexGreater | basepaper/pr_sketch.py:73 | Python's `>` on rank tuples is a strict total order: greater exactly when distinct and not less |
| BookSketch.Place | basepaper/pr_sketch.py:67-76 | one placement: the location is added, no other location changes, a free location takes the edge, and an occupied one is replaced only by a strictly greater rank tuple, after which the location's tuple is at least the offered one |
| BookSketch.PlaceAll | basepaper/pr_sketch.py:67-76 | the placement loop leaves every location outside the pattern as it was |
| BookSketch.IsEdgeAnswer | basepaper/pr_sketch.py:88-97 | the edge-query answer is 0 or a weight stored at one of the pattern locations |
| BookSketch.PlaceAllKeys | basepaper/pr_sketch.py:67-76 | after `add_edge` the table's locations are the old ones plus the edge's own |
| BookSketch.NewLocationsBounded | basepaper/pr_sketch.py:67-76 | one `add_edge` adds at most `pattern_length` new locations |
| BookSketch.PlaceAllKeepsHigherRanks | basepaper/pr_sketch.py:71-76 | a location's rank tuple never decreases lexicographically, and ends at least the tuple the edge offered there |
| BookSketch.PlaceAllReplaces | basepaper/pr_sketch.py:71-76 | each location holds what it held before or exactly this edge with its offered tuple and weight, so weights are replaced, never summed |
| BookSketch.FirstEdgeWeights | basepaper/pr_sketch.py:67-76 | into an empty table every location the edge touches holds that edge and its weight |
| BookSketch.Linked | basepaper/pr_sketch.py:65 | `graph[asin1].add(asin2)` adds exactly the edge `(asin1, asin2)` and changes no other adjacency set |
| BookSketch.LinkAll | basepaper/main.py:15-18 | after a run of `add_edge` calls, the graph's edges are the old ones plus every pair added |
| BookSketch.BookChainReachability | basepaper/main.py:4-26 | with the demo's book data, `1567184960` is reachable from `0827229534` and not the other way round |
| BookSketch.Memo | basepaper/pr_sketch.py:36-38 | a memo lookup adds only its own key and never overwrites an entry |
| BookSketch.MemoIsStable | basepaper/pr_sketch.py:46-50 | a second lookup of the same key changes nothing and returns the first value |
| BookSketch.EdgeAnswerIsUnique | basepaper/pr_sketch.py:88-97 | the edge-query answer is determined by the table and the locations |
| BookSketch.PRSketch.constructor | basepaper/pr_sketch.py:6-18 | all four dictionaries start empty |
| BookSketch.PRSketch.HashFunction | basepaper/pr_sketch.py:20-28 | the hash lies in `[0, table_size)` |
| BookSketch.PRSketch.GeneratePattern | basepaper/pr_sketch.py:30-38 | returns the hashed pattern of the ASIN (length `pattern_length`, columns in range) and adds nothing but that memo entry |
| BookSketch.PRSketch.GenerateRank | basepaper/pr_sketch.py:40-50 | returns a permutation of `1 .. pattern_length`: the stored one on a hit, the shuffled one on a miss, which is then stored |
| BookSketch.PRSketch.AddEdge | basepaper/pr_sketch.py:52-76 | memoises both patterns and ranks, adds exactly the edge to the graph, and places the edge at each pattern location by the greater-tuple rule |
| BookSketch.PRSketch.StoreEdge | basepaper/pr_sketch.py:67-76 | the placement loop equals `PlaceAll` over the pattern locations and rank tuples |
| BookSketch.PRSketch.EdgeQuery | basepaper/pr_sketch.py:78-97 | returns 0 when no pattern location is occupied, otherwise the least weight among the occupied ones, whichever edge holds them; only patterns are memoised |
| BookSketch.PRSketch.LeastStoredWeight | basepaper/pr_sketch.py:88-97 | the query loop's result is the edge-query answer for the locations |
| BookSketch.PRSketch.ReachabilityQuery | basepaper/pr_sketch.py:99-121 | true exactly when `asin2` is reachable from `asin1` in the graph, `asin1 == asin2` included |
| BookSketch.PRSketch.Search | basepaper/pr_sketch.py:107-121 | the recursive search is sound. On failure, every node it visited has all its neighbours visited, and `asin2` was never visited |
| BookSketch.FirstEdgeThenQuery | basepaper/pr_sketch.py:52-97 | the first `add_edge(a, b, w)` into an empty table is answered by `edge_query(a, b) == w` |
| BookSketch.AddEdgeThenReach | basepaper/pr_sketch.py:52-121 | right after `add_edge(a, b)`, `reachability_query(a, b)` is true |

## Left out

- md5, Python's `hash()`, `np.random.seed` with `np.random.permutation`, and `random.shuffle` are foreign calls. The digest, `hash()` and the seeded permutation are function-valued constructor arguments. `Rank` keeps the fact the code relies on: the result is a permutation. The shuffled vector of `generate_rank` is an argument that must be a permutation of `1 .. pattern_length`.
- Python salts `hash()` of a string per process, so rank vectors differ between runs. The model fixes one `hash()` function per sketch.
- NumPy stores weights as `f4` and ranks as `i4`. Weights are real numbers here, so rounding is not modelled. Ranks stay below `pattern_length`, so `i4` overflow cannot occur.
- The file reading of `load_web_notredame` is left out; the method takes the file's lines. The streaming loop, the query thread, `print` and `time.sleep` (app.py:112-141, basepaper/tests/stream.py) are I/O and concurrency and are not modelled.
- The code has no locking; the query thread started at app.py:138 runs beside the streaming loop and is not modelled.
- PyText.ParseInt: accepts only an optional ASCII sign and ASCII digits. Underscores between digits, non-ASCII digits and surrounding whitespace, which Python's `int()` also accepts, are not modelled. The decoder only passes tokens that are already stripped of whitespace.
- PyText.ParseInt: CPython 3.11 and later refuse to convert an integer string of more than 4300 digits and raise ValueError; the model reads any length.
- PyText.ParseDecimal: for the same limit, `str(n)` of an integer with more than 4300 digits raises ValueError; the model writes and reads back any integer.
- PyText.IsSpace: covers ASCII whitespace, the separators `\x1c` to `\x1f`, `\x85` and `\xa0`. The other Unicode spaces that `str.split()` also splits on are not modelled.
- Sketch.PRSketch.constructor: requires `width > 0` and `pattern_length >= depth`. With width 0 every hash raises ZeroDivisionError, and with `pattern_length < depth` `update` raises IndexError; neither error path is modelled.
- App.PRSketch.constructor: requires `width > 0` and `pattern_length >= depth`, for the same reasons.
- BookSketch.PRSketch.constructor: requires `table_size > 0`. With 0, `_hash_function` raises ZeroDivisionError.
- Python's default arguments (`conflict_limit=3`, `weight=1.0`, `table_size=1000`, `pattern_length=2`) are explicit arguments.
- Node ids are integers or strings (`NodeId`). App.PRSketch.ReachabilityQuery: an id that is itself a tuple, which the as-written scan could match, is not modelled.
- BookSketch.PRSketch.ReachabilityQuery: reading `self.graph[asin1]` from the `defaultdict` inserts an empty adjacency set for a node that has none. The model reads a missing key as the empty set without inserting it. The edge set is the same either way.
- BookSketch.PRSketch.Search: past Python's default recursion limit of 1000 nested calls (basepaper/pr_sketch.py:118) the search raises RecursionError; the model recurses to any depth.
- BookSketch.PRSketch.Search: the Python function shares one mutable `visited` set across its recursive calls. The model passes that set in and returns it.

## Findings

| source | as written | input that shows it | evidently intended | confidence | as-written member | corrected member |
|---|---|---|---|---|---|---|
| app.py:93-96 | `for pair in row` binds a cell's whole conflict list, and `pair[0] == node` compares a `(source, dest)` tuple with an id, so no neighbour is ever enqueued | a 1×1×1 sketch; `update(0, 1)` takes the cell; `reachability_query(0, 1)` returns False | iterate over the pairs inside each cell's list, as basepaper/pr_sketch/pr_sketch.py:95-98 does | high; not executed | App.PRSketch.ReachabilityQuery, App.ReachabilityMissesStoredEdge | App.PRSketch.ReachabilityQueryByPairs |
| basepaper/pr_sketch/pr_sketch.py:55-60 | `update` converts the ids with `str()` before taking rank vectors, `edge_query` does not, and `hash(0)` is not `hash("0")` | a 1×1×1 sketch with `pattern_length` 2, `hash(i) == i` for integers as in CPython, and a string hash whose seed draws the other permutation; `update(0, 1, 1.0)`, then `edge_query(0, 1)` returns 0.0 | convert the ids with `str()` in `edge_query` as well | medium; not executed, and it depends on `hash()` values | Sketch.PRSketch.EdgeQuery, Sketch.IntIdsMissTheirEdge | Sketch.PRSketch.EdgeQueryOfStr |
