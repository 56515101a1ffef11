/** The dictionary-based `PRSketch` of basepaper/pr_sketch.py: patterns and
    rank vectors memoised per ASIN, a hash table from a location (a pair of
    columns) to the highest-ranked edge seen there, and an exact adjacency
    map used by a depth-first reachability search. */
module BookSketch {
  import opened PyText
  import opened NodeHash
  import opened Graphs

  type Location = (nat, nat)
  type RankPair = (nat, nat)

  /** One `hash_table` entry `[(asin1, asin2), rank_tuple, weight]`. */
  datatype Entry = Entry(edge: (string, string), rank: RankPair, weight: real)

  /** Python's `>` on two-element tuples: lexicographic. */
  predicate LexGreater(a: RankPair, b: RankPair): (g: bool)
    // a strict total order: greater exactly when distinct and not less
    ensures g <==> a != b && !(a.0 < b.0 || (a.0 == b.0 && a.1 < b.1))
  {
    a.0 > b.0 || (a.0 == b.0 && a.1 > b.1)
  }

  /** One iteration of the loop of `add_edge`: an empty location takes the
      entry, an occupied one only when the new rank tuple is greater. */
  function Place(t: map<Location, Entry>, loc: Location, rank: RankPair, edge: (string, string), w: real)
    : (r: map<Location, Entry>)
    ensures r.Keys == t.Keys + {loc}
    ensures forall l :: l in t && l != loc ==> r[l] == t[l]
    // the new entry wins only where the location is free or its rank tuple is strictly greater
    ensures (loc in t && r[loc] == t[loc]) || r[loc] == Entry(edge, rank, w)
    ensures loc in t && r[loc] != t[loc] ==> LexGreater(rank, t[loc].rank)
    ensures loc !in t ==> r[loc] == Entry(edge, rank, w)
    ensures !LexGreater(rank, r[loc].rank)
  {
    if loc in t && !LexGreater(rank, t[loc].rank) then t else t[loc := Entry(edge, rank, w)]
  }

  /** The whole loop of `add_edge` over its locations, in order. */
  function PlaceAll(t: map<Location, Entry>, locs: seq<Location>, ranks: seq<RankPair>,
                    edge: (string, string), w: real): (r: map<Location, Entry>)
    requires |locs| == |ranks|
    // a location the pattern does not visit keeps its entry
    ensures forall l :: l in t && (forall i :: 0 <= i < |locs| ==> locs[i] != l) ==> l in r && r[l] == t[l]
  {
    if |locs| == 0 then t
    else
      var n := |locs| - 1;
      Place(PlaceAll(t, locs[..n], ranks[..n], edge, w), locs[n], ranks[n], edge, w)
  }

  function LocationSet(locs: seq<Location>): set<Location> { set i | 0 <= i < |locs| :: locs[i] }

  /** `add_edge` ends up with exactly the old locations plus its own. */
  lemma {:induction false} PlaceAllKeys(t: map<Location, Entry>, locs: seq<Location>, ranks: seq<RankPair>,
                                        edge: (string, string), w: real)
    requires |locs| == |ranks|
    ensures PlaceAll(t, locs, ranks, edge, w).Keys == t.Keys + LocationSet(locs)
  {
    if |locs| > 0 {
      var n := |locs| - 1;
      PlaceAllKeys(t, locs[..n], ranks[..n], edge, w);
      assert LocationSet(locs) == LocationSet(locs[..n]) + {locs[n]} by {
        forall l | l in LocationSet(locs) ensures l in LocationSet(locs[..n]) + {locs[n]} {
          var i :| 0 <= i < |locs| && locs[i] == l;
          if i < n { assert locs[..n][i] == l; }
        }
        forall l | l in LocationSet(locs[..n]) ensures l in LocationSet(locs) {
          var i :| 0 <= i < n && locs[..n][i] == l;
          assert locs[i] == l;
        }
      }
    }
  }

  lemma {:induction false} LocationSetSize(locs: seq<Location>)
    ensures |LocationSet(locs)| <= |locs|
  {
    if |locs| > 0 {
      var n := |locs| - 1;
      LocationSetSize(locs[..n]);
      assert LocationSet(locs) <= LocationSet(locs[..n]) + {locs[n]} by {
        forall l | l in LocationSet(locs) ensures l in LocationSet(locs[..n]) + {locs[n]} {
          var i :| 0 <= i < |locs| && locs[i] == l;
          if i < n { assert locs[..n][i] == l; }
        }
      }
      SubsetSize(LocationSet(locs), LocationSet(locs[..n]) + {locs[n]});
    }
  }

  lemma SubsetSize<T>(a: set<T>, b: set<T>)
    requires a <= b
    ensures |a| <= |b|
  {
    assert b == a + (b - a);
  }

  /** One `add_edge` adds at most as many locations as its pattern is long. */
  lemma NewLocationsBounded(t: map<Location, Entry>, locs: seq<Location>, ranks: seq<RankPair>,
                            edge: (string, string), w: real)
    requires |locs| == |ranks|
    ensures |PlaceAll(t, locs, ranks, edge, w).Keys - t.Keys| <= |locs|
  {
    PlaceAllKeys(t, locs, ranks, edge, w);
    LocationSetSize(locs);
    SubsetSize(PlaceAll(t, locs, ranks, edge, w).Keys - t.Keys, LocationSet(locs));
  }

  /** A location's rank tuple never decreases, and afterwards it is at
      least the rank tuple the edge offered there. */
  lemma {:induction false} PlaceAllKeepsHigherRanks(t: map<Location, Entry>, locs: seq<Location>, ranks: seq<RankPair>,
                                                    edge: (string, string), w: real)
    requires |locs| == |ranks|
    ensures var t' := PlaceAll(t, locs, ranks, edge, w);
            (forall l :: l in t ==> l in t' && !LexGreater(t[l].rank, t'[l].rank))
            && (forall i :: 0 <= i < |locs| ==> locs[i] in t' && !LexGreater(ranks[i], t'[locs[i]].rank))
  {
    if |locs| > 0 {
      var n := |locs| - 1;
      PlaceAllKeepsHigherRanks(t, locs[..n], ranks[..n], edge, w);
      forall i | 0 <= i < n ensures locs[..n][i] == locs[i] && ranks[..n][i] == ranks[i] { }
    }
  }

  /** Replacement, not accumulation: every location holds either what it
      held before or exactly this edge with the rank tuple and weight it
      offered there. */
  lemma {:induction false} PlaceAllReplaces(t: map<Location, Entry>, locs: seq<Location>, ranks: seq<RankPair>,
                                            edge: (string, string), w: real, l: Location)
    requires |locs| == |ranks|
    requires l in PlaceAll(t, locs, ranks, edge, w)
    ensures var t' := PlaceAll(t, locs, ranks, edge, w);
            (l in t && t'[l] == t[l])
            || exists i :: 0 <= i < |locs| && locs[i] == l && t'[l] == Entry(edge, ranks[i], w)
  {
    if |locs| > 0 {
      var n := |locs| - 1;
      var prev := PlaceAll(t, locs[..n], ranks[..n], edge, w);
      var t' := PlaceAll(t, locs, ranks, edge, w);
      if l == locs[n] && (l !in prev || t'[l] != prev[l]) {
        assert t'[l] == Entry(edge, ranks[n], w);
      } else {
        assert l in prev && t'[l] == prev[l];
        PlaceAllReplaces(t, locs[..n], ranks[..n], edge, w, l);
        if l !in t || prev[l] != t[l] {
          var i :| 0 <= i < n && locs[..n][i] == l && prev[l] == Entry(edge, ranks[..n][i], w);
          assert locs[i] == l && ranks[i] == ranks[..n][i];
        }
      }
    }
  }

  /** The neighbours of `a` in the adjacency map (a missing key has none). */
  function Adj(g: map<string, set<string>>, a: string): set<string>
  {
    if a in g then g[a] else {}
  }

  ghost function Edges(g: map<string, set<string>>): set<(string, string)>
  {
    set a, b | a in g && b in g[a] :: (a, b)
  }

  ghost function Vertices(g: map<string, set<string>>): set<string>
  {
    g.Keys + set a, b | a in g && b in g[a] :: b
  }

  /** The adjacency map after `graph[asin1].add(asin2)`: exactly one edge
      more, and every other adjacency set as it was. */
  function Linked(g: map<string, set<string>>, asin1: string, asin2: string): (g': map<string, set<string>>)
    ensures Edges(g') == Edges(g) + {(asin1, asin2)}
    ensures forall a :: a != asin1 ==> Adj(g', a) == Adj(g, a)
  {
    var g' := g[asin1 := Adj(g, asin1) + {asin2}];
    assert Edges(g') == Edges(g) + {(asin1, asin2)} by {
      forall e | e in Edges(g') ensures e in Edges(g) + {(asin1, asin2)} {
        if e.0 != asin1 || e.1 != asin2 { assert e.1 in Adj(g', e.0); }
      }
      forall e | e in Edges(g) ensures e in Edges(g') {
        assert e.1 in Adj(g, e.0);
      }
    }
    g'
  }

  /** The adjacency map after a sequence of `add_edge` calls, oldest first:
      its edges are the old ones plus every pair added. */
  function LinkAll(g: map<string, set<string>>, pairs: seq<(string, string)>): (g': map<string, set<string>>)
    ensures Edges(g') == Edges(g) + set e | e in pairs
  {
    if |pairs| == 0 then g
    else
      var n := |pairs| - 1;
      assert (set e | e in pairs) == (set e | e in pairs[..n]) + {pairs[n]} by {
        forall e | e in pairs ensures e in pairs[..n] || e == pairs[n] {
          var i :| 0 <= i < |pairs| && pairs[i] == e;
          if i < n { assert pairs[..n][i] == e; }
        }
      }
      Linked(LinkAll(g, pairs[..n]), pairs[n].0, pairs[n].1)
  }

  /** The book data of basepaper/main.py added to an empty sketch: the end
      of the chain `0827229534 -> 0738700797 -> 1567184960` is reachable from
      its start, and the start is not reachable from the end. */
  lemma BookChainReachability()
    ensures var g := LinkAll(map[], [("0827229534", "0804215715"), ("0827229534", "156101074X"),
                                     ("0827229534", "0738700797"), ("0738700797", "0738700827"),
                                     ("0738700797", "1567184960")]);
            Reachable(Edges(g), "0827229534", "1567184960") && !Reachable(Edges(g), "1567184960", "0827229534")
  {
    var pairs := [("0827229534", "0804215715"), ("0827229534", "156101074X"),
                  ("0827229534", "0738700797"), ("0738700797", "0738700827"),
                  ("0738700797", "1567184960")];
    var E := Edges(LinkAll(map[], pairs));
    assert E == set e | e in pairs;
    assert pairs[2] in pairs && pairs[4] in pairs;
    Chain(E, "0827229534", "0738700797", "1567184960");
    SinkReachesOnlyItself(E, "1567184960", "0827229534");
  }

  /** The pairs `(a[i], b[i])`: the locations of an edge from the two
      patterns, or its rank tuples from the two rank vectors. */
  function Pairwise(a: seq<nat>, b: seq<nat>): (ps: seq<(nat, nat)>)
    requires |a| == |b|
    ensures |ps| == |a|
  {
    seq(|a|, i requires 0 <= i < |a| => (a[i], b[i]))
  }

  /** A memo table after looking up `key`: on a miss `value` is stored, on a
      hit nothing changes; no other entry is ever touched. */
  function Memo(m: map<string, seq<nat>>, key: string, value: seq<nat>): (m': map<string, seq<nat>>)
    ensures key in m' && m'.Keys == m.Keys + {key}
    ensures forall k :: k in m ==> m'[k] == m[k]
    ensures key !in m ==> m'[key] == value
  {
    if key in m then m else m[key := value]
  }

  /** Consistency of the memo tables: a second lookup of the same key
      changes nothing, whatever it would have computed. */
  lemma MemoIsStable(m: map<string, seq<nat>>, key: string, v1: seq<nat>, v2: seq<nat>)
    ensures Memo(Memo(m, key, v1), key, v2) == Memo(m, key, v1)
    ensures Memo(Memo(m, key, v1), key, v2)[key] == (if key in m then m[key] else v1)
  {
  }

  /** Into an empty table, every location ends up holding the edge's own weight. */
  lemma FirstEdgeWeights(locs: seq<Location>, ranks: seq<RankPair>, edge: (string, string), w: real)
    requires |locs| == |ranks|
    ensures var t := PlaceAll(map[], locs, ranks, edge, w);
            t.Keys == LocationSet(locs) && forall l :: l in t ==> t[l].edge == edge && t[l].weight == w
  {
  }

  /** `r` is the `edge_query` answer over `locs`: 0 when no location is
      occupied, otherwise the least weight stored at an occupied one. */
  ghost predicate IsEdgeAnswer(t: map<Location, Entry>, locs: seq<Location>, r: real): (b: bool)
    // an answer is 0 or a weight stored at one of the locations
    ensures b ==> r == 0.0 || exists i :: 0 <= i < |locs| && locs[i] in t && r == t[locs[i]].weight
  {
    ((forall i :: 0 <= i < |locs| ==> locs[i] !in t) ==> r == 0.0)
    && ((exists i :: 0 <= i < |locs| && locs[i] in t) ==>
          (exists i :: 0 <= i < |locs| && locs[i] in t && r == t[locs[i]].weight)
          && forall i :: 0 <= i < |locs| && locs[i] in t ==> r <= t[locs[i]].weight)
  }

  /** The answer is determined: two answers for the same table and locations agree. */
  lemma EdgeAnswerIsUnique(t: map<Location, Entry>, locs: seq<Location>, r1: real, r2: real)
    requires IsEdgeAnswer(t, locs, r1) && IsEdgeAnswer(t, locs, r2)
    ensures r1 == r2
  {
  }

  class PRSketch {
    const tableSize: nat
    const patternLength: nat
    /** The digest `int(md5(text).hexdigest(), 16)`. */
    const md5: string -> nat
    var hashTable: map<Location, Entry>
    var patternMap: map<string, seq<nat>>
    var rankMap: map<string, seq<nat>>
    var graph: map<string, set<string>>

    /** Memoised patterns are the hashed ones, memoised ranks are
        permutations of `1 .. patternLength`, and every location lies in the
        table. */
    ghost predicate Valid()
      reads this
    {
      tableSize > 0
      && (forall a :: a in patternMap ==> patternMap[a] == Pattern(md5, tableSize, patternLength, Str(a)))
      && (forall a :: a in rankMap ==> IsPermutation(rankMap[a], 1, patternLength))
      && (forall l :: l in hashTable ==> l.0 < tableSize && l.1 < tableSize)
    }

    /** `__init__`: all four dictionaries start empty. */
    constructor (tableSize: nat, patternLength: nat, md5: string -> nat)
      requires tableSize > 0
      ensures Valid()
      ensures this.tableSize == tableSize && this.patternLength == patternLength && this.md5 == md5
      ensures hashTable == map[] && patternMap == map[] && rankMap == map[] && graph == map[]
    {
      this.tableSize := tableSize;
      this.patternLength := patternLength;
      this.md5 := md5;
      hashTable, patternMap, rankMap, graph := map[], map[], map[], map[];
    }

    /** `_hash_function(key, seed)`: a slot of the table. */
    function HashFunction(key: string, seed: nat): (h: nat)
      requires tableSize > 0
      ensures h < tableSize
    {
      LayerHash(md5, tableSize, key, seed)
    }

    /** `generate_pattern(asin)`: the pattern of the ASIN, computed once and
        then served from `pattern_map`; nothing but that entry is added. */
    method GeneratePattern(asin: string) returns (p: seq<nat>)
      requires Valid()
      modifies this`patternMap
      ensures Valid()
      ensures p == Pattern(md5, tableSize, patternLength, Str(asin))
      ensures |p| == patternLength && forall i :: 0 <= i < |p| ==> p[i] < tableSize
      ensures patternMap == Memo(old(patternMap), asin, p)
    {
      if asin !in patternMap {
        patternMap := patternMap[asin := seq(patternLength, i requires 0 <= i < patternLength => HashFunction(asin, i))];
      }
      p := patternMap[asin];
    }

    /** `generate_rank(asin)`: on the first call the shuffled vector
        `shuffled` (the draw of `random.shuffle` on `[1 .. patternLength]`) is
        stored; every later call returns the stored vector. */
    method GenerateRank(asin: string, shuffled: seq<nat>) returns (r: seq<nat>)
      requires Valid()
      requires IsPermutation(shuffled, 1, patternLength)
      modifies this`rankMap
      ensures Valid()
      ensures IsPermutation(r, 1, patternLength)
      ensures rankMap == Memo(old(rankMap), asin, shuffled) && r == rankMap[asin]
    {
      if asin !in rankMap {
        rankMap := rankMap[asin := shuffled];
      }
      r := rankMap[asin];
    }

    /** `add_edge(asin1, asin2, weight)`: `asin2` joins the adjacency set of
        `asin1` and no other set changes; the hash table goes through the
        per-location placement rule for each pattern position. */
    method AddEdge(asin1: string, asin2: string, weight: real, shuffled1: seq<nat>, shuffled2: seq<nat>)
      requires Valid()
      requires IsPermutation(shuffled1, 1, patternLength) && IsPermutation(shuffled2, 1, patternLength)
      modifies this`patternMap, this`rankMap, this`graph, this`hashTable
      ensures Valid()
      ensures graph == Linked(old(graph), asin1, asin2)
      ensures patternMap == Memo(Memo(old(patternMap), asin1, Pattern(md5, tableSize, patternLength, Str(asin1))),
                                 asin2, Pattern(md5, tableSize, patternLength, Str(asin2)))
      ensures rankMap == Memo(Memo(old(rankMap), asin1, shuffled1), asin2, shuffled2)
      ensures hashTable == PlaceAll(old(hashTable),
                                    Pairwise(Pattern(md5, tableSize, patternLength, Str(asin1)),
                                              Pattern(md5, tableSize, patternLength, Str(asin2))),
                                    Pairwise(rankMap[asin1], rankMap[asin2]), (asin1, asin2), weight)
    {
      var pattern1 := GeneratePattern(asin1);
      var pattern2 := GeneratePattern(asin2);
      var rank1 := GenerateRank(asin1, shuffled1);
      var rank2 := GenerateRank(asin2, shuffled2);
      assert rank1 == rankMap[asin1] && rank2 == rankMap[asin2];

      graph := Linked(graph, asin1, asin2);

      StoreEdge(pattern1, pattern2, rank1, rank2, (asin1, asin2), weight);
    }

    /** The loop of `add_edge`: position `i` offers the rank tuple
        `(rank1[i], rank2[i])` at location `(pattern1[i], pattern2[i])`. */
    method StoreEdge(pattern1: seq<nat>, pattern2: seq<nat>, rank1: seq<nat>, rank2: seq<nat>,
                     edge: (string, string), weight: real)
      requires |pattern1| == |pattern2| == |rank1| == |rank2|
      requires forall i :: 0 <= i < |pattern1| ==> pattern1[i] < tableSize && pattern2[i] < tableSize
      requires forall l :: l in hashTable ==> l.0 < tableSize && l.1 < tableSize
      modifies this`hashTable
      ensures hashTable == PlaceAll(old(hashTable), Pairwise(pattern1, pattern2), Pairwise(rank1, rank2), edge, weight)
      ensures forall l :: l in hashTable ==> l.0 < tableSize && l.1 < tableSize
    {
      ghost var locs := Pairwise(pattern1, pattern2);
      ghost var ranks := Pairwise(rank1, rank2);
      var i := 0;
      while i < |pattern1|
        invariant 0 <= i <= |pattern1|
        invariant hashTable == PlaceAll(old(hashTable), locs[..i], ranks[..i], edge, weight)
        invariant forall l :: l in hashTable ==> l.0 < tableSize && l.1 < tableSize
      {
        var loc := (pattern1[i], pattern2[i]);
        var rank := (rank1[i], rank2[i]);
        assert locs[..i + 1][..i] == locs[..i] && ranks[..i + 1][..i] == ranks[..i];
        if loc in hashTable {
          var existingRank := hashTable[loc].rank;
          if LexGreater(rank, existingRank) {
            hashTable := hashTable[loc := Entry(edge, rank, weight)];
          }
        } else {
          hashTable := hashTable[loc := Entry(edge, rank, weight)];
        }
        i := i + 1;
      }
      assert locs[..i] == locs && ranks[..i] == ranks;
    }

    /** `edge_query(asin1, asin2)`: the least weight stored at any of the
        edge's pattern locations, whichever edge occupies them, and 0 when
        none is occupied. Only the two patterns are memoised. */
    method EdgeQuery(asin1: string, asin2: string) returns (r: real)
      requires Valid()
      modifies this`patternMap
      ensures Valid()
      ensures patternMap == Memo(Memo(old(patternMap), asin1, Pattern(md5, tableSize, patternLength, Str(asin1))),
                                 asin2, Pattern(md5, tableSize, patternLength, Str(asin2)))
      ensures IsEdgeAnswer(hashTable, Pairwise(Pattern(md5, tableSize, patternLength, Str(asin1)),
                                                Pattern(md5, tableSize, patternLength, Str(asin2))), r)
    {
      var pattern1 := GeneratePattern(asin1);
      var pattern2 := GeneratePattern(asin2);
      r := LeastStoredWeight(pattern1, pattern2);
    }

    /** The loop of `edge_query` over the locations `(pattern1[i], pattern2[i])`. */
    method LeastStoredWeight(pattern1: seq<nat>, pattern2: seq<nat>) returns (r: real)
      requires |pattern1| == |pattern2|
      ensures IsEdgeAnswer(hashTable, Pairwise(pattern1, pattern2), r)
    {
      ghost var locs := Pairwise(pattern1, pattern2);
      // `min_weight` starts at infinity in the source; `found` says whether it was ever lowered
      var minWeight: real := 0.0;
      var found := false;
      var i := 0;
      while i < |pattern1|
        invariant 0 <= i <= |pattern1|
        invariant found <==> exists j :: 0 <= j < i && locs[j] in hashTable
        invariant found ==> exists j :: 0 <= j < i && locs[j] in hashTable && minWeight == hashTable[locs[j]].weight
        invariant found ==> forall j :: 0 <= j < i && locs[j] in hashTable ==> minWeight <= hashTable[locs[j]].weight
      {
        var loc := (pattern1[i], pattern2[i]);
        assert locs[i] == loc;
        if loc in hashTable {
          minWeight := if found && minWeight <= hashTable[loc].weight then minWeight else hashTable[loc].weight;
          found := true;
        }
        i := i + 1;
      }
      r := if found then minWeight else 0.0;
    }

    /** `reachability_query(asin1, asin2)`: true exactly when `asin2` is
        reachable from `asin1` in the adjacency map, `asin1 == asin2`
        included. */
    method ReachabilityQuery(asin1: string, asin2: string) returns (found: bool)
      ensures found == Reachable(Edges(graph), asin1, asin2)
    {
      var visited;
      found, visited := Search(asin1, asin2, {});
      if !found {
        forall n, m | n in visited && (n, m) in Edges(graph) ensures m in visited {
          assert m in Adj(graph, n);
        }
        ClosedSetSeparates(Edges(graph), visited, asin1, asin2);
      }
    }

    /** The recursive call `reachability_query(asin1, asin2, visited)`: the
        shared `visited` set is threaded through as `visited` in and
        `visitedOut` out. On success a path exists; on failure every node
        the call added is closed under edges within `visitedOut`, which holds
        `asin1` and not `asin2`. */
    method Search(asin1: string, asin2: string, visited: set<string>) returns (found: bool, visitedOut: set<string>)
      requires asin1 !in visited && asin2 !in visited
      ensures visited <= visitedOut
      ensures found ==> Reachable(Edges(graph), asin1, asin2)
      ensures !found ==> asin1 in visitedOut && asin2 !in visitedOut
      ensures !found ==> forall n, m :: n in visitedOut - visited && m in Adj(graph, n) ==> m in visitedOut
      decreases Vertices(graph) - visited
    {
      if asin1 == asin2 {
        ReachableRefl(Edges(graph), asin1);
        return true, visited;
      }
      visitedOut := visited + {asin1};
      var remaining := Adj(graph, asin1);
      while remaining != {}
        invariant remaining <= Adj(graph, asin1)
        invariant visited + {asin1} <= visitedOut
        invariant asin2 !in visitedOut
        invariant forall n, m :: n in visitedOut - visited && n != asin1 && m in Adj(graph, n) ==> m in visitedOut
        invariant forall m :: m in Adj(graph, asin1) - remaining ==> m in visitedOut
        decreases remaining
      {
        var neighbor :| neighbor in remaining;
        remaining := remaining - {neighbor};
        if neighbor !in visitedOut {
          assert asin1 in Vertices(graph);
          var f, v := Search(neighbor, asin2, visitedOut);
          if f {
            assert (asin1, neighbor) in Edges(graph);
            ReachablePrepend(Edges(graph), asin1, neighbor, asin2);
            return true, v;
          }
          visitedOut := v;
        }
      }
      return false, visitedOut;
    }
  }

  /** The first `add_edge` into an empty table is answered exactly by
      `edge_query`. */
  method FirstEdgeThenQuery(sk: PRSketch, asin1: string, asin2: string, w: real,
                            shuffled1: seq<nat>, shuffled2: seq<nat>) returns (q: real)
    requires sk.Valid() && sk.hashTable == map[] && sk.patternLength > 0
    requires IsPermutation(shuffled1, 1, sk.patternLength) && IsPermutation(shuffled2, 1, sk.patternLength)
    modifies sk`patternMap, sk`rankMap, sk`graph, sk`hashTable
    ensures q == w
  {
    sk.AddEdge(asin1, asin2, w, shuffled1, shuffled2);
    ghost var locs := Pairwise(Pattern(sk.md5, sk.tableSize, sk.patternLength, Str(asin1)),
                                Pattern(sk.md5, sk.tableSize, sk.patternLength, Str(asin2)));
    FirstEdgeWeights(locs, Pairwise(sk.rankMap[asin1], sk.rankMap[asin2]), (asin1, asin2), w);
    assert locs[0] in LocationSet(locs);
    q := sk.EdgeQuery(asin1, asin2);
  }

  /** After `add_edge(asin1, asin2)`, `reachability_query(asin1, asin2)` holds. */
  method AddEdgeThenReach(sk: PRSketch, asin1: string, asin2: string, w: real,
                          shuffled1: seq<nat>, shuffled2: seq<nat>) returns (found: bool)
    requires sk.Valid()
    requires IsPermutation(shuffled1, 1, sk.patternLength) && IsPermutation(shuffled2, 1, sk.patternLength)
    modifies sk`patternMap, sk`rankMap, sk`graph, sk`hashTable
    ensures found
  {
    sk.AddEdge(asin1, asin2, w, shuffled1, shuffled2);
    assert (asin1, asin2) in Edges(sk.graph);
    ReachableRefl(Edges(sk.graph), asin2);
    ReachablePrepend(Edges(sk.graph), asin1, asin2, asin2);
    found := sk.ReachabilityQuery(asin1, asin2);
  }
}
