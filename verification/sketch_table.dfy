/** The `width x width x depth` table of cells that both copies of
    `PRSketch` keep in a NumPy array, and the loops their `update`,
    `edge_query` and `reachability_query` run over it. */
module SketchTable {
  import opened NodeHash
  import opened SketchCell
  import opened Graphs

  predicate InTable(gM: array3<Cell>, x: int, y: int, k: int)
  {
    0 <= x < gM.Length0 && 0 <= y < gM.Length1 && 0 <= k < gM.Length2
  }

  /** A cell as update keeps it: the conflict list within its bound and the
      rank 0 or a value the rank permutations can produce. */
  predicate CellOk(c: Cell, limit: int, patternLength: nat)
  {
    0 <= c.rank < Max(patternLength, 1) && |c.list| <= ListBound(limit)
  }

  ghost predicate CellsOk(gM: array3<Cell>, limit: int, patternLength: nat)
    reads gM
  {
    forall x, y, k :: InTable(gM, x, y, k) ==> CellOk(gM[x, y, k], limit, patternLength)
  }

  ghost predicate AllEmpty(gM: array3<Cell>)
    reads gM
  {
    forall x, y, k :: InTable(gM, x, y, k) ==> gM[x, y, k] == EmptyCell
  }

  /** Layer `k` of an edge with source pattern `sp` and destination pattern
      `dp` uses cell `(sp[k], dp[k], k)`. */
  predicate PatternsFit(gM: array3<Cell>, sp: seq<nat>, dp: seq<nat>)
  {
    |sp| == gM.Length2 && |dp| == gM.Length2
    && forall k :: 0 <= k < gM.Length2 ==> sp[k] < gM.Length0 && dp[k] < gM.Length1
  }

  /** The cells an edge hashes to, one per layer. */
  ghost function Targets(gM: array3<Cell>, sp: seq<nat>, dp: seq<nat>): (cs: seq<Cell>)
    reads gM
    requires PatternsFit(gM, sp, dp)
    ensures |cs| == gM.Length2
    ensures forall k :: 0 <= k < gM.Length2 ==> cs[k] == gM[sp[k], dp[k], k]
  {
    seq(gM.Length2, k requires 0 <= k < gM.Length2 reads gM => gM[sp[k], dp[k], k])
  }

  /** The per-layer loop of `update`: layer `k` applies the admission rule to
      its one target cell with the combined rank `min(sr[k], dr[k])`, and no
      other cell changes. */
  method ApplyEdge(gM: array3<Cell>, limit: int, sp: seq<nat>, dp: seq<nat>, sr: seq<nat>, dr: seq<nat>,
                   e: Edge, weight: real)
    requires PatternsFit(gM, sp, dp)
    requires gM.Length2 <= |sr| && gM.Length2 <= |dr|
    modifies gM
    ensures forall x, y, k :: InTable(gM, x, y, k) ==>
              gM[x, y, k] == if x == sp[k] && y == dp[k]
                             then Admit(old(gM[x, y, k]), Min(sr[k], dr[k]), weight, e, limit)
                             else old(gM[x, y, k])
    ensures Targets(gM, sp, dp)
            == AdmitAll(old(Targets(gM, sp, dp)), CombinedRanks(sr, dr, gM.Length2), weight, e, limit)
  {
    var i := 0;
    while i < gM.Length2
      invariant 0 <= i <= gM.Length2
      invariant forall x, y, k :: InTable(gM, x, y, k) ==>
                  gM[x, y, k] == if k < i && x == sp[k] && y == dp[k]
                                 then Admit(old(gM[x, y, k]), Min(sr[k], dr[k]), weight, e, limit)
                                 else old(gM[x, y, k])
    {
      var x, y := sp[i], dp[i];
      var rankVal := Min(sr[i], dr[i]);
      var cell := gM[x, y, i];
      if rankVal > cell.rank {
        gM[x, y, i] := Cell(rankVal, weight, [e]);
      } else if rankVal == cell.rank {
        gM[x, y, i] := cell.(weight := cell.weight + weight);
      } else if |cell.list| < limit {
        gM[x, y, i] := cell.(list := cell.list + [e]);
      }
      i := i + 1;
    }
  }

  /** The accumulator loop of `edge_query`: a layer votes when its cell's
      rank equals the combined rank, and the answer is the least voting
      weight, or 0 when no layer votes. */
  method QueryLayers(gM: array3<Cell>, sp: seq<nat>, dp: seq<nat>, sr: seq<nat>, dr: seq<nat>) returns (r: real)
    requires PatternsFit(gM, sp, dp)
    requires gM.Length2 <= |sr| && gM.Length2 <= |dr|
    ensures r == Estimate(Targets(gM, sp, dp), CombinedRanks(sr, dr, gM.Length2))
  {
    ghost var cells := Targets(gM, sp, dp);
    ghost var ranks := CombinedRanks(sr, dr, gM.Length2);
    // `min_weight` starts at infinity in the source; `found` says whether it was ever lowered
    var minWeight: real := 0.0;
    var found := false;
    var i := 0;
    while i < gM.Length2
      invariant 0 <= i <= gM.Length2
      invariant found == MinVote(cells[..i], ranks[..i]).Some?
      invariant found ==> minWeight == MinVote(cells[..i], ranks[..i]).value
    {
      var cell := gM[sp[i], dp[i], i];
      assert cells[..i + 1] == cells[..i] + [cell] && ranks[..i + 1] == ranks[..i] + [ranks[i]];
      assert cells[..i + 1][..i] == cells[..i] && ranks[..i + 1][..i] == ranks[..i];
      if Min(sr[i], dr[i]) == cell.rank {
        minWeight := if found && minWeight <= cell.weight then minWeight else cell.weight;
        found := true;
      }
      i := i + 1;
    }
    assert cells[..gM.Length2] == cells && ranks[..gM.Length2] == ranks;
    r := if found then minWeight else 0.0;
  }

  // ---------------------------------------------------------------------------
  // The edges held in conflict lists, the graph `reachability_query` walks.

  function Elems(list: seq<Edge>): set<Edge> { set p | p in list }

  /** The pairs in the lists of cells `(x, 0, k) .. (x, y - 1, k)`. */
  ghost function RowPairs(gM: array3<Cell>, k: nat, x: nat, y: nat): set<Edge>
    reads gM
    requires k < gM.Length2 && x < gM.Length0 && y <= gM.Length1
  {
    if y == 0 then {} else RowPairs(gM, k, x, y - 1) + Elems(gM[x, y - 1, k].list)
  }

  /** The pairs in the lists of rows `0 .. x - 1` of layer `k`. */
  ghost function PlanePairs(gM: array3<Cell>, k: nat, x: nat): set<Edge>
    reads gM
    requires k < gM.Length2 && x <= gM.Length0
  {
    if x == 0 then {} else PlanePairs(gM, k, x - 1) + RowPairs(gM, k, x - 1, gM.Length1)
  }

  /** The pairs in the lists of layers `0 .. k - 1`. */
  ghost function LayerPairs(gM: array3<Cell>, k: nat): set<Edge>
    reads gM
    requires k <= gM.Length2
  {
    if k == 0 then {} else LayerPairs(gM, k - 1) + PlanePairs(gM, k - 1, gM.Length0)
  }

  /** Every pair held in any conflict list of the table. */
  ghost function Pairs(gM: array3<Cell>): set<Edge>
    reads gM
  {
    LayerPairs(gM, gM.Length2)
  }

  lemma {:induction false} RowPairsHolds(gM: array3<Cell>, k: nat, x: nat, y: nat, p: Edge)
    requires k < gM.Length2 && x < gM.Length0 && y <= gM.Length1
    ensures p in RowPairs(gM, k, x, y) <==> exists y' :: 0 <= y' < y && p in gM[x, y', k].list
  {
    if y > 0 {
      RowPairsHolds(gM, k, x, y - 1, p);
    }
  }

  lemma {:induction false} PlanePairsHolds(gM: array3<Cell>, k: nat, x: nat, p: Edge)
    requires k < gM.Length2 && x <= gM.Length0
    ensures p in PlanePairs(gM, k, x) <==>
            exists x', y' :: 0 <= x' < x && 0 <= y' < gM.Length1 && p in gM[x', y', k].list
  {
    if x > 0 {
      PlanePairsHolds(gM, k, x - 1, p);
      RowPairsHolds(gM, k, x - 1, gM.Length1, p);
    }
  }

  lemma {:induction false} LayerPairsHolds(gM: array3<Cell>, k: nat, p: Edge)
    requires k <= gM.Length2
    ensures p in LayerPairs(gM, k) <==>
            exists x, y, k' :: 0 <= k' < k && InTable(gM, x, y, k') && p in gM[x, y, k'].list
  {
    if k > 0 {
      LayerPairsHolds(gM, k - 1, p);
      PlanePairsHolds(gM, k - 1, gM.Length0, p);
    }
  }

  /** `Pairs` is exactly the set of pairs stored in some cell's conflict list. */
  lemma PairsAreStored(gM: array3<Cell>, p: Edge)
    ensures p in Pairs(gM) <==> exists x, y, k :: InTable(gM, x, y, k) && p in gM[x, y, k].list
  {
    LayerPairsHolds(gM, gM.Length2, p);
  }

  /** The neighbour scan of `reachability_query`: every `pair[1]` of a pair
      whose `pair[0]` is `node`, over all layers, rows, columns and lists. */
  method ScanPairs(gM: array3<Cell>, node: NodeId) returns (ns: seq<NodeId>)
    ensures forall m :: m in ns <==> (node, m) in Pairs(gM)
  {
    ns := [];
    var i := 0;
    while i < gM.Length2
      invariant 0 <= i <= gM.Length2
      invariant forall m :: m in ns <==> (node, m) in LayerPairs(gM, i)
    {
      var x := 0;
      while x < gM.Length0
        invariant 0 <= x <= gM.Length0
        invariant forall m :: m in ns <==> (node, m) in LayerPairs(gM, i) + PlanePairs(gM, i, x)
      {
        var y := 0;
        while y < gM.Length1
          invariant 0 <= y <= gM.Length1
          invariant forall m :: m in ns <==>
                      (node, m) in LayerPairs(gM, i) + PlanePairs(gM, i, x) + RowPairs(gM, i, x, y)
        {
          var list := gM[x, y, i].list;
          var j := 0;
          while j < |list|
            invariant 0 <= j <= |list|
            invariant forall m :: m in ns <==>
                        (node, m) in LayerPairs(gM, i) + PlanePairs(gM, i, x) + RowPairs(gM, i, x, y)
                                     + Elems(list[..j])
          {
            // every stored pair is a 2-tuple, so `len(pair) >= 2` holds
            assert list[..j + 1] == list[..j] + [list[j]];
            if list[j].0 == node {
              ns := ns + [list[j].1];
            }
            j := j + 1;
          }
          assert list[..|list|] == list;
          y := y + 1;
        }
        x := x + 1;
      }
      i := i + 1;
    }
  }

  function Firsts(E: set<Edge>): set<NodeId> { set p | p in E :: p.0 }

  /** The breadth-first search of `reachability_query` over the pairs held in
      conflict lists: true exactly when `dest` is reachable from `source`
      along those pairs (or is `source`). `expanded` lists the nodes whose
      neighbours were scanned, in order: no node is scanned twice, only
      reachable nodes are scanned, and a search that fails has scanned every
      node reachable from `source`. */
  method Bfs(gM: array3<Cell>, source: NodeId, dest: NodeId) returns (found: bool, ghost expanded: seq<NodeId>)
    ensures found == Reachable(Pairs(gM), source, dest)
    ensures forall i, j :: 0 <= i < j < |expanded| ==> expanded[i] != expanded[j]
    ensures forall n :: n in expanded ==> Reachable(Pairs(gM), source, n)
    ensures !found ==> forall n :: Reachable(Pairs(gM), source, n) ==> n in expanded
  {
    ghost var E := Pairs(gM);
    var visited: set<NodeId> := {};
    var queue: seq<NodeId> := [source];
    expanded := [];
    ReachableRefl(E, source);
    while queue != []
      invariant forall n :: n in queue ==> Reachable(E, source, n)
      invariant forall n :: n in visited ==> Reachable(E, source, n)
      invariant source in visited || source in queue
      invariant dest !in visited
      invariant forall n, m :: n in visited && (n, m) in E ==> m in visited || m in queue
      invariant forall n :: n in expanded <==> n in visited
      invariant forall i, j :: 0 <= i < j < |expanded| ==> expanded[i] != expanded[j]
      decreases Firsts(E) - visited, |queue|
    {
      var node := queue[0];
      queue := queue[1..];
      if node == dest {
        return true, expanded;
      }
      if node in visited {
        continue;
      }
      visited := visited + {node};
      expanded := expanded + [node];
      var ns := ScanPairs(gM, node);
      forall m | m in ns ensures Reachable(E, source, m) {
        ReachableStep(E, source, node, m);
      }
      if ns != [] {
        // a node with a neighbour is the first component of a pair
        assert (node, ns[0]) in E && node in Firsts(E);
      }
      queue := queue + ns;
    }
    ClosedSetSeparates(E, visited, source, dest);
    forall n | Reachable(E, source, n) ensures n in expanded {
      if n !in visited {
        ClosedSetSeparates(E, visited, source, n);
      }
    }
    return false, expanded;
  }
}
