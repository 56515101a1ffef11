/** One cell of the PR-Sketch table, the per-layer admission rule that
    `update` applies to it, and the count-min style estimate that
    `edge_query` draws from the cells an edge hashes to. */
module SketchCell {
  import opened PyText
  import opened NodeHash

  type Edge = (NodeId, NodeId)

  /** A cell: the rank of its occupant (0 while empty), the accumulated
      weight, and the conflict list. The occupant itself is the first entry
      of the list after an eviction. */
  datatype Cell = Cell(rank: int, weight: real, list: seq<Edge>)

  const EmptyCell := Cell(0, 0.0, [])

  function Max(a: int, b: int): int { if a >= b then a else b }

  /** How long a conflict list may grow: appends stop at `limit`, but an
      eviction always installs a one-entry list, even for `limit <= 0`. */
  function ListBound(limit: int): nat { Max(limit, 1) }

  /** The rule one layer of `update` applies to its cell for an edge `e` of
      combined rank `rankVal`: a higher rank evicts the occupant, an equal
      rank adds to the weight, a lower rank is appended to the conflict
      list while it is shorter than `limit`. */
  function Admit(c: Cell, rankVal: int, weight: real, e: Edge, limit: int): (c': Cell)
    // the stored rank never decreases and afterwards covers the edge's rank
    ensures c'.rank == Max(c.rank, rankVal)
    // the conflict list never outgrows its bound
    ensures |c.list| <= ListBound(limit) ==> |c'.list| <= ListBound(limit)
    // after the step the cell votes for this rank only as the edge's own cell:
    // either it was just taken over, or it already held that rank and grew by `weight`
    ensures c'.rank == rankVal ==>
              (c.rank < rankVal && c' == Cell(rankVal, weight, [e]))
              || (c.rank == rankVal && c'.weight == c.weight + weight && c'.list == c.list)
    // a losing edge changes nothing but the tail of the conflict list
    ensures rankVal < c.rank ==>
              c'.rank == c.rank && c'.weight == c.weight
              && c'.list == (if |c.list| < limit then c.list + [e] else c.list)
  {
    if rankVal > c.rank then Cell(rankVal, weight, [e])
    else if rankVal == c.rank then c.(weight := c.weight + weight)
    else if |c.list| < limit then c.(list := c.list + [e])
    else c
  }

  /** `Admit` applied to each layer's cell with that layer's combined rank. */
  function AdmitAll(cells: seq<Cell>, ranks: seq<int>, weight: real, e: Edge, limit: int): (cs: seq<Cell>)
    requires |cells| == |ranks|
    ensures |cs| == |cells|
    ensures forall k :: 0 <= k < |cells| ==> cs[k] == Admit(cells[k], ranks[k], weight, e, limit)
  {
    seq(|cells|, k requires 0 <= k < |cells| => Admit(cells[k], ranks[k], weight, e, limit))
  }

  /** Any run of admissions keeps the conflict list within its bound and the rank monotone. */
  lemma {:induction false} AdmitsKeepBound(c: Cell, ranks: seq<int>, weights: seq<real>, es: seq<Edge>, limit: int)
    requires |ranks| == |weights| == |es|
    requires |c.list| <= ListBound(limit)
    ensures var c' := AdmitSeq(c, ranks, weights, es, limit);
            |c'.list| <= ListBound(limit) && c'.rank >= c.rank
            && forall k :: 0 <= k < |ranks| ==> c'.rank >= ranks[k]
  {
    if |ranks| > 0 {
      var n := |ranks| - 1;
      AdmitsKeepBound(c, ranks[..n], weights[..n], es[..n], limit);
    }
  }

  /** The cell after a sequence of admissions, oldest first. */
  function AdmitSeq(c: Cell, ranks: seq<int>, weights: seq<real>, es: seq<Edge>, limit: int): Cell
    requires |ranks| == |weights| == |es|
  {
    if |ranks| == 0 then c
    else
      var n := |ranks| - 1;
      Admit(AdmitSeq(c, ranks[..n], weights[..n], es[..n], limit), ranks[n], weights[n], es[n], limit)
  }

  /** Until an eviction, the conflict list only grows at its end. */
  lemma ConflictListIsAppendOnly(c: Cell, rankVal: int, weight: real, e: Edge, limit: int)
    requires rankVal <= c.rank
    ensures var c' := Admit(c, rankVal, weight, e, limit);
            |c.list| <= |c'.list| && c'.list[..|c.list|] == c.list
  {
  }

  /** Two admissions of the same edge into a cell of lower rank: the first
      takes the cell, the second ties and the weights add up. */
  lemma TwoAdmissionsSum(c: Cell, rankVal: int, w1: real, w2: real, e: Edge, limit: int)
    requires c.rank < rankVal
    ensures Admit(Admit(c, rankVal, w1, e, limit), rankVal, w2, e, limit) == Cell(rankVal, w1 + w2, [e])
  {
  }

  /** The vote of the first `|cells|` layers: None when no layer's stored
      rank equals the edge's combined rank there, otherwise the least stored
      weight among the layers that do. */
  function MinVote(cells: seq<Cell>, ranks: seq<int>): (v: Option<real>)
    requires |cells| == |ranks|
    ensures v.None? <==> forall k :: 0 <= k < |cells| ==> ranks[k] != cells[k].rank
    ensures v.Some? ==> exists k :: 0 <= k < |cells| && ranks[k] == cells[k].rank && v.value == cells[k].weight
    ensures v.Some? ==> forall k :: 0 <= k < |cells| && ranks[k] == cells[k].rank ==> v.value <= cells[k].weight
  {
    if |cells| == 0 then None
    else
      var n := |cells| - 1;
      var prev := MinVote(cells[..n], ranks[..n]);
      assert forall k :: 0 <= k < n ==> cells[..n][k] == cells[k] && ranks[..n][k] == ranks[k];
      if ranks[n] == cells[n].rank then
        Some(if prev.Some? && prev.value <= cells[n].weight then prev.value else cells[n].weight)
      else prev
  }

  /** The `edge_query` answer for the given target cells: 0 when no layer votes. */
  function Estimate(cells: seq<Cell>, ranks: seq<int>): (r: real)
    requires |cells| == |ranks|
    ensures (forall k :: 0 <= k < |cells| ==> ranks[k] != cells[k].rank) ==> r == 0.0
    ensures (exists k :: 0 <= k < |cells| && ranks[k] == cells[k].rank) ==>
              (exists k :: 0 <= k < |cells| && ranks[k] == cells[k].rank && r == cells[k].weight)
              && forall k :: 0 <= k < |cells| && ranks[k] == cells[k].rank ==> r <= cells[k].weight
  {
    match MinVote(cells, ranks)
    case None => 0.0
    case Some(w) => w
  }

  /** When every layer votes with the same weight, that weight is the estimate. */
  lemma EstimateUniform(cells: seq<Cell>, ranks: seq<int>, w: real)
    requires |cells| == |ranks| > 0
    requires forall k :: 0 <= k < |cells| ==> cells[k].rank == ranks[k] && cells[k].weight == w
    ensures Estimate(cells, ranks) == w
  {
  }

  /** Zero evidence: cells that nothing was ever admitted to estimate 0. */
  lemma EstimateOfEmptyCells(cells: seq<Cell>, ranks: seq<int>)
    requires |cells| == |ranks|
    requires forall k :: 0 <= k < |cells| ==> cells[k] == EmptyCell
    ensures Estimate(cells, ranks) == 0.0
  {
  }

  /** Fresh insert: when every target cell held a lower rank, the edge takes
      all of them and the estimate is exactly its weight. */
  lemma FreshInsertEstimate(cells: seq<Cell>, ranks: seq<int>, w: real, e: Edge, limit: int)
    requires |cells| == |ranks| > 0
    requires forall k :: 0 <= k < |cells| ==> cells[k].rank < ranks[k]
    ensures Estimate(AdmitAll(cells, ranks, w, e, limit), ranks) == w
  {
  }

  /** Merge: a second insert of the same edge, with no eviction in between,
      adds its weight to the first. */
  lemma RepeatedInsertEstimate(cells: seq<Cell>, ranks: seq<int>, w1: real, w2: real, e: Edge, limit: int)
    requires |cells| == |ranks| > 0
    requires forall k :: 0 <= k < |cells| ==> cells[k].rank < ranks[k]
    ensures Estimate(AdmitAll(AdmitAll(cells, ranks, w1, e, limit), ranks, w2, e, limit), ranks) == w1 + w2
  {
  }

  /** Eviction is lossy: once a higher-ranked edge takes a layer's cell, that
      layer stops voting for an edge of lower combined rank. */
  lemma EvictionSilencesLayer(c: Cell, lower: int, higher: int, w: real, e: Edge, limit: int)
    requires lower < higher
    ensures Admit(c, higher, w, e, limit).rank != lower
  {
  }
}
