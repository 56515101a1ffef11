/** `PRSketch` of basepaper/pr_sketch/pr_sketch.py: a `width x width x depth`
    table of cells updated in place by a stream of weighted edges, answering
    edge-weight estimates and reachability over the conflict lists.

    `update` and `reachability_query` convert both ids with `str()` first;
    `edge_query` hashes the ids as given. The columns do not depend on that
    (the digest always hashes `str(node)`), but the rank seed `hash(node)`
    does, so an edge inserted with integer ids is looked up by `edge_query`
    under the rank vectors of the integers, not of their decimal strings. */
module Sketch {
  import opened PyText
  import opened NodeHash
  import opened SketchCell
  import opened SketchTable
  import opened Graphs

  class PRSketch {
    const width: nat
    const depth: nat
    const patternLength: nat
    const conflictLimit: int
    /** The digest `int(md5(text).hexdigest(), 16)`. */
    const md5: string -> nat
    /** Python's `hash(node)`. */
    const pyHash: NodeId -> int
    /** `np.random.permutation(pattern_length)` after `np.random.seed(seed)`. */
    const permutation: nat -> seq<nat>
    /** The table `gM[x, y, layer]`. */
    const gM: array3<Cell>

    /** The configuration: a positive width, at least as many rank positions
        as layers, and a table of the configured shape. */
    ghost predicate Config()
    {
      width > 0 && patternLength >= depth && PermutationsOk(permutation, patternLength)
      && gM.Length0 == width && gM.Length1 == width && gM.Length2 == depth
    }

    ghost predicate Valid()
      reads gM
    {
      Config() && CellsOk(gM, conflictLimit, patternLength)
    }

    /** `__init__`: every cell starts as rank 0, weight 0 and an empty list. */
    constructor (width: nat, depth: nat, patternLength: nat, conflictLimit: int,
                 md5: string -> nat, pyHash: NodeId -> int, permutation: nat -> seq<nat>)
      requires width > 0 && patternLength >= depth
      requires PermutationsOk(permutation, patternLength)
      ensures Valid() && fresh(gM) && AllEmpty(gM)
      ensures this.width == width && this.depth == depth && this.patternLength == patternLength
      ensures this.conflictLimit == conflictLimit
      ensures this.md5 == md5 && this.pyHash == pyHash && this.permutation == permutation
    {
      this.width := width;
      this.depth := depth;
      this.patternLength := patternLength;
      this.conflictLimit := conflictLimit;
      this.md5 := md5;
      this.pyHash := pyHash;
      this.permutation := permutation;
      gM := new Cell[width, width, depth]((x, y, k) => EmptyCell);
    }

    /** `pattern_hash(node)`: the node's column in each layer. */
    function PatternHash(node: NodeId): (p: seq<nat>)
      requires Config()
      ensures PatternsFit(gM, p, p)
    {
      Pattern(md5, width, depth, node)
    }

    /** `rank_hash(node)`: the node's rank vector. */
    function RankHash(node: NodeId): (r: seq<nat>)
      requires Config()
      ensures IsPermutation(r, 0, patternLength) && depth <= |r|
    {
      Rank(pyHash, permutation, patternLength, node)
    }

    /** The combined rank of the edge `source -> dest` at each layer. */
    function Combined(source: NodeId, dest: NodeId): (cr: seq<int>)
      requires Config()
      ensures |cr| == depth && forall k :: 0 <= k < depth ==> 0 <= cr[k] < patternLength
    {
      CombinedRanks(RankHash(source), RankHash(dest), depth)
    }

    /** `update(source, dest, weight)`: after `str()` conversion, layer `k`
        applies the admission rule to cell `(pattern(s)[k], pattern(d)[k], k)`;
        every other cell keeps its value. */
    method Update(source: NodeId, dest: NodeId, weight: real)
      requires Valid()
      modifies gM
      ensures Valid()
      // no cell's rank ever decreases
      ensures forall x, y, k :: InTable(gM, x, y, k) ==> gM[x, y, k].rank >= old(gM[x, y, k].rank)
      ensures var s, d := AsStr(source), AsStr(dest);
              forall x, y, k :: InTable(gM, x, y, k) ==>
                gM[x, y, k] == if x == PatternHash(s)[k] && y == PatternHash(d)[k]
                               then Admit(old(gM[x, y, k]), Combined(s, d)[k], weight, (s, d), conflictLimit)
                               else old(gM[x, y, k])
      ensures var s, d := AsStr(source), AsStr(dest);
              Targets(gM, PatternHash(s), PatternHash(d))
              == AdmitAll(old(Targets(gM, PatternHash(s), PatternHash(d))), Combined(s, d), weight, (s, d), conflictLimit)
    {
      var s, d := AsStr(source), AsStr(dest);
      var sp, dp := PatternHash(s), PatternHash(d);
      var sr, dr := RankHash(s), RankHash(d);
      ApplyEdge(gM, conflictLimit, sp, dp, sr, dr, (s, d), weight);
    }

    /** `edge_query(source, dest)`, on the ids as given: the least weight
        among the layers whose cell holds the edge's combined rank, 0 if none. */
    method EdgeQuery(source: NodeId, dest: NodeId) returns (r: real)
      requires Valid()
      ensures r == Estimate(Targets(gM, PatternHash(source), PatternHash(dest)), Combined(source, dest))
    {
      var sp, dp := PatternHash(source), PatternHash(dest);
      var sr, dr := RankHash(source), RankHash(dest);
      r := QueryLayers(gM, sp, dp, sr, dr);
    }

    /** The evidently intended `edge_query`: both ids converted with `str()`
        first, as `update` does, so an edge is looked up under the rank
        vectors it was stored with. */
    method EdgeQueryOfStr(source: NodeId, dest: NodeId) returns (r: real)
      requires Valid()
      ensures var s, d := AsStr(source), AsStr(dest);
              r == Estimate(Targets(gM, PatternHash(s), PatternHash(d)), Combined(s, d))
    {
      r := EdgeQuery(AsStr(source), AsStr(dest));
    }

    /** `reachability_query(source, dest)`: after `str()` conversion, true
        exactly when `dest` can be reached from `source` along pairs held in
        the conflict lists. */
    method ReachabilityQuery(source: NodeId, dest: NodeId) returns (found: bool, ghost expanded: seq<NodeId>)
      ensures found == Reachable(Pairs(gM), AsStr(source), AsStr(dest))
      // each node is expanded at most once, only reachable nodes are expanded,
      // and a failed search has expanded every reachable node
      ensures forall i, j :: 0 <= i < j < |expanded| ==> expanded[i] != expanded[j]
      ensures forall n :: n in expanded ==> Reachable(Pairs(gM), AsStr(source), n)
      ensures !found ==> forall n :: Reachable(Pairs(gM), AsStr(source), n) ==> n in expanded
    {
      found, expanded := Bfs(gM, AsStr(source), AsStr(dest));
    }
  }

  /** Fresh insert on string ids: when every cell the edge hashes to held a
      lower rank, `edge_query` right after `update` returns the weight. */
  method FreshInsertThenQuery(sk: PRSketch, s: string, d: string, w: real) returns (q: real)
    requires sk.Valid() && sk.depth > 0
    requires forall k :: 0 <= k < sk.depth ==>
               sk.gM[sk.PatternHash(Str(s))[k], sk.PatternHash(Str(d))[k], k].rank < sk.Combined(Str(s), Str(d))[k]
    modifies sk.gM
    ensures q == w
  {
    ghost var before := Targets(sk.gM, sk.PatternHash(Str(s)), sk.PatternHash(Str(d)));
    sk.Update(Str(s), Str(d), w);
    q := sk.EdgeQuery(Str(s), Str(d));
    FreshInsertEstimate(before, sk.Combined(Str(s), Str(d)), w, (Str(s), Str(d)), sk.conflictLimit);
  }

  /** Merge on string ids: two updates of the same fresh edge sum their weights. */
  method RepeatedInsertThenQuery(sk: PRSketch, s: string, d: string, w1: real, w2: real) returns (q: real)
    requires sk.Valid() && sk.depth > 0
    requires forall k :: 0 <= k < sk.depth ==>
               sk.gM[sk.PatternHash(Str(s))[k], sk.PatternHash(Str(d))[k], k].rank < sk.Combined(Str(s), Str(d))[k]
    modifies sk.gM
    ensures q == w1 + w2
  {
    ghost var before := Targets(sk.gM, sk.PatternHash(Str(s)), sk.PatternHash(Str(d)));
    sk.Update(Str(s), Str(d), w1);
    sk.Update(Str(s), Str(d), w2);
    q := sk.EdgeQuery(Str(s), Str(d));
    RepeatedInsertEstimate(before, sk.Combined(Str(s), Str(d)), w1, w2, (Str(s), Str(d)), sk.conflictLimit);
  }

  /** An edge that takes at least one of its cells is followed by
      `reachability_query` right after its `update`. */
  method UpdateThenReach(sk: PRSketch, s: string, d: string, w: real) returns (found: bool)
    requires sk.Valid()
    requires exists k :: 0 <= k < sk.depth &&
               sk.gM[sk.PatternHash(Str(s))[k], sk.PatternHash(Str(d))[k], k].rank < sk.Combined(Str(s), Str(d))[k]
    modifies sk.gM
    ensures found
  {
    ghost var k :| 0 <= k < sk.depth &&
      sk.gM[sk.PatternHash(Str(s))[k], sk.PatternHash(Str(d))[k], k].rank < sk.Combined(Str(s), Str(d))[k];
    sk.Update(Str(s), Str(d), w);
    ghost var x, y := sk.PatternHash(Str(s))[k], sk.PatternHash(Str(d))[k];
    assert (Str(s), Str(d)) in sk.gM[x, y, k].list;
    PairsAreStored(sk.gM, (Str(s), Str(d)));
    ReachableRefl(Pairs(sk.gM), Str(d));
    ReachablePrepend(Pairs(sk.gM), Str(s), Str(d), Str(d));
    ghost var expanded;
    found, expanded := sk.ReachabilityQuery(Str(s), Str(d));
  }

  /** Fresh insert on any ids, queried through the corrected lookup: when
      every cell the edge hashes to held a lower rank, the estimate right
      after `update` is the weight. */
  method FreshInsertThenQueryOfStr(sk: PRSketch, source: NodeId, dest: NodeId, w: real) returns (q: real)
    requires sk.Valid() && sk.depth > 0
    requires var s, d := AsStr(source), AsStr(dest);
             forall k :: 0 <= k < sk.depth ==> sk.gM[sk.PatternHash(s)[k], sk.PatternHash(d)[k], k].rank < sk.Combined(s, d)[k]
    modifies sk.gM
    ensures q == w
  {
    var s, d := AsStr(source), AsStr(dest);
    ghost var before := Targets(sk.gM, sk.PatternHash(s), sk.PatternHash(d));
    sk.Update(source, dest, w);
    q := sk.EdgeQueryOfStr(source, dest);
    FreshInsertEstimate(before, sk.Combined(s, d), w, (s, d), sk.conflictLimit);
  }

  /** Integer ids as written: `update` stores the edge under the rank vectors
      of `"0"` and `"1"`, `edge_query` looks for it under those of `0` and
      `1`. With `hash(i) == i` for integers, as CPython has it, and a string
      hash that seeds another permutation, the only edge ever inserted
      estimates 0, while the corrected lookup finds its weight. */
  method IntIdsMissTheirEdge() returns (asWritten: real, intended: real)
    ensures asWritten == 0.0 && intended == 1.0
  {
    var sk := new PRSketch(1, 1, 2, 3, (t: string) => 0, (n: NodeId) => if n.Int? then n.i else 2,
                           (seed: nat) => if seed == 2 then [1, 0] else [0, 1]);
    assert sk.RankHash(Int(0)) == [0, 1];
    assert sk.RankHash(AsStr(Int(0))) == [1, 0];
    assert sk.Combined(Int(0), Int(1)) == [0];
    assert sk.Combined(AsStr(Int(0)), AsStr(Int(1))) == [1];
    sk.Update(Int(0), Int(1), 1.0);
    assert sk.gM[0, 0, 0].rank == 1;
    asWritten := sk.EdgeQuery(Int(0), Int(1));
    intended := sk.EdgeQueryOfStr(Int(0), Int(1));
  }
}
