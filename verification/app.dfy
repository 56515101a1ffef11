/** `PRSketch` of app.py: the same table and admission rule as
    basepaper/pr_sketch/pr_sketch.py, with ids hashed as given by every
    operation (no `str()` conversion), a reachability scan that walks cell
    lists rather than the pairs inside them, and the decoder of the
    web-NotreDame edge list that feeds `update`. */
module App {
  import opened PyText
  import opened NodeHash
  import opened SketchCell
  import opened SketchTable
  import opened Graphs

  /** The Python objects the reachability queue can hold: a node id, or a
      whole `(source, dest)` tuple taken from a conflict list. */
  datatype PyObj = Id(id: NodeId) | Tuple(pair: Edge)

  /** Cell `(x, y, k)` holds at least two pairs, the first being `a` and the
      second `b`: what the as-written scan reads from a cell's list. */
  ghost predicate ListHeads(gM: array3<Cell>, x: int, y: int, k: int, a: Edge, b: Edge)
    reads gM
  {
    InTable(gM, x, y, k) && |gM[x, y, k].list| >= 2 && gM[x, y, k].list[0] == a && gM[x, y, k].list[1] == b
  }

  class PRSketch {
    const width: nat
    const depth: nat
    const patternLength: nat
    const conflictLimit: int
    /** The digest `int(md5(text).hexdigest(), 16)`. */
    const md5: string -> nat
    /** Python's `hash(node)`. */
    const pyHash: NodeId -> int
    /** `np.random.permutation(pattern_length)` after `np.random.seed(seed)`. */
    const permutation: nat -> seq<nat>
    /** The table `gM[x, y, layer]`. */
    const gM: array3<Cell>

    ghost predicate Config()
    {
      width > 0 && patternLength >= depth && PermutationsOk(permutation, patternLength)
      && gM.Length0 == width && gM.Length1 == width && gM.Length2 == depth
    }

    ghost predicate Valid()
      reads gM
    {
      Config() && CellsOk(gM, conflictLimit, patternLength)
    }

    /** `__init__`: every cell starts as rank 0, weight 0 and an empty list. */
    constructor (width: nat, depth: nat, patternLength: nat, conflictLimit: int,
                 md5: string -> nat, pyHash: NodeId -> int, permutation: nat -> seq<nat>)
      requires width > 0 && patternLength >= depth
      requires PermutationsOk(permutation, patternLength)
      ensures Valid() && fresh(gM) && AllEmpty(gM)
      ensures this.width == width && this.depth == depth && this.patternLength == patternLength
      ensures this.conflictLimit == conflictLimit
      ensures this.md5 == md5 && this.pyHash == pyHash && this.permutation == permutation
    {
      this.width := width;
      this.depth := depth;
      this.patternLength := patternLength;
      this.conflictLimit := conflictLimit;
      this.md5 := md5;
      this.pyHash := pyHash;
      this.permutation := permutation;
      gM := new Cell[width, width, depth]((x, y, k) => EmptyCell);
    }

    /** `pattern_hash(node)`: the node's column in each layer. */
    function PatternHash(node: NodeId): (p: seq<nat>)
      requires Config()
      ensures PatternsFit(gM, p, p)
    {
      Pattern(md5, width, depth, node)
    }

    /** `rank_hash(node)`: the node's rank vector. */
    function RankHash(node: NodeId): (r: seq<nat>)
      requires Config()
      ensures IsPermutation(r, 0, patternLength) && depth <= |r|
    {
      Rank(pyHash, permutation, patternLength, node)
    }

    /** The combined rank of the edge `source -> dest` at each layer. */
    function Combined(source: NodeId, dest: NodeId): (cr: seq<int>)
      requires Config()
      ensures |cr| == depth && forall k :: 0 <= k < depth ==> 0 <= cr[k] < patternLength
    {
      CombinedRanks(RankHash(source), RankHash(dest), depth)
    }

    /** The cells the edge `source -> dest` hashes to, one per layer. */
    ghost function EdgeCells(source: NodeId, dest: NodeId): (cs: seq<Cell>)
      reads gM
      requires Config()
      ensures |cs| == depth
    {
      Targets(gM, PatternHash(source), PatternHash(dest))
    }

    /** Cell `(x, y, k)` after one `update(e.0, e.1, weight)`: the admission
        rule when the edge hashes to this cell, no change otherwise. */
    ghost function CellStep(c: Cell, x: int, y: int, k: int, e: Edge, weight: real): Cell
      requires Config() && 0 <= k < depth
    {
      if x == PatternHash(e.0)[k] && y == PatternHash(e.1)[k]
      then Admit(c, Combined(e.0, e.1)[k], weight, e, conflictLimit)
      else c
    }

    /** Cell `(x, y, k)`, starting from `c`, after `update(s, d, 1.0)` for
        every edge `(s, d)` of `edges`, in order. */
    ghost function CellAfter(c: Cell, x: int, y: int, k: int, edges: seq<Edge>): (r: Cell)
      requires Config() && 0 <= k < depth
      ensures r.rank >= c.rank
      decreases |edges|
    {
      if edges == [] then c
      else CellStep(CellAfter(c, x, y, k, edges[..|edges| - 1]), x, y, k, edges[|edges| - 1], 1.0)
    }

    lemma CellAfterSnoc(c: Cell, x: int, y: int, k: int, edges: seq<Edge>, e: Edge)
      requires Config() && 0 <= k < depth
      ensures CellAfter(c, x, y, k, edges + [e]) == CellStep(CellAfter(c, x, y, k, edges), x, y, k, e, 1.0)
    {
      assert (edges + [e])[..|edges|] == edges;
    }

    /** Loading two batches of edges one after the other leaves every cell
        as loading their concatenation does. */
    lemma {:induction false} CellAfterAppend(c: Cell, x: int, y: int, k: int, a: seq<Edge>, b: seq<Edge>)
      requires Config() && 0 <= k < depth
      ensures CellAfter(c, x, y, k, a + b) == CellAfter(CellAfter(c, x, y, k, a), x, y, k, b)
      decreases |b|
    {
      if b != [] {
        var n := |b| - 1;
        assert (a + b)[..|a + b| - 1] == a + b[..n];
        assert (a + b)[|a + b| - 1] == b[n];
        CellAfterAppend(c, x, y, k, a, b[..n]);
        calc {
          CellAfter(c, x, y, k, a + b);
          CellStep(CellAfter(c, x, y, k, a + b[..n]), x, y, k, b[n], 1.0);
          CellStep(CellAfter(CellAfter(c, x, y, k, a), x, y, k, b[..n]), x, y, k, b[n], 1.0);
          CellAfter(CellAfter(c, x, y, k, a), x, y, k, b);
        }
      } else {
        assert a + b == a;
      }
    }

    /** A cell that none of the edges hashes to keeps its value. */
    lemma {:induction false} CellAfterUntouched(c: Cell, x: int, y: int, k: int, edges: seq<Edge>)
      requires Config() && 0 <= k < depth
      requires forall i :: 0 <= i < |edges| ==>
                 x != PatternHash(edges[i].0)[k] || y != PatternHash(edges[i].1)[k]
      ensures CellAfter(c, x, y, k, edges) == c
      decreases |edges|
    {
      if edges != [] {
        CellAfterUntouched(c, x, y, k, edges[..|edges| - 1]);
      }
    }

    /** `update(source, dest, weight)`: layer `k` applies the admission rule
        to cell `(pattern(source)[k], pattern(dest)[k], k)`; every other cell
        keeps its value. */
    method Update(source: NodeId, dest: NodeId, weight: real)
      requires Valid()
      modifies gM
      ensures Valid()
      // no cell's rank ever decreases
      ensures forall x, y, k :: InTable(gM, x, y, k) ==> gM[x, y, k].rank >= old(gM[x, y, k].rank)
      ensures forall x, y, k :: InTable(gM, x, y, k) ==>
                gM[x, y, k] == CellStep(old(gM[x, y, k]), x, y, k, (source, dest), weight)
      ensures EdgeCells(source, dest)
              == AdmitAll(old(EdgeCells(source, dest)), Combined(source, dest), weight, (source, dest), conflictLimit)
    {
      var sp, dp := PatternHash(source), PatternHash(dest);
      var sr, dr := RankHash(source), RankHash(dest);
      ApplyEdge(gM, conflictLimit, sp, dp, sr, dr, (source, dest), weight);
    }

    /** One record line of `load_web_notredame`: `update(e.0, e.1, 1.0)`
        with only its per-cell effect and the invariant in view. */
    method LoadEdge(e: Edge)
      requires Valid()
      modifies gM
      ensures Valid()
      ensures forall x, y, k :: InTable(gM, x, y, k) ==> gM[x, y, k] == CellStep(old(gM[x, y, k]), x, y, k, e, 1.0)
    {
      Update(e.0, e.1, 1.0);
    }

    /** `edge_query(source, dest)`: the least weight among the layers whose
        cell holds the edge's combined rank, 0 if none. */
    method EdgeQuery(source: NodeId, dest: NodeId) returns (r: real)
      requires Valid()
      ensures r == Estimate(EdgeCells(source, dest), Combined(source, dest))
    {
      var sp, dp := PatternHash(source), PatternHash(dest);
      var sr, dr := RankHash(source), RankHash(dest);
      r := QueryLayers(gM, sp, dp, sr, dr);
    }

    /** The neighbour scan of `reachability_query` as written: the inner loop
        binds each cell's whole list and compares the list's first entry, a
        `(source, dest)` tuple, with the node; what it collects is the list's
        second entry, again a tuple. So an id never matches. */
    method ScanCellLists(node: PyObj) returns (ns: seq<PyObj>)
      ensures forall o :: o in ns <==>
                node.Tuple? && o.Tuple? && exists x, y, k :: ListHeads(gM, x, y, k, node.pair, o.pair)
      ensures node.Id? ==> ns == []
    {
      ns := [];
      var i := 0;
      while i < gM.Length2
        invariant 0 <= i <= gM.Length2
        invariant forall o :: o in ns <==>
                    node.Tuple? && o.Tuple? && exists x, y, k :: k < i && ListHeads(gM, x, y, k, node.pair, o.pair)
      {
        var neighbours: seq<PyObj> := [];
        var x := 0;
        while x < gM.Length0
          invariant 0 <= x <= gM.Length0
          invariant forall o :: o in neighbours <==>
                      node.Tuple? && o.Tuple? && exists x', y' :: x' < x && ListHeads(gM, x', y', i, node.pair, o.pair)
        {
          var y := 0;
          while y < gM.Length1
            invariant 0 <= y <= gM.Length1
            invariant forall o :: o in neighbours <==>
                        node.Tuple? && o.Tuple? &&
                        exists x', y' :: (x' < x || (x' == x && y' < y)) && ListHeads(gM, x', y', i, node.pair, o.pair)
          {
            var list := gM[x, y, i].list;
            ghost var prev := neighbours;
            if |list| >= 2 && Tuple(list[0]) == node {
              neighbours := neighbours + [Tuple(list[1])];
            }
            // the cells scanned so far are the earlier ones plus `(x, y, i)`
            assert forall o: PyObj | node.Tuple? && o.Tuple? ::
              (exists x', y' :: (x' < x || (x' == x && y' < y + 1)) && ListHeads(gM, x', y', i, node.pair, o.pair))
              <==> (o in prev || ListHeads(gM, x, y, i, node.pair, o.pair));
            y := y + 1;
          }
          x := x + 1;
        }
        ns := ns + neighbours;
        i := i + 1;
      }
      if ns != [] {
        assert ns[0] in ns;
      }
    }

    /** `reachability_query(source, dest)` as written: since the scan never
        yields a neighbour of an id, the answer is just `source == dest`. */
    method ReachabilityQuery(source: NodeId, dest: NodeId) returns (found: bool)
      ensures found == (source == dest)
    {
      var visited: set<PyObj> := {};
      var queue: seq<PyObj> := [Id(source)];
      while queue != []
        invariant (visited == {} && queue == [Id(source)])
                  || (visited == {Id(source)} && queue == [] && source != dest)
        decreases {Id(source)} - visited, |queue|
      {
        var node := queue[0];
        queue := queue[1..];
        if node == Id(dest) {
          return true;
        }
        if node in visited {
          continue;
        }
        visited := visited + {node};
        var ns := ScanCellLists(node);
        queue := queue + ns;
      }
      return false;
    }

    /** The evidently intended query: breadth-first search over the pairs
        inside the conflict lists, as basepaper/pr_sketch/pr_sketch.py does. */
    method ReachabilityQueryByPairs(source: NodeId, dest: NodeId) returns (found: bool, ghost expanded: seq<NodeId>)
      ensures found == Reachable(Pairs(gM), source, dest)
      ensures forall i, j :: 0 <= i < j < |expanded| ==> expanded[i] != expanded[j]
      ensures forall n :: n in expanded ==> Reachable(Pairs(gM), source, n)
      ensures !found ==> forall n :: Reachable(Pairs(gM), source, n) ==> n in expanded
    {
      found, expanded := Bfs(gM, source, dest);
    }

    /** `load_web_notredame` over the lines of the file: comment lines and
        lines that are not two fields are skipped, every other line is one
        `update(int(a), int(b), 1.0)`, and a field `int()` rejects stops the
        load with the updates before it kept. `inserted` lists the edges
        passed to `update`, in order. */
    method LoadWebNotreDame(lines: seq<string>) returns (failed: bool, ghost inserted: seq<Edge>)
      requires Valid()
      modifies gM
      ensures Valid()
      ensures forall x, y, k :: InTable(gM, x, y, k) ==> gM[x, y, k].rank >= old(gM[x, y, k].rank)
      ensures failed == exists i :: 0 <= i < |lines| && DecodeLine(lines[i]).Invalid?
      ensures inserted == EdgesBeforeFailure(lines)
      // the table is the old table after `update(s, d, 1.0)` for each inserted edge, in order
      ensures forall x, y, k :: InTable(gM, x, y, k) ==>
                gM[x, y, k] == CellAfter(old(gM[x, y, k]), x, y, k, inserted)
    {
      inserted := [];
      var i := 0;
      while i < |lines|
        invariant 0 <= i <= |lines|
        invariant Valid()
        invariant forall j :: 0 <= j < i ==> !DecodeLine(lines[j]).Invalid?
        invariant inserted == EdgesBeforeFailure(lines[..i])
        invariant forall x, y, k :: InTable(gM, x, y, k) ==>
                    gM[x, y, k] == CellAfter(old(gM[x, y, k]), x, y, k, inserted)
      {
        assert lines[..i + 1][..i] == lines[..i];
        label before:
        match DecodeLine(lines[i]) {
          case Skip =>
          case Invalid =>
            EdgesStopAtFailure(lines, i);
            return true, inserted;
          case Record(a, b) =>
            var e := (Int(a), Int(b));
            LoadEdge(e);
            forall x, y, k | InTable(gM, x, y, k)
              ensures gM[x, y, k] == CellAfter(old(gM[x, y, k]), x, y, k, inserted + [e])
            {
              CellAfterSnoc(old(gM[x, y, k]), x, y, k, inserted, e);
              assert old@before(gM[x, y, k]) == CellAfter(old(gM[x, y, k]), x, y, k, inserted);
            }
            inserted := inserted + [e];
        }
        i := i + 1;
      }
      assert lines[..|lines|] == lines;
      return false, inserted;
    }
  }

  /** What `load_web_notredame` does with one line of the file. */
  datatype LineAction = Skip | Record(source: int, dest: int) | Invalid

  /** The per-line rule: a line starting with `#` is a comment; otherwise
      the line must split into exactly two whitespace-separated fields, each
      of which `int()` must accept. */
  function DecodeLine(line: string): (a: LineAction)
    ensures StartsWith(line, "#") ==> a == Skip
    ensures a.Record? <==> !StartsWith(line, "#") && |Split(line)| == 2
                           && ParseInt(Split(line)[0]).Some? && ParseInt(Split(line)[1]).Some?
    ensures a.Record? ==> Some(a.source) == ParseInt(Split(line)[0]) && Some(a.dest) == ParseInt(Split(line)[1])
    ensures a.Invalid? <==> !StartsWith(line, "#") && |Split(line)| == 2
                            && (ParseInt(Split(line)[0]).None? || ParseInt(Split(line)[1]).None?)
  {
    if StartsWith(line, "#") then Skip
    else
      var parts := Split(line);
      if |parts| != 2 then Skip
      else
        match (ParseInt(parts[0]), ParseInt(parts[1]))
        case (Some(a), Some(b)) => Record(a, b)
        case _ => Invalid
  }

  /** The edges the lines before the first rejected one pass to `update`. */
  function EdgesBeforeFailure(lines: seq<string>): (r: seq<Edge>)
    ensures |r| <= |lines|
    ensures forall m :: 0 <= m < |r| ==> r[m].0.Int? && r[m].1.Int?
  {
    if |lines| == 0 then []
    else
      var n := |lines| - 1;
      var prefix := EdgesBeforeFailure(lines[..n]);
      if exists j :: 0 <= j < n && DecodeLine(lines[j]).Invalid? then prefix
      else
        match DecodeLine(lines[n])
        case Record(a, b) => prefix + [(Int(a), Int(b))]
        case _ => prefix
  }

  /** Every loaded edge is the pair of integers decoded from one record line. */
  lemma {:induction false} EdgesComeFromRecords(lines: seq<string>, m: nat)
    requires m < |EdgesBeforeFailure(lines)|
    ensures var e := EdgesBeforeFailure(lines)[m];
            exists j :: 0 <= j < |lines| && DecodeLine(lines[j]) == Record(e.0.i, e.1.i)
    decreases |lines|
  {
    var n := |lines| - 1;
    var prefix := EdgesBeforeFailure(lines[..n]);
    if m < |prefix| {
      EdgesComeFromRecords(lines[..n], m);
      var j :| 0 <= j < n && DecodeLine(lines[..n][j]) == Record(prefix[m].0.i, prefix[m].1.i);
      assert lines[..n][j] == lines[j];
    } else {
      assert DecodeLine(lines[n]) == Record(EdgesBeforeFailure(lines)[m].0.i, EdgesBeforeFailure(lines)[m].1.i);
    }
  }

  lemma {:induction false} EdgesStopAtFailure(lines: seq<string>, i: nat)
    requires i < |lines| && DecodeLine(lines[i]).Invalid?
    ensures EdgesBeforeFailure(lines) == EdgesBeforeFailure(lines[..i])
    decreases |lines|
  {
    var n := |lines| - 1;
    if i < n {
      assert lines[..n][i] == lines[i];
      EdgesStopAtFailure(lines[..n], i);
      assert lines[..n][..i] == lines[..i];
    } else {
      assert lines[..n] == lines[..i];
    }
  }

  /** A record line written as `str(a) + " " + str(b)` decodes to the edge
      `(a, b)`: the decoder reads back what the edge-list format writes. */
  lemma DecodeRecordLine(a: int, b: int)
    ensures DecodeLine(Decimal(a) + " " + Decimal(b) + "\n") == Record(a, b)
  {
    var line := Decimal(a) + " " + Decimal(b) + "\n";
    DecimalIsToken(a);
    DecimalIsToken(b);
    SplitTwoFields(Decimal(a), Decimal(b));
    ParseDecimal(a);
    ParseDecimal(b);
    assert line[0] == Decimal(a)[0];
  }

  lemma DecimalIsToken(n: int)
    ensures IsToken(Decimal(n)) && Decimal(n)[0] != '#'
  {
  }

  /** Merge on the ids as given: `update` and `edge_query` hash the same
      ids, so two updates of a fresh edge sum their weights for integer and
      string ids alike. */
  method RepeatedInsertThenQuery(sk: PRSketch, s: NodeId, d: NodeId, w1: real, w2: real) returns (q: real)
    requires sk.Valid() && sk.depth > 0
    requires forall k :: 0 <= k < sk.depth ==>
               sk.gM[sk.PatternHash(s)[k], sk.PatternHash(d)[k], k].rank < sk.Combined(s, d)[k]
    modifies sk.gM
    ensures q == w1 + w2
  {
    ghost var before := sk.EdgeCells(s, d);
    sk.Update(s, d, w1);
    sk.Update(s, d, w2);
    q := sk.EdgeQuery(s, d);
    RepeatedInsertEstimate(before, sk.Combined(s, d), w1, w2, (s, d), sk.conflictLimit);
  }

  /** The scan's defect on a concrete one-cell sketch: after `update(0, 1)` has
      put `(0, 1)` into a conflict list, `reachability_query(0, 1)` as
      written answers false while the intended search answers true. */
  method ReachabilityMissesStoredEdge() returns (asWritten: bool, intended: bool)
    ensures !asWritten && intended
  {
    var sk := new PRSketch(1, 1, 2, 3, (t: string) => 0, (n: NodeId) => 0, (seed: nat) => [1, 0]);
    sk.Update(Int(0), Int(1), 1.0);
    assert (Int(0), Int(1)) in sk.gM[0, 0, 0].list;
    PairsAreStored(sk.gM, (Int(0), Int(1)));
    ReachableRefl(Pairs(sk.gM), Int(1));
    ReachablePrepend(Pairs(sk.gM), Int(0), Int(1), Int(1));
    asWritten := sk.ReachabilityQuery(Int(0), Int(1));
    ghost var expanded;
    intended, expanded := sk.ReachabilityQueryByPairs(Int(0), Int(1));
  }
}
