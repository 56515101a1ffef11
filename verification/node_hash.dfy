/** How a PR-Sketch maps a node to its pattern (one table column per layer)
    and to its rank vector (the admission priorities, one per pattern position).

    The digest, Python's `hash()` and NumPy's seeded permutation are not
    modelled; they are parameters of the sketch (`md5`, `pyHash`,
    `permutation`) and only the facts the code relies on are kept: the
    column is the digest reduced modulo the width, and the permutation for
    each of the 1000 seeds lists `0 .. patternLength - 1` once each. */
module NodeHash {
  import opened PyText

  /** A node identifier as the callers pass it: a Python `int` or `str`. */
  datatype NodeId = Int(i: int) | Str(s: string)

  /** `str(n)`. */
  function ToStr(n: NodeId): (s: string)
    ensures n.Int? ==> ParseInt(s) == Some(n.i)
    ensures n.Str? ==> s == n.s
  {
    match n
    case Int(i) => ParseDecimal(i); Decimal(i)
    case Str(s) => s
  }

  /** The identifier after `str()` conversion, as `update` stores it. */
  function AsStr(n: NodeId): (r: NodeId)
    ensures r.Str? && ToStr(r) == ToStr(n)
    ensures n.Str? ==> r == n
  {
    Str(ToStr(n))
  }

  /** `p` lists each of `lo, lo + 1, ..., lo + n - 1` exactly once. */
  predicate IsPermutation(p: seq<nat>, lo: nat, n: nat)
  {
    |p| == n
    && (forall i :: 0 <= i < n ==> lo <= p[i] < lo + n)
    && (forall i, j :: 0 <= i < j < n ==> p[i] != p[j])
  }

  /** One salted hash function: the digest of `key + str(seed)`, read as an
      integer, modulo the table width. */
  function LayerHash(md5: string -> nat, width: nat, key: string, seed: nat): (h: nat)
    requires width > 0
    ensures h < width
  {
    md5(key + Decimal(seed)) % width
  }

  /** `pattern_hash(node)`: one column per layer, each below the width. */
  function Pattern(md5: string -> nat, width: nat, depth: nat, n: NodeId): (p: seq<nat>)
    requires width > 0
    ensures |p| == depth
    ensures forall i :: 0 <= i < depth ==> p[i] < width
  {
    seq(depth, i requires 0 <= i < depth => LayerHash(md5, width, ToStr(n), i))
  }

  /** The digest hashes `str(node)`, so converting an identifier with `str()`
      first does not move it to other columns. */
  lemma PatternIgnoresStr(md5: string -> nat, width: nat, depth: nat, n: NodeId)
    requires width > 0
    ensures Pattern(md5, width, depth, AsStr(n)) == Pattern(md5, width, depth, n)
  {
  }

  /** The permutation drawn for every seed `hash(node) % 1000` can take is a
      permutation of `0 .. patternLength - 1`. */
  ghost predicate PermutationsOk(permutation: nat -> seq<nat>, patternLength: nat)
  {
    forall seed :: 0 <= seed < 1000 ==> IsPermutation(permutation(seed), 0, patternLength)
  }

  /** The NumPy seed of a node: Python's `hash(node) % 1000`, which is never negative. */
  function RankSeed(pyHash: NodeId -> int, n: NodeId): (seed: nat)
    ensures seed < 1000
  {
    pyHash(n) % 1000
  }

  /** `rank_hash(node)`: the permutation drawn after seeding with the node's hash. */
  function Rank(pyHash: NodeId -> int, permutation: nat -> seq<nat>, patternLength: nat, n: NodeId): (r: seq<nat>)
    requires PermutationsOk(permutation, patternLength)
    ensures IsPermutation(r, 0, patternLength)
  {
    permutation(RankSeed(pyHash, n))
  }

  function Min(a: int, b: int): (m: int)
    ensures m <= a && m <= b && (m == a || m == b)
  {
    if a <= b then a else b
  }

  /** The combined rank of an edge at each of the first `depth` layers:
      the smaller of the two endpoint ranks. */
  function CombinedRanks(sr: seq<nat>, dr: seq<nat>, depth: nat): (cr: seq<int>)
    requires depth <= |sr| && depth <= |dr|
    ensures |cr| == depth
    ensures forall k :: 0 <= k < depth ==> 0 <= cr[k] && (cr[k] == sr[k] || cr[k] == dr[k])
    ensures forall k :: 0 <= k < depth ==> cr[k] <= sr[k] && cr[k] <= dr[k]
  {
    seq(depth, k requires 0 <= k < depth => Min(sr[k], dr[k]))
  }
}
