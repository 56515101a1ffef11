/** Paths and reachability in a directed graph given as a set of edges. */
module Graphs {

  /** `p` is a walk from `a` to `b` that follows edges of `E`. */
  ghost predicate PathFromTo<N(!new)>(E: set<(N, N)>, p: seq<N>, a: N, b: N)
  {
    |p| > 0 && p[0] == a && p[|p| - 1] == b
    && forall i :: 0 <= i < |p| - 1 ==> (p[i], p[i + 1]) in E
  }

  /** `b` can be reached from `a` by following zero or more edges. */
  ghost predicate Reachable<N(!new)>(E: set<(N, N)>, a: N, b: N)
  {
    exists p :: PathFromTo(E, p, a, b)
  }

  /** No edge leaves `S`. */
  ghost predicate Closed<N(!new)>(E: set<(N, N)>, S: set<N>)
  {
    forall n, m :: n in S && (n, m) in E ==> m in S
  }

  lemma ReachableRefl<N(!new)>(E: set<(N, N)>, a: N)
    ensures Reachable(E, a, a)
  {
    assert PathFromTo(E, [a], a, a);
  }

  /** A walk to `b` extends along an edge out of `b`. */
  lemma ReachableStep<N(!new)>(E: set<(N, N)>, a: N, b: N, c: N)
    requires Reachable(E, a, b) && (b, c) in E
    ensures Reachable(E, a, c)
  {
    var p :| PathFromTo(E, p, a, b);
    assert PathFromTo(E, p + [c], a, c);
  }

  /** A walk from `b` extends backwards along an edge into `b`. */
  lemma ReachablePrepend<N(!new)>(E: set<(N, N)>, a: N, b: N, c: N)
    requires (a, b) in E && Reachable(E, b, c)
    ensures Reachable(E, a, c)
  {
    var p :| PathFromTo(E, p, b, c);
    assert PathFromTo(E, [a] + p, a, c);
  }

  lemma {:induction false} WalkStaysInClosed<N(!new)>(E: set<(N, N)>, S: set<N>, p: seq<N>, i: nat)
    requires Closed(E, S)
    requires |p| > 0 && p[0] in S
    requires forall j :: 0 <= j < |p| - 1 ==> (p[j], p[j + 1]) in E
    requires i < |p|
    ensures p[i] in S
  {
    if i > 0 {
      WalkStaysInClosed(E, S, p, i - 1);
    }
  }

  /** A set that holds `a`, misses `b` and that no edge leaves shows that `b`
      is unreachable from `a`. */
  lemma ClosedSetSeparates<N(!new)>(E: set<(N, N)>, S: set<N>, a: N, b: N)
    requires Closed(E, S) && a in S && b !in S
    ensures !Reachable(E, a, b)
  {
    if p :| PathFromTo(E, p, a, b) {
      WalkStaysInClosed(E, S, p, |p| - 1);
    }
  }

  /** Two chained edges give reachability in the direction of the edges. */
  lemma Chain<N(!new)>(E: set<(N, N)>, a: N, b: N, c: N)
    requires (a, b) in E && (b, c) in E
    ensures Reachable(E, a, c)
  {
    ReachableRefl(E, c);
    ReachablePrepend(E, b, c, c);
    ReachablePrepend(E, a, b, c);
  }

  /** ... and not against it: a node with no outgoing edge, such as the end
      of a chain, reaches no node but itself. */
  lemma SinkReachesOnlyItself<N(!new)>(E: set<(N, N)>, c: N, a: N)
    requires forall e :: e in E ==> e.0 != c
    requires a != c
    ensures !Reachable(E, c, a)
  {
    ClosedSetSeparates(E, {c}, c, a);
  }
}
