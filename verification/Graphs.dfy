/** Paths and reachability in a directed graph given by its successor function. */
module Graphs {

  ghost predicate IsPath<N(!new)>(next: N -> set<N>, p: seq<N>) {
    p != [] && forall i :: 0 < i < |p| ==> p[i] in next(p[i - 1])
  }

  ghost predicate Links<N(!new)>(next: N -> set<N>, p: seq<N>, from: set<N>, to: N) {
    IsPath(next, p) && p[0] in from && p[|p| - 1] == to
  }

  ghost predicate Reaches<N(!new)>(next: N -> set<N>, from: set<N>, to: N) {
    exists p :: Links(next, p, from, to)
  }

  ghost predicate Closed<N(!new)>(next: N -> set<N>, s: set<N>) {
    forall n :: n in s ==> next(n) <= s
  }

  lemma ReachesRoot<N(!new)>(next: N -> set<N>, from: set<N>, n: N)
    requires n in from
    ensures Reaches(next, from, n)
  {
    assert Links(next, [n], from, n);
  }

  lemma ReachesNext<N(!new)>(next: N -> set<N>, from: set<N>, n: N, m: N)
    requires Reaches(next, from, n) && m in next(n)
    ensures Reaches(next, from, m)
  {
    var p :| Links(next, p, from, n);
    assert Links(next, p + [m], from, m);
  }

  /** A closed set that holds the roots holds all that is reachable. */
  lemma {:induction false} ReachedInside<N(!new)>(next: N -> set<N>, from: set<N>, s: set<N>, p: seq<N>)
    requires Closed(next, s) && from <= s && IsPath(next, p) && p[0] in from
    ensures p[|p| - 1] in s
  {
    var n := |p| - 1;
    if n > 0 {
      ReachedInside(next, from, s, p[..n]);
    }
  }

  lemma ClosedHoldsReached<N(!new)>(next: N -> set<N>, from: set<N>, s: set<N>)
    requires Closed(next, s) && from <= s
    ensures forall n :: Reaches(next, from, n) ==> n in s
  {
    forall n | Reaches(next, from, n)
      ensures n in s
    {
      var p :| Links(next, p, from, n);
      ReachedInside(next, from, s, p);
    }
  }

  /** Fewer roots and fewer edges reach less. */
  lemma ReachesMonotone<N(!new)>(fewer: N -> set<N>, more: N -> set<N>, from: set<N>, to: set<N>, n: N)
    requires from <= to && forall m :: fewer(m) <= more(m)
    requires Reaches(fewer, from, n)
    ensures Reaches(more, to, n)
  {
    var p :| Links(fewer, p, from, n);
    assert Links(more, p, to, n);
  }
}
