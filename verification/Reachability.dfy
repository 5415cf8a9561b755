/** What can be reached from a set of starting points by following a successor function. */
module Reachability {

  ghost predicate IsPath<T(!new)>(starts: set<T>, next: T -> set<T>, path: seq<T>) {
    && path != []
    && path[0] in starts
    && forall i, j :: 0 <= i < |path| && 0 <= j < |path| && j == i + 1 ==> path[j] in next(path[i])
  }

  ghost predicate Reach<T(!new)>(starts: set<T>, next: T -> set<T>, t: T) {
    exists path: seq<T> :: IsPath(starts, next, path) && path[|path| - 1] == t
  }

  lemma ReachStart<T(!new)>(starts: set<T>, next: T -> set<T>, t: T)
    requires t in starts
    ensures Reach(starts, next, t)
  {
    assert IsPath(starts, next, [t]);
  }

  lemma ReachStep<T(!new)>(starts: set<T>, next: T -> set<T>, t: T, u: T)
    requires Reach(starts, next, t) && u in next(t)
    ensures Reach(starts, next, u)
  {
    var path :| IsPath(starts, next, path) && path[|path| - 1] == t;
    assert IsPath(starts, next, path + [u]);
    assert (path + [u])[|path + [u]| - 1] == u;
  }

  /** What is reached is a start or one step from something reached. */
  lemma ReachedLast<T(!new)>(starts: set<T>, next: T -> set<T>, t: T)
    requires Reach(starts, next, t)
    ensures t in starts || exists u :: Reach(starts, next, u) && t in next(u)
  {
    var path :| IsPath(starts, next, path) && path[|path| - 1] == t;
    if |path| > 1 {
      var front := path[..|path| - 1];
      assert IsPath(starts, next, front);
      assert Reach(starts, next, front[|front| - 1]);
    }
  }

  /** Nothing leads out of a set that holds the starts and is closed under the steps. */
  lemma ReachStaysWithin<T(!new)>(starts: set<T>, next: T -> set<T>, closed: set<T>, t: T)
    requires starts <= closed
    requires forall u :: u in closed ==> next(u) <= closed
    requires Reach(starts, next, t)
    ensures t in closed
  {
    var path :| IsPath(starts, next, path) && path[|path| - 1] == t;
    PathStaysWithin(starts, next, closed, path);
  }

  lemma {:induction false} PathStaysWithin<T(!new)>(starts: set<T>, next: T -> set<T>, closed: set<T>, path: seq<T>)
    requires starts <= closed
    requires forall u :: u in closed ==> next(u) <= closed
    requires IsPath(starts, next, path)
    ensures path[|path| - 1] in closed
    decreases |path|
  {
    if |path| > 1 {
      var front := path[..|path| - 1];
      PathStaysWithin(starts, next, closed, front);
      assert path[|path| - 1] in next(front[|front| - 1]);
    }
  }

  /** A property of the starts that every step keeps holds of everything reachable. */
  lemma {:induction false} ReachInduction<T(!new)>(starts: set<T>, next: T -> set<T>, holds: T -> bool, t: T)
    requires forall s :: s in starts ==> holds(s)
    requires forall u, w :: Reach(starts, next, u) && holds(u) && w in next(u) ==> holds(w)
    requires Reach(starts, next, t)
    ensures holds(t)
  {
    var path :| IsPath(starts, next, path) && path[|path| - 1] == t;
    PathInduction(starts, next, holds, path);
  }

  lemma {:induction false} PathInduction<T(!new)>(starts: set<T>, next: T -> set<T>, holds: T -> bool, path: seq<T>)
    requires forall s :: s in starts ==> holds(s)
    requires forall u, w :: Reach(starts, next, u) && holds(u) && w in next(u) ==> holds(w)
    requires IsPath(starts, next, path)
    ensures Reach(starts, next, path[|path| - 1]) && holds(path[|path| - 1])
    decreases |path|
  {
    if |path| > 1 {
      var front := path[..|path| - 1];
      PathInduction(starts, next, holds, front);
      assert path[|path| - 1] in next(front[|front| - 1]);
    }
  }

  /** What one step leads to can be reached from here as well. */
  lemma ReachAfterStep<T(!new)>(next: T -> set<T>, t: T, u: T, n: T)
    requires u in next(t) && Reach(next(u), next, n)
    ensures Reach(next(t), next, n)
  {
    var path :| IsPath(next(u), next, path) && path[|path| - 1] == n;
    var longer := [u] + path;
    assert IsPath(next(t), next, longer) && longer[|longer| - 1] == n;
  }

  /** How much of a finite universe can be reached from `t` in at least one step. */
  ghost function ReachCount<T(!new)>(universe: set<T>, next: T -> set<T>, t: T): nat {
    |set n | n in universe && Reach(next(t), next, n)|
  }

  /** A step to something that does not reach itself leaves less to reach. */
  lemma ReachCountDrops<T(!new)>(universe: set<T>, next: T -> set<T>, t: T, u: T)
    requires u in next(t) && u in universe && !Reach(next(u), next, u)
    ensures ReachCount(universe, next, u) < ReachCount(universe, next, t)
  {
    var below := set n | n in universe && Reach(next(u), next, n);
    var here := set n | n in universe && Reach(next(t), next, n);
    ReachStart(next(t), next, u);
    forall n | n in below ensures n in here {
      ReachAfterStep(next, t, u, n);
    }
    assert u in here && u !in below;
    ProperSubsetSmaller(below, here);
  }

  lemma ProperSubsetSmaller<T>(a: set<T>, b: set<T>)
    requires a < b
    ensures |a| < |b|
  {
    var x :| x in b && x !in a;
    assert b == (b - {x}) + {x};
    SubsetNotLarger(a, b - {x});
  }

  lemma {:induction false} SubsetNotLarger<T>(a: set<T>, b: set<T>)
    requires a <= b
    ensures |a| <= |b|
  {
    if a != {} {
      var x :| x in a;
      SubsetNotLarger(a - {x}, b - {x});
    }
  }
}
