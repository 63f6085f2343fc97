// Reachability in a directed graph, by explicit paths. A path starts at one of the
// roots, follows successor edges and never enters the set to avoid.
module Reachability {

  ghost predicate IsPath<T(!new)>(roots: set<T>, succ: T -> set<T>, avoid: set<T>, p: seq<T>) {
    && p != []
    && p[0] in roots
    && (forall i | 0 <= i < |p| :: p[i] !in avoid)
    && (forall i | 0 < i < |p| :: p[i] in succ(p[i - 1]))
  }

  ghost predicate Reaches<T(!new)>(roots: set<T>, succ: T -> set<T>, avoid: set<T>, x: T) {
    exists p :: IsPath(roots, succ, avoid, p) && p[|p| - 1] == x
  }

  lemma {:induction false} RootReached<T(!new)>(roots: set<T>, succ: T -> set<T>, avoid: set<T>, x: T)
    requires x in roots && x !in avoid
    ensures Reaches(roots, succ, avoid, x)
  {
    assert IsPath(roots, succ, avoid, [x]) && [x][0] == x;
  }

  lemma {:induction false} StepReached<T(!new)>(roots: set<T>, succ: T -> set<T>, avoid: set<T>, x: T, y: T)
    requires Reaches(roots, succ, avoid, x)
    requires y in succ(x) && y !in avoid
    ensures Reaches(roots, succ, avoid, y)
  {
    var p :| IsPath(roots, succ, avoid, p) && p[|p| - 1] == x;
    var q := p + [y];
    assert IsPath(roots, succ, avoid, q) && q[|q| - 1] == y;
  }

  /** Paths compose: what is reached from the successors of a reached node is reached. */
  lemma {:induction false} ReachedThrough<T(!new)>(
      roots: set<T>, succ: T -> set<T>, avoid: set<T>, x: T, avoid': set<T>, y: T)
    requires Reaches(roots, succ, avoid, x)
    requires avoid <= avoid'
    requires Reaches(succ(x), succ, avoid', y)
    ensures Reaches(roots, succ, avoid, y)
  {
    var p :| IsPath(roots, succ, avoid, p) && p[|p| - 1] == x;
    var q :| IsPath(succ(x), succ, avoid', q) && q[|q| - 1] == y;
    var r := p + q;
    assert IsPath(roots, succ, avoid, r) && r[|r| - 1] == y;
  }

  /** A set holding the roots and closed under successors (up to the avoided nodes) holds
      everything that is reached. */
  lemma {:induction false} ClosedHoldsReached<T(!new)>(roots: set<T>, succ: T -> set<T>, avoid: set<T>, closed: set<T>, x: T)
    requires roots - avoid <= closed
    requires forall w | w in closed :: succ(w) - avoid <= closed
    requires Reaches(roots, succ, avoid, x)
    ensures x in closed
  {
    var p :| IsPath(roots, succ, avoid, p) && p[|p| - 1] == x;
    PathStaysInClosed(roots, succ, avoid, closed, p, |p| - 1);
  }

  lemma {:induction false} PathStaysInClosed<T(!new)>(
      roots: set<T>, succ: T -> set<T>, avoid: set<T>, closed: set<T>, p: seq<T>, i: nat)
    requires roots - avoid <= closed
    requires forall w | w in closed :: succ(w) - avoid <= closed
    requires IsPath(roots, succ, avoid, p) && i < |p|
    ensures p[i] in closed
  {
    if i > 0 {
      PathStaysInClosed(roots, succ, avoid, closed, p, i - 1);
      assert p[i] in succ(p[i - 1]) - avoid;
    }
  }
}
