/** Reachability over a finite relation, the worklist that computes it, and
    acyclicity as the existence of a ranking.

    The same worklist serves `allClassChildren` (the relation is "parent has
    direct subclass child") and the graph's `allNodesBefore`/`allNodesAfter`
    (the relation is the edge set, or its converse). */
module Closure {

  /** `p` is a walk of at least one step along `R` from `a` to `b`. */
  ghost predicate IsPath<T(!new)>(R: set<(T, T)>, p: seq<T>, a: T, b: T) {
    |p| >= 2 && p[0] == a && p[|p| - 1] == b &&
    forall i :: 0 <= i < |p| - 1 ==> (p[i], p[i + 1]) in R
  }

  /** `b` can be reached from `a` in one or more steps of `R`. */
  ghost predicate Reaches<T(!new)>(R: set<(T, T)>, a: T, b: T) {
    exists p :: IsPath(R, p, a, b)
  }

  function Successors<T(!new)>(R: set<(T, T)>, x: T): set<T> {
    set e | e in R && e.0 == x :: e.1
  }

  function Targets<T(!new)>(R: set<(T, T)>): set<T> {
    set e | e in R :: e.1
  }

  /** The converse relation. */
  function Converse<T(==,!new)>(R: set<(T, T)>): (C: set<(T, T)>)
    ensures forall a, b :: (a, b) in C <==> (b, a) in R
  {
    set e | e in R :: (e.1, e.0)
  }

  /** Everything reachable from `a` in one or more steps. */
  ghost function Reachable<T(!new)>(R: set<(T, T)>, a: T): set<T> {
    set b | b in Targets(R) && Reaches(R, a, b)
  }

  lemma ReachesStep<T(!new)>(R: set<(T, T)>, a: T, b: T)
    requires (a, b) in R
    ensures Reaches(R, a, b)
  {
    assert IsPath(R, [a, b], a, b);
  }

  lemma ReachesExtend<T(!new)>(R: set<(T, T)>, a: T, b: T, c: T)
    requires Reaches(R, a, b) && (b, c) in R
    ensures Reaches(R, a, c)
  {
    var p :| IsPath(R, p, a, b);
    assert IsPath(R, p + [c], a, c);
  }

  lemma ReachesTrans<T(!new)>(R: set<(T, T)>, a: T, b: T, c: T)
    requires Reaches(R, a, b) && Reaches(R, b, c)
    ensures Reaches(R, a, c)
  {
    var p :| IsPath(R, p, a, b);
    var q :| IsPath(R, q, b, c);
    var r := p + q[1..];
    assert forall i :: 0 <= i < |r| - 1 ==> (r[i], r[i + 1]) in R by {
      forall i | 0 <= i < |r| - 1
        ensures (r[i], r[i + 1]) in R
      {
        if i < |p| - 1 {
        } else if i == |p| - 1 {
          assert r[i] == b == q[0] && r[i + 1] == q[1];
        } else {
          assert r[i] == q[i - |p| + 1] && r[i + 1] == q[i - |p| + 2];
        }
      }
    }
    assert IsPath(R, r, a, c);
  }

  /** The last step of a walk ends in a target of `R`, and its first step
      leaves `a` towards one of `a`'s successors. */
  lemma ReachesShape<T(!new)>(R: set<(T, T)>, a: T, b: T)
    requires Reaches(R, a, b)
    ensures b in Targets(R)
    ensures exists s :: s in Successors(R, a) && (s == b || Reaches(R, s, b))
  {
    var p :| IsPath(R, p, a, b);
    assert (p[|p| - 2], p[|p| - 1]) in R;
    var s := p[1];
    assert (p[0], p[1]) in R;
    assert s in Successors(R, a);
    if |p| > 2 {
      assert IsPath(R, p[1..], s, b);
    }
  }

  /** A set that contains the successors of `a` and is closed under `R`
      contains everything reachable from `a`. */
  lemma {:induction false} ClosedContainsReachable<T(!new)>(R: set<(T, T)>, a: T, found: set<T>, p: seq<T>, b: T)
    requires Successors(R, a) <= found
    requires forall x :: x in found ==> Successors(R, x) <= found
    requires IsPath(R, p, a, b)
    ensures b in found
    decreases |p|
  {
    if |p| == 2 {
      assert (a, b) in R;
      assert b in Successors(R, a);
    } else {
      var q := p[..|p| - 1];
      assert IsPath(R, q, a, p[|p| - 2]);
      ClosedContainsReachable(R, a, found, q, p[|p| - 2]);
      assert (p[|p| - 2], b) in R;
      assert b in Successors(R, p[|p| - 2]);
    }
  }

  /** The worklist of `allClassChildren`: pop the last pending item and queue
      each successor the first time it is seen. The result is exactly the set
      of items reachable from `a` in one or more steps. */
  method ReachableFrom<T(!new)>(R: set<(T, T)>, a: T) returns (found: set<T>)
    ensures found == Reachable(R, a)
  {
    found := {};
    var work := [a];
    ghost var processed: set<T> := {};
    while |work| > 0
      invariant WorkInv(R, a, found, work, processed)
      decreases 2 * |Targets(R) - found| + |work|
    {
      var parent := work[|work| - 1];
      work := work[..|work| - 1];
      assert forall x :: x in work + [parent] <==> x in work || x == parent;
      found, work := QueueSuccessors(R, a, parent, found, work, processed);
      processed := processed + {parent};
    }
    forall b | b in Reachable(R, a)
      ensures b in found
    {
      var p :| IsPath(R, p, a, b);
      ClosedContainsReachable(R, a, found, p, b);
    }
  }

  /** What the worklist of `ReachableFrom` keeps between two pops: everything
      found is reachable, and every item is either processed (its successors
      all found) or still pending. */
  ghost predicate WorkInv<T(!new)>(R: set<(T, T)>, a: T, found: set<T>, work: seq<T>, processed: set<T>) {
    found <= Reachable(R, a) && found <= Targets(R) &&
    (forall x :: x in work ==> x == a || x in found) &&
    (forall x :: x in processed ==> Successors(R, x) <= found) &&
    (forall x :: x in found ==> x in processed || x in work) &&
    (a in processed || a in work)
  }

  /** The inner loop of the worklist: queue every successor of `parent` not
      found yet. */
  method QueueSuccessors<T(!new)>(R: set<(T, T)>, a: T, parent: T, found0: set<T>, work0: seq<T>, ghost processed: set<T>)
    returns (found: set<T>, work: seq<T>)
    requires WorkInv(R, a, found0, work0 + [parent], processed)
    ensures WorkInv(R, a, found, work, processed + {parent})
    ensures 2 * |Targets(R) - found| + |work| <= 2 * |Targets(R) - found0| + |work0|
  {
    assert parent in work0 + [parent];
    assert forall x :: x in work0 + [parent] <==> x in work0 || x == parent;
    found, work := found0, work0;
    var kids := Successors(R, parent);
    while kids != {}
      invariant found <= Reachable(R, a) && found0 <= found && found <= Targets(R)
      invariant forall x :: x in work ==> x == a || x in found
      invariant forall x :: x in processed ==> Successors(R, x) <= found
      invariant forall x :: x in found ==> x in processed || x in work || x == parent
      invariant a in processed || a in work || a == parent
      invariant Successors(R, parent) - kids <= found
      invariant kids <= Successors(R, parent)
      invariant 2 * |Targets(R) - found| + |work| <= 2 * |Targets(R) - found0| + |work0|
      decreases kids
    {
      var child :| child in kids;
      kids := kids - {child};
      if child !in found {
        ReachableChild(R, a, parent, child);
        OneMoreFound(Targets(R), found, child);
        found := found + {child};
        work := work + [child];
      }
    }
  }

  lemma OneMoreFound<T>(S: set<T>, found: set<T>, x: T)
    requires x in S && x !in found
    ensures |S - (found + {x})| == |S - found| - 1
  {
    assert S - (found + {x}) == (S - found) - {x};
  }

  lemma ReachableChild<T(!new)>(R: set<(T, T)>, a: T, parent: T, child: T)
    requires parent == a || parent in Reachable(R, a)
    requires child in Successors(R, parent)
    ensures child in Reachable(R, a) && child in Targets(R)
  {
    assert (parent, child) in R;
    if parent == a {
      ReachesStep(R, a, child);
    } else {
      ReachesExtend(R, a, parent, child);
    }
  }

  /** `rank` strictly decreases along every step of `R` and covers `V`. */
  ghost predicate IsRanking<T(!new)>(rank: map<T, nat>, V: set<T>, R: set<(T, T)>) {
    V <= rank.Keys &&
    forall e :: e in R ==> e.0 in rank && e.1 in rank && rank[e.0] > rank[e.1]
  }

  /** A finite relation is acyclic exactly when it admits a ranking. */
  ghost predicate Acyclic<T(!new)>(V: set<T>, R: set<(T, T)>) {
    exists rank :: IsRanking(rank, V, R)
  }

  /** Along a walk the rank strictly decreases, so nothing reaches itself. */
  lemma {:induction false} RankDecreasesAlongPath<T(!new)>(rank: map<T, nat>, V: set<T>, R: set<(T, T)>, p: seq<T>, a: T, b: T)
    requires IsRanking(rank, V, R)
    requires IsPath(R, p, a, b)
    ensures a in rank && b in rank && rank[a] > rank[b]
    decreases |p|
  {
    assert (p[0], p[1]) in R;
    if |p| > 2 {
      assert IsPath(R, p[1..], p[1], b);
      RankDecreasesAlongPath(rank, V, R, p[1..], p[1], b);
    }
  }

  lemma RankDecreases<T(!new)>(rank: map<T, nat>, V: set<T>, R: set<(T, T)>, a: T, b: T)
    requires IsRanking(rank, V, R)
    requires Reaches(R, a, b)
    ensures a in rank && b in rank && rank[a] > rank[b]
    ensures a != b
  {
    var p :| IsPath(R, p, a, b);
    RankDecreasesAlongPath(rank, V, R, p, a, b);
  }

  /** Some element of a non-empty ranked set has the smallest rank. */
  lemma {:induction false} MinimalRanked<T(!new)>(rank: map<T, nat>, S: set<T>) returns (m: T)
    requires S != {} && S <= rank.Keys
    ensures m in S && forall x :: x in S ==> rank[m] <= rank[x]
    decreases |S|
  {
    var x :| x in S;
    if S == {x} {
      m := x;
    } else {
      var m' := MinimalRanked(rank, S - {x});
      m := if rank[x] < rank[m'] then x else m';
    }
  }

  /** Kahn's test, as networkx's `is_directed_acyclic_graph` answers it:
      repeatedly remove an item none of whose successors remains. Success
      yields a ranking; getting stuck proves that none exists. */
  method CheckAcyclic<T(!new)>(V: set<T>, R: set<(T, T)>) returns (ok: bool, ghost rank: map<T, nat>)
    requires forall e :: e in R ==> e.0 in V && e.1 in V
    ensures ok ==> IsRanking(rank, V, R)
    ensures ok <==> Acyclic(V, R)
  {
    var remaining := V;
    rank := map[];
    var k: nat := 0;
    while remaining != {}
      invariant remaining <= V
      invariant rank.Keys == V - remaining
      invariant forall e :: e in R && e.0 in rank ==> e.1 in rank && rank[e.0] > rank[e.1]
      invariant forall x :: x in rank ==> rank[x] < k
      decreases |remaining|
    {
      if x :| x in remaining && Successors(R, x) * remaining == {} {
        forall e | e in R && e.0 == x
          ensures e.1 in rank && rank[e.1] < k
        {
          assert e.1 in Successors(R, x);
          assert e.1 !in Successors(R, x) * remaining;
        }
        rank := rank[x := k];
        k := k + 1;
        remaining := remaining - {x};
      } else {
        ok := false;
        StuckIsCyclic(V, R, remaining);
        return;
      }
    }
    ok := true;
  }

  /** If every remaining item still has a remaining successor, no ranking exists. */
  lemma StuckIsCyclic<T(!new)>(V: set<T>, R: set<(T, T)>, S: set<T>)
    requires S != {} && S <= V
    requires forall x :: x in S ==> Successors(R, x) * S != {}
    ensures !Acyclic(V, R)
  {
    if rank :| IsRanking(rank, V, R) {
      var m := MinimalRanked(rank, S);
      assert false;
    }
  }

  /** Removing steps never creates a cycle. */
  lemma AcyclicSubset<T(!new)>(V: set<T>, R: set<(T, T)>, V': set<T>, R': set<(T, T)>, rank: map<T, nat>)
    requires IsRanking(rank, V, R) && V' <= V && R' <= R
    ensures IsRanking(rank, V', R')
  {
  }

  /** Moving `a` from the elements of a worklist still to visit to those visited. */
  lemma Moved<T>(all: set<T>, rest: set<T>, done: set<T>, a: T)
    requires done == all - rest && a in rest && rest <= all
    ensures done + {a} == all - (rest - {a}) && rest - {a} <= all
  {
  }
}
