/**
 Directed graphs over ids, and the deduplicating recursive walk
 (`WITH RECURSIVE .. UNION`) that every hierarchy query of the repository uses.
 */
module Graphs {
  import opened Common

  type Edges = set<(Uuid, Uuid)>

  /** `p` is a walk along the edges of `E`; a single node is a walk of length zero. */
  ghost predicate IsPath(E: Edges, p: seq<Uuid>) {
    |p| > 0 && forall i :: 0 <= i < |p| - 1 ==> (p[i], p[i + 1]) in E
  }

  ghost predicate PathFromTo(E: Edges, p: seq<Uuid>, a: Uuid, b: Uuid) {
    IsPath(E, p) && p[0] == a && p[|p| - 1] == b
  }

  ghost predicate Reaches(E: Edges, a: Uuid, b: Uuid) {
    exists p :: PathFromTo(E, p, a, b)
  }

  /** An edge lies on a directed cycle when its target leads back to its source. */
  ghost predicate OnCycle(E: Edges, e: (Uuid, Uuid)) {
    e in E && Reaches(E, e.1, e.0)
  }

  ghost predicate Acyclic(E: Edges) {
    forall e :: e in E ==> !OnCycle(E, e)
  }

  function Inverse(E: Edges): Edges {
    set e | e in E :: (e.1, e.0)
  }

  /** The edges of `E` that do not leave `c`. */
  function WithoutOut(E: Edges, c: Uuid): Edges {
    set e | e in E && e.0 != c
  }

  function Nodes(E: Edges): set<Uuid> {
    (set e | e in E :: e.0) + (set e | e in E :: e.1)
  }

  ghost predicate Closed(E: Edges, s: set<Uuid>) {
    forall e :: e in E && e.0 in s ==> e.1 in s
  }

  // ---- walks ----

  lemma ReachesSelf(E: Edges, a: Uuid)
    ensures Reaches(E, a, a)
  {
    assert PathFromTo(E, [a], a, a);
  }

  lemma ReachesEdge(E: Edges, a: Uuid, b: Uuid)
    requires (a, b) in E
    ensures Reaches(E, a, b)
  {
    assert PathFromTo(E, [a, b], a, b);
  }

  lemma ReachesTrans(E: Edges, a: Uuid, b: Uuid, c: Uuid)
    requires Reaches(E, a, b) && Reaches(E, b, c)
    ensures Reaches(E, a, c)
  {
    var p :| PathFromTo(E, p, a, b);
    var q :| PathFromTo(E, q, b, c);
    assert PathFromTo(E, p + q[1..], a, c);
  }

  lemma ReachesMonotone(E: Edges, F: Edges, a: Uuid, b: Uuid)
    requires E <= F && Reaches(E, a, b)
    ensures Reaches(F, a, b)
  {
    var p :| PathFromTo(E, p, a, b);
    assert PathFromTo(F, p, a, b);
  }

  /** A set closed under the edges holds everything its members reach. */
  lemma {:induction false} ClosedHoldsWalk(E: Edges, s: set<Uuid>, p: seq<Uuid>)
    requires IsPath(E, p) && Closed(E, s) && p[0] in s
    ensures p[|p| - 1] in s
    decreases |p|
  {
    if |p| > 1 {
      assert (p[0], p[1]) in E;
      ClosedHoldsWalk(E, s, p[1..]);
    }
  }

  lemma ClosedHoldsReached(E: Edges, s: set<Uuid>, a: Uuid, b: Uuid)
    requires Closed(E, s) && a in s && Reaches(E, a, b)
    ensures b in s
  {
    var p :| PathFromTo(E, p, a, b);
    ClosedHoldsWalk(E, s, p);
  }

  /** Walking up from `b` meets `a` exactly when walking down from `a` meets `b`. */
  lemma InverseReaches(E: Edges, a: Uuid, b: Uuid)
    ensures Reaches(E, a, b) <==> Reaches(Inverse(E), b, a)
  {
    if Reaches(E, a, b) {
      ReversedWalk(E, a, b);
    }
    if Reaches(Inverse(E), b, a) {
      ReversedWalk(Inverse(E), b, a);
      assert Inverse(Inverse(E)) == E by { InverseTwice(E); }
    }
  }

  lemma InverseTwice(E: Edges)
    ensures Inverse(Inverse(E)) == E
  {
    forall e | e in E
      ensures e in Inverse(Inverse(E))
    {
      assert (e.1, e.0) in Inverse(E);
    }
  }

  lemma ReversedWalk(E: Edges, a: Uuid, b: Uuid)
    requires Reaches(E, a, b)
    ensures Reaches(Inverse(E), b, a)
  {
    var p :| PathFromTo(E, p, a, b);
    var q := seq(|p|, i requires 0 <= i < |p| => p[|p| - 1 - i]);
    forall i | 0 <= i < |q| - 1
      ensures (q[i], q[i + 1]) in Inverse(E)
    {
      var j := |p| - 2 - i;
      assert (p[j], p[j + 1]) in E;
    }
    assert PathFromTo(Inverse(E), q, b, a);
  }

  // ---- the recursive walk ----

  ghost predicate ReachedFrom(E: Edges, seed: set<Uuid>, x: Uuid) {
    exists s :: s in seed && Reaches(E, s, x)
  }

  lemma ReachedFromStep(E: Edges, seed: set<Uuid>, e: (Uuid, Uuid))
    requires e in E && ReachedFrom(E, seed, e.0)
    ensures ReachedFrom(E, seed, e.1)
  {
    var s :| s in seed && Reaches(E, s, e.0);
    ReachesEdge(E, e.0, e.1);
    ReachesTrans(E, s, e.0, e.1);
  }

  /** One round of the walk: the targets of the working rows that are new. */
  function NextRows(E: Edges, working: set<Uuid>, r: set<Uuid>): set<Uuid> {
    (set e | e in E && e.0 in working :: e.1) - r
  }

  /**
   `WITH RECURSIVE r AS (seed UNION SELECT e.1 FROM E JOIN r ON e.0 = r)`: the working
   table holds the rows the last round added; a round that adds nothing ends the walk.
   It terminates on every graph, cyclic or not, and returns exactly the reachable ids.
   */
  method RecursiveUnion(E: Edges, seed: set<Uuid>) returns (r: set<Uuid>)
    ensures forall x :: x in r <==> ReachedFrom(E, seed, x)
  {
    r := seed;
    var working := seed;
    ghost var universe := Nodes(E) + seed;
    forall s | s in seed {
      ReachesSelf(E, s);
    }
    while working != {}
      invariant seed <= r <= universe && working <= r
      invariant forall x :: x in r ==> ReachedFrom(E, seed, x)
      invariant forall e :: e in E && e.0 in r - working ==> e.1 in r
      decreases universe - (r - working)
    {
      var next := NextRows(E, working, r);
      forall x | x in next
        ensures x in universe && ReachedFrom(E, seed, x)
      {
        var e :| e in E && e.0 in working && e.1 == x;
        ReachedFromStep(E, seed, e);
      }
      assert (r + next) - next == r;
      assert r - working < r;
      r, working := r + next, next;
    }
    forall x | ReachedFrom(E, seed, x)
      ensures x in r
    {
      var s :| s in seed && Reaches(E, s, x);
      ClosedHoldsReached(E, r, s, x);
    }
  }

  // ---- inserting an edge ----

  lemma AcyclicSubset(E: Edges, F: Edges)
    requires Acyclic(F) && E <= F
    ensures Acyclic(E)
  {
    forall e | e in E
      ensures !OnCycle(E, e)
    {
      assert !OnCycle(F, e);
      if Reaches(E, e.1, e.0) {
        ReachesMonotone(E, F, e.1, e.0);
      }
    }
  }

  /** A walk in `E` plus one edge either avoids the edge or passes through it. */
  lemma {:induction false} SplitWalk(E: Edges, c: Uuid, p: Uuid, w: seq<Uuid>)
    requires IsPath(E + {(c, p)}, w)
    ensures var a, b := w[0], w[|w| - 1];
            Reaches(E, a, b) || (Reaches(E, a, c) && Reaches(E, p, b))
    decreases |w|
  {
    if |w| == 1 {
      ReachesSelf(E, w[0]);
    } else {
      assert (w[0], w[1]) in E + {(c, p)};
      assert IsPath(E + {(c, p)}, w[1..]);
      SplitWalk(E, c, p, w[1..]);
      if (w[0], w[1]) in E {
        ReachesEdge(E, w[0], w[1]);
        if Reaches(E, w[1], w[|w| - 1]) {
          ReachesTrans(E, w[0], w[1], w[|w| - 1]);
        } else {
          ReachesTrans(E, w[0], w[1], c);
        }
      } else {
        ReachesSelf(E, c);
      }
    }
  }

  lemma SplitReaches(E: Edges, c: Uuid, p: Uuid, a: Uuid, b: Uuid)
    requires Reaches(E + {(c, p)}, a, b)
    ensures Reaches(E, a, b) || (Reaches(E, a, c) && Reaches(E, p, b))
  {
    var w :| PathFromTo(E + {(c, p)}, w, a, b);
    SplitWalk(E, c, p, w);
  }

  /** Guarded insertion: the walk up from the new parent decides, in both directions. */
  lemma AddEdgeAcyclic(E: Edges, c: Uuid, p: Uuid)
    requires Acyclic(E)
    ensures Acyclic(E + {(c, p)}) <==> !Reaches(E, p, c)
  {
    var F := E + {(c, p)};
    if Reaches(E, p, c) {
      ReachesMonotone(E, F, p, c);
      assert OnCycle(F, (c, p));
    } else {
      forall e | e in F
        ensures !OnCycle(F, e)
      {
        if Reaches(F, e.1, e.0) {
          SplitReaches(E, c, p, e.1, e.0);
          if e in E {
            assert !OnCycle(E, e);
            assert Reaches(E, e.1, c) && Reaches(E, p, e.0);
            ReachesEdge(E, e.0, e.1);
            ReachesTrans(E, p, e.0, e.1);
            ReachesTrans(E, p, e.1, c);
          }
        }
      }
    }
  }

  /** A walk into `c`, cut at its first visit of `c`, never leaves `c`. */
  lemma {:induction false} CutWalk(E: Edges, c: Uuid, w: seq<Uuid>)
    requires IsPath(E, w) && w[|w| - 1] == c
    ensures Reaches(WithoutOut(E, c), w[0], c)
    decreases |w|
  {
    if w[0] == c {
      ReachesSelf(WithoutOut(E, c), c);
    } else {
      assert (w[0], w[1]) in E;
      CutWalk(E, c, w[1..]);
      ReachesEdge(WithoutOut(E, c), w[0], w[1]);
      ReachesTrans(WithoutOut(E, c), w[0], w[1], c);
    }
  }

  /**
   Replacing every edge out of `c` by the single edge to `p` keeps the graph acyclic
   exactly when `p` did not lead to `c` in the graph as it was, old edges of `c` included.
   */
  lemma ReparentAcyclic(E: Edges, c: Uuid, p: Uuid)
    requires Acyclic(E)
    ensures Acyclic(WithoutOut(E, c) + {(c, p)}) <==> !Reaches(E, p, c)
  {
    var D := WithoutOut(E, c);
    AcyclicSubset(D, E);
    AddEdgeAcyclic(D, c, p);
    if Reaches(E, p, c) {
      var w :| PathFromTo(E, w, p, c);
      CutWalk(E, c, w);
    }
    if Reaches(D, p, c) {
      ReachesMonotone(D, E, p, c);
    }
  }

  /** Insert into `readers` every member of `ps` that is allowed. */
  method AddAllowed(readers: set<Uuid>, ps: set<Uuid>, allowed: set<Uuid>) returns (r: set<Uuid>)
    ensures r == readers + ps * allowed
  {
    r := readers;
    var left := ps;
    while exists p :: p in left
      invariant left <= ps && r == readers + (ps - left) * allowed
      decreases left
    {
      var p :| p in left;
      left := left - {p};
      if p in allowed {
        r := r + {p};
      }
    }
  }
}
