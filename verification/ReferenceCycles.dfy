/**
 Which relationships lie on a reference cycle. Their foreign keys are emitted
 DEFERRABLE, so that mutually referencing records can be written in one transaction.
 */
module ReferenceCycles {
  import opened Common
  import opened DraftModels
  import opened Graphs

  /** One hoisted foreign key: relationship `rel` of entity `from`, pointing at `to`. */
  datatype Reference = Reference(rel: Uuid, from: Uuid, to: Uuid)

  function ReferencesOf(e: DraftEntity, rels: seq<DraftRelationship>): set<Reference> {
    set r | r in rels && r.cardinality != MANY_TO_MANY :: Reference(r.id, e.id, r.target)
  }

  function References(es: seq<DraftEntity>): set<Reference> {
    if es == [] then {}
    else References(es[..|es| - 1]) + ReferencesOf(es[|es| - 1], es[|es| - 1].relationships)
  }

  function EdgesOf(refs: set<Reference>): Edges {
    set f | f in refs :: (f.from, f.to)
  }

  /** The specification: some non-many-to-many edge carrying this id lies on a directed cycle. */
  ghost predicate RelOnCycle(refs: set<Reference>, rel: Uuid) {
    exists f :: f in refs && f.rel == rel && OnCycle(EdgesOf(refs), (f.from, f.to))
  }

  type Adjacency = map<Uuid, seq<(Uuid, Uuid)>>

  /** `adj` lists, under each entity id, the (relationship, target) pairs of `refs`. */
  ghost predicate Lists(adj: Adjacency, refs: set<Reference>) {
    && (forall from, k :: from in adj && 0 <= k < |adj[from]| ==>
      Reference(adj[from][k].0, from, adj[from][k].1) in refs)
    && (forall f :: f in refs ==> f.from in adj && (f.rel, f.to) in adj[f.from])
  }

  lemma OneMoreReference(e: DraftEntity, j: nat)
    requires j < |e.relationships|
    ensures var r := e.relationships[j];
      ReferencesOf(e, e.relationships[..j + 1])
      == ReferencesOf(e, e.relationships[..j])
         + (if r.cardinality != MANY_TO_MANY then {Reference(r.id, e.id, r.target)} else {})
  {
    assert e.relationships[..j + 1] == e.relationships[..j] + [e.relationships[j]];
  }

  lemma ListsOneMore(adj: Adjacency, refs: set<Reference>, from: Uuid, row: seq<(Uuid, Uuid)>, rel: Uuid, to: Uuid)
    requires Lists(adj, refs) && row == (if from in adj then adj[from] else [])
    ensures Lists(adj[from := row + [(rel, to)]], refs + {Reference(rel, from, to)})
  {
    assert forall x :: x in row + [(rel, to)] <==> x in row || x == (rel, to);
  }

  method BuildAdjacency(es: seq<DraftEntity>) returns (adj: Adjacency)
    ensures Lists(adj, References(es))
  {
    adj := map[];
    for i := 0 to |es|
      invariant Lists(adj, References(es[..i]))
    {
      var e := es[i];
      ghost var before := References(es[..i]);
      assert es[..i + 1][..i] == es[..i];
      for j := 0 to |e.relationships|
        invariant Lists(adj, before + ReferencesOf(e, e.relationships[..j]))
      {
        var r := e.relationships[j];
        if r.cardinality != MANY_TO_MANY {
          var row := if e.id in adj then adj[e.id] else [];
          ListsOneMore(adj, before + ReferencesOf(e, e.relationships[..j]), e.id, row, r.id, r.target);
          adj := adj[e.id := row + [(r.id, r.target)]];
        }
        OneMoreReference(e, j);
      }
      assert e.relationships[..|e.relationships|] == e.relationships;
    }
    assert es[..|es|] == es;
  }

  /**
   Depth-first search from `to`; the edge is on a cycle iff `from` is found. A popped id
   already seen is dropped, so the unseen ids, then the stack, shrink: it ends on every graph.
   */
  method ReachesBack(adj: Adjacency, ghost refs: set<Reference>, from: Uuid, to: Uuid) returns (found: bool)
    requires Lists(adj, refs)
    ensures found <==> Reaches(EdgesOf(refs), to, from)
  {
    ghost var E := EdgesOf(refs);
    ghost var universe := Nodes(E) + {to};
    var seen: set<Uuid> := {};
    var stack := [to];
    ReachesSelf(E, to);
    while stack != []
      invariant to in seen || to in stack
      invariant from !in seen
      invariant seen <= universe
      invariant forall n :: n in stack ==> n in universe && Reaches(E, to, n)
      invariant forall e :: e in E && e.0 in seen ==> e.1 in seen || e.1 in stack
      decreases universe - seen, |stack|
    {
      var n := stack[|stack| - 1];
      ghost var popped := stack;
      stack := stack[..|stack| - 1];
      assert popped == stack + [n];
      if n == from {
        return true;
      }
      if n in seen {
        continue;
      }
      seen := seen + {n};
      if n in adj {
        stack := PushTargets(adj[n], stack);
        forall k | 0 <= k < |adj[n]|
          ensures adj[n][k].1 in universe && Reaches(E, to, adj[n][k].1)
        {
          assert Reference(adj[n][k].0, n, adj[n][k].1) in refs;
          assert (n, adj[n][k].1) in E;
          ReachesEdge(E, n, adj[n][k].1);
          ReachesTrans(E, to, n, adj[n][k].1);
        }
      }
      forall e | e in E && e.0 == n
        ensures e.1 in seen || e.1 in stack
      {
        var f :| f in refs && (f.from, f.to) == e;
        assert (f.rel, f.to) in adj[n];
      }
    }
    if Reaches(E, to, from) {
      ClosedHoldsReached(E, seen, to, from);
    }
    return false;
  }

  method PushTargets(row: seq<(Uuid, Uuid)>, stack: seq<Uuid>) returns (pushed: seq<Uuid>)
    ensures forall x :: x in pushed <==> x in stack || exists k :: 0 <= k < |row| && row[k].1 == x
    ensures forall k :: 0 <= k < |row| ==> row[k].1 in pushed
  {
    pushed := stack;
    for i := 0 to |row|
      invariant forall x :: x in pushed <==> x in stack || exists k :: 0 <= k < i && row[k].1 == x
    {
      pushed := pushed + [row[i].1];
    }
  }

  /** `relationships_on_cycles`: exactly the relationship ids that lie on a cycle of active ∪ draft. */
  method RelationshipsOnCycles(active: DraftModel, draft: DraftModel) returns (out: set<Uuid>)
    ensures forall rel :: rel in out <==> RelOnCycle(References(active.entities + draft.entities), rel)
  {
    var es := active.entities + draft.entities;
    ghost var refs := References(es);
    var adj := BuildAdjacency(es);
    out := {};
    ghost var tried: set<Reference> := {};
    for i := 0 to |es|
      invariant tried == References(es[..i])
      invariant forall rel :: rel in out <==> TriedOnCycle(refs, tried, rel)
    {
      var e := es[i];
      assert es[..i + 1][..i] == es[..i];
      for j := 0 to |e.relationships|
        invariant tried == References(es[..i]) + ReferencesOf(e, e.relationships[..j])
        invariant forall rel :: rel in out <==> TriedOnCycle(refs, tried, rel)
      {
        var r := e.relationships[j];
        assert e.relationships[..j + 1] == e.relationships[..j] + [r];
        if r.cardinality != MANY_TO_MANY {
          ghost var f := Reference(r.id, e.id, r.target);
          ReferenceListed(es, i, r);
          assert (f.from, f.to) in EdgesOf(refs);
          var onCycle := ReachesBack(adj, refs, e.id, r.target);
          if onCycle {
            out := out + {r.id};
          }
          tried := tried + {f};
        }
      }
      assert e.relationships[..|e.relationships|] == e.relationships;
    }
    assert es[..|es|] == es;
  }

  ghost predicate TriedOnCycle(refs: set<Reference>, tried: set<Reference>, rel: Uuid) {
    exists f :: f in tried && f.rel == rel && OnCycle(EdgesOf(refs), (f.from, f.to))
  }

  lemma {:induction false} ReferenceListed(es: seq<DraftEntity>, i: nat, r: DraftRelationship)
    requires i < |es| && r in es[i].relationships && r.cardinality != MANY_TO_MANY
    ensures Reference(r.id, es[i].id, r.target) in References(es)
  {
    if i < |es| - 1 {
      ReferenceListed(es[..|es| - 1], i, r);
    }
  }

  /**
   What the deferral buys: the keys left immediate form an acyclic graph, so every set of
   records can be inserted parents first without tripping one of them.
   */
  lemma ImmediateKeysAcyclic(refs: set<Reference>)
    ensures Acyclic(EdgesOf(set f | f in refs && !RelOnCycle(refs, f.rel)))
  {
    var immediate := set f | f in refs && !RelOnCycle(refs, f.rel);
    forall e | e in EdgesOf(immediate)
      ensures !OnCycle(EdgesOf(immediate), e)
    {
      var f :| f in immediate && (f.from, f.to) == e;
      assert EdgesOf(immediate) <= EdgesOf(refs);
      assert e in EdgesOf(refs) && !OnCycle(EdgesOf(refs), e);
      if Reaches(EdgesOf(immediate), e.1, e.0) {
        ReachesMonotone(EdgesOf(immediate), EdgesOf(refs), e.1, e.0);
      }
    }
  }
}
