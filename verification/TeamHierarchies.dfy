/**
 The team hierarchy, one parent each, under the
 admin API and the tenant import. Every handler is one step; a rejected step changes nothing.
 */
module TeamHierarchies {
  import opened Common
  import opened Graphs

  // ===== teams =====

  datatype Team = Team(name: string, parent: Option<Uuid>)

  type Teams = map<Uuid, Team>

  /** One row of an import bundle. */
  datatype TeamRow = TeamRow(id: Uuid, name: string, parent: Option<Uuid>)

  datatype TeamOp =
    | CreateTeam(id: Uuid, name: string, parent: Option<Uuid>)
    | UpdateTeam(id: Uuid, newName: Option<string>, newParent: Option<Option<Uuid>>)
    | DeleteTeam(id: Uuid)
    | ImportTeams(rows: seq<TeamRow>)

  function ParentEdges(ts: Teams): (E: Edges)
    ensures forall e :: e in E <==> e.0 in ts && ts[e.0].parent == Some(e.1)
  {
    var links := set id | id in ts && ts[id].parent.Some? :: (id, ts[id].parent.value);
    assert forall e: (Uuid, Uuid) :: e.0 in ts && ts[e.0].parent == Some(e.1) ==> e in links by {
      forall e: (Uuid, Uuid) | e.0 in ts && ts[e.0].parent == Some(e.1)
        ensures e in links
      {
        var id := e.0;
        assert id in ts && ts[id].parent.Some?;
        assert (id, ts[id].parent.value) in links;
        assert e == (id, ts[id].parent.value);
      }
    }
    links
  }

  ghost predicate UniqueNames(ts: Teams) {
    forall a, b :: a in ts && b in ts && ts[a].name == ts[b].name ==> a == b
  }

  ghost predicate ParentsExist(ts: Teams) {
    forall id :: id in ts && ts[id].parent.Some? ==> ts[id].parent.value in ts
  }

  /** What the table must keep: its constraints, and a forest of parents. */
  ghost predicate ValidTeams(ts: Teams) {
    UniqueNames(ts) && ParentsExist(ts) && Acyclic(ParentEdges(ts))
  }

  predicate NameTaken(ts: Teams, name: string, except: Option<Uuid>) {
    exists id :: id in ts && ts[id].name == name && Some(id) != except
  }

  function Reparented(ts: Teams, id: Uuid, parent: Option<Uuid>): Teams
    requires id in ts
  {
    ts[id := ts[id].(parent := parent)]
  }

  /** `ON DELETE SET NULL`: the children of a deleted team become roots. */
  function Removed(ts: Teams, id: Uuid): Teams {
    map t | t in ts && t != id :: if ts[t].parent == Some(id) then ts[t].(parent := None) else ts[t]
  }

  function FindByName(ts: Teams, name: string): (r: Option<Uuid>)
    requires UniqueNames(ts)
    ensures r.Some? ==> r.value in ts && ts[r.value].name == name
    ensures r.None? ==> !NameTaken(ts, name, None)
  {
    if exists id :: id in ts && ts[id].name == name then
      var id :| id in ts && ts[id].name == name;
      Some(id)
    else None
  }

  /** Pass 1 of an import: upsert one row by its natural key; returns the id it landed on. */
  function UpsertByName(ts: Teams, row: TeamRow): (r: (Teams, Uuid))
    requires UniqueNames(ts)
    ensures UniqueNames(r.0) && r.1 in r.0 && ts.Keys <= r.0.Keys
  {
    match FindByName(ts, row.name)
    case Some(existing) => (ts, existing)
    case None =>
      if row.id in ts then (ts[row.id := ts[row.id].(name := row.name)], row.id)
      else (ts[row.id := Team(row.name, None)], row.id)
  }

  ghost function UpsertAll(ts: Teams, rows: seq<TeamRow>, ids: map<Uuid, Uuid>): (r: (Teams, map<Uuid, Uuid>))
    requires UniqueNames(ts) && ids.Values <= ts.Keys
    ensures UniqueNames(r.0) && r.1.Values <= r.0.Keys && ts.Keys <= r.0.Keys
    ensures forall i :: 0 <= i < |rows| ==> rows[i].id in r.1
    ensures ids.Keys <= r.1.Keys
    decreases |rows|
  {
    if rows == [] then (ts, ids)
    else
      var (ts', actual) := UpsertByName(ts, rows[0]);
      var r := UpsertAll(ts', rows[1..], ids[rows[0].id := actual]);
      assert forall i :: 1 <= i < |rows| ==> rows[i] == rows[1..][i - 1];
      r
  }

  /** The parent a bundle row asks for, as an id of this tenant; dropped when not in the bundle. */
  function ResolvedParent(row: TeamRow, ids: map<Uuid, Uuid>): Option<Uuid> {
    if row.parent.Some? && row.parent.value in ids then Some(ids[row.parent.value]) else None
  }

  /** Pass 2: link the rows in order; a link closing a cycle aborts the whole import. */
  ghost function LinkAll(ts: Teams, rows: seq<TeamRow>, ids: map<Uuid, Uuid>): Option<Teams>
    requires ids.Values <= ts.Keys
    requires forall i :: 0 <= i < |rows| ==> rows[i].id in ids
    decreases |rows|
  {
    if rows == [] then Some(ts)
    else
      var actual := ids[rows[0].id];
      var parent := ResolvedParent(rows[0], ids);
      if parent.Some? && Reaches(ParentEdges(ts), parent.value, actual) then None
      else
        assert forall i :: 0 <= i < |rows| - 1 ==> rows[1..][i] == rows[i + 1];
        LinkAll(Reparented(ts, actual, parent), rows[1..], ids)
  }

  ghost function Import(ts: Teams, rows: seq<TeamRow>): Option<Teams>
    requires UniqueNames(ts)
  {
    var (upserted, ids) := UpsertAll(ts, rows, map[]);
    LinkAll(upserted, rows, ids)
  }

  ghost function TeamStep(ts: Teams, op: TeamOp): (Teams, Result<(), Error>)
    requires UniqueNames(ts)
  {
    match op
    case CreateTeam(id, name, parent) =>
      if Trim(name) == "" then (ts, Err(Invalid))
      else if parent.Some? && parent.value !in ts then (ts, Err(NotFound))
      else if id in ts || NameTaken(ts, name, None) then (ts, Err(Conflict))
      else (ts[id := Team(name, parent)], Ok(()))
    case UpdateTeam(id, newName, newParent) =>
      if newName.Some? && Trim(newName.value) == "" then (ts, Err(Invalid))
      else if newParent.Some? && newParent.value == Some(id) then (ts, Err(Invalid))
      else if newParent.Some? && newParent.value.Some? && newParent.value.value !in ts then (ts, Err(NotFound))
      else if newParent.Some? && newParent.value.Some? && Reaches(ParentEdges(ts), newParent.value.value, id)
        then (ts, Err(Invalid))
      else if id !in ts then (ts, Err(NotFound))
      else if newName.Some? && NameTaken(ts, newName.value, Some(id)) then (ts, Err(Conflict))
      else
        var name := if newName.Some? then newName.value else ts[id].name;
        var parent := if newParent.Some? then newParent.value else ts[id].parent;
        (ts[id := Team(name, parent)], Ok(()))
    case DeleteTeam(id) =>
      if id in ts then (Removed(ts, id), Ok(())) else (ts, Err(NotFound))
    case ImportTeams(rows) =>
      match Import(ts, rows)
      case None => (ts, Err(Invalid))
      case Some(imported) => (imported, Ok(()))
  }

  // ---- every team step keeps the forest ----

  lemma ReparentedEdges(ts: Teams, id: Uuid, parent: Option<Uuid>)
    requires id in ts
    ensures ParentEdges(Reparented(ts, id, parent)) ==
            WithoutOut(ParentEdges(ts), id) + (if parent.Some? then {(id, parent.value)} else {})
  {
  }

  lemma ReparentedKeepsForest(ts: Teams, id: Uuid, parent: Option<Uuid>)
    requires id in ts && Acyclic(ParentEdges(ts))
    ensures Acyclic(ParentEdges(Reparented(ts, id, parent)))
       <==> (parent.Some? ==> !Reaches(ParentEdges(ts), parent.value, id))
  {
    ReparentedEdges(ts, id, parent);
    if parent.Some? {
      ReparentAcyclic(ParentEdges(ts), id, parent.value);
    } else {
      AcyclicSubset(WithoutOut(ParentEdges(ts), id), ParentEdges(ts));
      assert ParentEdges(Reparented(ts, id, parent)) == WithoutOut(ParentEdges(ts), id);
    }
  }

  /** A fresh row can only be a leaf: nothing points at it yet. */
  lemma CreatedKeepsForest(ts: Teams, id: Uuid, team: Team)
    requires ValidTeams(ts) && id !in ts && (team.parent.Some? ==> team.parent.value in ts)
    ensures Acyclic(ParentEdges(ts[id := team]))
  {
    var E := ParentEdges(ts);
    if team.parent.Some? {
      assert ParentEdges(ts[id := team]) == E + {(id, team.parent.value)};
      if Reaches(E, team.parent.value, id) {
        assert Closed(E, ts.Keys);
        ClosedHoldsReached(E, ts.Keys, team.parent.value, id);
      }
      AddEdgeAcyclic(E, id, team.parent.value);
    } else {
      assert ParentEdges(ts[id := team]) == E;
    }
  }

  lemma UpsertKeepsValid(ts: Teams, row: TeamRow)
    requires ValidTeams(ts)
    ensures ValidTeams(UpsertByName(ts, row).0)
  {
    var ts' := UpsertByName(ts, row).0;
    assert ParentEdges(ts') == ParentEdges(ts);
  }

  lemma {:induction false} UpsertAllKeepsValid(ts: Teams, rows: seq<TeamRow>, ids: map<Uuid, Uuid>)
    requires ValidTeams(ts) && ids.Values <= ts.Keys
    ensures ValidTeams(UpsertAll(ts, rows, ids).0)
    decreases |rows|
  {
    if rows != [] {
      var (ts', actual) := UpsertByName(ts, rows[0]);
      UpsertKeepsValid(ts, rows[0]);
      UpsertAllKeepsValid(ts', rows[1..], ids[rows[0].id := actual]);
    }
  }

  lemma {:induction false} LinkAllKeepsValid(ts: Teams, rows: seq<TeamRow>, ids: map<Uuid, Uuid>)
    requires ValidTeams(ts) && ids.Values <= ts.Keys
    requires forall i :: 0 <= i < |rows| ==> rows[i].id in ids
    ensures LinkAll(ts, rows, ids).Some? ==> ValidTeams(LinkAll(ts, rows, ids).value)
    decreases |rows|
  {
    if rows != [] {
      var actual := ids[rows[0].id];
      var parent := ResolvedParent(rows[0], ids);
      if !(parent.Some? && Reaches(ParentEdges(ts), parent.value, actual)) {
        ReparentedKeepsForest(ts, actual, parent);
        LinkAllKeepsValid(Reparented(ts, actual, parent), rows[1..], ids);
      }
    }
  }

  lemma TeamStepKeepsValid(ts: Teams, op: TeamOp)
    requires ValidTeams(ts)
    ensures ValidTeams(TeamStep(ts, op).0)
  {
    match op
    case CreateTeam(id, name, parent) =>
      if TeamStep(ts, op).1.Ok? {
        CreatedKeepsForest(ts, id, Team(name, parent));
      }
    case UpdateTeam(id, newName, newParent) =>
      if TeamStep(ts, op).1.Ok? {
        var ts' := TeamStep(ts, op).0;
        var parent := ts'[id].parent;
        assert ParentEdges(ts') == ParentEdges(Reparented(ts, id, parent));
        if newParent.Some? {
          ReparentedKeepsForest(ts, id, parent);
        } else {
          assert Reparented(ts, id, parent) == ts;
        }
      }
    case DeleteTeam(id) =>
      AcyclicSubset(ParentEdges(Removed(ts, id)), ParentEdges(ts));
    case ImportTeams(rows) =>
      UpsertAllKeepsValid(ts, rows, map[]);
      var (upserted, ids) := UpsertAll(ts, rows, map[]);
      LinkAllKeepsValid(upserted, rows, ids);
  }

  ghost function TeamRun(ts: Teams, ops: seq<TeamOp>): Teams
    requires ValidTeams(ts)
    decreases |ops|
  {
    if ops == [] then ts
    else TeamStepKeepsValid(ts, ops[0]); TeamRun(TeamStep(ts, ops[0]).0, ops[1..])
  }

  /** Every run of team steps from a forest ends in a forest. */
  lemma {:induction false} TeamRunKeepsValid(ts: Teams, ops: seq<TeamOp>)
    requires ValidTeams(ts)
    ensures ValidTeams(TeamRun(ts, ops))
    decreases |ops|
  {
    if ops != [] {
      TeamStepKeepsValid(ts, ops[0]);
      TeamRunKeepsValid(TeamStep(ts, ops[0]).0, ops[1..]);
    }
  }

  /** A re-parenting of known teams is refused exactly when the result would hold a cycle. */
  lemma ReparentRefusedIffCycle(ts: Teams, id: Uuid, parent: Uuid)
    requires ValidTeams(ts) && id in ts && parent in ts
    ensures TeamStep(ts, UpdateTeam(id, None, Some(Some(parent)))).1 == Err(Invalid)
       <==> !Acyclic(ParentEdges(Reparented(ts, id, Some(parent))))
  {
    ReparentedKeepsForest(ts, id, Some(parent));
    ReachesSelf(ParentEdges(ts), id);
  }

  // ---- which imports are accepted ----

  /** The teams after the first `n` rows have been linked, whatever that makes of the hierarchy. */
  function Linked(ts: Teams, rows: seq<TeamRow>, ids: map<Uuid, Uuid>, n: nat): (r: Teams)
    requires ids.Values <= ts.Keys && n <= |rows|
    requires forall i :: 0 <= i < |rows| ==> rows[i].id in ids
    ensures r.Keys == ts.Keys
  {
    if n == 0 then ts else Reparented(Linked(ts, rows, ids, n - 1), ids[rows[n - 1].id],
      ResolvedParent(rows[n - 1], ids))
  }

  /** After each row the links in place form a forest. */
  ghost predicate AlwaysForest(ts: Teams, rows: seq<TeamRow>, ids: map<Uuid, Uuid>)
    requires ids.Values <= ts.Keys
    requires forall i :: 0 <= i < |rows| ==> rows[i].id in ids
  {
    forall n: nat :: n <= |rows| ==> Acyclic(ParentEdges(Linked(ts, rows, ids, n)))
  }

  lemma {:induction false} LinkedTail(ts: Teams, rows: seq<TeamRow>, ids: map<Uuid, Uuid>, n: nat)
    requires ids.Values <= ts.Keys && n < |rows|
    requires forall i :: 0 <= i < |rows| ==> rows[i].id in ids
    ensures Linked(Reparented(ts, ids[rows[0].id], ResolvedParent(rows[0], ids)), rows[1..], ids, n)
      == Linked(ts, rows, ids, n + 1)
  {
    assert forall i :: 0 <= i < |rows| - 1 ==> rows[1..][i] == rows[i + 1];
    if n > 0 {
      LinkedTail(ts, rows, ids, n - 1);
    }
  }

  /** The first row is refused exactly when its link closes a cycle; otherwise the others follow. */
  lemma FirstLink(ts: Teams, rows: seq<TeamRow>, ids: map<Uuid, Uuid>)
    requires rows != [] && Acyclic(ParentEdges(ts)) && ids.Values <= ts.Keys
    requires forall i :: 0 <= i < |rows| ==> rows[i].id in ids
    requires forall i :: 0 <= i < |rows| - 1 ==> rows[1..][i] == rows[i + 1]
    ensures var ts' := Reparented(ts, ids[rows[0].id], ResolvedParent(rows[0], ids));
      LinkAll(ts, rows, ids) == if Acyclic(ParentEdges(ts')) then LinkAll(ts', rows[1..], ids) else None
  {
    ReparentedKeepsForest(ts, ids[rows[0].id], ResolvedParent(rows[0], ids));
  }

  /** A forest after each row is a forest after the first and after each of the others. */
  lemma ForestSplit(ts: Teams, rows: seq<TeamRow>, ids: map<Uuid, Uuid>)
    requires rows != [] && Acyclic(ParentEdges(ts)) && ids.Values <= ts.Keys
    requires forall i :: 0 <= i < |rows| ==> rows[i].id in ids
    requires forall i :: 0 <= i < |rows| - 1 ==> rows[1..][i] == rows[i + 1]
    ensures AlwaysForest(ts, rows, ids)
      <==> AlwaysForest(Reparented(ts, ids[rows[0].id], ResolvedParent(rows[0], ids)), rows[1..], ids)
  {
    var ts' := Reparented(ts, ids[rows[0].id], ResolvedParent(rows[0], ids));
    forall n: nat | n < |rows|
      ensures Linked(ts', rows[1..], ids, n) == Linked(ts, rows, ids, n + 1)
    {
      LinkedTail(ts, rows, ids, n);
    }
    if AlwaysForest(ts', rows[1..], ids) {
      forall n: nat | n <= |rows|
        ensures Acyclic(ParentEdges(Linked(ts, rows, ids, n)))
      {
        if n > 0 {
          assert Acyclic(ParentEdges(Linked(ts', rows[1..], ids, n - 1)));
        }
      }
    }
  }

  lemma ForestStartsForest(ts: Teams, rows: seq<TeamRow>, ids: map<Uuid, Uuid>)
    requires ids.Values <= ts.Keys
    requires forall i :: 0 <= i < |rows| ==> rows[i].id in ids
    ensures AlwaysForest(ts, rows, ids) ==> Acyclic(ParentEdges(ts))
    ensures rows == [] && Acyclic(ParentEdges(ts)) ==> AlwaysForest(ts, rows, ids)
  {
    assert Linked(ts, rows, ids, 0) == ts;
  }

  /** The second pass succeeds exactly when the links form a forest after each row, and then leaves the last of them. */
  lemma {:induction false} LinkAllIff(ts: Teams, rows: seq<TeamRow>, ids: map<Uuid, Uuid>)
    requires Acyclic(ParentEdges(ts)) && ids.Values <= ts.Keys
    requires forall i :: 0 <= i < |rows| ==> rows[i].id in ids
    ensures LinkAll(ts, rows, ids).Some? <==> AlwaysForest(ts, rows, ids)
    decreases |rows|
  {
    if rows == [] {
      ForestStartsForest(ts, rows, ids);
    } else {
      var ts' := Reparented(ts, ids[rows[0].id], ResolvedParent(rows[0], ids));
      assert forall i :: 0 <= i < |rows| - 1 ==> rows[1..][i] == rows[i + 1];
      FirstLink(ts, rows, ids);
      ForestSplit(ts, rows, ids);
      ForestStartsForest(ts', rows[1..], ids);
      if Acyclic(ParentEdges(ts')) {
        LinkAllIff(ts', rows[1..], ids);
      }
    }
  }

  /** Links that are all accepted are the unguarded ones. */
  lemma {:induction false} LinkAllIsLinked(ts: Teams, rows: seq<TeamRow>, ids: map<Uuid, Uuid>)
    requires Acyclic(ParentEdges(ts)) && ids.Values <= ts.Keys
    requires forall i :: 0 <= i < |rows| ==> rows[i].id in ids
    requires LinkAll(ts, rows, ids).Some?
    ensures LinkAll(ts, rows, ids).value == Linked(ts, rows, ids, |rows|)
    decreases |rows|
  {
    if rows != [] {
      var ts' := Reparented(ts, ids[rows[0].id], ResolvedParent(rows[0], ids));
      assert forall i :: 0 <= i < |rows| - 1 ==> rows[1..][i] == rows[i + 1];
      FirstLink(ts, rows, ids);
      LinkAllIsLinked(ts', rows[1..], ids);
      LinkedTail(ts, rows, ids, |rows| - 1);
    }
  }

  /** An import of any bundle into a forest succeeds exactly when its links form a forest after each row. */
  lemma ImportAcceptedIff(ts: Teams, rows: seq<TeamRow>)
    requires ValidTeams(ts)
    ensures var (upserted, ids) := UpsertAll(ts, rows, map[]);
      && (Import(ts, rows).Some? <==> AlwaysForest(upserted, rows, ids))
      && (Import(ts, rows).Some? ==> Import(ts, rows).value == Linked(upserted, rows, ids, |rows|))
  {
    var (upserted, ids) := UpsertAll(ts, rows, map[]);
    UpsertAllKeepsValid(ts, rows, map[]);
    LinkAllIff(upserted, rows, ids);
    if LinkAll(upserted, rows, ids).Some? {
      LinkAllIsLinked(upserted, rows, ids);
    }
  }

  /** No two rows land on one team, and the teams they land on have no parent yet. */
  ghost predicate StartUnlinked(ts: Teams, rows: seq<TeamRow>, ids: map<Uuid, Uuid>)
    requires ids.Values <= ts.Keys
    requires forall i :: 0 <= i < |rows| ==> rows[i].id in ids
  {
    && (forall i, j :: 0 <= i < j < |rows| ==> ids[rows[i].id] != ids[rows[j].id])
    && (forall i :: 0 <= i < |rows| ==> ts[ids[rows[i].id]].parent.None?)
  }

  /** The parent every team ends up with. */
  lemma {:induction false} LinkedAt(ts: Teams, rows: seq<TeamRow>, ids: map<Uuid, Uuid>, n: nat, t: Uuid)
    requires ids.Values <= ts.Keys && n <= |rows| && t in ts
    requires forall i :: 0 <= i < |rows| ==> rows[i].id in ids
    requires forall i, j :: 0 <= i < j < |rows| ==> ids[rows[i].id] != ids[rows[j].id]
    ensures Linked(ts, rows, ids, n)[t].name == ts[t].name
    ensures forall i :: 0 <= i < n && ids[rows[i].id] == t ==>
      Linked(ts, rows, ids, n)[t].parent == ResolvedParent(rows[i], ids)
    ensures (forall i :: 0 <= i < n ==> ids[rows[i].id] != t) ==> Linked(ts, rows, ids, n)[t] == ts[t]
  {
    if n > 0 {
      LinkedAt(ts, rows, ids, n - 1, t);
    }
  }

  /** For such a bundle only the finished hierarchy counts. */
  lemma UnlinkedBundleIff(ts: Teams, rows: seq<TeamRow>, ids: map<Uuid, Uuid>)
    requires Acyclic(ParentEdges(ts)) && ids.Values <= ts.Keys
    requires forall i :: 0 <= i < |rows| ==> rows[i].id in ids
    requires StartUnlinked(ts, rows, ids)
    ensures LinkAll(ts, rows, ids).Some? <==> Acyclic(ParentEdges(Linked(ts, rows, ids, |rows|)))
  {
    LinkAllIff(ts, rows, ids);
    if Acyclic(ParentEdges(Linked(ts, rows, ids, |rows|))) {
      forall n: nat | n <= |rows|
        ensures Acyclic(ParentEdges(Linked(ts, rows, ids, n)))
      {
        LinksOnlyGrow(ts, rows, ids, n);
        AcyclicSubset(ParentEdges(Linked(ts, rows, ids, n)), ParentEdges(Linked(ts, rows, ids, |rows|)));
      }
    }
  }

  /** So an import of teams that are new or roots is refused only for a cycle of its own. */
  lemma ImportUnlinkedIff(ts: Teams, rows: seq<TeamRow>)
    requires ValidTeams(ts)
    requires var (upserted, ids) := UpsertAll(ts, rows, map[]); StartUnlinked(upserted, rows, ids)
    ensures var (upserted, ids) := UpsertAll(ts, rows, map[]);
      Import(ts, rows).Some? <==> Acyclic(ParentEdges(Linked(upserted, rows, ids, |rows|)))
  {
    var (upserted, ids) := UpsertAll(ts, rows, map[]);
    UpsertAllKeepsValid(ts, rows, map[]);
    UnlinkedBundleIff(upserted, rows, ids);
  }

  lemma LinksOnlyGrow(ts: Teams, rows: seq<TeamRow>, ids: map<Uuid, Uuid>, n: nat)
    requires ids.Values <= ts.Keys && n <= |rows|
    requires forall i :: 0 <= i < |rows| ==> rows[i].id in ids
    requires StartUnlinked(ts, rows, ids)
    ensures ParentEdges(Linked(ts, rows, ids, n)) <= ParentEdges(Linked(ts, rows, ids, |rows|))
  {
    var some, all := Linked(ts, rows, ids, n), Linked(ts, rows, ids, |rows|);
    forall e | e in ParentEdges(some)
      ensures e in ParentEdges(all)
    {
      LinkedAt(ts, rows, ids, n, e.0);
      LinkedAt(ts, rows, ids, |rows|, e.0);
    }
  }

  /** In any order the same links are made. */
  lemma SameLinks(ts: Teams, rows: seq<TeamRow>, other: seq<TeamRow>, ids: map<Uuid, Uuid>)
    requires ids.Values <= ts.Keys
    requires forall i :: 0 <= i < |rows| ==> rows[i].id in ids
    requires forall i :: 0 <= i < |other| ==> other[i].id in ids
    requires StartUnlinked(ts, rows, ids) && StartUnlinked(ts, other, ids)
    requires forall r :: r in rows <==> r in other
    ensures Linked(ts, rows, ids, |rows|) == Linked(ts, other, ids, |other|)
  {
    var a, b := Linked(ts, rows, ids, |rows|), Linked(ts, other, ids, |other|);
    assert forall j :: 0 <= j < |other| ==> other[j] in rows;
    forall t | t in ts
      ensures a[t] == b[t]
    {
      LinkedAt(ts, rows, ids, |rows|, t);
      LinkedAt(ts, other, ids, |other|, t);
      if i :| 0 <= i < |rows| && ids[rows[i].id] == t {
        assert rows[i] in other;
      }
    }
  }

  /** So two bundles of the same rows, in whatever order, are accepted or refused alike, with one result. */
  lemma UnlinkedBundleOrderFree(ts: Teams, rows: seq<TeamRow>, other: seq<TeamRow>, ids: map<Uuid, Uuid>)
    requires Acyclic(ParentEdges(ts)) && ids.Values <= ts.Keys
    requires forall i :: 0 <= i < |rows| ==> rows[i].id in ids
    requires forall i :: 0 <= i < |other| ==> other[i].id in ids
    requires StartUnlinked(ts, rows, ids) && StartUnlinked(ts, other, ids)
    requires forall r :: r in rows <==> r in other
    ensures LinkAll(ts, rows, ids) == LinkAll(ts, other, ids)
  {
    SameLinks(ts, rows, other, ids);
    UnlinkedBundleIff(ts, rows, ids);
    UnlinkedBundleIff(ts, other, ids);
    if LinkAll(ts, rows, ids).Some? {
      LinkAllIsLinked(ts, rows, ids);
      LinkAllIsLinked(ts, other, ids);
    }
  }

  /** Team 1 under team 2, and a bundle that turns them round. */
  const ONE_UNDER_TWO: Teams := map[1 := Team("a", Some(2)), 2 := Team("b", None)]
  const ROOT_ONE := TeamRow(1, "a", None)
  const TWO_UNDER_ONE := TeamRow(2, "b", Some(1))
  const SAME_IDS: map<Uuid, Uuid> := map[1 := 1, 2 := 2]

  lemma OneUnderTwoIsValid()
    ensures ValidTeams(ONE_UNDER_TWO)
  {
    assert ParentEdges(ONE_UNDER_TWO) == {(1, 2)};
    NoWayBack(2, 1);
  }

  lemma PairUpserts(first: TeamRow, second: TeamRow)
    requires {first, second} == {ROOT_ONE, TWO_UNDER_ONE} && first != second
    ensures UpsertAll(ONE_UNDER_TWO, [first, second], map[]) == (ONE_UNDER_TWO, SAME_IDS)
  {
    OneUnderTwoIsValid();
    var ts := ONE_UNDER_TWO;
    assert first in {ROOT_ONE, TWO_UNDER_ONE} && second in {ROOT_ONE, TWO_UNDER_ONE};
    assert UpsertByName(ts, first) == (ts, first.id) && UpsertByName(ts, second) == (ts, second.id);
    assert [first, second][1..] == [second] && [second][1..] == [];
    assert map[first.id := first.id][second.id := second.id] == SAME_IDS;
    assert UpsertAll(ts, [second], map[first.id := first.id]) == (ts, SAME_IDS);
  }

  const NONE_UNDER: Teams := map[1 := Team("a", None), 2 := Team("b", None)]
  const TWO_UNDER: Teams := map[1 := Team("a", None), 2 := Team("b", Some(1))]

  lemma RootFirstLinks(rows: seq<TeamRow>)
    requires rows == [ROOT_ONE, TWO_UNDER_ONE]
    ensures Linked(ONE_UNDER_TWO, rows, SAME_IDS, 0) == ONE_UNDER_TWO
    ensures Linked(ONE_UNDER_TWO, rows, SAME_IDS, 1) == NONE_UNDER
    ensures Linked(ONE_UNDER_TWO, rows, SAME_IDS, 2) == TWO_UNDER
  {
    assert Reparented(ONE_UNDER_TWO, 1, None) == NONE_UNDER;
    assert Linked(ONE_UNDER_TWO, rows, SAME_IDS, 0) == ONE_UNDER_TWO;
    assert Reparented(NONE_UNDER, 2, Some(1)) == TWO_UNDER;
  }

  lemma RootFirstForests()
    ensures Acyclic(ParentEdges(NONE_UNDER)) && Acyclic(ParentEdges(TWO_UNDER))
  {
    assert ParentEdges(NONE_UNDER) == {} && ParentEdges(TWO_UNDER) == {(2, 1)};
    NoWayBack(1, 2);
    AcyclicSubset({}, {(2, 1)});
  }

  /** In this order the links are 1-2 alone, none, 2-1 alone: a forest after each row. */
  lemma RootFirstAccepted()
    ensures Import(ONE_UNDER_TWO, [ROOT_ONE, TWO_UNDER_ONE]) == Some(TWO_UNDER)
  {
    var rows := [ROOT_ONE, TWO_UNDER_ONE];
    OneUnderTwoIsValid();
    PairUpserts(ROOT_ONE, TWO_UNDER_ONE);
    ImportAcceptedIff(ONE_UNDER_TWO, rows);
    RootFirstLinks(rows);
    RootFirstStaysForest(rows);
  }

  lemma RootFirstStaysForest(rows: seq<TeamRow>)
    requires rows == [ROOT_ONE, TWO_UNDER_ONE]
    ensures AlwaysForest(ONE_UNDER_TWO, rows, SAME_IDS)
  {
    OneUnderTwoIsValid();
    RootFirstLinks(rows);
    RootFirstForests();
  }

  /** In the other order the first row closes a cycle. */
  lemma RootLastRefused()
    ensures Import(ONE_UNDER_TWO, [TWO_UNDER_ONE, ROOT_ONE]).None?
  {
    var ts, rows := ONE_UNDER_TWO, [TWO_UNDER_ONE, ROOT_ONE];
    OneUnderTwoIsValid();
    PairUpserts(TWO_UNDER_ONE, ROOT_ONE);
    ImportAcceptedIff(ts, rows);
    ReachesEdge(ParentEdges(ts), 1, 2);
    ReparentedKeepsForest(ts, 2, Some(1));
    assert Linked(ts, rows, SAME_IDS, 1) == Reparented(Linked(ts, rows, SAME_IDS, 0), 2, Some(1));
  }

  /** The finished hierarchy is a forest either way, and only one order reaches it. */
  lemma ImportOrderMatters()
    ensures ValidTeams(ONE_UNDER_TWO)
    ensures Import(ONE_UNDER_TWO, [TWO_UNDER_ONE, ROOT_ONE]).None?
    ensures Import(ONE_UNDER_TWO, [ROOT_ONE, TWO_UNDER_ONE]) == Some(TWO_UNDER) && Acyclic(ParentEdges(TWO_UNDER))
  {
    OneUnderTwoIsValid();
    RootFirstForests();
    RootLastRefused();
    RootFirstAccepted();
  }

  lemma NoWayBack(a: Uuid, b: Uuid)
    requires a != b
    ensures !Reaches({(b, a)}, a, b)
  {
    if Reaches({(b, a)}, a, b) {
      assert Closed({(b, a)}, {a});
      ClosedHoldsReached({(b, a)}, {a}, a, b);
    }
  }

  /** The team table and its handlers. */
  class TeamTable {
    var teams: Teams

    constructor ()
      ensures teams == map[]
    {
      teams := map[];
    }

    /** `would_cycle`: walk up from the proposed parent, deduplicating, and look for the child. */
    method WouldCycle(id: Uuid, parent: Uuid) returns (hit: bool)
      ensures hit <==> Reaches(ParentEdges(teams), parent, id)
    {
      var up := RecursiveUnion(ParentEdges(teams), {parent});
      hit := id in up;
      assert ReachedFrom(ParentEdges(teams), {parent}, id) <==> Reaches(ParentEdges(teams), parent, id);
    }

    method Create(id: Uuid, name: string, parent: Option<Uuid>) returns (r: Result<(), Error>)
      requires ValidTeams(teams)
      modifies this
      ensures (teams, r) == TeamStep(old(teams), CreateTeam(id, name, parent))
      ensures ValidTeams(teams)
    {
      TeamStepKeepsValid(teams, CreateTeam(id, name, parent));
      if Trim(name) == "" {
        return Err(Invalid);
      }
      if parent.Some? && parent.value !in teams {
        return Err(NotFound);
      }
      if id in teams || NameTaken(teams, name, None) {
        return Err(Conflict);
      }
      teams := teams[id := Team(name, parent)];
      return Ok(());
    }

    method Update(id: Uuid, newName: Option<string>, newParent: Option<Option<Uuid>>) returns (r: Result<(), Error>)
      requires ValidTeams(teams)
      modifies this
      ensures (teams, r) == TeamStep(old(teams), UpdateTeam(id, newName, newParent))
      ensures ValidTeams(teams)
    {
      TeamStepKeepsValid(teams, UpdateTeam(id, newName, newParent));
      if newName.Some? && Trim(newName.value) == "" {
        return Err(Invalid);
      }
      if newParent.Some? && newParent.value.Some? {
        var parent := newParent.value.value;
        if parent == id {
          return Err(Invalid);
        }
        if parent !in teams {
          return Err(NotFound);
        }
        var cycle := WouldCycle(id, parent);
        if cycle {
          return Err(Invalid);
        }
      }
      if id !in teams {
        return Err(NotFound);
      }
      if newName.Some? && NameTaken(teams, newName.value, Some(id)) {
        return Err(Conflict);
      }
      var name := if newName.Some? then newName.value else teams[id].name;
      var parent := if newParent.Some? then newParent.value else teams[id].parent;
      teams := teams[id := Team(name, parent)];
      return Ok(());
    }

    method Delete(id: Uuid) returns (r: Result<(), Error>)
      requires ValidTeams(teams)
      modifies this
      ensures (teams, r) == TeamStep(old(teams), DeleteTeam(id))
      ensures ValidTeams(teams)
    {
      TeamStepKeepsValid(teams, DeleteTeam(id));
      if id !in teams {
        return Err(NotFound);
      }
      teams := Removed(teams, id);
      return Ok(());
    }

    /** The first pass: every row is there under its name, and the ids it goes by are known. */
    method UpsertRows(rows: seq<TeamRow>) returns (ids: map<Uuid, Uuid>)
      requires UniqueNames(teams)
      modifies this
      ensures (teams, ids) == UpsertAll(old(teams), rows, map[])
      ensures UniqueNames(teams) && ids.Values <= teams.Keys
    {
      ids := map[];
      ghost var all := UpsertAll(teams, rows, map[]);
      for i := 0 to |rows|
        invariant UniqueNames(teams) && ids.Values <= teams.Keys
        invariant UpsertAll(teams, rows[i..], ids) == all
      {
        assert rows[i..][1..] == rows[i + 1..];
        var (upserted, actual) := UpsertByName(teams, rows[i]);
        teams := upserted;
        ids := ids[rows[i].id := actual];
      }
    }

    /** `restore_teams`: two passes inside the import transaction, rolled back on a cycle. */
    method RestoreTeams(rows: seq<TeamRow>) returns (r: Result<nat, Error>)
      requires ValidTeams(teams)
      modifies this
      ensures teams == TeamStep(old(teams), ImportTeams(rows)).0
      ensures r == if Import(old(teams), rows).Some? then Ok(|rows|) else Err(Invalid)
      ensures ValidTeams(teams)
    {
      TeamStepKeepsValid(teams, ImportTeams(rows));
      var before := teams;
      var ids := UpsertRows(rows);
      ghost var all := (teams, ids);
      for i := 0 to |rows|
        invariant ids == all.1 && ids.Values <= teams.Keys
        invariant LinkAll(teams, rows[i..], ids) == Import(before, rows)
      {
        assert rows[i..][1..] == rows[i + 1..];
        var actual := ids[rows[i].id];
        var parent := ResolvedParent(rows[i], ids);
        if parent.Some? {
          var hit := WouldCycle(actual, parent.value);
          if parent.value == actual || hit {
            ReachesSelf(ParentEdges(teams), actual);
            teams := before;
            return Err(Invalid);
          }
        }
        teams := Reparented(teams, actual, parent);
      }
      return Ok(|rows|);
    }
  }
}
