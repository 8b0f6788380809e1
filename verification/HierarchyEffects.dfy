/** What each edit of a hierarchy stores, in terms of the rows alone. */
module HierarchyEffects {
  import opened Common
  import opened Graphs
  import opened Paths
  import opened TeamHierarchies
  import opened RoleHierarchies

  // ===== teams =====

  /** All rows but those of `ids` are as they were. */
  predicate OthersStay(ts: Teams, ts': Teams, ids: set<Uuid>) {
    && (forall t :: t in ts && t !in ids ==> t in ts' && ts'[t] == ts[t])
    && (forall t :: t in ts' && t !in ids ==> t in ts)
  }

  /** No team but `except` has the name. */
  ghost predicate NameFree(ts: Teams, name: string, except: set<Uuid>) {
    forall t :: t in ts && t !in except ==> ts[t].name != name
  }

  /** A team is created iff it has a name no other has, its parent is there and its id is new. */
  lemma TeamCreated(ts: Teams, id: Uuid, name: string, parent: Option<Uuid>)
    requires UniqueNames(ts)
    ensures var (ts', r) := TeamStep(ts, CreateTeam(id, name, parent));
      && (r.Ok? <==> !Blank(name) && id !in ts && NameFree(ts, name, {}) && (parent.Some? ==> parent.value in ts))
      && (r.Ok? ==> id in ts' && ts'[id] == Team(name, parent) && OthersStay(ts, ts', {id}))
      && (r.Err? ==> ts' == ts)
      && (Blank(name) ==> r == Err(Invalid))
      && (!Blank(name) && parent.Some? && parent.value !in ts ==> r == Err(NotFound))
      && (!Blank(name) && (parent.Some? ==> parent.value in ts) && !r.Ok? ==> r == Err(Conflict))
  {
    BlankTrimsToNothing(name);
    assert NameTaken(ts, name, None) <==> !NameFree(ts, name, {});
  }

  /** An update gives the team the name and the parent it names, and leaves what it does not. */
  lemma TeamUpdated(ts: Teams, id: Uuid, newName: Option<string>, newParent: Option<Option<Uuid>>)
    requires UniqueNames(ts)
    ensures var (ts', r) := TeamStep(ts, UpdateTeam(id, newName, newParent));
      && (r.Ok? <==>
            && id in ts && (newName.Some? ==> !Blank(newName.value) && NameFree(ts, newName.value, {id}))
            && (newParent.Some? && newParent.value.Some? ==>
                  newParent.value.value in ts && !Reaches(ParentEdges(ts), newParent.value.value, id)))
      && (r.Ok? ==>
            && id in ts' && OthersStay(ts, ts', {id})
            && ts'[id].name == (match newName case Some(n) => n case None => ts[id].name)
            && ts'[id].parent == (match newParent case Some(p) => p case None => ts[id].parent))
      && (r.Err? ==> ts' == ts)
  {
    ReachesSelf(ParentEdges(ts), id);
    if newName.Some? {
      BlankTrimsToNothing(newName.value);
      assert NameTaken(ts, newName.value, Some(id)) <==> !NameFree(ts, newName.value, {id});
    }
  }

  /** Deleting a team makes its children roots and changes nothing else. */
  lemma TeamDeleted(ts: Teams, id: Uuid)
    requires UniqueNames(ts)
    ensures var (ts', r) := TeamStep(ts, DeleteTeam(id));
      && (r == if id in ts then Ok(()) else Err(NotFound))
      && id !in ts' && OthersStay(ts, ts', {id} + (set t | t in ts && ts[t].parent == Some(id)))
      && (id in ts ==> forall t :: t in ts && t != id && ts[t].parent == Some(id) ==>
            t in ts' && ts'[t] == Team(ts[t].name, None))
  {
  }

  /** An imported row goes to the team of its name, or renames the team of its id, or is a new root. */
  lemma RowUpserted(ts: Teams, row: TeamRow)
    requires UniqueNames(ts)
    ensures var (ts', id) := UpsertByName(ts, row);
      && id in ts' && ts'[id].name == row.name && OthersStay(ts, ts', {id})
      && ((exists t :: t in ts && ts[t].name == row.name) ==> ts' == ts)
      && (NameFree(ts, row.name, {}) ==> id == row.id)
      && (NameFree(ts, row.name, {}) && row.id in ts ==> ts'[id].parent == ts[id].parent)
      && (NameFree(ts, row.name, {}) && row.id !in ts ==> ts'[id].parent == None)
  {
  }

  /** Each row is linked under the team its parent's row went to, and is a root if that is not in the bundle. */
  lemma RowLinked(row: TeamRow, ids: map<Uuid, Uuid>)
    ensures ResolvedParent(row, ids) ==
      match row.parent
      case None => None
      case Some(p) => if p in ids then Some(ids[p]) else None
  {
  }

  /** None of these rows links team `t`. */
  predicate NoneLinks(rows: seq<TeamRow>, ids: map<Uuid, Uuid>, from: nat, n: nat, t: Uuid)
    requires n <= |rows| && forall i :: 0 <= i < |rows| ==> rows[i].id in ids
  {
    forall i :: from <= i < n ==> ids[rows[i].id] != t
  }

  lemma {:induction false} UnlinkedStays(
      ts: Teams, rows: seq<TeamRow>, ids: map<Uuid, Uuid>, from: nat, n: nat, t: Uuid)
    requires ids.Values <= ts.Keys && from <= n <= |rows| && t in ts
    requires forall i :: 0 <= i < |rows| ==> rows[i].id in ids
    ensures Linked(ts, rows, ids, n)[t].name == Linked(ts, rows, ids, from)[t].name
    ensures NoneLinks(rows, ids, from, n, t) ==> Linked(ts, rows, ids, n)[t] == Linked(ts, rows, ids, from)[t]
    decreases n
  {
    if n > from {
      UnlinkedStays(ts, rows, ids, from, n - 1, t);
      OneMoreLink(ts, rows, ids, n, t);
    }
  }

  /** Linking touches the parents of the bundle's teams alone; the last row for a team decides. */
  lemma LinksOfRun(ts: Teams, rows: seq<TeamRow>, ids: map<Uuid, Uuid>, n: nat, t: Uuid)
    requires ids.Values <= ts.Keys && n <= |rows| && t in ts
    requires forall i :: 0 <= i < |rows| ==> rows[i].id in ids
    ensures var ts' := Linked(ts, rows, ids, n);
      && t in ts' && ts'[t].name == ts[t].name
      && (NoneLinks(rows, ids, 0, n, t) ==> ts'[t].parent == ts[t].parent)
      && forall i :: 0 <= i < n && ids[rows[i].id] == t && NoneLinks(rows, ids, i + 1, n, t) ==>
           ts'[t].parent == (match rows[i].parent
                             case None => None
                             case Some(p) => if p in ids then Some(ids[p]) else None)
  {
    UnlinkedStays(ts, rows, ids, 0, n, t);
    forall i | 0 <= i < n && ids[rows[i].id] == t && NoneLinks(rows, ids, i + 1, n, t)
      ensures Linked(ts, rows, ids, n)[t].parent == ResolvedParent(rows[i], ids)
    {
      OneMoreLink(ts, rows, ids, i + 1, t);
      UnlinkedStays(ts, rows, ids, i + 1, n, t);
    }
  }

  lemma OneMoreLink(ts: Teams, rows: seq<TeamRow>, ids: map<Uuid, Uuid>, n: nat, t: Uuid)
    requires ids.Values <= ts.Keys && 0 < n <= |rows| && t in ts
    requires forall i :: 0 <= i < |rows| ==> rows[i].id in ids
    ensures var before, after, row := Linked(ts, rows, ids, n - 1)[t], Linked(ts, rows, ids, n)[t], rows[n - 1];
      && after.name == before.name
      && after.parent == if ids[row.id] == t then ResolvedParent(row, ids) else before.parent
  {
  }

  // ===== roles =====

  /** A parent link is added iff both roles are there and it closes no cycle; nothing else changes. */
  lemma ParentAdded(g: RoleGraph, id: Uuid, parent: Uuid)
    ensures var (g', r) := RoleStep(g, AddParent(id, parent));
      && (r.Ok? <==> id in g.roles && parent in g.roles && !Reaches(g.parents, parent, id))
      && g'.roles == g.roles && g'.parents == (if r.Ok? then g.parents + {(id, parent)} else g.parents)
      && (r == Err(NotFound) <==> id != parent && (id !in g.roles || parent !in g.roles))
  {
    ReachesSelf(g.parents, id);
  }

  lemma ParentRemoved(g: RoleGraph, id: Uuid, parent: Uuid)
    ensures var (g', r) := RoleStep(g, RemoveParent(id, parent));
      && (r == if (id, parent) in g.parents then Ok(()) else Err(NotFound))
      && g'.roles == g.roles && g'.parents == g.parents - {(id, parent)}
  {
  }

  /** A deleted role takes its links with it, and no other. */
  lemma RoleDeleted(g: RoleGraph, id: Uuid)
    ensures var (g', r) := RoleStep(g, DeleteRole(id));
      && (r == if id in g.roles then Ok(()) else Err(NotFound))
      && g'.roles == g.roles - {id}
      && (id in g.roles ==> forall e :: e in g'.parents <==> e in g.parents && e.0 != id && e.1 != id)
  {
  }

  /** The role a bundle's id stands for. */
  predicate StandsFor(ids: map<Uuid, Uuid>, id: Uuid, role: Uuid) {
    if id in ids then role == ids[id] else role == id
  }

  /** A row of the bundle that names two different roles links them. */
  ghost predicate NamesLink(row: RoleRow, ids: map<Uuid, Uuid>, link: (Uuid, Uuid)) {
    && row.role.Some? && row.parent.Some? && link.0 != link.1
    && StandsFor(ids, row.role.value, link.0) && StandsFor(ids, row.parent.value, link.1)
  }

  lemma PairNamesLink(row: RoleRow, ids: map<Uuid, Uuid>, link: (Uuid, Uuid))
    ensures RowPair(row, ids) == Some(link) <==> NamesLink(row, ids, link)
  {
  }

  /** An accepted import adds exactly the links its rows name. */
  lemma {:induction false} LinksImported(g: RoleGraph, rows: seq<RoleRow>, ids: map<Uuid, Uuid>, link: (Uuid, Uuid))
    requires LinkRows(g, rows, ids).Ok?
    ensures LinkRows(g, rows, ids).value.roles == g.roles
    ensures link in LinkRows(g, rows, ids).value.parents
      <==> link in g.parents || exists i :: 0 <= i < |rows| && NamesLink(rows[i], ids, link)
    decreases |rows|
  {
    if rows != [] {
      PairNamesLink(rows[0], ids, link);
      var g' := match RowPair(rows[0], ids) case None => g case Some(pair) => g.(parents := g.parents + {pair});
      LinksImported(g', rows[1..], ids, link);
      if i :| 0 <= i < |rows| && NamesLink(rows[i], ids, link) {
        assert i > 0 ==> rows[1..][i - 1] == rows[i];
      }
      if i :| 0 <= i < |rows[1..]| && NamesLink(rows[1..][i], ids, link) {
        assert rows[i + 1] == rows[1..][i];
      }
    }
  }
}
