/** The role hierarchy: a role may have several parents, and the graph must stay acyclic. */
module RoleHierarchies {
  import opened Common
  import opened Graphs

  /** `parents` holds (role, parent) pairs; both ends are foreign keys. */
  datatype RoleGraph = RoleGraph(roles: set<Uuid>, parents: Edges)

  datatype RoleRow = RoleRow(role: Option<Uuid>, parent: Option<Uuid>)

  datatype RoleOp =
    | CreateRole(id: Uuid)
    | DeleteRole(id: Uuid)
    | AddParent(id: Uuid, parent: Uuid)
    | RemoveParent(id: Uuid, parent: Uuid)
    | ImportHierarchy(rows: seq<RoleRow>, roleIds: map<Uuid, Uuid>)

  ghost predicate ValidRoles(g: RoleGraph) {
    Nodes(g.parents) <= g.roles && Acyclic(g.parents)
  }

  /** A bundle id as an id of this tenant; unknown ids stand for themselves. */
  function Remap(ids: map<Uuid, Uuid>, id: Uuid): Uuid {
    if id in ids then ids[id] else id
  }

  /** The pair a bundle row names, unless an end is missing or it is a self-loop. */
  function RowPair(row: RoleRow, ids: map<Uuid, Uuid>): Option<(Uuid, Uuid)> {
    if row.role.None? || row.parent.None? then None
    else
      var role, parent := Remap(ids, row.role.value), Remap(ids, row.parent.value);
      if role == parent then None else Some((role, parent))
  }

  ghost function LinkRows(g: RoleGraph, rows: seq<RoleRow>, ids: map<Uuid, Uuid>): Result<RoleGraph, Error>
    decreases |rows|
  {
    if rows == [] then Ok(g)
    else
      match RowPair(rows[0], ids)
      case None => LinkRows(g, rows[1..], ids)
      case Some((role, parent)) =>
        if Reaches(g.parents, parent, role) then Err(Invalid)
        else if role !in g.roles || parent !in g.roles then Err(Internal)
        else LinkRows(g.(parents := g.parents + {(role, parent)}), rows[1..], ids)
  }

  ghost function RoleStep(g: RoleGraph, op: RoleOp): (RoleGraph, Result<(), Error>) {
    match op
    case CreateRole(id) => if id in g.roles then (g, Err(Conflict)) else (g.(roles := g.roles + {id}), Ok(()))
    case DeleteRole(id) =>
      if id !in g.roles then (g, Err(NotFound))
      else (RoleGraph(g.roles - {id}, set e | e in g.parents && e.0 != id && e.1 != id), Ok(()))
    case AddParent(id, parent) =>
      if id == parent then (g, Err(Invalid))
      else if id !in g.roles || parent !in g.roles then (g, Err(NotFound))
      else if Reaches(g.parents, parent, id) then (g, Err(Invalid))
      else (g.(parents := g.parents + {(id, parent)}), Ok(()))
    case RemoveParent(id, parent) =>
      if (id, parent) in g.parents then (g.(parents := g.parents - {(id, parent)}), Ok(())) else (g, Err(NotFound))
    case ImportHierarchy(rows, ids) =>
      match LinkRows(g, rows, ids)
      case Ok(linked) => (linked, Ok(()))
      case Err(e) => (g, Err(e))
  }

  lemma {:induction false} LinkRowsKeepsValid(g: RoleGraph, rows: seq<RoleRow>, ids: map<Uuid, Uuid>)
    requires ValidRoles(g)
    ensures LinkRows(g, rows, ids).Ok? ==> ValidRoles(LinkRows(g, rows, ids).value)
    decreases |rows|
  {
    if rows != [] {
      match RowPair(rows[0], ids)
      case None => LinkRowsKeepsValid(g, rows[1..], ids);
      case Some((role, parent)) =>
        if !Reaches(g.parents, parent, role) && role in g.roles && parent in g.roles {
          AddEdgeAcyclic(g.parents, role, parent);
          LinkRowsKeepsValid(g.(parents := g.parents + {(role, parent)}), rows[1..], ids);
        }
    }
  }

  lemma RoleStepKeepsValid(g: RoleGraph, op: RoleOp)
    requires ValidRoles(g)
    ensures ValidRoles(RoleStep(g, op).0)
  {
    match op
    case CreateRole(_) =>
    case DeleteRole(id) => AcyclicSubset(RoleStep(g, op).0.parents, g.parents);
    case AddParent(id, parent) => AddEdgeAcyclic(g.parents, id, parent);
    case RemoveParent(id, parent) => AcyclicSubset(g.parents - {(id, parent)}, g.parents);
    case ImportHierarchy(rows, ids) => LinkRowsKeepsValid(g, rows, ids);
  }

  ghost function RoleRun(g: RoleGraph, ops: seq<RoleOp>): RoleGraph
    decreases |ops|
  {
    if ops == [] then g else RoleRun(RoleStep(g, ops[0]).0, ops[1..])
  }

  /** Every run of role steps from an acyclic hierarchy ends in one. */
  lemma {:induction false} RoleRunKeepsValid(g: RoleGraph, ops: seq<RoleOp>)
    requires ValidRoles(g)
    ensures ValidRoles(RoleRun(g, ops))
    decreases |ops|
  {
    if ops != [] {
      RoleStepKeepsValid(g, ops[0]);
      RoleRunKeepsValid(RoleStep(g, ops[0]).0, ops[1..]);
    }
  }

  /** Parenting two distinct known roles is refused exactly when the edge would close a cycle. */
  lemma AddParentRefusedIffCycle(g: RoleGraph, id: Uuid, parent: Uuid)
    requires ValidRoles(g) && id in g.roles && parent in g.roles
    ensures RoleStep(g, AddParent(id, parent)).1 == Err(Invalid) <==> !Acyclic(g.parents + {(id, parent)})
  {
    AddEdgeAcyclic(g.parents, id, parent);
    ReachesSelf(g.parents, id);
  }

  /** The role and role-hierarchy tables and their handlers. */
  class RoleTable {
    var roles: set<Uuid>
    var parents: Edges

    constructor ()
      ensures Graph() == RoleGraph({}, {})
    {
      roles, parents := {}, {};
    }

    function Graph(): RoleGraph
      reads this
    {
      RoleGraph(roles, parents)
    }

    method WouldCycle(id: Uuid, parent: Uuid) returns (hit: bool)
      ensures hit <==> Reaches(parents, parent, id)
    {
      var up := RecursiveUnion(parents, {parent});
      hit := id in up;
      assert ReachedFrom(parents, {parent}, id) <==> Reaches(parents, parent, id);
    }

    method Add(id: Uuid, parent: Uuid) returns (r: Result<(), Error>)
      requires ValidRoles(Graph())
      modifies this
      ensures (Graph(), r) == RoleStep(old(Graph()), AddParent(id, parent))
      ensures ValidRoles(Graph())
    {
      RoleStepKeepsValid(Graph(), AddParent(id, parent));
      if id == parent {
        return Err(Invalid);
      }
      if id !in roles || parent !in roles {
        return Err(NotFound);
      }
      var hit := WouldCycle(id, parent);
      if hit {
        return Err(Invalid);
      }
      parents := parents + {(id, parent)};
      return Ok(());
    }

    method Remove(id: Uuid, parent: Uuid) returns (r: Result<(), Error>)
      requires ValidRoles(Graph())
      modifies this`parents
      ensures (Graph(), r) == RoleStep(old(Graph()), RemoveParent(id, parent))
      ensures ValidRoles(Graph())
    {
      RoleStepKeepsValid(Graph(), RemoveParent(id, parent));
      if (id, parent) !in parents {
        return Err(NotFound);
      }
      parents := parents - {(id, parent)};
      return Ok(());
    }

    /** `restore_role_hierarchy`: link row by row; `n` counts the pairs that were new. */
    method RestoreHierarchy(rows: seq<RoleRow>, ids: map<Uuid, Uuid>) returns (r: Result<nat, Error>)
      requires ValidRoles(Graph())
      modifies this`parents
      ensures Graph() == RoleStep(old(Graph()), ImportHierarchy(rows, ids)).0
      ensures r.Ok? <==> LinkRows(old(Graph()), rows, ids).Ok?
      ensures r.Ok? ==> |parents| == |old(parents)| + r.value
      ensures ValidRoles(Graph())
    {
      RoleStepKeepsValid(Graph(), ImportHierarchy(rows, ids));
      var before := parents;
      var n := 0;
      for i := 0 to |rows|
        invariant roles == old(roles) && |parents| == |before| + n
        invariant LinkRows(Graph(), rows[i..], ids) == LinkRows(old(Graph()), rows, ids)
      {
        assert rows[i..][1..] == rows[i + 1..];
        var pair := RowPair(rows[i], ids);
        if pair.Some? {
          var (role, parent) := pair.value;
          var hit := WouldCycle(role, parent);
          if hit {
            parents := before;
            return Err(Invalid);
          }
          if role !in roles || parent !in roles {
            parents := before;
            return Err(Internal);
          }
          if (role, parent) !in parents {
            n := n + 1;
          }
          parents := parents + {(role, parent)};
        }
      }
      return Ok(n);
    }
  }
}
