/**
 Who may read and write a record and who is notified of it, in terms of the rows of the security
 tables alone, and what a share given by hand lets its principal do.
 */
module ReadAccess {
  import opened Common
  import opened Graphs
  import opened Sharing
  import opened TeamHierarchies
  import opened Readers

  // ===== the rows that grant =====

  /** Some role of the user has every verb on everything. */
  ghost predicate HoldsEverything(d: Directory, u: Uuid) {
    exists role :: (u, role) in d.assignments && (role, "*", "*") in d.permissions
  }

  /** Some role of the user has the verb `read`, or every verb, on the entity or on everything. */
  ghost predicate HoldsRead(d: Directory, u: Uuid, entity: string) {
    exists role, on, verb :: (u, role) in d.assignments && (role, on, verb) in d.permissions
      && (on == entity || on == "*") && (verb == "read" || verb == "*")
  }

  /** A share row gives its principal access: put there by hand, or by an active rule at its present epoch. */
  ghost predicate Gives(d: Directory, record: Uuid, principal: Uuid) {
    var key := (record, principal);
    && key in d.shares
    && match d.shares[key].rule
       case None => true
       case Some(id) => id in d.rules && d.rules[id].active && d.rules[id].epoch == d.shares[key].epoch
  }

  /** The user or the user's team. */
  predicate IsPrincipal(d: Directory, u: Uuid, p: Uuid) {
    p == u || (u in d.users && d.users[u].team == Some(p))
  }

  /** Parent links lead from one team up to another. */
  ghost predicate TeamUnder(d: Directory, below: Uuid, above: Uuid) {
    exists line: seq<Uuid> :: Joins(line, below, above) && TeamLine(d, line)
  }

  /** Parent links lead from one role up to another. */
  ghost predicate RoleUnder(d: Directory, below: Uuid, above: Uuid) {
    exists line: seq<Uuid> :: Joins(line, below, above) && RoleLine(d, line)
  }

  predicate Joins(line: seq<Uuid>, first: Uuid, last: Uuid) {
    line != [] && line[0] == first && line[|line| - 1] == last
  }

  ghost predicate TeamLine(d: Directory, line: seq<Uuid>) {
    forall k :: 0 <= k < |line| - 1 ==> line[k] in d.teams && d.teams[line[k]].parent == Some(line[k + 1])
  }

  ghost predicate RoleLine(d: Directory, line: seq<Uuid>) {
    forall k :: 0 <= k < |line| - 1 ==> (line[k], line[k + 1]) in d.roleParents
  }

  ghost predicate OwdIs(d: Directory, entity: string, owd: Owd) {
    entity in d.owd && d.owd[entity] == owd
  }

  // ===== reading and writing =====

  /** The owner's team is the viewer's or below it. */
  ghost predicate OwnerOfTeamBelow(d: Directory, viewer: Uuid, owner: Uuid) {
    && viewer in d.users && owner in d.users && d.users[viewer].team.Some? && d.users[owner].team.Some?
    && TeamUnder(d, d.users[owner].team.value, d.users[viewer].team.value)
  }

  /** Some role of the owner is a role of the viewer or below one. */
  ghost predicate OwnerOfRoleBelow(d: Directory, viewer: Uuid, owner: Uuid) {
    owner in d.users && exists mine, theirs ::
      (viewer, mine) in d.assignments && (owner, theirs) in d.assignments && RoleUnder(d, theirs, mine)
  }

  lemma PathIsTeamLine(d: Directory, below: Uuid, above: Uuid)
    ensures Reaches(ParentEdges(d.teams), below, above) <==> TeamUnder(d, below, above)
  {
    if Reaches(ParentEdges(d.teams), below, above) {
      var p :| PathFromTo(ParentEdges(d.teams), p, below, above);
      forall k | 0 <= k < |p| - 1
        ensures p[k] in d.teams && d.teams[p[k]].parent == Some(p[k + 1])
      {
        var e := (p[k], p[k + 1]);
        assert e in ParentEdges(d.teams) && e.0 == p[k] && e.1 == p[k + 1];
      }
      assert Joins(p, below, above) && TeamLine(d, p);
    }
    if line: seq<Uuid> :| Joins(line, below, above) && TeamLine(d, line) {
      forall k | 0 <= k < |line| - 1
        ensures (line[k], line[k + 1]) in ParentEdges(d.teams)
      {
      }
      assert PathFromTo(ParentEdges(d.teams), line, below, above);
    }
  }

  lemma PathIsRoleLine(d: Directory, below: Uuid, above: Uuid)
    ensures Reaches(d.roleParents, below, above) <==> RoleUnder(d, below, above)
  {
    if Reaches(d.roleParents, below, above) {
      var p :| PathFromTo(d.roleParents, p, below, above);
      assert Joins(p, below, above) && RoleLine(d, p);
    }
    if line: seq<Uuid> :| Joins(line, below, above) && RoleLine(d, line) {
      assert PathFromTo(d.roleParents, line, below, above);
    }
  }

  lemma SuperuserHoldsEverything(d: Directory, u: Uuid)
    ensures IsSuperuser(d, u) <==> HoldsEverything(d, u)
  {
    if IsSuperuser(d, u) {
      var a :| a in d.assignments && a.0 == u && (a.1, "*", "*") in d.permissions;
      var role := a.1;
      assert a == (u, role);
      assert (u, role) in d.assignments && (role, "*", "*") in d.permissions;
    }
    if role :| (u, role) in d.assignments && (role, "*", "*") in d.permissions {
      var a := (u, role);
      assert a in d.assignments && a.0 == u && (a.1, "*", "*") in d.permissions;
    }
  }

  lemma SharedIffGiven(d: Directory, viewer: Uuid, entity: string, record: Uuid, writing: bool)
    requires viewer in d.users
    ensures SharedWith(d, ScopeFor(d, viewer, entity), record, writing)
      <==> exists p :: IsPrincipal(d, viewer, p) && Gives(d, record, p)
                       && (writing ==> d.shares[(record, p)].access == Write)
  {
    var s := ScopeFor(d, viewer, entity);
    forall p
      ensures Gives(d, record, p) <==> (record, p) in d.shares && PassesGate(d.rules, d.shares[(record, p)])
      ensures IsPrincipal(d, viewer, p) <==> (p == s.user || s.team == Some(p))
    {
    }
    if SharedWith(d, s, record, writing) {
      var p :| (record, p) in d.shares && (p == s.user || s.team == Some(p))
        && PassesGate(d.rules, d.shares[(record, p)]) && (writing ==> d.shares[(record, p)].access == Write);
      assert IsPrincipal(d, viewer, p) && Gives(d, record, p);
    }
    if p :| IsPrincipal(d, viewer, p) && Gives(d, record, p) && (writing ==> d.shares[(record, p)].access == Write) {
      assert (record, p) in d.shares;
    }
  }

  lemma TeamClauseIff(d: Directory, viewer: Uuid, entity: string, owner: Uuid)
    requires viewer in d.users
    ensures TeamClause(d, ScopeFor(d, viewer, entity), owner)
      <==> OwdIs(d, entity, TeamRead) && OwnerOfTeamBelow(d, viewer, owner)
  {
    if owner in d.users && d.users[viewer].team.Some? && d.users[owner].team.Some? {
      var mine, theirs := d.users[viewer].team.value, d.users[owner].team.value;
      InverseReaches(ParentEdges(d.teams), theirs, mine);
      PathIsTeamLine(d, theirs, mine);
    }
  }

  lemma RoleClauseIff(d: Directory, viewer: Uuid, entity: string, owner: Uuid)
    requires viewer in d.users
    ensures RoleClause(d, ScopeFor(d, viewer, entity), owner) <==> OwnerOfRoleBelow(d, viewer, owner)
  {
    forall mine, theirs
      ensures Reaches(Inverse(d.roleParents), mine, theirs) <==> RoleUnder(d, theirs, mine)
    {
      InverseReaches(d.roleParents, theirs, mine);
      PathIsRoleLine(d, theirs, mine);
    }
  }

  /**
   Who reads a record, row by row: superusers, everyone when it is public, its owner, those it is shared with, and
   those above the owner.
   */
  lemma ReadableIff(d: Directory, viewer: Uuid, entity: string, record: Uuid, owner: Uuid)
    requires viewer in d.users
    ensures ReadPredicate(d, ScopeFor(d, viewer, entity), record, owner) <==>
      || HoldsEverything(d, viewer)
      || OwdIs(d, entity, PublicRead) || OwdIs(d, entity, PublicReadWrite)
      || viewer == owner
      || (exists p :: IsPrincipal(d, viewer, p) && Gives(d, record, p))
      || (OwdIs(d, entity, TeamRead) && OwnerOfTeamBelow(d, viewer, owner))
      || OwnerOfRoleBelow(d, viewer, owner)
  {
    SuperuserHoldsEverything(d, viewer);
    SharedIffGiven(d, viewer, entity, record, false);
    TeamClauseIff(d, viewer, entity, owner);
    RoleClauseIff(d, viewer, entity, owner);
  }

  /**
   Who writes it: superusers, everyone when it is public to write, its owner, and those it is shared with for writing.
   */
  lemma WritableIff(d: Directory, viewer: Uuid, entity: string, record: Uuid, owner: Uuid)
    requires viewer in d.users
    ensures WritePredicate(d, ScopeFor(d, viewer, entity), record, owner) <==>
      || HoldsEverything(d, viewer) || OwdIs(d, entity, PublicReadWrite) || viewer == owner
      || exists p :: IsPrincipal(d, viewer, p) && Gives(d, record, p) && d.shares[(record, p)].access == Write
  {
    SuperuserHoldsEverything(d, viewer);
    SharedIffGiven(d, viewer, entity, record, true);
  }

  // ===== being notified =====

  lemma ReadersHoldRead(d: Directory, entity: string, u: Uuid)
    ensures u in ObjectReaders(d, entity) <==> u in d.users && d.users[u].active && HoldsRead(d, u, entity)
  {
    if u in ObjectReaders(d, entity) {
      var a :| a in d.assignments && a.0 == u && GrantsRead(d, a.1, entity);
      var p :| p in d.permissions && p.0 == a.1 && (p.1 == entity || p.1 == "*") && (p.2 == "read" || p.2 == "*");
      assert (u, a.1) in d.assignments && (a.1, p.1, p.2) in d.permissions;
    }
    if HoldsRead(d, u, entity) {
      var role, on, verb :| (u, role) in d.assignments && (role, on, verb) in d.permissions
        && (on == entity || on == "*") && (verb == "read" || verb == "*");
      var p := (role, on, verb);
      assert p in d.permissions && p.0 == role;
      assert GrantsRead(d, (u, role).1, entity);
    }
  }

  /** Whom the notification resolves, row by row. */
  lemma NotifiedIff(d: Directory, entity: string, record: Uuid, owner: Uuid, u: Uuid)
    ensures Notified(d, entity, record, owner, u) <==>
      && u in d.users && d.users[u].active && HoldsRead(d, u, entity)
      && (|| OwdIs(d, entity, PublicRead) || OwdIs(d, entity, PublicReadWrite)
          || u == owner
          || (Gives(d, record, u) && d.shares[(record, u)].entity == entity)
          || (OwdIs(d, entity, TeamRead) && OwnerOfTeamBelow(d, u, owner)))
  {
    ReadersHoldRead(d, entity, u);
    if u in d.users && owner in d.users && d.users[u].team.Some? && d.users[owner].team.Some? {
      PathIsTeamLine(d, d.users[owner].team.value, d.users[u].team.value);
    }
  }
}
