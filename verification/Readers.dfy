/**
 Who can read a record: the read and write predicates of the data layer, and the set of
 readers the notification engine resolves, with exactly the readers it misses.
 */
module Readers {
  import opened Common
  import opened Graphs
  import opened Sharing
  import opened TeamHierarchies

  datatype Owd = Private | TeamRead | PublicRead | PublicReadWrite

  datatype User = User(active: bool, team: Option<Uuid>)

  /** The security tables of one tenant. */
  datatype Directory = Directory(
    users: map<Uuid, User>,
    assignments: set<(Uuid, Uuid)>,
    permissions: set<(Uuid, string, string)>,
    owd: map<string, Owd>,
    teams: Teams,
    roleParents: Edges,
    rules: Rules,
    shares: Shares)

  /** The viewer's record scope on one entity. */
  datatype Scope = Scope(
    user: Uuid, publicRead: bool, publicWrite: bool, bypass: bool, teamOwd: bool, team: Option<Uuid>)

  function OwdOf(d: Directory, entity: string): Owd {
    if entity in d.owd then d.owd[entity] else Private
  }

  function AllowsReadForAll(o: Owd): bool {
    o == PublicRead || o == PublicReadWrite
  }

  /** A superuser is whoever holds a role with every verb on everything. */
  predicate IsSuperuser(d: Directory, u: Uuid) {
    exists a :: a in d.assignments && a.0 == u && (a.1, "*", "*") in d.permissions
  }

  function ScopeFor(d: Directory, viewer: Uuid, entity: string): Scope
    requires viewer in d.users
  {
    var o, u := OwdOf(d, entity), d.users[viewer];
    Scope(viewer, AllowsReadForAll(o), o == PublicReadWrite, IsSuperuser(d, viewer), o == TeamRead, u.team)
  }

  // ===== the predicates of the data layer =====

  /** A share that passes the gate, held by the viewer or the viewer's team. */
  ghost predicate SharedWith(d: Directory, s: Scope, record: Uuid, writing: bool) {
    exists p :: (record, p) in d.shares && (p == s.user || s.team == Some(p))
             && PassesGate(d.rules, d.shares[(record, p)])
             && (writing ==> d.shares[(record, p)].access == Write)
  }

  /** Team OWD: the owner's team is at or below the viewer's, walking the parent links downward. */
  ghost predicate TeamClause(d: Directory, s: Scope, owner: Uuid) {
    && s.teamOwd && s.team.Some?
    && owner in d.users && d.users[owner].team.Some?
    && Reaches(Inverse(ParentEdges(d.teams)), s.team.value, d.users[owner].team.value)
  }

  /** Role hierarchy: some role of the owner is at or below some role of the viewer. */
  ghost predicate RoleClause(d: Directory, s: Scope, owner: Uuid) {
    exists mine, theirs :: (s.user, mine) in d.assignments && (owner, theirs) in d.assignments
                        && owner in d.users && Reaches(Inverse(d.roleParents), mine, theirs)
  }

  ghost predicate ReadPredicate(d: Directory, s: Scope, record: Uuid, owner: Uuid) {
    || s.bypass || s.publicRead
    || owner == s.user
    || SharedWith(d, s, record, false)
    || TeamClause(d, s, owner)
    || RoleClause(d, s, owner)
  }

  ghost predicate WritePredicate(d: Directory, s: Scope, record: Uuid, owner: Uuid) {
    s.bypass || s.publicWrite || owner == s.user || SharedWith(d, s, record, true)
  }

  /** Whoever may write a record may read it, for the scope of any user on any entity. */
  lemma WriteImpliesRead(d: Directory, viewer: Uuid, entity: string, record: Uuid, owner: Uuid)
    requires viewer in d.users && WritePredicate(d, ScopeFor(d, viewer, entity), record, owner)
    ensures ReadPredicate(d, ScopeFor(d, viewer, entity), record, owner)
  {
    var s := ScopeFor(d, viewer, entity);
    if SharedWith(d, s, record, true) {
      var p :| (record, p) in d.shares && (p == s.user || s.team == Some(p))
            && PassesGate(d.rules, d.shares[(record, p)]) && d.shares[(record, p)].access == Write;
      assert SharedWith(d, s, record, false);
    }
  }

  /** The descendant-team walk of the read predicate. */
  method OwnerTeamBelow(d: Directory, s: Scope, owner: Uuid) returns (r: bool)
    ensures r <==> TeamClause(d, s, owner)
  {
    if !s.teamOwd || s.team.None? {
      return false;
    }
    var below := RecursiveUnion(Inverse(ParentEdges(d.teams)), {s.team.value});
    r := owner in d.users && d.users[owner].team.Some? && d.users[owner].team.value in below;
    if owner in d.users && d.users[owner].team.Some? {
      assert d.users[owner].team.value in below
        <==> ReachedFrom(Inverse(ParentEdges(d.teams)), {s.team.value}, d.users[owner].team.value);
    }
  }

  /** The read predicate as the query evaluates it: two downward recursive walks. */
  method CanRead(d: Directory, s: Scope, record: Uuid, owner: Uuid) returns (r: bool)
    ensures r <==> ReadPredicate(d, s, record, owner)
  {
    if s.bypass || s.publicRead || owner == s.user {
      return true;
    }
    var principals := {s.user} + if s.team.Some? then {s.team.value} else {};
    if exists p :: p in principals && (record, p) in d.shares && PassesGate(d.rules, d.shares[(record, p)]) {
      return true;
    }
    assert !SharedWith(d, s, record, false);
    var team := OwnerTeamBelow(d, s, owner);
    if team {
      return true;
    }
    var mine := set a | a in d.assignments && a.0 == s.user :: a.1;
    var subRoles := RecursiveUnion(Inverse(d.roleParents), mine);
    r := owner in d.users && exists a :: a in d.assignments && a.0 == owner && a.1 in subRoles;
    if r {
      var a :| a in d.assignments && a.0 == owner && a.1 in subRoles;
      assert ReachedFrom(Inverse(d.roleParents), mine, a.1);
      ghost var m :| m in mine && Reaches(Inverse(d.roleParents), m, a.1);
      assert (s.user, m) in d.assignments && (owner, a.1) in d.assignments;
    }
    if RoleClause(d, s, owner) {
      ghost var m, t :| (s.user, m) in d.assignments && (owner, t) in d.assignments && owner in d.users
        && Reaches(Inverse(d.roleParents), m, t);
      assert m in mine;
      assert ReachedFrom(Inverse(d.roleParents), mine, t);
      assert (owner, t).1 in subRoles;
    }
  }

  // ===== the readers a notification resolves =====

  predicate GrantsRead(d: Directory, role: Uuid, entity: string) {
    exists p :: p in d.permissions && p.0 == role && (p.1 == entity || p.1 == "*") && (p.2 == "read" || p.2 == "*")
  }

  /** Active users with a role granting read on the entity. */
  function ObjectReaders(d: Directory, entity: string): set<Uuid> {
    set u | u in d.users && d.users[u].active && exists a ::
      a in d.assignments && a.0 == u && GrantsRead(d, a.1, entity)
  }

  /** Every active superuser is a reader of every entity at the object level. */
  lemma SuperusersAreObjectReaders(d: Directory, entity: string, u: Uuid)
    requires u in d.users && d.users[u].active && IsSuperuser(d, u)
    ensures u in ObjectReaders(d, entity)
  {
    var a :| a in d.assignments && a.0 == u && (a.1, "*", "*") in d.permissions;
    var p := (a.1, "*", "*");
    assert p in d.permissions && p.0 == a.1;
    assert GrantsRead(d, a.1, entity);
  }

  /** So a superuser who neither owns a private record nor holds a share of it is always missed. */
  lemma SuperusersMissed(d: Directory, entity: string, record: Uuid, owner: Uuid, u: Uuid)
    requires u in d.users && d.users[u].active && IsSuperuser(d, u)
    requires OwdOf(d, entity) == Private && u != owner && (record, u) !in d.shares
    ensures u in ObjectReaders(d, entity) && ReadPredicate(d, ScopeFor(d, u, entity), record, owner)
    ensures !Notified(d, entity, record, owner, u)
  {
    SuperusersAreObjectReaders(d, entity, u);
  }

  /** A share row of this entity naming the user that passes the gate. */
  predicate DirectShare(d: Directory, entity: string, record: Uuid, u: Uuid) {
    (record, u) in d.shares && d.shares[(record, u)].entity == entity && PassesGate(d.rules, d.shares[(record, u)])
  }

  /** The upward half of the team rule: the user's team is the owner's or an ancestor of it. */
  ghost predicate TeamSees(d: Directory, u: Uuid, owner: Uuid) {
    && u in d.users && d.users[u].team.Some?
    && owner in d.users && d.users[owner].team.Some?
    && Reaches(ParentEdges(d.teams), d.users[owner].team.value, d.users[u].team.value)
  }

  ghost predicate Notified(d: Directory, entity: string, record: Uuid, owner: Uuid, u: Uuid) {
    && u in ObjectReaders(d, entity)
    && (|| AllowsReadForAll(OwdOf(d, entity))
        || u == owner
        || DirectShare(d, entity, record, u)
        || (OwdOf(d, entity) == TeamRead && TeamSees(d, u, owner)))
  }

  /** `resolve_record_readers`. */
  method ResolveRecordReaders(d: Directory, entity: string, owner: Uuid, record: Uuid) returns (readers: set<Uuid>)
    ensures forall u :: u in readers <==> Notified(d, entity, record, owner, u)
  {
    var owd := OwdOf(d, entity);
    var allowed := ObjectReaders(d, entity);
    if AllowsReadForAll(owd) {
      return allowed;
    }
    readers := {};
    if owner in allowed {
      readers := readers + {owner};
    }
    var principals := set k | k in d.shares && k.0 == record && d.shares[k].entity == entity
      && PassesGate(d.rules, d.shares[k]) :: k.1;
    assert forall u :: u in principals <==> DirectShare(d, entity, record, u) by {
      forall u
        ensures u in principals <==> DirectShare(d, entity, record, u)
      {
        if DirectShare(d, entity, record, u) {
          assert (record, u).1 in principals;
        }
      }
    }
    readers := AddAllowed(readers, principals, allowed);
    if owd == TeamRead {
      var seed := if owner in d.users && d.users[owner].team.Some? then {d.users[owner].team.value} else {};
      var ancestors := RecursiveUnion(ParentEdges(d.teams), seed);
      var teammates := set u | u in d.users && d.users[u].active && d.users[u].team.Some?
        && d.users[u].team.value in ancestors;
      forall u | u in allowed
        ensures u in teammates <==> TeamSees(d, u, owner)
      {
        if u in teammates || TeamSees(d, u, owner) {
          assert ReachedFrom(ParentEdges(d.teams), seed, d.users[u].team.value);
        }
      }
      readers := AddAllowed(readers, teammates, allowed);
    }
  }

  /**
   The team part is exact, on cyclic parent links too: the viewer's team is in the upward
   closure of the owner's team iff the owner's team is in the downward closure of the viewer's.
   */
  lemma TeamPartExact(d: Directory, u: Uuid, entity: string, owner: Uuid)
    requires u in d.users && OwdOf(d, entity) == TeamRead
    ensures TeamSees(d, u, owner) <==> TeamClause(d, ScopeFor(d, u, entity), owner)
  {
    if d.users[u].team.Some? && owner in d.users && d.users[owner].team.Some? {
      InverseReaches(ParentEdges(d.teams), d.users[owner].team.value, d.users[u].team.value);
    }
  }

  /** Nobody is notified of a record they could not read. */
  lemma NotifiedCanRead(d: Directory, entity: string, record: Uuid, owner: Uuid, u: Uuid)
    requires Notified(d, entity, record, owner, u)
    ensures u in d.users && ReadPredicate(d, ScopeFor(d, u, entity), record, owner)
  {
    var s := ScopeFor(d, u, entity);
    if DirectShare(d, entity, record, u) {
      assert SharedWith(d, s, record, false);
    }
    if OwdOf(d, entity) == TeamRead {
      TeamPartExact(d, u, entity, owner);
    }
  }

  /** A live share held by the viewer's team rather than the viewer. */
  predicate TeamShare(d: Directory, s: Scope, record: Uuid) {
    s.team.Some? && (record, s.team.value) in d.shares && PassesGate(d.rules, d.shares[(record, s.team.value)])
  }

  lemma TeamShareShares(d: Directory, s: Scope, record: Uuid)
    requires TeamShare(d, s, record)
    ensures SharedWith(d, s, record, false)
  {
    var p := s.team.value;
    assert (record, p) in d.shares && s.team == Some(p);
  }

  /** Every share of the record is filed under its entity. */
  ghost predicate FiledUnder(d: Directory, entity: string, record: Uuid) {
    forall k :: k in d.shares && k.0 == record ==> d.shares[k].entity == entity
  }

  /** No clause of the resolution applies: the caller can check each before asking. */
  ghost predicate NoClauseApplies(d: Directory, entity: string, record: Uuid, owner: Uuid, u: Uuid) {
    && !AllowsReadForAll(OwdOf(d, entity)) && u != owner && !DirectShare(d, entity, record, u)
    && !(OwdOf(d, entity) == TeamRead && TeamSees(d, u, owner))
  }

  /**
   The readers it misses, exactly: an object-level reader to whom the record is not public, shared
   directly or visible through the team tree, who does not own it, and whom superuser rights, a
   share of the team or the role hierarchy let read it.
   */
  lemma MissedReaders(d: Directory, entity: string, record: Uuid, owner: Uuid, u: Uuid)
    requires u in ObjectReaders(d, entity) && FiledUnder(d, entity, record)
    ensures var s := ScopeFor(d, u, entity);
      (ReadPredicate(d, s, record, owner) && !Notified(d, entity, record, owner, u))
      <==> (NoClauseApplies(d, entity, record, owner, u)
            && (IsSuperuser(d, u) || TeamShare(d, s, record) || RoleClause(d, s, owner)))
  {
    var s := ScopeFor(d, u, entity);
    if TeamShare(d, s, record) {
      TeamShareShares(d, s, record);
    }
    if SharedWith(d, s, record, false) && !TeamShare(d, s, record) {
      assert DirectShare(d, entity, record, u);
    }
    if OwdOf(d, entity) == TeamRead {
      TeamPartExact(d, u, entity, owner);
    }
  }

  /** A record shared with a team alone notifies none of the members who read it through the share. */
  lemma TeamSharesNotifyNobody(d: Directory, entity: string, record: Uuid, owner: Uuid, u: Uuid)
    requires u in ObjectReaders(d, entity) && OwdOf(d, entity) == Private && u != owner
    requires TeamShare(d, ScopeFor(d, u, entity), record) && (record, u) !in d.shares
    ensures ReadPredicate(d, ScopeFor(d, u, entity), record, owner) && !Notified(d, entity, record, owner, u)
  {
    TeamShareShares(d, ScopeFor(d, u, entity), record);
  }
}
