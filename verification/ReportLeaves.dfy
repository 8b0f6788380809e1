/**
 What a report reads, in terms of the stored rows alone: which paths are refused, which row a
 path leads to, and that each compiled reference reads that row's value under the path's name.
 */
module ReportLeaves {
  import opened Common
  import opened Reports

  // ===== which paths there are =====

  /** The relationship a name stands for: the first that has it. */
  ghost predicate FirstNamed(rels: seq<Relationship>, name: string, i: int) {
    0 <= i < |rels| && rels[i].field == name && forall k :: 0 <= k < i ==> rels[k].field != name
  }

  ghost predicate NoneNamed(rels: seq<Relationship>, name: string) {
    forall k :: 0 <= k < |rels| ==> rels[k].field != name
  }

  lemma {:induction false} FoundIsFirst(rels: seq<Relationship>, name: string)
    ensures FindRelationship(rels, name).None? <==> NoneNamed(rels, name)
    ensures forall i :: FirstNamed(rels, name, i) ==> FindRelationship(rels, name) == Some(rels[i])
    ensures FindRelationship(rels, name).Some? ==> exists i :: FirstNamed(rels, name, i)
    decreases |rels|
  {
    if rels != [] {
      FoundIsFirst(rels[1..], name);
      if rels[0].field == name {
        assert FirstNamed(rels, name, 0);
      } else {
        forall i | FirstNamed(rels, name, i)
          ensures FindRelationship(rels, name) == Some(rels[i])
        {
          assert forall k :: 0 <= k < i - 1 ==> rels[1..][k] == rels[k + 1];
          assert FirstNamed(rels[1..], name, i - 1);
        }
        if FindRelationship(rels, name).Some? {
          var i :| FirstNamed(rels[1..], name, i);
          assert forall k :: 1 <= k < i + 1 ==> rels[k] == rels[1..][k - 1];
          assert FirstNamed(rels, name, i + 1);
        }
      }
    }
  }

  /** A reference with a column, called `name`, leads from one entity to another. */
  ghost predicate Leads(schema: Schema, from: string, name: string, to: string) {
    && from in schema && to in schema
    && exists i :: FirstNamed(schema[from].relationships, name, i) && !schema[from].relationships[i].manyToMany
                   && schema[from].relationships[i].target == to
  }

  lemma LeadsIsTarget(schema: Schema, from: string, name: string, to: string)
    ensures Target(schema, from, name) == Some(to) <==> Leads(schema, from, name, to)
  {
    if from in schema {
      FoundIsFirst(schema[from].relationships, name);
    }
  }

  /** The entities along a path of references, the base first. */
  ghost predicate Along(schema: Schema, base: string, p: seq<string>, es: seq<string>) {
    && |es| == |p| + 1 && es[0] == base && base in schema
    && forall k :: 0 <= k < |p| ==> Leads(schema, es[k], p[k], es[k + 1])
  }

  lemma {:induction false} EntitiesAlong(schema: Schema, base: string, p: seq<string>) returns (es: seq<string>)
    requires EntityAt(schema, base, p).Some?
    ensures Along(schema, base, p, es) && EntityAt(schema, base, p) == Some(es[|p|])
    decreases |p|
  {
    if p == [] {
      es := [base];
    } else {
      var front := EntitiesAlong(schema, base, p[..|p| - 1]);
      LeadsIsTarget(schema, front[|p| - 1], p[|p| - 1], EntityAt(schema, base, p).value);
      es := front + [EntityAt(schema, base, p).value];
    }
  }

  lemma {:induction false} AlongIsEntityAt(schema: Schema, base: string, p: seq<string>, es: seq<string>, n: nat)
    requires Along(schema, base, p, es) && n <= |p|
    ensures EntityAt(schema, base, p[..n]) == Some(es[n]) && es[n] in schema
    decreases n
  {
    if n > 0 {
      AlongIsEntityAt(schema, base, p, es, n - 1);
      assert p[..n][..n - 1] == p[..n - 1];
      LeadsIsTarget(schema, es[n - 1], p[n - 1], es[n]);
    }
  }

  /** A name is a column of the entity: a system column, a reference that has one, or else a declared field. */
  ghost predicate IsColumn(def: EntityDef, name: string, kind: FieldKind) {
    var system := name in ["id", "version", "state", "owner_id", "created_at", "updated_at"];
    match kind
    case System => system
    case Fk => !system && exists i :: FirstNamed(def.relationships, name, i) && !def.relationships[i].manyToMany
    case Scalar => !system && NoneNamed(def.relationships, name) && name in def.fields
  }

  lemma LeafIsColumn(def: EntityDef, name: string, kind: FieldKind)
    ensures LeafKind(def, name) == Ok(kind) <==> IsColumn(def, name, kind)
  {
    FoundIsFirst(def.relationships, name);
  }

  /** The path follows references from entity to entity and ends in a column of the last. */
  ghost predicate IsPath(schema: Schema, base: string, segs: seq<string>, es: seq<string>, kind: FieldKind) {
    && segs != [] && Along(schema, base, segs[..|segs| - 1], es) && es[|segs| - 1] in schema
    && IsColumn(schema[es[|segs| - 1]], segs[|segs| - 1], kind)
  }

  /** A path resolves iff its names are not blank, it has at most three hops, and it is a path of the schema. */
  lemma ResolvesIff(schema: Schema, base: string, segs: seq<string>)
    ensures Resolvable(schema, base, segs) <==>
      "" !in segs && |segs| <= 4 && exists es, kind :: IsPath(schema, base, segs, es, kind)
  {
    if Resolvable(schema, base, segs) {
      var es, kind := PathOf(schema, base, segs);
      assert IsPath(schema, base, segs, es, kind);
    }
    if es, kind :| "" !in segs && |segs| <= 4 && IsPath(schema, base, segs, es, kind) {
      PathResolves(schema, base, segs, es, kind);
    }
  }

  lemma PathOf(schema: Schema, base: string, segs: seq<string>) returns (es: seq<string>, kind: FieldKind)
    requires Resolvable(schema, base, segs)
    ensures IsPath(schema, base, segs, es, kind)
  {
    var front := segs[..|segs| - 1];
    es := EntitiesAlong(schema, base, front);
    kind := LeafKind(schema[es[|front|]], segs[|segs| - 1]).value;
    LeafIsColumn(schema[es[|front|]], segs[|segs| - 1], kind);
  }

  lemma PathResolves(schema: Schema, base: string, segs: seq<string>, es: seq<string>, kind: FieldKind)
    requires "" !in segs && |segs| <= 4 && IsPath(schema, base, segs, es, kind)
    ensures Resolvable(schema, base, segs)
  {
    var front := segs[..|segs| - 1];
    forall k | 1 <= k < |segs|
      ensures Traversable(schema, base, segs[..k])
    {
      AlongIsEntityAt(schema, base, front, es, k);
      assert front[..k] == segs[..k];
    }
    AlongIsEntityAt(schema, base, front, es, |front|);
    assert front[..|front|] == front;
    LeafIsColumn(schema[es[|front|]], segs[|segs| - 1], kind);
  }

  /** A path that ends in a many-to-many relationship is refused, and so is one that ends in no name of the entity. */
  lemma LeafWithoutColumnRefused(schema: Schema, base: string, segs: seq<string>, es: seq<string>)
    requires segs != [] && Along(schema, base, segs[..|segs| - 1], es) && es[|segs| - 1] in schema
    requires segs[|segs| - 1] !in ["id", "version", "state", "owner_id", "created_at", "updated_at"]
    requires var def, name := schema[es[|segs| - 1]], segs[|segs| - 1];
      || (exists i :: FirstNamed(def.relationships, name, i) && def.relationships[i].manyToMany)
      || (NoneNamed(def.relationships, name) && name !in def.fields)
    ensures !Resolvable(schema, base, segs)
  {
    var front := segs[..|segs| - 1];
    AlongIsEntityAt(schema, base, front, es, |front|);
    assert front[..|front|] == front;
    FoundIsFirst(schema[es[|front|]].relationships, segs[|segs| - 1]);
  }

  // ===== which row a path leads to =====

  /** The row `id` holds a reference `name` to the row `next`, of the tenant and visible to the runner. */
  ghost predicate Refers(w: World, from: string, id: Uuid, name: string, to: string, next: Uuid) {
    && from in w.schema && to in w.schema
    && w.schema[from].table in w.db && id in w.db[w.schema[from].table]
    && name in w.db[w.schema[from].table][id].refs && w.db[w.schema[from].table][id].refs[name] == Some(next)
    && w.schema[to].table in w.db && next in w.db[w.schema[to].table]
    && w.db[w.schema[to].table][next].tenant == w.tenant
    && (to in w.who.broad || (to in w.who.visible && next in w.who.visible[to]))
  }

  /** The rows along a path, the base row first. */
  ghost predicate Trail(w: World, p: seq<string>, es: seq<string>, ids: seq<Uuid>)
    requires Along(w.schema, w.base, p, es)
  {
    && |ids| == |p| + 1 && ids[0] == w.row
    && forall k :: 0 <= k < |p| ==> Refers(w, es[k], ids[k], p[k], es[k + 1], ids[k + 1])
  }

  lemma {:induction false} TrailIsWalk(w: World, p: seq<string>, es: seq<string>, ids: seq<Uuid>, n: nat)
    requires Along(w.schema, w.base, p, es) && Trail(w, p, es, ids) && n <= |p|
    ensures Walk(w, p[..n]) == Some(ids[n])
    decreases n
  {
    if n > 0 {
      TrailIsWalk(w, p, es, ids, n - 1);
      AlongIsEntityAt(w.schema, w.base, p, es, n - 1);
      AlongIsEntityAt(w.schema, w.base, p, es, n);
      assert p[..n][..n - 1] == p[..n - 1];
      assert Refers(w, es[n - 1], ids[n - 1], p[n - 1], es[n], ids[n]);
    }
  }

  /** The last step of a walk that gets there. */
  lemma LastStep(w: World, p: seq<string>, es: seq<string>, n: nat)
    requires Along(w.schema, w.base, p, es) && 1 <= n <= |p| && Walk(w, p[..n]).Some?
    ensures Walk(w, p[..n - 1]).Some?
    ensures Refers(w, es[n - 1], Walk(w, p[..n - 1]).value, p[n - 1], es[n], Walk(w, p[..n]).value)
  {
    assert p[..n][..n - 1] == p[..n - 1];
    AlongIsEntityAt(w.schema, w.base, p, es, n - 1);
    AlongIsEntityAt(w.schema, w.base, p, es, n);
  }

  lemma {:induction false} WalkLeavesTrail(w: World, p: seq<string>, es: seq<string>, n: nat) returns (ids: seq<Uuid>)
    requires Along(w.schema, w.base, p, es) && n <= |p| && Walk(w, p[..n]).Some?
    ensures |ids| == n + 1 && ids[0] == w.row && ids[n] == Walk(w, p[..n]).value
    ensures forall k :: 0 <= k < n ==> Refers(w, es[k], ids[k], p[k], es[k + 1], ids[k + 1])
    decreases n
  {
    if n == 0 {
      ids := [w.row];
    } else {
      LastStep(w, p, es, n);
      var front := WalkLeavesTrail(w, p, es, n - 1);
      ids := front + [Walk(w, p[..n]).value];
      assert forall k :: 0 <= k < n ==> ids[k] == front[k];
    }
  }

  /** The walk ends on a row iff stored references lead there, each to a row of the tenant that the runner may see. */
  lemma WalkIsTrail(w: World, p: seq<string>, es: seq<string>, id: Uuid)
    requires Along(w.schema, w.base, p, es)
    ensures Walk(w, p) == Some(id) <==> exists ids :: Trail(w, p, es, ids) && ids[|p|] == id
  {
    assert p[..|p|] == p;
    if Walk(w, p) == Some(id) {
      var ids := WalkLeavesTrail(w, p, es, |p|);
      assert Trail(w, p, es, ids);
    }
    if ids :| Trail(w, p, es, ids) && ids[|p|] == id {
      TrailIsWalk(w, p, es, ids, |p|);
    }
  }

  // ===== what is read there =====

  datatype Value = Null | Id(id: Uuid) | Text(text: string)

  /** The expression of a reference in a joined row: a table column, or a key of the attribute document. */
  function ReadLeaf(db: Database, tableOf: map<string, string>, env: Env, ref: FieldRef): Value {
    var row := if ref.alias in env then env[ref.alias] else None;
    var table := if ref.alias in tableOf then tableOf[ref.alias] else "";
    if row.None? || row.value !in Rows(db, table) then Null
    else
      Read(Rows(db, table)[row.value], ref.field, ref.kind)
  }

  function Read(rec: Record, name: string, kind: FieldKind): Value {
    match kind
    case Scalar => if name in rec.values then Text(rec.values[name]) else Null
    case Fk => if name in rec.refs && rec.refs[name].Some? then Id(rec.refs[name].value) else Null
    case System => if name in rec.system then Text(rec.system[name]) else Null
  }

  /** What a row holds under a name, wherever it keeps it. */
  function Under(rec: Record, name: string): Value {
    if name in rec.system then Text(rec.system[name])
    else if name in rec.refs then (if rec.refs[name].Some? then Id(rec.refs[name].value) else Null)
    else if name in rec.values then Text(rec.values[name])
    else Null
  }

  /**
   A row of an entity has its table's columns: the system columns, and one for each reference but the many-to-many.
   */
  ghost predicate HasColumns(def: EntityDef, rec: Record) {
    && (forall name ::
          name in rec.system <==> name in ["id", "version", "state", "owner_id", "created_at", "updated_at"])
    && (forall name :: name in rec.refs <==>
          exists i :: FirstNamed(def.relationships, name, i) && !def.relationships[i].manyToMany)
  }

  ghost predicate TablesHaveColumns(w: World) {
    forall e, id :: e in w.schema && id in Rows(w.db, w.schema[e].table) ==>
      HasColumns(w.schema[e], Rows(w.db, w.schema[e].table)[id])
  }

  /** What the row at the end of the walk holds under the last name; Null where the walk ends in nothing. */
  function WalkedValue(w: World, segs: seq<string>): Value
    requires segs != []
  {
    var front := segs[..|segs| - 1];
    match Walk(w, front)
    case None => Null
    case Some(id) =>
      if id in Rows(w.db, TableAt(w, front)) then Under(Rows(w.db, TableAt(w, front))[id], segs[|segs| - 1]) else Null
  }

  /** In the one joined row the reference reads what the walked row holds. */
  ghost predicate ReadsValue(w: World, joins: seq<Join>, segs: seq<string>, ref: FieldRef)
    requires segs != []
  {
    exists env :: RunJoins(w.db, w.who, w.tenant, TableAt(w, []), joins, |joins|, w.row) == {env}
      && ReadLeaf(w.db, TablesOf(TableAt(w, []), joins, |joins|), env, ref) == WalkedValue(w, segs)
  }

  lemma KindReadsUnder(def: EntityDef, rec: Record, name: string, kind: FieldKind)
    requires IsColumn(def, name, kind) && HasColumns(def, rec)
    ensures Read(rec, name, kind) == Under(rec, name)
  {
    assert kind.Scalar? ==> forall i :: !FirstNamed(def.relationships, name, i);
  }

  lemma LeafReadsValue(w: World, joins: seq<Join>, segs: seq<string>, ref: FieldRef, env: Env)
    requires segs != [] && Resolves(w.schema, w.base, segs, ref) && TablesHaveColumns(w)
    requires ref.alias in env && env[ref.alias] == Walk(w, segs[..|segs| - 1])
    requires var t := TablesOf(TableAt(w, []), joins, |joins|);
      ref.alias in t && t[ref.alias] == TableAt(w, segs[..|segs| - 1])
    ensures ReadLeaf(w.db, TablesOf(TableAt(w, []), joins, |joins|), env, ref) == WalkedValue(w, segs)
  {
    var front := segs[..|segs| - 1];
    var found := Walk(w, front);
    LeafIsColumn(w.schema[ref.entity], ref.field, ref.kind);
    if found.Some? && found.value in Rows(w.db, TableAt(w, front)) {
      KindReadsUnder(w.schema[ref.entity], Rows(w.db, TableAt(w, front))[found.value], ref.field, ref.kind);
    }
  }

  lemma PlanReadsValue(
      w: World, joins: seq<Join>, hops: seq<Hop>, ps: seq<seq<string>>, segs: seq<string>, ref: FieldRef)
    requires IsPlan(w.schema, w.base, joins, hops, ps) && segs != [] && Covers(ps, segs, |segs| - 1)
    requires Resolves(w.schema, w.base, segs, ref) && TablesHaveColumns(w)
    ensures ReadsValue(w, Guarded(joins, hops, w.who), segs, ref)
  {
    var guarded := Guarded(joins, hops, w.who);
    PlanMeansWalk(w.schema, w.who, w.base, joins, hops, ps, segs);
    assert LeafAtWalk(World(w.schema, w.db, w.who, w.base, w.row, w.tenant), guarded, segs);
    var env :| RunJoins(w.db, w.who, w.tenant, TableAt(w, []), guarded, |guarded|, w.row) == {env}
      && LeafAlias(segs) in env && env[LeafAlias(segs)] == Walk(w, segs[..|segs| - 1]);
    LeafTable(w, joins, hops, ps, segs);
    LeafReadsValue(w, guarded, segs, ref, env);
  }

  /** The leaf's alias names the table its walk ends in. */
  lemma LeafTable(w: World, joins: seq<Join>, hops: seq<Hop>, ps: seq<seq<string>>, segs: seq<string>)
    requires IsPlan(w.schema, w.base, joins, hops, ps) && segs != [] && Covers(ps, segs, |segs| - 1)
    ensures var t := TablesOf(TableAt(w, []), Guarded(joins, hops, w.who), |Guarded(joins, hops, w.who)|);
      LeafAlias(segs) in t && t[LeafAlias(segs)] == TableAt(w, segs[..|segs| - 1])
  {
    PlanGuarded(w.schema, w.who, w.base, joins, hops, ps);
    forall i | 0 <= i < |ps|
      ensures IsGuardedJoin(w, ps[i], Guarded(joins, hops, w.who)[i])
    {
      assert GuardedJoinAt(w.schema, w.who, w.base, ps[i], Guarded(joins, hops, w.who)[i]);
    }
    TablesAt(w, Guarded(joins, hops, w.who), ps, |ps|);
    if |segs| > 1 {
      assert segs[..|segs| - 1] in ps;
      var i :| 0 <= i < |ps| && ps[i] == segs[..|segs| - 1];
    } else {
      assert segs[..0] == [];
    }
  }

  /**
   What a compiled report reads, given distinct aliases: on every database with the schema's
   columns and from every base row, each kept reference reads the value that the row at the end
   of its walk holds under the path's last name.
   */
  lemma CompiledReadsValues(w: World, requests: seq<Request>, c: Compiled, i: nat)
    requires CompiledRight(w.schema, w.who, w.base, requests, c) && i < |c.refs| && TablesHaveColumns(w)
    requires AliasesDistinct(PrefixesOfAll(KeptPaths(w.schema, w.who, w.base, requests, |requests|)))
    ensures var segs := KeptPaths(w.schema, w.who, w.base, requests, |requests|)[i];
      segs != [] && ReadsValue(w, c.joins, segs, c.refs[i])
  {
    var kept := KeptPaths(w.schema, w.who, w.base, requests, |requests|);
    var joins, hops := PlannedJoins(w.schema, w.base, kept), PlannedHops(w.schema, w.base, kept);
    var ps := PlannedIsPlan(w.schema, w.base, kept, PrefixesOfAll(kept));
    PlanReadsValue(w, joins, hops, ps, kept[i], c.refs[i]);
  }

  /** An alias keeps ASCII letters, digits and underscores, and has an underscore for every other character. */
  lemma AliasCharacters(s: string, i: nat)
    requires i < |s|
    ensures var kept := s[i] in "abcdefghijklmnopqrstuvwxyzABCDEFGHIJKLMNOPQRSTUVWXYZ0123456789_";
      Sanitized(s)[i] == if kept then s[i] else '_'
  {
    CharacterRanges(s[i]);
  }

  lemma CharacterRanges(c: char)
    ensures c in "abcdefghijklmnopqrstuvwxyz" <==> 'a' <= c <= 'z'
    ensures c in "ABCDEFGHIJKLMNOPQRSTUVWXYZ" <==> 'A' <= c <= 'Z'
    ensures c in "0123456789" <==> '0' <= c <= '9'
  {
  }
}
