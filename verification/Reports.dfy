/**
 The report engine's reference traversal: dotted field paths compiled to a deduplicated list
 of LEFT JOINs with a visibility guard per hop, and the proof that running the joins
 reads exactly what walking the references hop by hop reads.
 */
module Reports {
  import opened Common
  import opened Paths

  // ===== the schema and the data =====

  datatype Relationship = Relationship(field: string, target: string, manyToMany: bool)

  datatype EntityDef = EntityDef(table: string, fields: set<string>, relationships: seq<Relationship>)

  /** The tenant's active entities by name. */
  type Schema = map<string, EntityDef>

  /** A stored row: its tenant, its hoisted reference columns, its attribute document, its system columns. */
  datatype Record = Record(
    tenant: Uuid,
    refs: map<string, Option<Uuid>>,
    values: map<string, string>,
    system: map<string, string>)

  /** Tables by name, rows by primary key. */
  type Database = map<string, map<Uuid, Record>>

  /**
   The runner. `broad` holds the entities whose read predicate is absent (bypass or public
   read); elsewhere `visible` says which rows satisfy the predicate.
   */
  datatype Identity = Identity(
    readable: set<string>,
    deniedFields: set<(string, string)>,
    broad: set<string>,
    visible: map<string, set<Uuid>>)

  const SYSTEM_FIELDS := ["id", "version", "state", "owner_id", "created_at", "updated_at"]
  const MAX_HOPS := 3
  const BASE := "t"

  // ===== resolving one path =====

  datatype FieldKind = Scalar | Fk | System

  /** `LEFT JOIN table alias ON alias.id = parent.fk AND same tenant AND every guard`. */
  datatype Join = Join(table: string, alias: string, parent: string, fk: string, guards: seq<string>)

  /** A hop's join alias and the entity it enters. */
  datatype Hop = Hop(alias: string, entity: string)

  datatype FieldRef = FieldRef(
    alias: string,
    joins: seq<Join>,
    hops: seq<Hop>,
    entity: string,
    field: string,
    kind: FieldKind)

  function SanitizedChar(c: char): char {
    if 'a' <= c <= 'z' || 'A' <= c <= 'Z' || '0' <= c <= '9' || c == '_' then c else '_'
  }

  function Sanitized(s: string): (r: string)
    ensures |r| == |s|
  {
    seq(|s|, i requires 0 <= i < |s| => SanitizedChar(s[i]))
  }

  function Underscored(segs: seq<string>): string {
    if segs == [] then ""
    else if |segs| == 1 then Sanitized(segs[0])
    else Underscored(segs[..|segs| - 1]) + "_" + Sanitized(segs[|segs| - 1])
  }

  /** The alias of the join reached by the segments `prefix`. */
  function Alias(prefix: seq<string>): string {
    "j_" + Underscored(prefix)
  }

  function FindRelationship(rels: seq<Relationship>, field: string): Option<Relationship> {
    if rels == [] then None
    else if rels[0].field == field then Some(rels[0])
    else FindRelationship(rels[1..], field)
  }

  /** One traversal step: the entity a non-many-to-many reference of `entity` leads to. */
  function Target(schema: Schema, entity: string, seg: string): Option<string> {
    if entity !in schema then None
    else
      match FindRelationship(schema[entity].relationships, seg)
      case None => None
      case Some(rel) => if rel.manyToMany || rel.target !in schema then None else Some(rel.target)
  }

  function EntityAt(schema: Schema, base: string, prefix: seq<string>): Option<string> {
    if prefix == [] then (if base in schema then Some(base) else None)
    else
      match EntityAt(schema, base, prefix[..|prefix| - 1])
      case None => None
      case Some(entity) => Target(schema, entity, prefix[|prefix| - 1])
  }

  function ParentAlias(prefix: seq<string>): string
    requires prefix != []
  {
    if |prefix| == 1 then BASE else Alias(prefix[..|prefix| - 1])
  }

  predicate Traversable(schema: Schema, base: string, prefix: seq<string>) {
    prefix != [] && EntityAt(schema, base, prefix).Some? && EntityAt(schema, base, prefix).value in schema
  }

  /** The join a traversable prefix stands for, before guarding. */
  function JoinOf(schema: Schema, base: string, prefix: seq<string>): Join
    requires Traversable(schema, base, prefix)
  {
    Join(schema[EntityAt(schema, base, prefix).value].table, Alias(prefix), ParentAlias(prefix), prefix[|prefix| - 1],
      [])
  }

  function HopOf(schema: Schema, base: string, prefix: seq<string>): Hop
    requires Traversable(schema, base, prefix)
  {
    Hop(Alias(prefix), EntityAt(schema, base, prefix).value)
  }

  ghost predicate IsJoinOf(schema: Schema, base: string, prefix: seq<string>, join: Join, hop: Hop) {
    && Traversable(schema, base, prefix)
    && join == JoinOf(schema, base, prefix)
    && hop == HopOf(schema, base, prefix)
  }

  /** The joins and hops of the first `n` prefixes of a path, in order. */
  ghost predicate PathJoins(schema: Schema, base: string, segs: seq<string>, n: nat, joins: seq<Join>, hops: seq<Hop>) {
    && n <= |segs| && |joins| == |hops| == n
    && forall k :: 0 <= k < n ==> IsJoinOf(schema, base, segs[..k + 1], joins[k], hops[k])
  }

  /** The alias a path's leaf is read through: the base row, or its last hop's join. */
  function LeafAlias(segs: seq<string>): string
    requires segs != []
  {
    if |segs| == 1 then BASE else Alias(segs[..|segs| - 1])
  }

  /** What a resolved reference to the path `segs` must be. */
  ghost predicate Resolves(schema: Schema, base: string, segs: seq<string>, r: FieldRef) {
    && 1 <= |segs| <= MAX_HOPS + 1
    && PathJoins(schema, base, segs, |segs| - 1, r.joins, r.hops)
    && r.alias == LeafAlias(segs)
    && EntityAt(schema, base, segs[..|segs| - 1]) == Some(r.entity)
    && r.entity in schema
    && r.field == segs[|segs| - 1]
    && LeafKind(schema[r.entity], r.field) == Ok(r.kind)
  }

  function Segments(path: string): (segs: seq<string>)
    ensures segs != []
  {
    var parts := Split(path);
    seq(|parts|, i requires 0 <= i < |parts| => Trim(parts[i]))
  }

  /** The leaf of a path on its entity: a system column, a reference, or a declared field. */
  function LeafKind(def: EntityDef, seg: string): Result<FieldKind, Error> {
    if seg in SYSTEM_FIELDS then Ok(System)
    else
      match FindRelationship(def.relationships, seg)
      case Some(rel) => if rel.manyToMany then Err(Invalid) else Ok(Fk)
      case None => if seg in def.fields then Ok(Scalar) else Err(Invalid)
  }

  /** When a path resolves at all: well-formed, short enough, every hop a reference, a known leaf. */
  ghost predicate Resolvable(schema: Schema, base: string, segs: seq<string>) {
    && "" !in segs && 1 <= |segs| <= MAX_HOPS + 1
    && (forall k :: 1 <= k < |segs| ==> Traversable(schema, base, segs[..k]))
    && (var entity := EntityAt(schema, base, segs[..|segs| - 1]);
        entity.Some? && entity.value in schema && LeafKind(schema[entity.value], segs[|segs| - 1]).Ok?)
  }

  lemma ResolvesIsResolvable(schema: Schema, base: string, segs: seq<string>, r: FieldRef)
    requires Resolves(schema, base, segs, r) && "" !in segs
    ensures Resolvable(schema, base, segs)
  {
    forall k | 1 <= k < |segs|
      ensures Traversable(schema, base, segs[..k])
    {
      assert IsJoinOf(schema, base, segs[..k - 1 + 1], r.joins[k - 1], r.hops[k - 1]);
    }
  }

  lemma DeadEnd(schema: Schema, base: string, segs: seq<string>, i: nat, entity: string)
    requires i < |segs| - 1 && EntityAt(schema, base, segs[..i]) == Some(entity)
    requires Target(schema, entity, segs[i]).None?
    ensures !Resolvable(schema, base, segs)
  {
    var here := segs[..i + 1];
    assert here[..i] == segs[..i] && here[i] == segs[i];
    assert !Traversable(schema, base, here);
  }

  lemma NextHop(
      schema: Schema, base: string, segs: seq<string>, i: nat, entity: string, target: string, joins: seq<Join>,
      hops: seq<Hop>)
    requires PathJoins(schema, base, segs, i, joins, hops)
    requires i < |segs| - 1 && EntityAt(schema, base, segs[..i]) == Some(entity)
    requires Target(schema, entity, segs[i]) == Some(target)
    ensures var here := segs[..i + 1];
            && EntityAt(schema, base, here) == Some(target)
            && PathJoins(schema, base, segs, i + 1,
                         joins + [Join(schema[target].table, Alias(here), ParentAlias(here), segs[i], [])],
                         hops + [Hop(Alias(here), target)])
  {
    var here := segs[..i + 1];
    assert here[..i] == segs[..i] && here[i] == segs[i];
  }

  /** `resolve_field`. */
  method ResolveField(schema: Schema, base: string, path: string) returns (r: Result<FieldRef, Error>)
    requires base in schema
    ensures r.Ok? <==> Resolvable(schema, base, Segments(path))
    ensures r.Ok? ==> Resolves(schema, base, Segments(path), r.value)
  {
    var segs := Segments(path);
    if "" in segs || |segs| > MAX_HOPS + 1 {
      return Err(Invalid);
    }
    var entity, alias := base, BASE;
    var joins: seq<Join> := [];
    var hops: seq<Hop> := [];
    for i := 0 to |segs| - 1
      invariant EntityAt(schema, base, segs[..i]) == Some(entity) && entity in schema
      invariant alias == LeafAlias(segs[..i + 1])
      invariant PathJoins(schema, base, segs, i, joins, hops)
    {
      var seg := segs[i];
      var rel := FindRelationship(schema[entity].relationships, seg);
      if rel.None? || rel.value.manyToMany {
        DeadEnd(schema, base, segs, i, entity);
        return Err(Invalid);
      }
      var target := rel.value.target;
      if target !in schema {
        DeadEnd(schema, base, segs, i, entity);
        return Err(NotFound);
      }
      NextHop(schema, base, segs, i, entity, target, joins, hops);
      var here := segs[..i + 1];
      assert segs[..i + 1][..i] == segs[..i] && segs[..i + 2][..i + 1] == here;
      joins := joins + [Join(schema[target].table, Alias(here), alias, seg, [])];
      hops := hops + [Hop(Alias(here), target)];
      entity, alias := target, Alias(here);
    }
    assert segs[..|segs|] == segs;
    var leaf := segs[|segs| - 1];
    match LeafKind(schema[entity], leaf)
    case Err(e) => return Err(e);
    case Ok(kind) =>
      var ref := FieldRef(alias, joins, hops, entity, leaf, kind);
      ResolvesIsResolvable(schema, base, segs, ref);
      return Ok(ref);
  }

  // ===== merging =====

  predicate HasAlias(joins: seq<Join>, alias: string) {
    exists i :: 0 <= i < |joins| && joins[i].alias == alias
  }

  /** The accumulator after the first `n` of the further joins. */
  function MergedJoins(acc: seq<Join>, more: seq<Join>, n: nat): seq<Join>
    requires n <= |more|
  {
    if n == 0 then acc
    else
      var before := MergedJoins(acc, more, n - 1);
      if HasAlias(before, more[n - 1].alias) then before else before + [more[n - 1]]
  }

  predicate HasHop(hops: seq<Hop>, alias: string) {
    exists i :: 0 <= i < |hops| && hops[i].alias == alias
  }

  function MergedHops(acc: seq<Hop>, more: seq<Hop>, n: nat): seq<Hop>
    requires n <= |more|
  {
    if n == 0 then acc
    else
      var before := MergedHops(acc, more, n - 1);
      if HasHop(before, more[n - 1].alias) then before else before + [more[n - 1]]
  }

  /** `merge_joins`: keep the first fragment, and the first hop, of every alias. */
  method MergeJoins(acc: seq<Join>, hops: seq<Hop>, r: FieldRef) returns (acc': seq<Join>, hops': seq<Hop>)
    ensures acc' == MergedJoins(acc, r.joins, |r.joins|)
    ensures hops' == MergedHops(hops, r.hops, |r.hops|)
  {
    acc', hops' := acc, hops;
    for i := 0 to |r.joins|
      invariant acc' == MergedJoins(acc, r.joins, i)
    {
      if !HasAlias(acc', r.joins[i].alias) {
        acc' := acc' + [r.joins[i]];
      }
    }
    for i := 0 to |r.hops|
      invariant hops' == MergedHops(hops, r.hops, i)
    {
      if !HasHop(hops', r.hops[i].alias) {
        hops' := hops' + [r.hops[i]];
      }
    }
  }

  // ===== guarding =====

  function FirstWithAlias(joins: seq<Join>, alias: string): (i: nat)
    ensures i <= |joins|
    ensures i < |joins| ==> joins[i].alias == alias
    ensures i == |joins| ==> !HasAlias(joins, alias)
  {
    if joins == [] then 0
    else if joins[0].alias == alias then 0
    else
      var i := 1 + FirstWithAlias(joins[1..], alias);
      assert forall k :: 1 <= k < |joins| ==> joins[k] == joins[1..][k - 1];
      i
  }

  function GuardedBy(joins: seq<Join>, hop: Hop, who: Identity): (guarded: seq<Join>)
    ensures |guarded| == |joins|
  {
    var i := FirstWithAlias(joins, hop.alias);
    if hop.entity in who.broad || i == |joins| then joins
    else joins[i := joins[i].(guards := joins[i].guards + [hop.entity])]
  }

  function Guarded(joins: seq<Join>, hops: seq<Hop>, who: Identity): seq<Join>
    decreases |hops|
  {
    if hops == [] then joins else Guarded(GuardedBy(joins, hops[0], who), hops[1..], who)
  }

  /** The per-hop record-security pass of `run`. */
  method GuardHops(joins: seq<Join>, hops: seq<Hop>, who: Identity) returns (guarded: seq<Join>)
    ensures guarded == Guarded(joins, hops, who)
  {
    guarded := joins;
    for i := 0 to |hops|
      invariant Guarded(guarded, hops[i..], who) == Guarded(joins, hops, who)
    {
      assert hops[i..][1..] == hops[i + 1..];
      var hop := hops[i];
      if hop.entity !in who.broad {
        var k := FirstWithAlias(guarded, hop.alias);
        if k < |guarded| {
          guarded := guarded[k := guarded[k].(guards := guarded[k].guards + [hop.entity])];
        }
      }
    }
  }

  // ===== the meaning of the compiled joins =====

  /** A joined row: the row id under each alias, None where the LEFT JOIN found no match. */
  type Env = map<string, Option<Uuid>>

  predicate RowVisible(who: Identity, entity: string, id: Uuid) {
    entity in who.broad || (entity in who.visible && id in who.visible[entity])
  }

  function Rows(db: Database, table: string): map<Uuid, Record> {
    if table in db then db[table] else map[]
  }

  /** The ON clause for one candidate row; a NULL on the left matches nothing. */
  predicate OnClause(db: Database, who: Identity, tenant: Uuid, j: Join, reference: Option<Uuid>, id: Uuid) {
    && id in Rows(db, j.table)
    && reference == Some(id)
    && Rows(db, j.table)[id].tenant == tenant
    && forall g :: g in j.guards ==> RowVisible(who, g, id)
  }

  /** `alias.fk` in a joined row: NULL when the row is missing or the column is null. */
  function ReadRef(db: Database, table: string, row: Option<Uuid>, fk: string): Option<Uuid> {
    if row.Some? && row.value in Rows(db, table) && fk in Rows(db, table)[row.value].refs
    then Rows(db, table)[row.value].refs[fk]
    else None
  }

  /** One LEFT JOIN of one row: every match, or a single NULL-extended row. */
  function LeftJoin(
      db: Database, who: Identity, tenant: Uuid, tableOf: map<string, string>, j: Join, env: Env): set<Env>
  {
    var row := if j.parent in env then env[j.parent] else None;
    var table := if j.parent in tableOf then tableOf[j.parent] else "";
    var reference := ReadRef(db, table, row, j.fk);
    var matches := set id | id in Rows(db, j.table) && OnClause(db, who, tenant, j, reference, id);
    if matches == {} then {env[j.alias := None]} else set id | id in matches :: env[j.alias := Some(id)]
  }

  /** Which table each alias names, after the first `n` joins. */
  function TablesOf(baseTable: string, joins: seq<Join>, n: nat): map<string, string>
    requires n <= |joins|
  {
    if n == 0 then map[BASE := baseTable]
    else TablesOf(baseTable, joins, n - 1)[joins[n - 1].alias := joins[n - 1].table]
  }

  function JoinAll(
      db: Database, who: Identity, tenant: Uuid, tableOf: map<string, string>, j: Join, envs: set<Env>): set<Env>
  {
    set pair | pair in (set env, e | env in envs && e in LeftJoin(db, who, tenant, tableOf, j, env) :: (env, e)) ::
      pair.1
  }

  /** `FROM base t LEFT JOIN ..` for one base row: all joined rows after `n` joins. */
  function RunJoins(
      db: Database, who: Identity, tenant: Uuid, baseTable: string, joins: seq<Join>, n: nat, row: Uuid): set<Env>
    requires n <= |joins|
  {
    if n == 0 then {map[BASE := Some(row)]}
    else JoinAll(db, who, tenant, TablesOf(baseTable, joins, n - 1), joins[n - 1],
      RunJoins(db, who, tenant, baseTable, joins, n - 1, row))
  }

  // ===== the reference meaning: walking hop by hop =====

  /** Everything a walk depends on. */
  datatype World = World(schema: Schema, db: Database, who: Identity, base: string, row: Uuid, tenant: Uuid)

  function TableAt(w: World, prefix: seq<string>): string {
    var entity := EntityAt(w.schema, w.base, prefix);
    if entity.Some? && entity.value in w.schema then w.schema[entity.value].table else ""
  }

  /** Follow the references; stop with None at a null, missing, foreign or invisible target. */
  function Walk(w: World, prefix: seq<string>): Option<Uuid> {
    if prefix == [] then Some(w.row)
    else
      var parent := prefix[..|prefix| - 1];
      var reference := ReadRef(w.db, TableAt(w, parent), Walk(w, parent), prefix[|prefix| - 1]);
      var rows := Rows(w.db, TableAt(w, prefix));
      var entity := EntityAt(w.schema, w.base, prefix);
      if reference.None? || reference.value !in rows || rows[reference.value].tenant != w.tenant then None
      else if entity.None? || !RowVisible(w.who, entity.value, reference.value) then None
      else reference
  }

  // ===== the plan invariant =====

  /** Distinct prefixes get distinct aliases; what the join deduplication takes for granted. */
  ghost predicate AliasesDistinct(prefixes: set<seq<string>>) {
    forall p, q :: p in prefixes && q in prefixes && Alias(p) == Alias(q) ==> p == q
  }

  ghost predicate AliasesDiffer(ps: seq<seq<string>>) {
    forall i, j :: 0 <= i < j < |ps| ==> Alias(ps[i]) != Alias(ps[j])
  }

  ghost predicate ParentBefore(ps: seq<seq<string>>, i: nat)
    requires i < |ps|
  {
    |ps[i]| > 1 ==> exists j :: 0 <= j < i && ps[j] == ps[i][..|ps[i]| - 1]
  }

  ghost predicate ParentsFirst(ps: seq<seq<string>>) {
    forall i :: 0 <= i < |ps| ==> ParentBefore(ps, i)
  }

  ghost predicate AreJoinsOf(schema: Schema, base: string, joins: seq<Join>, hops: seq<Hop>, ps: seq<seq<string>>) {
    && |joins| == |hops| == |ps|
    && forall i :: 0 <= i < |ps| ==> IsJoinOf(schema, base, ps[i], joins[i], hops[i])
  }

  /** The joins are those of `ps`, no two under one alias. */
  ghost predicate Listed(schema: Schema, base: string, joins: seq<Join>, hops: seq<Hop>, ps: seq<seq<string>>) {
    AreJoinsOf(schema, base, joins, hops, ps) && AliasesDiffer(ps)
  }

  /** The accumulated joins are those of the distinct prefixes `ps`, parents first. */
  ghost predicate IsPlan(schema: Schema, base: string, joins: seq<Join>, hops: seq<Hop>, ps: seq<seq<string>>) {
    Listed(schema, base, joins, hops, ps) && ParentsFirst(ps)
  }

  /** The hop prefixes of a path. */
  function PrefixesOf(segs: seq<string>): set<seq<string>> {
    set i | 1 <= i < |segs| :: segs[..i]
  }

  lemma KnownAlias(schema: Schema, base: string, joins: seq<Join>, hops: seq<Hop>, ps: seq<seq<string>>, alias: string)
    requires AreJoinsOf(schema, base, joins, hops, ps)
    ensures HasAlias(joins, alias) <==> exists i :: 0 <= i < |ps| && Alias(ps[i]) == alias
    ensures HasHop(hops, alias) <==> HasAlias(joins, alias)
  {
    forall i | 0 <= i < |ps|
      ensures joins[i].alias == hops[i].alias == Alias(ps[i])
    {
      assert IsJoinOf(schema, base, ps[i], joins[i], hops[i]);
    }
  }

  lemma ExtendPlan(
      schema: Schema, base: string, joins: seq<Join>, hops: seq<Hop>, ps: seq<seq<string>>, p: seq<string>,
      join: Join, hop: Hop)
    requires IsPlan(schema, base, joins, hops, ps) && IsJoinOf(schema, base, p, join, hop) && !HasAlias(joins, Alias(p))
    requires |p| > 1 ==> p[..|p| - 1] in ps
    ensures IsPlan(schema, base, joins + [join], hops + [hop], ps + [p])
  {
    var ps' := ps + [p];
    KnownAlias(schema, base, joins, hops, ps, Alias(p));
    forall i | 0 <= i < |ps'|
      ensures ParentBefore(ps', i)
    {
      if i < |ps| {
        assert ParentBefore(ps, i);
        if |ps[i]| > 1 {
          var j :| 0 <= j < i && ps[j] == ps[i][..|ps[i]| - 1];
          assert ps'[j] == ps[j];
        }
      } else if |p| > 1 {
        var j :| 0 <= j < |ps| && ps[j] == p[..|p| - 1];
        assert ps'[j] == ps[j];
      }
    }
  }

  /** The plan holds the first `k` prefixes of a path. */
  ghost predicate Covers(ps: seq<seq<string>>, segs: seq<string>, k: nat)
    requires k <= |segs|
  {
    forall i :: 1 <= i <= k ==> segs[..i] in ps
  }

  ghost predicate Within(ps: seq<seq<string>>, universe: set<seq<string>>) {
    forall p :: p in ps ==> p in universe
  }

  /** Every member of `ps` is a member of `qs`. */
  ghost predicate Keeps(ps: seq<seq<string>>, qs: seq<seq<string>>) {
    forall p :: p in ps ==> p in qs
  }

  /** A join whose alias is taken is one the plan already has. */
  lemma MergeKnown(
      schema: Schema, base: string, joins: seq<Join>, hops: seq<Hop>, ps: seq<seq<string>>, p: seq<string>,
      universe: set<seq<string>>)
    requires AreJoinsOf(schema, base, joins, hops, ps) && HasAlias(joins, Alias(p))
    requires AliasesDistinct(universe) && Within(ps, universe) && p in universe
    ensures p in ps
  {
    KnownAlias(schema, base, joins, hops, ps, Alias(p));
    var i :| 0 <= i < |ps| && Alias(ps[i]) == Alias(p);
    assert ps[i] in ps;
  }

  lemma CoversNext(ps: seq<seq<string>>, qs: seq<seq<string>>, segs: seq<string>, n: nat)
    requires 1 <= n < |segs| && Covers(ps, segs, n - 1) && Keeps(ps, qs) && segs[..n] in qs
    ensures Covers(qs, segs, n)
  {
  }

  lemma KeepsTrans(ps: seq<seq<string>>, qs: seq<seq<string>>, rs: seq<seq<string>>)
    requires Keeps(ps, qs) && Keeps(qs, rs)
    ensures Keeps(ps, rs)
  {
  }

  /** The join of a path's prefix. */
  lemma JoinOfPrefix(schema: Schema, base: string, segs: seq<string>, joins: seq<Join>, hops: seq<Hop>, n: nat)
    requires 1 <= n < |segs| && PathJoins(schema, base, segs, |segs| - 1, joins, hops)
    ensures IsJoinOf(schema, base, segs[..n], joins[n - 1], hops[n - 1]) && segs[..n] in PrefixesOf(segs)
  {
    var k := n - 1;
    assert IsJoinOf(schema, base, segs[..k + 1], joins[k], hops[k]);
  }

  lemma NextPrefix(
      schema: Schema, base: string, segs: seq<string>, joins: seq<Join>, hops: seq<Hop>, n: nat,
      universe: set<seq<string>>)
    requires 1 <= n < |segs| && PathJoins(schema, base, segs, |segs| - 1, joins, hops) && PrefixesOf(segs) <= universe
    ensures n <= |joins| && n <= |hops| && segs[..n] in universe
    ensures IsJoinOf(schema, base, segs[..n], joins[n - 1], hops[n - 1])
  {
    JoinOfPrefix(schema, base, segs, joins, hops, n);
  }

  /** Merging one join: skipped when its prefix is already planned, appended otherwise. */
  lemma MergeOne(
      schema: Schema, base: string, joins: seq<Join>, hops: seq<Hop>, ps: seq<seq<string>>,
      segs: seq<string>, n: nat, join: Join, hop: Hop, universe: set<seq<string>>)
    returns (joins': seq<Join>, hops': seq<Hop>, ps': seq<seq<string>>)
    requires IsPlan(schema, base, joins, hops, ps) && 1 <= n < |segs| && IsJoinOf(schema, base, segs[..n], join, hop)
    requires AliasesDistinct(universe) && Within(ps, universe) && segs[..n] in universe
    requires Covers(ps, segs, n - 1)
    ensures joins' == if HasAlias(joins, join.alias) then joins else joins + [join]
    ensures hops' == if HasHop(hops, hop.alias) then hops else hops + [hop]
    ensures IsPlan(schema, base, joins', hops', ps')
    ensures Keeps(ps, ps') && Within(ps', universe) && Covers(ps', segs, n)
  {
    var p := segs[..n];
    assert join.alias == hop.alias == Alias(p);
    KnownAlias(schema, base, joins, hops, ps, Alias(p));
    if HasAlias(joins, Alias(p)) {
      joins', hops', ps' := joins, hops, ps;
      MergeKnown(schema, base, joins, hops, ps, p, universe);
    } else {
      joins', hops', ps' := joins + [join], hops + [hop], ps + [p];
      if n > 1 {
        assert p[..|p| - 1] == segs[..n - 1];
      }
      ExtendPlan(schema, base, joins, hops, ps, p, join, hop);
    }
    CoversNext(ps, ps', segs, n);
  }

  /** `joins` is the plan `ps` extended by the first `n` prefixes of a path. */
  ghost predicate Extends(
      schema: Schema, base: string, ps: seq<seq<string>>, segs: seq<string>, n: nat, joins: seq<Join>, hops: seq<Hop>,
      ps': seq<seq<string>>, universe: set<seq<string>>)
    requires n <= |segs|
  {
    IsPlan(schema, base, joins, hops, ps') && Keeps(ps, ps') && Within(ps', universe) && Covers(ps', segs, n)
  }

  lemma ExtendsNothing(
      schema: Schema, base: string, ps: seq<seq<string>>, segs: seq<string>, joins: seq<Join>, hops: seq<Hop>,
      universe: set<seq<string>>)
    requires IsPlan(schema, base, joins, hops, ps) && Within(ps, universe)
    ensures Extends(schema, base, ps, segs, 0, joins, hops, ps, universe)
  {
  }

  lemma ExtendsOneMore(
      schema: Schema, base: string, ps: seq<seq<string>>, segs: seq<string>, n: nat, joins: seq<Join>, hops: seq<Hop>,
      qs: seq<seq<string>>, join: Join, hop: Hop, universe: set<seq<string>>)
    returns (ps': seq<seq<string>>)
    requires 1 <= n < |segs| && Extends(schema, base, ps, segs, n - 1, joins, hops, qs, universe)
    requires IsJoinOf(schema, base, segs[..n], join, hop) && AliasesDistinct(universe) && segs[..n] in universe
    ensures Extends(schema, base, ps, segs, n, if HasAlias(joins, join.alias) then joins else joins + [join],
                    if HasHop(hops, hop.alias) then hops else hops + [hop], ps', universe)
  {
    var joins', hops';
    joins', hops', ps' := MergeOne(schema, base, joins, hops, qs, segs, n, join, hop, universe);
    KeepsTrans(ps, qs, ps');
  }

  /** Merging the joins of one more path extends the plan by its new prefixes. */
  lemma {:induction false} MergeExtendsPlan(
      schema: Schema, base: string, joins: seq<Join>, hops: seq<Hop>, ps: seq<seq<string>>,
      segs: seq<string>, more: seq<Join>, moreHops: seq<Hop>, n: nat, universe: set<seq<string>>)
    returns (ps': seq<seq<string>>)
    requires IsPlan(schema, base, joins, hops, ps) && n < |segs|
    requires PathJoins(schema, base, segs, |segs| - 1, more, moreHops)
    requires AliasesDistinct(universe) && Within(ps, universe) && PrefixesOf(segs) <= universe
    ensures Extends(schema, base, ps, segs, n, MergedJoins(joins, more, n), MergedHops(hops, moreHops, n), ps',
      universe)
  {
    if n == 0 {
      ps' := ps;
      ExtendsNothing(schema, base, ps, segs, joins, hops, universe);
    } else {
      NextPrefix(schema, base, segs, more, moreHops, n, universe);
      var qs := MergeExtendsPlan(schema, base, joins, hops, ps, segs, more, moreHops, n - 1, universe);
      var front, frontHops := MergedJoins(joins, more, n - 1), MergedHops(hops, moreHops, n - 1);
      ps' := ExtendsOneMore(
        schema, base, ps, segs, n, front, frontHops, qs, more[n - 1], moreHops[n - 1], universe);
    }
  }

  /** The guards a hop's join ends up with. */
  function GuardsOf(who: Identity, entity: string): seq<string> {
    if entity in who.broad then [] else [entity]
  }

  ghost predicate GuardedTo(current: seq<Join>, joins: seq<Join>, hops: seq<Hop>, who: Identity, k: nat)
    requires |joins| == |hops|
  {
    && |current| == |joins|
    && forall i :: 0 <= i < |joins| ==>
      current[i] == joins[i].(guards := if i < k then GuardsOf(who, hops[i].entity) else [])
  }

  /** A hop finds its own join. */
  lemma HopFindsJoin(
      schema: Schema, base: string, joins: seq<Join>, hops: seq<Hop>, ps: seq<seq<string>>, current: seq<Join>,
      k: nat, who: Identity)
    requires Listed(schema, base, joins, hops, ps) && k < |hops| && GuardedTo(current, joins, hops, who, k)
    ensures FirstWithAlias(current, hops[k].alias) == k && joins[k].guards == []
  {
    var at := FirstWithAlias(current, hops[k].alias);
    assert IsJoinOf(schema, base, ps[k], joins[k], hops[k]);
    assert current[k].alias == hops[k].alias;
    assert at < |current|;
    assert IsJoinOf(schema, base, ps[at], joins[at], hops[at]);
  }

  /** And guards it alone. */
  lemma GuardOneHop(
      schema: Schema, base: string, joins: seq<Join>, hops: seq<Hop>, ps: seq<seq<string>>, current: seq<Join>,
      k: nat, who: Identity)
    requires Listed(schema, base, joins, hops, ps) && k < |hops| && GuardedTo(current, joins, hops, who, k)
    ensures GuardedTo(GuardedBy(current, hops[k], who), joins, hops, who, k + 1)
  {
    HopFindsJoin(schema, base, joins, hops, ps, current, k, who);
  }

  /** After the per-hop pass every join carries the guard of the entity it enters, once. */
  lemma {:induction false} GuardedPlan(
      schema: Schema, base: string, joins: seq<Join>, hops: seq<Hop>, ps: seq<seq<string>>, current: seq<Join>,
      k: nat, who: Identity)
    requires Listed(schema, base, joins, hops, ps) && k <= |hops| && GuardedTo(current, joins, hops, who, k)
    ensures GuardedTo(Guarded(current, hops[k..], who), joins, hops, who, |hops|)
    decreases |hops| - k
  {
    if k < |hops| {
      assert hops[k..][0] == hops[k] && hops[k..][1..] == hops[k + 1..];
      GuardOneHop(schema, base, joins, hops, ps, current, k, who);
      GuardedPlan(schema, base, joins, hops, ps, GuardedBy(current, hops[k], who), k + 1, who);
    }
  }

  // ===== compiled joins mean the walk =====

  ghost predicate IsGuardedJoin(w: World, p: seq<string>, join: Join) {
    && Traversable(w.schema, w.base, p)
    && join == JoinOf(w.schema, w.base, p).(guards := GuardsOf(w.who, EntityAt(w.schema, w.base, p).value))
  }

  /** The guarded joins of a plan. */
  ghost predicate IsGuardedPlan(w: World, joins: seq<Join>, ps: seq<seq<string>>) {
    && |joins| == |ps|
    && (forall i :: 0 <= i < |ps| ==> IsGuardedJoin(w, ps[i], joins[i]))
    && AliasesDiffer(ps)
    && ParentsFirst(ps)
  }

  /** The joined row the walk predicts: the first `n` planned prefixes under their aliases. */
  function WalkEnv(w: World, ps: seq<seq<string>>, n: nat): Env
    requires n <= |ps|
  {
    if n == 0 then map[BASE := Some(w.row)] else WalkEnv(w, ps, n - 1)[Alias(ps[n - 1]) := Walk(w, ps[n - 1])]
  }

  lemma {:induction false} WalkEnvAt(w: World, ps: seq<seq<string>>, n: nat, i: nat)
    requires i < n <= |ps| && AliasesDiffer(ps)
    ensures Alias(ps[i]) in WalkEnv(w, ps, n)
    ensures WalkEnv(w, ps, n)[Alias(ps[i])] == Walk(w, ps[i])
  {
    if i < n - 1 {
      WalkEnvAt(w, ps, n - 1, i);
    }
  }

  lemma {:induction false} WalkEnvBase(w: World, ps: seq<seq<string>>, n: nat)
    requires n <= |ps|
    ensures BASE in WalkEnv(w, ps, n) && WalkEnv(w, ps, n)[BASE] == Some(w.row)
  {
    if n > 0 {
      assert Alias(ps[n - 1])[0] != BASE[0];
      WalkEnvBase(w, ps, n - 1);
    }
  }

  lemma {:induction false} TablesAt(w: World, joins: seq<Join>, ps: seq<seq<string>>, n: nat)
    requires IsGuardedPlan(w, joins, ps) && n <= |ps|
    ensures NamesTables(w, ps, n, TablesOf(TableAt(w, []), joins, n))
  {
    if n > 0 {
      TablesAt(w, joins, ps, n - 1);
      assert IsGuardedJoin(w, ps[n - 1], joins[n - 1]);
      NamesOneMore(w, ps, n, TablesOf(TableAt(w, []), joins, n - 1));
    }
  }

  /** The base alias and those of the first `n` prefixes name the tables their walks end in. */
  ghost predicate NamesTables(w: World, ps: seq<seq<string>>, n: nat, t: map<string, string>)
    requires n <= |ps|
  {
    && BASE in t && t[BASE] == TableAt(w, [])
    && forall i :: 0 <= i < n ==> Alias(ps[i]) in t && t[Alias(ps[i])] == TableAt(w, ps[i])
  }

  lemma NamesOneMore(w: World, ps: seq<seq<string>>, n: nat, t: map<string, string>)
    requires 1 <= n <= |ps| && AliasesDiffer(ps) && NamesTables(w, ps, n - 1, t)
    ensures NamesTables(w, ps, n, t[Alias(ps[n - 1]) := TableAt(w, ps[n - 1])])
  {
    assert Alias(ps[n - 1])[0] != BASE[0];
  }

  /** The parent alias of the next join holds the parent's walk, and names the parent's table. */
  lemma ParentRow(w: World, joins: seq<Join>, ps: seq<seq<string>>, n: nat)
    requires IsGuardedPlan(w, joins, ps) && n < |ps|
    ensures ps[n] != []
    ensures var parent, alias := ps[n][..|ps[n]| - 1], joins[n].parent;
            && alias in WalkEnv(w, ps, n) && WalkEnv(w, ps, n)[alias] == Walk(w, parent)
            && alias in TablesOf(TableAt(w, []), joins, n)
              && TablesOf(TableAt(w, []), joins, n)[alias] == TableAt(w, parent)
  {
    assert IsGuardedJoin(w, ps[n], joins[n]);
    TablesAt(w, joins, ps, n);
    WalkEnvBase(w, ps, n);
    var parent := ps[n][..|ps[n]| - 1];
    if |ps[n]| == 1 {
      assert parent == [];
    } else {
      assert ParentBefore(ps, n);
      var j :| 0 <= j < n && ps[j] == parent;
      WalkEnvAt(w, ps, n, j);
    }
  }

  /** One join of the predicted row gives one row, and it is the predicted next row. */
  lemma JoinStep(w: World, joins: seq<Join>, ps: seq<seq<string>>, n: nat)
    requires IsGuardedPlan(w, joins, ps) && n < |ps|
    ensures LeftJoin(w.db, w.who, w.tenant, TablesOf(TableAt(w, []), joins, n), joins[n], WalkEnv(w, ps, n))
         == {WalkEnv(w, ps, n + 1)}
  {
    var p, j := ps[n], joins[n];
    ParentRow(w, joins, ps, n);
    assert IsGuardedJoin(w, p, j);
    var parent := p[..|p| - 1];
    var reference := ReadRef(w.db, TableAt(w, parent), Walk(w, parent), j.fk);
    var here := Walk(w, p);
    var matches := set id | id in Rows(w.db, j.table) && OnClause(w.db, w.who, w.tenant, j, reference, id);
    OnClauseIsWalk(w, p, j);
    assert matches == if here.Some? then {here.value} else {};
  }

  lemma OnClauseIsWalk(w: World, p: seq<string>, j: Join)
    requires IsGuardedJoin(w, p, j)
    ensures var parent := p[..|p| - 1];
            var reference := ReadRef(w.db, TableAt(w, parent), Walk(w, parent), j.fk);
            forall id :: OnClause(w.db, w.who, w.tenant, j, reference, id) <==> Walk(w, p) == Some(id)
  {
    var entity := EntityAt(w.schema, w.base, p).value;
    forall id
      ensures (forall g :: g in j.guards ==> RowVisible(w.who, g, id)) <==> RowVisible(w.who, entity, id)
    {
      if entity !in w.who.broad {
        assert entity in j.guards;
      }
    }
  }

  /** The first `n` joins give a single row, the one the walk predicts. */
  ghost predicate Predicted(w: World, joins: seq<Join>, ps: seq<seq<string>>, n: nat)
    requires n <= |joins| == |ps|
  {
    RunJoins(w.db, w.who, w.tenant, TableAt(w, []), joins, n, w.row) == {WalkEnv(w, ps, n)}
  }

  lemma BaseRow(w: World, joins: seq<Join>, ps: seq<seq<string>>)
    requires |joins| == |ps|
    ensures Predicted(w, joins, ps, 0)
  {
  }

  /** Every base row joins to exactly one row, the one the walk predicts. */
  lemma {:induction false} JoinsMeanWalk(w: World, joins: seq<Join>, ps: seq<seq<string>>, n: nat)
    requires IsGuardedPlan(w, joins, ps) && n <= |ps|
    ensures Predicted(w, joins, ps, n)
  {
    BaseRow(w, joins, ps);
    for i := 0 to n
      invariant Predicted(w, joins, ps, i)
    {
      RunStep(w, joins, ps, i);
    }
  }

  lemma RunStep(w: World, joins: seq<Join>, ps: seq<seq<string>>, n: nat)
    requires IsGuardedPlan(w, joins, ps) && n < |ps|
    requires Predicted(w, joins, ps, n)
    ensures Predicted(w, joins, ps, n + 1)
  {
    JoinStep(w, joins, ps, n);
    var env, next := WalkEnv(w, ps, n), WalkEnv(w, ps, n + 1);
    RunJoinsNext(w.db, w.who, w.tenant, TableAt(w, []), joins, n, w.row, env, next);
  }

  lemma JoinAllSingle(
      db: Database, who: Identity, tenant: Uuid, tableOf: map<string, string>, j: Join, env: Env, next: Env)
    requires LeftJoin(db, who, tenant, tableOf, j, env) == {next}
    ensures JoinAll(db, who, tenant, tableOf, j, {env}) == {next}
  {
    var pairs := set en, e | en in {env} && e in LeftJoin(db, who, tenant, tableOf, j, en) :: (en, e);
    assert next in LeftJoin(db, who, tenant, tableOf, j, env);
    assert (env, next) in pairs;
    assert pairs == {(env, next)};
  }

  /** One row before the join and one match: one row after it. */
  lemma RunJoinsNext(
      db: Database, who: Identity, tenant: Uuid, baseTable: string, joins: seq<Join>, n: nat, row: Uuid,
      env: Env, next: Env)
    requires n < |joins| && RunJoins(db, who, tenant, baseTable, joins, n, row) == {env}
    requires LeftJoin(db, who, tenant, TablesOf(baseTable, joins, n), joins[n], env) == {next}
    ensures RunJoins(db, who, tenant, baseTable, joins, n + 1, row) == {next}
  {
    JoinAllSingle(db, who, tenant, TablesOf(baseTable, joins, n), joins[n], env, next);
  }

  // ===== the whole pass =====

  /** A path the dataset uses; select paths are dropped when unreadable, the others refuse the run. */
  datatype Request = Request(path: string, select: bool)

  /** Every crossed entity is readable, and the leaf is not denied on its entity. */
  predicate Readable(who: Identity, r: FieldRef) {
    (forall i :: 0 <= i < |r.hops| ==> r.hops[i].entity in who.readable) && (r.entity, r.field) !in who.deniedFields
  }

  /** The same, said of the path itself. */
  ghost predicate ReadablePath(schema: Schema, who: Identity, base: string, segs: seq<string>)
    requires segs != []
  {
    && (forall k :: 1 <= k < |segs| ==>
      EntityAt(schema, base, segs[..k]).Some? && EntityAt(schema, base, segs[..k]).value in who.readable)
    && EntityAt(schema, base, segs[..|segs| - 1]).Some?
    && (EntityAt(schema, base, segs[..|segs| - 1]).value, segs[|segs| - 1]) !in who.deniedFields
  }

  lemma ReadableIsPath(schema: Schema, who: Identity, base: string, segs: seq<string>, r: FieldRef)
    requires Resolves(schema, base, segs, r)
    ensures Readable(who, r) <==> ReadablePath(schema, who, base, segs)
  {
    forall i | 0 <= i < |r.hops|
      ensures EntityAt(schema, base, segs[..i + 1]) == Some(r.hops[i].entity)
    {
      assert IsJoinOf(schema, base, segs[..i + 1], r.joins[i], r.hops[i]);
    }
    forall k | 1 <= k < |segs|
      ensures EntityAt(schema, base, segs[..k]) == Some(r.hops[k - 1].entity)
    {
      assert EntityAt(schema, base, segs[..k - 1 + 1]) == Some(r.hops[k - 1].entity);
    }
  }

  /** The compiled joins read the leaf of `segs` where the walk ends, on every database and base row. */
  ghost predicate MeansWalk(schema: Schema, who: Identity, base: string, joins: seq<Join>, segs: seq<string>)
    requires segs != []
  {
    forall db, row, tenant :: LeafAtWalk(World(schema, db, who, base, row, tenant), joins, segs)
  }

  ghost predicate LeafAtWalk(w: World, joins: seq<Join>, segs: seq<string>)
    requires segs != []
  {
    exists env :: RunJoins(w.db, w.who, w.tenant, TableAt(w, []), joins, |joins|, w.row) == {env}
               && LeafAlias(segs) in env && env[LeafAlias(segs)] == Walk(w, segs[..|segs| - 1])
  }

  lemma PlanMeansWalk(
      schema: Schema, who: Identity, base: string, joins: seq<Join>, hops: seq<Hop>, ps: seq<seq<string>>,
      segs: seq<string>)
    requires IsPlan(schema, base, joins, hops, ps) && segs != [] && Covers(ps, segs, |segs| - 1)
    ensures MeansWalk(schema, who, base, Guarded(joins, hops, who), segs)
  {
    var guarded := Guarded(joins, hops, who);
    PlanGuarded(schema, who, base, joins, hops, ps);
    forall db, row, tenant
      ensures LeafAtWalk(World(schema, db, who, base, row, tenant), guarded, segs)
    {
      var w := World(schema, db, who, base, row, tenant);
      assert IsGuardedPlan(w, guarded, ps) by {
        forall i | 0 <= i < |ps|
          ensures IsGuardedJoin(w, ps[i], guarded[i])
        {
          assert GuardedJoinAt(schema, who, base, ps[i], guarded[i]);
        }
      }
      GuardedPlanMeansWalk(w, guarded, ps, segs);
    }
  }

  ghost predicate GuardedJoinAt(schema: Schema, who: Identity, base: string, p: seq<string>, join: Join) {
    && Traversable(schema, base, p)
    && join == JoinOf(schema, base, p).(guards := GuardsOf(who, EntityAt(schema, base, p).value))
  }

  lemma PlanGuarded(schema: Schema, who: Identity, base: string, joins: seq<Join>, hops: seq<Hop>, ps: seq<seq<string>>)
    requires Listed(schema, base, joins, hops, ps)
    ensures |Guarded(joins, hops, who)| == |ps|
    ensures forall i :: 0 <= i < |ps| ==> GuardedJoinAt(schema, who, base, ps[i], Guarded(joins, hops, who)[i])
  {
    assert GuardedTo(joins, joins, hops, who, 0) by {
      forall i | 0 <= i < |joins|
        ensures joins[i].guards == []
      {
        assert IsJoinOf(schema, base, ps[i], joins[i], hops[i]);
      }
    }
    GuardedPlan(schema, base, joins, hops, ps, joins, 0, who);
    assert hops[0..] == hops;
    forall i | 0 <= i < |ps|
      ensures GuardedJoinAt(schema, who, base, ps[i], Guarded(joins, hops, who)[i])
    {
      assert IsJoinOf(schema, base, ps[i], joins[i], hops[i]);
    }
  }

  lemma GuardedPlanMeansWalk(w: World, joins: seq<Join>, ps: seq<seq<string>>, segs: seq<string>)
    requires IsGuardedPlan(w, joins, ps) && segs != [] && Covers(ps, segs, |segs| - 1)
    ensures LeafAtWalk(w, joins, segs)
  {
    JoinsMeanWalk(w, joins, ps, |ps|);
    var env := WalkEnv(w, ps, |ps|);
    if |segs| == 1 {
      WalkEnvBase(w, ps, |ps|);
      assert segs[..0] == [];
    } else {
      assert segs[..|segs| - 1] in ps;
      var i :| 0 <= i < |ps| && ps[i] == segs[..|segs| - 1];
      WalkEnvAt(w, ps, |ps|, i);
    }
  }

  // ----- the joins a list of paths compiles to -----

  /** Every hop of the path is a reference. */
  ghost predicate Crossable(schema: Schema, base: string, segs: seq<string>) {
    segs != [] && forall k :: 1 <= k < |segs| ==> Traversable(schema, base, segs[..k])
  }

  ghost predicate AllCrossable(schema: Schema, base: string, paths: seq<seq<string>>) {
    forall i :: 0 <= i < |paths| ==> Crossable(schema, base, paths[i])
  }

  ghost function JoinsOf(schema: Schema, base: string, segs: seq<string>): (joins: seq<Join>)
    requires Crossable(schema, base, segs)
    ensures |joins| == |segs| - 1
  {
    seq(|segs| - 1, k requires 0 <= k < |segs| - 1 => JoinOf(schema, base, segs[..k + 1]))
  }

  ghost function HopsOf(schema: Schema, base: string, segs: seq<string>): (hops: seq<Hop>)
    requires Crossable(schema, base, segs)
    ensures |hops| == |segs| - 1
  {
    seq(|segs| - 1, k requires 0 <= k < |segs| - 1 => HopOf(schema, base, segs[..k + 1]))
  }

  lemma JoinsOfPath(schema: Schema, base: string, segs: seq<string>)
    requires Crossable(schema, base, segs)
    ensures PathJoins(schema, base, segs, |segs| - 1, JoinsOf(schema, base, segs), HopsOf(schema, base, segs))
  {
    forall k | 0 <= k < |segs| - 1
      ensures IsJoinOf(schema, base, segs[..k + 1], JoinsOf(schema, base, segs)[k], HopsOf(schema, base, segs)[k])
    {
    }
  }

  /** The merged joins of the paths in order. */
  ghost function PlannedJoins(schema: Schema, base: string, paths: seq<seq<string>>): seq<Join>
    requires AllCrossable(schema, base, paths)
    decreases |paths|
  {
    if paths == [] then []
    else
      var last := paths[|paths| - 1];
      MergedJoins(PlannedJoins(schema, base, paths[..|paths| - 1]), JoinsOf(schema, base, last), |last| - 1)
  }

  ghost function PlannedHops(schema: Schema, base: string, paths: seq<seq<string>>): seq<Hop>
    requires AllCrossable(schema, base, paths)
    decreases |paths|
  {
    if paths == [] then []
    else
      var last := paths[|paths| - 1];
      MergedHops(PlannedHops(schema, base, paths[..|paths| - 1]), HopsOf(schema, base, last), |last| - 1)
  }

  /** The joins as they are run. */
  ghost function CompiledJoins(schema: Schema, who: Identity, base: string, paths: seq<seq<string>>): seq<Join>
    requires AllCrossable(schema, base, paths)
  {
    Guarded(PlannedJoins(schema, base, paths), PlannedHops(schema, base, paths), who)
  }

  /** The hop prefixes of all the paths. */
  function PrefixesOfAll(paths: seq<seq<string>>): set<seq<string>> {
    set i, p | 0 <= i < |paths| && p in PrefixesOf(paths[i]) :: p
  }

  ghost predicate CoversAll(ps: seq<seq<string>>, paths: seq<seq<string>>) {
    forall i :: 0 <= i < |paths| ==> paths[i] != [] && Covers(ps, paths[i], |paths[i]| - 1)
  }

  /** When aliases are distinct the merged joins are a plan that covers every path. */
  lemma {:induction false} PlannedIsPlan(
      schema: Schema, base: string, paths: seq<seq<string>>, universe: set<seq<string>>)
    returns (ps: seq<seq<string>>)
    requires AllCrossable(schema, base, paths) && AliasesDistinct(universe) && PrefixesOfAll(paths) <= universe
    ensures IsPlan(schema, base, PlannedJoins(schema, base, paths), PlannedHops(schema, base, paths), ps)
    ensures Within(ps, universe) && CoversAll(ps, paths)
    decreases |paths|
  {
    if paths == [] {
      ps := [];
    } else {
      var front, last := paths[..|paths| - 1], paths[|paths| - 1];
      PrefixesSplit(paths);
      var qs := PlannedIsPlan(schema, base, front, universe);
      JoinsOfPath(schema, base, last);
      ps := MergeExtendsPlan(schema, base, PlannedJoins(schema, base, front), PlannedHops(schema, base, front), qs,
                             last, JoinsOf(schema, base, last), HopsOf(schema, base, last), |last| - 1, universe);
      CoversOneMore(qs, ps, paths);
    }
  }

  lemma CoversOneMore(qs: seq<seq<string>>, ps: seq<seq<string>>, paths: seq<seq<string>>)
    requires paths != [] && paths[|paths| - 1] != [] && Keeps(qs, ps) && CoversAll(qs, paths[..|paths| - 1])
    requires Covers(ps, paths[|paths| - 1], |paths[|paths| - 1]| - 1)
    ensures CoversAll(ps, paths)
  {
    var front := paths[..|paths| - 1];
    forall i | 0 <= i < |paths|
      ensures paths[i] != [] && Covers(ps, paths[i], |paths[i]| - 1)
    {
      if i < |front| {
        assert front[i] == paths[i];
        CoversKept(qs, ps, front[i]);
      }
    }
  }

  lemma PrefixesSplit(paths: seq<seq<string>>)
    requires paths != []
    ensures PrefixesOfAll(paths) == PrefixesOfAll(paths[..|paths| - 1]) + PrefixesOf(paths[|paths| - 1])
  {
    var front := paths[..|paths| - 1];
    forall p
      ensures p in PrefixesOfAll(paths) <==> p in PrefixesOfAll(front) || p in PrefixesOf(paths[|paths| - 1])
    {
      if i :| 0 <= i < |front| && p in PrefixesOf(front[i]) {
        assert p in PrefixesOf(paths[i]);
      }
      if i :| 0 <= i < |paths| && p in PrefixesOf(paths[i]) {
        assert i < |front| ==> p in PrefixesOf(front[i]);
      }
    }
  }

  /** And then every leaf is read where its walk ends. */
  lemma PlannedMeansWalk(schema: Schema, who: Identity, base: string, paths: seq<seq<string>>)
    requires AllCrossable(schema, base, paths) && AliasesDistinct(PrefixesOfAll(paths))
    ensures forall i :: 0 <= i < |paths| ==>
      paths[i] != [] && MeansWalk(schema, who, base, CompiledJoins(schema, who, base, paths), paths[i])
  {
    var joins, hops := PlannedJoins(schema, base, paths), PlannedHops(schema, base, paths);
    var ps := PlannedIsPlan(schema, base, paths, PrefixesOfAll(paths));
    forall i | 0 <= i < |paths|
      ensures paths[i] != [] && MeansWalk(schema, who, base, Guarded(joins, hops, who), paths[i])
    {
      PlanMeansWalk(schema, who, base, joins, hops, ps, paths[i]);
    }
  }

  // ----- the requests of a dataset -----

  ghost predicate Acceptable(schema: Schema, who: Identity, base: string, q: Request) {
    && Resolvable(schema, base, Segments(q.path))
    && (q.select || ReadablePath(schema, who, base, Segments(q.path)))
  }

  /** The first `n` requests are all acceptable. */
  ghost predicate AllAcceptable(schema: Schema, who: Identity, base: string, requests: seq<Request>, n: nat)
    requires n <= |requests|
  {
    n == 0 || (AllAcceptable(schema, who, base, requests, n - 1) && Acceptable(schema, who, base, requests[n - 1]))
  }

  lemma {:induction false} EachAcceptable(
      schema: Schema, who: Identity, base: string, requests: seq<Request>, n: nat, i: nat)
    requires i < n <= |requests| && AllAcceptable(schema, who, base, requests, n)
    ensures Acceptable(schema, who, base, requests[i])
  {
    if i < n - 1 {
      EachAcceptable(schema, who, base, requests, n - 1, i);
    }
  }

  datatype Compiled = Compiled(refs: seq<FieldRef>, joins: seq<Join>)

  ghost function KeptPath(schema: Schema, who: Identity, base: string, q: Request): seq<seq<string>> {
    if ReadablePath(schema, who, base, Segments(q.path)) then [Segments(q.path)] else []
  }

  /** The references a run keeps: the readable ones, in request order. */
  ghost function KeptPaths(
      schema: Schema, who: Identity, base: string, requests: seq<Request>, n: nat): seq<seq<string>>
    requires n <= |requests|
  {
    if n == 0 then [] else KeptPaths(schema, who, base, requests, n - 1) + KeptPath(schema, who, base, requests[n - 1])
  }

  /** The references gathered so far, and their merged joins. */
  ghost predicate Progress(
      schema: Schema, base: string, joins: seq<Join>, hops: seq<Hop>, kept: seq<seq<string>>, refs: seq<FieldRef>)
  {
    && |refs| == |kept|
    && (forall k :: 0 <= k < |kept| ==> kept[k] != [] && Resolves(schema, base, kept[k], refs[k]))
    && AllCrossable(schema, base, kept)
    && joins == PlannedJoins(schema, base, kept) && hops == PlannedHops(schema, base, kept)
  }

  /** One request of the pass: resolve it, gate it, merge its joins. */
  method AddRequest(schema: Schema, who: Identity, base: string, q: Request, joins: seq<Join>, hops: seq<Hop>,
                    refs: seq<FieldRef>, ghost kept: seq<seq<string>>)
    returns (error: Option<Error>, joins': seq<Join>, hops': seq<Hop>, refs': seq<FieldRef>,
      ghost kept': seq<seq<string>>)
    requires base in schema && Progress(schema, base, joins, hops, kept, refs)
    ensures error.None? <==> Acceptable(schema, who, base, q)
    ensures error.None? ==> Progress(schema, base, joins', hops', kept', refs')
    ensures error.None? ==> kept' == kept + KeptPath(schema, who, base, q)
  {
    joins', hops', refs', kept' := joins, hops, refs, kept;
    var resolved := ResolveField(schema, base, q.path);
    if resolved.Err? {
      error := Some(resolved.error);
      return;
    }
    var ref := resolved.value;
    ReadableIsPath(schema, who, base, Segments(q.path), ref);
    if !Readable(who, ref) {
      error := if q.select then None else Some(Forbidden);
      return;
    }
    error := None;
    joins', hops' := MergeJoins(joins, hops, ref);
    refs', kept' := refs + [ref], kept + [Segments(q.path)];
    ProgressNext(schema, base, joins, hops, kept, refs, Segments(q.path), ref);
  }

  /** A resolved reference carries the joins of its path. */
  lemma ResolvedJoins(schema: Schema, base: string, segs: seq<string>, ref: FieldRef)
    requires segs != [] && Resolves(schema, base, segs, ref)
    ensures Crossable(schema, base, segs)
    ensures ref.joins == JoinsOf(schema, base, segs) && ref.hops == HopsOf(schema, base, segs)
  {
    forall k | 1 <= k < |segs|
      ensures Traversable(schema, base, segs[..k])
    {
      assert IsJoinOf(schema, base, segs[..k - 1 + 1], ref.joins[k - 1], ref.hops[k - 1]);
    }
    JoinsOfPath(schema, base, segs);
    forall k | 0 <= k < |segs| - 1
      ensures ref.joins[k] == JoinsOf(schema, base, segs)[k] && ref.hops[k] == HopsOf(schema, base, segs)[k]
    {
      assert IsJoinOf(schema, base, segs[..k + 1], ref.joins[k], ref.hops[k]);
    }
  }

  lemma ProgressNext(schema: Schema, base: string, joins: seq<Join>, hops: seq<Hop>, kept: seq<seq<string>>,
                     refs: seq<FieldRef>, segs: seq<string>, ref: FieldRef)
    requires Progress(schema, base, joins, hops, kept, refs)
    requires segs != [] && Resolves(schema, base, segs, ref)
    ensures Progress(schema, base, MergedJoins(joins, ref.joins, |ref.joins|), MergedHops(hops, ref.hops, |ref.hops|),
                     kept + [segs], refs + [ref])
  {
    ResolvedJoins(schema, base, segs, ref);
    PlannedOneMore(schema, base, kept, segs);
  }

  lemma PlannedOneMore(schema: Schema, base: string, kept: seq<seq<string>>, segs: seq<string>)
    requires AllCrossable(schema, base, kept) && Crossable(schema, base, segs)
    ensures AllCrossable(schema, base, kept + [segs])
    ensures PlannedJoins(schema, base, kept + [segs])
      == MergedJoins(PlannedJoins(schema, base, kept), JoinsOf(schema, base, segs), |segs| - 1)
    ensures PlannedHops(schema, base, kept + [segs])
      == MergedHops(PlannedHops(schema, base, kept), HopsOf(schema, base, segs), |segs| - 1)
  {
    var paths := kept + [segs];
    assert paths[..|paths| - 1] == kept && paths[|paths| - 1] == segs;
    assert AllCrossable(schema, base, paths);
    PlannedLast(schema, base, paths);
  }

  lemma PlannedLast(schema: Schema, base: string, paths: seq<seq<string>>)
    requires AllCrossable(schema, base, paths) && paths != []
    ensures var front, last := paths[..|paths| - 1], paths[|paths| - 1];
      && PlannedJoins(schema, base, paths)
        == MergedJoins(PlannedJoins(schema, base, front), JoinsOf(schema, base, last), |last| - 1)
      && PlannedHops(schema, base, paths)
        == MergedHops(PlannedHops(schema, base, front), HopsOf(schema, base, last), |last| - 1)
  {
  }

  /** What a successful run owes: the kept references and their joins, each leaf read where its walk ends. */
  ghost predicate CompiledRight(schema: Schema, who: Identity, base: string, requests: seq<Request>, c: Compiled) {
    var kept := KeptPaths(schema, who, base, requests, |requests|);
    && |c.refs| == |kept|
    && (forall i :: 0 <= i < |kept| ==> kept[i] != [] && Resolves(schema, base, kept[i], c.refs[i]))
    && AllCrossable(schema, base, kept)
    && c.joins == CompiledJoins(schema, who, base, kept)
    && (AliasesDistinct(PrefixesOfAll(kept)) ==>
          forall i :: 0 <= i < |kept| ==> kept[i] != [] && MeansWalk(schema, who, base, c.joins, kept[i]))
  }

  /**
   The traversal part of `run`: resolve, gate and merge every path, then guard the hops.
   It succeeds iff every path resolves and every non-select path is readable; and when the
   prefixes of the kept paths have distinct aliases, each kept leaf is read where its walk ends.
   */
  method CompileTraversals(
      schema: Schema, who: Identity, base: string, requests: seq<Request>)
    returns (r: Result<Compiled, Error>)
    requires base in schema
    ensures r.Ok? <==> AllAcceptable(schema, who, base, requests, |requests|)
    ensures r.Ok? ==> CompiledRight(schema, who, base, requests, r.value)
  {
    var refs: seq<FieldRef> := [];
    var joins: seq<Join> := [];
    var hops: seq<Hop> := [];
    ghost var kept: seq<seq<string>> := [];
    for i := 0 to |requests|
      invariant AllAcceptable(schema, who, base, requests, i)
      invariant kept == KeptPaths(schema, who, base, requests, i)
      invariant Progress(schema, base, joins, hops, kept, refs)
    {
      var error;
      error, joins, hops, refs, kept := AddRequest(schema, who, base, requests[i], joins, hops, refs, kept);
      if error.Some? {
        if AllAcceptable(schema, who, base, requests, |requests|) {
          EachAcceptable(schema, who, base, requests, |requests|, i);
        }
        return Err(error.value);
      }
    }
    if AliasesDistinct(PrefixesOfAll(kept)) {
      PlannedMeansWalk(schema, who, base, kept);
    }
    var guarded := GuardHops(joins, hops, who);
    return Ok(Compiled(refs, guarded));
  }

  lemma CoversKept(ps: seq<seq<string>>, qs: seq<seq<string>>, segs: seq<string>)
    requires segs != [] && Covers(ps, segs, |segs| - 1) && Keeps(ps, qs)
    ensures Covers(qs, segs, |segs| - 1)
  {
  }

  // ===== when aliases are distinct =====

  /** Names without an underscore, all of whose characters survive sanitizing. */
  predicate PlainName(s: string) {
    forall c :: c in s ==> SanitizedChar(c) == c && c != '_'
  }

  lemma {:induction false} UnderscoredInjective(p: seq<string>, q: seq<string>)
    requires p != [] && q != []
    requires forall s :: s in p || s in q ==> PlainName(s)
    requires Underscored(p) == Underscored(q)
    ensures p == q
    decreases |p|
  {
    var a, b := p[|p| - 1], q[|q| - 1];
    SanitizedPlain(a);
    SanitizedPlain(b);
    if |p| > 1 && |q| > 1 {
      SplitLast(Underscored(p[..|p| - 1]), a, Underscored(q[..|q| - 1]), b);
      UnderscoredInjective(p[..|p| - 1], q[..|q| - 1]);
      assert p == p[..|p| - 1] + [a] && q == q[..|q| - 1] + [b];
    } else if |p| == 1 && |q| == 1 {
      assert p == [a] && q == [b];
    } else if |p| == 1 {
      assert a == Underscored(q);
      HasUnderscore(q);
    } else {
      assert b == Underscored(p);
      HasUnderscore(p);
    }
  }

  lemma SanitizedPlain(s: string)
    requires PlainName(s)
    ensures Sanitized(s) == s
  {
    forall i | 0 <= i < |s|
      ensures Sanitized(s)[i] == s[i]
    {
      assert s[i] in s;
    }
  }

  lemma HasUnderscore(p: seq<string>)
    requires |p| > 1
    ensures '_' in Underscored(p)
  {
    assert Underscored(p)[|Underscored(p[..|p| - 1])|] == '_';
  }

  /** The last underscore of a text has one position. */
  lemma SameLength(s: string, m: nat, a: string, n: nat, b: string)
    requires |s| == m + 1 + |a| == n + 1 + |b| && s[m] == '_' && s[n] == '_'
    requires s[m + 1..] == a && s[n + 1..] == b && PlainName(a) && PlainName(b)
    ensures m == n
  {
    if m < n {
      NoUnderscoreAfter(s, m, n);
    } else if n < m {
      NoUnderscoreAfter(s, n, m);
    }
  }

  lemma NoUnderscoreAfter(s: string, m: nat, n: nat)
    requires m < n < |s| && PlainName(s[m + 1..])
    ensures s[n] != '_'
  {
    assert s[n] == s[m + 1..][n - m - 1];
    assert s[n] in s[m + 1..];
  }

  lemma SplitLast(x: string, a: string, y: string, b: string)
    requires x + "_" + a == y + "_" + b && PlainName(a) && PlainName(b)
    ensures x == y && a == b
  {
    var s := x + "_" + a;
    assert s[|x|] == '_' && s[|y|] == '_';
    SameLength(s, |x|, a, |y|, b);
    assert s[..|x|] == x && s[..|y|] == y;
    assert s[|x| + 1..] == a && s[|y| + 1..] == b;
  }

  /** Names free of underscores always satisfy the hypothesis. */
  lemma PlainNamesDistinct(prefixes: set<seq<string>>)
    requires forall p :: p in prefixes ==> p != [] && forall s :: s in p ==> PlainName(s)
    ensures AliasesDistinct(prefixes)
  {
    forall p, q | p in prefixes && q in prefixes && Alias(p) == Alias(q)
      ensures p == q
    {
      assert Alias(p)[2..] == Underscored(p) && Alias(q)[2..] == Underscored(q);
      UnderscoredInjective(p, q);
    }
  }
}
