/**
 Publishing a Studio draft: archive the active model, add or un-retire what the draft adds,
 retire what it drops, bump the version. Rows are never deleted and un-retiring a row does
 not rewrite it, so whether the active model becomes the draft depends on the stored rows.
 */
module Publishing {
  import opened Common
  import opened DraftModels

  datatype Kind = EntityKind | FieldKind | RelationshipKind

  datatype Key = Key(kind: Kind, id: Uuid)

  /** What a row holds beside its id, owner and status. */
  datatype Content = Content(columns: Columns, target: Option<Uuid>, cardinality: string)

  /** A field or relationship belongs to an entity. */
  datatype Artifact = Artifact(parent: Option<Uuid>, content: Content)

  datatype Item = Item(key: Key, artifact: Artifact)

  datatype Row = Row(active: bool, artifact: Artifact)

  /** md_entity, md_field and md_relationship, and the md_retirement rows by (kind, target). */
  datatype Tables = Tables(rows: map<Key, Row>, retired: multiset<Key>)

  datatype DraftStatus = Draft | Validating | Failed | Publishing | Published

  datatype Snapshot = Snapshot(version: nat, model: DraftModel)

  datatype Db = Db(
    modules: map<Uuid, Columns>,
    tables: Tables,
    snapshots: seq<Snapshot>,
    version: Option<nat>,
    drafts: map<Uuid, DraftStatus>)

  const EMPTY := Db(map[], Tables(map[], multiset{}), [], None, map[])

  const KEPT_SNAPSHOTS := 10

  // ===== a model as a list of artifacts =====

  function FieldItem(e: DraftEntity, f: DraftField): Item {
    Item(Key(FieldKind, f.id), Artifact(Some(e.id), Content(f.columns, None, "")))
  }

  function RelationshipItem(e: DraftEntity, r: DraftRelationship): Item {
    Item(Key(RelationshipKind, r.id), Artifact(Some(e.id), Content(r.columns, Some(r.target), r.cardinality)))
  }

  /** The artifacts of one kind that an entity of a model brings. */
  function ItemsOf(e: DraftEntity, kind: Kind): seq<Item> {
    match kind
    case EntityKind => [Item(Key(EntityKind, e.id), Artifact(None, Content(e.columns, None, "")))]
    case FieldKind => seq(|e.fields|, i requires 0 <= i < |e.fields| => FieldItem(e, e.fields[i]))
    case RelationshipKind =>
      seq(|e.relationships|, i requires 0 <= i < |e.relationships| => RelationshipItem(e, e.relationships[i]))
  }

  function KindItems(es: seq<DraftEntity>, kind: Kind): seq<Item> {
    if es == [] then [] else KindItems(es[..|es| - 1], kind) + ItemsOf(es[|es| - 1], kind)
  }

  /** In the order publishing adds them: all entities, then all fields, then all relationships. */
  function Items(es: seq<DraftEntity>): seq<Item> {
    KindItems(es, EntityKind) + KindItems(es, FieldKind) + KindItems(es, RelationshipKind)
  }

  function EntityItems(e: DraftEntity): seq<Item> {
    ItemsOf(e, EntityKind) + ItemsOf(e, FieldKind) + ItemsOf(e, RelationshipKind)
  }

  /** In the order publishing retires them: entity by entity. */
  function ByEntity(es: seq<DraftEntity>): seq<Item> {
    if es == [] then [] else ByEntity(es[..|es| - 1]) + EntityItems(es[|es| - 1])
  }

  function KeysOf(items: seq<Item>): set<Key> {
    set x | x in items :: x.key
  }

  predicate DistinctKeys(items: seq<Item>) {
    && (forall x :: x in items ==> multiset(items)[x] == 1)
    && (forall x, y :: x in items && y in items && x.key == y.key ==> x == y)
  }

  lemma {:induction false} BothOrders(es: seq<DraftEntity>)
    ensures multiset(Items(es)) == multiset(ByEntity(es))
  {
    if es != [] {
      BothOrders(es[..|es| - 1]);
    }
  }

  lemma SameBags<T>(a: seq<T>, b: seq<T>)
    requires multiset(a) == multiset(b)
    ensures forall x :: x in a <==> x in b
  {
    forall x
      ensures x in a <==> x in b
    {
      assert x in multiset(a) <==> x in multiset(b);
    }
  }

  lemma DistinctInBothOrders(es: seq<DraftEntity>)
    requires DistinctKeys(Items(es))
    ensures DistinctKeys(ByEntity(es)) && KeysOf(ByEntity(es)) == KeysOf(Items(es))
    ensures forall x :: x in ByEntity(es) <==> x in Items(es)
  {
    BothOrders(es);
    SameItems(Items(es), ByEntity(es));
  }

  lemma SameItems(a: seq<Item>, b: seq<Item>)
    requires DistinctKeys(a) && multiset(a) == multiset(b)
    ensures DistinctKeys(b) && KeysOf(b) == KeysOf(a)
    ensures forall x :: x in b <==> x in a
  {
    SameBags(a, b);
  }

  // ===== publishing =====

  /** The text of the column that is unique within the owner (within the tenant for an entity). */
  function UniqueName(key: Key, c: Columns): Option<string> {
    var column := if key.kind.RelationshipKind? then "source_field_name" else "name";
    if column in c then Some(c[column]) else None
  }

  /** An INSERT of `x` violates the unique index of its table. */
  predicate Clashes(t: Tables, x: Item) {
    exists k :: k in t.rows && k.kind == x.key.kind && t.rows[k].artifact.parent == x.artifact.parent
      && UniqueName(k, t.rows[k].artifact.content.columns).Some?
      && UniqueName(k, t.rows[k].artifact.content.columns) == UniqueName(x.key, x.artifact.content.columns)
  }

  /** INSERT .. ON CONFLICT (id) DO UPDATE SET status = 'active', then unretire; None is a unique violation. */
  function AddItem(t: Tables, x: Item): Option<Tables> {
    if x.key in t.rows
    then Some(Tables(t.rows[x.key := t.rows[x.key].(active := true)], t.retired[x.key := 0]))
    else if Clashes(t, x) then None
    else Some(Tables(t.rows[x.key := Row(true, x.artifact)], t.retired[x.key := 0]))
  }

  function AddItems(t: Tables, items: seq<Item>, activeKeys: set<Key>): Option<Tables> {
    if items == [] then Some(t)
    else
      var x := items[|items| - 1];
      match AddItems(t, items[..|items| - 1], activeKeys)
      case None => None
      case Some(t') => if x.key in activeKeys then Some(t') else AddItem(t', x)
  }

  /** UPDATE .. SET status = 'retired' and INSERT INTO md_retirement. */
  function RetireItem(t: Tables, x: Item): Tables {
    Tables(if x.key in t.rows then t.rows[x.key := t.rows[x.key].(active := false)] else t.rows,
           t.retired + multiset{x.key})
  }

  function RetireItems(t: Tables, items: seq<Item>, draftKeys: set<Key>): Tables {
    if items == [] then t
    else
      var x := items[|items| - 1];
      var t' := RetireItems(t, items[..|items| - 1], draftKeys);
      if x.key in draftKeys then t' else RetireItem(t', x)
  }

  /** Modules are only ever inserted; a clash on (tenant, name) or on the id aborts. */
  function AddModules(
      have: map<Uuid, Columns>, ms: seq<DraftModule>, activeIds: set<Uuid>): Option<map<Uuid, Columns>>
  {
    if ms == [] then Some(have)
    else
      var m := ms[|ms| - 1];
      match AddModules(have, ms[..|ms| - 1], activeIds)
      case None => None
      case Some(now) =>
        if m.id in activeIds then Some(now)
        else if m.id in now || ModuleClashes(now, m) then None
        else Some(now[m.id := m.columns])
  }

  predicate ModuleClashes(have: map<Uuid, Columns>, m: DraftModule) {
    "name" in m.columns && exists i :: i in have && "name" in have[i] && have[i]["name"] == m.columns["name"]
  }

  predicate DistinctModules(ms: seq<DraftModule>) {
    forall i, j :: 0 <= i < j < |ms| ==> ms[i].id != ms[j].id
  }

  function ModuleIds(ms: seq<DraftModule>): set<Uuid> {
    set m | m in ms :: m.id
  }

  /** The checks of the diff report that publishing relies on: ids, unchanged artifacts, targets. */
  predicate DiffAccepts(active: DraftModel, draft: DraftModel) {
    && DistinctKeys(Items(draft.entities))
    && DistinctModules(draft.modules)
    && (forall m, n :: m in active.modules && n in draft.modules && m.id == n.id ==> m == n)
    && (forall x, y :: x in Items(active.entities) && y in Items(draft.entities) && x.key == y.key ==> x == y)
    && TargetsInside(Items(draft.entities))
  }

  /** Every relationship targets an entity of the same model. */
  predicate TargetsInside(items: seq<Item>) {
    forall x :: x in items && x.artifact.content.target.Some? ==>
      Key(EntityKind, x.artifact.content.target.value) in KeysOf(items)
  }

  /** A table name new to the tenant that another tenant already uses. */
  predicate TableTaken(active: DraftModel, draft: DraftModel, taken: set<string>) {
    exists x :: x in Items(draft.entities) && x.key.kind.EntityKind? && x.key !in KeysOf(Items(active.entities))
      && "table_name" in x.artifact.content.columns && x.artifact.content.columns["table_name"] in taken
  }

  function CurrentVersion(db: Db): nat {
    if db.version.Some? then db.version.value else 0
  }

  function Archived(db: Db, active: DraftModel): seq<Snapshot> {
    var all := db.snapshots + [Snapshot(CurrentVersion(db), active)];
    if |all| > KEPT_SNAPSHOTS then all[|all| - KEPT_SNAPSHOTS..] else all
  }

  /** Why a publish is refused before it writes anything. */
  function Refusal(
      db: Db, id: Uuid, active: DraftModel, draft: DraftModel, otherwiseValid: bool, taken: set<string>): Option<Error>
  {
    if id !in db.drafts then Some(NotFound)
    else if db.drafts[id].Published? || db.drafts[id].Publishing? then Some(Conflict)
    else if !otherwiseValid || !DiffAccepts(active, draft) || TableTaken(active, draft, taken) then Some(Invalid)
    else None
  }

  /**
   The publish transaction. `otherwiseValid` is the verdict of the diff checks on names, types
   and identifiers, `taken` the table names active in other tenants.
   */
  function Publish(db: Db, id: Uuid, active: DraftModel, draft: DraftModel, otherwiseValid: bool, taken: set<string>)
    : (Db, Result<(), Error>)
  {
    var refusal := Refusal(db, id, active, draft, otherwiseValid, taken);
    if refusal.Some? then (db, Err(refusal.value))
    else match AddModules(db.modules, draft.modules, ModuleIds(active.modules))
      case None => (db, Err(Internal))
      case Some(modules) =>
        match AddItems(db.tables, Items(draft.entities), KeysOf(Items(active.entities)))
        case None => (db, Err(Internal))
        case Some(added) =>
          var tables := RetireItems(added, ByEntity(active.entities), KeysOf(Items(draft.entities)));
          (Db(modules, tables, Archived(db, active), Some(CurrentVersion(db) + 1), db.drafts[id := Published]), Ok(()))
  }

  // ===== what the active model is =====

  predicate EntityActive(t: Tables, id: Uuid) {
    Key(EntityKind, id) in t.rows && t.rows[Key(EntityKind, id)].active
  }

  predicate IsActive(t: Tables, k: Key) {
    k in t.rows && t.rows[k].active
  }

  /** An active row shows up in the loaded model only under an active entity. */
  predicate Visible(t: Tables, k: Key) {
    && IsActive(t, k)
    && (k.kind.EntityKind? || (t.rows[k].artifact.parent.Some? && EntityActive(t, t.rows[k].artifact.parent.value)))
  }

  /** `items` lists exactly the visible rows, each once, as stored. */
  ghost predicate Lists(t: Tables, items: seq<Item>) {
    && DistinctKeys(items)
    && (forall x :: x in items ==> Visible(t, x.key) && t.rows[x.key].artifact == x.artifact)
    && (forall k :: Visible(t, k) ==> k in KeysOf(items))
  }

  /** `m` is what loading the active model of `db` returns, up to order. */
  ghost predicate IsActiveModel(db: Db, m: DraftModel) {
    && Lists(db.tables, Items(m.entities))
    && DistinctModules(m.modules) && ModuleIds(m.modules) == db.modules.Keys
    && (forall x :: x in m.modules ==> db.modules[x.id] == x.columns)
  }

  // ===== what the two passes do to a row =====

  lemma DistinctPrefix(items: seq<Item>)
    requires DistinctKeys(items) && items != []
    ensures DistinctKeys(items[..|items| - 1]) && items[|items| - 1].key !in KeysOf(items[..|items| - 1])
  {
    var rest, x := items[..|items| - 1], items[|items| - 1];
    assert items == rest + [x];
    assert multiset(items) == multiset(rest) + multiset{x};
    forall y | y in rest
      ensures multiset(rest)[y] == 1 && y.key != x.key
    {
      assert y in items && y in multiset(rest);
      assert multiset(items)[y] == 1;
    }
  }

  /** What adding a list leaves under key `k`. */
  ghost predicate AddedAt(t: Tables, t': Tables, items: seq<Item>, activeKeys: set<Key>, k: Key) {
    if k !in KeysOf(items) || k in activeKeys
    then (k in t'.rows <==> k in t.rows) && (k in t.rows ==> t'.rows[k] == t.rows[k]) && t'.retired[k] == t.retired[k]
    else
      && k in t'.rows && t'.rows[k].active && t'.retired[k] == 0
      && (if k in t.rows then t'.rows[k].artifact == t.rows[k].artifact
          else forall x :: x in items && x.key == k ==> t'.rows[k].artifact == x.artifact)
  }

  lemma {:induction false} AddedEverywhere(t: Tables, items: seq<Item>, activeKeys: set<Key>, k: Key)
    requires DistinctKeys(items) && AddItems(t, items, activeKeys).Some?
    ensures AddedAt(t, AddItems(t, items, activeKeys).value, items, activeKeys, k)
    decreases |items|
  {
    if items != [] {
      var rest, x := items[..|items| - 1], items[|items| - 1];
      DistinctPrefix(items);
      AddedEverywhere(t, rest, activeKeys, k);
      assert items == rest + [x];
      assert KeysOf(items) == KeysOf(rest) + {x.key};
      var mid := AddItems(t, rest, activeKeys).value;
      AddedLast(t, mid, AddItems(t, items, activeKeys).value, rest, x, activeKeys, k);
    }
  }

  lemma AddedLast(t: Tables, mid: Tables, t': Tables, rest: seq<Item>, x: Item, activeKeys: set<Key>, k: Key)
    requires x.key !in KeysOf(rest) && AddedAt(t, mid, rest, activeKeys, k)
    requires KeysOf(rest + [x]) == KeysOf(rest) + {x.key}
    requires if x.key in activeKeys then t' == mid else AddItem(mid, x) == Some(t')
    ensures AddedAt(t, t', rest + [x], activeKeys, k)
  {
    if k == x.key {
      assert forall y :: y in rest ==> y.key in KeysOf(rest);
    }
  }

  /** What retiring a list leaves under key `k`. */
  ghost predicate RetiredAt(t: Tables, t': Tables, items: seq<Item>, draftKeys: set<Key>, k: Key) {
    && (k in t'.rows <==> k in t.rows)
    && (k in t.rows ==> t'.rows[k].artifact == t.rows[k].artifact)
    && (if k in KeysOf(items) && k !in draftKeys
        then (k in t.rows ==> !t'.rows[k].active) && t'.retired[k] == t.retired[k] + 1
        else (k in t.rows ==> t'.rows[k] == t.rows[k]) && t'.retired[k] == t.retired[k])
  }

  lemma {:induction false} RetiredEverywhere(t: Tables, items: seq<Item>, draftKeys: set<Key>, k: Key)
    requires DistinctKeys(items)
    ensures RetiredAt(t, RetireItems(t, items, draftKeys), items, draftKeys, k)
    decreases |items|
  {
    if items != [] {
      var rest, x := items[..|items| - 1], items[|items| - 1];
      DistinctPrefix(items);
      RetiredEverywhere(t, rest, draftKeys, k);
      assert items == rest + [x];
      assert KeysOf(items) == KeysOf(rest) + {x.key};
      RetiredLast(t, RetireItems(t, rest, draftKeys), RetireItems(t, items, draftKeys), rest, x, draftKeys, k);
    }
  }

  lemma RetiredLast(t: Tables, mid: Tables, t': Tables, rest: seq<Item>, x: Item, draftKeys: set<Key>, k: Key)
    requires x.key !in KeysOf(rest) && RetiredAt(t, mid, rest, draftKeys, k)
    requires KeysOf(rest + [x]) == KeysOf(rest) + {x.key}
    requires t' == if x.key in draftKeys then mid else RetireItem(mid, x)
    ensures RetiredAt(t, t', rest + [x], draftKeys, k)
  {
  }

  /** The effect on the row under `k` of publishing a draft that lists `ds`. */
  ghost predicate MovedAt(t: Tables, t': Tables, ds: seq<Item>, k: Key) {
    && (IsActive(t', k) <==> k in KeysOf(ds) || IsStray(t, k))
    && (k in t.rows ==> k in t'.rows && t'.rows[k].artifact == t.rows[k].artifact)
    && (k !in t.rows && k in t'.rows ==> exists x :: x in ds && x.key == k && t'.rows[k].artifact == x.artifact)
    && t'.retired[k] == (if k in KeysOf(ds) then (if Visible(t, k) then t.retired[k] else 0)
                         else if Visible(t, k) then t.retired[k] + 1 else t.retired[k])
  }

  /** A row left active under a retired entity. */
  predicate IsStray(t: Tables, k: Key) {
    IsActive(t, k) && !Visible(t, k)
  }

  lemma MovedByPasses(t: Tables, added: Tables, t': Tables, was: seq<Item>, order: seq<Item>, ds: seq<Item>, k: Key)
    requires Lists(t, was) && AddedAt(t, added, ds, KeysOf(was), k)
    requires KeysOf(order) == KeysOf(was) && RetiredAt(added, t', order, KeysOf(ds), k)
    ensures MovedAt(t, t', ds, k)
  {
    assert k in KeysOf(was) <==> Visible(t, k);
    if k in KeysOf(ds) {
      var x :| x in ds && x.key == k;
    }
  }

  /** A publish that went through: its whole effect on the row under `k`. */
  lemma PublishedAt(db: Db, id: Uuid, active: DraftModel, draft: DraftModel, valid: bool, taken: set<string>, k: Key)
    requires IsActiveModel(db, active) && Publish(db, id, active, draft, valid, taken).1.Ok?
    ensures MovedAt(db.tables, Publish(db, id, active, draft, valid, taken).0.tables, Items(draft.entities), k)
  {
    var ds, was := Items(draft.entities), Items(active.entities);
    var added := AddItems(db.tables, ds, KeysOf(was)).value;
    AddedEverywhere(db.tables, ds, KeysOf(was), k);
    DistinctInBothOrders(active.entities);
    var t' := RetireItems(added, ByEntity(active.entities), KeysOf(ds));
    RetiredEverywhere(added, ByEntity(active.entities), KeysOf(ds), k);
    MovedByPasses(db.tables, added, t', was, ByEntity(active.entities), ds, k);
  }

  // ===== when the active model becomes the draft =====

  /** Every draft artifact that has a row is stored exactly as the draft has it. */
  ghost predicate Faithful(db: Db, draft: DraftModel) {
    forall x :: x in Items(draft.entities) && x.key in db.tables.rows ==> db.tables.rows[x.key].artifact == x.artifact
  }

  /** No stray outside the draft belongs to an entity of the draft. */
  ghost predicate NoStrayJoins(db: Db, draft: DraftModel) {
    forall k :: IsStray(db.tables, k) && k !in KeysOf(Items(draft.entities)) && db.tables.rows[k].artifact.parent.Some?
      ==> Key(EntityKind, db.tables.rows[k].artifact.parent.value) !in KeysOf(Items(draft.entities))
  }

  /** Parents inside a draft are entities of the draft. */
  lemma {:induction false} ParentsInside(es: seq<DraftEntity>, x: Item)
    requires x in Items(es) && !x.key.kind.EntityKind?
    ensures x.artifact.parent.Some? && Key(EntityKind, x.artifact.parent.value) in KeysOf(Items(es))
  {
    if x in KindItems(es, EntityKind) {
      KindOf(es, EntityKind, x);
      assert false;
    } else if x in KindItems(es, FieldKind) {
      KindOf(es, FieldKind, x);
    } else {
      KindOf(es, RelationshipKind, x);
    }
  }

  lemma {:induction false} KindOf(es: seq<DraftEntity>, kind: Kind, x: Item)
    requires x in KindItems(es, kind)
    ensures x.key.kind == kind
    ensures kind.EntityKind? <==> x.artifact.parent.None?
    ensures x.artifact.parent.Some? ==> Key(EntityKind, x.artifact.parent.value) in KeysOf(KindItems(es, EntityKind))
  {
    var e := es[|es| - 1];
    var rest := es[..|es| - 1];
    if x in KindItems(rest, kind) {
      KindOf(rest, kind, x);
    } else {
      var self := Item(Key(EntityKind, e.id), Artifact(None, Content(e.columns, None, "")));
      assert self in KindItems(es, EntityKind);
    }
  }

  /** The draft's entities are exactly the active ones afterwards. */
  lemma EntitiesAfter(db: Db, id: Uuid, active: DraftModel, draft: DraftModel, valid: bool, taken: set<string>, e: Uuid)
    requires IsActiveModel(db, active) && Publish(db, id, active, draft, valid, taken).1.Ok?
    ensures EntityActive(Publish(db, id, active, draft, valid, taken).0.tables, e)
      <==> Key(EntityKind, e) in KeysOf(Items(draft.entities))
  {
    PublishedAt(db, id, active, draft, valid, taken, Key(EntityKind, e));
  }

  // ----- modules -----

  lemma FrontModules(ms: seq<DraftModule>)
    requires ms != [] && DistinctModules(ms)
    ensures var rest, m := ms[..|ms| - 1], ms[|ms| - 1];
      && DistinctModules(rest) && (forall x :: x in rest ==> x.id != m.id)
        && (forall x :: x in ms <==> x in rest || x == m)
  {
    var rest, m := ms[..|ms| - 1], ms[|ms| - 1];
    assert ms == rest + [m];
  }

  /** What adding the modules leaves under an id. */
  lemma {:induction false} ModuleAfter(have: map<Uuid, Columns>, ms: seq<DraftModule>, activeIds: set<Uuid>, i: Uuid)
    requires DistinctModules(ms) && AddModules(have, ms, activeIds).Some?
    ensures var now := AddModules(have, ms, activeIds).value;
      && (i in have ==> i in now && now[i] == have[i])
      && (i !in have ==> (i in now <==> i !in activeIds && exists m :: m in ms && m.id == i))
      && (forall m :: m in ms && m.id == i && i !in activeIds ==> i in now && now[i] == m.columns)
    decreases |ms|
  {
    if ms != [] {
      FrontModules(ms);
      ModuleAfter(have, ms[..|ms| - 1], activeIds, i);
    }
  }

  /** The modules stored before and the new ones, each with its columns, and no other. */
  ghost predicate ModulesAdded(have: map<Uuid, Columns>, ms: seq<DraftModule>, now: map<Uuid, Columns>) {
    && (forall i :: i in now <==> i in have || exists m :: m in ms && m.id == i)
    && (forall i :: i in have ==> i in now && now[i] == have[i])
    && (forall m :: m in ms ==> m.id in now && now[m.id] == m.columns)
  }

  /** After a publish the modules are those stored before and the draft's, each with its columns. */
  lemma ModulesStored(db: Db, id: Uuid, active: DraftModel, draft: DraftModel, valid: bool, taken: set<string>)
    requires IsActiveModel(db, active) && Publish(db, id, active, draft, valid, taken).1.Ok?
    ensures ModulesAdded(db.modules, draft.modules, Publish(db, id, active, draft, valid, taken).0.modules)
  {
    var activeIds := ModuleIds(active.modules);
    forall i
      ensures var now := Publish(db, id, active, draft, valid, taken).0.modules;
        && (i in now <==> i in db.modules || exists m :: m in draft.modules && m.id == i)
        && (i in db.modules ==> i in now && now[i] == db.modules[i])
        && (forall m :: m in draft.modules && m.id == i ==> i in now && now[i] == m.columns)
    {
      ModuleAfter(db.modules, draft.modules, activeIds, i);
      KnownModule(db, active, draft, i);
    }
  }

  /** A module of the draft that is active is stored as the draft has it. */
  lemma KnownModule(db: Db, active: DraftModel, draft: DraftModel, i: Uuid)
    requires IsActiveModel(db, active) && DiffAccepts(active, draft)
    ensures i in ModuleIds(active.modules) <==> i in db.modules
    ensures forall m :: m in draft.modules && m.id == i && i in db.modules ==> db.modules[i] == m.columns
  {
    assert i in ModuleIds(active.modules) <==> i in db.modules.Keys;
    forall m | m in draft.modules && m.id == i && i in db.modules
      ensures db.modules[i] == m.columns
    {
      var a :| a in active.modules && a.id == i;
      assert a == m;
    }
  }

  /**
   After a publish the loaded entities, fields and relationships are the draft's, in full, iff
   no un-retired row was stored differently and no stray row of the draft's entities resurfaces.
   The modules loaded are those stored before and the draft's, each with its columns, so the
   whole of what loads is the draft iff besides it names every stored module.
   */
  lemma PublishYieldsDraftIff(db: Db, id: Uuid, active: DraftModel, draft: DraftModel, valid: bool, taken: set<string>)
    requires IsActiveModel(db, active) && Publish(db, id, active, draft, valid, taken).1.Ok?
    ensures Lists(Publish(db, id, active, draft, valid, taken).0.tables, Items(draft.entities))
      <==> Faithful(db, draft) && NoStrayJoins(db, draft)
    ensures ModulesAdded(db.modules, draft.modules, Publish(db, id, active, draft, valid, taken).0.modules)
    ensures IsActiveModel(Publish(db, id, active, draft, valid, taken).0, draft)
      <==> Faithful(db, draft) && NoStrayJoins(db, draft)
           && forall i :: i in db.modules ==> exists m :: m in draft.modules && m.id == i
  {
    ModulesStored(db, id, active, draft, valid, taken);
    ArtifactsYielded(db, id, active, draft, valid, taken);
    GoesThroughIff(db, id, active, draft, valid, taken);
    assert DistinctModules(draft.modules);
    AllModulesNamed(db.modules, draft.modules, Publish(db, id, active, draft, valid, taken).0.modules);
  }

  lemma AllModulesNamed(have: map<Uuid, Columns>, ms: seq<DraftModule>, now: map<Uuid, Columns>)
    requires ModulesAdded(have, ms, now)
    ensures ModuleIds(ms) == now.Keys <==> forall i :: i in have ==> exists m :: m in ms && m.id == i
    ensures forall m :: m in ms ==> now[m.id] == m.columns
  {
    forall i
      ensures i in ModuleIds(ms) <==> exists m :: m in ms && m.id == i
    {
    }
  }

  lemma ArtifactsYielded(db: Db, id: Uuid, active: DraftModel, draft: DraftModel, valid: bool, taken: set<string>)
    requires IsActiveModel(db, active) && Publish(db, id, active, draft, valid, taken).1.Ok?
    ensures Lists(Publish(db, id, active, draft, valid, taken).0.tables, Items(draft.entities))
      <==> Faithful(db, draft) && NoStrayJoins(db, draft)
  {
    var t' := Publish(db, id, active, draft, valid, taken).0.tables;
    if Lists(t', Items(draft.entities)) {
      ListedMeansFaithful(db, id, active, draft, valid, taken);
    }
    if Faithful(db, draft) && NoStrayJoins(db, draft) {
      FaithfulMeansListed(db, id, active, draft, valid, taken);
    }
  }

  lemma ListedMeansFaithful(db: Db, id: Uuid, active: DraftModel, draft: DraftModel, valid: bool, taken: set<string>)
    requires IsActiveModel(db, active) && Publish(db, id, active, draft, valid, taken).1.Ok?
    requires Lists(Publish(db, id, active, draft, valid, taken).0.tables, Items(draft.entities))
    ensures Faithful(db, draft) && NoStrayJoins(db, draft)
  {
    var t' := Publish(db, id, active, draft, valid, taken).0.tables;
    forall x | x in Items(draft.entities) && x.key in db.tables.rows
      ensures db.tables.rows[x.key].artifact == x.artifact
    {
      PublishedAt(db, id, active, draft, valid, taken, x.key);
    }
    forall k | IsStray(db.tables, k) && k !in KeysOf(Items(draft.entities)) && db.tables.rows[k].artifact.parent.Some?
      ensures Key(EntityKind, db.tables.rows[k].artifact.parent.value) !in KeysOf(Items(draft.entities))
    {
      PublishedAt(db, id, active, draft, valid, taken, k);
      EntitiesAfter(db, id, active, draft, valid, taken, db.tables.rows[k].artifact.parent.value);
      assert !Visible(t', k);
    }
  }

  lemma FaithfulMeansListed(db: Db, id: Uuid, active: DraftModel, draft: DraftModel, valid: bool, taken: set<string>)
    requires IsActiveModel(db, active) && Publish(db, id, active, draft, valid, taken).1.Ok?
    requires Faithful(db, draft) && NoStrayJoins(db, draft)
    ensures Lists(Publish(db, id, active, draft, valid, taken).0.tables, Items(draft.entities))
  {
    var t' := Publish(db, id, active, draft, valid, taken).0.tables;
    var ds := Items(draft.entities);
    forall x | x in ds
      ensures Visible(t', x.key) && t'.rows[x.key].artifact == x.artifact
    {
      PublishedAt(db, id, active, draft, valid, taken, x.key);
      if x.key !in db.tables.rows {
        var y :| y in ds && y.key == x.key && t'.rows[x.key].artifact == y.artifact;
      }
      if !x.key.kind.EntityKind? {
        ParentsInside(draft.entities, x);
        EntitiesAfter(db, id, active, draft, valid, taken, x.artifact.parent.value);
      }
    }
    forall k | Visible(t', k)
      ensures k in KeysOf(ds)
    {
      PublishedAt(db, id, active, draft, valid, taken, k);
      if k !in KeysOf(ds) {
        assert IsStray(db.tables, k) && t'.rows[k].artifact == db.tables.rows[k].artifact;
        EntitiesAfter(db, id, active, draft, valid, taken, db.tables.rows[k].artifact.parent.value);
        assert false;
      }
    }
  }

  // ===== runs of publishes =====

  /** `active` is the model loaded before the transaction; `otherwiseValid` and `taken` as in `Publish`. */
  datatype Event =
    | NewDraft(draftId: Uuid)
    | PublishDraft(id: Uuid, active: DraftModel, draft: DraftModel, otherwiseValid: bool, taken: set<string>)

  /** Publishes are sequential, so the loaded model is the active one. */
  ghost function Step(db: Db, e: Event): Db {
    match e
    case NewDraft(id) => if id in db.drafts then db else db.(drafts := db.drafts[id := Draft])
    case PublishDraft(id, active, draft, valid, taken) =>
      if IsActiveModel(db, active) then Publish(db, id, active, draft, valid, taken).0 else db
  }

  ghost function Run(db: Db, es: seq<Event>): Db {
    if es == [] then db else Step(Run(db, es[..|es| - 1]), es[|es| - 1])
  }

  ghost predicate RetirementsExact(t: Tables) {
    forall k :: t.retired[k] == if k in t.rows && !t.rows[k].active then 1 else 0
  }

  /** An archived model is still stored, artifact by artifact. */
  ghost predicate Kept(db: Db, m: DraftModel) {
    && DistinctKeys(Items(m.entities)) && DistinctModules(m.modules)
    && Faithful(db, m) && KeysOf(Items(m.entities)) <= db.tables.rows.Keys
    && (forall x :: x in m.modules ==> x.id in db.modules && db.modules[x.id] == x.columns)
  }

  /** The last publishes, at most ten, each archived under the version it replaced. */
  ghost predicate SnapshotsNumbered(db: Db) {
    && |db.snapshots| <= KEPT_SNAPSHOTS && |db.snapshots| <= CurrentVersion(db)
    && (|db.snapshots| < KEPT_SNAPSHOTS ==> |db.snapshots| == CurrentVersion(db))
    && forall i :: 0 <= i < |db.snapshots| ==> db.snapshots[i].version == CurrentVersion(db) - |db.snapshots| + i
  }

  ghost predicate Valid(db: Db) {
    && RetirementsExact(db.tables)
    && SnapshotsNumbered(db)
    && forall s :: s in db.snapshots ==> Kept(db, s.model)
  }

  /** Rows and modules outlive every step, with what they hold. */
  ghost predicate Grows(db: Db, db': Db) {
    && (forall k :: k in db.tables.rows ==>
      k in db'.tables.rows && db'.tables.rows[k].artifact == db.tables.rows[k].artifact)
    && (forall i :: i in db.modules ==> i in db'.modules && db'.modules[i] == db.modules[i])
  }

  lemma {:induction false} ModulesGrow(have: map<Uuid, Columns>, ms: seq<DraftModule>, activeIds: set<Uuid>)
    requires AddModules(have, ms, activeIds).Some?
    ensures var now := AddModules(have, ms, activeIds).value; forall i :: i in have ==> i in now && now[i] == have[i]
    decreases |ms|
  {
    if ms != [] {
      ModulesGrow(have, ms[..|ms| - 1], activeIds);
    }
  }

  lemma PublishGrows(db: Db, id: Uuid, active: DraftModel, draft: DraftModel, valid: bool, taken: set<string>)
    requires IsActiveModel(db, active)
    ensures Grows(db, Publish(db, id, active, draft, valid, taken).0)
  {
    var (db', r) := Publish(db, id, active, draft, valid, taken);
    if r.Ok? {
      ModulesGrow(db.modules, draft.modules, ModuleIds(active.modules));
      forall k | k in db.tables.rows
        ensures k in db'.tables.rows && db'.tables.rows[k].artifact == db.tables.rows[k].artifact
      {
        PublishedAt(db, id, active, draft, valid, taken, k);
      }
    }
  }

  lemma RetirementsStayExact(db: Db, id: Uuid, active: DraftModel, draft: DraftModel, valid: bool, taken: set<string>)
    requires IsActiveModel(db, active) && RetirementsExact(db.tables)
    requires Publish(db, id, active, draft, valid, taken).1.Ok?
    ensures RetirementsExact(Publish(db, id, active, draft, valid, taken).0.tables)
  {
    var t' := Publish(db, id, active, draft, valid, taken).0.tables;
    forall k
      ensures t'.retired[k] == if k in t'.rows && !t'.rows[k].active then 1 else 0
    {
      PublishedAt(db, id, active, draft, valid, taken, k);
    }
  }

  lemma StillKept(db: Db, db': Db, m: DraftModel)
    requires Kept(db, m) && Grows(db, db')
    ensures Kept(db', m)
  {
    forall k | k in KeysOf(Items(m.entities))
      ensures k in db'.tables.rows
    {
      assert k in db.tables.rows.Keys;
    }
    forall x | x in Items(m.entities)
      ensures db'.tables.rows[x.key].artifact == x.artifact
    {
      assert x.key in KeysOf(Items(m.entities));
    }
  }

  /** The loaded model is stored. */
  lemma ActiveModelKept(db: Db, active: DraftModel)
    requires IsActiveModel(db, active)
    ensures Kept(db, active)
  {
    forall x | x in active.modules
      ensures x.id in db.modules
    {
      assert x.id in ModuleIds(active.modules);
    }
    forall k | k in KeysOf(Items(active.entities))
      ensures k in db.tables.rows
    {
    }
  }

  lemma ArchiveKept(db: Db, db': Db, active: DraftModel)
    requires IsActiveModel(db, active) && Grows(db, db') && db'.snapshots == Archived(db, active)
    requires forall s :: s in db.snapshots ==> Kept(db, s.model)
    ensures forall s :: s in db'.snapshots ==> Kept(db', s.model)
  {
    forall s | s in db'.snapshots
      ensures Kept(db', s.model)
    {
      assert s in db.snapshots || s == Snapshot(CurrentVersion(db), active);
      if s !in db.snapshots {
        ActiveModelKept(db, active);
      }
      StillKept(db, db', s.model);
    }
  }

  lemma ArchiveNumbered(db: Db, db': Db, active: DraftModel)
    requires SnapshotsNumbered(db) && db'.snapshots == Archived(db, active)
    requires db'.version == Some(CurrentVersion(db) + 1)
    ensures SnapshotsNumbered(db')
  {
  }

  /** The tables a publish that went through writes beside the artifacts. */
  lemma PublishFrame(db: Db, id: Uuid, active: DraftModel, draft: DraftModel, valid: bool, taken: set<string>)
    ensures Publish(db, id, active, draft, valid, taken).1.Err? ==> Publish(db, id, active, draft, valid, taken).0 == db
    ensures Publish(db, id, active, draft, valid, taken).1.Ok? ==>
      PublishWrites(db, Publish(db, id, active, draft, valid, taken).0, id, active)
  {
  }

  ghost predicate PublishWrites(db: Db, db': Db, id: Uuid, active: DraftModel) {
    && db'.snapshots == Archived(db, active) && db'.version == Some(CurrentVersion(db) + 1)
    && id in db.drafts && db'.drafts == db.drafts[id := Published]
  }

  lemma StepKeepsValid(db: Db, e: Event)
    requires Valid(db)
    ensures Valid(Step(db, e)) && Grows(db, Step(db, e))
  {
    if e.NewDraft? {
      DraftKeepsValid(db, e.draftId);
    } else if IsActiveModel(db, e.active) {
      PublishKeepsValid(db, e.id, e.active, e.draft, e.otherwiseValid, e.taken);
    }
  }

  lemma DraftKeepsValid(db: Db, id: Uuid)
    requires Valid(db)
    ensures Valid(Step(db, NewDraft(id))) && Grows(db, Step(db, NewDraft(id)))
  {
    SnapshotsStillKept(db, Step(db, NewDraft(id)));
  }

  lemma SnapshotsStillKept(db: Db, db': Db)
    requires Grows(db, db') && db'.snapshots == db.snapshots && forall s :: s in db.snapshots ==> Kept(db, s.model)
    ensures forall s :: s in db'.snapshots ==> Kept(db', s.model)
  {
    forall s | s in db'.snapshots
      ensures Kept(db', s.model)
    {
      StillKept(db, db', s.model);
    }
  }

  lemma PublishKeepsValid(db: Db, id: Uuid, active: DraftModel, draft: DraftModel, valid: bool, taken: set<string>)
    requires Valid(db) && IsActiveModel(db, active)
    ensures var db' := Publish(db, id, active, draft, valid, taken).0; Valid(db') && Grows(db, db')
  {
    var (db', r) := Publish(db, id, active, draft, valid, taken);
    PublishFrame(db, id, active, draft, valid, taken);
    PublishGrows(db, id, active, draft, valid, taken);
    if r.Ok? {
      RetirementsStayExact(db, id, active, draft, valid, taken);
      ArchiveKept(db, db', active);
      ArchiveNumbered(db, db', active);
    }
  }

  /**
   After any run of publishes an artifact has exactly one retirement row iff it is retired, and
   every archived model is still stored in full.
   */
  lemma {:induction false} EveryRunValid(es: seq<Event>)
    ensures Valid(Run(EMPTY, es))
  {
    if es != [] {
      EveryRunValid(es[..|es| - 1]);
      StepKeepsValid(Run(EMPTY, es[..|es| - 1]), es[|es| - 1]);
    }
  }

  // ===== publishing an archived model again =====

  lemma {:induction false} KnownItemsNeverClash(t: Tables, items: seq<Item>, activeKeys: set<Key>)
    requires KeysOf(items) <= t.rows.Keys
    ensures AddItems(t, items, activeKeys).Some? && t.rows.Keys <= AddItems(t, items, activeKeys).value.rows.Keys
    decreases |items|
  {
    if items != [] {
      var rest, x := items[..|items| - 1], items[|items| - 1];
      assert forall y :: y in rest ==> y in items;
      assert x in items && x.key in KeysOf(items);
      KnownItemsNeverClash(t, rest, activeKeys);
    }
  }

  lemma {:induction false} KnownModulesStay(have: map<Uuid, Columns>, ms: seq<DraftModule>, activeIds: set<Uuid>)
    requires ModuleIds(ms) <= activeIds
    ensures AddModules(have, ms, activeIds) == Some(have)
    decreases |ms|
  {
    if ms != [] {
      assert forall m :: m in ms[..|ms| - 1] ==> m in ms;
      assert ms[|ms| - 1] in ms && ms[|ms| - 1].id in ModuleIds(ms);
      KnownModulesStay(have, ms[..|ms| - 1], activeIds);
    }
  }

  ghost predicate MayPublish(db: Db, id: Uuid, active: DraftModel, m: DraftModel, valid: bool, taken: set<string>) {
    id in db.drafts && !db.drafts[id].Published? && !db.drafts[id].Publishing? && valid && !TableTaken(active, m, taken)
  }

  /** A stored model passes the diff against any active one, but for targets it has itself lost. */
  lemma KeptModelDiffs(db: Db, active: DraftModel, m: DraftModel)
    requires IsActiveModel(db, active) && Kept(db, m)
    ensures DiffAccepts(active, m) <==> TargetsInside(Items(m.entities))
  {
    forall x, y | x in Items(active.entities) && y in Items(m.entities) && x.key == y.key
      ensures x == y
    {
      assert db.tables.rows[x.key].artifact == x.artifact;
    }
    forall x, y | x in active.modules && y in m.modules && x.id == y.id
      ensures x == y
    {
      assert db.modules[x.id] == x.columns && db.modules[y.id] == y.columns;
    }
  }

  /** Publishing `m` goes through exactly when it may, and then brings `m` back exactly when no stray joins it. */
  ghost predicate Restores(db: Db, m: DraftModel, id: Uuid, active: DraftModel, valid: bool, taken: set<string>) {
    var (db', r) := Publish(db, id, active, m, valid, taken);
    && (r.Ok? <==> (MayPublish(db, id, active, m, valid, taken) && TargetsInside(Items(m.entities))))
    && (r.Ok? ==> (Lists(db'.tables, Items(m.entities)) <==> NoStrayJoins(db, m)))
    && (r.Ok? ==> db'.modules == db.modules && db'.version == Some(CurrentVersion(db) + 1))
  }

  /**
   After any run, publishing an archived model goes through iff the gate, the remaining diff
   checks and the table names allow it and its targets are its own entities; and then the
   active model is that snapshot in full, iff no stray row joins it.
   */
  lemma RollbackRestores(es: seq<Event>, s: Snapshot, id: Uuid, active: DraftModel, valid: bool, taken: set<string>)
    requires s in Run(EMPTY, es).snapshots && IsActiveModel(Run(EMPTY, es), active)
    ensures Restores(Run(EMPTY, es), s.model, id, active, valid, taken)
  {
    EveryRunValid(es);
    assert Kept(Run(EMPTY, es), s.model);
    KeptModelRestores(Run(EMPTY, es), s.model, id, active, valid, taken);
  }

  lemma KeptModelAccepted(db: Db, m: DraftModel, id: Uuid, active: DraftModel, valid: bool, taken: set<string>)
    requires Kept(db, m) && IsActiveModel(db, active)
    ensures AddModules(db.modules, m.modules, ModuleIds(active.modules)) == Some(db.modules)
    ensures AddItems(db.tables, Items(m.entities), KeysOf(Items(active.entities))).Some?
    ensures DiffAccepts(active, m) <==> TargetsInside(Items(m.entities))
  {
    KeptModelDiffs(db, active, m);
    KnownItemsNeverClash(db.tables, Items(m.entities), KeysOf(Items(active.entities)));
    forall i | i in ModuleIds(m.modules)
      ensures i in ModuleIds(active.modules)
    {
      assert i in db.modules.Keys;
    }
    KnownModulesStay(db.modules, m.modules, ModuleIds(active.modules));
  }

  lemma KeptModelRestores(db: Db, m: DraftModel, id: Uuid, active: DraftModel, valid: bool, taken: set<string>)
    requires Kept(db, m) && IsActiveModel(db, active)
    ensures Restores(db, m, id, active, valid, taken)
  {
    KeptModelGoesThrough(db, m, id, active, valid, taken);
    if Publish(db, id, active, m, valid, taken).1.Ok? {
      PublishYieldsDraftIff(db, id, active, m, valid, taken);
    }
  }

  /** When it goes through, and what it leaves beside the artifacts. */
  lemma KeptModelGoesThrough(db: Db, m: DraftModel, id: Uuid, active: DraftModel, valid: bool, taken: set<string>)
    requires Kept(db, m) && IsActiveModel(db, active)
    ensures var (db', r) := Publish(db, id, active, m, valid, taken);
      && (r.Ok? <==> (MayPublish(db, id, active, m, valid, taken) && TargetsInside(Items(m.entities))))
      && (r.Ok? ==> db'.modules == db.modules && db'.version == Some(CurrentVersion(db) + 1))
  {
    KeptModelAccepted(db, m, id, active, valid, taken);
    GoesThroughIff(db, id, active, m, valid, taken);
  }

  lemma GoesThroughIff(db: Db, id: Uuid, active: DraftModel, draft: DraftModel, valid: bool, taken: set<string>)
    ensures var (db', r) := Publish(db, id, active, draft, valid, taken);
      var modules := AddModules(db.modules, draft.modules, ModuleIds(active.modules));
      var added := AddItems(db.tables, Items(draft.entities), KeysOf(Items(active.entities)));
      && (r.Ok? <==> Refusal(db, id, active, draft, valid, taken).None? && modules.Some? && added.Some?)
      && (r.Ok? ==> db'.modules == modules.value && db'.version == Some(CurrentVersion(db) + 1))
  {
  }

  // ===== careful runs: no draft redefines an id that is already stored =====

  ghost predicate Careful(db: Db, es: seq<Event>) {
    es == [] || (Careful(db, es[..|es| - 1]) &&
      (es[|es| - 1].PublishDraft? ==> Faithful(Run(db, es[..|es| - 1]), es[|es| - 1].draft)))
  }

  ghost predicate TargetsActive(t: Tables) {
    forall k :: Visible(t, k) && t.rows[k].artifact.content.target.Some? ==>
      EntityActive(t, t.rows[k].artifact.content.target.value)
  }

  /** No strays, and relationships stay among what is active, archived models included. */
  ghost predicate Tidy(db: Db) {
    && (forall k :: !IsStray(db.tables, k))
    && TargetsActive(db.tables)
    && (forall s :: s in db.snapshots ==> TargetsInside(Items(s.model.entities)))
  }

  lemma FaithfulPublishLists(db: Db, id: Uuid, active: DraftModel, draft: DraftModel, valid: bool, taken: set<string>)
    requires Tidy(db) && Faithful(db, draft) && IsActiveModel(db, active)
    requires Publish(db, id, active, draft, valid, taken).1.Ok?
    ensures var t' := Publish(db, id, active, draft, valid, taken).0.tables;
      Lists(t', Items(draft.entities)) && forall k :: !IsStray(t', k)
  {
    var t' := Publish(db, id, active, draft, valid, taken).0.tables;
    FaithfulMeansListed(db, id, active, draft, valid, taken);
    forall k | IsActive(t', k)
      ensures Visible(t', k)
    {
      PublishedAt(db, id, active, draft, valid, taken, k);
      var x :| x in Items(draft.entities) && x.key == k;
    }
  }

  /** Listed artifacts whose targets are listed have active targets, and the other way round. */
  lemma ListedTargets(t: Tables, items: seq<Item>)
    requires Lists(t, items)
    ensures TargetsInside(items) <==> TargetsActive(t)
  {
    if TargetsInside(items) {
      forall k | Visible(t, k) && t.rows[k].artifact.content.target.Some?
        ensures EntityActive(t, t.rows[k].artifact.content.target.value)
      {
        var x :| x in items && x.key == k;
        var y :| y in items && y.key == Key(EntityKind, x.artifact.content.target.value);
      }
    } else {
      var x :| x in items && x.artifact.content.target.Some?
        && Key(EntityKind, x.artifact.content.target.value) !in KeysOf(items);
      assert Visible(t, x.key) && !Visible(t, Key(EntityKind, x.artifact.content.target.value));
    }
  }

  lemma FaithfulPublishTidy(db: Db, id: Uuid, active: DraftModel, draft: DraftModel, valid: bool, taken: set<string>)
    requires Tidy(db) && Faithful(db, draft) && IsActiveModel(db, active)
    requires Publish(db, id, active, draft, valid, taken).1.Ok?
    ensures Tidy(Publish(db, id, active, draft, valid, taken).0)
  {
    var db' := Publish(db, id, active, draft, valid, taken).0;
    FaithfulPublishLists(db, id, active, draft, valid, taken);
    assert TargetsInside(Items(draft.entities));
    ListedTargets(db'.tables, Items(draft.entities));
    ListedTargets(db.tables, Items(active.entities));
    PublishFrame(db, id, active, draft, valid, taken);
    ArchiveHolds(db, active);
  }

  lemma ArchiveHolds(db: Db, active: DraftModel)
    ensures forall s :: s in Archived(db, active) ==> s in db.snapshots || s.model == active
  {
  }

  lemma StepKeepsTidy(db: Db, e: Event)
    requires Tidy(db) && (e.PublishDraft? ==> Faithful(db, e.draft))
    ensures Tidy(Step(db, e))
  {
    if e.PublishDraft? && IsActiveModel(db, e.active) {
      PublishFrame(db, e.id, e.active, e.draft, e.otherwiseValid, e.taken);
      if Publish(db, e.id, e.active, e.draft, e.otherwiseValid, e.taken).1.Ok? {
        FaithfulPublishTidy(db, e.id, e.active, e.draft, e.otherwiseValid, e.taken);
      }
    }
  }

  lemma {:induction false} CarefulRunsStayTidy(es: seq<Event>)
    requires Careful(EMPTY, es)
    ensures Tidy(Run(EMPTY, es))
  {
    if es != [] {
      CarefulRunsStayTidy(es[..|es| - 1]);
      StepKeepsTidy(Run(EMPTY, es[..|es| - 1]), es[|es| - 1]);
    }
  }

  /** In a careful run every publish makes the active model its draft. */
  lemma CarefulPublishYieldsDraft(es: seq<Event>, e: Event)
    requires Careful(EMPTY, es + [e]) && e.PublishDraft? && IsActiveModel(Run(EMPTY, es), e.active)
    requires Publish(Run(EMPTY, es), e.id, e.active, e.draft, e.otherwiseValid, e.taken).1.Ok?
    ensures Lists(Run(EMPTY, es + [e]).tables, Items(e.draft.entities))
  {
    assert (es + [e])[..|es + [e]| - 1] == es;
    CarefulRunsStayTidy(es);
    FaithfulPublishLists(Run(EMPTY, es), e.id, e.active, e.draft, e.otherwiseValid, e.taken);
  }

  /** And any snapshot can be restored in full. */
  lemma CarefulRollback(es: seq<Event>, s: Snapshot, id: Uuid, active: DraftModel, valid: bool, taken: set<string>)
    requires Careful(EMPTY, es) && s in Run(EMPTY, es).snapshots && IsActiveModel(Run(EMPTY, es), active)
    ensures var db := Run(EMPTY, es);
      var (db', r) := Publish(db, id, active, s.model, valid, taken);
      && (r.Ok? <==> MayPublish(db, id, active, s.model, valid, taken))
      && (r.Ok? ==> Lists(db'.tables, Items(s.model.entities)))
  {
    CarefulRunsStayTidy(es);
    RollbackRestores(es, s, id, active, valid, taken);
  }

  // ===== a re-added artifact keeps what it was stored with =====

  /** The model with one entity holding one field. */
  function OneField(entity: Uuid, field: Uuid, columns: Columns): DraftModel {
    DraftModel([], [DraftEntity(entity, map["name" := "order"], [DraftField(field, columns)], [])])
  }

  lemma OneFieldItems(entity: Uuid, field: Uuid, columns: Columns)
    ensures Items(OneField(entity, field, columns).entities)
      == [Item(Key(EntityKind, entity), Artifact(None, Content(map["name" := "order"], None, ""))),
          Item(Key(FieldKind, field), Artifact(Some(entity), Content(columns, None, "")))]
  {
    var es := OneField(entity, field, columns).entities;
    assert es[..0] == [];
    forall kind: Kind
      ensures KindItems(es, kind) == ItemsOf(es[0], kind)
    {
      assert KindItems(es, kind) == KindItems(es[..0], kind) + ItemsOf(es[0], kind);
    }
  }

  lemma OneEntityItems(entity: Uuid)
    ensures Items([DraftEntity(entity, map["name" := "order"], [], [])])
      == [Item(Key(EntityKind, entity), Artifact(None, Content(map["name" := "order"], None, "")))]
  {
    var es := [DraftEntity(entity, map["name" := "order"], [], [])];
    assert es[..0] == [];
    forall kind: Kind
      ensures KindItems(es, kind) == ItemsOf(es[0], kind)
    {
      assert KindItems(es, kind) == KindItems(es[..0], kind) + ItemsOf(es[0], kind);
    }
  }

  /** A draft that redefines a stored id publishes, and the old content is what becomes active. */
  lemma ReaddedKeepsOldContent(
      db: Db, id: Uuid, active: DraftModel, draft: DraftModel, valid: bool, taken: set<string>, x: Item)
    requires IsActiveModel(db, active) && Publish(db, id, active, draft, valid, taken).1.Ok?
    requires x in Items(draft.entities) && x.key in db.tables.rows && db.tables.rows[x.key].artifact != x.artifact
    ensures var t' := Publish(db, id, active, draft, valid, taken).0.tables;
      && IsActive(t', x.key) && t'.rows[x.key].artifact == db.tables.rows[x.key].artifact
      && !Lists(t', Items(draft.entities))
  {
    PublishedAt(db, id, active, draft, valid, taken, x.key);
  }

  const OLD_FIELD := map["name" := "total", "label" := "Old"]
  const NEW_FIELD := map["name" := "total", "label" := "New"]

  /** One active entity whose only field has been retired. */
  const ONE_RETIRED := Db(
    map[],
    Tables(
      map[Key(EntityKind, 1) := Row(true, Artifact(None, Content(map["name" := "order"], None, ""))),
          Key(FieldKind, 2) := Row(false, Artifact(Some(1), Content(OLD_FIELD, None, "")))],
      multiset{Key(FieldKind, 2)}),
    [], Some(2), map[7 := Draft])

  const NO_FIELD := DraftModel([], [DraftEntity(1, map["name" := "order"], [], [])])

  lemma OneRetiredLoads()
    ensures IsActiveModel(ONE_RETIRED, NO_FIELD)
  {
    OneEntityItems(1);
    var items := Items(NO_FIELD.entities);
    var self := Item(Key(EntityKind, 1), Artifact(None, Content(map["name" := "order"], None, "")));
    assert items == [self] && multiset(items) == multiset{self};
    assert items[0] in items;
    assert Key(EntityKind, 1) in KeysOf(items);
  }

  lemma RelabelledFieldAccepted()
    ensures DiffAccepts(NO_FIELD, OneField(1, 2, NEW_FIELD)) && !TableTaken(NO_FIELD, OneField(1, 2, NEW_FIELD), {})
  {
    OneFieldItems(1, 2, NEW_FIELD);
    OneEntityItems(1);
    var items := Items(OneField(1, 2, NEW_FIELD).entities);
    assert multiset(items) == multiset{items[0], items[1]};
  }

  /** Nothing refuses a draft of stored artifacts and no new module. */
  lemma KnownDraftPublishes(db: Db, id: Uuid, active: DraftModel, draft: DraftModel)
    requires Refusal(db, id, active, draft, true, {}).None? && draft.modules == []
    requires KeysOf(Items(draft.entities)) <= db.tables.rows.Keys
    ensures Publish(db, id, active, draft, true, {}).1.Ok?
  {
    KnownItemsNeverClash(db.tables, Items(draft.entities), KeysOf(Items(active.entities)));
  }

  lemma RelabelledFieldPublishes()
    ensures Publish(ONE_RETIRED, 7, NO_FIELD, OneField(1, 2, NEW_FIELD), true, {}).1.Ok?
  {
    RelabelledFieldAccepted();
    RelabelledFieldStored();
    KnownDraftPublishes(ONE_RETIRED, 7, NO_FIELD, OneField(1, 2, NEW_FIELD));
  }

  lemma RelabelledFieldStored()
    ensures KeysOf(Items(OneField(1, 2, NEW_FIELD).entities)) <= ONE_RETIRED.tables.rows.Keys
  {
    OneFieldItems(1, 2, NEW_FIELD);
  }

  lemma RelabelledFieldInDraft()
    ensures Item(Key(FieldKind, 2),
      Artifact(Some(1), Content(NEW_FIELD, None, ""))) in Items(OneField(1, 2, NEW_FIELD).entities)
  {
    OneFieldItems(1, 2, NEW_FIELD);
    assert Items(OneField(1, 2, NEW_FIELD).entities)[1] in Items(OneField(1, 2, NEW_FIELD).entities);
  }

  /** Adding that field back under another label succeeds, and the old label is what becomes active. */
  lemma RelabelledFieldExample()
    ensures Publish(ONE_RETIRED, 7, NO_FIELD, OneField(1, 2, NEW_FIELD), true, {}).1.Ok?
    ensures !Lists(Publish(ONE_RETIRED, 7, NO_FIELD, OneField(1, 2, NEW_FIELD), true, {}).0.tables,
      Items(OneField(1, 2, NEW_FIELD).entities))
  {
    OneRetiredLoads();
    RelabelledFieldPublishes();
    RelabelledFieldInDraft();
    FieldRelabelled(Item(Key(FieldKind, 2), Artifact(Some(1), Content(NEW_FIELD, None, ""))));
  }

  lemma FieldRelabelled(x: Item)
    requires x == Item(Key(FieldKind, 2), Artifact(Some(1), Content(NEW_FIELD, None, "")))
    requires IsActiveModel(ONE_RETIRED, NO_FIELD) && x in Items(OneField(1, 2, NEW_FIELD).entities)
    requires Publish(ONE_RETIRED, 7, NO_FIELD, OneField(1, 2, NEW_FIELD), true, {}).1.Ok?
    ensures !Lists(Publish(ONE_RETIRED, 7, NO_FIELD, OneField(1, 2, NEW_FIELD), true, {}).0.tables,
      Items(OneField(1, 2, NEW_FIELD).entities))
  {
    assert NEW_FIELD["label"] == "New" && OLD_FIELD["label"] == "Old";
    ReaddedKeepsOldContent(ONE_RETIRED, 7, NO_FIELD, OneField(1, 2, NEW_FIELD), true, {}, x);
  }

  // ===== the passes as loops, and the tables they update =====

  lemma {:induction false} AddItemsInTwo(t: Tables, first: seq<Item>, then_: seq<Item>, activeKeys: set<Key>)
    ensures AddItems(t, first + then_, activeKeys)
      == match AddItems(t, first, activeKeys) case None => None case Some(mid) => AddItems(mid, then_, activeKeys)
    decreases |then_|
  {
    if then_ == [] {
      assert first + then_ == first;
    } else {
      var rest := then_[..|then_| - 1];
      assert (first + then_)[..|first + then_| - 1] == first + rest;
      AddItemsInTwo(t, first, rest, activeKeys);
    }
  }

  lemma {:induction false} RetireItemsInTwo(t: Tables, first: seq<Item>, then_: seq<Item>, draftKeys: set<Key>)
    ensures RetireItems(t, first + then_, draftKeys) == RetireItems(RetireItems(t, first, draftKeys), then_, draftKeys)
    decreases |then_|
  {
    if then_ == [] {
      assert first + then_ == first;
    } else {
      var rest := then_[..|then_| - 1];
      assert (first + then_)[..|first + then_| - 1] == first + rest;
      RetireItemsInTwo(t, first, rest, draftKeys);
    }
  }

  /** A violation among the first items fails the rest. */
  lemma {:induction false} FailureStays(t: Tables, items: seq<Item>, n: nat, activeKeys: set<Key>)
    requires n <= |items| && AddItems(t, items[..n], activeKeys).None?
    ensures AddItems(t, items, activeKeys).None?
  {
    assert items[..n] + items[n..] == items;
    AddItemsInTwo(t, items[..n], items[n..], activeKeys);
  }

  /** The artifacts one entity brings of one kind. */
  method AddEach(before: Tables, items: seq<Item>, activeKeys: set<Key>) returns (r: Option<Tables>)
    ensures r == AddItems(before, items, activeKeys)
  {
    var t := before;
    for i := 0 to |items|
      invariant AddItems(before, items[..i], activeKeys) == Some(t)
    {
      assert items[..i + 1][..i] == items[..i];
      if items[i].key !in activeKeys {
        var next := AddItem(t, items[i]);
        if next.None? {
          FailureStays(before, items, i + 1, activeKeys);
          return None;
        }
        t := next.value;
      }
    }
    assert items[..|items|] == items;
    r := Some(t);
  }

  lemma PassFails(t: Tables, es: seq<DraftEntity>, n: nat, kind: Kind, activeKeys: set<Key>)
    requires n <= |es| && AddItems(t, KindItems(es[..n], kind), activeKeys).None?
    ensures AddItems(t, KindItems(es, kind), activeKeys).None?
  {
    KindItemsPrefix(es, n, kind);
    var items, failed := KindItems(es, kind), KindItems(es[..n], kind);
    assert items[..|failed|] == failed;
    FailureStays(t, items, |failed|, activeKeys);
  }

  lemma PassOneMore(t: Tables, es: seq<DraftEntity>, i: nat, kind: Kind, activeKeys: set<Key>)
    requires i < |es|
    ensures AddItems(t, KindItems(es[..i + 1], kind), activeKeys)
      == match AddItems(t, KindItems(es[..i], kind), activeKeys) case None => None case Some(mid) =>
        AddItems(mid, ItemsOf(es[i], kind), activeKeys)
  {
    assert es[..i + 1][..i] == es[..i];
    AddItemsInTwo(t, KindItems(es[..i], kind), ItemsOf(es[i], kind), activeKeys);
  }

  /** One insert pass over the entities of the draft. */
  method AddPass(before: Tables, es: seq<DraftEntity>, kind: Kind, activeKeys: set<Key>) returns (r: Option<Tables>)
    ensures r == AddItems(before, KindItems(es, kind), activeKeys)
  {
    r := Some(before);
    assert KindItems(es[..0], kind) == [];
    for i := 0 to |es|
      invariant r == AddItems(before, KindItems(es[..i], kind), activeKeys) && r.Some?
    {
      PassOneMore(before, es, i, kind, activeKeys);
      r := AddEach(r.value, ItemsOf(es[i], kind), activeKeys);
      if r.None? {
        PassFails(before, es, i + 1, kind, activeKeys);
        return;
      }
    }
    assert es[..|es|] == es;
  }

  lemma {:induction false} KindItemsPrefix(es: seq<DraftEntity>, n: nat, kind: Kind)
    requires n <= |es|
    ensures KindItems(es[..n], kind) <= KindItems(es, kind)
    decreases |es|
  {
    if n == |es| {
      assert es[..n] == es;
    } else {
      assert es[..|es| - 1][..n] == es[..n];
      KindItemsPrefix(es[..|es| - 1], n, kind);
    }
  }

  /** The three insert passes. */
  method AddArtifacts(before: Tables, es: seq<DraftEntity>, activeKeys: set<Key>) returns (r: Option<Tables>)
    ensures r == AddItems(before, Items(es), activeKeys)
  {
    ghost var ks, fs, rs := KindItems(es, EntityKind), KindItems(es, FieldKind), KindItems(es, RelationshipKind);
    AddItemsInTwo(before, ks + fs, rs, activeKeys);
    AddItemsInTwo(before, ks, fs, activeKeys);
    r := AddPass(before, es, EntityKind, activeKeys);
    if r.None? {
      return;
    }
    r := AddPass(r.value, es, FieldKind, activeKeys);
    if r.None? {
      return;
    }
    r := AddPass(r.value, es, RelationshipKind, activeKeys);
  }

  lemma RetireNext(t: Tables, items: seq<Item>, j: nat, draftKeys: set<Key>)
    requires j < |items|
    ensures var done := RetireItems(t, items[..j], draftKeys);
      RetireItems(t, items[..j + 1], draftKeys)
      == if items[j].key in draftKeys then done else RetireItem(done, items[j])
  {
    assert items[..j + 1][..j] == items[..j];
  }

  lemma RetireOneMore(before: Tables, es: seq<DraftEntity>, i: nat, draftKeys: set<Key>)
    requires i < |es|
    ensures RetireItems(before, ByEntity(es[..i + 1]), draftKeys)
      == RetireItems(RetireItems(before, ByEntity(es[..i]), draftKeys), EntityItems(es[i]), draftKeys)
  {
    assert es[..i + 1][..i] == es[..i];
    RetireItemsInTwo(before, ByEntity(es[..i]), EntityItems(es[i]), draftKeys);
  }

  method RetirePass(before: Tables, es: seq<DraftEntity>, draftKeys: set<Key>) returns (t: Tables)
    ensures t == RetireItems(before, ByEntity(es), draftKeys)
  {
    t := before;
    for i := 0 to |es|
      invariant t == RetireItems(before, ByEntity(es[..i]), draftKeys)
    {
      var items := EntityItems(es[i]);
      ghost var mid := t;
      for j := 0 to |items|
        invariant t == RetireItems(mid, items[..j], draftKeys)
      {
        RetireNext(mid, items, j, draftKeys);
        if items[j].key !in draftKeys {
          t := RetireItem(t, items[j]);
        }
      }
      assert items[..|items|] == items;
      RetireOneMore(before, es, i, draftKeys);
    }
    assert es[..|es|] == es;
  }

  method ModulePass(
      have: map<Uuid, Columns>, ms: seq<DraftModule>, activeIds: set<Uuid>)
    returns (r: Option<map<Uuid, Columns>>)
    ensures r == AddModules(have, ms, activeIds)
  {
    var now := have;
    for i := 0 to |ms|
      invariant AddModules(have, ms[..i], activeIds) == Some(now)
    {
      assert ms[..i + 1][..i] == ms[..i];
      if ms[i].id !in activeIds {
        if ms[i].id in now || ModuleClashes(now, ms[i]) {
          ModuleFailureStays(have, ms, i + 1, activeIds);
          return None;
        }
        now := now[ms[i].id := ms[i].columns];
      }
    }
    assert ms[..|ms|] == ms;
    r := Some(now);
  }

  lemma {:induction false} ModuleFailureStays(
      have: map<Uuid, Columns>, ms: seq<DraftModule>, n: nat, activeIds: set<Uuid>)
    requires n <= |ms| && AddModules(have, ms[..n], activeIds).None?
    ensures AddModules(have, ms, activeIds).None?
    decreases |ms|
  {
    if n == |ms| {
      assert ms[..n] == ms;
    } else {
      assert ms[..|ms| - 1][..n] == ms[..n];
      ModuleFailureStays(have, ms[..|ms| - 1], n, activeIds);
    }
  }

  lemma PublishFails(db: Db, id: Uuid, active: DraftModel, draft: DraftModel, valid: bool, taken: set<string>)
    requires Refusal(db, id, active, draft, valid, taken).None?
    requires AddItems(db.tables, Items(draft.entities), KeysOf(Items(active.entities))).None?
    ensures Publish(db, id, active, draft, valid, taken) == (db, Err(Internal))
  {
  }

  lemma PublishSucceeds(
      db: Db, id: Uuid, active: DraftModel, draft: DraftModel, valid: bool, taken: set<string>,
      modules: map<Uuid, Columns>, added: Tables)
    requires Refusal(db, id, active, draft, valid, taken).None?
    requires AddModules(db.modules, draft.modules, ModuleIds(active.modules)) == Some(modules)
    requires AddItems(db.tables, Items(draft.entities), KeysOf(Items(active.entities))) == Some(added)
    ensures var tables := RetireItems(added, ByEntity(active.entities), KeysOf(Items(draft.entities)));
      Publish(db, id, active, draft, valid, taken)
      == (Db(modules, tables, Archived(db, active), Some(CurrentVersion(db) + 1), db.drafts[id := Published]), Ok(()))
  {
  }

  class MetadataStore {
    var modules: map<Uuid, Columns>
    var tables: Tables
    var snapshots: seq<Snapshot>
    var version: Option<nat>
    var drafts: map<Uuid, DraftStatus>

    constructor ()
      ensures State() == EMPTY
    {
      modules, tables, snapshots, version, drafts := map[], Tables(map[], multiset{}), [], None, map[];
    }

    function State(): Db
      reads this
    {
      Db(modules, tables, snapshots, version, drafts)
    }

    /** One transaction: an error on the way leaves every table as it was. */
    method PublishDraft(id: Uuid, active: DraftModel, draft: DraftModel, otherwiseValid: bool, taken: set<string>)
      returns (r: Result<(), Error>)
      modifies this
      ensures (State(), r) == Publish(old(State()), id, active, draft, otherwiseValid, taken)
      ensures IsActiveModel(old(State()), active) && r.Ok? ==> ModulesAdded(old(modules), draft.modules, modules)
      ensures r.Err? ==> State() == old(State())
    {
      ghost var before := State();
      var refusal := Refusal(State(), id, active, draft, otherwiseValid, taken);
      if refusal.Some? {
        return Err(refusal.value);
      }
      var archive := Archived(State(), active);
      var activeKeys := KeysOf(Items(active.entities));
      var added := ModulePass(modules, draft.modules, ModuleIds(active.modules));
      if added.None? {
        return Err(Internal);
      }
      var t := AddArtifacts(tables, draft.entities, activeKeys);
      if t.None? {
        PublishFails(before, id, active, draft, otherwiseValid, taken);
        return Err(Internal);
      }
      PublishSucceeds(before, id, active, draft, otherwiseValid, taken, added.value, t.value);
      var retired := RetirePass(t.value, active.entities, KeysOf(Items(draft.entities)));
      version := Some(CurrentVersion(State()) + 1);
      modules, tables, snapshots, drafts := added.value, retired, archive, drafts[id := Published];
      r := Ok(());
      if IsActiveModel(before, active) {
        ModulesStored(before, id, active, draft, otherwiseValid, taken);
      }
    }
  }
}
