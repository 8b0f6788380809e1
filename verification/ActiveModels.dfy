/**
 Loading the active model: in every reachable database there is a model whose artifacts are
 exactly the visible rows, and only one up to order.
 */
module ActiveModels {
  import opened Common
  import opened DraftModels
  import opened Publishing

  // ===== rows have the shape of their table =====

  /** An entity has no owner; a field and a relationship have one, and only a relationship a target. */
  predicate ShapedFor(kind: Kind, a: Artifact) {
    match kind
    case EntityKind => a.parent.None? && a.content.target.None? && a.content.cardinality == ""
    case FieldKind => a.parent.Some? && a.content.target.None? && a.content.cardinality == ""
    case RelationshipKind => a.parent.Some? && a.content.target.Some?
  }

  ghost predicate WellShaped(t: Tables) {
    forall k :: k in t.rows ==> ShapedFor(k.kind, t.rows[k].artifact)
  }

  lemma {:induction false} KindItemsShaped(es: seq<DraftEntity>, kind: Kind, x: Item)
    requires x in KindItems(es, kind)
    ensures x.key.kind == kind && ShapedFor(kind, x.artifact)
  {
    if x in KindItems(es[..|es| - 1], kind) {
      KindItemsShaped(es[..|es| - 1], kind, x);
    }
  }

  lemma ItemsShaped(es: seq<DraftEntity>, x: Item)
    requires x in Items(es)
    ensures ShapedFor(x.key.kind, x.artifact)
  {
    var kind :| x in KindItems(es, kind);
    KindItemsShaped(es, kind, x);
  }

  lemma StepKeepsShape(db: Db, e: Event)
    requires WellShaped(db.tables)
    ensures WellShaped(Step(db, e).tables)
  {
    if e.PublishDraft? && IsActiveModel(db, e.active) {
      var (db', r) := Publish(db, e.id, e.active, e.draft, e.otherwiseValid, e.taken);
      if r.Ok? {
        forall k | k in db'.tables.rows
          ensures ShapedFor(k.kind, db'.tables.rows[k].artifact)
        {
          PublishedAt(db, e.id, e.active, e.draft, e.otherwiseValid, e.taken, k);
          if k !in db.tables.rows {
            var x :| x in Items(e.draft.entities) && x.key == k && db'.tables.rows[k].artifact == x.artifact;
            ItemsShaped(e.draft.entities, x);
          }
        }
      }
    }
  }

  lemma {:induction false} EveryRunShaped(es: seq<Event>)
    ensures WellShaped(Run(EMPTY, es).tables)
  {
    if es != [] {
      EveryRunShaped(es[..|es| - 1]);
      StepKeepsShape(Run(EMPTY, es[..|es| - 1]), es[|es| - 1]);
    }
  }

  // ===== one artifact more in a model =====

  lemma MultisetSums<T>(a: multiset<T>, b: multiset<T>, c: multiset<T>)
    ensures a + (b + c) == (a + b) + c
    ensures (a + c) + b == (a + b) + c
  {
  }

  /** The items of a model are those of the other entities and those of the last. */
  lemma ByEntitySnoc(front: seq<DraftEntity>, e: DraftEntity)
    ensures multiset(ByEntity(front + [e])) == multiset(ByEntity(front)) + multiset(EntityItems(e))
  {
    assert (front + [e])[..|front|] == front;
  }

  lemma PutLast(front: seq<DraftEntity>, last: DraftEntity, e: DraftEntity, x: Item)
    requires multiset(EntityItems(e)) == multiset(EntityItems(last)) + multiset{x}
    ensures multiset(ByEntity(front + [e])) == multiset(ByEntity(front + [last])) + multiset{x}
  {
    ByEntitySnoc(front, e);
    ByEntitySnoc(front, last);
    MultisetSums(multiset(ByEntity(front)), multiset(EntityItems(last)), multiset{x});
  }

  lemma PutBefore(front: seq<DraftEntity>, front': seq<DraftEntity>, last: DraftEntity, x: Item)
    requires multiset(ByEntity(front')) == multiset(ByEntity(front)) + multiset{x}
    ensures multiset(ByEntity(front' + [last])) == multiset(ByEntity(front + [last])) + multiset{x}
  {
    ByEntitySnoc(front', last);
    ByEntitySnoc(front, last);
    MultisetSums(multiset(ByEntity(front)), multiset(EntityItems(last)), multiset{x});
  }

  lemma UpdateSplit(es: seq<DraftEntity>, i: nat, e: DraftEntity)
    requires i < |es|
    ensures es == es[..|es| - 1] + [es[|es| - 1]]
    ensures es[i := e] == if i == |es| - 1 then es[..|es| - 1] + [e] else es[..|es| - 1][i := e] + [es[|es| - 1]]
  {
  }

  lemma {:induction false} PutAt(es: seq<DraftEntity>, i: nat, e: DraftEntity, x: Item)
    requires i < |es| && multiset(EntityItems(e)) == multiset(EntityItems(es[i])) + multiset{x}
    ensures multiset(ByEntity(es[i := e])) == multiset(ByEntity(es)) + multiset{x}
    decreases |es|
  {
    var front, last := es[..|es| - 1], es[|es| - 1];
    UpdateSplit(es, i, e);
    if i == |es| - 1 {
      PutLast(front, last, e, x);
    } else {
      PutAt(front, i, e, x);
      PutBefore(front, front[i := e], last, x);
    }
  }

  lemma MoreFields(e: DraftEntity, f: DraftField)
    ensures multiset(EntityItems(e.(fields := e.fields + [f]))) == multiset(EntityItems(e)) + multiset{FieldItem(e, f)}
  {
    var e' := e.(fields := e.fields + [f]);
    assert ItemsOf(e', EntityKind) == ItemsOf(e, EntityKind);
    assert ItemsOf(e', FieldKind) == ItemsOf(e, FieldKind) + [FieldItem(e, f)];
    assert ItemsOf(e', RelationshipKind) == ItemsOf(e, RelationshipKind);
  }

  lemma MoreRelationships(e: DraftEntity, r: DraftRelationship)
    ensures multiset(EntityItems(e.(relationships := e.relationships + [r])))
      == multiset(EntityItems(e)) + multiset{RelationshipItem(e, r)}
  {
    var e' := e.(relationships := e.relationships + [r]);
    assert ItemsOf(e', EntityKind) == ItemsOf(e, EntityKind);
    assert ItemsOf(e', FieldKind) == ItemsOf(e, FieldKind);
    assert ItemsOf(e', RelationshipKind) == ItemsOf(e, RelationshipKind) + [RelationshipItem(e, r)];
  }

  lemma MoreEntities(es: seq<DraftEntity>, id: Uuid, columns: Columns)
    ensures multiset(ByEntity(es + [DraftEntity(id, columns, [], [])]))
      == multiset(ByEntity(es)) + multiset{Item(Key(EntityKind, id), Artifact(None, Content(columns, None, "")))}
  {
    var e := DraftEntity(id, columns, [], []);
    assert (es + [e])[..|es|] == es;
    assert EntityItems(e) == [Item(Key(EntityKind, id), Artifact(None, Content(columns, None, "")))];
  }

  lemma {:induction false} EntityOf(es: seq<DraftEntity>, x: Item) returns (i: nat)
    requires x in ByEntity(es) && x.key.kind.EntityKind?
    ensures i < |es| && es[i].id == x.key.id
    decreases |es|
  {
    if x in ByEntity(es[..|es| - 1]) {
      i := EntityOf(es[..|es| - 1], x);
    } else {
      i := |es| - 1;
      assert x in EntityItems(es[i]);
    }
  }

  // ===== a model for a set of rows =====

  function ItemAt(t: Tables, k: Key): Item
    requires k in t.rows
  {
    Item(k, t.rows[k].artifact)
  }

  /** Rows whose owners are among them. */
  ghost predicate Closed(t: Tables, keys: set<Key>) {
    && keys <= t.rows.Keys
    && forall k :: k in keys && t.rows[k].artifact.parent.Some? ==>
      Key(EntityKind, t.rows[k].artifact.parent.value) in keys
  }

  ghost function ItemsAt(t: Tables, keys: set<Key>): set<Item>
    requires keys <= t.rows.Keys
  {
    set k | k in keys :: ItemAt(t, k)
  }

  lemma OneMoreKey(t: Tables, keys: set<Key>, k: Key)
    requires keys <= t.rows.Keys && k in keys
    ensures multiset(ItemsAt(t, keys)) == multiset(ItemsAt(t, keys - {k})) + multiset{ItemAt(t, k)}
  {
    assert ItemAt(t, k) !in ItemsAt(t, keys - {k});
    assert ItemsAt(t, keys) == ItemsAt(t, keys - {k}) + {ItemAt(t, k)};
  }

  /** An entity with one owned artifact more. */
  lemma WithOwned(e: DraftEntity, k: Key, a: Artifact) returns (e': DraftEntity)
    requires !k.kind.EntityKind? && ShapedFor(k.kind, a) && a.parent == Some(e.id)
    ensures multiset(EntityItems(e')) == multiset(EntityItems(e)) + multiset{Item(k, a)}
  {
    var c := a.content;
    if k.kind.FieldKind? {
      var f := DraftField(k.id, c.columns);
      MoreFields(e, f);
      assert FieldItem(e, f) == Item(k, a);
      e' := e.(fields := e.fields + [f]);
    } else {
      var r := DraftRelationship(k.id, c.target.value, c.cardinality, c.columns);
      MoreRelationships(e, r);
      assert RelationshipItem(e, r) == Item(k, a);
      e' := e.(relationships := e.relationships + [r]);
    }
  }

  /** The entity that owns a row is there. */
  lemma OwnerOf(t: Tables, keys: set<Key>, es: seq<DraftEntity>, k: Key) returns (i: nat)
    requires WellShaped(t) && Closed(t, keys) && k in keys && !k.kind.EntityKind?
    requires multiset(ByEntity(es)) == multiset(ItemsAt(t, keys - {k}))
    ensures i < |es| && t.rows[k].artifact.parent == Some(es[i].id)
  {
    var owner := Key(EntityKind, t.rows[k].artifact.parent.value);
    assert owner in keys - {k};
    assert ItemAt(t, owner) in multiset(ByEntity(es));
    i := EntityOf(es, ItemAt(t, owner));
  }

  /** The artifact of an owned row goes to its entity. */
  lemma AddOwned(t: Tables, keys: set<Key>, es: seq<DraftEntity>, k: Key) returns (es': seq<DraftEntity>)
    requires WellShaped(t) && Closed(t, keys) && k in keys && !k.kind.EntityKind?
    requires multiset(ByEntity(es)) == multiset(ItemsAt(t, keys - {k}))
    ensures multiset(ByEntity(es')) == multiset(ByEntity(es)) + multiset{ItemAt(t, k)}
  {
    var i := OwnerOf(t, keys, es, k);
    var e' := WithOwned(es[i], k, t.rows[k].artifact);
    PutAt(es, i, e', ItemAt(t, k));
    es' := es[i := e'];
  }

  lemma {:induction false} EntitiesFor(t: Tables, keys: set<Key>) returns (es: seq<DraftEntity>)
    requires WellShaped(t) && Closed(t, keys)
    ensures multiset(ByEntity(es)) == multiset(ItemsAt(t, keys))
    decreases |keys|
  {
    if keys == {} {
      es := [];
    } else if k :| k in keys && !k.kind.EntityKind? {
      var rest := EntitiesFor(t, keys - {k});
      es := AddOwned(t, keys, rest, k);
      OneMoreKey(t, keys, k);
    } else {
      var k :| k in keys;
      var rest := EntitiesFor(t, keys - {k});
      MoreEntities(rest, k.id, t.rows[k].artifact.content.columns);
      es := rest + [DraftEntity(k.id, t.rows[k].artifact.content.columns, [], [])];
      OneMoreKey(t, keys, k);
    }
  }

  /** `ms` are the modules of `have`, each once. */
  ghost predicate AreModules(have: map<Uuid, Columns>, ms: seq<DraftModule>) {
    && DistinctModules(ms) && ModuleIds(ms) == have.Keys
    && forall x :: x in ms ==> have[x.id] == x.columns
  }

  lemma OneMoreModule(have: map<Uuid, Columns>, i: Uuid, ms: seq<DraftModule>)
    requires i in have && AreModules(have - {i}, ms)
    ensures AreModules(have, ms + [DraftModule(i, have[i])])
  {
    var ms' := ms + [DraftModule(i, have[i])];
    forall j | 0 <= j < |ms|
      ensures ms[j].id in (have - {i}).Keys
    {
      assert ms[j] in ms;
    }
    assert forall x :: x in ms' <==> x in ms || x == DraftModule(i, have[i]);
    assert ModuleIds(ms') == ModuleIds(ms) + {i};
  }

  lemma {:induction false} ModulesFor(have: map<Uuid, Columns>) returns (ms: seq<DraftModule>)
    ensures AreModules(have, ms)
    decreases |have|
  {
    if have == map[] {
      ms := [];
    } else {
      var entry :| entry in have.Items;
      var i := entry.0;
      var rest := ModulesFor(have - {i});
      OneMoreModule(have, i, rest);
      ms := rest + [DraftModule(i, have[i])];
    }
  }

  // ===== the active model exists =====

  ghost function VisibleKeys(t: Tables): set<Key> {
    set k | k in t.rows && Visible(t, k)
  }

  lemma ListsVisible(t: Tables, items: seq<Item>)
    requires multiset(items) == multiset(ItemsAt(t, VisibleKeys(t)))
    ensures Lists(t, items)
  {
    var all := ItemsAt(t, VisibleKeys(t));
    forall x
      ensures x in items <==> x in all
      ensures x in items ==> multiset(items)[x] == 1
    {
      assert x in items <==> x in multiset(items);
      assert multiset(all)[x] == if x in all then 1 else 0;
    }
    forall k | Visible(t, k)
      ensures k in KeysOf(items)
    {
      assert ItemAt(t, k) in items;
    }
  }

  /** In every reachable database there is an active model to load, so a publish can always be attempted. */
  lemma EveryRunLoads(es: seq<Event>) returns (m: DraftModel)
    ensures IsActiveModel(Run(EMPTY, es), m)
  {
    var db := Run(EMPTY, es);
    EveryRunShaped(es);
    var keys := VisibleKeys(db.tables);
    var entities := EntitiesFor(db.tables, keys);
    var modules := ModulesFor(db.modules);
    m := DraftModel(modules, entities);
    BothOrders(entities);
    ListsVisible(db.tables, Items(entities));
  }

  /** And it is the only one, up to order. */
  lemma ActiveModelIsUnique(db: Db, m: DraftModel, n: DraftModel)
    requires IsActiveModel(db, m) && IsActiveModel(db, n)
    ensures multiset(Items(m.entities)) == multiset(Items(n.entities))
    ensures forall x :: x in m.modules <==> x in n.modules
  {
    forall x
      ensures multiset(Items(m.entities))[x] == multiset(Items(n.entities))[x]
    {
      SameListing(db.tables, Items(m.entities), Items(n.entities), x);
    }
    forall x
      ensures x in m.modules <==> x in n.modules
    {
      if x in m.modules {
        SameModule(db, m, n, x);
      } else if x in n.modules {
        SameModule(db, n, m, x);
      }
    }
  }

  lemma SameModule(db: Db, m: DraftModel, n: DraftModel, x: DraftModule)
    requires IsActiveModel(db, m) && IsActiveModel(db, n) && x in m.modules
    ensures x in n.modules
  {
    assert x.id in ModuleIds(n.modules);
    var y :| y in n.modules && y.id == x.id;
  }

  lemma SameListing(t: Tables, a: seq<Item>, b: seq<Item>, x: Item)
    requires Lists(t, a) && Lists(t, b)
    ensures multiset(a)[x] == multiset(b)[x]
  {
    ListedOnce(t, a, x);
    ListedOnce(t, b, x);
  }

  lemma ListedOnce(t: Tables, items: seq<Item>, x: Item)
    requires Lists(t, items)
    ensures multiset(items)[x] == if Visible(t, x.key) && t.rows[x.key].artifact == x.artifact then 1 else 0
  {
    assert x in items <==> x in multiset(items);
    if Visible(t, x.key) {
      var y :| y in items && y.key == x.key;
    }
  }
}
