/** What a publish stores and what it refuses, in terms of the draft's own entities, fields and modules. */
module PublishEffects {
  import opened Common
  import opened DraftModels
  import opened Publishing

  // ===== a model's rows =====

  /** The entity's own row. */
  predicate IsEntityOf(e: DraftEntity, k: Key, a: Artifact) {
    k == Key(EntityKind, e.id) && a == Artifact(None, Content(e.columns, None, ""))
  }

  /** The row of one of its fields. */
  predicate IsFieldOf(e: DraftEntity, k: Key, a: Artifact) {
    exists f :: f in e.fields && k == Key(FieldKind, f.id) && a == Artifact(Some(e.id), Content(f.columns, None, ""))
  }

  /** The row of one of its relationships. */
  predicate IsRelationshipOf(e: DraftEntity, k: Key, a: Artifact) {
    exists r :: r in e.relationships && k == Key(RelationshipKind, r.id)
      && a == Artifact(Some(e.id), Content(r.columns, Some(r.target), r.cardinality))
  }

  /** The row belongs to the model. */
  predicate InModel(es: seq<DraftEntity>, k: Key, a: Artifact) {
    exists e :: e in es && (IsEntityOf(e, k, a) || IsFieldOf(e, k, a) || IsRelationshipOf(e, k, a))
  }

  lemma EntityItemsExact(e: DraftEntity, kind: Kind, x: Item)
    ensures x in ItemsOf(e, kind) <==>
      match kind
      case EntityKind => IsEntityOf(e, x.key, x.artifact)
      case FieldKind => IsFieldOf(e, x.key, x.artifact)
      case RelationshipKind => IsRelationshipOf(e, x.key, x.artifact)
  {
    var items := ItemsOf(e, kind);
    if kind.FieldKind? && IsFieldOf(e, x.key, x.artifact) {
      var f :| f in e.fields && x.key == Key(FieldKind, f.id)
        && x.artifact == Artifact(Some(e.id), Content(f.columns, None, ""));
      var i :| 0 <= i < |e.fields| && e.fields[i] == f;
      assert items[i] == x;
    }
    if kind.RelationshipKind? && IsRelationshipOf(e, x.key, x.artifact) {
      var r :| r in e.relationships && x.key == Key(RelationshipKind, r.id)
        && x.artifact == Artifact(Some(e.id), Content(r.columns, Some(r.target), r.cardinality));
      var i :| 0 <= i < |e.relationships| && e.relationships[i] == r;
      assert items[i] == x;
    }
  }

  lemma {:induction false} KindItemsExact(es: seq<DraftEntity>, kind: Kind, x: Item)
    ensures x in KindItems(es, kind) <==> exists e :: e in es && x in ItemsOf(e, kind)
    decreases |es|
  {
    if es != [] {
      KindItemsExact(es[..|es| - 1], kind, x);
      assert es == es[..|es| - 1] + [es[|es| - 1]];
    }
  }

  /** The list of a model's artifacts holds exactly its rows. */
  lemma ItemsExact(es: seq<DraftEntity>, x: Item)
    ensures x in Items(es) <==> InModel(es, x.key, x.artifact)
  {
    KindItemsExact(es, EntityKind, x);
    KindItemsExact(es, FieldKind, x);
    KindItemsExact(es, RelationshipKind, x);
    forall e
      ensures x in ItemsOf(e, EntityKind) <==> IsEntityOf(e, x.key, x.artifact)
      ensures x in ItemsOf(e, FieldKind) <==> IsFieldOf(e, x.key, x.artifact)
      ensures x in ItemsOf(e, RelationshipKind) <==> IsRelationshipOf(e, x.key, x.artifact)
    {
      EntityItemsExact(e, EntityKind, x);
      EntityItemsExact(e, FieldKind, x);
      EntityItemsExact(e, RelationshipKind, x);
    }
  }

  /**
   What is loaded: each row of the model is active, as the model has it, and under an active entity;
   and nothing else is.
   */
  lemma LoadedRows(db: Db, m: DraftModel, k: Key, a: Artifact)
    requires IsActiveModel(db, m)
    ensures InModel(m.entities, k, a) <==>
      && k in db.tables.rows && db.tables.rows[k] == Row(true, a)
      && (k.kind.EntityKind? ||
          (a.parent.Some? && Key(EntityKind, a.parent.value) in db.tables.rows
           && db.tables.rows[Key(EntityKind, a.parent.value)].active))
  {
    var x := Item(k, a);
    ItemsExact(m.entities, x);
    if Visible(db.tables, k) {
      var y :| y in Items(m.entities) && y.key == k;
    }
  }

  // ===== artifacts =====

  /**
   After a publish each artifact of the draft is active, with no retirement row, as it was
   stored before or, if it is new, as the draft has it.
   */
  lemma ArtifactsStored(
      db: Db, id: Uuid, active: DraftModel, draft: DraftModel, valid: bool, taken: set<string>, k: Key, a: Artifact)
    requires IsActiveModel(db, active) && Publish(db, id, active, draft, valid, taken).1.Ok?
    requires RetirementsExact(db.tables) && InModel(draft.entities, k, a)
    ensures var t := Publish(db, id, active, draft, valid, taken).0.tables;
      && k in t.rows && t.rows[k].active && t.retired[k] == 0
      && t.rows[k].artifact == if k in db.tables.rows then db.tables.rows[k].artifact else a
  {
    ItemsExact(draft.entities, Item(k, a));
    PublishedAt(db, id, active, draft, valid, taken, k);
    var t := Publish(db, id, active, draft, valid, taken).0.tables;
    if k !in db.tables.rows {
      var x :| x in Items(draft.entities) && x.key == k && t.rows[k].artifact == x.artifact;
      assert x == Item(k, a);
    }
  }

  /** And each active artifact the draft has dropped is kept as stored, retired, with one retirement row. */
  lemma DroppedRetired(
      db: Db, id: Uuid, active: DraftModel, draft: DraftModel, valid: bool, taken: set<string>, k: Key, a: Artifact)
    requires IsActiveModel(db, active) && Publish(db, id, active, draft, valid, taken).1.Ok?
    requires RetirementsExact(db.tables) && InModel(active.entities, k, a)
    requires forall b :: !InModel(draft.entities, k, b)
    ensures var t := Publish(db, id, active, draft, valid, taken).0.tables;
      k in t.rows && t.rows[k] == Row(false, a) && t.retired[k] == 1
  {
    LoadedRows(db, active, k, a);
    PublishedAt(db, id, active, draft, valid, taken, k);
    forall x | x in Items(draft.entities)
      ensures x.key != k
    {
      ItemsExact(draft.entities, x);
    }
  }

  // ===== refusals =====

  /** An active module comes back with other columns. */
  ghost predicate ChangesModule(active: DraftModel, draft: DraftModel) {
    exists m, n :: m in active.modules && n in draft.modules && m.id == n.id && m.columns != n.columns
  }

  /** An active artifact comes back with other content or under another entity. */
  ghost predicate ChangesArtifact(active: DraftModel, draft: DraftModel) {
    exists k, a, b :: InModel(active.entities, k, a) && InModel(draft.entities, k, b) && a != b
  }

  /** A relationship points at no entity of the draft. */
  ghost predicate LeavesDraft(draft: DraftModel) {
    exists e, r :: e in draft.entities && r in e.relationships
      && forall to :: to in draft.entities ==> to.id != r.target
  }

  /** An entity that is not active wants a table name another tenant uses. */
  ghost predicate TakesTable(active: DraftModel, draft: DraftModel, taken: set<string>) {
    exists e :: e in draft.entities && "table_name" in e.columns && e.columns["table_name"] in taken
      && forall a :: a in active.entities ==> a.id != e.id
  }

  lemma ChangedModuleRefused(active: DraftModel, draft: DraftModel)
    requires ChangesModule(active, draft)
    ensures !DiffAccepts(active, draft)
  {
  }

  lemma ChangedArtifactRefused(active: DraftModel, draft: DraftModel)
    requires ChangesArtifact(active, draft)
    ensures !DiffAccepts(active, draft)
  {
    var k, a, b :| InModel(active.entities, k, a) && InModel(draft.entities, k, b) && a != b;
    ItemsExact(active.entities, Item(k, a));
    ItemsExact(draft.entities, Item(k, b));
    assert Item(k, a).key == Item(k, b).key;
  }

  lemma EntityKeys(es: seq<DraftEntity>, id: Uuid)
    ensures Key(EntityKind, id) in KeysOf(Items(es)) <==> exists e :: e in es && e.id == id
  {
    if e :| e in es && e.id == id {
      var a := Artifact(None, Content(e.columns, None, ""));
      assert IsEntityOf(e, Key(EntityKind, id), a);
      ItemsExact(es, Item(Key(EntityKind, id), a));
      assert Item(Key(EntityKind, id), a).key == Key(EntityKind, id);
    }
    if Key(EntityKind, id) in KeysOf(Items(es)) {
      var x :| x in Items(es) && x.key == Key(EntityKind, id);
      ItemsExact(es, x);
    }
  }

  lemma LeavingRefused(active: DraftModel, draft: DraftModel)
    requires LeavesDraft(draft)
    ensures !DiffAccepts(active, draft)
  {
    var e, r :| e in draft.entities && r in e.relationships && forall to :: to in draft.entities ==> to.id != r.target;
    var k, a := Key(RelationshipKind, r.id), Artifact(Some(e.id), Content(r.columns, Some(r.target), r.cardinality));
    assert IsRelationshipOf(e, k, a);
    ItemsExact(draft.entities, Item(k, a));
    EntityKeys(draft.entities, r.target);
    assert Item(k, a).artifact.content.target == Some(r.target);
  }

  lemma TakenTableRefused(active: DraftModel, draft: DraftModel, taken: set<string>)
    requires TakesTable(active, draft, taken)
    ensures TableTaken(active, draft, taken)
  {
    var e :| e in draft.entities && "table_name" in e.columns && e.columns["table_name"] in taken
      && forall a :: a in active.entities ==> a.id != e.id;
    var x := Item(Key(EntityKind, e.id), Artifact(None, Content(e.columns, None, "")));
    assert IsEntityOf(e, x.key, x.artifact);
    ItemsExact(draft.entities, x);
    EntityKeys(active.entities, e.id);
  }

  /** Why a publish is refused, with nothing written. */
  lemma PublishRefused(db: Db, id: Uuid, active: DraftModel, draft: DraftModel, valid: bool, taken: set<string>)
    ensures var answer := Publish(db, id, active, draft, valid, taken);
      && (id !in db.drafts ==> answer == (db, Err(NotFound)))
      && (id in db.drafts && (db.drafts[id] == Published || db.drafts[id] == DraftStatus.Publishing) ==>
            answer == (db, Err(Conflict)))
      && (id in db.drafts && db.drafts[id] != Published && db.drafts[id] != DraftStatus.Publishing
          && (|| !valid || ChangesModule(active, draft) || ChangesArtifact(active, draft) || LeavesDraft(draft)
              || TakesTable(active, draft, taken)) ==>
            answer == (db, Err(Invalid)))
  {
    if ChangesModule(active, draft) {
      ChangedModuleRefused(active, draft);
    }
    if ChangesArtifact(active, draft) {
      ChangedArtifactRefused(active, draft);
    }
    if LeavesDraft(draft) {
      LeavingRefused(active, draft);
    }
    if TakesTable(active, draft, taken) {
      TakenTableRefused(active, draft, taken);
    }
  }

  /** A row stored under the same entity has the new one's name. */
  ghost predicate NameStored(t: Tables, k: Key, a: Artifact) {
    var column := if k.kind == RelationshipKind then "source_field_name" else "name";
    column in a.content.columns
    && exists other :: other in t.rows && other.kind == k.kind && t.rows[other].artifact.parent == a.parent
         && column in t.rows[other].artifact.content.columns
         && t.rows[other].artifact.content.columns[column] == a.content.columns[column]
  }

  // ===== exactly when a publish goes through =====

  /** Two artifacts of one kind and one owner have one name. */
  ghost predicate ShareName(k: Key, a: Artifact, l: Key, b: Artifact) {
    var column := if k.kind == RelationshipKind then "source_field_name" else "name";
    && k.kind == l.kind && a.parent == b.parent
    && column in a.content.columns && column in b.content.columns
    && a.content.columns[column] == b.content.columns[column]
  }

  lemma ClashIsNameStored(t: Tables, x: Item)
    ensures Clashes(t, x) <==> NameStored(t, x.key, x.artifact)
  {
    if Clashes(t, x) {
      var k :| k in t.rows && k.kind == x.key.kind && t.rows[k].artifact.parent == x.artifact.parent
        && UniqueName(k, t.rows[k].artifact.content.columns).Some?
        && UniqueName(k, t.rows[k].artifact.content.columns) == UniqueName(x.key, x.artifact.content.columns);
    }
  }

  /** No name of a new item is stored, nor that of a new item before it. */
  ghost predicate NamesFree(t: Tables, items: seq<Item>) {
    forall i :: 0 <= i < |items| && items[i].key !in t.rows ==> NameFreeAt(t, items, i)
  }

  ghost predicate NameFreeAt(t: Tables, items: seq<Item>, i: nat)
    requires i < |items|
  {
    && !NameStored(t, items[i].key, items[i].artifact)
    && forall j :: 0 <= j < i && items[j].key !in t.rows ==>
         !ShareName(items[j].key, items[j].artifact, items[i].key, items[i].artifact)
  }

  lemma {:induction false} AddItemsIff(t: Tables, items: seq<Item>, activeKeys: set<Key>)
    requires DistinctKeys(items) && activeKeys <= t.rows.Keys
    ensures AddItems(t, items, activeKeys).Some? <==> NamesFree(t, items)
    decreases |items|
  {
    if items != [] {
      DistinctPrefix(items);
      AddItemsIff(t, items[..|items| - 1], activeKeys);
      FreeInFront(t, items);
      LastAdded(t, items, activeKeys);
    }
  }

  lemma LastAdded(t: Tables, items: seq<Item>, activeKeys: set<Key>)
    requires DistinctKeys(items) && activeKeys <= t.rows.Keys && items != []
    ensures var n := |items| - 1;
      AddItems(t, items, activeKeys).Some? <==>
        AddItems(t, items[..n], activeKeys).Some? && (items[n].key !in t.rows ==> NameFreeAt(t, items, n))
  {
    var rest, x := items[..|items| - 1], items[|items| - 1];
    DistinctPrefix(items);
    if AddItems(t, rest, activeKeys).Some? {
      AddedEverywhere(t, rest, activeKeys, x.key);
      LastStep(t, items, activeKeys);
      if x.key !in t.rows {
        LastClashes(t, rest, activeKeys, x);
        assert rest + [x] == items;
      }
    }
  }

  lemma LastStep(t: Tables, items: seq<Item>, activeKeys: set<Key>)
    requires items != [] && AddItems(t, items[..|items| - 1], activeKeys).Some?
    ensures var now, x := AddItems(t, items[..|items| - 1], activeKeys).value, items[|items| - 1];
      AddItems(t, items, activeKeys).Some? <==> x.key in activeKeys || x.key in now.rows || !Clashes(now, x)
  {
  }

  lemma FreeInFront(t: Tables, items: seq<Item>)
    requires items != []
    ensures var n := |items| - 1;
      NamesFree(t, items) <==>
        NamesFree(t, items[..n]) && (items[n].key !in t.rows ==> NameFreeAt(t, items, n))
  {
    var n := |items| - 1;
    assert forall i :: 0 <= i < n ==> items[..n][i] == items[i];
    forall i | 0 <= i < n
      ensures NameFreeAt(t, items, i) <==> NameFreeAt(t, items[..n], i)
    {
    }
    SplitLast(t, items);
  }

  lemma SplitLast(t: Tables, items: seq<Item>)
    requires items != []
    ensures var n := |items| - 1;
      NamesFree(t, items) <==>
        (forall i :: 0 <= i < n && items[i].key !in t.rows ==> NameFreeAt(t, items, i))
        && (items[n].key !in t.rows ==> NameFreeAt(t, items, n))
  {
  }

  /** The last item clashes with what the others left iff its name was stored, or comes with a new one of them. */
  lemma LastClashes(t: Tables, rest: seq<Item>, activeKeys: set<Key>, x: Item)
    requires DistinctKeys(rest) && activeKeys <= t.rows.Keys && AddItems(t, rest, activeKeys).Some?
    requires x.key !in t.rows && x.key !in KeysOf(rest)
    ensures var t' := AddItems(t, rest, activeKeys).value;
      && x.key !in t'.rows
      && (Clashes(t', x) <==> !NameFreeAt(t, rest + [x], |rest|))
  {
    var t' := AddItems(t, rest, activeKeys).value;
    AddedEverywhere(t, rest, activeKeys, x.key);
    ClashIsNameStored(t', x);
    forall k
      ensures AddedAt(t, t', rest, activeKeys, k)
    {
      AddedEverywhere(t, rest, activeKeys, k);
    }
    if NameStored(t', x.key, x.artifact) {
      StoredOrNew(t, t', rest, activeKeys, x);
    }
    if !NameFreeAt(t, rest + [x], |rest|) {
      NewOrStored(t, t', rest, activeKeys, x);
    }
  }

  lemma StoredOrNew(t: Tables, t': Tables, rest: seq<Item>, activeKeys: set<Key>, x: Item)
    requires activeKeys <= t.rows.Keys && NameStored(t', x.key, x.artifact)
    requires forall k :: AddedAt(t, t', rest, activeKeys, k)
    ensures !NameFreeAt(t, rest + [x], |rest|)
  {
    var column := if x.key.kind == RelationshipKind then "source_field_name" else "name";
    var k :| k in t'.rows && k.kind == x.key.kind && t'.rows[k].artifact.parent == x.artifact.parent
      && column in t'.rows[k].artifact.content.columns
      && t'.rows[k].artifact.content.columns[column] == x.artifact.content.columns[column];
    assert AddedAt(t, t', rest, activeKeys, k);
    if k !in t.rows {
      var y :| y in rest && y.key == k;
      var j :| 0 <= j < |rest| && rest[j] == y;
      assert (rest + [x])[j] == y && ShareName(y.key, y.artifact, x.key, x.artifact);
    }
  }

  lemma NewOrStored(t: Tables, t': Tables, rest: seq<Item>, activeKeys: set<Key>, x: Item)
    requires activeKeys <= t.rows.Keys && DistinctKeys(rest) && !NameFreeAt(t, rest + [x], |rest|)
    requires forall k :: AddedAt(t, t', rest, activeKeys, k)
    ensures NameStored(t', x.key, x.artifact)
  {
    var column := if x.key.kind == RelationshipKind then "source_field_name" else "name";
    if NameStored(t, x.key, x.artifact) {
      var k :| k in t.rows && k.kind == x.key.kind && t.rows[k].artifact.parent == x.artifact.parent
        && column in t.rows[k].artifact.content.columns
        && t.rows[k].artifact.content.columns[column] == x.artifact.content.columns[column];
      assert AddedAt(t, t', rest, activeKeys, k);
    } else {
      var all := rest + [x];
      assert all[|rest|] == x;
      var j :| 0 <= j < |rest| && all[j].key !in t.rows && ShareName(all[j].key, all[j].artifact, x.key, x.artifact);
      var y := rest[j];
      assert all[j] == y && y in rest && y.key in KeysOf(rest);
      assert AddedAt(t, t', rest, activeKeys, y.key);
      assert y.key in t'.rows && t'.rows[y.key].artifact == y.artifact;
    }
  }

  // ----- modules -----

  /** Two modules have one name. */
  predicate SameName(a: Columns, b: Columns) {
    "name" in a && "name" in b && a["name"] == b["name"]
  }

  /** A new module has an id and a name that no stored module has, nor a new one before it. */
  ghost predicate ModuleFree(have: map<Uuid, Columns>, ms: seq<DraftModule>, activeIds: set<Uuid>, i: nat)
    requires i < |ms|
  {
    && ms[i].id !in have && (forall s :: s in have ==> !SameName(have[s], ms[i].columns))
    && forall j :: 0 <= j < i && ms[j].id !in activeIds ==> !SameName(ms[j].columns, ms[i].columns)
  }

  lemma {:induction false} AddModulesIff(have: map<Uuid, Columns>, ms: seq<DraftModule>, activeIds: set<Uuid>)
    requires DistinctModules(ms)
    ensures AddModules(have, ms, activeIds).Some? <==>
      forall i :: 0 <= i < |ms| && ms[i].id !in activeIds ==> ModuleFree(have, ms, activeIds, i)
    decreases |ms|
  {
    if ms != [] {
      var rest, n := ms[..|ms| - 1], |ms| - 1;
      FrontModules(ms);
      AddModulesIff(have, rest, activeIds);
      assert forall i :: 0 <= i < n ==> (ModuleFree(have, rest, activeIds, i) <==> ModuleFree(have, ms, activeIds, i));
      if AddModules(have, rest, activeIds).Some? && ms[n].id !in activeIds {
        LastModule(have, ms, activeIds);
      }
    }
  }

  /** `now` holds what was there and the new ones of `rest`. */
  ghost predicate ModulesGrown(
      have: map<Uuid, Columns>, now: map<Uuid, Columns>, rest: seq<DraftModule>, activeIds: set<Uuid>)
  {
    && (forall i :: i in have ==> i in now && now[i] == have[i])
    && (forall i :: i in now && i !in have ==> exists j :: 0 <= j < |rest| && rest[j].id == i && i !in activeIds)
    && (forall j :: 0 <= j < |rest| && rest[j].id !in activeIds ==>
      rest[j].id in now && now[rest[j].id] == rest[j].columns)
  }

  lemma GrownByRest(have: map<Uuid, Columns>, rest: seq<DraftModule>, activeIds: set<Uuid>)
    requires DistinctModules(rest) && AddModules(have, rest, activeIds).Some?
    ensures ModulesGrown(have, AddModules(have, rest, activeIds).value, rest, activeIds)
  {
    var now := AddModules(have, rest, activeIds).value;
    forall i
      ensures i in have ==> i in now && now[i] == have[i]
      ensures i in now && i !in have ==> exists j :: 0 <= j < |rest| && rest[j].id == i && i !in activeIds
    {
      ModuleAfter(have, rest, activeIds, i);
      if i in now && i !in have {
        var m :| m in rest && m.id == i;
        var j :| 0 <= j < |rest| && rest[j] == m;
      }
    }
    forall j | 0 <= j < |rest| && rest[j].id !in activeIds
      ensures rest[j].id in now && now[rest[j].id] == rest[j].columns
    {
      ModuleAfter(have, rest, activeIds, rest[j].id);
      assert rest[j] in rest;
    }
  }

  lemma NameTakenIff(
      have: map<Uuid, Columns>, now: map<Uuid, Columns>, rest: seq<DraftModule>, activeIds: set<Uuid>, m: DraftModule)
    requires ModulesGrown(have, now, rest, activeIds)
    ensures ModuleClashes(now, m) <==>
      || (exists s :: s in have && SameName(have[s], m.columns))
      || (exists j :: 0 <= j < |rest| && rest[j].id !in activeIds && SameName(rest[j].columns, m.columns))
  {
    if ModuleClashes(now, m) {
      var i :| i in now && "name" in now[i] && now[i]["name"] == m.columns["name"];
      assert i in have ==> SameName(have[i], m.columns);
    }
  }

  lemma LastModule(have: map<Uuid, Columns>, ms: seq<DraftModule>, activeIds: set<Uuid>)
    requires DistinctModules(ms) && ms != [] && ms[|ms| - 1].id !in activeIds
    requires AddModules(have, ms[..|ms| - 1], activeIds).Some?
    ensures AddModules(have, ms, activeIds).Some? <==> ModuleFree(have, ms, activeIds, |ms| - 1)
  {
    var rest, m := ms[..|ms| - 1], ms[|ms| - 1];
    FrontModules(ms);
    GrownByRest(have, rest, activeIds);
    NameTakenIff(have, AddModules(have, rest, activeIds).value, rest, activeIds, m);
    ModuleAfter(have, rest, activeIds, m.id);
    assert forall j :: 0 <= j < |rest| ==> rest[j] == ms[j];
  }

  // ----- the whole -----

  /** No two artifacts of the draft of one kind have one id. */
  ghost predicate IdsOnce(items: seq<Item>) {
    forall i, j :: 0 <= i < j < |items| ==> items[i].key != items[j].key
  }

  lemma DistinctIffOnce(items: seq<Item>)
    ensures DistinctKeys(items) <==> IdsOnce(items)
  {
    if !IdsOnce(items) {
      var i, j :| 0 <= i < j < |items| && items[i].key == items[j].key;
      if items[i] == items[j] {
        TwiceCounted(items, i, j);
      }
    } else {
      forall x | x in items
        ensures multiset(items)[x] == 1
      {
        var i :| 0 <= i < |items| && items[i] == x;
        OnceCounted(items, i);
      }
    }
  }

  lemma TwiceCounted<T>(s: seq<T>, i: nat, j: nat)
    requires i < j < |s| && s[i] == s[j]
    ensures multiset(s)[s[i]] >= 2
  {
    assert s == s[..j] + s[j..];
    assert s[i] == s[..j][i] && s[j] == s[j..][0];
    assert s[i] in s[..j] && s[j] in s[j..];
    assert multiset(s[..j])[s[i]] >= 1 && multiset(s[j..])[s[i]] >= 1;
  }

  lemma OnceCounted<T>(s: seq<T>, i: nat)
    requires i < |s| && forall a, b :: 0 <= a < b < |s| ==> s[a] != s[b]
    ensures multiset(s)[s[i]] == 1
  {
    assert s == s[..i] + ([s[i]] + s[i + 1..]);
    assert s[i] !in s[..i] && s[i] !in s[i + 1..];
    assert multiset(s[..i])[s[i]] == 0 && multiset(s[i + 1..])[s[i]] == 0;
  }

  /** The checks of the diff, on the draft's own parts. */
  lemma AcceptedIff(active: DraftModel, draft: DraftModel)
    ensures DiffAccepts(active, draft) <==>
      && IdsOnce(Items(draft.entities)) && DistinctModules(draft.modules)
      && !ChangesModule(active, draft) && !ChangesArtifact(active, draft) && !LeavesDraft(draft)
  {
    DistinctIffOnce(Items(draft.entities));
    if ChangesArtifact(active, draft) {
      ChangedArtifactRefused(active, draft);
    } else {
      UnchangedArtifacts(active, draft);
    }
    if LeavesDraft(draft) {
      LeavingRefused(active, draft);
    } else {
      StaysInside(draft);
    }
    if !ChangesModule(active, draft) {
      forall m, n | m in active.modules && n in draft.modules && m.id == n.id
        ensures m == n
      {
        assert m.columns == n.columns;
      }
    }
  }

  lemma UnchangedArtifacts(active: DraftModel, draft: DraftModel)
    requires !ChangesArtifact(active, draft)
    ensures forall x, y :: x in Items(active.entities) && y in Items(draft.entities) && x.key == y.key ==> x == y
  {
    forall x, y | x in Items(active.entities) && y in Items(draft.entities) && x.key == y.key
      ensures x == y
    {
      ItemsExact(active.entities, x);
      ItemsExact(draft.entities, y);
      assert InModel(active.entities, x.key, x.artifact) && InModel(draft.entities, x.key, y.artifact);
    }
  }

  lemma StaysInside(draft: DraftModel)
    requires !LeavesDraft(draft)
    ensures TargetsInside(Items(draft.entities))
  {
    forall x | x in Items(draft.entities) && x.artifact.content.target.Some?
      ensures Key(EntityKind, x.artifact.content.target.value) in KeysOf(Items(draft.entities))
    {
      ItemsExact(draft.entities, x);
      var e :| e in draft.entities
        && (IsEntityOf(e, x.key, x.artifact) || IsFieldOf(e, x.key, x.artifact)
          || IsRelationshipOf(e, x.key, x.artifact));
      var r :| r in e.relationships && x.key == Key(RelationshipKind, r.id)
        && x.artifact == Artifact(Some(e.id), Content(r.columns, Some(r.target), r.cardinality));
      var to :| to in draft.entities && to.id == r.target;
      EntityKeys(draft.entities, r.target);
    }
  }

  lemma TakenIff(active: DraftModel, draft: DraftModel, taken: set<string>)
    ensures TableTaken(active, draft, taken) <==> TakesTable(active, draft, taken)
  {
    if TakesTable(active, draft, taken) {
      TakenTableRefused(active, draft, taken);
    }
    if TableTaken(active, draft, taken) {
      var x :| x in Items(draft.entities) && x.key.kind.EntityKind? && x.key !in KeysOf(Items(active.entities))
        && "table_name" in x.artifact.content.columns && x.artifact.content.columns["table_name"] in taken;
      ItemsExact(draft.entities, x);
      var e :| e in draft.entities && IsEntityOf(e, x.key, x.artifact);
      EntityKeys(active.entities, e.id);
    }
  }

  /**
   A publish goes through iff the draft is there and open, the remaining checks of the diff pass,
   no id occurs twice, nothing active is changed, no relationship leaves the draft, no new
   entity takes another tenant's table, and no new artifact or module takes a name.
   */
  lemma PublishOkIff(db: Db, id: Uuid, active: DraftModel, draft: DraftModel, valid: bool, taken: set<string>)
    requires IsActiveModel(db, active)
    ensures Publish(db, id, active, draft, valid, taken).1.Ok? <==>
      && id in db.drafts && db.drafts[id] != Published && db.drafts[id] != DraftStatus.Publishing && valid
      && IdsOnce(Items(draft.entities)) && DistinctModules(draft.modules)
      && !ChangesModule(active, draft) && !ChangesArtifact(active, draft) && !LeavesDraft(draft)
      && !TakesTable(active, draft, taken)
      && NamesFree(db.tables, Items(draft.entities))
      && (forall i :: 0 <= i < |draft.modules| && draft.modules[i].id !in db.modules ==>
            ModuleFree(db.modules, draft.modules, db.modules.Keys, i))
  {
    AcceptedIff(active, draft);
    TakenIff(active, draft, taken);
    GoesThroughIff(db, id, active, draft, valid, taken);
    DistinctIffOnce(Items(draft.entities));
    ActiveKeysStored(db, active);
    if DistinctKeys(Items(draft.entities)) {
      AddItemsIff(db.tables, Items(draft.entities), KeysOf(Items(active.entities)));
    }
    if DistinctModules(draft.modules) {
      AddModulesIff(db.modules, draft.modules, ModuleIds(active.modules));
    }
  }

  lemma ActiveKeysStored(db: Db, active: DraftModel)
    requires IsActiveModel(db, active)
    ensures KeysOf(Items(active.entities)) <= db.tables.rows.Keys && ModuleIds(active.modules) == db.modules.Keys
  {
  }

  /** No publish goes through that adds an artifact under a stored name, retired or not. */
  lemma StoredNameRefused(
      db: Db, id: Uuid, active: DraftModel, draft: DraftModel, valid: bool, taken: set<string>, k: Key, a: Artifact)
    requires IsActiveModel(db, active) && InModel(draft.entities, k, a) && k !in db.tables.rows
    requires NameStored(db.tables, k, a)
    ensures Publish(db, id, active, draft, valid, taken).1.Err? && Publish(db, id, active, draft, valid, taken).0 == db
  {
    PublishOkIff(db, id, active, draft, valid, taken);
    ErrorChangesNothing(db, id, active, draft, valid, taken);
    ItemsExact(draft.entities, Item(k, a));
    var i :| 0 <= i < |Items(draft.entities)| && Items(draft.entities)[i] == Item(k, a);
    assert !NameFreeAt(db.tables, Items(draft.entities), i);
  }

  lemma ErrorChangesNothing(
      db: Db, id: Uuid, active: DraftModel, draft: DraftModel, valid: bool, taken: set<string>)
    ensures var (db', r) := Publish(db, id, active, draft, valid, taken);
      r.Err? ==> db' == db
  {
  }
}
