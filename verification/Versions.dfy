/**
 Record versions: optimistic updates, delete into the archive, restore from it, and the audit
 log that answers "what was this record at version N". What a row shows, live or in the audit
 log, depends on the fields and references that are active at that time.
 */
module Versions {
  import opened Common

  type Attributes = map<string, string>

  /** A record as requests see it: who owns it, its version, its attributes and references. */
  datatype Image = Image(owner: Uuid, version: int, attributes: Attributes)

  /** The stored row: the attribute document, and the reference columns that are set. */
  datatype Row = Row(owner: Uuid, version: int, attributes: Attributes, references: Attributes)

  /** The entity's active fields, and its active references that have a column. */
  datatype Shape = Shape(fields: set<string>, references: set<string>)

  function Only(a: Attributes, names: set<string>): Attributes {
    map k | k in a && k in names :: a[k]
  }

  /** `reconstruct`: what of a row is shown. */
  function Shown(row: Row, shape: Shape): Image {
    Image(row.owner, row.version, Only(row.attributes, shape.fields) + Only(row.references, shape.references))
  }

  /** A patch; None clears. */
  type Patch = map<string, Option<string>>

  datatype Operation = Created | Updated | Deleted

  /** One row of the audit log; a restore is logged as a create. */
  datatype Entry = Entry(id: Uuid, op: Operation, before: Option<Image>, after: Option<Image>)

  datatype Archived = Archived(id: Uuid, row: Row)

  datatype Db = Db(live: map<Uuid, Row>, archive: seq<Archived>, audit: seq<Entry>, shape: Shape)

  const EMPTY := Db(map[], [], [], Shape({}, {}))

  /** The write scope: bypass or public write, own records, or records shared for writing. */
  datatype Scope = Scope(all: bool, user: Uuid, shared: set<Uuid>)

  predicate MayWrite(s: Scope, id: Uuid, owner: Uuid) {
    s.all || owner == s.user || id in s.shared
  }

  /** `refusal` is what validation or a constraint of the table answers to the write, if anything. */
  datatype Request =
    | Create(id: Uuid, owner: Uuid, attributes: Attributes, refusal: Option<Error>)
    | Update(id: Uuid, expected: int, patch: Patch, scope: Scope, refusal: Option<Error>)
    | Delete(id: Uuid, scope: Scope, refusal: Option<Error>)
    | Restore(id: Uuid, scope: Scope, refusal: Option<Error>)
    | CascadeDelete(id: Uuid)
    | Publish(shape: Shape)

  function Merged(a: Attributes, p: Patch): Attributes {
    map k | k in a.Keys + p.Keys && (k in p ==> p[k].Some?) :: if k in p then p[k].value else a[k]
  }

  /** Keys the patch gives a value take it, keys it clears are gone, the others stay. */
  ghost predicate Patched(before: Attributes, p: Patch, after: Attributes) {
    && (forall k :: k in p && p[k].Some? ==> k in after && after[k] == p[k].value)
    && (forall k :: k in p && p[k].None? ==> k !in after)
    && (forall k :: k !in p && k in before ==> k in after && after[k] == before[k])
    && (forall k :: k !in p && k !in before ==> k !in after)
  }

  /** An id no table has seen, as a random UUID is. */
  predicate Fresh(db: Db, id: Uuid) {
    && id !in db.live
    && (forall i :: 0 <= i < |db.archive| ==> db.archive[i].id != id)
    && (forall i :: 0 <= i < |db.audit| ==> db.audit[i].id != id)
  }

  /** The most recently archived copy of `id` that the scope may write. */
  function LastArchived(archive: seq<Archived>, id: Uuid, s: Scope): Option<Row> {
    if archive == [] then None
    else
      var a := archive[|archive| - 1];
      if a.id == id && MayWrite(s, id, a.row.owner) then Some(a.row)
      else LastArchived(archive[..|archive| - 1], id, s)
  }

  /** The row of an audited write. */
  function Write(db: Db, id: Uuid, row: Row, op: Operation): Db {
    var before := if id in db.live then Some(Shown(db.live[id], db.shape)) else None;
    db.(live := db.live[id := row], audit := db.audit + [Entry(id, op, before, Some(Shown(row, db.shape)))])
  }

  /** The row a create inserts. */
  function NewRow(owner: Uuid, body: Attributes, shape: Shape): Row {
    Row(owner, 1, Only(body, shape.fields), Only(body, shape.references))
  }

  /** The row after an update, whose patch touches active fields and references alone. */
  function UpdatedRow(row: Row, p: Patch, shape: Shape): Row {
    row.(version := row.version + 1,
         attributes := Merged(row.attributes, Part(p, shape.fields)),
         references := Merged(row.references, Part(p, shape.references)))
  }

  function Part(p: Patch, names: set<string>): Patch {
    map k | k in p && k in names :: p[k]
  }

  /** The row a restore inserts: all attributes, and the references that are active. */
  function RestoredRow(row: Row, shape: Shape): Row {
    row.(version := row.version + 1, references := Only(row.references, shape.references))
  }

  predicate Known(names: set<string>, shape: Shape) {
    names <= shape.fields + shape.references
  }

  /** Why a request is refused; a name that is not active fails validation. */
  function Refused(db: Db, r: Request): Option<Error> {
    match r
    case Create(id, _, body, refusal) =>
      if !Known(body.Keys, db.shape) then Some(Invalid) else if !Fresh(db, id) then Some(Conflict) else refusal
    case Update(id, expected, patch, scope, refusal) =>
      if !Known(patch.Keys, db.shape) then Some(Invalid)
      else if id !in db.live || !MayWrite(scope, id, db.live[id].owner) then Some(NotFound)
      else if db.live[id].version != expected then Some(Conflict)
      else refusal
    case Delete(id, scope, refusal) =>
      if id !in db.live || !MayWrite(scope, id, db.live[id].owner) then Some(NotFound) else refusal
    case Restore(id, scope, refusal) =>
      if LastArchived(db.archive, id, scope).None? then Some(NotFound)
      else if id in db.live then Some(Conflict)
      else refusal
    case CascadeDelete(id) => if id in db.live then None else Some(NotFound)
    case Publish(_) => None
  }

  function Without(live: map<Uuid, Row>, id: Uuid): map<Uuid, Row> {
    map x | x in live && x != id :: live[x]
  }

  /** One request, one transaction. */
  function Step(db: Db, r: Request): Db {
    if Refused(db, r).Some? then db
    else match r
      case Create(id, owner, body, _) => Write(db, id, NewRow(owner, body, db.shape), Created)
      case Update(id, _, patch, _, _) => Write(db, id, UpdatedRow(db.live[id], patch, db.shape), Updated)
      case Delete(id, _, _) =>
        Gone(db, id).(audit := db.audit + [Entry(id, Deleted, Some(Shown(db.live[id], db.shape)), None)])
      case Restore(id, scope, _) =>
        Write(db, id, RestoredRow(LastArchived(db.archive, id, scope).value, db.shape), Created)
      case CascadeDelete(id) => Gone(db, id)
      case Publish(shape) => db.(shape := shape)
  }

  /** The row leaves for the archive as it is stored. */
  function Gone(db: Db, id: Uuid): Db
    requires id in db.live
  {
    db.(live := Without(db.live, id), archive := db.archive + [Archived(id, db.live[id])])
  }

  /** The records an `ON DELETE CASCADE` takes along. */
  function Cascades(ids: seq<Uuid>): (rs: seq<Request>)
    ensures |rs| == |ids|
  {
    seq(|ids|, i requires 0 <= i < |ids| => CascadeDelete(ids[i]))
  }

  function Run(db: Db, rs: seq<Request>): Db {
    if rs == [] then db else Step(Run(db, rs[..|rs| - 1]), rs[|rs| - 1])
  }

  /** The as-of lookup by version: the newest create or update image of `id` with that version. */
  function AsOf(audit: seq<Entry>, id: Uuid, version: int): Option<Image> {
    if audit == [] then None
    else
      var e := audit[|audit| - 1];
      if Shows(e, id, version) then e.after else AsOf(audit[..|audit| - 1], id, version)
  }

  predicate Shows(e: Entry, id: Uuid, version: int) {
    e.id == id && !e.op.Deleted? && e.after.Some? && e.after.value.version == version
  }

  // ===== what every run keeps =====

  /** The newest image the audit log has of `id`. */
  function LastImage(audit: seq<Entry>, id: Uuid): Option<Image> {
    if audit == [] then None
    else
      var e := audit[|audit| - 1];
      if e.id == id && !e.op.Deleted? && e.after.Some? then e.after else LastImage(audit[..|audit| - 1], id)
  }

  const EVERYTHING := Scope(true, 0, {})

  /** The copy that is live, or else the newest archived one. */
  function Current(db: Db, id: Uuid): Option<Row> {
    if id in db.live then Some(db.live[id]) else LastArchived(db.archive, id, EVERYTHING)
  }

  /** The current copy has the owner and version of the newest image; all copies have one owner. */
  ghost predicate Tracked(db: Db, id: Uuid) {
    && (Current(db, id).Some? <==> LastImage(db.audit, id).Some?)
    && (Current(db, id).Some? ==>
          && Current(db, id).value.owner == LastImage(db.audit, id).value.owner
          && Current(db, id).value.version == LastImage(db.audit, id).value.version)
    && (forall i :: 0 <= i < |db.archive| && db.archive[i].id == id ==>
          LastImage(db.audit, id).Some? && db.archive[i].row.owner == LastImage(db.audit, id).value.owner)
  }

  predicate IsImageOf(e: Entry, id: Uuid) {
    e.id == id && !e.op.Deleted? && e.after.Some?
  }

  /** Versions only grow along the audit log of a record. */
  ghost predicate Growing(audit: seq<Entry>, id: Uuid) {
    forall i, j :: 0 <= i < j < |audit| && IsImageOf(audit[i], id) && IsImageOf(audit[j], id)
      ==> audit[i].after.value.version < audit[j].after.value.version
  }

  ghost predicate Valid(db: Db) {
    && (forall id :: Tracked(db, id))
    && (forall id :: Growing(db.audit, id))
    && (forall i :: 0 <= i < |db.audit| ==> !db.audit[i].op.Deleted? ==> db.audit[i].after.Some?)
  }

  lemma {:induction false} LastImageTop(audit: seq<Entry>, id: Uuid, i: nat)
    requires Growing(audit, id) && i < |audit| && IsImageOf(audit[i], id)
    ensures LastImage(audit, id).Some? && audit[i].after.value.version <= LastImage(audit, id).value.version
    decreases |audit|
  {
    var front := audit[..|audit| - 1];
    if !IsImageOf(audit[|audit| - 1], id) {
      assert Growing(front, id) && front[i] == audit[i];
      LastImageTop(front, id, i);
    }
  }

  lemma {:induction false} NoImages(audit: seq<Entry>, id: Uuid)
    requires forall i :: 0 <= i < |audit| ==> audit[i].id != id
    ensures LastImage(audit, id) == None
    decreases |audit|
  {
    if audit != [] {
      NoImages(audit[..|audit| - 1], id);
    }
  }

  /** One owner: the scope sees all copies or none. */
  lemma {:induction false} ScopeIsAllOrNothing(archive: seq<Archived>, id: Uuid, s: Scope, owner: Uuid)
    requires forall i :: 0 <= i < |archive| && archive[i].id == id ==> archive[i].row.owner == owner
    ensures LastArchived(archive, id, s)
      == if MayWrite(s, id, owner) then LastArchived(archive, id, EVERYTHING) else None
    decreases |archive|
  {
    if archive != [] {
      ScopeIsAllOrNothing(archive[..|archive| - 1], id, s, owner);
    }
  }

  /** The copy a restore finds is the record's last one, of the newest version it ever had. */
  lemma RestoreContinues(db: Db, id: Uuid, s: Scope)
    requires Valid(db) && id !in db.live && LastArchived(db.archive, id, s).Some?
    ensures LastArchived(db.archive, id, s) == Current(db, id)
    ensures LastImage(db.audit, id).Some?
    ensures LastArchived(db.archive, id, s).value.owner == LastImage(db.audit, id).value.owner
    ensures LastArchived(db.archive, id, s).value.version == LastImage(db.audit, id).value.version
  {
    assert Tracked(db, id);
    FoundInArchive(db.archive, id, s);
    ScopeIsAllOrNothing(db.archive, id, s, LastImage(db.audit, id).value.owner);
  }

  lemma {:induction false} FoundInArchive(archive: seq<Archived>, id: Uuid, s: Scope)
    requires LastArchived(archive, id, s).Some?
    ensures exists i ::
      0 <= i < |archive| && archive[i].id == id && archive[i].row == LastArchived(archive, id, s).value
    decreases |archive|
  {
    var a := archive[|archive| - 1];
    if !(a.id == id && MayWrite(s, id, a.row.owner)) {
      FoundInArchive(archive[..|archive| - 1], id, s);
      var i :| 0 <= i < |archive| - 1 && archive[..|archive| - 1][i].id == id
        && archive[..|archive| - 1][i].row == LastArchived(archive[..|archive| - 1], id, s).value;
      assert archive[i].id == id;
    }
  }

  /** A write that continues from the newest image keeps the invariant. */
  lemma WriteKeepsValid(db: Db, id: Uuid, row: Row, op: Operation)
    requires Valid(db) && !op.Deleted?
    requires match LastImage(db.audit, id)
      case Some(m) => row.version > m.version && row.owner == m.owner
      case None => true
    ensures Valid(Write(db, id, row, op))
  {
    var db' := Write(db, id, row, op);
    assert db'.audit[..|db.audit|] == db.audit;
    forall x
      ensures Tracked(db', x)
    {
      assert Tracked(db, x);
    }
    forall x
      ensures Growing(db'.audit, x)
    {
      forall i, j | 0 <= i < j < |db'.audit| && IsImageOf(db'.audit[i], x) && IsImageOf(db'.audit[j], x)
        ensures db'.audit[i].after.value.version < db'.audit[j].after.value.version
      {
        assert Growing(db.audit, x);
        if j == |db.audit| {
          LastImageTop(db.audit, x, i);
        }
      }
    }
  }

  /** A row that leaves for the archive, audited or not. */
  lemma ArchivedKeepsValid(db: Db, id: Uuid, db': Db)
    requires Valid(db) && id in db.live
    requires db'.live == Without(db.live, id) && db'.archive == db.archive + [Archived(id, db.live[id])]
    requires db'.audit == db.audit
      || db'.audit == db.audit + [Entry(id, Deleted, Some(Shown(db.live[id], db.shape)), None)]
    ensures Valid(db')
  {
    forall x
      ensures Tracked(db', x) && Growing(db'.audit, x)
    {
      assert Tracked(db, x) && Growing(db.audit, x);
      ArchivedTracked(db, id, db', x);
    }
  }

  /** Its last copy and its newest image are what they were; so are those of every other record. */
  lemma ArchivedTracked(db: Db, id: Uuid, db': Db, x: Uuid)
    requires id in db.live
    requires db'.live == Without(db.live, id) && db'.archive == db.archive + [Archived(id, db.live[id])]
    requires db'.audit == db.audit
      || db'.audit == db.audit + [Entry(id, Deleted, Some(Shown(db.live[id], db.shape)), None)]
    requires Tracked(db, x) && Tracked(db, id)
    ensures Current(db', x) == Current(db, x) && LastImage(db'.audit, x) == LastImage(db.audit, x)
    ensures Tracked(db', x)
  {
    assert db'.archive[..|db.archive|] == db.archive;
    if db'.audit != db.audit {
      assert db'.audit[..|db.audit|] == db.audit;
    }
  }

  lemma PublishKeepsValid(db: Db, shape: Shape)
    requires Valid(db)
    ensures Valid(db.(shape := shape))
  {
    forall id
      ensures Tracked(db.(shape := shape), id)
    {
      assert Tracked(db, id);
    }
  }

  lemma StepKeepsValid(db: Db, r: Request)
    requires Valid(db)
    ensures Valid(Step(db, r))
  {
    if Refused(db, r).None? {
      match r {
        case Create(id, owner, body, _) =>
          NoImages(db.audit, id);
          WriteKeepsValid(db, id, NewRow(owner, body, db.shape), Created);
        case Update(id, _, patch, _, _) =>
          assert Tracked(db, id);
          WriteKeepsValid(db, id, Step(db, r).live[id], Updated);
        case Delete(id, _, _) => ArchivedKeepsValid(db, id, Step(db, r));
        case Restore(id, s, _) =>
          RestoreContinues(db, id, s);
          WriteKeepsValid(db, id, Step(db, r).live[id], Created);
        case CascadeDelete(id) => ArchivedKeepsValid(db, id, Step(db, r));
        case Publish(shape) => PublishKeepsValid(db, shape);
      }
    }
  }

  lemma {:induction false} EveryRunValid(rs: seq<Request>)
    ensures Valid(Run(EMPTY, rs))
  {
    if rs != [] {
      EveryRunValid(rs[..|rs| - 1]);
      StepKeepsValid(Run(EMPTY, rs[..|rs| - 1]), rs[|rs| - 1]);
    }
  }

  // ===== versions over a run =====

  /** The version of the newest image, 0 before the first. */
  function Version(db: Db, id: Uuid): int {
    match LastImage(db.audit, id) case Some(m) => m.version case None => 0
  }

  /** The request writes `id`, with a version and an audit row. */
  predicate IsWrite(db: Db, r: Request, id: Uuid) {
    Refused(db, r).None? && (r.Create? || r.Update? || r.Restore?) && r.id == id
  }

  /** A create, update or restore of `id` takes its version up by one; everything else leaves it. */
  lemma VersionStep(rs: seq<Request>, r: Request, id: Uuid)
    ensures var db, db' := Run(EMPTY, rs), Run(EMPTY, rs + [r]);
      Version(db', id) == Version(db, id) + if IsWrite(db, r, id) then 1 else 0
  {
    var db := Run(EMPTY, rs);
    assert (rs + [r])[..|rs|] == rs;
    EveryRunValid(rs);
    if IsWrite(db, r, id) {
      WriteIsNext(db, r, id);
    } else {
      OthersLeaveImage(db, r, id);
    }
  }

  /** A write's row is of the next version. */
  lemma WriteIsNext(db: Db, r: Request, id: Uuid)
    requires Valid(db) && IsWrite(db, r, id)
    ensures var db' := Step(db, r);
      && id in db'.live && LastImage(db'.audit, id) == Some(Shown(db'.live[id], db.shape))
      && db'.live[id].version == Version(db, id) + 1
  {
    assert Tracked(db, id);
    match r {
      case Create(_, _, _, _) => NoImages(db.audit, id);
      case Restore(_, s, _) => RestoreContinues(db, id, s);
      case Update(_, _, _, _, _) =>
    }
  }

  /** Anything else leaves the newest image of the record. */
  lemma OthersLeaveImage(db: Db, r: Request, id: Uuid)
    requires !IsWrite(db, r, id)
    ensures LastImage(Step(db, r).audit, id) == LastImage(db.audit, id)
  {
    var audit := Step(db, r).audit;
    if audit != db.audit {
      assert audit[..|audit| - 1] == db.audit;
    }
  }

  lemma {:induction false} VersionsGrow(rs: seq<Request>, more: seq<Request>, id: Uuid)
    ensures Version(Run(EMPTY, rs), id) <= Version(Run(EMPTY, rs + more), id)
    decreases |more|
  {
    if more == [] {
      assert rs + more == rs;
    } else {
      VersionsGrow(rs, more[..|more| - 1], id);
      VersionStep(rs + more[..|more| - 1], more[|more| - 1], id);
      assert rs + more == rs + more[..|more| - 1] + [more[|more| - 1]];
    }
  }

  /**
   Once an update has succeeded, no update naming that version or an older one ever succeeds
   again on the record, whatever happens in between.
   */
  lemma StaleUpdateNeverSucceeds(rs: seq<Request>, r: Request, more: seq<Request>, late: Request)
    requires r.Update? && Refused(Run(EMPTY, rs), r).None?
    requires late.Update? && late.id == r.id && late.expected <= r.expected
    ensures var db := Run(EMPTY, rs + [r] + more);
      var known := Known(late.patch.Keys, db.shape);
      Refused(db, late) in if known then {Some(NotFound), Some(Conflict)} else {Some(Invalid)}
  {
    var id := r.id;
    EveryRunValid(rs);
    assert Tracked(Run(EMPTY, rs), id);
    VersionStep(rs, r, id);
    VersionsGrow(rs + [r], more, id);
    EveryRunValid(rs + [r] + more);
    assert Tracked(Run(EMPTY, rs + [r] + more), id);
  }

  // ===== the as-of lookup =====

  /** At most one audit row shows a record at a version. */
  lemma AsOfIsUnique(rs: seq<Request>, id: Uuid, i: nat, j: nat)
    requires var a := Run(EMPTY, rs).audit; i < |a| && j < |a| && exists v :: Shows(a[i], id, v) && Shows(a[j], id, v)
    ensures i == j
  {
    EveryRunValid(rs);
    assert Growing(Run(EMPTY, rs).audit, id);
  }

  lemma {:induction false} AsOfFinds(audit: seq<Entry>, id: Uuid, v: int, i: nat)
    requires Growing(audit, id) && i < |audit| && Shows(audit[i], id, v)
    ensures AsOf(audit, id, v) == audit[i].after
    decreases |audit|
  {
    if i < |audit| - 1 {
      assert !Shows(audit[|audit| - 1], id, v);
      assert Growing(audit[..|audit| - 1], id);
      AsOfFinds(audit[..|audit| - 1], id, v, i);
    }
  }

  lemma {:induction false} LastImageShown(audit: seq<Entry>, id: Uuid)
    requires LastImage(audit, id).Some?
    ensures exists i ::
      && 0 <= i < |audit| && Shows(audit[i], id, LastImage(audit, id).value.version)
      && audit[i].after == LastImage(audit, id)
    decreases |audit|
  {
    if !IsImageOf(audit[|audit| - 1], id) {
      LastImageShown(audit[..|audit| - 1], id);
      var i :| 0 <= i < |audit| - 1 && Shows(audit[..|audit| - 1][i], id, LastImage(audit, id).value.version)
        && audit[..|audit| - 1][i].after == LastImage(audit, id);
      assert audit[i] == audit[..|audit| - 1][i];
    }
  }

  lemma {:induction false} AuditGrows(rs: seq<Request>, k: nat)
    requires k <= |rs|
    ensures Run(EMPTY, rs[..k]).audit <= Run(EMPTY, rs).audit
    decreases |rs|
  {
    if k == |rs| {
      assert rs[..k] == rs;
    } else {
      assert rs[..|rs| - 1][..k] == rs[..k];
      AuditGrows(rs[..|rs| - 1], k);
    }
  }

  /** What a read of a live record returns. */
  function Read(db: Db, id: Uuid): Image
    requires id in db.live
  {
    Shown(db.live[id], db.shape)
  }

  /** Some write of the run, its `k`-th request, left `id` with this image. */
  ghost predicate WroteAt(rs: seq<Request>, k: nat, id: Uuid, image: Image) {
    k < |rs| && IsWrite(Run(EMPTY, rs[..k]), rs[k], id)
    && id in Run(EMPTY, rs[..k + 1]).live && Read(Run(EMPTY, rs[..k + 1]), id) == image
  }

  /** What a write left is what the lookup returns for its version, ever after. */
  lemma AsOfRemembers(rs: seq<Request>, k: nat, id: Uuid, image: Image)
    requires WroteAt(rs, k, id, image)
    ensures AsOf(Run(EMPTY, rs).audit, id, image.version) == Some(image)
  {
    EveryRunValid(rs);
    AuditGrows(rs, k + 1);
    var before, after, now := Run(EMPTY, rs[..k]), Run(EMPTY, rs[..k + 1]), Run(EMPTY, rs);
    assert rs[..k + 1][..k] == rs[..k];
    assert after.audit[|before.audit|].after == Some(image);
    assert Growing(now.audit, id);
    AsOfFinds(now.audit, id, image.version, |before.audit|);
  }

  /** And what the lookup returns was left by some write of the run. */
  lemma {:induction false} AsOfWasWritten(rs: seq<Request>, id: Uuid, v: int)
    requires AsOf(Run(EMPTY, rs).audit, id, v).Some?
    ensures exists k: nat :: WroteAt(rs, k, id, AsOf(Run(EMPTY, rs).audit, id, v).value)
    decreases |rs|
  {
    var front, found := rs[..|rs| - 1], AsOf(Run(EMPTY, rs).audit, id, v);
    if AsOf(Run(EMPTY, front).audit, id, v) == found {
      AsOfWasWritten(front, id, v);
      var k: nat :| WroteAt(front, k, id, found.value);
      WroteEarlier(rs, k, id, found.value);
    } else {
      WroteLast(rs, id, v);
    }
  }

  lemma WroteEarlier(rs: seq<Request>, k: nat, id: Uuid, image: Image)
    requires rs != [] && WroteAt(rs[..|rs| - 1], k, id, image)
    ensures WroteAt(rs, k, id, image)
  {
    var front := rs[..|rs| - 1];
    assert rs[..k] == front[..k] && rs[..k + 1] == front[..k + 1];
  }

  /** An answer that the last request changed was written by it. */
  lemma WroteLast(rs: seq<Request>, id: Uuid, v: int)
    requires rs != [] && AsOf(Run(EMPTY, rs).audit, id, v).Some?
    requires AsOf(Run(EMPTY, rs[..|rs| - 1]).audit, id, v) != AsOf(Run(EMPTY, rs).audit, id, v)
    ensures WroteAt(rs, |rs| - 1, id, AsOf(Run(EMPTY, rs).audit, id, v).value)
  {
    var db, db' := Run(EMPTY, rs[..|rs| - 1]), Run(EMPTY, rs);
    assert Refused(db, rs[|rs| - 1]).None?;
    assert db'.audit[..|db.audit|] == db.audit;
    assert rs[..|rs|] == rs;
  }

  /** The lookup answers with an image exactly when a write of the run left the record with it at that version. */
  lemma AsOfIff(rs: seq<Request>, id: Uuid, v: int, image: Image)
    ensures AsOf(Run(EMPTY, rs).audit, id, v) == Some(image)
      <==> image.version == v && exists k: nat :: WroteAt(rs, k, id, image)
  {
    if AsOf(Run(EMPTY, rs).audit, id, v) == Some(image) {
      AsOfWasWritten(rs, id, v);
      AsOfShows(Run(EMPTY, rs).audit, id, v);
    }
    if k: nat :| WroteAt(rs, k, id, image) {
      AsOfRemembers(rs, k, id, image);
    }
  }

  // ----- when that is the record as it is read -----

  /** What was active when `id` was last written. */
  ghost function WrittenUnder(rs: seq<Request>, id: Uuid): Shape {
    if rs == [] then EMPTY.shape
    else
      var db := Run(EMPTY, rs[..|rs| - 1]);
      if IsWrite(db, rs[|rs| - 1], id) then db.shape else WrittenUnder(rs[..|rs| - 1], id)
  }

  /** Everything but a write of the record leaves its current copy as it is stored. */
  lemma OthersLeaveCopy(db: Db, r: Request, id: Uuid)
    requires !IsWrite(db, r, id)
    ensures Current(Step(db, r), id) == Current(db, id)
  {
    var db' := Step(db, r);
    if db'.archive != db.archive {
      assert db'.archive[..|db.archive|] == db.archive;
    }
  }

  /** The newest image is what the current copy, live or archived, showed when it was written. */
  lemma {:induction false} CurrentIsWritten(rs: seq<Request>, id: Uuid)
    requires Current(Run(EMPTY, rs), id).Some?
    ensures LastImage(Run(EMPTY, rs).audit, id) == Some(Shown(Current(Run(EMPTY, rs), id).value, WrittenUnder(rs, id)))
    decreases |rs|
  {
    if rs != [] {
      var front, r := rs[..|rs| - 1], rs[|rs| - 1];
      var db := Run(EMPTY, front);
      EveryRunValid(front);
      if IsWrite(db, r, id) {
        WriteIsNext(db, r, id);
      } else {
        OthersLeaveCopy(db, r, id);
        OthersLeaveImage(db, r, id);
        CurrentIsWritten(front, id);
      }
    }
  }

  /** The value a row shows under a name, if any; a reference goes before an attribute. */
  function Seen(row: Row, shape: Shape, k: string): Option<string> {
    if k in row.references && k in shape.references then Some(row.references[k])
    else if k in row.attributes && k in shape.fields then Some(row.attributes[k])
    else None
  }

  /** The row shows the same under both: nothing it holds was retired or brought back in between. */
  ghost predicate ShowsAlike(row: Row, a: Shape, b: Shape) {
    forall k :: Seen(row, a, k) == Seen(row, b, k)
  }

  lemma ShownIffAlike(row: Row, a: Shape, b: Shape)
    ensures Shown(row, a) == Shown(row, b) <==> ShowsAlike(row, a, b)
  {
    var x, y := Shown(row, a).attributes, Shown(row, b).attributes;
    forall k
      ensures Seen(row, a, k) == (if k in x then Some(x[k]) else None)
      ensures Seen(row, b, k) == (if k in y then Some(y[k]) else None)
    {
    }
    if ShowsAlike(row, a, b) {
      forall k
        ensures (k in x <==> k in y) && (k in x ==> x[k] == y[k])
      {
        assert Seen(row, a, k) == Seen(row, b, k);
      }
      assert x == y;
    }
  }

  /** A record at any point of a run: the lookup returns for its version, ever after, what was written. */
  lemma AsOfIsWritten(rs: seq<Request>, k: nat, id: Uuid)
    requires k <= |rs| && id in Run(EMPTY, rs[..k]).live
    ensures var row := Run(EMPTY, rs[..k]).live[id];
      AsOf(Run(EMPTY, rs).audit, id, row.version) == Some(Shown(row, WrittenUnder(rs[..k], id)))
  {
    var then_, now := Run(EMPTY, rs[..k]), Run(EMPTY, rs);
    EveryRunValid(rs);
    AuditGrows(rs, k);
    CurrentIsWritten(rs[..k], id);
    LastImageShown(then_.audit, id);
    var m := LastImage(then_.audit, id).value;
    var i :| 0 <= i < |then_.audit| && Shows(then_.audit[i], id, m.version) && then_.audit[i].after == Some(m);
    assert now.audit[i] == then_.audit[i] && Growing(now.audit, id);
    AsOfFinds(now.audit, id, m.version, i);
  }

  /**
   That is what a read of the record returned exactly if nothing the row holds was retired or
   brought back between its last write and the read.
   */
  lemma AsOfIsReadIff(rs: seq<Request>, k: nat, id: Uuid)
    requires k <= |rs| && id in Run(EMPTY, rs[..k]).live
    ensures var db := Run(EMPTY, rs[..k]);
      AsOf(Run(EMPTY, rs).audit, id, db.live[id].version) == Some(Read(db, id))
      <==> ShowsAlike(db.live[id], db.shape, WrittenUnder(rs[..k], id))
  {
    AsOfIsWritten(rs, k, id);
    ShownIffAlike(Run(EMPTY, rs[..k]).live[id], Run(EMPTY, rs[..k]).shape, WrittenUnder(rs[..k], id));
  }

  /** A publish since the last write of the record. */
  ghost predicate PublishedSince(rs: seq<Request>, id: Uuid) {
    rs != []
    && (var db, r := Run(EMPTY, rs[..|rs| - 1]), rs[|rs| - 1];
        !IsWrite(db, r, id) && (r.Publish? || PublishedSince(rs[..|rs| - 1], id)))
  }

  lemma {:induction false} SameShapeUnlessPublished(rs: seq<Request>, id: Uuid)
    ensures !PublishedSince(rs, id) ==> WrittenUnder(rs, id) == Run(EMPTY, rs).shape
    decreases |rs|
  {
    if rs != [] {
      SameShapeUnlessPublished(rs[..|rs| - 1], id);
    }
  }

  /** So while the model stays as it is, the lookup always answers what was read. */
  lemma AsOfIsRead(rs: seq<Request>, k: nat, id: Uuid)
    requires k <= |rs| && id in Run(EMPTY, rs[..k]).live && !PublishedSince(rs[..k], id)
    ensures var db := Run(EMPTY, rs[..k]);
      AsOf(Run(EMPTY, rs).audit, id, db.live[id].version) == Some(Read(db, id))
  {
    SameShapeUnlessPublished(rs[..k], id);
    AsOfIsReadIff(rs, k, id);
  }

  const ACTIVE_TOTAL := Publish(Shape({"total"}, {}))
  const NEW_ORDER := Create(1, 9, map["total" := "5"], None)
  const RETIRED_TOTAL := Publish(Shape({}, {}))

  lemma OrderWritten()
    ensures var db := Step(Step(EMPTY, ACTIVE_TOTAL), NEW_ORDER);
      && db.live == map[1 := Row(9, 1, map["total" := "5"], map[])]
      && db.archive == [] && db.shape == Shape({"total"}, {})
      && db.audit == [Entry(1, Created, None, Some(Image(9, 1, map["total" := "5"])))]
  {
    var shape := Shape({"total"}, {});
    assert Known(map["total" := "5"].Keys, shape);
    assert NewRow(9, map["total" := "5"], shape) == Row(9, 1, map["total" := "5"], map[]);
    assert Shown(Row(9, 1, map["total" := "5"], map[]), shape) == Image(9, 1, map["total" := "5"]);
  }

  lemma RunOfThree(a: Request, b: Request, c: Request)
    ensures Run(EMPTY, [a, b, c]) == Step(Step(Step(EMPTY, a), b), c)
  {
    assert [a, b, c][..2] == [a, b] && [a, b][..1] == [a] && [a][..0] == [];
    assert Run(EMPTY, [a]) == Step(EMPTY, a) && Run(EMPTY, [a, b]) == Step(Step(EMPTY, a), b);
  }

  /** An order is written and its field retired: a read no longer has it, the lookup still does. */
  lemma RetiredFieldExample()
    ensures var db := Run(EMPTY, [ACTIVE_TOTAL, NEW_ORDER, RETIRED_TOTAL]);
      && 1 in db.live && Read(db, 1) == Image(9, 1, map[])
      && AsOf(db.audit, 1, 1) == Some(Image(9, 1, map["total" := "5"]))
  {
    RunOfThree(ACTIVE_TOTAL, NEW_ORDER, RETIRED_TOTAL);
    OrderWritten();
    assert Shown(Row(9, 1, map["total" := "5"], map[]), Shape({}, {})) == Image(9, 1, map[]);
  }

  lemma {:induction false} AsOfShows(audit: seq<Entry>, id: Uuid, v: int)
    requires AsOf(audit, id, v).Some?
    ensures AsOf(audit, id, v).value.version == v
    decreases |audit|
  {
    if !Shows(audit[|audit| - 1], id, v) {
      AsOfShows(audit[..|audit| - 1], id, v);
    }
  }

  // ===== the tables =====

  /** What a map holds under a name. */
  function At(a: Attributes, k: string): Option<string> {
    if k in a then Some(a[k]) else None
  }

  lemma UpdateShowsAt(row: Row, p: Patch, shape: Shape, k: string)
    requires Known(p.Keys, shape)
    ensures At(Shown(UpdatedRow(row, p, shape), shape).attributes, k)
      == if k in p then p[k] else At(Shown(row, shape).attributes, k)
  {
  }

  /** A patch of active names changes what is shown just as it says. */
  lemma UpdateShows(row: Row, p: Patch, shape: Shape)
    requires Known(p.Keys, shape)
    ensures Patched(Shown(row, shape).attributes, p, Shown(UpdatedRow(row, p, shape), shape).attributes)
  {
    var before, after := Shown(row, shape).attributes, Shown(UpdatedRow(row, p, shape), shape).attributes;
    forall k
      ensures At(after, k) == if k in p then p[k] else At(before, k)
    {
      UpdateShowsAt(row, p, shape, k);
    }
    PatchedByName(before, p, after);
  }

  lemma PatchedByName(before: Attributes, p: Patch, after: Attributes)
    requires forall k :: At(after, k) == if k in p then p[k] else At(before, k)
    ensures Patched(before, p, after)
  {
    forall k
      ensures k in after <==> At(after, k).Some?
      ensures At(after, k) == if k in p then p[k] else At(before, k)
    {
    }
  }

  /** A restored row shows what its archived copy would, one version up. */
  lemma RestoreShows(row: Row, shape: Shape)
    ensures Shown(RestoredRow(row, shape), shape) == Shown(row, shape).(version := row.version + 1)
  {
    assert Only(Only(row.references, shape.references), shape.references) == Only(row.references, shape.references);
  }

  /** Name by name, what an update stores: what it names among the active fields or references, and what was there. */
  lemma UpdateStores(row: Row, p: Patch, shape: Shape, k: string)
    ensures var after := UpdatedRow(row, p, shape);
      && At(after.attributes, k) == (if k in p && k in shape.fields then p[k] else At(row.attributes, k))
      && At(after.references, k) == (if k in p && k in shape.references then p[k] else At(row.references, k))
      && after.owner == row.owner && after.version == row.version + 1
  {
  }

  /** What a restore stores: the archived copy one version up, without its retired references. */
  lemma RestoreStores(row: Row, shape: Shape, k: string)
    ensures var after := RestoredRow(row, shape);
      && At(after.attributes, k) == At(row.attributes, k)
      && At(after.references, k) == (if k in shape.references then At(row.references, k) else None)
      && after.owner == row.owner && after.version == row.version + 1
  {
  }

  /** So a field that is retired and brought back shows what it held before, whatever was written in between. */
  lemma RetiredValueComesBack(row: Row, p: Patch, retired: Shape, back: Shape, k: string)
    requires k in row.attributes && k !in row.references
    requires k !in retired.fields + retired.references && k in back.fields
    ensures At(Shown(UpdatedRow(row, p, retired), retired).attributes, k) == None
    ensures At(Shown(UpdatedRow(row, p, retired), back).attributes, k) == Some(row.attributes[k])
  {
    UpdateStores(row, p, retired, k);
  }

  /** A read shows the active fields and references that are set, and nothing else. */
  lemma ReadShows(row: Row, shape: Shape, k: string)
    ensures At(Shown(row, shape).attributes, k) ==
      if k in row.references && k in shape.references then Some(row.references[k])
      else if k in row.attributes && k in shape.fields then Some(row.attributes[k])
      else None
  {
  }

  // ----- who may do what -----

  /**
   The scope covers a record: it covers everything, or the record is the user's own or shared with them for writing.
   */
  predicate Covers(s: Scope, id: Uuid, owner: Uuid) {
    s.all || s.user == owner || id in s.shared
  }

  /** Every name is an active field or reference. */
  ghost predicate AllActive(names: set<string>, shape: Shape) {
    forall k :: k in names ==> k in shape.fields || k in shape.references
  }

  /** No table has seen the id. */
  ghost predicate Unseen(db: Db, id: Uuid) {
    && id !in db.live
    && (forall a :: a in db.archive ==> a.id != id)
    && (forall e :: e in db.audit ==> e.id != id)
  }

  lemma FreshIsUnseen(db: Db, id: Uuid)
    ensures Fresh(db, id) <==> Unseen(db, id)
  {
    if Unseen(db, id) {
      forall i | 0 <= i < |db.archive|
        ensures db.archive[i].id != id
      {
        assert db.archive[i] in db.archive;
      }
      forall i | 0 <= i < |db.audit|
        ensures db.audit[i].id != id
      {
        assert db.audit[i] in db.audit;
      }
    }
  }

  /**
   A create is answered by the first that applies: an unknown name, an id seen before, or what the constraints say.
   */
  lemma CreateAnswer(db: Db, id: Uuid, owner: Uuid, body: Attributes, refusal: Option<Error>)
    ensures Refused(db, Create(id, owner, body, refusal)) ==
      if !AllActive(body.Keys, db.shape) then Some(Invalid) else if !Unseen(db, id) then Some(Conflict) else refusal
  {
    FreshIsUnseen(db, id);
  }

  /** An update: an unknown name, a record absent or out of scope, another version, or what the constraints say. */
  lemma UpdateAnswer(db: Db, id: Uuid, expected: int, patch: Patch, s: Scope, refusal: Option<Error>)
    ensures Refused(db, Update(id, expected, patch, s, refusal)) ==
      if !AllActive(patch.Keys, db.shape) then Some(Invalid)
      else if id !in db.live || !Covers(s, id, db.live[id].owner) then Some(NotFound)
      else if db.live[id].version != expected then Some(Conflict)
      else refusal
  {
  }

  lemma DeleteAnswer(db: Db, id: Uuid, s: Scope, refusal: Option<Error>)
    ensures Refused(db, Delete(id, s, refusal)) ==
      if id !in db.live || !Covers(s, id, db.live[id].owner) then Some(NotFound) else refusal
  {
  }

  /** A restore: no archived copy in scope, a record still live, or what the constraints say. */
  lemma RestoreAnswer(db: Db, id: Uuid, s: Scope, refusal: Option<Error>)
    ensures Refused(db, Restore(id, s, refusal)) ==
      if forall a :: a in db.archive && a.id == id ==> !Covers(s, id, a.row.owner) then Some(NotFound)
      else if id in db.live then Some(Conflict)
      else refusal
  {
    CopyInScope(db.archive, id, s);
  }

  lemma {:induction false} CopyInScope(archive: seq<Archived>, id: Uuid, s: Scope)
    ensures LastArchived(archive, id, s).None? <==>
      forall a :: a in archive && a.id == id ==> !Covers(s, id, a.row.owner)
    decreases |archive|
  {
    if archive != [] {
      CopyInScope(archive[..|archive| - 1], id, s);
      assert archive == archive[..|archive| - 1] + [archive[|archive| - 1]];
    }
  }

  /** The copy a restore takes is the last in scope: none after it is. */
  lemma {:induction false} NewestCopy(archive: seq<Archived>, id: Uuid, s: Scope) returns (i: nat)
    requires LastArchived(archive, id, s).Some?
    ensures i < |archive| && archive[i] == Archived(id, LastArchived(archive, id, s).value)
    ensures Covers(s, id, archive[i].row.owner)
    ensures forall j :: i < j < |archive| && archive[j].id == id ==> !Covers(s, id, archive[j].row.owner)
    decreases |archive|
  {
    var a := archive[|archive| - 1];
    if a.id == id && MayWrite(s, id, a.row.owner) {
      i := |archive| - 1;
    } else {
      i := NewestCopy(archive[..|archive| - 1], id, s);
    }
  }

  /** An accepted write is audited under its kind with what the record showed before it and shows after it. */
  lemma WriteIsAudited(db: Db, r: Request, id: Uuid)
    requires IsWrite(db, r, id)
    ensures var db' := Step(db, r);
      && |db'.audit| == |db.audit| + 1 && db.audit <= db'.audit && id in db'.live
      && db'.audit[|db.audit|] == Entry(id, if r.Update? then Updated else Created,
                                        if id in db.live then Some(Read(db, id)) else None, Some(Read(db', id)))
      && (forall x :: x in db'.live <==> x in db.live || x == id)
      && (forall x :: x in db.live && x != id ==> db'.live[x] == db.live[x])
      && db'.archive == db.archive && db'.shape == db.shape
  {
  }

  /** An accepted delete archives the row as it is stored and is audited with what the record showed. */
  lemma DeleteIsAudited(db: Db, id: Uuid, s: Scope, refusal: Option<Error>)
    requires Refused(db, Delete(id, s, refusal)).None?
    ensures var db' := Step(db, Delete(id, s, refusal));
      && db'.audit == db.audit + [Entry(id, Deleted, Some(Read(db, id)), None)]
      && db'.archive == db.archive + [Archived(id, db.live[id])]
      && db'.live == db.live - {id} && db'.shape == db.shape
  {
    assert Without(db.live, id) == db.live - {id};
  }

  /** A cascade archives the row and is not audited; a publish touches no row; a refused request changes nothing. */
  lemma OtherSteps(db: Db, r: Request)
    ensures Refused(db, r).Some? ==> Step(db, r) == db
    ensures r.CascadeDelete? && r.id in db.live ==>
      Step(db, r) == db.(live := db.live - {r.id}, archive := db.archive + [Archived(r.id, db.live[r.id])])
    ensures r.Publish? ==> Step(db, r) == db.(shape := r.shape)
  {
    if r.CascadeDelete? && r.id in db.live {
      assert Without(db.live, r.id) == db.live - {r.id};
    }
  }

  class RecordTable {
    var live: map<Uuid, Row>
    var archive: seq<Archived>
    var audit: seq<Entry>
    var shape: Shape

    constructor ()
      ensures State() == EMPTY
    {
      live, archive, audit, shape := map[], [], [], Shape({}, {});
    }

    function State(): Db
      reads this
    {
      Db(live, archive, audit, shape)
    }

    /** A metadata publish: no row is touched. */
    method Reshape(active: Shape)
      modifies this`shape
      ensures State() == Step(old(State()), Publish(active))
    {
      shape := active;
    }

    /** INSERT; a random id has not been seen before. */
    method CreateRecord(
        id: Uuid, owner: Uuid, body: Attributes, refusal: Option<Error>)
      returns (r: Result<Image, Error>)
      requires Fresh(State(), id)
      modifies this
      ensures State() == Step(old(State()), Create(id, owner, body, refusal))
      ensures r.Ok? <==> Known(body.Keys, shape) && refusal.None?
      ensures r.Ok? ==> id in live && r.value == Read(State(), id) && r.value == Image(owner, 1, body)
      ensures r.Err? ==> r.error == Refused(old(State()), Create(id, owner, body, refusal)).value
    {
      if !Known(body.Keys, shape) {
        return Err(Invalid);
      }
      if refusal.Some? {
        return Err(refusal.value);
      }
      var row := NewRow(owner, body, shape);
      assert Shown(row, shape).attributes == body;
      live := live[id := row];
      audit := audit + [Entry(id, Created, None, Some(Shown(row, shape)))];
      r := Ok(Shown(row, shape));
    }

    /** UPDATE .. WHERE version = expected; a miss is told apart as absent, out of scope, or changed. */
    method UpdateRecord(
        id: Uuid, expected: int, patch: Patch, scope: Scope, refusal: Option<Error>)
      returns (r: Result<Image, Error>)
      modifies this
      ensures State() == Step(old(State()), Update(id, expected, patch, scope, refusal))
      ensures r.Ok? <==>
        && Known(patch.Keys, shape) && id in old(live) && MayWrite(scope, id, old(live)[id].owner)
        && old(live)[id].version == expected && refusal.None?
      ensures r.Ok? ==> id in live && r.value == Read(State(), id)
      ensures r.Ok? ==> live[id].version == expected + 1 && live[id].owner == old(live)[id].owner
      ensures r.Ok? ==> Patched(Read(old(State()), id).attributes, patch, r.value.attributes)
      ensures r.Err? ==> r.error == Refused(old(State()), Update(id, expected, patch, scope, refusal)).value
    {
      if !Known(patch.Keys, shape) {
        return Err(Invalid);
      }
      if id !in live || !MayWrite(scope, id, live[id].owner) {
        return Err(NotFound);
      }
      if live[id].version != expected {
        return Err(Conflict);
      }
      if refusal.Some? {
        return Err(refusal.value);
      }
      var before := live[id];
      var row := UpdatedRow(before, patch, shape);
      UpdateShows(before, patch, shape);
      live := live[id := row];
      audit := audit + [Entry(id, Updated, Some(Shown(before, shape)), Some(Shown(row, shape)))];
      r := Ok(Shown(row, shape));
    }

    /**
     DELETE; the trigger copies the row into the archive, and those of the rows that cascade from
     it, directly or through others. `refusal` is what a foreign key that restricts the delete, or
     cannot clear the reference, answers.
     */
    method DeleteRecord(
        id: Uuid, scope: Scope, refusal: Option<Error>, cascaded: seq<Uuid>)
      returns (r: Result<(), Error>)
      modifies this
      ensures r == match Refused(old(State()), Delete(id, scope, refusal)) case None => Ok(()) case Some(e) => Err(e)
      ensures State() ==
        if r.Ok? then Run(old(State()), [Delete(id, scope, refusal)] + Cascades(cascaded)) else old(State())
      ensures r.Ok? ==> id !in live && Archived(id, old(live)[id]) in archive && |audit| == |old(audit)| + 1
    {
      if id !in live || !MayWrite(scope, id, live[id].owner) {
        return Err(NotFound);
      }
      if refusal.Some? {
        return Err(refusal.value);
      }
      ghost var before, all := State(), [Delete(id, scope, refusal)] + Cascades(cascaded);
      var image := Shown(live[id], shape);
      Archive(id);
      audit := audit + [Entry(id, Deleted, Some(image), None)];
      assert all[..1][..0] == [] && all[..1] == [Delete(id, scope, refusal)];
      for i := 0 to |cascaded|
        invariant State() == Run(before, all[..i + 1])
        invariant id !in live && Archived(id, old(live)[id]) in archive && |audit| == |old(audit)| + 1
      {
        assert all[..i + 2][..i + 1] == all[..i + 1] && all[i + 1] == CascadeDelete(cascaded[i]);
        if cascaded[i] in live {
          Archive(cascaded[i]);
        }
      }
      assert all[..|cascaded| + 1] == all;
      r := Ok(());
    }

    /** `mda.archive_row`: the row leaves as it is stored, retired columns included. */
    method Archive(id: Uuid)
      requires id in live
      modifies this`live, this`archive
      ensures State() == Gone(old(State()), id)
      ensures id !in live && LastArchived(archive, id, EVERYTHING) == Some(old(live)[id])
    {
      archive := archive + [Archived(id, live[id])];
      live := Without(live, id);
    }

    /** Re-insert the newest archived copy the scope may write, one version up. */
    method RestoreRecord(id: Uuid, scope: Scope, refusal: Option<Error>) returns (r: Result<Image, Error>)
      modifies this
      ensures State() == Step(old(State()), Restore(id, scope, refusal))
      ensures r.Ok? <==> Refused(old(State()), Restore(id, scope, refusal)).None?
      ensures r.Ok? ==> id !in old(live) && id in live && r.value == Read(State(), id) && archive == old(archive)
      ensures r.Ok? && Valid(old(State())) ==> r.value.version == Version(old(State()), id) + 1
      ensures r.Ok? ==>
        var copy := LastArchived(archive, id, scope).value; r.value == Shown(copy, shape).(version := copy.version + 1)
    {
      var n := |archive|;
      assert archive[..|archive|] == archive;
      while n > 0 && !(archive[n - 1].id == id && MayWrite(scope, id, archive[n - 1].row.owner))
        invariant 0 <= n <= |archive|
        invariant LastArchived(archive[..n], id, scope) == LastArchived(archive, id, scope)
      {
        assert archive[..n][..n - 1] == archive[..n - 1];
        n := n - 1;
      }
      if n == 0 {
        return Err(NotFound);
      }
      if id in live {
        return Err(Conflict);
      }
      if refusal.Some? {
        return Err(refusal.value);
      }
      if Valid(State()) {
        RestoreContinues(State(), id, scope);
      }
      var row := RestoredRow(archive[n - 1].row, shape);
      RestoreShows(archive[n - 1].row, shape);
      live := live[id := row];
      audit := audit + [Entry(id, Created, None, Some(Shown(row, shape)))];
      r := Ok(Shown(row, shape));
    }

    /** The as-of lookup by version. */
    method RecordAsOf(id: Uuid, version: int) returns (r: Result<Image, Error>)
      ensures r == match AsOf(audit, id, version) case Some(image) => Ok(image) case None => Err(NotFound)
    {
      var n := |audit|;
      assert audit[..|audit|] == audit;
      while n > 0 && !Shows(audit[n - 1], id, version)
        invariant 0 <= n <= |audit|
        invariant AsOf(audit[..n], id, version) == AsOf(audit, id, version)
      {
        assert audit[..n][..n - 1] == audit[..n - 1];
        n := n - 1;
      }
      if n == 0 {
        return Err(NotFound);
      }
      r := Ok(audit[n - 1].after.value);
    }
  }
}
