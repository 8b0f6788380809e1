/**
 Attachment storage: metadata rows deduplicated by (tenant, checksum), bytes in a file store
 outside the database, an advisory lock per checksum, and an unlink that runs after commit.
 Every statement of an upload or a delete is its own step, interleaved with all others.
 */
module Blobs {
  import opened Common

  type Bytes = seq<bv8>
  type Checksum = string

  /** SHA-256, and the lock number of a checksum (two checksums may share one). */
  datatype Hashing = Hashing(digest: Bytes -> Checksum, lockOf: Checksum -> int)

  function Digest(h: Hashing, bytes: Bytes): Checksum {
    var d := h.digest;
    d(bytes)
  }

  function LockOf(h: Hashing, c: Checksum): int {
    var l := h.lockOf;
    l(c)
  }

  datatype BlobRow = BlobRow(tenant: Uuid, key: Uuid, checksum: Checksum, owner: Uuid)

  /** Where a request is between its statements. */
  datatype Request =
    | UploadStarted(id: Uuid, tenant: Uuid, owner: Uuid, bytes: Bytes)
    | UploadLocked(id: Uuid, tenant: Uuid, owner: Uuid, bytes: Bytes)
    | UploadKeyed(id: Uuid, tenant: Uuid, owner: Uuid, bytes: Bytes, key: Uuid)
    | UploadStored(id: Uuid, tenant: Uuid, owner: Uuid, bytes: Bytes, key: Uuid)
    | DeleteRead(id: Uuid, row: BlobRow)
    | DeleteLocked(id: Uuid, row: BlobRow)
    | DeleteCounted(id: Uuid, row: BlobRow, shared: nat)
    | DeleteCommitted(key: Uuid, last: bool)

  /**
   The database, the store and the requests under way. `issued` remembers which tenant and
   checksum each upload id was made for; `leaked` the keys whose bytes a crash or a failed
   unlink may have left behind.
   */
  datatype Store = Store(
    rows: map<Uuid, BlobRow>,
    files: map<Uuid, Bytes>,
    locks: map<int, nat>,
    requests: map<nat, Request>,
    issued: map<Uuid, (Uuid, Checksum)>,
    leaked: set<Uuid>)

  datatype Action =
    | StartUpload(id: Uuid, tenant: Uuid, owner: Uuid, bytes: Bytes)
    | StartDelete(target: Uuid, tenant: Uuid, user: Uuid, superuser: bool)
    | Lock
    | ChooseKey(found: Uuid)
    | PutBytes
    | Count
    | Commit
    | Unlink
    | Fail

  const EMPTY := Store(map[], map[], map[], map[], map[], {})

  function ChecksumOf(h: Hashing, r: Request): Checksum
    requires !r.DeleteCommitted?
  {
    if r.DeleteRead? || r.DeleteLocked? || r.DeleteCounted? then r.row.checksum else Digest(h, r.bytes)
  }

  /** The requests that hold the lock of their checksum. */
  predicate HoldsLock(r: Request) {
    r.UploadLocked? || r.UploadKeyed? || r.UploadStored? || r.DeleteLocked? || r.DeleteCounted?
  }

  function Without<K, V>(m: map<K, V>, k: K): map<K, V> {
    map x | x in m && x != k :: m[x]
  }

  /** Rows of (tenant, checksum): what the dedup lookup selects from. */
  predicate IsDuplicate(s: Store, id: Uuid, tenant: Uuid, c: Checksum) {
    id in s.rows && s.rows[id].tenant == tenant && s.rows[id].checksum == c
  }

  function Sharers(s: Store, tenant: Uuid, key: Uuid, except: Uuid): set<Uuid> {
    set i | i in s.rows && i != except && s.rows[i].tenant == tenant && s.rows[i].key == key
  }

  /** The owner or a superuser of the row's tenant. */
  predicate MayDelete(row: BlobRow, tenant: Uuid, user: Uuid, superuser: bool) {
    row.tenant == tenant && (superuser || row.owner == user)
  }

  /** Leave the lock and the request table. */
  function Ended(h: Hashing, s: Store, p: nat): Store
    requires p in s.requests
  {
    var r := s.requests[p];
    s.(requests := Without(s.requests, p),
       locks := if HoldsLock(r) then Without(s.locks, LockOf(h, ChecksumOf(h, r))) else s.locks)
  }

  /** The upload handler begins, under a fresh id. */
  function Uploading(h: Hashing, s: Store, p: nat, id: Uuid, tenant: Uuid, owner: Uuid, bytes: Bytes): Store {
    s.(requests := s.requests[p := UploadStarted(id, tenant, owner, bytes)],
      issued := s.issued[id := (tenant, Digest(h, bytes))])
  }

  /** The delete handler has read its row. */
  function Deleting(s: Store, p: nat, target: Uuid): Store
    requires target in s.rows
  {
    s.(requests := s.requests[p := DeleteRead(target, s.rows[target])])
  }

  /** `pg_advisory_xact_lock`: a request waits while another holds the lock. */
  function Locked(h: Hashing, s: Store, p: nat): Store
    requires p in s.requests && (s.requests[p].UploadStarted? || s.requests[p].DeleteRead?)
  {
    var r := s.requests[p];
    var l := LockOf(h, ChecksumOf(h, r));
    if l in s.locks then s
    else s.(locks := s.locks[l := p],
            requests := s.requests[p := if r.UploadStarted? then UploadLocked(r.id, r.tenant, r.owner, r.bytes)
              else DeleteLocked(r.id, r.row)])
  }

  /** The dedup lookup: any row of the tenant and checksum, or else a new key. */
  function Keyed(h: Hashing, s: Store, p: nat, found: Uuid): Store
    requires p in s.requests && s.requests[p].UploadLocked?
  {
    var r := s.requests[p];
    var c := Digest(h, r.bytes);
    if IsDuplicate(s, found, r.tenant, c)
    then s.(requests := s.requests[p := UploadKeyed(r.id, r.tenant, r.owner, r.bytes, s.rows[found].key)])
    else if exists i :: i in s.rows && IsDuplicate(s, i, r.tenant, c) then s
    else s.(requests := s.requests[p := UploadKeyed(r.id, r.tenant, r.owner, r.bytes, r.id)])
  }

  /** `BlobStore::put`, under a new key only. */
  function Put(s: Store, p: nat): Store
    requires p in s.requests && s.requests[p].UploadKeyed?
  {
    var r := s.requests[p];
    s.(files := if r.key == r.id then s.files[r.key := r.bytes] else s.files,
       requests := s.requests[p := UploadStored(r.id, r.tenant, r.owner, r.bytes, r.key)])
  }

  /** The upload's row is inserted and committed. */
  function RowAdded(h: Hashing, s: Store, p: nat): Store
    requires p in s.requests && s.requests[p].UploadStored?
  {
    var r := s.requests[p];
    Ended(h, s, p).(rows := s.rows[r.id := BlobRow(r.tenant, r.key, Digest(h, r.bytes), r.owner)])
  }

  /** The delete counts the other rows with its key. */
  function Counted(s: Store, p: nat): Store
    requires p in s.requests && s.requests[p].DeleteLocked?
  {
    var r := s.requests[p];
    s.(requests := s.requests[p := DeleteCounted(r.id, r.row, |Sharers(s, r.row.tenant, r.row.key, r.id)|)])
  }

  /** The delete commits; the unlink is still to come. */
  function RowDropped(h: Hashing, s: Store, p: nat): Store
    requires p in s.requests && s.requests[p].DeleteCounted?
  {
    var r, e := s.requests[p], Ended(h, s, p);
    e.(rows := Without(s.rows, r.id), requests := e.requests[p := DeleteCommitted(r.row.key, r.shared == 0)])
  }

  function Unlinked(s: Store, p: nat): Store
    requires p in s.requests && s.requests[p].DeleteCommitted?
  {
    var r := s.requests[p];
    s.(files := if r.last then Without(s.files, r.key) else s.files, requests := Without(s.requests, p))
  }

  /** A crash, a rollback or a failed unlink. */
  function Failed(h: Hashing, s: Store, p: nat): Store
    requires p in s.requests
  {
    var r := s.requests[p];
    if (r.UploadStored? && r.key == r.id) || (r.DeleteCommitted? && r.last)
    then Ended(h, s, p).(leaked := s.leaked + {r.key})
    else Ended(h, s, p)
  }

  function Begin(h: Hashing, s: Store, p: nat, a: Action): Store {
    match a
    case StartUpload(id, tenant, owner, bytes) =>
      if id in s.issued then s else Uploading(h, s, p, id, tenant, owner, bytes)
    case StartDelete(target, tenant, user, superuser) =>
      if target in s.rows && MayDelete(s.rows[target], tenant, user, superuser) then Deleting(s, p, target) else s
    case _ => s
  }

  /** One statement of request `p`; an action its state does not allow changes nothing. */
  function Continue(h: Hashing, s: Store, p: nat, a: Action): Store
    requires p in s.requests
  {
    var r := s.requests[p];
    match a
    case Lock => if r.UploadStarted? || r.DeleteRead? then Locked(h, s, p) else s
    case ChooseKey(found) => if r.UploadLocked? then Keyed(h, s, p, found) else s
    case PutBytes => if r.UploadKeyed? then Put(s, p) else s
    case Count => if r.DeleteLocked? then Counted(s, p) else s
    case Commit => if r.UploadStored? then RowAdded(h, s, p) else if r.DeleteCounted? then RowDropped(h, s, p) else s
    case Unlink => if r.DeleteCommitted? then Unlinked(s, p) else s
    case Fail => Failed(h, s, p)
    case _ => s
  }

  function Step(h: Hashing, s: Store, p: nat, a: Action): Store {
    if p in s.requests then Continue(h, s, p, a) else Begin(h, s, p, a)
  }

  function Run(h: Hashing, s: Store, es: seq<(nat, Action)>): Store
    decreases |es|
  {
    if es == [] then s else Run(h, Step(h, s, es[0].0, es[0].1), es[1..])
  }

  // ===== the invariant =====

  /** A row's key has bytes with the row's checksum, and was issued for that tenant and checksum. */
  ghost predicate RowOk(h: Hashing, s: Store, row: BlobRow) {
    && row.key in s.files && Digest(h, s.files[row.key]) == row.checksum
    && row.key in s.issued && s.issued[row.key] == (row.tenant, row.checksum)
  }

  ghost predicate RowsOk(h: Hashing, s: Store) {
    && (forall i :: i in s.rows ==> i in s.issued && RowOk(h, s, s.rows[i]))
    && (forall i, j :: i in s.rows && j in s.rows && IsDuplicate(s, i, s.rows[j].tenant, s.rows[j].checksum) ==>
      s.rows[i].key == s.rows[j].key)
  }

  /** An upload id that is not yet a row: nothing else refers to it. */
  ghost predicate Unreferenced(s: Store, id: Uuid) {
    && id in s.issued && id !in s.rows
    && (forall i :: i in s.rows ==> s.rows[i].key != id)
    && (forall q :: q in s.requests && s.requests[q].DeleteCommitted? ==> s.requests[q].key != id)
  }

  ghost predicate IsUpload(r: Request) {
    r.UploadStarted? || r.UploadLocked? || r.UploadKeyed? || r.UploadStored?
  }

  ghost predicate NoDuplicate(s: Store, tenant: Uuid, c: Checksum) {
    forall i :: i in s.rows ==> !IsDuplicate(s, i, tenant, c)
  }

  ghost predicate KeyedBy(s: Store, tenant: Uuid, c: Checksum, key: Uuid) {
    exists i :: IsDuplicate(s, i, tenant, c) && s.rows[i].key == key
  }

  ghost predicate RequestOk(h: Hashing, s: Store, p: nat, r: Request) {
    && (HoldsLock(r) ==> LockOf(h, ChecksumOf(h, r)) in s.locks && s.locks[LockOf(h, ChecksumOf(h, r))] == p)
    && (IsUpload(r) ==> Unreferenced(s, r.id) && s.issued[r.id] == (r.tenant, Digest(h, r.bytes)))
    && (r.UploadKeyed? || r.UploadStored? ==>
          if r.key == r.id then NoDuplicate(s, r.tenant, Digest(h, r.bytes))
          else KeyedBy(s, r.tenant, Digest(h, r.bytes), r.key))
    && (r.UploadStored? && r.key == r.id ==> r.key in s.files && s.files[r.key] == r.bytes)
    && (r.DeleteRead? || r.DeleteLocked? || r.DeleteCounted? ==>
          && r.id in s.issued && r.row.key in s.issued && s.issued[r.row.key] == (r.row.tenant, r.row.checksum)
          && (forall q :: q in s.requests && IsUpload(s.requests[q]) ==>
            s.requests[q].id != r.row.key && s.requests[q].id != r.id)
          && (r.id in s.rows ==> s.rows[r.id] == r.row))
    && (r.DeleteCounted? ==> (r.shared == 0 <==> Sharers(s, r.row.tenant, r.row.key, r.id) == {}))
    && (r.DeleteCommitted? ==> r.key in s.issued && (r.last ==> forall i :: i in s.rows ==> s.rows[i].key != r.key))
  }

  ghost predicate OneOwner(s: Store) {
    forall p, q :: p in s.requests && q in s.requests && p != q && IsUpload(s.requests[p]) && IsUpload(s.requests[q])
      ==> s.requests[p].id != s.requests[q].id
  }

  /** Bytes that no row refers to belong to an upload or an unlink under way, or leaked. */
  ghost predicate FileAccounted(s: Store, k: Uuid) {
    || (exists i :: i in s.rows && s.rows[i].key == k)
    || (exists p :: p in s.requests && s.requests[p].UploadStored? && s.requests[p].id == s.requests[p].key == k)
    || (exists p :: p in s.requests && s.requests[p].DeleteCommitted? && s.requests[p].last && s.requests[p].key == k)
    || k in s.leaked
  }

  ghost predicate Valid(h: Hashing, s: Store) {
    && RowsOk(h, s)
    && (forall p :: p in s.requests ==> RequestOk(h, s, p, s.requests[p]))
    && OneOwner(s)
    && (forall k :: k in s.files ==> FileAccounted(s, k))
  }

  // ===== every step keeps it =====

  /** Two requests never hold the lock of one checksum. */
  lemma Exclusive(h: Hashing, s: Store, p: nat, q: nat)
    requires Valid(h, s) && p in s.requests && q in s.requests && HoldsLock(s.requests[p]) && HoldsLock(s.requests[q])
    requires ChecksumOf(h, s.requests[p]) == ChecksumOf(h, s.requests[q])
    ensures p == q
  {
    assert RequestOk(h, s, p, s.requests[p]) && RequestOk(h, s, q, s.requests[q]);
  }

  /** Rows stay right when they stay, with the bytes under their keys. */
  lemma SameRowsOk(h: Hashing, s: Store, s': Store)
    requires RowsOk(h, s) && s'.rows == s.rows
    requires forall k :: k in s.issued ==> k in s'.issued && s'.issued[k] == s.issued[k]
    requires forall i :: i in s.rows ==> s.rows[i].key in s'.files && s'.files[s.rows[i].key] == s.files[s.rows[i].key]
    ensures RowsOk(h, s')
  {
    forall i | i in s'.rows
      ensures RowOk(h, s', s'.rows[i])
    {
      assert RowOk(h, s, s.rows[i]);
    }
    forall i, j | i in s'.rows && j in s'.rows && IsDuplicate(s', i, s'.rows[j].tenant, s'.rows[j].checksum)
      ensures s'.rows[i].key == s'.rows[j].key
    {
      assert IsDuplicate(s, i, s.rows[j].tenant, s.rows[j].checksum);
    }
  }

  lemma RowKeysStored(h: Hashing, s: Store)
    requires RowsOk(h, s)
    ensures forall i :: i in s.rows ==> s.rows[i].key in s.files
  {
    forall i | i in s.rows
      ensures s.rows[i].key in s.files
    {
      assert RowOk(h, s, s.rows[i]);
    }
  }

  lemma StartUploadKeeps(h: Hashing, s: Store, p: nat, id: Uuid, tenant: Uuid, owner: Uuid, bytes: Bytes)
    requires Valid(h, s) && p !in s.requests && id !in s.issued
    ensures Valid(h, Uploading(h, s, p, id, tenant, owner, bytes))
  {
    var s' := Uploading(h, s, p, id, tenant, owner, bytes);
    RowKeysStored(h, s);
    SameRowsOk(h, s, s');
    forall q | q in s'.requests
      ensures RequestOk(h, s', q, s'.requests[q])
    {
      if q == p {
        FreshIdUnreferenced(h, s, id);
        assert Unreferenced(s', id);
      } else {
        StartUploadOther(h, s, p, q, id, tenant, owner, bytes);
      }
    }
    forall q | q in s.requests && IsUpload(s.requests[q])
      ensures s.requests[q].id != id
    {
      assert RequestOk(h, s, q, s.requests[q]);
    }
    forall k | k in s'.files
      ensures FileAccounted(s', k)
    {
      assert FileAccounted(s, k);
      StillAccounted(s, s', p, k);
    }
  }

  lemma FreshIdUnreferenced(h: Hashing, s: Store, id: Uuid)
    requires Valid(h, s) && id !in s.issued
    ensures id !in s.rows && (forall i :: i in s.rows ==> s.rows[i].key != id)
    ensures forall q :: q in s.requests && s.requests[q].DeleteCommitted? ==> s.requests[q].key != id
  {
    forall i | i in s.rows
      ensures s.rows[i].key != id
    {
      assert RowOk(h, s, s.rows[i]);
    }
    forall q | q in s.requests && s.requests[q].DeleteCommitted?
      ensures s.requests[q].key != id
    {
      assert RequestOk(h, s, q, s.requests[q]);
    }
  }

  lemma StartUploadOther(h: Hashing, s: Store, p: nat, q: nat, id: Uuid, tenant: Uuid, owner: Uuid, bytes: Bytes)
    requires Valid(h, s) && p !in s.requests && id !in s.issued && q in s.requests
    ensures RequestOk(h, Uploading(h, s, p, id, tenant, owner, bytes), q, s.requests[q])
  {
    var r, s' := s.requests[q], Uploading(h, s, p, id, tenant, owner, bytes);
    assert RequestOk(h, s, q, r);
    if IsUpload(r) {
      assert Unreferenced(s', r.id);
      if r.UploadKeyed? || r.UploadStored? {
        SameDuplicates(s, s', r.tenant, Digest(h, r.bytes), r.key);
      }
    }
    if r.DeleteCounted? {
      assert Sharers(s', r.row.tenant, r.row.key, r.id) == Sharers(s, r.row.tenant, r.row.key, r.id);
    }
  }

  /** A file accounted for stays so while rows, leaks and the other requests stay. */
  lemma StillAccounted(s: Store, s': Store, p: nat, k: Uuid)
    requires FileAccounted(s, k)
    requires forall i :: i in s.rows ==> i in s'.rows && s'.rows[i] == s.rows[i]
    requires forall q :: q in s.requests && q != p ==> q in s'.requests && s'.requests[q] == s.requests[q]
    requires s.leaked <= s'.leaked
    requires p in s.requests ==> !s.requests[p].UploadStored? && !s.requests[p].DeleteCommitted?
    ensures FileAccounted(s', k)
  {
  }

  /** Between `s` and `s'` only request `p` moved, and not to a new upload or a committed delete. */
  ghost predicate OnlyMoved(s: Store, s': Store, p: nat) {
    && p in s.requests
    && s'.issued == s.issued
    && (forall q :: q in s'.requests && q != p ==> q in s.requests && s'.requests[q] == s.requests[q])
    && (forall q :: q in s.requests && q != p ==> q in s'.requests)
    && (p in s'.requests ==>
          && (IsUpload(s'.requests[p]) ==> IsUpload(s.requests[p]) && s'.requests[p].id == s.requests[p].id)
          && (s'.requests[p].DeleteCommitted? ==> s.requests[p].DeleteCommitted? && s.requests[p] == s'.requests[p]))
    && (forall l :: l in s.locks && s.locks[l] != p ==> l in s'.locks && s'.locks[l] == s.locks[l])
  }

  /** Such a step that leaves rows and files alone leaves rows and the other requests as they were. */
  lemma OthersUnmoved(h: Hashing, s: Store, s': Store, p: nat)
    requires Valid(h, s) && OnlyMoved(s, s', p) && s'.rows == s.rows && s'.files == s.files
    ensures RowsOk(h, s') && OneOwner(s')
    ensures forall q :: q in s'.requests && q != p ==> RequestOk(h, s', q, s'.requests[q])
  {
    forall i | i in s'.rows
      ensures RowOk(h, s', s'.rows[i])
    {
      assert RowOk(h, s, s.rows[i]);
    }
    assert RowsOk(h, s') by {
      forall i, j | i in s'.rows && j in s'.rows && IsDuplicate(s', i, s'.rows[j].tenant, s'.rows[j].checksum)
        ensures s'.rows[i].key == s'.rows[j].key
      {
        assert IsDuplicate(s, i, s.rows[j].tenant, s.rows[j].checksum);
      }
    }
    forall q | q in s'.requests && q != p
      ensures RequestOk(h, s', q, s'.requests[q])
    {
      OtherUnmoved(h, s, s', p, q);
    }
  }

  lemma OtherUnmoved(h: Hashing, s: Store, s': Store, p: nat, q: nat)
    requires Valid(h, s) && OnlyMoved(s, s', p) && s'.rows == s.rows && s'.files == s.files
    requires q in s'.requests && q != p
    ensures RequestOk(h, s', q, s'.requests[q])
  {
    var r := s.requests[q];
    assert RequestOk(h, s, q, r);
    if IsUpload(r) {
      assert Unreferenced(s', r.id);
      if r.UploadKeyed? || r.UploadStored? {
        SameDuplicates(s, s', r.tenant, Digest(h, r.bytes), r.key);
      }
    }
    if r.DeleteCounted? {
      assert Sharers(s', r.row.tenant, r.row.key, r.id) == Sharers(s, r.row.tenant, r.row.key, r.id);
    }
  }

  lemma SameDuplicates(s: Store, s': Store, tenant: Uuid, c: Checksum, key: Uuid)
    requires s'.rows == s.rows
    ensures NoDuplicate(s', tenant, c) == NoDuplicate(s, tenant, c)
    ensures KeyedBy(s', tenant, c, key) == KeyedBy(s, tenant, c, key)
  {
    assert forall i :: IsDuplicate(s', i, tenant, c) == IsDuplicate(s, i, tenant, c);
  }

  /** Files stay accounted for when only `p` moved and `p` answered for none of them. */
  lemma FilesUnmoved(h: Hashing, s: Store, s': Store, p: nat)
    requires Valid(h, s) && OnlyMoved(s, s', p) && s'.rows == s.rows && s'.files == s.files && s.leaked <= s'.leaked
    requires s.requests[p].UploadStored? && s.requests[p].key == s.requests[p].id ==> s.requests[p].key in s'.leaked
    requires s.requests[p].DeleteCommitted? && s.requests[p].last ==> s.requests[p].key in s'.leaked
    ensures forall k :: k in s'.files ==> FileAccounted(s', k)
  {
    forall k | k in s'.files
      ensures FileAccounted(s', k)
    {
      assert FileAccounted(s, k);
      if i :| i in s.rows && s.rows[i].key == k {
        assert s'.rows[i].key == k;
      } else if q :| q in s.requests && s.requests[q].UploadStored? && s.requests[q].id == s.requests[q].key == k {
        assert q != p ==> s'.requests[q] == s.requests[q];
      } else if q :| q in s.requests && s.requests[q].DeleteCommitted? && s.requests[q].last && s.requests[q].key == k {
        assert q != p ==> s'.requests[q] == s.requests[q];
      }
    }
  }

  lemma StartDeleteKeeps(h: Hashing, s: Store, p: nat, target: Uuid)
    requires Valid(h, s) && p !in s.requests && target in s.rows
    ensures Valid(h, Deleting(s, p, target))
  {
    var s' := Deleting(s, p, target);
    RowKeysStored(h, s);
    SameRowsOk(h, s, s');
    forall q | q in s'.requests
      ensures RequestOk(h, s', q, s'.requests[q])
    {
      if q == p {
        StartDeleteOwn(h, s, p, target);
      } else {
        StartDeleteOther(h, s, s', p, q);
      }
    }
    forall k | k in s'.files
      ensures FileAccounted(s', k)
    {
      assert FileAccounted(s, k);
      StillAccounted(s, s', p, k);
    }
  }

  lemma StartDeleteOwn(h: Hashing, s: Store, p: nat, target: Uuid)
    requires Valid(h, s) && p !in s.requests && target in s.rows
    ensures RequestOk(h, Deleting(s, p, target), p, DeleteRead(target, s.rows[target]))
  {
    assert RowOk(h, s, s.rows[target]);
    forall x | x in s.requests && IsUpload(s.requests[x])
      ensures s.requests[x].id != s.rows[target].key && s.requests[x].id != target
    {
      assert RequestOk(h, s, x, s.requests[x]);
    }
  }

  lemma StartDeleteOther(h: Hashing, s: Store, s': Store, p: nat, q: nat)
    requires Valid(h, s) && p !in s.requests && q in s.requests
    requires p in s'.requests && s'.requests[p].DeleteRead? && s' == s.(requests := s.requests[p := s'.requests[p]])
    ensures RequestOk(h, s', q, s'.requests[q])
  {
    var r := s.requests[q];
    assert RequestOk(h, s, q, r);
    if IsUpload(r) {
      assert Unreferenced(s', r.id);
      if r.UploadKeyed? || r.UploadStored? {
        SameDuplicates(s, s', r.tenant, Digest(h, r.bytes), r.key);
      }
    }
    if r.DeleteCounted? {
      assert Sharers(s', r.row.tenant, r.row.key, r.id) == Sharers(s, r.row.tenant, r.row.key, r.id);
    }
  }

  lemma LockKeeps(h: Hashing, s: Store, p: nat)
    requires Valid(h, s) && p in s.requests && (s.requests[p].UploadStarted? || s.requests[p].DeleteRead?)
    ensures Valid(h, Locked(h, s, p))
  {
    var r := s.requests[p];
    var s' := Locked(h, s, p);
    if LockOf(h, ChecksumOf(h, r)) !in s.locks {
      OthersUnmoved(h, s, s', p);
      FilesUnmoved(h, s, s', p);
      LockedIsOk(h, s, p);
    }
  }

  /** The request that got its lock. */
  lemma LockedIsOk(h: Hashing, s: Store, p: nat)
    requires Valid(h, s) && p in s.requests && (s.requests[p].UploadStarted? || s.requests[p].DeleteRead?)
    requires LockOf(h, ChecksumOf(h, s.requests[p])) !in s.locks
    ensures var s' := Locked(h, s, p); RequestOk(h, s', p, s'.requests[p])
  {
    var r, s' := s.requests[p], Locked(h, s, p);
    assert RequestOk(h, s, p, r);
    if r.UploadStarted? {
      assert Unreferenced(s', r.id);
    }
  }

  lemma ChooseKeyKeeps(h: Hashing, s: Store, p: nat, found: Uuid)
    requires Valid(h, s) && p in s.requests && s.requests[p].UploadLocked?
    ensures Valid(h, Keyed(h, s, p, found))
  {
    var r := s.requests[p];
    var s' := Keyed(h, s, p, found);
    assert RequestOk(h, s, p, r);
    if r.UploadLocked? && s' != s {
      OthersUnmoved(h, s, s', p);
      FilesUnmoved(h, s, s', p);
      assert Unreferenced(s', r.id);
      var c := Digest(h, r.bytes);
      if IsDuplicate(s, found, r.tenant, c) {
        assert IsDuplicate(s', found, r.tenant, c);
        assert KeyedBy(s', r.tenant, c, s.rows[found].key);
      } else {
        assert NoDuplicate(s, r.tenant, c);
        SameDuplicates(s, s', r.tenant, c, r.id);
      }
      assert RequestOk(h, s', p, s'.requests[p]);
    }
  }

  lemma CountKeeps(h: Hashing, s: Store, p: nat)
    requires Valid(h, s) && p in s.requests && s.requests[p].DeleteLocked?
    ensures Valid(h, Counted(s, p))
  {
    var s' := Counted(s, p);
    OthersUnmoved(h, s, s', p);
    FilesUnmoved(h, s, s', p);
    CountedIsOk(h, s, p);
  }

  lemma CountedIsOk(h: Hashing, s: Store, p: nat)
    requires Valid(h, s) && p in s.requests && s.requests[p].DeleteLocked?
    ensures var s' := Counted(s, p); RequestOk(h, s', p, s'.requests[p])
  {
    var r, s' := s.requests[p], Counted(s, p);
    assert RequestOk(h, s, p, r);
    assert Sharers(s', r.row.tenant, r.row.key, r.id) == Sharers(s, r.row.tenant, r.row.key, r.id);
  }

  /** What a failure leaves: no request, no lock, perhaps a leak. */
  lemma FailEnds(h: Hashing, s: Store, p: nat)
    requires p in s.requests
    ensures var s' := Failed(h, s, p);
      && s'.rows == s.rows && s'.files == s.files && s'.issued == s.issued && s.leaked <= s'.leaked
      && s'.requests == Without(s.requests, p) && s'.locks == Ended(h, s, p).locks
      && (s.requests[p].UploadStored? && s.requests[p].key == s.requests[p].id ==> s.requests[p].key in s'.leaked)
      && (s.requests[p].DeleteCommitted? && s.requests[p].last ==> s.requests[p].key in s'.leaked)
  {
  }

  lemma FailKeeps(h: Hashing, s: Store, p: nat)
    requires Valid(h, s) && p in s.requests
    ensures Valid(h, Failed(h, s, p))
  {
    var s' := Failed(h, s, p);
    FailEnds(h, s, p);
    EndedMoves(h, s, s', p);
    OthersUnmoved(h, s, s', p);
    FilesUnmoved(h, s, s', p);
  }

  /** Ending a request frees no lock of another. */
  lemma EndedMoves(h: Hashing, s: Store, s': Store, p: nat)
    requires Valid(h, s) && p in s.requests
    requires s'.issued == s.issued && s'.requests == Without(s.requests, p) && s'.locks == Ended(h, s, p).locks
    ensures OnlyMoved(s, s', p)
  {
    assert RequestOk(h, s, p, s.requests[p]);
  }

  lemma PutBytesKeeps(h: Hashing, s: Store, p: nat)
    requires Valid(h, s) && p in s.requests && s.requests[p].UploadKeyed?
    ensures Valid(h, Put(s, p))
  {
    var r := s.requests[p];
    var s' := Put(s, p);
    assert RequestOk(h, s, p, r);
    var moved := s'.(files := s.files);
    OthersUnmoved(h, s, moved, p);
    FilesUnmoved(h, s, moved, p);
    RowKeysStored(h, s);
    SameRowsOk(h, s, s');
    forall q | q in s'.requests
      ensures RequestOk(h, s', q, s'.requests[q])
    {
      PutBytesOther(h, s, moved, s', p, q);
    }
    forall k | k in s'.files
      ensures FileAccounted(s', k)
    {
      if k in moved.files {
        assert FileAccounted(moved, k);
      } else {
        assert s'.requests[p].UploadStored? && s'.requests[p].key == k;
      }
    }
  }

  lemma PutBytesOther(h: Hashing, s: Store, moved: Store, s': Store, p: nat, q: nat)
    requires Valid(h, s) && p in s.requests && s.requests[p].UploadKeyed?
    requires s' == Put(s, p) && moved == s'.(files := s.files)
    requires OneOwner(moved) && q in s'.requests
    requires q != p ==> RequestOk(h, moved, q, moved.requests[q])
    ensures RequestOk(h, s', q, s'.requests[q])
  {
    var r := s'.requests[q];
    assert RequestOk(h, s, p, s.requests[p]);
    if IsUpload(r) {
      if q == p {
        assert Unreferenced(s, r.id);
        SameDuplicates(s, s', r.tenant, Digest(h, r.bytes), r.key);
      } else {
        assert Unreferenced(moved, r.id);
        if r.UploadKeyed? || r.UploadStored? {
          SameDuplicates(moved, s', r.tenant, Digest(h, r.bytes), r.key);
        }
        assert r.id != s.requests[p].id;
      }
      assert Unreferenced(s', r.id);
    }
    if r.DeleteCounted? {
      assert Sharers(s', r.row.tenant, r.row.key, r.id) == Sharers(moved, r.row.tenant, r.row.key, r.id);
    }
  }

  // ----- an upload commits its row -----

  /** The row an upload commits: its key has the right bytes and was issued for it. */
  lemma CommittedRowOk(h: Hashing, s: Store, p: nat)
    requires Valid(h, s) && p in s.requests && s.requests[p].UploadStored?
    ensures var r := s.requests[p]; RowOk(h, s, BlobRow(r.tenant, r.key, Digest(h, r.bytes), r.owner))
  {
    var r := s.requests[p];
    assert RequestOk(h, s, p, r);
    if r.key != r.id {
      var c := Digest(h, r.bytes);
      var i :| IsDuplicate(s, i, r.tenant, c) && s.rows[i].key == r.key;
      assert RowOk(h, s, s.rows[i]);
    }
  }

  lemma CommitUploadRows(h: Hashing, s: Store, p: nat)
    requires Valid(h, s) && p in s.requests && s.requests[p].UploadStored?
    ensures RowsOk(h, RowAdded(h, s, p))
  {
    var r := s.requests[p];
    var s' := RowAdded(h, s, p);
    var c := Digest(h, r.bytes);
    assert RequestOk(h, s, p, r);
    CommittedRowOk(h, s, p);
    forall i | i in s'.rows
      ensures i in s'.issued && RowOk(h, s', s'.rows[i])
    {
      if i != r.id {
        assert RowOk(h, s, s.rows[i]);
      }
    }
    forall i | i in s.rows && IsDuplicate(s, i, r.tenant, c)
      ensures s.rows[i].key == r.key
    {
      if r.key != r.id {
        var j :| IsDuplicate(s, j, r.tenant, c) && s.rows[j].key == r.key;
        assert IsDuplicate(s, i, s.rows[j].tenant, s.rows[j].checksum);
      }
    }
    forall i, j | i in s'.rows && j in s'.rows && IsDuplicate(s', i, s'.rows[j].tenant, s'.rows[j].checksum)
      ensures s'.rows[i].key == s'.rows[j].key
    {
      if i != r.id && j != r.id {
        assert IsDuplicate(s, i, s.rows[j].tenant, s.rows[j].checksum);
      } else if i != r.id {
        assert IsDuplicate(s, i, r.tenant, c);
      } else if j != r.id {
        assert IsDuplicate(s, j, r.tenant, c);
      }
    }
  }

  /** The committed row is not one another request counts on being absent. */
  lemma CommitUploadOther(h: Hashing, s: Store, p: nat, q: nat)
    requires Valid(h, s) && p in s.requests && s.requests[p].UploadStored? && q in s.requests && q != p
    ensures var s' := RowAdded(h, s, p); q in s'.requests && RequestOk(h, s', q, s'.requests[q])
  {
    var s' := RowAdded(h, s, p);
    var r, o := s.requests[p], s.requests[q];
    var c := Digest(h, r.bytes);
    assert RequestOk(h, s, p, r) && RequestOk(h, s, q, o);
    CommittedRowOk(h, s, p);
    if IsUpload(o) {
      assert o.id != r.key by {
        if r.key != r.id {
          var i :| IsDuplicate(s, i, r.tenant, c) && s.rows[i].key == r.key;
        }
      }
      assert Unreferenced(s', o.id);
      if o.UploadKeyed? || o.UploadStored? {
        CommitUploadKeepsKeyed(h, s, p, q);
      }
    } else if o.DeleteCounted? {
      if r.tenant == o.row.tenant && r.key == o.row.key {
        assert s.issued[r.key] == (r.tenant, c);
        Exclusive(h, s, p, q);
      }
      assert Sharers(s', o.row.tenant, o.row.key, o.id) == Sharers(s, o.row.tenant, o.row.key, o.id);
    } else if o.DeleteCommitted? {
      assert o.last ==> o.key != r.key by {
        if r.key != r.id {
          var i :| IsDuplicate(s, i, r.tenant, c) && s.rows[i].key == r.key;
        }
      }
    }
  }

  lemma CommitUploadKeepsKeyed(h: Hashing, s: Store, p: nat, q: nat)
    requires Valid(h, s) && p in s.requests && s.requests[p].UploadStored? && q in s.requests && q != p
    requires s.requests[q].UploadKeyed? || s.requests[q].UploadStored?
    ensures var s' := RowAdded(h, s, p); var o := s.requests[q]; var c := Digest(h, o.bytes);
      if o.key == o.id then NoDuplicate(s', o.tenant, c) else KeyedBy(s', o.tenant, c, o.key)
  {
    var s' := RowAdded(h, s, p);
    var r, o := s.requests[p], s.requests[q];
    var c := Digest(h, o.bytes);
    assert RequestOk(h, s, p, r) && RequestOk(h, s, q, o);
    if Digest(h, r.bytes) == c {
      Exclusive(h, s, p, q);
    }
    if o.key == o.id {
      forall i | i in s'.rows
        ensures !IsDuplicate(s', i, o.tenant, c)
      {
        assert i != r.id ==> !IsDuplicate(s, i, o.tenant, c);
      }
    } else {
      var i :| IsDuplicate(s, i, o.tenant, c) && s.rows[i].key == o.key;
      assert IsDuplicate(s', i, o.tenant, c) && s'.rows[i].key == o.key;
    }
  }

  lemma CommitUploadKeeps(h: Hashing, s: Store, p: nat)
    requires Valid(h, s) && p in s.requests && s.requests[p].UploadStored?
    ensures Valid(h, RowAdded(h, s, p))
  {
    var r := s.requests[p];
    var s' := RowAdded(h, s, p);
    assert RequestOk(h, s, p, r);
    CommitUploadRows(h, s, p);
    forall q | q in s'.requests
      ensures RequestOk(h, s', q, s'.requests[q])
    {
      CommitUploadOther(h, s, p, q);
    }
    forall k | k in s'.files
      ensures FileAccounted(s', k)
    {
      assert FileAccounted(s, k);
      if i :| i in s.rows && s.rows[i].key == k {
        assert s'.rows[i].key == k;
      } else if q :| q in s.requests && s.requests[q].UploadStored? && s.requests[q].id == s.requests[q].key == k {
        if q == p {
          assert s'.rows[r.id].key == k;
        } else {
          assert s'.requests[q] == s.requests[q];
        }
      } else if q :| q in s.requests && s.requests[q].DeleteCommitted? && s.requests[q].last && s.requests[q].key == k {
        assert s'.requests[q] == s.requests[q];
      }
    }
  }

  // ----- a delete commits -----

  /** When the count was 0, no other row of any tenant has the key. */
  lemma CountedAlone(h: Hashing, s: Store, p: nat, i: Uuid)
    requires Valid(h, s) && p in s.requests && s.requests[p].DeleteCounted?
    requires i in s.rows && i != s.requests[p].id && s.rows[i].key == s.requests[p].row.key
    ensures s.requests[p].shared != 0
  {
    var r := s.requests[p];
    assert RequestOk(h, s, p, r) && RowOk(h, s, s.rows[i]);
    assert i in Sharers(s, r.row.tenant, r.row.key, r.id);
  }

  lemma CommitDeleteOther(h: Hashing, s: Store, p: nat, q: nat)
    requires Valid(h, s) && p in s.requests && s.requests[p].DeleteCounted? && q in s.requests && q != p
    ensures var s' := RowDropped(h, s, p); q in s'.requests && RequestOk(h, s', q, s'.requests[q])
  {
    var s' := RowDropped(h, s, p);
    var r, o := s.requests[p], s.requests[q];
    assert RequestOk(h, s, p, r) && RequestOk(h, s, q, o);
    if IsUpload(o) {
      assert Unreferenced(s', o.id);
      if o.UploadKeyed? || o.UploadStored? {
        var c := Digest(h, o.bytes);
        if o.key == o.id {
          forall i | i in s'.rows
            ensures !IsDuplicate(s', i, o.tenant, c)
          {
            assert !IsDuplicate(s, i, o.tenant, c);
          }
        } else {
          var i :| IsDuplicate(s, i, o.tenant, c) && s.rows[i].key == o.key;
          if i == r.id {
            Exclusive(h, s, p, q);
          }
          assert IsDuplicate(s', i, o.tenant, c) && s'.rows[i].key == o.key;
        }
      }
    } else if o.DeleteCounted? {
      if r.id in s.rows && r.row.tenant == o.row.tenant && r.row.key == o.row.key {
        Exclusive(h, s, p, q);
      }
      assert Sharers(s', o.row.tenant, o.row.key, o.id) == Sharers(s, o.row.tenant, o.row.key, o.id);
    }
  }

  lemma CommitDeleteOwn(h: Hashing, s: Store, p: nat)
    requires Valid(h, s) && p in s.requests && s.requests[p].DeleteCounted?
    ensures var s' := RowDropped(h, s, p); p in s'.requests && RequestOk(h, s', p, s'.requests[p])
  {
    var r := s.requests[p];
    var s' := RowDropped(h, s, p);
    assert RequestOk(h, s, p, r);
    forall i | i in s'.rows && r.shared == 0
      ensures s'.rows[i].key != r.row.key
    {
      if s.rows[i].key == r.row.key {
        CountedAlone(h, s, p, i);
      }
    }
  }

  lemma FewerRows(h: Hashing, s: Store, s': Store, id: Uuid)
    requires RowsOk(h, s) && s'.rows == Without(s.rows, id) && s'.files == s.files && s'.issued == s.issued
    ensures RowsOk(h, s')
  {
    forall i | i in s'.rows
      ensures RowOk(h, s', s'.rows[i])
    {
      assert RowOk(h, s, s.rows[i]);
    }
    forall i, j | i in s'.rows && j in s'.rows && IsDuplicate(s', i, s'.rows[j].tenant, s'.rows[j].checksum)
      ensures s'.rows[i].key == s'.rows[j].key
    {
      assert IsDuplicate(s, i, s.rows[j].tenant, s.rows[j].checksum);
    }
  }

  lemma CommitDeleteKeeps(h: Hashing, s: Store, p: nat)
    requires Valid(h, s) && p in s.requests && s.requests[p].DeleteCounted?
    ensures Valid(h, RowDropped(h, s, p))
  {
    var s' := RowDropped(h, s, p);
    forall q | q in s'.requests
      ensures RequestOk(h, s', q, s'.requests[q])
    {
      if q != p {
        CommitDeleteOther(h, s, p, q);
      } else {
        CommitDeleteOwn(h, s, p);
      }
    }
    FewerRows(h, s, s', s.requests[p].id);
    forall k | k in s'.files
      ensures FileAccounted(s', k)
    {
      CommitDeleteAccounts(h, s, p, k);
    }
    OwnersAfterDelete(h, s, p);
  }

  lemma OwnersAfterDelete(h: Hashing, s: Store, p: nat)
    requires OneOwner(s) && p in s.requests && s.requests[p].DeleteCounted?
    ensures OneOwner(RowDropped(h, s, p))
  {
  }

  lemma CommitDeleteAccounts(h: Hashing, s: Store, p: nat, k: Uuid)
    requires Valid(h, s) && p in s.requests && s.requests[p].DeleteCounted? && k in s.files
    ensures FileAccounted(RowDropped(h, s, p), k)
  {
    var r := s.requests[p];
    var s' := RowDropped(h, s, p);
    assert RequestOk(h, s, p, r) && FileAccounted(s, k);
    if i :| i in s.rows && s.rows[i].key == k {
      if i != r.id {
        assert s'.rows[i].key == k;
      } else if r.shared == 0 {
        assert s'.requests[p].DeleteCommitted? && s'.requests[p].last && s'.requests[p].key == k;
      } else {
        var j :| j in Sharers(s, r.row.tenant, r.row.key, r.id);
        assert s'.rows[j].key == k;
      }
    } else if q :| q in s.requests && s.requests[q].UploadStored? && s.requests[q].id == s.requests[q].key == k {
      assert s'.requests[q] == s.requests[q];
    } else if q :| q in s.requests && s.requests[q].DeleteCommitted? && s.requests[q].last && s.requests[q].key == k {
      assert s'.requests[q] == s.requests[q];
    }
  }

  // ----- an unlink after commit -----

  lemma UnlinkKeeps(h: Hashing, s: Store, p: nat)
    requires Valid(h, s) && p in s.requests && s.requests[p].DeleteCommitted?
    ensures Valid(h, Unlinked(s, p))
  {
    var r := s.requests[p];
    var s' := Unlinked(s, p);
    assert RequestOk(h, s, p, r);
    var moved := s'.(files := s.files, leaked := s.leaked + {r.key});
    EndedMoves(h, s, moved, p);
    OthersUnmoved(h, s, moved, p);
    FilesUnmoved(h, s, moved, p);
    RowKeysStored(h, s);
    SameRowsOk(h, s, s');
    forall q | q in s'.requests
      ensures RequestOk(h, s', q, s'.requests[q])
    {
      assert RequestOk(h, s, q, s.requests[q]);
      UnlinkOther(h, s, moved, s', p, q);
    }
    forall k | k in s'.files
      ensures FileAccounted(s', k)
    {
      UnlinkAccounts(h, s, s', p, k);
    }
  }

  lemma UnlinkOther(h: Hashing, s: Store, moved: Store, s': Store, p: nat, q: nat)
    requires p in s.requests && q in s.requests && p != q && s.requests[p].DeleteCommitted?
    requires RequestOk(h, s, q, s.requests[q])
    requires s' == Unlinked(s, p) && moved == s'.(files := s.files, leaked := s.leaked + {s.requests[p].key})
    requires RequestOk(h, moved, q, moved.requests[q])
    ensures RequestOk(h, s', q, s'.requests[q])
  {
    var o := s.requests[q];
    if IsUpload(o) {
      assert Unreferenced(s, o.id) && Unreferenced(s', o.id);
      if o.UploadKeyed? || o.UploadStored? {
        SameDuplicates(moved, s', o.tenant, Digest(h, o.bytes), o.key);
      }
    }
    if o.DeleteCounted? {
      assert Sharers(s', o.row.tenant, o.row.key, o.id) == Sharers(moved, o.row.tenant, o.row.key, o.id);
    }
  }

  lemma UnlinkAccounts(h: Hashing, s: Store, s': Store, p: nat, k: Uuid)
    requires Valid(h, s) && p in s.requests && s.requests[p].DeleteCommitted?
    requires s' == Unlinked(s, p) && k in s'.files
    ensures FileAccounted(s', k)
  {
    assert FileAccounted(s, k);
    if i :| i in s.rows && s.rows[i].key == k {
      assert s'.rows[i].key == k;
    } else if q :| q in s.requests && s.requests[q].UploadStored? && s.requests[q].id == s.requests[q].key == k {
      assert s'.requests[q] == s.requests[q];
    } else if q :| q in s.requests && s.requests[q].DeleteCommitted? && s.requests[q].last && s.requests[q].key == k {
      assert q != p;
      assert s'.requests[q] == s.requests[q];
    }
  }

  lemma BeginKeepsValid(h: Hashing, s: Store, p: nat, a: Action)
    requires Valid(h, s) && p !in s.requests
    ensures Valid(h, Begin(h, s, p, a))
  {
    if a.StartUpload? && a.id !in s.issued {
      StartUploadKeeps(h, s, p, a.id, a.tenant, a.owner, a.bytes);
    } else if a.StartDelete? && a.target in s.rows {
      StartDeleteKeeps(h, s, p, a.target);
    }
  }

  lemma ContinueKeepsValid(h: Hashing, s: Store, p: nat, a: Action)
    requires Valid(h, s) && p in s.requests
    ensures Valid(h, Continue(h, s, p, a))
  {
    var r := s.requests[p];
    match a {
      case Lock =>
        if r.UploadStarted? || r.DeleteRead? {
          LockKeeps(h, s, p);
        }
      case ChooseKey(found) =>
        if r.UploadLocked? {
          ChooseKeyKeeps(h, s, p, found);
        }
      case PutBytes =>
        if r.UploadKeyed? {
          PutBytesKeeps(h, s, p);
        }
      case Count =>
        if r.DeleteLocked? {
          CountKeeps(h, s, p);
        }
      case Commit =>
        if r.UploadStored? {
          CommitUploadKeeps(h, s, p);
        } else if r.DeleteCounted? {
          CommitDeleteKeeps(h, s, p);
        }
      case Unlink =>
        if r.DeleteCommitted? {
          UnlinkKeeps(h, s, p);
        }
      case Fail => FailKeeps(h, s, p);
      case _ =>
    }
  }

  lemma StepKeepsValid(h: Hashing, s: Store, p: nat, a: Action)
    requires Valid(h, s)
    ensures Valid(h, Step(h, s, p, a))
  {
    if p in s.requests {
      ContinueKeepsValid(h, s, p, a);
    } else {
      BeginKeepsValid(h, s, p, a);
    }
  }

  // ===== what holds after every run =====

  lemma {:induction false} RunKeepsValid(h: Hashing, s: Store, es: seq<(nat, Action)>)
    requires Valid(h, s)
    ensures Valid(h, Run(h, s, es))
    decreases |es|
  {
    if es != [] {
      StepKeepsValid(h, s, es[0].0, es[0].1);
      RunKeepsValid(h, Step(h, s, es[0].0, es[0].1), es[1..]);
    }
  }

  /**
   Whatever the interleaving: every metadata row has stored bytes with its checksum, all rows
   of one tenant and checksum share one key, and no two tenants share a key.
   */
  lemma EveryRowHasItsBytes(h: Hashing, es: seq<(nat, Action)>, i: Uuid, j: Uuid)
    requires i in Run(h, EMPTY, es).rows && j in Run(h, EMPTY, es).rows
    ensures var s := Run(h, EMPTY, es);
      && s.rows[i].key in s.files && Digest(h, s.files[s.rows[i].key]) == s.rows[i].checksum
      && (s.rows[i].key == s.rows[j].key
        <==> s.rows[i].tenant == s.rows[j].tenant && s.rows[i].checksum == s.rows[j].checksum)
  {
    RunKeepsValid(h, EMPTY, es);
    var s := Run(h, EMPTY, es);
    assert RowOk(h, s, s.rows[i]) && RowOk(h, s, s.rows[j]);
    assert s.rows[i].tenant == s.rows[j].tenant && s.rows[i].checksum == s.rows[j].checksum ==>
      IsDuplicate(s, i, s.rows[j].tenant, s.rows[j].checksum);
  }

  function ReferencedKeys(s: Store): set<Uuid> {
    set i | i in s.rows :: s.rows[i].key
  }

  /** With no request under way, the stored keys are the referenced ones and what leaked. */
  lemma QuietStoreIsExact(h: Hashing, es: seq<(nat, Action)>)
    requires Run(h, EMPTY, es).requests == map[]
    ensures var s := Run(h, EMPTY, es);
      ReferencedKeys(s) <= s.files.Keys <= ReferencedKeys(s) + s.leaked
    ensures var s := Run(h, EMPTY, es); s.leaked == {} ==> s.files.Keys == ReferencedKeys(s)
  {
    RunKeepsValid(h, EMPTY, es);
    var s := Run(h, EMPTY, es);
    forall k | k in s.files.Keys
      ensures k in ReferencedKeys(s) + s.leaked
    {
      assert FileAccounted(s, k);
      if i :| i in s.rows && s.rows[i].key == k {
        assert s.rows[i].key in ReferencedKeys(s);
      }
    }
    forall k | k in ReferencedKeys(s)
      ensures k in s.files.Keys
    {
      var i :| i in s.rows && s.rows[i].key == k;
      assert RowOk(h, s, s.rows[i]);
    }
  }

  ghost predicate Failing(es: seq<(nat, Action)>) {
    exists e :: e in es && e.1.Fail?
  }

  /** Only a failure leaks. */
  lemma {:induction false} OnlyFailuresLeak(h: Hashing, s: Store, es: seq<(nat, Action)>)
    requires !Failing(es)
    ensures Run(h, s, es).leaked == s.leaked
    decreases |es|
  {
    if es != [] {
      assert es[0] in es;
      assert forall e :: e in es[1..] ==> e in es;
      OnlyFailuresLeak(h, Step(h, s, es[0].0, es[0].1), es[1..]);
    }
  }

  /** Uploads and deletes that all finish leave exactly the referenced bytes. */
  lemma FinishedRequestsLeakNothing(h: Hashing, es: seq<(nat, Action)>)
    requires Run(h, EMPTY, es).requests == map[] && !Failing(es)
    ensures var s := Run(h, EMPTY, es); s.files.Keys == ReferencedKeys(s)
  {
    OnlyFailuresLeak(h, EMPTY, es);
    QuietStoreIsExact(h, es);
  }

  // ===== the two handlers, run on their own =====

  function UploadSteps(p: nat, id: Uuid, tenant: Uuid, owner: Uuid, bytes: Bytes, found: Uuid): seq<(nat, Action)> {
    [(p, StartUpload(id, tenant, owner, bytes)), (p, Lock), (p, ChooseKey(found)), (p, PutBytes), (p, Commit)]
  }

  function DeleteSteps(p: nat, target: Uuid, tenant: Uuid, user: Uuid, superuser: bool): seq<(nat, Action)> {
    [(p, StartDelete(target, tenant, user, superuser)), (p, Lock), (p, Count), (p, Commit), (p, Unlink)]
  }

  lemma RunOfFive(h: Hashing, s: Store, es: seq<(nat, Action)>)
    requires |es| == 5
    ensures var s1 := Step(h, s, es[0].0, es[0].1);
      var s2 := Step(h, s1, es[1].0, es[1].1);
      var s3 := Step(h, s2, es[2].0, es[2].1);
      var s4 := Step(h, s3, es[3].0, es[3].1);
      Run(h, s, es) == Step(h, s4, es[4].0, es[4].1)
  {
    var s1 := Step(h, s, es[0].0, es[0].1);
    var s2 := Step(h, s1, es[1].0, es[1].1);
    var s3 := Step(h, s2, es[2].0, es[2].1);
    var s4 := Step(h, s3, es[3].0, es[3].1);
    var t1 := es[1..];
    var t2 := t1[1..];
    var t3 := t2[1..];
    var t4 := t3[1..];
    assert t4[1..] == [];
    assert Run(h, s4, t4) == Run(h, Step(h, s4, t4[0].0, t4[0].1), t4[1..]);
    assert Run(h, s3, t3) == Run(h, s4, t4);
    assert Run(h, s2, t2) == Run(h, s3, t3);
  }

  /** What a lone upload leaves, `found` being the row its lookup returned, if any. */
  function AfterUpload(
      h: Hashing, s: Store, id: Uuid, tenant: Uuid, owner: Uuid, bytes: Bytes, found: Option<Uuid>): Store
    requires found.Some? ==> found.value in s.rows
  {
    var key := if found.Some? then s.rows[found.value].key else id;
    s.(rows := s.rows[id := BlobRow(tenant, key, Digest(h, bytes), owner)],
       files := if found.Some? then s.files else s.files[id := bytes],
       issued := s.issued[id := (tenant, Digest(h, bytes))])
  }

  function AfterDelete(s: Store, id: Uuid, tenant: Uuid, user: Uuid, superuser: bool): Store {
    if id in s.rows && MayDelete(s.rows[id], tenant, user, superuser)
    then s.(rows := Without(s.rows, id),
            files := if Sharers(s, tenant, s.rows[id].key, id) == {} then Without(s.files, s.rows[id].key) else s.files)
    else s
  }

  /** The lookup: a duplicate if there is one. */
  ghost predicate IsLookup(h: Hashing, s: Store, tenant: Uuid, bytes: Bytes, found: Option<Uuid>) {
    match found
    case Some(i) => IsDuplicate(s, i, tenant, Digest(h, bytes))
    case None => NoDuplicate(s, tenant, Digest(h, bytes))
  }

  class BlobStore {
    const hashing: Hashing
    var rows: map<Uuid, BlobRow>
    var files: map<Uuid, Bytes>
    ghost var issued: map<Uuid, (Uuid, Checksum)>

    constructor (h: Hashing)
      ensures hashing == h && State() == EMPTY
    {
      hashing, rows, files, issued := h, map[], map[], map[];
    }

    ghost function State(): Store
      reads this
    {
      Store(rows, files, map[], map[], issued, {})
    }

    /** Store the bytes once per tenant and checksum; a fresh row for each upload. */
    method Upload(id: Uuid, tenant: Uuid, owner: Uuid, bytes: Bytes) returns (found: Option<Uuid>)
      modifies this
      ensures IsLookup(hashing, old(State()), tenant, bytes, found)
      ensures State() == AfterUpload(hashing, old(State()), id, tenant, owner, bytes, found)
      ensures id in rows && rows[id].tenant == tenant && rows[id].owner == owner
      ensures rows[id].checksum == Digest(hashing, bytes)
      ensures rows - {id} == old(rows) - {id}
      ensures files == if found.Some? then old(files) else old(files)[rows[id].key := bytes]
    {
      var checksum := Digest(hashing, bytes);
      var key := id;
      found := None;
      if i :| i in rows && rows[i].tenant == tenant && rows[i].checksum == checksum {
        key, found := rows[i].key, Some(i);
      } else {
        files := files[key := bytes];
      }
      rows := rows[id := BlobRow(tenant, key, checksum, owner)];
      issued := issued[id := (tenant, checksum)];
    }

    /** Remove a row; its bytes too when no other row of the tenant has the key. */
    method Delete(id: Uuid, tenant: Uuid, user: Uuid, superuser: bool) returns (r: Result<(), Error>)
      modifies this
      ensures State() == AfterDelete(old(State()), id, tenant, user, superuser)
      ensures r == if id !in old(rows) || old(rows)[id].tenant != tenant then Err(NotFound)
                   else if !superuser && old(rows)[id].owner != user then Err(Forbidden) else Ok(())
      ensures rows == if r.Ok? then old(rows) - {id} else old(rows)
      ensures files == old(files)
        || (r.Ok? && files == old(files) - {old(rows)[id].key}
            && forall i :: i in rows && rows[i].tenant == tenant ==> rows[i].key != old(rows)[id].key)
    {
      if id !in rows || rows[id].tenant != tenant {
        return Err(NotFound);
      }
      var row := rows[id];
      if !superuser && row.owner != user {
        return Err(Forbidden);
      }
      ghost var before := State();
      rows := Without(rows, id);
      var sharing := set i | i in rows && rows[i].tenant == tenant && rows[i].key == row.key;
      assert sharing == Sharers(before, tenant, row.key, id);
      if |sharing| == 0 {
        files := Without(files, row.key);
      }
      r := Ok(());
    }
  }

  /** A lone upload is the run of its statements, and leaves one copy of the bytes per tenant and checksum. */
  lemma UploadIsRun(h: Hashing, s: Store, id: Uuid, tenant: Uuid, owner: Uuid, bytes: Bytes, found: Option<Uuid>)
    requires Valid(h, s) && s.requests == map[] && s.locks == map[] && id !in s.issued
    requires IsLookup(h, s, tenant, bytes, found)
    ensures var s' := AfterUpload(h, s, id, tenant, owner, bytes, found);
      && s' == Run(h, s, UploadSteps(0, id, tenant, owner, bytes, if found.Some? then found.value else id))
      && Valid(h, s')
      && s'.rows[id].key in s'.files && Digest(h, s'.files[s'.rows[id].key]) == Digest(h, bytes)
      && s'.files.Keys == s.files.Keys + (if found.Some? then {} else {id})
  {
    FreshIdUnreferenced(h, s, id);
    var f := if found.Some? then found.value else id;
    UploadRuns(h, s, id, tenant, owner, bytes, found, f);
    RunKeepsValid(h, s, UploadSteps(0, id, tenant, owner, bytes, f));
    var s' := AfterUpload(h, s, id, tenant, owner, bytes, found);
    assert RowOk(h, s', s'.rows[id]);
    if found.Some? {
      assert RowOk(h, s, s.rows[found.value]);
    }
  }

  lemma UploadRuns(
      h: Hashing, s: Store, id: Uuid, tenant: Uuid, owner: Uuid, bytes: Bytes, found: Option<Uuid>, f: Uuid)
    requires s.requests == map[] && s.locks == map[] && id !in s.issued && id !in s.rows
    requires IsLookup(h, s, tenant, bytes, found) && f == (if found.Some? then found.value else id)
    requires forall i :: i in s.rows ==> s.rows[i].key != id
    ensures Run(h, s, UploadSteps(0, id, tenant, owner, bytes, f)) == AfterUpload(h, s, id, tenant, owner, bytes, found)
  {
    RunOfFive(h, s, UploadSteps(0, id, tenant, owner, bytes, f));
    var key := if found.Some? then s.rows[found.value].key else id;
    var s2 := UploadLocks(h, s, id, tenant, owner, bytes);
    UploadChoosesKey(h, s, s2, id, tenant, owner, bytes, found, f);
    KeyedUploadFinishes(h, s, Step(h, s2, 0, ChooseKey(f)), id, tenant, owner, bytes, key);
  }

  lemma UploadLocks(h: Hashing, s: Store, id: Uuid, tenant: Uuid, owner: Uuid, bytes: Bytes) returns (s2: Store)
    requires s.requests == map[] && s.locks == map[] && id !in s.issued
    ensures s2 == Step(h, Step(h, s, 0, StartUpload(id, tenant, owner, bytes)), 0, Lock)
    ensures s2 == s.(requests := map[0 := UploadLocked(id, tenant, owner, bytes)],
      locks := map[LockOf(h, Digest(h, bytes)) := 0],
                     issued := s.issued[id := (tenant, Digest(h, bytes))])
  {
    s2 := Step(h, Step(h, s, 0, StartUpload(id, tenant, owner, bytes)), 0, Lock);
  }

  lemma UploadChoosesKey(
      h: Hashing, s: Store, s2: Store, id: Uuid, tenant: Uuid, owner: Uuid, bytes: Bytes, found: Option<Uuid>, f: Uuid)
    requires id !in s.rows && s2.rows == s.rows && s2.requests == map[0 := UploadLocked(id, tenant, owner, bytes)]
    requires IsLookup(h, s, tenant, bytes, found) && f == (if found.Some? then found.value else id)
    ensures Step(h, s2, 0, ChooseKey(f))
      == (var key := if found.Some? then s.rows[found.value].key else id;
          s2.(requests := map[0 := UploadKeyed(id, tenant, owner, bytes, key)]))
  {
    var c := Digest(h, bytes);
    assert forall i :: IsDuplicate(s2, i, tenant, c) == IsDuplicate(s, i, tenant, c);
  }

  lemma KeyedUploadFinishes(
      h: Hashing, s: Store, s3: Store, id: Uuid, tenant: Uuid, owner: Uuid, bytes: Bytes, key: Uuid)
    requires s.requests == map[] && s.locks == map[]
    requires s3 == s.(requests := map[0 := UploadKeyed(id, tenant, owner, bytes, key)],
      locks := map[LockOf(h, Digest(h, bytes)) := 0],
                      issued := s.issued[id := (tenant, Digest(h, bytes))])
    ensures Step(h, Step(h, s3, 0, PutBytes), 0, Commit)
      == s.(rows := s.rows[id := BlobRow(tenant, key, Digest(h, bytes), owner)],
            files := if key == id then s.files[id := bytes] else s.files,
            issued := s.issued[id := (tenant, Digest(h, bytes))])
  {
    var s4 := Step(h, s3, 0, PutBytes);
    assert s4.requests == map[0 := UploadStored(id, tenant, owner, bytes, key)];
    var s5 := Step(h, s4, 0, Commit);
    assert s5.requests == map[] && s5.locks == map[];
  }

  /** A lone delete is the run of its statements, and takes the bytes exactly with their last row. */
  lemma DeleteIsRun(h: Hashing, s: Store, id: Uuid, tenant: Uuid, user: Uuid, superuser: bool)
    requires Valid(h, s) && s.requests == map[] && s.locks == map[]
    ensures var s' := AfterDelete(s, id, tenant, user, superuser);
      && s' == Run(h, s, DeleteSteps(0, id, tenant, user, superuser))
      && Valid(h, s')
      && (id in s.rows && id !in s'.rows ==>
            forall k :: k in s.files ==>
              (k in s'.files <==> !(k == s.rows[id].key && forall i :: i in s'.rows ==> s'.rows[i].key != k)))
  {
    DeleteRuns(h, s, id, tenant, user, superuser);
    RunKeepsValid(h, s, DeleteSteps(0, id, tenant, user, superuser));
    if id in s.rows {
      SharersHaveTheKey(h, s, id);
    }
  }

  /** Every row with a row's key is of its tenant, so counting in the tenant counts all. */
  lemma SharersHaveTheKey(h: Hashing, s: Store, id: Uuid)
    requires Valid(h, s) && id in s.rows
    ensures forall i :: i in s.rows && i != id && s.rows[i].key == s.rows[id].key ==>
      i in Sharers(s, s.rows[id].tenant, s.rows[id].key, id)
  {
    forall i | i in s.rows && s.rows[i].key == s.rows[id].key
      ensures s.rows[i].tenant == s.rows[id].tenant
    {
      assert RowOk(h, s, s.rows[i]) && RowOk(h, s, s.rows[id]);
    }
  }

  lemma DeleteRuns(h: Hashing, s: Store, id: Uuid, tenant: Uuid, user: Uuid, superuser: bool)
    requires s.requests == map[] && s.locks == map[]
    ensures Run(h, s, DeleteSteps(0, id, tenant, user, superuser)) == AfterDelete(s, id, tenant, user, superuser)
  {
    RunOfFive(h, s, DeleteSteps(0, id, tenant, user, superuser));
    if id in s.rows && MayDelete(s.rows[id], tenant, user, superuser) {
      var row := s.rows[id];
      var s1 := Deleting(s, 0, id);
      assert s1 == s.(requests := map[0 := DeleteRead(id, row)]);
      LoneDelete(h, s, s1, row, id);
    }
  }

  lemma LoneDelete(h: Hashing, s: Store, s1: Store, row: BlobRow, id: Uuid)
    requires s.requests == map[] && s.locks == map[]
    requires s1 == s.(requests := map[0 := DeleteRead(id, row)])
    ensures Step(h, Step(h, Step(h, Step(h, s1, 0, Lock), 0, Count), 0, Commit), 0, Unlink)
      == s.(rows := Without(s.rows, id),
        files := if Sharers(s, row.tenant, row.key, id) == {} then Without(s.files, row.key) else s.files)
  {
    var s2 := Step(h, s1, 0, Lock);
    assert s2 == s.(requests := map[0 := DeleteLocked(id, row)], locks := map[LockOf(h, row.checksum) := 0]);
    var s3 := Step(h, s2, 0, Count);
    assert Sharers(s2, row.tenant, row.key, id) == Sharers(s, row.tenant, row.key, id);
    var r3 := DeleteCounted(id, row, |Sharers(s, row.tenant, row.key, id)|);
    CountedDeleteFinishes(h, s, s3, row, r3);
  }

  lemma CountedDeleteFinishes(h: Hashing, s: Store, s3: Store, row: BlobRow, r3: Request)
    requires s.requests == map[] && s.locks == map[]
    requires r3.DeleteCounted? && r3.row == row
    requires s3 == s.(requests := map[0 := r3], locks := map[LockOf(h, row.checksum) := 0])
    ensures Step(h, Step(h, s3, 0, Commit), 0, Unlink)
      == s.(rows := Without(s.rows, r3.id), files := if r3.shared == 0 then Without(s.files, row.key) else s.files)
  {
    CountedDeleteCommits(h, s, s3, row, r3);
    LastUnlinks(h, s, Step(h, s3, 0, Commit), row.key, r3.shared == 0);
  }

  lemma OneTaken<K, V>(k: K, v: V)
    ensures Without(map[k := v], k) == map[]
  {
  }

  lemma CountedDeleteCommits(h: Hashing, s: Store, s3: Store, row: BlobRow, r3: Request)
    requires r3.DeleteCounted? && r3.row == row
    requires s3 == s.(requests := map[0 := r3], locks := map[LockOf(h, row.checksum) := 0])
    ensures Step(h, s3, 0, Commit)
      == s.(rows := Without(s.rows, r3.id), requests := map[0 := DeleteCommitted(row.key, r3.shared == 0)],
        locks := map[])
  {
    OneTaken(LockOf(h, row.checksum), 0);
  }

  lemma LastUnlinks(h: Hashing, s: Store, s4: Store, key: Uuid, last: bool)
    requires s.requests == map[] && s.locks == map[]
    requires s4.requests == map[0 := DeleteCommitted(key, last)] && s4 == s.(rows := s4.rows, requests := s4.requests)
    ensures Step(h, s4, 0, Unlink) == s.(rows := s4.rows, files := if last then Without(s.files, key) else s.files)
  {
    OneTaken(0, DeleteCommitted(key, last));
  }
}
