/** Who puts attachments there and who takes them away, over every interleaving. */
module BlobOwners {
  import opened Common
  import opened Blobs

  /** The request is deleting row `i`. */
  predicate IsDeleting(r: Request, i: Uuid) {
    (r.DeleteRead? || r.DeleteLocked? || r.DeleteCounted?) && r.id == i
  }

  ghost predicate NoneDeleting(s: Store, i: Uuid) {
    forall q :: q in s.requests ==> !IsDeleting(s.requests[q], i)
  }

  /** The statement asks for row `i` to be deleted, for its owner or a superuser of its tenant. */
  predicate AsksToDelete(a: Action, i: Uuid, row: BlobRow) {
    && a.StartDelete? && a.target == i && a.tenant == row.tenant && (a.superuser || a.user == row.owner)
  }

  /** A delete gets under way iff the row is there and belongs to the user or the superuser's tenant. */
  lemma DeleteStartsIff(h: Hashing, s: Store, p: nat, target: Uuid, tenant: Uuid, user: Uuid, superuser: bool)
    requires p !in s.requests
    ensures var a := StartDelete(target, tenant, user, superuser);
      Step(h, s, p, a) ==
      if target in s.rows && AsksToDelete(a, target, s.rows[target])
      then s.(requests := s.requests[p := DeleteRead(target, s.rows[target])]) else s
  {
  }

  lemma RowOutlivesStep(h: Hashing, s: Store, p: nat, a: Action, i: Uuid)
    requires Valid(h, s) && i in s.rows && NoneDeleting(s, i) && !AsksToDelete(a, i, s.rows[i])
    ensures var s' := Step(h, s, p, a); i in s'.rows && s'.rows[i] == s.rows[i] && NoneDeleting(s', i)
  {
    assert p in s.requests ==> RequestOk(h, s, p, s.requests[p]);
  }

  /** A row stays as it is, whatever else goes on, until its owner or a superuser of its tenant asks to delete it. */
  lemma {:induction false} DeletedByOwner(h: Hashing, s: Store, es: seq<(nat, Action)>, i: Uuid)
    requires Valid(h, s) && i in s.rows && NoneDeleting(s, i)
    requires forall k :: 0 <= k < |es| ==> !AsksToDelete(es[k].1, i, s.rows[i])
    ensures var s' := Run(h, s, es); i in s'.rows && s'.rows[i] == s.rows[i]
    decreases |es|
  {
    if es != [] {
      RowOutlivesStep(h, s, es[0].0, es[0].1, i);
      StepKeepsValid(h, s, es[0].0, es[0].1);
      DeletedByOwner(h, Step(h, s, es[0].0, es[0].1), es[1..], i);
    }
  }

  /** The request is an upload of row `i`. */
  predicate IsBringing(h: Hashing, r: Request, i: Uuid, tenant: Uuid, owner: Uuid, c: Checksum) {
    && (r.UploadStarted? || r.UploadLocked? || r.UploadKeyed? || r.UploadStored?)
    && r.id == i && r.tenant == tenant && r.owner == owner && Digest(h, r.bytes) == c
  }

  /** Row `i` is there or on its way, of this tenant, owner and checksum. */
  ghost predicate IsComing(h: Hashing, s: Store, i: Uuid, tenant: Uuid, owner: Uuid, c: Checksum) {
    || (i in s.rows && s.rows[i].tenant == tenant && s.rows[i].owner == owner && s.rows[i].checksum == c)
    || exists q :: q in s.requests && IsBringing(h, s.requests[q], i, tenant, owner, c)
  }

  predicate Uploads(h: Hashing, a: Action, i: Uuid, tenant: Uuid, owner: Uuid, c: Checksum) {
    a.StartUpload? && a.id == i && a.tenant == tenant && a.owner == owner && Digest(h, a.bytes) == c
  }

  lemma OtherRequestsStay(h: Hashing, s: Store, p: nat, a: Action, q: nat)
    requires q != p
    ensures q in Step(h, s, p, a).requests <==> q in s.requests
    ensures q in s.requests ==> Step(h, s, p, a).requests[q] == s.requests[q]
  {
  }

  lemma OwnRequest(h: Hashing, s: Store, p: nat, a: Action, i: Uuid, tenant: Uuid, owner: Uuid, c: Checksum)
    requires p in Step(h, s, p, a).requests && IsBringing(h, Step(h, s, p, a).requests[p], i, tenant, owner, c)
    ensures Uploads(h, a, i, tenant, owner, c) || (p in s.requests && IsBringing(h, s.requests[p], i, tenant, owner, c))
  {
  }

  lemma NewRow(h: Hashing, s: Store, p: nat, a: Action, i: Uuid)
    requires i in Step(h, s, p, a).rows
    ensures var row := Step(h, s, p, a).rows[i];
      || (i in s.rows && s.rows[i] == row)
      || (p in s.requests && IsBringing(h, s.requests[p], i, row.tenant, row.owner, row.checksum))
  {
  }

  lemma ComesFromStep(h: Hashing, s: Store, p: nat, a: Action, i: Uuid, tenant: Uuid, owner: Uuid, c: Checksum)
    requires IsComing(h, Step(h, s, p, a), i, tenant, owner, c)
    ensures IsComing(h, s, i, tenant, owner, c) || Uploads(h, a, i, tenant, owner, c)
  {
    var s' := Step(h, s, p, a);
    if q :| q in s'.requests && IsBringing(h, s'.requests[q], i, tenant, owner, c) {
      if q == p {
        OwnRequest(h, s, p, a, i, tenant, owner, c);
      } else {
        OtherRequestsStay(h, s, p, a, q);
      }
    } else {
      NewRow(h, s, p, a, i);
    }
  }

  lemma {:induction false} ComesFromRun(
      h: Hashing, s: Store, es: seq<(nat, Action)>, i: Uuid, tenant: Uuid, owner: Uuid, c: Checksum)
    requires IsComing(h, Run(h, s, es), i, tenant, owner, c) && !IsComing(h, s, i, tenant, owner, c)
    ensures exists k :: 0 <= k < |es| && Uploads(h, es[k].1, i, tenant, owner, c)
    decreases |es|
  {
    var s' := Step(h, s, es[0].0, es[0].1);
    if IsComing(h, s', i, tenant, owner, c) {
      ComesFromStep(h, s, es[0].0, es[0].1, i, tenant, owner, c);
      assert Uploads(h, es[0].1, i, tenant, owner, c);
    } else {
      ComesFromRun(h, s', es[1..], i, tenant, owner, c);
      var k :| 0 <= k < |es[1..]| && Uploads(h, es[1..][k].1, i, tenant, owner, c);
      assert es[k + 1] == es[1..][k];
    }
  }

  /** Over every run each row was uploaded under its id, by its owner in its tenant, and has its bytes' checksum. */
  lemma RowsWereUploaded(h: Hashing, es: seq<(nat, Action)>, i: Uuid)
    requires i in Run(h, EMPTY, es).rows
    ensures var row := Run(h, EMPTY, es).rows[i];
      exists k :: 0 <= k < |es| && Uploads(h, es[k].1, i, row.tenant, row.owner, row.checksum)
  {
    var row := Run(h, EMPTY, es).rows[i];
    ComesFromRun(h, EMPTY, es, i, row.tenant, row.owner, row.checksum);
  }

  /** Bytes leak only when a request fails that had stored new ones, or was about to take the last ones away. */
  lemma LeaksExactly(h: Hashing, s: Store, p: nat, a: Action)
    ensures Step(h, s, p, a).leaked == s.leaked +
      if p in s.requests && a.Fail? && s.requests[p].UploadStored? && s.requests[p].key == s.requests[p].id
      then {s.requests[p].key}
      else if p in s.requests && a.Fail? && s.requests[p].DeleteCommitted? && s.requests[p].last
      then {s.requests[p].key}
      else {}
  {
  }
}
