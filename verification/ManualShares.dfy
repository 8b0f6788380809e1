/** What a share given by hand grants, over every run of the sharing tables. */
module ManualShares {
  import opened Common
  import opened Sharing
  import opened SharingMachine
  import Readers
  import ReadAccess

  /** The event takes the share of `record` for `principal` away or replaces it. */
  predicate Touches(e: Event, record: Uuid, principal: Uuid) {
    match e
    case DeleteRecord(r) => r == record
    case Unshare(r, p) => r == record && p == principal
    case ShareManually(r, p, _) => r == record && p == principal
    case _ => false
  }

  predicate IsGiven(db: Db, record: Uuid, principal: Uuid, access: Access) {
    var key := (record, principal);
    key in db.shares && db.shares[key].rule.None? && db.shares[key].access == access
  }

  /** Nothing but that changes the row. */
  lemma GivenStays(fx: Functions, db: Db, e: Event, record: Uuid, principal: Uuid, access: Access)
    requires IsGiven(db, record, principal, access) && !Touches(e, record, principal)
    ensures IsGiven(Step(fx, db, e), record, principal, access)
  {
    var key := (record, principal);
    if RuleEvent(e) {
      ManualUntouched(fx, db, e, key);
    } else if e.WriteRecord? {
      RecomputedExactly(fx, db.rules, db.shares, e.record, e.entity, e.data, key);
    }
  }

  lemma {:induction false} GivenOverRun(
      fx: Functions, db: Db, es: seq<Event>, record: Uuid, principal: Uuid, access: Access)
    requires IsGiven(db, record, principal, access)
    requires forall i :: 0 <= i < |es| ==> !Touches(es[i], record, principal)
    ensures IsGiven(Run(fx, db, es), record, principal, access)
    decreases |es|
  {
    if es != [] {
      GivenStays(fx, db, es[0], record, principal, access);
      GivenOverRun(fx, Step(fx, db, es[0]), es[1..], record, principal, access);
    }
  }

  /** The directory has the machine's rules and shares. */
  ghost predicate Holds(d: Readers.Directory, db: Db) {
    d.rules == db.rules && d.shares == db.shares
  }

  /** Whoever a share is given to may read, and write if it is for writing. */
  lemma GivenReads(
      d: Readers.Directory, viewer: Uuid, entity: string, record: Uuid, owner: Uuid, principal: Uuid)
    requires viewer in d.users && ReadAccess.IsPrincipal(d, viewer, principal)
    requires ReadAccess.Gives(d, record, principal)
    ensures Readers.ReadPredicate(d, Readers.ScopeFor(d, viewer, entity), record, owner)
    ensures d.shares[(record, principal)].access == Write ==>
      Readers.WritePredicate(d, Readers.ScopeFor(d, viewer, entity), record, owner)
  {
    ReadAccess.ReadableIff(d, viewer, entity, record, owner);
    ReadAccess.WritableIff(d, viewer, entity, record, owner);
  }

  /** No rule holds the place of the share. */
  predicate Free(db: Db, record: Uuid, principal: Uuid) {
    (record, principal) in db.shares ==> db.shares[(record, principal)].rule.None?
  }

  lemma GivenAtOnce(fx: Functions, db: Db, record: Uuid, principal: Uuid, access: Access)
    requires record in db.records && Free(db, record, principal)
    ensures IsGiven(Step(fx, db, ShareManually(record, principal, access)), record, principal, access)
  {
  }

  /**
   A record shared by hand, where no rule holds the place, is readable by the principal, or by
   whoever is then in the principal's team, and writable if shared for writing, whatever happens
   to rules, records and other shares, until the share is given anew or taken back or the record
   is deleted.
   */
  lemma SharedUntilTakenBack(
      fx: Functions, db: Db, record: Uuid, principal: Uuid, access: Access, es: seq<Event>,
      d: Readers.Directory, viewer: Uuid, entity: string, owner: Uuid)
    requires record in db.records && Free(db, record, principal)
    requires forall i :: 0 <= i < |es| ==> !Touches(es[i], record, principal)
    requires Holds(d, Run(fx, Step(fx, db, ShareManually(record, principal, access)), es))
    requires viewer in d.users && ReadAccess.IsPrincipal(d, viewer, principal)
    ensures Readers.ReadPredicate(d, Readers.ScopeFor(d, viewer, entity), record, owner)
    ensures access == Write ==> Readers.WritePredicate(d, Readers.ScopeFor(d, viewer, entity), record, owner)
  {
    var shared := Step(fx, db, ShareManually(record, principal, access));
    GivenAtOnce(fx, db, record, principal, access);
    GivenOverRun(fx, shared, es, record, principal, access);
    GivenReads(d, viewer, entity, record, owner, principal);
  }

  /** Taken back, it gives nothing more. */
  lemma TakenBack(fx: Functions, db: Db, record: Uuid, principal: Uuid, d: Readers.Directory)
    requires Free(db, record, principal) && Holds(d, Step(fx, db, Unshare(record, principal)))
    ensures !ReadAccess.Gives(d, record, principal)
  {
  }

  /** Nor does any share of a deleted record. */
  lemma DeletedGivesNothing(fx: Functions, db: Db, record: Uuid, principal: Uuid, d: Readers.Directory)
    requires record in db.records && Holds(d, Step(fx, db, DeleteRecord(record)))
    ensures !ReadAccess.Gives(d, record, principal)
  {
  }

  /** Giving, taking back and deleting leave every other share as it was. */
  lemma OthersUntouched(fx: Functions, db: Db, e: Event, key: (Uuid, Uuid))
    requires e.DeleteRecord? || e.Unshare? || e.ShareManually?
    requires if e.DeleteRecord? then key.0 != e.record else key != (e.record, e.principal)
    ensures key in Step(fx, db, e).shares <==> key in db.shares
    ensures key in db.shares ==> Step(fx, db, e).shares[key] == db.shares[key]
  {
  }
}
