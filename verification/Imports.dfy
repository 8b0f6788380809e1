/**
 The commit phase of a bulk import: rows were planned and validated; `abort` writes them in one
 transaction, `continue` in chunked transactions with a savepoint per row.
 */
module Imports {
  import opened Common
  import Versions

  const CHUNK := 500

  /** A planned row: its validation errors, and the record it updates if it matched one. */
  datatype Planned = Planned(
    index: nat,
    body: Versions.Patch,
    target: Option<(Uuid, int)>,
    errors: seq<string>)

  datatype RowError = RowError(row: nat, message: string)

  /** One row's write inside a transaction; a failed one may have changed part of its state. */
  datatype Attempt<Db> = Attempt(db: Db, error: Option<string>)

  type Writer<!Db> = (Db, Planned) -> Attempt<Db>

  datatype Report<Db> = Report(db: Db, created: nat, updated: nat, errors: seq<RowError>)

  predicate Clean(p: Planned) {
    p.errors == []
  }

  function Counted<Db>(r: Report<Db>, p: Planned, db: Db): Report<Db> {
    if p.target.Some? then Report(db, r.created, r.updated + 1, r.errors)
    else Report(db, r.created + 1, r.updated, r.errors)
  }

  /** The reference: row after row, skipping invalid rows and leaving out those whose write fails. */
  function RowByRow<Db>(w: Writer<Db>, r: Report<Db>, ps: seq<Planned>): Report<Db> {
    if ps == [] then r
    else
      var before, p := RowByRow(w, r, ps[..|ps| - 1]), ps[|ps| - 1];
      if !Clean(p) then before
      else
        var a := w(before.db, p);
        if a.error.Some? then before.(errors := before.errors + [RowError(p.index, a.error.value)])
        else Counted(before, p, a.db)
  }

  lemma {:induction false} RowByRowInTwo<Db>(w: Writer<Db>, r: Report<Db>, a: seq<Planned>, b: seq<Planned>)
    ensures RowByRow(w, r, a + b) == RowByRow(w, RowByRow(w, r, a), b)
    decreases |b|
  {
    if b == [] {
      assert a + b == a;
    } else {
      assert (a + b)[..|a + b| - 1] == a + b[..|b| - 1];
      RowByRowInTwo(w, r, a, b[..|b| - 1]);
    }
  }

  /** One chunk in one transaction: every row behind its own savepoint. */
  method WriteChunk<Db>(w: Writer<Db>, start: Report<Db>, batch: seq<Planned>) returns (r: Report<Db>)
    ensures r == RowByRow(w, start, batch)
  {
    var tx, created, updated, errors := start.db, start.created, start.updated, start.errors;
    for n := 0 to |batch|
      invariant Report(tx, created, updated, errors) == RowByRow(w, start, batch[..n])
    {
      assert batch[..n + 1][..n] == batch[..n];
      if Clean(batch[n]) {
        var savepoint := tx;
        var attempt := w(tx, batch[n]);
        tx := attempt.db;
        if attempt.error.None? {
          if batch[n].target.Some? {
            updated := updated + 1;
          } else {
            created := created + 1;
          }
        } else {
          tx := savepoint;
          errors := errors + [RowError(batch[n].index, attempt.error.value)];
        }
      }
    }
    assert batch[..|batch|] == batch;
    r := Report(tx, created, updated, errors);
  }

  /** `continue`: whatever the chunk size, the result is the row-by-row one. */
  method WriteInChunks<Db>(w: Writer<Db>, start: Report<Db>, ps: seq<Planned>, size: nat) returns (r: Report<Db>)
    requires size >= 1
    ensures r == RowByRow(w, start, ps)
  {
    r := start;
    var done := 0;
    while done < |ps|
      invariant 0 <= done <= |ps|
      invariant r == RowByRow(w, start, ps[..done])
    {
      var end := if done + size <= |ps| then done + size else |ps|;
      assert ps[..end] == ps[..done] + ps[done..end];
      RowByRowInTwo(w, start, ps[..done], ps[done..end]);
      r := WriteChunk(w, r, ps[done..end]);
      done := end;
    }
    assert ps[..|ps|] == ps;
  }

  // ===== abort =====

  /** Where a batch without savepoints gets to: everything applied, or the first failure. */
  datatype Batch<Db> = Applied(report: Report<Db>) | FailedAt(row: nat, message: string)

  function AllInOne<Db>(w: Writer<Db>, r: Report<Db>, ps: seq<Planned>): Batch<Db> {
    if ps == [] then Applied(r)
    else
      var p := ps[|ps| - 1];
      match AllInOne(w, r, ps[..|ps| - 1])
      case FailedAt(row, message) => FailedAt(row, message)
      case Applied(before) =>
        if !Clean(p) then Applied(before)
        else
          var a := w(before.db, p);
          if a.error.Some? then FailedAt(p.index, a.error.value) else Applied(Counted(before, p, a.db))
  }

  lemma {:induction false} FailureStays<Db>(w: Writer<Db>, r: Report<Db>, ps: seq<Planned>, n: nat)
    requires n <= |ps| && AllInOne(w, r, ps[..n]).FailedAt?
    ensures AllInOne(w, r, ps) == AllInOne(w, r, ps[..n])
    decreases |ps|
  {
    if n == |ps| {
      assert ps[..n] == ps;
    } else {
      assert ps[..|ps| - 1][..n] == ps[..n];
      FailureStays(w, r, ps[..|ps| - 1], n);
    }
  }

  /** What the import reports after `abort`: all rows, or the tables as they were and the failure. */
  function AbortReport<Db>(start: Report<Db>, b: Batch<Db>): Report<Db> {
    match b
    case Applied(r) => r
    case FailedAt(row, message) =>
      Report(start.db, 0, 0, start.errors + [RowError(row, "aborted (nothing written): " + message)])
  }

  method WriteAll<Db>(w: Writer<Db>, start: Report<Db>, ps: seq<Planned>) returns (r: Report<Db>)
    requires start.created == 0 && start.updated == 0
    ensures r == AbortReport(start, AllInOne(w, start, ps))
  {
    var tx, created, updated := start.db, 0, 0;
    for n := 0 to |ps|
      invariant AllInOne(w, start, ps[..n]) == Applied(Report(tx, created, updated, start.errors))
    {
      assert ps[..n + 1][..n] == ps[..n];
      if Clean(ps[n]) {
        var attempt := w(tx, ps[n]);
        if attempt.error.Some? {
          FailureStays(w, start, ps, n + 1);
          return Report(start.db, 0, 0,
            start.errors + [RowError(ps[n].index, "aborted (nothing written): " + attempt.error.value)]);
        }
        tx := attempt.db;
        if ps[n].target.Some? {
          updated := updated + 1;
        } else {
          created := created + 1;
        }
      }
    }
    assert ps[..|ps|] == ps;
    r := Report(tx, created, updated, start.errors);
  }

  // ===== how the modes relate, and what the counts say =====

  /**
   The two modes agree: `abort` goes through iff `continue` would record no failure, and then
   they end alike; otherwise `abort` fails on the first row that `continue` would record.
   */
  lemma {:induction false} AbortIsContinueWithoutFailures<Db>(w: Writer<Db>, start: Report<Db>, ps: seq<Planned>)
    ensures var r := RowByRow(w, start, ps);
      && start.errors <= r.errors
      && (AllInOne(w, start, ps).Applied? <==> r.errors == start.errors)
      && (AllInOne(w, start, ps).Applied? ==> AllInOne(w, start, ps).report == r)
      && (AllInOne(w, start, ps).FailedAt? ==>
            |start.errors| < |r.errors|
              && r.errors[|start.errors|] == RowError(AllInOne(w, start, ps).row, AllInOne(w, start, ps).message))
    decreases |ps|
  {
    if ps != [] {
      AbortIsContinueWithoutFailures(w, start, ps[..|ps| - 1]);
    }
  }

  function WouldCreate(ps: seq<Planned>): nat {
    if ps == [] then 0
    else WouldCreate(ps[..|ps| - 1]) + if Clean(ps[|ps| - 1]) && ps[|ps| - 1].target.None? then 1 else 0
  }

  function WouldUpdate(ps: seq<Planned>): nat {
    if ps == [] then 0
    else WouldUpdate(ps[..|ps| - 1]) + if Clean(ps[|ps| - 1]) && ps[|ps| - 1].target.Some? then 1 else 0
  }

  /** Every valid row is created, updated or reported, and none of the counts exceeds the dry run's. */
  lemma {:induction false} CountsAddUp<Db>(w: Writer<Db>, start: Report<Db>, ps: seq<Planned>)
    ensures var r := RowByRow(w, start, ps);
      && r.created - start.created <= WouldCreate(ps)
      && r.updated - start.updated <= WouldUpdate(ps)
      && (r.created - start.created) + (r.updated - start.updated) + (|r.errors| - |start.errors|)
        == WouldCreate(ps) + WouldUpdate(ps)
    decreases |ps|
  {
    if ps != [] {
      CountsAddUp(w, start, ps[..|ps| - 1]);
    }
  }

  /** After an `abort` that went through, the counts are those the dry run announced. */
  lemma {:induction false} AbortCountsAsAnnounced<Db>(w: Writer<Db>, start: Report<Db>, ps: seq<Planned>)
    requires start.created == 0 && start.updated == 0 && AllInOne(w, start, ps).Applied?
    ensures var r := AbortReport(start, AllInOne(w, start, ps));
      r.created == WouldCreate(ps) && r.updated == WouldUpdate(ps) && r.errors == start.errors
  {
    AbortIsContinueWithoutFailures(w, start, ps);
    CountsAddUp(w, start, ps);
  }

  // ===== the whole commit phase =====

  function ValidationErrors(ps: seq<Planned>): seq<RowError> {
    if ps == [] then []
    else
      var p := ps[|ps| - 1];
      ValidationErrors(ps[..|ps| - 1])
        + seq(|p.errors|, i requires 0 <= i < |p.errors| => RowError(p.index, p.errors[i]))
  }

  method CommitImport<Db>(
      w: Writer<Db>, db: Db, ps: seq<Planned>, dryRun: bool, onErrorContinue: bool)
    returns (r: Report<Db>)
    ensures var start := Report(db, 0, 0, ValidationErrors(ps));
      r == if dryRun || (!onErrorContinue && ValidationErrors(ps) != []) then start
           else if onErrorContinue then RowByRow(w, start, ps)
           else AbortReport(start, AllInOne(w, start, ps))
    ensures !onErrorContinue ==> r.errors == ValidationErrors(ps) || (r.db == db && r.created == 0 && r.updated == 0)
  {
    r := Report(db, 0, 0, ValidationErrors(ps));
    AbortIsContinueWithoutFailures(w, r, ps);
    if !dryRun && (onErrorContinue || ValidationErrors(ps) == []) {
      if onErrorContinue {
        r := WriteInChunks(w, r, ps, CHUNK);
      } else {
        r := WriteAll(w, r, ps);
      }
    }
  }

  // ===== imported rows are ordinary writes =====

  /**
   `ids` gives each new record its id, `refusal` what constraints answer, `dirt` what a failed write leaves behind.
   */
  datatype Session = Session(
    user: Uuid,
    scope: Versions.Scope,
    ids: nat -> Uuid,
    refusal: Planned -> Option<Error>,
    dirt: Versions.Db -> Versions.Db)

  function Given(p: Versions.Patch): Versions.Attributes {
    map k | k in p && p[k].Some? :: p[k].value
  }

  /** A matched row updates its record at the version planned for, any other creates one. */
  function RequestOf(s: Session, p: Planned): Versions.Request {
    var newId, refuse := s.ids, s.refusal;
    match p.target
    case Some((id, version)) => Versions.Update(id, version, p.body, s.scope, refuse(p))
    case None => Versions.Create(newId(p.index), s.user, Given(p.body), refuse(p))
  }

  function RecordWriter(s: Session): Writer<Versions.Db> {
    (db, p) =>
      if Versions.Refused(db, RequestOf(s, p)).Some?
      then var dirty := s.dirt; Attempt(dirty(db), Some("refused"))
      else Attempt(Versions.Step(db, RequestOf(s, p)), None)
  }

  function Requests(s: Session, ps: seq<Planned>): seq<Versions.Request> {
    if ps == [] then []
    else Requests(s, ps[..|ps| - 1]) + if Clean(ps[|ps| - 1]) then [RequestOf(s, ps[|ps| - 1])] else []
  }

  /** A `continue` import is a run of single-record requests, so what those keep it keeps. */
  lemma {:induction false} ImportIsARun(s: Session, start: Report<Versions.Db>, ps: seq<Planned>)
    ensures RowByRow(RecordWriter(s), start, ps).db == Versions.Run(start.db, Requests(s, ps))
    decreases |ps|
  {
    if ps != [] {
      var front, p := ps[..|ps| - 1], ps[|ps| - 1];
      ImportIsARun(s, start, front);
      if Clean(p) {
        assert Requests(s, ps)[..|Requests(s, ps)| - 1] == Requests(s, front);
      } else {
        assert Requests(s, ps) == Requests(s, front);
      }
    }
  }
}
