/** What an import writes and reports, row by row. */
module ImportEffects {
  import opened Common
  import Versions
  import opened Imports

  /** The tables before each row and at the end: a row that is invalid or whose write fails leaves them as they are. */
  ghost predicate States<Db>(w: Writer<Db>, db: Db, ps: seq<Planned>, ds: seq<Db>) {
    && |ds| == |ps| + 1 && ds[0] == db
    && forall n :: 0 <= n < |ps| ==> ds[n + 1] == if Writes(w, ds[n], ps[n]) then w(ds[n], ps[n]).db else ds[n]
  }

  ghost predicate Writes<Db>(w: Writer<Db>, db: Db, p: Planned) {
    p.errors == [] && w(db, p).error.None?
  }

  ghost predicate Fails<Db>(w: Writer<Db>, db: Db, p: Planned) {
    p.errors == [] && w(db, p).error.Some?
  }

  ghost function Created<Db>(w: Writer<Db>, ps: seq<Planned>, ds: seq<Db>): set<nat>
    requires |ds| == |ps| + 1
  {
    set n: nat | n < |ps| && Writes(w, ds[n], ps[n]) && ps[n].target.None?
  }

  ghost function Updated<Db>(w: Writer<Db>, ps: seq<Planned>, ds: seq<Db>): set<nat>
    requires |ds| == |ps| + 1
  {
    set n: nat | n < |ps| && Writes(w, ds[n], ps[n]) && ps[n].target.Some?
  }

  ghost function Failed<Db>(w: Writer<Db>, ps: seq<Planned>, ds: seq<Db>): set<nat>
    requires |ds| == |ps| + 1
  {
    set n: nat | n < |ps| && Fails(w, ds[n], ps[n])
  }

  lemma OneMoreRow<Db>(w: Writer<Db>, ps: seq<Planned>, ds: seq<Db>)
    requires ps != [] && |ds| == |ps| + 1
    ensures var n: nat, front, before := |ps| - 1, ps[..|ps| - 1], ds[..|ds| - 1];
      && Created(w, ps, ds) == Created(w, front, before)
         + (if Writes(w, ds[n], ps[n]) && ps[n].target.None? then {n} else {})
      && Updated(w, ps, ds) == Updated(w, front, before)
         + (if Writes(w, ds[n], ps[n]) && ps[n].target.Some? then {n} else {})
      && Failed(w, ps, ds) == Failed(w, front, before) + (if Fails(w, ds[n], ps[n]) then {n} else {})
      && n !in Created(w, front, before) && n !in Updated(w, front, before) && n !in Failed(w, front, before)
  {
  }

  /** The failed rows, each with its message, are among the errors. */
  ghost predicate Reported<Db>(w: Writer<Db>, ps: seq<Planned>, ds: seq<Db>, errors: seq<RowError>)
    requires |ds| == |ps| + 1
  {
    forall n :: n in Failed(w, ps, ds) ==> RowError(ps[n].index, w(ds[n], ps[n]).error.value) in errors
  }

  ghost predicate ContinuedTo<Db>(w: Writer<Db>, start: Report<Db>, ps: seq<Planned>, ds: seq<Db>, r: Report<Db>)
    requires |ds| == |ps| + 1
  {
    && r.db == ds[|ps|]
    && r.created == start.created + |Created(w, ps, ds)| && r.updated == start.updated + |Updated(w, ps, ds)|
    && start.errors <= r.errors && |r.errors| == |start.errors| + |Failed(w, ps, ds)|
    && Reported(w, ps, ds, r.errors[|start.errors|..])
  }

  /**
   A `continue` import ends in the tables after the last row, counts as created and updated the
   rows it wrote, and reports each row whose write failed, with its message, after the errors
   found before.
   */
  lemma {:induction false} ContinueExactly<Db>(w: Writer<Db>, start: Report<Db>, ps: seq<Planned>, ds: seq<Db>)
    requires States(w, start.db, ps, ds)
    ensures ContinuedTo(w, start, ps, ds, RowByRow(w, start, ps))
    decreases |ps|
  {
    if ps != [] {
      var front, before := ps[..|ps| - 1], ds[..|ds| - 1];
      ContinueExactly(w, start, front, before);
      ContinueOneMore(w, start, ps, ds, RowByRow(w, start, front));
    }
  }

  lemma OneMoreCounted<Db>(w: Writer<Db>, ps: seq<Planned>, ds: seq<Db>)
    requires ps != [] && |ds| == |ps| + 1
    ensures var db, p, front, before := ds[|ps| - 1], ps[|ps| - 1], ps[..|ps| - 1], ds[..|ds| - 1];
      && |Created(w, ps, ds)| == |Created(w, front, before)| + (if Writes(w, db, p) && p.target.None? then 1 else 0)
      && |Updated(w, ps, ds)| == |Updated(w, front, before)| + (if Writes(w, db, p) && p.target.Some? then 1 else 0)
      && |Failed(w, ps, ds)| == |Failed(w, front, before)| + (if Fails(w, db, p) then 1 else 0)
  {
    OneMoreRow(w, ps, ds);
  }

  lemma NextReport<Db>(w: Writer<Db>, start: Report<Db>, ps: seq<Planned>)
    requires ps != []
    ensures var p, r, r' := ps[|ps| - 1], RowByRow(w, start, ps[..|ps| - 1]), RowByRow(w, start, ps);
      && r'.db == (if Writes(w, r.db, p) then w(r.db, p).db else r.db)
      && r'.created == r.created + (if Writes(w, r.db, p) && p.target.None? then 1 else 0)
      && r'.updated == r.updated + (if Writes(w, r.db, p) && p.target.Some? then 1 else 0)
      && r'.errors == r.errors + (if Fails(w, r.db, p) then [RowError(p.index, w(r.db, p).error.value)] else [])
  {
  }

  lemma ContinueOneMore<Db>(w: Writer<Db>, start: Report<Db>, ps: seq<Planned>, ds: seq<Db>, r: Report<Db>)
    requires ps != [] && States(w, start.db, ps, ds) && r == RowByRow(w, start, ps[..|ps| - 1])
    requires ContinuedTo(w, start, ps[..|ps| - 1], ds[..|ds| - 1], r)
    ensures ContinuedTo(w, start, ps, ds, RowByRow(w, start, ps))
  {
    OneMoreCounted(w, ps, ds);
    NextReport(w, start, ps);
    ErrorsOneMore(w, start, ps, ds, r, RowByRow(w, start, ps));
  }

  lemma ErrorsOneMore<Db>(
      w: Writer<Db>, start: Report<Db>, ps: seq<Planned>, ds: seq<Db>, r: Report<Db>, r': Report<Db>)
    requires ps != [] && |ds| == |ps| + 1 && start.errors <= r.errors
    requires Reported(w, ps[..|ps| - 1], ds[..|ds| - 1], r.errors[|start.errors|..])
    requires var db, p := ds[|ps| - 1], ps[|ps| - 1];
      r'.errors == r.errors + (if Fails(w, db, p) then [RowError(p.index, w(db, p).error.value)] else [])
    ensures start.errors <= r'.errors && Reported(w, ps, ds, r'.errors[|start.errors|..])
  {
    var db, p := ds[|ps| - 1], ps[|ps| - 1];
    if Fails(w, db, p) {
      var e := RowError(p.index, w(db, p).error.value);
      assert r'.errors[|start.errors|..] == r.errors[|start.errors|..] + [e];
      ReportedOneMore(w, ps, ds, r.errors[|start.errors|..], e);
    } else {
      assert r'.errors == r.errors;
      ReportedStill(w, ps, ds, r.errors[|start.errors|..]);
    }
  }

  lemma ReportedOneMore<Db>(w: Writer<Db>, ps: seq<Planned>, ds: seq<Db>, errors: seq<RowError>, e: RowError)
    requires ps != [] && |ds| == |ps| + 1 && Reported(w, ps[..|ps| - 1], ds[..|ds| - 1], errors)
    requires Fails(w, ds[|ps| - 1], ps[|ps| - 1])
    requires e == RowError(ps[|ps| - 1].index, w(ds[|ps| - 1], ps[|ps| - 1]).error.value)
    ensures Reported(w, ps, ds, errors + [e])
  {
    OneMoreRow(w, ps, ds);
  }

  lemma ReportedStill<Db>(w: Writer<Db>, ps: seq<Planned>, ds: seq<Db>, errors: seq<RowError>)
    requires ps != [] && |ds| == |ps| + 1 && Reported(w, ps[..|ps| - 1], ds[..|ds| - 1], errors)
    requires !Fails(w, ds[|ps| - 1], ps[|ps| - 1])
    ensures Reported(w, ps, ds, errors)
  {
    OneMoreRow(w, ps, ds);
  }

  /** No row before the `n`-th fails. */
  ghost predicate NoneFails<Db>(w: Writer<Db>, ps: seq<Planned>, ds: seq<Db>, n: nat)
    requires |ds| == |ps| + 1 && n <= |ps|
  {
    forall m :: 0 <= m < n ==> !Fails(w, ds[m], ps[m])
  }

  lemma {:induction false} AppliedWhileNoneFails<Db>(
      w: Writer<Db>, start: Report<Db>, ps: seq<Planned>, ds: seq<Db>, n: nat)
    requires States(w, start.db, ps, ds) && n <= |ps| && NoneFails(w, ps, ds, n)
    ensures AllInOne(w, start, ps[..n]).Applied? && AllInOne(w, start, ps[..n]).report.db == ds[n]
    decreases n
  {
    if n > 0 {
      AppliedWhileNoneFails(w, start, ps, ds, n - 1);
      assert ps[..n][..n - 1] == ps[..n - 1];
    }
  }

  /** An `abort` import none of whose rows fails ends as `continue` would, with the errors found before alone. */
  lemma AbortWritesAll<Db>(w: Writer<Db>, start: Report<Db>, ps: seq<Planned>, ds: seq<Db>)
    requires States(w, start.db, ps, ds) && NoneFails(w, ps, ds, |ps|)
    ensures AbortReport(start, AllInOne(w, start, ps)) ==
      Report(ds[|ps|], start.created + |Created(w, ps, ds)|, start.updated + |Updated(w, ps, ds)|, start.errors)
  {
    AppliedWhileNoneFails(w, start, ps, ds, |ps|);
    assert ps[..|ps|] == ps;
    AbortIsContinueWithoutFailures(w, start, ps);
    ContinueExactly(w, start, ps, ds);
  }

  /** At the first row that fails it leaves the tables as they were, and reports that row. */
  lemma AbortWritesNothing<Db>(w: Writer<Db>, start: Report<Db>, ps: seq<Planned>, ds: seq<Db>, n: nat)
    requires States(w, start.db, ps, ds) && n < |ps| && NoneFails(w, ps, ds, n) && Fails(w, ds[n], ps[n])
    ensures AbortReport(start, AllInOne(w, start, ps)) ==
      Report(start.db, 0, 0,
             start.errors + [RowError(ps[n].index, "aborted (nothing written): " + w(ds[n], ps[n]).error.value)])
  {
    AppliedWhileNoneFails(w, start, ps, ds, n);
    assert ps[..n + 1][..n] == ps[..n];
    FailureStays(w, start, ps, n + 1);
  }

  /** Every error of every row is listed under the row's number, row after row, and nothing else is. */
  lemma {:induction false} ValidationErrorsExact(ps: seq<Planned>, n: nat, i: nat)
    requires n < |ps| && i < |ps[n].errors|
    ensures var at := |ValidationErrors(ps[..n])| + i;
      at < |ValidationErrors(ps)| && ValidationErrors(ps)[at] == RowError(ps[n].index, ps[n].errors[i])
    decreases |ps|
  {
    if n < |ps| - 1 {
      assert ps[..|ps| - 1][..n] == ps[..n];
      ValidationErrorsExact(ps[..|ps| - 1], n, i);
    }
  }

  lemma {:induction false} ValidationErrorsOnly(ps: seq<Planned>)
    ensures |ValidationErrors(ps)| == ErrorCount(ps)
    ensures ValidationErrors(ps) == [] <==> forall n :: 0 <= n < |ps| ==> ps[n].errors == []
    decreases |ps|
  {
    if ps != [] {
      ValidationErrorsOnly(ps[..|ps| - 1]);
      assert forall n :: 0 <= n < |ps| - 1 ==> ps[..|ps| - 1][n] == ps[n];
    }
  }

  function ErrorCount(ps: seq<Planned>): nat {
    if ps == [] then 0 else ErrorCount(ps[..|ps| - 1]) + |ps[|ps| - 1].errors|
  }

  // ----- the records an import leaves -----

  lemma WriterSteps(s: Session, db: Versions.Db, p: Planned)
    ensures var a := RecordWriter(s)(db, p);
      && (a.error.None? <==> Versions.Refused(db, RequestOf(s, p)).None?)
      && (a.error.None? ==> a.db == Versions.Step(db, RequestOf(s, p)))
  {
  }

  /** A row that matched nothing becomes a record of the importing user, with the values it gives. */
  lemma RowCreatesRecord(s: Session, db: Versions.Db, p: Planned, id: Uuid)
    requires p.target.None? && RecordWriter(s)(db, p).error.None?
    requires RequestOf(s, p).id == id
    ensures var after := RecordWriter(s)(db, p).db;
      && id in after.live && after.live[id].owner == s.user && after.live[id].version == 1
      && forall k :: Versions.At(Versions.Read(after, id).attributes, k) == if k in p.body then p.body[k] else None
  {
    WriterSteps(s, db, p);
    var row := Versions.NewRow(s.user, Given(p.body), db.shape);
    assert Versions.Known(Given(p.body).Keys, db.shape);
    assert Versions.Shown(row, db.shape).attributes == Given(p.body);
    forall k
      ensures Versions.At(Given(p.body), k) == if k in p.body then p.body[k] else None
    {
    }
  }

  /** A row that matched a record gives it the values it has, clears what it clears, and takes its version up. */
  lemma RowUpdatesRecord(s: Session, db: Versions.Db, p: Planned)
    requires p.target.Some? && RecordWriter(s)(db, p).error.None?
    ensures var id := p.target.value.0; var after := RecordWriter(s)(db, p).db;
      && id in db.live && db.live[id].version == p.target.value.1
      && id in after.live && after.live[id].version == db.live[id].version + 1
      && Versions.Patched(Versions.Read(db, id).attributes, p.body, Versions.Read(after, id).attributes)
  {
    WriterSteps(s, db, p);
    Versions.UpdateShows(db.live[p.target.value.0], p.body, db.shape);
  }
}
