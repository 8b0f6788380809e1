/**
 The sharing tables as a state machine: every transaction that touches records, rules or
 shares is one event, in any interleaving, with a recompute split over two transactions.
 */
module SharingMachine {
  import opened Common
  import opened Sharing
  import E = Expressions

  /**
   The tables of one tenant. `used` holds every rule id ever issued (UUIDs do not repeat);
   `pending` holds the rule rows that recomputes have read but not yet scanned with; `stale`
   the records whose document a metadata publish changed under a live share that no longer matches.
   */
  datatype Db = Db(
    records: Records,
    rules: Rules,
    shares: Shares,
    used: set<Uuid>,
    pending: map<nat, Rule>,
    stale: set<Uuid>)

  datatype Event =
    | WriteRecord(record: Uuid, entity: string, data: E.Record, hidden: E.Record)
    | DeleteRecord(record: Uuid)
    | CascadeDelete(record: Uuid)
    | Publish(entity: string, fields: set<string>)
    | CreateRule(id: Uuid, entity: string, condition: E.Expr, principal: Uuid, access: Access, now: int)
    | UpdateRule(id: Uuid, newCondition: Option<E.Expr>, newPrincipal: Option<Uuid>,
                 newAccess: Option<Access>, newActive: Option<bool>)
    | DeleteRule(id: Uuid)
    | ReadRule(job: nat, id: Uuid)
    | ScanRule(job: nat, from: Option<Uuid>, limit: int)
    | ShareManually(record: Uuid, principal: Uuid, access: Access)
    | Unshare(record: Uuid, principal: Uuid)

  function OrElse<T>(o: Option<T>, default: T): T {
    if o.Some? then o.value else default
  }

  function Clamp(limit: int): (n: nat)
    ensures 1 <= n <= MAX_LIMIT
  {
    if limit < 1 then 1 else if limit > MAX_LIMIT then MAX_LIMIT else limit
  }

  function WithoutRule(shares: Shares, id: Uuid): Shares {
    map k | k in shares && shares[k].rule != Some(id) :: shares[k]
  }

  function WithoutRecord(shares: Shares, record: Uuid): Shares {
    map k | k in shares && k.0 != record :: shares[k]
  }

  /** The row `UPDATE .. RETURNING` gives back: the edited columns, the epoch not yet bumped. */
  function Edited(r: Rule, e: Event): Rule
    requires e.UpdateRule?
  {
    r.(condition := OrElse(e.newCondition, r.condition),
       principal := OrElse(e.newPrincipal, r.principal),
       access := OrElse(e.newAccess, r.access),
       active := OrElse(e.newActive, r.active))
  }

  /** The rule as an edit leaves it: every column given takes its value, every other stays. */
  predicate IsEdited(before: Rule, e: Event, after: Rule)
    requires e.UpdateRule?
  {
    && after.condition == (match e.newCondition case Some(c) => c case None => before.condition)
    && after.principal == (match e.newPrincipal case Some(p) => p case None => before.principal)
    && after.access == (match e.newAccess case Some(a) => a case None => before.access)
    && after.active == (match e.newActive case Some(b) => b case None => before.active)
    && after.id == before.id && after.entity == before.entity && after.createdAt == before.createdAt
  }

  predicate Changes(e: Event)
    requires e.UpdateRule?
  {
    e.newCondition.Some? || e.newPrincipal.Some? || e.newAccess.Some? || e.newActive.Some?
  }

  /** `update_share_rule`: the epoch is bumped after the row to materialize from was taken. */
  function Updated(fx: Functions, db: Db, e: Event): Db
    requires e.UpdateRule?
  {
    if e.id !in db.rules then db
    else
      var row := Edited(db.rules[e.id], e);
      if !Changes(e) then db.(rules := db.rules[e.id := row])
      else
        var bumped := db.rules[e.id := row.(epoch := row.epoch + 1)];
        var dropped := WithoutRule(db.shares, e.id);
        if !row.active then db.(rules := bumped, shares := dropped)
        else db.(rules := bumped, shares := Pass(fx, db.records, row, None, DEFAULT_LIMIT, dropped))
  }

  function Created(fx: Functions, db: Db, e: Event): Db
    requires e.CreateRule?
  {
    if e.id in db.used then db
    else
      var row := Rule(e.id, e.entity, e.condition, e.principal, e.access, 1, true, e.now);
      db.(rules := db.rules[e.id := row],
          used := db.used + {e.id},
          shares := Pass(fx, db.records, row, None, DEFAULT_LIMIT, db.shares))
  }

  /** The second transaction of a recompute; a deleted rule's foreign key rolls it back. */
  function Scanned(fx: Functions, db: Db, e: Event): Db
    requires e.ScanRule?
  {
    if e.job !in db.pending then db
    else
      var row := db.pending[e.job];
      var done := db.(pending := map j | j in db.pending && j != e.job :: db.pending[j]);
      if row.id !in db.rules then done
      else done.(shares := Pass(fx, db.records, row, e.from, Clamp(e.limit), db.shares))
  }

  function Without(records: Records, record: Uuid): Records {
    map r | r in records && r != record :: records[r]
  }

  /** The columns `reconstruct` shows of every record, whatever the entity's fields. */
  const SYSTEM_COLUMNS := {"id", "version", "owner_id", "state", "created_at", "updated_at"}

  /** All a row holds, retired fields and references included. */
  function Stored(row: Row): E.Record {
    row.hidden + row.data
  }

  predicate IsShown(k: string, fields: set<string>) {
    k in fields || k in SYSTEM_COLUMNS
  }

  /** The row of an entity whose active fields and references are `fields`; retiring deletes nothing. */
  function Reshaped(row: Row, fields: set<string>): Row {
    var all := Stored(row);
    Row(row.entity,
        map k | k in all && IsShown(k, fields) :: all[k],
        map k | k in all && !IsShown(k, fields) :: all[k])
  }

  predicate IsOf(records: Records, record: Uuid, entity: string) {
    record in records && records[record].entity == entity
  }

  /** Every share of the record that the gate lets through comes from a rule that matches `data`. */
  predicate Covered(fx: Functions, db: Db, record: Uuid, data: E.Record) {
    forall key ::
      (key in db.shares && key.0 == record && db.shares[key].rule.Some? && PassesGate(db.rules, db.shares[key])) ==>
        Matches(fx, db.rules[db.shares[key].rule.value].condition, data)
  }

  function AllReshaped(records: Records, entity: string, fields: set<string>): Records {
    map r | r in records :: if records[r].entity == entity then Reshaped(records[r], fields) else records[r]
  }

  /**
   A metadata publish after which `fields` are the entity's active fields and references. It
   changes the document of every record of the entity, and recomputes no share.
   */
  function Published(fx: Functions, db: Db, entity: string, fields: set<string>): Db {
    db.(records := AllReshaped(db.records, entity, fields),
        stale := set r | r in db.stale + db.records.Keys &&
          if IsOf(db.records, r, entity) then !Covered(fx, db, r, Reshaped(db.records[r], fields).data)
          else r in db.stale)
  }

  function Step(fx: Functions, db: Db, e: Event): Db {
    match e
    case WriteRecord(record, entity, data, hidden) =>
      if record in db.records && db.records[record].entity != entity then db
      else db.(records := db.records[record := Row(entity, data, hidden)],
               shares := Recomputed(fx, db.rules, db.shares, record, entity, data),
               stale := db.stale - {record})
    case DeleteRecord(record) =>
      if record !in db.records then db
      else db.(records := Without(db.records, record),
               shares := WithoutRecord(db.shares, record),
               stale := db.stale - {record})
    case CascadeDelete(record) => db.(records := Without(db.records, record))
    case Publish(entity, fields) => Published(fx, db, entity, fields)
    case CreateRule(_, _, _, _, _, _) => Created(fx, db, e)
    case UpdateRule(_, _, _, _, _) => Updated(fx, db, e)
    case DeleteRule(id) =>
      if id !in db.rules then db
      else db.(rules := map r | r in db.rules && r != id :: db.rules[r], shares := WithoutRule(db.shares, id))
    case ReadRule(job, id) =>
      if id in db.rules && db.rules[id].active then db.(pending := db.pending[job := db.rules[id]]) else db
    case ScanRule(_, _, _) => Scanned(fx, db, e)
    case ShareManually(record, principal, access) =>
      var key := (record, principal);
      if record !in db.records || (key in db.shares && db.shares[key].rule.Some?) then db
      else if key in db.shares then db.(shares := db.shares[key := db.shares[key].(access := access)])
      else db.(shares := db.shares[key := Share(db.records[record].entity, access, None, 0)])
    case Unshare(record, principal) =>
      var key := (record, principal);
      if key in db.shares && db.shares[key].rule.None?
      then db.(shares := map k | k in db.shares && k != key :: db.shares[k])
      else db
  }

  function Run(fx: Functions, db: Db, es: seq<Event>): Db
    decreases |es|
  {
    if es == [] then db else Run(fx, Step(fx, db, es[0]), es[1..])
  }

  const EMPTY := Db(map[], map[], map[], {}, map[], {})

  // ===== soundness =====

  /**
   What a share of rule `r` claims: its principal and access, and, of a record that is there and not stale, a match.
   */
  ghost predicate Justified(fx: Functions, records: Records, stale: set<Uuid>, r: Rule, key: (Uuid, Uuid), s: Share) {
    && key.1 == r.principal && s.access == r.access && s.entity == r.entity
    && (key.0 in records ==> records[key.0].entity == r.entity)
    && (key.0 in records && key.0 !in stale ==> Matches(fx, r.condition, records[key.0].data))
  }

  /** A rule-derived row's rule exists; its epoch is not ahead, and is justified when current. */
  ghost predicate RowOk(fx: Functions, records: Records, stale: set<Uuid>, rules: Rules, key: (Uuid, Uuid), s: Share) {
    s.rule.Some? ==>
      && s.rule.value in rules
      && s.epoch <= rules[s.rule.value].epoch
      && (s.epoch == rules[s.rule.value].epoch ==>
            rules[s.rule.value].active && Justified(fx, records, stale, rules[s.rule.value], key, s))
  }

  ghost predicate SharesOk(fx: Functions, records: Records, stale: set<Uuid>, rules: Rules, shares: Shares) {
    forall key :: key in shares ==> RowOk(fx, records, stale, rules, key, shares[key])
  }

  ghost predicate RulesOk(rules: Rules, used: set<Uuid>) {
    forall id :: id in rules ==> rules[id].id == id && id in used
  }

  /** A row read earlier is of a known id and, if its epoch is still current, unchanged. */
  ghost predicate PendingOk(rules: Rules, used: set<Uuid>, row: Rule) {
    && row.id in used && row.active
    && (row.id in rules ==> row.epoch <= rules[row.id].epoch)
    && (row.id in rules && row.epoch == rules[row.id].epoch ==> row == rules[row.id])
  }

  ghost predicate Valid(fx: Functions, db: Db) {
    && SharesOk(fx, db.records, db.stale, db.rules, db.shares)
    && RulesOk(db.rules, db.used)
    && forall j :: j in db.pending ==> PendingOk(db.rules, db.used, db.pending[j])
  }

  /** What the gate lets through for `key`, an active rule grants now, if the record is there. */
  ghost predicate SoundAt(fx: Functions, db: Db, key: (Uuid, Uuid)) {
    key in db.shares && db.shares[key].rule.Some? && PassesGate(db.rules, db.shares[key]) ==>
      var id := db.shares[key].rule.value;
      id in db.rules && db.rules[id].active && Justified(fx, db.records, {}, db.rules[id], key, db.shares[key])
  }

  ghost predicate Sound(fx: Functions, db: Db) {
    forall key: (Uuid, Uuid) :: SoundAt(fx, db, key)
  }

  ghost predicate SoundOutside(fx: Functions, db: Db, records: set<Uuid>) {
    forall key: (Uuid, Uuid) :: key.0 !in records ==> SoundAt(fx, db, key)
  }

  lemma ValidIsSound(fx: Functions, db: Db)
    requires Valid(fx, db)
    ensures SoundOutside(fx, db, db.stale)
    ensures db.stale == {} ==> Sound(fx, db)
  {
    forall key: (Uuid, Uuid) | key.0 !in db.stale
      ensures SoundAt(fx, db, key)
    {
      assert key in db.shares ==> RowOk(fx, db.records, db.stale, db.rules, key, db.shares[key]);
    }
  }

  /** A pass adds only rows of its own rule row, each matching when it is scanned. */
  lemma PassAdds(
      fx: Functions, records: Records, row: Rule, from: Option<Uuid>, limit: nat, shares: Shares, key: (Uuid, Uuid))
    ensures var after := Pass(fx, records, row, from, limit, shares);
            && (key in shares ==> key in after && after[key] == shares[key])
            && (key !in shares && key in after ==>
              after[key] == ShareOf(row) && Justified(fx, records, {}, row, key, ShareOf(row)))
  {
    var ids := IdsAfter(records, row.entity, from);
    var n := Min(limit, |ids|);
    MaterializedExactly(fx, records, row, ids, n, shares, key);
    if key.0 in ids[..n] {
      assert key.0 in ids;
      assert Selected(records, row.entity, from, key.0);
    }
  }

  /** A pass with a row that is current or stale keeps every row right. */
  lemma PassKeepsOk(
      fx: Functions, records: Records, stale: set<Uuid>, rules: Rules, row: Rule, from: Option<Uuid>, limit: nat,
      shares: Shares)
    requires SharesOk(fx, records, stale, rules, shares)
    requires row.active && row.id in rules && row.epoch <= rules[row.id].epoch
    requires row.epoch == rules[row.id].epoch ==> row == rules[row.id]
    ensures SharesOk(fx, records, stale, rules, Pass(fx, records, row, from, limit, shares))
  {
    var after := Pass(fx, records, row, from, limit, shares);
    forall key | key in after
      ensures RowOk(fx, records, stale, rules, key, after[key])
    {
      PassAdds(fx, records, row, from, limit, shares, key);
    }
  }

  lemma WriteKeepsOk(fx: Functions, db: Db, record: Uuid, entity: string, data: E.Record, hidden: E.Record)
    requires Valid(fx, db)
    ensures SharesOk(fx, db.records[record := Row(entity, data, hidden)], db.stale - {record}, db.rules,
                     Recomputed(fx, db.rules, db.shares, record, entity, data))
  {
    var records := db.records[record := Row(entity, data, hidden)];
    var after := Recomputed(fx, db.rules, db.shares, record, entity, data);
    var ids := LoadRules(db.rules, entity);
    forall key | key in after
      ensures RowOk(fx, records, db.stale - {record}, db.rules, key, after[key])
    {
      RecomputedExactly(fx, db.rules, db.shares, record, entity, data, key);
      if key.0 != record {
        assert RowOk(fx, db.records, db.stale, db.rules, key, db.shares[key]);
      } else if !(key in db.shares && db.shares[key].rule.None?) {
        var i: nat :| i < |ids| && IsFirstMatch(fx, db.rules, ids, i, key.1, data)
          && after[key] == ShareOf(db.rules[ids[i]]);
        assert db.rules[ids[i]].id == ids[i];
      }
    }
  }

  /** Rows of untouched rules stay right when other rules change. */
  lemma RulesChangeKeepsOk(
      fx: Functions, records: Records, stale: set<Uuid>, rules: Rules, rules': Rules, shares: Shares, id: Uuid)
    requires SharesOk(fx, records, stale, rules, shares)
    requires forall r :: r in rules && r != id ==> r in rules' && rules'[r] == rules[r]
    ensures SharesOk(fx, records, stale, rules', WithoutRule(shares, id))
  {
    var left := WithoutRule(shares, id);
    forall key | key in left
      ensures RowOk(fx, records, stale, rules', key, left[key])
    {
      assert RowOk(fx, records, stale, rules, key, shares[key]);
      if shares[key].rule.Some? {
        var r := shares[key].rule.value;
        assert r != id && r in rules && rules'[r] == rules[r];
      }
    }
  }

  lemma CreateKeepsValid(fx: Functions, db: Db, e: Event)
    requires Valid(fx, db) && e.CreateRule?
    ensures Valid(fx, Step(fx, db, e))
  {
    if e.id !in db.used {
      var db' := Step(fx, db, e);
      forall key | key in db.shares
        ensures RowOk(fx, db.records, db.stale, db'.rules, key, db.shares[key])
      {
        assert RowOk(fx, db.records, db.stale, db.rules, key, db.shares[key]);
      }
      PassKeepsOk(fx, db.records, db.stale, db'.rules, db'.rules[e.id], None, DEFAULT_LIMIT, db.shares);
      forall j | j in db'.pending
        ensures PendingOk(db'.rules, db'.used, db'.pending[j])
      {
        assert PendingOk(db.rules, db.used, db.pending[j]);
      }
    }
  }

  lemma UpdateKeepsValid(fx: Functions, db: Db, e: Event)
    requires Valid(fx, db) && e.UpdateRule?
    ensures Valid(fx, Step(fx, db, e))
  {
    if e.id in db.rules {
      var db' := Step(fx, db, e);
      var row := Edited(db.rules[e.id], e);
      if !Changes(e) {
        assert row == db.rules[e.id];
        assert db'.rules == db.rules;
      } else {
        RulesChangeKeepsOk(fx, db.records, db.stale, db.rules, db'.rules, db.shares, e.id);
        if row.active {
          PassKeepsOk(fx, db.records, db.stale, db'.rules, row, None, DEFAULT_LIMIT, WithoutRule(db.shares, e.id));
        }
        forall j | j in db'.pending
          ensures PendingOk(db'.rules, db'.used, db'.pending[j])
        {
          assert PendingOk(db.rules, db.used, db.pending[j]);
        }
      }
    }
  }

  lemma DeleteRuleKeepsValid(fx: Functions, db: Db, id: Uuid)
    requires Valid(fx, db)
    ensures Valid(fx, Step(fx, db, DeleteRule(id)))
  {
    if id in db.rules {
      var db' := Step(fx, db, DeleteRule(id));
      RulesChangeKeepsOk(fx, db.records, db.stale, db.rules, db'.rules, db.shares, id);
      forall j | j in db'.pending
        ensures PendingOk(db'.rules, db'.used, db'.pending[j])
      {
        assert PendingOk(db.rules, db.used, db.pending[j]);
      }
    }
  }

  lemma ScanKeepsValid(fx: Functions, db: Db, job: nat, from: Option<Uuid>, limit: int)
    requires Valid(fx, db)
    ensures Valid(fx, Step(fx, db, ScanRule(job, from, limit)))
  {
    if job in db.pending {
      var db', row := Step(fx, db, ScanRule(job, from, limit)), db.pending[job];
      assert PendingOk(db.rules, db.used, row);
      if row.id in db.rules {
        PassKeepsOk(fx, db.records, db.stale, db.rules, row, from, Clamp(limit), db.shares);
      }
      forall j | j in db'.pending
        ensures PendingOk(db'.rules, db'.used, db'.pending[j])
      {
        assert PendingOk(db.rules, db.used, db.pending[j]);
      }
    }
  }

  lemma DeleteRecordKeepsValid(fx: Functions, db: Db, record: Uuid)
    requires Valid(fx, db)
    ensures Valid(fx, Step(fx, db, DeleteRecord(record)))
  {
    var db' := Step(fx, db, DeleteRecord(record));
    forall key | key in db'.shares
      ensures RowOk(fx, db'.records, db'.stale, db'.rules, key, db'.shares[key])
    {
      assert RowOk(fx, db.records, db.stale, db.rules, key, db.shares[key]);
    }
  }

  /** A cascade leaves the shares of the record behind; they speak of no record. */
  lemma CascadeKeepsValid(fx: Functions, db: Db, record: Uuid)
    requires Valid(fx, db)
    ensures Valid(fx, Step(fx, db, CascadeDelete(record)))
  {
    var db' := Step(fx, db, CascadeDelete(record));
    forall key | key in db'.shares
      ensures RowOk(fx, db'.records, db'.stale, db'.rules, key, db'.shares[key])
    {
      assert RowOk(fx, db.records, db.stale, db.rules, key, db.shares[key]);
    }
  }

  lemma ReshapedAt(records: Records, entity: string, fields: set<string>, r: Uuid)
    ensures var after := AllReshaped(records, entity, fields);
      && (r in after <==> r in records)
      && (r in records ==> after[r].entity == records[r].entity)
      && (r in records && records[r].entity != entity ==> after[r] == records[r])
  {
  }

  lemma PublishKeepsValid(fx: Functions, db: Db, entity: string, fields: set<string>)
    requires Valid(fx, db)
    ensures Valid(fx, Step(fx, db, Publish(entity, fields)))
  {
    var db' := Step(fx, db, Publish(entity, fields));
    forall key | key in db'.shares
      ensures RowOk(fx, db'.records, db'.stale, db'.rules, key, db'.shares[key])
    {
      assert RowOk(fx, db.records, db.stale, db.rules, key, db.shares[key]);
      ReshapedAt(db.records, entity, fields, key.0);
    }
  }

  lemma ManualKeepsValid(fx: Functions, db: Db, e: Event)
    requires Valid(fx, db) && (e.ShareManually? || e.Unshare?)
    ensures Valid(fx, Step(fx, db, e))
  {
    var db' := Step(fx, db, e);
    forall key | key in db'.shares
      ensures RowOk(fx, db'.records, db'.stale, db'.rules, key, db'.shares[key])
    {
      if key in db.shares {
        assert RowOk(fx, db.records, db.stale, db.rules, key, db.shares[key]);
      }
    }
  }

  lemma ReadKeepsValid(fx: Functions, db: Db, job: nat, id: Uuid)
    requires Valid(fx, db)
    ensures Valid(fx, Step(fx, db, ReadRule(job, id)))
  {
    var db' := Step(fx, db, ReadRule(job, id));
    forall j | j in db'.pending
      ensures PendingOk(db'.rules, db'.used, db'.pending[j])
    {
      if !(j == job && db' != db) {
        assert PendingOk(db.rules, db.used, db.pending[j]);
      }
    }
  }

  lemma StepKeepsValid(fx: Functions, db: Db, e: Event)
    requires Valid(fx, db)
    ensures Valid(fx, Step(fx, db, e))
  {
    match e
    case WriteRecord(record, entity, data, hidden) => WriteKeepsOk(fx, db, record, entity, data, hidden);
    case DeleteRecord(record) => DeleteRecordKeepsValid(fx, db, record);
    case CascadeDelete(record) => CascadeKeepsValid(fx, db, record);
    case Publish(entity, fields) => PublishKeepsValid(fx, db, entity, fields);
    case CreateRule(_, _, _, _, _, _) => CreateKeepsValid(fx, db, e);
    case UpdateRule(_, _, _, _, _) => UpdateKeepsValid(fx, db, e);
    case DeleteRule(id) => DeleteRuleKeepsValid(fx, db, id);
    case ReadRule(job, id) => ReadKeepsValid(fx, db, job, id);
    case ScanRule(job, from, limit) => ScanKeepsValid(fx, db, job, from, limit);
    case ShareManually(_, _, _) => ManualKeepsValid(fx, db, e);
    case Unshare(_, _) => ManualKeepsValid(fx, db, e);
  }

  /**
   In every reachable state, over every interleaving, the gate lets only true grants through,
   except on the stale records.
   */
  lemma {:induction false} EveryRunSound(fx: Functions, db: Db, es: seq<Event>)
    requires Valid(fx, db)
    ensures Valid(fx, Run(fx, db, es)) && SoundOutside(fx, Run(fx, db, es), Run(fx, db, es).stale)
    decreases |es|
  {
    if es == [] {
      ValidIsSound(fx, db);
    } else {
      StepKeepsValid(fx, db, es[0]);
      EveryRunSound(fx, Step(fx, db, es[0]), es[1..]);
    }
  }

  // ===== what a metadata publish may do to soundness =====

  /** Every record of the entity keeps a match for each of its live shares. */
  ghost predicate AllRecordsCovered(fx: Functions, db: Db, entity: string, fields: set<string>) {
    forall r :: IsOf(db.records, r, entity) ==> Covered(fx, db, r, Reshaped(db.records[r], fields).data)
  }

  /** No publish of the run leaves a live share behind that its rule no longer grants. */
  ghost predicate AllCovered(fx: Functions, db: Db, es: seq<Event>)
    decreases |es|
  {
    es == [] || (PublishCovered(fx, db, es[0]) && AllCovered(fx, Step(fx, db, es[0]), es[1..]))
  }

  ghost predicate PublishCovered(fx: Functions, db: Db, e: Event) {
    e.Publish? ==> AllRecordsCovered(fx, db, e.entity, e.fields)
  }

  /** From empty tables, a run whose publishes are all covered is sound on every record. */
  lemma ReachableSound(fx: Functions, es: seq<Event>)
    requires AllCovered(fx, EMPTY, es)
    ensures Sound(fx, Run(fx, EMPTY, es))
  {
    CoveredRunsNotStale(fx, EMPTY, es);
    EveryRunSound(fx, EMPTY, es);
    ValidIsSound(fx, Run(fx, EMPTY, es));
  }

  lemma {:induction false} UnpublishedRunsCovered(fx: Functions, db: Db, es: seq<Event>)
    requires forall i :: 0 <= i < |es| ==> !es[i].Publish?
    ensures AllCovered(fx, db, es)
    decreases |es|
  {
    if es != [] {
      UnpublishedRunsCovered(fx, Step(fx, db, es[0]), es[1..]);
    }
  }

  /** While the model stays as it is, every live share of every record has its match. */
  lemma UnpublishedRunsSound(fx: Functions, es: seq<Event>)
    requires forall i :: 0 <= i < |es| ==> !es[i].Publish?
    ensures Sound(fx, Run(fx, EMPTY, es))
  {
    UnpublishedRunsCovered(fx, EMPTY, es);
    ReachableSound(fx, es);
  }

  lemma CoveredStepNotStale(fx: Functions, db: Db, e: Event)
    requires db.stale == {} && PublishCovered(fx, db, e)
    ensures Step(fx, db, e).stale == {}
  {
    if e.Publish? {
      forall r
        ensures r !in Step(fx, db, e).stale
      {
        assert IsOf(db.records, r, e.entity) ==> Covered(fx, db, r, Reshaped(db.records[r], e.fields).data);
      }
    }
  }

  lemma {:induction false} CoveredRunsNotStale(fx: Functions, db: Db, es: seq<Event>)
    requires db.stale == {} && AllCovered(fx, db, es)
    ensures Run(fx, db, es).stale == {}
    decreases |es|
  {
    if es != [] {
      CoveredStepNotStale(fx, db, es[0]);
      CoveredRunsNotStale(fx, Step(fx, db, es[0]), es[1..]);
    }
  }

  /** A publish keeps a sound table sound exactly when it covers every record of the entity. */
  lemma PublishSoundIff(fx: Functions, db: Db, entity: string, fields: set<string>)
    requires Valid(fx, db) && Sound(fx, db)
    ensures Sound(fx, Step(fx, db, Publish(entity, fields))) <==> AllRecordsCovered(fx, db, entity, fields)
  {
    var db' := Step(fx, db, Publish(entity, fields));
    if AllRecordsCovered(fx, db, entity, fields) {
      forall key: (Uuid, Uuid)
        ensures SoundAt(fx, db', key)
      {
        StaysSound(fx, db, entity, fields, key);
      }
    } else {
      var r :| IsOf(db.records, r, entity) && !Covered(fx, db, r, Reshaped(db.records[r], fields).data);
      UncoveredIsUnsound(fx, db, entity, fields, r);
    }
  }

  lemma StaysSound(fx: Functions, db: Db, entity: string, fields: set<string>, key: (Uuid, Uuid))
    requires SoundAt(fx, db, key) && AllRecordsCovered(fx, db, entity, fields)
    ensures SoundAt(fx, Step(fx, db, Publish(entity, fields)), key)
  {
    if IsOf(db.records, key.0, entity) {
      assert Covered(fx, db, key.0, Reshaped(db.records[key.0], fields).data);
    }
  }

  lemma UncoveredIsUnsound(fx: Functions, db: Db, entity: string, fields: set<string>, r: Uuid)
    requires IsOf(db.records, r, entity) && !Covered(fx, db, r, Reshaped(db.records[r], fields).data)
    ensures !Sound(fx, Step(fx, db, Publish(entity, fields)))
  {
    var data := Reshaped(db.records[r], fields).data;
    var key :| key in db.shares && key.0 == r && db.shares[key].rule.Some?
      && PassesGate(db.rules, db.shares[key])
      && !Matches(fx, db.rules[db.shares[key].rule.value].condition, data);
    assert !SoundAt(fx, Step(fx, db, Publish(entity, fields)), key);
  }

  /** What the row holds that the publish hides or brings back. */
  function Toggled(row: Row, fields: set<string>): set<string> {
    set k | k in Stored(row) && (k in row.data) != IsShown(k, fields)
  }

  /** No rule of the entity names a field that the publish hides or brings back on some record. */
  ghost predicate Unmentioned(db: Db, entity: string, fields: set<string>) {
    forall id, r :: id in db.rules && db.rules[id].entity == entity && IsOf(db.records, r, entity) ==>
      Toggled(db.records[r], fields) !! E.Mentions(db.rules[id].condition)
  }

  lemma ReadsAlike(row: Row, fields: set<string>, names: set<string>)
    requires Toggled(row, fields) !! names
    ensures E.ReadAlike(row.data, Reshaped(row, fields).data, names)
  {
    forall f | f in names
      ensures E.Lookup(row.data, f) == E.Lookup(Reshaped(row, fields).data, f)
    {
      assert f !in Toggled(row, fields);
    }
  }

  /** That is enough. */
  lemma UnmentionedIsCovered(fx: Functions, db: Db, entity: string, fields: set<string>)
    requires Valid(fx, db) && db.stale == {} && Unmentioned(db, entity, fields)
    ensures AllRecordsCovered(fx, db, entity, fields)
  {
    forall r, key | IsOf(db.records, r, entity) && key in db.shares && key.0 == r
      && db.shares[key].rule.Some? && PassesGate(db.rules, db.shares[key])
      ensures Matches(fx, db.rules[db.shares[key].rule.value].condition, Reshaped(db.records[r], fields).data)
    {
      UnmentionedStillMatches(fx, db, entity, fields, r, key);
    }
  }

  lemma UnmentionedStillMatches(
      fx: Functions, db: Db, entity: string, fields: set<string>, r: Uuid, key: (Uuid, Uuid))
    requires Valid(fx, db) && db.stale == {} && Unmentioned(db, entity, fields) && IsOf(db.records, r, entity)
    requires key in db.shares && key.0 == r && db.shares[key].rule.Some? && PassesGate(db.rules, db.shares[key])
    ensures Matches(fx, db.rules[db.shares[key].rule.value].condition, Reshaped(db.records[r], fields).data)
  {
    var id := db.shares[key].rule.value;
    var row, rule := db.records[r], db.rules[id];
    assert RowOk(fx, db.records, db.stale, db.rules, key, db.shares[key]);
    assert id in db.rules && db.rules[id].entity == entity && IsOf(db.records, r, entity);
    ReadsAlike(row, fields, E.Mentions(rule.condition));
    var env := E.Env(row.data, fx.named, fx.rounded);
    E.OnlyMentionedFields(rule.condition, env, Reshaped(row, fields).data, 0, E.STEP_BUDGET);
  }

  /** Every publish of the run hides and brings back only what no rule names at that time. */
  ghost predicate PublishesUnmentioned(fx: Functions, db: Db, es: seq<Event>)
    decreases |es|
  {
    es == []
    || ((es[0].Publish? ==> Unmentioned(db, es[0].entity, es[0].fields))
        && PublishesUnmentioned(fx, Step(fx, db, es[0]), es[1..]))
  }

  lemma UnmentionedStep(fx: Functions, db: Db, es: seq<Event>) returns (db': Db)
    requires Valid(fx, db) && db.stale == {} && es != [] && PublishesUnmentioned(fx, db, es)
    ensures db' == Step(fx, db, es[0]) && Valid(fx, db') && db'.stale == {} && PublishCovered(fx, db, es[0])
    ensures PublishesUnmentioned(fx, db', es[1..])
  {
    db' := Step(fx, db, es[0]);
    if es[0].Publish? {
      UnmentionedIsCovered(fx, db, es[0].entity, es[0].fields);
    }
    StepKeepsValid(fx, db, es[0]);
    CoveredStepNotStale(fx, db, es[0]);
  }

  /** So a run that retires and un-retires only what no rule names is sound throughout. */
  lemma {:induction false} UnmentionedRunsCovered(fx: Functions, db: Db, es: seq<Event>)
    requires Valid(fx, db) && db.stale == {} && PublishesUnmentioned(fx, db, es)
    ensures AllCovered(fx, db, es)
    decreases |es|
  {
    if es != [] {
      var db' := UnmentionedStep(fx, db, es);
      UnmentionedRunsCovered(fx, db', es[1..]);
    }
  }

  // ===== epochs and manual shares =====

  lemma UsedGrows(fx: Functions, db: Db, e: Event)
    requires RulesOk(db.rules, db.used)
    ensures RulesOk(Step(fx, db, e).rules, Step(fx, db, e).used) && db.used <= Step(fx, db, e).used
  {
  }

  lemma EpochStep(fx: Functions, db: Db, e: Event, id: Uuid)
    requires RulesOk(db.rules, db.used)
    ensures id in db.used && id !in db.rules ==> id !in Step(fx, db, e).rules
    ensures id in db.rules && id in Step(fx, db, e).rules ==> db.rules[id].epoch <= Step(fx, db, e).rules[id].epoch
  {
  }

  /**
   Over every run the epoch of a rule only grows, and a rule that is gone never comes back under
   its id, so no share of it can ever pass the gate again.
   */
  lemma {:induction false} EpochsGrow(fx: Functions, db: Db, es: seq<Event>, id: Uuid)
    requires Valid(fx, db) && id in db.used
    ensures id !in db.rules ==> id !in Run(fx, db, es).rules
    ensures id in db.rules && id in Run(fx, db, es).rules ==> db.rules[id].epoch <= Run(fx, db, es).rules[id].epoch
    decreases |es|
  {
    if es != [] {
      UsedGrows(fx, db, es[0]);
      EpochStep(fx, db, es[0], id);
      StepKeepsValid(fx, db, es[0]);
      EpochsGrow(fx, Step(fx, db, es[0]), es[1..], id);
    }
  }

  predicate RuleEvent(e: Event) {
    e.CreateRule? || e.UpdateRule? || e.DeleteRule? || e.ReadRule? || e.ScanRule?
  }

  predicate IsManual(shares: Shares, key: (Uuid, Uuid)) {
    key in shares && shares[key].rule.None?
  }

  /** No rule operation and no recompute adds, changes or removes a manual share. */
  lemma ManualUntouched(fx: Functions, db: Db, e: Event, key: (Uuid, Uuid))
    requires RuleEvent(e)
    ensures IsManual(Step(fx, db, e).shares, key) <==> IsManual(db.shares, key)
    ensures IsManual(db.shares, key) ==> Step(fx, db, e).shares[key] == db.shares[key]
  {
    match e
    case CreateRule(id, entity, condition, principal, access, now) =>
      PassAdds(fx, db.records, Rule(id, entity, condition, principal, access, 1, true, now), None, DEFAULT_LIMIT,
        db.shares, key);
    case UpdateRule(id, _, _, _, _) =>
      if id in db.rules {
        PassAdds(fx, db.records, Edited(db.rules[id], e), None, DEFAULT_LIMIT, WithoutRule(db.shares, id), key);
      }
    case ScanRule(job, from, limit) =>
      if job in db.pending {
        PassAdds(fx, db.records, db.pending[job], from, Clamp(limit), db.shares, key);
      }
    case _ =>
  }

  // ===== what is granted, and what an edit leaves dark =====

  predicate Live(db: Db, key: (Uuid, Uuid), id: Uuid) {
    key in db.shares && db.shares[key].rule == Some(id) && PassesGate(db.rules, db.shares[key])
  }

  /** The record is among the first `limit` of the entity past `from`, and matches. */
  predicate ScanGrants(
      fx: Functions, records: Records, entity: string, condition: E.Expr, from: Option<Uuid>, limit: nat, record: Uuid)
  {
    var ids := IdsAfter(records, entity, from);
    record in ids[..Min(limit, |ids|)] && record in records && Matches(fx, condition, records[record].data)
  }

  /** A new rule grants at once: every match among the scanned records whose slot was free is live. */
  lemma CreateGrants(fx: Functions, db: Db, e: Event, key: (Uuid, Uuid))
    requires Valid(fx, db) && e.CreateRule? && e.id !in db.used
    ensures Live(Step(fx, db, e), key, e.id) <==>
      && key !in db.shares && key.1 == e.principal
      && ScanGrants(fx, db.records, e.entity, e.condition, None, DEFAULT_LIMIT, key.0)
  {
    var ids := IdsAfter(db.records, e.entity, None);
    var row := Rule(e.id, e.entity, e.condition, e.principal, e.access, 1, true, e.now);
    MaterializedExactly(fx, db.records, row, ids, Min(DEFAULT_LIMIT, |ids|), db.shares, key);
    if key in db.shares {
      assert RowOk(fx, db.records, db.stale, db.rules, key, db.shares[key]);
    }
    if key.0 in ids[..Min(DEFAULT_LIMIT, |ids|)] {
      assert key.0 in ids;
    }
  }

  /** An edit re-materializes at the epoch it has just retired: afterwards no share of the rule is live. */
  lemma EditLeavesNothingLive(fx: Functions, db: Db, e: Event, key: (Uuid, Uuid))
    requires Valid(fx, db) && e.UpdateRule? && e.id in db.rules && Changes(e)
    ensures !Live(Step(fx, db, e), key, e.id)
  {
    PassAdds(fx, db.records, Edited(db.rules[e.id], e), None, DEFAULT_LIMIT, WithoutRule(db.shares, e.id), key);
  }

  /**
   Recomputing an active rule from a fresh read makes live exactly the scanned matches whose
   slot holds no row, next to what was live before.
   */
  lemma RecomputeGrants(fx: Functions, db: Db, job: nat, id: Uuid, from: Option<Uuid>, limit: int, key: (Uuid, Uuid))
    requires Valid(fx, db) && id in db.rules && db.rules[id].active
    ensures Live(Step(fx, Step(fx, db, ReadRule(job, id)), ScanRule(job, from, limit)), key, id)
       <==> Live(db, key, id)
            || (key !in db.shares && key.1 == db.rules[id].principal
                && ScanGrants(fx, db.records, db.rules[id].entity, db.rules[id].condition, from, Clamp(limit), key.0))
  {
    var ids := IdsAfter(db.records, db.rules[id].entity, from);
    MaterializedExactly(fx, db.records, db.rules[id], ids, Min(Clamp(limit), |ids|), db.shares, key);
    if key.0 in ids[..Min(Clamp(limit), |ids|)] {
      assert key.0 in ids;
    }
  }

  /**
   The rows an edit left behind block the catch-up: a recompute right after an effective edit of
   an active rule makes live exactly the scanned matches whose slot no other row holds and that
   the edit itself, scanning the first 5000, did not reach.
   */
  lemma EditThenRecomputeGrants(
      fx: Functions, db: Db, e: Event, job: nat, from: Option<Uuid>, limit: int, key: (Uuid, Uuid))
    requires Valid(fx, db) && e.UpdateRule? && e.id in db.rules && Changes(e) && Edited(db.rules[e.id], e).active
    ensures var row, edited := Edited(db.rules[e.id], e), Step(fx, db, e);
      Live(Step(fx, Step(fx, edited, ReadRule(job, e.id)), ScanRule(job, from, limit)), key, e.id)
      <==> (key !in WithoutRule(db.shares, e.id) && key.1 == row.principal
            && ScanGrants(fx, db.records, row.entity, row.condition, from, Clamp(limit), key.0)
            && !ScanGrants(fx, db.records, row.entity, row.condition, None, DEFAULT_LIMIT, key.0))
  {
    var edited, row := Step(fx, db, e), Edited(db.rules[e.id], e);
    StepKeepsValid(fx, db, e);
    EditLeavesNothingLive(fx, db, e, key);
    RecomputeGrants(fx, edited, job, e.id, from, limit, key);
    var ids := IdsAfter(db.records, row.entity, None);
    MaterializedExactly(fx, db.records, row, ids, Min(DEFAULT_LIMIT, |ids|), WithoutRule(db.shares, e.id), key);
    if key.0 in ids[..Min(DEFAULT_LIMIT, |ids|)] {
      assert key.0 in ids;
    }
  }

  /** A write to the record repairs it: the first matching rule's share is live at once. */
  lemma WriteGrants(
      fx: Functions, db: Db, record: Uuid, entity: string, data: E.Record, hidden: E.Record, principal: Uuid, i: nat)
    requires Valid(fx, db) && (record in db.records ==> db.records[record].entity == entity)
    requires IsFirstMatch(fx, db.rules, LoadRules(db.rules, entity), i, principal, data)
    requires !IsManual(db.shares, (record, principal))
    ensures Live(Step(fx, db, WriteRecord(record, entity, data, hidden)), (record, principal),
                 LoadRules(db.rules, entity)[i])
  {
    var ids := LoadRules(db.rules, entity);
    var key := (record, principal);
    RecomputedExactly(fx, db.rules, db.shares, record, entity, data, key);
    var after := Recomputed(fx, db.rules, db.shares, record, entity, data);
    assert Grants(fx, db.rules[ids[i]], principal, data);
    var j: nat :| j < |ids| && IsFirstMatch(fx, db.rules, ids, j, principal, data)
      && after[key] == ShareOf(db.rules[ids[j]]);
    assert i == j;
  }

  /** One record, and one rule that grants it to principal 7 for reading. */
  const ALWAYS := E.Lit(E.Bool(true))
  const GRANT := Rule(3, "order", ALWAYS, 7, Read, 1, true, 0)
  const GRANTED := Db(map[1 := Row("order", map[], map[])], map[3 := GRANT], map[(1, 7) := ShareOf(GRANT)], {3},
    map[], {})

  /** Widening that rule to writing takes the record away from the principal it is meant to grant more. */
  lemma WideningRevokesExample(fx: Functions)
    ensures var after := Step(fx, GRANTED, UpdateRule(3, None, None, Some(Access.Write), None));
      && Live(GRANTED, (1, 7), 3) && !Live(after, (1, 7), 3)
      && 3 in after.rules && after.rules[3].active && after.rules[3].principal == 7
      && 1 in after.records && Matches(fx, after.rules[3].condition, after.records[1].data)
  {
    assert Matches(fx, ALWAYS, map[]);
    assert Valid(fx, GRANTED);
    EditLeavesNothingLive(fx, GRANTED, UpdateRule(3, None, None, Some(Access.Write), None), (1, 7));
  }

  // ----- a retired field -----

  const IS_OPEN := E.Cmp("eq", E.Field("status"), E.Lit(E.Str("open")))
  const GRANT_OPEN := CreateRule(3, "order", IS_OPEN, 7, Read, 0)
  const OPEN_ORDER := WriteRecord(1, "order", map["status" := E.Str("open")], map[])

  /** The field a rule looks at is retired. */
  const RETIRE_STATUS := Publish("order", {})

  lemma MatchesOpen(fx: Functions, data: E.Record)
    requires E.Lookup(data, "status") in {E.Str("open"), E.Null}
    ensures Matches(fx, IS_OPEN, data) <==> E.Lookup(data, "status") == E.Str("open")
  {
    var env := E.Env(data, fx.named, fx.rounded);
    assert E.Bounded(IS_OPEN.lhs, env, 1, E.STEP_BUDGET - 1).result == Ok(E.Lookup(data, "status"));
    assert E.Bounded(IS_OPEN.rhs, env, 1, E.STEP_BUDGET - 2).result == Ok(E.Str("open"));
  }

  const GRANTED_OPEN := Rule(3, "order", IS_OPEN, 7, Read, 1, true, 0)

  lemma OpenRuleMade(fx: Functions)
    ensures Step(fx, EMPTY, GRANT_OPEN) == EMPTY.(rules := map[3 := GRANTED_OPEN], used := {3})
  {
    var ids := IdsAfter(map[], "order", None);
    assert forall id :: id in ids ==> Selected(map[], "order", None, id);
    assert ids == [];
  }

  lemma OpenOrderIsLive(fx: Functions)
    ensures Live(Step(fx, Step(fx, EMPTY, GRANT_OPEN), OPEN_ORDER), (1, 7), 3)
  {
    var made := Step(fx, EMPTY, GRANT_OPEN);
    var ids, data := LoadRules(made.rules, "order"), map["status" := E.Str("open")];
    OpenRuleMade(fx);
    StepKeepsValid(fx, EMPTY, GRANT_OPEN);
    MatchesOpen(fx, data);
    assert 3 in made.rules && 3 in ids;
    var i: nat :| i < |ids| && ids[i] == 3;
    assert forall k :: 0 <= k < i ==> ids[k] in made.rules;
    WriteGrants(fx, made, 1, "order", data, map[], 7, i);
  }

  lemma RetiredStaysLive(fx: Functions, db: Db)
    requires Live(db, (1, 7), 3) && db.rules == map[3 := GRANTED_OPEN]
    requires 1 in db.records && db.records[1] == Row("order", map["status" := E.Str("open")], map[])
    ensures var db' := Step(fx, db, RETIRE_STATUS); Live(db', (1, 7), 3) && !Sound(fx, db')
  {
    var data := Reshaped(db.records[1], {}).data;
    assert "status" !in data;
    MatchesOpen(fx, data);
    assert !Matches(fx, db.rules[db.shares[(1, 7)].rule.value].condition, data);
    assert IsOf(db.records, 1, "order");
    UncoveredIsUnsound(fx, db, "order", {}, 1);
  }

  lemma RunOfThree(fx: Functions, a: Event, b: Event, c: Event)
    ensures Run(fx, EMPTY, [a, b]) == Step(fx, Step(fx, EMPTY, a), b)
    ensures Run(fx, EMPTY, [a, b, c]) == Step(fx, Step(fx, Step(fx, EMPTY, a), b), c)
  {
    var first, second := Step(fx, EMPTY, a), Step(fx, Step(fx, EMPTY, a), b);
    assert [a, b][1..] == [b] && [b][1..] == [] && [a, b, c][1..] == [b, c] && [b, c][1..] == [c] && [c][1..] == [];
    assert Run(fx, second, []) == second && Run(fx, first, [b]) == second;
    assert Run(fx, second, [c]) == Run(fx, Step(fx, second, c), []) && Run(fx, first, [b, c]) == Run(fx, second, [c]);
  }

  /** From empty tables: a rule is made, an order it matches is written, and the field is retired. */
  lemma RetiredFieldExample(fx: Functions)
    ensures Live(Run(fx, EMPTY, [GRANT_OPEN, OPEN_ORDER]), (1, 7), 3)
    ensures Live(Run(fx, EMPTY, [GRANT_OPEN, OPEN_ORDER, RETIRE_STATUS]), (1, 7), 3)
    ensures !Sound(fx, Run(fx, EMPTY, [GRANT_OPEN, OPEN_ORDER, RETIRE_STATUS]))
  {
    RunOfThree(fx, GRANT_OPEN, OPEN_ORDER, RETIRE_STATUS);
    OpenRuleMade(fx);
    OpenOrderIsLive(fx);
    RetiredStaysLive(fx, Step(fx, Step(fx, EMPTY, GRANT_OPEN), OPEN_ORDER));
  }
}
