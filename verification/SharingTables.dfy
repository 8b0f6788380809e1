/** The handlers and transaction cores, over tables updated in place. */
module SharingTables {
  import opened Common
  import opened Sharing
  import opened SharingMachine
  import E = Expressions

  predicate GivesNothing(e: Event)
    requires e.UpdateRule?
  {
    e.newCondition.None? && e.newPrincipal.None? && e.newAccess.None? && e.newActive.None?
  }

  /** The records an `ON DELETE CASCADE` takes along, one event each. */
  function Cascades(records: seq<Uuid>): (es: seq<Event>)
    ensures |es| == |records|
  {
    seq(|records|, i requires 0 <= i < |records| => CascadeDelete(records[i]))
  }

  /** What a recompute reports: how many records it scanned, how many matched, where it stopped and why. */
  ghost predicate Reports(fx: Functions, records: Records, row: Rule, from: Option<Uuid>, limit: int, stats: Stats) {
    var ids := IdsAfter(records, row.entity, from);
    && stats.scanned == Min(if limit < 1 then 1 else if limit > 50_000 then 50_000 else limit, |ids|)
    && stats.materialized == MatchCount(fx, records, row, ids, stats.scanned)
    && stats.lastId == (if stats.scanned == 0 then None else Some(ids[stats.scanned - 1]))
    && (stats.truncated <==> Clamp(limit) <= |ids|)
  }

  lemma ScanReports(
      fx: Functions, records: Records, row: Rule, from: Option<Uuid>, limit: int, shares: Shares, after: Shares,
      stats: Stats)
    requires ScannedTo(fx, records, row, IdsAfter(records, row.entity, from), shares, after, stats)
    requires stats.scanned == Min(Clamp(limit), |IdsAfter(records, row.entity, from)|)
    requires stats.truncated <==> Clamp(limit) <= |IdsAfter(records, row.entity, from)|
    ensures Reports(fx, records, row, from, limit, stats)
    ensures after == Pass(fx, records, row, from, Clamp(limit), shares)
  {
  }

  class Tables {
    const fx: Functions
    var records: Records
    var rules: Rules
    var shares: Shares
    var used: set<Uuid>
    var pending: map<nat, Rule>
    ghost var stale: set<Uuid>

    constructor (fx: Functions)
      ensures State() == EMPTY && Valid(fx, State()) && this.fx == fx
    {
      this.fx := fx;
      records, rules, shares := map[], map[], map[];
      used, pending, stale := {}, map[], {};
    }

    ghost function State(): Db
      reads this
    {
      Db(records, rules, shares, used, pending, stale)
    }

    /** `recompute_record`: drop the record's rule-derived rows, then offer it to each rule. */
    method RecomputeRecord(record: Uuid, entity: string, data: E.Record)
      modifies this`shares
      ensures shares == Recomputed(fx, rules, old(shares), record, entity, data)
    {
      var ids := LoadRules(rules, entity);
      shares := WithoutRuleShares(shares, record);
      OfferAll(ids, record, data);
    }

    /** Each rule in turn; the first to take a principal's slot keeps it. */
    method OfferAll(ids: seq<Uuid>, record: Uuid, data: E.Record)
      requires forall i :: 0 <= i < |ids| ==> ids[i] in rules
      modifies this`shares
      ensures shares == Offered(fx, rules, ids, |ids|, old(shares), record, data)
    {
      ghost var manual := shares;
      for i := 0 to |ids|
        invariant shares == Offered(fx, rules, ids, i, manual, record, data)
      {
        var r := rules[ids[i]];
        OfferedStep(fx, rules, ids, i, manual, record, data);
        if Matches(fx, r.condition, data) {
          shares := InsertIfAbsent(shares, (record, r.principal), ShareOf(r));
        }
      }
    }

    /** The share-relevant core of `create_tx`, `update_tx` and `restore_tx`. */
    method Write(record: Uuid, entity: string, data: E.Record, hidden: E.Record)
      requires Valid(fx, State())
      requires record in records ==> records[record].entity == entity
      modifies this
      ensures State() == Step(fx, old(State()), WriteRecord(record, entity, data, hidden))
      ensures Valid(fx, State())
    {
      StepKeepsValid(fx, State(), WriteRecord(record, entity, data, hidden));
      records, stale := records[record := Row(entity, data, hidden)], stale - {record};
      RecomputeRecord(record, entity, data);
    }

    /** The database takes these rows along. */
    method CascadeAll(cascaded: seq<Uuid>)
      modifies this`records
      ensures State() == Run(fx, old(State()), Cascades(cascaded))
      ensures records.Keys == old(records.Keys) - (set i | i in cascaded)
    {
      ghost var before, es := State(), Cascades(cascaded);
      assert es[0..] == es;
      for i := 0 to |cascaded|
        invariant records.Keys == old(records.Keys) - (set x | x in cascaded[..i])
        invariant Run(fx, State(), es[i..]) == Run(fx, before, es)
      {
        assert es[i..][1..] == es[i + 1..] && cascaded[..i + 1] == cascaded[..i] + [cascaded[i]];
        records := Without(records, cascaded[i]);
      }
      assert cascaded[..|cascaded|] == cascaded;
    }

    /**
     `delete_tx`: the row, with the rows that cascade from it, directly or through others, and
     `drop_record_shares` for this record alone. `refusal` is what a foreign key that restricts
     the delete, or cannot clear the reference, answers.
     */
    method Delete(record: Uuid, cascaded: seq<Uuid>, refusal: Option<Error>) returns (r: Result<(), Error>)
      requires Valid(fx, State())
      modifies this
      ensures r == if record !in old(records) then Err(NotFound)
                   else if refusal.Some? then Err(refusal.value) else Ok(())
      ensures State() ==
        if r.Ok? then Run(fx, old(State()), [DeleteRecord(record)] + Cascades(cascaded)) else old(State())
      ensures Valid(fx, State())
      ensures r.Ok? ==> records.Keys == old(records.Keys) - {record} - (set i | i in cascaded)
      ensures r.Ok? ==> shares == WithoutRecord(old(shares), record)
    {
      if record !in records {
        return Err(NotFound);
      }
      if refusal.Some? {
        return Err(refusal.value);
      }
      ghost var before, es := State(), Cascades(cascaded);
      EveryRunSound(fx, before, [DeleteRecord(record)] + es);
      records := Without(records, record);
      shares := WithoutRecord(shares, record);
      stale := stale - {record};
      assert ([DeleteRecord(record)] + es)[1..] == es;
      CascadeAll(cascaded);
      return Ok(());
    }

    /** `create_share`: by hand, to an active user, where no rule holds the place. */
    method ShareRecord(record: Uuid, principal: Uuid, access: Access, isActiveUser: bool) returns (r: Result<(), Error>)
      requires Valid(fx, State())
      modifies this
      ensures State() == if r.Ok? then Step(fx, old(State()), ShareManually(record, principal, access))
        else old(State())
      ensures Valid(fx, State())
      ensures r ==
        if record !in old(records) then Err(NotFound)
        else if !isActiveUser then Err(Invalid)
        else if (record, principal) in old(shares) && old(shares)[(record, principal)].rule.Some? then Err(Conflict)
        else Ok(())
      ensures r.Ok? ==> (record, principal) in shares && shares[(record, principal)].rule.None?
                        && shares[(record, principal)].access == access
    {
      var key := (record, principal);
      if record !in records {
        return Err(NotFound);
      }
      if !isActiveUser {
        return Err(Invalid);
      }
      if key in shares && shares[key].rule.Some? {
        return Err(Conflict);
      }
      StepKeepsValid(fx, State(), ShareManually(record, principal, access));
      var share := if key in shares then shares[key].(access := access)
        else Share(records[record].entity, access, None, 0);
      shares := shares[key := share];
      return Ok(());
    }

    /** `delete_share`: only what was given by hand. */
    method UnshareRecord(record: Uuid, principal: Uuid) returns (r: Result<(), Error>)
      requires Valid(fx, State())
      modifies this
      ensures State() == Step(fx, old(State()), Unshare(record, principal))
      ensures Valid(fx, State())
      ensures r.Ok? <==> (record, principal) in old(shares) && old(shares)[(record, principal)].rule.None?
      ensures r.Err? ==> r.error == NotFound && shares == old(shares)
      ensures r.Ok? ==> shares == old(shares) - {(record, principal)}
    {
      StepKeepsValid(fx, State(), Unshare(record, principal));
      var key := (record, principal);
      if key !in shares || shares[key].rule.Some? {
        return Err(NotFound);
      }
      shares := map k | k in shares && k != key :: shares[k];
      assert shares == old(shares) - {key};
      return Ok(());
    }

    /** `create_share_rule`: a purely additive grant, so no epoch bump. */
    method AddRule(id: Uuid, entity: string, condition: E.Expr, principal: Uuid, access: Access, now: int, batch: nat)
      requires Valid(fx, State()) && id !in used && batch > 0
      modifies this
      ensures State() == Step(fx, old(State()), CreateRule(id, entity, condition, principal, access, now))
      ensures Valid(fx, State())
    {
      StepKeepsValid(fx, State(), CreateRule(id, entity, condition, principal, access, now));
      var row := Rule(id, entity, condition, principal, access, 1, true, now);
      rules := rules[id := row];
      used := used + {id};
      var stats;
      shares, stats := MaterializeRule(fx, records, row, None, DEFAULT_LIMIT, batch, shares);
    }

    /** `bump_epoch`: the rule's shares stop passing the gate, and no other share is affected. */
    method BumpEpoch(id: Uuid)
      requires id in rules
      modifies this`rules
      ensures rules == old(rules)[id := old(rules)[id].(epoch := old(rules)[id].epoch + 1)]
      ensures SharesOk(fx, records, stale, old(rules), shares) ==>
                forall key :: key in shares ==>
                  PassesGate(rules, shares[key])
                    == (shares[key].rule != Some(id) && PassesGate(old(rules), shares[key]))
    {
      ghost var before := rules;
      rules := rules[id := rules[id].(epoch := rules[id].epoch + 1)];
      forall key | key in shares && SharesOk(fx, records, stale, before, shares)
        ensures PassesGate(rules, shares[key]) <==> shares[key].rule != Some(id) && PassesGate(before, shares[key])
      {
        assert RowOk(fx, records, stale, before, key, shares[key]);
      }
    }

    /** What the rule gave goes, and an active rule is scanned afresh. */
    method Rematerialize(id: Uuid, row: Rule, batch: nat)
      requires batch > 0
      modifies this`shares
      ensures var dropped := WithoutRule(old(shares), id);
        shares == if row.active then Pass(fx, records, row, None, DEFAULT_LIMIT, dropped) else dropped
    {
      shares := WithoutRule(shares, id);
      if row.active {
        var stats;
        shares, stats := MaterializeRule(fx, records, row, None, DEFAULT_LIMIT, batch, shares);
      }
    }

    /** `update_share_rule`: the row used to re-materialize is the one read before the bump. */
    method UpdateRule(e: Event, batch: nat) returns (r: Result<(), Error>)
      requires e.UpdateRule? && batch > 0
      modifies this
      ensures State() == Step(fx, old(State()), e)
      ensures r.Ok? <==> e.id in old(rules)
      ensures r.Ok? ==> rules.Keys == old(rules).Keys && IsEdited(old(rules)[e.id], e, rules[e.id])
      ensures r.Ok? ==> rules[e.id].epoch == old(rules)[e.id].epoch + if GivesNothing(e) then 0 else 1
      ensures forall id :: id in old(rules) && id != e.id ==> id in rules && rules[id] == old(rules)[id]
    {
      if e.id !in rules {
        return Err(NotFound);
      }
      var row := Edited(rules[e.id], e);
      rules := rules[e.id := row];
      if Changes(e) {
        BumpEpoch(e.id);
        Rematerialize(e.id, row, batch);
      }
      return Ok(());
    }

    /** `delete_share_rule`: the rows of the rule go with it (`ON DELETE CASCADE`). */
    method RemoveRule(id: Uuid) returns (r: Result<(), Error>)
      requires Valid(fx, State())
      modifies this
      ensures State() == Step(fx, old(State()), DeleteRule(id))
      ensures r.Ok? <==> id in old(rules)
      ensures Valid(fx, State())
    {
      StepKeepsValid(fx, State(), DeleteRule(id));
      if id !in rules {
        return Err(NotFound);
      }
      rules := map x | x in rules && x != id :: rules[x];
      shares := WithoutRule(shares, id);
      return Ok(());
    }

    /** The first transaction of `recompute_share_rule`. */
    method BeginRecompute(job: nat, id: Uuid) returns (r: Result<(), Error>)
      requires Valid(fx, State())
      modifies this
      ensures State() == Step(fx, old(State()), ReadRule(job, id))
      ensures r == if id !in old(rules) then Err(NotFound) else if !old(rules)[id].active then Err(Invalid) else Ok(())
      ensures Valid(fx, State())
    {
      StepKeepsValid(fx, State(), ReadRule(job, id));
      if id !in rules {
        return Err(NotFound);
      }
      if !rules[id].active {
        return Err(Invalid);
      }
      pending := pending[job := rules[id]];
      return Ok(());
    }

    /** The second transaction: scan with the row read earlier, however old it is by now. */
    method FinishRecompute(job: nat, from: Option<Uuid>, limit: int, batch: nat) returns (r: Result<Stats, Error>)
      requires Valid(fx, State()) && job in pending && batch > 0
      modifies this
      ensures State() == Step(fx, old(State()), ScanRule(job, from, limit))
      ensures Valid(fx, State())
      ensures var row := old(pending)[job];
        match r
        case Ok(stats) => Reports(fx, old(records), row, from, limit, stats)
        case Err(e) => e == Internal && row.id !in rules
                       && Pass(fx, old(records), row, from, Clamp(limit), old(shares)) != old(shares)
    {
      StepKeepsValid(fx, State(), ScanRule(job, from, limit));
      var row := pending[job];
      var after, stats := MaterializeRule(fx, records, row, from, Clamp(limit), batch, shares);
      ScanReports(fx, records, row, from, limit, shares, after, stats);
      pending := map j | j in pending && j != job :: pending[j];
      if row.id !in rules && after != shares {
        return Err(Internal);
      }
      if row.id in rules {
        shares := after;
      }
      return Ok(stats);
    }
  }
}
