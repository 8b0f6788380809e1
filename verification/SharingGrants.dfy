/** What a write and a rule edit grant, in terms of the rule rows alone. */
module SharingGrants {
  import opened Common
  import opened Sharing
  import opened SharingMachine
  import Ordering
  import E = Expressions

  /** An active rule of the entity for the principal that matches the document. */
  ghost predicate Applies(fx: Functions, r: Rule, entity: string, principal: Uuid, data: E.Record) {
    r.active && r.entity == entity && r.principal == principal && Matches(fx, r.condition, data)
  }

  predicate Older(a: Rule, b: Rule) {
    a.createdAt < b.createdAt || (a.createdAt == b.createdAt && a.id < b.id)
  }

  /** The oldest rule that applies. */
  ghost predicate Chosen(fx: Functions, rules: Rules, entity: string, principal: Uuid, data: E.Record, id: Uuid) {
    && id in rules && Applies(fx, rules[id], entity, principal, data)
    && forall other :: other in rules && other != id && Applies(fx, rules[other], entity, principal, data) ==>
         Older(rules[id], rules[other])
  }

  predicate OwnIds(rules: Rules) {
    forall id :: id in rules ==> rules[id].id == id
  }

  lemma FirstIsChosen(fx: Functions, rules: Rules, entity: string, principal: Uuid, data: E.Record, i: nat)
    requires OwnIds(rules) && IsFirstMatch(fx, rules, LoadRules(rules, entity), i, principal, data)
    ensures Chosen(fx, rules, entity, principal, data, LoadRules(rules, entity)[i])
  {
    var ids := LoadRules(rules, entity);
    forall other | other in rules && other != ids[i] && Applies(fx, rules[other], entity, principal, data)
      ensures Older(rules[ids[i]], rules[other])
    {
      var k :| 0 <= k < |ids| && ids[k] == other;
      assert Grants(fx, rules[ids[k]], principal, data);
      assert Ordering.Before((rules[ids[i]].createdAt, ids[i]), (rules[ids[k]].createdAt, ids[k]));
    }
  }

  lemma ChosenIsListed(
      fx: Functions, rules: Rules, entity: string, principal: Uuid, data: E.Record, id: Uuid)
    returns (k: nat)
    requires Chosen(fx, rules, entity, principal, data, id)
    ensures k < |LoadRules(rules, entity)| && Grants(fx, rules[LoadRules(rules, entity)[k]], principal, data)
  {
    var ids := LoadRules(rules, entity);
    k :| 0 <= k < |ids| && ids[k] == id;
  }

  /** There is one chosen rule at most. */
  lemma ChosenIsOne(fx: Functions, rules: Rules, entity: string, principal: Uuid, data: E.Record, a: Uuid, b: Uuid)
    requires Chosen(fx, rules, entity, principal, data, a) && Chosen(fx, rules, entity, principal, data, b)
    ensures a == b
  {
  }

  /**
   What a record's recompute leaves for a principal: a share given by hand stays; otherwise the
   oldest rule that applies gives its access at its epoch, and if none applies there is none.
   */
  lemma RecomputeGrantsOldest(
      fx: Functions, rules: Rules, shares: Shares, record: Uuid, entity: string, data: E.Record, principal: Uuid)
    requires OwnIds(rules) && !IsManual(shares, (record, principal))
    ensures var after, key := Recomputed(fx, rules, shares, record, entity, data), (record, principal);
      && (key in after <==> exists id :: Chosen(fx, rules, entity, principal, data, id))
      && forall id :: Chosen(fx, rules, entity, principal, data, id) ==>
           key in after && after[key] == Share(entity, rules[id].access, Some(id), rules[id].epoch)
  {
    var after, ids := Recomputed(fx, rules, shares, record, entity, data), LoadRules(rules, entity);
    var key := (record, principal);
    RecomputedExactly(fx, rules, shares, record, entity, data, key);
    forall id | Chosen(fx, rules, entity, principal, data, id)
      ensures key in after
    {
      var k := ChosenIsListed(fx, rules, entity, principal, data, id);
    }
    if key in after {
      var i: nat :| i < |ids| && IsFirstMatch(fx, rules, ids, i, principal, data)
        && after[key] == ShareOf(rules[ids[i]]);
      FirstIsChosen(fx, rules, entity, principal, data, i);
      forall id | Chosen(fx, rules, entity, principal, data, id)
        ensures id == ids[i]
      {
        ChosenIsOne(fx, rules, entity, principal, data, id, ids[i]);
      }
    }
  }

  /** An edit stores what it was given and nothing else. */
  lemma EditIsStored(fx: Functions, db: Db, e: Event)
    requires e.UpdateRule? && e.id in db.rules
    ensures var rules := Step(fx, db, e).rules;
      && rules.Keys == db.rules.Keys && IsEdited(db.rules[e.id], e, rules[e.id])
      && forall id :: id in db.rules && id != e.id ==> rules[id] == db.rules[id]
  {
  }

  /**
   After an edit, a write of a record settles what the rule grants on it: a live share of the
   rule names the new principal and carries the new access, of an active rule whose new
   condition matches; and there is one, unless the place is taken by hand or by an older rule.
   */
  lemma EditThenWriteGrants(
      fx: Functions, db: Db, e: Event, record: Uuid, entity: string, data: E.Record, hidden: E.Record, principal: Uuid)
    requires Valid(fx, db) && e.UpdateRule? && e.id in db.rules
    requires record in db.records ==> db.records[record].entity == entity
    ensures var edited := Step(fx, db, e);
      var after, key := Step(fx, edited, WriteRecord(record, entity, data, hidden)), (record, principal);
      && IsEdited(db.rules[e.id], e, after.rules[e.id])
      && (Live(after, key, e.id) <==>
            !IsManual(edited.shares, key) && Chosen(fx, edited.rules, entity, principal, data, e.id))
      && (Live(after, key, e.id) ==> after.shares[key].access == after.rules[e.id].access)
  {
    var edited := Step(fx, db, e);
    StepKeepsValid(fx, db, e);
    EditIsStored(fx, db, e);
    WriteSettles(fx, edited, record, entity, data, hidden, principal, e.id);
  }

  /** A write of a record makes the oldest rule that applies live, with its access, where no share by hand stands. */
  lemma WriteSettles(
      fx: Functions, db: Db, record: Uuid, entity: string, data: E.Record, hidden: E.Record, principal: Uuid, id: Uuid)
    requires Valid(fx, db) && id in db.rules && (record in db.records ==> db.records[record].entity == entity)
    ensures var after, key := Step(fx, db, WriteRecord(record, entity, data, hidden)), (record, principal);
      && after.rules == db.rules
      && (Live(after, key, id) <==> !IsManual(db.shares, key) && Chosen(fx, db.rules, entity, principal, data, id))
      && (Live(after, key, id) ==> after.shares[key].access == db.rules[id].access)
  {
    var key := (record, principal);
    if IsManual(db.shares, key) {
      RecomputedExactly(fx, db.rules, db.shares, record, entity, data, key);
    } else {
      RecomputeGrantsOldest(fx, db.rules, db.shares, record, entity, data, principal);
    }
  }

  // ===== the tables after each event =====

  /** Only these events touch records: a write replaces its own, a delete or cascade takes its own away. */
  lemma RecordsAfter(fx: Functions, db: Db, e: Event, r: Uuid)
    requires !e.Publish?
    ensures var now := Step(fx, db, e).records;
      && (e.WriteRecord? && e.record == r && (r in db.records ==> db.records[r].entity == e.entity) ==>
            r in now && now[r] == Row(e.entity, e.data, e.hidden))
      && ((e.DeleteRecord? || e.CascadeDelete?) && e.record == r ==> r !in now)
      && (!((e.WriteRecord? || e.DeleteRecord? || e.CascadeDelete?) && e.record == r) ==>
            (r in now <==> r in db.records) && (r in db.records ==> now[r] == db.records[r]))
  {
  }

  /** A publish takes nothing from a row; it shows the active fields and the system columns and hides the rest. */
  lemma PublishShows(fx: Functions, db: Db, entity: string, fields: set<string>, r: Uuid, k: string)
    requires r in db.records && db.records[r].entity == entity
    ensures var row, now := db.records[r], Step(fx, db, Publish(entity, fields)).records;
      var held := k in row.data || k in row.hidden;
      var shown := k in fields || k in ["id", "version", "owner_id", "state", "created_at", "updated_at"];
      && r in now && now[r].entity == entity
      && (k in now[r].data <==> held && shown) && (k in now[r].hidden <==> held && !shown)
      && (held ==> (if shown then now[r].data[k] else now[r].hidden[k])
                   == (if k in row.data then row.data[k] else row.hidden[k]))
  {
  }

  /** And leaves the records of other entities alone, as it does rules and shares. */
  lemma PublishLeavesOthers(fx: Functions, db: Db, entity: string, fields: set<string>, r: Uuid)
    ensures var db' := Step(fx, db, Publish(entity, fields));
      && db'.rules == db.rules && db'.shares == db.shares && (r in db'.records <==> r in db.records)
      && (r in db.records && db.records[r].entity != entity ==> db'.records[r] == db.records[r])
  {
  }

  /** A new rule is active and at its first epoch; a deleted one is gone; no other event changes rules but an edit. */
  lemma RulesAfter(fx: Functions, db: Db, e: Event, id: Uuid)
    requires !e.UpdateRule?
    ensures var now := Step(fx, db, e).rules;
      && (e.CreateRule? && e.id == id && id !in db.used ==>
            id in now && now[id] == Rule(id, e.entity, e.condition, e.principal, e.access, 1, true, e.now))
      && (e.DeleteRule? && e.id == id ==> id !in now)
      && (!((e.CreateRule? || e.DeleteRule?) && e.id == id) ==>
            (id in now <==> id in db.rules) && (id in db.rules ==> now[id] == db.rules[id]))
  {
  }

  /** A recompute in two parts: the read remembers an active rule as it is, the scan forgets it. */
  lemma PendingAfter(fx: Functions, db: Db, e: Event, job: nat)
    ensures var now := Step(fx, db, e).pending;
      && (e.ReadRule? && e.job == job && e.id in db.rules && db.rules[e.id].active ==>
            job in now && now[job] == db.rules[e.id])
      && (e.ScanRule? && e.job == job ==> job !in now)
      && (!((e.ReadRule? || e.ScanRule?) && e.job == job) ==>
            (job in now <==> job in db.pending) && (job in db.pending ==> now[job] == db.pending[job]))
  {
  }

  /** A rule that is deleted or switched off keeps no row, and no other row is touched. */
  lemma RowsOfRuleGone(fx: Functions, db: Db, e: Event, key: (Uuid, Uuid))
    requires (e.DeleteRule? && e.id in db.rules) || (e.UpdateRule? && e.id in db.rules && e.newActive == Some(false))
    ensures var now := Step(fx, db, e).shares;
      && (key in now <==> key in db.shares && db.shares[key].rule != Some(e.id))
      && (key in now ==> now[key] == db.shares[key])
  {
  }

  /** What is refused, and what concerns no share, changes none. */
  lemma SharesStay(fx: Functions, db: Db, e: Event)
    requires
      || e.ReadRule? || e.CascadeDelete? || (e.DeleteRecord? && e.record !in db.records)
      || (e.WriteRecord? && e.record in db.records && db.records[e.record].entity != e.entity)
      || (e.CreateRule? && e.id in db.used) || ((e.UpdateRule? || e.DeleteRule?) && e.id !in db.rules)
      || (e.ScanRule? && (e.job !in db.pending || db.pending[e.job].id !in db.rules))
    ensures Step(fx, db, e).shares == db.shares
    ensures e.DeleteRecord? || e.WriteRecord? || e.CreateRule? ==> Step(fx, db, e) == db
  {
  }

  /** A record that has just been written or deleted is not stale. */
  lemma FreshAgain(fx: Functions, db: Db, e: Event)
    requires (e.DeleteRecord? && e.record in db.records)
      || (e.WriteRecord? && (e.record in db.records ==> db.records[e.record].entity == e.entity))
    ensures Step(fx, db, e).stale == db.stale - {e.record}
  {
  }

  /** The reported count is the number of records scanned that match. */
  lemma {:induction false} CountIsOfMatches(fx: Functions, records: Records, rule: Rule, ids: seq<Uuid>, n: nat)
    requires n <= |ids| && forall i :: 0 <= i < |ids| ==> ids[i] in records
    ensures MatchCount(fx, records, rule, ids, n)
      == |set i: nat | i < n && Matches(fx, rule.condition, records[ids[i]].data)|
  {
    var found := set i: nat | i < n && Matches(fx, rule.condition, records[ids[i]].data);
    if n > 0 {
      CountIsOfMatches(fx, records, rule, ids, n - 1);
      var before := set i: nat | i < n - 1 && Matches(fx, rule.condition, records[ids[i]].data);
      if Matches(fx, rule.condition, records[ids[n - 1]].data) {
        assert found == before + {n - 1};
      } else {
        assert found == before;
      }
    }
  }
}
