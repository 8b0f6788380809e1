/**
 Criteria-based sharing rules. Shares are materialized rows stamped with their rule's epoch,
 and honoured only while that epoch is current. The machine below interleaves record writes,
 rule edits and two-transaction recomputes; each transaction is one step.
 */
module Sharing {
  import opened Common
  import opened Ordering
  import E = Expressions

  datatype Access = Read | Write

  datatype Rule = Rule(
    id: Uuid,
    entity: string,
    condition: E.Expr,
    principal: Uuid,
    access: Access,
    epoch: nat,
    active: bool,
    createdAt: int)

  /** A row of the share table, keyed by (record, principal); no rule means a manual share. */
  datatype Share = Share(entity: string, access: Access, rule: Option<Uuid>, epoch: nat)

  /** A record: the document that conditions see, and what it holds under retired fields and references. */
  datatype Row = Row(entity: string, data: E.Record, hidden: E.Record)

  type Rules = map<Uuid, Rule>
  type Shares = map<(Uuid, Uuid), Share>
  type Records = map<Uuid, Row>

  /** The registered functions and the float rounding conditions are evaluated with. */
  datatype Functions = Functions(named: map<string, seq<E.Value> -> Option<E.Value>>, rounded: real -> Option<real>)

  const DEFAULT_LIMIT: nat := 5000
  const MAX_LIMIT: nat := 50_000

  // ===== conditions and the gate =====

  /** A condition that fails to evaluate matches nothing. */
  predicate Matches(fx: Functions, condition: E.Expr, data: E.Record) {
    var r := E.Evaluated(condition, E.Env(data, fx.named, fx.rounded));
    r.Ok? && E.Truth(r.value)
  }

  /** The epoch gate of the read and write predicates. */
  predicate PassesGate(rules: Rules, s: Share) {
    s.rule.None? || (s.rule.value in rules && rules[s.rule.value].active && s.epoch == rules[s.rule.value].epoch)
  }

  function ShareOf(r: Rule): Share {
    Share(r.entity, r.access, Some(r.id), r.epoch)
  }

  /** `ON CONFLICT (tenant_id, record_id, principal_id) DO NOTHING`. */
  function InsertIfAbsent(shares: Shares, key: (Uuid, Uuid), s: Share): Shares {
    if key in shares then shares else shares[key := s]
  }

  // ===== recomputing one record =====

  function WithoutRuleShares(shares: Shares, record: Uuid): Shares {
    map k | k in shares && !(k.0 == record && shares[k].rule.Some?) :: shares[k]
  }

  function RuleKeys(rules: Rules, entity: string): set<Key> {
    set id | id in rules && rules[id].entity == entity && rules[id].active :: (rules[id].createdAt, id)
  }

  lemma KeysNameRules(rules: Rules, entity: string, keys: seq<Key>)
    requires forall k :: k in keys <==> k in RuleKeys(rules, entity)
    ensures forall i :: 0 <= i < |keys| ==> var id := keys[i].1;
      id in rules && rules[id].entity == entity && rules[id].active && keys[i].0 == rules[id].createdAt
    ensures forall id :: id in rules && rules[id].entity == entity && rules[id].active ==> exists i ::
      0 <= i < |keys| && keys[i].1 == id
  {
    forall i | 0 <= i < |keys|
      ensures keys[i] in RuleKeys(rules, entity)
    {
    }
    forall id | id in rules && rules[id].entity == entity && rules[id].active
      ensures exists i :: 0 <= i < |keys| && keys[i].1 == id
    {
      var k := (rules[id].createdAt, id);
      assert k in RuleKeys(rules, entity) && k in keys;
    }
  }

  /** `load_rules`: the active rules of the entity by (created_at, id). */
  function LoadRules(rules: Rules, entity: string): (ids: seq<Uuid>)
    ensures forall i :: 0 <= i < |ids| ==> ids[i] in rules && rules[ids[i]].entity == entity && rules[ids[i]].active
    ensures forall id :: id in rules && rules[id].entity == entity && rules[id].active ==> id in ids
    ensures forall i, j :: 0 <= i < j < |ids| ==>
      Before((rules[ids[i]].createdAt, ids[i]), (rules[ids[j]].createdAt, ids[j]))
  {
    var keys := InOrder(RuleKeys(rules, entity));
    KeysNameRules(rules, entity, keys);
    var ids := seq(|keys|, i requires 0 <= i < |keys| => keys[i].1);
    assert forall i :: 0 <= i < |keys| ==> ids[i] == keys[i].1;
    ids
  }

  /** The shares after offering the record to the first `n` rules. */
  function Offered(
      fx: Functions, rules: Rules, ids: seq<Uuid>, n: nat, shares: Shares, record: Uuid, data: E.Record): Shares
    requires n <= |ids| && forall i :: 0 <= i < |ids| ==> ids[i] in rules
  {
    if n == 0 then shares
    else
      var before := Offered(fx, rules, ids, n - 1, shares, record, data);
      var r := rules[ids[n - 1]];
      if Matches(fx, r.condition, data) then InsertIfAbsent(before, (record, r.principal), ShareOf(r)) else before
  }

  lemma OfferedStep(fx: Functions, rules: Rules, ids: seq<Uuid>, n: nat, shares: Shares, record: Uuid, data: E.Record)
    requires n < |ids| && forall i :: 0 <= i < |ids| ==> ids[i] in rules
    ensures Offered(fx, rules, ids, n + 1, shares, record, data)
         == if Matches(fx, rules[ids[n]].condition, data)
            then InsertIfAbsent(Offered(fx, rules, ids, n, shares, record, data), (record, rules[ids[n]].principal),
              ShareOf(rules[ids[n]]))
            else Offered(fx, rules, ids, n, shares, record, data)
  {
  }

  function Recomputed(
      fx: Functions, rules: Rules, shares: Shares, record: Uuid, entity: string, data: E.Record): Shares
  {
    var ids := LoadRules(rules, entity);
    Offered(fx, rules, ids, |ids|, WithoutRuleShares(shares, record), record, data)
  }

  ghost predicate Grants(fx: Functions, r: Rule, principal: Uuid, data: E.Record) {
    r.principal == principal && Matches(fx, r.condition, data)
  }

  /** `ids[i]` is the first rule, in order, that grants the record to `principal`. */
  ghost predicate IsFirstMatch(fx: Functions, rules: Rules, ids: seq<Uuid>, i: nat, principal: Uuid, data: E.Record)
    requires forall k :: 0 <= k < |ids| ==> ids[k] in rules
  {
    && i < |ids| && Grants(fx, rules[ids[i]], principal, data)
    && forall k :: 0 <= k < i ==> !Grants(fx, rules[ids[k]], principal, data)
  }

  /** `s` is what the first matching of the first `n` rules materializes. */
  ghost predicate FromFirstMatch(
      fx: Functions, rules: Rules, ids: seq<Uuid>, n: nat, principal: Uuid, data: E.Record, s: Share)
    requires forall k :: 0 <= k < |ids| ==> ids[k] in rules
  {
    exists i: nat :: i < n && IsFirstMatch(fx, rules, ids, i, principal, data) && s == ShareOf(rules[ids[i]])
  }

  lemma {:induction false} OfferedExactly(
      fx: Functions, rules: Rules, ids: seq<Uuid>, n: nat, shares: Shares, record: Uuid, data: E.Record,
      key: (Uuid, Uuid))
    requires n <= |ids| && forall i :: 0 <= i < |ids| ==> ids[i] in rules
    ensures var after := Offered(fx, rules, ids, n, shares, record, data);
            && (key in shares ==> key in after && after[key] == shares[key])
            && (key !in shares && key.0 != record ==> key !in after)
            && (key !in shares && key in after ==> FromFirstMatch(fx, rules, ids, n, key.1, data, after[key]))
            && (key.0 == record && key !in after ==> forall k :: 0 <= k < n ==> !Grants(fx, rules[ids[k]], key.1, data))
  {
    if n > 0 {
      OfferedExactly(fx, rules, ids, n - 1, shares, record, data, key);
      var before := Offered(fx, rules, ids, n - 1, shares, record, data);
      if key !in before && key.0 == record && Grants(fx, rules[ids[n - 1]], key.1, data) {
        assert IsFirstMatch(fx, rules, ids, n - 1, key.1, data);
      }
    }
  }

  /**
   After a record's recompute its shares are exactly its manual rows, untouched, plus, for
   every principal without one, the first matching active rule at that rule's current epoch.
   */
  lemma RecomputedExactly(
      fx: Functions, rules: Rules, shares: Shares, record: Uuid, entity: string, data: E.Record, key: (Uuid, Uuid))
    ensures var after, ids := Recomputed(fx, rules, shares, record, entity, data), LoadRules(rules, entity);
            if key.0 != record || (key in shares && shares[key].rule.None?)
            then (key in after <==> key in shares) && (key in shares ==> after[key] == shares[key])
            else if key in after then FromFirstMatch(fx, rules, ids, |ids|, key.1, data, after[key])
            else forall k :: 0 <= k < |ids| ==> !Grants(fx, rules[ids[k]], key.1, data)
  {
    var ids := LoadRules(rules, entity);
    OfferedExactly(fx, rules, ids, |ids|, WithoutRuleShares(shares, record), record, data, key);
  }

  // ===== materializing one rule =====

  function IdKeys(records: Records, entity: string, from: Option<Uuid>): set<Key> {
    set id | id in records && records[id].entity == entity && (from.None? || id > from.value) :: (id, id)
  }

  ghost predicate Ascending(ids: seq<Uuid>) {
    forall i, j :: 0 <= i < j < |ids| ==> ids[i] < ids[j]
  }

  predicate Selected(records: Records, entity: string, from: Option<Uuid>, id: Uuid) {
    id in records && records[id].entity == entity && (from.None? || id > from.value)
  }

  ghost predicate Selects(ids: seq<Uuid>, records: Records, entity: string, from: Option<Uuid>) {
    forall id :: id in ids <==> Selected(records, entity, from, id)
  }

  lemma SelectedKnown(ids: seq<Uuid>, records: Records, entity: string, from: Option<Uuid>)
    requires Selects(ids, records, entity, from)
    ensures forall i :: 0 <= i < |ids| ==> ids[i] in records
  {
    forall i | 0 <= i < |ids|
      ensures ids[i] in records
    {
      assert ids[i] in ids;
      assert Selected(records, entity, from, ids[i]);
    }
  }

  /** The ids of the entity's records past `from`, ascending. */
  function IdsAfter(records: Records, entity: string, from: Option<Uuid>): (ids: seq<Uuid>)
    ensures Ascending(ids) && Selects(ids, records, entity, from)
    ensures forall i :: 0 <= i < |ids| ==> ids[i] in records
  {
    var keys := InOrder(IdKeys(records, entity, from));
    var ids := seq(|keys|, i requires 0 <= i < |keys| => keys[i].0);
    assert forall i :: 0 <= i < |ids| ==> keys[i] in IdKeys(records, entity, from);
    assert forall id :: Selected(records, entity, from, id) ==> id in ids by {
      forall id | Selected(records, entity, from, id)
        ensures id in ids
      {
        assert (id, id) in IdKeys(records, entity, from) && (id, id) in keys;
        var i :| 0 <= i < |keys| && keys[i] == (id, id);
        assert ids[i] == id;
      }
    }
    SelectedKnown(ids, records, entity, from);
    ids
  }

  /** The first `n` ids offered to the rule: additive, and at the epoch of the row it was given. */
  function Materialized(fx: Functions, records: Records, rule: Rule, ids: seq<Uuid>, n: nat, shares: Shares): Shares
    requires n <= |ids| && forall i :: 0 <= i < |ids| ==> ids[i] in records
  {
    if n == 0 then shares
    else
      var before := Materialized(fx, records, rule, ids, n - 1, shares);
      if Matches(fx, rule.condition, records[ids[n - 1]].data)
      then InsertIfAbsent(before, (ids[n - 1], rule.principal), ShareOf(rule))
      else before
  }

  function Min(a: nat, b: nat): nat {
    if a < b then a else b
  }

  /** A pass from `from` with at most `limit` records. */
  function Pass(fx: Functions, records: Records, rule: Rule, from: Option<Uuid>, limit: nat, shares: Shares): Shares {
    var ids := IdsAfter(records, rule.entity, from);
    Materialized(fx, records, rule, ids, Min(limit, |ids|), shares)
  }

  /** The report of a pass. */
  datatype Stats = Stats(scanned: nat, materialized: nat, truncated: bool, lastId: Option<Uuid>)

  lemma IdsAfterTail(records: Records, entity: string, from: Option<Uuid>, k: nat)
    requires 0 < k <= |IdsAfter(records, entity, from)|
    ensures IdsAfter(records, entity, Some(IdsAfter(records, entity, from)[k - 1]))
      == IdsAfter(records, entity, from)[k..]
  {
    var all := IdsAfter(records, entity, from);
    var rest := IdsAfter(records, entity, Some(all[k - 1]));
    TailSelects(records, entity, from, all, k);
    assert forall id :: id in all[k..] <==> id in rest by {
      forall id
        ensures id in all[k..] <==> id in rest
      {
        assert id in rest <==> Selected(records, entity, Some(all[k - 1]), id);
      }
    }
    AscendingUnique(all[k..], rest);
  }

  lemma TailSelects(records: Records, entity: string, from: Option<Uuid>, all: seq<Uuid>, k: nat)
    requires Ascending(all) && Selects(all, records, entity, from) && 0 < k <= |all|
    ensures Ascending(all[k..]) && Selects(all[k..], records, entity, Some(all[k - 1]))
  {
    assert all[k - 1] in all;
    assert Selected(records, entity, from, all[k - 1]);
    forall id
      ensures id in all[k..] <==> Selected(records, entity, Some(all[k - 1]), id)
    {
      if id in all[k..] {
        assert id in all;
        assert Selected(records, entity, from, id);
      }
      if Selected(records, entity, Some(all[k - 1]), id) {
        assert Selected(records, entity, from, id);
        assert id in all;
        var i :| 0 <= i < |all| && all[i] == id;
        assert i >= k;
        assert all[k..][i - k] == id;
      }
    }
  }

  lemma {:induction false} AscendingUnique(a: seq<Uuid>, b: seq<Uuid>)
    requires Ascending(a) && Ascending(b) && forall k :: k in a <==> k in b
    ensures a == b
  {
    var x := seq(|a|, i requires 0 <= i < |a| => (a[i], a[i]));
    var y := seq(|b|, i requires 0 <= i < |b| => (b[i], b[i]));
    forall k
      ensures k in x <==> k in y
    {
      if k in x {
        var i :| 0 <= i < |x| && x[i] == k;
        assert a[i] in a;
        var j :| 0 <= j < |b| && b[j] == a[i];
        assert y[j] == k;
      }
      if k in y {
        var i :| 0 <= i < |y| && y[i] == k;
        assert b[i] in b;
        var j :| 0 <= j < |a| && a[j] == b[i];
        assert x[j] == k;
      }
    }
    SortedUnique(x, y);
    forall i | 0 <= i < |a|
      ensures a[i] == b[i]
    {
      assert x[i] == y[i];
    }
  }

  /**
   `materialize_rule`: fetch the next `batch` ids past the cursor, offer each in turn, stop at
   `limit` or when a fetch comes back empty.
   */
  method MaterializeRule(
      fx: Functions, records: Records, rule: Rule, from: Option<Uuid>, limit: nat, batch: nat, shares: Shares)
    returns (after: Shares, stats: Stats)
    requires limit > 0 && batch > 0
    ensures var ids := IdsAfter(records, rule.entity, from);
            && ScannedTo(fx, records, rule, ids, shares, after, stats)
            && stats.scanned == Min(limit, |ids|)
            && (stats.truncated <==> limit <= |ids|)
  {
    ghost var ids := IdsAfter(records, rule.entity, from);
    after := shares;
    var cursor := from;
    stats := Stats(0, 0, false, None);
    while !stats.truncated
      invariant ScannedTo(fx, records, rule, ids, shares, after, stats) && stats.scanned <= limit
      invariant stats.truncated <==> stats.scanned == limit
      invariant cursor == if stats.scanned == 0 then from else stats.lastId
      decreases |ids| - stats.scanned, !stats.truncated
    {
      NextIds(fx, records, rule, from, ids, shares, after, stats);
      var next := IdsAfter(records, rule.entity, cursor);
      var rows := next[..Min(batch, |next|)];
      if rows == [] {
        return;
      }
      after, stats := OfferRows(fx, records, rule, ids, rows, limit, shares, after, stats);
      cursor := stats.lastId;
    }
  }

  /** How many of the first `n` records match; the reported count, a slot already taken or not. */
  function MatchCount(fx: Functions, records: Records, rule: Rule, ids: seq<Uuid>, n: nat): nat
    requires n <= |ids| && forall i :: 0 <= i < |ids| ==> ids[i] in records
  {
    if n == 0 then 0
    else
      var last := if Matches(fx, rule.condition, records[ids[n - 1]].data) then 1 else 0;
      MatchCount(fx, records, rule, ids, n - 1) + last
  }

  /** The loop's state: the first `scanned` ids have been offered, the last of them is reported. */
  ghost predicate ScannedTo(
      fx: Functions, records: Records, rule: Rule, ids: seq<Uuid>, shares: Shares, after: Shares, stats: Stats)
    requires forall i :: 0 <= i < |ids| ==> ids[i] in records
  {
    && stats.scanned <= |ids|
    && stats.materialized == MatchCount(fx, records, rule, ids, stats.scanned)
    && after == Materialized(fx, records, rule, ids, stats.scanned, shares)
    && stats.lastId == if stats.scanned == 0 then None else Some(ids[stats.scanned - 1])
  }

  lemma NextIds(
      fx: Functions, records: Records, rule: Rule, from: Option<Uuid>, ids: seq<Uuid>, shares: Shares, after: Shares,
      stats: Stats)
    requires ids == IdsAfter(records, rule.entity, from) && ScannedTo(fx, records, rule, ids, shares, after, stats)
    ensures IdsAfter(records, rule.entity, if stats.scanned == 0 then from else stats.lastId) == ids[stats.scanned..]
  {
    if stats.scanned > 0 {
      IdsAfterTail(records, rule.entity, from, stats.scanned);
    }
  }

  /** The inner loop: offer the fetched rows one by one, stopping at the limit. */
  method OfferRows(
      fx: Functions, records: Records, rule: Rule, ghost ids: seq<Uuid>, rows: seq<Uuid>, limit: nat,
      ghost shares: Shares, before: Shares, begun: Stats)
    returns (after: Shares, stats: Stats)
    requires rows != [] && (forall i :: 0 <= i < |ids| ==> ids[i] in records)
    requires begun.scanned + |rows| <= |ids| && rows == ids[begun.scanned..begun.scanned + |rows|]
    requires ScannedTo(fx, records, rule, ids, shares, before, begun) && begun.scanned < limit && !begun.truncated
    ensures ScannedTo(fx, records, rule, ids, shares, after, stats)
    ensures stats.scanned == Min(limit, begun.scanned + |rows|) && (stats.truncated <==> stats.scanned == limit)
  {
    after, stats := before, begun;
    for i := 0 to |rows|
      invariant stats.scanned == begun.scanned + i && stats.scanned < limit && !stats.truncated
      invariant ScannedTo(fx, records, rule, ids, shares, after, stats)
    {
      var rid := rows[i];
      assert rid == ids[begun.scanned + i];
      stats := stats.(scanned := stats.scanned + 1, lastId := Some(rid));
      if Matches(fx, rule.condition, records[rid].data) {
        after := InsertIfAbsent(after, (rid, rule.principal), ShareOf(rule));
        stats := stats.(materialized := stats.materialized + 1);
      }
      if stats.scanned >= limit {
        stats := stats.(truncated := true);
        return;
      }
    }
  }

  lemma {:induction false} MaterializedSplit(
      fx: Functions, records: Records, rule: Rule, ids: seq<Uuid>, m: nat, n: nat, shares: Shares)
    requires m + n <= |ids| && forall i :: 0 <= i < |ids| ==> ids[i] in records
    ensures Materialized(fx, records, rule, ids, m + n, shares)
         == Materialized(fx, records, rule, ids[m..], n, Materialized(fx, records, rule, ids, m, shares))
    decreases n
  {
    if n > 0 {
      MaterializedSplit(fx, records, rule, ids, m, n - 1, shares);
      assert ids[m..][n - 1] == ids[m + n - 1];
    }
  }

  /** Resuming from the last reported id until a pass is not truncated; pass `k` uses `limits(k)`. */
  ghost function Resumed(
      fx: Functions, records: Records, rule: Rule, from: Option<Uuid>, limits: nat -> nat, k: nat, shares: Shares)
    : (r: (Shares, seq<Uuid>))
    requires forall i :: limits(i) > 0
    decreases |IdsAfter(records, rule.entity, from)|
  {
    var ids, n := IdsAfter(records, rule.entity, from), limits(k);
    var after := Pass(fx, records, rule, from, n, shares);
    if n > |ids| then (after, ids)
    else
      IdsAfterTail(records, rule.entity, from, n);
      var rest := Resumed(fx, records, rule, Some(ids[n - 1]), limits, k + 1, after);
      (rest.0, ids[..n] + rest.1)
  }

  /** One untruncated scan of everything past `from`. */
  function OneScan(
      fx: Functions, records: Records, rule: Rule, from: Option<Uuid>, shares: Shares): (Shares, seq<Uuid>)
  {
    var ids := IdsAfter(records, rule.entity, from);
    (Materialized(fx, records, rule, ids, |ids|, shares), ids)
  }

  /** Scanning a list in two parts is scanning it. */
  lemma ScanInTwo(fx: Functions, records: Records, rule: Rule, ids: seq<Uuid>, n: nat, shares: Shares)
    requires n <= |ids| && forall i :: 0 <= i < |ids| ==> ids[i] in records
    ensures Materialized(fx, records, rule, ids[n..], |ids[n..]|, Materialized(fx, records, rule, ids, n, shares))
         == Materialized(fx, records, rule, ids, |ids|, shares)
  {
    MaterializedSplit(fx, records, rule, ids, n, |ids| - n, shares);
  }

  lemma SplitSeq<T>(s: seq<T>, n: nat)
    requires n <= |s|
    ensures s[..n] + s[n..] == s
  {
  }

  /** A truncated pass followed by one scan of the rest is one scan. */
  lemma PassThenScan(
      fx: Functions, records: Records, rule: Rule, from: Option<Uuid>, ids: seq<Uuid>, n: nat, shares: Shares,
      first: Shares, rest: (Shares, seq<Uuid>))
    requires ids == IdsAfter(records, rule.entity, from) && n <= |ids|
    requires first == Materialized(fx, records, rule, ids, n, shares)
    requires rest == (Materialized(fx, records, rule, ids[n..], |ids[n..]|, first), ids[n..])
    ensures OneScan(fx, records, rule, from, shares) == (rest.0, ids[..n] + rest.1)
  {
    SplitSeq(ids, n);
    ScanInTwo(fx, records, rule, ids, n, shares);
  }

  /** Resuming from `from` with the `k`-th limit is one scan. */
  ghost predicate IsOneScan(
      fx: Functions, records: Records, rule: Rule, from: Option<Uuid>, limits: nat -> nat, k: nat, shares: Shares)
    requires forall i :: limits(i) > 0
  {
    Resumed(fx, records, rule, from, limits, k, shares) == OneScan(fx, records, rule, from, shares)
  }

  /** How much is left to scan past `from`. */
  function Left(records: Records, rule: Rule, from: Option<Uuid>): nat {
    |IdsAfter(records, rule.entity, from)|
  }

  lemma LastPass(
      fx: Functions, records: Records, rule: Rule, from: Option<Uuid>, limits: nat -> nat, k: nat, shares: Shares)
    requires (forall i :: limits(i) > 0) && limits(k) > Left(records, rule, from)
    ensures IsOneScan(fx, records, rule, from, limits, k, shares)
  {
  }

  /** What a pass over the first `n` ids leaves is followed by the outcome of the rest. */
  predicate Continues(ids: seq<Uuid>, n: nat, whole: (Shares, seq<Uuid>), rest: (Shares, seq<Uuid>))
    requires n <= |ids|
  {
    whole == (rest.0, ids[..n] + rest.1)
  }

  /** Where a truncated pass stops. */
  function Stop(records: Records, rule: Rule, from: Option<Uuid>, n: nat): Option<Uuid>
    requires 0 < n <= |IdsAfter(records, rule.entity, from)|
  {
    Some(IdsAfter(records, rule.entity, from)[n - 1])
  }

  lemma ResumedContinues(
      fx: Functions, records: Records, rule: Rule, from: Option<Uuid>, limits: nat -> nat, k: nat, shares: Shares)
    requires (forall i :: limits(i) > 0) && limits(k) <= |IdsAfter(records, rule.entity, from)|
    ensures var next, first := Stop(records, rule, from, limits(k)), Pass(fx, records, rule, from, limits(k), shares);
      Continues(IdsAfter(records, rule.entity, from), limits(k), Resumed(fx, records, rule, from, limits, k, shares),
                Resumed(fx, records, rule, next, limits, k + 1, first))
  {
  }

  lemma OneScanContinues(fx: Functions, records: Records, rule: Rule, from: Option<Uuid>, n: nat, shares: Shares)
    requires 0 < n <= |IdsAfter(records, rule.entity, from)|
    ensures var next, first := Stop(records, rule, from, n), Pass(fx, records, rule, from, n, shares);
      && |IdsAfter(records, rule.entity, next)| < |IdsAfter(records, rule.entity, from)|
      && Continues(IdsAfter(records, rule.entity, from), n, OneScan(fx, records, rule, from, shares),
                   OneScan(fx, records, rule, next, first))
  {
    var ids, next := IdsAfter(records, rule.entity, from), Stop(records, rule, from, n);
    var first := Pass(fx, records, rule, from, n, shares);
    IdsAfterTail(records, rule.entity, from, n);
    PassThenScan(fx, records, rule, from, ids, n, shares, first, OneScan(fx, records, rule, next, first));
  }

  lemma SameContinuation(
      ids: seq<Uuid>, n: nat, a: (Shares, seq<Uuid>), b: (Shares, seq<Uuid>), rest: (Shares, seq<Uuid>))
    requires n <= |ids| && Continues(ids, n, a, rest) && Continues(ids, n, b, rest)
    ensures a == b
  {
  }

  /** A truncated pass: what is left is shorter, and if resuming there is one scan, so is resuming here. */
  lemma TruncatedPass(
      fx: Functions, records: Records, rule: Rule, from: Option<Uuid>, limits: nat -> nat, k: nat, shares: Shares)
    returns (next: Option<Uuid>, first: Shares)
    requires (forall i :: limits(i) > 0) && limits(k) <= Left(records, rule, from)
    ensures Left(records, rule, next) < Left(records, rule, from)
    ensures IsOneScan(fx, records, rule, next, limits, k + 1, first) ==>
      IsOneScan(fx, records, rule, from, limits, k, shares)
  {
    var ids, n := IdsAfter(records, rule.entity, from), limits(k);
    next, first := Stop(records, rule, from, n), Pass(fx, records, rule, from, n, shares);
    ResumedContinues(fx, records, rule, from, limits, k, shares);
    OneScanContinues(fx, records, rule, from, n, shares);
    if IsOneScan(fx, records, rule, next, limits, k + 1, first) {
      var resumed := Resumed(fx, records, rule, from, limits, k, shares);
      var scan := OneScan(fx, records, rule, from, shares);
      SameContinuation(ids, n, resumed, scan, OneScan(fx, records, rule, next, first));
    }
  }

  lemma {:induction false} ResumedWithin(
      fx: Functions, records: Records, rule: Rule, from: Option<Uuid>, limits: nat -> nat, k: nat, shares: Shares,
      left: nat)
    requires (forall i :: limits(i) > 0) && Left(records, rule, from) <= left
    ensures IsOneScan(fx, records, rule, from, limits, k, shares)
    decreases left
  {
    if limits(k) > Left(records, rule, from) {
      LastPass(fx, records, rule, from, limits, k, shares);
    } else {
      var next, first := TruncatedPass(fx, records, rule, from, limits, k, shares);
      ResumedWithin(fx, records, rule, next, limits, k + 1, first, left - 1);
    }
  }

  /**
   On unchanged data, resuming with any limits ends, scans every record exactly once, in
   order, and leaves the shares of one unbounded scan.
   */
  lemma ResumedIsOneScan(
      fx: Functions, records: Records, rule: Rule, from: Option<Uuid>, limits: nat -> nat, k: nat, shares: Shares)
    requires forall i :: limits(i) > 0
    ensures Resumed(fx, records, rule, from, limits, k, shares) == OneScan(fx, records, rule, from, shares)
  {
    ResumedWithin(fx, records, rule, from, limits, k, shares, Left(records, rule, from));
  }

  /** What a scan adds: a row for every matching scanned record whose slot was free. */
  lemma {:induction false} MaterializedExactly(
      fx: Functions, records: Records, rule: Rule, ids: seq<Uuid>, n: nat, shares: Shares, key: (Uuid, Uuid))
    requires n <= |ids| && forall i :: 0 <= i < |ids| ==> ids[i] in records
    ensures var after := Materialized(fx, records, rule, ids, n, shares);
            if key in shares then key in after && after[key] == shares[key]
            else if key.1 == rule.principal && key.0 in ids[..n] && Matches(fx, rule.condition, records[key.0].data)
            then key in after && after[key] == ShareOf(rule)
            else key !in after
  {
    if n > 0 {
      MaterializedExactly(fx, records, rule, ids, n - 1, shares, key);
      assert ids[..n] == ids[..n - 1] + [ids[n - 1]];
    }
  }
}
