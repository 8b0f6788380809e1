/**
 The webhook relay: read the cursor, fetch the next events, enqueue one delivery per matching
 subscription, write the cursor. Every insert commits on its own, so a crash between two of
 them, or a second relayer, may repeat deliveries. Sequence numbers are drawn before the commit,
 so events may commit in any order; the only ones ever missed are those that commit behind the
 cursor or behind a batch under way.
 */
module Relays {
  import opened Common

  const BATCH := 500

  datatype Event = Event(seqNo: int, tenant: Uuid, kind: string, entity: Option<string>)

  datatype Subscription = Subscription(
    id: Uuid,
    tenant: Uuid,
    active: bool,
    kinds: set<string>,
    entityFilter: Option<string>)

  /** A `webhook.deliver` row of the outbox. */
  datatype Delivery = Delivery(webhook: Uuid, event: Event)

  predicate Matches(w: Subscription, e: Event) {
    && w.tenant == e.tenant && w.active
    && (w.kinds == {} || e.kind in w.kinds || "*" in w.kinds)
    && (e.entity.None? || w.entityFilter.None? || w.entityFilter == e.entity)
  }

  function MatchIds(ws: seq<Subscription>, e: Event): set<Uuid> {
    set w | w in ws && Matches(w, e) :: w.id
  }

  /** A log by sequence number. */
  predicate Ordered(log: seq<Event>) {
    && (forall i :: 0 <= i < |log| ==> log[i].seqNo > 0)
    && forall i, j :: 0 <= i < j < |log| ==> log[i].seqNo < log[j].seqNo
  }

  /** A number drawn from the log's sequence and not used yet. */
  predicate Fresh(log: seq<Event>, e: Event) {
    e.seqNo > 0 && forall x :: x in log ==> x.seqNo != e.seqNo
  }

  function Inserted(log: seq<Event>, e: Event): seq<Event> {
    if log == [] || log[|log| - 1].seqNo < e.seqNo then log + [e]
    else Inserted(log[..|log| - 1], e) + [log[|log| - 1]]
  }

  lemma {:induction false} InsertedHolds(log: seq<Event>, e: Event)
    ensures forall x :: x in Inserted(log, e) <==> x in log || x == e
    decreases |log|
  {
    if log != [] && log[|log| - 1].seqNo >= e.seqNo {
      InsertedHolds(log[..|log| - 1], e);
      assert log == log[..|log| - 1] + [log[|log| - 1]];
    }
  }

  lemma OrderedSnoc(front: seq<Event>, last: Event)
    requires Ordered(front) && last.seqNo > 0 && forall x :: x in front ==> x.seqNo < last.seqNo
    ensures Ordered(front + [last])
  {
  }

  lemma OrderedFront(log: seq<Event>)
    requires Ordered(log) && log != []
    ensures var front, last := log[..|log| - 1], log[|log| - 1];
      && Ordered(front) && last in log && last.seqNo > 0
      && (forall x :: x in front ==> x in log && x.seqNo < last.seqNo)
      && (forall x :: x in log ==> x in front || x == last)
  {
  }

  lemma {:induction false} InsertedIsOrdered(log: seq<Event>, e: Event)
    requires Ordered(log) && Fresh(log, e)
    ensures Ordered(Inserted(log, e))
    decreases |log|
  {
    if log == [] {
      OrderedSnoc([], e);
    } else {
      var front, last := log[..|log| - 1], log[|log| - 1];
      OrderedFront(log);
      if last.seqNo < e.seqNo {
        OrderedSnoc(log, e);
      } else {
        InsertedIsOrdered(front, e);
        InsertedHolds(front, e);
        OrderedSnoc(Inserted(front, e), last);
      }
    }
  }

  /** The events after `last`, oldest first. */
  function After(log: seq<Event>, last: int): seq<Event> {
    if log == [] then []
    else After(log[..|log| - 1], last) + if log[|log| - 1].seqNo > last then [log[|log| - 1]] else []
  }

  function Fetched(log: seq<Event>, last: int): seq<Event> {
    var es := After(log, last);
    if |es| <= BATCH then es else es[..BATCH]
  }

  /** Where one pass of one relayer is. */
  datatype Relayer =
    | CursorRead(last: int)
    | Between(last: int, events: seq<Event>, done: nat)
    | Delivering(last: int, events: seq<Event>, done: nat, todo: set<Uuid>)

  /** `late` collects the events that committed behind the relay. */
  datatype Relay = Relay(
    log: seq<Event>,
    cursor: Option<int>,
    outbox: multiset<Delivery>,
    relayers: map<nat, Relayer>,
    late: set<Event>)

  datatype Action =
    | Append(event: Event)
    | Begin
    | Fetch
    | Select
    | Enqueue(webhook: Uuid)
    | NextEvent
    | WriteCursor
    | Crash

  const EMPTY := Relay([], None, multiset{}, map[], {})

  function CursorOf(r: Relay): int {
    if r.cursor.Some? then r.cursor.value else 0
  }

  /** The running maximum kept while the events are delivered. */
  function NewCursor(last: int, events: seq<Event>): int {
    if events == [] then last
    else
      var m := NewCursor(last, events[..|events| - 1]);
      var s := events[|events| - 1].seqNo;
      if s > m then s else m
  }

  /** How far a relayer will have moved the cursor, were it to finish. */
  function Horizon(x: Relayer): int {
    if x.CursorRead? || x.events == [] then x.last else x.events[|x.events| - 1].seqNo
  }

  /** The cursor, or a pass under way, has already gone by `n`. */
  predicate IsPast(r: Relay, n: int) {
    n <= CursorOf(r) || exists p :: p in r.relayers && n <= Horizon(r.relayers[p])
  }

  /** An event commits, wherever its number places it. */
  function Committed(r: Relay, e: Event): Relay {
    if !Fresh(r.log, e) then r
    else r.(log := Inserted(r.log, e), late := if IsPast(r, e.seqNo) then r.late + {e} else r.late)
  }

  function Gone(m: map<nat, Relayer>, p: nat): map<nat, Relayer> {
    map q | q in m && q != p :: m[q]
  }

  /** What one statement of a relayer leaves: where it is now (None: finished or gone), the cursor, the outbox. */
  datatype Effect = Effect(next: Option<Relayer>, cursor: Option<int>, outbox: multiset<Delivery>)

  /** One statement; what the relayer's place does not allow changes nothing. */
  function Move(ws: seq<Subscription>, r: Relay, x: Relayer, a: Action): Effect {
    var stay := Effect(Some(x), r.cursor, r.outbox);
    if a.Crash? then stay.(next := None)
    else match x
      case CursorRead(last) =>
        if !a.Fetch? then stay
        else if Fetched(r.log, last) == [] then stay.(next := None)
        else stay.(next := Some(Between(last, Fetched(r.log, last), 0)))
      case Between(last, es, done) =>
        if a.Select? && done < |es| then stay.(next := Some(Delivering(last, es, done, MatchIds(ws, es[done]))))
        else if a.WriteCursor? && done == |es| then Effect(None, Some(NewCursor(last, es)), r.outbox)
        else stay
      case Delivering(last, es, done, todo) =>
        if a.Enqueue? && a.webhook in todo && done < |es|
        then Effect(Some(Delivering(last, es, done, todo - {a.webhook})), r.cursor,
          r.outbox + multiset{Delivery(a.webhook, es[done])})
        else if a.NextEvent? && todo == {} then stay.(next := Some(Between(last, es, done + 1)))
        else stay
  }

  /** One statement of relayer `p`, the start of its pass, or a new event. */
  function Step(ws: seq<Subscription>, r: Relay, p: nat, a: Action): Relay {
    if a.Append? then Committed(r, a.event)
    else if p !in r.relayers then
      if a.Begin? then r.(relayers := r.relayers[p := CursorRead(CursorOf(r))]) else r
    else
      var f := Move(ws, r, r.relayers[p], a);
      r.(cursor := f.cursor, outbox := f.outbox,
        relayers := if f.next.Some? then r.relayers[p := f.next.value] else Gone(r.relayers, p))
  }

  function Run(ws: seq<Subscription>, r: Relay, steps: seq<(nat, Action)>): Relay
    decreases |steps|
  {
    if steps == [] then r else Run(ws, Step(ws, r, steps[0].0, steps[0].1), steps[1..])
  }

  // ===== nothing is missed =====

  ghost predicate Delivered(ws: seq<Subscription>, outbox: multiset<Delivery>, e: Event, except: set<Uuid>) {
    forall id :: id in MatchIds(ws, e) && id !in except ==> Delivery(id, e) in outbox
  }

  /** `e` is in the log and committed in time. */
  predicate InTime(r: Relay, e: Event) {
    e in r.log && e !in r.late
  }

  /** Every event in time up to `c` has a delivery for every matching subscription. */
  ghost predicate DeliveredUpTo(ws: seq<Subscription>, r: Relay, c: int) {
    forall e :: InTime(r, e) && e.seqNo <= c ==> Delivered(ws, r.outbox, e, {})
  }

  /** The batch holds the events in time between `last` and its own newest. */
  ghost predicate BatchOk(r: Relay, last: int, es: seq<Event>) {
    && es != [] && Ordered(es)
    && (forall i :: 0 <= i < |es| ==> last < es[i].seqNo <= es[|es| - 1].seqNo)
    && (forall e :: InTime(r, e) && last < e.seqNo <= es[|es| - 1].seqNo ==> e in es)
  }

  ghost predicate RelayerOk(ws: seq<Subscription>, r: Relay, x: Relayer) {
    && DeliveredUpTo(ws, r, x.last)
    && (!x.CursorRead? ==>
          && BatchOk(r, x.last, x.events) && x.done <= |x.events|
          && forall k :: 0 <= k < x.done ==> Delivered(ws, r.outbox, x.events[k], {}))
    && (x.Delivering? ==> x.done < |x.events| && Delivered(ws, r.outbox, x.events[x.done], x.todo))
  }

  ghost predicate Valid(ws: seq<Subscription>, r: Relay) {
    && Ordered(r.log)
    && DeliveredUpTo(ws, r, CursorOf(r))
    && forall p :: p in r.relayers ==> RelayerOk(ws, r, r.relayers[p])
  }

  /** The outbox lost nothing, and no event up to `c` came in time since. */
  ghost predicate Grown(r: Relay, r': Relay, c: int) {
    && (forall d :: d in r.outbox ==> d in r'.outbox)
    && (forall e :: InTime(r', e) && e.seqNo <= c ==> InTime(r, e))
  }

  lemma UpToStays(ws: seq<Subscription>, r: Relay, r': Relay, c: int)
    requires Grown(r, r', c) && DeliveredUpTo(ws, r, c)
    ensures DeliveredUpTo(ws, r', c)
  {
    forall e | InTime(r', e) && e.seqNo <= c
      ensures Delivered(ws, r'.outbox, e, {})
    {
      assert Delivered(ws, r.outbox, e, {});
    }
  }

  lemma BatchStays(r: Relay, r': Relay, last: int, es: seq<Event>)
    requires BatchOk(r, last, es) && Grown(r, r', es[|es| - 1].seqNo)
    ensures BatchOk(r', last, es)
  {
  }

  lemma RelayerStays(ws: seq<Subscription>, r: Relay, r': Relay, x: Relayer)
    requires RelayerOk(ws, r, x) && Grown(r, r', Horizon(x))
    ensures RelayerOk(ws, r', x)
  {
    UpToStays(ws, r, r', x.last);
    if !x.CursorRead? {
      BatchStays(r, r', x.last, x.events);
    }
  }

  lemma {:induction false} AfterHolds(log: seq<Event>, last: int, e: Event)
    ensures e in After(log, last) <==> e in log && e.seqNo > last
    decreases |log|
  {
    if log != [] {
      AfterHolds(log[..|log| - 1], last, e);
      assert log == log[..|log| - 1] + [log[|log| - 1]];
    }
  }

  lemma {:induction false} AfterOrdered(log: seq<Event>, last: int)
    requires Ordered(log)
    ensures Ordered(After(log, last))
    decreases |log|
  {
    if log != [] {
      var front := After(log[..|log| - 1], last);
      AfterOrdered(log[..|log| - 1], last);
      forall i | 0 <= i < |front|
        ensures front[i].seqNo < log[|log| - 1].seqNo
      {
        AfterHolds(log[..|log| - 1], last, front[i]);
      }
    }
  }

  /** The batch is the stretch of the log after `last`, up to its own newest event. */
  lemma FetchedIsStretch(log: seq<Event>, last: int, e: Event)
    requires Ordered(log) && Fetched(log, last) != []
    ensures var es := Fetched(log, last); e in es <==> e in log && last < e.seqNo <= es[|es| - 1].seqNo
  {
    var all, es := After(log, last), Fetched(log, last);
    AfterOrdered(log, last);
    AfterHolds(log, last, e);
    if e in all {
      var k :| 0 <= k < |all| && all[k] == e;
      assert k < |es| ==> es[k] == e;
    }
  }

  lemma FetchedIsBatch(r: Relay, last: int)
    requires Ordered(r.log) && Fetched(r.log, last) != []
    ensures BatchOk(r, last, Fetched(r.log, last))
  {
    var es := Fetched(r.log, last);
    AfterOrdered(r.log, last);
    forall e
      ensures e in es <==> e in r.log && last < e.seqNo <= es[|es| - 1].seqNo
    {
      FetchedIsStretch(r.log, last, e);
    }
  }

  lemma {:induction false} NewCursorIsNewest(last: int, es: seq<Event>)
    requires Ordered(es) && forall i :: 0 <= i < |es| ==> last < es[i].seqNo
    ensures NewCursor(last, es) == if es == [] then last else es[|es| - 1].seqNo
    decreases |es|
  {
    if es != [] {
      NewCursorIsNewest(last, es[..|es| - 1]);
    }
  }

  /** Having delivered its whole batch, a relayer may claim everything in time up to its newest event. */
  lemma BatchDelivered(ws: seq<Subscription>, r: Relay, x: Relayer)
    requires RelayerOk(ws, r, x) && x.Between? && x.done == |x.events|
    ensures DeliveredUpTo(ws, r, NewCursor(x.last, x.events))
  {
    NewCursorIsNewest(x.last, x.events);
    forall e | InTime(r, e) && e.seqNo <= NewCursor(x.last, x.events)
      ensures Delivered(ws, r.outbox, e, {})
    {
      if e.seqNo > x.last {
        var k :| 0 <= k < |x.events| && x.events[k] == e;
      }
    }
  }

  /** `r'` is `r` but for what the statement left in the cursor, the outbox and the relayers. */
  ghost predicate Moved(ws: seq<Subscription>, r: Relay, x: Relayer, a: Action, r': Relay) {
    var f := Move(ws, r, x, a);
    r'.log == r.log && r'.late == r.late && r'.cursor == f.cursor && r'.outbox == f.outbox
  }

  lemma MovedIsGrown(ws: seq<Subscription>, r: Relay, x: Relayer, a: Action, r': Relay, c: int)
    requires Moved(ws, r, x, a, r')
    ensures Grown(r, r', c)
  {
  }

  /** A relayer's own statement keeps the cursor's part of the invariant. */
  lemma CursorMove(ws: seq<Subscription>, r: Relay, x: Relayer, a: Action, r': Relay)
    requires RelayerOk(ws, r, x) && DeliveredUpTo(ws, r, CursorOf(r)) && Moved(ws, r, x, a, r')
    ensures DeliveredUpTo(ws, r', CursorOf(r'))
  {
    MovedIsGrown(ws, r, x, a, r', CursorOf(r));
    UpToStays(ws, r, r', CursorOf(r));
    if x.Between? && x.done == |x.events| {
      MovedIsGrown(ws, r, x, a, r', Horizon(x));
      RelayerStays(ws, r, r', x);
      BatchDelivered(ws, r', x);
    }
  }

  /** And its own. */
  lemma OwnMove(ws: seq<Subscription>, r: Relay, x: Relayer, a: Action, r': Relay)
    requires Ordered(r.log) && RelayerOk(ws, r, x) && Moved(ws, r, x, a, r')
    ensures var f := Move(ws, r, x, a); f.next.Some? ==> RelayerOk(ws, r', f.next.value)
  {
    MovedIsGrown(ws, r, x, a, r', Horizon(x));
    RelayerStays(ws, r, r', x);
    match x {
      case CursorRead(last) =>
        if Fetched(r.log, last) != [] {
          FetchedIsBatch(r', last);
        }
      case Between(_, _, _) =>
      case Delivering(_, _, _, _) => DeliveringMove(ws, r, x, a, r');
    }
  }

  lemma DeliveringMove(ws: seq<Subscription>, r: Relay, x: Relayer, a: Action, r': Relay)
    requires x.Delivering? && RelayerOk(ws, r', x) && Moved(ws, r, x, a, r')
    ensures var f := Move(ws, r, x, a); f.next.Some? ==> RelayerOk(ws, r', f.next.value)
  {
    var e := x.events[x.done];
    if a.Enqueue? && a.webhook in x.todo {
      assert Delivery(a.webhook, e) in r'.outbox;
      assert Delivered(ws, r'.outbox, e, x.todo - {a.webhook});
    } else if a.NextEvent? && x.todo == {} {
      assert forall k :: 0 <= k < x.done + 1 ==> Delivered(ws, r'.outbox, x.events[k], {});
    }
  }

  /** A commit is late for whoever has gone by it. */
  lemma CommittedIsGrown(r: Relay, e: Event, c: int)
    requires Ordered(r.log) && (c == CursorOf(r) || exists p :: p in r.relayers && c == Horizon(r.relayers[p]))
    ensures Grown(r, Committed(r, e), c) && Ordered(Committed(r, e).log)
  {
    if Fresh(r.log, e) {
      InsertedHolds(r.log, e);
      InsertedIsOrdered(r.log, e);
    }
  }

  lemma CommitKeepsValid(ws: seq<Subscription>, r: Relay, e: Event)
    requires Valid(ws, r)
    ensures Valid(ws, Committed(r, e))
  {
    var r' := Committed(r, e);
    CommittedIsGrown(r, e, CursorOf(r));
    UpToStays(ws, r, r', CursorOf(r));
    forall p | p in r'.relayers
      ensures RelayerOk(ws, r', r'.relayers[p])
    {
      CommittedIsGrown(r, e, Horizon(r.relayers[p]));
      RelayerStays(ws, r, r', r.relayers[p]);
    }
  }

  lemma MoveKeepsValid(ws: seq<Subscription>, r: Relay, p: nat, a: Action)
    requires Valid(ws, r) && p in r.relayers && !a.Append?
    ensures Valid(ws, Step(ws, r, p, a))
  {
    var r' := Step(ws, r, p, a);
    CursorMove(ws, r, r.relayers[p], a, r');
    OwnMove(ws, r, r.relayers[p], a, r');
    forall q | q in r'.relayers && q != p
      ensures RelayerOk(ws, r', r'.relayers[q])
    {
      MovedIsGrown(ws, r, r.relayers[p], a, r', Horizon(r.relayers[q]));
      RelayerStays(ws, r, r', r.relayers[q]);
    }
  }

  lemma BeginKeepsValid(ws: seq<Subscription>, r: Relay, p: nat)
    requires Valid(ws, r)
    ensures Valid(ws, r.(relayers := r.relayers[p := CursorRead(CursorOf(r))]))
  {
    var r' := r.(relayers := r.relayers[p := CursorRead(CursorOf(r))]);
    UpToStays(ws, r, r', CursorOf(r));
    forall q | q in r'.relayers && q != p
      ensures RelayerOk(ws, r', r'.relayers[q])
    {
      RelayerStays(ws, r, r', r.relayers[q]);
    }
  }

  lemma StepKeepsValid(ws: seq<Subscription>, r: Relay, p: nat, a: Action)
    requires Valid(ws, r)
    ensures Valid(ws, Step(ws, r, p, a))
  {
    if a.Append? {
      CommitKeepsValid(ws, r, a.event);
    } else if p in r.relayers {
      MoveKeepsValid(ws, r, p, a);
    } else {
      BeginKeepsValid(ws, r, p);
    }
  }

  lemma {:induction false} RunKeepsValid(ws: seq<Subscription>, r: Relay, steps: seq<(nat, Action)>)
    requires Valid(ws, r)
    ensures Valid(ws, Run(ws, r, steps))
    decreases |steps|
  {
    if steps != [] {
      StepKeepsValid(ws, r, steps[0].0, steps[0].1);
      RunKeepsValid(ws, Step(ws, r, steps[0].0, steps[0].1), steps[1..]);
    }
  }

  /**
   However many relayers run, crash and overtake one another, and in whatever order events
   commit, every event in time at or below the cursor has a delivery for every matching
   subscription.
   */
  lemma NothingMissed(ws: seq<Subscription>, steps: seq<(nat, Action)>, e: Event, w: Subscription)
    requires var r := Run(ws, EMPTY, steps); InTime(r, e) && e.seqNo <= CursorOf(r)
    requires w in ws && Matches(w, e)
    ensures Delivery(w.id, e) in Run(ws, EMPTY, steps).outbox
  {
    RunKeepsValid(ws, EMPTY, steps);
    assert Delivered(ws, Run(ws, EMPTY, steps).outbox, e, {});
    assert w.id in MatchIds(ws, e);
  }

  // ----- who is late -----

  predicate NewerThanAll(log: seq<Event>, e: Event) {
    forall x :: x in log ==> x.seqNo < e.seqNo
  }

  /** No one has gone by the newest event of the log. */
  ghost predicate BehindLog(r: Relay) {
    forall e: Event :: e.seqNo > 0 && NewerThanAll(r.log, e) ==> !IsPast(r, e.seqNo)
  }

  /** Every commit is the newest so far. */
  predicate CommitsInOrder(ws: seq<Subscription>, r: Relay, steps: seq<(nat, Action)>)
    decreases |steps|
  {
    steps == []
    || ((steps[0].1.Append? ==> NewerThanAll(r.log, steps[0].1.event))
        && CommitsInOrder(ws, Step(ws, r, steps[0].0, steps[0].1), steps[1..]))
  }

  lemma FetchedIsBehind(log: seq<Event>, last: int, e: Event)
    requires NewerThanAll(log, e) && Fetched(log, last) != []
    ensures var es := Fetched(log, last); es[|es| - 1].seqNo < e.seqNo
  {
    var es := Fetched(log, last);
    AfterHolds(log, last, After(log, last)[|es| - 1]);
  }

  lemma MoveStaysBehind(ws: seq<Subscription>, r: Relay, x: Relayer, a: Action, e: Event)
    requires Ordered(r.log) && RelayerOk(ws, r, x) && NewerThanAll(r.log, e)
    requires CursorOf(r) < e.seqNo && Horizon(x) < e.seqNo
    ensures var f := Move(ws, r, x, a);
      && (f.next.Some? ==> Horizon(f.next.value) < e.seqNo)
      && (if f.cursor.Some? then f.cursor.value else 0) < e.seqNo
  {
    if x.CursorRead? && Fetched(r.log, x.last) != [] {
      FetchedIsBehind(r.log, x.last, e);
    }
    if x.Between? {
      NewCursorIsNewest(x.last, x.events);
    }
  }

  lemma StepStaysBehind(ws: seq<Subscription>, r: Relay, p: nat, a: Action)
    requires Valid(ws, r) && BehindLog(r)
    ensures BehindLog(Step(ws, r, p, a))
  {
    var r' := Step(ws, r, p, a);
    if a.Append? && Fresh(r.log, a.event) {
      InsertedHolds(r.log, a.event);
    }
    forall e: Event | e.seqNo > 0 && NewerThanAll(r'.log, e)
      ensures !IsPast(r', e.seqNo)
    {
      assert NewerThanAll(r.log, e);
      assert !IsPast(r, e.seqNo);
      if p in r.relayers && !a.Append? {
        MoveStaysBehind(ws, r, r.relayers[p], a, e);
      }
    }
  }

  lemma {:induction false} InOrderNoneLate(ws: seq<Subscription>, r: Relay, steps: seq<(nat, Action)>)
    requires Valid(ws, r) && BehindLog(r) && CommitsInOrder(ws, r, steps)
    ensures Run(ws, r, steps).late == r.late
    decreases |steps|
  {
    if steps != [] {
      var r' := Step(ws, r, steps[0].0, steps[0].1);
      StepKeepsValid(ws, r, steps[0].0, steps[0].1);
      StepStaysBehind(ws, r, steps[0].0, steps[0].1);
      InOrderNoneLate(ws, r', steps[1..]);
    }
  }

  /** When events commit in sequence order, every event at or below the cursor is delivered to every match. */
  lemma InOrderNothingMissed(ws: seq<Subscription>, steps: seq<(nat, Action)>, e: Event, w: Subscription)
    requires CommitsInOrder(ws, EMPTY, steps)
    requires e in Run(ws, EMPTY, steps).log && e.seqNo <= CursorOf(Run(ws, EMPTY, steps))
    requires w in ws && Matches(w, e)
    ensures Delivery(w.id, e) in Run(ws, EMPTY, steps).outbox
  {
    InOrderNoneLate(ws, EMPTY, steps);
    NothingMissed(ws, steps, e, w);
  }

  // ===== nothing is spurious =====

  /** A relayer works on committed events and owes deliveries only to matching subscriptions. */
  ghost predicate GenuineWork(ws: seq<Subscription>, log: seq<Event>, x: Relayer) {
    && (!x.CursorRead? ==> forall i :: 0 <= i < |x.events| ==> x.events[i] in log)
    && (x.Delivering? && x.done < |x.events| ==> x.todo <= MatchIds(ws, x.events[x.done]))
  }

  /** Every delivery is of a committed event, to a subscription that matches it. */
  ghost predicate Genuine(ws: seq<Subscription>, r: Relay) {
    && (forall d :: d in r.outbox ==> d.event in r.log && d.webhook in MatchIds(ws, d.event))
    && (forall p :: p in r.relayers ==> GenuineWork(ws, r.log, r.relayers[p]))
  }

  lemma MoveKeepsGenuine(ws: seq<Subscription>, r: Relay, x: Relayer, a: Action)
    requires GenuineWork(ws, r.log, x)
    ensures var f := Move(ws, r, x, a);
      && (f.next.Some? ==> GenuineWork(ws, r.log, f.next.value))
      && (forall d :: d in f.outbox ==> d in r.outbox || (d.event in r.log && d.webhook in MatchIds(ws, d.event)))
  {
    if x.CursorRead? && a.Fetch? {
      forall i | 0 <= i < |Fetched(r.log, x.last)|
        ensures Fetched(r.log, x.last)[i] in r.log
      {
        AfterHolds(r.log, x.last, After(r.log, x.last)[i]);
      }
    }
  }

  lemma StepKeepsGenuine(ws: seq<Subscription>, r: Relay, p: nat, a: Action)
    requires Genuine(ws, r)
    ensures Genuine(ws, Step(ws, r, p, a))
  {
    if a.Append? {
      if Fresh(r.log, a.event) {
        InsertedHolds(r.log, a.event);
      }
    } else if p in r.relayers {
      MoveKeepsGenuine(ws, r, r.relayers[p], a);
    }
  }

  lemma {:induction false} NothingSpurious(ws: seq<Subscription>, r: Relay, steps: seq<(nat, Action)>)
    requires Genuine(ws, r)
    ensures Genuine(ws, Run(ws, r, steps))
    decreases |steps|
  {
    if steps != [] {
      StepKeepsGenuine(ws, r, steps[0].0, steps[0].1);
      NothingSpurious(ws, Step(ws, r, steps[0].0, steps[0].1), steps[1..]);
    }
  }

  // ----- in terms of the subscription's own columns -----

  /**
   The subscription wants the event: of its tenant, active, of a kind it lists if it lists any, of its entity if it
   names one.
   */
  ghost predicate Wants(w: Subscription, e: Event) {
    && w.active && w.tenant == e.tenant
    && (w.kinds != {} ==> e.kind in w.kinds || "*" in w.kinds)
    && (w.entityFilter.Some? && e.entity.Some? ==> w.entityFilter.value == e.entity.value)
  }

  /** Over every run, an event in time at or below the cursor has a delivery for each subscription that wants it. */
  lemma WantedIsDelivered(ws: seq<Subscription>, steps: seq<(nat, Action)>, e: Event, w: Subscription)
    requires var r := Run(ws, EMPTY, steps); e in r.log && e !in r.late && e.seqNo <= CursorOf(r)
    requires w in ws && Wants(w, e)
    ensures Delivery(w.id, e) in Run(ws, EMPTY, steps).outbox
  {
    NothingMissed(ws, steps, e, w);
  }

  /** And every delivery is of a committed event to a subscription that wants it. */
  lemma DeliveredIsWanted(ws: seq<Subscription>, steps: seq<(nat, Action)>, d: Delivery)
    requires d in Run(ws, EMPTY, steps).outbox
    ensures d.event in Run(ws, EMPTY, steps).log && exists w :: w in ws && w.id == d.webhook && Wants(w, d.event)
  {
    NothingSpurious(ws, EMPTY, steps);
    var w :| w in ws && Matches(w, d.event) && w.id == d.webhook;
    assert Wants(w, d.event);
  }

  // ===== one relayer that does not crash =====

  predicate DistinctIds(ws: seq<Subscription>) {
    forall i, j :: 0 <= i < j < |ws| ==> ws[i].id != ws[j].id
  }

  function DeliveriesOf(ws: seq<Subscription>, e: Event): set<Delivery> {
    set w | w in ws && Matches(w, e) :: Delivery(w.id, e)
  }

  function Deliveries(ws: seq<Subscription>, es: seq<Event>): multiset<Delivery> {
    if es == [] then multiset{} else Deliveries(ws, es[..|es| - 1]) + multiset(DeliveriesOf(ws, es[|es| - 1]))
  }

  /** Each matching delivery of an event in time up to the cursor once, and no other. */
  ghost predicate ExactlyOnce(ws: seq<Subscription>, r: Relay) {
    forall d :: r.outbox[d] ==
      if InTime(r, d.event) && d.event.seqNo <= CursorOf(r) && d.webhook in MatchIds(ws, d.event) then 1 else 0
  }

  /** No pass is under way, and what is late lies behind the cursor. */
  ghost predicate Quiet(r: Relay) {
    r.relayers == map[] && Ordered(r.log) && forall e :: e in r.late ==> e in r.log && e.seqNo <= CursorOf(r)
  }

  /** What a complete pass leaves. */
  function Passed(ws: seq<Subscription>, r: Relay): Relay {
    var es := Fetched(r.log, CursorOf(r));
    if es == [] then r else r.(outbox := r.outbox + Deliveries(ws, es), cursor := Some(NewCursor(CursorOf(r), es)))
  }

  datatype Turn = Commit(event: Event) | Pass

  function Turned(ws: seq<Subscription>, r: Relay, t: Turn): Relay {
    if t.Commit? then Committed(r, t.event) else Passed(ws, r)
  }

  /** Commits and complete passes in any order. */
  function Turns(ws: seq<Subscription>, r: Relay, ts: seq<Turn>): Relay
    decreases |ts|
  {
    if ts == [] then r else Turns(ws, Turned(ws, r, ts[0]), ts[1..])
  }

  lemma LastIsNew(es: seq<Event>, x: Event)
    requires Ordered(es) && es != []
    ensures var front, e := es[..|es| - 1], es[|es| - 1];
      e !in front && Ordered(front) && (x in es <==> x in front || x == e)
  {
    assert es == es[..|es| - 1] + [es[|es| - 1]];
  }

  lemma {:induction false} DeliveriesCount(ws: seq<Subscription>, es: seq<Event>, d: Delivery)
    requires Ordered(es)
    ensures Deliveries(ws, es)[d] == if d.event in es && d.webhook in MatchIds(ws, d.event) then 1 else 0
    decreases |es|
  {
    if es != [] {
      var front, e := es[..|es| - 1], es[|es| - 1];
      DeliveriesCount(ws, front, d);
      LastIsNew(es, d.event);
      DeliveriesOfHas(ws, e, d);
    }
  }

  lemma DeliveriesOfHas(ws: seq<Subscription>, e: Event, d: Delivery)
    ensures multiset(DeliveriesOf(ws, e))[d] == if d.event == e && d.webhook in MatchIds(ws, e) then 1 else 0
  {
    if d.event == e && d.webhook in MatchIds(ws, e) {
      var w :| w in ws && Matches(w, e) && w.id == d.webhook;
      assert d == Delivery(w.id, e);
    }
    assert multiset(DeliveriesOf(ws, e))[d] == if d in DeliveriesOf(ws, e) then 1 else 0;
  }

  /** A complete pass delivers its batch once and moves the cursor to the end of it. */
  lemma PassKeepsExactlyOnce(ws: seq<Subscription>, r: Relay)
    requires Quiet(r) && ExactlyOnce(ws, r)
    ensures Quiet(Passed(ws, r)) && ExactlyOnce(ws, Passed(ws, r))
  {
    var cursor, es := CursorOf(r), Fetched(r.log, CursorOf(r));
    AfterOrdered(r.log, cursor);
    forall i | 0 <= i < |es|
      ensures cursor < es[i].seqNo
    {
      AfterHolds(r.log, cursor, After(r.log, cursor)[i]);
    }
    NewCursorIsNewest(cursor, es);
    forall d
      ensures (r.outbox + Deliveries(ws, es))[d] ==
        if InTime(r, d.event) && d.event.seqNo <= NewCursor(cursor, es) && d.webhook in MatchIds(ws, d.event)
        then 1 else 0
    {
      DeliveriesCount(ws, es, d);
      BatchIsStretch(r.log, cursor, d.event);
    }
  }

  lemma CommitKeepsExactlyOnce(ws: seq<Subscription>, r: Relay, e: Event)
    requires Quiet(r) && ExactlyOnce(ws, r)
    ensures Quiet(Committed(r, e)) && ExactlyOnce(ws, Committed(r, e))
  {
    if Fresh(r.log, e) {
      InsertedHolds(r.log, e);
      InsertedIsOrdered(r.log, e);
    }
  }

  /** A single relayer that does not crash delivers exactly once, over every alternation of commits and passes. */
  lemma {:induction false} TurnsKeepExactlyOnce(ws: seq<Subscription>, r: Relay, ts: seq<Turn>)
    requires Quiet(r) && ExactlyOnce(ws, r)
    ensures Quiet(Turns(ws, r, ts)) && ExactlyOnce(ws, Turns(ws, r, ts))
    decreases |ts|
  {
    if ts != [] {
      if ts[0].Commit? {
        CommitKeepsExactlyOnce(ws, r, ts[0].event);
      } else {
        PassKeepsExactlyOnce(ws, r);
      }
      TurnsKeepExactlyOnce(ws, Turned(ws, r, ts[0]), ts[1..]);
    }
  }

  /** What an event was at its commit it stays. */
  lemma {:induction false} LatenessStays(ws: seq<Subscription>, r: Relay, ts: seq<Turn>, e: Event)
    requires e in r.log
    ensures e in Turns(ws, r, ts).log && (e in Turns(ws, r, ts).late <==> e in r.late)
    decreases |ts|
  {
    if ts != [] {
      if ts[0].Commit? && Fresh(r.log, ts[0].event) {
        InsertedHolds(r.log, ts[0].event);
      }
      LatenessStays(ws, Turned(ws, r, ts[0]), ts[1..], e);
    }
  }

  lemma {:induction false} TurnsSplit(ws: seq<Subscription>, r: Relay, a: seq<Turn>, b: seq<Turn>)
    ensures Turns(ws, r, a + b) == Turns(ws, Turns(ws, r, a), b)
    decreases |a|
  {
    if a == [] {
      assert a + b == b;
    } else {
      assert (a + b)[1..] == a[1..] + b;
      TurnsSplit(ws, Turned(ws, r, a[0]), a[1..], b);
    }
  }

  /**
   An event is delivered to a match once when it committed ahead of the cursor and the cursor has
   since passed it, and otherwise never: one that commits behind the cursor is lost for good.
   */
  lemma DeliveredOnceIffInTime(ws: seq<Subscription>, before: seq<Turn>, e: Event, after: seq<Turn>, id: Uuid)
    requires Fresh(Turns(ws, EMPTY, before).log, e) && id in MatchIds(ws, e)
    ensures var r, r' := Turns(ws, EMPTY, before), Turns(ws, EMPTY, before + ([Commit(e)] + after));
      r'.outbox[Delivery(id, e)] == if CursorOf(r) < e.seqNo <= CursorOf(r') then 1 else 0
  {
    var r := Turns(ws, EMPTY, before);
    TurnsKeepExactlyOnce(ws, EMPTY, before);
    TurnsKeepExactlyOnce(ws, EMPTY, before + ([Commit(e)] + after));
    TurnsSplit(ws, EMPTY, before, [Commit(e)] + after);
    assert ([Commit(e)] + after)[1..] == after;
    InsertedHolds(r.log, e);
    LatenessStays(ws, Committed(r, e), after, e);
  }

  lemma BatchIsStretch(log: seq<Event>, cursor: int, e: Event)
    requires Ordered(log)
    ensures e in Fetched(log, cursor) <==> e in log && cursor < e.seqNo <= NewCursor(cursor, Fetched(log, cursor))
  {
    var es := Fetched(log, cursor);
    AfterOrdered(log, cursor);
    if es != [] {
      FetchedIsBatch(EMPTY.(log := log), cursor);
      NewCursorIsNewest(cursor, es);
      FetchedIsStretch(log, cursor, e);
    }
  }

  lemma {:induction false} AfterTwice(log: seq<Event>, a: int, b: int)
    requires a <= b
    ensures After(log, b) == After(After(log, a), b)
    decreases |log|
  {
    if log != [] {
      var front, last := log[..|log| - 1], log[|log| - 1];
      AfterTwice(front, a, b);
      if last.seqNo > a {
        assert After(log, a)[..|After(log, a)| - 1] == After(front, a);
      } else {
        assert After(log, a) == After(front, a) && After(log, b) == After(front, b);
      }
    }
  }

  lemma {:induction false} NoneAfter(es: seq<Event>, last: int)
    requires forall i :: 0 <= i < |es| ==> es[i].seqNo <= last
    ensures After(es, last) == []
    decreases |es|
  {
    if es != [] {
      NoneAfter(es[..|es| - 1], last);
    }
  }

  lemma {:induction false} AfterIsSuffix(es: seq<Event>, k: nat)
    requires Ordered(es) && 0 < k <= |es|
    ensures After(es, es[k - 1].seqNo) == es[k..]
    decreases |es|
  {
    var front := es[..|es| - 1];
    if k < |es| {
      AfterIsSuffix(front, k);
      assert es[k..] == front[k..] + [es[|es| - 1]];
    } else {
      NoneAfter(es, es[k - 1].seqNo);
    }
  }

  /** Each pass takes the next batch off what is left, so enough passes deliver everything. */
  lemma PassShortensBacklog(log: seq<Event>, cursor: int)
    requires Ordered(log)
    ensures var es := Fetched(log, cursor);
      After(log, NewCursor(cursor, es)) == After(log, cursor)[|es|..]
  {
    var all, es := After(log, cursor), Fetched(log, cursor);
    AfterOrdered(log, cursor);
    forall i | 0 <= i < |es|
      ensures cursor < es[i].seqNo
    {
      AfterHolds(log, cursor, all[i]);
    }
    NewCursorIsNewest(cursor, es);
    if es != [] {
      AfterTwice(log, cursor, all[|es| - 1].seqNo);
      AfterIsSuffix(all, |es|);
    }
  }

  /** A pass takes everything after the cursor, or the first 500 of it. */
  lemma FetchedExact(log: seq<Event>, last: int)
    ensures Fetched(log, last) <= After(log, last)
    ensures |Fetched(log, last)| == if |After(log, last)| < 500 then |After(log, last)| else 500
  {
  }

  /** Nothing but complete passes. */
  function Passes(n: nat): seq<Turn> {
    seq(n, _ => Pass)
  }

  lemma PassTakesBatch(ws: seq<Subscription>, r: Relay)
    requires Ordered(r.log)
    ensures var r', behind := Passed(ws, r), |After(r.log, CursorOf(r))|;
      && r'.log == r.log && r'.late == r.late
      && |After(r.log, CursorOf(r'))| == if behind < 500 then 0 else behind - 500
  {
    FetchedExact(r.log, CursorOf(r));
    PassShortensBacklog(r.log, CursorOf(r));
    assert CursorOf(Passed(ws, r)) == NewCursor(CursorOf(r), Fetched(r.log, CursorOf(r)));
  }

  lemma OrderedStays(ws: seq<Subscription>, r: Relay)
    requires Ordered(r.log)
    ensures Ordered(Passed(ws, r).log)
  {
  }

  lemma PassesUnfold(ws: seq<Subscription>, r: Relay, n: nat)
    ensures Turns(ws, r, Passes(n)) == if n == 0 then r else Turns(ws, Passed(ws, r), Passes(n - 1))
  {
    if n == 0 {
      assert Passes(n) == [];
    } else {
      assert Passes(n)[0] == Pass && Passes(n)[1..] == Passes(n - 1);
    }
  }

  lemma {:induction false} PassesLeaveNothing(ws: seq<Subscription>, r: Relay, n: nat)
    requires Ordered(r.log) && |After(r.log, CursorOf(r))| <= n * 500
    ensures var r' := Turns(ws, r, Passes(n));
      r'.log == r.log && r'.late == r.late && After(r'.log, CursorOf(r')) == []
    decreases n
  {
    PassesUnfold(ws, r, n);
    if n > 0 {
      PassTakesBatch(ws, r);
      OrderedStays(ws, r);
      PassesLeaveNothing(ws, Passed(ws, r), n - 1);
    }
  }

  /**
   Nothing waits for ever: whatever is behind, one pass for every 500 events of it, the last
   few included, and every event in time has been delivered to each match exactly once.
   */
  lemma PassesDrain(ws: seq<Subscription>, r: Relay, n: nat, e: Event, id: Uuid)
    requires Quiet(r) && ExactlyOnce(ws, r) && |After(r.log, CursorOf(r))| <= n * 500
    requires e in r.log && e !in r.late && id in MatchIds(ws, e)
    ensures Turns(ws, r, Passes(n)).outbox[Delivery(id, e)] == 1
  {
    PassesLeaveNothing(ws, r, n);
    TurnsKeepExactlyOnce(ws, r, Passes(n));
    AfterHolds(r.log, CursorOf(Turns(ws, r, Passes(n))), e);
  }

  // ===== what single statements do =====

  /** A crash takes the relayer away and undoes nothing. */
  lemma CrashUndoesNothing(ws: seq<Subscription>, r: Relay, p: nat)
    requires p in r.relayers
    ensures var r' := Step(ws, r, p, Crash);
      && p !in r'.relayers
      && (forall q :: q in r.relayers && q != p ==> q in r'.relayers && r'.relayers[q] == r.relayers[q])
      && r'.log == r.log && r'.cursor == r.cursor && r'.outbox == r.outbox
  {
  }

  /** A pass begins with the stored cursor and, finding nothing after it, ends there. */
  lemma IdlePass(ws: seq<Subscription>, r: Relay, p: nat)
    requires p !in r.relayers && forall e :: e in r.log ==> e.seqNo <= CursorOf(r)
    ensures var begun := Step(ws, r, p, Begin);
      && begun == r.(relayers := r.relayers[p := CursorRead(if r.cursor.Some? then r.cursor.value else 0)])
      && Step(ws, begun, p, Fetch) == r
  {
    NoneAfter(r.log, CursorOf(r));
    assert Gone(r.relayers[p := CursorRead(CursorOf(r))], p) == r.relayers;
  }

  /** Whoever has not begun does nothing; an event with an unused number is always stored. */
  lemma OutsideAPass(ws: seq<Subscription>, r: Relay, p: nat, a: Action)
    requires p !in r.relayers && !a.Begin?
    ensures var r' := Step(ws, r, p, a);
      && r'.cursor == r.cursor && r'.outbox == r.outbox && r'.relayers == r.relayers
      && (forall e :: e in r'.log <==> e in r.log || (a == Append(e) && Fresh(r.log, e)))
  {
    if a.Append? && Fresh(r.log, a.event) {
      InsertedHolds(r.log, a.event);
    }
  }

  // ===== the pass as code =====

  lemma {:induction false} RunOneMore(ws: seq<Subscription>, r: Relay, steps: seq<(nat, Action)>, x: (nat, Action))
    ensures Run(ws, r, steps + [x]) == Step(ws, Run(ws, r, steps), x.0, x.1)
    decreases |steps|
  {
    if steps == [] {
      assert steps + [x] == [x] && [x][1..] == [];
    } else {
      assert (steps + [x])[1..] == steps[1..] + [x];
      RunOneMore(ws, Step(ws, r, steps[0].0, steps[0].1), steps[1..], x);
    }
  }

  /** The subscriptions the query returns for an event, in table order. */
  function MatchRows(ws: seq<Subscription>, e: Event): seq<Subscription> {
    if ws == [] then []
    else MatchRows(ws[..|ws| - 1], e) + if Matches(ws[|ws| - 1], e) then [ws[|ws| - 1]] else []
  }

  lemma {:induction false} MatchRowsExact(ws: seq<Subscription>, e: Event)
    requires DistinctIds(ws)
    ensures forall w :: w in MatchRows(ws, e) <==> w in ws && Matches(w, e)
    ensures DistinctIds(MatchRows(ws, e))
    decreases |ws|
  {
    if ws != [] {
      var front, last := ws[..|ws| - 1], ws[|ws| - 1];
      MatchRowsExact(front, e);
      assert ws == front + [last];
      forall i | 0 <= i < |MatchRows(front, e)|
        ensures MatchRows(front, e)[i].id != last.id
      {
        assert MatchRows(front, e)[i] in front;
      }
    }
  }

  function Sent(rows: seq<Subscription>, n: nat, e: Event): set<Delivery>
    requires n <= |rows|
  {
    set k | 0 <= k < n :: Delivery(rows[k].id, e)
  }

  function Unsent(rows: seq<Subscription>, n: nat): set<Uuid>
    requires n <= |rows|
  {
    set k | n <= k < |rows| :: rows[k].id
  }

  lemma OneMoreSent(rows: seq<Subscription>, n: nat, e: Event)
    requires DistinctIds(rows) && n < |rows|
    ensures multiset(Sent(rows, n + 1, e)) == multiset(Sent(rows, n, e)) + multiset{Delivery(rows[n].id, e)}
    ensures rows[n].id in Unsent(rows, n) && Unsent(rows, n + 1) == Unsent(rows, n) - {rows[n].id}
  {
    var d := Delivery(rows[n].id, e);
    assert d !in Sent(rows, n, e);
    assert Sent(rows, n + 1, e) == Sent(rows, n, e) + {d};
  }

  lemma AllSent(ws: seq<Subscription>, e: Event)
    requires DistinctIds(ws)
    ensures var rows := MatchRows(ws, e);
      Sent(rows, |rows|, e) == DeliveriesOf(ws, e) && Unsent(rows, 0) == MatchIds(ws, e)
        && |DeliveriesOf(ws, e)| == |rows|
  {
    var rows := MatchRows(ws, e);
    MatchRowsExact(ws, e);
    forall d
      ensures d in Sent(rows, |rows|, e) <==> d in DeliveriesOf(ws, e)
    {
      if w :| w in ws && Matches(w, e) && d == Delivery(w.id, e) {
        assert w in rows;
      }
    }
    forall id
      ensures id in Unsent(rows, 0) <==> id in MatchIds(ws, e)
    {
      if w :| w in ws && Matches(w, e) && id == w.id {
        assert w in rows;
      }
    }
    SentCount(rows, |rows|, e);
  }

  lemma {:induction false} SentCount(rows: seq<Subscription>, n: nat, e: Event)
    requires DistinctIds(rows) && n <= |rows|
    ensures |Sent(rows, n, e)| == n
  {
    if n > 0 {
      SentCount(rows, n - 1, e);
      assert Delivery(rows[n - 1].id, e) !in Sent(rows, n - 1, e);
      assert Sent(rows, n, e) == Sent(rows, n - 1, e) + {Delivery(rows[n - 1].id, e)};
    }
  }

  lemma NewCursorNext(last: int, es: seq<Event>, i: nat)
    requires i < |es|
    ensures var m := NewCursor(last, es[..i]);
      NewCursor(last, es[..i + 1]) == if es[i].seqNo > m then es[i].seqNo else m
  {
    assert es[..i + 1][..i] == es[..i];
  }

  /** What is not after the cursor is fetched from there on by no pass. */
  lemma NeverFetched(log: seq<Event>, cursor: int, e: Event)
    ensures e !in After(log, cursor) && e in log ==> forall c :: c >= cursor ==> e !in Fetched(log, c)
  {
    AfterHolds(log, cursor, e);
    forall c | c >= cursor && e in log && e !in After(log, cursor)
      ensures e !in Fetched(log, c)
    {
      AfterHolds(log, c, e);
    }
  }

  /** With no pass under way, whoever commits behind the cursor is late. */
  lemma CommittedIs(r: Relay, e: Event)
    requires Fresh(r.log, e) && r.relayers == map[]
    ensures Committed(r, e) == Relay(Inserted(r.log, e), r.cursor, r.outbox, map[],
      if e.seqNo > CursorOf(r) then r.late else r.late + {e})
  {
  }

  /** The new event is in its place, and no pass will fetch it if it is not after the cursor. */
  lemma CommitOutcome(log: seq<Event>, cursor: int, e: Event)
    requires Fresh(log, e) && Ordered(log)
    ensures Ordered(Inserted(log, e)) && forall x :: x in Inserted(log, e) <==> x in log || x == e
    ensures e in After(Inserted(log, e), cursor) <==> e.seqNo > cursor
    ensures e.seqNo <= cursor ==> forall c :: c >= cursor ==> e !in Fetched(Inserted(log, e), c)
  {
    InsertedIsOrdered(log, e);
    InsertedHolds(log, e);
    AfterHolds(Inserted(log, e), cursor, e);
    NeverFetched(Inserted(log, e), cursor, e);
  }

  class WebhookRelay {
    const subscriptions: seq<Subscription>
    var log: seq<Event>
    var cursor: Option<int>
    var outbox: multiset<Delivery>
    /** The events that committed behind the cursor. */
    ghost var late: set<Event>

    constructor (ws: seq<Subscription>)
      ensures subscriptions == ws && State() == EMPTY
    {
      subscriptions, log, cursor, outbox, late := ws, [], None, multiset{}, {};
    }

    ghost function State(): Relay
      reads this
    {
      Relay(log, cursor, outbox, map[], late)
    }

    /**
     The insert of an event commits. From then on the event is in the log, in its place, and
     either among those still to be fetched or late, and then no pass ever fetches it.
     */
    method Commit(e: Event)
      requires Fresh(log, e) && Ordered(log)
      modifies this`log, this`late
      ensures State() == Committed(old(State()), e)
      ensures Ordered(log) && forall x :: x in log <==> x in old(log) || x == e
      ensures late == old(late) + if e in After(log, CursorOf(State())) then {} else {e}
      ensures e !in After(log, CursorOf(State())) ==> forall c :: c >= CursorOf(State()) ==> e !in Fetched(log, c)
    {
      ghost var before := State();
      CommittedIs(before, e);
      CommitOutcome(log, CursorOf(before), e);
      late := if e.seqNo > CursorOf(before) then late else late + {e};
      log := Inserted(log, e);
    }

    /** The inserts for one event. */
    method Enqueue(e: Event) returns (n: nat)
      requires DistinctIds(subscriptions)
      modifies this`outbox
      ensures outbox == old(outbox) + multiset(DeliveriesOf(subscriptions, e))
      ensures n == |DeliveriesOf(subscriptions, e)|
    {
      var rows := MatchRows(subscriptions, e);
      MatchRowsExact(subscriptions, e);
      n := 0;
      for j := 0 to |rows|
        invariant n == j
        invariant outbox == old(outbox) + multiset(Sent(rows, j, e))
      {
        OneMoreSent(rows, j, e);
        outbox := outbox + multiset{Delivery(rows[j].id, e)};
        n := n + 1;
      }
      AllSent(subscriptions, e);
    }

    /** One pass: the next batch is delivered to every match, and the cursor moves past it. */
    method RelayOnce() returns (enqueued: nat)
      requires DistinctIds(subscriptions)
      modifies this`cursor, this`outbox
      ensures State() == Passed(subscriptions, old(State()))
      ensures |outbox| == |old(outbox)| + enqueued
    {
      ghost var before := State();
      var last := if cursor.Some? then cursor.value else 0;
      var events := Fetched(log, last);
      enqueued := 0;
      if events == [] {
        return;
      }
      var newCursor := last;
      for i := 0 to |events|
        invariant newCursor == NewCursor(last, events[..i])
        invariant outbox == before.outbox + Deliveries(subscriptions, events[..i])
        invariant |outbox| == |before.outbox| + enqueued
        invariant cursor == before.cursor
      {
        NewCursorNext(last, events, i);
        OneMoreEvent(subscriptions, before.outbox, events, i + 1);
        newCursor := if events[i].seqNo > newCursor then events[i].seqNo else newCursor;
        var n := Enqueue(events[i]);
        enqueued := enqueued + n;
      }
      assert events[..|events|] == events;
      cursor := Some(newCursor);
    }
  }

  // ----- the pass is one of the interleavings -----

  ghost predicate Reachable(ws: seq<Subscription>, r: Relay, r': Relay) {
    exists steps :: r' == Run(ws, r, steps)
  }

  lemma ReachableStep(ws: seq<Subscription>, r: Relay, mid: Relay, p: nat, a: Action)
    requires Reachable(ws, r, mid)
    ensures Reachable(ws, r, Step(ws, mid, p, a))
  {
    var steps :| mid == Run(ws, r, steps);
    RunOneMore(ws, r, steps, (p, a));
    assert Step(ws, mid, p, a) == Run(ws, r, steps + [(p, a)]);
  }

  /** The state while relayer 0 is between the inserts of its `done`-th event. */
  function Midway(r: Relay, last: int, es: seq<Event>, done: nat, outbox: multiset<Delivery>, todo: set<Uuid>): Relay {
    r.(outbox := outbox, relayers := map[0 := Delivering(last, es, done, todo)])
  }

  /** Opening an event. */
  lemma EventStarts(ws: seq<Subscription>, r: Relay, last: int, es: seq<Event>, done: nat, outbox: multiset<Delivery>)
    requires DistinctIds(ws) && r.relayers == map[] && done < |es|
    requires Reachable(ws, r, r.(outbox := outbox, relayers := map[0 := Between(last, es, done)]))
    ensures Reachable(ws, r, Midway(r, last, es, done, outbox, MatchIds(ws, es[done])))
  {
    var mid := r.(outbox := outbox, relayers := map[0 := Between(last, es, done)]);
    ReachableStep(ws, r, mid, 0, Select);
    assert Step(ws, mid, 0, Select) == Midway(r, last, es, done, outbox, MatchIds(ws, es[done]));
  }

  /** One insert. */
  lemma InsertIsStep(
      ws: seq<Subscription>, r: Relay, last: int, es: seq<Event>, done: nat, outbox: multiset<Delivery>,
      todo: set<Uuid>, w: Uuid)
    requires done < |es| && w in todo && Reachable(ws, r, Midway(r, last, es, done, outbox, todo))
    ensures Reachable(ws, r, Midway(r, last, es, done, outbox + multiset{Delivery(w, es[done])}, todo - {w}))
  {
    var mid := Midway(r, last, es, done, outbox, todo);
    ReachableStep(ws, r, mid, 0, Action.Enqueue(w));
    assert Step(ws, mid, 0, Action.Enqueue(w))
      == Midway(r, last, es, done, outbox + multiset{Delivery(w, es[done])}, todo - {w});
  }

  /** All inserts of an event, one after another. */
  lemma EventIsRun(
      ws: seq<Subscription>, r: Relay, last: int, es: seq<Event>, done: nat, outbox: multiset<Delivery>,
      rows: seq<Subscription>)
    requires DistinctIds(rows) && done < |es|
    requires Reachable(ws, r, Midway(r, last, es, done, outbox, Unsent(rows, 0)))
    ensures Reachable(ws, r, Midway(r, last, es, done, outbox + multiset(Sent(rows, |rows|, es[done])), {}))
  {
    var sent, todo := outbox, Unsent(rows, 0);
    for n := 0 to |rows|
      invariant sent == outbox + multiset(Sent(rows, n, es[done])) && todo == Unsent(rows, n)
      invariant Reachable(ws, r, Midway(r, last, es, done, sent, todo))
    {
      OneMoreSent(rows, n, es[done]);
      InsertIsStep(ws, r, last, es, done, sent, todo, rows[n].id);
      sent, todo := sent + multiset{Delivery(rows[n].id, es[done])}, todo - {rows[n].id};
    }
    assert todo == {};
  }

  lemma MovingOn(ws: seq<Subscription>, r: Relay, last: int, es: seq<Event>, done: nat, outbox: multiset<Delivery>)
    ensures Step(ws, Midway(r, last, es, done, outbox, {}), 0, NextEvent)
      == r.(outbox := outbox, relayers := map[0 := Between(last, es, done + 1)])
  {
  }

  /** A whole event, from the statement that opens it to the one that moves on. */
  lemma WholeEventIsRun(
      ws: seq<Subscription>, r: Relay, last: int, es: seq<Event>, done: nat, outbox: multiset<Delivery>)
    requires DistinctIds(ws) && r.relayers == map[] && done < |es|
    requires Reachable(ws, r, r.(outbox := outbox, relayers := map[0 := Between(last, es, done)]))
    ensures Reachable(ws, r, r.(outbox := outbox + multiset(DeliveriesOf(ws, es[done])),
      relayers := map[0 := Between(last, es, done + 1)]))
  {
    var rows := MatchRows(ws, es[done]);
    MatchRowsExact(ws, es[done]);
    AllSent(ws, es[done]);
    EventStarts(ws, r, last, es, done, outbox);
    EventIsRun(ws, r, last, es, done, outbox, rows);
    var sent := outbox + multiset(DeliveriesOf(ws, es[done]));
    var mid := Midway(r, last, es, done, sent, {});
    ReachableStep(ws, r, mid, 0, NextEvent);
    MovingOn(ws, r, last, es, done, sent);
  }

  lemma {:induction false} BatchIsRun(ws: seq<Subscription>, r: Relay, last: int, es: seq<Event>, done: nat)
    requires DistinctIds(ws) && r.relayers == map[] && done <= |es|
    requires Reachable(ws, r, r.(relayers := map[0 := Between(last, es, 0)]))
    ensures Reachable(ws, r, r.(outbox := r.outbox + Deliveries(ws, es[..done]),
      relayers := map[0 := Between(last, es, done)]))
    decreases done
  {
    if done == 0 {
      assert r.outbox + Deliveries(ws, es[..0]) == r.outbox;
      assert r.(outbox := r.outbox, relayers := map[0 := Between(last, es, 0)])
        == r.(relayers := map[0 := Between(last, es, 0)]);
    } else {
      BatchIsRun(ws, r, last, es, done - 1);
      WholeEventIsRun(ws, r, last, es, done - 1, r.outbox + Deliveries(ws, es[..done - 1]));
      OneMoreEvent(ws, r.outbox, es, done);
    }
  }

  lemma OneMoreEvent(ws: seq<Subscription>, outbox: multiset<Delivery>, es: seq<Event>, done: nat)
    requires 0 < done <= |es|
    ensures outbox + Deliveries(ws, es[..done - 1]) + multiset(DeliveriesOf(ws, es[done - 1]))
      == outbox + Deliveries(ws, es[..done])
  {
    assert es[..done][..done - 1] == es[..done - 1];
  }

  lemma PassIsRun(ws: seq<Subscription>, r: Relay)
    requires DistinctIds(ws) && Ordered(r.log) && r.relayers == map[]
    ensures Reachable(ws, r, Passed(ws, r))
  {
    var last, es := CursorOf(r), Fetched(r.log, CursorOf(r));
    assert r == Run(ws, r, []);
    if es != [] {
      ReachableStep(ws, r, r, 0, Begin);
      var begun := r.(relayers := map[0 := CursorRead(last)]);
      ReachableStep(ws, r, begun, 0, Fetch);
      BatchIsRun(ws, r, last, es, |es|);
      assert es[..|es|] == es;
      var done := r.(outbox := r.outbox + Deliveries(ws, es), relayers := map[0 := Between(last, es, |es|)]);
      ReachableStep(ws, r, done, 0, WriteCursor);
      assert Gone(done.relayers, 0) == map[];
    }
  }
}
