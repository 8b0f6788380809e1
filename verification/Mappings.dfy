/**
 Integration field mappings. `{ biz_field: "external.path" }` builds an external payload from a
 record (`MapOutbound`) and reads a record back from a payload (`ApplyMapping`).
 */
module Mappings {
  import opened Common
  import opened Paths

  datatype Json =
    | Null
    | Scalar(literal: string)
    | Text(text: string)
    | Array(elements: seq<Json>)
    | Object(fields: map<string, Json>)

  type Path = seq<string>

  function Trimmed(segs: Path): (r: Path)
    ensures |r| == |segs|
  {
    seq(|segs|, i requires 0 <= i < |segs| => Trim(segs[i]))
  }

  function NonEmpty(segs: Path): Path {
    if segs == [] then []
    else if segs[0] == "" then NonEmpty(segs[1..]) else [segs[0]] + NonEmpty(segs[1..])
  }

  /** The segments reading follows, blanks included. */
  function ReadPath(path: string): Path {
    Trimmed(Split(path))
  }

  /** The segments writing creates: blanks are dropped. */
  function WritePath(path: string): Path {
    NonEmpty(Trimmed(Split(path)))
  }

  /** `Value::get`: the member of an object, Null for anything else. */
  function Get(v: Json, key: string): Json {
    if v.Object? && key in v.fields then v.fields[key] else Null
  }

  function Walk(v: Json, segs: Path): Json
    decreases |segs|
  {
    if segs == [] then v else Walk(Get(v, segs[0]), segs[1..])
  }

  /** The object under `key`, an empty one replacing whatever else is there. */
  function Inner(o: map<string, Json>, key: string): map<string, Json> {
    if key in o && o[key].Object? then o[key].fields else map[]
  }

  /** Write `val` under `segs`, replacing whatever is not an object on the way. */
  function SetNested(o: map<string, Json>, segs: Path, val: Json): map<string, Json>
    decreases |segs|
  {
    if segs == [] then o
    else if |segs| == 1 then o[segs[0] := val]
    else o[segs[0] := Object(SetNested(Inner(o, segs[0]), segs[1..], val))]
  }

  /** One `biz_field: path` pair; the fields of a mapping object are distinct. */
  datatype Entry = Entry(field: string, path: string)

  /** A pair with its path split for reading and for writing. */
  datatype Slot = Slot(field: string, read: Path, write: Path)

  function SlotOf(e: Entry): Slot {
    Slot(e.field, ReadPath(e.path), WritePath(e.path))
  }

  function Slots(es: seq<Entry>): (ss: seq<Slot>)
    ensures |ss| == |es|
  {
    seq(|es|, i requires 0 <= i < |es| => SlotOf(es[i]))
  }

  /** Writing has no blank segment, and is the read path if that has none. */
  ghost predicate DropsBlanks(ss: seq<Slot>) {
    forall i :: 0 <= i < |ss| ==>
      ss[i].read != [] && "" !in ss[i].write && ("" !in ss[i].read ==> ss[i].write == ss[i].read)
  }

  lemma {:induction false} NothingDropped(segs: Path)
    ensures "" !in segs ==> NonEmpty(segs) == segs
    ensures "" !in NonEmpty(segs)
  {
    if segs != [] {
      NothingDropped(segs[1..]);
    }
  }

  lemma SlotsDropBlanks(es: seq<Entry>)
    ensures DropsBlanks(Slots(es))
  {
    forall i | 0 <= i < |es|
      ensures "" !in WritePath(es[i].path)
      ensures "" !in ReadPath(es[i].path) ==> WritePath(es[i].path) == ReadPath(es[i].path)
    {
      NothingDropped(ReadPath(es[i].path));
    }
  }

  predicate DistinctFields(es: seq<Slot>) {
    forall i, j :: 0 <= i < j < |es| ==> es[i].field != es[j].field
  }

  function Outbound(es: seq<Slot>, record: Json): map<string, Json> {
    if es == [] then map[]
    else
      var e := es[|es| - 1];
      SetNested(Outbound(es[..|es| - 1], record), e.write, Get(record, e.field))
  }

  function Inbound(es: seq<Slot>, external: Json): map<string, Json> {
    if es == [] then map[]
    else
      var e := es[|es| - 1];
      Inbound(es[..|es| - 1], external)[e.field := Walk(external, e.read)]
  }

  // ===== the loops =====

  method ResolvePath(ctx: Json, path: string) returns (r: Json)
    ensures r == Walk(ctx, ReadPath(path))
  {
    var segs := Split(path);
    r := ctx;
    for i := 0 to |segs|
      invariant Walk(r, Trimmed(segs)[i..]) == Walk(ctx, Trimmed(segs))
    {
      r := Get(r, Trim(segs[i]));
      assert Trimmed(segs)[i..][1..] == Trimmed(segs)[i + 1..];
    }
  }

  method ApplyMapping(es: seq<Entry>, external: Json) returns (out: map<string, Json>)
    ensures out == Inbound(Slots(es), external)
  {
    out := map[];
    ghost var ss := Slots(es);
    for i := 0 to |es|
      invariant out == Inbound(ss[..i], external)
    {
      var v := ResolvePath(external, es[i].path);
      assert ss[i] == SlotOf(es[i]);
      out := out[es[i].field := v];
      assert ss[..i + 1][..i] == ss[..i];
    }
    assert ss[..|es|] == ss;
  }

  method MapOutbound(es: seq<Entry>, record: Json) returns (out: Json)
    ensures out == Object(Outbound(Slots(es), record))
  {
    var o: map<string, Json> := map[];
    ghost var ss := Slots(es);
    for i := 0 to |es|
      invariant o == Outbound(ss[..i], record)
    {
      assert ss[i].write == WritePath(es[i].path);
      o := SetNested(o, WritePath(es[i].path), Get(record, es[i].field));
      assert ss[..i + 1][..i] == ss[..i];
    }
    assert ss[..|es|] == ss;
    out := Object(o);
  }

  // ===== reading what was written =====

  predicate Comparable(a: Path, b: Path) {
    a <= b || b <= a
  }

  lemma {:induction false} ReadsWhatWasSet(o: map<string, Json>, segs: Path, val: Json)
    requires segs != []
    ensures Walk(Object(SetNested(o, segs, val)), segs) == val
    decreases |segs|
  {
    if |segs| > 1 {
      ReadsWhatWasSet(Inner(o, segs[0]), segs[1..], val);
    } else {
      assert Walk(val, segs[1..]) == val;
    }
  }

  lemma {:induction false} SetLeavesOthers(o: map<string, Json>, segs: Path, val: Json, other: Path)
    requires !Comparable(segs, other)
    ensures Walk(Object(SetNested(o, segs, val)), other) == Walk(Object(o), other)
    decreases |segs|
  {
    if segs[0] == other[0] {
      assert segs == [segs[0]] + segs[1..] && other == [other[0]] + other[1..];
      assert !Comparable(segs[1..], other[1..]);
      SetLeavesOthers(Inner(o, segs[0]), segs[1..], val, other[1..]);
      WalkFromNothing(Get(Object(o), segs[0]), other[1..]);
    }
  }

  /** A non-object and an empty object read the same below. */
  lemma {:induction false} WalkFromNothing(v: Json, segs: Path)
    requires segs != []
    ensures !v.Object? ==> Walk(v, segs) == Walk(Object(map[]), segs)
  {
  }

  lemma {:induction false} WalkInTwo(v: Json, a: Path, b: Path)
    ensures Walk(v, a + b) == Walk(Walk(v, a), b)
    decreases |a|
  {
    if a == [] {
      assert a + b == b;
    } else {
      assert (a + b)[1..] == a[1..] + b;
      WalkInTwo(Get(v, a[0]), a[1..], b);
    }
  }

  // ===== the round trip =====

  /** No blank segment. */
  ghost predicate NoBlanks(es: seq<Slot>) {
    forall i :: 0 <= i < |es| ==> "" !in es[i].read
  }

  ghost predicate Incomparable(es: seq<Slot>) {
    forall i, j :: 0 <= i < |es| && 0 <= j < |es| && i != j ==> !Comparable(es[i].write, es[j].write)
  }

  /** Every path reads what its own field was written with. */
  ghost predicate ReadsBack(es: seq<Slot>, record: Json) {
    forall i :: 0 <= i < |es| ==> Walk(Object(Outbound(es, record)), es[i].read) == Get(record, es[i].field)
  }

  lemma {:induction false} ClearMappingsReadBack(es: seq<Slot>, record: Json)
    requires DropsBlanks(es) && NoBlanks(es) && Incomparable(es)
    ensures ReadsBack(es, record)
    decreases |es|
  {
    if es != [] {
      var rest, e := es[..|es| - 1], es[|es| - 1];
      ClearMappingsReadBack(rest, record);
      forall i | 0 <= i < |es|
        ensures Walk(Object(Outbound(es, record)), es[i].read) == Get(record, es[i].field)
      {
        if i < |rest| {
          assert rest[i] == es[i];
          SetLeavesOthers(Outbound(rest, record), e.write, Get(record, e.field), es[i].read);
        } else {
          ReadsWhatWasSet(Outbound(rest, record), e.write, Get(record, e.field));
        }
      }
    }
  }

  /** The record whose every mapped field holds its own name. */
  function NamedRecord(es: seq<Slot>): Json {
    Object(map i | 0 <= i < |es| :: es[i].field := Text(es[i].field))
  }

  lemma NamedRecordHolds(es: seq<Slot>, i: nat)
    requires i < |es|
    ensures Get(NamedRecord(es), es[i].field) == Text(es[i].field)
  {
    assert es[i].field in NamedRecord(es).fields;
  }

  /** No object below holds a member named by a blank. */
  predicate NoBlankKey(v: Json) {
    v.Object? ==> "" !in v.fields && forall k :: k in v.fields ==> NoBlankKey(v.fields[k])
  }

  lemma {:induction false} SetAddsNoBlankKey(o: map<string, Json>, segs: Path, val: Json)
    requires NoBlankKey(Object(o)) && "" !in segs && NoBlankKey(val)
    ensures NoBlankKey(Object(SetNested(o, segs, val)))
    decreases |segs|
  {
    if |segs| > 1 {
      SetAddsNoBlankKey(Inner(o, segs[0]), segs[1..], val);
    }
  }

  lemma {:induction false} NamedOutputHasNoBlankKey(es: seq<Slot>, all: seq<Slot>)
    requires DropsBlanks(es)
    ensures NoBlankKey(Object(Outbound(es, NamedRecord(all))))
    decreases |es|
  {
    if es != [] {
      var e := es[|es| - 1];
      NamedOutputHasNoBlankKey(es[..|es| - 1], all);
      SetAddsNoBlankKey(Outbound(es[..|es| - 1], NamedRecord(all)), e.write, Get(NamedRecord(all), e.field));
    }
  }

  lemma {:induction false} BlankReadsNull(v: Json, segs: Path)
    requires NoBlankKey(v) && "" in segs
    ensures Walk(v, segs) == Null
    decreases |segs|
  {
    if segs[0] == "" {
      NullReadsNull(segs[1..]);
    } else {
      BlankReadsNull(Get(v, segs[0]), segs[1..]);
    }
  }

  lemma {:induction false} NullReadsNull(segs: Path)
    ensures Walk(Null, segs) == Null
  {
    if segs != [] {
      NullReadsNull(segs[1..]);
    }
  }

  lemma NamedRecordNeedsClarity(es: seq<Slot>)
    requires DistinctFields(es) && DropsBlanks(es) && ReadsBack(es, NamedRecord(es))
    ensures NoBlanks(es) && Incomparable(es)
  {
    var o := Object(Outbound(es, NamedRecord(es)));
    NamedOutputHasNoBlankKey(es, es);
    forall i | 0 <= i < |es|
      ensures "" !in es[i].read && Walk(o, es[i].write) == Text(es[i].field)
    {
      NamedRecordHolds(es, i);
      if "" in es[i].read {
        BlankReadsNull(o, es[i].read);
      }
    }
    forall i, j | 0 <= i < |es| && 0 <= j < |es| && i != j
      ensures !(es[i].write <= es[j].write)
    {
      if es[i].write <= es[j].write {
        TextHidesBelow(o, es[i].write, es[j].write, es[i].field);
      }
    }
  }

  /** Under a text nothing else can be read. */
  lemma TextHidesBelow(o: Json, a: Path, b: Path, text: string)
    requires a <= b && Walk(o, a) == Text(text)
    ensures Walk(o, b) == Text(text) || Walk(o, b) == Null
  {
    var below := b[|a|..];
    assert b == a + below;
    WalkInTwo(o, a, below);
    if below != [] {
      NullReadsNull(below[1..]);
    }
  }

  /** The mapped fields with their values in the record, absent ones as Null. */
  function Mapped(es: seq<Slot>, record: Json): map<string, Json> {
    map i | 0 <= i < |es| :: es[i].field := Get(record, es[i].field)
  }

  lemma {:induction false} InboundAt(es: seq<Slot>, external: Json, i: nat)
    requires DistinctFields(es) && i < |es|
    ensures es[i].field in Inbound(es, external) && Inbound(es, external)[es[i].field] == Walk(external, es[i].read)
    decreases |es|
  {
    if i < |es| - 1 {
      assert es[..|es| - 1][i] == es[i];
      InboundAt(es[..|es| - 1], external, i);
    }
  }

  lemma {:induction false} InboundOnly(es: seq<Slot>, external: Json, field: string)
    requires field in Inbound(es, external)
    ensures exists i :: 0 <= i < |es| && es[i].field == field
    decreases |es|
  {
    if es[|es| - 1].field != field {
      InboundOnly(es[..|es| - 1], external, field);
      var i :| 0 <= i < |es| - 1 && es[..|es| - 1][i].field == field;
      assert es[i].field == field;
    }
  }

  lemma ReadsBackAsMapped(es: seq<Slot>, record: Json)
    requires DistinctFields(es) && ReadsBack(es, record)
    ensures Inbound(es, Object(Outbound(es, record))) == Mapped(es, record)
  {
    var out := Object(Outbound(es, record));
    var got, want := Inbound(es, out), Mapped(es, record);
    forall f
      ensures f in got <==> f in want
      ensures f in got ==> got[f] == want[f]
    {
      if f in got {
        InboundOnly(es, out, f);
      }
      if i :| 0 <= i < |es| && es[i].field == f {
        InboundAt(es, out, i);
      }
    }
  }

  lemma MappedReadsBack(es: seq<Slot>, record: Json)
    requires DistinctFields(es) && Inbound(es, Object(Outbound(es, record))) == Mapped(es, record)
    ensures ReadsBack(es, record)
  {
    var out := Object(Outbound(es, record));
    forall i | 0 <= i < |es|
      ensures Walk(out, es[i].read) == Get(record, es[i].field)
    {
      InboundAt(es, out, i);
      assert es[i].field in Mapped(es, record);
    }
  }

  /**
   Mapping out and back in is the identity on the mapped fields of every record iff no path has
   a blank segment and no path is a prefix of another.
   */
  lemma RoundTripIff(es: seq<Entry>)
    requires DistinctFields(Slots(es))
    ensures (forall record :: Inbound(Slots(es), Object(Outbound(Slots(es), record))) == Mapped(Slots(es), record))
      <==> NoBlanks(Slots(es)) && Incomparable(Slots(es))
  {
    var ss := Slots(es);
    SlotsDropBlanks(es);
    if NoBlanks(ss) && Incomparable(ss) {
      forall record
        ensures Inbound(ss, Object(Outbound(ss, record))) == Mapped(ss, record)
      {
        ClearMappingsReadBack(ss, record);
        ReadsBackAsMapped(ss, record);
      }
    }
    if forall record :: Inbound(ss, Object(Outbound(ss, record))) == Mapped(ss, record) {
      assert Inbound(ss, Object(Outbound(ss, NamedRecord(ss)))) == Mapped(ss, NamedRecord(ss));
      MappedReadsBack(ss, NamedRecord(ss));
      NamedRecordNeedsClarity(ss);
    }
  }

  // ===== the order the mapping object is iterated in =====

  lemma {:induction false} SetsCommute(o: map<string, Json>, a: Path, v: Json, b: Path, w: Json)
    requires !Comparable(a, b)
    ensures SetNested(SetNested(o, a, v), b, w) == SetNested(SetNested(o, b, w), a, v)
    decreases |a|
  {
    if a[0] == b[0] {
      var k, inner := a[0], Inner(o, a[0]);
      assert a == [k] + a[1..] && b == [k] + b[1..];
      assert !Comparable(a[1..], b[1..]);
      SetsCommute(inner, a[1..], v, b[1..], w);
      SetTwiceBelow(o, a, v, b, w);
      SetTwiceBelow(o, b, w, a, v);
    } else {
      SetTwiceBeside(o, a, v, b, w);
    }
  }

  lemma SetTwiceBelow(o: map<string, Json>, a: Path, v: Json, b: Path, w: Json)
    requires |a| > 1 && |b| > 1 && a[0] == b[0]
    ensures SetNested(SetNested(o, a, v), b, w)
      == o[a[0] := Object(SetNested(SetNested(Inner(o, a[0]), a[1..], v), b[1..], w))]
  {
    assert Inner(SetNested(o, a, v), b[0]) == SetNested(Inner(o, a[0]), a[1..], v);
  }

  lemma SetTwiceBeside(o: map<string, Json>, a: Path, v: Json, b: Path, w: Json)
    requires a != [] && b != [] && a[0] != b[0]
    ensures SetNested(SetNested(o, a, v), b, w) == SetNested(SetNested(o, b, w), a, v)
  {
    var x := if |a| == 1 then v else Object(SetNested(Inner(o, a[0]), a[1..], v));
    var y := if |b| == 1 then w else Object(SetNested(Inner(o, b[0]), b[1..], w));
    assert SetNested(o, a, v) == o[a[0] := x] && SetNested(o, b, w) == o[b[0] := y];
    assert Inner(o[a[0] := x], b[0]) == Inner(o, b[0]) && Inner(o[b[0] := y], a[0]) == Inner(o, a[0]);
    assert o[a[0] := x][b[0] := y] == o[b[0] := y][a[0] := x];
  }

  /** Of two paths, neither writes over the other; a path of blanks writes nothing. */
  predicate Apart(a: Slot, b: Slot) {
    a.write == [] || b.write == [] || !Comparable(a.write, b.write)
  }

  ghost predicate AllApart(es: seq<Slot>) {
    forall i, j :: 0 <= i < |es| && 0 <= j < |es| && i != j ==> Apart(es[i], es[j])
  }

  function Put(o: map<string, Json>, e: Slot, record: Json): map<string, Json> {
    SetNested(o, e.write, Get(record, e.field))
  }

  lemma PutsCommute(o: map<string, Json>, a: Slot, b: Slot, record: Json)
    requires Apart(a, b)
    ensures Put(Put(o, a, record), b, record) == Put(Put(o, b, record), a, record)
  {
    if a.write != [] && b.write != [] {
      SetsCommute(o, a.write, Get(record, a.field), b.write, Get(record, b.field));
    }
  }

  lemma OutboundOneMore(es: seq<Slot>, e: Slot, record: Json)
    ensures Outbound(es + [e], record) == Put(Outbound(es, record), e, record)
  {
    assert (es + [e])[..|es|] == es;
  }

  /** An entry apart from the later ones may as well be written last. */
  lemma {:induction false} MoveToEnd(pre: seq<Slot>, e: Slot, post: seq<Slot>, record: Json)
    requires forall x :: x in post ==> Apart(e, x)
    ensures Outbound(pre + [e] + post, record) == Put(Outbound(pre + post, record), e, record)
    decreases |post|
  {
    if post == [] {
      assert pre + [e] + post == pre + [e] && pre + post == pre;
      OutboundOneMore(pre, e, record);
    } else {
      var rest, last := post[..|post| - 1], post[|post| - 1];
      assert pre + [e] + post == (pre + [e] + rest) + [last] && pre + post == (pre + rest) + [last];
      OutboundOneMore(pre + [e] + rest, last, record);
      OutboundOneMore(pre + rest, last, record);
      MoveToEnd(pre, e, rest, record);
      PutsCommute(Outbound(pre + rest, record), e, last, record);
    }
  }

  lemma {:induction false} ReorderedSame(es: seq<Slot>, fs: seq<Slot>, record: Json)
    requires AllApart(es) && multiset(es) == multiset(fs)
    ensures Outbound(es, record) == Outbound(fs, record)
    decreases |fs|
  {
    if fs == [] {
      assert |es| == |multiset(es)| == |multiset(fs)|;
    } else {
      var front, last := fs[..|fs| - 1], fs[|fs| - 1];
      assert fs == front + [last];
      assert last in multiset(es);
      var k :| 0 <= k < |es| && es[k] == last;
      var pre, post := es[..k], es[k + 1..];
      assert es == pre + [last] + post;
      RestApart(es, k);
      RestSame(pre, post, front, last);
      ReorderedSame(pre + post, front, record);
      MoveToEnd(pre, last, post, record);
      OutboundOneMore(front, last, record);
    }
  }

  lemma RestSame(pre: seq<Slot>, post: seq<Slot>, front: seq<Slot>, last: Slot)
    requires multiset(pre + [last] + post) == multiset(front + [last])
    ensures multiset(pre + post) == multiset(front)
  {
    assert multiset(pre + [last] + post) == multiset(pre + post) + multiset{last};
    assert multiset(front + [last]) == multiset(front) + multiset{last};
    assert multiset(pre + post) == (multiset(pre + post) + multiset{last}) - multiset{last};
  }

  lemma RestApart(es: seq<Slot>, k: nat)
    requires k < |es| && AllApart(es)
    ensures AllApart(es[..k] + es[k + 1..])
    ensures forall x :: x in es[k + 1..] ==> Apart(es[k], x)
  {
    var fewer := es[..k] + es[k + 1..];
    forall i, j | 0 <= i < |fewer| && 0 <= j < |fewer| && i != j
      ensures Apart(fewer[i], fewer[j])
    {
      var i' := if i < k then i else i + 1;
      var j' := if j < k then j else j + 1;
      assert fewer[i] == es[i'] && fewer[j] == es[j'];
    }
  }

  /** The payload is the same in whatever order the pairs are taken. */
  ghost predicate OrderFree(es: seq<Slot>) {
    forall fs, record :: multiset(es) == multiset(fs) ==> Outbound(es, record) == Outbound(fs, record)
  }

  /** Two pairs that overlap, written in either order after the others, give two payloads. */
  lemma OverlapDependsOnOrder(o: map<string, Json>, a: Path, b: Path, v: Json, w: Json)
    requires a != [] && a <= b && v.Text? && w.Text? && v != w
    ensures SetNested(SetNested(o, a, v), b, w) != SetNested(SetNested(o, b, w), a, v)
  {
    ReadsWhatWasSet(SetNested(o, b, w), a, v);
    ReadsWhatWasSet(SetNested(o, a, v), b, w);
    if SetNested(SetNested(o, a, v), b, w) == SetNested(SetNested(o, b, w), a, v) {
      TextHidesBelow(Object(SetNested(SetNested(o, b, w), a, v)), a, b, v.text);
    }
  }

  /** Outbound mapping depends on iteration order exactly when one path writes over another. */
  lemma OrderFreeIff(es: seq<Slot>)
    requires DistinctFields(es)
    ensures OrderFree(es) <==> AllApart(es)
  {
    if AllApart(es) {
      forall fs, record | multiset(es) == multiset(fs)
        ensures Outbound(es, record) == Outbound(fs, record)
      {
        ReorderedSame(es, fs, record);
      }
    } else {
      var i, j :| 0 <= i < |es| && 0 <= j < |es| && i != j && !Apart(es[i], es[j]);
      if es[i].write <= es[j].write {
        OverlapNotOrderFree(es, i, j);
      } else {
        OverlapNotOrderFree(es, j, i);
      }
    }
  }

  lemma OverlapNotOrderFree(es: seq<Slot>, i: nat, j: nat)
    requires DistinctFields(es) && i < |es| && j < |es| && i != j
    requires es[i].write != [] && es[i].write <= es[j].write
    ensures !OrderFree(es)
  {
    var record := NamedRecord(es);
    var rest := WithoutTwo(es, i, j);
    OrderMatters(es, i, j, rest, record);
    assert Outbound(rest + [es[i], es[j]], record) != Outbound(rest + [es[j], es[i]], record);
  }

  lemma OrderMatters(es: seq<Slot>, i: nat, j: nat, rest: seq<Slot>, record: Json)
    requires DistinctFields(es) && i < |es| && j < |es| && i != j && record == NamedRecord(es)
    requires es[i].write != [] && es[i].write <= es[j].write
    ensures Outbound(rest + [es[i], es[j]], record) != Outbound(rest + [es[j], es[i]], record)
  {
    NamedRecordHolds(es, i);
    NamedRecordHolds(es, j);
    EndsIn(rest, es[i], es[j], record);
    EndsIn(rest, es[j], es[i], record);
    OverlapDependsOnOrder(Outbound(rest, record), es[i].write, es[j].write, Text(es[i].field), Text(es[j].field));
  }

  lemma WithoutOne(es: seq<Slot>, k: nat) returns (rest: seq<Slot>)
    requires k < |es|
    ensures rest == es[..k] + es[k + 1..]
    ensures multiset(rest) + multiset{es[k]} == multiset(es)
  {
    rest := es[..k] + es[k + 1..];
    assert es == es[..k] + [es[k]] + es[k + 1..];
  }

  /** The other pairs, in order. */
  lemma WithoutTwo(es: seq<Slot>, i: nat, j: nat) returns (rest: seq<Slot>)
    requires i < |es| && j < |es| && i != j
    ensures multiset(rest + [es[i], es[j]]) == multiset(es) == multiset(rest + [es[j], es[i]])
  {
    var p, q := if i < j then i else j, if i < j then j else i;
    var most := WithoutOne(es, q);
    assert most[p] == es[p];
    rest := WithoutOne(most, p);
    BothEnds(rest, es[p], es[q]);
  }

  lemma BothEnds(rest: seq<Slot>, a: Slot, b: Slot)
    ensures multiset(rest + [a, b]) == multiset(rest + [b, a]) == multiset(rest) + multiset{a} + multiset{b}
  {
  }

  lemma EndsIn(rest: seq<Slot>, a: Slot, b: Slot, record: Json)
    ensures Outbound(rest + [a, b], record) == Put(Put(Outbound(rest, record), a, record), b, record)
  {
    var mid := rest + [a];
    assert rest + [a, b] == mid + [b];
    OutboundOneMore(mid, b, record);
    OutboundOneMore(rest, a, record);
  }

  // ===== in terms of the path strings and the payload alone =====

  /** A name as a path can have it: not blank, without dots, and with no whitespace at its ends. */
  predicate IsName(s: string) {
    s != "" && '.' !in s && IsTrimmed(s)
  }

  lemma TrimmedStays(s: string)
    requires s != "" && IsTrimmed(s)
    ensures Trim(s) == s
  {
  }

  /** Names joined with dots are read and written as those names. */
  lemma DottedIsPath(names: seq<string>)
    requires names != [] && forall i :: 0 <= i < |names| ==> IsName(names[i])
    ensures ReadPath(Dotted(names)) == names && WritePath(Dotted(names)) == names
  {
    JoinSplits(names);
    forall i | 0 <= i < |names|
      ensures Trimmed(names)[i] == names[i]
    {
      TrimmedStays(names[i]);
    }
    assert Trimmed(names) == names;
    NothingDropped(names);
  }

  /** Each part is left out or not by itself, and those that stay keep their order. */
  lemma {:induction false} PartByPart(a: Path, b: Path, s: string)
    ensures NonEmpty(a + b) == NonEmpty(a) + NonEmpty(b)
    ensures NonEmpty([s]) == if s == "" then [] else [s]
    decreases |a|
  {
    assert NonEmpty([s]) == (if s == "" then [] else [s]) + NonEmpty([s][1..]);
    if a == [] {
      assert a + b == b;
    } else {
      PartByPart(a[1..], b, s);
      assert (a + b)[1..] == a[1..] + b;
    }
  }

  /** Reading drops nothing: one segment per part between dots, trimmed; writing leaves out the blank ones. */
  lemma {:induction false} WriteLeavesOutBlanks(segs: Path, s: string)
    ensures s in NonEmpty(segs) <==> s in segs && s != ""
    ensures |NonEmpty(segs)| <= |segs|
    decreases |segs|
  {
    if segs != [] {
      WriteLeavesOutBlanks(segs[1..], s);
      assert segs == [segs[0]] + segs[1..];
    }
  }

  /** The values met on the way down a path: the member of each object, Null where there is none. */
  ghost predicate Descends(v: Json, segs: Path, vs: seq<Json>) {
    && |vs| == |segs| + 1 && vs[0] == v
    && forall k :: 0 <= k < |segs| ==>
         match vs[k]
         case Object(fields) => if segs[k] in fields then vs[k + 1] == fields[segs[k]] else vs[k + 1] == Null
         case _ => vs[k + 1] == Null
  }

  /** The value at a path is the last one met. */
  lemma {:induction false} WalkDescends(v: Json, segs: Path) returns (vs: seq<Json>)
    ensures Descends(v, segs, vs) && Walk(v, segs) == vs[|segs|]
    decreases |segs|
  {
    if segs == [] {
      vs := [v];
    } else {
      var rest := WalkDescends(Get(v, segs[0]), segs[1..]);
      vs := [v] + rest;
      forall k | 0 <= k < |segs|
        ensures match vs[k]
                case Object(fields) => if segs[k] in fields then vs[k + 1] == fields[segs[k]] else vs[k + 1] == Null
                case _ => vs[k + 1] == Null
      {
        if k > 0 {
          assert vs[k] == rest[k - 1] && segs[k] == segs[1..][k - 1];
        }
      }
    }
  }

  /** An inbound mapping fills every mapped field, and no other, with the value at its path. */
  lemma InboundExact(es: seq<Slot>, external: Json)
    requires DistinctFields(es)
    ensures forall f :: f in Inbound(es, external) <==> exists i :: 0 <= i < |es| && es[i].field == f
    ensures forall i :: 0 <= i < |es| ==> Inbound(es, external)[es[i].field] == Walk(external, es[i].read)
  {
    forall f | f in Inbound(es, external)
      ensures exists i :: 0 <= i < |es| && es[i].field == f
    {
      InboundOnly(es, external, f);
    }
    forall i | 0 <= i < |es|
      ensures es[i].field in Inbound(es, external) && Inbound(es, external)[es[i].field] == Walk(external, es[i].read)
    {
      InboundAt(es, external, i);
    }
  }

  /** A record's value under a field that maps to dotted names arrives in the payload under those names. */
  lemma ValueArrives(es: seq<Entry>, record: Json, i: nat, names: seq<string>) returns (vs: seq<Json>)
    requires i < |es| && names != [] && es[i].path == Dotted(names)
    requires forall k :: 0 <= k < |names| ==> IsName(names[k])
    requires forall j :: i < j < |es| ==> !Comparable(WritePath(es[j].path), names)
    ensures Descends(Object(Outbound(Slots(es), record)), names, vs)
    ensures vs[|names|] == match record
      case Object(fields) => (if es[i].field in fields then fields[es[i].field] else Null)
      case _ => Null
  {
    DottedIsPath(names);
    LastWriteStays(Slots(es), record, i);
    vs := WalkDescends(Object(Outbound(Slots(es), record)), names);
  }

  lemma {:induction false} LastWriteStays(ss: seq<Slot>, record: Json, i: nat)
    requires i < |ss| && ss[i].write != []
    requires forall j :: i < j < |ss| ==> !Comparable(ss[j].write, ss[i].write)
    ensures Walk(Object(Outbound(ss, record)), ss[i].write) == Get(record, ss[i].field)
    decreases |ss|
  {
    var rest, e := ss[..|ss| - 1], ss[|ss| - 1];
    if i == |ss| - 1 {
      ReadsWhatWasSet(Outbound(rest, record), e.write, Get(record, e.field));
    } else {
      LastWriteStays(rest, record, i);
      SetLeavesOthers(Outbound(rest, record), e.write, Get(record, e.field), ss[i].write);
    }
  }
}
