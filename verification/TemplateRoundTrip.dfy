/** Constructing the elements of an object and extracting them again. */
module TemplateRoundTrip {
  import opened Common
  import opened Tlv
  import opened Template
  import opened TemplateSearch

  /** Two rows may feed one field only as a list with tags for different kinds of element, of
      which one row does the writing. */
  predicate SharedField(a: Entry, b: Entry) {
    && a.isList && b.isList
    && !a.mandatory && !b.mandatory
    && a.least == b.least
    && (a.noSerialize || b.noSerialize)
  }

  predicate GoodTemplate(tmpl: seq<Entry>)
    decreases tmpl
  {
    && GoodSize(tmpl)
    && DistinctTags(tmpl)
    && (forall i, j | 0 <= i < |tmpl| && 0 <= j < |tmpl| && i != j && tmpl[i].field == tmpl[j].field ::
          SharedField(tmpl[i], tmpl[j]))
    && (forall i | 0 <= i < |tmpl| && tmpl[i].isList :: tmpl[i].most == {})
    && (forall i | 0 <= i < |tmpl| :: GoodSubTemplate(tmpl[i]))
  }

  predicate GoodSubTemplate(e: Entry)
    decreases e
  {
    match e.kind
    case Plain(_) => true
    case Composite(sub) => GoodTemplate(sub)
  }

  /** The value is written as an element that some row of the same field reads back. */
  ghost predicate GoodValue(tmpl: seq<Entry>, i: nat, v: Value)
    requires i < |tmpl|
    decreases tmpl, 0
  {
    var e := tmpl[i];
    match e.kind
    case Composite(_) => GoodComposite(e, v)
    case Plain(codec) =>
      var t := codec.encode(v, e.tag, e.nonCritical, e.forward);
      t.Ok? && exists j :: ReadsBack(tmpl, i, j, t.value, v)
  }

  ghost predicate GoodComposite(e: Entry, v: Value)
    requires e.kind.Composite?
    decreases e, 0
  {
    v.Object? && GoodObject(e.kind.sub, v.fields)
  }

  predicate ReadsBack(tmpl: seq<Entry>, i: nat, j: int, t: Tlv, v: Value)
    requires i < |tmpl|
  {
    0 <= j < |tmpl| && tmpl[j].field == tmpl[i].field && tmpl[j].tag == t.tag && DecodeValue(tmpl[j], t) == Ok(v)
  }

  ghost predicate GoodSlot(tmpl: seq<Entry>, i: nat, slot: Slot)
    requires i < |tmpl|
    decreases tmpl, 1
  {
    match slot
    case One(v) => !tmpl[i].isList && GoodValue(tmpl, i, v)
    case Many(values) => tmpl[i].isList && |values| > 0 && forall m | 0 <= m < |values| :: GoodValue(tmpl, i, values[m])
  }

  /** What a well-formed object is: every field belongs to a row that writes it and holds values
      that row can write, lists are not empty, mandatory rows and groups are served, and no
      at-most-one group is served twice. */
  ghost predicate GoodObject(tmpl: seq<Entry>, fields: Fields)
    decreases tmpl, 2
  {
    && (forall f <- fields :: exists i :: 0 <= i < |tmpl| && tmpl[i].field == f && !tmpl[i].noSerialize)
    && (forall i | 0 <= i < |tmpl| && Present(tmpl[i], fields) :: GoodSlot(tmpl, i, fields[tmpl[i].field]))
    && Satisfied(tmpl, fields)
    && AtMostOne(tmpl, fields)
  }

  predicate AtMostOne(tmpl: seq<Entry>, fields: Fields) {
    forall i, j | 0 <= i < j < |tmpl| && Present(tmpl[i], fields) && Present(tmpl[j], fields) ::
      tmpl[i].most * tmpl[j].most == {}
  }

  /** The fields that the rows below i have written. */
  ghost function FieldsBelow(tmpl: seq<Entry>, fields: Fields, i: nat): Fields
    requires i <= |tmpl|
  {
    map f | f in fields && exists k :: 0 <= k < i && tmpl[k].field == f && !tmpl[k].noSerialize :: fields[f]
  }

  /** The state of the extraction when it has read the elements of the rows below i. */
  ghost predicate Flags(tmpl: seq<Entry>, fields: Fields, i: nat, st: State)
    requires i <= |tmpl|
  {
    && (forall k | 0 <= k < i && Present(tmpl[k], fields) :: (tmpl[k].mandatory ==> k in st.hit) && tmpl[k].least <= st.groupHit)
    && (forall k | 0 <= k < i && Present(tmpl[k], fields) :: tmpl[k].most <= st.oneOf)
    && (forall g <- st.oneOf :: exists k :: 0 <= k < i && Present(tmpl[k], fields) && g in tmpl[k].most)
  }

  /** Row i can be written and read back behind the rows below it. */
  ghost predicate GoodRow(tmpl: seq<Entry>, fields: Fields, i: nat)
    requires i < |tmpl|
  {
    Present(tmpl[i], fields) ==>
      && GoodSlot(tmpl, i, fields[tmpl[i].field])
      && forall k | 0 <= k < i && Present(tmpl[k], fields) :: tmpl[k].most * tmpl[i].most == {}
  }

  ghost predicate Reached(tmpl: seq<Entry>, fields: Fields, i: nat, st: State)
    requires i <= |tmpl|
  {
    st.fields == FieldsBelow(tmpl, fields, i) && Flags(tmpl, fields, i, st)
  }

  lemma {:induction false} FullRunConcat(tmpl: seq<Entry>, a: seq<Tlv>, b: seq<Tlv>, st: State)
    ensures FullRun(tmpl, a + b, st) ==
      match FullRun(tmpl, a, st) { case Err(error) => Err(error) case Ok(next) => FullRun(tmpl, b, next) }
  {
    if a == [] {
      assert a + b == b;
    } else {
      assert (a + b)[1..] == a[1..] + b;
      if Step(tmpl, 0, a[0], st).Ok? {
        FullRunConcat(tmpl, a[1..], b, Step(tmpl, 0, a[0], st).value);
      }
    }
  }

  lemma FullRunOne(tmpl: seq<Entry>, t: Tlv, st: State)
    ensures FullRun(tmpl, [t], st) == Step(tmpl, 0, t, st)
  {
    if Step(tmpl, 0, t, st).Ok? {
      assert [t][1..] == [];
    }
  }

  /** One value: it is written, and a row of the same field decodes it. */
  lemma {:induction false} ValueRoundTrip(tmpl: seq<Entry>, i: nat, v: Value) returns (t: Tlv, j: nat)
    requires i < |tmpl| && GoodTemplate(tmpl) && GoodValue(tmpl, i, v)
    ensures EncodeValue(tmpl[i], v) == Ok(t) && ReadsBack(tmpl, i, j, t, v)
    ensures !tmpl[i].isList || tmpl[i].mandatory ==> j == i
    ensures tmpl[j].isList == tmpl[i].isList && tmpl[j].least == tmpl[i].least && (j == i || tmpl[j].most == {})
    decreases tmpl, 0
  {
    var e := tmpl[i];
    match e.kind
    case Plain(codec) =>
      t := codec.encode(v, e.tag, e.nonCritical, e.forward).value;
      j :| ReadsBack(tmpl, i, j, t, v);
    case Composite(_) =>
      assert GoodSubTemplate(e);
      t := CompositeRoundTrip(e, v);
      j := i;
  }

  lemma {:induction false} CompositeRoundTrip(e: Entry, v: Value) returns (t: Tlv)
    requires e.kind.Composite? && GoodSubTemplate(e) && GoodComposite(e, v)
    ensures EncodeValue(e, v) == Ok(t) && t.tag == e.tag && DecodeValue(e, t) == Ok(v)
    decreases e, 0
  {
    var sub := e.kind.sub;
    RoundTrip(sub, v.fields);
    var list := Construct(sub, v.fields).value;
    t := Tlv(e.tag, e.nonCritical, e.forward, Nested(list));
    assert CastToNested(t) == Ok(t);
    assert ExtractTlv(sub, t) == Extract(sub, list);
  }

  /** Reading the element of a single value. */
  lemma OneRoundTrip(tmpl: seq<Entry>, fields: Fields, i: nat, st: State) returns (next: State)
    requires i < |tmpl| && GoodTemplate(tmpl) && GoodRow(tmpl, fields, i) && Reached(tmpl, fields, i, st)
    requires Present(tmpl[i], fields) && !tmpl[i].isList
    ensures Emit(tmpl[i], fields).Ok? && FullRun(tmpl, Emit(tmpl[i], fields).value, st) == Ok(next)
    ensures Reached(tmpl, fields, i + 1, next)
    decreases tmpl, 1
  {
    var e := tmpl[i];
    var v := fields[e.field].value;
    assert GoodSlot(tmpl, i, fields[e.field]);
    var t, j := ValueRoundTrip(tmpl, i, v);
    assert Emit(e, fields) == Ok([t]) by {
      assert [v][1..] == [];
      assert EncodeValues(e, []) == Ok([]);
      assert [t] + [] == [t];
    }
    FullRunOne(tmpl, t, st);
    StepFinds(tmpl, 0, i, t, st);
    forall g <- st.oneOf
      ensures g !in e.most
    {
      var k :| 0 <= k < i && Present(tmpl[k], fields) && g in tmpl[k].most;
      assert g in tmpl[k].most * e.most <==> g in e.most;
    }
    assert e.field !in st.fields by {
      FieldOfOneRow(tmpl, fields, i);
    }
    next := State(Store(e, st.fields, v), st.hit + {i}, st.groupHit + e.least, st.oneOf + e.most);
    assert Apply(tmpl, i, t, st) == Ok(next);
    FieldsBelowNext(tmpl, fields, i);
    FlagsNext(tmpl, fields, i, st, next, i);
  }

  /** No row below i has written the field of row i. */
  lemma FieldOfOneRow(tmpl: seq<Entry>, fields: Fields, i: nat)
    requires i < |tmpl| && GoodTemplate(tmpl) && Present(tmpl[i], fields)
    ensures tmpl[i].field !in FieldsBelow(tmpl, fields, i)
  {
    forall k | 0 <= k < i && tmpl[k].field == tmpl[i].field
      ensures tmpl[k].noSerialize
    {
      assert SharedField(tmpl[k], tmpl[i]);
    }
  }

  lemma FieldsBelowNext(tmpl: seq<Entry>, fields: Fields, i: nat)
    requires i < |tmpl|
    ensures FieldsBelow(tmpl, fields, i + 1) ==
      if Present(tmpl[i], fields) then FieldsBelow(tmpl, fields, i)[tmpl[i].field := fields[tmpl[i].field]]
      else FieldsBelow(tmpl, fields, i)
  {
    forall f | f in fields
      ensures f in FieldsBelow(tmpl, fields, i + 1) <==>
        f in FieldsBelow(tmpl, fields, i) || (Present(tmpl[i], fields) && f == tmpl[i].field)
    {
      if f in FieldsBelow(tmpl, fields, i + 1) {
        var k :| 0 <= k < i + 1 && tmpl[k].field == f && !tmpl[k].noSerialize;
        assert k < i || k == i;
      }
    }
  }

  lemma FlagsNext(tmpl: seq<Entry>, fields: Fields, i: nat, st: State, next: State, j: nat)
    requires i < |tmpl| && Flags(tmpl, fields, i, st) && j < |tmpl|
    requires Present(tmpl[i], fields) && (tmpl[i].mandatory ==> j == i)
    requires tmpl[j].least == tmpl[i].least && tmpl[j].most == tmpl[i].most
    requires st.hit + {j} <= next.hit && st.groupHit + tmpl[j].least <= next.groupHit
    requires next.oneOf == st.oneOf + tmpl[j].most
    ensures Flags(tmpl, fields, i + 1, next)
  {
    forall g <- next.oneOf
      ensures exists k :: 0 <= k < i + 1 && Present(tmpl[k], fields) && g in tmpl[k].most
    {
      if g in st.oneOf {
        var k :| 0 <= k < i && Present(tmpl[k], fields) && g in tmpl[k].most;
      } else {
        assert g in tmpl[i].most;
      }
    }
  }

  lemma FlagsWeaken(tmpl: seq<Entry>, fields: Fields, i: nat, st: State)
    requires i < |tmpl| && Flags(tmpl, fields, i, st) && !Present(tmpl[i], fields)
    ensures Flags(tmpl, fields, i + 1, st)
  {
    forall g <- st.oneOf
      ensures exists k :: 0 <= k < i + 1 && Present(tmpl[k], fields) && g in tmpl[k].most
    {
      var k :| 0 <= k < i && Present(tmpl[k], fields) && g in tmpl[k].most;
    }
  }

  /** The state when the first m values of the list of row i have been read. */
  ghost predicate Listed(tmpl: seq<Entry>, fields: Fields, i: nat, values: seq<Value>, m: nat, st: State)
    requires i < |tmpl| && m <= |values|
  {
    && st.fields == (if m == 0 then FieldsBelow(tmpl, fields, i)
                     else FieldsBelow(tmpl, fields, i)[tmpl[i].field := Many(values[..m])])
    && (if m == 0 then Flags(tmpl, fields, i, st) else Flags(tmpl, fields, i + 1, st))
  }

  /** Reading the next element of a list, whichever of the rows of its field it matches. */
  lemma {:induction false} ListStep(tmpl: seq<Entry>, fields: Fields, i: nat, values: seq<Value>, m: nat, st: State)
      returns (t: Tlv, next: State)
    requires i < |tmpl| && m < |values| && GoodTemplate(tmpl) && tmpl[i].isList && Present(tmpl[i], fields)
    requires GoodValue(tmpl, i, values[m]) && Listed(tmpl, fields, i, values, m, st)
    ensures EncodeValue(tmpl[i], values[m]) == Ok(t) && Step(tmpl, 0, t, st) == Ok(next)
    ensures Listed(tmpl, fields, i, values, m + 1, next)
    decreases tmpl, 1, 0
  {
    var e, v := tmpl[i], values[m];
    var j;
    t, j := ValueRoundTrip(tmpl, i, v);
    assert tmpl[j].most == {};
    StepFinds(tmpl, 0, j, t, st);
    next := State(Store(tmpl[j], st.fields, v), st.hit + {j}, st.groupHit + e.least, st.oneOf);
    assert Apply(tmpl, j, t, st) == Ok(next) by {
      assert st.oneOf + {} == st.oneOf;
    }
    assert values[..m + 1] == values[..m] + [v];
    if m == 0 {
      FieldOfOneRow(tmpl, fields, i);
      FlagsNext(tmpl, fields, i, st, next, j);
    }
  }

  lemma {:induction false} ListRoundTrip(tmpl: seq<Entry>, fields: Fields, i: nat, values: seq<Value>, m: nat, st: State)
      returns (next: State)
    requires i < |tmpl| && m <= |values| && GoodTemplate(tmpl) && tmpl[i].isList && Present(tmpl[i], fields)
    requires forall k | 0 <= k < |values| :: GoodValue(tmpl, i, values[k])
    requires Listed(tmpl, fields, i, values, m, st)
    ensures EncodeValues(tmpl[i], values[m..]).Ok?
    ensures FullRun(tmpl, EncodeValues(tmpl[i], values[m..]).value, st) == Ok(next)
    ensures Listed(tmpl, fields, i, values, |values|, next)
    decreases tmpl, 1, |values| - m + 1
  {
    hide GoodTemplate, GoodValue, Listed, Present, Step, EncodeValue;
    if m == |values| {
      next := st;
      assert values[m..] == [];
    } else {
      var t, mid := ListStep(tmpl, fields, i, values, m, st);
      next := ListRoundTrip(tmpl, fields, i, values, m + 1, mid);
      var rest := EncodeValues(tmpl[i], values[m + 1..]).value;
      assert values[m..][1..] == values[m + 1..] && values[m..][0] == values[m];
      assert EncodeValues(tmpl[i], values[m..]) == Ok([t] + rest);
      FullRunOne(tmpl, t, st);
      FullRunConcat(tmpl, [t], rest, st);
    }
  }

  /** One row: its elements take the extraction from below the row to behind it. */
  lemma RowRoundTrip(tmpl: seq<Entry>, fields: Fields, i: nat, st: State) returns (next: State)
    requires i < |tmpl| && GoodTemplate(tmpl) && GoodRow(tmpl, fields, i) && Reached(tmpl, fields, i, st)
    ensures Emit(tmpl[i], fields).Ok? && FullRun(tmpl, Emit(tmpl[i], fields).value, st) == Ok(next)
    ensures Reached(tmpl, fields, i + 1, next)
    decreases tmpl, 2
  {
    var e := tmpl[i];
    FieldsBelowNext(tmpl, fields, i);
    if !Present(e, fields) {
      next := st;
      FlagsWeaken(tmpl, fields, i, st);
    } else if !e.isList {
      next := OneRoundTrip(tmpl, fields, i, st);
    } else {
      assert GoodSlot(tmpl, i, fields[e.field]);
      var values := fields[e.field].values;
      next := ListRoundTrip(tmpl, fields, i, values, 0, st);
      assert values[0..] == values && values[..|values|] == values;
    }
  }

  /** The elements of the rows i to n. */
  function EmitRange(tmpl: seq<Entry>, i: nat, n: nat, fields: Fields): Result<seq<Tlv>>
    requires i <= n <= |tmpl|
    decreases n - i
  {
    if i == n then Ok([])
    else match Emit(tmpl[i], fields)
      case Err(error) => Err(error)
      case Ok(list) => Then(list, EmitRange(tmpl, i + 1, n, fields))
  }

  lemma {:induction false} EmitRangeToEnd(tmpl: seq<Entry>, i: nat, n: nat, fields: Fields)
    requires i <= n <= |tmpl| && EmitRange(tmpl, i, n, fields).Ok?
    ensures EmitFrom(tmpl, i, fields) == Then(EmitRange(tmpl, i, n, fields).value, EmitFrom(tmpl, n, fields))
    decreases n - i
  {
    if i == n {
      ThenNothing(EmitFrom(tmpl, n, fields));
    } else {
      EmitRangeToEnd(tmpl, i + 1, n, fields);
      ThenTwice(Emit(tmpl[i], fields).value, EmitRange(tmpl, i + 1, n, fields).value, EmitFrom(tmpl, n, fields));
    }
  }

  lemma {:induction false} RowsRoundTrip(tmpl: seq<Entry>, fields: Fields, i: nat, n: nat, st: State) returns (next: State)
    requires i <= n <= |tmpl| && GoodTemplate(tmpl) && Reached(tmpl, fields, i, st)
    requires forall k | i <= k < n :: GoodRow(tmpl, fields, k)
    ensures EmitRange(tmpl, i, n, fields).Ok? && FullRun(tmpl, EmitRange(tmpl, i, n, fields).value, st) == Ok(next)
    ensures Reached(tmpl, fields, n, next)
    decreases tmpl, 3, n - i
  {
    if i == n {
      next := st;
    } else {
      var mid := RowRoundTrip(tmpl, fields, i, st);
      next := RowsRoundTrip(tmpl, fields, i + 1, n, mid);
      FullRunConcat(tmpl, Emit(tmpl[i], fields).value, EmitRange(tmpl, i + 1, n, fields).value, st);
    }
  }

  lemma {:induction false} GroupsCovered(tmpl: seq<Entry>, fields: Fields, n: nat, st: State)
    requires n <= |tmpl| && Flags(tmpl, fields, |tmpl|, st)
    ensures GroupsWritten(tmpl, fields, n) <= st.groupHit
  {
    if n > 0 {
      GroupsCovered(tmpl, fields, n - 1, st);
    }
  }

  lemma AllRowsGood(tmpl: seq<Entry>, fields: Fields)
    requires GoodObject(tmpl, fields)
    ensures forall k | 0 <= k < |tmpl| :: GoodRow(tmpl, fields, k)
  {
    hide GoodSlot, Present, Satisfied;
  }

  /** The state behind all rows holds the whole object, and everything that must be there is. */
  lemma AllRowsRead(tmpl: seq<Entry>, fields: Fields, st: State)
    requires GoodObject(tmpl, fields) && Reached(tmpl, fields, |tmpl|, st)
    ensures st.fields == fields && Complete(tmpl, st)
  {
    GroupsCovered(tmpl, fields, |tmpl|, st);
    assert st.fields == fields;
    hide GoodSlot, Present;
    forall i | 0 <= i < |tmpl|
      ensures (tmpl[i].mandatory ==> i in st.hit) && tmpl[i].least <= st.groupHit
    {
    }
  }

  lemma NothingReached(tmpl: seq<Entry>, fields: Fields)
    ensures Reached(tmpl, fields, 0, START)
  {
    assert FieldsBelow(tmpl, fields, 0) == map[];
  }

  /** For every template and every well-formed object: the construction succeeds, and extracting
      its elements into a fresh object gives exactly the fields of the original. */
  lemma {:induction false} RoundTrip(tmpl: seq<Entry>, fields: Fields)
    requires GoodTemplate(tmpl) && GoodObject(tmpl, fields)
    ensures Construct(tmpl, fields).Ok?
    ensures Extract(tmpl, Construct(tmpl, fields).value) == Ok(fields)
    decreases tmpl, 4
  {
    AllRowsGood(tmpl, fields);
    assert GoodSize(tmpl) && Satisfied(tmpl, fields) && DistinctTags(tmpl);
    NothingReached(tmpl, fields);
    var st := RowsRoundTrip(tmpl, fields, 0, |tmpl|, START);
    AllRowsRead(tmpl, fields, st);
    hide GoodTemplate, GoodObject, GoodRow, Reached, Satisfied, Complete, FullRun, DistinctTags;
    EmitRangeToEnd(tmpl, 0, |tmpl|, fields);
    var list := EmitFrom(tmpl, 0, fields).value;
    assert list == EmitRange(tmpl, 0, |tmpl|, fields).value;
    assert Construct(tmpl, fields) == Ok(list);
    assert START.(fields := map[]) == START;
    assert FullExtract(tmpl, list, map[]) == Ok(fields);
    SkippingRefinesFullSearch(tmpl, list, map[]);
  }
}
