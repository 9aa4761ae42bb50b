/** Exactly which objects survive construction and extraction. Construction lets a second element
    of an at-most-one group and an empty list through; extraction refuses the one and cannot
    bring back the other. */
module TemplateExact {
  import opened Common
  import opened Tlv
  import opened Template
  import opened TemplateSearch
  import opened TemplateRoundTrip

  ghost predicate TypedSlot(tmpl: seq<Entry>, i: nat, slot: Slot)
    requires i < |tmpl|
  {
    match slot
    case One(v) => !tmpl[i].isList && GoodValue(tmpl, i, v)
    case Many(values) => tmpl[i].isList && forall m | 0 <= m < |values| :: GoodValue(tmpl, i, values[m])
  }

  /** An object that construction accepts: typed, with its mandatory rows and groups served. Its
      lists may be empty, and it may serve an at-most-one group twice. */
  ghost predicate AcceptedObject(tmpl: seq<Entry>, fields: Fields) {
    && (forall f <- fields :: exists i :: 0 <= i < |tmpl| && tmpl[i].field == f && !tmpl[i].noSerialize)
    && (forall i | 0 <= i < |tmpl| && Present(tmpl[i], fields) :: TypedSlot(tmpl, i, fields[tmpl[i].field]))
    && Satisfied(tmpl, fields)
  }

  predicate NoEmptyList(fields: Fields) {
    forall f <- fields :: fields[f] != Many([])
  }

  lemma {:induction false} ScanMakesNoEmptyList(tmpl: seq<Entry>, i: nat, t: Tlv, st: State, matched: bool)
    requires i <= |tmpl| && NoEmptyList(st.fields) && Scan(tmpl, i, t, st, matched).Ok?
    ensures NoEmptyList(Scan(tmpl, i, t, st, matched).value.0.fields)
    decreases |tmpl| - i
  {
    if i < |tmpl| {
      if tmpl[i].tag != t.tag {
        ScanMakesNoEmptyList(tmpl, i + 1, t, st, matched);
      } else if tmpl[i].moreDefs {
        ScanMakesNoEmptyList(tmpl, i + 1, t, Apply(tmpl, i, t, st).value, true);
      }
    }
  }

  /** Whatever the elements, extraction never leaves an empty list. */
  lemma {:induction false} RunMakesNoEmptyList(tmpl: seq<Entry>, start: nat, list: seq<Tlv>, st: State)
    requires start <= |tmpl| && NoEmptyList(st.fields) && Run(tmpl, start, list, st).Ok?
    ensures NoEmptyList(Run(tmpl, start, list, st).value.fields)
    decreases list
  {
    if list != [] {
      ScanMakesNoEmptyList(tmpl, start, list[0], st, false);
      RunMakesNoEmptyList(tmpl, NextStart(tmpl, start, list[0]), list[1..], Step(tmpl, start, list[0], st).value);
    }
  }

  /** Where the full search accepts a prefix, the skipping search reaches the same state. */
  lemma {:induction false} RunPrefix(tmpl: seq<Entry>, start: nat, a: seq<Tlv>, b: seq<Tlv>, st: State) returns (later: nat)
    requires DistinctTags(tmpl) && Skipped(tmpl, start, st) && FullRun(tmpl, a, st).Ok?
    ensures Skipped(tmpl, later, FullRun(tmpl, a, st).value)
    ensures Run(tmpl, start, a + b, st) == Run(tmpl, later, b, FullRun(tmpl, a, st).value)
    decreases a
  {
    if a == [] {
      assert a + b == b;
      later := start;
    } else {
      var t := a[0];
      assert (a + b)[0] == t && (a + b)[1..] == a[1..] + b;
      if j :| 0 <= j < start && tmpl[j].tag == t.tag {
        SkippedElement(tmpl, start, j, t, st);
      }
      StepAgreement(tmpl, start, t, st);
      StepKeepsSkipped(tmpl, start, t, st);
      later := RunPrefix(tmpl, NextStart(tmpl, start, t), a[1..], b, Step(tmpl, start, t, st).value);
    }
  }

  predicate Conflict(tmpl: seq<Entry>, fields: Fields, j: nat)
    requires j < |tmpl|
  {
    Present(tmpl[j], fields) && exists k :: 0 <= k < j && Present(tmpl[k], fields) && tmpl[k].most * tmpl[j].most != {}
  }

  lemma {:induction false} FirstConflict(tmpl: seq<Entry>, fields: Fields, n: nat) returns (j: nat)
    requires n < |tmpl| && Conflict(tmpl, fields, n)
    ensures j < |tmpl| && Conflict(tmpl, fields, j) && forall k | 0 <= k < j :: !Conflict(tmpl, fields, k)
  {
    if k :| 0 <= k < n && Conflict(tmpl, fields, k) {
      j := FirstConflict(tmpl, fields, k);
    } else {
      j := n;
    }
  }

  /** The element of a row that serves a group again is refused. */
  lemma ConflictStep(tmpl: seq<Entry>, fields: Fields, j: nat, mid: State, later: nat, t: Tlv)
    requires GoodTemplate(tmpl) && j < |tmpl| && Conflict(tmpl, fields, j) && t.tag == tmpl[j].tag
    requires Reached(tmpl, fields, j, mid) && Skipped(tmpl, later, mid)
    ensures Step(tmpl, later, t, mid) == Err(InvalidFormat)
  {
    FieldOfOneRow(tmpl, fields, j);
    StepFinds(tmpl, later, j, t, mid);
    var k :| 0 <= k < j && Present(tmpl[k], fields) && tmpl[k].most * tmpl[j].most != {};
    var g :| g in tmpl[k].most * tmpl[j].most;
    assert g in tmpl[j].most * mid.oneOf;
  }

  lemma SingleValueElement(tmpl: seq<Entry>, fields: Fields, j: nat) returns (t: Tlv)
    requires GoodTemplate(tmpl) && j < |tmpl| && Present(tmpl[j], fields) && !tmpl[j].isList
    requires TypedSlot(tmpl, j, fields[tmpl[j].field])
    ensures t.tag == tmpl[j].tag && Emit(tmpl[j], fields) == Ok([t])
  {
    var v := fields[tmpl[j].field].value;
    var same;
    t, same := ValueRoundTrip(tmpl, j, v);
    assert [v][1..] == [] && [t] + [] == [t];
    assert EncodeValues(tmpl[j], []) == Ok([]);
    SameRow(tmpl, j, same);
  }

  lemma SameRow(tmpl: seq<Entry>, i: nat, j: nat)
    requires GoodTemplate(tmpl) && i < |tmpl| && j < |tmpl| && tmpl[i].field == tmpl[j].field && !tmpl[i].isList
    ensures i == j
  {
  }

  lemma ConflictRefused(tmpl: seq<Entry>, fields: Fields, j: nat)
    requires GoodTemplate(tmpl) && AcceptedObject(tmpl, fields) && NoEmptyList(fields)
    requires j < |tmpl| && Conflict(tmpl, fields, j) && forall k | 0 <= k < j :: !Conflict(tmpl, fields, k)
    requires EmitFrom(tmpl, 0, fields).Ok?
    ensures Run(tmpl, 0, EmitFrom(tmpl, 0, fields).value, START) == Err(InvalidFormat)
  {
    assert TypedSlot(tmpl, j, fields[tmpl[j].field]) && !tmpl[j].isList;
    assert FieldsBelow(tmpl, fields, 0) == map[] && Reached(tmpl, fields, 0, START);
    hide AcceptedObject, Step, Emit, Reached, GoodRow, Conflict, FullRun, EncodeValues, TypedSlot;
    forall k | 0 <= k < j
      ensures GoodRow(tmpl, fields, k)
    {
      ConflictFree(tmpl, fields, k);
    }
    var mid := RowsRoundTrip(tmpl, fields, 0, j, START);
    var before := EmitRange(tmpl, 0, j, fields).value;
    EmitRangeToEnd(tmpl, 0, j, fields);
    var t := SingleValueElement(tmpl, fields, j);
    var rest := EmitFrom(tmpl, j + 1, fields).value;
    assert EmitFrom(tmpl, 0, fields).value == before + ([t] + rest);
    var later := RunPrefix(tmpl, 0, before, [t] + rest, START);
    ConflictStep(tmpl, fields, j, mid, later, t);
    assert ([t] + rest)[0] == t;
  }

  lemma ConflictFree(tmpl: seq<Entry>, fields: Fields, k: nat)
    requires k < |tmpl| && AcceptedObject(tmpl, fields) && NoEmptyList(fields) && !Conflict(tmpl, fields, k)
    ensures GoodRow(tmpl, fields, k)
  {
    if Present(tmpl[k], fields) {
      assert TypedSlot(tmpl, k, fields[tmpl[k].field]);
    }
  }

  lemma {:induction false} TypedValuesEncode(tmpl: seq<Entry>, i: nat, values: seq<Value>)
    requires GoodTemplate(tmpl) && i < |tmpl| && forall m | 0 <= m < |values| :: GoodValue(tmpl, i, values[m])
    ensures EncodeValues(tmpl[i], values).Ok?
    decreases |values|
  {
    if |values| > 0 {
      var t, j := ValueRoundTrip(tmpl, i, values[0]);
      TypedValuesEncode(tmpl, i, values[1..]);
    }
  }

  lemma {:induction false} AcceptedRowsEncode(tmpl: seq<Entry>, i: nat, fields: Fields)
    requires GoodTemplate(tmpl) && i <= |tmpl| && AcceptedObject(tmpl, fields)
    ensures EmitFrom(tmpl, i, fields).Ok?
    decreases |tmpl| - i
  {
    if i < |tmpl| {
      AcceptedRowsEncode(tmpl, i + 1, fields);
      if Present(tmpl[i], fields) {
        var slot := fields[tmpl[i].field];
        assert TypedSlot(tmpl, i, slot);
        TypedValuesEncode(tmpl, i, if slot.One? then [slot.value] else slot.values);
      }
    }
  }

  lemma AtMostOneOrConflict(tmpl: seq<Entry>, fields: Fields)
    requires GoodTemplate(tmpl) && AcceptedObject(tmpl, fields) && NoEmptyList(fields)
    ensures AtMostOne(tmpl, fields) ==> GoodObject(tmpl, fields)
    ensures !AtMostOne(tmpl, fields) ==> exists n :: 0 <= n < |tmpl| && Conflict(tmpl, fields, n)
  {
    hide GoodTemplate, GoodValue, Satisfied;
    forall i | 0 <= i < |tmpl| && Present(tmpl[i], fields)
      ensures GoodSlot(tmpl, i, fields[tmpl[i].field])
    {
      assert TypedSlot(tmpl, i, fields[tmpl[i].field]);
    }
    if !AtMostOne(tmpl, fields) {
      var i, n :| 0 <= i < n < |tmpl| && Present(tmpl[i], fields) && Present(tmpl[n], fields) && tmpl[i].most * tmpl[n].most != {};
      assert Conflict(tmpl, fields, n);
    }
  }

  /** Construction accepts the object in every case; the copy is the original exactly when no
      list is empty and no at-most-one group is served twice. */
  lemma CopyExact(tmpl: seq<Entry>, fields: Fields)
    requires GoodTemplate(tmpl) && AcceptedObject(tmpl, fields)
    ensures Construct(tmpl, fields).Ok?
    ensures DeepCopy(tmpl, fields) == Ok(fields) <==> AtMostOne(tmpl, fields) && NoEmptyList(fields)
    ensures NoEmptyList(fields) && !AtMostOne(tmpl, fields) ==> DeepCopy(tmpl, fields) == Err(InvalidFormat)
  {
    assert GoodSize(tmpl) && Satisfied(tmpl, fields);
    AcceptedRowsEncode(tmpl, 0, fields);
    hide GoodTemplate, AcceptedObject, EmitFrom, Run, AtMostOne, Satisfied, Conflict, GoodObject;
    var list := EmitFrom(tmpl, 0, fields).value;
    assert Construct(tmpl, fields) == Ok(list);
    assert START.(fields := map[]) == START;
    assert Extract(tmpl, list) == ExtractInto(tmpl, list, map[]);
    if NoEmptyList(fields) {
      AtMostOneOrConflict(tmpl, fields);
      if AtMostOne(tmpl, fields) {
        TemplateRoundTrip.RoundTrip(tmpl, fields);
      } else {
        var n :| 0 <= n < |tmpl| && Conflict(tmpl, fields, n);
        var j := FirstConflict(tmpl, fields, n);
        ConflictRefused(tmpl, fields, j);
      }
    } else if Run(tmpl, 0, list, START).Ok? {
      RunMakesNoEmptyList(tmpl, 0, list, START);
    }
  }
}
