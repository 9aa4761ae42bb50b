/** Whatever extraction accepts is a well-formed object, so that it can be written and read back. */
module TemplateParsed {
  import opened Common
  import opened Tlv
  import opened Template
  import opened TemplateRoundTrip

  /** Every field has a row that writes it, and that row can write whatever any row of the field
      reads. */
  ghost predicate Closed(tmpl: seq<Entry>)
    decreases tmpl, 1
  {
    && (forall i | 0 <= i < |tmpl| && tmpl[i].mandatory :: !tmpl[i].noSerialize)
    && (forall j | 0 <= j < |tmpl| :: HasWriter(tmpl, j))
    && (forall i, j | 0 <= i < |tmpl| && 0 <= j < |tmpl| && Writes(tmpl, i, j) :: ClosedPair(tmpl, i, j))
  }

  predicate Writes(tmpl: seq<Entry>, i: nat, j: nat)
    requires i < |tmpl| && j < |tmpl|
  {
    tmpl[i].field == tmpl[j].field && !tmpl[i].noSerialize
  }

  predicate HasWriter(tmpl: seq<Entry>, j: nat)
    requires j < |tmpl|
  {
    exists i | 0 <= i < |tmpl| :: Writes(tmpl, i, j)
  }

  ghost predicate ClosedPair(tmpl: seq<Entry>, i: nat, j: nat)
    requires i < |tmpl| && j < |tmpl|
    decreases tmpl, 0
  {
    match tmpl[j].kind
    case Composite(_) => i == j && ClosedSub(tmpl[j])
    case Plain(codec) => forall t: Tlv | Fits(t) && t.tag == tmpl[j].tag && codec.decode(t).Ok? :: GoodValue(tmpl, i, codec.decode(t).value)
  }

  ghost predicate ClosedSub(e: Entry)
    decreases e
  {
    e.kind.Composite? ==> Closed(e.kind.sub)
  }

  predicate AllFit(list: seq<Tlv>) {
    forall t <- list :: Fits(t)
  }

  lemma {:induction false} ParsedFit(b: seq<byte>)
    requires ParseAll(b).Some?
    ensures AllFit(ParseAll(b).value)
    decreases |b|
  {
    if b != [] {
      var (t, n) := ReadFirst(b).value;
      ParsedFit(b[n..]);
    }
  }

  lemma {:induction false} NestedFit(list: seq<Tlv>)
    requires |EncodeAll(list)| <= MAX_PAYLOAD
    ensures AllFit(list)
  {
    if list != [] {
      ChildrenFit(list);
      NestedFit(list[1..]);
    }
  }

  /** The elements inside an element that fits fit as well. */
  lemma CastFit(t: Tlv)
    requires Fits(t) && CastToNested(t).Ok?
    ensures AllFit(CastToNested(t).value.payload.list)
  {
    if t.payload.Raw? {
      ParsedFit(t.payload.bytes);
    } else {
      NestedFit(t.payload.list);
    }
  }

  /** What holds after any elements: the object so far is well-formed as far as it goes. */
  ghost predicate Parsed(tmpl: seq<Entry>, st: State) {
    && (forall f <- st.fields :: exists j <- st.hit :: j < |tmpl| && tmpl[j].field == f)
    && (forall j <- st.hit :: j < |tmpl| && tmpl[j].field in st.fields && tmpl[j].most <= st.oneOf)
    && (forall i | 0 <= i < |tmpl| && Present(tmpl[i], st.fields) :: GoodSlot(tmpl, i, st.fields[tmpl[i].field]))
    && (forall g <- st.groupHit :: exists j <- st.hit :: j < |tmpl| && g in tmpl[j].least)
    && (forall i, j | i in st.hit && j in st.hit && i < j < |tmpl| :: tmpl[i].most * tmpl[j].most == {})
  }

  lemma {:induction false} CompositeIsGood(e: Entry, t: Tlv)
    requires e.kind.Composite? && GoodSubTemplate(e) && ClosedSub(e) && Fits(t) && DecodeValue(e, t).Ok?
    ensures GoodComposite(e, DecodeValue(e, t).value)
    decreases e, 0
  {
    CastFit(t);
    ExtractedIsGood(e.kind.sub, CastToNested(t).value.payload.list);
  }

  /** The row that writes the field can write the value that was read. */
  lemma {:induction false} ReadIsWritable(tmpl: seq<Entry>, i: nat, j: nat, t: Tlv)
    requires i < |tmpl| && j < |tmpl| && GoodTemplate(tmpl) && Closed(tmpl)
    requires Writes(tmpl, i, j) && Fits(t) && t.tag == tmpl[j].tag && DecodeValue(tmpl[j], t).Ok?
    ensures GoodValue(tmpl, i, DecodeValue(tmpl[j], t).value)
    decreases tmpl, 0
  {
    assert ClosedPair(tmpl, i, j);
    if tmpl[j].kind.Composite? {
      assert GoodSubTemplate(tmpl[j]);
      CompositeIsGood(tmpl[j], t);
    }
  }

  lemma StoredSlot(tmpl: seq<Entry>, i: nat, j: nat, t: Tlv, st: State)
    requires i < |tmpl| && j < |tmpl| && GoodTemplate(tmpl) && Closed(tmpl) && Parsed(tmpl, st)
    requires Fits(t) && t.tag == tmpl[j].tag && Apply(tmpl, j, t, st).Ok? && Writes(tmpl, i, j)
    ensures var fields := Apply(tmpl, j, t, st).value.fields;
      tmpl[i].field in fields && GoodSlot(tmpl, i, fields[tmpl[i].field])
    decreases tmpl, 1
  {
    ReadIsWritable(tmpl, i, j, t);
    assert i != j ==> SharedField(tmpl[i], tmpl[j]);
    hide GoodTemplate, Closed, DecodeValue, GoodValue;
    var f := tmpl[i].field;
    if tmpl[j].isList && f in st.fields {
      assert Present(tmpl[i], st.fields);
      assert GoodSlot(tmpl, i, st.fields[f]);
    }
  }

  lemma ApplyKeepsGroups(tmpl: seq<Entry>, j: nat, t: Tlv, st: State)
    requires j < |tmpl| && Parsed(tmpl, st) && Apply(tmpl, j, t, st).Ok?
    ensures var next := Apply(tmpl, j, t, st).value;
      && (forall g <- next.groupHit :: exists k <- next.hit :: k < |tmpl| && g in tmpl[k].least)
      && (forall i, k | i in next.hit && k in next.hit && i < k < |tmpl| :: tmpl[i].most * tmpl[k].most == {})
  {
    var next := Apply(tmpl, j, t, st).value;
    forall g <- next.groupHit
      ensures exists k <- next.hit :: k < |tmpl| && g in tmpl[k].least
    {
      if g in st.groupHit {
        var k :| k in st.hit && k < |tmpl| && g in tmpl[k].least;
        assert k in next.hit;
      } else {
        assert j in next.hit;
      }
    }
    forall i, k | i in next.hit && k in next.hit && i < k < |tmpl|
      ensures tmpl[i].most * tmpl[k].most == {}
    {
    }
  }

  lemma ApplyKeepsParsed(tmpl: seq<Entry>, j: nat, t: Tlv, st: State)
    requires j < |tmpl| && GoodTemplate(tmpl) && Closed(tmpl) && Parsed(tmpl, st)
    requires Fits(t) && t.tag == tmpl[j].tag && Apply(tmpl, j, t, st).Ok?
    ensures Parsed(tmpl, Apply(tmpl, j, t, st).value)
    decreases tmpl, 2
  {
    hide GoodTemplate, Closed, DecodeValue, GoodSlot;
    var next := Apply(tmpl, j, t, st).value;
    ApplyKeepsGroups(tmpl, j, t, st);
    forall f <- next.fields
      ensures exists k <- next.hit :: k < |tmpl| && tmpl[k].field == f
    {
      if f in st.fields {
        var k :| k in st.hit && k < |tmpl| && tmpl[k].field == f;
        assert k in next.hit;
      } else {
        assert j in next.hit;
      }
    }
    forall i | 0 <= i < |tmpl| && Present(tmpl[i], next.fields)
      ensures GoodSlot(tmpl, i, next.fields[tmpl[i].field])
    {
      if tmpl[i].field == tmpl[j].field {
        StoredSlot(tmpl, i, j, t, st);
      }
    }
  }

  lemma {:induction false} ScanKeepsParsed(tmpl: seq<Entry>, i: nat, t: Tlv, st: State, matched: bool)
    requires i <= |tmpl| && GoodTemplate(tmpl) && Closed(tmpl) && Parsed(tmpl, st) && Fits(t) && Scan(tmpl, i, t, st, matched).Ok?
    ensures Parsed(tmpl, Scan(tmpl, i, t, st, matched).value.0)
    decreases tmpl, 3, |tmpl| - i
  {
    hide Parsed, Closed, GoodTemplate, Apply;
    if i < |tmpl| {
      if tmpl[i].tag != t.tag {
        ScanKeepsParsed(tmpl, i + 1, t, st, matched);
      } else {
        ApplyKeepsParsed(tmpl, i, t, st);
        if tmpl[i].moreDefs {
          ScanKeepsParsed(tmpl, i + 1, t, Apply(tmpl, i, t, st).value, true);
        }
      }
    }
  }

  lemma {:induction false} RunKeepsParsed(tmpl: seq<Entry>, start: nat, list: seq<Tlv>, st: State)
    requires start <= |tmpl| && GoodTemplate(tmpl) && Closed(tmpl) && Parsed(tmpl, st) && AllFit(list) && Run(tmpl, start, list, st).Ok?
    ensures Parsed(tmpl, Run(tmpl, start, list, st).value)
    decreases tmpl, 4, list
  {
    hide Parsed, Closed, GoodTemplate, Scan;
    if list != [] {
      ScanKeepsParsed(tmpl, start, list[0], st, false);
      RunKeepsParsed(tmpl, NextStart(tmpl, start, list[0]), list[1..], Step(tmpl, start, list[0], st).value);
    }
  }

  lemma {:induction false} WrittenGroup(tmpl: seq<Entry>, fields: Fields, i: nat, n: nat)
    requires i < n <= |tmpl| && Present(tmpl[i], fields)
    ensures tmpl[i].least <= GroupsWritten(tmpl, fields, n)
  {
    if i < n - 1 {
      WrittenGroup(tmpl, fields, i, n - 1);
    }
  }

  /** A group that some element served is served by the rows that will be written. */
  lemma HitGroupWritten(tmpl: seq<Entry>, st: State, g: nat)
    requires GoodTemplate(tmpl) && Closed(tmpl) && Parsed(tmpl, st) && g in st.groupHit
    ensures g in GroupsWritten(tmpl, st.fields, |tmpl|)
  {
    var j :| j in st.hit && j < |tmpl| && g in tmpl[j].least;
    assert HasWriter(tmpl, j);
    var i :| 0 <= i < |tmpl| && Writes(tmpl, i, j);
    assert i != j ==> SharedField(tmpl[i], tmpl[j]);
    WrittenGroup(tmpl, st.fields, i, |tmpl|);
  }

  lemma ParsedAtMostOne(tmpl: seq<Entry>, st: State)
    requires GoodTemplate(tmpl) && Parsed(tmpl, st)
    ensures AtMostOne(tmpl, st.fields)
  {
    forall i | 0 <= i < |tmpl| && Present(tmpl[i], st.fields)
      ensures i in st.hit || tmpl[i].most == {}
    {
      var k :| k in st.hit && k < |tmpl| && tmpl[k].field == tmpl[i].field;
      assert k != i ==> SharedField(tmpl[k], tmpl[i]);
    }
  }

  lemma ParsedSatisfied(tmpl: seq<Entry>, st: State)
    requires GoodTemplate(tmpl) && Closed(tmpl) && Parsed(tmpl, st) && Complete(tmpl, st)
    ensures Satisfied(tmpl, st.fields)
  {
    forall g <- st.groupHit
      ensures g in GroupsWritten(tmpl, st.fields, |tmpl|)
    {
      HitGroupWritten(tmpl, st, g);
    }
    hide GoodTemplate, ClosedPair, GoodSlot, HasWriter, GroupsWritten;
  }

  lemma ParsedFieldsWritten(tmpl: seq<Entry>, st: State)
    requires Closed(tmpl) && Parsed(tmpl, st)
    ensures forall f <- st.fields :: exists i :: 0 <= i < |tmpl| && tmpl[i].field == f && !tmpl[i].noSerialize
  {
    forall f <- st.fields
      ensures exists i :: 0 <= i < |tmpl| && tmpl[i].field == f && !tmpl[i].noSerialize
    {
      var j :| j in st.hit && j < |tmpl| && tmpl[j].field == f;
      assert HasWriter(tmpl, j);
      var i :| 0 <= i < |tmpl| && Writes(tmpl, i, j);
    }
  }

  lemma ParsedIsGood(tmpl: seq<Entry>, st: State)
    requires GoodTemplate(tmpl) && Closed(tmpl) && Parsed(tmpl, st) && Complete(tmpl, st)
    ensures GoodObject(tmpl, st.fields)
  {
    ParsedAtMostOne(tmpl, st);
    ParsedSatisfied(tmpl, st);
    ParsedFieldsWritten(tmpl, st);
    hide GoodTemplate, Closed, Satisfied, AtMostOne, GoodSlot, Complete;
  }

  /** Every object that extraction produces, from any elements, is well-formed. */
  lemma {:induction false} ExtractedIsGood(tmpl: seq<Entry>, list: seq<Tlv>)
    requires GoodTemplate(tmpl) && Closed(tmpl) && AllFit(list) && Extract(tmpl, list).Ok?
    ensures GoodObject(tmpl, Extract(tmpl, list).value)
    decreases tmpl, 5
  {
    assert Extract(tmpl, list) == ExtractInto(tmpl, list, map[]);
    assert START.(fields := map[]) == START;
    assert Parsed(tmpl, START);
    RunKeepsParsed(tmpl, 0, list, START);
    ParsedIsGood(tmpl, Run(tmpl, 0, list, START).value);
  }

  /** Copying an object that was read from elements always succeeds and is exact. */
  lemma CopyOfExtracted(tmpl: seq<Entry>, list: seq<Tlv>)
    requires GoodTemplate(tmpl) && Closed(tmpl) && AllFit(list) && Extract(tmpl, list).Ok?
    ensures DeepCopy(tmpl, Extract(tmpl, list).value) == Extract(tmpl, list)
  {
    ExtractedIsGood(tmpl, list);
    TemplateRoundTrip.RoundTrip(tmpl, Extract(tmpl, list).value);
  }
}
