/** Calendar hash chains as objects, as elements and as bytes. */
module CalendarObjects {
  import opened Common
  import opened Hashing
  import opened KsiTemplates
  import opened Template
  import opened TemplateParsed
  import opened TemplateRoundTrip
  import opened TemplateSearch
  import opened TemplateWire
  import opened Tlv
  import opened TlvInteger

  datatype CalendarLink = CalendarLink(isLeft: bool, imprint: Imprint)

  datatype CalendarHashChain = CalendarHashChain(
    publicationTime: uint64,
    aggregationTime: Option<uint64>,
    inputHash: Imprint,
    hashChain: seq<CalendarLink>)

  function LinkValue(link: CalendarLink): Value {
    Sided(link.isLeft, Octets(link.imprint))
  }

  function LinkValues(links: seq<CalendarLink>): (r: seq<Value>)
    ensures |r| == |links| && forall k | 0 <= k < |links| :: r[k] == LinkValue(links[k])
  {
    seq(|links|, k requires 0 <= k < |links| => LinkValue(links[k]))
  }

  function FieldsOf(c: CalendarHashChain): Fields {
    var fields := map[0 := One(Number(c.publicationTime)), 2 := One(Octets(c.inputHash)), 3 := Many(LinkValues(c.hashChain))];
    if c.aggregationTime.Some? then fields[1 := One(Number(c.aggregationTime.value))] else fields
  }

  function LinkElement(link: CalendarLink): Tlv {
    Tlv(if link.isLeft then LEFT_LINK else RIGHT_LINK, false, false, Raw(link.imprint))
  }

  function LinkElements(links: seq<CalendarLink>): seq<Tlv> {
    if links == [] then [] else [LinkElement(links[0])] + LinkElements(links[1..])
  }

  function Scalars(c: CalendarHashChain): seq<Tlv> {
    [Tlv(0x01, false, false, Raw(IntBytes(c.publicationTime)))]
    + (if c.aggregationTime.Some? then [Tlv(0x02, false, false, Raw(IntBytes(c.aggregationTime.value)))] else [])
    + [Tlv(0x05, false, false, Raw(c.inputHash))]
  }

  lemma {:induction false} LinksEncode(links: seq<CalendarLink>)
    ensures EncodeValues(CALENDAR[3], LinkValues(links)) == Ok(LinkElements(links))
    decreases |links|
  {
    if links != [] {
      LinksEncode(links[1..]);
      assert LinkValues(links)[1..] == LinkValues(links[1..]) && LinkValues(links)[0] == LinkValue(links[0]);
      assert EncodeValue(CALENDAR[3], LinkValue(links[0])) == Ok(LinkElement(links[0]));
    }
  }

  lemma {:induction false} OneValue(e: Entry, v: Value)
    ensures EncodeValues(e, [v]) == match EncodeValue(e, v) { case Err(error) => Err(error) case Ok(t) => Ok([t]) }
  {
    assert [v][1..] == [] && [v][0] == v;
    assert EncodeValues(e, []) == Ok([]);
    if EncodeValue(e, v).Ok? {
      assert [EncodeValue(e, v).value] + [] == [EncodeValue(e, v).value];
    }
  }

  /** The rows of a chain that come before its links. */
  lemma ScalarsEncode(c: CalendarHashChain)
    ensures EmitRange(CALENDAR, 0, 3, FieldsOf(c)) == Ok(Scalars(c))
  {
    var f := FieldsOf(c);
    OneValue(CALENDAR[0], f[0].value);
    OneValue(CALENDAR[2], f[2].value);
    var first := [Tlv(0x01, false, false, Raw(IntBytes(c.publicationTime)))];
    var last := [Tlv(0x05, false, false, Raw(c.inputHash))];
    assert Emit(CALENDAR[0], f) == Ok(first);
    assert Emit(CALENDAR[2], f) == Ok(last);
    assert EmitRange(CALENDAR, 3, 3, f) == Ok([]);
    assert last + [] == last;
    assert EmitRange(CALENDAR, 2, 3, f) == Ok(last);
    if c.aggregationTime.Some? {
      OneValue(CALENDAR[1], f[1].value);
      var second := [Tlv(0x02, false, false, Raw(IntBytes(c.aggregationTime.value)))];
      assert Emit(CALENDAR[1], f) == Ok(second);
      assert EmitRange(CALENDAR, 1, 3, f) == Ok(second + last);
      assert first + (second + last) == Scalars(c);
    } else {
      assert Emit(CALENDAR[1], f) == Ok([]);
      assert EmitRange(CALENDAR, 1, 3, f) == Ok([] + last);
      assert first + ([] + last) == Scalars(c);
    }
  }

  lemma LinkRowsEncode(c: CalendarHashChain)
    ensures EmitFrom(CALENDAR, 3, FieldsOf(c)) == Ok(LinkElements(c.hashChain))
  {
    var f := FieldsOf(c);
    LinksEncode(c.hashChain);
    assert Emit(CALENDAR[3], f) == Ok(LinkElements(c.hashChain));
    assert EmitFrom(CALENDAR, 5, f) == Ok([]);
    assert EmitFrom(CALENDAR, 4, f) == Then([], Ok([])) == Ok([]) by {
      ThenNothing(Ok([]));
    }
    assert EmitFrom(CALENDAR, 3, f) == Then(LinkElements(c.hashChain), Ok([]));
    assert LinkElements(c.hashChain) + [] == LinkElements(c.hashChain);
  }

  lemma CalendarSatisfied(c: CalendarHashChain)
    ensures Satisfied(CALENDAR, FieldsOf(c))
  {
    WrittenGroup(CALENDAR, FieldsOf(c), 3, 5);
  }

  /** The elements of a chain: its links follow the scalars in the order of the chain, left and
      right ones mixed, each under the tag of its side. */
  lemma CalendarElements(c: CalendarHashChain)
    ensures Construct(CALENDAR, FieldsOf(c)) == Ok(Scalars(c) + LinkElements(c.hashChain))
  {
    var f := FieldsOf(c);
    ScalarsEncode(c);
    LinkRowsEncode(c);
    CalendarSatisfied(c);
    EmitRangeToEnd(CALENDAR, 0, 3, f);
    hide FieldsOf, Scalars, EmitFrom, EmitRange, Satisfied;
  }

  lemma LinkValueGood(link: CalendarLink)
    ensures GoodValue(CALENDAR, 3, LinkValue(link))
  {
    LinkReadsBack(LinkValue(link));
  }

  lemma ScalarsGood(n: uint64, hash: Imprint)
    ensures GoodValue(CALENDAR, 0, Number(n)) && GoodValue(CALENDAR, 1, Number(n)) && GoodValue(CALENDAR, 2, Octets(hash))
  {
    IntegerExact(Raw(IntBytes(n)), n);
    var t := Tlv(0x01, false, false, Raw(IntBytes(n)));
    assert ReadsBack(CALENDAR, 0, 0, t, Number(n));
    assert ReadsBack(CALENDAR, 1, 1, t.(tag := 0x02), Number(n));
    assert ReadsBack(CALENDAR, 2, 2, Tlv(0x05, false, false, Raw(hash)), Octets(hash));
  }

  lemma CalendarSlots(c: CalendarHashChain, i: nat)
    requires i < |CALENDAR| && Present(CALENDAR[i], FieldsOf(c)) && (i == 3 ==> c.hashChain != [])
    ensures GoodSlot(CALENDAR, i, FieldsOf(c)[CALENDAR[i].field])
  {
    if i == 3 {
      forall k | 0 <= k < |c.hashChain|
        ensures GoodValue(CALENDAR, 3, LinkValues(c.hashChain)[k])
      {
        LinkValueGood(c.hashChain[k]);
      }
    } else {
      ScalarsGood(if i == 0 then c.publicationTime else if i == 1 then c.aggregationTime.value else 0, c.inputHash);
    }
  }

  lemma CalendarFields(c: CalendarHashChain)
    ensures forall f <- FieldsOf(c) :: exists i :: 0 <= i < |CALENDAR| && CALENDAR[i].field == f && !CALENDAR[i].noSerialize
    ensures AtMostOne(CALENDAR, FieldsOf(c))
    ensures Present(CALENDAR[3], FieldsOf(c)) && FieldsOf(c)[3] == Many(LinkValues(c.hashChain))
  {
    assert CALENDAR[0].field == 0 && CALENDAR[1].field == 1 && CALENDAR[2].field == 2 && CALENDAR[3].field == 3;
  }

  /** A chain is a well-formed object exactly if it has a link. */
  lemma CalendarGood(c: CalendarHashChain)
    ensures GoodObject(CALENDAR, FieldsOf(c)) <==> c.hashChain != []
  {
    CalendarSatisfied(c);
    CalendarFields(c);
    hide GoodValue, Satisfied, FieldsOf, AtMostOne;
    if c.hashChain != [] {
      forall i | 0 <= i < |CALENDAR| && Present(CALENDAR[i], FieldsOf(c))
        ensures GoodSlot(CALENDAR, i, FieldsOf(c)[CALENDAR[i].field])
      {
        CalendarSlots(c, i);
      }
    } else {
      assert !GoodSlot(CALENDAR, 3, Many(LinkValues(c.hashChain)));
    }
  }

  // ---- reading -------------------------------------------------------------------------------

  predicate IsLinkElement(t: Tlv) {
    t.tag == LEFT_LINK || t.tag == RIGHT_LINK
  }

  /** The links among the elements, in the order in which they arrive. */
  function LinksIn(list: seq<Tlv>): seq<Value> {
    if list == [] then []
    else if IsLinkElement(list[0]) && DecodeLink(list[0]).Ok? then [DecodeLink(list[0]).value] + LinksIn(list[1..])
    else LinksIn(list[1..])
  }

  function LinksOf(fields: Fields): seq<Value> {
    if 3 in fields && fields[3].Many? then fields[3].values else []
  }

  lemma {:induction false} NoLinkElements(list: seq<Tlv>)
    requires forall t <- list :: !IsLinkElement(t)
    ensures LinksIn(list) == []
  {
    if list != [] {
      NoLinkElements(list[1..]);
    }
  }

  lemma ApplyCollects(k: nat, t: Tlv, st: State)
    requires k < 5 && t.tag == CALENDAR[k].tag && Apply(CALENDAR, k, t, st).Ok?
    ensures LinksOf(Apply(CALENDAR, k, t, st).value.fields) == LinksOf(st.fields) + LinksIn([t])
  {
    assert [t][1..] == [];
  }

  lemma StepCollects(start: nat, t: Tlv, st: State)
    requires start <= 3 && Step(CALENDAR, start, t, st).Ok?
    ensures LinksOf(Step(CALENDAR, start, t, st).value.fields) == LinksOf(st.fields) + LinksIn([t])
  {
    assert DistinctTags(CALENDAR);
    hide Apply, LinksOf;
    if k :| start <= k < 5 && CALENDAR[k].tag == t.tag {
      StepFinds(CALENDAR, start, k, t, st);
      ApplyCollects(k, t, st);
    } else {
      ScanNothing(CALENDAR, start, t, st, false);
      assert !IsLinkElement(t) by { assert CALENDAR[3].tag == LEFT_LINK && CALENDAR[4].tag == RIGHT_LINK; }
      NoLinkElements([t]);
      assert LinksOf(st.fields) + [] == LinksOf(st.fields);
    }
  }

  lemma StartStaysBelowLinks(start: nat, t: Tlv)
    requires start <= 3
    ensures NextStart(CALENDAR, start, t) <= 3
  {
    StartOfLists(CALENDAR, start, t, 3);
  }

  /** The search never skips a row that allows several elements. */
  lemma {:induction false} StartOfLists(tmpl: seq<Entry>, start: nat, t: Tlv, k: nat)
    requires start <= k < |tmpl| && tmpl[k].isList
    ensures NextStart(tmpl, start, t) <= k
    decreases |tmpl| - start
  {
    if start < k {
      StartOfLists(tmpl, start + 1, t, k);
    }
  }

  lemma LinksInFront(list: seq<Tlv>)
    requires list != []
    ensures LinksIn(list) == LinksIn([list[0]]) + LinksIn(list[1..])
  {
    assert [list[0]][1..] == [];
  }

  lemma {:induction false} RunCollects(start: nat, list: seq<Tlv>, st: State)
    requires start <= 3 && Run(CALENDAR, start, list, st).Ok?
    ensures LinksOf(Run(CALENDAR, start, list, st).value.fields) == LinksOf(st.fields) + LinksIn(list)
    decreases list
  {
    hide Step, LinksIn, NextStart;
    if list == [] {
      assert LinksIn(list) == [] by { NoElementsNoLinks(); }
    } else {
      StepCollects(start, list[0], st);
      StartStaysBelowLinks(start, list[0]);
      LinksInFront(list);
      RunCollects(NextStart(CALENDAR, start, list[0]), list[1..], Step(CALENDAR, start, list[0], st).value);
    }
  }

  lemma NoElementsNoLinks()
    ensures LinksIn([]) == []
  {
  }

  lemma ExtractCollects(list: seq<Tlv>)
    requires Extract(CALENDAR, list).Ok?
    ensures LinksOf(Extract(CALENDAR, list).value) == LinksIn(list)
  {
    hide Run, LinksIn;
    assert Extract(CALENDAR, list) == ExtractInto(CALENDAR, list, map[]);
    assert START.(fields := map[]) == START;
    RunCollects(0, list, START);
  }

  // ---- objects and values --------------------------------------------------------------------

  lemma GoodScalar(i: nat, v: Value)
    requires i < 3 && GoodValue(CALENDAR, i, v)
    ensures if i == 2 then v.Octets? && IsImprint(v.bytes) else v.Number?
  {
  }

  lemma GoodScalarSlot(f: Fields, i: nat)
    requires i < 3 && GoodObject(CALENDAR, f) && Present(CALENDAR[i], f)
    ensures f[i].One? && GoodValue(CALENDAR, i, f[i].value)
  {
    hide GoodValue, AtMostOne, Satisfied;
    assert CALENDAR[i].field == i && GoodSlot(CALENDAR, i, f[i]);
  }

  lemma GoodScalars(f: Fields)
    requires GoodObject(CALENDAR, f)
    ensures 0 in f && f[0].One? && f[0].value.Number?
    ensures 1 in f ==> f[1].One? && f[1].value.Number?
    ensures 2 in f && f[2].One? && f[2].value.Octets? && IsImprint(f[2].value.bytes)
  {
    hide GroupsWritten, AtMostOne, GoodValue, GoodSlot;
    assert Present(CALENDAR[0], f) && Present(CALENDAR[2], f);
    GoodScalarSlot(f, 0);
    GoodScalar(0, f[0].value);
    GoodScalarSlot(f, 2);
    GoodScalar(2, f[2].value);
    if 1 in f {
      GoodScalarSlot(f, 1);
      GoodScalar(1, f[1].value);
    }
  }

  lemma GoodLink(v: Value)
    requires GoodValue(CALENDAR, 3, v)
    ensures v.Sided? && v.inner.Octets? && IsImprint(v.inner.bytes)
  {
  }

  lemma GoodLinks(f: Fields)
    requires GoodObject(CALENDAR, f)
    ensures 3 in f && f[3].Many? && f[3].values != []
    ensures forall k | 0 <= k < |f[3].values| :: GoodValue(CALENDAR, 3, f[3].values[k])
  {
    hide GoodValue, AtMostOne;
    assert CALENDAR[3].least <= GroupsWritten(CALENDAR, f, 5);
    assert Present(CALENDAR[3], f) by {
      assert GroupsWritten(CALENDAR, f, 3) == {} by { NoGroupBelow(f, 3); }
      assert GroupsWritten(CALENDAR, f, 5) == GroupsWritten(CALENDAR, f, 4);
    }
    assert GoodSlot(CALENDAR, 3, f[3]);
  }

  lemma {:induction false} NoGroupBelow(f: Fields, n: nat)
    requires n <= 3
    ensures GroupsWritten(CALENDAR, f, n) == {}
  {
    if n > 0 {
      NoGroupBelow(f, n - 1);
    }
  }

  lemma GoodKeys(f: Fields)
    requires GoodObject(CALENDAR, f)
    ensures f.Keys <= {0, 1, 2, 3}
  {
    hide GoodSlot, Satisfied, AtMostOne;
  }

  function LinkOf(v: Value): CalendarLink
    requires v.Sided? && v.inner.Octets? && IsImprint(v.inner.bytes)
  {
    CalendarLink(v.isLeft, v.inner.bytes)
  }

  /** The well-formed objects of the template are the calendar hash chains with a link. */
  lemma GoodIsCalendar(f: Fields) returns (c: CalendarHashChain)
    requires GoodObject(CALENDAR, f)
    ensures f == FieldsOf(c) && c.hashChain != []
  {
    GoodScalars(f);
    GoodLinks(f);
    GoodKeys(f);
    hide GoodValue, GoodObject;
    var values := f[3].values;
    forall k | 0 <= k < |values|
      ensures values[k].Sided? && values[k].inner.Octets? && IsImprint(values[k].inner.bytes)
    {
      GoodLink(values[k]);
    }
    var links := seq(|values|, k requires 0 <= k < |values| => LinkOf(values[k]));
    c := CalendarHashChain(f[0].value.n, if 1 in f then Some(f[1].value.n) else None, f[2].value.bytes, links);
    assert LinkValues(links) == values;
  }

  /** Every list of elements that is accepted gives a calendar hash chain with a link, whose links
      are the link elements in the order in which they arrived, left and right ones mixed. */
  lemma ExtractedIsCalendar(list: seq<Tlv>) returns (c: CalendarHashChain)
    requires AllFit(list) && Extract(CALENDAR, list).Ok?
    ensures Extract(CALENDAR, list) == Ok(FieldsOf(c)) && c.hashChain != []
    ensures LinkValues(c.hashChain) == LinksIn(list)
  {
    CalendarTemplate();
    ExtractedIsGood(CALENDAR, list);
    ExtractCollects(list);
    hide GoodTemplate, Closed, GoodObject, Extract;
    c := GoodIsCalendar(Extract(CALENDAR, list).value);
  }

  lemma ScalarsAreNoLinks(c: CalendarHashChain)
    ensures AllFit(Scalars(c)) && LinksIn(Scalars(c)) == []
  {
    MinSizeIsLength(c.publicationTime);
    if c.aggregationTime.Some? {
      MinSizeIsLength(c.aggregationTime.value);
    }
    var list := Scalars(c);
    forall t | t in list
      ensures Fits(t) && !IsLinkElement(t)
    {
    }
    NoLinkElements(list);
  }

  /** Without an element for a link, the group that the two link rows form is not served. */
  lemma NoLinksRefused(c: CalendarHashChain)
    requires c.hashChain == []
    ensures DeepCopy(CALENDAR, FieldsOf(c)).Err?
  {
    CalendarElements(c);
    ScalarsAreNoLinks(c);
    var list := Scalars(c);
    assert list + LinkElements([]) == list;
    hide Extract, Scalars, Construct;
    if Extract(CALENDAR, list).Ok? {
      var other := ExtractedIsCalendar(list);
    }
  }

  /** A chain that has a link is the same after its elements have been written, serialized, parsed
      and read; one without links can be written but is refused when it is read. */
  lemma CalendarRoundTrip(c: CalendarHashChain, nonCritical: bool, forward: bool)
    ensures if c.hashChain != [] then DeepCopy(CALENDAR, FieldsOf(c)) == Ok(FieldsOf(c)) else DeepCopy(CALENDAR, FieldsOf(c)).Err?
    ensures Write(CALENDAR, FieldsOf(c), 0x0802, nonCritical, forward).Ok?
    ensures c.hashChain != [] && |EncodeAll(Scalars(c) + LinkElements(c.hashChain))| <= MAX_PAYLOAD ==>
      Read(CALENDAR, Write(CALENDAR, FieldsOf(c), 0x0802, nonCritical, forward).value) == Ok(FieldsOf(c))
  {
    CalendarTemplate();
    CalendarElements(c);
    CalendarGood(c);
    if c.hashChain != [] {
      TemplateRoundTrip.RoundTrip(CALENDAR, FieldsOf(c));
      BytesRoundTrip(CALENDAR, FieldsOf(c), 0x0802, nonCritical, forward);
    } else {
      NoLinksRefused(c);
    }
  }

  lemma {:induction false} LinkElementAt(links: seq<CalendarLink>, i: nat)
    requires i < |links|
    ensures |LinkElements(links)| == |links|
    ensures LinkElements(links)[i] == Tlv(if links[i].isLeft then 0x07 else 0x08, false, false, Raw(links[i].imprint))
  {
    LinkElementsLength(links);
    if i > 0 {
      LinkElementAt(links[1..], i - 1);
    }
  }

  lemma {:induction false} LinkElementsLength(links: seq<CalendarLink>)
    ensures |LinkElements(links)| == |links|
  {
    if links != [] {
      LinkElementsLength(links[1..]);
    }
  }

  /** The elements of a chain with their tags: the publication time, the aggregation time if it is
      there, the input hash, and the links, left ones as 0x07 and right ones as 0x08. */
  lemma CalendarFormat(c: CalendarHashChain)
    ensures Construct(CALENDAR, FieldsOf(c)).Ok?
    ensures var list, n := Construct(CALENDAR, FieldsOf(c)).value, if c.aggregationTime.Some? then 3 else 2;
      && |list| == n + |c.hashChain|
      && list[0] == Tlv(0x01, false, false, Raw(IntBytes(c.publicationTime)))
      && (c.aggregationTime.Some? ==> list[1] == Tlv(0x02, false, false, Raw(IntBytes(c.aggregationTime.value))))
      && list[n - 1] == Tlv(0x05, false, false, Raw(c.inputHash))
      && forall i | n <= i < |list| :: var link := c.hashChain[i - n];
           list[i] == Tlv(if link.isLeft then 0x07 else 0x08, false, false, Raw(link.imprint))
  {
    CalendarElements(c);
    LinkElementsLength(c.hashChain);
    var n := |Scalars(c)|;
    var list := Scalars(c) + LinkElements(c.hashChain);
    hide Construct, FieldsOf, LinkElements, IntBytes;
    forall i | n <= i < |list|
      ensures var link := c.hashChain[i - n];
        list[i] == Tlv(if link.isLeft then 0x07 else 0x08, false, false, Raw(link.imprint))
    {
      LinkElementAt(c.hashChain, i - n);
    }
  }
}
