/** A signature object and its base TLV, edited together while the signature is extended. */
module Signature {
  import opened ChainOrder
  import opened Common
  import opened Tlv
  import opened TlvSerializer
  import opened Template
  import opened TemplateSearch
  import opened SignatureStream
  import opened List

  /** The field of a calendar chain with its input hash. */
  const CALENDAR_INPUT: nat := 2

  function InputHash(chain: Fields): Option<Value> {
    if CALENDAR_INPUT in chain && chain[CALENDAR_INPUT].One? then Some(chain[CALENDAR_INPUT].value) else None
  }

  /** Why a calendar chain cannot take the place of the one that is there, if so. */
  function CalendarError(calendar: Option<Fields>, chain: Fields): Option<Error> {
    if calendar.None? || InputHash(chain).None? then Some(InvalidFormat)
    else if InputHash(calendar.value) != InputHash(chain) then Some(ExtendWrongCalChain)
    else None
  }

  predicate NoNull(nodes: seq<Node?>) {
    forall i | 0 <= i < |nodes| :: nodes[i] != null
  }

  function Views(nodes: seq<Node?>): (r: seq<Tlv>)
    requires NoNull(nodes)
    reads nodes
    ensures |r| == |nodes|
  {
    if nodes == [] then [] else [nodes[0].View()] + Views(nodes[1..])
  }

  lemma {:induction false} ViewAt(nodes: seq<Node?>, i: nat)
    requires NoNull(nodes) && i < |nodes|
    ensures Views(nodes)[i] == nodes[i].View()
  {
    if i > 0 {
      ViewAt(nodes[1..], i - 1);
    }
  }

  lemma {:induction false} ViewsConcat(a: seq<Node?>, b: seq<Node?>)
    requires NoNull(a) && NoNull(b)
    ensures NoNull(a + b) && Views(a + b) == Views(a) + Views(b)
  {
    if a == [] {
      assert a + b == b;
    } else {
      assert (a + b)[1..] == a[1..] + b;
      ViewsConcat(a[1..], b);
    }
  }

  predicate FirstAt(nodes: seq<Node?>, node: Node, i: int) {
    0 <= i < |nodes| && nodes[i] == node && node !in nodes[..i]
  }

  predicate IsProofNode(node: Node) {
    node.tag == PUBLICATION || node.tag == CALENDAR_AUTH
  }

  /** The nodes that stay when publication and authentication records are removed. */
  function KeptNodes(nodes: seq<Node?>): (r: seq<Node?>)
    requires NoNull(nodes)
    ensures NoNull(r)
  {
    if nodes == [] then []
    else (if IsProofNode(nodes[0]) then [] else [nodes[0]]) + KeptNodes(nodes[1..])
  }

  lemma {:induction false} KeptViews(nodes: seq<Node?>)
    requires NoNull(nodes)
    ensures Views(KeptNodes(nodes)) == WithoutProof(Views(nodes))
  {
    if nodes != [] {
      KeptViews(nodes[1..]);
      var rest := KeptNodes(nodes[1..]);
      assert Views(nodes)[1..] == Views(nodes[1..]);
      if !IsProofNode(nodes[0]) {
        assert ([nodes[0]] + rest)[1..] == rest;
      } else {
        assert [] + rest == rest;
      }
    }
  }

  lemma {:induction false} ViewsReplaced(nodes: seq<Node?>, i: nat, node: Node)
    requires NoNull(nodes) && i < |nodes|
    ensures NoNull(nodes[i := node]) && Views(nodes[i := node]) == Views(nodes)[i := node.View()]
  {
    var r := nodes[i := node];
    if i == 0 {
      assert r[1..] == nodes[1..];
    } else {
      assert r[1..] == nodes[1..][i - 1 := node];
      ViewsReplaced(nodes[1..], i - 1, node);
    }
  }

  lemma ViewsReplacedFirst(nodes: seq<Node?>, pos: nat, node: Node)
    requires NoNull(nodes) && pos < |nodes| && nodes[pos].tag == node.tag && forall i | 0 <= i < pos :: nodes[i].tag != node.tag
    ensures ReplacedFirst(Views(nodes), node.View()) == Views(nodes)[pos := node.View()]
  {
    forall i | 0 <= i <= pos
      ensures Views(nodes)[i].tag == nodes[i].tag
    {
      ViewAt(nodes, i);
    }
    ReplacedFirstAt(Views(nodes), pos, node.View());
  }

  /** The first node with a tag is found again by its identity. */
  lemma FirstWithTag(nodes: seq<Node?>, pos: nat, i: int)
    requires NoNull(nodes) && pos < |nodes| && FirstAt(nodes, nodes[pos], i)
    requires forall k | 0 <= k < pos :: nodes[k].tag != nodes[pos].tag
    ensures i == pos
  {
  }

  /** Some node has the tag of a field that is set. */
  lemma TagIsThere(tmpl: seq<Entry>, nodes: seq<Node?>, k: nat)
    requires IsSignatureTemplate(tmpl) && NoNull(nodes) && k < 5
    requires Extract(tmpl, Views(nodes)).Ok? && k in Extract(tmpl, Views(nodes)).value
    ensures exists i :: 0 <= i < |nodes| && nodes[i].tag == 0x0801 + k
  {
    FieldHasElement(tmpl, Views(nodes), k);
    var i :| 0 <= i < |nodes| && Views(nodes)[i].tag == 0x0801 + k;
    ViewAt(nodes, i);
  }

  /** What replacing the node of the calendar chain does to the fields. */
  lemma CalendarReplaced(tmpl: seq<Entry>, nodes: seq<Node?>, pos: nat, node: Node, chain: Fields, list: seq<Tlv>)
    requires IsSignatureTemplate(tmpl) && NoNull(nodes) && pos < |nodes| && nodes[pos].tag == CALENDAR_CHAIN
    requires forall i | 0 <= i < pos :: nodes[i].tag != CALENDAR_CHAIN
    requires Extract(tmpl, Views(nodes)).Ok?
    requires node.View() == Tlv(CALENDAR_CHAIN, false, false, Nested(list)) && Construct(tmpl[1].kind.sub, chain) == Ok(list)
    ensures NoNull(nodes[pos := node]) && Views(nodes[pos := node]) == ReplacedFirst(Views(nodes), node.View())
    ensures ChainsOf(Views(nodes[pos := node])) == ChainsOf(Views(nodes))
    ensures Extract(tmpl, Views(nodes[pos := node])) == Ok(Extract(tmpl, Views(nodes)).value[1 := One(Object(chain))]) <==>
      DeepCopy(tmpl[1].kind.sub, chain) == Ok(chain)
  {
    var t, sub := node.View(), tmpl[1].kind.sub;
    ViewsReplaced(nodes, pos, node);
    ViewsReplacedFirst(nodes, pos, node);
    ViewAt(nodes, pos);
    ChainsReplaced(Views(nodes), pos, t);
    ReplaceExact(tmpl, Views(nodes), pos, t, Object(chain));
    assert CastToNested(t) == Ok(t);
    assert ExtractTlv(sub, t) == Extract(sub, list);
    assert DecodeValue(tmpl[1], t) == Ok(Object(chain)) <==> Extract(sub, list) == Ok(chain);
  }

  lemma CalendarTogether(chains: Option<seq<Value>>, calendar: Fields, publication: Option<Fields>,
                         aggregationAuth: Option<Fields>, calendarAuth: Option<Fields>, chain: Fields)
    ensures Together(chains, Some(chain), publication, aggregationAuth, calendarAuth) ==
      Together(chains, Some(calendar), publication, aggregationAuth, calendarAuth)[1 := One(Object(chain))]
    ensures 1 in Together(chains, Some(calendar), publication, aggregationAuth, calendarAuth)
  {
  }

  lemma ProofTogether(chains: Option<seq<Value>>, calendar: Option<Fields>, publication: Option<Fields>,
                      aggregationAuth: Option<Fields>, calendarAuth: Option<Fields>)
    ensures Together(chains, calendar, None, aggregationAuth, None) ==
      Together(chains, calendar, publication, aggregationAuth, calendarAuth) - {2, 4}
  {
    forall f: nat
      ensures SlotOf(chains, calendar, None, aggregationAuth, None, f) ==
        if f == 2 || f == 4 then None else SlotOf(chains, calendar, publication, aggregationAuth, calendarAuth, f)
    {
      hide Together;
    }
    hide SlotOf, Single;
  }

  lemma RecordTogether(chains: Option<seq<Value>>, calendar: Option<Fields>, aggregationAuth: Option<Fields>, record: Fields)
    ensures Together(chains, calendar, Some(record), aggregationAuth, None) ==
      Together(chains, calendar, None, aggregationAuth, None)[2 := One(Object(record))]
  {
    forall f: nat
      ensures SlotOf(chains, calendar, Some(record), aggregationAuth, None, f) ==
        if f == 2 then Some(One(Object(record))) else SlotOf(chains, calendar, None, aggregationAuth, None, f)
    {
    }
    hide SlotOf;
  }

  /** What removing the nodes does to the elements and the fields. */
  lemma ProofRemoved(tmpl: seq<Entry>, nodes: seq<Node?>)
    requires IsSignatureTemplate(tmpl) && NoNull(nodes)
    ensures var kept := Views(KeptNodes(nodes));
      && kept == WithoutProof(Views(nodes)) && ChainsOf(kept) == ChainsOf(Views(nodes))
      && (Extract(tmpl, Views(nodes)).Ok? ==> Extract(tmpl, kept) == Ok(Extract(tmpl, Views(nodes)).value - {2, 4}))
  {
    KeptViews(nodes);
    ChainsKept(Views(nodes));
    if Extract(tmpl, Views(nodes)).Ok? {
      RemoveProof(tmpl, Views(nodes));
    }
  }

  /** What appending the node of a publication record does then. */
  lemma PublicationAppended(tmpl: seq<Entry>, nodes: seq<Node?>, node: Node, record: Fields, list: seq<Tlv>)
    requires IsSignatureTemplate(tmpl) && NoNull(nodes)
    requires node.View() == Tlv(PUBLICATION, false, false, Nested(list)) && Construct(tmpl[2].kind.sub, record) == Ok(list)
    ensures NoNull(KeptNodes(nodes) + [node])
    ensures var views := Views(KeptNodes(nodes) + [node]);
      && views == WithoutProof(Views(nodes)) + [node.View()] && ChainsOf(views) == ChainsOf(Views(nodes))
      && (Extract(tmpl, Views(nodes)).Ok? ==>
            (Extract(tmpl, views) == Ok((Extract(tmpl, Views(nodes)).value - {2, 4})[2 := One(Object(record))]) <==>
             DeepCopy(tmpl[2].kind.sub, record) == Ok(record)))
  {
    var t, sub := node.View(), tmpl[2].kind.sub;
    ProofRemoved(tmpl, nodes);
    ViewsConcat(KeptNodes(nodes), [node]);
    assert Views([node]) == [t];
    ChainsConcat(Views(KeptNodes(nodes)), [t]);
    assert ChainsOf([t]) == [];
    assert CastToNested(t) == Ok(t);
    assert ExtractTlv(sub, t) == Extract(sub, list);
    assert DecodeValue(tmpl[2], t) == Ok(Object(record)) <==> Extract(sub, list) == Ok(record);
    if Extract(tmpl, Views(nodes)).Ok? {
      AppendExact(tmpl, Views(nodes), t, Object(record));
    }
    hide Extract, DecodeValue, ChainsOf, WithoutProof;
  }

  /** No node with the tag of a publication record is kept. */
  lemma {:induction false} NoneKept(nodes: seq<Node?>)
    requires NoNull(nodes)
    ensures forall i | 0 <= i < |KeptNodes(nodes)| :: KeptNodes(nodes)[i].tag != PUBLICATION
  {
    if nodes != [] {
      NoneKept(nodes[1..]);
    }
  }

  lemma NothingToKeep()
    ensures KeptNodes([]) == []
  {
  }

  /** One step of the backward loop that removes nodes. */
  lemma KeptStep(nodes: seq<Node?>, i: nat)
    requires NoNull(nodes) && i < |nodes|
    ensures var now := nodes[..i + 1] + KeptNodes(nodes[i + 1..]);
      && now[i] == nodes[i]
      && nodes[..i] + KeptNodes(nodes[i..]) == if IsProofNode(nodes[i]) then now[..i] + now[i + 1..] else now
  {
    assert nodes[i..][1..] == nodes[i + 1..] && nodes[i..][0] == nodes[i];
  }

  /** The aggregation chains are kept sorted; `arrival` has them in the order of their elements. */
  class Signature {
    const tmpl: seq<Entry>
    const nested: List<Node?>
    ghost var arrival: Option<seq<Value>>
    var aggregationChainList: Option<seq<Value>>
    var calendarChain: Option<Fields>
    var publication: Option<Fields>
    var aggregationAuthRec: Option<Fields>
    var calendarAuthRec: Option<Fields>

    ghost predicate Valid()
      reads this, nested, nested.arr
    {
      IsSignatureTemplate(tmpl) && nested.Valid() && NoNull(nested.Contents()) && SortedAs(arrival, aggregationChainList)
    }

    /** The elements of the base TLV. */
    function Elements(): seq<Tlv>
      reads this, nested, nested.arr, nested.arr[..]
      requires Valid()
    {
      Views(nested.Contents())
    }

    /** The decoded fields as the template sees them, before the chains are sorted. */
    ghost function Decoded(): Fields
      reads this
    {
      Together(arrival, calendarChain, publication, aggregationAuthRec, calendarAuthRec)
    }

    /** The base TLV and the decoded fields say the same. */
    ghost predicate Agrees()
      reads this, nested, nested.arr, nested.arr[..]
    {
      Valid() && Extract(tmpl, Elements()) == Ok(Decoded())
    }

    /** From the extracted fields. The library's sort may leave chains of equal index length in
        any order, so that its result is a parameter. */
    constructor (tmpl: seq<Entry>, fields: Fields, sorted: Option<seq<Value>>, list: List<Node?>)
      requires IsSignatureTemplate(tmpl) && list.Valid() && NoNull(list.Contents())
      requires SortedAs(Chains(fields), sorted)
      ensures Valid() && this.tmpl == tmpl && nested == list
      ensures arrival == Chains(fields) && aggregationChainList == sorted
      ensures WellTyped(fields) ==> Decoded() == fields
      ensures Extract(tmpl, Views(list.Contents())) == Ok(fields) ==> Decoded() == fields && Agrees()
    {
      this.tmpl, nested := tmpl, list;
      arrival, aggregationChainList := Chains(fields), sorted;
      calendarChain := Part(fields, 1);
      publication := Part(fields, 2);
      aggregationAuthRec := Part(fields, 3);
      calendarAuthRec := Part(fields, 4);
      new;
      hide Together, Part, Chains, WellTyped, Extract, Views, IsSignatureTemplate;
      if Extract(tmpl, Views(list.Contents())) == Ok(fields) {
        AcceptedIsWellTyped(tmpl, Views(list.Contents()));
      }
      if WellTyped(fields) {
        PartsTogether(fields);
      }
    }

    /** The position of the first element with the tag, or of the last element if there is none;
        the source then goes on with that one. */
    method FindElement(tag: Tag) returns (pos: Option<nat>)
      requires Valid()
      ensures pos == None <==> nested.Contents() == []
      ensures pos.Some? ==> pos.value < |nested.Contents()|
      ensures pos.Some? ==> forall i | 0 <= i < pos.value :: nested.Contents()[i].tag != tag
      ensures pos.Some? && nested.Contents()[pos.value].tag != tag ==> pos.value == |nested.Contents()| - 1
    {
      pos := None;
      var i := 0;
      while i < nested.arrLen
        invariant 0 <= i <= nested.arrLen
        invariant pos == if i == 0 then None else Some(i - 1)
        invariant forall k | 0 <= k < i :: nested.Contents()[k].tag != tag
      {
        var node := nested.ElementAt(i);
        pos := Some(i);
        if node.value.tag == tag {
          break;
        }
        i := i + 1;
      }
    }

    /** Puts an element in the place of the old one, which is found by its identity. */
    method ReplaceNestedTlv(oldTlv: Node, newTlv: Node) returns (res: Result<()>)
      requires Valid()
      modifies nested.arr
      ensures Valid()
      ensures oldTlv !in old(nested.Contents()) ==> res == Err(InvalidArgument) && nested.Contents() == old(nested.Contents())
      ensures oldTlv in old(nested.Contents()) ==> res == Ok(())
      ensures res.Ok? ==> exists i :: FirstAt(old(nested.Contents()), oldTlv, i)
                                && nested.Contents() == old(nested.Contents())[i := newTlv]
    {
      var pos := nested.IndexOf(oldTlv);
      if pos == None {
        return Err(InvalidArgument);
      }
      assert FirstAt(nested.Contents(), oldTlv, pos.value);
      res := nested.ReplaceAt(pos.value, newTlv);
    }

    /** Finds the first element with the tag and puts the new one in its place. */
    method ReplaceFirst(tag: Tag, newTlv: Node) returns (ghost pos: nat)
      requires Valid() && exists i :: 0 <= i < |nested.Contents()| && nested.Contents()[i].tag == tag
      modifies nested.arr
      ensures Valid() && pos < |old(nested.Contents())| && old(nested.Contents())[pos].tag == tag
      ensures forall i | 0 <= i < pos :: old(nested.Contents())[i].tag != tag
      ensures nested.Contents() == old(nested.Contents())[pos := newTlv]
    {
      hide IsSignatureTemplate;
      ghost var nodes := nested.Contents();
      var found := FindElement(tag);
      var oldTlv := nested.ElementAt(found.value);
      var res := ReplaceNestedTlv(oldTlv.value, newTlv);
      pos := found.value;
      ghost var i :| FirstAt(nodes, oldTlv.value, i) && nested.Contents() == nodes[i := newTlv];
      FirstWithTag(nodes, pos, i);
    }

    /** Loops backwards, so that removing an element does not move those still to be seen. */
    method RemoveCalAuthAndPublication()
      requires Valid()
      modifies this`calendarAuthRec, this`publication, nested`arrLen, nested.arr
      ensures Valid() && nested.Contents() == KeptNodes(old(nested.Contents()))
      ensures calendarAuthRec == None && publication == None
    {
      hide KeptNodes, IsSignatureTemplate;
      NothingToKeep();
      ghost var was := nested.Contents();
      var i := nested.arrLen - 1;
      assert was[..i + 1] == was && was[i + 1..] == [];
      while i >= 0
        invariant -1 <= i < |was|
        invariant nested.Valid() && nested.arr == old(nested.arr)
        invariant nested.Contents() == was[..i + 1] + KeptNodes(was[i + 1..])
      {
        var node := nested.ElementAt(i);
        KeptStep(was, i);
        if node.value.tag == PUBLICATION || node.value.tag == CALENDAR_AUTH {
          var removed := nested.Remove(i);
        }
        i := i - 1;
      }
      assert was[..0] == [] && was[0..] == was;
      calendarAuthRec := None;
      publication := None;
    }

    /** The template of the calendar chain, and of the publication record. */
    function PartTemplate(i: nat): seq<Entry>
      requires IsSignatureTemplate(tmpl) && i < 5
    {
      tmpl[i].kind.sub
    }

    /** Puts the element of a calendar chain in the place of the first one. */
    method ReplaceCalendarElement(chain: Fields, list: seq<Tlv>)
      requires Valid() && Extract(tmpl, Elements()).Ok? && 1 in Extract(tmpl, Elements()).value
      requires Construct(PartTemplate(1), chain) == Ok(list)
      modifies nested.arr
      ensures Valid() && Elements() == ReplacedFirst(old(Elements()), Tlv(0x0802, false, false, Nested(list)))
      ensures ChainsOf(Elements()) == ChainsOf(old(Elements()))
      ensures Extract(tmpl, Elements()) == Ok(Extract(tmpl, old(Elements())).value[1 := One(Object(chain))]) <==>
        DeepCopy(PartTemplate(1), chain) == Ok(chain)
    {
      hide Extract, Construct, DeepCopy, Views, ChainsOf, IsSignatureTemplate, ReplacedFirst, SortedAs;
      ghost var nodes := nested.Contents();
      TagIsThere(tmpl, nodes, 1);
      var newCalChainTlv := new Node(Tlv(CALENDAR_CHAIN, false, false, Nested(list)));
      ghost var pos := ReplaceFirst(CALENDAR_CHAIN, newCalChainTlv);
      CalendarReplaced(tmpl, nodes, pos, newCalChainTlv, chain, list);
    }

    /** Replaces the calendar chain by one with the same input hash, in the base TLV and as a
        field. The two still agree exactly if the new chain survives construction and extraction;
        after an error nothing has changed. */
    method ReplaceCalendarChain(chain: Fields) returns (res: Result<()>)
      requires Agrees()
      modifies this`calendarChain, nested.arr
      ensures Valid() && (res.Err? ==> Agrees() && Decoded() == old(Decoded()) && Elements() == old(Elements()))
      ensures res == match CalendarError(old(calendarChain), chain)
        case Some(error) => Err(error)
        case None => if Construct(PartTemplate(1), chain).Ok? then Ok(()) else Err(Construct(PartTemplate(1), chain).error)
      ensures res.Ok? ==> Decoded() == old(Decoded())[1 := One(Object(chain))]
      ensures res.Ok? ==>
        && Construct(PartTemplate(1), chain).Ok?
        && Elements() == ReplacedFirst(old(Elements()), Tlv(0x0802, false, false, Nested(Construct(PartTemplate(1), chain).value)))
      ensures ChainsOf(Elements()) == old(ChainsOf(Elements()))
      ensures res.Ok? ==> (DeepCopy(PartTemplate(1), chain) == Ok(chain) <==> Agrees())
    {
      if calendarChain == None {
        return Err(InvalidFormat);
      }
      if InputHash(chain) == None {
        return Err(InvalidFormat);
      }
      if InputHash(calendarChain.value) != InputHash(chain) {
        return Err(ExtendWrongCalChain);
      }
      assert CalendarError(calendarChain, chain) == None;
      hide Together, Extract, Construct, DeepCopy, Views, ChainsOf, IsSignatureTemplate, InputHash, ReplacedFirst,
        CalendarError, SortedAs;
      CalendarTogether(arrival, calendarChain.value, publication, aggregationAuthRec, calendarAuthRec, chain);
      var list := ConstructTlv(PartTemplate(1), chain);
      if list.Err? {
        return Err(list.error);
      }
      ReplaceCalendarElement(chain, list.value);
      calendarChain := Some(chain);
      return Ok(());
    }

    /** Puts a publication record behind the elements that are kept. No record is left that it
        could replace. */
    method AddPublication(newPubTlv: Node, ghost nodes: seq<Node?>)
      requires Valid() && NoNull(nodes) && nested.Contents() == KeptNodes(nodes)
      modifies nested, nested.arr
      ensures Valid() && nested.Contents() == KeptNodes(nodes) + [newPubTlv]
      ensures nested.arr == old(nested.arr) || fresh(nested.arr)
    {
      hide IsSignatureTemplate;
      NoneKept(nodes);
      var pos := FindElement(PUBLICATION);
      var found := false;
      if pos.Some? {
        var node := nested.ElementAt(pos.value);
        found := node.value.tag == PUBLICATION;
      }
      assert !found;
      nested.Append(newPubTlv);
    }

    /** Removes whatever proves the calendar chain and adds the given publication record. A record
        that cannot be written leaves a signature without any, which still agrees. */
    method ReplacePublicationRecord(pubRec: Option<Fields>) returns (res: Result<()>)
      requires Agrees()
      modifies this`calendarAuthRec, this`publication, nested, nested.arr
      ensures Valid() && (nested.arr == old(nested.arr) || fresh(nested.arr))
      ensures pubRec == None ==> res == Ok(()) && Agrees() && Decoded() == old(Decoded()) && Elements() == old(Elements())
      ensures pubRec.Some? && res.Err? ==>
        && Construct(PartTemplate(2), pubRec.value) == Err(res.error)
        && Agrees() && Decoded() == old(Decoded()) - {2, 4} && Elements() == WithoutProof(old(Elements()))
      ensures pubRec.Some? && res.Ok? ==>
        && Decoded() == (old(Decoded()) - {2, 4})[2 := One(Object(pubRec.value))]
        && Construct(PartTemplate(2), pubRec.value).Ok?
        && Elements() == WithoutProof(old(Elements())) + [Tlv(0x0803, false, false, Nested(Construct(PartTemplate(2), pubRec.value).value))]
        && (DeepCopy(PartTemplate(2), pubRec.value) == Ok(pubRec.value) <==> Agrees())
      ensures ChainsOf(Elements()) == old(ChainsOf(Elements()))
    {
      hide Together, Extract, Construct, DeepCopy, Views, ChainsOf, IsSignatureTemplate, KeptNodes, WithoutProof;
      if pubRec == None {
        return Ok(());
      }
      ghost var nodes := nested.Contents();
      ProofTogether(arrival, calendarChain, publication, aggregationAuthRec, calendarAuthRec);
      RecordTogether(arrival, calendarChain, aggregationAuthRec, pubRec.value);
      RemoveCalAuthAndPublication();
      assert Views(nodes) == old(Views(nested.Contents()));
      ProofRemoved(tmpl, nodes);
      var list := ConstructTlv(PartTemplate(2), pubRec.value);
      if list.Err? {
        return Err(list.error);
      }
      var newPubTlv := new Node(Tlv(PUBLICATION, false, false, Nested(list.value)));
      AddPublication(newPubTlv, nodes);
      PublicationAppended(tmpl, nodes, newPubTlv, pubRec.value, list.value);
      publication := pubRec;
      return Ok(());
    }
  }

  /** The slot of field f, given the five parts. */
  function SlotOf(chains: Option<seq<Value>>, calendar: Option<Fields>, publication: Option<Fields>,
                  aggregationAuth: Option<Fields>, calendarAuth: Option<Fields>, f: nat): Option<Slot> {
    if f == 0 then (if chains.Some? then Some(Many(chains.value)) else None)
    else if f == 1 then Single(calendar)
    else if f == 2 then Single(publication)
    else if f == 3 then Single(aggregationAuth)
    else if f == 4 then Single(calendarAuth)
    else None
  }

  function Single(part: Option<Fields>): Option<Slot> {
    if part.Some? then Some(One(Object(part.value))) else None
  }

  function Together(chains: Option<seq<Value>>, calendar: Option<Fields>, publication: Option<Fields>,
                    aggregationAuth: Option<Fields>, calendarAuth: Option<Fields>): Fields {
    map f: nat | f < 5 && SlotOf(chains, calendar, publication, aggregationAuth, calendarAuth, f).Some? ::
      SlotOf(chains, calendar, publication, aggregationAuth, calendarAuth, f).value
  }

  lemma PartsTogether(fields: Fields)
    requires WellTyped(fields)
    ensures Together(Chains(fields),
                     Part(fields, 1), Part(fields, 2), Part(fields, 3), Part(fields, 4)) == fields
  {
    forall f: nat
      ensures SlotOf(Chains(fields),
                     Part(fields, 1), Part(fields, 2), Part(fields, 3), Part(fields, 4), f) ==
        if f in fields then Some(fields[f]) else None
    {
      if f in fields && f > 0 {
        assert fields[f] == One(Object(fields[f].value.fields));
      }
    }
    hide SlotOf, Part, WellTyped;
  }

  function Chains(fields: Fields): Option<seq<Value>> {
    if 0 in fields && fields[0].Many? then Some(fields[0].values) else None
  }

  function Part(fields: Fields, f: nat): Option<Fields> {
    if f in fields && fields[f].One? && fields[f].value.Object? then Some(fields[f].value.fields) else None
  }

  predicate WellTyped(fields: Fields) {
    && (forall f <- fields :: f < 5)
    && (0 in fields ==> fields[0].Many?)
    && (forall f <- fields :: f != 0 ==> fields[f].One? && fields[f].value.Object?)
  }

  lemma StepIsWellTyped(tmpl: seq<Entry>, t: Tlv, st: State)
    requires IsSignatureTemplate(tmpl) && WellTyped(st.fields) && Step(tmpl, 0, t, st).Ok?
    ensures WellTyped(Step(tmpl, 0, t, st).value.fields)
  {
    StepByTag(tmpl, t, st);
    hide Step, Scan;
  }

  lemma {:induction false} RunIsWellTyped(tmpl: seq<Entry>, list: seq<Tlv>, st: State)
    requires IsSignatureTemplate(tmpl) && WellTyped(st.fields) && FullRun(tmpl, list, st).Ok?
    ensures WellTyped(FullRun(tmpl, list, st).value.fields)
    decreases list
  {
    hide Step, IsSignatureTemplate, WellTyped;
    if list != [] {
      StepIsWellTyped(tmpl, list[0], st);
      RunIsWellTyped(tmpl, list[1..], Step(tmpl, 0, list[0], st).value);
    }
  }

  /** Elements that the template accepts give chains in a list and the other parts alone. */
  lemma AcceptedIsWellTyped(tmpl: seq<Entry>, list: seq<Tlv>)
    requires IsSignatureTemplate(tmpl) && Extract(tmpl, list).Ok?
    ensures WellTyped(Extract(tmpl, list).value)
  {
    ExtractByRun(tmpl, list);
    RunIsWellTyped(tmpl, list, START);
  }
}
