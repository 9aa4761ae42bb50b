/** How the fields of a signature follow from its elements, and what editing the elements does. */
module SignatureStream {
  import opened Common
  import opened Tlv
  import opened Template
  import opened TemplateSearch
  import TemplateRoundTrip

  const AGGREGATION_CHAIN: Tag := 0x0801
  const CALENDAR_CHAIN: Tag := 0x0802
  const PUBLICATION: Tag := 0x0803
  const AGGREGATION_AUTH: Tag := 0x0804
  const CALENDAR_AUTH: Tag := 0x0805

  /** The template of the source, whatever the templates of the five parts: aggregation chains and
      a calendar chain are mandatory, and there is a publication record or a calendar
      authentication record or neither. */
  predicate IsSignatureTemplate(tmpl: seq<Entry>) {
    && |tmpl| == 5
    && (forall i | 0 <= i < 5 :: tmpl[i].tag == 0x0801 + i && tmpl[i].field == i && tmpl[i].kind.Composite?)
    && (forall i | 0 <= i < 5 :: tmpl[i].isList == (i == 0) && tmpl[i].mandatory == (i <= 1))
    && (forall i | 0 <= i < 5 :: tmpl[i].least == {} && tmpl[i].most == if i == 2 || i == 4 then {0} else {})
    && (forall i | 0 <= i < 5 :: !tmpl[i].moreDefs && !tmpl[i].noSerialize && !tmpl[i].nonCritical && !tmpl[i].forward)
  }

  lemma {:induction false} RunIsFull(tmpl: seq<Entry>, list: seq<Tlv>, st: State)
    requires IsSignatureTemplate(tmpl)
    ensures Run(tmpl, 0, list, st) == FullRun(tmpl, list, st)
    decreases list
  {
    if list != [] && Step(tmpl, 0, list[0], st).Ok? {
      RunIsFull(tmpl, list[1..], Step(tmpl, 0, list[0], st).value);
    }
  }

  /** Extraction is the full search from an empty object. */
  lemma ExtractByRun(tmpl: seq<Entry>, list: seq<Tlv>)
    requires IsSignatureTemplate(tmpl)
    ensures Extract(tmpl, list).Ok? <==> FullRun(tmpl, list, START).Ok? && Complete(tmpl, FullRun(tmpl, list, START).value)
    ensures Extract(tmpl, list).Ok? ==> Extract(tmpl, list).value == FullRun(tmpl, list, START).value.fields
  {
    assert START.(fields := map[]) == START;
    RunIsFull(tmpl, list, START);
    assert Extract(tmpl, list) == ExtractInto(tmpl, list, map[]);
    hide Run, FullRun, Complete;
  }

  /** What a step does with an element, by its tag. */
  lemma StepByTag(tmpl: seq<Entry>, t: Tlv, st: State)
    requires IsSignatureTemplate(tmpl)
    ensures 0x0801 <= t.tag <= 0x0805 ==> Step(tmpl, 0, t, st) == Apply(tmpl, t.tag - 0x0801, t, st)
    ensures !(0x0801 <= t.tag <= 0x0805) ==> Step(tmpl, 0, t, st) == if t.nonCritical then Ok(st) else Err(InvalidFormat)
  {
    if 0x0801 <= t.tag <= 0x0805 {
      StepFinds(tmpl, 0, t.tag - 0x0801, t, st);
    } else {
      ScanNothing(tmpl, 0, t, st, false);
    }
  }

  // ---- replacing a value ---------------------------------------------------------------------

  function WithValue(st: State, f: nat, v: Value): State {
    st.(fields := st.fields[f := One(v)])
  }

  lemma StepOtherValue(tmpl: seq<Entry>, t: Tlv, st: State, f: nat, v: Value)
    requires IsSignatureTemplate(tmpl) && 1 <= f < 5 && f in st.fields && Step(tmpl, 0, t, st).Ok?
    ensures Step(tmpl, 0, t, WithValue(st, f, v)) == Ok(WithValue(Step(tmpl, 0, t, st).value, f, v))
    ensures f in Step(tmpl, 0, t, st).value.fields
  {
    var other := WithValue(st, f, v);
    StepByTag(tmpl, t, st);
    StepByTag(tmpl, t, other);
    if 0x0801 <= t.tag <= 0x0805 {
      var k := t.tag - 0x0801;
      assert k != f;
      var value := DecodeValue(tmpl[k], t).value;
      StoreOther(tmpl[k], st.fields, value, f, v);
      hide Store, DecodeValue, Step;
    }
  }

  lemma StoreOther(e: Entry, fields: Fields, value: Value, f: nat, v: Value)
    requires f in fields && e.field != f
    ensures Store(e, fields[f := One(v)], value) == Store(e, fields, value)[f := One(v)] && f in Store(e, fields, value)
  {
  }

  /** Later elements do not look at a single value that is there already. */
  lemma {:induction false} RunOtherValue(tmpl: seq<Entry>, list: seq<Tlv>, st: State, f: nat, v: Value)
    requires IsSignatureTemplate(tmpl) && 1 <= f < 5 && f in st.fields && FullRun(tmpl, list, st).Ok?
    ensures FullRun(tmpl, list, WithValue(st, f, v)) == Ok(WithValue(FullRun(tmpl, list, st).value, f, v))
    decreases list
  {
    hide Step, IsSignatureTemplate;
    if list != [] {
      StepOtherValue(tmpl, list[0], st, f, v);
      RunOtherValue(tmpl, list[1..], Step(tmpl, 0, list[0], st).value, f, v);
    }
  }

  lemma {:induction false} FullRunFront(tmpl: seq<Entry>, t: Tlv, rest: seq<Tlv>, st: State)
    ensures FullRun(tmpl, [t] + rest, st) ==
      match Step(tmpl, 0, t, st) { case Err(error) => Err(error) case Ok(next) => FullRun(tmpl, rest, next) }
  {
    assert ([t] + rest)[0] == t && ([t] + rest)[1..] == rest;
  }

  /** Replacing the element of a single row by another one changes that field and nothing else. */
  lemma ReplaceElement(tmpl: seq<Entry>, list: seq<Tlv>, i: nat, t: Tlv, v: Value)
    requires IsSignatureTemplate(tmpl) && i < |list| && Extract(tmpl, list).Ok?
    requires 0x0802 <= list[i].tag <= 0x0805 && t.tag == list[i].tag
    requires DecodeValue(tmpl[t.tag - 0x0801], t) == Ok(v)
    ensures Extract(tmpl, list[i := t]) == Ok(Extract(tmpl, list).value[t.tag - 0x0801 := One(v)])
  {
    var k := t.tag - 0x0801;
    var a, b := list[..i], list[i + 1..];
    assert list == a + ([list[i]] + b) && list[i := t] == a + ([t] + b);
    ExtractByRun(tmpl, list);
    ExtractByRun(tmpl, list[i := t]);
    hide Extract, Step, DecodeValue, FullRun, Run, IsSignatureTemplate;
    TemplateRoundTrip.FullRunConcat(tmpl, a, [list[i]] + b, START);
    TemplateRoundTrip.FullRunConcat(tmpl, a, [t] + b, START);
    var st := FullRun(tmpl, a, START).value;
    FullRunFront(tmpl, list[i], b, st);
    FullRunFront(tmpl, t, b, st);
    StepReplaced(tmpl, list[i], t, st, v);
    RunOtherValue(tmpl, b, Step(tmpl, 0, list[i], st).value, k, v);
  }

  lemma StepReplaced(tmpl: seq<Entry>, prev: Tlv, t: Tlv, st: State, v: Value)
    requires IsSignatureTemplate(tmpl) && 0x0802 <= prev.tag <= 0x0805 && t.tag == prev.tag
    requires Step(tmpl, 0, prev, st).Ok? && DecodeValue(tmpl[t.tag - 0x0801], t) == Ok(v)
    ensures t.tag - 0x0801 in Step(tmpl, 0, prev, st).value.fields
    ensures Step(tmpl, 0, t, st) == Ok(WithValue(Step(tmpl, 0, prev, st).value, t.tag - 0x0801, v))
  {
    StepByTag(tmpl, prev, st);
    StepByTag(tmpl, t, st);
    var k := t.tag - 0x0801;
    var was := DecodeValue(tmpl[k], prev).value;
    assert st.fields[k := One(was)][k := One(v)] == st.fields[k := One(v)];
  }

  /** The elements with the first one of the tag replaced. */
  function ReplacedFirst(list: seq<Tlv>, t: Tlv): seq<Tlv> {
    if list == [] then []
    else if list[0].tag == t.tag then [t] + list[1..]
    else [list[0]] + ReplacedFirst(list[1..], t)
  }

  lemma {:induction false} ReplacedFirstAt(list: seq<Tlv>, pos: nat, t: Tlv)
    requires pos < |list| && list[pos].tag == t.tag && forall i | 0 <= i < pos :: list[i].tag != t.tag
    ensures ReplacedFirst(list, t) == list[pos := t]
  {
    if pos > 0 {
      ReplacedFirstAt(list[1..], pos - 1, t);
      assert list[pos := t] == [list[0]] + list[1..][pos - 1 := t];
    } else {
      assert list[pos := t] == [t] + list[1..];
    }
  }

  lemma StepKeepsValue(tmpl: seq<Entry>, t: Tlv, st: State, f: nat)
    requires IsSignatureTemplate(tmpl) && 1 <= f < 5 && f in st.fields && Step(tmpl, 0, t, st).Ok?
    ensures var next := Step(tmpl, 0, t, st).value; f in next.fields && next.fields[f] == st.fields[f]
  {
    StepByTag(tmpl, t, st);
  }

  lemma {:induction false} RunKeepsValue(tmpl: seq<Entry>, list: seq<Tlv>, st: State, f: nat)
    requires IsSignatureTemplate(tmpl) && 1 <= f < 5 && f in st.fields && FullRun(tmpl, list, st).Ok?
    ensures var end := FullRun(tmpl, list, st).value; f in end.fields && end.fields[f] == st.fields[f]
    decreases list
  {
    hide Step, IsSignatureTemplate;
    if list != [] {
      StepKeepsValue(tmpl, list[0], st, f);
      RunKeepsValue(tmpl, list[1..], Step(tmpl, 0, list[0], st).value, f);
    }
  }

  /** The element of a single row is what its field holds in the end. */
  lemma ElementIsField(tmpl: seq<Entry>, list: seq<Tlv>, i: nat)
    requires IsSignatureTemplate(tmpl) && i < |list| && Extract(tmpl, list).Ok? && 0x0802 <= list[i].tag <= 0x0805
    ensures var k := list[i].tag - 0x0801;
      && k in Extract(tmpl, list).value && DecodeValue(tmpl[k], list[i]).Ok?
      && Extract(tmpl, list).value[k] == One(DecodeValue(tmpl[k], list[i]).value)
  {
    var a, t, b := list[..i], list[i], list[i + 1..];
    assert list == a + ([t] + b);
    ExtractByRun(tmpl, list);
    TemplateRoundTrip.FullRunConcat(tmpl, a, [t] + b, START);
    var st := FullRun(tmpl, a, START).value;
    FullRunFront(tmpl, t, b, st);
    StepByTag(tmpl, t, st);
    RunKeepsValue(tmpl, b, Step(tmpl, 0, t, st).value, t.tag - 0x0801);
  }

  /** Replacing an element makes the field the given value exactly if the element decodes to it. */
  lemma ReplaceExact(tmpl: seq<Entry>, list: seq<Tlv>, i: nat, t: Tlv, v: Value)
    requires IsSignatureTemplate(tmpl) && i < |list| && Extract(tmpl, list).Ok?
    requires 0x0802 <= list[i].tag <= 0x0805 && t.tag == list[i].tag
    ensures Extract(tmpl, list[i := t]) == Ok(Extract(tmpl, list).value[t.tag - 0x0801 := One(v)]) <==>
      DecodeValue(tmpl[t.tag - 0x0801], t) == Ok(v)
  {
    if DecodeValue(tmpl[t.tag - 0x0801], t) == Ok(v) {
      ReplaceElement(tmpl, list, i, t, v);
    } else if Extract(tmpl, list[i := t]).Ok? {
      ElementIsField(tmpl, list[i := t], i);
    }
    hide Extract, DecodeValue;
  }

  lemma {:induction false} NoElementNoField(tmpl: seq<Entry>, list: seq<Tlv>, st: State, k: nat)
    requires IsSignatureTemplate(tmpl) && k < 5 && FullRun(tmpl, list, st).Ok?
    requires forall i | 0 <= i < |list| :: list[i].tag != 0x0801 + k
    ensures k in FullRun(tmpl, list, st).value.fields <==> k in st.fields
    decreases list
  {
    if list != [] {
      StepByTag(tmpl, list[0], st);
      NoElementNoField(tmpl, list[1..], Step(tmpl, 0, list[0], st).value, k);
    }
  }

  /** A field that is set has an element. */
  lemma FieldHasElement(tmpl: seq<Entry>, list: seq<Tlv>, k: nat)
    requires IsSignatureTemplate(tmpl) && k < 5 && Extract(tmpl, list).Ok? && k in Extract(tmpl, list).value
    ensures exists i :: 0 <= i < |list| && list[i].tag == 0x0801 + k
  {
    ExtractByRun(tmpl, list);
    if forall i | 0 <= i < |list| :: list[i].tag != 0x0801 + k {
      NoElementNoField(tmpl, list, START, k);
    }
  }

  // ---- removing the publication and the authentication record --------------------------------

  predicate IsProof(t: Tlv) {
    t.tag == PUBLICATION || t.tag == CALENDAR_AUTH
  }

  /** The elements without publication records and calendar authentication records. */
  function WithoutProof(list: seq<Tlv>): seq<Tlv> {
    if list == [] then []
    else (if IsProof(list[0]) then [] else [list[0]]) + WithoutProof(list[1..])
  }

  function Unproven(st: State): State {
    State(st.fields - {2, 4}, st.hit - {2, 4}, st.groupHit, st.oneOf - {0})
  }

  lemma StepOfProof(tmpl: seq<Entry>, t: Tlv, st: State)
    requires IsSignatureTemplate(tmpl) && IsProof(t) && Step(tmpl, 0, t, st).Ok?
    ensures Unproven(Step(tmpl, 0, t, st).value) == Unproven(st)
  {
    StepByTag(tmpl, t, st);
  }

  lemma StepUnproven(tmpl: seq<Entry>, t: Tlv, st: State)
    requires IsSignatureTemplate(tmpl) && !IsProof(t) && Step(tmpl, 0, t, st).Ok?
    ensures Step(tmpl, 0, t, Unproven(st)) == Ok(Unproven(Step(tmpl, 0, t, st).value))
  {
    StepByTag(tmpl, t, st);
    StepByTag(tmpl, t, Unproven(st));
    if 0x0801 <= t.tag <= 0x0805 {
      var k := t.tag - 0x0801;
      var value := DecodeValue(tmpl[k], t).value;
      assert k != 2 && k != 4 && tmpl[k].most == {} && tmpl[k].least == {};
      StoreKept(tmpl[k], st.fields, value);
      assert (st.hit - {2, 4}) + {k} == (st.hit + {k}) - {2, 4};
      assert (st.oneOf - {0}) + {} == (st.oneOf + {}) - {0};
      hide Store, DecodeValue, Step;
    }
  }

  lemma StoreKept(e: Entry, fields: Fields, value: Value)
    requires e.field !in {2, 4}
    ensures Store(e, fields - {2, 4}, value) == Store(e, fields, value) - {2, 4}
  {
  }

  lemma {:induction false} RunUnproven(tmpl: seq<Entry>, list: seq<Tlv>, st: State)
    requires IsSignatureTemplate(tmpl) && FullRun(tmpl, list, st).Ok?
    ensures FullRun(tmpl, WithoutProof(list), Unproven(st)) == Ok(Unproven(FullRun(tmpl, list, st).value))
    decreases list
  {
    hide Step, IsSignatureTemplate, Unproven, IsProof;
    if list != [] {
      var t := list[0];
      RunUnproven(tmpl, list[1..], Step(tmpl, 0, t, st).value);
      if IsProof(t) {
        StepOfProof(tmpl, t, st);
        assert [] + WithoutProof(list[1..]) == WithoutProof(list[1..]);
      } else {
        StepUnproven(tmpl, t, st);
        FullRunFront(tmpl, t, WithoutProof(list[1..]), Unproven(st));
      }
    }
  }

  /** Filtering the elements removes the two fields and nothing else. */
  lemma RemoveProof(tmpl: seq<Entry>, list: seq<Tlv>)
    requires IsSignatureTemplate(tmpl) && Extract(tmpl, list).Ok?
    ensures Extract(tmpl, WithoutProof(list)) == Ok(Extract(tmpl, list).value - {2, 4})
  {
    var rest := WithoutProof(list);
    assert Unproven(START) == START;
    ExtractByRun(tmpl, list);
    ExtractByRun(tmpl, rest);
    RunUnproven(tmpl, list, START);
    UnprovenComplete(tmpl, FullRun(tmpl, list, START).value);
  }

  lemma UnprovenComplete(tmpl: seq<Entry>, st: State)
    requires IsSignatureTemplate(tmpl)
    ensures Complete(tmpl, st) ==> Complete(tmpl, Unproven(st))
  {
  }

  // ---- adding a publication record -----------------------------------------------------------

  /** Appending a publication record to elements without one, exactly. */
  lemma AppendExact(tmpl: seq<Entry>, list: seq<Tlv>, t: Tlv, v: Value)
    requires IsSignatureTemplate(tmpl) && Extract(tmpl, list).Ok? && t.tag == PUBLICATION
    ensures Extract(tmpl, WithoutProof(list)).Ok?
    ensures Extract(tmpl, WithoutProof(list) + [t]) == Ok(Extract(tmpl, WithoutProof(list)).value[2 := One(v)]) <==>
      DecodeValue(tmpl[2], t) == Ok(v)
  {
    var rest := WithoutProof(list);
    RemoveProof(tmpl, list);
    if DecodeValue(tmpl[2], t) == Ok(v) {
      AppendPublication(tmpl, list, t, v);
    } else if Extract(tmpl, rest + [t]).Ok? {
      ElementIsField(tmpl, rest + [t], |rest|);
    }
    hide Extract, DecodeValue;
  }

  lemma AppendPublication(tmpl: seq<Entry>, list: seq<Tlv>, t: Tlv, v: Value)
    requires IsSignatureTemplate(tmpl) && Extract(tmpl, list).Ok? && Extract(tmpl, WithoutProof(list)).Ok?
    requires t.tag == PUBLICATION && DecodeValue(tmpl[2], t) == Ok(v)
    ensures Extract(tmpl, WithoutProof(list) + [t]) == Ok(Extract(tmpl, WithoutProof(list)).value[2 := One(v)])
  {
    var rest := WithoutProof(list);
    assert Unproven(START) == START;
    ExtractByRun(tmpl, list);
    ExtractByRun(tmpl, rest);
    ExtractByRun(tmpl, rest + [t]);
    RunUnproven(tmpl, list, START);
    var st := FullRun(tmpl, rest, START).value;
    TemplateRoundTrip.FullRunConcat(tmpl, rest, [t], START);
    TemplateRoundTrip.FullRunOne(tmpl, t, st);
    StepByTag(tmpl, t, st);
    assert 0 !in st.oneOf && 2 !in st.fields;
    assert tmpl[2].most * st.oneOf == {};
  }

  // ---- what the edits leave alone ------------------------------------------------------------

  /** The aggregation chains among the elements, in order. */
  function ChainsOf(list: seq<Tlv>): seq<Tlv> {
    if list == [] then []
    else (if list[0].tag == AGGREGATION_CHAIN then [list[0]] else []) + ChainsOf(list[1..])
  }

  lemma {:induction false} ChainsConcat(a: seq<Tlv>, b: seq<Tlv>)
    ensures ChainsOf(a + b) == ChainsOf(a) + ChainsOf(b)
  {
    if a == [] {
      assert a + b == b;
    } else {
      assert (a + b)[1..] == a[1..] + b && (a + b)[0] == a[0];
      ChainsConcat(a[1..], b);
      var head := if a[0].tag == AGGREGATION_CHAIN then [a[0]] else [];
      assert ChainsOf(a) == head + ChainsOf(a[1..]);
      assert ChainsOf(a + b) == head + (ChainsOf(a[1..]) + ChainsOf(b));
      hide ChainsOf;
    }
  }

  lemma {:induction false} ChainsKept(list: seq<Tlv>)
    ensures ChainsOf(WithoutProof(list)) == ChainsOf(list)
  {
    if list != [] {
      ChainsKept(list[1..]);
      if !IsProof(list[0]) {
        assert WithoutProof(list) == [list[0]] + WithoutProof(list[1..]);
        assert WithoutProof(list)[1..] == WithoutProof(list[1..]);
      } else {
        assert WithoutProof(list) == WithoutProof(list[1..]);
      }
    }
  }

  lemma ChainsReplaced(list: seq<Tlv>, i: nat, t: Tlv)
    requires i < |list| && list[i].tag != AGGREGATION_CHAIN && t.tag != AGGREGATION_CHAIN
    ensures ChainsOf(list[i := t]) == ChainsOf(list)
  {
    assert list == list[..i] + ([list[i]] + list[i + 1..]);
    assert list[i := t] == list[..i] + ([t] + list[i + 1..]);
    ChainsConcat(list[..i], [list[i]] + list[i + 1..]);
    ChainsConcat(list[..i], [t] + list[i + 1..]);
    ChainsConcat([list[i]], list[i + 1..]);
    ChainsConcat([t], list[i + 1..]);
    assert ChainsOf([list[i]]) == ChainsOf([t]) == [];
  }
}
