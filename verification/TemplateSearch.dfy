/** The search that skips finished rows at the start of a template against the full search. */
module TemplateSearch {
  import opened Common
  import opened Tlv
  import opened Template

  predicate DistinctTags(tmpl: seq<Entry>) {
    forall i, j | 0 <= i < j < |tmpl| :: tmpl[i].tag != tmpl[j].tag
  }

  /** The loop over all elements with every search starting at the first row. */
  function FullRun(tmpl: seq<Entry>, list: seq<Tlv>, st: State): Result<State> {
    if list == [] then Ok(st)
    else
      match Step(tmpl, 0, list[0], st)
      case Err(error) => Err(error)
      case Ok(next) => FullRun(tmpl, list[1..], next)
  }

  function FullExtract(tmpl: seq<Entry>, list: seq<Tlv>, fields: Fields): Result<Fields> {
    if !GoodSize(tmpl) then Err(InvalidArgument)
    else match FullRun(tmpl, list, START.(fields := fields))
      case Err(error) => Err(error)
      case Ok(st) => if Complete(tmpl, st) then Ok(st.fields) else Err(InvalidFormat)
  }

  /** The rows that the search skips have had their only value. */
  predicate Skipped(tmpl: seq<Entry>, start: nat, st: State) {
    start <= |tmpl| && forall j | 0 <= j < start :: !tmpl[j].isList && tmpl[j].field in st.fields
  }

  lemma {:induction false} ScanNothing(tmpl: seq<Entry>, i: nat, t: Tlv, st: State, matched: bool)
    requires i <= |tmpl| && forall j | i <= j < |tmpl| :: tmpl[j].tag != t.tag
    ensures Scan(tmpl, i, t, st, matched) == Ok((st, matched))
    decreases |tmpl| - i
  {
    if i < |tmpl| {
      ScanNothing(tmpl, i + 1, t, st, matched);
    }
  }

  /** With distinct tags the search finds the one row with the tag of the element. */
  lemma {:induction false} ScanFinds(tmpl: seq<Entry>, i: nat, k: nat, t: Tlv, st: State)
    requires i <= k < |tmpl| && DistinctTags(tmpl) && tmpl[k].tag == t.tag
    ensures Scan(tmpl, i, t, st, false) ==
      match Apply(tmpl, k, t, st) { case Err(error) => Err(error) case Ok(next) => Ok((next, true)) }
    decreases k - i
  {
    if i < k {
      ScanFinds(tmpl, i + 1, k, t, st);
    } else if Apply(tmpl, k, t, st).Ok? {
      ScanNothing(tmpl, k + 1, t, Apply(tmpl, k, t, st).value, true);
    }
  }

  lemma StepFinds(tmpl: seq<Entry>, start: nat, k: nat, t: Tlv, st: State)
    requires start <= k < |tmpl| && DistinctTags(tmpl) && tmpl[k].tag == t.tag
    ensures Step(tmpl, start, t, st) == Apply(tmpl, k, t, st)
  {
    ScanFinds(tmpl, start, k, t, st);
  }

  lemma NextStartWithDistinctTags(tmpl: seq<Entry>, start: nat, t: Tlv)
    requires start <= |tmpl| && DistinctTags(tmpl)
    ensures NextStart(tmpl, start, t) ==
      if start < |tmpl| && tmpl[start].tag == t.tag && !tmpl[start].isList then start + 1 else start
  {
  }

  /** An element for a skipped row: the full search refuses it; the skipping search refuses it
      only if it is critical, and otherwise passes over it. */
  lemma SkippedElement(tmpl: seq<Entry>, start: nat, j: nat, t: Tlv, st: State)
    requires DistinctTags(tmpl) && Skipped(tmpl, start, st) && j < start && tmpl[j].tag == t.tag
    ensures Step(tmpl, 0, t, st) == Err(InvalidFormat)
    ensures Step(tmpl, start, t, st) == if t.nonCritical then Ok(st) else Err(InvalidFormat)
  {
    StepFinds(tmpl, 0, j, t, st);
    ScanNothing(tmpl, start, t, st, false);
  }

  /** One element, exactly: the two searches agree unless a non-critical element repeats the tag
      of a skipped row. */
  lemma StepAgreement(tmpl: seq<Entry>, start: nat, t: Tlv, st: State)
    requires DistinctTags(tmpl) && Skipped(tmpl, start, st)
    ensures Step(tmpl, start, t, st) == Step(tmpl, 0, t, st) <==>
      !(t.nonCritical && exists j | 0 <= j < start :: tmpl[j].tag == t.tag)
  {
    if j :| 0 <= j < start && tmpl[j].tag == t.tag {
      SkippedElement(tmpl, start, j, t, st);
    } else if k :| start <= k < |tmpl| && tmpl[k].tag == t.tag {
      StepFinds(tmpl, 0, k, t, st);
      StepFinds(tmpl, start, k, t, st);
    } else {
      ScanNothing(tmpl, 0, t, st, false);
      ScanNothing(tmpl, start, t, st, false);
    }
  }

  /** Extraction only ever adds fields, so a row that is skipped stays rightly skipped. */
  lemma StepKeepsSkipped(tmpl: seq<Entry>, start: nat, t: Tlv, st: State)
    requires DistinctTags(tmpl) && Skipped(tmpl, start, st) && Step(tmpl, start, t, st).Ok?
    ensures Skipped(tmpl, NextStart(tmpl, start, t), Step(tmpl, start, t, st).value)
  {
    NextStartWithDistinctTags(tmpl, start, t);
    if k :| start <= k < |tmpl| && tmpl[k].tag == t.tag {
      StepFinds(tmpl, start, k, t, st);
    } else {
      ScanNothing(tmpl, start, t, st, false);
    }
  }

  lemma {:induction false} RunAgreement(tmpl: seq<Entry>, start: nat, list: seq<Tlv>, st: State)
    requires DistinctTags(tmpl) && Skipped(tmpl, start, st)
    requires (forall i | 0 <= i < |list| :: !list[i].nonCritical) || FullRun(tmpl, list, st).Ok?
    ensures Run(tmpl, start, list, st) == FullRun(tmpl, list, st)
    decreases list
  {
    if list != [] {
      var t := list[0];
      if j :| 0 <= j < start && tmpl[j].tag == t.tag {
        SkippedElement(tmpl, start, j, t, st);
      }
      StepAgreement(tmpl, start, t, st);
      if Step(tmpl, start, t, st).Ok? {
        StepKeepsSkipped(tmpl, start, t, st);
        RunAgreement(tmpl, NextStart(tmpl, start, t), list[1..], Step(tmpl, start, t, st).value);
      }
    }
  }

  /** On every stream of critical elements the skipping search gives the result code and the
      object of the full search; and on any stream at all that the full search accepts. */
  lemma SkippingRefinesFullSearch(tmpl: seq<Entry>, list: seq<Tlv>, fields: Fields)
    requires DistinctTags(tmpl)
    requires (forall i | 0 <= i < |list| :: !list[i].nonCritical) || FullExtract(tmpl, list, fields).Ok?
    ensures ExtractInto(tmpl, list, fields) == FullExtract(tmpl, list, fields)
  {
    if GoodSize(tmpl) {
      var st := START.(fields := fields);
      if FullRun(tmpl, list, st).Ok? || forall i | 0 <= i < |list| :: !list[i].nonCritical {
        RunAgreement(tmpl, 0, list, st);
      }
    }
  }

  /** Criticality matters: a repeated non-critical element of a finished row is refused by the
      full search and passed over by the skipping one. */
  lemma NonCriticalRepetition(codec: Codec, t: Tlv, v: Value)
    requires t.nonCritical && codec.decode(t) == Ok(v)
    ensures var tmpl := [Entry(t.tag, 0, Plain(codec), false, true, {}, {}, false, false, false, false)];
      ExtractInto(tmpl, [t, t], map[]) == Ok(map[0 := One(v)]) && FullExtract(tmpl, [t, t], map[]) == Err(InvalidFormat)
  {
    var tmpl := [Entry(t.tag, 0, Plain(codec), false, true, {}, {}, false, false, false, false)];
    var st := State(map[0 := One(v)], {0}, {}, {});
    StepFinds(tmpl, 0, 0, t, START);
    assert DecodeValue(tmpl[0], t) == Ok(v);
    assert tmpl[0].most * START.oneOf == {};
    assert tmpl[0].field !in START.fields;
    assert Store(tmpl[0], START.fields, v) == st.fields;
    assert START.hit + {0} == st.hit && START.groupHit + tmpl[0].least == {} && START.oneOf + tmpl[0].most == {};
    assert Apply(tmpl, 0, t, START) == Ok(st);
    assert [t, t][1..] == [t];
    SkippedElement(tmpl, 1, 0, t, st);
    assert Run(tmpl, 1, [t], st) == Run(tmpl, 1, [], st);
    assert FullRun(tmpl, [t], st) == Err(InvalidFormat);
  }
}
