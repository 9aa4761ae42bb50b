/** Sequences of edits to a signature. */
module SignatureEdits {
  import opened Common
  import opened Tlv
  import opened Template
  import opened Signature
  import opened SignatureStream
  import KsiTemplates
  import CalendarObjects
  import TemplateParsed

  datatype Edit = ReplaceCalendar(chain: Fields) | RemoveProof | ReplacePublication(record: Option<Fields>)

  /** The objects that an edit brings in survive construction and extraction. */
  predicate Faithful(tmpl: seq<Entry>, e: Edit)
    requires IsSignatureTemplate(tmpl)
  {
    match e
    case ReplaceCalendar(chain) => DeepCopy(tmpl[1].kind.sub, chain) == Ok(chain)
    case RemoveProof => true
    case ReplacePublication(record) => record.Some? ==> DeepCopy(tmpl[2].kind.sub, record.value) == Ok(record.value)
  }

  /** The fields after an edit that succeeds. */
  function Edited(fields: Fields, e: Edit): Fields {
    match e
    case ReplaceCalendar(chain) => fields[1 := One(Object(chain))]
    case RemoveProof => fields - {2, 4}
    case ReplacePublication(record) => if record.None? then fields else (fields - {2, 4})[2 := One(Object(record.value))]
  }

  function EditedAll(fields: Fields, edits: seq<Edit>): Fields
    decreases |edits|
  {
    if edits == [] then fields else EditedAll(Edited(fields, edits[0]), edits[1..])
  }

  /** One edit; whether it succeeds or not, the base TLV and the fields still agree. */
  method ApplyEdit(sig: Signature, e: Edit) returns (res: Result<()>)
    requires sig.Agrees() && Faithful(sig.tmpl, e)
    modifies sig, sig.nested, sig.nested.arr
    ensures sig.Agrees() && (sig.nested.arr == old(sig.nested.arr) || fresh(sig.nested.arr))
    ensures sig.aggregationChainList == old(sig.aggregationChainList)
    ensures ChainsOf(sig.Elements()) == old(ChainsOf(sig.Elements()))
    ensures res.Ok? ==> sig.Decoded() == Edited(old(sig.Decoded()), e)
  {
    hide IsSignatureTemplate, Extract, DeepCopy, Together, Views, ChainsOf;
    match e
    case ReplaceCalendar(chain) =>
      res := sig.ReplaceCalendarChain(chain);
    case RemoveProof =>
      RemoveProofOf(sig);
      return Ok(());
    case ReplacePublication(record) =>
      res := sig.ReplacePublicationRecord(record);
  }

  method RemoveProofOf(sig: Signature)
    requires sig.Agrees()
    modifies sig, sig.nested, sig.nested.arr
    ensures sig.Agrees() && sig.nested.arr == old(sig.nested.arr) && sig.aggregationChainList == old(sig.aggregationChainList)
    ensures sig.Elements() == WithoutProof(old(sig.Elements()))
    ensures ChainsOf(sig.Elements()) == old(ChainsOf(sig.Elements()))
    ensures sig.Decoded() == old(sig.Decoded()) - {2, 4}
  {
    hide IsSignatureTemplate, Extract, Together, Views, ChainsOf, KeptNodes, WithoutProof;
    ghost var nodes := sig.nested.Contents();
    ProofTogether(sig.arrival, sig.calendarChain, sig.publication, sig.aggregationAuthRec, sig.calendarAuthRec);
    sig.RemoveCalAuthAndPublication();
    assert Views(nodes) == old(Views(sig.nested.Contents()));
    ProofRemoved(sig.tmpl, nodes);
  }

  /** After any sequence of edits, up to the first that fails, extracting the base TLV again gives
      the fields, and the aggregation chains are those of the beginning, in order. */
  method ApplyEdits(sig: Signature, edits: seq<Edit>) returns (res: Result<()>)
    requires sig.Agrees() && forall e <- edits :: Faithful(sig.tmpl, e)
    modifies sig, sig.nested, sig.nested.arr
    ensures sig.Agrees() && sig.aggregationChainList == old(sig.aggregationChainList)
    ensures ChainsOf(sig.Elements()) == old(ChainsOf(sig.Elements()))
    ensures res.Ok? ==> sig.Decoded() == EditedAll(old(sig.Decoded()), edits)
  {
    hide IsSignatureTemplate, Extract, Together, Views, ChainsOf, Faithful;
    assert edits[0..] == edits;
    for i := 0 to |edits|
      invariant sig.Agrees() && (sig.nested.arr == old(sig.nested.arr) || fresh(sig.nested.arr))
      invariant sig.aggregationChainList == old(sig.aggregationChainList)
      invariant ChainsOf(sig.Elements()) == old(ChainsOf(sig.Elements()))
      invariant EditedAll(old(sig.Decoded()), edits) == EditedAll(sig.Decoded(), edits[i..])
    {
      assert edits[i..][0] == edits[i] && edits[i..][1..] == edits[i + 1..];
      res := ApplyEdit(sig, edits[i]);
      if res.Err? {
        return;
      }
    }
    return Ok(());
  }

  /** Objects that were read from elements, such as those of an extend response or of a
      publications file, are always faithful. */
  lemma ReceivedIsFaithful(tmpl: seq<Entry>, e: Edit, list: seq<Tlv>)
    requires IsSignatureTemplate(tmpl) && TemplateParsed.AllFit(list)
    requires tmpl[1].kind.sub == KsiTemplates.CALENDAR && tmpl[2].kind.sub == KsiTemplates.PUBLICATION_RECORD
    requires e.ReplaceCalendar? ==> Extract(KsiTemplates.CALENDAR, list) == Ok(e.chain)
    requires e.ReplacePublication? && e.record.Some? ==> Extract(KsiTemplates.PUBLICATION_RECORD, list) == Ok(e.record.value)
    ensures Faithful(tmpl, e)
  {
    hide Extract, DeepCopy, IsSignatureTemplate, KsiTemplates.CALENDAR, KsiTemplates.PUBLICATION_RECORD;
    if e.ReplaceCalendar? {
      KsiTemplates.CalendarTemplate();
      TemplateParsed.CopyOfExtracted(KsiTemplates.CALENDAR, list);
    } else if e.ReplacePublication? && e.record.Some? {
      KsiTemplates.PublicationRecordTemplate();
      TemplateParsed.CopyOfExtracted(KsiTemplates.PUBLICATION_RECORD, list);
    }
  }

  /** When one calendar chain may take the place of another: the two have one input hash. */
  lemma CalendarChainFits(c: CalendarObjects.CalendarHashChain, d: CalendarObjects.CalendarHashChain)
    ensures CalendarError(Some(CalendarObjects.FieldsOf(c)), CalendarObjects.FieldsOf(d)) ==
      if c.inputHash == d.inputHash then None else Some(ExtendWrongCalChain)
    ensures CalendarError(None, CalendarObjects.FieldsOf(d)) == Some(InvalidFormat)
    ensures CalendarError(Some(CalendarObjects.FieldsOf(c)), CalendarObjects.FieldsOf(d) - {2}) == Some(InvalidFormat)
  {
    hide CalendarObjects.LinkValues;
  }
}
