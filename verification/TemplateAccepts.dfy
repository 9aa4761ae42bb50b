/** Which lists of elements a template accepts. */
module TemplateAccepts {
  import opened Common
  import opened Tlv
  import opened Template
  import opened TemplateSearch
  import TemplateRoundTrip

  /** Each tag has one row, and a single value shares its field with no other row. */
  predicate DistinctRows(tmpl: seq<Entry>) {
    DistinctTags(tmpl) && forall i, j | 0 <= i < j < |tmpl| && tmpl[i].field == tmpl[j].field :: tmpl[i].isList && tmpl[j].isList
  }

  /** Some element of the list is for row i. */
  predicate Served(tmpl: seq<Entry>, list: seq<Tlv>, i: nat)
    requires i < |tmpl|
  {
    exists t <- list :: t.tag == tmpl[i].tag
  }

  /** The element has a row that can still take it behind the list: a single row only once, and of
      the rows of an at-most-one group one element alone. */
  predicate Welcome(tmpl: seq<Entry>, list: seq<Tlv>, t: Tlv, i: nat)
    requires i < |tmpl|
  {
    && t.tag == tmpl[i].tag
    && (tmpl[i].isList || !Served(tmpl, list, i))
    && forall j | 0 <= j < |tmpl| && Served(tmpl, list, j) :: tmpl[j].most * tmpl[i].most == {}
  }

  /** What the state of the search knows behind a list. */
  ghost predicate Knows(tmpl: seq<Entry>, list: seq<Tlv>, st: State) {
    && (forall i: nat :: i in st.hit <==> i < |tmpl| && Served(tmpl, list, i))
    && (forall f :: f in st.fields <==> exists i :: 0 <= i < |tmpl| && Served(tmpl, list, i) && tmpl[i].field == f)
    && (forall g :: g in st.groupHit <==> exists i :: 0 <= i < |tmpl| && Served(tmpl, list, i) && g in tmpl[i].least)
    && (forall g :: g in st.oneOf <==> exists i :: 0 <= i < |tmpl| && Served(tmpl, list, i) && g in tmpl[i].most)
  }

  lemma ServedMore(tmpl: seq<Entry>, list: seq<Tlv>, t: Tlv, i: nat)
    requires i < |tmpl|
    ensures Served(tmpl, list + [t], i) <==> Served(tmpl, list, i) || t.tag == tmpl[i].tag
  {
    if Served(tmpl, list, i) {
      var u :| u in list && u.tag == tmpl[i].tag;
      assert u in list + [t];
    }
    if t.tag == tmpl[i].tag {
      assert t in list + [t];
    }
  }

  lemma KnowsNothing(tmpl: seq<Entry>)
    ensures Knows(tmpl, [], START)
  {
  }

  lemma OneOfMeets(tmpl: seq<Entry>, list: seq<Tlv>, st: State, i: nat)
    requires Knows(tmpl, list, st) && i < |tmpl|
    ensures tmpl[i].most * st.oneOf != {} <==>
      exists j :: 0 <= j < |tmpl| && Served(tmpl, list, j) && tmpl[j].most * tmpl[i].most != {}
  {
    hide Served;
    if g :| g in tmpl[i].most * st.oneOf {
      var j :| 0 <= j < |tmpl| && Served(tmpl, list, j) && g in tmpl[j].most;
      assert g in tmpl[j].most * tmpl[i].most;
    }
    if j :| 0 <= j < |tmpl| && Served(tmpl, list, j) && tmpl[j].most * tmpl[i].most != {} {
      var g :| g in tmpl[j].most * tmpl[i].most;
      assert g in tmpl[i].most * st.oneOf;
    }
  }

  /** One critical element, for any template and behind any list: it is refused without a row, or
      with one that cannot take it any more; else its own value decides. */
  lemma ElementLaw(tmpl: seq<Entry>, list: seq<Tlv>, st: State, t: Tlv)
    requires DistinctRows(tmpl) && Knows(tmpl, list, st) && !t.nonCritical
    ensures (forall i | 0 <= i < |tmpl| :: !Welcome(tmpl, list, t, i)) ==> Step(tmpl, 0, t, st) == Err(InvalidFormat)
    ensures forall i | 0 <= i < |tmpl| && Welcome(tmpl, list, t, i) ::
      match DecodeValue(tmpl[i], t)
      case Err(error) => Step(tmpl, 0, t, st) == Err(error)
      case Ok(v) => Step(tmpl, 0, t, st).Ok? && Knows(tmpl, list + [t], Step(tmpl, 0, t, st).value)
  {
    hide Step, DecodeValue, Knows, Welcome;
    if k :| 0 <= k < |tmpl| && tmpl[k].tag == t.tag {
      StepFinds(tmpl, 0, k, t, st);
      RowLaw(tmpl, list, st, t, k);
      forall i | 0 <= i < |tmpl| && Welcome(tmpl, list, t, i)
        ensures i == k
      {
        OnlyRow(tmpl, list, t, i, k);
      }
    } else {
      NoRow(tmpl, list, t);
      ScanNothing(tmpl, 0, t, st, false);
      StepWithoutRow(tmpl, t, st);
    }
  }

  lemma NoRow(tmpl: seq<Entry>, list: seq<Tlv>, t: Tlv)
    requires forall k | 0 <= k < |tmpl| :: tmpl[k].tag != t.tag
    ensures forall i | 0 <= i < |tmpl| :: !Welcome(tmpl, list, t, i)
  {
  }

  lemma StepWithoutRow(tmpl: seq<Entry>, t: Tlv, st: State)
    requires Scan(tmpl, 0, t, st, false) == Ok((st, false)) && !t.nonCritical
    ensures Step(tmpl, 0, t, st) == Err(InvalidFormat)
  {
  }

  lemma OnlyRow(tmpl: seq<Entry>, list: seq<Tlv>, t: Tlv, i: nat, k: nat)
    requires DistinctTags(tmpl) && i < |tmpl| && k < |tmpl| && tmpl[k].tag == t.tag && Welcome(tmpl, list, t, i)
    ensures i == k
  {
    hide Served;
  }

  lemma RowLaw(tmpl: seq<Entry>, list: seq<Tlv>, st: State, t: Tlv, k: nat)
    requires DistinctRows(tmpl) && Knows(tmpl, list, st) && k < |tmpl| && tmpl[k].tag == t.tag
    ensures !Welcome(tmpl, list, t, k) ==> Apply(tmpl, k, t, st) == Err(InvalidFormat)
    ensures Welcome(tmpl, list, t, k) ==>
      match DecodeValue(tmpl[k], t)
      case Err(error) => Apply(tmpl, k, t, st) == Err(error)
      case Ok(v) => Apply(tmpl, k, t, st).Ok? && Knows(tmpl, list + [t], Apply(tmpl, k, t, st).value)
  {
    hide DecodeValue, Served, Store;
    OneOfMeets(tmpl, list, st, k);
    if !tmpl[k].isList {
      FieldTaken(tmpl, list, st, k);
    }
    if Welcome(tmpl, list, t, k) && DecodeValue(tmpl[k], t).Ok? {
      KnowsMore(tmpl, list, st, t, k, DecodeValue(tmpl[k], t).value);
    }
    hide Knows;
  }

  lemma FieldTaken(tmpl: seq<Entry>, list: seq<Tlv>, st: State, k: nat)
    requires DistinctRows(tmpl) && Knows(tmpl, list, st) && k < |tmpl| && !tmpl[k].isList
    ensures tmpl[k].field in st.fields <==> Served(tmpl, list, k)
  {
    hide Served;
    if tmpl[k].field in st.fields {
      var i :| 0 <= i < |tmpl| && Served(tmpl, list, i) && tmpl[i].field == tmpl[k].field;
      assert i == k;
    }
  }

  /** The set has what the rows served by the list bring in. */
  ghost predicate Collects(tmpl: seq<Entry>, list: seq<Tlv>, all: set<nat>, part: Entry -> set<nat>) {
    forall g :: g in all <==> exists i :: 0 <= i < |tmpl| && Served(tmpl, list, i) && g in part(tmpl[i])
  }

  lemma CollectsMore(tmpl: seq<Entry>, list: seq<Tlv>, t: Tlv, k: nat, all: set<nat>, part: Entry -> set<nat>)
    requires DistinctTags(tmpl) && k < |tmpl| && tmpl[k].tag == t.tag && Collects(tmpl, list, all, part)
    ensures Collects(tmpl, list + [t], all + part(tmpl[k]), part)
  {
    forall i: nat | i < |tmpl|
      ensures Served(tmpl, list + [t], i) <==> Served(tmpl, list, i) || i == k
    {
      ServedMore(tmpl, list, t, i);
    }
    hide Served, DistinctTags;
    assert Served(tmpl, list + [t], k);
  }

  function FieldOf(e: Entry): set<nat> {
    {e.field}
  }

  function LeastOf(e: Entry): set<nat> {
    e.least
  }

  function MostOf(e: Entry): set<nat> {
    e.most
  }

  lemma HitMore(tmpl: seq<Entry>, list: seq<Tlv>, hit: set<nat>, t: Tlv, k: nat)
    requires DistinctTags(tmpl) && k < |tmpl| && tmpl[k].tag == t.tag
    requires forall i: nat :: i in hit <==> i < |tmpl| && Served(tmpl, list, i)
    ensures forall i: nat :: i in hit + {k} <==> i < |tmpl| && Served(tmpl, list + [t], i)
  {
    forall i: nat
      ensures i in hit + {k} <==> i < |tmpl| && Served(tmpl, list + [t], i)
    {
      if i < |tmpl| {
        ServedMore(tmpl, list, t, i);
      }
    }
  }

  lemma KnowsCollected(tmpl: seq<Entry>, list: seq<Tlv>, st: State)
    ensures Knows(tmpl, list, st) <==>
      && (forall i: nat :: i in st.hit <==> i < |tmpl| && Served(tmpl, list, i))
      && Collects(tmpl, list, st.fields.Keys, FieldOf)
      && Collects(tmpl, list, st.groupHit, LeastOf)
      && Collects(tmpl, list, st.oneOf, MostOf)
  {
    hide Served;
  }

  lemma KnowsMore(tmpl: seq<Entry>, list: seq<Tlv>, st: State, t: Tlv, k: nat, v: Value)
    requires DistinctTags(tmpl) && Knows(tmpl, list, st) && k < |tmpl| && tmpl[k].tag == t.tag
    ensures Knows(tmpl, list + [t],
      State(Store(tmpl[k], st.fields, v), st.hit + {k}, st.groupHit + tmpl[k].least, st.oneOf + tmpl[k].most))
  {
    hide Knows, Collects, Store, Served, DistinctTags;
    var next := State(Store(tmpl[k], st.fields, v), st.hit + {k}, st.groupHit + tmpl[k].least, st.oneOf + tmpl[k].most);
    KnowsCollected(tmpl, list, st);
    KnowsCollected(tmpl, list + [t], next);
    StoreKeys(tmpl[k], st.fields, v);
    CollectsMore(tmpl, list, t, k, st.fields.Keys, FieldOf);
    CollectsMore(tmpl, list, t, k, st.groupHit, LeastOf);
    CollectsMore(tmpl, list, t, k, st.oneOf, MostOf);
    HitMore(tmpl, list, st.hit, t, k);
  }

  lemma StoreKeys(e: Entry, fields: Fields, v: Value)
    ensures Store(e, fields, v).Keys == fields.Keys + {e.field}
  {
  }

  /** The element is taken behind the list. */
  predicate Taken(tmpl: seq<Entry>, list: seq<Tlv>, t: Tlv) {
    exists i :: 0 <= i < |tmpl| && Welcome(tmpl, list, t, i) && DecodeValue(tmpl[i], t).Ok?
  }

  predicate AllTaken(tmpl: seq<Entry>, list: seq<Tlv>) {
    forall n | 0 <= n < |list| :: Taken(tmpl, list[..n], list[n])
  }

  lemma StepIsTaken(tmpl: seq<Entry>, list: seq<Tlv>, st: State, t: Tlv)
    requires DistinctRows(tmpl) && Knows(tmpl, list, st) && !t.nonCritical
    ensures Step(tmpl, 0, t, st).Ok? <==> Taken(tmpl, list, t)
    ensures Step(tmpl, 0, t, st).Ok? ==> Knows(tmpl, list + [t], Step(tmpl, 0, t, st).value)
  {
    hide Step, DecodeValue, Knows, Welcome;
    ElementLaw(tmpl, list, st, t);
    if i :| 0 <= i < |tmpl| && Welcome(tmpl, list, t, i) {
      assert Step(tmpl, 0, t, st).Ok? <==> DecodeValue(tmpl[i], t).Ok?;
    }
  }

  predicate Critical(list: seq<Tlv>) {
    forall t <- list :: !t.nonCritical
  }

  lemma {:induction false} RunIsTaken(tmpl: seq<Entry>, list: seq<Tlv>)
    requires DistinctRows(tmpl) && Critical(list)
    ensures FullRun(tmpl, list, START).Ok? <==> AllTaken(tmpl, list)
    ensures FullRun(tmpl, list, START).Ok? ==> Knows(tmpl, list, FullRun(tmpl, list, START).value)
    decreases |list|
  {
    hide Step, Knows, Taken, FullRun, DistinctRows;
    if list == [] {
      KnowsNothing(tmpl);
      RunOfNothing(tmpl);
    } else {
      var n := |list| - 1;
      var rest, t := list[..n], list[n];
      assert list == rest + [t];
      RunIsTaken(tmpl, rest);
      TemplateRoundTrip.FullRunConcat(tmpl, rest, [t], START);
      AllTakenLast(tmpl, rest, t);
      if FullRun(tmpl, rest, START).Ok? {
        TemplateRoundTrip.FullRunOne(tmpl, t, FullRun(tmpl, rest, START).value);
        StepIsTaken(tmpl, rest, FullRun(tmpl, rest, START).value, t);
      }
    }
  }

  lemma RunOfNothing(tmpl: seq<Entry>)
    ensures FullRun(tmpl, [], START) == Ok(START)
  {
  }

  lemma AllTakenLast(tmpl: seq<Entry>, rest: seq<Tlv>, t: Tlv)
    ensures AllTaken(tmpl, rest + [t]) <==> AllTaken(tmpl, rest) && Taken(tmpl, rest, t)
  {
    hide Taken;
    var list := rest + [t];
    assert list[..|rest|] == rest && list[|rest|] == t;
    forall n | 0 <= n < |rest|
      ensures list[..n] == rest[..n] && list[n] == rest[n]
    {
    }
    if AllTaken(tmpl, list) {
      assert Taken(tmpl, list[..|rest|], list[|rest|]);
      forall n | 0 <= n < |rest|
        ensures Taken(tmpl, rest[..n], rest[n])
      {
        assert Taken(tmpl, list[..n], list[n]);
      }
    }
  }

  /** Nothing that has to be there is missing. */
  predicate NothingMissing(tmpl: seq<Entry>, list: seq<Tlv>) {
    forall i | 0 <= i < |tmpl| ::
      && (tmpl[i].mandatory ==> Served(tmpl, list, i))
      && forall g <- tmpl[i].least :: exists j :: 0 <= j < |tmpl| && Served(tmpl, list, j) && g in tmpl[j].least
  }

  lemma CompleteMeans(tmpl: seq<Entry>, list: seq<Tlv>, st: State)
    requires Knows(tmpl, list, st)
    ensures Complete(tmpl, st) <==> NothingMissing(tmpl, list)
  {
    hide Served;
  }

  /** Which critical elements a template accepts: each in its turn has a row that can take it and
      that can decode it, and in the end nothing is missing. If that alone fails, the format is
      invalid. */
  lemma AcceptsExactly(tmpl: seq<Entry>, list: seq<Tlv>)
    requires DistinctRows(tmpl) && Critical(list)
    ensures Extract(tmpl, list).Ok? <==> 0 < |tmpl| <= 0xff && AllTaken(tmpl, list) && NothingMissing(tmpl, list)
    ensures !(0 < |tmpl| <= 0xff) ==> Extract(tmpl, list) == Err(InvalidArgument)
    ensures 0 < |tmpl| <= 0xff && AllTaken(tmpl, list) && !NothingMissing(tmpl, list) ==> Extract(tmpl, list) == Err(InvalidFormat)
  {
    assert START.(fields := map[]) == START;
    SkippingRefinesFullSearch(tmpl, list, map[]);
    assert Extract(tmpl, list) == FullExtract(tmpl, list, map[]);
    RunIsTaken(tmpl, list);
    if FullRun(tmpl, list, START).Ok? {
      CompleteMeans(tmpl, list, FullRun(tmpl, list, START).value);
    }
    hide Extract, FullRun, Knows, Complete, NothingMissing, AllTaken;
  }

  // ---- rows with more definitions ------------------------------------------------------------

  /** No row from i up to k is for the tag. */
  predicate NoRowFor(tmpl: seq<Entry>, i: nat, k: nat, tag: Tag) {
    forall j | i <= j < k && j < |tmpl| :: tmpl[j].tag != tag
  }

  lemma {:induction false} ScanTo(tmpl: seq<Entry>, i: nat, k: nat, t: Tlv, st: State, matched: bool)
    requires i <= k <= |tmpl| && NoRowFor(tmpl, i, k, t.tag)
    ensures Scan(tmpl, i, t, st, matched) == Scan(tmpl, k, t, st, matched)
    decreases k - i
  {
    if i < k {
      ScanTo(tmpl, i + 1, k, t, st, matched);
    }
  }

  lemma {:induction false} ScanRow(tmpl: seq<Entry>, i: nat, t: Tlv, st: State, matched: bool)
    requires i < |tmpl| && tmpl[i].tag == t.tag
    ensures Scan(tmpl, i, t, st, matched) ==
      match Apply(tmpl, i, t, st)
      case Err(error) => Err(error)
      case Ok(next) => if tmpl[i].moreDefs then Scan(tmpl, i + 1, t, next, true) else Ok((next, true))
  {
    hide Apply;
  }

  /** An element with two rows is taken by both of them, one after the other, exactly if the first
      one says that there are more definitions; otherwise the first one has it alone. */
  lemma {:induction false} TwoDefinitions(tmpl: seq<Entry>, i: nat, k: nat, t: Tlv, st: State)
    requires i < k < |tmpl| && tmpl[i].tag == tmpl[k].tag == t.tag && !tmpl[k].moreDefs
    requires NoRowFor(tmpl, 0, i, t.tag) && NoRowFor(tmpl, i + 1, k, t.tag)
    ensures Step(tmpl, 0, t, st) ==
      match Apply(tmpl, i, t, st)
      case Err(error) => Err(error)
      case Ok(next) => if tmpl[i].moreDefs then Apply(tmpl, k, t, next) else Ok(next)
    ensures i == 0 && k == 1 && !tmpl[0].isList && !tmpl[1].isList ==>
      NextStart(tmpl, 0, t) == if tmpl[0].moreDefs then 2 else 1
  {
    hide Apply;
    ScanTo(tmpl, 0, i, t, st, false);
    ScanRow(tmpl, i, t, st, false);
    if Apply(tmpl, i, t, st).Ok? {
      var next := Apply(tmpl, i, t, st).value;
      ScanTo(tmpl, i + 1, k, t, next, true);
      ScanRow(tmpl, k, t, next, true);
    }
    hide Scan;
  }

  // ---- what can be written -------------------------------------------------------------------

  predicate RightSlot(e: Entry, fields: Fields) {
    Present(e, fields) ==> (fields[e.field].Many? <==> e.isList)
  }

  lemma {:induction false} RowsAreTyped(tmpl: seq<Entry>, i: nat, fields: Fields)
    requires i <= |tmpl|
    ensures EmitFrom(tmpl, i, fields).Ok? ==> forall j | i <= j < |tmpl| :: RightSlot(tmpl[j], fields)
    decreases |tmpl| - i
  {
    if i < |tmpl| {
      RowsAreTyped(tmpl, i + 1, fields);
      WrongSlot(tmpl[i], fields);
    }
    hide Emit;
  }

  lemma WrongSlot(e: Entry, fields: Fields)
    ensures !RightSlot(e, fields) ==> Emit(e, fields) == Err(UnknownError)
  {
  }

  /** Only an object is written that has lists for the list rows and single values for the others,
      and that has a value for every mandatory row. The first row with the wrong kind of value is
      reported as an unknown error. */
  lemma ConstructedIsTyped(tmpl: seq<Entry>, fields: Fields)
    ensures Construct(tmpl, fields).Ok? ==>
      && (forall i | 0 <= i < |tmpl| :: RightSlot(tmpl[i], fields))
      && (forall i | 0 <= i < |tmpl| && tmpl[i].mandatory :: tmpl[i].field in fields)
    ensures 0 < |tmpl| <= 0xff && !RightSlot(tmpl[0], fields) ==> Construct(tmpl, fields) == Err(UnknownError)
  {
    if 0 < |tmpl| {
      RowsAreTyped(tmpl, 0, fields);
      WrongSlot(tmpl[0], fields);
    }
    hide RightSlot, Emit;
  }
}
