/** The table-driven converter between objects and TLV elements. */
module Template {
  import opened Common
  import opened Tlv

  /** Field values. A missing field is absent from the map. */
  datatype Value =
    | Number(n: uint64)
    | Octets(bytes: seq<byte>)
    | Sided(isLeft: bool, inner: Value)
    | Object(fields: map<nat, Slot>)

  datatype Slot = One(value: Value) | Many(values: seq<Value>)

  type Fields = map<nat, Slot>

  /** The conversion functions of a field type. */
  datatype Codec = Codec(decode: Tlv -> Result<Value>, encode: (Value, Tag, bool, bool) -> Result<Tlv>)

  datatype Kind = Plain(codec: Codec) | Composite(sub: seq<Entry>)

  /** One row of a template. `least` and `most` are the at-least-one and at-most-one groups that
      the row belongs to; a row that allows several occurrences collects them in a list. */
  datatype Entry = Entry(
    tag: Tag,
    field: nat,
    kind: Kind,
    isList: bool,
    mandatory: bool,
    least: set<nat>,
    most: set<nat>,
    moreDefs: bool,
    noSerialize: bool,
    nonCritical: bool,
    forward: bool)

  const MAX_TEMPLATE_SIZE := 0xff

  /** What the extraction loop keeps: the object so far, the rows that were hit, and the groups
      of which some, and of which the only, element was seen. */
  datatype State = State(fields: Fields, hit: set<nat>, groupHit: set<nat>, oneOf: set<nat>)

  const START := State(map[], {}, {}, {})

  // ---- extraction ----------------------------------------------------------------------------

  function DecodeValue(e: Entry, t: Tlv): Result<Value>
    decreases e, 0
  {
    match e.kind
    case Plain(codec) => codec.decode(t)
    case Composite(sub) =>
      match ExtractTlv(sub, t)
      case Err(error) => Err(error)
      case Ok(fields) => Ok(Object(fields))
  }

  /** A list keeps its elements in order of arrival; any other value is set. */
  function Store(e: Entry, fields: Fields, v: Value): Fields {
    if e.isList then
      fields[e.field := Many((if e.field in fields && fields[e.field].Many? then fields[e.field].values else []) + [v])]
    else
      fields[e.field := One(v)]
  }

  /** Row i takes the element. */
  function Apply(tmpl: seq<Entry>, i: nat, t: Tlv, st: State): Result<State>
    requires i < |tmpl|
    decreases tmpl, 0, 0
  {
    var e := tmpl[i];
    if e.most * st.oneOf != {} then Err(InvalidFormat)
    else if e.field in st.fields && !e.isList then Err(InvalidFormat)
    else
      match DecodeValue(e, t)
      case Err(error) => Err(error)
      case Ok(v) => Ok(State(Store(e, st.fields, v), st.hit + {i}, st.groupHit + e.least, st.oneOf + e.most))
  }

  /** The search through the rows from i on; the flag says whether any row took the element. */
  function Scan(tmpl: seq<Entry>, i: nat, t: Tlv, st: State, matched: bool): Result<(State, bool)>
    requires i <= |tmpl|
    decreases tmpl, 1, |tmpl| - i
  {
    if i == |tmpl| then Ok((st, matched))
    else if tmpl[i].tag != t.tag then Scan(tmpl, i + 1, t, st, matched)
    else
      match Apply(tmpl, i, t, st)
      case Err(error) => Err(error)
      case Ok(next) => if tmpl[i].moreDefs then Scan(tmpl, i + 1, t, next, true) else Ok((next, true))
  }

  /** One element: it must match some row from `start` on, unless it is not critical. */
  function Step(tmpl: seq<Entry>, start: nat, t: Tlv, st: State): Result<State>
    requires start <= |tmpl|
    decreases tmpl, 2
  {
    match Scan(tmpl, start, t, st, false)
    case Err(error) => Err(error)
    case Ok((next, matched)) => if !matched && !t.nonCritical then Err(InvalidFormat) else Ok(next)
  }

  /** Where the search for the next element starts: behind every row at the start of the
      template that cannot occur again. */
  function NextStart(tmpl: seq<Entry>, start: nat, t: Tlv): (r: nat)
    requires start <= |tmpl|
    ensures start <= r <= |tmpl|
    decreases |tmpl| - start
  {
    if start < |tmpl| && tmpl[start].tag == t.tag && !tmpl[start].isList then
      if tmpl[start].moreDefs then NextStart(tmpl, start + 1, t) else start + 1
    else start
  }

  /** The loop over all elements, with the search starting at `start`. */
  function Run(tmpl: seq<Entry>, start: nat, list: seq<Tlv>, st: State): Result<State>
    requires start <= |tmpl|
    decreases tmpl, 3, list
  {
    if list == [] then Ok(st)
    else
      match Step(tmpl, start, list[0], st)
      case Err(error) => Err(error)
      case Ok(next) => Run(tmpl, NextStart(tmpl, start, list[0]), list[1..], next)
  }

  /** Every mandatory row was hit, and some row of every at-least-one group. */
  predicate Complete(tmpl: seq<Entry>, st: State) {
    forall i | 0 <= i < |tmpl| :: (tmpl[i].mandatory ==> i in st.hit) && tmpl[i].least <= st.groupHit
  }

  predicate GoodSize(tmpl: seq<Entry>) {
    0 < |tmpl| <= MAX_TEMPLATE_SIZE
  }

  /** Extraction into an object that may already have some fields. */
  function ExtractInto(tmpl: seq<Entry>, list: seq<Tlv>, fields: Fields): Result<Fields>
    decreases tmpl, 4, 0
  {
    if !GoodSize(tmpl) then Err(InvalidArgument)
    else match Run(tmpl, 0, list, START.(fields := fields))
      case Err(error) => Err(error)
      case Ok(st) => if Complete(tmpl, st) then Ok(st.fields) else Err(InvalidFormat)
  }

  function ExtractTlv(tmpl: seq<Entry>, t: Tlv): Result<Fields>
    decreases tmpl, 5
  {
    match CastToNested(t)
    case Err(error) => Err(error)
    case Ok(u) => Extract(tmpl, u.payload.list)
  }

  function Extract(tmpl: seq<Entry>, list: seq<Tlv>): Result<Fields>
    decreases tmpl, 4, 1
  {
    ExtractInto(tmpl, list, map[])
  }

  /** An object that extraction fills in place. */
  class Payload {
    var fields: Fields

    constructor ()
      ensures fields == map[]
    {
      fields := map[];
    }
  }

  /** The extraction loop of the source: `tmplStart`, the hit flags and the object change as the
      elements arrive. */
  method ExtractGenerator(tmpl: seq<Entry>, list: seq<Tlv>, payload: Payload) returns (res: Result<()>)
    modifies payload
    ensures match ExtractInto(tmpl, list, old(payload.fields))
      case Ok(fields) => res == Ok(()) && payload.fields == fields
      case Err(error) => res == Err(error)
    decreases tmpl, 4
  {
    if !GoodSize(tmpl) {
      return Err(InvalidArgument);
    }
    var hit: set<nat>, groupHit: set<nat>, oneOf: set<nat> := {}, {}, {};
    var tmplStart := 0;
    var idx := 0;
    assert list[0..] == list;
    while idx < |list|
      invariant idx <= |list| && tmplStart <= |tmpl|
      invariant Run(tmpl, 0, list, START.(fields := old(payload.fields))) ==
        Run(tmpl, tmplStart, list[idx..], State(payload.fields, hit, groupHit, oneOf))
    {
      var t := list[idx];
      ghost var start := tmplStart;
      ghost var before := State(payload.fields, hit, groupHit, oneOf);
      var matchCount := 0;
      var i := tmplStart;
      var searching := true;
      while searching && i < |tmpl|
        invariant start <= i <= |tmpl| && tmplStart <= if searching then i else i + 1
        invariant !searching ==> i < |tmpl|
        invariant NextStart(tmpl, start, t) ==
          if searching && i == tmplStart then NextStart(tmpl, tmplStart, t) else tmplStart
        invariant Scan(tmpl, start, t, before, false) ==
          var now := State(payload.fields, hit, groupHit, oneOf);
          if searching then Scan(tmpl, i, t, now, matchCount > 0) else Ok((now, matchCount > 0))
        decreases searching, |tmpl| - i
      {
        var e := tmpl[i];
        if e.tag != t.tag {
          i := i + 1;
          continue;
        }
        if i == tmplStart && !e.isList {
          tmplStart := tmplStart + 1;
        }
        matchCount := matchCount + 1;
        if e.most * oneOf != {} {
          return Err(InvalidFormat);
        }
        if e.field in payload.fields && !e.isList {
          return Err(InvalidFormat);
        }
        var v := Convert(e, t);
        if v.Err? {
          return Err(v.error);
        }
        hit, groupHit, oneOf := hit + {i}, groupHit + e.least, oneOf + e.most;
        payload.fields := Store(e, payload.fields, v.value);
        if !e.moreDefs {
          searching := false;
        } else {
          i := i + 1;
        }
      }
      if matchCount == 0 && !t.nonCritical {
        return Err(InvalidFormat);
      }
      assert list[idx..][1..] == list[idx + 1..];
      idx := idx + 1;
    }
    if Complete(tmpl, State(payload.fields, hit, groupHit, oneOf)) {
      return Ok(());
    }
    return Err(InvalidFormat);
  }

  /** Converts one element by its row: with the row's own function, or by extracting a composite
      into an object of its own. */
  method Convert(e: Entry, t: Tlv) returns (res: Result<Value>)
    ensures res == DecodeValue(e, t)
    decreases e, 0
  {
    match e.kind
    case Plain(codec) =>
      return codec.decode(t);
    case Composite(sub) =>
      var nested := CastToNested(t);
      if nested.Err? {
        return Err(nested.error);
      }
      var compositeVal := new Payload();
      var r := ExtractGenerator(sub, nested.value.payload.list, compositeVal);
      assert ExtractTlv(sub, t) == Extract(sub, nested.value.payload.list);
      if r.Err? {
        return Err(r.error);
      }
      return Ok(Object(compositeVal.fields));
  }

  // ---- construction --------------------------------------------------------------------------

  /** A row is written when it is not excluded and its field is set; an empty list is set. */
  predicate Present(e: Entry, fields: Fields) {
    !e.noSerialize && e.field in fields
  }

  function EncodeValue(e: Entry, v: Value): Result<Tlv>
    decreases e, 0
  {
    match e.kind
    case Plain(codec) => codec.encode(v, e.tag, e.nonCritical, e.forward)
    case Composite(sub) =>
      if !v.Object? then Err(InvalidArgument)
      else match Construct(sub, v.fields)
        case Err(error) => Err(error)
        case Ok(list) => Ok(Tlv(e.tag, e.nonCritical, e.forward, Nested(list)))
  }

  function EncodeValues(e: Entry, values: seq<Value>): Result<seq<Tlv>>
    decreases e, 1, |values|
  {
    if |values| == 0 then Ok([])
    else match EncodeValue(e, values[0])
      case Err(error) => Err(error)
      case Ok(t) => Then([t], EncodeValues(e, values[1..]))
  }

  function Then(list: seq<Tlv>, rest: Result<seq<Tlv>>): Result<seq<Tlv>> {
    match rest
    case Err(error) => Err(error)
    case Ok(more) => Ok(list + more)
  }

  /** The elements of one row. A slot of the wrong kind cannot come from the object's getters. */
  function Emit(e: Entry, fields: Fields): Result<seq<Tlv>>
    decreases e, 2
  {
    if !Present(e, fields) then Ok([])
    else match fields[e.field]
      case One(v) => if e.isList then Err(UnknownError) else EncodeValues(e, [v])
      case Many(values) => if e.isList then EncodeValues(e, values) else Err(UnknownError)
  }

  function EmitFrom(tmpl: seq<Entry>, i: nat, fields: Fields): Result<seq<Tlv>>
    requires i <= |tmpl|
    decreases tmpl, 0, |tmpl| - i
  {
    if i == |tmpl| then Ok([])
    else match Emit(tmpl[i], fields)
      case Err(error) => Err(error)
      case Ok(list) => Then(list, EmitFrom(tmpl, i + 1, fields))
  }

  /** The at-least-one groups of the first n rows that are written. */
  function GroupsWritten(tmpl: seq<Entry>, fields: Fields, n: nat): set<nat>
    requires n <= |tmpl|
  {
    if n == 0 then {}
    else GroupsWritten(tmpl, fields, n - 1) + if Present(tmpl[n - 1], fields) then tmpl[n - 1].least else {}
  }

  predicate Satisfied(tmpl: seq<Entry>, fields: Fields) {
    forall i | 0 <= i < |tmpl| ::
      (tmpl[i].mandatory ==> Present(tmpl[i], fields)) && tmpl[i].least <= GroupsWritten(tmpl, fields, |tmpl|)
  }

  /** The nested elements for an object. A second element of an at-most-one group is noted but
      does not stop the construction. */
  function Construct(tmpl: seq<Entry>, fields: Fields): Result<seq<Tlv>>
    decreases tmpl, 1
  {
    if !GoodSize(tmpl) then Err(InvalidArgument)
    else match EmitFrom(tmpl, 0, fields)
      case Err(error) => Err(error)
      case Ok(list) => if Satisfied(tmpl, fields) then Ok(list) else Err(InvalidFormat)
  }

  lemma ThenNothing(rest: Result<seq<Tlv>>)
    ensures Then([], rest) == rest
  {
    if rest.Ok? {
      assert [] + rest.value == rest.value;
    }
  }

  lemma ThenTwice(a: seq<Tlv>, b: seq<Tlv>, rest: Result<seq<Tlv>>)
    ensures Then(a, Then(b, rest)) == Then(a + b, rest)
  {
    if rest.Ok? {
      assert a + (b + rest.value) == a + b + rest.value;
    }
  }

  /** The construction loop of the source, appending to the nested list of the target. */
  method ConstructTlv(tmpl: seq<Entry>, fields: Fields) returns (res: Result<seq<Tlv>>)
    ensures res == Construct(tmpl, fields)
    decreases tmpl, 1
  {
    if !GoodSize(tmpl) {
      return Err(InvalidArgument);
    }
    var hit: set<nat>, groupHit: set<nat>, oneOf: set<nat> := {}, {}, {};
    var nested: seq<Tlv> := [];
    ThenNothing(EmitFrom(tmpl, 0, fields));
    for i := 0 to |tmpl|
      invariant hit == set k: nat | k < i && Present(tmpl[k], fields)
      invariant groupHit == GroupsWritten(tmpl, fields, i)
      invariant EmitFrom(tmpl, 0, fields) == Then(nested, EmitFrom(tmpl, i, fields))
    {
      var e := tmpl[i];
      if !e.noSerialize && e.field in fields {
        hit, groupHit := hit + {i}, groupHit + e.least;
        oneOf := oneOf + e.most;
        var list := ConstructRow(e, fields[e.field]);
        if list.Err? {
          return list;
        }
        ThenTwice(nested, list.value, EmitFrom(tmpl, i + 1, fields));
        nested := nested + list.value;
      } else {
        ThenNothing(EmitFrom(tmpl, i + 1, fields));
      }
    }
    assert nested + [] == nested;
    if forall i | 0 <= i < |tmpl| :: (tmpl[i].mandatory ==> i in hit) && tmpl[i].least <= groupHit {
      return Ok(nested);
    }
    return Err(InvalidFormat);
  }

  method ConstructRow(e: Entry, slot: Slot) returns (res: Result<seq<Tlv>>)
    requires !e.noSerialize
    ensures res == Emit(e, map[e.field := slot])
    decreases e, 1
  {
    if slot.One? == e.isList {
      return Err(UnknownError);
    }
    var values := if slot.One? then [slot.value] else slot.values;
    var list: seq<Tlv> := [];
    assert values[0..] == values;
    ThenNothing(EncodeValues(e, values));
    for j := 0 to |values|
      invariant EncodeValues(e, values) == Then(list, EncodeValues(e, values[j..]))
    {
      assert values[j..][1..] == values[j + 1..];
      var t := ConstructValue(e, values[j]);
      if t.Err? {
        return Err(t.error);
      }
      ThenTwice(list, [t.value], EncodeValues(e, values[j + 1..]));
      list := list + [t.value];
    }
    assert list + [] == list;
    return Ok(list);
  }

  method ConstructValue(e: Entry, v: Value) returns (res: Result<Tlv>)
    ensures res == EncodeValue(e, v)
    decreases e, 0
  {
    match e.kind
    case Plain(codec) =>
      return codec.encode(v, e.tag, e.nonCritical, e.forward);
    case Composite(sub) =>
      if !v.Object? {
        return Err(InvalidArgument);
      }
      var list := ConstructTlv(sub, v.fields);
      if list.Err? {
        return Err(list.error);
      }
      return Ok(Tlv(e.tag, e.nonCritical, e.forward, Nested(list.value)));
  }

  /** Copying an object through its elements. */
  function DeepCopy(tmpl: seq<Entry>, fields: Fields): Result<Fields> {
    match Construct(tmpl, fields)
    case Err(error) => Err(error)
    case Ok(list) => Extract(tmpl, list)
  }

  /** The elements go into the object that is given; into an empty one, they make the copy. */
  method DeepCopyInto(tmpl: seq<Entry>, from: Fields, to: Payload) returns (res: Result<()>)
    modifies to
    ensures match Construct(tmpl, from)
      case Err(error) => res == Err(error) && to.fields == old(to.fields)
      case Ok(list) =>
        match ExtractInto(tmpl, list, old(to.fields))
        case Ok(fields) => res == Ok(()) && to.fields == fields
        case Err(error) => res == Err(error)
    ensures old(to.fields) == map[] ==>
      match DeepCopy(tmpl, from)
      case Ok(fields) => res == Ok(()) && to.fields == fields
      case Err(error) => res == Err(error)
  {
    var list := ConstructTlv(tmpl, from);
    if list.Err? {
      return Err(list.error);
    }
    res := ExtractGenerator(tmpl, list.value, to);
  }
}
