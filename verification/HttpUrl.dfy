/** The URL splitter with its table of offsets and lengths. */
module HttpUrl {
  import opened Common
  import opened Slots
  import opened UrlParser
  import opened UrlGrammar

  datatype Field = UfSchema | UfHost | UfPort | UfPath | UfQuery | UfFragment | UfUserInfo

  datatype Span = Span(off: nat, len: nat)

  type Table = map<Field, Span>

  /** The result structure: the fields that are set are the keys of the table. */
  class Url {
    var port: nat
    var fieldData: Table

    constructor ()
      ensures port == 0 && fieldData == map[]
    {
      port, fieldData := 0, map[];
    }
  }

  // ---- tables of slots -----------------------------------------------------------------------

  /** The slot of a field in the first machine; the host stands for the whole authority. */
  function OuterSlot(f: Field): nat {
    match f
    case UfSchema => 0
    case UfHost => 2
    case UfPath => 3
    case UfQuery => 5
    case UfFragment => 7
    case UfPort => 8
    case UfUserInfo => 8
  }

  const OUTER_FIELDS: set<Field> := {UfSchema, UfHost, UfPath, UfQuery, UfFragment}

  predicate InOuter(u: Slots, f: Field)
    requires |u| == 8
  {
    f in OUTER_FIELDS && u[OuterSlot(f)] != []
  }

  function OuterSpan(u: Slots, f: Field): Span
    requires |u| == 8 && f in OUTER_FIELDS
  {
    Span(Offset(u, OuterSlot(f)), |u[OuterSlot(f)]|)
  }

  function OuterTable(u: Slots): Table
    requires |u| == 8
  {
    map f | f in OUTER_FIELDS && InOuter(u, f) :: OuterSpan(u, f)
  }

  /** The slot of a field among all slots. */
  function FullSlot(f: Field): nat {
    match f
    case UfSchema => 0
    case UfUserInfo => 2
    case UfHost => 5
    case UfPort => 8
    case UfPath => 9
    case UfQuery => 11
    case UfFragment => 13
  }

  const ALL_FIELDS: set<Field> := {UfSchema, UfUserInfo, UfHost, UfPort, UfPath, UfQuery, UfFragment}

  predicate InFull(r: Slots, f: Field)
    requires |r| == 14
  {
    f in ALL_FIELDS && r[FullSlot(f)] != []
  }

  function FullSpan(r: Slots, f: Field): Span
    requires |r| == 14
  {
    Span(Offset(r, FullSlot(f)), |r[FullSlot(f)]|)
  }

  function FullTable(r: Slots): Table
    requires |r| == 14
  {
    map f | f in ALL_FIELDS && InFull(r, f) :: FullSpan(r, f)
  }

  /** The field that a state of the first machine belongs to; delimiters belong to none. */
  function FieldOf(s: UrlState): Option<Field> {
    match s
    case Schema => Some(UfSchema)
    case Server => Some(UfHost)
    case ServerWithAt => Some(UfHost)
    case Path => Some(UfPath)
    case Query => Some(UfQuery)
    case Fragment => Some(UfFragment)
    case _ => None
  }

  lemma FieldSlot(s: UrlState)
    ensures FieldOf(s).Some? ==> FieldOf(s).value in OUTER_FIELDS && OuterSlot(FieldOf(s).value) == UrlSlot(s)
    ensures s != BeforeUrl && s != UrlDead && FieldOf(s) == None ==> UrlSlot(s) in {1, 4, 6}
  {
  }

  lemma SlotsAdvance(s: UrlState, ch: byte)
    requires ParseUrlChar(s, ch) != UrlDead
    ensures UrlSlot(s) <= UrlSlot(ParseUrlChar(s, ch))
    ensures s != BeforeUrl && FieldOf(s) == None ==>
      FieldOf(ParseUrlChar(s, ch)) == None || UrlSlot(s) < UrlSlot(ParseUrlChar(s, ch))
  {
  }

  lemma EmptyBehind(s: UrlState, u: Slots)
    requires |u| == 8 && s != UrlDead && UrlInv(s, u)
    ensures EmptyFrom(u, if s == BeforeUrl then 0 else UrlSlot(s) + 1)
  {
  }

  lemma SpanAfterPut(u: Slots, k: nat, ch: byte, g: Field)
    requires |u| == 8 && k < 8 && EmptyFrom(u, k + 1) && g in OUTER_FIELDS
    ensures InOuter(Put(u, k, ch), g) <==> InOuter(u, g) || OuterSlot(g) == k
    ensures InOuter(Put(u, k, ch), g) ==>
      OuterSpan(Put(u, k, ch), g) == if OuterSlot(g) == k then Span(Offset(u, k), |u[k]| + 1) else OuterSpan(u, g)
  {
    if OuterSlot(g) <= k {
      PutKeepsOffset(u, k, ch, OuterSlot(g));
    }
  }

  lemma OneFieldPerSlot(f: Field, g: Field)
    requires f in OUTER_FIELDS && g in OUTER_FIELDS
    ensures OuterSlot(f) == OuterSlot(g) ==> f == g
  {
  }

  lemma NoFieldSlot(g: Field)
    requires g in OUTER_FIELDS
    ensures OuterSlot(g) !in {1, 4, 6}
  {
  }

  /** The table when one more character is put into slot k, the slot of a field or of none. */
  lemma TableAfterPut(u: Slots, k: nat, ch: byte, f: Option<Field>)
    requires |u| == 8 && k < 8 && EmptyFrom(u, k + 1)
    requires if f.Some? then f.value in OUTER_FIELDS && OuterSlot(f.value) == k else k in {1, 4, 6}
    ensures OuterTable(Put(u, k, ch)) ==
      if f.Some? then OuterTable(u)[f.value := Span(Offset(u, k), |u[k]| + 1)] else OuterTable(u)
  {
    hide Offset, Put, InOuter, OuterSpan, OuterSlot, OUTER_FIELDS, EmptyFrom;
    var v := Put(u, k, ch);
    forall g | g in OUTER_FIELDS
      ensures InOuter(v, g) <==> InOuter(u, g) || f == Some(g)
      ensures InOuter(v, g) ==> OuterSpan(v, g) == if f == Some(g) then Span(Offset(u, k), |u[k]| + 1) else OuterSpan(u, g)
    {
      SpanAfterPut(u, k, ch, g);
      NoFieldSlot(g);
      if f.Some? {
        OneFieldPerSlot(f.value, g);
      }
    }
  }

  /** What the loop of the first machine does for one character. */
  function Advance(table: Table, oldUf: Option<Field>, uf: Option<Field>, i: nat): Table {
    match uf
    case None => table
    case Some(f) =>
      if uf == oldUf && f in table then table[f := Span(table[f].off, table[f].len + 1)]
      else table[f := Span(i, 1)]
  }

  /** The field that was last begun: that of the state, or one before the delimiter. */
  predicate OldField(oldUf: Option<Field>, s: UrlState) {
    if FieldOf(s).Some? then oldUf == FieldOf(s)
    else oldUf == None || (s != BeforeUrl && OuterSlot(oldUf.value) < UrlSlot(s))
  }

  /** A character goes on with the field of the last one, or begins a field behind everything. */
  lemma FieldGoesOn(s: UrlState, u: Slots, ch: byte, oldUf: Option<Field>)
    requires |u| == 8 && s != UrlDead && UrlInv(s, u) && ParseUrlChar(s, ch) != UrlDead && OldField(oldUf, s)
    requires FieldOf(ParseUrlChar(s, ch)).Some?
    ensures var k := UrlSlot(ParseUrlChar(s, ch));
      if FieldOf(ParseUrlChar(s, ch)) == oldUf then u[k] != []
      else u[k] == [] && Offset(u, k) == |Concat(u)|
  {
    var next := ParseUrlChar(s, ch);
    var k := UrlSlot(next);
    SlotsAdvance(s, ch);
    FieldSlot(s);
    FieldSlot(next);
    EmptyBehind(s, u);
    SlotFilled(s, u);
    if FieldOf(s).Some? {
      OneFieldPerSlot(FieldOf(s).value, FieldOf(next).value);
    }
    hide ParseUrlChar, UrlInv, Concat, UrlSlot, OuterSlot;
    if FieldOf(next) != oldUf {
      EmptyTail(u, k);
    }
  }

  lemma OldFieldNext(s: UrlState, ch: byte, oldUf: Option<Field>)
    requires s != UrlDead && ParseUrlChar(s, ch) != UrlDead && OldField(oldUf, s)
    ensures var next := ParseUrlChar(s, ch); OldField(if FieldOf(next).Some? then FieldOf(next) else oldUf, next)
  {
  }

  lemma TableAdvances(s: UrlState, u: Slots, ch: byte, oldUf: Option<Field>)
    requires |u| == 8 && s != UrlDead && UrlInv(s, u) && ParseUrlChar(s, ch) != UrlDead && OldField(oldUf, s)
    ensures var next := ParseUrlChar(s, ch);
      OuterTable(Put(u, UrlSlot(next), ch)) == Advance(OuterTable(u), oldUf, FieldOf(next), |Concat(u)|)
  {
    hide ParseUrlChar, UrlInv, Concat, Offset, Put, EmptyFrom;
    var next := ParseUrlChar(s, ch);
    UrlStepKeeps(s, u, ch);
    FieldSlot(next);
    NeverBefore(s, ch);
    TableAfterPut(u, UrlSlot(next), ch, FieldOf(next));
    hide OuterTable;
    if FieldOf(next).Some? {
      FieldGoesOn(s, u, ch, oldUf);
    }
  }

  lemma SlotFilled(s: UrlState, u: Slots)
    requires |u| == 8 && UrlInv(s, u)
    ensures FieldOf(s).Some? ==> u[UrlSlot(s)] != []
  {
  }

  lemma AtFound(s: UrlState, u: Slots, ch: byte)
    requires |u| == 8 && UrlInv(s, u) && ParseUrlChar(s, ch) != UrlDead
    ensures var next := ParseUrlChar(s, ch);
      AT in Put(u, UrlSlot(next), ch)[2] <==> AT in u[2] || next == ServerWithAt
  {
    var next := ParseUrlChar(s, ch);
    if next == ServerWithAt {
      assert (u[2] + [ch])[|u[2]|] == AT;
    }
  }

  // ---- the table of an authority -------------------------------------------------------------

  function HostFieldSlot(f: Field): nat {
    match f
    case UfUserInfo => 0
    case UfHost => 3
    case UfPort => 6
    case _ => 7
  }

  const HOST_FIELDS: set<Field> := {UfUserInfo, UfHost, UfPort}

  /** The span of a field of the authority that begins at `off`. Before it is met, the host has
      the offset that the whole authority had. */
  function HostSpan(h: Slots, off: nat, f: Field): Span
    requires |h| == 7 && f in HOST_FIELDS
  {
    if h[HostFieldSlot(f)] == [] then Span(off, 0)
    else Span(off + Offset(h, HostFieldSlot(f)), |h[HostFieldSlot(f)]|)
  }

  predicate InHost(h: Slots, f: Field)
    requires |h| == 7
  {
    f in HOST_FIELDS && (f == UfHost || h[HostFieldSlot(f)] != [])
  }

  function HostTable(base: Table, h: Slots, off: nat): Table
    requires |h| == 7
  {
    map f | f in base.Keys + HOST_FIELDS && (if f in HOST_FIELDS then InHost(h, f) else true) ::
      if f in HOST_FIELDS then HostSpan(h, off, f) else base[f]
  }

  function HostFieldOf(s: HostState): Option<Field> {
    match s
    case Userinfo => Some(UfUserInfo)
    case Host => Some(UfHost)
    case HostV6 => Some(UfHost)
    case Port => Some(UfPort)
    case _ => None
  }

  lemma {:induction false} HostFieldState(s: HostState)
    requires s != HostDead
    ensures match HostFieldOf(s)
      case Some(f) => f in HOST_FIELDS && HostFieldSlot(f) == HostSlot(s)
      case None => HostSlot(s) !in {3, 6} && (HostSlot(s) == 0 ==> s == UserinfoStart)
  {
  }

  lemma HostSlotFilled(start: HostState, s: HostState, h: Slots, ch: byte)
    requires |h| == 7 && s != HostDead && HostInv(start, s, h) && ParseHostChar(s, ch) != HostDead
    requires HostFieldOf(ParseHostChar(s, ch)).Some?
    ensures var next := ParseHostChar(s, ch); var k := HostSlot(next);
      if s == next then h[k] != [] else h[k] == [] && EmptyFrom(h, k)
  {
  }

  lemma HostFieldsApart(f: Field, g: Field)
    requires f in HOST_FIELDS && g in HOST_FIELDS
    ensures HostFieldSlot(f) == HostFieldSlot(g) ==> f == g
    ensures HostFieldSlot(f) in {0, 3, 6}
  {
  }

  /** What the loop of the second machine does for one character. */
  function HostAdvance(table: Table, s: HostState, next: HostState, i: nat): Table
    requires UfHost in table
  {
    match HostFieldOf(next)
    case None => table
    case Some(f) =>
      if s == next && f in table then table[f := Span(table[f].off, table[f].len + 1)]
      else if f == UfHost then table[f := Span(i, table[f].len + 1)]
      else table[f := Span(i, 1)]
  }

  lemma HostSpanAfterPut(h: Slots, k: nat, ch: byte, g: Field, off: nat)
    requires |h| == 7 && k < 7 && EmptyFrom(h, k + 1) && g in HOST_FIELDS
    ensures InHost(Put(h, k, ch), g) <==> InHost(h, g) || HostFieldSlot(g) == k
    ensures HostSpan(Put(h, k, ch), off, g) ==
      if HostFieldSlot(g) == k then Span(off + Offset(h, k), |h[k]| + 1) else HostSpan(h, off, g)
  {
    if HostFieldSlot(g) <= k {
      PutKeepsOffset(h, k, ch, HostFieldSlot(g));
    }
  }

  lemma HostTableAfterPut(h: Slots, k: nat, ch: byte, base: Table, off: nat, f: Option<Field>)
    requires |h| == 7 && k < 7 && EmptyFrom(h, k + 1)
    requires if f.Some? then f.value in HOST_FIELDS && HostFieldSlot(f.value) == k else k !in {0, 3, 6}
    ensures HostTable(base, Put(h, k, ch), off) ==
      if f.Some? then HostTable(base, h, off)[f.value := Span(off + Offset(h, k), |h[k]| + 1)] else HostTable(base, h, off)
  {
    hide Offset, Put, InHost, HostSpan, HostFieldSlot, HOST_FIELDS, EmptyFrom;
    var v := Put(h, k, ch);
    forall g | g in HOST_FIELDS
      ensures InHost(v, g) <==> InHost(h, g) || f == Some(g)
      ensures HostSpan(v, off, g) == if f == Some(g) then Span(off + Offset(h, k), |h[k]| + 1) else HostSpan(h, off, g)
    {
      HostSpanAfterPut(h, k, ch, g, off);
      HostFieldsApart(g, g);
      if f.Some? {
        HostFieldsApart(f.value, g);
      }
    }
  }

  lemma HostTableAdvances(start: HostState, s: HostState, h: Slots, ch: byte, base: Table, off: nat)
    requires |h| == 7 && s != HostDead && HostInv(start, s, h) && ParseHostChar(s, ch) != HostDead
    requires start == UserinfoStart || start == HostStart
    ensures var next := ParseHostChar(s, ch);
      HostTable(base, Put(h, HostSlot(next), ch), off) == HostAdvance(HostTable(base, h, off), s, next, off + |Concat(h)|)
    ensures var f := HostFieldOf(s);
      f.Some? && ParseHostChar(s, ch) == s ==> f.value in HostTable(base, h, off)
  {
    hide ParseHostChar, HostInv, HostSlot, Concat, Offset, Put, EmptyFrom, HostFieldSlot, InHost, HostSpan;
    var next := ParseHostChar(s, ch);
    var k := HostSlot(next);
    HostStepKeeps(start, s, h, ch);
    HostFieldState(next);
    HostNeverStarts(s, ch);
    HostSlotInRange(next);
    HostTableAfterPut(h, k, ch, base, off, HostFieldOf(next));
    if HostFieldOf(next).Some? {
      HostSlotFilled(start, s, h, ch);
      HostSpanParts(h, off, HostFieldOf(next).value);
      if h[k] == [] {
        OffsetAtEnd(h, k);
      }
    }
  }

  lemma OffsetAtEnd(h: Slots, k: nat)
    requires k <= |h| && EmptyFrom(h, k)
    ensures Offset(h, k) == |Concat(h)|
  {
    EmptyTail(h, k);
  }

  lemma HostSpanParts(h: Slots, off: nat, f: Field)
    requires |h| == 7 && f in HOST_FIELDS
    ensures HostFieldSlot(f) < 7
    ensures InHost(h, f) <==> f == UfHost || h[HostFieldSlot(f)] != []
    ensures HostSpan(h, off, f) ==
      if h[HostFieldSlot(f)] == [] then Span(off, 0) else Span(off + Offset(h, HostFieldSlot(f)), |h[HostFieldSlot(f)]|)
  {
  }

  lemma HostNeverStarts(s: HostState, ch: byte)
    ensures ParseHostChar(s, ch) != UserinfoStart
  {
  }

  // ---- the whole table -----------------------------------------------------------------------

  lemma OffsetInHost(u: Slots, h: Slots, j: nat)
    requires |u| == 8 && |h| == 7 && j < 7
    ensures var r := AllSlots(u, h); r[2 + j] == h[j] && Offset(r, 2 + j) == Offset(u, 2) + Offset(h, j)
  {
    hide Concat;
    assert AllSlots(u, h)[..2 + j] == u[..2] + h[..j];
    ConcatAppend(u[..2], h[..j]);
  }

  lemma OffsetBehindHost(u: Slots, h: Slots, j: nat)
    requires |u| == 8 && |h| == 7 && Concat(h) == u[2] && 3 <= j < 8
    ensures var r := AllSlots(u, h); r[6 + j] == u[j] && Offset(r, 6 + j) == Offset(u, j)
  {
    hide Concat;
    assert AllSlots(u, h)[..6 + j] == u[..2] + h + u[3..j];
    ConcatAppend(u[..2] + h, u[3..j]);
    ConcatAppend(u[..2], h);
    assert u[..j] == u[..2] + [u[2]] + u[3..j];
    ConcatAppend(u[..2] + [u[2]], u[3..j]);
    ConcatAppend(u[..2], [u[2]]);
    ConcatOne(u[2]);
  }

  /** Where the slots of the two machines are among all slots. */
  lemma OffsetsOfAll(u: Slots, h: Slots)
    requires |u| == 8 && |h| == 7 && Concat(h) == u[2]
    ensures var r := AllSlots(u, h);
      && r[0] == u[0] && Offset(r, 0) == Offset(u, 0)
      && (forall j | 0 <= j < 7 :: r[2 + j] == h[j] && Offset(r, 2 + j) == Offset(u, 2) + Offset(h, j))
      && (forall j | 3 <= j < 8 :: r[6 + j] == u[j] && Offset(r, 6 + j) == Offset(u, j))
  {
    var r := AllSlots(u, h);
    assert r[..0] == u[..0] && r[0] == u[0];
    hide Concat, Offset, AllSlots;
    forall j | 0 <= j < 7
      ensures r[2 + j] == h[j] && Offset(r, 2 + j) == Offset(u, 2) + Offset(h, j)
    {
      OffsetInHost(u, h, j);
    }
    forall j | 3 <= j < 8
      ensures r[6 + j] == u[j] && Offset(r, 6 + j) == Offset(u, j)
    {
      OffsetBehindHost(u, h, j);
    }
  }

  /** A field that lies in the authority, and one that does not. */
  lemma FullField(u: Slots, h: Slots, f: Field)
    requires |u| == 8 && |h| == 7 && Concat(h) == u[2]
    ensures f in ALL_FIELDS
    ensures var r := AllSlots(u, h);
      if f in HOST_FIELDS then
        && (InFull(r, f) <==> h[HostFieldSlot(f)] != [])
        && FullSpan(r, f) == Span(Offset(u, 2) + Offset(h, HostFieldSlot(f)), |h[HostFieldSlot(f)]|)
      else
        && f in OUTER_FIELDS && f != UfHost
        && (InFull(r, f) <==> InOuter(u, f)) && FullSpan(r, f) == OuterSpan(u, f)
  {
    OffsetsOfAll(u, h);
    var r := AllSlots(u, h);
    hide AllSlots, Offset, Concat;
    match f
    case UfSchema =>
    case UfUserInfo => assert r[2] == r[2 + 0];
    case UfHost => assert r[5] == r[2 + 3];
    case UfPort => assert r[8] == r[2 + 6];
    case UfPath => assert r[9] == r[6 + 3];
    case UfQuery => assert r[11] == r[6 + 5];
    case UfFragment => assert r[13] == r[6 + 7];
  }

  lemma FullFromHost(u: Slots, h: Slots)
    requires |u| == 8 && |h| == 7 && Concat(h) == u[2] && h[3] != []
    ensures FullTable(AllSlots(u, h)) == HostTable(OuterTable(u), h, Offset(u, 2))
  {
    hide InFull, FullSpan, AllSlots, Offset, Concat, InOuter, OuterSpan, OUTER_FIELDS, ALL_FIELDS;
    forall f: Field
      ensures f in FullTable(AllSlots(u, h)) <==> f in HostTable(OuterTable(u), h, Offset(u, 2))
      ensures f in FullTable(AllSlots(u, h)) ==>
        FullTable(AllSlots(u, h))[f] == HostTable(OuterTable(u), h, Offset(u, 2))[f]
    {
      FullField(u, h, f);
      if f in HOST_FIELDS {
        HostSpanParts(h, Offset(u, 2), f);
      }
    }
  }

  lemma FullWithoutHost(u: Slots)
    requires |u| == 8 && u[2] == []
    ensures FullTable(AllSlots(u, HOST_SLOTS)) == OuterTable(u)
  {
    EmptyTail(HOST_SLOTS, 0);
    assert HOST_SLOTS[..0] == [] && !InOuter(u, UfHost);
    hide InFull, FullSpan, AllSlots, Offset, Concat, OuterSpan;
    forall f: Field
      ensures f in FullTable(AllSlots(u, HOST_SLOTS)) <==> f in OuterTable(u)
      ensures f in FullTable(AllSlots(u, HOST_SLOTS)) ==> FullTable(AllSlots(u, HOST_SLOTS))[f] == OuterTable(u)[f]
    {
      FullField(u, HOST_SLOTS, f);
    }
  }

  // ---- the loops of the source ---------------------------------------------------------------

  /** Notes one character of the authority in the table. */
  method NoteHostChar(u: Url, s: HostState, newS: HostState, p: nat)
    requires UfHost in u.fieldData
    requires HostFieldOf(s).Some? && s == newS ==> HostFieldOf(s).value in u.fieldData
    modifies u`fieldData
    ensures u.fieldData == HostAdvance(old(u.fieldData), s, newS, p) && UfHost in u.fieldData
  {
    match newS {
      case Host =>
        var len := u.fieldData[UfHost].len;
        u.fieldData := u.fieldData[UfHost := Span(if s != Host then p else u.fieldData[UfHost].off, len + 1)];
      case HostV6 =>
        var len := u.fieldData[UfHost].len;
        u.fieldData := u.fieldData[UfHost := Span(if s != HostV6 then p else u.fieldData[UfHost].off, len + 1)];
      case Port =>
        if s != Port {
          u.fieldData := u.fieldData[UfPort := Span(p, 0)];
        }
        u.fieldData := u.fieldData[UfPort := Span(u.fieldData[UfPort].off, u.fieldData[UfPort].len + 1)];
      case Userinfo =>
        if s != Userinfo {
          u.fieldData := u.fieldData[UfUserInfo := Span(p, 0)];
        }
        u.fieldData := u.fieldData[UfUserInfo := Span(u.fieldData[UfUserInfo].off, u.fieldData[UfUserInfo].len + 1)];
      case _ =>
    }
  }

  /** Splits the authority. The host first loses its length and gets its own span again. */
  method ParseHost(buf: seq<byte>, u: Url, foundAt: bool) returns (code: int)
    requires UfHost in u.fieldData && UfUserInfo !in u.fieldData && UfPort !in u.fieldData
    requires u.fieldData[UfHost].off + u.fieldData[UfHost].len <= |buf|
    modifies u
    ensures u.port == old(u.port)
    ensures var span := old(u.fieldData)[UfHost];
      var r := ScanHost(if foundAt then UserinfoStart else HostStart, buf[span.off..span.off + span.len]);
      && code == (if HostMayEnd(r.state) then 0 else 1)
      && (code == 0 ==> u.fieldData == HostTable(old(u.fieldData), r.slots, span.off))
  {
    hide ParseHostChar, HostInv, HostSlot, Concat, Put, HostTable;
    ghost var base := u.fieldData;
    var off := u.fieldData[UfHost].off;
    var buflen := off + u.fieldData[UfHost].len;
    ghost var text := buf[off..buflen];
    u.fieldData := u.fieldData[UfHost := Span(off, 0)];
    var s := if foundAt then UserinfoStart else HostStart;
    ghost var start := s;
    HostTableStart(base, off);
    var p := off;
    assert text[..0] == [];
    while p < buflen
      invariant off <= p <= buflen
      invariant s == ScanHost(start, text[..p - off]).state && s != HostDead
      invariant u.fieldData == HostTable(base, ScanHost(start, text[..p - off]).slots, off) && UfHost in u.fieldData
      invariant u.port == old(u.port)
    {
      ghost var before := ScanHost(start, text[..p - off]);
      assert text[..p + 1 - off][..p - off] == text[..p - off] && text[p - off] == buf[p];
      ScanHostKeeps(start, text[..p - off]);
      var newS := ParseHostChar(s, buf[p]);
      if newS == HostDead {
        HostStaysDead(start, text, p + 1 - off);
        return 1;
      }
      HostTableAdvances(start, s, before.slots, buf[p], base, off);
      NoteHostChar(u, s, newS, p);
      s := newS;
      p := p + 1;
    }
    assert text[..buflen - off] == text;
    return if HostMayEnd(s) then 0 else 1;
  }

  lemma HostTableStart(base: Table, off: nat)
    requires UfHost in base && base[UfHost].off == off && UfUserInfo !in base && UfPort !in base
    ensures HostTable(base, HOST_SLOTS, off) == base[UfHost := Span(off, 0)]
  {
  }

  lemma {:induction false} HostStaysDead(start: HostState, text: seq<byte>, n: nat)
    requires n <= |text| && ScanHost(start, text[..n]).state == HostDead
    ensures ScanHost(start, text).state == HostDead
    decreases |text|
  {
    if n == |text| {
      assert text[..n] == text;
    } else {
      assert text[..|text| - 1][..n] == text[..n];
      HostStaysDead(start, text[..|text| - 1], n);
    }
  }

  lemma {:induction false} UrlStaysDead(buf: seq<byte>, n: nat)
    requires n <= |buf| && ScanUrl(buf[..n]).state == UrlDead
    ensures ScanUrl(buf).state == UrlDead
    decreases |buf|
  {
    if n == |buf| {
      assert buf[..n] == buf;
    } else {
      assert buf[..|buf| - 1][..n] == buf[..n];
      UrlStaysDead(buf[..|buf| - 1], n);
    }
  }

  /** The decimal number that the digits of a port denote. */
  method PortNumber(buf: seq<byte>, span: Span) returns (v: nat)
    requires span.off + span.len <= |buf|
    ensures v == PortValue(buf[span.off..span.off + span.len])
  {
    v := 0;
    ghost var text := buf[span.off..span.off + span.len];
    for i := 0 to span.len
      invariant v == PortValue(text[..i])
    {
      assert text[..i + 1][..i] == text[..i] && text[i] == buf[span.off + i];
      v := v * 10 + if IsNum(buf[span.off + i]) then buf[span.off + i] - 48 else 0;
    }
    assert text[..span.len] == text;
  }

  /** The first loop: the fields up to the authority as a whole. */
  method ScanFields(buf: seq<byte>, u: Url) returns (dead: bool, foundAt: bool)
    requires u.fieldData == map[]
    modifies u
    ensures u.port == old(u.port)
    ensures var r := ScanUrl(buf);
      && (dead <==> r.state == UrlDead)
      && (!dead ==> u.fieldData == OuterTable(r.slots) && (foundAt <==> AT in r.slots[2]))
  {
    hide ParseUrlChar, UrlInv, UrlSlot, Concat, Put, OuterTable, OldField;
    var s := BeforeUrl;
    var oldUf: Option<Field> := None;
    dead, foundAt := false, false;
    FirstTable();
    assert buf[..0] == [];
    for p := 0 to |buf|
      invariant s == ScanUrl(buf[..p]).state && s != UrlDead
      invariant u.fieldData == OuterTable(ScanUrl(buf[..p]).slots)
      invariant foundAt <==> AT in ScanUrl(buf[..p]).slots[2]
      invariant OldField(oldUf, s) && u.port == old(u.port)
    {
      ghost var before := ScanUrl(buf[..p]);
      assert buf[..p + 1][..p] == buf[..p];
      ScanUrlKeeps(buf[..p]);
      var next := ParseUrlChar(s, buf[p]);
      if next == UrlDead {
        UrlStaysDead(buf, p + 1);
        return true, foundAt;
      }
      TableAdvances(s, before.slots, buf[p], oldUf);
      OldFieldNext(s, buf[p], oldUf);
      AtFound(s, before.slots, buf[p]);
      if next == ServerWithAt {
        foundAt := true;
      }
      s := next;
      var uf := FieldOf(s);
      if uf == None {
        continue;
      }
      if uf == oldUf && uf.value in u.fieldData {
        u.fieldData := u.fieldData[uf.value := Span(u.fieldData[uf.value].off, u.fieldData[uf.value].len + 1)];
        continue;
      }
      u.fieldData := u.fieldData[uf.value := Span(p, 1)];
      oldUf := uf;
    }
    assert buf[..|buf|] == buf;
  }

  lemma FirstTable()
    ensures OuterTable(URL_SLOTS) == map[] && OldField(None, BeforeUrl)
  {
  }

  /** What the scan of the whole URL says about the fields that are checked. */
  lemma ScannedUrl(buf: seq<byte>)
    requires ScanUrl(buf).state != UrlDead
    ensures var u := ScanUrl(buf).slots;
      && Concat(u) == buf
      && (forall f :: f in OuterTable(u) <==> f in OUTER_FIELDS && u[OuterSlot(f)] != [])
      && (u[2] != [] ==> u[0] != [])
  {
    ScanUrlKeeps(buf);
    OuterKeys(ScanUrl(buf).slots);
    hide OuterTable, UrlFrom, Concat;
  }

  lemma AuthorityScanned(buf: seq<byte>)
    requires ScanUrl(buf).state != UrlDead && ScanUrl(buf).slots[2] != []
    ensures var u := ScanUrl(buf).slots;
      var h := ScanHost(if AT in u[2] then UserinfoStart else HostStart, u[2]);
      HostMayEnd(h.state) ==> Concat(h.slots) == u[2] && h.slots[3] != []
  {
    hide UrlFrom, HostFrom, Concat, IsUserPart, All;
    var u := ScanUrl(buf).slots;
    ScanHostKeeps(if AT in u[2] then UserinfoStart else HostStart, u[2]);
  }

  /** Reads the port, if there is one, and refuses it if it does not fit. */
  method CheckPort(buf: seq<byte>, u: Url, ghost r: Slots) returns (code: int)
    requires |r| == 14 && Concat(r) == buf && u.fieldData == FullTable(r) && u.port == 0
    modifies u`port
    ensures code == if PortValue(r[8]) > 0xffff then 1 else 0
    ensures code == 0 ==> u.port == PortValue(r[8])
  {
    hide Concat, Offset;
    assert UfPort in FullTable(r) <==> r[8] != [];
    if UfPort in u.fieldData {
      SlotInPlace(r, 8);
      var v := PortNumber(buf, u.fieldData[UfPort]);
      if v > 0xffff {
        return 1;
      }
      u.port := v;
    }
    return 0;
  }

  /** Splits a URL that is not the target of a CONNECT request. Offsets and lengths have 16 bits
      in the source, which is enough up to this length. */
  method ParseUrl(buf: seq<byte>, u: Url) returns (code: int)
    requires |buf| <= 0xffff
    modifies u
    ensures code == if Split(buf).Some? then 0 else 1
    ensures code == 0 ==> u.fieldData == FullTable(Split(buf).value) && u.port == PortValue(Split(buf).value[8]) <= 0xffff
  {
    hide UrlFrom, HostFrom, OuterTable, FullTable, HostTable, Concat, PortValue, Offset, AllSlots;
    u.port, u.fieldData := 0, map[];
    var dead, foundAt := ScanFields(buf, u);
    if dead {
      return 1;
    }
    ghost var outer := ScanUrl(buf).slots;
    ScannedUrl(buf);
    if UfSchema in u.fieldData && u.fieldData.Keys != {UfSchema, UfPath} && UfHost !in u.fieldData {
      assert outer[3] == [] || outer[5] != [] || outer[7] != [];
      return 1;
    }
    ghost var inner := HOST_SLOTS;
    if UfSchema in u.fieldData && UfHost in u.fieldData {
      AuthorityInPlace(outer);
      AuthorityScanned(buf);
      var host := ParseHost(buf, u, foundAt);
      if host != 0 {
        return 1;
      }
      inner := ScanHost(if foundAt then UserinfoStart else HostStart, outer[2]).slots;
      FullFromHost(outer, inner);
    } else {
      assert outer[2] == [];
      FullWithoutHost(outer);
      NoAuthority();
    }
    ConcatAll(outer, inner);
    PortSlot(outer, inner);
    code := CheckPort(buf, u, AllSlots(outer, inner));
  }

  lemma PortSlot(u: Slots, h: Slots)
    requires |u| == 8 && |h| == 7
    ensures AllSlots(u, h)[8] == h[6]
  {
  }

  lemma NoAuthority()
    ensures Concat(HOST_SLOTS) == [] && PortValue([]) == 0
  {
    EmptyTail(HOST_SLOTS, 0);
    assert HOST_SLOTS[..0] == [];
  }

  lemma OuterKeys(u: Slots)
    requires |u| == 8
    ensures forall f :: f in OuterTable(u) <==> f in OUTER_FIELDS && u[OuterSlot(f)] != []
  {
  }

  lemma InTable(u: Slots, f: Field)
    requires |u| == 8
    ensures f in OuterTable(u) <==> InOuter(u, f)
    ensures f in OuterTable(u) ==> OuterTable(u)[f] == OuterSpan(u, f)
  {
    hide OuterSlot, Offset;
  }

  lemma OuterHost(u: Slots)
    requires |u| == 8 && u[2] != []
    ensures InOuter(u, UfHost) && !InOuter(u, UfUserInfo) && !InOuter(u, UfPort)
    ensures OuterSpan(u, UfHost) == Span(Offset(u, 2), |u[2]|)
  {
    hide Offset;
  }

  lemma AuthorityInPlace(u: Slots)
    requires |u| == 8 && u[2] != []
    ensures UfHost in OuterTable(u) && UfUserInfo !in OuterTable(u) && UfPort !in OuterTable(u)
    ensures var span := OuterTable(u)[UfHost];
      span.off == Offset(u, 2) && span.off + span.len <= |Concat(u)| && Concat(u)[span.off..span.off + span.len] == u[2]
  {
    hide *;
    SlotInPlace(u, 2);
    InTable(u, UfHost);
    InTable(u, UfUserInfo);
    InTable(u, UfPort);
    OuterHost(u);
  }

  lemma {:induction false} PortOfDecimal(n: nat)
    ensures PortValue(Decimal(n)) == n
    decreases n
  {
    var s := Decimal(n);
    if n < 10 {
      assert s[..0] == [];
    } else {
      assert s[..|s| - 1] == Decimal(n / 10);
      PortOfDecimal(n / 10);
    }
  }

  // ---- a URL put together --------------------------------------------------------------------

  datatype Parts = Parts(
    scheme: seq<byte>,
    user: Option<seq<byte>>,
    host: seq<byte>,
    port: Option<nat>,
    path: seq<byte>,
    query: Option<seq<byte>>,
    fragment: Option<seq<byte>>)

  function TextOf(part: Option<seq<byte>>): seq<byte> {
    if part.Some? then part.value else []
  }

  function MarkOf(mark: byte, isThere: bool): seq<byte> {
    if isThere then [mark] else []
  }

  function PortText(p: Parts): seq<byte> {
    if p.port.Some? then Decimal(p.port.value) else []
  }

  /** `scheme://user@host:port/path?query#fragment` */
  function UrlText(p: Parts): seq<byte> {
    p.scheme + [58, 47, 47]
    + (TextOf(p.user) + MarkOf(64, p.user.Some?) + p.host + MarkOf(58, p.port.Some?) + PortText(p))
    + (p.path + MarkOf(63, p.query.Some?) + TextOf(p.query) + MarkOf(35, p.fragment.Some?) + TextOf(p.fragment))
  }

  predicate GoodParts(p: Parts) {
    && p.scheme != [] && IsAlpha(p.scheme[0]) && All(p.scheme, IsSchemeChar)
    && All(TextOf(p.user), IsUserinfoChar)
    && p.host != [] && All(p.host, IsHostChar)
    && (p.port.Some? ==> p.port.value <= 0xffff)
    && (p.path != [] ==> p.path[0] == 47 && All(p.path, IsUrlChar))
    && All(TextOf(p.query), IsQueryChar)
    && All(TextOf(p.fragment), IsFragmentChar) && (TextOf(p.fragment) != [] ==> TextOf(p.fragment)[0] != 35)
    && (p.fragment.Some? ==> p.path != [] || p.query.Some?)
  }

  function PartSlots(p: Parts): (r: Slots)
    ensures |r| == 14
  {
    [p.scheme, SCHEME_END]
    + [TextOf(p.user), MarkOf(AT, p.user.Some?), [], p.host, [], MarkOf(COLON, p.port.Some?), PortText(p)]
    + [p.path, MarkOf(QUESTION, p.query.Some?), TextOf(p.query), MarkOf(HASH, p.fragment.Some?), TextOf(p.fragment)]
  }

  lemma PartsAreUrl(p: Parts)
    requires GoodParts(p)
    ensures IsUrl(PartSlots(p))
  {
    var r := PartSlots(p);
    if p.port.Some? {
      PortOfDecimal(p.port.value);
    }
    var h := r[2..9];
    assert h[0] == TextOf(p.user) && h[1] == MarkOf(AT, p.user.Some?) && h[2] == [] && h[3] == p.host && h[4] == [];
    assert h[5] == MarkOf(COLON, p.port.Some?) && h[6] == PortText(p);
    hide PortValue, Decimal, PartSlots;
    assert All(h[6], IsNum);
    assert IsAuthority(h);
    assert IsTail(r);
  }

  lemma ConcatParts(p: Parts)
    ensures Concat(PartSlots(p)) == UrlText(p)
  {
    var h := [TextOf(p.user), MarkOf(AT, p.user.Some?), [], p.host, [], MarkOf(COLON, p.port.Some?), PortText(p)];
    var b := [p.path, MarkOf(QUESTION, p.query.Some?), TextOf(p.query), MarkOf(HASH, p.fragment.Some?), TextOf(p.fragment)];
    ConcatAppend([p.scheme, SCHEME_END] + h, b);
    ConcatAppend([p.scheme, SCHEME_END], h);
    ConcatTwo(p.scheme, SCHEME_END);
    ConcatHost(h);
    ConcatFive(b);
    hide Concat, TextOf, MarkOf, PortText;
    assert Concat(h) == h[0] + h[1] + ([] + p.host + [] + h[5] + h[6]);
    assert Concat(h) == h[0] + h[1] + p.host + h[5] + h[6];
  }

  /** The table has the field where the part is, and does not have it if the part is empty. */
  predicate Finds(table: Table, buf: seq<byte>, f: Field, part: seq<byte>) {
    if part == [] then f !in table
    else f in table && table[f].off + table[f].len <= |buf| && buf[table[f].off..table[f].off + table[f].len] == part
  }

  lemma FindsSlot(r: Slots, f: Field)
    requires |r| == 14
    ensures Finds(FullTable(r), Concat(r), f, r[FullSlot(f)])
  {
    SlotInPlace(r, FullSlot(f));
    hide Concat, Offset;
    assert f in ALL_FIELDS;
  }

  /** The part that a field is to name. */
  function PartOf(p: Parts, f: Field): seq<byte> {
    match f
    case UfSchema => p.scheme
    case UfUserInfo => TextOf(p.user)
    case UfHost => p.host
    case UfPort => PortText(p)
    case UfPath => p.path
    case UfQuery => TextOf(p.query)
    case UfFragment => TextOf(p.fragment)
  }

  lemma SlotOfPart(p: Parts, f: Field)
    ensures PartSlots(p)[FullSlot(f)] == PartOf(p, f)
  {
    hide TextOf, PortText, MarkOf;
  }

  /** Each part of a URL that is put together is found under its name, and the port is the number
      that its digits mean. */
  lemma UrlOfParts(p: Parts, f: Field)
    requires GoodParts(p)
    ensures Split(UrlText(p)).Some? && Finds(FullTable(Split(UrlText(p)).value), UrlText(p), f, PartOf(p, f))
    ensures p.port.Some? ==> PortValue(Split(UrlText(p)).value[8]) == p.port.value
  {
    hide *;
    PartsAreUrl(p);
    ConcatParts(p);
    SplitComplete(PartSlots(p));
    FindsSlot(PartSlots(p), f);
    SlotOfPart(p, f);
    if p.port.Some? {
      PortIsSlot(p);
    }
  }

  lemma PortIsSlot(p: Parts)
    requires p.port.Some?
    ensures PortValue(PartSlots(p)[8]) == p.port.value
  {
    PortOfDecimal(p.port.value);
    SlotOfPart(p, UfPort);
    hide PartSlots, PortValue, Decimal;
  }
}
