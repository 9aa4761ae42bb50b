/** Splitting a URL into its fields by two character machines. */
module UrlParser {
  import opened Common
  import opened Slots

  const PERCENT: byte := 37
  const SLASH: byte := 47
  const COLON: byte := 58
  const QUESTION: byte := 63
  const AT: byte := 64
  const HASH: byte := 35
  const STAR: byte := 42
  const OPEN_BRACKET: byte := 91
  const CLOSE_BRACKET: byte := 93

  // ---- character classes, strict mode --------------------------------------------------------

  predicate IsNum(ch: byte) {
    48 <= ch <= 57
  }

  predicate IsAlpha(ch: byte) {
    65 <= ch <= 90 || 97 <= ch <= 122
  }

  predicate IsHex(ch: byte) {
    IsNum(ch) || 65 <= ch <= 70 || 97 <= ch <= 102
  }

  predicate IsSchemeChar(ch: byte) {
    IsAlpha(ch) || IsNum(ch) || ch in {43, 45, 46}
  }

  predicate IsUserinfoChar(ch: byte) {
    IsAlpha(ch) || IsNum(ch) || ch in {33, 36, 37, 38, 39, 40, 41, 42, 43, 44, 45, 46, 58, 59, 61, 95, 126}
  }

  predicate IsHostChar(ch: byte) {
    IsAlpha(ch) || IsNum(ch) || ch == 45 || ch == 46
  }

  /** The bits of `normal_url_char`: the printable characters but for the blank, '#' and '?'. */
  predicate IsUrlChar(ch: byte) {
    33 <= ch <= 126 && ch != HASH && ch != QUESTION
  }

  // ---- the machine for the whole URL ---------------------------------------------------------

  datatype UrlState =
    | BeforeUrl
    | Schema
    | SchemaSlash
    | SchemaSlashSlash
    | ServerStart
    | Server
    | ServerWithAt
    | Path
    | QueryStart
    | Query
    | FragmentStart
    | Fragment
    | UrlDead

  function ServerChar(ch: byte): UrlState {
    if ch == SLASH then Path
    else if ch == QUESTION then QueryStart
    else if ch == AT then ServerWithAt
    else if IsUserinfoChar(ch) || ch == OPEN_BRACKET || ch == CLOSE_BRACKET then Server
    else UrlDead
  }

  function ParseUrlChar(s: UrlState, ch: byte): UrlState {
    if ch in {32, 13, 10, 9, 12} then UrlDead
    else
      match s
      case BeforeUrl =>
        if ch == SLASH || ch == STAR then Path else if IsAlpha(ch) then Schema else UrlDead
      case Schema =>
        if IsSchemeChar(ch) then Schema else if ch == COLON then SchemaSlash else UrlDead
      case SchemaSlash => if ch == SLASH then SchemaSlashSlash else UrlDead
      case SchemaSlashSlash => if ch == SLASH then ServerStart else UrlDead
      case ServerWithAt => if ch == AT then UrlDead else ServerChar(ch)
      case ServerStart => ServerChar(ch)
      case Server => ServerChar(ch)
      case Path =>
        if IsUrlChar(ch) then Path else if ch == QUESTION then QueryStart else if ch == HASH then FragmentStart else UrlDead
      case QueryStart =>
        if IsUrlChar(ch) || ch == QUESTION then Query else if ch == HASH then FragmentStart else UrlDead
      case Query =>
        if IsUrlChar(ch) || ch == QUESTION then Query else if ch == HASH then FragmentStart else UrlDead
      case FragmentStart =>
        if IsUrlChar(ch) || ch == QUESTION then Fragment else if ch == HASH then FragmentStart else UrlDead
      case Fragment =>
        if IsUrlChar(ch) || ch == QUESTION || ch == HASH then Fragment else UrlDead
      case UrlDead => UrlDead
  }

  /** The slot that a character belongs to by the state it leads to: scheme, "://", authority,
      path, "?", query, "#", fragment. */
  function UrlSlot(s: UrlState): nat {
    match s
    case BeforeUrl => 0
    case Schema => 0
    case SchemaSlash => 1
    case SchemaSlashSlash => 1
    case ServerStart => 1
    case Server => 2
    case ServerWithAt => 2
    case Path => 3
    case QueryStart => 4
    case Query => 5
    case FragmentStart => 6
    case Fragment => 7
    case UrlDead => 7
  }

  const URL_SLOTS: Slots := [[], [], [], [], [], [], [], []]

  datatype Scan<S> = Scan(state: S, slots: Slots)

  /** The scan of more characters. */
  function UrlFrom(r: Scan<UrlState>, buf: seq<byte>): (next: Scan<UrlState>)
    requires |r.slots| == 8
    ensures |next.slots| == 8
  {
    if buf == [] then r
    else
      var n := |buf| - 1;
      var before := UrlFrom(r, buf[..n]);
      var s := ParseUrlChar(before.state, buf[n]);
      Scan(s, if s == UrlDead then before.slots else Put(before.slots, UrlSlot(s), buf[n]))
  }

  const URL_START: Scan<UrlState> := Scan(BeforeUrl, URL_SLOTS)

  function ScanUrl(buf: seq<byte>): (r: Scan<UrlState>)
    ensures |r.slots| == 8
  {
    UrlFrom(URL_START, buf)
  }

  // ---- the machine for the authority ---------------------------------------------------------

  datatype HostState =
    | UserinfoStart
    | Userinfo
    | HostStart
    | HostV6Start
    | Host
    | HostV6
    | HostV6End
    | PortStart
    | Port
    | HostDead

  function ParseHostChar(s: HostState, ch: byte): HostState {
    match s
    case UserinfoStart => if ch == AT then HostStart else if IsUserinfoChar(ch) then Userinfo else HostDead
    case Userinfo => if ch == AT then HostStart else if IsUserinfoChar(ch) then Userinfo else HostDead
    case HostStart => if ch == OPEN_BRACKET then HostV6Start else if IsHostChar(ch) then Host else HostDead
    case Host => if IsHostChar(ch) then Host else if ch == COLON then PortStart else HostDead
    case HostV6End => if ch == COLON then PortStart else HostDead
    case HostV6 => if ch == CLOSE_BRACKET then HostV6End else if IsHex(ch) || ch == COLON || ch == 46 then HostV6 else HostDead
    case HostV6Start => if IsHex(ch) || ch == COLON || ch == 46 then HostV6 else HostDead
    case PortStart => if IsNum(ch) then Port else HostDead
    case Port => if IsNum(ch) then Port else HostDead
    case HostDead => HostDead
  }

  /** The slots of an authority: user information, "@", "[", host, "]", ":", port. */
  function HostSlot(s: HostState): nat {
    match s
    case UserinfoStart => 0
    case Userinfo => 0
    case HostStart => 1
    case HostV6Start => 2
    case Host => 3
    case HostV6 => 3
    case HostV6End => 4
    case PortStart => 5
    case Port => 6
    case HostDead => 6
  }

  const HOST_SLOTS: Slots := [[], [], [], [], [], [], []]

  function HostFrom(r: Scan<HostState>, buf: seq<byte>): (next: Scan<HostState>)
    requires |r.slots| == 7
    ensures |next.slots| == 7
  {
    if buf == [] then r
    else
      var n := |buf| - 1;
      var before := HostFrom(r, buf[..n]);
      var s := ParseHostChar(before.state, buf[n]);
      Scan(s, if s == HostDead then before.slots else Put(before.slots, HostSlot(s), buf[n]))
  }

  function ScanHost(start: HostState, buf: seq<byte>): (r: Scan<HostState>)
    ensures |r.slots| == 7
  {
    HostFrom(Scan(start, HOST_SLOTS), buf)
  }

  predicate HostMayEnd(s: HostState) {
    s == Host || s == HostV6End || s == Port
  }

  function PortValue(s: seq<byte>): nat {
    if s == [] then 0 else PortValue(s[..|s| - 1]) * 10 + if IsNum(s[|s| - 1]) then s[|s| - 1] - 48 else 0
  }

  // ---- the whole split -----------------------------------------------------------------------

  /** All slots of a URL in their order. Fields: scheme 0, user information 2, host 5, port 8,
      path 9, query 11, fragment 13; the others hold the delimiters. */
  function AllSlots(u: Slots, h: Slots): (r: Slots)
    requires |u| == 8 && |h| == 7
    ensures |r| == 14
  {
    u[..2] + h + u[3..]
  }

  /** What a successful split finds: the slots. A scheme must come with a host, except for a URL
      that has nothing but a scheme and a path. */
  function Split(buf: seq<byte>): Option<Slots> {
    var r := ScanUrl(buf);
    var u := r.slots;
    if r.state == UrlDead then None
    else if u[0] == [] then Some(AllSlots(u, HOST_SLOTS))
    else if u[2] == [] then
      if u[3] != [] && u[5] == [] && u[7] == [] then Some(AllSlots(u, HOST_SLOTS)) else None
    else
      var h := ScanHost(if AT in u[2] then UserinfoStart else HostStart, u[2]);
      if !HostMayEnd(h.state) || PortValue(h.slots[6]) > 0xffff then None
      else Some(AllSlots(u, h.slots))
  }

  // ---- what the machines keep ----------------------------------------------------------------

  const SCHEME_END: seq<byte> := [COLON, SLASH, SLASH]

  predicate All(s: seq<byte>, p: byte -> bool) {
    forall i | 0 <= i < |s| :: p(s[i])
  }

  predicate IsScheme(s: seq<byte>) {
    s != [] && IsAlpha(s[0]) && All(s, IsSchemeChar)
  }

  predicate IsAuthorityChar(ch: byte) {
    IsUserinfoChar(ch) || ch == OPEN_BRACKET || ch == CLOSE_BRACKET || ch == AT
  }

  predicate IsQueryChar(ch: byte) {
    IsUrlChar(ch) || ch == QUESTION
  }

  predicate IsFragmentChar(ch: byte) {
    IsUrlChar(ch) || ch == QUESTION || ch == HASH
  }

  predicate IsHash(ch: byte) {
    ch == HASH
  }

  /** A path begins with a slash; without a scheme before it there is one, and it may also begin
      with a star. */
  predicate IsPath(s: seq<byte>, afterScheme: bool) {
    if s == [] then afterScheme else (s[0] == SLASH || (s[0] == STAR && !afterScheme)) && All(s, IsUrlChar)
  }

  /** Nothing before the path, or a scheme with its delimiter and maybe an authority. */
  predicate IsHead(u: Slots)
    requires |u| == 8
  {
    if u[0] == [] then u[1] == [] && u[2] == []
    else IsScheme(u[0]) && u[1] == SCHEME_END && All(u[2], IsAuthorityChar)
  }

  predicate IsBody(u: Slots)
    requires |u| == 8
  {
    && IsHead(u) && IsPath(u[3], u[0] != [])
    && (u[4] == [] || u[4] == [QUESTION]) && All(u[5], IsQueryChar)
    && (u[5] != [] ==> u[4] != [])
    && All(u[6], IsHash) && All(u[7], IsFragmentChar)
    && (u[7] != [] ==> u[6] != [] && u[7][0] != HASH)
    && (u[6] != [] ==> u[3] != [] || u[4] != [])
  }

  /** What the slots hold in each state. */
  predicate UrlInv(s: UrlState, u: Slots)
    requires |u| == 8
  {
    match s
    case BeforeUrl => EmptyFrom(u, 0)
    case Schema => EmptyFrom(u, 1) && IsScheme(u[0])
    case SchemaSlash => EmptyFrom(u, 2) && IsScheme(u[0]) && u[1] == SCHEME_END[..1]
    case SchemaSlashSlash => EmptyFrom(u, 2) && IsScheme(u[0]) && u[1] == SCHEME_END[..2]
    case ServerStart => EmptyFrom(u, 2) && IsScheme(u[0]) && u[1] == SCHEME_END
    case Server => EmptyFrom(u, 3) && u[2] != [] && IsHead(u) && u[0] != []
    case ServerWithAt => EmptyFrom(u, 3) && u[2] != [] && IsHead(u) && u[0] != []
    case Path => EmptyFrom(u, 4) && u[3] != [] && IsBody(u)
    case QueryStart => EmptyFrom(u, 5) && u[4] != [] && IsBody(u)
    case Query => EmptyFrom(u, 6) && u[5] != [] && IsBody(u)
    case FragmentStart => EmptyFrom(u, 7) && u[6] != [] && IsBody(u)
    case Fragment => u[7] != [] && IsBody(u)
    case UrlDead => true
  }

  lemma AllMore(s: seq<byte>, ch: byte, p: byte -> bool)
    ensures All(s + [ch], p) <==> All(s, p) && p(ch)
  {
    if All(s + [ch], p) {
      assert (s + [ch])[|s|] == ch;
      forall i | 0 <= i < |s|
        ensures p(s[i])
      {
        assert (s + [ch])[i] == s[i];
      }
    }
  }

  /** One more character for a text of one class. */
  lemma TextMore(s: seq<byte>, ch: byte, p: byte -> bool)
    ensures All(s + [ch], p) <==> All(s, p) && p(ch)
    ensures (s + [ch])[0] == if s == [] then ch else s[0]
  {
    AllMore(s, ch, p);
  }

  lemma StepInScheme(s: UrlState, u: Slots, ch: byte)
    requires |u| == 8 && UrlInv(s, u) && UrlSlot(ParseUrlChar(s, ch)) <= 1 && ParseUrlChar(s, ch) != BeforeUrl
    ensures var next := ParseUrlChar(s, ch); UrlInv(next, Put(u, UrlSlot(next), ch)) && EmptyFrom(u, UrlSlot(next) + 1)
  {
    TextMore(u[0], ch, IsSchemeChar);
    assert SCHEME_END[..1] + [SLASH] == SCHEME_END[..2] && SCHEME_END[..2] + [SLASH] == SCHEME_END;
    assert [] + [COLON] == SCHEME_END[..1];
  }

  lemma StepInAuthority(s: UrlState, u: Slots, ch: byte)
    requires |u| == 8 && UrlInv(s, u) && UrlSlot(ParseUrlChar(s, ch)) == 2
    ensures var next := ParseUrlChar(s, ch); UrlInv(next, Put(u, UrlSlot(next), ch)) && EmptyFrom(u, UrlSlot(next) + 1)
  {
    TextMore(u[2], ch, IsAuthorityChar);
  }

  lemma StepInPath(s: UrlState, u: Slots, ch: byte)
    requires |u| == 8 && UrlInv(s, u) && ParseUrlChar(s, ch) == Path
    ensures UrlInv(Path, Put(u, 3, ch)) && EmptyFrom(u, 4)
  {
    TextMore(u[3], ch, IsUrlChar);
  }

  lemma StepInQuery(s: UrlState, u: Slots, ch: byte)
    requires |u| == 8 && UrlInv(s, u) && (ParseUrlChar(s, ch) == QueryStart || ParseUrlChar(s, ch) == Query)
    ensures var next := ParseUrlChar(s, ch); UrlInv(next, Put(u, UrlSlot(next), ch)) && EmptyFrom(u, UrlSlot(next) + 1)
  {
    TextMore(u[5], ch, IsQueryChar);
  }

  lemma StepInFragment(s: UrlState, u: Slots, ch: byte)
    requires |u| == 8 && UrlInv(s, u) && (ParseUrlChar(s, ch) == FragmentStart || ParseUrlChar(s, ch) == Fragment)
    ensures var next := ParseUrlChar(s, ch); UrlInv(next, Put(u, UrlSlot(next), ch)) && EmptyFrom(u, UrlSlot(next) + 1)
  {
    TextMore(u[6], ch, IsHash);
    TextMore(u[7], ch, IsFragmentChar);
  }

  lemma UrlStepKeeps(s: UrlState, u: Slots, ch: byte)
    requires |u| == 8 && UrlInv(s, u) && ParseUrlChar(s, ch) != UrlDead
    ensures var next := ParseUrlChar(s, ch); UrlInv(next, Put(u, UrlSlot(next), ch)) && EmptyFrom(u, UrlSlot(next) + 1)
  {
    NeverBefore(s, ch);
    hide UrlInv, ParseUrlChar;
    match ParseUrlChar(s, ch)
    case Schema => StepInScheme(s, u, ch);
    case SchemaSlash => StepInScheme(s, u, ch);
    case SchemaSlashSlash => StepInScheme(s, u, ch);
    case ServerStart => StepInScheme(s, u, ch);
    case Server => StepInAuthority(s, u, ch);
    case ServerWithAt => StepInAuthority(s, u, ch);
    case Path => StepInPath(s, u, ch);
    case QueryStart => StepInQuery(s, u, ch);
    case Query => StepInQuery(s, u, ch);
    case FragmentStart => StepInFragment(s, u, ch);
    case Fragment => StepInFragment(s, u, ch);
  }

  lemma NeverBefore(s: UrlState, ch: byte)
    ensures ParseUrlChar(s, ch) != BeforeUrl
  {
  }

  lemma {:induction false} ScanUrlKeeps(buf: seq<byte>)
    ensures var r := ScanUrl(buf); r.state != UrlDead ==> UrlInv(r.state, r.slots) && Concat(r.slots) == buf
  {
    hide UrlInv, ParseUrlChar, UrlSlot;
    if buf == [] {
      EmptyTail(URL_SLOTS, 0);
      StartInv();
    } else {
      var n := |buf| - 1;
      ScanUrlKeeps(buf[..n]);
      var r := ScanUrl(buf[..n]);
      DeadStays(buf[n]);
      if ScanUrl(buf).state != UrlDead {
        UrlStepKeeps(r.state, r.slots, buf[n]);
        SlotInRange(ScanUrl(buf).state);
        PutAppends(r.slots, UrlSlot(ScanUrl(buf).state), buf[n]);
        assert buf[..n] + [buf[n]] == buf;
      }
    }
  }

  lemma StartInv()
    ensures UrlInv(BeforeUrl, URL_SLOTS) && URL_SLOTS[..0] == []
  {
  }

  lemma DeadStays(ch: byte)
    ensures ParseUrlChar(UrlDead, ch) == UrlDead
  {
  }

  lemma SlotInRange(s: UrlState)
    ensures UrlSlot(s) < 8
  {
  }

  predicate IsV6Char(ch: byte) {
    IsHex(ch) || ch == COLON || ch == 46
  }

  /** A name, or an address in brackets. */
  predicate IsHost(h: Slots)
    requires |h| == 7
  {
    || (h[2] == [] && h[4] == [] && h[3] != [] && All(h[3], IsHostChar))
    || (h[2] == [OPEN_BRACKET] && h[4] == [CLOSE_BRACKET] && h[3] != [] && All(h[3], IsV6Char))
  }

  predicate IsUserPart(h: Slots, start: HostState)
    requires |h| == 7
  {
    All(h[0], IsUserinfoChar) && if start == HostStart then h[0] == [] && h[1] == [] else h[1] == [AT]
  }

  predicate HostInv(start: HostState, s: HostState, h: Slots)
    requires |h| == 7
  {
    match s
    case UserinfoStart => EmptyFrom(h, 0) && start == s
    case Userinfo => EmptyFrom(h, 1) && start != HostStart && h[0] != [] && All(h[0], IsUserinfoChar)
    case HostStart => EmptyFrom(h, 2) && IsUserPart(h, start)
    case HostV6Start => EmptyFrom(h, 3) && IsUserPart(h, start) && h[2] == [OPEN_BRACKET]
    case Host => EmptyFrom(h, 4) && IsUserPart(h, start) && h[2] == [] && IsHost(h)
    case HostV6 => EmptyFrom(h, 4) && IsUserPart(h, start) && h[2] == [OPEN_BRACKET] && h[3] != [] && All(h[3], IsV6Char)
    case HostV6End => EmptyFrom(h, 5) && IsUserPart(h, start) && IsHost(h)
    case PortStart => EmptyFrom(h, 6) && IsUserPart(h, start) && IsHost(h) && h[5] == [COLON]
    case Port => IsUserPart(h, start) && IsHost(h) && h[5] == [COLON] && h[6] != [] && All(h[6], IsNum)
    case HostDead => true
  }

  lemma HostStepKeeps(start: HostState, s: HostState, h: Slots, ch: byte)
    requires |h| == 7 && HostInv(start, s, h) && ParseHostChar(s, ch) != HostDead
    requires start == UserinfoStart || start == HostStart
    ensures var next := ParseHostChar(s, ch); HostInv(start, next, Put(h, HostSlot(next), ch)) && EmptyFrom(h, HostSlot(next) + 1)
  {
    TextMore(h[0], ch, IsUserinfoChar);
    TextMore(h[3], ch, IsHostChar);
    TextMore(h[3], ch, IsV6Char);
    TextMore(h[6], ch, IsNum);
  }

  lemma {:induction false} ScanHostKeeps(start: HostState, buf: seq<byte>)
    requires start == UserinfoStart || start == HostStart
    ensures var r := ScanHost(start, buf); r.state != HostDead ==> HostInv(start, r.state, r.slots) && Concat(r.slots) == buf
  {
    hide HostInv, ParseHostChar, HostSlot;
    if buf == [] {
      EmptyTail(HOST_SLOTS, 0);
      HostStartInv(start);
    } else {
      var n := |buf| - 1;
      ScanHostKeeps(start, buf[..n]);
      var r := ScanHost(start, buf[..n]);
      var s := ParseHostChar(r.state, buf[n]);
      HostDeadStays(buf[n]);
      if s != HostDead {
        HostStepKeeps(start, r.state, r.slots, buf[n]);
        HostSlotInRange(s);
        PutAppends(r.slots, HostSlot(s), buf[n]);
        assert buf[..n] + [buf[n]] == buf;
      }
    }
  }

  lemma HostStartInv(start: HostState)
    requires start == UserinfoStart || start == HostStart
    ensures HostInv(start, start, HOST_SLOTS) && HOST_SLOTS[..0] == []
  {
  }

  lemma HostDeadStays(ch: byte)
    ensures ParseHostChar(HostDead, ch) == HostDead
  {
  }

  lemma HostSlotInRange(s: HostState)
    ensures HostSlot(s) < 7
  {
  }

  // ---- the grammar ---------------------------------------------------------------------------

  /** An authority: maybe user information and "@", a host, and maybe ":" and a port. */
  predicate IsAuthority(h: Slots)
    requires |h| == 7
  {
    && All(h[0], IsUserinfoChar) && (h[1] == [AT] || (h[0] == [] && h[1] == []))
    && IsHost(h)
    && (h[5] == h[6] == [] || (h[5] == [COLON] && h[6] != [] && All(h[6], IsNum) && PortValue(h[6]) <= 0xffff))
  }

  predicate IsTail(r: Slots)
    requires |r| == 14
  {
    && IsPath(r[9], r[0] != [])
    && (r[10] == [] || r[10] == [QUESTION]) && All(r[11], IsQueryChar) && (r[11] != [] ==> r[10] != [])
    && All(r[12], IsHash) && All(r[13], IsFragmentChar) && (r[13] != [] ==> r[12] != [] && r[13][0] != HASH)
    && (r[12] != [] ==> r[9] != [] || r[10] != [])
  }

  /** The URLs that are accepted, by their slots: nothing at all; a path with its query and
      fragment; a scheme, an authority and what follows; or a scheme and a path with no authority
      between them, which then has neither query nor fragment. */
  predicate IsUrl(r: Slots)
    requires |r| == 14
  {
    || EmptyFrom(r, 0)
    || (&& IsTail(r)
        && if r[0] == [] then r[1] == [] && r[2..9] == HOST_SLOTS
           else IsScheme(r[0]) && r[1] == SCHEME_END && (IsAuthority(r[2..9]) || IsBarePath(r)))
  }

  predicate IsBarePath(r: Slots)
    requires |r| == 14
  {
    r[2..9] == HOST_SLOTS && r[9] != [] && r[11] == [] && r[13] == []
  }

  lemma ConcatAll(u: Slots, h: Slots)
    requires |u| == 8 && |h| == 7 && Concat(h) == u[2]
    ensures Concat(AllSlots(u, h)) == Concat(u)
  {
    ConcatAppend(u[..2], h);
    ConcatAppend(u[..2] + h, u[3..]);
    assert u == u[..2] + [u[2]] + u[3..];
    ConcatAppend(u[..2], [u[2]]);
    ConcatAppend(u[..2] + [u[2]], u[3..]);
    ConcatOne(u[2]);
  }

  lemma FinalBody(s: UrlState, u: Slots)
    requires |u| == 8 && s != UrlDead && UrlInv(s, u) && !EmptyFrom(u, 0) && (u[0] == [] || u[2] != [] || u[3] != [])
    ensures IsBody(u)
  {
    assert All([], IsUrlChar) && All([], IsQueryChar) && All([], IsHash) && All([], IsFragmentChar) && All([], IsAuthorityChar);
  }

  lemma SoundWithoutHost(u: Slots)
    requires |u| == 8 && (EmptyFrom(u, 0) || IsBody(u))
    requires u[0] == [] || (u[2] == [] && u[3] != [] && u[5] == [] && u[7] == [])
    ensures var r := AllSlots(u, HOST_SLOTS); |r| == 14 && Concat(r) == Concat(u) && IsUrl(r)
  {
    NoHostText();
    ConcatAll(u, HOST_SLOTS);
    hide Concat;
    assert AllSlots(u, HOST_SLOTS)[2..9] == HOST_SLOTS;
  }

  lemma SoundWithHost(u: Slots, h: Slots)
    requires |u| == 8 && IsBody(u) && u[0] != [] && |h| == 7 && IsAuthority(h) && Concat(h) == u[2]
    ensures var r := AllSlots(u, h); |r| == 14 && Concat(r) == Concat(u) && IsUrl(r)
  {
    ConcatAll(u, h);
    hide Concat, IsAuthority;
    assert AllSlots(u, h)[2..9] == h;
  }

  /** Soundness: an accepted URL is the concatenation of its slots, and they fit the grammar. */
  lemma SplitSound(buf: seq<byte>)
    requires Split(buf).Some?
    ensures var r := Split(buf).value; |r| == 14 && Concat(r) == buf && IsUrl(r)
  {
    hide UrlInv, HostInv, UrlFrom, HostFrom, Concat, IsUrl, IsBody, IsAuthority, AllSlots;
    var scan := ScanUrl(buf);
    var u := scan.slots;
    ScanUrlKeeps(buf);
    if !EmptyFrom(u, 0) {
      FinalBody(scan.state, u);
    }
    if u[0] == [] || u[2] == [] {
      SoundWithoutHost(u);
    } else {
      var start := if AT in u[2] then UserinfoStart else HostStart;
      ScanHostKeeps(start, u[2]);
      var h := ScanHost(start, u[2]);
      HostEnds(start, h.state, h.slots);
      SoundWithHost(u, h.slots);
    }
  }

  lemma NoHostText()
    ensures Concat(HOST_SLOTS) == []
  {
    EmptyTail(HOST_SLOTS, 0);
    assert HOST_SLOTS[..0] == [];
  }

  lemma HostEnds(start: HostState, s: HostState, h: Slots)
    requires |h| == 7 && HostMayEnd(s) && HostInv(start, s, h) && PortValue(h[6]) <= 0xffff
    requires start == UserinfoStart || start == HostStart
    ensures IsAuthority(h) && h != HOST_SLOTS
  {
    assert All([], IsUserinfoChar);
  }

  predicate Among(ch: byte, chars: string) {
    ch as char in chars
  }

  /** The characters of the source's tests, written as characters. */
  lemma CharacterClasses(ch: byte)
    ensures IsAlpha(ch) <==> 'a' <= ch as char <= 'z' || 'A' <= ch as char <= 'Z'
    ensures IsSchemeChar(ch) <==> IsAlpha(ch) || '0' <= ch as char <= '9' || Among(ch, "+-.")
    ensures IsUserinfoChar(ch) <==> IsAlpha(ch) || '0' <= ch as char <= '9' || Among(ch, "-_.!~*'()%;:&=+$,")
    ensures IsHostChar(ch) <==> IsAlpha(ch) || '0' <= ch as char <= '9' || Among(ch, ".-")
    ensures IsUrlChar(ch) <==> '!' <= ch as char <= '~' && !Among(ch, "#?")
  {
  }
}
