/** Every URL of the grammar is accepted and split into its own slots. */
module UrlGrammar {
  import opened Common
  import opened Slots
  import opened UrlParser

  /** The first k slots, and nothing behind them. */
  function Upto(u: Slots, k: nat): (r: Slots)
    requires k <= |u|
    ensures |r| == |u|
  {
    u[..k] + seq(|u| - k, _ => [])
  }

  lemma UptoNext(u: Slots, k: nat)
    requires k < |u|
    ensures Upto(u, k)[k] == []
    ensures Upto(u, k)[k := u[k]] == Upto(u, k + 1)
  {
  }

  // ---- runs of one state ---------------------------------------------------------------------

  /** The first character leads into the state and the others stay in it. */
  predicate UrlBlock(from: UrlState, s: UrlState, t: seq<byte>) {
    && s != UrlDead
    && forall i | 0 <= i < |t| :: ParseUrlChar(if i == 0 then from else s, t[i]) == s
  }

  lemma {:induction false} UrlConcat(r: Scan<UrlState>, a: seq<byte>, b: seq<byte>)
    requires |r.slots| == 8
    ensures UrlFrom(r, a + b) == UrlFrom(UrlFrom(r, a), b)
    decreases |b|
  {
    hide ParseUrlChar, Put, UrlSlot;
    if b == [] {
      assert a + b == a;
    } else {
      var n := |b| - 1;
      assert (a + b)[..|a| + n] == a + b[..n] && (a + b)[|a| + n] == b[n];
      UrlConcat(r, a, b[..n]);
    }
  }

  lemma {:induction false} UrlBlockRun(r: Scan<UrlState>, s: UrlState, t: seq<byte>)
    requires |r.slots| == 8 && t != [] && UrlBlock(r.state, s, t)
    ensures var k := UrlSlot(s); UrlFrom(r, t) == Scan(s, r.slots[k := r.slots[k] + t])
    decreases |t|
  {
    hide ParseUrlChar;
    var n, k := |t| - 1, UrlSlot(s);
    if n == 0 {
      assert UrlFrom(r, t[..0]) == r;
      assert t == [t[0]];
    } else {
      UrlBlockRun(r, s, t[..n]);
      assert t[..n] + [t[n]] == t;
      assert r.slots[k] + t == r.slots[k] + t[..n] + [t[n]];
    }
  }

  /** One more slot, if its text is a block of one state. */
  lemma FillSlot(u: Slots, k: nat, from: UrlState, s: UrlState)
    requires |u| == 8 && k < 8 && ScanUrl(Concat(u[..k])) == Scan(from, Upto(u, k))
    requires u[k] != [] ==> UrlBlock(from, s, u[k]) && UrlSlot(s) == k
    ensures ScanUrl(Concat(u[..k + 1])) == Scan(if u[k] == [] then from else s, Upto(u, k + 1))
  {
    hide UrlBlock, UrlFrom;
    assert u[..k + 1][..k] == u[..k];
    UptoNext(u, k);
    if u[k] == [] {
      assert Concat(u[..k]) + [] == Concat(u[..k]);
      assert Upto(u, k)[k := u[k]] == Upto(u, k);
    } else {
      UrlConcat(URL_START, Concat(u[..k]), u[k]);
      UrlBlockRun(Scan(from, Upto(u, k)), s, u[k]);
      assert [] + u[k] == u[k];
    }
  }

  // ---- the slots of a URL --------------------------------------------------------------------

  lemma SchemeBlock(t: seq<byte>)
    requires IsScheme(t)
    ensures UrlBlock(BeforeUrl, Schema, t)
  {
  }

  lemma PathBlock(from: UrlState, t: seq<byte>)
    requires t != [] && from in {BeforeUrl, ServerStart, Server, ServerWithAt} && IsPath(t, from != BeforeUrl)
    ensures UrlBlock(from, Path, t)
  {
  }

  lemma QueryBlock(t: seq<byte>)
    requires All(t, IsQueryChar)
    ensures UrlBlock(QueryStart, Query, t)
  {
  }

  lemma HashBlock(from: UrlState, t: seq<byte>)
    requires from in {Path, QueryStart, Query} && All(t, IsHash)
    ensures UrlBlock(from, FragmentStart, t)
  {
  }

  lemma FragmentBlock(t: seq<byte>)
    requires t != [] && All(t, IsFragmentChar) && t[0] != HASH
    ensures UrlBlock(FragmentStart, Fragment, t)
  {
  }

  /** A character of an authority that is not the "@". */
  predicate IsPlain(ch: byte) {
    IsUserinfoChar(ch) || ch == OPEN_BRACKET || ch == CLOSE_BRACKET
  }

  lemma PlainBlock(from: UrlState, t: seq<byte>)
    requires from in {ServerStart, Server, ServerWithAt} && All(t, IsPlain)
    ensures UrlBlock(from, Server, t)
  {
  }

  /** The text of an authority, around its "@". */
  function HostText(h: Slots): seq<byte>
    requires |h| == 7
  {
    h[2] + h[3] + h[4] + h[5] + h[6]
  }

  lemma ConcatHost(h: Slots)
    requires |h| == 7
    ensures Concat(h) == h[0] + h[1] + HostText(h)
  {
    ConcatAppend(h[..2], h[2..]);
    assert h == h[..2] + h[2..];
    ConcatTwo(h[0], h[1]);
    assert h[..2] == [h[0], h[1]];
    ConcatFive(h[2..]);
  }

  lemma ConcatFive(b: Slots)
    requires |b| == 5
    ensures Concat(b) == b[0] + b[1] + b[2] + b[3] + b[4]
  {
    assert b[..4][..3] == b[..3] && b[..3][..2] == b[..2] && b[..2] == [b[0], b[1]];
    assert Concat(b) == Concat(b[..4]) + b[4];
    assert Concat(b[..4]) == Concat(b[..3]) + b[3];
    assert Concat(b[..3]) == Concat(b[..2]) + b[2];
    ConcatTwo(b[0], b[1]);
  }

  lemma ConcatTwo(a: seq<byte>, b: seq<byte>)
    ensures Concat([a, b]) == a + b
  {
    var slots: Slots := [a, b];
    assert slots[..1] == [a];
    ConcatOne(a);
  }

  lemma HostTextIsPlain(h: Slots)
    requires |h| == 7 && IsAuthority(h)
    ensures All(HostText(h), IsPlain) && HostText(h) != [] && All(h[0], IsPlain)
  {
    var a, b, c, d, e := h[2], h[3], h[4], h[5], h[6];
    assert All(b, IsPlain) && All(e, IsPlain) && All(a, IsPlain) && All(c, IsPlain) && All(d, IsPlain);
    AllJoined(a, b);
    AllJoined(a + b, c);
    AllJoined(a + b + c, d);
    AllJoined(a + b + c + d, e);
  }

  lemma AllJoined(a: seq<byte>, b: seq<byte>)
    requires All(a, IsPlain) && All(b, IsPlain)
    ensures All(a + b, IsPlain)
  {
  }

  /** The scan of a whole authority. */
  lemma AuthorityRun(r: Scan<UrlState>, h: Slots)
    requires |r.slots| == 8 && r.state == ServerStart && r.slots[2] == [] && |h| == 7 && IsAuthority(h)
    ensures UrlFrom(r, Concat(h)) == Scan(Server, r.slots[2 := Concat(h)])
  {
    ConcatHost(h);
    HostTextIsPlain(h);
    assert h[1] == [] || h[1] == [AT];
    hide IsAuthority, UrlFrom, All, UrlBlock, HostText, Concat;
    UrlConcat(r, h[0], h[1]);
    UrlConcat(r, h[0] + h[1], HostText(h));
    UserinfoRun(r, h[0]);
    AtRun(UrlFrom(r, h[0]), h[1]);
    var y := UrlFrom(UrlFrom(r, h[0]), h[1]);
    PlainBlock(y.state, HostText(h));
    UrlBlockRun(y, Server, HostText(h));
  }

  lemma UserinfoRun(r: Scan<UrlState>, t: seq<byte>)
    requires |r.slots| == 8 && r.state == ServerStart && r.slots[2] == [] && All(t, IsPlain)
    ensures var x := UrlFrom(r, t); x.state in {ServerStart, Server} && x.slots == r.slots[2 := t]
  {
    if t == [] {
      NothingMore(r);
    } else {
      PlainBlock(ServerStart, t);
      UrlBlockRun(r, Server, t);
      assert [] + t == t;
    }
  }

  lemma NothingMore(r: Scan<UrlState>)
    requires |r.slots| == 8
    ensures UrlFrom(r, []) == r
  {
  }

  lemma AtRun(r: Scan<UrlState>, t: seq<byte>)
    requires |r.slots| == 8 && r.state in {ServerStart, Server} && (t == [] || t == [AT])
    ensures var y := UrlFrom(r, t); y.state in {ServerStart, Server, ServerWithAt} && y.slots == r.slots[2 := r.slots[2] + t]
  {
    if t == [] {
      assert r.slots[2] + t == r.slots[2];
    } else {
      assert UrlBlock(r.state, ServerWithAt, t);
      UrlBlockRun(r, ServerWithAt, t);
    }
  }

  lemma SchemeEndRun(r: Scan<UrlState>)
    requires |r.slots| == 8 && r.state == Schema && r.slots[1] == []
    ensures UrlFrom(r, SCHEME_END) == Scan(ServerStart, r.slots[1 := SCHEME_END])
  {
    var x := Scan(SchemaSlash, r.slots[1 := [COLON]]);
    var y := Scan(SchemaSlashSlash, r.slots[1 := [COLON, SLASH]]);
    assert UrlBlock(Schema, SchemaSlash, [COLON]);
    UrlBlockRun(r, SchemaSlash, [COLON]);
    assert [] + [COLON] == [COLON];
    assert UrlBlock(SchemaSlash, SchemaSlashSlash, [SLASH]);
    UrlBlockRun(x, SchemaSlashSlash, [SLASH]);
    assert [COLON] + [SLASH] == [COLON, SLASH];
    assert UrlBlock(SchemaSlashSlash, ServerStart, [SLASH]);
    UrlBlockRun(y, ServerStart, [SLASH]);
    hide UrlFrom, UrlBlock;
    UrlConcat(r, [COLON], [SLASH]);
    UrlConcat(r, [COLON, SLASH], [SLASH]);
    assert [COLON, SLASH] + [SLASH] == SCHEME_END;
  }

  // ---- a whole URL ---------------------------------------------------------------------------

  /** The first three slots: nothing, or a scheme with its end and an authority or nothing. */
  ghost predicate GoodHead(u: Slots, h: Slots)
    requires |u| == 8 && |h| == 7
  {
    if u[0] == [] then u[1] == [] && u[2] == []
    else IsScheme(u[0]) && u[1] == SCHEME_END && (u[2] == [] || (IsAuthority(h) && u[2] == Concat(h)))
  }

  lemma HeadRun(u: Slots, h: Slots) returns (s: UrlState)
    requires |u| == 8 && |h| == 7 && GoodHead(u, h)
    ensures ScanUrl(Concat(u[..3])) == Scan(s, Upto(u, 3))
    ensures s in {BeforeUrl, ServerStart, Server} && (s == BeforeUrl <==> u[0] == [])
  {
    hide UrlFrom, UrlBlock, IsAuthority, IsScheme;
    assert u[..0] == [] && Upto(u, 0) == URL_SLOTS;
    NothingMore(URL_START);
    if u[0] != [] {
      SchemeBlock(u[0]);
    }
    FillSlot(u, 0, BeforeUrl, Schema);
    if u[0] == [] {
      FillSlot(u, 1, BeforeUrl, Schema);
      FillSlot(u, 2, BeforeUrl, Schema);
      s := BeforeUrl;
    } else {
      assert u[..2][..1] == u[..1] && u[..3][..2] == u[..2];
      UrlConcat(URL_START, Concat(u[..1]), SCHEME_END);
      UptoNext(u, 1);
      SchemeEndRun(Scan(Schema, Upto(u, 1)));
      if u[2] == [] {
        s := ServerStart;
        FillSlot(u, 2, ServerStart, Server);
      } else {
        s := Server;
        UrlConcat(URL_START, Concat(u[..2]), u[2]);
        UptoNext(u, 2);
        AuthorityRun(Scan(ServerStart, Upto(u, 2)), h);
      }
    }
  }

  /** From the path on. */
  predicate GoodBody(u: Slots)
    requires |u| == 8
  {
    && IsPath(u[3], u[0] != [])
    && (u[4] == [] || u[4] == [QUESTION]) && All(u[5], IsQueryChar) && (u[5] != [] ==> u[4] != [])
    && All(u[6], IsHash) && All(u[7], IsFragmentChar) && (u[7] != [] ==> u[6] != [] && u[7][0] != HASH)
    && (u[6] != [] ==> u[3] != [] || u[4] != [])
  }

  lemma QuestionBlock(from: UrlState)
    requires from in {Path, ServerStart, Server}
    ensures UrlBlock(from, QueryStart, [QUESTION])
  {
  }

  /** The state behind the path and the query. */
  function QueryEnd(u: Slots, s: UrlState): UrlState
    requires |u| == 8
  {
    if u[5] != [] then Query else if u[4] != [] then QueryStart else if u[3] != [] then Path else s
  }

  /** The state behind the path. */
  function PathEnd(u: Slots, s: UrlState): UrlState
    requires |u| == 8
  {
    if u[3] == [] then s else Path
  }

  lemma PathBlocks(u: Slots, s: UrlState)
    requires |u| == 8 && GoodBody(u) && s in {BeforeUrl, ServerStart, Server} && (s == BeforeUrl <==> u[0] == [])
    ensures u[3] != [] ==> UrlBlock(s, Path, u[3])
    ensures u[4] != [] ==> UrlBlock(PathEnd(u, s), QueryStart, u[4])
    ensures u[5] != [] ==> u[4] != [] && UrlBlock(QueryStart, Query, u[5])
  {
    if u[3] != [] {
      PathBlock(s, u[3]);
    }
    if u[4] != [] {
      QuestionBlock(PathEnd(u, s));
    }
    if u[5] != [] {
      QueryBlock(u[5]);
    }
  }

  lemma PathRun(u: Slots, s: UrlState)
    requires |u| == 8 && GoodBody(u) && ScanUrl(Concat(u[..3])) == Scan(s, Upto(u, 3))
    requires s in {BeforeUrl, ServerStart, Server} && (s == BeforeUrl <==> u[0] == [])
    ensures ScanUrl(Concat(u[..6])) == Scan(QueryEnd(u, s), Upto(u, 6))
  {
    hide ScanUrl, UrlBlock, Upto, Concat, GoodBody;
    PathBlocks(u, s);
    FillSlot(u, 3, s, Path);
    FillSlot(u, 4, PathEnd(u, s), QueryStart);
    FillSlot(u, 5, if u[4] != [] then QueryStart else PathEnd(u, s), Query);
  }

  lemma BodyRun(u: Slots, s: UrlState) returns (end: UrlState)
    requires |u| == 8 && GoodBody(u) && ScanUrl(Concat(u[..3])) == Scan(s, Upto(u, 3))
    requires s in {BeforeUrl, ServerStart, Server} && (s == BeforeUrl <==> u[0] == [])
    ensures ScanUrl(Concat(u)) == Scan(end, u) && end != UrlDead
  {
    PathRun(u, s);
    var c := QueryEnd(u, s);
    if u[6] != [] {
      HashBlock(c, u[6]);
    }
    if u[7] != [] {
      FragmentBlock(u[7]);
    }
    hide ScanUrl, UrlBlock, All, Concat, GoodBody;
    FillSlot(u, 6, c, FragmentStart);
    FillSlot(u, 7, if u[6] == [] then c else FragmentStart, Fragment);
    end := if u[7] != [] then Fragment else if u[6] != [] then FragmentStart else c;
    assert u[..8] == u && Upto(u, 8) == u;
  }

  // ---- the authority -------------------------------------------------------------------------

  predicate HostBlock(from: HostState, s: HostState, t: seq<byte>) {
    && s != HostDead
    && forall i | 0 <= i < |t| :: ParseHostChar(if i == 0 then from else s, t[i]) == s
  }

  lemma {:induction false} HostConcat(r: Scan<HostState>, a: seq<byte>, b: seq<byte>)
    requires |r.slots| == 7
    ensures HostFrom(r, a + b) == HostFrom(HostFrom(r, a), b)
    decreases |b|
  {
    hide ParseHostChar, Put, HostSlot;
    if b == [] {
      assert a + b == a;
    } else {
      var n := |b| - 1;
      assert (a + b)[..|a| + n] == a + b[..n] && (a + b)[|a| + n] == b[n];
      HostConcat(r, a, b[..n]);
    }
  }

  lemma {:induction false} HostBlockRun(r: Scan<HostState>, s: HostState, t: seq<byte>)
    requires |r.slots| == 7 && t != [] && HostBlock(r.state, s, t)
    ensures var k := HostSlot(s); HostFrom(r, t) == Scan(s, r.slots[k := r.slots[k] + t])
    decreases |t|
  {
    hide ParseHostChar;
    var n, k := |t| - 1, HostSlot(s);
    if n == 0 {
      assert HostFrom(r, t[..0]) == r;
      assert t == [t[0]];
    } else {
      HostBlockRun(r, s, t[..n]);
      assert t[..n] + [t[n]] == t;
      assert r.slots[k] + t == r.slots[k] + t[..n] + [t[n]];
    }
  }

  lemma FillHostSlot(h: Slots, start: HostState, k: nat, from: HostState, s: HostState)
    requires |h| == 7 && k < 7 && ScanHost(start, Concat(h[..k])) == Scan(from, Upto(h, k))
    requires h[k] != [] ==> HostBlock(from, s, h[k]) && HostSlot(s) == k
    ensures ScanHost(start, Concat(h[..k + 1])) == Scan(if h[k] == [] then from else s, Upto(h, k + 1))
  {
    hide HostBlock, HostFrom;
    assert h[..k + 1][..k] == h[..k];
    UptoNext(h, k);
    if h[k] == [] {
      assert Concat(h[..k]) + [] == Concat(h[..k]);
      assert Upto(h, k)[k := h[k]] == Upto(h, k);
    } else {
      HostConcat(Scan(start, HOST_SLOTS), Concat(h[..k]), h[k]);
      HostBlockRun(Scan(from, Upto(h, k)), s, h[k]);
      assert [] + h[k] == h[k];
    }
  }

  /** The state in which the scan of an authority starts. */
  function StartOf(h: Slots): HostState
    requires |h| == 7
  {
    if h[1] == [AT] then UserinfoStart else HostStart
  }

  lemma UserPartRun(h: Slots)
    requires |h| == 7 && IsAuthority(h)
    ensures ScanHost(StartOf(h), Concat(h[..2])) == Scan(HostStart, Upto(h, 2))
  {
    var start := StartOf(h);
    assert h[..0] == [] && Upto(h, 0) == HOST_SLOTS;
    assert HostFrom(Scan(start, HOST_SLOTS), []) == Scan(start, HOST_SLOTS);
    if h[0] != [] {
      assert HostBlock(start, Userinfo, h[0]);
    }
    var a := if h[0] == [] then start else Userinfo;
    if h[1] != [] {
      assert HostBlock(a, HostStart, h[1]);
    }
    hide HostFrom, HostBlock, IsHost, All, Concat, Upto;
    FillHostSlot(h, start, 0, start, Userinfo);
    FillHostSlot(h, start, 1, a, HostStart);
  }

  lemma HostPartRun(h: Slots) returns (s: HostState)
    requires |h| == 7 && IsAuthority(h) && ScanHost(StartOf(h), Concat(h[..2])) == Scan(HostStart, Upto(h, 2))
    ensures ScanHost(StartOf(h), Concat(h[..5])) == Scan(s, Upto(h, 5)) && s in {Host, HostV6End}
  {
    var start, v6 := StartOf(h), h[2] != [];
    if v6 {
      assert HostBlock(HostStart, HostV6Start, h[2]) && HostBlock(HostV6Start, HostV6, h[3]) && HostBlock(HostV6, HostV6End, h[4]);
    } else {
      assert HostBlock(HostStart, Host, h[3]);
    }
    hide ScanHost, HostBlock, All, Concat, Upto;
    FillHostSlot(h, start, 2, HostStart, HostV6Start);
    FillHostSlot(h, start, 3, if v6 then HostV6Start else HostStart, if v6 then HostV6 else Host);
    FillHostSlot(h, start, 4, if v6 then HostV6 else Host, HostV6End);
    s := if v6 then HostV6End else Host;
  }

  lemma PortPartRun(h: Slots, s: HostState) returns (end: HostState)
    requires |h| == 7 && IsAuthority(h) && s in {Host, HostV6End}
    requires ScanHost(StartOf(h), Concat(h[..5])) == Scan(s, Upto(h, 5))
    ensures ScanHost(StartOf(h), Concat(h)) == Scan(end, h) && HostMayEnd(end)
  {
    var start := StartOf(h);
    if h[5] != [] {
      assert HostBlock(s, PortStart, h[5]) && HostBlock(PortStart, Port, h[6]);
    }
    hide ScanHost, HostBlock, All, Concat, IsHost;
    FillHostSlot(h, start, 5, s, PortStart);
    FillHostSlot(h, start, 6, if h[5] == [] then s else PortStart, Port);
    end := if h[6] == [] then s else Port;
    assert h[..7] == h && Upto(h, 7) == h;
  }

  /** The "@" of an authority is where it should be, and nowhere else. */
  lemma AtInAuthority(h: Slots)
    requires |h| == 7 && IsAuthority(h)
    ensures AT in Concat(h) <==> h[1] == [AT]
    ensures Concat(h) != []
  {
    ConcatHost(h);
    HostTextIsPlain(h);
    hide IsAuthority, HostText;
    if h[1] == [AT] {
      assert (h[0] + h[1] + HostText(h))[|h[0]|] == AT;
    } else if h[1] == [] {
      assert h[0] + [] == h[0];
      AllJoined(h[0], HostText(h));
      PlainHasNoAt(h[0] + HostText(h));
    }
  }

  lemma PlainHasNoAt(t: seq<byte>)
    requires All(t, IsPlain)
    ensures AT !in t
  {
  }

  // ---- the theorem ---------------------------------------------------------------------------

  /** The slots of the first machine. */
  function OuterSlots(r: Slots): (u: Slots)
    requires |r| == 14
    ensures |u| == 8
  {
    r[..2] + [Concat(r[2..9])] + r[9..]
  }

  lemma EmptyUrl(r: Slots)
    requires |r| == 14 && EmptyFrom(r, 0)
    ensures Split(Concat(r)) == Some(r)
  {
    EmptyTail(r, 0);
    assert r[..0] == [] && AllSlots(URL_SLOTS, HOST_SLOTS) == r;
    assert Concat(r) == [];
    NothingMore(URL_START);
  }

  lemma OuterIndex(r: Slots)
    requires |r| == 14
    ensures var u := OuterSlots(r);
      && u[0] == r[0] && u[1] == r[1] && u[2] == Concat(r[2..9]) && u[3] == r[9] && u[4] == r[10]
      && u[5] == r[11] && u[6] == r[12] && u[7] == r[13] && AllSlots(u, r[2..9]) == r
  {
  }

  lemma OuterParts(r: Slots)
    requires |r| == 14 && IsUrl(r) && !EmptyFrom(r, 0)
    ensures var u := OuterSlots(r);
      && GoodHead(u, r[2..9]) && GoodBody(u) && AllSlots(u, r[2..9]) == r
      && (r[2..9] == HOST_SLOTS ==> u[2] == [])
      && (r[2..9] != HOST_SLOTS ==> IsAuthority(r[2..9]) && u[2] != [] && u[0] != [])
  {
    var h := r[2..9];
    OuterIndex(r);
    if h == HOST_SLOTS {
      EmptyTail(h, 0);
      assert h[..0] == [];
    } else {
      AtInAuthority(h);
    }
    hide OuterSlots, AllSlots, IsAuthority, Concat, All, IsScheme;
  }

  lemma AuthorityAccepted(h: Slots)
    requires |h| == 7 && IsAuthority(h)
    ensures var r := ScanHost(if AT in Concat(h) then UserinfoStart else HostStart, Concat(h));
      HostMayEnd(r.state) && r.slots == h && PortValue(h[6]) <= 0xffff
  {
    AtInAuthority(h);
    UserPartRun(h);
    var s := HostPartRun(h);
    var end := PortPartRun(h, s);
  }

  /** Every URL of the grammar is accepted, and split into the slots it is made of. */
  lemma SplitComplete(r: Slots)
    requires |r| == 14 && IsUrl(r)
    ensures Split(Concat(r)) == Some(r)
  {
    if EmptyFrom(r, 0) {
      EmptyUrl(r);
    } else {
      var u, h := OuterSlots(r), r[2..9];
      OuterParts(r);
      assert IsBarePath(r) || IsAuthority(h) || r[0] == [];
      ConcatAll(u, h);
      var s := HeadRun(u, h);
      var end := BodyRun(u, s);
      if h != HOST_SLOTS {
        AuthorityAccepted(h);
      }
      hide ScanUrl, ScanHost, GoodHead, GoodBody, Concat, IsAuthority;
    }
  }

  /** The parser accepts exactly the URLs of the grammar, and the split is the only one. */
  lemma SplitExact(buf: seq<byte>, r: Slots)
    requires |r| == 14
    ensures Split(buf) == Some(r) <==> IsUrl(r) && Concat(r) == buf
  {
    hide Split, IsUrl;
    if Split(buf) == Some(r) {
      SplitSound(buf);
    }
    if IsUrl(r) && Concat(r) == buf {
      SplitComplete(r);
    }
  }

  predicate IsDelimiter(ch: byte) {
    ch in {COLON, SLASH, QUESTION, HASH, AT, OPEN_BRACKET, CLOSE_BRACKET}
  }

  predicate IsFieldSlot(k: nat) {
    k in {0, 2, 5, 8, 9, 11, 13}
  }

  /** The fields of an accepted URL lie inside it, one behind the other, each with its own text;
      and what lies between them is made of delimiters only. */
  lemma FieldsPartition(buf: seq<byte>, i: nat) returns (k: nat)
    requires Split(buf).Some? && i < |buf|
    ensures var r := Split(buf).value;
      && k < 14 == |r| && Offset(r, k) <= i < Offset(r, k) + |r[k]| <= |buf|
      && buf[Offset(r, k)..Offset(r, k) + |r[k]|] == r[k]
      && (IsFieldSlot(k) || IsDelimiter(buf[i]))
      && forall j | 0 <= j < k :: Offset(r, j) + |r[j]| <= Offset(r, k)
  {
    hide Split;
    SplitSound(buf);
    var r := Split(buf).value;
    k := SlotOfPosition(r, i);
    SlotInPlace(r, k);
    assert buf[i] == r[k][i - Offset(r, k)];
    if !IsFieldSlot(k) {
      DelimiterSlots(r, k);
    }
    forall j | 0 <= j < k
      ensures Offset(r, j) + |r[j]| <= Offset(r, k)
    {
      NextOffset(r, j);
      OffsetsGrow(r, j + 1, k);
    }
  }

  lemma DelimiterSlots(r: Slots, k: nat)
    requires |r| == 14 && k < 14 && IsUrl(r) && !IsFieldSlot(k)
    ensures forall i | 0 <= i < |r[k]| :: IsDelimiter(r[k][i])
  {
    var h := r[2..9];
    assert h[1] == r[3] && h[2] == r[4] && h[4] == r[6] && h[5] == r[7];
  }

  function BarePathSlots(scheme: seq<byte>, path: seq<byte>): (r: Slots)
    ensures |r| == 14
  {
    [scheme, SCHEME_END] + HOST_SLOTS + [path] + [[], [], [], []]
  }

  lemma ConcatBarePath(scheme: seq<byte>, path: seq<byte>)
    ensures Concat(BarePathSlots(scheme, path)) == scheme + SCHEME_END + path
  {
    hide Concat;
    EmptyTail(BarePathSlots(scheme, path), 10);
    assert BarePathSlots(scheme, path)[..10] == [scheme, SCHEME_END] + HOST_SLOTS + [path];
    ConcatAppend([scheme, SCHEME_END] + HOST_SLOTS, [path]);
    EmptyTail([scheme, SCHEME_END] + HOST_SLOTS, 2);
    assert ([scheme, SCHEME_END] + HOST_SLOTS)[..2] == [scheme, SCHEME_END];
    ConcatTwo(scheme, SCHEME_END);
    ConcatOne(path);
  }

  /** A scheme and a path with no host between them are accepted, against the comment in the
      source. */
  lemma SchemeWithoutHost(scheme: seq<byte>, path: seq<byte>)
    requires IsScheme(scheme) && path != [] && IsPath(path, true)
    ensures Split(scheme + SCHEME_END + path) == Some(BarePathSlots(scheme, path))
  {
    var r := BarePathSlots(scheme, path);
    assert r[0] == scheme && r[1] == SCHEME_END && r[2..9] == HOST_SLOTS && r[9] == path;
    assert r[10] == r[11] == r[12] == r[13] == [];
    hide BarePathSlots, Split;
    assert IsUrl(r);
    ConcatBarePath(scheme, path);
    SplitComplete(r);
  }
}
