/** Calendar hash chain shapes: the left and right links of a chain, together with its
    publication time, determine the aggregation time. */
module CalendarChain {
  import opened Common
  import opened Words

  /** The word arithmetic of the source: smear the highest bit downwards, then keep only it. */
  method HighBit(n0: int) returns (h: int)
    requires 0 < n0 < INT64_LIMIT
    ensures h == TopBit(n0)
  {
    var n: Word := ToWord(n0);
    n := Or(n, ShiftRight(n, 1));
    n := Or(n, ShiftRight(n, 2));
    n := Or(n, ShiftRight(n, 4));
    n := Or(n, ShiftRight(n, 8));
    n := Or(n, ShiftRight(n, 16));
    n := Or(n, ShiftRight(n, 32));
    ValueOfToWord(n0);
    SmearKeepsTopBit(ToWord(n0));
    return Value(n) - Value(ShiftRight(n, 1));
  }

  /** Reading a chain from its last link: the time that the shape denotes below bound `r`. */
  function Walk(shape: seq<bool>, r: int): Option<nat>
    decreases |shape|
  {
    if shape == [] then
      if r == 0 then Some(0) else None
    else if r <= 0 then
      None
    else
      var rest := shape[..|shape| - 1];
      if shape[|shape| - 1] then
        Walk(rest, TopBit(r) - 1)
      else
        match Walk(rest, r - TopBit(r))
        case None => None
        case Some(t) => Some(TopBit(r) + t)
  }

  /** The outcome of the calculation for a whole chain. */
  function AggregationTime(shape: seq<bool>, pubTime: uint64): Result<nat> {
    if shape == [] then Err(InvalidFormat)
    else match Walk(shape, ToInt64(pubTime))
      case None => Err(InvalidFormat)
      case Some(t) => Ok(t)
  }

  /** A time, if there is one, moved by t. */
  function Later(time: Option<nat>, t: nat): Option<nat> {
    match time
    case None => None
    case Some(u) => Some(t + u)
  }

  lemma LaterTwice(time: Option<nat>, s: nat, t: nat)
    ensures Later(time, 0) == time && Later(Later(time, s), t) == Later(time, t + s)
  {
  }

  lemma WalkEnd(r: int, t: nat)
    ensures Later(Walk([], r), t) == if r == 0 then Some(t) else None
  {
  }

  lemma WalkStops(shape: seq<bool>, r: int)
    requires shape != []
    ensures r <= 0 ==> Walk(shape, r) == None
  {
  }

  /** The last link moves the bound to one of the subtrees. */
  lemma WalkLast(shape: seq<bool>, r: int)
    requires shape != [] && r > 0
    ensures 0 < TopBit(r) <= r
    ensures var rest := shape[..|shape| - 1];
      Walk(shape, r) ==
      if shape[|shape| - 1] then Walk(rest, TopBit(r) - 1)
      else Later(Walk(rest, r - TopBit(r)), TopBit(r))
  {
    TopBitPower(r);
    hide BitLength, Pow2, TopBit;
  }

  /** One round of the loop: link n - 1 is the last of those that are left. */
  lemma NextRound(isLeft: seq<bool>, n: nat, r: int, t: nat)
    requires 0 < n <= |isLeft|
    ensures r <= 0 ==> Later(Walk(isLeft[..n], r), t) == None
    ensures r > 0 ==>
      && 0 < TopBit(r) <= r
      && Later(Walk(isLeft[..n], r), t) == if isLeft[n - 1] then Later(Walk(isLeft[..n - 1], TopBit(r) - 1), t)
                                           else Later(Walk(isLeft[..n - 1], r - TopBit(r)), t + TopBit(r))
  {
    hide BitLength, Pow2, TopBit, Walk;
    assert isLeft[..n][..n - 1] == isLeft[..n - 1];
    WalkStops(isLeft[..n], r);
    if r > 0 {
      WalkLast(isLeft[..n], r);
      LaterTwice(Walk(isLeft[..n - 1], r - TopBit(r)), TopBit(r), t);
    }
  }

  /** `isLeft` holds the direction of every link of the chain, first link first. */
  method CalculateCalendarAggregationTime(isLeft: seq<bool>, pubTime: uint64) returns (res: Result<int>)
    ensures res == AggregationTime(isLeft, pubTime)
  {
    hide BitLength, Pow2, TopBit, Walk, Later, ToInt64;
    if |isLeft| == 0 {
      return Err(InvalidFormat);
    }
    var r: int := ToInt64(pubTime);
    var t: nat := 0;
    var i := 0;
    assert isLeft[..|isLeft|] == isLeft;
    LaterTwice(Walk(isLeft, r), 0, 0);
    while i < |isLeft|
      invariant 0 <= i <= |isLeft|
      invariant r < INT64_LIMIT
      invariant Walk(isLeft, ToInt64(pubTime)) == Later(Walk(isLeft[..|isLeft| - i], r), t)
    {
      NextRound(isLeft, |isLeft| - i, r, t);
      if r <= 0 {
        return Err(InvalidFormat);
      }
      var h := HighBit(r);
      if isLeft[|isLeft| - i - 1] {
        r := h - 1;
      } else {
        t := t + h;
        r := r - h;
      }
      i := i + 1;
    }
    assert isLeft[..0] == [];
    WalkEnd(r, t);
    if r != 0 {
      return Err(InvalidFormat);
    }
    return Ok(t);
  }

  /** The calendar tree over the times 0 to p: its left subtree holds the times below the
      highest power of two in p. `ShapeTo(p, a)` is the path from leaf a up to the root. */
  function ShapeTo(p: nat, a: nat): seq<bool>
    requires a <= p
    decreases p
  {
    if p == 0 then []
    else
      BitLengthBounds(p);
      if a < TopBit(p) then ShapeTo(TopBit(p) - 1, a) + [true]
      else ShapeTo(p - TopBit(p), a - TopBit(p)) + [false]
  }

  lemma {:induction false} WalkOfShapeTo(p: nat, a: nat)
    requires a <= p
    ensures Walk(ShapeTo(p, a), p) == Some(a)
    decreases p
  {
    hide BitLength, Pow2;
    if p > 0 {
      BitLengthBounds(p);
      var shape := ShapeTo(p, a);
      if a < TopBit(p) {
        assert shape[..|shape| - 1] == ShapeTo(TopBit(p) - 1, a);
        WalkOfShapeTo(TopBit(p) - 1, a);
      } else {
        assert shape[..|shape| - 1] == ShapeTo(p - TopBit(p), a - TopBit(p));
        WalkOfShapeTo(p - TopBit(p), a - TopBit(p));
      }
    }
  }

  lemma {:induction false} ShapeToOfWalk(shape: seq<bool>, p: nat)
    requires Walk(shape, p).Some?
    ensures var a := Walk(shape, p).value; a <= p && shape == ShapeTo(p, a)
    decreases |shape|
  {
    hide BitLength, Pow2;
    if shape != [] {
      BitLengthBounds(p);
      var rest := shape[..|shape| - 1];
      assert shape == rest + [shape[|shape| - 1]];
      if shape[|shape| - 1] {
        ShapeToOfWalk(rest, TopBit(p) - 1);
      } else {
        ShapeToOfWalk(rest, p - TopBit(p));
      }
    }
  }

  /** For a fixed publication time the accepted shapes and the times 0..p correspond one to one. */
  lemma ShapesBijection(p: uint64, shape: seq<bool>, a: nat)
    requires 1 <= p < INT64_LIMIT
    ensures AggregationTime(shape, p) == Ok(a) <==> a <= p && shape == ShapeTo(p, a)
    ensures AggregationTime(shape, p).Err? ==> AggregationTime(shape, p) == Err(InvalidFormat)
  {
    if Walk(shape, p).Some? {
      ShapeToOfWalk(shape, p);
    }
    if a <= p {
      WalkOfShapeTo(p, a);
    }
  }

  lemma {:induction false} WalkedTime(shape: seq<bool>, r: int)
    requires Walk(shape, r).Some?
    ensures 0 <= Walk(shape, r).value <= r
    ensures (forall i | 0 <= i < |shape| :: shape[i]) ==> Walk(shape, r) == Some(0)
    ensures (forall i | 0 <= i < |shape| :: !shape[i]) ==> Walk(shape, r) == Some(r)
    decreases |shape|
  {
    if shape != [] {
      WalkStops(shape, r);
      WalkLast(shape, r);
      var rest := shape[..|shape| - 1];
      WalkedTime(rest, if shape[|shape| - 1] then TopBit(r) - 1 else r - TopBit(r));
      hide Walk, TopBit;
    }
  }

  /** What the links of an accepted chain say, with 2^k the largest power of two that the
      publication time is not below: the last link is a left one exactly if the aggregation time is
      below 2^k. Left links alone lead to the time 0, right links alone to the publication time. */
  lemma LastLinkSide(p: uint64, shape: seq<bool>, a: nat, k: nat)
    requires 1 <= p < INT64_LIMIT && AggregationTime(shape, p) == Ok(a) && Pow2(k) <= p < Pow2(k + 1)
    ensures shape != [] && a <= p
    ensures shape[|shape| - 1] <==> a < Pow2(k)
    ensures (forall i | 0 <= i < |shape| :: shape[i]) ==> a == 0
    ensures (forall i | 0 <= i < |shape| :: !shape[i]) ==> a == p
  {
    TopBitUnique(p, k);
    WalkedTime(shape, p);
    WalkLast(shape, p);
    var rest := shape[..|shape| - 1];
    WalkedTime(rest, if shape[|shape| - 1] then TopBit(p) - 1 else p - TopBit(p));
    hide Walk, TopBit, Pow2;
  }

  /** Nothing is accepted for a publication time of zero or one that is negative as `time_t`. */
  lemma NoShapeOutsideRange(p: uint64, shape: seq<bool>)
    requires p == 0 || p >= INT64_LIMIT
    ensures AggregationTime(shape, p) == Err(InvalidFormat)
  {
  }

  lemma NoShape(a: nat)
    requires a <= 0
    ensures ShapeTo(0, a) == []
  {
  }

  /** An accepted chain is no longer than the publication time is wide. */
  lemma {:induction false} ShapeLength(p: nat, a: nat)
    requires a <= p
    ensures |ShapeTo(p, a)| <= BitLength(p)
    decreases p
  {
    hide BitLength, Pow2, TopBit, ShapeTo;
    if p == 0 {
      NoShape(a);
    } else {
      TopBitPower(p);
      LastOfShape(p, a);
      if a < TopBit(p) {
        BitLengthAtMost(TopBit(p) - 1, BitLength(p) - 1);
        ShapeLength(TopBit(p) - 1, a);
      } else {
        BitLengthAtMost(p - TopBit(p), BitLength(p) - 1);
        ShapeLength(p - TopBit(p), a - TopBit(p));
      }
    }
  }

  function RightLinks(shape: seq<bool>): nat {
    if shape == [] then 0
    else RightLinks(shape[..|shape| - 1]) + if shape[|shape| - 1] then 0 else 1
  }

  /** The link next to the root: leaf a of p is leaf b of a subtree q of at most 2^k leaves. */
  lemma LastLink(p: nat, a: nat) returns (k: nat, q: nat, b: nat)
    requires a <= p && p > 0
    ensures b <= q < p && b < Pow2(k)
    ensures a == b || a == Pow2(k) + b
    ensures RightLinks(ShapeTo(p, a)) == RightLinks(ShapeTo(q, b)) + if a == b then 0 else 1
  {
    BitLengthBounds(p);
    k := BitLength(p) - 1;
    assert TopBit(p) == Pow2(k);
    LastOfShape(p, a);
    hide BitLength, Pow2, TopBit, RightLinks, ShapeTo;
    if a < Pow2(k) {
      q, b := Pow2(k) - 1, a;
      RightLinksAppend(ShapeTo(q, b), true);
    } else {
      q, b := p - Pow2(k), a - Pow2(k);
      RightLinksAppend(ShapeTo(q, b), false);
    }
  }

  lemma LastOfShape(p: nat, a: nat)
    requires a <= p && p > 0
    ensures 0 < TopBit(p) <= p
    ensures ShapeTo(p, a) ==
      if a < TopBit(p) then ShapeTo(TopBit(p) - 1, a) + [true] else ShapeTo(p - TopBit(p), a - TopBit(p)) + [false]
  {
    BitLengthBounds(p);
    hide BitLength, Pow2;
  }

  /** The right links of a path are the set bits of the aggregation time. */
  lemma {:induction false} RightLinksAreSetBits(p: nat, a: nat)
    requires a <= p
    ensures RightLinks(ShapeTo(p, a)) == PopCount(a)
    decreases p
  {
    if p > 0 {
      var k, q, b := LastLink(p, a);
      RightLinksAreSetBits(q, b);
      PopCountAboveTop(k, b);
    }
  }

  lemma RightLinksAppend(shape: seq<bool>, isLeft: bool)
    ensures RightLinks(shape + [isLeft]) == RightLinks(shape) + if isLeft then 0 else 1
  {
    var all := shape + [isLeft];
    assert all[..|all| - 1] == shape;
  }

  /** Extending a signature to another publication keeps the number of right links. */
  lemma RightLinksIndependentOfPublication(p: uint64, q: uint64, s: seq<bool>, t: seq<bool>)
    requires AggregationTime(s, p).Ok? && AggregationTime(s, p) == AggregationTime(t, q)
    ensures RightLinks(s) == RightLinks(t)
  {
    ShapeToOfWalk(s, ToInt64(p));
    ShapeToOfWalk(t, ToInt64(q));
    RightLinksAreSetBits(p, AggregationTime(s, p).value);
    RightLinksAreSetBits(q, AggregationTime(t, q).value);
  }
}
