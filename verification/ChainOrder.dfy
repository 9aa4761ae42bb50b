/** The order in which a signature keeps its aggregation chains. */
module ChainOrder {
  import opened Common
  import opened Template

  /** The field of an aggregation chain with its chain index. */
  const CHAIN_INDEX: nat := 1

  /** The number of elements in the chain index; the template makes an index mandatory. */
  function IndexLength(chain: Value): nat {
    if chain.Object? && CHAIN_INDEX in chain.fields && chain.fields[CHAIN_INDEX].Many?
    then |chain.fields[CHAIN_INDEX].values|
    else 0
  }

  predicate Descending(chains: seq<Value>) {
    forall i, j | 0 <= i < j < |chains| :: IndexLength(chains[i]) >= IndexLength(chains[j])
  }

  /** The same chains with the longest index first, as a sort leaves them. */
  predicate IsSortOf(chains: seq<Value>, sorted: seq<Value>) {
    multiset(chains) == multiset(sorted) && Descending(sorted)
  }

  predicate SortedAs(arrival: Option<seq<Value>>, sorted: Option<seq<Value>>) {
    arrival.Some? == sorted.Some? && (arrival.Some? ==> IsSortOf(arrival.value, sorted.value))
  }

  /** No two different chains have an index of one length. */
  predicate DistinctLengths(chains: multiset<Value>) {
    forall x <- chains, y <- chains :: IndexLength(x) == IndexLength(y) ==> x == y
  }

  lemma FirstIsLongest(s: seq<Value>, x: Value)
    requires Descending(s) && s != [] && x in multiset(s)
    ensures IndexLength(s[0]) >= IndexLength(x) && s[0] in multiset(s)
  {
    assert x in s;
  }

  lemma SameLength(s: seq<Value>, t: seq<Value>)
    requires multiset(s) == multiset(t)
    ensures |s| == |t|
  {
    assert |s| == |multiset(s)|;
    assert |t| == |multiset(t)|;
  }

  lemma SameFirst(s: seq<Value>, t: seq<Value>)
    requires multiset(s) == multiset(t) && Descending(s) && Descending(t) && DistinctLengths(multiset(s)) && s != [] && t != []
    ensures s[0] == t[0]
  {
    assert t[0] in multiset(t) && s[0] in multiset(s);
    FirstIsLongest(s, t[0]);
    FirstIsLongest(t, s[0]);
    hide Descending, IndexLength;
  }

  lemma RestOf(s: seq<Value>)
    requires s != [] && Descending(s)
    ensures multiset(s[1..]) == multiset(s) - multiset{s[0]} && Descending(s[1..])
  {
    assert s == [s[0]] + s[1..];
  }

  lemma FewerDistinct(chains: multiset<Value>, x: Value)
    requires DistinctLengths(chains)
    ensures DistinctLengths(chains - multiset{x})
  {
    hide IndexLength;
    var fewer := chains - multiset{x};
    forall y, z | y in fewer && z in fewer && IndexLength(y) == IndexLength(z)
      ensures y == z
    {
      assert y in chains && z in chains;
    }
  }

  lemma SameRest(s: seq<Value>, t: seq<Value>)
    requires multiset(s) == multiset(t) && s != [] && t != [] && s[0] == t[0]
    requires Descending(s) && Descending(t) && DistinctLengths(multiset(s))
    ensures multiset(s[1..]) == multiset(t[1..]) && Descending(s[1..]) && Descending(t[1..])
    ensures DistinctLengths(multiset(s[1..]))
  {
    RestOf(s);
    RestOf(t);
    FewerDistinct(multiset(s), s[0]);
    hide Descending, DistinctLengths;
  }

  /** Whatever the sort, chains with indices of different lengths end up in one order. */
  lemma {:induction false} SortIsUnique(s: seq<Value>, t: seq<Value>)
    requires multiset(s) == multiset(t) && Descending(s) && Descending(t) && DistinctLengths(multiset(s))
    ensures s == t
    decreases |s|
  {
    hide Descending, IndexLength, DistinctLengths;
    SameLength(s, t);
    if s != [] {
      SameFirst(s, t);
      SameRest(s, t);
      SortIsUnique(s[1..], t[1..]);
      FrontAndRest(s, t);
    }
  }

  lemma FrontAndRest(s: seq<Value>, t: seq<Value>)
    requires |s| == |t| > 0 && s[0] == t[0] && s[1..] == t[1..]
    ensures s == t
  {
    assert s == [s[0]] + s[1..];
  }

  /** Extracting the same chains again and sorting them again gives the same list. */
  lemma ReextractionKeepsOrder(arrival: seq<Value>, kept: seq<Value>, again: seq<Value>)
    requires IsSortOf(arrival, kept) && IsSortOf(arrival, again) && DistinctLengths(multiset(arrival))
    ensures kept == again
  {
    SortIsUnique(kept, again);
  }

  /** The chains of a sorted list: the one with more elements in its index comes first. */
  lemma LongestFirst(arrival: seq<Value>, sorted: seq<Value>, i: nat, j: nat)
    requires SortedAs(Some(arrival), Some(sorted)) && i < j < |sorted|
    requires forall x <- arrival :: x.Object? && 1 in x.fields && x.fields[1].Many?
    ensures sorted[i] in arrival && sorted[j] in arrival
    ensures |sorted[i].fields[1].values| >= |sorted[j].fields[1].values|
  {
    assert sorted[i] in multiset(sorted) && sorted[j] in multiset(sorted);
  }
}
