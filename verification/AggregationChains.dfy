/** The internal verification of a signature's list of aggregation hash chains. */
module AggregationChains {
  import opened Common
  import opened Hashing
  import opened HashChain

  datatype AggregationChain = AggregationChain(
    time: Option<uint64>,
    index: seq<uint64>,
    input: Imprint,
    hashId: uint64,
    links: seq<Link>)

  /** The step succeeds with the root hash, records a failure, or stops with an error. */
  datatype Verdict = Success(root: Option<Imprint>) | Failure | Stopped(error: Error)

  /** The loop goes on with a level and the last output hash, or has a verdict. */
  datatype Progress = Running(level: int, hash: Option<Imprint>) | Mismatch | Erroneous(error: Error)

  /** Integers are compared as objects: a missing one equals nothing. */
  predicate SameTime(a: Option<uint64>, b: Option<uint64>) {
    a.Some? && a == b
  }

  /** A chain continues the one before it: one round, and an index shorter by its last element. */
  predicate Follows(prev: AggregationChain, chain: AggregationChain) {
    && SameTime(chain.time, prev.time)
    && |prev.index| == |chain.index| + 1
    && chain.index == prev.index[..|chain.index|]
  }

  function TaskOf(chain: AggregationChain, level: int): Task {
    Task(chain.links, chain.input, level, ToInt32(chain.hashId), false)
  }

  /** One chain, behind the chains before it. */
  function Next(h: Digest, chains: seq<AggregationChain>, i: nat, level: int, hash: Option<Imprint>): Progress
    requires i < |chains|
  {
    if i > 0 && !Follows(chains[i - 1], chains[i]) then Mismatch
    else if hash.Some? && hash.value != chains[i].input then Mismatch
    else
      match Aggregate(h, TaskOf(chains[i], level))
      case Err(error) => Erroneous(error)
      case Ok(outcome) => Running(outcome.level, outcome.hash)
  }

  function After(h: Digest, chains: seq<AggregationChain>, level: int, n: nat): Progress
    requires n <= |chains|
  {
    if n == 0 then Running(level, None)
    else
      match After(h, chains, level, n - 1)
      case Running(l, hash) => Next(h, chains, n - 1, l, hash)
      case end => end
  }

  function Verify(h: Digest, chains: seq<AggregationChain>, docLevel: int): Verdict {
    match After(h, chains, docLevel, |chains|)
    case Running(_, hash) => Success(hash)
    case Mismatch => Failure
    case Erroneous(error) => Stopped(error)
  }

  lemma {:induction false} EndStays(h: Digest, chains: seq<AggregationChain>, level: int, i: nat, n: nat)
    requires i <= n <= |chains| && !After(h, chains, level, i).Running?
    ensures After(h, chains, level, n) == After(h, chains, level, i)
  {
    if i < n {
      EndStays(h, chains, level, i, n - 1);
    }
  }

  lemma {:induction false} RunningBefore(h: Digest, chains: seq<AggregationChain>, level: int, i: nat, n: nat)
    requires i <= n <= |chains| && After(h, chains, level, n).Running?
    ensures After(h, chains, level, i).Running?
  {
    if i < n {
      RunningBefore(h, chains, level, i, n - 1);
    }
  }

  /** The loop of the source. A chain whose input hash differs from the last output leaves the
      loop early, which the count of successes then shows. */
  method VerifyInternally(h: Digest, chains: seq<AggregationChain>, docAggrLevel: int)
      returns (verdict: Verdict)
    ensures verdict == Verify(h, chains, docAggrLevel)
  {
    hide Aggregate;
    var hsh: DataHash? := null;
    var level := docAggrLevel;
    var successCount := 0;
    var i := 0;
    while i < |chains|
      invariant 0 <= i <= |chains| && successCount == i
      invariant After(h, chains, docAggrLevel, i) == Running(level, if hsh == null then None else Some(hsh.imprint))
    {
      var chain := chains[i];
      if !After(h, chains, docAggrLevel, i + 1).Running? {
        EndStays(h, chains, docAggrLevel, i + 1, |chains|);
      }
      if i > 0 {
        var prevChain := chains[i - 1];
        if !SameTime(chain.time, prevChain.time) {
          return Failure;
        }
        if |prevChain.index| != |chain.index| + 1 {
          return Failure;
        }
        for j := 0 to |chain.index|
          invariant chain.index[..j] == prevChain.index[..j]
        {
          if prevChain.index[j] != chain.index[j] {
            assert chain.index[j] != prevChain.index[..|chain.index|][j];
            return Failure;
          }
        }
        assert chain.index[..|chain.index|] == chain.index;
      }
      var inputHash := new DataHash(chain.input);
      if hsh != null {
        if hsh.imprint != inputHash.imprint {
          break;
        }
      }
      var res, endLevel, tmpHash := AggregateChain(h, chain.links, inputHash, level, ToInt32(chain.hashId), false);
      if res.Err? {
        return Stopped(res.error);
      }
      level, hsh := endLevel, tmpHash;
      successCount := successCount + 1;
      i := i + 1;
    }
    if successCount != |chains| {
      return Failure;
    }
    return Success(if hsh == null then None else Some(hsh.imprint));
  }

  // ---- what success means --------------------------------------------------------------------

  predicate AllFollow(chains: seq<AggregationChain>, n: nat)
    requires n <= |chains|
  {
    forall i | 0 < i < n :: Follows(chains[i - 1], chains[i])
  }

  lemma {:induction false} RunningFollows(h: Digest, chains: seq<AggregationChain>, level: int, n: nat)
    requires n <= |chains| && After(h, chains, level, n).Running?
    ensures AllFollow(chains, n)
  {
    hide Aggregate, Follows;
    if n > 0 {
      RunningFollows(h, chains, level, n - 1);
    }
  }

  lemma {:induction false} RunningInRange(h: Digest, chains: seq<AggregationChain>, level: int, n: nat)
    requires n <= |chains| && After(h, chains, level, n).Running? && level <= MAX_LEVEL
    ensures After(h, chains, level, n).level <= MAX_LEVEL
  {
    hide Aggregate, Follows;
    if n > 0 {
      RunningInRange(h, chains, level, n - 1);
      EndLevelInRange(h, TaskOf(chains[n - 1], After(h, chains, level, n - 1).level));
    }
  }

  lemma EndLevelInRange(h: Digest, task: Task)
    requires Aggregate(h, task).Ok? && task.startLevel <= MAX_LEVEL
    ensures Aggregate(h, task).value.level <= MAX_LEVEL
  {
    if task.chain != [] {
      NoErrorBelow(task, |task.chain|, |task.chain| - 1);
    }
  }

  lemma {:induction false} IndexIsPrefix(chains: seq<AggregationChain>, i: nat)
    requires AllFollow(chains, |chains|) && i < |chains|
    ensures |chains[0].index| == |chains[i].index| + i
    ensures chains[i].index == chains[0].index[..|chains[0].index| - i]
    ensures i > 0 ==> chains[i].time.Some? && chains[i].time == chains[0].time
  {
    if i > 0 {
      IndexIsPrefix(chains, i - 1);
      assert Follows(chains[i - 1], chains[i]);
    }
  }

  /** Success on any list: every index is the first one shortened by its position, all chains
      are of one aggregation round, and the levels stayed in range. */
  lemma SuccessMeansPrefixes(h: Digest, chains: seq<AggregationChain>, docLevel: int, i: nat)
    requires Verify(h, chains, docLevel).Success? && i < |chains| && docLevel <= MAX_LEVEL
    ensures |chains[0].index| >= i && chains[i].index == chains[0].index[..|chains[0].index| - i]
    ensures i > 0 ==> chains[i].time.Some? && chains[i].time == chains[0].time
    ensures var p := After(h, chains, docLevel, i + 1); p.Running? && p.level <= MAX_LEVEL
  {
    RunningFollows(h, chains, docLevel, |chains|);
    IndexIsPrefix(chains, i);
    RunningBefore(h, chains, docLevel, i + 1, |chains|);
    RunningInRange(h, chains, docLevel, i + 1);
  }

  // ---- one chain after another ---------------------------------------------------------------

  /** The index has one element less than the one before, and these are the first ones of it. */
  predicate IndexContinues(prev: seq<uint64>, index: seq<uint64>) {
    |prev| == |index| + 1 && forall j | 0 <= j < |index| :: index[j] == prev[j]
  }

  /** What the loop does at a chain that it reaches. The first test that applies decides: another
      or a missing time, an index that does not continue the one before, an input hash that is not
      the output before, an error of the aggregation; else the loop goes on with its level and
      its hash. */
  lemma ReachedChain(h: Digest, chains: seq<AggregationChain>, docLevel: int, i: nat)
    requires i < |chains| && After(h, chains, docLevel, i).Running?
    ensures var level, output, chain := After(h, chains, docLevel, i).level, After(h, chains, docLevel, i).hash, chains[i];
      if i > 0 && (chain.time == None || chain.time != chains[i - 1].time) then Verify(h, chains, docLevel) == Failure
      else if i > 0 && !IndexContinues(chains[i - 1].index, chain.index) then Verify(h, chains, docLevel) == Failure
      else if output != None && output != Some(chain.input) then Verify(h, chains, docLevel) == Failure
      else
        match Aggregate(h, Task(chain.links, chain.input, level, ToInt32(chain.hashId), false))
        case Err(error) => Verify(h, chains, docLevel) == Stopped(error)
        case Ok(outcome) => After(h, chains, docLevel, i + 1) == Running(outcome.level, outcome.hash)
  {
    if i > 0 && IndexContinues(chains[i - 1].index, chains[i].index) {
      assert chains[i].index == chains[i - 1].index[..|chains[i].index|];
    }
    if !After(h, chains, docLevel, i + 1).Running? {
      EndStays(h, chains, docLevel, i + 1, |chains|);
    }
    assert After(h, chains, docLevel, i + 1) ==
      Next(h, chains, i, After(h, chains, docLevel, i).level, After(h, chains, docLevel, i).hash);
    hide Aggregate, After, ToInt32;
  }

  /** A chain of another aggregation round, or without a time, behind chains that are accepted. */
  lemma OtherTimeFails(h: Digest, chains: seq<AggregationChain>, docLevel: int, i: nat)
    requires 0 < i < |chains| && Verify(h, chains[..i], docLevel).Success?
    requires chains[i].time == None || chains[i].time != chains[i - 1].time
    ensures Verify(h, chains, docLevel) == Failure
  {
    AfterOfPrefix(h, chains, docLevel, i, i);
    ReachedChain(h, chains, docLevel, i);
  }

  /** The links of the first n chains. */
  function AllLinks(chains: seq<AggregationChain>, n: nat): seq<Link>
    requires n <= |chains|
  {
    if n == 0 then [] else AllLinks(chains, n - 1) + chains[n - 1].links
  }

  predicate OneAlgorithm(chains: seq<AggregationChain>) {
    chains != [] && forall i | 0 <= i < |chains| :: chains[i].hashId == chains[0].hashId
  }

  predicate NoneEmpty(chains: seq<AggregationChain>) {
    forall i | 0 <= i < |chains| :: chains[i].links != []
  }

  /** The single aggregation of all links of the first n chains. */
  function WholeTask(chains: seq<AggregationChain>, docLevel: int, n: nat): Task
    requires 0 < n <= |chains|
  {
    TaskOf(chains[0].(links := AllLinks(chains, n)), docLevel)
  }

  lemma HashOfNonEmpty(h: Digest, task: Task)
    requires task.chain != [] && Aggregate(h, task).Ok?
    ensures Aggregate(h, task).value.hash.Some?
  {
  }

  lemma {:induction false} PrefixComposes(h: Digest, chains: seq<AggregationChain>, docLevel: int, n: nat)
    requires OneAlgorithm(chains) && NoneEmpty(chains) && 0 < n <= |chains| && After(h, chains, docLevel, n).Running?
    ensures AllLinks(chains, n) != []
    ensures var p := After(h, chains, docLevel, n);
      p.hash.Some? && Aggregate(h, WholeTask(chains, docLevel, n)) == Ok(Outcome(p.level, p.hash))
  {
    hide Aggregate;
    var last := chains[n - 1];
    assert last.links != [];
    HashOfNonEmpty(h, TaskOf(last, After(h, chains, docLevel, n - 1).level));
    if n == 1 {
      assert AllLinks(chains, 0) + chains[0].links == chains[0].links;
      assert chains[0].(links := AllLinks(chains, 1)) == chains[0];
    } else {
      PrefixComposes(h, chains, docLevel, n - 1);
      assert After(h, chains, docLevel, n - 1).hash == Some(last.input);
      NextComposes(h, chains, docLevel, n - 1);
    }
  }

  /** The reference: every index follows the one before, and aggregating all links up to a chain
      in one run succeeds and gives the input hash that the next chain names. */
  predicate Consistent(h: Digest, chains: seq<AggregationChain>, docLevel: int, n: nat)
    requires n <= |chains|
  {
    && AllFollow(chains, n)
    && forall k | 0 < k <= n :: Continuous(h, chains, docLevel, n, k)
  }

  predicate Continuous(h: Digest, chains: seq<AggregationChain>, docLevel: int, n: nat, k: nat)
    requires 0 < k <= n <= |chains|
  {
    var whole := Aggregate(h, WholeTask(chains, docLevel, k));
    whole.Ok? && (k < n ==> whole.value.hash == Some(chains[k].input))
  }

  lemma {:induction false} ConsistentRuns(h: Digest, chains: seq<AggregationChain>, docLevel: int, n: nat)
    requires OneAlgorithm(chains) && NoneEmpty(chains) && n <= |chains| && Consistent(h, chains, docLevel, n)
    ensures After(h, chains, docLevel, n).Running?
  {
    hide Aggregate, Follows;
    if n > 0 {
      var whole := Aggregate(h, WholeTask(chains, docLevel, n));
      assert Continuous(h, chains, docLevel, n, n);
      var m := n - 1;
      forall k | 0 < k <= m
        ensures Continuous(h, chains, docLevel, m, k)
      {
        assert Continuous(h, chains, docLevel, n, k);
      }
      ConsistentRuns(h, chains, docLevel, n - 1);
      if n == 1 {
        assert AllLinks(chains, 0) + chains[0].links == chains[0].links;
        assert chains[0].(links := AllLinks(chains, 1)) == chains[0];
      } else {
        assert Continuous(h, chains, docLevel, n, n - 1);
        PrefixComposes(h, chains, docLevel, n - 1);
        NextComposes(h, chains, docLevel, n - 1);
        assert Follows(chains[n - 2], chains[n - 1]);
      }
    }
  }

  /** Aggregating chain n behind the run over all chains before it. */
  lemma NextComposes(h: Digest, chains: seq<AggregationChain>, docLevel: int, n: nat)
    requires OneAlgorithm(chains) && NoneEmpty(chains) && 0 < n < |chains|
    requires AllLinks(chains, n) != []
    requires var before := Aggregate(h, WholeTask(chains, docLevel, n));
      before.Ok? && before.value.hash == Some(chains[n].input)
    ensures var level := Aggregate(h, WholeTask(chains, docLevel, n)).value.level;
      Aggregate(h, WholeTask(chains, docLevel, n + 1)) == Aggregate(h, TaskOf(chains[n], level))
  {
    hide Aggregate;
    var whole := WholeTask(chains, docLevel, n);
    var task := TaskOf(chains[n], Aggregate(h, whole).value.level);
    assert chains[n].links != [] && chains[n].hashId == chains[0].hashId;
    AggregateConcat(h, whole, task);
    assert Joined(whole, task) == WholeTask(chains, docLevel, n + 1);
  }

  lemma {:induction false} RunsConsistent(h: Digest, chains: seq<AggregationChain>, docLevel: int, n: nat)
    requires OneAlgorithm(chains) && NoneEmpty(chains) && n <= |chains| && After(h, chains, docLevel, n).Running?
    ensures Consistent(h, chains, docLevel, n)
  {
    hide Aggregate, Follows;
    if n > 0 {
      RunsConsistent(h, chains, docLevel, n - 1);
      RunningFollows(h, chains, docLevel, n);
      forall k | 0 < k <= n
        ensures Continuous(h, chains, docLevel, n, k)
      {
        if k < n {
          assert Continuous(h, chains, docLevel, n - 1, k);
        }
        if n - 1 <= k {
          PrefixComposes(h, chains, docLevel, k);
        }
      }
    }
  }

  /** The verification succeeds exactly when the list is consistent, and its result is that of one
      aggregation of all links in order, from the input of the first chain. */
  predicate Composes(h: Digest, chains: seq<AggregationChain>, docLevel: int)
    requires chains != []
  {
    var verdict, whole := Verify(h, chains, docLevel), Aggregate(h, WholeTask(chains, docLevel, |chains|));
    && (verdict.Success? <==> Consistent(h, chains, docLevel, |chains|))
    && (verdict.Success? ==> whole.Ok? && whole.value.hash.Some? && verdict == Success(whole.value.hash))
  }

  /** Non-empty chains with one hash algorithm compose. */
  lemma ChainsCompose(h: Digest, chains: seq<AggregationChain>, docLevel: int)
    requires OneAlgorithm(chains) && NoneEmpty(chains)
    ensures Composes(h, chains, docLevel)
  {
    hide Aggregate, Consistent;
    if Verify(h, chains, docLevel).Success? {
      RunsConsistent(h, chains, docLevel, |chains|);
      PrefixComposes(h, chains, docLevel, |chains|);
    } else if Consistent(h, chains, docLevel, |chains|) {
      ConsistentRuns(h, chains, docLevel, |chains|);
      assert false;
    }
  }

  // ---- empty chains --------------------------------------------------------------------------

  lemma {:induction false} AfterOfPrefix(h: Digest, chains: seq<AggregationChain>, level: int, n: nat, k: nat)
    requires k <= n <= |chains|
    ensures After(h, chains[..n], level, k) == After(h, chains, level, k)
  {
    hide Aggregate, Follows;
    if k > 0 {
      AfterOfPrefix(h, chains, level, n, k - 1);
    }
  }

  lemma HashOfChain(h: Digest, chains: seq<AggregationChain>, level: int, i: nat)
    requires i < |chains| && After(h, chains, level, i + 1).Running?
    ensures After(h, chains, level, i + 1).hash == None <==> chains[i].links == []
  {
    hide Follows;
  }

  /** The condition of the composition is exact: in a list that is verified, each prefix composes
      exactly if no chain is empty. */
  lemma ChainsComposeExact(h: Digest, chains: seq<AggregationChain>, docLevel: int)
    requires OneAlgorithm(chains) && Verify(h, chains, docLevel).Success?
    ensures NoneEmpty(chains) <==> forall n | 0 < n <= |chains| :: Composes(h, chains[..n], docLevel)
  {
    hide Aggregate, Consistent, After;
    if NoneEmpty(chains) {
      forall n | 0 < n <= |chains|
        ensures Composes(h, chains[..n], docLevel)
      {
        ChainsCompose(h, chains[..n], docLevel);
      }
    } else {
      var i :| 0 <= i < |chains| && chains[i].links == [];
      RunningBefore(h, chains, docLevel, i + 1, |chains|);
      HashOfChain(h, chains, docLevel, i);
      AfterOfPrefix(h, chains, docLevel, i + 1, i + 1);
      assert !Composes(h, chains[..i + 1], docLevel);
    }
  }

  /** The list with another input hash in one chain. */
  function WithInput(chains: seq<AggregationChain>, i: nat, x: Imprint): seq<AggregationChain>
    requires i < |chains|
  {
    chains[i := chains[i].(input := x)]
  }

  lemma {:induction false} AfterWithInput(h: Digest, chains: seq<AggregationChain>, level: int, i: nat, x: Imprint, n: nat)
    requires n <= i < |chains|
    ensures After(h, WithInput(chains, i, x), level, n) == After(h, chains, level, n)
  {
    hide Aggregate, Follows;
    if n > 0 {
      AfterWithInput(h, chains, level, i, x, n - 1);
    }
  }

  lemma {:induction false} ErrorsWithInput(task: Task, x: Imprint, n: nat)
    requires n <= |task.chain| && !task.isCalendar
    ensures LevelAfter(task.(input := x), n) == LevelAfter(task, n)
    ensures FirstError(task.(input := x), n) == FirstError(task, n)
  {
    hide StepError, NextLevel;
    if n > 0 {
      ErrorsWithInput(task, x, n - 1);
    }
  }

  lemma AggregateWithInput(h: Digest, task: Task, x: Imprint)
    requires !task.isCalendar
    ensures Aggregate(h, task.(input := x)).Ok? <==> Aggregate(h, task).Ok?
  {
    hide FirstError, LevelAfter;
    ErrorsWithInput(task, x, |task.chain|);
  }

  /** With that input hash the loop gets past chain i. */
  predicate Passes(h: Digest, chains: seq<AggregationChain>, level: int, i: nat, x: Imprint)
    requires i < |chains|
  {
    After(h, WithInput(chains, i, x), level, i + 1).Running?
  }

  /** Chain i is ready to be aggregated, but for the comparison of its input hash. */
  predicate Ready(h: Digest, chains: seq<AggregationChain>, level: int, i: nat)
    requires 0 < i < |chains|
  {
    var p := After(h, chains, level, i);
    Follows(chains[i - 1], chains[i]) && p.Running? && Aggregate(h, TaskOf(chains[i], p.level)).Ok?
  }

  lemma InputChecked(h: Digest, chains: seq<AggregationChain>, docLevel: int, i: nat, x: Imprint)
    requires 0 < i < |chains| && Ready(h, chains, docLevel, i)
    ensures var output := After(h, chains, docLevel, i).hash;
      && (output == None <==> chains[i - 1].links == [])
      && (Passes(h, chains, docLevel, i, x) <==> output == None || output == Some(x))
      && (!Passes(h, chains, docLevel, i, x) ==> After(h, WithInput(chains, i, x), docLevel, i + 1) == Mismatch)
  {
    HashOfChain(h, chains, docLevel, i - 1);
    AfterWithInput(h, chains, docLevel, i, x, i);
    var p := After(h, chains, docLevel, i);
    AggregateWithInput(h, TaskOf(chains[i], p.level), x);
    var changed := WithInput(chains, i, x);
    assert changed[i - 1] == chains[i - 1] && Follows(changed[i - 1], changed[i]);
    assert TaskOf(changed[i], p.level) == TaskOf(chains[i], p.level).(input := x);
    assert After(h, changed, docLevel, i + 1) == Next(h, changed, i, p.level, p.hash);
    hide Aggregate, Follows, TaskOf, After;
  }

  lemma OtherImprint(x: Imprint) returns (y: Imprint)
    ensures y != x
  {
    var last := |x| - 1;
    var b: int := x[last];
    y := x[last := (b + 1) % 256];
  }

  /** An empty chain has no output hash. At any position, the input hash of a chain may be anything
      exactly if the chain before is empty; otherwise it must be the output hash of that chain,
      and any other is a failure of the whole list. */
  lemma EmptyChainBreaksTheLink(h: Digest, chains: seq<AggregationChain>, docLevel: int, i: nat)
    requires 0 < i < |chains| && Ready(h, chains, docLevel, i)
    ensures chains[i - 1].links == [] <==> forall x: Imprint :: Passes(h, chains, docLevel, i, x)
    ensures forall x: Imprint ::
      Passes(h, chains, docLevel, i, x) <==> chains[i - 1].links == [] || After(h, chains, docLevel, i).hash == Some(x)
    ensures forall x: Imprint ::
      Passes(h, chains, docLevel, i, x) || Verify(h, WithInput(chains, i, x), docLevel) == Failure
  {
    var output := After(h, chains, docLevel, i).hash;
    hide Aggregate, After, Follows, Next, Ready;
    forall x: Imprint
      ensures Passes(h, chains, docLevel, i, x) <==> chains[i - 1].links == [] || output == Some(x)
      ensures !Passes(h, chains, docLevel, i, x) ==> Verify(h, WithInput(chains, i, x), docLevel) == Failure
    {
      InputChecked(h, chains, docLevel, i, x);
      var changed := WithInput(chains, i, x);
      if !Passes(h, chains, docLevel, i, x) {
        EndStays(h, changed, docLevel, i + 1, |changed|);
      }
    }
    if chains[i - 1].links != [] {
      var x := chains[i].input;
      var y := OtherImprint(x);
      assert !(Passes(h, chains, docLevel, i, x) && Passes(h, chains, docLevel, i, y));
    }
  }
}
