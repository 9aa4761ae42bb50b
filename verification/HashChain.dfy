/** Aggregation along a hash chain: what it computes, and what its result binds. */
module HashChain {
  import opened Common
  import opened Hashing

  /** A link has exactly one sibling: an imprint, a hash of metadata, or metadata as raw bytes. */
  datatype Link = Link(
    isLeft: bool,
    levelCorrection: Option<uint64>,
    imprint: Option<Imprint>,
    metaHash: Option<Imprint>,
    metaData: Option<seq<byte>>)

  const MAX_LEVEL := 0xff

  function Sibling(link: Link): Result<seq<byte>> {
    match (link.imprint, link.metaHash, link.metaData)
    case (Some(bytes), None, None) => Ok(bytes)
    case (None, Some(bytes), None) => Ok(bytes)
    case (None, None, Some(bytes)) => if bytes == [] then Err(InvalidArgument) else Ok(bytes)
    case _ => Err(InvalidFormat)
  }

  function Correction(link: Link): uint64 {
    if link.levelCorrection.Some? then link.levelCorrection.value else 0
  }

  /** A whole aggregation: a calendar chain keeps its level and takes the algorithm from hashes. */
  datatype Task = Task(chain: seq<Link>, input: Imprint, startLevel: int, hashId: int, isCalendar: bool)

  function NextLevel(level: int, link: Link): int {
    ToInt32(level + ToInt32(Correction(link)) + 1)
  }

  function NextAlgorithm(algorithm: int, link: Link): int {
    if link.isLeft && link.imprint.Some? then link.imprint.value[0] else algorithm
  }

  /** The level after n links. The sum is truncated to an `int`; no range check stops it here. */
  function LevelAfter(task: Task, n: nat): int
    requires n <= |task.chain|
  {
    if n == 0 || task.isCalendar then task.startLevel
    else NextLevel(LevelAfter(task, n - 1), task.chain[n - 1])
  }

  /** The algorithm id when n links have been looked at: a calendar chain starts with that of the
      input hash, and every left link replaces it. */
  function AlgorithmAfter(task: Task, n: nat): int
    requires n <= |task.chain|
  {
    if !task.isCalendar then task.hashId
    else if n == 0 then task.input[0]
    else NextAlgorithm(AlgorithmAfter(task, n - 1), task.chain[n - 1])
  }

  /** The algorithm of every digest of the run: that of the first one. */
  function HasherAlgorithm(task: Task): int
    requires task.chain != []
  {
    AlgorithmAfter(task, 1)
  }

  /** The error that a link stops the run with, if any, when its digest uses `algorithm`. */
  function StepError(link: Link, isCalendar: bool, isFirst: bool, algorithm: int, level: int): Option<Error> {
    if isCalendar && link.isLeft && link.imprint.None? then Some(InvalidArgument)
    else if isFirst && !IsSupported(algorithm) then Some(UnavailableHashAlgorithm)
    else if Sibling(link).Err? then Some(Sibling(link).error)
    else if level > MAX_LEVEL then Some(InvalidFormat)
    else None
  }

  function LinkError(task: Task, i: nat): Option<Error>
    requires i < |task.chain|
  {
    StepError(task.chain[i], task.isCalendar, i == 0, HasherAlgorithm(task), LevelAfter(task, i + 1))
  }

  /** The first error among the first n links. */
  function FirstError(task: Task, n: nat): Option<Error>
    requires n <= |task.chain|
  {
    if n == 0 then None
    else
      match FirstError(task, n - 1)
      case Some(error) => Some(error)
      case None => LinkError(task, n - 1)
  }

  // ---- the hash tree path --------------------------------------------------------------------

  /** One step up a hash tree. */
  datatype Layer = Layer(algorithm: int, isLeft: bool, sibling: seq<byte>, level: byte)

  /** The string that a layer hashes over the hash below it. */
  function Message(layer: Layer, below: seq<byte>): seq<byte> {
    (if layer.isLeft then below + layer.sibling else layer.sibling + below) + [layer.level]
  }

  predicate Supported(layers: seq<Layer>) {
    forall i | 0 <= i < |layers| :: IsSupported(layers[i].algorithm)
  }

  function ImprintOver(h: Digest, layer: Layer, below: Imprint): Imprint
    requires IsSupported(layer.algorithm)
  {
    ImprintOf(h, layer.algorithm, Message(layer, below))
  }

  /** The root over the layers, the last layer on top. */
  function Root(h: Digest, layers: seq<Layer>, input: Imprint): Imprint
    requires Supported(layers)
  {
    if layers == [] then input
    else
      var n := |layers| - 1;
      ImprintOver(h, layers[n], Root(h, layers[..n], input))
  }

  function LayerOf(task: Task, i: nat): Layer
    requires i < |task.chain| && Sibling(task.chain[i]).Ok?
  {
    Layer(HasherAlgorithm(task), task.chain[i].isLeft, Sibling(task.chain[i]).value, LevelAfter(task, i + 1) % 256)
  }

  lemma {:induction false} NoErrorBelow(task: Task, n: nat, i: nat)
    requires i < n <= |task.chain| && FirstError(task, n) == None
    ensures LinkError(task, i) == None && FirstError(task, i) == None
  {
    if i < n - 1 {
      NoErrorBelow(task, n - 1, i);
    }
  }

  lemma {:induction false} ErrorStays(task: Task, i: nat, n: nat)
    requires i <= n <= |task.chain| && FirstError(task, i).Some?
    ensures FirstError(task, n) == FirstError(task, i)
  {
    if i < n {
      ErrorStays(task, i, n - 1);
    }
  }

  /** The layers of the first n links. */
  function Layers(task: Task, n: nat): (layers: seq<Layer>)
    requires n <= |task.chain| && FirstError(task, n) == None
    ensures |layers| == n && Supported(layers)
  {
    if n == 0 then []
    else
      assert IsSupported(HasherAlgorithm(task)) by { NoErrorBelow(task, n, 0); }
      Layers(task, n - 1) + [LayerOf(task, n - 1)]
  }

  lemma {:induction false} LayerAt(task: Task, n: nat, i: nat)
    requires i < n <= |task.chain| && FirstError(task, n) == None
    ensures Sibling(task.chain[i]).Ok? && Layers(task, n)[i] == LayerOf(task, i)
  {
    if i < n - 1 {
      LayerAt(task, n - 1, i);
    }
  }

  datatype Outcome = Outcome(level: int, hash: Option<Imprint>)

  /** The outcome of an aggregation. An empty chain gives no hash at all. */
  function Aggregate(h: Digest, task: Task): Result<Outcome> {
    var n := |task.chain|;
    match FirstError(task, n)
    case Some(error) => Err(error)
    case None => Ok(Outcome(LevelAfter(task, n), if n == 0 then None else Some(Root(h, Layers(task, n), task.input))))
  }

  // ---- the loop of the source ----------------------------------------------------------------

  method AddNvlImprint(first: DataHash?, second: DataHash, hsr: DataHasher)
    modifies hsr
    ensures hsr.fed == old(hsr.fed) + (if first != null then first.imprint else second.imprint)
  {
    var hsh := second;
    if first != null {
      hsh := first;
    }
    hsr.Add(hsh.imprint);
  }

  method AddChainImprint(hsr: DataHasher, link: Link) returns (res: Result<()>)
    modifies hsr
    ensures match Sibling(link)
      case Ok(bytes) => res == Ok(()) && hsr.fed == old(hsr.fed) + bytes
      case Err(error) => res == Err(error) && hsr.fed == old(hsr.fed)
  {
    var mode := (if link.imprint.Some? then 1 else 0) + (if link.metaHash.Some? then 2 else 0)
      + (if link.metaData.Some? then 4 else 0);
    var bytes: seq<byte>;
    if mode == 1 {
      bytes := link.imprint.value;
    } else if mode == 2 {
      bytes := link.metaHash.value;
    } else if mode == 4 {
      bytes := link.metaData.value;
      if bytes == [] {
        return Err(InvalidArgument);
      }
    } else {
      return Err(InvalidFormat);
    }
    hsr.Add(bytes);
    return Ok(());
  }

  /** Feeds the hash below, the sibling and the level of one link to the hasher. */
  method AddLink(hsr: DataHasher, hsh: DataHash?, inputHash: DataHash, link: Link, level: int) returns (res: Result<()>)
    requires hsr.fed == []
    modifies hsr
    ensures match Sibling(link)
      case Err(error) => res == Err(error)
      case Ok(bytes) =>
        if level > MAX_LEVEL then res == Err(InvalidFormat)
        else
          && res == Ok(())
          && hsr.fed == Message(Layer(hsr.algorithm, link.isLeft, bytes, level % 256),
                                if hsh == null then inputHash.imprint else hsh.imprint)
  {
    hide DigestLength;
    if link.isLeft {
      AddNvlImprint(hsh, inputHash, hsr);
      res := AddChainImprint(hsr, link);
      if res.Err? {
        return;
      }
    } else {
      res := AddChainImprint(hsr, link);
      if res.Err? {
        return;
      }
      AddNvlImprint(hsh, inputHash, hsr);
    }
    if level > MAX_LEVEL {
      return Err(InvalidFormat);
    }
    hsr.Add([level % 256]);
  }

  /** One round of the loop. The hasher is created or reset, the hash below, the sibling and the
      level are added, and the hash object is created or overwritten. */
  method AggregateLink(h: Digest, link: Link, inputHash: DataHash, isCalendar: bool,
                       level0: int, algoId0: int, hsr0: DataHasher?, hsh0: DataHash?)
      returns (res: Result<()>, level: int, algoId: int, hsr: DataHasher?, hsh: DataHash?)
    requires hsr0 != null ==> hsr0.h == h && IsSupported(hsr0.algorithm)
    modifies hsr0, hsh0
    ensures level == if isCalendar then level0 else NextLevel(level0, link)
    ensures algoId == if isCalendar then NextAlgorithm(algoId0, link) else algoId0
    ensures var algorithm := if hsr0 == null then algoId else hsr0.algorithm;
      match StepError(link, isCalendar, hsr0 == null, algorithm, level)
      case Some(error) => res == Err(error)
      case None =>
        && res == Ok(())
        && hsr != null && hsr.h == h && hsr.algorithm == algorithm && IsSupported(algorithm)
        && hsh != null && hsh.imprint == ImprintOver(h, Layer(algorithm, link.isLeft, Sibling(link).value, level % 256),
             old(if hsh0 == null then inputHash.imprint else hsh0.imprint))
    ensures hsr0 != null ==> hsr == hsr0
    ensures hsh0 != null ==> hsh == hsh0
    ensures hsr0 == null && hsr != null ==> fresh(hsr)
    ensures hsh0 == null && hsh != null ==> fresh(hsh)
  {
    level, algoId, hsr, hsh := level0, algoId0, hsr0, hsh0;
    if !isCalendar {
      level := ToInt32(level + ToInt32(Correction(link)) + 1);
    } else if link.isLeft {
      if link.imprint.None? {
        return Err(InvalidArgument), level, algoId, hsr, hsh;
      }
      algoId := link.imprint.value[0];
    }
    hide ToInt32, DigestLength, Correction, Sibling, Message, ImprintOf;
    if hsr != null {
      hsr.Reset();
    } else {
      var hasher := OpenHasher(h, algoId);
      if hasher.Err? {
        return Err(hasher.error), level, algoId, hsr, hsh;
      }
      hsr := hasher.value;
    }
    res := AddLink(hsr, hsh, inputHash, link, level);
    if res.Err? {
      return;
    }
    if hsh != null {
      hsr.CloseExisting(hsh);
    } else {
      hsh := hsr.Close();
    }
  }

  lemma FirstLink(h: Digest, task: Task)
    ensures FirstError(task, 0) == None && LevelAfter(task, 0) == task.startLevel
    ensures AlgorithmAfter(task, 0) == if task.isCalendar then task.input[0] else task.hashId
    ensures RootAfter(h, task, 0) == task.input
  {
  }

  /** The hash when n links are done. */
  function RootAfter(h: Digest, task: Task, n: nat): Imprint
    requires n <= |task.chain| && FirstError(task, n) == None
  {
    Root(h, Layers(task, n), task.input)
  }

  /** The state and the outcome of the run at link i. */
  lemma {:induction false} NextLink(h: Digest, task: Task, i: nat)
    requires i < |task.chain| && FirstError(task, i) == None
    ensures LevelAfter(task, i + 1) ==
      if task.isCalendar then LevelAfter(task, i) else NextLevel(LevelAfter(task, i), task.chain[i])
    ensures AlgorithmAfter(task, i + 1) ==
      if task.isCalendar then NextAlgorithm(AlgorithmAfter(task, i), task.chain[i]) else AlgorithmAfter(task, i)
    ensures i == 0 ==> HasherAlgorithm(task) == AlgorithmAfter(task, i + 1)
    ensures var link := task.chain[i];
      match StepError(link, task.isCalendar, i == 0, HasherAlgorithm(task), LevelAfter(task, i + 1))
      case Some(error) => Aggregate(h, task) == Err(error)
      case None =>
        && FirstError(task, i + 1) == None && Sibling(link).Ok? && IsSupported(HasherAlgorithm(task))
        && RootAfter(h, task, i + 1) ==
           ImprintOver(h, Layer(HasherAlgorithm(task), link.isLeft, Sibling(link).value, LevelAfter(task, i + 1) % 256),
                       RootAfter(h, task, i))
  {
    if LinkError(task, i).Some? {
      ErrorStays(task, i + 1, |task.chain|);
    } else {
      NoErrorBelow(task, i + 1, 0);
      assert Layers(task, i + 1)[..i] == Layers(task, i);
    }
  }

  /** What the loop holds in front of link i. */
  predicate Reached(h: Digest, task: Task, i: nat, level: int, algoId: int, root: Imprint) {
    && i <= |task.chain| && FirstError(task, i) == None
    && level == LevelAfter(task, i) && algoId == AlgorithmAfter(task, i) && root == RootAfter(h, task, i)
  }

  lemma FirstReached(h: Digest, task: Task)
    ensures Reached(h, task, 0, task.startLevel, if task.isCalendar then task.input[0] else task.hashId, task.input)
  {
    FirstLink(h, task);
  }

  lemma {:induction false} NextReached(h: Digest, task: Task, i: nat, level: int, algoId: int, root: Imprint)
    requires i < |task.chain| && Reached(h, task, i, level, algoId, root)
    ensures var link := task.chain[i];
      var nextLevel := if task.isCalendar then level else NextLevel(level, link);
      var nextAlgoId := if task.isCalendar then NextAlgorithm(algoId, link) else algoId;
      && (i == 0 ==> HasherAlgorithm(task) == nextAlgoId)
      && match StepError(link, task.isCalendar, i == 0, HasherAlgorithm(task), nextLevel)
         case Some(error) => Aggregate(h, task) == Err(error)
         case None =>
           && Sibling(link).Ok? && IsSupported(HasherAlgorithm(task))
           && var layer := Layer(HasherAlgorithm(task), link.isLeft, Sibling(link).value, nextLevel % 256);
             Reached(h, task, i + 1, nextLevel, nextAlgoId, ImprintOver(h, layer, root))
  {
    hide FirstError, LevelAfter, AlgorithmAfter, RootAfter, Aggregate, HasherAlgorithm, NextLevel, NextAlgorithm,
      StepError, Sibling, ImprintOver, IsSupported;
    NextLink(h, task, i);
  }

  lemma AllReached(h: Digest, task: Task, level: int, algoId: int, root: Imprint)
    requires Reached(h, task, |task.chain|, level, algoId, root)
    ensures Aggregate(h, task) == Ok(Outcome(level, if task.chain == [] then None else Some(root)))
  {
  }

  /** The variables of the loop in front of link i: the hasher and the hash object are there from
      the second link on, and the input hash is not overwritten. */
  ghost predicate InLoop(h: Digest, task: Task, i: nat, inputHash: DataHash, level: int, algoId: int,
                         hsr: DataHasher?, hsh: DataHash?)
    reads inputHash, hsr, hsh
  {
    && inputHash.imprint == task.input && hsh != inputHash
    && (hsr == null <==> i == 0) && (hsh == null <==> i == 0)
    && (hsr != null ==> task.chain != [] && hsr.h == h && hsr.algorithm == HasherAlgorithm(task) && IsSupported(hsr.algorithm))
    && Reached(h, task, i, level, algoId, if hsh == null then task.input else hsh.imprint)
  }

  /** One round of the loop, as part of the task. */
  method NextRound(h: Digest, link: Link, inputHash: DataHash, isCalendar: bool, level0: int, algoId0: int,
                   hsr0: DataHasher?, hsh0: DataHash?, ghost task: Task, ghost i: nat)
      returns (res: Result<()>, level: int, algoId: int, hsr: DataHasher?, hsh: DataHash?)
    requires i < |task.chain| && link == task.chain[i] && isCalendar == task.isCalendar
    requires InLoop(h, task, i, inputHash, level0, algoId0, hsr0, hsh0)
    modifies hsr0, hsh0
    ensures res.Err? ==> Aggregate(h, task) == Err(res.error)
    ensures res.Ok? ==> InLoop(h, task, i + 1, inputHash, level, algoId, hsr, hsh)
    ensures hsr == hsr0 || hsr == null || fresh(hsr)
    ensures hsh == hsh0 || hsh == null || fresh(hsh)
  {
    hide DigestLength, ImprintOver, StepError, Sibling, Reached, NextLevel, NextAlgorithm, Aggregate,
      HasherAlgorithm, IsSupported;
    NextReached(h, task, i, level0, algoId0, if hsh0 == null then task.input else hsh0.imprint);
    res, level, algoId, hsr, hsh := AggregateLink(h, link, inputHash, isCalendar, level0, algoId0, hsr0, hsh0);
  }

  /** One hasher is opened for the first link and reset for the others; one hash object is
      created by the first link and overwritten by the others. */
  method AggregateChain(h: Digest, chain: seq<Link>, inputHash: DataHash, startLevel: int, hashId: int, isCalendar: bool)
      returns (res: Result<()>, endLevel: int, outputHash: DataHash?)
    ensures var outcome := Aggregate(h, Task(chain, inputHash.imprint, startLevel, hashId, isCalendar));
      match res
      case Err(error) => outcome == Err(error)
      case Ok(_) => outcome == Ok(Outcome(endLevel, if outputHash == null then None else Some(outputHash.imprint)))
    ensures outputHash != null ==> fresh(outputHash)
  {
    ghost var task := Task(chain, inputHash.imprint, startLevel, hashId, isCalendar);
    FirstReached(h, task);
    var level, algoId := startLevel, hashId;
    if isCalendar {
      algoId := inputHash.imprint[0];
    }
    var hsr: DataHasher?, hsh: DataHash? := null, null;
    hide Reached, Aggregate, IsImprint;
    for i := 0 to |chain|
      invariant InLoop(h, task, i, inputHash, level, algoId, hsr, hsh)
      invariant (hsr == null || fresh(hsr)) && (hsh == null || fresh(hsh))
    {
      hide InLoop;
      res, level, algoId, hsr, hsh := NextRound(h, chain[i], inputHash, isCalendar, level, algoId, hsr, hsh, task, i);
      if res.Err? {
        return res, startLevel, null;
      }
    }
    AllReached(h, task, level, algoId, if hsh == null then task.input else hsh.imprint);
    return Ok(()), level, hsh;
  }

  // ---- what one more link does ---------------------------------------------------------------

  lemma {:induction false} PrefixOfMore(task: Task, link: Link, n: nat)
    requires n <= |task.chain|
    ensures var more := task.(chain := task.chain + [link]);
      && LevelAfter(more, n) == LevelAfter(task, n) && AlgorithmAfter(more, n) == AlgorithmAfter(task, n)
      && FirstError(more, n) == FirstError(task, n)
  {
    hide StepError, NextLevel, NextAlgorithm;
    var more := task.(chain := task.chain + [link]);
    if n > 0 {
      PrefixOfMore(task, link, n - 1);
      assert more.chain[n - 1] == task.chain[n - 1];
      FirstAlgorithmOfMore(task, link);
    }
  }

  lemma FirstAlgorithmOfMore(task: Task, link: Link)
    ensures var more := task.(chain := task.chain + [link]);
      var first := more.chain[0];
      && HasherAlgorithm(more) ==
         (if !task.isCalendar then task.hashId
          else if first.isLeft && first.imprint.Some? then first.imprint.value[0]
          else task.input[0])
      && (task.chain != [] ==> HasherAlgorithm(more) == HasherAlgorithm(task))
  {
    var more := task.(chain := task.chain + [link]);
    assert AlgorithmAfter(more, 0) == if task.isCalendar then task.input[0] else task.hashId;
    if task.chain != [] {
      assert more.chain[0] == task.chain[0];
      assert AlgorithmAfter(task, 0) == AlgorithmAfter(more, 0);
    }
  }

  lemma {:induction false} LayersOfMore(task: Task, link: Link, n: nat)
    requires n <= |task.chain| && FirstError(task, n) == None
    ensures var more := task.(chain := task.chain + [link]);
      FirstError(more, n) == None && Layers(more, n) == Layers(task, n)
  {
    PrefixOfMore(task, link, n);
    hide StepError, NextLevel, NextAlgorithm, LevelAfter, AlgorithmAfter, FirstError, HasherAlgorithm, Sibling;
    if n > 0 {
      NoErrorBelow(task, n, n - 1);
      LayersOfMore(task, link, n - 1);
      PrefixOfMore(task, link, n);
      FirstAlgorithmOfMore(task, link);
      LayerAt(task, n, n - 1);
      var more := task.(chain := task.chain + [link]);
      LayerAt(more, n, n - 1);
      assert more.chain[n - 1] == task.chain[n - 1];
    }
  }

  lemma AggregateParts(h: Digest, task: Task)
    requires FirstError(task, |task.chain|) == None
    ensures Aggregate(h, task) == Ok(Outcome(LevelAfter(task, |task.chain|),
      if task.chain == [] then None else Some(Root(h, Layers(task, |task.chain|), task.input))))
  {
  }

  lemma ImprintOverLink(h: Digest, layer: Layer, below: Imprint)
    requires IsSupported(layer.algorithm)
    ensures ImprintOver(h, layer, below) == [layer.algorithm] + h(layer.algorithm,
      if layer.isLeft then below + layer.sibling + [layer.level] else layer.sibling + below + [layer.level])
  {
  }

  /** The link has this sibling, in one of the three forms. */
  predicate HasOnly(link: Link, sibling: seq<byte>) {
    || (link.imprint == Some(sibling) && link.metaHash.None? && link.metaData.None?)
    || (link.imprint.None? && link.metaHash == Some(sibling) && link.metaData.None?)
    || (link.imprint.None? && link.metaHash.None? && link.metaData == Some(sibling) && sibling != [])
  }

  lemma OneSibling(link: Link)
    requires Sibling(link).Ok?
    ensures HasOnly(link, Sibling(link).value)
  {
  }

  /** The hash over one more link: a left link has the hash so far in front of its sibling, a right
      link behind it, and the byte of the new level comes last. */
  lemma HashOfLink(h: Digest, task: Task, link: Link) returns (alg: int, below: Imprint, sibling: seq<byte>, level: int)
    requires Aggregate(h, task.(chain := task.chain + [link])).Ok?
    ensures var first := (task.chain + [link])[0];
      alg == if !task.isCalendar then task.hashId
             else if first.isLeft && first.imprint.Some? then first.imprint.value[0]
             else task.input[0]
    ensures 0 <= alg <= 5 && Aggregate(h, task).Ok?
    ensures match Aggregate(h, task).value.hash
      case Some(hash) => task.chain != [] && below == hash
      case None => task.chain == [] && below == task.input
    ensures HasOnly(link, sibling)
    ensures level == if task.isCalendar then Aggregate(h, task).value.level
                     else ToInt32(Aggregate(h, task).value.level + ToInt32(Correction(link)) + 1)
    ensures Aggregate(h, task.(chain := task.chain + [link])) == Ok(Outcome(level, Some([alg] + h(alg,
      if link.isLeft then below + sibling + [level % 256] else sibling + below + [level % 256]))))
  {
    var more, n := task.(chain := task.chain + [link]), |task.chain|;
    assert FirstError(more, n + 1) == None;
    LastLink(h, task, link);
    AggregateParts(h, task);
    AggregateParts(h, more);
    OneSibling(link);
    ImprintOverLink(h, Layer(HasherAlgorithm(more), link.isLeft, Sibling(link).value, LevelAfter(more, n + 1) % 256),
                    Root(h, Layers(task, n), task.input));
    hide Aggregate, FirstError, Layers, LevelAfter, ToInt32, DigestLength, ImprintOver, Sibling, HasOnly;
    alg, level := HasherAlgorithm(more), LevelAfter(more, n + 1);
    below, sibling := if n == 0 then task.input else Aggregate(h, task).value.hash.value, Sibling(link).value;
    assert n == 0 ==> Root(h, Layers(task, n), task.input) == task.input;
    hide HasherAlgorithm;
  }

  lemma LastLink(h: Digest, task: Task, link: Link)
    requires FirstError(task.(chain := task.chain + [link]), |task.chain| + 1) == None
    ensures var more, n := task.(chain := task.chain + [link]), |task.chain|;
      && FirstError(task, n) == None && Sibling(link).Ok?
      && IsSupported(HasherAlgorithm(more))
      && HasherAlgorithm(more) ==
         (if !task.isCalendar then task.hashId
          else if more.chain[0].isLeft && more.chain[0].imprint.Some? then more.chain[0].imprint.value[0]
          else task.input[0])
      && LevelAfter(more, n + 1) == (if task.isCalendar then LevelAfter(task, n) else NextLevel(LevelAfter(task, n), link))
      && Root(h, Layers(more, n + 1), task.input) ==
         ImprintOver(h, Layer(HasherAlgorithm(more), link.isLeft, Sibling(link).value, LevelAfter(more, n + 1) % 256),
                     Root(h, Layers(task, n), task.input))
  {
    var more, n := task.(chain := task.chain + [link]), |task.chain|;
    NoErrorBelow(more, n + 1, n);
    NoErrorBelow(more, n + 1, 0);
    PrefixOfMore(task, link, n);
    LayersOfMore(task, link, n);
    FirstAlgorithmOfMore(task, link);
    assert Layers(more, n + 1)[..n] == Layers(more, n) && Layers(more, n + 1)[n] == LayerOf(more, n);
    hide ImprintOver, Sibling, NextLevel;
  }

  /** How many of the three forms of a sibling the link has. */
  function SiblingForms(link: Link): nat {
    (if link.imprint.Some? then 1 else 0) + (if link.metaHash.Some? then 1 else 0) + (if link.metaData.Some? then 1 else 0)
  }

  lemma {:induction false} LastLinkError(h: Digest, task: Task, link: Link)
    ensures var more, n := task.(chain := task.chain + [link]), |task.chain|;
      && FirstError(more, n) == FirstError(task, n)
      && LinkError(more, n) == StepError(link, task.isCalendar, n == 0, HasherAlgorithm(more),
           if task.isCalendar then LevelAfter(task, n) else NextLevel(LevelAfter(task, n), link))
  {
    PrefixOfMore(task, link, |task.chain|);
    hide StepError, NextLevel;
  }

  lemma CalendarLevel(h: Digest, task: Task)
    requires task.isCalendar && Aggregate(h, task).Ok?
    ensures Aggregate(h, task).value.level == task.startLevel
  {
  }

  /** Which error one more link is refused with. An error before it stays. */
  lemma LinkRefused(h: Digest, task: Task, link: Link)
    ensures var more := task.(chain := task.chain + [link]);
      match Aggregate(h, task)
      case Err(error) => Aggregate(h, more) == Err(error)
      case Ok(before) =>
        var first := more.chain[0];
        var alg := if !task.isCalendar then task.hashId
                   else if first.isLeft && first.imprint.Some? then first.imprint.value[0]
                   else task.input[0];
        var level := if task.isCalendar then before.level else ToInt32(before.level + ToInt32(Correction(link)) + 1);
        if task.isCalendar && link.isLeft && link.imprint.None? then Aggregate(h, more) == Err(InvalidArgument)
        else if task.chain == [] && !(0 <= alg <= 5) then Aggregate(h, more) == Err(UnavailableHashAlgorithm)
        else if SiblingForms(link) != 1 then Aggregate(h, more) == Err(InvalidFormat)
        else if link.metaData == Some([]) then Aggregate(h, more) == Err(InvalidArgument)
        else if level > 0xff then Aggregate(h, more) == Err(InvalidFormat)
        else Aggregate(h, more).Ok?
  {
    LastLinkError(h, task, link);
    FirstAlgorithmOfMore(task, link);
    hide LevelAfter, AlgorithmAfter, HasherAlgorithm, ToInt32, Root, Layers;
  }

  // ---- levels --------------------------------------------------------------------------------

  /** What the level check of the source tests. It reports an error and goes on. */
  predicate LevelCheckFails(level: int, correction: uint64) {
    correction > 0xff || level + correction + 1 > 0xff
  }

  /** The later test for a level above 0xff stops the run for a failed check, except for exactly
      those corrections above 0xff whose low 32 bits keep the level down. */
  lemma LevelCheckDeparture(level: int, link: Link)
    requires 0 <= level <= MAX_LEVEL
    ensures var correction := Correction(link);
      (NextLevel(level, link) > MAX_LEVEL <==> LevelCheckFails(level, correction)) <==>
      correction <= 0xff || 0xff - level <= correction % 0x1_0000_0000 <= 0x7fff_fffe - level
  {
    var correction := Correction(link);
    var low := correction % 0x1_0000_0000;
    assert correction <= 0xff ==> low == correction;
    if low <= 0x7fff_fffe - level {
      assert NextLevel(level, link) == level + low + 1;
    } else if low < 0x8000_0000 {
      assert NextLevel(level, link) == level + low + 1 - 0x1_0000_0000;
    } else {
      assert NextLevel(level, link) == level + low - 0x1_0000_0000 + 1;
    }
  }

  /** Every link raises the level by its correction and one more. */
  function LevelSum(chain: seq<Link>, n: nat): nat
    requires n <= |chain|
  {
    if n == 0 then 0 else LevelSum(chain, n - 1) + Correction(chain[n - 1]) + 1
  }

  predicate ByteCorrections(chain: seq<Link>) {
    forall i | 0 <= i < |chain| :: Correction(chain[i]) <= 0xff
  }

  lemma {:induction false} LevelSumGrows(chain: seq<Link>, i: nat, n: nat)
    requires i <= n <= |chain|
    ensures LevelSum(chain, i) + (n - i) <= LevelSum(chain, n)
  {
    if i < n {
      LevelSumGrows(chain, i, n - 1);
    }
  }

  lemma {:induction false} LevelIsSum(task: Task, n: nat)
    requires !task.isCalendar && 0 <= task.startLevel && n <= |task.chain| && ByteCorrections(task.chain)
    requires n > 0 ==> task.startLevel + LevelSum(task.chain, n - 1) <= MAX_LEVEL
    ensures LevelAfter(task, n) == task.startLevel + LevelSum(task.chain, n)
  {
    hide ToInt32;
    if n > 0 {
      if n > 1 {
        LevelSumGrows(task.chain, n - 2, n - 1);
      }
      LevelIsSum(task, n - 1);
      SmallInt32(Correction(task.chain[n - 1]));
      SmallInt32(task.startLevel + LevelSum(task.chain, n));
    }
  }

  lemma SmallInt32(x: int)
    requires 0 <= x < 0x8000_0000
    ensures ToInt32(x) == x
  {
  }

  /** The first n links can be aggregated. */
  predicate Feasible(task: Task, n: nat)
    requires n <= |task.chain|
  {
    && (n > 0 ==> IsSupported(task.hashId))
    && (forall i | 0 <= i < n :: Sibling(task.chain[i]).Ok?)
    && task.startLevel + LevelSum(task.chain, n) <= MAX_LEVEL
  }

  lemma FeasibleNext(task: Task, n: nat)
    requires 0 < n <= |task.chain|
    ensures Feasible(task, n) <==>
      && Feasible(task, n - 1) && (n == 1 ==> IsSupported(task.hashId)) && Sibling(task.chain[n - 1]).Ok?
      && task.startLevel + LevelSum(task.chain, n) <= MAX_LEVEL
  {
  }

  lemma {:induction false} ErrorFreePrefix(task: Task, n: nat)
    requires n <= |task.chain| && !task.isCalendar && 0 <= task.startLevel <= MAX_LEVEL && ByteCorrections(task.chain)
    ensures FirstError(task, n) == None <==> Feasible(task, n)
  {
    if n > 0 {
      ErrorFreePrefix(task, n - 1);
      FeasibleNext(task, n);
      if Feasible(task, n - 1) {
        LevelIsSum(task, n);
      }
      hide Feasible, LevelAfter, Sibling;
    }
  }

  /** With corrections that fit in a byte, an aggregation succeeds exactly when its algorithm is
      implemented, every link has one sibling, and the sum of all corrections stays in range; the
      end level is that sum. */
  lemma AggregationSucceeds(h: Digest, task: Task)
    requires !task.isCalendar && 0 <= task.startLevel <= MAX_LEVEL && ByteCorrections(task.chain)
    ensures Aggregate(h, task).Ok? <==> Feasible(task, |task.chain|)
    ensures Aggregate(h, task).Ok? ==> Aggregate(h, task).value.level == task.startLevel + LevelSum(task.chain, |task.chain|)
  {
    var n := |task.chain|;
    ErrorFreePrefix(task, n);
    if FirstError(task, n) == None {
      if n > 0 {
        LevelSumGrows(task.chain, n - 1, n);
      }
      LevelIsSum(task, n);
    }
  }

  // ---- one run after another -----------------------------------------------------------------

  lemma {:induction false} RootConcat(h: Digest, a: seq<Layer>, b: seq<Layer>, input: Imprint)
    requires Supported(a) && Supported(b)
    ensures Supported(a + b) && Root(h, a + b, input) == Root(h, b, Root(h, a, input))
    decreases |b|
  {
    hide ImprintOver, IsSupported;
    if b == [] {
      assert a + b == a;
    } else {
      var n := |b| - 1;
      var all := a + b;
      assert all[..|a| + n] == a + b[..n] && all[|a| + n] == b[n];
      RootConcat(h, a, b[..n], input);
      assert Root(h, all, input) == ImprintOver(h, b[n], Root(h, all[..|a| + n], input));
      hide Root;
    }
  }

  /** The run over the links of a and then those of b. */
  function Joined(a: Task, b: Task): Task {
    a.(chain := a.chain + b.chain)
  }

  /** Run b picks up where run a ends. */
  predicate Continues(a: Task, b: Task) {
    && !a.isCalendar && !b.isCalendar && a.hashId == b.hashId && a.chain != []
    && FirstError(a, |a.chain|) == None && b.startLevel == LevelAfter(a, |a.chain|)
  }

  lemma StartOf(task: Task)
    ensures LevelAfter(task, 0) == task.startLevel && FirstError(task, 0) == None
  {
  }

  lemma {:induction false} JoinedFront(a: Task, b: Task, n: nat)
    requires Continues(a, b) && n <= |a.chain|
    ensures LevelAfter(Joined(a, b), n) == LevelAfter(a, n)
    ensures FirstError(Joined(a, b), n) == FirstError(a, n)
  {
    hide NextLevel, StepError;
    if n > 0 {
      JoinedFront(a, b, n - 1);
      assert LinkError(Joined(a, b), n - 1) == LinkError(a, n - 1);
    }
  }

  lemma JoinedLink(a: Task, b: Task, i: nat)
    requires Continues(a, b) && i < |b.chain| && LevelAfter(Joined(a, b), |a.chain| + i) == LevelAfter(b, i)
    ensures LevelAfter(Joined(a, b), |a.chain| + i + 1) == LevelAfter(b, i + 1)
    ensures LinkError(Joined(a, b), |a.chain| + i) == LinkError(b, i)
    ensures Sibling(b.chain[i]).Ok? ==> LayerOf(Joined(a, b), |a.chain| + i) == LayerOf(b, i)
  {
    NoErrorBelow(a, |a.chain|, 0);
    hide NextLevel, Sibling;
  }

  lemma {:induction false} JoinedBack(a: Task, b: Task, n: nat)
    requires Continues(a, b) && n <= |b.chain|
    ensures LevelAfter(Joined(a, b), |a.chain| + n) == LevelAfter(b, n)
    ensures FirstError(Joined(a, b), |a.chain| + n) == FirstError(b, n)
  {
    hide LevelAfter, LinkError;
    if n == 0 {
      JoinedFront(a, b, |a.chain|);
      StartOf(b);
    } else {
      JoinedBack(a, b, n - 1);
      JoinedLink(a, b, n - 1);
    }
  }

  lemma JoinedLayerAt(a: Task, b: Task, k: nat)
    requires Continues(a, b) && FirstError(b, |b.chain|) == None && k < |a.chain| + |b.chain|
    requires FirstError(Joined(a, b), |a.chain| + |b.chain|) == None
    ensures Layers(Joined(a, b), |a.chain| + |b.chain|)[k] == (Layers(a, |a.chain|) + Layers(b, |b.chain|))[k]
  {
    hide Layers, FirstError, LevelAfter;
    var n := |a.chain|;
    LayerAt(Joined(a, b), n + |b.chain|, k);
    if k < n {
      LayerAt(a, n, k);
      JoinedFront(a, b, k + 1);
    } else {
      LayerAt(b, |b.chain|, k - n);
      JoinedBack(a, b, k - n);
      JoinedLink(a, b, k - n);
    }
  }

  lemma JoinedLayers(a: Task, b: Task)
    requires Continues(a, b) && FirstError(b, |b.chain|) == None
    ensures FirstError(Joined(a, b), |a.chain| + |b.chain|) == None
    ensures Layers(Joined(a, b), |a.chain| + |b.chain|) == Layers(a, |a.chain|) + Layers(b, |b.chain|)
  {
    hide Layers, FirstError, LevelAfter, Supported;
    JoinedBack(a, b, |b.chain|);
    var n := |a.chain| + |b.chain|;
    forall k | 0 <= k < n
      ensures Layers(Joined(a, b), n)[k] == (Layers(a, |a.chain|) + Layers(b, |b.chain|))[k]
    {
      JoinedLayerAt(a, b, k);
    }
  }

  /** Aggregating two chains one after the other is aggregating their concatenation. */
  lemma AggregateConcat(h: Digest, a: Task, b: Task)
    requires !a.isCalendar && !b.isCalendar && a.hashId == b.hashId && a.chain != [] && b.chain != []
    requires Aggregate(h, a) == Ok(Outcome(b.startLevel, Some(b.input)))
    ensures Aggregate(h, Joined(a, b)) == Aggregate(h, b)
  {
    hide Root, Layers, FirstError, LevelAfter, Supported;
    var n, m := |a.chain|, |b.chain|;
    JoinedBack(a, b, m);
    if FirstError(b, m) == None {
      JoinedLayers(a, b);
      RootConcat(h, Layers(a, n), Layers(b, m), a.input);
    }
  }

  // ---- binding -------------------------------------------------------------------------------

  /** The sibling can be told from the hash next to it: it precedes that hash only as an imprint,
      or with a length that both paths have. */
  predicate Comparable(a: Layer, b: Layer) {
    && a.isLeft == b.isLeft
    && (a.isLeft || (IsImprint(a.sibling) && IsImprint(b.sibling)) || |a.sibling| == |b.sibling|)
  }

  predicate ComparablePaths(a: seq<Layer>, b: seq<Layer>) {
    |a| == |b| && forall i | 0 <= i < |a| :: Comparable(a[i], b[i])
  }

  lemma MessageInjective(a: Layer, b: Layer, x: Imprint, y: Imprint)
    requires Comparable(a, b) && Message(a, x) == Message(b, y)
    ensures x == y && a.sibling == b.sibling && a.level == b.level
  {
    hide DigestLength;
    var s, t := Message(a, x), Message(b, y);
    assert s[|s| - 1] == t[|t| - 1];
    var u := if a.isLeft then x + a.sibling else a.sibling + x;
    var v := if a.isLeft then y + b.sibling else b.sibling + y;
    assert s[..|s| - 1] == u && t[..|t| - 1] == v;
    if a.isLeft {
      ImprintsAreDelimited(x, a.sibling, y, b.sibling);
    } else if IsImprint(a.sibling) && IsImprint(b.sibling) {
      ImprintsAreDelimited(a.sibling, x, b.sibling, y);
    } else {
      assert u[..|a.sibling|] == a.sibling && v[..|b.sibling|] == b.sibling;
      assert u[|a.sibling|..] == x && v[|b.sibling|..] == y;
    }
  }

  /** The two paths hash different strings to one digest at layer i. */
  predicate PathsCollide(h: Digest, a: seq<Layer>, x: Imprint, b: seq<Layer>, y: Imprint, i: nat)
    requires Supported(a) && Supported(b) && i < |a| == |b|
  {
    && a[i].algorithm == b[i].algorithm
    && Collision(h, a[i].algorithm, Message(a[i], Root(h, a[..i], x)), Message(b[i], Root(h, b[..i], y)))
  }

  /** Binding of hash tree paths: equal roots mean equal inputs and equal layers, unless the two
      paths themselves show a collision of the hash function. */
  lemma {:induction false} PathBinding(h: Digest, a: seq<Layer>, x: Imprint, b: seq<Layer>, y: Imprint) returns (i: nat)
    requires Supported(a) && Supported(b) && ComparablePaths(a, b)
    requires Root(h, a, x) == Root(h, b, y)
    ensures (a == b && x == y) || (i < |a| && PathsCollide(h, a, x, b, y, i))
    decreases |a|
  {
    hide DigestLength, ImprintOf, Message;
    i := 0;
    if a != [] {
      var n := |a| - 1;
      var below, other := Root(h, a[..n], x), Root(h, b[..n], y);
      var m, k := Message(a[n], below), Message(b[n], other);
      ImprintParts(h, a[n].algorithm, m, b[n].algorithm, k);
      if m != k {
        i := n;
      } else {
        MessageInjective(a[n], b[n], below, other);
        i := PathBinding(h, a[..n], x, b[..n], y);
        if a[..n] == b[..n] && x == y {
          assert a == a[..n] + [a[n]] && b == b[..n] + [b[n]];
        } else {
          assert a[..n][..i] == a[..i] && b[..n][..i] == b[..i];
        }
      }
    }
  }

  /** Links with the same direction whose siblings can be told from the hash beside them. */
  predicate ComparableLinks(a: Link, b: Link) {
    && a.isLeft == b.isLeft
    && (a.isLeft || (a.metaData.None? && b.metaData.None?) ||
        (a.metaData.Some? && b.metaData.Some? && |a.metaData.value| == |b.metaData.value|))
  }

  /** Merkle binding for whole runs, calendar or not: two runs over chains of one shape that end
      in the same hash used the same algorithm, input hash, siblings and levels; or else they
      hash two different strings to one digest at the same link. */
  lemma MerkleBinding(h: Digest, a: Task, b: Task) returns (i: nat)
    requires |a.chain| == |b.chain| > 0 && forall k | 0 <= k < |a.chain| :: ComparableLinks(a.chain[k], b.chain[k])
    requires Aggregate(h, a).Ok? && Aggregate(h, b).Ok? && Aggregate(h, a).value.hash == Aggregate(h, b).value.hash
    ensures var n := |a.chain|;
      || (&& a.input == b.input && HasherAlgorithm(a) == HasherAlgorithm(b)
          && forall k | 0 <= k < n :: Sibling(a.chain[k]) == Sibling(b.chain[k]) && LevelAfter(a, k + 1) % 256 == LevelAfter(b, k + 1) % 256)
      || (i < n && PathsCollide(h, Layers(a, n), a.input, Layers(b, n), b.input, i))
  {
    hide Root, Layers, PathsCollide, LevelAfter, FirstError;
    var n := |a.chain|;
    var p, q := Layers(a, n), Layers(b, n);
    forall k | 0 <= k < n
      ensures Comparable(p[k], q[k])
    {
      assert ComparableLinks(a.chain[k], b.chain[k]);
      LayerAt(a, n, k);
      LayerAt(b, n, k);
    }
    i := PathBinding(h, p, a.input, q, b.input);
    if p == q {
      forall k | 0 <= k < n
        ensures Sibling(a.chain[k]).Ok? && Sibling(b.chain[k]).Ok? && LayerOf(a, k) == LayerOf(b, k)
      {
        LayerAt(a, n, k);
        LayerAt(b, n, k);
      }
      assert LayerOf(a, 0) == LayerOf(b, 0);
    }
  }

  // ---- the algorithm of a calendar chain -----------------------------------------------------

  predicate OneAlgorithm(task: Task) {
    forall k | 1 <= k <= |task.chain| :: AlgorithmAfter(task, k) == AlgorithmAfter(task, 1)
  }

  /** The layers as they would be if every left link did change the algorithm. */
  function AnnouncedLayers(task: Task): (layers: seq<Layer>)
    requires FirstError(task, |task.chain|) == None
    ensures |layers| == |task.chain|
  {
    var layers := Layers(task, |task.chain|);
    seq(|task.chain|, i requires 0 <= i < |task.chain| => layers[i].(algorithm := AlgorithmAfter(task, i + 1)))
  }

  /** Resetting a hasher keeps its algorithm, so the result is the announced one exactly when the
      algorithm never changes after the first link; anything else would show a collision. */
  lemma AlgorithmDeparture(h: Digest, task: Task) returns (i: nat)
    requires task.chain != [] && FirstError(task, |task.chain|) == None && Supported(AnnouncedLayers(task))
    ensures var n := |task.chain|;
      var made, announced := Layers(task, n), AnnouncedLayers(task);
      || (Aggregate(h, task).value.hash == Some(Root(h, announced, task.input)) <==> OneAlgorithm(task))
      || (i < n && PathsCollide(h, made, task.input, announced, task.input, i))
  {
    hide Root, Layers, PathsCollide, AlgorithmAfter;
    var n := |task.chain|;
    var made, announced := Layers(task, n), AnnouncedLayers(task);
    i := 0;
    assert OneAlgorithm(task) <==> made == announced by {
      forall k | 1 <= k <= n
        ensures AlgorithmAfter(task, k) == announced[k - 1].algorithm && made[k - 1].algorithm == AlgorithmAfter(task, 1)
      {
        LayerAt(task, n, k - 1);
      }
    }
    if Root(h, made, task.input) == Root(h, announced, task.input) {
      i := PathBinding(h, made, task.input, announced, task.input);
    }
  }
}
