/** Hash algorithms, imprints and the hasher object. The digest functions themselves are an
    uninterpreted function whose digest length the algorithm fixes. */
module Hashing {
  import opened Common

  /** The digest length in bytes of a known hash algorithm, zero for an unknown one. */
  function DigestLength(id: int): nat {
    match id
    case 0 => 20
    case 1 => 32
    case 2 => 20
    case 3 => 28
    case 4 => 48
    case 5 => 64
    case 6 => 32
    case 7 => 28
    case 8 => 32
    case 9 => 48
    case 10 => 64
    case 11 => 32
    case _ => 0
  }

  /** The algorithms that the OpenSSL back end implements. */
  predicate IsSupported(id: int) {
    0 <= id <= 5
  }

  /** The algorithm id followed by a digest of the length that the algorithm has. */
  predicate IsImprint(s: seq<byte>) {
    s != [] && DigestLength(s[0]) > 0 && |s| == 1 + DigestLength(s[0])
  }

  type Imprint = s: seq<byte> | IsImprint(s) witness [0] + seq(20, _ => 0)

  type Digest = h: (int, seq<byte>) -> seq<byte> | forall a, m :: |h(a, m)| == DigestLength(a)
    witness (a, m) => seq(DigestLength(a), _ => 0)

  function ImprintOf(h: Digest, algorithm: int, data: seq<byte>): Imprint
    requires IsSupported(algorithm)
  {
    [algorithm] + h(algorithm, data)
  }

  /** Two different strings with the same digest. */
  predicate Collision(h: Digest, algorithm: int, x: seq<byte>, y: seq<byte>) {
    x != y && h(algorithm, x) == h(algorithm, y)
  }

  lemma ImprintParts(h: Digest, a: int, x: seq<byte>, b: int, y: seq<byte>)
    requires IsSupported(a) && IsSupported(b)
    ensures ImprintOf(h, a, x) == ImprintOf(h, b, y) <==> a == b && h(a, x) == h(b, y)
  {
    assert ImprintOf(h, a, x)[0] == a && ImprintOf(h, b, y)[0] == b;
    assert ImprintOf(h, a, x)[1..] == h(a, x) && ImprintOf(h, b, y)[1..] == h(b, y);
  }

  /** The first byte of an imprint says where it ends. */
  lemma ImprintsAreDelimited(a: Imprint, x: seq<byte>, b: Imprint, y: seq<byte>)
    requires a + x == b + y
    ensures a == b && x == y
  {
    assert (a + x)[0] == (b + y)[0];
    assert (a + x)[..|a|] == a && (b + y)[..|b|] == b;
    assert (a + x)[|a|..] == x && (b + y)[|b|..] == y;
  }

  /** An imprint has 20, 28, 32, 48 or 64 bytes behind its algorithm id. */
  lemma ImprintSizes(s: seq<byte>)
    ensures IsImprint(s) <==>
      && s != [] && s[0] <= 11
      && (s[0] in {0, 2} ==> |s| == 21) && (s[0] in {3, 7} ==> |s| == 29) && (s[0] in {1, 6, 8, 11} ==> |s| == 33)
      && (s[0] in {4, 9} ==> |s| == 49) && (s[0] in {5, 10} ==> |s| == 65)
  {
  }

  class DataHash {
    var imprint: Imprint

    constructor (value: Imprint)
      ensures imprint == value
    {
      imprint := value;
    }
  }

  /** A hasher collects bytes until it is closed. Resetting it keeps the algorithm that it was
      opened with. */
  class DataHasher {
    const h: Digest
    const algorithm: int
    var fed: seq<byte>

    constructor Open(h: Digest, id: int)
      requires IsSupported(id)
      ensures this.h == h && algorithm == id && fed == []
    {
      this.h := h;
      algorithm := id;
      fed := [];
    }

    method Reset()
      modifies this
      ensures fed == []
    {
      fed := [];
    }

    method Add(data: seq<byte>)
      modifies this
      ensures fed == old(fed) + data
    {
      fed := fed + data;
    }

    method Close() returns (hash: DataHash)
      requires IsSupported(algorithm)
      ensures fresh(hash) && hash.imprint == ImprintOf(h, algorithm, fed)
    {
      hash := new DataHash(ImprintOf(h, algorithm, fed));
    }

    /** Overwrites a hash object. */
    method CloseExisting(hash: DataHash)
      requires IsSupported(algorithm)
      modifies hash
      ensures hash.imprint == ImprintOf(h, algorithm, fed)
    {
      hash.imprint := ImprintOf(h, algorithm, fed);
    }
  }

  /** Opens a hasher, for an algorithm that there is. */
  method OpenHasher(h: Digest, id: int) returns (res: Result<DataHasher>)
    ensures !IsSupported(id) ==> res == Err(UnavailableHashAlgorithm)
    ensures IsSupported(id) ==> res.Ok? && fresh(res.value) && res.value.h == h && res.value.algorithm == id && res.value.fed == []
  {
    if !IsSupported(id) {
      return Err(UnavailableHashAlgorithm);
    }
    var hsr := new DataHasher.Open(h, id);
    return Ok(hsr);
  }
}
