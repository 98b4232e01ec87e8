/** The appendable hash chain over committed observations (discovery_observations.py). */
module StreamCommitment {
  import opened Wrappers
  import opened Bytes

  datatype CommitError = InvalidPrevious | ItemTooLong

  /** ASCII of the chain domain, closed by a NUL byte. */
  const DOMAIN: bytes := AsciiBytes("smart-commissioning.discovery-observation-stream-chain.v1") + [0]

  const LENGTH_LIMIT := 0x1_0000_0000_0000_0000

  function EmptyCommitment(sha: Hash): (c: string)
    ensures IsSha256Hex(c)
  {
    HexDigest(sha([]))
  }

  /** What one step feeds to SHA-256: domain, previous digest, item length, item. */
  function Frame(previous: Digest, item: bytes): (f: bytes)
    ensures |f| == |DOMAIN| + 40 + |item|
  {
    DOMAIN + previous + BigEndian(|item|, 8) + item
  }

  function Extend(sha: Hash, previous: string, item: bytes): (r: Result<string, CommitError>)
    ensures r.Success? ==> IsSha256Hex(r.value)
  {
    if !IsSha256Hex(previous) then Failure(InvalidPrevious)
    else if |item| >= LENGTH_LIMIT then Failure(ItemTooLong)
    else Success(HexDigest(sha(Frame(FromHex(previous), item))))
  }

  /** Extending a persisted commitment by a batch of canonical items, in order. */
  function ExtendAll(sha: Hash, commitment: string, items: seq<bytes>): (r: Result<string, CommitError>)
    ensures r.Success? && IsSha256Hex(commitment) ==> IsSha256Hex(r.value)
    decreases |items|
  {
    if items == [] then Success(commitment)
    else
      var next :- Extend(sha, commitment, items[0]);
      ExtendAll(sha, next, items[1..])
  }

  function Commit(sha: Hash, items: seq<bytes>): Result<string, CommitError> {
    ExtendAll(sha, EmptyCommitment(sha), items)
  }

  /** The loop of `observation_stream_sha256`. */
  method ObservationStreamSha256(sha: Hash, items: seq<bytes>) returns (r: Result<string, CommitError>)
    ensures r == Commit(sha, items)
  {
    var commitment := EmptyCommitment(sha);
    for i := 0 to |items|
      invariant IsSha256Hex(commitment)
      invariant Commit(sha, items) == ExtendAll(sha, commitment, items[i..])
    {
      var next := Extend(sha, commitment, items[i]);
      if next.Failure? {
        return next;
      }
      commitment := next.value;
      assert items[i..][1..] == items[i + 1..];
    }
    r := Success(commitment);
  }

  /** Appending refines batching: any split of the stream, extended piece by piece. */
  lemma {:induction false} AppendRefinesBatch(sha: Hash, commitment: string, first: seq<bytes>, rest: seq<bytes>)
    ensures ExtendAll(sha, commitment, first + rest)
         == var persisted := ExtendAll(sha, commitment, first);
            if persisted.Failure? then persisted else ExtendAll(sha, persisted.value, rest)
    decreases |first|
  {
    if first == [] {
      assert first + rest == rest;
    } else {
      assert (first + rest)[1..] == first[1..] + rest;
      var next := Extend(sha, commitment, first[0]);
      if next.Success? {
        AppendRefinesBatch(sha, next.value, first[1..], rest);
      }
    }
  }

  /** A stream is refused exactly when some item cannot be length-prefixed. */
  lemma {:induction false} CommitTotal(sha: Hash, commitment: string, items: seq<bytes>)
    requires IsSha256Hex(commitment)
    ensures ExtendAll(sha, commitment, items).Success?
       <==> forall i :: 0 <= i < |items| ==> |items[i]| < LENGTH_LIMIT
    decreases |items|
  {
    if items != [] && |items[0]| < LENGTH_LIMIT {
      CommitTotal(sha, Extend(sha, commitment, items[0]).value, items[1..]);
      assert forall i :: 1 <= i < |items| ==> items[i] == items[1..][i - 1];
    }
  }

  lemma FrameInjective(p: Digest, x: bytes, q: Digest, y: bytes)
    requires Frame(p, x) == Frame(q, y)
    ensures p == q && x == y
  {
    var d := |DOMAIN|;
    assert Frame(p, x)[d..d + 32] == p && Frame(q, y)[d..d + 32] == q;
    assert Frame(p, x)[d + 40..] == x && Frame(q, y)[d + 40..] == y;
  }

  /** A byte string read as a number, most significant byte first. */
  function ReadBigEndian(b: bytes): nat {
    if b == [] then 0 else 256 * ReadBigEndian(b[..|b| - 1]) + b[|b| - 1]
  }

  function Power256(n: nat): nat {
    if n == 0 then 1 else 256 * Power256(n - 1)
  }

  lemma {:induction false} BigEndianReads(n: nat, width: nat)
    requires n < Power256(width)
    ensures ReadBigEndian(BigEndian(n, width)) == n
  {
    if width > 0 {
      BigEndianReads(n / 256, width - 1);
      assert BigEndian(n, width)[..width - 1] == BigEndian(n / 256, width - 1);
    }
  }

  /** What is hashed: the domain, closed by a NUL, the previous digest, the item's length in eight bytes, the item. */
  lemma FrameLayout(previous: Digest, item: bytes)
    requires |item| < LENGTH_LIMIT
    ensures var f, d := Frame(previous, item), |DOMAIN|;
      && f[..d] == DOMAIN && f[d - 1] == 0 && f[d..d + 32] == previous
      && ReadBigEndian(f[d + 32..d + 40]) == |item| && f[d + 40..] == item
  {
    var f, d := Frame(previous, item), |DOMAIN|;
    assert LENGTH_LIMIT == Power256(8) by {
      assert Power256(4) == 0x1_0000_0000;
      assert Power256(5) == 0x100_0000_0000 && Power256(6) == 0x1_0000_0000_0000;
      assert Power256(7) == 0x100_0000_0000_0000;
    }
    BigEndianReads(|item|, 8);
    assert f[d..d + 32] == previous && f[d + 32..d + 40] == BigEndian(|item|, 8) && f[d + 40..] == item;
  }

  /** The chain read from its end: the digest a stream commits to. */
  ghost function ChainDigest(sha: Hash, items: seq<bytes>): Digest {
    if items == [] then sha([])
    else var n := |items| - 1; sha(Frame(ChainDigest(sha, items[..n]), items[n]))
  }

  lemma {:induction false} CommitIsChainDigest(sha: Hash, items: seq<bytes>)
    requires Commit(sha, items).Success?
    ensures Commit(sha, items).value == Hex(ChainDigest(sha, items))
  {
    if items != [] {
      var n := |items| - 1;
      assert items == items[..n] + [items[n]];
      AppendRefinesBatch(sha, EmptyCommitment(sha), items[..n], [items[n]]);
      CommitIsChainDigest(sha, items[..n]);
      var previous := Hex(ChainDigest(sha, items[..n]));
      FromHexOfHex(ChainDigest(sha, items[..n]));
      assert ExtendAll(sha, previous, [items[n]]) == Extend(sha, previous, items[n]);
    }
  }

  lemma {:induction false} ChainBinds(sha: Hash, xs: seq<bytes>, ys: seq<bytes>) returns (a: bytes, b: bytes)
    requires ChainDigest(sha, xs) == ChainDigest(sha, ys)
    ensures xs == ys || Collision(sha, a, b)
    decreases |xs|
  {
    var m, n := |xs| - 1, |ys| - 1;
    a := if xs == [] then [] else Frame(ChainDigest(sha, xs[..m]), xs[m]);
    b := if ys == [] then [] else Frame(ChainDigest(sha, ys[..n]), ys[n]);
    if a == b && xs != [] && ys != [] {
      FrameInjective(ChainDigest(sha, xs[..m]), xs[m], ChainDigest(sha, ys[..n]), ys[n]);
      a, b := ChainBinds(sha, xs[..m], ys[..n]);
      assert xs == xs[..m] + [xs[m]] && ys == ys[..n] + [ys[n]];
    }
  }

  /** Binding: equal commitments mean equal streams, or a collision is in hand. */
  lemma CommitmentBinds(sha: Hash, xs: seq<bytes>, ys: seq<bytes>) returns (a: bytes, b: bytes)
    requires Commit(sha, xs).Success? && Commit(sha, xs) == Commit(sha, ys)
    ensures xs == ys || Collision(sha, a, b)
  {
    CommitIsChainDigest(sha, xs);
    CommitIsChainDigest(sha, ys);
    HexInjective(ChainDigest(sha, xs), ChainDigest(sha, ys));
    a, b := ChainBinds(sha, xs, ys);
  }
}
