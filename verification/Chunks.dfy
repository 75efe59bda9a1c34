// Cutting content into chunks and putting it together again, in the widths the
// server computes with.
module Chunks {
  import opened Prelude

  type Byte = bv8
  type Bytes = seq<Byte>

  const MAX_INT32: int := 2147483647

  predicate IsInt32(x: int) {
    -2147483648 <= x <= 2147483647
  }

  predicate IsInt64(x: int) {
    -9223372036854775808 <= x <= 9223372036854775807
  }

  /** Two's-complement wrap-around. */
  function Wrap32(x: int): (w: int)
    ensures IsInt32(w)
    ensures IsInt32(x) ==> w == x
  {
    (x + 2147483648) % 4294967296 - 2147483648
  }

  function Wrap64(x: int): (w: int)
    ensures IsInt64(w)
    ensures IsInt64(x) ==> w == x
  {
    (x + 9223372036854775808) % 18446744073709551616 - 9223372036854775808
  }

  /** Division truncating toward zero. */
  function TruncDiv(a: int, b: int): int
    requires b > 0
  {
    if a >= 0 then a / b else -((-a) / b)
  }

  function ChunkCount(totalSize: int, chunkSize: int): (n: int)
    requires IsInt64(totalSize) && IsInt32(chunkSize)
    ensures IsInt32(n)
  {
    if chunkSize <= 0 then 0 else Wrap32(TruncDiv(Wrap64(totalSize + chunkSize - 1), chunkSize))
  }

  /** `n` chunks of this size hold the content, and one fewer would not. */
  predicate Covers(n: int, totalSize: int, chunkSize: int) {
    (n - 1) * chunkSize < totalSize <= n * chunkSize
  }

  lemma CeilingCovers(totalSize: nat, chunkSize: nat)
    requires chunkSize > 0
    ensures Covers((totalSize + chunkSize - 1) / chunkSize, totalSize, chunkSize)
  {
    var x := totalSize + chunkSize - 1;
    var q, r := x / chunkSize, x % chunkSize;
    assert x == q * chunkSize + r && 0 <= r < chunkSize;
    assert (q - 1) * chunkSize == q * chunkSize - chunkSize;
  }

  lemma ProductOrder(a: int, b: int, s: int)
    requires s > 0 && a * s < b * s
    ensures a < b
  {
  }

  lemma CoveringIsUnique(m: int, n: int, totalSize: int, chunkSize: int)
    requires chunkSize > 0 && Covers(m, totalSize, chunkSize) && Covers(n, totalSize, chunkSize)
    ensures m == n
  {
    ProductOrder(m - 1, n, chunkSize);
    ProductOrder(n - 1, m, chunkSize);
  }

  lemma NonNegativeFactor(q: int, s: int)
    requires s > 0 && q * s >= 0
    ensures q >= 0
  {
  }

  lemma ProductMonotone(a: int, b: int, s: int)
    requires s > 0 && a <= b
    ensures a * s <= b * s
  {
  }

  lemma CountInRange(q: int, totalSize: nat, chunkSize: nat)
    requires chunkSize > 0 && Covers(q, totalSize, chunkSize)
    ensures q <= MAX_INT32 <==> totalSize <= MAX_INT32 * chunkSize
    ensures q >= 0
  {
    if q <= MAX_INT32 {
      ProductMonotone(q, MAX_INT32, chunkSize);
    } else {
      ProductMonotone(MAX_INT32, q - 1, chunkSize);
    }
    NonNegativeFactor(q, chunkSize);
  }

  /** For any content length the count is the covering one exactly when the
      chunk size is positive and no more than 2^31 - 1 chunks are needed. */
  lemma ChunkCountCoversIff(totalSize: nat, chunkSize: int)
    requires IsInt64(totalSize) && IsInt32(chunkSize)
    ensures Covers(ChunkCount(totalSize, chunkSize), totalSize, chunkSize) <==>
            chunkSize > 0 && totalSize <= MAX_INT32 * chunkSize
  {
    if chunkSize > 0 {
      var q := (totalSize + chunkSize - 1) / chunkSize;
      CeilingCovers(totalSize, chunkSize);
      CountInRange(q, totalSize, chunkSize);
      var n := ChunkCount(totalSize, chunkSize);
      if totalSize <= MAX_INT32 * chunkSize {
        SmallTotal(totalSize, chunkSize);
        assert n == q;
      } else if Covers(n, totalSize, chunkSize) {
        CoveringIsUnique(n, q, totalSize, chunkSize);
      }
    } else if chunkSize < 0 {
      assert (0 - 1) * chunkSize == -chunkSize;
    }
  }

  lemma SmallTotal(totalSize: nat, chunkSize: nat)
    requires 0 < chunkSize <= MAX_INT32 && totalSize <= MAX_INT32 * chunkSize
    ensures IsInt64(totalSize + chunkSize - 1)
  {
    assert MAX_INT32 * chunkSize <= MAX_INT32 * MAX_INT32;
  }

  // ---- Content ----

  function Min(a: int, b: int): int {
    if a < b then a else b
  }

  /** The bytes of one chunk; the last may be shorter, those past the end are empty. */
  function Chunk(content: Bytes, index: nat, chunkSize: nat): Bytes {
    Slice(content, index * chunkSize, chunkSize)
  }

  /** Staged chunks 0..n-1 in order, if all are there. */
  function Joined(staged: map<int, Bytes>, n: int): Option<Bytes> {
    if n <= 0 then Some([])
    else
      match Joined(staged, n - 1)
      case None => None
      case Some(before) => if n - 1 in staged then Some(before + staged[n - 1]) else None
  }

  /** Appends chunk after chunk; gives up at the first one missing. */
  method AssembleChunkFile(staged: map<int, Bytes>, total: int) returns (out: Option<Bytes>)
    ensures out == Joined(staged, total)
  {
    var bytes := [];
    var i := 0;
    while i < total
      invariant 0 <= i && (i <= total || i == 0)
      invariant Joined(staged, i) == Some(bytes)
      decreases total - i
    {
      if i !in staged {
        MissingStays(staged, i + 1, total);
        return None;
      }
      bytes := bytes + staged[i];
      i := i + 1;
    }
    return Some(bytes);
  }

  lemma {:induction false} MissingStays(staged: map<int, Bytes>, i: int, n: int)
    requires i <= n && Joined(staged, i) == None
    ensures Joined(staged, n) == None
    decreases n - i
  {
    if i < n { MissingStays(staged, i, n - 1); }
  }

  lemma {:induction false} JoinedIff(staged: map<int, Bytes>, n: int)
    ensures Joined(staged, n).Some? <==> forall i :: 0 <= i < n ==> i in staged
  {
    if n > 0 { JoinedIff(staged, n - 1); }
  }

  lemma StepMultiple(i: nat, size: nat)
    ensures (i + 1) * size == i * size + size
  {
  }

  /** The first `n` bytes, or all of them. */
  function Taken(content: Bytes, n: nat): Bytes {
    content[..Min(n, |content|)]
  }

  /** Up to `size` bytes from offset `from` on. */
  function Slice(content: Bytes, from: nat, size: nat): Bytes {
    var start := Min(from, |content|);
    content[start..Min(start + size, |content|)]
  }

  lemma NextSlice(content: Bytes, taken: nat, size: nat)
    ensures Taken(content, taken) + Slice(content, taken, size) == Taken(content, taken + size)
  {
  }

  /** Chunks 0..n-1 of the content are all staged under their indices. */
  ghost predicate StagedAs(content: Bytes, staged: map<int, Bytes>, n: int, chunkSize: nat) {
    forall i :: 0 <= i < n ==> i in staged && staged[i] == Chunk(content, i, chunkSize)
  }

  /** Where chunk `i` starts, summed chunk by chunk. */
  function Offset(i: nat, chunkSize: nat): nat {
    if i == 0 then 0 else Offset(i - 1, chunkSize) + chunkSize
  }

  lemma {:induction false} OffsetIsProduct(i: nat, chunkSize: nat)
    ensures Offset(i, chunkSize) == i * chunkSize
  {
    if i > 0 {
      OffsetIsProduct(i - 1, chunkSize);
      StepMultiple(i - 1, chunkSize);
    }
  }

  ghost predicate StagedSlices(content: Bytes, staged: map<int, Bytes>, n: int, chunkSize: nat) {
    forall i :: 0 <= i < n ==> i in staged && staged[i] == Slice(content, Offset(i, chunkSize), chunkSize)
  }

  lemma ChunksAreSlices(content: Bytes, staged: map<int, Bytes>, n: int, chunkSize: nat)
    requires StagedAs(content, staged, n, chunkSize)
    ensures StagedSlices(content, staged, n, chunkSize)
  {
    forall i | 0 <= i < n ensures i in staged && staged[i] == Slice(content, Offset(i, chunkSize), chunkSize) {
      OffsetIsProduct(i, chunkSize);
    }
  }

  lemma JoinedStep(staged: map<int, Bytes>, n: nat, before: Bytes)
    requires n > 0 && Joined(staged, n - 1) == Some(before) && n - 1 in staged
    ensures Joined(staged, n) == Some(before + staged[n - 1])
  {
  }

  lemma {:induction false} JoinedPrefix(content: Bytes, staged: map<int, Bytes>, n: nat, chunkSize: nat)
    requires StagedSlices(content, staged, n, chunkSize)
    ensures Joined(staged, n) == Some(Taken(content, Offset(n, chunkSize)))
  {
    if n > 0 {
      JoinedPrefix(content, staged, n - 1, chunkSize);
      JoinedStep(staged, n, Taken(content, Offset(n - 1, chunkSize)));
      NextSlice(content, Offset(n - 1, chunkSize), chunkSize);
    }
  }

  /** Round trip: all chunks of a content, staged under their indices, join to the content. */
  lemma ChunkRoundTrip(content: Bytes, staged: map<int, Bytes>, chunkSize: int)
    requires IsInt64(|content|) && 0 < chunkSize <= MAX_INT32 && |content| <= MAX_INT32 * chunkSize
    requires StagedAs(content, staged, ChunkCount(|content|, chunkSize), chunkSize)
    ensures Joined(staged, ChunkCount(|content|, chunkSize)) == Some(content)
  {
    var n := ChunkCount(|content|, chunkSize);
    ChunkCountCoversIff(|content|, chunkSize);
    CountInRange(n, |content|, chunkSize);
    ChunksAreSlices(content, staged, n, chunkSize);
    JoinedPrefix(content, staged, n, chunkSize);
    OffsetIsProduct(n, chunkSize);
    assert content[..|content|] == content;
  }
}
