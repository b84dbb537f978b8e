/** Chunk planning (`calculate_chunks` in src/main.rs): the byte range
    [0, total_size - 1] is cut into `num_threads` inclusive ranges of
    `total_size / num_threads` bytes each, the last one also taking the
    remainder. The arithmetic is `u64` arithmetic as a debug build runs it:
    a division by zero or a subtraction below zero panics. */
module Chunks {

  const U64_BOUND: nat := 0x1_0000_0000_0000_0000

  type U64 = x: nat | x < U64_BOUND

  /** An inclusive byte range `[start, end]` of the remote resource. */
  datatype Chunk = Chunk(start: nat, end: nat)

  /** Why a computation in `calculate_chunks` aborts the program. */
  datatype ArithmeticPanic = DivisionByZero | SubtractOverflow

  /** What `calculate_chunks` does: returns its vector, or panics. */
  datatype Plan = Planned(chunks: seq<Chunk>) | Panicked(cause: ArithmeticPanic)

  predicate WellFormed(c: Chunk) {
    c.start <= c.end
  }

  /** Number of bytes a chunk spans; also the length of its progress bar. */
  function Length(c: Chunk): (len: nat)
    requires WellFormed(c)
    ensures len >= 1
  {
    c.end - c.start + 1
  }

  lemma MulMonotone(a: nat, b: nat, c: nat)
    requires a <= b
    ensures a * c <= b * c
  {
  }

  /** A chunk's first byte plus the chunk size never passes `total`, so the
      additions in `calculate_chunks` cannot overflow a `u64`. */
  lemma StartBound(total: nat, n: nat, i: nat)
    requires 1 <= n && i < n
    ensures i * (total / n) + total / n <= total
  {
    var q := total / n;
    MulMonotone(i + 1, n, q);
    assert (i + 1) * q == i * q + q;
    assert n * q + total % n == total;
  }

  /** The `i`-th chunk that `calculate_chunks(total, n)` pushes when it does not panic. */
  function ChunkAt(total: nat, n: nat, i: nat): (c: Chunk)
    requires 1 <= n <= total && i < n
    ensures c.start <= c.end < total
  {
    var size := total / n;
    StartBound(total, n, i);
    assert size >= 1 by { assert n * 1 <= total; }
    var start := i * size;
    Chunk(start, if i == n - 1 then total - 1 else start + size - 1)
  }

  /** The whole vector that `calculate_chunks(total, n)` returns when it does not panic. */
  function PlanOf(total: nat, n: nat): (p: seq<Chunk>)
    requires 1 <= n <= total
  {
    seq(n, i requires 0 <= i < n => ChunkAt(total, n, i))
  }

  /** `calculate_chunks`: one chunk per worker, built in index order. */
  method CalculateChunks(totalSize: U64, numThreads: U64) returns (r: Plan)
    ensures numThreads == 0 ==> r == Panicked(DivisionByZero)
    ensures 1 <= numThreads && totalSize < numThreads ==> r == Panicked(SubtractOverflow)
    ensures 1 <= numThreads <= totalSize ==> r.Planned? && |r.chunks| == numThreads
    ensures 1 <= numThreads <= totalSize ==>
              forall i :: 0 <= i < numThreads ==> r.chunks[i] == ChunkAt(totalSize, numThreads, i)
  {
    if numThreads == 0 {
      return Panicked(DivisionByZero);
    }
    var chunkSize := totalSize / numThreads;
    assert numThreads <= totalSize ==> chunkSize >= 1 by {
      if numThreads <= totalSize {
        assert numThreads * chunkSize + totalSize % numThreads == totalSize;
      }
    }
    var chunks: seq<Chunk> := [];
    for i := 0 to numThreads
      invariant |chunks| == i
      invariant i > 0 ==> numThreads <= totalSize
      invariant forall j :: 0 <= j < i ==>
                  1 <= numThreads <= totalSize && chunks[j] == ChunkAt(totalSize, numThreads, j)
    {
      StartBound(totalSize, numThreads, i);
      var start := i * chunkSize;
      var end;
      if i == numThreads - 1 {
        if totalSize < 1 {
          return Panicked(SubtractOverflow);
        }
        end := totalSize - 1;
      } else {
        if start + chunkSize < 1 {
          return Panicked(SubtractOverflow);
        }
        end := start + chunkSize - 1;
      }
      chunks := chunks + [Chunk(start, end)];
    }
    return Planned(chunks);
  }

  /** The contract every non-panicking plan meets: the chunks tile
      [0, total - 1] from left to right without gaps or overlaps. */
  ghost predicate Partition(cs: seq<Chunk>, total: nat) {
    && |cs| >= 1
    && (forall i :: 0 <= i < |cs| ==> WellFormed(cs[i]))
    && cs[0].start == 0
    && (forall i :: 0 <= i < |cs| - 1 ==> cs[i + 1].start == cs[i].end + 1)
    && cs[|cs| - 1].end + 1 == total
  }

  /** Byte `b` falls inside some chunk of `cs`. */
  ghost predicate Covered(cs: seq<Chunk>, b: nat) {
    exists i :: 0 <= i < |cs| && cs[i].start <= b <= cs[i].end
  }

  /** Total of the per-chunk lengths (the progress-bar lengths of a download). */
  function SumLengths(cs: seq<Chunk>): (total: nat)
    requires forall i :: 0 <= i < |cs| ==> WellFormed(cs[i])
  {
    if cs == [] then 0 else SumLengths(cs[..|cs| - 1]) + Length(cs[|cs| - 1])
  }

  /** Dropping the last chunk of a partition leaves a partition of the bytes before it. */
  lemma PartitionPrefix(cs: seq<Chunk>, total: nat)
    requires Partition(cs, total) && |cs| >= 2
    ensures Partition(cs[..|cs| - 1], cs[|cs| - 2].end + 1)
  {
  }

  /** Chunk order is byte order: an earlier chunk ends before a later one starts. */
  lemma {:induction false} PartitionOrdered(cs: seq<Chunk>, total: nat, i: nat, j: nat)
    requires Partition(cs, total)
    requires i < j < |cs|
    ensures cs[i].end < cs[j].start
    decreases j - i
  {
    if i + 1 < j {
      PartitionOrdered(cs, total, i + 1, j);
    }
  }

  /** The chunks are pairwise disjoint and all lie within [0, total - 1]. */
  lemma PartitionDisjoint(cs: seq<Chunk>, total: nat)
    requires Partition(cs, total)
    ensures forall i, j :: 0 <= i < j < |cs| ==> cs[i].end < cs[j].start
    ensures forall i :: 0 <= i < |cs| ==> cs[i].end < total
  {
    forall i, j | 0 <= i < j < |cs|
      ensures cs[i].end < cs[j].start
    {
      PartitionOrdered(cs, total, i, j);
    }
  }

  /** Exactly the bytes 0 .. total - 1 are covered. */
  lemma {:induction false} PartitionCovers(cs: seq<Chunk>, total: nat)
    requires Partition(cs, total)
    ensures forall b: nat :: Covered(cs, b) <==> b < total
    decreases |cs|
  {
    PartitionDisjoint(cs, total);
    var last := |cs| - 1;
    forall b: nat | b < total
      ensures Covered(cs, b)
    {
      if b >= cs[last].start {
        assert cs[last].start <= b <= cs[last].end;
      } else {
        PartitionPrefix(cs, total);
        var prefix := cs[..last];
        PartitionCovers(prefix, cs[last - 1].end + 1);
        assert Covered(prefix, b);
        var i :| 0 <= i < |prefix| && prefix[i].start <= b <= prefix[i].end;
        assert cs[i] == prefix[i];
      }
    }
  }

  /** The chunk lengths add up to the file size. */
  lemma {:induction false} PartitionSum(cs: seq<Chunk>, total: nat)
    requires Partition(cs, total)
    ensures SumLengths(cs) == total
    decreases |cs|
  {
    if |cs| >= 2 {
      PartitionPrefix(cs, total);
      PartitionSum(cs[..|cs| - 1], cs[|cs| - 2].end + 1);
    } else {
      assert cs[..0] == [];
    }
  }

  /** A plan that does not panic is a partition of [0, total - 1] into `n` chunks. */
  lemma PlanIsPartition(total: nat, n: nat)
    requires 1 <= n <= total
    ensures |PlanOf(total, n)| == n
    ensures Partition(PlanOf(total, n), total)
  {
    var p := PlanOf(total, n);
    var size := total / n;
    forall i | 0 <= i < n - 1
      ensures p[i + 1].start == p[i].end + 1
    {
      assert (i + 1) * size == i * size + size;
    }
  }

  /** Every chunk but the last spans `total / n` bytes; the last one also
      takes the remaining `total % n` bytes. */
  lemma PlanChunkLengths(total: nat, n: nat, i: nat)
    requires 1 <= n <= total && i < n
    ensures i < n - 1 ==> Length(ChunkAt(total, n, i)) == total / n
    ensures i == n - 1 ==> Length(ChunkAt(total, n, i)) == total / n + total % n
  {
  }

  /** Together: the vector `calculate_chunks` returns tiles the file, and its
      progress-bar lengths add up to the file size. */
  lemma PlanCoversFile(total: nat, n: nat)
    requires 1 <= n <= total
    ensures PlanOf(total, n)[0].start == 0
    ensures PlanOf(total, n)[n - 1].end == total - 1
    ensures forall b: nat :: Covered(PlanOf(total, n), b) <==> b < total
    ensures SumLengths(PlanOf(total, n)) == total
  {
    PlanIsPartition(total, n);
    PartitionCovers(PlanOf(total, n), total);
    PartitionSum(PlanOf(total, n), total);
  }
}
