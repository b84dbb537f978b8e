/** The body of `main` in src/main.rs once the file size is known: create the
    output file, pre-size it, plan the chunks, run one worker per chunk, wait
    for all of them and report the first failure in chunk order. The workers
    run concurrently in the source; here they run one after another, in chunk
    order. When no body is longer than its chunk this gives the same bytes as
    any order (see `WriteChunksFitting` and `WriteChunksSwap`); a longer body overlaps the next
    chunk, and then the order fixed here is one of several possible results. */
module Orchestrator {
  import opened Wrappers
  import opened Chunks
  import opened Worker

  /** What awaiting one spawned task yields: the worker's own result, or the
      join error of a task that panicked or was cancelled. */
  datatype TaskResult = Finished(result: Result<(), string>) | JoinFailed(error: string)

  /** How a whole download ends. */
  datatype Outcome = Completed | Failed(error: string) | Aborted(cause: ArithmeticPanic)

  /** The error a task result carries, whichever of the two layers it comes from. */
  function TaskError(t: TaskResult): (err: Option<string>)
    ensures err.None? <==> t.Finished? && t.result.Success?
  {
    match t
    case JoinFailed(e) => Some(e)
    case Finished(Failure(e)) => Some(e)
    case Finished(Success(_)) => None
  }

  /** `for result in results { result??; }`: succeed only if every task
      succeeded, otherwise stop at the first failed task and return its error. */
  method CheckResults(results: seq<TaskResult>) returns (r: Result<(), string>)
    ensures r.Success? <==> forall i :: 0 <= i < |results| ==> TaskError(results[i]).None?
    ensures r.Failure? ==> exists i :: 0 <= i < |results| && TaskError(results[i]) == Some(r.error)
                                       && forall j :: 0 <= j < i ==> TaskError(results[j]).None?
  {
    for i := 0 to |results|
      invariant forall j :: 0 <= j < i ==> TaskError(results[j]).None?
    {
      match results[i] {
        case JoinFailed(e) =>
          return Failure(e);
        case Finished(Failure(e)) =>
          return Failure(e);
        case Finished(Success(_)) =>
      }
    }
    return Success(());
  }

  /** The file after the chunks' bodies are written, chunk 0 first, each at
      its chunk's first byte. */
  function WriteChunks(s: seq<Byte>, cs: seq<Chunk>, bodies: seq<seq<Byte>>): (w: seq<Byte>)
    requires |cs| == |bodies|
    ensures |s| <= |w|
  {
    if cs == [] then s
    else Overwrite(WriteChunks(s, cs[..|cs| - 1], bodies[..|bodies| - 1]), cs[|cs| - 1].start, bodies[|bodies| - 1])
  }

  /** Writing one more chunk extends the fold by one write. */
  lemma WriteChunksStep(s: seq<Byte>, cs: seq<Chunk>, bodies: seq<seq<Byte>>, i: nat)
    requires |cs| == |bodies| && i < |cs|
    ensures WriteChunks(s, cs[..i + 1], bodies[..i + 1]) == Overwrite(WriteChunks(s, cs[..i], bodies[..i]), cs[i].start, bodies[i])
  {
    assert cs[..i + 1][..i] == cs[..i] && bodies[..i + 1][..i] == bodies[..i];
  }

  /** What the network delivers for each chunk's request. */
  function Bodies(cs: seq<Chunk>, fetch: string -> Reply): (b: seq<seq<Byte>>)
    ensures |b| == |cs|
  {
    seq(|cs|, i requires 0 <= i < |cs| => Delivered(fetch(RangeHeader(cs[i]))))
  }

  /** A body written right after the bytes already assembled extends them,
      as long as it stays inside the file. */
  lemma AppendBody(s: seq<Byte>, done: seq<Byte>, last: seq<Byte>, total: nat)
    requires |done| + |last| == total <= |s|
    ensures Overwrite(done + s[|done|..], |done|, last) == done + last + s[total..]
  {
  }

  /** When every body has exactly its chunk's length and the chunks tile the
      first `total` bytes, the writes lay the bodies end to end and leave the
      rest of the file alone. */
  lemma {:induction false} WriteChunksAssembles(s: seq<Byte>, cs: seq<Chunk>, bodies: seq<seq<Byte>>, total: nat)
    requires Partition(cs, total) && |bodies| == |cs| && total <= |s|
    requires forall i :: 0 <= i < |cs| ==> |bodies[i]| == Length(cs[i])
    ensures WriteChunks(s, cs, bodies) == Flatten(bodies) + s[total..]
    decreases |cs|
  {
    var n := |cs|;
    var prefix := bodies[..n - 1];
    if n == 1 {
      assert cs[..0] == [] && prefix == [] && s[0..] == s;
      AppendBody(s, [], bodies[0], total);
    } else {
      PartitionPrefix(cs, total);
      var at := cs[n - 1].start;
      WriteChunksAssembles(s, cs[..n - 1], prefix, at);
      PartitionSumFlatten(cs[..n - 1], prefix, at);
      AppendBody(s, Flatten(prefix), bodies[n - 1], total);
    }
  }

  /** Bodies of exactly the chunks' lengths flatten to the bytes the chunks span. */
  lemma {:induction false} PartitionSumFlatten(cs: seq<Chunk>, bodies: seq<seq<Byte>>, total: nat)
    requires Partition(cs, total) && |bodies| == |cs|
    requires forall i :: 0 <= i < |cs| ==> |bodies[i]| == Length(cs[i])
    ensures |Flatten(bodies)| == total
    decreases |cs|
  {
    var n := |cs|;
    if n == 1 {
      assert bodies[..0] == [];
    } else {
      PartitionPrefix(cs, total);
      PartitionSumFlatten(cs[..n - 1], bodies[..n - 1], cs[n - 2].end + 1);
    }
  }

  /** Byte `b` lies in the part of some chunk that its body reaches. */
  ghost predicate Written(cs: seq<Chunk>, bodies: seq<seq<Byte>>, b: nat)
    requires |bodies| == |cs|
  {
    exists i :: 0 <= i < |cs| && cs[i].start <= b < cs[i].start + |bodies[i]|
  }

  /** Bodies that fit their chunks keep the file's length and stay inside
      the first `total` bytes. */
  lemma {:induction false} FittingLength(s: seq<Byte>, cs: seq<Chunk>, bodies: seq<seq<Byte>>, total: nat)
    requires Partition(cs, total) && |bodies| == |cs| && total <= |s|
    requires forall i :: 0 <= i < |cs| ==> |bodies[i]| <= Length(cs[i])
    ensures |WriteChunks(s, cs, bodies)| == |s|
    ensures forall i :: 0 <= i < |cs| ==> cs[i].start + |bodies[i]| <= total
    decreases |cs|
  {
    var n := |cs|;
    PartitionDisjoint(cs, total);
    if n > 1 {
      PartitionPrefix(cs, total);
      FittingLength(s, cs[..n - 1], bodies[..n - 1], cs[n - 1].start);
    } else {
      assert cs[..0] == [] && bodies[..0] == [];
    }
  }

  /** Each fitting body ends up at its chunk's first byte: no later write
      reaches into an earlier chunk. */
  lemma {:induction false} FittingPlaced(s: seq<Byte>, cs: seq<Chunk>, bodies: seq<seq<Byte>>, total: nat)
    requires Partition(cs, total) && |bodies| == |cs| && total <= |s|
    requires forall i :: 0 <= i < |cs| ==> |bodies[i]| <= Length(cs[i])
    ensures forall i, k :: 0 <= i < |cs| && 0 <= k < |bodies[i]| ==>
              cs[i].start + k < |WriteChunks(s, cs, bodies)| &&
              WriteChunks(s, cs, bodies)[cs[i].start + k] == bodies[i][k]
    decreases |cs|
  {
    var n := |cs|;
    var pcs, pbodies := cs[..n - 1], bodies[..n - 1];
    var prev := WriteChunks(s, pcs, pbodies);
    var at, last := cs[n - 1].start, bodies[n - 1];
    var w := WriteChunks(s, cs, bodies);
    assert w == Overwrite(prev, at, last);
    FittingLength(s, cs, bodies, total);
    if n > 1 {
      PartitionPrefix(cs, total);
      FittingPlaced(s, pcs, pbodies, at);
    }
    OverwriteEffect(prev, at, last);
    forall i, k | 0 <= i < n && 0 <= k < |bodies[i]|
      ensures cs[i].start + k < |w| && w[cs[i].start + k] == bodies[i][k]
    {
      if i < n - 1 {
        PartitionOrdered(cs, total, i, n - 1);
        assert pcs[i] == cs[i] && pbodies[i] == bodies[i];
      }
    }
  }

  /** A byte reached by a body of the first chunks is reached by that body
      in the whole list. */
  lemma WrittenPrefix(cs: seq<Chunk>, bodies: seq<seq<Byte>>, b: nat)
    requires |bodies| == |cs| >= 1
    ensures Written(cs[..|cs| - 1], bodies[..|cs| - 1], b) ==> Written(cs, bodies, b)
  {
    var pcs, pbodies := cs[..|cs| - 1], bodies[..|cs| - 1];
    if Written(pcs, pbodies, b) {
      var i :| 0 <= i < |pcs| && pcs[i].start <= b < pcs[i].start + |pbodies[i]|;
      assert cs[i] == pcs[i] && bodies[i] == pbodies[i];
    }
  }

  /** A byte that no body reaches keeps its old value. */
  lemma {:induction false} FittingUntouched(s: seq<Byte>, cs: seq<Chunk>, bodies: seq<seq<Byte>>, total: nat)
    requires Partition(cs, total) && |bodies| == |cs| && total <= |s|
    requires forall i :: 0 <= i < |cs| ==> |bodies[i]| <= Length(cs[i])
    ensures forall b :: 0 <= b < |s| && !Written(cs, bodies, b) ==>
              b < |WriteChunks(s, cs, bodies)| && WriteChunks(s, cs, bodies)[b] == s[b]
    decreases |cs|
  {
    var n := |cs|;
    var pcs, pbodies := cs[..n - 1], bodies[..n - 1];
    var prev := WriteChunks(s, pcs, pbodies);
    var at, last := cs[n - 1].start, bodies[n - 1];
    var w := WriteChunks(s, cs, bodies);
    assert w == Overwrite(prev, at, last);
    FittingLength(s, cs, bodies, total);
    if n == 1 {
      assert pcs == [] && pbodies == [];
      assert prev == s;
    } else {
      PartitionPrefix(cs, total);
      FittingLength(s, pcs, pbodies, at);
      FittingUntouched(s, pcs, pbodies, at);
    }
    OverwriteEffect(prev, at, last);
    forall b | 0 <= b < |s| && !Written(cs, bodies, b)
      ensures b < |w| && w[b] == s[b]
    {
      assert !(at <= b < at + |last|);
      WrittenPrefix(cs, bodies, b);
    }
  }

  /** When no body runs past the end of its chunk, the file is fixed byte by
      byte without reference to the order of the writes: each body sits at
      its chunk's first byte, every byte no body reaches keeps its old value,
      and the length does not change. Every other order of the same writes
      gives this file too: it is reached by swaps of neighbouring writes
      (`WriteChunksSwap`), and fitting bodies never overlap (`FittingDisjoint`). */
  lemma WriteChunksFitting(s: seq<Byte>, cs: seq<Chunk>, bodies: seq<seq<Byte>>, total: nat)
    requires Partition(cs, total) && |bodies| == |cs| && total <= |s|
    requires forall i :: 0 <= i < |cs| ==> |bodies[i]| <= Length(cs[i])
    ensures |WriteChunks(s, cs, bodies)| == |s|
    ensures forall i, k :: 0 <= i < |cs| && 0 <= k < |bodies[i]| ==>
              cs[i].start + k < |s| && WriteChunks(s, cs, bodies)[cs[i].start + k] == bodies[i][k]
    ensures forall b :: 0 <= b < |s| && !Written(cs, bodies, b) ==> WriteChunks(s, cs, bodies)[b] == s[b]
  {
    FittingLength(s, cs, bodies, total);
    FittingPlaced(s, cs, bodies, total);
    FittingUntouched(s, cs, bodies, total);
  }

  /** Fitting bodies of a partition occupy pairwise disjoint ranges: an
      earlier chunk's body ends before a later chunk starts. */
  lemma FittingDisjoint(cs: seq<Chunk>, bodies: seq<seq<Byte>>, total: nat, i: nat, j: nat)
    requires Partition(cs, total) && |bodies| == |cs|
    requires forall k :: 0 <= k < |cs| ==> |bodies[k]| <= Length(cs[k])
    requires i < j < |cs|
    ensures cs[i].start + |bodies[i]| <= cs[j].start
  {
    PartitionOrdered(cs, total, i, j);
  }

  /** `xs` with the elements at `i` and `i + 1` exchanged. */
  function Swap<T>(xs: seq<T>, i: nat): (ys: seq<T>)
    requires i + 1 < |xs|
    ensures |ys| == |xs| && ys[i] == xs[i + 1] && ys[i + 1] == xs[i]
    ensures forall k :: 0 <= k < |xs| && k != i && k != i + 1 ==> ys[k] == xs[k]
  {
    seq(|xs|, k requires 0 <= k < |xs| => if k == i then xs[i + 1] else if k == i + 1 then xs[i] else xs[k])
  }

  /** Swapping a pair leaves the elements before it alone, and commutes with
      dropping an element after it. */
  lemma SwapSlices<T>(xs: seq<T>, i: nat)
    requires i + 1 < |xs|
    ensures Swap(xs, i)[..i] == xs[..i]
    ensures i + 2 < |xs| ==> Swap(xs, i)[..|xs| - 1] == Swap(xs[..|xs| - 1], i)
  {
  }

  /** Two folds that agree before their last write and end with the same
      write give the same file. */
  lemma SameLastWrite(s: seq<Byte>, c1: seq<Chunk>, b1: seq<seq<Byte>>, c2: seq<Chunk>, b2: seq<seq<Byte>>)
    requires |c1| == |b1| == |c2| == |b2| >= 1
    requires WriteChunks(s, c1[..|c1| - 1], b1[..|b1| - 1]) == WriteChunks(s, c2[..|c2| - 1], b2[..|b2| - 1])
    requires c1[|c1| - 1].start == c2[|c2| - 1].start && b1[|b1| - 1] == b2[|b2| - 1]
    ensures WriteChunks(s, c1, b1) == WriteChunks(s, c2, b2)
  {
  }

  /** The pair being swapped is the last two writes. */
  lemma SwapLastTwo(s: seq<Byte>, cs: seq<Chunk>, bodies: seq<seq<Byte>>, i: nat)
    requires |cs| == |bodies| == i + 2
    requires cs[i].start + |bodies[i]| <= cs[i + 1].start || cs[i + 1].start + |bodies[i + 1]| <= cs[i].start
    ensures WriteChunks(s, Swap(cs, i), Swap(bodies, i)) == WriteChunks(s, cs, bodies)
  {
    var cs', bodies' := Swap(cs, i), Swap(bodies, i);
    SwapSlices(cs, i);
    SwapSlices(bodies, i);
    var before := WriteChunks(s, cs[..i], bodies[..i]);
    var first := WriteChunks(s, cs'[..i + 1], bodies'[..i + 1]);
    WriteChunksStep(s, cs', bodies', i);
    assert first == Overwrite(before, cs[i + 1].start, bodies[i + 1]);
    assert cs'[..i + 2] == cs' && bodies'[..i + 2] == bodies';
    WriteChunksStep(s, cs', bodies', i + 1);
    assert WriteChunks(s, cs', bodies') == Overwrite(first, cs[i].start, bodies[i]);
    assert cs[..i + 2] == cs && bodies[..i + 2] == bodies;
    WriteChunksStep(s, cs, bodies, i);
    WriteChunksStep(s, cs, bodies, i + 1);
    if cs[i].start + |bodies[i]| <= cs[i + 1].start {
      OverwriteCommute(before, cs[i].start, bodies[i], cs[i + 1].start, bodies[i + 1]);
    } else {
      OverwriteCommute(before, cs[i + 1].start, bodies[i + 1], cs[i].start, bodies[i]);
    }
  }

  /** Two neighbouring writes whose ranges do not overlap may run in either
      order: the file ends up the same. Any reordering of pairwise disjoint
      writes is a sequence of such swaps. */
  lemma {:induction false} WriteChunksSwap(s: seq<Byte>, cs: seq<Chunk>, bodies: seq<seq<Byte>>, i: nat)
    requires |cs| == |bodies| && i + 1 < |cs|
    requires cs[i].start + |bodies[i]| <= cs[i + 1].start || cs[i + 1].start + |bodies[i + 1]| <= cs[i].start
    ensures WriteChunks(s, Swap(cs, i), Swap(bodies, i)) == WriteChunks(s, cs, bodies)
    decreases |cs|
  {
    var n := |cs|;
    if n == i + 2 {
      SwapLastTwo(s, cs, bodies, i);
    } else {
      var pc, pb := cs[..n - 1], bodies[..n - 1];
      assert WriteChunks(s, Swap(pc, i), Swap(pb, i)) == WriteChunks(s, pc, pb) by {
        WriteChunksSwap(s, pc, pb, i);
      }
      assert Swap(cs, i)[..n - 1] == Swap(pc, i) && Swap(bodies, i)[..n - 1] == Swap(pb, i) by {
        SwapSlices(cs, i);
        SwapSlices(bodies, i);
      }
      SameLastWrite(s, Swap(cs, i), Swap(bodies, i), cs, bodies);
    }
  }

  /** One spawned worker, awaited: `download_chunk` on the chunk, its result
      wrapped as a finished task. */
  method RunTask(fetch: string -> Reply, chunk: Chunk, file: OutputFile) returns (t: TaskResult)
    modifies file
    ensures TaskError(t) == ReplyError(fetch(RangeHeader(chunk)))
    ensures file.content == Overwrite(old(file.content), chunk.start, Delivered(fetch(RangeHeader(chunk))))
  {
    var res, _ := DownloadChunk(fetch, chunk, file);
    t := Finished(res);
  }

  /** The spawn loop and `join_all` of `main`: one worker per chunk, each
      writing its own range of the shared file, results kept in chunk order. */
  method RunWorkers(fetch: string -> Reply, chunks: seq<Chunk>, file: OutputFile) returns (results: seq<TaskResult>)
    modifies file
    ensures |results| == |chunks|
    ensures forall j :: 0 <= j < |chunks| ==> TaskError(results[j]) == ReplyError(fetch(RangeHeader(chunks[j])))
    ensures file.content == WriteChunks(old(file.content), chunks, Bodies(chunks, fetch))
  {
    ghost var replies := seq(|chunks|, j requires 0 <= j < |chunks| => fetch(RangeHeader(chunks[j])));
    ghost var bodies := Bodies(chunks, fetch);
    ghost var initial := file.content;
    results := [];
    for i := 0 to |chunks|
      invariant |results| == i
      invariant forall j :: 0 <= j < i ==> TaskError(results[j]) == ReplyError(replies[j])
      invariant file.content == WriteChunks(initial, chunks[..i], bodies[..i])
    {
      assert replies[i] == fetch(RangeHeader(chunks[i])) && bodies[i] == Delivered(replies[i]);
      var t := RunTask(fetch, chunks[i], file);
      WriteChunksStep(initial, chunks, bodies, i);
      results := results + [t];
    }
    assert chunks[..|chunks|] == chunks && bodies[..|chunks|] == bodies;
  }

  /** `main` from the moment the size is known: `File::create`, `set_len`,
      `calculate_chunks`, the workers, then the result check. */
  method Download(fileSize: U64, threads: nat, fetch: string -> Reply) returns (r: Outcome, file: OutputFile)
    requires threads < 256
    ensures fresh(file)
    ensures r.Aborted? <==> threads == 0 || fileSize < threads
    ensures threads == 0 ==> r == Aborted(DivisionByZero) && file.content == Zeros(fileSize)
    ensures 1 <= threads && fileSize < threads ==> r == Aborted(SubtractOverflow) && file.content == Zeros(fileSize)
    ensures 1 <= threads <= fileSize ==>
              file.content == WriteChunks(Zeros(fileSize), PlanOf(fileSize, threads), Bodies(PlanOf(fileSize, threads), fetch))
    ensures 1 <= threads <= fileSize ==>
              (r == Completed <==> forall i :: 0 <= i < threads ==> ReplyError(fetch(RangeHeader(PlanOf(fileSize, threads)[i]))).None?)
    ensures r.Failed? ==>
              1 <= threads <= fileSize &&
              exists i :: 0 <= i < threads && ReplyError(fetch(RangeHeader(PlanOf(fileSize, threads)[i]))) == Some(r.error)
                          && forall j :: 0 <= j < i ==> ReplyError(fetch(RangeHeader(PlanOf(fileSize, threads)[j]))).None?
  {
    file := new OutputFile.Create();
    file.SetLen(fileSize);
    assert file.content == Zeros(fileSize);
    var plan := CalculateChunks(fileSize, threads);
    if plan.Panicked? {
      return Aborted(plan.cause), file;
    }
    var chunks := plan.chunks;
    assert chunks == PlanOf(fileSize, threads);
    var results := RunWorkers(fetch, chunks, file);
    var check := CheckResults(results);
    r := if check.Success? then Completed else Failed(check.error);
  }

  /** When the server honours every Range request, the file ends up holding
      the bodies end to end: the downloaded resource, byte for byte. */
  lemma DownloadAssemblesFile(fileSize: nat, threads: nat, fetch: string -> Reply)
    requires 1 <= threads <= fileSize
    requires forall i :: 0 <= i < threads ==>
               |Delivered(fetch(RangeHeader(PlanOf(fileSize, threads)[i])))| == Length(PlanOf(fileSize, threads)[i])
    ensures WriteChunks(Zeros(fileSize), PlanOf(fileSize, threads), Bodies(PlanOf(fileSize, threads), fetch))
            == Flatten(Bodies(PlanOf(fileSize, threads), fetch))
  {
    var cs := PlanOf(fileSize, threads);
    PlanIsPartition(fileSize, threads);
    WriteChunksAssembles(Zeros(fileSize), cs, Bodies(cs, fetch), fileSize);
    assert Zeros(fileSize)[fileSize..] == [];
  }

  /** The single-worker example: an 11-byte resource "Hello World" is asked
      for as `bytes=0-10` and lands in the file unchanged. */
  lemma HelloWorldScenario(fetch: string -> Reply)
    requires fetch("bytes=0-10") == Streamed([[0x48, 0x65, 0x6c, 0x6c, 0x6f, 0x20, 0x57, 0x6f, 0x72, 0x6c, 0x64]], None)
    ensures PlanOf(11, 1) == [Chunk(0, 10)]
    ensures RangeHeader(Chunk(0, 10)) == "bytes=0-10"
    ensures WriteChunks(Zeros(11), PlanOf(11, 1), Bodies(PlanOf(11, 1), fetch))
            == [0x48, 0x65, 0x6c, 0x6c, 0x6f, 0x20, 0x57, 0x6f, 0x72, 0x6c, 0x64]
  {
  }
}
