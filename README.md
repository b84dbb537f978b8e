# quick-pull: chunked download and job daemon, modelled in Dafny

quick-pull downloads one remote file over HTTP. It cuts the file's byte range into
one chunk per worker. Each worker asks for its chunk with a `Range: bytes=<start>-<end>`
header and writes the reply into a pre-sized output file at the chunk's offset. A
companion daemon tracks downloads as jobs. It keeps a table from job id to `JobStatus`
and an id counter that starts at 1. It serves one `Add`, `Status` or `Shutdown` command
per connection.

This project models that core:

- `Chunks` (`chunks.dfy`) models `calculate_chunks`. The arithmetic is `u64` arithmetic
  as a debug build runs it. With zero threads the division by zero panics. When the file
  is smaller than the thread count, the subtraction below zero panics. Otherwise the
  result is proved to tile `[0, total_size - 1]` with `num_threads` chunks. The last
  chunk takes the remainder.
- `Worker` (`worker.dfy`) models `download_chunk`. It covers the Range header and its
  parse, proved to round-trip. It also covers the output file: a sequence of bytes with
  the usual write-at-offset semantics. The seek-then-write loop is proved to put the
  concatenated buffers at `chunk.start`, and the progress increments add up to the
  bytes written.
- `Orchestrator` (`orchestrator.dfy`) models `main` once the file size is known. It
  creates the file, calls `set_len`, plans the chunks and runs one worker per chunk.
  Then it applies `result??` to each task result in order. When the server honours every
  range, the file is proved to hold the bodies end to end. When no body is longer than
  its chunk, the writes stay inside disjoint ranges. The final file is then fixed byte by
  byte without reference to the order of the writes, so running the workers one after
  another gives the same bytes as any order of completion. A longer body (a server that
  ignores `Range`) spills into the next chunk, and the order then matters.
- `Daemon` (`daemon.dfy`) is a class. Its fields are the job table (`map<nat, JobStatus>`)
  and the counter. It has one method per command and one for the "mark Done" task that
  `Add` spawns. Each method keeps the table invariant: the keys are exactly the ids
  `1 .. nextId-1`, each record carries its own key as its id, and every job is either
  `Starting` at 0% or `Done` at 100%.
- `Ipc` (`ipc.dfy`) holds `Command`, `Response` and `JobStatus` as datatypes. `Decimal`
  holds Rust's `{}` rendering of integers. `Wrappers` holds Option and Result.

The network is a parameter: a function from the Range header sent to the reply
received. The reply is either a send failure or a list of body buffers, possibly
followed by a stream error. The daemon's input is also a parameter: no request (an empty
or failed read), or the outcome of JSON-decoding a `Command`.

Four behaviours of the code that the model keeps as written:

- `calculate_chunks` does not reduce the worker count to the file size. It panics
  instead.
- `download_chunk` does not check the HTTP status, so any body is written.
- `main` reports only the first failed task in chunk order, not every failure.
- The daemon never reads a shared secret.

## Model

| member | source | states |
|---|---|---|
| `Chunks.Chunk` | src/main.rs:9-13 | the `Chunk` struct: an inclusive byte range `[start, end]`; every chunk of a plan has `start <= end` (`ChunkAt`) |
| `Chunks.PlanOf` | src/main.rs:32-49 | the vector `calculate_chunks` returns when it does not panic; `CalculateChunks` is proved to build it, `PlanIsPartition` and `PlanCoversFile` prove it tiles the file |
| `Chunks.CalculateChunks` | src/main.rs:32-49 | zero threads panics with a division by zero; 1 ≤ threads and size < threads panics on the subtraction; otherwise exactly `num_threads` chunks, in index order, chunk i being `ChunkAt(size, threads, i)` |
| `Chunks.ChunkAt` | src/main.rs:34-43 | every chunk of a non-panicking plan is non-empty and lies below the file size |
| `Chunks.StartBound` | src/main.rs:37-42 | `i*cs + cs ≤ total_size` for every chunk index, so `start + chunk_size` cannot overflow a `u64` |
| `Chunks.Length` | src/main.rs:123 | a chunk's progress-bar length `end - start + 1` is at least 1 |
| `Chunks.PlanIsPartition` | src/main.rs:36-46 | with 1 ≤ threads ≤ size the plan has `threads` chunks, starts at 0, each chunk starts one past the previous end, and the last ends at `size - 1` |
| `Chunks.PlanChunkLengths` | src/main.rs:34-43 | every chunk but the last spans `size / threads` bytes; the last spans `size / threads + size % threads` |
| `Chunks.PartitionOrdered` | src/main.rs:37-43 | an earlier chunk ends before a later one starts |
| `Chunks.PartitionDisjoint` | src/main.rs:37-43 | the chunks are pairwise disjoint and all end below the file size |
| `Chunks.PartitionCovers` | src/main.rs:37-43 | a byte is in some chunk if and only if it is below the file size |
| `Chunks.PartitionSum` | src/main.rs:123 | the progress-bar lengths of the chunks add up to the file size |
| `Chunks.PlanCoversFile` | src/main.rs:32-49 | the plan starts at byte 0, ends at `size - 1`, covers exactly `[0, size-1]`, and its lengths sum to `size` |
| `Decimal.Dec` | src/main.rs:75 | `{}` renders a number as a non-empty run of digits with no leading zero |
| `Decimal.ParseDecOfDec` | src/main.rs:75 | reading the rendered digits back gives the number |
| `Decimal.DecInjective` | src/main.rs:75 | different numbers render differently |
| `Worker.RangeHeader` | src/main.rs:75 | the header text `bytes=<start>-<end>`; `RangeHeaderRoundTrip` proves it names exactly the chunk |
| `Worker.RangeHeaderRoundTrip` | src/main.rs:75 | the header `bytes=<start>-<end>` reads back (RFC 7233 section 2.1 syntax) as exactly the chunk's first and last byte |
| `Worker.Overwrite` | src/main.rs:85-89 | a non-empty write extends the file to `pos + len` when it passes the end, and otherwise leaves the length alone |
| `Worker.OverwriteEffect` | src/main.rs:85-89 | after a write, the written range holds the data, every other old byte is unchanged, and any gap past the old end is zero |
| `Worker.OverwriteConsecutive` | src/main.rs:87-90 | writing `a` then `b` at the advanced cursor equals writing `a + b` once |
| `Worker.OverwriteCommute` | src/main.rs:126-128 | writes to disjoint ranges give the same file in either order |
| `Worker.OutputFile.Create` | src/main.rs:106 | a created file is empty |
| `Worker.OutputFile.SetLen` | src/main.rs:107 | `set_len(n)` leaves exactly n bytes: a truncation, or the old bytes followed by zeros |
| `Worker.OutputFile.WriteAt` | src/main.rs:89 | `write_all` at the cursor changes the file as `Overwrite` says |
| `Worker.Delivered` | src/main.rs:77-90 | the bytes a reply puts in the file, in arrival order; a failed send delivers none |
| `Worker.ReplyError` | src/main.rs:77-87 | the error `?` propagates from `send` or from `response.chunk()`; a failed send always carries one |
| `Worker.WriteBuffers` | src/main.rs:85-90 | after seeking to `start`, the loop leaves the file as one write of all buffers concatenated at `start`; the progress increments sum to the bytes written |
| `Worker.DownloadChunk` | src/main.rs:73-94 | the request carries the chunk's Range header; the file changes only by the delivered bytes written at `chunk.start` (nothing when the send fails); the result is Ok exactly when the reply ends without error, and otherwise carries that error |
| `Orchestrator.TaskError` | src/main.rs:137 | the error `result??` raises for one task: none exactly when the task finished and its worker returned Ok |
| `Orchestrator.CheckResults` | src/main.rs:134-138 | Ok if and only if every task result is Ok at both layers; otherwise the error of the first failed task in chunk order |
| `Orchestrator.WriteChunks` | src/main.rs:119-131 | the file after the workers' writes, chunk 0 first; it never gets shorter. `WriteChunksFitting`, `WriteChunksSwap` and `WriteChunksAssembles` state what it holds |
| `Orchestrator.WriteChunksStep` | src/main.rs:119-131 | running one more worker adds exactly that worker's write to the file |
| `Orchestrator.RunTask` | src/main.rs:126-131 | awaiting one spawned worker yields its `download_chunk` result; the file changes by that worker's write alone |
| `Orchestrator.RunWorkers` | src/main.rs:119-134 | one task per chunk; task i fails exactly as chunk i's reply does; the file is the chunks' bodies written in turn |
| `Orchestrator.Download` | src/main.rs:104-138 | the file is pre-sized with zeros; the download aborts if and only if the plan panics (zero threads, or fewer bytes than threads), and then with that panic; otherwise the file holds every chunk's body at its offset; the download completes iff every chunk's reply ends without error; otherwise it fails with the error of the first failing chunk in chunk order |
| `Orchestrator.AppendBody` | src/main.rs:85-90 | a body written right after the assembled bytes, inside the file, extends them |
| `Orchestrator.PartitionSumFlatten` | src/main.rs:123 | bodies of exactly their chunks' lengths add up to the file size |
| `Orchestrator.WriteChunksAssembles` | src/main.rs:106-131 | when each body has its chunk's length, the pre-sized file becomes the bodies end to end |
| `Orchestrator.FittingLength` | src/main.rs:85-90 | bodies no longer than their chunks leave the pre-sized file's length alone and stay inside the chunks' bytes |
| `Orchestrator.FittingPlaced` | src/main.rs:85-90 | each body no longer than its chunk ends up at its chunk's first byte, whatever later chunks write |
| `Orchestrator.FittingUntouched` | src/main.rs:85-90 | a byte no such body reaches keeps its pre-sized value |
| `Orchestrator.WriteChunksFitting` | src/main.rs:119-131 | when no body is longer than its chunk, the file is characterised byte by byte with no reference to write order: length unchanged, each body at its chunk's start, every other byte as before |
| `Orchestrator.FittingDisjoint` | src/main.rs:119-131 | bodies no longer than their chunks write pairwise disjoint ranges: an earlier chunk's body ends before a later chunk starts |
| `Orchestrator.Swap` | src/main.rs:119-131 | two neighbouring tasks finishing in the other order: the pair at `i` and `i + 1` exchanged, all else in place |
| `Orchestrator.SameLastWrite` | src/main.rs:119-131 | two write orders that agree before their last write and end with the same write leave the same file |
| `Orchestrator.SwapLastTwo` | src/main.rs:119-131 | when the last two writes do not overlap, doing them in the other order leaves the same file |
| `Orchestrator.WriteChunksSwap` | src/main.rs:119-131 | exchanging any two neighbouring writes whose ranges do not overlap leaves the same file; with `FittingDisjoint` this reaches every completion order of fitting bodies |
| `Orchestrator.DownloadAssemblesFile` | src/main.rs:106-138 | when the server honours every Range request, the downloaded file equals the concatenation of the chunk bodies |
| `Orchestrator.HelloWorldScenario` | src/main.rs:75-90 | 11 bytes with one worker: the single chunk is `[0, 10]`, the header is `bytes=0-10`, and the pre-sized file of 11 zero bytes becomes the body "Hello World". The repository's integration test (tests/integration_test.rs:12-59) exercises the same request through a different `download_chunk` signature writing into an empty temporary file; this lemma replays the scenario on the file that `Download`'s contract gives |
| `Ipc.Command` | src/ipc.rs:4-8 | the three requests `Add { url }`, `Status`, `Shutdown`; `Serve` handles each |
| `Ipc.Response` | src/ipc.rs:10-15 | the three replies `Ok(text)`, `StatusList(jobs)`, `Err(text)`; a `StatusList` holds copies of the records |
| `Ipc.JobStatus` | src/ipc.rs:17-23 | a job's id, file name, progress percentage and state text; `DaemonState.Valid` keeps the id equal to the table key |
| `Daemon.AddedReply` | src/daemon.rs:88 | the reply text `Added job #<id>`; `AddedReplyIdentifiesJob` proves it determines the id |
| `Daemon.AddedReplyIdentifiesJob` | src/daemon.rs:88 | different ids give different "Added job #<id>" replies |
| `Daemon.DaemonState.Valid` | src/daemon.rs:62-84 | the table invariant: its keys are exactly the ids handed out, each record carries its key, and every job is `Starting` at 0% or `Done` at 100%; every command and the completion task keep it |
| `Daemon.DaemonState.constructor` | src/daemon.rs:20-23 | the daemon starts with an empty table and the counter at 1 |
| `Daemon.DaemonState.Add` | src/daemon.rs:61-90 | the new id is the old counter, above every id in the table; the counter goes up by one; exactly one entry is added, `{id, filename(url), 0, "Starting"}`; the reply is `Ok("Added job #<id>")`; the invariant is kept |
| `Daemon.DaemonState.Complete` | src/daemon.rs:78-86 | a present job becomes `Done` at 100% and nothing else changes; an absent id changes nothing |
| `Daemon.DaemonState.Status` | src/daemon.rs:56-60 | the reply is a `StatusList` holding each table value exactly once, in some order; table and counter are untouched |
| `Daemon.DaemonState.Serve` | src/daemon.rs:31-91 | no request gives no reply; an undecodable request gives `Err("Invalid JSON: " + error)`; `Shutdown` replies `Ok("Shutting down...")` and exits; `Status` returns a snapshot; only `Add` changes table or counter; the invariant is kept |

## Left out

- Size discovery (`get_file_size`, the HEAD request and its errors) is left out. The model starts from a known size.
- Opening the file in `download_chunk` is assumed to succeed. Failures of open, seek, `set_len` or `write_all` are not modelled.
- A body written through the file is assumed to succeed byte for byte; file-system limits are not modelled.
- Chunk tasks run one after another in the model. When every body fits its chunk, `Orchestrator.WriteChunksFitting` fixes the file without reference to order, and `Orchestrator.WriteChunksSwap` with `Orchestrator.FittingDisjoint` shows that exchanging neighbouring writes leaves it unchanged. Every completion order is reached by such exchanges; that closing step over whole permutations is not itself a lemma. Interleavings of single buffers from different chunks are not spelled out.
- Orchestrator.Download: when a body is longer than its chunk (a server that ignores `Range` and sends the whole resource, say), writes overlap. The model then fixes chunk order, last chunk written last, while the program's bytes depend on the order in which the tasks finish.
- Join errors (a panicked or cancelled task) are in the `TaskResult` type. The model's workers never produce one.
- Chunks.CalculateChunks: follows debug-build checked arithmetic. A release build wraps instead of panicking: with `total_size < num_threads` a chunk then ends at 2^64 - 1.
- Argument parsing (clap) is left out. The `u8` thread count appears only as `threads < 256`.
- Progress-bar rendering is left out: styles, `MultiProgress`, messages, `finish_with_message`. Only the increments are kept.
- The progress observers are not part of this model (`src/observer.rs`), and neither are configuration loading (`src/config.rs`) and the client (`src/bin/pd/client.rs`).
- Resume state, sidecar files and rate limiting do not exist in the modelled code, so they are not modelled.
- JSON encoding and decoding are left out. Decoding is an input: a `Command` or an error text. The 1024-byte single read only changes what that input is.
- Errors from sending a response are ignored, as the code ignores them (`let _ =`).
- The TCP listener, `tokio::spawn` and the `Mutex` are left out. Each connection is one atomic `Serve` step. `Complete` is a separate step that may run at any later time.
- Between `fetch_add` and the insert, the code briefly has an allocated id that is not yet in the table. The model does not show that window.
- `std::process::exit` becomes the `exit` result of `Serve`.
- Daemon.DaemonState.Add: ids are unbounded naturals. `AtomicUsize::fetch_add` would wrap after 2^64 adds.
- `utils::get_filename_from_url` is not part of this model. It is a function-valued field given to the daemon's constructor.
