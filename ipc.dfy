/** The control protocol's payloads, exchanged between the `pd` client and
    the daemon. They are plain values: a `StatusList` holds copies of the job
    records, so nothing the daemon does later can change a list already built. */
module Ipc {

  /** One tracked download as the daemon reports it. `id` is also the key of
      the daemon's job table; `progressPercent` is meant to lie in 0..100. */
  datatype JobStatus = JobStatus(id: nat, filename: string, progressPercent: nat, state: string)

  /** What a client may ask of the daemon. */
  datatype Command =
    | Add(url: string)
    | Status
    | Shutdown

  /** What the daemon answers. */
  datatype Response =
    | Ok(message: string)
    | StatusList(jobs: seq<JobStatus>)
    | Err(message: string)
}
