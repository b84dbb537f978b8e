/** The daemon of src/daemon.rs: a job table keyed by id and an id counter
    that starts at 1, driven by one command per accepted connection. Each
    connection's handling is one atomic step here; the listener, the spawned
    tasks and the lock around the table are not modelled. */
module Daemon {
  import opened Wrappers
  import opened Ipc
  import opened Decimal

  /** What a connection hands to the handler: nothing (the read returned no
      bytes or failed), or the outcome of decoding the request as a `Command`,
      with the decoder's error text when it is not one. */
  datatype Incoming =
    | NoRequest
    | Request(decoded: Result<Command, string>)

  const STARTING: string := "Starting"
  const DONE: string := "Done"

  /** `list` is the table's values, each exactly once, in some order. */
  ghost predicate IsSnapshot(list: seq<JobStatus>, table: map<nat, JobStatus>) {
    && |list| == |table|
    && (forall i :: 0 <= i < |list| ==> list[i].id in table && table[list[i].id] == list[i])
    && (forall k :: k in table ==> table[k] in list)
    && (forall i, j :: 0 <= i < j < |list| ==> list[i].id != list[j].id)
  }

  /** The text of the reply to `Add`. */
  function AddedReply(id: nat): (text: string)
    ensures |text| > 11 && text[..11] == "Added job #"
  {
    "Added job #" + Dec(id)
  }

  /** Different ids give different `Add` replies, so a client can tell from
      the reply which job it created. */
  lemma AddedReplyIdentifiesJob(m: nat, n: nat)
    requires AddedReply(m) == AddedReply(n)
    ensures m == n
  {
    var prefix := "Added job #";
    assert AddedReply(m)[|prefix|..] == Dec(m);
    assert AddedReply(n)[|prefix|..] == Dec(n);
    DecInjective(m, n);
  }

  class DaemonState {
    var jobs: map<nat, JobStatus>
    var nextId: nat
    /** `utils::get_filename_from_url`, which is not part of this model. */
    const filenameFromUrl: string -> string

    /** Every id handed out so far names a job whose record carries that id;
        jobs are only ever `Starting` at 0% or `Done` at 100%. */
    ghost predicate Valid()
      reads this
    {
      && nextId >= 1
      && (forall k :: k in jobs <==> 1 <= k < nextId)
      && (forall k :: k in jobs ==> jobs[k].id == k)
      && (forall k :: k in jobs ==>
            (jobs[k].state == STARTING && jobs[k].progressPercent == 0) ||
            (jobs[k].state == DONE && jobs[k].progressPercent == 100))
    }

    /** `start_daemon`'s state: an empty table and the counter at 1. */
    constructor (filenameFromUrl: string -> string)
      ensures Valid()
      ensures jobs == map[] && nextId == 1
      ensures this.filenameFromUrl == filenameFromUrl
    {
      jobs := map[];
      nextId := 1;
      this.filenameFromUrl := filenameFromUrl;
    }

    /** `Command::Add`: take the counter's value as the new id, bump the
        counter, record the job as starting, and acknowledge. The new id is
        above every id already in the table, so ids strictly increase and
        are never reused. */
    method Add(url: string) returns (resp: Response)
      requires Valid()
      modifies this
      ensures Valid()
      ensures nextId == old(nextId) + 1
      ensures forall k :: k in old(jobs) ==> k < old(nextId)
      ensures jobs == old(jobs)[old(nextId) := JobStatus(old(nextId), filenameFromUrl(url), 0, STARTING)]
      ensures resp == Ok(AddedReply(old(nextId)))
    {
      var id := nextId;
      nextId := nextId + 1;
      var job := JobStatus(id, filenameFromUrl(url), 0, STARTING);
      jobs := jobs[id := job];
      resp := Ok(AddedReply(id));
    }

    /** The task spawned by `Add`: mark that job done, if it is in the table. */
    method Complete(id: nat)
      requires Valid()
      modifies this
      ensures Valid()
      ensures nextId == old(nextId)
      ensures jobs.Keys == old(jobs).Keys
      ensures id in old(jobs) ==> jobs == old(jobs)[id := old(jobs)[id].(state := DONE, progressPercent := 100)]
      ensures id !in old(jobs) ==> jobs == old(jobs)
    {
      if id in jobs {
        var job := jobs[id];
        jobs := jobs[id := job.(state := DONE, progressPercent := 100)];
      }
    }

    /** `Command::Status`: copy every job record into a list, in the table's
        own order. Neither the table nor the counter changes. */
    method Status() returns (resp: Response)
      requires Valid()
      ensures resp.StatusList? && IsSnapshot(resp.jobs, jobs)
    {
      var list: seq<JobStatus> := [];
      var remaining := jobs.Keys;
      while remaining != {}
        invariant remaining <= jobs.Keys
        invariant |list| + |remaining| == |jobs|
        invariant forall i :: 0 <= i < |list| ==> list[i].id in jobs.Keys - remaining && jobs[list[i].id] == list[i]
        invariant forall k :: k in jobs.Keys - remaining ==> jobs[k] in list
        invariant forall i, j :: 0 <= i < j < |list| ==> list[i].id != list[j].id
        decreases remaining
      {
        var k :| k in remaining;
        list := list + [jobs[k]];
        remaining := remaining - {k};
      }
      resp := StatusList(list);
    }

    /** One accepted connection: read, decode, dispatch on the command.
        `exit` is true when the process terminates after replying. */
    method Serve(incoming: Incoming) returns (reply: Option<Response>, exit: bool)
      requires Valid()
      modifies this
      ensures Valid()
      ensures exit <==> incoming == Request(Success(Shutdown))
      ensures incoming.NoRequest? ==> reply == None
      ensures incoming.Request? && incoming.decoded.Failure? ==>
                reply == Some(Err("Invalid JSON: " + incoming.decoded.error))
      ensures incoming == Request(Success(Shutdown)) ==> reply == Some(Ok("Shutting down..."))
      ensures incoming == Request(Success(Command.Status)) ==>
                reply.Some? && reply.value.StatusList? && IsSnapshot(reply.value.jobs, jobs)
      ensures (incoming.Request? && incoming.decoded.Success? && incoming.decoded.value.Add?) ==>
                var url := incoming.decoded.value.url;
                && nextId == old(nextId) + 1
                && jobs == old(jobs)[old(nextId) := JobStatus(old(nextId), filenameFromUrl(url), 0, STARTING)]
                && reply == Some(Ok(AddedReply(old(nextId))))
      ensures !(incoming.Request? && incoming.decoded.Success? && incoming.decoded.value.Add?) ==>
                jobs == old(jobs) && nextId == old(nextId)
    {
      exit := false;
      match incoming {
        case NoRequest =>
          reply := None;
        case Request(Failure(e)) =>
          reply := Some(Err("Invalid JSON: " + e));
        case Request(Success(command)) =>
          match command {
            case Shutdown =>
              reply := Some(Ok("Shutting down..."));
              exit := true;
            case Status() =>
              var list := Status();
              reply := Some(list);
            case Add(url) =>
              var ack := Add(url);
              reply := Some(ack);
          }
      }
    }
  }
}
