/**
 * The per-room job mailbox (`JobQueue`): an unbounded single-consumer channel
 * drained by one worker, plus a disposed flag. The channel and its background task
 * are modelled sequentially: `Push` is the writer side, `TakeNext` one step of the
 * worker's `await foreach`, `Drain` the worker emptying the channel.
 */
module JobQueues {
  import opened Optional

  /** How many of the jobs `js` fail when run. */
  function Failures<T>(js: seq<T>, throws: T -> bool): (n: nat)
    ensures n <= |js|
  {
    if js == [] then 0 else Failures(js[..|js| - 1], throws) + (if throws(js[|js| - 1]) then 1 else 0)
  }

  class JobQueue<T> {
    /** The jobs written to the channel and not read yet, oldest first. */
    var pending: seq<T>
    var disposed: bool

    constructor()
      ensures pending == [] && !disposed
    {
      pending := [];
      disposed := false;
    }

    /** Accepts a job unless the queue is disposed or the job is null. */
    method Push(job: Option<T>)
      modifies this
      ensures disposed == old(disposed)
      ensures old(disposed) || job.None? ==> pending == old(pending)
      ensures !old(disposed) && job.Some? ==> pending == old(pending) + [job.value]
    {
      if disposed || job.None? {
        return;
      }
      pending := pending + [job.value];
    }

    /** One step of the worker: the oldest job, if any, is taken out to be run. */
    method TakeNext() returns (job: Option<T>)
      modifies this
      ensures disposed == old(disposed)
      ensures old(pending) == [] ==> job == None && pending == []
      ensures old(pending) != [] ==> job == Some(old(pending)[0]) && pending == old(pending)[1..]
    {
      if pending == [] {
        return None;
      }
      job := Some(pending[0]);
      pending := pending[1..];
    }

    /**
     * The worker draining the channel: every queued job is run once, in push order;
     * a job that throws is logged and counted, and the following jobs still run.
     */
    method Drain(throws: T -> bool) returns (ran: seq<T>, failed: nat)
      modifies this
      ensures ran == old(pending) && pending == [] && disposed == old(disposed)
      ensures failed == Failures(ran, throws) && failed <= |ran|
    {
      ran, failed := [], 0;
      while pending != []
        invariant ran + pending == old(pending)
        invariant failed == Failures(ran, throws)
        invariant disposed == old(disposed)
        decreases |pending|
      {
        var job := pending[0];
        pending := pending[1..];
        assert (ran + [job])[..|ran|] == ran;
        ran := ran + [job];
        if throws(job) {
          failed := failed + 1;
        }
      }
    }

    /** Stops accepting jobs; already queued jobs stay for the worker. Idempotent. */
    method Dispose()
      modifies this
      ensures disposed && pending == old(pending)
      ensures old(disposed) ==> unchanged(this)
    {
      if disposed {
        return;
      }
      disposed := true;
    }
  }
}
