/**
 * The process-wide delay scheduler (`JobTimer`): a FIFO of timed jobs scanned every
 * 10 ms. Ticks are C# `int`s read from `Environment.TickCount`, which the caller
 * passes in; the deadline `now + tickAfter` wraps around as unchecked `int`
 * arithmetic does. Jobs are opaque values of type `J`; whether running one throws
 * is given by the caller.
 */
module JobTimers {
  import opened Numerics
  import opened Optional
  import opened JobQueues

  /** `JobTimerElem`: a job, the tick it may run at, and a name for diagnostics. */
  datatype TimerElem<J> = TimerElem(execTick: int32, action: J, jobName: string)

  /** `JobTimerElem.CompareTo`: the other's tick minus this one's, in unchecked `int`. */
  function CompareTo<J>(self: TimerElem<J>, other: TimerElem<J>): (c: int32)
    ensures InInt32(other.execTick - self.execTick) ==> c == other.execTick - self.execTick
  {
    Wrap32(other.execTick - self.execTick)
  }

  /** While the ticks are less than 2^31 apart, the earlier job compares as the greater one. */
  lemma CompareToOrdersEarlierFirst<J>(a: TimerElem<J>, b: TimerElem<J>)
    requires InInt32(b.execTick - a.execTick) && InInt32(a.execTick - b.execTick)
    ensures CompareTo(a, b) > 0 <==> a.execTick < b.execTick
    ensures CompareTo(a, b) == 0 <==> a.execTick == b.execTick
    ensures CompareTo(a, b) as int == -(CompareTo(b, a) as int)
  {
  }

  /** The deadline `Push` computes: `now + tickAfter` in unchecked `int` arithmetic. */
  function Deadline(now: int32, tickAfter: int32): (t: int32)
    ensures InInt32(now + tickAfter) ==> t == now + tickAfter
  {
    Wrap32(now + tickAfter)
  }

  /**
   * What the collecting loop of `ProcessJobs` does to the queue `q` at tick `now`:
   * the ready jobs it takes out, in queue order, and the queue it leaves behind.
   */
  function Collect<J>(q: seq<TimerElem<J>>, now: int32): (r: (seq<TimerElem<J>>, seq<TimerElem<J>>))
    ensures |r.0| + |r.1| == |q|
  {
    if q == [] then ([], [])
    else if q[0].execTick <= now then
      var rest := Collect(q[1..], now);
      ([q[0]] + rest.0, rest.1)
    else ([], q[1..] + [q[0]])
  }

  /** The length of the longest prefix of `q` whose jobs are all due at `now`. */
  function ReadyPrefix<J>(q: seq<TimerElem<J>>, now: int32): (k: nat)
    ensures k <= |q|
    ensures forall i :: 0 <= i < k ==> q[i].execTick <= now
    ensures k < |q| ==> q[k].execTick > now
  {
    if q == [] || q[0].execTick > now then 0 else 1 + ReadyPrefix(q[1..], now)
  }

  /**
   * A scan takes exactly the longest due prefix, in order; if a job that is not due
   * stops it, that job moves to the tail behind the jobs that followed it.
   */
  lemma {:induction false} CollectSplitsAtFirstLateJob<J>(q: seq<TimerElem<J>>, now: int32)
    ensures var k := ReadyPrefix(q, now);
      Collect(q, now).0 == q[..k] &&
      Collect(q, now).1 == (if k == |q| then [] else q[k + 1..] + [q[k]])
  {
    if q != [] && q[0].execTick <= now {
      CollectSplitsAtFirstLateJob(q[1..], now);
      var k := ReadyPrefix(q, now);
      assert q[..k] == [q[0]] + q[1..][..k - 1];
      if k < |q| {
        assert q[k + 1..] == q[1..][k..];
      }
    }
  }

  /** A scan neither loses nor duplicates jobs. */
  lemma {:induction false} CollectKeepsJobs<J>(q: seq<TimerElem<J>>, now: int32)
    ensures multiset(q) == multiset(Collect(q, now).0) + multiset(Collect(q, now).1)
  {
    if q != [] {
      assert q == [q[0]] + q[1..];
      if q[0].execTick <= now {
        CollectKeepsJobs(q[1..], now);
      }
    }
  }

  /** When every queued job is due, one scan takes them all and empties the queue. */
  lemma AllDueAllCollected<J>(q: seq<TimerElem<J>>, now: int32)
    requires forall i :: 0 <= i < |q| ==> q[i].execTick <= now
    ensures Collect(q, now) == (q, [])
  {
    CollectSplitsAtFirstLateJob(q, now);
    assert q[..|q|] == q;
  }

  /**
   * The scan's ordering quirk: a due job queued behind one that is not due is not run
   * in this tick, and the late job moves behind it.
   */
  lemma DueJobBehindLateJobWaits<J>(late: TimerElem<J>, due: TimerElem<J>, now: int32)
    requires late.execTick > now >= due.execTick
    ensures Collect([late, due], now) == ([], [due, late])
  {
    assert [late, due][1..] + [late] == [due, late];
  }

  /**
   * The deadline arithmetic wraps: a non-negative delay that carries `now + tickAfter`
   * past 2^31 - 1 gives a negative deadline, earlier than `now`, so the job is due at
   * the very tick it was pushed.
   */
  lemma WrappedDeadlineIsDueAtOnce(now: int32, tickAfter: int32)
    requires 0 <= tickAfter && now as int + tickAfter as int >= TWO_31
    ensures Deadline(now, tickAfter) == now + tickAfter - TWO_32
    ensures Deadline(now, tickAfter) < 0 && Deadline(now, tickAfter) < now
  {
  }

  /** The actions of timed jobs, in order. */
  function Actions<J>(js: seq<TimerElem<J>>): (acts: seq<J>)
    ensures |acts| == |js|
  {
    if js == [] then [] else Actions(js[..|js| - 1]) + [js[|js| - 1].action]
  }

  /** Running the job at index `i` extends the list of run actions by its action. */
  lemma RunStep<J>(js: seq<TimerElem<J>>, i: nat, ran: seq<J>, throws: J -> bool)
    requires i < |js| && ran == Actions(js[..i])
    ensures ran + [js[i].action] == Actions(js[..i + 1])
    ensures Failures(ran + [js[i].action], throws) == Failures(ran, throws) + (if throws(js[i].action) then 1 else 0)
  {
    assert js[..i + 1][..i] == js[..i];
    assert (ran + [js[i].action])[..|ran|] == ran;
  }

  /**
   * The timer jobs that the actions `acts` schedule while they run, in run order.
   * `pushes(a)` is what action `a` hands to `Push` (its null pushes schedule nothing
   * and are not listed).
   */
  function Pushed<J>(acts: seq<J>, pushes: J -> seq<TimerElem<J>>): seq<TimerElem<J>>
  {
    if acts == [] then [] else Pushed(acts[..|acts| - 1], pushes) + pushes(acts[|acts| - 1])
  }

  /** Running one more action appends what it pushes. */
  lemma PushedStep<J>(acts: seq<J>, a: J, pushes: J -> seq<TimerElem<J>>)
    ensures Pushed(acts + [a], pushes) == Pushed(acts, pushes) + pushes(a)
  {
    assert (acts + [a])[..|acts|] == acts;
  }

  class JobTimer<J> {
    /** `_jobQueue`, oldest first. */
    var queue: seq<TimerElem<J>>

    constructor()
      ensures queue == []
    {
      queue := [];
    }

    /** Schedules `action` for tick `now + tickAfter`; a null action schedules nothing. */
    method Push(action: Option<J>, tickAfter: int32, jobName: string, now: int32)
      modifies this
      ensures action.None? ==> queue == old(queue)
      ensures action.Some? ==> queue == old(queue) + [TimerElem(Deadline(now, tickAfter), action.value, jobName)]
    {
      if action.None? {
        return;
      }
      var job := TimerElem(Deadline(now, tickAfter), action.value, jobName);
      queue := queue + [job];
    }

    /**
     * One timer tick: collect the due jobs, then run them in order. A job that throws
     * is logged and the next one still runs; `executed` counts those that did not throw.
     * Jobs are chosen before any of them runs, so a job pushed while running is queued
     * behind the jobs left over and waits for a later tick.
     */
    method ProcessJobs(now: int32, throws: J -> bool, pushes: J -> seq<TimerElem<J>>) returns (ran: seq<J>, executed: nat)
      modifies this
      ensures ran == Actions(Collect(old(queue), now).0)
      ensures queue == Collect(old(queue), now).1 + Pushed(ran, pushes)
      ensures executed == |ran| - Failures(ran, throws)
    {
      var readyJobs := CollectReady(now);
      ran, executed := RunAll(readyJobs, throws, pushes);
    }

    /**
     * The execution phase: every collected job runs once, in order, and what it pushes
     * joins the back of the queue at once; a job that throws is logged and the following
     * jobs still run. `executed` counts the jobs that did not throw.
     */
    method RunAll(readyJobs: seq<TimerElem<J>>, throws: J -> bool, pushes: J -> seq<TimerElem<J>>)
      returns (ran: seq<J>, executed: nat)
      modifies this`queue
      ensures ran == Actions(readyJobs)
      ensures queue == old(queue) + Pushed(ran, pushes)
      ensures executed == |ran| - Failures(ran, throws)
    {
      ran, executed := [], 0;
      var failed := 0;
      for i := 0 to |readyJobs|
        invariant ran == Actions(readyJobs[..i])
        invariant queue == old(queue) + Pushed(ran, pushes)
        invariant failed == Failures(ran, throws) && executed == i - failed
      {
        var action := readyJobs[i].action;
        RunStep(readyJobs, i, ran, throws);
        PushedStep(ran, action, pushes);
        queue := queue + pushes(action);
        ran := ran + [action];
        if throws(action) {
          failed := failed + 1;
        } else {
          executed := executed + 1;
        }
      }
      assert readyJobs[..|readyJobs|] == readyJobs;
    }

    /** The scan: due jobs leave the queue in order until the first job that is not due. */
    method CollectReady(now: int32) returns (readyJobs: seq<TimerElem<J>>)
      modifies this`queue
      ensures readyJobs == Collect(old(queue), now).0 && queue == Collect(old(queue), now).1
    {
      readyJobs := [];
      assert [] + Collect(queue, now).0 == Collect(queue, now).0;
      while queue != []
        invariant Collect(old(queue), now) == (readyJobs + Collect(queue, now).0, Collect(queue, now).1)
        decreases |queue|
      {
        var job := queue[0];
        if job.execTick <= now {
          queue := queue[1..];
          assert (readyJobs + [job]) + Collect(queue, now).0 == readyJobs + ([job] + Collect(queue, now).0);
          readyJobs := readyJobs + [job];
        } else {
          assert Collect(queue, now) == ([], queue[1..] + [job]);
          assert readyJobs + [] == readyJobs;
          queue := queue[1..] + [job];
          break;
        }
      }
    }
  }
}
