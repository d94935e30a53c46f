/**
 * The client-side `Connector`: `count` connections, each retried up to `maxRetries`
 * times with a fixed delay. Sockets, the session factory, `Start` and `OnConnected`
 * are external; what one attempt turns out to be is given by an oracle `outcome`,
 * indexed by attempt number from 1. The delay between attempts and the logging are
 * not modelled.
 */
module Connector {
  import opened Seqs

  /** How one connection attempt ends. */
  datatype Attempt =
    | ConnectFails   // creating or connecting the socket threw
    | NoSession      // connected, but the factory is missing or returned null
    | StartFails     // `Start` or `OnConnected` threw
    | Established    // the session was started and told it is connected

  /** Attempts that are followed by another one, unless they were the last allowed. */
  predicate Retryable(a: Attempt)
  {
    a.ConnectFails? || a.StartFails?
  }

  /** Every attempt from `from` up to, but not including, `k` failed in a retryable way. */
  ghost predicate RetriesUntil(outcome: nat -> Attempt, from: nat, k: nat)
  {
    forall j :: from <= j < k ==> Retryable(outcome(j))
  }

  /**
   * `ConnectSingleAsync` from attempt number `attempt` on: whether the connection was
   * made and how many attempts were made in all.
   */
  function SingleFrom(attempt: nat, maxRetries: int, outcome: nat -> Attempt): (r: (bool, nat))
    requires attempt >= 1
    ensures r.0 ==> outcome(r.1) == Established
    decreases maxRetries - attempt
  {
    if attempt > maxRetries then (false, attempt - 1)
    else match outcome(attempt)
      case Established => (true, attempt)
      case NoSession => (false, attempt)
      case _ => if attempt < maxRetries then SingleFrom(attempt + 1, maxRetries, outcome) else (false, attempt)
  }

  /** The whole run of `ConnectSingleAsync`. */
  function SingleRun(maxRetries: int, outcome: nat -> Attempt): (r: (bool, nat))
    ensures r.1 <= (if maxRetries < 0 then 0 else maxRetries)
    ensures maxRetries < 1 ==> r == (false, 0)
  {
    SingleFromBounds(1, maxRetries, outcome);
    SingleFrom(1, maxRetries, outcome)
  }

  /** The retry loop of one connection: returns whether it connected and the attempts made. */
  method ConnectSingle(maxRetries: int, outcome: nat -> Attempt) returns (ok: bool, attempts: nat)
    ensures (ok, attempts) == SingleRun(maxRetries, outcome)
  {
    var attempt := 1;
    while attempt <= maxRetries
      invariant 1 <= attempt
      invariant SingleRun(maxRetries, outcome) == SingleFrom(attempt, maxRetries, outcome)
      decreases maxRetries - attempt
    {
      match outcome(attempt) {
        case Established =>
          return true, attempt;
        case NoSession =>
          return false, attempt;
        case _ =>
          if attempt >= maxRetries {
            return false, attempt;
          }
      }
      attempt := attempt + 1;
    }
    return false, attempt - 1;
  }

  /** A single connection makes at most `maxRetries` attempts, none when it is not positive. */
  lemma {:induction false} SingleFromBounds(attempt: nat, maxRetries: int, outcome: nat -> Attempt)
    requires attempt >= 1
    ensures var r := SingleFrom(attempt, maxRetries, outcome);
      (attempt <= maxRetries ==> attempt <= r.1 <= maxRetries) &&
      (attempt > maxRetries ==> r == (false, attempt - 1))
    decreases maxRetries - attempt
  {
    if attempt < maxRetries && Retryable(outcome(attempt)) {
      SingleFromBounds(attempt + 1, maxRetries, outcome);
    }
  }

  /**
   * A success is an `Established` attempt preceded only by retryable failures, and the
   * attempt count is its number.
   */
  lemma {:induction false} SingleFromSuccess(attempt: nat, maxRetries: int, outcome: nat -> Attempt)
    requires attempt >= 1
    ensures var r := SingleFrom(attempt, maxRetries, outcome);
      r.0 ==> attempt <= r.1 <= maxRetries && outcome(r.1) == Established && RetriesUntil(outcome, attempt, r.1)
    decreases maxRetries - attempt
  {
    if attempt <= maxRetries && attempt < maxRetries && Retryable(outcome(attempt)) {
      SingleFromSuccess(attempt + 1, maxRetries, outcome);
    }
  }

  /**
   * The first attempt that is not a retryable failure decides: `Established` returns
   * true and `NoSession` false, with no further attempt.
   */
  lemma {:induction false} FirstDecisiveAttemptWins(attempt: nat, maxRetries: int, outcome: nat -> Attempt, k: nat)
    requires 1 <= attempt <= k <= maxRetries
    requires RetriesUntil(outcome, attempt, k) && !Retryable(outcome(k))
    ensures SingleFrom(attempt, maxRetries, outcome) == (outcome(k) == Established, k)
    decreases k - attempt
  {
    if attempt < k {
      assert Retryable(outcome(attempt));
      FirstDecisiveAttemptWins(attempt + 1, maxRetries, outcome, k);
    }
  }

  /** When every allowed attempt fails in a retryable way, the connection fails after all of them. */
  lemma {:induction false} AllAttemptsFail(attempt: nat, maxRetries: int, outcome: nat -> Attempt)
    requires 1 <= attempt <= maxRetries
    requires RetriesUntil(outcome, attempt, maxRetries + 1)
    ensures SingleFrom(attempt, maxRetries, outcome) == (false, maxRetries)
    decreases maxRetries - attempt
  {
    assert Retryable(outcome(attempt));
    if attempt < maxRetries {
      AllAttemptsFail(attempt + 1, maxRetries, outcome);
    }
  }

  /** The results of the `count` concurrent connections. */
  function Results(count: int, maxRetries: int, outcomes: nat -> nat -> Attempt): (rs: seq<bool>)
    ensures |rs| == if count < 0 then 0 else count
  {
    if count <= 0 then [] else Results(count - 1, maxRetries, outcomes) + [SingleRun(maxRetries, outcomes(count - 1)).0]
  }

  /**
   * `ConnectAsync`: starts `count` connections (connection `i` sees `outcomes(i)`),
   * waits for all, and returns how many connected; successes are kept whatever the
   * others do.
   */
  method ConnectAsync(count: int, maxRetries: int, outcomes: nat -> nat -> Attempt) returns (success: nat)
    ensures success == CountTrue(Results(count, maxRetries, outcomes))
    ensures success <= if count < 0 then 0 else count
  {
    var results: seq<bool> := [];
    var i := 0;
    while i < count
      invariant 0 <= i <= (if count < 0 then 0 else count)
      invariant results == Results(i, maxRetries, outcomes)
      decreases count - i
    {
      var ok, _ := ConnectSingle(maxRetries, outcomes(i));
      results := results + [ok];
      i := i + 1;
    }
    assert results == Results(count, maxRetries, outcomes);
    success := 0;
    for j := 0 to |results|
      invariant success == CountTrue(results[..j])
    {
      assert results[..j + 1][..j] == results[..j];
      if results[j] {
        success := success + 1;
      }
    }
    assert results[..|results|] == results;
    CountTrueBounds(results);
  }
}
