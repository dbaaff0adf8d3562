/** `retryOperation(operation, retries = 5, delayMs = 1000)`: a counted loop that
    invokes a fallible operation until it resolves, waiting `delayMs` between
    failed attempts and re-throwing the error of the last attempt once the
    attempts run out. The operation is an oracle: attempt number k (counted
    from 1, as the source's `attempt`) resolves or throws as `op(k)` says. */
module Retry {
  import opened Outcomes

  /** The default arguments of `retryOperation`. */
  const DefaultRetries: int := 5
  const DefaultDelayMs: int := 1000

  /** What an observer of one `retryOperation` call sees: each invocation of the
      operation, numbered, and each `await delay(ms)` between two of them. */
  datatype RetryEvent = Invoke(attempt: nat) | Wait(ms: int)

  datatype RetryRun = RetryRun(events: seq<RetryEvent>, completion: Completion)

  /** The loop of `retryOperation` from iteration `attempt` on. */
  function RunFrom(op: nat -> Outcome, retries: int, delayMs: int, attempt: nat): RetryRun
    requires 1 <= attempt
    decreases if attempt <= retries then retries - attempt + 1 else 0
  {
    if retries < attempt then RetryRun([], Returned)
    else if op(attempt).Success? then RetryRun([Invoke(attempt)], Returned)
    else if attempt < retries then
      var rest := RunFrom(op, retries, delayMs, attempt + 1);
      RetryRun([Invoke(attempt), Wait(delayMs)] + rest.events, rest.completion)
    else RetryRun([Invoke(attempt)], Threw(op(attempt).error))
  }

  /** The whole observable run of `retryOperation(op, retries, delayMs)`. */
  function Run(op: nat -> Outcome, retries: int, delayMs: int): RetryRun
  {
    RunFrom(op, retries, delayMs, 1)
  }

  /** Number of invocations of the operation in a run. */
  function Invocations(events: seq<RetryEvent>): nat
  {
    if events == [] then 0
    else Invocations(events[..|events| - 1]) + (if events[|events| - 1].Invoke? then 1 else 0)
  }

  /** Number of delays in a run. */
  function Waits(events: seq<RetryEvent>): nat
  {
    if events == [] then 0
    else Waits(events[..|events| - 1]) + (if events[|events| - 1].Wait? then 1 else 0)
  }

  lemma {:induction false} CountsAppend(a: seq<RetryEvent>, b: seq<RetryEvent>)
    ensures Invocations(a + b) == Invocations(a) + Invocations(b)
    ensures Waits(a + b) == Waits(a) + Waits(b)
    decreases |b|
  {
    if b == [] {
      assert a + b == a;
    } else {
      var b' := b[..|b| - 1];
      assert (a + b)[..|a + b| - 1] == a + b';
      CountsAppend(a, b');
    }
  }

  /** The two counts of the prefix `[Invoke(k), Wait(ms)]` a failed, non-final attempt adds. */
  lemma CountsFailedAttempt(attempt: nat, delayMs: int, rest: seq<RetryEvent>)
    ensures Invocations([Invoke(attempt), Wait(delayMs)] + rest) == 1 + Invocations(rest)
    ensures Waits([Invoke(attempt), Wait(delayMs)] + rest) == 1 + Waits(rest)
  {
    var head := [Invoke(attempt), Wait(delayMs)];
    CountsAppend(head, rest);
    assert head[..1] == [Invoke(attempt)];
    assert [Invoke(attempt)][..0] == [];
    assert Invocations([Invoke(attempt)]) == 1 && Waits([Invoke(attempt)]) == 0;
    assert Invocations(head) == 1 && Waits(head) == 1;
  }

  /** Every attempt of `op` numbered from `from` up to (not including) `to` throws. */
  ghost predicate FailsBetween(op: nat -> Outcome, from: nat, to: nat)
  {
    forall a: nat :: from <= a < to ==> op(a).Failure?
  }

  /** If the first attempt that resolves is attempt k, with k <= retries, the loop
      invokes the operation exactly k times, waits exactly k - 1 times and
      returns normally. */
  lemma {:induction false} RunFromSucceedsAt(op: nat -> Outcome, retries: int, delayMs: int, attempt: nat, k: nat)
    requires 1 <= attempt <= k <= retries
    requires op(k).Success? && FailsBetween(op, attempt, k)
    ensures RunFrom(op, retries, delayMs, attempt).completion == Returned
    ensures Invocations(RunFrom(op, retries, delayMs, attempt).events) == k - attempt + 1
    ensures Waits(RunFrom(op, retries, delayMs, attempt).events) == k - attempt
    decreases k - attempt
  {
    if attempt == k {
      assert [Invoke(attempt)][..0] == [];
    } else {
      assert op(attempt).Failure?;
      RunFromSucceedsAt(op, retries, delayMs, attempt + 1, k);
      CountsFailedAttempt(attempt, delayMs, RunFrom(op, retries, delayMs, attempt + 1).events);
    }
  }

  lemma SucceedsOnAttempt(op: nat -> Outcome, retries: int, delayMs: int, k: nat)
    requires 1 <= k <= retries
    requires op(k).Success? && FailsBetween(op, 1, k)
    ensures Run(op, retries, delayMs).completion == Returned
    ensures Invocations(Run(op, retries, delayMs).events) == k
    ensures Waits(Run(op, retries, delayMs).events) == k - 1
  {
    RunFromSucceedsAt(op, retries, delayMs, 1, k);
  }

  lemma {:induction false} RunFromExhausted(op: nat -> Outcome, retries: int, delayMs: int, attempt: nat)
    requires 1 <= attempt <= retries
    requires FailsBetween(op, attempt, retries + 1)
    ensures RunFrom(op, retries, delayMs, attempt).completion == Threw(op(retries).error)
    ensures Invocations(RunFrom(op, retries, delayMs, attempt).events) == retries - attempt + 1
    ensures Waits(RunFrom(op, retries, delayMs, attempt).events) == retries - attempt
    ensures RunFrom(op, retries, delayMs, attempt).events[|RunFrom(op, retries, delayMs, attempt).events| - 1] == Invoke(retries)
    decreases retries - attempt
  {
    assert op(attempt).Failure?;
    if attempt == retries {
      assert [Invoke(attempt)][..0] == [];
    } else {
      RunFromExhausted(op, retries, delayMs, attempt + 1);
      CountsFailedAttempt(attempt, delayMs, RunFrom(op, retries, delayMs, attempt + 1).events);
    }
  }

  /** If every one of the `retries` attempts throws, the operation is invoked
      exactly `retries` times, there are `retries - 1` delays, the last thing
      that happens is the final invocation (no delay after it), and the error
      of that final attempt is re-thrown. */
  lemma Exhausted(op: nat -> Outcome, retries: int, delayMs: int)
    requires 1 <= retries
    requires FailsBetween(op, 1, retries + 1)
    ensures Run(op, retries, delayMs).completion == Threw(op(retries).error)
    ensures Invocations(Run(op, retries, delayMs).events) == retries
    ensures Waits(Run(op, retries, delayMs).events) == retries - 1
    ensures Run(op, retries, delayMs).events[|Run(op, retries, delayMs).events| - 1] == Invoke(retries)
  {
    RunFromExhausted(op, retries, delayMs, 1);
  }

  lemma {:induction false} RunFromThrowsIff(op: nat -> Outcome, retries: int, delayMs: int, attempt: nat)
    requires 1 <= attempt
    ensures RunFrom(op, retries, delayMs, attempt).completion.Threw?
        <==> attempt <= retries && FailsBetween(op, attempt, retries + 1)
    decreases if attempt <= retries then retries - attempt + 1 else 0
  {
    if attempt <= retries && op(attempt).Failure? && attempt < retries {
      RunFromThrowsIff(op, retries, delayMs, attempt + 1);
      if FailsBetween(op, attempt + 1, retries + 1) {
        forall a: nat | attempt <= a < retries + 1 ensures op(a).Failure? {
          if a != attempt { assert attempt + 1 <= a; }
        }
      }
    } else if attempt <= retries && op(attempt).Success? {
      assert !FailsBetween(op, attempt, retries + 1) by { assert !op(attempt).Failure?; }
    }
  }

  /** `retryOperation` throws exactly when there is at least one attempt and
      every attempt throws; otherwise it returns normally. In particular it
      returns normally without invoking anything when `retries <= 0`. */
  lemma ThrowsIff(op: nat -> Outcome, retries: int, delayMs: int)
    ensures Run(op, retries, delayMs).completion.Threw?
        <==> 1 <= retries && FailsBetween(op, 1, retries + 1)
  {
    RunFromThrowsIff(op, retries, delayMs, 1);
  }

  /** The shape of every run: invocations of consecutive attempts, starting with
      `attempt`, with exactly one delay of `delayMs` between two of them, and
      never more invocations than attempts left. */
  lemma {:induction false} RunFromShape(op: nat -> Outcome, retries: int, delayMs: int, attempt: nat)
    requires 1 <= attempt
    ensures var e := RunFrom(op, retries, delayMs, attempt).events;
      && (e == [] <==> retries < attempt)
      && (e != [] ==> |e| % 2 == 1 && 2 * (retries - attempt) + 1 >= |e|)
      && (forall i :: 0 <= i < |e| ==> e[i] == if i % 2 == 0 then Invoke(attempt + i / 2) else Wait(delayMs))
    decreases if attempt <= retries then retries - attempt + 1 else 0
  {
    if attempt <= retries && op(attempt).Failure? && attempt < retries {
      RunFromShape(op, retries, delayMs, attempt + 1);
      var rest := RunFrom(op, retries, delayMs, attempt + 1).events;
      var e := [Invoke(attempt), Wait(delayMs)] + rest;
      forall i | 0 <= i < |e|
        ensures e[i] == if i % 2 == 0 then Invoke(attempt + i / 2) else Wait(delayMs)
      {
        if i >= 2 {
          assert e[i] == rest[i - 2];
          assert (i - 2) % 2 == i % 2 && (i - 2) / 2 == i / 2 - 1;
        }
      }
    }
  }

  /** Invocation count and delay count of any run: the operation is invoked at
      most `retries` times (never when `retries <= 0`), and there is one delay
      fewer than invocations. */
  lemma Bounds(op: nat -> Outcome, retries: int, delayMs: int)
    ensures var e := Run(op, retries, delayMs).events;
      && Invocations(e) <= (if retries < 0 then 0 else retries)
      && (retries <= 0 ==> e == [] && Run(op, retries, delayMs).completion == Returned)
      && (e != [] ==> Waits(e) + 1 == Invocations(e))
  {
    RunFromShape(op, retries, delayMs, 1);
    var e := Run(op, retries, delayMs).events;
    if e != [] {
      ShapeCounts(e, delayMs, |e| / 2);
    }
  }

  /** Counts of an alternating sequence `Invoke, Wait, Invoke, ..., Invoke`. */
  lemma {:induction false} ShapeCounts(e: seq<RetryEvent>, delayMs: int, n: nat)
    requires |e| == 2 * n + 1
    requires forall i :: 0 <= i < |e| ==> e[i] == if i % 2 == 0 then Invoke(1 + i / 2) else Wait(delayMs)
    ensures Invocations(e) == n + 1 && Waits(e) == n
    decreases n
  {
    if n == 0 {
      assert e[..0] == [];
    } else {
      var p := e[..|e| - 2];
      assert p[..|p|] == p;
      assert e[..|e| - 1][..|e| - 2] == p;
      ShapeCounts(p, delayMs, n - 1);
      assert e[|e| - 1].Invoke? && e[|e| - 2].Wait? by {
        assert (|e| - 1) % 2 == 0 && (|e| - 2) % 2 == 1;
      }
    }
  }

  /** The loop has produced `events` and will go on at `attempt`: together
      they make up the whole run. */
  ghost predicate RunsOn(op: nat -> Outcome, retries: int, delayMs: int, attempt: nat, events: seq<RetryEvent>)
    requires 1 <= attempt
  {
    var rest := RunFrom(op, retries, delayMs, attempt);
    Run(op, retries, delayMs) == RetryRun(events + rest.events, rest.completion)
  }

  /** Attempt `attempt` ends the run: it resolves, or it is the last and throws. */
  lemma FinalAttempt(op: nat -> Outcome, retries: int, delayMs: int, attempt: nat, events: seq<RetryEvent>)
    requires 1 <= attempt <= retries && RunsOn(op, retries, delayMs, attempt, events)
    requires op(attempt).Success? || attempt == retries
    ensures Run(op, retries, delayMs)
         == RetryRun(events + [Invoke(attempt)], if op(attempt).Success? then Returned else Threw(op(attempt).error))
    ensures Invocations(events + [Invoke(attempt)]) == Invocations(events) + 1
    ensures Waits(events + [Invoke(attempt)]) == Waits(events)
  {
    assert (events + [Invoke(attempt)])[..|events|] == events;
  }

  /** Attempt `attempt` throws and is not the last: one invocation and one delay
      later the loop goes on at the next attempt. */
  lemma FailedAttempt(op: nat -> Outcome, retries: int, delayMs: int, attempt: nat, events: seq<RetryEvent>)
    requires 1 <= attempt < retries && RunsOn(op, retries, delayMs, attempt, events)
    requires op(attempt).Failure?
    ensures RunsOn(op, retries, delayMs, attempt + 1, events + [Invoke(attempt), Wait(delayMs)])
    ensures Invocations(events + [Invoke(attempt), Wait(delayMs)]) == Invocations(events) + 1
    ensures Waits(events + [Invoke(attempt), Wait(delayMs)]) == Waits(events) + 1
  {
    var next := RunFrom(op, retries, delayMs, attempt + 1);
    assert events + ([Invoke(attempt), Wait(delayMs)] + next.events)
        == (events + [Invoke(attempt), Wait(delayMs)]) + next.events;
    CountsAppend(events, [Invoke(attempt), Wait(delayMs)]);
    CountsFailedAttempt(attempt, delayMs, []);
    assert [Invoke(attempt), Wait(delayMs)] + [] == [Invoke(attempt), Wait(delayMs)];
  }

  /** The loop of `retryOperation`, returning what an observer sees: the number
      of invocations, the number of delays, how the call ends, and the events in
      order. */
  method RetryOperation(op: nat -> Outcome, retries: int, delayMs: int)
    returns (invocations: nat, waits: nat, completion: Completion, events: seq<RetryEvent>)
    ensures RetryRun(events, completion) == Run(op, retries, delayMs)
    ensures invocations == Invocations(events) && waits == Waits(events)
  {
    events, invocations, waits := [], 0, 0;
    var attempt := 1;
    while attempt <= retries
      invariant 1 <= attempt
      invariant RunsOn(op, retries, delayMs, attempt, events)
      invariant invocations == Invocations(events) && waits == Waits(events)
      decreases retries - attempt
    {
      var outcome := op(attempt);
      if outcome.Success? {
        FinalAttempt(op, retries, delayMs, attempt, events);
        events, invocations := events + [Invoke(attempt)], invocations + 1;
        completion := Returned;
        return;
      }
      if attempt < retries {
        FailedAttempt(op, retries, delayMs, attempt, events);
        events := events + [Invoke(attempt), Wait(delayMs)];
        invocations, waits := invocations + 1, waits + 1;
      } else {
        FinalAttempt(op, retries, delayMs, attempt, events);
        events, invocations := events + [Invoke(attempt)], invocations + 1;
        completion := Threw(outcome.error);
        return;
      }
      attempt := attempt + 1;
    }
    assert events + [] == events;
    completion := Returned;
  }
}
