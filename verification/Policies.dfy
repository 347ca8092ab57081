// Failure policies around an adapter: bounded retry with backoff, and a circuit
// breaker.
module Policies {
  import opened Errors

  // ---- retry ---------------------------------------------------------------------------

  /** What one call of a task does. */
  datatype Attempt<+T> = Success(value: T) | Failure(thrown: Thrown)

  /** The task's behaviour, call by call. */
  type Task<!T> = nat -> Attempt<T>

  /** Call k ends the loop: it succeeded, is not retryable, or the budget is spent. */
  ghost predicate Stops<T>(task: Task<T>, retries: int, k: nat) {
    match task(k)
    case Success(_) => true
    case Failure(thrown) => !NormalizeError(thrown).retryable || k >= retries
  }

  function RealPower(b: real, e: nat): real {
    if e == 0 then 1.0 else b * RealPower(b, e - 1)
  }

  /** base * factor^k. */
  function Backoff(base: real, factor: real, k: nat): real {
    base * RealPower(factor, k)
  }

  /** base * factor^0 + ... + base * factor^(n-1). */
  function BackoffSum(base: real, factor: real, n: nat): real {
    if n == 0 then 0.0 else BackoffSum(base, factor, n - 1) + Backoff(base, factor, n - 1)
  }

  function Sum(delays: seq<real>): real {
    if delays == [] then 0.0 else Sum(delays[..|delays| - 1]) + delays[|delays| - 1]
  }

  /** `random()` of the k-th delay. */
  type Random = nat -> real

  /** The delay slept after failed attempt k. */
  function Delay(base: real, factor: real, jitter: bool, random: Random, k: nat): real {
    var backoff := Backoff(base, factor, k);
    if jitter then Jittered(backoff, random(k)) else backoff
  }

  function Jittered(backoff: real, r: real): real {
    backoff * (0.5 + r * 0.5)
  }

  function Outcome<T>(a: Attempt<T>): Result<T, IntegrationError> {
    match a
    case Success(v) => Ok(v)
    case Failure(thrown) => Err(NormalizeError(thrown))
  }

  /**
   * Retries stop at the first success, the first non-retryable error, or attempt
   * retries + 1, and hand back that call's outcome.
   */
  method WithRetry<T>(task: Task<T>, retries: int, base: real, factor: real, jitter: bool, random: Random)
    returns (r: Result<T, IntegrationError>, calls: nat, delays: seq<real>)
    ensures (calls, r) == RetryResult(task, retries)
    ensures calls >= 1 && Stops(task, retries, calls - 1) && r == Outcome(task(calls - 1))
    ensures forall k: nat :: k < calls - 1 ==> !Stops(task, retries, k)
    ensures |delays| == calls - 1
    ensures forall k: nat :: k < |delays| ==> delays[k] == Delay(base, factor, jitter, random, k)
  {
    var attempt := 0;
    delays := [];
    while true
      invariant 0 <= attempt && |delays| == attempt
      invariant forall k: nat :: k < attempt ==> !Stops(task, retries, k)
      invariant forall k: nat :: k < attempt ==> delays[k] == Delay(base, factor, jitter, random, k)
      decreases retries - attempt
    {
      var a := task(attempt);
      if a.Success? {
        RetryCalls(task, retries, 0, attempt + 1);
        return Ok(a.value), attempt + 1, delays;
      }
      var normalized := NormalizeError(a.thrown);
      if !normalized.retryable || attempt >= retries {
        RetryCalls(task, retries, 0, attempt + 1);
        return Err(normalized), attempt + 1, delays;
      }
      var backoff := Backoff(base, factor, attempt);
      delays := delays + [if jitter then backoff * (0.5 + random(attempt) * 0.5) else backoff];
      attempt := attempt + 1;
    }
  }

  /** The calls made and the outcome are determined by the stopping rule. */
  function RetryFrom<T>(task: Task<T>, retries: int, k: nat): (nat, Result<T, IntegrationError>)
    decreases retries - k
  {
    match task(k)
    case Success(v) => (k + 1, Ok(v))
    case Failure(thrown) =>
      var e := NormalizeError(thrown);
      if !e.retryable || k >= retries then (k + 1, Err(e)) else RetryFrom(task, retries, k + 1)
  }

  function RetryResult<T>(task: Task<T>, retries: int): (nat, Result<T, IntegrationError>) {
    RetryFrom(task, retries, 0)
  }

  /** The stopping rule fixes the number of calls; it is at most retries + 1. */
  lemma {:induction false} RetryCalls<T>(task: Task<T>, retries: int, k: nat, calls: nat)
    requires k < calls && Stops(task, retries, calls - 1)
    requires forall j: nat :: k <= j < calls - 1 ==> !Stops(task, retries, j)
    ensures RetryFrom(task, retries, k) == (calls, Outcome(task(calls - 1)))
    ensures calls <= k + 1 || calls <= retries + 1
    decreases calls - k
  {
    if k < calls - 1 {
      assert !Stops(task, retries, k);
      RetryCalls(task, retries, k + 1, calls);
    }
  }

  lemma {:induction false} RetryStops<T>(task: Task<T>, retries: int, k: nat)
    ensures var (calls, r) := RetryFrom(task, retries, k);
            && k < calls && Stops(task, retries, calls - 1) && r == Outcome(task(calls - 1))
            && (forall j: nat :: k <= j < calls - 1 ==> !Stops(task, retries, j))
            && calls <= (if retries > k then retries else k) + 1
    decreases retries - k
  {
    if !Stops(task, retries, k) {
      RetryStops(task, retries, k + 1);
    }
  }

  /** The code that an error is reported under. */
  function CodeOf(t: Thrown): Code {
    match t
    case Integration(e) => e.code
    case Abort => TIMEOUT
    case Other => NETWORK
  }

  /** Which failures are retried: an explicit flag decides, else timeouts, rate limits, 5xx and network errors. */
  lemma RetriedFailures<T>(task: Task<T>, retries: int, k: nat)
    requires task(k).Failure?
    ensures Stops(task, retries, k) <==>
              k >= retries || (task(k).thrown.Integration? && !task(k).thrown.error.retryable)
    ensures Outcome(task(k)).Err? && Outcome(task(k)).error.code == CodeOf(task(k).thrown)
  {
  }

  lemma DefaultRetries(code: Code)
    ensures Default(code).code == code
    ensures Default(code).retryable <==> code in {TIMEOUT, RATE_LIMITED, UPSTREAM_5XX, NETWORK}
  {
  }

  /** Without jitter the first delay is the base and each later one the factor times the one before. */
  lemma DelaysGrow(base: real, factor: real, random: Random, k: nat)
    ensures Delay(base, factor, false, random, 0) == base
    ensures Delay(base, factor, false, random, k + 1) == factor * Delay(base, factor, false, random, k)
  {
    assert RealPower(factor, k + 1) == factor * RealPower(factor, k);
    assert base * (factor * RealPower(factor, k)) == factor * (base * RealPower(factor, k));
  }

  /** With jitter the delay is between half and all of that, linearly in the random number. */
  lemma JitteredDelay(base: real, factor: real, random: Random, k: nat)
    ensures Delay(base, factor, true, random, k) == Delay(base, factor, false, random, k) * (0.5 + random(k) / 2.0)
  {
    hide RealPower;
  }

  lemma {:induction false} PowerNonNegative(b: real, e: nat)
    requires b >= 0.0
    ensures RealPower(b, e) >= 0.0
  {
    if e > 0 {
      PowerNonNegative(b, e - 1);
    }
  }

  /** Total sleep of n retries: at most the backoff sum, and with jitter at least half of it. */
  lemma {:induction false} SleepBounds(base: real, factor: real, jitter: bool, random: Random, delays: seq<real>)
    requires base >= 0.0 && factor >= 0.0
    requires forall k: nat :: 0.0 <= random(k) < 1.0
    requires forall k: nat :: k < |delays| ==> delays[k] == Delay(base, factor, jitter, random, k)
    ensures BackoffSum(base, factor, |delays|) / 2.0 <= Sum(delays) <= BackoffSum(base, factor, |delays|)
    ensures !jitter ==> Sum(delays) == BackoffSum(base, factor, |delays|)
  {
    if delays != [] {
      var n := |delays| - 1;
      hide Delay, Backoff;
      SleepBounds(base, factor, jitter, random, delays[..n]);
      assert delays[n] == Delay(base, factor, jitter, random, n);
      DelayBounds(base, factor, jitter, random, n);
      AddHalves(BackoffSum(base, factor, n), Backoff(base, factor, n), Sum(delays[..n]), delays[n]);
    }
  }

  lemma AddHalves(b: real, x: real, s: real, d: real)
    requires b / 2.0 <= s <= b && x / 2.0 <= d <= x
    ensures (b + x) / 2.0 <= s + d <= b + x
  {
  }

  lemma DelayBounds(base: real, factor: real, jitter: bool, random: Random, k: nat)
    requires base >= 0.0 && factor >= 0.0 && 0.0 <= random(k) < 1.0
    ensures var backoff, d := Backoff(base, factor, k), Delay(base, factor, jitter, random, k);
            backoff / 2.0 <= d <= backoff && (!jitter ==> d == backoff)
  {
    hide RealPower, Jittered;
    var backoff := Backoff(base, factor, k);
    PowerNonNegative(factor, k);
    ProductNonNegative(base, RealPower(factor, k));
    JitterBounds(backoff, random(k));
  }

  lemma ProductNonNegative(a: real, b: real)
    requires a >= 0.0 && b >= 0.0
    ensures a * b >= 0.0
  {
  }

  lemma JitterBounds(backoff: real, r: real)
    requires backoff >= 0.0 && 0.0 <= r < 1.0
    ensures backoff / 2.0 <= Jittered(backoff, r) <= backoff
  {
    var f := 0.5 + r * 0.5;
    ProductNonNegative(backoff, f - 0.5);
    ProductNonNegative(backoff, 1.0 - f);
    assert backoff * (f - 0.5) == backoff * f - backoff * 0.5;
    assert backoff * (1.0 - f) == backoff - backoff * f;
  }

  // ---- circuit breaker: one transition at a time ---------------------------------------------

  datatype CircuitState = CLOSED | OPEN | HALF_OPEN

  datatype Options = Options(failureThreshold: int, resetTimeoutMs: int)

  datatype Breaker = Breaker(state: CircuitState, failures: nat, openedAt: int)

  const FRESH: Breaker := Breaker(CLOSED, 0, 0)

  /** Whether a call that starts at `now` runs its task, and the state it starts in. */
  function Start(b: Breaker, o: Options, now: int): (bool, Breaker) {
    if b.state != OPEN then (true, b)
    else if now - b.openedAt >= o.resetTimeoutMs then (true, b.(state := HALF_OPEN))
    else (false, b)
  }

  function Succeed(b: Breaker): Breaker {
    b.(failures := 0, state := CLOSED)
  }

  function Fail(b: Breaker, o: Options, now: int): Breaker {
    var failures := b.failures + 1;
    if b.state == HALF_OPEN || failures >= o.failureThreshold then Breaker(OPEN, failures, now)
    else b.(failures := failures)
  }

  /** A whole call with no other call in between: start, run the task, finish. */
  function Exec<T>(b: Breaker, o: Options, start: int, a: Attempt<T>, end: int): (Result<T, IntegrationError>, Breaker) {
    var (admitted, s) := Start(b, o, start);
    if !admitted then (Err(Default(CIRCUIT_OPEN)), b)
    else
      match a
      case Success(v) => (Ok(v), Succeed(s))
      case Failure(thrown) => (Err(NormalizeError(thrown)), Fail(s, o, end))
  }

  class CircuitBreaker {
    const options: Options
    var state: CircuitState
    var failures: nat
    var openedAt: int

    function Abs(): Breaker
      reads this
    {
      Breaker(state, failures, openedAt)
    }

    constructor (options: Options)
      ensures Abs() == FRESH && this.options == options
    {
      this.options := options;
      state, failures, openedAt := CLOSED, 0, 0;
    }

    /** The part of a call before the task. */
    method Begin(now: int) returns (admitted: bool)
      modifies this`state
      ensures (admitted, Abs()) == Start(old(Abs()), options, now)
    {
      if state == OPEN {
        if now - openedAt >= options.resetTimeoutMs {
          state := HALF_OPEN;
        } else {
          return false;
        }
      }
      return true;
    }

    method OnSuccess()
      modifies this
      ensures Abs() == Succeed(old(Abs()))
    {
      failures := 0;
      state := CLOSED;
    }

    method OnFailure(now: int)
      modifies this
      ensures Abs() == Fail(old(Abs()), options, now)
    {
      failures := failures + 1;
      if state == HALF_OPEN || failures >= options.failureThreshold {
        state := OPEN;
        openedAt := now;
      }
    }

    method Run<T>(start: int, a: Attempt<T>, end: int) returns (r: Result<T, IntegrationError>)
      modifies this
      ensures (r, Abs()) == Exec(old(Abs()), options, start, a, end)
    {
      var admitted := Begin(start);
      if !admitted {
        return Err(Default(CIRCUIT_OPEN));
      }
      match a {
        case Success(v) =>
          OnSuccess();
          return Ok(v);
        case Failure(thrown) =>
          OnFailure(end);
          return Err(NormalizeError(thrown));
      }
    }
  }

  // ---- circuit breaker: what it computes from the log of its calls -----------------------------

  /** Calls may overlap: a log of starts (with what was decided) and completions, each of one call. */
  datatype Step = Started(call: nat, now: int, admitted: bool) | Succeeded(call: nat) | Failed(call: nat, now: int)

  /** The breaker after a log; each start's decision must be the breaker's own. */
  function Replay(log: seq<Step>, o: Options): Breaker {
    if log == [] then FRESH
    else
      var b := Replay(log[..|log| - 1], o);
      match log[|log| - 1]
      case Started(_, now, _) => Start(b, o, now).1
      case Succeeded(_) => Succeed(b)
      case Failed(_, now) => Fail(b, o, now)
  }

  ghost predicate IsRun(log: seq<Step>, o: Options) {
    forall k :: 0 <= k < |log| && log[k].Started? ==> log[k].admitted == Start(Replay(log[..k], o), o, log[k].now).0
  }

  /** Failed completions since the last successful one. */
  function TrailingFailures(log: seq<Step>): nat {
    if log == [] then 0
    else
      match log[|log| - 1]
      case Started(_, _, _) => TrailingFailures(log[..|log| - 1])
      case Succeeded(_) => 0
      case Failed(_, _) => TrailingFailures(log[..|log| - 1]) + 1
  }

  /** Enough failures in a row to open. */
  predicate Tripped(log: seq<Step>, o: Options) {
    TrailingFailures(log) >= 1 && TrailingFailures(log) >= o.failureThreshold
  }

  /** Time of the last failed completion. */
  function LastFailure(log: seq<Step>): int {
    if log == [] then 0
    else if log[|log| - 1].Failed? then log[|log| - 1].now
    else LastFailure(log[..|log| - 1])
  }

  /** A call was let through after the last completion that failed. */
  predicate TrialSinceFailure(log: seq<Step>) {
    if log == [] then false
    else
      match log[|log| - 1]
      case Started(_, _, admitted) => admitted || TrialSinceFailure(log[..|log| - 1])
      case Succeeded(_) => TrialSinceFailure(log[..|log| - 1])
      case Failed(_, _) => false
  }

  /** Replaying the log gives the breaker its counter, state and opening time. */
  lemma {:induction false} BreakerIsItsLog(log: seq<Step>, o: Options)
    requires IsRun(log, o)
    ensures var b := Replay(log, o);
            && b.failures == TrailingFailures(log)
            && (b.state == CLOSED <==> !Tripped(log, o))
            && (b.state == HALF_OPEN <==> Tripped(log, o) && TrialSinceFailure(log))
            && (Tripped(log, o) ==> b.openedAt == LastFailure(log))
  {
    if log != [] {
      var n := |log| - 1;
      RunPrefix(log, n, o);
      BreakerIsItsLog(log[..n], o);
    }
  }

  lemma RunPrefix(log: seq<Step>, n: nat, o: Options)
    requires n <= |log| && IsRun(log, o)
    ensures IsRun(log[..n], o)
  {
    forall k | 0 <= k < n ensures log[..n][..k] == log[..k] {
    }
  }

  /** With any overlap of calls: what lets a call through. */
  lemma AdmissionRule(log: seq<Step>, o: Options, now: int)
    requires IsRun(log, o)
    ensures Start(Replay(log, o), o, now).0
       <==> !Tripped(log, o) || TrialSinceFailure(log) || now - LastFailure(log) >= o.resetTimeoutMs
  {
    BreakerIsItsLog(log, o);
  }

  /** CLOSED and "fewer failures than the threshold" agree in every reachable state iff the threshold is positive. */
  lemma ClosedMeansBelowThreshold(o: Options)
    ensures o.failureThreshold >= 1
       <==> forall log :: IsRun(log, o) ==> (Replay(log, o).state == CLOSED <==> Replay(log, o).failures < o.failureThreshold)
  {
    forall log | IsRun(log, o)
      ensures o.failureThreshold >= 1 ==> (Replay(log, o).state == CLOSED <==> Replay(log, o).failures < o.failureThreshold)
    {
      BreakerIsItsLog(log, o);
    }
    assert IsRun([], o) && Replay([], o).state == CLOSED && Replay([], o).failures == 0;
  }

  // The class comment promises a single half-open trial. Overlapping calls break it in two ways.

  /** Each call starts once, and completes only if let through and not yet completed. */
  ghost predicate CallsMatch(log: seq<Step>) {
    && (forall i, j :: 0 <= i < j < |log| && log[i].Started? && log[j].Started? ==> log[i].call != log[j].call)
    && (forall k: nat :: k < |log| && !log[k].Started? ==>
          exists i: nat :: i < k && log[i].Started? && log[i].admitted && log[i].call == log[k].call && Running(log, i, k))
  }

  /** The call started at i has not completed before place n. */
  ghost predicate Running(log: seq<Step>, i: nat, n: nat) {
    && i < n <= |log|
    && forall k :: i < k < n && !log[k].Started? ==> log[k].call != log[i].call
  }

  /** Place i lets a call through although the circuit is not CLOSED. */
  ghost predicate Trial(log: seq<Step>, o: Options, i: nat) {
    i < |log| && Replay(log[..i], o).state != CLOSED && log[i].Started? && log[i].admitted
  }

  /** At no time are two trials running. */
  ghost predicate AtMostOneTrial(log: seq<Step>, o: Options) {
    forall i: nat, j: nat, n: nat :: i < j && Trial(log, o, i) && Trial(log, o, j) && Running(log, i, n) ==> !Running(log, j, n)
  }

  /** The half-open period that the trial at i began was ended by another call, and the trial is still running at j. */
  ghost predicate Overtaken(log: seq<Step>, o: Options, i: nat, j: nat) {
    && Trial(log, o, i) && i < j && Running(log, i, j)
    && exists k: nat :: i < k < j && EndsPeriod(log, i, k) && log[k].call != log[i].call
  }

  /** The first completion after place i. */
  ghost predicate EndsPeriod(log: seq<Step>, i: nat, k: nat) {
    i < k < |log| && !log[k].Started? && forall x :: i < x < k ==> log[x].Started?
  }

  /**
   * How the promise is broken, completely: by a trial that starts while the state
   * is HALF_OPEN, which the breaker lets through, or by one that starts while an
   * earlier trial runs whose half-open period another call's late completion has
   * ended. A guard for both would refuse to start in HALF_OPEN, and to count the
   * completions of calls that began before the last trial.
   */
  lemma AtMostOneTrialExactly(log: seq<Step>, o: Options)
    requires IsRun(log, o)
    ensures AtMostOneTrial(log, o) <==>
              forall j: nat :: Trial(log, o, j) ==>
                Replay(log[..j], o).state != HALF_OPEN && forall i: nat :: !Overtaken(log, o, i, j)
  {
    hide Replay, IsRun;
    forall j: nat | Trial(log, o, j) && Replay(log[..j], o).state == HALF_OPEN ensures !AtMostOneTrial(log, o) {
      var i := TrialBehindHalfOpen(log, o, j);
      assert Trial(log, o, i) && Running(log, i, j + 1) && Running(log, j, j + 1);
    }
    forall i: nat, j: nat | Trial(log, o, j) && Overtaken(log, o, i, j) ensures !AtMostOneTrial(log, o) {
      assert Running(log, i, j + 1) && Running(log, j, j + 1);
    }
    forall i: nat, j: nat, n: nat | i < j && Trial(log, o, i) && Trial(log, o, j) && Running(log, i, n) && Running(log, j, n)
      ensures Replay(log[..j], o).state == HALF_OPEN || Overtaken(log, o, i, j)
    {
      if forall k :: i < k < j ==> log[k].Started? {
        HalfOpenPersists(log, o, i, j);
      } else {
        var k := FirstCompletion(log, i, j);
        assert EndsPeriod(log, i, k);
      }
    }
  }

  lemma FirstCompletion(log: seq<Step>, i: nat, j: nat) returns (k: nat)
    requires i < j <= |log| && exists x :: i < x < j && !log[x].Started?
    ensures k < j && EndsPeriod(log, i, k)
  {
    k := i + 1;
    while log[k].Started?
      invariant i < k < j && forall x :: i < x < k ==> log[x].Started?
      decreases j - k
    {
      k := k + 1;
    }
  }

  /** Calls that each complete before the next one starts keep the promise. */
  lemma SerialRunsKeepPromise(log: seq<Step>, o: Options)
    requires forall i :: 0 <= i < |log| - 1 && log[i].Started? && log[i].admitted ==>
               !log[i + 1].Started? && log[i + 1].call == log[i].call
    ensures AtMostOneTrial(log, o)
  {
    hide Replay;
    forall i: nat, n: nat | Trial(log, o, i) && Running(log, i, n) ensures n <= i + 1 {
      if i + 1 < |log| {
        var next := log[i + 1];
      }
    }
  }

  /** A run that breaks the promise: threshold 1, one failure, then two trials at once. */
  lemma TwoTrialsHappen()
    ensures var o := Options(1, 1000);
            var log := [Started(0, 0, true), Failed(0, 0), Started(1, 1000, true), Started(2, 1000, true)];
            && IsRun(log, o) && CallsMatch(log)
            && Trial(log, o, 2) && Trial(log, o, 3) && Running(log, 2, 4) && Running(log, 3, 4)
            && Replay(log[..2], o).state == OPEN && Replay(log[..3], o).state == HALF_OPEN
  {
    var o := Options(1, 1000);
    var log := [Started(0, 0, true), Failed(0, 0), Started(1, 1000, true), Started(2, 1000, true)];
    Prefixes(log, o);
    assert Replay(log[..1], o) == FRESH;
    assert Replay(log[..2], o) == Breaker(OPEN, 1, 0);
    assert Replay(log[..3], o) == Breaker(HALF_OPEN, 1, 0);
    assert Running(log, 0, 1);
  }

  /** The other way: no call starts in HALF_OPEN, but an old call's failure makes room for a second trial. */
  lemma OvertakenTrialHappens()
    ensures var o := Options(1, 1000);
            var log := [Started(0, 0, true), Started(1, 0, true), Failed(0, 0),
                        Started(2, 1000, true), Failed(1, 1001), Started(3, 2001, true)];
            && IsRun(log, o) && CallsMatch(log)
            && Trial(log, o, 3) && Trial(log, o, 5) && Running(log, 3, 6) && Running(log, 5, 6)
            && Overtaken(log, o, 3, 5) && Replay(log[..3], o).state == OPEN && Replay(log[..5], o).state == OPEN
  {
    var o := Options(1, 1000);
    var log := [Started(0, 0, true), Started(1, 0, true), Failed(0, 0),
                        Started(2, 1000, true), Failed(1, 1001), Started(3, 2001, true)];
    Prefixes(log, o);
    assert Replay(log[..1], o) == FRESH && Replay(log[..2], o) == FRESH;
    assert Replay(log[..3], o) == Breaker(OPEN, 1, 0);
    assert Replay(log[..4], o) == Breaker(HALF_OPEN, 1, 0);
    assert Replay(log[..5], o) == Breaker(OPEN, 2, 1001);
    assert Running(log, 0, 2) && Running(log, 1, 4);
    assert EndsPeriod(log, 3, 4);
  }

  /** Replaying a log one entry at a time. */
  lemma Prefixes(log: seq<Step>, o: Options)
    ensures Replay(log[..0], o) == FRESH
    ensures forall n: nat :: n < |log| ==>
              Replay(log[..n + 1], o) ==
                match log[n]
                case Started(_, now, _) => Start(Replay(log[..n], o), o, now).1
                case Succeeded(_) => Succeed(Replay(log[..n], o))
                case Failed(_, now) => Fail(Replay(log[..n], o), o, now)
  {
    forall n: nat | n < |log| ensures log[..n + 1][..n] == log[..n] && log[..n + 1][n] == log[n] {
    }
  }

  lemma {:induction false} TrialBehindHalfOpen(log: seq<Step>, o: Options, j: nat) returns (i: nat)
    requires IsRun(log, o) && j <= |log| && Replay(log[..j], o).state == HALF_OPEN
    ensures i < j && Replay(log[..i], o).state != CLOSED && log[i].Started? && log[i].admitted
    ensures forall k :: i < k < j ==> log[k].Started?
    decreases j
  {
    assert log[..j][..j - 1] == log[..j - 1] && log[..j][j - 1] == log[j - 1];
    if Replay(log[..j - 1], o).state == HALF_OPEN {
      i := TrialBehindHalfOpen(log, o, j - 1);
    } else {
      i := j - 1;
    }
  }

  lemma {:induction false} HalfOpenPersists(log: seq<Step>, o: Options, i: nat, j: nat)
    requires IsRun(log, o) && i < j <= |log| && Replay(log[..i], o).state != CLOSED
    requires log[i].Started? && log[i].admitted && forall k :: i < k < j ==> log[k].Started?
    ensures Replay(log[..j], o).state == HALF_OPEN
    decreases j
  {
    assert log[..j][..j - 1] == log[..j - 1] && log[..j][j - 1] == log[j - 1];
    if i < j - 1 {
      HalfOpenPersists(log, o, i, j - 1);
    }
  }

  // ---- calls one after another -------------------------------------------------------------------

  /** A call that starts, runs a retried task if let through, and ends. */
  datatype Call<!T> = Call(start: int, task: Task<T>, end: int)

  function RetriedAttempt<T>(task: Task<T>, retries: int): Attempt<T> {
    match RetryResult(task, retries).1
    case Ok(v) => Success(v)
    case Err(e) => Failure(Integration(e))
  }

  function After<T>(calls: seq<Call<T>>, o: Options, retries: int): Breaker {
    if calls == [] then FRESH
    else
      var c := calls[|calls| - 1];
      Exec(After(calls[..|calls| - 1], o, retries), o, c.start, RetriedAttempt(c.task, retries), c.end).1
  }

  /** The i-th call got through to its task. */
  predicate Ran<T>(calls: seq<Call<T>>, o: Options, retries: int, i: nat)
    requires i < |calls|
  {
    Start(After(calls[..i], o, retries), o, calls[i].start).0
  }

  /** Failures among the calls that ran, since the last success. */
  function FailuresInARow<T>(calls: seq<Call<T>>, o: Options, retries: int): nat {
    if calls == [] then 0
    else
      var n := |calls| - 1;
      var before := FailuresInARow(calls[..n], o, retries);
      if !Ran(calls, o, retries, n) then before
      else if RetriedAttempt(calls[n].task, retries).Success? then 0
      else before + 1
  }

  /** When the last call that ran and failed ended. */
  function LastFailureEnd<T>(calls: seq<Call<T>>, o: Options, retries: int): int {
    if calls == [] then 0
    else
      var n := |calls| - 1;
      if Ran(calls, o, retries, n) && RetriedAttempt(calls[n].task, retries).Failure? then calls[n].end
      else LastFailureEnd(calls[..n], o, retries)
  }

  lemma {:induction false} SerialBreaker<T>(calls: seq<Call<T>>, o: Options, retries: int)
    ensures var b, f := After(calls, o, retries), FailuresInARow(calls, o, retries);
            && b.failures == f && b.state != HALF_OPEN
            && (b.state == CLOSED <==> f == 0 || f < o.failureThreshold)
            && (b.state == OPEN ==> b.openedAt == LastFailureEnd(calls, o, retries))
  {
    if calls != [] {
      SerialBreaker(calls[..|calls| - 1], o, retries);
    }
  }

  /**
   * Without overlap, a call runs iff the run of failures is below the threshold
   * or the reset time has passed since the last failure; a rejected call
   * changes nothing and reports CIRCUIT_OPEN.
   */
  lemma SerialAdmissionRule<T>(calls: seq<Call<T>>, o: Options, retries: int, start: int, a: Attempt<T>, end: int)
    requires o.failureThreshold >= 1
    ensures var b := After(calls, o, retries);
            var runs := FailuresInARow(calls, o, retries) < o.failureThreshold
                        || start - LastFailureEnd(calls, o, retries) >= o.resetTimeoutMs;
            && (Start(b, o, start).0 <==> runs)
            && (runs ==> Exec(b, o, start, a, end).0 == Outcome(a))
            && (!runs ==> Exec(b, o, start, a, end) == (Err(Default(CIRCUIT_OPEN)), b))
  {
    SerialBreaker(calls, o, retries);
  }

  // ---- how often a failing target is called ---------------------------------------------------------

  ghost predicate AlwaysFails<T>(task: Task<T>) {
    forall k: nat :: task(k).Failure?
  }

  ghost predicate InOrder<T>(calls: seq<Call<T>>) {
    && (forall k :: 0 <= k < |calls| ==> calls[k].start <= calls[k].end && AlwaysFails(calls[k].task))
    && (forall k :: 0 < k < |calls| ==> calls[k - 1].end <= calls[k].start)
  }

  /** Calls of the target: each call that ran made its retries. */
  function TargetCalls<T>(calls: seq<Call<T>>, o: Options, retries: int): nat {
    if calls == [] then 0
    else
      var n := |calls| - 1;
      TargetCalls(calls[..n], o, retries)
      + (if Ran(calls, o, retries, n) then RetryResult(calls[n].task, retries).0 else 0)
  }

  /** When the breaker first opened; meaningful once it has. */
  function FirstOpened<T>(calls: seq<Call<T>>, o: Options, retries: int): int {
    if calls == [] then 0
    else
      var n := |calls| - 1;
      if FailuresInARow(calls[..n], o, retries) >= o.failureThreshold then FirstOpened(calls[..n], o, retries)
      else calls[n].end
  }

  lemma RetryOfFailing<T>(task: Task<T>, retries: int)
    requires AlwaysFails(task) && retries >= 0
    ensures RetriedAttempt(task, retries).Failure? && 1 <= RetryResult(task, retries).0 <= retries + 1
  {
    RetryStops(task, retries, 0);
  }

  lemma {:induction false} TargetCallsPerRun<T>(calls: seq<Call<T>>, o: Options, retries: nat)
    requires InOrder(calls)
    ensures TargetCalls(calls, o, retries) <= (retries + 1) * FailuresInARow(calls, o, retries)
  {
    hide TargetCalls, FailuresInARow;
    if calls == [] {
      NoFailures<T>(o, retries);
    } else {
      var n := |calls| - 1;
      TargetCallsPerRun(calls[..n], o, retries);
      OneMoreFailure(calls, o, retries);
      OneMore(FailuresInARow(calls[..n], o, retries), retries + 1);
    }
  }

  lemma NoFailures<T>(o: Options, retries: nat)
    ensures TargetCalls<T>([], o, retries) == 0 && FailuresInARow<T>([], o, retries) == 0
  {
  }

  /** A call that runs fails, after at most retries + 1 calls of the target. */
  lemma OneMoreFailure<T>(calls: seq<Call<T>>, o: Options, retries: nat)
    requires InOrder(calls) && calls != []
    ensures var before := calls[..|calls| - 1];
            var more, failed := TargetCalls(calls, o, retries) - TargetCalls(before, o, retries),
                                FailuresInARow(calls, o, retries) - FailuresInARow(before, o, retries);
            (more == failed == 0) || (failed == 1 && more <= retries + 1)
  {
    RetryOfFailing(calls[|calls| - 1].task, retries);
    hide RetryResult, RetriedAttempt, Ran;
  }

  lemma {:induction false} LastFailureIsPast<T>(calls: seq<Call<T>>, o: Options, retries: nat)
    requires InOrder(calls) && FailuresInARow(calls, o, retries) > 0
    ensures calls != [] && LastFailureEnd(calls, o, retries) <= calls[|calls| - 1].end
  {
    hide RetryResult, Ran;
    var n := |calls| - 1;
    RetryOfFailing(calls[n].task, retries);
    if !Ran(calls, o, retries, n) {
      LastFailureIsPast(calls[..n], o, retries);
    }
  }

  lemma OneMore(a: int, b: int)
    ensures (a + 1) * b == a * b + b
  {
  }

  /** What the last call of a failing target adds: nothing, the opening, or one more trial. */
  lemma LastTrial<T>(calls: seq<Call<T>>, o: Options, retries: nat)
    requires o.failureThreshold >= 1 && InOrder(calls)
    requires FailuresInARow(calls, o, retries) >= o.failureThreshold
    ensures calls != []
    ensures var n := |calls| - 1;
            var f, last, first :=
              FailuresInARow(calls, o, retries), LastFailureEnd(calls, o, retries), FirstOpened(calls, o, retries);
            var g, lastBefore, firstBefore :=
              FailuresInARow(calls[..n], o, retries), LastFailureEnd(calls[..n], o, retries), FirstOpened(calls[..n], o, retries);
            || (f == g && last == lastBefore && first == firstBefore)
            || (f == g + 1 == o.failureThreshold && last == first)
            || (f == g + 1 && g >= o.failureThreshold && first == firstBefore && last - lastBefore >= o.resetTimeoutMs)
  {
    var n := |calls| - 1;
    var before, c := calls[..n], calls[n];
    RetryOfFailing(c.task, retries);
    SerialAdmissionRule(before, o, retries, c.start, RetriedAttempt(c.task, retries), c.end);
    hide RetryResult, RetriedAttempt, After, Start;
  }

  lemma {:induction false} TrialsAreSpaced<T>(calls: seq<Call<T>>, o: Options, retries: nat)
    requires o.failureThreshold >= 1 && InOrder(calls)
    requires FailuresInARow(calls, o, retries) >= o.failureThreshold
    ensures (FailuresInARow(calls, o, retries) - o.failureThreshold) * o.resetTimeoutMs
            <= LastFailureEnd(calls, o, retries) - FirstOpened(calls, o, retries)
  {
    hide FailuresInARow, LastFailureEnd, FirstOpened;
    LastTrial(calls, o, retries);
    var before := calls[..|calls| - 1];
    var f := FailuresInARow(before, o, retries);
    if f >= o.failureThreshold {
      TrialsAreSpaced(before, o, retries);
      OneMore(f - o.failureThreshold, o.resetTimeoutMs);
    }
  }

  /**
   * A target that always fails, called up to time `now`, sees at most
   * (retries + 1) * (threshold + trials), with one trial per elapsed reset time.
   */
  lemma FailingTargetIsSpared<T>(calls: seq<Call<T>>, o: Options, retries: nat, now: int)
    requires o.failureThreshold >= 1 && o.resetTimeoutMs >= 1 && InOrder(calls)
    requires calls != [] ==> calls[|calls| - 1].end <= now
    ensures FailuresInARow(calls, o, retries) < o.failureThreshold ==>
              TargetCalls(calls, o, retries) <= (retries + 1) * (o.failureThreshold - 1)
    ensures FailuresInARow(calls, o, retries) >= o.failureThreshold ==>
              && FirstOpened(calls, o, retries) <= now
              && TargetCalls(calls, o, retries)
                 <= (retries + 1) * (o.failureThreshold + (now - FirstOpened(calls, o, retries)) / o.resetTimeoutMs)
  {
    hide RetryResult, Ran, FirstOpened, FailuresInARow, TargetCalls, LastFailureEnd;
    TargetCallsPerRun(calls, o, retries);
    var f := FailuresInARow(calls, o, retries);
    if f >= o.failureThreshold {
      TrialsAreSpaced(calls, o, retries);
      LastFailureIsPast(calls, o, retries);
      var trials, elapsed := f - o.failureThreshold, now - FirstOpened(calls, o, retries);
      QuotientAtLeast(elapsed, o.resetTimeoutMs, trials);
      ProductMonotone(retries + 1, f, o.failureThreshold + elapsed / o.resetTimeoutMs);
    } else {
      ProductMonotone(retries + 1, f, o.failureThreshold - 1);
    }
  }

  lemma QuotientAtLeast(x: int, d: int, q: nat)
    requires d >= 1 && q * d <= x
    ensures 0 <= x && q <= x / d
  {
    ProductMonotone(d, 0, q);
    var m := if x / d < q then q - x / d - 1 else 0;
    ProductMonotone(d, 0, m);
    assert d * (q - x / d - 1) == q * d - x / d * d - d;
  }

  lemma ProductMonotone(c: nat, a: nat, b: nat)
    requires a <= b
    ensures c * a <= c * b
  {
  }
}
