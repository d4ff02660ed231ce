/**
 The backoff between pushes to Konnect. Instants are nanoseconds since Go's zero time, so that every
 reading of the clock is a natural number; durations are nanoseconds.
 */
module KonnectBackoff {
  import opened Common

  const SECOND := 1_000_000_000
  const INITIAL_INTERVAL := 3 * SECOND
  const MAX_INTERVAL := 15 * 60 * SECOND
  const MULTIPLIER := 2

  /** A Go byte slice; None is nil. */
  type Bytes = Option<seq<bv8>>

  /** bytes.Equal: nil equals the empty slice. */
  predicate BytesEqual(a: Bytes, b: Bytes) {
    a.GetOr([]) == b.GetOr([])
  }

  /** An API error; retryAfter is present when the error carries ErrTooManyRequestsDetails. */
  datatype APIError = APIError(code: int, retryAfter: Option<int>)

  datatype Event =
    | Success
    | Failure(errs: seq<APIError>, hash: Bytes, now: nat)

  datatype Reason = SameFaultyConfig | NextAttemptIn(timeLeft: int)

  // ---------------------------------------------------------------- what a failure is

  datatype FailureKind = RetryAfter(delay: int) | Throttled | ClientError | Generic

  predicate IsThrottle(e: APIError) {
    e.code == 429
  }

  predicate IsClientError(e: APIError) {
    400 <= e.code < 500
  }

  /** lo.Find over the errors. */
  function FirstThrottle(errs: seq<APIError>): (r: Option<APIError>)
    ensures r.None? <==> forall e :: e in errs ==> !IsThrottle(e)
    ensures r.Some? ==> exists i :: IsFirstThrottle(errs, i) && errs[i] == r.value
  {
    if errs == [] then None
    else if IsThrottle(errs[0]) then
      assert IsFirstThrottle(errs, 0);
      Some(errs[0])
    else
      var r := FirstThrottle(errs[1..]);
      assert r.Some? ==> exists i :: IsFirstThrottle(errs, i) && errs[i] == r.value by {
        if r.Some? {
          var i :| IsFirstThrottle(errs[1..], i) && errs[1..][i] == r.value;
          assert IsFirstThrottle(errs, i + 1);
        }
      }
      r
  }

  predicate IsFirstThrottle(errs: seq<APIError>, i: int) {
    0 <= i < |errs| && IsThrottle(errs[i]) && forall j :: 0 <= j < i ==> !IsThrottle(errs[j])
  }

  function Kind(errs: seq<APIError>): (k: FailureKind)
    ensures k.Generic? <==> forall e :: e in errs ==> !IsClientError(e)
    ensures k.ClientError? <==> (exists e :: e in errs && IsClientError(e)) && forall e :: e in errs ==> !IsThrottle(e)
    ensures k.RetryAfter? ==>
              k.delay != 0 && exists i :: IsFirstThrottle(errs, i) && errs[i].retryAfter == Some(k.delay)
    ensures k.Throttled? ==> exists i :: IsFirstThrottle(errs, i) && errs[i].retryAfter.GetOr(0) == 0
  {
    match FirstThrottle(errs)
    case Some(e) => if e.retryAfter.GetOr(0) != 0 then RetryAfter(e.retryAfter.value) else Throttled
    case None => if exists e :: e in errs && IsClientError(e) then ClientError else Generic
  }

  lemma FirstThrottleUnique(errs: seq<APIError>, i: int, k: int)
    requires IsFirstThrottle(errs, i) && IsFirstThrottle(errs, k)
    ensures i == k
  {
  }

  /** By status codes: any 429 makes the failure a throttle, and the first one says how long to wait;
      else any code from 400 to 499 makes it a client error. */
  lemma KindByCodes(errs: seq<APIError>)
    ensures (exists i :: 0 <= i < |errs| && errs[i].code == 429) <==> Kind(errs).RetryAfter? || Kind(errs).Throttled?
    ensures Kind(errs).Generic? <==> forall i :: 0 <= i < |errs| ==> errs[i].code < 400 || errs[i].code > 499
    ensures forall i :: 0 <= i < |errs| && errs[i].code == 429 && (forall j :: 0 <= j < i ==> errs[j].code != 429) ==>
              Kind(errs) == if errs[i].retryAfter in {None, Some(0)} then Throttled
                else RetryAfter(errs[i].retryAfter.value)
  {
    if i :| 0 <= i < |errs| && errs[i].code == 429 {
      assert errs[i] in errs && IsThrottle(errs[i]);
    }
    if i :| 0 <= i < |errs| && 400 <= errs[i].code <= 499 {
      assert errs[i] in errs && IsClientError(errs[i]);
    }
    forall i | 0 <= i < |errs| && errs[i].code == 429 && (forall j :: 0 <= j < i ==> errs[j].code != 429)
      ensures Kind(errs) == if errs[i].retryAfter in {None, Some(0)} then Throttled
                else RetryAfter(errs[i].retryAfter.value)
    {
      assert forall j :: 0 <= j < i ==> !IsThrottle(errs[j]);
      assert IsFirstThrottle(errs, i);
      var k :| IsFirstThrottle(errs, k) && FirstThrottle(errs) == Some(errs[k]);
      FirstThrottleUnique(errs, i, k);
    }
  }

  // ---------------------------------------------------------------- the strategy

  function Doubled(interval: nat, times: nat): nat {
    if times == 0 then interval else MULTIPLIER * Doubled(interval, times - 1)
  }

  /** The library's wait before the given attempt, counted from 0. */
  function Wait(attempt: nat): nat {
    var d := Doubled(INITIAL_INTERVAL, attempt);
    if d > MAX_INTERVAL then MAX_INTERVAL else d
  }

  datatype State = State(attempt: nat, nextAttempt: int, lastFailedConfigHash: Bytes)

  const FRESH := State(0, 0, None)

  function Increment(s: State, now: nat): State {
    s.(attempt := s.attempt + 1, nextAttempt := now + Wait(s.attempt))
  }

  function Step(s: State, e: Event): State {
    match e
    case Success => FRESH
    case Failure(errs, hash, now) =>
      match Kind(errs)
      case RetryAfter(delay) => s.(nextAttempt := now + delay, lastFailedConfigHash := None)
      case Throttled => Increment(s, now).(lastFailedConfigHash := None)
      case ClientError => Increment(s, now).(lastFailedConfigHash := hash)
      case Generic => Increment(s, now)
  }

  function Replay(history: seq<Event>): State {
    if history == [] then FRESH else Step(Replay(history[..|history| - 1]), history[|history| - 1])
  }

  class KonnectBackoffStrategy {
    var attempt: nat
    var nextAttempt: int
    var lastFailedConfigHash: Bytes

    ghost function View(): State
      reads this
    {
      State(attempt, nextAttempt, lastFailedConfigHash)
    }

    constructor ()
      ensures View() == Replay([])
    {
      attempt, nextAttempt, lastFailedConfigHash := 0, 0, None;
    }

    /** The answer and the reasons that whyCannotUpdate words. */
    method CanUpdate(configHash: Bytes, now: nat) returns (ok: bool, reasons: seq<Reason>)
      ensures ok <==> Allows(View(), configHash, now)
      ensures ok <==> reasons == []
      ensures SameFaultyConfig in reasons <==> Blocks(View(), configHash)
      ensures forall d :: NextAttemptIn(d) in reasons <==> d == nextAttempt - now && d > 0
    {
      var timeLeft := nextAttempt - now;
      var isTheSameFaultyConfig := lastFailedConfigHash.Some? && BytesEqual(lastFailedConfigHash, configHash);
      if timeLeft <= 0 && !isTheSameFaultyConfig {
        return true, [];
      }
      ok, reasons := false, [];
      if isTheSameFaultyConfig {
        reasons := reasons + [SameFaultyConfig];
      }
      if timeLeft > 0 {
        reasons := reasons + [NextAttemptIn(timeLeft)];
      }
    }

    method RegisterUpdateFailure(errs: seq<APIError>, configHash: Bytes, now: nat)
      modifies this
      ensures View() == Step(old(View()), Failure(errs, configHash, now))
    {
      var tooManyRequests := FirstThrottle(errs);
      if tooManyRequests.Some? {
        HandleTooManyRequests(tooManyRequests.value, now);
        return;
      }
      if exists e :: e in errs && IsClientError(e) {
        HandleGenericClientError(configHash, now);
        return;
      }
      IncrementExponentialBackoff(now);
    }

    method RegisterUpdateSuccess()
      modifies this
      ensures View() == Step(old(View()), Success)
    {
      attempt, nextAttempt, lastFailedConfigHash := 0, 0, None;
    }

    method HandleTooManyRequests(err: APIError, now: nat)
      modifies this
      ensures View() == (if err.retryAfter.GetOr(0) != 0 then old(View()).(nextAttempt := now + err.retryAfter.value)
                         else Increment(old(View()), now)).(lastFailedConfigHash := None)
    {
      if err.retryAfter.Some? && err.retryAfter.value != 0 {
        nextAttempt := now + err.retryAfter.value;
      } else {
        IncrementExponentialBackoff(now);
      }
      lastFailedConfigHash := None;
    }

    method HandleGenericClientError(configHash: Bytes, now: nat)
      modifies this
      ensures View() == Increment(old(View()), now).(lastFailedConfigHash := configHash)
    {
      IncrementExponentialBackoff(now);
      lastFailedConfigHash := configHash;
    }

    method IncrementExponentialBackoff(now: nat)
      modifies this
      ensures View() == Increment(old(View()), now)
    {
      var timeLeft := Wait(attempt);
      attempt := attempt + 1;
      nextAttempt := now + timeLeft;
    }
  }

  predicate Blocks(s: State, hash: Bytes) {
    s.lastFailedConfigHash.Some? && BytesEqual(s.lastFailedConfigHash, hash)
  }

  predicate Allows(s: State, hash: Bytes, now: nat) {
    s.nextAttempt <= now && !Blocks(s, hash)
  }

  // ---------------------------------------------------------------- the wait

  /** Waits never shrink, start at 3 seconds and reach 15 minutes with the tenth failure. */
  lemma {:induction false} WaitBounds(attempt: nat)
    ensures INITIAL_INTERVAL <= Wait(attempt) <= Wait(attempt + 1) <= MAX_INTERVAL
    ensures Wait(attempt) == MAX_INTERVAL <==> attempt >= 9
  {
    hide Doubled;
    DoublingTable();
    if attempt > 9 {
      WaitBounds(attempt - 1);
      DoubledStep(attempt - 1);
    }
    DoubledStep(attempt);
  }

  lemma DoubledStep(times: nat)
    ensures Doubled(INITIAL_INTERVAL, times + 1) == MULTIPLIER * Doubled(INITIAL_INTERVAL, times)
  {
  }

  lemma DoubledFrom(times: nat)
    ensures Doubled(INITIAL_INTERVAL, 0) == INITIAL_INTERVAL
    ensures Doubled(INITIAL_INTERVAL, times + 1) == 2 * Doubled(INITIAL_INTERVAL, times)
    ensures Doubled(INITIAL_INTERVAL, times + 2) == 4 * Doubled(INITIAL_INTERVAL, times)
    ensures Doubled(INITIAL_INTERVAL, times + 3) == 8 * Doubled(INITIAL_INTERVAL, times)
  {
    DoubledStep(times);
    DoubledStep(times + 1);
    DoubledStep(times + 2);
  }

  lemma DoublingTable()
    ensures Doubled(INITIAL_INTERVAL, 0) == 3 * SECOND && Doubled(INITIAL_INTERVAL, 1) == 6 * SECOND
    ensures Doubled(INITIAL_INTERVAL, 2) == 12 * SECOND && Doubled(INITIAL_INTERVAL, 3) == 24 * SECOND
    ensures Doubled(INITIAL_INTERVAL, 4) == 48 * SECOND && Doubled(INITIAL_INTERVAL, 5) == 96 * SECOND
    ensures Doubled(INITIAL_INTERVAL, 6) == 192 * SECOND && Doubled(INITIAL_INTERVAL, 7) == 384 * SECOND
    ensures Doubled(INITIAL_INTERVAL, 8) == 768 * SECOND && Doubled(INITIAL_INTERVAL, 9) == 1536 * SECOND
  {
    DoubledFrom(0);
    DoubledFrom(3);
    DoubledFrom(6);
  }

  // ---------------------------------------------------------------- the state as a function of history

  /** The place just after the latest success. */
  function SinceSuccess(history: seq<Event>): (start: nat)
    ensures start <= |history| && (start == 0 || history[start - 1].Success?)
    ensures forall i :: start <= i < |history| ==> history[i].Failure?
  {
    if history == [] || history[|history| - 1].Success? then |history| else SinceSuccess(history[..|history| - 1])
  }

  /** Failures without a Retry-After of their own. */
  predicate Exponential(e: Event) {
    e.Failure? && !Kind(e.errs).RetryAfter?
  }

  /** A 429, with or without Retry-After. */
  predicate Throttle(e: Event) {
    e.Failure? && (Kind(e.errs).RetryAfter? || Kind(e.errs).Throttled?)
  }

  predicate Rejected(e: Event) {
    e.Failure? && Kind(e.errs).ClientError?
  }

  ghost function ExponentialSince(history: seq<Event>, start: nat): set<nat> {
    set i: nat | start <= i < |history| && Exponential(history[i])
  }

  /** The latest client error since the latest success and 429. */
  ghost predicate LatestRejection(history: seq<Event>, i: int) {
    && SinceSuccess(history) <= i < |history| && Rejected(history[i])
    && forall j :: i < j < |history| ==> !Throttle(history[j]) && !Rejected(history[j])
  }

  /** When the next attempt may come, from the last failure alone and the number k of exponential
      failures since the latest success. */
  function NextAttempt(history: seq<Event>, k: nat): int {
    if history == [] || history[|history| - 1].Success? then 0
    else
      var last := history[|history| - 1];
      last.now + match Kind(last.errs)
      case RetryAfter(delay) => delay
      case _ => Wait(if k == 0 then 0 else k - 1)
  }

  ghost predicate HashOf(history: seq<Event>, hash: Bytes) {
    && (hash.Some? ==> exists i :: LatestRejection(history, i) && history[i].hash == hash)
    && (hash.None? ==> forall i :: LatestRejection(history, i) ==> history[i].hash.None?)
  }

  /** The three fields, read off any history. */
  lemma {:induction false} StateIsHistory(history: seq<Event>)
    ensures Replay(history).attempt == |ExponentialSince(history, SinceSuccess(history))|
    ensures Replay(history).nextAttempt == NextAttempt(history, Replay(history).attempt)
    ensures HashOf(history, Replay(history).lastFailedConfigHash)
    decreases |history|
  {
    if history != [] {
      hide HashOf, ExponentialSince, NextAttempt, SinceSuccess, Step;
      var past, e := history[..|history| - 1], history[|history| - 1];
      StateIsHistory(past);
      assert history == past + [e];
      StepIsHistory(past, e, Replay(past));
    } else {
      assert ExponentialSince(history, 0) == {};
    }
  }

  lemma StepIsHistory(past: seq<Event>, e: Event, s: State)
    requires s.attempt == |ExponentialSince(past, SinceSuccess(past))| && HashOf(past, s.lastFailedConfigHash)
    ensures Step(s, e).attempt == |ExponentialSince(past + [e], SinceSuccess(past + [e]))|
    ensures Step(s, e).nextAttempt == NextAttempt(past + [e], Step(s, e).attempt)
    ensures HashOf(past + [e], Step(s, e).lastFailedConfigHash)
  {
    hide HashOf, ExponentialSince, Wait, SinceSuccess;
    CountSnoc(past, e);
    HashSnoc(past, e, s.lastFailedConfigHash);
  }

  lemma CountSnoc(past: seq<Event>, e: Event)
    ensures |ExponentialSince(past + [e], SinceSuccess(past + [e]))| ==
            (if e.Success? then 0 else |ExponentialSince(past, SinceSuccess(past))| + if Exponential(e) then 1 else 0)
  {
    var history := past + [e];
    assert history[..|past|] == past;
    if e.Success? {
      assert ExponentialSince(history, SinceSuccess(history)) == {};
    } else {
      var start := SinceSuccess(past);
      assert ExponentialSince(history, start) == ExponentialSince(past, start) + if Exponential(e) then {|past|}
               else {};
    }
  }

  lemma HashSnoc(past: seq<Event>, e: Event, hash: Bytes)
    requires HashOf(past, hash)
    ensures HashOf(past + [e], if e.Success? || Throttle(e) then None else if Rejected(e) then e.hash else hash)
  {
    var history := past + [e];
    assert history[..|past|] == past;
    if Rejected(e) {
      assert LatestRejection(history, |past|);
    } else if e.Failure? && !Throttle(e) {
      assert forall i: int :: i < |past| ==> (LatestRejection(history, i) <==> LatestRejection(past, i));
    }
  }

  /** A hash is held back exactly while it is that of the latest client error since the latest
      success and 429 (a nil hash holds nothing back). */
  lemma BlockedExactly(history: seq<Event>, hash: Bytes)
    ensures Blocks(Replay(history), hash) <==>
              exists i :: LatestRejection(history, i) && history[i].hash.Some?
                && history[i].hash.value == hash.GetOr([])
  {
    StateIsHistory(history);
    LatestUnique(history);
  }

  lemma LatestUnique(history: seq<Event>)
    ensures forall i, j :: LatestRejection(history, i) && LatestRejection(history, j) ==> i == j
  {
  }

  function Pow2(n: nat): nat {
    if n == 0 then 1 else 2 * Pow2(n - 1)
  }

  lemma {:induction false} DoubledIsPow2(interval: nat, times: nat)
    ensures Doubled(interval, times) == interval * Pow2(times)
  {
    if times != 0 {
      DoubledIsPow2(interval, times - 1);
    }
  }

  /** The k-th exponential failure since the latest success waits min(3s * 2^(k-1), 15min). */
  lemma KthFailureWaits(history: seq<Event>, e: Event, k: nat)
    requires Exponential(e) && k == |ExponentialSince(history, SinceSuccess(history))| + 1
    ensures var d := 3_000_000_000 * Pow2(k - 1);
            Replay(history + [e]).nextAttempt == e.now + if d <= 900_000_000_000 then d else 900_000_000_000
  {
    StateIsHistory(history);
    DoubledIsPow2(INITIAL_INTERVAL, k - 1);
    assert (history + [e])[..|history|] == history;
  }

  /** A failure with Retry-After waits just that, and leaves later exponential waits as they were. */
  lemma RetryAfterDoesNotAdvance(history: seq<Event>, e: Event)
    requires e.Failure? && Kind(e.errs).RetryAfter?
    ensures Replay(history + [e]).nextAttempt == e.now + Kind(e.errs).delay
    ensures |ExponentialSince(history + [e], SinceSuccess(history + [e]))|
              == |ExponentialSince(history, SinceSuccess(history))|
    ensures !exists hash :: Blocks(Replay(history + [e]), hash)
  {
    CountSnoc(history, e);
    assert (history + [e])[..|history|] == history;
  }

  /** After a success, or before any failure, every push is allowed at once. */
  lemma NothingHeldBackAfterSuccess(history: seq<Event>, hash: Bytes, now: nat)
    requires SinceSuccess(history) == |history|
    ensures Allows(Replay(history), hash, now)
  {
    StateIsHistory(history);
  }
}
