/** Creating a client while another one may hold the local resources: the attempts, the waits between
    them and the time limit.  Times are in nanoseconds.

    The world outside is given by two functions of the number of the attempt: what the attempt comes
    to, and what the clock says after it. */
module Retry {
  import opened Wrappers

  const MILLISECOND: nat := 1_000_000
  const PAUSE: nat := 50 * MILLISECOND
  const MAX_TIMEOUT: nat := 5_000 * MILLISECOND

  /** The limits where none is configured, for the blocking and for the asynchronous form. */
  const BLOCKING_DEFAULT: nat := 0
  const ASYNC_DEFAULT: nat := 500 * MILLISECOND

  datatype Outcome = Created(client: nat) | InUse(resource: nat) | Failed(reason: nat)

  datatype Failure = TimeoutTooLarge

  function Timeout(configured: Option<nat>, default: nat): Result<nat, Failure> {
    var timeout := match configured case Some(t) => t case None => default;
    if timeout > MAX_TIMEOUT then Err(TimeoutTooLarge) else Ok(timeout)
  }

  /** The limit is the one that is configured, or else the default, unless it is above five seconds:
      then it is refused, and not cut down. */
  lemma TimeoutIs(configured: Option<nat>, default: nat)
    ensures configured.Some? && configured.value <= 5_000_000_000 ==> Timeout(configured, default) == Ok(configured.value)
    ensures configured.Some? && configured.value > 5_000_000_000 ==> Timeout(configured, default) == Err(TimeoutTooLarge)
    ensures configured.None? && default <= 5_000_000_000 ==> Timeout(configured, default) == Ok(default)
  {
  }

  /** What follows an attempt: its outcome is final, or there is a pause and another attempt. */
  datatype Verdict = Final(outcome: Outcome) | Pause(delay: nat)

  function Judge(outcome: Outcome, now: nat, giveUpAt: nat): Verdict {
    if !outcome.InUse? || now >= giveUpAt then Final(outcome)
    else Pause(if giveUpAt - now < PAUSE then giveUpAt - now else PAUSE)
  }

  datatype World = World(outcome: nat -> Outcome, clock: nat -> nat)

  function JudgeAt(w: World, k: nat, giveUpAt: nat): Verdict {
    Judge(w.outcome(k), w.clock(k), giveUpAt)
  }

  /** The clock never goes back before the start, and a pause takes as long as was asked for. */
  ghost predicate ClockKeeps(w: World, start: nat, giveUpAt: nat) {
    && w.clock(0) >= start
    && forall k: nat :: JudgeAt(w, k, giveUpAt).Pause? ==> w.clock(k + 1) >= w.clock(k) + JudgeAt(w, k, giveUpAt).delay
  }

  function Ceiling(n: nat, d: nat): (q: nat)
    requires d > 0
    ensures q * d >= n && (q > 0 ==> (q - 1) * d < n)
  {
    var q := (n + d - 1) / d;
    assert n + d - 1 == q * d + (n + d - 1) % d;
    q
  }

  /** Attempt number `n` is the last one. */
  ghost predicate LastAttempt(w: World, giveUpAt: nat, n: nat) {
    JudgeAt(w, n, giveUpAt).Final? && forall k | 0 <= k < n :: JudgeAt(w, k, giveUpAt).Pause?
  }

  /** As long as attempts go on, every pause but the last is a full one. */
  lemma {:induction false} FullPauses(w: World, start: nat, giveUpAt: nat, n: nat)
    requires ClockKeeps(w, start, giveUpAt) && forall k | 0 <= k <= n :: JudgeAt(w, k, giveUpAt).Pause?
    ensures start + n * PAUSE <= w.clock(n) < giveUpAt
  {
    if n > 0 {
      FullPauses(w, start, giveUpAt, n - 1);
      assert JudgeAt(w, n - 1, giveUpAt).Pause? && JudgeAt(w, n, giveUpAt).Pause?;
    }
  }

  /** There is a limit to the attempts: one, and one for each pause begun before the time is up. */
  lemma AttemptsAreBounded(w: World, start: nat, timeout: nat, n: nat)
    requires ClockKeeps(w, start, start + timeout) && LastAttempt(w, start + timeout, n)
    ensures n <= Ceiling(timeout, PAUSE)
  {
    if n > 0 {
      FullPauses(w, start, start + timeout, n - 1);
      var q := Ceiling(timeout, PAUSE);
      assert (n - 1) * PAUSE < timeout <= q * PAUSE;
    }
  }

  /** The delays asked for before attempt number `n`. */
  ghost predicate AreDelays(w: World, giveUpAt: nat, n: nat, delays: seq<nat>) {
    |delays| == n && forall k | 0 <= k < n :: JudgeAt(w, k, giveUpAt) == Pause(delays[k])
  }

  lemma PausesLeft(w: World, start: nat, timeout: nat, giveUpAt: nat, n: nat, delays: seq<nat>)
    requires giveUpAt == start + timeout && ClockKeeps(w, start, giveUpAt) && AreDelays(w, giveUpAt, n + 1, delays)
    ensures n < Ceiling(timeout, PAUSE)
  {
    FullPauses(w, start, giveUpAt, n);
    assert n * PAUSE < timeout <= Ceiling(timeout, PAUSE) * PAUSE;
  }

  /** The loop.  `delays` are the pauses that were asked for. */
  method Attempt(start: nat, timeout: nat, giveUpAt: nat, w: World) returns (r: Outcome, last: nat, delays: seq<nat>)
    requires giveUpAt == start + timeout && ClockKeeps(w, start, giveUpAt)
    ensures LastAttempt(w, giveUpAt, last) && r == w.outcome(last)
    ensures AreDelays(w, giveUpAt, last, delays)
  {
    delays, last := [], 0;
    while true
      invariant AreDelays(w, giveUpAt, last, delays)
      decreases Ceiling(timeout, PAUSE) - last
    {
      match JudgeAt(w, last, giveUpAt) {
        case Final(outcome) =>
          r := outcome;
          return;
        case Pause(delay) =>
          delays := delays + [delay];
          PausesLeft(w, start, timeout, giveUpAt, last, delays);
          last := last + 1;
      }
    }
  }

  method Create(configured: Option<nat>, default: nat, start: nat, w: World)
    returns (r: Result<Outcome, Failure>, attempts: nat, delays: seq<nat>)
    requires Timeout(configured, default).Ok? ==> ClockKeeps(w, start, start + Timeout(configured, default).value)
    ensures r.Err? <==> Timeout(configured, default).Err?
    ensures r.Err? ==> attempts == 0 && delays == []
    ensures r.Ok? ==>
      var giveUpAt := start + Timeout(configured, default).value;
      && attempts > 0 && LastAttempt(w, giveUpAt, attempts - 1) && r.value == w.outcome(attempts - 1)
      && AreDelays(w, giveUpAt, attempts - 1, delays)
  {
    match Timeout(configured, default) {
      case Err(e) =>
        r, attempts, delays := Err(e), 0, [];
      case Ok(timeout) =>
        var outcome, last, ds := Attempt(start, timeout, start + timeout, w);
        r, attempts, delays := Ok(outcome), last + 1, ds;
    }
  }

  /** What the source promises of a run: no pause is empty or passes the time limit, the error of a
      resource in use is given only once the time is up, any other outcome ends the run as soon as it
      is there, and there is a limit to the attempts. */
  lemma RunIsFair(w: World, start: nat, timeout: nat, giveUpAt: nat, n: nat, delays: seq<nat>)
    requires giveUpAt == start + timeout && ClockKeeps(w, start, giveUpAt)
    requires LastAttempt(w, giveUpAt, n) && AreDelays(w, giveUpAt, n, delays)
    ensures forall k | 0 <= k < n :: 0 < delays[k] <= 50_000_000 && w.clock(k) + delays[k] <= giveUpAt
    ensures forall k | 0 <= k < n :: delays[k] == 50_000_000 || w.clock(k) + delays[k] == giveUpAt
    ensures forall k | 0 <= k < n :: w.outcome(k).InUse? && w.clock(k) < giveUpAt
    ensures w.outcome(n).InUse? ==> w.clock(n) >= giveUpAt
    ensures n <= Ceiling(timeout, PAUSE)
  {
    AttemptsAreBounded(w, start, timeout, n);
    forall k | 0 <= k < n
      ensures 0 < delays[k] <= 50_000_000 && w.clock(k) + delays[k] <= giveUpAt
      ensures delays[k] == 50_000_000 || w.clock(k) + delays[k] == giveUpAt
      ensures w.outcome(k).InUse? && w.clock(k) < giveUpAt
    {
      assert JudgeAt(w, k, giveUpAt) == Pause(delays[k]);
    }
  }

  /** At most 101 attempts, whatever limit is configured; at most 11 with the default of the
      asynchronous form, and just one with that of the blocking form. */
  lemma AttemptsInNumbers(configured: Option<nat>, default: nat, w: World, start: nat, n: nat)
    requires Timeout(configured, default).Ok?
    requires ClockKeeps(w, start, start + Timeout(configured, default).value)
    requires LastAttempt(w, start + Timeout(configured, default).value, n)
    ensures n + 1 <= 101
    ensures configured.None? && default == ASYNC_DEFAULT ==> default == 500_000_000 && n + 1 <= 11
    ensures configured.None? && default == BLOCKING_DEFAULT ==> n + 1 == 1
  {
    var timeout := Timeout(configured, default).value;
    AttemptsAreBounded(w, start, timeout, n);
    assert (Ceiling(timeout, PAUSE) - 1) * PAUSE < timeout || Ceiling(timeout, PAUSE) == 0;
  }

  /** The limit is reached: with a resource that stays in use and a clock that keeps exact time, there
      are that many attempts. */
  lemma LimitIsReached(start: nat, timeout: nat) returns (w: World)
    ensures ClockKeeps(w, start, start + timeout) && LastAttempt(w, start + timeout, Ceiling(timeout, PAUSE))
  {
    var giveUpAt := start + timeout;
    var clock: nat -> nat := k => start + (if k * PAUSE < timeout then k * PAUSE else timeout);
    w := World(_ => InUse(0), clock);
    var q := Ceiling(timeout, PAUSE);
    forall k: nat
      ensures JudgeAt(w, k, giveUpAt).Pause? <==> k < q
      ensures JudgeAt(w, k, giveUpAt).Pause? ==> w.clock(k + 1) >= w.clock(k) + JudgeAt(w, k, giveUpAt).delay
    {
      if k < q {
        assert k * PAUSE <= (q - 1) * PAUSE < timeout;
      } else {
        assert k * PAUSE >= q * PAUSE >= timeout;
      }
    }
  }
}
