/**
 * Lockout by subject with exponential backoff (auth/attempt-lockout.ts). Durations and instants are whole
 * milliseconds; trimming and lower-casing a subject is a function given from outside.
 */
module Lockout {
  import opened Opt = Options

  datatype Options = Options(failureThreshold: nat, baseLockoutMs: nat, maxLockoutMs: nat, resetAfterMs: nat)

  datatype Attempt = Attempt(failures: nat, lockedUntil: int, lastFailureAt: int)

  type Attempts = map<string, Attempt>

  function Pow2(n: nat): nat { if n == 0 then 1 else 2 * Pow2(n - 1) }

  function Min(a: int, b: int): int { if a <= b then a else b }

  function LockoutMsForFailures(failures: nat, opts: Options): nat {
    if failures < opts.failureThreshold then 0
    else Min(opts.maxLockoutMs, opts.baseLockoutMs * Pow2(failures - opts.failureThreshold))
  }

  /** Milliseconds to seconds, rounded up. */
  function CeilSec(ms: nat): (sec: nat)
    ensures 1000 * sec - 1000 < ms <= 1000 * sec
  {
    (ms + 999) / 1000
  }

  datatype Answer = Answer(attempts: Attempts, sec: nat)

  function RetryAfter(attempts: Attempts, key: string, now: int, opts: Options): Answer {
    if key !in attempts then Answer(attempts, 0)
    else
      var a := attempts[key];
      if now - a.lastFailureAt > opts.resetAfterMs then Answer(attempts - {key}, 0)
      else Answer(attempts, if a.lockedUntil > now then CeilSec(a.lockedUntil - now) else 0)
  }

  /** The number of failures in a row, counting one more at now. */
  function FailuresNow(attempts: Attempts, key: string, now: int, opts: Options): nat {
    if key in attempts && now - attempts[key].lastFailureAt <= opts.resetAfterMs then attempts[key].failures + 1 else 1
  }

  function Failed(attempts: Attempts, key: string, now: int, opts: Options): Answer {
    var failures := FailuresNow(attempts, key, now, opts);
    var ms := LockoutMsForFailures(failures, opts);
    Answer(attempts[key := Attempt(failures, if ms > 0 then now + ms else 0, now)], CeilSec(ms))
  }

  class AttemptLockout {
    const opts: Options
    const keyFor: string -> string
    var attempts: Attempts

    constructor (opts: Options, keyFor: string -> string)
      ensures this.opts == opts && this.keyFor == keyFor && attempts == map[]
    {
      this.opts, this.keyFor, attempts := opts, keyFor, map[];
    }

    method RetryAfterSec(subject: string, now: int) returns (sec: nat)
      modifies this
      ensures Answer(attempts, sec) == RetryAfter(old(attempts), keyFor(subject), now, opts)
    {
      var key := keyFor(subject);
      if key !in attempts { return 0; }
      var a := attempts[key];
      if now - a.lastFailureAt > opts.resetAfterMs {
        attempts := attempts - {key};
        return 0;
      }
      sec := if a.lockedUntil > now then CeilSec(a.lockedUntil - now) else 0;
    }

    method RecordFailure(subject: string, now: int) returns (sec: nat)
      modifies this
      ensures Answer(attempts, sec) == Failed(old(attempts), keyFor(subject), now, opts)
    {
      var key := keyFor(subject);
      var failures := 1;
      if key in attempts && now - attempts[key].lastFailureAt <= opts.resetAfterMs {
        failures := attempts[key].failures + 1;
      }
      var ms := LockoutMsForFailures(failures, opts);
      attempts := attempts[key := Attempt(failures, if ms > 0 then now + ms else 0, now)];
      sec := CeilSec(ms);
    }

    method RecordSuccess(subject: string)
      modifies this
      ensures attempts == old(attempts) - {keyFor(subject)}
    {
      attempts := attempts - {keyFor(subject)};
    }

    method Reset()
      modifies this
      ensures attempts == map[]
    {
      attempts := map[];
    }
  }

  // ----- Runs

  /** A call; subjects are named by their keys. */
  datatype Event = Ask(key: string, now: int) | Failure(key: string, now: int) | Success(key: string) | Reset

  function Step(attempts: Attempts, e: Event, opts: Options): Attempts {
    match e
    case Ask(key, now) => RetryAfter(attempts, key, now, opts).attempts
    case Failure(key, now) => Failed(attempts, key, now, opts).attempts
    case Success(key) => attempts - {key}
    case Reset => map[]
  }

  function Run(attempts: Attempts, events: seq<Event>, opts: Options): Attempts
    decreases |events|
  {
    if events == [] then attempts else Run(Step(attempts, events[0], opts), events[1..], opts)
  }

  // ----- The formula

  lemma {:induction false} DoublingGrows(base: nat, i: nat, j: nat)
    requires i <= j
    ensures base * Pow2(i) <= base * Pow2(j)
    decreases j
  {
    if i < j {
      DoublingGrows(base, i, j - 1);
      DoubleOnce(base, j - 1);
    }
  }

  lemma DoubleOnce(base: nat, k: nat)
    ensures base * Pow2(k + 1) == 2 * (base * Pow2(k))
    ensures base * Pow2(k) >= 0
  {
  }

  /** One more failure never shortens the lock. */
  lemma MoreFailuresLockLonger(i: nat, j: nat, opts: Options)
    requires i <= j
    ensures LockoutMsForFailures(i, opts) <= LockoutMsForFailures(j, opts) <= opts.maxLockoutMs
  {
    if i >= opts.failureThreshold {
      DoublingGrows(opts.baseLockoutMs, i - opts.failureThreshold, j - opts.failureThreshold);
    }
  }

  // ----- A lock holds

  /** The subject stays locked until `until`, whatever failures it has had since `from`. */
  ghost predicate Locked(attempts: Attempts, key: string, from: int, until: int, opts: Options) {
    && key in attempts && from <= attempts[key].lastFailureAt < until <= attempts[key].lockedUntil
    && LockoutMsForFailures(attempts[key].failures, opts) >= until - from
  }

  /** Neither success nor reset lifts the lock; questions and further failures fall inside it. */
  ghost predicate Harmless(e: Event, key: string, from: int, until: int) {
    match e
    case Ask(k, now) => k == key ==> from <= now < until
    case Failure(k, now) => k == key ==> from <= now < until
    case Success(k) => k != key
    case Reset => false
  }

  ghost predicate Undisturbed(events: seq<Event>, key: string, from: int, until: int) {
    forall i :: 0 <= i < |events| ==> Harmless(events[i], key, from, until)
  }

  lemma StepStaysLocked(attempts: Attempts, e: Event, key: string, from: int, until: int, opts: Options)
    requires Locked(attempts, key, from, until, opts) && until - from <= opts.resetAfterMs + 1
    requires Harmless(e, key, from, until)
    ensures Locked(Step(attempts, e, opts), key, from, until, opts)
  {
    if e.Failure? && e.key == key {
      MoreFailuresLockLonger(attempts[key].failures, attempts[key].failures + 1, opts);
    }
  }

  /** Whatever the failures meanwhile, and whatever other subjects do, the wait is at least the rest of the lock. */
  lemma {:induction false} LockPersists(attempts: Attempts, events: seq<Event>, key: string, from: int, until: int, now: int, opts: Options)
    requires Locked(attempts, key, from, until, opts) && until - from <= opts.resetAfterMs + 1
    requires Undisturbed(events, key, from, until) && from <= now < until
    ensures 1000 * RetryAfter(Run(attempts, events, opts), key, now, opts).sec >= until - now > 0
    decreases |events|
  {
    if events != [] {
      assert Undisturbed(events[1..], key, from, until);
      StepStaysLocked(attempts, events[0], key, from, until, opts);
      LockPersists(Step(attempts, events[0], opts), events[1..], key, from, until, now, opts);
    }
  }

  /** The lock that a failure at t applies, in milliseconds. */
  function LockApplied(attempts: Attempts, key: string, t: int, opts: Options): nat {
    LockoutMsForFailures(FailuresNow(attempts, key, t, opts), opts)
  }

  /**
   * A lock no longer than the inactivity after which counters are forgotten holds for its whole length, whatever
   * failures come meanwhile.
   */
  lemma FailureLocksUntilItElapses(attempts: Attempts, events: seq<Event>, key: string, t: int, now: int, opts: Options)
    requires LockApplied(attempts, key, t, opts) <= opts.resetAfterMs + 1
    requires t <= now < t + LockApplied(attempts, key, t, opts)
    requires Undisturbed(events, key, t, t + LockApplied(attempts, key, t, opts))
    ensures 1000 * RetryAfter(Run(Failed(attempts, key, t, opts).attempts, events, opts), key, now, opts).sec
         >= t + LockApplied(attempts, key, t, opts) - now > 0
  {
    LockPersists(Failed(attempts, key, t, opts).attempts, events, key, t, t + LockApplied(attempts, key, t, opts), now, opts);
  }

  /**
   * A lock reports a wait exactly until it elapses if and only if it is at most one millisecond longer than the
   * inactivity limit: past that limit the entry is purged with the lock still on. Instants count from the epoch.
   */
  lemma LockHoldsIff(attempts: Attempts, key: string, t: nat, opts: Options)
    ensures var after, ms := Failed(attempts, key, t, opts).attempts, LockApplied(attempts, key, t, opts);
            (forall now :: t <= now ==> (RetryAfter(after, key, now, opts).sec > 0 <==> now < t + ms)) <==> ms <= opts.resetAfterMs + 1
  {
    var after, ms := Failed(attempts, key, t, opts).attempts, LockApplied(attempts, key, t, opts);
    if ms > opts.resetAfterMs + 1 {
      var now := t + opts.resetAfterMs + 1;
      assert RetryAfter(after, key, now, opts).sec == 0;
    }
  }

  /** The instances of the agent: logins by account (and second factors), and the PIN of the alarm. */
  const LOGIN := Options(5, 30000, 3600000, 3600000)
  const ALARM_PIN := Options(5, 30000, 900000, 3600000)

  /** With a cap within the inactivity limit, as in every instance of the agent, no lock is cut short. */
  lemma AgentLocksHold(attempts: Attempts, key: string, t: nat, now: int, opts: Options)
    requires (opts == LOGIN || opts == ALARM_PIN) && t <= now
    ensures RetryAfter(Failed(attempts, key, t, opts).attempts, key, now, opts).sec > 0 <==> now < t + LockApplied(attempts, key, t, opts)
  {
    var n := FailuresNow(attempts, key, t, opts);
    MoreFailuresLockLonger(n, n, opts);
    LockHoldsIff(attempts, key, t, opts);
  }

  // ----- What the events say of a subject

  /** Failures in a row, and the instant of the last. */
  datatype Streak = Streak(count: nat, last: int)

  /** One more failure at t: it prolongs the streak unless that has been forgotten. */
  ghost function Longer(streak: Option<Streak>, t: int, opts: Options): Streak {
    match streak
    case None => Streak(1, t)
    case Some(s) => Streak(if t - s.last <= opts.resetAfterMs then s.count + 1 else 1, t)
  }

  /** The streak that the events leave a subject with: questions do not count, and success or a reset ends it. */
  ghost function StreakOf(events: seq<Event>, key: string, opts: Options): Option<Streak> {
    if events == [] then None
    else
      var before := StreakOf(events[..|events| - 1], key, opts);
      match events[|events| - 1]
      case Ask(_, _) => before
      case Failure(k, t) => if k == key then Some(Longer(before, t, opts)) else before
      case Success(k) => if k == key then None else before
      case Reset => None
  }

  /** The instant of the last event of the subject, no earlier than `start`. */
  ghost function ClockOf(events: seq<Event>, key: string, start: int): int {
    if events == [] then start
    else
      match events[|events| - 1]
      case Ask(k, t) => if k == key then t else ClockOf(events[..|events| - 1], key, start)
      case Failure(k, t) => if k == key then t else ClockOf(events[..|events| - 1], key, start)
      case _ => ClockOf(events[..|events| - 1], key, start)
  }

  /** The clock of the subject does not go back. */
  ghost predicate Forward(events: seq<Event>, key: string, start: int) {
    events == []
    || (&& Forward(events[..|events| - 1], key, start)
        && ClockOf(events[..|events| - 1], key, start) <= ClockOf(events, key, start))
  }

  lemma {:induction false} RunAppend(attempts: Attempts, events: seq<Event>, e: Event, opts: Options)
    ensures Run(attempts, events + [e], opts) == Step(Run(attempts, events, opts), e, opts)
    decreases |events|
  {
    if events == [] {
      assert events + [e] == [e] && [e][1..] == [];
    } else {
      assert (events + [e])[1..] == events[1..] + [e];
      RunAppend(Step(attempts, events[0], opts), events[1..], e, opts);
    }
  }

  /** The entry of a subject is its streak; it is missing only without one, or when a question found it forgotten. */
  ghost predicate Holds(attempts: Attempts, key: string, streak: Option<Streak>, clock: int, opts: Options) {
    if key in attempts then
      var a := attempts[key];
      streak == Some(Streak(a.failures, a.lastFailureAt)) && Fresh(a, opts) && a.lastFailureAt <= clock
    else streak.Some? ==> clock - streak.value.last > opts.resetAfterMs
  }

  lemma {:induction false} EntryIsStreak(events: seq<Event>, key: string, start: int, opts: Options)
    requires Forward(events, key, start)
    ensures Holds(Run(map[], events, opts), key, StreakOf(events, key, opts), ClockOf(events, key, start), opts)
  {
    if events != [] {
      var before, e := events[..|events| - 1], events[|events| - 1];
      assert events == before + [e];
      EntryIsStreak(before, key, start, opts);
      RunAppend(map[], before, e, opts);
    }
  }

  /**
   * Whatever a subject has done, and whatever others do, a failure counts as one more of its streak, and a question is
   * answered with the rest of the lock of the streak, unless it is forgotten. Asking changes neither. Instants count from
   * the epoch.
   */
  lemma AnsweredByStreak(events: seq<Event>, key: string, start: nat, now: int, opts: Options)
    requires Forward(events, key, start) && ClockOf(events, key, start) <= now && now >= 0
    ensures var attempts, streak := Run(map[], events, opts), StreakOf(events, key, opts);
            && FailuresNow(attempts, key, now, opts) == Longer(streak, now, opts).count
            && RetryAfter(attempts, key, now, opts).sec
               == if streak.Some? && now - streak.value.last <= opts.resetAfterMs
                     && streak.value.last + LockoutMsForFailures(streak.value.count, opts) > now
                  then CeilSec(streak.value.last + LockoutMsForFailures(streak.value.count, opts) - now) else 0
  {
    EntryIsStreak(events, key, start, opts);
  }

  /** The lock doubles with every failure from the threshold on, up to the cap, and there is none before. */
  lemma LockDoubles(failures: nat, opts: Options)
    ensures failures < opts.failureThreshold ==> LockoutMsForFailures(failures, opts) == 0
    ensures LockoutMsForFailures(opts.failureThreshold, opts) == Min(opts.maxLockoutMs, opts.baseLockoutMs)
    ensures failures >= opts.failureThreshold ==>
      LockoutMsForFailures(failures + 1, opts) == Min(opts.maxLockoutMs, 2 * LockoutMsForFailures(failures, opts))
  {
    if failures >= opts.failureThreshold {
      DoubleOnce(opts.baseLockoutMs, failures - opts.failureThreshold);
      assert failures + 1 - opts.failureThreshold == failures - opts.failureThreshold + 1;
    }
  }

  // ----- What guessing costs

  /** The locks after the failures from the i-th up to the one before the j-th. */
  function Locks(i: nat, j: nat, opts: Options): nat
    decreases j - i
  {
    if i >= j then 0 else LockoutMsForFailures(i, opts) + Locks(i + 1, j, opts)
  }

  /**
   * The subject fails only when no wait is reported, each time before its counter is forgotten, and is neither
   * cleared nor reset. Other subjects do as they like.
   */
  ghost predicate PatientStep(attempts: Attempts, e: Event, key: string, opts: Options)
    requires key in attempts
  {
    match e
    case Ask(k, now) => k == key ==> now - attempts[key].lastFailureAt <= opts.resetAfterMs
    case Failure(k, now) =>
      k == key ==>
        && attempts[key].lastFailureAt <= now <= attempts[key].lastFailureAt + opts.resetAfterMs
        && RetryAfter(attempts, key, now, opts).sec == 0
    case Success(k) => k != key
    case Reset => false
  }

  ghost predicate Patient(attempts: Attempts, events: seq<Event>, key: string, opts: Options)
    requires key in attempts
    decreases |events|
  {
    events == []
    || (PatientStep(attempts, events[0], key, opts) && Patient(Step(attempts, events[0], opts), events[1..], key, opts))
  }

  /** The failures of a subject among the events. */
  function CountFailures(events: seq<Event>, key: string): nat {
    if events == [] then 0
    else (if events[0].Failure? && events[0].key == key then 1 else 0) + CountFailures(events[1..], key)
  }

  /** The entry was written by a failure: its lock runs from its last failure. */
  ghost predicate Fresh(a: Attempt, opts: Options) {
    var ms := LockoutMsForFailures(a.failures, opts);
    a.lockedUntil == if ms > 0 then a.lastFailureAt + ms else 0
  }

  lemma PatientFailureWaits(attempts: Attempts, key: string, now: int, opts: Options)
    requires key in attempts && Fresh(attempts[key], opts) && attempts[key].lastFailureAt <= now
    requires RetryAfter(attempts, key, now, opts).sec == 0 && now - attempts[key].lastFailureAt <= opts.resetAfterMs
    ensures now >= attempts[key].lastFailureAt + LockoutMsForFailures(attempts[key].failures, opts)
    ensures var next := Failed(attempts, key, now, opts).attempts[key];
            next.failures == attempts[key].failures + 1 && next.lastFailureAt == now && Fresh(next, opts)
  {
  }

  lemma {:induction false} PatienceCosts(attempts: Attempts, events: seq<Event>, key: string, opts: Options)
    requires key in attempts && Fresh(attempts[key], opts) && Patient(attempts, events, key, opts)
    ensures var last := Run(attempts, events, opts);
            && key in last && last[key].failures == attempts[key].failures + CountFailures(events, key)
            && last[key].lastFailureAt - attempts[key].lastFailureAt >= Locks(attempts[key].failures, last[key].failures, opts)
    decreases |events|
  {
    if events != [] {
      var e := events[0];
      if e.Failure? && e.key == key { PatientFailureWaits(attempts, key, e.now, opts); }
      PatienceCosts(Step(attempts, e, opts), events[1..], key, opts);
    }
  }

  /**
   * n failures of a subject, each made only when it was told not to wait, span at least the sum of the locks
   * applied from the first to the last but one.
   */
  lemma GuessingTakesTime(attempts: Attempts, first: int, events: seq<Event>, key: string, opts: Options)
    requires key !in attempts
    requires Patient(Failed(attempts, key, first, opts).attempts, events, key, opts)
    ensures var n := 1 + CountFailures(events, key);
            var last := Run(Failed(attempts, key, first, opts).attempts, events, opts);
            && key in last && last[key].failures == n
            && last[key].lastFailureAt - first >= Locks(1, n, opts) == Locks(if opts.failureThreshold < 1 then 1 else opts.failureThreshold, n, opts)
  {
    PatienceCosts(Failed(attempts, key, first, opts).attempts, events, key, opts);
    NoLocksBelow(1, 1 + CountFailures(events, key), opts);
  }

  lemma {:induction false} NoLocksBelow(i: nat, n: nat, opts: Options)
    requires i <= opts.failureThreshold || i == 1
    ensures Locks(i, n, opts) == Locks(if opts.failureThreshold < i then i else opts.failureThreshold, n, opts)
    decreases n - i
  {
    if i < opts.failureThreshold && i < n { NoLocksBelow(i + 1, n, opts); }
  }

  lemma {:induction false} LocksDouble(k: nat, opts: Options)
    requires k > 0 ==> opts.baseLockoutMs * Pow2(k - 1) <= opts.maxLockoutMs
    ensures Locks(opts.failureThreshold, opts.failureThreshold + k, opts) + opts.baseLockoutMs == opts.baseLockoutMs * Pow2(k)
  {
    if k > 0 {
      if k > 1 { DoublingGrows(opts.baseLockoutMs, k - 2, k - 1); }
      DoubleOnce(opts.baseLockoutMs, k - 1);
      LocksDouble(k - 1, opts);
      LocksLast(opts.failureThreshold, opts.failureThreshold + k, opts);
    }
  }

  lemma TimesLessOne(a: nat, b: nat)
    ensures a * (b - 1) == a * b - a
  {
  }

  /** While the cap does not bind, the locks add up to base * (2^(n - threshold) - 1). */
  lemma LocksBelowTheCap(n: nat, opts: Options)
    requires opts.failureThreshold <= n
    requires n > opts.failureThreshold ==> opts.baseLockoutMs * Pow2(n - 1 - opts.failureThreshold) <= opts.maxLockoutMs
    ensures Locks(opts.failureThreshold, n, opts) == opts.baseLockoutMs * (Pow2(n - opts.failureThreshold) - 1)
  {
    LocksDouble(n - opts.failureThreshold, opts);
    TimesLessOne(opts.baseLockoutMs, Pow2(n - opts.failureThreshold));
  }

  lemma {:induction false} LocksLast(i: nat, n: nat, opts: Options)
    requires i < n
    ensures Locks(i, n, opts) == Locks(i, n - 1, opts) + LockoutMsForFailures(n - 1, opts)
    decreases n - i
  {
    if i < n - 1 { LocksLast(i + 1, n, opts); }
  }

  // ----- Any strategy

  /**
   * The subject tries only when no wait is reported and is neither cleared nor reset; it may try at once, or wait
   * for as long as it likes, even until its failures are forgotten. Its clock does not go back.
   */
  ghost predicate Strategy(attempts: Attempts, events: seq<Event>, key: string, clock: int, opts: Options)
    decreases |events|
  {
    events == []
    || (match events[0]
        case Ask(k, now) =>
          (k == key ==> clock <= now)
          && Strategy(Step(attempts, events[0], opts), events[1..], key, if k == key then now else clock, opts)
        case Failure(k, now) =>
          (k == key ==> clock <= now && RetryAfter(attempts, key, now, opts).sec == 0)
          && Strategy(Step(attempts, events[0], opts), events[1..], key, if k == key then now else clock, opts)
        case Success(k) => k != key && Strategy(Step(attempts, events[0], opts), events[1..], key, clock, opts)
        case Reset => false)
  }

  /** When the subject failed for the last time. */
  function LastFailure(events: seq<Event>, key: string, last: int): int {
    if events == [] then last
    else LastFailure(events[1..], key, if events[0].Failure? && events[0].key == key then events[0].now else last)
  }

  function Total(streaks: seq<nat>): nat { if streaks == [] then 0 else streaks[0] + Total(streaks[1..]) }

  /** What streaks of failures cost: the locks inside each, and being forgotten between one and the next. */
  function Cost(streaks: seq<nat>, opts: Options): nat {
    if streaks == [] then 0
    else
      Locks(1, streaks[0], opts)
      + (if |streaks| > 1 then opts.resetAfterMs + 1 else 0)
      + Cost(streaks[1..], opts)
  }

  /** The subject has failed k times in a row, the last of them then; or enough time has passed to be forgotten. */
  ghost predicate OnStreak(attempts: Attempts, key: string, clock: int, last: int, k: nat, opts: Options) {
    && last <= clock
    && if key in attempts then attempts[key].lastFailureAt == last && attempts[key].failures == k && Fresh(attempts[key], opts)
       else clock > last + opts.resetAfterMs
  }

  lemma AskKeepsStreak(attempts: Attempts, key: string, clock: int, last: int, k: nat, now: int, opts: Options)
    requires OnStreak(attempts, key, clock, last, k, opts) && clock <= now
    ensures OnStreak(RetryAfter(attempts, key, now, opts).attempts, key, now, last, k, opts)
  {
  }

  /** Another failure prolongs the streak, once its lock has elapsed, or starts another, once it is forgotten. */
  lemma FailureOnStreak(attempts: Attempts, key: string, clock: int, last: int, k: nat, now: int, opts: Options)
    requires OnStreak(attempts, key, clock, last, k, opts) && clock <= now && RetryAfter(attempts, key, now, opts).sec == 0
    ensures var next := Failed(attempts, key, now, opts).attempts;
            || (OnStreak(next, key, now, now, k + 1, opts) && now >= last + LockoutMsForFailures(k, opts))
            || (OnStreak(next, key, now, now, 1, opts) && now >= last + opts.resetAfterMs + 1)
  {
  }

  /** Failing on and off, whatever the strategy, takes as long as some division of the failures into streaks costs. */
  lemma {:induction false} StreaksCost(attempts: Attempts, events: seq<Event>, key: string, clock: int, last: int, k: nat, opts: Options)
      returns (streaks: seq<nat>)
    requires OnStreak(attempts, key, clock, last, k, opts) && Strategy(attempts, events, key, clock, opts) && k > 0
    ensures |streaks| > 0 && streaks[0] >= k && (forall i :: 0 <= i < |streaks| ==> streaks[i] > 0)
    ensures Total(streaks) == k + CountFailures(events, key)
    ensures LastFailure(events, key, last) - last >= Cost(streaks, opts) - Locks(1, k, opts)
    decreases |events|
  {
    if events == [] {
      streaks := [k];
    } else {
      var e, rest := events[0], events[1..];
      var next := Step(attempts, e, opts);
      if e.Failure? && e.key == key {
        FailureOnStreak(attempts, key, clock, last, k, e.now, opts);
        if OnStreak(next, key, e.now, e.now, k + 1, opts) && e.now >= last + LockoutMsForFailures(k, opts) {
          streaks := StreaksCost(next, rest, key, e.now, e.now, k + 1, opts);
          LocksLast(1, k + 1, opts);
        } else {
          var others := StreaksCost(next, rest, key, e.now, e.now, 1, opts);
          streaks := [k] + others;
        }
      } else if e.Ask? && e.key == key {
        AskKeepsStreak(attempts, key, clock, last, k, e.now, opts);
        streaks := StreaksCost(next, rest, key, e.now, last, k, opts);
      } else {
        streaks := StreaksCost(next, rest, key, clock, last, k, opts);
      }
    }
  }

  /**
   * Whatever the strategy of a subject that waits as it is told, n failures divide into streaks, and from the first to
   * the last of them at least the locks inside the streaks and the inactivity limit between them go by.
   */
  lemma AnyStrategyCosts(attempts: Attempts, first: int, events: seq<Event>, key: string, opts: Options) returns (streaks: seq<nat>)
    requires key !in attempts && Strategy(Failed(attempts, key, first, opts).attempts, events, key, first, opts)
    ensures Total(streaks) == 1 + CountFailures(events, key) && forall i :: 0 <= i < |streaks| ==> streaks[i] > 0
    ensures LastFailure(events, key, first) - first >= Cost(streaks, opts)
  {
    streaks := StreaksCost(Failed(attempts, key, first, opts).attempts, events, key, first, first, 1, opts);
  }

  /** The pace, in milliseconds a failure, that no strategy beats with the limits of the agent: eight failures an hour. */
  const PACE := 450000

  lemma AgentLocks(i: nat, opts: Options)
    requires opts == LOGIN || opts == ALARM_PIN
    ensures LockoutMsForFailures(i, opts) >=
      if i < 5 then 0 else if i == 5 then 30000 else if i == 6 then 60000 else if i == 7 then 120000
      else if i == 8 then 240000 else PACE
  {
    if i >= 9 { MoreFailuresLockLonger(9, i, opts); }
    assert Pow2(1) == 2 && Pow2(2) == 4 && Pow2(3) == 8 && Pow2(4) == 16;
  }

  lemma {:induction false} StreakPace(k: nat, opts: Options)
    requires (opts == LOGIN || opts == ALARM_PIN) && k > 0
    ensures k == 6 ==> Locks(1, k, opts) >= 30000
    ensures k == 7 ==> Locks(1, k, opts) >= 90000
    ensures k == 8 ==> Locks(1, k, opts) >= 210000
    ensures k >= 9 ==> Locks(1, k, opts) >= 450000 + (k - 9) * PACE
    ensures Locks(1, k, opts) + opts.resetAfterMs + 1 >= k * PACE
  {
    if k > 1 {
      StreakPace(k - 1, opts);
      LocksLast(1, k, opts);
      AgentLocks(k - 1, opts);
    }
  }

  lemma {:induction false} CostPace(streaks: seq<nat>, opts: Options)
    requires (opts == LOGIN || opts == ALARM_PIN) && streaks != [] && forall i :: 0 <= i < |streaks| ==> streaks[i] > 0
    ensures Cost(streaks, opts) + opts.resetAfterMs + 1 >= Total(streaks) * PACE
  {
    StreakPace(streaks[0], opts);
    if |streaks| > 1 {
      CostPace(streaks[1..], opts);
    }
  }

  /**
   * With the limits configured for logins and for the alarm PIN, no strategy gets n failures in less than n times
   * 450 s, less the inactivity limit: in the long run, eight guesses an hour.
   */
  lemma NoStrategyIsFaster(attempts: Attempts, first: int, events: seq<Event>, key: string, opts: Options)
    requires opts == LOGIN || opts == ALARM_PIN
    requires key !in attempts && Strategy(Failed(attempts, key, first, opts).attempts, events, key, first, opts)
    ensures LastFailure(events, key, first) - first >= (1 + CountFailures(events, key)) * PACE - (opts.resetAfterMs + 1)
  {
    var streaks := AnyStrategyCosts(attempts, first, events, key, opts);
    CostPace(streaks, opts);
  }
}
