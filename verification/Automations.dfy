/**
 * The automation engine (automations/engine.ts): calendar triggers, conditions, cooldown, and the order in which
 * modules/automations/automations.service.ts decides and fires. An instant is local time in whole milliseconds and
 * every day has 24 hours; day 0 is a Thursday.
 */
module Automations {
  import opened Options

  const MINUTE := 60000
  const DAY := 1440 * MINUTE

  type Minute = m: int | 0 <= m < 1440

  function DayOf(at: int): int { at / DAY }

  /** 0 is Sunday. */
  function Weekday(at: int): int { (DayOf(at) + 4) % 7 }

  function MinuteOf(at: int): Minute { at % DAY / MINUTE }

  /** The minute of the day of base, with setHours(minute / 60, minute % 60, 0, 0). */
  function AtMinuteOf(base: int, minute: Minute): int {
    DayOf(base) * DAY + (minute / 60 * 60 + minute % 60) * MINUTE
  }

  /** A trigger at a fixed time, one that follows the sun, or one of those that events of the bus set off. */
  datatype Trigger = Time(days: set<int>, minute: Minute) | Sun(sun: nat) | OnEvent(kind: nat)

  // ----- Fixed times

  predicate DueOnDateOf(base: int, days: set<int>, minute: Minute, prev: int, now: int) {
    var at := AtMinuteOf(base, minute);
    Weekday(at) in days && at > prev && at <= now
  }

  predicate TimeTriggerDue(days: set<int>, minute: Minute, prev: int, now: int) {
    DueOnDateOf(prev, days, minute, prev, now) || DueOnDateOf(now, days, minute, prev, now)
  }

  /** An instant at which the trigger is set to go off. */
  ghost predicate Scheduled(at: int, days: set<int>, minute: Minute) {
    at % DAY == minute * MINUTE && Weekday(at) in days
  }

  lemma AtMinuteIsThere(base: int, minute: Minute)
    ensures DayOf(AtMinuteOf(base, minute)) == DayOf(base)
    ensures AtMinuteOf(base, minute) % DAY == minute * MINUTE
    ensures forall at :: DayOf(at) == DayOf(base) && at % DAY == minute * MINUTE ==> at == AtMinuteOf(base, minute)
  {
  }

  /** For any window: due exactly when a scheduled instant inside it falls on the date of one of its ends. */
  lemma DueIffScheduledOnEndDates(days: set<int>, minute: Minute, prev: int, now: int)
    ensures TimeTriggerDue(days, minute, prev, now) <==>
            exists at :: prev < at <= now && Scheduled(at, days, minute) && (DayOf(at) == DayOf(prev) || DayOf(at) == DayOf(now))
  {
    AtMinuteIsThere(prev, minute);
    AtMinuteIsThere(now, minute);
    if DueOnDateOf(prev, days, minute, prev, now) { assert Scheduled(AtMinuteOf(prev, minute), days, minute); }
    if DueOnDateOf(now, days, minute, prev, now) { assert Scheduled(AtMinuteOf(now, minute), days, minute); }
  }

  /** For a window of at most 24 hours: due exactly when a scheduled instant falls inside it. */
  lemma DueIffScheduledInside(days: set<int>, minute: Minute, prev: int, now: int)
    requires now - prev <= DAY
    ensures TimeTriggerDue(days, minute, prev, now) <==> AnyScheduled(prev, now, days, minute)
  {
    DueIffScheduledOnEndDates(days, minute, prev, now);
    forall at | prev < at <= now ensures DayOf(at) == DayOf(prev) || DayOf(at) == DayOf(now) {
      DaysInOrder(prev, at, now);
    }
  }

  lemma DaysInOrder(prev: int, at: int, now: int)
    requires prev <= at <= now <= prev + DAY
    ensures DayOf(at) == DayOf(prev) || DayOf(at) == DayOf(now)
  {
    var a, b, c := DayOf(prev), DayOf(at), DayOf(now);
    assert a * DAY <= prev < (a + 1) * DAY && b * DAY <= at < (b + 1) * DAY && c * DAY <= now < (c + 1) * DAY;
  }

  /** One millisecond more than 24 hours is too long: a whole day, and its instant, fit between the ends. */
  lemma LongerGapsSkip(minute: Minute)
    ensures var prev, now := DAY - 1, 2 * DAY;
            && now - prev == DAY + 1
            && Scheduled(AtMinuteOf(DAY, minute), {Weekday(DAY)}, minute) && prev < AtMinuteOf(DAY, minute) <= now
            && !TimeTriggerDue({Weekday(DAY)}, minute, prev, now)
  {
    AtMinuteIsThere(DAY, minute);
    AtMinuteIsThere(DAY - 1, minute);
    AtMinuteIsThere(2 * DAY, minute);
  }

  /** How many scheduled instants there are in (from, until]. */
  ghost function CountScheduled(from: int, until: int, days: set<int>, minute: Minute): nat
    decreases until - from
  {
    if from >= until then 0
    else CountScheduled(from, until - 1, days, minute) + if Scheduled(until, days, minute) then 1 else 0
  }

  lemma {:induction false} CountSplits(from: int, mid: int, until: int, days: set<int>, minute: Minute)
    requires from <= mid <= until
    ensures CountScheduled(from, until, days, minute) == CountScheduled(from, mid, days, minute) + CountScheduled(mid, until, days, minute)
    decreases until - mid
  {
    if mid < until { CountSplits(from, mid, until - 1, days, minute); }
  }

  ghost predicate AnyScheduled(from: int, until: int, days: set<int>, minute: Minute) {
    exists at :: from < at <= until && Scheduled(at, days, minute)
  }

  lemma AnyScheduledAtTheEnd(from: int, until: int, days: set<int>, minute: Minute)
    requires from < until
    ensures AnyScheduled(from, until, days, minute) <==> AnyScheduled(from, until - 1, days, minute) || Scheduled(until, days, minute)
  {
    if AnyScheduled(from, until, days, minute) && !Scheduled(until, days, minute) {
      var at :| from < at <= until && Scheduled(at, days, minute);
      assert at <= until - 1;
    }
  }

  lemma {:induction false} CountsSome(from: int, until: int, days: set<int>, minute: Minute)
    ensures CountScheduled(from, until, days, minute) > 0 <==> AnyScheduled(from, until, days, minute)
    decreases until - from
  {
    if from < until {
      CountsSome(from, until - 1, days, minute);
      AnyScheduledAtTheEnd(from, until, days, minute);
    }
  }

  lemma SameTimeOfDay(a: int, b: int)
    requires a % DAY == b % DAY && 0 <= b - a < DAY
    ensures a == b
  {
  }

  /** Within 24 hours there is at most one. */
  lemma {:induction false} AtMostOneADay(from: int, until: int, days: set<int>, minute: Minute)
    requires until - from <= DAY
    ensures CountScheduled(from, until, days, minute) <= 1
    decreases until - from
  {
    if from < until {
      AtMostOneADay(from, until - 1, days, minute);
      CountsSome(from, until - 1, days, minute);
      if Scheduled(until, days, minute) && AnyScheduled(from, until - 1, days, minute) {
        var at :| from < at <= until - 1 && Scheduled(at, days, minute);
        SameTimeOfDay(at, until);
        assert false;
      }
    }
  }

  /** Ticks of the sweep, each later than the one before by at most 24 hours. */
  ghost predicate Steady(ticks: seq<int>) {
    forall i :: 0 < i < |ticks| ==> ticks[i - 1] < ticks[i] <= ticks[i - 1] + DAY
  }

  /** How many ticks after the first report the trigger due. */
  ghost function DueTicks(ticks: seq<int>, days: set<int>, minute: Minute): nat {
    if |ticks| < 2 then 0
    else
      var last, prev := ticks[|ticks| - 1], ticks[|ticks| - 2];
      DueTicks(ticks[..|ticks| - 1], days, minute) + if TimeTriggerDue(days, minute, prev, last) then 1 else 0
  }

  lemma {:induction false} LaterTicks(ticks: seq<int>, i: nat, j: nat)
    requires Steady(ticks) && i <= j < |ticks|
    ensures ticks[i] <= ticks[j] && (i < j ==> ticks[i] < ticks[j])
    decreases j
  {
    if i < j { LaterTicks(ticks, i, j - 1); }
  }

  /** Over any run of ticks, as many report the trigger due as there are scheduled instants from the first to the last. */
  lemma {:induction false} EveryInstantIsReportedOnce(ticks: seq<int>, days: set<int>, minute: Minute)
    requires ticks != [] && Steady(ticks)
    ensures DueTicks(ticks, days, minute) == CountScheduled(ticks[0], ticks[|ticks| - 1], days, minute)
    decreases |ticks|
  {
    if |ticks| >= 2 {
      var before := ticks[..|ticks| - 1];
      var last, prev := ticks[|ticks| - 1], ticks[|ticks| - 2];
      assert Steady(before);
      EveryInstantIsReportedOnce(before, days, minute);
      LaterTicks(ticks, 0, |ticks| - 2);
      CountSplits(ticks[0], prev, last, days, minute);
      AtMostOneADay(prev, last, days, minute);
      CountsSome(prev, last, days, minute);
      DueIffScheduledInside(days, minute, prev, last);
    }
  }

  /** The tick that reports a given instant: the only one whose window holds it. */
  lemma TheTickOf(ticks: seq<int>, at: int, days: set<int>, minute: Minute) returns (i: nat)
    requires ticks != [] && Steady(ticks) && Scheduled(at, days, minute) && ticks[0] < at <= ticks[|ticks| - 1]
    ensures 0 < i < |ticks| && ticks[i - 1] < at <= ticks[i] && TimeTriggerDue(days, minute, ticks[i - 1], ticks[i])
    ensures forall j :: 0 < j < |ticks| && ticks[j - 1] < at <= ticks[j] ==> j == i
  {
    i := |ticks| - 1;
    while at <= ticks[i - 1]
      invariant 0 < i < |ticks| && at <= ticks[i]
    {
      i := i - 1;
    }
    DueIffScheduledInside(days, minute, ticks[i - 1], ticks[i]);
    forall j | 0 < j < |ticks| && ticks[j - 1] < at <= ticks[j] ensures j == i {
      if j < i { LaterTicks(ticks, j, i - 1); }
      if i < j { LaterTicks(ticks, i, j - 1); }
    }
  }

  // ----- Conditions

  /** Days allowed, if given, and the window [from, to) of minutes, if both ends are given. */
  datatype Condition = Condition(days: Option<set<int>>, fromMinute: Option<Minute>, toMinute: Option<Minute>)

  predicate InWindow(minute: Minute, from: Minute, until: Minute) {
    if from <= until then minute >= from && minute < until else minute >= from || minute < until
  }

  predicate PassesCondition(condition: Option<Condition>, now: int) {
    match condition
    case None => true
    case Some(c) =>
      if c.days.Some? && Weekday(now) !in c.days.value then false
      else if c.fromMinute.None? || c.toMinute.None? then true
      else InWindow(MinuteOf(now), c.fromMinute.value, c.toMinute.value)
  }

  /** Going forward round the clock from `from`, the minute comes before `until`, also across midnight. */
  lemma WindowGoesRoundTheClock(minute: Minute, from: Minute, until: Minute)
    ensures InWindow(minute, from, until) <==> (minute - from) % 1440 < (until - from) % 1440
    ensures from != until ==> (InWindow(minute, from, until) <==> !InWindow(minute, until, from))
  {
  }

  /** On a day of the week that is allowed, and on the arc of the clock between two minutes. */
  ghost predicate OnTheCalendar(c: Condition, now: int) {
    && (c.days.Some? ==> (now / DAY + 4) % 7 in c.days.value)
    && (c.fromMinute.Some? && c.toMinute.Some? ==>
          (now / MINUTE - c.fromMinute.value) % 1440 < (c.toMinute.value - c.fromMinute.value) % 1440)
  }

  lemma ConditionMeans(c: Condition, now: int)
    ensures PassesCondition(Some(c), now) <==> OnTheCalendar(c, now)
  {
    if c.fromMinute.Some? && c.toMinute.Some? {
      MinuteWithoutDay(now, c.fromMinute.value);
      WindowGoesRoundTheClock(MinuteOf(now), c.fromMinute.value, c.toMinute.value);
    }
  }

  lemma MinuteWithoutDay(now: int, from: Minute)
    ensures (now / MINUTE - from) % 1440 == (MinuteOf(now) - from) % 1440
  {
    var day, minute := DayOf(now), MinuteOf(now);
    assert now / MINUTE == 1440 * day + minute;
    assert (1440 * day + (minute - from)) % 1440 == (minute - from) % 1440;
  }

  // ----- Rules

  datatype Rule = Rule(id: string, enabled: bool, trigger: Trigger, condition: Option<Condition>, cooldownSec: nat)

  datatype Event = Event(kind: nat, origin: string)

  /** What decides about triggers that are not modelled here. */
  datatype World = World(matches: (nat, Event) -> bool, sunDue: (nat, int, int) -> bool)

  type LastFired = map<string, int>

  predicate CooledDown(rule: Rule, lastFired: LastFired, now: int) {
    rule.id !in lastFired || now - lastFired[rule.id] >= rule.cooldownSec * 1000
  }

  predicate MatchesTrigger(trigger: Trigger, event: Event, w: World) {
    match trigger
    case OnEvent(kind) => w.matches(kind, event)
    case Time(_, _) => false
    case Sun(_) => false
  }

  predicate ScheduledTriggerDue(trigger: Trigger, prev: int, now: int, w: World) {
    match trigger
    case Time(days, minute) => TimeTriggerDue(days, minute, prev, now)
    case Sun(sun) => w.sunDue(sun, prev, now)
    case OnEvent(_) => false
  }

  function DueRulesForEvent(rules: seq<Rule>, event: Event, now: int, lastFired: LastFired, w: World): seq<Rule> {
    if rules == [] then []
    else
      var rule := rules[0];
      var due := && rule.enabled && event.origin != "automation:" + rule.id && MatchesTrigger(rule.trigger, event, w)
                 && PassesCondition(rule.condition, now) && CooledDown(rule, lastFired, now);
      (if due then [rule] else []) + DueRulesForEvent(rules[1..], event, now, lastFired, w)
  }

  function DueScheduledRules(rules: seq<Rule>, prev: int, now: int, lastFired: LastFired, w: World): seq<Rule> {
    if rules == [] then []
    else
      var rule := rules[0];
      var due := && rule.enabled && ScheduledTriggerDue(rule.trigger, prev, now, w)
                 && PassesCondition(rule.condition, now) && CooledDown(rule, lastFired, now);
      (if due then [rule] else []) + DueScheduledRules(rules[1..], prev, now, lastFired, w)
  }

  // ----- The service

  datatype Firing = Firing(rule: Rule, now: int)

  /**
   * The service between two awaits: the last tick, the last firing of each rule, for each call under way the firings that
   * wait for the actions of those before them, and every firing so far.
   */
  datatype Service = Service(prevTick: Option<int>, lastFired: LastFired, waiting: seq<seq<Firing>>, log: seq<Firing>)

  const START := Service(None, map[], [], [])

  /**
   * An event or a tick decides what is due and fires the first rule at once; the others follow in order, each when the
   * actions of the one before are over.
   */
  datatype Step = Happens(rules: seq<Rule>, event: Event, now: int) | Tick(rules: seq<Rule>, now: int) | Resumes(call: nat)

  function Decided(s: Service, step: Step, w: World): seq<Rule> {
    match step
    case Happens(rules, event, now) => DueRulesForEvent(rules, event, now, s.lastFired, w)
    case Tick(rules, now) =>
      if s.prevTick.None? then [] else DueScheduledRules(rules, s.prevTick.value, now, s.lastFired, w)
    case Resumes(_) => []
  }

  function Firings(rules: seq<Rule>, now: int): (fs: seq<Firing>)
    ensures |fs| == |rules| && forall i :: 0 <= i < |rules| ==> fs[i] == Firing(rules[i], now)
  {
    seq(|rules|, i requires 0 <= i < |rules| => Firing(rules[i], now))
  }

  /** The instant is recorded before any action runs. */
  function Fire(s: Service, f: Firing): Service { s.(lastFired := s.lastFired[f.rule.id := f.now], log := s.log + [f]) }

  function Begin(s: Service, due: seq<Rule>, now: int): Service {
    if due == [] then s else Fire(s, Firing(due[0], now)).(waiting := s.waiting + [Firings(due[1..], now)])
  }

  function Resume(s: Service, call: nat): Service {
    if call >= |s.waiting| || s.waiting[call] == [] then s
    else Fire(s, s.waiting[call][0]).(waiting := s.waiting[call := s.waiting[call][1..]])
  }

  function Next(s: Service, step: Step, w: World): Service {
    match step
    case Happens(_, _, now) => Begin(s, Decided(s, step, w), now)
    case Tick(_, now) => Begin(s.(prevTick := Some(now)), Decided(s, step, w), now)
    case Resumes(call) => Resume(s, call)
  }

  function Run(s: Service, steps: seq<Step>, w: World): Service {
    if steps == [] then s else Next(Run(s, steps[..|steps| - 1], w), steps[|steps| - 1], w)
  }

  // ----- Deciding

  ghost predicate DistinctIds(rules: seq<Rule>) { forall i, j :: 0 <= i < j < |rules| ==> rules[i].id != rules[j].id }

  lemma DistinctFrom(first: Rule, due: seq<Rule>, rest: seq<Rule>)
    requires DistinctIds([first] + rest) && DistinctIds(due) && forall r :: r in due ==> r in rest
    ensures DistinctIds([first] + due)
  {
    var rules := [first] + rest;
    forall r | r in due ensures r.id != first.id {
      var i :| 0 <= i < |rest| && rest[i] == r;
      assert rules[0] == first && rules[i + 1] == r;
    }
  }

  /** An event sets off only triggers of the bus, never the calendar ones, and no rule by its own events. */
  lemma {:induction false} DueForEvent(rules: seq<Rule>, event: Event, now: int, lastFired: LastFired, w: World)
    requires DistinctIds(rules)
    ensures var due := DueRulesForEvent(rules, event, now, lastFired, w);
            && DistinctIds(due)
            && forall r :: r in due <==>
                 && r in rules && r.enabled && r.trigger.OnEvent? && w.matches(r.trigger.kind, event)
                 && event.origin != "automation:" + r.id && PassesCondition(r.condition, now) && CooledDown(r, lastFired, now)
  {
    if rules != [] {
      var first, rest := rules[0], rules[1..];
      assert rules == [first] + rest;
      DueForEvent(rest, event, now, lastFired, w);
      DistinctFrom(first, DueRulesForEvent(rest, event, now, lastFired, w), rest);
    }
  }

  lemma {:induction false} DueScheduled(rules: seq<Rule>, prev: int, now: int, lastFired: LastFired, w: World)
    requires DistinctIds(rules)
    ensures var due := DueScheduledRules(rules, prev, now, lastFired, w);
            && DistinctIds(due)
            && forall r :: r in due <==>
                 && r in rules && r.enabled && ScheduledTriggerDue(r.trigger, prev, now, w)
                 && PassesCondition(r.condition, now) && CooledDown(r, lastFired, now)
  {
    if rules != [] {
      var first, rest := rules[0], rules[1..];
      assert rules == [first] + rest;
      DueScheduled(rest, prev, now, lastFired, w);
      DistinctFrom(first, DueScheduledRules(rest, prev, now, lastFired, w), rest);
    }
  }

  /** A list of rules, read from the database, has no id twice. */
  ghost predicate ProperStep(step: Step) {
    match step
    case Happens(rules, _, _) => DistinctIds(rules)
    case Tick(rules, _) => DistinctIds(rules)
    case Resumes(_) => true
  }

  ghost predicate Proper(steps: seq<Step>) { forall i :: 0 <= i < |steps| ==> ProperStep(steps[i]) }

  lemma DecidedAreCooled(s: Service, step: Step, w: World)
    requires ProperStep(step)
    ensures DistinctIds(Decided(s, step, w))
    ensures !step.Resumes? ==> forall r :: r in Decided(s, step, w) ==> CooledDown(r, s.lastFired, step.now)
  {
    match step
    case Happens(rules, event, now) => DueForEvent(rules, event, now, s.lastFired, w);
    case Tick(rules, now) => if s.prevTick.Some? { DueScheduled(rules, s.prevTick.value, now, s.lastFired, w); }
    case Resumes(_) =>
  }

  // ----- What the record holds

  ghost predicate IsLastOf(log: seq<Firing>, id: string, k: int) {
    0 <= k < |log| && log[k].rule.id == id && forall j :: k < j < |log| ==> log[j].rule.id != id
  }

  /** lastFired holds the instant of the last firing of the rule. */
  ghost predicate Recorded(log: seq<Firing>, lastFired: LastFired, id: string) {
    && (forall i :: 0 <= i < |log| && log[i].rule.id == id ==> id in lastFired)
    && (id in lastFired ==> exists k :: IsLastOf(log, id, k) && log[k].now == lastFired[id])
  }

  /** A call fires no rule twice. */
  ghost predicate OnceEach(s: Service) {
    forall a, b, c :: 0 <= a < |s.waiting| && 0 <= b < c < |s.waiting[a]| ==> s.waiting[a][b].rule.id != s.waiting[a][c].rule.id
  }

  ghost predicate Consistent(s: Service, id: string) { Recorded(s.log, s.lastFired, id) && OnceEach(s) }

  lemma FireKeepsRecord(s: Service, f: Firing, id: string)
    requires Recorded(s.log, s.lastFired, id)
    ensures Recorded(Fire(s, f).log, Fire(s, f).lastFired, id)
  {
    var t := Fire(s, f);
    if id == f.rule.id {
      assert IsLastOf(t.log, id, |s.log|);
    } else if id in s.lastFired {
      var k :| IsLastOf(s.log, id, k) && s.log[k].now == s.lastFired[id];
      assert IsLastOf(t.log, id, k);
    }
  }

  lemma StepKeepsConsistent(s: Service, step: Step, w: World, id: string)
    requires Consistent(s, id) && ProperStep(step)
    ensures Consistent(Next(s, step, w), id)
  {
    DecidedAreCooled(s, step, w);
    var due := Decided(s, step, w);
    if step.Resumes? {
      if step.call < |s.waiting| && s.waiting[step.call] != [] { FireKeepsRecord(s, s.waiting[step.call][0], id); }
    } else if due != [] {
      FireKeepsRecord(s, Firing(due[0], step.now), id);
    }
  }

  // ----- Spacing

  /** Any two firings of the rule are at least its cooldown apart. */
  ghost predicate Spaced(log: seq<Firing>, id: string) {
    forall i, j :: 0 <= i < j < |log| && log[i].rule.id == id == log[j].rule.id ==>
      log[j].now - log[i].now >= log[j].rule.cooldownSec * 1000
  }

  /** One more firing keeps the spacing exactly when the rule had cooled down by its instant. */
  lemma OneMoreFiring(s: Service, f: Firing)
    requires Recorded(s.log, s.lastFired, f.rule.id)
    ensures Spaced(s.log + [f], f.rule.id) <==> Spaced(s.log, f.rule.id) && CooledDown(f.rule, s.lastFired, f.now)
  {
    var log, id := s.log + [f], f.rule.id;
    assert forall i :: 0 <= i < |s.log| ==> log[i] == s.log[i];
    if id in s.lastFired {
      var k :| IsLastOf(s.log, id, k) && s.log[k].now == s.lastFired[id];
      if Spaced(log, id) { assert log[k].rule.id == log[|s.log|].rule.id; }
      if Spaced(s.log, id) {
        forall i | 0 <= i < |s.log| && s.log[i].rule.id == id ensures s.log[i].now <= s.log[k].now {
          assert i <= k;
        }
      }
    }
  }

  lemma OtherFiring(log: seq<Firing>, f: Firing, id: string)
    requires f.rule.id != id
    ensures Spaced(log + [f], id) <==> Spaced(log, id)
  {
    assert forall i :: 0 <= i < |log| ==> (log + [f])[i] == log[i];
  }

  /** A firing of the rule waits in this place. */
  ghost predicate Waits(s: Service, id: string, a: int, b: int) {
    0 <= a < |s.waiting| && 0 <= b < |s.waiting[a]| && s.waiting[a][b].rule.id == id
  }

  /** Two firings that may come in either order: same instant, no cooldown. */
  ghost predicate Interchangeable(p: Firing, q: Firing) {
    p.now == q.now && p.rule.cooldownSec == 0 && q.rule.cooldownSec == 0
  }

  /** The spacing holds so far, each waiting firing would keep it, and no two of them are in each other's way. */
  ghost predicate Safe(s: Service, id: string) {
    && Spaced(s.log, id)
    && (forall a, b :: Waits(s, id, a, b) ==> CooledDown(s.waiting[a][b].rule, s.lastFired, s.waiting[a][b].now))
    && (forall a, b, c, d :: Waits(s, id, a, b) && Waits(s, id, c, d) && a != c ==> Interchangeable(s.waiting[a][b], s.waiting[c][d]))
  }

  /** The calls under way go on in this order. */
  function Carry(s: Service, order: seq<nat>): Service {
    if order == [] then s else Resume(Carry(s, order[..|order| - 1]), order[|order| - 1])
  }

  lemma ResumeKeepsConsistent(s: Service, call: nat, id: string)
    requires Consistent(s, id)
    ensures Consistent(Resume(s, call), id)
  {
    if call < |s.waiting| && s.waiting[call] != [] { FireKeepsRecord(s, s.waiting[call][0], id); }
  }

  lemma ResumeKeepsSafe(s: Service, call: nat, id: string)
    requires Consistent(s, id) && Safe(s, id)
    ensures Safe(Resume(s, call), id)
  {
    if call < |s.waiting| && s.waiting[call] != [] {
      var f, t := s.waiting[call][0], Resume(s, call);
      if f.rule.id == id {
        assert Waits(s, id, call, 0);
        OneMoreFiring(s, f);
      } else {
        OtherFiring(s.log, f, id);
      }
      forall a, b | Waits(t, id, a, b) ensures Waits(s, id, a, if a == call then b + 1 else b) {
      }
    }
  }

  // ----- Safe is exactly: spaced whatever the actions take

  /** However long the actions of the calls under way take, the spacing holds. */
  ghost predicate AlwaysSpaced(s: Service, id: string) {
    forall order: seq<nat> :: Spaced(Carry(s, order).log, id)
  }

  lemma {:induction false} SafeStaysSpaced(s: Service, order: seq<nat>, id: string)
    requires Consistent(s, id) && Safe(s, id)
    ensures Consistent(Carry(s, order), id) && Safe(Carry(s, order), id)
  {
    if order != [] {
      var before, call := order[..|order| - 1], order[|order| - 1];
      SafeStaysSpaced(s, before, id);
      ResumeKeepsConsistent(Carry(s, before), call, id);
      ResumeKeepsSafe(Carry(s, before), call, id);
    }
  }

  lemma {:induction false} CarryConcat(s: Service, a: seq<nat>, b: seq<nat>)
    ensures Carry(s, a + b) == Carry(Carry(s, a), b)
    decreases |b|
  {
    if b == [] {
      assert a + b == a;
    } else {
      assert (a + b)[..|a + b| - 1] == a + b[..|b| - 1];
      CarryConcat(s, a, b[..|b| - 1]);
    }
  }

  function Again(call: nat, n: nat): seq<nat> { if n == 0 then [] else Again(call, n - 1) + [call] }

  /** The two states agree on what concerns the rule, except that a call has gone on. */
  ghost predicate SameFor(s: Service, t: Service, id: string) {
    && (Spaced(t.log, id) <==> Spaced(s.log, id))
    && (id in t.lastFired <==> id in s.lastFired) && (id in s.lastFired ==> t.lastFired[id] == s.lastFired[id])
  }

  lemma ResumeOther(s: Service, id: string, a: nat)
    requires a < |s.waiting| && s.waiting[a] != [] && s.waiting[a][0].rule.id != id
    ensures SameFor(s, Resume(s, a), id) && Resume(s, a).waiting == s.waiting[a := s.waiting[a][1..]]
  {
    OtherFiring(s.log, s.waiting[a][0], id);
  }

  lemma OneCloser(s: Service, t: Service, id: string, a: nat, n: nat)
    requires a < |s.waiting| && n < |s.waiting[a]| && s.waiting[a][n].rule.id != id
    requires SameFor(s, t, id) && t.waiting == s.waiting[a := s.waiting[a][n..]]
    ensures SameFor(s, Resume(t, a), id) && Resume(t, a).waiting == s.waiting[a := s.waiting[a][n + 1..]]
  {
    var line := s.waiting[a];
    assert t.waiting[a] == line[n..] && line[n..][0] == line[n] && line[n..][1..] == line[n + 1..];
    ResumeOther(t, id, a);
  }

  lemma GoOn(s: Service, call: nat, n: nat)
    ensures Carry(s, Again(call, n + 1)) == Resume(Carry(s, Again(call, n)), call)
    ensures Carry(s, Again(call, n) + [call]) == Carry(s, Again(call, n + 1))
  {
    assert (Again(call, n) + [call])[..|Again(call, n)|] == Again(call, n);
  }

  /** The service after call a has gone on n times. */
  function Onward(s: Service, a: nat, n: nat): Service { if n == 0 then s else Resume(Onward(s, a, n - 1), a) }

  lemma {:induction false} OnwardIsCarry(s: Service, a: nat, n: nat)
    ensures Carry(s, Again(a, n)) == Onward(s, a, n)
  {
    if n > 0 {
      OnwardIsCarry(s, a, n - 1);
      GoOn(s, a, n - 1);
    }
  }

  lemma {:induction false} OnwardReaches(s: Service, id: string, a: nat, b: nat)
    requires a < |s.waiting| && b <= |s.waiting[a]| && forall c :: 0 <= c < b ==> s.waiting[a][c].rule.id != id
    ensures var t := Onward(s, a, b);
            SameFor(s, t, id) && t.waiting == s.waiting[a := s.waiting[a][b..]]
  {
    if b == 0 {
      assert s.waiting[a][0..] == s.waiting[a];
    } else {
      OnwardReaches(s, id, a, b - 1);
      OneCloser(s, Onward(s, a, b - 1), id, a, b - 1);
    }
  }

  /** Up to its place in the queue, a waiting firing has only other rules before it. */
  lemma ReachWaiter(s: Service, id: string, a: nat, b: nat)
    requires a < |s.waiting| && b <= |s.waiting[a]| && forall c :: 0 <= c < b ==> s.waiting[a][c].rule.id != id
    ensures var t := Carry(s, Again(a, b));
            SameFor(s, t, id) && t.waiting == s.waiting[a := s.waiting[a][b..]]
  {
    OnwardReaches(s, id, a, b);
    OnwardIsCarry(s, a, b);
  }

  /** Carrying one call up to and including a waiting firing. */
  lemma FireWaiter(s: Service, id: string, a: nat, b: nat)
    requires Consistent(s, id) && Waits(s, id, a, b)
    ensures var p, t := s.waiting[a][b], Carry(s, Again(a, b) + [a]);
            && (Spaced(t.log, id) <==> Spaced(s.log, id) && CooledDown(p.rule, s.lastFired, p.now))
            && id in t.lastFired && t.lastFired[id] == p.now && t.waiting == s.waiting[a := s.waiting[a][b + 1..]]
  {
    ReachWaiter(s, id, a, b);
    var u := Carry(s, Again(a, b));
    CarryConsistent(s, Again(a, b), id);
    GoOn(s, a, b);
    assert u.waiting[a][0] == s.waiting[a][b];
    OneMoreFiring(u, u.waiting[a][0]);
  }

  lemma {:induction false} CarryConsistent(s: Service, order: seq<nat>, id: string)
    requires Consistent(s, id)
    ensures Consistent(Carry(s, order), id)
  {
    if order != [] {
      CarryConsistent(s, order[..|order| - 1], id);
      ResumeKeepsConsistent(Carry(s, order[..|order| - 1]), order[|order| - 1], id);
    }
  }

  /** One waiting firing of the rule carried out before another of a different call. */
  lemma FireTwoWaiters(s: Service, id: string, a: nat, b: nat, c: nat, d: nat)
    requires Consistent(s, id) && Waits(s, id, a, b) && Waits(s, id, c, d) && a != c
    ensures var p, q := s.waiting[a][b], s.waiting[c][d];
            Spaced(Carry(s, (Again(a, b) + [a]) + (Again(c, d) + [c])).log, id) ==> q.now - p.now >= q.rule.cooldownSec * 1000
  {
    var t := Carry(s, Again(a, b) + [a]);
    FireWaiter(s, id, a, b);
    CarryConsistent(s, Again(a, b) + [a], id);
    CarryConcat(s, Again(a, b) + [a], Again(c, d) + [c]);
    assert Waits(t, id, c, d) && t.waiting[c][d] == s.waiting[c][d];
    FireWaiter(t, id, c, d);
  }

  /** The condition on the waiting firings is exact: without it, some course of the actions breaks the cooldown. */
  lemma SafeIffAlwaysSpaced(s: Service, id: string)
    requires Consistent(s, id)
    ensures Safe(s, id) <==> AlwaysSpaced(s, id)
  {
    if Safe(s, id) {
      forall order: seq<nat> ensures Spaced(Carry(s, order).log, id) { SafeStaysSpaced(s, order, id); }
    }
    if AlwaysSpaced(s, id) {
      assert Carry(s, []) == s;
      forall a, b | Waits(s, id, a, b) ensures CooledDown(s.waiting[a][b].rule, s.lastFired, s.waiting[a][b].now) {
        FireWaiter(s, id, a, b);
      }
      forall a, b, c, d | Waits(s, id, a, b) && Waits(s, id, c, d) && a != c ensures Interchangeable(s.waiting[a][b], s.waiting[c][d]) {
        FireTwoWaiters(s, id, a, b, c, d);
        FireTwoWaiters(s, id, c, d, a, b);
      }
    }
  }

  // ----- What a decision may do

  /**
   * The guard of a decision that includes the rule: a firing of it that still waits must be later by its cooldown when the
   * rule fires at once, and otherwise simultaneous and without cooldown.
   */
  ghost predicate Guard(s: Service, due: seq<Rule>, now: int, id: string) {
    forall k, a, b :: 0 <= k < |due| && due[k].id == id && Waits(s, id, a, b) ==>
      var p := s.waiting[a][b];
      if k == 0 then p.now - now >= p.rule.cooldownSec * 1000 else Interchangeable(p, Firing(due[k], now))
  }

  /** With a clock that does not go back and a cooldown, the guard is: no firing of a rule decided upon still waits. */
  lemma GuardMeansNoneWaits(s: Service, due: seq<Rule>, now: int, id: string)
    requires forall a, b :: Waits(s, id, a, b) ==> s.waiting[a][b].now <= now && s.waiting[a][b].rule.cooldownSec > 0
    ensures Guard(s, due, now, id) <==> (forall k, a, b :: 0 <= k < |due| && due[k].id == id ==> !Waits(s, id, a, b))
  {
    assert forall k, a, b :: 0 <= k < |due| && due[k].id == id && Waits(s, id, a, b) ==> !Interchangeable(s.waiting[a][b], Firing(due[k], now));
  }

  /** From a safe state a decision leads to a safe one exactly when it meets the guard. */
  lemma BeginSafeIff(s: Service, due: seq<Rule>, now: int, id: string)
    requires Consistent(s, id) && Safe(s, id) && DistinctIds(due) && (forall r :: r in due ==> CooledDown(r, s.lastFired, now))
    ensures Safe(Begin(s, due, now), id) <==> Guard(s, due, now, id)
  {
    if due != [] {
      assert due[0] in due;
      if due[0].id == id { OneMoreFiring(s, Firing(due[0], now)); } else { OtherFiring(s.log, Firing(due[0], now), id); }
      if Guard(s, due, now, id) { GuardedIsSafe(s, due, now, id); }
      if Safe(Begin(s, due, now), id) { SafeIsGuarded(s, due, now, id); }
    }
  }

  lemma GuardedIsSafe(s: Service, due: seq<Rule>, now: int, id: string)
    requires Safe(s, id) && DistinctIds(due) && due != [] && (forall r :: r in due ==> CooledDown(r, s.lastFired, now))
    requires Guard(s, due, now, id) && Spaced(Begin(s, due, now).log, id)
    ensures Safe(Begin(s, due, now), id)
  {
    var t, n := Begin(s, due, now), |s.waiting|;
    forall a, b | Waits(t, id, a, b)
      ensures a < n ==> Waits(s, id, a, b) && t.waiting[a][b] == s.waiting[a][b]
      ensures a == n ==> due[b + 1].id == id && t.waiting[a][b] == Firing(due[b + 1], now)
    {
    }
    forall a, b | Waits(t, id, a, b) ensures CooledDown(t.waiting[a][b].rule, t.lastFired, t.waiting[a][b].now) {
      if a == n { assert due[b + 1] in due; }
    }
    forall a, b, c, d | Waits(t, id, a, b) && Waits(t, id, c, d) && a != c ensures Interchangeable(t.waiting[a][b], t.waiting[c][d]) {
      if a == n { assert Waits(s, id, c, d); }
      if c == n { assert Waits(s, id, a, b); }
    }
  }

  lemma SafeIsGuarded(s: Service, due: seq<Rule>, now: int, id: string)
    requires due != [] && Safe(Begin(s, due, now), id)
    ensures Guard(s, due, now, id)
  {
    var t, n := Begin(s, due, now), |s.waiting|;
    forall k, a, b | 0 <= k < |due| && due[k].id == id && Waits(s, id, a, b)
      ensures var p := s.waiting[a][b];
              if k == 0 then p.now - now >= p.rule.cooldownSec * 1000 else Interchangeable(p, Firing(due[k], now))
    {
      assert Waits(t, id, a, b) && t.waiting[a][b] == s.waiting[a][b];
      if k > 0 { assert Waits(t, id, n, k - 1) && t.waiting[n][k - 1] == Firing(due[k], now); }
    }
  }

  ghost predicate GuardedStep(s: Service, step: Step, w: World, id: string) {
    step.Resumes? || Guard(s, Decided(s, step, w), step.now, id)
  }

  /** Every decision of the run meets the guard. */
  ghost predicate Guarded(steps: seq<Step>, w: World, id: string) {
    forall n :: 0 <= n < |steps| ==> GuardedStep(Run(START, steps[..n], w), steps[n], w, id)
  }

  lemma StepSafeIff(s: Service, step: Step, w: World, id: string)
    requires Consistent(s, id) && Safe(s, id) && ProperStep(step)
    ensures Safe(Next(s, step, w), id) <==> GuardedStep(s, step, w, id)
  {
    DecidedAreCooled(s, step, w);
    match step
    case Happens(_, _, now) => BeginSafeIff(s, Decided(s, step, w), now, id);
    case Tick(_, now) =>
      var u := s.(prevTick := Some(now));
      assert Consistent(u, id) && Safe(u, id) && (Guard(u, Decided(s, step, w), now, id) <==> Guard(s, Decided(s, step, w), now, id));
      BeginSafeIff(u, Decided(s, step, w), now, id);
    case Resumes(call) => ResumeKeepsSafe(s, call, id);
  }

  lemma RunOneMore(steps: seq<Step>, n: nat, w: World)
    requires n < |steps|
    ensures Run(START, steps[..n + 1], w) == Next(Run(START, steps[..n], w), steps[n], w)
  {
    assert steps[..n + 1][..n] == steps[..n];
  }

  lemma {:induction false} RunConsistent(steps: seq<Step>, n: nat, w: World, id: string)
    requires Proper(steps) && n <= |steps|
    ensures Consistent(Run(START, steps[..n], w), id)
    decreases n
  {
    if n > 0 {
      RunConsistent(steps, n - 1, w, id);
      RunOneMore(steps, n - 1, w);
      StepKeepsConsistent(Run(START, steps[..n - 1], w), steps[n - 1], w, id);
    }
  }

  lemma StepOfRunSafeIff(steps: seq<Step>, n: nat, w: World, id: string)
    requires Proper(steps) && n < |steps| && Safe(Run(START, steps[..n], w), id)
    ensures Safe(Run(START, steps[..n + 1], w), id) <==> GuardedStep(Run(START, steps[..n], w), steps[n], w, id)
  {
    RunConsistent(steps, n, w, id);
    RunOneMore(steps, n, w);
    StepSafeIff(Run(START, steps[..n], w), steps[n], w, id);
  }

  lemma {:induction false} GuardedUpTo(steps: seq<Step>, n: nat, w: World, id: string)
    requires Proper(steps) && n <= |steps| && Guarded(steps, w, id)
    ensures Safe(Run(START, steps[..n], w), id)
    decreases n
  {
    if n > 0 {
      GuardedUpTo(steps, n - 1, w, id);
      assert GuardedStep(Run(START, steps[..n - 1], w), steps[n - 1], w, id);
      StepOfRunSafeIff(steps, n - 1, w, id);
    }
  }

  /**
   * In a run of events and ticks, no course of the actions ever brings two firings of the rule closer than its cooldown if
   * and only if every decision met the guard.
   */
  lemma CooldownHoldsIff(steps: seq<Step>, w: World, id: string)
    requires Proper(steps)
    ensures (forall n :: 0 <= n <= |steps| ==> AlwaysSpaced(Run(START, steps[..n], w), id)) <==> Guarded(steps, w, id)
  {
    if Guarded(steps, w, id) {
      forall n | 0 <= n <= |steps| ensures AlwaysSpaced(Run(START, steps[..n], w), id) {
        GuardedUpTo(steps, n, w, id);
        RunConsistent(steps, n, w, id);
        SafeIffAlwaysSpaced(Run(START, steps[..n], w), id);
      }
    }
    if forall n :: 0 <= n <= |steps| ==> AlwaysSpaced(Run(START, steps[..n], w), id) {
      forall n | 0 <= n < |steps| ensures GuardedStep(Run(START, steps[..n], w), steps[n], w, id) {
        RunConsistent(steps, n, w, id);
        RunConsistent(steps, n + 1, w, id);
        SafeIffAlwaysSpaced(Run(START, steps[..n], w), id);
        SafeIffAlwaysSpaced(Run(START, steps[..n + 1], w), id);
        StepOfRunSafeIff(steps, n, w, id);
      }
    }
  }

  /** A decision about the rule while a firing of it waits. */
  ghost predicate DecidedWhileWaiting(s: Service, step: Step, w: World, id: string) {
    exists k, a, b :: 0 <= k < |Decided(s, step, w)| && Decided(s, step, w)[k].id == id && Waits(s, id, a, b)
  }

  /** In particular the firings of the run itself are spaced when no rule is decided upon while a firing of it waits. */
  lemma FiringsRespectCooldown(steps: seq<Step>, w: World, id: string)
    requires Proper(steps)
    requires forall n :: 0 <= n < |steps| ==> !DecidedWhileWaiting(Run(START, steps[..n], w), steps[n], w, id)
    ensures Spaced(Run(START, steps, w).log, id)
  {
    forall n | 0 <= n < |steps| ensures GuardedStep(Run(START, steps[..n], w), steps[n], w, id) {
      assert !DecidedWhileWaiting(Run(START, steps[..n], w), steps[n], w, id);
    }
    GuardedUpTo(steps, |steps|, w, id);
    assert steps[..|steps|] == steps;
  }

  // ----- The first rule due

  /** Whenever the rule is due, it comes first. */
  ghost predicate AlwaysFirst(steps: seq<Step>, w: World, id: string) {
    forall n, k :: 0 <= n < |steps| && 0 < k < |Decided(Run(START, steps[..n], w), steps[n], w)| ==>
      Decided(Run(START, steps[..n], w), steps[n], w)[k].id != id
  }

  lemma {:induction false} FirstNeverWaits(steps: seq<Step>, n: nat, w: World, id: string)
    requires n <= |steps| && AlwaysFirst(steps, w, id)
    ensures forall a, b :: !Waits(Run(START, steps[..n], w), id, a, b)
    decreases n
  {
    if n > 0 {
      FirstNeverWaits(steps, n - 1, w, id);
      RunOneMore(steps, n - 1, w);
      NextAddsNone(Run(START, steps[..n - 1], w), steps[n - 1], w, id);
    }
  }

  lemma NextAddsNone(s: Service, step: Step, w: World, id: string)
    requires forall a, b :: !Waits(s, id, a, b)
    requires forall k :: 0 < k < |Decided(s, step, w)| ==> Decided(s, step, w)[k].id != id
    ensures forall a, b :: !Waits(Next(s, step, w), id, a, b)
  {
    forall a, b ensures !Waits(Next(s, step, w), id, a, b) {
      assert !Waits(s, id, a, b) && !Waits(s, id, a, b + 1);
      match step
      case Happens(_, _, now) => BeginAddsNone(s, Decided(s, step, w), now, id, a, b);
      case Tick(_, now) => BeginAddsNone(s.(prevTick := Some(now)), Decided(s, step, w), now, id, a, b);
      case Resumes(call) => ResumeAddsNone(s, call, id, a, b);
    }
  }

  lemma BeginAddsNone(s: Service, due: seq<Rule>, now: int, id: string, a: int, b: int)
    requires !Waits(s, id, a, b) && forall k :: 0 < k < |due| ==> due[k].id != id
    ensures !Waits(Begin(s, due, now), id, a, b)
  {
  }

  lemma ResumeAddsNone(s: Service, call: nat, id: string, a: int, b: int)
    requires !Waits(s, id, a, b) && !Waits(s, id, a, b + 1)
    ensures !Waits(Resume(s, call), id, a, b)
  {
  }

  /** A rule that fires at the moment of every decision is never exposed: its cooldown holds in any run. */
  lemma FirstIsNeverExposed(steps: seq<Step>, w: World, id: string)
    requires Proper(steps) && AlwaysFirst(steps, w, id)
    ensures Spaced(Run(START, steps, w).log, id)
  {
    forall n | 0 <= n < |steps| ensures GuardedStep(Run(START, steps[..n], w), steps[n], w, id) {
      FirstNeverWaits(steps, n, w, id);
    }
    GuardedUpTo(steps, |steps|, w, id);
    assert steps[..|steps|] == steps;
  }

  // ----- How the cooldown is broken

  /** The event sets the rule off, cooldown aside. */
  predicate SetOff(rule: Rule, event: Event, w: World) {
    rule.enabled && rule.condition.None? && MatchesTrigger(rule.trigger, event, w) && event.origin != "automation:" + rule.id
  }

  lemma DecidedOfTwo(a: Rule, b: Rule, event: Event, now: int, lastFired: LastFired, w: World)
    requires SetOff(a, event, w) && SetOff(b, event, w)
    ensures DueRulesForEvent([a, b], event, now, lastFired, w)
         == (if CooledDown(a, lastFired, now) then [a] else []) + (if CooledDown(b, lastFired, now) then [b] else [])
  {
    assert [a, b][1..] == [b] && [b][1..] == [];
    assert DueRulesForEvent([], event, now, lastFired, w) == [];
    assert DueRulesForEvent([b], event, now, lastFired, w) == if CooledDown(b, lastFired, now) then [b] else [];
  }

  lemma BeginTwo(s: Service, a: Rule, b: Rule, now: int)
    ensures Begin(s, [a, b], now) == Fire(s, Firing(a, now)).(waiting := s.waiting + [[Firing(b, now)]])
    ensures Begin(s, [b], now) == Fire(s, Firing(b, now)).(waiting := s.waiting + [[]])
  {
    assert [a, b][1..] == [b] && [b][1..] == [];
    assert Firings([b], now) == [Firing(b, now)] && Firings([], now) == [];
  }

  lemma RunThree(one: Step, two: Step, three: Step, w: World)
    ensures Run(START, [one, two, three], w) == Next(Next(Next(START, one, w), two, w), three, w)
  {
    assert [one, two, three][..2] == [one, two] && [one, two][..1] == [one] && [one][..0] == [];
    assert Run(START, [one], w) == Next(START, one, w);
    assert Run(START, [one, two], w) == Next(Run(START, [one], w), two, w);
  }

  ghost function BWaits(a: Rule, b: Rule, now: int): Service {
    Service(None, map[a.id := now], [[Firing(b, now)]], [Firing(a, now)])
  }

  ghost function BFiredMeanwhile(a: Rule, b: Rule, now: int, later: int): Service {
    Service(None, map[a.id := now, b.id := later], [[Firing(b, now)], []], [Firing(a, now), Firing(b, later)])
  }

  lemma FirstEvent(a: Rule, b: Rule, event: Event, now: int, w: World)
    requires SetOff(a, event, w) && SetOff(b, event, w)
    ensures Next(START, Happens([a, b], event, now), w) == BWaits(a, b, now)
  {
    DecidedOfTwo(a, b, event, now, map[], w);
    assert [a] + [b] == [a, b];
    BeginTwo(START, a, b, now);
  }

  lemma SecondEvent(a: Rule, b: Rule, event: Event, now: int, later: int, w: World)
    requires a.id != b.id && SetOff(a, event, w) && SetOff(b, event, w) && later - now < a.cooldownSec * 1000
    ensures Next(BWaits(a, b, now), Happens([a, b], event, later), w) == BFiredMeanwhile(a, b, now, later)
  {
    DecidedOfTwo(a, b, event, later, map[a.id := now], w);
    assert [] + [b] == [b];
    BeginTwo(BWaits(a, b, now), a, b, later);
  }

  lemma LateFiring(a: Rule, b: Rule, now: int, later: int)
    requires a.id != b.id && now <= later && b.cooldownSec > 0
    ensures var s := Resume(BFiredMeanwhile(a, b, now, later), 0);
            && s.log == [Firing(a, now), Firing(b, later), Firing(b, now)] && !Spaced(s.log, b.id)
            && b.id in s.lastFired && s.lastFired[b.id] == now
  {
    var s := Resume(BFiredMeanwhile(a, b, now, later), 0);
    assert s.log == [Firing(a, now), Firing(b, later), Firing(b, now)];
    assert s.log[2].now - s.log[1].now <= 0;
  }

  lemma OverlapRun(a: Rule, b: Rule, event: Event, now: int, later: int, w: World)
    requires a.id != b.id && SetOff(a, event, w) && SetOff(b, event, w) && later - now < a.cooldownSec * 1000
    ensures Run(START, [Happens([a, b], event, now), Happens([a, b], event, later), Resumes(0)], w)
         == Resume(BFiredMeanwhile(a, b, now, later), 0)
  {
    FirstEvent(a, b, event, now, w);
    SecondEvent(a, b, event, now, later, w);
    RunThree(Happens([a, b], event, now), Happens([a, b], event, later), Resumes(0), w);
  }

  /**
   * An event fires rule a, and rule b waits for its actions. The same event again, while a has not cooled down, fires b;
   * then the first call fires b too, within its cooldown, and sets its record back.
   */
  lemma OverlapBreaksCooldown(a: Rule, b: Rule, event: Event, now: int, later: int, w: World)
    requires a.id != b.id && SetOff(a, event, w) && SetOff(b, event, w)
    requires 0 <= later - now < a.cooldownSec * 1000 && b.cooldownSec > 0
    ensures var steps := [Happens([a, b], event, now), Happens([a, b], event, later), Resumes(0)];
            var s := Run(START, steps, w);
            && Proper(steps) && s.log == [Firing(a, now), Firing(b, later), Firing(b, now)] && !Spaced(s.log, b.id)
            && b.id in s.lastFired && s.lastFired[b.id] == now
  {
    OverlapRun(a, b, event, now, later, w);
    LateFiring(a, b, now, later);
    assert DistinctIds([a, b]);
  }
}
