/**
 * Runs of the automation service (modules/automations/automations.service.ts): what becomes of each decision, what window a
 * tick looks at, and how often a calendar rule fires.
 */
module AutomationRuns {
  import opened Options
  import opened Automations

  // ----- What becomes of a decision

  /** How many of the firings have the property. */
  ghost function Tally(fs: seq<Firing>, p: Firing -> bool): nat {
    if fs == [] then 0 else Tally(fs[..|fs| - 1], p) + if p(fs[|fs| - 1]) then 1 else 0
  }

  /** All firings that wait, call by call. */
  ghost function Flat(waiting: seq<seq<Firing>>): seq<Firing> {
    if waiting == [] then [] else Flat(waiting[..|waiting| - 1]) + waiting[|waiting| - 1]
  }

  /** What a step decides to fire, at the instant of the step. */
  ghost function DecidedBy(s: Service, step: Step, w: World): seq<Firing> {
    if step.Resumes? then [] else Firings(Decided(s, step, w), step.now)
  }

  /** Everything that the steps of a run decided to fire. */
  ghost function AllDecided(steps: seq<Step>, w: World): seq<Firing> {
    if steps == [] then []
    else AllDecided(steps[..|steps| - 1], w) + DecidedBy(Run(START, steps[..|steps| - 1], w), steps[|steps| - 1], w)
  }

  lemma {:induction false} TallyConcat(a: seq<Firing>, b: seq<Firing>, p: Firing -> bool)
    ensures Tally(a + b, p) == Tally(a, p) + Tally(b, p)
    decreases |b|
  {
    if b == [] {
      assert a + b == a;
    } else {
      assert (a + b)[..|a + b| - 1] == a + b[..|b| - 1];
      TallyConcat(a, b[..|b| - 1], p);
    }
  }

  lemma TallyOne(f: Firing, p: Firing -> bool)
    ensures Tally([f], p) == if p(f) then 1 else 0
  {
    assert [f][..0] == [];
  }

  lemma FlatAppend(waiting: seq<seq<Firing>>, line: seq<Firing>)
    ensures Flat(waiting + [line]) == Flat(waiting) + line
  {
    assert (waiting + [line])[..|waiting|] == waiting;
  }

  /** Taking the head off one line. */
  lemma {:induction false} TallyWithoutHead(waiting: seq<seq<Firing>>, a: nat, p: Firing -> bool)
    requires a < |waiting| && waiting[a] != []
    ensures Tally(Flat(waiting), p) == Tally(Flat(waiting[a := waiting[a][1..]]), p) + if p(waiting[a][0]) then 1 else 0
    decreases |waiting|
  {
    var n := |waiting| - 1;
    var before, last := waiting[..n], waiting[n];
    var taken := waiting[a := waiting[a][1..]];
    TallyConcat(Flat(before), last, p);
    TallyConcat(Flat(taken[..n]), taken[n], p);
    if a == n {
      assert taken[..n] == before && last == [last[0]] + last[1..];
      TallyConcat([last[0]], last[1..], p);
      TallyOne(last[0], p);
    } else {
      assert taken[..n] == before[a := before[a][1..]];
      TallyWithoutHead(before, a, p);
    }
  }

  lemma BeginTallies(s: Service, due: seq<Rule>, now: int, p: Firing -> bool)
    ensures var t := Begin(s, due, now);
            Tally(t.log, p) + Tally(Flat(t.waiting), p) == Tally(s.log, p) + Tally(Flat(s.waiting), p) + Tally(Firings(due, now), p)
  {
    if due == [] {
      assert Firings(due, now) == [];
    } else {
      var first, rest := Firing(due[0], now), Firings(due[1..], now);
      assert Firings(due, now) == [first] + rest;
      TallyConcat(s.log, [first], p);
      TallyConcat([first], rest, p);
      FlatAppend(s.waiting, rest);
      TallyConcat(Flat(s.waiting), rest, p);
    }
  }

  lemma ResumeTallies(s: Service, call: nat, p: Firing -> bool)
    ensures var t := Resume(s, call);
            Tally(t.log, p) + Tally(Flat(t.waiting), p) == Tally(s.log, p) + Tally(Flat(s.waiting), p)
  {
    if call < |s.waiting| && s.waiting[call] != [] {
      TallyConcat(s.log, [s.waiting[call][0]], p);
      TallyOne(s.waiting[call][0], p);
      TallyWithoutHead(s.waiting, call, p);
    }
  }

  lemma NextTallies(s: Service, step: Step, w: World, p: Firing -> bool)
    ensures var t := Next(s, step, w);
            Tally(t.log, p) + Tally(Flat(t.waiting), p) == Tally(s.log, p) + Tally(Flat(s.waiting), p) + Tally(DecidedBy(s, step, w), p)
  {
    match step
    case Happens(_, _, now) => BeginTallies(s, Decided(s, step, w), now, p);
    case Tick(_, now) => BeginTallies(s.(prevTick := Some(now)), Decided(s, step, w), now, p);
    case Resumes(call) => ResumeTallies(s, call, p);
  }

  /** Over any run, what has been fired and what waits are, however they are counted, what was decided: none is lost or doubled. */
  lemma {:induction false} EveryDecisionFires(steps: seq<Step>, w: World, p: Firing -> bool)
    ensures var s := Run(START, steps, w);
            Tally(s.log, p) + Tally(Flat(s.waiting), p) == Tally(AllDecided(steps, w), p)
  {
    if steps != [] {
      var before, step := steps[..|steps| - 1], steps[|steps| - 1];
      EveryDecisionFires(before, w, p);
      NextTallies(Run(START, before, w), step, w, p);
      TallyConcat(AllDecided(before, w), DecidedBy(Run(START, before, w), step, w), p);
    }
  }

  // ----- The order of a decision

  /** The due rules are rules of the list, in its order. */
  ghost predicate InOrderOf(due: seq<Rule>, rules: seq<Rule>) {
    if due == [] then true
    else if rules == [] then false
    else if due[0] == rules[0] then InOrderOf(due[1..], rules[1..])
    else InOrderOf(due, rules[1..])
  }

  lemma DistinctRest(rules: seq<Rule>)
    requires rules != [] && DistinctIds(rules)
    ensures DistinctIds(rules[1..])
  {
  }

  lemma {:induction false} DueInOrder(rules: seq<Rule>, event: Event, now: int, lastFired: LastFired, w: World)
    requires DistinctIds(rules)
    ensures InOrderOf(DueRulesForEvent(rules, event, now, lastFired, w), rules)
  {
    if rules != [] {
      var rest := rules[1..];
      var due := DueRulesForEvent(rest, event, now, lastFired, w);
      DistinctRest(rules);
      DueInOrder(rest, event, now, lastFired, w);
      DueForEvent(rest, event, now, lastFired, w);
      InOrderFrom(rules, due);
    }
  }

  lemma {:induction false} ScheduledInOrder(rules: seq<Rule>, prev: int, now: int, lastFired: LastFired, w: World)
    requires DistinctIds(rules)
    ensures InOrderOf(DueScheduledRules(rules, prev, now, lastFired, w), rules)
  {
    if rules != [] {
      var rest := rules[1..];
      var due := DueScheduledRules(rest, prev, now, lastFired, w);
      DistinctRest(rules);
      ScheduledInOrder(rest, prev, now, lastFired, w);
      DueScheduled(rest, prev, now, lastFired, w);
      InOrderFrom(rules, due);
    }
  }

  lemma InOrderFrom(rules: seq<Rule>, due: seq<Rule>)
    requires rules != [] && DistinctIds(rules) && InOrderOf(due, rules[1..]) && forall r :: r in due ==> r in rules[1..]
    ensures InOrderOf([rules[0]] + due, rules) && InOrderOf([] + due, rules)
  {
    assert ([rules[0]] + due)[1..] == due && [] + due == due;
    if due != [] { IsAnother(rules, due[0]); }
  }

  lemma IsAnother(rules: seq<Rule>, r: Rule)
    requires rules != [] && DistinctIds(rules) && r in rules[1..]
    ensures r != rules[0]
  {
    var i :| 0 <= i < |rules[1..]| && rules[1..][i] == r;
    assert rules[i + 1] == r;
  }

  // ----- The window of a tick

  /** The instant of the last tick among the steps. */
  ghost function LastTick(steps: seq<Step>): Option<int> {
    if steps == [] then None
    else if steps[|steps| - 1].Tick? then Some(steps[|steps| - 1].now)
    else LastTick(steps[..|steps| - 1])
  }

  /** A tick looks at what is scheduled since the last one, and the first looks at nothing. */
  lemma {:induction false} PrevTickIsTheLast(steps: seq<Step>, w: World)
    ensures Run(START, steps, w).prevTick == LastTick(steps)
  {
    if steps != [] { PrevTickIsTheLast(steps[..|steps| - 1], w); }
  }

  // ----- How often a calendar rule fires

  /** The instants of the ticks. */
  ghost function Ticks(steps: seq<Step>): seq<int> {
    if steps == [] then []
    else Ticks(steps[..|steps| - 1]) + if steps[|steps| - 1].Tick? then [steps[|steps| - 1].now] else []
  }

  lemma {:induction false} LastOfTicks(steps: seq<Step>)
    ensures LastTick(steps) == if Ticks(steps) == [] then None else Some(Ticks(steps)[|Ticks(steps)| - 1])
  {
    if steps != [] { LastOfTicks(steps[..|steps| - 1]); }
  }

  /** The clock of events and ticks does not go back. */
  ghost predicate Forward(steps: seq<Step>) {
    forall i, j :: 0 <= i < j < |steps| && !steps[i].Resumes? && !steps[j].Resumes? ==> steps[i].now <= steps[j].now
  }

  /** A rule at a fixed time, without condition or cooldown, in the list of every tick. */
  ghost predicate Everyday(steps: seq<Step>, r: Rule) {
    && r.enabled && r.trigger.Time? && r.condition.None? && r.cooldownSec == 0
    && forall i :: 0 <= i < |steps| && steps[i].Tick? ==> r in steps[i].rules
  }

  ghost function Of(r: Rule): Firing -> bool { (f: Firing) => f.rule == r }

  ghost function Same(f: Firing): Firing -> bool { (g: Firing) => g == f }

  lemma {:induction false} TallyIn(fs: seq<Firing>, f: Firing)
    ensures Tally(fs, Same(f)) > 0 <==> f in fs
  {
    if fs != [] {
      TallyIn(fs[..|fs| - 1], f);
      assert fs == fs[..|fs| - 1] + [fs[|fs| - 1]];
    }
  }

  lemma {:induction false} DecidedInTime(steps: seq<Step>, w: World, f: Firing, now: int)
    requires f in AllDecided(steps, w) && forall i :: 0 <= i < |steps| && !steps[i].Resumes? ==> steps[i].now <= now
    ensures f.now <= now
  {
    var before, step := steps[..|steps| - 1], steps[|steps| - 1];
    if f in AllDecided(before, w) { DecidedInTime(before, w, f, now); }
  }

  /** Nothing was fired later than now. */
  lemma FiredInTime(steps: seq<Step>, w: World, id: string, now: int)
    requires Proper(steps) && forall i :: 0 <= i < |steps| && !steps[i].Resumes? ==> steps[i].now <= now
    ensures var s := Run(START, steps, w); id in s.lastFired ==> s.lastFired[id] <= now
  {
    var s := Run(START, steps, w);
    assert steps[..|steps|] == steps;
    RunConsistent(steps, |steps|, w, id);
    if id in s.lastFired {
      var k :| IsLastOf(s.log, id, k) && s.log[k].now == s.lastFired[id];
      EveryDecisionFires(steps, w, Same(s.log[k]));
      TallyIn(s.log, s.log[k]);
      TallyIn(AllDecided(steps, w), s.log[k]);
      DecidedInTime(steps, w, s.log[k], now);
    }
  }

  lemma {:induction false} TallyOfRule(due: seq<Rule>, now: int, r: Rule)
    requires DistinctIds(due)
    ensures Tally(Firings(due, now), Of(r)) == if r in due then 1 else 0
  {
    if due != [] {
      var before, last := due[..|due| - 1], due[|due| - 1];
      assert Firings(due, now) == Firings(before, now) + [Firing(last, now)] && due == before + [last];
      TallyOfRule(before, now, r);
      TallyConcat(Firings(before, now), [Firing(last, now)], Of(r));
      TallyOne(Firing(last, now), Of(r));
    }
  }

  /** A tick decides to fire the rule exactly when its time falls in the window since the last tick; an event never does. */
  lemma TickDecides(before: seq<Step>, step: Step, w: World, r: Rule)
    requires Proper(before + [step]) && Forward(before + [step]) && Everyday(before + [step], r)
    ensures Tally(DecidedBy(Run(START, before, w), step, w), Of(r))
         == if step.Tick? && LastTick(before).Some? && TimeTriggerDue(r.trigger.days, r.trigger.minute, LastTick(before).value, step.now)
            then 1 else 0
  {
    var steps, s := before + [step], Run(START, before, w);
    assert steps[|before|] == step && forall i :: 0 <= i < |before| ==> steps[i] == before[i];
    PrevTickIsTheLast(before, w);
    DecidedAreCooled(s, step, w);
    if !step.Resumes? { TallyOfRule(Decided(s, step, w), step.now, r); }
    match step
    case Happens(rules, event, now) => DueForEvent(rules, event, now, s.lastFired, w);
    case Tick(rules, now) =>
      FiredInTime(before, w, r.id, now);
      if s.prevTick.Some? { DueScheduled(rules, s.prevTick.value, now, s.lastFired, w); }
    case Resumes(_) =>
  }

  lemma DueTicksAppend(ticks: seq<int>, now: int, days: set<int>, minute: Minute)
    ensures DueTicks(ticks + [now], days, minute)
         == DueTicks(ticks, days, minute) + if ticks != [] && TimeTriggerDue(days, minute, ticks[|ticks| - 1], now) then 1 else 0
  {
    assert (ticks + [now])[..|ticks|] == ticks;
  }

  lemma {:induction false} DecidedOncePerDueTick(steps: seq<Step>, w: World, r: Rule)
    requires Proper(steps) && Forward(steps) && Everyday(steps, r)
    ensures Tally(AllDecided(steps, w), Of(r)) == DueTicks(Ticks(steps), r.trigger.days, r.trigger.minute)
  {
    if steps != [] {
      var before, step := steps[..|steps| - 1], steps[|steps| - 1];
      assert steps == before + [step];
      DecidedOncePerDueTick(before, w, r);
      TickDecides(before, step, w, r);
      TallyConcat(AllDecided(before, w), DecidedBy(Run(START, before, w), step, w), Of(r));
      LastOfTicks(before);
      if step.Tick? {
        DueTicksAppend(Ticks(before), step.now, r.trigger.days, r.trigger.minute);
      } else {
        assert Ticks(before) + [] == Ticks(before);
      }
    }
  }

  /**
   * Over any run of the service whose ticks follow each other within 24 hours, a rule at a fixed time, without condition or
   * cooldown, has been fired, or waits to be, once for every instant scheduled from the first tick to the last.
   */
  lemma CalendarRulesFire(steps: seq<Step>, w: World, r: Rule)
    requires Proper(steps) && Forward(steps) && Everyday(steps, r) && Ticks(steps) != [] && Steady(Ticks(steps))
    ensures var s, ticks := Run(START, steps, w), Ticks(steps);
            Tally(s.log, Of(r)) + Tally(Flat(s.waiting), Of(r))
            == CountScheduled(ticks[0], ticks[|ticks| - 1], r.trigger.days, r.trigger.minute)
  {
    EveryDecisionFires(steps, w, Of(r));
    DecidedOncePerDueTick(steps, w, r);
    EveryInstantIsReportedOnce(Ticks(steps), r.trigger.days, r.trigger.minute);
  }
}
