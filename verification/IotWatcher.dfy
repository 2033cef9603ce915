/**
 * The watcher of IoT devices (automations/iot-watcher.ts): it compares what the devices report with what they
 * reported before, and publishes the differences on the bus.
 */
module IotWatcher {
  import opened Options
  import opened Semaphore
  import opened JsMap

  datatype Reading = Reading(metric: string, value: real)

  /** on is None for devices that are neither on nor off. */
  datatype Device = Device(id: string, on: Option<bool>, readings: seq<Reading>)

  datatype HomeEvent =
    | IotOn(deviceId: string)
    | IotOff(deviceId: string)
    | SensorReading(deviceId: string, metric: string, value: real, prevValue: Option<real>)

  /** A Map built from readings keeps the last value of a metric. */
  function Values(readings: seq<Reading>): map<string, real> {
    if readings == [] then map[]
    else
      var last := readings[|readings| - 1];
      Values(readings[..|readings| - 1])[last.metric := last.value]
  }

  function ValueOf(values: map<string, real>, metric: string): Option<real> {
    if metric in values then Some(values[metric]) else None
  }

  function SwitchEvents(before: Device, after: Device): seq<HomeEvent> {
    if after.on.Some? && before.on.Some? && after.on.value != before.on.value then
      [if after.on.value then IotOn(after.id) else IotOff(after.id)]
    else []
  }

  function ReadingEvents(antes: map<string, real>, readings: seq<Reading>, id: string): seq<HomeEvent> {
    if readings == [] then []
    else
      var r := readings[|readings| - 1];
      var prev := ValueOf(antes, r.metric);
      ReadingEvents(antes, readings[..|readings| - 1], id)
      + if Some(r.value) != prev then [SensorReading(id, r.metric, r.value, prev)] else []
  }

  function Changes(before: Device, after: Device): seq<HomeEvent> {
    SwitchEvents(before, after) + ReadingEvents(Values(before.readings), after.readings, after.id)
  }

  function Transitions(before: Option<Device>, after: Device): seq<HomeEvent> {
    match before
    case None => []
    case Some(b) => Changes(b, after)
  }

  method ObserveTransitions(before: Option<Device>, after: Device) returns (events: seq<HomeEvent>)
    ensures events == Transitions(before, after)
  {
    events := [];
    if before.None? { return; }
    if after.on.Some? && before.value.on.Some? && after.on.value != before.value.on.value {
      events := [if after.on.value then IotOn(after.id) else IotOff(after.id)];
    }
    var antes := Values(before.value.readings);
    for i := 0 to |after.readings|
      invariant events == SwitchEvents(before.value, after) + ReadingEvents(antes, after.readings[..i], after.id)
    {
      var r := after.readings[i];
      assert after.readings[..i + 1][..i] == after.readings[..i];
      var prevValue := ValueOf(antes, r.metric);
      if Some(r.value) != prevValue {
        events := events + [SensorReading(after.id, r.metric, r.value, prevValue)];
      }
    }
    assert after.readings[..|after.readings|] == after.readings;
  }

  /** The devices of a list by id, each at the place of its first appearance. */
  function Current(devices: seq<Device>): seq<Entry<string, Device>> {
    if devices == [] then []
    else
      var last := devices[|devices| - 1];
      Set(Current(devices[..|devices| - 1]), last.id, last)
  }

  type Baseline = map<string, Device>

  function Lookup(baseline: Baseline, id: string): Option<Device> {
    if id in baseline then Some(baseline[id]) else None
  }

  function AsMap(entries: seq<Entry<string, Device>>): Baseline {
    if entries == [] then map[]
    else
      var last := entries[|entries| - 1];
      AsMap(entries[..|entries| - 1])[last.key := last.value]
  }

  /** What one poll publishes: the transitions of each device of the list, in order. */
  function PollEvents(prev: Baseline, current: seq<Entry<string, Device>>): seq<HomeEvent> {
    if current == [] then []
    else
      var device := current[|current| - 1].value;
      PollEvents(prev, current[..|current| - 1]) + Transitions(Lookup(prev, device.id), device)
  }

  lemma PollOneMore(prev: Baseline, current: seq<Entry<string, Device>>, i: nat, start: seq<HomeEvent>)
    requires i < |current|
    ensures var device := current[i].value;
            start + PollEvents(prev, current[..i + 1]) == start + PollEvents(prev, current[..i]) + Transitions(Lookup(prev, device.id), device)
  {
    assert current[..i + 1][..i] == current[..i];
  }

  /** `reports` remembers, for the proofs, what each device reported, from its first sighting on. */
  datatype State = State(baseline: Option<Baseline>, log: seq<HomeEvent>, reports: map<string, seq<Device>>)

  const START := State(None, [], map[])

  function ReportsOf(reports: map<string, seq<Device>>, id: string): seq<Device> {
    if id in reports then reports[id] else []
  }

  function Noted(reports: map<string, seq<Device>>, current: Baseline): map<string, seq<Device>> {
    map id | id in reports.Keys + current.Keys :: ReportsOf(reports, id) + if id in current then [current[id]] else []
  }

  function Poll(s: State, devices: seq<Device>): State {
    var current := Current(devices);
    match s.baseline
    case None => State(Some(AsMap(current)), s.log, Noted(s.reports, AsMap(current)))
    case Some(prev) => State(Some(prev + AsMap(current)), s.log + PollEvents(prev, current), Noted(s.reports, AsMap(current)))
  }

  function ApplyKnown(s: State, device: Device): State {
    match s.baseline
    case None => s
    case Some(base) =>
      State(Some(base[device.id := device]), s.log + Transitions(Lookup(base, device.id), device),
            Noted(s.reports, map[device.id := device]))
  }

  class IotWatcher {
    var baseline: Option<Baseline>
    /** Everything published on the bus so far, what callers publish of ApplyKnownState included. */
    var bus: seq<HomeEvent>
    ghost var reports: map<string, seq<Device>>

    constructor ()
      ensures Now() == START
    {
      baseline, bus, reports := None, [], map[];
    }

    ghost function Now(): State
      reads this
    {
      State(baseline, bus, reports)
    }

    /** One poll, once the list has arrived; a poll that fails before that changes nothing. */
    method Tick(devices: seq<Device>)
      modifies this
      ensures Now() == Poll(old(Now()), devices)
    {
      var current := Current(devices);
      var prev := baseline;
      reports := Noted(reports, AsMap(current));
      baseline := Some(if prev.Some? then prev.value + AsMap(current) else AsMap(current));
      if prev.Some? { PublishTransitions(prev.value, current); }
    }

    method PublishTransitions(prev: Baseline, current: seq<Entry<string, Device>>)
      modifies this`bus
      ensures bus == old(bus) + PollEvents(prev, current)
    {
      ghost var start := bus;
      for i := 0 to |current|
        invariant bus == start + PollEvents(prev, current[..i])
      {
        var device := current[i].value;
        var events := ObserveTransitions(Lookup(prev, device.id), device);
        PollOneMore(prev, current, i, start);
        bus := bus + events;
      }
      assert current[..|current|] == current;
    }

    /** The caller publishes what this returns, with its origin. */
    method ApplyKnownState(device: Device) returns (events: seq<HomeEvent>)
      modifies this
      ensures Now() == ApplyKnown(old(Now()), device) && bus == old(bus) + events
    {
      if baseline.None? { return []; }
      events := ObserveTransitions(Lookup(baseline.value, device.id), device);
      reports := Noted(reports, map[device.id := device]);
      baseline := Some(baseline.value[device.id := device]);
      bus := bus + events;
    }
  }

  // ----- The events about one device

  ghost function Of(es: seq<HomeEvent>, id: string): seq<HomeEvent> {
    if es == [] then []
    else Of(es[..|es| - 1], id) + if es[|es| - 1].deviceId == id then [es[|es| - 1]] else []
  }

  lemma {:induction false} OfConcat(a: seq<HomeEvent>, b: seq<HomeEvent>, id: string)
    ensures Of(a + b, id) == Of(a, id) + Of(b, id)
    decreases |b|
  {
    if b == [] {
      assert a + b == a;
    } else {
      assert (a + b)[..|a + b| - 1] == a + b[..|b| - 1];
      OfConcat(a, b[..|b| - 1], id);
    }
  }

  lemma {:induction false} OfMembers(es: seq<HomeEvent>, id: string)
    ensures forall e :: e in Of(es, id) ==> e in es
  {
    if es != [] { OfMembers(es[..|es| - 1], id); }
  }

  lemma {:induction false} AllOfOne(es: seq<HomeEvent>, id: string, other: string)
    requires forall i :: 0 <= i < |es| ==> es[i].deviceId == id
    ensures Of(es, other) == if other == id then es else []
  {
    if es != [] {
      AllOfOne(es[..|es| - 1], id, other);
      assert es == es[..|es| - 1] + [es[|es| - 1]];
    }
  }

  lemma {:induction false} ReadingEventsAreOf(antes: map<string, real>, readings: seq<Reading>, id: string)
    ensures forall i :: 0 <= i < |ReadingEvents(antes, readings, id)| ==> ReadingEvents(antes, readings, id)[i].deviceId == id
  {
    if readings != [] { ReadingEventsAreOf(antes, readings[..|readings| - 1], id); }
  }

  lemma TransitionsOf(before: Option<Device>, after: Device, other: string)
    ensures Of(Transitions(before, after), other) == if other == after.id then Transitions(before, after) else []
  {
    if before.Some? {
      ReadingEventsAreOf(Values(before.value.readings), after.readings, after.id);
      AllOfOne(Changes(before.value, after), after.id, other);
    }
  }

  // ----- One poll, device by device

  ghost predicate KeyedById(entries: seq<Entry<string, Device>>) {
    (forall e :: e in entries ==> e.key == e.value.id) && Distinct(Keys(entries))
  }

  lemma {:induction false} CurrentIsKeyed(devices: seq<Device>)
    ensures KeyedById(Current(devices))
    ensures forall e :: e in Current(devices) ==> e.value in devices
  {
    if devices != [] {
      var before, last := devices[..|devices| - 1], devices[|devices| - 1];
      CurrentIsKeyed(before);
      SetKeepsKeyed(Current(before), last);
      assert forall d :: d in before ==> d in devices;
    }
  }

  lemma SetKeepsKeyed(m: seq<Entry<string, Device>>, d: Device)
    requires KeyedById(m)
    ensures KeyedById(Set(m, d.id, d))
  {
    SetKeepsDistinct(m, d.id, d);
  }

  lemma {:induction false} AsMapHas(entries: seq<Entry<string, Device>>, id: string)
    requires KeyedById(entries)
    ensures id in AsMap(entries) <==> id in Keys(entries)
    ensures id in AsMap(entries) ==> AsMap(entries)[id].id == id && Entry(id, AsMap(entries)[id]) in entries
  {
    if entries != [] {
      var before, last := entries[..|entries| - 1], entries[|entries| - 1];
      KeysOfPrefix(entries);
      assert entries == before + [last] && last in entries && forall e :: e in before ==> e in entries;
      AsMapHas(before, id);
      assert id in Keys(entries) <==> id in Keys(before) || id == last.key;
    }
  }

  lemma KeysOfPrefix(entries: seq<Entry<string, Device>>)
    requires entries != []
    ensures var before, last := entries[..|entries| - 1], entries[|entries| - 1];
            Keys(entries) == Keys(before) + [last.key] && (Distinct(Keys(entries)) ==> Distinct(Keys(before)) && last.key !in Keys(before))
  {
    var before := entries[..|entries| - 1];
    assert forall i :: 0 <= i < |before| ==> Keys(before)[i] == before[i].key == entries[i].key == Keys(entries)[i];
    assert Keys(entries) == Keys(before) + [entries[|before|].key];
  }

  /** What a poll publishes about a device: its transitions since the baseline, or nothing if it is not in the list. */
  lemma {:induction false} PollEventsOf(prev: Baseline, current: seq<Entry<string, Device>>, id: string)
    requires KeyedById(current)
    ensures Of(PollEvents(prev, current), id) == if id in AsMap(current) then Transitions(Lookup(prev, id), AsMap(current)[id]) else []
  {
    if current != [] {
      var before, last := current[..|current| - 1], current[|current| - 1];
      var device := last.value;
      KeysOfPrefix(current);
      assert current == before + [last] && last in current;
      PollEventsOf(prev, before, id);
      TransitionsOf(Lookup(prev, device.id), device, id);
      OfConcat(PollEvents(prev, before), Transitions(Lookup(prev, device.id), device), id);
      AsMapHas(before, id);
    }
  }

  // ----- Runs

  datatype Step = Listed(devices: seq<Device>) | Applied(device: Device)

  function Next(s: State, step: Step): State {
    match step
    case Listed(devices) => Poll(s, devices)
    case Applied(device) => ApplyKnown(s, device)
  }

  function Run(s: State, steps: seq<Step>): State {
    if steps == [] then s else Next(Run(s, steps[..|steps| - 1]), steps[|steps| - 1])
  }

  /** The changes from each report of a device to the next. */
  ghost function AllChanges(reports: seq<Device>): seq<HomeEvent> {
    if |reports| < 2 then []
    else AllChanges(reports[..|reports| - 1]) + Changes(reports[|reports| - 2], reports[|reports| - 1])
  }

  lemma OneMoreReport(reports: seq<Device>, d: Device)
    ensures AllChanges(reports + [d]) == AllChanges(reports) + if reports == [] then [] else Changes(reports[|reports| - 1], d)
  {
    assert (reports + [d])[..|reports|] == reports;
    if reports == [] { assert AllChanges([d]) == []; }
  }

  /** The baseline has the last report of the device, and the events about it are the changes between its reports. */
  ghost predicate Tracks(s: State, id: string) {
    var reports := ReportsOf(s.reports, id);
    && Of(s.log, id) == AllChanges(reports)
    && (reports != [] <==> s.baseline.Some? && id in s.baseline.value)
    && (reports != [] ==> reports[|reports| - 1] == s.baseline.value[id] && s.baseline.value[id].id == id)
  }

  lemma NotedFor(reports: map<string, seq<Device>>, current: Baseline, id: string)
    ensures ReportsOf(Noted(reports, current), id) == ReportsOf(reports, id) + if id in current then [current[id]] else []
  {
    assert ReportsOf(reports, id) + [] == ReportsOf(reports, id);
  }

  lemma PollLogOf(s: State, devices: seq<Device>, id: string)
    requires s.baseline.Some?
    ensures var current := AsMap(Current(devices));
            var told := if id in current then Transitions(Lookup(s.baseline.value, id), current[id]) else [];
            Of(Poll(s, devices).log, id) == Of(s.log, id) + told
  {
    CurrentIsKeyed(devices);
    PollEventsOf(s.baseline.value, Current(devices), id);
    OfConcat(s.log, PollEvents(s.baseline.value, Current(devices)), id);
  }

  lemma FirstPollTracks(s: State, devices: seq<Device>, id: string)
    requires Tracks(s, id) && s.baseline.None? && s.log == []
    ensures Tracks(Poll(s, devices), id)
  {
    var current := AsMap(Current(devices));
    CurrentIsKeyed(devices);
    AsMapHas(Current(devices), id);
    NotedFor(s.reports, current, id);
    if id in current { OneMoreReport([], current[id]); }
  }

  lemma LaterPollTracks(s: State, devices: seq<Device>, id: string)
    requires Tracks(s, id) && s.baseline.Some?
    ensures Tracks(Poll(s, devices), id)
  {
    var current, reports := AsMap(Current(devices)), ReportsOf(s.reports, id);
    CurrentIsKeyed(devices);
    AsMapHas(Current(devices), id);
    NotedFor(s.reports, current, id);
    PollLogOf(s, devices, id);
    if id in current {
      OneMoreReport(reports, current[id]);
    } else {
      assert Of(s.log, id) + [] == Of(s.log, id) && reports + [] == reports;
    }
  }

  lemma ApplyTracks(s: State, device: Device, id: string)
    requires Tracks(s, id)
    ensures Tracks(ApplyKnown(s, device), id)
  {
    if s.baseline.Some? {
      var base := s.baseline.value;
      NotedFor(s.reports, map[device.id := device], id);
      TransitionsOf(Lookup(base, device.id), device, id);
      OfConcat(s.log, Transitions(Lookup(base, device.id), device), id);
      if id == device.id {
        OneMoreReport(ReportsOf(s.reports, id), device);
      } else {
        assert Of(s.log, id) + [] == Of(s.log, id) && ReportsOf(s.reports, id) + [] == ReportsOf(s.reports, id);
      }
    }
  }

  lemma {:induction false} NothingBeforeTheFirstPoll(steps: seq<Step>)
    ensures Run(START, steps).baseline.None? ==> Run(START, steps) == START
  {
    if steps != [] { NothingBeforeTheFirstPoll(steps[..|steps| - 1]); }
  }

  /**
   * Over any run of full or partial lists and applied states, the events published about a device are exactly the changes
   * from each of its reports to the next, in order: an outage loses none and none is published twice.
   */
  lemma {:induction false} EventsAreTheChanges(steps: seq<Step>, id: string)
    ensures Tracks(Run(START, steps), id)
  {
    if steps != [] {
      var before := steps[..|steps| - 1];
      EventsAreTheChanges(before, id);
      NothingBeforeTheFirstPoll(before);
      match steps[|steps| - 1]
      case Listed(devices) =>
        if Run(START, before).baseline.None? {
          FirstPollTracks(START, devices, id);
        } else {
          LaterPollTracks(Run(START, before), devices, id);
        }
      case Applied(device) => ApplyTracks(Run(START, before), device, id);
    }
  }

  // ----- Reports, told by the steps

  /** The device with this id that a list has last. */
  ghost function LastListed(devices: seq<Device>, id: string): Option<Device> {
    if devices == [] then None
    else if devices[|devices| - 1].id == id then Some(devices[|devices| - 1])
    else LastListed(devices[..|devices| - 1], id)
  }

  ghost predicate Polled(steps: seq<Step>) { exists i :: 0 <= i < |steps| && steps[i].Listed? }

  /** What a device reports over some steps: its entry in every list, and every state applied to it after the first list. */
  ghost function ReportedIn(steps: seq<Step>, id: string): seq<Device> {
    if steps == [] then []
    else
      var before := steps[..|steps| - 1];
      ReportedIn(before, id)
      + match steps[|steps| - 1]
        case Listed(devices) => if LastListed(devices, id).Some? then [LastListed(devices, id).value] else []
        case Applied(device) => if device.id == id && Polled(before) then [device] else []
  }

  lemma AsMapIsGet(entries: seq<Entry<string, Device>>, id: string)
    requires KeyedById(entries)
    ensures Lookup(AsMap(entries), id) == if Has(entries, id) then Some(Get(entries, id)) else None
  {
    AsMapHas(entries, id);
    if Has(entries, id) { OnlyEntry(entries, id, Entry(id, AsMap(entries)[id])); }
  }

  lemma {:induction false} CurrentHasTheLast(devices: seq<Device>, id: string)
    ensures Lookup(AsMap(Current(devices)), id) == LastListed(devices, id)
  {
    if devices != [] {
      var before, last := devices[..|devices| - 1], devices[|devices| - 1];
      CurrentHasTheLast(before, id);
      CurrentIsKeyed(before);
      CurrentIsKeyed(devices);
      AsMapIsGet(Current(before), id);
      AsMapIsGet(Current(devices), id);
      GetAfterSet(Current(before), last.id, last, id);
    }
  }

  lemma PolledOneMore(steps: seq<Step>)
    requires steps != []
    ensures Polled(steps) <==> Polled(steps[..|steps| - 1]) || steps[|steps| - 1].Listed?
  {
    var before := steps[..|steps| - 1];
    if Polled(before) {
      var i :| 0 <= i < |before| && before[i].Listed?;
      assert steps[i].Listed?;
    }
  }

  lemma {:induction false} BaselineSinceThePoll(steps: seq<Step>)
    ensures Run(START, steps).baseline.Some? <==> Polled(steps)
  {
    if steps != [] {
      BaselineSinceThePoll(steps[..|steps| - 1]);
      PolledOneMore(steps);
    }
  }

  /** The reports that the state remembers are those of the steps. */
  lemma {:induction false} ReportsAreOfTheSteps(steps: seq<Step>, id: string)
    ensures ReportsOf(Run(START, steps).reports, id) == ReportedIn(steps, id)
  {
    if steps != [] {
      var before := steps[..|steps| - 1];
      var s := Run(START, before);
      ReportsAreOfTheSteps(before, id);
      BaselineSinceThePoll(before);
      match steps[|steps| - 1]
      case Listed(devices) =>
        NotedFor(s.reports, AsMap(Current(devices)), id);
        CurrentHasTheLast(devices, id);
      case Applied(device) =>
        NotedFor(s.reports, map[device.id := device], id);
        assert ReportedIn(before, id) + [] == ReportedIn(before, id);
    }
  }

  /** So the steps alone tell what is published about a device, and what is known of it. */
  lemma PublishedAre(steps: seq<Step>, id: string)
    ensures var s, reports := Run(START, steps), ReportedIn(steps, id);
            && Of(s.log, id) == AllChanges(reports)
            && (if s.baseline.Some? then Lookup(s.baseline.value, id) else None)
               == if reports == [] then None else Some(reports[|reports| - 1])
  {
    ReportsAreOfTheSteps(steps, id);
    EventsAreTheChanges(steps, id);
  }

  // ----- Outages

  /** The step does not list the device, or lists it without the metric, as an unreachable device is listed. */
  ghost predicate Mute(step: Step, id: string, metric: string) {
    match step
    case Listed(devices) => forall d :: d in devices && d.id == id ==> metric !in Values(d.readings)
    case Applied(device) => device.id == id ==> metric !in Values(device.readings)
  }

  /** The device is not in the step at all. */
  ghost predicate Silent(step: Step, id: string) {
    match step
    case Listed(devices) => forall d :: d in devices ==> d.id != id
    case Applied(device) => device.id != id
  }

  ghost predicate Known(s: State, id: string) { s.baseline.Some? && id in s.baseline.value }

  ghost function Last(s: State, id: string, metric: string): Option<real>
    requires Known(s, id)
  {
    ValueOf(Values(s.baseline.value[id].readings), metric)
  }

  lemma StepKeeps(s: State, step: Step, id: string)
    requires Known(s, id)
    ensures var t := Next(s, step);
            && Known(t, id)
            && (t.baseline.value[id] == s.baseline.value[id]
                || (step.Listed? && t.baseline.value[id] in step.devices && t.baseline.value[id].id == id)
                || (step.Applied? && t.baseline.value[id] == step.device && step.device.id == id))
  {
    if step.Listed? {
      CurrentIsKeyed(step.devices);
      AsMapHas(Current(step.devices), id);
    }
  }

  /** While a device is missing from the lists, its baseline stays. */
  lemma {:induction false} OutageKeepsBaseline(s: State, steps: seq<Step>, id: string)
    requires Known(s, id) && forall i :: 0 <= i < |steps| ==> Silent(steps[i], id)
    ensures Known(Run(s, steps), id) && Run(s, steps).baseline.value[id] == s.baseline.value[id]
  {
    if steps != [] {
      OutageKeepsBaseline(s, steps[..|steps| - 1], id);
      assert Silent(steps[|steps| - 1], id);
      StepKeeps(Run(s, steps[..|steps| - 1]), steps[|steps| - 1], id);
    }
  }

  /** While a metric is not reported, the last value of it stays as it was or is dropped, but never changes. */
  lemma {:induction false} MuteKeepsOrDrops(s: State, steps: seq<Step>, id: string, metric: string)
    requires Known(s, id) && forall i :: 0 <= i < |steps| ==> Mute(steps[i], id, metric)
    ensures Known(Run(s, steps), id) && Last(Run(s, steps), id, metric) in {None, Last(s, id, metric)}
  {
    if steps != [] {
      MuteKeepsOrDrops(s, steps[..|steps| - 1], id, metric);
      assert Mute(steps[|steps| - 1], id, metric);
      StepKeeps(Run(s, steps[..|steps| - 1]), steps[|steps| - 1], id);
    }
  }

  lemma {:induction false} ReadingEventIn(antes: map<string, real>, readings: seq<Reading>, id: string, r: Reading)
    requires r in readings && ValueOf(antes, r.metric) != Some(r.value)
    ensures SensorReading(id, r.metric, r.value, ValueOf(antes, r.metric)) in ReadingEvents(antes, readings, id)
  {
    if readings[|readings| - 1] != r { ReadingEventIn(antes, readings[..|readings| - 1], id, r); }
  }

  lemma {:induction false} CurrentHas(devices: seq<Device>, id: string)
    requires exists d :: d in devices && d.id == id
    ensures id in Keys(Current(devices))
  {
    var before, last := devices[..|devices| - 1], devices[|devices| - 1];
    assert devices == before + [last];
    KeysAfterSet(Current(before), last.id, last);
    if last.id != id { CurrentHas(before, id); }
  }

  /** A reading that differs from the last report, or was not in it, is published by the poll that lists it. */
  lemma ChangeIsPublished(s: State, devices: seq<Device>, d: Device, r: Reading)
    requires Known(s, d.id) && d in devices && r in d.readings && (forall e :: e in devices && e.id == d.id ==> e == d)
    requires Last(s, d.id, r.metric) != Some(r.value)
    ensures SensorReading(d.id, r.metric, r.value, Last(s, d.id, r.metric)) in PollEvents(s.baseline.value, Current(devices))
  {
    CurrentHas(devices, d.id);
    CurrentIsKeyed(devices);
    AsMapHas(Current(devices), d.id);
    PollEventsOf(s.baseline.value, Current(devices), d.id);
    OfMembers(PollEvents(s.baseline.value, Current(devices)), d.id);
    ReadingEventIn(Values(s.baseline.value[d.id].readings), d.readings, d.id, r);
  }

  /**
   * A reading that changed during an outage, whether the device was missing or listed without it, is published by the
   * first poll that reports it again, with the value before the outage or none as the previous one.
   */
  lemma ChangeDuringOutageIsPublished(s: State, outage: seq<Step>, devices: seq<Device>, d: Device, r: Reading)
    requires Known(s, d.id) && (forall i :: 0 <= i < |outage| ==> Mute(outage[i], d.id, r.metric))
    requires d in devices && r in d.readings && (forall e :: e in devices && e.id == d.id ==> e == d)
    requires Last(s, d.id, r.metric) != Some(r.value)
    ensures var t := Run(s, outage);
            && Known(t, d.id) && Last(t, d.id, r.metric) in {None, Last(s, d.id, r.metric)}
            && SensorReading(d.id, r.metric, r.value, Last(t, d.id, r.metric)) in PollEvents(t.baseline.value, Current(devices))
  {
    MuteKeepsOrDrops(s, outage, d.id, r.metric);
    ChangeIsPublished(Run(s, outage), devices, d, r);
  }
}
