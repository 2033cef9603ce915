/** Smoke and CO alerts (alarm/life-safety.ts), the consumer of the watcher's events that must not miss one. */
module LifeSafety {
  import opened Options
  import opened IotWatcher
  import opened IotReports

  predicate IsLifeSafetyMetric(metric: string) { metric == "smoke" || metric == "co" }

  datatype AvisoVital = AvisoVital(clave: string, deviceId: string, metric: string, accion: string)

  function ClaveDeAviso(deviceId: string, metric: string): string { deviceId + "::" + metric }

  /** Up from rest to active, or active when first heard of. */
  predicate Rises(value: real, prevValue: Option<real>) {
    value >= 1.0 && !(prevValue.Some? && prevValue.value >= 1.0)
  }

  /** When each alert was last given, by key. */
  type LastAlerts = map<string, int>

  predicate WithinWindow(clave: string, ultimosAvisos: LastAlerts, now: int, ventanaMs: int) {
    clave in ultimosAvisos && now - ultimosAvisos[clave] < ventanaMs
  }

  function DecideAvisoVital(event: HomeEvent, ultimosAvisos: LastAlerts, now: int, ventanaMs: int): Option<AvisoVital> {
    if !event.SensorReading? || !IsLifeSafetyMetric(event.metric) then None
    else if !Rises(event.value, event.prevValue) then None
    else
      var clave := ClaveDeAviso(event.deviceId, event.metric);
      if WithinWindow(clave, ultimosAvisos, now, ventanaMs) then None
      else Some(AvisoVital(clave, event.deviceId, event.metric, if event.metric == "smoke" then "alarm.smoke" else "alarm.co"))
  }

  /** No two pairs of device and life-safety metric share a key, whatever the ids. */
  lemma KeysTellApart(a: string, m: string, b: string, n: string)
    requires IsLifeSafetyMetric(m) && IsLifeSafetyMetric(n) && ClaveDeAviso(a, m) == ClaveDeAviso(b, n)
    ensures a == b && m == n
  {
    var k := ClaveDeAviso(a, m);
    assert k[|k| - 1] == m[|m| - 1] && k[|k| - 1] == n[|n| - 1];
    assert m == n;
    assert a == k[..|k| - |m| - 2] && b == k[..|k| - |n| - 2];
  }

  /** An alert that names the device and what it smelled, unless the same one was given within the window. */
  function AlertUnlessRecent(deviceId: string, metric: string, ultimosAvisos: LastAlerts, now: int, ventanaMs: int): Option<AvisoVital> {
    var clave := ClaveDeAviso(deviceId, metric);
    if WithinWindow(clave, ultimosAvisos, now, ventanaMs) then None
    else Some(AvisoVital(clave, deviceId, metric, "alarm." + metric))
  }

  /**
   * Smoke or CO that began during an outage, whether the detector was missing from the lists or listed without readings:
   * the first poll that reports it publishes an event that alerts, unless the same device and metric alerted within the
   * window.
   */
  lemma RiseDuringOutageAlerts(s: State, outage: seq<Step>, devices: seq<Device>, d: Device, r: Reading,
                               ultimosAvisos: LastAlerts, now: int, ventanaMs: int)
    requires Known(s, d.id) && (forall i :: 0 <= i < |outage| ==> Mute(outage[i], d.id, r.metric))
    requires d in devices && r in d.readings && (forall e :: e in devices && e.id == d.id ==> e == d)
    requires IsLifeSafetyMetric(r.metric) && Rises(r.value, Last(s, d.id, r.metric))
    ensures var t := Run(s, outage);
            && Known(t, d.id)
            && var e := SensorReading(d.id, r.metric, r.value, Last(t, d.id, r.metric));
               && e in PollEvents(t.baseline.value, Current(devices))
               && DecideAvisoVital(e, ultimosAvisos, now, ventanaMs) == AlertUnlessRecent(d.id, r.metric, ultimosAvisos, now, ventanaMs)
  {
    ChangeDuringOutageIsPublished(s, outage, devices, d, r);
    ActionNamesMetric(r.metric);
  }

  /** Smoke or CO that comes back after the detector was listed without it alerts, even if it was active before. */
  lemma ReturnAlerts(s: State, devices: seq<Device>, d: Device, r: Reading, ultimosAvisos: LastAlerts, now: int, ventanaMs: int)
    requires Known(s, d.id) && d in devices && r in d.readings && (forall e :: e in devices && e.id == d.id ==> e == d)
    requires IsLifeSafetyMetric(r.metric) && r.value >= 1.0 && Last(s, d.id, r.metric) == None
    ensures var e := SensorReading(d.id, r.metric, r.value, None);
            && e in PollEvents(s.baseline.value, Current(devices))
            && DecideAvisoVital(e, ultimosAvisos, now, ventanaMs) == AlertUnlessRecent(d.id, r.metric, ultimosAvisos, now, ventanaMs)
  {
    ChangeIsPublished(s, devices, d, r);
    ActionNamesMetric(r.metric);
  }

  lemma ActionNamesMetric(metric: string)
    requires IsLifeSafetyMetric(metric)
    ensures (if metric == "smoke" then "alarm.smoke" else "alarm.co") == "alarm." + metric
  {
    assert "alarm." + "smoke" == "alarm.smoke" && "alarm." + "co" == "alarm.co";
  }

  // ----- What is never told

  ghost predicate Active(d: Device, metric: string) {
    metric in Values(d.readings) && Values(d.readings)[metric] >= 1.0
  }

  ghost predicate IsRise(e: HomeEvent, metric: string) {
    e.SensorReading? && e.metric == metric && Rises(e.value, e.prevValue)
  }

  lemma {:induction false} ReadingEventMeans(antes: map<string, real>, readings: seq<Reading>, id: string, e: HomeEvent)
    requires e in ReadingEvents(antes, readings, id)
    ensures e.SensorReading? && e.prevValue == ValueOf(antes, e.metric)
  {
    var before := readings[..|readings| - 1];
    if e in ReadingEvents(antes, before, id) { ReadingEventMeans(antes, before, id, e); }
  }

  /** A change between two reports rises only if the first was not active; and it does if the second is. */
  lemma ChangeRisesIff(before: Device, after: Device, metric: string)
    requires Active(after, metric)
    ensures (exists e :: e in Changes(before, after) && IsRise(e, metric)) <==> !Active(before, metric)
  {
    var antes := Values(before.readings);
    if !Active(before, metric) {
      var r := Reading(metric, Values(after.readings)[metric]);
      LastOfMetric(after.readings, metric);
      ReadingEventIn(antes, after.readings, after.id, r);
      assert IsRise(SensorReading(after.id, metric, r.value, ValueOf(antes, metric)), metric);
    }
    if e :| e in Changes(before, after) && IsRise(e, metric) {
      ReadingEventMeans(antes, after.readings, after.id, e);
    }
  }

  lemma RiseMeansInactiveBefore(before: Device, after: Device, metric: string)
    requires exists e :: e in Changes(before, after) && IsRise(e, metric)
    ensures !Active(before, metric)
  {
    var e :| e in Changes(before, after) && IsRise(e, metric);
    ReadingEventMeans(Values(before.readings), after.readings, after.id, e);
  }

  lemma {:induction false} RiseMeansInactiveOnce(reports: seq<Device>, metric: string)
    requires exists e :: e in AllChanges(reports) && IsRise(e, metric)
    ensures exists j :: 0 <= j < |reports| - 1 && !Active(reports[j], metric)
  {
    var n := |reports|;
    var before := reports[..n - 1];
    var e :| e in AllChanges(reports) && IsRise(e, metric);
    if e in AllChanges(before) {
      RiseMeansInactiveOnce(before, metric);
      var j :| 0 <= j < n - 2 && !Active(before[j], metric);
      assert !Active(reports[j], metric);
    } else {
      RiseMeansInactiveBefore(reports[n - 2], reports[n - 1], metric);
    }
  }

  lemma {:induction false} InactiveOnceIsTold(reports: seq<Device>, metric: string, j: nat) returns (e: HomeEvent)
    requires j < |reports| && !Active(reports[j], metric) && Active(reports[|reports| - 1], metric)
    ensures e in AllChanges(reports) && IsRise(e, metric)
  {
    var n := |reports|;
    if Active(reports[n - 2], metric) {
      e := InactiveOnceIsTold(reports[..n - 1], metric, j);
      assert AllChanges(reports) == AllChanges(reports[..n - 1]) + Changes(reports[n - 2], reports[n - 1]);
    } else {
      assert AllChanges(reports) == AllChanges(reports[..n - 1]) + Changes(reports[n - 2], reports[n - 1]);
      ChangeRisesIff(reports[n - 2], reports[n - 1], metric);
      e :| e in Changes(reports[n - 2], reports[n - 1]) && IsRise(e, metric);
    }
  }

  /**
   * Of a detector that is active, some rise has been told if and only if one of its earlier reports was not active. Smoke
   * that was already there when the detector was first seen is never told while it lasts.
   */
  lemma ActiveIsToldIff(reports: seq<Device>, metric: string)
    requires reports != [] && Active(reports[|reports| - 1], metric)
    ensures (exists e :: e in AllChanges(reports) && IsRise(e, metric)) <==> exists j :: 0 <= j < |reports| && !Active(reports[j], metric)
  {
    if exists e :: e in AllChanges(reports) && IsRise(e, metric) { RiseMeansInactiveOnce(reports, metric); }
    if j :| 0 <= j < |reports| && !Active(reports[j], metric) {
      var e := InactiveOnceIsTold(reports, metric, j);
    }
  }

  /** The same over runs of the watcher: the events on the bus, for a device whose last report is active. */
  lemma NeverToldIffActiveSinceFirstSeen(steps: seq<Step>, id: string, metric: string)
    requires var reports := ReportedIn(steps, id); reports != [] && Active(reports[|reports| - 1], metric)
    ensures (forall e :: e in Run(START, steps).log && e.deviceId == id ==> !IsRise(e, metric))
            <==> forall j :: 0 <= j < |ReportedIn(steps, id)| ==> Active(ReportedIn(steps, id)[j], metric)
  {
    var s := Run(START, steps);
    PublishedAre(steps, id);
    ActiveIsToldIff(ReportedIn(steps, id), metric);
    OfMembers(s.log, id);
    OfHas(s.log, id);
  }

  lemma {:induction false} OfHas(es: seq<HomeEvent>, id: string)
    ensures forall e :: e in es && e.deviceId == id ==> e in Of(es, id)
    ensures forall e :: e in Of(es, id) ==> e.deviceId == id
  {
    if es != [] { OfHas(es[..|es| - 1], id); }
  }

  // ----- Alerts over a stream of events

  datatype Heard = Heard(event: HomeEvent, now: int)

  datatype Alert = Alert(clave: string, at: int)

  /** The service records an alert when it gives it. */
  datatype Alerting = Alerting(ultimosAvisos: LastAlerts, given: seq<Alert>)

  function Hear(s: Alerting, h: Heard, ventanaMs: int): Alerting {
    match DecideAvisoVital(h.event, s.ultimosAvisos, h.now, ventanaMs)
    case None => s
    case Some(a) => Alerting(s.ultimosAvisos[a.clave := h.now], s.given + [Alert(a.clave, h.now)])
  }

  function HearAll(stream: seq<Heard>, ventanaMs: int): Alerting {
    if stream == [] then Alerting(map[], [])
    else Hear(HearAll(stream[..|stream| - 1], ventanaMs), stream[|stream| - 1], ventanaMs)
  }

  /** The record holds, for each key, the last alert given, and no earlier one is later than it. */
  ghost predicate Recorded(s: Alerting) {
    && (forall k :: k in s.ultimosAvisos ==> Alert(k, s.ultimosAvisos[k]) in s.given)
    && (forall a :: a in s.given ==> a.clave in s.ultimosAvisos && a.at <= s.ultimosAvisos[a.clave])
  }

  ghost predicate Spaced(given: seq<Alert>, ventanaMs: int) {
    forall i, j :: 0 <= i < j < |given| && given[i].clave == given[j].clave ==> given[j].at - given[i].at >= ventanaMs
  }

  lemma HearKeeps(s: Alerting, h: Heard, ventanaMs: int)
    requires ventanaMs >= 0 && Recorded(s) && Spaced(s.given, ventanaMs)
    ensures Recorded(Hear(s, h, ventanaMs)) && Spaced(Hear(s, h, ventanaMs).given, ventanaMs)
  {
    var d := DecideAvisoVital(h.event, s.ultimosAvisos, h.now, ventanaMs);
    if d.Some? {
      var a := Alert(d.value.clave, h.now);
      forall i | 0 <= i < |s.given| && s.given[i].clave == a.clave ensures a.at - s.given[i].at >= ventanaMs {
        assert s.given[i] in s.given;
      }
      assert a in s.given + [a];
    }
  }

  /** Two alerts for the same device and metric are never closer than the window. */
  lemma {:induction false} AlertsAreSpaced(stream: seq<Heard>, ventanaMs: int)
    requires ventanaMs >= 0
    ensures Recorded(HearAll(stream, ventanaMs)) && Spaced(HearAll(stream, ventanaMs).given, ventanaMs)
  {
    if stream != [] {
      AlertsAreSpaced(stream[..|stream| - 1], ventanaMs);
      HearKeeps(HearAll(stream[..|stream| - 1], ventanaMs), stream[|stream| - 1], ventanaMs);
    }
  }

  /** Smoke or CO goes from rest, or from nothing known, to active. */
  ghost predicate VitalRise(e: HomeEvent) {
    e.SensorReading? && e.metric in {"smoke", "co"} && e.value >= 1.0 && (e.prevValue.None? || e.prevValue.value < 1.0)
  }

  lemma RiseIsDecided(e: HomeEvent, ultimosAvisos: LastAlerts, now: int, ventanaMs: int)
    requires VitalRise(e)
    ensures var a := DecideAvisoVital(e, ultimosAvisos, now, ventanaMs);
            if WithinWindow(ClaveDeAviso(e.deviceId, e.metric), ultimosAvisos, now, ventanaMs) then a == None
            else a.Some? && a.value.clave == ClaveDeAviso(e.deviceId, e.metric)
  {
  }

  /** Every rise of smoke or CO is alerted, or its device and metric alerted within the window before. */
  lemma EveryRiseIsHeard(before: seq<Heard>, h: Heard, ventanaMs: int)
    requires ventanaMs > 0 && VitalRise(h.event)
    ensures exists a :: a in HearAll(before + [h], ventanaMs).given
                     && a.clave == ClaveDeAviso(h.event.deviceId, h.event.metric) && h.now - a.at < ventanaMs
  {
    var s := HearAll(before, ventanaMs);
    var clave := ClaveDeAviso(h.event.deviceId, h.event.metric);
    AlertsAreSpaced(before, ventanaMs);
    assert (before + [h])[..|before|] == before;
    var t := Hear(s, h, ventanaMs);
    assert HearAll(before + [h], ventanaMs) == t;
    RiseIsDecided(h.event, s.ultimosAvisos, h.now, ventanaMs);
    if WithinWindow(clave, s.ultimosAvisos, h.now, ventanaMs) {
      assert Alert(clave, s.ultimosAvisos[clave]) in t.given;
    } else {
      assert Alert(clave, h.now) in t.given;
    }
  }

  /** And nothing else alerts: every alert is of a rise in the stream, at its instant. */
  lemma {:induction false} OnlyRisesAlert(stream: seq<Heard>, ventanaMs: int, a: Alert)
    requires a in HearAll(stream, ventanaMs).given
    ensures exists h :: h in stream && VitalRise(h.event) && a == Alert(ClaveDeAviso(h.event.deviceId, h.event.metric), h.now)
  {
    var before, last := stream[..|stream| - 1], stream[|stream| - 1];
    assert stream == before + [last];
    if a in HearAll(before, ventanaMs).given {
      OnlyRisesAlert(before, ventanaMs, a);
    }
  }
}
