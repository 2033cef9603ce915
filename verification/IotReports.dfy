/**
 * What the events about one device tell a subscriber who knew its first report (automations/iot-watcher.ts): the values it
 * ends with, the events that tell it nothing new, and the changes of the switch that it misses.
 */
module IotReports {
  import opened Options
  import opened IotWatcher

  /** What a subscriber knows of a device. */
  datatype View = View(on: Option<bool>, values: map<string, real>)

  ghost function ViewOf(d: Device): View { View(d.on, Values(d.readings)) }

  ghost function See(v: View, e: HomeEvent): View {
    match e
    case IotOn(_) => v.(on := Some(true))
    case IotOff(_) => v.(on := Some(false))
    case SensorReading(_, metric, value, _) => v.(values := v.values[metric := value])
  }

  ghost function Fold(v: View, es: seq<HomeEvent>): View {
    if es == [] then v else See(Fold(v, es[..|es| - 1]), es[|es| - 1])
  }

  /** The event tells something that the subscriber did not know. */
  ghost predicate News(v: View, e: HomeEvent) { See(v, e) != v }

  ghost predicate AllNews(v: View, es: seq<HomeEvent>) {
    es == [] || (AllNews(v, es[..|es| - 1]) && News(Fold(v, es[..|es| - 1]), es[|es| - 1]))
  }

  lemma {:induction false} FoldConcat(v: View, a: seq<HomeEvent>, b: seq<HomeEvent>)
    ensures Fold(v, a + b) == Fold(Fold(v, a), b)
    ensures AllNews(v, a + b) <==> AllNews(v, a) && AllNews(Fold(v, a), b)
    decreases |b|
  {
    if b == [] {
      assert a + b == a;
    } else {
      assert (a + b)[..|a + b| - 1] == a + b[..|b| - 1];
      FoldConcat(v, a, b[..|b| - 1]);
    }
  }

  lemma OneMore(v: View, es: seq<HomeEvent>, e: HomeEvent)
    ensures Fold(v, es + [e]) == See(Fold(v, es), e)
    ensures AllNews(v, es + [e]) <==> AllNews(v, es) && News(Fold(v, es), e)
  {
    assert (es + [e])[..|es|] == es;
  }

  // ----- One report after another

  ghost predicate UniqueMetrics(readings: seq<Reading>) {
    forall i, j :: 0 <= i < j < |readings| ==> readings[i].metric != readings[j].metric
  }

  lemma {:induction false} MetricsOf(readings: seq<Reading>, metric: string)
    ensures metric in Values(readings) <==> exists i :: 0 <= i < |readings| && readings[i].metric == metric
  {
    if readings != [] {
      MetricsOf(readings[..|readings| - 1], metric);
      assert readings[|readings| - 1].metric == metric ==> metric in Values(readings);
    }
  }

  ghost predicate HasAll(values: map<string, real>, some: map<string, real>) {
    forall m :: m in some ==> ValueOf(values, m) == Some(some[m])
  }

  /** From v to u only these values changed, and u has them. */
  ghost predicate Followed(v: View, u: View, values: map<string, real>) {
    u.on == v.on && forall m :: ValueOf(u.values, m) == if m in values then Some(values[m]) else ValueOf(v.values, m)
  }

  /** A metric that was not in the report before comes with the very value that is known. */
  ghost predicate Repeats(known: map<string, real>, antes: map<string, real>, values: map<string, real>) {
    exists m :: m in values && m !in antes && ValueOf(known, m) == Some(values[m])
  }

  lemma OneReading(v: View, u: View, before: map<string, real>, antes: map<string, real>, r: Reading, id: string)
    requires Followed(v, u, before) && HasAll(v.values, antes) && r.metric !in before
    ensures var prev := ValueOf(antes, r.metric);
            var e := SensorReading(id, r.metric, r.value, prev);
            && (Some(r.value) == prev ==> Followed(v, u, before[r.metric := r.value]))
            && (Some(r.value) != prev ==> Followed(v, See(u, e), before[r.metric := r.value]))
            && (Some(r.value) != prev ==> (News(u, e) <==> prev.Some? || ValueOf(v.values, r.metric) != Some(r.value)))
  {
    var prev := ValueOf(antes, r.metric);
    var e := SensorReading(id, r.metric, r.value, prev);
    assert ValueOf(u.values, r.metric) == ValueOf(v.values, r.metric);
    if ValueOf(u.values, r.metric) == Some(r.value) {
      assert u.values[r.metric := r.value] == u.values;
    } else {
      assert ValueOf(See(u, e).values, r.metric) == Some(r.value);
    }
  }

  lemma RepeatsOneMore(known: map<string, real>, antes: map<string, real>, before: map<string, real>, r: Reading)
    requires r.metric !in before
    ensures Repeats(known, antes, before[r.metric := r.value])
            <==> Repeats(known, antes, before) || (r.metric !in antes && ValueOf(known, r.metric) == Some(r.value))
  {
    var now := before[r.metric := r.value];
    if Repeats(known, antes, before) {
      var m :| m in before && m !in antes && ValueOf(known, m) == Some(before[m]);
      assert m in now && now[m] == before[m];
    }
    if r.metric !in antes && ValueOf(known, r.metric) == Some(r.value) {
      assert r.metric in now && now[r.metric] == r.value;
    }
  }

  /** The readings are followed, and tell nothing known unless one repeats. */
  lemma {:induction false} ReadingsAreFollowed(v: View, antes: map<string, real>, readings: seq<Reading>, id: string)
    requires HasAll(v.values, antes) && UniqueMetrics(readings)
    ensures var es := ReadingEvents(antes, readings, id);
            && Followed(v, Fold(v, es), Values(readings))
            && (AllNews(v, es) <==> !Repeats(v.values, antes, Values(readings)))
  {
    if readings != [] {
      var before, r := readings[..|readings| - 1], readings[|readings| - 1];
      var es, prev := ReadingEvents(antes, before, id), ValueOf(antes, r.metric);
      ReadingsAreFollowed(v, antes, before, id);
      MetricsOf(before, r.metric);
      OneReading(v, Fold(v, es), Values(before), antes, r, id);
      RepeatsOneMore(v.values, antes, Values(before), r);
      if Some(r.value) != prev {
        OneMore(v, es, SensorReading(id, r.metric, r.value, prev));
      } else {
        assert es + [] == es;
      }
    }
  }

  /** The switch is seen to change: both reports have one, in different positions. */
  ghost predicate Switched(before: Device, after: Device) {
    before.on.Some? && after.on.Some? && before.on.value != after.on.value
  }

  lemma SwitchIsFollowed(v: View, before: Device, after: Device)
    ensures var es := SwitchEvents(before, after);
            && Fold(v, es) == v.(on := if Switched(before, after) then after.on else v.on)
            && (AllNews(v, es) <==> !Switched(before, after) || v.on != after.on)
  {
    var es := SwitchEvents(before, after);
    if Switched(before, after) {
      assert [] + [es[0]] == es;
      OneMore(v, [], es[0]);
      assert after.on == Some(after.on.value);
    }
  }

  /** What the changes from one report to the next do to a view that has the values of the first. */
  lemma ChangesAreFollowed(v: View, before: Device, after: Device)
    requires HasAll(v.values, Values(before.readings)) && UniqueMetrics(after.readings)
    ensures var es := Changes(before, after);
            var u := Fold(v, es);
            && u.on == (if Switched(before, after) then after.on else v.on)
            && (forall m :: ValueOf(u.values, m)
                            == if m in Values(after.readings) then Some(Values(after.readings)[m]) else ValueOf(v.values, m))
            && (AllNews(v, es) <==>
                  && (Switched(before, after) ==> v.on != after.on)
                  && !Repeats(v.values, Values(before.readings), Values(after.readings)))
  {
    var switch, more := SwitchEvents(before, after), ReadingEvents(Values(before.readings), after.readings, after.id);
    SwitchIsFollowed(v, before, after);
    FoldConcat(v, switch, more);
    ReadingsAreFollowed(Fold(v, switch), Values(before.readings), after.readings, after.id);
  }

  // ----- All reports of a device

  ghost predicate AllUnique(reports: seq<Device>) { forall i :: 0 <= i < |reports| ==> UniqueMetrics(reports[i].readings) }

  /** The view after the events that follow the first report. */
  ghost function ViewAfter(reports: seq<Device>): View
    requires reports != []
  {
    Fold(ViewOf(reports[0]), AllChanges(reports))
  }

  /** The value in the last report that had the metric. */
  ghost function LastReported(reports: seq<Device>, metric: string): Option<real> {
    if reports == [] then None
    else
      var values := Values(reports[|reports| - 1].readings);
      if metric in values then Some(values[metric]) else LastReported(reports[..|reports| - 1], metric)
  }

  /** The switch as it was last seen to change, or as it was first reported. */
  ghost function LastTold(reports: seq<Device>): Option<bool>
    requires reports != []
  {
    var n := |reports|;
    if n == 1 then reports[0].on
    else if Switched(reports[n - 2], reports[n - 1]) then reports[n - 1].on
    else LastTold(reports[..n - 1])
  }

  /** A subscriber knows the last value reported of every metric, and the switch as it was last told. */
  lemma {:induction false} ViewMeans(reports: seq<Device>)
    requires reports != [] && AllUnique(reports)
    ensures ViewAfter(reports).on == LastTold(reports)
    ensures forall m :: ValueOf(ViewAfter(reports).values, m) == LastReported(reports, m)
  {
    var n := |reports|;
    if n == 1 {
      assert forall m :: LastReported([], m) == None;
      assert reports[..0] == [];
    } else {
      var before := reports[..n - 1];
      ViewMeans(before);
      LastReportIsKnown(before);
      ChangesAreFollowed(ViewAfter(before), reports[n - 2], reports[n - 1]);
      FoldConcat(ViewOf(reports[0]), AllChanges(before), Changes(reports[n - 2], reports[n - 1]));
    }
  }

  lemma LastReportIsKnown(reports: seq<Device>)
    requires reports != [] && forall m :: ValueOf(ViewAfter(reports).values, m) == LastReported(reports, m)
    ensures HasAll(ViewAfter(reports).values, Values(reports[|reports| - 1].readings))
  {
    forall m | m in Values(reports[|reports| - 1].readings)
      ensures ValueOf(ViewAfter(reports).values, m) == Some(Values(reports[|reports| - 1].readings)[m])
    {
      assert ValueOf(ViewAfter(reports).values, m) == LastReported(reports, m);
    }
  }

  /** Every metric still reported is known with its value. */
  lemma StillReportedIsKnown(reports: seq<Device>)
    requires reports != [] && AllUnique(reports)
    ensures HasAll(ViewAfter(reports).values, Values(reports[|reports| - 1].readings))
  {
    ViewMeans(reports);
    LastReportIsKnown(reports);
  }

  // ----- Told twice

  /** A metric that was missing from the report before k returns in k with the value that it last had. */
  ghost predicate Returns(reports: seq<Device>, k: nat, metric: string)
    requires 0 < k < |reports|
  {
    var before, now := Values(reports[k - 1].readings), Values(reports[k].readings);
    metric in now && metric !in before && LastReported(reports[..k], metric) == Some(now[metric])
  }

  /** In report k the switch changes to the position that was last told: it had changed unseen. */
  ghost predicate SwitchesBack(reports: seq<Device>, k: nat)
    requires 0 < k < |reports|
  {
    Switched(reports[k - 1], reports[k]) && LastTold(reports[..k]) == reports[k].on
  }

  ghost predicate TellsAgain(reports: seq<Device>, k: nat)
    requires 0 < k < |reports|
  {
    SwitchesBack(reports, k) || exists m :: Returns(reports, k, m)
  }

  lemma LastChangesAreNews(reports: seq<Device>)
    requires |reports| >= 2 && AllUnique(reports)
    ensures var n := |reports|;
            AllNews(ViewAfter(reports[..n - 1]), Changes(reports[n - 2], reports[n - 1])) <==> !TellsAgain(reports, n - 1)
  {
    var n := |reports|;
    var v := ViewAfter(reports[..n - 1]);
    ViewMeans(reports[..n - 1]);
    StillReportedIsKnown(reports[..n - 1]);
    ChangesAreFollowed(v, reports[n - 2], reports[n - 1]);
    RepeatsIffReturns(reports, v.values);
  }

  lemma RepeatsIffReturns(reports: seq<Device>, known: map<string, real>)
    requires |reports| >= 2 && forall m :: ValueOf(known, m) == LastReported(reports[..|reports| - 1], m)
    ensures var k := |reports| - 1;
            Repeats(known, Values(reports[k - 1].readings), Values(reports[k].readings)) <==> exists m :: Returns(reports, k, m)
  {
    var n := |reports|;
    var before, now := Values(reports[n - 2].readings), Values(reports[n - 1].readings);
    if Repeats(known, before, now) {
      var m :| m in now && m !in before && ValueOf(known, m) == Some(now[m]);
      assert Returns(reports, n - 1, m);
    }
    var k := n - 1;
    if m :| Returns(reports, k, m) {
      assert ValueOf(known, m) == LastReported(reports[..n - 1], m) == Some(now[m]);
    }
  }

  lemma EarlierReports(reports: seq<Device>, k: nat)
    requires 0 < k < |reports| - 1
    ensures TellsAgain(reports[..|reports| - 1], k) <==> TellsAgain(reports, k)
  {
    var before := reports[..|reports| - 1];
    assert before[..k] == reports[..k] && before[k] == reports[k] && before[k - 1] == reports[k - 1];
    assert forall m :: Returns(before, k, m) <==> Returns(reports, k, m);
  }

  ghost predicate NeverTellsAgain(reports: seq<Device>) { forall k :: 0 < k < |reports| ==> !TellsAgain(reports, k) }

  lemma NeverOneMore(reports: seq<Device>)
    requires |reports| >= 2
    ensures NeverTellsAgain(reports) <==> NeverTellsAgain(reports[..|reports| - 1]) && !TellsAgain(reports, |reports| - 1)
  {
    var n := |reports|;
    var before := reports[..n - 1];
    if NeverTellsAgain(before) && !TellsAgain(reports, n - 1) {
      forall k | 0 < k < n ensures !TellsAgain(reports, k) {
        if k < n - 1 { EarlierReports(reports, k); }
      }
    }
    if NeverTellsAgain(reports) {
      forall k | 0 < k < n - 1 ensures !TellsAgain(before, k) { EarlierReports(reports, k); }
    }
  }

  /** Every event about the device tells its subscribers something new. */
  ghost predicate OnlyNews(reports: seq<Device>)
    requires reports != []
  {
    AllNews(ViewOf(reports[0]), AllChanges(reports))
  }

  lemma NewsOneMore(reports: seq<Device>)
    requires |reports| >= 2 && AllUnique(reports)
    ensures OnlyNews(reports) <==> OnlyNews(reports[..|reports| - 1]) && !TellsAgain(reports, |reports| - 1)
  {
    var n := |reports|;
    FoldConcat(ViewOf(reports[0]), AllChanges(reports[..n - 1]), Changes(reports[n - 2], reports[n - 1]));
    LastChangesAreNews(reports);
  }

  /**
   * Every event about a device tells its subscribers something new if and only if no metric comes back with the value it
   * had when it was last reported, and no switch changes back after changing unseen.
   */
  lemma {:induction false} NothingIsToldTwiceIff(reports: seq<Device>)
    requires reports != [] && AllUnique(reports)
    ensures OnlyNews(reports) <==> NeverTellsAgain(reports)
  {
    if |reports| >= 2 {
      NothingIsToldTwiceIff(reports[..|reports| - 1]);
      NeverOneMore(reports);
      NewsOneMore(reports);
    }
  }

  /** A device that is listed as unreachable, without switch or readings, and returns as it was: all its readings are told again. */
  lemma UnreachableTellsAgain(d: Device)
    requires UniqueMetrics(d.readings)
    ensures var reports := [d, d.(on := None, readings := []), d];
            && AllChanges(reports) == ReadingEvents(map[], d.readings, d.id) && ViewAfter(reports) == ViewOf(d)
            && (d.readings != [] ==> |AllChanges(reports)| > 0 && !AllNews(ViewOf(d), AllChanges(reports)))
  {
    var gone := d.(on := None, readings := []);
    var reports := [d, gone, d];
    assert reports[..2] == [d, gone] && [d, gone][..1] == [d];
    assert AllChanges([d]) == [] && Changes(d, gone) == [] && AllChanges([d, gone]) == [];
    assert Changes(gone, d) == ReadingEvents(map[], d.readings, d.id);
    assert AllChanges(reports) == ReadingEvents(map[], d.readings, d.id);
    ReadingsAreFollowed(ViewOf(d), map[], d.readings, d.id);
    var u := Fold(ViewOf(d), AllChanges(reports));
    assert forall m :: ValueOf(u.values, m) == ValueOf(ViewOf(d).values, m);
    SameValues(u.values, Values(d.readings));
    if d.readings != [] {
      var m := d.readings[|d.readings| - 1].metric;
      assert m in Values(d.readings) && ValueOf(ViewOf(d).values, m) == Some(Values(d.readings)[m]);
      assert Repeats(ViewOf(d).values, map[], Values(d.readings));
    }
  }

  lemma SameValues(a: map<string, real>, b: map<string, real>)
    requires forall m :: ValueOf(a, m) == ValueOf(b, m)
    ensures a == b
  {
    assert forall m :: (m in a <==> ValueOf(a, m).Some?) && (m in b <==> ValueOf(b, m).Some?);
    assert forall m :: m in a ==> ValueOf(a, m) == Some(a[m]) && ValueOf(b, m) == Some(b[m]);
  }

  // ----- Two readings of one metric

  lemma {:induction false} LastOfMetric(readings: seq<Reading>, metric: string)
    requires metric in Values(readings)
    ensures Reading(metric, Values(readings)[metric]) in readings
  {
    if readings[|readings| - 1].metric != metric { LastOfMetric(readings[..|readings| - 1], metric); }
  }

  lemma SilentOneMore(antes: map<string, real>, before: seq<Reading>, last: Reading, id: string)
    ensures ReadingEvents(antes, before + [last], id) == [] <==>
              ReadingEvents(antes, before, id) == [] && ValueOf(antes, last.metric) == Some(last.value)
    ensures forall r :: r in before + [last] <==> r in before || r == last
  {
    assert (before + [last])[..|before|] == before;
  }

  lemma {:induction false} SilentIffKnown(antes: map<string, real>, readings: seq<Reading>, id: string)
    ensures ReadingEvents(antes, readings, id) == [] <==> forall r :: r in readings ==> ValueOf(antes, r.metric) == Some(r.value)
  {
    if readings != [] {
      var before, last := readings[..|readings| - 1], readings[|readings| - 1];
      SilentIffKnown(antes, before, id);
      assert readings == before + [last];
      SilentOneMore(antes, before, last, id);
    }
  }

  /**
   * A device that is listed again as it was publishes nothing if and only if its readings of one metric have one value;
   * otherwise the transition repeats at every poll, with nothing changing.
   */
  lemma UnchangedIsSilentIff(d: Device)
    ensures Changes(d, d) == [] <==> forall r, q :: r in d.readings && q in d.readings && r.metric == q.metric ==> r.value == q.value
  {
    var antes := Values(d.readings);
    SilentIffKnown(antes, d.readings, d.id);
    assert Changes(d, d) == ReadingEvents(antes, d.readings, d.id);
    forall r | r in d.readings ensures r.metric in antes && Reading(r.metric, antes[r.metric]) in d.readings {
      var i :| 0 <= i < |d.readings| && d.readings[i] == r;
      MetricsOf(d.readings, r.metric);
      LastOfMetric(d.readings, r.metric);
    }
  }

  // ----- Lost

  /** From report k on the switch is there, or is not, unlike before; it has not moved since, and it was told otherwise. */
  ghost predicate MissedAt(reports: seq<Device>, k: nat)
    requires 0 < k < |reports|
  {
    && (reports[k - 1].on.None? <==> reports[k].on.Some?)
    && (forall j :: k <= j < |reports| ==> reports[j].on == reports[k].on)
    && LastTold(reports[..k]) != reports[k].on
  }

  /**
   * A subscriber knows the position of the switch if and only if the switch did not, the last time it came or went, come
   * back elsewhere than it was told and stay there.
   */
  lemma {:induction false} SwitchIsKnownIff(reports: seq<Device>)
    requires reports != []
    ensures LastTold(reports) == reports[|reports| - 1].on <==> forall k :: 0 < k < |reports| ==> !MissedAt(reports, k)
  {
    var n := |reports|;
    if n >= 2 {
      var before, a, b := reports[..n - 1], reports[n - 2].on, reports[n - 1].on;
      SwitchIsKnownIff(before);
      forall k | 0 < k < n - 1 ensures MissedAt(reports, k) <==> MissedAt(before, k) && b == a {
        assert before[..k] == reports[..k];
        assert forall j :: 0 <= j < n - 1 ==> before[j] == reports[j];
        assert reports[n - 2].on == before[n - 2].on;
      }
      if a.None? <==> b.Some? {
        assert MissedAt(reports, n - 1) <==> LastTold(before) != b;
      } else {
        assert a != b ==> Switched(reports[n - 2], reports[n - 1]);
      }
    }
  }

  /** What the events tell is what the device last reported, as far as it can be told. */
  ghost predicate Explained(reports: seq<Device>, events: seq<HomeEvent>)
    requires reports != []
  {
    var v, last := Fold(ViewOf(reports[0]), events), reports[|reports| - 1];
    && HasAll(v.values, Values(last.readings))
    && (v.on == last.on <==> forall k :: 0 < k < |reports| ==> !MissedAt(reports, k))
    && (AllNews(ViewOf(reports[0]), events) <==> NeverTellsAgain(reports))
  }

  lemma ChangesExplain(reports: seq<Device>)
    requires reports != [] && AllUnique(reports)
    ensures Explained(reports, AllChanges(reports))
  {
    StillReportedIsKnown(reports);
    ViewMeans(reports);
    SwitchIsKnownIff(reports);
    NothingIsToldTwiceIff(reports);
  }

  /**
   * In any run of the watcher, from the first report of a device its events lead to every metric that it still reports;
   * its switch and the absence of repetitions depend on the reports as said above.
   */
  lemma EventsExplainTheBaseline(steps: seq<Step>, id: string)
    requires ReportedIn(steps, id) != [] && AllUnique(ReportedIn(steps, id))
    ensures Explained(ReportedIn(steps, id), Of(Run(START, steps).log, id))
  {
    PublishedAre(steps, id);
    ChangesExplain(ReportedIn(steps, id));
  }
}
