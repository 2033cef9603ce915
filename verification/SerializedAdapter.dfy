/**
 * The FIFO mutex and the serialized adapter of db/serialized-adapter.ts as a transition system
 * over the operations that reach the single connection.
 */
module SerializedAdapter {

  datatype Op = Query | Begin | Statement | Commit | Rollback

  /** An operation that reached the connection, and the turn it belongs to. */
  datatype Logged = Logged(owner: nat, op: Op)

  datatype Phase = Waiting | Issued | Beginning | Open | Gone

  /** One acquire of the mutex. `done` is the flag a transaction keeps so as to release once. */
  datatype Turn = Turn(isTx: bool, phase: Phase, ending: nat, done: bool)

  /**
   * `mine[i]` tells whether the promise of turn i is resolved: the chain of the mutex lets turn i
   * go on once every earlier promise is. `releases` counts the calls that resolve it, and
   * `intruded` records that a finished transaction was used after somebody else's operation.
   */
  datatype State = State(mine: seq<bool>, turns: seq<Turn>, log: seq<Logged>, releases: seq<nat>, intruded: bool) {

    ghost predicate Sized() { |mine| == |turns| == |releases| }

    ghost predicate Granted(i: nat)
      requires Sized() && i < |turns|
    {
      forall j :: 0 <= j < i ==> mine[j]
    }

    ghost function Release(i: nat): State
      requires Sized() && i < |turns|
    {
      this.(mine := mine[i := true], releases := releases[i := releases[i] + 1])
    }

    ghost function With(i: nat, t: Turn): State
      requires Sized() && i < |turns|
    {
      this.(turns := turns[i := t])
    }

    ghost function Issue(i: nat, op: Op): State { this.(log := log + [Logged(i, op)]) }
  }

  datatype Event = Ask(isTx: bool) | Proceed(i: nat) | QuerySettles(i: nat) | BeginSettles(i: nat, ok: bool)
                 | Use(i: nat, op: Op) | EndSettles(i: nat)

  ghost predicate Enabled(s: State, e: Event)
    requires s.Sized()
  {
    match e
    case Ask(_) => true
    case Proceed(i) => i < |s.turns| && s.turns[i].phase == Waiting && s.Granted(i)
    case QuerySettles(i) => i < |s.turns| && s.turns[i].phase == Issued
    case BeginSettles(i, _) => i < |s.turns| && s.turns[i].phase == Beginning
    case Use(i, op) => i < |s.turns| && s.turns[i].phase == Open && (op == Statement || op == Commit || op == Rollback)
    case EndSettles(i) => i < |s.turns| && s.turns[i].phase == Open && s.turns[i].ending > 0
  }

  /** A use of a transaction that has given its turn back, after somebody else's operation. */
  ghost predicate Intrudes(s: State, e: Event)
    requires s.Sized()
  {
    e.Use? && e.i < |s.turns| && s.mine[e.i] && s.log != [] && s.log[|s.log| - 1].owner != e.i
  }

  ghost function Step(s: State, e: Event): State
    requires s.Sized() && Enabled(s, e)
  {
    match e
    case Ask(isTx) =>
      s.(mine := s.mine + [false], turns := s.turns + [Turn(isTx, Waiting, 0, false)], releases := s.releases + [0])
    case Proceed(i) =>
      if s.turns[i].isTx then s.With(i, s.turns[i].(phase := Beginning)).Issue(i, Begin)
      else s.With(i, s.turns[i].(phase := Issued)).Issue(i, Query)
    case QuerySettles(i) => s.With(i, s.turns[i].(phase := Gone)).Release(i)
    case BeginSettles(i, ok) =>
      if ok then s.With(i, s.turns[i].(phase := Open))
      else s.With(i, s.turns[i].(phase := Gone)).Release(i)
    case Use(i, op) =>
      var ending := if op == Statement then s.turns[i].ending else s.turns[i].ending + 1;
      s.With(i, s.turns[i].(ending := ending)).Issue(i, op).(intruded := s.intruded || Intrudes(s, e))
    case EndSettles(i) =>
      var t := s.With(i, s.turns[i].(ending := s.turns[i].ending - 1, done := true));
      if s.turns[i].done then t else t.Release(i)
  }

  const START := State([], [], [], [], false)

  // ----- Blocks

  /** The operations of every turn are together: nobody else's operation lies between two of them. */
  ghost predicate Contiguous(log: seq<Logged>) {
    forall a, b, c :: 0 <= a < b < c < |log| && log[a].owner == log[c].owner ==> log[b].owner == log[a].owner
  }

  /** Turns reach the connection in the order in which they were asked for. */
  ghost predicate InOrder(log: seq<Logged>) {
    forall a, b :: 0 <= a < b < |log| ==> log[a].owner <= log[b].owner
  }

  ghost predicate Interrupted(log: seq<Logged>, a: int, b: int, c: int) {
    0 <= a < b < c < |log| && log[a].owner == log[c].owner && log[b].owner != log[a].owner
  }

  // ----- Invariant

  ghost predicate TurnOk(t: Turn, mine: bool, releases: nat) {
    && releases == (if mine then 1 else 0)
    && (mine <==> t.phase == Gone || t.done)
    && (t.done ==> t.phase == Open)
  }

  ghost predicate TurnsOk(s: State) {
    && s.Sized()
    && (forall i :: 0 <= i < |s.turns| ==> TurnOk(s.turns[i], s.mine[i], s.releases[i]))
    && (forall i :: 0 <= i < |s.turns| && s.turns[i].phase != Waiting ==> s.Granted(i))
  }

  ghost predicate HasBegun(p: Phase) { p == Open || p == Beginning }

  ghost predicate BeginLogged(log: seq<Logged>, i: nat) { exists a :: 0 <= a < |log| && log[a] == Logged(i, Begin) }

  ghost predicate LogOk(s: State)
    requires s.Sized()
  {
    && (forall a :: 0 <= a < |s.log| ==> s.log[a].owner < |s.turns| && s.turns[s.log[a].owner].phase != Waiting)
    && (forall i :: 0 <= i < |s.turns| && HasBegun(s.turns[i].phase) ==> BeginLogged(s.log, i))
    && (!s.intruded ==> InOrder(s.log))
    && (s.intruded ==> exists a, b, c :: Interrupted(s.log, a, b, c))
  }

  ghost predicate Inv(s: State) { TurnsOk(s) && LogOk(s) }

  /** A step resolves promises, never the reverse, and only a granted turn leaves the waiting phase. */
  lemma StepKeepsGrants(s: State, e: Event, i: nat)
    requires s.Sized() && Enabled(s, e) && i < |Step(s, e).turns|
    requires i < |s.turns| && s.turns[i].phase != Waiting ==> s.Granted(i)
    ensures Step(s, e).Sized()
    ensures Step(s, e).turns[i].phase != Waiting ==> i < |s.turns| && Step(s, e).Granted(i)
  {
  }

  lemma StepKeepsTurns(s: State, e: Event)
    requires TurnsOk(s) && Enabled(s, e)
    ensures TurnsOk(Step(s, e))
  {
    var t := Step(s, e);
    assert t.Sized();
    forall i | 0 <= i < |t.turns|
      ensures TurnOk(t.turns[i], t.mine[i], t.releases[i])
      ensures t.turns[i].phase != Waiting ==> t.Granted(i)
    {
      StepKeepsGrants(s, e, i);
    }
  }

  lemma StillInterrupted(log: seq<Logged>, entry: Logged)
    requires exists a, b, c :: Interrupted(log, a, b, c)
    ensures exists a, b, c :: Interrupted(log + [entry], a, b, c)
  {
    var a, b, c :| Interrupted(log, a, b, c);
    assert Interrupted(log + [entry], a, b, c);
  }

  /** What issuing an operation does to the order of the log. */
  lemma IssueOrder(s: State, i: nat, op: Op, intrudes: bool)
    requires TurnsOk(s) && LogOk(s) && i < |s.turns|
    requires intrudes <==> s.mine[i] && s.log != [] && s.log[|s.log| - 1].owner != i
    requires s.mine[i] ==> exists a :: 0 <= a < |s.log| && s.log[a].owner == i
    ensures !s.intruded && !intrudes ==> InOrder(s.log + [Logged(i, op)])
    ensures s.intruded || intrudes ==> exists a, b, c :: Interrupted(s.log + [Logged(i, op)], a, b, c)
  {
    var log := s.log + [Logged(i, op)];
    if s.intruded {
      StillInterrupted(s.log, Logged(i, op));
    } else if intrudes {
      var a :| 0 <= a < |s.log| && s.log[a].owner == i;
      assert Interrupted(log, a, |s.log| - 1, |s.log|);
    } else {
    }
  }

  lemma IssueKeepsLog(s: State, t: State, i: nat, op: Op)
    requires TurnsOk(s) && LogOk(s) && i < |s.turns| && t.Sized() && |t.turns| == |s.turns|
    requires t.log == s.log + [Logged(i, op)]
    requires forall j :: 0 <= j < |s.turns| && j != i ==> t.turns[j] == s.turns[j]
    requires t.turns[i].phase == s.turns[i].phase == Open
             || (t.turns[i].phase == Beginning && op == Begin) || t.turns[i].phase == Issued
    requires !t.intruded ==> InOrder(t.log)
    requires t.intruded ==> exists a, b, c :: Interrupted(t.log, a, b, c)
    ensures LogOk(t)
  {
    forall j | 0 <= j < |t.turns| && HasBegun(t.turns[j].phase) ensures BeginLogged(t.log, j) {
      if j == i && t.turns[i].phase == Beginning {
        assert t.log[|s.log|] == Logged(j, Begin);
      } else {
        StillLogged(s.log, Logged(i, op), j);
      }
    }
  }

  lemma StillLogged(log: seq<Logged>, entry: Logged, i: nat)
    requires BeginLogged(log, i)
    ensures BeginLogged(log + [entry], i)
  {
    var a :| 0 <= a < |log| && log[a] == Logged(i, Begin);
    assert (log + [entry])[a] == Logged(i, Begin);
  }

  lemma QuietStep(s: State, e: Event)
    requires s.Sized() && Enabled(s, e) && !e.Proceed? && !e.Use?
    ensures var t := Step(s, e);
            && t.Sized() && |s.turns| <= |t.turns| && t.log == s.log && t.intruded == s.intruded
            && (forall j :: 0 <= j < |t.turns| && HasBegun(t.turns[j].phase) ==> j < |s.turns| && HasBegun(s.turns[j].phase))
            && (forall j :: 0 <= j < |s.turns| && s.turns[j].phase != Waiting ==> t.turns[j].phase != Waiting)
  {
  }

  lemma ProceedKeepsLog(s: State, i: nat)
    requires Inv(s) && Enabled(s, Proceed(i))
    ensures Step(s, Proceed(i)).Sized() && LogOk(Step(s, Proceed(i)))
  {
    var op := if s.turns[i].isTx then Begin else Query;
    assert TurnOk(s.turns[i], s.mine[i], s.releases[i]);
    IssueOrder(s, i, op, false);
    IssueKeepsLog(s, Step(s, Proceed(i)), i, op);
  }

  lemma UseKeepsLog(s: State, i: nat, op: Op)
    requires Inv(s) && Enabled(s, Use(i, op))
    ensures Step(s, Use(i, op)).Sized() && LogOk(Step(s, Use(i, op)))
  {
    assert BeginLogged(s.log, i);
    var b :| 0 <= b < |s.log| && s.log[b] == Logged(i, Begin);
    assert s.log[b].owner == i;
    IssueOrder(s, i, op, Intrudes(s, Use(i, op)));
    IssueKeepsLog(s, Step(s, Use(i, op)), i, op);
  }

  lemma StepKeepsInv(s: State, e: Event)
    requires Inv(s) && Enabled(s, e)
    ensures Inv(Step(s, e))
  {
    StepKeepsTurns(s, e);
    if e.Proceed? {
      ProceedKeepsLog(s, e.i);
    } else if e.Use? {
      UseKeepsLog(s, e.i, e.op);
    } else {
      QuietStep(s, e);
    }
  }

  // ----- Whole schedules

  ghost predicate Schedule(s: State, run: seq<Event>, t: State)
    requires s.Sized()
    decreases |run|
  {
    if run == [] then s == t
    else Enabled(s, run[0]) && Step(s, run[0]).Sized() && Schedule(Step(s, run[0]), run[1..], t)
  }

  lemma {:induction false} ScheduleKeepsInv(s: State, run: seq<Event>, t: State)
    requires Inv(s) && Schedule(s, run, t)
    ensures Inv(t)
    decreases |run|
  {
    if run != [] {
      StepKeepsInv(s, run[0]);
      ScheduleKeepsInv(Step(s, run[0]), run[1..], t);
    }
  }

  // ----- What the events say of the turns

  /** The event ends turn i: its query settles, its BEGIN fails, or a commit or rollback of it settles. */
  ghost predicate GivesWay(e: Event, i: nat) { e == QuerySettles(i) || e == BeginSettles(i, false) || e == EndSettles(i) }

  ghost predicate GaveWay(run: seq<Event>, i: nat) { exists k :: 0 <= k < |run| && GivesWay(run[k], i) }

  /** The kind of each call asked for, in order: whether it is a transaction. */
  ghost function Kinds(run: seq<Event>): seq<bool> {
    if run == [] then [] else (if run[0].Ask? then [run[0].isTx] else []) + Kinds(run[1..])
  }

  /** The operation that an event sends to the connection. */
  ghost function SentBy(e: Event, kinds: seq<bool>): seq<Logged> {
    match e
    case Proceed(i) => [Logged(i, if i < |kinds| && kinds[i] then Begin else Query)]
    case Use(i, op) => [Logged(i, op)]
    case _ => []
  }

  ghost function Sent(run: seq<Event>, kinds: seq<bool>): seq<Logged> {
    if run == [] then [] else SentBy(run[0], kinds) + Sent(run[1..], kinds)
  }

  ghost predicate GivenBack(s: State, i: nat) { i < |s.mine| && s.mine[i] }

  ghost predicate Waits(s: State, i: nat) { i >= |s.turns| || s.turns[i].phase == Waiting }

  lemma StepResolves(s: State, e: Event, i: nat)
    requires s.Sized() && Enabled(s, e) && (forall k :: 0 <= k < |s.turns| && s.turns[k].done ==> s.mine[k])
    ensures Step(s, e).Sized()
    ensures GivenBack(Step(s, e), i) <==> GivenBack(s, i) || GivesWay(e, i)
    ensures Waits(Step(s, e), i) <==> Waits(s, i) && e != Proceed(i)
  {
  }

  lemma GaveWayFrom(run: seq<Event>, i: nat)
    requires run != []
    ensures GaveWay(run, i) <==> GivesWay(run[0], i) || GaveWay(run[1..], i)
  {
    assert forall k :: 0 <= k < |run| - 1 ==> run[1..][k] == run[k + 1];
    if GaveWay(run[1..], i) {
      var k :| 0 <= k < |run| - 1 && GivesWay(run[1..][k], i);
      assert GivesWay(run[k + 1], i);
    }
  }

  lemma {:induction false} EventsResolve(s: State, run: seq<Event>, t: State, i: nat)
    requires Inv(s) && Schedule(s, run, t)
    ensures GivenBack(t, i) <==> GivenBack(s, i) || GaveWay(run, i)
    ensures Waits(t, i) <==> Waits(s, i) && Proceed(i) !in run
    decreases |run|
  {
    if run != [] {
      assert run == [run[0]] + run[1..];
      assert forall k :: 0 <= k < |s.turns| ==> TurnOk(s.turns[k], s.mine[k], s.releases[k]);
      StepKeepsInv(s, run[0]);
      StepResolves(s, run[0], i);
      GaveWayFrom(run, i);
      EventsResolve(Step(s, run[0]), run[1..], t, i);
    }
  }

  /** The turns are those asked for, each of its kind. */
  ghost predicate OfKinds(s: State, kinds: seq<bool>) {
    |s.turns| == |kinds| && forall i :: 0 <= i < |kinds| ==> s.turns[i].isTx == kinds[i]
  }

  lemma Associates<T>(a: seq<T>, b: seq<T>, c: seq<T>)
    ensures (a + b) + c == a + (b + c)
  {
  }

  lemma StepKinds(s: State, e: Event, kinds: seq<bool>)
    requires s.Sized() && Enabled(s, e) && OfKinds(s, kinds)
    ensures OfKinds(Step(s, e), kinds + if e.Ask? then [e.isTx] else [])
  {
  }

  lemma {:induction false} EventsAsk(s: State, run: seq<Event>, t: State, kinds: seq<bool>)
    requires s.Sized() && Schedule(s, run, t) && OfKinds(s, kinds)
    ensures OfKinds(t, kinds + Kinds(run))
    decreases |run|
  {
    if run == [] {
      assert kinds + [] == kinds;
    } else {
      var more := if run[0].Ask? then [run[0].isTx] else [];
      StepKinds(s, run[0], kinds);
      EventsAsk(Step(s, run[0]), run[1..], t, kinds + more);
      Associates(kinds, more, Kinds(run[1..]));
    }
  }

  lemma StepIssues(s: State, e: Event, kinds: seq<bool>)
    requires s.Sized() && Enabled(s, e) && OfKinds(s, kinds)
    ensures Step(s, e).log == s.log + SentBy(e, kinds)
  {
  }

  lemma SentByMore(e: Event, kinds: seq<bool>, more: seq<bool>)
    requires e.Proceed? ==> e.i < |kinds|
    ensures SentBy(e, kinds + more) == SentBy(e, kinds)
  {
  }

  lemma {:induction false} EventsIssue(s: State, run: seq<Event>, t: State, kinds: seq<bool>)
    requires s.Sized() && Schedule(s, run, t) && OfKinds(s, kinds)
    ensures t.log == s.log + Sent(run, kinds + Kinds(run))
    decreases |run|
  {
    if run == [] {
      assert s.log + [] == s.log;
    } else {
      var e, rest := run[0], run[1..];
      var more := if e.Ask? then [e.isTx] else [];
      var all := kinds + Kinds(run);
      Associates(kinds, more, Kinds(rest));
      OneIssues(s, e, kinds, Kinds(run));
      StepKinds(s, e, kinds);
      EventsIssue(Step(s, e), rest, t, kinds + more);
      Associates(s.log, SentBy(e, all), Sent(rest, all));
    }
  }

  lemma OneIssues(s: State, e: Event, kinds: seq<bool>, more: seq<bool>)
    requires s.Sized() && Enabled(s, e) && OfKinds(s, kinds)
    ensures Step(s, e).Sized() && Step(s, e).log == s.log + SentBy(e, kinds + more)
  {
    StepIssues(s, e, kinds);
    SentByMore(e, kinds, more);
  }

  /** What reaches the connection is what the events of the schedule send, in order. */
  lemma LogIsSent(run: seq<Event>, t: State)
    requires Schedule(START, run, t)
    ensures t.log == Sent(run, Kinds(run))
  {
    EventsIssue(START, run, t, []);
    assert [] + Kinds(run) == Kinds(run) && [] + Sent(run, Kinds(run)) == Sent(run, Kinds(run));
  }

  /**
   * Every turn is released exactly once if its query has settled, its BEGIN has failed, or a commit or a rollback of it has
   * settled, and not at all otherwise.
   */
  lemma ReleasedExactlyOnce(run: seq<Event>, t: State, i: nat)
    requires Schedule(START, run, t) && t.Sized() && i < |t.turns|
    ensures t.releases[i] == if GaveWay(run, i) then 1 else 0
    ensures t.releases[i] == if t.turns[i].phase == Gone || t.turns[i].done then 1 else 0
  {
    ScheduleKeepsInv(START, run, t);
    EventsResolve(START, run, t, i);
    assert TurnOk(t.turns[i], t.mine[i], t.releases[i]);
  }

  /** A call may go on exactly when it was asked for, has not gone on yet, and every earlier turn has given way. */
  lemma MayProceedIff(run: seq<Event>, t: State, i: nat)
    requires Schedule(START, run, t)
    ensures t.Sized()
    ensures Enabled(t, Proceed(i)) <==> i < |Kinds(run)| && Proceed(i) !in run && forall j :: 0 <= j < i ==> GaveWay(run, j)
  {
    TurnsAreAsked(run, t);
    HasNotProceeded(run, t, i);
    if i < |t.turns| { GrantedIff(run, t, i); }
  }

  lemma TurnsAreAsked(run: seq<Event>, t: State)
    requires Schedule(START, run, t)
    ensures t.Sized() && OfKinds(t, Kinds(run))
  {
    ScheduleKeepsInv(START, run, t);
    EventsAsk(START, run, t, []);
    assert [] + Kinds(run) == Kinds(run);
  }

  lemma HasNotProceeded(run: seq<Event>, t: State, i: nat)
    requires Schedule(START, run, t)
    ensures Waits(t, i) <==> Proceed(i) !in run
  {
    EventsResolve(START, run, t, i);
  }

  lemma GrantedIff(run: seq<Event>, t: State, i: nat)
    requires Schedule(START, run, t) && t.Sized() && i < |t.turns|
    ensures t.Granted(i) <==> forall j :: 0 <= j < i ==> GaveWay(run, j)
  {
    forall j: nat | j < i ensures t.mine[j] <==> GaveWay(run, j) { EventsResolve(START, run, t, j); }
  }

  ghost predicate IsOpen(s: State, i: nat) { i < |s.turns| && s.turns[i].phase == Open }

  lemma StepOpens(s: State, e: Event, i: nat)
    requires s.Sized() && Enabled(s, e)
    ensures Step(s, e).Sized()
    ensures IsOpen(Step(s, e), i) <==> IsOpen(s, i) || e == BeginSettles(i, true)
  {
  }

  lemma {:induction false} EventsOpen(s: State, run: seq<Event>, t: State, i: nat)
    requires s.Sized() && Schedule(s, run, t)
    ensures IsOpen(t, i) <==> IsOpen(s, i) || BeginSettles(i, true) in run
    decreases |run|
  {
    if run != [] {
      assert run == [run[0]] + run[1..];
      StepOpens(s, run[0], i);
      EventsOpen(Step(s, run[0]), run[1..], t, i);
    }
  }

  /** A transaction can be used, ended or not, exactly when its BEGIN has succeeded. */
  lemma UsableIff(run: seq<Event>, t: State, i: nat, op: Op)
    requires Schedule(START, run, t)
    ensures t.Sized()
    ensures Enabled(t, Use(i, op)) <==> BeginSettles(i, true) in run && op in {Statement, Commit, Rollback}
  {
    ScheduleKeepsInv(START, run, t);
    EventsOpen(START, run, t, i);
  }

  // ----- Late uses, told by the events

  ghost predicate IssuesForAnother(e: Event, i: nat) { (e.Proceed? || e.Use?) && e.i != i }

  /** Turn i has ended, and an operation of another turn has reached the connection since. */
  ghost predicate Passed(run: seq<Event>, i: nat) {
    exists a, b :: 0 <= a < b < |run| && run[a] == EndSettles(i) && IssuesForAnother(run[b], i)
  }

  ghost predicate Late(run: seq<Event>, c: nat) {
    c < |run| && run[c].Use? && Passed(run[..c], run[c].i)
  }

  /** A transaction is used after it has ended, and after an operation of another turn since. */
  ghost predicate UsedLate(run: seq<Event>) { exists c :: Late(run, c) }

  ghost predicate Done(s: State, i: nat) { i < |s.turns| && s.turns[i].done }

  ghost predicate Behind(s: State, i: nat) { Done(s, i) && s.log != [] && s.log[|s.log| - 1].owner != i }

  /** What the events so far say of the state they lead to. */
  ghost predicate Tells(run: seq<Event>, s: State) {
    && Inv(s)
    && (forall i {:trigger Done(s, i)} :: Done(s, i) <==> EndSettles(i) in run)
    && (s.intruded <==> UsedLate(run))
    && (!s.intruded ==> forall i {:trigger Passed(run, i)} {:trigger Behind(s, i)} :: Passed(run, i) <==> Behind(s, i))
  }

  lemma PassedOneMore(run: seq<Event>, e: Event, i: nat)
    ensures Passed(run + [e], i) <==> Passed(run, i) || (EndSettles(i) in run && IssuesForAnother(e, i))
  {
    var more := run + [e];
    if Passed(run, i) {
      var a, b :| 0 <= a < b < |run| && run[a] == EndSettles(i) && IssuesForAnother(run[b], i);
      assert more[a] == EndSettles(i) && IssuesForAnother(more[b], i);
    }
    if EndSettles(i) in run && IssuesForAnother(e, i) {
      var a :| 0 <= a < |run| && run[a] == EndSettles(i);
      assert more[a] == EndSettles(i) && more[|run|] == e;
    }
  }

  lemma LateOneMore(run: seq<Event>, e: Event)
    ensures UsedLate(run + [e]) <==> UsedLate(run) || (e.Use? && Passed(run, e.i))
  {
    var more := run + [e];
    assert more[..|run|] == run;
    assert Late(more, |run|) <==> e.Use? && Passed(run, e.i);
    forall c: nat | c < |run| ensures Late(more, c) <==> Late(run, c) {
      assert more[..c] == run[..c];
    }
  }

  lemma DoneOneMore(s: State, e: Event, i: nat)
    requires s.Sized() && Enabled(s, e)
    ensures Done(Step(s, e), i) <==> Done(s, i) || e == EndSettles(i)
  {
  }

  /** Until a turn gives way nobody comes after it. */
  lemma NobodyComesAfter(s: State, i: nat)
    requires Inv(s) && !s.intruded && i < |s.turns| && s.turns[i].phase == Open && !s.turns[i].done
    ensures s.log != [] && s.log[|s.log| - 1].owner == i
  {
    assert BeginLogged(s.log, i);
    var a :| 0 <= a < |s.log| && s.log[a] == Logged(i, Begin);
    assert TurnOk(s.turns[i], s.mine[i], s.releases[i]);
    var last := s.log[|s.log| - 1].owner;
    assert s.log[a].owner <= last;
    assert s.Granted(last);
  }

  lemma QuietEventTells(run: seq<Event>, s: State, e: Event)
    requires Tells(run, s) && Enabled(s, e) && !e.Proceed? && !e.Use?
    ensures Tells(run + [e], Step(s, e))
  {
    var t := Step(s, e);
    StepKeepsInv(s, e);
    QuietStep(s, e);
    LateOneMore(run, e);
    forall i: nat
      ensures Done(t, i) <==> EndSettles(i) in run + [e]
      ensures !t.intruded ==> (Passed(run + [e], i) <==> Behind(t, i))
    {
      DoneOneMore(s, e, i);
      PassedOneMore(run, e, i);
      if !s.intruded && e == EndSettles(i) && !Done(s, i) { NobodyComesAfter(s, i); }
    }
  }

  lemma IntrudesIffPassed(run: seq<Event>, s: State, i: nat, op: Op)
    requires Tells(run, s) && !s.intruded && Enabled(s, Use(i, op))
    ensures Intrudes(s, Use(i, op)) <==> Passed(run, i)
  {
    assert TurnOk(s.turns[i], s.mine[i], s.releases[i]);
    assert Passed(run, i) <==> Behind(s, i);
  }

  lemma IssueTells(run: seq<Event>, s: State, e: Event)
    requires Tells(run, s) && Enabled(s, e) && (e.Proceed? || e.Use?)
    ensures Tells(run + [e], Step(s, e))
  {
    var t := Step(s, e);
    StepKeepsInv(s, e);
    LateOneMore(run, e);
    if e.Use? && !s.intruded { IntrudesIffPassed(run, s, e.i, e.op); }
    assert t.log[|t.log| - 1].owner == e.i;
    forall i: nat
      ensures Done(t, i) <==> EndSettles(i) in run + [e]
      ensures !t.intruded ==> (Passed(run + [e], i) <==> Behind(t, i))
    {
      DoneOneMore(s, e, i);
      PassedOneMore(run, e, i);
      if e.Proceed? && i == e.i { assert TurnOk(s.turns[i], s.mine[i], s.releases[i]); }
    }
  }

  lemma {:induction false} ScheduleTells(before: seq<Event>, s: State, run: seq<Event>, t: State)
    requires Tells(before, s) && Schedule(s, run, t)
    ensures Tells(before + run, t)
    decreases |run|
  {
    if run == [] {
      assert before + run == before;
    } else {
      if run[0].Proceed? || run[0].Use? {
        IssueTells(before, s, run[0]);
      } else {
        QuietEventTells(before, s, run[0]);
      }
      ScheduleTells(before + [run[0]], Step(s, run[0]), run[1..], t);
      assert before + [run[0]] + run[1..] == before + run;
    }
  }

  /** The flag of the state tells what the events show. */
  lemma IntrudedIffUsedLate(run: seq<Event>, t: State)
    requires Schedule(START, run, t)
    ensures t.intruded <==> UsedLate(run)
  {
    assert Tells([], START);
    ScheduleTells([], START, run, t);
    assert [] + run == run;
  }

  /**
   * On every schedule the operations form contiguous blocks, in the order of the turns, exactly when no transaction is
   * used once it has ended and an operation of another turn has reached the connection.
   */
  lemma BlocksIffNoIntrusion(run: seq<Event>, t: State)
    requires Schedule(START, run, t)
    ensures Contiguous(t.log) <==> !UsedLate(run)
    ensures !UsedLate(run) ==> InOrder(t.log)
  {
    ScheduleKeepsInv(START, run, t);
    IntrudedIffUsedLate(run, t);
    if t.intruded {
      var a, b, c :| Interrupted(t.log, a, b, c);
    } else {
      forall a, b, c | 0 <= a < b < c < |t.log| && t.log[a].owner == t.log[c].owner
        ensures t.log[b].owner == t.log[a].owner
      {
        assert t.log[a].owner <= t.log[b].owner <= t.log[c].owner;
      }
    }
  }

  /** A client that drops the transaction object once a commit or a rollback of it has settled. */
  ghost predicate Disciplined(run: seq<Event>) {
    forall a, c :: 0 <= a < c < |run| && run[a].EndSettles? && run[c].Use? ==> run[c].i != run[a].i
  }

  /** With disciplined clients nothing from another caller lies between a BEGIN and its COMMIT or ROLLBACK. */
  lemma TransactionsAreAlone(run: seq<Event>, t: State, a: nat, b: nat, c: nat)
    requires Schedule(START, run, t) && Disciplined(run)
    requires a < b < c < |t.log| && t.log[a].op == Begin && t.log[c].owner == t.log[a].owner
    ensures t.log[b].owner == t.log[a].owner
  {
    assert !UsedLate(run);
    BlocksIffNoIntrusion(run, t);
  }

  const WAITS := Turn(true, Waiting, 0, false)
  const BEGUN := State([false, false], [WAITS.(phase := Open), WAITS], [Logged(0, Begin)], [0, 0], false)

  lemma BegunReached(run: seq<Event>, t: State) returns (longer: seq<Event>)
    requires Schedule(BEGUN, run, t)
    ensures Schedule(START, longer, t)
  {
    var s1 := State([false], [WAITS], [], [0], false);
    var s2 := State([false, false], [WAITS, WAITS], [], [0, 0], false);
    var s3 := State([false, false], [WAITS.(phase := Beginning), WAITS], [Logged(0, Begin)], [0, 0], false);
    longer := Prepend(s3, BeginSettles(0, true), BEGUN, run, t);
    longer := Prepend(s2, Proceed(0), s3, longer, t);
    longer := Prepend(s1, Ask(true), s2, longer, t);
    longer := Prepend(START, Ask(true), s1, longer, t);
  }

  const COMMITTED := State([true, false], [Turn(true, Open, 0, true), WAITS],
                           [Logged(0, Begin), Logged(0, Commit)], [1, 0], false)

  lemma CommittedReached(run: seq<Event>, t: State) returns (longer: seq<Event>)
    requires Schedule(COMMITTED, run, t)
    ensures Schedule(BEGUN, longer, t)
  {
    var s5 := State([false, false], [Turn(true, Open, 1, false), WAITS], COMMITTED.log, [0, 0], false);
    longer := Prepend(s5, EndSettles(0), COMMITTED, run, t);
    longer := Prepend(BEGUN, Use(0, Commit), s5, longer, t);
  }

  lemma RollbackAfterwards() returns (run: seq<Event>, t: State)
    ensures Schedule(COMMITTED, run, t)
    ensures t.log == [Logged(0, Begin), Logged(0, Commit), Logged(1, Begin), Logged(0, Rollback)]
  {
    var turns := [Turn(true, Open, 0, true), WAITS.(phase := Beginning)];
    var s7 := State([true, false], turns, COMMITTED.log + [Logged(1, Begin)], [1, 0], false);
    t := State([true, false], turns[0 := Turn(true, Open, 1, true)], s7.log + [Logged(0, Rollback)], [1, 0], true);
    run := [];
    run := Prepend(s7, Use(0, Rollback), t, run, t);
    run := Prepend(COMMITTED, Proceed(1), s7, run, t);
  }

  /**
   * A rollback asked for after the commit has settled, even a commit that failed, reaches the
   * connection inside the block of whoever has the turn by then.
   */
  lemma LateRollbackIntrudes() returns (run: seq<Event>, t: State)
    ensures Schedule(START, run, t) && !Contiguous(t.log)
    ensures t.log == [Logged(0, Begin), Logged(0, Commit), Logged(1, Begin), Logged(0, Rollback)]
  {
    run, t := RollbackAfterwards();
    run := CommittedReached(run, t);
    run := BegunReached(run, t);
    assert Interrupted(t.log, 0, 2, 3);
  }

  lemma Prepend(s: State, e: Event, next: State, run: seq<Event>, t: State) returns (longer: seq<Event>)
    requires s.Sized() && Enabled(s, e) && Step(s, e) == next && next.Sized() && Schedule(next, run, t)
    ensures Schedule(s, longer, t)
  {
    longer := [e] + run;
    assert longer[1..] == run;
  }

  // ----- The mutex and the adapter

  /** The promise that acquire leaves as the tail: resolved once the previous tail and then promise `mine` are. */
  datatype Chain = Resolved | Then(previous: Chain, mine: nat)

  predicate HasResolved(chain: Chain, mine: seq<bool>) {
    match chain
    case Resolved => true
    case Then(previous, i) => HasResolved(previous, mine) && i < |mine| && mine[i]
  }

  function ChainOf(n: nat): Chain { if n == 0 then Resolved else Then(ChainOf(n - 1), n - 1) }

  /** What a turn waits for has resolved exactly when every earlier turn has given way. */
  lemma {:induction false} ResolvedIffGranted(s: State, i: nat)
    requires s.Sized() && i < |s.turns|
    ensures HasResolved(ChainOf(i), s.mine) <==> s.Granted(i)
  {
    if i > 0 { ResolvedIffGranted(s, i - 1); }
  }

  class Mutex {
    var mine: seq<bool>
    var tail: Chain
    ghost var releases: seq<nat>

    ghost predicate Valid()
      reads this
    {
      |releases| == |mine| && tail == ChainOf(|mine|)
    }

    constructor ()
      ensures Valid() && mine == []
    {
      mine, tail, releases := [], Resolved, [];
    }

    /** The caller waits for what was the tail. */
    method Acquire() returns (turn: nat, previous: Chain)
      requires Valid()
      modifies this
      ensures Valid() && turn == |old(mine)| && previous == ChainOf(turn)
      ensures mine == old(mine) + [false] && releases == old(releases) + [0]
    {
      turn, previous := |mine|, tail;
      mine, tail, releases := mine + [false], Then(tail, |mine|), releases + [0];
    }

    method Release(turn: nat)
      requires Valid() && turn < |mine|
      modifies this
      ensures Valid() && mine == old(mine)[turn := true]
      ensures releases == old(releases)[turn := old(releases)[turn] + 1]
    {
      mine := mine[turn := true];
      releases := releases[turn := releases[turn] + 1];
    }
  }

  /** The wrapped adapter and the calls pending on it: every method is one step of the transition system. */
  class Adapter {
    const mutex: Mutex
    var turns: seq<Turn>
    /** What each call waits for. */
    var waitsFor: seq<Chain>
    ghost var log: seq<Logged>
    ghost var intruded: bool

    ghost predicate Valid()
      reads this, mutex
    {
      && mutex.Valid() && |turns| == |waitsFor| == |mutex.mine|
      && forall i :: 0 <= i < |waitsFor| ==> waitsFor[i] == ChainOf(i)
    }

    ghost function Now(): (s: State)
      reads this, mutex
      requires Valid()
      ensures s.Sized()
    {
      State(mutex.mine, turns, log, mutex.releases, intruded)
    }

    constructor ()
      ensures Valid() && Now() == START && fresh(mutex)
    {
      mutex := new Mutex();
      turns, waitsFor, log, intruded := [], [], [], false;
      new;
      assert mutex.releases == [];
    }

    /** A query outside any transaction, or startTransaction: both first ask for the turn. */
    method Ask(isTx: bool) returns (turn: nat)
      requires Valid()
      modifies this, mutex
      ensures Valid() && turn == |old(turns)| && Now() == Step(old(Now()), Event.Ask(isTx))
    {
      var previous: Chain;
      turn, previous := mutex.Acquire();
      turns, waitsFor := turns + [Turn(isTx, Waiting, 0, false)], waitsFor + [previous];
    }

    /** Lets call i go on if its turn has come. */
    method Proceed(i: nat) returns (went: bool)
      requires Valid()
      modifies this
      ensures Valid() && (went <==> Enabled(old(Now()), Event.Proceed(i)))
      ensures Now() == if went then Step(old(Now()), Event.Proceed(i)) else old(Now())
    {
      if i < |turns| { ResolvedIffGranted(Now(), i); }
      went := i < |turns| && turns[i].phase == Waiting && HasResolved(waitsFor[i], mutex.mine);
      if went {
        log := log + [Logged(i, if turns[i].isTx then Begin else Query)];
        turns := turns[i := turns[i].(phase := if turns[i].isTx then Beginning else Issued)];
      }
    }

    /** The finally of runExclusive: whether the query succeeds or fails. */
    method QuerySettles(i: nat)
      requires Valid() && Enabled(Now(), Event.QuerySettles(i))
      modifies this, mutex
      ensures Valid() && Now() == Step(old(Now()), Event.QuerySettles(i))
    {
      turns := turns[i := turns[i].(phase := Gone)];
      mutex.Release(i);
    }

    method BeginSettles(i: nat, ok: bool)
      requires Valid() && Enabled(Now(), Event.BeginSettles(i, ok))
      modifies this, mutex
      ensures Valid() && Now() == Step(old(Now()), Event.BeginSettles(i, ok))
    {
      turns := turns[i := turns[i].(phase := if ok then Open else Gone)];
      if !ok { mutex.Release(i); }
    }

    /** The transaction object forwards everything, whether or not it has given its turn back. */
    method Use(i: nat, op: Op)
      requires Valid() && Enabled(Now(), Event.Use(i, op))
      modifies this
      ensures Valid() && Now() == Step(old(Now()), Event.Use(i, op))
    {
      intruded := intruded || Intrudes(Now(), Event.Use(i, op));
      log := log + [Logged(i, op)];
      if op != Statement { turns := turns[i := turns[i].(ending := turns[i].ending + 1)]; }
    }

    /** A commit or a rollback has settled: the first time, the turn is given back. */
    method EndSettles(i: nat)
      requires Valid() && Enabled(Now(), Event.EndSettles(i))
      modifies this, mutex
      ensures Valid() && Now() == Step(old(Now()), Event.EndSettles(i))
    {
      var done := turns[i].done;
      turns := turns[i := turns[i].(ending := turns[i].ending - 1, done := true)];
      if !done { mutex.Release(i); }
    }
  }
}
