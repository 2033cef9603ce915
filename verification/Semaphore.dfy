/**
 * First-come first-served slots: the protocol behind both semaphores of the agent
 * (coverage/heatmap-cache.ts and cameras/ffmpeg.ts). A call to acquire that finds no
 * free slot queues up; release hands its slot over to the head of the queue.
 */
module Semaphore {

  ghost predicate Distinct<T(!new)>(s: seq<T>) { forall i, j :: 0 <= i < j < |s| ==> s[i] != s[j] }

  /** Identifies one call to acquire. */
  type Call = nat

  /** `granted` records every grant so far, in order. */
  datatype Sem = Sem(limit: nat, holders: set<Call>, queue: seq<Call>, granted: seq<Call>) {

    function Acquire(c: Call): Sem {
      if |holders| < limit then this.(holders := holders + {c}, granted := granted + [c])
      else this.(queue := queue + [c])
    }

    function Release(c: Call): Sem {
      if queue == [] then this.(holders := holders - {c})
      else this.(holders := holders - {c} + {queue[0]}, queue := queue[1..], granted := granted + [queue[0]])
    }

    /** Calls in the order of arrival. */
    ghost function Arrivals(): seq<Call> { granted + queue }

    ghost predicate Inv() {
      && |holders| <= limit
      && (queue != [] ==> |holders| == limit)
      && (forall c :: c in holders ==> c in granted)
      && Distinct(Arrivals())
    }
  }

  datatype Event = Arrive(call: Call) | Finish(call: Call)

  /** A call arrives once; only a holder finishes. */
  ghost predicate Enabled(s: Sem, e: Event) {
    match e
    case Arrive(c) => c !in s.Arrivals()
    case Finish(c) => c in s.holders
  }

  ghost function Step(s: Sem, e: Event): Sem {
    match e
    case Arrive(c) => s.Acquire(c)
    case Finish(c) => s.Release(c)
  }

  lemma ArriveKeepsInv(s: Sem, c: Call)
    requires s.Inv() && c !in s.Arrivals()
    ensures s.Acquire(c).Inv() && s.Acquire(c).Arrivals() == s.Arrivals() + [c]
    ensures |s.Acquire(c).holders| == if |s.holders| < s.limit then |s.holders| + 1 else |s.holders|
  {
    assert c !in s.holders;
    assert s.Acquire(c).Arrivals() == s.Arrivals() + [c];
  }

  lemma HeadNotGranted(s: Sem)
    requires s.Inv() && s.queue != []
    ensures s.queue[0] !in s.holders
  {
    assert s.Arrivals()[|s.granted|] == s.queue[0];
    assert forall i :: 0 <= i < |s.granted| ==> s.granted[i] == s.Arrivals()[i] != s.queue[0];
  }

  lemma FinishKeepsInv(s: Sem, c: Call)
    requires s.Inv() && c in s.holders
    ensures s.Release(c).Inv() && s.Release(c).Arrivals() == s.Arrivals()
    ensures |s.Release(c).holders| == if s.queue == [] then |s.holders| - 1 else |s.holders|
  {
    if s.queue != [] {
      HeadNotGranted(s);
      assert s.queue == [s.queue[0]] + s.queue[1..];
    }
    assert s.Release(c).Arrivals() == s.Arrivals();
  }

  /** Every step keeps the invariant; arrivals are served in order; a release with a queue never frees the slot. */
  lemma StepKeepsInv(s: Sem, e: Event)
    requires s.Inv() && Enabled(s, e)
    ensures Step(s, e).Inv()
    ensures Step(s, e).Arrivals() == if e.Arrive? then s.Arrivals() + [e.call] else s.Arrivals()
    ensures e.Finish? ==> |Step(s, e).holders| == if s.queue == [] then |s.holders| - 1 else |s.holders|
  {
    match e
    case Arrive(c) => ArriveKeepsInv(s, c);
    case Finish(c) => FinishKeepsInv(s, c);
  }

  // ----- Whole runs

  ghost predicate Possible(s: Sem, run: seq<Event>)
    decreases |run|
  {
    run == [] || (Enabled(s, run[0]) && Possible(Step(s, run[0]), run[1..]))
  }

  ghost function After(s: Sem, run: seq<Event>): Sem
    decreases |run|
  {
    if run == [] then s else After(Step(s, run[0]), run[1..])
  }

  ghost function Releases(run: seq<Event>): nat {
    if run == [] then 0 else (if run[0].Finish? then 1 else 0) + Releases(run[1..])
  }

  /** The calls that arrive in a run, in order. */
  ghost function Arrived(run: seq<Event>): seq<Call> {
    if run == [] then [] else (if run[0].Arrive? then [run[0].call] else []) + Arrived(run[1..])
  }

  /**
   * In every run: slots in use never exceed the limit, a call waits only while all slots are in
   * use (no lost wake-up), and grants follow arrivals: what was granted plus what waits is, in
   * order, what arrived.
   */
  lemma {:induction false} EveryRun(limit: nat, s: Sem, run: seq<Event>)
    requires s.Inv() && s.limit == limit && Possible(s, run)
    ensures After(s, run).Inv() && After(s, run).limit == limit
    ensures s.Arrivals() <= After(s, run).Arrivals()
    ensures s.granted <= After(s, run).granted
    decreases |run|
  {
    if run != [] {
      var t := Step(s, run[0]);
      StepKeepsInv(s, run[0]);
      assert s.granted <= t.granted && s.Arrivals() <= t.Arrivals();
      EveryRun(limit, t, run[1..]);
    }
  }

  lemma Associates<T>(a: seq<T>, b: seq<T>, c: seq<T>)
    ensures (a + b) + c == a + (b + c)
  {
  }

  /** What was granted and what waits, together, are what arrived. */
  lemma {:induction false} ArrivalsAre(s: Sem, run: seq<Event>)
    requires s.Inv() && Possible(s, run)
    ensures After(s, run).Arrivals() == s.Arrivals() + Arrived(run)
    decreases |run|
  {
    if run == [] {
      assert s.Arrivals() + [] == s.Arrivals();
    } else {
      var now := if run[0].Arrive? then [run[0].call] else [];
      StepKeepsInv(s, run[0]);
      assert Step(s, run[0]).Arrivals() == s.Arrivals() + now;
      ArrivalsAre(Step(s, run[0]), run[1..]);
      Associates(s.Arrivals(), now, Arrived(run[1..]));
    }
  }

  lemma StepKeepsHolders(s: Sem, e: Event, c: Call)
    requires s.Inv() && Enabled(s, e)
    ensures c in Step(s, e).holders || c !in Step(s, e).granted <==> (c in s.holders || c !in s.granted) && e != Finish(c)
  {
    if e.Finish? && s.queue != [] { HeadNotGranted(s); HeadNotYetGranted(s); }
    if e.Arrive? { assert e.call !in s.Arrivals(); }
  }

  lemma HeadNotYetGranted(s: Sem)
    requires s.Inv() && s.queue != []
    ensures s.queue[0] !in s.granted
  {
    assert s.Arrivals()[|s.granted|] == s.queue[0];
    assert forall i :: 0 <= i < |s.granted| ==> s.granted[i] == s.Arrivals()[i] != s.queue[0];
  }

  lemma {:induction false} HeldUnlessFinished(s: Sem, run: seq<Event>, c: Call)
    requires s.Inv() && Possible(s, run)
    ensures c in After(s, run).holders || c !in After(s, run).granted <==> (c in s.holders || c !in s.granted) && Finish(c) !in run
    decreases |run|
  {
    if run != [] {
      assert run == [run[0]] + run[1..];
      StepKeepsInv(s, run[0]);
      StepKeepsHolders(s, run[0], c);
      HeldUnlessFinished(Step(s, run[0]), run[1..], c);
    }
  }

  /** From no calls at all: a call holds a slot exactly from when it was granted one until it finishes. */
  lemma HoldersAre(limit: nat, run: seq<Event>, c: Call)
    requires Possible(Sem(limit, {}, [], []), run)
    ensures var t := After(Sem(limit, {}, [], []), run);
            && t.granted + t.queue == Arrived(run)
            && (c in t.holders <==> c in t.granted && Finish(c) !in run)
  {
    var s := Sem(limit, {}, [], []);
    EveryRun(limit, s, run);
    ArrivalsAre(s, run);
    HeldUnlessFinished(s, run, c);
    assert s.Arrivals() + Arrived(run) == Arrived(run);
  }

  /** k releases grant the first k waiters, in order; a longer queue keeps its tail at the front. */
  lemma {:induction false} QueueDrainsInOrder(s: Sem, run: seq<Event>, k: nat)
    requires s.Inv() && Possible(s, run) && Releases(run) == k <= |s.queue|
    ensures s.granted + s.queue[..k] <= After(s, run).granted
    ensures k < |s.queue| ==> After(s, run).granted == s.granted + s.queue[..k] && s.queue[k..] <= After(s, run).queue
    decreases |run|
  {
    if run == [] {
    } else if s.queue == [] {
      EveryRun(s.limit, s, run);
    } else {
      StepKeepsInv(s, run[0]);
      var t := Step(s, run[0]);
      if run[0].Finish? {
        QueueDrainsInOrder(t, run[1..], k - 1);
        assert s.granted + s.queue[..k] == t.granted + t.queue[..k - 1];
        assert s.queue[k..] == t.queue[k - 1..];
      } else {
        QueueDrainsInOrder(t, run[1..], k);
        assert t.queue[..k] == s.queue[..k];
        assert s.queue[k..] <= t.queue[k..];
      }
    }
  }

  lemma GrantedByThen(s: Sem, run: seq<Event>, p: nat)
    requires s.Inv() && Possible(s, run) && p < |s.queue| && Releases(run) == p + 1
    ensures s.queue[p] in After(s, run).granted
  {
    var t := After(s, run);
    QueueDrainsInOrder(s, run, p + 1);
    assert (s.granted + s.queue[..p + 1])[|s.granted| + p] == s.queue[p];
    assert t.granted[|s.granted| + p] == s.queue[p];
  }

  lemma NotGrantedBefore(s: Sem, run: seq<Event>, p: nat)
    requires s.Inv() && Possible(s, run) && p < |s.queue| && Releases(run) <= p
    ensures s.queue[p] !in After(s, run).granted
  {
    var t, k := After(s, run), Releases(run);
    EveryRun(s.limit, s, run);
    QueueDrainsInOrder(s, run, k);
    assert t.queue[p - k] == s.queue[k..][p - k] == s.queue[p];
    assert t.Arrivals()[|t.granted| + p - k] == s.queue[p];
    assert forall i :: 0 <= i < |t.granted| ==> t.granted[i] == t.Arrivals()[i];
  }

  /** The waiter at position p is granted by the (p + 1)-th release, and not before. */
  lemma GrantedAtItsTurn(s: Sem, run: seq<Event>, p: nat)
    requires s.Inv() && Possible(s, run) && p < |s.queue|
    ensures Releases(run) == p + 1 ==> s.queue[p] in After(s, run).granted
    ensures Releases(run) <= p ==> s.queue[p] !in After(s, run).granted
  {
    if Releases(run) == p + 1 { GrantedByThen(s, run, p); }
    if Releases(run) <= p { NotGrantedBefore(s, run, p); }
  }
}
