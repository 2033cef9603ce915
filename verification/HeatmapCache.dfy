/**
 * The single-flight, bounded, least-recently-used cache of coverage/heatmap-cache.ts as a
 * transition system. The stretch of code between two awaits is one step; which computation
 * settles next, and with what outcome, is the environment's choice.
 */
module HeatmapCache {
  import opened Semaphore
  import opened JsMap

  type Key = string

  /** What a computation ends with. */
  datatype Outcome<V> = Computed(value: V) | Thrown

  /**
   * The life of one computation: waiting for a slot or running, settled with the slot given back,
   * stored in the map, and gone from the in-flight table.
   */
  datatype Phase<V> = Pending | Settled(outcome: Outcome<V>) | Stored(v: V) | Done(final: Outcome<V>)

  datatype Job<V> = Job(key: Key, phase: Phase<V>)

  /** What a call to get is answered with: a cached value, or the promise of a computation. */
  datatype Reply<V> = Hit(value: V) | Promised(job: Call)

  /** `touches` is the history of stores and cached hits. */
  datatype State<V> = State(maxEntries: nat, cache: seq<Entry<Key, V>>, inflight: map<Key, Call>, sem: Sem,
                            jobs: seq<Job<V>>, touches: seq<Key>)

  function Start<V>(maxEntries: nat, maxConcurrent: nat): State<V> {
    State(maxEntries, [], map[], Sem(maxConcurrent, {}, [], []), [], [])
  }

  // ----- Steps

  function GetStep<V>(s: State<V>, key: Key): (State<V>, Reply<V>) {
    if Has(s.cache, key) then
      var v := Get(s.cache, key);
      (s.(cache := Set(Delete(s.cache, key), key, v), touches := s.touches + [key]), Hit(v))
    else if key in s.inflight then (s, Promised(s.inflight[key]))
    else
      var j := |s.jobs|;
      (s.(sem := s.sem.Acquire(j), jobs := s.jobs + [Job(key, Pending)], inflight := s.inflight[key := j]), Promised(j))
  }

  function WithPhase<V>(s: State<V>, j: Call, phase: Phase<V>): State<V>
    requires j < |s.jobs|
  {
    s.(jobs := s.jobs[j := s.jobs[j].(phase := phase)])
  }

  predicate Running<V>(s: State<V>, j: Call) { j < |s.jobs| && j in s.sem.holders }

  /** A running computation settles: its slot goes to the next waiter, or back. */
  function SettleStep<V>(s: State<V>, j: Call, o: Outcome<V>): State<V>
    requires Running(s, j)
  {
    WithPhase(s, j, Settled(o)).(sem := s.sem.Release(j))
  }

  predicate ReadyToStore<V>(s: State<V>, j: Call) {
    j < |s.jobs| && s.jobs[j].phase.Settled? && s.jobs[j].phase.outcome.Computed?
  }

  function StoreStep<V>(s: State<V>, j: Call): State<V>
    requires ReadyToStore(s, j)
  {
    var key, v := s.jobs[j].key, s.jobs[j].phase.outcome.value;
    WithPhase(s, j, Stored(v)).(cache := LastOf(Set(s.cache, key, v), s.maxEntries), touches := s.touches + [key])
  }

  predicate ReadyToForget<V>(s: State<V>, j: Call) {
    j < |s.jobs| && (s.jobs[j].phase.Stored? || s.jobs[j].phase == Settled(Thrown))
  }

  function ForgetStep<V>(s: State<V>, j: Call): State<V>
    requires ReadyToForget(s, j)
  {
    var final := if s.jobs[j].phase.Stored? then Computed(s.jobs[j].phase.v) else Thrown;
    WithPhase(s, j, Done(final)).(inflight := s.inflight - {s.jobs[j].key})
  }

  // ----- Recency

  /** The touched keys, each once, ordered by its last touch. */
  function Recency(touches: seq<Key>): (r: seq<Key>) {
    if touches == [] then []
    else
      var last := touches[|touches| - 1];
      Remove(Recency(touches[..|touches| - 1]), last) + [last]
  }

  /** The n most recently touched keys, the least recent first. */
  function MostRecent(touches: seq<Key>, n: nat): seq<Key> { LastOf(Recency(touches), n) }

  /** The last n elements, or all of them when there are fewer. */
  function LastOf<T>(s: seq<T>, n: nat): seq<T> { if |s| > n then s[|s| - n..] else s }

  lemma LastOfConcat<T>(a: seq<T>, b: seq<T>, n: nat)
    requires |b| >= n || a == []
    ensures LastOf(a + b, n) == LastOf(b, n)
  {
  }

  lemma {:induction false} RecencyDistinct(touches: seq<Key>)
    ensures Distinct(Recency(touches))
  {
    if touches != [] {
      var before, last := touches[..|touches| - 1], touches[|touches| - 1];
      RecencyDistinct(before);
      RemoveDistinct(Recency(before), last);
    }
  }

  ghost predicate LastTouch(touches: seq<Key>, k: Key, i: int) {
    0 <= i < |touches| && touches[i] == k && k !in touches[i + 1..]
  }

  /** Recency lists exactly the touched keys, once each, in the order of their last touch. */
  lemma {:induction false} RecencyMeans(touches: seq<Key>)
    ensures Distinct(Recency(touches))
    ensures forall k :: k in Recency(touches) <==> k in touches
    ensures forall a, b, i, j ::
              (0 <= a < b < |Recency(touches)|
               && LastTouch(touches, Recency(touches)[a], i) && LastTouch(touches, Recency(touches)[b], j))
              ==> i < j
  {
    if touches != [] {
      var n := |touches| - 1;
      var before, last := touches[..n], touches[n];
      assert touches == before + [last];
      RecencyMeans(before);
      RecencyDistinct(touches);
      RemoveDistinct(Recency(before), last);
      RemoveMembers(Recency(before), last);
      var r, was := Recency(touches), Recency(before);
      forall a, b, i, j | 0 <= a < b < |r| && LastTouch(touches, r[a], i) && LastTouch(touches, r[b], j)
        ensures i < j
      {
        EarlierTouch(before, last, r[a], i);
        if b == |r| - 1 {
          assert r[a] in Remove(was, last) && r[a] != last;
        } else {
          EarlierTouch(before, last, r[b], j);
          RemoveKeepsOrder(was, last, a, b);
        }
      }
    }
  }

  lemma EarlierTouch(before: seq<Key>, last: Key, k: Key, i: int)
    requires LastTouch(before + [last], k, i) && k != last
    ensures i < |before| && LastTouch(before, k, i)
  {
    var all := before + [last];
    assert i < |before|;
    assert all[i + 1..] == before[i + 1..] + [last];
  }

  /** Removing a key keeps the relative order of the others. */
  lemma {:induction false} RemoveKeepsOrder(s: seq<Key>, k: Key, a: nat, b: nat)
    requires a < b < |Remove(s, k)|
    ensures exists a', b' :: 0 <= a' < b' < |s| && s[a'] == Remove(s, k)[a] && s[b'] == Remove(s, k)[b]
  {
    if s[0] == k {
      assert s[a + 1] == Remove(s, k)[a] && s[b + 1] == Remove(s, k)[b];
    } else if a == 0 {
      RemoveMembers(s[1..], k);
      assert Remove(s, k)[b] in Remove(s[1..], k);
      var b' :| 0 <= b' < |s[1..]| && s[1..][b'] == Remove(s, k)[b];
      assert s[0] == Remove(s, k)[a] && s[b' + 1] == Remove(s, k)[b];
    } else {
      RemoveKeepsOrder(s[1..], k, a - 1, b - 1);
      var a', b' :| 0 <= a' < b' < |s[1..]| && s[1..][a'] == Remove(s[1..], k)[a - 1] && s[1..][b'] == Remove(s[1..], k)[b - 1];
      assert s[a' + 1] == Remove(s, k)[a] && s[b' + 1] == Remove(s, k)[b];
    }
  }

  lemma OnlyInSecond(a: seq<Key>, b: seq<Key>, k: Key)
    requires Distinct(a + b) && k in b
    ensures k !in a
  {
    var j :| 0 <= j < |b| && b[j] == k;
    assert (a + b)[|a| + j] == k;
    assert forall i :: 0 <= i < |a| ==> a[i] == (a + b)[i];
  }

  lemma TouchInSecond(touches: seq<Key>, k: Key, a: seq<Key>, b: seq<Key>)
    requires Recency(touches) == a + b && k !in a
    ensures Recency(touches + [k]) == a + (Remove(b, k) + [k])
  {
    assert (touches + [k])[..|touches|] == touches;
    RemoveFromConcat(a, b, k);
  }

  lemma TouchOutsideSecond(touches: seq<Key>, k: Key, a: seq<Key>, b: seq<Key>)
    requires Recency(touches) == a + b && k !in b
    ensures Recency(touches + [k]) == Remove(a, k) + (b + [k])
  {
    assert (touches + [k])[..|touches|] == touches;
    RemoveFromConcat(a, b, k);
    RemoveMembers(a, k);
    RemoveMembers(b, k);
  }

  lemma SplitAtLast<T>(s: seq<T>, n: nat) returns (before: seq<T>)
    ensures s == before + LastOf(s, n)
    ensures |LastOf(s, n)| < n ==> before == []
    ensures |LastOf(s, n)| <= n
  {
    before := s[..|s| - |LastOf(s, n)|];
  }

  /** Touching a key that is among the n most recent moves it to the end of them. */
  lemma TouchRecent(touches: seq<Key>, k: Key, n: nat)
    requires k in MostRecent(touches, n)
    ensures MostRecent(touches + [k], n) == Remove(MostRecent(touches, n), k) + [k]
  {
    var m := MostRecent(touches, n);
    var p := SplitAtLast(Recency(touches), n);
    RecencyDistinct(touches);
    OnlyInSecond(p, m, k);
    TouchInSecond(touches, k, p, m);
    LastOfConcat(p, Remove(m, k) + [k], n);
  }

  /** Touching any other key appends it and drops the least recent ones beyond n. */
  lemma TouchNew(touches: seq<Key>, k: Key, n: nat)
    requires k !in MostRecent(touches, n)
    ensures MostRecent(touches + [k], n) == LastOf(MostRecent(touches, n) + [k], n)
  {
    var m := MostRecent(touches, n);
    var p := SplitAtLast(Recency(touches), n);
    TouchOutsideSecond(touches, k, p, m);
    LastOfConcat(Remove(p, k), m + [k], n);
  }

  // ----- Invariant

  datatype Known<V> = NotYet | Ended(outcome: Outcome<V>)

  function OutcomeOf<V>(p: Phase<V>): Known<V> {
    match p
    case Pending => NotYet
    case Settled(o) => Ended(o)
    case Stored(v) => Ended(Computed(v))
    case Done(o) => Ended(o)
  }

  /** v is what a finished or storing computation for key produced. */
  ghost predicate ComputedFor<V>(jobs: seq<Job<V>>, key: Key, v: V) {
    exists j :: 0 <= j < |jobs| && jobs[j].key == key && OutcomeOf(jobs[j].phase) == Ended(Computed(v))
  }

  ghost predicate SlotsOk<V>(s: State<V>) {
    && s.sem.Inv()
    && (forall c :: c in s.sem.Arrivals() ==> c < |s.jobs|)
    && (forall j :: 0 <= j < |s.jobs| ==> (s.jobs[j].phase.Pending? <==> j in s.sem.holders || j in s.sem.queue))
  }

  ghost predicate FlightOk<V>(s: State<V>) {
    && (forall k :: k in s.inflight ==> s.inflight[k] < |s.jobs|)
    && (forall k :: k in s.inflight ==> s.jobs[s.inflight[k]].key == k && !s.jobs[s.inflight[k]].phase.Done?)
    && (forall j :: 0 <= j < |s.jobs| && !s.jobs[j].phase.Done? ==>
          s.jobs[j].key in s.inflight && s.inflight[s.jobs[j].key] == j)
  }

  ghost predicate CacheOk<V>(s: State<V>) {
    && Keys(s.cache) == MostRecent(s.touches, s.maxEntries)
    && (forall e :: e in s.cache ==> ComputedFor(s.jobs, e.key, e.value))
    && (forall j :: 0 <= j < |s.jobs| && (s.jobs[j].phase.Pending? || s.jobs[j].phase.Settled?) ==> !Has(s.cache, s.jobs[j].key))
  }

  ghost predicate Inv<V>(s: State<V>) { SlotsOk(s) && FlightOk(s) && CacheOk(s) }

  lemma HolderNotQueued(s: Sem, c: Call)
    requires s.Inv() && c in s.holders
    ensures c !in s.queue
  {
    var i :| 0 <= i < |s.granted| && s.granted[i] == c;
    assert s.Arrivals()[i] == c;
    assert forall k :: 0 <= k < |s.queue| ==> s.queue[k] == s.Arrivals()[|s.granted| + k];
  }

  lemma StartInv<V>(maxEntries: nat, maxConcurrent: nat)
    ensures Inv(Start<V>(maxEntries, maxConcurrent))
  {
  }

  lemma MoreJobs<V>(s: State<V>, jobs: seq<Job<V>>)
    requires forall e :: e in s.cache ==> ComputedFor(s.jobs, e.key, e.value)
    requires |s.jobs| <= |jobs|
    requires forall j :: 0 <= j < |s.jobs| ==> jobs[j].key == s.jobs[j].key
    requires forall j :: 0 <= j < |s.jobs| && OutcomeOf(s.jobs[j].phase) != NotYet ==> OutcomeOf(jobs[j].phase) == OutcomeOf(s.jobs[j].phase)
    ensures forall e :: e in s.cache ==> ComputedFor(jobs, e.key, e.value)
  {
    forall e | e in s.cache
      ensures ComputedFor(jobs, e.key, e.value)
    {
      var j :| 0 <= j < |s.jobs| && s.jobs[j].key == e.key && OutcomeOf(s.jobs[j].phase) == Ended(Computed(e.value));
      assert jobs[j].key == e.key && OutcomeOf(jobs[j].phase) == Ended(Computed(e.value));
    }
  }

  /** What a hit does to the map: same entries, the key moved to the end. */
  lemma HitCache<V>(s: State<V>, key: Key, c: seq<Entry<Key, V>>)
    requires Keys(s.cache) == MostRecent(s.touches, s.maxEntries) && Has(s.cache, key)
    requires c == Set(Delete(s.cache, key), key, Get(s.cache, key))
    ensures Keys(c) == MostRecent(s.touches + [key], s.maxEntries)
    ensures forall e :: e in c ==> e in s.cache
    ensures forall k :: Has(c, k) ==> Has(s.cache, k)
  {
    TouchRecent(s.touches, key, s.maxEntries);
    MostRecentDistinct(s.touches, s.maxEntries);
    RemoveDistinct(Keys(s.cache), key);
    RemoveMembers(Keys(s.cache), key);
    KeysAfterSet(Delete(s.cache, key), key, Get(s.cache, key));
  }

  lemma HitKeepsInv<V>(s: State<V>, key: Key)
    requires Inv(s) && Has(s.cache, key)
    ensures Inv(GetStep(s, key).0)
    ensures ComputedFor(s.jobs, key, Get(s.cache, key))
  {
    var t := GetStep(s, key).0;
    HitCache(s, key, t.cache);
    assert SlotsOk(t) && FlightOk(t);
    assert CacheOk(t);
    assert Entry(key, Get(s.cache, key)) in s.cache;
  }

  lemma MostRecentDistinct(touches: seq<Key>, n: nat)
    ensures Distinct(MostRecent(touches, n))
  {
    RecencyDistinct(touches);
  }

  lemma NewJobKeepsInv<V>(s: State<V>, key: Key)
    requires Inv(s) && !Has(s.cache, key) && key !in s.inflight
    ensures Inv(GetStep(s, key).0)
  {
    var t := GetStep(s, key).0;
    ArriveKeepsInv(s.sem, |s.jobs|);
    NewJobSlots(s, t, key);
    NewJobFlight(s, t, key);
    MoreJobs(s, t.jobs);
    assert CacheOk(t);
  }

  lemma NewJobFlight<V>(s: State<V>, t: State<V>, key: Key)
    requires FlightOk(s) && key !in s.inflight
    requires t.jobs == s.jobs + [Job(key, Pending)] && t.inflight == s.inflight[key := |s.jobs|]
    ensures FlightOk(t)
  {
  }

  lemma NewJobSlots<V>(s: State<V>, t: State<V>, key: Key)
    requires SlotsOk(s)
    requires t.sem == s.sem.Acquire(|s.jobs|) && t.sem.Inv() && t.sem.Arrivals() == s.sem.Arrivals() + [|s.jobs|]
    requires t.jobs == s.jobs + [Job(key, Pending)]
    ensures SlotsOk(t)
  {
    forall j | 0 <= j < |t.jobs|
      ensures t.jobs[j].phase.Pending? <==> j in t.sem.holders || j in t.sem.queue
    {
      if j < |s.jobs| {
        assert t.jobs[j] == s.jobs[j];
      } else {
        assert j in t.sem.holders || t.sem.queue[|t.sem.queue| - 1] == j;
      }
    }
  }

  lemma GetKeepsInv<V>(s: State<V>, key: Key)
    requires Inv(s)
    ensures Inv(GetStep(s, key).0)
  {
    if Has(s.cache, key) {
      HitKeepsInv(s, key);
    } else if key !in s.inflight {
      NewJobKeepsInv(s, key);
    }
  }

  /** The answer to get(key) is a value computed for key, or the only unfinished computation for key. */
  lemma AnswerIsForKey<V>(s: State<V>, key: Key)
    requires Inv(s)
    ensures match GetStep(s, key).1
            case Hit(v) => ComputedFor(s.jobs, key, v)
            case Promised(j) =>
              var t := GetStep(s, key).0;
              j < |t.jobs| && t.jobs[j].key == key && !t.jobs[j].phase.Done?
  {
    if Has(s.cache, key) { HitKeepsInv(s, key); }
  }

  lemma SettleSlots<V>(s: State<V>, j: Call, o: Outcome<V>)
    requires SlotsOk(s) && Running(s, j)
    ensures SlotsOk(SettleStep(s, j, o))
  {
    var t := SettleStep(s, j, o);
    FinishKeepsInv(s.sem, j);
    HolderNotQueued(s.sem, j);
    forall i | 0 <= i < |t.jobs|
      ensures t.jobs[i].phase.Pending? <==> i in t.sem.holders || i in t.sem.queue
    {
      if s.sem.queue != [] {
        assert i in s.sem.queue <==> i == s.sem.queue[0] || i in s.sem.queue[1..];
        HeadOnlyOnce(s.sem);
      }
    }
  }

  lemma HeadOnlyOnce(s: Sem)
    requires s.Inv() && s.queue != []
    ensures s.queue[0] !in s.queue[1..]
  {
    assert forall k :: 0 <= k < |s.queue| ==> s.queue[k] == s.Arrivals()[|s.granted| + k];
  }

  lemma SettleKeepsInv<V>(s: State<V>, j: Call, o: Outcome<V>)
    requires Inv(s) && Running(s, j)
    ensures Inv(SettleStep(s, j, o))
  {
    var t := SettleStep(s, j, o);
    SettleSlots(s, j, o);
    MoreJobs(s, t.jobs);
  }

  lemma KeysOfLast<V>(m: seq<Entry<Key, V>>, n: nat)
    ensures Keys(LastOf(m, n)) == LastOf(Keys(m), n)
    ensures forall k :: Has(LastOf(m, n), k) ==> Has(m, k)
    ensures forall e :: e in LastOf(m, n) ==> e in m
  {
    assert Keys(LastOf(m, n)) == LastOf(Keys(m), n);
  }

  lemma StoredCache<V>(s: State<V>, key: Key, v: V, c: seq<Entry<Key, V>>)
    requires Keys(s.cache) == MostRecent(s.touches, s.maxEntries) && !Has(s.cache, key)
    requires c == LastOf(Set(s.cache, key, v), s.maxEntries)
    ensures Keys(c) == MostRecent(s.touches + [key], s.maxEntries)
    ensures forall e :: e in c ==> e in s.cache || e == Entry(key, v)
    ensures forall k :: Has(c, k) ==> Has(s.cache, k) || k == key
  {
    TouchNew(s.touches, key, s.maxEntries);
    SetNewAppends(s.cache, key, v);
    var grown := s.cache + [Entry(key, v)];
    assert Keys(grown) == Keys(s.cache) + [key];
    KeysOfLast(grown, s.maxEntries);
  }

  /** Moving a settled computation on touches neither the slots nor the in-flight table. */
  lemma PhaseChange<V>(s: State<V>, t: State<V>, j: Call, phase: Phase<V>)
    requires SlotsOk(s) && FlightOk(s) && j < |s.jobs| && t.sem == s.sem && t.inflight == s.inflight
    requires t.jobs == s.jobs[j := s.jobs[j].(phase := phase)]
    requires s.jobs[j].phase.Settled? && phase.Stored?
    ensures SlotsOk(t) && FlightOk(t)
  {
  }

  /** What storing a value does: it goes into the map, which keeps its most recent entries, and nothing else changes but the phase. */
  lemma StoreMeans<V>(s: State<V>, j: Call, key: Key, value: V)
    requires ReadyToStore(s, j) && s.jobs[j] == Job(key, Settled(Computed(value)))
    ensures var t := StoreStep(s, j);
            && t.cache == LastOf(Set(s.cache, key, value), s.maxEntries)
            && t.maxEntries == s.maxEntries && t.sem == s.sem && t.inflight == s.inflight && |t.jobs| == |s.jobs|
  {
  }

  lemma StoreKeepsInv<V>(s: State<V>, j: Call)
    requires Inv(s) && ReadyToStore(s, j)
    ensures Inv(StoreStep(s, j))
  {
    var t, key, v := StoreStep(s, j), s.jobs[j].key, s.jobs[j].phase.outcome.value;
    PhaseChange(s, t, j, Stored(v));
    StoredCache(s, key, v, t.cache);
    StoreCacheOk(s, t, j, key, v);
  }

  lemma StoreCacheOk<V>(s: State<V>, t: State<V>, j: Call, key: Key, v: V)
    requires FlightOk(s) && CacheOk(s) && j < |s.jobs| && s.jobs[j] == Job(key, Settled(Computed(v)))
    requires t.jobs == s.jobs[j := Job(key, Stored(v))]
    requires Keys(t.cache) == MostRecent(t.touches, t.maxEntries)
    requires forall e :: e in t.cache ==> e in s.cache || e == Entry(key, v)
    requires forall k :: Has(t.cache, k) ==> Has(s.cache, k) || k == key
    ensures CacheOk(t)
  {
    MoreJobs(s, t.jobs);
    assert t.jobs[j].key == key && OutcomeOf(t.jobs[j].phase) == Ended(Computed(v));
    assert ComputedFor(t.jobs, key, v);
    forall i | 0 <= i < |t.jobs| && (t.jobs[i].phase.Pending? || t.jobs[i].phase.Settled?)
      ensures !Has(t.cache, t.jobs[i].key)
    {
      assert t.jobs[i] == s.jobs[i];
      assert s.inflight[key] == j;
    }
  }

  /** A computation that ends leaves the in-flight table; a failed one leaves no entry anywhere. */
  lemma ForgetKeepsInv<V>(s: State<V>, j: Call)
    requires Inv(s) && ReadyToForget(s, j)
    ensures Inv(ForgetStep(s, j))
    ensures s.jobs[j].key !in ForgetStep(s, j).inflight
    ensures ForgetStep(s, j).jobs[j].phase == Done(Thrown) ==> !Has(ForgetStep(s, j).cache, s.jobs[j].key)
  {
    var t := ForgetStep(s, j);
    MoreJobs(s, t.jobs);
  }

  // ----- Whole runs

  datatype CacheEvent<V> = Called(key: Key) | Settles(job: Call, outcome: Outcome<V>) | Stores(job: Call) | Forgets(job: Call)

  ghost predicate CanHappen<V>(s: State<V>, e: CacheEvent<V>) {
    match e
    case Called(_) => true
    case Settles(j, _) => Running(s, j)
    case Stores(j) => ReadyToStore(s, j)
    case Forgets(j) => ReadyToForget(s, j)
  }

  ghost function Next<V>(s: State<V>, e: CacheEvent<V>): State<V>
    requires CanHappen(s, e)
  {
    match e
    case Called(key) => GetStep(s, key).0
    case Settles(j, o) => SettleStep(s, j, o)
    case Stores(j) => StoreStep(s, j)
    case Forgets(j) => ForgetStep(s, j)
  }

  /** `run` is a possible interleaving from s to t. */
  ghost predicate Reaches<V>(s: State<V>, run: seq<CacheEvent<V>>, t: State<V>)
    decreases |run|
  {
    if run == [] then s == t else CanHappen(s, run[0]) && Reaches(Next(s, run[0]), run[1..], t)
  }

  /** Every later state keeps each computation's key, and its outcome once it has one. */
  ghost predicate OutcomesKept<V>(s: State<V>, t: State<V>) {
    && |s.jobs| <= |t.jobs|
    && (forall j :: 0 <= j < |s.jobs| ==> t.jobs[j].key == s.jobs[j].key)
    && (forall j :: 0 <= j < |s.jobs| && OutcomeOf(s.jobs[j].phase) != NotYet ==>
          OutcomeOf(t.jobs[j].phase) == OutcomeOf(s.jobs[j].phase))
  }

  lemma NextKeepsInv<V>(s: State<V>, e: CacheEvent<V>)
    requires Inv(s) && CanHappen(s, e)
    ensures Inv(Next(s, e))
  {
    match e
    case Called(key) => GetKeepsInv(s, key);
    case Settles(j, o) => SettleKeepsInv(s, j, o);
    case Stores(j) => StoreKeepsInv(s, j);
    case Forgets(j) => ForgetKeepsInv(s, j);
  }

  lemma NextKeepsOutcomes<V>(s: State<V>, e: CacheEvent<V>)
    requires SlotsOk(s) && CanHappen(s, e)
    ensures OutcomesKept(s, Next(s, e))
    ensures Next(s, e).maxEntries == s.maxEntries && Next(s, e).sem.limit == s.sem.limit
  {
  }

  /** The invariant holds after every interleaving of calls, completions and failures. */
  lemma {:induction false} EveryInterleaving<V>(s: State<V>, run: seq<CacheEvent<V>>, t: State<V>)
    requires Inv(s) && Reaches(s, run, t)
    ensures Inv(t) && OutcomesKept(s, t)
    ensures t.maxEntries == s.maxEntries && t.sem.limit == s.sem.limit
    decreases |run|
  {
    if run != [] {
      NextKeepsInv(s, run[0]);
      NextKeepsOutcomes(s, run[0]);
      EveryInterleaving(Next(s, run[0]), run[1..], t);
    }
  }

  // ----- Order of use, told by the events

  /** The key that an event uses: a call that finds its key in the map, and a value stored. */
  ghost function UsedBy<V>(s: State<V>, e: CacheEvent<V>): seq<Key>
    requires CanHappen(s, e)
  {
    match e
    case Called(key) => if Has(s.cache, key) then [key] else []
    case Stores(j) => [s.jobs[j].key]
    case _ => []
  }

  /** The keys that a run uses, in order. */
  ghost function Used<V>(s: State<V>, run: seq<CacheEvent<V>>, t: State<V>): seq<Key>
    requires Reaches(s, run, t)
    decreases |run|
  {
    if run == [] then [] else UsedBy(s, run[0]) + Used(Next(s, run[0]), run[1..], t)
  }

  lemma StepTouches<V>(s: State<V>, e: CacheEvent<V>)
    requires CanHappen(s, e)
    ensures Next(s, e).touches == s.touches + UsedBy(s, e)
  {
  }

  /** What the state has recorded is what the events used. */
  lemma {:induction false} TouchesAreUses<V>(s: State<V>, run: seq<CacheEvent<V>>, t: State<V>)
    requires Reaches(s, run, t)
    ensures t.touches == s.touches + Used(s, run, t)
    decreases |run|
  {
    if run != [] {
      var e, next := run[0], Next(s, run[0]);
      StepTouches(s, e);
      TouchesAreUses(next, run[1..], t);
      var now, later := UsedBy(s, e), Used(next, run[1..], t);
      assert Used(s, run, t) == now + later && next.touches == s.touches + now;
      Associates(s.touches, now, later);
    }
  }

  /** A hit moves its key to the end of the map and changes nothing else: no value, no computation, no slot. */
  lemma HitMovesToEnd<V(!new)>(s: State<V>, key: Key)
    requires Inv(s) && Has(s.cache, key)
    ensures var t := GetStep(s, key).0;
            && Keys(t.cache) == Remove(Keys(s.cache), key) + [key]
            && (forall e :: e in t.cache <==> e in s.cache)
            && t.inflight == s.inflight && t.sem == s.sem && t.jobs == s.jobs
  {
    MostRecentDistinct(s.touches, s.maxEntries);
    DeleteThenSet(s.cache, key);
  }

  /** Anything else that is called leaves the map alone, and begins a computation only if none is in flight for the key. */
  lemma MissKeepsMap<V>(s: State<V>, key: Key)
    requires Inv(s) && !Has(s.cache, key)
    ensures var t := GetStep(s, key).0;
            && t.cache == s.cache
            && |t.jobs| == |s.jobs| + if exists j :: 0 <= j < |s.jobs| && s.jobs[j].key == key && !s.jobs[j].phase.Done? then 0 else 1
  {
    if key in s.inflight { assert s.jobs[s.inflight[key]].key == key; }
  }

  /**
   * From an empty cache, in every reachable state: at most one unfinished computation per key,
   * no more of them running than the limit, none waiting while a slot is free, never more entries
   * than allowed, and the keys in the map are, in order, the most recently used ones.
   */
  lemma ReachableStates<V>(maxEntries: nat, maxConcurrent: nat, run: seq<CacheEvent<V>>, t: State<V>)
    requires Reaches(Start<V>(maxEntries, maxConcurrent), run, t)
    ensures forall i, j :: 0 <= i < |t.jobs| && 0 <= j < |t.jobs| && !t.jobs[i].phase.Done? && !t.jobs[j].phase.Done?
              ==> (t.jobs[i].key == t.jobs[j].key ==> i == j)
    ensures |t.sem.holders| <= maxConcurrent
    ensures t.sem.queue != [] ==> |t.sem.holders| == maxConcurrent
    ensures |t.cache| <= maxEntries
    ensures Keys(t.cache) == MostRecent(Used(Start<V>(maxEntries, maxConcurrent), run, t), maxEntries)
    ensures forall e :: e in t.cache ==> ComputedFor(t.jobs, e.key, e.value)
  {
    StartInv<V>(maxEntries, maxConcurrent);
    EveryInterleaving(Start<V>(maxEntries, maxConcurrent), run, t);
    TouchesAreUses(Start<V>(maxEntries, maxConcurrent), run, t);
    assert [] + Used(Start<V>(maxEntries, maxConcurrent), run, t) == Used(Start<V>(maxEntries, maxConcurrent), run, t);
    assert |Keys(t.cache)| == |t.cache|;
  }

  /** After any run a call is answered from the map exactly when its key is among the most recently used. */
  lemma CallHitsIff<V>(maxEntries: nat, maxConcurrent: nat, run: seq<CacheEvent<V>>, t: State<V>, key: Key)
    requires Reaches(Start<V>(maxEntries, maxConcurrent), run, t)
    ensures GetStep(t, key).1.Hit? <==> key in MostRecent(Used(Start<V>(maxEntries, maxConcurrent), run, t), maxEntries)
  {
    ReachableStates(maxEntries, maxConcurrent, run, t);
  }

  /** The promise a caller was given ends with the outcome of a computation for the caller's own key. */
  lemma PromiseIsForKey<V>(s: State<V>, key: Key, run: seq<CacheEvent<V>>, t: State<V>)
    requires Inv(s) && GetStep(s, key).1.Promised? && Reaches(GetStep(s, key).0, run, t)
    ensures var j := GetStep(s, key).1.job; j < |t.jobs| && t.jobs[j].key == key
  {
    GetKeepsInv(s, key);
    AnswerIsForKey(s, key);
    EveryInterleaving(GetStep(s, key).0, run, t);
  }

  /** What a step, and then a run, of the cache does to its semaphore. */
  ghost function SlotEvent<V>(s: State<V>, e: CacheEvent<V>): seq<Event> {
    match e
    case Called(key) => if Has(s.cache, key) || key in s.inflight then [] else [Arrive(|s.jobs|)]
    case Settles(j, _) => [Finish(j)]
    case _ => []
  }

  ghost function SlotEvents<V>(s: State<V>, run: seq<CacheEvent<V>>, t: State<V>): seq<Event>
    requires Reaches(s, run, t)
    decreases |run|
  {
    if run == [] then [] else SlotEvent(s, run[0]) + SlotEvents(Next(s, run[0]), run[1..], t)
  }

  ghost function Settlements<V>(run: seq<CacheEvent<V>>): nat {
    if run == [] then 0 else (if run[0].Settles? then 1 else 0) + Settlements(run[1..])
  }

  lemma StepFollowsProtocol<V>(s: State<V>, e: CacheEvent<V>)
    requires SlotsOk(s) && CanHappen(s, e)
    ensures Possible(s.sem, SlotEvent(s, e)) && After(s.sem, SlotEvent(s, e)) == Next(s, e).sem
    ensures Releases(SlotEvent(s, e)) == if e.Settles? then 1 else 0
  {
  }

  lemma PrependEvent(s: Sem, first: seq<Event>, rest: seq<Event>)
    requires |first| <= 1 && Possible(s, first) && Possible(After(s, first), rest)
    ensures Possible(s, first + rest) && After(s, first + rest) == After(After(s, first), rest)
    ensures Releases(first + rest) == Releases(first) + Releases(rest)
  {
    if first == [] {
      assert first + rest == rest;
    } else {
      assert first[1..] == [] && (first + rest)[1..] == rest;
      assert After(s, first) == Step(s, first[0]);
    }
  }

  lemma {:induction false} SlotsFollowProtocol<V>(s: State<V>, run: seq<CacheEvent<V>>, t: State<V>)
    requires Inv(s) && Reaches(s, run, t)
    ensures var slots := SlotEvents(s, run, t);
            Possible(s.sem, slots) && After(s.sem, slots) == t.sem && Releases(slots) == Settlements(run)
    decreases |run|
  {
    if run != [] {
      NextKeepsInv(s, run[0]);
      StepFollowsProtocol(s, run[0]);
      SlotsFollowProtocol(Next(s, run[0]), run[1..], t);
      PrependEvent(s.sem, SlotEvent(s, run[0]), SlotEvents(Next(s, run[0]), run[1..], t));
    }
  }

  /** The computation waiting at position p starts at the (p + 1)-th settlement, and not before. */
  lemma ComputationStartsAtItsTurn<V>(s: State<V>, run: seq<CacheEvent<V>>, t: State<V>, p: nat)
    requires Inv(s) && Reaches(s, run, t) && p < |s.sem.queue|
    ensures Settlements(run) == p + 1 ==> s.sem.queue[p] in t.sem.granted
    ensures Settlements(run) <= p ==> s.sem.queue[p] !in t.sem.granted
  {
    SlotsFollowProtocol(s, run, t);
    GrantedAtItsTurn(s.sem, SlotEvents(s, run, t), p);
  }

  // ----- The class

  class HeatmapCache<V(==)> {
    const maxEntries: nat
    const maxConcurrent: nat
    var cache: seq<Entry<Key, V>>
    var inflight: map<Key, Call>
    var active: int
    var waiters: seq<Call>
    /** The protocol state that the fields implement, and the number of computations begun. */
    ghost var state: State<V>
    var begun: nat

    ghost predicate Valid()
      reads this
    {
      && Inv(state)
      && state.maxEntries == maxEntries && state.sem.limit == maxConcurrent
      && cache == state.cache && inflight == state.inflight
      && active == |state.sem.holders| && waiters == state.sem.queue
      && begun == |state.jobs|
    }

    constructor (maxEntries: nat, maxConcurrent: nat)
      ensures Valid() && state == Start(maxEntries, maxConcurrent)
    {
      this.maxEntries, this.maxConcurrent := maxEntries, maxConcurrent;
      cache, inflight, active, waiters, begun := [], map[], 0, [], 0;
      state := Start(maxEntries, maxConcurrent);
      new;
      StartInv<V>(maxEntries, maxConcurrent);
    }

    /** The synchronous part of get, up to its first await. */
    method GetCall(key: Key) returns (reply: Reply<V>)
      requires Valid()
      modifies this
      ensures Valid() && (state, reply) == GetStep(old(state), key)
    {
      ghost var s := state;
      if Has(cache, key) {
        var cached := Get(cache, key);
        cache := Delete(cache, key);
        cache := Set(cache, key, cached);
        reply := Hit(cached);
      } else if key in inflight {
        reply := Promised(inflight[key]);
      } else {
        reply := Promised(begun);
        Launch(key, s);
      }
      state := GetStep(s, key).0;
      assert Inv(state) by { GetKeepsInv(s, key); }
    }

    /** Begins a computation: takes a slot or queues, and enters the in-flight table. */
    method Launch(key: Key, ghost s: State<V>)
      requires Inv(s) && begun == |s.jobs| && s.sem.limit == maxConcurrent
      requires inflight == s.inflight && active == |s.sem.holders| && waiters == s.sem.queue
      modifies `active, `waiters, `inflight, `begun
      ensures begun == |s.jobs| + 1
      ensures inflight == s.inflight[key := |s.jobs|]
      ensures active == |s.sem.Acquire(|s.jobs|).holders| && waiters == s.sem.Acquire(|s.jobs|).queue
    {
      ArriveKeepsInv(s.sem, |s.jobs|);
      Acquire(begun);
      inflight := inflight[key := begun];
      begun := begun + 1;
    }

    /** Takes a slot, or queues. */
    method Acquire(job: Call)
      modifies `active, `waiters
      ensures active == if old(active) < maxConcurrent then old(active) + 1 else old(active)
      ensures waiters == if old(active) < maxConcurrent then old(waiters) else old(waiters) + [job]
    {
      if active < maxConcurrent {
        active := active + 1;
        return;
      }
      waiters := waiters + [job];
    }

    /** A running computation settles: release() hands its slot to the next waiter, or gives it back. */
    method Settle(job: Call, o: Outcome<V>)
      requires Valid() && Running(state, job)
      modifies this
      ensures Valid() && state == SettleStep(old(state), job, o)
    {
      SettleKeepsInv(state, job, o);
      FinishKeepsInv(state.sem, job);
      state := SettleStep(state, job, o);
      if waiters != [] {
        waiters := waiters[1..];
      } else {
        active := active - 1;
      }
    }

    /** Memoizes a computed value and drops the least recently used entries beyond the maximum. */
    method Store(job: Call, key: Key, value: V)
      requires Valid() && ReadyToStore(state, job)
      requires state.jobs[job] == Job(key, Settled(Computed(value)))
      modifies this
      ensures Valid() && state == StoreStep(old(state), job)
    {
      Put(key, value);
      Remember(job, key, value);
    }

    ghost method Remember(job: Call, key: Key, value: V)
      requires Inv(state) && ReadyToStore(state, job) && state.jobs[job] == Job(key, Settled(Computed(value)))
      modifies `state
      ensures state == StoreStep(old(state), job) && Inv(state)
      ensures state.cache == LastOf(Set(old(state).cache, key, value), state.maxEntries)
      ensures state.maxEntries == old(state).maxEntries && state.sem == old(state).sem && state.inflight == old(state).inflight
      ensures |state.jobs| == |old(state).jobs|
    {
      StoreKeepsInv(state, job);
      StoreMeans(state, job, key, value);
      state := StoreStep(state, job);
    }

    method Put(key: Key, value: V)
      modifies `cache
      ensures cache == LastOf(Set(old(cache), key, value), maxEntries)
    {
      cache := Set(cache, key, value);
      DropOldest();
    }

    method DropOldest()
      modifies `cache
      ensures cache == LastOf(old(cache), maxEntries)
    {
      ghost var grown := cache;
      while |cache| > maxEntries
        invariant |cache| <= |grown| && cache == grown[|grown| - |cache|..]
        invariant |cache| >= maxEntries || cache == grown
      {
        cache := cache[1..];
      }
    }

    /** The last step of a computation: its key leaves the in-flight table. */
    method Forget(job: Call, key: Key)
      requires Valid() && ReadyToForget(state, job) && state.jobs[job].key == key
      modifies this
      ensures Valid() && state == ForgetStep(old(state), job)
      ensures key !in inflight
      ensures state.jobs[job].phase == Done(Thrown) ==> !Has(cache, key)
    {
      ForgetKeepsInv(state, job);
      state := ForgetStep(state, job);
      inflight := inflight - {key};
    }
  }
}
