/**
 * The bounded reaffirmation of access blocks (access/reaffirm.ts), and the periodic sweep
 * that carries its plan out (modules/access/access.service.ts).
 */
module Reaffirm {
  import opened Options
  import opened Semaphore
  import opened ArraySort

  type Mac = string

  /** The last reaffirmation that succeeded, by MAC, in milliseconds. */
  type Marks = map<Mac, int>

  const REAFIRMACION_INTERVALO_MS := 10 * 60000
  const REAFIRMACION_TOPE_POR_BARRIDO := 5

  /** The MACs to forget are a set here: nothing depends on their order. */
  datatype Plan = Plan(reafirmar: seq<Mac>, olvidar: set<Mac>)

  /** cuando is None for a MAC without a mark, which is older than any instant. */
  datatype Candidate = Candidate(mac: Mac, cuando: Option<int>)

  /** The members of a new Set, in the order in which they were first inserted. */
  function Unique(macs: seq<Mac>): seq<Mac> {
    if macs == [] then []
    else
      var rest, last := Unique(macs[..|macs| - 1]), macs[|macs| - 1];
      if last in rest then rest else rest + [last]
  }

  function When(mac: Mac, afirmadas: Marks): Option<int> {
    if mac in afirmadas then Some(afirmadas[mac]) else None
  }

  predicate Overdue(cuando: Option<int>, ahoraMs: int, intervaloMs: int) {
    cuando.None? || ahoraMs - cuando.value >= intervaloMs
  }

  predicate NotYounger(a: Option<int>, b: Option<int>) {
    a.None? || (b.Some? && a.value <= b.value)
  }

  predicate GoesBefore(a: Candidate, b: Candidate) { NotYounger(a.cuando, b.cuando) }

  function AllOverdue(macs: seq<Mac>, afirmadas: Marks, ahoraMs: int, intervaloMs: int): seq<Candidate> {
    if macs == [] then []
    else
      var c := Candidate(macs[0], When(macs[0], afirmadas));
      (if Overdue(c.cuando, ahoraMs, intervaloMs) then [c] else []) + AllOverdue(macs[1..], afirmadas, ahoraMs, intervaloMs)
  }

  /** slice(0, end): a negative end counts from the back. */
  function Slice<T>(s: seq<T>, end: int): seq<T> {
    if end >= |s| then s
    else if end >= 0 then s[..end]
    else if |s| + end >= 0 then s[..|s| + end]
    else []
  }

  function Macs(cs: seq<Candidate>): (macs: seq<Mac>)
    ensures |macs| == |cs|
  {
    seq(|cs|, i requires 0 <= i < |cs| => cs[i].mac)
  }

  function PlanDeReafirmacion(deseadas: seq<Mac>, afirmadas: Marks, ahoraMs: int, intervaloMs: int, tope: int): Plan {
    var vencidas := Sort(AllOverdue(Unique(deseadas), afirmadas, ahoraMs, intervaloMs), GoesBefore);
    Plan(Macs(Slice(vencidas, tope)), set mac | mac in afirmadas && mac !in Unique(deseadas))
  }

  // ----- One plan

  lemma {:induction false} UniqueMembers(macs: seq<Mac>)
    ensures Distinct(Unique(macs)) && forall x :: x in Unique(macs) <==> x in macs
  {
    if macs != [] {
      assert macs == macs[..|macs| - 1] + [macs[|macs| - 1]];
      UniqueMembers(macs[..|macs| - 1]);
    }
  }

  lemma {:induction false} OverdueMembers(macs: seq<Mac>, afirmadas: Marks, ahoraMs: int, intervaloMs: int)
    requires Distinct(macs)
    ensures var cs := AllOverdue(macs, afirmadas, ahoraMs, intervaloMs);
            && Distinct(cs)
            && forall c :: c in cs <==> c.mac in macs && c.cuando == When(c.mac, afirmadas) && Overdue(c.cuando, ahoraMs, intervaloMs)
  {
    if macs != [] {
      assert macs == [macs[0]] + macs[1..];
      OverdueMembers(macs[1..], afirmadas, ahoraMs, intervaloMs);
    }
  }

  /** The overdue candidates, from the oldest mark to the newest. */
  ghost predicate Ranking(vencidas: seq<Candidate>, deseadas: seq<Mac>, afirmadas: Marks, ahoraMs: int, intervaloMs: int) {
    && Distinct(vencidas) && Sorted(vencidas, GoesBefore)
    && forall c :: c in vencidas <==> c.mac in deseadas && c.cuando == When(c.mac, afirmadas) && Overdue(c.cuando, ahoraMs, intervaloMs)
  }

  lemma RankingHolds(deseadas: seq<Mac>, afirmadas: Marks, ahoraMs: int, intervaloMs: int)
    ensures Ranking(Sort(AllOverdue(Unique(deseadas), afirmadas, ahoraMs, intervaloMs), GoesBefore), deseadas, afirmadas, ahoraMs, intervaloMs)
  {
    var cs := AllOverdue(Unique(deseadas), afirmadas, ahoraMs, intervaloMs);
    UniqueMembers(deseadas);
    OverdueMembers(Unique(deseadas), afirmadas, ahoraMs, intervaloMs);
    SortPermutes(cs, GoesBefore);
    SortSorts(cs, GoesBefore);
    SortKeepsDistinct(cs, GoesBefore);
    SameMembers(cs, Sort(cs, GoesBefore));
  }

  /** What a plan promises: at most the cap, no repeats, overdue and desired, and the oldest first. */
  ghost predicate Sound(plan: Plan, deseadas: seq<Mac>, afirmadas: Marks, ahoraMs: int, intervaloMs: int, tope: nat) {
    && Distinct(plan.reafirmar) && |plan.reafirmar| <= tope
    && (forall p :: p in plan.reafirmar ==> p in deseadas && Overdue(When(p, afirmadas), ahoraMs, intervaloMs))
    && (forall i, j :: 0 <= i < j < |plan.reafirmar| ==>
          NotYounger(When(plan.reafirmar[i], afirmadas), When(plan.reafirmar[j], afirmadas)))
    && (forall m :: m in deseadas && Overdue(When(m, afirmadas), ahoraMs, intervaloMs) && m !in plan.reafirmar ==>
          |plan.reafirmar| == tope && forall p :: p in plan.reafirmar ==> NotYounger(When(p, afirmadas), When(m, afirmadas)))
    && (forall m :: m in plan.olvidar <==> m in afirmadas && m !in deseadas)
  }

  /** The MACs of the first k candidates. */
  ghost predicate FirstMacs(macs: seq<Mac>, vencidas: seq<Candidate>) {
    |macs| <= |vencidas| && forall i :: 0 <= i < |macs| ==> macs[i] == vencidas[i].mac
  }

  lemma PickedAreRanked(macs: seq<Mac>, vencidas: seq<Candidate>, deseadas: seq<Mac>, afirmadas: Marks, ahoraMs: int, intervaloMs: int)
    requires Ranking(vencidas, deseadas, afirmadas, ahoraMs, intervaloMs) && FirstMacs(macs, vencidas)
    ensures Distinct(macs)
    ensures forall p :: p in macs ==> p in deseadas && Overdue(When(p, afirmadas), ahoraMs, intervaloMs)
    ensures forall i, j :: 0 <= i < j < |macs| ==> NotYounger(When(macs[i], afirmadas), When(macs[j], afirmadas))
  {
    forall i | 0 <= i < |macs| ensures vencidas[i] in vencidas && When(macs[i], afirmadas) == vencidas[i].cuando {
      assert vencidas[i] in vencidas;
    }
    forall i, j | 0 <= i < j < |macs| ensures macs[i] != macs[j] && NotYounger(When(macs[i], afirmadas), When(macs[j], afirmadas)) {
      assert vencidas[i] != vencidas[j] && GoesBefore(vencidas[i], vencidas[j]);
    }
  }

  lemma LeftOutIsNotOlder(macs: seq<Mac>, vencidas: seq<Candidate>, deseadas: seq<Mac>, afirmadas: Marks, ahoraMs: int, intervaloMs: int,
                          m: Mac)
    requires Ranking(vencidas, deseadas, afirmadas, ahoraMs, intervaloMs) && FirstMacs(macs, vencidas)
    requires m in deseadas && Overdue(When(m, afirmadas), ahoraMs, intervaloMs) && m !in macs
    ensures |macs| < |vencidas|
    ensures forall p :: p in macs ==> NotYounger(When(p, afirmadas), When(m, afirmadas))
  {
    var i := LeftBehind(vencidas, macs, Candidate(m, When(m, afirmadas)));
    forall p | p in macs ensures NotYounger(When(p, afirmadas), When(m, afirmadas)) {
      var j :| 0 <= j < |macs| && macs[j] == p;
      assert vencidas[j] in vencidas && GoesBefore(vencidas[j], vencidas[i]);
    }
  }

  /** An overdue MAC is left out only when the plan is full of MACs that are not younger. */
  lemma PlanIsSound(deseadas: seq<Mac>, afirmadas: Marks, ahoraMs: int, intervaloMs: int, tope: nat)
    ensures Sound(PlanDeReafirmacion(deseadas, afirmadas, ahoraMs, intervaloMs, tope), deseadas, afirmadas, ahoraMs, intervaloMs, tope)
  {
    var vencidas := Sort(AllOverdue(Unique(deseadas), afirmadas, ahoraMs, intervaloMs), GoesBefore);
    var macs := Macs(Slice(vencidas, tope));
    RankingHolds(deseadas, afirmadas, ahoraMs, intervaloMs);
    UniqueMembers(deseadas);
    PickedAreRanked(macs, vencidas, deseadas, afirmadas, ahoraMs, intervaloMs);
    forall m | m in deseadas && Overdue(When(m, afirmadas), ahoraMs, intervaloMs) && m !in macs
      ensures |macs| == tope && forall p :: p in macs ==> NotYounger(When(p, afirmadas), When(m, afirmadas))
    {
      LeftOutIsNotOlder(macs, vencidas, deseadas, afirmadas, ahoraMs, intervaloMs, m);
    }
  }

  lemma LeftBehind(vencidas: seq<Candidate>, macs: seq<Mac>, c: Candidate) returns (i: nat)
    requires c in vencidas && |macs| <= |vencidas| && c.mac !in macs
    requires forall k :: 0 <= k < |macs| ==> macs[k] == vencidas[k].mac
    ensures |macs| <= i < |vencidas| && vencidas[i] == c
  {
    i :| 0 <= i < |vencidas| && vencidas[i] == c;
    assert forall k :: 0 <= k < |macs| ==> vencidas[k].mac in macs;
  }

  // ----- Sweeps

  /** One sweep: what must be blocked, when, and the MACs for which the router did not answer. */
  datatype Sweep = Sweep(deseadas: seq<Mac>, ahora: int, fallidas: set<Mac>)

  function PlanOf(s: Sweep, afirmadas: Marks, intervaloMs: int, tope: nat): Plan {
    PlanDeReafirmacion(s.deseadas, afirmadas, s.ahora, intervaloMs, tope)
  }

  /** The marks after a sweep: forgotten ones go, and a mark is set only on success. */
  function After(s: Sweep, plan: Plan, afirmadas: Marks): Marks {
    (afirmadas - plan.olvidar) + map mac | mac in plan.reafirmar && mac !in s.fallidas :: s.ahora
  }

  /** A MAC that need not be blocked loses its mark: blocked again, it is overdue at once, whatever the interval. */
  lemma ReleasedIsOverdueAgain(s: Sweep, afirmadas: Marks, intervaloMs: int, tope: nat, m: Mac, later: int)
    requires m !in s.deseadas
    ensures Overdue(When(m, After(s, PlanOf(s, afirmadas, intervaloMs, tope), afirmadas)), later, intervaloMs)
  {
    PlanIsSound(s.deseadas, afirmadas, s.ahora, intervaloMs, tope);
  }

  /** A mark moves only for a MAC that was picked and answered; a failing one stays overdue. */
  lemma OnlySuccessMarks(s: Sweep, afirmadas: Marks, intervaloMs: int, tope: nat, m: Mac)
    requires m in s.deseadas
    ensures var plan := PlanOf(s, afirmadas, intervaloMs, tope);
            When(m, After(s, plan, afirmadas)) == if m in plan.reafirmar && m !in s.fallidas then Some(s.ahora) else When(m, afirmadas)
  {
    PlanIsSound(s.deseadas, afirmadas, s.ahora, intervaloMs, tope);
  }

  /** m's last mark is at least an interval old, or there is none. */
  ghost predicate Due(m: Mac, afirmadas: Marks, ahoraMs: int, intervaloMs: int) {
    m in afirmadas ==> ahoraMs - afirmadas[m] >= intervaloMs
  }

  /** The plan in terms of the marks: only due MACs, unmarked ones first and then by age, and all of them when the cap allows. */
  lemma PlanByMarks(s: Sweep, afirmadas: Marks, intervaloMs: int, tope: nat)
    ensures var macs := PlanOf(s, afirmadas, intervaloMs, tope).reafirmar;
            && (forall m :: m in macs ==> m in s.deseadas && Due(m, afirmadas, s.ahora, intervaloMs))
            && (forall m, p :: m in s.deseadas && m !in macs && Due(m, afirmadas, s.ahora, intervaloMs) && p in macs ==>
                  p !in afirmadas || (m in afirmadas && afirmadas[p] <= afirmadas[m]))
            && (|macs| < tope ==> forall m :: m in s.deseadas ==> (m in macs <==> Due(m, afirmadas, s.ahora, intervaloMs)))
  {
    PlanIsSound(s.deseadas, afirmadas, s.ahora, intervaloMs, tope);
    forall m ensures Due(m, afirmadas, s.ahora, intervaloMs) <==> Overdue(When(m, afirmadas), s.ahora, intervaloMs) {}
  }

  /** The router answered for m at this sweep. */
  ghost predicate Succeeded(s: Sweep, plan: Plan, m: Mac) { m in plan.reafirmar && m !in s.fallidas }

  /** A MAC that stays desired is not picked again before an interval has passed since the router last answered for it. */
  lemma {:induction false} PicksAreSpaced(sweeps: seq<Sweep>, m: Mac, t: int, afirmadas: Marks, intervaloMs: int, tope: nat)
    requires When(m, afirmadas) == Some(t) && sweeps != [] && (forall i :: 0 <= i < |sweeps| ==> m in sweeps[i].deseadas)
    requires var plans := Plans(sweeps, afirmadas, intervaloMs, tope);
             && m in plans[|sweeps| - 1].reafirmar
             && forall i :: 0 <= i < |sweeps| - 1 ==> !Succeeded(sweeps[i], plans[i], m)
    ensures sweeps[|sweeps| - 1].ahora - t >= intervaloMs
    decreases |sweeps|
  {
    var s, rest := sweeps[0], sweeps[1..];
    var plan := PlanOf(s, afirmadas, intervaloMs, tope);
    var later := Plans(rest, After(s, plan, afirmadas), intervaloMs, tope);
    PlanByMarks(s, afirmadas, intervaloMs, tope);
    if |sweeps| > 1 {
      var plans := Plans(sweeps, afirmadas, intervaloMs, tope);
      assert plans == [plan] + later;
      OnlySuccessMarks(s, afirmadas, intervaloMs, tope, m);
      assert !Succeeded(sweeps[0], plans[0], m);
      forall i | 0 <= i < |rest| - 1 ensures !Succeeded(rest[i], later[i], m) {
        assert plans[i + 1] == later[i] && sweeps[i + 1] == rest[i] && !Succeeded(sweeps[i + 1], plans[i + 1], m);
      }
      PicksAreSpaced(rest, m, t, After(s, plan, afirmadas), intervaloMs, tope);
    }
  }

  function Plans(sweeps: seq<Sweep>, afirmadas: Marks, intervaloMs: int, tope: nat): (plans: seq<Plan>)
    ensures |plans| == |sweeps|
  {
    if sweeps == [] then []
    else
      var plan := PlanOf(sweeps[0], afirmadas, intervaloMs, tope);
      [plan] + Plans(sweeps[1..], After(sweeps[0], plan, afirmadas), intervaloMs, tope)
  }

  /** The same MACs must be blocked at every sweep, in any order, and only some of them may fail. */
  ghost predicate Steady(sweeps: seq<Sweep>, macs: set<Mac>, flaky: set<Mac>) {
    && (forall i :: 0 <= i < |sweeps| ==> (forall m :: m in sweeps[i].deseadas <==> m in macs) && sweeps[i].fallidas <= flaky)
    && (forall i, j :: 0 <= i < j < |sweeps| ==> sweeps[i].ahora < sweeps[j].ahora)
  }

  /** The other desired MACs that are not younger than m. */
  ghost function Ahead(m: Mac, macs: set<Mac>, afirmadas: Marks): set<Mac> {
    set x | x in macs && x != m && NotYounger(When(x, afirmadas), When(m, afirmadas))
  }

  lemma {:induction false} SetOfDistinct(s: seq<Mac>)
    requires Distinct(s)
    ensures |set x | x in s| == |s|
  {
    if s != [] {
      assert s == [s[0]] + s[1..];
      SetOfDistinct(s[1..]);
      assert (set x | x in s) == {s[0]} + (set x | x in s[1..]);
    }
  }

  lemma SubsetSize(a: set<Mac>, b: set<Mac>)
    requires a <= b
    ensures |a| <= |b|
  {
    assert b == a + (b - a);
  }

  /** What taking all of `taken` but `flaky` out of `ahead` leaves. */
  lemma TakenAway(ahead: set<Mac>, taken: set<Mac>, flaky: set<Mac>, left: set<Mac>)
    requires taken <= ahead && left <= ahead - (taken - flaky)
    ensures |left| + |taken| <= |ahead| + |flaky|
  {
    SubsetSize(left, ahead - (taken - flaky));
    SubsetSize(taken * flaky, flaky);
    assert taken == (taken - flaky) + taken * flaky;
    assert ahead == (ahead - (taken - flaky)) + (taken - flaky);
  }

  /** A plan without the overdue m takes from ahead of it every MAC that it reaffirms; whether m itself fails is no matter. */
  lemma WaitingShrinks(s: Sweep, plan: Plan, m: Mac, macs: set<Mac>, flaky: set<Mac>, afirmadas: Marks, intervaloMs: int, tope: nat)
    requires intervaloMs > 0 && (forall x :: x in s.deseadas <==> x in macs) && s.fallidas <= flaky + {m} && m in macs
    requires Sound(plan, s.deseadas, afirmadas, s.ahora, intervaloMs, tope)
    requires Overdue(When(m, afirmadas), s.ahora, intervaloMs) && m !in plan.reafirmar
    ensures var next := After(s, plan, afirmadas);
            && When(m, next) == When(m, afirmadas)
            && |Ahead(m, macs, next)| + tope <= |Ahead(m, macs, afirmadas)| + |flaky|
  {
    var next := After(s, plan, afirmadas);
    var taken := set p | p in plan.reafirmar;
    SetOfDistinct(plan.reafirmar);
    forall x | x in macs
      ensures When(x, next) == if x in taken && x !in s.fallidas then Some(s.ahora) else When(x, afirmadas)
    {
    }
    assert taken <= Ahead(m, macs, afirmadas);
    TakenAway(Ahead(m, macs, afirmadas), taken, flaky, Ahead(m, macs, next));
  }

  function Times(k: nat, n: nat): nat {
    if k == 0 then 0 else n + Times(k - 1, n)
  }

  lemma WaitOneSweep(s: Sweep, m: Mac, macs: set<Mac>, flaky: set<Mac>, afirmadas: Marks, intervaloMs: int, tope: nat)
    requires intervaloMs > 0 && (forall x :: x in s.deseadas <==> x in macs) && s.fallidas <= flaky + {m} && m in macs
    requires Overdue(When(m, afirmadas), s.ahora, intervaloMs) && m !in PlanOf(s, afirmadas, intervaloMs, tope).reafirmar
    ensures var next := After(s, PlanOf(s, afirmadas, intervaloMs, tope), afirmadas);
            && When(m, next) == When(m, afirmadas)
            && |Ahead(m, macs, next)| + tope <= |Ahead(m, macs, afirmadas)| + |flaky|
  {
    PlanIsSound(s.deseadas, afirmadas, s.ahora, intervaloMs, tope);
    WaitingShrinks(s, PlanOf(s, afirmadas, intervaloMs, tope), m, macs, flaky, afirmadas, intervaloMs, tope);
  }

  /** The number of the first sweep that picks m, or the number of sweeps when none does. */
  function FirstPick(m: Mac, sweeps: seq<Sweep>, afirmadas: Marks, intervaloMs: int, tope: nat): nat {
    if sweeps == [] then 0
    else
      var plan := PlanOf(sweeps[0], afirmadas, intervaloMs, tope);
      if m in plan.reafirmar then 0
      else 1 + FirstPick(m, sweeps[1..], After(sweeps[0], plan, afirmadas), intervaloMs, tope)
  }

  lemma {:induction false} FirstPickPicks(m: Mac, sweeps: seq<Sweep>, afirmadas: Marks, intervaloMs: int, tope: nat)
    ensures var k := FirstPick(m, sweeps, afirmadas, intervaloMs, tope);
            k < |sweeps| ==> m in Plans(sweeps, afirmadas, intervaloMs, tope)[k].reafirmar
    decreases |sweeps|
  {
    if sweeps != [] {
      FirstPickPicks(m, sweeps[1..], After(sweeps[0], PlanOf(sweeps[0], afirmadas, intervaloMs, tope), afirmadas), intervaloMs, tope);
    }
  }

  lemma {:induction false} PickedBeforeNobodyIsAhead(m: Mac, sweeps: seq<Sweep>, macs: set<Mac>, flaky: set<Mac>, afirmadas: Marks,
                                                     intervaloMs: int, tope: nat)
    requires intervaloMs > 0 && |flaky| < tope && Steady(sweeps, macs, flaky + {m}) && m in macs
    requires sweeps != [] ==> Overdue(When(m, afirmadas), sweeps[0].ahora, intervaloMs)
    requires |Ahead(m, macs, afirmadas)| < Times(|sweeps|, tope - |flaky|)
    ensures FirstPick(m, sweeps, afirmadas, intervaloMs, tope) < |sweeps|
    decreases |sweeps|
  {
    var s, rest := sweeps[0], sweeps[1..];
    var plan := PlanOf(s, afirmadas, intervaloMs, tope);
    if m !in plan.reafirmar {
      WaitOneSweep(s, m, macs, flaky, afirmadas, intervaloMs, tope);
      assert Steady(rest, macs, flaky + {m});
      PickedBeforeNobodyIsAhead(m, rest, macs, flaky, After(s, plan, afirmadas), intervaloMs, tope);
    }
  }

  /** n / d, rounded up. */
  function CeilDiv(n: nat, d: nat): nat
    requires d > 0
  {
    if n <= d then (if n == 0 then 0 else 1) else 1 + CeilDiv(n - d, d)
  }

  /** CeilDiv is the least number of times that d covers n. */
  lemma {:induction false} CeilIsLeast(n: nat, d: nat)
    requires d > 0
    ensures n <= Times(CeilDiv(n, d), d)
    ensures n > 0 ==> Times(CeilDiv(n, d) - 1, d) < n
    decreases n
  {
    if n > d { CeilIsLeast(n - d, d); }
  }

  lemma {:induction false} CeilCovers(n: nat, d: nat, k: nat)
    requires d > 0 && k >= CeilDiv(n, d)
    ensures n <= Times(k, d)
    decreases n
  {
    if n > d { CeilCovers(n - d, d, k - 1); }
  }

  lemma FewerAhead(m: Mac, macs: set<Mac>, afirmadas: Marks)
    requires m in macs
    ensures |Ahead(m, macs, afirmadas)| < |macs|
  {
    SubsetSize(Ahead(m, macs, afirmadas) + {m}, macs);
  }

  /** m is overdue at the first of these sweeps, and of the other MACs only the flaky ones may fail. */
  ghost predicate Awaits(m: Mac, sweeps: seq<Sweep>, macs: set<Mac>, flaky: set<Mac>, afirmadas: Marks, intervaloMs: int) {
    && Steady(sweeps, macs, flaky + {m}) && m in macs && m !in flaky && flaky <= macs
    && (sweeps != [] ==> Overdue(When(m, afirmadas), sweeps[0].ahora, intervaloMs))
  }

  /**
   * With N desired MACs, of which fewer than the cap ever fail besides m, an overdue m is picked within
   * ceil(N / (cap - failing)) sweeps, whatever the order of the desired set: ceil(N / cap) when none fails.
   */
  lemma PickedInTime(m: Mac, sweeps: seq<Sweep>, macs: set<Mac>, flaky: set<Mac>, afirmadas: Marks, intervaloMs: int, tope: nat)
    requires intervaloMs > 0 && |flaky| < tope && Awaits(m, sweeps, macs, flaky, afirmadas, intervaloMs)
    requires |sweeps| >= CeilDiv(|macs|, tope - |flaky|)
    ensures exists k :: 0 <= k < |sweeps| && m in Plans(sweeps, afirmadas, intervaloMs, tope)[k].reafirmar
  {
    FewerAhead(m, macs, afirmadas);
    CeilCovers(|macs|, tope - |flaky|, |sweeps|);
    PickedBeforeNobodyIsAhead(m, sweeps, macs, flaky, afirmadas, intervaloMs, tope);
    FirstPickPicks(m, sweeps, afirmadas, intervaloMs, tope);
  }

  // ----- Starving

  /** While as many MACs without a mark as the cap must be blocked, a MAC with a mark is not picked. */
  lemma UnmarkedGoFirst(s: Sweep, m: Mac, unmarked: set<Mac>, afirmadas: Marks, intervaloMs: int, tope: nat)
    requires m in afirmadas && |unmarked| >= tope
    requires forall x :: x in unmarked ==> x in s.deseadas && x !in afirmadas
    ensures m !in PlanOf(s, afirmadas, intervaloMs, tope).reafirmar
  {
    var plan := PlanOf(s, afirmadas, intervaloMs, tope);
    PlanIsSound(s.deseadas, afirmadas, s.ahora, intervaloMs, tope);
    if m in plan.reafirmar {
      forall x | x in unmarked ensures x in plan.reafirmar {
        assert Overdue(When(x, afirmadas), s.ahora, intervaloMs) && !NotYounger(When(m, afirmadas), When(x, afirmadas));
      }
      var picked := set p | p in plan.reafirmar;
      SetOfDistinct(plan.reafirmar);
      SubsetSize(unmarked + {m}, picked);
    }
  }

  lemma NeverIn(plan: Plan, later: seq<Plan>, m: Mac)
    requires m !in plan.reafirmar && forall k :: 0 <= k < |later| ==> m !in later[k].reafirmar
    ensures forall k :: 0 <= k < |[plan] + later| ==> m !in ([plan] + later)[k].reafirmar
  {
  }

  /**
   * As many failing MACs without a mark as the cap, whatever the cap, keep a MAC that was reaffirmed once from ever being
   * reaffirmed again.
   */
  lemma {:induction false} FailuresStarve(sweeps: seq<Sweep>, m: Mac, failing: set<Mac>, afirmadas: Marks, intervaloMs: int, tope: nat)
    requires m in afirmadas && |failing| >= tope && (forall x :: x in failing ==> x !in afirmadas)
    requires forall i :: 0 <= i < |sweeps| ==> m in sweeps[i].deseadas && failing <= sweeps[i].fallidas
    requires forall i, x :: 0 <= i < |sweeps| && x in failing ==> x in sweeps[i].deseadas
    ensures forall k :: 0 <= k < |sweeps| ==> m !in Plans(sweeps, afirmadas, intervaloMs, tope)[k].reafirmar
    decreases |sweeps|
  {
    if sweeps != [] {
      var s, rest := sweeps[0], sweeps[1..];
      assert m in s.deseadas && failing <= s.fallidas;
      assert forall x :: x in failing ==> x in s.deseadas;
      UnmarkedGoFirst(s, m, failing, afirmadas, intervaloMs, tope);
      var next := After(s, PlanOf(s, afirmadas, intervaloMs, tope), afirmadas);
      PlanIsSound(s.deseadas, afirmadas, s.ahora, intervaloMs, tope);
      FailuresStarve(rest, m, failing, next, intervaloMs, tope);
      NeverIn(PlanOf(s, afirmadas, intervaloMs, tope), Plans(rest, next, intervaloMs, tope), m);
    }
  }

  lemma {:induction false} ListOf(macs: set<Mac>) returns (list: seq<Mac>)
    ensures forall m :: m in list <==> m in macs
  {
    if macs == {} {
      list := [];
    } else {
      var m :| m in macs;
      var rest := ListOf(macs - {m});
      list := [m] + rest;
    }
  }

  /** A run of n sweeps, a millisecond apart, in which all the flaky MACs fail. */
  function Failing(list: seq<Mac>, flaky: set<Mac>, n: nat): (sweeps: seq<Sweep>)
    ensures |sweeps| == n && forall i :: 0 <= i < n ==> sweeps[i] == Sweep(list, i, flaky)
  {
    seq(n, i requires 0 <= i < n => Sweep(list, i, flaky))
  }

  /** Within n sweeps m is picked, whoever has which mark, whenever the sweeps come and whichever flaky MACs fail. */
  ghost predicate PickedWithin(n: nat, m: Mac, macs: set<Mac>, flaky: set<Mac>, intervaloMs: int, tope: nat) {
    forall sweeps: seq<Sweep>, afirmadas: Marks :: |sweeps| == n && Awaits(m, sweeps, macs, flaky, afirmadas, intervaloMs) ==>
      exists k :: 0 <= k < n && m in Plans(sweeps, afirmadas, intervaloMs, tope)[k].reafirmar
  }

  /** An overdue MAC is sure to be picked within some number of sweeps if and only if fewer others than the cap keep failing. */
  lemma SurelyPickedIff(m: Mac, macs: set<Mac>, flaky: set<Mac>, intervaloMs: int, tope: nat)
    requires intervaloMs > 0 && m in macs && m !in flaky && flaky <= macs
    ensures (exists n: nat :: PickedWithin(n, m, macs, flaky, intervaloMs, tope)) <==> |flaky| < tope
  {
    if |flaky| < tope {
      var n := CeilDiv(|macs|, tope - |flaky|);
      forall sweeps: seq<Sweep>, afirmadas: Marks | |sweeps| == n && Awaits(m, sweeps, macs, flaky, afirmadas, intervaloMs)
        ensures exists k :: 0 <= k < n && m in Plans(sweeps, afirmadas, intervaloMs, tope)[k].reafirmar
      {
        PickedInTime(m, sweeps, macs, flaky, afirmadas, intervaloMs, tope);
      }
      assert PickedWithin(n, m, macs, flaky, intervaloMs, tope);
    } else {
      forall n: nat ensures !PickedWithin(n, m, macs, flaky, intervaloMs, tope) {
        NeverPicked(n, m, macs, flaky, intervaloMs, tope);
      }
    }
  }

  lemma NeverPicked(n: nat, m: Mac, macs: set<Mac>, flaky: set<Mac>, intervaloMs: int, tope: nat)
    requires intervaloMs > 0 && m in macs && m !in flaky && flaky <= macs && |flaky| >= tope
    ensures !PickedWithin(n, m, macs, flaky, intervaloMs, tope)
  {
    var list := ListOf(macs);
    var sweeps, afirmadas := Failing(list, flaky, n), map[m := -intervaloMs];
    assert Awaits(m, sweeps, macs, flaky, afirmadas, intervaloMs);
    FailuresStarve(sweeps, m, flaky, afirmadas, intervaloMs, tope);
  }

  /** With the interval and the cap of the service, four MACs that keep failing are no obstacle and five are. */
  lemma ServiceSurelyPicksIff(m: Mac, macs: set<Mac>, flaky: set<Mac>)
    requires m in macs && m !in flaky && flaky <= macs
    ensures (exists n: nat :: PickedWithin(n, m, macs, flaky, REAFIRMACION_INTERVALO_MS, REAFIRMACION_TOPE_POR_BARRIDO)) <==> |flaky| <= 4
  {
    SurelyPickedIff(m, macs, flaky, REAFIRMACION_INTERVALO_MS, REAFIRMACION_TOPE_POR_BARRIDO);
  }

  // ----- The bound is tight

  /** What a sweep without failures does to the MACs without a mark: at most the cap of them are marked. */
  lemma UnmarkedShrinkSlowly(s: Sweep, unmarked: set<Mac>, afirmadas: Marks, intervaloMs: int, tope: nat)
    requires s.fallidas == {} && forall x :: x in unmarked ==> x in s.deseadas && x !in afirmadas
    ensures var plan := PlanOf(s, afirmadas, intervaloMs, tope);
            var left := set x | x in unmarked && x !in plan.reafirmar;
            |left| + tope >= |unmarked| && forall x :: x in left ==> x !in After(s, plan, afirmadas)
  {
    var plan := PlanOf(s, afirmadas, intervaloMs, tope);
    PlanIsSound(s.deseadas, afirmadas, s.ahora, intervaloMs, tope);
    var picked := set p | p in plan.reafirmar;
    var left := set x | x in unmarked && x !in plan.reafirmar;
    SetOfDistinct(plan.reafirmar);
    SubsetSize(unmarked - left, picked);
    assert unmarked == left + (unmarked - left);
  }

  /** A sweep leaves m in line: it is not picked, keeps its mark, and enough MACs are still unmarked. */
  lemma StaysInLine(s: Sweep, m: Mac, unmarked: set<Mac>, afirmadas: Marks, intervaloMs: int, tope: nat) returns (left: set<Mac>)
    requires s.fallidas == {} && m in s.deseadas && m in afirmadas && |unmarked| >= tope
    requires forall x :: x in unmarked ==> x in s.deseadas && x !in afirmadas
    ensures var plan := PlanOf(s, afirmadas, intervaloMs, tope);
            var next := After(s, plan, afirmadas);
            && m !in plan.reafirmar && m in next
            && left <= unmarked && |left| + tope >= |unmarked| && forall x :: x in left ==> x !in next
  {
    var plan := PlanOf(s, afirmadas, intervaloMs, tope);
    left := set x | x in unmarked && x !in plan.reafirmar;
    UnmarkedGoFirst(s, m, unmarked, afirmadas, intervaloMs, tope);
    UnmarkedShrinkSlowly(s, unmarked, afirmadas, intervaloMs, tope);
    OnlySuccessMarks(s, afirmadas, intervaloMs, tope, m);
  }

  lemma {:induction false} LastInLine(sweeps: seq<Sweep>, m: Mac, macs: set<Mac>, unmarked: set<Mac>, afirmadas: Marks, intervaloMs: int, tope: nat)
    requires Steady(sweeps, macs, {}) && m in macs && m in afirmadas && unmarked <= macs
    requires (forall x :: x in unmarked ==> x !in afirmadas) && |unmarked| >= Times(|sweeps|, tope)
    ensures forall k :: 0 <= k < |sweeps| ==> m !in Plans(sweeps, afirmadas, intervaloMs, tope)[k].reafirmar
    decreases |sweeps|
  {
    if sweeps != [] {
      var s, rest := sweeps[0], sweeps[1..];
      assert s.fallidas == {} && forall x :: x in s.deseadas <==> x in macs;
      var left := StaysInLine(s, m, unmarked, afirmadas, intervaloMs, tope);
      assert Steady(rest, macs, {});
      var plan := PlanOf(s, afirmadas, intervaloMs, tope);
      var next := After(s, plan, afirmadas);
      LastInLine(rest, m, macs, left, next, intervaloMs, tope);
      NeverIn(plan, Plans(rest, next, intervaloMs, tope), m);
    }
  }

  /** Even when none fails, one sweep fewer than ceil(N / cap) is not enough. */
  lemma BoundIsTight(m: Mac, macs: set<Mac>, intervaloMs: int, tope: nat)
    requires intervaloMs > 0 && m in macs && tope > 0
    ensures !PickedWithin(CeilDiv(|macs|, tope) - 1, m, macs, {}, intervaloMs, tope)
    ensures PickedWithin(CeilDiv(|macs|, tope), m, macs, {}, intervaloMs, tope)
  {
    var n := CeilDiv(|macs|, tope) - 1;
    var list := ListOf(macs);
    var sweeps, afirmadas := Failing(list, {}, n), map[m := -intervaloMs];
    CeilIsLeast(|macs|, tope);
    assert macs == (macs - {m}) + {m};
    assert Awaits(m, sweeps, macs, {}, afirmadas, intervaloMs) && Steady(sweeps, macs, {});
    LastInLine(sweeps, m, macs, macs - {m}, afirmadas, intervaloMs, tope);
    forall more: seq<Sweep>, marks: Marks | |more| == n + 1 && Awaits(m, more, macs, {}, marks, intervaloMs)
      ensures exists k :: 0 <= k < n + 1 && m in Plans(more, marks, intervaloMs, tope)[k].reafirmar
    {
      PickedInTime(m, more, macs, {}, marks, intervaloMs, tope);
    }
  }
}
