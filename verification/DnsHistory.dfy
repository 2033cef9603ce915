/**
 * DNS history ingestion (dns/history.ts): which of the resolver's queries are new, and the
 * watermark with which the next poll goes on.
 */
module DnsHistory {
  import opened Options
  import opened Semaphore
  import opened ArraySort

  /** timestamp is what Date.parse makes of the text: None when it is not a finite number. */
  datatype DnsQuery = DnsQuery(timestamp: Option<int>, client: string, domain: string, blocked: bool)

  function FirmaDeConsulta(q: DnsQuery): string {
    q.client + "|" + q.domain + "|" + if q.blocked then "1" else "0"
  }

  datatype Entry = Entry(q: DnsQuery, ms: int)

  datatype Mark = Mark(ultimoMs: Option<int>, firmas: seq<string>)

  const MARCA_INICIAL := Mark(None, [])

  datatype Selection = Selection(nuevas: seq<Entry>, marca: Mark)

  /** What tells two log entries apart. */
  datatype Key = Key(ms: int, firma: string)

  function KeyOf(e: Entry): Key { Key(e.ms, FirmaDeConsulta(e.q)) }

  function Keys(es: seq<Entry>): set<Key> { set e | e in es :: KeyOf(e) }

  function WithInstant(consultas: seq<DnsQuery>): (es: seq<Entry>)
    ensures |es| <= |consultas|
  {
    if consultas == [] then []
    else
      var rest := WithInstant(consultas[1..]);
      match consultas[0].timestamp
      case None => rest
      case Some(ms) => [Entry(consultas[0], ms)] + rest
  }

  predicate NoLater(a: Entry, b: Entry) { a.ms <= b.ms }

  function Ordered(consultas: seq<DnsQuery>): seq<Entry> { Sort(WithInstant(consultas), NoLater) }

  predicate Unseen(e: Entry, marca: Mark) {
    match marca.ultimoMs
    case None => true
    case Some(last) => e.ms > last || (e.ms == last && FirmaDeConsulta(e.q) !in marca.firmas)
  }

  function AllUnseen(es: seq<Entry>, marca: Mark): seq<Entry> {
    if es == [] then []
    else (if Unseen(es[0], marca) then [es[0]] else []) + AllUnseen(es[1..], marca)
  }

  /** The loop pushes before it looks at the cap, so a cap below one still lets one entry in. */
  function Cap(tope: int): (n: nat)
    ensures n >= 1
  {
    if tope < 1 then 1 else tope
  }

  function First(es: seq<Entry>, tope: int): seq<Entry> {
    if |es| <= Cap(tope) then es else es[..Cap(tope)]
  }

  function FirmasAt(es: seq<Entry>, ms: int): seq<string> {
    if es == [] then []
    else (if es[0].ms == ms then [FirmaDeConsulta(es[0].q)] else []) + FirmasAt(es[1..], ms)
  }

  lemma {:induction false} FirmasAtMembers(es: seq<Entry>, ms: int)
    ensures forall f :: f in FirmasAt(es, ms) <==> Key(ms, f) in Keys(es)
  {
    if es != [] {
      assert es == [es[0]] + es[1..] && Keys(es) == {KeyOf(es[0])} + Keys(es[1..]);
      FirmasAtMembers(es[1..], ms);
    }
  }

  /** The first occurrence of each string, in order: what spreading a new Set gives. */
  function Dedupe(s: seq<string>): seq<string> {
    if s == [] then []
    else
      var rest, last := Dedupe(s[..|s| - 1]), s[|s| - 1];
      if last in rest then rest else rest + [last]
  }

  lemma {:induction false} DedupeMembers(s: seq<string>)
    ensures Distinct(Dedupe(s)) && forall x :: x in Dedupe(s) <==> x in s
  {
    if s != [] {
      assert s == s[..|s| - 1] + [s[|s| - 1]];
      DedupeMembers(s[..|s| - 1]);
    }
  }

  function NextMark(nuevas: seq<Entry>, marca: Mark): Mark {
    if nuevas == [] then marca
    else
      var last := nuevas[|nuevas| - 1].ms;
      var kept := if marca.ultimoMs == Some(last) then marca.firmas else [];
      Mark(Some(last), Dedupe(FirmasAt(nuevas, last) + kept))
  }

  function Select(consultas: seq<DnsQuery>, marca: Mark, tope: int): Selection {
    var nuevas := First(AllUnseen(Ordered(consultas), marca), tope);
    Selection(nuevas, NextMark(nuevas, marca))
  }

  lemma LookAtNext(es: seq<Entry>, i: nat, marca: Mark, nuevas: seq<Entry>)
    requires i < |es|
    ensures nuevas + AllUnseen(es[i..], marca)
         == (if Unseen(es[i], marca) then nuevas + [es[i]] else nuevas) + AllUnseen(es[i + 1..], marca)
  {
    assert es[i..][1..] == es[i + 1..];
    var rest := AllUnseen(es[i + 1..], marca);
    assert nuevas + ([es[i]] + rest) == (nuevas + [es[i]]) + rest;
    assert nuevas + ([] + rest) == nuevas + rest;
  }

  method SeleccionarNuevas(consultas: seq<DnsQuery>, marca: Mark, tope: int) returns (s: Selection)
    ensures s == Select(consultas, marca, tope)
  {
    var conInstante := Ordered(consultas);
    var yaVistas := set f | f in marca.firmas;
    var nuevas: seq<Entry> := [];
    var i := 0;
    while i < |conInstante|
      invariant i <= |conInstante| && |nuevas| < Cap(tope)
      invariant AllUnseen(conInstante, marca) == nuevas + AllUnseen(conInstante[i..], marca)
    {
      var e := conInstante[i];
      LookAtNext(conInstante, i, marca, nuevas);
      i := i + 1;
      if marca.ultimoMs.Some? {
        if e.ms < marca.ultimoMs.value { continue; }
        if e.ms == marca.ultimoMs.value && FirmaDeConsulta(e.q) in yaVistas { continue; }
      }
      nuevas := nuevas + [e];
      if |nuevas| >= tope { break; }
    }
    assert nuevas == First(AllUnseen(conInstante, marca), tope);
    s := Selection(nuevas, NextMark(nuevas, marca));
  }

  // ----- What is read off an answer

  /** The entries are the queries of the answer that have an instant. */
  lemma {:induction false} WithInstantMeans(consultas: seq<DnsQuery>)
    ensures forall e :: e in WithInstant(consultas) <==> e.q in consultas && e.q.timestamp == Some(e.ms)
  {
    if consultas != [] {
      assert consultas == [consultas[0]] + consultas[1..];
      WithInstantMeans(consultas[1..]);
    }
  }

  /** Two queries whose clients hold no bar have the same signature exactly when client, domain and verdict are the same. */
  lemma FirmaTellsApart(p: DnsQuery, q: DnsQuery)
    requires '|' !in p.client && '|' !in q.client
    ensures FirmaDeConsulta(p) == FirmaDeConsulta(q) <==> p.client == q.client && p.domain == q.domain && p.blocked == q.blocked
  {
    if FirmaDeConsulta(p) == FirmaDeConsulta(q) {
      var a, b := [if p.blocked then '1' else '0'], [if q.blocked then '1' else '0'];
      assert FirmaDeConsulta(p) == p.client + "|" + (p.domain + "|" + a) && FirmaDeConsulta(q) == q.client + "|" + (q.domain + "|" + b);
      SameUpToTheBar(p.client, p.domain + "|" + a, q.client, q.domain + "|" + b);
      SameBeforeTheLast(p.domain, if p.blocked then '1' else '0', q.domain, if q.blocked then '1' else '0');
    }
  }

  lemma SameUpToTheBar(a: string, rest: string, b: string, more: string)
    requires '|' !in a && '|' !in b && a + "|" + rest == b + "|" + more
    ensures a == b && rest == more
  {
    var s := a + "|" + rest;
    assert s[|a|] == '|' && s[|b|] == '|';
    assert forall i :: 0 <= i < |a| ==> s[i] == a[i] && a[i] in a;
    assert forall i :: 0 <= i < |b| ==> s[i] == b[i] && b[i] in b;
    assert a == s[..|a|] && b == s[..|b|];
    assert rest == s[|a| + 1..] && more == s[|b| + 1..];
  }

  lemma SameBeforeTheLast(a: string, c: char, b: string, d: char)
    requires a + "|" + [c] == b + "|" + [d]
    ensures a == b && c == d
  {
    var s := a + "|" + [c];
    assert s[|a| + 1] == c && s[|b| + 1] == d && a == s[..|a|] && b == s[..|b|];
  }

  /** The batch is as large as the cap lets it be; a cap below one lets one entry in. */
  lemma SelectionFills(consultas: seq<DnsQuery>, marca: Mark, tope: int)
    ensures var unseen, cap := |AllUnseen(Ordered(consultas), marca)|, if tope < 1 then 1 else tope;
            |Select(consultas, marca, tope).nuevas| == if unseen <= cap then unseen else cap
  {
  }

  // ----- What one selection keeps

  lemma NextMarkFirmas(nuevas: seq<Entry>, marca: Mark)
    requires nuevas != []
    ensures var last := nuevas[|nuevas| - 1].ms;
            var next := NextMark(nuevas, marca);
            && next.ultimoMs == Some(last) && Distinct(next.firmas)
            && forall f :: f in next.firmas <==> Key(last, f) in Keys(nuevas) || (marca.ultimoMs == Some(last) && f in marca.firmas)
  {
    var last := nuevas[|nuevas| - 1].ms;
    FirmasAtMembers(nuevas, last);
    DedupeMembers(FirmasAt(nuevas, last) + if marca.ultimoMs == Some(last) then marca.firmas else []);
  }

  /** The mark holds exactly the signatures ingested at its instant, and nothing later was ingested. */
  ghost predicate Tracks(marca: Mark, done: set<Key>) {
    && Distinct(marca.firmas)
    && match marca.ultimoMs
       case None => done == {} && marca.firmas == []
       case Some(last) => (forall k :: k in done ==> k.ms <= last) && (forall f :: f in marca.firmas <==> Key(last, f) in done)
  }

  lemma {:induction false} UnseenMembers(es: seq<Entry>, marca: Mark)
    ensures forall e :: e in AllUnseen(es, marca) <==> e in es && Unseen(e, marca)
  {
    if es != [] {
      assert es == [es[0]] + es[1..];
      UnseenMembers(es[1..], marca);
    }
  }

  lemma {:induction false} UnseenSorted(es: seq<Entry>, marca: Mark)
    requires Sorted(es, NoLater)
    ensures Sorted(AllUnseen(es, marca), NoLater)
  {
    if es != [] {
      UnseenSorted(es[1..], marca);
      UnseenMembers(es[1..], marca);
      assert forall e :: e in es[1..] ==> NoLater(es[0], e);
    }
  }

  lemma OrderedFacts(consultas: seq<DnsQuery>)
    ensures |Ordered(consultas)| <= |consultas|
    ensures Sorted(Ordered(consultas), NoLater)
    ensures forall e :: e in Ordered(consultas) <==> e in WithInstant(consultas)
  {
    SortSorts(WithInstant(consultas), NoLater);
    SortPermutes(WithInstant(consultas), NoLater);
    SameMembers(Ordered(consultas), WithInstant(consultas));
  }

  /** The new entries are unseen, in order of instant, and not later than any unseen entry left out. */
  lemma SelectionFacts(es: seq<Entry>, marca: Mark, tope: int)
    requires Sorted(es, NoLater)
    ensures var nuevas := First(AllUnseen(es, marca), tope);
            && |nuevas| <= Cap(tope) && Sorted(nuevas, NoLater)
            && (forall e :: e in nuevas ==> e in es && Unseen(e, marca))
            && (forall e, n :: e in es && Unseen(e, marca) && e !in nuevas && n in nuevas ==> n.ms <= e.ms)
  {
    UnseenMembers(es, marca);
    UnseenSorted(es, marca);
    var all, nuevas := AllUnseen(es, marca), First(AllUnseen(es, marca), tope);
    forall e, n | e in es && Unseen(e, marca) && e !in nuevas && n in nuevas ensures n.ms <= e.ms {
      var i :| 0 <= i < |all| && all[i] == e;
      var j :| 0 <= j < |nuevas| && nuevas[j] == n;
      assert i >= |nuevas|;
      assert NoLater(all[j], all[i]);
    }
  }

  lemma MarkTracks(nuevas: seq<Entry>, marca: Mark, done: set<Key>)
    requires Tracks(marca, done) && Sorted(nuevas, NoLater) && (forall e :: e in nuevas ==> Unseen(e, marca))
    ensures Tracks(NextMark(nuevas, marca), done + Keys(nuevas)) && Keys(nuevas) !! done
    ensures marca.ultimoMs.Some? ==> var next := NextMark(nuevas, marca).ultimoMs; next.Some? && next.value >= marca.ultimoMs.value
  {
    assert forall e :: e in nuevas ==> KeyOf(e) !in done;
    if nuevas == [] {
      assert done + Keys(nuevas) == done;
    } else {
      var last := nuevas[|nuevas| - 1];
      NextMarkFirmas(nuevas, marca);
      LastIsLatest(nuevas);
      assert Unseen(last, marca);
      assert forall k :: k in Keys(nuevas) ==> k.ms <= last.ms;
    }
  }

  lemma LastIsLatest(es: seq<Entry>)
    requires es != [] && Sorted(es, NoLater)
    ensures es[|es| - 1] in es && forall e :: e in es ==> e.ms <= es[|es| - 1].ms
  {
    forall e | e in es ensures e.ms <= es[|es| - 1].ms {
      var i :| 0 <= i < |es| && es[i] == e;
      assert i < |es| - 1 ==> NoLater(es[i], es[|es| - 1]);
    }
  }

  /** One selection ingests nothing ingested before, at most the cap, and leaves a mark that tracks what was ingested. */
  lemma SelectKeepsTrack(consultas: seq<DnsQuery>, marca: Mark, tope: int, done: set<Key>)
    requires Tracks(marca, done)
    ensures var s := Select(consultas, marca, tope);
            && Keys(s.nuevas) !! done && |s.nuevas| <= Cap(tope)
            && Tracks(s.marca, done + Keys(s.nuevas))
            && (marca.ultimoMs.Some? ==> s.marca.ultimoMs.Some? && s.marca.ultimoMs.value >= marca.ultimoMs.value)
  {
    OrderedFacts(consultas);
    SelectionFacts(Ordered(consultas), marca, tope);
    MarkTracks(Select(consultas, marca, tope).nuevas, marca, done);
  }

  // ----- Runs

  /** One poll of the service: the mark only moves on when the batch was written. */
  datatype Poll = Poll(consultas: seq<DnsQuery>, tope: int, written: bool)

  function Ingest(p: Poll, marca: Mark): Selection {
    if p.written then Select(p.consultas, marca, p.tope) else Selection([], marca)
  }

  /** What each poll of a run writes. */
  function Batches(polls: seq<Poll>, marca: Mark): (r: seq<seq<Entry>>)
    ensures |r| == |polls|
  {
    if polls == [] then []
    else [Ingest(polls[0], marca).nuevas] + Batches(polls[1..], Ingest(polls[0], marca).marca)
  }

  function MarkAfter(polls: seq<Poll>, marca: Mark): Mark {
    if polls == [] then marca else MarkAfter(polls[1..], Ingest(polls[0], marca).marca)
  }

  function Ingested(batches: seq<seq<Entry>>): set<Key> {
    if batches == [] then {} else Keys(batches[0]) + Ingested(batches[1..])
  }

  /**
   * Whatever the resolver answers to each poll, whatever the caps and whichever writes fail, no key is
   * written by two polls, and the mark stays exact.
   */
  lemma {:induction false} NoKeyTwice(polls: seq<Poll>, marca: Mark, done: set<Key>)
    requires Tracks(marca, done)
    ensures var batches := Batches(polls, marca);
            && Tracks(MarkAfter(polls, marca), done + Ingested(batches))
            && (forall i :: 0 <= i < |batches| ==> Keys(batches[i]) !! done)
            && (forall i, j :: 0 <= i < j < |batches| ==> Keys(batches[i]) !! Keys(batches[j]))
  {
    if polls == [] {
      assert done + {} == done;
    } else {
      var s := Ingest(polls[0], marca);
      var now := done + Keys(s.nuevas);
      if polls[0].written {
        SelectKeepsTrack(polls[0].consultas, marca, polls[0].tope, done);
      } else {
        assert now == done;
      }
      NoKeyTwice(polls[1..], s.marca, now);
      var rest := Batches(polls[1..], s.marca);
      assert now + Ingested(rest) == done + (Keys(s.nuevas) + Ingested(rest));
      assert Batches(polls, marca) == [s.nuevas] + rest;
      assert Ingested(Batches(polls, marca)) == Keys(s.nuevas) + Ingested(rest);
    }
  }

  // ----- Draining one log

  /** Every entry of the log is still unseen or has been ingested. */
  ghost predicate Covers(es: seq<Entry>, marca: Mark, done: set<Key>) {
    forall e :: e in es ==> Unseen(e, marca) || KeyOf(e) in done
  }

  lemma {:induction false} UnseenConcat(a: seq<Entry>, b: seq<Entry>, marca: Mark)
    ensures AllUnseen(a + b, marca) == AllUnseen(a, marca) + AllUnseen(b, marca)
  {
    if a == [] {
      assert a + b == b;
    } else {
      assert (a + b)[1..] == a[1..] + b;
      UnseenConcat(a[1..], b, marca);
    }
  }

  lemma {:induction false} UnseenTwice(es: seq<Entry>, marca: Mark, next: Mark)
    requires forall e :: e in es && Unseen(e, next) ==> Unseen(e, marca)
    ensures AllUnseen(AllUnseen(es, marca), next) == AllUnseen(es, next)
    ensures |AllUnseen(es, next)| <= |es|
  {
    if es != [] {
      assert es == [es[0]] + es[1..];
      UnseenTwice(es[1..], marca, next);
      UnseenConcat(if Unseen(es[0], marca) then [es[0]] else [], AllUnseen(es[1..], marca), next);
    }
  }

  /** What the next mark lets through was unseen before, and was not ingested now. */
  lemma MarkAdvances(nuevas: seq<Entry>, marca: Mark)
    requires nuevas != [] && Sorted(nuevas, NoLater) && (forall e :: e in nuevas ==> Unseen(e, marca))
    ensures forall e :: Unseen(e, NextMark(nuevas, marca)) ==> Unseen(e, marca) && e !in nuevas
  {
    var next := NextMark(nuevas, marca);
    var last := nuevas[|nuevas| - 1];
    NextMarkFirmas(nuevas, marca);
    assert last in nuevas;
    assert forall e :: e in nuevas ==> e.ms <= last.ms;
    forall e | e in nuevas ensures !Unseen(e, next) {
      assert KeyOf(e) in Keys(nuevas);
    }
  }

  lemma {:induction false} NoneUnseen(es: seq<Entry>, marca: Mark)
    requires forall e :: e in es ==> !Unseen(e, marca)
    ensures AllUnseen(es, marca) == []
  {
    if es != [] {
      assert es == [es[0]] + es[1..];
      NoneUnseen(es[1..], marca);
    }
  }

  lemma NextIsStricter(es: seq<Entry>, marca: Mark, tope: int)
    requires Sorted(es, NoLater) && AllUnseen(es, marca) != []
    ensures var nuevas := First(AllUnseen(es, marca), tope);
            forall e :: Unseen(e, NextMark(nuevas, marca)) ==> Unseen(e, marca) && e !in nuevas
  {
    SelectionFacts(es, marca, tope);
    MarkAdvances(First(AllUnseen(es, marca), tope), marca);
  }

  lemma OnlyTheRest(es: seq<Entry>, marca: Mark, next: Mark, nuevas: seq<Entry>, left: seq<Entry>)
    requires AllUnseen(es, marca) == nuevas + left
    requires forall e :: Unseen(e, next) ==> Unseen(e, marca) && e !in nuevas
    ensures |AllUnseen(es, next)| <= |left|
  {
    UnseenTwice(es, marca, next);
    UnseenTwice(left, marca, next);
    UnseenConcat(nuevas, left, next);
    NoneUnseen(nuevas, next);
  }

  /** Each poll that finds something leaves strictly less to find. */
  lemma PollShrinks(es: seq<Entry>, marca: Mark, tope: int)
    requires Sorted(es, NoLater) && AllUnseen(es, marca) != []
    ensures var next := NextMark(First(AllUnseen(es, marca), tope), marca);
            |AllUnseen(es, next)| < |AllUnseen(es, marca)|
  {
    var all := AllUnseen(es, marca);
    var nuevas := First(all, tope);
    NextIsStricter(es, marca, tope);
    assert all == nuevas + all[|nuevas|..];
    OnlyTheRest(es, marca, NextMark(nuevas, marca), nuevas, all[|nuevas|..]);
  }

  /** A poll loses nothing: what it does not ingest stays unseen. */
  lemma PollCovers(es: seq<Entry>, marca: Mark, tope: int, done: set<Key>)
    requires Sorted(es, NoLater) && Tracks(marca, done) && Covers(es, marca, done)
    ensures var nuevas := First(AllUnseen(es, marca), tope);
            Covers(es, NextMark(nuevas, marca), done + Keys(nuevas))
  {
    var nuevas := First(AllUnseen(es, marca), tope);
    var next := NextMark(nuevas, marca);
    SelectionFacts(es, marca, tope);
    MarkTracks(nuevas, marca, done);
    forall e | e in es && !Unseen(e, next) ensures KeyOf(e) in done + Keys(nuevas) {
      if Unseen(e, marca) && e !in nuevas && nuevas != [] {
        assert nuevas[|nuevas| - 1] in nuevas;
        assert next.ultimoMs == Some(e.ms);
      }
    }
  }

  /** At most n entries of the log are still unseen, and the others were ingested. */
  ghost predicate Draining(log: seq<DnsQuery>, marca: Mark, done: set<Key>, n: nat) {
    Tracks(marca, done) && Covers(Ordered(log), marca, done) && |AllUnseen(Ordered(log), marca)| <= n
  }

  lemma PollDrains(log: seq<DnsQuery>, marca: Mark, tope: int, done: set<Key>, n: nat)
    requires Draining(log, marca, done, n)
    ensures var s := Select(log, marca, tope);
            Draining(log, s.marca, done + Keys(s.nuevas), if n == 0 then 0 else n - 1)
  {
    var es := Ordered(log);
    OrderedFacts(log);
    SelectionFacts(es, marca, tope);
    if AllUnseen(es, marca) != [] { PollShrinks(es, marca, tope); }
    PollCovers(es, marca, tope, done);
    SelectKeepsTrack(log, marca, tope, done);
  }

  lemma Drained(log: seq<DnsQuery>, marca: Mark, done: set<Key>)
    requires Draining(log, marca, done, 0)
    ensures AllUnseen(Ordered(log), marca) == [] && Keys(Ordered(log)) <= done
  {
    UnseenMembers(Ordered(log), marca);
    assert forall e :: e in Ordered(log) ==> KeyOf(e) in done;
  }

  /** The mark and everything ingested so far, after some polls. */
  datatype Progress = Progress(marca: Mark, done: set<Key>)

  ghost function Polled(polls: seq<Poll>, marca: Mark, done: set<Key>): Progress
    decreases |polls|
  {
    if polls == [] then Progress(marca, done)
    else
      var s := Ingest(polls[0], marca);
      Polled(polls[1..], s.marca, done + Keys(s.nuevas))
  }

  ghost predicate AllOf(polls: seq<Poll>, log: seq<DnsQuery>) { forall i :: 0 <= i < |polls| ==> polls[i].consultas == log }

  /** How many polls wrote their batch. */
  function Written(polls: seq<Poll>): nat {
    if polls == [] then 0 else (if polls[0].written then 1 else 0) + Written(polls[1..])
  }

  lemma IngestDrains(p: Poll, marca: Mark, done: set<Key>, n: nat)
    requires Draining(p.consultas, marca, done, n)
    ensures var s := Ingest(p, marca);
            Draining(p.consultas, s.marca, done + Keys(s.nuevas), if p.written && n > 0 then n - 1 else n)
  {
    if p.written {
      PollDrains(p.consultas, marca, p.tope, done, n);
    } else {
      assert done + {} == done;
    }
  }

  /** Polling a log over and over, with as many written batches as there are unseen entries, ingests all of it. */
  lemma {:induction false} Drains(log: seq<DnsQuery>, polls: seq<Poll>, marca: Mark, done: set<Key>, n: nat)
    requires Draining(log, marca, done, n) && AllOf(polls, log) && n <= Written(polls)
    ensures var p := Polled(polls, marca, done);
            Draining(log, p.marca, p.done, 0)
    decreases |polls|
  {
    if polls != [] {
      var s := Ingest(polls[0], marca);
      IngestDrains(polls[0], marca, done, n);
      assert AllOf(polls[1..], log);
      Drains(log, polls[1..], s.marca, done + Keys(s.nuevas), if polls[0].written && n > 0 then n - 1 else n);
    }
  }

  lemma {:induction false} OnlyFromTheLog(log: seq<DnsQuery>, polls: seq<Poll>, marca: Mark, done: set<Key>)
    requires done <= Keys(Ordered(log)) && AllOf(polls, log)
    ensures Polled(polls, marca, done).done <= Keys(Ordered(log))
    decreases |polls|
  {
    if polls != [] {
      var s := Ingest(polls[0], marca);
      UnseenMembers(Ordered(log), marca);
      assert polls[0].consultas == log;
      assert forall e :: e in s.nuevas ==> e in AllUnseen(Ordered(log), marca);
      assert AllOf(polls[1..], log);
      OnlyFromTheLog(log, polls[1..], s.marca, done + Keys(s.nuevas));
    }
  }

  lemma OnePollThen(p: Poll, polls: seq<Poll>, marca: Mark, done: set<Key>)
    ensures var s := Ingest(p, marca);
            && MarkAfter([p] + polls, marca) == MarkAfter(polls, s.marca)
            && done + Ingested(Batches([p] + polls, marca)) == done + Keys(s.nuevas) + Ingested(Batches(polls, s.marca))
  {
    var s := Ingest(p, marca);
    assert ([p] + polls)[1..] == polls;
    var rest := Batches(polls, s.marca);
    assert ([s.nuevas] + rest)[1..] == rest;
  }

  lemma {:induction false} PolledIsARun(polls: seq<Poll>, marca: Mark, done: set<Key>)
    ensures Polled(polls, marca, done) == Progress(MarkAfter(polls, marca), done + Ingested(Batches(polls, marca)))
    decreases |polls|
  {
    if polls == [] {
      assert done + {} == done;
    } else {
      var s := Ingest(polls[0], marca);
      PolledIsARun(polls[1..], s.marca, done + Keys(s.nuevas));
      OnePollThen(polls[0], polls[1..], marca, done);
      assert [polls[0]] + polls[1..] == polls;
    }
  }

  lemma OneShot(log: seq<DnsQuery>)
    ensures Keys(Select(log, MARCA_INICIAL, |log|).nuevas) == Keys(WithInstant(log))
    ensures Draining(log, MARCA_INICIAL, {}, |log|)
  {
    var es := Ordered(log);
    OrderedFacts(log);
    UnseenTwice(es, MARCA_INICIAL, MARCA_INICIAL);
    UnseenMembers(es, MARCA_INICIAL);
    assert First(AllUnseen(es, MARCA_INICIAL), |log|) == AllUnseen(es, MARCA_INICIAL);
  }

  /**
   * From the initial mark, with any caps and any failed writes in between, a log is ingested completely once as many
   * batches were written as it has entries: the next batch is empty, and the keys ingested are those of the log, the same
   * that one poll without a cap takes.
   */
  lemma CappedIsOneShot(log: seq<DnsQuery>, polls: seq<Poll>, tope: int)
    requires AllOf(polls, log) && Written(polls) >= |log|
    ensures Select(log, MarkAfter(polls, MARCA_INICIAL), tope).nuevas == []
    ensures Ingested(Batches(polls, MARCA_INICIAL)) == Keys(WithInstant(log))
    ensures Ingested(Batches(polls, MARCA_INICIAL)) == Keys(Select(log, MARCA_INICIAL, |log|).nuevas)
  {
    DrainsTheLog(log, polls);
    PolledIsARun(polls, MARCA_INICIAL, {});
    OneShot(log);
  }

  lemma DrainsTheLog(log: seq<DnsQuery>, polls: seq<Poll>)
    requires AllOf(polls, log) && Written(polls) >= |log|
    ensures var p := Polled(polls, MARCA_INICIAL, {});
            AllUnseen(Ordered(log), p.marca) == [] && p.done == Keys(WithInstant(log))
  {
    var p := Polled(polls, MARCA_INICIAL, {});
    OneShot(log);
    Drains(log, polls, MARCA_INICIAL, {}, |log|);
    Drained(log, p.marca, p.done);
    OnlyFromTheLog(log, polls, MARCA_INICIAL, {});
    OrderedFacts(log);
    assert Keys(Ordered(log)) == Keys(WithInstant(log));
  }

  // ----- Rows

  /** How many of the entries have this key: the rows that writing them adds. */
  function Rows(es: seq<Entry>, k: Key): nat {
    if es == [] then 0 else (if KeyOf(es[0]) == k then 1 else 0) + Rows(es[1..], k)
  }

  lemma {:induction false} RowsConcat(a: seq<Entry>, b: seq<Entry>, k: Key)
    ensures Rows(a + b, k) == Rows(a, k) + Rows(b, k)
  {
    if a == [] {
      assert a + b == b;
    } else {
      assert (a + b)[1..] == a[1..] + b;
      RowsConcat(a[1..], b, k);
    }
  }

  lemma {:induction false} RowsIffIn(es: seq<Entry>, k: Key)
    ensures Rows(es, k) > 0 <==> k in Keys(es)
  {
    if es != [] {
      RowsIffIn(es[1..], k);
      assert es == [es[0]] + es[1..] && Keys(es) == {KeyOf(es[0])} + Keys(es[1..]);
    }
  }

  lemma {:induction false} RowsInserted(e: Entry, es: seq<Entry>, k: Key)
    ensures Rows(Insert(e, es, NoLater), k) == (if KeyOf(e) == k then 1 else 0) + Rows(es, k)
  {
    if es != [] && !NoLater(e, es[0]) {
      RowsInserted(e, es[1..], k);
      var rest := Insert(e, es[1..], NoLater);
      assert ([es[0]] + rest)[1..] == rest;
    } else {
      assert ([e] + es)[1..] == es;
    }
  }

  lemma {:induction false} RowsSorted(es: seq<Entry>, k: Key)
    ensures Rows(Sort(es, NoLater), k) == Rows(es, k)
  {
    if es != [] {
      RowsSorted(es[1..], k);
      RowsInserted(es[0], Sort(es[1..], NoLater), k);
    }
  }

  /** The mark lets through entries with this key. */
  predicate StillUnseen(k: Key, marca: Mark) {
    match marca.ultimoMs
    case None => true
    case Some(last) => k.ms > last || (k.ms == last && k.firma !in marca.firmas)
  }

  lemma {:induction false} RowsUnseen(es: seq<Entry>, marca: Mark, k: Key)
    ensures Rows(AllUnseen(es, marca), k) == if StillUnseen(k, marca) then Rows(es, k) else 0
  {
    if es != [] {
      RowsUnseen(es[1..], marca, k);
      RowsConcat(if Unseen(es[0], marca) then [es[0]] else [], AllUnseen(es[1..], marca), k);
      RowsConcat([es[0]], es[1..], k);
      assert [es[0]] + es[1..] == es;
    }
  }

  /** The cap leaves out nothing: all that is unseen fits, or the key is from before the instant at which it cuts. */
  predicate BeforeTheCut(consultas: seq<DnsQuery>, marca: Mark, tope: int, k: Key) {
    var all, nuevas := AllUnseen(Ordered(consultas), marca), Select(consultas, marca, tope).nuevas;
    all == nuevas || (nuevas != [] && k.ms < nuevas[|nuevas| - 1].ms)
  }

  /** A batch has as many rows of an unseen key as the answer has queries with it; only the cap can leave out some. */
  lemma BatchRows(consultas: seq<DnsQuery>, marca: Mark, tope: int, k: Key)
    ensures var rows, queries := Rows(Select(consultas, marca, tope).nuevas, k), Rows(WithInstant(consultas), k);
            && rows <= queries && (!StillUnseen(k, marca) ==> rows == 0)
            && (StillUnseen(k, marca) && BeforeTheCut(consultas, marca, tope, k) ==> rows == queries)
  {
    var all, nuevas := AllUnseen(Ordered(consultas), marca), Select(consultas, marca, tope).nuevas;
    var left := all[|nuevas|..];
    assert all == nuevas + left;
    RowsConcat(nuevas, left, k);
    RowsUnseen(Ordered(consultas), marca, k);
    RowsSorted(WithInstant(consultas), k);
    OrderedFacts(consultas);
    UnseenSorted(Ordered(consultas), marca);
    RowsIffIn(left, k);
    if nuevas != [] {
      var last := |nuevas| - 1;
      forall e | e in left ensures nuevas[last].ms <= e.ms {
        var i :| 0 <= i < |left| && left[i] == e;
        assert NoLater(all[last], all[|nuevas| + i]);
      }
    }
  }

  function TotalRows(batches: seq<seq<Entry>>, k: Key): nat {
    if batches == [] then 0 else Rows(batches[0], k) + TotalRows(batches[1..], k)
  }

  ghost predicate Disjoint(batches: seq<seq<Entry>>) {
    forall i, j :: 0 <= i < j < |batches| ==> Keys(batches[i]) !! Keys(batches[j])
  }

  lemma {:induction false} RowsOfOne(batches: seq<seq<Entry>>, k: Key)
    requires Disjoint(batches)
    ensures forall i :: 0 <= i < |batches| && k in Keys(batches[i]) ==> TotalRows(batches, k) == Rows(batches[i], k)
    ensures (forall i :: 0 <= i < |batches| ==> k !in Keys(batches[i])) ==> TotalRows(batches, k) == 0
  {
    if batches != [] {
      var rest := batches[1..];
      assert forall i :: 0 <= i < |rest| ==> rest[i] == batches[i + 1];
      RowsOfOne(rest, k);
      RowsIffIn(batches[0], k);
      assert forall i :: 0 < i < |batches| ==> batches[i] == rest[i - 1];
    }
  }

  /** The rows that a run writes with a key are those of the one batch that takes it. */
  lemma WrittenByOneBatch(polls: seq<Poll>, k: Key, i: nat)
    requires i < |polls|
    ensures var batches := Batches(polls, MARCA_INICIAL);
            k in Keys(batches[i]) ==> TotalRows(batches, k) == Rows(batches[i], k)
  {
    NoKeyTwice(polls, MARCA_INICIAL, {});
    RowsOfOne(Batches(polls, MARCA_INICIAL), k);
  }

  ghost predicate NoRepetition(es: seq<Entry>) { forall i, j :: 0 <= i < j < |es| ==> KeyOf(es[i]) != KeyOf(es[j]) }

  lemma NoRepetitionFrom(es: seq<Entry>)
    requires es != []
    ensures NoRepetition(es) <==> NoRepetition(es[1..]) && KeyOf(es[0]) !in Keys(es[1..])
  {
    var first, rest := KeyOf(es[0]), es[1..];
    assert forall i :: 0 <= i < |rest| ==> rest[i] == es[i + 1];
    if NoRepetition(rest) && first !in Keys(rest) {
      forall i, j | 0 <= i < j < |es| ensures KeyOf(es[i]) != KeyOf(es[j]) {
        assert es[j] == rest[j - 1] && rest[j - 1] in rest;
        if i > 0 { assert es[i] == rest[i - 1]; }
      }
    }
  }

  ghost predicate AllOnce(es: seq<Entry>) { forall k :: Rows(es, k) <= 1 }

  lemma {:induction false} OnceIffNoRepetition(es: seq<Entry>)
    ensures NoRepetition(es) <==> AllOnce(es)
  {
    if es != [] {
      var first, rest := KeyOf(es[0]), es[1..];
      NoRepetitionFrom(es);
      OnceIffNoRepetition(rest);
      RowsIffIn(rest, first);
      if NoRepetition(es) {
        forall k ensures Rows(es, k) <= 1 { assert Rows(rest, k) <= 1; }
      } else if first in Keys(rest) {
        assert Rows(es, first) > 1;
      } else {
        var k :| Rows(rest, k) > 1;
        assert Rows(es, k) > 1;
      }
    }
  }

  /** The total of every key is what one of the batches has of it, and none has more. */
  lemma RowsAreOfOne(batches: seq<seq<Entry>>, k: Key)
    requires Disjoint(batches)
    ensures forall i :: 0 <= i < |batches| ==> Rows(batches[i], k) <= TotalRows(batches, k)
    ensures TotalRows(batches, k) == 0 || exists i :: 0 <= i < |batches| && TotalRows(batches, k) == Rows(batches[i], k)
  {
    RowsOfOne(batches, k);
    forall i | 0 <= i < |batches| ensures Rows(batches[i], k) <= TotalRows(batches, k) { RowsIffIn(batches[i], k); }
  }

  lemma RepetitionShows(batches: seq<seq<Entry>>, i: nat)
    requires Disjoint(batches) && i < |batches| && !NoRepetition(batches[i])
    ensures exists k :: TotalRows(batches, k) > 1
  {
    OnceIffNoRepetition(batches[i]);
    var k :| Rows(batches[i], k) > 1;
    RowsAreOfOne(batches, k);
    assert TotalRows(batches, k) > 1;
  }

  lemma OnceInAll(batches: seq<seq<Entry>>, k: Key)
    requires Disjoint(batches) && forall i :: 0 <= i < |batches| ==> NoRepetition(batches[i])
    ensures TotalRows(batches, k) <= 1
  {
    RowsAreOfOne(batches, k);
    if i :| 0 <= i < |batches| && TotalRows(batches, k) == Rows(batches[i], k) {
      OnceIffNoRepetition(batches[i]);
      assert AllOnce(batches[i]);
    }
  }

  /** A run writes every key at most once if and only if no batch takes two queries with the same key. */
  lemma WrittenOnceIff(polls: seq<Poll>)
    ensures var batches := Batches(polls, MARCA_INICIAL);
            (forall k :: TotalRows(batches, k) <= 1) <==> forall i :: 0 <= i < |batches| ==> NoRepetition(batches[i])
  {
    var batches := Batches(polls, MARCA_INICIAL);
    NoKeyTwice(polls, MARCA_INICIAL, {});
    if i :| 0 <= i < |batches| && !NoRepetition(batches[i]) {
      RepetitionShows(batches, i);
    } else {
      forall k ensures TotalRows(batches, k) <= 1 { OnceInAll(batches, k); }
    }
  }

  lemma UncappedTakesAll(consultas: seq<DnsQuery>, marca: Mark, tope: int)
    requires Cap(tope) >= |consultas|
    ensures Select(consultas, marca, tope).nuevas == AllUnseen(Ordered(consultas), marca)
  {
    OrderedFacts(consultas);
    UnseenTwice(Ordered(consultas), marca, marca);
  }

  /** What a poll without a cap takes is free of repetitions exactly when the answer has none among what is unseen. */
  lemma AnswerRepeatsIff(consultas: seq<DnsQuery>, marca: Mark, tope: int)
    requires Cap(tope) >= |consultas|
    ensures NoRepetition(Select(consultas, marca, tope).nuevas)
            <==> forall k :: StillUnseen(k, marca) ==> Rows(WithInstant(consultas), k) <= 1
  {
    var nuevas := Select(consultas, marca, tope).nuevas;
    OnceIffNoRepetition(nuevas);
    UncappedTakesAll(consultas, marca, tope);
    forall k ensures Rows(nuevas, k) == if StillUnseen(k, marca) then Rows(WithInstant(consultas), k) else 0 {
      BatchRows(consultas, marca, tope, k);
    }
  }

  lemma TwinsInOrder(q: DnsQuery, ms: int)
    requires q.timestamp == Some(ms)
    ensures var twin := Entry(q, ms);
            Ordered([q, q]) == AllUnseen(Ordered([q, q]), MARCA_INICIAL) == [twin, twin]
  {
    var twin := Entry(q, ms);
    assert [q, q][1..] == [q] && [q][1..] == [];
    assert WithInstant([q, q]) == [twin, twin] by { assert WithInstant([q]) == [twin]; }
    assert [twin, twin][1..] == [twin];
    assert Ordered([q, q]) == [twin, twin] by { assert Sort([twin], NoLater) == [twin]; }
    assert AllUnseen([twin, twin], MARCA_INICIAL) == [twin, twin] by { assert AllUnseen([twin], MARCA_INICIAL) == [twin]; }
  }

  /**
   * The comment of firmaDeConsulta says that the second of two identical queries of one instant is dropped. In one
   * answer it is not, unless the cap falls between them: then the next poll drops it.
   */
  lemma TwinsAreWritten(q: DnsQuery, ms: int, tope: int)
    requires q.timestamp == Some(ms)
    ensures var first := Select([q, q], MARCA_INICIAL, tope);
            && first.nuevas == (if tope >= 2 then [Entry(q, ms), Entry(q, ms)] else [Entry(q, ms)])
            && forall again :: Select([q, q], first.marca, again).nuevas == []
  {
    var twin := Entry(q, ms);
    TwinsInOrder(q, ms);
    var first := Select([q, q], MARCA_INICIAL, tope);
    NextMarkFirmas(first.nuevas, MARCA_INICIAL);
    assert twin in first.nuevas && KeyOf(twin) in Keys(first.nuevas);
    NoneUnseen([twin, twin], first.marca);
  }
}
