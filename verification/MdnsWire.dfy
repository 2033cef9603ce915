/**
 * Responses as real responders write them (RFC 1035 section 4.1.4): every name may end in a pointer to an earlier one.
 * Whatever the buffer, if it holds these names and records, compressed in any way, the parser of discovery/dns.ts
 * understands them.
 */
module MdnsWire {
  import opened Bytes
  import opened Options
  import opened AsciiText
  import opened Mdns
  import opened MdnsResponse

  // ----- Names

  /** How a name is written: all its labels, or some of them and a pointer to where the others are written. */
  datatype Wire = Plain(own: seq<Label>) | Pointing(own: seq<Label>, target: nat, rest: Wire) {

    function Labels(): seq<Label> { if Plain? then own else own + rest.Labels() }

    function Pointers(): nat { if Plain? then 0 else 1 + rest.Pointers() }

    function Size(): nat { |LabelsBytes(own)| + if Plain? then 1 else 2 }
  }

  ghost predicate Lies(buf: seq<Byte>, pos: nat, w: Wire)
    decreases w
  {
    var at := pos + |LabelsBytes(w.own)|;
    && Readable(w.own) && StartsWith(buf, pos, LabelsBytes(w.own))
    && match w
       case Plain(_) => at < |buf| && buf[at] == 0
       case Pointing(_, target, rest) =>
         target < 16384 && StartsWith(buf, at, [(0xc0 + target / 256) as Byte, (target % 256) as Byte]) && Lies(buf, target, rest)
  }

  lemma StartsWithBoth(buf: seq<Byte>, pos: nat, a: seq<Byte>, b: seq<Byte>)
    requires StartsWith(buf, pos, a) && StartsWith(buf, pos + |a|, b)
    ensures StartsWith(buf, pos, a + b)
  {
    assert buf[pos..pos + |a + b|] == buf[pos..pos + |a|] + buf[pos + |a|..pos + |a| + |b|];
  }

  lemma PlainIsRead(buf: seq<Byte>, pos: nat, labels: seq<Label>, jumps: nat)
    requires jumps <= MAX_JUMPS && Lies(buf, pos, Plain(labels))
    ensures NameAt(buf, pos, jumps) == Name(labels, pos + Plain(labels).Size())
  {
    var at := pos + |LabelsBytes(labels)|;
    assert buf[at..at + 1] == [0];
    StartsWithBoth(buf, pos, LabelsBytes(labels), [0]);
    ReadUncompressed(buf, pos, jumps, labels);
  }

  lemma PointerIsRead(buf: seq<Byte>, pos: nat, own: seq<Label>, target: nat, suffix: seq<Label>, end: nat, jumps: nat)
    requires jumps < MAX_JUMPS && Readable(own) && StartsWith(buf, pos, LabelsBytes(own)) && target < 16384
    requires StartsWith(buf, pos + |LabelsBytes(own)|, [(0xc0 + target / 256) as Byte, (target % 256) as Byte])
    requires NameAt(buf, target, jumps + 1) == Name(suffix, end)
    ensures NameAt(buf, pos, jumps) == Name(own + suffix, pos + |LabelsBytes(own)| + 2)
  {
    StartsWithBoth(buf, pos, LabelsBytes(own), [(0xc0 + target / 256) as Byte, (target % 256) as Byte]);
    ReadCompressed(buf, pos, jumps, own, target);
  }

  lemma PointedIsRead(buf: seq<Byte>, pos: nat, w: Wire, suffix: seq<Label>, end: nat, jumps: nat)
    requires jumps < MAX_JUMPS && w.Pointing? && Lies(buf, pos, w) && NameAt(buf, w.target, jumps + 1) == Name(suffix, end)
    ensures NameAt(buf, pos, jumps) == Name(w.own + suffix, pos + w.Size())
  {
    PointerIsRead(buf, pos, w.own, w.target, suffix, end, jumps);
  }

  /** A name written with at most 32 pointers is read, however it is compressed. */
  lemma {:induction false} WireIsRead(buf: seq<Byte>, pos: nat, w: Wire, jumps: nat)
    requires Lies(buf, pos, w) && jumps + w.Pointers() <= MAX_JUMPS
    ensures NameAt(buf, pos, jumps) == Name(w.Labels(), pos + w.Size())
    decreases w
  {
    match w
    case Plain(own) => PlainIsRead(buf, pos, own, jumps);
    case Pointing(own, target, rest) =>
      WireIsRead(buf, target, rest, jumps + 1);
      PointedIsRead(buf, pos, w, rest.Labels(), target + rest.Size(), jumps);
  }

  lemma {:induction false} LongWireRefused(buf: seq<Byte>, pos: nat, w: Wire, jumps: nat)
    requires Lies(buf, pos, w) && jumps <= MAX_JUMPS < jumps + w.Pointers()
    ensures NameAt(buf, pos, jumps) == Bad
    decreases w
  {
    if jumps < MAX_JUMPS { LongWireRefused(buf, w.target, w.rest, jumps + 1); }
    LabelsThenPointer(buf, pos, w, jumps);
  }

  lemma LabelsThenBad(buf: seq<Byte>, pos: nat, labels: seq<Label>, jumps: nat)
    requires jumps <= MAX_JUMPS && Readable(labels) && StartsWith(buf, pos, LabelsBytes(labels))
    requires NameAt(buf, pos + |LabelsBytes(labels)|, jumps) == Bad
    ensures NameAt(buf, pos, jumps) == Bad
  {
    LabelsBytesLieThere(buf, pos, labels);
    ReadLabels(buf, pos, jumps, labels);
    AfterIsLength(pos, labels);
  }

  lemma PointerRefused(buf: seq<Byte>, at: nat, target: nat, jumps: nat)
    requires jumps <= MAX_JUMPS && target < 16384 && StartsWith(buf, at, [(0xc0 + target / 256) as Byte, (target % 256) as Byte])
    requires jumps == MAX_JUMPS || NameAt(buf, target, jumps + 1) == Bad
    ensures NameAt(buf, at, jumps) == Bad
  {
    var octets := buf[at..at + 2];
    assert buf[at] == octets[0] && buf[at + 1] == octets[1];
    PointerReadBack(target);
  }

  lemma LabelsThenPointer(buf: seq<Byte>, pos: nat, w: Wire, jumps: nat)
    requires jumps <= MAX_JUMPS && w.Pointing? && Lies(buf, pos, w)
    requires jumps == MAX_JUMPS || NameAt(buf, w.target, jumps + 1) == Bad
    ensures NameAt(buf, pos, jumps) == Bad
  {
    PointerRefused(buf, pos + |LabelsBytes(w.own)|, w.target, jumps);
    LabelsThenBad(buf, pos, w.own, jumps);
  }

  /** A name is read if and only if it takes at most 32 pointers. */
  lemma WireReadIff(buf: seq<Byte>, pos: nat, w: Wire)
    requires Lies(buf, pos, w)
    ensures if w.Pointers() <= 32 then NameAt(buf, pos, 0) == Name(w.Labels(), pos + w.Size()) else NameAt(buf, pos, 0) == Bad
  {
    if w.Pointers() <= MAX_JUMPS { WireIsRead(buf, pos, w, 0); } else { LongWireRefused(buf, pos, w, 0); }
  }

  /** What is written at pos stands for this name. */
  ghost predicate NameLies(buf: seq<Byte>, pos: nat, name: string, w: Wire) {
    Ascii(name) && Lies(buf, pos, w) && w.Labels() == LabelsOf(name) && w.Pointers() <= MAX_JUMPS
  }

  lemma NameUnderstood(buf: seq<Byte>, pos: nat, name: string, w: Wire, utf8: Label -> string)
    requires NameLies(buf, pos, name, w) && DecodesAscii(utf8)
    ensures NameAt(buf, pos, 0) == Name(w.Labels(), pos + w.Size()) && NameText(w.Labels(), utf8) == Normalized(name)
  {
    WireIsRead(buf, pos, w, 0);
    NormalText(name, utf8);
  }

  // ----- Questions

  /** The names of the questions lie at these positions, in any compression, each followed by its type and class. */
  ghost predicate QuestionsLieAt(buf: seq<Byte>, at: seq<nat>, questions: seq<Wire>) {
    && |at| == |questions| + 1
    && forall i :: 0 <= i < |questions| ==> QuestionLies(buf, at[i], questions[i]) && at[i + 1] == at[i] + questions[i].Size() + 4
  }

  ghost predicate QuestionLies(buf: seq<Byte>, pos: nat, w: Wire) { Lies(buf, pos, w) && w.Pointers() <= MAX_JUMPS }

  /** Where n questions from pos end. */
  ghost function EndAt(buf: seq<Byte>, pos: nat, n: nat): Option<nat> {
    match Questions(buf, pos, n)
    case None => None
    case Some((_, end)) => Some(end)
  }

  ghost function EndOf(buf: seq<Byte>): (nat, nat) -> Option<nat> { (pos: nat, n: nat) => EndAt(buf, pos, n) }

  ghost function ReadOf(buf: seq<Byte>): nat -> NameRead { (pos: nat) => NameAt(buf, pos, 0) }

  /** Names read one by one at these positions are skipped one by one, for any reader and any count that go on like that. */
  lemma {:induction false} NamesSkipped(read: nat -> NameRead, end: (nat, nat) -> Option<nat>, at: seq<nat>, names: seq<NameRead>, i: nat)
    requires |at| == |names| + 1 && i <= |names|
    requires forall p: nat :: end(p, 0) == Some(p)
    requires forall p: nat, n: nat :: n > 0 && read(p).Name? ==> end(p, n) == end(read(p).next + 4, n - 1)
    requires forall k :: 0 <= k < |names| ==> names[k].Name? && read(at[k]) == names[k]
    requires forall k :: 0 <= k < |names| ==> names[k].Name? && at[k + 1] == names[k].next + 4
    ensures end(at[i], |names| - i) == Some(at[|names|])
    decreases |names| - i
  {
    if i < |names| {
      assert read(at[i]) == names[i];
      NamesSkipped(read, end, at, names, i + 1);
    }
  }

  lemma NoQuestions(buf: seq<Byte>, p: nat)
    ensures EndOf(buf)(p, 0) == Some(p)
  {
  }

  lemma EndGoesOn(buf: seq<Byte>, p: nat, n: nat)
    requires n > 0 && NameAt(buf, p, 0).Name?
    ensures EndAt(buf, p, n) == EndAt(buf, NameAt(buf, p, 0).next + 4, n - 1)
  {
  }

  lemma OneQuestion(buf: seq<Byte>, p: nat, n: nat)
    requires n > 0 && ReadOf(buf)(p).Name?
    ensures EndOf(buf)(p, n) == EndOf(buf)(ReadOf(buf)(p).next + 4, n - 1)
  {
    EndGoesOn(buf, p, n);
  }

  lemma QuestionByQuestion(buf: seq<Byte>)
    ensures forall p: nat :: EndOf(buf)(p, 0) == Some(p)
    ensures forall p: nat, n: nat :: n > 0 && ReadOf(buf)(p).Name? ==> EndOf(buf)(p, n) == EndOf(buf)(ReadOf(buf)(p).next + 4, n - 1)
  {
    forall p: nat ensures EndOf(buf)(p, 0) == Some(p) { NoQuestions(buf, p); }
    forall p: nat, n: nat | n > 0 && ReadOf(buf)(p).Name? ensures EndOf(buf)(p, n) == EndOf(buf)(ReadOf(buf)(p).next + 4, n - 1) {
      OneQuestion(buf, p, n);
    }
  }

  ghost function ReadsOf(at: seq<nat>, ws: seq<Wire>): (names: seq<NameRead>)
    requires |at| >= |ws|
    ensures |names| == |ws| && forall i :: 0 <= i < |ws| ==> names[i] == Name(ws[i].Labels(), at[i] + ws[i].Size())
  {
    seq(|ws|, i requires 0 <= i < |ws| => Name(ws[i].Labels(), at[i] + ws[i].Size()))
  }

  lemma WiresAreRead(buf: seq<Byte>, at: seq<nat>, questions: seq<Wire>)
    requires QuestionsLieAt(buf, at, questions)
    ensures forall k :: 0 <= k < |questions| ==> ReadOf(buf)(at[k]) == ReadsOf(at, questions)[k]
  {
    forall k | 0 <= k < |questions| ensures ReadOf(buf)(at[k]) == ReadsOf(at, questions)[k] {
      WireIsRead(buf, at[k], questions[k], 0);
    }
  }

  lemma QuestionsSkipped(buf: seq<Byte>, at: seq<nat>, questions: seq<Wire>)
    requires QuestionsLieAt(buf, at, questions)
    ensures EndOf(buf)(at[0], |questions|) == Some(at[|questions|])
  {
    QuestionByQuestion(buf);
    WiresAreRead(buf, at, questions);
    NamesSkipped(ReadOf(buf), EndOf(buf), at, ReadsOf(at, questions), 0);
  }

  // ----- Records

  /** A record as it lies in the buffer: how its name, and the name in its data if there is one, are written, and its data length. */
  datatype Laid = Laid(rr: Rr, name: Wire, target: Wire, len: nat)

  ghost predicate DataLies(buf: seq<Byte>, start: nat, l: Laid) {
    match l.rr.data
    case PtrData(target) => NameLies(buf, start, target, l.target)
    case SrvData(_, port, target) =>
      l.len >= 6 && port < 65536 && StartsWith(buf, start + 4, Uint16Bytes(port)) && NameLies(buf, start + 6, target, l.target)
    case TxtData(pairs) =>
      (forall p :: p in pairs ==> Announceable(p)) && StartsWith(buf, start, TxtBytes(PairEntries(pairs))) && l.len == |TxtBytes(PairEntries(pairs))|
    case AData(a, b, c, d) => l.len == 4 && StartsWith(buf, start, [a, b, c, d])
    case OtherData(kind, _) => kind !in {12, 33, 16, 1}
  }

  ghost function DataStart(pos: nat, l: Laid): nat { pos + l.name.Size() + 10 }

  ghost function After(pos: nat, l: Laid): nat { DataStart(pos, l) + l.len }

  /** Its name, in any compression, and its fields. */
  ghost predicate HeadLies(buf: seq<Byte>, pos: nat, l: Laid) {
    var at := pos + l.name.Size();
    && Lies(buf, pos, l.name) && l.name.Pointers() <= MAX_JUMPS && After(pos, l) <= |buf|
    && Kind(l.rr.data) < 65536 && StartsWith(buf, at, Uint16Bytes(Kind(l.rr.data)))
    && l.len < 65536 && StartsWith(buf, at + 8, Uint16Bytes(l.len))
  }

  ghost predicate RecordLies(buf: seq<Byte>, pos: nat, l: Laid) {
    && HeadLies(buf, pos, l) && Ascii(l.rr.name) && l.name.Labels() == LabelsOf(l.rr.name)
    && DataLies(buf, DataStart(pos, l), l)
  }

  lemma PtrRead(buf: seq<Byte>, r: Record, labels: seq<Label>, end: nat, f: TextFns)
    requires r.rdataStart + r.rdlength <= |buf| && r.kind == TYPE_PTR as nat && NameAt(buf, r.rdataStart, 0) == Name(labels, end)
    ensures FactOf(buf, r, f) == Some(IsPtr(f.lower(NameText(r.name, f.utf8)), NameText(labels, f.utf8)))
  {
  }

  lemma SrvRead(buf: seq<Byte>, r: Record, port: nat, labels: seq<Label>, end: nat, f: TextFns)
    requires r.rdataStart + r.rdlength <= |buf| && r.kind == TYPE_SRV && r.rdlength >= 6 && Uint16(buf, r.rdataStart + 4) == port
    requires NameAt(buf, r.rdataStart + 6, 0) == Name(labels, end)
    ensures FactOf(buf, r, f)
         == Some(IsSrv(f.lower(NameText(r.name, f.utf8)), Host(port, f.lower(NameText(labels, f.utf8)))))
  {
  }

  lemma PtrUnderstood(buf: seq<Byte>, r: Record, target: string, w: Wire, f: TextFns)
    requires r.rdataStart + r.rdlength <= |buf| && r.kind == TYPE_PTR as nat && NameLies(buf, r.rdataStart, target, w) && DecodesAscii(f.utf8)
    ensures FactOf(buf, r, f) == Some(IsPtr(f.lower(NameText(r.name, f.utf8)), Normalized(target)))
  {
    NameUnderstood(buf, r.rdataStart, target, w, f.utf8);
    PtrRead(buf, r, w.Labels(), r.rdataStart + w.Size(), f);
  }

  lemma SrvUnderstood(buf: seq<Byte>, r: Record, port: nat, target: string, w: Wire, f: TextFns)
    requires r.rdataStart + r.rdlength <= |buf| && r.kind == TYPE_SRV && r.rdlength >= 6 && DecodesAscii(f.utf8)
    requires port < 65536 && StartsWith(buf, r.rdataStart + 4, Uint16Bytes(port)) && NameLies(buf, r.rdataStart + 6, target, w)
    ensures FactOf(buf, r, f) == Some(IsSrv(f.lower(NameText(r.name, f.utf8)), Host(port, f.lower(Normalized(target)))))
  {
    var start := r.rdataStart + 6;
    Uint16ReadBack(buf, r.rdataStart + 4, port);
    NameUnderstood(buf, start, target, w, f.utf8);
    SrvRead(buf, r, port, w.Labels(), start + w.Size(), f);
  }

  lemma DataUnderstood(buf: seq<Byte>, r: Record, l: Laid, f: TextFns)
    requires r.rdataStart + r.rdlength <= |buf| && r.kind == Kind(l.rr.data) && r.rdlength == l.len
    requires DataLies(buf, r.rdataStart, l) && DecodesAscii(f.utf8)
    ensures FactOf(buf, r, f) == Some(SaidOf(f.lower(NameText(r.name, f.utf8)), l.rr.data, f))
  {
    match l.rr.data
    case PtrData(target) => PtrUnderstood(buf, r, target, l.target, f);
    case SrvData(_, port, target) => SrvUnderstood(buf, r, port, target, l.target, f);
    case TxtData(pairs) => TxtReadBack(buf, r, pairs, f);
    case AData(a, b, c, d) => AReadBack(buf, r, a, b, c, d, f);
    case OtherData(_, _) =>
  }

  ghost function RecordOf(pos: nat, l: Laid): Record {
    Record(l.name.Labels(), Kind(l.rr.data), DataStart(pos, l), l.len)
  }

  /** The record cut out at pos, and what it says. */
  ghost predicate Understood(buf: seq<Byte>, pos: nat, r: Record, fact: Fact, f: TextFns) {
    pos < |buf| && CutAt(buf, pos) == Fits(r) && FactOf(buf, r, f) == Some(fact)
  }

  lemma RecordIsCut(buf: seq<Byte>, pos: nat, l: Laid)
    requires HeadLies(buf, pos, l)
    ensures pos < |buf| && CutAt(buf, pos) == Fits(RecordOf(pos, l))
  {
    WireIsRead(buf, pos, l.name, 0);
    Uint16ReadBack(buf, pos + l.name.Size(), Kind(l.rr.data));
    Uint16ReadBack(buf, pos + l.name.Size() + 8, l.len);
    FieldsAreCut(buf, pos, l.name.Labels(), pos + l.name.Size(), Kind(l.rr.data), l.len);
  }

  lemma SaidByName(rr: Rr, labels: seq<Label>, f: TextFns)
    requires Ascii(rr.name) && labels == LabelsOf(rr.name) && DecodesAscii(f.utf8)
    ensures SaidOf(f.lower(NameText(labels, f.utf8)), rr.data, f) == Said(rr, f)
  {
    NormalText(rr.name, f.utf8);
  }

  lemma RecordSays(buf: seq<Byte>, start: nat, l: Laid, f: TextFns)
    requires start + l.len <= |buf| && l.name.Labels() == LabelsOf(l.rr.name) && Ascii(l.rr.name)
    requires DataLies(buf, start, l) && DecodesAscii(f.utf8)
    ensures FactOf(buf, Record(l.name.Labels(), Kind(l.rr.data), start, l.len), f) == Some(Said(l.rr, f))
  {
    DataUnderstood(buf, Record(l.name.Labels(), Kind(l.rr.data), start, l.len), l, f);
    SaidByName(l.rr, l.name.Labels(), f);
  }

  lemma RecordUnderstood(buf: seq<Byte>, pos: nat, l: Laid, f: TextFns)
    requires RecordLies(buf, pos, l) && DecodesAscii(f.utf8)
    ensures Understood(buf, pos, RecordOf(pos, l), Said(l.rr, f), f)
  {
    RecordIsCut(buf, pos, l);
    RecordSays(buf, DataStart(pos, l), l, f);
  }

  ghost function TablesOf(buf: seq<Byte>, f: TextFns): (nat, nat, Tables) -> Option<Tables> {
    (pos: nat, n: nat, t: Tables) => TablesFrom(buf, pos, n, t, f)
  }

  /** The record cut out at a position with what it says, if both work out. */
  datatype Heard = Nothing | Heard(fact: Fact, next: nat)

  ghost function HeardAt(buf: seq<Byte>, pos: nat, f: TextFns): Heard {
    if pos < |buf| && CutAt(buf, pos).Fits? && FactOf(buf, CutAt(buf, pos).r, f).Some? then
      Heard(FactOf(buf, CutAt(buf, pos).r, f).value, CutAt(buf, pos).r.rdataStart + CutAt(buf, pos).r.rdlength)
    else Nothing
  }

  ghost function HeardOf(buf: seq<Byte>, f: TextFns): nat -> Heard { (pos: nat) => HeardAt(buf, pos, f) }

  /** What is heard at p is learned, and the reading goes on after it. */
  ghost predicate Steps(hear: nat -> Heard, tables: (nat, nat, Tables) -> Option<Tables>, p: nat, n: nat, u: Tables) {
    n > 0 && hear(p).Heard? ==> tables(p, n, u) == tables(hear(p).next, n - 1, Learn(u, hear(p).fact))
  }

  /** From the first table each fact leads to the next. */
  ghost predicate LearnedInTurn(facts: seq<Fact>, ts: seq<Tables>) {
    |ts| == |facts| + 1 && forall i {:trigger facts[i]} :: 0 <= i < |facts| ==> ts[i + 1] == Learn(ts[i], facts[i])
  }

  lemma InTurn(facts: seq<Fact>) returns (ts: seq<Tables>)
    ensures LearnedInTurn(facts, ts) && ts[0] == EMPTY && ts[|facts|] == LearnAll(facts, EMPTY)
  {
    ts := seq(|facts| + 1, i requires 0 <= i <= |facts| => LearnAll(facts[..i], EMPTY));
    assert facts[..0] == [] && facts[..|facts|] == facts;
    forall i | 0 <= i < |facts| ensures ts[i + 1] == Learn(ts[i], facts[i]) {
      assert facts[..i + 1][..i] == facts[..i];
    }
  }

  /** These facts are heard one after the other at these positions. */
  ghost predicate HeardAll(hear: nat -> Heard, at: seq<nat>, facts: seq<Fact>) {
    |at| == |facts| + 1 && forall k {:trigger facts[k]} :: 0 <= k < |facts| ==> hear(at[k]) == Heard(facts[k], at[k + 1])
  }

  /** Facts heard one by one at these positions are learned one by one. */
  lemma {:induction false} FactsLearned(hear: nat -> Heard, tables: (nat, nat, Tables) -> Option<Tables>, at: seq<nat>, facts: seq<Fact>,
                                        ts: seq<Tables>, i: nat, n: nat, left: nat)
    requires HeardAll(hear, at, facts) && LearnedInTurn(facts, ts) && i <= |facts| && n == i + left
    requires forall p: nat, n: nat, u: Tables :: Steps(hear, tables, p, n, u)
    ensures tables(at[0], n, ts[0]) == tables(at[i], left, ts[i])
  {
    if i > 0 {
      var fact := facts[i - 1];
      FactsLearned(hear, tables, at, facts, ts, i - 1, n, left + 1);
      assert hear(at[i - 1]) == Heard(fact, at[i]) && Steps(hear, tables, at[i - 1], left + 1, ts[i - 1]);
    }
  }

  lemma OneHeard(buf: seq<Byte>, p: nat, n: nat, u: Tables, f: TextFns)
    requires n > 0 && HeardAt(buf, p, f).Heard?
    ensures var h := HeardAt(buf, p, f);
            TablesFrom(buf, p, n, u, f) == TablesFrom(buf, h.next, n - 1, Learn(u, h.fact), f)
  {
    NextRecord(buf, p, n, u, f);
    var r, h := CutAt(buf, p).r, HeardAt(buf, p, f);
    assert CutAt(buf, p) == Fits(r) && FactOf(buf, r, f) == Some(h.fact) && h.next == r.rdataStart + r.rdlength;
  }

  lemma OneRecord(buf: seq<Byte>, p: nat, n: nat, u: Tables, f: TextFns)
    ensures Steps(HeardOf(buf, f), TablesOf(buf, f), p, n, u)
  {
    var hear, tables := HeardOf(buf, f), TablesOf(buf, f);
    var h := HeardAt(buf, p, f);
    assert hear(p) == h;
    if n > 0 && h.Heard? {
      OneHeard(buf, p, n, u, f);
      assert hear(p) == h && tables(p, n, u) == TablesFrom(buf, p, n, u, f);
      assert tables(h.next, n - 1, Learn(u, h.fact)) == TablesFrom(buf, h.next, n - 1, Learn(u, h.fact), f);
    }
  }

  lemma RecordByRecord(buf: seq<Byte>, f: TextFns)
    ensures forall p: nat, n: nat, u: Tables :: Steps(HeardOf(buf, f), TablesOf(buf, f), p, n, u)
  {
    forall p: nat, n: nat, u: Tables ensures Steps(HeardOf(buf, f), TablesOf(buf, f), p, n, u) {
      OneRecord(buf, p, n, u, f);
    }
  }

  /** The records lie one after the other, each at its position. */
  ghost predicate RecordsLie(buf: seq<Byte>, at: seq<nat>, ls: seq<Laid>) {
    |at| == |ls| + 1 && forall i {:trigger LiesInTurn(buf, at, ls, i)} :: 0 <= i < |ls| ==> LiesInTurn(buf, at, ls, i)
  }

  ghost predicate LiesInTurn(buf: seq<Byte>, at: seq<nat>, ls: seq<Laid>, i: nat)
    requires |at| == |ls| + 1 && i < |ls|
  {
    RecordLies(buf, at[i], ls[i]) && at[i + 1] == After(at[i], ls[i])
  }

  ghost function SaidIn(ls: seq<Laid>, f: TextFns): (facts: seq<Fact>)
    ensures |facts| == |ls| && forall i :: 0 <= i < |ls| ==> facts[i] == Said(ls[i].rr, f)
  {
    seq(|ls|, i requires 0 <= i < |ls| => Said(ls[i].rr, f))
  }

  lemma UnderstoodIsHeard(buf: seq<Byte>, pos: nat, r: Record, fact: Fact, f: TextFns)
    requires Understood(buf, pos, r, fact, f)
    ensures HeardAt(buf, pos, f) == Heard(fact, r.rdataStart + r.rdlength)
  {
  }

  lemma LaidIsHeard(buf: seq<Byte>, pos: nat, l: Laid, f: TextFns)
    requires RecordLies(buf, pos, l) && DecodesAscii(f.utf8)
    ensures HeardOf(buf, f)(pos) == Heard(Said(l.rr, f), After(pos, l))
  {
    RecordUnderstood(buf, pos, l, f);
    UnderstoodIsHeard(buf, pos, RecordOf(pos, l), Said(l.rr, f), f);
  }

  lemma AllHeard(buf: seq<Byte>, at: seq<nat>, ls: seq<Laid>, f: TextFns)
    requires RecordsLie(buf, at, ls) && DecodesAscii(f.utf8)
    ensures HeardAll(HeardOf(buf, f), at, SaidIn(ls, f))
  {
    forall k | 0 <= k < |ls| ensures HeardOf(buf, f)(at[k]) == Heard(SaidIn(ls, f)[k], at[k + 1]) {
      assert LiesInTurn(buf, at, ls, k);
      LaidIsHeard(buf, at[k], ls[k], f);
    }
  }

  // ----- How the records end

  /** All announced records were there, the buffer ends, the next record does not fit in it, or its name cannot be read. */
  datatype Ending = Complete | CutShort(name: Wire) | BadName

  ghost predicate Ends(buf: seq<Byte>, pos: nat, left: nat, end: Ending) {
    match end
    case Complete => left == 0 || pos >= |buf|
    case CutShort(w) =>
      && left > 0 && pos < |buf| && Lies(buf, pos, w) && w.Pointers() <= MAX_JUMPS
      && var at := pos + w.Size();
         at + 10 > |buf| || exists len: nat :: len < 65536 && at + 10 + len > |buf| && StartsWith(buf, at + 8, Uint16Bytes(len))
    case BadName => left > 0 && pos < |buf| && NameAt(buf, pos, 0) == Bad
  }

  lemma DoesNotFit(buf: seq<Byte>, pos: nat, labels: seq<Label>, at: nat)
    requires pos < |buf| && NameAt(buf, pos, 0) == Name(labels, at) && at + 10 <= |buf| && at + 10 + Uint16(buf, at + 8) > |buf|
    ensures CutAt(buf, pos) == Stops
  {
  }

  lemma CutShortStops(buf: seq<Byte>, pos: nat, w: Wire)
    requires Ends(buf, pos, 1, CutShort(w))
    ensures pos < |buf| && CutAt(buf, pos) == Stops
  {
    var at := pos + w.Size();
    WireIsRead(buf, pos, w, 0);
    assert NameAt(buf, pos, 0) == Name(w.Labels(), at);
    if at + 10 <= |buf| {
      var len: nat :| len < 65536 && at + 10 + len > |buf| && StartsWith(buf, at + 8, Uint16Bytes(len));
      Uint16ReadBack(buf, at + 8, len);
      DoesNotFit(buf, pos, w.Labels(), at);
    }
  }

  lemma EndsTheTables(buf: seq<Byte>, pos: nat, left: nat, end: Ending, t: Tables, f: TextFns)
    requires Ends(buf, pos, left, end)
    ensures TablesOf(buf, f)(pos, left, t) == if !end.BadName? then Some(t) else None
  {
    if left > 0 && pos < |buf| {
      if end.CutShort? { CutShortStops(buf, pos, end.name); }
      NextRecord(buf, pos, left, t, f);
    } else {
      assert Records(buf, pos, left) == Some([]);
    }
  }

  lemma RecordsUnderstood(buf: seq<Byte>, at: seq<nat>, ls: seq<Laid>, left: nat, n: nat, kept: bool, f: TextFns)
    requires n == |ls| + left && RecordsLie(buf, at, ls) && DecodesAscii(f.utf8)
    requires var learned := LearnAll(SaidIn(ls, f), EMPTY);
             TablesOf(buf, f)(at[|ls|], left, learned) == if kept then Some(learned) else None
    ensures TablesOf(buf, f)(at[0], n, EMPTY) == if kept then Some(LearnAll(SaidIn(ls, f), EMPTY)) else None
  {
    AllHeard(buf, at, ls, f);
    RecordByRecord(buf, f);
    TablesTell(HeardOf(buf, f), TablesOf(buf, f), at, SaidIn(ls, f), left, n, kept);
  }

  lemma TablesTell(hear: nat -> Heard, tables: (nat, nat, Tables) -> Option<Tables>, at: seq<nat>, facts: seq<Fact>, left: nat, n: nat,
                   kept: bool)
    requires HeardAll(hear, at, facts) && tables(at[|facts|], left, LearnAll(facts, EMPTY)) == if kept then Some(LearnAll(facts, EMPTY)) else None
    requires forall p: nat, n: nat, u: Tables :: Steps(hear, tables, p, n, u)
    requires n == |facts| + left
    ensures tables(at[0], n, EMPTY) == if kept then Some(LearnAll(facts, EMPTY)) else None
  {
    var ts := InTurn(facts);
    FactsLearned(hear, tables, at, facts, ts, |facts|, n, left);
  }

  // ----- Responses

  /** A response to some questions that announces these records and `left` more, in any compression and any sections. */
  ghost predicate ResponseLies(buf: seq<Byte>, asked: seq<nat>, questions: seq<Wire>, at: seq<nat>, ls: seq<Laid>, left: nat) {
    && |buf| >= 12 && Uint16(buf, 4) == |questions| && Uint16(buf, 6) + Uint16(buf, 8) + Uint16(buf, 10) == |ls| + left
    && QuestionsLieAt(buf, asked, questions) && asked[0] == 12
    && RecordsLie(buf, at, ls) && at[0] == asked[|questions|]
  }

  /**
   * However a response is compressed, parsing it gives what its records tell about each instance, up to where it is cut
   * short; and nothing at all when the name of the next record cannot be read.
   */
  lemma AnyResponseIsUnderstood(buf: seq<Byte>, asked: seq<nat>, questions: seq<Wire>, at: seq<nat>, ls: seq<Laid>, left: nat,
                                end: Ending, f: TextFns)
    requires ResponseLies(buf, asked, questions, at, ls, left) && Ends(buf, at[|ls|], left, end) && DecodesAscii(f.utf8)
    ensures var facts := SaidIn(ls, f);
            Parsed(buf, f) == if end.BadName? then [] else Reference(facts, Services(facts), f)
  {
    var facts := SaidIn(ls, f);
    EndsTheTables(buf, at[|ls|], left, end, LearnAll(facts, EMPTY), f);
    ResponseUnderstood(buf, asked, questions, at, ls, left, !end.BadName?, f);
  }

  lemma ResponseUnderstood(buf: seq<Byte>, asked: seq<nat>, questions: seq<Wire>, at: seq<nat>, ls: seq<Laid>, left: nat,
                           kept: bool, f: TextFns)
    requires ResponseLies(buf, asked, questions, at, ls, left) && DecodesAscii(f.utf8)
    requires var learned := LearnAll(SaidIn(ls, f), EMPTY);
             TablesOf(buf, f)(at[|ls|], left, learned) == if kept then Some(learned) else None
    ensures var facts := SaidIn(ls, f);
            Parsed(buf, f) == if kept then Reference(facts, Services(facts), f) else []
  {
    QuestionsEnd(buf, asked, questions);
    var n := Total(buf);
    RecordsUnderstood(buf, at, ls, left, n, kept, f);
    ParsedSo(buf, at[0], n, if kept then Some(LearnAll(SaidIn(ls, f), EMPTY)) else None, f);
    CrossingIsTheReference(SaidIn(ls, f), f);
  }

  lemma QuestionsEnd(buf: seq<Byte>, asked: seq<nat>, questions: seq<Wire>)
    requires QuestionsLieAt(buf, asked, questions) && asked[0] == 12
    ensures var q := Questions(buf, 12, |questions|); q.Some? && q.value.1 == asked[|questions|]
  {
    QuestionsSkipped(buf, asked, questions);
    assert EndOf(buf)(12, |questions|) == Some(asked[|questions|]);
  }

  lemma ParsedSo(buf: seq<Byte>, pos: nat, total: nat, tables: Option<Tables>, f: TextFns)
    requires |buf| >= 12 && Total(buf) == total
    requires var q := Questions(buf, 12, Uint16(buf, 4)); q.Some? && q.value.1 == pos
    requires TablesOf(buf, f)(pos, total, EMPTY) == tables
    ensures Parsed(buf, f) == if tables.None? then [] else Crossed(tables.value, tables.value.ptr, f)
  {
  }
}
