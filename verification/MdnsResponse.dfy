/**
 * The parser of mDNS responses (discovery/dns.ts): it reads the PTR, SRV, TXT and A records of a packet and crosses them
 * into service instances.
 */
module MdnsResponse {
  import opened Bytes
  import opened Options
  import opened AsciiText
  import opened Semaphore
  import opened JsMap
  import opened Mdns

  const TYPE_A: nat := 1
  const TYPE_TXT: nat := 16
  const TYPE_SRV: nat := 33

  datatype Instance = Instance(service: string, name: string, ip: Option<string>, port: Option<nat>, txt: map<string, string>)

  datatype Host = Host(port: nat, target: string)

  /** Library calls on text: decoding UTF-8 and lower-casing. */
  datatype TextFns = TextFns(utf8: Label -> string, lower: string -> string)

  /** What one record says, with its name in lower case. */
  datatype Fact =
    | IsPtr(name: string, target: string)
    | IsSrv(name: string, host: Host)
    | IsTxt(name: string, txt: map<string, string>)
    | IsA(name: string, ip: string)
    | Other

  /** A record understood; None when a name in its data throws. */
  function FactOf(buf: seq<Byte>, r: Record, f: TextFns): Option<Fact>
    requires r.rdataStart + r.rdlength <= |buf|
  {
    var name := f.lower(NameText(r.name, f.utf8));
    var start := r.rdataStart;
    if r.kind == TYPE_PTR as nat then
      match NameAt(buf, start, 0)
      case Bad => None
      case Name(labels, _) => Some(IsPtr(name, NameText(labels, f.utf8)))
    else if r.kind == TYPE_SRV && r.rdlength >= 6 then
      match NameAt(buf, start + 6, 0)
      case Bad => None
      case Name(labels, _) => Some(IsSrv(name, Host(Uint16(buf, start + 4), f.lower(NameText(labels, f.utf8)))))
    else if r.kind == TYPE_TXT then
      Some(IsTxt(name, Txt(buf[start..start + r.rdlength], 0, map[], f.utf8, f.lower)))
    else if r.kind == TYPE_A && r.rdlength == 4 then
      Some(IsA(name, Dotted(buf[start], buf[start + 1], buf[start + 2], buf[start + 3])))
    else Some(Other)
  }

  /** The tables kept while the records are read. The order of ptr and a shows in the result. */
  datatype Tables = Tables(ptr: seq<Entry<string, seq<string>>>, srv: map<string, Host>, txt: map<string, map<string, string>>,
                           a: seq<Entry<string, string>>)

  const EMPTY := Tables([], map[], map[], [])

  function Listed(ptr: seq<Entry<string, seq<string>>>, name: string): seq<string> {
    if Has(ptr, name) then Get(ptr, name) else []
  }

  function Learn(t: Tables, fact: Fact): Tables {
    match fact
    case IsPtr(name, target) => t.(ptr := Set(t.ptr, name, Listed(t.ptr, name) + [target]))
    case IsSrv(name, host) => t.(srv := t.srv[name := host])
    case IsTxt(name, txt) => t.(txt := t.txt[name := txt])
    case IsA(name, ip) => t.(a := Set(t.a, name, ip))
    case Other => t
  }

  /** The tables after the records; None when reading them threw. */
  function LearnFrom(buf: seq<Byte>, t: Tables, records: Option<seq<Record>>, f: TextFns): Option<Tables>
    requires records.Some? ==> InBuffer(buf, records.value)
    decreases if records.Some? then |records.value| else 0
  {
    if records.None? then None
    else if records.value == [] then Some(t)
    else
      match FactOf(buf, records.value[0], f)
      case None => None
      case Some(fact) => LearnFrom(buf, Learn(t, fact), Some(records.value[1..]), f)
  }

  predicate InBuffer(buf: seq<Byte>, rs: seq<Record>) {
    forall i :: 0 <= i < |rs| ==> rs[i].rdataStart + rs[i].rdlength <= |buf|
  }

  // ----- Crossing the tables

  function IpOf(t: Tables, instance: string): Option<string> {
    if instance in t.srv then
      if Has(t.a, t.srv[instance].target) then Some(Get(t.a, t.srv[instance].target)) else None
    else if t.a != [] then Some(t.a[0].value)
    else None
  }

  function InstanceOf(t: Tables, service: string, name: string, f: TextFns): Instance {
    var key := f.lower(name);
    Instance(service, name, IpOf(t, key), if key in t.srv then Some(t.srv[key].port) else None,
             if key in t.txt then t.txt[key] else map[])
  }

  function InstancesOf(t: Tables, service: string, names: seq<string>, f: TextFns): seq<Instance> {
    if names == [] then []
    else InstancesOf(t, service, names[..|names| - 1], f) + [InstanceOf(t, service, names[|names| - 1], f)]
  }

  function Crossed(t: Tables, ptr: seq<Entry<string, seq<string>>>, f: TextFns): seq<Instance> {
    if ptr == [] then []
    else Crossed(t, ptr[..|ptr| - 1], f) + InstancesOf(t, ptr[|ptr| - 1].key, ptr[|ptr| - 1].value, f)
  }

  lemma {:induction false} RecordsInBuffer(buf: seq<Byte>, pos: nat, n: nat)
    ensures Records(buf, pos, n).Some? ==> InBuffer(buf, Records(buf, pos, n).value)
    decreases n
  {
    if n > 0 && pos < |buf| && CutAt(buf, pos).Fits? {
      RecordsInBuffer(buf, CutAt(buf, pos).r.rdataStart + CutAt(buf, pos).r.rdlength, n - 1);
    }
  }

  /** The tables after at most n records from pos. */
  function TablesFrom(buf: seq<Byte>, pos: nat, n: nat, t: Tables, f: TextFns): Option<Tables> {
    RecordsInBuffer(buf, pos, n);
    LearnFrom(buf, t, Records(buf, pos, n), f)
  }

  /** One turn of the loop over the records. */
  lemma NextRecord(buf: seq<Byte>, pos: nat, n: nat, t: Tables, f: TextFns)
    requires n > 0 && pos < |buf|
    ensures TablesFrom(buf, pos, n, t, f) ==
            match CutAt(buf, pos)
            case Throws => None
            case Stops => Some(t)
            case Fits(r) =>
              match FactOf(buf, r, f)
              case None => None
              case Some(fact) => TablesFrom(buf, r.rdataStart + r.rdlength, n - 1, Learn(t, fact), f)
  {
    var c := CutAt(buf, pos);
    RecordsInBuffer(buf, pos, n);
    if c.Fits? {
      var rest := Records(buf, c.r.rdataStart + c.r.rdlength, n - 1);
      RecordsInBuffer(buf, c.r.rdataStart + c.r.rdlength, n - 1);
      if rest.Some? { assert ([c.r] + rest.value)[1..] == rest.value; }
    }
  }

  /** How many records the header announces, over its three sections. */
  function Total(buf: seq<Byte>): nat
    requires |buf| >= 12
  {
    Uint16(buf, 6) + Uint16(buf, 8) + Uint16(buf, 10)
  }

  /** The whole parser as a function: no instance at all when anything throws. */
  function Parsed(buf: seq<Byte>, f: TextFns): seq<Instance> {
    if |buf| < 12 then []
    else
      match Questions(buf, 12, Uint16(buf, 4))
      case None => []
      case Some((_, pos)) =>
        match TablesFrom(buf, pos, Total(buf), EMPTY, f)
        case None => []
        case Some(t) => Crossed(t, t.ptr, f)
  }

  /** A record read step by step: a name in the data may throw. */
  method ReadFact(buf: seq<Byte>, r: Record, f: TextFns) returns (fact: Option<Fact>)
    requires r.rdataStart + r.rdlength <= |buf|
    ensures fact == FactOf(buf, r, f)
  {
    var name := f.lower(NameText(r.name, f.utf8));
    if r.kind == TYPE_PTR as nat {
      var target := ReadName(buf, r.rdataStart);
      if target.Bad? { return None; }
      fact := Some(IsPtr(name, NameText(target.labels, f.utf8)));
    } else if r.kind == TYPE_SRV && r.rdlength >= 6 {
      var port := Uint16(buf, r.rdataStart + 4);
      var target := ReadName(buf, r.rdataStart + 6);
      if target.Bad? { return None; }
      fact := Some(IsSrv(name, Host(port, f.lower(NameText(target.labels, f.utf8)))));
    } else if r.kind == TYPE_TXT {
      var txt := ParseTxt(buf[r.rdataStart..r.rdataStart + r.rdlength], f.utf8, f.lower);
      fact := Some(IsTxt(name, txt));
    } else if r.kind == TYPE_A && r.rdlength == 4 {
      var at := r.rdataStart;
      fact := Some(IsA(name, Dotted(buf[at], buf[at + 1], buf[at + 2], buf[at + 3])));
    } else {
      fact := Some(Other);
    }
  }

  method ReadTables(buf: seq<Byte>, start: nat, total: nat, f: TextFns) returns (tables: Option<Tables>)
    ensures tables == TablesFrom(buf, start, total, EMPTY, f)
  {
    var t, pos: nat, i: nat := EMPTY, start, 0;
    while i < total && pos < |buf|
      invariant i <= total
      invariant TablesFrom(buf, start, total, EMPTY, f) == TablesFrom(buf, pos, total - i, t, f)
    {
      var turn := NextTurn(buf, pos, total - i, t, f);
      if turn.Ended? { return turn.tables; }
      t, pos, i := turn.t, turn.next, i + 1;
    }
    tables := Some(t);
  }

  /** How one turn of the loop over the records ends it, or goes on. */
  datatype Turn = Ended(tables: Option<Tables>) | Going(t: Tables, next: nat)

  method NextTurn(buf: seq<Byte>, pos: nat, ghost n: nat, t: Tables, f: TextFns) returns (turn: Turn)
    requires n > 0 && pos < |buf|
    ensures match turn
            case Ended(tables) => TablesFrom(buf, pos, n, t, f) == tables
            case Going(u, next) => TablesFrom(buf, pos, n, t, f) == TablesFrom(buf, next, n - 1, u, f)
  {
    NextRecord(buf, pos, n, t, f);
    var c := CutRecord(buf, pos);
    if c.Throws? { return Ended(None); }
    if c.Stops? { return Ended(Some(t)); }
    var fact := ReadFact(buf, c.r, f);
    if fact.None? { return Ended(None); }
    turn := Going(Learn(t, fact.value), c.r.rdataStart + c.r.rdlength);
  }

  method ParseMdnsResponse(buf: seq<Byte>, f: TextFns) returns (out: seq<Instance>)
    ensures out == Parsed(buf, f)
  {
    if |buf| < 12 { return []; }
    var pos := SkipQuestions(buf);
    if pos.None? { return []; }
    var tables := ReadTables(buf, pos.value, Total(buf), f);
    if tables.None? { return []; }
    out := CrossTables(tables.value, f);
  }

  method CrossTables(t: Tables, f: TextFns) returns (out: seq<Instance>)
    ensures out == Crossed(t, t.ptr, f)
  {
    out := [];
    for i := 0 to |t.ptr|
      invariant out == Crossed(t, t.ptr[..i], f)
    {
      var service, names := t.ptr[i].key, t.ptr[i].value;
      assert t.ptr[..i + 1][..i] == t.ptr[..i];
      ghost var before := out;
      for j := 0 to |names|
        invariant out == before + InstancesOf(t, service, names[..j], f)
      {
        assert names[..j + 1][..j] == names[..j];
        out := out + [InstanceOf(t, service, names[j], f)];
      }
      assert names[..|names|] == names;
    }
    assert t.ptr[..|t.ptr|] == t.ptr;
  }

  // ----- What the records of a packet mean

  ghost function LearnAll(facts: seq<Fact>, t: Tables): Tables {
    if facts == [] then t else Learn(LearnAll(facts[..|facts| - 1], t), facts[|facts| - 1])
  }

  /** The services with a PTR record, by first appearance. */
  ghost function Services(facts: seq<Fact>): seq<string> {
    if facts == [] then []
    else
      var before, last := Services(facts[..|facts| - 1]), facts[|facts| - 1];
      if last.IsPtr? && last.name !in before then before + [last.name] else before
  }

  /** The instances of a service, in the order of its PTR records. */
  ghost function Targets(facts: seq<Fact>, service: string): seq<string> {
    if facts == [] then []
    else
      var before, last := Targets(facts[..|facts| - 1], service), facts[|facts| - 1];
      if last.IsPtr? && last.name == service then before + [last.target] else before
  }

  ghost function LastHost(facts: seq<Fact>, name: string): Option<Host> {
    if facts == [] then None
    else
      var last := facts[|facts| - 1];
      if last.IsSrv? && last.name == name then Some(last.host) else LastHost(facts[..|facts| - 1], name)
  }

  ghost function LastTxt(facts: seq<Fact>, name: string): Option<map<string, string>> {
    if facts == [] then None
    else
      var last := facts[|facts| - 1];
      if last.IsTxt? && last.name == name then Some(last.txt) else LastTxt(facts[..|facts| - 1], name)
  }

  ghost function LastIp(facts: seq<Fact>, name: string): Option<string> {
    if facts == [] then None
    else
      var last := facts[|facts| - 1];
      if last.IsA? && last.name == name then Some(last.ip) else LastIp(facts[..|facts| - 1], name)
  }

  /** The name of the first address record. */
  ghost function FirstNamed(facts: seq<Fact>): Option<string> {
    if facts == [] then None
    else
      var before, last := FirstNamed(facts[..|facts| - 1]), facts[|facts| - 1];
      if before.None? && last.IsA? then Some(last.name) else before
  }

  /** What the packet tells about an instance: without SRV record, the address of the first host. */
  ghost function Told(facts: seq<Fact>, service: string, name: string, f: TextFns): Instance {
    var host := LastHost(facts, f.lower(name));
    var ip := if host.Some? then LastIp(facts, host.value.target)
              else if FirstNamed(facts).Some? then LastIp(facts, FirstNamed(facts).value)
              else None;
    Instance(service, name, ip, if host.Some? then Some(host.value.port) else None, LastTxt(facts, f.lower(name)).GetOr(map[]))
  }

  ghost function ToldAll(facts: seq<Fact>, service: string, names: seq<string>, f: TextFns): seq<Instance> {
    if names == [] then []
    else ToldAll(facts, service, names[..|names| - 1], f) + [Told(facts, service, names[|names| - 1], f)]
  }

  ghost function Reference(facts: seq<Fact>, services: seq<string>, f: TextFns): seq<Instance> {
    if services == [] then []
    else
      var service := services[|services| - 1];
      Reference(facts, services[..|services| - 1], f) + ToldAll(facts, service, Targets(facts, service), f)
  }

  // ----- The tables hold it

  lemma {:induction false} PtrTable(facts: seq<Fact>, service: string)
    ensures Keys(LearnAll(facts, EMPTY).ptr) == Services(facts)
    ensures Listed(LearnAll(facts, EMPTY).ptr, service) == Targets(facts, service)
  {
    if facts != [] {
      var before, last := facts[..|facts| - 1], facts[|facts| - 1];
      PtrTable(before, service);
      if last.IsPtr? {
        var m := LearnAll(before, EMPTY).ptr;
        KeysAfterSet(m, last.name, Listed(m, last.name) + [last.target]);
        GetAfterSet(m, last.name, Listed(m, last.name) + [last.target], service);
        if last.name != service { assert Has(LearnAll(facts, EMPTY).ptr, service) <==> Has(m, service); }
      }
    }
  }

  lemma {:induction false} SrvAndTxtTables(facts: seq<Fact>, name: string)
    ensures var t := LearnAll(facts, EMPTY);
            && (if name in t.srv then LastHost(facts, name) == Some(t.srv[name]) else LastHost(facts, name) == None)
            && (if name in t.txt then LastTxt(facts, name) == Some(t.txt[name]) else LastTxt(facts, name) == None)
  {
    if facts != [] { SrvAndTxtTables(facts[..|facts| - 1], name); }
  }

  lemma {:induction false} AddressTable(facts: seq<Fact>, name: string)
    ensures var a := LearnAll(facts, EMPTY).a;
            && (if Has(a, name) then LastIp(facts, name) == Some(Get(a, name)) else LastIp(facts, name) == None)
            && (if a == [] then FirstNamed(facts) == None else FirstNamed(facts) == Some(a[0].key))
  {
    if facts != [] {
      var before, last := facts[..|facts| - 1], facts[|facts| - 1];
      AddressTable(before, name);
      if last.IsA? {
        var a := LearnAll(before, EMPTY).a;
        GetAfterSet(a, last.name, last.ip, name);
      }
    }
  }

  lemma ToldByTheTables(facts: seq<Fact>, service: string, name: string, f: TextFns)
    ensures InstanceOf(LearnAll(facts, EMPTY), service, name, f) == Told(facts, service, name, f)
  {
    var t := LearnAll(facts, EMPTY);
    var key := f.lower(name);
    SrvAndTxtTables(facts, key);
    if key in t.srv {
      AddressTable(facts, t.srv[key].target);
    } else if t.a != [] {
      AddressTable(facts, t.a[0].key);
      assert Has(t.a, t.a[0].key) && Get(t.a, t.a[0].key) == t.a[0].value;
    } else {
      AddressTable(facts, key);
    }
  }

  lemma {:induction false} AllToldByTheTables(facts: seq<Fact>, service: string, names: seq<string>, f: TextFns)
    ensures InstancesOf(LearnAll(facts, EMPTY), service, names, f) == ToldAll(facts, service, names, f)
  {
    if names != [] {
      AllToldByTheTables(facts, service, names[..|names| - 1], f);
      ToldByTheTables(facts, service, names[|names| - 1], f);
    }
  }

  lemma {:induction false} ServicesDistinct(facts: seq<Fact>)
    ensures Distinct(Services(facts))
  {
    if facts != [] { ServicesDistinct(facts[..|facts| - 1]); }
  }

  lemma ServiceEntry(facts: seq<Fact>, i: nat)
    requires i < |Services(facts)|
    ensures var ptr := LearnAll(facts, EMPTY).ptr;
            i < |ptr| && ptr[i] == Entry(Services(facts)[i], Targets(facts, Services(facts)[i]))
  {
    var ptr, service := LearnAll(facts, EMPTY).ptr, Services(facts)[i];
    PtrTable(facts, service);
    ServicesDistinct(facts);
    assert Keys(ptr)[i] == ptr[i].key;
  }

  lemma CrossOneMore(t: Tables, ptr: seq<Entry<string, seq<string>>>, n: nat, f: TextFns)
    requires 0 < n <= |ptr|
    ensures Crossed(t, ptr[..n], f) == Crossed(t, ptr[..n - 1], f) + InstancesOf(t, ptr[n - 1].key, ptr[n - 1].value, f)
  {
    assert ptr[..n][..n - 1] == ptr[..n - 1];
  }

  lemma ReferenceOneMore(facts: seq<Fact>, services: seq<string>, n: nat, f: TextFns)
    requires 0 < n <= |services|
    ensures Reference(facts, services[..n], f)
         == Reference(facts, services[..n - 1], f) + ToldAll(facts, services[n - 1], Targets(facts, services[n - 1]), f)
  {
    assert services[..n][..n - 1] == services[..n - 1];
  }

  lemma {:induction false} CrossedUpTo(facts: seq<Fact>, n: nat, f: TextFns)
    requires n <= |Services(facts)| == |LearnAll(facts, EMPTY).ptr|
    ensures var t := LearnAll(facts, EMPTY);
            Crossed(t, t.ptr[..n], f) == Reference(facts, Services(facts)[..n], f)
    decreases n
  {
    if n > 0 {
      var t, services := LearnAll(facts, EMPTY), Services(facts);
      CrossedUpTo(facts, n - 1, f);
      ServiceEntry(facts, n - 1);
      AllToldByTheTables(facts, services[n - 1], Targets(facts, services[n - 1]), f);
      CrossOneMore(t, t.ptr, n, f);
      ReferenceOneMore(facts, services, n, f);
    }
  }

  /** Crossing the tables lists, service by service, what the packet tells about each instance. */
  lemma CrossingIsTheReference(facts: seq<Fact>, f: TextFns)
    ensures var t := LearnAll(facts, EMPTY);
            Crossed(t, t.ptr, f) == Reference(facts, Services(facts), f)
  {
    var t, services := LearnAll(facts, EMPTY), Services(facts);
    PtrTable(facts, "");
    CrossedUpTo(facts, |services|, f);
    assert t.ptr[..|t.ptr|] == t.ptr && services[..|services|] == services;
  }

  // ----- Where the records stand does not matter

  ghost predicate SameSubject(x: Fact, y: Fact) {
    (x.IsSrv? && y.IsSrv? && x.name == y.name) || (x.IsTxt? && y.IsTxt? && x.name == y.name) || (x.IsA? && y.IsA? && x.name == y.name)
  }

  /** One SRV and one TXT record for each instance, and one address for each host. */
  ghost predicate Unambiguous(facts: seq<Fact>) {
    forall i, j :: 0 <= i < j < |facts| ==> !SameSubject(facts[i], facts[j])
  }

  lemma {:induction false} OnlyOneSays(facts: seq<Fact>, fact: Fact)
    requires Unambiguous(facts) && fact in facts
    ensures fact.IsSrv? ==> LastHost(facts, fact.name) == Some(fact.host)
    ensures fact.IsTxt? ==> LastTxt(facts, fact.name) == Some(fact.txt)
    ensures fact.IsA? ==> LastIp(facts, fact.name) == Some(fact.ip)
  {
    var before, last := facts[..|facts| - 1], facts[|facts| - 1];
    if fact != last {
      var i :| 0 <= i < |facts| && facts[i] == fact;
      assert before[i] == fact && !SameSubject(facts[i], last);
      OnlyOneSays(before, fact);
    }
  }

  lemma {:induction false} TargetIsListed(facts: seq<Fact>, service: string, name: string)
    ensures name in Targets(facts, service) <==> IsPtr(service, name) in facts
    ensures service in Services(facts) <==> exists i :: 0 <= i < |facts| && facts[i].IsPtr? && facts[i].name == service
  {
    if facts != [] {
      var before, last := facts[..|facts| - 1], facts[|facts| - 1];
      TargetIsListed(before, service, name);
      assert facts == before + [last];
      assert forall i :: 0 <= i < |before| ==> before[i] == facts[i];
    }
  }

  lemma {:induction false} ToldMembers(facts: seq<Fact>, service: string, names: seq<string>, f: TextFns, x: Instance)
    ensures x in ToldAll(facts, service, names, f) <==> x.name in names && x == Told(facts, service, x.name, f)
  {
    if names != [] {
      var before, last := names[..|names| - 1], names[|names| - 1];
      ToldMembers(facts, service, before, f, x);
      assert names == before + [last];
    }
  }

  lemma {:induction false} ReferenceMembers(facts: seq<Fact>, services: seq<string>, f: TextFns, x: Instance)
    ensures x in Reference(facts, services, f)
            <==> x.service in services && x.name in Targets(facts, x.service) && x == Told(facts, x.service, x.name, f)
  {
    if services != [] {
      var before, last := services[..|services| - 1], services[|services| - 1];
      ReferenceMembers(facts, before, f, x);
      ToldMembers(facts, last, Targets(facts, last), f, x);
      assert services == before + [last];
    }
  }

  lemma ToldOfOne(facts: seq<Fact>, service: string, name: string, host: Host, ip: string, txt: map<string, string>, f: TextFns)
    requires Unambiguous(facts)
    requires IsSrv(f.lower(name), host) in facts && IsA(host.target, ip) in facts && IsTxt(f.lower(name), txt) in facts
    ensures Told(facts, service, name, f) == Instance(service, name, Some(ip), Some(host.port), txt)
  {
    OnlyOneSays(facts, IsSrv(f.lower(name), host));
    OnlyOneSays(facts, IsA(host.target, ip));
    OnlyOneSays(facts, IsTxt(f.lower(name), txt));
  }

  /**
   * Wherever its records stand in an unambiguous packet, an announced instance is found with the address of its host, its
   * port and its text; and an instance is found only if a PTR record announces it.
   */
  lemma AnnouncedIffFound(facts: seq<Fact>, service: string, name: string, host: Host, ip: string, txt: map<string, string>, f: TextFns)
    requires Unambiguous(facts)
    requires IsSrv(f.lower(name), host) in facts && IsA(host.target, ip) in facts && IsTxt(f.lower(name), txt) in facts
    ensures IsPtr(service, name) in facts
            <==> Instance(service, name, Some(ip), Some(host.port), txt) in Reference(facts, Services(facts), f)
  {
    ToldOfOne(facts, service, name, host, ip, txt, f);
    ReferenceMembers(facts, Services(facts), f, Instance(service, name, Some(ip), Some(host.port), txt));
    TargetIsListed(facts, service, name);
    if IsPtr(service, name) in facts {
      var i :| 0 <= i < |facts| && facts[i] == IsPtr(service, name);
    }
  }

  // ----- From the bytes

  /** What a responder announces in one record. */
  datatype Data =
    | PtrData(target: string)
    | SrvData(priorityAndWeight: seq<Byte>, port: nat, target: string)
    | TxtData(pairs: seq<Pair>)
    | AData(a: Byte, b: Byte, c: Byte, d: Byte)
    | OtherData(kind: nat, bytes: seq<Byte>)

  datatype Rr = Rr(name: string, classAndTtl: seq<Byte>, data: Data)

  /** The types of RFC 1035 section 3.2.2 and, for SRV, of RFC 2782. */
  function Kind(d: Data): nat {
    match d
    case PtrData(_) => 12
    case SrvData(_, _, _) => 33
    case TxtData(_) => 16
    case AData(_, _, _, _) => 1
    case OtherData(kind, _) => kind
  }

  predicate DataOk(d: Data) {
    match d
    case PtrData(target) => Encodable(target)
    case SrvData(priorityAndWeight, port, target) => |priorityAndWeight| == 4 && port < 65536 && Encodable(target)
    case TxtData(pairs) => forall p :: p in pairs ==> Announceable(p)
    case AData(_, _, _, _) => true
    case OtherData(kind, bytes) => kind < 65536 && kind !in {12, 33, 16, 1}
  }

  function Rdata(d: Data): seq<Byte>
    requires DataOk(d)
  {
    match d
    case PtrData(target) => NameBytes(LabelsOf(target))
    case SrvData(priorityAndWeight, port, target) => priorityAndWeight + Uint16Bytes(port) + NameBytes(LabelsOf(target))
    case TxtData(pairs) => TxtBytes(PairEntries(pairs))
    case AData(a, b, c, d) => [a, b, c, d]
    case OtherData(_, bytes) => bytes
  }

  predicate Announces(rr: Rr) {
    Encodable(rr.name) && |rr.classAndTtl| == 6 && DataOk(rr.data) && |Rdata(rr.data)| < 65536
  }

  function SentAs(rr: Rr): (s: Sent)
    requires Announces(rr)
  {
    Sent(LabelsOf(rr.name), Kind(rr.data), rr.classAndTtl, Rdata(rr.data))
  }

  /** What the parser should make of these data under this name. */
  ghost function SaidOf(name: string, d: Data, f: TextFns): Fact {
    match d
    case PtrData(target) => IsPtr(name, Normalized(target))
    case SrvData(_, port, target) => IsSrv(name, Host(port, f.lower(Normalized(target))))
    case TxtData(pairs) => IsTxt(name, Announced(pairs, map[], f.lower))
    case AData(a, b, c, d) => IsA(name, Dotted(a, b, c, d))
    case OtherData(_, _) => Other
  }

  ghost function Said(rr: Rr, f: TextFns): Fact { SaidOf(f.lower(Normalized(rr.name)), rr.data, f) }

  lemma SrvRdata(buf: seq<Byte>, start: nat, d: Data)
    requires d.SrvData? && DataOk(d) && StartsWith(buf, start, Rdata(d))
    ensures Uint16(buf, start + 4) == d.port && StartsWith(buf, start + 6, NameBytes(LabelsOf(d.target)))
  {
    StartsWithConcat(buf, start, d.priorityAndWeight + Uint16Bytes(d.port), NameBytes(LabelsOf(d.target)));
    StartsWithConcat(buf, start, d.priorityAndWeight, Uint16Bytes(d.port));
  }

  lemma PtrReadBack(buf: seq<Byte>, r: Record, target: string, f: TextFns)
    requires r.rdataStart + r.rdlength <= |buf| && r.kind == TYPE_PTR as nat
    requires Encodable(target) && DecodesAscii(f.utf8) && StartsWith(buf, r.rdataStart, NameBytes(LabelsOf(target)))
    ensures FactOf(buf, r, f) == Some(IsPtr(f.lower(NameText(r.name, f.utf8)), Normalized(target)))
  {
    NameRoundTripIff(buf, r.rdataStart, target, f.utf8);
  }

  lemma SrvReadBack(buf: seq<Byte>, r: Record, d: Data, f: TextFns)
    requires r.rdataStart + r.rdlength <= |buf| && r.kind == TYPE_SRV && r.rdlength >= 6
    requires d.SrvData? && DataOk(d) && DecodesAscii(f.utf8) && StartsWith(buf, r.rdataStart, Rdata(d))
    ensures FactOf(buf, r, f) == Some(IsSrv(f.lower(NameText(r.name, f.utf8)), Host(d.port, f.lower(Normalized(d.target)))))
  {
    SrvRdata(buf, r.rdataStart, d);
    NameRoundTripIff(buf, r.rdataStart + 6, d.target, f.utf8);
  }

  lemma TxtReadBack(buf: seq<Byte>, r: Record, pairs: seq<Pair>, f: TextFns)
    requires r.rdataStart + r.rdlength <= |buf| && r.kind == TYPE_TXT && (forall p :: p in pairs ==> Announceable(p))
    requires DecodesAscii(f.utf8) && buf[r.rdataStart..r.rdataStart + r.rdlength] == TxtBytes(PairEntries(pairs))
    ensures FactOf(buf, r, f) == Some(IsTxt(f.lower(NameText(r.name, f.utf8)), Announced(pairs, map[], f.lower)))
  {
    TxtRoundTrip(pairs, f.utf8, f.lower);
  }

  lemma AReadBack(buf: seq<Byte>, r: Record, a: Byte, b: Byte, c: Byte, d: Byte, f: TextFns)
    requires r.rdataStart + r.rdlength <= |buf| && r.kind == TYPE_A && r.rdlength == 4
    requires buf[r.rdataStart..r.rdataStart + 4] == [a, b, c, d]
    ensures FactOf(buf, r, f) == Some(IsA(f.lower(NameText(r.name, f.utf8)), Dotted(a, b, c, d)))
  {
    var rdata := buf[r.rdataStart..r.rdataStart + 4];
    assert rdata[0] == a && rdata[1] == b && rdata[2] == c && rdata[3] == d;
  }

  lemma RdataLies(buf: seq<Byte>, r: Record, rdata: seq<Byte>)
    requires r.rdataStart + r.rdlength <= |buf| && buf[r.rdataStart..r.rdataStart + r.rdlength] == rdata
    ensures r.rdlength == |rdata| && StartsWith(buf, r.rdataStart, rdata)
  {
    assert |buf[r.rdataStart..r.rdataStart + r.rdlength]| == r.rdlength;
  }

  /** The parser makes of a record what was announced in it. */
  lemma FactReadBack(buf: seq<Byte>, r: Record, rr: Rr, f: TextFns)
    requires Announces(rr) && CutOut(buf, r, SentAs(rr)) && DecodesAscii(f.utf8)
    ensures FactOf(buf, r, f) == Some(Said(rr, f))
  {
    NormalText(rr.name, f.utf8);
    RdataLies(buf, r, Rdata(rr.data));
    match rr.data
    case PtrData(target) => PtrReadBack(buf, r, target, f);
    case SrvData(_, _, _) => SrvReadBack(buf, r, rr.data, f);
    case TxtData(pairs) => TxtReadBack(buf, r, pairs, f);
    case AData(a, b, c, d) => AReadBack(buf, r, a, b, c, d, f);
    case OtherData(_, _) =>
  }

  function SentAll(rrs: seq<Rr>): (sent: seq<Sent>)
    requires forall i :: 0 <= i < |rrs| ==> Announces(rrs[i])
    ensures |sent| == |rrs| && forall i :: 0 <= i < |rrs| ==> sent[i] == SentAs(rrs[i])
  {
    seq(|rrs|, i requires 0 <= i < |rrs| => SentAs(rrs[i]))
  }

  ghost function SaidAll(rrs: seq<Rr>, f: TextFns): (facts: seq<Fact>)
    ensures |facts| == |rrs| && forall i :: 0 <= i < |rrs| ==> facts[i] == Said(rrs[i], f)
  {
    seq(|rrs|, i requires 0 <= i < |rrs| => Said(rrs[i], f))
  }

  lemma {:induction false} LearnFirst(fact: Fact, rest: seq<Fact>, t: Tables)
    ensures LearnAll([fact] + rest, t) == LearnAll(rest, Learn(t, fact))
    decreases |rest|
  {
    if rest == [] {
      assert [fact] + rest == [] + [fact];
    } else {
      var before, last := rest[..|rest| - 1], rest[|rest| - 1];
      assert [fact] + rest == ([fact] + before) + [last];
      LearnFirst(fact, before, t);
    }
  }

  /** The record lies in the buffer and says this. */
  ghost predicate Understood(buf: seq<Byte>, r: Record, fact: Fact, f: TextFns) {
    r.rdataStart + r.rdlength <= |buf| && FactOf(buf, r, f) == Some(fact)
  }

  ghost predicate Each(rs: seq<Record>, facts: seq<Fact>, p: (Record, Fact) -> bool) {
    |rs| == |facts| && forall i :: 0 <= i < |rs| ==> p(rs[i], facts[i])
  }

  lemma {:induction false} LearnedAsSaid(buf: seq<Byte>, rs: seq<Record>, facts: seq<Fact>, t: Tables, f: TextFns)
    requires Each(rs, facts, (r, fact) => Understood(buf, r, fact, f)) && InBuffer(buf, rs)
    ensures LearnFrom(buf, t, Some(rs), f) == Some(LearnAll(facts, t))
    decreases |rs|
  {
    if rs != [] {
      var p := (r, fact) => Understood(buf, r, fact, f);
      assert p(rs[0], facts[0]);
      LearnedAsSaid(buf, rs[1..], facts[1..], Learn(t, facts[0]), f);
      LearnFirst(facts[0], facts[1..], t);
      assert [facts[0]] + facts[1..] == facts;
    }
  }

  /** What holds of a record sent and its fact wherever it is cut out holds of each record received. */
  lemma {:induction false} EachReceived(buf: seq<Byte>, pos: nat, sent: seq<Sent>, facts: seq<Fact>, p: (Record, Fact) -> bool)
    requires |facts| == |sent| && Cuts(buf, pos, sent)
    requires forall i, r: Record :: 0 <= i < |sent| && CutOut(buf, r, sent[i]) ==> p(r, facts[i])
    ensures Each(AllReceived(pos, sent), facts, p)
    decreases |sent|
  {
    if sent != [] {
      var more, moreFacts := sent[1..], facts[1..];
      assert CutOut(buf, Received(pos, sent[0]), sent[0]);
      EachReceived(buf, pos + RecordLength(sent[0]), more, moreFacts, p);
      assert [facts[0]] + moreFacts == facts;
    }
  }

  // ----- The whole message

  /** Counts of questions and of records in the three sections. */
  function ResponseHeader(qd: nat, an: nat, ns: nat, ar: nat): (h: seq<Byte>)
    requires qd < 65536 && an < 65536 && ns < 65536 && ar < 65536
    ensures |h| == 12
  {
    [0, 0, 0, 0] + Uint16Bytes(qd) + Uint16Bytes(an) + Uint16Bytes(ns) + Uint16Bytes(ar)
  }

  lemma HeaderReadBack(buf: seq<Byte>, qd: nat, an: nat, ns: nat, ar: nat)
    requires qd < 65536 && an < 65536 && ns < 65536 && ar < 65536
    requires StartsWith(buf, 0, ResponseHeader(qd, an, ns, ar))
    ensures |buf| >= 12 && Uint16(buf, 4) == qd && Total(buf) == an + ns + ar
  {
    StartsWithConcat(buf, 0, [0, 0, 0, 0] + Uint16Bytes(qd) + Uint16Bytes(an) + Uint16Bytes(ns), Uint16Bytes(ar));
    StartsWithConcat(buf, 0, [0, 0, 0, 0] + Uint16Bytes(qd) + Uint16Bytes(an), Uint16Bytes(ns));
    StartsWithConcat(buf, 0, [0, 0, 0, 0] + Uint16Bytes(qd), Uint16Bytes(an));
    StartsWithConcat(buf, 0, [0, 0, 0, 0], Uint16Bytes(qd));
  }

  lemma ParsedFrom(buf: seq<Byte>, names: seq<seq<Label>>, pos: nat, t: Tables, f: TextFns)
    requires |buf| >= 12 && Questions(buf, 12, Uint16(buf, 4)) == Some((names, pos))
    requires TablesFrom(buf, pos, Total(buf), EMPTY, f) == Some(t)
    ensures Parsed(buf, f) == Crossed(t, t.ptr, f)
  {
  }

  /** Wherever it was cut out, the record sent is understood as this fact. */
  ghost predicate Means(buf: seq<Byte>, s: Sent, fact: Fact, f: TextFns) {
    forall r: Record :: CutOut(buf, r, s) ==> FactOf(buf, r, f) == Some(fact)
  }

  lemma TablesReadBack(buf: seq<Byte>, pos: nat, sent: seq<Sent>, facts: seq<Fact>, f: TextFns)
    requires |facts| == |sent| && (forall i :: 0 <= i < |sent| ==> Means(buf, sent[i], facts[i], f))
    requires (forall s :: s in sent ==> Sendable(s)) && StartsWith(buf, pos, RecordsBytes(sent))
    ensures TablesFrom(buf, pos, |sent|, EMPTY, f) == Some(LearnAll(facts, EMPTY))
  {
    var rs := AllReceived(pos, sent);
    var p := (r, fact) => Understood(buf, r, fact, f);
    RecordsRoundTrip(buf, pos, sent);
    forall i, r: Record | 0 <= i < |sent| && CutOut(buf, r, sent[i]) ensures p(r, facts[i]) {
      assert Means(buf, sent[i], facts[i], f);
    }
    EachReceived(buf, pos, sent, facts, p);
    RecordsInBuffer(buf, pos, |sent|);
    LearnedAsSaid(buf, rs, facts, EMPTY, f);
  }

  /** A message read back: questions skipped, records understood, tables crossed. */
  lemma MessageReadBack(buf: seq<Byte>, header: seq<Byte>, names: seq<seq<Label>>, sent: seq<Sent>, facts: seq<Fact>,
                        an: nat, ns: nat, ar: nat, f: TextFns)
    requires |names| < 65536 && an < 65536 && ns < 65536 && ar < 65536 && an + ns + ar == |sent| == |facts|
    requires (forall n :: n in names ==> Readable(n)) && (forall s :: s in sent ==> Sendable(s))
    requires header == ResponseHeader(|names|, an, ns, ar) && buf == header + QuestionsBytes(names) + RecordsBytes(sent)
    requires forall i :: 0 <= i < |sent| ==> Means(buf, sent[i], facts[i], f)
    ensures var t := LearnAll(facts, EMPTY);
            Parsed(buf, f) == Crossed(t, t.ptr, f)
  {
    var pos := 12 + |QuestionsBytes(names)|;
    HeaderReadBack(buf, |names|, an, ns, ar);
    QuestionsReadBack(buf, 12, names, pos);
    TablesReadBack(buf, pos, sent, facts, f);
    ParsedFrom(buf, names, pos, LearnAll(facts, EMPTY), f);
  }

  lemma SentAllOk(rrs: seq<Rr>)
    requires forall i :: 0 <= i < |rrs| ==> Announces(rrs[i])
    ensures forall s :: s in SentAll(rrs) ==> Sendable(s)
  {
    forall i | 0 <= i < |rrs| ensures Sendable(SentAs(rrs[i])) {
      LabelsReadable(rrs[i].name);
    }
  }

  lemma AllMean(buf: seq<Byte>, rrs: seq<Rr>, f: TextFns)
    requires (forall i :: 0 <= i < |rrs| ==> Announces(rrs[i])) && DecodesAscii(f.utf8)
    ensures forall i :: 0 <= i < |rrs| ==> Means(buf, SentAll(rrs)[i], SaidAll(rrs, f)[i], f)
  {
    forall i | 0 <= i < |rrs| ensures Means(buf, SentAs(rrs[i]), Said(rrs[i], f), f) {
      forall r: Record | CutOut(buf, r, SentAs(rrs[i])) ensures FactOf(buf, r, f) == Some(Said(rrs[i], f)) {
        FactReadBack(buf, r, rrs[i], f);
      }
    }
  }

  /** Sizes that fit their fields, encodable names and records. */
  predicate Sound(questions: seq<string>, rrs: seq<Rr>, an: nat, ns: nat, ar: nat) {
    && |questions| < 65536 && an < 65536 && ns < 65536 && ar < 65536 && an + ns + ar == |rrs|
    && (forall s :: s in questions ==> Encodable(s)) && (forall i :: 0 <= i < |rrs| ==> Announces(rrs[i]))
  }

  /** A response: header, questions and records, these in the order of the three sections. */
  function Response(questions: seq<string>, rrs: seq<Rr>, an: nat, ns: nat, ar: nat): seq<Byte>
    requires Sound(questions, rrs, an, ns, ar)
  {
    SentAllOk(rrs);
    ResponseHeader(|questions|, an, ns, ar) + QuestionsBytes(AllLabels(questions)) + RecordsBytes(SentAll(rrs))
  }

  /**
   * Parsing a response of any questions and records gives, service by service, what its records tell about each instance,
   * in whatever sections they stand.
   */
  lemma ResponseRoundTrip(questions: seq<string>, rrs: seq<Rr>, an: nat, ns: nat, ar: nat, f: TextFns)
    requires Sound(questions, rrs, an, ns, ar) && DecodesAscii(f.utf8)
    ensures var facts := SaidAll(rrs, f);
            Parsed(Response(questions, rrs, an, ns, ar), f) == Reference(facts, Services(facts), f)
  {
    var buf, facts := Response(questions, rrs, an, ns, ar), SaidAll(rrs, f);
    SentAllOk(rrs);
    AllMean(buf, rrs, f);
    AllReadable(questions, f.utf8);
    MessageReadBack(buf, ResponseHeader(|questions|, an, ns, ar), AllLabels(questions), SentAll(rrs), facts, an, ns, ar, f);
    CrossingIsTheReference(facts, f);
  }
}
