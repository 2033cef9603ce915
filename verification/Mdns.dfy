/**
 * The mDNS codec of discovery/dns.ts: the query encoder, the name reader with compression
 * (RFC 1035 sections 3.1 and 4.1.4), the records of a response and the TXT reader.
 */
module Mdns {
  import opened Bytes
  import opened Options
  import opened AsciiText

  type Label = seq<Byte>

  const TYPE_PTR: Byte := 12
  const MAX_JUMPS := 32

  // ----- Names as text

  function NonEmpty(parts: seq<string>): (r: seq<string>)
    ensures forall p :: p in r ==> p != "" && p in parts
  {
    if parts == [] then []
    else if parts[0] == "" then NonEmpty(parts[1..]) else [parts[0]] + NonEmpty(parts[1..])
  }

  /** A text decoder that reads ASCII bytes as the characters they are. */
  ghost predicate DecodesAscii(utf8: Label -> string) {
    forall bytes: Label :: (forall b :: b in bytes ==> b < 128) ==> utf8(bytes) == Chars(bytes)
  }

  // ----- Encoding

  function LabelBytes(octets: Label): seq<Byte> { [(|octets| % 256) as Byte] + octets }

  /** The labels of a name, without the closing octet. */
  function LabelsBytes(labels: seq<Label>): seq<Byte> {
    if labels == [] then [] else LabelBytes(labels[0]) + LabelsBytes(labels[1..])
  }

  lemma {:induction false} LabelsBytesAppend(labels: seq<Label>, last: Label)
    ensures LabelsBytes(labels + [last]) == LabelsBytes(labels) + LabelBytes(last)
  {
    if labels == [] {
      assert labels + [last] == [last];
    } else {
      assert (labels + [last])[1..] == labels[1..] + [last];
      LabelsBytesAppend(labels[1..], last);
    }
  }

  function NameBytes(labels: seq<Label>): seq<Byte> { LabelsBytes(labels) + [0] }

  function EncodedParts(parts: seq<string>): (r: seq<Label>)
    ensures |r| == |parts|
  {
    if parts == [] then [] else [AsciiBytes(parts[0])] + EncodedParts(parts[1..])
  }

  lemma {:induction false} EncodedPartsAppend(parts: seq<string>, last: string)
    ensures EncodedParts(parts + [last]) == EncodedParts(parts) + [AsciiBytes(last)]
  {
    if parts == [] {
      assert parts + [last] == [last];
    } else {
      assert (parts + [last])[1..] == parts[1..] + [last];
      EncodedPartsAppend(parts[1..], last);
    }
  }

  /** The labels under which a name travels. */
  function LabelsOf(name: string): seq<Label> { EncodedParts(NonEmpty(Split(name))) }

  method EncodeName(name: string) returns (bytes: seq<Byte>)
    ensures bytes == NameBytes(LabelsOf(name))
  {
    var parts := NonEmpty(Split(name));
    bytes := [];
    for i := 0 to |parts|
      invariant bytes == LabelsBytes(EncodedParts(parts[..i]))
    {
      var octets := AsciiBytes(parts[i]);
      assert parts[..i + 1] == parts[..i] + [parts[i]];
      EncodedPartsAppend(parts[..i], parts[i]);
      LabelsBytesAppend(EncodedParts(parts[..i]), octets);
      bytes := bytes + [(|octets| % 256) as Byte] + octets;
    }
    assert parts[..|parts|] == parts;
    bytes := bytes + [0];
  }

  /** PTR question, class IN with the unicast-response bit of RFC 6762 section 5.4. */
  const QUESTION_TAIL: seq<Byte> := [0, TYPE_PTR, 0x80, 1]

  function QuestionBytes(name: seq<Label>): seq<Byte> { NameBytes(name) + QUESTION_TAIL }

  function QuestionsBytes(names: seq<seq<Label>>): seq<Byte> {
    if names == [] then [] else QuestionBytes(names[0]) + QuestionsBytes(names[1..])
  }

  lemma {:induction false} QuestionsAppend(names: seq<seq<Label>>, last: seq<Label>)
    ensures QuestionsBytes(names + [last]) == QuestionsBytes(names) + QuestionBytes(last)
  {
    if names == [] {
      assert names + [last] == [last];
    } else {
      assert (names + [last])[1..] == names[1..] + [last];
      QuestionsAppend(names[1..], last);
    }
  }

  /** The labels of every name of a list. */
  function AllLabels(services: seq<string>): (names: seq<seq<Label>>)
    ensures |names| == |services| && forall i :: 0 <= i < |services| ==> names[i] == LabelsOf(services[i])
  {
    seq(|services|, i requires 0 <= i < |services| => LabelsOf(services[i]))
  }

  function Header(questions: nat): seq<Byte>
    requires questions < 65536
  {
    [0, 0, 0, 0, (questions / 256) as Byte, (questions % 256) as Byte, 0, 0, 0, 0, 0, 0]
  }

  /** Writing a count above 65535 into the header throws. */
  method EncodeMdnsQuery(services: seq<string>) returns (query: Option<seq<Byte>>)
    ensures query == if |services| < 65536 then Some(Header(|services|) + QuestionsBytes(AllLabels(services))) else None
  {
    if |services| >= 65536 { return None; }
    var questions: seq<Byte> := [];
    for i := 0 to |services|
      invariant questions == QuestionsBytes(AllLabels(services)[..i])
    {
      var name := EncodeName(services[i]);
      assert AllLabels(services)[..i + 1] == AllLabels(services)[..i] + [LabelsOf(services[i])];
      QuestionsAppend(AllLabels(services)[..i], LabelsOf(services[i]));
      questions := questions + (name + QUESTION_TAIL);
    }
    assert AllLabels(services)[..|services|] == AllLabels(services);
    query := Some(Header(|services|) + questions);
  }

  // ----- Reading a name

  /** A name read off a buffer: its labels and the offset after it; Bad stands for a thrown error. */
  datatype NameRead = Bad | Name(labels: seq<Label>, next: nat)

  /** The 14-bit offset of a pointer whose two octets are hi and lo. */
  function PointerTarget(hi: Byte, lo: Byte): nat
    requires hi >= 0xc0
  {
    (hi as int - 0xc0) * 256 + lo as int
  }

  /** RFC 1035 section 4.1.4: two ones, then the offset in fourteen bits, its high octet first. */
  lemma PointerReadBack(target: nat)
    requires target < 16384
    ensures PointerTarget((0xc0 + target / 256) as Byte, (target % 256) as Byte) == target
  {
  }

  /** The name at pos, after some jumps have been taken. */
  function NameAt(buf: seq<Byte>, pos: nat, jumps: nat): NameRead
    requires jumps <= MAX_JUMPS
    decreases MAX_JUMPS - jumps, |buf| - pos
  {
    if pos >= |buf| then Bad
    else if buf[pos] == 0 then Name([], pos + 1)
    else if buf[pos] >= 0xc0 then
      if pos + 1 >= |buf| || jumps == MAX_JUMPS then Bad
      else
        match NameAt(buf, PointerTarget(buf[pos], buf[pos + 1]), jumps + 1)
        case Bad => Bad
        case Name(labels, _) => Name(labels, pos + 2)
    else
      var end := pos + 1 + buf[pos] as nat;
      if end > |buf| then Bad
      else
        match NameAt(buf, end, jumps)
        case Bad => Bad
        case Name(labels, next) => Name([buf[pos + 1..end]] + labels, next)
  }

  /** The part read so far followed by what the rest of the loop will read. */
  ghost function Continue(labels: seq<Label>, next: int, rest: NameRead): NameRead
    requires next >= -1
  {
    match rest
    case Bad => Bad
    case Name(more, end) => Name(labels + more, if next == -1 then end else next)
  }

  lemma LabelStep(buf: seq<Byte>, pos: nat, jumps: nat, labels: seq<Label>, next: int)
    requires jumps <= MAX_JUMPS && next >= -1 && pos < |buf| && 0 < buf[pos] < 0xc0
    requires pos + 1 + buf[pos] as nat <= |buf|
    ensures var end := pos + 1 + buf[pos] as nat;
            Continue(labels + [buf[pos + 1..end]], next, NameAt(buf, end, jumps)) == Continue(labels, next, NameAt(buf, pos, jumps))
  {
    var end := pos + 1 + buf[pos] as nat;
    var octets, rest := buf[pos + 1..end], NameAt(buf, end, jumps);
    if rest.Name? { assert labels + ([octets] + rest.labels) == (labels + [octets]) + rest.labels; }
  }

  lemma PointerStep(buf: seq<Byte>, pos: nat, jumps: nat, labels: seq<Label>, next: int)
    requires jumps < MAX_JUMPS && next >= -1 && pos + 1 < |buf| && buf[pos] >= 0xc0
    ensures Continue(labels, next, NameAt(buf, pos, jumps))
         == Continue(labels, if next == -1 then pos + 2 else next, NameAt(buf, PointerTarget(buf[pos], buf[pos + 1]), jumps + 1))
  {
  }

  method ReadName(buf: seq<Byte>, offset: nat) returns (name: NameRead)
    ensures name == NameAt(buf, offset, 0)
    ensures name.Name? ==> offset < name.next <= |buf|
  {
    var labels: seq<Label> := [];
    var pos: nat := offset;
    var next: int := -1;
    var jumps: nat := 0;
    NameEndsInside(buf, offset, 0);
    ContinueNothing(NameAt(buf, offset, 0));
    while true
      invariant jumps <= MAX_JUMPS && next >= -1
      invariant NameAt(buf, offset, 0) == Continue(labels, next, NameAt(buf, pos, jumps))
      decreases MAX_JUMPS - jumps, |buf| - pos
    {
      if pos >= |buf| { return Bad; }
      var len := buf[pos];
      if len == 0 {
        pos := pos + 1;
        assert labels + [] == labels;
        break;
      }
      if len >= 0xc0 {
        if pos + 1 >= |buf| { return Bad; }
        if jumps + 1 > MAX_JUMPS { return Bad; }
        PointerStep(buf, pos, jumps, labels, next);
        if next == -1 { next := pos + 2; }
        pos := PointerTarget(len, buf[pos + 1]);
        jumps := jumps + 1;
        continue;
      }
      var end := pos + 1 + len as nat;
      if end > |buf| { return Bad; }
      LabelStep(buf, pos, jumps, labels, next);
      labels := labels + [buf[pos + 1..end]];
      pos := end;
    }
    name := Name(labels, if next == -1 then pos else next);
  }

  lemma ContinueNothing(rest: NameRead)
    ensures Continue([], -1, rest) == rest
  {
    if rest.Name? { assert [] + rest.labels == rest.labels; }
  }

  /** A successful read ends strictly after its start, inside the buffer, with labels of 1 to 191 bytes. */
  lemma {:induction false} NameEndsInside(buf: seq<Byte>, pos: nat, jumps: nat)
    requires jumps <= MAX_JUMPS
    ensures var n := NameAt(buf, pos, jumps);
            n.Name? ==> pos < n.next <= |buf| && forall l :: l in n.labels ==> 1 <= |l| < 0xc0
    decreases MAX_JUMPS - jumps, |buf| - pos
  {
    if pos < |buf| && buf[pos] != 0 {
      if buf[pos] < 0xc0 {
        var end := pos + 1 + buf[pos] as nat;
        if end <= |buf| {
          NameEndsInside(buf, end, jumps);
          var rest := NameAt(buf, end, jumps);
          assert rest.Name? ==> NameAt(buf, pos, jumps) == Name([buf[pos + 1..end]] + rest.labels, rest.next);
        }
      } else if pos + 1 < |buf| && jumps < MAX_JUMPS {
        NameEndsInside(buf, PointerTarget(buf[pos], buf[pos + 1]), jumps + 1);
      }
    }
  }

  // ----- Names read back

  predicate Readable(labels: seq<Label>) { forall l :: l in labels ==> 1 <= |l| < 0xc0 }

  ghost predicate StartsWith(buf: seq<Byte>, pos: nat, bytes: seq<Byte>) {
    pos + |bytes| <= |buf| && buf[pos..pos + |bytes|] == bytes
  }

  lemma StartsWithConcat(buf: seq<Byte>, pos: nat, a: seq<Byte>, b: seq<Byte>)
    requires StartsWith(buf, pos, a + b)
    ensures StartsWith(buf, pos, a) && StartsWith(buf, pos + |a|, b)
  {
    assert buf[pos..pos + |a|] == (a + b)[..|a|] == a;
    assert buf[pos + |a|..pos + |a| + |b|] == (a + b)[|a|..] == b;
  }

  /** The labels lie on the wire from pos, one after the other. */
  ghost predicate LabelsAt(buf: seq<Byte>, pos: nat, labels: seq<Label>)
    decreases |labels|
  {
    labels == []
    || (&& 1 <= |labels[0]| < 0xc0 && StartsWith(buf, pos, LabelBytes(labels[0]))
        && LabelsAt(buf, pos + 1 + |labels[0]|, labels[1..]))
  }

  lemma {:induction false} LabelsBytesLieThere(buf: seq<Byte>, pos: nat, labels: seq<Label>)
    requires Readable(labels) && StartsWith(buf, pos, LabelsBytes(labels))
    ensures LabelsAt(buf, pos, labels)
    decreases |labels|
  {
    if labels != [] {
      assert labels[0] in labels;
      StartsWithConcat(buf, pos, LabelBytes(labels[0]), LabelsBytes(labels[1..]));
      assert Readable(labels[1..]);
      LabelsBytesLieThere(buf, pos + 1 + |labels[0]|, labels[1..]);
    }
  }

  lemma ReadLabelThen(buf: seq<Byte>, pos: nat, jumps: nat, first: Label, rest: seq<Label>, end: NameRead)
    requires jumps <= MAX_JUMPS && 1 <= |first| < 0xc0 && StartsWith(buf, pos, LabelBytes(first))
    requires NameAt(buf, pos + 1 + |first|, jumps) == Continue(rest, -1, end)
    ensures NameAt(buf, pos, jumps) == Continue([first] + rest, -1, end)
  {
    ReadOneLabel(buf, pos, jumps, first);
  }

  ghost function After(pos: nat, labels: seq<Label>): nat
    decreases |labels|
  {
    if labels == [] then pos else After(pos + 1 + |labels[0]|, labels[1..])
  }

  lemma {:induction false} AfterIsLength(pos: nat, labels: seq<Label>)
    ensures After(pos, labels) == pos + |LabelsBytes(labels)|
    decreases |labels|
  {
    if labels != [] { AfterIsLength(pos + 1 + |labels[0]|, labels[1..]); }
  }

  /** Labels on the wire are read one by one, whatever follows them. */
  lemma {:induction false} ReadLabels(buf: seq<Byte>, pos: nat, jumps: nat, labels: seq<Label>)
    requires jumps <= MAX_JUMPS && LabelsAt(buf, pos, labels)
    ensures NameAt(buf, pos, jumps) == Continue(labels, -1, NameAt(buf, After(pos, labels), jumps))
    decreases |labels|
  {
    if labels == [] {
      ContinueNothing(NameAt(buf, pos, jumps));
    } else {
      var first, rest := labels[0], labels[1..];
      ReadLabels(buf, pos + 1 + |first|, jumps, rest);
      ReadLabelThen(buf, pos, jumps, first, rest, NameAt(buf, After(pos, labels), jumps));
      assert [first] + rest == labels;
    }
  }

  lemma ReadOneLabel(buf: seq<Byte>, pos: nat, jumps: nat, octets: Label)
    requires jumps <= MAX_JUMPS && 1 <= |octets| < 0xc0 && StartsWith(buf, pos, LabelBytes(octets))
    ensures NameAt(buf, pos, jumps) == Continue([octets], -1, NameAt(buf, pos + 1 + |octets|, jumps))
  {
    var bytes := LabelBytes(octets);
    assert buf[pos] == buf[pos..pos + |bytes|][0] && buf[pos] as nat == |octets|;
    assert buf[pos + 1..pos + 1 + |octets|] == buf[pos..pos + |bytes|][1..] == octets;
  }

  /** An uncompressed name is read back with the offset of the octet after it. */
  lemma ReadUncompressed(buf: seq<Byte>, pos: nat, jumps: nat, labels: seq<Label>)
    requires jumps <= MAX_JUMPS && Readable(labels) && StartsWith(buf, pos, NameBytes(labels))
    ensures NameAt(buf, pos, jumps) == Name(labels, pos + |NameBytes(labels)|)
  {
    StartsWithConcat(buf, pos, LabelsBytes(labels), [0]);
    LabelsBytesLieThere(buf, pos, labels);
    ReadLabels(buf, pos, jumps, labels);
    AfterIsLength(pos, labels);
    var end := pos + |LabelsBytes(labels)|;
    assert buf[end] == buf[end..end + 1][0] == 0;
    assert labels + [] == labels;
  }

  /** A name that ends in a pointer is read as its own labels followed by those at the offset that the two octets hold. */
  lemma ReadCompressed(buf: seq<Byte>, pos: nat, jumps: nat, labels: seq<Label>, target: nat)
    requires jumps < MAX_JUMPS && Readable(labels) && target < 16384
    requires StartsWith(buf, pos, LabelsBytes(labels) + [(0xc0 + target / 256) as Byte, (target % 256) as Byte])
    ensures var after := pos + |LabelsBytes(labels)| + 2;
            NameAt(buf, pos, jumps) ==
            match NameAt(buf, target, jumps + 1)
            case Bad => Bad
            case Name(suffix, _) => Name(labels + suffix, after)
  {
    StartsWithConcat(buf, pos, LabelsBytes(labels), [(0xc0 + target / 256) as Byte, (target % 256) as Byte]);
    ReadInParts(buf, pos, jumps, labels, pos + |LabelsBytes(labels)|, target);
  }

  lemma ReadInParts(buf: seq<Byte>, pos: nat, jumps: nat, labels: seq<Label>, end: nat, target: nat)
    requires jumps < MAX_JUMPS && Readable(labels) && target < 16384 && end == pos + |LabelsBytes(labels)|
    requires StartsWith(buf, pos, LabelsBytes(labels)) && StartsWith(buf, end, [(0xc0 + target / 256) as Byte, (target % 256) as Byte])
    ensures NameAt(buf, pos, jumps) ==
            match NameAt(buf, target, jumps + 1)
            case Bad => Bad
            case Name(suffix, _) => Name(labels + suffix, end + 2)
  {
    LabelsThenRest(buf, pos, jumps, labels);
    ReadPointer(buf, end, jumps, target);
    WithSuffix(NameAt(buf, pos, jumps), labels, end, NameAt(buf, end, jumps), NameAt(buf, target, jumps + 1));
  }

  lemma WithSuffix(whole: NameRead, labels: seq<Label>, end: nat, rest: NameRead, at: NameRead)
    requires whole == Continue(labels, -1, rest)
    requires rest == match at
                     case Bad => Bad
                     case Name(suffix, _) => Name(suffix, end + 2)
    ensures whole == match at
                     case Bad => Bad
                     case Name(suffix, _) => Name(labels + suffix, end + 2)
  {
  }

  lemma LabelsThenRest(buf: seq<Byte>, pos: nat, jumps: nat, labels: seq<Label>)
    requires jumps <= MAX_JUMPS && Readable(labels) && StartsWith(buf, pos, LabelsBytes(labels))
    ensures NameAt(buf, pos, jumps) == Continue(labels, -1, NameAt(buf, pos + |LabelsBytes(labels)|, jumps))
  {
    LabelsBytesLieThere(buf, pos, labels);
    ReadLabels(buf, pos, jumps, labels);
    AfterIsLength(pos, labels);
  }

  lemma ReadPointer(buf: seq<Byte>, at: nat, jumps: nat, target: nat)
    requires jumps < MAX_JUMPS && target < 16384
    requires StartsWith(buf, at, [(0xc0 + target / 256) as Byte, (target % 256) as Byte])
    ensures NameAt(buf, at, jumps) ==
            match NameAt(buf, target, jumps + 1)
            case Bad => Bad
            case Name(suffix, _) => Name(suffix, at + 2)
  {
    var octets := buf[at..at + 2];
    assert buf[at] == octets[0] && buf[at + 1] == octets[1];
    PointerReadBack(target);
  }

  /** Where the loop goes on from pos: past a label, or to the target of a pointer. */
  function GoesOnAt(buf: seq<Byte>, pos: nat): Option<nat> {
    if pos >= |buf| || buf[pos] == 0 then None
    else if buf[pos] >= 0xc0 then
      if pos + 1 >= |buf| then None else Some(PointerTarget(buf[pos], buf[pos + 1]))
    else if pos + 1 + buf[pos] as nat > |buf| then None
    else Some(pos + 1 + buf[pos] as nat)
  }

  ghost predicate StaysIn(buf: seq<Byte>, trap: set<nat>, pos: nat) {
    GoesOnAt(buf, pos).Some? && GoesOnAt(buf, pos).value in trap
  }

  /** The way from any of these positions leads to one of them, and so never ends. */
  ghost predicate NeverEnds(buf: seq<Byte>, trap: set<nat>) {
    forall p {:trigger StaysIn(buf, trap, p)} :: p in trap ==> StaysIn(buf, trap, p)
  }

  lemma GoingOn(buf: seq<Byte>, pos: nat, jumps: nat)
    requires jumps <= MAX_JUMPS && GoesOnAt(buf, pos).Some?
    ensures var next := GoesOnAt(buf, pos).value;
            && pos < |buf|
            && (buf[pos] < 0xc0 ==> next > pos && next <= |buf| && (NameAt(buf, next, jumps) == Bad ==> NameAt(buf, pos, jumps) == Bad))
            && (buf[pos] >= 0xc0 && jumps < MAX_JUMPS && NameAt(buf, next, jumps + 1) == Bad ==> NameAt(buf, pos, jumps) == Bad)
            && (buf[pos] >= 0xc0 && jumps == MAX_JUMPS ==> NameAt(buf, pos, jumps) == Bad)
  {
  }

  /** From a position whose way never ends nothing is read. */
  lemma {:induction false} NeverEndingRefused(buf: seq<Byte>, trap: set<nat>, pos: nat, jumps: nat)
    requires jumps <= MAX_JUMPS && pos in trap && NeverEnds(buf, trap)
    ensures NameAt(buf, pos, jumps) == Bad
    decreases MAX_JUMPS - jumps, |buf| - pos
  {
    assert StaysIn(buf, trap, pos);
    var next := GoesOnAt(buf, pos).value;
    GoingOn(buf, pos, jumps);
    if buf[pos] < 0xc0 {
      NeverEndingRefused(buf, trap, next, jumps);
    } else if jumps < MAX_JUMPS {
      NeverEndingRefused(buf, trap, next, jumps + 1);
    }
  }

  function Successor(cycle: seq<nat>, k: nat): nat
    requires k < |cycle|
  {
    if k + 1 < |cycle| then cycle[k + 1] else cycle[0]
  }

  /** Every cycle of pointers, with labels in between or not, is refused, wherever it is entered. */
  lemma PointerCycleRefused(buf: seq<Byte>, cycle: seq<nat>, i: nat)
    requires i < |cycle| && forall k :: 0 <= k < |cycle| ==> GoesOnAt(buf, cycle[k]) == Some(Successor(cycle, k))
    ensures NameAt(buf, cycle[i], 0) == Bad
  {
    var trap: set<nat> := set p | p in cycle;
    forall p | p in trap ensures StaysIn(buf, trap, p) {
      var k :| 0 <= k < |cycle| && cycle[k] == p;
      assert GoesOnAt(buf, cycle[k]) == Some(Successor(cycle, k)) && Successor(cycle, k) in cycle;
    }
    NeverEndingRefused(buf, trap, cycle[i], 0);
  }

  function Decoded(labels: seq<Label>, utf8: Label -> string): (parts: seq<string>) {
    if labels == [] then [] else [utf8(labels[0])] + Decoded(labels[1..], utf8)
  }

  /** The text that readName returns for the labels it read. */
  function NameText(labels: seq<Label>, utf8: Label -> string): string { Join(Decoded(labels, utf8)) }

  /** A name as it comes back: its non-empty parts joined by dots. */
  function Normalized(name: string): string { Join(NonEmpty(Split(name))) }

  lemma {:induction false} DecodedParts(parts: seq<string>, utf8: Label -> string)
    requires DecodesAscii(utf8) && forall p :: p in parts ==> Ascii(p)
    ensures Decoded(EncodedParts(parts), utf8) == parts
  {
    if parts != [] {
      assert parts[0] in parts;
      CharsOfAscii(parts[0]);
      assert forall p :: p in parts[1..] ==> p in parts;
      DecodedParts(parts[1..], utf8);
    }
  }

  lemma {:induction false} NonEmptyIsIdentity(parts: seq<string>)
    requires "" !in parts
    ensures NonEmpty(parts) == parts
  {
    if parts != [] {
      assert parts[0] in parts;
      NonEmptyIsIdentity(parts[1..]);
    }
  }

  /** A name without empty parts, like every service name, is its own normal form. */
  lemma ProperNameIsNormal(name: string)
    requires "" !in Split(name)
    ensures Normalized(name) == name
  {
    NonEmptyIsIdentity(Split(name));
    JoinOfSplit(name);
  }

  /** An ASCII name whose parts a reader accepts: at most 191 bytes each, which includes the 63 of the standard. */
  predicate Encodable(name: string) { Ascii(name) && forall p :: p in NonEmpty(Split(name)) ==> |p| < 0xc0 }

  lemma {:induction false} PartsReadable(parts: seq<string>)
    requires forall p :: p in parts ==> 1 <= |p| < 0xc0
    ensures Readable(EncodedParts(parts))
  {
    if parts != [] {
      assert parts[0] in parts;
      assert forall p :: p in parts[1..] ==> p in parts;
      PartsReadable(parts[1..]);
    }
  }

  lemma LabelsReadable(name: string)
    requires Encodable(name)
    ensures Readable(LabelsOf(name))
  {
    PartsReadable(NonEmpty(Split(name)));
  }

  /** Labels written without compression are read back if and only if each takes 1 to 191 bytes. */
  lemma LabelsReadBackIff(buf: seq<Byte>, pos: nat, labels: seq<Label>)
    requires StartsWith(buf, pos, NameBytes(labels))
    ensures NameAt(buf, pos, 0) == Name(labels, pos + |NameBytes(labels)|) <==> Readable(labels)
  {
    if Readable(labels) { ReadUncompressed(buf, pos, 0, labels); }
    NameEndsInside(buf, pos, 0);
  }

  lemma {:induction false} EncodedPartsAt(parts: seq<string>, i: nat)
    requires i < |parts|
    ensures EncodedParts(parts)[i] == AsciiBytes(parts[i])
  {
    if i > 0 { EncodedPartsAt(parts[1..], i - 1); }
  }

  lemma ReadableIffEncodable(name: string)
    requires Ascii(name)
    ensures Readable(LabelsOf(name)) <==> Encodable(name)
  {
    var parts := NonEmpty(Split(name));
    if Encodable(name) { LabelsReadable(name); }
    if Readable(LabelsOf(name)) {
      forall p | p in parts ensures |p| < 0xc0 {
        var i :| 0 <= i < |parts| && parts[i] == p;
        EncodedPartsAt(parts, i);
        assert LabelsOf(name)[i] in LabelsOf(name);
      }
    }
  }

  /** An ASCII name is read back, in its normal form, if and only if its parts are at most 191 bytes long. */
  lemma NameRoundTripIff(buf: seq<Byte>, pos: nat, name: string, utf8: Label -> string)
    requires Ascii(name) && DecodesAscii(utf8) && StartsWith(buf, pos, NameBytes(LabelsOf(name)))
    ensures NameAt(buf, pos, 0) == Name(LabelsOf(name), pos + |NameBytes(LabelsOf(name))|) <==> Encodable(name)
    ensures NameText(LabelsOf(name), utf8) == Normalized(name)
  {
    LabelsReadBackIff(buf, pos, LabelsOf(name));
    ReadableIffEncodable(name);
    NormalText(name, utf8);
  }

  lemma NormalText(name: string, utf8: Label -> string)
    requires Ascii(name) && DecodesAscii(utf8)
    ensures NameText(LabelsOf(name), utf8) == Normalized(name)
  {
    SplitKeepsAscii(name);
    DecodedParts(NonEmpty(Split(name)), utf8);
  }

  // ----- The sections of a message

  function Uint16(buf: seq<Byte>, at: nat): (n: nat)
    requires at + 1 < |buf|
    ensures n < 65536
  {
    buf[at] as int * 256 + buf[at + 1] as int
  }

  /** The names of n questions from pos, and where they end. */
  function Questions(buf: seq<Byte>, pos: nat, n: nat): Option<(seq<seq<Label>>, nat)>
    decreases n
  {
    if n == 0 then Some(([], pos))
    else
      match NameAt(buf, pos, 0)
      case Bad => None
      case Name(labels, next) =>
        match Questions(buf, next + 4, n - 1)
        case None => None
        case Some((names, end)) => Some(([labels] + names, end))
  }

  /** The loop that skips the question section; None when a name in it throws. */
  method SkipQuestions(buf: seq<Byte>) returns (end: Option<nat>)
    requires |buf| >= 12
    ensures var q := Questions(buf, 12, Uint16(buf, 4));
            end == if q.None? then None else Some(q.value.1)
  {
    var qd := Uint16(buf, 4);
    var pos: nat := 12;
    for i := 0 to qd
      invariant var all, rest := Questions(buf, 12, qd), Questions(buf, pos, qd - i);
                (all.None? <==> rest.None?) && (all.Some? ==> all.value.1 == rest.value.1)
    {
      var name := ReadName(buf, pos);
      if name.Bad? { return None; }
      pos := name.next + 4;
    }
    end := Some(pos);
  }

  /** A question of type PTR (12) and class IN (1), with the top bit of the class for a unicast response. */
  ghost predicate AsksForPtr(buf: seq<Byte>, at: nat) {
    at + 4 <= |buf| && Uint16(buf, at) == 12 && Uint16(buf, at + 2) == 0x8000 + 1
  }

  lemma ReadOneQuestion(buf: seq<Byte>, pos: nat, name: seq<Label>)
    requires Readable(name) && StartsWith(buf, pos, QuestionBytes(name))
    ensures var next := pos + |QuestionBytes(name)| - 4;
            NameAt(buf, pos, 0) == Name(name, next) && AsksForPtr(buf, next)
  {
    StartsWithConcat(buf, pos, NameBytes(name), QUESTION_TAIL);
    ReadUncompressed(buf, pos, 0, name);
    TailAsksForPtr(buf, pos + |NameBytes(name)|);
  }

  lemma TailAsksForPtr(buf: seq<Byte>, at: nat)
    requires StartsWith(buf, at, QUESTION_TAIL)
    ensures AsksForPtr(buf, at)
  {
    var tail := buf[at..at + 4];
    assert tail[0] == buf[at] && tail[1] == buf[at + 1] && tail[2] == buf[at + 2] && tail[3] == buf[at + 3];
  }

  /** The questions for these names lie on the wire between pos and end. */
  ghost predicate QuestionsLie(buf: seq<Byte>, pos: nat, names: seq<seq<Label>>, end: nat) {
    && (forall n :: n in names ==> Readable(n))
    && StartsWith(buf, pos, QuestionsBytes(names)) && end == pos + |QuestionsBytes(names)|
  }

  lemma {:induction false} QuestionsConcat(a: seq<seq<Label>>, b: seq<seq<Label>>)
    ensures QuestionsBytes(a + b) == QuestionsBytes(a) + QuestionsBytes(b)
  {
    if a == [] {
      assert a + b == b;
    } else {
      assert (a + b)[1..] == a[1..] + b;
      QuestionsConcat(a[1..], b);
    }
  }

  /** Where the i-th question begins, the first at pos. */
  ghost function QuestionStart(pos: nat, names: seq<seq<Label>>, i: nat): nat
    requires i <= |names|
  {
    pos + |QuestionsBytes(names[..i])|
  }

  lemma QuestionLiesAt(buf: seq<Byte>, pos: nat, names: seq<seq<Label>>, end: nat, i: nat)
    requires QuestionsLie(buf, pos, names, end) && i < |names|
    ensures Readable(names[i]) && StartsWith(buf, QuestionStart(pos, names, i), QuestionBytes(names[i]))
    ensures QuestionStart(pos, names, i + 1) == QuestionStart(pos, names, i) + |QuestionBytes(names[i])|
  {
    QuestionsUpTo(names, i);
    assert names == names[..i] + ([names[i]] + names[i + 1..]);
    MiddleQuestion(buf, pos, names[..i], names[i], names[i + 1..], end);
  }

  lemma MiddleQuestion(buf: seq<Byte>, pos: nat, before: seq<seq<Label>>, name: seq<Label>, rest: seq<seq<Label>>, end: nat)
    requires QuestionsLie(buf, pos, before + ([name] + rest), end)
    ensures Readable(name) && StartsWith(buf, pos + |QuestionsBytes(before)|, QuestionBytes(name))
  {
    assert name in before + ([name] + rest);
    QuestionsAround(before, name, rest);
    MiddlePart(buf, pos, QuestionsBytes(before), QuestionBytes(name), QuestionsBytes(rest));
  }

  lemma QuestionsUpTo(names: seq<seq<Label>>, i: nat)
    requires i < |names|
    ensures QuestionsBytes(names[..i + 1]) == QuestionsBytes(names[..i]) + QuestionBytes(names[i])
  {
    assert names[..i + 1] == names[..i] + [names[i]];
    QuestionsAppend(names[..i], names[i]);
  }

  lemma QuestionsAround(before: seq<seq<Label>>, name: seq<Label>, rest: seq<seq<Label>>)
    ensures QuestionsBytes(before + ([name] + rest)) == QuestionsBytes(before) + (QuestionBytes(name) + QuestionsBytes(rest))
  {
    QuestionsConcat(before, [name] + rest);
    QuestionsFrom(name, rest);
  }

  lemma MiddlePart(buf: seq<Byte>, pos: nat, a: seq<Byte>, b: seq<Byte>, c: seq<Byte>)
    requires StartsWith(buf, pos, a + (b + c))
    ensures StartsWith(buf, pos + |a|, b)
  {
    StartsWithConcat(buf, pos, a, b + c);
    StartsWithConcat(buf, pos + |a|, b, c);
  }

  lemma QuestionsFrom(name: seq<Label>, rest: seq<seq<Label>>)
    ensures QuestionsBytes([name] + rest) == QuestionBytes(name) + QuestionsBytes(rest)
  {
    assert ([name] + rest)[1..] == rest;
  }

  lemma ReadThen(buf: seq<Byte>, pos: nat, names: seq<seq<Label>>, next: nat, end: nat)
    requires names != [] && NameAt(buf, pos, 0) == Name(names[0], next)
    requires Questions(buf, next + 4, |names| - 1) == Some((names[1..], end))
    ensures Questions(buf, pos, |names|) == Some((names, end))
  {
    assert [names[0]] + names[1..] == names;
  }

  /** The reader finds the i-th name where its question begins, then its type and class, and then the next question. */
  ghost predicate NameIs(buf: seq<Byte>, pos: nat, names: seq<seq<Label>>, i: nat)
    requires i < |names|
  {
    var n := NameAt(buf, QuestionStart(pos, names, i), 0);
    n.Name? && n.labels == names[i] && AsksForPtr(buf, n.next) && n.next + 4 == QuestionStart(pos, names, i + 1)
  }

  /** From pos to end the reader finds the questions for these names. */
  ghost predicate NamesAre(buf: seq<Byte>, pos: nat, names: seq<seq<Label>>, end: nat) {
    QuestionStart(pos, names, |names|) == end && forall i :: 0 <= i < |names| ==> NameIs(buf, pos, names, i)
  }

  lemma QuestionsAreNames(buf: seq<Byte>, pos: nat, names: seq<seq<Label>>, end: nat)
    requires QuestionsLie(buf, pos, names, end)
    ensures NamesAre(buf, pos, names, end)
  {
    assert names[..|names|] == names;
    forall i | 0 <= i < |names| ensures NameIs(buf, pos, names, i) {
      QuestionLiesAt(buf, pos, names, end, i);
      ReadOneQuestion(buf, QuestionStart(pos, names, i), names[i]);
    }
  }

  lemma {:induction false} NamesAreRead(buf: seq<Byte>, pos: nat, names: seq<seq<Label>>, end: nat, i: nat, n: nat)
    requires NamesAre(buf, pos, names, end) && i + n == |names|
    ensures Questions(buf, QuestionStart(pos, names, i), n) == Some((names[i..], end))
    decreases n
  {
    if n == 0 {
      assert names[i..] == [] && QuestionStart(pos, names, i) == end;
    } else {
      assert NameIs(buf, pos, names, i);
      var start := QuestionStart(pos, names, i);
      NamesAreRead(buf, pos, names, end, i + 1, n - 1);
      assert names[i..][0] == names[i] && names[i..][1..] == names[i + 1..];
      ReadThen(buf, start, names[i..], NameAt(buf, start, 0).next, end);
    }
  }

  /** The questions of a query are read back in order, and end where they were written. */
  lemma QuestionsReadBack(buf: seq<Byte>, pos: nat, names: seq<seq<Label>>, end: nat)
    requires QuestionsLie(buf, pos, names, end)
    ensures Questions(buf, pos, |names|) == Some((names, end))
  {
    QuestionsAreNames(buf, pos, names, end);
    NamesAreRead(buf, pos, names, end, 0, |names|);
    assert names[0..] == names && names[..0] == [];
  }

  lemma AllReadable(services: seq<string>, utf8: Label -> string)
    requires DecodesAscii(utf8) && (forall s :: s in services ==> Encodable(s))
    ensures forall n :: n in AllLabels(services) ==> Readable(n)
    ensures forall i :: 0 <= i < |services| ==> NameText(AllLabels(services)[i], utf8) == Normalized(services[i])
  {
    forall i | 0 <= i < |services|
      ensures Readable(AllLabels(services)[i]) && NameText(AllLabels(services)[i], utf8) == Normalized(services[i])
    {
      assert services[i] in services;
      LabelsReadable(services[i]);
      NormalText(services[i], utf8);
    }
  }

  /** A standard query with these many questions, no identifier and no records in any section. */
  ghost predicate HeaderOfQuery(buf: seq<Byte>, questions: nat) {
    && |buf| >= 12 && Uint16(buf, 0) == Uint16(buf, 2) == 0 && Uint16(buf, 4) == questions
    && Uint16(buf, 6) == Uint16(buf, 8) == Uint16(buf, 10) == 0
  }

  lemma HeaderThenQuestions(count: nat, questions: seq<Byte>)
    requires count < 65536
    ensures var buf := Header(count) + questions;
            HeaderOfQuery(buf, count) && StartsWith(buf, 12, questions)
  {
    assert (Header(count) + questions)[12..] == questions;
  }

  /**
   * For every list of at most 65535 encodable names, the header and the name reader recover the list
   * from the query, each question asks for PTR records, and skipping them ends exactly at the end of the buffer.
   */
  lemma QueryRoundTrip(services: seq<string>, utf8: Label -> string)
    requires |services| < 65536 && DecodesAscii(utf8) && (forall s :: s in services ==> Encodable(s))
    ensures var buf := Header(|services|) + QuestionsBytes(AllLabels(services));
            && HeaderOfQuery(buf, |services|) && NamesAre(buf, 12, AllLabels(services), |buf|)
            && Questions(buf, 12, Uint16(buf, 4)) == Some((AllLabels(services), |buf|))
    ensures forall i :: 0 <= i < |services| ==> NameText(AllLabels(services)[i], utf8) == Normalized(services[i])
    ensures forall i :: 0 <= i < |services| && "" !in Split(services[i]) ==> NameText(AllLabels(services)[i], utf8) == services[i]
  {
    var names := AllLabels(services);
    forall i | 0 <= i < |services| && "" !in Split(services[i]) ensures Normalized(services[i]) == services[i] {
      ProperNameIsNormal(services[i]);
    }
    var buf := Header(|names|) + QuestionsBytes(names);
    AllReadable(services, utf8);
    HeaderThenQuestions(|names|, QuestionsBytes(names));
    QuestionsAreNames(buf, 12, names, |buf|);
    QuestionsReadBack(buf, 12, names, |buf|);
  }

  /** A resource record as the loop over the answer sections cuts it out of the buffer. */
  datatype Record = Record(name: seq<Label>, kind: nat, rdataStart: nat, rdlength: nat)

  /** A bad name throws; a record that does not fit ends the loop. */
  datatype Cut = Throws | Stops | Fits(r: Record)

  function CutAt(buf: seq<Byte>, pos: nat): (c: Cut)
    ensures c.Fits? ==> c.r.rdataStart + c.r.rdlength <= |buf|
  {
    match NameAt(buf, pos, 0)
    case Bad => Throws
    case Name(name, after) =>
      if after + 10 > |buf| then Stops
      else
        var r := Record(name, Uint16(buf, after), after + 10, Uint16(buf, after + 8));
        if r.rdataStart + r.rdlength > |buf| then Stops else Fits(r)
  }

  /** The records from pos, at most n: the loop stops at the end of the buffer or at a record that does not fit. */
  function Records(buf: seq<Byte>, pos: nat, n: nat): Option<seq<Record>>
    decreases n
  {
    if n == 0 || pos >= |buf| then Some([])
    else
      match CutAt(buf, pos)
      case Throws => None
      case Stops => Some([])
      case Fits(r) =>
        match Records(buf, r.rdataStart + r.rdlength, n - 1)
        case None => None
        case Some(rest) => Some([r] + rest)
  }

  method CutRecord(buf: seq<Byte>, pos: nat) returns (c: Cut)
    ensures c == CutAt(buf, pos)
  {
    var name := ReadName(buf, pos);
    if name.Bad? { return Throws; }
    if name.next + 10 > |buf| { return Stops; }
    var kind := Uint16(buf, name.next);
    var rdlength := Uint16(buf, name.next + 8);
    var rdataStart := name.next + 10;
    if rdataStart + rdlength > |buf| { return Stops; }
    c := Fits(Record(name.labels, kind, rdataStart, rdlength));
  }

  /** The records follow each other from pos without overlap, each with its data inside the first `limit` bytes. */
  ghost predicate Laid(rs: seq<Record>, pos: nat, limit: nat)
    decreases |rs|
  {
    rs == [] ||
    (&& pos < rs[0].rdataStart && rs[0].rdataStart + rs[0].rdlength <= limit
     && Laid(rs[1..], rs[0].rdataStart + rs[0].rdlength, limit))
  }

  /** Whatever the bytes, every record cut out lies inside the buffer and none overlaps another. */
  lemma {:induction false} RecordsInside(buf: seq<Byte>, pos: nat, n: nat)
    ensures Records(buf, pos, n).Some? ==> Laid(Records(buf, pos, n).value, pos, |buf|)
    decreases n
  {
    if n > 0 && pos < |buf| && CutAt(buf, pos).Fits? {
      var r := CutAt(buf, pos).r;
      NameEndsInside(buf, pos, 0);
      RecordsInside(buf, r.rdataStart + r.rdlength, n - 1);
      var rest := Records(buf, r.rdataStart + r.rdlength, n - 1);
      if rest.Some? { assert ([r] + rest.value)[1..] == rest.value; }
    }
  }

  /** A record to send: name, type, class and time to live, and its data. */
  datatype Sent = Sent(name: seq<Label>, kind: nat, classAndTtl: seq<Byte>, rdata: seq<Byte>)

  predicate Sendable(s: Sent) { Readable(s.name) && s.kind < 65536 && |s.classAndTtl| == 6 && |s.rdata| < 65536 }

  function Uint16Bytes(n: nat): seq<Byte>
    requires n < 65536
  {
    [(n / 256) as Byte, (n % 256) as Byte]
  }

  function RecordLength(s: Sent): nat { |NameBytes(s.name)| + 10 + |s.rdata| }

  function RecordBytes(s: Sent): (r: seq<Byte>)
    requires Sendable(s)
    ensures |r| == RecordLength(s)
  {
    NameBytes(s.name) + Uint16Bytes(s.kind) + s.classAndTtl + Uint16Bytes(|s.rdata|) + s.rdata
  }

  function RecordsBytes(sent: seq<Sent>): seq<Byte>
    requires forall s :: s in sent ==> Sendable(s)
  {
    if sent == [] then [] else RecordBytes(sent[0]) + RecordsBytes(sent[1..])
  }

  /** The fields that the reader looks at, where it looks for them. */
  ghost predicate RecordAt(buf: seq<Byte>, pos: nat, s: Sent) {
    var after := pos + |NameBytes(s.name)|;
    && Sendable(s)
    && StartsWith(buf, pos, NameBytes(s.name)) && StartsWith(buf, after, Uint16Bytes(s.kind))
    && StartsWith(buf, after + 8, Uint16Bytes(|s.rdata|)) && StartsWith(buf, after + 10, s.rdata)
  }

  lemma FiveParts(buf: seq<Byte>, pos: nat, a: seq<Byte>, b: seq<Byte>, c: seq<Byte>, d: seq<Byte>, e: seq<Byte>)
    requires StartsWith(buf, pos, a + b + c + d + e)
    ensures StartsWith(buf, pos, a) && StartsWith(buf, pos + |a|, b) && StartsWith(buf, pos + |a| + |b| + |c|, d)
    ensures StartsWith(buf, pos + |a| + |b| + |c| + |d|, e)
  {
    StartsWithConcat(buf, pos, a + b + c + d, e);
    StartsWithConcat(buf, pos, a + b + c, d);
    StartsWithConcat(buf, pos, a + b, c);
    StartsWithConcat(buf, pos, a, b);
  }

  lemma RecordBytesLieThere(buf: seq<Byte>, pos: nat, s: Sent)
    requires Sendable(s) && StartsWith(buf, pos, RecordBytes(s))
    ensures RecordAt(buf, pos, s)
  {
    FiveParts(buf, pos, NameBytes(s.name), Uint16Bytes(s.kind), s.classAndTtl, Uint16Bytes(|s.rdata|), s.rdata);
  }

  /** The record the reader makes of what was sent at pos. */
  ghost function Received(pos: nat, s: Sent): Record {
    Record(s.name, s.kind, pos + |NameBytes(s.name)| + 10, |s.rdata|)
  }

  lemma Uint16ReadBack(buf: seq<Byte>, at: nat, n: nat)
    requires n < 65536 && StartsWith(buf, at, Uint16Bytes(n))
    ensures Uint16(buf, at) == n
  {
    assert buf[at] == buf[at..at + 2][0] && buf[at + 1] == buf[at..at + 2][1];
  }

  lemma FieldsAreCut(buf: seq<Byte>, pos: nat, labels: seq<Label>, at: nat, kind: nat, len: nat)
    requires NameAt(buf, pos, 0) == Name(labels, at) && at + 10 + len <= |buf|
    requires Uint16(buf, at) == kind && Uint16(buf, at + 8) == len
    ensures pos < |buf| && CutAt(buf, pos) == Fits(Record(labels, kind, at + 10, len))
  {
  }

  lemma ReadOneRecord(buf: seq<Byte>, pos: nat, s: Sent)
    requires RecordAt(buf, pos, s)
    ensures pos < |buf| && CutAt(buf, pos) == Fits(Received(pos, s))
    ensures CutOut(buf, Received(pos, s), s)
  {
    var after := pos + |NameBytes(s.name)|;
    Uint16ReadBack(buf, after, s.kind);
    Uint16ReadBack(buf, after + 8, |s.rdata|);
    ReadUncompressed(buf, pos, 0, s.name);
    FieldsAreCut(buf, pos, s.name, after, s.kind, |s.rdata|);
  }

  lemma ReadSent(buf: seq<Byte>, pos: nat, s: Sent)
    requires Sendable(s) && StartsWith(buf, pos, RecordBytes(s))
    ensures pos < |buf| && CutAt(buf, pos) == Fits(Received(pos, s))
    ensures CutOut(buf, Received(pos, s), s)
  {
    RecordBytesLieThere(buf, pos, s);
    ReadOneRecord(buf, pos, s);
  }

  /** What the reader makes of a list of records sent from pos. */
  ghost function AllReceived(pos: nat, sent: seq<Sent>): seq<Record>
    decreases |sent|
  {
    if sent == [] then [] else [Received(pos, sent[0])] + AllReceived(pos + RecordLength(sent[0]), sent[1..])
  }

  /** From pos, each cut gives the next record sent, and its data. */
  ghost predicate Cuts(buf: seq<Byte>, pos: nat, sent: seq<Sent>)
    decreases |sent|
  {
    sent == []
    || (&& pos < |buf| && CutAt(buf, pos) == Fits(Received(pos, sent[0])) && CutOut(buf, Received(pos, sent[0]), sent[0])
        && Cuts(buf, pos + RecordLength(sent[0]), sent[1..]))
  }

  lemma RecordsBytesFrom(sent: seq<Sent>)
    requires sent != [] && forall s :: s in sent ==> Sendable(s)
    ensures Sendable(sent[0]) && (forall s :: s in sent[1..] ==> Sendable(s))
    ensures RecordsBytes(sent) == RecordBytes(sent[0]) + RecordsBytes(sent[1..])
  {
    assert sent[0] in sent && forall s :: s in sent[1..] ==> s in sent;
  }

  lemma SplitRecords(buf: seq<Byte>, pos: nat, sent: seq<Sent>)
    requires sent != [] && (forall s :: s in sent ==> Sendable(s)) && StartsWith(buf, pos, RecordsBytes(sent))
    ensures Sendable(sent[0]) && StartsWith(buf, pos, RecordBytes(sent[0]))
    ensures forall s :: s in sent[1..] ==> Sendable(s)
    ensures StartsWith(buf, pos + |RecordBytes(sent[0])|, RecordsBytes(sent[1..]))
  {
    RecordsBytesFrom(sent);
    StartsWithConcat(buf, pos, RecordBytes(sent[0]), RecordsBytes(sent[1..]));
  }

  /** The records lie on the wire from pos, one after the other. */
  ghost predicate SentAt(buf: seq<Byte>, pos: nat, sent: seq<Sent>)
    decreases |sent|
  {
    sent == []
    || (&& Sendable(sent[0]) && StartsWith(buf, pos, RecordBytes(sent[0]))
        && SentAt(buf, pos + |RecordBytes(sent[0])|, sent[1..]))
  }

  lemma {:induction false} SentLieThere(buf: seq<Byte>, pos: nat, sent: seq<Sent>)
    requires (forall s :: s in sent ==> Sendable(s)) && StartsWith(buf, pos, RecordsBytes(sent))
    ensures SentAt(buf, pos, sent)
    decreases |sent|
  {
    if sent != [] {
      var rest := sent[1..];
      SplitRecords(buf, pos, sent);
      var next := pos + |RecordBytes(sent[0])|;
      SentLieThere(buf, next, rest);
    }
  }

  lemma {:induction false} SentIsCut(buf: seq<Byte>, pos: nat, sent: seq<Sent>)
    requires SentAt(buf, pos, sent)
    ensures Cuts(buf, pos, sent)
    decreases |sent|
  {
    if sent != [] {
      ReadSent(buf, pos, sent[0]);
      SentIsCut(buf, pos + RecordLength(sent[0]), sent[1..]);
    }
  }

  lemma {:induction false} CutsAreTheRecords(buf: seq<Byte>, pos: nat, sent: seq<Sent>)
    requires Cuts(buf, pos, sent)
    ensures Records(buf, pos, |sent|) == Some(AllReceived(pos, sent))
    decreases |sent|
  {
    if sent != [] {
      CutsAreTheRecords(buf, pos + RecordLength(sent[0]), sent[1..]);
    }
  }

  /** Every list of records is cut back out of the buffer, in order and each with its own data. */
  lemma RecordsRoundTrip(buf: seq<Byte>, pos: nat, sent: seq<Sent>)
    requires (forall s :: s in sent ==> Sendable(s)) && StartsWith(buf, pos, RecordsBytes(sent))
    ensures Records(buf, pos, |sent|) == Some(AllReceived(pos, sent)) && Cuts(buf, pos, sent)
  {
    SentLieThere(buf, pos, sent);
    SentIsCut(buf, pos, sent);
    CutsAreTheRecords(buf, pos, sent);
  }

  ghost predicate CutOut(buf: seq<Byte>, r: Record, s: Sent) {
    && r.name == s.name && r.kind == s.kind
    && r.rdataStart + r.rdlength <= |buf| && buf[r.rdataStart..r.rdataStart + r.rdlength] == s.rdata
  }

  // ----- TXT data

  function Clamp(i: nat, n: nat): (r: nat)
    ensures r <= n
  {
    if i <= n then i else n
  }

  function IndexOf(s: string, c: char): (i: int)
    ensures i == -1 ==> c !in s
    ensures i != -1 ==> 0 <= i < |s| && s[i] == c && c !in s[..i]
  {
    if s == "" then -1
    else if s[0] == c then 0
    else
      var i := IndexOf(s[1..], c);
      if i == -1 then -1
      else
        assert s[..i + 1] == [s[0]] + s[1..][..i];
        i + 1
  }

  /** Setting a property of a plain object: a string set as __proto__ is not stored. */
  function Stored(out: map<string, string>, key: string, value: string): map<string, string> {
    if key == "__proto__" then out else out[key := value]
  }

  /** What one entry of TXT data does to the result: key=value with a non-empty key, the key in lower case. */
  function WithEntry(out: map<string, string>, entry: string, lower: string -> string): map<string, string> {
    var eq := IndexOf(entry, '=');
    if eq > 0 then Stored(out, lower(entry[..eq]), entry[eq + 1..]) else out
  }

  function Txt(rdata: seq<Byte>, pos: nat, out: map<string, string>, utf8: Label -> string, lower: string -> string): map<string, string>
    decreases |rdata| - pos
  {
    if pos >= |rdata| then out
    else
      var end := pos + 1 + rdata[pos] as nat;
      Txt(rdata, end, WithEntry(out, utf8(rdata[Clamp(pos + 1, |rdata|)..Clamp(end, |rdata|)]), lower), utf8, lower)
  }

  lemma TxtGoesOn(rdata: seq<Byte>, pos: nat, out: map<string, string>, utf8: Label -> string, lower: string -> string)
    requires pos < |rdata|
    ensures var end := pos + 1 + rdata[pos] as nat;
            Txt(rdata, pos, out, utf8, lower)
            == Txt(rdata, end, WithEntry(out, utf8(rdata[Clamp(pos + 1, |rdata|)..Clamp(end, |rdata|)]), lower), utf8, lower)
  {
  }

  method ParseTxt(rdata: seq<Byte>, utf8: Label -> string, lower: string -> string) returns (out: map<string, string>)
    ensures out == Txt(rdata, 0, map[], utf8, lower)
  {
    out := map[];
    var pos: nat := 0;
    while pos < |rdata|
      invariant Txt(rdata, 0, map[], utf8, lower) == Txt(rdata, pos, out, utf8, lower)
      decreases |rdata| - pos
    {
      TxtGoesOn(rdata, pos, out, utf8, lower);
      var len := rdata[pos] as nat;
      var entry := utf8(rdata[Clamp(pos + 1, |rdata|)..Clamp(pos + 1 + len, |rdata|)]);
      pos := pos + 1 + len;
      out := TakeEntry(out, entry, lower);
    }
  }

  method TakeEntry(out: map<string, string>, entry: string, lower: string -> string) returns (taken: map<string, string>)
    ensures taken == WithEntry(out, entry, lower)
  {
    taken := out;
    var eq := IndexOf(entry, '=');
    if eq > 0 { taken := Stored(out, lower(entry[..eq]), entry[eq + 1..]); }
  }

  datatype Pair = Pair(key: string, value: string)

  function PairText(p: Pair): string { p.key + "=" + p.value }

  predicate Announceable(p: Pair) { p.key != "" && '=' !in p.key && Ascii(PairText(p)) && |PairText(p)| < 256 }

  /** TXT data: each entry after its length. */
  function TxtBytes(entries: seq<Label>): seq<Byte> { LabelsBytes(entries) }

  /** The record a list of pairs stands for: a later pair with the same key, case aside, wins, and __proto__ is lost. */
  function Announced(pairs: seq<Pair>, out: map<string, string>, lower: string -> string): map<string, string> {
    if pairs == [] then out else Announced(pairs[1..], Stored(out, lower(pairs[0].key), pairs[0].value), lower)
  }

  /** The value of the last pair announced under the key. */
  ghost function LastAnnounced(pairs: seq<Pair>, key: string, lower: string -> string): Option<string> {
    if pairs == [] then None
    else
      var last := pairs[|pairs| - 1];
      if lower(last.key) == key then Some(last.value) else LastAnnounced(pairs[..|pairs| - 1], key, lower)
  }

  lemma {:induction false} AnnouncedAppend(pairs: seq<Pair>, last: Pair, out: map<string, string>, lower: string -> string)
    ensures Announced(pairs + [last], out, lower) == Stored(Announced(pairs, out, lower), lower(last.key), last.value)
  {
    if pairs == [] {
      assert pairs + [last] == [last] && [last][1..] == [];
    } else {
      assert (pairs + [last])[1..] == pairs[1..] + [last];
      AnnouncedAppend(pairs[1..], last, Stored(out, lower(pairs[0].key), pairs[0].value), lower);
    }
  }

  /** The table has, for every key but __proto__, the last value announced under it, and nothing else. */
  lemma {:induction false} AnnouncedMeans(pairs: seq<Pair>, key: string, lower: string -> string)
    ensures var table := Announced(pairs, map[], lower);
            (if key in table then Some(table[key]) else None) == if key == "__proto__" then None else LastAnnounced(pairs, key, lower)
  {
    if pairs != [] {
      var before, last := pairs[..|pairs| - 1], pairs[|pairs| - 1];
      assert pairs == before + [last];
      AnnouncedMeans(before, key, lower);
      AnnouncedAppend(before, last, map[], lower);
    }
  }

  lemma {:induction false} FirstIndex(s: string, c: char, i: nat)
    requires i < |s| && s[i] == c && c !in s[..i]
    ensures IndexOf(s, c) == i
  {
    if i > 0 {
      assert s[0] == s[..i][0];
      assert forall d :: d in s[1..][..i - 1] ==> d in s[..i];
      FirstIndex(s[1..], c, i - 1);
    }
  }

  lemma PairIsAnEntry(p: Pair, out: map<string, string>, lower: string -> string)
    requires Announceable(p)
    ensures WithEntry(out, PairText(p), lower) == Stored(out, lower(p.key), p.value)
  {
    var text := PairText(p);
    assert text[..|p.key|] == p.key && text[|p.key| + 1..] == p.value;
    FirstIndex(text, '=', |p.key|);
  }

  /** An entry without "=", or without a key before it, says nothing. */
  lemma OtherEntriesSayNothing(entry: string, out: map<string, string>, lower: string -> string)
    ensures WithEntry(out, entry, lower) == out || exists i :: 0 < i < |entry| && entry[i] == '=' && '=' !in entry[..i]
  {
    var eq := IndexOf(entry, '=');
    if eq > 0 { assert entry[eq] == '=' && '=' !in entry[..eq]; }
  }

  /** An entry cut short by the end of the data is taken as far as it goes. */
  lemma ShortEntryIsTaken(rdata: seq<Byte>, pos: nat, out: map<string, string>, utf8: Label -> string, lower: string -> string)
    requires pos < |rdata| && pos + 1 + rdata[pos] as nat > |rdata|
    ensures Txt(rdata, pos, out, utf8, lower) == WithEntry(out, utf8(rdata[pos + 1..]), lower)
  {
    assert rdata[pos + 1..|rdata|] == rdata[pos + 1..];
  }

  /** The entries taken one after the other. */
  ghost function Taken(take: (map<string, string>, Label) -> map<string, string>, entries: seq<Label>, out: map<string, string>): map<string, string> {
    if entries == [] then out else Taken(take, entries[1..], take(out, entries[0]))
  }

  ghost function TakeOf(utf8: Label -> string, lower: string -> string): (map<string, string>, Label) -> map<string, string> {
    (out: map<string, string>, entry: Label) => WithEntry(out, utf8(entry), lower)
  }

  /** What a list of entries stands for. */
  ghost function Entries(entries: seq<Label>, out: map<string, string>, utf8: Label -> string, lower: string -> string): map<string, string> {
    Taken(TakeOf(utf8, lower), entries, out)
  }

  lemma ReadOneEntry(rdata: seq<Byte>, pos: nat, octets: Label, out: map<string, string>, utf8: Label -> string, lower: string -> string)
    requires |octets| < 256 && StartsWith(rdata, pos, LabelBytes(octets))
    ensures Txt(rdata, pos, out, utf8, lower) == Txt(rdata, pos + 1 + |octets|, WithEntry(out, utf8(octets), lower), utf8, lower)
  {
    var bytes, end := LabelBytes(octets), pos + 1 + |octets|;
    assert |bytes| == 1 + |octets| && rdata[pos..end] == bytes;
    assert rdata[pos] == bytes[0] && rdata[pos] as nat == |octets|;
    assert rdata[pos + 1..end] == bytes[1..] == octets;
    assert Clamp(pos + 1, |rdata|) == pos + 1 && Clamp(end, |rdata|) == end;
  }

  ghost predicate EntriesAt(rdata: seq<Byte>, pos: nat, entries: seq<Label>)
    decreases |entries|
  {
    if entries == [] then pos == |rdata|
    else
      && |entries[0]| < 256 && StartsWith(rdata, pos, LabelBytes(entries[0]))
      && EntriesAt(rdata, pos + 1 + |entries[0]|, entries[1..])
  }

  lemma {:induction false} EntriesLieThere(rdata: seq<Byte>, pos: nat, entries: seq<Label>)
    requires (forall e :: e in entries ==> |e| < 256) && pos <= |rdata| && rdata[pos..] == LabelsBytes(entries)
    ensures EntriesAt(rdata, pos, entries)
    decreases |entries|
  {
    if entries != [] {
      assert entries[0] in entries;
      EntriesLieThere(rdata, pos + 1 + |entries[0]|, entries[1..]);
    }
  }

  /** An entry that lies at p is taken, and the reading goes on after it. */
  ghost predicate TakesEntry(rdata: seq<Byte>, read: (nat, map<string, string>) -> map<string, string>,
                             take: (map<string, string>, Label) -> map<string, string>, p: nat, entry: Label, out: map<string, string>)
  {
    |entry| < 256 && StartsWith(rdata, p, LabelBytes(entry)) ==> read(p, out) == read(p + 1 + |entry|, take(out, entry))
  }

  lemma {:induction false} EntriesTaken(rdata: seq<Byte>, read: (nat, map<string, string>) -> map<string, string>,
                                        take: (map<string, string>, Label) -> map<string, string>, pos: nat, entries: seq<Label>,
                                        out: map<string, string>)
    requires EntriesAt(rdata, pos, entries) && (forall o :: read(|rdata|, o) == o)
    requires forall p, l, o :: TakesEntry(rdata, read, take, p, l, o)
    ensures read(pos, out) == Taken(take, entries, out)
    decreases |entries|
  {
    if entries != [] {
      var first := entries[0];
      assert TakesEntry(rdata, read, take, pos, first, out);
      EntriesTaken(rdata, read, take, pos + 1 + |first|, entries[1..], take(out, first));
    }
  }

  lemma TxtTakesEntry(rdata: seq<Byte>, p: nat, entry: Label, out: map<string, string>, utf8: Label -> string, lower: string -> string)
    ensures TakesEntry(rdata, (p: nat, out: map<string, string>) => Txt(rdata, p, out, utf8, lower), TakeOf(utf8, lower), p, entry, out)
  {
    if |entry| < 256 && StartsWith(rdata, p, LabelBytes(entry)) { ReadOneEntry(rdata, p, entry, out, utf8, lower); }
  }

  /** TXT data is read back entry by entry, with nothing left over. */
  lemma EntriesReadBack(rdata: seq<Byte>, pos: nat, entries: seq<Label>, out: map<string, string>, utf8: Label -> string, lower: string -> string)
    requires EntriesAt(rdata, pos, entries)
    ensures Txt(rdata, pos, out, utf8, lower) == Entries(entries, out, utf8, lower)
  {
    var read := (p: nat, out: map<string, string>) => Txt(rdata, p, out, utf8, lower);
    forall p, l, o ensures TakesEntry(rdata, read, TakeOf(utf8, lower), p, l, o) { TxtTakesEntry(rdata, p, l, o, utf8, lower); }
    EntriesTaken(rdata, read, TakeOf(utf8, lower), pos, entries, out);
    assert read(pos, out) == Txt(rdata, pos, out, utf8, lower);
  }

  function PairEntries(pairs: seq<Pair>): (entries: seq<Label>)
    ensures |entries| == |pairs|
  {
    if pairs == [] then [] else [AsciiBytes(PairText(pairs[0]))] + PairEntries(pairs[1..])
  }

  lemma {:induction false} PairsAnnounced(pairs: seq<Pair>, out: map<string, string>, utf8: Label -> string, lower: string -> string)
    requires DecodesAscii(utf8) && (forall p :: p in pairs ==> Announceable(p))
    ensures forall e :: e in PairEntries(pairs) ==> |e| < 256
    ensures Entries(PairEntries(pairs), out, utf8, lower) == Announced(pairs, out, lower)
    decreases |pairs|
  {
    if pairs != [] {
      assert pairs[0] in pairs;
      CharsOfAscii(PairText(pairs[0]));
      PairIsAnEntry(pairs[0], out, lower);
      PairsAnnounced(pairs[1..], Stored(out, lower(pairs[0].key), pairs[0].value), utf8, lower);
    }
  }

  /** TXT data made of key=value pairs reads back as those pairs. */
  lemma TxtRoundTrip(pairs: seq<Pair>, utf8: Label -> string, lower: string -> string)
    requires DecodesAscii(utf8) && (forall p :: p in pairs ==> Announceable(p))
    ensures Txt(TxtBytes(PairEntries(pairs)), 0, map[], utf8, lower) == Announced(pairs, map[], lower)
  {
    PairsAnnounced(pairs, map[], utf8, lower);
    var rdata := TxtBytes(PairEntries(pairs));
    assert rdata[0..] == rdata;
    EntriesLieThere(rdata, 0, PairEntries(pairs));
    EntriesReadBack(rdata, 0, PairEntries(pairs), map[], utf8, lower);
  }
}
