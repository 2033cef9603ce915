/**
 * The hand-made DER of the local certificate authority (crypto/local-ca.ts): the NameConstraints extension of RFC 5280
 * section 4.2.1.10, a reader of it written from ITU-T X.690, and the private IPv4 predicate that must agree with it.
 */
module LocalCa {
  import opened Bytes
  import opened Options
  import opened AsciiText

  datatype Quad = Quad(a: Byte, b: Byte, c: Byte, d: Byte)

  /** Addresses are given as their four octets. */
  datatype Subtree = Dns(dns: string) | Ip(ip: Quad, mask: Quad)

  const PERMITTED_SUBTREES: seq<Subtree> := [
    Dns("local"),
    Dns("localhost"),
    Ip(Quad(127, 0, 0, 0), Quad(255, 0, 0, 0)),
    Ip(Quad(10, 0, 0, 0), Quad(255, 0, 0, 0)),
    Ip(Quad(172, 16, 0, 0), Quad(255, 240, 0, 0)),
    Ip(Quad(192, 168, 0, 0), Quad(255, 255, 0, 0))
  ]

  // ----- Writing

  /** The length octets; the high octet is cut to eight bits when the bytes are put together. */
  function DerLength(n: nat): seq<Byte> {
    if n < 0x80 then [n as Byte]
    else if n <= 0xff then [0x81, n as Byte]
    else [0x82, (n / 256 % 256) as Byte, (n % 256) as Byte]
  }

  function Der(tag: Byte, body: seq<Byte>): seq<Byte> { [tag] + DerLength(|body|) + body }

  function Octets(q: Quad): seq<Byte> { [q.a, q.b, q.c, q.d] }

  function BaseName(s: Subtree): seq<Byte> {
    match s
    case Dns(dns) => Der(0x82, AsciiBytes(dns))
    case Ip(ip, mask) => Der(0x87, Octets(ip) + Octets(mask))
  }

  function GeneralSubtrees(subtrees: seq<Subtree>): seq<Byte> {
    if subtrees == [] then [] else Der(0x30, BaseName(subtrees[0])) + GeneralSubtrees(subtrees[1..])
  }

  function EncodeNameConstraints(subtrees: seq<Subtree>): seq<Byte> { Der(0x30, Der(0xa0, GeneralSubtrees(subtrees))) }

  // ----- Reading

  /** Big-endian value of length octets. */
  function BigEndian(octets: seq<Byte>): nat {
    if octets == [] then 0 else BigEndian(octets[..|octets| - 1]) * 256 + octets[|octets| - 1] as nat
  }

  datatype Length = BadLength | Length(value: nat, size: nat)

  /**
   * Definite lengths of X.690 section 8.1.3, in the fewest octets as section 10.1 demands: the short form below 128, and
   * otherwise the long form without leading zeros.
   */
  function ReadLength(buf: seq<Byte>): (l: Length)
    ensures l.Length? ==> 1 <= l.size <= |buf|
  {
    if buf == [] then BadLength
    else if buf[0] < 0x80 then Length(buf[0] as nat, 1)
    else
      var k := buf[0] as nat - 0x80;
      if k == 0 || k == 127 || 1 + k > |buf| then BadLength
      else
        var value := BigEndian(buf[1..1 + k]);
        if buf[1] == 0 || value < 0x80 then BadLength else Length(value, 1 + k)
  }

  /** One value off the front of the bytes, and what follows it. */
  datatype Tlv = Malformed | Tlv(tag: Byte, body: seq<Byte>, rest: seq<Byte>)

  function ReadTlv(buf: seq<Byte>): (t: Tlv)
    ensures t.Tlv? ==> |t.body| + |t.rest| < |buf|
  {
    if buf == [] then Malformed
    else
      match ReadLength(buf[1..])
      case BadLength => Malformed
      case Length(value, size) =>
        var start := 1 + size;
        if start + value > |buf| then Malformed
        else Tlv(buf[0], buf[start..start + value], buf[start + value..])
  }

  /** The contents of a value with this tag and nothing after it. */
  function ReadOnly(buf: seq<Byte>, tag: Byte): Option<seq<Byte>> {
    match ReadTlv(buf)
    case Malformed => None
    case Tlv(t, body, rest) => if t == tag && rest == [] then Some(body) else None
  }

  function ReadBaseName(buf: seq<Byte>): Option<Subtree> {
    match ReadTlv(buf)
    case Malformed => None
    case Tlv(tag, body, rest) =>
      if rest != [] then None
      else if tag == 0x82 then Some(Dns(Chars(body)))
      else if tag == 0x87 && |body| == 8 then
        Some(Ip(Quad(body[0], body[1], body[2], body[3]), Quad(body[4], body[5], body[6], body[7])))
      else None
  }

  function ReadSubtrees(buf: seq<Byte>): Option<seq<Subtree>>
    decreases |buf|
  {
    if buf == [] then Some([])
    else
      match ReadTlv(buf)
      case Malformed => None
      case Tlv(tag, body, rest) =>
        if tag != 0x30 then None
        else
          match (ReadBaseName(body), ReadSubtrees(rest))
          case (Some(first), Some(more)) => Some([first] + more)
          case (_, _) => None
  }

  function ReadNameConstraints(buf: seq<Byte>): Option<seq<Subtree>> {
    match ReadOnly(buf, 0x30)
    case None => None
    case Some(inner) =>
      match ReadOnly(inner, 0xa0)
      case None => None
      case Some(general) => ReadSubtrees(general)
  }

  // ----- Round trip

  lemma BigEndianOfTwo(hi: Byte, lo: Byte)
    ensures BigEndian([hi]) == hi as nat && BigEndian([hi, lo]) == hi as nat * 256 + lo as nat
  {
    assert [hi][..0] == [];
    assert [hi, lo][..1] == [hi];
  }

  /** The length octets are read back, whatever follows them, with the value cut to sixteen bits. */
  lemma LengthReadBack(n: nat, more: seq<Byte>)
    requires n < 65536
    ensures ReadLength(DerLength(n) + more) == Length(n, |DerLength(n)|)
  {
    var octets := DerLength(n);
    var buf := octets + more;
    if n >= 0x80 && n <= 0xff {
      assert buf[1..2] == [n as Byte];
      BigEndianOfTwo(n as Byte, 0);
    } else if n > 0xff {
      assert buf[1..3] == [(n / 256 % 256) as Byte, (n % 256) as Byte];
      BigEndianOfTwo((n / 256 % 256) as Byte, (n % 256) as Byte);
    }
  }

  lemma TlvReadBack(tag: Byte, body: seq<Byte>, rest: seq<Byte>)
    requires |body| < 65536
    ensures ReadTlv(Der(tag, body) + rest) == Tlv(tag, body, rest)
  {
    var buf := Der(tag, body) + rest;
    var start := 1 + |DerLength(|body|)|;
    assert buf[1..] == DerLength(|body|) + (body + rest);
    LengthReadBack(|body|, body + rest);
    assert buf[start..start + |body|] == body && buf[start + |body|..] == rest;
  }

  lemma OnlyReadBack(tag: Byte, body: seq<Byte>)
    requires |body| < 65536
    ensures ReadOnly(Der(tag, body), tag) == Some(body)
  {
    assert Der(tag, body) + [] == Der(tag, body);
    TlvReadBack(tag, body, []);
  }

  /** Names are ASCII, as an IA5String demands. */
  predicate Encodable(s: Subtree) { s.Dns? ==> Ascii(s.dns) }

  lemma DnsReadBack(dns: string)
    requires Ascii(dns) && |dns| < 65536
    ensures ReadBaseName(Der(0x82, AsciiBytes(dns))) == Some(Dns(dns))
  {
    assert Der(0x82, AsciiBytes(dns)) + [] == Der(0x82, AsciiBytes(dns));
    TlvReadBack(0x82, AsciiBytes(dns), []);
    CharsOfAscii(dns);
  }

  lemma IpReadBack(ip: Quad, mask: Quad)
    ensures ReadBaseName(Der(0x87, Octets(ip) + Octets(mask))) == Some(Ip(ip, mask))
  {
    var body := Octets(ip) + Octets(mask);
    assert Der(0x87, body) + [] == Der(0x87, body);
    TlvReadBack(0x87, body, []);
    assert body == [ip.a, ip.b, ip.c, ip.d, mask.a, mask.b, mask.c, mask.d];
  }

  lemma BaseNameReadBack(s: Subtree)
    requires Encodable(s) && |BaseName(s)| < 65536
    ensures ReadBaseName(BaseName(s)) == Some(s)
  {
    match s
    case Dns(dns) => DnsReadBack(dns);
    case Ip(ip, mask) => IpReadBack(ip, mask);
  }

  lemma DerGrows(tag: Byte, body: seq<Byte>)
    ensures |body| + 2 <= |Der(tag, body)| <= |body| + 4
  {
  }

  lemma SubtreeThen(s: Subtree, more: seq<Byte>, rest: seq<Subtree>)
    requires Encodable(s) && |BaseName(s)| < 65536 && ReadSubtrees(more) == Some(rest)
    ensures ReadSubtrees(Der(0x30, BaseName(s)) + more) == Some([s] + rest)
  {
    TlvReadBack(0x30, BaseName(s), more);
    BaseNameReadBack(s);
  }

  lemma GeneralFrom(subtrees: seq<Subtree>)
    requires subtrees != []
    ensures GeneralSubtrees(subtrees) == Der(0x30, BaseName(subtrees[0])) + GeneralSubtrees(subtrees[1..])
  {
  }

  lemma {:induction false} SubtreesReadBack(subtrees: seq<Subtree>)
    requires |GeneralSubtrees(subtrees)| < 65536 && forall s :: s in subtrees ==> Encodable(s)
    ensures ReadSubtrees(GeneralSubtrees(subtrees)) == Some(subtrees)
  {
    if subtrees != [] {
      var first, rest := subtrees[0], subtrees[1..];
      assert first in subtrees && forall s :: s in rest ==> s in subtrees;
      var more := GeneralSubtrees(rest);
      GeneralFrom(subtrees);
      DerGrows(0x30, BaseName(first));
      SubtreesReadBack(rest);
      SubtreeThen(first, more, rest);
      assert [first] + rest == subtrees;
    }
  }

  /** A body of 65536 bytes or more is never read back: its length octets tell a smaller one. */
  lemma LongBodyIsLost(tag: Byte, body: seq<Byte>)
    requires |body| >= 65536
    ensures ReadOnly(Der(tag, body), tag).None?
  {
    var n := |body|;
    var buf := Der(tag, body);
    var hi, lo := (n / 256 % 256) as Byte, (n % 256) as Byte;
    assert buf[1..] == DerLength(n) + body;
    assert buf[1..][1..3] == [hi, lo];
    BigEndianOfTwo(hi, lo);
    var l := ReadLength(buf[1..]);
    assert l.Length? ==> l.value < 65536 && l.size == 3;
  }

  /**
   * From the extension the reader recovers exactly the given subtrees, with nothing left over and every length in its
   * fewest octets, if and only if the permitted subtrees take fewer than 65536 bytes.
   */
  lemma NameConstraintsRoundTrip(subtrees: seq<Subtree>)
    requires forall s :: s in subtrees ==> Encodable(s)
    ensures ReadNameConstraints(EncodeNameConstraints(subtrees)) == Some(subtrees)
            <==> |Der(0xa0, GeneralSubtrees(subtrees))| < 65536
  {
    var general := GeneralSubtrees(subtrees);
    var inner := Der(0xa0, general);
    if |inner| < 65536 {
      DerGrows(0xa0, general);
      OnlyReadBack(0x30, inner);
      OnlyReadBack(0xa0, general);
      SubtreesReadBack(subtrees);
    } else {
      LongBodyIsLost(0x30, inner);
    }
  }

  // ----- Private addresses

  predicate AllDigits(p: string) { forall i :: 0 <= i < |p| ==> '0' <= p[i] <= '9' }

  predicate Digits(p: string) { 1 <= |p| <= 3 && AllDigits(p) }

  function NumberOf(p: string): nat
    requires AllDigits(p)
  {
    if p == "" then 0
    else
      var last := p[|p| - 1];
      NumberOf(p[..|p| - 1]) * 10 + (last as int - '0' as int)
  }

  /** Four groups of one to three digits between dots, each at most 255. */
  function ParseQuad(ip: string): Option<Quad> {
    var m := Split(ip);
    if |m| != 4 || !Digits(m[0]) || !Digits(m[1]) || !Digits(m[2]) || !Digits(m[3]) then None
    else if NumberOf(m[0]) > 255 || NumberOf(m[1]) > 255 || NumberOf(m[2]) > 255 || NumberOf(m[3]) > 255 then None
    else Some(Quad(NumberOf(m[0]) as Byte, NumberOf(m[1]) as Byte, NumberOf(m[2]) as Byte, NumberOf(m[3]) as Byte))
  }

  function Canonical(q: Quad): string { Dotted(q.a, q.b, q.c, q.d) }

  predicate Private(q: Quad) {
    || q.a == 10 || q.a == 127
    || (q.a == 172 && 16 <= q.b <= 31)
    || (q.a == 192 && q.b == 168)
  }

  function PrivateIpv4(ip: string): Option<string> {
    match ParseQuad(ip)
    case None => None
    case Some(q) => if Private(q) then Some(Canonical(q)) else None
  }

  /** Bitwise and. */
  function And(a: nat, b: nat): nat {
    if a == 0 || b == 0 then 0 else 2 * And(a / 2, b / 2) + if a % 2 == 1 && b % 2 == 1 then 1 else 0
  }

  /** An address lies under a base when both agree in the bits of the mask. */
  predicate Covers(s: Subtree, q: Quad) {
    && s.Ip?
    && And(q.a as nat, s.mask.a as nat) == And(s.ip.a as nat, s.mask.a as nat)
    && And(q.b as nat, s.mask.b as nat) == And(s.ip.b as nat, s.mask.b as nat)
    && And(q.c as nat, s.mask.c as nat) == And(s.ip.c as nat, s.mask.c as nat)
    && And(q.d as nat, s.mask.d as nat) == And(s.ip.d as nat, s.mask.d as nat)
  }

  function Ones(bits: nat): nat { if bits == 0 then 0 else 2 * Ones(bits - 1) + 1 }

  lemma {:induction false} AndOnes(a: nat, bits: nat)
    requires a <= Ones(bits)
    ensures And(a, Ones(bits)) == a
  {
    if a > 0 { AndOnes(a / 2, bits - 1); }
  }

  lemma AndHalf(a: nat, b: nat)
    ensures And(a, 2 * b) == 2 * And(a / 2, b)
  {
    if a > 0 && b > 0 { assert 2 * b / 2 == b && 2 * b % 2 == 0; }
  }

  lemma AndSixteenth(a: nat, b: nat)
    ensures And(a, 16 * b) == 16 * And(a / 16, b)
  {
    var half, quarter, eighth := a / 2, a / 4, a / 8;
    assert half / 2 == quarter && quarter / 2 == eighth && eighth / 2 == a / 16;
    AndHalf(a, 8 * b);
    AndHalf(half, 4 * b);
    AndHalf(quarter, 2 * b);
    AndHalf(eighth, b);
  }

  lemma And255(a: Byte)
    ensures And(a as nat, 255) == a as nat
  {
    assert Ones(4) == 15 && Ones(8) == 255;
    AndOnes(a as nat, 8);
  }

  /** The mask 240 keeps the high half of an octet. */
  lemma And240(a: Byte)
    ensures And(a as nat, 240) == a as nat / 16 * 16
  {
    assert Ones(4) == 15;
    AndSixteenth(a as nat, Ones(4));
    AndOnes(a as nat / 16, 4);
  }

  /** The last two octets under a mask of zeros say nothing. */
  lemma CoversTwo(s: Subtree, a: Byte, b: Byte, mask: Byte, q: Quad)
    requires s == Ip(Quad(a, b, 0, 0), Quad(255, mask, 0, 0))
    ensures Covers(s, q) <==> q.a == a && And(q.b as nat, mask as nat) == And(b as nat, mask as nat)
  {
    And255(q.a);
    And255(a);
  }

  lemma FirstOctet(s: Subtree, base: Byte, q: Quad)
    requires s == Ip(Quad(base, 0, 0, 0), Quad(255, 0, 0, 0))
    ensures Covers(s, q) <==> q.a == base
  {
    CoversTwo(s, base, 0, 0, q);
  }

  lemma TwelveBits(s: Subtree, q: Quad)
    requires s == Ip(Quad(172, 16, 0, 0), Quad(255, 240, 0, 0))
    ensures Covers(s, q) <==> q.a == 172 && 16 <= q.b <= 31
  {
    CoversTwo(s, 172, 16, 240, q);
    And240(q.b);
    And240(16);
  }

  lemma TwoOctets(s: Subtree, a: Byte, b: Byte, q: Quad)
    requires s == Ip(Quad(a, b, 0, 0), Quad(255, 255, 0, 0))
    ensures Covers(s, q) <==> q.a == a && q.b == b
  {
    CoversTwo(s, a, b, 255, q);
    And255(q.b);
    And255(b);
  }

  ghost predicate Permitted(q: Quad) {
    exists i :: 0 <= i < |PERMITTED_SUBTREES| && Covers(PERMITTED_SUBTREES[i], q)
  }

  lemma OneOfSix(p: Subtree -> bool, s: seq<Subtree>)
    requires |s| == 6
    ensures (exists i :: 0 <= i < |s| && p(s[i])) <==> p(s[0]) || p(s[1]) || p(s[2]) || p(s[3]) || p(s[4]) || p(s[5])
  {
  }

  /** The private quads are exactly those that some permitted subtree covers. */
  lemma PrivateIffPermitted(q: Quad)
    ensures Private(q) <==> Permitted(q)
  {
    var s, covers := PERMITTED_SUBTREES, (s: Subtree) => Covers(s, q);
    FirstOctet(s[2], 127, q);
    FirstOctet(s[3], 10, q);
    TwelveBits(s[4], q);
    TwoOctets(s[5], 192, 168, q);
    OneOfSix(covers, s);
    assert Permitted(q) <==> exists i :: 0 <= i < |s| && covers(s[i]);
  }

  /** The text is that of n, in at most `most` digits. */
  ghost predicate Spells(p: string, n: nat, most: nat) {
    1 <= |p| <= most && AllDigits(p) && NumberOf(p) == n
  }

  lemma OneDigit(d: nat)
    requires d < 10
    ensures Spells(Decimal(d), d, 1)
  {
    assert Decimal(d)[..0] == "";
  }

  lemma OneMoreDigit(n: nat, most: nat)
    requires n >= 10 && Spells(Decimal(n / 10), n / 10, most)
    ensures Spells(Decimal(n), n, most + 1)
  {
    var p := Decimal(n / 10);
    assert Decimal(n)[..|p|] == p;
  }

  lemma DecimalReadBack(n: nat)
    requires n < 1000
    ensures Spells(Decimal(n), n, 3) && Digits(Decimal(n)) && '.' !in Decimal(n)
  {
    if n < 10 {
      OneDigit(n);
    } else if n < 100 {
      OneDigit(n / 10);
      OneMoreDigit(n, 1);
    } else {
      OneDigit(n / 100);
      assert n / 10 / 10 == n / 100;
      OneMoreDigit(n / 10, 1);
      OneMoreDigit(n, 2);
    }
  }

  lemma CanonicalReadBack(q: Quad)
    ensures ParseQuad(Canonical(q)) == Some(q)
  {
    DecimalReadBack(q.a as nat);
    DecimalReadBack(q.b as nat);
    DecimalReadBack(q.c as nat);
    DecimalReadBack(q.d as nat);
    SplitOfJoin([Decimal(q.a as nat), Decimal(q.b as nat), Decimal(q.c as nat), Decimal(q.d as nat)]);
  }

  /** The octets of a quad, in order. */
  function OctetOf(q: Quad, i: nat): nat
    requires i < 4
  {
    if i == 0 then q.a as nat else if i == 1 then q.b as nat else if i == 2 then q.c as nat else q.d as nat
  }

  /** Four texts of one to three digits for the octets of the quad, leading zeros allowed, with dots between them. */
  ghost predicate WritesQuad(parts: seq<string>, ip: string, q: Quad) {
    |parts| == 4 && ip == Join(parts) && forall i :: 0 <= i < 4 ==> Spells(parts[i], OctetOf(q, i), 3)
  }

  lemma NoDotInDigits(p: string)
    requires AllDigits(p)
    ensures '.' !in p
  {
  }

  /** A text is read as a quad exactly when it writes it. */
  lemma ReadIffWritten(ip: string, q: Quad)
    ensures ParseQuad(ip) == Some(q) <==> exists parts :: WritesQuad(parts, ip, q)
  {
    if ParseQuad(ip) == Some(q) {
      JoinOfSplit(ip);
      assert WritesQuad(Split(ip), ip, q);
    }
    if parts :| WritesQuad(parts, ip, q) {
      assert forall i :: 0 <= i < 4 ==> Spells(parts[i], OctetOf(q, i), 3);
      forall p | p in parts ensures '.' !in p { NoDotInDigits(p); }
      SplitOfJoin(parts);
      assert Spells(parts[0], OctetOf(q, 0), 3) && Spells(parts[1], OctetOf(q, 1), 3);
      assert Spells(parts[2], OctetOf(q, 2), 3) && Spells(parts[3], OctetOf(q, 3), 3);
    }
  }

  /**
   * A text is accepted exactly when it is a dotted quad that the name constraints permit, and what is returned stands
   * for the same quad and is returned unchanged when asked again.
   */
  lemma PrivateIpv4IffPermitted(ip: string)
    ensures PrivateIpv4(ip).Some? <==>
            ParseQuad(ip).Some? && Permitted(ParseQuad(ip).value)
    ensures PrivateIpv4(ip).Some? ==>
            var canonical := PrivateIpv4(ip).value;
            ParseQuad(canonical) == ParseQuad(ip) && PrivateIpv4(canonical) == Some(canonical)
  {
    if ParseQuad(ip).Some? {
      PrivateIffPermitted(ParseQuad(ip).value);
      CanonicalReadBack(ParseQuad(ip).value);
    }
  }
}
