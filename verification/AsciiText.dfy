/** Text between dots, and text as bytes. */
module AsciiText {
  import opened Bytes

  /** The pieces of s between dots, empty ones included. */
  function Split(s: string): (parts: seq<string>)
    ensures parts != []
  {
    if s == "" then [""]
    else
      var rest := Split(s[1..]);
      if s[0] == '.' then [""] + rest else [[s[0]] + rest[0]] + rest[1..]
  }

  function Join(parts: seq<string>): string {
    if parts == [] then ""
    else if |parts| == 1 then parts[0]
    else parts[0] + "." + Join(parts[1..])
  }

  function Decimal(n: nat): string {
    if n < 10 then [('0' as int + n) as char] else Decimal(n / 10) + [('0' as int + n % 10) as char]
  }

  /** Four octets as text. */
  function Dotted(a: Byte, b: Byte, c: Byte, d: Byte): string {
    Join([Decimal(a as nat), Decimal(b as nat), Decimal(c as nat), Decimal(d as nat)])
  }

  predicate Ascii(s: string) { forall c :: c in s ==> c as int < 128 }

  /** What Buffer.from(part, 'ascii') makes of a string: the low byte of each character. */
  function AsciiBytes(s: string): (r: seq<Byte>)
    ensures |r| == |s|
  {
    if s == "" then [] else [(s[0] as int % 256) as Byte] + AsciiBytes(s[1..])
  }

  function Chars(bytes: seq<Byte>): (s: string)
    ensures |s| == |bytes|
  {
    if bytes == [] then "" else [bytes[0] as char] + Chars(bytes[1..])
  }

  lemma CharsFrom(head: Byte, tail: seq<Byte>)
    ensures Chars([head] + tail) == [head as char] + Chars(tail)
  {
    assert ([head] + tail)[1..] == tail;
  }

  lemma {:induction false} CharsOfAscii(s: string)
    requires Ascii(s)
    ensures Chars(AsciiBytes(s)) == s && forall b :: b in AsciiBytes(s) ==> b < 128
  {
    if s != "" {
      var first, rest := s[0], s[1..];
      assert first in s && forall c :: c in rest ==> c in s;
      CharsOfAscii(rest);
      OneAscii(first, rest);
      assert s == [first] + rest;
    }
  }

  lemma OneAscii(c: char, rest: string)
    requires c as int < 128
    ensures Chars(AsciiBytes([c] + rest)) == [c] + Chars(AsciiBytes(rest))
    ensures forall b :: b in AsciiBytes([c] + rest) <==> b == (c as int) as Byte || b in AsciiBytes(rest)
  {
    var head := (c as int % 256) as Byte;
    assert ([c] + rest)[1..] == rest && head as char == c;
    CharsFrom(head, AsciiBytes(rest));
  }

  lemma {:induction false} SplitKeepsAscii(s: string)
    requires Ascii(s)
    ensures forall p :: p in Split(s) ==> Ascii(p)
  {
    if s != "" {
      assert s[0] in s;
      assert forall c :: c in s[1..] ==> c in s;
      SplitKeepsAscii(s[1..]);
      assert Split(s[1..])[0] in Split(s[1..]);
    }
  }

  lemma {:induction false} JoinOfSplit(s: string)
    ensures Join(Split(s)) == s
  {
    if s != "" {
      JoinOfSplit(s[1..]);
      var rest := Split(s[1..]);
      if s[0] == '.' {
        assert Split(s)[1..] == rest;
        assert "" + "." + s[1..] == s;
      } else if |rest| > 1 {
        assert Split(s)[1..] == rest[1..];
        assert [s[0]] + rest[0] + "." + Join(rest[1..]) == [s[0]] + Join(rest) == s;
      }
    }
  }

  lemma {:induction false} SplitAtDot(p: string, t: string)
    requires '.' !in p
    ensures Split(p) == [p] && Split(p + "." + t) == [p] + Split(t)
  {
    if p == "" {
      assert "" + "." + t == "." + t && ("." + t)[1..] == t;
    } else {
      assert p == [p[0]] + p[1..];
      SplitAtDot(p[1..], t);
      assert (p + "." + t)[1..] == p[1..] + "." + t;
    }
  }

  /** Pieces without dots come back from their joined text. */
  lemma {:induction false} SplitOfJoin(parts: seq<string>)
    requires parts != [] && forall p :: p in parts ==> '.' !in p
    ensures Split(Join(parts)) == parts
  {
    assert parts[0] in parts;
    if |parts| == 1 {
      SplitAtDot(parts[0], "");
    } else {
      SplitOfJoin(parts[1..]);
      SplitAtDot(parts[0], Join(parts[1..]));
    }
  }
}
