/**
 The payload framing of media frames: base64, section 4 of RFC 4648, with the padded final quantum.
 Decoding is strict about length, alphabet and padding and, as section 3.5 allows, accepts a final
 quantum whose unused bits are not zero; `Canonical` singles out the payloads where they are.
 */
module Base64 {
  import opened Wrappers
  import opened Mulaw

  const PAD := '='

  function Symbol(v: nat): (c: char)
    requires v < 64
    ensures c != PAD
  {
    if v < 26 then ('A' as int + v) as char
    else if v < 52 then ('a' as int + (v - 26)) as char
    else if v < 62 then ('0' as int + (v - 52)) as char
    else if v == 62 then '+'
    else '/'
  }

  predicate InAlphabet(c: char) {
    'A' <= c <= 'Z' || 'a' <= c <= 'z' || '0' <= c <= '9' || c == '+' || c == '/'
  }

  function Value(c: char): (v: nat)
    requires InAlphabet(c)
    ensures v < 64 && Symbol(v) == c
  {
    if 'A' <= c <= 'Z' then c as int - 'A' as int
    else if 'a' <= c <= 'z' then c as int - 'a' as int + 26
    else if '0' <= c <= '9' then c as int - '0' as int + 52
    else if c == '+' then 62
    else 63
  }

  lemma SymbolValue(v: nat)
    requires v < 64
    ensures InAlphabet(Symbol(v)) && Value(Symbol(v)) == v
  {}

  const UPPER := "ABCDEFGHIJKLMNOPQRSTUVWXYZ"

  const LOWER := "abcdefghijklmnopqrstuvwxyz"

  /** Table 1 of RFC 4648. */
  const ALPHABET := UPPER + LOWER + "0123456789+/"

  lemma UpperAt(v: nat)
    requires v < 26
    ensures UPPER[v] == ('A' as int + v) as char
  {}

  lemma LowerAt(v: nat)
    requires v < 26
    ensures LOWER[v] == ('a' as int + v) as char
  {}

  lemma SymbolIsInTable(v: nat)
    requires v < 64
    ensures Symbol(v) == ALPHABET[v]
  {
    if v < 26 {
      UpperAt(v);
    } else if v < 52 {
      LowerAt(v - 26);
    } else {
      assert ALPHABET[v] == "0123456789+/"[v - 52];
    }
  }

  lemma ValueIsInTable(c: char)
    ensures InAlphabet(c) <==> c in ALPHABET
    ensures InAlphabet(c) ==> ALPHABET[Value(c)] == c
  {
    if InAlphabet(c) {
      SymbolIsInTable(Value(c));
    } else if c in ALPHABET {
      var v :| 0 <= v < 64 && ALPHABET[v] == c;
      SymbolIsInTable(v);
      SymbolValue(v);
    }
  }

  // ---------- Encoding ----------

  /** Symbol `i` of the quantum that carries the first one, two or three octets of `bytes`. */
  function QuantumSymbol(bytes: seq<Byte>, i: nat): char
    requires bytes != [] && i < 4
  {
    if i == 0 then Symbol(bytes[0] / 4)
    else if i == 1 then Symbol(bytes[0] % 4 * 16 + (if |bytes| > 1 then bytes[1] / 16 else 0))
    else if i == 2 then
      if |bytes| > 1 then Symbol(bytes[1] % 16 * 4 + (if |bytes| > 2 then bytes[2] / 64 else 0)) else PAD
    else
      if |bytes| > 2 then Symbol(bytes[2] % 64) else PAD
  }

  function Quantum(bytes: seq<Byte>): (text: string)
    requires bytes != []
    ensures |text| == 4
  {
    seq(4, i requires 0 <= i < 4 => QuantumSymbol(bytes, i))
  }

  function QuantumSize(bytes: seq<Byte>): nat {
    if |bytes| < 3 then |bytes| else 3
  }

  function Encode(bytes: seq<Byte>): string {
    if bytes == [] then "" else Quantum(bytes) + Encode(bytes[QuantumSize(bytes)..])
  }

  /** Three octets and four symbols are the same 24 bits, the most significant first. */
  lemma QuantumBits(bytes: seq<Byte>)
    requires |bytes| >= 3
    ensures forall i :: 0 <= i < 4 ==> InAlphabet(Quantum(bytes)[i])
    ensures bytes[0] as int * 65_536 + bytes[1] as int * 256 + bytes[2] as int ==
            Value(Quantum(bytes)[0]) * 262_144 + Value(Quantum(bytes)[1]) * 4_096
            + Value(Quantum(bytes)[2]) * 64 + Value(Quantum(bytes)[3])
  {
    SymbolValue(bytes[0] / 4);
    SymbolValue(bytes[0] % 4 * 16 + bytes[1] / 16);
    SymbolValue(bytes[1] % 16 * 4 + bytes[2] / 64);
    SymbolValue(bytes[2] % 64);
  }

  // ---------- Decoding ----------

  predicate WellFormed(text: string) {
    && |text| >= 4 && InAlphabet(text[0]) && InAlphabet(text[1])
    && (InAlphabet(text[2]) || (text[2] == PAD && text[3] == PAD))
    && (InAlphabet(text[3]) || text[3] == PAD)
  }

  /** How many octets the leading quantum carries; fewer than three when it is padded. */
  function OctetCount(text: string): (n: nat)
    requires WellFormed(text)
    ensures 1 <= n <= 3
  {
    if text[2] == PAD then 1 else if text[3] == PAD then 2 else 3
  }

  function Octet(text: string, i: nat): Byte
    requires WellFormed(text) && i < OctetCount(text)
  {
    if i == 0 then Value(text[0]) * 4 + Value(text[1]) / 16
    else if i == 1 then Value(text[1]) % 16 * 16 + Value(text[2]) / 4
    else Value(text[2]) % 4 * 64 + Value(text[3])
  }

  function Octets(text: string): (bytes: seq<Byte>)
    requires WellFormed(text)
    ensures |bytes| == OctetCount(text)
  {
    seq(OctetCount(text), i requires 0 <= i < OctetCount(text) => Octet(text, i))
  }

  function Decode(text: string): Option<seq<Byte>> {
    if text == "" then Some([])
    else if !WellFormed(text) || (OctetCount(text) < 3 && |text| > 4) then None
    else
      match Decode(text[4..])
      case None => None
      case Some(rest) => Some(Octets(text) + rest)
  }

  /** The bits of a padded quantum that carry no octet are zero. */
  predicate CanonicalQuantum(text: string)
    requires WellFormed(text)
  {
    && (OctetCount(text) == 1 ==> Value(text[1]) % 16 == 0)
    && (OctetCount(text) == 2 ==> Value(text[2]) % 4 == 0)
  }

  predicate Canonical(text: string) {
    text == "" || (WellFormed(text) && CanonicalQuantum(text) && Canonical(text[4..]))
  }

  // ---------- Round trips ----------

  lemma QuantumValues(bytes: seq<Byte>)
    requires bytes != []
    ensures WellFormed(Quantum(bytes)) && OctetCount(Quantum(bytes)) == QuantumSize(bytes)
    ensures Value(Quantum(bytes)[0]) == bytes[0] / 4
    ensures Value(Quantum(bytes)[1]) == bytes[0] % 4 * 16 + (if |bytes| > 1 then bytes[1] / 16 else 0)
    ensures |bytes| > 1 ==>
      Value(Quantum(bytes)[2]) == bytes[1] % 16 * 4 + (if |bytes| > 2 then bytes[2] / 64 else 0)
    ensures |bytes| > 2 ==> Value(Quantum(bytes)[3]) == bytes[2] % 64
  {
    SymbolValue(bytes[0] / 4);
    SymbolValue(bytes[0] % 4 * 16 + (if |bytes| > 1 then bytes[1] / 16 else 0));
    if |bytes| > 1 {
      SymbolValue(bytes[1] % 16 * 4 + (if |bytes| > 2 then bytes[2] / 64 else 0));
    }
    if |bytes| > 2 {
      SymbolValue(bytes[2] % 64);
    }
  }

  /** The arithmetic of one full quantum, in both directions. */
  lemma Regroup(b0: Byte, b1: Byte, b2: Byte)
    ensures b0 / 4 * 4 + (b0 % 4 * 16 + b1 / 16) / 16 == b0
    ensures (b0 % 4 * 16 + b1 / 16) % 16 * 16 + (b1 % 16 * 4 + b2 / 64) / 4 == b1
    ensures (b1 % 16 * 4 + b2 / 64) % 4 * 64 + b2 % 64 == b2
  {}

  lemma OctetsOfQuantum(bytes: seq<Byte>)
    requires bytes != []
    ensures WellFormed(Quantum(bytes)) && OctetCount(Quantum(bytes)) == QuantumSize(bytes)
    ensures Octets(Quantum(bytes)) == bytes[..QuantumSize(bytes)]
  {
    QuantumValues(bytes);
    var text, n := Quantum(bytes), QuantumSize(bytes);
    var b1: Byte := if n > 1 then bytes[1] else 0;
    var b2: Byte := if n > 2 then bytes[2] else 0;
    Regroup(bytes[0], b1, b2);
    assert Octet(text, 0) == bytes[0];
    assert n > 1 ==> Octet(text, 1) == bytes[1];
    assert n > 2 ==> Octet(text, 2) == bytes[2];
  }

  /** The octets of a text are those of its first four characters. */
  lemma LeadingQuantum(quantum: string, rest: string)
    requires |quantum| == 4 && WellFormed(quantum)
    ensures WellFormed(quantum + rest) && OctetCount(quantum + rest) == OctetCount(quantum)
    ensures Octets(quantum + rest) == Octets(quantum)
  {}

  /** Section 4 round trip: every octet string is recovered from its encoding. */
  lemma {:induction false} DecodeEncode(bytes: seq<Byte>)
    ensures Decode(Encode(bytes)) == Some(bytes)
  {
    if bytes != [] {
      var n, text := QuantumSize(bytes), Encode(bytes);
      OctetsOfQuantum(bytes);
      LeadingQuantum(Quantum(bytes), Encode(bytes[n..]));
      assert text[4..] == Encode(bytes[n..]);
      DecodeEncode(bytes[n..]);
      assert bytes == bytes[..n] + bytes[n..];
    }
  }

  /** The arithmetic of one full quantum read into octets and written again. */
  lemma Rewrite(v0: nat, v1: nat, v2: nat, v3: nat)
    requires v0 < 64 && v1 < 64 && v2 < 64 && v3 < 64
    ensures (v0 * 4 + v1 / 16) / 4 == v0 && (v0 * 4 + v1 / 16) % 4 == v1 / 16
    ensures (v1 % 16 * 16 + v2 / 4) / 16 == v1 % 16 && (v1 % 16 * 16 + v2 / 4) % 16 == v2 / 4
    ensures (v2 % 4 * 64 + v3) / 64 == v2 % 4 && (v2 % 4 * 64 + v3) % 64 == v3
  {}

  /** What the encoder writes for the octets of a quantum: the unused bits are cleared. */
  lemma RewrittenValues(text: string, rest: seq<Byte>)
    requires WellFormed(text) && (OctetCount(text) < 3 ==> rest == [])
    ensures var n := OctetCount(text); var quantum := Quantum(Octets(text) + rest);
      && WellFormed(quantum) && OctetCount(quantum) == n
      && Value(quantum[0]) == Value(text[0])
      && Value(quantum[1]) == (if n == 1 then Value(text[1]) / 16 * 16 else Value(text[1]))
      && (n > 1 ==> Value(quantum[2]) == if n == 2 then Value(text[2]) / 4 * 4 else Value(text[2]))
      && (n > 2 ==> Value(quantum[3]) == Value(text[3]))
  {
    var bytes, n := Octets(text) + rest, OctetCount(text);
    QuantumValues(bytes);
    var v2 := if n > 1 then Value(text[2]) else 0;
    Rewrite(Value(text[0]), Value(text[1]), v2, if n > 2 then Value(text[3]) else 0);
    assert bytes[0] == Octet(text, 0);
    assert n > 1 ==> bytes[1] == Octet(text, 1);
    assert n > 2 ==> bytes[2] == Octet(text, 2);
  }

  lemma SameValue(c: char, d: char)
    requires InAlphabet(c) && InAlphabet(d)
    ensures c == d <==> Value(c) == Value(d)
  {}

  /** A quantum is written back unchanged exactly when it is canonical. */
  lemma QuantumOfOctets(text: string, rest: seq<Byte>)
    requires WellFormed(text) && (OctetCount(text) < 3 ==> rest == [])
    ensures Quantum(Octets(text) + rest) == text[..4] <==> CanonicalQuantum(text)
  {
    var quantum := Quantum(Octets(text) + rest);
    RewrittenValues(text, rest);
    SameQuantum(quantum, text);
    SameValue(quantum[0], text[0]);
    SameValue(quantum[1], text[1]);
    if OctetCount(text) > 1 {
      SameValue(quantum[2], text[2]);
    }
    if OctetCount(text) > 2 {
      SameValue(quantum[3], text[3]);
    }
  }

  lemma SameQuantum(quantum: string, text: string)
    requires |quantum| == 4 <= |text|
    ensures quantum == text[..4] <==>
      quantum[0] == text[0] && quantum[1] == text[1] && quantum[2] == text[2] && quantum[3] == text[3]
  {}

  /** Among the texts that decode, exactly the canonical ones are what the encoder writes back. */
  lemma {:induction false} EncodeDecode(text: string)
    requires Decode(text).Some?
    ensures Canonical(text) <==> Encode(Decode(text).value) == text
  {
    if text != "" {
      var n := OctetCount(text);
      var rest := Decode(text[4..]).value;
      EncodeDecode(text[4..]);
      QuantumOfOctets(text, rest);
      var bytes := Octets(text) + rest;
      assert bytes[n..] == rest;
      assert text == text[..4] + text[4..];
      var written := Encode(bytes);
      assert written[..4] == Quantum(bytes) && written[4..] == Encode(rest);
    }
  }

  /** A text is the encoding of `bytes` exactly when it decodes to them and is canonical. */
  lemma EncodingOf(bytes: seq<Byte>, text: string)
    ensures Encode(bytes) == text <==> Decode(text) == Some(bytes) && Canonical(text)
  {
    DecodeEncode(bytes);
    if Decode(text).Some? {
      EncodeDecode(text);
    }
  }
}
