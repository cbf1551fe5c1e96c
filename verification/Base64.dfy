/** Standard base64 with padding (section 4 of RFC 4648), as Go's base64.StdEncoding reads and writes it. */
module Base64 {
  import opened Prelude
  import opened Text

  type sextet = n: int | 0 <= n < 64

  function Symbol(n: sextet): char {
    if n < 26 then ('A' as int + n) as char
    else if n < 52 then ('a' as int + (n - 26)) as char
    else if n < 62 then ('0' as int + (n - 52)) as char
    else if n == 62 then '+'
    else '/'
  }

  function Value(c: char): Option<sextet> {
    if 'A' <= c <= 'Z' then Some(c as int - 'A' as int)
    else if 'a' <= c <= 'z' then Some(c as int - 'a' as int + 26)
    else if '0' <= c <= '9' then Some(c as int - '0' as int + 52)
    else if c == '+' then Some(62)
    else if c == '/' then Some(63)
    else None
  }

  lemma ValueOfSymbol(n: sextet)
    ensures Value(Symbol(n)) == Some(n)
  {
  }

  function Encode(bytes: Bytes): string {
    if bytes == [] then ""
    else if |bytes| == 1 then
      [Symbol(bytes[0] / 4), Symbol(bytes[0] % 4 * 16), '=', '=']
    else if |bytes| == 2 then
      [Symbol(bytes[0] / 4), Symbol(bytes[0] % 4 * 16 + bytes[1] / 16), Symbol(bytes[1] % 16 * 4), '=']
    else
      Quantum(bytes[0], bytes[1], bytes[2]) + Encode(bytes[3..])
  }

  function Quantum(x: byte, y: byte, z: byte): string {
    [Symbol(x / 4), Symbol(x % 4 * 16 + y / 16), Symbol(y % 16 * 4 + z / 64), Symbol(z % 64)]
  }

  /** The decoder skips line breaks wherever they stand. */
  function WithoutBreaks(s: string): string {
    if s == "" then ""
    else (if s[0] == '\n' || s[0] == '\r' then "" else [s[0]]) + WithoutBreaks(s[1..])
  }

  function Decode(s: string): Option<Bytes> {
    DecodeQuanta(WithoutBreaks(s))
  }

  /** Four symbols at a time; padding ends the input, and the bits it leaves over are not looked at. */
  function DecodeQuanta(s: string): Option<Bytes> {
    if s == "" then Some([])
    else if |s| < 4 || Value(s[0]).None? || Value(s[1]).None? then None
    else if s[3] == '=' then
      if |s| > 4 then None
      else if s[2] == '=' then Some([High(Value(s[0]).value, Value(s[1]).value)])
      else if Value(s[2]).None? then None
      else Some([High(Value(s[0]).value, Value(s[1]).value), Middle(Value(s[1]).value, Value(s[2]).value)])
    else if Value(s[2]).None? || Value(s[3]).None? then None
    else
      var rest := DecodeQuanta(s[4..]);
      if rest.None? then None
      else Some(Triple(Value(s[0]).value, Value(s[1]).value, Value(s[2]).value, Value(s[3]).value) + rest.value)
  }

  function High(a: sextet, b: sextet): byte {
    a * 4 + b / 16
  }

  function Middle(b: sextet, c: sextet): byte {
    b % 16 * 16 + c / 4
  }

  function Triple(a: sextet, b: sextet, c: sextet, d: sextet): Bytes {
    [High(a, b), Middle(b, c), c % 4 * 64 + d]
  }

  lemma Digits(base: nat, p: nat, q: nat)
    requires base in {4, 16, 64} && q < base
    ensures (p * base + q) / base == p && (p * base + q) % base == q
  {
  }

  lemma TripleOfQuantum(x: byte, y: byte, z: byte)
    ensures Triple(x / 4, x % 4 * 16 + y / 16, y % 16 * 4 + z / 64, z % 64) == [x, y, z]
  {
    Digits(16, x % 4, y / 16);
    Digits(4, y % 16, z / 64);
  }

  predicate IsSymbol(c: char) {
    Value(c).Some? || c == '='
  }

  lemma {:induction false} EncodeIsSymbols(bytes: Bytes)
    ensures forall i | 0 <= i < |Encode(bytes)| :: IsSymbol(Encode(bytes)[i])
  {
    forall n: sextet ensures Value(Symbol(n)).Some? {
      ValueOfSymbol(n);
    }
    if |bytes| > 2 {
      EncodeIsSymbols(bytes[3..]);
    }
  }

  lemma {:induction false} WithoutBreaksOfUnbroken(s: string)
    requires '\n' !in s && '\r' !in s
    ensures WithoutBreaks(s) == s
  {
    if s != "" {
      WithoutBreaksOfUnbroken(s[1..]);
    }
  }

  lemma EncodeHasNo(bytes: Bytes, c: char)
    requires !IsSymbol(c)
    ensures c !in Encode(bytes)
  {
    EncodeIsSymbols(bytes);
  }

  lemma DecodeFour(s: string, a: sextet, b: sextet, c: sextet, d: sextet)
    requires |s| >= 4 && Value(s[0]) == Some(a) && Value(s[1]) == Some(b) && Value(s[2]) == Some(c) && Value(s[3]) == Some(d)
    ensures DecodeQuanta(s) == if DecodeQuanta(s[4..]).None? then None else Some(Triple(a, b, c, d) + DecodeQuanta(s[4..]).value)
  {
  }

  lemma DecodeQuantum(x: byte, y: byte, z: byte, rest: string)
    ensures DecodeQuanta(Quantum(x, y, z) + rest)
         == if DecodeQuanta(rest).None? then None else Some([x, y, z] + DecodeQuanta(rest).value)
  {
    var a: sextet, b: sextet, c: sextet, d: sextet := x / 4, x % 4 * 16 + y / 16, y % 16 * 4 + z / 64, z % 64;
    var s := [Symbol(a), Symbol(b), Symbol(c), Symbol(d)] + rest;
    assert s[4..] == rest;
    ValueOfSymbol(a);
    ValueOfSymbol(b);
    ValueOfSymbol(c);
    ValueOfSymbol(d);
    DecodeFour(s, a, b, c, d);
    TripleOfQuantum(x, y, z);
  }

  lemma DecodeOne(x: byte)
    ensures DecodeQuanta(Encode([x])) == Some([x])
  {
    ValueOfSymbol(x / 4);
    ValueOfSymbol(x % 4 * 16);
    assert High(x / 4, x % 4 * 16) == x;
  }

  lemma DecodeTwo(x: byte, y: byte)
    ensures DecodeQuanta(Encode([x, y])) == Some([x, y])
  {
    ValueOfSymbol(x / 4);
    ValueOfSymbol(x % 4 * 16 + y / 16);
    ValueOfSymbol(y % 16 * 4);
    assert High(x / 4, x % 4 * 16 + y / 16) == x && Middle(x % 4 * 16 + y / 16, y % 16 * 4) == y;
  }

  lemma {:induction false} DecodeQuantaOfEncode(bytes: Bytes)
    ensures DecodeQuanta(Encode(bytes)) == Some(bytes)
  {
    if |bytes| > 2 {
      DecodeQuantaOfEncode(bytes[3..]);
      DecodeQuantum(bytes[0], bytes[1], bytes[2], Encode(bytes[3..]));
      assert bytes == bytes[..3] + bytes[3..] && bytes[..3] == [bytes[0], bytes[1], bytes[2]];
    } else if |bytes| == 2 {
      assert bytes == [bytes[0], bytes[1]];
      DecodeTwo(bytes[0], bytes[1]);
    } else if |bytes| == 1 {
      assert bytes == [bytes[0]];
      DecodeOne(bytes[0]);
    }
  }

  /** Every byte sequence survives encoding and decoding. */
  lemma RoundTrip(bytes: Bytes)
    ensures Decode(Encode(bytes)) == Some(bytes)
  {
    EncodeHasNo(bytes, '\n');
    EncodeHasNo(bytes, '\r');
    WithoutBreaksOfUnbroken(Encode(bytes));
    DecodeQuantaOfEncode(bytes);
  }

  // ----- The alphabet and the order of the bits -----

  /** The ASCII codes of the alphabet (table 1 of RFC 4648). */
  lemma SymbolCode(n: sextet)
    ensures Symbol(n) as int
         == if n < 26 then 0x41 + n else if n < 52 then 0x61 + n - 26 else if n < 62 then 0x30 + n - 52 else if n == 62 then 0x2B else 0x2F
  {
  }

  lemma SymbolOfValue(c: char)
    requires Value(c).Some?
    ensures Symbol(Value(c).value) == c && c != '='
  {
  }

  /** Four symbols spell three bytes as one number, the most significant bits first. */
  lemma QuantumIsBigEndian(x: byte, y: byte, z: byte, a: sextet, b: sextet, c: sextet, d: sextet)
    ensures Quantum(x, y, z) == [Symbol(a), Symbol(b), Symbol(c), Symbol(d)]
       <==> ((x * 256 + y) * 256 + z) == ((a * 64 + b) * 64 + c) * 64 + d
  {
    SymbolsDiffer(x / 4, a);
    SymbolsDiffer(x % 4 * 16 + y / 16, b);
    SymbolsDiffer(y % 16 * 4 + z / 64, c);
    SymbolsDiffer(z % 64, d);
    var e, f, g, h: sextet := x / 4, x % 4 * 16 + y / 16, y % 16 * 4 + z / 64, z % 64;
    assert (x * 256 + y) * 256 + z == ((e * 64 + f) * 64 + g) * 64 + h;
  }

  lemma SymbolsDiffer(a: sextet, b: sextet)
    ensures Symbol(a) == Symbol(b) <==> a == b
  {
    ValueOfSymbol(a);
    ValueOfSymbol(b);
  }

  // ----- Exactly what decodes -----

  /** An encoding of these bytes, line breaks removed, in which the bits that the padding leaves over may be anything. */
  predicate Spells(t: string, bytes: Bytes) {
    if bytes == [] then t == ""
    else if |bytes| == 1 then
      && |t| == 4 && t[2] == '=' && t[3] == '='
      && Value(t[0]) == Some(bytes[0] / 4) && Value(t[1]).Some? && Value(t[1]).value / 16 == bytes[0] % 4
    else if |bytes| == 2 then
      && |t| == 4 && t[3] == '='
      && Value(t[0]) == Some(bytes[0] / 4) && Value(t[1]) == Some(bytes[0] % 4 * 16 + bytes[1] / 16)
      && Value(t[2]).Some? && Value(t[2]).value / 4 == bytes[1] % 16
    else
      |t| >= 4 && t[..4] == Quantum(bytes[0], bytes[1], bytes[2]) && Spells(t[4..], bytes[3..])
  }

  lemma Regrouped(a: sextet, b: sextet, c: sextet, d: sextet)
    ensures High(a, b) / 4 == a && High(a, b) % 4 * 16 + Middle(b, c) / 16 == b
    ensures Middle(b, c) % 16 * 4 + (c % 4 * 64 + d) / 64 == c && (c % 4 * 64 + d) % 64 == d
  {
    Digits(4, a, b / 16);
    Digits(16, b % 16, c / 4);
    Digits(64, c % 4, d);
  }

  lemma QuantumOfTriple(a: sextet, b: sextet, c: sextet, d: sextet)
    ensures Quantum(High(a, b), Middle(b, c), c % 4 * 64 + d) == [Symbol(a), Symbol(b), Symbol(c), Symbol(d)]
  {
    Regrouped(a, b, c, d);
  }

  lemma PaddedSpells(t: string, bytes: Bytes)
    requires DecodeQuanta(t) == Some(bytes) && t != "" && t[3] == '='
    ensures Spells(t, bytes)
  {
    var a, b := Value(t[0]).value, Value(t[1]).value;
    Digits(4, a, b / 16);
    if t[2] == '=' {
      assert bytes == [High(a, b)];
    } else {
      var c := Value(t[2]).value;
      Digits(16, b % 16, c / 4);
      assert bytes == [High(a, b), Middle(b, c)] && b / 16 * 16 + b % 16 == b;
    }
  }

  lemma QuantumSpells(t: string, bytes: Bytes, rest: Bytes)
    requires DecodeQuanta(t) == Some(bytes) && t != "" && t[3] != '=' && DecodeQuanta(t[4..]) == Some(rest)
    ensures |bytes| > 2 && bytes[3..] == rest && t[..4] == Quantum(bytes[0], bytes[1], bytes[2])
  {
    var a, b, c, d := Value(t[0]).value, Value(t[1]).value, Value(t[2]).value, Value(t[3]).value;
    QuantumOfTriple(a, b, c, d);
    SymbolOfValue(t[0]);
    SymbolOfValue(t[1]);
    SymbolOfValue(t[2]);
    SymbolOfValue(t[3]);
    assert bytes == Triple(a, b, c, d) + rest;
    assert t[..4] == [t[0], t[1], t[2], t[3]];
  }

  lemma {:induction false} DecodedSpells(t: string, bytes: Bytes)
    requires DecodeQuanta(t) == Some(bytes)
    ensures Spells(t, bytes)
  {
    if t != "" {
      if t[3] == '=' {
        PaddedSpells(t, bytes);
      } else {
        var rest := DecodeQuanta(t[4..]).value;
        QuantumSpells(t, bytes, rest);
        DecodedSpells(t[4..], rest);
      }
    }
  }

  lemma SpelledOne(t: string, x: byte)
    requires Spells(t, [x])
    ensures DecodeQuanta(t) == Some([x])
  {
    Digits(4, x / 4, x % 4);
  }

  lemma SpelledTwo(t: string, x: byte, y: byte)
    requires Spells(t, [x, y])
    ensures DecodeQuanta(t) == Some([x, y])
  {
    var b: sextet := x % 4 * 16 + y / 16;
    Digits(16, x % 4, y / 16);
    assert High(x / 4, b) == x && Value(t[2]).value / 4 == y % 16;
    assert Middle(b, Value(t[2]).value) == y / 16 * 16 + y % 16;
  }

  lemma {:induction false} SpelledDecodes(t: string, bytes: Bytes)
    requires Spells(t, bytes)
    ensures DecodeQuanta(t) == Some(bytes)
  {
    if |bytes| > 2 {
      SpelledDecodes(t[4..], bytes[3..]);
      DecodeQuantum(bytes[0], bytes[1], bytes[2], t[4..]);
      assert t == t[..4] + t[4..];
      assert bytes == [bytes[0], bytes[1], bytes[2]] + bytes[3..];
    } else if |bytes| == 2 {
      assert bytes == [bytes[0], bytes[1]];
      SpelledTwo(t, bytes[0], bytes[1]);
    } else if |bytes| == 1 {
      assert bytes == [bytes[0]];
      SpelledOne(t, bytes[0]);
    }
  }

  /** A text decodes exactly when, line breaks apart, it spells bytes, and to these. */
  lemma DecodeIff(s: string, bytes: Bytes)
    ensures Decode(s) == Some(bytes) <==> Spells(WithoutBreaks(s), bytes)
  {
    if Decode(s) == Some(bytes) {
      DecodedSpells(WithoutBreaks(s), bytes);
    }
    if Spells(WithoutBreaks(s), bytes) {
      SpelledDecodes(WithoutBreaks(s), bytes);
    }
  }

  /** Line breaks make no difference wherever they stand. */
  lemma {:induction false} BreaksAreSkipped(a: string, b: string, c: char)
    requires c == '\n' || c == '\r'
    ensures WithoutBreaks(a + [c] + b) == WithoutBreaks(a + b)
    ensures Decode(a + [c] + b) == Decode(a + b)
  {
    if a == "" {
      assert (a + [c] + b)[1..] == b && a + b == b;
    } else {
      BreaksAreSkipped(a[1..], b, c);
      assert (a + [c] + b)[1..] == a[1..] + [c] + b && (a + b)[1..] == a[1..] + b;
    }
  }
}
