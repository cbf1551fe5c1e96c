/**
 The text check of a checkpoint note: valid UTF-8 (RFC 3629) without control characters other than newline.
 A Go string is modelled as a string with one character per byte.
 */
module NoteText {
  import opened Prelude

  predicate Tail(c: char, lo: int, hi: int) {
    lo <= c as int <= hi
  }

  /** The range of the second byte after a leading byte. */
  function SecondByte(c: char): (int, int) {
    if c as int == 0xE0 then (0xA0, 0xBF)
    else if c as int == 0xED then (0x80, 0x9F)
    else if c as int == 0xF0 then (0x90, 0xBF)
    else if c as int == 0xF4 then (0x80, 0x8F)
    else (0x80, 0xBF)
  }

  function SequenceLength(c: char): nat {
    var b := c as int;
    if b < 0x80 then 1
    else if 0xC2 <= b <= 0xDF then 2
    else if 0xE0 <= b <= 0xEF then 3
    else if 0xF0 <= b <= 0xF4 then 4
    else 0
  }

  /** The size of the rune a string starts with; 0 when it starts with none. */
  function RuneSize(s: string): (n: nat)
    ensures n <= |s|
  {
    if s == "" then 0
    else
      var n, (lo, hi) := SequenceLength(s[0]), SecondByte(s[0]);
      if n == 0 || |s| < n then 0
      else if n > 1 && !Tail(s[1], lo, hi) then 0
      else if n > 2 && !Tail(s[2], 0x80, 0xBF) then 0
      else if n > 3 && !Tail(s[3], 0x80, 0xBF) then 0
      else n
  }

  predicate IsControl(c: char) {
    c < ' ' && c != '\n'
  }

  predicate ValidText(s: string) {
    s == "" || (RuneSize(s) > 0 && !IsControl(s[0]) && ValidText(s[RuneSize(s)..]))
  }

  method ValidateNoteText(note: string) returns (ok: bool)
    ensures ok == ValidText(note)
  {
    var i := 0;
    assert note[0..] == note;
    while i < |note|
      invariant 0 <= i <= |note|
      invariant ValidText(note) == ValidText(note[i..])
    {
      var rest := note[i..];
      var size := RuneSize(rest);
      if size == 0 || IsControl(rest[0]) {
        return false;
      }
      assert rest[size..] == note[i + size..];
      i := i + size;
    }
    return true;
  }

  // ----- What the check means: the text is an encoding of characters that are no controls -----

  predicate IsScalar(c: int) {
    (0 <= c < 0xD800) || (0xE000 <= c < 0x11_0000)
  }

  /** The encoding of one character (section 3 of RFC 3629). */
  function EncodeRune(c: int): (s: string)
    requires IsScalar(c)
    ensures 1 <= |s| <= 4
  {
    if c < 0x80 then [c as char]
    else if c < 0x800 then [(0xC0 + c / 64) as char, (0x80 + c % 64) as char]
    else if c < 0x1_0000 then [(0xE0 + c / 64 / 64) as char, (0x80 + c / 64 % 64) as char, (0x80 + c % 64) as char]
    else
      [(0xF0 + c / 64 / 64 / 64) as char, (0x80 + c / 64 / 64 % 64) as char, (0x80 + c / 64 % 64) as char, (0x80 + c % 64) as char]
  }

  function EncodeAll(cs: seq<int>): string
    requires forall i | 0 <= i < |cs| :: IsScalar(cs[i])
  {
    if cs == [] then "" else EncodeRune(cs[0]) + EncodeAll(cs[1..])
  }

  predicate Printable(c: int) {
    IsScalar(c) && (c >= 0x20 || c == 0x0A)
  }

  ghost predicate AllPrintable(cs: seq<int>) {
    forall i | 0 <= i < |cs| :: Printable(cs[i])
  }

  /** The character a string starts with. */
  function RuneOf(s: string): int
    requires RuneSize(s) > 0
  {
    var b := s[0] as int;
    match RuneSize(s)
    case 1 => b
    case 2 => (b - 0xC0) * 64 + (s[1] as int - 0x80)
    case 3 => ((b - 0xE0) * 64 + (s[1] as int - 0x80)) * 64 + (s[2] as int - 0x80)
    case _ => (((b - 0xF0) * 64 + (s[1] as int - 0x80)) * 64 + (s[2] as int - 0x80)) * 64 + (s[3] as int - 0x80)
  }

  lemma EncodedRuneStarts(c: int, rest: string)
    requires IsScalar(c)
    ensures RuneSize(EncodeRune(c) + rest) == |EncodeRune(c)|
    ensures (EncodeRune(c) + rest)[|EncodeRune(c)|..] == rest
    ensures IsControl((EncodeRune(c) + rest)[0]) <==> !Printable(c)
  {
  }

  lemma SixBits(q: nat, r: nat)
    requires r < 64
    ensures (q * 64 + r) / 64 == q && (q * 64 + r) % 64 == r
  {
  }

  lemma TwoByteRune(s: string)
    requires RuneSize(s) == 2
    ensures IsScalar(RuneOf(s)) && RuneOf(s) >= 0x80 && EncodeRune(RuneOf(s)) == s[..2]
  {
    SixBits(s[0] as int - 0xC0, s[1] as int - 0x80);
  }

  lemma ThreeByteRune(s: string)
    requires RuneSize(s) == 3
    ensures IsScalar(RuneOf(s)) && RuneOf(s) >= 0x80 && EncodeRune(RuneOf(s)) == s[..3]
  {
    var q := (s[0] as int - 0xE0) * 64 + (s[1] as int - 0x80);
    SixBits(s[0] as int - 0xE0, s[1] as int - 0x80);
    SixBits(q, s[2] as int - 0x80);
  }

  lemma FourByteRune(s: string)
    requires RuneSize(s) == 4
    ensures IsScalar(RuneOf(s)) && RuneOf(s) >= 0x80 && EncodeRune(RuneOf(s)) == s[..4]
  {
    var q := (s[0] as int - 0xF0) * 64 + (s[1] as int - 0x80);
    SixBits(s[0] as int - 0xF0, s[1] as int - 0x80);
    SixBits(q, s[2] as int - 0x80);
    SixBits(q * 64 + (s[2] as int - 0x80), s[3] as int - 0x80);
  }

  lemma RuneIsEncoded(s: string)
    requires RuneSize(s) > 0
    ensures IsScalar(RuneOf(s)) && EncodeRune(RuneOf(s)) == s[..RuneSize(s)]
    ensures Printable(RuneOf(s)) <==> !IsControl(s[0])
  {
    var n := RuneSize(s);
    if n == 2 {
      TwoByteRune(s);
    } else if n == 3 {
      ThreeByteRune(s);
    } else if n == 4 {
      FourByteRune(s);
    }
  }

  lemma {:induction false} EncodedIsValid(cs: seq<int>)
    requires AllPrintable(cs)
    ensures ValidText(EncodeAll(cs))
  {
    if cs != [] {
      EncodedIsValid(cs[1..]);
      EncodedRuneStarts(cs[0], EncodeAll(cs[1..]));
    }
  }

  lemma {:induction false} ValidIsEncoded(s: string) returns (cs: seq<int>)
    requires ValidText(s)
    ensures AllPrintable(cs) && EncodeAll(cs) == s
    decreases |s|
  {
    if s == "" {
      cs := [];
    } else {
      var rest := ValidIsEncoded(s[RuneSize(s)..]);
      RuneIsEncoded(s);
      cs := [RuneOf(s)] + rest;
      assert cs[1..] == rest;
      assert s == s[..RuneSize(s)] + s[RuneSize(s)..];
    }
  }

  /** The check passes exactly the UTF-8 encodings of characters that are no controls, newline apart. */
  lemma ValidIffEncoded(s: string)
    ensures ValidText(s) <==> exists cs :: AllPrintable(cs) && EncodeAll(cs) == s
  {
    if ValidText(s) {
      var cs := ValidIsEncoded(s);
    }
    forall cs | AllPrintable(cs) && EncodeAll(cs) == s ensures ValidText(s) {
      EncodedIsValid(cs);
    }
  }

  // ----- Building valid text -----

  lemma RuneSizeOfMore(a: string, b: string)
    requires RuneSize(a) > 0
    ensures RuneSize(a + b) == RuneSize(a)
  {
  }

  lemma {:induction false} ValidConcat(a: string, b: string)
    requires ValidText(a) && ValidText(b)
    ensures ValidText(a + b)
    decreases |a|
  {
    if a == "" {
      assert a + b == b;
    } else {
      RuneSizeOfMore(a, b);
      ValidConcat(a[RuneSize(a)..], b);
      assert (a + b)[RuneSize(a)..] == a[RuneSize(a)..] + b;
    }
  }

  lemma {:induction false} AsciiIsValid(s: string)
    requires forall i | 0 <= i < |s| :: ' ' <= s[i] <= '~' || s[i] == '\n'
    ensures ValidText(s)
  {
    if s != "" {
      assert RuneSize(s) == 1;
      AsciiIsValid(s[1..]);
    }
  }
}
