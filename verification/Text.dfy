/** Splitting, joining and decimal numerals, as Go's strings and strconv packages do them. */
module Text {
  import opened Prelude

  /** The first position of c, or |s| when there is none. */
  function Index(s: string, c: char): (i: nat)
    ensures i <= |s| && c !in s[..i]
    ensures i < |s| ==> s[i] == c
    ensures c in s <==> i < |s|
  {
    if s == "" then 0 else if s[0] == c then 0 else 1 + Index(s[1..], c)
  }

  /** strings.Split with a one-character separator. */
  function Split(s: string, sep: char): (parts: seq<string>)
    ensures |parts| > 0
    decreases |s|
  {
    var i := Index(s, sep);
    if i == |s| then [s] else [s[..i]] + Split(s[i + 1..], sep)
  }

  /** strings.SplitN: at most n parts, the last one unsplit. */
  function SplitN(s: string, sep: char, n: nat): (parts: seq<string>)
    requires n > 0
    ensures 0 < |parts| <= n
  {
    var i := Index(s, sep);
    if n == 1 || i == |s| then [s] else [s[..i]] + SplitN(s[i + 1..], sep, n - 1)
  }

  function Join(parts: seq<string>, sep: char): string
    requires |parts| > 0
  {
    if |parts| == 1 then parts[0] else parts[0] + [sep] + Join(parts[1..], sep)
  }

  lemma IndexAfter(part: string, sep: char, tail: string)
    requires sep !in part
    ensures Index(part + [sep] + tail, sep) == |part|
  {
    var s := part + [sep] + tail;
    assert s[|part|] == sep;
  }

  lemma SplitHead(part: string, sep: char, tail: string)
    requires sep !in part
    ensures Split(part + [sep] + tail, sep) == [part] + Split(tail, sep)
  {
    IndexAfter(part, sep, tail);
    var s := part + [sep] + tail;
    assert s[..|part|] == part && s[|part| + 1..] == tail;
  }

  lemma SplitNHead(part: string, sep: char, tail: string, n: nat)
    requires sep !in part && n > 1
    ensures SplitN(part + [sep] + tail, sep, n) == [part] + SplitN(tail, sep, n - 1)
  {
    IndexAfter(part, sep, tail);
    var s := part + [sep] + tail;
    assert s[..|part|] == part && s[|part| + 1..] == tail;
  }

  lemma JoinHead(part: string, parts: seq<string>, sep: char)
    requires |parts| > 0
    ensures Join([part] + parts, sep) == part + [sep] + Join(parts, sep)
  {
    assert ([part] + parts)[1..] == parts;
  }

  lemma {:induction false} SplitOfJoin(parts: seq<string>, sep: char)
    requires |parts| > 0 && forall i | 0 <= i < |parts| :: sep !in parts[i]
    ensures Split(Join(parts, sep), sep) == parts
  {
    if |parts| == 1 {
      assert Index(parts[0], sep) == |parts[0]|;
    } else {
      SplitOfJoin(parts[1..], sep);
      SplitHead(parts[0], sep, Join(parts[1..], sep));
      assert parts == [parts[0]] + parts[1..];
    }
  }

  lemma CutAt(s: string, i: nat)
    requires i < |s|
    ensures s == s[..i] + [s[i]] + s[i + 1..]
  {
  }

  lemma {:induction false} JoinOfSplit(s: string, sep: char)
    ensures Join(Split(s, sep), sep) == s
    decreases |s|
  {
    var i := Index(s, sep);
    if i < |s| {
      CutAt(s, i);
      JoinOfSplit(s[i + 1..], sep);
      JoinHead(s[..i], Split(s[i + 1..], sep), sep);
    }
  }

  lemma {:induction false} SplitHasNoSeparator(s: string, sep: char)
    ensures forall i | 0 <= i < |Split(s, sep)| :: sep !in Split(s, sep)[i]
    decreases |s|
  {
    var i := Index(s, sep);
    if i < |s| {
      SplitHasNoSeparator(s[i + 1..], sep);
      assert Split(s, sep) == [s[..i]] + Split(s[i + 1..], sep);
    }
  }

  lemma {:induction false} JoinOfSplitN(s: string, sep: char, n: nat)
    requires n > 0
    ensures Join(SplitN(s, sep, n), sep) == s
  {
    var i := Index(s, sep);
    if n > 1 && i < |s| {
      CutAt(s, i);
      JoinOfSplitN(s[i + 1..], sep, n - 1);
      JoinHead(s[..i], SplitN(s[i + 1..], sep, n - 1), sep);
    }
  }

  // ----- Decimal numerals -----

  predicate IsDigit(c: char) {
    '0' <= c <= '9'
  }

  function DigitValue(c: char): nat
    requires IsDigit(c)
  {
    c as int - '0' as int
  }

  function Digit(d: nat): (c: char)
    requires d < 10
    ensures IsDigit(c) && DigitValue(c) == d
  {
    ('0' as int + d) as char
  }

  predicate IsNumeral(s: string) {
    s != "" && forall i | 0 <= i < |s| :: IsDigit(s[i])
  }

  function NumeralValue(s: string): nat
    requires forall i | 0 <= i < |s| :: IsDigit(s[i])
  {
    if s == "" then 0 else 10 * NumeralValue(s[..|s| - 1]) + DigitValue(s[|s| - 1])
  }

  /** strconv.ParseUint in base 10 below a limit: digits only, leading zeros allowed, no sign. */
  function ParseUint(s: string, limit: nat): (r: Option<nat>)
    ensures r.Some? ==> r.value < limit
  {
    if IsNumeral(s) && NumeralValue(s) < limit then Some(NumeralValue(s)) else None
  }

  /** The %d rendering. */
  function Decimal(n: nat): (s: string)
    ensures IsNumeral(s)
  {
    if n < 10 then [Digit(n)] else Decimal(n / 10) + [Digit(n % 10)]
  }

  lemma {:induction false} DecimalValue(n: nat)
    ensures NumeralValue(Decimal(n)) == n
  {
    if n >= 10 {
      DecimalValue(n / 10);
      assert Decimal(n)[..|Decimal(n)| - 1] == Decimal(n / 10);
    }
  }

  lemma ParseUintOfDecimal(n: nat, limit: nat)
    requires n < limit
    ensures ParseUint(Decimal(n), limit) == Some(n)
  {
    DecimalValue(n);
  }

  lemma NumeralHasNo(s: string, c: char)
    requires IsNumeral(s) && !IsDigit(c)
    ensures c !in s
  {
  }

  // ----- ASCII case -----

  function LowerChar(c: char): char {
    if 'A' <= c <= 'Z' then (c as int + 32) as char else c
  }

  function ToLower(s: string): (r: string)
    ensures |r| == |s|
    ensures forall i | 0 <= i < |s| :: r[i] == LowerChar(s[i])
  {
    seq(|s|, i requires 0 <= i < |s| => LowerChar(s[i]))
  }

  lemma ToLowerIdempotent(s: string)
    ensures ToLower(ToLower(s)) == ToLower(s)
  {
  }
}
