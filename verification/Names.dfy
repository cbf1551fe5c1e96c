/** models/version.go, models/fqdn.go, verify/cert.go: versions, domain names and ANS names. */
module Names {
  import opened Prelude
  import opened Text

  // ----- Versions -----

  datatype Version = Version(major: uint32, minor: uint32, patch: uint32)

  /** "v1.2.3" or "1.2.3". */
  function ParseVersion(s: string): Option<Version> {
    if s == "" then None else ParseNumbers(Split(if s[0] == 'v' then s[1..] else s, '.'))
  }

  function ParseNumbers(parts: seq<string>): Option<Version> {
    if |parts| != 3 then None
    else
      var major := ParseUint(parts[0], TWO_TO_THE_32);
      var minor := ParseUint(parts[1], TWO_TO_THE_32);
      var patch := ParseUint(parts[2], TWO_TO_THE_32);
      if major.None? || minor.None? || patch.None? then None
      else Some(Version(major.value, minor.value, patch.value))
  }

  function VersionText(v: Version): string {
    "v" + Numbers(v)
  }

  function Numbers(v: Version): string {
    Join([Decimal(v.major), Decimal(v.minor), Decimal(v.patch)], '.')
  }

  lemma NumbersSplit(v: Version)
    ensures Split(Numbers(v), '.') == [Decimal(v.major), Decimal(v.minor), Decimal(v.patch)]
  {
    SplitOfJoin([Decimal(v.major), Decimal(v.minor), Decimal(v.patch)], '.');
  }

  lemma ParseUintOfParts(v: Version)
    ensures ParseUint(Decimal(v.major), TWO_TO_THE_32) == Some(v.major)
    ensures ParseUint(Decimal(v.minor), TWO_TO_THE_32) == Some(v.minor)
    ensures ParseUint(Decimal(v.patch), TWO_TO_THE_32) == Some(v.patch)
  {
    ParseUintOfDecimal(v.major, TWO_TO_THE_32);
    ParseUintOfDecimal(v.minor, TWO_TO_THE_32);
    ParseUintOfDecimal(v.patch, TWO_TO_THE_32);
  }

  /** Every version triple survives printing and parsing. */
  lemma VersionRoundTrip(v: Version)
    ensures ParseVersion(VersionText(v)) == Some(v)
  {
    NumbersSplit(v);
    ParseUintOfParts(v);
    assert VersionText(v)[1..] == Numbers(v);
  }

  lemma JoinThree(a: string, b: string, c: string)
    ensures Join([a, b, c], '.') == a + "." + (b + "." + c)
  {
    assert [a, b, c][1..] == [b, c] && [b, c][1..] == [c];
    assert Join([b, c], '.') == b + "." + c;
  }

  /** Three numerals of a version's numbers, leading zeros allowed. */
  predicate AreNumbers(v: Version, a: string, b: string, c: string) {
    && IsNumeral(a) && NumeralValue(a) == v.major
    && IsNumeral(b) && NumeralValue(b) == v.minor
    && IsNumeral(c) && NumeralValue(c) == v.patch
  }

  lemma ParseNumbersIff(v: Version, parts: seq<string>)
    ensures ParseNumbers(parts) == Some(v) <==> |parts| == 3 && AreNumbers(v, parts[0], parts[1], parts[2])
  {
  }

  lemma NumbersParse(v: Version, a: string, b: string, c: string, s: string)
    requires AreNumbers(v, a, b, c) && (s == Join([a, b, c], '.') || s == "v" + Join([a, b, c], '.'))
    ensures ParseVersion(s) == Some(v)
  {
    var t := Join([a, b, c], '.');
    SplitOfNumbers(v, a, b, c);
    ParseNumbersIff(v, [a, b, c]);
    assert ("v" + t)[1..] == t;
  }

  lemma SplitOfNumbers(v: Version, a: string, b: string, c: string)
    requires AreNumbers(v, a, b, c)
    ensures var t := Join([a, b, c], '.'); t != "" && t[0] != 'v' && Split(t, '.') == [a, b, c]
  {
    NumeralHasNo(a, '.');
    NumeralHasNo(b, '.');
    NumeralHasNo(c, '.');
    SplitOfJoin([a, b, c], '.');
    JoinThree(a, b, c);
    assert Join([a, b, c], '.')[0] == a[0];
  }

  lemma PartsRejoin(t: string, v: Version) returns (a: string, b: string, c: string)
    requires ParseNumbers(Split(t, '.')) == Some(v)
    ensures AreNumbers(v, a, b, c) && t == Join([a, b, c], '.')
  {
    var parts := Split(t, '.');
    JoinOfSplit(t, '.');
    ParseNumbersIff(v, parts);
    a, b, c := parts[0], parts[1], parts[2];
    assert parts == [a, b, c];
  }

  lemma VersionUnfolds(s: string, v: Version) returns (t: string)
    requires ParseVersion(s) == Some(v)
    ensures (s == t || s == "v" + t) && ParseNumbers(Split(t, '.')) == Some(v)
  {
    t := if s[0] == 'v' then s[1..] else s;
    assert s[0] == 'v' ==> s == "v" + s[1..];
  }

  lemma ParsedIsNumbers(s: string, v: Version) returns (a: string, b: string, c: string)
    requires ParseVersion(s) == Some(v)
    ensures AreNumbers(v, a, b, c) && (s == Join([a, b, c], '.') || s == "v" + Join([a, b, c], '.'))
  {
    var t := VersionUnfolds(s, v);
    a, b, c := PartsRejoin(t, v);
  }

  /** Exactly three dotted numerals below 2^32, with or without a leading v, parse, and to those numbers. */
  lemma ParseVersionIff(s: string, v: Version)
    ensures ParseVersion(s) == Some(v) <==>
      exists a, b, c :: AreNumbers(v, a, b, c) && (s == Join([a, b, c], '.') || s == "v" + Join([a, b, c], '.'))
  {
    if ParseVersion(s) == Some(v) {
      var a, b, c := ParsedIsNumbers(s, v);
    }
    forall a, b, c | AreNumbers(v, a, b, c) && (s == Join([a, b, c], '.') || s == "v" + Join([a, b, c], '.'))
      ensures ParseVersion(s) == Some(v)
    {
      NumbersParse(v, a, b, c, s);
    }
  }

  lemma VersionTextInjective(v: Version, w: Version)
    requires VersionText(v) == VersionText(w)
    ensures v == w
  {
    VersionRoundTrip(v);
    VersionRoundTrip(w);
  }

  // ----- Domain names -----

  const MAX_LABEL_LENGTH := 63

  datatype FqdnError = EmptyDomain | EmptyLabel | LabelTooLong | InvalidCharacter | EdgeHyphen

  predicate IsLabelChar(c: char) {
    'a' <= c <= 'z' || 'A' <= c <= 'Z' || '0' <= c <= '9' || c == '-'
  }

  /** The rule a label breaks first. */
  function LabelError(lbl: string): Option<FqdnError> {
    if lbl == "" then Some(EmptyLabel)
    else if |lbl| > MAX_LABEL_LENGTH then Some(LabelTooLong)
    else if exists i | 0 <= i < |lbl| :: !IsLabelChar(lbl[i]) then Some(InvalidCharacter)
    else if lbl[0] == '-' || lbl[|lbl| - 1] == '-' then Some(EdgeHyphen)
    else None
  }

  /** The error of the first bad label. */
  function FirstLabelError(labels: seq<string>): Option<FqdnError> {
    if labels == [] then None
    else if LabelError(labels[0]).Some? then LabelError(labels[0])
    else FirstLabelError(labels[1..])
  }

  function TrimDot(s: string): string {
    if s != "" && s[|s| - 1] == '.' then s[..|s| - 1] else s
  }

  function NewFqdn(domain: string): Result<string, FqdnError> {
    if domain == "" then Err(EmptyDomain)
    else
      var bad := FirstLabelError(Split(TrimDot(domain), '.'));
      if bad.Some? then Err(bad.value) else Ok(ToLower(TrimDot(domain)))
  }

  /** A letter, a digit or a hyphen, by its ASCII code. */
  predicate IsLdh(c: char) {
    var code := c as int;
    0x61 <= code < 0x61 + 26 || 0x41 <= code < 0x41 + 26 || 0x30 <= code < 0x30 + 10 || code == 0x2D
  }

  /** A domain label: 1 to 63 letters, digits and hyphens, no hyphen at either end. */
  predicate IsLabel(lbl: string) {
    && 0 < |lbl| <= 63 && (forall i | 0 <= i < |lbl| :: IsLdh(lbl[i]))
    && lbl[0] != '-' && lbl[|lbl| - 1] != '-'
  }

  ghost predicate AreLabels(labels: seq<string>) {
    forall i | 0 <= i < |labels| :: IsLabel(labels[i])
  }

  lemma {:induction false} NoLabelErrorIff(labels: seq<string>)
    ensures FirstLabelError(labels).None? <==> AreLabels(labels)
  {
    if labels != [] {
      NoLabelErrorIff(labels[1..]);
      assert LabelError(labels[0]).None? <==> IsLabel(labels[0]);
      assert forall i | 1 <= i < |labels| :: labels[i] == labels[1..][i - 1];
    }
  }

  /** A validated domain name. */
  type Fqdn = s: string | NewFqdn(s) == Ok(s) witness WitnessFqdn()

  function WitnessFqdn(): (s: string)
    ensures NewFqdn(s) == Ok(s)
  {
    assert Split("a", '.') == ["a"];
    assert ToLower("a") == "a";
    "a"
  }

  lemma LowerKeepsLabel(lbl: string)
    ensures LabelError(ToLower(lbl)) == LabelError(lbl)
  {
    assert forall i | 0 <= i < |lbl| :: IsLabelChar(ToLower(lbl)[i]) <==> IsLabelChar(lbl[i]);
  }

  lemma LowerKeepsIndex(s: string)
    ensures Index(ToLower(s), '.') == Index(s, '.')
  {
    assert forall k | 0 <= k < |s| :: ToLower(s)[k] == '.' <==> s[k] == '.';
  }

  lemma {:induction false} LowerKeepsLabels(s: string)
    ensures FirstLabelError(Split(ToLower(s), '.')) == FirstLabelError(Split(s, '.'))
    decreases |s|
  {
    var i := Index(s, '.');
    LowerKeepsIndex(s);
    LowerKeepsLabel(s[..i]);
    assert ToLower(s)[..i] == ToLower(s[..i]);
    if i < |s| {
      LowerKeepsLabels(s[i + 1..]);
      assert ToLower(s)[i + 1..] == ToLower(s[i + 1..]);
      assert Split(s, '.')[1..] == Split(s[i + 1..], '.');
      assert Split(ToLower(s), '.')[1..] == Split(ToLower(s[i + 1..]), '.');
    } else {
      assert s[..i] == s;
    }
  }

  predicate DomainChars(s: string) {
    forall i | 0 <= i < |s| :: IsLabelChar(s[i]) || s[i] == '.'
  }

  /** What a name that passes validation is made of. */
  lemma {:induction false} ValidLabelsMeanValidChars(s: string)
    requires FirstLabelError(Split(s, '.')) == None
    ensures s != "" && s[|s| - 1] != '.' && DomainChars(s)
    decreases |s|
  {
    var i := Index(s, '.');
    if i < |s| {
      var tail := s[i + 1..];
      assert Split(s, '.')[1..] == Split(tail, '.');
      ValidLabelsMeanValidChars(tail);
      CutAt(s, i);
    }
    assert LabelError(Split(s, '.')[0]) == None;
    assert DomainChars(s[..i]);
  }

  /** Validation is idempotent: its result is a validated name, in lower case, without a colon. */
  lemma FqdnIsCanonical(domain: string)
    requires NewFqdn(domain).Ok?
    ensures NewFqdn(NewFqdn(domain).value) == NewFqdn(domain)
    ensures ':' !in NewFqdn(domain).value
  {
    var trimmed := TrimDot(domain);
    var value := ToLower(trimmed);
    LowerKeepsLabels(trimmed);
    ToLowerIdempotent(trimmed);
    ValidLabelsMeanValidChars(value);
    assert TrimDot(value) == value;
  }

  /** The letters A to Z replaced by those 32 places on, everything else as it was. */
  predicate LowerCaseOf(s: string, lower: string) {
    && |lower| == |s|
    && forall i | 0 <= i < |s| :: lower[i] as int == s[i] as int + if 'A' <= s[i] <= 'Z' then 32 else 0
  }

  lemma LowerCaseIff(s: string, lower: string)
    ensures LowerCaseOf(s, lower) <==> lower == ToLower(s)
  {
    if LowerCaseOf(s, lower) {
      assert forall i | 0 <= i < |s| :: lower[i] == ToLower(s)[i];
    }
  }

  /** Dotted labels, with or without a final dot. */
  predicate Dotted(labels: seq<string>, domain: string) {
    |labels| > 0 && (domain == Join(labels, '.') || domain == Join(labels, '.') + ".")
  }

  lemma DottedLabels(domain: string)
    requires domain != ""
    ensures Dotted(Split(TrimDot(domain), '.'), domain)
  {
    JoinOfSplit(TrimDot(domain), '.');
    assert domain[|domain| - 1] == '.' ==> domain == domain[..|domain| - 1] + ".";
  }

  lemma LabelHasNoDot(lbl: string)
    requires IsLabel(lbl)
    ensures '.' !in lbl
  {
  }

  lemma LabelsOfDotted(labels: seq<string>, domain: string)
    requires AreLabels(labels) && Dotted(labels, domain)
    ensures domain != "" && TrimDot(domain) == Join(labels, '.') && Split(TrimDot(domain), '.') == labels
  {
    forall i | 0 <= i < |labels| ensures '.' !in labels[i] {
      LabelHasNoDot(labels[i]);
    }
    SplitOfJoin(labels, '.');
    NoLabelErrorIff(labels);
    ValidLabelsMeanValidChars(Join(labels, '.'));
    assert (Join(labels, '.') + ".")[..|Join(labels, '.')|] == Join(labels, '.');
  }

  /** A name is accepted exactly when it is dotted labels, with or without a final dot; its value drops the dot and the case. */
  lemma NewFqdnIff(domain: string, value: string)
    ensures NewFqdn(domain) == Ok(value)
       <==> exists labels :: AreLabels(labels) && Dotted(labels, domain) && LowerCaseOf(Join(labels, '.'), value)
  {
    var labels := Split(TrimDot(domain), '.');
    NoLabelErrorIff(labels);
    LowerCaseIff(TrimDot(domain), value);
    JoinOfSplit(TrimDot(domain), '.');
    if NewFqdn(domain) == Ok(value) {
      DottedLabels(domain);
      assert AreLabels(labels) && Dotted(labels, domain) && LowerCaseOf(Join(labels, '.'), value);
    }
    forall ls | AreLabels(ls) && Dotted(ls, domain) && LowerCaseOf(Join(ls, '.'), value) ensures NewFqdn(domain) == Ok(value) {
      LabelsOfDotted(ls, domain);
    }
  }

  /** The rule a label breaks first: length, then characters, then hyphens at its ends. */
  predicate Breaks(lbl: string, e: FqdnError) {
    match e
    case EmptyDomain => false
    case EmptyLabel => |lbl| == 0
    case LabelTooLong => |lbl| > 63
    case InvalidCharacter => 0 < |lbl| <= 63 && exists i | 0 <= i < |lbl| :: !IsLdh(lbl[i])
    case EdgeHyphen => 0 < |lbl| <= 63 && (forall i | 0 <= i < |lbl| :: IsLdh(lbl[i])) && !IsLabel(lbl)
  }

  ghost predicate FirstBreaks(labels: seq<string>, i: nat, e: FqdnError) {
    i < |labels| && Breaks(labels[i], e) && forall j | 0 <= j < i :: IsLabel(labels[j])
  }

  lemma LabelErrorIff(lbl: string, e: FqdnError)
    ensures LabelError(lbl) == Some(e) <==> Breaks(lbl, e)
    ensures LabelError(lbl).None? <==> IsLabel(lbl)
  {
  }

  lemma FirstBreaksInRest(labels: seq<string>, i: nat, e: FqdnError)
    requires labels != [] && IsLabel(labels[0])
    ensures FirstBreaks(labels, i + 1, e) <==> FirstBreaks(labels[1..], i, e)
    ensures !FirstBreaks(labels, 0, e)
  {
    LabelErrorIff(labels[0], e);
    assert forall j | 1 <= j < |labels| :: labels[1..][j - 1] == labels[j];
    if FirstBreaks(labels, i + 1, e) {
      assert forall j | 0 <= j < i :: labels[1..][j] == labels[j + 1];
    }
  }

  lemma {:induction false} FirstLabelErrorIff(labels: seq<string>, e: FqdnError)
    ensures FirstLabelError(labels) == Some(e) <==> exists i: nat :: FirstBreaks(labels, i, e)
  {
    if labels != [] {
      LabelErrorIff(labels[0], e);
      if IsLabel(labels[0]) {
        FirstLabelErrorIff(labels[1..], e);
        if i: nat :| FirstBreaks(labels[1..], i, e) {
          FirstBreaksInRest(labels, i, e);
        }
        if i: nat :| FirstBreaks(labels, i, e) {
          FirstBreaksInRest(labels, if i > 0 then i - 1 else 0, e);
        }
      } else if Breaks(labels[0], e) {
        assert FirstBreaks(labels, 0, e);
      }
    }
  }

  /** A name is rejected for the rule that its first bad label breaks, and an empty one as such. */
  lemma FqdnRejectedIff(domain: string, labels: seq<string>, e: FqdnError)
    requires labels == Split(TrimDot(domain), '.')
    ensures domain == "" ==> NewFqdn(domain) == Err(EmptyDomain)
    ensures domain != "" ==> (NewFqdn(domain) == Err(e) <==> exists i: nat :: FirstBreaks(labels, i, e))
  {
    FirstLabelErrorIff(labels, e);
  }

  /** Two spellings that differ in ASCII case are judged alike and have one value, which has no capital letter. */
  lemma FqdnIgnoresCase(domain: string, other: string, lower: string)
    requires LowerCaseOf(domain, lower) && LowerCaseOf(other, lower)
    ensures NewFqdn(domain) == NewFqdn(other)
    ensures NewFqdn(domain).Ok? ==> forall c | c in NewFqdn(domain).value :: !('A' <= c <= 'Z')
  {
    LowerCaseIff(domain, lower);
    LowerCaseIff(other, lower);
    TrimOfLower(domain);
    TrimOfLower(other);
    LowerKeepsLabels(TrimDot(domain));
    LowerKeepsLabels(TrimDot(other));
  }

  lemma TrimOfLower(s: string)
    ensures TrimDot(ToLower(s)) == ToLower(TrimDot(s))
  {
  }

  function FqdnVersionKey(fqdn: Fqdn, version: Version): string {
    fqdn + ":" + VersionText(version)
  }

  /** Two cache keys are equal only for the same domain and the same version. */
  lemma FqdnVersionKeyInjective(f: Fqdn, v: Version, g: Fqdn, w: Version)
    requires FqdnVersionKey(f, v) == FqdnVersionKey(g, w)
    ensures f == g && v == w
  {
    FqdnIsCanonical(f);
    FqdnIsCanonical(g);
    IndexAfter(f, ':', VersionText(v));
    IndexAfter(g, ':', VersionText(w));
    var key := FqdnVersionKey(f, v);
    assert key[..|f|] == f && key[|f| + 1..] == VersionText(v);
    assert key[..|g|] == g && key[|g| + 1..] == VersionText(w);
    VersionTextInjective(v, w);
  }

  // ----- ANS names -----

  const ANS_PREFIX := "ans://"

  datatype AnsName = AnsName(version: Version, host: string)

  /** The case folding of hosts: strings.ToLower, which folds letters beyond ASCII too. */
  type Folding = string -> string

  /** All that is assumed of it. */
  ghost predicate Idempotent(fold: Folding) {
    forall s :: fold(fold(s)) == fold(s)
  }

  /** ans://v<major>.<minor>.<patch>.<host>, the host folded. */
  function ParseAnsName(fold: Folding, uri: string): Option<AnsName> {
    if ANS_PREFIX <= uri then ParseAnsRest(fold, uri[|ANS_PREFIX|..]) else None
  }

  function ParseAnsRest(fold: Folding, rest: string): Option<AnsName> {
    if !("v" <= rest) then None
    else
      var parts := SplitN(rest, '.', 4);
      if |parts| < 4 then None
      else
        var version := ParseVersion(Join(parts[..3], '.'));
        if version.None? then None else Some(AnsName(version.value, fold(parts[3])))
  }

  function CanonicalAnsName(ans: AnsName): string {
    ANS_PREFIX + (VersionText(ans.version) + "." + ans.host)
  }

  lemma DotsAssociate(a: string, b: string, c: string)
    ensures (a + "." + b) + "." + c == a + "." + (b + "." + c)
  {
  }

  lemma HeadOfJoined(a: string, b: string, rest: string, n: nat)
    requires '.' !in a && n > 1
    ensures SplitN((a + "." + b) + "." + rest, '.', n) == [a] + SplitN(b + "." + rest, '.', n - 1)
  {
    DotsAssociate(a, b, rest);
    SplitNHead(a, '.', b + "." + rest, n);
  }

  lemma SplitFour(a: string, b: string, c: string, rest: string)
    requires '.' !in a && '.' !in b && '.' !in c
    ensures SplitN((a + "." + (b + "." + c)) + "." + rest, '.', 4) == [a] + ([b] + ([c] + [rest]))
  {
    HeadOfJoined(a, b + "." + c, rest, 4);
    HeadOfJoined(b, c, rest, 3);
    SplitNHead(c, '.', rest, 2);
  }

  lemma JoinWithV(a: string, b: string, c: string)
    ensures Join(["v" + a, b, c], '.') == "v" + Join([a, b, c], '.') == ("v" + a) + "." + (b + "." + c)
  {
    JoinThree(a, b, c);
    JoinThree("v" + a, b, c);
  }

  lemma SplitNumbersAndHost(v: Version, a: string, b: string, c: string, host: string)
    requires AreNumbers(v, a, b, c)
    ensures SplitN("v" + Join([a, b, c], '.') + "." + host, '.', 4) == ["v" + a, b, c] + [host]
  {
    NumeralHasNo(a, '.');
    NumeralHasNo(b, '.');
    NumeralHasNo(c, '.');
    JoinWithV(a, b, c);
    SplitFour("v" + a, b, c, host);
  }

  lemma NumberPartsParse(v: Version, a: string, b: string, c: string)
    requires AreNumbers(v, a, b, c)
    ensures ParseVersion(Join(["v" + a, b, c], '.')) == Some(v)
  {
    JoinWithV(a, b, c);
    NumbersParse(v, a, b, c, "v" + Join([a, b, c], '.'));
  }

  lemma AfterPrefix(rest: string)
    ensures ANS_PREFIX <= ANS_PREFIX + rest && (ANS_PREFIX + rest)[|ANS_PREFIX|..] == rest
  {
  }

  lemma ParseRestOfParts(fold: Folding, rest: string, parts: seq<string>, v: Version)
    requires "v" <= rest && SplitN(rest, '.', 4) == parts && |parts| == 4
    requires ParseVersion(Join(parts[..3], '.')) == Some(v)
    ensures ParseAnsRest(fold, rest) == Some(AnsName(v, fold(parts[3])))
  {
  }

  lemma StartsWithV(t: string, host: string)
    ensures "v" <= "v" + t + "." + host
  {
  }

  lemma NumbersAndHostParse(fold: Folding, v: Version, a: string, b: string, c: string, host: string)
    requires AreNumbers(v, a, b, c)
    ensures ParseAnsRest(fold, "v" + Join([a, b, c], '.') + "." + host) == Some(AnsName(v, fold(host)))
  {
    var parts := ["v" + a, b, c] + [host];
    SplitNumbersAndHost(v, a, b, c, host);
    NumberPartsParse(v, a, b, c);
    StartsWithV(Join([a, b, c], '.'), host);
    assert parts[..3] == ["v" + a, b, c];
    ParseRestOfParts(fold, "v" + Join([a, b, c], '.') + "." + host, parts, v);
  }

  lemma DecimalsAreNumbers(v: Version)
    ensures AreNumbers(v, Decimal(v.major), Decimal(v.minor), Decimal(v.patch))
  {
    DecimalValue(v.major);
    DecimalValue(v.minor);
    DecimalValue(v.patch);
  }

  lemma ParseOfVersionAndHost(fold: Folding, v: Version, host: string)
    ensures ParseAnsRest(fold, VersionText(v) + "." + host) == Some(AnsName(v, fold(host)))
  {
    DecimalsAreNumbers(v);
    NumbersAndHostParse(fold, v, Decimal(v.major), Decimal(v.minor), Decimal(v.patch), host);
  }

  /** A name spelled with these numerals and this host. */
  ghost predicate Spells(fold: Folding, uri: string, ans: AnsName, a: string, b: string, c: string, host: string) {
    && AreNumbers(ans.version, a, b, c) && fold(host) == ans.host
    && uri == ANS_PREFIX + ("v" + Join([a, b, c], '.') + "." + host)
  }

  lemma SpelledParses(fold: Folding, uri: string, ans: AnsName, a: string, b: string, c: string, host: string)
    requires Spells(fold, uri, ans, a, b, c, host)
    ensures ParseAnsName(fold, uri) == Some(ans)
  {
    AfterPrefix("v" + Join([a, b, c], '.') + "." + host);
    NumbersAndHostParse(fold, ans.version, a, b, c, host);
  }

  lemma JoinOfFour(parts: seq<string>)
    requires |parts| == 4
    ensures Join(parts, '.') == Join(parts[..3], '.') + "." + parts[3]
  {
    var a, b, c, d := parts[0], parts[1], parts[2], parts[3];
    assert parts == [a] + [b, c, d] && parts[..3] == [a, b, c];
    JoinHead(a, [b, c, d], '.');
    JoinThree(b, c, d);
    JoinThree(a, b, c);
    assert a + "." + (b + "." + (c + "." + d)) == (a + "." + (b + "." + c)) + "." + d;
  }

  lemma RestUnfolds(fold: Folding, rest: string, parts: seq<string>, ans: AnsName)
    requires ParseAnsRest(fold, rest) == Some(ans) && parts == SplitN(rest, '.', 4)
    ensures "v" <= rest && |parts| == 4 && ParseVersion(Join(parts[..3], '.')) == Some(ans.version) && fold(parts[3]) == ans.host
  {
  }

  lemma ParsedRestSpells(fold: Folding, rest: string, ans: AnsName) returns (a: string, b: string, c: string, host: string)
    requires ParseAnsRest(fold, rest) == Some(ans)
    ensures AreNumbers(ans.version, a, b, c) && fold(host) == ans.host
    ensures rest == "v" + Join([a, b, c], '.') + "." + host
  {
    var parts := SplitN(rest, '.', 4);
    RestUnfolds(fold, rest, parts, ans);
    JoinOfSplitN(rest, '.', 4);
    JoinOfFour(parts);
    host := parts[3];
    a, b, c := ParsedIsNumbers(Join(parts[..3], '.'), ans.version);
    SplitOfNumbers(ans.version, a, b, c);
    assert rest[0] == 'v';
  }

  /** Exactly the names of the documented shape parse, and to their numbers and folded host. */
  lemma ParseAnsNameIff(fold: Folding, uri: string, ans: AnsName)
    ensures ParseAnsName(fold, uri) == Some(ans) <==> exists a, b, c, host :: Spells(fold, uri, ans, a, b, c, host)
  {
    if ParseAnsName(fold, uri) == Some(ans) {
      var a, b, c, host := ParsedRestSpells(fold, uri[|ANS_PREFIX|..], ans);
      assert Spells(fold, uri, ans, a, b, c, host);
    }
    forall a, b, c, host | Spells(fold, uri, ans, a, b, c, host) ensures ParseAnsName(fold, uri) == Some(ans) {
      SpelledParses(fold, uri, ans, a, b, c, host);
    }
  }

  /** Parsing a canonical form gives back the version, and the host folded. */
  lemma ParseOfCanonical(fold: Folding, ans: AnsName)
    ensures ParseAnsName(fold, CanonicalAnsName(ans)) == Some(AnsName(ans.version, fold(ans.host)))
  {
    AfterPrefix(VersionText(ans.version) + "." + ans.host);
    ParseOfVersionAndHost(fold, ans.version, ans.host);
  }

  /** A parsed name's canonical form parses to the same name. */
  lemma CanonicalIsStable(fold: Folding, uri: string)
    requires Idempotent(fold) && ParseAnsName(fold, uri).Some?
    ensures ParseAnsName(fold, CanonicalAnsName(ParseAnsName(fold, uri).value)) == ParseAnsName(fold, uri)
  {
    ParseOfCanonical(fold, ParseAnsName(fold, uri).value);
    var host := SplitN(uri[|ANS_PREFIX|..], '.', 4)[3];
    assert fold(fold(host)) == fold(host);
  }

  lemma RestInjective(a: AnsName, b: AnsName)
    requires VersionText(a.version) + "." + a.host == VersionText(b.version) + "." + b.host
    ensures a == b
  {
    var v, w := a.version, b.version;
    DecimalsAreNumbers(v);
    DecimalsAreNumbers(w);
    SplitNumbersAndHost(v, Decimal(v.major), Decimal(v.minor), Decimal(v.patch), a.host);
    SplitNumbersAndHost(w, Decimal(w.major), Decimal(w.minor), Decimal(w.patch), b.host);
    var p := ["v" + Decimal(v.major), Decimal(v.minor), Decimal(v.patch)] + [a.host];
    var q := ["v" + Decimal(w.major), Decimal(w.minor), Decimal(w.patch)] + [b.host];
    assert p[0][1..] == Decimal(v.major) && q[0][1..] == Decimal(w.major);
    assert p[1] == q[1] && p[2] == q[2] && p[3] == q[3];
  }

  /** Canonical forms compare exactly on version and host. */
  lemma CanonicalIffSame(a: AnsName, b: AnsName)
    ensures CanonicalAnsName(a) == CanonicalAnsName(b) <==> a.version == b.version && a.host == b.host
  {
    AfterPrefix(VersionText(a.version) + "." + a.host);
    AfterPrefix(VersionText(b.version) + "." + b.host);
    if CanonicalAnsName(a) == CanonicalAnsName(b) {
      RestInjective(a, b);
    }
  }

  /** CertIdentity.AnsName: the first URI SAN that is an ANS name. */
  function CertAnsName(fold: Folding, uriSans: seq<string>): Option<AnsName> {
    if uriSans == [] then None
    else if ParseAnsName(fold, uriSans[0]).Some? then ParseAnsName(fold, uriSans[0])
    else CertAnsName(fold, uriSans[1..])
  }

  /** The URI SAN at this position is this ANS name, and none before it is one. */
  predicate IsFirstAnsName(fold: Folding, uriSans: seq<string>, i: nat, ans: AnsName) {
    && i < |uriSans| && ParseAnsName(fold, uriSans[i]) == Some(ans)
    && forall j | 0 <= j < i :: ParseAnsName(fold, uriSans[j]).None?
  }

  lemma FirstOfRest(fold: Folding, uriSans: seq<string>, i: nat, ans: AnsName)
    requires uriSans != [] && ParseAnsName(fold, uriSans[0]).None?
    ensures IsFirstAnsName(fold, uriSans, i + 1, ans) <==> IsFirstAnsName(fold, uriSans[1..], i, ans)
    ensures !IsFirstAnsName(fold, uriSans, 0, ans)
  {
    var rest := uriSans[1..];
    if IsFirstAnsName(fold, uriSans, i + 1, ans) {
      assert forall j | 0 <= j < i :: rest[j] == uriSans[j + 1];
    }
    if IsFirstAnsName(fold, rest, i, ans) {
      assert forall j | 1 <= j < i + 1 :: uriSans[j] == rest[j - 1];
    }
  }

  /** The certificate's ANS name is that of the first URI SAN which is one, wherever it stands. */
  lemma {:induction false} CertAnsNameIff(fold: Folding, uriSans: seq<string>, ans: AnsName)
    ensures CertAnsName(fold, uriSans) == Some(ans) <==> exists i: nat :: IsFirstAnsName(fold, uriSans, i, ans)
  {
    if uriSans != [] {
      if ParseAnsName(fold, uriSans[0]).Some? {
        assert ParseAnsName(fold, uriSans[0]) == Some(ans) ==> IsFirstAnsName(fold, uriSans, 0, ans);
      } else {
        CertAnsNameIff(fold, uriSans[1..], ans);
        if i: nat :| IsFirstAnsName(fold, uriSans[1..], i, ans) {
          FirstOfRest(fold, uriSans, i, ans);
        }
        if i: nat :| IsFirstAnsName(fold, uriSans, i, ans) {
          FirstOfRest(fold, uriSans, if i > 0 then i - 1 else 0, ans);
        }
      }
    }
  }

  /** A certificate without an ANS name is one of which no URI SAN parses. */
  lemma {:induction false} NoCertAnsNameIff(fold: Folding, uriSans: seq<string>)
    ensures CertAnsName(fold, uriSans).None? <==> forall i | 0 <= i < |uriSans| :: ParseAnsName(fold, uriSans[i]).None?
  {
    if uriSans != [] {
      NoCertAnsNameIff(fold, uriSans[1..]);
      assert forall i | 1 <= i < |uriSans| :: uriSans[i] == uriSans[1..][i - 1];
    }
  }
}
