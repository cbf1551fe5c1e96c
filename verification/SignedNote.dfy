/** verify/scitt/checkpoint.go: the text format of a checkpoint note, split and parsed, and printed as documented. */
module SignedNote {
  import opened Prelude
  import opened Text
  import opened RootKeys
  import Base64

  /** U+2014 EM DASH in UTF-8, and a space. */
  const SIGNATURE_PREFIX := "\U{E2}\U{80}\U{94} "
  const BODY_LINES := 3
  const KID_LENGTH := 4

  /** One parsed signature line. */
  datatype Signature = Signature(name: string, kid: Kid, sig: Bytes)

  datatype Head = Head(origin: string, size: uint64, rootHash: Digest)

  datatype NoteError = Malformed | InvalidSize | InvalidRootHash

  // ----- Parsing -----

  /** The position of the first blank line's newline pair, or |s|. */
  function BlankAt(s: string): (i: nat)
    ensures i <= |s|
    ensures i < |s| ==> i + 2 <= |s| && s[i] == '\n' && s[i + 1] == '\n'
  {
    if |s| < 2 then |s|
    else if s[0] == '\n' && s[1] == '\n' then 0
    else 1 + BlankAt(s[1..])
  }

  function TrimNewline(s: string): string {
    if s != "" && s[|s| - 1] == '\n' then s[..|s| - 1] else s
  }

  function Lines(s: string): (lines: seq<string>)
    ensures |lines| > 0
  {
    Split(TrimNewline(s), '\n')
  }

  /** "— <name> <base64 of key hash and signature>"; the name ends at the first space. */
  function ParseSignatureLine(line: string): Option<Signature> {
    if !(SIGNATURE_PREFIX <= line) then None
    else
      var rest := line[|SIGNATURE_PREFIX|..];
      var i := Index(rest, ' ');
      if i == |rest| || i == 0 then None
      else
        var blob := Base64.Decode(rest[i + 1..]);
        if blob.None? || |blob.value| <= KID_LENGTH then None
        else Some(Signature(rest[..i], blob.value[..KID_LENGTH], blob.value[KID_LENGTH..]))
  }

  /** Every line, or nothing. The structure of a note does not depend on what its signature lines hold. */
  function ParseLines<T>(parse: string -> Option<T>, lines: seq<string>): (parsed: Option<seq<T>>)
    ensures parsed.Some? ==> |parsed.value| == |lines|
  {
    if lines == [] then Some([])
    else
      var before, last := ParseLines(parse, lines[..|lines| - 1]), parse(lines[|lines| - 1]);
      if before.None? || last.None? then None else Some(before.value + [last.value])
  }

  /** One or more lines, each ended by a newline. */
  function ParseBlock<T>(parse: string -> Option<T>, block: string): Option<seq<T>> {
    if block == "" || block[|block| - 1] != '\n' then None else ParseLines(parse, Lines(block))
  }

  /** The signed body, which keeps its newline, and the parsed signature block. */
  function SplitNote<T>(parse: string -> Option<T>, note: string): Option<(string, seq<T>)> {
    var sep := BlankAt(note);
    if sep == |note| then None
    else
      var sigs := ParseBlock(parse, note[sep + 2..]);
      if sigs.None? then None else Some((note[..sep + 1], sigs.value))
  }

  method SplitCheckpointNote<T>(parse: string -> Option<T>, note: string) returns (res: Option<(string, seq<T>)>)
    ensures res == SplitNote(parse, note)
  {
    var sep := BlankAt(note);
    if sep == |note| {
      return None;
    }
    var sigs := ParseSignatureBlock(parse, note[sep + 2..]);
    if sigs.None? {
      return None;
    }
    return Some((note[..sep + 1], sigs.value));
  }

  method ParseSignatureBlock<T>(parse: string -> Option<T>, block: string) returns (res: Option<seq<T>>)
    ensures res == ParseBlock(parse, block)
  {
    if block == "" || block[|block| - 1] != '\n' {
      return None;
    }
    var lines := Lines(block);
    var sigs: seq<T> := [];
    assert lines[..0] == [];
    for i := 0 to |lines|
      invariant ParseLines(parse, lines[..i]) == Some(sigs)
    {
      assert lines[..i + 1][..i] == lines[..i];
      var sig := parse(lines[i]);
      if sig.None? {
        BadLineDecides(parse, lines, i + 1);
        return None;
      }
      sigs := sigs + [sig.value];
    }
    assert lines[..|lines|] == lines;
    return Some(sigs);
  }

  lemma {:induction false} BadLineDecides<T>(parse: string -> Option<T>, lines: seq<string>, n: nat)
    requires n <= |lines| && ParseLines(parse, lines[..n]).None?
    ensures ParseLines(parse, lines).None?
    decreases |lines|
  {
    if n < |lines| {
      assert lines[..|lines| - 1][..n] == lines[..n];
      BadLineDecides(parse, lines[..|lines| - 1], n);
    } else {
      assert lines[..n] == lines;
    }
  }

  /** Origin, size and root hash from the first three lines; further lines are extensions and ignored. */
  function ParseBody(body: string): Result<Head, NoteError> {
    var lines := Lines(body);
    if |lines| < BODY_LINES || lines[0] == "" then Err(Malformed)
    else
      var size, root := ParseUint(lines[1], TWO_TO_THE_64), Base64.Decode(lines[2]);
      if size.None? then Err(InvalidSize)
      else if root.None? || |root.value| != 32 then Err(InvalidRootHash)
      else Ok(Head(lines[0], size.value, root.value))
  }

  /** Exactly the lines of the documented shape parse: em dash, name without space, base64 of key hash and signature. */
  lemma ParsesIffShaped(line: string, s: Signature)
    ensures ParseSignatureLine(line) == Some(s) <==> exists b64 :: IsShaped(line, s, b64)
  {
    if ParseSignatureLine(line) == Some(s) {
      ShapeOfParsed(line, s);
    }
    forall b64 | IsShaped(line, s, b64) ensures ParseSignatureLine(line) == Some(s) {
      ShapedParses(line, s, b64);
    }
  }

  ghost predicate IsShaped(line: string, s: Signature, b64: string) {
    && line == SIGNATURE_PREFIX + (s.name + " " + b64) && s.name != "" && ' ' !in s.name
    && Base64.Decode(b64) == Some(s.kid + s.sig) && s.sig != []
  }

  lemma ShapeOfParsed(line: string, s: Signature)
    requires ParseSignatureLine(line) == Some(s)
    ensures exists b64 :: IsShaped(line, s, b64)
  {
    var rest := line[|SIGNATURE_PREFIX|..];
    var i := Index(rest, ' ');
    CutAt(rest, i);
    var blob := Base64.Decode(rest[i + 1..]).value;
    assert line == SIGNATURE_PREFIX + rest && blob == blob[..KID_LENGTH] + blob[KID_LENGTH..];
    assert IsShaped(line, s, rest[i + 1..]);
  }

  lemma ShapedParses(line: string, s: Signature, b64: string)
    requires IsShaped(line, s, b64)
    ensures ParseSignatureLine(line) == Some(s)
  {
    PrefixDrops(s.name + " " + b64);
    NameEndsAtSpace(s.name, b64);
    assert (s.kid + s.sig)[..KID_LENGTH] == s.kid && (s.kid + s.sig)[KID_LENGTH..] == s.sig;
  }

  // ----- What a note that splits looks like -----

  lemma CutAtBlank(note: string, sep: nat, body: string)
    requires sep + 2 <= |note| && note[sep] == '\n' && note[sep + 1] == '\n' && body == note[..sep + 1]
    ensures |body| == sep + 1 && body[sep] == '\n'
    ensures note == body + "\n" + note[|body| + 1..]
  {
  }

  lemma SplitUnfolds<T>(parse: string -> Option<T>, note: string, body: string, sigs: seq<T>) returns (sep: nat)
    requires SplitNote(parse, note) == Some((body, sigs))
    ensures sep == BlankAt(note) && sep + 2 <= |note| && note[sep] == '\n' && note[sep + 1] == '\n'
    ensures body == note[..sep + 1] && ParseBlock(parse, note[sep + 2..]) == Some(sigs)
  {
    sep := BlankAt(note);
  }

  lemma BlockHasLines<T>(parse: string -> Option<T>, block: string, sigs: seq<T>)
    requires ParseBlock(parse, block) == Some(sigs)
    ensures sigs != []
  {
  }

  /** The body and the block reassemble the note. */
  lemma SplitReassembles<T>(parse: string -> Option<T>, note: string, body: string, sigs: seq<T>)
    requires SplitNote(parse, note) == Some((body, sigs))
    ensures 0 < |body| < |note| && body[|body| - 1] == '\n'
    ensures note == body + "\n" + note[|body| + 1..]
    ensures ParseBlock(parse, note[|body| + 1..]) == Some(sigs) && sigs != []
  {
    var sep := SplitUnfolds(parse, note, body, sigs);
    CutAtBlank(note, sep, body);
    BlockHasLines(parse, note[sep + 2..], sigs);
    assert sep + 2 == |body| + 1;
  }

  /** The split is at the first blank line. */
  lemma SplitAtFirstBlank<T>(parse: string -> Option<T>, note: string, body: string, sigs: seq<T>)
    requires SplitNote(parse, note) == Some((body, sigs))
    ensures BlankAt(body) == |body|
  {
    var sep := SplitUnfolds(parse, note, body, sigs);
    BlankAtIsFirst(note, sep + 1);
  }

  lemma {:induction false} BlankAtIsFirst(s: string, n: nat)
    requires n <= |s| && n <= BlankAt(s) + 1
    ensures BlankAt(s[..n]) == n
    decreases |s|
  {
    if n >= 2 {
      BlankAtIsFirst(s[1..], n - 1);
      assert s[..n][1..] == s[1..][..n - 1];
    }
  }

  lemma TwoBreaks(rest: string)
    requires rest == "" || rest[0] == '\n'
    ensures BlankAt("\n" + (rest + "\n")) == 0
  {
    assert (rest + "\n")[0] == '\n';
    assert ("\n" + (rest + "\n"))[1] == '\n';
  }

  /** Where there is no blank line, only the first line can be empty. */
  lemma {:induction false} NoBlankNoEmptyLine(s: string)
    requires BlankAt(s + "\n") == |s| + 1
    ensures forall i | 0 < i < |Split(s, '\n')| :: Split(s, '\n')[i] != ""
    decreases |s|
  {
    var i := Index(s, '\n');
    if i < |s| {
      var rest := s[i + 1..];
      BlankAtSuffix(s + "\n", i);
      assert (s + "\n")[i..] == "\n" + (rest + "\n") && (s + "\n")[i + 1..] == rest + "\n";
      BlankAtSuffix(s + "\n", i + 1);
      NoBlankNoEmptyLine(rest);
      if rest == "" || rest[0] == '\n' {
        TwoBreaks(rest);
      }
      assert Split(s, '\n') == [s[..i]] + Split(rest, '\n');
    }
  }

  lemma {:induction false} BlankAtSuffix(s: string, n: nat)
    requires n <= |s| && BlankAt(s) == |s|
    ensures BlankAt(s[n..]) == |s| - n
  {
    if n == 0 {
      assert s[0..] == s;
    } else if |s| >= 2 {
      BlankAtSuffix(s[1..], n - 1);
      assert s[1..][n - 1..] == s[n..];
    }
  }

  lemma UnblankBodyLines(body: string)
    requires body != "" && body[|body| - 1] == '\n' && BlankAt(body) == |body| && Lines(body)[0] != ""
    ensures forall i | 0 <= i < |Lines(body)| :: Lines(body)[i] != ""
  {
    var s := TrimNewline(body);
    assert s + "\n" == body;
    NoBlankNoEmptyLine(s);
  }

  lemma ParsedBodyHasOrigin(body: string)
    requires ParseBody(body).Ok?
    ensures |Lines(body)| >= BODY_LINES && Lines(body)[0] == ParseBody(body).value.origin != ""
  {
  }

  /** No line of a parsed body is empty. */
  lemma BodyHasNoEmptyLine<T>(parse: string -> Option<T>, note: string, body: string, sigs: seq<T>)
    requires SplitNote(parse, note) == Some((body, sigs)) && ParseBody(body).Ok?
    ensures forall i | 0 <= i < |Lines(body)| :: Lines(body)[i] != ""
  {
    SplitReassembles(parse, note, body, sigs);
    SplitAtFirstBlank(parse, note, body, sigs);
    ParsedBodyHasOrigin(body);
    UnblankBodyLines(body);
  }

  // ----- Printing -----

  /** Each line with its newline. */
  function Terminated(lines: seq<string>): string {
    if lines == [] then "" else lines[0] + "\n" + Terminated(lines[1..])
  }

  function BodyLines(head: Head, extensions: seq<string>): seq<string> {
    [head.origin, Decimal(head.size), Base64.Encode(head.rootHash)] + extensions
  }

  function SignatureLine(s: Signature): string {
    SIGNATURE_PREFIX + (s.name + " " + Base64.Encode(s.kid + s.sig))
  }

  function SignatureLines(sigs: seq<Signature>): (lines: seq<string>)
    ensures |lines| == |sigs|
    ensures forall i | 0 <= i < |sigs| :: lines[i] == SignatureLine(sigs[i])
  {
    seq(|sigs|, i requires 0 <= i < |sigs| => SignatureLine(sigs[i]))
  }

  function PrintBody(head: Head, extensions: seq<string>): string {
    Terminated(BodyLines(head, extensions))
  }

  function PrintNote(head: Head, extensions: seq<string>, sigs: seq<Signature>): string {
    PrintBody(head, extensions) + "\n" + Terminated(SignatureLines(sigs))
  }

  /** A line of a note: not empty, no newline. */
  predicate IsLine(s: string) {
    s != "" && '\n' !in s
  }

  /** What the format can carry. */
  ghost predicate Carries(head: Head, extensions: seq<string>, sigs: seq<Signature>) {
    && IsLine(head.origin) && (forall e | e in extensions :: IsLine(e)) && sigs != []
    && forall s | s in sigs :: IsLine(s.name) && ' ' !in s.name && s.sig != []
  }

  lemma {:induction false} TerminatedIsJoined(lines: seq<string>)
    requires |lines| > 0
    ensures Terminated(lines) == Join(lines, '\n') + "\n"
  {
    if |lines| > 1 {
      TerminatedIsJoined(lines[1..]);
    }
  }

  lemma LinesOfTerminated(lines: seq<string>)
    requires |lines| > 0 && forall i | 0 <= i < |lines| :: '\n' !in lines[i]
    ensures Lines(Terminated(lines)) == lines
  {
    TerminatedIsJoined(lines);
    var s := Terminated(lines);
    assert s[..|s| - 1] == Join(lines, '\n');
    SplitOfJoin(lines, '\n');
  }

  /** A line and its newline hold no blank line if what follows starts with a character of a line. */
  lemma {:induction false} BlankAtPastLine(line: string, t: string)
    requires '\n' !in line && t != "" && t[0] != '\n'
    ensures BlankAt(line + "\n" + t) == |line| + 1 + BlankAt(t)
  {
    var s := line + "\n" + t;
    if line == "" {
      assert s[1..] == t && s[1] == t[0];
    } else {
      assert s[0] == line[0] && line[0] != '\n';
      BlankAtPastLine(line[1..], t);
      assert s[1..] == line[1..] + "\n" + t;
    }
  }

  lemma {:induction false} BlankAtEndOfLine(line: string, t: string)
    requires '\n' !in line
    ensures BlankAt(line + "\n" + ("\n" + t)) == |line|
  {
    var s := line + "\n" + ("\n" + t);
    if line == "" {
      assert s[0] == '\n' && s[1] == '\n';
    } else {
      assert s[0] == line[0] && line[0] != '\n';
      BlankAtEndOfLine(line[1..], t);
      assert s[1..] == line[1..] + "\n" + ("\n" + t);
    }
  }

  lemma LineAppends(line: string, rest: string, t: string)
    ensures (line + "\n" + rest) + t == line + "\n" + (rest + t)
  {
  }

  /** The blank line after a block of lines is its first. */
  lemma {:induction false} BlankAfterLines(lines: seq<string>, t: string)
    requires |lines| > 0 && forall i | 0 <= i < |lines| :: IsLine(lines[i])
    ensures BlankAt(Terminated(lines) + ("\n" + t)) == |Terminated(lines)| - 1
  {
    var rest := lines[1..];
    LineAppends(lines[0], Terminated(rest), "\n" + t);
    if rest == [] {
      assert "" + ("\n" + t) == "\n" + t;
      BlankAtEndOfLine(lines[0], t);
    } else {
      BlankAfterLines(rest, t);
      assert Terminated(rest)[0] == rest[0][0];
      BlankAtPastLine(lines[0], Terminated(rest) + ("\n" + t));
    }
  }

  lemma PrintedBodyLines(head: Head, extensions: seq<string>)
    requires IsLine(head.origin) && forall e | e in extensions :: IsLine(e)
    ensures forall i | 0 <= i < |BodyLines(head, extensions)| :: IsLine(BodyLines(head, extensions)[i])
  {
    NumeralHasNo(Decimal(head.size), '\n');
    Base64.EncodeHasNo(head.rootHash, '\n');
    assert Base64.Encode(head.rootHash) != "";
  }

  lemma NameEndsAtSpace(name: string, b64: string)
    requires ' ' !in name
    ensures var rest := name + " " + b64;
      Index(rest, ' ') == |name| && rest[..|name|] == name && rest[|name| + 1..] == b64
  {
    IndexAfter(name, ' ', b64);
  }

  lemma PrefixDrops(rest: string)
    ensures SIGNATURE_PREFIX <= SIGNATURE_PREFIX + rest
    ensures (SIGNATURE_PREFIX + rest)[|SIGNATURE_PREFIX|..] == rest
  {
  }

  lemma ParsePrintedSignature(s: Signature)
    requires IsLine(s.name) && ' ' !in s.name && s.sig != []
    ensures ParseSignatureLine(SignatureLine(s)) == Some(s)
  {
    Base64.RoundTrip(s.kid + s.sig);
    ShapedParses(SignatureLine(s), s, Base64.Encode(s.kid + s.sig));
  }

  lemma PrintedSignatureIsLine(s: Signature)
    requires IsLine(s.name)
    ensures IsLine(SignatureLine(s))
  {
    Base64.EncodeHasNo(s.kid + s.sig, '\n');
  }

  lemma {:induction false} ParseLinesOfEach<T>(parse: string -> Option<T>, lines: seq<string>, parsed: seq<T>)
    requires |parsed| == |lines| && forall i | 0 <= i < |lines| :: parse(lines[i]) == Some(parsed[i])
    ensures ParseLines(parse, lines) == Some(parsed)
  {
    if lines != [] {
      var n := |lines| - 1;
      ParseLinesOfEach(parse, lines[..n], parsed[..n]);
      assert parsed == parsed[..n] + [parsed[n]];
    }
  }

  lemma BlockOfEach<T>(parse: string -> Option<T>, lines: seq<string>, parsed: seq<T>)
    requires |parsed| == |lines| > 0
    requires forall i | 0 <= i < |lines| :: parse(lines[i]) == Some(parsed[i]) && '\n' !in lines[i]
    ensures ParseBlock(parse, Terminated(lines)) == Some(parsed)
  {
    TerminatedIsJoined(lines);
    LinesOfTerminated(lines);
    ParseLinesOfEach(parse, lines, parsed);
  }

  lemma PrintedBlockParses(sigs: seq<Signature>)
    requires sigs != [] && forall s | s in sigs :: IsLine(s.name) && ' ' !in s.name && s.sig != []
    ensures ParseBlock(ParseSignatureLine, Terminated(SignatureLines(sigs))) == Some(sigs)
  {
    var lines := SignatureLines(sigs);
    forall i | 0 <= i < |lines| ensures ParseSignatureLine(lines[i]) == Some(sigs[i]) && '\n' !in lines[i] {
      ParsePrintedSignature(sigs[i]);
      PrintedSignatureIsLine(sigs[i]);
    }
    BlockOfEach(ParseSignatureLine, lines, sigs);
  }

  lemma SplitAt<T>(parse: string -> Option<T>, note: string, sep: nat, block: string, sigs: seq<T>)
    requires BlankAt(note) == sep && sep + 2 <= |note| && note[sep + 2..] == block
    requires ParseBlock(parse, block) == Some(sigs)
    ensures SplitNote(parse, note) == Some((note[..sep + 1], sigs))
  {
  }

  lemma PrintedBodyParses(head: Head, extensions: seq<string>)
    requires IsLine(head.origin) && forall e | e in extensions :: IsLine(e)
    ensures ParseBody(PrintBody(head, extensions)) == Ok(head)
  {
    PrintedBodyLines(head, extensions);
    LinesOfTerminated(BodyLines(head, extensions));
    ParseUintOfDecimal(head.size, TWO_TO_THE_64);
    Base64.RoundTrip(head.rootHash);
  }

  lemma NoteParts(body: string, block: string)
    requires body != ""
    ensures body + "\n" + block == body + ("\n" + block)
    ensures (body + ("\n" + block))[..|body|] == body && (body + ("\n" + block))[|body| + 1..] == block
  {
  }

  lemma SplitPrinted<T>(parse: string -> Option<T>, lines: seq<string>, block: string, sigs: seq<T>)
    requires |lines| > 0 && forall i | 0 <= i < |lines| :: IsLine(lines[i])
    requires ParseBlock(parse, block) == Some(sigs)
    ensures SplitNote(parse, Terminated(lines) + "\n" + block) == Some((Terminated(lines), sigs))
  {
    var body := Terminated(lines);
    BlankAfterLines(lines, block);
    NoteParts(body, block);
    SplitAt(parse, body + ("\n" + block), |body| - 1, block, sigs);
  }

  /** Printing any head, extension lines and signatures the format can carry, then splitting and parsing, loses nothing. */
  lemma NoteRoundTrip(head: Head, extensions: seq<string>, sigs: seq<Signature>)
    requires Carries(head, extensions, sigs)
    ensures SplitNote(ParseSignatureLine, PrintNote(head, extensions, sigs)) == Some((PrintBody(head, extensions), sigs))
    ensures ParseBody(PrintBody(head, extensions)) == Ok(head)
  {
    PrintedBodyLines(head, extensions);
    PrintedBlockParses(sigs);
    SplitPrinted(ParseSignatureLine, BodyLines(head, extensions), Terminated(SignatureLines(sigs)), sigs);
    PrintedBodyParses(head, extensions);
  }

  // ----- Exactly the notes that split and parse -----

  /** Lines that parse one by one. */
  ghost predicate ParsesEach<T>(parse: string -> Option<T>, lines: seq<string>, parsed: seq<T>) {
    && |parsed| == |lines| > 0
    && forall i | 0 <= i < |lines| :: '\n' !in lines[i] && parse(lines[i]) == Some(parsed[i])
  }

  lemma {:induction false} EachOfParsedLines<T>(parse: string -> Option<T>, lines: seq<string>, parsed: seq<T>)
    requires ParseLines(parse, lines) == Some(parsed)
    ensures |parsed| == |lines| && forall i | 0 <= i < |lines| :: parse(lines[i]) == Some(parsed[i])
  {
    if lines != [] {
      var n := |lines| - 1;
      EachOfParsedLines(parse, lines[..n], parsed[..n]);
      assert forall i | 0 <= i < n :: lines[..n][i] == lines[i] && parsed[..n][i] == parsed[i];
    }
  }

  lemma TerminatedLines(s: string)
    requires s != "" && s[|s| - 1] == '\n'
    ensures Terminated(Lines(s)) == s && forall i | 0 <= i < |Lines(s)| :: '\n' !in Lines(s)[i]
  {
    SplitHasNoSeparator(TrimNewline(s), '\n');
    JoinOfSplit(TrimNewline(s), '\n');
    TerminatedIsJoined(Lines(s));
  }

  /** A block parses exactly when it is one or more newline-terminated lines that all parse, and to what they parse to. */
  lemma BlockIff<T>(parse: string -> Option<T>, block: string, sigs: seq<T>)
    ensures ParseBlock(parse, block) == Some(sigs) <==> exists lines :: ParsesEach(parse, lines, sigs) && block == Terminated(lines)
  {
    if ParseBlock(parse, block) == Some(sigs) {
      TerminatedLines(block);
      EachOfParsedLines(parse, Lines(block), sigs);
      assert ParsesEach(parse, Lines(block), sigs);
    }
    forall lines | ParsesEach(parse, lines, sigs) && block == Terminated(lines) ensures ParseBlock(parse, block) == Some(sigs) {
      BlockOfEach(parse, lines, sigs);
    }
  }

  /** No two newlines in a row. */
  predicate Unblank(s: string) {
    forall i | 0 <= i < |s| - 1 :: s[i] != '\n' || s[i + 1] != '\n'
  }

  lemma {:induction false} BlankAtIff(s: string, i: nat)
    ensures BlankAt(s) == i < |s| <==>
      i + 2 <= |s| && s[i] == '\n' && s[i + 1] == '\n' && Unblank(s[..i + 1])
    decreases |s|
  {
    if |s| >= 2 && !(s[0] == '\n' && s[1] == '\n') && i > 0 {
      BlankAtIff(s[1..], i - 1);
      if i + 2 <= |s| {
        UnblankTail(s[..i + 1]);
        assert s[..i + 1][1..] == s[1..][..i];
      }
    }
  }

  lemma UnblankTail(s: string)
    requires |s| >= 2 && !(s[0] == '\n' && s[1] == '\n')
    ensures Unblank(s) <==> Unblank(s[1..])
  {
    if Unblank(s[1..]) {
      forall i | 0 <= i < |s| - 1 ensures s[i] != '\n' || s[i + 1] != '\n' {
        if i > 0 {
          assert s[1..][i - 1] == s[i] && s[1..][i] == s[i + 1];
        }
      }
    }
  }

  /** The documented shape: a body of lines without a blank one, a blank line, and a block of lines that all parse. */
  ghost predicate IsNote<T>(parse: string -> Option<T>, note: string, body: string, sigs: seq<T>, lines: seq<string>) {
    && body != "" && body[|body| - 1] == '\n' && Unblank(body)
    && note == body + ("\n" + Terminated(lines)) && ParsesEach(parse, lines, sigs)
  }

  lemma NoteIndices(note: string, body: string, block: string)
    requires body != "" && body[|body| - 1] == '\n' && note == body + ("\n" + block)
    ensures |body| + 1 <= |note| && note[..|body|] == body && note[|body| + 1..] == block
    ensures note[|body| - 1] == '\n' && note[|body|] == '\n'
  {
  }

  lemma SplitOfNote<T>(parse: string -> Option<T>, note: string, body: string, sigs: seq<T>, lines: seq<string>)
    requires IsNote(parse, note, body, sigs, lines)
    ensures SplitNote(parse, note) == Some((body, sigs))
  {
    NoteIndices(note, body, Terminated(lines));
    BlankAtIff(note, |body| - 1);
    BlockIff(parse, Terminated(lines), sigs);
    SplitAt(parse, note, |body| - 1, Terminated(lines), sigs);
  }

  lemma LinesOfBlock<T>(parse: string -> Option<T>, block: string, sigs: seq<T>) returns (lines: seq<string>)
    requires ParseBlock(parse, block) == Some(sigs)
    ensures ParsesEach(parse, lines, sigs) && block == Terminated(lines)
  {
    BlockIff(parse, block, sigs);
    lines :| ParsesEach(parse, lines, sigs) && block == Terminated(lines);
  }

  lemma CutBeforeBreak(note: string, sep: nat)
    requires sep + 2 <= |note| && note[sep + 1] == '\n'
    ensures note == note[..sep + 1] + ("\n" + note[sep + 2..])
  {
  }

  lemma BodyIsUnblank(note: string, sep: nat)
    requires BlankAt(note) == sep < |note|
    ensures sep + 2 <= |note| && note[..sep + 1] != "" && note[..sep + 1][sep] == '\n' && Unblank(note[..sep + 1])
    ensures note == note[..sep + 1] + ("\n" + note[sep + 2..])
  {
    BlankAtIff(note, sep);
    CutBeforeBreak(note, sep);
  }

  lemma NoteOfSplit<T>(parse: string -> Option<T>, note: string, body: string, sigs: seq<T>) returns (lines: seq<string>)
    requires SplitNote(parse, note) == Some((body, sigs))
    ensures IsNote(parse, note, body, sigs, lines)
  {
    var sep := SplitUnfolds(parse, note, body, sigs);
    BodyIsUnblank(note, sep);
    lines := LinesOfBlock(parse, note[sep + 2..], sigs);
  }

  /** A note splits exactly when it has the documented shape, and into the parts that shape it. */
  lemma SplitIff<T>(parse: string -> Option<T>, note: string, body: string, sigs: seq<T>)
    ensures SplitNote(parse, note) == Some((body, sigs)) <==> exists lines :: IsNote(parse, note, body, sigs, lines)
  {
    if SplitNote(parse, note) == Some((body, sigs)) {
      var lines := NoteOfSplit(parse, note, body, sigs);
    }
    forall lines | IsNote(parse, note, body, sigs, lines) ensures SplitNote(parse, note) == Some((body, sigs)) {
      SplitOfNote(parse, note, body, sigs, lines);
    }
  }

  /** What a body of lines parses to: its first three lines decide, and the first of them that is wrong names the error. */
  lemma BodyIff(lines: seq<string>)
    requires |lines| > 0 && forall i | 0 <= i < |lines| :: '\n' !in lines[i]
    ensures var r := ParseBody(Terminated(lines));
      var shaped := |lines| >= 3 && lines[0] != "";
      var sized := shaped && IsNumeral(lines[1]) && NumeralValue(lines[1]) < TWO_TO_THE_64;
      var rooted := sized && Base64.Decode(lines[2]).Some? && |Base64.Decode(lines[2]).value| == 32;
      && (r == Err(Malformed) <==> !shaped)
      && (r == Err(InvalidSize) <==> shaped && !sized)
      && (r == Err(InvalidRootHash) <==> sized && !rooted)
      && (rooted ==> r == Ok(Head(lines[0], NumeralValue(lines[1]), Base64.Decode(lines[2]).value)))
  {
    LinesOfTerminated(lines);
  }
}
