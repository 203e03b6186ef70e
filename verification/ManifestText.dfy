/** The text of a manifest: `write_manifest_plain` and `manifest_from_file` (src/manifest.c) undo each other. */
module ManifestText {
  import opened Sorting
  import opened Files
  import opened IncludeLists

  // ----- numbers -----

  function Digit(d: nat): char
    requires d < 10
  {
    "0123456789"[d]
  }

  predicate IsDigit(c: char) {
    '0' <= c <= '9'
  }

  /** `%i` and `%llu` of a number that is not negative. */
  function Digits(n: nat): (r: string)
    ensures r != [] && forall i | 0 <= i < |r| :: IsDigit(r[i])
  {
    if n < 10 then [Digit(n)] else Digits(n / 10) + [Digit(n % 10)]
  }

  function PrintInt(v: int): string {
    if v < 0 then "-" + Digits(-v) else Digits(v)
  }

  /** The value of the leading digits. */
  function Value(s: string, acc: nat): nat {
    if s == [] || !IsDigit(s[0]) then acc else Value(s[1..], 10 * acc + (s[0] as nat - '0' as nat))
  }

  function SkipSpaces(s: string): string {
    if s != [] && s[0] in " \t\n\r\U{b}\U{c}" then SkipSpaces(s[1..]) else s
  }

  const TWO_TO_32: nat := 0x1_0000_0000
  const TWO_TO_64: nat := 0x1_0000_0000_0000_0000

  /** `strtoull(s, NULL, 10)`: blanks, a sign, digits; a value too large becomes the largest one. */
  function Strtoull(s: string): (r: nat)
    ensures r < TWO_TO_64
  {
    var t := SkipSpaces(s);
    var negative := t != [] && t[0] == '-';
    var v := Value(if t != [] && t[0] in "+-" then t[1..] else t, 0);
    if v >= TWO_TO_64 then TWO_TO_64 - 1 else if negative then (TWO_TO_64 - v) % TWO_TO_64 else v
  }

  /** An unsigned long long assigned to an int. */
  function ToInt(x: nat): int {
    var y := x % TWO_TO_32; if y < TWO_TO_32 / 2 then y else y - TWO_TO_32
  }

  predicate IsInt32(v: int) {
    -(TWO_TO_32 / 2) <= v < TWO_TO_32 / 2
  }

  lemma {:induction false} ValueAppends(s: string, c: char, acc: nat)
    requires IsDigit(c) && forall i | 0 <= i < |s| :: IsDigit(s[i])
    ensures Value(s + [c], acc) == 10 * Value(s, acc) + (c as nat - '0' as nat)
    decreases |s|
  {
    if s == [] {
      assert (s + [c])[1..] == [];
    } else {
      assert (s + [c])[1..] == s[1..] + [c];
      ValueAppends(s[1..], c, 10 * acc + (s[0] as nat - '0' as nat));
    }
  }

  lemma {:induction false} ValueOfDigits(n: nat)
    ensures Value(Digits(n), 0) == n
  {
    if n < 10 {
      assert Digits(n)[1..] == [];
    } else {
      ValueOfDigits(n / 10);
      ValueAppends(Digits(n / 10), Digit(n % 10), 0);
    }
  }

  lemma NatRoundTrip(n: nat)
    requires n < TWO_TO_64
    ensures Strtoull(Digits(n)) == n
  {
    ValueOfDigits(n);
    assert IsDigit(Digits(n)[0]);
  }

  lemma Remainder(x: nat, q: nat, y: nat)
    requires x == q * TWO_TO_32 + y && y < TWO_TO_32
    ensures x % TWO_TO_32 == y
  {
  }

  lemma ToIntOf(v: int)
    requires IsInt32(v)
    ensures v >= 0 ==> ToInt(v) == v
    ensures v < 0 ==> ToInt(TWO_TO_64 + v) == v
  {
    if v < 0 {
      Remainder(TWO_TO_64 + v, TWO_TO_32 - 1, TWO_TO_32 + v);
    }
  }

  lemma NegativeRoundTrip(n: nat)
    requires 0 < n < TWO_TO_64
    ensures Strtoull("-" + Digits(n)) == TWO_TO_64 - n
  {
    ValueOfDigits(n);
    assert ("-" + Digits(n))[1..] == Digits(n);
  }

  lemma IntRoundTrip(v: int)
    requires IsInt32(v)
    ensures ToInt(Strtoull(PrintInt(v))) == v
  {
    hide Strtoull, Digits, ToInt;
    ToIntOf(v);
    if v < 0 {
      NegativeRoundTrip(-v);
    } else {
      NatRoundTrip(v);
    }
  }

  // ----- the flag characters -----

  /** `file_type_to_string` for a record that is not a manifest: later tests win. */
  function TypeString(e: Entry): string {
    [ if e.isFile then 'F' else if e.isLink then 'L' else if e.isDir then 'D' else '.',
      if e.isGhosted then 'g' else if e.isDeleted then 'd' else '.',
      if e.isBoot then 'b' else if e.isState then 's' else if e.isConfig then 'C' else '.',
      if e.isRename then 'r' else '.' ]
  }

  /** Where several bits compete for a character, the last test that succeeds decides. */
  lemma LaterTestsWin(e: Entry)
    ensures var s := TypeString(e);
      && |s| == 4 && (e.isFile ==> s[0] == 'F') && (e.isLink && !e.isFile ==> s[0] == 'L')
      && (e.isGhosted ==> s[1] == 'g') && (e.isBoot ==> s[2] == 'b') && (e.isState && !e.isBoot ==> s[2] == 's')
  {
  }

  /** The character at a position, or the end of the string. */
  function At(s: string, i: nat): Option<char> {
    if i < |s| then Some(s[i]) else None
  }

  /** The flags of a line, or nothing where the parser gives up. */
  function ParseFlags(s: string): Option<Entry> {
    var t, d, m := At(s, 0), At(s, 1), At(s, 2);
    if t !in {Some('F'), Some('D'), Some('L'), Some('.'), Some('M')} then None
    else if d !in {Some('d'), Some('g'), Some('.')} then None
    else if m !in {Some('C'), Some('s'), Some('b'), Some('.')} then None
    else Some(Entry(t == Some('D'), t == Some('F'), t == Some('L'), d == Some('d'), d == Some('g'),
                    m == Some('C'), m == Some('s'), m == Some('b'), At(s, 3) == Some('r'), "", 0))
  }

  /** At most one bit for each of the first three characters. */
  predicate Unambiguous(e: Entry) {
    && (e.isFile ==> !e.isLink && !e.isDir) && !(e.isLink && e.isDir)
    && !(e.isDeleted && e.isGhosted)
    && (e.isBoot ==> !e.isState && !e.isConfig) && !(e.isState && e.isConfig)
  }

  /** Four characters hold the flags exactly when no two of them compete for one. */
  lemma FlagsRoundTrip(e: Entry)
    ensures ParseFlags(TypeString(e)) == Some(e.(hash := "", lastChange := 0)) <==> Unambiguous(e)
  {
  }

  // ----- lines -----

  /** What `fgets` reads at most into the line buffer. */
  const LIMIT: nat := 8190

  function LineLength(text: string, limit: nat): (r: nat)
    ensures r <= |text| && r <= limit
    ensures text != [] && limit > 0 ==> r > 0
    ensures forall i | 0 <= i < r - 1 :: text[i] != '\n'
  {
    if text == [] || limit == 0 then 0
    else if text[0] == '\n' then 1 else 1 + LineLength(text[1..], limit - 1)
  }

  /** The line without its newline. */
  function Chomp(line: string): (r: string)
    ensures |r| <= |line|
  {
    if line != [] && line[|line| - 1] == '\n' then line[..|line| - 1] else line
  }

  function FirstLine(text: string): string {
    Chomp(text[..LineLength(text, LIMIT)])
  }

  function AfterLine(text: string): string {
    text[LineLength(text, LIMIT)..]
  }

  predicate OneLine(s: string) {
    |s| < LIMIT && forall i | 0 <= i < |s| :: s[i] != '\n'
  }

  lemma {:induction false} LineLengthIs(s: string, rest: string, limit: nat)
    requires |s| < limit && forall i | 0 <= i < |s| :: s[i] != '\n'
    ensures LineLength(s + "\n" + rest, limit) == |s| + 1
    decreases |s|
  {
    var text := s + "\n" + rest;
    if s != [] {
      assert text[1..] == s[1..] + "\n" + rest;
      LineLengthIs(s[1..], rest, limit - 1);
    }
  }

  lemma ReadsLine(s: string, rest: string)
    requires OneLine(s)
    ensures FirstLine(s + "\n" + rest) == s && AfterLine(s + "\n" + rest) == rest
  {
    LineLengthIs(s, rest, LIMIT);
    var text := s + "\n" + rest;
    assert text[..|s| + 1] == s + "\n";
    assert text[|s| + 1..] == rest;
  }

  /** No line that is read is longer than the buffer or contains a newline. */
  lemma LinesAreShort(text: string)
    ensures |FirstLine(text)| <= LIMIT && forall i | 0 <= i < |FirstLine(text)| :: FirstLine(text)[i] != '\n'
  {
  }

  // ----- fields -----

  /** The position of the first tab, or the length. */
  function Tab(s: string): (r: nat)
    ensures r <= |s| && (r < |s| ==> s[r] == '\t') && forall i | 0 <= i < r :: s[i] != '\t'
  {
    if s == [] then 0 else if s[0] == '\t' then 0 else 1 + Tab(s[1..])
  }

  function Before(s: string): string {
    s[..Tab(s)]
  }

  function After(s: string): Option<string> {
    if Tab(s) == |s| then None else Some(s[Tab(s) + 1..])
  }

  predicate NoTab(s: string) {
    forall i | 0 <= i < |s| :: s[i] != '\t'
  }

  lemma CutsField(s: string, rest: string)
    requires NoTab(s)
    ensures Before(s + "\t" + rest) == s && After(s + "\t" + rest) == Some(rest)
  {
    var t := s + "\t" + rest;
    assert t[|s|] == '\t';
    assert forall i | 0 <= i < |s| :: t[i] == s[i];
    assert Tab(t) == |s|;
    assert t[|s| + 1..] == rest;
  }

  /** `hash_assign` copies 64 characters. */
  function Hash64(s: string): string {
    if |s| > 64 then s[..64] else s
  }

  /** A line of the body: incomplete ones are skipped, unknown flags end the program. */
  datatype Read = Skipped | Aborted | Record(isManifest: bool, line: Line)

  function ParseLine(s: string): Read {
    match ParseFlags(Before(s))
    case None => Aborted
    case Some(e) =>
      match After(s)
      case None => Skipped
      case Some(a) =>
        match After(a)
        case None => Skipped
        case Some(b) =>
          match After(b)
          case None => Skipped
          case Some(name) =>
            Record(At(s, 0) == Some('M'),
                   (name, e.(hash := Hash64(Before(a)), lastChange := ToInt(Strtoull(Before(b))))))
  }

  function PrintLine(line: Line): string {
    TypeString(line.1) + "\t" + (line.1.hash + "\t" + (PrintInt(line.1.lastChange) + "\t" + line.0))
  }

  /** What a line needs to come back as it was. The name may hold tabs. */
  predicate Printable(line: Line) {
    && Unambiguous(line.1) && IsInt32(line.1.lastChange)
    && |line.1.hash| == 64 && NoTab(line.1.hash)
    && OneLine(PrintLine(line))
  }

  lemma DigitsNoTab(v: int)
    ensures NoTab(PrintInt(v))
  {
  }

  lemma TypeFirst(e: Entry)
    ensures NoTab(TypeString(e)) && TypeString(e) != [] && TypeString(e)[0] != 'M'
  {
  }

  lemma LineRoundTrip(line: Line)
    requires Printable(line)
    ensures ParseLine(PrintLine(line)) == Record(false, line)
  {
    hide PrintInt, Strtoull, ToInt, IsInt32, OneLine, Before, After, ParseFlags, Unambiguous, TypeString, NoTab;
    var e := line.1;
    FlagsRoundTrip(e);
    TypeFirst(e);
    IntRoundTrip(e.lastChange);
    DigitsNoTab(e.lastChange);
    var b := PrintInt(e.lastChange) + "\t" + line.0;
    var a := e.hash + "\t" + b;
    CutsField(TypeString(e), a);
    CutsField(e.hash, b);
    CutsField(PrintInt(e.lastChange), line.0);
    assert At(PrintLine(line), 0) == Some(TypeString(e)[0]);
  }

  /** What is kept of a nested manifest's record. */
  function Bare(line: Line): Line {
    (line.0, line.1.(isFile := false, isDir := false, isLink := false))
  }

  /** The line of a nested manifest: its first character tells it from a file's, whatever its type bits say. */
  function PrintNested(line: Line): string {
    TypeString(line.1)[0 := 'M'] + "\t" + (line.1.hash + "\t" + (PrintInt(line.1.lastChange) + "\t" + line.0))
  }

  predicate PrintableNested(line: Line) {
    && Unambiguous(Bare(line).1) && IsInt32(line.1.lastChange)
    && |line.1.hash| == 64 && NoTab(line.1.hash)
    && OneLine(PrintNested(line))
  }

  lemma NestedFlags(e: Entry)
    requires Unambiguous(e.(isFile := false, isDir := false, isLink := false))
    ensures TypeString(e) != []
    ensures ParseFlags(TypeString(e)[0 := 'M']) ==
      Some(e.(isFile := false, isDir := false, isLink := false, hash := "", lastChange := 0))
    ensures NoTab(TypeString(e)[0 := 'M'])
  {
  }

  lemma NestedRoundTrip(line: Line)
    requires PrintableNested(line)
    ensures ParseLine(PrintNested(line)) == Record(true, Bare(line))
  {
    hide PrintInt, Strtoull, ToInt, IsInt32, OneLine, Before, After, ParseFlags, Unambiguous, TypeString, NoTab;
    var e := line.1;
    NestedFlags(e);
    IntRoundTrip(e.lastChange);
    DigitsNoTab(e.lastChange);
    var b := PrintInt(e.lastChange) + "\t" + line.0;
    var a := e.hash + "\t" + b;
    CutsField(TypeString(e)[0 := 'M'], a);
    CutsField(e.hash, b);
    CutsField(PrintInt(e.lastChange), line.0);
    assert At(PrintNested(line), 0) == Some('M');
  }

  // ----- the body -----

  datatype Body = Body(files: seq<Line>, nested: seq<Line>, count: nat)

  /** The second loop of `manifest_from_file`. Every record is put in front. A nested manifest counts twice. */
  function ParseBody(text: string, b: Body): Option<Body>
    decreases |text|
  {
    if text == [] || FirstLine(text) == [] then Some(b)
    else
      match ParseLine(FirstLine(text))
      case Aborted => None
      case Skipped => ParseBody(AfterLine(text), b)
      case Record(true, line) => ParseBody(AfterLine(text), b.(nested := [line] + b.nested, count := b.count + 2))
      case Record(false, line) => ParseBody(AfterLine(text), b.(files := [line] + b.files, count := b.count + 1))
  }

  function Join(lines: seq<string>): string {
    if lines == [] then "" else lines[0] + "\n" + Join(lines[1..])
  }

  function PrintLines(lines: seq<Line>): (r: seq<string>)
    ensures |r| == |lines| && forall i | 0 <= i < |lines| :: r[i] == PrintLine(lines[i])
  {
    seq(|lines|, i requires 0 <= i < |lines| => PrintLine(lines[i]))
  }

  function PrintNesteds(nested: seq<Line>): (r: seq<string>)
    ensures |r| == |nested| && forall i | 0 <= i < |nested| :: r[i] == PrintNested(nested[i])
  {
    seq(|nested|, i requires 0 <= i < |nested| => PrintNested(nested[i]))
  }

  /** All in reverse: each record is put in front of those before it. */
  function Bares(nested: seq<Line>): (r: seq<Line>)
    ensures |r| == |nested| && forall i | 0 <= i < |nested| :: r[i] == Bare(nested[|nested| - 1 - i])
  {
    seq(|nested|, i requires 0 <= i < |nested| => Bare(nested[|nested| - 1 - i]))
  }

  lemma {:induction false} BodyRoundTrip(lines: seq<Line>, rest: string, b: Body)
    requires forall i | 0 <= i < |lines| :: Printable(lines[i])
    ensures ParseBody(Join(PrintLines(lines)) + rest, b) ==
      ParseBody(rest, b.(files := Reverse(lines) + b.files, count := b.count + |lines|))
    decreases |lines|
  {
    hide Printable, PrintLine, ParseLine, FirstLine, AfterLine;
    var printed := PrintLines(lines);
    if lines == [] {
      assert Join(printed) + rest == rest && Reverse(lines) + b.files == b.files;
    } else {
      var line := lines[0];
      var b' := b.(files := [line] + b.files, count := b.count + 1);
      assert printed[1..] == PrintLines(lines[1..]);
      assert Join(printed) + rest == PrintLine(line) + "\n" + (Join(printed[1..]) + rest);
      PrintedLine(line, Join(printed[1..]) + rest);
      BodyRoundTrip(lines[1..], rest, b');
      assert Reverse(lines[1..]) + ([line] + b.files) == Reverse(lines) + b.files;
    }
  }

  lemma {:induction false} NestedBody(nested: seq<Line>, b: Body)
    requires forall i | 0 <= i < |nested| :: PrintableNested(nested[i])
    ensures ParseBody(Join(PrintNesteds(nested)), b) ==
      Some(b.(nested := Bares(nested) + b.nested, count := b.count + 2 * |nested|))
    decreases |nested|
  {
    hide PrintableNested, PrintNested, ParseLine, FirstLine, AfterLine, Bare;
    var printed := PrintNesteds(nested);
    if nested == [] {
      assert Join(printed) == "" && Bares(nested) + b.nested == b.nested;
    } else {
      var line := nested[0];
      var b' := b.(nested := [Bare(line)] + b.nested, count := b.count + 2);
      assert printed[1..] == PrintNesteds(nested[1..]);
      PrintedNested(line, Join(printed[1..]));
      NestedBody(nested[1..], b');
      assert Bares(nested[1..]) + ([Bare(line)] + b.nested) == Bares(nested) + b.nested;
    }
  }

  lemma PrintedNested(line: Line, rest: string)
    requires PrintableNested(line)
    ensures var text := PrintNested(line) + "\n" + rest;
      text != [] && FirstLine(text) != [] && ParseLine(FirstLine(text)) == Record(true, Bare(line)) &&
        AfterLine(text) == rest
  {
    hide ParseLine, FirstLine, AfterLine;
    NestedRoundTrip(line);
    ReadsLine(PrintNested(line), rest);
  }

  lemma PrintedLine(line: Line, rest: string)
    requires Printable(line)
    ensures var text := PrintLine(line) + "\n" + rest;
      text != [] && FirstLine(text) != [] && ParseLine(FirstLine(text)) == Record(false, line) &&
        AfterLine(text) == rest
  {
    hide ParseLine, FirstLine, AfterLine;
    LineRoundTrip(line);
    ReadsLine(PrintLine(line), rest);
  }

  // ----- the header -----

  /** What the parser keeps of the header. */
  datatype Head = Head(version: int, previous: int, includes: seq<string>)

  /** One header line: without a tab the program ends. */
  function HeadLine(h: Head, line: string): Option<Head> {
    match After(line)
    case None => None
    case Some(c) =>
      var h1 := if "version:" <= line then h.(version := ToInt(Strtoull(c))) else h;
      var h2 := if "previous:" <= line then h1.(previous := ToInt(Strtoull(c))) else h1;
      Some(if "includes:" <= line then h2.(includes := [c] + h2.includes) else h2)
  }

  /** The first loop of `manifest_from_file`: up to the empty line. */
  function ParseHead(text: string, h: Head): Option<(Head, string)>
    decreases |text|
  {
    if text == [] then Some((h, []))
    else if FirstLine(text) == [] then Some((h, AfterLine(text)))
    else
      match HeadLine(h, FirstLine(text))
      case None => None
      case Some(h') => ParseHead(AfterLine(text), h')
  }

  function FoldHead(lines: seq<string>, h: Head): Head
    decreases |lines|
  {
    if lines == [] then h
    else FoldHead(lines[1..], match HeadLine(h, lines[0]) case Some(h') => h' case None => h)
  }

  predicate HeaderLine(line: string) {
    OneLine(line) && line != [] && After(line).Some?
  }

  lemma {:induction false} HeadOfJoin(lines: seq<string>, body: string, h: Head)
    requires forall i | 0 <= i < |lines| :: HeaderLine(lines[i])
    ensures ParseHead(Join(lines) + ("\n" + body), h) == Some((FoldHead(lines, h), body))
    decreases |lines|
  {
    hide FirstLine, AfterLine, HeadLine;
    var text := Join(lines) + ("\n" + body);
    if lines == [] {
      assert text == [] + "\n" + body;
      ReadsLine([], body);
    } else {
      var rest := Join(lines[1..]) + ("\n" + body);
      assert text == lines[0] + "\n" + rest;
      ReadsLine(lines[0], rest);
      assert HeadLine(h, lines[0]).Some? by { HasTab(h, lines[0]); }
      HeadOfJoin(lines[1..], body, HeadLine(h, lines[0]).value);
    }
  }

  lemma HasTab(h: Head, line: string)
    requires After(line).Some?
    ensures HeadLine(h, line).Some?
  {
  }

  const KEYS: set<string> := {"version:", "previous:", "filecount:", "timestamp:", "contentsize:", "status:",
      "includes:", "actions:"}

  function Field(key: string, value: string): string {
    key + "\t" + value
  }

  lemma FieldIs(h: Head, key: string, value: string)
    requires key in KEYS
    ensures After(Field(key, value)) == Some(value) && Field(key, value) != []
    ensures HeadLine(h, Field(key, value)) == Some(
      if key == "version:" then h.(version := ToInt(Strtoull(value)))
      else if key == "previous:" then h.(previous := ToInt(Strtoull(value)))
      else if key == "includes:" then h.(includes := [value] + h.includes) else h)
  {
    hide Strtoull, ToInt, After;
    assert NoTab(key);
    CutsField(key, value);
    var l := Field(key, value);
    assert l[0] == key[0];
    assert key <= l;
    assert key != "version:" ==> !("version:" <= l) by { assert "version:"[0] == 'v'; }
    assert key != "previous:" ==> !("previous:" <= l) by { assert "previous:"[0] == 'p'; }
    assert key != "includes:" ==> !("includes:" <= l) by { assert "includes:"[0] == 'i'; }
  }

  // ----- the whole file -----

  datatype Header = Header(
    format: nat, version: int, previous: int, count: int, timestamp: int, contentSize: nat,
    status: Option<string>, includes: seq<string>, actions: seq<string>)

  function Fields(key: string, values: seq<string>): (r: seq<string>)
    ensures |r| == |values| && forall i | 0 <= i < |values| :: r[i] == Field(key, values[i])
  {
    seq(|values|, i requires 0 <= i < |values| => Field(key, values[i]))
  }

  /** The header lines after the first one. */
  function HeaderLines(h: Header): seq<string> {
    [Field("version:", PrintInt(h.version)), Field("previous:", PrintInt(h.previous)),
     Field("filecount:", PrintInt(h.count)),
     Field("timestamp:", PrintInt(h.timestamp)), Field("contentsize:", Digits(h.contentSize))]
    + Fields("status:", if h.status.Some? then [h.status.value] else [])
    + Fields("includes:", h.includes)
    + Fields("actions:", h.actions)
  }

  /** `write_manifest_plain`: the header, the files and the nested manifests. */
  function Print(h: Header, lines: seq<Line>, nested: seq<Line>): string {
    "MANIFEST\t" + Digits(h.format) + "\n" +
      (Join(HeaderLines(h)) + ("\n" + (Join(PrintLines(lines)) + Join(PrintNesteds(nested)))))
  }

  function LineKeyed(lines: seq<Line>): (r: seq<(FilenameKey, Line)>)
    ensures |r| == |lines| && forall i | 0 <= i < |lines| :: r[i] == ((lines[i].0, lines[i].1.isDeleted), lines[i])
  {
    seq(|lines|, i requires 0 <= i < |lines| => ((lines[i].0, lines[i].1.isDeleted), lines[i]))
  }

  function SortLines(lines: seq<Line>): seq<Line> {
    Seconds(Sort(LineKeyed(lines), FilenameLe))
  }

  /** No manifest, the end of the program, or a manifest. */
  datatype Parsed = Unreadable | Crashed
    | Parsed(format: nat, version: int, previous: int, includes: seq<string>, files: seq<Line>, nested: seq<Line>,
        count: nat)

  /** `manifest_from_file` on the contents of an existing file. */
  function Parse(text: string, version: int): Parsed {
    if text == [] || !("MANIFEST\t" <= FirstLine(text)) then Unreadable else
      var format := Strtoull(FirstLine(text)[9..]);
      if format == 0 then Unreadable else
        match ParseHead(AfterLine(text), Head(version, 0, []))
        case None => Crashed
        case Some((h, rest)) =>
          match ParseBody(rest, Body([], [], 0))
          case None => Crashed
          case Some(b) => Parsed(format, h.version, h.previous, h.includes, SortLines(b.files), b.nested, b.count)
  }

  /** What a header needs to come back as it was. */
  predicate PrintableHeader(h: Header) {
    && 0 < h.format < TWO_TO_64 && IsInt32(h.version) && IsInt32(h.previous)
    && OneLine("MANIFEST\t" + Digits(h.format))
    && forall i | 0 <= i < |HeaderLines(h)| :: OneLine(HeaderLines(h)[i])
  }

  lemma {:induction false} FoldAppends(a: seq<string>, b: seq<string>, h: Head)
    ensures FoldHead(a + b, h) == FoldHead(b, FoldHead(a, h))
    decreases |a|
  {
    hide HeadLine;
    if a == [] {
      assert a + b == b;
    } else {
      assert (a + b)[1..] == a[1..] + b;
      FoldAppends(a[1..], b, match HeadLine(h, a[0]) case Some(h') => h' case None => h);
    }
  }

  lemma {:induction false} FoldFields(key: string, values: seq<string>, h: Head)
    requires key in KEYS && key != "version:" && key != "previous:"
    ensures FoldHead(Fields(key, values), h)
         == if key == "includes:" then h.(includes := Reverse(values) + h.includes) else h
    decreases |values|
  {
    hide HeadLine, Field;
    if values == [] {
      assert Reverse(values) + h.includes == h.includes;
    } else {
      FieldIs(h, key, values[0]);
      assert Fields(key, values)[1..] == Fields(key, values[1..]);
      var h' := if key == "includes:" then h.(includes := [values[0]] + h.includes) else h;
      FoldFields(key, values[1..], h');
      assert Reverse(values[1..]) + ([values[0]] + h.includes) == Reverse(values) + h.includes;
    }
  }

  lemma FoldTwo(key: string, value: string, rest: seq<string>, h: Head)
    requires key in KEYS
    ensures HeadLine(h, Field(key, value)).Some?
    ensures FoldHead([Field(key, value)] + rest, h) == FoldHead(rest, HeadLine(h, Field(key, value)).value)
  {
    hide HeadLine, Field;
    FieldIs(h, key, value);
    assert ([Field(key, value)] + rest)[1..] == rest;
  }

  lemma {:induction false} FoldNumbers(h: Header, rest: seq<string>, h0: Head)
    requires IsInt32(h.version) && IsInt32(h.previous)
    ensures FoldHead([Field("version:", PrintInt(h.version)), Field("previous:", PrintInt(h.previous)),
                      Field("filecount:", PrintInt(h.count)), Field("timestamp:", PrintInt(h.timestamp)),
                      Field("contentsize:", Digits(h.contentSize))] + rest, h0)
         == FoldHead(rest, h0.(version := h.version, previous := h.previous))
  {
    hide HeadLine, Field, PrintInt, Strtoull, ToInt, IsInt32, Digits, FoldHead;
    var a, b, c, d, e := Field("version:", PrintInt(h.version)), Field("previous:", PrintInt(h.previous)),
      Field("filecount:", PrintInt(h.count)), Field("timestamp:", PrintInt(h.timestamp)),
      Field("contentsize:", Digits(h.contentSize));
    IntRoundTrip(h.version);
    IntRoundTrip(h.previous);
    var h1 := h0.(version := h.version);
    var h2 := h1.(previous := h.previous);
    FieldIs(h0, "version:", PrintInt(h.version));
    FieldIs(h1, "previous:", PrintInt(h.previous));
    FieldIs(h2, "filecount:", PrintInt(h.count));
    FieldIs(h2, "timestamp:", PrintInt(h.timestamp));
    FieldIs(h2, "contentsize:", Digits(h.contentSize));
    FoldTwo("contentsize:", Digits(h.contentSize), rest, h2);
    FoldTwo("timestamp:", PrintInt(h.timestamp), [e] + rest, h2);
    FoldTwo("filecount:", PrintInt(h.count), [d] + ([e] + rest), h2);
    FoldTwo("previous:", PrintInt(h.previous), [c] + ([d] + ([e] + rest)), h1);
    FoldTwo("version:", PrintInt(h.version), [b] + ([c] + ([d] + ([e] + rest))), h0);
    assert [a, b, c, d, e] + rest == [a] + ([b] + ([c] + ([d] + ([e] + rest))));
  }

  lemma HeaderFolds(h: Header, version: int)
    requires IsInt32(h.version) && IsInt32(h.previous)
    ensures FoldHead(HeaderLines(h), Head(version, 0, [])) == Head(h.version, h.previous, Reverse(h.includes))
  {
    hide FoldHead, Field, PrintInt, Digits, IsInt32;
    var status, includes, actions := Fields("status:", if h.status.Some? then [h.status.value] else []),
        Fields("includes:", h.includes), Fields("actions:", h.actions);
    var h0, h1 := Head(version, 0, []), Head(h.version, h.previous, []);
    FoldNumbers(h, status + (includes + actions), h0);
    assert HeaderLines(h) ==
      [Field("version:", PrintInt(h.version)), Field("previous:", PrintInt(h.previous)),
       Field("filecount:", PrintInt(h.count)), Field("timestamp:", PrintInt(h.timestamp)),
       Field("contentsize:", Digits(h.contentSize))] + (status + (includes + actions));
    FoldAppends(status, includes + actions, h1);
    FoldFields("status:", if h.status.Some? then [h.status.value] else [], h1);
    FoldAppends(includes, actions, h1);
    FoldFields("includes:", h.includes, h1);
    var h2 := h1.(includes := Reverse(h.includes) + []);
    assert Reverse(h.includes) + [] == Reverse(h.includes);
    FoldFields("actions:", h.actions, h2);
  }

  lemma HeaderLinesHaveTabs(h: Header)
    requires PrintableHeader(h)
    ensures forall i | 0 <= i < |HeaderLines(h)| :: HeaderLine(HeaderLines(h)[i])
  {
    hide Field, PrintInt, Digits, OneLine, IsInt32, After;
    var lines := HeaderLines(h);
    forall i | 0 <= i < |lines|
      ensures HeaderLine(lines[i])
    {
      var key, value := FieldAt(h, i);
      FieldIs(Head(0, 0, []), key, value);
    }
  }

  lemma FieldAt(h: Header, i: nat) returns (key: string, value: string)
    requires i < |HeaderLines(h)|
    ensures key in KEYS && HeaderLines(h)[i] == Field(key, value)
  {
    hide Field, PrintInt, Digits;
    var status := if h.status.Some? then [h.status.value] else [];
    if i < 5 {
      key := ["version:", "previous:", "filecount:", "timestamp:", "contentsize:"][i];
      value := [PrintInt(h.version), PrintInt(h.previous), PrintInt(h.count), PrintInt(h.timestamp),
          Digits(h.contentSize)][i];
    } else if i < 5 + |status| {
      key, value := "status:", status[i - 5];
    } else if i < 5 + |status| + |h.includes| {
      key, value := "includes:", h.includes[i - 5 - |status|];
    } else {
      key, value := "actions:", h.actions[i - 5 - |status| - |h.includes|];
    }
  }

  /** Any text under a header that fits. */
  lemma ReadsBelow(h: Header, body: string, version: int)
    requires PrintableHeader(h)
    ensures Parse("MANIFEST\t" + Digits(h.format) + "\n" + (Join(HeaderLines(h)) + ("\n" + body)), version) ==
      (match ParseBody(body, Body([], [], 0))
       case None => Crashed
       case Some(b) =>
         Parsed(h.format, h.version, h.previous, Reverse(h.includes), SortLines(b.files), b.nested, b.count))
  {
    hide FirstLine, AfterLine, Strtoull, HeaderLines, SortLines, OneLine, IsInt32, Digits, ParseBody;
    var first := "MANIFEST\t" + Digits(h.format);
    ReadsLine(first, Join(HeaderLines(h)) + ("\n" + body));
    assert first[9..] == Digits(h.format);
    NatRoundTrip(h.format);
    HeaderLinesHaveTabs(h);
    HeadOfJoin(HeaderLines(h), body, Head(version, 0, []));
    HeaderFolds(h, version);
  }

  /** Reading a written manifest gives back its header, the includes in reverse order, every entry, sorted by name,
      and the nested manifests, the last one first: nothing is lost, added or changed, even if names hold tabs. */
  lemma RoundTrip(h: Header, lines: seq<Line>, nested: seq<Line>, version: int)
    requires PrintableHeader(h) && forall i | 0 <= i < |lines| :: Printable(lines[i])
    requires forall i | 0 <= i < |nested| :: PrintableNested(nested[i])
    ensures Parse(Print(h, lines, nested), version)
         == Parsed(h.format, h.version, h.previous, Reverse(h.includes), SortLines(Reverse(lines)), Bares(nested),
                   |lines| + 2 * |nested|)
    ensures multiset(SortLines(Reverse(lines))) == multiset(lines)
    ensures var r := SortLines(Reverse(lines));
      forall i, j | 0 <= i < j < |r| :: FilenameLe((r[i].0, r[i].1.isDeleted), (r[j].0, r[j].1.isDeleted))
  {
    hide Printable, PrintLine, PrintableNested, PrintNested, HeaderLines, SortLines, FilenameLe, PrintableHeader, Parse,
      ParseBody;
    ReadsBelow(h, Join(PrintLines(lines)) + Join(PrintNesteds(nested)), version);
    BodyRoundTrip(lines, Join(PrintNesteds(nested)), Body([], [], 0));
    assert Reverse(lines) + [] == Reverse(lines);
    NestedBody(nested, Body(Reverse(lines), [], |lines|));
    assert Bares(nested) + [] == Bares(nested);
    SortedReversed(lines);
  }

  // ----- texts that are not as they are written -----

  /** An incomplete line: the flags alone, or with one or two fields. */
  function Incomplete(flags: string, fields: seq<string>): string {
    if |fields| == 0 then flags
    else if |fields| == 1 then flags + "\t" + fields[0] else flags + "\t" + (fields[0] + "\t" + fields[1])
  }

  predicate KnownFlags(flags: string) {
    |flags| >= 3 && flags[0] in "FDL.M" && flags[1] in "dg." && flags[2] in "Csb."
  }

  lemma NoFieldAfter(s: string)
    requires NoTab(s)
    ensures Before(s) == s && After(s) == None
  {
  }

  lemma IncompleteIs(flags: string, fields: seq<string>)
    requires NoTab(flags) && |fields| <= 2 && forall i | 0 <= i < |fields| :: NoTab(fields[i])
    ensures ParseLine(Incomplete(flags, fields)) == if KnownFlags(flags) then Skipped else Aborted
  {
    hide Before, After, NoTab, Strtoull, ToInt;
    if |fields| == 0 {
      NoFieldAfter(flags);
    } else if |fields| == 1 {
      CutsField(flags, fields[0]);
      NoFieldAfter(fields[0]);
    } else {
      CutsField(flags, fields[0] + "\t" + fields[1]);
      CutsField(fields[0], fields[1]);
      NoFieldAfter(fields[1]);
    }
  }

  /** An incomplete line below the records is passed over if its flags are known, and ends the program if not. */
  lemma IncompleteLine(h: Header, lines: seq<Line>, flags: string, fields: seq<string>, version: int)
    requires PrintableHeader(h) && forall i | 0 <= i < |lines| :: Printable(lines[i])
    requires NoTab(flags) && |fields| <= 2 && forall i | 0 <= i < |fields| :: NoTab(fields[i])
    requires flags != [] && OneLine(Incomplete(flags, fields))
    ensures Parse(Print(h, lines, []) + (Incomplete(flags, fields) + "\n"), version) ==
      if KnownFlags(flags) then Parse(Print(h, lines, []), version) else Crashed
  {
    hide Printable, PrintLine, HeaderLines, SortLines, PrintableHeader, Parse, OneLine, NoTab, ParseLine, FirstLine,
      AfterLine, KnownFlags, Incomplete;
    var line := Incomplete(flags, fields);
    var records := Join(PrintLines(lines));
    assert PrintNesteds([]) == [];
    assert records + "" == records;
    var tail := line + "\n";
    assert Print(h, lines, []) + tail ==
      "MANIFEST\t" + Digits(h.format) + "\n" + (Join(HeaderLines(h)) + ("\n" + (records + tail)));
    ReadsBelow(h, records + tail, version);
    ReadsBelow(h, records, version);
    BodyRoundTrip(lines, tail, Body([], [], 0));
    BodyRoundTrip(lines, "", Body([], [], 0));
    assert tail == line + "\n" + "";
    ReadsLine(line, "");
    IncompleteIs(flags, fields);
    assert line != [] by { IncompleteNotEmpty(flags, fields); }
  }

  lemma IncompleteNotEmpty(flags: string, fields: seq<string>)
    requires flags != []
    ensures Incomplete(flags, fields) != []
  {
  }

  /** A header line without a tab ends the program. */
  lemma HeaderWithoutTab(format: nat, line: string, rest: string, version: int)
    requires 0 < format < TWO_TO_64 && OneLine("MANIFEST\t" + Digits(format))
    requires OneLine(line) && line != [] && NoTab(line)
    ensures Parse("MANIFEST\t" + Digits(format) + "\n" + (line + "\n" + rest), version) == Crashed
  {
    hide FirstLine, AfterLine, Strtoull, OneLine, Digits, ParseBody, NoTab;
    var first := "MANIFEST\t" + Digits(format);
    ReadsLine(first, line + "\n" + rest);
    assert first[9..] == Digits(format);
    NatRoundTrip(format);
    ReadsLine(line, rest);
    NoFieldAfter(line);
  }

  /** A text that does not begin with the format line, or whose format is 0 or no number, is no manifest. */
  lemma NoManifest(text: string, format: string, rest: string, version: int)
    requires OneLine("MANIFEST\t" + format)
    requires || format == [] || format == "0"
             || (format[0] !in " \t\n\r\U{b}\U{c}" && format[0] !in "+-" && !IsDigit(format[0]))
    ensures !("MANIFEST\t" <= text) ==> Parse(text, version) == Unreadable
    ensures Parse("MANIFEST\t" + format + "\n" + rest, version) == Unreadable
  {
    hide OneLine, ParseBody, ParseHead;
    var first := "MANIFEST\t" + format;
    ReadsLine(first, rest);
    assert first[9..] == format;
    NoNumber(format);
    assert FirstLine(text) <= text;
  }

  lemma NoNumber(s: string)
    requires s == [] || s == "0" || (s[0] !in " \t\n\r\U{b}\U{c}" && s[0] !in "+-" && !IsDigit(s[0]))
    ensures Strtoull(s) == 0
  {
    if s == "0" {
      assert s[0] == '0' && s[1..] == [];
      assert SkipSpaces(s) == s && Value(s[1..], 0) == 0;
      assert Value(s, 0) == 0;
    } else {
      assert SkipSpaces(s) == s;
      assert Value(s, 0) == 0;
    }
  }

  lemma SortedReversed(lines: seq<Line>)
    ensures multiset(SortLines(Reverse(lines))) == multiset(lines)
    ensures var r := SortLines(Reverse(lines));
      forall i, j | 0 <= i < j < |r| :: FilenameLe((r[i].0, r[i].1.isDeleted), (r[j].0, r[j].1.isDeleted))
  {
    hide FilenameLe;
    FilenameLeIsTotal();
    var keyed := LineKeyed(Reverse(lines));
    var sorted := Sort(keyed, FilenameLe);
    SortIsStable(keyed, FilenameLe);
    SortMapped(keyed, FilenameLe, (l: Line) => l);
    assert Mapped(keyed, (l: Line) => l) == Reverse(lines);
    assert Mapped(sorted, (l: Line) => l) == SortLines(Reverse(lines));
    ReversedSame(lines);
    Permuted(sorted, keyed);
    forall i | 0 <= i < |sorted|
      ensures sorted[i].0 == (sorted[i].1.0, sorted[i].1.1.isDeleted)
    {
      assert sorted[i] in keyed;
    }
  }

  lemma {:induction false} ReversedSame(lines: seq<Line>)
    ensures multiset(Reverse(lines)) == multiset(lines)
  {
    if lines != [] {
      ReversedSame(lines[1..]);
      assert Reverse(lines) == Reverse(lines[1..]) + [lines[0]];
      assert lines == [lines[0]] + lines[1..];
    }
  }

  // ----- what cannot come back, and what always does -----

  /** The stored count is the number of records exactly when no manifest is nested: those count twice. */
  lemma {:induction false} CountOfBody(text: string, b: Body)
    ensures var r := ParseBody(text, b);
      r.Some? ==> r.value.count - b.count == (|r.value.files| - |b.files|) + 2 * (|r.value.nested| - |b.nested|)
    decreases |text|
  {
    hide ParseLine, FirstLine, AfterLine;
    if text != [] && FirstLine(text) != [] {
      AfterIsShorter(text);
      match ParseLine(FirstLine(text))
      case Aborted =>
      case Skipped => CountOfBody(AfterLine(text), b);
      case Record(true, line) => CountOfBody(AfterLine(text), b.(nested := [line] + b.nested, count := b.count + 2));
      case Record(false, line) => CountOfBody(AfterLine(text), b.(files := [line] + b.files, count := b.count + 1));
    }
  }

  lemma AfterIsShorter(text: string)
    requires text != []
    ensures |AfterLine(text)| < |text|
  {
  }

  lemma ParsedName(line: string)
    requires ParseLine(line).Record? && forall i | 0 <= i < |line| :: line[i] != '\n'
    ensures |ParseLine(line).line.0| < |line| && forall i | 0 <= i < |ParseLine(line).line.0| ::
      ParseLine(line).line.0[i] != '\n'
  {
    hide ParseFlags, Strtoull, ToInt;
    var a := After(line).value;
    var b := After(a).value;
  }

  /** A name with a newline, or longer than the line buffer, is never read: the two conditions on names
      in `Printable` cannot be dropped. */
  lemma {:induction false} NamesThatComeBack(text: string, b: Body)
    requires forall i | 0 <= i < |b.files| :: OneLine(b.files[i].0)
    ensures var r := ParseBody(text, b); r.Some? ==> forall i | 0 <= i < |r.value.files| :: OneLine(r.value.files[i].0)
    decreases |text|
  {
    hide ParseLine, FirstLine, AfterLine;
    if text != [] && FirstLine(text) != [] {
      AfterIsShorter(text);
      LinesAreShort(text);
      match ParseLine(FirstLine(text))
      case Aborted =>
      case Skipped => NamesThatComeBack(AfterLine(text), b);
      case Record(true, line) =>
        NamesThatComeBack(AfterLine(text), b.(nested := [line] + b.nested, count := b.count + 2));
      case Record(false, line) =>
        ParsedName(FirstLine(text));
        NamesThatComeBack(AfterLine(text), b.(files := [line] + b.files, count := b.count + 1));
    }
  }

  /** A line that fills the buffer is cut there, and what follows is read as the next line. */
  lemma LongLine(text: string)
    requires |text| >= 8190 && forall i | 0 <= i < 8190 :: text[i] != '\n'
    ensures FirstLine(text) == text[..8190] && AfterLine(text) == text[8190..]
  {
    hide Chomp;
    Filled(text, LIMIT);
    assert text[..8190][8189] == text[8189];
    NothingChomped(text[..8190]);
  }

  lemma NothingChomped(line: string)
    requires line != [] && line[|line| - 1] != '\n'
    ensures Chomp(line) == line
  {
  }

  lemma {:induction false} Filled(text: string, limit: nat)
    requires |text| >= limit && forall i | 0 <= i < limit :: text[i] != '\n'
    ensures LineLength(text, limit) == limit
    decreases limit
  {
    if limit > 0 {
      Filled(text[1..], limit - 1);
    }
  }

  /** A number is read after blanks and a sign, up to the first character that is no digit; one that is too large is
      read as the largest. */
  lemma NumberIsRead(blanks: string, sign: string, n: nat, rest: string)
    requires (forall i | 0 <= i < |blanks| :: blanks[i] in " \t\n\r\U{b}\U{c}") && sign in {"", "+", "-"}
    requires rest != [] ==> !IsDigit(rest[0])
    ensures Strtoull(blanks + (sign + (Digits(n) + rest))) ==
      if n > 18446744073709551615 then 18446744073709551615
      else if sign == "-" && n > 0 then 18446744073709551616 - n else n
  {
    hide Digits, Value, SkipSpaces;
    var digits := Digits(n) + rest;
    var t := sign + digits;
    assert IsDigit(digits[0]);
    ValueOfDigits(n);
    ValueStops(Digits(n), rest, 0);
    BlanksSkipped(blanks, t);
    if sign == "" {
      assert t == digits;
    } else {
      assert t[1..] == digits;
    }
  }

  lemma {:induction false} ValueStops(s: string, rest: string, acc: nat)
    requires (forall i | 0 <= i < |s| :: IsDigit(s[i])) && (rest != [] ==> !IsDigit(rest[0]))
    ensures Value(s + rest, acc) == Value(s, acc)
    decreases |s|
  {
    if s == [] {
      assert s + rest == rest;
    } else {
      assert (s + rest)[1..] == s[1..] + rest;
      ValueStops(s[1..], rest, 10 * acc + (s[0] as nat - '0' as nat));
    }
  }

  lemma {:induction false} BlanksSkipped(blanks: string, t: string)
    requires forall i | 0 <= i < |blanks| :: blanks[i] in " \t\n\r\U{b}\U{c}"
    requires t == [] || t[0] in "+-0123456789"
    ensures SkipSpaces(blanks + t) == t
    decreases |blanks|
  {
    if blanks == [] {
      assert blanks + t == t;
    } else {
      assert (blanks + t)[1..] == blanks[1..] + t;
      BlanksSkipped(blanks[1..], t);
    }
  }

  /** Of a longer hash the first 64 characters are kept; and flags are read exactly where the first three letters are
      known. */
  lemma ReadFields(flags: string, hash: string, v: int, name: string)
    requires NoTab(flags) && NoTab(hash) && |hash| >= 64 && IsInt32(v)
    ensures var known := |flags| >= 3 && flags[0] in "FDL.M" && flags[1] in "dg." && flags[2] in "Csb.";
      match ParseLine(flags + "\t" + (hash + "\t" + (PrintInt(v) + "\t" + name)))
      case Aborted => !known
      case Skipped => false
      case Record(isManifest, line) =>
        known && line.0 == name && line.1.hash == hash[..64] && line.1.lastChange == v &&
          (isManifest <==> flags[0] == 'M')
  {
    hide PrintInt, Strtoull, ToInt, IsInt32, OneLine, Before, After, NoTab;
    IntRoundTrip(v);
    DigitsNoTab(v);
    var b := PrintInt(v) + "\t" + name;
    var a := hash + "\t" + b;
    CutsField(flags, a);
    CutsField(hash, b);
    CutsField(PrintInt(v), name);
    assert hash[..64] == Hash64(hash);
    assert flags != [] ==> At(flags + "\t" + a, 0) == Some(flags[0]);
  }

  // ----- the loops -----

  /** The header loop: an empty result is the end of the program. */
  method ReadHead(text: string, version: int) returns (r: Option<(Head, string)>)
    ensures r == ParseHead(text, Head(version, 0, []))
  {
    hide FirstLine, AfterLine, Strtoull, ToInt;
    var h, rest := Head(version, 0, []), text;
    while rest != []
      invariant ParseHead(rest, h) == ParseHead(text, Head(version, 0, []))
      decreases |rest|
    {
      AfterIsShorter(rest);
      var line := FirstLine(rest);
      if line == [] {
        return Some((h, AfterLine(rest)));
      }
      var c := After(line);
      if c == None {
        return None;
      }
      var h' := h;
      if "version:" <= line {
        h' := h'.(version := ToInt(Strtoull(c.value)));
      }
      if "previous:" <= line {
        h' := h'.(previous := ToInt(Strtoull(c.value)));
      }
      if "includes:" <= line {
        h' := h'.(includes := [c.value] + h'.includes);
      }
      assert HeadLine(h, line) == Some(h');
      h, rest := h', AfterLine(rest);
    }
    return Some((h, []));
  }

  /** The loop over the records. */
  method ReadBody(text: string) returns (r: Option<Body>)
    ensures r == ParseBody(text, Body([], [], 0))
  {
    hide FirstLine, AfterLine, ParseLine;
    var b, rest := Body([], [], 0), text;
    while rest != []
      invariant ParseBody(rest, b) == ParseBody(text, Body([], [], 0))
      decreases |rest|
    {
      AfterIsShorter(rest);
      var line := FirstLine(rest);
      if line == [] {
        break;
      }
      match ParseLine(line) {
        case Aborted => return None;
        case Skipped =>
        case Record(isManifest, record) =>
          if isManifest {
            b := b.(nested := [record] + b.nested, count := b.count + 1);
          } else {
            b := b.(files := [record] + b.files);
          }
          b := b.(count := b.count + 1);
      }
      rest := AfterLine(rest);
    }
    return Some(b);
  }

  /** `manifest_from_file`. */
  method ManifestFromFile(text: string, version: int) returns (r: Parsed)
    ensures r == Parse(text, version)
  {
    hide FirstLine, AfterLine, Strtoull, ParseHead, ParseBody;
    if text == [] || !("MANIFEST\t" <= FirstLine(text)) {
      return Unreadable;
    }
    var format := Strtoull(FirstLine(text)[9..]);
    if format == 0 {
      return Unreadable;
    }
    var head := ReadHead(AfterLine(text), version);
    if head == None {
      return Crashed;
    }
    var body := ReadBody(head.value.1);
    if body == None {
      return Crashed;
    }
    var h := head.value.0;
    return Parsed(format, h.version, h.previous, h.includes, SortLines(body.value.files), body.value.nested,
        body.value.count);
  }

  lemma {:induction false} JoinAppends(a: seq<string>, b: seq<string>)
    ensures Join(a + b) == Join(a) + Join(b)
    decreases |a|
  {
    if a == [] {
      assert a + b == b;
    } else {
      assert (a + b)[1..] == a[1..] + b;
      JoinAppends(a[1..], b);
    }
  }

  /** The `fprintf` loops. */
  method PrintFields(out: string, key: string, values: seq<string>) returns (r: string)
    ensures r == out + Join(Fields(key, values))
  {
    r := out;
    for k := 0 to |values|
      invariant r == out + Join(Fields(key, values[..k]))
    {
      assert Fields(key, values[..k + 1]) == Fields(key, values[..k]) + [Field(key, values[k])];
      JoinAppends(Fields(key, values[..k]), [Field(key, values[k])]);
      assert Join([Field(key, values[k])]) == Field(key, values[k]) + "\n";
      r := r + (Field(key, values[k]) + "\n");
    }
    assert values[..|values|] == values;
  }

  method PrintFiles(out: string, lines: seq<Line>) returns (r: string)
    ensures r == out + Join(PrintLines(lines))
  {
    hide PrintLine;
    r := out;
    for k := 0 to |lines|
      invariant r == out + Join(PrintLines(lines[..k]))
    {
      assert PrintLines(lines[..k + 1]) == PrintLines(lines[..k]) + [PrintLine(lines[k])];
      JoinAppends(PrintLines(lines[..k]), [PrintLine(lines[k])]);
      assert Join([PrintLine(lines[k])]) == PrintLine(lines[k]) + "\n";
      r := r + (PrintLine(lines[k]) + "\n");
    }
    assert lines[..|lines|] == lines;
  }

  method PrintManifests(out: string, nested: seq<Line>) returns (r: string)
    ensures r == out + Join(PrintNesteds(nested))
  {
    hide PrintNested;
    r := out;
    for k := 0 to |nested|
      invariant r == out + Join(PrintNesteds(nested[..k]))
    {
      assert PrintNesteds(nested[..k + 1]) == PrintNesteds(nested[..k]) + [PrintNested(nested[k])];
      JoinAppends(PrintNesteds(nested[..k]), [PrintNested(nested[k])]);
      assert Join([PrintNested(nested[k])]) == PrintNested(nested[k]) + "\n";
      r := r + (PrintNested(nested[k]) + "\n");
    }
    assert nested[..|nested|] == nested;
  }

  /** The header, up to the empty line. */
  method PrintHeader(h: Header) returns (out: string)
    ensures out == "MANIFEST\t" + Digits(h.format) + "\n" + Join(HeaderLines(h))
  {
    hide Join, Fields, Field, PrintInt, Digits, HeaderLines;
    out := "MANIFEST\t" + Digits(h.format) + "\n";
    var fields := PrintFields([], "version:", [PrintInt(h.version)]);
    fields := PrintFields(fields, "previous:", [PrintInt(h.previous)]);
    fields := PrintFields(fields, "filecount:", [PrintInt(h.count)]);
    fields := PrintFields(fields, "timestamp:", [PrintInt(h.timestamp)]);
    fields := PrintFields(fields, "contentsize:", [Digits(h.contentSize)]);
    if h.status.Some? {
      fields := PrintFields(fields, "status:", [h.status.value]);
    }
    fields := PrintFields(fields, "includes:", h.includes);
    fields := PrintFields(fields, "actions:", h.actions);
    HeaderJoined(h);
    out := out + fields;
  }

  /** `write_manifest_plain`, with the hashes of the nested manifests as the original has computed them. */
  method WriteManifestPlain(h: Header, lines: seq<Line>, nested: seq<Line>) returns (out: string)
    ensures out == Print(h, lines, nested)
  {
    hide Join, HeaderLines, PrintLines, PrintNesteds, PrintInt, Digits;
    out := PrintHeader(h);
    out := out + "\n";
    out := PrintFiles(out, lines);
    out := PrintManifests(out, nested);
  }

  function Subversion(nested: seq<Line>, group: string): int {
    if nested == [] then 0
    else if nested[0].0 == group then nested[0].1.lastChange else Subversion(nested[1..], group)
  }

  /** `manifest_subversion`: the release of the first nested manifest of that name, or 0. */
  method ManifestSubversion(nested: seq<Line>, group: string) returns (v: int)
    ensures if exists i | 0 <= i < |nested| :: nested[i].0 == group
      then exists i | 0 <= i < |nested| ::
        nested[i].0 == group && v == nested[i].1.lastChange && forall j | 0 <= j < i :: nested[j].0 != group
      else v == 0
    ensures v == Subversion(nested, group)
  {
    for k := 0 to |nested|
      invariant forall j | 0 <= j < k :: nested[j].0 != group
      invariant Subversion(nested[k..], group) == Subversion(nested, group)
    {
      assert nested[k..][1..] == nested[k + 1..];
      if nested[k].0 == group {
        return nested[k].1.lastChange;
      }
    }
    return 0;
  }

  /** The release printed for a bundle is the one that the next run finds, in whatever order the manifests were nested,
      if each is named once; and it finds 0 for all other names. */
  lemma PrintedSubversion(h: Header, lines: seq<Line>, nested: seq<Line>, version: int, group: string)
    requires PrintableHeader(h) && forall i | 0 <= i < |lines| :: Printable(lines[i])
    requires forall i | 0 <= i < |nested| :: PrintableNested(nested[i])
    requires forall i, j | 0 <= i < j < |nested| :: nested[i].0 != nested[j].0
    ensures var r := Parse(Print(h, lines, nested), version);
      && r.Parsed? && |r.nested| == |nested|
      && (forall i | 0 <= i < |nested| && nested[i].0 == group ::
            Subversion(r.nested, group) == nested[i].1.lastChange)
      && ((forall i | 0 <= i < |nested| :: nested[i].0 != group) ==> Subversion(r.nested, group) == 0)
  {
    hide Parse, Print, PrintableHeader, Printable, PrintableNested, SortLines;
    RoundTrip(h, lines, nested, version);
    var r := Bares(nested);
    forall i | 0 <= i < |nested| && nested[i].0 == group
      ensures Subversion(r, group) == nested[i].1.lastChange
    {
      OnlyNested(r, |nested| - 1 - i);
    }
    if forall i | 0 <= i < |nested| :: nested[i].0 != group {
      NotNested(r, group);
    }
  }

  lemma {:induction false} OnlyNested(nested: seq<Line>, k: nat)
    requires k < |nested| && forall j | 0 <= j < k :: nested[j].0 != nested[k].0
    ensures Subversion(nested, nested[k].0) == nested[k].1.lastChange
  {
    if k > 0 {
      assert nested[1..][k - 1] == nested[k];
      OnlyNested(nested[1..], k - 1);
    }
  }

  lemma {:induction false} NotNested(nested: seq<Line>, group: string)
    requires forall j | 0 <= j < |nested| :: nested[j].0 != group
    ensures Subversion(nested, group) == 0
  {
    if nested != [] {
      NotNested(nested[1..], group);
    }
  }

  lemma HeaderJoined(h: Header)
    ensures Join(HeaderLines(h)) ==
      Join(Fields("version:", [PrintInt(h.version)])) + Join(Fields("previous:", [PrintInt(h.previous)]))
      + Join(Fields("filecount:", [PrintInt(h.count)])) + Join(Fields("timestamp:", [PrintInt(h.timestamp)]))
      + Join(Fields("contentsize:", [Digits(h.contentSize)]))
      + (if h.status.Some? then Join(Fields("status:", [h.status.value])) else "")
      + Join(Fields("includes:", h.includes)) + Join(Fields("actions:", h.actions))
  {
    hide PrintInt, Digits, Field;
    var a, b, c := Fields("version:", [PrintInt(h.version)]), Fields("previous:", [PrintInt(h.previous)]),
        Fields("filecount:", [PrintInt(h.count)]);
    var d, e := Fields("timestamp:", [PrintInt(h.timestamp)]), Fields("contentsize:", [Digits(h.contentSize)]);
    var f := Fields("status:", if h.status.Some? then [h.status.value] else []);
    var g, i := Fields("includes:", h.includes), Fields("actions:", h.actions);
    assert HeaderLines(h) == ((((((a + b) + c) + d) + e) + f) + g) + i;
    JoinAppends(a, b);
    JoinAppends(a + b, c);
    JoinAppends((a + b) + c, d);
    JoinAppends(((a + b) + c) + d, e);
    JoinAppends((((a + b) + c) + d) + e, f);
    JoinAppends(((((a + b) + c) + d) + e) + f, g);
    JoinAppends((((((a + b) + c) + d) + e) + f) + g, i);
  }

  // ----- a text written out -----

  /** A written manifest as its lines. */
  lemma PrintedLines(h: Header, lines: seq<Line>, nested: seq<Line>)
    ensures Print(h, lines, nested) ==
      Join(["MANIFEST\t" + Digits(h.format)] + (HeaderLines(h) + ([""] + (PrintLines(lines) + PrintNesteds(nested)))))
  {
    hide Digits, HeaderLines, PrintLines, PrintNesteds;
    var first, header, files, manifests :=
      ["MANIFEST\t" + Digits(h.format)], HeaderLines(h), PrintLines(lines), PrintNesteds(nested);
    JoinOne(first[0]);
    JoinOne("");
    hide Join;
    JoinAppends(files, manifests);
    JoinAppends([""], files + manifests);
    JoinAppends(header, [""] + (files + manifests));
    JoinAppends(first, header + ([""] + (files + manifests)));
    assert "" + "\n" == "\n";
  }

  lemma JoinOne(s: string)
    ensures Join([s]) == s + "\n"
  {
    assert [s][1..] == [];
    assert s + "\n" + "" == s + "\n";
  }

  function Row(flags: string, hash: string, number: string, name: string): string {
    flags + "\t" + hash + "\t" + number + "\t" + name
  }

  lemma LineIs(line: Line, flags: string, number: string)
    requires TypeString(line.1) == flags && PrintInt(line.1.lastChange) == number
    ensures PrintLine(line) == Row(flags, line.1.hash, number, line.0)
  {
    hide TypeString, PrintInt;
    var a, b, c, d := flags, line.1.hash, number, line.0;
    assert a + "\t" + (b + ("\t" + (c + ("\t" + d)))) == a + "\t" + b + "\t" + c + "\t" + d;
    assert b + "\t" + (c + "\t" + d) == b + ("\t" + (c + ("\t" + d)));
  }

  const SAMPLE: Header := Header(24, 20, 10, 5, 7, 40, Some("active"), ["os-core", "editors"], ["update"])

  function SampleFiles(hash: string): seq<Line> {
    [("/boot/a", Entry(false, true, false, false, false, false, false, true, false, hash, 20)),
     ("/etc/b", Entry(true, false, false, false, false, true, false, false, false, hash, 10)),
     ("/var/c", Entry(false, false, true, false, false, false, true, false, false, hash, -3)),
     ("/d\t", Entry(false, false, false, true, false, false, false, false, true, hash, 20)),
     ("/boot/e", Entry(false, false, false, false, true, false, false, true, false, hash, 0))]
  }

  lemma SampleDigits()
    ensures Digits(0) == "0" && Digits(3) == "3" && Digits(5) == "5" && Digits(7) == "7"
    ensures Digits(10) == "10" && Digits(20) == "20" && Digits(24) == "24" && Digits(40) == "40"
  {
    assert Digits(1) == "1" && Digits(2) == "2" && Digits(4) == "4";
  }

  function SampleRows(hash: string): seq<string> {
    [Row("F.b.", hash, "20", "/boot/a"), Row("D.C.", hash, "10", "/etc/b"), Row("L.s.", hash, "-3", "/var/c"),
     Row(".d.r", hash, "20", "/d\t"), Row(".gb.", hash, "0", "/boot/e")]
  }

  lemma SampleLines(hash: string)
    ensures PrintLines(SampleFiles(hash)) == SampleRows(hash)
  {
    hide PrintLine, Digits, Row;
    SampleDigits();
    var s := SampleFiles(hash);
    LineIs(s[0], "F.b.", "20");
    LineIs(s[1], "D.C.", "10");
    LineIs(s[2], "L.s.", "-3");
    LineIs(s[3], ".d.r", "20");
    LineIs(s[4], ".gb.", "0");
  }

  function SampleNested(hash: string): seq<Line> {
    [("os-core", Entry(false, true, false, false, false, false, false, false, false, hash, 20)),
     ("editors", Entry(false, false, false, true, false, false, false, false, false, hash, 0))]
  }

  lemma NestedIs(line: Line, flags: string, number: string)
    requires TypeString(line.1)[0 := 'M'] == flags && PrintInt(line.1.lastChange) == number
    ensures PrintNested(line) == Row(flags, line.1.hash, number, line.0)
  {
    hide TypeString, PrintInt;
    var a, b, c, d := flags, line.1.hash, number, line.0;
    assert a + "\t" + (b + ("\t" + (c + ("\t" + d)))) == a + "\t" + b + "\t" + c + "\t" + d;
    assert b + "\t" + (c + "\t" + d) == b + ("\t" + (c + ("\t" + d)));
  }

  function SampleNestedRows(hash: string): seq<string> {
    [Row("M...", hash, "20", "os-core"), Row("Md..", hash, "0", "editors")]
  }

  lemma SampleManifests(hash: string)
    ensures PrintNesteds(SampleNested(hash)) == SampleNestedRows(hash)
  {
    hide PrintNested, Digits, Row;
    SampleDigits();
    var s := SampleNested(hash);
    NestedIs(s[0], "M...", "20");
    NestedIs(s[1], "Md..", "0");
  }

  function SampleFields(): seq<string> {
    ["version:" + "\t" + "20", "previous:" + "\t" + "10", "filecount:" + "\t" + "5", "timestamp:" + "\t" + "7",
     "contentsize:" + "\t" + "40", "status:" + "\t" + "active", "includes:" + "\t" + "os-core",
     "includes:" + "\t" + "editors", "actions:" + "\t" + "update"]
  }

  lemma SampleHeader()
    ensures HeaderLines(SAMPLE) == SampleFields()
  {
    hide Digits;
    SampleDigits();
    assert PrintInt(20) == "20" && PrintInt(10) == "10" && PrintInt(5) == "5" && PrintInt(7) == "7";
    hide PrintInt;
    var h := SAMPLE;
    assert Fields("status:", [h.status.value]) == ["status:" + "\t" + "active"];
    assert Fields("includes:", h.includes) == ["includes:" + "\t" + "os-core", "includes:" + "\t" + "editors"];
    assert Fields("actions:", h.actions) == ["actions:" + "\t" + "update"];
    hide Fields;
  }

  predicate Short(s: string, limit: nat) {
    |s| <= limit && forall i | 0 <= i < |s| :: s[i] != '\n'
  }

  lemma RowFits(flags: string, hash: string, number: string, name: string)
    requires Short(flags, 4) && Short(hash, 64) && Short(number, 10) && Short(name, 10)
    ensures OneLine(Row(flags, hash, number, name))
  {
  }

  lemma FieldFits(key: string, value: string)
    requires Short(key, 12) && Short(value, 10)
    ensures OneLine(key + "\t" + value)
  {
  }

  lemma SampleRowsFit(hash: string)
    requires |hash| == 64 && NoTab(hash) && Short(hash, 64)
    ensures forall i | 0 <= i < 5 :: Printable(SampleFiles(hash)[i])
  {
    hide OneLine, PrintLine, NoTab, Row, Digits;
    SampleLines(hash);
    RowFits("F.b.", hash, "20", "/boot/a");
    RowFits("D.C.", hash, "10", "/etc/b");
    RowFits("L.s.", hash, "-3", "/var/c");
    RowFits(".d.r", hash, "20", "/d\t");
    RowFits(".gb.", hash, "0", "/boot/e");
    var lines := SampleFiles(hash);
    assert forall i | 0 <= i < 5 :: PrintLines(lines)[i] == PrintLine(lines[i]);
  }

  lemma SampleManifestsFit(hash: string)
    requires |hash| == 64 && NoTab(hash) && Short(hash, 64)
    ensures forall i | 0 <= i < 2 :: PrintableNested(SampleNested(hash)[i])
  {
    hide OneLine, PrintNested, NoTab, Row, Digits;
    SampleManifests(hash);
    RowFits("M...", hash, "20", "os-core");
    RowFits("Md..", hash, "0", "editors");
    var nested := SampleNested(hash);
    assert forall i | 0 <= i < 2 :: PrintNesteds(nested)[i] == PrintNested(nested[i]);
  }

  lemma SampleHeaderFits()
    ensures PrintableHeader(SAMPLE)
  {
    hide OneLine, HeaderLines, Digits;
    SampleHeader();
    SampleDigits();
    FieldFits("MANIFEST", "24");
    FieldFits("version:", "20");
    FieldFits("previous:", "10");
    FieldFits("filecount:", "5");
    FieldFits("timestamp:", "7");
    FieldFits("contentsize:", "40");
    FieldFits("status:", "active");
    FieldFits("includes:", "os-core");
    FieldFits("includes:", "editors");
    FieldFits("actions:", "update");
    assert "MANIFEST" + "\t" == "MANIFEST\t";
  }

  /** A manifest with records of every kind, character by character. */
  function SampleText(hash: string): string {
    Join(["MANIFEST" + "\t" + "24"] + (SampleFields() + ([""] + (SampleRows(hash) + SampleNestedRows(hash)))))
  }

  lemma SampleIsPrinted(hash: string)
    ensures Print(SAMPLE, SampleFiles(hash), SampleNested(hash)) == SampleText(hash)
  {
    hide Print, Join, HeaderLines, Row, PrintLines, PrintNesteds, Digits, SampleFields, SampleRows, SampleNestedRows,
      SampleFiles, SampleNested;
    SampleLines(hash);
    SampleManifests(hash);
    SampleHeader();
    SampleDigits();
    PrintedLines(SAMPLE, SampleFiles(hash), SampleNested(hash));
    assert "MANIFEST" + "\t" == "MANIFEST\t";
  }

  lemma SampleIsRead(hash: string, version: int)
    requires |hash| == 64 && NoTab(hash) && Short(hash, 64)
    ensures var r := Parse(SampleText(hash), version);
      && r.Parsed? && r.format == 24 && r.version == 20 && r.previous == 10 && r.includes == ["editors", "os-core"]
      && multiset(r.files) == multiset(SampleFiles(hash)) && r.count == 9
      && Subversion(r.nested, "os-core") == 20 && Subversion(r.nested, "editors") == 0
  {
    hide Parse, Print, Join, SortLines, Printable, PrintableNested, PrintableHeader, NoTab, Short, Subversion,
      SampleText, SampleFiles, SampleNested;
    SampleIsPrinted(hash);
    SampleRowsFit(hash);
    SampleManifestsFit(hash);
    SampleHeaderFits();
    SampleNames(hash);
    RoundTrip(SAMPLE, SampleFiles(hash), SampleNested(hash), version);
    PrintedSubversion(SAMPLE, SampleFiles(hash), SampleNested(hash), version, "os-core");
    PrintedSubversion(SAMPLE, SampleFiles(hash), SampleNested(hash), version, "editors");
    assert Reverse(SAMPLE.includes) == ["editors", "os-core"];
  }

  lemma SampleNames(hash: string)
    ensures var s := SampleNested(hash);
      && |s| == 2 && s[0].0 == "os-core" && s[1].0 == "editors" && s[0].1.lastChange == 20 && s[1].1.lastChange == 0
      && s[0].0 != s[1].0 && |SampleFiles(hash)| == 5
  {
    assert "os-core"[0] != "editors"[0];
  }
}
