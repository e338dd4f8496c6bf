/** The text of index.dat: one "name,start,end,count" line per chunk, written
    in decimal and parsed back, and the names of chunk files. */
module IndexFile {
  import opened Words
  import opened Wrappers

  datatype IndexEntry = IndexEntry(name: string, start: Word, end: Word, count: Word32)

  // ---------------------------------------------------------------- decimal numbers

  predicate IsDigit(c: char) {
    '0' <= c <= '9'
  }

  function DigitChar(d: nat): (c: char)
    requires d < 10
    ensures IsDigit(c) && DigitValue(c) == d
  {
    ('0' as int + d) as char
  }

  function DigitValue(c: char): (d: nat)
    requires IsDigit(c)
    ensures d < 10
  {
    c as int - '0' as int
  }

  predicate AllDigits(s: string) {
    forall i | 0 <= i < |s| :: IsDigit(s[i])
  }

  function Decimal(n: nat): (s: string)
    ensures s != "" && AllDigits(s)
  {
    if n < 10 then [DigitChar(n)] else Decimal(n / 10) + [DigitChar(n % 10)]
  }

  function DigitsValue(s: string): nat
    requires AllDigits(s)
  {
    if s == "" then 0 else 10 * DigitsValue(s[..|s| - 1]) + DigitValue(s[|s| - 1])
  }

  /** strconv.ParseUint(s, 10, bits), where limit is 2^bits. */
  function ParseUint(s: string, limit: nat): Option<nat> {
    if s == "" || !AllDigits(s) || DigitsValue(s) >= limit then None else Some(DigitsValue(s))
  }

  lemma {:induction false} DecimalValue(n: nat)
    ensures DigitsValue(Decimal(n)) == n
  {
    if n >= 10 {
      DecimalValue(n / 10);
      assert Decimal(n)[..|Decimal(n)| - 1] == Decimal(n / 10);
    }
  }

  // ---------------------------------------------------------------- chunk names

  /** Decimal padded with zeros to at least four digits. */
  function FourDigits(n: nat): (s: string)
    ensures AllDigits(s)
  {
    Pad(Decimal(n), if |Decimal(n)| < 4 then 4 - |Decimal(n)| else 0)
  }

  function Pad(s: string, k: nat): (r: string)
    requires AllDigits(s)
    ensures AllDigits(r) && |r| == |s| + k
  {
    if k == 0 then s else "0" + Pad(s, k - 1)
  }

  lemma {:induction false} PadValue(s: string, k: nat)
    requires AllDigits(s)
    ensures DigitsValue(Pad(s, k)) == DigitsValue(s)
  {
    if k > 0 {
      PadValue(s, k - 1);
      LeadingZeroValue(Pad(s, k - 1));
    }
  }

  lemma {:induction false} LeadingZeroValue(s: string)
    requires AllDigits(s)
    ensures DigitsValue("0" + s) == DigitsValue(s)
  {
    if s != "" {
      LeadingZeroValue(s[..|s| - 1]);
      assert ("0" + s)[..|s|] == "0" + s[..|s| - 1];
    }
  }

  lemma FourDigitsValue(n: nat)
    ensures DigitsValue(FourDigits(n)) == n
  {
    DecimalValue(n);
    PadValue(Decimal(n), if |Decimal(n)| < 4 then 4 - |Decimal(n)| else 0);
  }

  lemma FourDigitsLength(n: nat)
    ensures |FourDigits(n)| == 4 <==> n <= 9999
  {
    DecimalLength(n);
  }

  lemma DecimalLength(n: nat)
    ensures |Decimal(n)| <= 4 <==> n <= 9999
  {
    if n >= 10 {
      DecimalStep(n);
      if n >= 100 {
        DecimalStep(n / 10);
        if n >= 1000 {
          DecimalStep(n / 100);
          assert n / 100 / 10 == n / 1000;
          assert n / 1000 < 10 <==> n <= 9999;
        }
      }
    }
  }

  lemma DecimalStep(n: nat)
    requires n >= 10
    ensures |Decimal(n)| == 1 + |Decimal(n / 10)|
    ensures n / 10 < 10 ==> |Decimal(n / 10)| == 1
    ensures n / 10 >= 10 ==> |Decimal(n / 10)| >= 2
  {
  }

  /** fmt.Sprintf("chunk_%04d.dat", id) */
  function ChunkName(id: nat): string {
    "chunk_" + FourDigits(id) + ".dat"
  }

  /** The number captured by ^chunk_(\d{4})\.dat$, if the name matches. */
  function MatchChunkName(name: string): Option<nat> {
    if |name| == 14 && name[..6] == "chunk_" && name[10..] == ".dat" && AllDigits(name[6..10])
    then Some(DigitsValue(name[6..10]))
    else None
  }

  /** The pattern matches exactly the names generated for ids of up to four digits, and
      captures the id. */
  lemma MatchesExactly(name: string, id: nat)
    ensures MatchChunkName(name) == Some(id) <==> id <= 9999 && name == ChunkName(id)
  {
    hide FourDigits, DigitsValue;
    MatchGenerated(id);
    if MatchChunkName(name) == Some(id) {
      FourDigitsValue(id); FourDigitsLength(id);
      var d := name[6..10];
      DigitsBound(d);
      DigitsUnique(d, FourDigits(id));
      assert name == name[..6] + name[6..10] + name[10..];
    }
  }

  lemma DigitsBound(d: string)
    requires AllDigits(d) && |d| == 4
    ensures DigitsValue(d) <= 9999
  {
    assert d[..3][..2][..1][..0] == "";
    assert DigitsValue(d[..3][..2][..1]) <= 9 && DigitsValue(d[..3][..2]) <= 99 && DigitsValue(d[..3]) <= 999;
  }

  lemma {:induction false} DigitsUnique(a: string, b: string)
    requires AllDigits(a) && AllDigits(b) && |a| == |b| && DigitsValue(a) == DigitsValue(b)
    ensures a == b
  {
    if a != "" {
      var n := |a| - 1;
      assert DigitValue(a[n]) == DigitValue(b[n]) && DigitsValue(a[..n]) == DigitsValue(b[..n]);
      DigitsUnique(a[..n], b[..n]);
      assert a == a[..n] + [a[n]] && b == b[..n] + [b[n]];
    }
  }

  /** The pattern captures the id of a generated name with up to four digits,
      and does not match names of chunks beyond 9999. */
  lemma MatchGenerated(id: nat)
    ensures MatchChunkName(ChunkName(id)) == if id <= 9999 then Some(id) else None
  {
    FourDigitsLength(id);
    FourDigitsValue(id);
    var name := ChunkName(id);
    if id <= 9999 {
      assert name[6..10] == FourDigits(id);
    }
  }

  lemma ChunkNameInjective(i: nat, j: nat)
    requires ChunkName(i) == ChunkName(j)
    ensures i == j
  {
    var a, b := ChunkName(i), ChunkName(j);
    assert a[6..|a| - 4] == FourDigits(i) && b[6..|b| - 4] == FourDigits(j);
    FourDigitsValue(i); FourDigitsValue(j);
  }

  /** A generated name, letter by letter: the id in decimal, padded with zeros to four
      digits and never cut. */
  lemma NameLayout(id: nat)
    ensures var n := ChunkName(id);
            var d := n[6..|n| - 4];
            && n[..6] == "chunk_" && n[|n| - 4..] == ".dat" && AllDigits(d) && DigitsValue(d) == id
            && (|d| == 4 <==> id <= 9999) && |d| >= 4
  {
    hide Decimal;
    var d := FourDigits(id);
    FourDigitsValue(id); FourDigitsLength(id);
    assert ChunkName(id)[6..|ChunkName(id)| - 4] == d;
  }

  /** Digits count from the right. */
  lemma DigitsExample()
    ensures DigitsValue("120") == 120
  {
    assert "120"[..2] == "12" && "12"[..1] == "1" && "1"[..0] == "";
  }

  // ---------------------------------------------------------------- writing index.dat

  function Line(e: IndexEntry): string {
    e.name + "," + Decimal(e.start) + "," + Decimal(e.end) + "," + Decimal(e.count)
  }

  function IndexText(entries: seq<IndexEntry>): string {
    if entries == [] then "" else Line(entries[0]) + "\n" + IndexText(entries[1..])
  }

  lemma Associative(a: string, b: string, c: string)
    ensures a + (b + c) == a + b + c
  {
  }

  lemma {:induction false} IndexTextAppend(entries: seq<IndexEntry>, e: IndexEntry)
    ensures IndexText(entries + [e]) == IndexText(entries) + (Line(e) + "\n")
  {
    hide Line;
    if entries == [] {
      assert entries + [e] == [e] && [e][1..] == [];
    } else {
      IndexTextAppend(entries[1..], e);
      assert (entries + [e])[1..] == entries[1..] + [e];
      Associative(Line(entries[0]) + "\n", IndexText(entries[1..]), Line(e) + "\n");
    }
  }

  method WriteIndexText(entries: seq<IndexEntry>) returns (text: string)
    ensures text == IndexText(entries)
  {
    text := "";
    for i := 0 to |entries|
      invariant text == IndexText(entries[..i])
    {
      IndexTextAppend(entries[..i], entries[i]);
      assert entries[..i + 1] == entries[..i] + [entries[i]];
      text := text + (Line(entries[i]) + "\n");
    }
    assert entries[..|entries|] == entries;
  }

  // ---------------------------------------------------------------- reading index.dat

  /** The first position of c in s, or |s|. */
  function Find(s: string, c: char): (i: nat)
    ensures i <= |s| && (i < |s| ==> s[i] == c) && forall j | 0 <= j < i :: s[j] != c
  {
    if s == "" || s[0] == c then 0 else 1 + Find(s[1..], c)
  }

  /** strings.Split(s, c) for a one-character separator. */
  function Split(s: string, c: char): (parts: seq<string>)
    ensures parts != []
    decreases |s|
  {
    var i := Find(s, c);
    if i == |s| then [s] else [s[..i]] + Split(s[i + 1..], c)
  }

  function DropCR(line: string): string {
    if line != "" && line[|line| - 1] == '\r' then line[..|line| - 1] else line
  }

  /** The longest line, without its newline, that fits bufio.Scanner's buffer. */
  const MAX_LINE: nat := 65_535

  /** The lines a bufio.Scanner yields, up to one too long for it; the last one may
      lack its newline. */
  function Lines(s: string): seq<string>
    decreases |s|
  {
    var i := Find(s, '\n');
    if s == "" || i > MAX_LINE then []
    else if i == |s| then [DropCR(s)]
    else [DropCR(s[..i])] + Lines(s[i + 1..])
  }

  /** The scanner reaches the end: no line is too long for it. */
  predicate Scans(s: string)
    decreases |s|
  {
    var i := Find(s, '\n');
    i <= MAX_LINE && (i == |s| || Scans(s[i + 1..]))
  }

  predicate IsSpace(c: char) {
    c == ' ' || '\t' <= c <= '\r'
  }

  /** The width of the white-space character a UTF-8 string begins with, or 0. */
  function SpaceWidth(s: string): (n: nat)
    ensures n <= |s| && n <= 3
  {
    if s == "" then 0
    else if IsSpace(s[0]) then 1
    else if |s| >= 2 && s[0] as int == 0xC2 && s[1] as int in {0x85, 0xA0} then 2
    else if |s| >= 3 && IsWideSpace(s[0] as int, s[1] as int, s[2] as int) then 3
    else 0
  }

  /** The three bytes of a white-space character from U+1680 to U+3000. */
  predicate IsWideSpace(a: int, b: int, c: int) {
    || (a == 0xE1 && b == 0x9A && c == 0x80)
    || (a == 0xE2 && b == 0x80 && (0x80 <= c <= 0x8A || c in {0xA8, 0xA9, 0xAF}))
    || (a == 0xE2 && b == 0x81 && c == 0x9F)
    || (a == 0xE3 && b == 0x80 && c == 0x80)
  }

  /** The width of the white-space character it ends with, or 0. */
  function LastSpaceWidth(s: string): (n: nat)
    ensures n <= |s|
  {
    if |s| >= 1 && SpaceWidth(s[|s| - 1..]) == 1 then 1
    else if |s| >= 2 && SpaceWidth(s[|s| - 2..]) == 2 then 2
    else if |s| >= 3 && SpaceWidth(s[|s| - 3..]) == 3 then 3
    else 0
  }

  /** strings.TrimSpace */
  function TrimSpace(s: string): string
    decreases |s|
  {
    if SpaceWidth(s) > 0 then TrimSpace(s[SpaceWidth(s)..])
    else if LastSpaceWidth(s) > 0 then TrimSpace(s[..|s| - LastSpaceWidth(s)])
    else s
  }

  /** One trimmed, nonempty line. */
  function ParseLine(line: string): Option<IndexEntry> {
    var parts := Split(line, ',');
    if |parts| != 4 then None
    else
      match (ParseUint(parts[1], TWO_TO_64), ParseUint(parts[2], TWO_TO_64), ParseUint(parts[3], TWO_TO_32))
      case (Some(start), Some(end), Some(count)) => Some(IndexEntry(parts[0], start, end, count))
      case (_, _, _) => None
  }

  /** The entries of a list of lines, or None at the first bad line. */
  function ParseLines(lines: seq<string>): Option<seq<IndexEntry>> {
    if lines == [] then Some([])
    else if TrimSpace(lines[0]) == "" then ParseLines(lines[1..])
    else
      match (ParseLine(TrimSpace(lines[0])), ParseLines(lines[1..]))
      case (Some(e), Some(more)) => Some([e] + more)
      case (_, _) => None
  }

  function LoadIndex(text: string): Option<seq<IndexEntry>> {
    if Scans(text) then ParseLines(Lines(text)) else None
  }

  /** There is a newline among the 65,536 bytes from position i on. */
  ghost predicate BreaksFrom(s: string, i: int)
    requires 0 <= i <= |s| - 65_536
  {
    exists k | i <= k < i + 65_536 :: s[k] == '\n'
  }

  /** The scanner gives up exactly on a line of 65,536 bytes or more. */
  lemma {:induction false} ScansExactly(s: string)
    ensures Scans(s) <==> forall i | 0 <= i <= |s| - 65_536 :: BreaksFrom(s, i)
    decreases |s|
  {
    var i := Find(s, '\n');
    if i > MAX_LINE {
      assert !BreaksFrom(s, 0);
    } else if i < |s| {
      var rest := s[i + 1..];
      ScansExactly(rest);
      forall j | 0 <= j <= |s| - 65_536 ensures BreaksFrom(s, j) <==> j <= i || BreaksFrom(rest, j - i - 1) {
        if j <= i {
          assert s[i] == '\n';
        } else {
          BreaksBehind(s, i + 1, j - i - 1);
        }
      }
      if !Scans(rest) {
        var k :| 0 <= k <= |rest| - 65_536 && !BreaksFrom(rest, k);
        assert !BreaksFrom(s, i + 1 + k);
      }
    }
  }

  lemma BreaksBehind(s: string, n: nat, i: nat)
    requires n + i <= |s| - 65_536
    ensures BreaksFrom(s[n..], i) <==> BreaksFrom(s, n + i)
  {
    if BreaksFrom(s, n + i) {
      var k :| n + i <= k < n + i + 65_536 && s[k] == '\n';
      assert s[n..][k - n] == '\n';
    }
  }

  /** White space of one byte: tab to carriage return, and the blank. */
  lemma OneByteSpaces(c: char)
    ensures SpaceWidth([c]) == (if c as int in {9, 10, 11, 12, 13, 32} then 1 else 0)
  {
  }

  /** A nonblank line that is not an entry. */
  predicate BadLine(line: string) {
    TrimSpace(line) != "" && ParseLine(TrimSpace(line)).None?
  }

  /** One bad line is enough: a text loads exactly when no line is too long and none is
      bad, and then there is one entry per nonblank line. */
  lemma LoadsExactly(text: string)
    ensures LoadIndex(text).Some? <==> Scans(text) && forall line | line in Lines(text) :: !BadLine(line)
  {
    hide Lines, Scans, TrimSpace, ParseLine;
    LinesLoad(Lines(text));
  }

  lemma {:induction false} LinesLoad(lines: seq<string>)
    ensures ParseLines(lines).Some? <==> forall line | line in lines :: !BadLine(line)
  {
    hide TrimSpace, ParseLine;
    if lines != [] {
      LinesLoad(lines[1..]);
      assert lines == [lines[0]] + lines[1..];
      assert (forall line | line in lines :: !BadLine(line)) <==>
               !BadLine(lines[0]) && forall line | line in lines[1..] :: !BadLine(line);
    }
  }

  /** A line is an entry exactly when it has four fields and the last three are
      decimal numbers that fit 64, 64 and 32 bits. */
  lemma ParsesExactly(line: string)
    ensures var parts := Split(line, ',');
            ParseLine(line) ==
              if |parts| == 4 && IsNumber(parts[1], 0x1_0000_0000_0000_0000)
                  && IsNumber(parts[2], 0x1_0000_0000_0000_0000)
                 && IsNumber(parts[3], 0x1_0000_0000)
              then Some(IndexEntry(parts[0], DigitsValue(parts[1]), DigitsValue(parts[2]), DigitsValue(parts[3])))
              else None
  {
    hide Split, DigitsValue;
  }

  predicate IsNumber(s: string, limit: nat) {
    s != "" && AllDigits(s) && DigitsValue(s) < limit
  }

  /** Trimming takes white space off both ends and nothing else. */
  lemma {:induction false} TrimmedExactly(s: string) returns (front: string, back: string)
    ensures s == front + TrimSpace(s) + back
    ensures AllSpace(front) && AllSpace(back)
    ensures SpaceWidth(TrimSpace(s)) == 0 && LastSpaceWidth(TrimSpace(s)) == 0
    decreases |s|
  {
    hide SpaceWidth, LastSpaceWidth, AllSpace, TrimSpace;
    TrimStep(s);
    if SpaceWidth(s) > 0 {
      var n := SpaceWidth(s);
      front, back := TrimmedExactly(s[n..]);
      FirstSpace(s);
      SpacesJoin(s[..n], front);
      Around(s[..n], front, TrimSpace(s), back, "");
      assert s == s[..n] + s[n..];
      front := s[..n] + front;
    } else if LastSpaceWidth(s) > 0 {
      var n := |s| - LastSpaceWidth(s);
      front, back := TrimmedExactly(s[..n]);
      LastSpace(s);
      SpacesJoin(back, s[n..]);
      Around("", front, TrimSpace(s), back, s[n..]);
      assert s == s[..n] + s[n..];
      back := back + s[n..];
    } else {
      front, back := "", "";
      NoSpace();
    }
  }

  lemma Around(a: string, b: string, c: string, d: string, e: string)
    ensures a + (b + c + d) + e == (a + b) + c + (d + e) && "" + b == b && d + "" == d
  {
  }

  lemma NoSpace()
    ensures AllSpace("")
  {
  }

  /** White-space characters one after the other. */
  predicate AllSpace(s: string)
    decreases |s|
  {
    s == "" || (SpaceWidth(s) > 0 && AllSpace(s[SpaceWidth(s)..]))
  }

  lemma FirstSpace(s: string)
    requires SpaceWidth(s) > 0
    ensures AllSpace(s[..SpaceWidth(s)])
  {
    SpaceOnly(s, "");
    assert s[..SpaceWidth(s)] + "" == s[..SpaceWidth(s)];
  }

  lemma SpaceOnly(s: string, more: string)
    requires SpaceWidth(s) > 0
    ensures SpaceWidth(s[..SpaceWidth(s)] + more) == SpaceWidth(s)
  {
  }

  lemma LastSpace(s: string)
    requires LastSpaceWidth(s) > 0
    ensures AllSpace(s[|s| - LastSpaceWidth(s)..])
  {
    hide SpaceWidth, AllSpace;
    var t := s[|s| - LastSpaceWidth(s)..];
    assert SpaceWidth(t) == |t|;
    OneSpace(t);
  }

  lemma OneSpace(t: string)
    requires SpaceWidth(t) == |t| > 0
    ensures AllSpace(t)
  {
    hide SpaceWidth;
    assert t[|t|..] == "";
  }

  /** One step of trimming. */
  lemma TrimStep(s: string)
    ensures SpaceWidth(s) > 0 ==> TrimSpace(s) == TrimSpace(s[SpaceWidth(s)..])
    ensures SpaceWidth(s) == 0 && LastSpaceWidth(s) > 0 ==> TrimSpace(s) == TrimSpace(s[..|s| - LastSpaceWidth(s)])
    ensures SpaceWidth(s) == 0 && LastSpaceWidth(s) == 0 ==> TrimSpace(s) == s
  {
    hide SpaceWidth, LastSpaceWidth;
  }

  lemma {:induction false} SpacesJoin(a: string, b: string)
    requires AllSpace(a) && AllSpace(b)
    ensures AllSpace(a + b)
    decreases |a|
  {
    hide SpaceWidth;
    if a == "" {
      assert a + b == b;
    } else {
      var n := SpaceWidth(a);
      SpaceOnly(a, a[n..] + b);
      assert a[..n] + (a[n..] + b) == a + b && (a + b)[n..] == a[n..] + b;
      SpacesJoin(a[n..], b);
    }
  }

  method LoadIndexText(text: string) returns (entries: Option<seq<IndexEntry>>)
    ensures entries == LoadIndex(text)
  {
    var lines, found: seq<IndexEntry> := Lines(text), [];
    assert lines[0..] == lines;
    assert forall more: seq<IndexEntry> :: [] + more == more;
    for i := 0 to |lines|
      invariant ParseLines(lines) == match ParseLines(lines[i..])
                                     case None => None
                                     case Some(more) => Some(found + more)
    {
      assert lines[i..][1..] == lines[i + 1..];
      var line := TrimSpace(lines[i]);
      if line != "" {
        match ParseLine(line)
        case None =>
          return None;
        case Some(e) =>
          ghost var rest := ParseLines(lines[i + 1..]);
          assert rest.Some? ==> found + ([e] + rest.value) == found + [e] + rest.value;
          found := found + [e];
      }
    }
    assert found + [] == found;
    entries := if Scans(text) then Some(found) else None;
  }

  // ---------------------------------------------------------------- round trip

  predicate Free(s: string, c: char) {
    forall i | 0 <= i < |s| :: s[i] != c
  }

  lemma {:induction false} FindAfter(a: string, c: char, rest: string)
    requires Free(a, c)
    ensures Find(a + [c] + rest, c) == |a|
  {
    if a != "" {
      FindAfter(a[1..], c, rest);
      assert (a + [c] + rest)[1..] == a[1..] + [c] + rest;
    }
  }

  lemma SplitField(a: string, c: char, rest: string)
    requires Free(a, c)
    ensures Split(a + [c] + rest, c) == [a] + Split(rest, c)
  {
    var s := a + [c] + rest;
    FindAfter(a, c, rest);
    assert s[..|a|] == a && s[|a| + 1..] == rest;
  }

  lemma {:induction false} SplitLast(a: string, c: char)
    requires Free(a, c)
    ensures Split(a, c) == [a]
  {
    FindNone(a, c);
  }

  lemma {:induction false} FindNone(a: string, c: char)
    requires Free(a, c)
    ensures Find(a, c) == |a|
  {
    if a != "" {
      FindNone(a[1..], c);
    }
  }

  /** A name a file can have and a line can carry: no separator inside, no space at
      the front. */
  predicate CleanName(name: string) {
    0 < |name| <= 255 && Free(name, ',') && Free(name, '\n') && SpaceWidth(name) == 0
  }

  lemma DigitsClean(s: string)
    requires AllDigits(s)
    ensures Free(s, ',') && Free(s, '\n')
  {
  }

  lemma ParsePrinted(n: nat, limit: nat)
    requires n < limit
    ensures ParseUint(Decimal(n), limit) == Some(n)
  {
    DecimalValue(n);
  }

  /** A line has the name, first time, last time and count, in this order. */
  lemma LineParses(e: IndexEntry)
    requires CleanName(e.name)
    ensures Split(Line(e), ',') == [e.name, Decimal(e.start), Decimal(e.end), Decimal(e.count)]
    ensures ParseLine(Line(e)) == Some(e)
  {
    hide Find, Split, Decimal, ParseUint;
    var s, t, u := Decimal(e.start), Decimal(e.end), Decimal(e.count);
    DigitsClean(s); DigitsClean(t); DigitsClean(u);
    var l3, l2 := t + [','] + u, s + [','] + (t + [','] + u);
    assert Line(e) == e.name + [','] + l2;
    SplitField(e.name, ',', l2); SplitField(s, ',', l3); SplitField(t, ',', u); SplitLast(u, ',');
    assert Split(Line(e), ',') == [e.name, s, t, u];
    ParsePrinted(e.start, TWO_TO_64); ParsePrinted(e.end, TWO_TO_64); ParsePrinted(e.count, TWO_TO_32);
  }

  /** A line with a clean name at the front has no white space there. */
  lemma FrontKept(name: string, rest: string)
    requires name != "" && SpaceWidth(name) == 0 && rest != "" && rest[0] == ','
    ensures SpaceWidth(name + rest) == 0
  {
    var s := name + rest;
    assert s[0] == name[0];
    assert |name| == 1 ==> s[1] == ',';
    assert |name| == 2 ==> s[1] == name[1] && s[2] == ',';
    assert |name| >= 3 ==> s[1] == name[1] && s[2] == name[2];
  }

  lemma BackKept(s: string)
    requires s != "" && IsDigit(s[|s| - 1])
    ensures LastSpaceWidth(s) == 0 && DropCR(s) == s
  {
  }

  lemma LineTrimmed(e: IndexEntry)
    requires CleanName(e.name)
    ensures Line(e) != "" && TrimSpace(Line(e)) == Line(e) == DropCR(Line(e)) && Free(Line(e), '\n')
  {
    hide Decimal, SpaceWidth, LastSpaceWidth, DropCR;
    var l, s, t, u := Line(e), Decimal(e.start), Decimal(e.end), Decimal(e.count);
    var rest := "," + s + "," + t + "," + u;
    assert l == e.name + rest && l[|l| - 1] == u[|u| - 1];
    FrontKept(e.name, rest); BackKept(l);
    DigitsClean(s); DigitsClean(t); DigitsClean(u);
  }

  /** Decimal numbers are as short as their bounds say. */
  lemma {:induction false} DecimalAtMost(n: nat, k: nat)
    requires k > 0 && n < Tens(k)
    ensures |Decimal(n)| <= k
  {
    if n >= 10 {
      DecimalAtMost(n / 10, k - 1);
    }
  }

  function Tens(k: nat): nat {
    if k == 0 then 1 else 10 * Tens(k - 1)
  }

  lemma LineFits(e: IndexEntry)
    requires CleanName(e.name)
    ensures |Line(e)| <= MAX_LINE
  {
    hide Decimal;
    assert Tens(10) == 10_000_000_000 && TWO_TO_32 <= Tens(10);
    assert Tens(15) == 100_000 * Tens(10) && TWO_TO_64 <= 100_000 * Tens(15) == Tens(20);
    DecimalAtMost(e.start, 20); DecimalAtMost(e.end, 20); DecimalAtMost(e.count, 20);
  }

  lemma FirstLine(line: string, rest: string)
    requires Free(line, '\n') && |line| <= MAX_LINE
    ensures Lines(line + "\n" + rest) == [DropCR(line)] + Lines(rest)
    ensures Scans(line + "\n" + rest) <==> Scans(rest)
  {
    var s := line + "\n" + rest;
    FindAfter(line, '\n', rest);
    assert s[..|line|] == line && s[|line| + 1..] == rest;
  }

  /** Loading what was written gives the same entries in the same order. */
  lemma {:induction false} IndexRoundTrip(entries: seq<IndexEntry>)
    requires forall i | 0 <= i < |entries| :: CleanName(entries[i].name)
    ensures LoadIndex(IndexText(entries)) == Some(entries)
  {
    hide Line, ParseLine, TrimSpace, DropCR, Lines, Scans;
    if entries != [] {
      LineFits(entries[0]);
      IndexRoundTrip(entries[1..]);
      LineTrimmed(entries[0]); LineParses(entries[0]);
      FirstLine(Line(entries[0]), IndexText(entries[1..]));
      var first := Line(entries[0]);
      var lines := [first] + Lines(IndexText(entries[1..]));
      assert lines[1..] == Lines(IndexText(entries[1..]));
      assert entries == [entries[0]] + entries[1..];
    } else {
      EmptyIndex();
    }
  }

  lemma EmptyIndex()
    ensures LoadIndex("") == Some([])
  {
  }

  lemma ChunkNameClean(id: Word32)
    ensures CleanName(ChunkName(id))
  {
    assert Tens(10) == 10_000_000_000;
    DecimalAtMost(id, 10);
    DigitsClean(FourDigits(id));
  }
}
