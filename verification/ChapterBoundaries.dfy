/**
 * Indexing a work's text into chapters: the lines that are headings cut the text, by byte offset,
 * into consecutive slices.
 */
module ChapterBoundaries {
  import opened Common
  import opened Utf8

  datatype Boundary = Boundary(chapter: nat, title: string, start: nat, end: nat, source: string)

  datatype Error = NoContent | FingerprintInvalid | NoBoundaries | NotContiguous

  const MAX_WORK_BYTES := 128 * 1024 * 1024

  const TWO_TO_THE_32 := 0x1_0000_0000

  // ----- Headings -----

  predicate White(c: char)
  {
    var x := c as int;
    9 <= x <= 13 || x in {0x20, 0x85, 0xa0, 0x1680, 0x2028, 0x2029, 0x202f, 0x205f, 0x3000} || 0x2000 <= x <= 0x200a
  }

  function TrimStart(s: string): string { if s != "" && White(s[0]) then TrimStart(s[1..]) else s }

  function TrimEnd(s: string): string { if s != "" && White(s[|s| - 1]) then TrimEnd(s[..|s| - 1]) else s }

  function Trim(s: string): string { TrimEnd(TrimStart(s)) }

  function StripMarks(s: string): string { if s != "" && s[0] == '\U{FEFF}' then StripMarks(s[1..]) else s }

  function LowerAscii(s: string): string
  {
    seq(|s|, i requires 0 <= i < |s| => if 'A' <= s[i] <= 'Z' then s[i] - 'A' + 'a' else s[i])
  }

  predicate IsChapterHeading(value: string)
  {
    var compact := Trim(value);
    && |Bytes(compact)| <= 160
    && ("chapter " <= LowerAscii(compact)
        || (compact != "" && compact[0] == '\U{7B2C}'
            && exists i | 1 <= i < |compact| && i <= 12 ::
              compact[i] in {'\U{7AE0}', '\U{56DE}', '\U{5377}', '\U{8282}'}))
  }

  function Label(line: string): string { StripMarks(Trim(line)) }

  // ----- Lines -----

  /** The length of the first line, with its line feed. */
  function FirstLine(text: string): (n: nat)
    requires text != ""
    ensures 0 < n <= |text|
  {
    if text[0] == '\n' || |text| == 1 then 1 else 1 + FirstLine(text[1..])
  }

  /** The lines of a text, each but perhaps the last with its line feed. */
  function Lines(text: string): seq<string>
  {
    if text == "" then [] else [text[..FirstLine(text)]] + Lines(text[FirstLine(text)..])
  }

  function Join(lines: seq<string>): string { if lines == [] then "" else lines[0] + Join(lines[1..]) }

  lemma {:induction false} LinesJoin(text: string)
    ensures Join(Lines(text)) == text && forall line | line in Lines(text) :: line != ""
  {
    hide FirstLine;
    if text != "" {
      var n := FirstLine(text);
      var rest := Lines(text[n..]);
      LinesJoin(text[n..]);
      assert Lines(text) == [text[..n]] + rest && Lines(text)[1..] == rest;
      assert text == text[..n] + text[n..];
    }
  }

  lemma {:induction false} JoinConcat(a: seq<string>, b: seq<string>)
    ensures Join(a + b) == Join(a) + Join(b)
  {
    if a == [] {
      assert a + b == b;
    } else {
      JoinConcat(a[1..], b);
      assert (a + b)[1..] == a[1..] + b && (a + b)[0] == a[0];
    }
  }

  /** The byte offset at which line `k` starts. */
  function Offset(lines: seq<string>, k: nat): nat
    requires k <= |lines|
  {
    |Bytes(Join(lines[..k]))|
  }

  lemma OffsetStep(lines: seq<string>, k: nat)
    requires k < |lines|
    ensures Offset(lines, k + 1) == Offset(lines, k) + |Bytes(lines[k])|
    ensures lines[k] != "" ==> Offset(lines, k) < Offset(lines, k + 1)
  {
    assert lines[..k + 1] == lines[..k] + [lines[k]];
    JoinConcat(lines[..k], [lines[k]]);
    assert Join([lines[k]]) == lines[k] + Join([]) == lines[k];
    BytesConcat(Join(lines[..k]), lines[k]);
    BytesAtLeast(lines[k]);
  }

  lemma {:induction false} OffsetsRise(lines: seq<string>, j: nat, k: nat)
    requires j < k <= |lines| && forall line | line in lines :: line != ""
    ensures Offset(lines, j) < Offset(lines, k)
  {
    hide Offset;
    assert lines[k - 1] in lines;
    OffsetStep(lines, k - 1);
    if j < k - 1 {
      OffsetsRise(lines, j, k - 1);
    }
  }

  // ----- The index -----

  /** The numbers of the heading lines, in order. */
  function Headings(lines: seq<string>): seq<nat>
  {
    if lines == [] then []
    else
      var n := |lines| - 1;
      Headings(lines[..n]) + if IsChapterHeading(Label(lines[n])) then [n] else []
  }

  datatype Start = Start(offset: nat, title: string)

  function Starts(lines: seq<string>): seq<Start>
  {
    if lines == [] then []
    else
      var n := |lines| - 1;
      Starts(lines[..n])
      + if IsChapterHeading(Label(lines[n])) then [Start(Offset(lines, n), Label(lines[n]))] else []
  }

  /** The default title of a text without headings. */
  const BODY := "\U{6B63}\U{6587}"

  function StartsOrBody(lines: seq<string>): (starts: seq<Start>)
    ensures starts != []
  {
    if Starts(lines) == [] then [Start(0, BODY)] else Starts(lines)
  }

  function EndOf(starts: seq<Start>, total: nat, k: nat): nat
    requires k < |starts|
  {
    if k + 1 < |starts| then starts[k + 1].offset else total
  }

  /** The boundaries of the first `n` starts; one that ends where it starts is skipped. */
  function Cut(starts: seq<Start>, total: nat, source: string, n: nat): seq<Boundary>
    requires n <= |starts|
  {
    if n == 0 then []
    else
      var done, s, end := Cut(starts, total, source, n - 1), starts[n - 1], EndOf(starts, total, n - 1);
      if s.offset >= end then done
      else done + [Boundary((|done| + 1) % TWO_TO_THE_32, s.title, s.offset, end, source)]
  }

  function Index(text: string, source: string): Result<seq<Boundary>, Error>
  {
    var starts := StartsOrBody(Lines(text));
    var boundaries := Cut(starts, |Bytes(text)|, source, |starts|);
    if boundaries == [] then Err(NoContent) else Ok(boundaries)
  }

  method ChapterBoundaries(text: string, source: string) returns (result: Result<seq<Boundary>, Error>)
    ensures result == Index(text, source)
  {
    hide Label, IsChapterHeading, Lines, Bytes, Offset;
    var lines := Lines(text);
    var starts: seq<Start>, offset := [], 0;
    LinesStart(lines);
    for k := 0 to |lines|
      invariant starts == Starts(lines[..k]) && offset == Offset(lines, k)
    {
      assert lines[..k + 1][..k] == lines[..k];
      OffsetOfPrefix(lines, k);
      OffsetStep(lines, k);
      var heading := Label(lines[k]);
      if IsChapterHeading(heading) {
        starts := starts + [Start(offset, heading)];
      }
      offset := offset + |Bytes(lines[k])|;
    }
    assert lines[..|lines|] == lines;
    if starts == [] {
      starts := [Start(0, BODY)];
    }
    var boundaries: seq<Boundary> := [];
    for k := 0 to |starts|
      invariant boundaries == Cut(starts, |Bytes(text)|, source, k)
    {
      var end := if k + 1 < |starts| then starts[k + 1].offset else |Bytes(text)|;
      if starts[k].offset >= end {
        continue;
      }
      boundaries := boundaries
        + [Boundary((|boundaries| + 1) % TWO_TO_THE_32, starts[k].title, starts[k].offset, end, source)];
    }
    result := if boundaries == [] then Err(NoContent) else Ok(boundaries);
  }

  lemma LinesStart(lines: seq<string>)
    ensures Offset(lines, 0) == 0
  {
  }

  lemma OffsetOfPrefix(lines: seq<string>, k: nat)
    requires k < |lines|
    ensures Offset(lines[..k + 1], k) == Offset(lines, k)
  {
    assert lines[..k + 1][..k] == lines[..k];
  }

  // ----- What the index is -----

  ghost predicate Rising(h: seq<nat>)
  {
    forall i, j | 0 <= i < j < |h| :: h[i] < h[j]
  }

  lemma {:induction false} HeadingsRise(lines: seq<string>)
    ensures Rising(Headings(lines)) && forall i | 0 <= i < |Headings(lines)| :: Headings(lines)[i] < |lines|
  {
    hide Label, IsChapterHeading;
    if lines != [] {
      HeadingsRise(lines[..|lines| - 1]);
    }
  }

  lemma {:induction false} HeadingsExact(lines: seq<string>, k: nat)
    ensures k in Headings(lines) <==> k < |lines| && IsChapterHeading(Label(lines[k]))
  {
    hide Label, IsChapterHeading;
    if lines != [] {
      HeadingsExact(lines[..|lines| - 1], k);
    }
  }

  lemma {:induction false} StartsAreHeadings(lines: seq<string>)
    ensures var h, starts := Headings(lines), Starts(lines);
            && |starts| == |h|
            && forall i | 0 <= i < |h| ::
                 h[i] < |lines| && starts[i] == Start(Offset(lines, h[i]), Label(lines[h[i]]))
  {
    hide Label, IsChapterHeading, Bytes, Join;
    if lines != [] {
      var front := lines[..|lines| - 1];
      StartsAreHeadings(front);
      forall k: nat | k < |front| ensures Offset(front, k) == Offset(lines, k) {
        assert front[..k] == lines[..k];
      }
    }
  }

  ghost predicate StartsRise(starts: seq<Start>, total: nat)
  {
    forall k | 0 <= k < |starts| :: starts[k].offset < EndOf(starts, total, k)
  }

  /** With rising starts no boundary is skipped. */
  lemma {:induction false} CutExact(starts: seq<Start>, total: nat, source: string, n: nat)
    requires n <= |starts| && StartsRise(starts, total)
    ensures |Cut(starts, total, source, n)| == n
    ensures forall k | 0 <= k < n :: Cut(starts, total, source, n)[k]
              == Boundary((k + 1) % TWO_TO_THE_32, starts[k].title, starts[k].offset, EndOf(starts, total, k), source)
  {
    hide EndOf;
    if n > 0 {
      CutExact(starts, total, source, n - 1);
    }
  }

  /** The line numbers at which the chapters start, with the line count after the last. */
  function Cuts(lines: seq<string>): seq<nat>
  {
    (if Headings(lines) == [] then [0] else Headings(lines)) + [|lines|]
  }

  ghost predicate CutsWithin(cuts: seq<nat>, n: nat)
  {
    Rising(cuts) && forall i | 0 <= i < |cuts| :: cuts[i] <= n
  }

  lemma CutsRise(lines: seq<string>)
    requires lines != []
    ensures CutsWithin(Cuts(lines), |lines|)
  {
    hide Headings;
    HeadingsRise(lines);
  }

  lemma StartsAtCuts(text: string)
    requires text != ""
    ensures var lines := Lines(text);
            var cuts, starts := Cuts(lines), StartsOrBody(lines);
            && |cuts| == |starts| + 1
            && CutsWithin(cuts, |lines|)
            && (forall i | 0 <= i < |starts| ::
                 && starts[i].offset == Offset(lines, cuts[i])
                 && EndOf(starts, |Bytes(text)|, i) == Offset(lines, cuts[i + 1]))
            && StartsRise(starts, |Bytes(text)|)
  {
    hide Label, IsChapterHeading, Offset, Lines, Bytes, Headings, Starts;
    var lines := Lines(text);
    TextHasLines(text);
    CutsRise(lines);
    StartsAreHeadings(lines);
    LinesStart(lines);
    WholeText(text);
    LinesJoin(text);
    var cuts, starts := Cuts(lines), StartsOrBody(lines);
    forall i | 0 <= i < |starts|
      ensures starts[i].offset == Offset(lines, cuts[i]) && EndOf(starts, |Bytes(text)|, i) == Offset(lines, cuts[i + 1])
      ensures starts[i].offset < EndOf(starts, |Bytes(text)|, i)
    {
      OffsetsRise(lines, cuts[i], cuts[i + 1]);
    }
  }

  lemma TextHasLines(text: string)
    requires text != ""
    ensures Lines(text) != []
  {
  }

  lemma WholeText(text: string)
    ensures Offset(Lines(text), |Lines(text)|) == |Bytes(text)|
  {
    LinesJoin(text);
    assert Lines(text)[..|Lines(text)|] == Lines(text);
  }

  /** Boundary `i` runs from line `cuts[i]` to line `cuts[i + 1]` and bears the label of its first line. */
  ghost predicate CutAt(b: seq<Boundary>, lines: seq<string>, cuts: seq<nat>, source: string)
  {
    && |cuts| == |b| + 1
    && CutsWithin(cuts, |lines|)
    && forall i | 0 <= i < |b| ::
         && cuts[i] < cuts[i + 1]
         && b[i].chapter == (i + 1) % TWO_TO_THE_32 && b[i].source == source
         && b[i].title == (if Headings(lines) == [] then BODY else Label(lines[cuts[i]]))
         && b[i].start == Offset(lines, cuts[i]) && b[i].end == Offset(lines, cuts[i + 1])
         && b[i].start < b[i].end
  }

  lemma CutAtMeets(b: seq<Boundary>, lines: seq<string>, cuts: seq<nat>, source: string)
    requires b != [] && CutAt(b, lines, cuts, source)
    ensures Contiguous(b)
    ensures b[0].start == Offset(lines, cuts[0]) && b[|b| - 1].end == Offset(lines, cuts[|b|])
  {
    hide Offset, Label;
    forall i | 0 < i < |b| ensures b[i - 1].end == b[i].start {
      var j := i - 1;
      assert b[j].end == Offset(lines, cuts[j + 1]);
      assert b[j + 1].start == Offset(lines, cuts[j + 1]);
    }
    var last := |b| - 1;
    assert b[last].end == Offset(lines, cuts[last + 1]);
  }

  lemma CutIsCutAt(starts: seq<Start>, total: nat, source: string, lines: seq<string>, cuts: seq<nat>)
    requires |cuts| == |starts| + 1 && CutsWithin(cuts, |lines|) && StartsRise(starts, total)
    requires forall i | 0 <= i < |starts| ::
               && starts[i].offset == Offset(lines, cuts[i]) && EndOf(starts, total, i) == Offset(lines, cuts[i + 1])
               && starts[i].title == if Headings(lines) == [] then BODY else Label(lines[cuts[i]])
    ensures CutAt(Cut(starts, total, source, |starts|), lines, cuts, source)
  {
    hide Label, Offset, Headings, EndOf, Cut;
    CutExact(starts, total, source, |starts|);
  }

  /**
   * Main result: what the index is. Indexing fails only on the empty text. Otherwise chapter by chapter the
   * boundaries run between the heading lines (or from the start when there is none), are numbered in order,
   * meet without a gap, and end with the text.
   */
  lemma IndexExactly(text: string, source: string)
    ensures Index(text, source).Err? <==> text == ""
    ensures Index(text, source).Ok? ==>
      var b := Index(text, source).value;
      && b != [] && CutAt(b, Lines(text), Cuts(Lines(text)), source)
      && b[|b| - 1].end == |Bytes(text)|
  {
    hide Label, IsChapterHeading, Offset, Bytes, Lines, Headings, Starts, Cut, EndOf;
    if text == "" {
      EmptyIndex(source);
    } else {
      var lines := Lines(text);
      StartsAtCuts(text);
      StartsAreHeadings(lines);
      CutIsCutAt(StartsOrBody(lines), |Bytes(text)|, source, lines, Cuts(lines));
      CutAtMeets(Index(text, source).value, lines, Cuts(lines), source);
      WholeText(text);
    }
  }

  lemma EmptyIndex(source: string)
    ensures Index("", source) == Err(NoContent)
  {
    assert Starts(Lines("")) == [];
    assert Cut([Start(0, BODY)], 0, source, 0) == [];
    assert Cut([Start(0, BODY)], 0, source, 1) == [];
  }

  // ----- The slices -----

  /** The bytes of a chapter. */
  function Slice(text: string, b: Boundary): seq<Octet>
    requires b.start <= b.end <= |Bytes(text)|
  {
    Bytes(text)[b.start..b.end]
  }

  lemma LineRun(lines: seq<string>, j: nat, k: nat)
    requires j <= k <= |lines|
    ensures Offset(lines, j) <= Offset(lines, k) <= |Bytes(Join(lines))|
    ensures Bytes(Join(lines))[Offset(lines, j)..Offset(lines, k)] == Bytes(Join(lines[j..k]))
  {
    hide Bytes, Join;
    var a, b, c := lines[..j], lines[j..k], lines[k..];
    assert lines[..k] == a + b && lines == (a + b) + c;
    JoinConcat(a, b);
    JoinConcat(a + b, c);
    BytesConcat(Join(a), Join(b));
    BytesConcat(Join(a + b), Join(c));
  }

  lemma NotBetween(cuts: seq<nat>, i: nat, k: nat)
    requires Rising(cuts) && i + 1 < |cuts| && cuts[i] < k < cuts[i + 1]
    ensures k !in cuts
  {
    forall j | 0 <= j < |cuts| ensures cuts[j] != k {
      assert j <= i || i + 1 <= j;
    }
  }

  /**
   * Main result: each slice is whole lines. The slice of a chapter is its heading line and the lines after it
   * that are not headings; with no heading it is every line.
   */
  lemma SlicesAreLineRuns(text: string, source: string, i: nat)
    requires Index(text, source).Ok? && i < |Index(text, source).value|
    ensures var b, lines := Index(text, source).value[i], Lines(text);
            var cuts := Cuts(lines);
            && i + 1 < |cuts| && cuts[i] < cuts[i + 1] <= |lines|
            && b.start <= b.end <= |Bytes(text)|
            && Slice(text, b) == Bytes(Join(lines[cuts[i]..cuts[i + 1]]))
            && (Headings(lines) != [] ==> IsChapterHeading(Label(lines[cuts[i]])))
            && (forall k | cuts[i] < k < cuts[i + 1] :: !IsChapterHeading(Label(lines[k])))
  {
    hide Label, IsChapterHeading, Offset, Bytes, Index, Lines, Join, Headings;
    IndexExactly(text, source);
    var lines := Lines(text);
    var cuts := Cuts(lines);
    LinesJoin(text);
    LineRun(lines, cuts[i], cuts[i + 1]);
    forall k | cuts[i] < k < cuts[i + 1] ensures !IsChapterHeading(Label(lines[k])) {
      HeadingsExact(lines, k);
      NotBetween(cuts, i, k);
    }
    HeadingsExact(lines, cuts[i]);
  }

  function JoinSlices(text: string, boundaries: seq<Boundary>): seq<Octet>
    requires forall b | b in boundaries :: b.start <= b.end <= |Bytes(text)|
  {
    if boundaries == [] then []
    else JoinSlices(text, boundaries[..|boundaries| - 1]) + Slice(text, boundaries[|boundaries| - 1])
  }

  ghost predicate Contiguous(boundaries: seq<Boundary>)
  {
    && (forall i | 0 <= i < |boundaries| :: boundaries[i].start < boundaries[i].end)
    && (forall i | 0 < i < |boundaries| :: boundaries[i - 1].end == boundaries[i].start)
  }

  lemma SlicesMeet(s: seq<Octet>, a: nat, b: nat, c: nat)
    requires a <= b <= c <= |s|
    ensures s[a..b] + s[b..c] == s[a..c]
  {
  }

  lemma {:induction false} ContiguousSlicesJoin(text: string, boundaries: seq<Boundary>)
    requires boundaries != [] && Contiguous(boundaries)
    requires forall b | b in boundaries :: b.start <= b.end <= |Bytes(text)|
    ensures boundaries[0].start < boundaries[|boundaries| - 1].end
    ensures JoinSlices(text, boundaries) == Bytes(text)[boundaries[0].start..boundaries[|boundaries| - 1].end]
  {
    hide Bytes;
    var front, last := boundaries[..|boundaries| - 1], boundaries[|boundaries| - 1];
    assert last in boundaries;
    if front == [] {
      assert JoinSlices(text, front) == [];
    } else {
      assert forall b | b in front :: b in boundaries;
      ContiguousSlicesJoin(text, front);
      SlicesMeet(Bytes(text), boundaries[0].start, last.start, last.end);
    }
  }

  lemma IndexIsContiguous(text: string, source: string)
    requires Index(text, source).Ok?
    ensures var b := Index(text, source).value;
            && b != [] && Contiguous(b) && (forall c | c in b :: c.start <= c.end <= |Bytes(text)|)
            && b[|b| - 1].end == |Bytes(text)|
  {
    hide Label, IsChapterHeading, Offset, Bytes, Lines, Join, Headings, Index, Cuts;
    IndexExactly(text, source);
    var b := Index(text, source).value;
    CutAtMeets(b, Lines(text), Cuts(Lines(text)), source);
    forall c | c in b ensures c.start <= c.end <= |Bytes(text)| {
      var i :| 0 <= i < |b| && b[i] == c;
      LinesJoin(text);
      LineRun(Lines(text), Cuts(Lines(text))[i], Cuts(Lines(text))[i + 1]);
    }
  }

  /** The slices joined give back the text from the first heading on, or all of it when there is no heading. */
  lemma SlicesRebuildText(text: string, source: string)
    requires Index(text, source).Ok?
    ensures var b, lines := Index(text, source).value, Lines(text);
            && b != [] && (forall c | c in b :: c.start <= c.end <= |Bytes(text)|)
            && JoinSlices(text, b) == Bytes(text)[b[0].start..]
            && Cuts(lines)[0] <= |lines| && b[0].start == Offset(lines, Cuts(lines)[0])
  {
    hide Label, IsChapterHeading, Offset, Bytes, Lines, Join, Headings, Cut, Index;
    IndexExactly(text, source);
    IndexIsContiguous(text, source);
    ContiguousSlicesJoin(text, Index(text, source).value);
    CutAtMeets(Index(text, source).value, Lines(text), Cuts(Lines(text)), source);
  }

  // ----- The separate checker -----

  predicate CanonicalFingerprint(s: string)
  {
    |s| == 71 && s[..7] == "sha256:"
    && forall i | 7 <= i < 71 :: '0' <= s[i] <= '9' || 'a' <= s[i] <= 'f' || 'A' <= s[i] <= 'F'
  }

  predicate Accepts(boundaries: seq<Boundary>, source: string, i: nat)
    requires i < |boundaries|
  {
    var b := boundaries[i];
    && b.chapter == i + 1 && Trim(b.title) != "" && b.start < b.end && b.source == source
    && (i > 0 ==> boundaries[i - 1].end <= b.start)
  }

  function Check(boundaries: seq<Boundary>, source: string): Option<Error>
  {
    if !CanonicalFingerprint(source) then Some(FingerprintInvalid)
    else if boundaries == [] then Some(NoBoundaries)
    else if forall i | 0 <= i < |boundaries| :: Accepts(boundaries, source, i) then None
    else Some(NotContiguous)
  }

  method ValidateBoundaries(boundaries: seq<Boundary>, source: string) returns (error: Option<Error>)
    ensures error == Check(boundaries, source)
  {
    hide Trim, CanonicalFingerprint;
    if !CanonicalFingerprint(source) {
      return Some(FingerprintInvalid);
    }
    if boundaries == [] {
      return Some(NoBoundaries);
    }
    for i := 0 to |boundaries|
      invariant forall k | 0 <= k < i :: Accepts(boundaries, source, k)
    {
      var b := boundaries[i];
      if b.chapter != i + 1 || Trim(b.title) == "" || b.start >= b.end || b.source != source
         || (i > 0 && boundaries[i - 1].end > b.start) {
        assert !Accepts(boundaries, source, i);
        return Some(NotContiguous);
      }
    }
    return None;
  }

  lemma HeadingHasTitle(heading: string)
    requires IsChapterHeading(heading)
    ensures Trim(heading) != ""
  {
    hide Trim, Bytes;
  }

  lemma BodyHasTitle()
    ensures Trim(BODY) != ""
  {
    assert TrimStart(BODY) == BODY;
    assert TrimEnd(BODY) == BODY;
  }

  lemma {:induction false} FewerThanBytes(b: seq<Boundary>)
    requires b != [] && Contiguous(b)
    ensures |b| <= b[|b| - 1].end
  {
    if |b| > 1 {
      FewerThanBytes(b[..|b| - 1]);
    }
  }

  /**
   * Main result: the index always passes the separate checker. The bound on the text is the one that reading
   * a work enforces; it keeps the 32-bit chapter numbers from wrapping.
   */
  lemma IndexPassesCheck(text: string, source: string)
    requires Index(text, source).Ok? && CanonicalFingerprint(source) && |Bytes(text)| <= MAX_WORK_BYTES
    ensures Check(Index(text, source).value, source) == None
  {
    hide Label, IsChapterHeading, Offset, Bytes, Lines, Join, Headings, Cut, Index, Trim, CanonicalFingerprint;
    IndexExactly(text, source);
    IndexIsContiguous(text, source);
    var b := Index(text, source).value;
    FewerThanBytes(b);
    forall i | 0 <= i < |b| ensures Accepts(b, source, i) {
      IndexHasTitle(text, source, i);
    }
  }

  lemma IndexHasTitle(text: string, source: string, i: nat)
    requires Index(text, source).Ok? && i < |Index(text, source).value|
    ensures Trim(Index(text, source).value[i].title) != ""
  {
    hide Label, IsChapterHeading, Offset, Bytes, Lines, Join, Headings, Cut, Index, Trim;
    IndexExactly(text, source);
    SlicesAreLineRuns(text, source, i);
    if Headings(Lines(text)) == [] {
      BodyHasTitle();
    } else {
      HeadingHasTitle(Index(text, source).value[i].title);
    }
  }
}
