/**
 * Reading the data events of an event stream by splitting it at blank lines, and the one-pass line
 * machine of the WHATWG HTML standard, section 9.2.6, that it agrees with.
 */
module EventStream {

  // ----- Strings -----

  /** The number of characters before the first line feed. */
  function LineLength(s: string): (n: nat)
    ensures n <= |s| && (n < |s| ==> s[n] == '\n') && '\n' !in s[..n]
  {
    if s == "" || s[0] == '\n' then 0 else 1 + LineLength(s[1..])
  }

  /** The lines of a text; a last line that is empty does not count. */
  function Lines(s: string): seq<string>
  {
    if s == "" then []
    else
      var n := LineLength(s);
      if n == |s| then [s] else [s[..n]] + Lines(s[n + 1..])
  }

  /** The place of the first two line feeds in a row. */
  function BlankAt(s: string): (n: nat)
    ensures n <= |s| && (n < |s| ==> n + 1 < |s| && s[n] == '\n' && s[n + 1] == '\n')
    ensures forall k | 0 <= k < n && k + 1 < |s| :: !(s[k] == '\n' && s[k + 1] == '\n')
  {
    if |s| < 2 then |s| else if s[0] == '\n' && s[1] == '\n' then 0 else 1 + BlankAt(s[1..])
  }

  function SplitAtBlanks(s: string): seq<string>
  {
    var n := BlankAt(s);
    if n == |s| then [s] else [s[..n]] + SplitAtBlanks(s[n + 2..])
  }

  function JoinLines(lines: seq<string>): string
  {
    if lines == [] then "" else if |lines| == 1 then lines[0] else lines[0] + "\n" + JoinLines(lines[1..])
  }

  function ReplaceCrLf(s: string): string
  {
    if s == "" then ""
    else if |s| >= 2 && s[0] == '\r' && s[1] == '\n' then "\n" + ReplaceCrLf(s[2..])
    else [s[0]] + ReplaceCrLf(s[1..])
  }

  function ReplaceCr(s: string): string
  {
    if s == "" then "" else [if s[0] == '\r' then '\n' else s[0]] + ReplaceCr(s[1..])
  }

  function Normalized(s: string): string { ReplaceCr(ReplaceCrLf(s)) }

  // ----- Reading -----

  /** The number of characters before the first colon. */
  function FieldLength(line: string): (n: nat)
    ensures n <= |line|
  {
    if line == "" || line[0] == ':' then 0 else 1 + FieldLength(line[1..])
  }

  /** The data that a line carries: none, or one value. */
  function DataOf(line: string): seq<string>
  {
    if ":" <= line then []
    else
      var n := FieldLength(line);
      var value := if n < |line| then line[n + 1..] else "";
      if line[..n] != "data" then [] else [if " " <= value then value[1..] else value]
  }

  function DataOfAll(lines: seq<string>): seq<string>
  {
    if lines == [] then [] else DataOfAll(lines[..|lines| - 1]) + DataOf(lines[|lines| - 1])
  }

  function Flush(data: seq<string>): seq<string> { if data == [] then [] else [JoinLines(data)] }

  function EventsOf(pieces: seq<string>): seq<string>
  {
    if pieces == [] then []
    else EventsOf(pieces[..|pieces| - 1]) + Flush(DataOfAll(Lines(pieces[|pieces| - 1])))
  }

  function Events(stream: string): seq<string> { EventsOf(SplitAtBlanks(Normalized(stream))) }

  method SseDataEvents(stream: string) returns (events: seq<string>)
    ensures events == Events(stream)
  {
    hide SplitAtBlanks, Normalized, Lines;
    var pieces := SplitAtBlanks(Normalized(stream));
    events := [];
    for p := 0 to |pieces|
      invariant events == EventsOf(pieces[..p])
    {
      var lines := Lines(pieces[p]);
      var data: seq<string> := [];
      for l := 0 to |lines|
        invariant data == DataOfAll(lines[..l])
      {
        var line := lines[l];
        assert lines[..l + 1][..l] == lines[..l];
        if ":" <= line {
          continue;
        }
        var n := FieldLength(line);
        var field, value := line[..n], if n < |line| then line[n + 1..] else "";
        if field != "data" {
          continue;
        }
        data := data + [if " " <= value then value[1..] else value];
      }
      assert lines[..|lines|] == lines && pieces[..p + 1][..p] == pieces[..p];
      if data != [] {
        events := events + [JoinLines(data)];
      }
    }
    assert pieces[..|pieces|] == pieces;
  }

  // ----- The line machine -----

  datatype Machine = Machine(events: seq<string>, data: seq<string>)

  /** A blank line dispatches the data gathered so far; any other line may add to it. */
  function Feed(m: Machine, line: string): Machine
  {
    if line == "" then Machine(m.events + Flush(m.data), []) else m.(data := m.data + DataOf(line))
  }

  function FeedAll(m: Machine, lines: seq<string>): Machine
  {
    if lines == [] then m else Feed(FeedAll(m, lines[..|lines| - 1]), lines[|lines| - 1])
  }

  lemma {:induction false} FeedConcat(m: Machine, a: seq<string>, b: seq<string>)
    ensures FeedAll(m, a + b) == FeedAll(FeedAll(m, a), b)
  {
    hide Feed;
    if b == [] {
      assert a + b == a;
    } else {
      FeedConcat(m, a, b[..|b| - 1]);
      assert (a + b)[..|a + b| - 1] == a + b[..|b| - 1];
    }
  }

  /** Lines of which none after the first is blank only gather data, if none was gathered before. */
  lemma {:induction false} FeedRun(m: Machine, lines: seq<string>)
    requires m.data == [] && forall i | 0 < i < |lines| :: lines[i] != ""
    ensures FeedAll(m, lines) == Machine(m.events, DataOfAll(lines))
  {
    hide DataOf;
    if lines != [] {
      FeedRun(m, lines[..|lines| - 1]);
      if lines[|lines| - 1] == "" {
        BlankHasNoData();
      }
    }
  }

  lemma BlankHasNoData()
    ensures DataOf("") == []
  {
    assert ""[..0] == "";
  }

  lemma LinesStep(s: string)
    requires LineLength(s) < |s|
    ensures Lines(s) == [s[..LineLength(s)]] + Lines(s[LineLength(s) + 1..])
  {
    hide LineLength;
  }

  /** A text cut after a line feed has the lines of both parts. */
  lemma {:induction false} LinesCut(a: string, b: string)
    requires a == "" || a[|a| - 1] == '\n'
    ensures Lines(a + b) == Lines(a) + Lines(b)
  {
    hide Lines, LineLength;
    if a == "" {
      assert a + b == b;
      NoLines(Machine([], []));
    } else {
      var n := LineLength(a);
      FirstLineSame(a, b);
      LinesStep(a);
      LinesStep(a + b);
      assert (a + b)[n + 1..] == a[n + 1..] + b && (a + b)[..n] == a[..n];
      LinesCut(a[n + 1..], b);
    }
  }

  lemma {:induction false} FirstLineSame(a: string, b: string)
    requires '\n' in a
    ensures LineLength(a + b) == LineLength(a) < |a|
  {
    if a[0] != '\n' {
      assert (a + b)[1..] == a[1..] + b && a == [a[0]] + a[1..];
      FirstLineSame(a[1..], b);
    }
  }

  lemma OnlyLine(a: string)
    requires a != "" && LineLength(a) == |a|
    ensures Lines(a) == [a]
  {
  }

  /** Ending the last line adds none. */
  lemma {:induction false} LinesEnd(a: string)
    requires a != "" && a[|a| - 1] != '\n'
    ensures Lines(a + "\n") == Lines(a)
  {
    hide Lines, LineLength;
    var n := LineLength(a);
    if n == |a| {
      assert a[..n] == a && a + "\n" + "" == a + "\n";
      OneLine(a, "");
      NoLines(Machine([], []));
      OnlyLine(a);
    } else {
      assert a[n] == '\n' && '\n' in a;
      FirstLineSame(a, "\n");
      LinesStep(a);
      LinesStep(a + "\n");
      assert (a + "\n")[n + 1..] == a[n + 1..] + "\n" && (a + "\n")[..n] == a[..n];
      LinesEnd(a[n + 1..]);
    }
  }

  lemma {:induction false} LineLengthOf(a: string, b: string)
    requires '\n' !in a
    ensures LineLength(a + "\n" + b) == |a|
  {
    if a != "" {
      assert (a + "\n" + b)[1..] == a[1..] + "\n" + b;
      LineLengthOf(a[1..], b);
    }
  }

  lemma OneLine(a: string, b: string)
    requires '\n' !in a
    ensures Lines(a + "\n" + b) == [a] + Lines(b)
  {
    var s := a + "\n" + b;
    LineLengthOf(a, b);
    assert s[..|a|] == a && s[|a| + 1..] == b;
  }

  /** No line of a text without a blank line is blank, except perhaps the first. */
  lemma {:induction false} NoBlankInside(s: string)
    requires forall k | 0 <= k < |s| - 1 :: !(s[k] == '\n' && s[k + 1] == '\n')
    ensures forall i | 0 < i < |Lines(s)| :: Lines(s)[i] != ""
  {
    if s != "" && LineLength(s) < |s| {
      var rest := s[LineLength(s) + 1..];
      NoBlankInside(rest);
      if rest != "" {
        assert rest[0] == s[LineLength(s) + 1] != '\n';
        assert LineLength(rest) > 0;
      }
      assert Lines(s)[1..] == Lines(rest);
    }
  }

  /** The lines of a piece, the blank line that ends it, and the rest. */
  lemma LinesAroundBlank(p: string, q: string)
    requires p == "" || p[|p| - 1] != '\n'
    ensures Lines(p + "\n" + ("\n" + q)) == (if |p| == 0 then [""] else Lines(p)) + [""] + Lines(q)
  {
    hide Lines;
    assert "" + "\n" + q == "\n" + q;
    OneLine("", q);
    if |p| == 0 {
      OneLine(p, "\n" + q);
    } else {
      LinesCut(p + "\n", "\n" + q);
      LinesEnd(p);
    }
  }

  lemma {:induction false} EventsOfCons(first: string, rest: seq<string>)
    ensures EventsOf([first] + rest) == Flush(DataOfAll(Lines(first))) + EventsOf(rest)
  {
    hide Lines, DataOfAll, Flush;
    var all := [first] + rest;
    if rest == [] {
      assert all == [first] && [first][..0] == [];
      assert EventsOf([]) == [];
    } else {
      EventsOfCons(first, rest[..|rest| - 1]);
      assert all[..|all| - 1] == [first] + rest[..|rest| - 1];
    }
  }

  /** One piece that ends in a blank line. */
  lemma PieceFeeds(m: Machine, p: string, q: string)
    requires m.data == [] && (p == "" || p[|p| - 1] != '\n')
    requires forall k | 0 <= k < |p| - 1 :: !(p[k] == '\n' && p[k + 1] == '\n')
    ensures FeedAll(m, Lines(p + "\n" + ("\n" + q))) == FeedAll(AfterPiece(m, p), Lines(q))
  {
    hide Lines, FeedAll, AfterPiece, Feed;
    LinesAroundBlank(p, q);
    FeedConcat(m, (if |p| == 0 then [""] else Lines(p)) + [""], Lines(q));
    PieceDispatches(m, p);
  }

  lemma CutAtBlank(s: string)
    requires BlankAt(s) < |s|
    ensures var p, q := s[..BlankAt(s)], s[BlankAt(s) + 2..];
            && s == p + "\n" + ("\n" + q)
            && (p == "" || p[|p| - 1] != '\n')
            && forall k | 0 <= k < |p| - 1 :: !(p[k] == '\n' && p[k + 1] == '\n')
  {
    var n := BlankAt(s);
    if n > 0 {
      var k := n - 1;
      assert s[k] != '\n';
    }
  }

  /** The machine after a piece and the blank line that ends it. */
  function AfterPiece(m: Machine, p: string): Machine
  {
    Machine(m.events + Flush(DataOfAll(Lines(p))), [])
  }

  lemma PieceDispatches(m: Machine, p: string)
    requires m.data == [] && forall k | 0 <= k < |p| - 1 :: !(p[k] == '\n' && p[k + 1] == '\n')
    ensures FeedAll(m, (if |p| == 0 then [""] else Lines(p)) + [""]) == AfterPiece(m, p)
  {
    hide Lines, DataOfAll, Flush, FeedAll, DataOf;
    var head := if |p| == 0 then [""] else Lines(p);
    FeedConcat(m, head, [""]);
    FeedOne(FeedAll(m, head), "");
    NothingGathered("");
    if |p| == 0 {
      FeedOne(m, "");
    } else {
      NoBlankInside(p);
      FeedRun(m, Lines(p));
    }
  }

  lemma FeedOne(m: Machine, line: string)
    ensures FeedAll(m, [line]) == Feed(m, line)
  {
    assert [line][..0] == [];
    assert FeedAll(m, []) == m;
  }

  lemma NothingGathered(p: string)
    requires p == ""
    ensures DataOfAll(Lines(p)) == [] && Flush([]) == []
  {
  }

  lemma {:induction false} SplitIsMachine(m: Machine, s: string)
    requires m.data == []
    ensures var end := FeedAll(m, Lines(s));
            end.events + Flush(end.data) == m.events + EventsOf(SplitAtBlanks(s))
    decreases |s|
  {
    hide Lines, DataOfAll, Flush, EventsOf, FeedAll, SplitAtBlanks, BlankAt;
    var n := BlankAt(s);
    SplitStep(s);
    if n == |s| {
      NoBlankInside(s);
      FeedRun(m, Lines(s));
      EventsOfCons(s, []);
      NoPieces();
      assert [s] + [] == [s];
    } else {
      CutAtBlank(s);
      PieceFeeds(m, s[..n], s[n + 2..]);
      SplitIsMachine(AfterPiece(m, s[..n]), s[n + 2..]);
      EventsOfCons(s[..n], SplitAtBlanks(s[n + 2..]));
    }
  }

  lemma SplitStep(s: string)
    ensures var n := BlankAt(s);
      SplitAtBlanks(s) == if n == |s| then [s] else [s[..n]] + SplitAtBlanks(s[n + 2..])
  {
    hide BlankAt;
  }

  lemma NoPieces()
    ensures EventsOf([]) == []
  {
  }

  function RunMachine(stream: string): Machine { FeedAll(Machine([], []), Lines(Normalized(stream))) }

  /**
   * Main result: splitting at blank lines reads what the one-pass machine dispatches, and then what it still
   * holds at the end of the input. The standard drops that last, unterminated event.
   */
  lemma EventsAreDispatched(stream: string)
    ensures Events(stream) == RunMachine(stream).events + Flush(RunMachine(stream).data)
  {
    hide Lines, Normalized, FeedAll, EventsOf, SplitAtBlanks;
    SplitIsMachine(Machine([], []), Normalized(stream));
  }

  // ----- Writing -----

  /** The lines of an event, empty last line included. */
  function EventLines(event: string): (lines: seq<string>)
    ensures lines != []
  {
    var n := LineLength(event);
    if n == |event| then [event] else [event[..n]] + EventLines(event[n + 1..])
  }

  function WriteLines(lines: seq<string>): string
  {
    if lines == [] then "" else "data: " + lines[0] + "\n" + WriteLines(lines[1..])
  }

  function Write(events: seq<string>): string
  {
    if events == [] then "" else WriteLines(EventLines(events[0])) + "\n" + Write(events[1..])
  }

  lemma JoinOne(line: string)
    ensures JoinLines([line]) == line
  {
  }

  lemma JoinLinesCons(first: string, rest: seq<string>)
    requires rest != []
    ensures JoinLines([first] + rest) == first + "\n" + JoinLines(rest)
  {
    assert ([first] + rest)[1..] == rest;
  }

  lemma {:induction false} EventLinesJoin(event: string)
    ensures JoinLines(EventLines(event)) == event
    ensures forall line | line in EventLines(event) :: '\n' !in line
  {
    hide LineLength, JoinLines;
    var n := LineLength(event);
    if n == |event| {
      assert event[..n] == event;
      JoinOne(event);
    } else {
      var rest := EventLines(event[n + 1..]);
      EventLinesJoin(event[n + 1..]);
      JoinLinesCons(event[..n], rest);
      assert EventLines(event) == [event[..n]] + rest;
      assert event == event[..n] + "\n" + event[n + 1..];
    }
  }

  lemma WrittenLine(line: string, rest: string)
    requires '\n' !in line
    ensures Lines("data: " + line + "\n" + rest) == ["data: " + line] + Lines(rest)
    ensures DataOf("data: " + line) == [line]
  {
    hide Lines;
    OneLine("data: " + line, rest);
    var s := "data: " + line;
    FieldOfData(" " + line);
    assert s == "data" + ":" + (" " + line);
    assert s[..4] == "data" && s[5..] == " " + line && (" " + line)[1..] == line;
  }

  lemma FieldOfData(value: string)
    ensures FieldLength("data" + ":" + value) == 4
  {
    var s := "data" + ":" + value;
    assert s[0] == 'd' && s[1..][0] == 'a' && s[2..][0] == 't' && s[3..][0] == 'a' && s[4..][0] == ':';
    assert s[1..][1..] == s[2..] && s[2..][1..] == s[3..] && s[3..][1..] == s[4..];
    assert FieldLength(s[4..]) == 0;
    assert FieldLength(s[3..]) == 1;
    assert FieldLength(s[2..]) == 2;
  }

  /** Feeding the written lines of an event gathers those lines. */
  lemma {:induction false} WrittenLinesGather(m: Machine, lines: seq<string>, rest: string)
    requires forall line | line in lines :: '\n' !in line
    ensures FeedAll(m, Lines(WriteLines(lines) + rest)) == FeedAll(Machine(m.events, m.data + lines), Lines(rest))
    decreases |lines|
  {
    hide Lines, FeedAll, DataOf;
    if lines == [] {
      assert WriteLines(lines) + rest == rest && m.data + lines == m.data;
    } else {
      var first, later := "data: " + lines[0], WriteLines(lines[1..]) + rest;
      assert WriteLines(lines) + rest == "data: " + lines[0] + "\n" + later;
      WrittenLine(lines[0], later);
      FeedConcat(m, [first], Lines(later));
      FeedOne(m, first);
      WrittenLinesGather(Feed(m, first), lines[1..], rest);
      assert m.data + [lines[0]] + lines[1..] == m.data + lines;
    }
  }

  lemma {:induction false} WrittenEventsDispatch(m: Machine, events: seq<string>)
    requires m.data == []
    ensures FeedAll(m, Lines(Write(events))) == Machine(m.events + events, [])
    decreases |events|
  {
    hide Lines, FeedAll, JoinLines, EventLines, WriteLines;
    if events == [] {
      NoLines(m);
    } else {
      var lines, rest := EventLines(events[0]), Write(events[1..]);
      EventLinesJoin(events[0]);
      assert Write(events) == WriteLines(lines) + ("" + "\n" + rest);
      WrittenLinesGather(m, lines, "" + "\n" + rest);
      var gathered := Machine(m.events, m.data + lines);
      OneLine("", rest);
      FeedConcat(gathered, [""], Lines(rest));
      FeedOne(gathered, "");
      assert m.data + lines == lines;
      WrittenEventsDispatch(Machine(m.events + [events[0]], []), events[1..]);
      assert m.events + [events[0]] + events[1..] == m.events + events;
    }
  }

  lemma NoLines(m: Machine)
    ensures Lines("") == [] && FeedAll(m, []) == m
  {
  }

  lemma {:induction false} NormalizedHasNoCr(s: string)
    ensures '\r' !in Normalized(s) && ('\r' !in s ==> Normalized(s) == s)
  {
    CrLfReplaced(s);
    CrReplaced(ReplaceCrLf(s));
  }

  lemma {:induction false} CrReplaced(s: string)
    ensures '\r' !in ReplaceCr(s) && ('\r' !in s ==> ReplaceCr(s) == s)
  {
    if s != "" {
      CrReplaced(s[1..]);
    }
  }

  lemma {:induction false} CrLfReplaced(s: string)
    ensures '\r' !in s ==> ReplaceCrLf(s) == s
  {
    if s != "" && '\r' !in s {
      CrLfReplaced(s[1..]);
    }
  }

  lemma {:induction false} WriteHasNoCr(events: seq<string>)
    requires forall e | e in events :: '\r' !in e
    ensures '\r' !in Write(events)
  {
    hide EventLines, WriteLines;
    if events != [] {
      WriteHasNoCr(events[1..]);
      EventLinesFrom(events[0]);
      WriteLinesHasNoCr(EventLines(events[0]));
    }
  }

  lemma {:induction false} EventLinesFrom(event: string)
    requires '\r' !in event
    ensures forall line | line in EventLines(event) :: '\r' !in line
  {
    if LineLength(event) < |event| {
      EventLinesFrom(event[LineLength(event) + 1..]);
    }
  }

  lemma {:induction false} WriteLinesHasNoCr(lines: seq<string>)
    requires forall line | line in lines :: '\r' !in line
    ensures '\r' !in WriteLines(lines)
  {
    if lines != [] {
      WriteLinesHasNoCr(lines[1..]);
    }
  }

  /** Nothing read from a stream holds a carriage return. */
  lemma {:induction false} PiecesFrom(s: string)
    requires '\r' !in s
    ensures forall p | p in SplitAtBlanks(s) :: '\r' !in p
  {
    if BlankAt(s) < |s| {
      PiecesFrom(s[BlankAt(s) + 2..]);
    }
  }

  lemma {:induction false} LinesFrom(s: string)
    requires '\r' !in s
    ensures forall line | line in Lines(s) :: '\r' !in line
  {
    if s != "" && LineLength(s) < |s| {
      LinesFrom(s[LineLength(s) + 1..]);
    }
  }

  lemma {:induction false} DataFrom(lines: seq<string>)
    requires forall line | line in lines :: '\r' !in line
    ensures forall d | d in DataOfAll(lines) :: '\r' !in d
  {
    if lines != [] {
      var front, last := lines[..|lines| - 1], lines[|lines| - 1];
      assert forall line | line in front :: line in lines;
      DataFrom(front);
      assert last in lines;
      assert forall d | d in DataOf(last) :: forall c | c in d :: c in last;
    }
  }

  lemma {:induction false} JoinFrom(lines: seq<string>)
    requires forall line | line in lines :: '\r' !in line
    ensures '\r' !in JoinLines(lines)
  {
    if |lines| > 1 {
      JoinFrom(lines[1..]);
    }
  }

  lemma {:induction false} EventsFrom(pieces: seq<string>)
    requires forall p | p in pieces :: '\r' !in p
    ensures forall e | e in EventsOf(pieces) :: '\r' !in e
  {
    hide Lines, DataOfAll, JoinLines;
    if pieces != [] {
      EventsFrom(pieces[..|pieces| - 1]);
      LinesFrom(pieces[|pieces| - 1]);
      DataFrom(Lines(pieces[|pieces| - 1]));
      JoinFrom(DataOfAll(Lines(pieces[|pieces| - 1])));
    }
  }

  /**
   * Main result: the round trip. Events written as data lines are read back as they were exactly when none
   * holds a carriage return.
   */
  lemma WrittenEventsReadBack(events: seq<string>)
    ensures Events(Write(events)) == events <==> forall e | e in events :: '\r' !in e
  {
    hide Lines, FeedAll, Normalized, Write, SplitAtBlanks, EventsOf;
    var s := Write(events);
    NormalizedHasNoCr(s);
    if forall e | e in events :: '\r' !in e {
      WriteHasNoCr(events);
      EventsAreDispatched(s);
      WrittenEventsDispatch(Machine([], []), events);
      assert [] + events == events;
    }
    PiecesFrom(Normalized(s));
    EventsFrom(SplitAtBlanks(Normalized(s)));
  }
}
