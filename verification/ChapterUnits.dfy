/**
 * The work units of a study's stages. Those of chapter extraction are the chapters of each work, greedily
 * grouped into runs of at most 192 KiB; the other stages go by work, or have a single unit.
 */
module ChapterUnits {
  import opened Common
  import opened ChapterBoundaries
  import StudyRunner
  import StudyInvariant

  const MAX_SPAN := 192 * 1024

  /** A run of chapters, from `first` up to but not including `next`. */
  datatype Run = Run(first: nat, next: nat)

  datatype ChapterUnit = ChapterUnit(work: string, run: Run)

  datatype StudiedWork = StudiedWork(id: string, boundaries: seq<Boundary>)

  /** Subtraction that stops at zero, as on unsigned offsets. */
  function Span(b: seq<Boundary>, first: nat, last: nat): nat
    requires first < |b| && last < |b|
  {
    if b[last].end < b[first].start then 0 else b[last].end - b[first].start
  }

  /** Extends the run from `first` while the next chapter still fits. */
  function RunEnd(b: seq<Boundary>, first: nat, next: nat): (end: nat)
    requires first < next <= |b|
    ensures next <= end <= |b|
    ensures forall k | next <= k < end :: Span(b, first, k) <= MAX_SPAN
    ensures end < |b| ==> Span(b, first, end) > MAX_SPAN
    decreases |b| - next
  {
    if next < |b| && Span(b, first, next) <= MAX_SPAN then RunEnd(b, first, next + 1) else next
  }

  function Runs(b: seq<Boundary>, first: nat): seq<Run>
    requires first <= |b|
    decreases |b| - first
  {
    if first == |b| then []
    else
      var next := RunEnd(b, first, first + 1);
      [Run(first, next)] + Runs(b, next)
  }

  function Tag(work: string, runs: seq<Run>): seq<ChapterUnit>
  {
    seq(|runs|, i requires 0 <= i < |runs| => ChapterUnit(work, runs[i]))
  }

  function Units(works: seq<StudiedWork>): seq<ChapterUnit>
  {
    if works == [] then []
    else
      var last := works[|works| - 1];
      Units(works[..|works| - 1]) + Tag(last.id, Runs(last.boundaries, 0))
  }

  lemma TagStep(work: string, b: seq<Boundary>, first: nat)
    requires first < |b|
    ensures var next := RunEnd(b, first, first + 1);
      Tag(work, Runs(b, first)) == [ChapterUnit(work, Run(first, next))] + Tag(work, Runs(b, next))
  {
  }

  lemma TagEnd(work: string, b: seq<Boundary>)
    ensures Tag(work, Runs(b, |b|)) == []
  {
  }

  /** The text key of a unit: work, first chapter and end. */
  function UnitKey(u: ChapterUnit): string
  {
    u.work + ":" + Decimal(u.run.first) + ":" + Decimal(u.run.next)
  }

  function UnitKeys(units: seq<ChapterUnit>): seq<string>
  {
    seq(|units|, i requires 0 <= i < |units| => UnitKey(units[i]))
  }

  function WorkIds(works: seq<StudiedWork>): seq<string>
  {
    seq(|works|, i requires 0 <= i < |works| => works[i].id)
  }

  function UnitsOf(stage: StudyRunner.Stage, works: seq<StudiedWork>): seq<string>
  {
    match stage
    case ChapterExtraction => UnitKeys(Units(works))
    case GoldenThree => WorkIds(works)
    case StoryEntities => WorkIds(works)
    case _ => ["all"]
  }

  method StageUnits(stage: StudyRunner.Stage, works: seq<StudiedWork>) returns (units: seq<string>)
    ensures units == UnitsOf(stage, works)
  {
    hide Span, Tag, UnitKey;
    if stage != StudyRunner.GoldenThree && stage != StudyRunner.ChapterExtraction && stage != StudyRunner.StoryEntities {
      return ["all"];
    }
    if stage != StudyRunner.ChapterExtraction {
      return WorkIds(works);
    }
    units := [];
    for w := 0 to |works|
      invariant units == UnitKeys(Units(works[..w]))
    {
      var item, b, start := works[w], works[w].boundaries, 0;
      ghost var before := Units(works[..w]);
      ghost var done := before;
      while start < |b|
        invariant start <= |b| && units == UnitKeys(done)
        invariant done + Tag(item.id, Runs(b, start)) == before + Tag(item.id, Runs(b, 0))
      {
        var end := start + 1;
        while end < |b| && Span(b, start, end) <= MAX_SPAN
          invariant start < end <= |b|
          invariant RunEnd(b, start, end) == RunEnd(b, start, start + 1)
        {
          end := end + 1;
        }
        TagStep(item.id, b, start);
        ghost var unit := ChapterUnit(item.id, Run(start, end));
        KeysAppend(done, unit);
        done := done + [unit];
        units := units + [UnitKey(ChapterUnit(item.id, Run(start, end)))];
        start := end;
      }
      TagEnd(item.id, b);
      assert works[..w + 1][..w] == works[..w];
    }
    assert works[..|works|] == works;
  }

  lemma KeysAppend(units: seq<ChapterUnit>, u: ChapterUnit)
    ensures UnitKeys(units + [u]) == UnitKeys(units) + [UnitKey(u)]
  {
    hide UnitKey;
  }

  // ----- A partition -----

  /** Whether a run may be a unit: one chapter, or at most the limit from its start to its last end. */
  predicate Fits(b: seq<Boundary>, r: Run)
  {
    r.first < r.next <= |b| && (r.next == r.first + 1 || Span(b, r.first, r.next - 1) <= MAX_SPAN)
  }

  /** The runs cover the chapters from `first` on, once each and in order, and every run fits. */
  predicate Partitions(runs: seq<Run>, b: seq<Boundary>, first: nat)
  {
    if runs == [] then first == |b|
    else runs[0].first == first && Fits(b, runs[0]) && Partitions(runs[1..], b, runs[0].next)
  }

  /** Greedy grouping partitions the chapters, whatever the boundaries are. */
  lemma {:induction false} RunsPartition(b: seq<Boundary>, first: nat)
    requires first <= |b|
    ensures Partitions(Runs(b, first), b, first)
    decreases |b| - first
  {
    if first < |b| {
      RunsPartition(b, RunEnd(b, first, first + 1));
    }
  }

  /** In a partition every chapter lies in exactly one run. */
  lemma {:induction false} ExactlyOneRun(runs: seq<Run>, b: seq<Boundary>, first: nat, k: nat) returns (i: nat)
    requires Partitions(runs, b, first) && first <= k < |b|
    ensures i < |runs| && runs[i].first <= k < runs[i].next
    ensures forall j | 0 <= j < |runs| && runs[j].first <= k < runs[j].next :: j == i
  {
    var rest := runs[1..];
    RunsStartLater(rest, b, runs[0].next);
    assert forall j | 1 <= j < |runs| :: runs[j] == rest[j - 1];
    if k < runs[0].next {
      i := 0;
    } else {
      i := ExactlyOneRun(rest, b, runs[0].next, k);
      i := i + 1;
    }
  }

  lemma {:induction false} RunsStartLater(runs: seq<Run>, b: seq<Boundary>, first: nat)
    requires Partitions(runs, b, first)
    ensures forall j | 0 <= j < |runs| :: first <= runs[j].first
  {
    if runs != [] {
      RunsStartLater(runs[1..], b, runs[0].next);
      assert forall j | 1 <= j < |runs| :: runs[j] == runs[1..][j - 1];
    }
  }

  // ----- Fewest runs -----

  /** Chapters in text order, each ending no later than the next starts. */
  ghost predicate Ordered(b: seq<Boundary>)
  {
    && (forall i | 0 <= i < |b| :: b[i].start < b[i].end)
    && (forall i, j | 0 <= i < j < |b| :: b[i].end <= b[j].start)
  }

  /** A greedy run that starts no earlier than a fitting run ends no earlier. */
  lemma GreedyStaysAhead(b: seq<Boundary>, first: nat, other: Run)
    requires Ordered(b) && Fits(b, other) && other.first <= first < |b|
    ensures other.next <= RunEnd(b, first, first + 1)
  {
    forall k | first < k < other.next ensures Span(b, first, k) <= MAX_SPAN {
      assert Span(b, first, k) <= Span(b, other.first, other.next - 1);
    }
  }

  /**
   * Main result: no partition uses fewer runs. It is stated for greedy grouping that starts at or after the
   * chapter where the other partition starts, so that it can be shown run by run.
   */
  lemma {:induction false} FewestRuns(b: seq<Boundary>, first: nat, others: seq<Run>, otherFirst: nat)
    requires Ordered(b) && otherFirst <= first <= |b| && Partitions(others, b, otherFirst)
    ensures |Runs(b, first)| <= |others|
    decreases |others|
  {
    if first < |b| {
      GreedyStaysAhead(b, first, others[0]);
      FewestRuns(b, RunEnd(b, first, first + 1), others[1..], others[0].next);
    }
  }

  lemma {:induction false} ContiguousIsOrdered(b: seq<Boundary>)
    requires Contiguous(b)
    ensures Ordered(b)
  {
    if b != [] {
      var front := b[..|b| - 1];
      ContiguousIsOrdered(front);
      forall i, j | 0 <= i < j < |b| ensures b[i].end <= b[j].start {
        if j < |b| - 1 {
          assert front[i].end <= front[j].start;
        } else if i < j - 1 {
          assert front[i].end <= front[j - 1].start;
        }
      }
    }
  }

  /** Every work indexed from its text is grouped into the fewest units. */
  lemma IndexedWorkUsesFewestRuns(text: string, source: string, others: seq<Run>)
    requires Index(text, source).Ok? && Partitions(others, Index(text, source).value, 0)
    ensures |Runs(Index(text, source).value, 0)| <= |others|
  {
    hide Index;
    IndexIsContiguous(text, source);
    var b := Index(text, source).value;
    ContiguousIsOrdered(b);
    FewestRuns(b, 0, others, 0);
  }

  // ----- Units of a study -----

  ghost predicate DistinctWorks(works: seq<StudiedWork>)
  {
    forall i, j | 0 <= i < j < |works| :: works[i].id != works[j].id
  }

  lemma {:induction false} UnitOfWork(works: seq<StudiedWork>, work: string, run: Run)
    ensures ChapterUnit(work, run) in Units(works)
       <==> exists i | 0 <= i < |works| :: works[i].id == work && run in Runs(works[i].boundaries, 0)
  {
    hide Runs;
    if works != [] {
      var front, last := works[..|works| - 1], works[|works| - 1];
      UnitOfWork(front, work, run);
      var tagged := Tag(last.id, Runs(last.boundaries, 0));
      if last.id == work && run in Runs(last.boundaries, 0) {
        var k :| 0 <= k < |Runs(last.boundaries, 0)| && Runs(last.boundaries, 0)[k] == run;
        assert tagged[k] == ChapterUnit(work, run);
      }
      if i :| 0 <= i < |front| && front[i].id == work && run in Runs(front[i].boundaries, 0) {
        assert works[i] == front[i];
      }
    }
  }

  /** Each chapter of each studied work belongs to exactly one unit. */
  lemma ChapterInOneUnit(works: seq<StudiedWork>, w: nat, k: nat) returns (run: Run)
    requires DistinctWorks(works) && w < |works| && k < |works[w].boundaries|
    ensures run.first <= k < run.next && ChapterUnit(works[w].id, run) in Units(works)
    ensures forall r: Run | ChapterUnit(works[w].id, r) in Units(works) && r.first <= k < r.next :: r == run
  {
    hide Runs, Units, Partitions;
    var b := works[w].boundaries;
    RunsPartition(b, 0);
    var i := ExactlyOneRun(Runs(b, 0), b, 0, k);
    run := Runs(b, 0)[i];
    UnitOfWork(works, works[w].id, run);
    forall r: Run | ChapterUnit(works[w].id, r) in Units(works) && r.first <= k < r.next ensures r == run {
      UnitOfWork(works, works[w].id, r);
    }
  }

  // ----- A plan for the study runner -----

  lemma RunsRise(runs: seq<Run>, b: seq<Boundary>, first: nat, i: nat, j: nat)
    requires Partitions(runs, b, first) && i < j < |runs|
    ensures runs[i].first < runs[j].first
    decreases i
  {
    var rest := runs[1..];
    RunsStartLater(rest, b, runs[0].next);
    assert runs[j] == rest[j - 1];
    if i > 0 {
      assert runs[i] == rest[i - 1];
      RunsRise(rest, b, runs[0].next, i - 1, j - 1);
    }
  }

  ghost predicate NoRepeats<T(!new)>(s: seq<T>)
  {
    forall i, j | 0 <= i < j < |s| :: s[i] != s[j]
  }

  lemma {:induction false} UnitsNeverRepeat(works: seq<StudiedWork>)
    requires DistinctWorks(works)
    ensures NoRepeats(Units(works))
  {
    hide Runs, Partitions;
    if works != [] {
      var front, last := works[..|works| - 1], works[|works| - 1];
      var before, tagged := Units(front), Tag(last.id, Runs(last.boundaries, 0));
      UnitsNeverRepeat(front);
      RunsPartition(last.boundaries, 0);
      forall i, j | 0 <= i < j < |before + tagged| ensures (before + tagged)[i] != (before + tagged)[j] {
        if i < |before| <= j {
          UnitOfWork(front, before[i].work, before[i].run);
          assert before[i] in before && tagged[j - |before|].work == last.id;
        } else if |before| <= i {
          RunsRise(Runs(last.boundaries, 0), last.boundaries, 0, i - |before|, j - |before|);
        }
      }
    }
  }

  lemma {:induction false} LastColon(a: string, b: string, x: string, y: string)
    requires ':' !in x && ':' !in y && a + ":" + x == b + ":" + y
    ensures a == b && x == y
  {
    var s := a + ":" + x;
    assert s[|a|] == ':' && s[|b|] == ':';
    assert a == s[..|a|] && b == s[..|b|] && x == s[|a| + 1..] && y == s[|b| + 1..];
  }

  lemma DecimalHasNoColon(n: nat)
    ensures ':' !in Decimal(n)
  {
    DecimalHasDigits(n);
  }

  /** A unit is read back from its key, whatever the work is called. */
  lemma UnitKeyInjective(u: ChapterUnit, v: ChapterUnit)
    requires UnitKey(u) == UnitKey(v)
    ensures u == v
  {
    hide Decimal;
    DecimalHasNoColon(u.run.next);
    DecimalHasNoColon(v.run.next);
    DecimalHasNoColon(u.run.first);
    DecimalHasNoColon(v.run.first);
    LastColon(u.work + ":" + Decimal(u.run.first), v.work + ":" + Decimal(v.run.first), Decimal(u.run.next), Decimal(v.run.next));
    LastColon(u.work, v.work, Decimal(u.run.first), Decimal(v.run.first));
    DecimalInjective(u.run.next, v.run.next);
    DecimalInjective(u.run.first, v.run.first);
  }

  lemma KeysNeverRepeat(units: seq<ChapterUnit>)
    requires NoRepeats(units)
    ensures StudyRunner.Distinct(UnitKeys(units))
  {
    hide UnitKey;
    var keys := UnitKeys(units);
    forall i, j | 0 <= i < j < |keys| ensures keys[i] != keys[j] {
      if keys[i] == keys[j] {
        UnitKeyInjective(units[i], units[j]);
      }
    }
  }

  lemma {:induction false} SomeUnits(works: seq<StudiedWork>)
    ensures Units(works) == [] <==> forall i | 0 <= i < |works| :: works[i].boundaries == []
  {
    if works != [] {
      var front, last := works[..|works| - 1], works[|works| - 1];
      SomeUnits(front);
      assert |Tag(last.id, Runs(last.boundaries, 0))| == |Runs(last.boundaries, 0)|;
    }
  }

  /** What each stage works on, for the works of a study. */
  function PlanFor(works: seq<StudiedWork>): StudyRunner.Plan
  {
    stage => UnitsOf(stage, works)
  }

  /**
   * Main result: the units are what the study runner relies on, each stage having some and none twice, exactly when
   * the works of the study are distinct and some work has a chapter.
   */
  lemma PlanIsOkExactly(works: seq<StudiedWork>)
    ensures StudyInvariant.PlanOk(PlanFor(works))
       <==> DistinctWorks(works) && exists i | 0 <= i < |works| :: works[i].boundaries != []
  {
    hide Units, UnitKeys;
    var plan := PlanFor(works);
    assert |plan(StudyRunner.ChapterExtraction)| == |UnitKeys(Units(works))| == |Units(works)| by {
      KeysCount(Units(works));
    }
    SomeUnits(works);
    if DistinctWorks(works) {
      UnitsNeverRepeat(works);
      KeysNeverRepeat(Units(works));
      assert forall stage | stage == StudyRunner.GoldenThree || stage == StudyRunner.StoryEntities ::
          plan(stage) == WorkIds(works);
    } else {
      var i, j :| 0 <= i < j < |works| && works[i].id == works[j].id;
      assert WorkIds(works)[i] == WorkIds(works)[j];
      assert plan(StudyRunner.GoldenThree) == WorkIds(works);
      assert !StudyRunner.Distinct(plan(StudyRunner.GoldenThree));
    }
    assert plan(StudyRunner.ChapterExtraction) != [] ==> works != [];
  }

  lemma KeysCount(units: seq<ChapterUnit>)
    ensures |UnitKeys(units)| == |units|
  {
  }

  /** So for distinct works indexed from their texts. */
  lemma IndexedWorksGiveAPlan(works: seq<StudiedWork>, texts: seq<string>, sources: seq<string>)
    requires works != [] && DistinctWorks(works) && |texts| == |sources| == |works|
    requires forall i | 0 <= i < |works| :: Index(texts[i], sources[i]) == Ok(works[i].boundaries)
    ensures StudyInvariant.PlanOk(PlanFor(works))
  {
    hide Index;
    IndexIsContiguous(texts[0], sources[0]);
    PlanIsOkExactly(works);
  }
}
