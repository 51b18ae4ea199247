/**
 * Choosing a study cohort: start from the longest work, then repeatedly take the work farthest
 * from those already taken, in scaled size and chapter count.
 */
module CohortSelection {
  import opened Common

  datatype Work = Work(id: string, bytes: nat, chapters: nat)

  /** The scale of both distances: the largest values in the pool, at least one. */
  datatype Scale = Scale(bytes: nat, chapters: nat)

  predicate Positive(m: Scale) { m.bytes > 0 && m.chapters > 0 }

  function Gap(a: nat, b: nat): nat { if a < b then b - a else a - b }

  function Distance(a: Work, b: Work, m: Scale): nat
    requires Positive(m)
  {
    Gap(a.bytes, b.bytes) * 1000 / m.bytes + Gap(a.chapters, b.chapters) * 1000 / m.chapters
  }

  function Least(a: nat, b: nat): nat { if a < b then a else b }

  function Nearest(w: Work, chosen: seq<Work>, m: Scale): nat
    requires Positive(m) && chosen != []
  {
    var last := Distance(w, chosen[|chosen| - 1], m);
    if |chosen| == 1 then last else Least(Nearest(w, chosen[..|chosen| - 1], m), last)
  }

  /** Whether a later candidate replaces the best so far: farther, or as far with no larger id. */
  predicate Replaces(later: Work, best: Work, chosen: seq<Work>, m: Scale)
    requires Positive(m) && chosen != []
  {
    Nearest(later, chosen, m) > Nearest(best, chosen, m)
    || (Nearest(later, chosen, m) == Nearest(best, chosen, m) && !StringLess(best.id, later.id))
  }

  function FarthestIndex(rest: seq<Work>, chosen: seq<Work>, m: Scale): (i: nat)
    requires Positive(m) && chosen != [] && rest != []
    ensures i < |rest|
  {
    if |rest| == 1 then 0
    else
      var i := FarthestIndex(rest[..|rest| - 1], chosen, m);
      if Replaces(rest[|rest| - 1], rest[i], chosen, m) then |rest| - 1 else i
  }

  function Without(works: seq<Work>, i: nat): seq<Work>
    requires i < |works|
  {
    works[..i] + works[i + 1..]
  }

  function Extend(chosen: seq<Work>, rest: seq<Work>, take: nat, m: Scale): seq<Work>
    requires Positive(m) && chosen != []
    decreases |rest|
  {
    if |chosen| >= take || rest == [] then chosen
    else
      var i := FarthestIndex(rest, chosen, m);
      Extend(chosen + [rest[i]], Without(rest, i), take, m)
  }

  /** Longest first: by chapters, then bytes, then id. */
  predicate Before(a: Work, b: Work)
  {
    a.chapters > b.chapters
    || (a.chapters == b.chapters && (a.bytes > b.bytes || (a.bytes == b.bytes && StringLess(a.id, b.id))))
  }

  function Insert(w: Work, sorted: seq<Work>): seq<Work>
  {
    if sorted == [] || Before(w, sorted[0]) then [w] + sorted else [sorted[0]] + Insert(w, sorted[1..])
  }

  function Sort(works: seq<Work>): seq<Work>
  {
    if works == [] then [] else Insert(works[|works| - 1], Sort(works[..|works| - 1]))
  }

  function ScaleOf(pool: seq<Work>): (m: Scale)
    ensures Positive(m)
  {
    if pool == [] then Scale(1, 1)
    else
      var m := ScaleOf(pool[..|pool| - 1]);
      var w := pool[|pool| - 1];
      Scale(if w.bytes > m.bytes then w.bytes else m.bytes, if w.chapters > m.chapters then w.chapters else m.chapters)
  }

  function Select(pool: seq<Work>, take: nat): seq<Work>
  {
    if |pool| <= take then pool
    else
      var sorted := Sort(pool);
      SortIsPermutation(pool);
      Extend([sorted[0]], sorted[1..], take, ScaleOf(pool))
  }

  // ----- Sorting -----

  lemma {:induction false} InsertIsPermutation(w: Work, sorted: seq<Work>)
    ensures multiset(Insert(w, sorted)) == multiset(sorted) + multiset{w}
    ensures |Insert(w, sorted)| == |sorted| + 1
  {
    if sorted != [] && !Before(w, sorted[0]) {
      InsertIsPermutation(w, sorted[1..]);
      assert sorted == [sorted[0]] + sorted[1..];
    }
  }

  lemma {:induction false} SortIsPermutation(works: seq<Work>)
    ensures multiset(Sort(works)) == multiset(works) && |Sort(works)| == |works|
  {
    if works != [] {
      var rest := works[..|works| - 1];
      SortIsPermutation(rest);
      InsertIsPermutation(works[|works| - 1], Sort(rest));
      assert works == rest + [works[|works| - 1]];
    }
  }

  ghost predicate UniqueIds(works: seq<Work>)
  {
    forall i, j | 0 <= i < j < |works| :: works[i].id != works[j].id
  }

  ghost predicate IsSorted(works: seq<Work>)
  {
    forall i, j | 0 <= i < j < |works| :: Before(works[i], works[j])
  }

  lemma BeforeTransitive(a: Work, b: Work, c: Work)
    requires Before(a, b) && Before(b, c)
    ensures Before(a, c)
  {
    if a.chapters == b.chapters == c.chapters && a.bytes == b.bytes == c.bytes {
      StringLessTransitive(a.id, b.id, c.id);
    }
  }

  lemma BeforeTotal(a: Work, b: Work)
    requires a.id != b.id
    ensures Before(a, b) || Before(b, a)
  {
    StringLessTotal(a.id, b.id);
  }

  lemma BeforeIrreflexive(a: Work)
    ensures !Before(a, a)
  {
    StringLessIrreflexive(a.id);
  }

  lemma SortedTail(sorted: seq<Work>)
    requires IsSorted(sorted) && sorted != []
    ensures IsSorted(sorted[1..]) && forall x | x in sorted[1..] :: Before(sorted[0], x)
  {
    hide Before;
    var rest := sorted[1..];
    forall i, j | 0 <= i < j < |rest| ensures Before(rest[i], rest[j]) {
      assert rest[i] == sorted[i + 1] && rest[j] == sorted[j + 1];
    }
    assert forall i | 0 <= i < |rest| :: rest[i] == sorted[i + 1];
  }

  lemma SortedCons(w: Work, sorted: seq<Work>)
    requires IsSorted(sorted) && forall x | x in sorted :: Before(w, x)
    ensures IsSorted([w] + sorted)
  {
    hide Before;
  }

  lemma {:induction false} InsertMembers(w: Work, sorted: seq<Work>)
    ensures forall x | x in Insert(w, sorted) :: x == w || x in sorted
    ensures w in Insert(w, sorted) && forall x | x in sorted :: x in Insert(w, sorted)
  {
    hide Before;
    if sorted != [] {
      InsertMembers(w, sorted[1..]);
      assert sorted == [sorted[0]] + sorted[1..];
    }
  }

  lemma {:induction false} InsertSorts(w: Work, sorted: seq<Work>)
    requires IsSorted(sorted) && forall x | x in sorted :: x.id != w.id
    ensures IsSorted(Insert(w, sorted))
  {
    hide Before, IsSorted;
    if sorted == [] {
      OneIsSorted(w);
    } else {
      var first, rest := sorted[0], sorted[1..];
      assert sorted == [first] + rest && first in sorted;
      SortedTail(sorted);
      if Before(w, first) {
        forall x | x in sorted ensures Before(w, x) {
          if x != first {
            BeforeTransitive(w, first, x);
          }
        }
        SortedCons(w, sorted);
      } else {
        BeforeTotal(w, first);
        InsertSorts(w, rest);
        InsertMembers(w, rest);
        SortedCons(first, Insert(w, rest));
      }
    }
  }

  lemma OneIsSorted(w: Work)
    ensures IsSorted([w] + [])
  {
  }

  lemma {:induction false} SortSorts(works: seq<Work>)
    requires UniqueIds(works)
    ensures IsSorted(Sort(works)) && forall x :: x in Sort(works) <==> x in works
  {
    if works != [] {
      var rest, w := works[..|works| - 1], works[|works| - 1];
      assert works == rest + [w];
      SortSorts(rest);
      forall x | x in Sort(rest) ensures x.id != w.id {
        var i :| 0 <= i < |rest| && rest[i] == x;
        assert works[i].id != works[|works| - 1].id;
      }
      InsertSorts(w, Sort(rest));
      InsertMembers(w, Sort(rest));
    }
  }

  /** A set of works has one sorted order. */
  lemma {:induction false} SortedUnique(a: seq<Work>, b: seq<Work>)
    requires IsSorted(a) && IsSorted(b) && forall x :: x in a <==> x in b
    ensures a == b
  {
    if b != [] {
      assert b[0] in a;
    }
    if a != [] {
      assert a[0] in b && b[0] in a;
      if a[0] != b[0] {
        BeforeTransitive(a[0], b[0], a[0]);
        BeforeIrreflexive(a[0]);
      }
      TailsAgree(a, b);
      SortedUnique(a[1..], b[1..]);
    }
  }

  lemma TailsAgree(a: seq<Work>, b: seq<Work>)
    requires IsSorted(a) && IsSorted(b) && a != [] && b != [] && a[0] == b[0] && forall x :: x in a <==> x in b
    ensures IsSorted(a[1..]) && IsSorted(b[1..]) && forall x :: x in a[1..] <==> x in b[1..]
  {
    assert forall i, j | 0 <= i < j < |a[1..]| :: a[1..][i] == a[i + 1] && a[1..][j] == a[j + 1];
    assert forall i, j | 0 <= i < j < |b[1..]| :: b[1..][i] == b[i + 1] && b[1..][j] == b[j + 1];
    TailMembers(a);
    TailMembers(b);
  }

  lemma TailMembers(a: seq<Work>)
    requires IsSorted(a) && a != []
    ensures forall x :: x in a[1..] <==> x in a && x != a[0]
  {
    BeforeIrreflexive(a[0]);
    assert a == [a[0]] + a[1..];
    assert forall i | 0 <= i < |a[1..]| :: a[1..][i] == a[i + 1];
  }

  // ----- Order of the input -----

  lemma {:induction false} ScaleBounds(pool: seq<Work>)
    ensures var m := ScaleOf(pool);
            && (forall w | w in pool :: w.bytes <= m.bytes && w.chapters <= m.chapters)
            && (m.bytes == 1 || exists w | w in pool :: w.bytes == m.bytes)
            && (m.chapters == 1 || exists w | w in pool :: w.chapters == m.chapters)
  {
    if pool != [] {
      ScaleBounds(pool[..|pool| - 1]);
      assert pool == pool[..|pool| - 1] + [pool[|pool| - 1]];
    }
  }

  lemma SameScale(a: seq<Work>, b: seq<Work>)
    requires forall x :: x in a <==> x in b
    ensures ScaleOf(a) == ScaleOf(b)
  {
    ScaleBounds(a);
    ScaleBounds(b);
  }

  lemma SameOrder(a: seq<Work>, b: seq<Work>)
    requires UniqueIds(a) && UniqueIds(b) && forall x :: x in a <==> x in b
    ensures Sort(a) == Sort(b)
  {
    SortSorts(a);
    SortSorts(b);
    SortedUnique(Sort(a), Sort(b));
  }

  /** With unique ids, a selection that is needed does not depend on the order of the pool. */
  lemma OrderDoesNotMatter(a: seq<Work>, b: seq<Work>, take: nat)
    requires multiset(a) == multiset(b) && UniqueIds(a) && UniqueIds(b) && take < |a|
    ensures Select(a, take) == Select(b, take)
  {
    hide Sort, ScaleOf, Extend;
    forall x ensures x in a <==> x in b {
      assert x in a <==> x in multiset(a);
      assert x in b <==> x in multiset(b);
    }
    assert |a| == |multiset(a)| == |multiset(b)| == |b|;
    SameOrder(a, b);
    SameScale(a, b);
  }

  // ----- Distances -----

  function Times(a: nat, m: nat): nat { a * m }

  lemma TimesAdds(a: nat, b: nat, m: nat)
    ensures Times(a, m) + Times(b, m) == Times(a + b, m)
  {
  }

  lemma TimesLess(a: nat, b: nat, m: nat)
    requires Times(a, m) < Times(b, m)
    ensures a < b
  {
  }

  lemma FloorBounds(a: nat, m: nat)
    requires m > 0
    ensures Times(a / m, m) <= a < Times(a / m + 1, m)
  {
  }

  lemma FlooredBelow(x: nat, y: nat, z: nat, d: nat, p: nat, q: nat, m: nat)
    requires Times(d, m) <= x <= y + z && y < Times(p + 1, m) && z < Times(q + 1, m)
    ensures d <= p + q + 1
  {
    hide Times;
    TimesAdds(p + 1, q + 1, m);
    TimesLess(d, p + 1 + (q + 1), m);
  }

  lemma FlooredSum(x: nat, y: nat, z: nat, m: nat)
    requires m > 0 && x <= y + z
    ensures x / m <= y / m + z / m + 1
  {
    hide Times;
    FloorBounds(x, m);
    FloorBounds(y, m);
    FloorBounds(z, m);
    FlooredBelow(x, y, z, x / m, y / m, z / m, m);
  }

  /** Flooring both terms costs the triangle inequality at most two. */
  lemma NearTriangle(a: Work, b: Work, c: Work, m: Scale)
    requires Positive(m)
    ensures Distance(a, b, m) <= Distance(a, c, m) + Distance(b, c, m) + 2
  {
    FlooredSum(Gap(a.bytes, b.bytes) * 1000, Gap(a.bytes, c.bytes) * 1000, Gap(b.bytes, c.bytes) * 1000, m.bytes);
    FlooredSum(Gap(a.chapters, b.chapters) * 1000, Gap(a.chapters, c.chapters) * 1000, Gap(b.chapters, c.chapters) * 1000,
               m.chapters);
  }

  lemma DistanceSymmetric(a: Work, b: Work, m: Scale)
    requires Positive(m)
    ensures Distance(a, b, m) == Distance(b, a, m)
  {
  }

  /** `Nearest` is the least distance to a chosen work, and index `i` attains it. */
  lemma {:induction false} NearestIsLeast(w: Work, chosen: seq<Work>, m: Scale) returns (i: nat)
    requires Positive(m) && chosen != []
    ensures i < |chosen| && Nearest(w, chosen, m) == Distance(w, chosen[i], m)
    ensures forall c | c in chosen :: Nearest(w, chosen, m) <= Distance(w, c, m)
  {
    hide Distance;
    var front, last := chosen[..|chosen| - 1], chosen[|chosen| - 1];
    assert chosen == front + [last];
    i := 0;
    if front != [] {
      i := NearestIsLeast(w, front, m);
    }
    if Distance(w, last, m) <= Nearest(w, chosen, m) {
      i := |front|;
    }
  }

  lemma MoreChosenIsNearer(w: Work, chosen: seq<Work>, j: nat, m: Scale)
    requires Positive(m) && 1 <= j <= |chosen|
    ensures Nearest(w, chosen, m) <= Nearest(w, chosen[..j], m)
  {
    var i := NearestIsLeast(w, chosen[..j], m);
    var _ := NearestIsLeast(w, chosen, m);
    assert chosen[..j][i] in chosen;
  }

  lemma {:induction false} FarthestIsFarthest(rest: seq<Work>, chosen: seq<Work>, m: Scale)
    requires Positive(m) && chosen != [] && rest != []
    ensures forall q | q in rest :: Nearest(q, chosen, m) <= Nearest(rest[FarthestIndex(rest, chosen, m)], chosen, m)
  {
    hide Nearest;
    var front, last := rest[..|rest| - 1], rest[|rest| - 1];
    assert rest == front + [last];
    if front != [] {
      FarthestIsFarthest(front, chosen, m);
    }
  }

  // ----- Coverage -----

  /** Each work taken was at least as far from those before it as any work taken later or left. */
  ghost predicate Spread(chosen: seq<Work>, left: seq<Work>, m: Scale)
    requires Positive(m)
  {
    forall j, q | 1 <= j < |chosen| && (q in left || q in chosen[j..]) ::
      Nearest(q, chosen[..j], m) <= Nearest(chosen[j], chosen[..j], m)
  }

  lemma TakeFarthest(chosen: seq<Work>, rest: seq<Work>, m: Scale)
    requires Positive(m) && chosen != [] && rest != [] && Spread(chosen, rest, m)
    ensures var i := FarthestIndex(rest, chosen, m);
            Spread(chosen + [rest[i]], Without(rest, i), m)
  {
    hide Nearest, FarthestIndex;
    var i := FarthestIndex(rest, chosen, m);
    var more, left := chosen + [rest[i]], Without(rest, i);
    FarthestIsFarthest(rest, chosen, m);
    forall j, q | 1 <= j < |more| && (q in left || q in more[j..])
      ensures Nearest(q, more[..j], m) <= Nearest(more[j], more[..j], m)
    {
      assert more[..j] == chosen[..j];
      assert q in rest || q in chosen[j..];
      if j == |chosen| {
        assert chosen[..j] == chosen;
      }
    }
  }

  lemma WithoutKeeps(works: seq<Work>, i: nat)
    requires i < |works|
    ensures multiset(Without(works, i)) + multiset{works[i]} == multiset(works)
  {
    assert works == works[..i] + [works[i]] + works[i + 1..];
  }

  /** What `Extend` returns, and the works `left` that it did not take. */
  lemma {:induction false} ExtendSpreads(chosen: seq<Work>, rest: seq<Work>, take: nat, m: Scale)
    returns (left: seq<Work>)
    requires Positive(m) && chosen != [] && Spread(chosen, rest, m)
    ensures var s := Extend(chosen, rest, take, m);
            && multiset(s) + multiset(left) == multiset(chosen) + multiset(rest)
            && Spread(s, left, m)
            && |s| == if |chosen| >= take then |chosen| else Least(take, |chosen| + |rest|)
    decreases |rest|
  {
    hide Nearest, Spread, FarthestIndex, Without;
    left := rest;
    if |chosen| < take && rest != [] {
      var i := FarthestIndex(rest, chosen, m);
      var next := Without(rest, i);
      TakeFarthest(chosen, rest, m);
      WithoutKeeps(rest, i);
      assert |multiset(next)| + 1 == |multiset(rest)|;
      left := ExtendSpreads(chosen + [rest[i]], next, take, m);
    }
  }

  /** The selection, the works it leaves, and the order in which it took them. */
  lemma SelectSpreads(pool: seq<Work>, take: nat) returns (left: seq<Work>)
    requires pool != []
    ensures var s := Select(pool, take);
            && multiset(s) + multiset(left) == multiset(pool)
            && |s| == (if |pool| <= take then |pool| else if take == 0 then 1 else take)
            && (left != [] ==> Spread(s, left, ScaleOf(pool)))
  {
    hide Nearest, FarthestIndex, Extend, Sort, ScaleOf, Insert;
    left := [];
    if take < |pool| {
      SortIsPermutation(pool);
      var sorted := Sort(pool);
      assert sorted == [sorted[0]] + sorted[1..];
      left := ExtendSpreads([sorted[0]], sorted[1..], take, ScaleOf(pool));
    }
  }

  /** The selection takes distinct places of the pool: `take` of them, but never none and never more than there are. */
  lemma SelectsFromPool(pool: seq<Work>, take: nat)
    requires pool != []
    ensures multiset(Select(pool, take)) <= multiset(pool)
    ensures |Select(pool, take)| == if |pool| <= take then |pool| else if take == 0 then 1 else take
  {
    var _ := SelectSpreads(pool, take);
  }

  ghost predicate Covers(chosen: seq<Work>, pool: seq<Work>, radius: nat, m: Scale)
    requires Positive(m) && chosen != []
  {
    forall w | w in pool :: Nearest(w, chosen, m) <= radius
  }

  lemma {:induction false} Pigeonhole(f: seq<nat>, n: nat) returns (i: nat, j: nat)
    requires |f| > n && forall k | 0 <= k < |f| :: f[k] < n
    ensures i < j < |f| && f[i] == f[j]
    decreases n
  {
    var last := f[|f| - 1];
    if k :| 0 <= k < |f| - 1 && f[k] == last {
      return k, |f| - 1;
    }
    // Only the last has its value: rename the value n - 1 to it and drop the last.
    var g := seq(|f| - 1, k requires 0 <= k < |f| - 1 => if f[k] == n - 1 then last else f[k]);
    i, j := Pigeonhole(g, n - 1);
  }

  lemma {:induction false} Centres(points: seq<Work>, others: seq<Work>, radius: nat, m: Scale) returns (f: seq<nat>)
    requires Positive(m) && others != [] && Covers(others, points, radius, m)
    ensures |f| == |points|
    ensures forall k | 0 <= k < |f| :: f[k] < |others| && Distance(points[k], others[f[k]], m) <= radius
  {
    hide Nearest, Distance;
    f := [];
    if points != [] {
      var front, last := points[..|points| - 1], points[|points| - 1];
      f := Centres(front, others, radius, m);
      var i := NearestIsLeast(last, others, m);
      f := f + [i];
    }
  }

  /** The works taken, with any work left, lie pairwise at least as far apart as that work lies from the selection. */
  lemma FarApart(s: seq<Work>, p: Work, left: seq<Work>, m: Scale, i: nat, j: nat)
    requires Positive(m) && s != [] && Spread(s, left, m) && p in left && i < j <= |s|
    ensures Distance((s + [p])[i], (s + [p])[j], m) >= Nearest(p, s, m)
  {
    hide Nearest;
    var later := (s + [p])[j];
    MoreChosenIsNearer(p, s, j, m);
    var _ := NearestIsLeast(later, s[..j], m);
    assert s[i] == s[..j][i] && s[..j][i] in s[..j];
    DistanceSymmetric(s[i], later, m);
    assert j == |s| ==> s[..j] == s;
  }

  /**
   * Main result: near optimality. Whatever other works, no more in number, cover the pool within `radius`,
   * the selection covers it within twice that, plus two for the floored divisions.
   */
  lemma SelectionIsNearOptimal(pool: seq<Work>, take: nat, others: seq<Work>, radius: nat)
    requires pool != [] && others != [] && |others| <= |Select(pool, take)|
    requires Covers(others, pool, radius, ScaleOf(pool))
    ensures Covers(Select(pool, take), pool, 2 * radius + 2, ScaleOf(pool))
  {
    hide Nearest, Distance, Select, ScaleOf, Spread, FarthestIndex;
    var s, m := Select(pool, take), ScaleOf(pool);
    var left := SelectSpreads(pool, take);
    forall p | p in pool ensures Nearest(p, s, m) <= 2 * radius + 2 {
      assert p in multiset(pool);
      if p in multiset(s) {
        var _ := NearestIsLeast(p, s, m);
        AtHome(p, m);
      } else {
        assert p in multiset(left) && p in left;
        var points := s + [p];
        assert forall w | w in points :: w in multiset(pool);
        var f := Centres(points, others, radius, m);
        var i, j := Pigeonhole(f, |others|);
        FarApart(s, p, left, m, i, j);
        NearTriangle(points[i], points[j], others[f[i]], m);
      }
    }
  }

  lemma AtHome(p: Work, m: Scale)
    requires Positive(m)
    ensures Distance(p, p, m) == 0
  {
  }

  // ----- The loops -----

  method FindNearest(w: Work, chosen: seq<Work>, m: Scale) returns (nearest: nat)
    requires Positive(m) && chosen != []
    ensures nearest == Nearest(w, chosen, m)
  {
    nearest := Distance(w, chosen[0], m);
    for k := 1 to |chosen|
      invariant nearest == Nearest(w, chosen[..k], m)
    {
      var d := Distance(w, chosen[k], m);
      assert chosen[..k + 1][..k] == chosen[..k];
      if d < nearest {
        nearest := d;
      }
    }
    assert chosen[..|chosen|] == chosen;
  }

  method FindFarthest(rest: seq<Work>, chosen: seq<Work>, m: Scale) returns (index: nat)
    requires Positive(m) && chosen != [] && rest != []
    ensures index == FarthestIndex(rest, chosen, m)
  {
    hide Nearest;
    index := 0;
    var score := FindNearest(rest[0], chosen, m);
    for k := 1 to |rest|
      invariant index == FarthestIndex(rest[..k], chosen, m) && index < k
      invariant score == Nearest(rest[index], chosen, m)
    {
      var next := FindNearest(rest[k], chosen, m);
      assert rest[..k + 1][..k] == rest[..k];
      if next > score || (next == score && !StringLess(rest[index].id, rest[k].id)) {
        index, score := k, next;
      }
    }
    assert rest[..|rest|] == rest;
  }

  method FindScale(pool: seq<Work>) returns (m: Scale)
    ensures m == ScaleOf(pool)
  {
    m := Scale(1, 1);
    for k := 0 to |pool|
      invariant m == ScaleOf(pool[..k])
    {
      assert pool[..k + 1][..k] == pool[..k];
      m := Scale(if pool[k].bytes > m.bytes then pool[k].bytes else m.bytes,
                 if pool[k].chapters > m.chapters then pool[k].chapters else m.chapters);
    }
    assert pool[..|pool|] == pool;
  }

  method CoverageStratifiedSelection(pool: seq<Work>, take: nat) returns (selected: seq<Work>)
    ensures selected == Select(pool, take)
  {
    hide Nearest, FarthestIndex, ScaleOf;
    if |pool| <= take {
      return pool;
    }
    var m := FindScale(pool);
    var rest := Sort(pool);
    SortIsPermutation(pool);
    selected, rest := [rest[0]], rest[1..];
    while |selected| < take && rest != []
      invariant selected != []
      invariant Extend(selected, rest, take, m) == Select(pool, take)
      decreases |rest|
    {
      var index := FindFarthest(rest, selected, m);
      selected, rest := selected + [rest[index]], Without(rest, index);
    }
  }
}
