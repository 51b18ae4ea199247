/**
 * The scene receipts of a production release: the stage map is read in key order, and the n-th
 * scene key must bear the ordinal n, zero-padded to four digits.
 */
module SceneReceipts {
  import opened Common

  /** A stage and its receipt. The stage map is kept, and read, in the order of its keys. */
  datatype Receipt = Receipt(stage: string, fingerprint: string)

  predicate InKeyOrder(receipts: seq<Receipt>)
  {
    forall i, j | 0 <= i < j < |receipts| :: StringLess(receipts[i].stage, receipts[j].stage)
  }

  datatype Error = SceneEvidenceMissing | NotContiguous | FingerprintMalformed

  const SCENE := "surface_scene_"

  function Padded(s: string): string
    decreases 4 - |s|
  {
    if |s| < 4 then Padded("0" + s) else s
  }

  function SceneMark(ordinal: nat): string { SCENE + Padded(Decimal(ordinal)) + "_" }

  predicate CanonicalFingerprint(s: string)
  {
    |s| == 71 && s[..7] == "sha256:"
    && forall i | 7 <= i < 71 :: '0' <= s[i] <= '9' || 'a' <= s[i] <= 'f' || 'A' <= s[i] <= 'F'
  }

  function Scenes(receipts: seq<Receipt>): seq<Receipt>
  {
    if receipts == [] then []
    else
      var last := receipts[|receipts| - 1];
      Scenes(receipts[..|receipts| - 1]) + if SCENE <= last.stage then [last] else []
  }

  /** The first fault of the scenes from number `k` on. */
  function FaultFrom(scenes: seq<Receipt>, k: nat): Option<Error>
    requires k <= |scenes|
    decreases |scenes| - k
  {
    if k == |scenes| then None
    else if !(SceneMark(k + 1) <= scenes[k].stage) then Some(NotContiguous)
    else if !CanonicalFingerprint(scenes[k].fingerprint) then Some(FingerprintMalformed)
    else FaultFrom(scenes, k + 1)
  }

  function Check(receipts: seq<Receipt>): Option<Error>
  {
    if Scenes(receipts) == [] then Some(SceneEvidenceMissing) else FaultFrom(Scenes(receipts), 0)
  }

  method ValidateScenes(receipts: seq<Receipt>) returns (error: Option<Error>)
    ensures error == Check(receipts)
  {
    hide SceneMark, CanonicalFingerprint;
    var scenes: seq<Receipt> := [];
    for k := 0 to |receipts|
      invariant scenes == Scenes(receipts[..k])
    {
      assert receipts[..k + 1][..k] == receipts[..k];
      if SCENE <= receipts[k].stage {
        scenes := scenes + [receipts[k]];
      }
    }
    assert receipts[..|receipts|] == receipts;
    if scenes == [] {
      return Some(SceneEvidenceMissing);
    }
    for k := 0 to |scenes|
      invariant FaultFrom(scenes, 0) == FaultFrom(scenes, k)
    {
      var mark := SceneMark(k + 1);
      if !(mark <= scenes[k].stage) {
        return Some(NotContiguous);
      }
      if !CanonicalFingerprint(scenes[k].fingerprint) {
        return Some(FingerprintMalformed);
      }
    }
    return None;
  }

  // ----- Key order -----

  lemma {:induction false} SamePrefix(p: string, a: string, b: string)
    ensures StringLess(p + a, p + b) <==> StringLess(a, b)
  {
    if p == "" {
      assert p + a == a && p + b == b;
    } else {
      SamePrefix(p[1..], a, b);
      assert (p + a)[1..] == p[1..] + a && (p + b)[1..] == p[1..] + b;
    }
  }

  function FourDigits(n: nat): string { [Digit(n / 1000), Digit(n / 100), Digit(n / 10), Digit(n)] }

  lemma PaddedSteps(a: char, b: char, c: char, d: char)
    ensures Padded([a, b, c, d]) == [a, b, c, d]
    ensures Padded([b, c, d]) == ['0', b, c, d]
    ensures Padded([c, d]) == ['0', '0', c, d]
    ensures Padded([d]) == ['0', '0', '0', d]
  {
    assert "0" + [b, c, d] == ['0', b, c, d];
    assert "0" + [c, d] == ['0', c, d];
    assert Padded([c, d]) == Padded(['0', c, d]) == Padded("0" + ['0', c, d]);
    assert "0" + ['0', c, d] == ['0', '0', c, d];
    assert "0" + [d] == ['0', d];
    assert Padded([d]) == Padded(['0', d]) == Padded("0" + ['0', d]);
    assert "0" + ['0', d] == ['0', '0', d];
    assert Padded(['0', '0', d]) == Padded("0" + ['0', '0', d]);
    assert "0" + ['0', '0', d] == ['0', '0', '0', d];
  }

  lemma DecimalDigits(n: nat)
    requires n <= 9999
    ensures n < 10 ==> Decimal(n) == [Digit(n)]
    ensures 10 <= n < 100 ==> Decimal(n) == [Digit(n / 10), Digit(n)]
    ensures 100 <= n < 1000 ==> Decimal(n) == [Digit(n / 100), Digit(n / 10), Digit(n)]
    ensures 1000 <= n ==> Decimal(n) == FourDigits(n)
    decreases n
  {
    hide Digit;
    if n >= 10 {
      DecimalDigits(n / 10);
      HundredsAreTensOfTens(n);
    }
  }

  lemma PaddedIsFourDigits(n: nat)
    requires n <= 9999
    ensures Padded(Decimal(n)) == FourDigits(n)
  {
    hide Decimal, Padded;
    DecimalDigits(n);
    PaddedSteps(Digit(n / 1000), Digit(n / 100), Digit(n / 10), Digit(n));
  }

  lemma FourDigitsOrdered(a: nat, b: nat, x: string, y: string)
    requires a < b <= 9999
    ensures StringLess(FourDigits(a) + x, FourDigits(b) + y)
  {
    var p, q := FourDigits(a) + x, FourDigits(b) + y;
    assert p[1..][0] == p[1] && p[2..][0] == p[2] && p[3..][0] == p[3];
    assert q[1..][0] == q[1] && q[2..][0] == q[2] && q[3..][0] == q[3];
    assert p[1..][1..] == p[2..] && p[2..][1..] == p[3..];
    assert q[1..][1..] == q[2..] && q[2..][1..] == q[3..];
    DigitsOrdered(a, b);
    if p[0] == q[0] {
      if p[1] == q[1] {
        if p[2] == q[2] {
          assert StringLess(p[3..], q[3..]);
        }
        assert StringLess(p[2..], q[2..]);
      }
      assert StringLess(p[1..], q[1..]);
    }
  }

  /** The first digit in which two numbers differ tells which is less. */
  lemma DigitsOrdered(a: nat, b: nat)
    requires a < b <= 9999
    ensures Digit(a / 1000) <= Digit(b / 1000)
    ensures Digit(a / 1000) == Digit(b / 1000) ==> Digit(a / 100) <= Digit(b / 100)
    ensures Digit(a / 1000) == Digit(b / 1000) && Digit(a / 100) == Digit(b / 100) ==> Digit(a / 10) <= Digit(b / 10)
    ensures Digit(a / 1000) == Digit(b / 1000) && Digit(a / 100) == Digit(b / 100) && Digit(a / 10) == Digit(b / 10)
         ==> Digit(a) < Digit(b)
  {
    TensOrdered(a, b);
    TensOrdered(a / 10, b / 10);
    TensOrdered(a / 100, b / 100);
    TensOrdered(a / 1000, b / 1000);
    HundredsAreTensOfTens(a);
    HundredsAreTensOfTens(b);
  }

  lemma HundredsAreTensOfTens(n: nat)
    requires n <= 9999
    ensures n / 10 / 10 == n / 100 && n / 100 / 10 == n / 1000 && n / 1000 / 10 == 0
  {
  }

  lemma TensOrdered(a: nat, b: nat)
    requires a <= b
    ensures a / 10 <= b / 10
    ensures a / 10 == b / 10 ==> Digit(a) <= Digit(b) && (Digit(a) == Digit(b) ==> a == b)
  {
  }

  /** Zero-padded keys sort by number: up to 9999, keys with a lesser ordinal come first. */
  lemma MarksOrdered(a: nat, b: nat, left: string, right: string)
    requires a < b <= 9999 && SceneMark(a) <= left && SceneMark(b) <= right
    ensures StringLess(left, right)
  {
    hide StringLess, Padded, Decimal;
    PaddedIsFourDigits(a);
    PaddedIsFourDigits(b);
    var x, y := left[|SceneMark(a)|..], right[|SceneMark(b)|..];
    assert left == SCENE + (FourDigits(a) + ("_" + x));
    assert right == SCENE + (FourDigits(b) + ("_" + y));
    FourDigitsOrdered(a, b, "_" + x, "_" + y);
    SamePrefix(SCENE, FourDigits(a) + ("_" + x), FourDigits(b) + ("_" + y));
  }

  /** The key of scene 10000 sorts before that of scene 1000. */
  lemma TenThousandIsEarly(left: string, right: string)
    requires SceneMark(10000) <= left && SceneMark(1000) <= right
    ensures StringLess(left, right)
  {
    hide StringLess, Padded, Decimal;
    MarkOf10000();
    PaddedIsFourDigits(1000);
    var x, y := left[|SceneMark(10000)|..], right[|SceneMark(1000)|..];
    assert left == (SCENE + "1000") + ("0_" + x);
    assert right == (SCENE + "1000") + ("_" + y);
    FirstLess("0_" + x, "_" + y);
    SamePrefix(SCENE + "1000", "0_" + x, "_" + y);
  }

  lemma FirstLess(a: string, b: string)
    requires a != "" && b != "" && a[0] < b[0]
    ensures StringLess(a, b)
  {
  }

  lemma MarkOf10000()
    ensures SceneMark(10000) == SCENE + "1000" + "0_"
    ensures FourDigits(1000) == "1000"
  {
    assert Decimal(1) == "1";
    assert Decimal(10) == "10";
    assert Decimal(100) == "100";
    assert Decimal(1000) == "1000";
    assert Decimal(10000) == "10000";
  }

  // ----- What the check accepts -----

  lemma {:induction false} ScenesInOrder(receipts: seq<Receipt>)
    requires InKeyOrder(receipts)
    ensures InKeyOrder(Scenes(receipts)) && forall s | s in Scenes(receipts) :: s in receipts
  {
    hide StringLess;
    if receipts != [] {
      var front, last := receipts[..|receipts| - 1], receipts[|receipts| - 1];
      ScenesInOrder(front);
      forall s | s in Scenes(front) ensures StringLess(s.stage, last.stage) {
        var i :| 0 <= i < |front| && front[i] == s;
      }
    }
  }

  lemma {:induction false} NoFaultExactly(scenes: seq<Receipt>, k: nat)
    requires k <= |scenes|
    ensures FaultFrom(scenes, k) == None
       <==> forall i | k <= i < |scenes| :: SceneMark(i + 1) <= scenes[i].stage && CanonicalFingerprint(scenes[i].fingerprint)
    decreases |scenes| - k
  {
    hide SceneMark, CanonicalFingerprint;
    if k < |scenes| {
      NoFaultExactly(scenes, k + 1);
    }
  }

  /** Every ordinal from one to the number of scenes has a key among the scenes. */
  ghost predicate EachOrdinalHasKey(scenes: seq<Receipt>)
  {
    forall o | 1 <= o <= |scenes| :: HasKey(scenes, o)
  }

  ghost predicate HasKey(scenes: seq<Receipt>, o: nat)
  {
    exists i :: 0 <= i < |scenes| && SceneMark(o) <= scenes[i].stage
  }

  /** Where the key of each ordinal lies: ordinals up to `n` take rising places. */
  lemma {:induction false} PlaceAtLeast(scenes: seq<Receipt>, o: nat, i: nat)
    requires InKeyOrder(scenes) && |scenes| <= 9999 && EachOrdinalHasKey(scenes)
    requires 1 <= o <= |scenes| && i < |scenes| && SceneMark(o) <= scenes[i].stage
    ensures i >= o - 1
  {
    hide SceneMark, StringLess;
    if o > 1 {
      assert HasKey(scenes, o - 1);
      var h :| 0 <= h < |scenes| && SceneMark(o - 1) <= scenes[h].stage;
      PlaceAtLeast(scenes, o - 1, h);
      RisingPlace(scenes, o - 1, o, h, i);
    }
  }

  lemma {:induction false} PlaceAtMost(scenes: seq<Receipt>, o: nat, i: nat)
    requires InKeyOrder(scenes) && |scenes| <= 9999 && EachOrdinalHasKey(scenes)
    requires 1 <= o <= |scenes| && i < |scenes| && SceneMark(o) <= scenes[i].stage
    ensures i <= o - 1
    decreases |scenes| - o
  {
    hide SceneMark, StringLess;
    if o < |scenes| {
      assert HasKey(scenes, o + 1);
      var h :| 0 <= h < |scenes| && SceneMark(o + 1) <= scenes[h].stage;
      PlaceAtMost(scenes, o + 1, h);
      RisingPlace(scenes, o, o + 1, i, h);
    }
  }

  lemma RisingPlace(scenes: seq<Receipt>, a: nat, b: nat, i: nat, j: nat)
    requires InKeyOrder(scenes) && a < b <= 9999 && i < |scenes| && j < |scenes|
    requires SceneMark(a) <= scenes[i].stage && SceneMark(b) <= scenes[j].stage
    ensures i < j
  {
    hide SceneMark, StringLess;
    MarksOrdered(a, b, scenes[i].stage, scenes[j].stage);
    StringLessIrreflexive(scenes[i].stage);
    if j < i {
      StringLessTransitive(scenes[i].stage, scenes[j].stage, scenes[i].stage);
    }
  }

  lemma TenThousandFails(scenes: seq<Receipt>)
    requires InKeyOrder(scenes) && |scenes| >= 10000
    ensures FaultFrom(scenes, 0) != None
  {
    hide SceneMark, StringLess, CanonicalFingerprint;
    NoFaultExactly(scenes, 0);
    var thousandth, last := scenes[999].stage, scenes[9999].stage;
    if SceneMark(999 + 1) <= thousandth && SceneMark(9999 + 1) <= last {
      TenThousandIsEarly(last, thousandth);
      StringLessTransitive(last, thousandth, last);
      StringLessIrreflexive(last);
    }
  }

  ghost predicate Complete(scenes: seq<Receipt>)
  {
    && 1 <= |scenes| <= 9999
    && EachOrdinalHasKey(scenes)
    && forall s | s in scenes :: CanonicalFingerprint(s.fingerprint)
  }

  /**
   * Main result: what the check accepts. There are between 1 and 9999 scene keys, every ordinal up to their
   * number has one, and every scene receipt is canonical. From ten thousand scenes on it always fails.
   */
  lemma CheckExactly(receipts: seq<Receipt>)
    requires InKeyOrder(receipts)
    ensures Check(receipts) == None <==> Complete(Scenes(receipts))
  {
    hide SceneMark, StringLess, CanonicalFingerprint, Scenes, FaultFrom;
    var scenes := Scenes(receipts);
    ScenesInOrder(receipts);
    NoFaultExactly(scenes, 0);
    if |scenes| >= 10000 {
      TenThousandFails(scenes);
    } else if scenes != [] {
      if Complete(scenes) {
        OrdinalsInPlace(scenes);
        assert forall i | 0 <= i < |scenes| :: scenes[i] in scenes;
      }
      if FaultFrom(scenes, 0) == None {
        NoFaultIsComplete(scenes);
      }
    }
  }

  lemma NoFaultIsComplete(scenes: seq<Receipt>)
    requires 1 <= |scenes| <= 9999 && FaultFrom(scenes, 0) == None
    ensures Complete(scenes)
  {
    hide SceneMark, CanonicalFingerprint, FaultFrom;
    NoFaultExactly(scenes, 0);
    forall o | 1 <= o <= |scenes| ensures HasKey(scenes, o) {
      var i := o - 1;
      assert SceneMark(i + 1) <= scenes[i].stage;
    }
    assert forall i | 0 <= i < |scenes| :: CanonicalFingerprint(scenes[i].fingerprint);
    assert forall s | s in scenes :: CanonicalFingerprint(s.fingerprint);
  }

  lemma OrdinalsInPlace(scenes: seq<Receipt>)
    requires InKeyOrder(scenes) && |scenes| <= 9999 && EachOrdinalHasKey(scenes)
    ensures forall i | 0 <= i < |scenes| :: SceneMark(i + 1) <= scenes[i].stage
  {
    hide SceneMark, StringLess;
    forall i | 0 <= i < |scenes| ensures SceneMark(i + 1) <= scenes[i].stage {
      assert HasKey(scenes, i + 1);
      var h :| 0 <= h < |scenes| && SceneMark(i + 1) <= scenes[h].stage;
      PlaceAtLeast(scenes, i + 1, h);
      PlaceAtMost(scenes, i + 1, h);
    }
  }

  /** Accepted receipts hold each ordinal once, and no scene key without an ordinal. */
  lemma OneKeyPerOrdinal(receipts: seq<Receipt>, i: nat, o: nat)
    requires InKeyOrder(receipts) && Check(receipts) == None
    requires i < |Scenes(receipts)| && 1 <= o <= |Scenes(receipts)|
    ensures SceneMark(o) <= Scenes(receipts)[i].stage <==> o == i + 1
  {
    hide SceneMark, StringLess, CanonicalFingerprint, Scenes, FaultFrom;
    CheckExactly(receipts);
    ScenesInOrder(receipts);
    NoFaultExactly(Scenes(receipts), 0);
    if SceneMark(o) <= Scenes(receipts)[i].stage {
      PlaceAtLeast(Scenes(receipts), o, i);
      PlaceAtMost(Scenes(receipts), o, i);
    }
  }
}
