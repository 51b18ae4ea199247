/**
 * Three runs from the empty system in which handlers overlap and a live project's object is lost. In all, a first
 * version is uploaded, replaced by a second one, collected, and uploaded once more.
 */
module ProjectOverlap {
  import opened Common
  import opened Shapes
  import opened CoordinatorState
  import opened CoordinatorSteps
  import opened CoordinatorInvariant
  import opened ProjectStore
  import opened ProjectHandlers
  import opened ProjectPresence

  /** Two different bundles of one project, in a deployment whose hashes have the form of SHA-256. */
  ghost predicate Setting(cfg: Config, id: string, a: Bytes, b: Bytes)
  {
    && BoundedId(cfg.workspaceId) && BoundedProjectId(id)
    && |cfg.workspaceHash| == 64 && (forall i | 0 <= i < 64 :: HexChar(cfg.workspaceHash[i]))
    && (forall x :: Fingerprint(cfg.contentHash(x)))
    && (forall op, p, n, v, size :: Fingerprint(cfg.requestHash(op, p, n, v, size)))
    && TransportSize(a) && TransportSize(b) && cfg.contentHash(a) != cfg.contentHash(b)
  }

  // ----- The runs -----

  /** Uploads `a`, then `b`; each handler runs alone. */
  function Superseded(id: string, a: Bytes, b: Bytes, keys: Keys): seq<Event>
  {
    [SignIn, Start(1, Upload(id, "u1", a, keys, true)), Step(1, 0, true), Step(1, 0, true), Step(1, 0, true),
     Start(2, Upload(id, "u2", b, keys, true)), Step(2, 0, true), Step(2, 0, true), Step(2, 0, true)]
  }

  function Collection(id: string, v: string): Request { Collect(id, "g1", v, RETENTION_MS) }

  /** An upload of `a` finds the old object there, the collection of `a` runs, and the upload goes on. */
  function UploadOverCollection(cfg: Config, id: string, a: Bytes, b: Bytes, keys: Keys): seq<Event>
  {
    Superseded(id, a, b, keys)
    + [Start(3, Upload(id, "u3", a, keys, true)), Step(3, 0, true), Step(3, 0, true),
       Start(4, Collection(id, cfg.contentHash(a))), Step(4, 0, true), Step(4, 0, true), Step(4, 0, true),
       Step(3, 0, true), Step(3, 0, true)]
  }

  /** A collection of `a` pauses before its removal, its retry runs, `a` is uploaded, and the first removal lands. */
  function RemovalAfterUpload(cfg: Config, id: string, a: Bytes, b: Bytes, keys: Keys): seq<Event>
  {
    Superseded(id, a, b, keys)
    + [Start(3, Collection(id, cfg.contentHash(a))), Step(3, 0, true),
       Start(4, Collection(id, cfg.contentHash(a))), Step(4, 0, true), Step(4, 0, true), Step(4, 0, true),
       Start(5, Upload(id, "u3", a, keys, true)), Step(5, 0, true), Step(5, 0, true), Step(5, 0, true),
       Step(3, 0, true)]
  }

  /** A deletion of `a` pauses before its removal, `b` is uploaded, `a` collected and uploaded, and the removal lands. */
  function ErasureAfterUpload(cfg: Config, id: string, a: Bytes, b: Bytes, keys: Keys): seq<Event>
  {
    [SignIn] + Whole(1, Upload(id, "u1", a, keys, true))
    + [Start(2, Delete(id, "d1")), Step(2, 0, true), Step(2, 0, true)]
    + Whole(3, Upload(id, "u2", b, keys, true)) + Whole(4, Collection(id, cfg.contentHash(a)))
    + Whole(5, Upload(id, "u3", a, keys, true)) + [Step(2, 0, true)]
  }

  // ----- The project along the runs -----

  function Pointing(cfg: Config, id: string, bundle: Bytes, n: nat): Pointer
  {
    var v := cfg.contentHash(bundle);
    Pointer(cfg.workspaceId, n, Live, v, ObjectKey(cfg, id, v), v, 0)
  }

  function Record(cfg: Config, id: string, op: string, bundle: Bytes, expected: nat, status: VersionStatus,
                  n: nat): VersionRecord
  {
    RecordFor(UploadPrepare(cfg, id, op, bundle, expected), status, 0, n)
  }

  function Logged(cfg: Config, id: string, op: string, bundle: Bytes, expected: nat): PrepareOperation
  {
    PrepareOperation(ReceiptFor(UploadPrepare(cfg, id, op, bundle, expected), Fresh), 0)
  }

  /** The project after a fresh version was prepared. */
  function Prepared1(cfg: Config, id: string, p: Project, op: string, bundle: Bytes, expected: nat): Project
  {
    p.(versions := p.versions[cfg.contentHash(bundle) := Record(cfg, id, op, bundle, expected, Prepared, expected)],
       prepares := p.prepares[op := Logged(cfg, id, op, bundle, expected)])
  }

  /** And after it was activated. */
  function Activated1(cfg: Config, id: string, p: Project, op: string, bundle: Bytes, expected: nat): Project
  {
    var retired := if p.pointer.Some? && p.pointer.value.versionId in p.versions
                   then SetStatus(p, p.pointer.value.versionId, Orphan).versions else p.versions;
    p.(pointer := Some(Pointing(cfg, id, bundle, expected + 1)),
       versions := retired[cfg.contentHash(bundle) := Record(cfg, id, op, bundle, expected, Active, expected + 1)],
       prepares := p.prepares[op := Logged(cfg, id, op, bundle, expected)])
  }

  function Once(cfg: Config, id: string, a: Bytes): Project { Activated1(cfg, id, EMPTY_PROJECT, "u1", a, 0) }

  function Twice(cfg: Config, id: string, a: Bytes, b: Bytes): Project { Activated1(cfg, id, Once(cfg, id, a), "u2", b, 1) }

  function Receipt(cfg: Config, id: string, a: Bytes): GcReceipt
  {
    GcReceiptFor(GcInput(id, cfg.contentHash(a), "g1", 0), Record(cfg, id, "u1", a, 0, Orphan, 1))
  }

  /** `a` was replaced by `b`, which is live at version `n`. */
  ghost predicate Replaced(cfg: Config, id: string, a: Bytes, b: Bytes, n: nat, p: Project)
  {
    var va, vb := cfg.contentHash(a), cfg.contentHash(b);
    && va != vb && 0 < n && p.pointer == Some(Pointing(cfg, id, b, n))
    && p.versions == map[va := Record(cfg, id, "u1", a, 0, Orphan, 1), vb := Record(cfg, id, "u2", b, n - 1, Active, n)]
    && p.prepares == map["u1" := Logged(cfg, id, "u1", a, 0), "u2" := Logged(cfg, id, "u2", b, n - 1)]
    && p.gcs == map[]
  }

  /** The project while the collection of `a` is pending, and once it is done. */
  function Begun(cfg: Config, id: string, a: Bytes, p: Project): Project
  {
    p.(versions := p.versions[cfg.contentHash(a) := Record(cfg, id, "u1", a, 0, GcPending, 1)],
       gcs := map["g1" := GcOperation(0, Receipt(cfg, id, a), 0)])
  }

  function Swept(cfg: Config, id: string, a: Bytes, p: Project): Project
  {
    p.(versions := p.versions - {cfg.contentHash(a)}, prepares := p.prepares - {"u1"},
       gcs := map["g1" := GcOperation(0, Receipt(cfg, id, a).(completed := true), 0)])
  }

  /** The project after `a` was uploaded and deleted, and after `b` was uploaded as well. */
  function Deleted1(cfg: Config, id: string, a: Bytes): Project
  {
    var p := Once(cfg, id, a);
    var q := Pointing(cfg, id, a, 1);
    var next := q.(state := Deleted, pointerVersion := 2);
    p.(pointer := Some(next), versions := map[cfg.contentHash(a) := Record(cfg, id, "u1", a, 0, Orphan, 1)],
       tombstones := map["d1" := TombstoneOperation(MarkInput(id, "d1", q), next, 0)])
  }

  function Rebuilt(cfg: Config, id: string, a: Bytes, b: Bytes): Project
  {
    Activated1(cfg, id, Deleted1(cfg, id, a), "u2", b, 2)
  }

  // ----- Transactions -----

  lemma KeyIsBounded(cfg: Config, id: string, a: Bytes, b: Bytes, x: Bytes)
    requires Setting(cfg, id, a, b)
    ensures BoundedText(ObjectKey(cfg, id, cfg.contentHash(x)), 512)
  {
    var v := cfg.contentHash(x);
    var key := ObjectKey(cfg, id, v);
    assert Fingerprint(v);
    assert key == "v2/" + cfg.workspaceHash + "/" + id + "/versions/" + v + ".qfbundle";
    assert |key| == 3 + 64 + 1 + |id| + 10 + 71 + 9;
    HexIsPrintable();
    FingerprintIsPrintable(v);
    var head := "v2/" + cfg.workspaceHash + "/";
    AllPrintable("v2/", cfg.workspaceHash);
    AllPrintable("v2/" + cfg.workspaceHash, "/");
    AllPrintable(head, id);
    AllPrintable(head + id, "/versions/");
    AllPrintable(head + id + "/versions/", v);
    AllPrintable(head + id + "/versions/" + v, ".qfbundle");
  }

  lemma HexIsPrintable()
    ensures forall c | HexChar(c) || IdChar(c) :: Printable(c)
  {
  }

  lemma FingerprintIsPrintable(v: string)
    requires Fingerprint(v)
    ensures forall i | 0 <= i < |v| :: Printable(v[i])
  {
    forall i | 0 <= i < 7 ensures Printable(v[i]) {
      assert v[i] == v[..7][i];
    }
  }

  lemma AllPrintable(s: string, t: string)
    requires (forall i | 0 <= i < |s| :: Printable(s[i])) && forall i | 0 <= i < |t| :: Printable(t[i])
    ensures forall i | 0 <= i < |s + t| :: Printable((s + t)[i])
  {
  }

  lemma InputsAreValid(cfg: Config, id: string, a: Bytes, b: Bytes, x: Bytes, op: string, expected: nat)
    requires Setting(cfg, id, a, b) && x in {a, b} && op in {"u1", "u2", "u3"} && expected <= 3
    ensures ValidPrepareInput(UploadPrepare(cfg, id, op, x, expected)) && ValidCasInput(UploadCas(cfg, id, x, expected))
    ensures BoundedId(op)
  {
    hide ObjectKey, BoundedProjectId, TransportSize;
    KeyIsBounded(cfg, id, a, b, x);
    var v := cfg.contentHash(x);
    assert Fingerprint(v);
    FingerprintIsPrintable(v);
    SizeFits(x);
  }

  lemma SizeFits(x: Bytes)
    requires TransportSize(x)
    ensures 0 < |x| <= CoordinatorState.MAX_VERSION_BYTES
  {
  }

  /** Where the pointer stands when an upload of a fresh version expects it, or has none to expect. */
  ghost predicate Expects(cfg: Config, p: Project, expected: nat)
  {
    && PointerVersion(p) == expected
    && (p.pointer.Some? ==>
          var q := p.pointer.value;
          && q.workspaceId == cfg.workspaceId && q.versionId in p.versions
          && p.versions[q.versionId].id == PointerIdentity(q) && p.versions[q.versionId].status != GcPending)
    && |p.versions| < CAPACITY && |p.prepares| < CAPACITY
  }

  lemma FreshPrepares(cfg: Config, id: string, p: Project, op: string, x: Bytes, expected: nat)
    requires Expects(cfg, p, expected) && cfg.contentHash(x) !in p.versions && op !in p.prepares
    ensures Prepare(Some(cfg.workspaceId), p, UploadPrepare(cfg, id, op, x, expected), 0)
         == (Prepared1(cfg, id, p, op, x, expected), Ok(Logged(cfg, id, op, x, expected).receipt))
  {
    hide ObjectKey;
  }

  lemma FreshActivates(cfg: Config, id: string, p: Project, op: string, x: Bytes, expected: nat)
    requires Expects(cfg, p, expected) && cfg.contentHash(x) !in p.versions && |x| > 0
    requires p.pointer.Some? ==> p.pointer.value.versionId != cfg.contentHash(x)
    ensures Cas(Some(cfg.workspaceId), Prepared1(cfg, id, p, op, x, expected), UploadCas(cfg, id, x, expected), 0)
         == (Some(cfg.workspaceId), Activated1(cfg, id, p, op, x, expected), Ok(Pointing(cfg, id, x, expected + 1)))
  {
    hide ObjectKey;
    var q := Prepared1(cfg, id, p, op, x, expected);
    var v := cfg.contentHash(x);
    assert !AlreadyNamed(q, UploadCas(cfg, id, x, expected));
    assert Activated1(cfg, id, p, op, x, expected) == Advance(q, UploadCas(cfg, id, x, expected), 0) by {
      assert Activated1(cfg, id, p, op, x, expected).versions == Advance(q, UploadCas(cfg, id, x, expected), 0).versions;
    }
  }

  lemma TwiceIsReplaced(cfg: Config, id: string, a: Bytes, b: Bytes)
    requires cfg.contentHash(a) != cfg.contentHash(b)
    ensures Replaced(cfg, id, a, b, 2, Twice(cfg, id, a, b))
  {
    hide ObjectKey;
  }

  lemma RebuiltIsReplaced(cfg: Config, id: string, a: Bytes, b: Bytes)
    requires cfg.contentHash(a) != cfg.contentHash(b)
    ensures Replaced(cfg, id, a, b, 3, Rebuilt(cfg, id, a, b))
  {
    hide ObjectKey;
  }

  lemma CollectionBegins(cfg: Config, id: string, a: Bytes, b: Bytes, n: nat, p: Project)
    requires Replaced(cfg, id, a, b, n, p)
    ensures var input := GcInput(id, cfg.contentHash(a), "g1", 0);
            && BeginGc(Some(cfg.workspaceId), p, input, 0) == (Begun(cfg, id, a, p), Ok(Receipt(cfg, id, a)))
            && BeginGc(Some(cfg.workspaceId), Begun(cfg, id, a, p), input, 0)
               == (Begun(cfg, id, a, p), Ok(Receipt(cfg, id, a)))
  {
    hide ObjectKey;
    var input := GcInput(id, cfg.contentHash(a), "g1", 0);
    assert MakeRoom(p.gcs) == Some(map[]);
    assert SetStatus(p, cfg.contentHash(a), GcPending).versions == Begun(cfg, id, a, p).versions;
  }

  lemma CollectionFinishes(cfg: Config, id: string, a: Bytes, b: Bytes, n: nat, p: Project)
    requires Replaced(cfg, id, a, b, n, p)
    ensures FinishGc(Begun(cfg, id, a, p), GcFinishInput(id, cfg.contentHash(a), "g1", true)).0 == Swept(cfg, id, a, p)
  {
    hide ObjectKey;
  }

  lemma SweptReady(cfg: Config, id: string, a: Bytes, b: Bytes, n: nat, p: Project)
    requires Replaced(cfg, id, a, b, n, p)
    ensures var t := Swept(cfg, id, a, p);
            && Expects(cfg, t, n) && cfg.contentHash(a) !in t.versions && "u3" !in t.prepares
            && t.pointer.Some? && t.pointer.value.versionId != cfg.contentHash(a)
  {
    hide ObjectKey, RecordFor, UploadPrepare, Logged, Receipt;
    var t := Swept(cfg, id, a, p);
    BackedAtN(cfg, id, b, n);
    assert t.versions == map[cfg.contentHash(b) := Record(cfg, id, "u2", b, n - 1, Active, n)];
    assert t.prepares == map["u2" := Logged(cfg, id, "u2", b, n - 1)];
  }

  lemma BackedAtN(cfg: Config, id: string, b: Bytes, n: nat)
    requires n > 0
    ensures Record(cfg, id, "u2", b, n - 1, Active, n).id == PointerIdentity(Pointing(cfg, id, b, n))
    ensures Record(cfg, id, "u2", b, n - 1, Active, n).status == Active
  {
    hide ObjectKey;
  }

  lemma StagesExpect(cfg: Config, id: string, a: Bytes)
    ensures Expects(cfg, EMPTY_PROJECT, 0) && Expects(cfg, Once(cfg, id, a), 1)
    ensures Once(cfg, id, a).versions.Keys == {cfg.contentHash(a)} && Once(cfg, id, a).prepares.Keys == {"u1"}
    ensures Once(cfg, id, a).pointer == Some(Pointing(cfg, id, a, 1))
  {
    hide ObjectKey;
    var p := Once(cfg, id, a);
    assert p.versions == map[cfg.contentHash(a) := Record(cfg, id, "u1", a, 0, Active, 1)];
    assert p.prepares == map["u1" := Logged(cfg, id, "u1", a, 0)];
  }

  lemma Deletes(cfg: Config, id: string, a: Bytes)
    ensures var (t, r) := Tombstone(Some(cfg.workspaceId), Once(cfg, id, a), MarkInput(id, "d1", Pointing(cfg, id, a, 1)), 0);
            t == Deleted1(cfg, id, a) && r.Ok?
    ensures Expects(cfg, Deleted1(cfg, id, a), 2)
    ensures Deleted1(cfg, id, a).versions.Keys == {cfg.contentHash(a)} && Deleted1(cfg, id, a).prepares.Keys == {"u1"}
    ensures Deleted1(cfg, id, a).pointer.Some? && Deleted1(cfg, id, a).pointer.value.versionId == cfg.contentHash(a)
  {
    hide ObjectKey;
    StagesExpect(cfg, id, a);
  }

  // ----- One event at a time -----

  /** The workspace is bound, the project and bucket are as given, and these handlers are in flight. */
  ghost predicate At(cfg: Config, w: World, id: string, p: Project, bucket: Bucket, flights: map<nat, Flight>)
  {
    && w.sys.coord.binding == Some(cfg.workspaceId) && ProjectOf(w.sys.coord, id) == p
    && w.sys.bucket == bucket && w.flights == flights
  }

  lemma AfterOne(cfg: Config, events: seq<Event>, e: Event)
    ensures After(cfg, events + [e]) == Next(cfg, After(cfg, events), e)
  {
    hide Next;
    assert (events + [e])[..|events|] == events;
  }

  lemma SignedIn(cfg: Config, id: string)
    requires BoundedId(cfg.workspaceId)
    ensures At(cfg, After(cfg, [SignIn]), id, EMPTY_PROJECT, map[], map[])
  {
    assert [SignIn][..0] == [];
    assert After(cfg, []) == EMPTY_WORLD;
  }

  lemma Started(cfg: Config, events: seq<Event>, id: string, p: Project, bucket: Bucket, flights: map<nat, Flight>,
                h: nat, r: Request, f: Flight)
    requires At(cfg, After(cfg, events), id, p, bucket, flights) && h !in flights && r.projectId == id
    requires Begin(cfg, After(cfg, events).sys.coord, r) == Some(f)
    ensures At(cfg, After(cfg, events + [Start(h, r)]), id, p, bucket, flights[h := f])
  {
    hide After, Begin, ProjectOf;
    AfterOne(cfg, events, Start(h, r));
  }

  /** A step that runs a transaction of the project which keeps the binding. */
  lemma Stepped(cfg: Config, events: seq<Event>, id: string, p: Project, bucket: Bucket, flights: map<nat, Flight>, h: nat,
                op: Op, t: Project)
    requires At(cfg, After(cfg, events), id, p, bucket, flights) && h in flights && flights[h].projectId == id
    requires Transaction(cfg, flights[h], 0) == Some(op) && ValidOp(op)
    requires OnProject(Some(cfg.workspaceId), p, op) == (Some(cfg.workspaceId), t)
    ensures At(cfg, After(cfg, events + [Step(h, 0, true)]), id, t, bucket,
               Land(flights, h, Onward(cfg, After(cfg, events).sys, flights[h], 0, true)))
  {
    hide After, ProjectOf, OnProject, ValidOp, Onward, ObjectKey, UploadPrepare, UploadCas;
    var w := After(cfg, events);
    AfterOne(cfg, events, Step(h, 0, true));
    TransactionTarget(cfg, flights[h], 0);
    AppliedProject(w.sys.coord, op, id);
    AppliedBinding(w.sys.coord, op);
    assert BucketAfter(cfg, bucket, flights[h], true) == bucket;
  }

  lemma TransactionTarget(cfg: Config, f: Flight, now: nat)
    ensures var op := Transaction(cfg, f, now); op.Some? ==> Target(op.value) == f.projectId
  {
  }

  lemma AppliedBinding(s: State, op: Op)
    requires ValidOp(op)
    ensures Apply(s, op).binding == OnProject(s.binding, ProjectOf(s, Target(op)), op).0
  {
    hide OnProject, ValidOp;
  }

  /** A step that touches only the bucket. */
  lemma Touched(cfg: Config, events: seq<Event>, id: string, p: Project, bucket: Bucket, flights: map<nat, Flight>, h: nat)
    requires At(cfg, After(cfg, events), id, p, bucket, flights) && h in flights && Transaction(cfg, flights[h], 0).None?
    ensures At(cfg, After(cfg, events + [Step(h, 0, true)]), id, p, BucketAfter(cfg, bucket, flights[h], true),
               Land(flights, h, Onward(cfg, After(cfg, events).sys, flights[h], 0, true)))
  {
    hide After, ProjectOf, Onward, ObjectKey, UploadPrepare, UploadCas, BucketAfter;
    AfterOne(cfg, events, Step(h, 0, true));
  }

  // ----- Whole uploads and collections -----

  function Seal(cfg: Config, id: string, x: Bytes, keys: Keys, bucket: Bucket): Bucket
  {
    bucket[ObjectKey(cfg, id, cfg.contentHash(x)) := SealedBundle(cfg, keys, id, x)]
  }

  /** The last two steps of an upload of a fresh version. */
  lemma UploadEnds(cfg: Config, events: seq<Event>, id: string, a: Bytes, b: Bytes, p: Project, bucket: Bucket,
                   flights: map<nat, Flight>, h: nat, op: string, x: Bytes, expected: nat)
    requires Setting(cfg, id, a, b) && x in {a, b} && op in {"u1", "u2", "u3"} && expected <= 3
    requires At(cfg, After(cfg, events), id, p, bucket, flights)
    requires h in flights && flights[h] == Preparing(id, op, x, expected)
    requires Expects(cfg, p, expected) && cfg.contentHash(x) !in p.versions && op !in p.prepares
    requires p.pointer.Some? ==> p.pointer.value.versionId != cfg.contentHash(x)
    ensures At(cfg, After(cfg, events + [Step(h, 0, true), Step(h, 0, true)]), id,
               Activated1(cfg, id, p, op, x, expected), bucket, flights - {h})
  {
    hide After, ObjectKey, Prepare, Cas, Expects, BoundedProjectId, Fingerprint, ValidPrepareInput, ValidCasInput,
      Prepared1, Activated1, Logged, Pointing;
    InputsAreValid(cfg, id, a, b, x, op, expected);
    FreshPrepares(cfg, id, p, op, x, expected);
    var prepare := PrepareOp(UploadPrepare(cfg, id, op, x, expected), 0);
    var q := Prepared1(cfg, id, p, op, x, expected);
    Stepped(cfg, events, id, p, bucket, flights, h, prepare, q);
    var events1, flights1 := events + [Step(h, 0, true)], flights[h := Activating(id, x, expected)];
    FreshActivates(cfg, id, p, op, x, expected);
    var cas := CasOp(UploadCas(cfg, id, x, expected), 0);
    Stepped(cfg, events1, id, q, bucket, flights1, h, cas, Activated1(cfg, id, p, op, x, expected));
    assert events1 + [Step(h, 0, true)] == events + [Step(h, 0, true), Step(h, 0, true)];
    assert flights1 - {h} == flights - {h};
  }

  lemma UploadBegins(cfg: Config, s: State, id: string, a: Bytes, b: Bytes, p: Project, op: string, x: Bytes,
                     keys: Keys, expected: nat)
    requires Setting(cfg, id, a, b) && op in {"u1", "u2", "u3"}
    requires s.binding == Some(cfg.workspaceId) && ProjectOf(s, id) == p && PointerVersion(p) == expected
    requires p.pointer.Some? ==>
               p.pointer.value.workspaceId == cfg.workspaceId && p.pointer.value.versionId != cfg.contentHash(x)
    ensures Begin(cfg, s, Upload(id, op, x, keys, true)) == Some(Putting(id, op, x, keys, expected))
  {
    hide BoundedProjectId, Fingerprint;
  }

  lemma Transportable(cfg: Config, id: string, a: Bytes, b: Bytes, x: Bytes)
    requires Setting(cfg, id, a, b) && x in {a, b}
    ensures TransportSize(x)
  {
    hide BoundedProjectId, Fingerprint, TransportSize;
  }

  lemma ExpectedIs(cfg: Config, p: Project, expected: nat)
    requires Expects(cfg, p, expected)
    ensures PointerVersion(p) == expected && (p.pointer.Some? ==> p.pointer.value.workspaceId == cfg.workspaceId)
  {
  }

  /** An upload of a fresh version whose key is free. */
  lemma FreshUpload(cfg: Config, events: seq<Event>, id: string, a: Bytes, b: Bytes, p: Project, bucket: Bucket,
                    flights: map<nat, Flight>, h: nat, op: string, x: Bytes, keys: Keys, expected: nat)
    requires Setting(cfg, id, a, b) && x in {a, b} && op in {"u1", "u2", "u3"} && expected <= 3
    requires At(cfg, After(cfg, events), id, p, bucket, flights) && h !in flights
    requires Expects(cfg, p, expected) && cfg.contentHash(x) !in p.versions && op !in p.prepares
    requires p.pointer.Some? ==> p.pointer.value.versionId != cfg.contentHash(x)
    requires ObjectKey(cfg, id, cfg.contentHash(x)) !in bucket
    ensures At(cfg, After(cfg, events + Whole(h, Upload(id, op, x, keys, true))), id,
               Activated1(cfg, id, p, op, x, expected), Seal(cfg, id, x, keys, bucket), flights)
  {
    hide After, ObjectKey, Setting, Expects, Activated1, Begin, SealedBundle;
    Transportable(cfg, id, a, b, x);
    assert PointerVersion(p) == expected && (p.pointer.Some? ==> p.pointer.value.workspaceId == cfg.workspaceId) by {
      ExpectedIs(cfg, p, expected);
    }
    var r, f := Upload(id, op, x, keys, true), Putting(id, op, x, keys, expected);
    UploadBegins(cfg, After(cfg, events).sys.coord, id, a, b, p, op, x, keys, expected);
    Started(cfg, events, id, p, bucket, flights, h, r, f);
    var events1, flights1 := events + [Start(h, r)], flights[h := f];
    Touched(cfg, events1, id, p, bucket, flights1, h);
    var events2, flights2 := events1 + [Step(h, 0, true)], flights1[h := Preparing(id, op, x, expected)];
    UploadEnds(cfg, events2, id, a, b, p, Seal(cfg, id, x, keys, bucket), flights2, h, op, x, expected);
    assert flights2 - {h} == flights;
    assert events2 + [Step(h, 0, true), Step(h, 0, true)]
        == events + Whole(h, r);
  }

  function Objects(cfg: Config, id: string, a: Bytes, b: Bytes, keys: Keys): Bucket
  {
    Seal(cfg, id, b, keys, Seal(cfg, id, a, keys, map[]))
  }

  lemma KeysDiffer(cfg: Config, id: string, a: Bytes, b: Bytes)
    requires Setting(cfg, id, a, b)
    ensures ObjectKey(cfg, id, cfg.contentHash(a)) != ObjectKey(cfg, id, cfg.contentHash(b))
  {
    hide ObjectKey, BoundedProjectId, Fingerprint;
    if ObjectKey(cfg, id, cfg.contentHash(a)) == ObjectKey(cfg, id, cfg.contentHash(b)) {
      ObjectKeyInjective(cfg, id, cfg.contentHash(a), id, cfg.contentHash(b));
    }
  }

  function Whole(h: nat, r: Request): seq<Event> { [Start(h, r), Step(h, 0, true), Step(h, 0, true), Step(h, 0, true)] }

  lemma FirstUpload(cfg: Config, id: string, a: Bytes, b: Bytes, keys: Keys)
    requires Setting(cfg, id, a, b)
    ensures At(cfg, After(cfg, [SignIn] + Whole(1, Upload(id, "u1", a, keys, true))), id, Once(cfg, id, a),
               Seal(cfg, id, a, keys, map[]), map[])
  {
    hide After, ObjectKey, BoundedProjectId, Fingerprint, Activated1, Expects;
    StagesExpect(cfg, id, a);
    SignedIn(cfg, id);
    FreshUpload(cfg, [SignIn], id, a, b, EMPTY_PROJECT, map[], map[], 1, "u1", a, keys, 0);
  }

  lemma SupersededRuns(cfg: Config, id: string, a: Bytes, b: Bytes, keys: Keys)
    requires Setting(cfg, id, a, b)
    ensures At(cfg, After(cfg, Superseded(id, a, b, keys)), id, Twice(cfg, id, a, b), Objects(cfg, id, a, b, keys), map[])
  {
    hide After, ObjectKey, Setting, Activated1, Expects, Once, At;
    var events := [SignIn] + Whole(1, Upload(id, "u1", a, keys, true));
    HashesDiffer(cfg, id, a, b);
    StagesExpect(cfg, id, a);
    KeysDiffer(cfg, id, a, b);
    FirstUpload(cfg, id, a, b, keys);
    FreshUpload(cfg, events, id, a, b, Once(cfg, id, a), Seal(cfg, id, a, keys, map[]), map[], 2, "u2", b, keys, 1);
    assert events + Whole(2, Upload(id, "u2", b, keys, true)) == Superseded(id, a, b, keys);
  }

  lemma CollectionStarts(cfg: Config, s: State, id: string, a: Bytes, b: Bytes, n: nat, p: Project)
    requires Setting(cfg, id, a, b) && Replaced(cfg, id, a, b, n, p) && ProjectOf(s, id) in {p, Begun(cfg, id, a, p)}
    ensures Begin(cfg, s, Collection(id, cfg.contentHash(a))) == Some(Beginning(id, "g1", cfg.contentHash(a), 0))
    ensures ValidOp(BeginGcOp(GcInput(id, cfg.contentHash(a), "g1", 0), 0))
    ensures ValidOp(FinishGcOp(GcFinishInput(id, cfg.contentHash(a), "g1", true)))
    ensures MayCollect(cfg, id, Receipt(cfg, id, a))
  {
    hide ObjectKey, BoundedProjectId, Fingerprint, TransportSize;
    SizeFits(a);
    assert Fingerprint(cfg.contentHash(a));
  }

  /** The collection up to its removal, for the first time or as a retry. */
  lemma CollectionPends(cfg: Config, events: seq<Event>, id: string, a: Bytes, b: Bytes, n: nat, p: Project, q: Project,
                        bucket: Bucket, flights: map<nat, Flight>, h: nat)
    requires Setting(cfg, id, a, b) && Replaced(cfg, id, a, b, n, p) && q in {p, Begun(cfg, id, a, p)} && h !in flights
    requires At(cfg, After(cfg, events), id, q, bucket, flights)
    ensures At(cfg, After(cfg, events + [Start(h, Collection(id, cfg.contentHash(a))), Step(h, 0, true)]), id,
               Begun(cfg, id, a, p), bucket, flights[h := Removing(id, "g1", Receipt(cfg, id, a))])
  {
    hide After, ObjectKey, BoundedProjectId, Fingerprint, Replaced, Begun, BeginGc, Begin, ValidOp, Setting;
    var v := cfg.contentHash(a);
    CollectionStarts(cfg, After(cfg, events).sys.coord, id, a, b, n, p);
    CollectionBegins(cfg, id, a, b, n, p);
    var r, f, op := Collection(id, v), Beginning(id, "g1", v, 0), BeginGcOp(GcInput(id, v, "g1", 0), 0);
    Started(cfg, events, id, q, bucket, flights, h, r, f);
    var events1 := events + [Start(h, r)];
    Stepped(cfg, events1, id, q, bucket, flights[h := f], h, op, Begun(cfg, id, a, p));
    BegunGoesOn(cfg, After(cfg, events1).sys, id, a, b, n, p, q);
    assert events1 + [Step(h, 0, true)] == events + [Start(h, r), Step(h, 0, true)];
    var removing := Removing(id, "g1", Receipt(cfg, id, a));
    assert flights[h := f][h := removing] == flights[h := removing];
  }

  lemma HashesDiffer(cfg: Config, id: string, a: Bytes, b: Bytes)
    requires Setting(cfg, id, a, b)
    ensures cfg.contentHash(a) != cfg.contentHash(b) && a != b
  {
  }

  lemma BegunGoesOn(cfg: Config, s: System, id: string, a: Bytes, b: Bytes, n: nat, p: Project, q: Project)
    requires Setting(cfg, id, a, b) && Replaced(cfg, id, a, b, n, p) && q in {p, Begun(cfg, id, a, p)}
    requires s.coord.binding == Some(cfg.workspaceId) && ProjectOf(s.coord, id) == q
    ensures Onward(cfg, s, Beginning(id, "g1", cfg.contentHash(a), 0), 0, true)
         == Some(Removing(id, "g1", Receipt(cfg, id, a)))
  {
    hide ObjectKey, BoundedProjectId, Fingerprint, Replaced, Begun, BeginGc, Setting;
    CollectionStarts(cfg, s.coord, id, a, b, n, p);
    CollectionBegins(cfg, id, a, b, n, p);
  }

  /** The removal and the finish of a pending collection. */
  lemma CollectionEnds(cfg: Config, events: seq<Event>, id: string, a: Bytes, b: Bytes, n: nat, p: Project, bucket: Bucket,
                       flights: map<nat, Flight>, h: nat)
    requires Setting(cfg, id, a, b) && Replaced(cfg, id, a, b, n, p)
    requires h in flights && flights[h] == Removing(id, "g1", Receipt(cfg, id, a))
    requires At(cfg, After(cfg, events), id, Begun(cfg, id, a, p), bucket, flights)
    ensures At(cfg, After(cfg, events + [Step(h, 0, true), Step(h, 0, true)]), id, Swept(cfg, id, a, p),
               bucket - {ObjectKey(cfg, id, cfg.contentHash(a))}, flights - {h})
  {
    hide After, ObjectKey, BoundedProjectId, Fingerprint, Replaced, Begun, Swept, FinishGc, ValidOp, Setting, MayCollect;
    var v := cfg.contentHash(a);
    CollectionStarts(cfg, After(cfg, events).sys.coord, id, a, b, n, p);
    ReceiptIs(cfg, id, a);
    Touched(cfg, events, id, Begun(cfg, id, a, p), bucket, flights, h);
    var events1, flights1 := events + [Step(h, 0, true)], flights[h := Finishing(id, "g1", v)];
    var emptied := bucket - {ObjectKey(cfg, id, v)};
    CollectionFinishes(cfg, id, a, b, n, p);
    Stepped(cfg, events1, id, Begun(cfg, id, a, p), emptied, flights1, h,
            FinishGcOp(GcFinishInput(id, v, "g1", true)), Swept(cfg, id, a, p));
    assert events1 + [Step(h, 0, true)] == events + [Step(h, 0, true), Step(h, 0, true)];
    assert flights1 - {h} == flights - {h};
  }

  lemma ReceiptIs(cfg: Config, id: string, a: Bytes)
    ensures var r := Receipt(cfg, id, a);
            r.versionId == cfg.contentHash(a) && r.id.objectKey == ObjectKey(cfg, id, cfg.contentHash(a))
  {
  }

  lemma LostObject(cfg: Config, w: World, id: string, a: Bytes, p: Project, n: nat, bucket: Bucket, flights: map<nat,
                   Flight>)
    requires At(cfg, w, id, Activated1(cfg, id, p, "u3", a, n), bucket, flights)
    requires ObjectKey(cfg, id, cfg.contentHash(a)) !in bucket
    ensures LivePointer(ProjectOf(w.sys.coord, id))
    ensures ProjectOf(w.sys.coord, id).pointer.value.versionId == cfg.contentHash(a)
    ensures !AllPresent(cfg, w.sys)
  {
    assert !Present(cfg, id, ProjectOf(w.sys.coord, id), w.sys.bucket);
  }

  // ----- The results -----

  /** The upload that found the old object there, before its preparation. */
  lemma UploadWaits(cfg: Config, id: string, a: Bytes, b: Bytes, keys: Keys)
    requires Setting(cfg, id, a, b)
    ensures var found := [Start(3, Upload(id, "u3", a, keys, true)), Step(3, 0, true), Step(3, 0, true)];
            At(cfg, After(cfg, Superseded(id, a, b, keys) + found), id, Twice(cfg, id, a, b), Objects(cfg, id, a, b, keys),
               map[3 := Preparing(id, "u3", a, 2)])
  {
    hide After, ObjectKey, Setting, Twice, Objects, Begin, Open, TransportSize;
    var p, start, r := Twice(cfg, id, a, b), Superseded(id, a, b, keys), Upload(id, "u3", a, keys, true);
    var objects := Objects(cfg, id, a, b, keys);
    SupersededRuns(cfg, id, a, b, keys);
    TwiceStands(cfg, id, a, b);
    StoredOpens(cfg, id, a, b, keys);
    UploadBegins(cfg, After(cfg, start).sys.coord, id, a, b, p, "u3", a, keys, 2);
    Started(cfg, start, id, p, objects, map[], 3, r, Putting(id, "u3", a, keys, 2));
    var events1 := start + [Start(3, r)];
    Touched(cfg, events1, id, p, objects, map[3 := Putting(id, "u3", a, keys, 2)], 3);
    var events2 := events1 + [Step(3, 0, true)];
    Touched(cfg, events2, id, p, objects, map[3 := Comparing(id, "u3", a, keys, 2)], 3);
    assert events2 + [Step(3, 0, true)] == start + [Start(3, r), Step(3, 0, true), Step(3, 0, true)];
  }

  /**
   * Main result: an upload that overlaps the whole collection of its version activates a version whose object is
   * gone, in every deployment and project and for any two bundles.
   */
  lemma UploadOverCollectionLoses(cfg: Config, id: string, a: Bytes, b: Bytes, keys: Keys)
    requires Setting(cfg, id, a, b)
    ensures var s := After(cfg, UploadOverCollection(cfg, id, a, b, keys)).sys;
            && LivePointer(ProjectOf(s.coord, id)) && ProjectOf(s.coord, id).pointer.value.versionId == cfg.contentHash(a)
            && !AllPresent(cfg, s)
  {
    hide After, ObjectKey, Setting, Twice, Replaced, Begun, Swept, Activated1, Expects, AllPresent, Objects;
    var v, p, objects := cfg.contentHash(a), Twice(cfg, id, a, b), Objects(cfg, id, a, b, keys);
    HashesDiffer(cfg, id, a, b);
    TwiceIsReplaced(cfg, id, a, b);
    UploadWaits(cfg, id, a, b, keys);
    var found := [Start(3, Upload(id, "u3", a, keys, true)), Step(3, 0, true), Step(3, 0, true)];
    var events3 := Superseded(id, a, b, keys) + found;
    var waiting := map[3 := Preparing(id, "u3", a, 2)];
    CollectionPends(cfg, events3, id, a, b, 2, p, p, objects, waiting, 4);
    var events4 := events3 + [Start(4, Collection(id, v)), Step(4, 0, true)];
    CollectionEnds(cfg, events4, id, a, b, 2, p, objects, waiting[4 := Removing(id, "g1", Receipt(cfg, id, a))], 4);
    var events5, left := events4 + [Step(4, 0, true), Step(4, 0, true)], objects - {ObjectKey(cfg, id, v)};
    assert waiting[4 := Removing(id, "g1", Receipt(cfg, id, a))] - {4} == waiting;
    SweptReady(cfg, id, a, b, 2, p);
    UploadEnds(cfg, events5, id, a, b, Swept(cfg, id, a, p), left, waiting, 3, "u3", a, 2);
    var events := events5 + [Step(3, 0, true), Step(3, 0, true)];
    LostObject(cfg, After(cfg, events), id, a, Swept(cfg, id, a, p), 2, left, waiting - {3});
    assert events == UploadOverCollection(cfg, id, a, b, keys);
  }

  lemma TwiceStands(cfg: Config, id: string, a: Bytes, b: Bytes)
    requires Setting(cfg, id, a, b)
    ensures var p := Twice(cfg, id, a, b);
            && PointerVersion(p) == 2 && p.pointer.Some? && p.pointer.value.workspaceId == cfg.workspaceId
            && p.pointer.value.versionId != cfg.contentHash(a)
  {
    hide ObjectKey, Twice, BoundedProjectId, Fingerprint;
    TwiceIsReplaced(cfg, id, a, b);
  }

  lemma StoredOpens(cfg: Config, id: string, a: Bytes, b: Bytes, keys: Keys)
    requires Setting(cfg, id, a, b)
    ensures var objects, v := Objects(cfg, id, a, b, keys), cfg.contentHash(a);
            TransportSize(a) && ObjectKey(cfg, id, v) in objects && Open(cfg, keys, objects, id, v) == Ok(a)
  {
    hide ObjectKey, BoundedProjectId, Fingerprint;
    KeysDiffer(cfg, id, a, b);
  }

  /**
   * Main result: a collection paused before its removal destroys the object of a live version, when its retry
   * completed it and the version was uploaded anew in between.
   */
  lemma RemovalAfterUploadLoses(cfg: Config, id: string, a: Bytes, b: Bytes, keys: Keys)
    requires Setting(cfg, id, a, b)
    ensures var events := RemovalAfterUpload(cfg, id, a, b, keys);
            var before, s := After(cfg, events[..|events| - 1]).sys, After(cfg, events).sys;
            && ObjectKey(cfg, id, cfg.contentHash(a)) in before.bucket
            && LivePointer(ProjectOf(s.coord, id)) && ProjectOf(s.coord, id).pointer.value.versionId == cfg.contentHash(a)
            && !AllPresent(cfg, s)
  {
    hide After, ObjectKey, Setting, Twice, Replaced, Begun, Swept, Activated1, Expects, AllPresent, BoundedProjectId,
      Begin, MayCollect;
    var v, start := cfg.contentHash(a), Superseded(id, a, b, keys);
    var p, objects, removing := Twice(cfg, id, a, b), Objects(cfg, id, a, b, keys), Removing(id, "g1", Receipt(cfg, id, a));
    SupersededRuns(cfg, id, a, b, keys);
    HashesDiffer(cfg, id, a, b);
    TwiceIsReplaced(cfg, id, a, b);
    CollectionPends(cfg, start, id, a, b, 2, p, p, objects, map[], 3);
    var events1, paused := start + [Start(3, Collection(id, v)), Step(3, 0, true)], map[3 := removing];
    assert map[][3 := removing] == paused;
    CollectionPends(cfg, events1, id, a, b, 2, p, Begun(cfg, id, a, p), objects, paused, 4);
    var events2 := events1 + [Start(4, Collection(id, v)), Step(4, 0, true)];
    CollectionEnds(cfg, events2, id, a, b, 2, p, objects, paused[4 := removing], 4);
    var events3, left := events2 + [Step(4, 0, true), Step(4, 0, true)], objects - {ObjectKey(cfg, id, v)};
    assert paused[4 := removing] - {4} == paused;
    SweptReady(cfg, id, a, b, 2, p);
    FreshUpload(cfg, events3, id, a, b, Swept(cfg, id, a, p), left, paused, 5, "u3", a, keys, 2);
    var events4 := events3 + Whole(5, Upload(id, "u3", a, keys, true));
    var full, again := Seal(cfg, id, a, keys, left), Activated1(cfg, id, Swept(cfg, id, a, p), "u3", a, 2);
    ReceiptIs(cfg, id, a);
    ReceiptCollects(cfg, id, a, b);
    Touched(cfg, events4, id, again, full, paused, 3);
    var events := events4 + [Step(3, 0, true)];
    assert events == RemovalAfterUpload(cfg, id, a, b, keys) && events[..|events| - 1] == events4;
    LostObject(cfg, After(cfg, events), id, a, Swept(cfg, id, a, p), 2, full - {ObjectKey(cfg, id, v)},
               map[3 := Finishing(id, "g1", v)]);
  }

  lemma ReceiptCollects(cfg: Config, id: string, a: Bytes, b: Bytes)
    requires Setting(cfg, id, a, b)
    ensures MayCollect(cfg, id, Receipt(cfg, id, a))
  {
    hide ObjectKey, BoundedProjectId, Fingerprint, TransportSize;
    SizeFits(a);
    assert Fingerprint(cfg.contentHash(a));
  }

  lemma DeletionIsValid(cfg: Config, s: System, id: string, a: Bytes, b: Bytes)
    requires Setting(cfg, id, a, b)
    requires s.coord.binding == Some(cfg.workspaceId) && ProjectOf(s.coord, id) == Once(cfg, id, a)
    ensures var q := Pointing(cfg, id, a, 1);
            && Begin(cfg, s.coord, Delete(id, "d1")) == Some(Looking(id, "d1", q))
            && Onward(cfg, s, Looking(id, "d1", q), 0, true) == Some(Marking(id, "d1", q))
            && ValidOp(TombstoneOp(MarkInput(id, "d1", q), 0))
            && Onward(cfg, s, Marking(id, "d1", q), 0, true) == Some(Erasing(id, q))
  {
    hide ObjectKey, Once, Tombstone, Deleted1, Expects, Setting, ValidTombstoneInput, BoundedId, BoundedProjectId;
    StagesExpect(cfg, id, a);
    OnceHasNoTombstone(cfg, id, a);
    MarkIsValid(cfg, id, a, b);
    Deletes(cfg, id, a);
  }

  lemma MarkIsValid(cfg: Config, id: string, a: Bytes, b: Bytes)
    requires Setting(cfg, id, a, b)
    ensures ValidTombstoneInput(MarkInput(id, "d1", Pointing(cfg, id, a, 1))) && BoundedId("d1") && BoundedProjectId(id)
  {
    hide ObjectKey, BoundedProjectId, TransportSize, Fingerprint;
  }

  lemma OnceHasNoTombstone(cfg: Config, id: string, a: Bytes)
    ensures Once(cfg, id, a).tombstones == map[]
  {
  }

  lemma CapturedIsReadable(cfg: Config, id: string, a: Bytes, b: Bytes)
    requires Setting(cfg, id, a, b)
    ensures MayRead(cfg, id, Pointing(cfg, id, a, 1))
  {
    hide ObjectKey, BoundedProjectId;
    assert Fingerprint(cfg.contentHash(a));
  }

  /** A deletion up to its removal. */
  lemma DeletionPauses(cfg: Config, events: seq<Event>, id: string, a: Bytes, b: Bytes, bucket: Bucket)
    requires Setting(cfg, id, a, b) && At(cfg, After(cfg, events), id, Once(cfg, id, a), bucket, map[])
    ensures At(cfg, After(cfg, events + [Start(2, Delete(id, "d1")), Step(2, 0, true), Step(2, 0, true)]), id,
               Deleted1(cfg, id, a), bucket, map[2 := Erasing(id, Pointing(cfg, id, a, 1))])
  {
    hide After, ObjectKey, Setting, Once, Deleted1, Begin, Onward, ValidOp, Tombstone, Pointing, MayRead;
    var p, q, r := Once(cfg, id, a), Pointing(cfg, id, a, 1), Delete(id, "d1");
    Deletes(cfg, id, a);
    DeletionIsValid(cfg, After(cfg, events).sys, id, a, b);
    Started(cfg, events, id, p, bucket, map[], 2, r, Looking(id, "d1", q));
    var events1, events2 := events + [Start(2, r)], events + [Start(2, r)] + [Step(2, 0, true)];
    Touched(cfg, events1, id, p, bucket, map[2 := Looking(id, "d1", q)], 2);
    DeletionIsValid(cfg, After(cfg, events1).sys, id, a, b);
    Stepped(cfg, events2, id, p, bucket, map[2 := Marking(id, "d1", q)], 2,
            TombstoneOp(MarkInput(id, "d1", q), 0), Deleted1(cfg, id, a));
    DeletionIsValid(cfg, After(cfg, events2).sys, id, a, b);
    assert events2 + [Step(2, 0, true)] == events + [Start(2, r), Step(2, 0, true), Step(2, 0, true)];
    assert map[2 := Marking(id, "d1", q)][2 := Erasing(id, q)] == map[2 := Erasing(id, q)];
  }

  /** Until the last upload: the deletion still waits for its removal. */
  lemma ErasureWaits(cfg: Config, id: string, a: Bytes, b: Bytes, keys: Keys)
    requires Setting(cfg, id, a, b)
    ensures var events, swept := ErasureAfterUpload(cfg, id, a, b, keys), Swept(cfg, id, a, Rebuilt(cfg, id, a, b));
            At(cfg, After(cfg, events[..|events| - 1]), id, Activated1(cfg, id, swept, "u3", a, 3),
               Seal(cfg, id, a, keys, Objects(cfg, id, a, b, keys) - {ObjectKey(cfg, id, cfg.contentHash(a))}),
               map[2 := Erasing(id, Pointing(cfg, id, a, 1))])
  {
    hide After, ObjectKey, Setting, Once, Deleted1, Replaced, Begun, Swept, Activated1, Expects, Pointing;
    var v, objects := cfg.contentHash(a), Objects(cfg, id, a, b, keys);
    var waiting := map[2 := Erasing(id, Pointing(cfg, id, a, 1))];
    var p, stored := Rebuilt(cfg, id, a, b), Seal(cfg, id, a, keys, map[]);
    HashesDiffer(cfg, id, a, b);
    KeysDiffer(cfg, id, a, b);
    FirstUpload(cfg, id, a, b, keys);
    var events1 := [SignIn] + Whole(1, Upload(id, "u1", a, keys, true));
    DeletionPauses(cfg, events1, id, a, b, stored);
    Deletes(cfg, id, a);
    var events2 := events1 + [Start(2, Delete(id, "d1")), Step(2, 0, true), Step(2, 0, true)];
    FreshUpload(cfg, events2, id, a, b, Deleted1(cfg, id, a), stored, waiting, 3, "u2", b, keys, 2);
    RebuiltIsReplaced(cfg, id, a, b);
    var events3 := events2 + Whole(3, Upload(id, "u2", b, keys, true));
    CollectionPends(cfg, events3, id, a, b, 3, p, p, objects, waiting, 4);
    var removing := waiting[4 := Removing(id, "g1", Receipt(cfg, id, a))];
    var events4 := events3 + [Start(4, Collection(id, v)), Step(4, 0, true)];
    CollectionEnds(cfg, events4, id, a, b, 3, p, objects, removing, 4);
    assert removing - {4} == waiting;
    assert events4 + [Step(4, 0, true), Step(4, 0, true)] == events3 + Whole(4, Collection(id, v));
    SweptReady(cfg, id, a, b, 3, p);
    FreshUpload(cfg, events3 + Whole(4, Collection(id, v)), id, a, b, Swept(cfg, id, a, p),
                objects - {ObjectKey(cfg, id, v)}, waiting, 5, "u3", a, keys, 3);
    var events := ErasureAfterUpload(cfg, id, a, b, keys);
    assert events[..|events| - 1] == events3 + Whole(4, Collection(id, v)) + Whole(5, Upload(id, "u3", a, keys, true));
  }

  /**
   * Main result: a deletion paused before its removal destroys the object of a live version, when the project went on
   * with another version and the deleted one was collected and uploaded anew in between.
   */
  lemma ErasureAfterUploadLoses(cfg: Config, id: string, a: Bytes, b: Bytes, keys: Keys)
    requires Setting(cfg, id, a, b)
    ensures var events := ErasureAfterUpload(cfg, id, a, b, keys);
            var before, s := After(cfg, events[..|events| - 1]).sys, After(cfg, events).sys;
            && ObjectKey(cfg, id, cfg.contentHash(a)) in before.bucket
            && LivePointer(ProjectOf(s.coord, id)) && ProjectOf(s.coord, id).pointer.value.versionId == cfg.contentHash(a)
            && !AllPresent(cfg, s)
  {
    hide After, ObjectKey, Setting, Once, Deleted1, Rebuilt, Swept, Activated1, AllPresent, ErasureAfterUpload;
    var v, q, t := cfg.contentHash(a), Pointing(cfg, id, a, 1), Swept(cfg, id, a, Rebuilt(cfg, id, a, b));
    var full := Seal(cfg, id, a, keys, Objects(cfg, id, a, b, keys) - {ObjectKey(cfg, id, v)});
    ErasureWaits(cfg, id, a, b, keys);
    var events := ErasureAfterUpload(cfg, id, a, b, keys);
    ErasureEndsSo(cfg, id, a, b, keys);
    assert MayRead(cfg, id, q) by { CapturedIsReadable(cfg, id, a, b); }
    Touched(cfg, events[..|events| - 1], id, Activated1(cfg, id, t, "u3", a, 3), full, map[2 := Erasing(id, q)], 2);
    LostObject(cfg, After(cfg, events), id, a, t, 3, full - {ObjectKey(cfg, id, v)}, map[]);
  }

  lemma ErasureEndsSo(cfg: Config, id: string, a: Bytes, b: Bytes, keys: Keys)
    ensures var events := ErasureAfterUpload(cfg, id, a, b, keys);
            |events| > 0 && events == events[..|events| - 1] + [Step(2, 0, true)]
  {
  }
}
