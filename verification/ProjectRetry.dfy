/**
 * What repeating a request does. Exactly when an upload, a collection or a deletion that runs alone reaches its end,
 * and that a handler stopped after any of its steps leaves a state from which the same request still does.
 */
module ProjectRetry {
  import opened Common
  import opened Shapes
  import opened CoordinatorState
  import opened CoordinatorSteps
  import opened CoordinatorInvariant
  import opened CoordinatorHistory
  import opened ProjectStore
  import opened ProjectHandlers
  import opened ProjectPresence
  import opened ProjectService

  /** The system when a handler stops after at most `k` steps. */
  ghost function Partial(cfg: Config, s: System, f: Option<Flight>, clock: nat -> nat, accepted: bool, k: nat): System
    decreases k
  {
    if k == 0 || f.None? then s
    else
      Partial(cfg, SystemAfter(cfg, s, f.value, clock(k), accepted), Onward(cfg, s, f.value, clock(k), accepted),
              clock, accepted, k - 1)
  }

  lemma {:induction false} PartialKeepsInv(cfg: Config, s: System, f: Option<Flight>, clock: nat -> nat,
                                           accepted: bool, k: nat)
    requires SystemInv(cfg, s) && (f.Some? ==> FlightOk(cfg, s, f.value))
    ensures SystemInv(cfg, Partial(cfg, s, f, clock, accepted, k))
    decreases k
  {
    hide SystemInv, FlightOk, SystemAfter, Onward;
    if k > 0 && f.Some? {
      StepKeepsInv(cfg, s, f.value, clock(k), accepted);
      OnwardIsOk(cfg, s, f.value, clock(k), accepted);
      PartialKeepsInv(cfg, SystemAfter(cfg, s, f.value, clock(k), accepted), Onward(cfg, s, f.value, clock(k), accepted),
                      clock, accepted, k - 1);
    }
  }

  lemma InvOfProject(cfg: Config, s: System, id: string)
    requires SystemInv(cfg, s)
    ensures ProjectInv(s.coord.binding, ProjectOf(s.coord, id)) && RecordsKeyed(cfg, id, ProjectOf(s.coord, id))
    ensures PendingHeld(ProjectOf(s.coord, id)) && BucketInv(cfg, s.bucket)
  {
    hide ProjectInv, RecordsKeyed, BucketInv, AllPresent, PendingHeld;
    ProjectOfInv(s.coord, id);
  }

  // ----- Uploads -----

  ghost predicate LiveVersion(s: System, id: string, v: string)
  {
    LivePointer(ProjectOf(s.coord, id)) && ProjectOf(s.coord, id).pointer.value.versionId == v
  }

  /** An object that is there already holds these bytes under one of these keys. */
  predicate Opens(cfg: Config, bucket: Bucket, id: string, bundle: Bytes, keys: Keys)
  {
    var key := ObjectKey(cfg, id, cfg.contentHash(bundle));
    key in bucket ==> bucket[key].keyVersion in Ring(keys) && bucket[key].plaintext == bundle
  }

  /** The log knows this very request, or has room for it; and so the records, with no other in the way. */
  predicate HasRoom(cfg: Config, binding: Option<string>, p: Project, id: string, op: string, bundle: Bytes, expected: nat)
  {
    var v, input := cfg.contentHash(bundle), UploadPrepare(cfg, id, op, bundle, expected);
    && (v in p.versions ==> p.versions[v].status != GcPending && p.versions[v].expectedPointerVersion == expected)
    && if op in p.prepares then SameRequest(p.prepares[op].receipt, input) && v in p.versions
       else
         && binding == Some(cfg.workspaceId) && |p.prepares| < CAPACITY
         && if v in p.versions then p.versions[v].byteSize == |bundle| else |p.versions| < CAPACITY
  }

  /** What an upload needs: a readable pointer, its object's keys, valid inputs and room. */
  predicate UploadGuard(cfg: Config, s: System, id: string, op: string, bundle: Bytes, keys: Keys)
  {
    var p := ProjectOf(s.coord, id);
    var expected := ExpectedVersion(p, cfg.contentHash(bundle));
    && BoundedProjectId(id) && BoundedId(op) && PointerReadable(cfg, s.coord, p)
    && TransportSize(bundle) && Opens(cfg, s.bucket, id, bundle, keys)
    && ValidPrepareInput(UploadPrepare(cfg, id, op, bundle, expected)) && expected <= MAX_EXPECTED
    && HasRoom(cfg, s.coord.binding, p, id, op, bundle, expected)
  }

  predicate Readable(cfg: Config, binding: Option<string>, p: Project)
  {
    p.pointer.Some? ==> p.pointer.value.workspaceId == cfg.workspaceId && binding == Some(cfg.workspaceId)
  }

  /** The compare-and-swap of an upload, exactly. */
  lemma CasLands(cfg: Config, binding: Option<string>, p: Project, id: string, bundle: Bytes, expected: nat, now: nat)
    requires ProjectInv(binding, p) && RecordsKeyed(cfg, id, p) && expected == ExpectedVersion(p, cfg.contentHash(bundle))
    ensures var v := cfg.contentHash(bundle);
            Cas(binding, p, UploadCas(cfg, id, bundle, expected), now).2.Ok?
            <==> v in p.versions && p.versions[v].status != GcPending && p.versions[v].expectedPointerVersion == expected
  {
    hide Cas, ProjectInv, ObjectKey, Fingerprint, BoundedProjectId;
    var v, input := cfg.contentHash(bundle), UploadCas(cfg, id, bundle, expected);
    CasNeeds(binding, p, input, now);
    if v in p.versions && p.versions[v].status != GcPending && p.versions[v].expectedPointerVersion == expected {
      CasSucceedsExactly(binding, p, input, now);
    }
  }

  lemma CasNeeds(binding: Option<string>, p: Project, input: CasInput, now: nat)
    ensures Cas(binding, p, input, now).2.Ok? ==>
              && input.versionId in p.versions && p.versions[input.versionId].status != GcPending
              && p.versions[input.versionId].expectedPointerVersion == input.expectedPointerVersion
  {
  }

  lemma LoggedLands(cfg: Config, binding: Option<string>, p: Project, id: string, op: string, bundle: Bytes,
                    expected: nat, now: nat)
    requires op in p.prepares
    ensures var (t, r) := Prepare(binding, p, UploadPrepare(cfg, id, op, bundle, expected), now);
            t == p && (r.Ok? <==> SameRequest(p.prepares[op].receipt, UploadPrepare(cfg, id, op, bundle, expected)))
  {
    hide ObjectKey, SameRequest;
  }

  lemma RecordedLands(cfg: Config, binding: Option<string>, p: Project, id: string, op: string, bundle: Bytes,
                      expected: nat, now: nat)
    requires op !in p.prepares && RecordsKeyed(cfg, id, p) && Readable(cfg, binding, p) && PointerBacked(p)
    requires expected == ExpectedVersion(p, cfg.contentHash(bundle)) && cfg.contentHash(bundle) in p.versions
    ensures var v, input := cfg.contentHash(bundle), UploadPrepare(cfg, id, op, bundle, expected);
            var (t, r) := Prepare(binding, p, input, now);
            && t.pointer == p.pointer && t.versions == p.versions
            && (HasRoom(cfg, binding, p, id, op, bundle, expected) ==>
                  r.Ok? && op in t.prepares && SameRequest(t.prepares[op].receipt, input))
            && (r.Ok? ==> HasRoom(cfg, binding, p, id, op, bundle, expected))
  {
    hide ObjectKey, Fingerprint, BoundedProjectId;
  }

  lemma NewLands(cfg: Config, binding: Option<string>, p: Project, id: string, op: string, bundle: Bytes,
                 expected: nat, now: nat)
    requires op !in p.prepares && Readable(cfg, binding, p) && PointerBacked(p)
    requires expected == ExpectedVersion(p, cfg.contentHash(bundle)) && cfg.contentHash(bundle) !in p.versions
    ensures var v, input := cfg.contentHash(bundle), UploadPrepare(cfg, id, op, bundle, expected);
            var (t, r) := Prepare(binding, p, input, now);
            && t.pointer == p.pointer
            && (HasRoom(cfg, binding, p, id, op, bundle, expected) ==>
                  r.Ok? && op in t.prepares && SameRequest(t.prepares[op].receipt, input)
                  && v in t.versions && t.versions[v].status == Prepared
                    && t.versions[v].expectedPointerVersion == expected)
            && (r.Ok? ==> HasRoom(cfg, binding, p, id, op, bundle, expected))
  {
    hide ObjectKey, Fingerprint, BoundedProjectId;
  }

  /** The preparation of an upload leaves room where there was room, and its version recorded; and needs that room. */
  lemma PrepareLands(cfg: Config, binding: Option<string>, p: Project, id: string, op: string, bundle: Bytes,
                     expected: nat, now: nat)
    requires RecordsKeyed(cfg, id, p) && Readable(cfg, binding, p)
             && expected == ExpectedVersion(p, cfg.contentHash(bundle))
    requires PointerBacked(p)
    ensures var v := cfg.contentHash(bundle);
            var (t, r) := Prepare(binding, p, UploadPrepare(cfg, id, op, bundle, expected), now);
            && t.pointer == p.pointer
            && (HasRoom(cfg, binding, p, id, op, bundle, expected) ==>
                  r.Ok? && v in t.versions && HasRoom(cfg, binding, t, id, op, bundle, expected))
            && (r.Ok? && v in t.versions && t.versions[v].status != GcPending
                && t.versions[v].expectedPointerVersion == expected ==>
                  HasRoom(cfg, binding, p, id, op, bundle, expected))
  {
    hide Prepare, ObjectKey, PointerBacked, RecordsKeyed, SameRequest, ExpectedVersion, Readable;
    if op in p.prepares {
      LoggedLands(cfg, binding, p, id, op, bundle, expected, now);
    } else if cfg.contentHash(bundle) in p.versions {
      RecordedLands(cfg, binding, p, id, op, bundle, expected, now);
    } else {
      NewLands(cfg, binding, p, id, op, bundle, expected, now);
    }
  }

  lemma UploadOps(cfg: Config, id: string, op: string, bundle: Bytes, expected: nat, now: nat)
    ensures ValidOp(PrepareOp(UploadPrepare(cfg, id, op, bundle, expected), now))
       <==> ValidPrepareInput(UploadPrepare(cfg, id, op, bundle, expected))
    ensures ValidOp(CasOp(UploadCas(cfg, id, bundle, expected), now)) ==> expected <= MAX_EXPECTED
    ensures ValidPrepareInput(UploadPrepare(cfg, id, op, bundle, expected)) && expected <= MAX_EXPECTED ==>
              ValidOp(CasOp(UploadCas(cfg, id, bundle, expected), now))
  {
    hide ObjectKey, BoundedProjectId, BoundedId;
  }

  lemma OpensExactly(cfg: Config, bucket: Bucket, id: string, bundle: Bytes, keys: Keys)
    requires BucketInv(cfg, bucket) && BoundedProjectId(id)
    ensures Put(cfg, keys, bucket, id, bundle).1.Ok? <==> TransportSize(bundle) && Opens(cfg, bucket, id, bundle, keys)
  {
    hide ObjectKey, BoundedProjectId, TransportSize;
    OpenExactly(cfg, keys, bucket, id, cfg.contentHash(bundle));
    OpenedPlaintext(cfg, bucket, id, cfg.contentHash(bundle), keys);
  }

  lemma OpenedPlaintext(cfg: Config, bucket: Bucket, id: string, v: string, keys: Keys)
    ensures var r := Open(cfg, keys, bucket, id, v);
            r.Ok? ==> ObjectKey(cfg, id, v) in bucket && r.value == bucket[ObjectKey(cfg, id, v)].plaintext
  {
  }

  lemma AppliedPart(s: State, op: Op, id: string)
    requires Target(op) == id
    ensures var (b, p) := OnProject(s.binding, ProjectOf(s, id), op);
            && ProjectOf(Apply(s, op), id) == (if ValidOp(op) then p else ProjectOf(s, id))
            && Apply(s, op).binding == (if ValidOp(op) then b else s.binding)
  {
    hide OnProject, ValidOp;
  }

  /**
   * Main result: an upload that runs alone ends with its version live exactly when what it needs is there, or the
   * version was live before.
   */
  lemma UploadLandsExactly(cfg: Config, s: System, id: string, op: string, bundle: Bytes, keys: Keys, clock: nat -> nat)
    requires SystemInv(cfg, s)
    ensures var v, f := cfg.contentHash(bundle), Begin(cfg, s.coord, Upload(id, op, bundle, keys, true));
            LiveVersion(Complete(cfg, s, f, clock, true), id, v)
            <==> UploadGuard(cfg, s, id, op, bundle, keys) || LiveVersion(s, id, v)
  {
    hide SystemInv, ProjectInv, RecordsKeyed, BucketInv, Apply, OnProject, ProjectOf, ValidOp, ValidPrepareInput,
      ValidCasInput,
      Complete, Put, Opens, HasRoom, UploadPrepare, UploadCas, ExpectedVersion, BoundedProjectId, BoundedId, TransportSize;
    var p, v := ProjectOf(s.coord, id), cfg.contentHash(bundle);
    var expected := ExpectedVersion(p, v);
    var f := Begin(cfg, s.coord, Upload(id, op, bundle, keys, true));
    InvOfProject(cfg, s, id);
    if f.None? {
      NoneIsDone(cfg, s, clock, true);
    } else {
      UploadIsDone(cfg, s, id, op, bundle, keys, expected, clock);
      OpensExactly(cfg, s.bucket, id, bundle, keys);
      if Put(cfg, keys, s.bucket, id, bundle).1.Ok? {
        StoredLands(cfg, s, id, op, bundle, expected, clock(2), clock(1));
      }
    }
  }

  /** The coordinator's part of an upload. */
  lemma StoredLands(cfg: Config, s: System, id: string, op: string, bundle: Bytes, expected: nat, now: nat, later: nat)
    requires SystemInv(cfg, s) && PointerReadable(cfg, s.coord, ProjectOf(s.coord, id))
    requires expected == ExpectedVersion(ProjectOf(s.coord, id), cfg.contentHash(bundle))
    ensures var v, input := cfg.contentHash(bundle), UploadPrepare(cfg, id, op, bundle, expected);
            var prepared := Apply(s.coord, PrepareOp(input, now));
            var done := if PrepareReply(s.coord, input, now).Err? then prepared
                        else Apply(prepared, CasOp(UploadCas(cfg, id, bundle, expected), later));
            (LivePointer(ProjectOf(done, id)) && ProjectOf(done, id).pointer.value.versionId == v)
            <==> LiveVersion(s, id, v)
                 || (ValidPrepareInput(input) && expected <= MAX_EXPECTED
                     && HasRoom(cfg, s.coord.binding, ProjectOf(s.coord, id), id, op, bundle, expected))
  {
    hide SystemInv, ProjectInv, RecordsKeyed, BucketInv, Apply, ProjectOf, Prepare, Cas, HasRoom, ValidPrepareInput,
      ValidCasInput,
      ObjectKey, ValidOp;
    var p, v := ProjectOf(s.coord, id), cfg.contentHash(bundle);
    var prepare := PrepareOp(UploadPrepare(cfg, id, op, bundle, expected), now);
    var cas := CasOp(UploadCas(cfg, id, bundle, expected), later);
    InvOfProject(cfg, s, id);
    InvIsBacked(s.coord.binding, p);
    UploadOps(cfg, id, op, bundle, expected, now);
    UploadOps(cfg, id, op, bundle, expected, later);
    AppliedPart(s.coord, prepare, id);
    PrepareLands(cfg, s.coord.binding, p, id, op, bundle, expected, now);
    var prepared := Apply(s.coord, prepare);
    var t := ProjectOf(prepared, id);
    AppliedPart(prepared, cas, id);
    assert t.pointer == p.pointer;
    if ValidOp(prepare) && PrepareReply(s.coord, prepare.prepare, now).Ok? {
      assert ExpectedVersion(t, v) == expected;
      PreparedIsKeyed(cfg, s, id, prepare);
      CasLands(cfg, s.coord.binding, t, id, bundle, expected, later);
      CasEffect(s.coord.binding, t, cas.cas, later);
      RoomRecorded(cfg, s.coord.binding, t, id, op, bundle, expected);
    }
  }

  lemma RoomRecorded(cfg: Config, binding: Option<string>, p: Project, id: string, op: string, bundle: Bytes, expected: nat)
    ensures var v := cfg.contentHash(bundle);
            HasRoom(cfg, binding, p, id, op, bundle, expected) && v in p.versions ==>
            p.versions[v].status != GcPending && p.versions[v].expectedPointerVersion == expected
  {
  }

  lemma PreparedIsKeyed(cfg: Config, s: System, id: string, op: Op)
    requires SystemInv(cfg, s) && ValidOp(op) && op.PrepareOp? && op.prepare.projectId == id && FromHandler(cfg, op)
    ensures ProjectInv(s.coord.binding, ProjectOf(Apply(s.coord, op), id))
            && RecordsKeyed(cfg, id, ProjectOf(Apply(s.coord, op), id))
  {
    hide SystemInv, ProjectInv, RecordsKeyed, Apply, OnProject, ProjectOf, ValidOp, BucketInv, PendingHeld;
    InvOfProject(cfg, s, id);
    AppliedPart(s.coord, op, id);
    TransactionKeepsKeyed(cfg, s.coord.binding, ProjectOf(s.coord, id), op);
    OnProjectKeepsInv(s.coord.binding, ProjectOf(s.coord, id), op);
    PrepareKeepsBinding(s.coord.binding, ProjectOf(s.coord, id), op);
  }

  lemma PrepareKeepsBinding(binding: Option<string>, p: Project, op: Op)
    requires op.PrepareOp?
    ensures OnProject(binding, p, op).0 == binding
  {
  }

  /** A flight of this upload that still expects what the pointer is at. */
  predicate OfUpload(cfg: Config, s: System, f: Flight, id: string, op: string, bundle: Bytes, keys: Keys)
  {
    var e := ExpectedVersion(ProjectOf(s.coord, id), cfg.contentHash(bundle));
    || f == Putting(id, op, bundle, keys, e)
    || f == Comparing(id, op, bundle, keys, e)
    || f == Preparing(id, op, bundle, e)
    || f == Activating(id, bundle, e)
  }

  /** What the upload needs under the keys it started with and under those it is repeated with. */
  predicate BothReady(cfg: Config, s: System, id: string, op: string, bundle: Bytes, keys: Keys, retry: Keys)
  {
    UploadGuard(cfg, s, id, op, bundle, keys) && UploadGuard(cfg, s, id, op, bundle, retry)
  }

  lemma StoringStaysReady(cfg: Config, s: System, f: Flight, id: string, op: string, bundle: Bytes, keys: Keys, retry: Keys)
    requires (f.Putting? || f.Comparing?) && OfUpload(cfg, s, f, id, op, bundle, keys)
    requires BothReady(cfg, s, id, op, bundle, keys, retry) && keys.current in Ring(retry)
    ensures BothReady(cfg, s.(bucket := BucketAfter(cfg, s.bucket, f, true)), id, op, bundle, keys, retry)
  {
    hide ValidPrepareInput, HasRoom, ObjectKey, BoundedProjectId, BoundedId, TransportSize;
  }

  lemma PreparingStaysReady(cfg: Config, s: System, id: string, op: string, bundle: Bytes, keys: Keys, now: nat)
    requires SystemInv(cfg, s) && UploadGuard(cfg, s, id, op, bundle, keys)
    ensures var e := ExpectedVersion(ProjectOf(s.coord, id), cfg.contentHash(bundle));
            var t := s.(coord := Apply(s.coord, PrepareOp(UploadPrepare(cfg, id, op, bundle, e), now)));
            UploadGuard(cfg, t, id, op, bundle, keys)
              && ExpectedVersion(ProjectOf(t.coord, id), cfg.contentHash(bundle)) == e
  {
    hide SystemInv, ProjectInv, RecordsKeyed, BucketInv, Apply, ProjectOf, Prepare, HasRoom, ValidPrepareInput, ObjectKey,
      BoundedProjectId, BoundedId, TransportSize, Opens;
    var p, v := ProjectOf(s.coord, id), cfg.contentHash(bundle);
    var e := ExpectedVersion(p, v);
    InvOfProject(cfg, s, id);
    InvIsBacked(s.coord.binding, p);
    AppliedPart(s.coord, PrepareOp(UploadPrepare(cfg, id, op, bundle, e), now), id);
    PrepareLands(cfg, s.coord.binding, p, id, op, bundle, e, now);
  }

  lemma ActivatingLandsOrStays(cfg: Config, s: System, id: string, op: string, bundle: Bytes, keys: Keys, now: nat)
    requires SystemInv(cfg, s) && UploadGuard(cfg, s, id, op, bundle, keys)
    ensures var v := cfg.contentHash(bundle);
            var e := ExpectedVersion(ProjectOf(s.coord, id), v);
            var t := s.(coord := Apply(s.coord, CasOp(UploadCas(cfg, id, bundle, e), now)));
            LiveVersion(t, id, v) || (ProjectOf(t.coord, id) == ProjectOf(s.coord, id)
              && t.coord.binding == s.coord.binding)
  {
    hide SystemInv, ProjectInv, RecordsKeyed, BucketInv, Apply, ProjectOf, Cas, ValidPrepareInput, ValidCasInput, ObjectKey,
      BoundedProjectId, BoundedId, TransportSize, Opens, HasRoom;
    var p, v := ProjectOf(s.coord, id), cfg.contentHash(bundle);
    var e := ExpectedVersion(p, v);
    InvOfProject(cfg, s, id);
    UploadOps(cfg, id, op, bundle, e, now);
    AppliedPart(s.coord, CasOp(UploadCas(cfg, id, bundle, e), now), id);
    RoomRecorded(cfg, s.coord.binding, p, id, op, bundle, e);
    CasLands(cfg, s.coord.binding, p, id, bundle, e, now);
    CasEffect(s.coord.binding, p, UploadCas(cfg, id, bundle, e), now);
    if v !in p.versions {
      CasWithoutRecord(s.coord.binding, p, UploadCas(cfg, id, bundle, e), now);
    }
  }

  lemma CasWithoutRecord(binding: Option<string>, p: Project, input: CasInput, now: nat)
    requires input.versionId !in p.versions
    ensures Cas(binding, p, input, now).0 == binding && Cas(binding, p, input, now).1 == p
  {
  }

  /** One step of an upload: it lands, or leaves what it needs. */
  lemma UploadStep(cfg: Config, s: System, f: Flight, id: string, op: string, bundle: Bytes, keys: Keys, retry: Keys,
                   now: nat)
    requires SystemInv(cfg, s) && OfUpload(cfg, s, f, id, op, bundle, keys)
    requires BothReady(cfg, s, id, op, bundle, keys, retry) && keys.current in Ring(retry)
    ensures var t, g := SystemAfter(cfg, s, f, now, true), Onward(cfg, s, f, now, true);
            || (LiveVersion(t, id, cfg.contentHash(bundle)) && g.None?)
            || (BothReady(cfg, t, id, op, bundle, keys, retry)
                && (g.Some? ==> OfUpload(cfg, t, g.value, id, op, bundle, keys)))
  {
    hide SystemInv, Apply, ProjectOf, ObjectKey, BoundedProjectId, BoundedId, TransportSize, Opens, HasRoom,
      ValidPrepareInput,
      UploadPrepare, UploadCas, PrepareReply, ExpectedVersion, Open, LiveVersion;
    var t := SystemAfter(cfg, s, f, now, true);
    if f.Putting? || f.Comparing? {
      StoringStaysReady(cfg, s, f, id, op, bundle, keys, retry);
    } else if f.Preparing? {
      PreparingStaysReady(cfg, s, id, op, bundle, keys, now);
      PreparingStaysReady(cfg, s, id, op, bundle, retry, now);
    } else {
      ActivatingLandsOrStays(cfg, s, id, op, bundle, keys, now);
    }
  }

  lemma {:induction false} PartialUpload(cfg: Config, s: System, f: Option<Flight>, id: string, op: string, bundle: Bytes,
                                         keys: Keys, retry: Keys, clock: nat -> nat, k: nat)
    requires SystemInv(cfg, s) && (f.Some? ==> OfUpload(cfg, s, f.value, id, op, bundle, keys) && FlightOk(cfg, s, f.value))
    requires BothReady(cfg, s, id, op, bundle, keys, retry) && keys.current in Ring(retry)
    ensures var t := Partial(cfg, s, f, clock, true, k);
            LiveVersion(t, id, cfg.contentHash(bundle)) || UploadGuard(cfg, t, id, op, bundle, retry)
    decreases k
  {
    hide SystemInv, FlightOk, OfUpload, LiveVersion, UploadGuard, SystemAfter, Onward;
    if k > 0 && f.Some? {
      var t, g := SystemAfter(cfg, s, f.value, clock(k), true), Onward(cfg, s, f.value, clock(k), true);
      UploadStep(cfg, s, f.value, id, op, bundle, keys, retry, clock(k));
      StepKeepsInv(cfg, s, f.value, clock(k), true);
      OnwardIsOk(cfg, s, f.value, clock(k), true);
      if LiveVersion(t, id, cfg.contentHash(bundle)) && g.None? {
        assert Partial(cfg, t, g, clock, true, k - 1) == t;
      } else {
        PartialUpload(cfg, t, g, id, op, bundle, keys, retry, clock, k - 1);
      }
    }
  }

  lemma UploadFlight(cfg: Config, s: System, id: string, op: string, bundle: Bytes, keys: Keys)
    ensures var f := Begin(cfg, s.coord, Upload(id, op, bundle, keys, true));
            f.Some? ==> OfUpload(cfg, s, f.value, id, op, bundle, keys)
  {
    hide BoundedProjectId, BoundedId;
  }

  /**
   * Main result: a retry finishes an upload. From a state in which it would land, let it stop after any number of
   * steps; repeated alone, under any keys that still open its object, it ends with its version live.
   */
  lemma RetriedUploadLands(cfg: Config, s: System, id: string, op: string, bundle: Bytes, keys: Keys, retry: Keys,
                           clock: nat -> nat, k: nat, later: nat -> nat)
    requires SystemInv(cfg, s) && BothReady(cfg, s, id, op, bundle, keys, retry) && keys.current in Ring(retry)
    ensures var t := Partial(cfg, s, Begin(cfg, s.coord, Upload(id, op, bundle, keys, true)), clock, true, k);
            LiveVersion(Complete(cfg, t, Begin(cfg, t.coord, Upload(id, op, bundle, retry, true)), later, true), id,
                        cfg.contentHash(bundle))
  {
    hide SystemInv, FlightOk, OfUpload, LiveVersion, UploadGuard, Partial, Complete, Begin;
    var f := Begin(cfg, s.coord, Upload(id, op, bundle, keys, true));
    BeginIsOk(cfg, s, Upload(id, op, bundle, keys, true));
    UploadFlight(cfg, s, id, op, bundle, keys);
    PartialKeepsInv(cfg, s, f, clock, true, k);
    PartialUpload(cfg, s, f, id, op, bundle, keys, retry, clock, k);
    UploadLandsExactly(cfg, Partial(cfg, s, f, clock, true, k), id, op, bundle, retry, later);
  }

  // ----- Collections -----

  /** The operation is logged as done, and neither the record nor the object is left. */
  ghost predicate Collected(cfg: Config, s: System, id: string, op: string, v: string)
  {
    var p := ProjectOf(s.coord, id);
    && op in p.gcs && p.gcs[op].receipt.completed && p.gcs[op].receipt.versionId == v
    && v !in p.versions && ObjectKey(cfg, id, v) !in s.bucket
  }

  /** What a collection needs: a pending operation, or an unnamed orphan old enough and room in the log. */
  ghost predicate CollectGuard(s: State, id: string, op: string, v: string, now: nat)
  {
    var p := ProjectOf(s, id);
    && BoundedProjectId(id) && BoundedId(op) && Fingerprint(v)
    && if op in p.gcs then PendingFor(p, op, v)
       else
         && now >= RETENTION_MS && v in p.versions && p.versions[v].status == Orphan
         && p.versions[v].createdAt <= now - RETENTION_MS && !Names(p, v)
         && (|p.gcs| < CAPACITY || Completed(p.gcs) != {})
  }

  /** The receipt of a pending collection names the object of a record pending collection. */
  lemma PendingIsCollectable(cfg: Config, s: System, id: string, op: string, v: string)
    requires SystemInv(cfg, s) && PendingFor(ProjectOf(s.coord, id), op, v)
    ensures var p := ProjectOf(s.coord, id);
            && MayCollect(cfg, id, p.gcs[op].receipt) && p.gcs[op].receipt.id.objectKey == ObjectKey(cfg, id, v)
            && v in p.versions && p.versions[v].status == GcPending && !Names(p, v)
  {
    hide SystemInv, ProjectInv, ObjectKey, BucketInv, Fingerprint, BoundedProjectId;
    InvOfProject(cfg, s, id);
    var p := ProjectOf(s.coord, id);
    UnnamedWhilePending(s.coord.binding, p, v);
    var k :| k in p.gcs && Tracks(p.gcs[k], v, p.versions[v]);
    assert k == op;
  }

  lemma FinishCollects(p: Project, id: string, op: string, v: string)
    requires PendingFor(p, op, v) && v in p.versions && p.versions[v].status == GcPending && !Names(p, v)
    ensures var t := FinishGc(p, GcFinishInput(id, v, op, true)).0;
            op in t.gcs && t.gcs[op].receipt.completed && t.gcs[op].receipt.versionId == v && v !in t.versions
  {
  }

  lemma GcOps(id: string, op: string, v: string, retention: nat, now: nat)
    requires BoundedProjectId(id) && BoundedId(op) && Fingerprint(v)
    ensures ValidOp(BeginGcOp(GcInput(id, v, op, retention), now)) && ValidOp(FinishGcOp(GcFinishInput(id, v, op, true)))
  {
    hide BoundedProjectId, BoundedId, Fingerprint;
  }

  /** The last step of a collection whose object is removed. */
  lemma FinishingCollects(cfg: Config, s: System, id: string, op: string, v: string)
    requires SystemInv(cfg, s) && PendingFor(ProjectOf(s.coord, id), op, v) && ObjectKey(cfg, id, v) !in s.bucket
    requires BoundedProjectId(id) && BoundedId(op) && Fingerprint(v)
    ensures Collected(cfg, s.(coord := Apply(s.coord, FinishGcOp(GcFinishInput(id, v, op, true)))), id, op, v)
  {
    hide SystemInv, Apply, ProjectOf, FinishGc, ObjectKey, ValidOp, MayCollect, BoundedProjectId, BoundedId,
      Fingerprint, PendingFor;
    GcOps(id, op, v, 0, 0);
    PendingIsCollectable(cfg, s, id, op, v);
    FinishCollects(ProjectOf(s.coord, id), id, op, v);
    AppliedPart(s.coord, FinishGcOp(GcFinishInput(id, v, op, true)), id);
  }

  /** What the first step of a collection leaves, when it begins or goes on. */
  lemma BeginningPends(cfg: Config, s: System, id: string, op: string, v: string, now: nat, at: nat)
    requires SystemInv(cfg, s) && CollectGuard(s.coord, id, op, v, now)
    ensures var input := GcInput(id, v, op, RetentionFor(ProjectOf(s.coord, id), op, now).value);
            var t := Apply(s.coord, BeginGcOp(input, at));
            var reply := BeginGcReply(s.coord, input, at);
            && PendingFor(ProjectOf(t, id), op, v) && reply == Ok(ProjectOf(t, id).gcs[op].receipt)
              && !reply.value.completed
  {
    hide SystemInv, ProjectInv, Apply, ProjectOf, BeginGc, ObjectKey, ValidOp, BoundedProjectId, BoundedId, Fingerprint;
    var p := ProjectOf(s.coord, id);
    var input := GcInput(id, v, op, RetentionFor(p, op, now).value);
    InvOfProject(cfg, s, id);
    GcOps(id, op, v, input.retentionBefore, at);
    AppliedPart(s.coord, BeginGcOp(input, at), id);
    BeginGcEffect(s.coord.binding, p, input, at);
    if op in p.gcs {
      BeginGcReplays(s.coord.binding, p, input, at);
    } else {
      BeginGcExactly(s.coord.binding, p, input, at);
    }
  }

  lemma BeginGcReplays(binding: Option<string>, p: Project, input: GcInput, now: nat)
    requires input.operationId in p.gcs
    ensures BeginGc(binding, p, input, now).0 == p
    ensures var prior := p.gcs[input.operationId];
            BeginGc(binding, p, input, now).1
            == if prior.receipt.versionId == input.versionId && prior.retentionBefore == input.retentionBefore
               then Ok(prior.receipt) else Err(OperationConflict)
  {
  }

  lemma NothingBegins(cfg: Config, s: System, id: string, op: string, v: string, now: nat, at: nat)
    requires SystemInv(cfg, s) && !CollectGuard(s.coord, id, op, v, now)
    requires BoundedProjectId(id) && BoundedId(op) && Fingerprint(v) && RetentionFor(ProjectOf(s.coord, id), op, now).Some?
    ensures var input := GcInput(id, v, op, RetentionFor(ProjectOf(s.coord, id), op, now).value);
            var reply := BeginGcReply(s.coord, input, at);
            (reply.Err? || reply.value.completed)
              && ProjectOf(Apply(s.coord, BeginGcOp(input, at)), id) == ProjectOf(s.coord, id)
  {
    hide SystemInv, ProjectInv, Apply, ProjectOf, BeginGc, ObjectKey, ValidOp, BoundedProjectId, BoundedId, Fingerprint;
    var p := ProjectOf(s.coord, id);
    var input := GcInput(id, v, op, RetentionFor(p, op, now).value);
    InvOfProject(cfg, s, id);
    GcOps(id, op, v, input.retentionBefore, at);
    AppliedPart(s.coord, BeginGcOp(input, at), id);
    BeginGcEffect(s.coord.binding, p, input, at);
    if op in p.gcs {
      BeginGcReplays(s.coord.binding, p, input, at);
    } else {
      BeginGcExactly(s.coord.binding, p, input, at);
    }
  }

  /**
   * Main result: a collection that runs alone, with its removal accepted, ends with its version collected exactly when
   * what it needs is there, or the version was collected before.
   */
  lemma CollectionCompletesExactly(cfg: Config, s: System, id: string, op: string, v: string, now: nat, clock: nat -> nat)
    requires SystemInv(cfg, s)
    ensures Collected(cfg, Complete(cfg, s, Begin(cfg, s.coord, Collect(id, op, v, now)), clock, true), id, op, v)
       <==> CollectGuard(s.coord, id, op, v, now) || Collected(cfg, s, id, op, v)
  {
    hide SystemInv, ProjectInv, Apply, ProjectOf, BeginGcReply, ObjectKey, BoundedProjectId, BoundedId, Fingerprint,
      Complete,
      CollectGuard, MayCollect, FlightOk, SystemAfter, Onward, PendingFor;
    var f := Begin(cfg, s.coord, Collect(id, op, v, now));
    GuardBegins(cfg, s.coord, id, op, v, now);
    if f.None? {
      NoneIsDone(cfg, s, clock, true);
    } else {
      var retention := f.value.retention;
      var input := GcInput(id, v, op, retention);
      var begun := s.(coord := Apply(s.coord, BeginGcOp(input, clock(3))));
      BeginningEnds(cfg, s, id, op, v, retention, clock, true);
      if CollectGuard(s.coord, id, op, v, now) {
        BeginningPends(cfg, s, id, op, v, now, clock(3));
        var receipt := BeginGcReply(s.coord, input, clock(3)).value;
        BeginIsOk(cfg, s, Collect(id, op, v, now));
        StepKeepsInv(cfg, s, f.value, clock(3), true);
        BeginningSteps(cfg, s, id, op, v, retention, clock(3));
        PendingIsCollectable(cfg, begun, id, op, v);
        RemovingEnds(cfg, begun, id, op, receipt, clock, true);
        PendingVersion(ProjectOf(begun.coord, id), op, v);
        var removed := begun.(bucket := begun.bucket - {ObjectKey(cfg, id, v)});
        FinishingEnds(cfg, removed, id, op, v, clock, true);
        RemovedKeepsInv(cfg, begun, id, op, v, receipt, clock(2));
        FinishingCollects(cfg, removed, id, op, v);
      } else {
        NothingBegins(cfg, s, id, op, v, now, clock(3));
      }
    }
  }

  lemma GuardBegins(cfg: Config, s: State, id: string, op: string, v: string, now: nat)
    ensures var f := Begin(cfg, s, Collect(id, op, v, now));
            && (CollectGuard(s, id, op, v, now) ==> f.Some?)
            && (f.Some? ==> BoundedProjectId(id) && BoundedId(op) && Fingerprint(v)
                            && RetentionFor(ProjectOf(s, id), op, now).Some?
                            && f.value == Beginning(id, op, v, RetentionFor(ProjectOf(s, id), op, now).value))
  {
    hide BoundedProjectId, BoundedId, Fingerprint;
  }

  lemma BeginningSteps(cfg: Config, s: System, id: string, op: string, v: string, retention: nat, now: nat)
    ensures SystemAfter(cfg, s, Beginning(id, op, v, retention), now, true)
         == s.(coord := Apply(s.coord, BeginGcOp(GcInput(id, v, op, retention), now)))
  {
    hide Apply;
  }

  lemma PendingVersion(p: Project, op: string, v: string)
    requires PendingFor(p, op, v)
    ensures op in p.gcs && p.gcs[op].receipt.versionId == v
  {
  }

  lemma RemovedKeepsInv(cfg: Config, s: System, id: string, op: string, v: string, receipt: GcReceipt, now: nat)
    requires SystemInv(cfg, s) && PendingFor(ProjectOf(s.coord, id), op, v) && BoundedProjectId(id)
    requires receipt == ProjectOf(s.coord, id).gcs[op].receipt
    ensures SystemInv(cfg, s.(bucket := s.bucket - {ObjectKey(cfg, id, v)}))
  {
    hide SystemInv, Apply, ProjectOf, ObjectKey, BoundedProjectId, MayCollect;
    PendingIsCollectable(cfg, s, id, op, v);
    StepKeepsInv(cfg, s, Removing(id, op, receipt), now, true);
  }

  /** A flight of this collection. */
  ghost predicate OfCollection(cfg: Config, s: System, f: Flight, id: string, op: string, v: string, now: nat)
  {
    var p := ProjectOf(s.coord, id);
    || (f.Beginning? && RetentionFor(p, op, now).Some? && f == Beginning(id, op, v, RetentionFor(p, op, now).value))
    || (PendingFor(p, op, v) && f == Removing(id, op, p.gcs[op].receipt))
    || (PendingFor(p, op, v) && f == Finishing(id, op, v) && ObjectKey(cfg, id, v) !in s.bucket)
  }

  /** One step of a collection, its removal accepted or not: it completes, or leaves what it needs. */
  lemma CollectionStep(cfg: Config, s: System, f: Flight, id: string, op: string, v: string, now: nat, at: nat,
                       accepted: bool)
    requires SystemInv(cfg, s) && CollectGuard(s.coord, id, op, v, now) && OfCollection(cfg, s, f, id, op, v, now)
    ensures var t, g := SystemAfter(cfg, s, f, at, accepted), Onward(cfg, s, f, at, accepted);
            || (Collected(cfg, t, id, op, v) && g.None?)
            || (CollectGuard(t.coord, id, op, v, now) && (g.Some? ==> OfCollection(cfg, t, g.value, id, op, v, now)))
  {
    hide SystemInv, Apply, ProjectOf, ObjectKey, BoundedProjectId, BoundedId, Fingerprint, BeginGcReply, MayCollect,
      Collected;
    var p := ProjectOf(s.coord, id);
    if f.Beginning? {
      BeginningPends(cfg, s, id, op, v, now, at);
    } else if f.Removing? {
      PendingIsCollectable(cfg, s, id, op, v);
    } else {
      FinishingCollects(cfg, s, id, op, v);
    }
  }

  lemma {:induction false} PartialCollection(cfg: Config, s: System, f: Option<Flight>, id: string, op: string,
                                             v: string, now: nat,
                                             clock: nat -> nat, accepted: bool, k: nat)
    requires SystemInv(cfg, s) && CollectGuard(s.coord, id, op, v, now)
    requires f.Some? ==> OfCollection(cfg, s, f.value, id, op, v, now) && FlightOk(cfg, s, f.value)
    ensures var t := Partial(cfg, s, f, clock, accepted, k);
            Collected(cfg, t, id, op, v) || CollectGuard(t.coord, id, op, v, now)
    decreases k
  {
    hide SystemInv, FlightOk, OfCollection, Collected, CollectGuard, SystemAfter, Onward;
    if k > 0 && f.Some? {
      var t, g := SystemAfter(cfg, s, f.value, clock(k), accepted), Onward(cfg, s, f.value, clock(k), accepted);
      CollectionStep(cfg, s, f.value, id, op, v, now, clock(k), accepted);
      StepKeepsInv(cfg, s, f.value, clock(k), accepted);
      OnwardIsOk(cfg, s, f.value, clock(k), accepted);
      if Collected(cfg, t, id, op, v) && g.None? {
        assert Partial(cfg, t, g, clock, accepted, k - 1) == t;
      } else {
        PartialCollection(cfg, t, g, id, op, v, now, clock, accepted, k - 1);
      }
    }
  }

  /**
   * Main result: a retry finishes a collection. From a state in which it would complete, let it stop after any number of
   * steps, its removal accepted or refused; repeated alone at any later time it completes.
   */
  lemma RetriedCollectionCompletes(cfg: Config, s: System, id: string, op: string, v: string, now: nat, retried: nat,
                                   clock: nat -> nat, accepted: bool, k: nat, later: nat -> nat)
    requires SystemInv(cfg, s) && CollectGuard(s.coord, id, op, v, now) && now <= retried
    ensures var t := Partial(cfg, s, Begin(cfg, s.coord, Collect(id, op, v, now)), clock, accepted, k);
            Collected(cfg, Complete(cfg, t, Begin(cfg, t.coord, Collect(id, op, v, retried)), later, true), id, op, v)
  {
    hide SystemInv, FlightOk, Collected, CollectGuard, Partial, Complete, Begin, ProjectOf, BoundedProjectId,
      BoundedId, Fingerprint;
    var f := Begin(cfg, s.coord, Collect(id, op, v, now));
    BeginIsOk(cfg, s, Collect(id, op, v, now));
    GuardBegins(cfg, s.coord, id, op, v, now);
    PartialKeepsInv(cfg, s, f, clock, accepted, k);
    PartialCollection(cfg, s, f, id, op, v, now, clock, accepted, k);
    var t := Partial(cfg, s, f, clock, accepted, k);
    if CollectGuard(t.coord, id, op, v, now) {
      GuardLater(t.coord, id, op, v, now, retried);
    }
    CollectionCompletesExactly(cfg, t, id, op, v, retried, later);
  }

  lemma GuardLater(s: State, id: string, op: string, v: string, now: nat, retried: nat)
    requires CollectGuard(s, id, op, v, now) && now <= retried
    ensures CollectGuard(s, id, op, v, retried)
  {
    hide BoundedProjectId, BoundedId, Fingerprint;
  }

  // ----- Deletions -----

  /** The project is deleted at `v`, and the object of `v` is gone. */
  ghost predicate Erased(cfg: Config, s: System, id: string, v: string)
  {
    var p := ProjectOf(s.coord, id);
    Names(p, v) && p.pointer.value.state == Deleted && ObjectKey(cfg, id, v) !in s.bucket
  }

  /** What a deletion needs: a live project, or the very tombstone that the operation wrote. */
  predicate DeleteGuard(cfg: Config, s: State, id: string, op: string)
  {
    var p := ProjectOf(s, id);
    && BoundedProjectId(id) && BoundedId(op) && p.pointer.Some? && PointerReadable(cfg, s, p)
    && if op in p.tombstones then
         p.tombstones[op].snapshot.workspaceId == cfg.workspaceId
           && StillThatTombstone(p.pointer.value, p.tombstones[op].snapshot)
       else p.pointer.value.state == Live && p.pointer.value.pointerVersion <= MAX_EXPECTED
  }

  lemma MarkOps(id: string, op: string, q: Pointer, now: nat)
    requires BoundedProjectId(id) && BoundedId(op)
    ensures ValidOp(TombstoneOp(MarkInput(id, op, q), now)) <==> q.pointerVersion <= MAX_EXPECTED
  {
    hide BoundedProjectId, BoundedId;
  }

  /** A pointer that names a keyed record, and a tombstone like it, name the object of their version. */
  lemma PointerMayRead(cfg: Config, s: System, id: string, q: Pointer)
    requires SystemInv(cfg, s) && ProjectOf(s.coord, id).pointer.Some? && q.workspaceId == cfg.workspaceId
    requires var current := ProjectOf(s.coord, id).pointer.value;
             current.versionId == q.versionId && current.objectKey == q.objectKey
             && current.plaintextFingerprint == q.plaintextFingerprint
    ensures MayRead(cfg, id, q)
  {
    hide SystemInv, ObjectKey, BucketInv, Fingerprint, PendingHeld;
    InvOfProject(cfg, s, id);
    InvIsBacked(s.coord.binding, ProjectOf(s.coord, id));
  }

  /** Marking a live project: the tombstone is the pointer, and is logged. */
  lemma MarkMarks(cfg: Config, s: System, id: string, op: string, now: nat)
    requires SystemInv(cfg, s) && DeleteGuard(cfg, s.coord, id, op) && op !in ProjectOf(s.coord, id).tombstones
    ensures var q := ProjectOf(s.coord, id).pointer.value;
            var t := ProjectOf(Apply(s.coord, TombstoneOp(MarkInput(id, op, q), now)), id);
            && TombstoneReply(s.coord, MarkInput(id, op, q), now).Ok?
            && DeleteGuard(cfg, Apply(s.coord, TombstoneOp(MarkInput(id, op, q), now)), id, op)
            && op in t.tombstones && Names(t, q.versionId) && t.pointer.value.state == Deleted
            && t.pointer.value.objectKey == q.objectKey && t.pointer.value.plaintextFingerprint == q.plaintextFingerprint
  {
    hide SystemInv, Apply, ProjectOf, ValidOp, BoundedProjectId, BoundedId;
    var q := ProjectOf(s.coord, id).pointer.value;
    MarkOps(id, op, q, now);
    AppliedPart(s.coord, TombstoneOp(MarkInput(id, op, q), now), id);
  }

  lemma ErasingErases(cfg: Config, s: System, id: string, v: string, captured: Pointer, clock: nat -> nat)
    requires SystemInv(cfg, s) && Names(ProjectOf(s.coord, id), v) && ProjectOf(s.coord, id).pointer.value.state == Deleted
    requires captured.workspaceId == cfg.workspaceId
    requires var current := ProjectOf(s.coord, id).pointer.value;
             current.versionId == captured.versionId && current.objectKey == captured.objectKey
             && current.plaintextFingerprint == captured.plaintextFingerprint
    ensures Erased(cfg, Complete(cfg, s, Some(Erasing(id, captured)), clock, true), id, v)
  {
    hide SystemInv, ProjectOf, ObjectKey, Complete, Fingerprint;
    PointerMayRead(cfg, s, id, captured);
    ErasingEnds(cfg, s, id, captured, clock, true);
  }

  /**
   * Main result: a deletion that runs alone, with its removal accepted, ends with the project deleted and its object gone
   * exactly when what it needs is there, or that was so before.
   */
  lemma DeletionRemovesExactly(cfg: Config, s: System, id: string, op: string, clock: nat -> nat)
    requires SystemInv(cfg, s) && ProjectOf(s.coord, id).pointer.Some?
    ensures var v := ProjectOf(s.coord, id).pointer.value.versionId;
            Erased(cfg, Complete(cfg, s, Begin(cfg, s.coord, Delete(id, op)), clock, true), id, v)
            <==> DeleteGuard(cfg, s.coord, id, op) || Erased(cfg, s, id, v)
  {
    hide SystemInv, Apply, ProjectOf, ObjectKey, BoundedProjectId, BoundedId, Complete, TombstoneReply, Tombstone,
      MayRead, FlightOk,
      SystemAfter, Erased;
    var p, f := ProjectOf(s.coord, id), Begin(cfg, s.coord, Delete(id, op));
    var current := p.pointer.value;
    if f.None? {
      NoneIsDone(cfg, s, clock, true);
    } else {
      LookingEnds(cfg, s, id, op, current, clock, true);
      if op in p.tombstones {
        if DeleteGuard(cfg, s.coord, id, op) {
          ErasingErases(cfg, s, id, current.versionId, p.tombstones[op].snapshot, clock);
        } else {
          NoneIsDone(cfg, s, clock, true);
        }
      } else if current.state == Live {
        MarkingRemoves(cfg, s, id, op, clock);
      } else {
        NoneIsDone(cfg, s, clock, true);
      }
    }
  }

  lemma MarkingRemoves(cfg: Config, s: System, id: string, op: string, clock: nat -> nat)
    requires SystemInv(cfg, s) && BoundedProjectId(id) && BoundedId(op)
             && PointerReadable(cfg, s.coord, ProjectOf(s.coord, id))
    requires LivePointer(ProjectOf(s.coord, id)) && op !in ProjectOf(s.coord, id).tombstones
    ensures var q := ProjectOf(s.coord, id).pointer.value;
            var done := Complete(cfg, s, Some(Marking(id, op, q)), clock, true);
            if DeleteGuard(cfg, s.coord, id, op) then Erased(cfg, done, id, q.versionId)
            else !Erased(cfg, done, id, q.versionId) && !Erased(cfg, s, id, q.versionId)
  {
    hide SystemInv, Apply, ProjectOf, ObjectKey, BoundedProjectId, BoundedId, Complete, Tombstone, MayRead, ValidOp,
      OnProject;
    var q := ProjectOf(s.coord, id).pointer.value;
    var f := Marking(id, op, q);
    MarkingEnds(cfg, s, id, op, q, clock, true);
    MarkOps(id, op, q, clock(2));
    if DeleteGuard(cfg, s.coord, id, op) {
      var marked := s.(coord := Apply(s.coord, TombstoneOp(MarkInput(id, op, q), clock(2))));
      MarkMarks(cfg, s, id, op, clock(2));
      MarkingKeepsInv(cfg, s, id, op, clock(2));
      ErasingErases(cfg, marked, id, q.versionId, q, clock);
    } else {
      AppliedPart(s.coord, TombstoneOp(MarkInput(id, op, q), clock(2)), id);
      InvalidMark(s.coord, MarkInput(id, op, q), clock(2));
    }
  }

  lemma InvalidMark(s: State, input: TombstoneInput, now: nat)
    ensures !ValidOp(TombstoneOp(input, now)) ==> TombstoneReply(s, input, now).Err?
  {
    hide ValidTombstoneInput, Tombstone;
  }

  lemma MarkingKeepsInv(cfg: Config, s: System, id: string, op: string, now: nat)
    requires SystemInv(cfg, s) && DeleteGuard(cfg, s.coord, id, op) && op !in ProjectOf(s.coord, id).tombstones
    ensures var q := ProjectOf(s.coord, id).pointer.value;
            SystemInv(cfg, s.(coord := Apply(s.coord, TombstoneOp(MarkInput(id, op, q), now))))
  {
    hide SystemInv, Apply, ProjectOf, BoundedProjectId, BoundedId;
    StepKeepsInv(cfg, s, Marking(id, op, ProjectOf(s.coord, id).pointer.value), now, true);
  }

  /** A flight of this deletion. */
  predicate OfDeletion(s: State, f: Flight, id: string, op: string)
  {
    var p := ProjectOf(s, id);
    || (p.pointer.Some? && f == Looking(id, op, p.pointer.value))
    || (LivePointer(p) && op !in p.tombstones && f == Marking(id, op, p.pointer.value))
    || (f.Erasing? && f.projectId == id)
  }

  /** One step of a deletion, its removal accepted or not, leaves what the deletion needs. */
  lemma DeletionStep(cfg: Config, s: System, f: Flight, id: string, op: string, v: string, now: nat, accepted: bool)
    requires SystemInv(cfg, s) && DeleteGuard(cfg, s.coord, id, op) && Names(ProjectOf(s.coord, id), v)
    requires OfDeletion(s.coord, f, id, op)
    ensures var t, g := SystemAfter(cfg, s, f, now, accepted), Onward(cfg, s, f, now, accepted);
            && DeleteGuard(cfg, t.coord, id, op) && Names(ProjectOf(t.coord, id), v)
            && (g.Some? ==> OfDeletion(t.coord, g.value, id, op))
  {
    hide SystemInv, Apply, ProjectOf, BoundedProjectId, BoundedId, TombstoneReply, MayRead;
    if f.Marking? {
      MarkMarks(cfg, s, id, op, now);
    }
  }

  lemma {:induction false} PartialDeletion(cfg: Config, s: System, f: Option<Flight>, id: string, op: string, v: string,
                                           clock: nat -> nat, accepted: bool, k: nat)
    requires SystemInv(cfg, s) && DeleteGuard(cfg, s.coord, id, op) && Names(ProjectOf(s.coord, id), v)
    requires f.Some? ==> OfDeletion(s.coord, f.value, id, op) && FlightOk(cfg, s, f.value)
    ensures var t := Partial(cfg, s, f, clock, accepted, k);
            DeleteGuard(cfg, t.coord, id, op) && Names(ProjectOf(t.coord, id), v)
    decreases k
  {
    hide SystemInv, FlightOk, OfDeletion, DeleteGuard, SystemAfter, Onward, ProjectOf;
    if k > 0 && f.Some? {
      DeletionStep(cfg, s, f.value, id, op, v, clock(k), accepted);
      StepKeepsInv(cfg, s, f.value, clock(k), accepted);
      OnwardIsOk(cfg, s, f.value, clock(k), accepted);
      PartialDeletion(cfg, SystemAfter(cfg, s, f.value, clock(k), accepted), Onward(cfg, s, f.value, clock(k), accepted),
                      id, op, v, clock, accepted, k - 1);
    }
  }

  lemma DeletionFlight(cfg: Config, s: State, id: string, op: string)
    ensures var f := Begin(cfg, s, Delete(id, op)); f.Some? ==> OfDeletion(s, f.value, id, op)
  {
    hide BoundedProjectId, BoundedId;
  }

  /**
   * Main result: a retry finishes a deletion. From a state in which it would remove the object, let it stop after any
   * number of steps, its removal accepted or refused; repeated alone it ends with the project deleted and the object gone.
   */
  lemma RetriedDeletionRemoves(cfg: Config, s: System, id: string, op: string, clock: nat -> nat, accepted: bool, k: nat,
                               later: nat -> nat)
    requires SystemInv(cfg, s) && DeleteGuard(cfg, s.coord, id, op)
    ensures var t := Partial(cfg, s, Begin(cfg, s.coord, Delete(id, op)), clock, accepted, k);
            Erased(cfg, Complete(cfg, t, Begin(cfg, t.coord, Delete(id, op)), later, true), id,
                   ProjectOf(s.coord, id).pointer.value.versionId)
  {
    hide SystemInv, FlightOk, OfDeletion, Erased, Partial, Complete, Begin, ProjectOf, BoundedProjectId, BoundedId;
    var f, v := Begin(cfg, s.coord, Delete(id, op)), ProjectOf(s.coord, id).pointer.value.versionId;
    BeginIsOk(cfg, s, Delete(id, op));
    DeletionFlight(cfg, s.coord, id, op);
    PartialKeepsInv(cfg, s, f, clock, accepted, k);
    PartialDeletion(cfg, s, f, id, op, v, clock, accepted, k);
    DeletionRemovesExactly(cfg, Partial(cfg, s, f, clock, accepted, k), id, op, later);
  }
}
