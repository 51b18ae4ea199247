/** When a live project's bytes are in the bucket, with any number of handlers in flight. */
module ProjectPresence {
  import opened Common
  import opened Shapes
  import opened CoordinatorState
  import opened CoordinatorSteps
  import opened CoordinatorInvariant
  import opened ProjectStore
  import opened ProjectHandlers

  // ----- Predicates -----

  /** Records name the object of their own project and version, and its size is one that can be stored. */
  ghost predicate RecordsKeyed(cfg: Config, projectId: string, p: Project)
  {
    && (p != EMPTY_PROJECT ==> BoundedProjectId(projectId))
    && forall v | v in p.versions ::
         && Fingerprint(v) && p.versions[v].id == VersionIdentity(cfg, projectId, v)
         && 0 < p.versions[v].byteSize <= CoordinatorState.MAX_VERSION_BYTES
  }

  /** Every pending collection still has its record to itself. */
  ghost predicate PendingHeld(p: Project)
  {
    && (forall k | k in p.gcs && !p.gcs[k].receipt.completed ::
          var v := p.gcs[k].receipt.versionId;
          v in p.versions && p.versions[v].status == GcPending)
    && (forall j, k | j in p.gcs && k in p.gcs && j != k
                      && !p.gcs[j].receipt.completed && !p.gcs[k].receipt.completed ::
          p.gcs[j].receipt.versionId != p.gcs[k].receipt.versionId)
  }

  /** The live pointer's object is in the bucket. */
  ghost predicate Present(cfg: Config, projectId: string, p: Project, bucket: Bucket)
  {
    LivePointer(p) ==> ObjectKey(cfg, projectId, p.pointer.value.versionId) in bucket
  }

  /** What holds whatever overlaps. */
  ghost predicate Sound(cfg: Config, s: System)
  {
    && Inv(s.coord)
    && BucketInv(cfg, s.bucket)
    && forall id :: RecordsKeyed(cfg, id, ProjectOf(s.coord, id))
  }

  ghost predicate AllPresent(cfg: Config, s: System)
  {
    forall id :: Present(cfg, id, ProjectOf(s.coord, id), s.bucket)
  }

  ghost predicate AllHeld(s: State)
  {
    forall id :: PendingHeld(ProjectOf(s, id))
  }

  // ----- What a transaction does to its project -----

  lemma PrepareEffect(binding: Option<string>, p: Project, input: PrepareInput, now: nat)
    ensures var t := Prepare(binding, p, input, now).0;
            && t.pointer == p.pointer && t.gcs == p.gcs
            && (t.versions == p.versions
                || (input.versionId !in p.versions && input.versionId in t.versions
                    && t.versions == p.versions[input.versionId := t.versions[input.versionId]]
                    && t.versions[input.versionId].id == input.id
                    && t.versions[input.versionId].byteSize == input.byteSize))
  {
  }

  lemma AdvanceEffect(p: Project, input: CasInput, now: nat)
    requires PointerBacked(p) && input.versionId in p.versions
    requires p.versions[input.versionId].status != GcPending
    ensures var t := Advance(p, input, now);
            && t.gcs == p.gcs && t.versions.Keys == p.versions.Keys
            && (forall v | v in p.versions ::
                  t.versions[v].id == p.versions[v].id && t.versions[v].byteSize == p.versions[v].byteSize)
            && (forall v | v in p.versions && p.versions[v].status == GcPending :: t.versions[v].status == GcPending)
            && LivePointer(t) && t.pointer.value.versionId == input.versionId
  {
  }

  lemma CasCases(binding: Option<string>, p: Project, input: CasInput, now: nat)
    requires PointerBacked(p)
    ensures var (_, t, r) := Cas(binding, p, input, now);
            || (t == p && (r.Ok? ==> AlreadyNamed(p, input)))
            || (input.versionId in p.versions && p.versions[input.versionId].status != GcPending
                && if r.Ok? then t == Advance(p, input, now) else t == SetStatus(p, input.versionId, Orphan))
  {
  }

  lemma AlreadyNamedIsLive(p: Project, input: CasInput)
    ensures AlreadyNamed(p, input) ==> LivePointer(p) && p.pointer.value.versionId == input.versionId
  {
  }

  lemma CasEffect(binding: Option<string>, p: Project, input: CasInput, now: nat)
    requires ProjectInv(binding, p)
    ensures var (_, t, r) := Cas(binding, p, input, now);
            && t.gcs == p.gcs && t.versions.Keys == p.versions.Keys
            && (forall v | v in p.versions ::
                  t.versions[v].id == p.versions[v].id && t.versions[v].byteSize == p.versions[v].byteSize)
            && (forall v | v in p.versions && p.versions[v].status == GcPending :: t.versions[v].status == GcPending)
            && (if r.Ok? then LivePointer(t) && t.pointer.value.versionId == input.versionId else t.pointer == p.pointer)
            && (t != p ==> p != EMPTY_PROJECT)
  {
    hide Advance, Cas, RecordsOwned, PendingTracked, TombstonesLogged;
    CasCases(binding, p, input, now);
    AlreadyNamedIsLive(p, input);
    if input.versionId in p.versions && p.versions[input.versionId].status != GcPending {
      AdvanceEffect(p, input, now);
    }
  }

  lemma BeginGcEffect(binding: Option<string>, p: Project, input: GcInput, now: nat)
    ensures var (t, r) := BeginGc(binding, p, input, now);
            || (t == p && (r.Ok? ==> input.operationId in p.gcs && p.gcs[input.operationId].receipt == r.value
                                     && r.value.versionId == input.versionId))
            || (&& input.versionId in p.versions && p.versions[input.versionId].status == Orphan
                && input.operationId !in p.gcs && input.operationId in t.gcs
                && t.pointer == p.pointer
                && t.versions == SetStatus(p, input.versionId, GcPending).versions
                && (forall k | k in t.gcs && k != input.operationId :: k in p.gcs && t.gcs[k] == p.gcs[k])
                && t.gcs[input.operationId].receipt.versionId == input.versionId
                && !t.gcs[input.operationId].receipt.completed
                && r == Ok(t.gcs[input.operationId].receipt))
  {
  }

  lemma TombstoneEffect(binding: Option<string>, p: Project, input: TombstoneInput, now: nat)
    requires PointerBacked(p)
    ensures var (t, r) := Tombstone(binding, p, input, now);
            || t == p
            || (&& LivePointer(p) && t.gcs == p.gcs && r.Ok? && input.operationId !in p.tombstones
                && p.pointer.value.pointerVersion == input.expectedPointerVersion
                && t.pointer.Some? && t.pointer.value.state == Deleted
                && t.pointer.value.versionId == p.pointer.value.versionId
                && t.versions == SetStatus(p, p.pointer.value.versionId, Orphan).versions)
  {
  }

  lemma FinishGcEffect(p: Project, input: GcFinishInput)
    ensures var t := FinishGc(p, input).0;
            && t.pointer == p.pointer && t.versions.Keys <= p.versions.Keys
            && (t != p ==> p != EMPTY_PROJECT)
            && forall v | v in t.versions :: t.versions[v] == p.versions[v]
  {
  }

  // ----- Sound states -----

  /** The transactions that handlers run: an upload prepares its own version of its own project. */
  predicate FromHandler(cfg: Config, op: Op)
  {
    op.PrepareOp? ==> op.prepare.id == VersionIdentity(cfg, op.prepare.projectId, op.prepare.versionId)
  }

  lemma TransactionKeepsKeyed(cfg: Config, binding: Option<string>, p: Project, op: Op)
    requires ProjectInv(binding, p) && RecordsKeyed(cfg, Target(op), p) && ValidOp(op) && FromHandler(cfg, op)
    ensures RecordsKeyed(cfg, Target(op), OnProject(binding, p, op).1)
  {
    hide Prepare, BeginGc, FinishGc, Cas, Tombstone, VersionIdentity, Fingerprint, BoundedProjectId;
    match op
    case BindOp(_) =>
    case PrepareOp(input, now) =>
      PrepareEffect(binding, p, input, now);
      PrepareIsBounded(input);
    case BeginGcOp(input, now) =>
      BeginGcEffect(binding, p, input, now);
    case FinishGcOp(input) =>
      FinishGcEffect(p, input);
    case CasOp(input, now) =>
      CasEffect(binding, p, input, now);
    case TombstoneOp(input, now) =>
      TombstoneEffect(binding, p, input, now);
  }

  lemma PrepareIsBounded(input: PrepareInput)
    requires ValidPrepareInput(input)
    ensures BoundedProjectId(input.projectId) && Fingerprint(input.versionId)
    ensures 0 < input.byteSize <= CoordinatorState.MAX_VERSION_BYTES
  {
  }

  lemma AppliedProject(s: State, op: Op, id: string)
    ensures ProjectOf(Apply(s, op), id)
         == if ValidOp(op) && id == Target(op) then OnProject(s.binding, ProjectOf(s, id), op).1 else ProjectOf(s, id)
  {
    hide OnProject, ValidOp;
  }

  lemma ProjectOfInv(s: State, id: string)
    requires Inv(s)
    ensures ProjectInv(s.binding, ProjectOf(s, id))
  {
    if id !in s.projects {
      EmptyProjectInv(s.binding);
    }
  }

  lemma ApplyKeepsSound(cfg: Config, s: System, op: Op)
    requires Sound(cfg, s) && FromHandler(cfg, op)
    ensures Sound(cfg, s.(coord := Apply(s.coord, op)))
  {
    hide ProjectInv, RecordsKeyed, Apply, OnProject, ValidOp, ProjectOf, BucketInv;
    ApplyKeepsInv(s.coord, op);
    forall id ensures RecordsKeyed(cfg, id, ProjectOf(Apply(s.coord, op), id)) {
      AppliedProject(s.coord, op, id);
      assert RecordsKeyed(cfg, id, ProjectOf(s.coord, id));
      if ValidOp(op) && id == Target(op) {
        ProjectOfInv(s.coord, id);
        TransactionKeepsKeyed(cfg, s.coord.binding, ProjectOf(s.coord, id), op);
      }
    }
  }

  lemma BucketAfterKeepsInv(cfg: Config, bucket: Bucket, f: Flight, accepted: bool)
    requires BucketInv(cfg, bucket) && BoundedProjectId(f.projectId)
    ensures BucketInv(cfg, BucketAfter(cfg, bucket, f, accepted))
  {
    hide ObjectKey, BoundedProjectId;
  }

  lemma StepKeepsSound(cfg: Config, s: System, f: Flight, now: nat, accepted: bool)
    requires Sound(cfg, s) && BoundedProjectId(f.projectId)
    ensures Sound(cfg, SystemAfter(cfg, s, f, now, accepted))
  {
    hide Inv, RecordsKeyed, Apply, BucketInv, BucketAfter, BoundedProjectId;
    BucketAfterKeepsInv(cfg, s.bucket, f, accepted);
    var op := Transaction(cfg, f, now);
    if op.Some? {
      ApplyKeepsSound(cfg, s, op.value);
    }
  }

  /** Whatever overlaps, the coordinator and bucket stay sound, and flights keep their projects' bounds. */
  ghost predicate WorldSound(cfg: Config, w: World)
  {
    Sound(cfg, w.sys) && forall h | h in w.flights :: BoundedProjectId(w.flights[h].projectId)
  }

  lemma OnwardSameProject(cfg: Config, s: System, f: Flight, now: nat, accepted: bool)
    ensures var g := Onward(cfg, s, f, now, accepted);
            g.Some? ==> g.value.projectId == f.projectId && (Uploads(g.value) <==> Uploads(f))
                        && StepsLeft(g.value) < StepsLeft(f)
  {
    hide Open, PrepareReply, BeginGcReply, TombstoneReply, ProjectOf, StillThatTombstone, Removal, TransportSize;
  }

  lemma NextKeepsSound(cfg: Config, w: World, e: Event)
    requires WorldSound(cfg, w)
    ensures WorldSound(cfg, Next(cfg, w, e))
  {
    hide Sound, SystemAfter, Onward, BoundedProjectId, Apply;
    match e
    case SignIn => SignInKeepsSound(cfg, w.sys);
    case Start(h, request) =>
      BeginIsBounded(cfg, w.sys.coord, request);
    case Step(h, now, accepted) =>
      if h in w.flights {
        StepKeepsSound(cfg, w.sys, w.flights[h], now, accepted);
        OnwardSameProject(cfg, w.sys, w.flights[h], now, accepted);
      }
    case Stop(h) =>
  }

  lemma SignInKeepsSound(cfg: Config, s: System)
    requires Sound(cfg, s)
    ensures Sound(cfg, s.(coord := Apply(s.coord, BindOp(cfg.workspaceId))))
  {
    hide Sound, Apply;
    ApplyKeepsSound(cfg, s, BindOp(cfg.workspaceId));
  }

  lemma BeginIsBounded(cfg: Config, s: State, r: Request)
    ensures var f := Begin(cfg, s, r);
            f.Some? ==> f.value.projectId == r.projectId && BoundedProjectId(r.projectId) && (Uploads(f.value) <==> r.Upload?)
  {
    hide BoundedProjectId;
  }

  lemma EmptyIsSound(cfg: Config)
    ensures WorldSound(cfg, EMPTY_WORLD) && AllPresent(cfg, EMPTY_SYSTEM) && AllHeld(EMPTY_STATE)
  {
  }

  lemma {:induction false} AfterIsSound(cfg: Config, events: seq<Event>)
    ensures WorldSound(cfg, After(cfg, events))
    decreases |events|
  {
    hide WorldSound, Next;
    if events == [] {
      EmptyIsSound(cfg);
    } else {
      AfterIsSound(cfg, events[..|events| - 1]);
      NextKeepsSound(cfg, After(cfg, events[..|events| - 1]), events[|events| - 1]);
    }
  }

  // ----- Presence, exactly -----

  /** Whether the step activates a version whose object is not in the bucket. */
  ghost predicate ActivatesMissing(cfg: Config, s: System, f: Flight, now: nat)
  {
    && f.Activating?
    && CasReply(s.coord, UploadCas(cfg, f.projectId, f.bundle, f.expected), now).Ok?
    && ObjectKey(cfg, f.projectId, cfg.contentHash(f.bundle)) !in s.bucket
  }

  /** Whether the step removes the object of the project's live version. */
  ghost predicate RemovesLive(cfg: Config, s: System, f: Flight, accepted: bool)
  {
    var p := ProjectOf(s.coord, f.projectId);
    LivePointer(p) && Removal(cfg, f, accepted) == Some(ObjectKey(cfg, f.projectId, p.pointer.value.versionId))
  }

  ghost predicate Harmless(cfg: Config, w: World, e: Event)
  {
    e.Step? && e.h in w.flights ==>
      && !ActivatesMissing(cfg, w.sys, w.flights[e.h], e.now)
      && !RemovesLive(cfg, w.sys, w.flights[e.h], e.accepted)
  }

  /** A transaction other than an activation makes no pointer live. */
  lemma TransactionPointer(binding: Option<string>, p: Project, op: Op)
    requires ProjectInv(binding, p)
    ensures var t := OnProject(binding, p, op).1;
            LivePointer(t) ==> t.pointer == p.pointer || (op.CasOp? && Cas(binding, p, op.cas, op.now).2.Ok?
                                                          && t.pointer.value.versionId == op.cas.versionId)
  {
    hide Prepare, BeginGc, FinishGc, Cas, Tombstone, ProjectInv;
    match op
    case BindOp(_) =>
    case PrepareOp(input, now) => PrepareEffect(binding, p, input, now);
    case BeginGcOp(input, now) => BeginGcEffect(binding, p, input, now);
    case FinishGcOp(input) => FinishGcEffect(p, input);
    case CasOp(input, now) => CasEffect(binding, p, input, now);
    case TombstoneOp(input, now) =>
      InvIsBacked(binding, p);
      TombstoneEffect(binding, p, input, now);
  }

  lemma InvIsBacked(binding: Option<string>, p: Project)
    requires ProjectInv(binding, p)
    ensures PointerBacked(p) && ActiveIsNamed(p)
  {
  }

  lemma TransactionKeepsPresent(cfg: Config, s: System, op: Op)
    requires Inv(s.coord) && AllPresent(cfg, s)
    requires op.CasOp? && CasReply(s.coord, op.cas, op.now).Ok? ==> ObjectKey(cfg, op.cas.projectId, op.cas.versionId) in s.bucket
    ensures AllPresent(cfg, s.(coord := Apply(s.coord, op)))
  {
    hide Inv, OnProject, ValidOp, ProjectOf, Apply, Cas, ObjectKey, ProjectInv;
    forall id ensures Present(cfg, id, ProjectOf(Apply(s.coord, op), id), s.bucket) {
      AppliedProject(s.coord, op, id);
      assert Present(cfg, id, ProjectOf(s.coord, id), s.bucket);
      if ValidOp(op) && id == Target(op) {
        ProjectOfInv(s.coord, id);
        TransactionPointer(s.coord.binding, ProjectOf(s.coord, id), op);
        if op.CasOp? {
          ValidCas(op);
        }
      }
    }
  }

  lemma ValidCas(op: Op)
    requires op.CasOp?
    ensures ValidOp(op) <==> ValidCasInput(op.cas)
  {
  }

  /** Only handlers of its own project remove a project's objects. */
  lemma RemovalIsOwn(cfg: Config, f: Flight, accepted: bool, id: string, v: string)
    requires BoundedProjectId(f.projectId) && BoundedProjectId(id)
    requires Removal(cfg, f, accepted) == Some(ObjectKey(cfg, id, v))
    ensures id == f.projectId
  {
    hide ObjectKey, BoundedProjectId;
    var w := if f.Removing? then f.receipt.versionId else f.captured.versionId;
    assert Removal(cfg, f, accepted) == Some(ObjectKey(cfg, f.projectId, w));
    ObjectKeyInjective(cfg, id, v, f.projectId, w);
  }

  lemma BucketStepKeepsPresent(cfg: Config, s: System, f: Flight, accepted: bool)
    requires Sound(cfg, s) && BoundedProjectId(f.projectId) && AllPresent(cfg, s) && !RemovesLive(cfg, s, f, accepted)
    ensures AllPresent(cfg, s.(bucket := BucketAfter(cfg, s.bucket, f, accepted)))
  {
    hide Inv, BucketInv, ObjectKey, ProjectOf, Removal, BoundedProjectId, Fingerprint;
    var after := BucketAfter(cfg, s.bucket, f, accepted);
    forall id ensures Present(cfg, id, ProjectOf(s.coord, id), after) {
      var p := ProjectOf(s.coord, id);
      assert RecordsKeyed(cfg, id, p) && Present(cfg, id, p, s.bucket);
      if LivePointer(p) {
        var key := ObjectKey(cfg, id, p.pointer.value.versionId);
        if Removal(cfg, f, accepted) == Some(key) {
          RemovalIsOwn(cfg, f, accepted, id, p.pointer.value.versionId);
        }
      }
    }
  }

  lemma HarmlessKeepsPresent(cfg: Config, w: World, e: Event)
    requires WorldSound(cfg, w) && AllPresent(cfg, w.sys) && Harmless(cfg, w, e)
    ensures AllPresent(cfg, Next(cfg, w, e).sys)
  {
    hide Inv, BucketInv, RecordsKeyed, AllPresent, Apply, BucketAfter, Onward, Begin, RemovesLive, BoundedProjectId;
    if e.SignIn? {
      TransactionKeepsPresent(cfg, w.sys, BindOp(cfg.workspaceId));
    } else if e.Step? && e.h in w.flights {
      var f := w.flights[e.h];
      BucketStepKeepsPresent(cfg, w.sys, f, e.accepted);
      TransactionFindsBucket(cfg, w.sys, f, e.now, e.accepted);
    }
  }

  lemma TransactionFindsBucket(cfg: Config, s: System, f: Flight, now: nat, accepted: bool)
    requires Sound(cfg, s) && AllPresent(cfg, s.(bucket := BucketAfter(cfg, s.bucket, f, accepted)))
    requires !ActivatesMissing(cfg, s, f, now)
    ensures AllPresent(cfg, SystemAfter(cfg, s, f, now, accepted))
  {
    hide Inv, BucketInv, RecordsKeyed, AllPresent, Apply, CasReply, TransportSize, ObjectKey;
    var op := Transaction(cfg, f, now);
    if op.Some? {
      TransactionKeepsPresent(cfg, s.(bucket := BucketAfter(cfg, s.bucket, f, accepted)), op.value);
    }
  }

  lemma HarmfulLosesPresence(cfg: Config, w: World, e: Event)
    requires WorldSound(cfg, w) && !Harmless(cfg, w, e)
    ensures !AllPresent(cfg, Next(cfg, w, e).sys)
  {
    hide Inv, BucketInv, RecordsKeyed, Apply, Onward, ProjectOf, ObjectKey, OnProject, Cas;
    var f, s := w.flights[e.h], w.sys;
    var t := Next(cfg, w, e).sys;
    if ActivatesMissing(cfg, s, f, e.now) {
      var input := UploadCas(cfg, f.projectId, f.bundle, f.expected);
      AppliedProject(s.coord, CasOp(input, e.now), f.projectId);
      ProjectOfInv(s.coord, f.projectId);
      ValidCas(CasOp(input, e.now));
      ActivatedProject(s.coord.binding, ProjectOf(s.coord, f.projectId), input, e.now);
    }
    assert !Present(cfg, f.projectId, ProjectOf(t.coord, f.projectId), t.bucket);
  }

  lemma ActivatedProject(binding: Option<string>, p: Project, input: CasInput, now: nat)
    requires ProjectInv(binding, p) && Cas(binding, p, input, now).2.Ok?
    ensures var t := OnProject(binding, p, CasOp(input, now)).1;
            LivePointer(t) && t.pointer.value.versionId == input.versionId
  {
    hide Cas, ProjectInv;
    CasEffect(binding, p, input, now);
  }

  /** Whether every live project's object is there after the first `k` events. */
  ghost predicate PresentAt(cfg: Config, events: seq<Event>, k: nat)
    requires k <= |events|
  {
    AllPresent(cfg, After(cfg, events[..k]).sys)
  }

  ghost predicate HarmlessAt(cfg: Config, events: seq<Event>, k: nat)
    requires k < |events|
  {
    Harmless(cfg, After(cfg, events[..k]), events[k])
  }

  /**
   * Main result: presence, exactly. However handlers are interleaved and stopped, every live project's object is in
   * the bucket throughout a run exactly when no step of it activates a version whose object is gone, and none
   * removes the object of a live version.
   */
  lemma PresenceExactly(cfg: Config, events: seq<Event>)
    ensures (forall k | 0 <= k <= |events| :: PresentAt(cfg, events, k))
       <==> (forall k | 0 <= k < |events| :: HarmlessAt(cfg, events, k))
  {
    hide PresentAt, HarmlessAt;
    if forall k | 0 <= k < |events| :: HarmlessAt(cfg, events, k) {
      PresenceSoFar(cfg, events, |events|);
    }
    if forall k | 0 <= k <= |events| :: PresentAt(cfg, events, k) {
      forall k | 0 <= k < |events| ensures HarmlessAt(cfg, events, k) {
        PresenceStep(cfg, events, k);
        assert PresentAt(cfg, events, k + 1);
      }
    }
  }

  lemma PresenceStep(cfg: Config, events: seq<Event>, k: nat)
    requires k < |events|
    ensures After(cfg, events[..k + 1]) == Next(cfg, After(cfg, events[..k]), events[k])
    ensures PresentAt(cfg, events, k) && HarmlessAt(cfg, events, k) ==> PresentAt(cfg, events, k + 1)
    ensures !HarmlessAt(cfg, events, k) ==> !PresentAt(cfg, events, k + 1)
  {
    hide AllPresent, Harmless, Next, WorldSound;
    assert events[..k + 1][..k] == events[..k];
    var w := After(cfg, events[..k]);
    AfterIsSound(cfg, events[..k]);
    if !Harmless(cfg, w, events[k]) {
      HarmfulLosesPresence(cfg, w, events[k]);
    } else if AllPresent(cfg, w.sys) {
      HarmlessKeepsPresent(cfg, w, events[k]);
    }
  }

  lemma {:induction false} PresenceSoFar(cfg: Config, events: seq<Event>, k: nat)
    requires k <= |events| && forall j | 0 <= j < |events| :: HarmlessAt(cfg, events, j)
    ensures forall j | 0 <= j <= k :: PresentAt(cfg, events, j)
  {
    hide PresentAt, HarmlessAt;
    if k == 0 {
      PresentAtFirst(cfg, events);
    } else {
      PresenceSoFar(cfg, events, k - 1);
      PresenceStep(cfg, events, k - 1);
    }
  }

  lemma PresentAtFirst(cfg: Config, events: seq<Event>)
    ensures PresentAt(cfg, events, 0)
  {
    EmptyIsSound(cfg);
  }

  // ----- A rule that keeps presence -----

  /** What a flight relies on: its object is stored, its collection is pending, or its pointer is as it was. */
  ghost predicate FlightOk(cfg: Config, s: System, f: Flight)
  {
    var p := ProjectOf(s.coord, f.projectId);
    && BoundedProjectId(f.projectId)
    && match f
       case Putting(_, _, _, _, _) => true
       case Comparing(id, _, bundle, _, _) => ObjectKey(cfg, id, cfg.contentHash(bundle)) in s.bucket
       case Preparing(id, _, bundle, _) => ObjectKey(cfg, id, cfg.contentHash(bundle)) in s.bucket
       case Activating(id, bundle, _) => ObjectKey(cfg, id, cfg.contentHash(bundle)) in s.bucket
       case Beginning(_, _, _, _) => true
       case Removing(_, op, receipt) => PendingFor(p, op, receipt.versionId)
       case Finishing(_, op, v) => PendingFor(p, op, v)
       case Looking(_, _, current) => p.pointer == Some(current)
       case Marking(_, op, current) => p.pointer == Some(current) && op !in p.tombstones
       case Erasing(_, captured) => p.pointer.Some? && p.pointer.value.state == Deleted
  }

  ghost predicate PendingFor(p: Project, op: string, v: string)
  {
    op in p.gcs && !p.gcs[op].receipt.completed && p.gcs[op].receipt.versionId == v
  }

  /** Presence with what collections need to keep it. */
  ghost predicate SystemInv(cfg: Config, s: System)
  {
    Sound(cfg, s) && AllPresent(cfg, s) && AllHeld(s.coord)
  }

  lemma TransactionKeepsHeld(binding: Option<string>, p: Project, op: Op)
    requires ProjectInv(binding, p) && PendingHeld(p)
    requires op.FinishGcOp? && op.finish.deleted ==> PendingFor(p, op.finish.operationId, op.finish.versionId)
    ensures PendingHeld(OnProject(binding, p, op).1)
  {
    hide Prepare, BeginGc, FinishGc, Cas, Tombstone, ProjectInv;
    match op
    case BindOp(_) =>
    case PrepareOp(input, now) => PrepareEffect(binding, p, input, now);
    case BeginGcOp(input, now) => BeginGcEffect(binding, p, input, now);
    case FinishGcOp(input) => FinishKeepsHeld(p, input);
    case CasOp(input, now) => CasEffect(binding, p, input, now);
    case TombstoneOp(input, now) =>
      InvIsBacked(binding, p);
      TombstoneKeepsHeld(binding, p, input, now);
  }

  lemma FinishKeepsHeld(p: Project, input: GcFinishInput)
    requires PendingHeld(p) && (input.deleted ==> PendingFor(p, input.operationId, input.versionId))
    ensures PendingHeld(FinishGc(p, input).0)
  {
  }

  lemma TombstoneKeepsHeld(binding: Option<string>, p: Project, input: TombstoneInput, now: nat)
    requires PointerBacked(p) && PendingHeld(p)
    ensures PendingHeld(Tombstone(binding, p, input, now).0)
  {
    hide Tombstone;
    TombstoneEffect(binding, p, input, now);
  }

  lemma ApplyKeepsHeld(s: State, op: Op)
    requires Inv(s) && AllHeld(s)
    requires op.FinishGcOp? && op.finish.deleted ==>
               PendingFor(ProjectOf(s, op.finish.projectId), op.finish.operationId, op.finish.versionId)
    ensures AllHeld(Apply(s, op))
  {
    hide Inv, ProjectInv, PendingHeld, OnProject, ValidOp, ProjectOf, Apply, PendingFor;
    forall id ensures PendingHeld(ProjectOf(Apply(s, op), id)) {
      AppliedProject(s, op, id);
      assert PendingHeld(ProjectOf(s, id));
      ProjectOfInv(s, id);
      if ValidOp(op) && id == Target(op) {
        TransactionKeepsHeld(s.binding, ProjectOf(s, id), op);
      }
    }
  }

  /** A flight whose reliance holds takes no harmful step. */
  lemma FlightIsHarmless(cfg: Config, s: System, f: Flight, now: nat, accepted: bool)
    requires SystemInv(cfg, s) && FlightOk(cfg, s, f)
    ensures !ActivatesMissing(cfg, s, f, now) && !RemovesLive(cfg, s, f, accepted)
  {
    hide Inv, BucketInv, RecordsKeyed, CasReply, AllPresent, BoundedProjectId, MayRead;
    if f.Removing? {
      var p := ProjectOf(s.coord, f.projectId);
      assert PendingHeld(p);
      ProjectOfInv(s.coord, f.projectId);
      if RemovesLive(cfg, s, f, accepted) {
        ObjectKeyInjective(cfg, f.projectId, f.receipt.versionId, f.projectId, p.pointer.value.versionId);
        LiveIsActive(s.coord.binding, p);
      }
    }
  }

  lemma LiveIsActive(binding: Option<string>, p: Project)
    requires ProjectInv(binding, p) && LivePointer(p)
    ensures p.pointer.value.versionId in p.versions && p.versions[p.pointer.value.versionId].status == Active
  {
  }

  lemma StepKeepsInv(cfg: Config, s: System, f: Flight, now: nat, accepted: bool)
    requires SystemInv(cfg, s) && FlightOk(cfg, s, f)
    ensures SystemInv(cfg, SystemAfter(cfg, s, f, now, accepted))
  {
    hide Sound, AllPresent, AllHeld, ActivatesMissing, RemovesLive, Apply, BucketAfter, BoundedProjectId, ProjectOf;
    FlightIsHarmless(cfg, s, f, now, accepted);
    StepKeepsSound(cfg, s, f, now, accepted);
    BucketStepKeepsPresent(cfg, s, f, accepted);
    TransactionFindsBucket(cfg, s, f, now, accepted);
    SoundIsInv(cfg, s);
    StepKeepsHeld(cfg, s, f, now, accepted);
  }

  lemma StepKeepsHeld(cfg: Config, s: System, f: Flight, now: nat, accepted: bool)
    requires Inv(s.coord) && AllHeld(s.coord) && FlightOk(cfg, s, f)
    ensures AllHeld(SystemAfter(cfg, s, f, now, accepted).coord)
  {
    hide Inv, AllHeld, Apply, BucketAfter, ProjectOf, PendingFor, BoundedProjectId;
    var op := Transaction(cfg, f, now);
    if op.Some? {
      ApplyKeepsHeld(s.coord, op.value);
    }
  }

  /** The project of a flight after a step. */
  lemma SteppedProject(cfg: Config, s: System, f: Flight, now: nat, accepted: bool, id: string)
    ensures var op := Transaction(cfg, f, now);
            ProjectOf(SystemAfter(cfg, s, f, now, accepted).coord, id)
            == if op.Some? && ValidOp(op.value) && id == f.projectId
               then OnProject(s.coord.binding, ProjectOf(s.coord, id), op.value).1 else ProjectOf(s.coord, id)
  {
    hide Apply, OnProject, ProjectOf, ValidOp;
    var op := Transaction(cfg, f, now);
    if op.Some? {
      AppliedProject(s.coord, op.value, id);
    }
  }

  /** What a step leaves of a handler again relies on what holds. */
  lemma OnwardIsOk(cfg: Config, s: System, f: Flight, now: nat, accepted: bool)
    requires SystemInv(cfg, s) && FlightOk(cfg, s, f)
    ensures var g := Onward(cfg, s, f, now, accepted);
            g.Some? ==> FlightOk(cfg, SystemAfter(cfg, s, f, now, accepted), g.value)
  {
    hide Sound, AllPresent, AllHeld, ActivatesMissing, RemovesLive, OnProject, ValidOp, Open, PrepareReply, BeginGcReply,
      TombstoneReply, Apply, ObjectKey, BoundedProjectId, ProjectOf, MayCollect, MayRead, StillThatTombstone, SystemAfter;
    OnwardSameProject(cfg, s, f, now, accepted);
    SteppedProject(cfg, s, f, now, accepted, f.projectId);
    SteppedBucket(cfg, s, f, now, accepted);
    match f
    case Beginning(id, op, v, retention) =>
      BegunIsPending(s.coord, GcInput(id, v, op, retention), now);
    case Marking(id, op, current) =>
      MarkedIsDeleted(cfg, s, f, now);
    case Looking(id, op, current) =>
      LookedIsDeleted(cfg, s, f, now, accepted);
    case _ =>
  }

  lemma SteppedBucket(cfg: Config, s: System, f: Flight, now: nat, accepted: bool)
    ensures SystemAfter(cfg, s, f, now, accepted).bucket == BucketAfter(cfg, s.bucket, f, accepted)
  {
  }

  lemma BegunIsPending(s: State, input: GcInput, now: nat)
    ensures var r := BeginGcReply(s, input, now);
            r.Ok? && !r.value.completed ==>
              && ValidOp(BeginGcOp(input, now)) && r.value.versionId == input.versionId
              && PendingFor(OnProject(s.binding, ProjectOf(s, input.projectId), BeginGcOp(input, now)).1,
                            input.operationId, input.versionId)
  {
    hide BeginGc;
    BeginGcEffect(s.binding, ProjectOf(s, input.projectId), input, now);
  }

  lemma LookedIsDeleted(cfg: Config, s: System, f: Flight, now: nat, accepted: bool)
    requires f.Looking? && FlightOk(cfg, s, f)
    ensures var g := Onward(cfg, s, f, now, accepted);
            g.Some? && g.value.Erasing? ==> f.current.state == Deleted
  {
  }

  lemma MarkedIsDeleted(cfg: Config, s: System, f: Flight, now: nat)
    requires f.Marking? && SystemInv(cfg, s) && FlightOk(cfg, s, f)
    ensures var input := MarkInput(f.projectId, f.operationId, f.current);
            var t := OnProject(s.coord.binding, ProjectOf(s.coord, f.projectId), TombstoneOp(input, now)).1;
            TombstoneReply(s.coord, input, now).Ok? ==>
              ValidOp(TombstoneOp(input, now)) && t.pointer.Some? && t.pointer.value.state == Deleted
  {
    hide Tombstone, ValidTombstoneInput, AllPresent, AllHeld, Inv, BucketInv, RecordsKeyed, ProjectInv;
    var p := ProjectOf(s.coord, f.projectId);
    var input := MarkInput(f.projectId, f.operationId, f.current);
    if TombstoneReply(s.coord, input, now).Ok? {
      FreshTombstone(s.coord.binding, p, input, now);
    }
  }

  lemma FreshTombstone(binding: Option<string>, p: Project, input: TombstoneInput, now: nat)
    requires input.operationId !in p.tombstones && Tombstone(binding, p, input, now).1.Ok?
    ensures var t := Tombstone(binding, p, input, now).0; t.pointer.Some? && t.pointer.value.state == Deleted
  {
  }

  /** A step of one handler disturbs no handler of another project, and uploads do not disturb each other. */
  lemma OtherStaysOk(cfg: Config, s: System, f: Flight, now: nat, accepted: bool, other: Flight)
    requires FlightOk(cfg, s, f) && FlightOk(cfg, s, other)
    requires f.projectId != other.projectId || (Uploads(f) && Uploads(other))
    ensures FlightOk(cfg, SystemAfter(cfg, s, f, now, accepted), other)
  {
    hide OnProject, ValidOp, Apply, ObjectKey, BoundedProjectId, ProjectOf, SystemAfter, Removal, PendingFor;
    SteppedProject(cfg, s, f, now, accepted, other.projectId);
    SteppedBucket(cfg, s, f, now, accepted);
    if Uploads(other) {
      var v := cfg.contentHash(other.bundle);
      if Removal(cfg, f, accepted) == Some(ObjectKey(cfg, other.projectId, v)) {
        RemovalIsOwn(cfg, f, accepted, other.projectId, v);
        UploadsRemoveNothing(cfg, f, accepted);
      }
    }
  }

  lemma UploadsRemoveNothing(cfg: Config, f: Flight, accepted: bool)
    ensures Uploads(f) ==> Removal(cfg, f, accepted).None?
  {
  }

  /**
   * The rule, as a lock on each project would enforce it: a collection or deletion is in flight alone among the
   * handlers of its project. Uploads of a project may overlap, and handlers of different projects always may.
   */
  ghost predicate StartsByRule(w: World, e: Event)
  {
    e.Start? ==> forall h | h in w.flights && w.flights[h].projectId == e.request.projectId ::
                   Uploads(w.flights[h]) && e.request.Upload?
  }

  ghost predicate ByRule(cfg: Config, events: seq<Event>)
  {
    forall k | 0 <= k < |events| :: StartsByRule(After(cfg, events[..k]), events[k])
  }

  /** No handler starts while another of its project is in flight. */
  ghost predicate OneAtATime(cfg: Config, events: seq<Event>)
  {
    forall k | 0 <= k < |events| && events[k].Start? ::
      var w := After(cfg, events[..k]);
      forall h | h in w.flights :: w.flights[h].projectId != events[k].request.projectId
  }

  lemma OneAtATimeIsByRule(cfg: Config, events: seq<Event>)
    requires OneAtATime(cfg, events)
    ensures ByRule(cfg, events)
  {
    hide After;
  }

  ghost predicate WorldInv(cfg: Config, w: World)
  {
    && SystemInv(cfg, w.sys)
    && (forall h | h in w.flights :: FlightOk(cfg, w.sys, w.flights[h]))
    && (forall g, h | g in w.flights && h in w.flights && g != h && w.flights[g].projectId == w.flights[h].projectId ::
          Uploads(w.flights[g]) && Uploads(w.flights[h]))
  }

  lemma BeginIsOk(cfg: Config, s: System, r: Request)
    ensures var f := Begin(cfg, s.coord, r);
            f.Some? ==> FlightOk(cfg, s, f.value) && f.value.projectId == r.projectId && (Uploads(f.value) <==> r.Upload?)
  {
    hide BoundedProjectId, ProjectOf;
  }

  lemma SignInKeepsInv(cfg: Config, w: World)
    requires WorldInv(cfg, w)
    ensures WorldInv(cfg, Next(cfg, w, SignIn))
  {
    hide Sound, AllPresent, AllHeld, Apply, ProjectOf, ObjectKey, PendingFor, Fingerprint;
    var op := BindOp(cfg.workspaceId);
    ApplyKeepsSound(cfg, w.sys, op);
    SoundIsInv(cfg, w.sys);
    TransactionKeepsPresent(cfg, w.sys, op);
    ApplyKeepsHeld(w.sys.coord, op);
    forall id ensures ProjectOf(Apply(w.sys.coord, op), id) == ProjectOf(w.sys.coord, id) {
      AppliedProject(w.sys.coord, op, id);
    }
  }

  lemma SoundIsInv(cfg: Config, s: System)
    requires Sound(cfg, s)
    ensures Inv(s.coord) && BucketInv(cfg, s.bucket)
  {
  }

  lemma NextKeepsInv(cfg: Config, w: World, e: Event)
    requires WorldInv(cfg, w) && StartsByRule(w, e)
    ensures WorldInv(cfg, Next(cfg, w, e))
  {
    hide SystemInv, FlightOk, SystemAfter, Onward, Begin, Uploads, Apply;
    match e
    case SignIn => SignInKeepsInv(cfg, w);
    case Start(h, request) =>
      BeginIsOk(cfg, w.sys, request);
    case Step(h, now, accepted) =>
      if h in w.flights {
        var f := w.flights[h];
        StepKeepsInv(cfg, w.sys, f, now, accepted);
        OnwardIsOk(cfg, w.sys, f, now, accepted);
        OnwardSameProject(cfg, w.sys, f, now, accepted);
        forall g | g in w.flights && g != h ensures FlightOk(cfg, SystemAfter(cfg, w.sys, f, now, accepted), w.flights[g]) {
          OtherStaysOk(cfg, w.sys, f, now, accepted, w.flights[g]);
        }
      }
    case Stop(h) =>
  }

  lemma EmptyKeepsInv(cfg: Config)
    ensures WorldInv(cfg, EMPTY_WORLD)
  {
    EmptyIsSound(cfg);
  }

  lemma {:induction false} RuleKeepsInv(cfg: Config, events: seq<Event>)
    requires ByRule(cfg, events)
    ensures WorldInv(cfg, After(cfg, events))
    decreases |events|
  {
    hide WorldInv, Next, StartsByRule;
    if events == [] {
      EmptyKeepsInv(cfg);
    } else {
      var front, last := events[..|events| - 1], |events| - 1;
      RulePrefix(cfg, events);
      RuleKeepsInv(cfg, front);
      assert StartsByRule(After(cfg, events[..last]), events[last]);
      NextKeepsInv(cfg, After(cfg, front), events[last]);
    }
  }

  lemma RulePrefix(cfg: Config, events: seq<Event>)
    requires ByRule(cfg, events) && events != []
    ensures ByRule(cfg, events[..|events| - 1])
  {
    hide StartsByRule, After;
    var front := events[..|events| - 1];
    forall k | 0 <= k < |front| ensures StartsByRule(After(cfg, front[..k]), front[k]) {
      assert front[..k] == events[..k];
      assert StartsByRule(After(cfg, events[..k]), events[k]);
    }
  }

  /**
   * Main result: in every run that keeps the rule, whatever else overlaps and wherever handlers stop, a live project's
   * object is in the bucket, and a read under any keys returns bytes of the pointer's version exactly when those
   * keys include the one the object was sealed with.
   */
  lemma LiveProjectReads(cfg: Config, events: seq<Event>, projectId: string, keys: Keys)
    requires ByRule(cfg, events) && LivePointer(ProjectOf(After(cfg, events).sys.coord, projectId))
    ensures var s := After(cfg, events).sys;
            var q := ProjectOf(s.coord, projectId).pointer.value;
            var key := ObjectKey(cfg, projectId, q.versionId);
            var r := ReadProject(cfg, keys, s, projectId);
            && key in s.bucket
            && (r.Ok? <==> s.bucket[key].keyVersion in Ring(keys))
            && (r.Ok? ==> cfg.contentHash(r.value) == q.versionId)
  {
    hide ByRule, After, Inv, FlightOk;
    RuleKeepsInv(cfg, events);
    var s := After(cfg, events).sys;
    var p := ProjectOf(s.coord, projectId);
    assert RecordsKeyed(cfg, projectId, p) && Present(cfg, projectId, p, s.bucket);
    ProjectOfInv(s.coord, projectId);
    OpenExactly(cfg, keys, s.bucket, projectId, p.pointer.value.versionId);
  }

  // ----- A handler on its own -----

  lemma {:induction false} CompleteKeepsInv(cfg: Config, s: System, f: Option<Flight>, clock: nat -> nat, accepted: bool)
    requires SystemInv(cfg, s) && (f.Some? ==> FlightOk(cfg, s, f.value))
    ensures SystemInv(cfg, Complete(cfg, s, f, clock, accepted))
    decreases if f.Some? then StepsLeft(f.value) else 0
  {
    hide SystemInv, FlightOk, SystemAfter, Onward;
    if f.Some? {
      var now := clock(StepsLeft(f.value));
      StepKeepsInv(cfg, s, f.value, now, accepted);
      OnwardIsOk(cfg, s, f.value, now, accepted);
      OnwardSameProject(cfg, s, f.value, now, accepted);
      CompleteKeepsInv(cfg, SystemAfter(cfg, s, f.value, now, accepted), Onward(cfg, s, f.value, now, accepted), clock, accepted);
    }
  }
}
