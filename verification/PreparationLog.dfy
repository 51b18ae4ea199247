/**
 * The log of preparations of a project holds 256 entries. An entry is dropped with the record it created, and only so:
 * when a full log can ever lose one, and when it is full for good.
 */
module PreparationLog {
  import opened Common
  import opened Shapes
  import opened CoordinatorState
  import opened CoordinatorSteps
  import opened CoordinatorInvariant
  import opened CoordinatorHistory

  // ----- What the log says about the records -----

  /** Every record was created by a logged preparation of its own. */
  ghost predicate CreatorsLogged(p: Project)
  {
    && (forall v | v in p.versions :: p.versions[v].operationId in p.prepares)
    && (forall v, w | v in p.versions && w in p.versions && v != w ::
          p.versions[v].operationId != p.versions[w].operationId)
  }

  ghost predicate LogHasRecord(p: Project)
  {
    p.prepares != map[] ==> p.versions != map[]
  }

  /** A record still to be activated waits for no pointer version that is ahead. */
  ghost predicate PreparedAreDue(p: Project)
  {
    && (forall v | v in p.versions && p.versions[v].status == Prepared ::
          p.versions[v].expectedPointerVersion <= PointerVersion(p))
    && (p.pointer.None? ==> forall v | v in p.versions :: p.versions[v].status == Prepared)
  }

  /** A log of collections without room for one more has a collection that can finish. */
  ghost predicate RoomOrPending(p: Project)
  {
    || |p.gcs| < CAPACITY
    || Completed(p.gcs) != {}
    || exists v :: v in p.versions && p.versions[v].status == GcPending
  }

  predicate WellFormedRecord(versionId: string, r: VersionRecord)
  {
    && Fingerprint(versionId) && BoundedId(r.id.workspaceId) && BoundedText(r.id.objectKey, 512)
    && Fingerprint(r.id.plaintextFingerprint) && 0 < r.byteSize <= MAX_VERSION_BYTES
  }

  ghost predicate WellFormed(id: string, p: Project)
  {
    && (forall v | v in p.versions :: WellFormedRecord(v, p.versions[v]))
    && (forall k | k in p.gcs :: BoundedId(k))
    && (p.versions != map[] ==> BoundedProjectId(id))
  }

  ghost predicate LogInv(id: string, p: Project)
  {
    CreatorsLogged(p) && LogHasRecord(p) && PreparedAreDue(p) && RoomOrPending(p) && WellFormed(id, p)
  }

  lemma LogPrepareKeepsLogInv(id: string, p: Project, receipt: PrepareReceipt, now: nat)
    requires LogInv(id, p) && p.versions != map[]
    ensures LogInv(id, LogPrepare(p, receipt, now))
  {
    var t := LogPrepare(p, receipt, now);
    assert RoomOrPending(p) ==> RoomOrPending(t);
  }

  function WithRecord(p: Project, v: string, r: VersionRecord, op: PrepareOperation): Project
  {
    p.(versions := p.versions[v := r], prepares := p.prepares[r.operationId := op])
  }

  lemma NewCreatorIsLogged(p: Project, v: string, r: VersionRecord, op: PrepareOperation)
    requires CreatorsLogged(p) && v !in p.versions && r.operationId !in p.prepares
    ensures CreatorsLogged(WithRecord(p, v, r, op)) && LogHasRecord(WithRecord(p, v, r, op))
  {
    var t := WithRecord(p, v, r, op);
    assert v in t.versions;
    forall w | w in p.versions ensures p.versions[w].operationId in p.prepares && t.versions[w] == p.versions[w] {}
  }

  lemma NewRecordKeepsRoom(p: Project, v: string, r: VersionRecord, op: PrepareOperation)
    requires RoomOrPending(p) && v !in p.versions
    ensures RoomOrPending(WithRecord(p, v, r, op))
  {
    if |p.gcs| >= CAPACITY && Completed(p.gcs) == {} {
      var w :| w in p.versions && p.versions[w].status == GcPending;
      assert w in WithRecord(p, v, r, op).versions && WithRecord(p, v, r, op).versions[w] == p.versions[w];
    }
  }

  lemma NewRecordIsDue(p: Project, v: string, r: VersionRecord, op: PrepareOperation)
    requires PreparedAreDue(p) && v !in p.versions
    requires r.status == Prepared ==> r.expectedPointerVersion == PointerVersion(p)
    requires p.pointer.None? ==> r.status == Prepared
    ensures PreparedAreDue(WithRecord(p, v, r, op))
  {
  }

  lemma NewRecordKeepsLogInv(id: string, p: Project, v: string, r: VersionRecord, op: PrepareOperation)
    requires LogInv(id, p) && v !in p.versions && r.operationId !in p.prepares
    requires r.status == Prepared ==> r.expectedPointerVersion == PointerVersion(p)
    requires p.pointer.None? ==> r.status == Prepared
    requires WellFormedRecord(v, r) && BoundedProjectId(id)
    ensures LogInv(id, WithRecord(p, v, r, op))
  {
    hide CreatorsLogged, LogHasRecord, PreparedAreDue, RoomOrPending, WellFormedRecord, BoundedProjectId, BoundedId;
    NewCreatorIsLogged(p, v, r, op);
    NewRecordKeepsRoom(p, v, r, op);
    NewRecordIsDue(p, v, r, op);
  }

  lemma NewIsWellFormed(input: PrepareInput, now: nat)
    requires ValidPrepareInput(input)
    ensures BoundedProjectId(input.projectId)
    ensures forall status, k :: WellFormedRecord(input.versionId, RecordFor(input, status, now, k))
  {
  }

  lemma PrepareKeepsLogInv(binding: Option<string>, p: Project, input: PrepareInput, now: nat)
    requires LogInv(input.projectId, p) && ValidPrepareInput(input)
    ensures LogInv(input.projectId, Prepare(binding, p, input, now).0)
  {
    hide LogInv, ValidPrepareInput, BoundedProjectId, WellFormedRecord;
    var t := Prepare(binding, p, input, now).0;
    if t != p {
      if input.versionId in p.versions {
        var status := if p.versions[input.versionId].status == Active || Names(p, input.versionId)
                      then Replayed else Fresh;
        LogPrepareKeepsLogInv(input.projectId, p, ReceiptFor(input, status), now);
      } else {
        NewIsWellFormed(input, now);
        var record := t.versions[input.versionId];
        NewRecordKeepsLogInv(input.projectId, p, input.versionId, record, t.prepares[input.operationId]);
      }
    }
  }

  lemma BeginGcKeepsLogInv(binding: Option<string>, p: Project, input: GcInput, now: nat)
    requires LogInv(input.projectId, p) && ValidGcInput(input.projectId, input.versionId, input.operationId)
    ensures LogInv(input.projectId, BeginGc(binding, p, input, now).0)
  {
    var t := BeginGc(binding, p, input, now).0;
    if t != p {
      assert t.versions[input.versionId].status == GcPending;
    }
  }

  lemma FinishGcKeepsLogInv(p: Project, input: GcFinishInput)
    requires LogInv(input.projectId, p) && PointerBacked(p)
    ensures LogInv(input.projectId, FinishGc(p, input).0)
  {
    var t := FinishGc(p, input).0;
    if t != p {
      assert input.operationId in Completed(t.gcs);
      if input.versionId in p.versions {
        assert p.pointer.Some?;
        assert p.pointer.value.versionId in t.versions;
      }
    }
  }

  /** At most the pointer, the tombstones and the statuses of records not pending collection differ. */
  ghost predicate Restatused(p: Project, t: Project)
  {
    && t.prepares == p.prepares && t.gcs == p.gcs && t.versions.Keys == p.versions.Keys
    && (forall v | v in p.versions :: Fixed(p, t, v))
    && (forall v | v in p.versions && p.versions[v].status == GcPending :: t.versions[v].status == GcPending)
    && (forall v | v in p.versions && t.versions[v].status == Prepared :: p.versions[v].status == Prepared)
    && PointerVersion(p) <= PointerVersion(t)
  }

  lemma RestatusedKeepsLogInv(id: string, p: Project, t: Project)
    requires LogInv(id, p) && Restatused(p, t)
    requires t.pointer.None? ==> t == p
    ensures LogInv(id, t)
  {
    assert forall v | v in p.versions :: Fixed(p, t, v);
    if RoomOrPending(p) && !(|p.gcs| < CAPACITY || Completed(p.gcs) != {}) {
      var v :| v in p.versions && p.versions[v].status == GcPending;
      assert v in t.versions && t.versions[v].status == GcPending;
    }
  }

  lemma AdvanceRestatuses(p: Project, input: CasInput, now: nat)
    requires input.versionId in p.versions && PointerBacked(p) && p.versions[input.versionId].status != GcPending
    ensures Restatused(p, Advance(p, input, now)) && Advance(p, input, now).pointer.Some?
  {
    hide Restatused, PointerBacked;
    if p.pointer.Some? {
      NamedIsNotPending(p);
    }
    var t := Advance(p, input, now);
    assert t.versions.Keys == p.versions.Keys;
    assert PointerVersion(t) == PointerVersion(p) + 1;
    forall v | v in p.versions
      ensures t.versions[v] == p.versions[v].(status := t.versions[v].status, pointerVersion := t.versions[v].pointerVersion)
      ensures p.versions[v].status == GcPending ==> t.versions[v].status == GcPending
      ensures t.versions[v].status == Prepared ==> p.versions[v].status == Prepared
    {
    }
    SameButStatuses(p, t);
  }

  lemma NamedIsNotPending(p: Project)
    requires PointerBacked(p) && p.pointer.Some?
    ensures p.pointer.value.versionId in p.versions && p.versions[p.pointer.value.versionId].status != GcPending
  {
  }

  lemma SameButStatuses(p: Project, t: Project)
    requires t.prepares == p.prepares && t.gcs == p.gcs && t.versions.Keys == p.versions.Keys
    requires PointerVersion(p) <= PointerVersion(t)
    requires forall v | v in p.versions ::
      && t.versions[v] == p.versions[v].(status := t.versions[v].status, pointerVersion := t.versions[v].pointerVersion)
      && (p.versions[v].status == GcPending ==> t.versions[v].status == GcPending)
      && (t.versions[v].status == Prepared ==> p.versions[v].status == Prepared)
    ensures Restatused(p, t)
  {
  }

  lemma OrphanRestatuses(p: Project, v: string)
    requires v in p.versions && p.versions[v].status != GcPending
    ensures Restatused(p, SetStatus(p, v, Orphan))
  {
  }

  lemma CasRestatuses(binding: Option<string>, p: Project, input: CasInput, now: nat)
    requires PointerBacked(p) && PreparedAreDue(p)
    ensures var t := Cas(binding, p, input, now).1;
            Restatused(p, t) && (t.pointer.None? ==> t == p)
  {
    hide Advance, SetStatus, Restatused;
    var t := Cas(binding, p, input, now).1;
    if t == p {
      SameIsRestatused(p);
    } else if Cas(binding, p, input, now).2.Ok? {
      AdvanceRestatuses(p, input, now);
    } else {
      OrphanRestatuses(p, input.versionId);
      OrphanedHasPointer(p, input.versionId);
    }
  }

  lemma SameIsRestatused(p: Project)
    ensures Restatused(p, p)
  {
  }

  lemma OrphanedHasPointer(p: Project, v: string)
    requires v in p.versions && PreparedAreDue(p) && PointerVersion(p) != p.versions[v].expectedPointerVersion
    ensures p.pointer.Some? && SetStatus(p, v, Orphan).pointer == p.pointer
  {
  }

  lemma CasKeepsLogInv(binding: Option<string>, p: Project, input: CasInput, now: nat)
    requires LogInv(input.projectId, p) && PointerBacked(p)
    ensures LogInv(input.projectId, Cas(binding, p, input, now).1)
  {
    hide Cas;
    CasRestatuses(binding, p, input, now);
    RestatusedKeepsLogInv(input.projectId, p, Cas(binding, p, input, now).1);
  }

  lemma BackedByInv(binding: Option<string>, p: Project)
    requires ProjectInv(binding, p)
    ensures PointerBacked(p)
  {
  }

  lemma TombstoneRestatuses(binding: Option<string>, p: Project, input: TombstoneInput, now: nat)
    requires PointerBacked(p)
    ensures var t := Tombstone(binding, p, input, now).0;
            Restatused(p, t) && (t.pointer.None? ==> t == p)
  {
  }

  lemma TombstoneKeepsLogInv(binding: Option<string>, p: Project, input: TombstoneInput, now: nat)
    requires LogInv(input.projectId, p) && PointerBacked(p)
    ensures LogInv(input.projectId, Tombstone(binding, p, input, now).0)
  {
    hide Tombstone, PointerBacked;
    TombstoneRestatuses(binding, p, input, now);
    RestatusedKeepsLogInv(input.projectId, p, Tombstone(binding, p, input, now).0);
  }

  lemma OnProjectKeepsLogInv(binding: Option<string>, p: Project, op: Op)
    requires ProjectInv(binding, p) && LogInv(Target(op), p) && ValidOp(op)
    ensures LogInv(Target(op), OnProject(binding, p, op).1)
  {
    hide ProjectInv, LogInv, Prepare, BeginGc, FinishGc, Cas, Tombstone;
    BackedByInv(binding, p);
    match op
    case BindOp(w) =>
    case PrepareOp(input, now) => PrepareKeepsLogInv(binding, p, input, now);
    case BeginGcOp(input, now) => BeginGcKeepsLogInv(binding, p, input, now);
    case FinishGcOp(input) => FinishGcKeepsLogInv(p, input);
    case CasOp(input, now) => CasKeepsLogInv(binding, p, input, now);
    case TombstoneOp(input, now) => TombstoneKeepsLogInv(binding, p, input, now);
  }

  /** Every project meets both invariants. */
  ghost predicate Logged(s: State)
  {
    Inv(s) && forall id | id in s.projects :: LogInv(id, s.projects[id])
  }

  lemma EmptyIsLogged(id: string)
    ensures LogInv(id, EMPTY_PROJECT) && Logged(EMPTY_STATE)
  {
  }

  lemma LoggedProject(s: State, id: string)
    requires Logged(s)
    ensures ProjectInv(s.binding, ProjectOf(s, id)) && LogInv(id, ProjectOf(s, id))
  {
    EmptyIsLogged(id);
    EmptyProjectInv(s.binding);
  }

  lemma ApplyKeepsLog(s: State, op: Op)
    requires Logged(s)
    ensures Logged(Apply(s, op))
  {
    hide Inv, OnProject, ProjectInv, LogInv, ValidOp;
    ApplyKeepsInv(s, op);
    if ValidOp(op) {
      LoggedProject(s, Target(op));
      OnProjectKeepsLogInv(s.binding, ProjectOf(s, Target(op)), op);
    }
  }

  /** In every reachable state each record has a logged preparation of its own, and a log that is not empty a record. */
  lemma {:induction false} RunKeepsLog(s: State, ops: seq<Op>)
    requires Logged(s)
    ensures Logged(Run(s, ops))
    decreases |ops|
  {
    hide Logged, Apply;
    if ops != [] {
      RunKeepsLog(s, ops[..|ops| - 1]);
      ApplyKeepsLog(Run(s, ops[..|ops| - 1]), ops[|ops| - 1]);
    }
  }

  // ----- A log that is full for good -----

  predicate Full(p: Project) { |p.prepares| == CAPACITY }

  /** A record that is not the named one, and can be orphaned if it is not. */
  predicate Clearable(p: Project, v: string)
    requires v in p.versions
  {
    !Names(p, v) && (p.versions[v].status == Prepared ==> p.versions[v].expectedPointerVersion <= MAX_EXPECTED)
  }

  /** There is a record that can be collected while another one is named. */
  ghost predicate Spare(p: Project)
  {
    |p.versions| >= 2 && exists v :: v in p.versions && Clearable(p, v)
  }

  /** Unless a collection drops a record, a full log stays as it is, and no record is added. */
  lemma FullLogStays(binding: Option<string>, p: Project, op: Op)
    requires Full(p) && PointerBacked(p)
    ensures var t := OnProject(binding, p, op).1;
            && t.versions.Keys <= p.versions.Keys
            && (t.prepares == p.prepares
                || exists v :: v in p.versions && p.versions[v].status == GcPending && !Names(p, v))
  {
    hide Tombstone, Cas;
    match op
    case BindOp(_) =>
    case PrepareOp(input, now) =>
    case BeginGcOp(input, now) =>
    case FinishGcOp(input) =>
    case CasOp(input, now) => CasKeepsRecords(binding, p, input, now);
    case TombstoneOp(input, now) => TombstoneRestatuses(binding, p, input, now);
  }

  lemma CasKeepsRecords(binding: Option<string>, p: Project, input: CasInput, now: nat)
    requires PointerBacked(p)
    ensures var t := Cas(binding, p, input, now).1;
            t.versions.Keys == p.versions.Keys && t.prepares == p.prepares
  {
  }

  lemma SmallerSet<T>(a: set<T>, b: set<T>)
    requires a <= b
    ensures |a| <= |b|
    ensures |a| == |b| ==> a == b
  {
    assert b == a + (b - a);
  }

  lemma TwoRecords(p: Project, v: string, w: string)
    requires v in p.versions && w in p.versions && v != w
    ensures |p.versions| >= 2
  {
    SmallerSet({v, w}, p.versions.Keys);
  }

  /** A record pending collection is spare, since the named record is another one. */
  lemma PendingIsSpare(p: Project, v: string)
    requires PointerBacked(p) && PreparedAreDue(p) && v in p.versions && p.versions[v].status == GcPending
    ensures Spare(p) && !Names(p, v)
  {
    assert Clearable(p, v);
    TwoRecords(p, v, p.pointer.value.versionId);
  }

  lemma UnpointedIsSpare(p: Project)
    requires PreparedAreDue(p) && p.pointer.None? && |p.versions| >= 2
    ensures Spare(p)
  {
    assert p.versions.Keys != {};
    var v :| v in p.versions;
    assert Clearable(p, v);
  }

  /** Without a spare record, all but the named one wait for a pointer version that no compare-and-swap can expect. */
  lemma NothingSpare(p: Project)
    requires !Spare(p) && |p.versions| >= 2 && PreparedAreDue(p)
    ensures p.pointer.Some?
    ensures forall v | v in p.versions && !Names(p, v) ::
              p.versions[v].status == Prepared && p.versions[v].expectedPointerVersion > MAX_EXPECTED
  {
    if p.pointer.None? {
      UnpointedIsSpare(p);
    }
    forall v | v in p.versions && !Names(p, v)
      ensures p.versions[v].status == Prepared && p.versions[v].expectedPointerVersion > MAX_EXPECTED
    {
      assert !Clearable(p, v);
    }
  }

  lemma NothingSpareCas(binding: Option<string>, p: Project, input: CasInput, now: nat)
    requires PointerBacked(p) && PreparedAreDue(p) && ValidCasInput(input)
    requires !Spare(p) && |p.versions| >= 2
    ensures Cas(binding, p, input, now).1 == p
  {
    hide Advance;
    NothingSpare(p);
    if input.versionId in p.versions && Names(p, input.versionId) {
      assert SetStatus(p, input.versionId, p.versions[input.versionId].status) == p;
    }
  }

  lemma NothingSpareTombstone(binding: Option<string>, p: Project, input: TombstoneInput, now: nat)
    requires PointerBacked(p) && PreparedAreDue(p) && !Spare(p) && |p.versions| >= 2
    ensures !Spare(Tombstone(binding, p, input, now).0)
  {
    NothingSpare(p);
    var t := Tombstone(binding, p, input, now).0;
    forall v | v in t.versions ensures !Clearable(t, v) {
    }
  }

  lemma NothingSpareStays(binding: Option<string>, p: Project, op: Op)
    requires PointerBacked(p) && PreparedAreDue(p) && Full(p) && ValidOp(op)
    requires !Spare(p) && |p.versions| >= 2
    ensures !Spare(OnProject(binding, p, op).1)
  {
    hide Cas, Tombstone, Spare;
    NothingSpare(p);
    match op
    case BindOp(_) =>
    case PrepareOp(input, now) =>
    case BeginGcOp(input, now) =>
    case FinishGcOp(input) =>
      assert FinishGc(p, input).0.versions == p.versions;
      SameRecordsSpare(p, FinishGc(p, input).0);
    case CasOp(input, now) => NothingSpareCas(binding, p, input, now);
    case TombstoneOp(input, now) => NothingSpareTombstone(binding, p, input, now);
  }

  lemma SameRecordsSpare(p: Project, t: Project)
    requires t.versions == p.versions && t.pointer == p.pointer && !Spare(p)
    ensures !Spare(t)
  {
    forall v | v in t.versions && |t.versions| >= 2 ensures !Clearable(t, v) {
      assert !Clearable(p, v);
    }
  }

  /** The end of the log: full, and no record to spare. Every transaction keeps it and the log. */
  lemma DeadStays(binding: Option<string>, p: Project, op: Op)
    requires ProjectInv(binding, p) && LogInv(Target(op), p) && ValidOp(op)
    requires Full(p) && !Spare(p)
    ensures var t := OnProject(binding, p, op).1;
            t.prepares == p.prepares && !Spare(t)
  {
    hide OnProject, ValidOp, ProjectInv, WellFormed, RoomOrPending, CreatorsLogged, Clearable;
    BackedByInv(binding, p);
    FullLogStays(binding, p, op);
    var t := OnProject(binding, p, op).1;
    if v :| v in p.versions && p.versions[v].status == GcPending && !Names(p, v) {
      PendingIsSpare(p, v);
    }
    if |p.versions| >= 2 {
      NothingSpareStays(binding, p, op);
    } else {
      SmallerSet(t.versions.Keys, p.versions.Keys);
    }
  }

  lemma {:induction false} DeadForGood(s: State, ops: seq<Op>, id: string)
    requires Logged(s) && Full(ProjectOf(s, id)) && !Spare(ProjectOf(s, id))
    ensures ProjectOf(Run(s, ops), id).prepares == ProjectOf(s, id).prepares && !Spare(ProjectOf(Run(s, ops), id))
    decreases |ops|
  {
    hide Logged, Apply, Spare, ProjectOf;
    if ops != [] {
      var u, op := Run(s, ops[..|ops| - 1]), ops[|ops| - 1];
      DeadForGood(s, ops[..|ops| - 1], id);
      RunKeepsLog(s, ops[..|ops| - 1]);
      ApplyKeepsDead(u, op, id);
    }
  }

  lemma ApplyKeepsDead(s: State, op: Op, id: string)
    requires Logged(s) && Full(ProjectOf(s, id)) && !Spare(ProjectOf(s, id))
    ensures ProjectOf(Apply(s, op), id).prepares == ProjectOf(s, id).prepares && !Spare(ProjectOf(Apply(s, op), id))
  {
    hide Logged, OnProject, ValidOp, Spare, ProjectInv, LogInv;
    if ValidOp(op) && id == Target(op) {
      LoggedProject(s, id);
      DeadStays(s.binding, ProjectOf(s, id), op);
    }
  }

  lemma FullLogRefuses(binding: Option<string>, p: Project, input: PrepareInput, now: nat)
    requires Full(p) && input.operationId !in p.prepares
    ensures Prepare(binding, p, input, now).1.Err?
  {
  }

  /**
   * Main result: a full log of a project without a record to spare is full for good. Whatever runs afterwards, its
   * entries stay and every preparation with a new operation id is refused.
   */
  lemma FullLogIsForGood(s: State, ops: seq<Op>, input: PrepareInput, now: nat)
    requires Logged(s) && Full(ProjectOf(s, input.projectId)) && !Spare(ProjectOf(s, input.projectId))
    requires input.operationId !in ProjectOf(s, input.projectId).prepares
    ensures var u := Run(s, ops); var p := ProjectOf(u, input.projectId);
            && p.prepares == ProjectOf(s, input.projectId).prepares
            && Prepare(u.binding, p, input, now).1.Err?
  {
    hide Logged, Run, Prepare, ProjectOf, Spare;
    DeadForGood(s, ops, input.projectId);
    FullLogRefuses(Run(s, ops).binding, ProjectOf(Run(s, ops), input.projectId), input, now);
  }

  // ----- A log that a run makes room in -----

  /** Some run drops an entry of the full log of `id`. */
  ghost predicate Frees(s: State, id: string)
  {
    exists ops :: |ProjectOf(Run(s, ops), id).prepares| < CAPACITY
  }

  lemma {:induction false} RunFirst(s: State, op: Op, ops: seq<Op>)
    ensures Run(s, [op] + ops) == Run(Apply(s, op), ops)
    decreases |ops|
  {
    var all := [op] + ops;
    if ops == [] {
      assert all[..0] == [] && all[0] == op;
      assert Run(s, []) == s;
    } else {
      RunFirst(s, op, ops[..|ops| - 1]);
      assert all[..|all| - 1] == [op] + ops[..|ops| - 1];
      assert all[|all| - 1] == ops[|ops| - 1];
    }
  }

  lemma FreesLater(s: State, op: Op, id: string)
    requires Frees(Apply(s, op), id)
    ensures Frees(s, id)
  {
    var ops :| |ProjectOf(Run(Apply(s, op), ops), id).prepares| < CAPACITY;
    RunFirst(s, op, ops);
    assert |ProjectOf(Run(s, [op] + ops), id).prepares| < CAPACITY;
  }

  lemma FreesNow(s: State, id: string)
    requires |ProjectOf(s, id).prepares| < CAPACITY
    ensures Frees(s, id)
  {
    assert Run(s, []) == s;
  }

  /** A valid transaction on `id`: what becomes of the project. */
  lemma Applied(s: State, op: Op, id: string)
    requires Logged(s) && ValidOp(op) && Target(op) == id
    ensures Logged(Apply(s, op))
    ensures ProjectOf(Apply(s, op), id) == OnProject(s.binding, ProjectOf(s, id), op).1
    ensures ProjectInv(s.binding, ProjectOf(s, id)) && LogInv(id, ProjectOf(s, id))
    ensures ProjectInv(Apply(s, op).binding, ProjectOf(Apply(s, op), id)) && LogInv(id, ProjectOf(Apply(s, op), id))
  {
    hide Logged, OnProject, ValidOp, Target, ProjectInv, LogInv;
    ApplyKeepsLog(s, op);
    LoggedProject(s, id);
    LoggedProject(Apply(s, op), id);
  }

  /** A version pending collection is collected by finishing the operation that tracks it. */
  lemma PendingFrees(s: State, id: string, v: string)
    requires Logged(s) && |ProjectOf(s, id).prepares| <= CAPACITY
    requires v in ProjectOf(s, id).versions && ProjectOf(s, id).versions[v].status == GcPending
    ensures Frees(s, id)
  {
    hide Logged, Apply, Frees;
    LoggedProject(s, id);
    var p := ProjectOf(s, id);
    var k := TrackingOperation(p, v);
    var input := GcFinishInput(id, v, k, true);
    FinishIsValid(id, p, v, k);
    FinishDrops(p, input);
    Applied(s, FinishGcOp(input), id);
    FreesNow(Apply(s, FinishGcOp(input)), id);
    FreesLater(s, FinishGcOp(input), id);
  }

  ghost function TrackingOperation(p: Project, v: string): (k: string)
    requires PendingTracked(p) && v in p.versions && p.versions[v].status == GcPending
    ensures k in p.gcs && Tracks(p.gcs[k], v, p.versions[v])
  {
    assert Tracked(p, v);
    var k :| k in p.gcs && Tracks(p.gcs[k], v, p.versions[v]);
    k
  }

  lemma FinishIsValid(id: string, p: Project, v: string, k: string)
    requires WellFormed(id, p) && v in p.versions && k in p.gcs
    ensures ValidOp(FinishGcOp(GcFinishInput(id, v, k, true)))
  {
  }

  lemma FinishDrops(p: Project, input: GcFinishInput)
    requires PointerBacked(p) && CreatorsLogged(p) && input.deleted
    requires input.versionId in p.versions && p.versions[input.versionId].status == GcPending
    requires input.operationId in p.gcs && p.gcs[input.operationId].receipt.versionId == input.versionId
    ensures |FinishGc(p, input).0.prepares| == |p.prepares| - 1
  {
    var op := p.versions[input.versionId].operationId;
    assert (p.prepares - {op}).Keys == p.prepares.Keys - {op};
  }

  /** An unnamed orphan is collected, or a version pending collection is. */
  lemma OrphanFrees(s: State, id: string, v: string)
    requires Logged(s) && |ProjectOf(s, id).prepares| <= CAPACITY
    requires v in ProjectOf(s, id).versions && ProjectOf(s, id).versions[v].status == Orphan && !Names(ProjectOf(s, id), v)
    ensures Frees(s, id)
  {
    hide Logged, Apply, Frees;
    LoggedProject(s, id);
    var p := ProjectOf(s, id);
    if |p.gcs| >= CAPACITY && Completed(p.gcs) == {} {
      var w :| w in p.versions && p.versions[w].status == GcPending;
      PendingFrees(s, id, w);
    } else {
      var k := FreshId(p.gcs.Keys);
      var input := GcInput(id, v, k, p.versions[v].createdAt);
      var op := BeginGcOp(input, 0);
      BeginMarks(s.binding, id, p, input);
      Applied(s, op, id);
      PendingFrees(Apply(s, op), id, v);
      FreesLater(s, op, id);
    }
  }

  lemma BeginMarks(binding: Option<string>, id: string, p: Project, input: GcInput)
    requires ProjectInv(binding, p) && LogInv(id, p) && input.projectId == id && BoundedId(input.operationId)
    requires input.operationId !in p.gcs && input.versionId in p.versions
    requires p.versions[input.versionId].status == Orphan && !Names(p, input.versionId)
    requires p.versions[input.versionId].createdAt <= input.retentionBefore
    requires |p.gcs| < CAPACITY || Completed(p.gcs) != {}
    ensures ValidOp(BeginGcOp(input, 0))
    ensures var t := BeginGc(binding, p, input, 0).0;
            t.prepares == p.prepares && input.versionId in t.versions && t.versions[input.versionId].status == GcPending
  {
    BeginGcExactly(binding, p, input, 0);
  }

  /** The decimals below 257 are more ids than a log holds. */
  lemma FreshIdExists(used: set<string>, n: nat)
    requires |used| <= n
    ensures exists i :: 0 <= i <= n && Decimal(i) !in used
    decreases n
  {
    if Decimal(n) in used {
      if n > 0 {
        FreshIdExists(used - {Decimal(n)}, n - 1);
        var i :| 0 <= i <= n - 1 && Decimal(i) !in used - {Decimal(n)};
        if Decimal(i) == Decimal(n) {
          DecimalInjective(i, n);
        }
        assert Decimal(i) !in used;
      } else {
        assert false;
      }
    }
  }

  lemma DecimalIsId(n: nat)
    requires n <= CAPACITY
    ensures BoundedId(Decimal(n))
  {
    DecimalHasDigits(n);
    assert n < 10 ==> |Decimal(n)| == 1;
    assert 10 <= n < 100 ==> |Decimal(n)| == |Decimal(n / 10)| + 1;
    assert 100 <= n ==> |Decimal(n)| == |Decimal(n / 10)| + 1 && |Decimal(n / 10)| == |Decimal(n / 100)| + 1;
  }

  ghost function FreshId(used: set<string>): (k: string)
    requires |used| <= CAPACITY
    ensures k !in used && BoundedId(k)
  {
    FreshIdExists(used, CAPACITY);
    var i :| 0 <= i <= CAPACITY && Decimal(i) !in used;
    DecimalIsId(i);
    Decimal(i)
  }

  function CasFor(id: string, p: Project, v: string): CasInput
    requires v in p.versions
  {
    CasInput(id, p.versions[v].expectedPointerVersion, v, p.versions[v].id)
  }

  lemma CasIsValid(id: string, p: Project, v: string)
    requires WellFormed(id, p) && v in p.versions && p.versions[v].expectedPointerVersion <= MAX_EXPECTED
    ensures ValidOp(CasOp(CasFor(id, p, v), 0))
  {
  }

  /** A stale compare-and-swap to an unnamed version orphans it. */
  lemma StaleOrphans(binding: Option<string>, id: string, p: Project, v: string)
    requires v in p.versions && !Names(p, v) && p.versions[v].status == Prepared && p.versions[v].byteSize > 0
    requires p.versions[v].expectedPointerVersion != PointerVersion(p)
    ensures Cas(binding, p, CasFor(id, p, v), 0).1 == SetStatus(p, v, Orphan)
  {
  }

  lemma CurrentActivates(binding: Option<string>, id: string, p: Project, v: string)
    requires ProjectInv(binding, p) && v in p.versions && p.versions[v].status == Prepared && p.versions[v].byteSize > 0
    requires p.versions[v].expectedPointerVersion == PointerVersion(p)
    ensures Cas(binding, p, CasFor(id, p, v), 0).1 == Advance(p, CasFor(id, p, v), 0)
  {
    EligibleIsUnnamed(p, v);
  }

  lemma AdvanceOrphans(id: string, p: Project, v: string)
    requires PointerBacked(p) && v in p.versions && !Names(p, v)
    ensures var t := Advance(p, CasFor(id, p, v), 0);
            && t.prepares == p.prepares && t.pointer.Some? && t.pointer.value.versionId == v
            && PointerVersion(t) == PointerVersion(p) + 1
            && (forall w | w in p.versions && w != v && !Names(p, w) :: w in t.versions && t.versions[w] == p.versions[w])
            && (p.pointer.Some? ==>
                  var w := p.pointer.value.versionId;
                  w in t.versions && w != v && t.versions[w].status == Orphan && !Names(t, w))
  {
  }

  /** A prepared version is orphaned when stale; activating it otherwise orphans the version named so far. */
  lemma PreparedFrees(s: State, id: string, v: string)
    requires Logged(s) && |ProjectOf(s, id).prepares| <= CAPACITY && ProjectOf(s, id).pointer.Some?
    requires v in ProjectOf(s, id).versions && Clearable(ProjectOf(s, id), v)
    requires ProjectOf(s, id).versions[v].status == Prepared
    ensures Frees(s, id)
  {
    hide Logged, Apply, Frees, Cas, Advance;
    LoggedProject(s, id);
    var p := ProjectOf(s, id);
    var op := CasOp(CasFor(id, p, v), 0);
    CasIsValid(id, p, v);
    Applied(s, op, id);
    if p.versions[v].expectedPointerVersion != PointerVersion(p) {
      StaleOrphans(s.binding, id, p, v);
      OrphanFrees(Apply(s, op), id, v);
    } else {
      CurrentActivates(s.binding, id, p, v);
      AdvanceOrphans(id, p, v);
      OrphanFrees(Apply(s, op), id, p.pointer.value.versionId);
    }
    FreesLater(s, op, id);
  }

  lemma ClearableFrees(s: State, id: string, v: string)
    requires Logged(s) && |ProjectOf(s, id).prepares| <= CAPACITY && ProjectOf(s, id).pointer.Some?
    requires v in ProjectOf(s, id).versions && Clearable(ProjectOf(s, id), v)
    ensures Frees(s, id)
  {
    hide Logged, Frees, BoundedId, WellFormed;
    LoggedProject(s, id);
    match ProjectOf(s, id).versions[v].status
    case Prepared => PreparedFrees(s, id, v);
    case Orphan => OrphanFrees(s, id, v);
    case GcPending => PendingFrees(s, id, v);
    case Active => assert false;
  }

  /** Without a pointer, one of two prepared versions is activated and the other one is stale. */
  lemma UnpointedFrees(s: State, id: string, v: string, w: string)
    requires Logged(s) && |ProjectOf(s, id).prepares| <= CAPACITY && ProjectOf(s, id).pointer.None?
    requires v in ProjectOf(s, id).versions && w in ProjectOf(s, id).versions && v != w
    ensures Frees(s, id)
  {
    hide Logged, Apply, Frees, Cas, Advance;
    LoggedProject(s, id);
    var p := ProjectOf(s, id);
    var op := CasOp(CasFor(id, p, v), 0);
    CasIsValid(id, p, v);
    Applied(s, op, id);
    CurrentActivates(s.binding, id, p, v);
    AdvanceOrphans(id, p, v);
    PreparedFrees(Apply(s, op), id, w);
    FreesLater(s, op, id);
  }

  lemma SpareFrees(s: State, id: string)
    requires Logged(s) && |ProjectOf(s, id).prepares| <= CAPACITY && Spare(ProjectOf(s, id))
    ensures Frees(s, id)
  {
    hide Logged, Frees, Clearable;
    var p := ProjectOf(s, id);
    var v :| v in p.versions && Clearable(p, v);
    if p.pointer.Some? {
      ClearableFrees(s, id, v);
    } else {
      assert p.versions.Keys != {v};
      var w :| w in p.versions && w != v;
      UnpointedFrees(s, id, v, w);
    }
  }

  /**
   * Main result: a full log of a reachable project loses an entry in some run exactly when the project has a second
   * record that can be collected. Up to the last pointer version a compare-and-swap can expect, any second one can.
   */
  lemma FullLogFreesExactly(s: State, id: string)
    requires Logged(s) && Full(ProjectOf(s, id))
    ensures Frees(s, id) <==> Spare(ProjectOf(s, id))
    ensures PointerVersion(ProjectOf(s, id)) <= MAX_EXPECTED ==>
              (Spare(ProjectOf(s, id)) <==> |ProjectOf(s, id).versions| >= 2)
  {
    hide Logged, Spare, Run, ProjectOf;
    if Spare(ProjectOf(s, id)) {
      SpareFrees(s, id);
    } else {
      forall ops ensures |ProjectOf(Run(s, ops), id).prepares| == CAPACITY {
        DeadForGood(s, ops, id);
      }
    }
    LoggedProject(s, id);
    if PointerVersion(ProjectOf(s, id)) <= MAX_EXPECTED {
      SecondIsSpare(ProjectOf(s, id));
    }
  }

  lemma SecondIsSpare(p: Project)
    requires PreparedAreDue(p) && PointerVersion(p) <= MAX_EXPECTED
    ensures Spare(p) <==> |p.versions| >= 2
  {
    if |p.versions| >= 2 && !Spare(p) {
      NothingSpare(p);
      assert p.versions.Keys != {p.pointer.value.versionId};
      var v :| v in p.versions && v != p.pointer.value.versionId;
      assert false;
    }
  }

  // ----- Entries that created no record -----

  /** A logged preparation that created no record, as one for a version already recorded. */
  ghost predicate LoggedOnly(p: Project, k: string)
  {
    k in p.prepares && forall v | v in p.versions :: p.versions[v].operationId != k
  }

  lemma LoggedOnlyIsKept(binding: Option<string>, p: Project, op: Op, k: string)
    requires LoggedOnly(p, k) && PointerBacked(p)
    ensures LoggedOnly(OnProject(binding, p, op).1, k)
  {
    hide Prepare, BeginGc, FinishGc, Cas, Tombstone;
    match op
    case BindOp(w) =>
    case PrepareOp(input, now) => PrepareKeepsLogged(binding, p, input, now, k);
    case BeginGcOp(input, now) => BeginGcKeepsLogged(binding, p, input, now, k);
    case FinishGcOp(input) => FinishGcKeepsLogged(p, input, k);
    case CasOp(input, now) => CasKeepsLogged(binding, p, input, now, k);
    case TombstoneOp(input, now) => TombstoneKeepsLogged(binding, p, input, now, k);
  }

  lemma PrepareKeepsLogged(binding: Option<string>, p: Project, input: PrepareInput, now: nat, k: string)
    requires LoggedOnly(p, k)
    ensures LoggedOnly(Prepare(binding, p, input, now).0, k)
  {
  }

  lemma BeginGcKeepsLogged(binding: Option<string>, p: Project, input: GcInput, now: nat, k: string)
    requires LoggedOnly(p, k)
    ensures LoggedOnly(BeginGc(binding, p, input, now).0, k)
  {
  }

  lemma FinishGcKeepsLogged(p: Project, input: GcFinishInput, k: string)
    requires LoggedOnly(p, k)
    ensures LoggedOnly(FinishGc(p, input).0, k)
  {
  }

  lemma CasKeepsLogged(binding: Option<string>, p: Project, input: CasInput, now: nat, k: string)
    requires LoggedOnly(p, k) && PointerBacked(p)
    ensures LoggedOnly(Cas(binding, p, input, now).1, k)
  {
  }

  lemma TombstoneKeepsLogged(binding: Option<string>, p: Project, input: TombstoneInput, now: nat, k: string)
    requires LoggedOnly(p, k)
    ensures LoggedOnly(Tombstone(binding, p, input, now).0, k)
  {
  }

  /** A preparation for a recorded version logs an entry of this kind. */
  lemma ExistingIsLoggedOnly(binding: Option<string>, p: Project, input: PrepareInput, now: nat)
    requires input.versionId in p.versions && input.operationId !in p.prepares && Prepare(binding, p, input, now).1.Ok?
    requires forall v | v in p.versions :: p.versions[v].operationId != input.operationId
    ensures LoggedOnly(Prepare(binding, p, input, now).0, input.operationId)
  {
  }

  lemma {:induction false} LoggedOnlyForGood(s: State, ops: seq<Op>, id: string, k: string)
    requires Inv(s) && LoggedOnly(ProjectOf(s, id), k)
    ensures Inv(Run(s, ops)) && LoggedOnly(ProjectOf(Run(s, ops), id), k)
    decreases |ops|
  {
    hide Inv, LoggedOnly, Apply, ProjectOf;
    if ops != [] {
      var u, op := Run(s, ops[..|ops| - 1]), ops[|ops| - 1];
      LoggedOnlyForGood(s, ops[..|ops| - 1], id, k);
      ApplyKeepsInv(u, op);
      ApplyKeepsLogged(u, op, id, k);
    }
  }

  lemma ApplyKeepsLogged(s: State, op: Op, id: string, k: string)
    requires Inv(s) && LoggedOnly(ProjectOf(s, id), k)
    ensures LoggedOnly(ProjectOf(Apply(s, op), id), k)
  {
    hide OnProject, LoggedOnly, ValidOp;
    if ValidOp(op) && id == Target(op) {
      EmptyProjectInv(s.binding);
      BackedProject(s, id);
      LoggedOnlyIsKept(s.binding, ProjectOf(s, id), op, k);
    }
  }

  lemma BackedProject(s: State, id: string)
    requires Inv(s)
    ensures PointerBacked(ProjectOf(s, id))
  {
  }

  // ----- A run that fills the log for good -----

  function Repeated(input: PrepareInput, i: nat): PrepareInput
  {
    input.(operationId := Decimal(i))
  }

  /** One version is prepared and activated, and then prepared `n` times more. */
  function Filling(input: PrepareInput, now: nat, n: nat): seq<Op>
  {
    if n == 0 then
      [BindOp(input.id.workspaceId), PrepareOp(Repeated(input, 0), now),
       CasOp(CasInput(input.projectId, 0, input.versionId, input.id), now)]
    else Filling(input, now, n - 1) + [PrepareOp(Repeated(input, n), now)]
  }

  ghost predicate FromDecimals(p: Project, n: nat)
  {
    forall k | k in p.prepares :: exists i :: 0 <= i <= n && k == Decimal(i)
  }

  /** The log holds `n` entries beside the one that created the version, which is live and the only one. */
  ghost predicate Filled(s: State, input: PrepareInput, n: nat)
  {
    var p := ProjectOf(s, input.projectId);
    && s.binding == Some(input.id.workspaceId)
    && LiveAt(p, input.versionId) && p.pointer.value.workspaceId == input.id.workspaceId
    && p.versions.Keys == {input.versionId} && SameVersion(p.versions[input.versionId], input)
    && p.versions[input.versionId].operationId == Decimal(0) && p.versions[input.versionId].status == Active
    && |p.prepares| == n + 1
    && FromDecimals(p, n)
    && (forall i | 1 <= i <= n :: LoggedOnly(p, Decimal(i)))
  }

  lemma FillingStarts(input: PrepareInput, now: nat)
    requires ValidPrepareInput(input) && input.expectedPointerVersion == 0
    ensures Filled(Run(EMPTY_STATE, Filling(input, now, 0)), input, 0)
  {
    var ops := Filling(input, now, 0);
    var s1 := Apply(EMPTY_STATE, ops[0]);
    var s2 := Apply(s1, ops[1]);
    var s3 := Apply(s2, ops[2]);
    assert Run(EMPTY_STATE, ops) == s3 by {
      assert ops[..2][..1] == ops[..1] && ops[..1][..0] == [];
      assert Run(EMPTY_STATE, ops[..1]) == s1;
      assert Run(EMPTY_STATE, ops[..2]) == s2;
    }
    DecimalIsId(0);
    FirstPrepare(input, now);
    FirstCas(input, now);
    assert s1 == State(Some(input.id.workspaceId), map[]);
  }

  /** The project after the first preparation. */
  function First(input: PrepareInput, now: nat): Project
  {
    EMPTY_PROJECT.(versions := map[input.versionId := RecordFor(Repeated(input, 0), Prepared, now, 0)],
                   prepares := map[Decimal(0) := PrepareOperation(ReceiptFor(Repeated(input, 0), Fresh), now)])
  }

  lemma FirstPrepare(input: PrepareInput, now: nat)
    requires input.expectedPointerVersion == 0
    ensures Prepare(Some(input.id.workspaceId), EMPTY_PROJECT, Repeated(input, 0), now).0 == First(input, now)
  {
  }

  lemma FirstCas(input: PrepareInput, now: nat)
    requires ValidPrepareInput(input) && input.expectedPointerVersion == 0
    ensures var cas := CasInput(input.projectId, 0, input.versionId, input.id);
            && ValidCasInput(cas)
            && Cas(Some(input.id.workspaceId), First(input, now), cas, now).1 == Advance(First(input, now), cas, now)
            && Cas(Some(input.id.workspaceId), First(input, now), cas, now).0 == Some(input.id.workspaceId)
  {
  }

  lemma {:induction false} FillingFills(input: PrepareInput, now: nat, n: nat)
    requires ValidPrepareInput(input) && input.expectedPointerVersion == 0 && n < CAPACITY
    ensures Filled(Run(EMPTY_STATE, Filling(input, now, n)), input, n)
    decreases n
  {
    hide Apply, Filled, Repeated, ValidPrepareInput, Decimal;
    if n == 0 {
      FillingStarts(input, now);
    } else {
      FillingFills(input, now, n - 1);
      var ops := Filling(input, now, n);
      assert ops[..|ops| - 1] == Filling(input, now, n - 1) && ops[|ops| - 1] == PrepareOp(Repeated(input, n), now);
      FillsOneMore(Run(EMPTY_STATE, ops[..|ops| - 1]), input, now, n);
    }
  }

  /** A preparation repeated for the live version under a new operation id is logged, and creates no record. */
  lemma RepeatIsLogged(binding: Option<string>, p: Project, input: PrepareInput, now: nat)
    requires binding == Some(input.id.workspaceId) && p.pointer.Some? && p.pointer.value.workspaceId == input.id.workspaceId
    requires input.versionId in p.versions && p.versions[input.versionId].status == Active
    requires SameVersion(p.versions[input.versionId], input)
    requires |p.prepares| < CAPACITY && input.operationId !in p.prepares
    requires forall v | v in p.versions :: p.versions[v].operationId != input.operationId
    ensures var (t, r) := Prepare(binding, p, input, now);
            r.Ok? && t == LogPrepare(p, ReceiptFor(input, Replayed), now) && LoggedOnly(t, input.operationId)
  {
    hide LoggedOnly;
    ExistingIsLoggedOnly(binding, p, input, now);
  }

  lemma NewDecimal(p: Project, n: nat, op: PrepareOperation)
    requires 0 < n && FromDecimals(p, n - 1)
    ensures Decimal(n) !in p.prepares && Decimal(n) != Decimal(0)
    ensures FromDecimals(p.(prepares := p.prepares[Decimal(n) := op]), n)
  {
    if Decimal(n) in p.prepares {
      var i :| 0 <= i <= n - 1 && Decimal(n) == Decimal(i);
      DecimalInjective(n, i);
    }
    if Decimal(0) == Decimal(n) {
      DecimalInjective(0, n);
    }
    forall k | k in p.prepares && k != Decimal(n) ensures exists i :: 0 <= i <= n && k == Decimal(i) {
      var i :| 0 <= i <= n - 1 && k == Decimal(i);
    }
  }

  lemma FillsOneMore(s: State, input: PrepareInput, now: nat, n: nat)
    requires ValidPrepareInput(input) && 0 < n < CAPACITY && Filled(s, input, n - 1)
    ensures Filled(Apply(s, PrepareOp(Repeated(input, n), now)), input, n)
  {
    hide Prepare, LoggedOnly, Decimal, FromDecimals, BoundedId, BoundedProjectId, Fingerprint, BoundedText;
    var p := ProjectOf(s, input.projectId);
    var next := Repeated(input, n);
    DecimalIsId(n);
    NewDecimal(p, n, PrepareOperation(ReceiptFor(next, Replayed), now));
    RepeatIsLogged(s.binding, p, next, now);
    var t := Prepare(s.binding, p, next, now).0;
    forall i | 1 <= i < n ensures LoggedOnly(t, Decimal(i)) {
      PrepareKeepsLogged(s.binding, p, next, now, Decimal(i));
    }
    assert |t.prepares| == |p.prepares| + 1;
  }

  /**
   * Main result: from the empty workspace, preparing one version 256 times and activating it once fills the log of its
   * project for good. All entries but the first created no record; no later preparation with a new id is accepted.
   */
  lemma LogFillsForGood(input: PrepareInput, now: nat, ops: seq<Op>, next: PrepareInput, later: nat)
    requires ValidPrepareInput(input) && input.expectedPointerVersion == 0
    ensures var s := Run(EMPTY_STATE, Filling(input, now, CAPACITY - 1)); var p := ProjectOf(s, input.projectId);
            && Logged(s) && Full(p) && |p.versions| == 1 && !Spare(p)
            && (forall i | 1 <= i < CAPACITY :: LoggedOnly(p, Decimal(i)))
            && (next.projectId == input.projectId && next.operationId !in p.prepares ==>
                  Prepare(Run(s, ops).binding, ProjectOf(Run(s, ops), input.projectId), next, later).1.Err?)
  {
    hide Logged, Run, ProjectOf, Prepare, ValidPrepareInput, Filling, LoggedOnly, Decimal;
    FillingFills(input, now, CAPACITY - 1);
    EmptyIsLogged("");
    RunKeepsLog(EMPTY_STATE, Filling(input, now, CAPACITY - 1));
    var s := Run(EMPTY_STATE, Filling(input, now, CAPACITY - 1));
    assert |ProjectOf(s, input.projectId).versions.Keys| == 1;
    if next.projectId == input.projectId && next.operationId !in ProjectOf(s, input.projectId).prepares {
      FullLogIsForGood(s, ops, next, later);
    }
  }
}
