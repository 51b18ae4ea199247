/**
 * One function per coordinator transaction: the state it commits and the answer it gives.
 * A transaction that answers an error commits exactly the writes it made before; one that
 * throws commits nothing.
 */
module CoordinatorSteps {
  import opened Common
  import opened Shapes
  import opened CoordinatorState

  function PointerVersion(p: Project): nat
  {
    if p.pointer.Some? then p.pointer.value.pointerVersion else 0
  }

  /** The pointer's own copy of the identity of the version it names. */
  function PointerIdentity(q: Pointer): Identity
  {
    Identity(q.workspaceId, q.objectKey, q.plaintextFingerprint)
  }

  predicate Names(p: Project, versionId: string)
  {
    p.pointer.Some? && p.pointer.value.versionId == versionId
  }

  function SetStatus(p: Project, versionId: string, status: VersionStatus): Project
    requires versionId in p.versions
  {
    p.(versions := p.versions[versionId := p.versions[versionId].(status := status)])
  }

  // ----- Preparing a version -----

  function ReceiptFor(input: PrepareInput, status: PrepareStatus): PrepareReceipt
  {
    PrepareReceipt(input.operationId, input.inputFingerprint, input.id,
                   input.expectedPointerVersion, input.versionId, input.byteSize, status)
  }

  function RecordFor(input: PrepareInput, status: VersionStatus, now: nat, pointerVersion: nat): VersionRecord
  {
    VersionRecord(input.operationId, input.inputFingerprint, input.id, input.expectedPointerVersion,
                  input.byteSize, status, now, pointerVersion)
  }

  predicate SameRequest(receipt: PrepareReceipt, input: PrepareInput)
  {
    receipt == ReceiptFor(input, receipt.status)
  }

  predicate SameVersion(record: VersionRecord, input: PrepareInput)
  {
    && record.id == input.id
    && record.expectedPointerVersion == input.expectedPointerVersion
    && record.byteSize == input.byteSize
  }

  function Prepare(binding: Option<string>, p: Project, input: PrepareInput, now: nat)
    : (Project, Result<PrepareReceipt, Error>)
  {
    if input.operationId in p.prepares then
      var receipt := p.prepares[input.operationId].receipt;
      (p, if SameRequest(receipt, input) then Ok(receipt) else Err(OperationConflict))
    else if binding.None? then (p, Err(BindingMissing))
    else if binding.value != input.id.workspaceId then (p, Err(BindingConflict))
    else if p.pointer.Some? && p.pointer.value.workspaceId != input.id.workspaceId then (p, Err(BindingConflict))
    else if p.pointer.None? && input.expectedPointerVersion != 0 then (p, Err(PointerConflict))
    else if input.versionId in p.versions then PrepareExisting(p, input, now)
    else PrepareNew(p, input, now)
  }

  function LogPrepare(p: Project, receipt: PrepareReceipt, now: nat): Project
  {
    p.(prepares := p.prepares[receipt.operationId := PrepareOperation(receipt, now)])
  }

  function PrepareExisting(p: Project, input: PrepareInput, now: nat): (Project, Result<PrepareReceipt, Error>)
    requires input.versionId in p.versions
  {
    var existing := p.versions[input.versionId];
    if existing.status == GcPending then (p, Err(VersionGcPending))
    else if !SameVersion(existing, input) then (p, Err(VersionConflict))
    else if |p.prepares| >= CAPACITY then (p, Err(Capacity))
    else
      var status := if existing.status == Active || Names(p, input.versionId) then Replayed else Fresh;
      var receipt := ReceiptFor(input, status);
      (LogPrepare(p, receipt, now), Ok(receipt))
  }

  /** A stale new version is kept as an orphan and logged, and still answered with an error. */
  function PrepareNew(p: Project, input: PrepareInput, now: nat): (Project, Result<PrepareReceipt, Error>)
  {
    if |p.versions| >= CAPACITY || |p.prepares| >= CAPACITY then (p, Err(Capacity))
    else
      var receipt := ReceiptFor(input, Fresh);
      var stale := p.pointer.Some? && p.pointer.value.pointerVersion != input.expectedPointerVersion;
      var record := if stale then RecordFor(input, Orphan, now, p.pointer.value.pointerVersion)
                    else RecordFor(input, Prepared, now, input.expectedPointerVersion);
      var logged := LogPrepare(p.(versions := p.versions[input.versionId := record]), receipt, now);
      (logged, if stale then Err(PointerConflict) else Ok(receipt))
  }

  // ----- Two-phase garbage collection -----

  function Completed(gcs: map<string, GcOperation>): set<string>
  {
    set k | k in gcs && gcs[k].receipt.completed
  }

  /** `a` was logged before `b`, ties broken by operation id. */
  predicate Older(gcs: map<string, GcOperation>, a: string, b: string)
    requires a in gcs && b in gcs
  {
    gcs[a].createdAt < gcs[b].createdAt || (gcs[a].createdAt == gcs[b].createdAt && StringLess(a, b))
  }

  ghost predicate IsOldest(gcs: map<string, GcOperation>, k: string, among: set<string>)
    requires among <= gcs.Keys
  {
    k in among && forall j | j in among && j != k :: Older(gcs, k, j)
  }

  lemma {:induction false} OldestExists(gcs: map<string, GcOperation>, among: set<string>)
    requires among <= gcs.Keys && among != {}
    ensures exists k :: IsOldest(gcs, k, among)
  {
    var x :| x in among;
    if among == {x} {
      assert IsOldest(gcs, x, among);
    } else {
      OldestExists(gcs, among - {x});
      var k :| IsOldest(gcs, k, among - {x});
      StringLessTotal(x, k);
      if Older(gcs, k, x) {
        assert IsOldest(gcs, k, among);
      } else {
        assert Older(gcs, x, k);
        forall j | j in among && j != x ensures Older(gcs, x, j) {
          assert j in among - {x};
          if j != k && gcs[x].createdAt == gcs[k].createdAt == gcs[j].createdAt {
            StringLessTransitive(x, k, j);
          }
        }
        assert IsOldest(gcs, x, among);
      }
    }
  }

  lemma OldestUnique(gcs: map<string, GcOperation>, among: set<string>, a: string, b: string)
    requires among <= gcs.Keys && IsOldest(gcs, a, among) && IsOldest(gcs, b, among)
    ensures a == b
  {
    if a != b && gcs[a].createdAt == gcs[b].createdAt {
      StringLessTransitive(a, b, a);
      StringLessIrreflexive(a);
    }
  }

  ghost function Oldest(gcs: map<string, GcOperation>, among: set<string>): (k: string)
    requires among <= gcs.Keys && among != {}
    ensures IsOldest(gcs, k, among)
  {
    OldestExists(gcs, among);
    var k :| IsOldest(gcs, k, among);
    k
  }

  /** Drops the `needed` oldest completed operations. */
  ghost function Prune(gcs: map<string, GcOperation>, needed: nat): (r: map<string, GcOperation>)
    requires needed <= |Completed(gcs)|
    ensures |r| == |gcs| - needed
    ensures forall k | k in gcs && !gcs[k].receipt.completed :: k in r
    ensures forall k | k in r :: k in gcs && r[k] == gcs[k]
    decreases needed
  {
    if needed == 0 then gcs
    else
      var k := Oldest(gcs, Completed(gcs));
      var rest := gcs - {k};
      assert rest.Keys == gcs.Keys - {k};
      assert Completed(rest) == Completed(gcs) - {k};
      Prune(rest, needed - 1)
  }

  /** The log with room for one more operation, unless too few of a full log are completed. */
  ghost function MakeRoom(gcs: map<string, GcOperation>): (r: Option<map<string, GcOperation>>)
    ensures r.Some? ==> |r.value| < CAPACITY
    ensures r.Some? ==> forall k | k in r.value :: k in gcs && r.value[k] == gcs[k]
    ensures r.Some? ==> forall k | k in gcs && !gcs[k].receipt.completed :: k in r.value
  {
    if |gcs| < CAPACITY then Some(gcs)
    else if |Completed(gcs)| < |gcs| - (CAPACITY - 1) then None
    else Some(Prune(gcs, |gcs| - (CAPACITY - 1)))
  }

  function GcReceiptFor(input: GcInput, v: VersionRecord): GcReceipt
  {
    GcReceipt(input.operationId, input.versionId, v.id, v.byteSize, v.pointerVersion, false)
  }

  ghost function BeginGc(binding: Option<string>, p: Project, input: GcInput, now: nat)
    : (Project, Result<GcReceipt, Error>)
  {
    if input.operationId in p.gcs then
      var prior := p.gcs[input.operationId];
      (p, if prior.receipt.versionId == input.versionId && prior.retentionBefore == input.retentionBefore
          then Ok(prior.receipt) else Err(OperationConflict))
    else if binding.None? then (p, Err(BindingMissing))
    else if input.versionId !in p.versions then (p, Err(GcNotFound))
    else
      var v := p.versions[input.versionId];
      if v.id.workspaceId != binding.value then (p, Err(BindingConflict))
      else if v.status != Orphan then (p, Err(GcNotEligible))
      else if v.createdAt > input.retentionBefore then (p, Err(GcRetention))
      else if p.pointer.Some? && p.pointer.value.workspaceId != binding.value then (p, Err(BindingConflict))
      else if Names(p, input.versionId) then (p, Err(GcNotEligible))
      else if MakeRoom(p.gcs).None? then (p, Err(Capacity))
      else
        var receipt := GcReceiptFor(input, v);
        (SetStatus(p, input.versionId, GcPending)
           .(gcs := MakeRoom(p.gcs).value[input.operationId := GcOperation(input.retentionBefore, receipt, now)]),
         Ok(receipt))
  }

  function FinishGc(p: Project, input: GcFinishInput): (Project, Result<GcReceipt, Error>)
  {
    if input.operationId !in p.gcs then (p, Err(GcOperationMissing))
    else
      var op := p.gcs[input.operationId];
      if op.receipt.versionId != input.versionId then (p, Err(OperationConflict))
      else if !input.deleted then (p, Ok(op.receipt))
      else if input.versionId in p.versions
              && (p.versions[input.versionId].status != GcPending || Names(p, input.versionId)) then
        (p, Err(GcReferenceConflict))
      else
        var swept := if input.versionId in p.versions then DropVersion(p, input.versionId) else p;
        var done := op.receipt.(completed := true);
        (swept.(gcs := p.gcs[input.operationId := op.(receipt := done)]), Ok(done))
  }

  /** Removes a version record and the prepare operation that created it. */
  function DropVersion(p: Project, versionId: string): Project
    requires versionId in p.versions
  {
    p.(prepares := p.prepares - {p.versions[versionId].operationId}, versions := p.versions - {versionId})
  }

  // ----- The pointer -----

  predicate AlreadyNamed(p: Project, input: CasInput)
  {
    && p.pointer.Some?
    && p.pointer.value.state == Live
    && (p.pointer.value.pointerVersion == input.expectedPointerVersion
        || p.pointer.value.pointerVersion == input.expectedPointerVersion + 1)
    && p.pointer.value.versionId == input.versionId
    && PointerIdentity(p.pointer.value) == input.id
  }

  /** The pointer update and status changes of a successful compare-and-swap. */
  function Advance(p: Project, input: CasInput, now: nat): Project
    requires input.versionId in p.versions
    requires p.pointer.Some? ==> p.pointer.value.versionId in p.versions
  {
    var next := Pointer(input.id.workspaceId, PointerVersion(p) + 1, Live, input.versionId,
                        input.id.objectKey, input.id.plaintextFingerprint, now);
    var retired := if p.pointer.Some? && !Names(p, input.versionId)
                   then SetStatus(p, p.pointer.value.versionId, Orphan) else p;
    retired.(pointer := Some(next),
             versions := retired.versions[input.versionId :=
               p.versions[input.versionId].(status := Active, pointerVersion := next.pointerVersion)])
  }

  function Cas(binding: Option<string>, p: Project, input: CasInput, now: nat)
    : (Option<string>, Project, Result<Pointer, Error>)
  {
    if input.versionId !in p.versions then (binding, p, Err(VersionRequired))
    else
      var v := p.versions[input.versionId];
      if v.status == GcPending then (binding, p, Err(VersionGcPending))
      else if v.id != input.id || v.expectedPointerVersion != input.expectedPointerVersion || v.byteSize == 0 then
        (binding, p, Err(VersionConflict))
      else if AlreadyNamed(p, input) then (binding, p, Ok(p.pointer.value))
      else if PointerVersion(p) != input.expectedPointerVersion then
        (binding, SetStatus(p, input.versionId, Orphan), Err(PointerConflict))
      else if p.pointer.None? then
        if binding.Some? && binding.value != input.id.workspaceId then (binding, p, Err(BindingConflict))
        else
          var moved := Advance(p, input, now);
          (Some(input.id.workspaceId), moved, Ok(moved.pointer.value))
      else if binding.None? then (binding, p, Err(BindingMissing))
      else if binding.value != p.pointer.value.workspaceId || binding.value != input.id.workspaceId then
        (binding, p, Err(BindingConflict))
      else
        var current := p.pointer.value;
        if current.versionId != input.versionId && current.versionId !in p.versions then
          (binding, p, Err(VersionRecordInvalid))
        else if current.versionId != input.versionId
                && p.versions[current.versionId].id != PointerIdentity(current) then
          (binding, p, Err(VersionRecordInvalid))
        else if current.versionId != input.versionId && p.versions[current.versionId].status == GcPending then
          (binding, p, Err(VersionGcPending))
        else
          var moved := Advance(p, input, now);
          (binding, moved, Ok(moved.pointer.value))
  }

  function Tombstone(binding: Option<string>, p: Project, input: TombstoneInput, now: nat)
    : (Project, Result<Pointer, Error>)
  {
    if input.operationId in p.tombstones then
      var previous := p.tombstones[input.operationId];
      if previous.input != input
         || previous.snapshot.pointerVersion != input.expectedPointerVersion + 1
         || previous.createdAt != previous.snapshot.updatedAt then (p, Err(OperationConflict))
      else if binding.None? then (p, Err(BindingMissing))
      else if binding.value != previous.snapshot.workspaceId then (p, Err(BindingConflict))
      else (p, Ok(previous.snapshot))
    else if p.pointer.None? then (p, Err(PointerConflict))
    else if binding.None? then (p, Err(BindingMissing))
    else
      var current := p.pointer.value;
      if binding.value != current.workspaceId then (p, Err(BindingConflict))
      else if current.pointerVersion != input.expectedPointerVersion || current.state != Live then
        (p, Err(PointerConflict))
      else
        var next := current.(state := Deleted, pointerVersion := current.pointerVersion + 1, updatedAt := now);
        var retired := if current.versionId in p.versions then SetStatus(p, current.versionId, Orphan) else p;
        (retired.(pointer := Some(next),
                  tombstones := p.tombstones[input.operationId := TombstoneOperation(input, next, now)]),
         Ok(next))
  }

  // ----- Whole-coordinator steps and runs -----

  datatype Op =
    | BindOp(workspaceId: string)
    | PrepareOp(prepare: PrepareInput, now: nat)
    | BeginGcOp(gc: GcInput, now: nat)
    | FinishGcOp(finish: GcFinishInput)
    | CasOp(cas: CasInput, now: nat)
    | TombstoneOp(tombstone: TombstoneInput, now: nat)

  function Target(op: Op): string
  {
    match op
    case BindOp(_) => ""
    case PrepareOp(input, _) => input.projectId
    case BeginGcOp(input, _) => input.projectId
    case FinishGcOp(input) => input.projectId
    case CasOp(input, _) => input.projectId
    case TombstoneOp(input, _) => input.projectId
  }

  predicate ValidOp(op: Op)
  {
    match op
    case BindOp(w) => BoundedId(w)
    case PrepareOp(input, _) => ValidPrepareInput(input)
    case BeginGcOp(input, _) => ValidGcInput(input.projectId, input.versionId, input.operationId)
    case FinishGcOp(input) => ValidGcInput(input.projectId, input.versionId, input.operationId)
    case CasOp(input, _) => ValidCasInput(input)
    case TombstoneOp(input, _) => ValidTombstoneInput(input)
  }

  /** What a valid transaction makes of the binding and of its project. */
  ghost function OnProject(binding: Option<string>, p: Project, op: Op): (Option<string>, Project)
  {
    match op
    case BindOp(w) => (if binding.None? then Some(w) else binding, p)
    case PrepareOp(input, now) => (binding, Prepare(binding, p, input, now).0)
    case BeginGcOp(input, now) => (binding, BeginGc(binding, p, input, now).0)
    case FinishGcOp(input) => (binding, FinishGc(p, input).0)
    case CasOp(input, now) => var (b, t, _) := Cas(binding, p, input, now); (b, t)
    case TombstoneOp(input, now) => (binding, Tombstone(binding, p, input, now).0)
  }

  ghost function Apply(s: State, op: Op): State
  {
    if !ValidOp(op) then s
    else
      var (b, p) := OnProject(s.binding, ProjectOf(s, Target(op)), op);
      WithProject(s, Target(op), p).(binding := b)
  }

  /** The state after the transactions `ops`, in order. */
  ghost function Run(s: State, ops: seq<Op>): State
    decreases |ops|
  {
    if ops == [] then s else Apply(Run(s, ops[..|ops| - 1]), ops[|ops| - 1])
  }
}
