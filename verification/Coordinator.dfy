/**
 * The coordinator object. Each method is one storage transaction: it reads the project, works
 * on a private copy, and commits that copy at the points where the transaction returns.
 */
module Coordinator {
  import opened Common
  import opened Shapes
  import opened CoordinatorState
  import opened CoordinatorSteps
  import opened CoordinatorInvariant

  /** Finds the oldest completed collection by one pass over the log. */
  method FindOldest(gcs: map<string, GcOperation>) returns (oldest: string)
    requires Completed(gcs) != {}
    ensures oldest == Oldest(gcs, Completed(gcs))
  {
    var all := set k | k in gcs && gcs[k].receipt.completed;
    assert all == Completed(gcs);
    var todo := all;
    oldest :| oldest in todo;
    todo := todo - {oldest};
    while todo != {}
      invariant todo <= all && oldest in all - todo
      invariant IsOldest(gcs, oldest, all - todo)
      decreases |todo|
    {
      var k :| k in todo;
      ghost var before := oldest;
      assert all - (todo - {k}) == (all - todo) + {k};
      if gcs[k].createdAt < gcs[oldest].createdAt
         || (gcs[k].createdAt == gcs[oldest].createdAt && StringLess(k, oldest)) {
        oldest := k;
      }
      todo := todo - {k};
      NewOldest(gcs, all - todo, k, before, oldest);
    }
    assert all - todo == all;
    OldestUnique(gcs, all, oldest, Oldest(gcs, all));
  }

  lemma NewOldest(gcs: map<string, GcOperation>, among: set<string>, k: string, before: string, after: string)
    requires among <= gcs.Keys && k in among && IsOldest(gcs, before, among - {k})
    requires after == if Older(gcs, k, before) then k else before
    ensures IsOldest(gcs, after, among)
  {
    StringLessTotal(k, before);
    forall j | j in among && j != after ensures Older(gcs, after, j) {
      assert j == k || j in among - {k};
      if after == k && j != before && gcs[k].createdAt == gcs[before].createdAt == gcs[j].createdAt {
        StringLessTransitive(k, before, j);
      }
    }
  }

  lemma PruneOne(gcs: map<string, GcOperation>, needed: nat)
    requires 0 < needed <= |Completed(gcs)|
    ensures var rest := gcs - {Oldest(gcs, Completed(gcs))};
            needed - 1 <= |Completed(rest)| && Prune(gcs, needed) == Prune(rest, needed - 1)
  {
    var k := Oldest(gcs, Completed(gcs));
    assert Completed(gcs - {k}) == Completed(gcs) - {k};
  }

  method PruneOldest(gcs: map<string, GcOperation>, needed: nat) returns (kept: map<string, GcOperation>)
    requires needed <= |Completed(gcs)|
    ensures kept == Prune(gcs, needed)
  {
    kept := gcs;
    var left: nat := needed;
    while left > 0
      invariant left <= |Completed(kept)|
      invariant Prune(kept, left) == Prune(gcs, needed)
    {
      PruneOne(kept, left);
      var k := FindOldest(kept);
      kept := kept - {k};
      left := left - 1;
    }
  }

  /** Drops the oldest completed collections of a full log, one after another. */
  method PruneForNext(gcs: map<string, GcOperation>) returns (room: Option<map<string, GcOperation>>)
    ensures room == MakeRoom(gcs)
  {
    if |gcs| < CAPACITY { return Some(gcs); }
    var prunable := set k | k in gcs && gcs[k].receipt.completed;
    assert prunable == Completed(gcs);
    if |prunable| < |gcs| - (CAPACITY - 1) { return None; }
    var kept := PruneOldest(gcs, |gcs| - (CAPACITY - 1));
    room := Some(kept);
  }

  class WorkspaceCoordinator {
    var binding: Option<string>
    var projects: map<string, Project>

    constructor ()
      ensures State() == EMPTY_STATE && Valid()
    {
      binding := None;
      projects := map[];
    }

    ghost function State(): State
      reads this
    {
      CoordinatorState.State(binding, projects)
    }

    ghost predicate Valid()
      reads this
    {
      Inv(State())
    }

    method Load(projectId: string) returns (p: Project)
      ensures p == ProjectOf(State(), projectId)
    {
      p := if projectId in projects then projects[projectId] else EMPTY_PROJECT;
    }

    method Commit(projectId: string, p: Project)
      modifies this`projects
      ensures State() == WithProject(old(State()), projectId, p)
    {
      var current := Load(projectId);
      if p != current {
        projects := projects[projectId := p];
      }
    }

    method EnsureWorkspaceBinding(workspaceId: string) returns (r: Result<string, Error>)
      modifies this
      ensures State() == Apply(old(State()), BindOp(workspaceId))
      ensures r.Ok? <==> BoundedId(workspaceId) && binding == Some(workspaceId)
      ensures old(Valid()) ==> Valid()
    {
      ApplyWhenValid(BindOp(workspaceId));
      if !BoundedId(workspaceId) { return Err(InvalidInput); }
      if binding.Some? {
        return if binding.value == workspaceId then Ok(workspaceId) else Err(BindingConflict);
      }
      binding := Some(workspaceId);
      r := Ok(workspaceId);
    }

    lemma ApplyWhenValid(op: Op)
      ensures Valid() ==> Inv(Apply(State(), op))
    {
      if Valid() {
        ApplyKeepsInv(State(), op);
      }
    }

    method PrepareProjectVersion(input: PrepareInput, now: nat) returns (r: Result<PrepareReceipt, Error>)
      modifies this
      ensures State() == Apply(old(State()), PrepareOp(input, now))
      ensures r == if ValidPrepareInput(input)
                   then Prepare(old(binding), ProjectOf(old(State()), input.projectId), input, now).1
                   else Err(InvalidInput)
      ensures old(Valid()) ==> Valid()
    {
      ApplyWhenValid(PrepareOp(input, now));
      if !ValidPrepareInput(input) { return Err(InvalidInput); }
      var p := Load(input.projectId);
      if input.operationId in p.prepares {
        var prior := p.prepares[input.operationId].receipt;
        return if SameRequest(prior, input) then Ok(prior) else Err(OperationConflict);
      }
      if binding.None? { return Err(BindingMissing); }
      if binding.value != input.id.workspaceId { return Err(BindingConflict); }
      if p.pointer.Some? {
        if p.pointer.value.workspaceId != input.id.workspaceId { return Err(BindingConflict); }
      } else if input.expectedPointerVersion != 0 {
        return Err(PointerConflict);
      }
      if input.versionId in p.versions {
        var existing := p.versions[input.versionId];
        if existing.status == GcPending { return Err(VersionGcPending); }
        if !SameVersion(existing, input) { return Err(VersionConflict); }
        if |p.prepares| >= CAPACITY { return Err(Capacity); }
        var replay := existing.status == Active || Names(p, input.versionId);
        var receipt := ReceiptFor(input, if replay then Replayed else Fresh);
        p := p.(prepares := p.prepares[input.operationId := PrepareOperation(receipt, now)]);
        Commit(input.projectId, p);
        return Ok(receipt);
      }
      if |p.versions| >= CAPACITY || |p.prepares| >= CAPACITY { return Err(Capacity); }
      var receipt := ReceiptFor(input, Fresh);
      var operation := PrepareOperation(receipt, now);
      if p.pointer.Some? && p.pointer.value.pointerVersion != input.expectedPointerVersion {
        var orphan := RecordFor(input, Orphan, now, p.pointer.value.pointerVersion);
        p := p.(versions := p.versions[input.versionId := orphan]);
        p := p.(prepares := p.prepares[input.operationId := operation]);
        Commit(input.projectId, p);
        return Err(PointerConflict);
      }
      var record := RecordFor(input, Prepared, now, input.expectedPointerVersion);
      p := p.(versions := p.versions[input.versionId := record]);
      p := p.(prepares := p.prepares[input.operationId := operation]);
      Commit(input.projectId, p);
      r := Ok(receipt);
    }

    method BeginProjectVersionGc(input: GcInput, now: nat) returns (r: Result<GcReceipt, Error>)
      modifies this
      ensures State() == Apply(old(State()), BeginGcOp(input, now))
      ensures r == if ValidGcInput(input.projectId, input.versionId, input.operationId)
                   then BeginGc(old(binding), ProjectOf(old(State()), input.projectId), input, now).1
                   else Err(InvalidInput)
      ensures old(Valid()) ==> Valid()
    {
      ApplyWhenValid(BeginGcOp(input, now));
      if !ValidGcInput(input.projectId, input.versionId, input.operationId) { return Err(InvalidInput); }
      var p := Load(input.projectId);
      if input.operationId in p.gcs {
        var prior := p.gcs[input.operationId];
        if prior.receipt.versionId != input.versionId || prior.retentionBefore != input.retentionBefore {
          return Err(OperationConflict);
        }
        return Ok(prior.receipt);
      }
      if binding.None? { return Err(BindingMissing); }
      if input.versionId !in p.versions { return Err(GcNotFound); }
      var version := p.versions[input.versionId];
      if version.id.workspaceId != binding.value { return Err(BindingConflict); }
      if version.status != Orphan { return Err(GcNotEligible); }
      if version.createdAt > input.retentionBefore { return Err(GcRetention); }
      if p.pointer.Some? {
        if p.pointer.value.workspaceId != binding.value { return Err(BindingConflict); }
        if p.pointer.value.versionId == input.versionId { return Err(GcNotEligible); }
      }
      var room := PruneForNext(p.gcs);
      if room.None? { return Err(Capacity); }
      var receipt := GcReceiptFor(input, version);
      p := p.(versions := p.versions[input.versionId := version.(status := GcPending)]);
      p := p.(gcs := room.value[input.operationId := GcOperation(input.retentionBefore, receipt, now)]);
      Commit(input.projectId, p);
      r := Ok(receipt);
    }

    method FinishProjectVersionGc(input: GcFinishInput) returns (r: Result<GcReceipt, Error>)
      modifies this
      ensures State() == Apply(old(State()), FinishGcOp(input))
      ensures r == if ValidGcInput(input.projectId, input.versionId, input.operationId)
                   then FinishGc(ProjectOf(old(State()), input.projectId), input).1
                   else Err(InvalidInput)
      ensures old(Valid()) ==> Valid()
    {
      ApplyWhenValid(FinishGcOp(input));
      if !ValidGcInput(input.projectId, input.versionId, input.operationId) { return Err(InvalidInput); }
      var p := Load(input.projectId);
      if input.operationId !in p.gcs { return Err(GcOperationMissing); }
      var operation := p.gcs[input.operationId];
      if operation.receipt.versionId != input.versionId { return Err(OperationConflict); }
      if !input.deleted { return Ok(operation.receipt); }
      if input.versionId in p.versions {
        var version := p.versions[input.versionId];
        if version.status != GcPending { return Err(GcReferenceConflict); }
        if p.pointer.Some? && p.pointer.value.versionId == input.versionId { return Err(GcReferenceConflict); }
        p := p.(prepares := p.prepares - {version.operationId});
        p := p.(versions := p.versions - {input.versionId});
      }
      var completed := operation.receipt.(completed := true);
      p := p.(gcs := p.gcs[input.operationId := operation.(receipt := completed)]);
      Commit(input.projectId, p);
      r := Ok(completed);
    }

    method CasProjectPointer(input: CasInput, now: nat) returns (r: Result<Pointer, Error>)
      modifies this
      ensures State() == Apply(old(State()), CasOp(input, now))
      ensures r == if ValidCasInput(input)
                   then Cas(old(binding), ProjectOf(old(State()), input.projectId), input, now).2
                   else Err(InvalidInput)
      ensures old(Valid()) ==> Valid()
    {
      hide ValidCasInput, Inv;
      ApplyWhenValid(CasOp(input, now));
      if !ValidCasInput(input) { return Err(InvalidInput); }
      var p := Load(input.projectId);
      if input.versionId !in p.versions { return Err(VersionRequired); }
      var version := p.versions[input.versionId];
      if version.status == GcPending { return Err(VersionGcPending); }
      if version.id != input.id || version.expectedPointerVersion != input.expectedPointerVersion
         || version.byteSize == 0 { return Err(VersionConflict); }
      if AlreadyNamed(p, input) { return Ok(p.pointer.value); }
      var currentVersion := PointerVersion(p);
      if currentVersion != input.expectedPointerVersion {
        p := p.(versions := p.versions[input.versionId := version.(status := Orphan)]);
        Commit(input.projectId, p);
        return Err(PointerConflict);
      }
      if p.pointer.None? {
        if binding.Some? && binding.value != input.id.workspaceId { return Err(BindingConflict); }
      } else {
        if binding.None? { return Err(BindingMissing); }
        if binding.value != p.pointer.value.workspaceId || binding.value != input.id.workspaceId {
          return Err(BindingConflict);
        }
      }
      var next := Pointer(input.id.workspaceId, currentVersion + 1, Live, input.versionId,
                          input.id.objectKey, input.id.plaintextFingerprint, now);
      if p.pointer.Some? && p.pointer.value.versionId != next.versionId {
        var current := p.pointer.value;
        if current.versionId !in p.versions { return Err(VersionRecordInvalid); }
        var previous := p.versions[current.versionId];
        if previous.id != PointerIdentity(current) { return Err(VersionRecordInvalid); }
        if previous.status == GcPending { return Err(VersionGcPending); }
        p := p.(versions := p.versions[current.versionId := previous.(status := Orphan)]);
      }
      p := p.(pointer := Some(next));
      p := p.(versions := p.versions[input.versionId :=
        version.(status := Active, pointerVersion := next.pointerVersion)]);
      binding := Some(input.id.workspaceId);
      Commit(input.projectId, p);
      r := Ok(next);
    }

    method CasProjectTombstone(input: TombstoneInput, now: nat) returns (r: Result<Pointer, Error>)
      modifies this
      ensures State() == Apply(old(State()), TombstoneOp(input, now))
      ensures r == if ValidTombstoneInput(input)
                   then Tombstone(old(binding), ProjectOf(old(State()), input.projectId), input, now).1
                   else Err(InvalidInput)
      ensures old(Valid()) ==> Valid()
    {
      ApplyWhenValid(TombstoneOp(input, now));
      if !ValidTombstoneInput(input) { return Err(InvalidInput); }
      var p := Load(input.projectId);
      if input.operationId in p.tombstones {
        var previous := p.tombstones[input.operationId];
        if previous.input != input || previous.snapshot.pointerVersion != input.expectedPointerVersion + 1
           || previous.createdAt != previous.snapshot.updatedAt { return Err(OperationConflict); }
        if binding.None? { return Err(BindingMissing); }
        if binding.value != previous.snapshot.workspaceId { return Err(BindingConflict); }
        return Ok(previous.snapshot);
      }
      if p.pointer.None? { return Err(PointerConflict); }
      var current := p.pointer.value;
      if binding.None? { return Err(BindingMissing); }
      if binding.value != current.workspaceId { return Err(BindingConflict); }
      if current.pointerVersion != input.expectedPointerVersion || current.state != Live {
        return Err(PointerConflict);
      }
      var next := current.(state := Deleted, pointerVersion := current.pointerVersion + 1, updatedAt := now);
      p := p.(pointer := Some(next));
      if current.versionId in p.versions {
        var version := p.versions[current.versionId];
        p := p.(versions := p.versions[current.versionId := version.(status := Orphan)]);
      }
      p := p.(tombstones := p.tombstones[input.operationId := TombstoneOperation(input, next, now)]);
      Commit(input.projectId, p);
      r := Ok(next);
    }
  }
}
