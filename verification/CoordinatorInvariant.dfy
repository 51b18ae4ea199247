/**
 * What every reachable coordinator state satisfies, and what follows for single calls.
 */
module CoordinatorInvariant {
  import opened Common
  import opened Shapes
  import opened CoordinatorState
  import opened CoordinatorSteps

  ghost predicate RecordsOwned(binding: Option<string>, p: Project)
  {
    forall v | v in p.versions :: binding == Some(p.versions[v].id.workspaceId)
  }

  /** A pointer is backed by a record that agrees with it and knows when it was activated. */
  ghost predicate PointerBacked(p: Project)
  {
    p.pointer.Some? ==>
      var q := p.pointer.value;
      && q.versionId in p.versions
      && p.versions[q.versionId].id == PointerIdentity(q)
      && (q.state == Live ==>
            && p.versions[q.versionId].status == Active
            && p.versions[q.versionId].pointerVersion == q.pointerVersion
            && q.pointerVersion == p.versions[q.versionId].expectedPointerVersion + 1)
      && (q.state == Deleted ==>
            && p.versions[q.versionId].status == Orphan
            && q.pointerVersion == p.versions[q.versionId].expectedPointerVersion + 2)
  }

  ghost predicate ActiveIsNamed(p: Project)
  {
    forall v | v in p.versions && p.versions[v].status == Active ::
      Names(p, v) && p.pointer.value.state == Live
  }

  predicate Tracks(op: GcOperation, versionId: string, record: VersionRecord)
  {
    !op.receipt.completed && op.receipt.versionId == versionId
    && op.receipt.id == record.id && op.receipt.byteSize == record.byteSize
  }

  ghost predicate Tracked(p: Project, versionId: string)
    requires versionId in p.versions
  {
    exists k | k in p.gcs :: Tracks(p.gcs[k], versionId, p.versions[versionId])
  }

  ghost predicate PendingTracked(p: Project)
  {
    forall v | v in p.versions && p.versions[v].status == GcPending :: Tracked(p, v)
  }

  ghost predicate WithinCapacity(p: Project)
  {
    |p.versions| <= CAPACITY && |p.prepares| <= CAPACITY && |p.gcs| <= CAPACITY
  }

  /** Every logged tombstone is a pointer the project has had, one version after the live one. */
  ghost predicate TombstonesLogged(binding: Option<string>, p: Project)
  {
    forall k | k in p.tombstones ::
      var t := p.tombstones[k];
      && t.input.operationId == k
      && t.snapshot.state == Deleted
      && t.snapshot.pointerVersion == t.input.expectedPointerVersion + 1
      && t.snapshot.pointerVersion <= PointerVersion(p)
      && t.createdAt == t.snapshot.updatedAt
      && binding == Some(t.snapshot.workspaceId)
  }

  ghost predicate ProjectInv(binding: Option<string>, p: Project)
  {
    && RecordsOwned(binding, p)
    && PointerBacked(p)
    && ActiveIsNamed(p)
    && PendingTracked(p)
    && WithinCapacity(p)
    && TombstonesLogged(binding, p)
  }

  ghost predicate Inv(s: State)
  {
    forall id | id in s.projects :: ProjectInv(s.binding, s.projects[id])
  }

  // ----- Preservation, one transaction at a time -----

  lemma SetStatusKeepsTracking(p: Project, v: string, status: VersionStatus)
    requires v in p.versions && PendingTracked(p) && status != GcPending
    ensures PendingTracked(SetStatus(p, v, status))
  {
    var t := SetStatus(p, v, status);
    forall w | w in t.versions && t.versions[w].status == GcPending ensures Tracked(t, w) {
      assert Tracked(p, w);
      var k :| k in p.gcs && Tracks(p.gcs[k], w, p.versions[w]);
      assert Tracks(t.gcs[k], w, t.versions[w]);
    }
  }

  lemma LogPrepareKeepsInv(binding: Option<string>, p: Project, receipt: PrepareReceipt, now: nat)
    requires ProjectInv(binding, p) && |p.prepares| < CAPACITY
    ensures ProjectInv(binding, LogPrepare(p, receipt, now))
  {
    var t := LogPrepare(p, receipt, now);
    forall w | w in t.versions && t.versions[w].status == GcPending ensures Tracked(t, w) {
      assert Tracked(p, w);
    }
  }

  lemma AddRecordKeepsInv(binding: Option<string>, p: Project, versionId: string, record: VersionRecord)
    requires ProjectInv(binding, p) && |p.versions| < CAPACITY
    requires versionId !in p.versions && binding == Some(record.id.workspaceId)
    requires record.status == Prepared || record.status == Orphan
    ensures ProjectInv(binding, p.(versions := p.versions[versionId := record]))
  {
    var t := p.(versions := p.versions[versionId := record]);
    forall w | w in t.versions && t.versions[w].status == GcPending ensures Tracked(t, w) {
      assert w in p.versions && Tracked(p, w);
    }
  }

  lemma PrepareKeepsInv(binding: Option<string>, p: Project, input: PrepareInput, now: nat)
    requires ProjectInv(binding, p)
    ensures ProjectInv(binding, Prepare(binding, p, input, now).0)
  {
    var t := Prepare(binding, p, input, now).0;
    if t != p {
      if input.versionId in p.versions {
        var status := if p.versions[input.versionId].status == Active || Names(p, input.versionId)
                      then Replayed else Fresh;
        LogPrepareKeepsInv(binding, p, ReceiptFor(input, status), now);
      } else {
        var record := PrepareNew(p, input, now).0.versions[input.versionId];
        AddRecordKeepsInv(binding, p, input.versionId, record);
        LogPrepareKeepsInv(binding, p.(versions := p.versions[input.versionId := record]),
                           ReceiptFor(input, Fresh), now);
      }
    }
  }

  lemma MarkPendingKeepsInv(binding: Option<string>, p: Project, input: GcInput, kept: map<string, GcOperation>, now: nat)
    requires ProjectInv(binding, p) && input.versionId in p.versions
    requires p.versions[input.versionId].status == Orphan && !Names(p, input.versionId)
    requires input.operationId !in kept && |kept| < CAPACITY
    requires forall k | k in p.gcs && !p.gcs[k].receipt.completed :: k in kept && kept[k] == p.gcs[k]
    ensures var receipt := GcReceiptFor(input, p.versions[input.versionId]);
            var op := GcOperation(input.retentionBefore, receipt, now);
            ProjectInv(binding, SetStatus(p, input.versionId, GcPending).(gcs := kept[input.operationId := op]))
  {
    var v := input.versionId;
    var op := GcOperation(input.retentionBefore, GcReceiptFor(input, p.versions[v]), now);
    var t := SetStatus(p, v, GcPending).(gcs := kept[input.operationId := op]);
    forall w | w in t.versions && t.versions[w].status == GcPending ensures Tracked(t, w) {
      if w == v {
        assert Tracks(t.gcs[input.operationId], w, t.versions[w]);
      } else {
        assert Tracked(p, w);
        var k :| k in p.gcs && Tracks(p.gcs[k], w, p.versions[w]);
        assert k in t.gcs && Tracks(t.gcs[k], w, t.versions[w]);
      }
    }
    assert |t.gcs| == |kept| + 1;
  }

  lemma BeginGcKeepsInv(binding: Option<string>, p: Project, input: GcInput, now: nat)
    requires ProjectInv(binding, p)
    ensures ProjectInv(binding, BeginGc(binding, p, input, now).0)
  {
    var t := BeginGc(binding, p, input, now).0;
    if t != p {
      MarkPendingKeepsInv(binding, p, input, MakeRoom(p.gcs).value, now);
    }
  }

  lemma FinishGcKeepsTombstones(binding: Option<string>, p: Project, input: GcFinishInput)
    requires TombstonesLogged(binding, p)
    ensures TombstonesLogged(binding, FinishGc(p, input).0)
  {
  }

  lemma FinishGcKeepsTracked(p: Project, input: GcFinishInput)
    requires PendingTracked(p)
    ensures PendingTracked(FinishGc(p, input).0)
  {
    var t := FinishGc(p, input).0;
    forall w | w in t.versions && t.versions[w].status == GcPending ensures Tracked(t, w) {
      assert Tracked(p, w);
      var k :| k in p.gcs && Tracks(p.gcs[k], w, p.versions[w]);
      assert t.versions[w] == p.versions[w];
      assert Tracks(t.gcs[k], w, t.versions[w]);
    }
  }

  lemma FinishGcKeepsCapacity(p: Project, input: GcFinishInput)
    requires WithinCapacity(p)
    ensures WithinCapacity(FinishGc(p, input).0)
  {
    var t := FinishGc(p, input).0;
    if t != p && input.versionId in p.versions {
      assert t.versions.Keys == p.versions.Keys - {input.versionId};
      assert t.prepares.Keys == p.prepares.Keys - {p.versions[input.versionId].operationId};
    }
  }

  lemma FinishGcKeepsInv(binding: Option<string>, p: Project, input: GcFinishInput)
    requires ProjectInv(binding, p)
    ensures ProjectInv(binding, FinishGc(p, input).0)
  {
    hide TombstonesLogged, PendingTracked, WithinCapacity;
    FinishGcKeepsTombstones(binding, p, input);
    FinishGcKeepsTracked(p, input);
    FinishGcKeepsCapacity(p, input);
  }

  lemma OrphanKeepsInv(binding: Option<string>, p: Project, v: string)
    requires ProjectInv(binding, p) && v in p.versions
    requires !(Names(p, v) && p.pointer.value.state == Live)
    ensures ProjectInv(binding, SetStatus(p, v, Orphan))
  {
    SetStatusKeepsTracking(p, v, Orphan);
  }

  /** A record whose expected version is the current one is not the current target. */
  lemma EligibleIsUnnamed(p: Project, v: string)
    requires PointerBacked(p) && v in p.versions
    requires p.versions[v].expectedPointerVersion == PointerVersion(p)
    ensures !Names(p, v)
  {
  }

  lemma SameTracked(p: Project, t: Project, w: string)
    requires w in p.versions && w in t.versions && t.gcs == p.gcs && t.versions[w] == p.versions[w] && Tracked(p, w)
    ensures Tracked(t, w)
  {
  }

  lemma AdvanceKeepsOwned(binding: Option<string>, p: Project, input: CasInput, now: nat)
    requires RecordsOwned(binding, p) && TombstonesLogged(binding, p) && input.versionId in p.versions
    requires p.pointer.Some? ==> p.pointer.value.versionId in p.versions
    ensures RecordsOwned(binding, Advance(p, input, now)) && TombstonesLogged(binding, Advance(p, input, now))
  {
  }

  lemma AdvanceKeepsInv(binding: Option<string>, p: Project, input: CasInput, now: nat)
    requires ProjectInv(binding, p) && input.versionId in p.versions
    requires p.versions[input.versionId].id == input.id
    requires p.versions[input.versionId].status != GcPending
    requires p.versions[input.versionId].expectedPointerVersion == PointerVersion(p)
    ensures ProjectInv(binding, Advance(p, input, now))
  {
    hide TombstonesLogged, RecordsOwned, Tracked;
    EligibleIsUnnamed(p, input.versionId);
    AdvanceKeepsOwned(binding, p, input, now);
    var t := Advance(p, input, now);
    var r := if p.pointer.Some? then SetStatus(p, p.pointer.value.versionId, Orphan) else p;
    if p.pointer.Some? {
      SetStatusKeepsTracking(p, p.pointer.value.versionId, Orphan);
    }
    assert forall w | w in r.versions :: r.versions[w].status != Active;
    assert t.versions == r.versions[input.versionId := t.versions[input.versionId]];
    forall w | w in t.versions && t.versions[w].status == GcPending ensures Tracked(t, w) {
      assert Tracked(r, w);
      SameTracked(r, t, w);
    }
    assert ActiveIsNamed(t);
  }

  /** Under the invariant the damaged-record answers of a compare-and-swap never occur. */
  lemma CasKeepsInv(binding: Option<string>, p: Project, input: CasInput, now: nat)
    requires ProjectInv(binding, p)
    ensures var (b, t, r) := Cas(binding, p, input, now);
            && ProjectInv(b, t)
            && (binding.Some? ==> b == binding)
            && r != Err(VersionRecordInvalid)
            && (r == Err(VersionGcPending) ==> p.versions[input.versionId].status == GcPending)
  {
    var (b, t, r) := Cas(binding, p, input, now);
    if t != p {
      if r.Err? {
        OrphanKeepsInv(binding, p, input.versionId);
      } else {
        assert b == binding;
        AdvanceKeepsInv(binding, p, input, now);
      }
    }
  }

  lemma TombstoneKeepsInv(binding: Option<string>, p: Project, input: TombstoneInput, now: nat)
    requires ProjectInv(binding, p)
    ensures ProjectInv(binding, Tombstone(binding, p, input, now).0)
  {
    var t := Tombstone(binding, p, input, now).0;
    if t != p {
      MarkDeletedKeepsInv(binding, p, input, now);
    }
  }

  lemma MarkDeletedKeepsInv(binding: Option<string>, p: Project, input: TombstoneInput, now: nat)
    requires ProjectInv(binding, p) && p.pointer.Some? && binding == Some(p.pointer.value.workspaceId)
    requires p.pointer.value.state == Live && p.pointer.value.pointerVersion == input.expectedPointerVersion
    ensures var q := p.pointer.value;
            var next := q.(state := Deleted, pointerVersion := q.pointerVersion + 1, updatedAt := now);
            ProjectInv(binding, SetStatus(p, q.versionId, Orphan)
              .(pointer := Some(next), tombstones := p.tombstones[input.operationId := TombstoneOperation(input, next, now)]))
  {
    var q := p.pointer.value;
    SetStatusKeepsTracking(p, q.versionId, Orphan);
    var r := SetStatus(p, q.versionId, Orphan);
    var next := q.(state := Deleted, pointerVersion := q.pointerVersion + 1, updatedAt := now);
    var t := r.(pointer := Some(next), tombstones := p.tombstones[input.operationId := TombstoneOperation(input, next, now)]);
    forall w | w in t.versions && t.versions[w].status == GcPending ensures Tracked(t, w) {
      assert Tracked(r, w);
    }
  }

  lemma OnProjectKeepsInv(binding: Option<string>, p: Project, op: Op)
    requires ProjectInv(binding, p)
    ensures var (b, t) := OnProject(binding, p, op);
            ProjectInv(b, t) && (binding.Some? ==> b == binding)
  {
    match op
    case BindOp(w) =>
    case PrepareOp(input, now) => PrepareKeepsInv(binding, p, input, now);
    case BeginGcOp(input, now) => BeginGcKeepsInv(binding, p, input, now);
    case FinishGcOp(input) => FinishGcKeepsInv(binding, p, input);
    case CasOp(input, now) => CasKeepsInv(binding, p, input, now);
    case TombstoneOp(input, now) => TombstoneKeepsInv(binding, p, input, now);
  }

  lemma EmptyProjectInv(binding: Option<string>)
    ensures ProjectInv(binding, EMPTY_PROJECT)
  {
  }

  lemma OtherKeepsInv(binding: Option<string>, next: Option<string>, p: Project)
    requires ProjectInv(binding, p) && (binding.Some? ==> next == binding)
    ensures ProjectInv(next, p)
  {
    assert next != binding ==> p.versions == map[] && p.tombstones == map[];
  }

  lemma ApplyKeepsInv(s: State, op: Op)
    requires Inv(s)
    ensures Inv(Apply(s, op)) && (s.binding.Some? ==> Apply(s, op).binding == s.binding)
  {
    hide OnProject, ProjectInv;
    if ValidOp(op) {
      var p := ProjectOf(s, Target(op));
      EmptyProjectInv(s.binding);
      OnProjectKeepsInv(s.binding, p, op);
      var (b, t) := OnProject(s.binding, p, op);
      forall other | other in s.projects ensures ProjectInv(b, s.projects[other]) {
        OtherKeepsInv(s.binding, b, s.projects[other]);
      }
    }
  }

  /** Main result: the invariant holds after every sequence of transactions. */
  lemma {:induction false} RunKeepsInv(s: State, ops: seq<Op>)
    requires Inv(s)
    ensures Inv(Run(s, ops))
    decreases |ops|
  {
    if ops != [] {
      RunKeepsInv(s, ops[..|ops| - 1]);
      ApplyKeepsInv(Run(s, ops[..|ops| - 1]), ops[|ops| - 1]);
    }
  }
}
