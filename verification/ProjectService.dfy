/** The request handlers as methods over the live coordinator and bucket, each run to its end undisturbed. */
module ProjectService {
  import opened Common
  import opened Shapes
  import opened CoordinatorState
  import opened CoordinatorSteps
  import opened CoordinatorInvariant
  import opened Coordinator
  import opened ProjectStore
  import opened ProjectHandlers
  import opened ProjectPresence

  // ----- The steps of a handler, one after another -----

  ghost function UploadDone(cfg: Config, s: System, id: string, op: string, bundle: Bytes, keys: Keys, expected: nat,
                            clock: nat -> nat): System
  {
    var (objects, stored) := Put(cfg, keys, s.bucket, id, bundle);
    var input := UploadPrepare(cfg, id, op, bundle, expected);
    if stored.Err? then s.(bucket := objects)
    else
      var prepared := Apply(s.coord, PrepareOp(input, clock(2)));
      if PrepareReply(s.coord, input, clock(2)).Err? then System(prepared, objects)
      else System(Apply(prepared, CasOp(UploadCas(cfg, id, bundle, expected), clock(1))), objects)
  }

  lemma ActivatingEnds(cfg: Config, s: System, id: string, bundle: Bytes, expected: nat, clock: nat -> nat)
    ensures Complete(cfg, s, Some(Activating(id, bundle, expected)), clock, true)
         == s.(coord := Apply(s.coord, CasOp(UploadCas(cfg, id, bundle, expected), clock(1))))
  {
    hide Apply, UploadCas;
  }

  lemma PreparingEnds(cfg: Config, s: System, id: string, op: string, bundle: Bytes, expected: nat, clock: nat -> nat)
    ensures var input := UploadPrepare(cfg, id, op, bundle, expected);
            var prepared := s.(coord := Apply(s.coord, PrepareOp(input, clock(2))));
            Complete(cfg, s, Some(Preparing(id, op, bundle, expected)), clock, true)
            == if PrepareReply(s.coord, input, clock(2)).Err? then prepared
               else Complete(cfg, prepared, Some(Activating(id, bundle, expected)), clock, true)
  {
    hide Apply, UploadPrepare, PrepareReply;
  }

  lemma PuttingEnds(cfg: Config, s: System, id: string, op: string, bundle: Bytes, keys: Keys, expected: nat, clock: nat -> nat)
    ensures var (objects, stored) := Put(cfg, keys, s.bucket, id, bundle);
            Complete(cfg, s, Some(Putting(id, op, bundle, keys, expected)), clock, true)
            == if stored.Err? then s.(bucket := objects)
               else Complete(cfg, s.(bucket := objects), Some(Preparing(id, op, bundle, expected)), clock, true)
  {
    hide Apply, ObjectKey;
    if TransportSize(bundle) && ObjectKey(cfg, id, cfg.contentHash(bundle)) in s.bucket {
      ComparingEnds(cfg, s, id, op, bundle, keys, expected, clock);
    }
  }

  lemma ComparingEnds(cfg: Config, s: System, id: string, op: string, bundle: Bytes, keys: Keys, expected: nat, clock: nat -> nat)
    ensures Complete(cfg, s, Some(Comparing(id, op, bundle, keys, expected)), clock, true)
            == if Open(cfg, keys, s.bucket, id, cfg.contentHash(bundle)) == Ok(bundle)
               then Complete(cfg, s, Some(Preparing(id, op, bundle, expected)), clock, true) else s
  {
    hide Apply, ObjectKey, Open;
  }

  /** An upload on its own is a put, a preparation and a compare-and-swap. */
  lemma UploadIsDone(cfg: Config, s: System, id: string, op: string, bundle: Bytes, keys: Keys, expected: nat, clock: nat -> nat)
    ensures Complete(cfg, s, Some(Putting(id, op, bundle, keys, expected)), clock, true)
         == UploadDone(cfg, s, id, op, bundle, keys, expected, clock)
  {
    hide Complete, Apply, Put, PrepareReply, UploadPrepare, UploadCas;
    var objects := Put(cfg, keys, s.bucket, id, bundle).0;
    PuttingEnds(cfg, s, id, op, bundle, keys, expected, clock);
    PreparingEnds(cfg, s.(bucket := objects), id, op, bundle, expected, clock);
    var prepared := Apply(s.coord, PrepareOp(UploadPrepare(cfg, id, op, bundle, expected), clock(2)));
    ActivatingEnds(cfg, System(prepared, objects), id, bundle, expected, clock);
  }

  lemma FinishingEnds(cfg: Config, s: System, id: string, op: string, v: string, clock: nat -> nat, accepted: bool)
    ensures Complete(cfg, s, Some(Finishing(id, op, v)), clock, accepted)
         == s.(coord := Apply(s.coord, FinishGcOp(GcFinishInput(id, v, op, true))))
  {
    hide Apply;
  }

  lemma RemovingEnds(cfg: Config, s: System, id: string, op: string, receipt: GcReceipt, clock: nat -> nat, accepted: bool)
    ensures Complete(cfg, s, Some(Removing(id, op, receipt)), clock, accepted)
         == if MayCollect(cfg, id, receipt) && accepted
            then Complete(cfg, s.(bucket := s.bucket - {ObjectKey(cfg, id, receipt.versionId)}),
                          Some(Finishing(id, op, receipt.versionId)), clock, accepted)
            else s
  {
    hide Apply, ObjectKey;
  }

  lemma BeginningEnds(cfg: Config, s: System, id: string, op: string, v: string, retention: nat, clock: nat -> nat, accepted: bool)
    ensures var input := GcInput(id, v, op, retention);
            var begun := s.(coord := Apply(s.coord, BeginGcOp(input, clock(3))));
            var reply := BeginGcReply(s.coord, input, clock(3));
            Complete(cfg, s, Some(Beginning(id, op, v, retention)), clock, accepted)
            == if reply.Ok? && !reply.value.completed
               then Complete(cfg, begun, Some(Removing(id, op, reply.value)), clock, accepted) else begun
  {
    hide Apply, BeginGcReply;
  }

  lemma ErasingEnds(cfg: Config, s: System, id: string, captured: Pointer, clock: nat -> nat, accepted: bool)
    ensures Complete(cfg, s, Some(Erasing(id, captured)), clock, accepted)
         == if MayRead(cfg, id, captured) && accepted then s.(bucket := s.bucket - {captured.objectKey}) else s
  {
    hide Apply, MayRead;
  }

  lemma MarkingEnds(cfg: Config, s: System, id: string, op: string, current: Pointer, clock: nat -> nat, accepted: bool)
    ensures var input := MarkInput(id, op, current);
            var marked := s.(coord := Apply(s.coord, TombstoneOp(input, clock(2))));
            Complete(cfg, s, Some(Marking(id, op, current)), clock, accepted)
            == if TombstoneReply(s.coord, input, clock(2)).Err? then marked
               else Complete(cfg, marked, Some(Erasing(id, current)), clock, accepted)
  {
    hide Apply, TombstoneReply;
  }

  lemma LookingEnds(cfg: Config, s: System, id: string, op: string, current: Pointer, clock: nat -> nat, accepted: bool)
    ensures Complete(cfg, s, Some(Looking(id, op, current)), clock, accepted)
         == Complete(cfg, s, Onward(cfg, s, Looking(id, op, current), clock(3), accepted), clock, accepted)
  {
  }

  lemma NoneIsDone(cfg: Config, s: System, clock: nat -> nat, accepted: bool)
    ensures Complete(cfg, s, None, clock, accepted) == s
  {
  }

  class ProjectService {
    const cfg: Config
    const coordinator: WorkspaceCoordinator
    const bucket: ObjectBucket

    constructor (cfg: Config)
      ensures fresh(coordinator) && fresh(bucket) && this.cfg == cfg
      ensures System() == EMPTY_SYSTEM && SystemInv(cfg, System())
    {
      this.cfg := cfg;
      coordinator := new WorkspaceCoordinator();
      bucket := new ObjectBucket();
      new;
      EmptyIsSound(cfg);
    }

    ghost function System(): System
      reads coordinator, bucket
    {
      ProjectHandlers.System(coordinator.State(), bucket.objects)
    }

    /** The system when the handler of a request has run to its end. */
    ghost function Handled(r: Request, clock: nat -> nat, accepted: bool): System
      reads coordinator, bucket
    {
      Complete(cfg, System(), Begin(cfg, System().coord, r), clock, accepted)
    }

    lemma HandledWhenValid(r: Request, clock: nat -> nat, accepted: bool)
      ensures SystemInv(cfg, System()) ==> SystemInv(cfg, Handled(r, clock, accepted))
    {
      if SystemInv(cfg, System()) {
        BeginIsOk(cfg, System(), r);
        CompleteKeepsInv(cfg, System(), Begin(cfg, System().coord, r), clock, accepted);
      }
    }

    method ReadPointer(projectId: string) returns (p: Option<Project>)
      ensures p == if PointerReadable(cfg, System().coord, ProjectOf(System().coord, projectId))
                   then Some(ProjectOf(System().coord, projectId)) else None
    {
      var project := coordinator.Load(projectId);
      if project.pointer.Some?
         && (coordinator.binding != Some(project.pointer.value.workspaceId)
             || project.pointer.value.workspaceId != cfg.workspaceId) { return None; }
      p := Some(project);
    }

    method HandleUpload(projectId: string, operationId: string, bundle: Bytes, keys: Keys, verified: bool, clock: nat -> nat)
      returns (r: Option<Pointer>)
      modifies coordinator, bucket
      ensures System() == old(Handled(Upload(projectId, operationId, bundle, keys, verified), clock, true))
      ensures r.Some? ==> LivePointer(ProjectOf(System().coord, projectId))
                          && ProjectOf(System().coord, projectId).pointer == r
                          && r.value.versionId == cfg.contentHash(bundle)
      ensures old(SystemInv(cfg, System())) ==> SystemInv(cfg, System())
    {
      hide Prepare, Cas, SystemInv, ValidPrepareInput, ValidCasInput, Put, ObjectKey, BoundedProjectId, Complete;
      HandledWhenValid(Upload(projectId, operationId, bundle, keys, verified), clock, true);
      NoneIsDone(cfg, System(), clock, true);
      if !BoundedProjectId(projectId) || !BoundedId(operationId) { return None; }
      var p := ReadPointer(projectId);
      if p.None? || !verified { return None; }
      var expected := ExpectedVersion(p.value, cfg.contentHash(bundle));
      UploadIsDone(cfg, System(), projectId, operationId, bundle, keys, expected, clock);
      var store := new EncryptedProjectStore(cfg, keys, bucket);
      var stored := store.UploadVerified(projectId, bundle);
      if stored.Err? { return None; }
      var input := UploadPrepare(cfg, projectId, operationId, bundle, expected);
      var prepared := coordinator.PrepareProjectVersion(input, clock(2));
      if prepared.Err? { return None; }
      ghost var middle := coordinator.State();
      var cas := UploadCas(cfg, projectId, bundle, expected);
      var next := coordinator.CasProjectPointer(cas, clock(1));
      if next.Err? { return None; }
      CasAnswersPointer(middle.binding, ProjectOf(middle, projectId), cas, clock(1));
      AppliedProject(middle, CasOp(cas, clock(1)), projectId);
      r := Some(next.value);
    }

    method HandleReadProject(projectId: string, keys: Keys) returns (r: Result<Bytes, StoreError>)
      ensures r == ReadProject(cfg, keys, System(), projectId)
    {
      var p := ReadPointer(projectId);
      if p.None? || !LivePointer(p.value) { return Err(PointerInvalid); }
      var store := new EncryptedProjectStore(cfg, keys, bucket);
      r := store.ReadVerified(projectId, p.value.pointer.value);
    }

    method HandleGcProject(projectId: string, operationId: string, versionId: string, now: nat, keys: Keys,
                           clock: nat -> nat, accepted: bool)
      returns (completed: bool)
      modifies coordinator, bucket
      ensures System() == old(Handled(Collect(projectId, operationId, versionId, now), clock, accepted))
      ensures old(SystemInv(cfg, System())) ==> SystemInv(cfg, System())
    {
      hide BeginGc, FinishGc, SystemInv, Complete, ObjectKey, BoundedProjectId, BoundedId, Fingerprint;
      HandledWhenValid(Collect(projectId, operationId, versionId, now), clock, accepted);
      NoneIsDone(cfg, System(), clock, accepted);
      if !BoundedProjectId(projectId) || !BoundedId(operationId) || !Fingerprint(versionId) { return false; }
      var p := coordinator.Load(projectId);
      var retention := RetentionFor(p, operationId, now);
      if retention.None? { return false; }
      var input := GcInput(projectId, versionId, operationId, retention.value);
      BeginningEnds(cfg, System(), projectId, operationId, versionId, retention.value, clock, accepted);
      var pending := coordinator.BeginProjectVersionGc(input, clock(3));
      if pending.Err? { return false; }
      if pending.value.completed { return true; }
      RemovingEnds(cfg, System(), projectId, operationId, pending.value, clock, accepted);
      var store := new EncryptedProjectStore(cfg, keys, bucket);
      var deleted := store.DeleteGcObject(projectId, pending.value, accepted);
      if !deleted { return false; }
      FinishingEnds(cfg, System(), projectId, operationId, pending.value.versionId, clock, accepted);
      var finished := coordinator.FinishProjectVersionGc(GcFinishInput(projectId, pending.value.versionId, operationId, true));
      completed := finished.Ok? && finished.value.completed;
    }

    method HandleDeleteProject(projectId: string, operationId: string, keys: Keys, clock: nat -> nat, accepted: bool)
      returns (deleted: bool)
      modifies coordinator, bucket
      ensures System() == old(Handled(Delete(projectId, operationId), clock, accepted))
      ensures old(SystemInv(cfg, System())) ==> SystemInv(cfg, System())
    {
      hide Tombstone, SystemInv, ValidTombstoneInput, Complete, BoundedProjectId, BoundedId, MayRead;
      HandledWhenValid(Delete(projectId, operationId), clock, accepted);
      NoneIsDone(cfg, System(), clock, accepted);
      if !BoundedProjectId(projectId) || !BoundedId(operationId) { return false; }
      var p := ReadPointer(projectId);
      if p.None? || p.value.pointer.None? { return false; }
      var captured := p.value.pointer.value;
      LookingEnds(cfg, System(), projectId, operationId, captured, clock, accepted);
      if operationId in p.value.tombstones {
        var previous := p.value.tombstones[operationId].snapshot;
        if coordinator.binding != Some(previous.workspaceId) || previous.workspaceId != cfg.workspaceId
           || !StillThatTombstone(captured, previous) { return false; }
        captured := previous;
      } else {
        if captured.state != Live { return false; }
        MarkingEnds(cfg, System(), projectId, operationId, captured, clock, accepted);
        var marked := coordinator.CasProjectTombstone(MarkInput(projectId, operationId, captured), clock(2));
        if marked.Err? { return false; }
      }
      ErasingEnds(cfg, System(), projectId, captured, clock, accepted);
      var store := new EncryptedProjectStore(cfg, keys, bucket);
      deleted := store.DeleteVerified(projectId, captured, accepted);
    }
  }

  lemma CasAnswersPointer(binding: Option<string>, p: Project, input: CasInput, now: nat)
    requires Cas(binding, p, input, now).2.Ok?
    ensures var (_, t, r) := Cas(binding, p, input, now);
            t.pointer == Some(r.value) && LivePointer(t) && t.pointer.value.versionId == input.versionId
  {
  }
}
