/** What runs of coordinator transactions keep: one pointer chain, no return, exact replay. */
module CoordinatorHistory {
  import opened Common
  import opened Shapes
  import opened CoordinatorState
  import opened CoordinatorSteps
  import opened CoordinatorInvariant

  /** The project `id` after the first `k` transactions. */
  ghost function At(s: State, ops: seq<Op>, id: string, k: nat): Project
    requires k <= |ops|
  {
    ProjectOf(Run(s, ops[..k]), id)
  }

  lemma AtNext(s: State, ops: seq<Op>, id: string, k: nat)
    requires k < |ops|
    ensures Run(s, ops[..k + 1]) == Apply(Run(s, ops[..k]), ops[k])
    ensures At(s, ops, id, k + 1) == At(s, ops, id, k)
            || (ValidOp(ops[k]) && Target(ops[k]) == id
                && At(s, ops, id, k + 1) == OnProject(Run(s, ops[..k]).binding, At(s, ops, id, k), ops[k]).1)
  {
    assert ops[..k + 1][..k] == ops[..k];
  }

  lemma AtInv(s: State, ops: seq<Op>, id: string, k: nat)
    requires Inv(s) && k <= |ops|
    ensures ProjectInv(Run(s, ops[..k]).binding, At(s, ops, id, k))
  {
    RunKeepsInv(s, ops[..k]);
  }

  // ----- The pointer chain -----

  /** The pointer version a transaction names as the one it replaces, if it can move the pointer. */
  function Consumes(op: Op): Option<nat>
  {
    match op
    case CasOp(input, _) => Some(input.expectedPointerVersion)
    case TombstoneOp(input, _) => Some(input.expectedPointerVersion)
    case _ => None
  }

  lemma PointerMovesByOne(binding: Option<string>, p: Project, op: Op)
    ensures var t := OnProject(binding, p, op).1;
            t.pointer == p.pointer
            || (PointerVersion(t) == PointerVersion(p) + 1 && Consumes(op) == Some(PointerVersion(p)))
  {
  }

  ghost predicate Writes(s: State, ops: seq<Op>, id: string, k: nat)
    requires k < |ops|
  {
    At(s, ops, id, k + 1).pointer != At(s, ops, id, k).pointer
  }

  ghost function WriteCount(s: State, ops: seq<Op>, id: string, k: nat): nat
    requires k <= |ops|
  {
    if k == 0 then 0 else WriteCount(s, ops, id, k - 1) + if Writes(s, ops, id, k - 1) then 1 else 0
  }

  /** The pointer version counts the pointer writes: no gap and no write lost. */
  lemma {:induction false} VersionCountsWrites(s: State, ops: seq<Op>, id: string, k: nat)
    requires k <= |ops|
    ensures PointerVersion(At(s, ops, id, k)) == PointerVersion(ProjectOf(s, id)) + WriteCount(s, ops, id, k)
  {
    if k == 0 {
      assert ops[..0] == [];
    } else {
      VersionCountsWrites(s, ops, id, k - 1);
      AtNext(s, ops, id, k - 1);
      PointerMovesByOne(Run(s, ops[..k - 1]).binding, At(s, ops, id, k - 1), ops[k - 1]);
    }
  }

  lemma {:induction false} WriteCountMonotone(s: State, ops: seq<Op>, id: string, i: nat, j: nat)
    requires i <= j <= |ops|
    ensures WriteCount(s, ops, id, i) <= WriteCount(s, ops, id, j)
    decreases j - i
  {
    if i < j {
      WriteCountMonotone(s, ops, id, i, j - 1);
    }
  }

  /** Main result: the writes of a run consume strictly increasing expected versions. */
  lemma WritesFormOneChain(s: State, ops: seq<Op>, id: string, i: nat, j: nat)
    requires i < j < |ops| && Writes(s, ops, id, i) && Writes(s, ops, id, j)
    ensures Consumes(ops[i]).Some? && Consumes(ops[j]).Some?
    ensures Consumes(ops[i]).value < Consumes(ops[j]).value
    ensures PointerVersion(At(s, ops, id, i + 1)) == Consumes(ops[i]).value + 1
  {
    AtNext(s, ops, id, i);
    AtNext(s, ops, id, j);
    PointerMovesByOne(Run(s, ops[..i]).binding, At(s, ops, id, i), ops[i]);
    PointerMovesByOne(Run(s, ops[..j]).binding, At(s, ops, id, j), ops[j]);
    VersionCountsWrites(s, ops, id, i + 1);
    VersionCountsWrites(s, ops, id, j);
    WriteCountMonotone(s, ops, id, i + 1, j);
  }

  // ----- No return to a version once left -----

  ghost predicate LiveAt(p: Project, v: string)
  {
    Names(p, v) && p.pointer.value.state == Live
  }

  /** The record of `v` expects a pointer version that is already past. */
  ghost predicate Spent(p: Project, v: string)
  {
    v in p.versions && p.versions[v].expectedPointerVersion < PointerVersion(p)
  }

  /** A record `v` that stays keeps all but its status and activation. */
  ghost predicate Fixed(p: Project, t: Project, v: string)
  {
    v in p.versions && v in t.versions ==>
      var r, r' := p.versions[v], t.versions[v];
      && r'.id == r.id && r'.expectedPointerVersion == r.expectedPointerVersion
      && r'.byteSize == r.byteSize && r'.createdAt == r.createdAt && r'.operationId == r.operationId
  }

  lemma PrepareFixes(binding: Option<string>, p: Project, input: PrepareInput, now: nat, v: string)
    ensures Fixed(p, Prepare(binding, p, input, now).0, v)
  {
  }

  lemma BeginGcFixes(binding: Option<string>, p: Project, input: GcInput, now: nat, v: string)
    ensures Fixed(p, BeginGc(binding, p, input, now).0, v)
  {
    hide MakeRoom, Names, GcReceiptFor;
  }

  lemma FinishGcFixes(p: Project, input: GcFinishInput, v: string)
    ensures Fixed(p, FinishGc(p, input).0, v)
  {
  }

  lemma CasFixes(binding: Option<string>, p: Project, input: CasInput, now: nat, v: string)
    ensures Fixed(p, Cas(binding, p, input, now).1, v)
  {
  }

  lemma TombstoneFixes(binding: Option<string>, p: Project, input: TombstoneInput, now: nat, v: string)
    ensures Fixed(p, Tombstone(binding, p, input, now).0, v)
  {
  }

  lemma RecordIsFixed(binding: Option<string>, p: Project, op: Op, v: string)
    ensures Fixed(p, OnProject(binding, p, op).1, v)
  {
    hide Prepare, BeginGc, FinishGc, Cas, Tombstone;
    match op
    case BindOp(w) =>
    case PrepareOp(input, now) => PrepareFixes(binding, p, input, now, v);
    case BeginGcOp(input, now) => BeginGcFixes(binding, p, input, now, v);
    case FinishGcOp(input) => FinishGcFixes(p, input, v);
    case CasOp(input, now) => CasFixes(binding, p, input, now, v);
    case TombstoneOp(input, now) => TombstoneFixes(binding, p, input, now, v);
  }

  lemma SpentStaysUnnamed(binding: Option<string>, p: Project, op: Op, v: string)
    requires ProjectInv(binding, p) && v in p.versions
    requires Spent(p, v) && !LiveAt(p, v)
    ensures var t := OnProject(binding, p, op).1;
            v in t.versions ==> Spent(t, v) && !LiveAt(t, v)
  {
    var t := OnProject(binding, p, op).1;
    PointerMovesByOne(binding, p, op);
    if v in t.versions {
      RecordIsFixed(binding, p, op, v);
    }
  }

  lemma {:induction false} SpentForGood(s: State, ops: seq<Op>, id: string, v: string, i: nat, j: nat)
    requires Inv(s) && i <= j <= |ops|
    requires forall k | i <= k <= j :: v in At(s, ops, id, k).versions
    requires Spent(At(s, ops, id, i), v) && !LiveAt(At(s, ops, id, i), v)
    ensures Spent(At(s, ops, id, j), v) && !LiveAt(At(s, ops, id, j), v)
    decreases j - i
  {
    hide Inv, ProjectInv, Spent, LiveAt, OnProject;
    if i < j {
      SpentForGood(s, ops, id, v, i, j - 1);
      AtInv(s, ops, id, j - 1);
      AtNext(s, ops, id, j - 1);
      SpentStaysUnnamed(Run(s, ops[..j - 1]).binding, At(s, ops, id, j - 1), ops[j - 1], v);
    }
  }

  /** Main result: once the pointer leaves a version it never names it again while the record lives. */
  lemma NoReturn(s: State, ops: seq<Op>, id: string, v: string, i: nat, j: nat)
    requires Inv(s) && i < j <= |ops|
    requires LiveAt(At(s, ops, id, i), v) && !LiveAt(At(s, ops, id, i + 1), v)
    requires forall k | i < k <= j :: v in At(s, ops, id, k).versions
    ensures !LiveAt(At(s, ops, id, j), v)
  {
    var p := At(s, ops, id, i);
    AtInv(s, ops, id, i);
    AtNext(s, ops, id, i);
    PointerMovesByOne(Run(s, ops[..i]).binding, p, ops[i]);
    RecordIsFixed(Run(s, ops[..i]).binding, p, ops[i], v);
    SpentForGood(s, ops, id, v, i + 1, j);
  }

  // ----- What single calls answer -----

  /** Under the invariant a well-formed compare-and-swap is refused exactly when it is stale. */
  lemma CasSucceedsExactly(binding: Option<string>, p: Project, input: CasInput, now: nat)
    requires ProjectInv(binding, p) && input.versionId in p.versions
    requires var v := p.versions[input.versionId];
             v.status != GcPending && v.id == input.id && v.byteSize > 0
             && v.expectedPointerVersion == input.expectedPointerVersion
    ensures var (b, t, r) := Cas(binding, p, input, now);
            && (r.Ok? <==> LiveAt(p, input.versionId) || PointerVersion(p) == input.expectedPointerVersion)
            && (r.Ok? ==> t.pointer == Some(r.value) && LiveAt(t, input.versionId)
                          && r.value.pointerVersion == input.expectedPointerVersion + 1)
            && (r.Err? ==> r.error == PointerConflict)
  {
  }

  /** A refused compare-and-swap leaves the pointer and the live record as they were. */
  lemma RefusedCasSparesLive(binding: Option<string>, p: Project, input: CasInput, now: nat, v: string)
    requires ProjectInv(binding, p) && LiveAt(p, v) && Cas(binding, p, input, now).2.Err?
    ensures var t := Cas(binding, p, input, now).1;
            t.pointer == p.pointer && v in t.versions && t.versions[v] == p.versions[v]
  {
  }

  lemma CasReplay(binding: Option<string>, p: Project, input: CasInput, now: nat, later: nat)
    requires ProjectInv(binding, p) && Cas(binding, p, input, now).2.Ok?
    ensures var (b, t, r) := Cas(binding, p, input, now);
            Cas(b, t, input, later) == (b, t, r)
  {
    if !AlreadyNamed(p, input) {
      EligibleIsUnnamed(p, input.versionId);
    }
  }

  /** The log decides a replay: whatever was logged answers its receipt, and changes nothing. */
  lemma PrepareReplay(binding: Option<string>, p: Project, input: PrepareInput, now: nat, later: nat)
    requires input.operationId !in p.prepares && input.operationId in Prepare(binding, p, input, now).0.prepares
    ensures var (t, r) := Prepare(binding, p, input, now);
            && Prepare(binding, t, input, later) == (t, Ok(t.prepares[input.operationId].receipt))
            && SameRequest(t.prepares[input.operationId].receipt, input)
            && (r.Ok? ==> r.value == t.prepares[input.operationId].receipt)
  {
  }

  /**
   * When a fresh preparation is refused and yet logged, so that its replay is answered with a receipt: exactly when
   * new bytes of the pointer's workspace come with another version than the pointer's, and the logs have room.
   */
  lemma RefusedIsLoggedExactly(binding: Option<string>, p: Project, input: PrepareInput, now: nat)
    requires input.operationId !in p.prepares
    ensures var (t, r) := Prepare(binding, p, input, now);
            (r.Err? && input.operationId in t.prepares)
            <==> (&& binding == Some(input.id.workspaceId)
                  && p.pointer.Some? && p.pointer.value.workspaceId == input.id.workspaceId
                  && p.pointer.value.pointerVersion != input.expectedPointerVersion
                  && input.versionId !in p.versions
                  && |p.versions| < CAPACITY && |p.prepares| < CAPACITY)
    ensures var (t, r) := Prepare(binding, p, input, now);
            r.Ok? ==> input.operationId in t.prepares
  {
  }

  /** Preparing bytes for the current pointer: exactly when their old record, if any, stands in the way. */
  lemma PrepareForCurrentExactly(binding: Option<string>, p: Project, input: PrepareInput, now: nat)
    requires ProjectInv(binding, p) && input.operationId !in p.prepares
    requires binding == Some(input.id.workspaceId) && input.expectedPointerVersion == PointerVersion(p)
    requires |p.versions| < CAPACITY && |p.prepares| < CAPACITY
    ensures Prepare(binding, p, input, now).1.Ok? <==>
              input.versionId !in p.versions
              || (p.versions[input.versionId].status != GcPending && SameVersion(p.versions[input.versionId], input))
    ensures Names(p, input.versionId) ==> Prepare(binding, p, input, now).1 == Err(VersionConflict)
  {
  }

  /** The project was deleted, and `v` is the version it had. */
  ghost predicate DeletedAt(p: Project, v: string)
  {
    Names(p, v) && p.pointer.value.state == Deleted
  }

  /**
   * Deleted bytes can be prepared again only as the very version they were: with the pointer version that their
   * record expects, which is two behind.
   */
  lemma PrepareDeletedExactly(binding: Option<string>, p: Project, input: PrepareInput, now: nat)
    requires ProjectInv(binding, p) && DeletedAt(p, input.versionId)
    requires input.operationId !in p.prepares && |p.prepares| < CAPACITY
    ensures Prepare(binding, p, input, now).1.Ok? <==> SameVersion(p.versions[input.versionId], input)
    ensures SameVersion(p.versions[input.versionId], input) ==> PointerVersion(p) == input.expectedPointerVersion + 2
  {
  }

  /** While a deleted version is named, no compare-and-swap activates it, and a preparation changes nothing about that. */
  lemma DeletedIsNotActivated(binding: Option<string>, p: Project, input: CasInput, prepare: PrepareInput, now: nat)
    requires ProjectInv(binding, p) && DeletedAt(p, input.versionId)
    ensures Cas(binding, p, input, now).2.Err?
    ensures DeletedAt(Prepare(binding, p, prepare, now).0, input.versionId)
    ensures Cas(binding, Prepare(binding, p, prepare, now).0, input, now).2.Err?
  {
    hide Prepare, Cas, ProjectInv;
    PrepareKeepsInv(binding, p, prepare, now);
    PrepareKeepsPointer(binding, p, prepare, now);
    DeletedRefuses(binding, p, input, now);
    DeletedRefuses(binding, Prepare(binding, p, prepare, now).0, input, now);
  }

  lemma PrepareKeepsPointer(binding: Option<string>, p: Project, input: PrepareInput, now: nat)
    ensures Prepare(binding, p, input, now).0.pointer == p.pointer
  {
  }

  lemma DeletedRefuses(binding: Option<string>, p: Project, input: CasInput, now: nat)
    requires ProjectInv(binding, p) && DeletedAt(p, input.versionId)
    ensures Cas(binding, p, input, now).2.Err?
  {
    hide Advance, SetStatus;
  }

  /** A collection begins exactly for an unnamed orphan that is old enough, while its log has room. */
  lemma BeginGcExactly(binding: Option<string>, p: Project, input: GcInput, now: nat)
    requires ProjectInv(binding, p) && input.operationId !in p.gcs
    ensures BeginGc(binding, p, input, now).1.Ok?
       <==> (&& input.versionId in p.versions && p.versions[input.versionId].status == Orphan
             && p.versions[input.versionId].createdAt <= input.retentionBefore
             && !Names(p, input.versionId)
             && (|p.gcs| < CAPACITY || Completed(p.gcs) != {}))
  {
    if |p.gcs| >= CAPACITY {
      assert |Completed(p.gcs)| >= |p.gcs| - (CAPACITY - 1) <==> Completed(p.gcs) != {};
    }
  }

  /** What makes a deleted version collectable: activating another version, and nothing before that. */
  lemma DeletedIsCollectableOnceReplaced(binding: Option<string>, p: Project, input: CasInput, gc: GcInput, now: nat)
    requires ProjectInv(binding, p) && DeletedAt(p, gc.versionId) && gc.operationId !in p.gcs
    ensures BeginGc(binding, p, gc, now).1.Err?
    ensures var (b, t, r) := Cas(binding, p, input, now);
            r.Ok? && p.versions[gc.versionId].createdAt <= gc.retentionBefore && (|p.gcs| < CAPACITY || Completed(p.gcs) != {})
            ==> BeginGc(b, t, gc, now).1.Ok?
  {
    hide BeginGc, Cas, ProjectInv;
    DeletedIsBound(binding, p, gc.versionId);
    BeginGcExactly(binding, p, gc, now);
    CasKeepsInv(binding, p, input, now);
    var (b, t, r) := Cas(binding, p, input, now);
    if r.Ok? {
      ReplacedIsOrphan(binding, p, input, gc.versionId, now);
      BeginGcExactly(b, t, gc, now);
    }
  }

  lemma DeletedIsBound(binding: Option<string>, p: Project, v: string)
    requires ProjectInv(binding, p) && DeletedAt(p, v)
    ensures v in p.versions && p.versions[v].status == Orphan && binding == Some(p.pointer.value.workspaceId)
  {
  }

  lemma ReplacedIsOrphan(binding: Option<string>, p: Project, input: CasInput, v: string, now: nat)
    requires ProjectInv(binding, p) && DeletedAt(p, v) && Cas(binding, p, input, now).2.Ok?
    ensures var (b, t, _) := Cas(binding, p, input, now);
            && v in p.versions && v in t.versions && t.versions[v].status == Orphan && t.versions[v].createdAt == p.versions[v].createdAt
            && !Names(t, v) && t.gcs == p.gcs && t.pointer.Some? && b == Some(t.pointer.value.workspaceId)
  {
  }

  // ----- Versions pending collection -----

  ghost predicate Collects(op: Op, v: string)
  {
    op.FinishGcOp? && op.finish.deleted && op.finish.versionId == v
  }

  lemma PendingRecordIsKept(binding: Option<string>, p: Project, op: Op, v: string)
    requires v in p.versions && p.versions[v].status == GcPending && PointerBacked(p)
    ensures var t := OnProject(binding, p, op).1;
            if v in t.versions then t.versions[v] == p.versions[v] else Collects(op, v)
  {
    match op
    case BindOp(_) =>
    case PrepareOp(input, now) =>
    case BeginGcOp(input, now) =>
    case FinishGcOp(input) =>
    case CasOp(input, now) =>
    case TombstoneOp(input, now) =>
  }

  /** A pending version is named by no pointer, and only a completed collection touches its record. */
  lemma PendingIsOutOfReach(binding: Option<string>, p: Project, op: Op, v: string)
    requires ProjectInv(binding, p) && v in p.versions && p.versions[v].status == GcPending
    ensures !Names(p, v) && Tracked(p, v)
    ensures var t := OnProject(binding, p, op).1;
            if v in t.versions then t.versions[v] == p.versions[v] && !Names(t, v) else Collects(op, v)
  {
    PendingRecordIsKept(binding, p, op, v);
    OnProjectKeepsInv(binding, p, op);
    UnnamedWhilePending(binding, p, v);
    var (b, t) := OnProject(binding, p, op);
    if v in t.versions {
      UnnamedWhilePending(b, t, v);
    }
  }

  lemma UnnamedWhilePending(binding: Option<string>, p: Project, v: string)
    requires ProjectInv(binding, p) && v in p.versions && p.versions[v].status == GcPending
    ensures !Names(p, v) && Tracked(p, v)
  {
  }

  // ----- Tombstone operations are answered the same for ever -----

  lemma TombstoneIsKept(binding: Option<string>, p: Project, op: Op, k: string)
    requires k in p.tombstones
    ensures var t := OnProject(binding, p, op).1;
            k in t.tombstones && t.tombstones[k] == p.tombstones[k]
  {
  }

  lemma ApplyKeepsTombstone(s: State, op: Op, id: string, k: string)
    requires Inv(s) && k in ProjectOf(s, id).tombstones
    ensures var t := ProjectOf(Apply(s, op), id);
            k in t.tombstones && t.tombstones[k] == ProjectOf(s, id).tombstones[k]
    ensures Apply(s, op).binding == s.binding
  {
    hide Inv, OnProject, ValidOp;
    ApplyKeepsInv(s, op);
    TombstonedIsBound(s, id, k);
    if Target(op) == id {
      TombstoneIsKept(s.binding, ProjectOf(s, id), op, k);
    }
  }

  lemma {:induction false} TombstonesPersist(s: State, ops: seq<Op>, id: string, k: string)
    requires Inv(s) && k in ProjectOf(s, id).tombstones
    ensures var t := ProjectOf(Run(s, ops), id);
            k in t.tombstones && t.tombstones[k] == ProjectOf(s, id).tombstones[k]
    ensures Run(s, ops).binding == s.binding
    decreases |ops|
  {
    if ops != [] {
      TombstonesPersist(s, ops[..|ops| - 1], id, k);
      RunKeepsInv(s, ops[..|ops| - 1]);
      ApplyKeepsTombstone(Run(s, ops[..|ops| - 1]), ops[|ops| - 1], id, k);
    }
  }

  lemma TombstonedIsBound(s: State, id: string, k: string)
    requires Inv(s) && k in ProjectOf(s, id).tombstones
    ensures s.binding.Some?
  {
  }

  lemma TombstoneSettles(binding: Option<string>, p: Project, input: TombstoneInput, now: nat)
    requires Tombstone(binding, p, input, now).1.Ok? && TombstonesLogged(binding, p)
    ensures var (t, r) := Tombstone(binding, p, input, now);
            && input.operationId in t.tombstones
            && t.tombstones[input.operationId].input == input
            && t.tombstones[input.operationId].snapshot == r.value
  {
  }

  lemma LoggedTombstoneAnswers(binding: Option<string>, p: Project, input: TombstoneInput, later: nat)
    requires TombstonesLogged(binding, p) && input.operationId in p.tombstones
    requires p.tombstones[input.operationId].input == input
    ensures Tombstone(binding, p, input, later) == (p, Ok(p.tombstones[input.operationId].snapshot))
  {
  }

  ghost function AfterTombstone(s: State, input: TombstoneInput, now: nat): State
  {
    Apply(s, TombstoneOp(input, now))
  }

  lemma AfterTombstoneSettles(s: State, input: TombstoneInput, now: nat)
    requires Inv(s) && ValidTombstoneInput(input)
    requires Tombstone(s.binding, ProjectOf(s, input.projectId), input, now).1.Ok?
    ensures var first := Tombstone(s.binding, ProjectOf(s, input.projectId), input, now).1;
            var p := ProjectOf(AfterTombstone(s, input, now), input.projectId);
            && Inv(AfterTombstone(s, input, now))
            && input.operationId in p.tombstones
            && p.tombstones[input.operationId].input == input
            && p.tombstones[input.operationId].snapshot == first.value
  {
    hide Tombstone;
    TombstoneSettles(s.binding, ProjectOf(s, input.projectId), input, now);
    ApplyKeepsInv(s, TombstoneOp(input, now));
  }

  lemma LoggedTombstoneHolds(u: State, input: TombstoneInput, later: nat)
    requires Inv(u) && input.operationId in ProjectOf(u, input.projectId).tombstones
    requires ProjectOf(u, input.projectId).tombstones[input.operationId].input == input
    ensures var p := ProjectOf(u, input.projectId);
            Tombstone(u.binding, p, input, later) == (p, Ok(p.tombstones[input.operationId].snapshot))
    ensures Apply(u, TombstoneOp(input, later)) == u
  {
    hide Tombstone;
    LoggedTombstoneAnswers(u.binding, ProjectOf(u, input.projectId), input, later);
  }

  /** Main result: whatever ran in between, a tombstone replay returns the first receipt and changes nothing. */
  lemma TombstoneReplay(s: State, input: TombstoneInput, now: nat, ops: seq<Op>, later: nat)
    requires Inv(s) && ValidTombstoneInput(input)
    requires Tombstone(s.binding, ProjectOf(s, input.projectId), input, now).1.Ok?
    ensures var first := Tombstone(s.binding, ProjectOf(s, input.projectId), input, now).1;
            var u := Run(AfterTombstone(s, input, now), ops);
            Tombstone(u.binding, ProjectOf(u, input.projectId), input, later) == (ProjectOf(u, input.projectId), first)
            && Apply(u, TombstoneOp(input, later)) == u
  {
    hide Tombstone, Apply, Run, ProjectOf, AfterTombstone, ProjectInv;
    var s1 := AfterTombstone(s, input, now);
    AfterTombstoneSettles(s, input, now);
    TombstonesPersist(s1, ops, input.projectId, input.operationId);
    RunKeepsInv(s1, ops);
    var u := Run(s1, ops);
    LoggedTombstoneHolds(u, input, later);
  }
}
