/**
 * The upload, read, collection and deletion handlers over the coordinator and the bucket. A handler
 * in flight is the data it has read and the step it takes next; each step is one transaction or one
 * bucket call. Core verification and nonce consumption happen before the first write and are one flag.
 */
module ProjectHandlers {
  import opened Common
  import opened Shapes
  import opened CoordinatorState
  import opened CoordinatorSteps
  import opened CoordinatorInvariant
  import opened ProjectStore

  const RETENTION_MS := 60 * 60 * 1000
  const DELETE_REASON := "explicit_project_delete"

  datatype System = System(coord: State, bucket: Bucket)

  const EMPTY_SYSTEM := System(EMPTY_STATE, map[])

  datatype Request =
    | Upload(projectId: string, operationId: string, bundle: Bytes, keys: Keys, verified: bool)
    | Collect(projectId: string, operationId: string, versionId: string, now: nat)
    | Delete(projectId: string, operationId: string)

  /** A handler between two steps, named by the step it takes next. */
  datatype Flight =
    | Putting(projectId: string, operationId: string, bundle: Bytes, keys: Keys, expected: nat)
    | Comparing(projectId: string, operationId: string, bundle: Bytes, keys: Keys, expected: nat)
    | Preparing(projectId: string, operationId: string, bundle: Bytes, expected: nat)
    | Activating(projectId: string, bundle: Bytes, expected: nat)
    | Beginning(projectId: string, operationId: string, versionId: string, retention: nat)
    | Removing(projectId: string, operationId: string, receipt: GcReceipt)
    | Finishing(projectId: string, operationId: string, versionId: string)
    | Looking(projectId: string, operationId: string, current: Pointer)
    | Marking(projectId: string, operationId: string, current: Pointer)
    | Erasing(projectId: string, captured: Pointer)

  predicate Uploads(f: Flight) { f.Putting? || f.Comparing? || f.Preparing? || f.Activating? }

  // ----- What the steps ask of the coordinator -----

  /** The version an upload expects: the current one, or the one before when the bytes are live already. */
  function ExpectedVersion(p: Project, versionId: string): nat
  {
    if p.pointer.Some? && p.pointer.value.state == Live && p.pointer.value.versionId == versionId
       && p.pointer.value.pointerVersion > 0
    then p.pointer.value.pointerVersion - 1 else PointerVersion(p)
  }

  function VersionIdentity(cfg: Config, projectId: string, versionId: string): Identity
  {
    Identity(cfg.workspaceId, ObjectKey(cfg, projectId, versionId), versionId)
  }

  function UploadPrepare(cfg: Config, projectId: string, operationId: string, bundle: Bytes, expected: nat): PrepareInput
  {
    var v := cfg.contentHash(bundle);
    PrepareInput(operationId, cfg.requestHash(operationId, projectId, expected, v, |bundle|),
                 VersionIdentity(cfg, projectId, v), projectId, expected, v, |bundle|)
  }

  function UploadCas(cfg: Config, projectId: string, bundle: Bytes, expected: nat): CasInput
  {
    var v := cfg.contentHash(bundle);
    CasInput(projectId, expected, v, VersionIdentity(cfg, projectId, v))
  }

  function PrepareReply(s: State, input: PrepareInput, now: nat): Result<PrepareReceipt, Error>
  {
    if ValidPrepareInput(input) then Prepare(s.binding, ProjectOf(s, input.projectId), input, now).1
    else Err(InvalidInput)
  }

  function CasReply(s: State, input: CasInput, now: nat): Result<Pointer, Error>
  {
    if ValidCasInput(input) then Cas(s.binding, ProjectOf(s, input.projectId), input, now).2
    else Err(InvalidInput)
  }

  ghost function BeginGcReply(s: State, input: GcInput, now: nat): Result<GcReceipt, Error>
  {
    if ValidGcInput(input.projectId, input.versionId, input.operationId)
    then BeginGc(s.binding, ProjectOf(s, input.projectId), input, now).1
    else Err(InvalidInput)
  }

  function TombstoneReply(s: State, input: TombstoneInput, now: nat): Result<Pointer, Error>
  {
    if ValidTombstoneInput(input) then Tombstone(s.binding, ProjectOf(s, input.projectId), input, now).1
    else Err(InvalidInput)
  }

  // ----- Starting a handler: its first read -----

  /** Reading a pointer fails when it is not the bound workspace's, or not this deployment's. */
  predicate PointerReadable(cfg: Config, s: State, p: Project)
  {
    p.pointer.Some? ==> s.binding == Some(p.pointer.value.workspaceId) && p.pointer.value.workspaceId == cfg.workspaceId
  }

  /** The retention boundary of a collection: the one it was logged with, or an hour ago. */
  function RetentionFor(p: Project, operationId: string, now: nat): Option<nat>
  {
    if operationId in p.gcs then Some(p.gcs[operationId].retentionBefore)
    else if now < RETENTION_MS then None else Some(now - RETENTION_MS)
  }

  function Begin(cfg: Config, s: State, r: Request): Option<Flight>
  {
    var p := ProjectOf(s, r.projectId);
    if !BoundedProjectId(r.projectId) || !BoundedId(r.operationId) then None
    else
      match r
      case Upload(projectId, operationId, bundle, keys, verified) =>
        if !PointerReadable(cfg, s, p) || !verified then None
        else Some(Putting(projectId, operationId, bundle, keys, ExpectedVersion(p, cfg.contentHash(bundle))))
      case Collect(projectId, operationId, versionId, now) =>
        var retention := RetentionFor(p, operationId, now);
        if !Fingerprint(versionId) || retention.None? then None
        else Some(Beginning(projectId, operationId, versionId, retention.value))
      case Delete(projectId, operationId) =>
        if !PointerReadable(cfg, s, p) || p.pointer.None? then None
        else Some(Looking(projectId, operationId, p.pointer.value))
  }

  // ----- One step of a handler -----

  /** A retried deletion goes on only while the pointer it read is still the tombstone it wrote. */
  predicate StillThatTombstone(current: Pointer, previous: Pointer)
  {
    && current.state == Deleted
    && current.pointerVersion == previous.pointerVersion
    && current.versionId == previous.versionId
    && current.objectKey == previous.objectKey
    && current.plaintextFingerprint == previous.plaintextFingerprint
  }

  function MarkInput(projectId: string, operationId: string, current: Pointer): TombstoneInput
  {
    TombstoneInput(projectId, current.pointerVersion, operationId, DELETE_REASON)
  }

  /** The transaction that a step runs, if it runs one. */
  function Transaction(cfg: Config, f: Flight, now: nat): Option<Op>
  {
    match f
    case Preparing(p, op, bundle, expected) => Some(PrepareOp(UploadPrepare(cfg, p, op, bundle, expected), now))
    case Activating(p, bundle, expected) => Some(CasOp(UploadCas(cfg, p, bundle, expected), now))
    case Beginning(p, op, v, retention) => Some(BeginGcOp(GcInput(p, v, op, retention), now))
    case Finishing(p, op, v) => Some(FinishGcOp(GcFinishInput(p, v, op, true)))
    case Marking(p, op, current) => Some(TombstoneOp(MarkInput(p, op, current), now))
    case _ => None
  }

  /** The key whose object a step removes, if it removes one; the object service may refuse. */
  function Removal(cfg: Config, f: Flight, accepted: bool): Option<string>
  {
    match f
    case Removing(p, op, receipt) =>
      if MayCollect(cfg, p, receipt) && accepted then Some(receipt.id.objectKey) else None
    case Erasing(p, captured) => if MayRead(cfg, p, captured) && accepted then Some(captured.objectKey) else None
    case _ => None
  }

  function BucketAfter(cfg: Config, bucket: Bucket, f: Flight, accepted: bool): Bucket
  {
    var removed := Removal(cfg, f, accepted);
    if removed.Some? then bucket - {removed.value}
    else if f.Putting? && TransportSize(f.bundle) then
      var key := ObjectKey(cfg, f.projectId, cfg.contentHash(f.bundle));
      if key in bucket then bucket else bucket[key := SealedBundle(cfg, f.keys, f.projectId, f.bundle)]
    else bucket
  }

  /** What remains of a handler after a step; none when it is done or failed. */
  ghost function Onward(cfg: Config, s: System, f: Flight, now: nat, accepted: bool): Option<Flight>
  {
    var p := ProjectOf(s.coord, f.projectId);
    match f
    case Putting(id, op, bundle, keys, expected) =>
      if !TransportSize(bundle) then None
      else if ObjectKey(cfg, id, cfg.contentHash(bundle)) in s.bucket then Some(Comparing(id, op, bundle, keys, expected))
      else Some(Preparing(id, op, bundle, expected))
    case Comparing(id, op, bundle, keys, expected) =>
      if Open(cfg, keys, s.bucket, id, cfg.contentHash(bundle)) == Ok(bundle) then Some(Preparing(id, op, bundle, expected))
      else None
    case Preparing(id, op, bundle, expected) =>
      if PrepareReply(s.coord, UploadPrepare(cfg, id, op, bundle, expected), now).Ok?
      then Some(Activating(id, bundle, expected)) else None
    case Activating(_, _, _) => None
    case Beginning(id, op, v, retention) =>
      var reply := BeginGcReply(s.coord, GcInput(id, v, op, retention), now);
      if reply.Ok? && !reply.value.completed then Some(Removing(id, op, reply.value)) else None
    case Removing(id, op, receipt) =>
      if Removal(cfg, f, accepted).Some? then Some(Finishing(id, op, receipt.versionId)) else None
    case Finishing(_, _, _) => None
    case Looking(id, op, current) =>
      if op in p.tombstones then
        var previous := p.tombstones[op].snapshot;
        if s.coord.binding == Some(previous.workspaceId) && previous.workspaceId == cfg.workspaceId
           && StillThatTombstone(current, previous) then Some(Erasing(id, previous)) else None
      else if current.state == Live then Some(Marking(id, op, current)) else None
    case Marking(id, op, current) =>
      if TombstoneReply(s.coord, MarkInput(id, op, current), now).Ok? then Some(Erasing(id, current)) else None
    case Erasing(_, _) => None
  }

  ghost function SystemAfter(cfg: Config, s: System, f: Flight, now: nat, accepted: bool): System
  {
    var op := Transaction(cfg, f, now);
    System(if op.Some? then Apply(s.coord, op.value) else s.coord, BucketAfter(cfg, s.bucket, f, accepted))
  }

  // ----- A handler on its own -----

  /** How many steps a handler has left at most. */
  function StepsLeft(f: Flight): nat
  {
    match f
    case Putting(_, _, _, _, _) => 4
    case Comparing(_, _, _, _, _) => 3
    case Preparing(_, _, _, _) => 2
    case Activating(_, _, _) => 1
    case Beginning(_, _, _, _) => 3
    case Removing(_, _, _) => 2
    case Finishing(_, _, _) => 1
    case Looking(_, _, _) => 3
    case Marking(_, _, _) => 2
    case Erasing(_, _) => 1
  }

  /** The system when a handler runs to its end undisturbed; `clock` is read by the steps left. */
  ghost function Complete(cfg: Config, s: System, f: Option<Flight>, clock: nat -> nat, accepted: bool): System
    decreases if f.Some? then StepsLeft(f.value) else 0
  {
    if f.None? then s
    else
      var now := clock(StepsLeft(f.value));
      Complete(cfg, SystemAfter(cfg, s, f.value, now, accepted), Onward(cfg, s, f.value, now, accepted), clock, accepted)
  }

  // ----- Handlers in flight -----

  datatype World = World(sys: System, flights: map<nat, Flight>)

  const EMPTY_WORLD := World(EMPTY_SYSTEM, map[])

  /** A handler may stop between any two steps and never come back. */
  datatype Event =
    | SignIn
    | Start(h: nat, request: Request)
    | Step(h: nat, now: nat, accepted: bool)
    | Stop(h: nat)

  function Land(flights: map<nat, Flight>, h: nat, f: Option<Flight>): map<nat, Flight>
  {
    if f.Some? then flights[h := f.value] else flights - {h}
  }

  /** An event of no flight, or a start under a number in use, does nothing. */
  ghost function Next(cfg: Config, w: World, e: Event): World
  {
    match e
    case SignIn => w.(sys := w.sys.(coord := Apply(w.sys.coord, BindOp(cfg.workspaceId))))
    case Start(h, request) => if h in w.flights then w else w.(flights := Land(w.flights, h, Begin(cfg, w.sys.coord, request)))
    case Step(h, now, accepted) =>
      if h !in w.flights then w
      else
        var f := w.flights[h];
        World(SystemAfter(cfg, w.sys, f, now, accepted), Land(w.flights, h, Onward(cfg, w.sys, f, now, accepted)))
    case Stop(h) => w.(flights := w.flights - {h})
  }

  ghost function After(cfg: Config, events: seq<Event>): World
    decreases |events|
  {
    if events == [] then EMPTY_WORLD else Next(cfg, After(cfg, events[..|events| - 1]), events[|events| - 1])
  }

  // ----- Reading -----

  predicate LivePointer(p: Project)
  {
    p.pointer.Some? && p.pointer.value.state == Live
  }

  function ReadProject(cfg: Config, keys: Keys, s: System, projectId: string): Result<Bytes, StoreError>
  {
    var p := ProjectOf(s.coord, projectId);
    if !LivePointer(p) || !PointerReadable(cfg, s.coord, p) then Err(PointerInvalid)
    else Read(cfg, keys, s.bucket, projectId, p.pointer.value)
  }
}
