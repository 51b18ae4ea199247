/**
 * The durable state of a workspace coordinator: per project, one pointer, the version
 * records, and the prepare, garbage-collection and tombstone operations, each keyed as in
 * storage; plus the workspace binding shared by all projects. Project ids contain no ':',
 * so listing the keys under `project-version:<id>:` yields one project's records exactly,
 * and the flat key space is a map from project id to `Project`.
 */
module CoordinatorState {
  import opened Common
  import opened Shapes

  const CAPACITY := 256
  const MAX_EXPECTED := 2147483648
  const MAX_VERSION_BYTES := 128 * 1024 * 1024

  datatype PointerState = Live | Deleted

  datatype Pointer = Pointer(
    workspaceId: string, pointerVersion: nat, state: PointerState,
    versionId: string, objectKey: string, plaintextFingerprint: string, updatedAt: nat)

  datatype VersionStatus = Prepared | Active | Orphan | GcPending

  /** What a version is: the bytes it names and where they are kept. */
  datatype Identity = Identity(workspaceId: string, objectKey: string, plaintextFingerprint: string)

  datatype VersionRecord = VersionRecord(
    operationId: string, inputFingerprint: string, id: Identity, expectedPointerVersion: nat,
    byteSize: nat, status: VersionStatus, createdAt: nat, pointerVersion: nat)

  datatype PrepareStatus = Fresh | Replayed

  datatype PrepareReceipt = PrepareReceipt(
    operationId: string, inputFingerprint: string, id: Identity, expectedPointerVersion: nat,
    versionId: string, byteSize: nat, status: PrepareStatus)

  datatype PrepareOperation = PrepareOperation(receipt: PrepareReceipt, createdAt: nat)

  datatype GcReceipt = GcReceipt(
    operationId: string, versionId: string, id: Identity, byteSize: nat, pointerVersion: nat, completed: bool)

  datatype GcOperation = GcOperation(retentionBefore: nat, receipt: GcReceipt, createdAt: nat)

  datatype TombstoneOperation = TombstoneOperation(input: TombstoneInput, snapshot: Pointer, createdAt: nat)

  datatype Project = Project(
    pointer: Option<Pointer>,
    versions: map<string, VersionRecord>,
    prepares: map<string, PrepareOperation>,
    gcs: map<string, GcOperation>,
    tombstones: map<string, TombstoneOperation>)

  const EMPTY_PROJECT := Project(None, map[], map[], map[], map[])

  datatype State = State(binding: Option<string>, projects: map<string, Project>)

  const EMPTY_STATE := State(None, map[])

  function ProjectOf(s: State, projectId: string): Project
  {
    if projectId in s.projects then s.projects[projectId] else EMPTY_PROJECT
  }

  function WithProject(s: State, projectId: string, p: Project): State
  {
    if p == ProjectOf(s, projectId) then s else s.(projects := s.projects[projectId := p])
  }

  // ----- Inputs and errors -----

  datatype PrepareInput = PrepareInput(
    operationId: string, inputFingerprint: string, id: Identity, projectId: string,
    expectedPointerVersion: nat, versionId: string, byteSize: nat)

  datatype GcInput = GcInput(projectId: string, versionId: string, operationId: string, retentionBefore: nat)

  datatype GcFinishInput = GcFinishInput(projectId: string, versionId: string, operationId: string, deleted: bool)

  datatype CasInput = CasInput(projectId: string, expectedPointerVersion: nat, versionId: string, id: Identity)

  datatype TombstoneInput = TombstoneInput(
    projectId: string, expectedPointerVersion: nat, operationId: string, reason: string)

  datatype Error =
    | InvalidInput
    | BindingMissing
    | BindingConflict
    | OperationConflict
    | PointerConflict
    | VersionGcPending
    | VersionConflict
    | VersionRequired
    | VersionRecordInvalid
    | Capacity
    | GcNotFound
    | GcNotEligible
    | GcRetention
    | GcOperationMissing
    | GcReferenceConflict

  // ----- Well-formed inputs -----

  predicate ValidPrepareInput(input: PrepareInput)
  {
    && BoundedId(input.operationId) && Fingerprint(input.inputFingerprint)
    && BoundedId(input.id.workspaceId) && BoundedProjectId(input.projectId)
    && input.expectedPointerVersion <= MAX_SAFE && Fingerprint(input.versionId)
    && BoundedText(input.id.objectKey, 512) && Fingerprint(input.id.plaintextFingerprint)
    && 0 < input.byteSize <= MAX_VERSION_BYTES
  }

  predicate ValidGcInput(projectId: string, versionId: string, operationId: string)
  {
    BoundedProjectId(projectId) && Fingerprint(versionId) && BoundedId(operationId)
  }

  predicate ValidCasInput(input: CasInput)
  {
    && BoundedProjectId(input.projectId) && input.expectedPointerVersion <= MAX_EXPECTED
    && BoundedId(input.id.workspaceId) && BoundedText(input.versionId, 512)
    && BoundedText(input.id.objectKey, 512) && BoundedText(input.id.plaintextFingerprint, 512)
  }

  predicate ValidTombstoneInput(input: TombstoneInput)
  {
    && BoundedProjectId(input.projectId) && input.expectedPointerVersion <= MAX_EXPECTED
    && BoundedText(input.reason, 256) && BoundedId(input.operationId)
  }
}
