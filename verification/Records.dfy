/** Durable records and the checks made on one record (`src/core/{cell,guest,job}.rs`, `src/state/mod.rs`). */
module Records {
  import opened Prelude
  import opened FileNames

  datatype StateError =
    | NotFound
    | AlreadyExists
    | InvalidJson
    | UnsupportedSchema
    | IdentityMismatch
    | JobCorrelationIntegrity
    | GuestOperationIntegrity
    | ArtifactIntegrity
    | DirectoryRefused
    | UnsafeRuntimePath
    | Io

  // ----- Jobs and cells --------------------------------------------------

  datatype JobCorrelation = JobCorrelation(jobId: Uuid, jobSpecSha256: string, startedAt: int)

  /** `body` stands for the fields the store never looks at. */
  datatype CellRecord = CellRecord(
    schemaVersion: nat, id: Uuid, ownershipSchema: nat, lastError: Option<string>, job: Option<JobCorrelation>,
      body: string)

  function JobIdOf(cell: CellRecord): Option<Uuid> {
    if cell.job.Some? then Some(cell.job.value.jobId) else None
  }

  predicate IsLowercaseSha256(s: string) {
    |s| == 64 && forall i :: 0 <= i < |s| ==> IsHex(s[i])
  }

  function ValidateCellSchema(stem: string, r: CellRecord): Option<StateError> {
    if r.schemaVersion !in {1, 2} || r.ownershipSchema != 1 then Some(UnsupportedSchema)
    else if stem != r.id then Some(IdentityMismatch)
    else if (r.schemaVersion == 2) != r.job.Some? then Some(JobCorrelationIntegrity)
    else if r.job.Some? && (r.job.value.jobId == NIL_UUID || !IsLowercaseSha256(r.job.value.jobSpecSha256)) then
      Some(JobCorrelationIntegrity)
    else None
  }

  const REDACTED_LEGACY_ERROR_CODE := "vmcell.legacy.redacted"

  predicate IsCodeCharacter(c: char) { 'a' <= c <= 'z' || '0' <= c <= '9' || c == '.' || c == '_' || c == '-' }

  predicate SafeDiagnostic(code: string) {
    && |code| <= 128
    && StartsWith(code, "vmcell.")
    && forall i :: 0 <= i < |code| ==> IsCodeCharacter(code[i])
  }

  function RedactCellDiagnostic(r: CellRecord): CellRecord {
    if r.lastError.None? || SafeDiagnostic(r.lastError.value) then r
    else r.(lastError := Some(REDACTED_LEGACY_ERROR_CODE))
  }

  /** The replacement code is itself safe, so redaction is done once. */
  lemma RedactionIdempotent(r: CellRecord)
    ensures RedactCellDiagnostic(RedactCellDiagnostic(r)) == RedactCellDiagnostic(r)
    ensures RedactCellDiagnostic(r).lastError.Some? ==> SafeDiagnostic(RedactCellDiagnostic(r).lastError.value)
    ensures exists e :: RedactCellDiagnostic(r) == r.(lastError := e)
  {
    var code := REDACTED_LEGACY_ERROR_CODE;
    assert code[..7] == "vmcell.";
    assert SafeDiagnostic(code);
  }

  // ----- Guest operations ------------------------------------------------

  datatype OperationKind = Exec | CopyIn | CopyOut | ArtifactCollect
  datatype OperationPhase = IntentRecorded | TransportActive | ArtifactCommitted | Completed | Failed
  datatype FailureClass =
    | Interrupted | GuestNotReady | Authentication | Session | Timeout | OutputLimit | InvalidEncoding
    | PathViolation | PartialCopy | OwnershipChanged | Unknown

  datatype OperationRecord = OperationRecord(
    schemaVersion: nat,
    id: Uuid,
    cellId: Uuid,
    kind: OperationKind,
    phase: OperationPhase,
    createdAt: int,
    updatedAt: int,
    completedAt: Option<int>,
    failure: Option<FailureClass>,
    exitCode: Option<int>,
    stdoutBytes: Option<nat>,
    stderrBytes: Option<nat>,
    artifactId: Option<Uuid>,
    artifactPrunedAt: Option<int>,
    jobId: Option<Uuid>)

  predicate NoExecResult(r: OperationRecord) {
    r.exitCode.None? && r.stdoutBytes.None? && r.stderrBytes.None?
  }

  predicate PhaseFieldsValid(r: OperationRecord) {
    var producesArtifact := r.kind.CopyOut? || r.kind.ArtifactCollect?;
    match r.phase
    case IntentRecorded =>
      r.completedAt.None? && r.failure.None? && r.artifactId.None? && r.artifactPrunedAt.None? && NoExecResult(r)
    case TransportActive =>
      r.completedAt.None? && r.artifactId.None? && r.artifactPrunedAt.None? && NoExecResult(r)
    case ArtifactCommitted =>
      r.completedAt.None? && r.failure.None? && r.artifactId == Some(r.id) && producesArtifact
      && r.artifactPrunedAt.None? && NoExecResult(r)
    case Completed =>
      && r.completedAt.Some? && r.failure.None?
      && (r.artifactId.Some? ==> r.artifactId.value == r.id && producesArtifact)
      && (r.artifactPrunedAt.Some? ==> r.artifactId == Some(r.id) && producesArtifact && NoExecResult(r))
    case Failed =>
      && r.completedAt.Some? && r.failure.Some? && !r.failure.value.Unknown?
      && r.artifactId.None? && r.artifactPrunedAt.None? && NoExecResult(r)
  }

  predicate TimesValid(r: OperationRecord) {
    && r.createdAt <= r.updatedAt
    && (r.completedAt.Some? ==> r.createdAt <= r.completedAt.value)
    && (if r.artifactPrunedAt.Some?
        then r.completedAt.Some? && r.completedAt.value <= r.artifactPrunedAt.value
          && r.artifactPrunedAt.value == r.updatedAt
        else r.completedAt.Some? ==> r.completedAt.value == r.updatedAt)
  }

  function ValidateOperationSchema(stem: string, r: OperationRecord): Option<StateError> {
    if r.schemaVersion !in {1, 2} then Some(UnsupportedSchema)
    else if stem != r.id then Some(IdentityMismatch)
    else if (r.schemaVersion == 2) != r.jobId.Some? then Some(JobCorrelationIntegrity)
    else if !PhaseFieldsValid(r) || !TimesValid(r) then Some(GuestOperationIntegrity)
    else None
  }

  /** An operation with a job id runs in the cell that carries this job. */
  predicate OperationBound(cell: CellRecord, r: OperationRecord) {
    r.jobId.Some? ==> JobIdOf(cell) == r.jobId
  }

  // ----- Artifacts -------------------------------------------------------

  const MAX_ARTIFACT_FILES := 16
  const MAX_ARTIFACT_FILE_BYTES := 64 * 1024 * 1024
  const MAX_ARTIFACT_TOTAL_BYTES := 1024 * 1024 * 1024

  datatype ArtifactEntry = ArtifactEntry(guestPath: string, hostRelativePath: string, sha256: string, size: nat)
  datatype ArtifactRecord = ArtifactRecord(
    schemaVersion: nat, id: Uuid, cellId: Uuid, createdAt: int, entries: seq<ArtifactEntry>, jobId: Option<Uuid>)

  function TotalSize(entries: seq<ArtifactEntry>): nat {
    if entries == [] then 0 else entries[0].size + TotalSize(entries[1..])
  }

  function ValidateArtifactSchema(r: ArtifactRecord): Option<StateError> {
    if r.schemaVersion !in {1, 2} then Some(UnsupportedSchema)
    else if (r.schemaVersion == 2) != r.jobId.Some? then Some(JobCorrelationIntegrity)
    else if r.entries == [] || |r.entries| > MAX_ARTIFACT_FILES
            || (exists i :: 0 <= i < |r.entries| && r.entries[i].size > MAX_ARTIFACT_FILE_BYTES)
            || TotalSize(r.entries) > MAX_ARTIFACT_TOTAL_BYTES then Some(ArtifactIntegrity)
    else None
  }

  /** Every entry names a file directly below the artifact's own `files` directory. */
  predicate EntriesBelow(r: ArtifactRecord) {
    var prefix := "artifacts/" + r.cellId + "/" + r.id + "/files/";
    forall i :: 0 <= i < |r.entries| ==>
      StartsWith(r.entries[i].hostRelativePath, prefix) && '/' !in r.entries[i].hostRelativePath[|prefix|..]
  }

  predicate ArtifactBound(operation: OperationRecord, artifact: ArtifactRecord) {
    artifact.cellId == operation.cellId && artifact.jobId == operation.jobId
  }

  // ----- Images ----------------------------------------------------------

  predicate IsImageId(s: string) {
    && 0 < |s| <= 128
    && (forall i :: 0 <= i < |s| ==>
          'a' <= s[i] <= 'z' || 'A' <= s[i] <= 'Z' || '0' <= s[i] <= '9' || s[i] == '-' || s[i] == '_' || s[i] == '.')
    && s != "." && s != ".."
  }

  type ImageId = s: string | IsImageId(s) witness "image"

  datatype ImageRecord = ImageRecord(schemaVersion: nat, id: ImageId, body: string)

  function ValidateImageSchema(stem: string, r: ImageRecord): Option<StateError> {
    if r.schemaVersion != 1 then Some(UnsupportedSchema)
    else if stem != r.id then Some(IdentityMismatch)
    else None
  }
}
