/**
 The record store as its readers see it: what each load, list and save decides on a
 state root, and what holds of every root reached by any run of saves
 (`src/state/mod.rs`). Files are whole here; `DurableFiles` shows why that is enough.
 */
module RecordStore {
  import opened Prelude
  import opened FileNames
  import opened Records

  /** A record file: parseable JSON of its kind, or anything else. */
  datatype File<T> = Json(value: T) | Garbage

  /** The `.json` files of a state root by file stem; artifact manifests by cell and operation directory. */
  datatype Root = Root(
    cells: map<string, File<CellRecord>>,
    operations: map<string, File<OperationRecord>>,
    artifacts: map<(string, string), File<ArtifactRecord>>,
    images: map<string, File<ImageRecord>>)

  const EMPTY := Root(map[], map[], map[], map[])

  // ----- Cells -----------------------------------------------------------

  predicate CellsReadable(root: Root) {
    forall s :: s in root.cells ==> root.cells[s].Json? && ValidateCellSchema(s, root.cells[s].value).None?
  }

  function CellMap(root: Root): map<string, CellRecord>
    requires CellsReadable(root)
  {
    map s | s in root.cells :: root.cells[s].value
  }

  predicate JobIdsUnique(cells: map<string, CellRecord>) {
    forall a, b :: a in cells && b in cells && a != b && cells[a].job.Some? && cells[b].job.Some? ==>
      cells[a].job.value.jobId != cells[b].job.value.jobId
  }

  /** `validate_unique_cell_job_id`: the stored cells with `record` in the place of its own file. */
  function CheckUniqueJobId(root: Root, record: CellRecord): Option<StateError> {
    if !CellsReadable(root) then Some(DirectoryRefused)
    else if !JobIdsUnique(CellMap(root)[record.id := record]) then Some(JobCorrelationIntegrity)
    else None
  }

  function LoadCell(root: Root, id: Uuid): Result<CellRecord, StateError> {
    if id !in root.cells then Err(NotFound)
    else if root.cells[id].Garbage? then Err(InvalidJson)
    else
      var stored := root.cells[id].value;
      var invalid := ValidateCellSchema(id, stored);
      var record := RedactCellDiagnostic(stored);
      var duplicate := CheckUniqueJobId(root, record);
      if invalid.Some? then Err(invalid.value)
      else if duplicate.Some? then Err(duplicate.value)
      else Ok(record)
  }

  function ListCells(root: Root): Result<map<string, CellRecord>, StateError> {
    if !CellsReadable(root) then Err(DirectoryRefused)
    else if !JobIdsUnique(CellMap(root)) then Err(JobCorrelationIntegrity)
    else Ok(map s | s in root.cells :: RedactCellDiagnostic(root.cells[s].value))
  }

  // ----- Guest operations ------------------------------------------------

  /** Binding check of a read: a legacy operation may have lost its cell. */
  function CheckParentForRead(root: Root, r: OperationRecord): Option<StateError> {
    match LoadCell(root, r.cellId)
    case Ok(cell) => if OperationBound(cell, r) then None else Some(JobCorrelationIntegrity)
    case Err(NotFound) => if r.jobId.None? then None else Some(JobCorrelationIntegrity)
    case Err(e) => Some(e)
  }

  /** Binding check of a write: the cell must be there. */
  function CheckParentForWrite(root: Root, r: OperationRecord): Option<StateError> {
    match LoadCell(root, r.cellId)
    case Ok(cell) => if OperationBound(cell, r) then None else Some(JobCorrelationIntegrity)
    case Err(NotFound) => Some(JobCorrelationIntegrity)
    case Err(e) => Some(e)
  }

  function LoadOperation(root: Root, id: Uuid): Result<OperationRecord, StateError> {
    if id !in root.operations then Err(NotFound)
    else if root.operations[id].Garbage? then Err(InvalidJson)
    else
      var r := root.operations[id].value;
      var invalid := ValidateOperationSchema(id, r);
      var unbound := CheckParentForRead(root, r);
      if invalid.Some? then Err(invalid.value)
      else if unbound.Some? then Err(unbound.value)
      else Ok(r)
  }

  predicate OperationsReadable(root: Root) {
    forall s :: s in root.operations ==>
      root.operations[s].Json? && ValidateOperationSchema(s, root.operations[s].value).None?
  }

  function ListOperations(root: Root): Result<map<string, OperationRecord>, StateError> {
    if !OperationsReadable(root) then Err(DirectoryRefused)
    else if exists s :: s in root.operations && CheckParentForRead(root, root.operations[s].value).Some?
      then Err(DirectoryRefused)
    else Ok(map s | s in root.operations :: root.operations[s].value)
  }

  // ----- Artifacts -------------------------------------------------------

  function LoadArtifact(root: Root, cellId: Uuid, operationId: Uuid,
                        filesValid: bool): Result<ArtifactRecord, StateError> {
    if (cellId, operationId) !in root.artifacts then Err(NotFound)
    else if root.artifacts[(cellId, operationId)].Garbage? then Err(InvalidJson)
    else
      var r := root.artifacts[(cellId, operationId)].value;
      var operation := LoadOperation(root, operationId);
      if ValidateArtifactSchema(r).Some? then Err(ValidateArtifactSchema(r).value)
      else if r.id != operationId || r.cellId != cellId then Err(IdentityMismatch)
      else if operation.Err? then Err(operation.error)
      else if !ArtifactBound(operation.value, r) then Err(JobCorrelationIntegrity)
      else if !filesValid then Err(ArtifactIntegrity)
      else Ok(r)
  }

  // ----- Compatibility check ---------------------------------------------

  predicate ImagesReadable(root: Root) {
    forall s :: s in root.images ==> root.images[s].Json? && ValidateImageSchema(s, root.images[s].value).None?
  }

  /** The batch check over listed cells and operations (`validate_job_operation_bindings`). */
  predicate BatchBound(cells: map<string, CellRecord>, operations: map<string, OperationRecord>) {
    forall s :: s in operations ==>
      var r := operations[s];
      if r.cellId in cells then OperationBound(cells[r.cellId], r) else r.jobId.None?
  }

  predicate HoldsArtifact(r: OperationRecord) { r.artifactId == Some(r.id) && r.artifactPrunedAt.None? }

  /** Every artifact an operation still claims loads and is bound; `filesValid` is the content verdict. */
  predicate ArtifactsLoad(root: Root, operations: map<string, OperationRecord>, filesValid: set<Uuid>) {
    forall s :: s in operations && HoldsArtifact(operations[s]) ==>
      LoadArtifact(root, operations[s].cellId, operations[s].id, operations[s].id in filesValid).Ok?
  }

  /** The root passes `check_compatibility`; the installation record is taken to be valid or absent. */
  predicate Compatible(root: Root, filesValid: set<Uuid>) {
    && ImagesReadable(root)
    && ListCells(root).Ok?
    && ListOperations(root).Ok?
    && BatchBound(ListCells(root).value, ListOperations(root).value)
    && ArtifactsLoad(root, ListOperations(root).value, filesValid)
  }

  /** `v` is a schema version found in an active record of an accepted root. */
  ghost predicate Active(root: Root, filesValid: set<Uuid>, v: nat)
    requires Compatible(root, filesValid)
  {
    var cells, operations := ListCells(root).value, ListOperations(root).value;
    || (exists s :: s in cells && cells[s].schemaVersion == v)
    || (exists s :: s in operations && operations[s].schemaVersion == v)
    || (exists s :: s in operations && HoldsArtifact(operations[s])
                    && LoadArtifact(root, operations[s].cellId, operations[s].id,
                       operations[s].id in filesValid).value.schemaVersion == v)
  }

  /** The reported durable format: the greatest active schema version, or 1 when there is none. */
  ghost predicate Reported(root: Root, filesValid: set<Uuid>, format: nat)
    requires Compatible(root, filesValid)
  {
    && (Active(root, filesValid, format) || (format == 1 && forall v: nat :: !Active(root, filesValid, v)))
    && forall v: nat :: Active(root, filesValid, v) ==> v <= format
  }

  // ----- Changes ---------------------------------------------------------

  /** One durable change asked of the store. `filesValid` is the verdict of the
      content check (names, sizes, digests) on the artifact's files. */
  datatype Change =
    | PutCell(cell: CellRecord)
    | PutOperation(operation: OperationRecord)
    | PutArtifact(artifact: ArtifactRecord, filesValid: bool)
    | PutImage(image: ImageRecord)
    | DropImage(imageId: ImageId)
    | DropArtifact(cellId: Uuid, operationId: Uuid)

  function AdmitCell(root: Root, cell: CellRecord): Option<StateError> {
    var record := RedactCellDiagnostic(cell);
    var invalid := ValidateCellSchema(cell.id, record);
    var existing := LoadCell(root, cell.id);
    if invalid.Some? then invalid
    else if existing.Ok? && existing.value.job != record.job then Some(JobCorrelationIntegrity)
    else if existing.Err? && existing.error != NotFound then Some(existing.error)
    else CheckUniqueJobId(root, record)
  }

  function AdmitOperation(root: Root, r: OperationRecord): Option<StateError> {
    var invalid := ValidateOperationSchema(r.id, r);
    var existing := LoadOperation(root, r.id);
    if invalid.Some? then invalid
    else if existing.Ok? && existing.value.jobId != r.jobId then Some(JobCorrelationIntegrity)
    else if existing.Err? && existing.error != NotFound then Some(existing.error)
    else CheckParentForWrite(root, r)
  }

  function AdmitArtifact(root: Root, r: ArtifactRecord, filesValid: bool): Option<StateError> {
    var operation := LoadOperation(root, r.id);
    if ValidateArtifactSchema(r).Some? then ValidateArtifactSchema(r)
    else if operation.Err? then Some(operation.error)
    else if CheckParentForWrite(root, operation.value).Some? then CheckParentForWrite(root, operation.value)
    else if !ArtifactBound(operation.value, r) then Some(JobCorrelationIntegrity)
    else if !EntriesBelow(r) then Some(UnsafeRuntimePath)
    else if !filesValid then Some(ArtifactIntegrity)
    else if (r.cellId, r.id) in root.artifacts then Some(AlreadyExists)
    else None
  }

  /** `None` when every check before the write passes. */
  function Admit(root: Root, change: Change): Option<StateError> {
    match change
    case PutCell(cell) => AdmitCell(root, cell)
    case PutOperation(r) => AdmitOperation(root, r)
    case PutArtifact(r, filesValid) => AdmitArtifact(root, r, filesValid)
    case PutImage(r) =>
      if ValidateImageSchema(r.id, r).Some? then ValidateImageSchema(r.id, r)
      else if r.id in root.images then Some(AlreadyExists)
      else None
    case DropImage(id) =>
      if id !in root.images then Some(NotFound)
      else if root.images[id].Garbage? then Some(InvalidJson)
      else ValidateImageSchema(id, root.images[id].value)
    case DropArtifact(_, _) => None
  }

  /** What the write does. */
  function Apply(root: Root, change: Change): Root {
    match change
    case PutCell(cell) => root.(cells := root.cells[cell.id := Json(RedactCellDiagnostic(cell))])
    case PutOperation(r) => root.(operations := root.operations[r.id := Json(r)])
    case PutArtifact(r, _) => root.(artifacts := root.artifacts[(r.cellId, r.id) := Json(r)])
    case PutImage(r) => root.(images := root.images[r.id := Json(r)])
    case DropImage(id) => root.(images := root.images - {id})
    case DropArtifact(c, o) => root.(artifacts := root.artifacts - {(c, o)})
  }

  /** The root after a history of changes, starting empty. */
  function Replay(history: seq<Change>): Root {
    if history == [] then EMPTY else Apply(Replay(history[..|history| - 1]), history[|history| - 1])
  }

  /** Every change passed its checks on the root it met. */
  predicate Lawful(history: seq<Change>) {
    history == [] ||
    (Lawful(history[..|history| - 1]) && Admit(Replay(history[..|history| - 1]), history[|history| - 1]).None?)
  }

  // ----- The invariant ---------------------------------------------------

  ghost predicate CellsInOrder(root: Root) {
    && CellsReadable(root)
    && JobIdsUnique(CellMap(root))
    && forall s :: s in root.cells ==> RedactCellDiagnostic(root.cells[s].value) == root.cells[s].value
  }

  /** Every operation is readable and has its parent cell, with the same job when it has one. */
  ghost predicate OperationsInOrder(root: Root)
    requires CellsReadable(root)
  {
    && OperationsReadable(root)
    && forall s :: s in root.operations ==>
         var r := root.operations[s].value;
         r.cellId in root.cells && OperationBound(root.cells[r.cellId].value, r)
  }

  /** A correlated artifact lies where it says and is bound to its operation. */
  ghost predicate ArtifactsInOrder(root: Root)
    requires OperationsReadable(root)
  {
    forall k :: k in root.artifacts ==>
      && root.artifacts[k].Json?
      && var a := root.artifacts[k].value;
         && ValidateArtifactSchema(a).None? && a.cellId == k.0 && a.id == k.1
         && k.1 in root.operations
         && root.operations[k.1].value.jobId == a.jobId
         && (a.jobId.Some? ==> root.operations[k.1].value.cellId == a.cellId)
  }

  ghost predicate Invariant(root: Root) {
    CellsInOrder(root) && OperationsInOrder(root) && ArtifactsInOrder(root)
  }

  // ----- Loads under the invariant ---------------------------------------

  lemma UniqueAgain(root: Root, id: Uuid)
    requires CellsInOrder(root) && id in root.cells
    ensures CheckUniqueJobId(root, root.cells[id].value).None?
  {
    hide ValidateCellSchema;
    var m := CellMap(root);
    assert root.cells[id].value.id == id by {
      ValidCellIdentity(id, root.cells[id].value);
    }
    assert m[id := root.cells[id].value] == m;
  }

  lemma ValidCellIdentity(stem: string, r: CellRecord)
    requires ValidateCellSchema(stem, r).None?
    ensures r.id == stem && (r.schemaVersion == 2 <==> r.job.Some?)
  {
  }

  lemma ValidOperationIdentity(stem: string, r: OperationRecord)
    requires ValidateOperationSchema(stem, r).None?
    ensures r.id == stem && (r.schemaVersion == 2 <==> r.jobId.Some?)
  {
    hide PhaseFieldsValid, TimesValid;
  }

  /** Nothing stored is refused: each load returns the stored record, or says it is not there. */
  lemma LoadsReturnStored(root: Root, id: Uuid)
    requires Invariant(root)
    ensures LoadCell(root, id) == if id in root.cells then Ok(root.cells[id].value) else Err(NotFound)
    ensures LoadOperation(root, id) == if id in root.operations then Ok(root.operations[id].value) else Err(NotFound)
  {
    CellLoads(root, id);
    if id in root.operations {
      CellLoads(root, root.operations[id].value.cellId);
    }
    hide LoadCell, ValidateOperationSchema, ValidateCellSchema, JobIdsUnique, ArtifactsInOrder;
  }

  lemma CellLoads(root: Root, id: Uuid)
    requires CellsInOrder(root)
    ensures LoadCell(root, id) == if id in root.cells then Ok(root.cells[id].value) else Err(NotFound)
  {
    hide ValidateCellSchema, CheckUniqueJobId, RedactCellDiagnostic, JobIdsUnique;
    if id in root.cells {
      UniqueAgain(root, id);
    }
  }

  /** Listing returns every stored record. */
  lemma ListsReturnAll(root: Root)
    requires Invariant(root)
    ensures ListCells(root) == Ok(CellMap(root))
    ensures ListOperations(root) == Ok(map s | s in root.operations :: root.operations[s].value)
  {
    hide ValidateCellSchema, ValidateOperationSchema, RedactCellDiagnostic, JobIdsUnique, ArtifactsInOrder;
    forall s | s in root.operations
      ensures CheckParentForRead(root, root.operations[s].value).None?
    {
      CellLoads(root, root.operations[s].value.cellId);
      hide LoadCell;
    }
    assert ListCells(root).Ok?;
    assert ListCells(root).value == CellMap(root);
  }
}
