/** What holds of the store over every run of changes, and of every root the compatibility check accepts. */
module RecordStoreTheorems {
  import opened Prelude
  import opened FileNames
  import opened Records
  import opened RecordStore

  // ----- Every change keeps the invariant --------------------------------

  lemma SameCellsInOrder(a: Root, b: Root)
    requires CellsInOrder(a) && a.cells == b.cells
    ensures CellsInOrder(b) && CellMap(b) == CellMap(a)
  {
    hide ValidateCellSchema, RedactCellDiagnostic, JobIdsUnique;
    assert CellsReadable(b);
    assert CellMap(b) == CellMap(a);
  }

  lemma SameArtifactsInOrder(a: Root, b: Root)
    requires OperationsReadable(a) && ArtifactsInOrder(a) && a.operations == b.operations
             && b.artifacts.Items <= a.artifacts.Items
    ensures OperationsReadable(b) && ArtifactsInOrder(b)
  {
    hide ValidateOperationSchema, ValidateArtifactSchema;
    forall k | k in b.artifacts
      ensures k in a.artifacts && b.artifacts[k] == a.artifacts[k]
    {
      assert (k, b.artifacts[k]) in b.artifacts.Items;
    }
  }

  lemma NewCellInOrder(root: Root, record: CellRecord)
    requires CellsInOrder(root) && ValidateCellSchema(record.id, record).None? && RedactCellDiagnostic(record) == record
    requires CheckUniqueJobId(root, record).None?
    ensures CellsInOrder(root.(cells := root.cells[record.id := Json(record)]))
  {
    hide ValidateCellSchema, RedactCellDiagnostic, JobIdsUnique;
    var after := root.(cells := root.cells[record.id := Json(record)]);
    assert CellsReadable(after);
    assert CellMap(after) == CellMap(root)[record.id := record];
  }

  lemma NewCellKeepsOperations(root: Root, record: CellRecord)
    requires CellsReadable(root) && OperationsInOrder(root)
    requires record.id in root.cells ==> root.cells[record.id].value.job == record.job
    requires CellsReadable(root.(cells := root.cells[record.id := Json(record)]))
    ensures OperationsInOrder(root.(cells := root.cells[record.id := Json(record)]))
  {
    hide ValidateCellSchema, ValidateOperationSchema;
  }

  lemma PutCellKeeps(root: Root, cell: CellRecord)
    requires Invariant(root) && AdmitCell(root, cell).None?
    ensures Invariant(Apply(root, PutCell(cell)))
    ensures cell.id in root.cells ==> root.cells[cell.id].value.job == cell.job
  {
    var record := RedactCellDiagnostic(cell);
    RedactionIdempotent(cell);
    CellLoads(root, cell.id);
    assert record.id == cell.id && record.job == cell.job;
    hide ValidateCellSchema, RedactCellDiagnostic, LoadCell, CellsInOrder, OperationsInOrder, ArtifactsInOrder;
    hide CheckUniqueJobId;
    NewCellInOrder(root, record);
    InOrderReadable(Apply(root, PutCell(cell)));
    NewCellKeepsOperations(root, record);
    OperationsInOrderReadable(root);
    SameArtifactsInOrder(root, Apply(root, PutCell(cell)));
  }

  lemma InOrderReadable(root: Root)
    requires CellsInOrder(root)
    ensures CellsReadable(root)
  {
    hide JobIdsUnique, CellsReadable, RedactCellDiagnostic;
  }

  lemma OperationsInOrderReadable(root: Root)
    requires CellsReadable(root) && OperationsInOrder(root)
    ensures OperationsReadable(root)
  {
    hide OperationsReadable, CellsReadable;
  }

  /** Two cells with the same job are the same cell. */
  lemma SameJobSameCell(root: Root, a: string, b: string)
    requires CellsInOrder(root) && a in root.cells && b in root.cells
    requires JobIdOf(root.cells[a].value).Some? && JobIdOf(root.cells[a].value) == JobIdOf(root.cells[b].value)
    ensures a == b
  {
    hide ValidateCellSchema, RedactCellDiagnostic;
    var m := CellMap(root);
    assert m[a].job.Some? && m[b].job.Some?;
  }

  /** Re-saving a correlated operation cannot move it, although the old and new cell ids are never compared. */
  lemma ResavedOperationStays(root: Root, r: OperationRecord)
    requires Invariant(root) && AdmitOperation(root, r).None?
    ensures r.cellId in root.cells && OperationBound(root.cells[r.cellId].value, r)
    ensures r.id in root.operations ==> r.jobId == root.operations[r.id].value.jobId
    ensures r.id in root.operations && r.jobId.Some? ==> r.cellId == root.operations[r.id].value.cellId
  {
    LoadsReturnStored(root, r.id);
    CellLoads(root, r.cellId);
    hide ValidateOperationSchema, ValidateCellSchema, ValidateArtifactSchema, LoadCell, LoadOperation;
    hide RedactCellDiagnostic;
    if r.id in root.operations && r.jobId.Some? {
      var earlier := root.operations[r.id].value;
      assert earlier.cellId in root.cells && OperationBound(root.cells[earlier.cellId].value, earlier);
      SameJobSameCell(root, r.cellId, earlier.cellId);
    }
  }

  lemma NewOperationKeepsArtifacts(root: Root, r: OperationRecord)
    requires OperationsReadable(root) && ArtifactsInOrder(root) && ValidateOperationSchema(r.id, r).None?
    requires r.id in root.operations ==> r.jobId == root.operations[r.id].value.jobId
    requires r.id in root.operations && r.jobId.Some? ==> r.cellId == root.operations[r.id].value.cellId
    ensures OperationsReadable(root.(operations := root.operations[r.id := Json(r)]))
    ensures ArtifactsInOrder(root.(operations := root.operations[r.id := Json(r)]))
  {
    hide ValidateOperationSchema, ValidateArtifactSchema;
  }

  lemma NewOperationInOrder(root: Root, r: OperationRecord)
    requires CellsReadable(root) && OperationsInOrder(root) && ValidateOperationSchema(r.id, r).None?
    requires r.cellId in root.cells && OperationBound(root.cells[r.cellId].value, r)
    requires CellsReadable(root.(operations := root.operations[r.id := Json(r)]))
    ensures OperationsInOrder(root.(operations := root.operations[r.id := Json(r)]))
  {
    hide ValidateOperationSchema, ValidateCellSchema;
  }

  lemma PutOperationKeeps(root: Root, r: OperationRecord)
    requires Invariant(root) && AdmitOperation(root, r).None?
    ensures Invariant(Apply(root, PutOperation(r)))
  {
    ResavedOperationStays(root, r);
    hide ValidateOperationSchema, LoadCell, LoadOperation, CellsInOrder, OperationsInOrder, ArtifactsInOrder;
    hide OperationsReadable, CellsReadable;
    SameCellsInOrder(root, Apply(root, PutOperation(r)));
    InOrderReadable(Apply(root, PutOperation(r)));
    NewOperationInOrder(root, r);
    OperationsInOrderReadable(root);
    NewOperationKeepsArtifacts(root, r);
  }

  lemma NewArtifactInOrder(root: Root, r: ArtifactRecord)
    requires OperationsReadable(root) && ArtifactsInOrder(root) && ValidateArtifactSchema(r).None?
    requires r.id in root.operations && ArtifactBound(root.operations[r.id].value, r)
    ensures ArtifactsInOrder(root.(artifacts := root.artifacts[(r.cellId, r.id) := Json(r)]))
  {
    hide ValidateOperationSchema, ValidateArtifactSchema;
  }

  lemma SameOperationsInOrder(a: Root, b: Root)
    requires CellsReadable(a) && OperationsInOrder(a) && a.cells == b.cells && a.operations == b.operations
    ensures CellsReadable(b) && OperationsInOrder(b)
  {
    hide ValidateOperationSchema, ValidateCellSchema;
  }

  lemma PutArtifactKeeps(root: Root, r: ArtifactRecord, filesValid: bool)
    requires Invariant(root) && AdmitArtifact(root, r, filesValid).None?
    ensures Invariant(Apply(root, PutArtifact(r, filesValid)))
  {
    LoadsReturnStored(root, r.id);
    hide ValidateArtifactSchema, LoadCell, LoadOperation, EntriesBelow, CellsInOrder, OperationsInOrder;
    hide ArtifactsInOrder, OperationsReadable, CellsReadable;
    var after := Apply(root, PutArtifact(r, filesValid));
    SameCellsInOrder(root, after);
    SameOperationsInOrder(root, after);
    OperationsInOrderReadable(root);
    OperationsInOrderReadable(after);
    NewArtifactInOrder(root, r);
  }

  lemma OtherChangesKeep(root: Root, change: Change)
    requires Invariant(root) && (change.PutImage? || change.DropImage? || change.DropArtifact?)
    ensures Invariant(Apply(root, change))
  {
    hide CellsInOrder, OperationsInOrder, ArtifactsInOrder, OperationsReadable, CellsReadable;
    var after := Apply(root, change);
    InOrderReadable(root);
    SameCellsInOrder(root, after);
    SameOperationsInOrder(root, after);
    OperationsInOrderReadable(root);
    SameArtifactsInOrder(root, after);
  }

  lemma ChangeKeepsInvariant(root: Root, change: Change)
    requires Invariant(root) && Admit(root, change).None?
    ensures Invariant(Apply(root, change))
  {
    hide Invariant, AdmitCell, AdmitOperation, AdmitArtifact, Apply;
    match change
    case PutCell(cell) => PutCellKeeps(root, cell);
    case PutOperation(r) => PutOperationKeeps(root, r);
    case PutArtifact(r, filesValid) => PutArtifactKeeps(root, r, filesValid);
    case PutImage(_) => OtherChangesKeep(root, change);
    case DropImage(_) => OtherChangesKeep(root, change);
    case DropArtifact(_, _) => OtherChangesKeep(root, change);
  }

  /** Reachable states: after any lawful run from an empty root, schema and job agree, job
      ids are unique, operations have their cells, and nothing stored is ever refused. */
  lemma {:induction false} ReachableInvariant(history: seq<Change>)
    requires Lawful(history)
    ensures Invariant(Replay(history))
    decreases |history|
  {
    if history != [] {
      ReachableInvariant(history[..|history| - 1]);
      hide Invariant, Admit, Apply;
      ChangeKeepsInvariant(Replay(history[..|history| - 1]), history[|history| - 1]);
    } else {
      assert CellMap(EMPTY) == map[];
    }
  }

  /** A cell that was just saved is returned with its diagnostic redacted and everything else as given. */
  lemma SavedCellLoads(history: seq<Change>, cell: CellRecord)
    requires Lawful(history + [PutCell(cell)])
    ensures LoadCell(Replay(history + [PutCell(cell)]), cell.id) == Ok(RedactCellDiagnostic(cell))
  {
    var h := history + [PutCell(cell)];
    ReachableInvariant(h);
    hide Admit;
    assert h[..|h| - 1] == history;
    var root := Replay(history);
    assert Replay(h) == Apply(root, PutCell(cell));
    LoadsReturnStored(Replay(h), cell.id);
    hide LoadCell, Invariant, RedactCellDiagnostic;
  }

  lemma SavedOperationLoads(history: seq<Change>, r: OperationRecord)
    requires Lawful(history + [PutOperation(r)])
    ensures LoadOperation(Replay(history + [PutOperation(r)]), r.id) == Ok(r)
  {
    var h := history + [PutOperation(r)];
    ReachableInvariant(h);
    hide Admit;
    assert h[..|h| - 1] == history;
    var root := Replay(history);
    assert Replay(h) == Apply(root, PutOperation(r));
    LoadsReturnStored(Replay(h), r.id);
    hide LoadOperation, Invariant;
  }

  // ----- Bindings are forever --------------------------------------------

  /** A cell keeps its job through any one change. */
  lemma ChangeKeepsCellJob(root: Root, change: Change, id: string)
    requires Invariant(root) && Admit(root, change).None? && id in root.cells
    ensures id in Apply(root, change).cells && Apply(root, change).cells[id].Json?
    ensures Apply(root, change).cells[id].value.job == root.cells[id].value.job
  {
    hide Invariant, AdmitCell, AdmitOperation, AdmitArtifact;
    CellIsJson(root, id);
    if change.PutCell? {
      PutCellKeeps(root, change.cell);
    }
  }

  lemma CellIsJson(root: Root, id: string)
    requires Invariant(root) && id in root.cells
    ensures root.cells[id].Json?
  {
    hide ValidateCellSchema;
  }

  lemma OperationIsJson(root: Root, id: string)
    requires Invariant(root) && id in root.operations
    ensures root.operations[id].Json?
  {
    hide ValidateOperationSchema;
  }

  /** A correlated operation keeps its cell and its job through any one change. */
  lemma ChangeKeepsOperation(root: Root, change: Change, id: string)
    requires Invariant(root) && Admit(root, change).None? && id in root.operations
    requires root.operations[id].value.jobId.Some?
    ensures id in Apply(root, change).operations && Apply(root, change).operations[id].Json?
    ensures Apply(root, change).operations[id].value.jobId == root.operations[id].value.jobId
    ensures Apply(root, change).operations[id].value.cellId == root.operations[id].value.cellId
  {
    hide Invariant, AdmitCell, AdmitOperation, AdmitArtifact;
    OperationIsJson(root, id);
    if change.PutOperation? {
      ResavedOperationStays(root, change.operation);
    }
  }

  lemma {:induction false} ReplayAppend(history: seq<Change>, change: Change)
    ensures Replay(history + [change]) == Apply(Replay(history), change)
    ensures Lawful(history + [change]) <==> Lawful(history) && Admit(Replay(history), change).None?
  {
    var h := history + [change];
    assert h[..|h| - 1] == history;
  }

  /** Over any run of saves a job-correlated operation never changes its cell or its job. */
  lemma {:induction false} OperationNeverChangesCell(before: seq<Change>, later: seq<Change>, id: string)
    requires Lawful(before + later)
    requires id in Replay(before).operations && Replay(before).operations[id].Json?
    requires Replay(before).operations[id].value.jobId.Some?
    ensures var now := Replay(before + later).operations;
            var first := Replay(before).operations[id].value;
            id in now && now[id].Json? && now[id].value.jobId == first.jobId && now[id].value.cellId == first.cellId
    decreases |later|
  {
    if later == [] {
      assert before + later == before;
    } else {
      var shorter, last := later[..|later| - 1], later[|later| - 1];
      assert before + later == (before + shorter) + [last];
      ReplayAppend(before + shorter, last);
      OperationNeverChangesCell(before, shorter, id);
      ReachableInvariant(before + shorter);
      hide Invariant, Admit, Apply;
      ChangeKeepsOperation(Replay(before + shorter), last, id);
    }
  }

  /** Over any run of saves a cell keeps the job it was first saved with. */
  lemma {:induction false} CellNeverChangesJob(before: seq<Change>, later: seq<Change>, id: string)
    requires Lawful(before + later)
    requires id in Replay(before).cells && Replay(before).cells[id].Json?
    ensures var now := Replay(before + later).cells;
            id in now && now[id].Json? && now[id].value.job == Replay(before).cells[id].value.job
    decreases |later|
  {
    if later == [] {
      assert before + later == before;
    } else {
      var shorter, last := later[..|later| - 1], later[|later| - 1];
      assert before + later == (before + shorter) + [last];
      ReplayAppend(before + shorter, last);
      CellNeverChangesJob(before, shorter, id);
      ReachableInvariant(before + shorter);
      hide Invariant, Admit, Apply;
      ChangeKeepsCellJob(Replay(before + shorter), last, id);
    }
  }

  /** So a correlated artifact that is still there can always be loaded. */
  lemma CorrelatedArtifactLoads(history: seq<Change>, cellId: Uuid, operationId: Uuid)
    requires Lawful(history)
    requires (cellId, operationId) in Replay(history).artifacts
    requires Replay(history).artifacts[(cellId, operationId)].Json?
    requires Replay(history).artifacts[(cellId, operationId)].value.jobId.Some?
    ensures LoadArtifact(Replay(history), cellId, operationId, true) ==
            Ok(Replay(history).artifacts[(cellId, operationId)].value)
  {
    ReachableInvariant(history);
    var root := Replay(history);
    LoadsReturnStored(root, operationId);
    hide ValidateOperationSchema, ValidateCellSchema, ValidateArtifactSchema, LoadOperation, RedactCellDiagnostic;
    hide Replay, Lawful, CellsInOrder, OperationsInOrder;
    assert root.artifacts[(cellId, operationId)].value.cellId == cellId;
  }

  // ----- Exactly the operations with a job stay --------------------------

  /** Saving a stored operation again under another existing cell is admitted exactly when it has no job. */
  lemma MoveAdmittedIffDirect(history: seq<Change>, id: Uuid, cellId: Uuid)
    requires Lawful(history) && id in Replay(history).operations && cellId in Replay(history).cells
    requires Replay(history).operations[id].Json? && Replay(history).operations[id].value.cellId != cellId
    ensures var moved := Replay(history).operations[id].value.(cellId := cellId);
            Lawful(history + [PutOperation(moved)]) <==> moved.jobId.None?
  {
    var root := Replay(history);
    var stored := root.operations[id].value;
    var moved := stored.(cellId := cellId);
    ReachableInvariant(history);
    ReplayAppend(history, PutOperation(moved));
    assert ValidateOperationSchema(id, stored).None?;
    ValidOperationIdentity(id, stored);
    assert ValidateOperationSchema(id, moved).None? by {
      assert PhaseFieldsValid(moved) && TimesValid(moved);
    }
    hide ValidateOperationSchema, Lawful, Replay;
    if AdmitOperation(root, moved).None? {
      ResavedOperationStays(root, moved);
    }
    LoadsReturnStored(root, id);
    CellLoads(root, cellId);
    hide Invariant, LoadCell, LoadOperation;
  }

  // ----- Compatibility ---------------------------------------------------

  /** The batch check never rejects what listing the operations accepted. */
  lemma BatchFollowsListing(root: Root)
    requires ListCells(root).Ok? && ListOperations(root).Ok?
    ensures BatchBound(ListCells(root).value, ListOperations(root).value)
  {
    hide ValidateCellSchema, ValidateOperationSchema, RedactCellDiagnostic, JobIdsUnique, CheckUniqueJobId;
    var cells, operations := ListCells(root).value, ListOperations(root).value;
    forall s | s in operations
      ensures var r := operations[s];
              if r.cellId in cells then OperationBound(cells[r.cellId], r) else r.jobId.None?
    {
      assert CheckParentForRead(root, root.operations[s].value).None?;
    }
  }

  lemma CellSchemaMeansJob(root: Root, s: string)
    requires CellsReadable(root) && s in root.cells
    ensures var c := RedactCellDiagnostic(root.cells[s].value);
            c.schemaVersion in {1, 2} && (c.schemaVersion == 2 <==> root.cells[s].value.job.Some?)
  {
  }

  /** A correlated operation of an accepted root has a cell that carries a job. */
  lemma CorrelatedHasJobCell(root: Root, s: string)
    requires ListCells(root).Ok? && ListOperations(root).Ok? && s in root.operations
    requires root.operations[s].value.jobId.Some?
    ensures exists c :: c in root.cells && root.cells[c].Json? && root.cells[c].value.job.Some?
  {
    BatchFollowsListing(root);
    hide ValidateCellSchema, ValidateOperationSchema, JobIdsUnique, CheckParentForRead;
    var cells, operations := ListCells(root).value, ListOperations(root).value;
    assert s in operations;
    assert root.cells[operations[s].cellId].value.job.Some?;
  }

  ghost predicate SomeJob(root: Root) {
    exists c :: c in root.cells && root.cells[c].Json? && root.cells[c].value.job.Some?
  }

  lemma ActiveVersions(root: Root, filesValid: set<Uuid>, v: nat)
    requires Compatible(root, filesValid) && Active(root, filesValid, v)
    ensures v in {1, 2} && (v == 2 ==> SomeJob(root))
  {
    var cells, operations := ListCells(root).value, ListOperations(root).value;
    if s :| s in cells && cells[s].schemaVersion == v {
      CellSchemaMeansJob(root, s);
    } else if s :| s in operations && operations[s].schemaVersion == v {
      OperationVersion(root, s);
    } else {
      var s :| s in operations && HoldsArtifact(operations[s])
        && LoadArtifact(root, operations[s].cellId, operations[s].id,
           operations[s].id in filesValid).value.schemaVersion == v;
      ArtifactVersion(root, s, filesValid);
    }
  }

  lemma OperationVersion(root: Root, s: string)
    requires ListCells(root).Ok? && ListOperations(root).Ok? && s in root.operations
    ensures root.operations[s].value.schemaVersion in {1, 2} && root.operations[s].value.id == s
    ensures root.operations[s].value.jobId.Some? ==> SomeJob(root)
    ensures root.operations[s].value.schemaVersion == 2 ==> SomeJob(root)
  {
    assert ValidateOperationSchema(s, root.operations[s].value).None?;
    hide PhaseFieldsValid, TimesValid, CheckParentForRead, JobIdsUnique, ValidateCellSchema, RedactCellDiagnostic;
    if root.operations[s].value.jobId.Some? {
      CorrelatedHasJobCell(root, s);
    }
  }

  lemma ArtifactVersion(root: Root, s: string, filesValid: set<Uuid>)
    requires ListCells(root).Ok? && ListOperations(root).Ok? && s in root.operations
    requires var r := root.operations[s].value; LoadArtifact(root, r.cellId, r.id, r.id in filesValid).Ok?
    ensures var r := root.operations[s].value;
            var v := LoadArtifact(root, r.cellId, r.id, r.id in filesValid).value.schemaVersion;
            v in {1, 2} && (v == 2 ==> SomeJob(root))
  {
    OperationVersion(root, s);
    hide ListCells, ListOperations, LoadCell, ValidateOperationSchema, SomeJob, TotalSize, CheckParentForRead;
  }

  /** For every accepted root the reported format is 2 exactly when some cell carries a job, and 1 otherwise. */
  lemma FormatMeansJob(root: Root, filesValid: set<Uuid>, format: nat)
    requires Compatible(root, filesValid) && Reported(root, filesValid, format)
    ensures format in {1, 2} && (format == 2 <==> SomeJob(root))
  {
    if Active(root, filesValid, format) {
      ActiveVersions(root, filesValid, format);
    }
    if SomeJob(root) {
      var c :| c in root.cells && root.cells[c].Json? && root.cells[c].value.job.Some?;
      CellSchemaMeansJob(root, c);
      var cells := ListCells(root).value;
      assert c in cells && cells[c].schemaVersion == 2;
      hide ListCells, ListOperations;
      assert Active(root, filesValid, 2);
    }
  }
}
