/** Listings of cells and operations, and the hash-map checks over them (`src/state/mod.rs`). */
module Scans {
  import opened Prelude
  import opened FileNames
  import opened Records
  import opened RecordStore
  import opened Listings

  /** `list` holds the entries of `all` in path order of their files, which have these stems. */
  ghost predicate Listed<T(!new)>(all: map<string, T>, stems: seq<string>, list: seq<T>) {
    && Sorted(all.Keys, stems) && |list| == |stems|
    && forall i :: 0 <= i < |list| ==> stems[i] in all && list[i] == all[stems[i]]
  }

  lemma ReadableCells(root: Root)
    ensures CellsReadable(root) <==> forall s :: s in root.cells ==>
            FileError(s, root.cells[s], ValidateCellSchema).None?
  {
    hide ValidateCellSchema;
  }

  lemma ReadableOperations(root: Root)
    ensures OperationsReadable(root) <==>
            forall s :: s in root.operations ==> FileError(s, root.operations[s], ValidateOperationSchema).None?
  {
    hide ValidateOperationSchema;
  }

  lemma ReadableImages(root: Root)
    ensures ImagesReadable(root) <==> forall s :: s in root.images ==>
            FileError(s, root.images[s], ValidateImageSchema).None?
  {
    hide ValidateImageSchema;
  }

  /** Reading the cells: every record in path order, or the error of the first bad file. */
  method ReadCells(root: Root) returns (r: Result<seq<CellRecord>, StateError>, ghost stems: seq<string>)
    ensures Sorted(root.cells.Keys, stems) && ReadInOrder(root.cells, ValidateCellSchema, stems, r)
    ensures r.Ok? <==> CellsReadable(root)
    ensures r.Ok? ==> Listed(CellMap(root), stems, r.value)
  {
    hide ValidateCellSchema, Sorted, FileError;
    ReadableCells(root);
    r, stems := ReadJsonDirectory(root.cells, ValidateCellSchema);
    if r.Ok? {
      assert CellMap(root).Keys == root.cells.Keys;
    }
  }

  /** No two positions carry the same job id. */
  ghost predicate JobsDistinct(cells: seq<CellRecord>) {
    forall i, j :: 0 <= i < j < |cells| && cells[i].job.Some? && cells[j].job.Some? ==>
      cells[i].job.value.jobId != cells[j].job.value.jobId
  }

  /** The hash-map loop over job ids accepts exactly the lists without a repeated job id. */
  method ValidateUniqueCellJobIds(cells: seq<CellRecord>) returns (ok: bool)
    ensures ok <==> JobsDistinct(cells)
  {
    var seen: map<Uuid, Uuid> := map[];
    for i := 0 to |cells|
      invariant JobsDistinct(cells[..i])
      invariant forall u :: u in seen <==> exists k :: 0 <= k < i && cells[k].job.Some? && cells[k].job.value.jobId == u
    {
      ghost var before := cells[..i];
      assert forall k :: 0 <= k < i ==> before[k] == cells[k];
      assert cells[..i + 1] == before + [cells[i]];
      if cells[i].job.Some? {
        var job := cells[i].job.value;
        if job.jobId in seen {
          return false;
        }
        seen := seen[job.jobId := cells[i].id];
      }
    }
    assert cells[..|cells|] == cells;
    return true;
  }

  /** The listed cells other than the one with this id. */
  method OtherCells(cells: seq<CellRecord>, id: Uuid) returns (others: seq<CellRecord>)
    requires forall i, j :: 0 <= i < j < |cells| ==> cells[i].id != cells[j].id
    ensures forall c :: c in others <==> c in cells && c.id != id
    ensures forall a, b :: 0 <= a < b < |others| ==> others[a].id != others[b].id
  {
    others := [];
    for i := 0 to |cells|
      invariant forall c :: c in others ==> c.id != id && exists k :: 0 <= k < i && cells[k] == c
      invariant forall k :: 0 <= k < i && cells[k].id != id ==> cells[k] in others
      invariant forall a, b :: 0 <= a < b < |others| ==> others[a].id != others[b].id
    {
      if cells[i].id != id {
        assert forall a :: 0 <= a < |others| ==> others[a] in others;
        others := others + [cells[i]];
      }
    }
  }

  /** A listed cell has the stem of its file as its id, so no id is listed twice. */
  lemma ListedIds(root: Root, stems: seq<string>, cells: seq<CellRecord>)
    requires CellsReadable(root) && Listed(CellMap(root), stems, cells)
    ensures forall i :: 0 <= i < |cells| ==> cells[i].id == stems[i]
    ensures forall i, j :: 0 <= i < j < |cells| ==> cells[i].id != cells[j].id
    ensures forall s :: s in root.cells ==> exists i ::
            0 <= i < |cells| && cells[i].id == s && cells[i] == root.cells[s].value
  {
    hide FileBefore;
    forall i | 0 <= i < |cells|
      ensures cells[i].id == stems[i]
    {
      ValidCellIdentity(stems[i], root.cells[stems[i]].value);
    }
    hide ValidateCellSchema;
    forall i, j | 0 <= i < j < |cells|
      ensures cells[i].id != cells[j].id
    {
      NotBeforeItself(stems[i]);
      assert FileBefore(stems[i], stems[j]);
    }
    forall s | s in root.cells
      ensures exists i :: 0 <= i < |cells| && cells[i].id == s && cells[i] == root.cells[s].value
    {
      assert s in CellMap(root).Keys;
      var i :| 0 <= i < |stems| && stems[i] == s;
      assert cells[i] == CellMap(root)[s];
    }
  }

  lemma NotBeforeItself(s: string)
    ensures !FileBefore(s, s)
  {
    PrecedesIrreflexive(RecordName(s));
  }

  method RedactAll(cells: seq<CellRecord>) returns (records: seq<CellRecord>)
    ensures |records| == |cells| && forall i :: 0 <= i < |cells| ==> records[i] == RedactCellDiagnostic(cells[i])
  {
    records := [];
    for n := 0 to |cells|
      invariant |records| == n && forall i :: 0 <= i < n ==> records[i] == RedactCellDiagnostic(cells[i])
    {
      records := records + [RedactCellDiagnostic(cells[n])];
    }
  }

  /** `list_cells`: the redacted cells in path order, refused exactly if the specification refuses; the error is
      that of the first bad file, or else the repeated job id. */
  method ListCellsInOrder(root: Root) returns (r: Result<seq<CellRecord>, StateError>, ghost stems: seq<string>)
    ensures r.Ok? <==> ListCells(root).Ok?
    ensures r.Ok? ==> Listed(ListCells(root).value, stems, r.value)
    ensures r.Err? && !CellsReadable(root) ==>
              Sorted(root.cells.Keys, stems) && ReadInOrder(root.cells, ValidateCellSchema, stems, Err(r.error))
    ensures r.Err? && CellsReadable(root) ==> r.error == JobCorrelationIntegrity
  {
    hide ValidateCellSchema, RedactCellDiagnostic, JobIdsUnique, JobsDistinct, Sorted, ReadInOrder;
    var read;
    read, stems := ReadCells(root);
    if read.Err? {
      return Err(read.error), stems;
    }
    var unique := ValidateUniqueCellJobIds(read.value);
    ListedIds(root, stems, read.value);
    MapAndList(CellMap(root), read.value);
    if !unique {
      return Err(JobCorrelationIntegrity), stems;
    }
    var records := RedactAll(read.value);
    assert ListCells(root).value.Keys == CellMap(root).Keys;
    return Ok(records), stems;
  }

  /** `list_guest_operations`: the operations in path order, each with its parent binding checked. */
  method ListOperationsInOrder(root: Root)
    returns (r: Result<seq<OperationRecord>, StateError>, ghost stems: seq<string>)
    ensures r.Ok? <==> ListOperations(root).Ok?
    ensures r.Ok? ==> Listed(ListOperations(root).value, stems, r.value)
    ensures Sorted(root.operations.Keys, stems)
    ensures r.Err? && !OperationsReadable(root) ==>
            ReadInOrder(root.operations, ValidateOperationSchema, stems, Err(r.error))
    ensures r.Err? && OperationsReadable(root) ==> FirstUnbound(root, stems, r.error)
  {
    hide ValidateOperationSchema, CheckParentForRead, FileError, Sorted;
    ReadableOperations(root);
    var read;
    read, stems := ReadJsonDirectory(root.operations, ValidateOperationSchema);
    if read.Err? {
      return Err(read.error), stems;
    }
    for n := 0 to |read.value|
      invariant forall i :: 0 <= i < n ==> CheckParentForRead(root, root.operations[stems[i]].value).None?
    {
      var unbound := CheckParentForRead(root, read.value[n]);
      if unbound.Some? {
        assert FirstUnbound(root, stems, unbound.value);
        return Err(unbound.value), stems;
      }
    }
    AllBound(root, stems);
    assert ListOperations(root).value.Keys == root.operations.Keys;
    return Ok(read.value), stems;
  }

  /** The first operation, in this order, whose parent binding is refused is refused with `error`. */
  ghost predicate FirstUnbound(root: Root, stems: seq<string>, error: StateError) {
    exists n :: 0 <= n < |stems| && stems[n] in root.operations && root.operations[stems[n]].Json?
                && CheckParentForRead(root, root.operations[stems[n]].value) == Some(error)
                && forall i :: 0 <= i < n ==> stems[i] in root.operations && root.operations[stems[i]].Json?
                                              && CheckParentForRead(root, root.operations[stems[i]].value).None?
  }

  lemma AllBound(root: Root, stems: seq<string>)
    requires OperationsReadable(root) && Sorted(root.operations.Keys, stems)
    requires forall i :: 0 <= i < |stems| ==>
               stems[i] in root.operations && CheckParentForRead(root, root.operations[stems[i]].value).None?
    ensures ListOperations(root).Ok?
  {
    hide CheckParentForRead, ValidateOperationSchema, InPathOrder;
    forall s | s in root.operations
      ensures CheckParentForRead(root, root.operations[s].value).None?
    {
      assert s in root.operations.Keys;
      var i :| 0 <= i < |stems| && stems[i] == s;
    }
  }

  /** `validate_unique_cell_job_id`: scan, leave out the record's own file, add the record, check. */
  method UniqueJobIdCheck(root: Root, record: CellRecord) returns (r: Option<StateError>)
    ensures r.None? <==> CheckUniqueJobId(root, record).None?
  {
    hide ValidateCellSchema, JobIdsUnique, JobsDistinct, RedactCellDiagnostic, ReadInOrder, Sorted;
    var scanned, stems := ReadCells(root);
    if scanned.Err? {
      return Some(scanned.error);
    }
    ListedIds(root, stems, scanned.value);
    var others := OtherCells(scanned.value, record.id);
    var unique := ValidateUniqueCellJobIds(others + [record]);
    UniqueByMap(root, stems, scanned.value, others, record);
    return if unique then None else Some(JobCorrelationIntegrity);
  }

  lemma UniqueByMap(root: Root, stems: seq<string>, all: seq<CellRecord>, others: seq<CellRecord>, record: CellRecord)
    requires CellsReadable(root) && Listed(CellMap(root), stems, all)
    requires forall c :: c in others <==> c in all && c.id != record.id
    requires forall a, b :: 0 <= a < b < |others| ==> others[a].id != others[b].id
    ensures JobsDistinct(others + [record]) <==> JobIdsUnique(CellMap(root)[record.id := record])
  {
    ListedIds(root, stems, all);
    hide ValidateCellSchema, Sorted, JobsDistinct, JobIdsUnique;
    var m := CellMap(root)[record.id := record];
    var list := others + [record];
    forall i | 0 <= i < |others|
      ensures others[i].id in m && m[others[i].id] == others[i] && others[i].id != record.id
    {
      assert others[i] in others;
    }
    forall s | s in m
      ensures exists i :: 0 <= i < |list| && list[i].id == s && list[i] == m[s]
    {
      if s == record.id {
        assert list[|others|] == record;
      } else {
        var k :| 0 <= k < |all| && all[k].id == s && all[k] == root.cells[s].value;
        assert all[k] in others;
        var i :| 0 <= i < |others| && others[i] == all[k];
        assert list[i] == others[i];
      }
    }
    MapAndList(m, list);
  }

  lemma MapAndList(m: map<string, CellRecord>, list: seq<CellRecord>)
    requires forall i :: 0 <= i < |list| ==> list[i].id in m && m[list[i].id] == list[i]
    requires forall i, j :: 0 <= i < j < |list| ==> list[i].id != list[j].id
    requires forall s :: s in m ==> exists i :: 0 <= i < |list| && list[i].id == s && list[i] == m[s]
    ensures JobsDistinct(list) <==> JobIdsUnique(m)
  {
    if JobsDistinct(list) {
      forall a, b | a in m && b in m && a != b && m[a].job.Some? && m[b].job.Some?
        ensures m[a].job.value.jobId != m[b].job.value.jobId
      {
        var i :| 0 <= i < |list| && list[i].id == a && list[i] == m[a];
        var j :| 0 <= j < |list| && list[j].id == b && list[j] == m[b];
        assert i != j;
      }
    }
  }
}
