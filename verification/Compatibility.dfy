/** The compatibility check of a state root (`check_compatibility`, `src/state/mod.rs`). */
module Compatibility {
  import opened Prelude
  import opened FileNames
  import opened Records
  import opened RecordStore
  import opened RecordStoreTheorems
  import opened Listings
  import opened Scans

  method MaxOr(values: set<nat>, default: nat) returns (m: nat)
    ensures m in values || (m == default && values == {})
    ensures forall v :: v in values ==> v <= m
  {
    if values == {} {
      return default;
    }
    m :| m in values;
    var remaining := values - {m};
    while remaining != {}
      invariant m in values && remaining <= values
      invariant forall v :: v in values && v !in remaining ==> v <= m
      decreases |remaining|
    {
      var v :| v in remaining;
      m := if v > m then v else m;
      remaining := remaining - {v};
    }
  }

  datatype Installation = NotInstalled | Installed | InstallationRefused

  datatype Counts = Counts(installations: nat, images: nat, cells: nat, operations: nat, artifacts: nat)

  /** What `check_compatibility` reports, its time stamp and constant fields aside. */
  datatype Report = Report(format: nat, empty: bool, counts: Counts)

  /** The operations whose artifact is still there. */
  function ArtifactHolders(operations: map<string, OperationRecord>): set<string> {
    set s | s in operations && HoldsArtifact(operations[s])
  }

  ghost predicate ArtifactHasVersion(root: Root, r: OperationRecord, filesValid: set<Uuid>, v: nat) {
    var artifact := LoadArtifact(root, r.cellId, r.id, r.id in filesValid);
    HoldsArtifact(r) && artifact.Ok? && artifact.value.schemaVersion == v
  }

  /** `v` is the version of a cell, of an operation, or of an artifact of the first `n` operations. */
  ghost predicate SeenVersion(root: Root, cells: seq<CellRecord>, operations: seq<OperationRecord>,
                              filesValid: set<Uuid>, n: nat, v: nat)
    requires n <= |operations|
  {
    || (exists i :: 0 <= i < |cells| && cells[i].schemaVersion == v)
    || (exists i :: 0 <= i < |operations| && operations[i].schemaVersion == v)
    || (exists i :: 0 <= i < n && ArtifactHasVersion(root, operations[i], filesValid, v))
  }

  /** `format` is the greatest version seen so far, or 1 if there is none. */
  ghost predicate Greatest(root: Root, cells: seq<CellRecord>, operations: seq<OperationRecord>, filesValid: set<Uuid>,
                           n: nat, format: nat)
    requires n <= |operations|
  {
    && (SeenVersion(root, cells, operations, filesValid, n, format) || (format == 1 && cells == [] && operations == []))
    && forall v: nat :: SeenVersion(root, cells, operations, filesValid, n, v) ==> v <= format
  }

  method GreatestVersion(ghost root: Root, cells: seq<CellRecord>, operations: seq<OperationRecord>,
                         ghost filesValid: set<Uuid>)
    returns (format: nat)
    ensures Greatest(root, cells, operations, filesValid, 0, format)
  {
    var versions := (set i | 0 <= i < |cells| :: cells[i].schemaVersion)
                    + (set i | 0 <= i < |operations| :: operations[i].schemaVersion);
    format := MaxOr(versions, 1);
    assert forall i :: 0 <= i < |cells| ==> cells[i].schemaVersion in versions;
    assert forall i :: 0 <= i < |operations| ==> operations[i].schemaVersion in versions;
    if cells != [] {
      assert cells[0].schemaVersion in versions;
    }
    if operations != [] {
      assert operations[0].schemaVersion in versions;
    }
    forall v: nat | SeenVersion(root, cells, operations, filesValid, 0, v)
      ensures v in versions
    {
    }
  }

  lemma GreatestNext(root: Root, cells: seq<CellRecord>, operations: seq<OperationRecord>, filesValid: set<Uuid>,
                     n: nat, format: nat)
    requires n < |operations| && Greatest(root, cells, operations, filesValid, n, format)
    ensures !HoldsArtifact(operations[n]) ==> Greatest(root, cells, operations, filesValid, n + 1, format)
    ensures var r := operations[n];
            var artifact := LoadArtifact(root, r.cellId, r.id, r.id in filesValid);
            HoldsArtifact(r) && artifact.Ok? ==>
              var v := artifact.value.schemaVersion;
              Greatest(root, cells, operations, filesValid, n + 1, if v > format then v else format)
  {
    hide LoadArtifact, HoldsArtifact, SeenVersion;
    var next := n + 1;
    forall v: nat
      ensures SeenVersion(root, cells, operations, filesValid, next, v) <==>
              SeenVersion(root, cells, operations, filesValid, n, v)
                || ArtifactHasVersion(root, operations[n], filesValid, v)
    {
      SeenNext(root, cells, operations, filesValid, n, v);
    }
  }

  lemma SeenNext(root: Root, cells: seq<CellRecord>, operations: seq<OperationRecord>, filesValid: set<Uuid>, n: nat,
                 v: nat)
    requires n < |operations|
    ensures SeenVersion(root, cells, operations, filesValid, n + 1, v) <==>
            SeenVersion(root, cells, operations, filesValid, n, v)
              || ArtifactHasVersion(root, operations[n], filesValid, v)
  {
    hide ArtifactHasVersion;
  }

  /** How many artifacts the first `n` listed operations hold. */
  lemma HeldNext(operations: map<string, OperationRecord>, stems: seq<string>, list: seq<OperationRecord>, n: nat)
    requires Listed(operations, stems, list) && n < |list|
    ensures |set s | s in stems[..n + 1] && s in operations && HoldsArtifact(operations[s])| ==
            |set s | s in stems[..n] && s in operations && HoldsArtifact(operations[s])|
            + (if HoldsArtifact(list[n]) then 1 else 0)
  {
    hide HoldsArtifact, FileBefore;
    var before := set s | s in stems[..n] && s in operations && HoldsArtifact(operations[s]);
    var after := set s | s in stems[..n + 1] && s in operations && HoldsArtifact(operations[s]);
    assert stems[..n + 1] == stems[..n] + [stems[n]];
    forall i | 0 <= i < n
      ensures stems[i] != stems[n]
    {
      NotBeforeItself(stems[n]);
      assert FileBefore(stems[i], stems[n]);
    }
    assert stems[n] !in before;
    assert after == before + (if HoldsArtifact(list[n]) then {stems[n]} else {});
  }

  lemma WholeHeld(operations: map<string, OperationRecord>, stems: seq<string>, list: seq<OperationRecord>)
    requires Listed(operations, stems, list)
    ensures (set s | s in stems[..|stems|] && s in operations && HoldsArtifact(operations[s])) ==
            ArtifactHolders(operations)
  {
    hide HoldsArtifact, InPathOrder;
    assert stems[..|stems|] == stems;
    assert forall s :: s in operations <==> s in operations.Keys;
  }

  /** The loop over artifacts: `None` if one does not load. */
  method CheckArtifacts(root: Root, cells: seq<CellRecord>, operations: seq<OperationRecord>, filesValid: set<Uuid>,
                        initial: nat,
                        ghost stems: seq<string>, ghost all: map<string, OperationRecord>)
    returns (r: Option<(nat, nat)>)
    requires Greatest(root, cells, operations, filesValid, 0, initial) && Listed(all, stems, operations)
    ensures r.Some? <==> forall i :: 0 <= i < |operations| && HoldsArtifact(operations[i]) ==>
              LoadArtifact(root, operations[i].cellId, operations[i].id, operations[i].id in filesValid).Ok?
    ensures r.Some? ==>
              && Greatest(root, cells, operations, filesValid, |operations|, r.value.0)
              && r.value.1 == |ArtifactHolders(all)|
  {
    hide Greatest, LoadArtifact, HoldsArtifact, Sorted;
    var format, artifacts := initial, 0;
    assert (set s | s in stems[..0] && s in all && HoldsArtifact(all[s])) == {};
    for n := 0 to |operations|
      invariant Greatest(root, cells, operations, filesValid, n, format)
      invariant artifacts == |set s | s in stems[..n] && s in all && HoldsArtifact(all[s])|
      invariant forall i :: 0 <= i < n && HoldsArtifact(operations[i]) ==>
                  LoadArtifact(root, operations[i].cellId, operations[i].id, operations[i].id in filesValid).Ok?
    {
      GreatestNext(root, cells, operations, filesValid, n, format);
      HeldNext(all, stems, operations, n);
      if HoldsArtifact(operations[n]) {
        var artifact := LoadArtifact(root, operations[n].cellId, operations[n].id, operations[n].id in filesValid);
        if artifact.Err? {
          return None;
        }
        var v := artifact.value.schemaVersion;
        format := if v > format then v else format;
        artifacts := artifacts + 1;
      }
    }
    WholeHeld(all, stems, operations);
    return Some((format, artifacts));
  }

  lemma ListedValues<T(!new)>(all: map<string, T>, stems: seq<string>, list: seq<T>)
    requires Listed(all, stems, list)
    ensures forall s :: s in all ==> exists i :: 0 <= i < |list| && stems[i] == s && list[i] == all[s]
    ensures |list| == |all|
  {
    hide InPathOrder;
    SortedSize(all.Keys, stems);
    forall s | s in all
      ensures exists i :: 0 <= i < |list| && stems[i] == s && list[i] == all[s]
    {
      assert s in all.Keys;
      var i :| 0 <= i < |stems| && stems[i] == s;
    }
  }

  /** An operation and the listed cells agree. */
  predicate BoundIn(cells: map<string, CellRecord>, r: OperationRecord) {
    if r.cellId in cells then OperationBound(cells[r.cellId], r) else r.jobId.None?
  }

  /** `validate_job_operation_bindings`: a map from id to cell, and one look-up for each operation. */
  method ValidateJobOperationBindings(cells: seq<CellRecord>, operations: seq<OperationRecord>,
                                      ghost all: map<string, CellRecord>)
    returns (ok: bool)
    requires forall i :: 0 <= i < |cells| ==> cells[i].id in all && all[cells[i].id] == cells[i]
    requires forall s :: s in all ==> exists i :: 0 <= i < |cells| && cells[i].id == s && cells[i] == all[s]
    ensures ok <==> forall n :: 0 <= n < |operations| ==> BoundIn(all, operations[n])
  {
    hide OperationBound;
    var byId: map<string, CellRecord> := map[];
    for i := 0 to |cells|
      invariant forall s :: s in byId ==> s in all && byId[s] == all[s]
      invariant forall k :: 0 <= k < i ==> cells[k].id in byId
    {
      byId := byId[cells[i].id := cells[i]];
    }
    assert byId == all;
    for n := 0 to |operations|
      invariant forall k :: 0 <= k < n ==> BoundIn(all, operations[k])
    {
      if !BoundIn(byId, operations[n]) {
        return false;
      }
    }
    return true;
  }

  /** The listed, redacted cells are as distinct, and as identified, as the stored ones. */
  lemma RedactedCells(root: Root, stems: seq<string>, cells: seq<CellRecord>)
    requires ListCells(root).Ok? && Listed(ListCells(root).value, stems, cells)
    ensures forall i :: 0 <= i < |cells| ==> cells[i].id == stems[i]
    ensures forall s :: s in ListCells(root).value ==> exists i ::
            0 <= i < |cells| && cells[i].id == s && cells[i] == ListCells(root).value[s]
    ensures JobsDistinct(cells)
  {
    var all := ListCells(root).value;
    forall i | 0 <= i < |cells|
      ensures cells[i].id == stems[i]
    {
      ValidCellIdentity(stems[i], root.cells[stems[i]].value);
    }
    assert JobIdsUnique(all) by { RedactedUnique(root); }
    hide ListCells, JobIdsUnique, JobsDistinct;
    ListedValues(all, stems, cells);
    hide FileBefore;
    forall i, j | 0 <= i < j < |cells|
      ensures cells[i].id != cells[j].id
    {
      NotBeforeItself(stems[i]);
      assert FileBefore(stems[i], stems[j]);
    }
    MapAndList(all, cells);
  }

  lemma RedactedUnique(root: Root)
    requires ListCells(root).Ok?
    ensures JobIdsUnique(ListCells(root).value)
  {
    hide ValidateCellSchema;
    var all, stored := ListCells(root).value, CellMap(root);
    assert forall s :: s in all ==> s in stored && all[s].job == stored[s].job;
  }

  lemma BatchAccepts(root: Root, stems: seq<string>, operations: seq<OperationRecord>)
    requires ListCells(root).Ok? && ListOperations(root).Ok? && Listed(ListOperations(root).value, stems, operations)
    ensures forall n :: 0 <= n < |operations| ==> BoundIn(ListCells(root).value, operations[n])
  {
    BatchFollowsListing(root);
    hide ListCells, ListOperations, OperationBound, Sorted;
  }

  /** What was seen in the lists is what is active in the root. */
  lemma SeenIsActive(root: Root, filesValid: set<Uuid>, cs: seq<string>, cells: seq<CellRecord>, os: seq<string>,
                     operations: seq<OperationRecord>, v: nat)
    requires Compatible(root, filesValid)
    requires Listed(ListCells(root).value, cs, cells) && Listed(ListOperations(root).value, os, operations)
    ensures Active(root, filesValid, v) <==> SeenVersion(root, cells, operations, filesValid, |operations|, v)
  {
    hide ListCells, ListOperations, LoadArtifact, HoldsArtifact, Sorted, BatchBound, ImagesReadable;
    ListedValues(ListCells(root).value, cs, cells);
    ListedValues(ListOperations(root).value, os, operations);
    var all := ListOperations(root).value;
    forall s | s in all && HoldsArtifact(all[s])
      ensures LoadArtifact(root, all[s].cellId, all[s].id, all[s].id in filesValid).Ok?
    {
    }
    if Active(root, filesValid, v) {
      ActiveSeen(root, filesValid, cells, operations, v);
    }
  }

  lemma ActiveSeen(root: Root, filesValid: set<Uuid>, cells: seq<CellRecord>, operations: seq<OperationRecord>, v: nat)
    requires Compatible(root, filesValid) && Active(root, filesValid, v)
    requires forall s :: s in ListCells(root).value ==> ListCells(root).value[s] in cells
    requires forall s :: s in ListOperations(root).value ==> ListOperations(root).value[s] in operations
    ensures SeenVersion(root, cells, operations, filesValid, |operations|, v)
  {
    hide ListCells, ListOperations, LoadArtifact, HoldsArtifact, BatchBound, ImagesReadable;
    var cm, om := ListCells(root).value, ListOperations(root).value;
    if s :| s in cm && cm[s].schemaVersion == v {
      var i :| 0 <= i < |cells| && cells[i] == cm[s];
    } else if s :| s in om && om[s].schemaVersion == v {
      var i :| 0 <= i < |operations| && operations[i] == om[s];
    } else {
      var s :| s in om && HoldsArtifact(om[s])
        && LoadArtifact(root, om[s].cellId, om[s].id, om[s].id in filesValid).value.schemaVersion == v;
      var i :| 0 <= i < |operations| && operations[i] == om[s];
      assert ArtifactHasVersion(root, operations[i], filesValid, v);
    }
  }

  lemma ArtifactsLoadInLists(root: Root, filesValid: set<Uuid>, os: seq<string>, operations: seq<OperationRecord>)
    requires ListOperations(root).Ok? && Listed(ListOperations(root).value, os, operations)
    ensures ArtifactsLoad(root, ListOperations(root).value, filesValid) <==>
            forall i :: 0 <= i < |operations| && HoldsArtifact(operations[i]) ==>
              LoadArtifact(root, operations[i].cellId, operations[i].id, operations[i].id in filesValid).Ok?
  {
    hide ListOperations, LoadArtifact, HoldsArtifact, Sorted;
    ListedValues(ListOperations(root).value, os, operations);
  }

  lemma FormatReported(root: Root, filesValid: set<Uuid>, cs: seq<string>, cells: seq<CellRecord>, os: seq<string>,
                       operations: seq<OperationRecord>, format: nat)
    requires Compatible(root, filesValid)
    requires Listed(ListCells(root).value, cs, cells) && Listed(ListOperations(root).value, os, operations)
    requires Greatest(root, cells, operations, filesValid, |operations|, format)
    ensures Reported(root, filesValid, format)
  {
    hide Compatible, Listed, SeenVersion, Active, ListCells, ListOperations;
    forall v: nat
      ensures Active(root, filesValid, v) <==> SeenVersion(root, cells, operations, filesValid, |operations|, v)
    {
      SeenIsActive(root, filesValid, cs, cells, os, operations, v);
    }
    if cells == [] && operations == [] {
      NothingSeen(root, filesValid);
    }
  }

  lemma NothingSeen(root: Root, filesValid: set<Uuid>)
    ensures forall v: nat :: !SeenVersion(root, [], [], filesValid, 0, v)
  {
  }

  /** The part of the check behind the listings: the greatest version and the number of artifacts. The second
      uniqueness check and the batch check never refuse. */
  method CheckLists(root: Root, filesValid: set<Uuid>, cells: seq<CellRecord>, operations: seq<OperationRecord>,
                    ghost cs: seq<string>, ghost os: seq<string>)
    returns (r: Option<(nat, nat)>)
    requires ImagesReadable(root) && ListCells(root).Ok? && ListOperations(root).Ok?
    requires Listed(ListCells(root).value, cs, cells) && Listed(ListOperations(root).value, os, operations)
    ensures r.Some? <==> Compatible(root, filesValid)
    ensures r.Some? ==>
              && Reported(root, filesValid, r.value.0) && r.value.0 in {1, 2} && (r.value.0 == 2 <==> SomeJob(root))
              && r.value.1 == |ArtifactHolders(ListOperations(root).value)|
  {
    hide Listed, ImagesReadable, ListCells, ListOperations, SomeJob, ArtifactHolders, Greatest, Reported;
    hide BoundIn, BatchBound, LoadArtifact, HoldsArtifact, JobsDistinct, ArtifactsLoad;
    var unique := ValidateUniqueCellJobIds(cells);
    RedactedCells(root, cs, cells);
    ListedEntries(ListCells(root).value, cs, cells);
    var bound := ValidateJobOperationBindings(cells, operations, ListCells(root).value);
    BatchAccepts(root, os, operations);
    assert unique && bound;
    BatchFollowsListing(root);
    var format := GreatestVersion(root, cells, operations, filesValid);
    r := CheckArtifacts(root, cells, operations, filesValid, format, os, ListOperations(root).value);
    ArtifactsLoadInLists(root, filesValid, os, operations);
    if r.Some? {
      FormatReported(root, filesValid, cs, cells, os, operations, r.value.0);
      FormatMeansJob(root, filesValid, r.value.0);
    }
  }

  lemma ListedEntries<T(!new)>(all: map<string, T>, stems: seq<string>, list: seq<T>)
    requires Listed(all, stems, list)
    ensures |list| == |stems| && forall i :: 0 <= i < |list| ==> stems[i] in all && list[i] == all[stems[i]]
  {
  }

  /** `check_compatibility`: accepts exactly the compatible roots, and reports their format, what they hold, and
      whether that is nothing. */
  method CheckCompatibility(root: Root, filesValid: set<Uuid>, installation: Installation) returns (r: Option<Report>)
    ensures r.Some? <==> installation != InstallationRefused && Compatible(root, filesValid)
    ensures r.Some? ==> Reported(root, filesValid, r.value.format)
    ensures r.Some? ==> r.value.format in {1, 2} && (r.value.format == 2 <==> SomeJob(root))
    ensures r.Some? ==>
              && r.value.counts == Counts(
                   if installation == Installed then 1 else 0, |root.images|, |root.cells|, |root.operations|,
                   |ArtifactHolders(ListOperations(root).value)|)
              && (r.value.empty <==> installation == NotInstalled && root == EMPTY.(artifacts := root.artifacts))
  {
    if installation == InstallationRefused {
      return None;
    }
    ReadableImages(root);
    ListedKeys(root);
    hide Sorted, ReadInOrder, FileError, CellsReadable, OperationsReadable, ImagesReadable, ListCells, ListOperations;
    hide SomeJob, ArtifactHolders, Reported, BatchBound, ArtifactsLoad, Listed;
    var images, imageStems := ReadJsonDirectory(root.images, ValidateImageSchema);
    if images.Err? {
      return None;
    }
    ReadSize(root.images, ValidateImageSchema, imageStems, images.value);
    var cells, cs := ListCellsInOrder(root);
    if cells.Err? {
      return None;
    }
    var operations, os := ListOperationsInOrder(root);
    if operations.Err? {
      return None;
    }
    var checked := CheckLists(root, filesValid, cells.value, operations.value, cs, os);
    if checked.None? {
      return None;
    }
    ListedValues(ListCells(root).value, cs, cells.value);
    ListedValues(ListOperations(root).value, os, operations.value);
    NothingHeld(ListOperations(root).value);
    var installations := if installation == Installed then 1 else 0;
    var counts := Counts(installations, |images.value|, |cells.value|, |operations.value|, checked.value.1);
    return Some(Report(checked.value.0, counts == Counts(0, 0, 0, 0, 0), counts));
  }

  lemma ListedKeys(root: Root)
    ensures ListCells(root).Ok? ==> |ListCells(root).value| == |root.cells|
    ensures ListOperations(root).Ok? ==> |ListOperations(root).value| == |root.operations|
  {
    hide ValidateCellSchema, ValidateOperationSchema, JobIdsUnique, CheckParentForRead, RedactCellDiagnostic;
    if ListCells(root).Ok? {
      assert ListCells(root).value.Keys == root.cells.Keys;
    }
    if ListOperations(root).Ok? {
      assert ListOperations(root).value.Keys == root.operations.Keys;
    }
  }

  lemma ReadSize<T(!new)>(files: map<string, File<T>>, validate: (string, T) -> Option<StateError>, stems: seq<string>,
                          records: seq<T>)
    requires Sorted(files.Keys, stems) && ReadInOrder(files, validate, stems, Ok(records))
    ensures |records| == |files|
  {
    hide InPathOrder;
    SortedSize(files.Keys, stems);
  }

  lemma NothingHeld(operations: map<string, OperationRecord>)
    ensures |operations| == 0 ==> |ArtifactHolders(operations)| == 0
  {
    hide HoldsArtifact;
    assert |operations| == 0 ==> ArtifactHolders(operations) == {};
  }
}
