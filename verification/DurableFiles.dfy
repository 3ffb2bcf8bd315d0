/** The record store on a crash-safe disk: files of each kind of record, and runs of admitted changes. */
module DurableFiles {
  import opened Prelude
  import opened FileNames
  import opened Records
  import opened RecordStore
  import opened RecordStoreTheorems
  import opened DirectoryViews
  import opened CrashSafety

  datatype Data =
    | CellJson(cell: CellRecord)
    | OperationJson(operation: OperationRecord)
    | ArtifactJson(artifact: ArtifactRecord)
    | ImageJson(image: ImageRecord)

  type Visibles = map<Path, Option<Data>>

  function AsCell(d: Option<Data>): File<CellRecord> {
    if d.Some? && d.value.CellJson? then Json(d.value.cell) else Garbage
  }
  function AsOperation(d: Option<Data>): File<OperationRecord> {
    if d.Some? && d.value.OperationJson? then Json(d.value.operation) else Garbage
  }
  function AsArtifact(d: Option<Data>): File<ArtifactRecord> {
    if d.Some? && d.value.ArtifactJson? then Json(d.value.artifact) else Garbage
  }
  function AsImage(d: Option<Data>): File<ImageRecord> {
    if d.Some? && d.value.ImageJson? then Json(d.value.image) else Garbage
  }

  function ParsedCells(files: map<string, Option<Data>>): map<string, File<CellRecord>> {
    map s | s in files :: AsCell(files[s])
  }
  function ParsedOperations(files: map<string, Option<Data>>): map<string, File<OperationRecord>> {
    map s | s in files :: AsOperation(files[s])
  }
  function ParsedImages(files: map<string, Option<Data>>): map<string, File<ImageRecord>> {
    map s | s in files :: AsImage(files[s])
  }
  function ParsedArtifacts(files: map<(string, string), Option<Data>>): map<(string, string), File<ArtifactRecord>> {
    map k | k in files :: AsArtifact(files[k])
  }

  /** The state root a reader makes of the visible files. */
  function RootOf(view: Visibles): Root {
    Root(ParsedCells(FilesIn(view, Cells)), ParsedOperations(FilesIn(view, Operations)),
         ParsedArtifacts(ManifestsIn(view)), ParsedImages(FilesIn(view, Images)))
  }

  // ----- Changes as files ------------------------------------------------

  function Target(change: Change): Path {
    match change
    case PutCell(c) => Path(Cells, RecordName(c.id))
    case PutOperation(r) => Path(Operations, RecordName(r.id))
    case PutArtifact(r, _) => Path(ArtifactOf(r.cellId, r.id), MANIFEST)
    case PutImage(r) => Path(Images, RecordName(r.id))
    case DropImage(id) => Path(Images, RecordName(id))
    case DropArtifact(c, o) => Path(ArtifactOf(c, o), MANIFEST)
  }

  function Contents(change: Change): Option<Data> {
    match change
    case PutCell(c) => Some(CellJson(RedactCellDiagnostic(c)))
    case PutOperation(r) => Some(OperationJson(r))
    case PutArtifact(r, _) => Some(ArtifactJson(r))
    case PutImage(r) => Some(ImageJson(r))
    case DropImage(_) => None
    case DropArtifact(_, _) => None
  }

  function EffectOf(change: Change): Effect<Data, Change> { Effect(Target(change), Contents(change), change) }

  lemma TargetNames(change: Change)
    ensures IsRecordName(Target(change).name)
    ensures change.PutCell? ==> Stem(Target(change).name) == change.cell.id
    ensures change.PutOperation? ==> Stem(Target(change).name) == change.operation.id
    ensures change.PutImage? ==> Stem(Target(change).name) == change.image.id
    ensures change.DropImage? ==> Stem(Target(change).name) == change.imageId
  {
    match change
    case PutCell(c) => RecordNameKept(c.id);
    case PutOperation(r) => RecordNameKept(r.id);
    case PutImage(r) => RecordNameKept(r.id);
    case DropImage(id) => RecordNameKept(id);
    case PutArtifact(_, _) => ManifestIsRecord();
    case DropArtifact(_, _) => ManifestIsRecord();
  }

  lemma ManifestIsRecord()
    ensures IsRecordName(MANIFEST)
  {
    RecordNameKept("manifest");
    assert RecordName("manifest") == MANIFEST;
  }

  /** How one effect shows in one scanned directory. */
  lemma FilesAffected(view: Visibles, change: Change, directory: Directory)
    requires OnlyRecords(view) && !directory.ArtifactOf?
    ensures OnlyRecords(Affected(view, EffectOf(change)))
    ensures FilesIn(Affected(view, EffectOf(change)), directory) ==
            match change
            case PutCell(c) => if directory == Cells then FilesIn(view, directory)[c.id := Contents(change)]
              else FilesIn(view, directory)
            case PutOperation(r) => if directory == Operations then FilesIn(view, directory)[r.id := Contents(change)]
              else FilesIn(view, directory)
            case PutImage(r) => if directory == Images then FilesIn(view, directory)[r.id := Contents(change)]
              else FilesIn(view, directory)
            case DropImage(id) => if directory == Images then FilesIn(view, directory) - {id}
              else FilesIn(view, directory)
            case _ => FilesIn(view, directory)
  {
    TargetNames(change);
    FilesUpdated(view, Target(change), Contents(change), directory);
    hide FilesIn, Stem, RecordName, IsRecordName, OnlyRecords, RedactCellDiagnostic, MANIFEST, IsUuidText, IsImageId;
  }

  lemma ManifestsAffected(view: Visibles, change: Change)
    ensures ManifestsIn(Affected(view, EffectOf(change))) ==
            match change
            case PutArtifact(r, _) => ManifestsIn(view)[(r.cellId, r.id) := Contents(change)]
            case DropArtifact(c, o) => ManifestsIn(view) - {(c, o)}
            case _ => ManifestsIn(view)
  {
    ManifestsUpdated(view, Target(change), Contents(change));
    ManifestsRemoved(view, Target(change));
    hide ManifestsIn, RecordName, RedactCellDiagnostic, MANIFEST, IsUuidText, IsImageId;
  }

  lemma CellsAffected(view: Visibles, change: Change)
    requires OnlyRecords(view)
    ensures ParsedCells(FilesIn(Affected(view, EffectOf(change)), Cells)) ==
            if change.PutCell?
            then ParsedCells(FilesIn(view, Cells))[change.cell.id := Json(RedactCellDiagnostic(change.cell))]
            else ParsedCells(FilesIn(view, Cells))
  {
    FilesAffected(view, change, Cells);
    hide FilesIn, OnlyRecords, RedactCellDiagnostic, IsUuidText, IsImageId, Affected, EffectOf;
  }

  lemma OperationsAffected(view: Visibles, change: Change)
    requires OnlyRecords(view)
    ensures ParsedOperations(FilesIn(Affected(view, EffectOf(change)), Operations)) ==
            if change.PutOperation?
            then ParsedOperations(FilesIn(view, Operations))[change.operation.id := Json(change.operation)]
            else ParsedOperations(FilesIn(view, Operations))
  {
    FilesAffected(view, change, Operations);
    hide FilesIn, OnlyRecords, RedactCellDiagnostic, IsUuidText, IsImageId, Affected, EffectOf;
  }

  lemma ImagesAffected(view: Visibles, change: Change)
    requires OnlyRecords(view)
    ensures ParsedImages(FilesIn(Affected(view, EffectOf(change)), Images)) ==
            if change.PutImage? then ParsedImages(FilesIn(view, Images))[change.image.id := Json(change.image)]
            else if change.DropImage? then ParsedImages(FilesIn(view, Images)) - {change.imageId}
            else ParsedImages(FilesIn(view, Images))
  {
    FilesAffected(view, change, Images);
    hide FilesIn, OnlyRecords, RedactCellDiagnostic, IsUuidText, IsImageId, Affected, EffectOf, ParsedImages;
    if change.PutImage? {
      ImagesParsed(FilesIn(view, Images), change.image.id, Contents(change));
    } else if change.DropImage? {
      ImagesParsed(FilesIn(view, Images), change.imageId, None);
    }
  }

  lemma ImagesParsed(files: map<string, Option<Data>>, id: string, data: Option<Data>)
    ensures ParsedImages(files[id := data]) == ParsedImages(files)[id := AsImage(data)]
    ensures ParsedImages(files - {id}) == ParsedImages(files) - {id}
  {
    hide AsImage;
  }

  lemma ArtifactsAffected(view: Visibles, change: Change)
    ensures ParsedArtifacts(ManifestsIn(Affected(view, EffectOf(change)))) ==
            if change.PutArtifact?
            then var a := change.artifact; ParsedArtifacts(ManifestsIn(view))[(a.cellId, a.id) := Json(a)]
            else if change.DropArtifact? then ParsedArtifacts(ManifestsIn(view)) - {(change.cellId, change.operationId)}
            else ParsedArtifacts(ManifestsIn(view))
  {
    ManifestsAffected(view, change);
    hide ManifestsIn, RedactCellDiagnostic, IsUuidText, IsImageId, Affected, EffectOf;
  }

  /** One effect on the files is the change of the reader's root. */
  lemma EffectIsApply(view: Visibles, change: Change)
    requires OnlyRecords(view)
    ensures OnlyRecords(Affected(view, EffectOf(change)))
    ensures RootOf(Affected(view, EffectOf(change))) == Apply(RootOf(view), change)
  {
    FilesAffected(view, change, Cells);
    hide FilesIn, ManifestsIn, OnlyRecords, ParsedCells, ParsedOperations, ParsedImages, ParsedArtifacts, Affected;
    hide EffectOf;
    hide RedactCellDiagnostic, IsUuidText, IsImageId;
    CellsAffected(view, change);
    OperationsAffected(view, change);
    ImagesAffected(view, change);
    ArtifactsAffected(view, change);
  }

  // ----- Logs of changes -------------------------------------------------

  type Log = seq<Effect<Data, Change>>

  function Changes(log: Log): (r: seq<Change>)
    ensures |r| == |log|
  {
    seq(|log|, i requires 0 <= i < |log| => log[i].tag)
  }

  /** Every effect in the log is the file form of its change. */
  ghost predicate FromChanges(log: Log) {
    forall i :: 0 <= i < |log| ==> log[i] == EffectOf(log[i].tag)
  }

  lemma {:induction false} ShownIsReplay(log: Log)
    requires FromChanges(log)
    ensures OnlyRecords(Shown(log)) && RootOf(Shown(log)) == Replay(Changes(log))
    decreases |log|
  {
    hide RootOf, OnlyRecords, Apply, Affected, Target, Contents;
    if log == [] {
      EmptyRoot();
    } else {
      var shorter, last := log[..|log| - 1], log[|log| - 1];
      ShownIsReplay(shorter);
      assert last == EffectOf(last.tag);
      assert Changes(log)[..|log| - 1] == Changes(shorter);
      EffectIsApply(Shown(shorter), last.tag);
    }
  }

  lemma EmptyRoot()
    ensures OnlyRecords<Option<Data>>(map[]) && RootOf(map[]) == EMPTY
  {
    var view: Visibles := map[];
    assert FilesIn(view, Cells) == map[] && FilesIn(view, Operations) == map[] && FilesIn(view, Images) == map[];
    assert ManifestsIn(view) == map[];
  }

  // ----- Runs of the store -----------------------------------------------

  type Store = Machine<Data, Change>
  type StoreEvent = Event<Data, Change>

  /** A save begins, and a removal happens, only when the store's checks pass on what readers see. */
  ghost predicate Admissible(m: Store, e: StoreEvent) {
    match e
    case Begin(x, _, _) => x == EffectOf(x.tag) && !x.tag.DropArtifact? && Admit(RootOf(View(m.disk)), x.tag).None?
    case RemoveNow(x) => x == EffectOf(x.tag) && x.tag.DropArtifact?
    case _ => true
  }

  ghost predicate StoreRun(states: seq<Store>, events: seq<StoreEvent>) {
    && Run(states, events)
    && forall i :: 0 <= i < |events| ==> Admissible(states[i], events[i])
  }

  ghost predicate LogInOrder(m: Store) {
    && FromChanges(m.log)
    && Lawful(Changes(m.log))
    && (m.writer.Busy? ==> m.writer.effect == EffectOf(m.writer.effect.tag))
    && (m.writer.Busy? && m.writer.stage != Renamed ==> Admit(Replay(Changes(m.log)), m.writer.effect.tag).None?)
  }

  lemma LogAppend(log: Log, change: Change)
    requires FromChanges(log) && Lawful(Changes(log)) && Admit(Replay(Changes(log)), change).None?
    ensures FromChanges(log + [EffectOf(change)]) && Lawful(Changes(log + [EffectOf(change)]))
  {
    ReplayAppend(Changes(log), change);
    assert Changes(log + [EffectOf(change)]) == Changes(log) + [change];
    hide Lawful, Admit, Replay, Target, Contents;
  }

  lemma {:induction false} LawfulPrefix(history: seq<Change>, n: nat)
    requires Lawful(history) && n <= |history|
    ensures Lawful(history[..n])
    decreases |history|
  {
    hide Admit, Replay;
    if n == |history| {
      assert history[..n] == history;
    } else {
      LawfulPrefix(history[..|history| - 1], n);
      assert history[..|history| - 1][..n] == history[..n];
    }
  }

  lemma LogPrefix(log: Log, n: nat)
    requires FromChanges(log) && Lawful(Changes(log)) && n <= |log|
    ensures FromChanges(log[..n]) && Lawful(Changes(log[..n])) && Changes(log[..n]) == Changes(log)[..n]
  {
    LawfulPrefix(Changes(log), n);
    hide Lawful, Target, Contents;
    assert Changes(log[..n]) == Changes(log)[..n];
  }

  lemma LogBegins(m: Store, e: StoreEvent)
    requires LogInOrder(m) && e.Begin? && Enabled(m, e) && Admissible(m, e)
             && RootOf(View(m.disk)) == Replay(Changes(m.log))
    ensures LogInOrder(Next(m, e))
  {
    hide Lawful, Replay, RootOf, View, FromChanges, EffectOf, Changes, Admit, AsideOf;
  }

  lemma LogAdvances(m: Store)
    requires LogInOrder(m) && Enabled(m, Advance)
    ensures LogInOrder(Next(m, Advance))
  {
    AdvanceLog(m);
    if m.writer.stage == Synced {
      LogAppend(m.log, m.writer.effect.tag);
    }
    hide Lawful, Replay, RootOf, View, FromChanges, EffectOf, Changes, Admit, Next, Enabled;
  }

  lemma LogStep(m: Store, e: StoreEvent)
    requires LogInOrder(m) && Enabled(m, e) && Admissible(m, e) && RootOf(View(m.disk)) == Replay(Changes(m.log))
    ensures LogInOrder(Next(m, e))
  {
    hide Lawful, Replay, RootOf, View, FromChanges, EffectOf, Changes, Next, Enabled;
    if e.Begin? {
      LogBegins(m, e);
    } else if e.Advance? {
      LogAdvances(m);
    } else {
      OtherLog(m, e);
      if e.RemoveNow? {
        LogAppend(m.log, e.removal.tag);
      } else if e.PowerLoss? {
        LogPrefix(m.log, m.marks[e.kept]);
      }
    }
  }

  lemma {:induction false} StoreLog(states: seq<Store>, events: seq<StoreEvent>, i: nat)
    requires StoreRun(states, events) && i < |states|
    ensures LogInOrder(states[i]) && RootOf(View(states[i].disk)) == Replay(Changes(states[i].log))
    decreases i
  {
    CrashRefinement(states, events, i);
    hide View, Shown, RootOf, Replay;
    if i > 0 {
      StoreLog(states, events, i - 1);
      hide LogInOrder, Enabled, Next, Admissible;
      LogStep(states[i - 1], events[i - 1]);
    }
    LogOf(states[i]);
    ShownIsReplay(states[i].log);
  }

  lemma LogOf(m: Store)
    requires LogInOrder(m)
    ensures FromChanges(m.log)
  {
    hide FromChanges, Lawful, Admit;
  }

  /** In every state of every run of the store, with errors, crashes and power loss anywhere,
      readers see the result of a lawful history of changes, and that root is in order. */
  lemma EveryStateReadable(states: seq<Store>, events: seq<StoreEvent>, i: nat)
    requires StoreRun(states, events) && i < |states|
    ensures Lawful(Changes(states[i].log))
    ensures RootOf(View(states[i].disk)) == Replay(Changes(states[i].log))
    ensures Invariant(RootOf(View(states[i].disk)))
  {
    StoreLog(states, events, i);
    ReachableInvariant(Changes(states[i].log));
    hide View, RootOf, Replay, Lawful, Invariant, Changes, Admit;
  }
}
