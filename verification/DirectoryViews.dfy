/** Directories as scans see them: the `.json` files by stem, and how one write or removal shows. */
module DirectoryViews {
  import opened Prelude
  import opened FileNames

  datatype Directory = Cells | Operations | Images | ArtifactOf(cell: string, operation: string)
  datatype Path = Path(directory: Directory, name: string)

  const MANIFEST := "manifest.json"

  predicate OnlyRecords<D>(view: map<Path, D>) { forall p :: p in view ==> IsRecordName(p.name) }

  function Stems<D>(view: map<Path, D>, directory: Directory): set<string> {
    set p | p in view && p.directory == directory :: Stem(p.name)
  }

  /** The visible files of one directory by stem. */
  function FilesIn<D>(view: map<Path, D>, directory: Directory): map<string, D> {
    map s | s in Stems(view, directory) && Path(directory, RecordName(s)) in view ::
      view[Path(directory, RecordName(s))]
  }

  function ManifestKeys<D>(view: map<Path, D>): set<(string, string)> {
    set p | p in view && p.directory.ArtifactOf? && p.name == MANIFEST :: (p.directory.cell, p.directory.operation)
  }

  /** The artifact manifests by cell and operation. */
  function ManifestsIn<D>(view: map<Path, D>): map<(string, string), D> {
    map k | k in ManifestKeys(view) && Path(ArtifactOf(k.0, k.1), MANIFEST) in view ::
      view[Path(ArtifactOf(k.0, k.1), MANIFEST)]
  }

  lemma RecordNameInjective(a: string, b: string)
    ensures RecordName(a) == RecordName(b) <==> a == b
  {
    assert RecordName(a)[..|RecordName(a)| - 5] == a && RecordName(b)[..|RecordName(b)| - 5] == b;
  }

  /** A stem stands for exactly one visible file of its directory. */
  lemma FileByStem<D>(view: map<Path, D>, directory: Directory, s: string)
    requires OnlyRecords(view)
    ensures s in FilesIn(view, directory) <==> Path(directory, RecordName(s)) in view && s != ""
    ensures s in FilesIn(view, directory) ==> FilesIn(view, directory)[s] == view[Path(directory, RecordName(s))]
  {
    if s in FilesIn(view, directory) {
      var p :| p in view && p.directory == directory && Stem(p.name) == s;
      KeptNameIsRecordName(p.name);
    }
    if Path(directory, RecordName(s)) in view && s != "" {
      RecordNameKept(s);
      assert Stem(Path(directory, RecordName(s)).name) == s;
    }
  }

  lemma FileUpdatedAt<D>(view: map<Path, D>, path: Path, data: D, directory: Directory, s: string)
    requires OnlyRecords(view) && IsRecordName(path.name) && OnlyRecords(view[path := data])
             && OnlyRecords(view - {path})
    ensures PointUpdated(FilesIn(view, directory), FilesIn(view[path := data], directory),
            FilesIn(view - {path}, directory),
                         path.directory == directory, Stem(path.name), data, s)
  {
    KeptNameIsRecordName(path.name);
    FileByStem(view, directory, s);
    FileByStem(view[path := data], directory, s);
    FileByStem(view - {path}, directory, s);
    RecordNameInjective(s, Stem(path.name));
    hide Stem, IsRecordName, OnlyRecords, RecordName, FilesIn;
    assert path == Path(path.directory, RecordName(Stem(path.name)));
  }

  /** One written or removed file shows in its own directory under its stem, and nowhere else. */
  lemma FilesUpdated<D>(view: map<Path, D>, path: Path, data: D, directory: Directory)
    requires OnlyRecords(view) && IsRecordName(path.name)
    ensures OnlyRecords(view[path := data]) && OnlyRecords(view - {path})
    ensures FilesIn(view[path := data], directory) ==
            if path.directory == directory then FilesIn(view, directory)[Stem(path.name) := data]
              else FilesIn(view, directory)
    ensures FilesIn(view - {path}, directory) ==
            if path.directory == directory then FilesIn(view, directory) - {Stem(path.name)}
              else FilesIn(view, directory)
  {
    assert OnlyRecords(view[path := data]) && OnlyRecords(view - {path});
    hide Stem, IsRecordName, OnlyRecords, FilesIn;
    var before, written, removed := FilesIn(view, directory), FilesIn(view[path := data], directory),
        FilesIn(view - {path}, directory);
    var inHere, id := path.directory == directory, Stem(path.name);
    forall s
      ensures PointUpdated(before, written, removed, inHere, id, data, s)
    {
      FileUpdatedAt(view, path, data, directory, s);
    }
    UpdatedEverywhere(before, written, removed, inHere, id, data);
  }

  ghost predicate PointUpdated<D>(before: map<string, D>, written: map<string, D>, removed: map<string, D>,
                                  inHere: bool, id: string,
                                   data: D, s: string)
  {
    var here := inHere && s == id;
    && (s in written <==> here || s in before)
    && (s in written ==> written[s] == if here then data else before[s])
    && (s in removed <==> !here && s in before)
    && (s in removed ==> removed[s] == before[s])
  }

  lemma UpdatedEverywhere<D>(before: map<string, D>, written: map<string, D>, removed: map<string, D>, inHere: bool,
                             id: string, data: D)
    requires forall s :: PointUpdated(before, written, removed, inHere, id, data, s)
    ensures written == if inHere then before[id := data] else before
    ensures removed == if inHere then before - {id} else before
  {
    forall s
      ensures s in written <==> s in (if inHere then before[id := data] else before)
      ensures s in removed <==> s in (if inHere then before - {id} else before)
      ensures s in written ==> written[s] == if inHere && s == id then data else before[s]
      ensures s in removed ==> removed[s] == before[s]
    {
      assert PointUpdated(before, written, removed, inHere, id, data, s);
    }
  }

  lemma ManifestByKey<D>(view: map<Path, D>, k: (string, string))
    ensures k in ManifestsIn(view) <==> Path(ArtifactOf(k.0, k.1), MANIFEST) in view
    ensures k in ManifestsIn(view) ==> ManifestsIn(view)[k] == view[Path(ArtifactOf(k.0, k.1), MANIFEST)]
  {
    hide MANIFEST;
    if Path(ArtifactOf(k.0, k.1), MANIFEST) in view {
      var p := Path(ArtifactOf(k.0, k.1), MANIFEST);
      assert (p.directory.cell, p.directory.operation) == k;
    }
  }

  predicate IsManifest(path: Path) { path.directory.ArtifactOf? && path.name == MANIFEST }

  lemma ManifestsUpdated<D>(view: map<Path, D>, path: Path, data: D)
    ensures ManifestsIn(view[path := data]) ==
            if IsManifest(path) then ManifestsIn(view)[(path.directory.cell, path.directory.operation) := data]
              else ManifestsIn(view)
  {
    hide ManifestsIn, MANIFEST;
    var after := view[path := data];
    var expected := if IsManifest(path) then ManifestsIn(view)[(path.directory.cell, path.directory.operation) := data]
        else ManifestsIn(view);
    forall k
      ensures k in ManifestsIn(after) <==> k in expected
      ensures k in expected ==> ManifestsIn(after)[k] == expected[k]
    {
      ManifestByKey(view, k);
      ManifestByKey(after, k);
    }
  }

  lemma ManifestsRemoved<D>(view: map<Path, D>, path: Path)
    ensures ManifestsIn(view - {path}) ==
            if IsManifest(path) then ManifestsIn(view) - {(path.directory.cell, path.directory.operation)}
              else ManifestsIn(view)
  {
    hide ManifestsIn, MANIFEST;
    var after := view - {path};
    var expected := if IsManifest(path) then ManifestsIn(view) - {(path.directory.cell, path.directory.operation)}
        else ManifestsIn(view);
    forall k
      ensures k in ManifestsIn(after) <==> k in expected
      ensures k in expected ==> ManifestsIn(after)[k] == expected[k]
    {
      ManifestByKey(view, k);
      ManifestByKey(after, k);
    }
  }
}
