/** The store: checks, then the atomic write, under the mutation guard (`src/state/mod.rs`). */
module StateStoreModel {
  import opened Prelude
  import opened FileNames
  import opened Records
  import opened RecordStore
  import opened RecordStoreTheorems
  import opened DirectoryViews
  import opened CrashSafety
  import opened DurableFiles
  import opened AtomicFiles

  /** The store under its mutation guard, so that it has one writer. */
  class StateStore {
    const files: AtomicFiles<Data, Change>

    ghost predicate Valid()
      reads this, files
    {
      files.Valid() && LogInOrder(files.State(Idle))
    }

    function CurrentRoot(): Root
      reads this, files
    {
      RootOf(View(files.disk))
    }

    constructor ()
      ensures Valid() && CurrentRoot() == EMPTY && fresh(files)
    {
      files := new AtomicFiles();
      new;
      FreshStore(files.State(Idle));
      hide InOrder, LogInOrder, RootOf, View;
    }

    /** A guarded save of a cell, operation, artifact manifest or image: refused without a trace when
        a check fails; otherwise the root becomes the changed root, or stays, as a whole. */
    method Save(change: Change, unique: Uuid, inode: nat, fault: Option<Stage>, cleanup: bool)
      returns (r: Result<(), StateError>)
      requires Valid() && Contents(change).Some? && inode !in files.disk.inodes
      modifies files
      ensures Valid()
      ensures Admit(old(CurrentRoot()), change).Some? ==>
              r == Err(Admit(old(CurrentRoot()), change).value) && files.disk == old(files.disk)
      ensures Admit(old(CurrentRoot()), change).None? ==> r == if fault.None? then Ok(()) else Err(Io)
      ensures CurrentRoot() == if r.Ok?
              || (r == Err(Io) && fault == Some(Renamed) && Admit(old(CurrentRoot()), change).None?)
                               then Apply(old(CurrentRoot()), change) else old(CurrentRoot())
      ensures r.Ok? ==> files.disk.journal == []
    {
      hide InOrder, Admit, RootOf, View, Apply, EffectOf, LogInOrder;
      RootIsReplay(files.State(Idle));
      var refused := Admit(CurrentRoot(), change);
      if refused.Some? {
        return Err(refused.value);
      }
      EffectNamed(change);
      ghost var before := files.State(Idle);
      var ok := files.WriteJsonAtomic(EffectOf(change), unique, inode, fault, cleanup);
      SavedLog(before, files.State(Idle), change);
      return if ok then Ok(()) else Err(Io);
    }
  }

  lemma FreshStore(m: Store)
    requires m.log == [] && m.writer.Idle? && m.disk == Disk(map[], map[], [])
    ensures LogInOrder(m) && RootOf(View(m.disk)) == EMPTY
  {
    EmptyRoot();
    assert View(m.disk) == map[];
    assert Changes(m.log) == [];
    hide RootOf, EffectOf;
  }

  lemma EffectNamed(change: Change)
    ensures WellNamed(EffectOf(change)) && EffectOf(change).data == Contents(change)
  {
    TargetNames(change);
    hide IsRecordName, Target;
  }

  lemma RootIsReplay(m: Store)
    requires InOrder(m) && LogInOrder(m)
    ensures RootOf(View(m.disk)) == Replay(Changes(m.log))
  {
    CurrentShows(m.disk, m.log, m.marks);
    ShownIsReplay(m.log);
    hide RootOf, Replay, Shown, Changes, Recoverable, WriterInOrder, FinishedKept, Lawful, Now, Visible;
  }

  /** What the atomic write means for the root: nothing, or exactly the admitted change. */
  lemma SavedLog(before: Store, after: Store, change: Change)
    requires InOrder(before) && LogInOrder(before) && before.writer.Idle?
    requires Admit(RootOf(View(before.disk)), change).None?
    requires InOrder(after) && after.writer.Idle?
             && (after.log == before.log || after.log == before.log + [EffectOf(change)])
    ensures LogInOrder(after)
    ensures after.log == before.log ==> RootOf(View(after.disk)) == RootOf(View(before.disk))
    ensures after.log == before.log + [EffectOf(change)] ==>
            RootOf(View(after.disk)) == Apply(RootOf(View(before.disk)), change)
  {
    hide InOrder, Admit, RootOf, View, EffectOf, FromChanges, Lawful, Replay;
    RootIsReplay(before);
    LogAppend(before.log, change);
    RootIsReplay(after);
    ReplayAppend(Changes(before.log), change);
    AppendedChanges(before.log, change);
  }

  lemma AppendedChanges(log: Log, change: Change)
    ensures Changes(log + [EffectOf(change)]) == Changes(log) + [change]
  {
    hide Target, Contents;
  }
}
