/** `write_json_atomic` step by step (`src/state/mod.rs`), on the disk of `CrashSafety`. */
module AtomicFiles {
  import opened Prelude
  import opened FileNames
  import opened DirectoryViews
  import opened CrashSafety

  /** A disk and, for the specification, the history of effects on it. */
  class AtomicFiles<D(!new), T(!new)> {
    var disk: Disk<D>
    ghost var log: seq<Effect<D, T>>
    ghost var marks: seq<nat>
    ghost var finished: seq<(nat, Effect<D, T>)>

    ghost function State(writer: Writer<D, T>): Machine<D, T>
      reads this
    {
      Machine(disk, writer, log, marks, finished)
    }

    /** Between saves no writer is busy. */
    ghost predicate Valid()
      reads this
    {
      InOrder(State(Idle))
    }

    constructor ()
      ensures Valid() && log == [] && finished == [] && disk == Disk(map[], map[], [])
    {
      disk := Disk(map[], map[], []);
      log, marks, finished := [], [0], [];
      new;
      var m: Machine<D, T> := Initial();
      RunInOrder([m], [], 0);
      hide InOrder;
    }

    /** Gives up a write: the temporary file is removed when that still works. */
    method Abandon(ghost m: Machine<D, T>, aside: Path, cleanup: bool)
      requires InOrder(m) && m.writer.Busy? && m.writer.effect.data.Some? && m.writer.aside == aside
               && State(m.writer) == m
      modifies this
      ensures Valid() && log == old(log) && finished == old(finished)
      ensures cleanup ==> disk == RemoveFile(old(disk), aside)
      ensures !cleanup ==> disk == old(disk)
    {
      EventKeeps(m, Fail(cleanup));
      hide InOrder;
      if cleanup {
        disk := RemoveFile(disk, aside);
        marks := marks + [|log|];
      }
    }

    /** Create, write and sync the temporary file; nothing shows yet. */
    method WriteTemporary(ghost m: Machine<D, T>, aside: Path, inode: nat, data: D, fault: Option<Stage>)
      returns (ok: bool, ghost m': Machine<D, T>)
      requires InOrder(m) && State(m.writer) == m
      requires m.writer.Busy? && m.writer.stage == Started && m.writer.aside == aside && m.writer.inode == inode
      requires m.writer.effect.data == Some(data)
      modifies this
      ensures InOrder(m') && State(m'.writer) == m' && log == old(log) && finished == old(finished)
      ensures m'.writer.Busy? && m'.writer == m.writer.(stage := m'.writer.stage)
      ensures ok <==> fault != Some(Started) && fault != Some(Created) && fault != Some(Written)
      ensures ok ==> m'.writer.stage == Synced
    {
      hide InOrder;
      m' := m;
      if fault == Some(Started) {
        return false, m';
      }
      EventKeeps(m', Advance);
      m' := Next(m', Advance);
      disk := CreateTemporary(disk, aside, inode);
      marks := marks + [|log|];
      if fault == Some(Created) {
        return false, m';
      }
      EventKeeps(m', Advance);
      m' := Next(m', Advance);
      disk := WriteAll(disk, inode, data);
      if fault == Some(Written) {
        return false, m';
      }
      EventKeeps(m', Advance);
      m' := Next(m', Advance);
      disk := SyncFile(disk, inode);
      ok := true;
    }

    /** Rename over the target and sync the directory. */
    method Commit(ghost m: Machine<D, T>, aside: Path, target: Path, fault: Option<Stage>)
      returns (ok: bool, ghost m': Machine<D, T>)
      requires InOrder(m) && State(m.writer) == m
      requires m.writer.Busy? && m.writer.stage == Synced && m.writer.aside == aside && m.writer.effect.path == target
      requires m.writer.effect.data.Some?
      modifies this
      ensures InOrder(m') && State(m'.writer) == m'
      ensures ok <==> fault != Some(Synced) && fault != Some(Renamed)
      ensures log == if fault == Some(Synced) then old(log) else old(log) + [m.writer.effect]
      ensures finished == if ok then old(finished) + [(|old(log)|, m.writer.effect)] else old(finished)
      ensures ok ==> m'.writer.Idle? && disk.journal == []
      ensures !ok ==> m'.writer.Busy? && m'.writer == m.writer.(stage := m'.writer.stage)
    {
      hide InOrder;
      m' := m;
      if fault == Some(Synced) {
        return false, m';
      }
      EventKeeps(m', Advance);
      m' := Next(m', Advance);
      disk := Rename(disk, aside, target);
      log := log + [m.writer.effect];
      marks := marks + [|log|];
      if fault == Some(Renamed) {
        return false, m';
      }
      EventKeeps(m', Advance);
      m' := Next(m', Advance);
      disk := SyncDirectory(disk);
      finished := finished + [(|log| - 1, m.writer.effect)];
      marks := [|log|];
      ok := true;
    }

    /** The atomic write. `fault` is the stage whose step reports an error, if any. The write takes
        effect exactly when its rename happens; a reported success is durable and recorded as such. */
    method WriteJsonAtomic(effect: Effect<D, T>, unique: Uuid, inode: nat, fault: Option<Stage>, cleanup: bool)
      returns (ok: bool)
      requires Valid() && WellNamed(effect) && effect.data.Some? && inode !in disk.inodes
      modifies this
      ensures Valid()
      ensures ok <==> fault.None?
      ensures log == if fault.None? || fault == Some(Renamed) then old(log) + [effect] else old(log)
      ensures finished == if ok then old(finished) + [(|old(log)|, effect)] else old(finished)
      ensures ok ==> disk.journal == []
    {
      hide InOrder, Next, AsideOf, WellNamed;
      assert fault.Some? ==>
          || fault.value.Started? || fault.value.Created? || fault.value.Written?
          || fault.value.Synced? || fault.value.Renamed?;
      ghost var m := State(Idle);
      ghost var m' := Begun(m, effect, unique, inode);
      var aside := AsideOf(effect, unique);
      ok, m' := WriteTemporary(m', aside, inode, effect.data.value, fault);
      if ok {
        ok, m' := Commit(m', aside, effect.path, fault);
      }
      if !ok {
        Abandon(m', aside, cleanup);
      }
    }
  }

  lemma Begun<D(!new), T(!new)>(m: Machine<D, T>, effect: Effect<D, T>, unique: Uuid, inode: nat)
    returns (m': Machine<D, T>)
    requires InOrder(m) && m.writer.Idle? && WellNamed(effect) && effect.data.Some? && inode !in m.disk.inodes
    ensures InOrder(m') && m' == m.(writer := Busy(Started, effect, AsideOf(effect, unique), inode))
  {
    EventKeeps(m, Begin(effect, unique, inode));
    m' := Next(m, Begin(effect, unique, inode));
    hide InOrder;
  }
}
