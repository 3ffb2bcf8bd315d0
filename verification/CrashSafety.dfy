/**
 Record files under errors, process crashes and power loss (`write_json_atomic` and the
 rename in `remove_image_record`, `src/state/mod.rs`).

 A disk is a set of inodes and a directory. Directory updates reach the disk in order,
 each atomically; until a directory sync they form a journal of which power loss keeps
 some prefix. Contents survive power loss only when synced; otherwise they may turn into
 anything. A process crash loses only the writer.

 `D` is the type of file contents; `T` tags each effect with what it was for.
 */
module CrashSafety {
  import opened Prelude
  import opened FileNames
  import opened DirectoryViews

  // ----- Disk ------------------------------------------------------------

  datatype Inode<D> = Inode(data: Option<D>, synced: bool)
  datatype Update = Link(path: Path, inode: nat) | Move(source: Path, target: Path) | Unlink(path: Path)
  type Entries = map<Path, nat>
  datatype Disk<D> = Disk(inodes: map<nat, Inode<D>>, base: Entries, journal: seq<Update>)

  function Updated(e: Entries, u: Update): Entries {
    match u
    case Link(p, i) => e[p := i]
    case Move(p, q) => if p in e then (e - {p})[q := e[p]] else e
    case Unlink(p) => e - {p}
  }

  /** The directory after a list of updates. */
  function After(base: Entries, journal: seq<Update>): Entries {
    if journal == [] then base else Updated(After(base, journal[..|journal| - 1]), journal[|journal| - 1])
  }

  /** The directory if power fails when the first `k` journaled updates have reached the disk. */
  function EntriesAt<D>(d: Disk<D>, k: nat): Entries
    requires k <= |d.journal|
  {
    After(d.base, d.journal[..k])
  }

  function Now<D>(d: Disk<D>): Entries { After(d.base, d.journal) }

  /** What scans show: `.json` names only. An unreadable file shows as `None`. */
  function Visible<D>(inodes: map<nat, Inode<D>>, e: Entries): map<Path, Option<D>> {
    map p | p in e && IsRecordName(p.name) :: if e[p] in inodes then inodes[e[p]].data else None
  }

  function View<D>(d: Disk<D>): map<Path, Option<D>> { Visible(d.inodes, Now(d)) }

  // ----- Micro-steps -----------------------------------------------------

  function CreateTemporary<D>(d: Disk<D>, path: Path, inode: nat): Disk<D> {
    d.(inodes := d.inodes[inode := Inode(None, false)], journal := d.journal + [Link(path, inode)])
  }

  function WriteAll<D>(d: Disk<D>, inode: nat, data: D): Disk<D> {
    d.(inodes := d.inodes[inode := Inode(Some(data), false)])
  }

  function SyncFile<D>(d: Disk<D>, inode: nat): Disk<D>
    requires inode in d.inodes
  {
    d.(inodes := d.inodes[inode := Inode(d.inodes[inode].data, true)])
  }

  function Rename<D>(d: Disk<D>, source: Path, target: Path): Disk<D> {
    d.(journal := d.journal + [Move(source, target)])
  }

  function RemoveFile<D>(d: Disk<D>, path: Path): Disk<D> { d.(journal := d.journal + [Unlink(path)]) }

  function SyncDirectory<D>(d: Disk<D>): Disk<D> { Disk(d.inodes, Now(d), []) }

  /** Power loss keeps `k` updates; contents that were never synced may become anything. */
  function LosePower<D>(d: Disk<D>, k: nat, damage: map<nat, D>): Disk<D>
    requires k <= |d.journal|
  {
    Disk(map i | i in d.inodes :: if d.inodes[i].synced then d.inodes[i]
      else Inode(if i in damage then Some(damage[i]) else None, false),
         EntriesAt(d, k), [])
  }

  // ----- Effects ---------------------------------------------------------

  /** A write of a record file, or its removal. */
  datatype Effect<D, T> = Effect(path: Path, data: Option<D>, tag: T)

  predicate WellNamed<D, T>(x: Effect<D, T>) { IsRecordName(x.path.name) }

  function Affected<D, T>(view: map<Path, Option<D>>, x: Effect<D, T>): map<Path, Option<D>> {
    if x.data.Some? then view[x.path := x.data] else view - {x.path}
  }

  /** What readers see after a list of effects. */
  function Shown<D, T>(log: seq<Effect<D, T>>): map<Path, Option<D>> {
    if log == [] then map[] else Affected(Shown(log[..|log| - 1]), log[|log| - 1])
  }

  // ----- The machine -----------------------------------------------------

  datatype Stage = Started | Created | Written | Synced | Renamed

  /** The one writer that holds the mutation lock. `aside` is the temporary file of a
      write, or the retired name of a record being unregistered. */
  datatype Writer<D, T> = Idle | Busy(stage: Stage, effect: Effect<D, T>, aside: Path, inode: nat)

  /** `log` lists the effects that took place and were not lost; `marks[k]` says how many of
      them the directory shows after `k` journaled updates; `finished` are the effects
      reported to the caller as done, with their position in the log. */
  datatype Machine<D, T> = Machine(
    disk: Disk<D>, writer: Writer<D, T>, log: seq<Effect<D, T>>, marks: seq<nat>, finished: seq<(nat, Effect<D, T>)>)

  function Initial<D, T>(): Machine<D, T> { Machine(Disk(map[], map[], []), Idle, [], [0], []) }

  datatype Event<D, T> =
    | Begin(effect: Effect<D, T>, unique: Uuid, inode: nat)
    | Advance
    | Fail(cleanup: bool)
    | Crash
    | PowerLoss(kept: nat, damage: map<nat, D>)
    | RemoveNow(removal: Effect<D, T>)

  function AsideOf<D, T>(x: Effect<D, T>, unique: Uuid): Path {
    Path(x.path.directory, if x.data.Some? then TemporaryName(x.path.name, unique)
      else RetiredName(x.path.name, unique))
  }

  predicate Enabled<D, T>(m: Machine<D, T>, e: Event<D, T>) {
    match e
    case Begin(effect, _, inode) => m.writer.Idle? && WellNamed(effect) && inode !in m.disk.inodes
    case Advance =>
      && m.writer.Busy?
      && (m.writer.effect.data.None? ==> m.writer.stage in {Synced, Renamed})
      && (m.writer.stage in {Written} ==> m.writer.inode in m.disk.inodes)
    case Fail(_) => m.writer.Busy?
    case Crash => true
    case PowerLoss(kept, _) => kept <= |m.disk.journal| && kept < |m.marks| && m.marks[kept] <= |m.log|
    case RemoveNow(removal) => m.writer.Idle? && WellNamed(removal) && removal.data.None?
  }

  /** One micro-step of the writer, in the order of the program: create, write, sync, rename, sync the directory. */
  function Advanced<D, T>(m: Machine<D, T>): Machine<D, T>
    requires Enabled(m, Advance)
  {
    var w := m.writer;
    match w.stage
    case Started =>
      m.(disk := CreateTemporary(m.disk, w.aside, w.inode), writer := w.(stage := Created),
        marks := m.marks + [|m.log|])
    case Created => m.(disk := WriteAll(m.disk, w.inode, w.effect.data.value), writer := w.(stage := Written))
    case Written => m.(disk := SyncFile(m.disk, w.inode), writer := w.(stage := Synced))
    case Synced =>
      m.(disk := if w.effect.data.Some? then Rename(m.disk, w.aside, w.effect.path)
        else Rename(m.disk, w.effect.path, w.aside),
         writer := w.(stage := Renamed), log := m.log + [w.effect], marks := m.marks + [|m.log| + 1])
    case Renamed =>
      m.(disk := SyncDirectory(m.disk), writer := Idle, marks := [|m.log|],
         finished := m.finished + [(if |m.log| > 0 then |m.log| - 1 else 0, w.effect)])
  }

  function Next<D, T>(m: Machine<D, T>, e: Event<D, T>): Machine<D, T>
    requires Enabled(m, e)
  {
    match e
    case Begin(effect, unique, inode) =>
      m.(writer := Busy(if effect.data.Some? then Started else Synced, effect, AsideOf(effect, unique), inode))
    case Advance => Advanced(m)
    case Fail(cleanup) =>
      if cleanup && m.writer.effect.data.Some?
      then m.(disk := RemoveFile(m.disk, m.writer.aside), writer := Idle, marks := m.marks + [|m.log|])
      else m.(writer := Idle)
    case Crash => m.(writer := Idle)
    case PowerLoss(kept, damage) =>
      m.(disk := LosePower(m.disk, kept, damage), writer := Idle, log := m.log[..m.marks[kept]],
        marks := [m.marks[kept]])
    case RemoveNow(removal) =>
      m.(disk := RemoveFile(m.disk, removal.path), log := m.log + [removal], marks := m.marks + [|m.log| + 1])
  }

  // ----- The invariant ---------------------------------------------------

  /** Every name leads to an inode, record names to synced ones, and readers see `shown`. */
  ghost predicate Shows<D(!new)>(inodes: map<nat, Inode<D>>, e: Entries, shown: map<Path, Option<D>>) {
    && (forall p :: p in e ==> e[p] in inodes)
    && (forall p :: p in e && IsRecordName(p.name) ==> inodes[e[p]].synced)
    && Visible(inodes, e) == shown
  }

  ghost predicate MarksInOrder(updates: nat, changes: nat, marks: seq<nat>) {
    && |marks| == updates + 1
    && marks[updates] == changes
    && (forall i, j :: 0 <= i <= j < |marks| ==> marks[i] <= marks[j])
  }

  /** Whenever power fails, readers will see the effects of a prefix of the log. */
  ghost predicate Recoverable<D(!new), T(!new)>(d: Disk<D>, log: seq<Effect<D, T>>, marks: seq<nat>) {
    && MarksInOrder(|d.journal|, |log|, marks)
    && forall k :: 0 <= k <= |d.journal| ==>
       marks[k] <= |log| && Shows(d.inodes, EntriesAt(d, k), Shown(log[..marks[k]]))
  }

  /** No record name leads to this inode. */
  ghost predicate Hidden(e: Entries, inode: nat) {
    forall p :: p in e && IsRecordName(p.name) ==> e[p] != inode
  }

  ghost predicate Unshared<D(!new)>(d: Disk<D>, inode: nat) {
    forall k :: 0 <= k <= |d.journal| ==> Hidden(EntriesAt(d, k), inode)
  }

  ghost predicate WriterInOrder<D(!new), T(!new)>(m: Machine<D, T>) {
    m.writer.Busy? ==>
      var w := m.writer;
      && !IsRecordName(w.aside.name) && WellNamed(w.effect)
      && (w.stage == Renamed ==> m.log != [] && m.log[|m.log| - 1] == w.effect && |m.marks| > 0 && m.marks[0] < |m.log|)
      && (w.effect.data.None? ==> w.stage in {Synced, Renamed})
      && (w.stage == Started ==> w.inode !in m.disk.inodes)
      && (w.effect.data.Some? && w.stage in {Created, Written, Synced} ==>
            w.inode in m.disk.inodes && Unshared(m.disk, w.inode) && w.aside in Now(m.disk)
              && Now(m.disk)[w.aside] == w.inode)
      && (w.stage == Written ==> m.disk.inodes[w.inode].data == w.effect.data)
      && (w.effect.data.Some? && w.stage == Synced ==> m.disk.inodes[w.inode] == Inode(w.effect.data, true))
  }

  /** Effects reported as done are in the log, in order, and before anything power loss can take. */
  ghost predicate FinishedKept<D(!new), T(!new)>(m: Machine<D, T>) {
    && |m.marks| > 0
    && (forall i :: 0 <= i < |m.finished| ==>
          m.finished[i].0 < m.marks[0] && m.finished[i].0 < |m.log| && m.log[m.finished[i].0] == m.finished[i].1)
    && (forall i, j :: 0 <= i < j < |m.finished| ==> m.finished[i].0 < m.finished[j].0)
  }

  ghost predicate InOrder<D(!new), T(!new)>(m: Machine<D, T>) {
    Recoverable(m.disk, m.log, m.marks) && WriterInOrder(m) && FinishedKept(m)
  }

  // ----- How updates show ------------------------------------------------

  lemma NowIsLast<D>(d: Disk<D>)
    ensures EntriesAt(d, |d.journal|) == Now(d)
  {
    assert d.journal[..|d.journal|] == d.journal;
  }

  lemma AppendedEntries<D>(d: Disk<D>, u: Update)
    ensures var d' := d.(journal := d.journal + [u]);
            && (forall k :: 0 <= k <= |d.journal| ==> EntriesAt(d', k) == EntriesAt(d, k))
            && EntriesAt(d', |d.journal| + 1) == Updated(Now(d), u) && Now(d') == Updated(Now(d), u)
  {
    var d' := d.(journal := d.journal + [u]);
    forall k | 0 <= k <= |d.journal|
      ensures EntriesAt(d', k) == EntriesAt(d, k)
    {
      assert d'.journal[..k] == d.journal[..k];
    }
    assert d'.journal[..|d.journal| + 1] == d'.journal && d'.journal[..|d'.journal| - 1] == d.journal;
  }

  lemma HiddenUpdateShows<D(!new)>(inodes: map<nat, Inode<D>>, e: Entries, u: Update, shown: map<Path, Option<D>>)
    requires Shows(inodes, e, shown)
    requires u.Link? || u.Unlink?
    requires !IsRecordName(u.path.name) && (u.Link? ==> u.inode in inodes)
    ensures Shows(inodes, Updated(e, u), shown)
  {
    hide IsRecordName;
    assert Visible(inodes, Updated(e, u)) == Visible(inodes, e);
  }

  /** Renaming the finished temporary file over the target is the whole write, to every reader, at once. */
  lemma CommitShows<D(!new)>(inodes: map<nat, Inode<D>>, e: Entries, shown: map<Path, Option<D>>, target: Path, data: D,
                             aside: Path)
    requires Shows(inodes, e, shown) && !IsRecordName(aside.name) && IsRecordName(target.name)
    requires aside in e && inodes[e[aside]] == Inode(Some(data), true)
    ensures Shows(inodes, Updated(e, Move(aside, target)), shown[target := Some(data)])
  {
    hide IsRecordName;
    assert Visible(inodes, Updated(e, Move(aside, target))) == Visible(inodes, e)[target := Some(data)];
  }

  /** Moving a record to a hidden name, or unlinking it, removes it for every reader. */
  lemma RemovalShows<D(!new)>(inodes: map<nat, Inode<D>>, e: Entries, shown: map<Path, Option<D>>, target: Path,
                              u: Update)
    requires Shows(inodes, e, shown) && IsRecordName(target.name)
    requires u == Unlink(target) || (u.Move? && u.source == target && !IsRecordName(u.target.name))
    ensures Shows(inodes, Updated(e, u), shown - {target})
  {
    hide IsRecordName;
    assert Visible(inodes, Updated(e, u)) == Visible(inodes, e) - {target};
  }

  lemma TouchedShows<D(!new)>(inodes: map<nat, Inode<D>>, e: Entries, shown: map<Path, Option<D>>, inode: nat,
                              node: Inode<D>)
    requires Shows(inodes, e, shown) && Hidden(e, inode)
    ensures Shows(inodes[inode := node], e, shown)
  {
    hide IsRecordName;
    assert Visible(inodes[inode := node], e) == Visible(inodes, e);
  }

  lemma LostShows<D(!new)>(d: Disk<D>, k: nat, damage: map<nat, D>, shown: map<Path, Option<D>>)
    requires k <= |d.journal| && Shows(d.inodes, EntriesAt(d, k), shown)
    ensures Shows(LosePower(d, k, damage).inodes, EntriesAt(d, k), shown)
  {
    hide IsRecordName, EntriesAt;
    assert Visible(LosePower(d, k, damage).inodes, EntriesAt(d, k)) == Visible(d.inodes, EntriesAt(d, k));
  }

  lemma ShownAppend<D, T>(log: seq<Effect<D, T>>, x: Effect<D, T>)
    ensures Shown(log + [x]) == Affected(Shown(log), x)
  {
    assert (log + [x])[..|log|] == log;
  }

  // ----- How the history grows -------------------------------------------

  /** One more directory update, after which readers see `log'`: the log itself or one effect more. */
  lemma UpdateRecoverable<D(!new), T(!new)>(d: Disk<D>, log: seq<Effect<D, T>>, marks: seq<nat>, u: Update,
                                            log': seq<Effect<D, T>>)
    requires Recoverable(d, log, marks) && log <= log'
    requires Shows(d.inodes, Updated(Now(d), u), Shown(log'))
    ensures Recoverable(d.(journal := d.journal + [u]), log', marks + [|log'|])
  {
    AppendedEntries(d, u);
    hide Shows, EntriesAt, Now, Updated, Shown;
    var d' := d.(journal := d.journal + [u]);
    var marks' := marks + [|log'|];
    assert MarksInOrder(|d'.journal|, |log'|, marks');
    assert |marks| == |d.journal| + 1;
    hide MarksInOrder;
    forall k | 0 <= k <= |d'.journal|
      ensures marks'[k] <= |log'| && Shows(d'.inodes, EntriesAt(d', k), Shown(log'[..marks'[k]]))
    {
      if k <= |d.journal| {
        assert log'[..marks[k]] == log[..marks[k]];
        assert marks'[k] == marks[k] && EntriesAt(d', k) == EntriesAt(d, k);
      } else {
        assert log'[..|log'|] == log';
      }
    }
  }

  /** Writing an inode no record name leads to shows nowhere. */
  lemma TouchRecoverable<D(!new), T(!new)>(d: Disk<D>, log: seq<Effect<D, T>>, marks: seq<nat>, inode: nat,
                                           node: Inode<D>)
    requires Recoverable(d, log, marks) && Unshared(d, inode)
    ensures Recoverable(d.(inodes := d.inodes[inode := node]), log, marks)
    ensures Unshared(d.(inodes := d.inodes[inode := node]), inode)
  {
    hide Shows, Shown, Hidden, After;
    var d' := d.(inodes := d.inodes[inode := node]);
    forall k | 0 <= k <= |d'.journal|
      ensures Hidden(EntriesAt(d', k), inode) && Shows(d'.inodes, EntriesAt(d', k), Shown(log[..marks[k]]))
    {
      assert Hidden(EntriesAt(d, k), inode);
      TouchedShows(d.inodes, EntriesAt(d, k), Shown(log[..marks[k]]), inode, node);
    }
  }

  /** A fresh inode is nowhere in use. */
  lemma FreshUnshared<D(!new), T(!new)>(d: Disk<D>, log: seq<Effect<D, T>>, marks: seq<nat>, inode: nat)
    requires Recoverable(d, log, marks) && inode !in d.inodes
    ensures Unshared(d, inode)
  {
    hide EntriesAt, Visible, Shown, IsRecordName;
    forall k | 0 <= k <= |d.journal|
      ensures Hidden(EntriesAt(d, k), inode)
    {
      assert Shows(d.inodes, EntriesAt(d, k), Shown(log[..marks[k]]));
    }
  }

  lemma SingleRecoverable<D(!new), T(!new)>(d: Disk<D>, log: seq<Effect<D, T>>)
    requires d.journal == [] && Shows(d.inodes, d.base, Shown(log))
    ensures Recoverable(d, log, [|log|])
  {
    hide Shows, Shown;
    assert log[..|log|] == log;
    assert EntriesAt(d, 0) == d.base;
  }

  lemma CurrentShows<D(!new), T(!new)>(d: Disk<D>, log: seq<Effect<D, T>>, marks: seq<nat>)
    requires Recoverable(d, log, marks)
    ensures Shows(d.inodes, Now(d), Shown(log))
  {
    NowIsLast(d);
    assert log[..|log|] == log;
    hide Shows, Shown, EntriesAt, Now;
    assert Shows(d.inodes, EntriesAt(d, |d.journal|), Shown(log[..marks[|d.journal|]]));
  }

  // ----- Every event keeps the invariant ---------------------------------

  lemma BeginKeeps<D(!new), T(!new)>(m: Machine<D, T>, e: Event<D, T>)
    requires InOrder(m) && e.Begin? && Enabled(m, e)
    ensures InOrder(Next(m, e))
  {
    if e.effect.data.Some? {
      TemporaryNameHidden(e.effect.path.name, e.unique);
    } else {
      RetiredNameHidden(e.effect.path.name, e.unique);
    }
    hide Recoverable, IsRecordName, Unshared, TemporaryName, RetiredName, Now;
  }

  lemma FinishedStay<D(!new), T(!new)>(m: Machine<D, T>, m': Machine<D, T>)
    requires FinishedKept(m) && m'.finished == m.finished && m.log <= m'.log && |m'.marks| > 0
             && m'.marks[0] == m.marks[0]
    ensures FinishedKept(m')
  {
  }

  lemma LinkUnshared<D(!new)>(d: Disk<D>, path: Path, inode: nat)
    requires Unshared(d, inode) && !IsRecordName(path.name)
    ensures Unshared(d.(journal := d.journal + [Link(path, inode)]), inode)
  {
    AppendedEntries(d, Link(path, inode));
    NowIsLast(d);
    hide IsRecordName, EntriesAt, Now;
    assert Hidden(EntriesAt(d, |d.journal|), inode);
  }

  lemma CreateRecoverable<D(!new), T(!new)>(d: Disk<D>, log: seq<Effect<D, T>>, marks: seq<nat>, aside: Path,
                                            inode: nat)
    requires Recoverable(d, log, marks) && inode !in d.inodes && !IsRecordName(aside.name)
    ensures var d' := CreateTemporary(d, aside, inode);
            Recoverable(d', log, marks + [|log|]) && Unshared(d', inode) && aside in Now(d') && Now(d')[aside] == inode
  {
    FreshUnshared(d, log, marks, inode);
    TouchRecoverable(d, log, marks, inode, Inode(None, false));
    var touched := d.(inodes := d.inodes[inode := Inode(None, false)]);
    hide Recoverable, Unshared, IsRecordName, Visible, Shown;
    CurrentShows(touched, log, marks);
    AppendedEntries(touched, Link(aside, inode));
    HiddenUpdateShows(touched.inodes, Now(touched), Link(aside, inode), Shown(log));
    UpdateRecoverable(touched, log, marks, Link(aside, inode), log);
    LinkUnshared(touched, aside, inode);
  }

  lemma CreateKeeps<D(!new), T(!new)>(m: Machine<D, T>)
    requires InOrder(m) && Enabled(m, Advance) && m.writer.stage == Started
    ensures InOrder(Advanced(m))
  {
    CreateRecoverable(m.disk, m.log, m.marks, m.writer.aside, m.writer.inode);
    FinishedStay(m, Advanced(m));
    hide IsRecordName, Now, Recoverable, Unshared, FinishedKept;
  }

  lemma SameNow<D>(d: Disk<D>, inodes: map<nat, Inode<D>>)
    ensures Now(d.(inodes := inodes)) == Now(d)
  {
  }

  lemma WriteKeeps<D(!new), T(!new)>(m: Machine<D, T>)
    requires InOrder(m) && Enabled(m, Advance) && m.writer.stage in {Created, Written}
    ensures InOrder(Advanced(m))
  {
    var w, d := m.writer, m.disk;
    var node := if w.stage == Created then Inode(Some(w.effect.data.value), false)
        else Inode(d.inodes[w.inode].data, true);
    TouchRecoverable(d, m.log, m.marks, w.inode, node);
    SameNow(d, d.inodes[w.inode := node]);
    FinishedStay(m, Advanced(m));
    hide IsRecordName, Now, Recoverable, Unshared, FinishedKept;
  }

  /** What the rename does to the history: the effect is in it, whole. */
  lemma RenameRecoverable<D(!new), T(!new)>(d: Disk<D>, log: seq<Effect<D, T>>, marks: seq<nat>, x: Effect<D, T>,
                                            aside: Path, inode: nat)
    requires Recoverable(d, log, marks) && !IsRecordName(aside.name) && WellNamed(x)
    requires x.data.Some? ==>
               aside in Now(d) && Now(d)[aside] == inode && inode in d.inodes && d.inodes[inode] == Inode(x.data, true)
    ensures var u := if x.data.Some? then Move(aside, x.path) else Move(x.path, aside);
            Recoverable(d.(journal := d.journal + [u]), log + [x], marks + [|log| + 1])
  {
    var u := if x.data.Some? then Move(aside, x.path) else Move(x.path, aside);
    hide Recoverable, IsRecordName, Visible, Updated, Now, Shows;
    CurrentShows(d, log, marks);
    ShownAppend(log, x);
    if x.data.Some? {
      CommitShows(d.inodes, Now(d), Shown(log), x.path, x.data.value, aside);
    } else {
      RemovalShows(d.inodes, Now(d), Shown(log), x.path, u);
    }
    UpdateRecoverable(d, log, marks, u, log + [x]);
  }

  lemma RenameKeeps<D(!new), T(!new)>(m: Machine<D, T>)
    requires InOrder(m) && Enabled(m, Advance) && m.writer.stage == Synced
    ensures InOrder(Advanced(m))
  {
    RenameRecoverable(m.disk, m.log, m.marks, m.writer.effect, m.writer.aside, m.writer.inode);
    assert m.marks[0] <= |m.log|;
    FinishedStay(m, Advanced(m));
    hide IsRecordName, Now, Recoverable, Unshared, FinishedKept;
  }

  lemma FinishKeeps<D(!new), T(!new)>(m: Machine<D, T>)
    requires InOrder(m) && Enabled(m, Advance) && m.writer.stage == Renamed
    ensures InOrder(Advanced(m))
  {
    CurrentShows(m.disk, m.log, m.marks);
    SingleRecoverable(SyncDirectory(m.disk), m.log);
    hide IsRecordName, Now, Recoverable, Unshared, Shows;
  }

  lemma FailKeeps<D(!new), T(!new)>(m: Machine<D, T>, e: Event<D, T>)
    requires InOrder(m) && (e.Fail? || e.Crash?) && Enabled(m, e)
    ensures InOrder(Next(m, e))
  {
    if e.Fail? && e.cleanup && m.writer.effect.data.Some? {
      CurrentShows(m.disk, m.log, m.marks);
      HiddenUpdateShows(m.disk.inodes, Now(m.disk), Unlink(m.writer.aside), Shown(m.log));
      UpdateRecoverable(m.disk, m.log, m.marks, Unlink(m.writer.aside), m.log);
    }
    FinishedStay(m, Next(m, e));
    hide IsRecordName, Now, Recoverable, Unshared, Shows, FinishedKept;
  }

  lemma PowerLossKeeps<D(!new), T(!new)>(m: Machine<D, T>, e: Event<D, T>)
    requires InOrder(m) && e.PowerLoss? && Enabled(m, e)
    ensures InOrder(Next(m, e))
  {
    var kept := m.marks[e.kept];
    LostShows(m.disk, e.kept, e.damage, Shown(m.log[..kept]));
    SingleRecoverable(LosePower(m.disk, e.kept, e.damage), m.log[..kept]);
    assert m.marks[0] <= kept;
    hide IsRecordName, Now, Recoverable, Unshared, Shows, Shown, LosePower, EntriesAt;
  }

  lemma RemoveNowKeeps<D(!new), T(!new)>(m: Machine<D, T>, e: Event<D, T>)
    requires InOrder(m) && e.RemoveNow? && Enabled(m, e)
    ensures InOrder(Next(m, e))
  {
    var x := e.removal;
    CurrentShows(m.disk, m.log, m.marks);
    ShownAppend(m.log, x);
    RemovalShows(m.disk.inodes, Now(m.disk), Shown(m.log), x.path, Unlink(x.path));
    UpdateRecoverable(m.disk, m.log, m.marks, Unlink(x.path), m.log + [x]);
    FinishedStay(m, Next(m, e));
    hide IsRecordName, Now, Recoverable, Unshared, Shows, Shown, FinishedKept;
  }

  /** Errors, crashes and power loss included, every event keeps the machine in order. */
  lemma EventKeeps<D(!new), T(!new)>(m: Machine<D, T>, e: Event<D, T>)
    requires InOrder(m) && Enabled(m, e)
    ensures InOrder(Next(m, e))
  {
    match e
    case Begin(_, _, _) => BeginKeeps(m, e);
    case Fail(_) => FailKeeps(m, e);
    case Crash => FailKeeps(m, e);
    case PowerLoss(_, _) => PowerLossKeeps(m, e);
    case RemoveNow(_) => RemoveNowKeeps(m, e);
    case Advance =>
      hide InOrder, Enabled, Advanced;
      match m.writer.stage
      case Started => CreateKeeps(m);
      case Created => WriteKeeps(m);
      case Written => WriteKeeps(m);
      case Synced => RenameKeeps(m);
      case Renamed => FinishKeeps(m);
  }

  /** `states` is a run of the machine driven by `events`. */
  ghost predicate Run<D(!new), T(!new)>(states: seq<Machine<D, T>>, events: seq<Event<D, T>>) {
    && |states| == |events| + 1
    && states[0] == Initial()
    && forall i :: 0 <= i < |events| ==> Enabled(states[i], events[i]) && states[i + 1] == Next(states[i], events[i])
  }

  lemma {:induction false} RunInOrder<D(!new), T(!new)>(states: seq<Machine<D, T>>, events: seq<Event<D, T>>, i: nat)
    requires Run(states, events) && i < |states|
    ensures InOrder(states[i])
    decreases i
  {
    if i == 0 {
      var m: Machine<D, T> := Initial();
      SingleRecoverable(m.disk, m.log);
    } else {
      RunInOrder(states, events, i - 1);
      hide InOrder;
      EventKeeps(states[i - 1], events[i - 1]);
    }
  }

  // ----- Where log entries come from -------------------------------------

  /** The event asks for this effect. */
  predicate Asks<D(==), T(==)>(e: Event<D, T>, x: Effect<D, T>) {
    (e.Begin? && e.effect == x) || (e.RemoveNow? && e.removal == x)
  }

  /** `at` gives, in order, the event before `i` that asked for each log entry. */
  ghost predicate Origins<D(!new), T(!new)>(events: seq<Event<D, T>>, i: nat, log: seq<Effect<D, T>>, at: seq<nat>)
    requires i <= |events|
  {
    && |at| == |log|
    && (forall k :: 0 <= k < |at| ==> at[k] < i && Asks(events[at[k]], log[k]))
    && (forall j, k :: 0 <= j < k < |at| ==> at[j] < at[k])
  }

  /** The busy writer's effect began with event `begun`, on the log `start`, and nothing was logged since but it. */
  ghost predicate BegunAt<D(!new), T(!new)>(events: seq<Event<D, T>>, i: nat, m: Machine<D, T>, at: seq<nat>,
                                            begun: nat,
                                            start: seq<Effect<D, T>>)
    requires i <= |events|
  {
    m.writer.Busy? ==>
      && begun < i && events[begun].Begin? && events[begun].effect == m.writer.effect
      && m.log == start + (if m.writer.stage == Renamed then [m.writer.effect] else [])
      && (m.writer.stage != Renamed ==> forall k :: 0 <= k < |at| ==> at[k] < begun)
  }

  /** Every log entry was asked for by an event of its own, in that order. */
  ghost predicate LogAsked<D(!new), T(!new)>(events: seq<Event<D, T>>, i: nat, log: seq<Effect<D, T>>)
    requires i <= |events|
  {
    exists at :: Origins(events, i, log, at)
  }

  lemma OriginsGrow<D(!new), T(!new)>(events: seq<Event<D, T>>, i: nat, log: seq<Effect<D, T>>, at: seq<nat>,
                                      x: Effect<D, T>, n: nat)
    requires i < |events| && Origins(events, i, log, at) && n <= i && Asks(events[n], x)
    requires forall k :: 0 <= k < |at| ==> at[k] < n
    ensures Origins(events, i + 1, log + [x], at + [n])
  {
    hide Asks;
  }

  lemma OriginsPrefix<D(!new), T(!new)>(events: seq<Event<D, T>>, i: nat, log: seq<Effect<D, T>>, at: seq<nat>, n: nat)
    requires i < |events| && Origins(events, i, log, at) && n <= |log|
    ensures Origins(events, i + 1, log[..n], at[..n])
  {
    hide Asks;
  }

  lemma BeginLog<D(!new), T(!new)>(m: Machine<D, T>, e: Event<D, T>)
    requires Enabled(m, e) && e.Begin?
    ensures Next(m, e).log == m.log && Next(m, e).writer.Busy?
    ensures Next(m, e).writer.effect == e.effect && Next(m, e).writer.stage != Renamed
  {
    hide AsideOf;
  }

  lemma SameLogOrigins<D(!new), T(!new)>(events: seq<Event<D, T>>, i: nat, log: seq<Effect<D, T>>, at: seq<nat>)
    requires i < |events| && Origins(events, i, log, at)
    ensures Origins(events, i + 1, log, at)
  {
    hide Asks;
  }

  lemma AdvanceOrigins<D(!new), T(!new)>(events: seq<Event<D, T>>, i: nat, m: Machine<D, T>, at: seq<nat>, begun: nat,
                                         start: seq<Effect<D, T>>) returns (at': seq<nat>)
    requires i < |events| && Enabled(m, Advance) && Origins(events, i, m.log, at)
             && BegunAt(events, i, m, at, begun, start)
    ensures Origins(events, i + 1, Next(m, Advance).log, at')
            && BegunAt(events, i + 1, Next(m, Advance), at', begun, start)
  {
    AdvanceLog(m);
    hide Enabled, Next, Origins;
    if m.writer.stage == Synced {
      OriginsGrow(events, i, m.log, at, m.writer.effect, begun);
      at' := at + [begun];
    } else {
      SameLogOrigins(events, i, m.log, at);
      at' := at;
    }
  }

  lemma OtherOrigins<D(!new), T(!new)>(events: seq<Event<D, T>>, i: nat, m: Machine<D, T>, at: seq<nat>)
    returns (at': seq<nat>)
    requires i < |events| && Enabled(m, events[i]) && !events[i].Begin? && !events[i].Advance?
             && Origins(events, i, m.log, at)
    ensures Origins(events, i + 1, Next(m, events[i]).log, at') && Next(m, events[i]).writer.Idle?
  {
    var e := events[i];
    OtherLog(m, e);
    hide Enabled, Next;
    if e.RemoveNow? {
      OriginsGrow(events, i, m.log, at, e.removal, i);
      at' := at + [i];
    } else if e.PowerLoss? {
      OriginsPrefix(events, i, m.log, at, m.marks[e.kept]);
      at' := at[..m.marks[e.kept]];
    } else {
      SameLogOrigins(events, i, m.log, at);
      at' := at;
    }
  }

  lemma BeginOrigins<D(!new), T(!new)>(events: seq<Event<D, T>>, i: nat, m: Machine<D, T>, at: seq<nat>)
    requires i < |events| && Enabled(m, events[i]) && events[i].Begin? && Origins(events, i, m.log, at)
    ensures Origins(events, i + 1, Next(m, events[i]).log, at)
            && BegunAt(events, i + 1, Next(m, events[i]), at, i, m.log)
  {
    BeginLog(m, events[i]);
    SameLogOrigins(events, i, m.log, at);
    hide Enabled, Next, Asks;
  }

  lemma {:induction false} LogOrigins<D(!new), T(!new)>(states: seq<Machine<D, T>>, events: seq<Event<D, T>>, i: nat)
    returns (at: seq<nat>, begun: nat)
    requires Run(states, events) && i < |states|
    ensures Origins(events, i, states[i].log, at)
    ensures begun < |states| && BegunAt(events, i, states[i], at, begun, states[begun].log)
    decreases i
  {
    if i == 0 {
      at, begun := [], 0;
    } else {
      var m, e := states[i - 1], events[i - 1];
      at, begun := LogOrigins(states, events, i - 1);
      hide Enabled, Next, Origins;
      if e.Begin? {
        begun := i - 1;
        hide BegunAt;
        BeginOrigins(events, i - 1, m, at);
      } else if e.Advance? {
        hide BegunAt;
        at := AdvanceOrigins(events, i - 1, m, at, begun, states[begun].log);
      } else {
        at := OtherOrigins(events, i - 1, m, at);
      }
    }
  }

  /** Crash refinement. In every state of every run readers see exactly the effects in the log, in order; each was
      asked for by an event of its own, in that order; every effect reported as done is in the log; temporary and
      retired files are never seen. Whatever power loss the next moment brings, the log loses only effects that were
      not yet reported as done. */
  lemma CrashRefinement<D(!new), T(!new)>(states: seq<Machine<D, T>>, events: seq<Event<D, T>>, i: nat)
    requires Run(states, events) && i < |states|
    ensures View(states[i].disk) == Shown(states[i].log) && LogAsked(events, i, states[i].log)
    ensures forall j :: 0 <= j < |states[i].finished| ==>
              var (at, effect) := states[i].finished[j];
              at < |states[i].log| && states[i].log[at] == effect
    ensures forall j, k :: 0 <= j < k < |states[i].finished| ==> states[i].finished[j].0 < states[i].finished[k].0
    ensures |states[i].marks| == |states[i].disk.journal| + 1
    ensures forall k, damage: map<nat, D> :: 0 <= k <= |states[i].disk.journal| ==>
              && states[i].marks[k] <= |states[i].log|
              && View(LosePower(states[i].disk, k, damage)) == Shown(states[i].log[..states[i].marks[k]])
              && forall j :: 0 <= j < |states[i].finished| ==> states[i].finished[j].0 < states[i].marks[k]
  {
    var m := states[i];
    var at, begun := LogOrigins(states, events, i);
    assert LogAsked(events, i, m.log);
    hide Origins, LogAsked, BegunAt;
    RunInOrder(states, events, i);
    CurrentShows(m.disk, m.log, m.marks);
    forall k, damage: map<nat, D> | 0 <= k <= |m.disk.journal|
      ensures m.marks[k] <= |m.log| && View(LosePower(m.disk, k, damage)) == Shown(m.log[..m.marks[k]])
              && m.marks[0] <= m.marks[k]
    {
      LostShows(m.disk, k, damage, Shown(m.log[..m.marks[k]]));
    }
    hide Run, Now, EntriesAt, Visible, Shown, IsRecordName, LosePower;
  }

  /** An interrupted effect is either absent or complete: an error or crash at any stage leaves readers with what
      they saw when it began, at event `begun`, or, once the rename has happened, with that and the whole effect. */
  lemma InterruptedIsNoneOrAll<D(!new), T(!new)>(states: seq<Machine<D, T>>, events: seq<Event<D, T>>, i: nat)
    returns (begun: nat)
    requires Run(states, events) && |states| == |events| + 1
    requires i < |events| && states[i].writer.Busy? && (events[i].Fail? || events[i].Crash?)
    ensures begun < i && events[begun].Begin? && events[begun].effect == states[i].writer.effect
    ensures View(states[i + 1].disk) ==
            if states[i].writer.stage == Renamed
            then Affected(View(states[begun].disk), states[i].writer.effect)
            else View(states[begun].disk)
  {
    hide View, Shown, Affected, Run, Origins;
    var at;
    at, begun := LogOrigins(states, events, i);
    InterruptedLog(states, events, i);
    ViewIsLog(states, events, begun);
    ViewIsLog(states, events, i + 1);
    if states[i].writer.stage == Renamed {
      ShownAppend(states[begun].log, states[i].writer.effect);
    } else {
      assert states[i].log == states[begun].log;
    }
  }

  lemma InterruptedLog<D(!new), T(!new)>(states: seq<Machine<D, T>>, events: seq<Event<D, T>>, i: nat)
    requires Run(states, events) && i < |events| && (events[i].Fail? || events[i].Crash?)
    ensures states[i + 1].log == states[i].log
  {
    OtherLog(states[i], events[i]);
    hide Enabled, Next;
  }

  lemma ViewIsLog<D(!new), T(!new)>(states: seq<Machine<D, T>>, events: seq<Event<D, T>>, i: nat)
    requires Run(states, events) && i < |states|
    ensures View(states[i].disk) == Shown(states[i].log)
  {
    hide View, LosePower, Shown;
    CrashRefinement(states, events, i);
  }

  /** How a micro-step changes the log and the writer. */
  lemma AdvanceLog<D(!new), T(!new)>(m: Machine<D, T>)
    requires Enabled(m, Advance)
    ensures m.writer.Busy?
    ensures Next(m, Advance).log == if m.writer.stage == Synced then m.log + [m.writer.effect] else m.log
    ensures Next(m, Advance).writer.Busy? ==>
              && Next(m, Advance).writer.effect == m.writer.effect && m.writer.stage != Renamed
              && (Next(m, Advance).writer.stage == Renamed <==> m.writer.stage == Synced)
    ensures m.finished <= Next(m, Advance).finished
  {
    hide CreateTemporary, WriteAll, SyncFile, SyncDirectory, Rename;
  }

  /** How errors, crashes, power loss and removals do. */
  lemma OtherLog<D(!new), T(!new)>(m: Machine<D, T>, e: Event<D, T>)
    requires Enabled(m, e) && !e.Begin? && !e.Advance?
    ensures Next(m, e).writer.Idle? && Next(m, e).finished == m.finished
    ensures e.RemoveNow? ==> Next(m, e).log == m.log + [e.removal]
    ensures e.PowerLoss? ==>
              && e.kept < |m.marks| && m.marks[e.kept] <= |m.log|
              && Next(m, e).log == m.log[..m.marks[e.kept]]
    ensures e.Fail? || e.Crash? ==> Next(m, e).log == m.log
  {
    hide LosePower, RemoveFile;
  }

  lemma FinishedGrows<D(!new), T(!new)>(m: Machine<D, T>, e: Event<D, T>)
    requires Enabled(m, e)
    ensures m.finished <= Next(m, e).finished
  {
    if e.Advance? {
      AdvanceLog(m);
    } else if !e.Begin? {
      OtherLog(m, e);
    }
    hide Advanced, AsideOf, LosePower, RemoveFile;
  }

  lemma FinishedInLog<D(!new), T(!new)>(m: Machine<D, T>)
    requires InOrder(m)
    ensures forall n :: 0 <= n < |m.finished| ==> m.finished[n].0 < |m.log| && m.log[m.finished[n].0] == m.finished[n].1
  {
    hide Recoverable, WriterInOrder;
  }

  /** An effect reported as done stays in every later log, at the same place, whatever fails afterwards. */
  lemma {:induction false} DoneStaysDone<D(!new), T(!new)>(states: seq<Machine<D, T>>, events: seq<Event<D, T>>, i: nat,
                                                           j: nat, n: nat)
    requires Run(states, events) && i <= j < |states| && n < |states[i].finished|
    ensures n < |states[j].finished| && states[j].finished[n] == states[i].finished[n]
    ensures states[i].finished[n].0 < |states[j].log|
            && states[j].log[states[i].finished[n].0] == states[i].finished[n].1
    decreases j
  {
    hide InOrder, Enabled, Next;
    RunInOrder(states, events, j);
    FinishedInLog(states[j]);
    if i < j {
      DoneStaysDone(states, events, i, j - 1, n);
      FinishedGrows(states[j - 1], events[j - 1]);
    }
  }
}
