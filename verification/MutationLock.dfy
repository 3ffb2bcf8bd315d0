/**
 The mutation lock (`src/state/mod.rs`): a process-wide set of root keys plus an exclusive
 lock on the file that the lock path names, taken by any number of threads in any number
 of processes, with errors at every step, abrupt process exits, and an environment that
 may replace the lock file.
 */
module MutationLock {
  import opened Prelude

  type Process = nat
  type Attempt = nat
  type Root = nat
  type Inode = nat

  /** Where an attempt (later: its guard) stands. `Failing` has still to give its key back. */
  datatype Stage = Keyed | Opened(inode: Inode) | Locked(inode: Inode) | Guarded(inode: Inode) | Failing

  datatype Holder = Holder(process: Process, root: Root, stage: Stage)

  /** `locks` gives the attempt whose open file holds the lock on an inode; `named` the inode the lock path names. */
  datatype Host = Host(keys: set<(Process, Root)>, locks: map<Inode, Attempt>, named: map<Root, Inode>,
    holders: map<Attempt, Holder>)

  const QUIET := Host({}, map[], map[], map[])

  datatype Event =
    | Start(a: Attempt, process: Process, root: Root)
    | Open(a: Attempt, inode: Inode)
    | TryLock(a: Attempt)
    | Validate(a: Attempt)
    | Error(a: Attempt)
    | Drop(a: Attempt)
    | Release(a: Attempt)
    | Exit(process: Process)
    | Replace(root: Root, inode: Inode)

  predicate At(h: Host, a: Attempt, stage: Stage) { a in h.holders && h.holders[a].stage == stage }

  predicate Enabled(h: Host, e: Event) {
    match e
    case Start(a, _, _) => a !in h.holders
    case Open(a, i) => At(h, a, Keyed) && (h.holders[a].root in h.named ==> h.named[h.holders[a].root] == i)
    case TryLock(a) => a in h.holders && h.holders[a].stage.Opened?
    case Validate(a) =>
      && a in h.holders && h.holders[a].stage.Locked?
      && h.holders[a].root in h.named && h.named[h.holders[a].root] == h.holders[a].stage.inode
    case Error(a) => a in h.holders
      && (h.holders[a].stage.Keyed? || h.holders[a].stage.Opened? || h.holders[a].stage.Locked?)
    case Drop(a) => a in h.holders && h.holders[a].stage.Guarded?
    case Release(a) => At(h, a, Failing)
    case Exit(_) => true
    case Replace(_, _) => true
  }

  function Moved(h: Host, a: Attempt, stage: Stage): Host
    requires a in h.holders
  {
    h.(holders := h.holders[a := h.holders[a].(stage := stage)])
  }

  /** Gives up the file lock, if this attempt has one; the key follows with `Release`. */
  function Unlocked(h: Host, a: Attempt): Host
    requires a in h.holders
  {
    var stage := h.holders[a].stage;
    var h' := Moved(h, a, Failing);
    if stage.Locked? || stage.Guarded? then h'.(locks := h.locks - {stage.inode}) else h'
  }

  function Next(h: Host, e: Event): Host
    requires Enabled(h, e)
  {
    match e
    case Start(a, p, r) =>
      if (p, r) in h.keys then h  // busy: the attempt ends here
      else h.(keys := h.keys + {(p, r)}, holders := h.holders[a := Holder(p, r, Keyed)])
    case Open(a, i) => Moved(h, a, Opened(i)).(named := h.named[h.holders[a].root := i])
    case TryLock(a) =>
      var i := h.holders[a].stage.inode;
      if i in h.locks then Moved(h, a, Failing) else Moved(h, a, Locked(i)).(locks := h.locks[i := a])
    case Validate(a) => Moved(h, a, Guarded(h.holders[a].stage.inode))
    case Error(a) => Unlocked(h, a)
    case Drop(a) => Unlocked(h, a)
    case Release(a) =>
      h.(keys := h.keys - {(h.holders[a].process, h.holders[a].root)}, holders := h.holders - {a})
    case Exit(p) =>
      h.(keys := (set k | k in h.keys && k.0 != p),
         locks := (map i | i in h.locks && !(h.locks[i] in h.holders && h.holders[h.locks[i]].process == p) ::
           h.locks[i]),
         holders := (map a | a in h.holders && h.holders[a].process != p :: h.holders[a]))
    case Replace(r, i) => h.(named := h.named[r := i])
  }

  // ----- Invariant -------------------------------------------------------

  function KeyOf(x: Holder): (Process, Root) { (x.process, x.root) }

  predicate HasLock(x: Holder, i: Inode) { x.stage == Locked(i) || x.stage == Guarded(i) }

  ghost predicate Owned(holders: map<Attempt, Holder>, k: (Process, Root)) {
    exists a :: a in holders && KeyOf(holders[a]) == k
  }

  /** Exactly the live attempts own keys, one each. */
  ghost predicate KeysInOrder(keys: set<(Process, Root)>, holders: map<Attempt, Holder>) {
    && (forall a :: a in holders ==> KeyOf(holders[a]) in keys)
    && (forall a, b :: a in holders && b in holders && KeyOf(holders[a]) == KeyOf(holders[b]) ==> a == b)
    && (forall k :: k in keys ==> Owned(holders, k))
  }

  /** Exactly the locked ones own locks. */
  ghost predicate LocksInOrder(locks: map<Inode, Attempt>, holders: map<Attempt, Holder>) {
    && (forall i :: i in locks ==> locks[i] in holders && HasLock(holders[locks[i]], i))
    && (forall a, i :: a in holders && HasLock(holders[a], i) ==> i in locks && locks[i] == a)
  }

  ghost predicate InOrder(h: Host) {
    KeysInOrder(h.keys, h.holders) && LocksInOrder(h.locks, h.holders)
  }

  lemma KeyAdded(keys: set<(Process, Root)>, holders: map<Attempt, Holder>, a: Attempt, x: Holder)
    requires KeysInOrder(keys, holders) && a !in holders && KeyOf(x) !in keys
    ensures KeysInOrder(keys + {KeyOf(x)}, holders[a := x])
  {
    var after := holders[a := x];
    forall k | k in keys + {KeyOf(x)}
      ensures Owned(after, k)
    {
      if k == KeyOf(x) {
        assert KeyOf(after[a]) == k;
      } else {
        assert Owned(holders, k);
        var b :| b in holders && KeyOf(holders[b]) == k;
        assert KeyOf(after[b]) == k;
      }
    }
  }

  lemma StageChanged(keys: set<(Process, Root)>, holders: map<Attempt, Holder>, a: Attempt, stage: Stage)
    requires KeysInOrder(keys, holders) && a in holders
    ensures KeysInOrder(keys, holders[a := holders[a].(stage := stage)])
  {
    var after := holders[a := holders[a].(stage := stage)];
    assert forall b :: b in holders ==> KeyOf(after[b]) == KeyOf(holders[b]);
    forall k | k in keys
      ensures Owned(after, k)
    {
      assert Owned(holders, k);
      var b :| b in holders && KeyOf(holders[b]) == k;
      assert KeyOf(after[b]) == k;
    }
  }

  lemma KeysDropped(keys: set<(Process, Root)>, holders: map<Attempt, Holder>, keys': set<(Process, Root)>,
                    holders': map<Attempt, Holder>)
    requires KeysInOrder(keys, holders) && keys' <= keys
    requires forall a :: a in holders' <==> a in holders && KeyOf(holders[a]) in keys'
    requires forall a :: a in holders' ==> holders'[a] == holders[a]
    ensures KeysInOrder(keys', holders')
  {
    forall k | k in keys'
      ensures Owned(holders', k)
    {
      assert Owned(holders, k);
      var b :| b in holders && KeyOf(holders[b]) == k;
      assert KeyOf(holders'[b]) == k;
    }
  }

  /** An attempt that holds no lock before and after. */
  lemma LocksUntouched(locks: map<Inode, Attempt>, holders: map<Attempt, Holder>, a: Attempt, x: Holder)
    requires LocksInOrder(locks, holders)
    requires a in holders ==> forall i :: !HasLock(holders[a], i)
    requires forall i :: !HasLock(x, i)
    ensures LocksInOrder(locks, holders[a := x])
  {
  }

  lemma LockTaken(locks: map<Inode, Attempt>, holders: map<Attempt, Holder>, a: Attempt, i: Inode)
    requires LocksInOrder(locks, holders) && a in holders && holders[a].stage == Opened(i) && i !in locks
    ensures LocksInOrder(locks[i := a], holders[a := holders[a].(stage := Locked(i))])
  {
  }

  lemma LockKept(locks: map<Inode, Attempt>, holders: map<Attempt, Holder>, a: Attempt, i: Inode)
    requires LocksInOrder(locks, holders) && a in holders && holders[a].stage == Locked(i)
    ensures LocksInOrder(locks, holders[a := holders[a].(stage := Guarded(i))])
  {
  }

  lemma LockDropped(locks: map<Inode, Attempt>, holders: map<Attempt, Holder>, a: Attempt, i: Inode)
    requires LocksInOrder(locks, holders) && a in holders && HasLock(holders[a], i)
    ensures LocksInOrder(locks - {i}, holders[a := holders[a].(stage := Failing)])
  {
    var after := holders[a := holders[a].(stage := Failing)];
    assert locks[i] == a;
    forall j | j in locks - {i}
      ensures (locks - {i})[j] in after && HasLock(after[(locks - {i})[j]], j)
    {
      assert HasLock(holders[locks[j]], j);
    }
    forall b, j | b in after && HasLock(after[b], j)
      ensures j in locks - {i} && (locks - {i})[j] == b
    {
      assert b != a && HasLock(holders[b], j);
    }
  }

  lemma LocksFiltered(locks: map<Inode, Attempt>, holders: map<Attempt, Holder>, locks': map<Inode, Attempt>,
                      holders': map<Attempt, Holder>)
    requires LocksInOrder(locks, holders)
    requires forall a :: a in holders' ==> a in holders && holders'[a] == holders[a]
    requires forall i :: i in locks' <==> i in locks && locks[i] in holders'
    requires forall i :: i in locks' ==> locks'[i] == locks[i]
    ensures LocksInOrder(locks', holders')
  {
    forall b, j | b in holders' && HasLock(holders'[b], j)
      ensures j in locks' && locks'[j] == b
    {
      assert HasLock(holders[b], j);
    }
  }

  lemma AttemptKeeps(h: Host, e: Event)
    requires InOrder(h) && (e.Open? || e.TryLock? || e.Validate?) && Enabled(h, e)
    ensures InOrder(Next(h, e))
  {
    hide KeysInOrder, LocksInOrder;
    StageChanged(h.keys, h.holders, e.a, Next(h, e).holders[e.a].stage);
    match e
    case Open(a, i) => LocksUntouched(h.locks, h.holders, a, h.holders[a].(stage := Opened(i)));
    case TryLock(a) =>
      var i := h.holders[a].stage.inode;
      if i in h.locks {
        LocksUntouched(h.locks, h.holders, a, h.holders[a].(stage := Failing));
      } else {
        LockTaken(h.locks, h.holders, a, i);
      }
    case Validate(a) => LockKept(h.locks, h.holders, a, h.holders[a].stage.inode);
  }

  lemma UnlockKeeps(h: Host, a: Attempt)
    requires InOrder(h) && a in h.holders
    ensures InOrder(Unlocked(h, a))
  {
    hide KeysInOrder, LocksInOrder;
    StageChanged(h.keys, h.holders, a, Failing);
    var stage := h.holders[a].stage;
    if stage.Locked? || stage.Guarded? {
      LockDropped(h.locks, h.holders, a, stage.inode);
    } else {
      LocksUntouched(h.locks, h.holders, a, h.holders[a].(stage := Failing));
    }
  }

  lemma StartKeeps(h: Host, e: Event)
    requires InOrder(h) && e.Start? && Enabled(h, e)
    ensures InOrder(Next(h, e))
  {
    hide KeysInOrder, LocksInOrder;
    if (e.process, e.root) !in h.keys {
      KeyAdded(h.keys, h.holders, e.a, Holder(e.process, e.root, Keyed));
      LocksUntouched(h.locks, h.holders, e.a, Holder(e.process, e.root, Keyed));
    }
  }

  lemma ReleaseKeeps(h: Host, e: Event)
    requires InOrder(h) && e.Release? && Enabled(h, e)
    ensures InOrder(Next(h, e))
  {
    var h' := Next(h, e);
    KeysDropped(h.keys, h.holders, h'.keys, h'.holders);
    hide KeysInOrder;
    assert forall i :: i in h.locks ==> h.locks[i] in h.holders && h.locks[i] != e.a;
    hide LocksInOrder;
    LocksFiltered(h.locks, h.holders, h'.locks, h'.holders);
  }

  lemma ExitKeeps(h: Host, e: Event)
    requires InOrder(h) && e.Exit? && Enabled(h, e)
    ensures InOrder(Next(h, e))
  {
    var h' := Next(h, e);
    hide KeysInOrder, HasLock;
    KeysDropped(h.keys, h.holders, h'.keys, h'.holders);
    assert forall i :: i in h.locks ==> h.locks[i] in h.holders;
    hide LocksInOrder;
    LocksFiltered(h.locks, h.holders, h'.locks, h'.holders);
  }

  /** Every step of every thread, every failure and every exit keeps keys and locks in order. */
  lemma EventKeeps(h: Host, e: Event)
    requires InOrder(h) && Enabled(h, e)
    ensures InOrder(Next(h, e))
  {
    hide KeysInOrder, LocksInOrder;
    match e
    case Start(_, _, _) => StartKeeps(h, e);
    case Release(_) => ReleaseKeeps(h, e);
    case Exit(_) => ExitKeeps(h, e);
    case Replace(_, _) =>
    case Error(a) => UnlockKeeps(h, a);
    case Drop(a) => UnlockKeeps(h, a);
    case _ => AttemptKeeps(h, e);
  }

  /** `hosts` is a run from a quiet host, in any interleaving. */
  ghost predicate Run(hosts: seq<Host>, events: seq<Event>) {
    && |hosts| == |events| + 1
    && hosts[0] == QUIET
    && forall n :: 0 <= n < |events| ==> Enabled(hosts[n], events[n]) && hosts[n + 1] == Next(hosts[n], events[n])
  }

  lemma {:induction false} RunInOrder(hosts: seq<Host>, events: seq<Event>, n: nat)
    requires Run(hosts, events) && n < |hosts|
    ensures InOrder(hosts[n])
    decreases n
  {
    if n > 0 {
      RunInOrder(hosts, events, n - 1);
      hide InOrder;
      EventKeeps(hosts[n - 1], events[n - 1]);
    }
  }

  // ----- Safety ----------------------------------------------------------

  /** A guard that its own identity check would still accept: the lock path names the file it locked. */
  predicate Authoritative(h: Host, a: Attempt) {
    && a in h.holders && h.holders[a].stage.Guarded?
    && h.holders[a].root in h.named && h.named[h.holders[a].root] == h.holders[a].stage.inode
  }

  lemma LockOwner(h: Host, a: Attempt)
    requires InOrder(h) && a in h.holders && h.holders[a].stage.Guarded?
    ensures h.holders[a].stage.inode in h.locks && h.locks[h.holders[a].stage.inode] == a
  {
    assert HasLock(h.holders[a], h.holders[a].stage.inode);
  }

  lemma KeyOwner(h: Host, a: Attempt, b: Attempt)
    requires InOrder(h) && a in h.holders && b in h.holders && KeyOf(h.holders[a]) == KeyOf(h.holders[b])
    ensures a == b
  {
  }

  /** In every reachable state a root has at most one authoritative guard, over all processes; and
      within one process at most one live guard at all, even when the lock file was replaced. */
  lemma AtMostOneGuard(hosts: seq<Host>, events: seq<Event>, n: nat, a: Attempt, b: Attempt)
    requires Run(hosts, events) && n < |hosts| && a in hosts[n].holders && b in hosts[n].holders
    requires hosts[n].holders[a].root == hosts[n].holders[b].root
    requires hosts[n].holders[a].stage.Guarded? && hosts[n].holders[b].stage.Guarded?
    requires (Authoritative(hosts[n], a) && Authoritative(hosts[n], b))
             || hosts[n].holders[a].process == hosts[n].holders[b].process
    ensures a == b
  {
    RunInOrder(hosts, events, n);
    var h := hosts[n];
    hide InOrder;
    LockOwner(h, a);
    LockOwner(h, b);
    if h.holders[a].process == h.holders[b].process {
      KeyOwner(h, a, b);
    }
  }

  /** The file an attempt has open is the one the lock path names. */
  ghost predicate FilesNamed(h: Host) {
    forall a :: a in h.holders && !h.holders[a].stage.Keyed? && !h.holders[a].stage.Failing? ==>
      h.holders[a].root in h.named && h.named[h.holders[a].root] == h.holders[a].stage.inode
  }

  lemma {:induction false} FilesStayNamed(hosts: seq<Host>, events: seq<Event>, n: nat)
    requires Run(hosts, events) && n < |hosts|
    requires forall m :: 0 <= m < |events| ==> !events[m].Replace?
    ensures FilesNamed(hosts[n])
    decreases n
  {
    if n > 0 {
      FilesStayNamed(hosts, events, n - 1);
      var e := events[n - 1];
      assert !e.Replace? && hosts[n] == Next(hosts[n - 1], e);
    }
  }

  /** While nobody replaces the lock file, a root has at most one live guard over all processes. */
  lemma AtMostOneLiveGuard(hosts: seq<Host>, events: seq<Event>, n: nat, a: Attempt, b: Attempt)
    requires Run(hosts, events) && n < |hosts| && a in hosts[n].holders && b in hosts[n].holders
    requires forall m :: 0 <= m < |events| ==> !events[m].Replace?
    requires hosts[n].holders[a].root == hosts[n].holders[b].root
    requires hosts[n].holders[a].stage.Guarded? && hosts[n].holders[b].stage.Guarded?
    ensures a == b
  {
    FilesStayNamed(hosts, events, n);
    AtMostOneGuard(hosts, events, n, a, b);
  }

  /** Nothing is left behind: once no attempt or guard of a root is alive in a process the key is free,
      and a lock is held only by a live attempt that holds its key. */
  lemma NothingLeftBehind(hosts: seq<Host>, events: seq<Event>, n: nat)
    requires Run(hosts, events) && n < |hosts|
    ensures forall p, r :: (p, r) in hosts[n].keys <==>
              exists a :: a in hosts[n].holders && hosts[n].holders[a].process == p && hosts[n].holders[a].root == r
    ensures forall i :: i in hosts[n].locks ==> hosts[n].locks[i] in hosts[n].holders
    ensures hosts[n].holders == map[] ==> hosts[n].keys == {} && hosts[n].locks == map[]
  {
    RunInOrder(hosts, events, n);
    var h := hosts[n];
    forall p, r | (p, r) in h.keys
      ensures exists a :: a in h.holders && h.holders[a].process == p && h.holders[a].root == r
    {
      assert Owned(h.holders, (p, r));
      var a :| a in h.holders && KeyOf(h.holders[a]) == (p, r);
    }
    forall a | a in h.holders
      ensures (h.holders[a].process, h.holders[a].root) in h.keys
    {
      assert KeyOf(h.holders[a]) in h.keys;
    }
    if h.holders == map[] {
      assert forall k :: k in h.keys ==> (k.0, k.1) in h.keys;
    }
  }

  // ----- One attempt, undisturbed ----------------------------------------

  datatype Failure = MutationBusy | OtherError

  /** Where an attempt fails for another reason than contention: preparing the directories, before the key is
      taken; opening the lock file; locking it; or one of the identity checks. */
  datatype Fault = Directories | OpenFile | LockFile | Identity

  /** The host after these events, if each is possible when it comes. */
  function After(h: Host, events: seq<Event>): Option<Host> {
    if events == [] then Some(h)
    else
      var before := After(h, events[..|events| - 1]);
      var e := events[|events| - 1];
      if before.Some? && Enabled(before.value, e) then Some(Next(before.value, e)) else None
  }

  lemma AfterOne(h: Host, events: seq<Event>, h': Host, e: Event)
    requires After(h, events) == Some(h') && Enabled(h', e)
    ensures After(h, events + [e]) == Some(Next(h', e))
  {
    assert (events + [e])[..|events|] == events;
  }

  /** The host as the threads of its processes change it; `events` records how. */
  class LockHost {
    var host: Host
    ghost var events: seq<Event>

    constructor ()
      ensures host == QUIET && events == [] && Valid()
    {
      host, events := QUIET, [];
    }

    /** What happened so far is a run of the machine above. */
    ghost predicate Valid()
      reads this
    {
      After(QUIET, events) == Some(host) && InOrder(host)
    }

    method Do(e: Event)
      requires Valid() && Enabled(host, e)
      modifies this
      ensures Valid() && host == Next(old(host), e) && events == old(events) + [e]
    {
      hide InOrder, Enabled, Next;
      EventKeeps(host, e);
      AfterOne(QUIET, events, host, e);
      host, events := Next(host, e), events + [e];
    }

    /** Ends an attempt by an error, or a guard by dropping it: first the lock, if it is held, then the key. */
    method GiveUp(a: Attempt, e: Event)
      requires Valid() && (e == Error(a) || e == Drop(a)) && Enabled(host, e)
      modifies this
      ensures Valid() && old(events) <= events && host == Ended(old(host), a)
    {
      Gone(host, a, e);
      hide InOrder, After, Enabled, Next, Ended;
      Do(e);
      Do(Release(a));
    }

    /** `try_acquire_mutation_lock`. The lock path names `FileOf(host, root, unused)`: the file that is there, or
        a new one. Exactly when the attempt succeeds, exactly when it answers busy; and every failure leaves keys,
        locks and holders as they were. */
    method TryAcquire(a: Attempt, process: Process, root: Root, unused: Inode, fault: Option<Fault>)
      returns (r: Result<Inode, Failure>)
      requires Valid() && a !in host.holders
      modifies this
      ensures Valid() && old(events) <= events
      ensures var key, file := (process, root), FileOf(old(host), root, unused);
              && (r.Ok? <==> fault.None? && key !in old(host).keys && file !in old(host).locks)
              && (r == Err(MutationBusy) <==>
                    || (fault != Some(Directories) && key in old(host).keys)
                    || ((fault.None? || fault == Some(Identity)) && file in old(host).locks))
              && (r.Ok? ==>
                    r.value == file && host == Live(old(host), a, process, root, Guarded(file)))
      ensures r.Err? ==> host == old(host).(named := host.named)
    {
      hide InOrder, After, Next, Enabled, Ended, Fresh, Live;
      assert fault.Some? ==>
          fault.value.Directories? || fault.value.OpenFile? || fault.value.LockFile? || fault.value.Identity?;
      if fault == Some(Directories) {
        return Err(OtherError);
      }
      ghost var before := host;
      if (process, root) in host.keys {
        Refuses(host, a, process, root);
        Do(Start(a, process, root));
        return Err(MutationBusy);
      }
      var file := FileOf(host, root, unused);
      IsFresh(before, a, process, root, unused);
      Starts(before, a, process, root, file);
      Opens(before, a, process, root, file);
      Locks(before, a, process, root, file);
      Validates(before, a, process, root, file);
      Do(Start(a, process, root));
      if fault == Some(OpenFile) {
        Ends(before, a, process, root, file, Keyed);
        GiveUp(a, Error(a));
        return Err(OtherError);
      }
      Do(Open(a, file));
      if fault == Some(LockFile) {
        Ends(before, a, process, root, file, Opened(file));
        GiveUp(a, Error(a));
        return Err(OtherError);
      }
      var held := file in host.locks;
      LiveLocks(before, a, process, root, Opened(file));
      Do(TryLock(a));
      if held {
        Do(Release(a));
        return Err(MutationBusy);
      }
      if fault == Some(Identity) {
        Ends(before, a, process, root, file, Locked(file));
        GiveUp(a, Error(a));
        return Err(OtherError);
      }
      Do(Validate(a));
      return Ok(file);
    }

    /** Acquiring and dropping, or failing to acquire, leaves keys, locks and holders exactly as they were. */
    method AcquireAndDrop(a: Attempt, process: Process, root: Root, unused: Inode, fault: Option<Fault>)
      returns (r: Result<Inode, Failure>)
      requires Valid() && a !in host.holders
      modifies this
      ensures Valid() && host == old(host).(named := host.named)
    {
      hide InOrder, After, Next, Enabled, Ended, Live;
      ghost var before := host;
      r := TryAcquire(a, process, root, unused, fault);
      if r.Ok? {
        Ends(before, a, process, root, r.value, Guarded(r.value));
        GiveUp(a, Drop(a));
      }
    }
  }

  /** The file a lock path leads to: the one it names, or a new one. */
  function FileOf(h: Host, root: Root, unused: Inode): Inode { if root in h.named then h.named[root] else unused }

  /** `before` with one more attempt, at this stage. */
  function Live(before: Host, a: Attempt, process: Process, root: Root, stage: Stage): Host {
    var locks := if stage.Locked? || stage.Guarded? then before.locks[stage.inode := a] else before.locks;
    var named := if stage.Opened? || stage.Locked? || stage.Guarded? then before.named[root := stage.inode]
        else before.named;
    Host(before.keys + {(process, root)}, locks, named, before.holders[a := Holder(process, root, stage)])
  }

  /** The attempt has the key to itself and can still come so far. */
  predicate Fresh(before: Host, a: Attempt, process: Process, root: Root, file: Inode) {
    && a !in before.holders && (process, root) !in before.keys
    && (root in before.named ==> before.named[root] == file)
  }

  lemma IsFresh(before: Host, a: Attempt, process: Process, root: Root, unused: Inode)
    requires a !in before.holders && (process, root) !in before.keys
    ensures Fresh(before, a, process, root, FileOf(before, root, unused))
  {
  }

  lemma LiveLocks(before: Host, a: Attempt, process: Process, root: Root, stage: Stage)
    requires stage.Opened?
    ensures Live(before, a, process, root, stage).locks == before.locks
  {
  }

  lemma Refuses(h: Host, a: Attempt, process: Process, root: Root)
    requires a !in h.holders && (process, root) in h.keys
    ensures Enabled(h, Start(a, process, root)) && Next(h, Start(a, process, root)) == h
  {
  }

  /** A host without this attempt, its lock and its key. */
  function Ended(h: Host, a: Attempt): Host
    requires a in h.holders
  {
    var x := h.holders[a];
    h.(keys := h.keys - {KeyOf(x)}, holders := h.holders - {a},
       locks := if x.stage.Locked? || x.stage.Guarded? then h.locks - {x.stage.inode} else h.locks)
  }

  lemma Gone(h: Host, a: Attempt, e: Event)
    requires (e == Error(a) || e == Drop(a)) && Enabled(h, e)
    ensures a in h.holders && Enabled(Next(h, e), Release(a)) && Next(Next(h, e), Release(a)) == Ended(h, a)
  {
    assert Next(Next(h, e), Release(a)).holders == Ended(h, a).holders;
  }

  lemma Starts(before: Host, a: Attempt, process: Process, root: Root, file: Inode)
    requires Fresh(before, a, process, root, file)
    ensures Enabled(before, Start(a, process, root))
            && Next(before, Start(a, process, root)) == Live(before, a, process, root, Keyed)
  {
  }

  lemma Opens(before: Host, a: Attempt, process: Process, root: Root, file: Inode)
    requires Fresh(before, a, process, root, file)
    ensures var h := Live(before, a, process, root, Keyed);
            Enabled(h, Open(a, file)) && Next(h, Open(a, file)) == Live(before, a, process, root, Opened(file))
  {
  }

  lemma Locks(before: Host, a: Attempt, process: Process, root: Root, file: Inode)
    requires Fresh(before, a, process, root, file)
    ensures var h := Live(before, a, process, root, Opened(file));
            && Enabled(h, TryLock(a))
            && (file !in before.locks ==> Next(h, TryLock(a)) == Live(before, a, process, root, Locked(file)))
            && (file in before.locks ==>
                  Enabled(Next(h, TryLock(a)), Release(a))
                  && Next(Next(h, TryLock(a)), Release(a)) == before.(named := before.named[root := file]))
  {
    var h := Live(before, a, process, root, Opened(file));
    if file in before.locks {
      var h' := Next(Next(h, TryLock(a)), Release(a));
      assert h'.keys == before.keys && h'.holders == before.holders;
    }
  }

  lemma Validates(before: Host, a: Attempt, process: Process, root: Root, file: Inode)
    requires Fresh(before, a, process, root, file)
    ensures var h := Live(before, a, process, root, Locked(file));
            Enabled(h, Validate(a)) && Next(h, Validate(a)) == Live(before, a, process, root, Guarded(file))
  {
  }

  lemma Ends(before: Host, a: Attempt, process: Process, root: Root, file: Inode, stage: Stage)
    requires Fresh(before, a, process, root, file) && stage != Failing
    requires stage.Locked? || stage.Guarded? ==> stage.inode !in before.locks
    ensures var h := Live(before, a, process, root, stage);
            && a in h.holders && Ended(h, a) == before.(named := h.named)
            && Enabled(h, if stage.Guarded? then Drop(a) else Error(a))
  {
    var h := Live(before, a, process, root, stage);
    var h' := Ended(h, a);
    assert h'.keys == before.keys && h'.holders == before.holders && h'.locks == before.locks;
  }

  // ----- Waiting ---------------------------------------------------------

  const POLL_INTERVAL := 25
  const MAX_TIMEOUT := 30000

  function Ceiling(n: nat, d: nat): nat
    requires d > 0
  {
    (n + d - 1) / d
  }

  function Min(a: nat, b: nat): nat { if a < b then a else b }

  /** How long one wait lasts: the poll interval or what is left until the deadline. */
  function Pause(now: nat, deadline: nat): nat {
    Min(if now < deadline then deadline - now else 0, POLL_INTERVAL)
  }

  /** The clock as the waiting loop reads it: reading `2k` is the guard after attempt `k`, reading
      `2k + 1` fixes the pause, which lasts at least as long as asked. */
  ghost predicate Clock(clock: nat -> nat, start: nat, deadline: nat) {
    && start <= clock(0)
    && forall k: nat ::
         && clock(2 * k) <= clock(2 * k + 1)
         && clock(2 * k + 1) + Pause(clock(2 * k + 1), deadline) <= clock(2 * k + 2)
  }

  /** `acquire_mutation_lock`: `answers(k)` is the answer of attempt `k`; only busy ones are repeated. */
  method AcquireWithin(requested: nat, start: nat, clock: nat -> nat, answers: nat -> Result<Inode, Failure>)
    returns (attempts: nat, r: Result<Inode, Failure>)
    requires Clock(clock, start, start + Min(requested, MAX_TIMEOUT))
    ensures 1 <= attempts <= Ceiling(Min(requested, MAX_TIMEOUT), POLL_INTERVAL) + 1 <= 1201
    ensures r == answers(attempts - 1)
    ensures forall k :: 0 <= k < attempts - 1 ==> answers(k) == Err(MutationBusy)
    ensures r == Err(MutationBusy) ==> clock(2 * (attempts - 1)) >= start + Min(requested, MAX_TIMEOUT)
  {
    var timeout := Min(requested, MAX_TIMEOUT);
    var deadline := start + timeout;
    attempts := 1;
    while answers(attempts - 1) == Err(MutationBusy) && clock(2 * (attempts - 1)) < deadline
      invariant attempts >= 1
      invariant forall k :: 0 <= k < attempts - 1 ==> answers(k) == Err(MutationBusy)
      invariant clock(2 * (attempts - 1)) >= Min(deadline, start + (attempts - 1) * POLL_INTERVAL)
      invariant (attempts - 2) * POLL_INTERVAL < timeout || attempts == 1
      decreases Ceiling(timeout, POLL_INTERVAL) + 1 - attempts
    {
      ghost var k := attempts - 1;
      assert clock(2 * k + 1) + Pause(clock(2 * k + 1), deadline) <= clock(2 * k + 2);
      attempts := attempts + 1;
      assert 2 * (attempts - 1) == 2 * k + 2;
    }
    r := answers(attempts - 1);
  }
}
