/** The bounded child process (`src/process.rs`): three transfer threads, the child's exit and a deadline. */
module BoundedProcess {
  import opened Prelude

  datatype ProcessError = Spawn | Io | TimedOut | OutputLimit

  // ----- Reading a pipe --------------------------------------------------

  /** What a pipe delivers, read by read, and whether it ends with an error. */
  datatype Pipe = Pipe(chunks: seq<seq<byte>>, broken: bool)

  /** A read that delivers nothing is the end, so no delivered chunk is empty. */
  predicate Delivers(p: Pipe) { forall i :: 0 <= i < |p.chunks| ==> p.chunks[i] != [] }

  /** The whole stream decides, not how it is cut. */
  function WholeRead(p: Pipe, limit: nat): Result<seq<byte>, ProcessError> {
    if |Flatten(p.chunks)| > limit then Err(OutputLimit)
    else if p.broken then Err(Io)
    else Ok(Flatten(p.chunks))
  }

  lemma FlattenPrefix(chunks: seq<seq<byte>>, n: nat)
    requires n < |chunks|
    ensures Flatten(chunks[..n + 1]) == Flatten(chunks[..n]) + chunks[n]
    ensures |Flatten(chunks[..n + 1])| <= |Flatten(chunks)|
  {
    FlattenNext(chunks, n);
    assert chunks == chunks[..n + 1] + chunks[n + 1..];
    FlattenAppend(chunks[..n + 1], chunks[n + 1..]);
  }

  /** `read_limited`. */
  method ReadLimited(p: Pipe, limit: nat) returns (r: Result<seq<byte>, ProcessError>)
    requires Delivers(p)
    ensures r == WholeRead(p, limit)
  {
    var bytes, n := [], 0;
    assert p.chunks[..0] == [];
    while true
      invariant n <= |p.chunks| && bytes == Flatten(p.chunks[..n]) && |bytes| <= limit
      decreases |p.chunks| - n
    {
      if n == |p.chunks| {
        assert p.chunks[..n] == p.chunks;
        if p.broken {
          return Err(Io);
        }
        return Ok(bytes);
      }
      FlattenPrefix(p.chunks, n);
      if |bytes| + |p.chunks[n]| > limit {
        return Err(OutputLimit);
      }
      bytes := bytes + p.chunks[n];
      n := n + 1;
    }
  }

  // ----- The environment -------------------------------------------------

  datatype Thread = Stdin | Stdout | Stderr

  datatype Wait = Running | Exited(status: int) | WaitFailed

  /** What one round of the loop meets: the threads whose messages have arrived, the answer of
      `try_wait` and the clock. */
  datatype Tick = Tick(arrived: seq<Thread>, wait: Wait, now: nat)

  /** Everything outside the loop: whether the start succeeds, the three transfers, and the rounds. */
  datatype World = World(
    spawned: bool, owned: bool, piped: bool,
    stdinFails: bool, stdout: Pipe, stderr: Pipe,
    start: nat, ticks: seq<Tick>)

  const PAUSE := 10

  ghost predicate Clocked(w: World) {
    && (w.ticks != [] ==> w.start <= w.ticks[0].now)
    && forall k, l :: 0 <= k && l == k + 1 && l < |w.ticks| ==> w.ticks[k].now + PAUSE <= w.ticks[l].now
  }

  function Rounds(timeout: nat): nat { (timeout + PAUSE - 1) / PAUSE + 1 }

  /** What a thread reports when it has finished. */
  function Transfer(w: World, limit: nat, t: Thread): Result<seq<byte>, ProcessError> {
    match t
    case Stdin => if w.stdinFails then Err(Io) else Ok([])
    case Stdout => WholeRead(w.stdout, limit)
    case Stderr => WholeRead(w.stderr, limit)
  }

  // ----- When the loop ends, and with what -------------------------------

  predicate Received(w: World, n: nat, t: Thread)
    requires n <= |w.ticks|
  {
    n > 0 && (t in w.ticks[n - 1].arrived || Received(w, n - 1, t))
  }

  /** The exit status, if one of the first `n` rounds saw it. */
  function Status(w: World, n: nat): Option<int>
    requires n <= |w.ticks|
  {
    if n == 0 then None
    else
      var earlier := Status(w, n - 1);
      if earlier.Some? then earlier
      else if w.ticks[n - 1].wait.Exited? then Some(w.ticks[n - 1].wait.status)
      else None
  }

  predicate Failed(w: World, limit: nat, n: nat, t: Thread)
    requires n <= |w.ticks|
  {
    Received(w, n, t) && Transfer(w, limit, t).Err?
  }

  datatype Output = Output(status: int, stdout: seq<byte>, stderr: seq<byte>)

  /** Whether round `k` ends the loop. */
  function Verdict(w: World, limit: nat, timeout: nat, k: nat): Option<Result<Output, ProcessError>>
    requires k < |w.ticks|
  {
    if Failed(w, limit, k + 1, Stdin) then Some(Err(Transfer(w, limit, Stdin).error))
    else if Failed(w, limit, k + 1, Stdout) then Some(Err(Transfer(w, limit, Stdout).error))
    else if Failed(w, limit, k + 1, Stderr) then Some(Err(Transfer(w, limit, Stderr).error))
    else if Status(w, k).None? && w.ticks[k].wait.WaitFailed? then Some(Err(Io))
    else if Status(w, k + 1).Some? && Received(w, k + 1, Stdin) && Received(w, k + 1, Stdout)
      && Received(w, k + 1, Stderr) then
      Some(Ok(Output(Status(w, k + 1).value, Transfer(w, limit, Stdout).value, Transfer(w, limit, Stderr).value)))
    else if w.ticks[k].now >= w.start + timeout then Some(Err(TimedOut))
    else None
  }

  /** The process tree: `terminated` records that its members were killed. */
  class ProcessTree {
    var active: bool
    var terminated: bool
    var reaped: bool

    method Assign()
      modifies this
      ensures active && !terminated && !reaped
    {
      active, terminated, reaped := true, false, false;
    }

    method Terminate()
      modifies this`terminated
      ensures terminated
    {
      terminated := true;
    }

    method Disarm()
      modifies this`active
      ensures !active
    {
      active := false;
    }

    /** `Drop`: an armed tree is killed on every way out. */
    method Release()
      modifies this`terminated
      ensures terminated == (old(terminated) || active)
    {
      if active {
        Terminate();
      }
    }

    /** Terminate the tree, kill the child and wait for it. */
    method Abort()
      modifies this`terminated, this`reaped
      ensures terminated && reaped
    {
      Terminate();
      reaped := true;
    }
  }

  lemma {:induction false} ClockAdvances(w: World, k: nat)
    requires Clocked(w) && k < |w.ticks|
    ensures w.start + k * PAUSE <= w.ticks[k].now
  {
    if k > 0 {
      ClockAdvances(w, k - 1);
    }
  }

  lemma RoundBound(timeout: nat, k: nat)
    requires k * PAUSE < timeout
    ensures k + 1 < Rounds(timeout)
  {
  }

  type Results = map<Thread, Result<seq<byte>, ProcessError>>

  /** The results collected from the rounds so far. */
  ghost predicate Collected(w: World, limit: nat, n: nat, results: Results)
    requires n <= |w.ticks|
  {
    forall t ::
      && (t in results <==> Received(w, n, t))
      && (t in results ==> results[t] == Transfer(w, limit, t))
  }

  /** Takes all messages that have arrived. */
  method Drain(ghost w: World, limit: nat, ghost n: nat, results: Results, arrived: seq<Thread>, reports: Results)
    returns (after: Results)
    requires n < |w.ticks| && w.ticks[n].arrived == arrived && Collected(w, limit, n, results)
    requires forall t :: t in reports && reports[t] == Transfer(w, limit, t)
    ensures Collected(w, limit, n + 1, after)
  {
    hide Transfer;
    after := results;
    var i := 0;
    while i < |arrived|
      invariant 0 <= i <= |arrived|
      invariant forall t :: t in after <==> Received(w, n, t) || t in arrived[..i]
      invariant forall t :: t in after ==> after[t] == Transfer(w, limit, t)
    {
      after := after[arrived[i] := reports[arrived[i]]];
      assert arrived[..i + 1] == arrived[..i] + [arrived[i]];
      i := i + 1;
    }
    assert arrived[..|arrived|] == arrived;
  }

  /** The first failed transfer, in the order stdin, stdout, stderr. */
  function FirstError(results: Results): Option<ProcessError> {
    if Stdin in results && results[Stdin].Err? then Some(results[Stdin].error)
    else if Stdout in results && results[Stdout].Err? then Some(results[Stdout].error)
    else if Stderr in results && results[Stderr].Err? then Some(results[Stderr].error)
    else None
  }

  predicate Complete(results: Results) { Stdin in results && Stdout in results && Stderr in results }

  /** `Verdict` from what the loop has at hand. */
  lemma VerdictOf(w: World, limit: nat, timeout: nat, k: nat, results: Results)
    requires k < |w.ticks| && Collected(w, limit, k + 1, results)
    ensures FirstError(results).Some? ==> Verdict(w, limit, timeout, k) == Some(Err(FirstError(results).value))
    ensures FirstError(results).None? && Status(w, k).None? && w.ticks[k].wait.WaitFailed? ==>
              Verdict(w, limit, timeout, k) == Some(Err(Io))
    ensures FirstError(results).None? && !(Status(w, k).None? && w.ticks[k].wait.WaitFailed?) ==>
              Verdict(w, limit, timeout, k) ==
                if Status(w, k + 1).Some? && Complete(results) then
                  Some(Ok(Output(Status(w, k + 1).value, results[Stdout].value, results[Stderr].value)))
                else if w.ticks[k].now >= w.start + timeout then Some(Err(TimedOut))
                else None
  {
    hide Transfer, Status, Received;
  }

  /** The loop of `run_bounded`: its answer is the verdict of the first round that has one. On every error the
      tree has been terminated; on success it is disarmed, and was terminated exactly if the child's exit
      had been seen in an earlier round than the last. */
  method EventLoop(w: World, limit: nat, timeout: nat, tree: ProcessTree)
    returns (r: Result<Output, ProcessError>, rounds: nat)
    requires Clocked(w) && |w.ticks| >= Rounds(timeout) && Delivers(w.stdout) && Delivers(w.stderr)
    requires tree.active && !tree.terminated
    modifies tree
    ensures 1 <= rounds <= Rounds(timeout)
    ensures Verdict(w, limit, timeout, rounds - 1) == Some(r)
    ensures forall k :: 0 <= k < rounds - 1 ==> Verdict(w, limit, timeout, k) == None
    ensures r.Err? ==> tree.active && tree.terminated && tree.reaped
    ensures r.Ok? ==> !tree.active && (tree.terminated <==> Status(w, rounds - 1).Some?)
  {
    var stdout := ReadLimited(w.stdout, limit);
    var stderr := ReadLimited(w.stderr, limit);
    var reports: Results := map[Stdin := if w.stdinFails then Err(Io) else Ok([]), Stdout := stdout, Stderr := stderr];
    forall t: Thread
      ensures t in reports && reports[t] == Transfer(w, limit, t)
    {
      match t
      case Stdin =>
      case Stdout =>
      case Stderr =>
    }
    hide WholeRead, Transfer, Verdict, Clocked, Rounds, Collected;
    var results: Results := map[];
    assert Collected(w, limit, 0, results) by { NothingCollected(w, limit); }
    var status: Option<int> := None;
    var descendantsTerminated := false;
    rounds := 0;
    while true
      invariant rounds < Rounds(timeout)
      invariant forall k :: 0 <= k < rounds ==> Verdict(w, limit, timeout, k) == None
      invariant Collected(w, limit, rounds, results)
      invariant status == Status(w, rounds)
      invariant descendantsTerminated == tree.terminated == status.Some?
      invariant tree.active
      decreases Rounds(timeout) - rounds
    {
      var tick := w.ticks[rounds];
      results := Drain(w, limit, rounds, results, tick.arrived, reports);
      VerdictOf(w, limit, timeout, rounds, results);
      ClockAdvances(w, rounds);
      rounds := rounds + 1;
      var failed := FirstError(results);
      if failed.Some? {
        tree.Abort();
        return Err(failed.value), rounds;
      }
      if status.None? {
        match tick.wait {
          case Exited(code) => status := Some(code);
          case Running =>
          case WaitFailed =>
            tree.Abort();
            return Err(Io), rounds;
        }
      }
      if status.Some? && Complete(results) {
        break;
      }
      if status.Some? && !Complete(results) && !descendantsTerminated {
        tree.Terminate();
        descendantsTerminated := true;
      }
      if tick.now >= w.start + timeout {
        tree.Abort();
        return Err(TimedOut), rounds;
      }
      RoundBound(timeout, rounds - 1);
    }
    // None of the error branches behind the loop can be taken.
    assert status.Some? && results[Stdin].Ok? && results[Stdout].Ok? && results[Stderr].Ok?;
    tree.Disarm();
    r := Ok(Output(status.value, results[Stdout].value, results[Stderr].value));
  }

  lemma NothingCollected(w: World, limit: nat)
    ensures Collected(w, limit, 0, map[])
  {
  }

  /** `run_bounded` with its start. Once the tree is assigned, every way out but success has terminated it. */
  method RunBounded(w: World, limit: nat, timeout: nat)
    returns (r: Result<Output, ProcessError>, rounds: nat, tree: ProcessTree)
    requires Clocked(w) && |w.ticks| >= Rounds(timeout) && Delivers(w.stdout) && Delivers(w.stderr)
    ensures fresh(tree) && rounds <= Rounds(timeout)
    ensures !w.spawned || !w.owned ==> r == Err(Spawn) && rounds == 0
    ensures w.spawned && w.owned && !w.piped ==> r == Err(Io) && rounds == 0
    ensures w.spawned && w.owned && w.piped ==>
              && rounds >= 1 && Verdict(w, limit, timeout, rounds - 1) == Some(r)
              && forall k :: 0 <= k < rounds - 1 ==> Verdict(w, limit, timeout, k) == None
    ensures w.spawned && w.owned && r.Err? ==> tree.terminated && tree.reaped
    ensures r.Ok? ==> (tree.terminated <==> Status(w, rounds - 1).Some?)
  {
    tree, rounds := new ProcessTree, 0;
    if !w.spawned || !w.owned {
      return Err(Spawn), rounds, tree;
    }
    tree.Assign();
    if !w.piped {
      tree.Abort();
      r := Err(Io);
    } else {
      r, rounds := EventLoop(w, limit, timeout, tree);
    }
    tree.Release();
  }

  // ----- What the answer means -------------------------------------------

  /** The answer was decided in round `n - 1`, as `RunBounded` promises. */
  ghost predicate Decided(w: World, limit: nat, timeout: nat, n: nat, r: Result<Output, ProcessError>) {
    && 1 <= n <= |w.ticks| && Verdict(w, limit, timeout, n - 1) == Some(r)
    && forall k :: 0 <= k < n - 1 ==> Verdict(w, limit, timeout, k) == None
  }

  lemma {:induction false} StatusSeen(w: World, n: nat) returns (j: nat)
    requires n <= |w.ticks| && Status(w, n).Some?
    ensures j < n && w.ticks[j].wait == Exited(Status(w, n).value)
  {
    if Status(w, n - 1).Some? {
      j := StatusSeen(w, n - 1);
    } else {
      j := n - 1;
    }
  }

  lemma {:induction false} ReceivedSince(w: World, j: nat, n: nat, t: Thread)
    requires j < n <= |w.ticks| && t in w.ticks[j].arrived
    ensures Received(w, n, t)
    decreases n
  {
    if j < n - 1 {
      ReceivedSince(w, j, n - 1, t);
    }
  }

  lemma {:induction false} StatusSince(w: World, j: nat, n: nat)
    requires j < n <= |w.ticks| && w.ticks[j].wait.Exited?
    ensures Status(w, n).Some?
    decreases n
  {
    if j < n - 1 {
      StatusSince(w, j, n - 1);
    }
  }

  /** Success means: the child was seen to exit with that status, all three transfers had finished without error,
      and both outputs are the whole streams, within the limit. */
  lemma OkMeansFinished(w: World, limit: nat, timeout: nat, n: nat, r: Result<Output, ProcessError>)
    requires Decided(w, limit, timeout, n, r) && r.Ok?
    ensures exists j :: 0 <= j < n && w.ticks[j].wait == Exited(r.value.status)
    ensures forall t :: Received(w, n, t) && Transfer(w, limit, t).Ok?
    ensures !w.stdinFails && !w.stdout.broken && !w.stderr.broken
    ensures r.value.stdout == Flatten(w.stdout.chunks) && |r.value.stdout| <= limit
    ensures r.value.stderr == Flatten(w.stderr.chunks) && |r.value.stderr| <= limit
  {
    var j := StatusSeen(w, n);
    forall t: Thread
      ensures Received(w, n, t) && Transfer(w, limit, t).Ok?
    {
      match t
      case Stdin =>
      case Stdout =>
      case Stderr =>
    }
    assert Transfer(w, limit, Stdin).Ok? && Transfer(w, limit, Stdout).Ok? && Transfer(w, limit, Stderr).Ok?;
  }

  /** The message of `t` arrives in round `m` or before. */
  ghost predicate ArrivedBy(w: World, m: nat, t: Thread)
    requires m < |w.ticks|
  {
    exists j :: 0 <= j <= m && t in w.ticks[j].arrived
  }

  lemma ArrivedReceived(w: World, m: nat, t: Thread)
    requires m < |w.ticks| && ArrivedBy(w, m, t)
    ensures Received(w, m + 1, t)
  {
    var j :| 0 <= j <= m && t in w.ticks[j].arrived;
    ReceivedSince(w, j, m + 1, t);
  }

  /** And conversely: if the transfers are without error and by some round all have arrived and the child has
      exited, with time left in every earlier round and no failed wait, then the answer is success. */
  lemma FinishedInTimeIsOk(w: World, limit: nat, timeout: nat, m: nat, n: nat, r: Result<Output, ProcessError>)
    requires Decided(w, limit, timeout, n, r) && m < |w.ticks|
    requires forall t :: Transfer(w, limit, t).Ok? && ArrivedBy(w, m, t)
    requires exists j :: 0 <= j <= m && w.ticks[j].wait.Exited?
    requires forall k :: 0 <= k <= m ==> !w.ticks[k].wait.WaitFailed?
    requires forall k :: 0 <= k < m ==> w.ticks[k].now < w.start + timeout
    ensures r.Ok? && n <= m + 1
  {
    hide Transfer, Received, Status;
    ArrivedReceived(w, m, Stdin);
    ArrivedReceived(w, m, Stdout);
    ArrivedReceived(w, m, Stderr);
    var j :| 0 <= j <= m && w.ticks[j].wait.Exited?;
    StatusSince(w, j, m + 1);
    assert Transfer(w, limit, Stdin).Ok? && Transfer(w, limit, Stdout).Ok? && Transfer(w, limit, Stderr).Ok?;
    assert Verdict(w, limit, timeout, m).Some?;
    assert n <= m + 1;
    var k := n - 1;
    assert !w.ticks[k].wait.WaitFailed?;
    if k < m {
      assert w.ticks[k].now < w.start + timeout;
    }
  }

  /** A timeout is only reported at or after the deadline, and every earlier round was before it. */
  lemma DeadlineKept(w: World, limit: nat, timeout: nat, n: nat, r: Result<Output, ProcessError>)
    requires Decided(w, limit, timeout, n, r)
    ensures r == Err(TimedOut) ==> w.ticks[n - 1].now >= w.start + timeout
    ensures forall k :: 0 <= k < n - 1 ==> w.ticks[k].now < w.start + timeout
  {
    hide Received, Status;
    forall k | 0 <= k < n - 1
      ensures w.ticks[k].now < w.start + timeout
    {
      assert Verdict(w, limit, timeout, k) == None;
    }
  }
}
