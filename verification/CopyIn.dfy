/** Copying a file into the guest and back out (`copy_in`, `copy_out`, `file_write_all`, `commit_copy_in`). */
module CopyIn {
  import opened Prelude
  import opened Base64
  import opened GuestFiles
  import opened AgentReads

  /** How a command ends: done and answered; done, but the answer is lost; refused with an error;
      answered with failure without having acted; or, for a write, cut short and answered. */
  datatype Fate = Done | LostReply | Refused | Fails | Short(n: nat)

  /** Every coming command is done and answered. */
  predicate Calm(fates: seq<Fate>) { forall i :: 0 <= i < |fates| ==> fates[i].Done? }

  function TemporaryName(destination: string, operation: string): string {
    destination + (".vmcell-" + operation + ".tmp")
  }

  /** Under `path` there is what there was, or a directory made on the way. */
  ghost predicate SameOrMade(before: Guest, after: Guest, path: string, made: seq<string>) {
    || Look(after, path) == Look(before, path)
    || (Look(before, path) == Missing && Look(after, path) == Folder && path in made)
  }

  /** Nothing but the temporary file and directories on the way is different. */
  ghost predicate OnlyTemporary(before: Guest, after: Guest, temporary: string, made: seq<string>) {
    forall p :: p != temporary ==> SameOrMade(before, after, p, made)
  }

  /** If there is a file under `path`, it has no other name. */
  ghost predicate Unshared(g: Guest, path: string) {
    path in g.names && g.names[path].File? ==> forall p :: p in g.names && p != path ==> g.names[p] != g.names[path]
  }

  /** The temporary file holds `data` under an inode that no other name has. */
  ghost predicate Staged(before: Guest, g: Guest, temporary: string, made: seq<string>, handle: nat, data: seq<byte>) {
    && temporary in g.names && g.names[temporary] == File(handle)
    && OnlyMade(before.names - {temporary}, g.names - {temporary}, made)
    && (forall p :: p in before.names && p != temporary && before.names[p].File? ==>
          OtherFileKept(before, g, before.names[p].inode, handle))
    && handle in g.bytes && g.bytes[handle] == data
  }

  ghost predicate OtherFileKept(before: Guest, g: Guest, inode: nat, handle: nat) {
    inode != handle && inode in before.bytes && inode in g.bytes && g.bytes[inode] == before.bytes[inode]
  }

  lemma StagedOnlyTemporary(before: Guest, g: Guest, temporary: string, made: seq<string>, handle: nat, data: seq<byte>)
    requires WellFormed(before) && Staged(before, g, temporary, made, handle, data)
    ensures OnlyTemporary(before, g, temporary, made)
  {
    forall p | p != temporary
      ensures SameOrMade(before, g, p, made)
    {
      assert p in g.names <==> p in g.names - {temporary};
      assert p in before.names <==> p in before.names - {temporary};
    }
  }

  lemma MadeOnlyTemporary(before: Guest, names: Names, temporary: string, made: seq<string>)
    requires WellFormed(before) && OnlyMade(before.names, names, made)
    ensures OnlyTemporary(before, before.(names := names), temporary, made)
  {
    forall p | p != temporary
      ensures SameOrMade(before, before.(names := names), p, made)
    {
    }
  }

  lemma OpenedIsStaged(before: Guest, g: Guest, temporary: string, made: seq<string>)
    requires WellFormed(before) && g.bytes == before.bytes && g.next == before.next
    requires OnlyMade(before.names, g.names, made) && temporary !in made && Unshared(before, temporary)
    requires temporary in before.names ==> before.names[temporary].File?
    ensures Staged(before, Opened(g, temporary).0, temporary, made, Opened(g, temporary).1, [])
  {
    assert Opened(g, temporary).0.names - {temporary} == g.names - {temporary};
  }

  lemma AppendedIsStaged(before: Guest, g: Guest, temporary: string, made: seq<string>, handle: nat, data: seq<byte>,
                         part: seq<byte>)
    requires Staged(before, g, temporary, made, handle, data)
    ensures Staged(before, Appended(g, handle, part), temporary, made, handle, data + part)
  {
  }

  lemma HandleKnown(before: Guest, g: Guest, temporary: string, made: seq<string>, handle: nat, data: seq<byte>)
    requires Staged(before, g, temporary, made, handle, data)
    ensures handle in g.bytes
  {
  }

  /** `target` holds the whole content, and nothing else but the temporary file and directories on the way is
      different. */
  ghost predicate Committed(before: Guest, after: Guest, target: string, temporary: string, made: seq<string>,
                            content: seq<byte>) {
    && Look(after, target) == Bytes(content)
    && forall p :: p != target && p != temporary ==> SameOrMade(before, after, p, made)
  }

  lemma LinkedCommits(before: Guest, g: Guest, destination: string, temporary: string, made: seq<string>, handle: nat,
                      content: seq<byte>)
    requires WellFormed(before) && Staged(before, g, temporary, made, handle, content)
    requires destination != temporary && destination !in made
    ensures Linked(g, temporary, destination).1 <==> Look(before, destination) == Missing
    ensures Linked(g, temporary, destination).1 ==>
              Committed(before, Linked(g, temporary, destination).0, destination, temporary, made, content)
  {
    StagedOnlyTemporary(before, g, temporary, made, handle, content);
    assert SameOrMade(before, g, destination, made);
    assert destination in g.names <==> destination in g.names - {temporary};
    assert destination in before.names <==> destination in before.names - {temporary};
    hide OnlyMade, WellFormed;
    var after := Linked(g, temporary, destination).0;
    forall p | p != destination && p != temporary
      ensures SameOrMade(before, after, p, made)
    {
      assert SameOrMade(before, g, p, made) && Look(after, p) == Look(g, p);
    }
  }

  lemma MovedCommits(before: Guest, g: Guest, destination: string, temporary: string, made: seq<string>, handle: nat,
                     content: seq<byte>)
    requires WellFormed(before) && Staged(before, g, temporary, made, handle, content)
    requires destination != temporary && destination !in made
    requires var target := MoveTarget(before.names, temporary, destination); target != temporary && target !in made
    ensures var target := MoveTarget(before.names, temporary, destination);
            && MoveTarget(g.names, temporary, destination) == target
            && (Moved(g, temporary, destination).1 <==> Look(before, target) != Folder)
            && (Moved(g, temporary, destination).1 ==>
                  Committed(before, Moved(g, temporary, destination).0, target, temporary, made, content))
            && (Moved(g, temporary, destination).1 ==> temporary !in Moved(g, temporary, destination).0.names)
  {
    StagedOnlyTemporary(before, g, temporary, made, handle, content);
    assert SameOrMade(before, g, destination, made);
    assert destination in g.names <==> destination in g.names - {temporary};
    assert destination in before.names <==> destination in before.names - {temporary};
    var target := MoveTarget(before.names, temporary, destination);
    assert SameOrMade(before, g, target, made);
    assert target in g.names <==> target in g.names - {temporary};
    assert target in before.names <==> target in before.names - {temporary};
    hide OnlyMade, WellFormed;
    var after := Moved(g, temporary, destination).0;
    if Moved(g, temporary, destination).1 {
      forall p | p != target && p != temporary
        ensures SameOrMade(before, after, p, made)
      {
        assert SameOrMade(before, g, p, made) && Look(after, p) == Look(g, p);
      }
    }
  }

  lemma RemovedKeeps(before: Guest, g: Guest, target: string, temporary: string, made: seq<string>, content: seq<byte>)
    ensures OnlyTemporary(before, g, temporary, made) ==>
            OnlyTemporary(before, Removed(g, temporary).0, temporary, made)
    ensures Committed(before, g, target, temporary, made, content) && target != temporary ==>
              Committed(before, Removed(g, temporary).0, target, temporary, made, content)
    ensures Removed(g, temporary).1 ==> temporary !in Removed(g, temporary).0.names
  {
    var after := Removed(g, temporary).0;
    assert forall p :: p != temporary ==> Look(after, p) == Look(g, p);
    hide Look, Removed;
    if OnlyTemporary(before, g, temporary, made) {
      forall p | p != temporary
        ensures SameOrMade(before, after, p, made)
      {
        assert SameOrMade(before, g, p, made);
      }
    }
    if Committed(before, g, target, temporary, made, content) && target != temporary {
      forall p | p != target && p != temporary
        ensures SameOrMade(before, after, p, made)
      {
        assert SameOrMade(before, g, p, made);
      }
    }
  }

  lemma NamesApart(destination: string, operation: string)
    requires '/' !in operation
    ensures var temporary := TemporaryName(destination, operation);
            && temporary != destination && temporary !in Ancestors(destination)
               && destination !in Ancestors(destination)
            && destination + "/" + BaseName(temporary) != temporary
               && destination + "/" + BaseName(temporary) != destination
            && destination + "/" + BaseName(temporary) !in Ancestors(destination)
            && Ancestors(temporary) == Ancestors(destination)
  {
    var temporary := TemporaryName(destination, operation);
    var suffix := ".vmcell-" + operation + ".tmp";
    assert suffix[0] == '.';
    assert temporary[|destination|] == '.';
    assert (destination + "/" + BaseName(temporary))[|destination|] == '/';
    SiblingAncestors(destination, suffix);
  }

  /** Opening a temporary name and writing to it leaves every other name alone, whatever is written, exactly
      when no other name shares the file that is there: a leftover of an earlier attempt is harmless by itself. */
  lemma StagingSafeIffUnshared(g: Guest, temporary: string)
    requires WellFormed(g) && Look(g, temporary) != Folder
    ensures Unshared(g, temporary) <==>
            forall part: seq<byte>, p :: p != temporary ==>
              Look(Appended(Opened(g, temporary).0, Opened(g, temporary).1, part), p) == Look(g, p)
  {
    var created, handle := Opened(g, temporary).0, Opened(g, temporary).1;
    if !Unshared(g, temporary) {
      var q :| q in g.names && q != temporary && g.names[q] == g.names[temporary];
      var part: seq<byte> := if g.bytes[handle] == [] then [0] else [];
      assert Look(Appended(created, handle, part), q) == Bytes(part);
      assert Look(g, q) == Bytes(g.bytes[handle]);
    }
  }

  lemma LinkedChanges(g: Guest, from: string, to: string)
    ensures !Linked(g, from, to).1 ==> Linked(g, from, to).0 == g
  {
  }

  lemma MovedChanges(g: Guest, from: string, to: string)
    ensures !Moved(g, from, to).1 ==> Moved(g, from, to).0 == g
  {
  }

  /** Where the commit puts the content: at the destination, unless a replacing copy finds a directory there. */
  function Target(before: Guest, destination: string, temporary: string, deny: bool): string {
    if deny then destination else MoveTarget(before.names, temporary, destination)
  }

  lemma TargetApart(before: Guest, destination: string, operation: string, deny: bool)
    requires '/' !in operation
    ensures var temporary := TemporaryName(destination, operation);
            var target := Target(before, destination, temporary, deny);
            && target != temporary && target !in Ancestors(destination)
            && (target == destination <==> deny || Look(before, destination) != Folder)
  {
    NamesApart(destination, operation);
    hide TemporaryName, Ancestors, BaseName;
  }

  lemma OutcomeMeans(before: Guest, after: Guest, destination: string, target: string, temporary: string,
                     made: seq<string>, content: seq<byte>)
    requires OnlyTemporary(before, after, temporary, made) || Committed(before, after, target, temporary, made, content)
    requires target != temporary && target !in made && destination != temporary && destination !in made
    requires target != destination ==> Look(before, destination) == Folder
    ensures Look(after, target) == Look(before, target) || Look(after, target) == Bytes(content)
    ensures forall p :: p != target && p != temporary ==> SameOrMade(before, after, p, made)
    ensures Committed(before, after, target, temporary, made, content) ==>
              Look(after, target) == Bytes(content)
                && (Look(after, destination) == Bytes(content) <==> target == destination)
    ensures OnlyTemporary(before, after, temporary, made) ==> Look(after, destination) == Look(before, destination)
    ensures target != destination ==> Look(after, destination) == Folder
  {
    hide Look;
    if OnlyTemporary(before, after, temporary, made) {
      assert SameOrMade(before, after, target, made) && SameOrMade(before, after, destination, made);
    }
    if Committed(before, after, target, temporary, made, content) && target != destination {
      assert SameOrMade(before, after, destination, made);
    }
  }

  /** No file is in the way of the directories above a path. */
  ghost predicate NoFileAbove(names: Names, path: string) {
    forall p :: p in Ancestors(path) && p in names ==> names[p] == Directory
  }

  /** No file is in the way of the directories, and no directory in the way of the temporary file. */
  ghost predicate Stageable(g: Guest, destination: string, operation: string) {
    NoFileAbove(g.names, destination) && Look(g, TemporaryName(destination, operation)) != Folder
  }

  /** The answers to the reads hold this file, in whatever parts. */
  ghost predicate ServesFile(answers: seq<Answer>, file: Seen) {
    exists parts :: 1 <= |parts| <= |answers| && Serves(answers, parts) && file == Bytes(Flatten(parts))
  }

  /** Whatever files it has, the guest serves them. */
  ghost predicate Honest(serve: (Guest, string) -> seq<Answer>) {
    forall g, p :: Look(g, p).Bytes? ==> ServesFile(serve(g, p), Look(g, p))
  }

  /** What the reads give if the answers hold this file. `n` and `r` are what `FileReadAll` promises. */
  lemma ServedRead(answers: seq<Answer>, file: Seen, maxBytes: nat, n: nat, r: Result<seq<byte>, GuestError>)
    requires ServesFile(answers, file) && n < |answers|
    requires Continuing(answers, n, maxBytes) && Verdict(answers, n, maxBytes) == Some(r)
    ensures file.Bytes? && r == if |file.content| <= maxBytes then Ok(file.content) else Err(OutputLimit)
  {
    hide Serves, Flatten, Verdict, Continuing;
    var parts :| 1 <= |parts| <= |answers| && Serves(answers, parts) && file == Bytes(Flatten(parts));
    HonestRead(answers, parts, maxBytes, n, r);
  }

  lemma NotServed(answers: seq<Answer>, file: Seen)
    ensures ServesFile(answers, file) ==> file.Bytes?
  {
  }

  class AgentClient {
    var guest: Guest
    /** The fates of the coming commands; those beyond the list are done and answered. */
    var fates: seq<Fate>

    method NextFate() returns (fate: Fate)
      modifies this`fates
      ensures Calm(old(fates)) ==> Calm(fates) && fate.Done?
    {
      if fates == [] {
        return Done;
      }
      fate := fates[0];
      fates := fates[1..];
    }

    /** One command over the file agent: `after` is the guest once it has acted, if it can. */
    method Execute(after: Guest, able: bool) returns (r: Result<(), GuestError>)
      modifies this
      ensures guest == old(guest) || (able && guest == after)
      ensures r.Ok? ==> able && guest == after
      ensures r.Err? ==> r.error != PathViolation
      ensures Calm(old(fates)) ==> Calm(fates) && r.Ok? == able
    {
      var fate := NextFate();
      if !able || fate.Refused? || fate.Fails? || fate.Short? {
        return Err(Transport);
      }
      guest := after;
      if fate.LostReply? {
        return Err(Timeout);
      }
      return Ok(());
    }

    /** One program run in the guest: the answer tells whether it exited with zero. */
    method RunProgram(after: Guest, able: bool) returns (r: Result<bool, GuestError>)
      modifies this
      ensures guest == old(guest) || guest == after
      ensures r == Ok(true) ==> able && guest == after
      ensures r == Ok(false) && able ==> guest == old(guest)
      ensures r.Err? ==> r.error != PathViolation
      ensures Calm(old(fates)) ==> Calm(fates) && r == Ok(able)
    {
      var fate := NextFate();
      if fate.Refused? {
        return Err(Transport);
      }
      if fate.Fails? || fate.Short? {
        return Ok(false);
      }
      guest := after;
      if fate.LostReply? {
        return Err(Timeout);
      }
      return Ok(able);
    }

    /** `guest-file-write`: the guest decodes the text, writes it or less, and answers how much it wrote. */
    method WriteText(handle: nat, text: string) returns (r: Result<nat, GuestError>, ghost written: seq<byte>)
      requires handle in guest.bytes
      modifies this
      ensures guest == Appended(old(guest), handle, written)
      ensures r.Ok? ==>
                && Decode(text).Some? && r.value == |written| <= |Decode(text).value|
                && written == Decode(text).value[..r.value]
      ensures r.Err? ==> r.error != PathViolation
      ensures Calm(old(fates)) ==> Calm(fates) && (Decode(text).Some? ==> r == Ok(|Decode(text).value|))
    {
      hide Decode;
      var fate := NextFate();
      var decoded := Decode(text);
      written := [];
      if decoded.None? || fate.Refused? || fate.Fails? {
        assert guest.bytes[handle] + [] == guest.bytes[handle];
        return Err(Transport), written;
      }
      var n: nat := |decoded.value|;
      if fate.Short? && fate.n < n {
        n := fate.n;
      }
      written := decoded.value[..n];
      guest := Appended(guest, handle, decoded.value[..n]);
      if fate.LostReply? {
        return Err(Timeout), written;
      }
      return Ok(n), written;
    }

    /** `file_write_all`, in chunks of base64 text, then a flush. */
    method FileWriteAll(ghost before: Guest, ghost temporary: string, ghost made: seq<string>, handle: nat,
                        content: seq<byte>)
      returns (r: Result<(), GuestError>, ghost data: seq<byte>)
      requires Staged(before, guest, temporary, made, handle, [])
      modifies this
      ensures Staged(before, guest, temporary, made, handle, data)
      ensures r.Ok? ==> data == content
      ensures r.Err? ==> r.error != PathViolation
      ensures Calm(old(fates)) ==> Calm(fates) && r.Ok?
    {
      hide Staged, Encode, Decode, Appended;
      var n := 0;
      data := [];
      while n < |content|
        invariant 0 <= n <= |content| && data == content[..n]
        invariant Staged(before, guest, temporary, made, handle, data)
        invariant Calm(old(fates)) ==> Calm(fates)
      {
        var end := if n + FILE_CHUNK < |content| then n + FILE_CHUNK else |content|;
        var chunk := content[n..end];
        DecodeEncode(chunk);
        HandleKnown(before, guest, temporary, made, handle, data);
        ghost var g := guest;
        var count, written := WriteText(handle, Encode(chunk));
        AppendedIsStaged(before, g, temporary, made, handle, data, written);
        data := data + written;
        if count.Err? {
          return Err(count.error), data;
        }
        if count.value != |chunk| {
          return Err(PartialCopy), data;
        }
        assert written == chunk && content[..n] + chunk == content[..end];
        n := end;
      }
      r := Execute(guest, true);
    }

    /** Directories, temporary file, content, close: everything before the commit. */
    method Stage(destination: string, temporary: string, content: seq<byte>)
      returns (r: Result<(), GuestError>, ghost handle: nat)
      requires WellFormed(guest) && Unshared(guest, temporary)
      requires temporary !in Ancestors(destination) && Ancestors(temporary) == Ancestors(destination)
      modifies this
      ensures OnlyTemporary(old(guest), guest, temporary, Ancestors(destination))
      ensures r.Ok? ==> Staged(old(guest), guest, temporary, Ancestors(destination), handle, content)
      ensures r.Err? ==> r.error != PathViolation
      ensures Calm(old(fates)) ==> Calm(fates)
      ensures r.Ok? ==> NoFileAbove(old(guest).names, destination) && Look(old(guest), temporary) != Folder
      ensures (Calm(old(fates)) && NoFileAbove(old(guest).names, destination)
               && Look(old(guest), temporary) != Folder) ==> r.Ok?
    {
      ghost var before, above := guest, Ancestors(destination);
      handle := 0;
      var directories := MakeDirectories(guest.names, Ancestors(destination));
      MakeDirectoriesMakes(guest.names, above);
      MadeOnlyTemporary(before, directories.0, temporary, above);
      MadeOnlyTemporary(before, before.names, temporary, above);
      assert Look(before, temporary) == Folder <==> temporary in before.names && before.names[temporary] == Directory;
      hide MakeDirectories, Ancestors, OnlyTemporary, Staged, WellFormed, Look, Unshared;
      assert before.(names := before.names) == before;
      var made := RunProgram(guest.(names := directories.0), directories.1);
      if made.Err? {
        return Err(made.error), handle;
      }
      if !made.value {
        return Err(Transport), handle;
      }
      var created := Opened(guest, temporary);
      assert Openable(guest, temporary) <==> Look(before, temporary) != Folder;
      if Openable(guest, temporary) {
        OpenedIsStaged(before, guest, temporary, above);
        StagedOnlyTemporary(before, created.0, temporary, above, created.1, []);
      }
      hide Opened, OnlyMade, Openable;
      r := Execute(created.0, Openable(guest, temporary));
      if r.Err? {
        return;
      }
      ghost var data;
      handle := created.1;
      r, data := FileWriteAll(before, temporary, above, created.1, content);
      StagedOnlyTemporary(before, guest, temporary, above, created.1, data);
      var closed := Execute(guest, true);
      if r.Ok? && closed.Err? {
        r := closed;
      }
    }

    /** `commit_copy_in`: link and unlink to refuse an existing destination, or rename over it. */
    method Commit(ghost before: Guest, ghost made: seq<string>, ghost handle: nat, ghost content: seq<byte>,
                  temporary: string, destination: string, deny: bool)
      returns (r: Result<(), GuestError>)
      requires WellFormed(before) && Staged(before, guest, temporary, made, handle, content)
      requires destination != temporary && destination !in made
      requires var target := Target(before, destination, temporary, deny); target != temporary && target !in made
      modifies this
      ensures var target := Target(before, destination, temporary, deny);
              && (OnlyTemporary(before, guest, temporary, made)
                 || Committed(before, guest, target, temporary, made, content))
              && (r.Ok? ==> Committed(before, guest, target, temporary, made, content) && temporary !in guest.names)
      ensures deny && Look(before, destination) != Missing ==> r.Err? && OnlyTemporary(before, guest, temporary, made)
      ensures r == Err(PathViolation) ==> OnlyTemporary(before, guest, temporary, made) && temporary !in guest.names
      ensures Calm(old(fates)) ==> Calm(fates)
      ensures Calm(old(fates)) && deny ==>
              r == if Look(before, destination) == Missing then Ok(()) else Err(PathViolation)
      ensures Calm(old(fates)) && !deny ==>
                if Look(before, Target(before, destination, temporary, deny)) != Folder then r.Ok?
                  else r == Err(Transport)
    {
      StagedOnlyTemporary(before, guest, temporary, made, handle, content);
      LinkedCommits(before, guest, destination, temporary, made, handle, content);
      if !deny {
        MovedCommits(before, guest, destination, temporary, made, handle, content);
      }
      assert Removed(guest, temporary).1;
      assert destination != temporary && Linked(guest, temporary, destination).1 ==>
          Removed(Linked(guest, temporary, destination).0, temporary).1;
      hide Staged, OnlyTemporary, Committed, WellFormed, Look, Linked, Removed, Moved, MoveTarget;
      if deny {
        var linked := Linked(guest, temporary, destination);
        ghost var g := guest;
        assert linked.0 == g || linked.1 by { LinkedChanges(g, temporary, destination); }
        var committed := RunProgram(linked.0, linked.1);
        if committed.Err? {
          return Err(committed.error);
        }
        RemovedKeeps(before, guest, destination, temporary, made, content);
        var removed := Removed(guest, temporary);
        var cleaned := RunProgram(removed.0, removed.1);
        if cleaned.Err? {
          return Err(cleaned.error);
        }
        if !cleaned.value {
          return Err(Transport);
        }
        r := if committed.value then Ok(()) else Err(PathViolation);
      } else {
        var moved := Moved(guest, temporary, destination);
        MovedChanges(guest, temporary, destination);
        var renamed := RunProgram(moved.0, moved.1);
        if renamed.Err? {
          return Err(renamed.error);
        }
        r := if renamed.value then Ok(()) else Err(Transport);
      }
    }

    /** `copy_in`, whichever command fails or loses its reply. `target` is the destination itself, unless a
        replacing copy finds a directory there. */
    method CopyFileIn(destination: string, operation: string, content: seq<byte>, deny: bool)
      returns (r: Result<(), GuestError>)
      requires WellFormed(guest) && '/' !in operation && Unshared(guest, TemporaryName(destination, operation))
      modifies this
      ensures var temporary := TemporaryName(destination, operation);
              var target := Target(old(guest), destination, temporary, deny);
              && (Look(guest, target) == Look(old(guest), target) || Look(guest, target) == Bytes(content))
              && (forall p :: p != target && p != temporary ==>
                 SameOrMade(old(guest), guest, p, Ancestors(destination)))
              && (r.Ok? ==> Look(guest, target) == Bytes(content) && temporary !in guest.names)
              && (r == Err(PathViolation) ==>
                 OnlyTemporary(old(guest), guest, temporary, Ancestors(destination)) && temporary !in guest.names)
      ensures deny && Look(old(guest), destination) != Missing ==>
              r.Err? && Look(guest, destination) == Look(old(guest), destination)
      ensures Look(old(guest), destination) == Folder ==> Look(guest, destination) == Folder
      ensures r.Ok? ==> (Look(guest, destination) == Bytes(content) <==>
              (deny || Look(old(guest), destination) != Folder))
      ensures Calm(old(fates)) ==> Calm(fates)
      ensures !Stageable(old(guest), destination, operation) ==> r.Err?
      ensures Calm(old(fates)) && Stageable(old(guest), destination, operation) ==>
                var target := Target(old(guest), destination, TemporaryName(destination, operation), deny);
                && (Look(old(guest), target) == Missing ==> r.Ok?)
                && (deny && Look(old(guest), destination) != Missing ==> r == Err(PathViolation))
                && (!deny ==> if Look(old(guest), target) != Folder then r.Ok? else r == Err(Transport))
    {
      var temporary := TemporaryName(destination, operation);
      NamesApart(destination, operation);
      ghost var target := Target(guest, destination, temporary, deny);
      TargetApart(guest, destination, operation, deny);
      hide TemporaryName, Ancestors, Look, Staged, OnlyTemporary, Committed, WellFormed, SameOrMade, MoveTarget, Target;
      hide NoFileAbove, Unshared;
      ghost var before, above, handle := guest, Ancestors(destination), 0;
      r, handle := Stage(destination, temporary, content);
      if r.Ok? {
        r := Commit(before, above, handle, content, temporary, destination, deny);
      }
      OutcomeMeans(before, guest, destination, target, temporary, above, content);
    }

    constructor (guest: Guest, fates: seq<Fate>)
      ensures this.guest == guest && this.fates == fates
    {
      this.guest, this.fates := guest, fates;
    }

    /** `copy_out`. The guest answers the reads by `serve`, from the files it has when it is asked. Whatever it
        answers, success is at most the limit and is what was answered; if it serves the file it has, in any parts,
        the answer is that file or an error, and without trouble it is the file exactly when that is within the
        limit. */
    method CopyFileOut(source: string, serve: (Guest, string) -> seq<Answer>, maxBytes: nat)
      returns (r: Result<seq<byte>, GuestError>)
      requires forall g, p :: |serve(g, p)| > maxBytes
      modifies this
      ensures guest == old(guest) && (Calm(old(fates)) ==> Calm(fates))
      ensures r.Ok? ==> |r.value| <= maxBytes && exists n ::
              1 <= n <= maxBytes + 1 && r.value == Joined(serve(guest, source), n)
      ensures r.Ok? ==> source in guest.names && Look(guest, source) != Folder
      ensures ServesFile(serve(guest, source), Look(guest, source)) ==>
                && (r.Ok? ==> Look(guest, source) == Bytes(r.value))
                && (Calm(old(fates)) ==>
                      var content := Look(guest, source).content;
                      r == if |content| <= maxBytes then Ok(content) else Err(OutputLimit))
    {
      var able := source in guest.names && guest.names[source].File?;
      assert able ==> Look(guest, source) != Folder;
      assert !able ==> !Look(guest, source).Bytes?;
      NotServed(serve(guest, source), Look(guest, source));
      hide Joined, Verdict, Continuing, ServesFile, Look;
      var found := Execute(guest, able);
      if found.Err? {
        return Err(found.error);
      }
      var answers := serve(guest, source);
      var result, asked := FileReadAll(answers, maxBytes);
      if ServesFile(answers, Look(guest, source)) {
        ServedRead(answers, Look(guest, source), maxBytes, asked - 1, result);
      }
      var closed := Execute(guest, true);
      if result.Err? {
        return result;
      }
      if closed.Err? {
        return Err(closed.error);
      }
      return result;
    }

    /** What was copied in is what is copied out: all of it, for every limit that admits it and every guest that
        serves its own files, however it splits them. */
    method CopyInThenOut(destination: string, operation: string, content: seq<byte>, deny: bool,
                         serve: (Guest, string) -> seq<Answer>, maxBytes: nat)
      returns (stored: Result<(), GuestError>, r: Result<seq<byte>, GuestError>)
      requires WellFormed(guest) && '/' !in operation && Unshared(guest, TemporaryName(destination, operation))
      requires Honest(serve) && forall g, p :: |serve(g, p)| > maxBytes
      modifies this
      ensures stored.Ok? && (deny || Look(old(guest), destination) != Folder) ==>
                && (r.Ok? ==> r.value == content)
                && (Calm(old(fates)) ==> r == if |content| <= maxBytes then Ok(content) else Err(OutputLimit))
      ensures stored.Ok? && !deny && Look(old(guest), destination) == Folder ==> r.Err?
    {
      hide ServesFile, Look, WellFormed, SameOrMade, Unshared, Stageable;
      stored := CopyFileIn(destination, operation, content, deny);
      r := CopyFileOut(destination, serve, maxBytes);
    }
  }

  /** A replacing copy onto a directory: reported as done, although the destination is still that directory and
      the content lies inside it under the temporary file's name. */
  method CopyOntoDirectory(destination: string, operation: string, content: seq<byte>)
    returns (r: Result<(), GuestError>, found: Seen, inside: Seen)
    requires '/' !in operation
    ensures r.Ok? && found == Folder && inside == Bytes(content)
  {
    var temporary := TemporaryName(destination, operation);
    var guest := Guest(map[destination := Directory], map[], 0);
    NamesApart(destination, operation);
    assert Stageable(guest, destination, operation);
    var client := new AgentClient(guest, []);
    r := client.CopyFileIn(destination, operation, content, false);
    found := Look(client.guest, destination);
    inside := Look(client.guest, destination + "/" + BaseName(temporary));
  }

  /** There is such a guest: it serves every file in full chunks. */
  lemma HonestGuestExists(content: seq<byte>, n: nat) returns (answers: seq<Answer>)
    ensures |answers| > n && ServesFile(answers, Bytes(content))
  {
    var parts := FullChunks(content);
    FullChunksAre(content);
    answers := Replies(parts) + seq(n + 1, _ => Failed(Transport));
    RepliesServe(parts, answers);
    hide Serves, Flatten;
  }
}
