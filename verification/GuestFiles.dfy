/** The guest's file names and files, and what the commands of the agent client do to them. */
module GuestFiles {
  import opened Prelude
  import opened Base64

  datatype Node = Directory | File(inode: nat)

  type Names = map<string, Node>

  /** `next` is an unused inode number. */
  datatype Guest = Guest(names: Names, bytes: map<nat, seq<byte>>, next: nat)

  ghost predicate WellFormed(g: Guest) {
    && (forall p :: p in g.names && g.names[p].File? ==> g.names[p].inode in g.bytes)
    && (forall i :: i in g.bytes ==> i < g.next)
  }

  datatype Seen = Missing | Folder | Bytes(content: seq<byte>)

  /** What a reader finds under a path. */
  function Look(g: Guest, path: string): Seen {
    if path !in g.names then Missing
    else match g.names[path]
      case Directory => Folder
      case File(i) => if i in g.bytes then Bytes(g.bytes[i]) else Missing
  }

  // ----- Paths -----------------------------------------------------------

  /** The directories above a path, outermost first. */
  function Ancestors(path: string): (r: seq<string>)
    ensures forall a :: a in r ==> |a| < |path|
  {
    if path == "" then []
    else
      var init := path[..|path| - 1];
      if path[|path| - 1] == '/' && init != "" then Ancestors(init) + [init] else Ancestors(init)
  }

  lemma {:induction false} SiblingAncestors(path: string, suffix: string)
    requires '/' !in suffix
    ensures Ancestors(path + suffix) == Ancestors(path)
    decreases |suffix|
  {
    var n := |suffix|;
    if n == 0 {
      assert path + suffix == path;
    } else {
      var whole := path + suffix;
      assert whole[..|whole| - 1] == path + suffix[..n - 1];
      assert whole[|whole| - 1] == suffix[n - 1];
      SiblingAncestors(path, suffix[..n - 1]);
    }
  }

  /** The part after the last slash. */
  function BaseName(path: string): string {
    if path == "" || path[|path| - 1] == '/' then ""
    else BaseName(path[..|path| - 1]) + [path[|path| - 1]]
  }

  // ----- Commands --------------------------------------------------------

  /** `mkdir -p`: goes down until something that is not a directory is in the way. */
  function MakeDirectories(names: Names, paths: seq<string>): (Names, bool)
    decreases |paths|
  {
    if paths == [] then (names, true)
    else if paths[0] in names && names[paths[0]].File? then (names, false)
    else MakeDirectories(names[paths[0] := Directory], paths[1..])
  }

  /** `names` became `after` by creating some of the directories `made`. */
  ghost predicate OnlyMade(names: Names, after: Names, made: seq<string>) {
    && (forall p :: p in names ==> p in after && after[p] == names[p])
    && (forall p :: p in after && p !in names ==> p in made && after[p] == Directory)
  }

  lemma {:induction false} MakeDirectoriesMakes(names: Names, paths: seq<string>)
    ensures var r := MakeDirectories(names, paths);
            && OnlyMade(names, r.0, paths)
            && (r.1 ==> forall p :: p in paths ==> p in r.0 && r.0[p] == Directory)
            && (r.1 <==> forall p :: p in paths && p in names ==> names[p] == Directory)
    decreases |paths|
  {
    if paths != [] && !(paths[0] in names && names[paths[0]].File?) {
      var one := names[paths[0] := Directory];
      MakeDirectoriesMakes(one, paths[1..]);
      assert forall p :: p in paths <==> p == paths[0] || p in paths[1..];
      assert forall p :: p in names ==> p in one && one[p] == names[p];
    }
  }

  /** Opening for writing needs the directory, and truncates what is there. */
  predicate Openable(g: Guest, path: string) {
    var above := Ancestors(path);
    && (above != [] ==> above[|above| - 1] in g.names && g.names[above[|above| - 1]] == Directory)
    && (path in g.names ==> g.names[path].File?)
  }

  function Opened(g: Guest, path: string): (Guest, nat) {
    if path in g.names && g.names[path].File? then
      (g.(bytes := g.bytes[g.names[path].inode := []]), g.names[path].inode)
    else
      (Guest(g.names[path := File(g.next)], g.bytes[g.next := []], g.next + 1), g.next)
  }

  function Appended(g: Guest, handle: nat, part: seq<byte>): Guest
    requires handle in g.bytes
  {
    g.(bytes := g.bytes[handle := g.bytes[handle] + part])
  }

  /** `ln -T`: a second name, never over an existing one. */
  function Linked(g: Guest, from: string, to: string): (Guest, bool) {
    if from in g.names && g.names[from].File? && to !in g.names then (g.(names := g.names[to := g.names[from]]), true)
    else (g, false)
  }

  function Removed(g: Guest, path: string): (Guest, bool) {
    if path in g.names && g.names[path].File? then (g.(names := g.names - {path}), true) else (g, false)
  }

  /** Where `mv` puts a file: without `-T` an existing directory receives it. */
  function MoveTarget(names: Names, from: string, to: string): string {
    if to in names && names[to] == Directory then to + "/" + BaseName(from) else to
  }

  /** `mv -f`: replaces a file in one step. */
  function Moved(g: Guest, from: string, to: string): (Guest, bool) {
    var target := MoveTarget(g.names, from, to);
    if !(from in g.names && g.names[from].File?) || (target in g.names && g.names[target] == Directory) then (g, false)
    else (g.(names := g.names[target := g.names[from]] - {from}), true)
  }
}
