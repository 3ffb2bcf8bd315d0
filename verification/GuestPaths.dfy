/** Guest paths (`GuestPath::parse`, `as_posix`), where they resolve, and the copy-in list of a job. */
module GuestPaths {
  import opened Prelude
  import Base64

  /** `char::is_control`: the Unicode category `Cc`. */
  predicate IsControl(c: char) { c as int < 0x20 || 0x7F <= c as int <= 0x9F }

  function Replace(s: string, from: char, to: char): (r: string)
    ensures |r| == |s|
    ensures forall i :: 0 <= i < |s| ==> r[i] == if s[i] == from then to else s[i]
  {
    if s == "" then "" else [if s[0] == from then to else s[0]] + Replace(s[1..], from, to)
  }

  function UpperCharacter(c: char): char { if 'a' <= c <= 'z' then c - 'a' + 'A' else c }

  function Upper(s: string): string { if s == "" then "" else [UpperCharacter(s[0])] + Upper(s[1..]) }

  /** `COM` and `LPT` are numbered by digits or by the superscripts one, two and three. */
  predicate IsPortNumber(c: char) { '1' <= c <= '9' || c as int in {0xB9, 0xB2, 0xB3} }

  predicate IsWindowsDeviceName(segment: string) {
    var base := Upper(Split(segment, '.')[0]);
    || base in {"CON", "PRN", "AUX", "NUL"}
    || (|base| == 4 && base[..3] in {"COM", "LPT"} && IsPortNumber(base[3]))
  }

  predicate SegmentAllowed(segment: string) {
    && segment != "" && segment != "." && segment != ".."
    && segment[|segment| - 1] != '.' && segment[|segment| - 1] != ' '
    && !IsWindowsDeviceName(segment)
  }

  predicate CharactersAllowed(s: string) { forall i :: 0 <= i < |s| ==> s[i] != ':' && !IsControl(s[i]) }

  function Parse(value: string): Option<string> {
    if value == "" || value[0] == '\\' || value[0] == '/' || !CharactersAllowed(value) then None
    else
      var normalized := Replace(value, '/', '\\');
      var segments := Split(normalized, '\\');
      if exists i :: 0 <= i < |segments| && !SegmentAllowed(segments[i]) then None else Some(normalized)
  }

  function AsPosix(path: string): string { Replace(path, '\\', '/') }

  /** A stored path. */
  predicate IsGuestPath(path: string) {
    && path != "" && path[0] != '\\' && '/' !in path && CharactersAllowed(path)
    && forall i :: 0 <= i < |Split(path, '\\')| ==> SegmentAllowed(Split(path, '\\')[i])
  }

  // ----- Normal form -----------------------------------------------------

  lemma ReplacedBack(path: string)
    requires '/' !in path
    ensures Replace(path, '/', '\\') == path && Replace(AsPosix(path), '/', '\\') == path
  {
    hide Replace;
    var back := Replace(AsPosix(path), '/', '\\');
    forall i | 0 <= i < |path|
      ensures back[i] == path[i]
    {
      assert path[i] in path;
    }
  }

  /** `Parse` accepts into normal form, and leaves exactly the normal forms alone. */
  lemma ParseNormalizes(value: string)
    ensures Parse(value).Some? ==> IsGuestPath(Parse(value).value) && Parse(value).value == Replace(value, '/', '\\')
    ensures Parse(value) == Some(value) <==> IsGuestPath(value)
  {
    assert !IsControl('\\');
    hide Replace, SegmentAllowed, IsControl;
    var normalized := Replace(value, '/', '\\');
    assert '/' !in normalized;
    if Parse(value) == Some(value) {
      assert normalized == value;
    }
    if IsGuestPath(value) {
      assert forall i :: 0 <= i < |value| ==> value[i] in value;
      ReplacedBack(value);
    }
  }

  /** Parsing is idempotent, and undoes the POSIX spelling. */
  lemma ParseRoundTrip(value: string)
    requires Parse(value).Some?
    ensures Parse(Parse(value).value) == Parse(value)
    ensures Parse(AsPosix(Parse(value).value)) == Parse(value)
  {
    ParseNormalizes(value);
    var path := Parse(value).value;
    ParseNormalizes(path);
    ReplacedBack(path);
    assert !IsControl('/');
    hide Replace, SegmentAllowed, IsControl;
    var posix := AsPosix(path);
    assert forall i :: 0 <= i < |path| ==> path[i] in path;
    assert CharactersAllowed(posix);
  }

  /** Two accepted spellings are the same path if and only if their POSIX spellings are the same. */
  lemma PosixInjective(p: string, q: string)
    requires IsGuestPath(p) && IsGuestPath(q)
    ensures AsPosix(p) == AsPosix(q) <==> p == q
  {
    ReplacedBack(p);
    ReplacedBack(q);
  }

  // ----- Resolution ------------------------------------------------------

  /** Walking down path components from a directory given by its own components. */
  function Walk(at: seq<string>, parts: seq<string>): seq<string>
    decreases |parts|
  {
    if parts == [] then at
    else if parts[0] == "" || parts[0] == "." then Walk(at, parts[1..])
    else if parts[0] == ".." then Walk(if at == [] then [] else at[..|at| - 1], parts[1..])
    else Walk(at + [parts[0]], parts[1..])
  }

  /** The file an absolute POSIX path names, by its components from the file system root. */
  function Resolve(path: string): seq<string> { Walk([], Split(path, '/')) }

  lemma {:induction false} WalkAppend(at: seq<string>, a: seq<string>, b: seq<string>)
    ensures Walk(at, a + b) == Walk(Walk(at, a), b)
    decreases |a|
  {
    if a == [] {
      assert a + b == b;
    } else {
      assert (a + b)[1..] == a[1..] + b && (a + b)[0] == a[0];
      WalkAppend(at, a[1..], b);
      WalkAppend(if at == [] then [] else at[..|at| - 1], a[1..], b);
      WalkAppend(at + [a[0]], a[1..], b);
    }
  }

  lemma {:induction false} WalkPlain(at: seq<string>, parts: seq<string>)
    requires forall i :: 0 <= i < |parts| ==> parts[i] != "" && parts[i] != "." && parts[i] != ".."
    ensures Walk(at, parts) == at + parts
    decreases |parts|
  {
    if parts != [] {
      WalkPlain(at + [parts[0]], parts[1..]);
      assert at + [parts[0]] + parts[1..] == at + parts;
    }
  }

  /** One more character in front of a split text. */
  function Prepended(x: char, c: char, pieces: seq<string>): seq<string>
    requires pieces != []
  {
    if x == c then [""] + pieces else [[x] + pieces[0]] + pieces[1..]
  }

  lemma SplitPrepended(x: char, s: string, c: char)
    ensures Split([x] + s, c) == Prepended(x, c, Split(s, c))
  {
    assert ([x] + s)[1..] == s;
  }

  lemma PrependedAppend(x: char, c: char, a: seq<string>, b: seq<string>)
    requires a != []
    ensures Prepended(x, c, a + b) == Prepended(x, c, a) + b
  {
    assert (a + b)[0] == a[0] && (a + b)[1..] == a[1..] + b;
  }

  lemma {:induction false} SplitAround(a: string, c: char, b: string)
    ensures Split(a + [c] + b, c) == Split(a, c) + Split(b, c)
    decreases |a|
  {
    hide Prepended;
    if a == "" {
      assert a + [c] + b == [c] + b && ([c] + b)[1..] == b;
    } else {
      var x, rest := a[0], a[1..] + [c] + b;
      assert a + [c] + b == [x] + rest && a == [x] + a[1..];
      SplitPrepended(x, rest, c);
      SplitPrepended(x, a[1..], c);
      SplitAround(a[1..], c, b);
      hide Split;
      PrependedAppend(x, c, Split(a[1..], c), Split(b, c));
    }
  }

  lemma {:induction false} SplitReplaced(path: string)
    requires '/' !in path
    ensures Split(AsPosix(path), '/') == Split(path, '\\')
  {
    if path != "" {
      assert path[0] in path && forall c :: c in path[1..] ==> c in path;
      assert AsPosix(path)[1..] == AsPosix(path[1..]);
      SplitReplaced(path[1..]);
    }
  }

  function Join(pieces: seq<string>, separator: char): string
    requires pieces != []
  {
    if |pieces| == 1 then pieces[0] else pieces[0] + [separator] + Join(pieces[1..], separator)
  }

  lemma {:induction false} JoinSplit(s: string, separator: char)
    ensures Join(Split(s, separator), separator) == s
  {
    if s != "" {
      JoinSplit(s[1..], separator);
      var rest := Split(s[1..], separator);
      if s[0] == separator {
        assert ([""] + rest)[1..] == rest;
      } else {
        var pieces := [[s[0]] + rest[0]] + rest[1..];
        assert pieces[1..] == rest[1..];
        assert Join(pieces, separator) == [s[0]] + Join(rest, separator);
      }
    }
  }

  /** Below any root the path resolves strictly below that root: its own segments are all that is added. */
  lemma StaysBelowRoot(root: string, path: string)
    requires IsGuestPath(path)
    ensures Resolve(root + "/" + AsPosix(path)) == Resolve(root) + Split(path, '\\')
    ensures Resolve(root) < Resolve(root + "/" + AsPosix(path))
  {
    hide IsWindowsDeviceName, CharactersAllowed;
    SplitAround(root, '/', AsPosix(path));
    SplitReplaced(path);
    WalkAppend([], Split(root, '/'), Split(path, '\\'));
    WalkPlain(Resolve(root), Split(path, '\\'));
  }

  /** Different paths are different files below every root. */
  lemma DistinctFiles(root: string, p: string, q: string)
    requires IsGuestPath(p) && IsGuestPath(q)
    ensures Resolve(root + "/" + AsPosix(p)) == Resolve(root + "/" + AsPosix(q)) <==> p == q
  {
    hide IsGuestPath, Resolve, AsPosix;
    StaysBelowRoot(root, p);
    StaysBelowRoot(root, q);
    JoinSplit(p, '\\');
    JoinSplit(q, '\\');
    var at := Resolve(root);
    if at + Split(p, '\\') == at + Split(q, '\\') {
      assert (at + Split(p, '\\'))[|at|..] == Split(p, '\\');
      assert (at + Split(q, '\\'))[|at|..] == Split(q, '\\');
    }
  }

  // ----- The copy-in list of a job ---------------------------------------

  const MAX_COPY_IN_FILES := 16
  const MAX_TIMEOUT_SECONDS := 3600

  datatype CopyInput = CopyInput(source: string, destination: string, timeoutSeconds: nat, maxBytes: nat)

  datatype SpecError = TooManyFiles | BadSource | BadTimeout | BadSize | BadDestination | RepeatedDestination

  /** A host path that is relative and has no dot segments (on Unix a later `.` disappears on reading). */
  predicate SourceAllowed(path: string) {
    && path != "" && path[0] != '/' && '\\' !in path && ':' !in path
    && Split(path, '/')[0] != "." && ".." !in Split(path, '/')
  }

  /** What is wrong with one input by itself. */
  function InputError(input: CopyInput): Option<SpecError> {
    if !SourceAllowed(input.source) then Some(BadSource)
    else if !(1 <= input.timeoutSeconds <= MAX_TIMEOUT_SECONDS) then Some(BadTimeout)
    else if input.maxBytes == 0 || input.maxBytes > Base64.MAX_COPY_BYTES then Some(BadSize)
    else if Parse(input.destination).None? then Some(BadDestination)
    else None
  }

  /** Input `i` has the same destination as an earlier one. */
  ghost predicate Repeats(inputs: seq<CopyInput>, i: nat)
    requires i < |inputs|
  {
    exists j :: 0 <= j < i && Parse(inputs[j].destination) == Parse(inputs[i].destination)
  }

  ghost predicate AcceptedUpTo(inputs: seq<CopyInput>, n: nat) {
    n <= |inputs| && forall i :: 0 <= i < n ==> InputError(inputs[i]).None? && !Repeats(inputs, i)
  }

  /** `paths` are the destinations of the first `n` inputs. */
  ghost predicate Destinations(inputs: seq<CopyInput>, n: nat, paths: seq<string>) {
    |paths| == n <= |inputs| && forall i :: 0 <= i < n ==> Parse(inputs[i].destination) == Some(paths[i])
  }

  /** The loop over `copy_in`. The list is accepted exactly if no input is wrong by itself and none repeats a
      destination; otherwise the error is that of the first offending input. */
  method CheckCopyIn(inputs: seq<CopyInput>) returns (r: Result<seq<string>, SpecError>)
    ensures r.Ok? <==> |inputs| <= MAX_COPY_IN_FILES && AcceptedUpTo(inputs, |inputs|)
    ensures r.Ok? ==> Destinations(inputs, |inputs|, r.value)
    ensures r == Err(TooManyFiles) <==> |inputs| > MAX_COPY_IN_FILES
    ensures r.Err? && r.error != TooManyFiles ==>
              exists i :: 0 <= i < |inputs| && AcceptedUpTo(inputs, i) &&
                r.error == (if InputError(inputs[i]).Some? then InputError(inputs[i]).value else RepeatedDestination)
  {
    hide Parse, SourceAllowed;
    if |inputs| > MAX_COPY_IN_FILES {
      return Err(TooManyFiles);
    }
    var destinations, paths := {}, [];
    for n := 0 to |inputs|
      invariant AcceptedUpTo(inputs, n) && Destinations(inputs, n, paths)
      invariant forall p :: p in destinations <==> p in paths
    {
      var error := InputError(inputs[n]);
      if error.Some? {
        return Err(error.value);
      }
      var destination := Parse(inputs[n].destination).value;
      if destination in destinations {
        var j :| 0 <= j < n && paths[j] == destination;
        assert Repeats(inputs, n);
        return Err(RepeatedDestination);
      }
      assert forall j :: 0 <= j < n ==> paths[j] in paths;
      destinations := destinations + {destination};
      paths := paths + [destination];
    }
    return Ok(paths);
  }

  lemma EqualRepeats(inputs: seq<CopyInput>, paths: seq<string>, i: nat, j: nat)
    requires Destinations(inputs, |inputs|, paths) && i < j < |paths|
    ensures paths[i] == paths[j] ==> Repeats(inputs, j)
  {
  }

  /** The files of an accepted list are pairwise distinct and all strictly below the workspace root. */
  lemma AcceptedFilesDistinct(inputs: seq<CopyInput>, paths: seq<string>, root: string, i: nat, j: nat)
    requires AcceptedUpTo(inputs, |inputs|) && Destinations(inputs, |inputs|, paths) && i < |paths| && j < |paths|
    ensures Resolve(root + "/" + AsPosix(paths[i])) == Resolve(root + "/" + AsPosix(paths[j])) <==> i == j
    ensures Resolve(root) < Resolve(root + "/" + AsPosix(paths[i]))
  {
    hide Parse, IsGuestPath, Resolve, AsPosix, InputError;
    ParseNormalizes(inputs[i].destination);
    ParseNormalizes(inputs[j].destination);
    StaysBelowRoot(root, paths[i]);
    DistinctFiles(root, paths[i], paths[j]);
    if i < j {
      EqualRepeats(inputs, paths, i, j);
    } else if j < i {
      EqualRepeats(inputs, paths, j, i);
    }
  }

  lemma SplitOne(x: char, c: char)
    requires x != c
    ensures Split([x], c) == [[x]]
  {
    assert [x][1..] == "" && [x] + "" == [x];
  }

  lemma OneLetterAccepted(x: char)
    requires 'a' <= x <= 'z' || 'A' <= x <= 'Z'
    ensures Split([x], '\\') == [[x]] && !IsWindowsDeviceName([x]) && !IsControl(x)
  {
    SplitOne(x, '\\');
    SplitOne(x, '.');
    assert |Upper([x])| == 1;
  }

  // ----- Guests that ignore case -----------------------------------------

  /** A character-wise case fold that leaves the separator alone. */
  ghost predicate IsFold(fold: char -> char) { forall c :: fold(c) == '\\' <==> c == '\\' }

  function Folded(s: string, fold: char -> char): (r: string)
    ensures |r| == |s|
  {
    if s == "" then "" else [fold(s[0])] + Folded(s[1..], fold)
  }

  function FoldedAll(parts: seq<string>, fold: char -> char): (r: seq<string>)
    ensures |r| == |parts| && forall i :: 0 <= i < |r| ==> r[i] == Folded(parts[i], fold)
  {
    if parts == [] then [] else [Folded(parts[0], fold)] + FoldedAll(parts[1..], fold)
  }

  /** The file a Windows guest has for a path below a root: its segments, letter case aside. */
  function WindowsFile(root: seq<string>, path: string, fold: char -> char): seq<string> {
    FoldedAll(root + Split(path, '\\'), fold)
  }

  lemma {:induction false} SplitFolded(s: string, fold: char -> char)
    requires IsFold(fold)
    ensures Split(Folded(s, fold), '\\') == FoldedAll(Split(s, '\\'), fold)
  {
    if s == "" {
      assert FoldedAll([""], fold) == [""];
    } else {
      var rest := Split(s[1..], '\\');
      SplitFolded(s[1..], fold);
      SplitPrepended(s[0], s[1..], '\\');
      SplitPrepended(fold(s[0]), Folded(s[1..], fold), '\\');
      assert s == [s[0]] + s[1..];
      hide Split;
      FoldedPrepended(s[0], rest, fold);
    }
  }

  lemma FoldedPrepended(x: char, pieces: seq<string>, fold: char -> char)
    requires IsFold(fold) && pieces != []
    ensures FoldedAll(Prepended(x, '\\', pieces), fold) == Prepended(fold(x), '\\', FoldedAll(pieces, fold))
  {
    var left, right := FoldedAll(Prepended(x, '\\', pieces), fold), Prepended(fold(x), '\\', FoldedAll(pieces, fold));
    assert fold(x) == '\\' <==> x == '\\';
    assert ([x] + pieces[0])[1..] == pieces[0];
    assert Folded("", fold) == "";
    assert |left| == |right|;
    forall i | 0 <= i < |left|
      ensures left[i] == right[i]
    {
    }
  }

  lemma FoldedAllAppend(a: seq<string>, b: seq<string>, fold: char -> char)
    ensures FoldedAll(a + b, fold) == FoldedAll(a, fold) + FoldedAll(b, fold)
  {
    hide Folded, FoldedAll;
    var whole, parts := FoldedAll(a + b, fold), FoldedAll(a, fold) + FoldedAll(b, fold);
    forall i | 0 <= i < |whole|
      ensures whole[i] == parts[i]
    {
    }
  }

  /** On such a guest two paths below one root are one file exactly when their folded spellings are the same. */
  lemma WindowsFilesEqual(root: seq<string>, p: string, q: string, fold: char -> char)
    requires IsFold(fold)
    ensures WindowsFile(root, p, fold) == WindowsFile(root, q, fold) <==> Folded(p, fold) == Folded(q, fold)
  {
    FoldedAllAppend(root, Split(p, '\\'), fold);
    FoldedAllAppend(root, Split(q, '\\'), fold);
    SplitFolded(p, fold);
    SplitFolded(q, fold);
    JoinSplit(Folded(p, fold), '\\');
    JoinSplit(Folded(q, fold), '\\');
    hide Split, Folded, FoldedAll, Join;
    var at := FoldedAll(root, fold);
    var left, right := at + FoldedAll(Split(p, '\\'), fold), at + FoldedAll(Split(q, '\\'), fold);
    assert left[|at|..] == FoldedAll(Split(p, '\\'), fold) && right[|at|..] == FoldedAll(Split(q, '\\'), fold);
  }

  ghost predicate DistinctWindowsFiles(root: seq<string>, paths: seq<string>, fold: char -> char) {
    forall i, j :: 0 <= i < j < |paths| ==> WindowsFile(root, paths[i], fold) != WindowsFile(root, paths[j], fold)
  }

  ghost predicate DistinctFolded(paths: seq<string>, fold: char -> char) {
    forall i, j :: 0 <= i < j < |paths| ==> Folded(paths[i], fold) != Folded(paths[j], fold)
  }

  /** The destinations of an accepted list are distinct files on a guest that ignores case if and only if no two
      of them have the same folded spelling, which the list check does not look at. */
  lemma AcceptedWindowsFilesDistinct(inputs: seq<CopyInput>, paths: seq<string>, root: seq<string>, fold: char -> char)
    requires AcceptedUpTo(inputs, |inputs|) && Destinations(inputs, |inputs|, paths) && IsFold(fold)
    ensures DistinctWindowsFiles(root, paths, fold) <==> DistinctFolded(paths, fold)
  {
    hide WindowsFile, Folded, Parse, InputError;
    forall i, j | 0 <= i < j < |paths|
      ensures WindowsFile(root, paths[i], fold) == WindowsFile(root, paths[j], fold) <==>
              Folded(paths[i], fold) == Folded(paths[j], fold)
    {
      WindowsFilesEqual(root, paths[i], paths[j], fold);
    }
  }

  lemma UpperIsFold()
    ensures IsFold(UpperCharacter)
  {
  }

  /** Two inputs that differ only in the case of the destination: accepted, and one file on a Windows guest. */
  method AcceptCaseVariants(root: seq<string>) returns (paths: seq<string>)
    ensures exists inputs :: CopyListAccepted(inputs, paths)
    ensures |paths| == 2 && paths[0] != paths[1]
    ensures WindowsFile(root, paths[0], UpperCharacter) == WindowsFile(root, paths[1], UpperCharacter)
  {
    var inputs := [CopyInput("x", "a", 1, 1), CopyInput("x", "A", 1, 1)];
    CaseVariantsAccepted(inputs);
    var r := CheckCopyIn(inputs);
    paths := r.value;
    UpperIsFold();
    WindowsFilesEqual(root, paths[0], paths[1], UpperCharacter);
    FoldOne('a');
    FoldOne('A');
    assert CopyListAccepted(inputs, paths);
  }

  /** What `CheckCopyIn` promises of an accepted list. */
  ghost predicate CopyListAccepted(inputs: seq<CopyInput>, paths: seq<string>) {
    |inputs| <= MAX_COPY_IN_FILES && AcceptedUpTo(inputs, |inputs|) && Destinations(inputs, |inputs|, paths)
  }

  lemma FoldOne(x: char)
    ensures Folded([x], UpperCharacter) == [UpperCharacter(x)]
  {
    assert [x][1..] == "";
  }

  lemma OneLetterParses(x: char)
    requires 'a' <= x <= 'z' || 'A' <= x <= 'Z'
    ensures Parse([x]) == Some([x])
  {
    hide Split, IsWindowsDeviceName, IsControl;
    OneLetterAccepted(x);
    assert IsGuestPath([x]);
    hide IsGuestPath, Parse;
    ParseNormalizes([x]);
  }

  lemma CaseVariantsAccepted(inputs: seq<CopyInput>)
    requires inputs == [CopyInput("x", "a", 1, 1), CopyInput("x", "A", 1, 1)]
    ensures AcceptedUpTo(inputs, 2) && Parse("a") == Some("a") && Parse("A") == Some("A")
  {
    hide Parse, SourceAllowed;
    OneLetterSource();
    OneLetterParses('a');
    OneLetterParses('A');
    assert InputError(inputs[0]).None? && InputError(inputs[1]).None?;
    assert !Repeats(inputs, 0) && !Repeats(inputs, 1);
  }

  lemma OneLetterSource()
    ensures SourceAllowed("x")
  {
    SplitOne('x', '/');
  }
}
