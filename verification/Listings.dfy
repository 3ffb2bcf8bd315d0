/** Directory listings in path order (`read_json_directory`, `list_cells`, `list_guest_operations`). */
module Listings {
  import opened Prelude
  import opened FileNames
  import opened Records
  import opened RecordStore

  // ----- Path order ------------------------------------------------------

  /** Lexicographic order; on scalar values it is the order of the UTF-8 bytes. */
  predicate Precedes(a: string, b: string) {
    b != "" && (a == "" || a[0] < b[0] || (a[0] == b[0] && Precedes(a[1..], b[1..])))
  }

  lemma {:induction false} PrecedesTransitive(a: string, b: string, c: string)
    requires Precedes(a, b) && Precedes(b, c)
    ensures Precedes(a, c)
  {
    if a != "" && a[0] == b[0] && b[0] == c[0] {
      PrecedesTransitive(a[1..], b[1..], c[1..]);
    }
  }

  lemma {:induction false} PrecedesTotal(a: string, b: string)
    ensures a == b || Precedes(a, b) || Precedes(b, a)
  {
    if a != "" && b != "" && a[0] == b[0] {
      PrecedesTotal(a[1..], b[1..]);
      assert a == [a[0]] + a[1..] && b == [b[0]] + b[1..];
    }
  }

  lemma {:induction false} PrecedesIrreflexive(a: string)
    ensures !Precedes(a, a)
  {
    if a != "" {
      PrecedesIrreflexive(a[1..]);
    }
  }

  /** The order in which a scan takes the record files with these stems. */
  predicate FileBefore(a: string, b: string) { Precedes(RecordName(a), RecordName(b)) }

  predicate InPathOrder(stems: seq<string>) {
    forall i, j :: 0 <= i < j < |stems| ==> FileBefore(stems[i], stems[j])
  }

  /** `stems` are exactly these, in path order. */
  ghost predicate Sorted(all: set<string>, stems: seq<string>) {
    InPathOrder(stems) && forall s :: s in stems <==> s in all
  }

  function Insert(s: string, sorted: seq<string>): seq<string> {
    if sorted == [] then [s]
    else if FileBefore(s, sorted[0]) then [s] + sorted
    else [sorted[0]] + Insert(s, sorted[1..])
  }

  lemma {:induction false} InsertHolds(s: string, sorted: seq<string>, x: string)
    ensures x in Insert(s, sorted) <==> x == s || x in sorted
  {
    hide FileBefore;
    if sorted != [] {
      assert sorted == [sorted[0]] + sorted[1..];
      InsertHolds(s, sorted[1..], x);
    }
  }

  lemma OrderedPrepend(s: string, sorted: seq<string>)
    requires InPathOrder(sorted) && forall x :: x in sorted ==> FileBefore(s, x)
    ensures InPathOrder([s] + sorted)
  {
    hide FileBefore;
    var r := [s] + sorted;
    forall i, j | 0 <= i < j < |r|
      ensures FileBefore(r[i], r[j])
    {
      assert r[j] == sorted[j - 1];
    }
  }

  lemma {:induction false} InsertOrdered(s: string, sorted: seq<string>)
    requires InPathOrder(sorted) && s !in sorted
    ensures InPathOrder(Insert(s, sorted))
  {
    if sorted != [] {
      var head, tail := sorted[0], sorted[1..];
      assert sorted == [head] + tail && s != head;
      StemsTotal(s, head);
      if FileBefore(s, head) {
        forall x | x in sorted
          ensures FileBefore(s, x)
        {
          if x != head {
            FirstPrecedes(sorted, x);
            PrecedesTransitive(RecordName(s), RecordName(head), RecordName(x));
          }
        }
        OrderedPrepend(s, sorted);
      } else {
        hide FileBefore;
        InsertOrdered(s, tail);
        forall x | x in Insert(s, tail)
          ensures FileBefore(head, x)
        {
          InsertHolds(s, tail, x);
          if x in tail {
            var i :| 0 <= i < |tail| && tail[i] == x;
            assert sorted[i + 1] == x;
          }
        }
        OrderedPrepend(head, Insert(s, tail));
      }
    }
  }

  lemma FirstPrecedes(sorted: seq<string>, x: string)
    requires InPathOrder(sorted) && x in sorted && x != sorted[0]
    ensures FileBefore(sorted[0], x)
  {
    hide FileBefore;
    var i :| 0 <= i < |sorted| && sorted[i] == x;
  }

  lemma StemsTotal(a: string, b: string)
    requires a != b
    ensures FileBefore(a, b) || FileBefore(b, a)
  {
    PrecedesTotal(RecordName(a), RecordName(b));
    assert RecordName(a)[..|a|] == a && RecordName(b)[..|b|] == b;
  }

  /** Sorts the stems that a scan found, in whatever order it found them. */
  method SortStems(all: set<string>) returns (stems: seq<string>)
    ensures Sorted(all, stems)
  {
    hide Insert, FileBefore, InPathOrder;
    stems := [];
    assert InPathOrder([]) by { EmptyOrdered(); }
    var remaining := all;
    while remaining != {}
      invariant remaining <= all && InPathOrder(stems)
      invariant forall s :: s in stems <==> s in all && s !in remaining
      decreases |remaining|
    {
      var s :| s in remaining;
      InsertOrdered(s, stems);
      forall x
        ensures x in Insert(s, stems) <==> x == s || x in stems
      {
        InsertHolds(s, stems, x);
      }
      stems := Insert(s, stems);
      remaining := remaining - {s};
    }
  }

  lemma EmptyOrdered()
    ensures InPathOrder([])
  {
  }

  /** There is only one sorted listing. */
  lemma {:induction false} SortedUnique(all: set<string>, a: seq<string>, b: seq<string>)
    requires Sorted(all, a) && Sorted(all, b)
    ensures a == b
    decreases |a|
  {
    hide FileBefore;
    HeadIn(a);
    HeadIn(b);
    if a != [] && b != [] {
      SameHead(all, a, b);
      TailSorted(all, a);
      TailSorted(all, b);
      SortedUnique(all - {a[0]}, a[1..], b[1..]);
      assert a == [a[0]] + a[1..] && b == [b[0]] + b[1..];
    }
  }

  lemma HeadIn(s: seq<string>)
    ensures s != [] ==> s[0] in s
  {
  }

  lemma {:induction false} SortedSize(all: set<string>, stems: seq<string>)
    requires Sorted(all, stems)
    ensures |stems| == |all|
    decreases |stems|
  {
    HeadIn(stems);
    if stems == [] {
      assert all == {};
    } else {
      TailSorted(all, stems);
      SortedSize(all - {stems[0]}, stems[1..]);
    }
  }

  lemma SameHead(all: set<string>, a: seq<string>, b: seq<string>)
    requires Sorted(all, a) && Sorted(all, b) && a != [] && b != []
    ensures a[0] == b[0]
  {
    assert a[0] in a && b[0] in b;
    if a[0] != b[0] {
      FirstPrecedes(a, b[0]);
      FirstPrecedes(b, a[0]);
      PrecedesTransitive(RecordName(a[0]), RecordName(b[0]), RecordName(a[0]));
      PrecedesIrreflexive(RecordName(a[0]));
      assert false;
    }
  }

  lemma TailSorted(all: set<string>, stems: seq<string>)
    requires Sorted(all, stems) && stems != []
    ensures Sorted(all - {stems[0]}, stems[1..])
  {
    assert stems == [stems[0]] + stems[1..];
    PrecedesIrreflexive(RecordName(stems[0]));
    forall s | s in stems[1..]
      ensures s != stems[0]
    {
      var i :| 0 <= i < |stems[1..]| && stems[1..][i] == s;
      assert FileBefore(stems[0], stems[i + 1]);
    }
  }

  // ----- Reading a directory ---------------------------------------------

  /** What is wrong with one record file. */
  function FileError<T>(stem: string, file: File<T>, validate: (string, T) -> Option<StateError>): Option<StateError> {
    if file.Garbage? then Some(InvalidJson) else validate(stem, file.value)
  }

  /** `r` is what reading the files in this order gives: every record, or the error of the first bad file. */
  ghost predicate ReadInOrder<T(!new)>(files: map<string, File<T>>, validate: (string, T) -> Option<StateError>,
                                       stems: seq<string>,
                                       r: Result<seq<T>, StateError>)
  {
    && (forall i :: 0 <= i < |stems| ==> stems[i] in files)
    && match r
       case Ok(records) =>
         && |records| == |stems|
         && forall i :: 0 <= i < |stems| ==>
              FileError(stems[i], files[stems[i]], validate).None? && files[stems[i]] == Json(records[i])
       case Err(error) =>
         exists i :: 0 <= i < |stems| && FileError(stems[i], files[stems[i]], validate) == Some(error)
                     && forall j :: 0 <= j < i ==> FileError(stems[j], files[stems[j]], validate).None?
  }

  /** `read_json_directory`: the record files in path order, or the error of the first bad one in that order. */
  method ReadJsonDirectory<T(!new)>(files: map<string, File<T>>, validate: (string, T) -> Option<StateError>)
    returns (r: Result<seq<T>, StateError>, ghost stems: seq<string>)
    ensures Sorted(files.Keys, stems) && ReadInOrder(files, validate, stems, r)
    ensures r.Ok? <==> forall s :: s in files ==> FileError(s, files[s], validate).None?
  {
    hide InPathOrder, FileError;
    var paths := SortStems(files.Keys);
    stems := paths;
    assert forall i :: 0 <= i < |paths| ==> paths[i] in paths;
    var records: seq<T> := [];
    for n := 0 to |paths|
      invariant |records| == n
      invariant forall i :: 0 <= i < n ==>
                  FileError(paths[i], files[paths[i]], validate).None? && files[paths[i]] == Json(records[i])
    {
      var error := FileError(paths[n], files[paths[n]], validate);
      if error.Some? {
        return Err(error.value), stems;
      }
      assert files[paths[n]].Json? by { ReadableIsJson(paths[n], files[paths[n]], validate); }
      records := records + [files[paths[n]].value];
    }
    return Ok(records), stems;
  }

  lemma ReadableIsJson<T>(stem: string, file: File<T>, validate: (string, T) -> Option<StateError>)
    requires FileError(stem, file, validate).None?
    ensures file.Json? && validate(stem, file.value).None?
  {
  }
}
