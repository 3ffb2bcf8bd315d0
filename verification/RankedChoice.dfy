/** Stable sort by rank, then "is the first one alone at its rank?" (`src/core/run_selection.rs`, end of the
    resolver). */
module RankedChoice {
  import opened Prelude

  ghost predicate Ascending<T>(s: seq<(nat, T)>) {
    forall i, j :: 0 <= i < j < |s| ==> s[i].0 <= s[j].0
  }

  lemma PrependAscending<T>(c: (nat, T), sorted: seq<(nat, T)>)
    requires sorted != [] && Ascending(sorted) && c.0 <= sorted[0].0
    ensures Ascending([c] + sorted)
  {
  }

  lemma TailAscending<T>(sorted: seq<(nat, T)>)
    requires sorted != [] && Ascending(sorted)
    ensures Ascending(sorted[1..]) && forall i :: 1 <= i < |sorted| ==> sorted[0].0 <= sorted[i].0
  {
  }

  /** Stable insertion: before the first element that is not smaller. */
  function InsertByRank<T>(c: (nat, T), sorted: seq<(nat, T)>): (r: seq<(nat, T)>)
    requires Ascending(sorted)
    ensures multiset(r) == multiset(sorted) + multiset{c}
    ensures |r| > 0
    ensures Ascending(r)
    ensures r[0] == c || (sorted != [] && r[0] == sorted[0])
  {
    if sorted == [] then [c]
    else if c.0 <= sorted[0].0 then
      PrependAscending(c, sorted);
      [c] + sorted
    else
      TailAscending(sorted);
      var rest := InsertByRank(c, sorted[1..]);
      assert sorted == [sorted[0]] + sorted[1..];
      PrependAscending(sorted[0], rest);
      [sorted[0]] + rest
  }

  function SortByRank<T>(candidates: seq<(nat, T)>): (r: seq<(nat, T)>)
    ensures multiset(r) == multiset(candidates)
    ensures Ascending(r)
  {
    if candidates == [] then []
    else
      assert candidates == [candidates[0]] + candidates[1..];
      InsertByRank(candidates[0], SortByRank(candidates[1..]))
  }

  function CountRank<T>(candidates: seq<(nat, T)>, rank: nat): nat {
    if candidates == [] then 0
    else (if candidates[0].0 == rank then 1 else 0) + CountRank(candidates[1..], rank)
  }

  ghost predicate Leads<T>(candidates: seq<(nat, T)>, i: nat) {
    i < |candidates| && forall j :: 0 <= j < |candidates| && j != i ==> candidates[i].0 < candidates[j].0
  }

  lemma {:induction false} CountRankZero<T>(candidates: seq<(nat, T)>, rank: nat)
    ensures CountRank(candidates, rank) == 0 <==> forall j :: 0 <= j < |candidates| ==> candidates[j].0 != rank
    decreases |candidates|
  {
    if candidates != [] {
      CountRankZero(candidates[1..], rank);
      assert forall j :: 1 <= j < |candidates| ==> candidates[j] == candidates[1..][j - 1];
    }
  }

  /** In an ascending list the head's rank is counted once exactly when the head leads. */
  lemma CountOne<T>(sorted: seq<(nat, T)>)
    requires sorted != [] && Ascending(sorted)
    ensures CountRank(sorted, sorted[0].0) == 1 <==> Leads(sorted, 0)
  {
    CountRankZero(sorted[1..], sorted[0].0);
    assert forall j :: 1 <= j < |sorted| ==> sorted[j] == sorted[1..][j - 1];
    assert forall j :: 0 <= j < |sorted| - 1 ==> sorted[1..][j] == sorted[j + 1];
  }

  /** Leading survives any reordering. */
  lemma LeadsReordered<T>(s: seq<(nat, T)>, t: seq<(nat, T)>, to: seq<nat>, from: seq<nat>, i: nat)
    requires Reorders(s, t, to, from) && i < |s|
    ensures Leads(s, i) <==> Leads(t, from[i])
  {
    if Leads(s, i) {
      forall k | 0 <= k < |t| && k != from[i]
        ensures t[from[i]].0 < t[k].0
      {
        assert to[k] != i;
      }
    }
    if Leads(t, from[i]) {
      forall j | 0 <= j < |s| && j != i
        ensures s[i].0 < s[j].0
      {
        assert to[from[j]] == j && to[from[i]] == i;
        assert from[j] != from[i];
      }
    }
  }

  /** Sorting puts a strict leader first, and the count of the best rank finds out whether there is one. */
  lemma LeaderFirst<T>(candidates: seq<(nat, T)>)
    requires candidates != []
    ensures SortByRank(candidates) != []
    ensures CountRank(SortByRank(candidates), SortByRank(candidates)[0].0) == 1 <==> exists i: nat ::
            Leads(candidates, i)
    ensures forall i: nat :: Leads(candidates, i) ==> SortByRank(candidates)[0] == candidates[i]
  {
    var sorted := SortByRank(candidates);
    assert |sorted| == |multiset(sorted)| == |multiset(candidates)| == |candidates|;
    var to, from := ReorderingExists(candidates, sorted);
    CountOne(sorted);
    LeadsReordered(candidates, sorted, to, from, to[0]);
    forall i: nat | Leads(candidates, i)
      ensures SortByRank(candidates)[0] == candidates[i] && Leads(sorted, 0)
    {
      LeadsReordered(candidates, sorted, to, from, i);
      assert sorted[from[i]] == candidates[i];
      assert from[i] == 0;
    }
  }
}
