/** Shared result types, and the multiset facts the other modules need. */
module Prelude {

  datatype Option<+T> = None | Some(value: T)

  datatype Result<+T, +E> = Ok(value: T) | Err(error: E)

  type byte = n: nat | n < 256

  /** Concatenation of a list of lists. */
  function Flatten<T>(parts: seq<seq<T>>): (r: seq<T>)
  {
    if parts == [] then [] else parts[0] + Flatten(parts[1..])
  }

  lemma {:induction false} FlattenAppend<T>(a: seq<seq<T>>, b: seq<seq<T>>)
    ensures Flatten(a + b) == Flatten(a) + Flatten(b)
  {
    if a == [] {
      assert a + b == b;
    } else {
      assert (a + b)[1..] == a[1..] + b;
      FlattenAppend(a[1..], b);
    }
  }

  lemma FlattenNext<T>(parts: seq<seq<T>>, n: nat)
    requires n < |parts|
    ensures Flatten(parts[..n + 1]) == Flatten(parts[..n]) + parts[n]
  {
    assert parts[..n + 1] == parts[..n] + [parts[n]];
    FlattenAppend(parts[..n], [parts[n]]);
    assert Flatten([parts[n]]) == parts[n] + Flatten([]);
  }

  /** The first position at or after `i` that holds `b`; the length if there is none. */
  function Find<T(==)>(s: seq<T>, b: T, i: nat): (k: nat)
    requires i <= |s|
    ensures i <= k <= |s|
    ensures forall j :: i <= j < k ==> s[j] != b
    ensures k < |s| ==> s[k] == b
    decreases |s| - i
  {
    if i == |s| || s[i] == b then i else Find(s, b, i + 1)
  }

  lemma {:induction false} FindIs<T>(s: seq<T>, b: T, i: nat, k: nat)
    requires i <= k <= |s|
    requires forall j :: i <= j < k ==> s[j] != b
    requires k < |s| ==> s[k] == b
    ensures Find(s, b, i) == k
    decreases k - i
  {
    if i < k {
      FindIs(s, b, i + 1, k);
    }
  }

  /** `char::is_whitespace`: the Unicode `White_Space` property. */
  predicate IsWhitespace(c: char) {
    var n := c as int;
    || 0x09 <= n <= 0x0D
    || n in {0x20, 0x85, 0xA0, 0x1680, 0x2028, 0x2029, 0x202F, 0x205F, 0x3000}
    || 0x2000 <= n <= 0x200A
  }

  /** `str::split`: the pieces between separators; always at least one piece. */
  function Split(s: string, separator: char): (pieces: seq<string>)
    ensures |pieces| >= 1
    ensures forall i :: 0 <= i < |pieces| ==> separator !in pieces[i]
  {
    if s == "" then [""]
    else
      var rest := Split(s[1..], separator);
      if s[0] == separator then [""] + rest else [[s[0]] + rest[0]] + rest[1..]
  }

  predicate StartsWith(s: string, prefix: string) { prefix <= s }

  predicate EndsWith(s: string, suffix: string) { |suffix| <= |s| && s[|s| - |suffix|..] == suffix }

  // ----- Reorderings -----------------------------------------------------

  /** `t` lists the elements of `s` in another order: `t[i] == s[to[i]]`, with `from` undoing `to`. */
  ghost predicate Reorders<T>(s: seq<T>, t: seq<T>, to: seq<nat>, from: seq<nat>) {
    && |s| == |t| == |to| == |from|
    && (forall i :: 0 <= i < |t| ==> to[i] < |s| && t[i] == s[to[i]] && from[to[i]] == i)
    && (forall j :: 0 <= j < |s| ==> from[j] < |t| && to[from[j]] == j)
  }

  function Without<T>(s: seq<T>, i: nat): (r: seq<T>)
    requires i < |s|
    ensures multiset(r) == multiset(s) - multiset{s[i]}
  {
    assert s == s[..i] + [s[i]] + s[i + 1..];
    s[..i] + s[i + 1..]
  }

  /** Extends a reordering of the shortened lists over the removed element. */
  lemma ExtendReordering<T>(s: seq<T>, t: seq<T>, i: nat, to: seq<nat>, from: seq<nat>)
    returns (to': seq<nat>, from': seq<nat>)
    requires 0 < |s| == |t| && i < |s| && s[i] == t[|t| - 1]
    requires Reorders(Without(s, i), t[..|t| - 1], to, from)
    ensures Reorders(s, t, to', from')
  {
    var last := |s| - 1;
    to' := seq(|t|, k requires 0 <= k < |t| => if k == last then i else if to[k] < i then to[k] else to[k] + 1);
    from' := seq(|s|, j requires 0 <= j < |s| => if j == i then last else if j < i then from[j] else from[j - 1]);
    forall k | 0 <= k < |t|
      ensures to'[k] < |s| && t[k] == s[to'[k]] && from'[to'[k]] == k
    {
      if k < last {
        assert t[..last][k] == t[k];
      }
    }
  }

  /** Equal multisets are reorderings of one another. */
  lemma {:induction false} ReorderingExists<T>(s: seq<T>, t: seq<T>) returns (to: seq<nat>, from: seq<nat>)
    requires multiset(s) == multiset(t)
    ensures Reorders(s, t, to, from)
    decreases |s|
  {
    assert |s| == |multiset(s)| == |multiset(t)| == |t|;
    if |t| == 0 {
      return [], [];
    }
    var last := |t| - 1;
    assert t[last] in multiset(s);
    var i :| 0 <= i < |s| && s[i] == t[last];
    assert t == t[..last] + [t[last]];
    to, from := ReorderingExists(Without(s, i), t[..last]);
    to, from := ExtendReordering(s, t, i, to, from);
  }
}
