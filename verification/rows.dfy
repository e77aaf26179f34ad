/**
 Answers of the store and generic queries over tables.

 Every table of the newsletter database is modelled as a sequence of rows
 whose index is the row's serial id; rows are only ever appended, so a
 higher index means a newer row.
 */
module Rows {

  /** The answer of a write or of a list query: the new value, or a store error. */
  datatype Option<+T> = None | Some(value: T)

  /** The three answers of a single-row lookup: the row, no row (Go's `nil, nil`),
      or a store error (Go's `nil, err`). */
  datatype Lookup<+T> = Found(value: T) | Absent | LookupError

  /** Strictly increasing, hence duplicate-free, list of ids. */
  ghost predicate Increasing(r: seq<nat>)
  {
    forall a, b :: 0 <= a < b < |r| ==> r[a] < r[b]
  }

  /** Ids, in increasing order, of the rows of `s` that satisfy `p`
      (a `SELECT id ... WHERE p` read in id order). */
  function IndicesWhere<T>(s: seq<T>, p: T -> bool): (r: seq<nat>)
    ensures forall i :: i in r <==> 0 <= i < |s| && p(s[i])
    ensures Increasing(r)
    ensures |r| <= |s|
  {
    if |s| == 0 then []
    else
      var front := IndicesWhere(s[..|s| - 1], p);
      assert forall i :: 0 <= i < |s| - 1 ==> s[..|s| - 1][i] == s[i];
      if p(s[|s| - 1]) then
        var r := front + [|s| - 1];
        assert forall a :: 0 <= a < |front| ==> front[a] < |s| - 1 by {
          forall a | 0 <= a < |front| ensures front[a] < |s| - 1 {
            assert front[a] in front;
          }
        }
        r
      else front
  }

  /** The rows of `s` that satisfy `p`, in id order. */
  function Where<T(!new)>(s: seq<T>, p: T -> bool): (r: seq<T>)
    ensures forall x :: x in r <==> x in s && p(x)
    ensures |r| <= |s|
  {
    if |s| == 0 then []
    else
      var rest := Where(s[1..], p);
      assert forall x :: x in s <==> x == s[0] || x in s[1..];
      if p(s[0]) then [s[0]] + rest else rest
  }

  /** The newest row satisfying `p` (`ORDER BY created_at DESC LIMIT 1`). */
  function LastWhere<T>(s: seq<T>, p: T -> bool): (r: Option<nat>)
    ensures r.Some? ==> r.value < |s| && p(s[r.value])
    ensures r.Some? ==> forall j :: r.value < j < |s| ==> !p(s[j])
    ensures r.None? <==> forall j :: 0 <= j < |s| ==> !p(s[j])
  {
    if |s| == 0 then None
    else if p(s[|s| - 1]) then Some(|s| - 1)
    else
      var r := LastWhere(s[..|s| - 1], p);
      assert forall j :: 0 <= j < |s| - 1 ==> s[..|s| - 1][j] == s[j];
      r
  }

  /** The oldest row satisfying `p` (the first row a `QueryRow` scans). */
  function FirstWhere<T>(s: seq<T>, p: T -> bool): (r: Option<nat>)
    ensures r.Some? ==> r.value < |s| && p(s[r.value])
    ensures r.Some? ==> forall j :: 0 <= j < r.value ==> !p(s[j])
    ensures r.None? <==> forall j :: 0 <= j < |s| ==> !p(s[j])
  {
    if |s| == 0 then None
    else if p(s[0]) then Some(0)
    else
      match FirstWhere(s[1..], p)
      case None => None
      case Some(k) => Some(k + 1)
  }

  /** Appending rows keeps the lookups of rows that do not satisfy `p`
      in the appended part: the newest `p`-row is unchanged. */
  lemma {:induction false} LastWhereIgnoresAppended<T>(s: seq<T>, extra: seq<T>, p: T -> bool)
    requires forall j :: 0 <= j < |extra| ==> !p(extra[j])
    ensures LastWhere(s + extra, p) == LastWhere(s, p)
  {
    var t := s + extra;
    match LastWhere(s, p)
    case None =>
      assert forall j :: 0 <= j < |t| ==> !p(t[j]) by {
        forall j | 0 <= j < |t| ensures !p(t[j]) {
          if j >= |s| { assert t[j] == extra[j - |s|]; }
        }
      }
    case Some(k) =>
      var r := LastWhere(t, p);
      assert t[k] == s[k];
      assert forall j :: k < j < |t| ==> !p(t[j]) by {
        forall j | k < j < |t| ensures !p(t[j]) {
          if j >= |s| { assert t[j] == extra[j - |s|]; } else { assert t[j] == s[j]; }
        }
      }
      assert r.Some?;
  }

  /** The same for the oldest `p`-row. */
  lemma {:induction false} FirstWhereIgnoresAppended<T>(s: seq<T>, extra: seq<T>, p: T -> bool)
    requires forall j :: 0 <= j < |extra| ==> !p(extra[j])
    ensures FirstWhere(s + extra, p) == FirstWhere(s, p)
  {
    var t := s + extra;
    match FirstWhere(s, p)
    case None =>
      assert forall j :: 0 <= j < |t| ==> !p(t[j]) by {
        forall j | 0 <= j < |t| ensures !p(t[j]) {
          if j >= |s| { assert t[j] == extra[j - |s|]; }
        }
      }
    case Some(k) =>
      var r := FirstWhere(t, p);
      assert t[k] == s[k];
      assert forall j :: 0 <= j < k ==> t[j] == s[j];
      assert r.Some?;
  }

  /** Concatenation regroups freely; stated once so that proofs about long
      concatenations do not have to rediscover it. */
  lemma ConcatAssociates<T>(a: seq<T>, b: seq<T>, c: seq<T>)
    ensures a + (b + c) == a + b + c
  {
  }

  /** Being a prefix is transitive. */
  lemma PrefixChains<T>(a: seq<T>, b: seq<T>, c: seq<T>)
    requires |a| <= |b| <= |c| && b[..|a|] == a && c[..|b|] == b
    ensures c[..|a|] == a
  {
    assert forall k :: 0 <= k < |a| ==> c[k] == b[k];
  }
}
