/** Shared vocabulary: optional values, results, and the three ways the
    views read a table -- `filter` (Indices), `.first()` (First) and
    `.get()` (GetIndex). A table is a sequence in primary-key order. */
module Util {

  datatype Option<T> = None | Some(value: T)

  function OrElse<T>(o: Option<T>, default: T): T
  {
    match o
    case Some(v) => v
    case None => default
  }

  datatype Result<T, E> = Success(value: T) | Failure(error: E)

  /** What `QuerySet.get()` produces: one row, or one of its two exceptions. */
  datatype Lookup<T> = DoesNotExist | Found(value: T) | MultipleObjectsReturned

  /** Positions listed in strictly increasing order. */
  predicate Increasing(r: seq<nat>)
  {
    forall j, k :: 0 <= j < k < |r| ==> r[j] < r[k]
  }

  /** The positions of `s` whose element satisfies `p`, in table order:
      the rows a queryset `filter(p)` yields. */
  function Indices<T>(s: seq<T>, p: T -> bool): (r: seq<nat>)
    ensures forall k :: 0 <= k < |r| ==> r[k] < |s| && p(s[r[k]])
    ensures forall i :: 0 <= i < |s| && p(s[i]) ==> i in r
    ensures Increasing(r)
    decreases |s|
  {
    if s == [] then []
    else
      var prev := Indices(s[..|s| - 1], p);
      if p(s[|s| - 1]) then prev + [|s| - 1] else prev
  }

  /** `filter(p).first()` on a table ordered by primary key. */
  function First<T>(s: seq<T>, p: T -> bool): (r: Option<nat>)
    ensures r.None? <==> forall i :: 0 <= i < |s| ==> !p(s[i])
    ensures r.Some? ==> r.value < |s| && p(s[r.value])
    ensures r.Some? ==> forall i :: 0 <= i < r.value ==> !p(s[i])
  {
    var m := Indices(s, p);
    if m == [] then None
    else
      assert forall i :: 0 <= i < |s| && p(s[i]) ==> m[0] <= i by {
        forall i | 0 <= i < |s| && p(s[i]) ensures m[0] <= i {
          var k :| 0 <= k < |m| && m[k] == i;
          assert k == 0 || m[0] < m[k];
        }
      }
      Some(m[0])
  }

  /** `filter(p).get()`: the single matching row, or which exception is raised. */
  function GetIndex<T>(s: seq<T>, p: T -> bool): (r: Lookup<nat>)
    ensures r.DoesNotExist? <==> forall i :: 0 <= i < |s| ==> !p(s[i])
    ensures r.Found? ==> r.value < |s| && p(s[r.value])
    ensures r.Found? ==> forall i :: 0 <= i < |s| && p(s[i]) ==> i == r.value
    ensures r.MultipleObjectsReturned? <==> exists i, j :: 0 <= i < j < |s| && p(s[i]) && p(s[j])
  {
    var m := Indices(s, p);
    if |m| == 0 then DoesNotExist
    else if |m| == 1 then Found(m[0])
    else
      assert p(s[m[0]]) && p(s[m[1]]) && m[0] < m[1];
      MultipleObjectsReturned
  }

  /** The number of elements of `s` satisfying `p`, counted without
      recording where they are. */
  function Count<T>(s: seq<T>, p: T -> bool): nat
    decreases |s|
  {
    if s == [] then 0
    else Count(s[..|s| - 1], p) + (if p(s[|s| - 1]) then 1 else 0)
  }

  /** A filter yields as many rows as there are elements satisfying it. */
  lemma {:induction false} IndicesCount<T>(s: seq<T>, p: T -> bool)
    ensures |Indices(s, p)| == Count(s, p)
    decreases |s|
  {
    if s != [] {
      IndicesCount(s[..|s| - 1], p);
    }
  }

  lemma {:induction false} CountUpdate<T>(s: seq<T>, p: T -> bool, k: nat, v: T)
    requires k < |s|
    ensures Count(s[k := v], p) == Count(s, p) - (if p(s[k]) then 1 else 0) + (if p(v) then 1 else 0)
    decreases |s|
  {
    var n := |s| - 1;
    if k == n {
      assert s[k := v][..n] == s[..n];
    } else {
      assert s[k := v][..n] == s[..n][k := v];
      CountUpdate(s[..n], p, k, v);
    }
  }

  /** Changing one element changes the number of rows a filter yields by
      exactly what the predicate says about the old and the new element. */
  lemma IndicesUpdateCount<T>(s: seq<T>, p: T -> bool, k: nat, v: T)
    requires k < |s|
    ensures |Indices(s[k := v], p)| ==
            |Indices(s, p)| - (if p(s[k]) then 1 else 0) + (if p(v) then 1 else 0)
  {
    IndicesCount(s, p);
    IndicesCount(s[k := v], p);
    CountUpdate(s, p, k, v);
  }

  /** A filter no element satisfies yields no rows. */
  lemma {:induction false} IndicesNone<T>(s: seq<T>, p: T -> bool)
    requires forall i :: 0 <= i < |s| ==> !p(s[i])
    ensures Indices(s, p) == []
    decreases |s|
  {
    if s != [] {
      IndicesNone(s[..|s| - 1], p);
    }
  }

  /** Appending one element adds one row exactly when it satisfies the filter. */
  lemma IndicesAppend<T>(s: seq<T>, p: T -> bool, x: T)
    ensures Indices(s + [x], p) == Indices(s, p) + (if p(x) then [|s|] else [])
  {
    assert (s + [x])[..|s|] == s;
  }
}
