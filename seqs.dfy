/** Sequence helpers shared by the list-editing operations (JavaScript's `filter`). */
module Seqs {
  import opened Wrappers

  /** No element occurs twice. */
  predicate Distinct<T(==)>(s: seq<T>) {
    forall i, j :: 0 <= i < j < |s| ==> s[i] != s[j]
  }

  lemma DistinctSnoc<T>(s: seq<T>, x: T)
    requires Distinct(s) && x !in s
    ensures Distinct(s + [x])
  {
  }

  /** `s.filter(p)`: the elements satisfying `p`, in their original order. */
  function Filter<T>(s: seq<T>, p: T -> bool): (r: seq<T>)
    ensures |r| <= |s|
    ensures forall i :: 0 <= i < |r| ==> r[i] in s && p(r[i])
    ensures forall i :: 0 <= i < |s| && p(s[i]) ==> s[i] in r
  {
    if s == [] then []
    else Filter(s[..|s| - 1], p) + (if p(s[|s| - 1]) then [s[|s| - 1]] else [])
  }

  /** Filtering distributes over concatenation: the relative order of the kept elements is unchanged. */
  lemma {:induction false} FilterAppend<T>(a: seq<T>, b: seq<T>, p: T -> bool)
    ensures Filter(a + b, p) == Filter(a, p) + Filter(b, p)
  {
    if b == [] {
      assert a + b == a;
    } else {
      var c := b[..|b| - 1];
      FilterAppend(a, c, p);
      assert (a + b)[..|a + b| - 1] == a + c;
      assert (a + b)[|a + b| - 1] == b[|b| - 1];
    }
  }

  /** A list all of whose elements pass the test is left as it is. */
  lemma {:induction false} FilterAll<T>(s: seq<T>, p: T -> bool)
    requires forall i :: 0 <= i < |s| ==> p(s[i])
    ensures Filter(s, p) == s
  {
    if s != [] {
      FilterAll(s[..|s| - 1], p);
      assert s[..|s| - 1] + [s[|s| - 1]] == s;
    }
  }

  /** `Array.prototype.map` with a throwing callback: every element mapped in order; the
      first failure, in order, aborts. */
  function MapAll<T, U, E>(s: seq<T>, f: T --> Result<U, E>): (r: Result<seq<U>, E>)
    requires forall i :: 0 <= i < |s| ==> f.requires(s[i])
    ensures r.Success? ==> |r.value| == |s| && forall i :: 0 <= i < |s| ==> f(s[i]) == Success(r.value[i])
  {
    if s == [] then Success([])
    else
      var first := f(s[0]);
      var rest := MapAll(s[1..], f);
      if first.Failure? then Failure(first.error)
      else if rest.Failure? then Failure(rest.error)
      else
        assert forall i :: 1 <= i < |s| ==> s[i] == s[1..][i - 1];
        Success([first.value] + rest.value)
  }

  /** `MapAll` fails exactly when some element fails, and with that element's error. */
  lemma {:induction false} MapAllFails<T, U, E>(s: seq<T>, f: T --> Result<U, E>)
    requires forall i :: 0 <= i < |s| ==> f.requires(s[i])
    ensures MapAll(s, f).Failure? ==> exists i :: 0 <= i < |s| && f(s[i]) == Failure(MapAll(s, f).error)
    ensures (forall i :: 0 <= i < |s| ==> f(s[i]).Success?) ==> MapAll(s, f).Success?
  {
    if s != [] {
      assert forall i :: 0 <= i < |s| - 1 ==> s[1..][i] == s[i + 1];
      MapAllFails(s[1..], f);
    }
  }
}
