/** Order-preserving selection and concatenation over sequences, the shapes of the
    Python `for x in xs: if p(x): ...` and `for x in xs: out.extend(f(x))` loops in the tools. */
module Seqs {

  /** The elements of `s` that satisfy `p`, in their original order. */
  function Filter<T>(p: T -> bool, s: seq<T>): (r: seq<T>)
    ensures |r| <= |s|
    ensures forall i :: 0 <= i < |r| ==> r[i] in s && p(r[i])
    ensures forall i :: 0 <= i < |s| && p(s[i]) ==> s[i] in r
  {
    if |s| == 0 then []
    else Filter(p, s[..|s| - 1]) + (if p(s[|s| - 1]) then [s[|s| - 1]] else [])
  }

  /** When every element is selected, nothing is dropped. */
  lemma {:induction false} FilterAll<T>(p: T -> bool, s: seq<T>)
    requires forall i :: 0 <= i < |s| ==> p(s[i])
    ensures Filter(p, s) == s
  {
    if |s| > 0 {
      FilterAll(p, s[..|s| - 1]);
    }
  }

  /** `f` applied to each element of `s`, in order. */
  function Map<T, U>(f: T -> U, s: seq<T>): (r: seq<U>)
    ensures |r| == |s|
    ensures forall i :: 0 <= i < |s| ==> r[i] == f(s[i])
  {
    seq(|s|, i requires 0 <= i < |s| => f(s[i]))
  }

  /** The results of `f` on each element of `s`, concatenated in order. */
  function FlatMap<T, U>(f: T -> seq<U>, s: seq<T>): seq<U>
  {
    if |s| == 0 then [] else FlatMap(f, s[..|s| - 1]) + f(s[|s| - 1])
  }

  /** Concatenation distributes over the elements: the results of a list are the
      results of its first part followed by those of its second. */
  lemma {:induction false} FlatMapAppend<T, U>(f: T -> seq<U>, a: seq<T>, b: seq<T>)
    ensures FlatMap(f, a + b) == FlatMap(f, a) + FlatMap(f, b)
    decreases |b|
  {
    if |b| == 0 {
      assert a + b == a;
    } else {
      var b' := b[..|b| - 1];
      FlatMapAppend(f, a, b');
      assert (a + b)[..|a + b| - 1] == a + b';
      calc {
        FlatMap(f, a + b);
        FlatMap(f, a + b') + f(b[|b| - 1]);
        (FlatMap(f, a) + FlatMap(f, b')) + f(b[|b| - 1]);
        FlatMap(f, a) + (FlatMap(f, b') + f(b[|b| - 1]));
      }
    }
  }

  /** Every element of the concatenation is an element of the result of `f` on some element of `s`. */
  lemma {:induction false} FlatMapOrigin<T, U>(f: T -> seq<U>, s: seq<T>, i: nat)
    requires i < |FlatMap(f, s)|
    ensures exists j, k :: 0 <= j < |s| && 0 <= k < |f(s[j])| && FlatMap(f, s)[i] == f(s[j])[k]
  {
    var n := |s| - 1;
    var front := FlatMap(f, s[..n]);
    if i < |front| {
      FlatMapOrigin(f, s[..n], i);
      var j, k :| 0 <= j < n && 0 <= k < |f(s[..n][j])| && front[i] == f(s[..n][j])[k];
      assert s[..n][j] == s[j];
    } else {
      assert FlatMap(f, s)[i] == f(s[n])[i - |front|];
    }
  }

  /** A property every result element of every `f(x)` has, every element of the
      concatenation has. */
  lemma FlatMapAll<T, U>(f: T -> seq<U>, s: seq<T>, p: U -> bool)
    requires forall j, k :: 0 <= j < |s| && 0 <= k < |f(s[j])| ==> p(f(s[j])[k])
    ensures forall i :: 0 <= i < |FlatMap(f, s)| ==> p(FlatMap(f, s)[i])
  {
    forall i | 0 <= i < |FlatMap(f, s)| ensures p(FlatMap(f, s)[i]) {
      FlatMapOrigin(f, s, i);
    }
  }

  /** Every element of the result of `f` on an element of `s` is in the concatenation. */
  lemma {:induction false} FlatMapHas<T, U>(f: T -> seq<U>, s: seq<T>, j: nat, x: U)
    requires j < |s| && x in f(s[j])
    ensures x in FlatMap(f, s)
  {
    var n := |s| - 1;
    if j < n {
      FlatMapHas(f, s[..n], j, x);
      assert s[..n][j] == s[j];
    }
  }
}
