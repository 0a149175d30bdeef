/** Order-preserving filtering of sequences, the model of a pandas boolean-mask selection. */
module Seqs {

  /** The elements of `s` that satisfy `p`, in their original order. */
  function Filter<T>(p: T -> bool, s: seq<T>): (r: seq<T>)
    ensures |r| <= |s|
    ensures forall k :: 0 <= k < |r| ==> p(r[k])
    ensures forall x :: x in r ==> x in s
    ensures forall i :: 0 <= i < |s| && p(s[i]) ==> s[i] in r
  {
    if |s| == 0 then [] else (if p(s[0]) then [s[0]] else []) + Filter(p, s[1..])
  }

  ghost predicate StrictlyIncreasing(idx: seq<nat>) {
    forall a, b :: 0 <= a < b < |idx| ==> idx[a] < idx[b]
  }

  /** The positions of `s` whose element satisfies `p`, in increasing order. */
  function Kept<T>(p: T -> bool, s: seq<T>): (idx: seq<nat>)
  {
    if |s| == 0 then []
    else
      var rest := Kept(p, s[1..]);
      (if p(s[0]) then [0] else []) + seq(|rest|, k requires 0 <= k < |rest| => rest[k] + 1)
  }

  /** `Kept` lists exactly the satisfying positions, each once, in increasing order. */
  lemma {:induction false} KeptExactly<T>(p: T -> bool, s: seq<T>)
    ensures StrictlyIncreasing(Kept(p, s))
    ensures forall k :: 0 <= k < |Kept(p, s)| ==> Kept(p, s)[k] < |s|
    ensures forall i :: 0 <= i < |s| ==> (i in Kept(p, s) <==> p(s[i]))
  {
    if |s| > 0 {
      KeptExactly(p, s[1..]);
      var rest := Kept(p, s[1..]);
      var idx := Kept(p, s);
      forall i | 0 <= i < |s| ensures i in idx <==> p(s[i]) {
        if i > 0 {
          if p(s[i]) {
            assert s[1..][i - 1] == s[i];
            var k :| 0 <= k < |rest| && rest[k] == i - 1;
            assert idx[k + |idx| - |rest|] == i;
          }
        }
      }
    }
  }

  /** Filtering picks the elements at the `Kept` positions: the output is the
      satisfying elements in source order, no more and no fewer. */
  lemma {:induction false} FilterIsKept<T>(p: T -> bool, s: seq<T>)
    ensures |Filter(p, s)| == |Kept(p, s)|
    ensures forall k :: 0 <= k < |Kept(p, s)| ==> Kept(p, s)[k] < |s| && Filter(p, s)[k] == s[Kept(p, s)[k]]
  {
    if |s| > 0 {
      FilterIsKept(p, s[1..]);
    }
  }

  /** A filter that every element passes changes nothing. */
  lemma {:induction false} FilterAllPass<T>(p: T -> bool, s: seq<T>)
    requires forall i :: 0 <= i < |s| ==> p(s[i])
    ensures Filter(p, s) == s
  {
    if |s| > 0 {
      FilterAllPass(p, s[1..]);
    }
  }

  /** `f` applied to every element, in order. */
  function Map<T, U>(f: T -> U, s: seq<T>): (r: seq<U>)
    ensures |r| == |s|
    ensures forall k :: 0 <= k < |s| ==> r[k] == f(s[k])
  {
    seq(|s|, k requires 0 <= k < |s| => f(s[k]))
  }

  lemma MapAppend<T, U>(f: T -> U, a: seq<T>, b: seq<T>)
    ensures Map(f, a + b) == Map(f, a) + Map(f, b)
  {
    assert forall k :: 0 <= k < |a| ==> (a + b)[k] == a[k];
    assert forall k :: 0 <= k < |b| ==> (a + b)[|a| + k] == b[k];
  }

  /** Mapping twice is mapping once with the composition. */
  lemma MapMap<T, U, V>(f: T -> U, g: U -> V, h: T -> V, s: seq<T>)
    requires forall x :: h(x) == g(f(x))
    ensures Map(g, Map(f, s)) == Map(h, s)
  {
  }

  /** Filtering the images is mapping the elements whose image passes. */
  lemma {:induction false} FilterMap<T, U>(p: U -> bool, f: T -> U, q: T -> bool, s: seq<T>)
    requires forall x :: q(x) == p(f(x))
    ensures Filter(p, Map(f, s)) == Map(f, Filter(q, s))
  {
    if |s| > 0 {
      FilterMap(p, f, q, s[1..]);
      var head := if q(s[0]) then [s[0]] else [];
      assert Map(f, s)[1..] == Map(f, s[1..]);
      assert Map(f, head) == if p(f(s[0])) then [f(s[0])] else [];
      MapAppend(f, head, Filter(q, s[1..]));
    }
  }

  /** Filtering twice is filtering once with the conjunction. */
  lemma {:induction false} FilterFilter<T>(p: T -> bool, q: T -> bool, r: T -> bool, s: seq<T>)
    requires forall x :: r(x) == (p(x) && q(x))
    ensures Filter(q, Filter(p, s)) == Filter(r, s)
  {
    if |s| > 0 {
      FilterFilter(p, q, r, s[1..]);
      var rest := Filter(p, s[1..]);
      if p(s[0]) {
        assert ([s[0]] + rest)[1..] == rest;
      } else {
        assert [] + rest == rest;
      }
    }
  }
}
