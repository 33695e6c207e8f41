/**
 * The outcome of `random.shuffle`: the shuffled list holds at position `i`
 * the element that stood at position `p[i]`, for some permutation `p` of
 * the indices. The random choice of `p` is an input.
 */
module Shuffle {

  /** The indices 0, 1, ..., n - 1, each once. */
  function Indices(n: nat): multiset<nat> {
    if n == 0 then multiset{} else Indices(n - 1) + multiset{n - 1}
  }

  /** `p` lists every index below `n` exactly once. */
  predicate IsIndexPermutation(p: seq<nat>, n: nat) {
    multiset(p) == Indices(n)
  }

  /** `Indices(n)` holds `n` elements, all below `n`. */
  lemma {:induction false} IndicesBounded(n: nat)
    ensures |Indices(n)| == n && forall x :: x in Indices(n) ==> x < n
  {
    if n > 0 {
      IndicesBounded(n - 1);
    }
  }

  /** An index permutation of `n` has length `n`, and every entry is an index below `n`. */
  lemma PermutationBounded(p: seq<nat>, n: nat)
    requires IsIndexPermutation(p, n)
    ensures |p| == n && forall i :: 0 <= i < |p| ==> p[i] < n
  {
    IndicesBounded(n);
    assert |p| == |multiset(p)|;
    forall i | 0 <= i < |p| ensures p[i] < n {
      assert p[i] in multiset(p);
    }
  }

  /** The shuffled list: position `i` holds the element at position `p[i]`. */
  function Permute<T>(s: seq<T>, p: seq<nat>): (r: seq<T>)
    requires IsIndexPermutation(p, |s|)
    ensures |r| == |p| == |s|
  {
    PermutationBounded(p, |s|);
    seq(|p|, i requires 0 <= i < |p| => s[p[i]])
  }

  /** Position `i` of the shuffled list holds the element at position `p[i]`. */
  lemma PermuteAt<T>(s: seq<T>, p: seq<nat>, i: nat)
    requires IsIndexPermutation(p, |s|) && i < |p|
    ensures p[i] < |s| && Permute(s, p)[i] == s[p[i]]
  {
    PermutationBounded(p, |s|);
  }

  /** Striking the largest index out of a permutation leaves a permutation of the smaller indices. */
  lemma RemoveLargest(p: seq<nat>, n: nat, k: nat)
    requires n > 0 && IsIndexPermutation(p, n) && k < |p| && p[k] == n - 1
    ensures IsIndexPermutation(p[..k] + p[k + 1..], n - 1)
  {
    assert p == p[..k] + [p[k]] + p[k + 1..];
    var last: multiset<nat> := multiset{n - 1};
    assert multiset(p[..k] + p[k + 1..]) == multiset(p) - last;
  }

  /** Shuffling with `p` puts the last element where `p` holds the largest index, and the rest as the reduced permutation does. */
  lemma PermuteSplit<T>(s: seq<T>, p: seq<nat>, k: nat)
    requires |s| > 0 && IsIndexPermutation(p, |s|) && k < |p| && p[k] == |s| - 1
    requires IsIndexPermutation(p[..k] + p[k + 1..], |s| - 1)
    ensures Permute(s, p) == Permute(s[..|s| - 1], p[..k] + p[k + 1..])[..k] + [s[|s| - 1]] +
                             Permute(s[..|s| - 1], p[..k] + p[k + 1..])[k..]
  {
    var n := |s|;
    var s' := s[..n - 1];
    var p' := p[..k] + p[k + 1..];
    var r' := Permute(s', p');
    var r := Permute(s, p);
    var t := r'[..k] + [s[n - 1]] + r'[k..];
    assert |t| == |r|;
    forall i | 0 <= i < |r| ensures r[i] == t[i] {
      PermuteAt(s, p, i);
      if i < k {
        PermuteAt(s', p', i);
        assert p'[i] == p[i];
        assert t[i] == r'[i] == s'[p'[i]];
      } else if i > k {
        PermuteAt(s', p', i - 1);
        assert p'[i - 1] == p[i];
        assert t[i] == r'[i - 1] == s'[p'[i - 1]];
      }
    }
  }

  /** Inserting one element into a sequence adds it to the multiset. */
  lemma MultisetInsert<T>(a: seq<T>, k: nat, x: T)
    requires k <= |a|
    ensures multiset(a[..k] + [x] + a[k..]) == multiset(a) + multiset{x}
  {
    calc {
      multiset(a[..k] + [x] + a[k..]);
      multiset(a[..k]) + multiset{x} + multiset(a[k..]);
      { assert a == a[..k] + a[k..]; }
      multiset(a) + multiset{x};
    }
  }

  /** A non-empty sequence's multiset is that of all but its last element, plus the last. */
  lemma MultisetLast<T>(s: seq<T>)
    requires |s| > 0
    ensures multiset(s) == multiset(s[..|s| - 1]) + multiset{s[|s| - 1]}
  {
    assert s == s[..|s| - 1] + [s[|s| - 1]];
  }

  /** The largest index occurs somewhere in an index permutation. */
  lemma LargestPosition(p: seq<nat>, n: nat) returns (k: nat)
    requires n > 0 && IsIndexPermutation(p, n)
    ensures k < |p| && p[k] == n - 1
  {
    assert n - 1 in multiset(p);
    k :| 0 <= k < |p| && p[k] == n - 1;
  }

  /** Shuffling with `p` gives the reduced shuffle's multiset plus the last element. */
  lemma PermuteStep<T>(s: seq<T>, p: seq<nat>, k: nat)
    requires |s| > 0 && IsIndexPermutation(p, |s|) && k < |p| && p[k] == |s| - 1
    requires IsIndexPermutation(p[..k] + p[k + 1..], |s| - 1)
    ensures multiset(Permute(s, p)) == multiset(Permute(s[..|s| - 1], p[..k] + p[k + 1..])) + multiset{s[|s| - 1]}
  {
    PermuteSplit(s, p, k);
    MultisetInsert(Permute(s[..|s| - 1], p[..k] + p[k + 1..]), k, s[|s| - 1]);
  }

  /** Shuffling keeps the same elements with the same multiplicities. */
  lemma {:induction false} PermutePreservesMultiset<T>(s: seq<T>, p: seq<nat>)
    requires IsIndexPermutation(p, |s|)
    ensures |Permute(s, p)| == |s|
    ensures multiset(Permute(s, p)) == multiset(s)
    decreases |s|
  {
    var n := |s|;
    if n > 0 {
      var k := LargestPosition(p, n);
      var s', p' := s[..n - 1], p[..k] + p[k + 1..];
      assert IsIndexPermutation(p', n - 1) by {
        RemoveLargest(p, n, k);
      }
      assert |s'| == n - 1 && IsIndexPermutation(p', |s'|);
      assert multiset(Permute(s', p')) == multiset(s') by {
        PermutePreservesMultiset(s', p');
      }
      assert multiset(Permute(s, p)) == multiset(Permute(s', p')) + multiset{s[n - 1]} by {
        PermuteStep(s, p, k);
      }
      assert multiset(s) == multiset(s') + multiset{s[n - 1]} by {
        MultisetLast(s);
      }
    }
  }
}
