/** Keeping the elements of a sequence that satisfy a test, and subsequences. */
module Sequences {

  /** The elements of `s` that pass `keep`, in their order in `s`. */
  function Keep<T>(s: seq<T>, keep: T -> bool): seq<T>
    decreases |s|
  {
    if s == [] then []
    else Keep(s[..|s| - 1], keep) + (if keep(s[|s| - 1]) then [s[|s| - 1]] else [])
  }

  /** The indices of the elements of `s` that pass `keep`, in increasing order. */
  function KeptPositions<T>(s: seq<T>, keep: T -> bool): seq<int>
    decreases |s|
  {
    if s == [] then []
    else KeptPositions(s[..|s| - 1], keep) + (if keep(s[|s| - 1]) then [|s| - 1] else [])
  }

  /** `a` sits inside `b` at the strictly increasing positions `idx`. */
  predicate Embeds<T(==)>(idx: seq<int>, a: seq<T>, b: seq<T>) {
    && |idx| == |a|
    && (forall i :: 0 <= i < |idx| ==> 0 <= idx[i] < |b| && a[i] == b[idx[i]])
    && (forall i, j :: 0 <= i < j < |idx| ==> idx[i] < idx[j])
  }

  ghost predicate IsSubsequence<T>(a: seq<T>, b: seq<T>) {
    exists idx :: Embeds(idx, a, b)
  }

  /** Keep picks out the elements at exactly the passing positions, in order. */
  lemma {:induction false} KeepEmbedding<T>(s: seq<T>, keep: T -> bool)
    ensures Embeds(KeptPositions(s, keep), Keep(s, keep), s)
    ensures forall k :: 0 <= k < |s| ==> (k in KeptPositions(s, keep) <==> keep(s[k]))
    decreases |s|
  {
    if s != [] {
      var init := s[..|s| - 1];
      KeepEmbedding(init, keep);
      var p := KeptPositions(init, keep);
      forall i | 0 <= i < |p| ensures s[p[i]] == init[p[i]] { }
    }
  }

  /** An element is kept exactly when it occurs in `s` and passes. */
  lemma {:induction false} KeepMembers<T>(s: seq<T>, keep: T -> bool)
    ensures forall x :: x in Keep(s, keep) <==> x in s && keep(x)
    decreases |s|
  {
    if s != [] {
      var init := s[..|s| - 1];
      KeepMembers(init, keep);
      assert s == init + [s[|s| - 1]];
    }
  }

  /** A prefix of a subsequence is a subsequence. */
  lemma PrefixEmbeds<T>(idx: seq<int>, a: seq<T>, b: seq<T>, n: nat)
    requires Embeds(idx, a, b) && n <= |a|
    ensures Embeds(idx[..n], a[..n], b)
  {
  }
}
