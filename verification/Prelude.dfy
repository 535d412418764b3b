/** Shared vocabulary: optional values, subsequences and list positions. */
module Prelude {

  datatype Option<+T> = None | Some(value: T)

  /** The members of a list. */
  function Members<T>(s: seq<T>): set<T> {
    set x | x in s
  }

  lemma MembersAppend<T>(s: seq<T>, x: T)
    ensures Members(s + [x]) == Members(s) + {x}
  {
  }

  ghost predicate Distinct<T(!new)>(s: seq<T>) {
    forall i, j :: 0 <= i < j < |s| ==> s[i] != s[j]
  }

  lemma {:induction false} DistinctCardinality<T(!new)>(s: seq<T>)
    requires Distinct(s)
    ensures |Members(s)| == |s|
  {
    if s != [] {
      var front, last := s[..|s| - 1], s[|s| - 1];
      DistinctCardinality(front);
      assert Members(s) == Members(front) + {last};
    }
  }

  /** `a` is what is left of `b` after deleting some of its positions. */
  ghost predicate Subseq<T>(a: seq<T>, b: seq<T>)
    decreases |b|
  {
    a == []
    || (b != [] && Subseq(a, b[..|b| - 1]))
    || (b != [] && a[|a| - 1] == b[|b| - 1] && Subseq(a[..|a| - 1], b[..|b| - 1]))
  }

  /** Both lists may grow by one equal entry, or the longer one by any entry. */
  lemma SubseqAppend<T>(a: seq<T>, b: seq<T>, x: T)
    requires Subseq(a, b)
    ensures Subseq(a, b + [x])
    ensures Subseq(a + [x], b + [x])
  {
    assert (b + [x])[..|b + [x]| - 1] == b;
    assert (a + [x])[..|a + [x]| - 1] == a;
  }

  /** Deleting one more position keeps the relation. */
  lemma {:induction false} SubseqDelete<T>(a: seq<T>, b: seq<T>, i: nat)
    requires Subseq(a, b) && i < |a|
    ensures Subseq(a[..i] + a[i + 1..], b)
    decreases |b|
  {
    var n, front := |a| - 1, b[..|b| - 1];
    if Subseq(a, front) {
      SubseqDelete(a, front, i);
    } else if i == n {
      assert a[..i] + a[i + 1..] == a[..n];
    } else {
      SubseqDelete(a[..n], front, i);
      var shorter := a[..n][..i] + a[..n][i + 1..];
      SubseqAppend(shorter, front, b[|b| - 1]);
      assert a[i + 1..] == a[..n][i + 1..] + [a[n]];
      assert a[..i] + a[i + 1..] == shorter + [a[n]];
      assert b == front + [b[|b| - 1]];
    }
  }

  /** Deleting a position of the second part. */
  lemma SubseqDeleteLater<T>(p: seq<T>, q: seq<T>, b: seq<T>, k: nat)
    requires Subseq(p + q, b) && k < |q|
    ensures Subseq(p + (q[..k] + q[k + 1..]), b)
  {
    SubseqDelete(p + q, b, |p| + k);
    hide Subseq;
    assert (p + q)[..|p| + k] + (p + q)[|p| + k + 1..] == p + (q[..k] + q[k + 1..]);
  }

  lemma SubseqDeleteFirst<T>(p: seq<T>, q: seq<T>, b: seq<T>)
    requires Subseq(p + q, b) && q != []
    ensures Subseq(p + q[1..], b)
  {
    SubseqDeleteLater(p, q, b, 0);
    hide Subseq;
    assert q[..0] + q[1..] == q[1..];
  }

  /** A strictly increasing list of positions in a list of the given length. */
  ghost predicate Positions(at: seq<nat>, length: nat) {
    && (forall i :: 0 <= i < |at| ==> at[i] < length)
    && (forall i, j :: 0 <= i < j < |at| ==> at[i] < at[j])
  }

  /** A subsequence sits at strictly increasing positions, so every entry of
      the longer list is used at most once. */
  lemma {:induction false} SubseqPositions<T>(a: seq<T>, b: seq<T>) returns (at: seq<nat>)
    requires Subseq(a, b)
    ensures |at| == |a| && Positions(at, |b|)
    ensures forall i :: 0 <= i < |a| ==> b[at[i]] == a[i]
    decreases |b|
  {
    if a == [] {
      at := [];
    } else if Subseq(a, b[..|b| - 1]) {
      at := SubseqPositions(a, b[..|b| - 1]);
    } else {
      at := SubseqPositions(a[..|a| - 1], b[..|b| - 1]);
      at := at + [|b| - 1];
    }
  }
}
