/** Facts about sequences shared by the list transforms of the client. */
module Seqs {

  /** `a` is `b` with some elements dropped and the rest in their original order. */
  predicate IsSubsequence<T(==)>(a: seq<T>, b: seq<T>)
    decreases |b|
  {
    if a == [] then true
    else if b == [] then false
    else if a[0] == b[0] then IsSubsequence(a[1..], b[1..])
    else IsSubsequence(a, b[1..])
  }

  /** No element occurs twice. */
  predicate NoDuplicates<T(==)>(s: seq<T>) {
    forall i, j :: 0 <= i < j < |s| ==> s[i] != s[j]
  }

  /** Keeping the head of `b` on both sides keeps `a` a subsequence. */
  lemma SubsequenceCons<T>(h: T, a: seq<T>, b: seq<T>)
    requires IsSubsequence(a, b)
    ensures IsSubsequence([h] + a, [h] + b)
  {
    assert ([h] + a)[1..] == a;
    assert ([h] + b)[1..] == b;
  }

  /** Putting a new element in front of `b` keeps `a` a subsequence. */
  lemma {:induction false} SubsequencePrepend<T>(h: T, a: seq<T>, b: seq<T>)
    requires IsSubsequence(a, b)
    ensures IsSubsequence(a, [h] + b)
    decreases |b|, 1
  {
    assert ([h] + b)[1..] == b;
    if a != [] && a[0] == h {
      SubsequenceDropHead(a, b);
    }
  }

  /** Dropping the first element of a subsequence keeps it a subsequence. */
  lemma {:induction false} SubsequenceDropHead<T>(a: seq<T>, b: seq<T>)
    requires a != [] && IsSubsequence(a, b)
    ensures IsSubsequence(a[1..], b)
    decreases |b|, 0
  {
    assert b != [] && b == [b[0]] + b[1..];
    if a[0] == b[0] {
      SubsequencePrepend(b[0], a[1..], b[1..]);
    } else {
      SubsequenceDropHead(a, b[1..]);
      SubsequencePrepend(b[0], a[1..], b[1..]);
    }
  }
}
