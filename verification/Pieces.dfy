/** Sequences put together from pieces. */
module Pieces {

  /** The first `n` parts, one after the other. */
  ghost function Cat<T>(parts: seq<seq<T>>, n: nat): seq<T>
    requires n <= |parts|
  {
    if n == 0 then [] else Cat(parts, n - 1) + parts[n - 1]
  }

  lemma {:induction false} CatPrefix<T>(parts: seq<seq<T>>, i: nat, j: nat)
    requires i <= j <= |parts|
    ensures Cat(parts, i) <= Cat(parts, j)
    decreases j
  {
    if i < j {
      CatPrefix(parts, i, j - 1);
    }
  }

  lemma CatAt<T>(parts: seq<seq<T>>, i: nat, j: nat)
    requires i < |parts| && j < |parts[i]|
    ensures |Cat(parts, i)| + j < |Cat(parts, |parts|)| && Cat(parts, |parts|)[|Cat(parts, i)| + j] == parts[i][j]
  {
    CatPrefix(parts, i + 1, |parts|);
  }

  /** Equal pieces in front make equal fronts. */
  lemma {:induction false} CatSame<T>(a: seq<seq<T>>, b: seq<seq<T>>, n: nat)
    requires n <= |a| && n <= |b| && forall i | 0 <= i < n :: a[i] == b[i]
    ensures Cat(a, n) == Cat(b, n)
  {
    if n > 0 {
      CatSame(a, b, n - 1);
    }
  }
}
