/**
 * Facts about sequences that the other modules use. They are proved here, away
 * from any recursive definitions, so that using them is cheap.
 */
module SeqFacts {

  lemma ConcatAssoc<T>(x: seq<T>, y: seq<T>, z: seq<T>)
    ensures (x + y) + z == x + (y + z)
  {
  }

  /** A non-empty sequence is its front followed by its last element. */
  lemma SnocSplit<T>(a: seq<T>, b: seq<T>)
    requires b != []
    ensures a + b == (a + b[..|b| - 1]) + [b[|b| - 1]]
    ensures b == b[..|b| - 1] + [b[|b| - 1]]
  {
  }

  /** Taking one more element of `s` adds that element. */
  lemma TakeSnoc<T>(s: seq<T>, n: nat)
    requires n < |s|
    ensures s[..n + 1] == s[..n] + [s[n]]
  {
  }

  /** A slice that lies inside the second half of a concatenation. */
  lemma SliceOfConcat<T>(p: seq<T>, q: seq<T>, i: nat, j: nat)
    requires |p| <= i <= j <= |p| + |q|
    ensures (p + q)[i..j] == q[i - |p|..j - |p|]
  {
  }

  /** The first half of a concatenation. */
  lemma PrefixOfConcat<T>(p: seq<T>, q: seq<T>)
    ensures (p + q)[..|p|] == p
  {
  }
}
