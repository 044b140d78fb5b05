/** Small facts about joining and slicing sequences, each proved on its own. */
module Seqs {

  /** Slicing a join at a point inside the first part. */
  lemma ConcatSlices<T>(a: seq<T>, b: seq<T>, n: nat)
    requires n <= |a|
    ensures (a + b)[..n] == a[..n] && (a + b)[n..] == a[n..] + b
  {
  }

  /** Dropping the head of a join drops it from the first part. */
  lemma DropAppend<T>(a: seq<T>, b: seq<T>)
    requires a != []
    ensures (a + b)[1..] == a[1..] + b
  {
  }

  /** Dropping the last element of a join drops it from the second part. */
  lemma AppendInit<T>(x: seq<T>, y: seq<T>)
    requires y != []
    ensures (x + y)[..|x + y| - 1] == x + y[..|y| - 1]
  {
  }

  /** A suffix is the slice up to `m` followed by the suffix from `m`. */
  lemma SliceSplit<T>(s: seq<T>, i: nat, m: nat)
    requires i <= m <= |s|
    ensures s[i..] == s[i..m] + s[m..]
  {
  }

  /** A non-empty sequence is its head followed by its tail. */
  lemma HeadTail<T>(s: seq<T>)
    requires s != []
    ensures s == [s[0]] + s[1..]
  {
  }

  /** Joining is associative. */
  lemma AppendAssoc<T>(x: seq<T>, y: seq<T>, z: seq<T>)
    ensures x + (y + z) == (x + y) + z
  {
  }

  /** A sequence is its prefix of length `n` followed by the rest. */
  lemma TakeDrop<T>(s: seq<T>, n: nat)
    requires n <= |s|
    ensures s == s[..n] + s[n..]
  {
  }

  /** The tail of a sequence with one element put in front is the sequence. */
  lemma ConsDrop<T>(x: T, s: seq<T>)
    ensures ([x] + s)[0] == x && ([x] + s)[1..] == s
  {
  }

  /** A prefix of a slice is a shorter slice. */
  lemma SliceOfSlice<T>(s: seq<T>, i: nat, k: nat, m: nat)
    requires i + k <= |s| && m <= k
    ensures s[i..i + k][..m] == s[i..i + m]
  {
  }
}
