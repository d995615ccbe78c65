/** Facts about sequence concatenation that the proofs about splitting,
    joining and mapping use as single steps. */
module Seqs {

  lemma AppendAssoc<T>(a: seq<T>, b: seq<T>, c: seq<T>)
    ensures a + (b + c) == a + b + c
  {
  }

  /** The first element and the rest of a concatenation whose left part is
      not empty. */
  lemma AppendHeadTail<T>(a: seq<T>, b: seq<T>)
    requires |a| >= 1
    ensures (a + b)[0] == a[0] && (a + b)[1..] == a[1..] + b
  {
  }

  /** A non-empty sequence is its first element followed by the rest. */
  lemma ConsHeadTail<T>(a: seq<T>)
    requires |a| >= 1
    ensures a == [a[0]] + a[1..]
  {
  }
}
