/**
 * Facts about sequence concatenation and slicing, stated once for any element
 * type so that they are proved away from the string-heavy modules.
 */
module Seqs {
  lemma AppendAssoc<T>(a: seq<T>, b: seq<T>, c: seq<T>)
    ensures a + (b + c) == (a + b) + c
  {
  }

  lemma SliceSplit<T>(s: seq<T>, a: nat, b: nat)
    requires a <= b <= |s|
    ensures s[a..] == s[a..b] + s[b..]
  {
  }

  /** Position `k` of `a + b + c`, when it falls inside `b`. */
  lemma Middle<T>(a: seq<T>, b: seq<T>, c: seq<T>, k: nat)
    requires |a| <= k < |a| + |b|
    ensures k < |a + b + c| && (a + b + c)[k] == b[k - |a|]
  {
  }

  lemma Framed<T>(head: seq<T>, items: seq<T>, tail: seq<T>)
    ensures forall i :: 0 <= i < |items| ==> (head + items + tail)[|head| + i] == items[i]
  {
  }
}
