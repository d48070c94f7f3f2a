/** Multisets collected over sequences. */
module Bags {
  import opened Sums

  /** Everything that `f` finds in the elements of `s`. */
  function Bag<T, K(==)>(s: seq<T>, f: T -> multiset<K>): multiset<K> {
    if s == [] then multiset{} else Bag(s[..|s| - 1], f) + f(s[|s| - 1])
  }

  /** A key occurs in a bag as often as it is counted. */
  lemma {:induction false} BagCounts<T, K>(s: seq<T>, f: T -> multiset<K>, k: K, count: T -> int)
    requires forall x | x in s :: f(x)[k] == count(x)
    ensures Bag(s, f)[k] == Sum(s, count)
  {
    if s != [] {
      var n := |s| - 1;
      assert s == s[..n] + [s[n]] && forall x | x in s[..n] :: x in s;
      BagCounts(s[..n], f, k, count);
      SumSnoc(s[..n], s[n], count);
    }
  }
}
