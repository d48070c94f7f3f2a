/** Finite sums over sequences and maps, and what appending, permuting or updating does to them. */
module Sums {

  function Max0(x: int): nat { if x > 0 then x else 0 }

  /** The sum of `f` over the elements of `s`. */
  function Sum<T>(s: seq<T>, f: T -> int): int {
    if s == [] then 0 else f(s[0]) + Sum(s[1..], f)
  }

  lemma {:induction false} SumAppend<T>(s: seq<T>, t: seq<T>, f: T -> int)
    ensures Sum(s + t, f) == Sum(s, f) + Sum(t, f)
  {
    if s == [] {
      assert s + t == t;
    } else {
      assert (s + t)[1..] == s[1..] + t;
      SumAppend(s[1..], t, f);
    }
  }

  lemma {:induction false} SumSnoc<T>(s: seq<T>, x: T, f: T -> int)
    ensures Sum(s + [x], f) == Sum(s, f) + f(x)
  {
    SumAppend(s, [x], f);
    assert [x][1..] == [];
  }

  lemma {:induction false} SumPrefix<T>(s: seq<T>, n: nat, f: T -> int)
    requires n < |s|
    ensures Sum(s[..n + 1], f) == Sum(s[..n], f) + f(s[n])
  {
    assert s[..n + 1] == s[..n] + [s[n]];
    SumSnoc(s[..n], s[n], f);
  }

  lemma {:induction false} SumNonNegative<T>(s: seq<T>, f: T -> int)
    requires forall x | x in s :: f(x) >= 0
    ensures Sum(s, f) >= 0
  {
    if s != [] {
      assert forall x | x in s[1..] :: x in s;
      SumNonNegative(s[1..], f);
    }
  }

  lemma {:induction false} SumBounded<T>(s: seq<T>, f: T -> int, g: T -> int)
    requires forall x | x in s :: f(x) <= g(x)
    ensures Sum(s, f) <= Sum(s, g)
  {
    if s != [] {
      assert forall x | x in s[1..] :: x in s;
      SumBounded(s[1..], f, g);
    }
  }

  /** Sums of functions that add up pointwise. */
  lemma {:induction false} SumAdd<T>(s: seq<T>, f: T -> int, g: T -> int, h: T -> int)
    requires forall x | x in s :: h(x) == f(x) + g(x)
    ensures Sum(s, h) == Sum(s, f) + Sum(s, g)
  {
    if s != [] {
      assert forall x | x in s[1..] :: x in s;
      SumAdd(s[1..], f, g, h);
    }
  }

  lemma {:induction false} SumSame<T>(s: seq<T>, f: T -> int, g: T -> int)
    requires forall x | x in s :: f(x) == g(x)
    ensures Sum(s, f) == Sum(s, g)
  {
    if s != [] {
      assert forall x | x in s[1..] :: x in s;
      SumSame(s[1..], f, g);
    }
  }

  /** Dropping position `i` takes exactly that element out of the sum. */
  lemma {:induction false} SumRemove<T>(s: seq<T>, i: nat, f: T -> int)
    requires i < |s|
    ensures Sum(s, f) == f(s[i]) + Sum(s[..i] + s[i + 1..], f)
  {
    assert s == s[..i] + ([s[i]] + s[i + 1..]);
    SumAppend(s[..i], [s[i]] + s[i + 1..], f);
    SumAppend([s[i]], s[i + 1..], f);
    SumAppend(s[..i], s[i + 1..], f);
    assert [s[i]][1..] == [];
  }

  /** A sum depends on the elements only, not on their order. */
  lemma {:induction false} SumPermutation<T>(s: seq<T>, t: seq<T>, f: T -> int)
    requires multiset(s) == multiset(t)
    ensures Sum(s, f) == Sum(t, f)
    decreases |s|
  {
    if s == [] {
      assert |multiset(t)| == 0;
    } else {
      var i := TakeOut(s, t);
      SumPermutation(s[1..], t[..i] + t[i + 1..], f);
      SumRemove(t, i, f);
    }
  }

  /** The first element of a sequence occurs in every permutation, and may be taken out of both. */
  lemma {:induction false} TakeOut<T>(s: seq<T>, t: seq<T>) returns (i: nat)
    requires s != [] && multiset(s) == multiset(t)
    ensures i < |t| && t[i] == s[0] && multiset(s[1..]) == multiset(t[..i] + t[i + 1..])
  {
    assert s[0] in multiset(t);
    i :| 0 <= i < |t| && t[i] == s[0];
    assert s == [s[0]] + s[1..];
    assert t == t[..i] + [t[i]] + t[i + 1..];
    assert multiset(s[1..]) == multiset(s) - multiset{s[0]};
  }

  /** The sum of `f` over the values of a map. */
  ghost function Total<K, V>(m: map<K, V>, f: V -> int): int {
    if m == map[] then 0 else
      var k :| k in m;
      f(m[k]) + Total(m - {k}, f)
  }

  /** Any key may be taken out first: the choice inside `Total` does not show. */
  lemma {:induction false} TotalRemove<K, V>(m: map<K, V>, k: K, f: V -> int)
    requires k in m
    ensures Total(m, f) == f(m[k]) + Total(m - {k}, f)
    decreases |m|
  {
    var c :| c in m && Total(m, f) == f(m[c]) + Total(m - {c}, f);
    if c != k {
      TotalRemove(m - {c}, k, f);
      TotalRemove(m - {k}, c, f);
      assert m - {c} - {k} == m - {k} - {c};
    }
  }

  /** The value `f` takes at `k`, an absent key counting as zero. */
  function At<K, V>(m: map<K, V>, k: K, f: V -> int): int {
    if k in m then f(m[k]) else 0
  }

  lemma {:induction false} TotalUpdate<K, V>(m: map<K, V>, k: K, v: V, f: V -> int)
    ensures Total(m[k := v], f) == Total(m, f) - At(m, k, f) + f(v)
  {
    TotalRemove(m[k := v], k, f);
    assert m[k := v] - {k} == m - {k};
    if k in m {
      TotalRemove(m, k, f);
    } else {
      assert m - {k} == m;
    }
  }

  lemma {:induction false} TotalDrop<K, V>(m: map<K, V>, k: K, f: V -> int)
    ensures Total(m - {k}, f) == Total(m, f) - At(m, k, f)
  {
    if k in m {
      TotalRemove(m, k, f);
    } else {
      assert m - {k} == m;
    }
  }

  lemma {:induction false} TotalNonNegative<K, V>(m: map<K, V>, f: V -> int)
    requires forall k | k in m :: f(m[k]) >= 0
    ensures Total(m, f) >= 0
    decreases |m|
  {
    if m != map[] {
      var k :| k in m;
      TotalRemove(m, k, f);
      TotalNonNegative(m - {k}, f);
    }
  }
}
