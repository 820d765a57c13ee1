/** Sums over sequences, and over the entries of a dictionary listed in some order. */
module Sums {
  import opened Sequences

  function Sum<T>(s: seq<T>, f: T -> real): real {
    if s == [] then 0.0 else Sum(Init(s), f) + f(Last(s))
  }

  lemma SumAppend<T>(s: seq<T>, x: T, f: T -> real)
    ensures Sum(s + [x], f) == Sum(s, f) + f(x)
  {
    assert Init(s + [x]) == s;
  }

  lemma {:induction false} SumConcat<T>(a: seq<T>, b: seq<T>, f: T -> real)
    ensures Sum(a + b, f) == Sum(a, f) + Sum(b, f)
  {
    if b == [] {
      assert a + b == a;
    } else {
      assert Init(a + b) == a + Init(b);
      SumConcat(a, Init(b), f);
    }
  }

  /** A sum does not depend on the order of its terms. */
  lemma {:induction false} SumPermutes<T>(a: seq<T>, b: seq<T>, f: T -> real)
    requires multiset(a) == multiset(b)
    ensures Sum(a, f) == Sum(b, f)
  {
    if a == [] {
      assert |multiset(b)| == |b|;
    } else {
      var x := Last(a);
      Without(a, |a| - 1);
      assert x in multiset(b);
      var i :| 0 <= i < |b| && b[i] == x;
      Without(b, i);
      assert a[..|a| - 1] + a[|a|..] == Init(a);
      SumPermutes(Init(a), b[..i] + b[i + 1..], f);
      SumWithout(b, i, f);
    }
  }

  lemma Without<T>(s: seq<T>, i: nat)
    requires i < |s|
    ensures multiset(s[..i] + s[i + 1..]) == multiset(s) - multiset{s[i]}
  {
    assert s == s[..i] + [s[i]] + s[i + 1..];
  }

  lemma SumWithout<T>(s: seq<T>, i: nat, f: T -> real)
    requires i < |s|
    ensures Sum(s, f) == Sum(s[..i] + s[i + 1..], f) + f(s[i])
  {
    hide Sum;
    var a, b := s[..i], s[i + 1..];
    assert s == (a + [s[i]]) + b;
    SumConcat(a, b, f);
    SumConcat(a + [s[i]], b, f);
    SumAppend(a, s[i], f);
  }

  lemma {:induction false} SumsAgree<T>(s: seq<T>, f: T -> real, g: T -> real)
    requires forall x | x in s :: f(x) == g(x)
    ensures Sum(s, f) == Sum(s, g)
  {
    if s != [] {
      assert s == Init(s) + [Last(s)];
      SumsAgree(Init(s), f, g);
    }
  }

  lemma SumSelectStep<T>(s: seq<T>, keep: T -> bool, f: T -> real)
    requires s != []
    ensures Sum(Select(s, keep), f) == Sum(Select(Init(s), keep), f) + if keep(Last(s)) then f(Last(s)) else 0.0
  {
    if keep(Last(s)) {
      SumAppend(Select(Init(s), keep), Last(s), f);
    } else {
      assert Select(s, keep) == Select(Init(s), keep);
    }
  }

  function EntryOf<K, V>(m: map<K, V>, f: (K, V) -> real): K -> real {
    k => if k in m then f(k, m[k]) else 0.0
  }

  /** The sum of `f` over the entries of `m`, its keys taken in the order given. */
  function Total<K, V>(keys: seq<K>, m: map<K, V>, f: (K, V) -> real): real {
    Sum(keys, EntryOf(m, f))
  }

  lemma TotalIgnoresOthers<K, V>(keys: seq<K>, m: map<K, V>, k: K, v: V, f: (K, V) -> real)
    requires k !in keys
    ensures Total(keys, m[k := v], f) == Total(keys, m, f)
  {
    SumsAgree(keys, EntryOf(m[k := v], f), EntryOf(m, f));
  }

  lemma TotalAppend<K, V>(keys: seq<K>, m: map<K, V>, k: K, f: (K, V) -> real)
    requires k in m
    ensures Total(keys + [k], m, f) == Total(keys, m, f) + f(k, m[k])
  {
    SumAppend(keys, k, EntryOf(m, f));
  }

  /** Changing one entry changes the total by the change of that entry. */
  lemma {:induction false} TotalUpdate<K, V>(keys: seq<K>, m: map<K, V>, k: K, v: V, f: (K, V) -> real)
    requires NoRepeats(keys) && k in keys && k in m
    ensures Total(keys, m[k := v], f) == Total(keys, m, f) - f(k, m[k]) + f(k, v)
  {
    LastIsNew(keys);
    if k == Last(keys) {
      TotalIgnoresOthers(Init(keys), m, k, v, f);
    } else {
      TotalUpdate(Init(keys), m, k, v, f);
    }
  }

  /** A total does not depend on the order in which the keys are listed. */
  lemma TotalPermutes<K, V>(a: seq<K>, b: seq<K>, m: map<K, V>, f: (K, V) -> real)
    requires multiset(a) == multiset(b)
    ensures Total(a, m, f) == Total(b, m, f)
  {
    SumPermutes(a, b, EntryOf(m, f));
  }
}
