/** Sequence vocabulary shared by the whole project. */
module Sequences {
  function Last<T>(s: seq<T>): T
    requires s != []
  {
    s[|s| - 1]
  }

  function Init<T>(s: seq<T>): seq<T>
    requires s != []
  {
    s[..|s| - 1]
  }

  predicate NoRepeats<T(==)>(s: seq<T>) {
    forall i, j | 0 <= i < j < |s| :: s[i] != s[j]
  }

  lemma LastIsNew<T>(s: seq<T>)
    requires NoRepeats(s) && s != []
    ensures NoRepeats(Init(s)) && Last(s) !in Init(s)
    ensures s == Init(s) + [Last(s)]
  {
  }

  lemma {:induction false} CountOnce<T>(s: seq<T>, x: T)
    requires NoRepeats(s)
    ensures multiset(s)[x] == if x in s then 1 else 0
  {
    if s != [] {
      LastIsNew(s);
      CountOnce(Init(s), x);
      assert multiset(s) == multiset(Init(s)) + multiset{Last(s)};
    }
  }

  /** Two repetition-free listings of the same items are permutations of each other. */
  lemma SameItemsPermute<T>(a: seq<T>, b: seq<T>)
    requires NoRepeats(a) && NoRepeats(b) && (forall x :: x in a <==> x in b)
    ensures multiset(a) == multiset(b)
  {
    forall x ensures multiset(a)[x] == multiset(b)[x] {
      CountOnce(a, x);
      CountOnce(b, x);
    }
  }

  /** A permutation of a repetition-free listing is free of repetitions. */
  lemma SameCounts<T>(a: seq<T>, b: seq<T>)
    requires NoRepeats(a) && multiset(a) == multiset(b)
    ensures NoRepeats(b)
  {
    forall i, j | 0 <= i < j < |b| ensures b[i] != b[j] {
      CountOnce(a, b[i]);
      assert b == b[..j] + [b[j]] + b[j + 1..];
      assert b[i] in b[..j];
    }
  }

  /** The items that satisfy `keep`, in order. */
  function Select<T>(s: seq<T>, keep: T -> bool): seq<T> {
    if s == [] then [] else Select(Init(s), keep) + if keep(Last(s)) then [Last(s)] else []
  }

  lemma {:induction false} SelectConcat<T>(a: seq<T>, b: seq<T>, keep: T -> bool)
    ensures Select(a + b, keep) == Select(a, keep) + Select(b, keep)
  {
    if b == [] {
      assert a + b == a;
    } else {
      assert Init(a + b) == a + Init(b);
      SelectConcat(a, Init(b), keep);
    }
  }

  lemma SelectCons<T>(x: T, s: seq<T>, keep: T -> bool)
    ensures Select([x] + s, keep) == (if keep(x) then [x] else []) + Select(s, keep)
  {
    SelectConcat([x], s, keep);
    assert Init([x]) == [];
  }

  lemma {:induction false} SelectKeeps<T>(s: seq<T>, keep: T -> bool, x: T)
    ensures x in Select(s, keep) <==> x in s && keep(x)
  {
    if s != [] {
      SelectKeeps(Init(s), keep, x);
      assert s == Init(s) + [Last(s)];
    }
  }

  lemma {:induction false} SelectCount<T>(s: seq<T>, keep: T -> bool, x: T)
    requires keep(x)
    ensures multiset(Select(s, keep))[x] == multiset(s)[x]
  {
    if s != [] {
      SelectCount(Init(s), keep, x);
      assert s == Init(s) + [Last(s)];
    }
  }

  /** Two tests that agree select the same items. */
  lemma {:induction false} SelectAgrees<T>(s: seq<T>, p: T -> bool, q: T -> bool)
    requires forall x | x in s :: p(x) == q(x)
    ensures Select(s, p) == Select(s, q)
  {
    if s != [] {
      assert s == Init(s) + [Last(s)];
      SelectAgrees(Init(s), p, q);
    }
  }
}
