/** `sorted` and `list.sort`: one stable insertion sort, by any order or by an integer key. */
module Ordering {
  import opened Sequences

  /** `less` is an order in which ties are allowed. */
  ghost predicate Orders<T(!new)>(less: (T, T) -> bool) {
    && (forall a, b :: less(a, b) ==> !less(b, a))
    && (forall a, b, c :: !less(a, b) && !less(b, c) ==> !less(a, c))
  }

  function Insert<T>(x: T, s: seq<T>, less: (T, T) -> bool): seq<T> {
    if s == [] || !less(s[0], x) then [x] + s else [s[0]] + Insert(x, s[1..], less)
  }

  /** Insertion from the right keeps ties in their original order. */
  function Sort<T>(s: seq<T>, less: (T, T) -> bool): seq<T> {
    if s == [] then [] else Insert(s[0], Sort(s[1..], less), less)
  }

  ghost predicate Ordered<T>(s: seq<T>, less: (T, T) -> bool) {
    forall i, j | 0 <= i < j < |s| :: !less(s[j], s[i])
  }

  lemma {:induction false} InsertPermutes<T>(x: T, s: seq<T>, less: (T, T) -> bool)
    ensures multiset(Insert(x, s, less)) == multiset([x] + s)
  {
    if s != [] && less(s[0], x) {
      InsertPermutes(x, s[1..], less);
      assert s == [s[0]] + s[1..];
    }
  }

  lemma {:induction false} InsertOrders<T(!new)>(x: T, s: seq<T>, less: (T, T) -> bool)
    requires Orders(less) && Ordered(s, less)
    ensures Ordered(Insert(x, s, less), less)
  {
    if s != [] && less(s[0], x) {
      var t := Insert(x, s[1..], less);
      InsertOrders(x, s[1..], less);
      InsertPermutes(x, s[1..], less);
      forall j | 0 <= j < |t| ensures !less(t[j], s[0]) {
        assert t[j] in multiset(t);
        assert t[j] in [x] + s[1..];
      }
    } else if s != [] {
      forall j | 0 <= j < |s| ensures !less(s[j], x) {
        if j > 0 { assert !less(s[j], s[0]); }
      }
    }
  }

  /** The result is in order and a permutation. */
  lemma {:induction false} SortSpec<T(!new)>(s: seq<T>, less: (T, T) -> bool)
    requires Orders(less)
    ensures Ordered(Sort(s, less), less)
    ensures multiset(Sort(s, less)) == multiset(s) && |Sort(s, less)| == |s|
  {
    hide Orders, Ordered;
    if s == [] {
      NothingToOrder(less);
    } else {
      SortSpec(s[1..], less);
      var t := Sort(s[1..], less);
      InsertPermutes(s[0], t, less);
      InsertOrders(s[0], t, less);
      assert s == [s[0]] + s[1..];
      assert |multiset(Sort(s, less))| == |multiset(s)|;
    }
  }

  lemma NothingToOrder<T>(less: (T, T) -> bool)
    ensures Ordered([], less)
  {
  }

  // ---------------------------------------------------------------- orders without ties

  /** `less` is a strict total order. */
  ghost predicate TotallyOrders<T(!new)>(less: (T, T) -> bool) {
    Orders(less) && forall a, b :: less(a, b) || a == b || less(b, a)
  }

  lemma TotalIsOrder<T(!new)>(less: (T, T) -> bool)
    requires TotallyOrders(less)
    ensures Orders(less)
  {
  }

  ghost predicate Strict<T>(s: seq<T>, less: (T, T) -> bool) {
    forall i, j | 0 <= i < j < |s| :: less(s[i], s[j])
  }

  lemma StrictWithoutRepeats<T(!new)>(s: seq<T>, less: (T, T) -> bool)
    requires TotallyOrders(less) && Ordered(s, less) && NoRepeats(s)
    ensures Strict(s, less)
  {
  }

  lemma StrictIsOrdered<T(!new)>(s: seq<T>, less: (T, T) -> bool)
    requires TotallyOrders(less) && Strict(s, less)
    ensures Ordered(s, less) && NoRepeats(s)
  {
  }

  lemma SameFirst<T(!new)>(a: seq<T>, b: seq<T>, less: (T, T) -> bool)
    requires TotallyOrders(less) && Ordered(a, less) && Ordered(b, less)
    requires multiset(a) == multiset(b) && a != [] && b != []
    ensures a[0] == b[0]
  {
    assert a[0] in multiset(b) && b[0] in multiset(a);
    var i :| 0 <= i < |b| && b[i] == a[0];
    var j :| 0 <= j < |a| && a[j] == b[0];
    assert i > 0 ==> !less(b[i], b[0]);
    assert j > 0 ==> !less(a[j], a[0]);
  }

  lemma WithoutFirst<T>(s: seq<T>, less: (T, T) -> bool)
    requires s != []
    ensures s == [s[0]] + s[1..] && multiset(s[1..]) == multiset(s) - multiset{s[0]}
    ensures Ordered(s, less) ==> Ordered(s[1..], less)
  {
    assert s == [s[0]] + s[1..];
  }

  /** Under a total order the same items can be in order in one way only. */
  lemma {:induction false} OrderIsUnique<T(!new)>(a: seq<T>, b: seq<T>, less: (T, T) -> bool)
    requires TotallyOrders(less) && Ordered(a, less) && Ordered(b, less) && multiset(a) == multiset(b)
    ensures a == b
  {
    hide Ordered, TotallyOrders;
    assert |multiset(a)| == |a| && |multiset(b)| == |b|;
    if a != [] {
      SameFirst(a, b, less);
      WithoutFirst(a, less);
      WithoutFirst(b, less);
      OrderIsUnique(a[1..], b[1..], less);
    }
  }

  // ---------------------------------------------------------------- stability

  lemma InsertFirst<T>(x: T, t: seq<T>, less: (T, T) -> bool)
    requires t == [] || !less(t[0], x)
    ensures Insert(x, t, less) == [x] + t
  {
  }

  lemma InsertLater<T>(x: T, y: T, t: seq<T>, less: (T, T) -> bool)
    requires less(y, x)
    ensures Insert(x, [y] + t, less) == [y] + Insert(x, t, less)
  {
    assert ([y] + t)[1..] == t;
  }

  lemma FirstSelected<T(!new)>(x: T, t: seq<T>, less: (T, T) -> bool, keep: T -> bool)
    requires Orders(less) && Ordered(t, less) && Select(t, keep) != [] && t != [] && !less(t[0], x)
    ensures !less(Select(t, keep)[0], x)
  {
    var y := Select(t, keep)[0];
    SelectKeeps(t, keep, y);
    var i :| 0 <= i < |t| && t[i] == y;
    if i > 0 { assert !less(t[i], t[0]); }
  }

  lemma {:induction false} InsertSelect<T(!new)>(x: T, t: seq<T>, less: (T, T) -> bool, keep: T -> bool)
    requires Orders(less) && Ordered(t, less)
    ensures Select(Insert(x, t, less), keep)
            == if keep(x) then Insert(x, Select(t, keep), less) else Select(t, keep)
  {
    hide Insert, Select, Orders, Ordered;
    var chosen := Select(t, keep);
    if t == [] || !less(t[0], x) {
      InsertFirst(x, t, less);
      SelectCons(x, t, keep);
      if t == [] { NothingSelected(keep); } else if chosen != [] { FirstSelected(x, t, less, keep); }
      InsertFirst(x, chosen, less);
      assert [] + chosen == chosen;
    } else {
      var y, u := t[0], t[1..];
      assert t == [y] + u;
      WithoutFirst(t, less);
      InsertSelect(x, u, less, keep);
      InsertLater(x, y, u, less);
      SelectCons(y, Insert(x, u, less), keep);
      SelectCons(y, u, keep);
      InsertLater(x, y, Select(u, keep), less);
      assert [] + Select(u, keep) == Select(u, keep);
      assert [] + Select(Insert(x, u, less), keep) == Select(Insert(x, u, less), keep);
    }
  }

  lemma NothingSelected<T>(keep: T -> bool)
    ensures Select([], keep) == []
  {
  }

  lemma SortCons<T>(x: T, s: seq<T>, less: (T, T) -> bool)
    ensures Sort([x] + s, less) == Insert(x, Sort(s, less), less)
  {
    assert ([x] + s)[1..] == s;
  }

  lemma SortNothing<T>(keep: T -> bool, less: (T, T) -> bool)
    ensures Select(Sort([], less), keep) == Sort(Select([], keep), less)
  {
  }

  /** Selecting after a stable sort is sorting the selection: ties keep their original order. */
  lemma {:induction false} SortSelect<T(!new)>(s: seq<T>, less: (T, T) -> bool, keep: T -> bool)
    requires Orders(less)
    ensures Select(Sort(s, less), keep) == Sort(Select(s, keep), less)
  {
    hide Sort, Insert, Select, Orders, Ordered;
    if s == [] {
      SortNothing(keep, less);
    } else {
      SortSelect(s[1..], less, keep);
      SortSpec(s[1..], less);
      InsertSelect(s[0], Sort(s[1..], less), less, keep);
      SelectCons(s[0], s[1..], keep);
      assert [s[0]] + s[1..] == s;
      SortCons(s[0], s[1..], less);
      SortCons(s[0], Select(s[1..], keep), less);
      assert [] + Select(s[1..], keep) == Select(s[1..], keep);
    }
  }

  /** What is in order is left as it is. */
  lemma {:induction false} SortOfOrdered<T>(s: seq<T>, less: (T, T) -> bool)
    requires Ordered(s, less)
    ensures Sort(s, less) == s
  {
    if s != [] {
      SortOfOrdered(s[1..], less);
      assert s == [s[0]] + s[1..];
    }
  }

  // ---------------------------------------------------------------- integer keys

  function ByKey<T>(key: T -> int): (T, T) -> bool {
    (a: T, b: T) => key(a) < key(b)
  }

  function SortBy<T>(s: seq<T>, key: T -> int): seq<T> {
    Sort(s, ByKey(key))
  }

  ghost predicate Ascending<T>(s: seq<T>, key: T -> int) {
    forall i, j | 0 <= i < j < |s| :: key(s[i]) <= key(s[j])
  }

  lemma ByKeyOrders<T(!new)>(key: T -> int)
    ensures Orders(ByKey(key))
  {
  }

  lemma AscendingIsOrdered<T>(s: seq<T>, key: T -> int)
    ensures Ascending(s, key) <==> Ordered(s, ByKey(key))
  {
    if Ordered(s, ByKey(key)) {
      forall i, j | 0 <= i < j < |s| ensures key(s[i]) <= key(s[j]) {
        assert !ByKey(key)(s[j], s[i]);
      }
    }
  }

  /** The result is ascending and a permutation. */
  lemma SortBySpec<T(!new)>(s: seq<T>, key: T -> int)
    ensures Ascending(SortBy(s, key), key)
    ensures multiset(SortBy(s, key)) == multiset(s)
    ensures |SortBy(s, key)| == |s|
  {
    ByKeyOrders(key);
    SortSpec(s, ByKey(key));
    AscendingIsOrdered(SortBy(s, key), key);
  }

  /** Items of equal keys keep their order, so any selection is sorted along. */
  lemma SortBySelect<T(!new)>(s: seq<T>, key: T -> int, keep: T -> bool)
    ensures Select(SortBy(s, key), keep) == SortBy(Select(s, keep), key)
  {
    ByKeyOrders(key);
    SortSelect(s, ByKey(key), keep);
  }

  lemma SortOfAscending<T>(s: seq<T>, key: T -> int)
    requires Ascending(s, key)
    ensures SortBy(s, key) == s
  {
    AscendingIsOrdered(s, key);
    SortOfOrdered(s, ByKey(key));
  }

  function WithKey<T>(key: T -> int, k: int): T -> bool {
    (x: T) => key(x) == k
  }

  /** Items of one key keep the order in which they were given. */
  lemma SortByIsStable<T(!new)>(s: seq<T>, key: T -> int, k: int)
    ensures Select(SortBy(s, key), WithKey(key, k)) == Select(s, WithKey(key, k))
  {
    hide Select, Sort;
    var chosen := Select(s, WithKey(key, k));
    SortBySelect(s, key, WithKey(key, k));
    forall x | x in chosen ensures key(x) == k {
      SelectKeeps(s, WithKey(key, k), x);
    }
    SortOfAscending(chosen, key);
  }

  lemma SameFirstOfKey<T(!new)>(a: seq<T>, b: seq<T>, key: T -> int)
    requires a != [] && b != [] && key(a[0]) == key(b[0])
    requires Select(a, WithKey(key, key(a[0]))) == Select(b, WithKey(key, key(a[0])))
    ensures a[0] == b[0]
  {
    hide Select;
    assert a == [a[0]] + a[1..] && b == [b[0]] + b[1..];
    SelectCons(a[0], a[1..], WithKey(key, key(a[0])));
    SelectCons(b[0], b[1..], WithKey(key, key(a[0])));
    assert a[0] == Select(a, WithKey(key, key(a[0])))[0] && b[0] == Select(b, WithKey(key, key(a[0])))[0];
  }

  lemma SameTailOfKey<T(!new)>(a: seq<T>, b: seq<T>, keep: T -> bool)
    requires a != [] && b != [] && a[0] == b[0] && Select(a, keep) == Select(b, keep)
    ensures Select(a[1..], keep) == Select(b[1..], keep)
  {
    hide Select;
    assert a == [a[0]] + a[1..] && b == [b[0]] + b[1..];
    SelectCons(a[0], a[1..], keep);
    SelectCons(b[0], b[1..], keep);
    SameTail(if keep(a[0]) then [a[0]] else [], Select(a[1..], keep), Select(b[1..], keep));
  }

  lemma TailsOf<T(!new)>(a: seq<T>, b: seq<T>, key: T -> int)
    requires Ascending(a, key) && Ascending(b, key) && multiset(a) == multiset(b)
    requires a != [] && b != [] && a[0] == b[0]
    ensures Ascending(a[1..], key) && Ascending(b[1..], key) && multiset(a[1..]) == multiset(b[1..])
    ensures a == [a[0]] + a[1..] && b == [b[0]] + b[1..]
  {
    TailOf(a, key);
    TailOf(b, key);
    hide Ascending;
  }

  lemma TailOf<T(!new)>(s: seq<T>, key: T -> int)
    requires s != [] && Ascending(s, key)
    ensures s == [s[0]] + s[1..] && multiset(s[1..]) == multiset(s) - multiset{s[0]} && Ascending(s[1..], key)
  {
    assert s == [s[0]] + s[1..];
  }

  /** Ascending order with ties in a given order can be reached in one way only. */
  lemma {:induction false} StableOrderIsUnique<T(!new)>(a: seq<T>, b: seq<T>, key: T -> int)
    requires Ascending(a, key) && Ascending(b, key) && |a| == |b| && multiset(a) == multiset(b)
    requires forall k :: Select(a, WithKey(key, k)) == Select(b, WithKey(key, k))
    ensures a == b
  {
    hide Select;
    if a != [] {
      SameSmallest(a, b, key);
      SameFirstOfKey(a, b, key);
      forall k ensures Select(a[1..], WithKey(key, k)) == Select(b[1..], WithKey(key, k)) {
        SameTailOfKey(a, b, WithKey(key, k));
      }
      TailsOf(a, b, key);
      hide Ascending;
      StableOrderIsUnique(a[1..], b[1..], key);
    }
  }

  lemma SameTail<T>(head: seq<T>, a: seq<T>, b: seq<T>)
    requires head + a == head + b
    ensures a == b
  {
    assert a == (head + a)[|head|..] && b == (head + b)[|head|..];
  }

  lemma SameSmallest<T(!new)>(a: seq<T>, b: seq<T>, key: T -> int)
    requires Ascending(a, key) && Ascending(b, key) && a != [] && b != [] && multiset(a) == multiset(b)
    ensures key(a[0]) == key(b[0])
  {
    assert a[0] in multiset(b) && b[0] in multiset(a);
    var i :| 0 <= i < |b| && b[i] == a[0];
    var j :| 0 <= j < |a| && a[j] == b[0];
  }

  function Itself(k: int): int { k }
}
