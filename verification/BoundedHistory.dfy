/**
 Keep-last histories (`_merge_bounded` of app/dashboard/store.py): only the newest item of each
 key is kept, newest last, and only the last `limit` of those.  Cutting at every merge is proved
 to lose nothing that the uncut history would still show.
 */
module BoundedHistory {
  import opened Sequences

  ghost function KeysIn<T, K>(s: seq<T>, key: T -> K): set<K> {
    set x | x in s :: key(x)
  }

  /** The items whose key does not occur again later, in order. */
  ghost function Latest<T, K>(s: seq<T>, key: T -> K): seq<T> {
    if s == [] then []
    else (if key(s[0]) in KeysIn(s[1..], key) then [] else [s[0]]) + Latest(s[1..], key)
  }

  function TakeLast<T>(s: seq<T>, limit: nat): (r: seq<T>)
    ensures |r| <= |s| && r == s[|s| - |r|..]
    ensures |r| == limit || (r == s && |s| < limit)
  {
    if |s| <= limit then s else s[|s| - limit..]
  }

  ghost predicate DistinctKeys<T, K>(s: seq<T>, key: T -> K) {
    forall i, j | 0 <= i < j < |s| :: key(s[i]) != key(s[j])
  }

  ghost function Within<T, K>(key: T -> K, keys: set<K>): T -> bool {
    (x: T) => key(x) in keys
  }

  ghost function Outside<T, K>(key: T -> K, keys: set<K>): T -> bool {
    (x: T) => key(x) !in keys
  }

  lemma {:induction false} LatestIsDistinct<T, K>(s: seq<T>, key: T -> K)
    ensures DistinctKeys(Latest(s, key), key)
    ensures KeysIn(Latest(s, key), key) == KeysIn(s, key)
  {
    if s != [] {
      LatestIsDistinct(s[1..], key);
      assert s == [s[0]] + s[1..];
      var tail := Latest(s[1..], key);
      var head := if key(s[0]) in KeysIn(s[1..], key) then [] else [s[0]];
      KeysOfConcat(head, tail, key);
      KeysOfConcat([s[0]], s[1..], key);
      assert KeysIn([s[0]], key) == {key(s[0])};
      assert forall j | 0 <= j < |tail| :: key(tail[j]) in KeysIn(tail, key);
    }
  }

  lemma {:induction false} LatestOfDistinct<T, K>(s: seq<T>, key: T -> K)
    requires DistinctKeys(s, key)
    ensures Latest(s, key) == s
  {
    if s != [] { LatestOfDistinct(s[1..], key); }
  }

  lemma KeysOfConcat<T, K>(a: seq<T>, b: seq<T>, key: T -> K)
    ensures KeysIn(a + b, key) == KeysIn(a, key) + KeysIn(b, key)
  {
  }

  lemma LatestFirst<T, K>(s: seq<T>, key: T -> K)
    requires s != []
    ensures Latest(s, key)
            == (if key(s[0]) in KeysIn(s[1..], key) then Latest(s[1..], key) else [s[0]] + Latest(s[1..], key))
  {
  }

  lemma SelectConsThen<T>(x: T, rest: seq<T>, more: seq<T>, keep: T -> bool)
    ensures Select([x] + rest, keep) + more
            == if keep(x) then [x] + (Select(rest, keep) + more) else Select(rest, keep) + more
  {
    SelectCons(x, rest, keep);
    hide Select;
    assert [] + Select(rest, keep) == Select(rest, keep);
  }

  lemma FirstOfConcat<T, K>(a: seq<T>, b: seq<T>, key: T -> K)
    requires a != []
    ensures var more := Latest(a[1..] + b, key);
            Latest(a + b, key)
            == if key(a[0]) in KeysIn(a[1..], key) || key(a[0]) in KeysIn(b, key) then more else [a[0]] + more
  {
    assert (a + b)[1..] == a[1..] + b;
    LatestFirst(a + b, key);
    KeysOfConcat(a[1..], b, key);
    hide Latest, KeysIn;
  }

  /** What comes later evicts earlier items of the same keys and moves them to the end. */
  lemma {:induction false} LatestOfConcat<T, K>(a: seq<T>, b: seq<T>, key: T -> K)
    ensures Latest(a + b, key) == Select(Latest(a, key), Outside(key, KeysIn(b, key))) + Latest(b, key)
  {
    if a == [] {
      assert a + b == b;
    } else {
      hide KeysIn, Latest, Select;
      LatestOfConcat(a[1..], b, key);
      FirstOfConcat(a, b, key);
      LatestFirst(a, key);
      SelectConsThen(a[0], Latest(a[1..], key), Latest(b, key), Outside(key, KeysIn(b, key)));
    }
  }

  // ---------------------------------------------------------------- how much a batch can evict

  lemma {:induction false} SelectSplits<T, K>(s: seq<T>, key: T -> K, keys: set<K>)
    ensures |Select(s, Within(key, keys))| + |Select(s, Outside(key, keys))| == |s|
  {
    if s != [] { SelectSplits(Init(s), key, keys); }
  }

  lemma {:induction false} SelectsAgree<T>(s: seq<T>, f: T -> bool, g: T -> bool)
    requires forall x | x in s :: f(x) == g(x)
    ensures Select(s, f) == Select(s, g)
  {
    if s != [] {
      assert s == Init(s) + [Last(s)];
      SelectsAgree(Init(s), f, g);
    }
  }

  lemma {:induction false} HitsAtMost<T, K>(s: seq<T>, key: T -> K, keys: set<K>)
    requires DistinctKeys(s, key)
    ensures |Select(s, Within(key, keys))| <= |keys|
  {
    if s != [] {
      var x := Last(s);
      if key(x) in keys {
        var others := keys - {key(x)};
        HitsAtMost(Init(s), key, others);
        SelectsAgree(Init(s), Within(key, keys), Within(key, others));
      } else {
        HitsAtMost(Init(s), key, keys);
      }
    }
  }

  lemma {:induction false} AsManyKeys<T, K>(s: seq<T>, key: T -> K)
    requires DistinctKeys(s, key)
    ensures |KeysIn(s, key)| == |s|
  {
    if s != [] {
      AsManyKeys(Init(s), key);
      assert s == Init(s) + [Last(s)];
      assert KeysIn(s, key) == KeysIn(Init(s), key) + {key(Last(s))};
      assert key(Last(s)) !in KeysIn(Init(s), key);
    }
  }

  lemma EnoughSurvive<T, K>(recent: seq<T>, b: seq<T>, key: T -> K)
    requires DistinctKeys(recent, key)
    ensures |Select(recent, Outside(key, KeysIn(b, key)))| + |Latest(b, key)| >= |recent|
  {
    LatestIsDistinct(b, key);
    AsManyKeys(Latest(b, key), key);
    HitsAtMost(recent, key, KeysIn(b, key));
    SelectSplits(recent, key, KeysIn(b, key));
  }

  // ---------------------------------------------------------------- cutting early changes nothing

  /** Cutting the history before merging the next batch gives what cutting only afterwards gives. */
  lemma CutEarlyOrLate<T, K>(a: seq<T>, b: seq<T>, key: T -> K, limit: nat)
    ensures TakeLast(Latest(TakeLast(Latest(a, key), limit) + b, key), limit)
            == TakeLast(Latest(a + b, key), limit)
  {
    hide Latest, KeysIn, Outside, Select;
    var all := Latest(a, key);
    var recent, keep := TakeLast(all, limit), Outside(key, KeysIn(b, key));
    LatestIsDistinct(a, key);
    LatestOfDistinct(recent, key);
    LatestOfConcat(recent, b, key);
    LatestOfConcat(a, b, key);
    if |all| > limit {
      var early := all[..|all| - limit];
      assert all == early + recent;
      SelectConcat(early, recent, keep);
      EnoughSurvive(recent, b, key);
      var kept := Select(recent, keep) + Latest(b, key);
      assert Latest(a + b, key) == Select(early, keep) + kept;
    }
  }

  // ---------------------------------------------------------------- the merge itself

  function Values<T, K>(entries: seq<(K, T)>): seq<T> {
    seq(|entries|, i requires 0 <= i < |entries| => entries[i].1)
  }

  function OtherKey<T, K(==)>(k: K): ((K, T)) -> bool {
    (entry: (K, T)) => entry.0 != k
  }

  lemma {:induction false} PopRemoves<T, K>(entries: seq<(K, T)>, k: K, key: T -> K)
    requires forall i | 0 <= i < |entries| :: entries[i].0 == key(entries[i].1)
    ensures var rest := Select(entries, OtherKey(k));
            && Values(rest) == Select(Values(entries), Outside(key, {k}))
            && forall i | 0 <= i < |rest| :: rest[i].0 == key(rest[i].1)
  {
    if entries != [] {
      PopRemoves(Init(entries), k, key);
      assert Init(Values(entries)) == Values(Init(entries));
      assert Last(Values(entries)) == Last(entries).1;
    }
  }

  lemma LatestOfOne<T, K>(s: seq<T>, x: T, key: T -> K)
    ensures Latest(s + [x], key) == Select(Latest(s, key), Outside(key, {key(x)})) + [x]
  {
    LatestOfConcat(s, [x], key);
    assert KeysIn([x], key) == {key(x)};
    assert Latest([x], key) == [x];
  }

  /** `_merge_bounded`: an ordered dictionary, each item popped and reinserted at the end. */
  method MergeBounded<T, K(==)>(previous: seq<T>, current: seq<T>, key: T -> K, limit: nat) returns (r: seq<T>)
    requires limit >= 1
    ensures r == TakeLast(Latest(previous + current, key), limit)
  {
    hide Latest, Select;
    var items := previous + current;
    var ordered: seq<(K, T)> := [];
    NothingLatest(key);
    for i := 0 to |items|
      invariant forall j | 0 <= j < |ordered| :: ordered[j].0 == key(ordered[j].1)
      invariant Values(ordered) == Latest(items[..i], key)
    {
      var itemKey := key(items[i]);
      PopRemoves(ordered, itemKey, key);
      LatestOfOne(items[..i], items[i], key);
      assert items[..i + 1] == items[..i] + [items[i]];
      var popped := Select(ordered, OtherKey(itemKey));
      ordered := popped + [(itemKey, items[i])];
      assert Values(ordered) == Values(popped) + [items[i]];
    }
    assert items[..|items|] == items;
    r := TakeLast(Values(ordered), limit);
  }

  lemma NothingLatest<T, K>(key: T -> K)
    ensures Latest([], key) == []
  {
  }

  /** Whatever is shown has one entry per key, and is never longer than the limit. */
  lemma ShownAreDistinct<T, K>(s: seq<T>, key: T -> K, limit: nat)
    ensures var shown := TakeLast(Latest(s, key), limit);
            |shown| <= limit && DistinctKeys(shown, key) && forall x | x in shown :: x in s
  {
    LatestIsDistinct(s, key);
    LatestSelects(s, key);
  }

  lemma {:induction false} LatestSelects<T, K>(s: seq<T>, key: T -> K)
    ensures forall x | x in Latest(s, key) :: x in s
  {
    if s != [] { LatestSelects(s[1..], key); }
  }

  // ---------------------------------------------------------------- which entries are shown

  /** No later item has the key of item `i`. */
  ghost predicate Newest<T, K>(s: seq<T>, i: nat, key: T -> K)
    requires i < |s|
  {
    forall j | i < j < |s| :: key(s[j]) != key(s[i])
  }

  lemma NewestFirst<T, K>(s: seq<T>, key: T -> K)
    requires s != []
    ensures Newest(s, 0, key) <==> key(s[0]) !in KeysIn(s[1..], key)
    ensures forall i: nat | 0 < i < |s| :: Newest(s, i, key) <==> Newest(s[1..], i - 1, key)
  {
    if Newest(s, 0, key) {
      assert forall x | x in s[1..] :: exists j | 1 <= j < |s| :: s[j] == x;
    } else {
      var j :| 0 < j < |s| && key(s[j]) == key(s[0]);
      assert s[1..][j - 1] == s[j];
    }
    forall i: nat | 0 < i < |s| ensures Newest(s, i, key) <==> Newest(s[1..], i - 1, key) {
      assert forall j | i < j < |s| :: s[1..][j - 1] == s[j];
      assert forall j | i - 1 < j < |s[1..]| :: s[1..][j] == s[j + 1];
    }
  }

  /** The item shown at `p` is a newest one, and as many shown ones follow it as its successors give. */
  lemma {:induction false} ShownFrom<T, K>(s: seq<T>, p: nat, key: T -> K) returns (i: nat)
    requires p < |Latest(s, key)|
    ensures i < |s| && Newest(s, i, key) && s[i] == Latest(s, key)[p]
    ensures |Latest(s[i + 1..], key)| == |Latest(s, key)| - 1 - p
  {
    hide KeysIn, Newest, Latest;
    NothingLatest(key);
    NewestFirst(s, key);
    LatestFirst(s, key);
    if Newest(s, 0, key) && p == 0 {
      i := 0;
    } else {
      var below := ShownFrom(s[1..], if Newest(s, 0, key) then p - 1 else p, key);
      i := below + 1;
      assert s[1..][below + 1..] == s[i + 1..];
    }
  }

  /** A newest item is shown, in that place. */
  lemma {:induction false} ShownAt<T, K>(s: seq<T>, i: nat, key: T -> K) returns (p: nat)
    requires i < |s| && Newest(s, i, key)
    ensures p < |Latest(s, key)| && s[i] == Latest(s, key)[p]
    ensures |Latest(s[i + 1..], key)| == |Latest(s, key)| - 1 - p
  {
    hide KeysIn, Newest, Latest;
    NewestFirst(s, key);
    LatestFirst(s, key);
    if i == 0 {
      p := 0;
    } else {
      var below := ShownAt(s[1..], i - 1, key);
      p := if Newest(s, 0, key) then below + 1 else below;
      assert s[1..][i..] == s[i + 1..];
    }
  }

  /** An item is shown exactly when no later item has its key and fewer than `limit` newer ones are shown. */
  lemma ShownExactly<T, K>(s: seq<T>, key: T -> K, limit: nat, x: T)
    ensures x in TakeLast(Latest(s, key), limit) <==>
              exists i: nat | i < |s| :: s[i] == x && Newest(s, i, key) && |Latest(s[i + 1..], key)| < limit
  {
    hide Latest, Newest, TakeLast;
    var all, shown := Latest(s, key), TakeLast(Latest(s, key), limit);
    if x in shown {
      var k :| 0 <= k < |shown| && shown[k] == x;
      var i := ShownFrom(s, |all| - |shown| + k, key);
    }
    if i: nat :| i < |s| && s[i] == x && Newest(s, i, key) && |Latest(s[i + 1..], key)| < limit {
      var p := ShownAt(s, i, key);
      assert shown[p - (|all| - |shown|)] == x;
    }
  }
}
