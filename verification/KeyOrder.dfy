/** The order of `sorted(states.items())`: lexicographic on (system, symbol), text by code point. */
module KeyOrder {
  import opened Ordering
  import opened Sequences
  import opened Positions

  /** Code-point order on text. */
  predicate TextLess(a: string, b: string) {
    b != [] && (a == [] || a[0] < b[0] || (a[0] == b[0] && TextLess(a[1..], b[1..])))
  }

  predicate KeyLess(a: Key, b: Key) {
    TextLess(a.0, b.0) || (a.0 == b.0 && TextLess(a.1, b.1))
  }

  /** `sorted(states.items())`; keys are unique, so values are never compared. */
  function SortKeys(s: seq<Key>): seq<Key> {
    Sort(s, KeyLess)
  }

  /** At position `i` the texts differ for the first time, and there `a` ends or has the smaller code point. */
  predicate LessAt(a: string, b: string, i: nat) {
    i <= |a| && i < |b| && a[..i] == b[..i] && (i == |a| || a[i] as int < b[i] as int)
  }

  lemma {:induction false} TextLessExactly(a: string, b: string)
    ensures TextLess(a, b) <==> exists i: nat :: LessAt(a, b, i)
  {
    if a == [] || b == [] || a[0] != b[0] {
      if b != [] && TextLess(a, b) { assert LessAt(a, b, 0); }
      if i: nat :| LessAt(a, b, i) { assert i > 0 ==> a[..i][0] == b[..i][0]; }
    } else {
      TextLessExactly(a[1..], b[1..]);
      if i: nat :| LessAt(a[1..], b[1..], i) {
        assert a[..i + 1] == [a[0]] + a[1..][..i] && b[..i + 1] == [b[0]] + b[1..][..i];
        assert LessAt(a, b, i + 1);
      }
      if i: nat :| LessAt(a, b, i) {
        assert a[1..][..i - 1] == a[..i][1..] && b[1..][..i - 1] == b[..i][1..];
        assert LessAt(a[1..], b[1..], i - 1);
      }
    }
  }

  /** Systems first, then symbols. */
  lemma KeyLessExactly(a: Key, b: Key)
    ensures KeyLess(a, b) <==>
              || (exists i: nat :: LessAt(a.0, b.0, i))
              || (a.0 == b.0 && exists i: nat :: LessAt(a.1, b.1, i))
  {
    TextLessExactly(a.0, b.0);
    TextLessExactly(a.1, b.1);
    hide LessAt;
  }

  lemma {:induction false} TextTrichotomy(a: string, b: string)
    ensures TextLess(a, b) || a == b || TextLess(b, a)
    ensures !(TextLess(a, b) && TextLess(b, a)) && !TextLess(a, a)
  {
    if a != [] {
      if a[1..] != a { TextTrichotomy(a[1..], a[1..]); }
      if b != [] {
        TextTrichotomy(a[1..], b[1..]);
        if a[0] == b[0] && a[1..] == b[1..] { assert a == [a[0]] + a[1..] == b; }
      }
    }
  }

  lemma {:induction false} TextTransitive(a: string, b: string, c: string)
    requires TextLess(a, b) && TextLess(b, c)
    ensures TextLess(a, c)
  {
    if a != [] && a[0] == b[0] == c[0] { TextTransitive(a[1..], b[1..], c[1..]); }
  }

  /** Keys are totally ordered. */
  lemma KeyTrichotomy(a: Key, b: Key)
    ensures KeyLess(a, b) || a == b || KeyLess(b, a)
    ensures !(KeyLess(a, b) && KeyLess(b, a)) && !KeyLess(a, a)
  {
    TextTrichotomy(a.0, b.0);
    TextTrichotomy(a.1, b.1);
    TextTrichotomy(a.1, a.1);
    TextTrichotomy(a.0, a.0);
  }

  lemma KeyTransitive(a: Key, b: Key, c: Key)
    requires KeyLess(a, b) && KeyLess(b, c)
    ensures KeyLess(a, c)
  {
    if TextLess(a.0, b.0) && TextLess(b.0, c.0) { TextTransitive(a.0, b.0, c.0); }
    if TextLess(a.1, b.1) && TextLess(b.1, c.1) { TextTransitive(a.1, b.1, c.1); }
  }

  lemma TextIsTotal()
    ensures TotallyOrders(TextLess)
  {
    forall a, b ensures (TextLess(a, b) ==> !TextLess(b, a)) && (TextLess(a, b) || a == b || TextLess(b, a)) {
      TextTrichotomy(a, b);
    }
    forall a, b, c | !TextLess(a, b) && !TextLess(b, c) ensures !TextLess(a, c) {
      TextTrichotomy(a, b);
      TextTrichotomy(b, c);
      TextTrichotomy(a, c);
      if TextLess(c, b) && TextLess(b, a) { TextTransitive(c, b, a); }
    }
  }

  lemma KeysAreTotal()
    ensures TotallyOrders(KeyLess)
  {
    hide KeyLess;
    forall a, b ensures (KeyLess(a, b) ==> !KeyLess(b, a)) && (KeyLess(a, b) || a == b || KeyLess(b, a)) {
      KeyTrichotomy(a, b);
    }
    forall a, b, c | !KeyLess(a, b) && !KeyLess(b, c) ensures !KeyLess(a, c) {
      KeyTrichotomy(a, b);
      KeyTrichotomy(b, c);
      KeyTrichotomy(a, c);
      if KeyLess(c, b) && KeyLess(b, a) { KeyTransitive(c, b, a); }
    }
  }

  lemma SortKeysPermutes(s: seq<Key>)
    ensures multiset(SortKeys(s)) == multiset(s)
  {
    hide KeyLess, TotallyOrders, Ordered, Sort;
    KeysAreTotal();
    TotalIsOrder(KeyLess);
    SortSpec(s, KeyLess);
  }

  /** Every key is listed once, in strictly increasing order. */
  lemma SortKeysInOrder(s: seq<Key>)
    requires NoRepeats(s)
    ensures Strict(SortKeys(s), KeyLess) && multiset(SortKeys(s)) == multiset(s)
  {
    hide KeyLess, TotallyOrders, Ordered, Strict, Sort;
    KeysAreTotal();
    TotalIsOrder(KeyLess);
    SortSpec(s, KeyLess);
    SameCounts(s, SortKeys(s));
    StrictWithoutRepeats(SortKeys(s), KeyLess);
  }

  /** Sorting forgets the order in which keys were first seen. */
  lemma SortKeysCanonical(a: seq<Key>, b: seq<Key>)
    requires multiset(a) == multiset(b)
    ensures SortKeys(a) == SortKeys(b)
  {
    hide KeyLess, TotallyOrders, Ordered, Sort;
    KeysAreTotal();
    TotalIsOrder(KeyLess);
    SortSpec(a, KeyLess);
    SortSpec(b, KeyLess);
    OrderIsUnique(SortKeys(a), SortKeys(b), KeyLess);
  }
}
