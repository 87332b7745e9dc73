/** Orders on sort keys and the stable sort that SortedList.sort relies on
    (Python's list.sort: stable, and stable also when `reverse` is set). */
module Ordering {

  ghost predicate Transitive<K(!new)>(lt: (K, K) -> bool) {
    forall x, y, z :: lt(x, y) && lt(y, z) ==> lt(x, z)
  }

  ghost predicate Irreflexive<K(!new)>(lt: (K, K) -> bool) {
    forall x :: !lt(x, x)
  }

  ghost predicate Trichotomous<K(!new)>(lt: (K, K) -> bool) {
    forall x, y :: x == y || lt(x, y) || lt(y, x)
  }

  ghost predicate StrictTotalOrder<K(!new)>(lt: (K, K) -> bool) {
    Transitive(lt) && Irreflexive(lt) && Trichotomous(lt)
  }

  /** Python's comparison of two tuples (or lists, or strings): the first
      differing position decides, and a proper prefix is smaller. */
  function LexLess<A(==)>(lt: (A, A) -> bool, a: seq<A>, b: seq<A>): bool
    decreases |a|
  {
    if a == [] then b != []
    else if b == [] then false
    else lt(a[0], b[0]) || (a[0] == b[0] && LexLess(lt, a[1..], b[1..]))
  }

  lemma {:induction false} LexTransitive<A(!new)>(lt: (A, A) -> bool, a: seq<A>, b: seq<A>, c: seq<A>)
    requires Transitive(lt)
    requires LexLess(lt, a, b) && LexLess(lt, b, c)
    ensures LexLess(lt, a, c)
    decreases |a|
  {
    if a != [] && a[0] == b[0] && b[0] == c[0] && !lt(a[0], c[0]) {
      LexTransitive(lt, a[1..], b[1..], c[1..]);
    }
  }

  lemma {:induction false} LexIrreflexive<A(!new)>(lt: (A, A) -> bool, a: seq<A>)
    requires Irreflexive(lt)
    ensures !LexLess(lt, a, a)
    decreases |a|
  {
    if a != [] {
      LexIrreflexive(lt, a[1..]);
    }
  }

  lemma {:induction false} LexTrichotomous<A(!new)>(lt: (A, A) -> bool, a: seq<A>, b: seq<A>)
    requires Trichotomous(lt)
    ensures a == b || LexLess(lt, a, b) || LexLess(lt, b, a)
    decreases |a|
  {
    if a != [] && b != [] && a[0] == b[0] {
      LexTrichotomous(lt, a[1..], b[1..]);
      if a[1..] == b[1..] {
        assert a == [a[0]] + a[1..] && b == [b[0]] + b[1..];
      }
    }
  }

  lemma LexStrictTotalOrder<A(!new)>(lt: (A, A) -> bool, lex: (seq<A>, seq<A>) -> bool)
    requires StrictTotalOrder(lt)
    requires forall a, b :: lex(a, b) == LexLess(lt, a, b)
    ensures StrictTotalOrder(lex)
  {
    forall a, b, c | lex(a, b) && lex(b, c) ensures lex(a, c) {
      LexTransitive(lt, a, b, c);
    }
    forall a ensures !lex(a, a) {
      LexIrreflexive(lt, a);
    }
    forall a, b ensures a == b || lex(a, b) || lex(b, a) {
      LexTrichotomous(lt, a, b);
    }
  }

  function CharLess(a: char, b: char): bool { a < b }

  /** Python's comparison of two strings, by code point. */
  function StrLess(a: string, b: string): bool { LexLess(CharLess, a, b) }

  /** Comparison of two tuples of strings. */
  function TupleLess(a: seq<string>, b: seq<string>): bool { LexLess(StrLess, a, b) }

  /** Comparison of two lists of tuples of strings (a namespace sort key). */
  function SliceLess(a: seq<seq<string>>, b: seq<seq<string>>): bool { LexLess(TupleLess, a, b) }

  lemma StrLessOrder()
    ensures StrictTotalOrder(StrLess)
  {
    LexStrictTotalOrder(CharLess, StrLess);
  }

  lemma SliceLessOrder()
    ensures StrictTotalOrder(TupleLess)
    ensures StrictTotalOrder(SliceLess)
  {
    StrLessOrder();
    LexStrictTotalOrder(StrLess, TupleLess);
    LexStrictTotalOrder(TupleLess, SliceLess);
  }

  /** The values a media sort key takes: a number (an int, a timestamp, a
      rating, or -1 for a missing value) or a list of tuples of sortable
      subtags. Python 2 orders every number below every list. */
  datatype SortKey = Num(value: real) | Slices(slices: seq<seq<string>>)

  function KeyLess(a: SortKey, b: SortKey): bool
  {
    match (a, b)
    case (Num(x), Num(y)) => x < y
    case (Num(_), Slices(_)) => true
    case (Slices(_), Num(_)) => false
    case (Slices(x), Slices(y)) => SliceLess(x, y)
  }

  lemma KeyLessOrder()
    ensures StrictTotalOrder(KeyLess)
  {
    SliceLessOrder();
    forall a, b, c | KeyLess(a, b) && KeyLess(b, c) ensures KeyLess(a, c) {
      if a.Slices? {
        assert SliceLess(a.slices, b.slices) && SliceLess(b.slices, c.slices);
      }
    }
    forall a ensures !KeyLess(a, a) {
      if a.Slices? { assert !SliceLess(a.slices, a.slices); }
    }
    forall a, b ensures a == b || KeyLess(a, b) || KeyLess(b, a) {
      if a.Slices? && b.Slices? {
        assert a.slices == b.slices || SliceLess(a.slices, b.slices) || SliceLess(b.slices, a.slices);
      }
    }
  }

  // ---------------------------------------------------------------------
  // Stable sort

  /** x must come before y: its key is smaller, or larger when reversed. */
  function Before<T, K>(lt: (K, K) -> bool, key: T -> K, reverse: bool, x: T, y: T): bool
  {
    if reverse then lt(key(y), key(x)) else lt(key(x), key(y))
  }

  ghost predicate SortedBy<T, K>(lt: (K, K) -> bool, key: T -> K, reverse: bool, s: seq<T>)
  {
    forall i, j :: 0 <= i < j < |s| ==> !Before(lt, key, reverse, s[j], s[i])
  }

  /** x inserted after every element it need not precede. */
  function Insert<T, K>(lt: (K, K) -> bool, key: T -> K, reverse: bool, x: T, s: seq<T>): (r: seq<T>)
    ensures multiset(r) == multiset(s) + multiset{x}
    ensures |r| == |s| + 1
  {
    if s == [] then [x]
    else if Before(lt, key, reverse, x, s[0]) then [x] + s
    else
      assert s == [s[0]] + s[1..];
      [s[0]] + Insert(lt, key, reverse, x, s[1..])
  }

  /** Insertion sort from the left: the stable sort the model uses for Python's list.sort. */
  function StableSort<T, K>(lt: (K, K) -> bool, key: T -> K, reverse: bool, s: seq<T>): (r: seq<T>)
    ensures multiset(r) == multiset(s)
    ensures |r| == |s|
  {
    if s == [] then []
    else
      assert s == s[..|s| - 1] + [s[|s| - 1]];
      Insert(lt, key, reverse, s[|s| - 1], StableSort(lt, key, reverse, s[..|s| - 1]))
  }

  /** The elements of s whose key is k, in their order in s. */
  function WithKey<T, K(==)>(key: T -> K, k: K, s: seq<T>): seq<T>
  {
    if s == [] then []
    else WithKey(key, k, s[..|s| - 1]) + (if key(s[|s| - 1]) == k then [s[|s| - 1]] else [])
  }

  lemma {:induction false} WithKeyConcat<T, K>(key: T -> K, k: K, a: seq<T>, b: seq<T>)
    ensures WithKey(key, k, a + b) == WithKey(key, k, a) + WithKey(key, k, b)
    decreases |b|
  {
    if b == [] {
      assert a + b == a;
    } else {
      assert (a + b)[..|a + b| - 1] == a + b[..|b| - 1];
      WithKeyConcat(key, k, a, b[..|b| - 1]);
    }
  }

  lemma {:induction false} WithKeyNone<T, K>(key: T -> K, k: K, s: seq<T>)
    requires forall i :: 0 <= i < |s| ==> key(s[i]) != k
    ensures WithKey(key, k, s) == []
    decreases |s|
  {
    if s != [] {
      WithKeyNone(key, k, s[..|s| - 1]);
    }
  }

  lemma {:induction false} WithKeyElements<T, K>(key: T -> K, k: K, s: seq<T>)
    ensures forall x :: x in WithKey(key, k, s) ==> x in s && key(x) == k
    decreases |s|
  {
    if s != [] {
      WithKeyElements(key, k, s[..|s| - 1]);
    }
  }

  lemma {:induction false} InsertSorted<T, K(!new)>(lt: (K, K) -> bool, key: T -> K, reverse: bool, x: T, s: seq<T>)
    requires StrictTotalOrder(lt)
    requires SortedBy(lt, key, reverse, s)
    ensures SortedBy(lt, key, reverse, Insert(lt, key, reverse, x, s))
    decreases |s|
  {
    if s == [] {
    } else if Before(lt, key, reverse, x, s[0]) {
      InsertFrontSorted(lt, key, reverse, x, s);
    } else {
      SortedTail(lt, key, reverse, s);
      InsertSorted(lt, key, reverse, x, s[1..]);
      InsertAfterSorted(lt, key, reverse, x, s);
    }
  }

  lemma InsertFrontSorted<T, K(!new)>(lt: (K, K) -> bool, key: T -> K, reverse: bool, x: T, s: seq<T>)
    requires Transitive(lt) && Irreflexive(lt)
    requires SortedBy(lt, key, reverse, s)
    requires s != [] && Before(lt, key, reverse, x, s[0])
    ensures SortedBy(lt, key, reverse, [x] + s)
  {
    var r := [x] + s;
    forall j | 0 < j < |r| ensures !Before(lt, key, reverse, r[j], r[0]) {
      assert r[j] == s[j - 1];
      if j > 1 { assert !Before(lt, key, reverse, s[j - 1], s[0]); }
    }
  }

  lemma InsertAfterSorted<T, K>(lt: (K, K) -> bool, key: T -> K, reverse: bool, x: T, s: seq<T>)
    requires SortedBy(lt, key, reverse, s)
    requires s != [] && !Before(lt, key, reverse, x, s[0])
    requires SortedBy(lt, key, reverse, Insert(lt, key, reverse, x, s[1..]))
    ensures SortedBy(lt, key, reverse, Insert(lt, key, reverse, x, s))
  {
    var t := Insert(lt, key, reverse, x, s[1..]);
    var r := [s[0]] + t;
    assert Insert(lt, key, reverse, x, s) == r;
    forall j | 0 < j < |r| ensures !Before(lt, key, reverse, r[j], r[0]) {
      assert r[j] == t[j - 1];
      assert r[j] in multiset(s[1..]) + multiset{x} by {
        assert t[j - 1] in multiset(t);
      }
      if r[j] != x {
        assert r[j] in s[1..];
        var m :| 0 <= m < |s[1..]| && s[1..][m] == r[j];
        assert s[m + 1] == r[j];
      }
    }
  }

  lemma {:induction false} StableSortSorted<T, K(!new)>(lt: (K, K) -> bool, key: T -> K, reverse: bool, s: seq<T>)
    requires StrictTotalOrder(lt)
    ensures SortedBy(lt, key, reverse, StableSort(lt, key, reverse, s))
    decreases |s|
  {
    if s != [] {
      StableSortSorted(lt, key, reverse, s[..|s| - 1]);
      InsertSorted(lt, key, reverse, s[|s| - 1], StableSort(lt, key, reverse, s[..|s| - 1]));
    }
  }

  lemma InsertFrontWithKey<T, K(!new)>(lt: (K, K) -> bool, key: T -> K, reverse: bool, x: T, s: seq<T>, k: K)
    requires Irreflexive(lt)
    requires SortedBy(lt, key, reverse, s)
    requires s != [] && Before(lt, key, reverse, x, s[0])
    ensures WithKey(key, k, [x] + s) == WithKey(key, k, s) + (if key(x) == k then [x] else [])
  {
    WithKeyConcat(key, k, [x], s);
    assert WithKey(key, k, [x]) == WithKey(key, k, [x][..0]) + (if key(x) == k then [x] else []);
    if key(x) == k {
      forall i | 0 <= i < |s| ensures key(s[i]) != k {
        if i > 0 { assert !Before(lt, key, reverse, s[i], s[0]); }
      }
      WithKeyNone(key, k, s);
    }
  }

  lemma {:induction false} InsertWithKey<T, K(!new)>(lt: (K, K) -> bool, key: T -> K, reverse: bool, x: T, s: seq<T>, k: K)
    requires Irreflexive(lt)
    requires SortedBy(lt, key, reverse, s)
    ensures WithKey(key, k, Insert(lt, key, reverse, x, s))
         == WithKey(key, k, s) + (if key(x) == k then [x] else [])
    decreases |s|
  {
    if s == [] {
      assert WithKey(key, k, [x]) == WithKey(key, k, [x][..0]) + (if key(x) == k then [x] else []);
    } else if Before(lt, key, reverse, x, s[0]) {
      InsertFrontWithKey(lt, key, reverse, x, s, k);
    } else {
      SortedTail(lt, key, reverse, s);
      InsertWithKey(lt, key, reverse, x, s[1..], k);
      InsertAfterWithKey(lt, key, reverse, x, s, k);
    }
  }

  lemma InsertAfterWithKey<T, K>(lt: (K, K) -> bool, key: T -> K, reverse: bool, x: T, s: seq<T>, k: K)
    requires s != [] && !Before(lt, key, reverse, x, s[0])
    requires WithKey(key, k, Insert(lt, key, reverse, x, s[1..]))
          == WithKey(key, k, s[1..]) + (if key(x) == k then [x] else [])
    ensures WithKey(key, k, Insert(lt, key, reverse, x, s))
         == WithKey(key, k, s) + (if key(x) == k then [x] else [])
  {
    var head, rest := [s[0]], s[1..];
    var t := Insert(lt, key, reverse, x, rest);
    var tail := if key(x) == k then [x] else [];
    assert Insert(lt, key, reverse, x, s) == head + t;
    WithKeyConcat(key, k, head, t);
    WithKeyConcat(key, k, head, rest);
    ConsTail(s);
    AppendAssoc(WithKey(key, k, head), WithKey(key, k, rest), tail);
  }

  lemma ConsTail<T>(s: seq<T>)
    requires s != []
    ensures [s[0]] + s[1..] == s
  {
  }

  lemma AppendAssoc<T>(a: seq<T>, b: seq<T>, c: seq<T>)
    ensures a + (b + c) == (a + b) + c
  {
  }

  /** Stability: sorting keeps, for every key, the relative order of the
      elements that share it. */
  lemma {:induction false} StableSortWithKey<T, K(!new)>(lt: (K, K) -> bool, key: T -> K, reverse: bool, s: seq<T>, k: K)
    requires StrictTotalOrder(lt)
    ensures WithKey(key, k, StableSort(lt, key, reverse, s)) == WithKey(key, k, s)
    decreases |s|
  {
    if s != [] {
      var p := s[..|s| - 1];
      StableSortWithKey(lt, key, reverse, p, k);
      StableSortSorted(lt, key, reverse, p);
      InsertWithKey(lt, key, reverse, s[|s| - 1], StableSort(lt, key, reverse, p), k);
    }
  }

  lemma {:induction false} AppendSorted<T, K>(lt: (K, K) -> bool, key: T -> K, reverse: bool, a: seq<T>, x: T)
    requires SortedBy(lt, key, reverse, a)
    requires forall e :: e in a ==> !Before(lt, key, reverse, x, e)
    ensures SortedBy(lt, key, reverse, a + [x])
  {
    var r := a + [x];
    forall i, j | 0 <= i < j < |r| ensures !Before(lt, key, reverse, r[j], r[i]) {
      if j == |a| { assert r[i] in a; }
    }
  }

  /** The elements of a sorted sequence that share a key with respect to
      another order come out sorted too. */
  lemma {:induction false} WithKeySorted<T, K, L>(lt: (L, L) -> bool, f: T -> L, reverse: bool, p: T -> K, k: K, u: seq<T>)
    requires SortedBy(lt, f, reverse, u)
    ensures SortedBy(lt, f, reverse, WithKey(p, k, u))
    decreases |u|
  {
    if u != [] {
      var init := u[..|u| - 1];
      var last := u[|u| - 1];
      assert SortedBy(lt, f, reverse, init);
      WithKeySorted(lt, f, reverse, p, k, init);
      if p(last) == k {
        WithKeyElements(p, k, init);
        forall e | e in WithKey(p, k, init) ensures !Before(lt, f, reverse, last, e) {
          var m :| 0 <= m < |init| && init[m] == e;
        }
        AppendSorted(lt, f, reverse, WithKey(p, k, init), last);
      }
    }
  }

  /** Two positions of r that share key k are found, in the same order, in WithKey(p, k, r). */
  lemma WithKeyPositions<T, K>(p: T -> K, k: K, r: seq<T>, i: int, j: int)
    requires 0 <= i < j < |r| && p(r[i]) == k && p(r[j]) == k
    ensures exists i', j' :: 0 <= i' < j' < |WithKey(p, k, r)| && WithKey(p, k, r)[i'] == r[i] && WithKey(p, k, r)[j'] == r[j]
  {
    assert r == r[..i] + ([r[i]] + r[i + 1..j]) + ([r[j]] + r[j + 1..]);
    WithKeyConcat(p, k, r[..i] + ([r[i]] + r[i + 1..j]), [r[j]] + r[j + 1..]);
    WithKeyConcat(p, k, r[..i], [r[i]] + r[i + 1..j]);
    WithKeyConcat(p, k, [r[i]], r[i + 1..j]);
    WithKeyConcat(p, k, [r[j]], r[j + 1..]);
    assert WithKey(p, k, [r[i]]) == WithKey(p, k, [r[i]][..0]) + [r[i]];
    assert WithKey(p, k, [r[j]]) == WithKey(p, k, [r[j]][..0]) + [r[j]];
    var a := WithKey(p, k, r[..i]);
    var b := WithKey(p, k, [r[i]] + r[i + 1..j]);
    assert WithKey(p, k, r)[|a|] == r[i];
    assert WithKey(p, k, r)[|a| + |b|] == r[j];
  }

  /** The two-pass sort of MediaList.Sort: a stable sort by a fallback key
      followed by a stable sort by the primary key orders by the primary key
      and, among equal primary keys, by the fallback key. */
  lemma TwoPassSort<T, K(!new)>(lt: (K, K) -> bool, fallback: T -> K, fallbackReverse: bool,
                                   primary: T -> K, primaryReverse: bool, s: seq<T>)
    requires StrictTotalOrder(lt)
    ensures var r := StableSort(lt, primary, primaryReverse, StableSort(lt, fallback, fallbackReverse, s));
      forall i, j :: 0 <= i < j < |r| ==>
        && !Before(lt, primary, primaryReverse, r[j], r[i])
        && (primary(r[i]) == primary(r[j]) ==> !Before(lt, fallback, fallbackReverse, r[j], r[i]))
  {
    var u := StableSort(lt, fallback, fallbackReverse, s);
    var r := StableSort(lt, primary, primaryReverse, u);
    StableSortSorted(lt, fallback, fallbackReverse, s);
    StableSortSorted(lt, primary, primaryReverse, u);
    forall i, j | 0 <= i < j < |r| && primary(r[i]) == primary(r[j])
      ensures !Before(lt, fallback, fallbackReverse, r[j], r[i])
    {
      var k := primary(r[i]);
      StableSortWithKey(lt, primary, primaryReverse, u, k);
      WithKeySorted(lt, fallback, fallbackReverse, primary, k, u);
      WithKeyPositions(primary, k, r, i, j);
      var w := WithKey(primary, k, r);
      var i', j' :| 0 <= i' < j' < |w| && w[i'] == r[i] && w[j'] == r[j];
    }
  }

  /** The first element of a sorted sequence with a nonempty multiset is
      the least element of that multiset. */
  lemma SortedHead<T, K(!new)>(lt: (K, K) -> bool, key: T -> K, a: seq<T>, y: T)
    requires Irreflexive(lt)
    requires SortedBy(lt, key, false, a)
    requires a != [] && y in multiset(a)
    ensures !lt(key(y), key(a[0]))
  {
    var i :| 0 <= i < |a| && a[i] == y;
    if i > 0 { assert !Before(lt, key, false, a[i], a[0]); }
  }

  /** Under a strict total order, a sorted sequence is determined by its
      elements when distinct elements have distinct keys. */
  lemma {:induction false} SortedUnique<T, K(!new)>(lt: (K, K) -> bool, key: T -> K, a: seq<T>, b: seq<T>)
    requires StrictTotalOrder(lt)
    requires forall x, y :: key(x) == key(y) ==> x == y
    requires SortedBy(lt, key, false, a) && SortedBy(lt, key, false, b)
    requires multiset(a) == multiset(b)
    ensures a == b
    decreases |a|
  {
    assert |a| == |multiset(a)| == |multiset(b)| == |b|;
    if a != [] {
      SortedHead(lt, key, a, b[0]);
      SortedHead(lt, key, b, a[0]);
      assert a[0] == b[0];
      MultisetTails(a, b);
      SortedTail(lt, key, false, a);
      SortedTail(lt, key, false, b);
      SortedUnique(lt, key, a[1..], b[1..]);
    }
  }

  lemma MultisetTails<T>(a: seq<T>, b: seq<T>)
    requires a != [] && b != [] && a[0] == b[0]
    requires multiset(a) == multiset(b)
    ensures multiset(a[1..]) == multiset(b[1..])
  {
    assert a == [a[0]] + a[1..] && b == [b[0]] + b[1..];
    calc {
      multiset(a[1..]);
      multiset([a[0]] + a[1..]) - multiset{a[0]};
      multiset(a) - multiset{a[0]};
      multiset(b) - multiset{b[0]};
      multiset([b[0]] + b[1..]) - multiset{b[0]};
      multiset(b[1..]);
    }
  }

  lemma SortedTail<T, K>(lt: (K, K) -> bool, key: T -> K, reverse: bool, s: seq<T>)
    requires s != [] && SortedBy(lt, key, reverse, s)
    ensures SortedBy(lt, key, reverse, s[1..])
  {
    forall i, j | 0 <= i < j < |s| - 1 ensures !Before(lt, key, reverse, s[1..][j], s[1..][i]) {
      assert s[1..][j] == s[j + 1] && s[1..][i] == s[i + 1];
    }
  }
}
