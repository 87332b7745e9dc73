/** The client's SortedList: a list kept in the order of a stored sort key,
    with a lazily rebuilt item-to-position index. */
module SortedLists {
  import opened Common
  import opened Ordering

  /** The index the source builds with a dict comprehension over the list:
      later positions overwrite earlier ones, so every item maps to the
      position of its LAST occurrence. */
  function IndexMap<T(==)>(s: seq<T>): (m: map<T, nat>)
    ensures m.Keys == set x | x in s
    ensures forall x :: x in m ==> m[x] < |s| && s[m[x]] == x
  {
    if s == [] then map[]
    else
      var m0 := IndexMap(s[..|s| - 1]);
      assert forall x :: x in m0 ==> (s[..|s| - 1])[m0[x]] == s[m0[x]];
      assert forall x :: x in s ==> x in s[..|s| - 1] || x == s[|s| - 1];
      m0[s[|s| - 1] := |s| - 1]
  }

  /** The indexed position is the last occurrence of the item. */
  lemma {:induction false} IndexMapLast<T>(s: seq<T>, x: T)
    requires x in IndexMap(s)
    ensures forall j :: IndexMap(s)[x] < j < |s| ==> s[j] != x
  {
    if s != [] {
      var init := s[..|s| - 1];
      if x != s[|s| - 1] {
        assert x in init;
        IndexMapLast(init, x);
        forall j | IndexMap(s)[x] < j < |s| ensures s[j] != x {
          if j < |s| - 1 { assert s[j] == init[j]; }
        }
      }
    }
  }

  ghost predicate NoDuplicates<T>(s: seq<T>) {
    forall i, j :: 0 <= i < j < |s| ==> s[i] != s[j]
  }

  lemma IndexMapNoDuplicates<T>(s: seq<T>, i: int)
    requires NoDuplicates(s) && 0 <= i < |s|
    ensures s[i] in IndexMap(s) && IndexMap(s)[s[i]] == i
  {
    assert s[i] in s;
  }

  lemma IndexMapSnoc<T>(s: seq<T>, x: T)
    ensures IndexMap(s + [x]) == IndexMap(s)[x := |s|]
  {
    assert (s + [x])[..|s|] == s;
  }

  /** The list with the elements at the positions in p deleted. */
  function Without<T>(s: seq<T>, p: set<int>): (r: seq<T>)
    ensures |r| <= |s|
  {
    if s == [] then []
    else Without(s[..|s| - 1], p) + (if |s| - 1 in p then [] else [s[|s| - 1]])
  }

  /** The elements of s that are not in x, in their original order. */
  function Remaining<T(==)>(s: seq<T>, x: set<T>): (r: seq<T>)
    ensures forall e :: e in r ==> e in s && e !in x
    ensures forall i :: 0 <= i < |s| && s[i] !in x ==> s[i] in r
  {
    if s == [] then []
    else
      var r0 := Remaining(s[..|s| - 1], x);
      assert forall i :: 0 <= i < |s| - 1 ==> s[i] == s[..|s| - 1][i];
      r0 + (if s[|s| - 1] in x then [] else [s[|s| - 1]])
  }

  /** The part of Without(s, p) that comes from positions m and above. */
  function WithoutFrom<T>(s: seq<T>, p: set<int>, m: int): seq<T>
  {
    if |s| <= m || s == [] then []
    else WithoutFrom(s[..|s| - 1], p, m) + (if |s| - 1 in p then [] else [s[|s| - 1]])
  }

  lemma {:induction false} WithoutUntouched<T>(s: seq<T>, p: set<int>)
    requires forall i :: i in p ==> i >= |s|
    ensures Without(s, p) == s
  {
    if s != [] {
      WithoutUntouched(s[..|s| - 1], p);
    }
  }

  /** Deletions at and above m do not disturb the part of the list below m. */
  lemma {:induction false} WithoutSplit<T>(s: seq<T>, p: set<int>, m: nat)
    requires m <= |s|
    ensures Without(s, p) == Without(s[..m], p) + WithoutFrom(s, p, m)
  {
    if |s| == m {
      assert s[..m] == s;
    } else {
      var n := |s|;
      WithoutSplit(s[..n - 1], p, m);
      assert s[..n - 1][..m] == s[..m];
    }
  }

  lemma {:induction false} WithoutFromAgree<T>(s: seq<T>, p: set<int>, q: set<int>, m: int)
    requires forall i :: i >= m ==> (i in p <==> i in q)
    ensures WithoutFrom(s, p, m) == WithoutFrom(s, q, m)
  {
    if !(|s| <= m || s == []) {
      WithoutFromAgree(s[..|s| - 1], p, q, m);
    }
  }

  /** The step of the deletion loop: deleting position j of the partly
      deleted list, when everything deleted so far lies above j. */
  lemma WithoutStep<T>(s: seq<T>, done: set<int>, j: int)
    requires 0 <= j < |s|
    requires forall d :: d in done ==> d > j
    ensures j < |Without(s, done)|
    ensures Without(s, done)[..j] + Without(s, done)[j + 1..] == Without(s, done + {j})
  {
    WithoutBelow(s, done, j);
    WithoutAt(s, done, j);
    DropOne(s[..j + 1], WithoutFrom(s, done, j + 1));
    assert s[..j + 1][..j] == s[..j];
  }

  /** With every deletion above j, positions up to j are all kept. */
  lemma WithoutBelow<T>(s: seq<T>, done: set<int>, j: int)
    requires 0 <= j < |s|
    requires forall d :: d in done ==> d > j
    ensures Without(s, done) == s[..j + 1] + WithoutFrom(s, done, j + 1)
  {
    WithoutSplit(s, done, j + 1);
    WithoutUntouched(s[..j + 1], done);
  }

  /** Deleting j as well drops exactly s[j] from that. */
  lemma WithoutAt<T>(s: seq<T>, done: set<int>, j: int)
    requires 0 <= j < |s|
    requires forall d :: d in done ==> d > j
    ensures Without(s, done + {j}) == s[..j] + WithoutFrom(s, done, j + 1)
  {
    var p := done + {j};
    var h := s[..j + 1];
    WithoutSplit(s, p, j + 1);
    WithoutFromAgree(s, p, done, j + 1);
    WithoutAtHead(h, p, j);
    assert h[..j] == s[..j];
  }

  /** Deleting the last position j, with nothing deleted below it. */
  lemma WithoutAtHead<T>(h: seq<T>, p: set<int>, j: int)
    requires 0 <= j && |h| == j + 1 && j in p
    requires forall d :: d in p ==> d >= j
    ensures Without(h, p) == h[..j]
  {
    WithoutDropsLast(h, p);
    WithoutUntouched(h[..j], p);
  }

  /** A deleted last position is dropped. */
  lemma WithoutDropsLast<T>(s: seq<T>, p: set<int>)
    requires s != [] && |s| - 1 in p
    ensures Without(s, p) == Without(s[..|s| - 1], p)
  {
  }

  /** Dropping position |h| - 1 of h + x leaves h's prefix and x. */
  lemma DropOne<T>(h: seq<T>, x: seq<T>)
    requires h != []
    ensures |h| - 1 < |h + x|
    ensures (h + x)[..|h| - 1] + (h + x)[|h|..] == h[..|h| - 1] + x
  {
    assert (h + x)[..|h| - 1] == h[..|h| - 1];
    assert (h + x)[|h|..] == x;
  }

  /** Deleting by positions is deleting by items when positions and items
      pick out the same elements. */
  lemma {:induction false} WithoutIsRemaining<T>(s: seq<T>, p: set<int>, x: set<T>)
    requires forall i :: 0 <= i < |s| ==> (i in p <==> s[i] in x)
    ensures Without(s, p) == Remaining(s, x)
  {
    if s != [] {
      WithoutIsRemaining(s[..|s| - 1], p, x);
    }
  }

  /** The positions remove_items deletes: the indexed position of each item. */
  function Positions<T(==)>(s: seq<T>, x: set<T>): set<int>
    requires forall e :: e in x ==> e in s
  {
    set e | e in x :: IndexMap(s)[e]
  }

  /** On a list without repeated items, remove_items deletes exactly the
      given items and keeps the order of the rest. */
  lemma RemoveByPositionsRemovesItems<T>(s: seq<T>, x: set<T>)
    requires NoDuplicates(s)
    requires forall e :: e in x ==> e in s
    ensures Without(s, Positions(s, x)) == Remaining(s, x)
  {
    var p := Positions(s, x);
    forall i | 0 <= i < |s| ensures i in p <==> s[i] in x {
      IndexMapNoDuplicates(s, i);
      if i in p {
        var e :| e in x && IndexMap(s)[e] == i;
      }
    }
    WithoutIsRemaining(s, p, x);
  }

  lemma HasElement(p: set<int>)
    requires p != {}
    ensures exists x :: x in p
  {
    if forall x :: x !in p {
      assert false;
    }
  }

  /** The largest of a non-empty set of positions. */
  method MaxOf(p: set<int>) returns (m: int)
    requires p != {}
    ensures m in p && forall i :: i in p ==> i <= m
  {
    HasElement(p);
    m :| m in p;
    var rest := p - {m};
    while rest != {}
      invariant rest <= p && m in p
      invariant forall i :: i in p && i !in rest ==> i <= m
      decreases |rest|
    {
      HasElement(rest);
      var x :| x in rest;
      if x > m {
        m := x;
      }
      rest := rest - {x};
    }
  }

  /** The deletion loop of remove_items: the positions are deleted one by
      one from the highest down, so no deletion shifts a position still to
      be deleted. */
  method DeletePositions<T>(original: seq<T>, positions: set<int>) returns (list: seq<T>)
    requires forall i :: i in positions ==> 0 <= i < |original|
    ensures list == Without(original, positions)
  {
    list := original;
    var remaining := positions;
    ghost var done: set<int> := {};
    WithoutUntouched(original, {});
    while remaining != {}
      invariant remaining <= positions && done == positions - remaining
      invariant forall r, d :: r in remaining && d in done ==> r < d
      invariant list == Without(original, done)
      decreases |remaining|
    {
      var j := MaxOf(remaining);
      WithoutStep(original, done, j);
      list := list[..j] + list[j + 1..];
      done := done + {j};
      remaining := remaining - {j};
    }
    assert done == positions;
  }

  lemma SnocSlice<T>(start: seq<T>, items: seq<T>, i: nat)
    requires i < |items|
    ensures start + items[..i + 1] == (start + items[..i]) + [items[i]]
    ensures |start + items[..i]| == |start| + i
  {
    assert items[..i + 1] == items[..i] + [items[i]];
  }

  /** The index of start, extended item by item to the index of
      start + items. */
  method ExtendIndex<T>(m0: map<T, nat>, start: seq<T>, items: seq<T>) returns (m: map<T, nat>)
    requires m0 == IndexMap(start)
    ensures m == IndexMap(start + items)
  {
    m := m0;
    var i := 0;
    assert start + items[..0] == start;
    while i < |items|
      invariant 0 <= i <= |items|
      invariant m == IndexMap(start + items[..i])
    {
      SnocSlice(start, items, i);
      IndexMapSnoc(start + items[..i], items[i]);
      m := m[items[i] := |start + items[..i]|];
      i := i + 1;
    }
    assert items[..i] == items;
  }

  class SortedList<T(==)> {
    var sortedList: seq<T>
    var itemsToIndices: Option<map<T, nat>>
    var sortKey: Option<T -> SortKey>
    var sortReverse: bool

    /** The index, when present, agrees with the list. */
    ghost predicate Valid()
      reads this
    {
      itemsToIndices.Some? ==> itemsToIndices.value == IndexMap(sortedList)
    }

    constructor(initialItems: seq<T>)
      ensures Valid()
      ensures sortedList == initialItems && itemsToIndices == None
      ensures sortKey == None && !sortReverse
    {
      sortKey := None;
      sortReverse := false;
      sortedList := initialItems;
      itemsToIndices := None;
    }

    function Length(): (n: nat)
      reads this
      ensures n == |sortedList|
    {
      |sortedList|
    }

    /** __getitem__ with Python's negative positions counted from the end. */
    function GetItem(i: int): (r: Result<T>)
      reads this
      ensures r.Ok? <==> -|sortedList| <= i < |sortedList|
      ensures r.Ok? && i >= 0 ==> r.value == sortedList[i]
      ensures r.Ok? && i < 0 ==> r.value == sortedList[|sortedList| + i]
      ensures r.Err? ==> r.error == IndexOutOfRange
    {
      if 0 <= i < |sortedList| then Ok(sortedList[i])
      else if -|sortedList| <= i < 0 then Ok(sortedList[|sortedList| + i])
      else Err(IndexOutOfRange)
    }

    method RecalcIndices()
      modifies this`itemsToIndices
      ensures itemsToIndices == Some(IndexMap(sortedList))
    {
      itemsToIndices := Some(IndexMap(sortedList));
    }

    /** Extends the list and the index together, item by item. */
    method AppendItems(items: seq<T>)
      requires Valid()
      modifies this`itemsToIndices, this`sortedList
      ensures Valid()
      ensures sortedList == old(sortedList) + items
      ensures itemsToIndices == Some(IndexMap(sortedList))
    {
      if itemsToIndices.None? {
        RecalcIndices();
      }
      var m := ExtendIndex(itemsToIndices.value, sortedList, items);
      itemsToIndices := Some(m);
      sortedList := sortedList + items;
    }

    /** The position of an item, or DataMissing when it is not listed. */
    method Index(item: T) returns (r: Result<nat>)
      requires Valid()
      modifies this`itemsToIndices
      ensures Valid() && itemsToIndices.Some?
      ensures r.Ok? <==> item in sortedList
      ensures r.Ok? ==> r.value == IndexMap(sortedList)[item]
      ensures r.Ok? ==> r.value < |sortedList| && sortedList[r.value] == item
      ensures r.Ok? ==> forall j :: r.value < j < |sortedList| ==> sortedList[j] != item
      ensures r.Err? ==> r.error == DataMissing
    {
      if itemsToIndices.None? {
        RecalcIndices();
      }
      var m := itemsToIndices.value;
      if item in m {
        IndexMapLast(sortedList, item);
        r := Ok(m[item]);
      } else {
        r := Err(DataMissing);
      }
    }

    /** The list in the order of the key, stably; with no key at all the
        source falls back to the items' own ordering, which is not modelled,
        so the only promise then is that the items are the same. */
    method Sort(key: Option<T -> SortKey>, reverse: bool)
      modifies this`sortedList, this`itemsToIndices, this`sortKey, this`sortReverse
      ensures Valid() && itemsToIndices == None
      ensures key.Some? ==> sortKey == key && sortReverse == reverse
      ensures key.None? ==> sortKey == old(sortKey) && sortReverse == old(sortReverse)
      ensures sortKey.Some? ==>
        sortedList == StableSort(KeyLess, sortKey.value, sortReverse, old(sortedList))
      ensures multiset(sortedList) == multiset(old(sortedList))
    {
      if key.Some? {
        sortKey := key;
        sortReverse := reverse;
      }
      if sortKey.Some? {
        sortedList := StableSort(KeyLess, sortKey.value, sortReverse, sortedList);
      }
      itemsToIndices := None;
    }

    /** Appends, then re-sorts by the stored key. */
    method InsertItems(items: seq<T>)
      requires Valid()
      modifies this
      ensures Valid() && itemsToIndices == None
      ensures sortKey == old(sortKey) && sortReverse == old(sortReverse)
      ensures sortKey.Some? ==>
        sortedList == StableSort(KeyLess, sortKey.value, sortReverse, old(sortedList) + items)
      ensures multiset(sortedList) == multiset(old(sortedList) + items)
    {
      AppendItems(items);
      Sort(None, false);
    }

    /** Looks up every item first (failing with DataMissing, list untouched,
        if one is missing), then deletes their positions from the highest
        down. */
    method RemoveItems(items: set<T>) returns (r: Outcome)
      requires Valid()
      modifies this`itemsToIndices, this`sortedList
      ensures Valid()
      ensures r == Pass <==> forall e :: e in items ==> e in old(sortedList)
      ensures r.Fail? ==> r.error == DataMissing && sortedList == old(sortedList)
      ensures r == Pass ==> sortedList == Without(old(sortedList), Positions(old(sortedList), items))
      ensures r == Pass ==> itemsToIndices == None
    {
      if itemsToIndices.None? {
        RecalcIndices();
      }
      var original := sortedList;
      var m := itemsToIndices.value;
      if exists e :: e in items && e !in m {
        return Fail(DataMissing);
      }
      var positions := set e | e in items :: m[e];
      assert positions == Positions(original, items);
      sortedList := DeletePositions(original, positions);
      itemsToIndices := None;
      r := Pass;
    }
  }
}
