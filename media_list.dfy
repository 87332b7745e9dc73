/** MediaList and ListeningMediaList: the sorted, optionally collected list
    of media of one file service view, with its hash index. */
module MediaLists {
  import opened Common
  import opened Ordering
  import opened SortedLists
  import opened Tags
  import opened MediaResults
  import opened MediaSorts
  import opened MediaValues
  import opened MediaCollections

  /** _hashes_to_collected_media: each hash of a collection to one
      collection holding it, and every hash of every collection indexed. */
  ghost predicate IndexesCollections(m: map<Hash, MediaCollection>, cs: set<MediaCollection>)
    reads cs
  {
    (forall h :: h in m ==> m[h] in cs && h in m[h].hashes) &&
    (forall c, h :: c in cs && h in c.hashes ==> h in m)
  }

  /** The collection half of _RecalcHashes. */
  method IndexCollections(cs: set<MediaCollection>) returns (hs: set<Hash>, m: map<Hash, MediaCollection>)
    ensures hs == m.Keys && IndexesCollections(m, cs)
  {
    hs := {};
    m := map[];
    var left := cs;
    while left != {}
      invariant left <= cs
      invariant hs == m.Keys && IndexesCollections(m, cs - left)
      decreases left
    {
      var c :| c in left;
      hs := hs + c.hashes;
      m := m + map h | h in c.hashes :: c;
      left := left - {c};
    }
  }

  function CollectionsIn(ms: seq<Media>): set<MediaCollection>
  {
    set i | 0 <= i < |ms| && ms[i].Coll? :: ms[i].c
  }

  /** The singletons a node stands for: itself, or a collection's children. */
  function NodeMembers(m: Media): seq<MediaSingleton>
    reads if m.Coll? then {m.c} else {}
  {
    match m
    case Single(s) => [s]
    case Coll(c) => c.sortedMedia
  }

  /** FlattenMedia: every node's singletons, in list order. */
  function Flat(ms: seq<Media>): seq<MediaSingleton>
    reads CollectionsIn(ms)
  {
    if ms == [] then []
    else
      var init := ms[..|ms| - 1];
      assert CollectionsIn(init) <= CollectionsIn(ms) by {
        forall c | c in CollectionsIn(init) ensures c in CollectionsIn(ms) {
          var i :| 0 <= i < |init| && init[i].Coll? && init[i].c == c;
          assert ms[i] == init[i];
        }
      }
      Flat(init) + NodeMembers(ms[|ms| - 1])
  }

  /** How many entries of a list are singletons. */
  function NumSingles(ms: seq<Media>): nat
  {
    if ms == [] then 0 else NumSingles(ms[..|ms| - 1]) + (if ms[|ms| - 1].Single? then 1 else 0)
  }

  /** How many children the collections of a list hold together. */
  function ChildCount(ms: seq<Media>): nat
    reads CollectionsIn(ms)
  {
    if ms == [] then 0
    else
      var init := ms[..|ms| - 1];
      assert CollectionsIn(init) <= CollectionsIn(ms) by {
        forall c | c in CollectionsIn(init) ensures c in CollectionsIn(ms) {
          var i :| 0 <= i < |init| && init[i].Coll? && init[i].c == c;
          assert ms[i] == init[i];
        }
      }
      ChildCount(init) + (if ms[|ms| - 1].Coll? then |ms[|ms| - 1].c.sortedMedia| else 0)
  }

  /** The flattened list has a singleton's one entry and a collection's
      children for each node. */
  lemma {:induction false} FlatLength(ms: seq<Media>)
    ensures |Flat(ms)| == NumSingles(ms) + ChildCount(ms)
  {
    if ms != [] {
      FlatLength(ms[..|ms| - 1]);
    }
  }

  /** FlattenMedia and GetFlatMedia: the loop over the nodes. */
  method FlattenMedia(ms: seq<Media>) returns (flat: seq<MediaSingleton>)
    ensures flat == Flat(ms)
  {
    flat := [];
    var i := 0;
    while i < |ms|
      invariant 0 <= i <= |ms|
      invariant flat == Flat(ms[..i])
    {
      assert ms[..i + 1][..i] == ms[..i];
      flat := flat + NodeMembers(ms[i]);
      i := i + 1;
    }
    assert ms[..i] == ms;
  }

  /** A singleton is in the flattened list exactly when some node stands
      for it. */
  lemma {:induction false} FlatMember(ms: seq<Media>, s: MediaSingleton)
    ensures s in Flat(ms) <==> exists i :: 0 <= i < |ms| && s in NodeMembers(ms[i])
  {
    if ms != [] {
      var init := ms[..|ms| - 1];
      FlatMember(init, s);
      assert forall i :: 0 <= i < |init| ==> init[i] == ms[i];
      if s in Flat(ms) && s !in NodeMembers(ms[|ms| - 1]) {
        var i :| 0 <= i < |init| && s in NodeMembers(init[i]);
        assert s in NodeMembers(ms[i]);
      }
    }
  }

  /** What each node reports to the sorts. */
  function View(m: Media, records: Hash -> MediaRecord): NodeView
    reads if m.Coll? then {m.c} else {}
  {
    match m
    case Single(s) => SingletonView(s, records)
    case Coll(c) => CollectionView(c.internals)
  }

  function NodeViews(ms: seq<Media>, records: Hash -> MediaRecord): (vs: seq<NodeView>)
    reads CollectionsIn(ms)
    ensures |vs| == |ms|
    ensures forall i :: 0 <= i < |ms| ==> vs[i] == View(ms[i], records)
  {
    if ms == [] then []
    else
      var init := ms[..|ms| - 1];
      assert CollectionsIn(init) <= CollectionsIn(ms) by {
        forall c | c in CollectionsIn(init) ensures c in CollectionsIn(ms) {
          var i :| 0 <= i < |init| && init[i].Coll? && init[i].c == c;
          assert ms[i] == init[i];
        }
      }
      assert ms[|ms| - 1].Coll? ==> ms[|ms| - 1].c in CollectionsIn(ms);
      NodeViews(init, records) + [View(ms[|ms| - 1], records)]
  }

  // ---------------------------------------------------------------------
  // GenerateMediaResults of a list

  /** The current locations of a node: a singleton's own, a collection's
      aggregated ones. */
  function NodeLocations(m: Media, records: Hash -> MediaRecord): set<ServiceKey>
    reads if m.Coll? then {m.c} else {}
  {
    match m
    case Single(s) => records(s.hash).locations.current
    case Coll(c) => c.internals.locations.current
  }

  /** The media results GenerateMediaResults gives for one node: none when
      the node lacks the location or is not selected; for a collection, its
      children's results filtered as for the media viewer; for a singleton,
      its own result when it passes the filters. */
  function NodeResults(m: Media, records: Hash -> MediaRecord, f: ResultFilter, env: Env): seq<Hash>
    reads if m.Coll? then {m.c} else {}
  {
    if f.hasLocation.Some? && f.hasLocation.value !in NodeLocations(m, records) then []
    else if f.selected.Some? && m !in f.selected.value then []
    else
      match m
      case Coll(c) => SingletonResults(c.sortedMedia, records, f.(forMediaViewer := true), env)
      case Single(s) => if ResultSelected(s, records, f, env) then [s.hash] else []
  }

  /** A node's results are media results of its singletons that pass the
      filters, no more of them than it has singletons. */
  lemma NodeResultsSound(m: Media, records: Hash -> MediaRecord, f: ResultFilter, env: Env)
    ensures |NodeResults(m, records, f, env)| <= |NodeMembers(m)|
    ensures forall h :: h in NodeResults(m, records, f, env) ==>
      exists s :: s in NodeMembers(m) && s.hash == h && ResultSelected(s, records, f, env)
  {
    var r := NodeResults(m, records, f, env);
    forall h | h in r ensures exists s :: s in NodeMembers(m) && s.hash == h && ResultSelected(s, records, f, env) {
      if m.Coll? {
        var c := m.c;
        assert r == SingletonResults(c.sortedMedia, records, f.(forMediaViewer := true), env);
        var i :| 0 <= i < |c.sortedMedia| && c.sortedMedia[i].hash == h &&
          ResultSelected(c.sortedMedia[i], records, f.(forMediaViewer := true), env);
        assert ResultSelected(c.sortedMedia[i], records, f, env);
      }
    }
  }

  /** GenerateMediaResults: every node's results, in list order. */
  function ListResults(ms: seq<Media>, records: Hash -> MediaRecord, f: ResultFilter, env: Env): seq<Hash>
    reads CollectionsIn(ms)
  {
    if ms == [] then []
    else
      var init := ms[..|ms| - 1];
      assert CollectionsIn(init) <= CollectionsIn(ms) by {
        forall c | c in CollectionsIn(init) ensures c in CollectionsIn(ms) {
          var i :| 0 <= i < |init| && init[i].Coll? && init[i].c == c;
          assert ms[i] == init[i];
        }
      }
      assert ms[|ms| - 1].Coll? ==> ms[|ms| - 1].c in CollectionsIn(ms);
      ListResults(init, records, f, env) + NodeResults(ms[|ms| - 1], records, f, env)
  }

  /** The body of GenerateMediaResults' loop, for one node. */
  method GenerateNodeResults(m: Media, f: ResultFilter, env: Env, records: Hash -> MediaRecord) returns (r: seq<Hash>)
    ensures r == NodeResults(m, records, f, env)
  {
    r := [];
    if f.hasLocation.Some? && f.hasLocation.value !in NodeLocations(m, records) {
    } else if f.selected.Some? && m !in f.selected.value {
    } else if m.Coll? {
      r := m.c.GenerateMediaResults(f.(forMediaViewer := true), env, records);
    } else if ResultSelected(m.s, records, f, env) {
      r := [m.s.hash];
    }
  }

  lemma ListResultsStep(ms: seq<Media>, i: nat, records: Hash -> MediaRecord, f: ResultFilter, env: Env)
    requires i < |ms|
    ensures ListResults(ms[..i + 1], records, f, env) == ListResults(ms[..i], records, f, env) + NodeResults(ms[i], records, f, env)
  {
    assert ms[..i + 1][..i] == ms[..i];
  }

  /** The results depend only on the collections of the nodes. */
  twostate lemma ListResultsKept(a: (seq<Media>, Hash -> MediaRecord, ResultFilter, Env))
    requires unchanged(CollectionsIn(a.0))
    ensures ListResults(a.0, a.1, a.2, a.3) == old(ListResults(a.0, a.1, a.2, a.3))
  {
  }

  /** The loop of GenerateMediaResults over the nodes. */
  method GenerateListResults(list: seq<Media>, f: ResultFilter, env: Env, records: Hash -> MediaRecord) returns (r: seq<Hash>)
    ensures r == ListResults(list, records, f, env)
  {
    r := [];
    var i := 0;
    while i < |list|
      invariant 0 <= i <= |list|
      invariant r == ListResults(list[..i], records, f, env)
    {
      label before:
      var nodeResults := GenerateNodeResults(list[i], f, env, records);
      ListResultsKept@before((list[..i], records, f, env));
      ListResultsStep(list, i, records, f, env);
      r := r + nodeResults;
      i := i + 1;
    }
    assert list[..i] == list;
  }

  /** The results are media results of the flattened list that pass the
      filters, and there are no more of them than flattened singletons. */
  lemma {:induction false} ListResultsSound(ms: seq<Media>, records: Hash -> MediaRecord, f: ResultFilter, env: Env)
    ensures |ListResults(ms, records, f, env)| <= |Flat(ms)|
    ensures forall h :: h in ListResults(ms, records, f, env) ==>
      exists s :: s in Flat(ms) && s.hash == h && ResultSelected(s, records, f, env)
    decreases |ms|
  {
    if ms != [] {
      var init, last := ms[..|ms| - 1], ms[|ms| - 1];
      ListResultsSound(init, records, f, env);
      NodeResultsSound(last, records, f, env);
      assert Flat(ms) == Flat(init) + NodeMembers(last);
      assert ListResults(ms, records, f, env) == ListResults(init, records, f, env) + NodeResults(last, records, f, env);
    }
  }

  /** A singleton of the list that has the location, is selected and passes
      the filters gives its media result. */
  lemma {:induction false} ListResultsComplete(ms: seq<Media>, records: Hash -> MediaRecord, f: ResultFilter, env: Env, s: MediaSingleton)
    requires Single(s) in ms && ResultSelected(s, records, f, env)
    ensures s.hash in ListResults(ms, records, f, env)
    decreases |ms|
  {
    var init, last := ms[..|ms| - 1], ms[|ms| - 1];
    if last == Single(s) {
      assert NodeResults(last, records, f, env) == [s.hash];
    } else {
      assert Single(s) in init by {
        var i :| 0 <= i < |ms| && ms[i] == Single(s);
        assert init[i] == ms[i];
      }
      ListResultsComplete(init, records, f, env, s);
    }
  }

  /** Children of a collection are filtered as for the media viewer even
      when the caller does not ask for it: the results of a collection
      never include a child whose mime the viewer does not show. */
  lemma CollectionResultsForViewer(c: MediaCollection, records: Hash -> MediaRecord, f: ResultFilter, env: Env)
    ensures forall h :: h in NodeResults(Coll(c), records, f, env) ==>
      exists s :: s in c.sortedMedia && s.hash == h && !env.hiddenInViewer(records(h).info.mime)
  {
    var r := NodeResults(Coll(c), records, f, env);
    if r != [] {
      assert r == SingletonResults(c.sortedMedia, records, f.(forMediaViewer := true), env);
    }
  }

  // ---------------------------------------------------------------------
  // Collect

  /** The hashes of some singletons, in order: their media results. */
  function HashSeq(ms: seq<MediaSingleton>): (r: seq<Hash>)
    ensures |r| == |ms| && forall i :: 0 <= i < |ms| ==> r[i] == ms[i].hash
  {
    seq(|ms|, i requires 0 <= i < |ms| => ms[i].hash)
  }

  /** Every hash of some collections. */
  ghost function CollectedHashes(cs: set<MediaCollection>): set<Hash>
    reads cs
  {
    set c, h | c in cs && h in c.hashes :: h
  }

  lemma CollectedHashesAdd(cs: set<MediaCollection>, c: MediaCollection)
    ensures CollectedHashes(cs + {c}) == CollectedHashes(cs) + c.hashes
  {
  }

  /** Singletons of the same media results as another list's hold its
      hashes. */
  lemma CopiesHashes(a: seq<MediaSingleton>, b: seq<MediaSingleton>)
    requires HashSeq(a) == HashSeq(b)
    ensures HashesOf(Members(a)) == HashesOf(Members(b))
  {
    forall h | h in HashesOf(Members(a)) ensures h in HashesOf(Members(b)) {
      var s :| s in Members(a) && s.hash == h;
      var i :| 0 <= i < |a| && a[i] == s;
      assert HashSeq(a)[i] == h;
      assert b[i] in Members(b);
    }
    forall h | h in HashesOf(Members(b)) ensures h in HashesOf(Members(a)) {
      var s :| s in Members(b) && s.hash == h;
      var i :| 0 <= i < |b| && b[i] == s;
      assert HashSeq(b)[i] == h;
      assert a[i] in Members(a);
    }
  }

  /** The first step of Collect: the singletons, with a fresh singleton of
      every media result of every collection added. */
  method Uncollect(ss: set<MediaSingleton>, cs: set<MediaCollection>, ghost fileServiceKey: ServiceKey)
    returns (pool: set<MediaSingleton>)
    requires CollectionsValid(cs, fileServiceKey)
    ensures ss <= pool && forall s :: s in pool && s !in ss ==> fresh(s)
    ensures HashesOf(pool) == HashesOf(ss) + old(CollectedHashes(cs))
  {
    pool := ss;
    var left := cs;
    while left != {}
      invariant left <= cs
      invariant ss <= pool && forall s :: s in pool && s !in ss ==> fresh(s)
      invariant HashesOf(pool) == HashesOf(ss) + CollectedHashes(cs - left)
      decreases left
    {
      var c :| c in left;
      var copies := GenerateSingletons(HashSeq(c.sortedMedia));
      assert HashSeq(copies) == HashSeq(c.sortedMedia);
      CopiesHashes(copies, c.sortedMedia);
      forall s | s in Members(copies) ensures fresh(s) {
        var i :| 0 <= i < |copies| && copies[i] == s;
      }
      HashesOfUnion(pool, Members(copies));
      CollectedHashesAdd(cs - left, c);
      assert cs - (left - {c}) == (cs - left) + {c};
      pool := pool + Members(copies);
      left := left - {c};
    }
  }

  /** The members of a set in some order, as list() of a Python set gives
      them. */
  method Enumerate<T>(x: set<T>) returns (s: seq<T>)
    ensures NoDuplicates(s) && forall e :: e in s <==> e in x
  {
    s := [];
    var left := x;
    while left != {}
      invariant left <= x && NoDuplicates(s)
      invariant forall e :: e in s <==> e in x && e !in left
      decreases left
    {
      var e :| e in left;
      s := s + [e];
      left := left - {e};
    }
  }

  /** The collection key of a singleton in _CalculateCollectionKeysToMedias. */
  function KeyOf(cb: seq<CollectBy>, records: Hash -> MediaRecord, env: Env): MediaSingleton -> CollectKey
  {
    (s: MediaSingleton) => CollectionKey(cb, SingletonView(s, records), env)
  }

  /** The keys that have more than one singleton. */
  function Shared(groups: map<CollectKey, seq<MediaSingleton>>): set<CollectKey>
  {
    set k | k in groups && |groups[k]| > 1
  }

  /** A new collection of Collect: well formed, the file service's, not
      yet sorted, and holding singletons of the media results of the group,
      in order. */
  ghost predicate Built(c: MediaCollection, fileServiceKey: ServiceKey, group: seq<MediaSingleton>,
                        records: Hash -> MediaRecord, collapse: Collapse)
    reads c
  {
    Assembled(c, fileServiceKey, group) && c.Current(records, collapse)
  }

  /** The shape of a new collection, leaving its aggregates aside. */
  ghost predicate Assembled(c: MediaCollection, fileServiceKey: ServiceKey, group: seq<MediaSingleton>)
    reads c
  {
    && c.Valid() && c.fileServiceKey == fileServiceKey && c.mediaSort == NewMediaSort(None, None)
    && HashSeq(c.sortedMedia) == HashSeq(group)
  }

  /** _GenerateMediaCollection of the media results of a group. */
  method GenerateCollection(fileServiceKey: ServiceKey, group: seq<MediaSingleton>,
                            records: Hash -> MediaRecord, collapse: Collapse) returns (c: MediaCollection)
    ensures fresh(c) && Built(c, fileServiceKey, group, records, collapse)
  {
    var children := GenerateSingletons(HashSeq(group));
    c := new MediaCollection(fileServiceKey, children, records, collapse);
    assert HashSeq(c.sortedMedia) == HashSeq(group);
  }

  /** The collections of Collect: one new collection for every key with
      more than one singleton, none shared between two keys. */
  method BuildCollections(fileServiceKey: ServiceKey, groups: map<CollectKey, seq<MediaSingleton>>,
                          records: Hash -> MediaRecord, collapse: Collapse)
    returns (mc: map<CollectKey, MediaCollection>, order: seq<MediaCollection>)
    ensures forall k :: k in mc <==> k in groups && |groups[k]| > 1
    ensures forall k :: k in mc ==> fresh(mc[k])
    ensures BuiltAll(mc, fileServiceKey, groups, records, collapse)
    ensures forall k, k' :: k in mc && k' in mc && k != k' ==> mc[k] != mc[k']
    ensures NoDuplicates(order) && forall c :: c in order <==> c in mc.Values
  {
    mc := map[];
    order := [];
    var left := Shared(groups);
    while left != {}
      invariant Building(mc, order, left, fileServiceKey, groups, records, collapse)
      invariant forall k :: k in mc ==> fresh(mc[k])
      decreases left
    {
      var k :| k in left;
      mc, order := AddCollection(mc, order, left, k, fileServiceKey, groups, records, collapse);
      left := left - {k};
    }
  }

  /** The loop invariant of BuildCollections: the keys not left have
      their collections built, each its own. */
  ghost predicate Building(mc: map<CollectKey, MediaCollection>, order: seq<MediaCollection>, left: set<CollectKey>,
                           fileServiceKey: ServiceKey, groups: map<CollectKey, seq<MediaSingleton>>,
                           records: Hash -> MediaRecord, collapse: Collapse)
    reads mc.Values
  {
    && (forall k :: k in left ==> k in groups && |groups[k]| > 1)
    && (forall k :: k in mc <==> k in groups && |groups[k]| > 1 && k !in left)
    && BuiltAll(mc, fileServiceKey, groups, records, collapse)
    && (forall k, k' :: k in mc && k' in mc && k != k' ==> mc[k] != mc[k'])
    && NoDuplicates(order) && (forall i :: 0 <= i < |order| ==> order[i] in mc.Values)
    && (forall k :: k in mc ==> mc[k] in order)
  }

  /** One step of BuildCollections: the collection of key k. */
  method AddCollection(mc: map<CollectKey, MediaCollection>, order: seq<MediaCollection>, left: set<CollectKey>, k: CollectKey,
                       fileServiceKey: ServiceKey, groups: map<CollectKey, seq<MediaSingleton>>,
                       records: Hash -> MediaRecord, collapse: Collapse)
    returns (mc': map<CollectKey, MediaCollection>, order': seq<MediaCollection>)
    requires k in left && Building(mc, order, left, fileServiceKey, groups, records, collapse)
    ensures Building(mc', order', left - {k}, fileServiceKey, groups, records, collapse)
    ensures forall j :: j in mc' ==> (j in mc && mc'[j] == mc[j]) || fresh(mc'[j])
  {
    var c := GenerateCollection(fileServiceKey, groups[k], records, collapse);
    BuiltAllAdd(mc, k, c, fileServiceKey, groups, records, collapse);
    assert k !in mc && c !in mc.Values;
    mc' := mc[k := c];
    order' := order + [c];
    KeyedAdd(mc, order, k, c, mc', order');
  }

  /** A new collection under a new key keeps the collections distinct and
      listed once each in order. */
  lemma KeyedAdd(mc: map<CollectKey, MediaCollection>, order: seq<MediaCollection>, k: CollectKey, c: MediaCollection,
                  mc': map<CollectKey, MediaCollection>, order': seq<MediaCollection>)
    requires k !in mc && c !in mc.Values && mc' == mc[k := c] && order' == order + [c]
    requires forall k, k' :: k in mc && k' in mc && k != k' ==> mc[k] != mc[k']
    requires NoDuplicates(order) && (forall i :: 0 <= i < |order| ==> order[i] in mc.Values)
    requires forall k :: k in mc ==> mc[k] in order
    ensures forall j, j' :: j in mc' && j' in mc' && j != j' ==> mc'[j] != mc'[j']
    ensures NoDuplicates(order') && (forall i :: 0 <= i < |order'| ==> order'[i] in mc'.Values)
    ensures forall j :: j in mc' ==> mc'[j] in order'
  {
    assert c !in order;
    forall i | 0 <= i < |order'| ensures order'[i] in mc'.Values {
      if i < |order| {
        assert order[i] in mc.Values;
        var j :| j in mc && mc[j] == order[i];
        assert mc'[j] == order[i];
      } else {
        assert mc'[k] == c;
      }
    }
  }

  /** One more built collection under a new key. */
  lemma BuiltAllAdd(mc: map<CollectKey, MediaCollection>, k: CollectKey, c: MediaCollection, fileServiceKey: ServiceKey,
                    groups: map<CollectKey, seq<MediaSingleton>>, records: Hash -> MediaRecord, collapse: Collapse)
    requires BuiltAll(mc, fileServiceKey, groups, records, collapse)
    requires k in groups && Built(c, fileServiceKey, groups[k], records, collapse)
    ensures BuiltAll(mc[k := c], fileServiceKey, groups, records, collapse)
  {
    var m := mc[k := c];
    forall j | j in m ensures m[j] in m.Values && j in groups && Built(m[j], fileServiceKey, groups[j], records, collapse) {
      if j != k {
        assert m[j] == mc[j];
      }
    }
  }

  /** _CalculateCollectionKeysToMedias: each singleton appended to the
      list of its collection key, in order. */
  method CalculateCollectionKeysToMedias(cb: seq<CollectBy>, medias: seq<MediaSingleton>, env: Env, records: Hash -> MediaRecord)
    returns (keysToMedias: map<CollectKey, seq<MediaSingleton>>)
    ensures keysToMedias == KeysToMedias(medias, KeyOf(cb, records, env))
  {
    var key := KeyOf(cb, records, env);
    keysToMedias := map[];
    var i := 0;
    while i < |medias|
      invariant 0 <= i <= |medias|
      invariant keysToMedias == KeysToMedias(medias[..i], key)
    {
      assert medias[..i + 1][..i] == medias[..i];
      var k := key(medias[i]);
      var sofar := if k in keysToMedias then keysToMedias[k] else [];
      keysToMedias := keysToMedias[k := sofar + [medias[i]]];
      i := i + 1;
    }
    assert medias[..i] == medias;
  }

  /** The lone singletons of the groups, by key. */
  function Lone(groups: map<CollectKey, seq<MediaSingleton>>): map<CollectKey, MediaSingleton>
  {
    map k | k in groups && |groups[k]| == 1 :: groups[k][0]
  }

  /** A grouped singleton is one of the singletons grouped. */
  lemma GroupMember(pool: seq<MediaSingleton>, key: MediaSingleton -> CollectKey, k: CollectKey, s: MediaSingleton)
    requires k in KeysToMedias(pool, key) && s in KeysToMedias(pool, key)[k]
    ensures s in Members(pool) && key(s) == k
  {
    WithKeyElements(key, k, pool);
  }

  /** A singleton grouped is in the group of its key. */
  lemma MemberGrouped(pool: seq<MediaSingleton>, key: MediaSingleton -> CollectKey, i: int)
    requires 0 <= i < |pool|
    ensures key(pool[i]) in KeysToMedias(pool, key) && pool[i] in KeysToMedias(pool, key)[key(pool[i])]
  {
    WithKeyContains(key, pool, i);
  }

  /** The singletons of the lone groups and the hashes of the new
      collections are together the hashes of the singletons grouped. */
  lemma GroupedHashes(pool: seq<MediaSingleton>, key: MediaSingleton -> CollectKey,
                      mc: map<CollectKey, MediaCollection>, fileServiceKey: ServiceKey)
    requires var groups := KeysToMedias(pool, key);
      && (forall k :: k in mc <==> k in groups && |groups[k]| > 1)
      && (forall k :: k in mc ==> Assembled(mc[k], fileServiceKey, groups[k]))
    ensures HashesOf(Lone(KeysToMedias(pool, key)).Values) + CollectedHashes(mc.Values) == HashesOf(Members(pool))
  {
    var groups := KeysToMedias(pool, key);
    var ms := Lone(groups);
    forall h | h in HashesOf(ms.Values) ensures h in HashesOf(Members(pool)) {
      var s :| s in ms.Values && s.hash == h;
      var k :| k in ms && ms[k] == s;
      GroupMember(pool, key, k, s);
    }
    forall h | h in CollectedHashes(mc.Values) ensures h in HashesOf(Members(pool)) {
      var c :| c in mc.Values && h in c.hashes;
      var k :| k in mc && mc[k] == c;
      CopiesHashes(c.sortedMedia, groups[k]);
      var s :| s in Members(groups[k]) && s.hash == h;
      GroupMember(pool, key, k, s);
    }
    forall h | h in HashesOf(Members(pool)) ensures h in HashesOf(ms.Values) + CollectedHashes(mc.Values) {
      var s :| s in Members(pool) && s.hash == h;
      var i :| 0 <= i < |pool| && pool[i] == s;
      MemberGrouped(pool, key, i);
      LoneOrShared(groups, ms, mc, key(s), s, fileServiceKey);
    }
  }

  /** A singleton of a group is the lone singleton of its key or its hash
      is in the key's collection. */
  lemma LoneOrShared(groups: map<CollectKey, seq<MediaSingleton>>, ms: map<CollectKey, MediaSingleton>,
                     mc: map<CollectKey, MediaCollection>, k: CollectKey, s: MediaSingleton, fileServiceKey: ServiceKey)
    requires ms == Lone(groups) && k in groups && s in groups[k]
    requires forall k :: k in mc <==> k in groups && |groups[k]| > 1
    requires forall k :: k in mc ==> Assembled(mc[k], fileServiceKey, groups[k])
    ensures s.hash in HashesOf(ms.Values) + CollectedHashes(mc.Values)
  {
    if |groups[k]| == 1 {
      assert groups[k][0] == s;
      assert ms[k] in ms.Values;
    } else {
      var c := mc[k];
      CopiesHashes(c.sortedMedia, groups[k]);
      assert s.hash in HashesOf(Members(groups[k]));
      assert c in mc.Values;
    }
  }

  /** The grouping of Collect: a key with one singleton keeps it, a key with
      more becomes one new collection. */
  method Regroup(pool: seq<MediaSingleton>, cb: seq<CollectBy>, env: Env, records: Hash -> MediaRecord, fileServiceKey: ServiceKey)
    returns (ms: map<CollectKey, MediaSingleton>, mc: map<CollectKey, MediaCollection>,
             a: seq<MediaSingleton>, b: seq<MediaCollection>)
    ensures NoDuplicates(a) && (forall s :: s in a <==> s in ms.Values)
    ensures NoDuplicates(b) && (forall c :: c in b <==> c in mc.Values)
    ensures var groups := KeysToMedias(pool, KeyOf(cb, records, env));
      && ms == Lone(groups)
      && (forall k :: k in mc <==> k in groups && |groups[k]| > 1)
      && (forall k :: k in mc ==> fresh(mc[k]) && Built(mc[k], fileServiceKey, groups[k], records, env.collapse))
      && (forall k, k' :: k in mc && k' in mc && k != k' ==> mc[k] != mc[k'])
    ensures HashesOf(ms.Values) + CollectedHashes(mc.Values) == HashesOf(Members(pool))
  {
    var groups := CalculateCollectionKeysToMedias(cb, pool, env, records);
    ms := Lone(groups);
    a := Enumerate(ms.Values);
    mc, b := BuildCollections(fileServiceKey, groups, records, env.collapse);
    GroupedHashes(pool, KeyOf(cb, records, env), mc, fileServiceKey);
  }

  /** What Collect leaves: with nothing to collect by, the singletons
      grouped and no collections; otherwise a key's lone singleton is kept
      under it, a key with more singletons has a collection of its own,
      and the list's singletons and collections are those the collect maps
      name. */
  ghost predicate Regrouped(cb: seq<CollectBy>, pool: seq<MediaSingleton>, groups: map<CollectKey, seq<MediaSingleton>>,
                            ss: set<MediaSingleton>, cs: set<MediaCollection>,
                            ms: map<CollectKey, MediaSingleton>, mc: map<CollectKey, MediaCollection>)
  {
    && (cb == [] ==> ss == Members(pool) && cs == {} && ms == map[] && mc == map[])
    && (cb != [] ==>
        && ms == Lone(groups)
        && (forall k :: k in mc <==> k in groups && |groups[k]| > 1)
        && (forall k, k' :: k in mc && k' in mc && k != k' ==> mc[k] != mc[k'])
        && ss == ms.Values && cs == mc.Values)
  }

  /** Every collection of a collect map is the one Collect builds from
      the group of its key. */
  ghost predicate BuiltAll(mc: map<CollectKey, MediaCollection>, fileServiceKey: ServiceKey,
                           groups: map<CollectKey, seq<MediaSingleton>>, records: Hash -> MediaRecord, collapse: Collapse)
    reads mc.Values
  {
    forall k :: k in mc ==> mc[k] in mc.Values && k in groups && Built(mc[k], fileServiceKey, groups[k], records, collapse)
  }


  /** Collect's work on values: the singletons to group, the new
      singletons and collections with their collect maps, and the order in
      which the list holds them. */
  method Recollect(ss0: set<MediaSingleton>, cs0: set<MediaCollection>, cb: seq<CollectBy>, env: Env,
                   records: Hash -> MediaRecord, fileServiceKey: ServiceKey)
    returns (pool: seq<MediaSingleton>, ss: set<MediaSingleton>, cs: set<MediaCollection>,
             ms: map<CollectKey, MediaSingleton>, mc: map<CollectKey, MediaCollection>,
             a: seq<MediaSingleton>, b: seq<MediaCollection>, ghost groups: map<CollectKey, seq<MediaSingleton>>)
    requires CollectionsValid(cs0, fileServiceKey)
    ensures NoDuplicates(pool) && ss0 <= Members(pool)
    ensures forall s :: s in pool && s !in ss0 ==> fresh(s)
    ensures HashesOf(Members(pool)) == HashesOf(ss0) + old(CollectedHashes(cs0))
    ensures HashesOf(ss) + CollectedHashes(cs) == HashesOf(Members(pool))
    ensures groups == KeysToMedias(pool, KeyOf(cb, records, env))
    ensures Regrouped(cb, pool, groups, ss, cs, ms, mc) && BuiltAll(mc, fileServiceKey, groups, records, env.collapse)
    ensures forall c :: c in cs ==> fresh(c)
    ensures CollectionsValid(cs, fileServiceKey) && MapsWithin(ms, mc, ss, cs)
    ensures Shape(Singles(a) + Colls(b), ss, cs)
  {
    var poolSet := Uncollect(ss0, cs0, fileServiceKey);
    pool := Enumerate(poolSet);
    assert Members(pool) == poolSet;
    groups := KeysToMedias(pool, KeyOf(cb, records, env));
    if |cb| > 0 {
      ms, mc, a, b := Regroup(pool, cb, env, records, fileServiceKey);
      ss, cs := ms.Values, mc.Values;
    } else {
      ss, cs, ms, mc, a, b := poolSet, {}, map[], map[], pool, [];
    }
    CollectedShape(a, b, ss, cs);
  }

  /** The hashes the collection index holds are the collections'. */
  lemma IndexedHashes(m: map<Hash, MediaCollection>, cs: set<MediaCollection>)
    requires IndexesCollections(m, cs)
    ensures m.Keys == CollectedHashes(cs)
  {
  }

  /** _RecalcHashes on the singletons and collections given. */
  method IndexMedia(ss: set<MediaSingleton>, cs: set<MediaCollection>, ghost all: set<Hash>)
    returns (hs: set<Hash>, sm: map<Hash, MediaSingleton>, cm: map<Hash, MediaCollection>)
    requires HashesOf(ss) + CollectedHashes(cs) == all
    ensures Indexes(sm, ss) && IndexesCollections(cm, cs) && hs == HashesOf(ss) + cm.Keys
    ensures hs == all
  {
    var ch, sh;
    ch, cm := IndexCollections(cs);
    sh, sm := IndexSingletons(ss);
    hs := ch + sh;
    IndexedHashes(cm, cs);
  }

  /** Each collection as a node. */
  function Colls(cs: seq<MediaCollection>): (r: seq<Media>)
    ensures |r| == |cs| && forall i :: 0 <= i < |cs| ==> r[i] == Coll(cs[i])
  {
    seq(|cs|, i requires 0 <= i < |cs| => Coll(cs[i]))
  }

  /** The list Collect builds, the singletons and then the collections,
      holds each of them once. */
  lemma CollectedShape(a: seq<MediaSingleton>, b: seq<MediaCollection>, ss: set<MediaSingleton>, cs: set<MediaCollection>)
    requires NoDuplicates(a) && (forall s :: s in a <==> s in ss)
    requires NoDuplicates(b) && (forall c :: c in b <==> c in cs)
    ensures Shape(Singles(a) + Colls(b), ss, cs)
  {
    var list := Singles(a) + Colls(b);
    SinglesListed(a);
    assert NoDuplicates(Colls(b));
    ConcatNoDuplicates(Singles(a), Colls(b));
    forall e | e in list ensures HeldBy(e, ss, cs) {
      var i :| 0 <= i < |list| && list[i] == e;
      if i >= |a| {
        assert e == Colls(b)[i - |a|];
      }
    }
    forall s | s in ss ensures Single(s) in list {
      var i :| 0 <= i < |a| && a[i] == s;
      assert list[i] == Single(s);
    }
    forall c | c in cs ensures Coll(c) in list {
      var i :| 0 <= i < |b| && b[i] == c;
      assert list[|a| + i] == Coll(c);
    }
  }

  /** Each singleton as a node. */
  function Singles(ms: seq<MediaSingleton>): (r: seq<Media>)
    ensures |r| == |ms| && forall i :: 0 <= i < |ms| ==> r[i] == Single(ms[i])
  {
    seq(|ms|, i requires 0 <= i < |ms| => Single(ms[i]))
  }

  lemma SinglesListed(ms: seq<MediaSingleton>)
    requires NoDuplicates(ms)
    ensures NoDuplicates(Singles(ms))
    ensures forall s :: s in Members(ms) ==> Single(s) in Singles(ms)
    ensures forall i :: 0 <= i < |ms| ==> Singles(ms)[i].Single? && Singles(ms)[i].s in Members(ms)
  {
    var nodes := Singles(ms);
    forall s | s in Members(ms) ensures Single(s) in nodes {
      var i :| 0 <= i < |ms| && ms[i] == s;
      assert nodes[i] == Single(s);
    }
  }

  /** A list of distinct singletons has the shape of a list of exactly
      those singletons and no collections. */
  lemma SinglesShape(ms: seq<MediaSingleton>)
    requires NoDuplicates(ms)
    ensures Shape(Singles(ms), Members(ms), {})
  {
    SinglesListed(ms);
    forall e | e in Singles(ms) ensures HeldBy(e, Members(ms), {}) {
      var i :| 0 <= i < |ms| && Singles(ms)[i] == e;
    }
  }

  lemma ResultHashes(ms: seq<MediaSingleton>, results: seq<Hash>)
    requires |ms| == |results| && forall i :: 0 <= i < |ms| ==> ms[i].hash == results[i]
    ensures HashesOf(Members(ms)) == set h | h in results
  {
    forall h | h in results ensures h in HashesOf(Members(ms)) {
      var i :| 0 <= i < |results| && results[i] == h;
      assert ms[i] in Members(ms);
    }
  }

  /** Whether a node is one of the singletons or collections. */
  predicate HeldBy(m: Media, ss: set<MediaSingleton>, cs: set<MediaCollection>)
  {
    (m.Single? && m.s in ss) || (m.Coll? && m.c in cs)
  }

  /** The list holds each of the singletons and collections once, and
      nothing else. */
  ghost predicate Shape(list: seq<Media>, ss: set<MediaSingleton>, cs: set<MediaCollection>)
  {
    && NoDuplicates(list)
    && (forall e :: e in list ==> HeldBy(e, ss, cs))
    && (forall s :: s in ss ==> Single(s) in list)
    && (forall c :: c in cs ==> Coll(c) in list)
  }

  /** Every one of the nodes is in the list. */
  predicate Listed(x: set<Media>, list: seq<Media>)
  {
    forall e :: e in x ==> e in list
  }

  ghost predicate CollectionsValid(cs: set<MediaCollection>, fileServiceKey: ServiceKey)
    reads cs
  {
    forall c :: c in cs ==> c.Valid() && c.fileServiceKey == fileServiceKey
  }

  /** No collection is the list or its sorted list (their classes differ;
      stating it spares the verifier that argument). */
  predicate Apart(cs: set<MediaCollection>, a: object, b: object)
  {
    forall c :: c in cs ==> c as object != a && c as object != b
  }

  /** The collect maps name only media of the list. */
  predicate MapsWithin<A, B>(ms: map<CollectKey, A>, mc: map<CollectKey, B>, ss: set<A>, cs: set<B>)
  {
    (forall k :: k in ms ==> ms[k] in ss) && (forall k :: k in mc ==> mc[k] in cs)
  }

  /** In a list of the right shape every node of some media is listed
      exactly when the media are among the list's. */
  lemma ShapeListed(list: seq<Media>, ss: set<MediaSingleton>, cs: set<MediaCollection>,
                    xs: set<MediaSingleton>, xc: set<MediaCollection>)
    requires Shape(list, ss, cs)
    ensures Listed(Nodes(xs, xc), list) <==> xs <= ss && xc <= cs
  {
    var x := Nodes(xs, xc);
    if Listed(x, list) {
      forall s | s in xs ensures s in ss {
        assert Single(s) in x;
      }
      forall c | c in xc ensures c in cs {
        assert Coll(c) in x;
      }
    }
    if xs <= ss && xc <= cs {
      forall e | e in x ensures e in list {
        assert HeldBy(e, ss, cs);
      }
    }
  }

  /** Removing nodes from a list of the right shape leaves the list of
      what remains. */
  lemma ShapeRemoval(list: seq<Media>, ss: set<MediaSingleton>, cs: set<MediaCollection>,
                     xs: set<MediaSingleton>, xc: set<MediaCollection>)
    requires Shape(list, ss, cs)
    ensures Shape(Remaining(list, Nodes(xs, xc)), ss - xs, cs - xc)
  {
    var x := Nodes(xs, xc);
    var after := Remaining(list, x);
    RemainingKeepsNoDuplicates(list, x);
    forall s | s in ss - xs ensures Single(s) in after {
      assert Single(s) in list && Single(s) !in x;
      var j :| 0 <= j < |list| && list[j] == Single(s);
    }
    forall c | c in cs - xc ensures Coll(c) in after {
      assert Coll(c) in list && Coll(c) !in x;
      var j :| 0 <= j < |list| && list[j] == Coll(c);
    }
  }

  /** Appending new singletons to a list of the right shape. */
  lemma ShapeAppend(list: seq<Media>, ss: set<MediaSingleton>, cs: set<MediaCollection>, ns: seq<MediaSingleton>)
    requires Shape(list, ss, cs)
    requires NoDuplicates(ns) && forall s :: s in ns ==> s !in ss
    ensures Shape(list + Singles(ns), ss + Members(ns), cs)
  {
    var all := list + Singles(ns);
    SinglesListed(ns);
    forall j, k | 0 <= j < k < |all| ensures all[j] != all[k] {
      if j < |list| <= k {
        assert list[j] in list;
      }
    }
    forall e | e in all ensures HeldBy(e, ss + Members(ns), cs) {
      if e in Singles(ns) {
        var i :| 0 <= i < |ns| && Singles(ns)[i] == e;
        assert e.s in Members(ns);
      }
    }
  }

  /** The test of ListeningMediaList.AddMediaResults' loop: the hashes of
      the media results the list does not know, in order. */
  method FilterUnknown(results: seq<Hash>, known: set<Hash>) returns (u: seq<Hash>)
    ensures u == Unknown(results, known)
  {
    u := [];
    var i := 0;
    while i < |results|
      invariant 0 <= i <= |results|
      invariant u == Unknown(results[..i], known)
    {
      assert results[..i + 1][..i] == results[..i];
      if results[i] !in known {
        u := u + [results[i]];
      }
      i := i + 1;
    }
    assert results[..i] == results;
  }

  /** A fresh singleton for each media result whose hash is not known. */
  method UnknownSingletons(results: seq<Hash>, known: set<Hash>) returns (newMedia: seq<MediaSingleton>)
    ensures |newMedia| == |Unknown(results, known)|
    ensures forall j :: 0 <= j < |newMedia| ==> newMedia[j].hash == Unknown(results, known)[j] && fresh(newMedia[j])
    ensures NoDuplicates(newMedia)
  {
    var u := FilterUnknown(results, known);
    newMedia := GenerateSingletons(u);
  }

  /** The index updates of AddMedia with append: each new singleton's hash
      is added and indexed to it, later ones winning. */
  method IndexNew(hashes: set<Hash>, index: map<Hash, MediaSingleton>, newMedia: seq<MediaSingleton>, ghost ss: set<MediaSingleton>)
    returns (hashes': set<Hash>, index': map<Hash, MediaSingleton>)
    requires Indexes(index, ss)
    ensures hashes' == hashes + HashesOf(Members(newMedia))
    ensures Indexes(index', ss + Members(newMedia))
  {
    hashes', index' := hashes, index;
    var i := 0;
    while i < |newMedia|
      invariant 0 <= i <= |newMedia|
      invariant hashes' == hashes + HashesOf(Members(newMedia[..i]))
      invariant Indexes(index', ss + Members(newMedia[..i]))
    {
      assert Members(newMedia[..i + 1]) == Members(newMedia[..i]) + {newMedia[i]};
      var s := newMedia[i];
      hashes' := hashes' + {s.hash};
      index' := index'[s.hash := s];
      i := i + 1;
    }
    assert newMedia[..i] == newMedia;
  }

  /** SortedList.remove_items on the nodes of a media list, in terms of
      what remains. */
  method RemoveNodes(sl: SortedList<Media>, x: set<Media>) returns (r: Outcome)
    requires sl.Valid() && NoDuplicates(sl.sortedList)
    modifies sl`sortedList, sl`itemsToIndices
    ensures sl.Valid()
    ensures r == Pass <==> Listed(x, old(sl.sortedList))
    ensures r.Fail? ==> r.error == DataMissing && sl.sortedList == old(sl.sortedList)
    ensures r == Pass ==> sl.sortedList == Remaining(old(sl.sortedList), x)
  {
    r := sl.RemoveItems(x);
    if r == Pass {
      RemoveByPositionsRemovesItems(old(sl.sortedList), x);
    }
  }

  /** SortedList.append_items on the nodes of a media list. */
  method AppendNodes(sl: SortedList<Media>, ns: seq<Media>)
    requires sl.Valid()
    modifies sl`sortedList, sl`itemsToIndices
    ensures sl.Valid() && sl.sortedList == old(sl.sortedList) + ns
  {
    sl.AppendItems(ns);
  }

  lemma HashesOfUnion(a: set<MediaSingleton>, b: set<MediaSingleton>)
    ensures HashesOf(a + b) == HashesOf(a) + HashesOf(b)
  {
  }

  /** The hash set stays the singletons' and the collections' hashes when
      the hashes of new singletons are added. */
  lemma HashesAppend(hs: set<Hash>, ss: set<MediaSingleton>, ns: set<MediaSingleton>, ks: set<Hash>, h: set<Hash>)
    requires hs == HashesOf(ss) + ks && h == hs + HashesOf(ns)
    ensures h == HashesOf(ss + ns) + ks
  {
    HashesOfUnion(ss, ns);
  }

  /** The loop of MediaList.DeletePending: every collection recomputes
      its aggregates; no collection's children change. */
  method DeletePendingIn(cs: set<MediaCollection>, ghost fileServiceKey: ServiceKey, records: Hash -> MediaRecord, collapse: Collapse)
    requires CollectionsValid(cs, fileServiceKey)
    modifies cs
    ensures CollectionsValid(cs, fileServiceKey)
    ensures forall c :: c in cs ==>
      c.Current(records, collapse) && c.sortedMedia == old(c.sortedMedia) && c.hashes == old(c.hashes)
  {
    var left := cs;
    while left != {}
      invariant left <= cs
      invariant CollectionsValid(cs, fileServiceKey)
      invariant forall c :: c in cs ==> c.sortedMedia == old(c.sortedMedia) && c.hashes == old(c.hashes)
      invariant forall c :: c in cs - left ==> c.Current(records, collapse)
      decreases left
    {
      var c :| c in left;
      c.DeletePending(records, collapse);
      left := left - {c};
    }
  }

  /** The loop of MediaList.ResetService for another service's reset:
      every collection recomputes its aggregates and keeps its children. */
  method ResetIn(cs: set<MediaCollection>, ghost fileServiceKey: ServiceKey, serviceKey: ServiceKey,
                 records: Hash -> MediaRecord, collapse: Collapse)
    requires CollectionsValid(cs, fileServiceKey) && serviceKey != fileServiceKey
    modifies cs
    ensures CollectionsValid(cs, fileServiceKey)
    ensures forall c :: c in cs ==>
      c.Current(records, collapse) && c.sortedMedia == old(c.sortedMedia) && c.hashes == old(c.hashes)
  {
    var left := cs;
    while left != {}
      invariant left <= cs
      invariant CollectionsValid(cs, fileServiceKey)
      invariant forall c :: c in cs ==> c.sortedMedia == old(c.sortedMedia) && c.hashes == old(c.hashes)
      invariant forall c :: c in cs - left ==> c.Current(records, collapse)
      decreases left
    {
      var c :| c in left;
      c.ResetService(serviceKey, records, collapse);
      left := left - {c};
    }
  }

  /** MediaCollection.ProcessContentUpdate, as the loop over the
      collections needs it. */
  method ProcessOne(c: MediaCollection, serviceKey: ServiceKey, u: ContentUpdate, env: Env, records: Hash -> MediaRecord)
    requires c.Valid()
    modifies c
    ensures c.Valid() && c.Current(records, env.collapse)
    ensures !HidesFiles(serviceKey, c.fileServiceKey, u, env) ==> c.sortedMedia == old(c.sortedMedia) && c.hashes == old(c.hashes)
    ensures HidesFiles(serviceKey, c.fileServiceKey, u, env) ==>
      c.sortedMedia == Remaining(old(c.sortedMedia), Affected(old(c.hashesToSingleton), u.Hashes()))
  {
    c.ProcessContentUpdate(serviceKey, u, env, records);
  }

  /** A collection either was left alone (children and index) or dropped
      the indexed singletons of the hashes. */
  ghost predicate LeftOrThinned(before: seq<MediaSingleton>, beforeIndex: map<Hash, MediaSingleton>,
                                after: seq<MediaSingleton>, afterIndex: map<Hash, MediaSingleton>, hs: set<Hash>)
  {
    (after == before && afterIndex == beforeIndex) || after == Remaining(before, Affected(beforeIndex, hs))
  }

  /** With no two children sharing a hash, a collection that processed a
      hiding delete or was left alone ends, once the list removes the
      hashes from every collection, as if it had dropped them once: without
      any child of the hashes. */
  lemma HidingTwice(before: seq<MediaSingleton>, beforeIndex: map<Hash, MediaSingleton>,
                    mid: seq<MediaSingleton>, midIndex: map<Hash, MediaSingleton>, hs: set<Hash>)
    requires Indexes(beforeIndex, Members(before)) && Indexes(midIndex, Members(mid))
    requires DistinctHashes(Members(before))
    requires LeftOrThinned(before, beforeIndex, mid, midIndex, hs)
    ensures Remaining(mid, Affected(midIndex, hs)) == Remaining(before, Affected(beforeIndex, hs))
    ensures forall s :: s in Remaining(before, Affected(beforeIndex, hs)) ==> s.hash !in hs
  {
    var once := Remaining(before, Affected(beforeIndex, hs));
    RemovalClears(Members(before), beforeIndex, hs);
    assert forall s :: s in once ==> s in Members(before) - Affected(beforeIndex, hs);
    if mid != before || midIndex != beforeIndex {
      assert mid == once;
      forall h | h in midIndex ensures h !in hs {
        assert h in HashesOf(Members(mid));
        var s :| s in Members(mid) && s.hash == h;
      }
      assert Affected(midIndex, hs) == {};
      RemainingAll(mid, {});
    }
  }

  /** The loop of MediaList.ProcessContentUpdate over the collections the
      update's hashes index: each processes the update. */
  method ProcessIn(cs: set<MediaCollection>, ghost all: set<MediaCollection>, ghost fileServiceKey: ServiceKey,
                   serviceKey: ServiceKey, u: ContentUpdate, env: Env, records: Hash -> MediaRecord)
    requires cs <= all && CollectionsValid(all, fileServiceKey)
    modifies cs
    ensures CollectionsValid(all, fileServiceKey)
    ensures forall c :: c in cs ==> c.Current(records, env.collapse)
    ensures !HidesFiles(serviceKey, fileServiceKey, u, env) ==>
      forall c :: c in all ==> c.sortedMedia == old(c.sortedMedia) && c.hashes == old(c.hashes)
    ensures HidesFiles(serviceKey, fileServiceKey, u, env) ==>
      forall c :: c in all ==>
        LeftOrThinned(old(c.sortedMedia), old(c.hashesToSingleton), c.sortedMedia, c.hashesToSingleton, u.Hashes())
  {
    ghost var snap := Children(all);
    var left := cs;
    while left != {}
      invariant ProcessProgress(cs, all, left, snap, fileServiceKey, serviceKey, u, env, records)
      decreases left
    {
      var c :| c in left;
      ProcessStep(cs, all, left, c, snap, fileServiceKey, serviceKey, u, env, records);
      left := left - {c};
    }
  }

  /** The children, index and hashes of each collection. */
  ghost function Children(cs: set<MediaCollection>): map<MediaCollection, (seq<MediaSingleton>, map<Hash, MediaSingleton>, set<Hash>)>
    reads cs
  {
    map c | c in cs :: (c.sortedMedia, c.hashesToSingleton, c.hashes)
  }

  /** A collection has processed the update: its aggregates are current,
      and a hiding delete dropped the indexed singletons of the hashes,
      while any other update kept its children and hashes. */
  ghost predicate Processed(c: MediaCollection, before: (seq<MediaSingleton>, map<Hash, MediaSingleton>, set<Hash>),
                            hides: bool, hs: set<Hash>, records: Hash -> MediaRecord, collapse: Collapse)
    reads c
  {
    && c.Current(records, collapse)
    && (hides ==> c.sortedMedia == Remaining(before.0, Affected(before.1, hs)))
    && (!hides ==> c.sortedMedia == before.0 && c.hashes == before.2)
  }

  /** A collection not yet reached. */
  ghost predicate Untouched(c: MediaCollection, before: (seq<MediaSingleton>, map<Hash, MediaSingleton>, set<Hash>))
    reads c
  {
    c.sortedMedia == before.0 && c.hashesToSingleton == before.1 && c.hashes == before.2
  }

  /** The loop invariant of ProcessIn. */
  ghost predicate ProcessProgress(cs: set<MediaCollection>, all: set<MediaCollection>, left: set<MediaCollection>,
                                  snap: map<MediaCollection, (seq<MediaSingleton>, map<Hash, MediaSingleton>, set<Hash>)>,
                                  fileServiceKey: ServiceKey, serviceKey: ServiceKey, u: ContentUpdate, env: Env,
                                  records: Hash -> MediaRecord)
    reads all
  {
    && left <= cs <= all && CollectionsValid(all, fileServiceKey)
    && (forall c :: c in cs - left ==>
          c in snap && Processed(c, snap[c], HidesFiles(serviceKey, fileServiceKey, u, env), u.Hashes(), records, env.collapse))
    && (forall c :: c in all && c !in cs - left ==> c in snap && Untouched(c, snap[c]))
  }

  /** One step of ProcessIn: collection c processes the update. */
  method ProcessStep(cs: set<MediaCollection>, ghost all: set<MediaCollection>, left: set<MediaCollection>, c: MediaCollection,
                     ghost snap: map<MediaCollection, (seq<MediaSingleton>, map<Hash, MediaSingleton>, set<Hash>)>,
                     ghost fileServiceKey: ServiceKey, serviceKey: ServiceKey, u: ContentUpdate, env: Env,
                     records: Hash -> MediaRecord)
    requires c in left && ProcessProgress(cs, all, left, snap, fileServiceKey, serviceKey, u, env, records)
    modifies c
    ensures ProcessProgress(cs, all, left - {c}, snap, fileServiceKey, serviceKey, u, env, records)
  {
    ProcessOne(c, serviceKey, u, env, records);
  }

  /** Whether one of the service updates resets the service. */
  predicate ResetsService(updates: seq<(ServiceKey, ServiceUpdateAction)>, key: ServiceKey)
  {
    exists i :: 0 <= i < |updates| && updates[i] == (key, ResetUpdate)
  }

  lemma ResetsServiceStep(updates: seq<(ServiceKey, ServiceUpdateAction)>, i: nat, key: ServiceKey)
    requires i < |updates|
    ensures ResetsService(updates[..i + 1], key) <==> ResetsService(updates[..i], key) || updates[i] == (key, ResetUpdate)
  {
    var before, after := updates[..i], updates[..i + 1];
    assert forall j :: 0 <= j < i ==> after[j] == before[j];
    assert after[i] == updates[i];
  }

  /** The sort a list or collection sorts by: the one given, or the one
      it has. */
  function Chosen(ms: Option<MediaSort>, stored: MediaSort): MediaSort
  {
    if ms.Some? then ms.value else stored
  }

  /** Both sorts of Sort have keys: neither the fallback nor the sort
      chosen is an unknown system sort. */
  predicate SortSucceeds(ms: Option<MediaSort>, stored: MediaSort, fallback: MediaSort)
  {
    HasKey(fallback) && HasKey(Chosen(ms, stored))
  }

  /** What a collection's successful sort leaves: both sorts have keys,
      the given keys are those the specs give each child, and the children
      are the old ones sorted stably by the fallback key and then by the
      stored sort's key. */
  ghost predicate SortedChildren(c: MediaCollection, before: seq<MediaSingleton>, fallback: MediaSort, env: Env,
                                 records: Hash -> MediaRecord, fallbackDraws: MediaSingleton -> real, draws: MediaSingleton -> real,
                                 fallbackKey: MediaSingleton -> SortKey, key: MediaSingleton -> SortKey)
    reads c
  {
    && c.FallbackSpec(fallback, env).Ok? && c.MainSpec(env).Ok?
    && (forall s :: s in before ==>
          && KeyFits(fallbackKey(s), c.FallbackSpec(fallback, env).value.0, SingletonView(s, records), env, fallbackDraws(s))
          && KeyFits(key(s), c.MainSpec(env).value.0, SingletonView(s, records), env, draws(s)))
    && c.sortedMedia == StableSort(KeyLess, key, c.MainSpec(env).value.1,
         StableSort(KeyLess, fallbackKey, c.FallbackSpec(fallback, env).value.1, before))
  }

  /** MediaCollection.Sort, as the loop over the collections needs it. */
  method SortOne(c: MediaCollection, ms: Option<MediaSort>, fallback: MediaSort, env: Env, records: Hash -> MediaRecord,
                 fallbackDraws: MediaSingleton -> real, draws: MediaSingleton -> real)
    returns (r: Outcome, ghost fallbackKey: MediaSingleton -> SortKey, ghost key: MediaSingleton -> SortKey)
    requires c.Valid()
    modifies c
    ensures c.Valid() && c.hashes == old(c.hashes) && c.internals == old(c.internals)
    ensures multiset(c.sortedMedia) == multiset(old(c.sortedMedia))
    ensures r == Pass <==> SortSucceeds(ms, old(c.mediaSort), fallback)
    ensures c.mediaSort == Chosen(ms, old(c.mediaSort))
    ensures r == Pass ==> SortedChildren(c, old(c.sortedMedia), fallback, env, records, fallbackDraws, draws, fallbackKey, key)
  {
    r, fallbackKey, key := c.Sort(ms, fallback, env, records, fallbackDraws, draws);
  }

  /** The loop of MediaList.Sort over the collections, stopping at the
      first that fails; on success every collection is sorted by the keys
      given for it. */
  method SortCollections(cs: set<MediaCollection>, ghost fileServiceKey: ServiceKey, ms: Option<MediaSort>, fallback: MediaSort,
                         env: Env, records: Hash -> MediaRecord, fallbackDraws: MediaSingleton -> real, draws: MediaSingleton -> real)
    returns (r: Outcome, ghost fallbackKeys: map<MediaCollection, MediaSingleton -> SortKey>,
             ghost keys: map<MediaCollection, MediaSingleton -> SortKey>)
    requires CollectionsValid(cs, fileServiceKey)
    modifies cs
    ensures CollectionsValid(cs, fileServiceKey)
    ensures forall c :: c in cs ==> c.hashes == old(c.hashes) && c.internals == old(c.internals)
    ensures forall c :: c in cs ==> multiset(c.sortedMedia) == multiset(old(c.sortedMedia))
    ensures r == Pass <==> forall c :: c in cs ==> SortSucceeds(ms, old(c.mediaSort), fallback)
    ensures r == Pass ==> forall c :: c in cs ==> c.mediaSort == Chosen(ms, old(c.mediaSort))
    ensures r == Pass ==> forall c :: c in cs ==>
      c in fallbackKeys && c in keys &&
      SortedChildren(c, old(c.sortedMedia), fallback, env, records, fallbackDraws, draws, fallbackKeys[c], keys[c])
  {
    fallbackKeys, keys := map[], map[];
    ghost var snap := Snapshot(cs);
    var left := cs;
    while left != {}
      invariant SortProgress(cs, left, snap, fileServiceKey, ms, fallback, env, records, fallbackDraws, draws, fallbackKeys, keys)
      decreases left
    {
      var c: MediaCollection :| c in left;
      var outcome;
      outcome, fallbackKeys, keys := SortStep(cs, left, c, snap, fileServiceKey, ms, fallback, env, records, fallbackDraws, draws,
                                              fallbackKeys, keys);
      if outcome.Fail? {
        return outcome, fallbackKeys, keys;
      }
      left := left - {c};
    }
    r := Pass;
  }

  /** What SortCollections needs of a collection from before the sort:
      its children, stored sort, hashes and aggregates. */
  ghost function Snapshot(cs: set<MediaCollection>): map<MediaCollection, (seq<MediaSingleton>, MediaSort, set<Hash>, Internals)>
    reads cs
  {
    map c | c in cs :: (c.sortedMedia, c.mediaSort, c.hashes, c.internals)
  }

  /** A collection is well formed and keeps its hashes, aggregates and
      children as a multiset. */
  ghost predicate Kept(c: MediaCollection, before: (seq<MediaSingleton>, MediaSort, set<Hash>, Internals), fileServiceKey: ServiceKey)
    reads c
  {
    && c.Valid() && c.fileServiceKey == fileServiceKey
    && c.hashes == before.2 && c.internals == before.3 && multiset(c.sortedMedia) == multiset(before.0)
  }

  /** A collection has sorted successfully by the keys given for it. */
  ghost predicate Done(c: MediaCollection, before: (seq<MediaSingleton>, MediaSort, set<Hash>, Internals),
                       ms: Option<MediaSort>, fallback: MediaSort, env: Env,
                       records: Hash -> MediaRecord, fallbackDraws: MediaSingleton -> real, draws: MediaSingleton -> real,
                       fallbackKey: MediaSingleton -> SortKey, key: MediaSingleton -> SortKey)
    reads c
  {
    && SortSucceeds(ms, before.1, fallback) && c.mediaSort == Chosen(ms, before.1)
    && SortedChildren(c, before.0, fallback, env, records, fallbackDraws, draws, fallbackKey, key)
  }

  /** Every collection is kept. */
  ghost predicate SortKept(cs: set<MediaCollection>, snap: map<MediaCollection, (seq<MediaSingleton>, MediaSort, set<Hash>, Internals)>,
                           fileServiceKey: ServiceKey)
    reads cs
  {
    forall c :: c in cs ==> c in snap && Kept(c, snap[c], fileServiceKey)
  }

  /** The loop invariant of SortCollections: the collections done sorted
      successfully, the others as they were. */
  ghost predicate SortProgress(cs: set<MediaCollection>, left: set<MediaCollection>,
                               snap: map<MediaCollection, (seq<MediaSingleton>, MediaSort, set<Hash>, Internals)>,
                               fileServiceKey: ServiceKey, ms: Option<MediaSort>, fallback: MediaSort, env: Env,
                               records: Hash -> MediaRecord, fallbackDraws: MediaSingleton -> real, draws: MediaSingleton -> real,
                               fallbackKeys: map<MediaCollection, MediaSingleton -> SortKey>,
                               keys: map<MediaCollection, MediaSingleton -> SortKey>)
    reads cs
  {
    && left <= cs && SortKept(cs, snap, fileServiceKey)
    && (forall c :: c in cs - left ==>
          c in snap && c in fallbackKeys && c in keys &&
          Done(c, snap[c], ms, fallback, env, records, fallbackDraws, draws, fallbackKeys[c], keys[c]))
    && (forall c :: c in left ==> c in snap && c.mediaSort == snap[c].1 && c.sortedMedia == snap[c].0)
  }

  /** One step of SortCollections: collection c sorts. */
  method SortStep(cs: set<MediaCollection>, left: set<MediaCollection>, c: MediaCollection,
                  ghost snap: map<MediaCollection, (seq<MediaSingleton>, MediaSort, set<Hash>, Internals)>,
                  ghost fileServiceKey: ServiceKey, ms: Option<MediaSort>, fallback: MediaSort, env: Env,
                  records: Hash -> MediaRecord, fallbackDraws: MediaSingleton -> real, draws: MediaSingleton -> real,
                  ghost fallbackKeys: map<MediaCollection, MediaSingleton -> SortKey>,
                  ghost keys: map<MediaCollection, MediaSingleton -> SortKey>)
    returns (r: Outcome, ghost fallbackKeys': map<MediaCollection, MediaSingleton -> SortKey>,
             ghost keys': map<MediaCollection, MediaSingleton -> SortKey>)
    requires c in left
    requires SortProgress(cs, left, snap, fileServiceKey, ms, fallback, env, records, fallbackDraws, draws, fallbackKeys, keys)
    modifies c
    ensures SortKept(cs, snap, fileServiceKey)
    ensures r == Pass <==> SortSucceeds(ms, snap[c].1, fallback)
    ensures r == Pass ==>
      SortProgress(cs, left - {c}, snap, fileServiceKey, ms, fallback, env, records, fallbackDraws, draws, fallbackKeys', keys')
  {
    ghost var fk, k;
    r, fk, k := SortOne(c, ms, fallback, env, records, fallbackDraws, draws);
    fallbackKeys', keys' := fallbackKeys[c := fk], keys[c := k];
  }

  /** The sort key of the nodes of a media list, each keyed by what it
      reports to the sorts. */
  method NodesKey(nodes: seq<Media>, spec: KeySpec, env: Env, records: Hash -> MediaRecord, draws: Media -> real)
    returns (k: Media -> SortKey)
    requires NoDuplicates(nodes)
    ensures forall m :: m in nodes ==> KeyFits(k(m), spec, View(m, records), env, draws(m))
  {
    var views := NodeViews(nodes, records);
    var keys := NodeKeys(nodes, views, spec, env, draws);
    k := (x: Media) => if x in keys then keys[x] else Num(-1.0);
    forall m | m in nodes
      ensures KeyFits(k(m), spec, View(m, records), env, draws(m))
    {
      var i :| 0 <= i < |nodes| && nodes[i] == m;
    }
  }

  /** One stable sort of a media list's nodes by the key of a key spec,
      or, for a sort without one, the failure the source raises. */
  method SortNodes(sl: SortedList<Media>, spec: Result<(KeySpec, bool)>, env: Env, records: Hash -> MediaRecord, draws: Media -> real)
    returns (r: Outcome, ghost key: Media -> SortKey)
    requires sl.Valid() && NoDuplicates(sl.sortedList)
    modifies sl`sortedList, sl`itemsToIndices, sl`sortKey, sl`sortReverse
    ensures sl.Valid() && NoDuplicates(sl.sortedList) && multiset(sl.sortedList) == multiset(old(sl.sortedList))
    ensures r == Pass <==> spec.Ok?
    ensures spec.Err? ==> sl.sortedList == old(sl.sortedList)
    ensures spec.Ok? ==> forall m :: m in old(sl.sortedList) ==> KeyFits(key(m), spec.value.0, old(View(m, records)), env, draws(m))
    ensures spec.Ok? ==> sl.sortedList == StableSort(KeyLess, key, spec.value.1, old(sl.sortedList))
  {
    key := x => Num(0.0);
    if spec.Err? {
      return Fail(spec.error), key;
    }
    var nodes := sl.sortedList;
    var k := NodesKey(nodes, spec.value.0, env, records, draws);
    key := k;
    sl.Sort(Some(k), spec.value.1);
    PermutationKeepsNoDuplicates(nodes, sl.sortedList);
    r := Pass;
  }

  /** The nodes' views survive a change that leaves their collections
      alone. */
  twostate lemma ViewsKept(a: (seq<Media>, Hash -> MediaRecord))
    requires forall i :: 0 <= i < |a.0| && a.0[i].Coll? ==> unchanged(a.0[i].c)
    ensures forall m :: m in a.0 ==> View(m, a.1) == old(View(m, a.1))
  {
  }

  /** The two sorts of a media list's nodes: stably by the fallback
      sort's key, then by the stored sort's key; a sort without a key stops
      it where the source raises. */
  method SortList(sl: SortedList<Media>, fallback: Result<(KeySpec, bool)>, main: Result<(KeySpec, bool)>,
                  env: Env, records: Hash -> MediaRecord, fallbackDraws: Media -> real, draws: Media -> real)
    returns (r: Outcome, ghost fallbackKey: Media -> SortKey, ghost key: Media -> SortKey)
    requires sl.Valid() && NoDuplicates(sl.sortedList)
    modifies sl`sortedList, sl`itemsToIndices, sl`sortKey, sl`sortReverse
    ensures sl.Valid() && multiset(sl.sortedList) == multiset(old(sl.sortedList))
    ensures r == Pass <==> fallback.Ok? && main.Ok?
    ensures fallback.Err? ==> sl.sortedList == old(sl.sortedList)
    ensures fallback.Ok? && main.Err? ==>
      sl.sortedList == StableSort(KeyLess, fallbackKey, fallback.value.1, old(sl.sortedList))
    ensures r == Pass ==>
      forall m :: m in old(sl.sortedList) ==>
        && KeyFits(fallbackKey(m), fallback.value.0, old(View(m, records)), env, fallbackDraws(m))
        && KeyFits(key(m), main.value.0, old(View(m, records)), env, draws(m))
    ensures r == Pass ==>
      sl.sortedList == StableSort(KeyLess, key, main.value.1, StableSort(KeyLess, fallbackKey, fallback.value.1, old(sl.sortedList)))
  {
    key := x => Num(0.0);
    var before := sl.sortedList;
    r, fallbackKey := SortNodes(sl, fallback, env, records, fallbackDraws);
    if r.Fail? {
      return;
    }
    var middle := sl.sortedList;
    ViewsKept((before, records));
    r, key := SortNodes(sl, main, env, records, draws);
    forall m | m in before ensures m in middle {
      assert m in multiset(before);
    }
  }

  /** A non-empty list holds its first node. */
  lemma FirstListed<T>(s: seq<T>)
    ensures |s| > 0 ==> s[0] in s
  {
  }

  /** The parts of the list _GetMedia searches. */
  datatype Discriminator = AnyMedia | SingletonsOnly | CollectionsOnly

  /** The position after i in a list of n, wrapping to the first. */
  function NextIndex(i: nat, n: nat): (j: nat)
    requires i < n
    ensures j < n
  {
    if i + 1 == n then 0 else i + 1
  }

  /** The position before i in a list of n, wrapping to the last. */
  function PreviousIndex(i: nat, n: nat): (j: nat)
    requires i < n
    ensures j < n
  {
    if i == 0 then n - 1 else i - 1
  }

  /** In a list without duplicates, the previous node of the next node is
      the node itself, and the other way round. */
  lemma NextThenPrevious<T>(s: seq<T>, x: T)
    requires NoDuplicates(s) && x in s
    ensures var n := s[NextIndex(IndexMap(s)[x], |s|)];
      n in IndexMap(s) && s[PreviousIndex(IndexMap(s)[n], |s|)] == x
    ensures var p := s[PreviousIndex(IndexMap(s)[x], |s|)];
      p in IndexMap(s) && s[NextIndex(IndexMap(s)[p], |s|)] == x
  {
    var m := IndexMap(s);
    var i := m[x];
    var j, k := NextIndex(i, |s|), PreviousIndex(i, |s|);
    IndexMapNoDuplicates(s, j);
    IndexMapNoDuplicates(s, k);
    assert m[s[j]] == j && m[s[k]] == k;
    assert PreviousIndex(j, |s|) == i && NextIndex(k, |s|) == i;
  }

  // ---------------------------------------------------------------------
  // Pruning the collect maps

  /** The collect map without the entries whose media were removed. */
  function Prune<T>(m: map<CollectKey, T>, removed: set<T>): (r: map<CollectKey, T>)
    ensures forall k :: k in r <==> k in m && m[k] !in removed
    ensures forall k :: k in r ==> r[k] == m[k]
  {
    map k | k in m && m[k] !in removed :: m[k]
  }

  /** Whether an unpacked collect key's second part, its rating slice or
      None, is one of the removed media: a rating slice never is. */
  predicate RatingPartRemoved<T>(ratingKey: Option<RatingSlice>, removed: set<T>)
  {
    false
  }

  /** The pruning as _RemoveMediaDirectly writes it: iterating a dict
      yields its keys, so `( key, media )` unpacks each collect key into its
      namespace part and its rating part, and the membership test is asked
      of the rating part. */
  function PruneAsWritten<T>(m: map<CollectKey, T>, removed: set<T>): map<CollectKey, T>
  {
    var keysToRemove := set k | k in m && RatingPartRemoved(k.ratingKey, removed);
    m - keysToRemove
  }

  /** The pruning as written keeps every entry, the stale ones included. */
  lemma PruneAsWrittenKeepsStale<T>(m: map<CollectKey, T>, removed: set<T>, k: CollectKey)
    requires k in m && m[k] in removed
    ensures k in PruneAsWritten(m, removed) && PruneAsWritten(m, removed)[k] in removed
  {
    assert !RatingPartRemoved(k.ratingKey, removed);
  }

  /** The corrected pruning leaves no entry naming a removed media, and
      unlike the pruning as written it differs from the map whenever an
      entry is stale. */
  lemma PruneDropsStale<T>(m: map<CollectKey, T>, removed: set<T>, k: CollectKey)
    requires k in m && m[k] in removed
    ensures k !in Prune(m, removed) && Prune(m, removed) != PruneAsWritten(m, removed)
  {
    PruneAsWrittenKeepsStale(m, removed, k);
  }

  /** The nodes of some singletons and collections. */
  function Nodes(ss: set<MediaSingleton>, cs: set<MediaCollection>): set<Media>
  {
    (set s | s in ss :: Single(s)) + (set c | c in cs :: Coll(c))
  }

  // The reset of the list's own file service

  /** _RemoveMediaDirectly as ResetService calls it on a reset of the
      list's own file service: it is handed the list's own two sets, which
      are sets already and so are not copied; the in-place differences
      empty them, and the nodes it then removes from the sorted list are
      those of the sets it was handed, now empty. The result is the nodes,
      singletons and collections left. */
  function ResetOwnAsWritten(nodes: seq<Media>, ss: set<MediaSingleton>, cs: set<MediaCollection>)
    : (seq<Media>, set<MediaSingleton>, set<MediaCollection>)
  {
    var handed := (ss - ss, cs - cs);
    (Remaining(nodes, Nodes(handed.0, handed.1)), handed.0, handed.1)
  }

  /** As written, the reset empties both sets but leaves every node in the
      sorted list, so a list that had nodes ends with nodes no set holds;
      MediaList.ResetService, which removes the nodes of the sets as they
      were, empties the list. */
  lemma ResetOwnAsWrittenKeepsNodes(nodes: seq<Media>, ss: set<MediaSingleton>, cs: set<MediaCollection>)
    ensures ResetOwnAsWritten(nodes, ss, cs) == (nodes, {}, {})
    ensures nodes != [] ==> !Shape(nodes, {}, {})
  {
    assert ss - ss == {} && cs - cs == {};
    assert Nodes({}, {}) == {};
    RemainingAll(nodes, {});
    if nodes != [] {
      assert nodes[0] in nodes && !HeldBy(nodes[0], {}, {});
    }
  }

  /** The media results ListeningMediaList.AddMediaResults makes singletons
      of: those whose hash the list did not have before the call, in order;
      the known hashes are not updated within the batch. */
  function Unknown(results: seq<Hash>, known: set<Hash>): (r: seq<Hash>)
    ensures |r| <= |results|
    ensures forall h :: h in r <==> h in results && h !in known
  {
    if results == [] then []
    else
      var last := results[|results| - 1];
      assert forall h :: h in results ==> h in results[..|results| - 1] || h == last;
      Unknown(results[..|results| - 1], known) + (if last in known then [] else [last])
  }

  /** Adding the same media results again adds nothing. */
  lemma {:induction false} UnknownOfKnown(results: seq<Hash>, known: set<Hash>)
    requires forall h :: h in results ==> h in known
    ensures Unknown(results, known) == []
  {
    if results != [] {
      UnknownOfKnown(results[..|results| - 1], known);
    }
  }

  // ---------------------------------------------------------------------

  class MediaList {
    const fileServiceKey: ServiceKey
    var sortedMedia: SortedList<Media>
    var singletons: set<MediaSingleton>
    var collected: set<MediaCollection>
    var hashes: set<Hash>
    var hashesToSingleton: map<Hash, MediaSingleton>
    var hashesToCollected: map<Hash, MediaCollection>
    var mediaSort: MediaSort
    var collectBy: seq<CollectBy>
    var collectMapSingletons: map<CollectKey, MediaSingleton>
    var collectMapCollected: map<CollectKey, MediaCollection>

    /** The sorted list holds each singleton and collection once and
        nothing else; every collection is well formed and views the same
        file service, and the collect maps name only listed media. */
    ghost predicate Structured()
      reads this`sortedMedia, this`singletons, this`collected, this`collectMapSingletons, this`collectMapCollected,
        sortedMedia, collected
    {
      && sortedMedia.Valid()
      && Shape(sortedMedia.sortedList, singletons, collected)
      && CollectionsValid(collected, fileServiceKey)
      && Apart(collected, this, sortedMedia)
      && MapsWithin(collectMapSingletons, collectMapCollected, singletons, collected)
    }

    /** The hashes and their indexes are those of the singletons and the
        collections. */
    ghost predicate Indexed()
      reads this`hashes, this`hashesToSingleton, this`hashesToCollected, this`singletons, this`collected, collected
    {
      && IndexesCollections(hashesToCollected, collected)
      && Indexes(hashesToSingleton, singletons)
      && hashes == HashesOf(singletons) + hashesToCollected.Keys
    }

    ghost predicate Valid()
      reads this`sortedMedia, this`singletons, this`collected, this`collectMapSingletons, this`collectMapCollected,
        this`hashes, this`hashesToSingleton, this`hashesToCollected, sortedMedia, collected
    {
      ValidWith(sortedMedia, singletons, collected, collectMapSingletons, collectMapCollected,
                hashes, hashesToSingleton, hashesToCollected)
    }

    /** Indexed and Structured for the values given in place of the fields. */
    ghost predicate ValidWith(list: SortedList<Media>, ss: set<MediaSingleton>, cs: set<MediaCollection>,
                              ms: map<CollectKey, MediaSingleton>, mc: map<CollectKey, MediaCollection>,
                              hs: set<Hash>, sm: map<Hash, MediaSingleton>, cm: map<Hash, MediaCollection>)
      reads list, cs
    {
      && IndexesCollections(cm, cs) && Indexes(sm, ss) && hs == HashesOf(ss) + cm.Keys
      && list.Valid() && Shape(list.sortedList, ss, cs) && CollectionsValid(cs, fileServiceKey)
      && Apart(cs, this, list) && MapsWithin(ms, mc, ss, cs)
    }

    /** A list of fresh singletons of the media results, in order, sorted
        by file size ascending and collected by nothing; the hash index is
        built as _RecalcHashes builds it, with no collections to index. */
    constructor(fileServiceKey: ServiceKey, results: seq<Hash>)
      ensures Valid() && fresh(sortedMedia)
      ensures this.fileServiceKey == fileServiceKey
      ensures |sortedMedia.sortedList| == |results|
      ensures forall i :: 0 <= i < |results| ==>
        sortedMedia.sortedList[i].Single? && sortedMedia.sortedList[i].s.hash == results[i]
      ensures collected == {} && hashes == set h | h in results
      ensures mediaSort == NewMediaSort(None, None) && collectBy == []
    {
      var ms := GenerateSingletons(results);
      var nodes := Singles(ms);
      SinglesShape(ms);
      ResultHashes(ms, results);
      var sh, sm := IndexSingletons(Members(ms));
      this.fileServiceKey := fileServiceKey;
      mediaSort := NewMediaSort(None, None);
      collectBy := [];
      collectMapSingletons := map[];
      collectMapCollected := map[];
      sortedMedia := new SortedList(nodes);
      singletons := Members(ms);
      collected := {};
      hashes := sh;
      hashesToSingleton := sm;
      hashesToCollected := map[];
    }

    /** What the collections' own fields decide stays as it was while they
        and the collection index are left alone. */
    twostate lemma CollectionsKept()
      requires old(collected) == collected && old(hashesToCollected) == hashesToCollected
      requires unchanged(collected)
      requires old(IndexesCollections(hashesToCollected, collected) && CollectionsValid(collected, fileServiceKey))
      ensures IndexesCollections(hashesToCollected, collected) && CollectionsValid(collected, fileServiceKey)
    {
    }

    /** The same for collections some of which were removed. */
    twostate lemma CollectionsNarrowed()
      requires collected <= old(collected) && unchanged(old(collected))
      requires old(CollectionsValid(collected, fileServiceKey))
      ensures CollectionsValid(collected, fileServiceKey)
    {
    }

    /** Valid after media (singletons, collections) were removed from the
        sets, the collect maps and the list, and the hashes were
        recalculated. */
    twostate lemma RemovedValid(removed: (set<MediaSingleton>, set<MediaCollection>))
      requires old(Structured())
      requires singletons == old(singletons) - removed.0 && collected == old(collected) - removed.1
      requires collectMapSingletons == Prune(old(collectMapSingletons), removed.0)
      requires collectMapCollected == Prune(old(collectMapCollected), removed.1)
      requires sortedMedia == old(sortedMedia) && sortedMedia.Valid()
      requires sortedMedia.sortedList == Remaining(old(sortedMedia.sortedList), Nodes(removed.0, removed.1))
      requires unchanged(old(collected)) && Indexed()
      ensures Valid()
    {
      ShapeRemoval(old(sortedMedia.sortedList), old(singletons), old(collected), removed.0, removed.1);
      CollectionsNarrowed();
    }

    /** _RecalcHashes. */
    method RecalcHashes()
      modifies this`hashes, this`hashesToSingleton, this`hashesToCollected
      ensures Indexed()
    {
      var ch, cm := IndexCollections(collected);
      var sh, sm := IndexSingletons(singletons);
      hashes := ch + sh;
      hashesToSingleton := sm;
      hashesToCollected := cm;
    }

    /** Collect: every collection is broken up into fresh singletons of its
        media results; when there is something to collect by, the
        singletons are grouped by collection key, a key with one singleton
        keeps it and a key with more becomes one new collection. The list is
        rebuilt, unsorted, from the singletons and then the collections, and
        the hashes are recalculated; they are the hashes the list had. */
    method Collect(cb: Option<seq<CollectBy>>, env: Env, records: Hash -> MediaRecord) returns (ghost pool: seq<MediaSingleton>, ghost groups: map<CollectKey, seq<MediaSingleton>>)
      requires Valid()
      modifies this`collectBy, this`singletons, this`collected, this`collectMapSingletons, this`collectMapCollected,
        this`sortedMedia, this`hashes, this`hashesToSingleton, this`hashesToCollected
      ensures Valid() && fresh(sortedMedia)
      ensures collectBy == if cb.Some? then cb.value else old(collectBy)
      ensures NoDuplicates(pool) && old(singletons) <= Members(pool)
      ensures forall s :: s in pool && s !in old(singletons) ==> fresh(s)
      ensures hashes == old(hashes) == HashesOf(Members(pool))
      ensures groups == KeysToMedias(pool, KeyOf(collectBy, records, env))
      ensures Regrouped(collectBy, pool, groups, singletons, collected, collectMapSingletons, collectMapCollected)
      ensures BuiltAll(collectMapCollected, fileServiceKey, groups, records, env.collapse)
    {
      var chosen := if cb.Some? then cb.value else collectBy;
      IndexedHashes(hashesToCollected, collected);
      var ss, cs, ms, mc, a, b;
      pool, ss, cs, ms, mc, a, b, groups := Recollect(singletons, collected, chosen, env, records, fileServiceKey);
      assert hashes == HashesOf(Members(pool));
      var hs, sm, cm := IndexMedia(ss, cs, HashesOf(Members(pool)));
      var list := new SortedList(Singles(a) + Colls(b));
      Install(list, chosen, ss, cs, ms, mc, hs, sm, cm, groups, records, env.collapse);
    }

    /** Collect's last steps: the new singletons and collections, the
        list rebuilt from them and their hash index become the list's
        own. */
    method Install(list: SortedList<Media>, cb: seq<CollectBy>, ss: set<MediaSingleton>, cs: set<MediaCollection>,
                   ms: map<CollectKey, MediaSingleton>, mc: map<CollectKey, MediaCollection>,
                   hs: set<Hash>, sm: map<Hash, MediaSingleton>, cm: map<Hash, MediaCollection>,
                   ghost groups: map<CollectKey, seq<MediaSingleton>>, ghost records: Hash -> MediaRecord, ghost collapse: Collapse)
      requires ValidWith(list, ss, cs, ms, mc, hs, sm, cm) && BuiltAll(mc, fileServiceKey, groups, records, collapse)
      modifies this`collectBy, this`singletons, this`collected, this`collectMapSingletons, this`collectMapCollected,
        this`sortedMedia, this`hashes, this`hashesToSingleton, this`hashesToCollected
      ensures Valid() && BuiltAll(mc, fileServiceKey, groups, records, collapse)
      ensures (collectBy, singletons, collected, collectMapSingletons, collectMapCollected, sortedMedia, hashes)
           == (cb, ss, cs, ms, mc, list, hs)
    {
      Assign(list, cb, ss, cs, ms, mc, hs, sm, cm);
      InstalledValid((list, ss, cs, ms, mc, hs, sm, cm));
    }

    /** The nine fields Collect rebuilds take the values given. */
    method Assign(list: SortedList<Media>, cb: seq<CollectBy>, ss: set<MediaSingleton>, cs: set<MediaCollection>,
                  ms: map<CollectKey, MediaSingleton>, mc: map<CollectKey, MediaCollection>,
                  hs: set<Hash>, sm: map<Hash, MediaSingleton>, cm: map<Hash, MediaCollection>)
      modifies this`collectBy, this`singletons, this`collected, this`collectMapSingletons, this`collectMapCollected,
        this`sortedMedia, this`hashes, this`hashesToSingleton, this`hashesToCollected
      ensures collectBy == cb && singletons == ss && collected == cs && collectMapSingletons == ms
      ensures collectMapCollected == mc && sortedMedia == list && hashes == hs
      ensures hashesToSingleton == sm && hashesToCollected == cm
    {
      collectBy := cb;
      singletons := ss;
      collected := cs;
      collectMapSingletons := ms;
      collectMapCollected := mc;
      sortedMedia := list;
      hashes := hs;
      hashesToSingleton := sm;
      hashesToCollected := cm;
    }

    /** Valid once the fields hold values that were valid together and
        whose objects are left alone. */
    twostate lemma InstalledValid(x: (SortedList<Media>, set<MediaSingleton>, set<MediaCollection>,
                                      map<CollectKey, MediaSingleton>, map<CollectKey, MediaCollection>,
                                      set<Hash>, map<Hash, MediaSingleton>, map<Hash, MediaCollection>))
      requires old(ValidWith(x.0, x.1, x.2, x.3, x.4, x.5, x.6, x.7)) && unchanged(x.0) && unchanged(x.2)
      requires (sortedMedia, singletons, collected, collectMapSingletons, collectMapCollected,
                hashes, hashesToSingleton, hashesToCollected) == x
      ensures Valid()
    {
    }

    /** __len__: one per singleton, plus the size of every collection. */
    /** __len__: one per singleton and a collection's length per
        collection. */
    function Len(): (n: nat)
      reads this, sortedMedia, CollectionsIn(sortedMedia.sortedList)
      ensures n == NumSingles(sortedMedia.sortedList) + ChildCount(sortedMedia.sortedList)
    {
      FlatLength(sortedMedia.sortedList);
      |Flat(sortedMedia.sortedList)|
    }

    /** _GetFirst, or IndexOutOfRange on an empty list. */
    function GetFirst(): (r: Result<Media>)
      reads this, sortedMedia
      ensures r.Ok? <==> |sortedMedia.sortedList| > 0
      ensures r.Ok? ==> r.value == sortedMedia.sortedList[0]
    {
      sortedMedia.GetItem(0)
    }

    /** _GetLast, or IndexOutOfRange on an empty list. */
    function GetLast(): (r: Result<Media>)
      reads this, sortedMedia
      ensures r.Ok? <==> |sortedMedia.sortedList| > 0
      ensures r.Ok? ==> r.value == sortedMedia.sortedList[|sortedMedia.sortedList| - 1]
    {
      sortedMedia.GetItem(-1)
    }

    /** _GetNext: the following node, wrapping to the first; None for no
        media; DataMissing for a node not in the list. */
    method GetNext(m: Option<Media>) returns (r: Result<Option<Media>>)
      requires sortedMedia.Valid()
      modifies sortedMedia`itemsToIndices
      ensures sortedMedia.Valid() && sortedMedia.sortedList == old(sortedMedia.sortedList)
      ensures m.None? ==> r == Ok(None)
      ensures m.Some? && m.value !in sortedMedia.sortedList ==> r == Err(DataMissing)
      ensures m.Some? && m.value in sortedMedia.sortedList ==>
        var s := sortedMedia.sortedList;
        r == Ok(Some(s[NextIndex(IndexMap(s)[m.value], |s|)]))
    {
      if m.None? {
        return Ok(None);
      }
      var index := sortedMedia.Index(m.value);
      if index.Err? {
        return Err(index.error);
      }
      var s := sortedMedia.sortedList;
      var next := index.value + 1;
      if next == |s| {
        var first := GetFirst();
        r := Ok(Some(first.value));
      } else {
        r := Ok(Some(s[next]));
      }
      assert r == Ok(Some(s[NextIndex(index.value, |s|)]));
    }

    /** _GetPrevious: the preceding node, wrapping to the last. */
    method GetPrevious(m: Option<Media>) returns (r: Result<Option<Media>>)
      requires sortedMedia.Valid()
      modifies sortedMedia`itemsToIndices
      ensures sortedMedia.Valid() && sortedMedia.sortedList == old(sortedMedia.sortedList)
      ensures m.None? ==> r == Ok(None)
      ensures m.Some? && m.value !in sortedMedia.sortedList ==> r == Err(DataMissing)
      ensures m.Some? && m.value in sortedMedia.sortedList ==>
        var s := sortedMedia.sortedList;
        r == Ok(Some(s[PreviousIndex(IndexMap(s)[m.value], |s|)]))
    {
      if m.None? {
        return Ok(None);
      }
      var index := sortedMedia.Index(m.value);
      if index.Err? {
        return Err(index.error);
      }
      var s := sortedMedia.sortedList;
      var previous := index.value - 1;
      if previous == -1 {
        var last := GetLast();
        r := Ok(Some(last.value));
      } else {
        r := Ok(Some(s[previous]));
      }
      assert r == Ok(Some(s[PreviousIndex(index.value, |s|)]));
    }

    /** _GetMedia: nothing when no hash is the list's; otherwise the
        indexed singletons and collections of the hashes. */
    function GetMedia(hs: set<Hash>, d: Discriminator): set<Media>
      reads this
    {
      if hs * hashes == {} then {}
      else
        (if d != CollectionsOnly then set h | h in hs && h in hashesToSingleton :: Single(hashesToSingleton[h]) else {}) +
        (if d != SingletonsOnly then set h | h in hs && h in hashesToCollected :: Coll(hashesToCollected[h]) else {})
    }

    /** _HasHashes: the loop that stops at the first hash the list has. */
    method HasHashes(hs: seq<Hash>) returns (b: bool)
      ensures b <==> exists i :: 0 <= i < |hs| && hs[i] in hashes
    {
      var i := 0;
      while i < |hs|
        invariant 0 <= i <= |hs|
        invariant forall j :: 0 <= j < i ==> hs[j] !in hashes
      {
        if hs[i] in hashes {
          return true;
        }
        i := i + 1;
      }
      return false;
    }

    function HasAnyOfTheseHashes(hs: set<Hash>): (b: bool)
      reads this
      ensures b <==> exists h :: h in hs && h in hashes
    {
      var both := hs * hashes;
      assert forall h :: h in hs && h in hashes ==> h in both;
      if both == {} then false
      else
        var h :| h in both;
        assert h in hs && h in hashes;
        true
    }

    /** The number of distinct hashes of the singletons and of the
        collections' children. */
    function GetNumFiles(): (n: nat)
      reads this, collected
      ensures Indexed() ==> n == |HashesOf(singletons) + CollectedHashes(collected)|
    {
      assert Indexed() ==> hashesToCollected.Keys == CollectedHashes(collected);
      |hashes|
    }

    function HasNoMedia(): (b: bool)
      reads this, sortedMedia
      ensures b <==> sortedMedia.sortedList == []
    {
      sortedMedia.Length() == 0
    }

    /** _RemoveMediaDirectly: the media leave the sets, their collect-map
        entries are pruned, and the list removes their nodes, failing with
        DataMissing (after the sets have changed) when one is not listed. */
    method RemoveMediaDirectly(ss: set<MediaSingleton>, cs: set<MediaCollection>) returns (r: Outcome)
      requires Structured()
      modifies this`singletons, this`collected, this`collectMapSingletons, this`collectMapCollected,
        this`hashes, this`hashesToSingleton, this`hashesToCollected, sortedMedia`sortedList, sortedMedia`itemsToIndices
      ensures r == Pass <==> ss <= old(singletons) && cs <= old(collected)
      ensures singletons == old(singletons) - ss && collected == old(collected) - cs
      ensures collectMapSingletons == Prune(old(collectMapSingletons), ss)
      ensures collectMapCollected == Prune(old(collectMapCollected), cs)
      ensures r.Fail? ==> r.error == DataMissing && sortedMedia.sortedList == old(sortedMedia.sortedList)
      ensures r == Pass ==> Valid()
      ensures r == Pass ==> sortedMedia.sortedList == Remaining(old(sortedMedia.sortedList), Nodes(ss, cs))
    {
      var x := Nodes(ss, cs);
      ShapeListed(sortedMedia.sortedList, singletons, collected, ss, cs);
      singletons := singletons - ss;
      collected := collected - cs;
      collectMapSingletons := Prune(collectMapSingletons, ss);
      collectMapCollected := Prune(collectMapCollected, cs);
      r := RemoveNodes(sortedMedia, x);
      if r.Fail? {
        return;
      }
      RecalcHashes();
      RemovedValid((ss, cs));
    }

    /** The loop of _RemoveMediaByHashes over the collections. */
    method RemoveFromCollections(hs: set<Hash>)
      requires CollectionsValid(collected, fileServiceKey)
      modifies collected
      ensures CollectionsValid(collected, fileServiceKey)
      ensures forall c :: c in collected ==>
        c.sortedMedia == Remaining(old(c.sortedMedia), Affected(old(c.hashesToSingleton), hs))
    {
      var left := collected;
      while left != {}
        invariant left <= collected
        invariant CollectionsValid(collected, fileServiceKey)
        invariant forall c :: c in collected - left ==>
          c.sortedMedia == Remaining(old(c.sortedMedia), Affected(old(c.hashesToSingleton), hs))
        invariant forall c :: c in left ==> c.sortedMedia == old(c.sortedMedia) && c.hashesToSingleton == old(c.hashesToSingleton)
        decreases left
      {
        var c :| c in left;
        c.RemoveMediaByHashes(hs);
        left := left - {c};
      }
    }

    /** _RemoveMediaByHashes: every collection drops the hashes, then the
        indexed singletons of the hashes and the collections left empty are
        removed directly. */
    method RemoveMediaByHashes(hs: set<Hash>)
      requires Structured() && Indexes(hashesToSingleton, singletons)
      modifies this`singletons, this`collected, this`collectMapSingletons, this`collectMapCollected,
        this`hashes, this`hashesToSingleton, this`hashesToCollected, sortedMedia`sortedList, sortedMedia`itemsToIndices,
        collected
      ensures Valid()
      ensures forall c :: c in old(collected) ==>
        c.sortedMedia == Remaining(old(c.sortedMedia), Affected(old(c.hashesToSingleton), hs))
      ensures singletons == old(singletons) - Affected(old(hashesToSingleton), hs)
      ensures forall c :: c in collected <==> c in old(collected) && c.sortedMedia != []
      ensures sortedMedia.sortedList == Remaining(old(sortedMedia.sortedList),
        Nodes(Affected(old(hashesToSingleton), hs), old(collected) - collected))
    {
      var affected := Affected(hashesToSingleton, hs);
      RemoveFromCollections(hs);
      var emptied := set c | c in collected && c.sortedMedia == [];
      assert sortedMedia.Valid();
      assert Shape(sortedMedia.sortedList, singletons, collected);
      assert MapsWithin(collectMapSingletons, collectMapCollected, singletons, collected);
      assert Structured();
      var r := RemoveMediaDirectly(affected, emptied);
      assert old(collected) - collected == emptied;
    }

    /** AddMedia with append: each new singleton is indexed under its hash
        and appended to the list. */
    method AddMedia(newMedia: seq<MediaSingleton>)
      requires Valid()
      requires NoDuplicates(newMedia) && forall s :: s in newMedia ==> s !in singletons
      modifies this`hashes, this`hashesToSingleton, this`singletons, sortedMedia`sortedList, sortedMedia`itemsToIndices
      ensures Valid()
      ensures hashes == old(hashes) + HashesOf(Members(newMedia))
      ensures singletons == old(singletons) + Members(newMedia)
      ensures sortedMedia.sortedList == old(sortedMedia.sortedList) + Singles(newMedia)
    {
      var h, m := IndexNew(hashes, hashesToSingleton, newMedia, singletons);
      HashesAppend(hashes, singletons, Members(newMedia), hashesToCollected.Keys, h);
      ShapeAppend(sortedMedia.sortedList, singletons, collected, newMedia);
      hashes, hashesToSingleton, singletons := h, m, singletons + Members(newMedia);
      AppendNodes(sortedMedia, Singles(newMedia));
      CollectionsKept();
    }

    /** ListeningMediaList.AddMediaResults: a fresh singleton for each media
        result whose hash the list did not have, appended. */
    method AddMediaResults(results: seq<Hash>) returns (newMedia: seq<MediaSingleton>)
      requires Valid()
      modifies this`hashes, this`hashesToSingleton, this`singletons, sortedMedia`sortedList, sortedMedia`itemsToIndices
      ensures Valid()
      ensures |newMedia| == |Unknown(results, old(hashes))|
      ensures forall i :: 0 <= i < |newMedia| ==> newMedia[i].hash == Unknown(results, old(hashes))[i] && fresh(newMedia[i])
      ensures hashes == old(hashes) + set h | h in results
      ensures sortedMedia.sortedList == old(sortedMedia.sortedList) + Singles(newMedia)
    {
      newMedia := UnknownSingletons(results, hashes);
      var unknown := Unknown(results, hashes);
      AddMedia(newMedia);
      ResultHashes(newMedia, unknown);
    }
    /** HasMedia: one of the singletons or collections, or a child of one
        of the collections; never None. */
    method HasMedia(m: Option<Media>) returns (b: bool)
      ensures b <==> m.Some? && (HeldBy(m.value, singletons, collected) || exists c :: c in collected && c.HasMedia(m))
    {
      if m.None? {
        return false;
      }
      if (m.value.Single? && m.value.s in singletons) || (m.value.Coll? && m.value.c in collected) {
        return true;
      }
      var left := collected;
      while left != {}
        invariant left <= collected
        invariant forall c :: c in collected - left ==> !c.HasMedia(m)
        decreases left
      {
        var c :| c in left;
        if c.HasMedia(m) {
          return true;
        }
        left := left - {c};
      }
      return false;
    }

    /** The flattened list holds the singletons and the children of the
        collections, and nothing else. */
    lemma FlatHoldsAll()
      requires Shape(sortedMedia.sortedList, singletons, collected)
      ensures forall s :: s in Flat(sortedMedia.sortedList) <==>
        s in singletons || exists c :: c in collected && s in c.sortedMedia
    {
      var list := sortedMedia.sortedList;
      forall s ensures s in Flat(list) <==> s in singletons || exists c :: c in collected && s in c.sortedMedia {
        FlatMember(list, s);
        if s in Flat(list) {
          var i :| 0 <= i < |list| && s in NodeMembers(list[i]);
          assert HeldBy(list[i], singletons, collected);
        }
        if s in singletons {
          assert Single(s) in list;
          var i :| 0 <= i < |list| && list[i] == Single(s);
          assert s in NodeMembers(list[i]);
        }
        if exists c :: c in collected && s in c.sortedMedia {
          var c :| c in collected && s in c.sortedMedia;
          assert Coll(c) in list;
          var i :| 0 <= i < |list| && list[i] == Coll(c);
          assert s in NodeMembers(list[i]);
        }
      }
    }

    /** The media HasMedia finds are the nodes of the list and the
        singletons of the flattened list. */
    lemma HasMediaListed(m: Media)
      requires Shape(sortedMedia.sortedList, singletons, collected)
      ensures (HeldBy(m, singletons, collected) || exists c :: c in collected && c.HasMedia(Some(m))) <==>
        m in sortedMedia.sortedList || (m.Single? && m.s in Flat(sortedMedia.sortedList))
    {
      FlatHoldsAll();
      if m in sortedMedia.sortedList {
        assert HeldBy(m, singletons, collected);
      }
    }

    /** GenerateMediaResults: the results of every node, in list order; a
        collection's children are filtered as for the media viewer. */
    method GenerateMediaResults(f: ResultFilter, env: Env, records: Hash -> MediaRecord) returns (r: seq<Hash>)
      ensures r == ListResults(sortedMedia.sortedList, records, f, env)
    {
      r := GenerateListResults(sortedMedia.sortedList, f, env, records);
    }

    /** GetFlatMedia. */
    method GetFlatMedia() returns (flat: seq<MediaSingleton>)
      ensures flat == Flat(sortedMedia.sortedList)
    {
      flat := FlattenMedia(sortedMedia.sortedList);
    }

    /** _GetMedia finds only media of the list, each holding one of the
        hashes, singletons only when asked for and collections likewise;
        and every hash of the list is held by one of the media found when
        both kinds are asked for. */
    lemma GetMediaSound(hs: set<Hash>, d: Discriminator)
      requires Indexed()
      ensures forall m :: m in GetMedia(hs, d) ==> HeldBy(m, singletons, collected)
      ensures forall m :: m in GetMedia(hs, d) && m.Single? ==> d != CollectionsOnly && m.s.hash in hs
      ensures forall m :: m in GetMedia(hs, d) && m.Coll? ==> d != SingletonsOnly && hs * m.c.hashes != {}
    {
      var found := GetMedia(hs, d);
      forall m | m in found && m.Single?
        ensures m.s in singletons && d != CollectionsOnly && m.s.hash in hs
      {
        var h :| h in hs && h in hashesToSingleton && m.s == hashesToSingleton[h];
      }
      forall m | m in found && m.Coll?
        ensures m.c in collected && d != SingletonsOnly && hs * m.c.hashes != {}
      {
        var h :| h in hs && h in hashesToCollected && m.c == hashesToCollected[h];
        assert h in hs * m.c.hashes;
      }
    }

    lemma GetMediaComplete(hs: set<Hash>, h: Hash)
      requires Indexed()
      requires h in hs && h in hashes
      ensures exists m :: m in GetMedia(hs, AnyMedia) && ((m.Single? && m.s.hash == h) || (m.Coll? && h in m.c.hashes))
    {
      assert h in hs * hashes;
      if h in hashesToSingleton {
        var m := Single(hashesToSingleton[h]);
        assert m in GetMedia(hs, AnyMedia);
      } else {
        var m := Coll(hashesToCollected[h]);
        assert m in GetMedia(hs, AnyMedia);
      }
    }
    /** The collection index stays right while no collection's hashes
        change. */
    twostate lemma CollectionHashesKept()
      requires old(collected) == collected && old(hashesToCollected) == hashesToCollected
      requires forall c :: c in collected ==> c.hashes == old(c.hashes)
      requires old(IndexesCollections(hashesToCollected, collected))
      ensures IndexesCollections(hashesToCollected, collected)
    {
    }

    /** DeletePending: the pending content of the records is gone, so the
        collections recompute their aggregates; the list stays as it is. */
    method DeletePending(records: Hash -> MediaRecord, collapse: Collapse)
      requires Valid()
      modifies collected
      ensures Valid()
      ensures forall c :: c in collected ==> c.Current(records, collapse) && c.sortedMedia == old(c.sortedMedia)
    {
      DeletePendingIn(collected, fileServiceKey, records, collapse);
      CollectionHashesKept();
    }

    /** Removing every singleton and collection empties the list. */
    lemma RemovingAllEmpties()
      requires Shape(sortedMedia.sortedList, singletons, collected)
      ensures Remaining(sortedMedia.sortedList, Nodes(singletons, collected)) == []
    {
      var list := sortedMedia.sortedList;
      forall e | e in list ensures e in Nodes(singletons, collected) {
        assert HeldBy(e, singletons, collected);
      }
      RemainingNone(list, Nodes(singletons, collected));
    }

    /** ResetService: a reset of the list's own file service removes every
        singleton and collection; any other reset reaches the collections,
        which recompute their aggregates. */
    method ResetService(serviceKey: ServiceKey, records: Hash -> MediaRecord, collapse: Collapse)
      requires Valid()
      modifies this`singletons, this`collected, this`collectMapSingletons, this`collectMapCollected,
        this`hashes, this`hashesToSingleton, this`hashesToCollected, sortedMedia`sortedList, sortedMedia`itemsToIndices,
        collected
      ensures Valid()
      ensures serviceKey == fileServiceKey ==>
        singletons == {} && collected == {} && sortedMedia.sortedList == [] && hashes == {}
      ensures serviceKey != fileServiceKey ==>
        && singletons == old(singletons) && collected == old(collected) && hashes == old(hashes)
        && sortedMedia.sortedList == old(sortedMedia.sortedList)
        && forall c :: c in collected ==> c.Current(records, collapse) && c.sortedMedia == old(c.sortedMedia)
    {
      if serviceKey == fileServiceKey {
        RemovingAllEmpties();
        var r := RemoveMediaDirectly(singletons, collected);
        EmptyHoldsNothing();
      } else {
        ResetIn(collected, fileServiceKey, serviceKey, records, collapse);
        CollectionHashesKept();
      }
    }
    /** ProcessContentUpdate: the collections holding the update's hashes
        process it; a file delete the visibility rule applies to then
        removes the hashes from the list. Any other update leaves the list,
        its sets and its hashes alone. */
    method ProcessContentUpdate(serviceKey: ServiceKey, u: ContentUpdate, env: Env, records: Hash -> MediaRecord)
      requires Valid()
      modifies this`singletons, this`collected, this`collectMapSingletons, this`collectMapCollected,
        this`hashes, this`hashesToSingleton, this`hashesToCollected, sortedMedia`sortedList, sortedMedia`itemsToIndices,
        collected
      ensures Valid()
      ensures HidesFiles(serviceKey, fileServiceKey, u, env) ==>
        && singletons == old(singletons) - Affected(old(hashesToSingleton), u.Hashes())
        && (forall c :: c in collected <==> c in old(collected) && c.sortedMedia != [])
        && sortedMedia.sortedList == Remaining(old(sortedMedia.sortedList),
             Nodes(Affected(old(hashesToSingleton), u.Hashes()), old(collected) - collected))
        && (DistinctHashes(old(singletons)) ==> forall s :: s in singletons ==> s.hash !in u.Hashes())
        && forall c :: c in old(collected) && old(DistinctHashes(Members(c.sortedMedia))) ==>
             && c.sortedMedia == Remaining(old(c.sortedMedia), Affected(old(c.hashesToSingleton), u.Hashes()))
             && forall s :: s in c.sortedMedia ==> s.hash !in u.Hashes()
      ensures !HidesFiles(serviceKey, fileServiceKey, u, env) ==>
        && singletons == old(singletons) && collected == old(collected) && hashes == old(hashes)
        && sortedMedia.sortedList == old(sortedMedia.sortedList)
        && (forall c :: c in collected ==> c.sortedMedia == old(c.sortedMedia))
        && forall m :: m in old(GetMedia(u.Hashes(), CollectionsOnly)) ==> m.Coll? && m.c.Current(records, env.collapse)
    {
      if HidesFiles(serviceKey, fileServiceKey, u, env) {
        ProcessHiding(serviceKey, u, env, records);
      } else {
        ProcessKeeping(serviceKey, u, env, records);
      }
    }

    /** The collections of the hashes process the update. */
    method ProcessTargets(serviceKey: ServiceKey, u: ContentUpdate, env: Env, records: Hash -> MediaRecord)
      requires Valid()
      modifies collected
      ensures CollectionsValid(collected, fileServiceKey)
      ensures forall m :: m in GetMedia(u.Hashes(), CollectionsOnly) ==> m.Coll? && m.c.Current(records, env.collapse)
      ensures !HidesFiles(serviceKey, fileServiceKey, u, env) ==>
        forall c :: c in collected ==> c.sortedMedia == old(c.sortedMedia) && c.hashes == old(c.hashes)
      ensures HidesFiles(serviceKey, fileServiceKey, u, env) ==>
        forall c :: c in collected ==>
          LeftOrThinned(old(c.sortedMedia), old(c.hashesToSingleton), c.sortedMedia, c.hashesToSingleton, u.Hashes())
    {
      var hs := u.Hashes();
      var targets := GetMedia(hs, CollectionsOnly);
      GetMediaSound(hs, CollectionsOnly);
      var cs := set m | m in targets && m.Coll? :: m.c;
      assert cs <= collected;
      ProcessIn(cs, collected, fileServiceKey, serviceKey, u, env, records);
      assert forall m :: m in targets ==> m.c in cs;
    }

    /** ProcessContentUpdate for a file delete the visibility rule applies
        to. */
    method ProcessHiding(serviceKey: ServiceKey, u: ContentUpdate, env: Env, records: Hash -> MediaRecord)
      requires Valid() && HidesFiles(serviceKey, fileServiceKey, u, env)
      modifies this`singletons, this`collected, this`collectMapSingletons, this`collectMapCollected,
        this`hashes, this`hashesToSingleton, this`hashesToCollected, sortedMedia`sortedList, sortedMedia`itemsToIndices,
        collected
      ensures Valid()
      ensures singletons == old(singletons) - Affected(old(hashesToSingleton), u.Hashes())
      ensures forall c :: c in collected <==> c in old(collected) && c.sortedMedia != []
      ensures sortedMedia.sortedList == Remaining(old(sortedMedia.sortedList),
        Nodes(Affected(old(hashesToSingleton), u.Hashes()), old(collected) - collected))
      ensures DistinctHashes(old(singletons)) ==> forall s :: s in singletons ==> s.hash !in u.Hashes()
      ensures forall c :: c in old(collected) && old(DistinctHashes(Members(c.sortedMedia))) ==>
        && c.sortedMedia == Remaining(old(c.sortedMedia), Affected(old(c.hashesToSingleton), u.Hashes()))
        && forall s :: s in c.sortedMedia ==> s.hash !in u.Hashes()
    {
      ghost var before := Children(collected);
      ProcessTargets(serviceKey, u, env, records);
      ghost var mid := Children(collected);
      assert forall c :: c in collected ==> Indexes(mid[c].1, Members(mid[c].0));
      RemoveMediaByHashes(u.Hashes());
      forall c | c in old(collected) && old(DistinctHashes(Members(c.sortedMedia)))
        ensures c.sortedMedia == Remaining(old(c.sortedMedia), Affected(old(c.hashesToSingleton), u.Hashes()))
        ensures forall s :: s in c.sortedMedia ==> s.hash !in u.Hashes()
      {
        HidingTwice(before[c].0, before[c].1, mid[c].0, mid[c].1, u.Hashes());
      }
      if DistinctHashes(old(singletons)) {
        RemovalClears(old(singletons), old(hashesToSingleton), u.Hashes());
      }
    }

    /** ProcessContentUpdate for any other update. */
    method ProcessKeeping(serviceKey: ServiceKey, u: ContentUpdate, env: Env, records: Hash -> MediaRecord)
      requires Valid() && !HidesFiles(serviceKey, fileServiceKey, u, env)
      modifies collected
      ensures Valid()
      ensures forall c :: c in collected ==> c.sortedMedia == old(c.sortedMedia)
      ensures forall m :: m in GetMedia(u.Hashes(), CollectionsOnly) ==> m.Coll? && m.c.Current(records, env.collapse)
    {
      ProcessTargets(serviceKey, u, env, records);
      CollectionHashesKept();
    }

    /** ProcessContentUpdates: the updates in order; the list only loses
        media. */
    method ProcessContentUpdates(updates: seq<(ServiceKey, ContentUpdate)>, env: Env, records: Hash -> MediaRecord)
      requires Valid()
      modifies this`singletons, this`collected, this`collectMapSingletons, this`collectMapCollected,
        this`hashes, this`hashesToSingleton, this`hashesToCollected, sortedMedia`sortedList, sortedMedia`itemsToIndices,
        collected
      ensures Valid()
      ensures singletons <= old(singletons) && collected <= old(collected)
    {
      var i := 0;
      while i < |updates|
        invariant 0 <= i <= |updates|
        invariant Valid() && singletons <= old(singletons) && collected <= old(collected)
      {
        ProcessContentUpdate(updates[i].0, updates[i].1, env, records);
        i := i + 1;
      }
    }

    /** One service update: what DeletePending or ResetService does. */
    method ProcessServiceUpdate(serviceKey: ServiceKey, action: ServiceUpdateAction, records: Hash -> MediaRecord, collapse: Collapse)
      requires Valid()
      modifies this`singletons, this`collected, this`collectMapSingletons, this`collectMapCollected,
        this`hashes, this`hashesToSingleton, this`hashesToCollected, sortedMedia`sortedList, sortedMedia`itemsToIndices,
        collected
      ensures Valid() && collected <= old(collected)
      ensures (serviceKey, action) == (fileServiceKey, ResetUpdate) ==> singletons == {} && collected == {}
      ensures (serviceKey, action) != (fileServiceKey, ResetUpdate) ==>
        && singletons == old(singletons) && collected == old(collected) && hashes == old(hashes)
        && sortedMedia.sortedList == old(sortedMedia.sortedList)
    {
      match action
      case DeletePendingUpdate =>
        DeletePending(records, collapse);
      case ResetUpdate =>
        ResetService(serviceKey, records, collapse);
    }

    /** ProcessServiceUpdates: each delete-pending reaches the collections
        and each reset is a ResetService; a reset of the list's own file
        service empties it and nothing else changes the list. */
    method ProcessServiceUpdates(updates: seq<(ServiceKey, ServiceUpdateAction)>, records: Hash -> MediaRecord, collapse: Collapse)
      requires Valid()
      modifies this`singletons, this`collected, this`collectMapSingletons, this`collectMapCollected,
        this`hashes, this`hashesToSingleton, this`hashesToCollected, sortedMedia`sortedList, sortedMedia`itemsToIndices,
        collected
      ensures Valid()
      ensures ResetsService(updates, fileServiceKey) ==>
        singletons == {} && collected == {} && sortedMedia.sortedList == [] && hashes == {}
      ensures !ResetsService(updates, fileServiceKey) ==>
        && singletons == old(singletons) && collected == old(collected) && hashes == old(hashes)
        && sortedMedia.sortedList == old(sortedMedia.sortedList)
    {
      var i := 0;
      while i < |updates|
        invariant 0 <= i <= |updates|
        invariant Valid() && sortedMedia == old(sortedMedia) && collected <= old(collected)
        invariant ResetsService(updates[..i], fileServiceKey) ==> singletons == {} && collected == {}
        invariant !ResetsService(updates[..i], fileServiceKey) ==>
          && singletons == old(singletons) && collected == old(collected) && hashes == old(hashes)
          && sortedMedia.sortedList == old(sortedMedia.sortedList)
      {
        ProcessServiceUpdateAt(updates, i, records, collapse, old(singletons), old(collected), old(hashes),
          old(sortedMedia.sortedList));
        i := i + 1;
      }
      assert updates[..i] == updates;
      if ResetsService(updates, fileServiceKey) {
        EmptyHoldsNothing();
      }
    }

    /** The i-th update of a batch, which keeps what the updates before it
        established about the list. */
    method ProcessServiceUpdateAt(updates: seq<(ServiceKey, ServiceUpdateAction)>, i: nat, records: Hash -> MediaRecord,
                                  collapse: Collapse, ghost ss: set<MediaSingleton>, ghost cs: set<MediaCollection>,
                                  ghost hs: set<Hash>, ghost nodes: seq<Media>)
      requires i < |updates| && Valid()
      requires ResetsService(updates[..i], fileServiceKey) ==> singletons == {} && collected == {}
      requires !ResetsService(updates[..i], fileServiceKey) ==>
        singletons == ss && collected == cs && hashes == hs && sortedMedia.sortedList == nodes
      modifies this`singletons, this`collected, this`collectMapSingletons, this`collectMapCollected,
        this`hashes, this`hashesToSingleton, this`hashesToCollected, sortedMedia`sortedList, sortedMedia`itemsToIndices,
        collected
      ensures Valid() && collected <= old(collected)
      ensures ResetsService(updates[..i + 1], fileServiceKey) ==> singletons == {} && collected == {}
      ensures !ResetsService(updates[..i + 1], fileServiceKey) ==>
        singletons == ss && collected == cs && hashes == hs && sortedMedia.sortedList == nodes
    {
      ResetsServiceStep(updates, i, fileServiceKey);
      ProcessServiceUpdate(updates[i].0, updates[i].1, records, collapse);
    }

    /** A valid list with no singletons and no collections has no nodes and
        no hashes. */
    lemma EmptyHoldsNothing()
      requires Valid() && singletons == {} && collected == {}
      ensures sortedMedia.sortedList == [] && hashes == {}
    {
      FirstListed(sortedMedia.sortedList);
    }

    /** Valid after the list and the collections were sorted: only orders
        changed. */
    twostate lemma SortedValid()
      requires old(Valid())
      requires unchanged(this`singletons, this`collected, this`collectMapSingletons, this`collectMapCollected,
        this`hashes, this`hashesToSingleton, this`hashesToCollected, this`sortedMedia)
      requires sortedMedia.Valid() && multiset(sortedMedia.sortedList) == multiset(old(sortedMedia.sortedList))
      requires CollectionsValid(collected, fileServiceKey)
      requires forall c :: c in collected ==> c.hashes == old(c.hashes)
      ensures Valid()
    {
      var list := sortedMedia.sortedList;
      PermutationKeepsNoDuplicates(old(sortedMedia.sortedList), list);
      forall e | e in list ensures HeldBy(e, singletons, collected) {
        assert e in multiset(old(sortedMedia.sortedList));
      }
      forall e | e in old(sortedMedia.sortedList) ensures e in list {
        assert e in multiset(list);
      }
      CollectionHashesKept();
    }

    /** The list's key and reverse flag of a sort. */
    function SpecOf(m: MediaSort, env: Env): Result<(KeySpec, bool)>
    {
      GetSortKeyAndReverse(m, fileServiceKey, env.directory.localFileDomains)
    }

    /** Valid after the list alone was sorted. */
    twostate lemma ListSortedValid()
      requires old(Valid())
      requires unchanged(this`singletons, this`collected, this`collectMapSingletons, this`collectMapCollected,
        this`hashes, this`hashesToSingleton, this`hashesToCollected, this`sortedMedia)
      requires sortedMedia.Valid() && multiset(sortedMedia.sortedList) == multiset(old(sortedMedia.sortedList))
      requires unchanged(collected)
      ensures Valid()
    {
      forall c | c in collected ensures c.Valid() && c.fileServiceKey == fileServiceKey {
        assert old(c.Valid());
      }
      SortedValid();
    }

    /** The collections' part of Sort: each collection sorts, and the
        first that fails stops; the list itself is left alone. */
    method SortChildren(ms: Option<MediaSort>, fallback: MediaSort, env: Env, records: Hash -> MediaRecord,
                        childFallbackDraws: MediaSingleton -> real, childDraws: MediaSingleton -> real)
      returns (r: Outcome, ghost prior: map<MediaCollection, MediaSort>,
               ghost fallbackKeys: map<MediaCollection, MediaSingleton -> SortKey>,
               ghost keys: map<MediaCollection, MediaSingleton -> SortKey>)
      requires Valid()
      modifies collected
      ensures Valid()
      ensures prior == map c | c in collected :: old(c.mediaSort)
      ensures r == Pass <==> forall c :: c in collected ==> SortSucceeds(ms, old(c.mediaSort), fallback)
      ensures r == Pass ==>
        forall c :: c in collected ==> c in prior && c.mediaSort == Chosen(ms, prior[c]) && SortSucceeds(ms, prior[c], fallback)
      ensures r == Pass ==> forall c :: c in collected ==>
        c in fallbackKeys && c in keys &&
        SortedChildren(c, old(c.sortedMedia), fallback, env, records, childFallbackDraws, childDraws, fallbackKeys[c], keys[c])
      ensures forall m :: m in sortedMedia.sortedList ==> View(m, records) == old(View(m, records))
    {
      r, fallbackKeys, keys := SortCollections(collected, fileServiceKey, ms, fallback, env, records, childFallbackDraws, childDraws);
      SortedValid();
      prior := map c | c in collected :: old(c.mediaSort);
      forall m | m in sortedMedia.sortedList ensures View(m, records) == old(View(m, records)) {
        assert HeldBy(m, singletons, collected);
      }
    }

    /** The list's own part of Sort: the stored sort is replaced by the
        one given and the nodes are sorted by the fallback and stored keys. */
    method SortOwn(ms: Option<MediaSort>, fallback: MediaSort, env: Env, records: Hash -> MediaRecord,
                   fallbackDraws: Media -> real, draws: Media -> real, ghost prior: map<MediaCollection, MediaSort>)
      returns (r: Outcome, ghost fallbackKey: Media -> SortKey, ghost key: Media -> SortKey)
      requires Valid()
      requires forall c :: c in collected ==> c in prior && c.mediaSort == Chosen(ms, prior[c]) && SortSucceeds(ms, prior[c], fallback)
      ensures forall c :: c in collected ==> c in prior && c.mediaSort == Chosen(ms, prior[c]) && SortSucceeds(ms, prior[c], fallback)
      ensures unchanged(collected)
      modifies this`mediaSort, sortedMedia`sortedList, sortedMedia`itemsToIndices, sortedMedia`sortKey, sortedMedia`sortReverse
      ensures Valid()
      ensures mediaSort == Chosen(ms, old(mediaSort))
      ensures multiset(sortedMedia.sortedList) == multiset(old(sortedMedia.sortedList))
      ensures r == Pass <==> SortSucceeds(ms, old(mediaSort), fallback)
      ensures r == Pass ==>
        forall m :: m in old(sortedMedia.sortedList) ==>
          && KeyFits(fallbackKey(m), SpecOf(fallback, env).value.0, old(View(m, records)), env, fallbackDraws(m))
          && KeyFits(key(m), SpecOf(mediaSort, env).value.0, old(View(m, records)), env, draws(m))
      ensures r == Pass ==>
        sortedMedia.sortedList == StableSort(KeyLess, key, SpecOf(mediaSort, env).value.1,
          StableSort(KeyLess, fallbackKey, SpecOf(fallback, env).value.1, old(sortedMedia.sortedList)))
    {
      var chosen := Chosen(ms, mediaSort);
      r, fallbackKey, key := SortList(sortedMedia, SpecOf(fallback, env), SpecOf(chosen, env), env, records, fallbackDraws, draws);
      mediaSort := chosen;
      ListSortedValid();
    }

    /** Sort: every collection sorts first, and the first that fails stops
        the sort; then the stored sort is replaced by the one given and the
        nodes are sorted stably by the fallback key and again by the stored
        sort's key. */
    method Sort(ms: Option<MediaSort>, fallback: MediaSort, env: Env, records: Hash -> MediaRecord,
                fallbackDraws: Media -> real, draws: Media -> real,
                childFallbackDraws: MediaSingleton -> real, childDraws: MediaSingleton -> real)
      returns (r: Outcome, ghost fallbackKey: Media -> SortKey, ghost key: Media -> SortKey,
               ghost childFallbackKeys: map<MediaCollection, MediaSingleton -> SortKey>,
               ghost childKeys: map<MediaCollection, MediaSingleton -> SortKey>)
      requires Valid()
      modifies this`mediaSort, sortedMedia`sortedList, sortedMedia`itemsToIndices, sortedMedia`sortKey, sortedMedia`sortReverse,
        collected
      ensures Valid()
      ensures multiset(sortedMedia.sortedList) == multiset(old(sortedMedia.sortedList))
      ensures r == Pass <==>
        SortSucceeds(ms, old(mediaSort), fallback) &&
        forall c :: c in collected ==> SortSucceeds(ms, old(c.mediaSort), fallback)
      ensures r == Pass ==> forall c :: c in collected ==> c.mediaSort == Chosen(ms, old(c.mediaSort))
      ensures r == Pass ==> forall c :: c in collected ==>
        c in childFallbackKeys && c in childKeys &&
        SortedChildren(c, old(c.sortedMedia), fallback, env, records, childFallbackDraws, childDraws, childFallbackKeys[c], childKeys[c])
      ensures r == Pass ==> mediaSort == Chosen(ms, old(mediaSort))
      ensures r == Pass ==>
        forall m :: m in old(sortedMedia.sortedList) ==>
          && KeyFits(fallbackKey(m), SpecOf(fallback, env).value.0, old(View(m, records)), env, fallbackDraws(m))
          && KeyFits(key(m), SpecOf(mediaSort, env).value.0, old(View(m, records)), env, draws(m))
      ensures r == Pass ==>
        sortedMedia.sortedList == StableSort(KeyLess, key, SpecOf(mediaSort, env).value.1,
          StableSort(KeyLess, fallbackKey, SpecOf(fallback, env).value.1, old(sortedMedia.sortedList)))
    {
      fallbackKey := x => Num(0.0);
      key := x => Num(0.0);
      ghost var prior;
      r, prior, childFallbackKeys, childKeys := SortChildren(ms, fallback, env, records, childFallbackDraws, childDraws);
      if r.Fail? {
        return;
      }
      r, fallbackKey, key := SortOwn(ms, fallback, env, records, fallbackDraws, draws, prior);
    }
  }
}
