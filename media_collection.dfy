/** MediaSingleton and MediaCollection: the nodes of a media list. A
    collection is a list of singletons with cached aggregates; the records
    of the media results are read, as they stand at each call, through a
    function from hash to record. */
module MediaCollections {
  import opened Common
  import opened Ordering
  import opened SortedLists
  import opened Tags
  import opened MediaResults
  import opened MediaSorts
  import opened MediaValues

  /** One media result in a list. Its identity is the object's, as with the
      per-object random id the source hashes and compares by. */
  class MediaSingleton {
    const hash: Hash

    constructor(hash: Hash)
      ensures this.hash == hash
    {
      this.hash := hash;
    }
  }

  /** A node of a media list. */
  datatype Media = Single(s: MediaSingleton) | Coll(c: MediaCollection)

  /** _GenerateMediaSingleton for each media result, in order. */
  method GenerateSingletons(hs: seq<Hash>) returns (ms: seq<MediaSingleton>)
    ensures |ms| == |hs|
    ensures forall i :: 0 <= i < |hs| ==> ms[i].hash == hs[i] && fresh(ms[i])
    ensures NoDuplicates(ms)
  {
    ms := [];
    var i := 0;
    while i < |hs|
      invariant 0 <= i <= |hs| && |ms| == i
      invariant forall j :: 0 <= j < i ==> ms[j].hash == hs[j] && fresh(ms[j])
      invariant NoDuplicates(ms)
    {
      var s := new MediaSingleton(hs[i]);
      ms := ms + [s];
      i := i + 1;
    }
  }

  function Records(ms: seq<MediaSingleton>, records: Hash -> MediaRecord): (rs: seq<MediaRecord>)
    ensures |rs| == |ms| && forall i :: 0 <= i < |ms| ==> rs[i] == records(ms[i].hash)
  {
    seq(|ms|, i requires 0 <= i < |ms| => records(ms[i].hash))
  }

  function HashesOf(ms: set<MediaSingleton>): set<Hash>
  {
    set s | s in ms :: s.hash
  }

  function Members(ms: seq<MediaSingleton>): set<MediaSingleton>
  {
    set s | s in ms
  }

  /** _hashes_to_singleton_media over a set of singletons: one singleton of
      each hash, which one depending on the set's iteration order. */
  ghost predicate Indexes(m: map<Hash, MediaSingleton>, ms: set<MediaSingleton>)
  {
    m.Keys == HashesOf(ms) && forall h :: h in m ==> m[h] in ms && m[h].hash == h
  }

  /** The singletons of the hashes given, through the index. */
  function Affected(m: map<Hash, MediaSingleton>, hs: set<Hash>): set<MediaSingleton>
  {
    set h | h in hs && h in m :: m[h]
  }

  /** The singleton half of _RecalcHashes. */
  method IndexSingletons(ms: set<MediaSingleton>) returns (hs: set<Hash>, m: map<Hash, MediaSingleton>)
    ensures hs == HashesOf(ms) && Indexes(m, ms)
  {
    hs := {};
    m := map[];
    var left := ms;
    while left != {}
      invariant left <= ms
      invariant hs == HashesOf(ms - left) && Indexes(m, ms - left)
      decreases left
    {
      var s :| s in left;
      hs := hs + {s.hash};
      m := m[s.hash := s];
      left := left - {s};
    }
  }

  /** With no two singletons sharing a hash, removing the indexed
      singletons of some hashes keeps exactly the singletons with other
      hashes. */
  lemma RemovalByHashes(ms: seq<MediaSingleton>, m: map<Hash, MediaSingleton>, hs: set<Hash>)
    requires Indexes(m, Members(ms))
    requires forall i, j :: 0 <= i < |ms| && 0 <= j < |ms| && ms[i].hash == ms[j].hash ==> ms[i] == ms[j]
    ensures forall s :: s in Remaining(ms, Affected(m, hs)) <==> s in ms && s.hash !in hs
  {
    forall s ensures s in Remaining(ms, Affected(m, hs)) <==> s in ms && s.hash !in hs {
      if s in ms && s.hash in hs {
        assert s in Members(ms);
        var t := m[s.hash];
        var i :| 0 <= i < |ms| && ms[i] == s;
        var j :| 0 <= j < |ms| && ms[j] == t;
        assert s in Affected(m, hs);
      }
      if s in ms && s.hash !in hs {
        var i :| 0 <= i < |ms| && ms[i] == s;
        assert s !in Affected(m, hs);
      }
    }
  }

  /** No two of the singletons share a hash. */
  ghost predicate DistinctHashes(ms: set<MediaSingleton>)
  {
    forall s, t :: s in ms && t in ms && s.hash == t.hash ==> s == t
  }

  /** With no two singletons sharing a hash, none left after removing the
      indexed singletons of some hashes has one of them. */
  lemma RemovalClears(ms: set<MediaSingleton>, m: map<Hash, MediaSingleton>, hs: set<Hash>)
    requires Indexes(m, ms) && DistinctHashes(ms)
    ensures forall s :: s in ms - Affected(m, hs) ==> s.hash !in hs
  {
    forall s | s in ms && s.hash in hs ensures s in Affected(m, hs) {
      assert s.hash in HashesOf(ms);
    }
  }

  /** Removing nothing keeps the list. */
  lemma {:induction false} RemainingAll<T>(s: seq<T>, x: set<T>)
    requires forall e :: e in s ==> e !in x
    ensures Remaining(s, x) == s
  {
    if s != [] {
      var n := |s| - 1;
      var init := s[..n];
      forall e | e in init ensures e !in x {
        var i :| 0 <= i < n && init[i] == e;
        assert e == s[i];
      }
      RemainingAll(init, x);
      assert s[n] !in x;
      assert init + [s[n]] == s;
    }
  }

  // ---------------------------------------------------------------------
  // Sort keys of a list of nodes

  /** What the key of one node under a key spec is: the evaluated key, and
      for a namespace sort one ascending slice per namespace holding the
      node's sortable subtags in it. */
  ghost predicate KeyFits(k: SortKey, spec: KeySpec, v: NodeView, env: Env, draw: real)
  {
    if spec.ByNamespaces? then
      k.Slices? && |k.slices| == |spec.namespaces| &&
      forall i :: 0 <= i < |k.slices| ==>
        SortedBy(StrLess, (x: string) => x, false, k.slices[i]) &&
        CountsSortable(k.slices[i], ViewCombinedTags(v, env.collapse), env.split, env.sortable, spec.namespaces[i])
    else
      k == EvalKey(spec, v, env.collapse, draw, [])
  }

  /** A node has one key under a key spec. */
  lemma KeyFitsUnique(k1: SortKey, k2: SortKey, spec: KeySpec, v: NodeView, env: Env, draw: real)
    requires KeyFits(k1, spec, v, env, draw) && KeyFits(k2, spec, v, env, draw)
    ensures k1 == k2
  {
    if spec.ByNamespaces? {
      var tags := ViewCombinedTags(v, env.collapse);
      forall i | 0 <= i < |k1.slices| ensures k1.slices[i] == k2.slices[i] {
        CountsSortableUnique(k1.slices[i], k2.slices[i], tags, env.split, env.sortable, spec.namespaces[i]);
      }
    }
  }

  /** The key function of one sort, evaluated once per node before the
      sort; the random draw of each node is given. */
  method NodeKeys<T(==)>(nodes: seq<T>, views: seq<NodeView>, spec: KeySpec, env: Env, draws: T -> real)
    returns (keys: map<T, SortKey>)
    requires |views| == |nodes| && NoDuplicates(nodes)
    ensures forall i :: 0 <= i < |nodes| ==> nodes[i] in keys && KeyFits(keys[nodes[i]], spec, views[i], env, draws(nodes[i]))
  {
    keys := map[];
    var i := 0;
    while i < |nodes|
      invariant 0 <= i <= |nodes|
      invariant forall j :: 0 <= j < i ==> nodes[j] in keys && KeyFits(keys[nodes[j]], spec, views[j], env, draws(nodes[j]))
    {
      var k: SortKey;
      if spec.ByNamespaces? {
        var slices := ComparableNamespaceSlice(ViewCombinedTags(views[i], env.collapse), spec.namespaces, env.split, env.sortable);
        k := EvalKey(spec, views[i], env.collapse, draws(nodes[i]), slices);
      } else {
        k := EvalKey(spec, views[i], env.collapse, draws(nodes[i]), []);
      }
      keys := keys[nodes[i] := k];
      i := i + 1;
    }
  }

  function SingletonView(s: MediaSingleton, records: Hash -> MediaRecord): NodeView
  {
    SingleView(s.hash, records(s.hash))
  }

  function Views(ms: seq<MediaSingleton>, records: Hash -> MediaRecord): (vs: seq<NodeView>)
    ensures |vs| == |ms| && forall i :: 0 <= i < |ms| ==> vs[i] == SingletonView(ms[i], records)
  {
    seq(|ms|, i requires 0 <= i < |ms| => SingletonView(ms[i], records))
  }

  // ---------------------------------------------------------------------
  // GetHashes and GenerateMediaResults of a list of singletons

  /** The unordered GetHashes over singletons: the union of their own. */
  function FilteredHashes(ms: seq<MediaSingleton>, records: Hash -> MediaRecord, hasLocation: Option<ServiceKey>,
                          discriminant: Option<Discriminant>, notUploadedTo: Option<ServiceKey>): (r: set<Hash>)
    ensures forall h :: h in r <==>
      exists i :: 0 <= i < |ms| && ms[i].hash == h && PassesFilters(records(h), hasLocation, discriminant, notUploadedTo)
  {
    if ms == [] then {}
    else
      var last := ms[|ms| - 1];
      assert forall i :: 0 <= i < |ms| - 1 ==> ms[..|ms| - 1][i] == ms[i];
      FilteredHashes(ms[..|ms| - 1], records, hasLocation, discriminant, notUploadedTo) +
        SingletonHashes(last.hash, records(last.hash), hasLocation, discriminant, notUploadedTo)
  }

  /** The ordered GetHashes over singletons: theirs concatenated. */
  function OrderedHashes(ms: seq<MediaSingleton>, records: Hash -> MediaRecord, hasLocation: Option<ServiceKey>,
                         discriminant: Option<Discriminant>, notUploadedTo: Option<ServiceKey>): seq<Hash>
  {
    if ms == [] then []
    else
      var last := ms[|ms| - 1];
      OrderedHashes(ms[..|ms| - 1], records, hasLocation, discriminant, notUploadedTo) +
        SingletonHashesOrdered(last.hash, records(last.hash), hasLocation, discriminant, notUploadedTo)
  }

  /** The ordered hashes are the unordered ones, each passing file once in
      list order, and no more of them than there are singletons. */
  lemma {:induction false} OrderedHashesAgree(ms: seq<MediaSingleton>, records: Hash -> MediaRecord, hasLocation: Option<ServiceKey>,
                                              discriminant: Option<Discriminant>, notUploadedTo: Option<ServiceKey>)
    ensures var o := OrderedHashes(ms, records, hasLocation, discriminant, notUploadedTo);
      |o| <= |ms| && forall h :: h in o <==> h in FilteredHashes(ms, records, hasLocation, discriminant, notUploadedTo)
    decreases |ms|
  {
    if ms != [] {
      OrderedHashesAgree(ms[..|ms| - 1], records, hasLocation, discriminant, notUploadedTo);
    }
  }

  /** With no filter, GetHashes is every singleton's hash. */
  lemma UnfilteredHashes(ms: seq<MediaSingleton>, records: Hash -> MediaRecord)
    ensures FilteredHashes(ms, records, None, None, None) == HashesOf(Members(ms))
  {
    var a, b := FilteredHashes(ms, records, None, None, None), HashesOf(Members(ms));
    forall h ensures h in a <==> h in b {
      if h in b {
        var s :| s in Members(ms) && s.hash == h;
        var i :| 0 <= i < |ms| && ms[i] == s;
      }
    }
  }

  /** The filters of GenerateMediaResults. */
  datatype ResultFilter = ResultFilter(
    hasLocation: Option<ServiceKey>,
    discriminant: Option<Discriminant>,
    selected: Option<set<Media>>,
    unrated: Option<ServiceKey>,
    forMediaViewer: bool)

  /** A singleton's media result is generated when it has the location, is
      selected, passes the discriminant, is unrated under the given service
      and, for the media viewer, its mime is not one the viewer skips. */
  predicate ResultSelected(s: MediaSingleton, records: Hash -> MediaRecord, f: ResultFilter, env: Env)
  {
    var r := records(s.hash);
    (f.hasLocation.Some? ==> f.hasLocation.value in r.locations.current) &&
    (f.selected.Some? ==> Single(s) in f.selected.value) &&
    (f.discriminant.Some? ==> Discriminates(f.discriminant.value, r)) &&
    (f.unrated.Some? ==> GetRating(r.ratings, f.unrated.value).None?) &&
    (f.forMediaViewer ==> !env.hiddenInViewer(r.info.mime))
  }

  /** GenerateMediaResults over singletons, in list order. */
  function SingletonResults(ms: seq<MediaSingleton>, records: Hash -> MediaRecord, f: ResultFilter, env: Env): (r: seq<Hash>)
    ensures |r| <= |ms|
    ensures forall h :: h in r <==> exists i :: 0 <= i < |ms| && ms[i].hash == h && ResultSelected(ms[i], records, f, env)
  {
    if ms == [] then []
    else
      var last := ms[|ms| - 1];
      assert forall i :: 0 <= i < |ms| - 1 ==> ms[..|ms| - 1][i] == ms[i];
      SingletonResults(ms[..|ms| - 1], records, f, env) + (if ResultSelected(last, records, f, env) then [last.hash] else [])
  }

  /** A file delete that the visibility rule applies to in a view. */
  predicate HidesFiles(serviceKey: ServiceKey, scope: ServiceKey, u: ContentUpdate, env: Env)
  {
    u.dataType == Files && u.action == Delete &&
    DeleteRemovesFromView(serviceKey, scope, env.directory, env.removeTrashedFiles)
  }

  // ---------------------------------------------------------------------

  lemma FilteredHashesStep(ss: seq<MediaSingleton>, i: nat, records: Hash -> MediaRecord, hasLocation: Option<ServiceKey>,
                           discriminant: Option<Discriminant>, notUploadedTo: Option<ServiceKey>)
    requires i < |ss|
    ensures FilteredHashes(ss[..i + 1], records, hasLocation, discriminant, notUploadedTo) ==
      FilteredHashes(ss[..i], records, hasLocation, discriminant, notUploadedTo) +
      SingletonHashes(ss[i].hash, records(ss[i].hash), hasLocation, discriminant, notUploadedTo)
  {
    assert ss[..i + 1][..i] == ss[..i];
  }

  /** The filtering loop of GetHashes: each singleton's hashes, in list
      order. */
  method CollectFilteredHashes(ss: seq<MediaSingleton>, records: Hash -> MediaRecord, hasLocation: Option<ServiceKey>,
                               discriminant: Option<Discriminant>, notUploadedTo: Option<ServiceKey>) returns (r: set<Hash>)
    ensures r == FilteredHashes(ss, records, hasLocation, discriminant, notUploadedTo)
  {
    r := {};
    var i := 0;
    while i < |ss|
      invariant 0 <= i <= |ss|
      invariant r == FilteredHashes(ss[..i], records, hasLocation, discriminant, notUploadedTo)
    {
      FilteredHashesStep(ss, i, records, hasLocation, discriminant, notUploadedTo);
      r := r + SingletonHashes(ss[i].hash, records(ss[i].hash), hasLocation, discriminant, notUploadedTo);
      i := i + 1;
    }
    assert ss[..i] == ss;
  }

  /** A collection: a media list of singletons with aggregates recomputed
      after every change. */
  class MediaCollection {
    const fileServiceKey: ServiceKey
    var sortedMedia: seq<MediaSingleton>
    var hashes: set<Hash>
    var hashesToSingleton: map<Hash, MediaSingleton>
    var mediaSort: MediaSort
    var internals: Internals

    /** The list holds no singleton twice, and the hashes and their index
        are those of the list's singletons. */
    ghost predicate Valid()
      reads this
    {
      NoDuplicates(sortedMedia) && hashes == HashesOf(Members(sortedMedia)) &&
      Indexes(hashesToSingleton, Members(sortedMedia))
    }

    /** The aggregates are those of the children as the records stand. */
    ghost predicate Current(records: Hash -> MediaRecord, collapse: Collapse)
      reads this
    {
      internals == CollectionInternals(Records(sortedMedia, records), collapse)
    }

    constructor(fileServiceKey: ServiceKey, children: seq<MediaSingleton>, records: Hash -> MediaRecord, collapse: Collapse)
      requires NoDuplicates(children)
      ensures Valid() && Current(records, collapse)
      ensures this.fileServiceKey == fileServiceKey && sortedMedia == children
      ensures mediaSort == NewMediaSort(None, None)
    {
      this.fileServiceKey := fileServiceKey;
      sortedMedia := children;
      mediaSort := NewMediaSort(None, None);
      var hs, m := IndexSingletons(Members(children));
      hashes := hs;
      hashesToSingleton := m;
      internals := CollectionInternals(Records(children, records), collapse);
    }

    method RecalcHashes()
      requires NoDuplicates(sortedMedia)
      modifies this`hashes, this`hashesToSingleton
      ensures Valid()
    {
      hashes, hashesToSingleton := IndexSingletons(Members(sortedMedia));
    }

    /** _RecalcInternals: the hashes, then every aggregate. */
    method RecalcInternals(records: Hash -> MediaRecord, collapse: Collapse)
      requires NoDuplicates(sortedMedia)
      modifies this`hashes, this`hashesToSingleton, this`internals
      ensures Valid() && Current(records, collapse)
    {
      RecalcHashes();
      internals := CollectionInternals(Records(sortedMedia, records), collapse);
    }

    /** _RemoveMediaByHashes: the indexed singletons of the hashes leave the
        list, which keeps its order; the aggregates are not recomputed. */
    method RemoveMediaByHashes(hs: set<Hash>)
      requires Valid()
      modifies this`sortedMedia, this`hashes, this`hashesToSingleton
      ensures Valid()
      ensures sortedMedia == Remaining(old(sortedMedia), Affected(old(hashesToSingleton), hs))
    {
      var affected := Affected(hashesToSingleton, hs);
      RemoveMediaDirectly(affected);
    }

    /** _RemoveMediaDirectly with singletons only. */
    method RemoveMediaDirectly(ss: set<MediaSingleton>)
      requires Valid()
      requires forall s :: s in ss ==> s in sortedMedia
      modifies this`sortedMedia, this`hashes, this`hashesToSingleton
      ensures Valid()
      ensures sortedMedia == Remaining(old(sortedMedia), ss)
    {
      var original := sortedMedia;
      var positions := set s | s in ss :: IndexMap(original)[s];
      assert positions == Positions(original, ss);
      sortedMedia := DeletePositions(original, positions);
      RemoveByPositionsRemovesItems(original, ss);
      RemainingKeepsNoDuplicates(original, ss);
      RecalcHashes();
    }

    /** AddMedia, which always appends, then recomputes the aggregates. */
    method AddMedia(newMedia: seq<MediaSingleton>, records: Hash -> MediaRecord, collapse: Collapse)
      requires Valid()
      requires NoDuplicates(newMedia) && forall s :: s in newMedia ==> s !in sortedMedia
      modifies this`sortedMedia, this`hashes, this`hashesToSingleton, this`internals
      ensures Valid() && Current(records, collapse)
      ensures sortedMedia == old(sortedMedia) + newMedia
    {
      ConcatNoDuplicates(sortedMedia, newMedia);
      sortedMedia := sortedMedia + newMedia;
      RecalcInternals(records, collapse);
    }

    /** DeletePending: nothing of the list changes, the aggregates are
        recomputed from the records. */
    method DeletePending(records: Hash -> MediaRecord, collapse: Collapse)
      requires Valid()
      modifies this`hashes, this`hashesToSingleton, this`internals
      ensures Valid() && Current(records, collapse)
      ensures hashes == old(hashes)
    {
      RecalcInternals(records, collapse);
    }

    /** ProcessContentUpdate: the list's visibility rule, then the
        aggregates. */
    method ProcessContentUpdate(serviceKey: ServiceKey, u: ContentUpdate, env: Env, records: Hash -> MediaRecord)
      requires Valid()
      modifies this`sortedMedia, this`hashes, this`hashesToSingleton, this`internals
      ensures Valid() && Current(records, env.collapse)
      ensures HidesFiles(serviceKey, fileServiceKey, u, env) ==>
        sortedMedia == Remaining(old(sortedMedia), Affected(old(hashesToSingleton), u.Hashes()))
      ensures !HidesFiles(serviceKey, fileServiceKey, u, env) ==> sortedMedia == old(sortedMedia)
    {
      if HidesFiles(serviceKey, fileServiceKey, u, env) {
        RemoveMediaByHashes(u.Hashes());
      }
      RecalcInternals(records, env.collapse);
    }

    /** ResetService: resetting the collection's own file service empties
        it; any other reset only recomputes the aggregates. */
    method ResetService(serviceKey: ServiceKey, records: Hash -> MediaRecord, collapse: Collapse)
      requires Valid()
      modifies this`sortedMedia, this`hashes, this`hashesToSingleton, this`internals
      ensures Valid() && Current(records, collapse)
      ensures serviceKey == fileServiceKey ==> sortedMedia == []
      ensures serviceKey != fileServiceKey ==> sortedMedia == old(sortedMedia)
    {
      if serviceKey == fileServiceKey {
        RemoveMediaDirectly(Members(sortedMedia));
        RemainingNone(old(sortedMedia), Members(old(sortedMedia)));
      }
      RecalcInternals(records, collapse);
    }

    /** Sort: the stored sort is replaced by the one given, then the list is
        sorted stably by the fallback key and again by the stored sort's
        key. An unknown system sort stops it where the source raises. */
    method Sort(ms: Option<MediaSort>, fallback: MediaSort, env: Env, records: Hash -> MediaRecord,
                fallbackDraws: MediaSingleton -> real, draws: MediaSingleton -> real)
      returns (r: Outcome, ghost fallbackKey: MediaSingleton -> SortKey, ghost key: MediaSingleton -> SortKey)
      requires Valid()
      modifies this`sortedMedia, this`mediaSort
      ensures Valid()
      ensures mediaSort == (if ms.Some? then ms.value else old(mediaSort))
      ensures multiset(sortedMedia) == multiset(old(sortedMedia))
      ensures r == Pass <==> FallbackSpec(fallback, env).Ok? && MainSpec(env).Ok?
      ensures FallbackSpec(fallback, env).Err? ==> sortedMedia == old(sortedMedia)
      ensures FallbackSpec(fallback, env).Ok? ==>
        forall s :: s in old(sortedMedia) ==>
          KeyFits(fallbackKey(s), FallbackSpec(fallback, env).value.0, SingletonView(s, records), env, fallbackDraws(s))
      ensures FallbackSpec(fallback, env).Ok? && MainSpec(env).Err? ==>
        sortedMedia == StableSort(KeyLess, fallbackKey, FallbackSpec(fallback, env).value.1, old(sortedMedia))
      ensures r == Pass ==>
        forall s :: s in old(sortedMedia) ==>
          KeyFits(key(s), MainSpec(env).value.0, SingletonView(s, records), env, draws(s))
      ensures r == Pass ==>
        sortedMedia == StableSort(KeyLess, key, MainSpec(env).value.1,
          StableSort(KeyLess, fallbackKey, FallbackSpec(fallback, env).value.1, old(sortedMedia)))
    {
      fallbackKey := x => Num(0.0);
      key := x => Num(0.0);
      if ms.Some? {
        mediaSort := ms.value;
      }
      var fb := FallbackSpec(fallback, env);
      if fb.Err? {
        return Fail(fb.error), fallbackKey, key;
      }
      var before := sortedMedia;
      fallbackKey := SortPass(fb.value.0, fb.value.1, env, records, fallbackDraws);
      SameMembers(before, sortedMedia);
      var main := MainSpec(env);
      if main.Err? {
        return Fail(main.error), fallbackKey, key;
      }
      var middle := sortedMedia;
      key := SortPass(main.value.0, main.value.1, env, records, draws);
      SameMembers(middle, sortedMedia);
      forall s | s in before ensures s in middle {
        assert s in multiset(before);
        assert s in multiset(middle);
      }
      r := Pass;
    }

    /** The key and reverse flag of a sort in this collection's scope. */
    function FallbackSpec(fallback: MediaSort, env: Env): Result<(KeySpec, bool)>
    {
      GetSortKeyAndReverse(fallback, fileServiceKey, env.directory.localFileDomains)
    }

    function MainSpec(env: Env): Result<(KeySpec, bool)>
      reads this
    {
      GetSortKeyAndReverse(mediaSort, fileServiceKey, env.directory.localFileDomains)
    }

    /** One stable sort of the list by the key of a key spec. */
    method SortPass(spec: KeySpec, reverse: bool, env: Env, records: Hash -> MediaRecord, draws: MediaSingleton -> real)
      returns (ghost key: MediaSingleton -> SortKey)
      requires NoDuplicates(sortedMedia)
      modifies this`sortedMedia
      ensures NoDuplicates(sortedMedia) && multiset(sortedMedia) == multiset(old(sortedMedia))
      ensures forall s :: s in old(sortedMedia) ==> KeyFits(key(s), spec, SingletonView(s, records), env, draws(s))
      ensures sortedMedia == StableSort(KeyLess, key, reverse, old(sortedMedia))
    {
      var keys := NodeKeys(sortedMedia, Views(sortedMedia, records), spec, env, draws);
      var k := (x: MediaSingleton) => if x in keys then keys[x] else Num(-1.0);
      key := k;
      forall s | s in sortedMedia
        ensures KeyFits(key(s), spec, SingletonView(s, records), env, draws(s))
      {
        var i :| 0 <= i < |sortedMedia| && sortedMedia[i] == s;
      }
      var before := sortedMedia;
      sortedMedia := StableSort(KeyLess, k, reverse, sortedMedia);
      PermutationKeepsNoDuplicates(before, sortedMedia);
    }

    /** GetHashes, unordered: the stored hashes when no filter is given. */
    method GetHashes(records: Hash -> MediaRecord, hasLocation: Option<ServiceKey>, discriminant: Option<Discriminant>,
                     notUploadedTo: Option<ServiceKey>) returns (r: set<Hash>)
      requires Valid()
      ensures r == FilteredHashes(sortedMedia, records, hasLocation, discriminant, notUploadedTo)
    {
      if hasLocation.None? && discriminant.None? && notUploadedTo.None? {
        UnfilteredHashes(sortedMedia, records);
        return hashes;
      }
      r := CollectFilteredHashes(sortedMedia, records, hasLocation, discriminant, notUploadedTo);
    }

    /** GetHashes, ordered: each singleton's hashes in list order. */
    method GetHashesOrdered(records: Hash -> MediaRecord, hasLocation: Option<ServiceKey>, discriminant: Option<Discriminant>,
                            notUploadedTo: Option<ServiceKey>) returns (r: seq<Hash>)
      ensures r == OrderedHashes(sortedMedia, records, hasLocation, discriminant, notUploadedTo)
    {
      r := [];
      var i := 0;
      while i < |sortedMedia|
        invariant 0 <= i <= |sortedMedia|
        invariant r == OrderedHashes(sortedMedia[..i], records, hasLocation, discriminant, notUploadedTo)
      {
        assert sortedMedia[..i + 1][..i] == sortedMedia[..i];
        var s := sortedMedia[i];
        r := r + SingletonHashesOrdered(s.hash, records(s.hash), hasLocation, discriminant, notUploadedTo);
        i := i + 1;
      }
      assert sortedMedia[..i] == sortedMedia;
    }

    /** GenerateMediaResults: the passing children's results in list order. */
    method GenerateMediaResults(f: ResultFilter, env: Env, records: Hash -> MediaRecord) returns (r: seq<Hash>)
      ensures r == SingletonResults(sortedMedia, records, f, env)
    {
      r := [];
      var i := 0;
      while i < |sortedMedia|
        invariant 0 <= i <= |sortedMedia|
        invariant r == SingletonResults(sortedMedia[..i], records, f, env)
      {
        assert sortedMedia[..i + 1][..i] == sortedMedia[..i];
        var s := sortedMedia[i];
        if ResultSelected(s, records, f, env) {
          r := r + [s.hash];
        }
        i := i + 1;
      }
      assert sortedMedia[..i] == sortedMedia;
    }

    /** HasMedia: a singleton of the list; a collection never is one. */
    function HasMedia(m: Option<Media>): (b: bool)
      reads this
      ensures b <==> m.Some? && m.value.Single? && m.value.s in sortedMedia
    {
      m.Some? && m.value.Single? && m.value.s in Members(sortedMedia)
    }

    /** The number of distinct hashes of the children: never more than
        the children, and as many when no two of them share a hash. */
    function GetNumFiles(): (n: nat)
      reads this
      ensures Valid() ==> n <= |sortedMedia|
      ensures Valid() && DistinctHashes(Members(sortedMedia)) ==> n == |sortedMedia|
    {
      DistinctCount(sortedMedia);
      |hashes|
    }

    /** How many children are in the inbox. */
    function GetNumInbox(records: Hash -> MediaRecord): (n: int)
      reads this
      ensures 0 <= n <= |sortedMedia|
      ensures n == 0 <==> forall i :: 0 <= i < |sortedMedia| ==> !records(sortedMedia[i].hash).locations.inbox
    {
      var rs := Records(sortedMedia, records);
      assert forall i :: 0 <= i < |sortedMedia| ==> rs[i] in rs;
      NumInbox(rs)
    }

    /** The sum of the children's frame counts; a child without one
        raises. */
    function GetNumFrames(records: Hash -> MediaRecord): (r: Result<int>)
      reads this
      ensures r.Ok? <==> forall i :: 0 <= i < |sortedMedia| ==> records(sortedMedia[i].hash).info.numFrames.Some?
      ensures r.Err? ==> r.error == MissingValue
    {
      var rs := Records(sortedMedia, records);
      NumFrames(rs)
    }

    /** The sum of the children's word counts; a child without one raises. */
    function GetNumWords(records: Hash -> MediaRecord): (r: Result<int>)
      reads this
      ensures r.Ok? <==> forall i :: 0 <= i < |sortedMedia| ==> records(sortedMedia[i].hash).info.numWords.Some?
      ensures r.Err? ==> r.error == MissingValue
    {
      var rs := Records(sortedMedia, records);
      NumWords(rs)
    }
  }

  /** Children never have more hashes than there are of them, and on
      repeat-free children of which no two share a hash as many. */
  lemma {:induction false} DistinctCount(s: seq<MediaSingleton>)
    ensures |HashesOf(Members(s))| <= |s|
    ensures NoDuplicates(s) && DistinctHashes(Members(s)) ==> |HashesOf(Members(s))| == |s|
    decreases |s|
  {
    if s != [] {
      var init, last := s[..|s| - 1], s[|s| - 1];
      assert s == init + [last];
      assert Members(s) == Members(init) + {last};
      assert HashesOf(Members(s)) == HashesOf(Members(init)) + {last.hash};
      DistinctCount(init);
      if NoDuplicates(s) && DistinctHashes(Members(s)) {
        assert DistinctHashes(Members(init));
        assert forall i :: 0 <= i < |init| ==> init[i] != last by {
          assert forall i :: 0 <= i < |init| ==> init[i] == s[i];
        }
        assert last.hash !in HashesOf(Members(init));
      }
    }
  }

  /** A collection's ResetService of its own file service as written: the
      inherited list reset hands _RemoveMediaDirectly the collection's own
      singleton set, which is emptied in place before the sorted list is
      told what to remove, so no child leaves; the hashes are then
      recalculated from the emptied set and the aggregates from the children
      still listed. The result is the children, hashes and aggregates. */
  function ResetOwnCollectionAsWritten(children: seq<MediaSingleton>, records: Hash -> MediaRecord, collapse: Collapse)
    : (seq<MediaSingleton>, set<Hash>, Internals)
  {
    var handed := Members(children) - Members(children);
    var kept := Remaining(children, handed);
    (kept, HashesOf(handed), CollectionInternals(Records(kept, records), collapse))
  }

  /** As written, the reset keeps every child with an empty hash set and
      aggregates over all the children, so a collection that had children
      is left inconsistent; MediaCollection.ResetService, which removes the
      children as they were, empties it. */
  lemma ResetOwnCollectionAsWrittenKeepsChildren(children: seq<MediaSingleton>, records: Hash -> MediaRecord, collapse: Collapse)
    ensures ResetOwnCollectionAsWritten(children, records, collapse)
         == (children, {}, CollectionInternals(Records(children, records), collapse))
    ensures children != [] ==> ResetOwnCollectionAsWritten(children, records, collapse).1 != HashesOf(Members(children))
  {
    var handed := Members(children) - Members(children);
    assert handed == {};
    RemainingAll(children, handed);
    assert HashesOf(handed) == {};
    if children != [] {
      assert children[0] in Members(children);
      assert children[0].hash in HashesOf(Members(children));
    }
  }

  lemma RemainingKeepsNoDuplicates<T>(s: seq<T>, x: set<T>)
    requires NoDuplicates(s)
    ensures NoDuplicates(Remaining(s, x))
  {
    if s != [] {
      var init := s[..|s| - 1];
      assert NoDuplicates(init);
      RemainingKeepsNoDuplicates(init, x);
      assert s[|s| - 1] !in init;
    }
  }

  lemma {:induction false} RemainingNone<T>(s: seq<T>, x: set<T>)
    requires forall e :: e in s ==> e in x
    ensures Remaining(s, x) == []
    decreases |s|
  {
    if s != [] {
      assert s[|s| - 1] in s;
      RemainingNone(s[..|s| - 1], x);
    }
  }

  lemma SameMembers(a: seq<MediaSingleton>, b: seq<MediaSingleton>)
    requires multiset(a) == multiset(b)
    ensures Members(a) == Members(b)
  {
    assert forall x :: x in a <==> x in multiset(a);
    assert forall x :: x in b <==> x in multiset(b);
  }

  lemma ConcatNoDuplicates<T>(a: seq<T>, b: seq<T>)
    requires NoDuplicates(a) && NoDuplicates(b)
    requires forall x :: x in b ==> x !in a
    ensures NoDuplicates(a + b)
  {
    forall i, j | 0 <= i < j < |a + b| ensures (a + b)[i] != (a + b)[j] {
      if i < |a| && j >= |a| {
        assert (a + b)[j] in b;
      }
    }
  }

  lemma PermutationKeepsNoDuplicates<T>(a: seq<T>, b: seq<T>)
    requires NoDuplicates(a) && multiset(a) == multiset(b)
    ensures NoDuplicates(b)
  {
    forall i, j | 0 <= i < j < |b| ensures b[i] != b[j] {
      if b[i] == b[j] {
        assert multiset(b)[b[i]] >= 2 by {
          assert b == b[..i] + [b[i]] + b[i + 1..j] + [b[j]] + b[j + 1..];
        }
        NoDuplicatesCount(a, b[i]);
      }
    }
  }

  lemma {:induction false} NoDuplicatesCount<T>(a: seq<T>, x: T)
    requires NoDuplicates(a)
    ensures multiset(a)[x] <= 1
    decreases |a|
  {
    if a != [] {
      var init := a[..|a| - 1];
      assert a == init + [a[|a| - 1]];
      NoDuplicatesCount(init, x);
      if x == a[|a| - 1] {
        assert x !in init;
      }
    }
  }
}
