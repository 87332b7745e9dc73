/** The value-level media engine: what a singleton or a collection reports,
    the filters of GetHashes and GenerateMediaResults, the rule that decides
    which file deletes remove files from a view, collection aggregates, the
    tag merge of collections, sort key evaluation and grouping by
    collection key. */
module MediaValues {
  import opened Common
  import opened Ordering
  import opened Tags
  import opened Locations
  import opened FileInfos
  import opened MediaResults
  import opened MediaSorts

  /** RatingsManager.GetRatingSlice's answer; ClientRatings is not part of
      this model. */
  type RatingSlice = set<(ServiceKey, real)>

  /** What the media engine otherwise looks up through the client
      controller and helper libraries. */
  datatype Env = Env(
    directory: ServiceDirectory,                               // service types and local file domains
    collapse: Collapse,                                        // the siblings manager's collapse
    split: Splitter,                                           // HydrusTags.SplitTag
    sortable: string -> string,                                // HydrusTags.ConvertTagToSortable
    removeTrashedFiles: bool,                                  // HC.options[ 'remove_trashed_files' ]
    ratingSlice: (Ratings, seq<ServiceKey>) -> RatingSlice,    // RatingsManager.GetRatingSlice
    hiddenInViewer: int -> bool)                               // the mime's show action is a do-not-show one

  // ---------------------------------------------------------------------
  // Sums, as Python's sum over a list

  function SumOf<T>(s: seq<T>, f: T -> int): int
  {
    if s == [] then 0 else SumOf(s[..|s| - 1], f) + f(s[|s| - 1])
  }

  lemma {:induction false} SumOfConcat<T>(a: seq<T>, b: seq<T>, f: T -> int)
    ensures SumOf(a + b, f) == SumOf(a, f) + SumOf(b, f)
    decreases |b|
  {
    if b == [] {
      assert a + b == a;
    } else {
      assert (a + b)[..|a + b| - 1] == a + b[..|b| - 1];
      SumOfConcat(a, b[..|b| - 1], f);
    }
  }

  /** A sum does not depend on the order of its terms. */
  lemma {:induction false} SumOfPermutation<T>(a: seq<T>, b: seq<T>, f: T -> int)
    requires multiset(a) == multiset(b)
    ensures SumOf(a, f) == SumOf(b, f)
    decreases |a|
  {
    assert |a| == |multiset(a)| == |multiset(b)| == |b|;
    if a != [] {
      var x := a[|a| - 1];
      var init := a[..|a| - 1];
      assert a == init + [x];
      assert x in multiset(b);
      var j :| 0 <= j < |b| && b[j] == x;
      var rest := b[..j] + b[j + 1..];
      assert b == b[..j] + [x] + b[j + 1..];
      assert multiset(init) == multiset(rest) by {
        assert multiset(a) == multiset(init) + multiset([x]);
        assert multiset(b) == multiset(b[..j]) + multiset([x]) + multiset(b[j + 1..]);
        assert multiset(rest) == multiset(b[..j]) + multiset(b[j + 1..]);
        assert multiset(init) == multiset(a) - multiset([x]);
        assert multiset(rest) == multiset(b) - multiset([x]);
      }
      SumOfPermutation(init, rest, f);
      SumOfConcat(b[..j] + [x], b[j + 1..], f);
      SumOfConcat(b[..j], [x], f);
      SumOfConcat(b[..j], b[j + 1..], f);
      assert SumOf([x], f) == f(x) by {
        assert [x][..0] == [];
      }
    }
  }

  lemma {:induction false} SumOfNonNegative<T>(s: seq<T>, f: T -> int)
    requires forall i :: 0 <= i < |s| ==> f(s[i]) >= 0
    ensures SumOf(s, f) >= 0
    decreases |s|
  {
    if s != [] {
      SumOfNonNegative(s[..|s| - 1], f);
    }
  }

  // ---------------------------------------------------------------------
  // MediaSingleton, over the record of its media result

  /** GetSize: a missing size counts as 0. */
  function SingletonSize(r: MediaRecord): (n: int)
    ensures r.info.size.Some? ==> n == r.info.size.value
    ensures r.info.size.None? ==> n == 0
  {
    if r.info.size.None? then 0 else r.info.size.value
  }

  /** GetResolution: a missing width makes the resolution (0, 0). */
  function SingletonResolution(r: MediaRecord): (res: (Option<int>, Option<int>))
    ensures res.0.Some?
    ensures r.info.width.None? ==> res == (Some(0), Some(0))
    ensures r.info.width.Some? ==> res == (r.info.width, r.info.height)
  {
    var wh := FileInfos.GetResolution(r.info);
    if wh.0.None? then (Some(0), Some(0)) else wh
  }

  /** Python 2 orders None below every number, so a missing frame count is
      never more than one. */
  predicate SingletonHasDuration(r: MediaRecord)
  {
    r.info.duration.Some? && r.info.numFrames.Some? && r.info.numFrames.value > 1
  }

  predicate SingletonHasInbox(r: MediaRecord) { r.locations.inbox }

  predicate SingletonHasArchive(r: MediaRecord) { !r.locations.inbox }

  predicate SingletonIsSizeDefinite(r: MediaRecord) { r.info.size.Some? }

  datatype Discriminant =
    | DiscriminantInbox
    | DiscriminantArchive
    | DiscriminantLocal
    | DiscriminantLocalButNotInTrash
    | DiscriminantNotLocal
    | DiscriminantDownloading

  /** Whether a file passes a discriminant. */
  predicate Discriminates(d: Discriminant, r: MediaRecord)
  {
    match d
    case DiscriminantInbox => r.locations.inbox
    case DiscriminantArchive => !r.locations.inbox
    case DiscriminantLocal => StateIsLocal(r.locations)
    case DiscriminantLocalButNotInTrash => StateIsLocal(r.locations) && !StateIsTrashed(r.locations)
    case DiscriminantNotLocal => !StateIsLocal(r.locations)
    case DiscriminantDownloading => StateIsDownloading(r.locations)
  }

  /** The three filters of MediaSingleton.GetHashes together. */
  predicate PassesFilters(r: MediaRecord, hasLocation: Option<ServiceKey>, discriminant: Option<Discriminant>,
                          notUploadedTo: Option<ServiceKey>)
  {
    (discriminant.Some? ==> Discriminates(discriminant.value, r)) &&
    (hasLocation.Some? ==> hasLocation.value in r.locations.current) &&
    (notUploadedTo.Some? ==> notUploadedTo.value !in Remote(r.locations.current))
  }

  /** MediaSingleton.GetHashes, unordered: the file's hash when every given
      filter passes, nothing otherwise. */
  function SingletonHashes(h: Hash, r: MediaRecord, hasLocation: Option<ServiceKey>,
                           discriminant: Option<Discriminant>, notUploadedTo: Option<ServiceKey>): (s: set<Hash>)
    ensures s <= {h}
    ensures h in s <==>
      (discriminant.Some? ==> Discriminates(discriminant.value, r)) &&
      (hasLocation.Some? ==> hasLocation.value in r.locations.current) &&
      (notUploadedTo.Some? ==> notUploadedTo.value !in Remote(r.locations.current))
  {
    if discriminant.Some? && !Discriminates(discriminant.value, r) then {}
    else if hasLocation.Some? && hasLocation.value !in r.locations.current then {}
    else if notUploadedTo.Some? && notUploadedTo.value in (r.locations.current - LocalLocations) then {}
    else {h}
  }

  /** MediaSingleton.GetHashes, ordered: the same filters, as a list. */
  function SingletonHashesOrdered(h: Hash, r: MediaRecord, hasLocation: Option<ServiceKey>,
                                  discriminant: Option<Discriminant>, notUploadedTo: Option<ServiceKey>): (s: seq<Hash>)
    ensures s == [] || s == [h]
    ensures forall x :: x in s <==> x in SingletonHashes(h, r, hasLocation, discriminant, notUploadedTo)
  {
    if PassesFilters(r, hasLocation, discriminant, notUploadedTo) then [h] else []
  }

  /** Inbox and archive split every file; so do local and not local. */
  lemma DiscriminantsComplement(r: MediaRecord)
    ensures Discriminates(DiscriminantInbox, r) != Discriminates(DiscriminantArchive, r)
    ensures Discriminates(DiscriminantLocal, r) != Discriminates(DiscriminantNotLocal, r)
    ensures Discriminates(DiscriminantLocalButNotInTrash, r) ==> Discriminates(DiscriminantLocal, r)
  {
  }

  /** Uploading to a local location never hides a file from the
      not-uploaded-to filter: those are no remote services. */
  lemma NotUploadedToLocal(h: Hash, r: MediaRecord, k: ServiceKey)
    requires k in LocalLocations
    ensures SingletonHashes(h, r, None, None, Some(k)) == {h}
  {
  }

  // ---------------------------------------------------------------------
  // Deletion visibility (MediaList.ProcessContentUpdate)

  /** The local file domains and the combined local service. */
  function NonTrashLocalServices(dir: ServiceDirectory): set<ServiceKey>
  {
    dir.localFileDomains + {CombinedLocalFileServiceKey}
  }

  function LocalFileServices(dir: ServiceDirectory): set<ServiceKey>
  {
    NonTrashLocalServices(dir) + {TrashServiceKey}
  }

  /** A file delete from updateService hides the files from a view scoped
      to scope when: it is a delete from the trash and the view is local;
      trashed files are to be removed and both are non-trash local
      services; or it is a delete from a non-local service in that very
      service's view. */
  predicate DeleteRemovesFromView(updateService: ServiceKey, scope: ServiceKey, dir: ServiceDirectory, removeTrashed: bool)
    // a delete hides files only in a local view or in the deleted service's own
    ensures DeleteRemovesFromView(updateService, scope, dir, removeTrashed) ==>
      scope in LocalFileServices(dir) || scope == updateService
    // a delete from a non-trash local service hides nothing unless trashed files are to be removed
    ensures updateService in NonTrashLocalServices(dir) && updateService != TrashServiceKey && !removeTrashed ==>
      !DeleteRemovesFromView(updateService, scope, dir, removeTrashed)
  {
    var deletedFromTrashAndLocalView := updateService == TrashServiceKey && scope in LocalFileServices(dir);
    var trashedAndNonTrashLocalView :=
      removeTrashed && updateService in NonTrashLocalServices(dir) && scope in NonTrashLocalServices(dir);
    var deletedFromRepoAndRepoView := updateService !in LocalFileServices(dir) && scope == updateService;
    deletedFromTrashAndLocalView || trashedAndNonTrashLocalView || deletedFromRepoAndRepoView
  }

  /** Deleting from the trash removes a file from exactly the local views. */
  lemma TrashDeleteVisibility(scope: ServiceKey, dir: ServiceDirectory, removeTrashed: bool)
    requires TrashServiceKey !in dir.localFileDomains
    ensures DeleteRemovesFromView(TrashServiceKey, scope, dir, removeTrashed) <==>
      scope in dir.localFileDomains || scope == CombinedLocalFileServiceKey || scope == TrashServiceKey
  {
    DistinguishedKeysDistinct();
  }

  /** Sending a local file to the trash removes it from a non-trash local
      view only when trashed files are to be removed. */
  lemma TrashingVisibility(updateService: ServiceKey, scope: ServiceKey, dir: ServiceDirectory, removeTrashed: bool)
    requires updateService in dir.localFileDomains && TrashServiceKey !in dir.localFileDomains
    requires scope in NonTrashLocalServices(dir)
    ensures DeleteRemovesFromView(updateService, scope, dir, removeTrashed) <==> removeTrashed
  {
    DistinguishedKeysDistinct();
  }

  /** A delete from a remote service hides files only in that service's
      own view, and no delete hides files in another remote view. */
  lemma RemoteDeleteVisibility(updateService: ServiceKey, scope: ServiceKey, dir: ServiceDirectory, removeTrashed: bool)
    ensures updateService !in LocalFileServices(dir) ==>
      (DeleteRemovesFromView(updateService, scope, dir, removeTrashed) <==> scope == updateService)
    ensures scope !in LocalFileServices(dir) && scope != updateService ==>
      !DeleteRemovesFromView(updateService, scope, dir, removeTrashed)
  {
  }

  // ---------------------------------------------------------------------
  // MediaCollection aggregates (_RecalcInternals)

  /** True in ( media.HasArchive() for media ... ): any child, not all. */
  function AnyArchive(rs: seq<MediaRecord>): (b: bool)
    ensures b <==> exists x :: x in rs && SingletonHasArchive(x)
  {
    if rs == [] then false
    else AnyArchive(rs[..|rs| - 1]) || SingletonHasArchive(rs[|rs| - 1])
  }

  function AnyInbox(rs: seq<MediaRecord>): (b: bool)
    ensures b <==> exists x :: x in rs && SingletonHasInbox(x)
  {
    if rs == [] then false
    else AnyInbox(rs[..|rs| - 1]) || SingletonHasInbox(rs[|rs| - 1])
  }

  /** not False in ( media.IsSizeDefinite() for media ... ). */
  function AllSizeDefinite(rs: seq<MediaRecord>): (b: bool)
    ensures b <==> forall x :: x in rs ==> SingletonIsSizeDefinite(x)
  {
    if rs == [] then true
    else AllSizeDefinite(rs[..|rs| - 1]) && SingletonIsSizeDefinite(rs[|rs| - 1])
  }

  function TotalSize(rs: seq<MediaRecord>): int
  {
    SumOf(rs, SingletonSize)
  }

  function DurationTerm(r: MediaRecord): int
  {
    if SingletonHasDuration(r) then r.info.duration.value else 0
  }

  /** The sum of the durations of the children that have one, or None when
      that sum is not positive. */
  function CollectionDuration(rs: seq<MediaRecord>): (d: Option<int>)
    ensures d.Some? <==> SumOf(rs, DurationTerm) > 0
    ensures d.Some? ==> d.value == SumOf(rs, DurationTerm)
  {
    var total := SumOf(rs, DurationTerm);
    if total > 0 then Some(total) else None
  }

  function InboxTerm(r: MediaRecord): int { if r.locations.inbox then 1 else 0 }

  /** GetNumInbox: the number of children in the inbox. */
  function NumInbox(rs: seq<MediaRecord>): (n: int)
    ensures 0 <= n <= |rs|
    ensures n == 0 <==> !AnyInbox(rs)
  {
    if rs == [] then 0 else NumInbox(rs[..|rs| - 1]) + InboxTerm(rs[|rs| - 1])
  }

  /** A sum over optional counts; Python's sum raises on a None. */
  function SumPresent(xs: seq<Option<int>>): (r: Result<int>)
    ensures r.Ok? <==> forall i :: 0 <= i < |xs| ==> xs[i].Some?
    ensures r.Err? ==> r.error == MissingValue
  {
    if xs == [] then Ok(0)
    else
      var init := SumPresent(xs[..|xs| - 1]);
      if init.Err? then Err(MissingValue)
      else if xs[|xs| - 1].None? then Err(MissingValue)
      else Ok(init.value + xs[|xs| - 1].value)
  }

  function NumFrames(rs: seq<MediaRecord>): (r: Result<int>)
    ensures r.Ok? <==> forall i :: 0 <= i < |rs| ==> rs[i].info.numFrames.Some?
    ensures r.Err? ==> r.error == MissingValue
  {
    var xs := seq(|rs|, i requires 0 <= i < |rs| => rs[i].info.numFrames);
    assert forall i :: 0 <= i < |rs| ==> xs[i] == rs[i].info.numFrames;
    SumPresent(xs)
  }

  function NumWords(rs: seq<MediaRecord>): (r: Result<int>)
    ensures r.Ok? <==> forall i :: 0 <= i < |rs| ==> rs[i].info.numWords.Some?
    ensures r.Err? ==> r.error == MissingValue
  {
    var xs := seq(|rs|, i requires 0 <= i < |rs| => rs[i].info.numWords);
    assert forall i :: 0 <= i < |rs| ==> xs[i] == rs[i].info.numWords;
    SumPresent(xs)
  }

  /** HydrusData.IntelligentMassIntersect: the intersection of the sets, or
      the empty set when there are none. */
  function MassIntersect(sets: seq<set<ServiceKey>>): (r: set<ServiceKey>)
    ensures forall x :: x in r <==> |sets| > 0 && forall s :: s in sets ==> x in s
  {
    if |sets| == 0 then {}
    else if |sets| == 1 then
      assert forall s :: s in sets <==> s == sets[0];
      sets[0]
    else
      var init := sets[..|sets| - 1];
      assert forall s :: s in sets <==> s in init || s == sets[|sets| - 1] by {
        assert sets == init + [sets[|sets| - 1]];
      }
      MassIntersect(init) * sets[|sets| - 1]
  }

  /** One location set of every child, in order. */
  function Column(rs: seq<MediaRecord>, f: MediaRecord -> set<ServiceKey>): (cs: seq<set<ServiceKey>>)
    ensures |cs| == |rs| && forall i :: 0 <= i < |rs| ==> cs[i] == f(rs[i])
  {
    seq(|rs|, i requires 0 <= i < |rs| => f(rs[i]))
  }

  lemma ColumnIntersect(rs: seq<MediaRecord>, f: MediaRecord -> set<ServiceKey>, k: ServiceKey)
    ensures k in MassIntersect(Column(rs, f)) <==> |rs| > 0 && forall x :: x in rs ==> k in f(x)
  {
    var cs := Column(rs, f);
    if forall s :: s in cs ==> k in s {
      forall x | x in rs ensures k in f(x) {
        var i :| 0 <= i < |rs| && rs[i] == x;
        assert cs[i] in cs;
      }
    }
    if forall x :: x in rs ==> k in f(x) {
      forall s | s in cs ensures k in s {
        var i :| 0 <= i < |cs| && cs[i] == s;
        assert rs[i] in rs;
      }
    }
  }

  predicate Facts(rs: seq<MediaRecord>, fc: MediaRecord -> set<ServiceKey>, fd: MediaRecord -> set<ServiceKey>,
                  fp: MediaRecord -> set<ServiceKey>, ft: MediaRecord -> set<ServiceKey>, k: ServiceKey)
  {
    (k in MassIntersect(Column(rs, fc)) <==> |rs| > 0 && forall x :: x in rs ==> k in fc(x)) &&
    (k in MassIntersect(Column(rs, fd)) <==> |rs| > 0 && forall x :: x in rs ==> k in fd(x)) &&
    (k in MassIntersect(Column(rs, fp)) <==> |rs| > 0 && forall x :: x in rs ==> k in fp(x)) &&
    (k in MassIntersect(Column(rs, ft)) <==> |rs| > 0 && forall x :: x in rs ==> k in ft(x))
  }

  /** The four location sets of a collection: each the intersection of the
      children's sets. */
  function IntersectLocations(rs: seq<MediaRecord>): (r: StatusSets<ServiceKey>)
    ensures forall k :: k in r.current <==> |rs| > 0 && forall x :: x in rs ==> k in x.locations.current
    ensures forall k :: k in r.deleted <==> |rs| > 0 && forall x :: x in rs ==> k in x.locations.deleted
    ensures forall k :: k in r.pending <==> |rs| > 0 && forall x :: x in rs ==> k in x.locations.pending
    ensures forall k :: k in r.petitioned <==> |rs| > 0 && forall x :: x in rs ==> k in x.locations.petitioned
  {
    var fc := (x: MediaRecord) => x.locations.current;
    var fd := (x: MediaRecord) => x.locations.deleted;
    var fp := (x: MediaRecord) => x.locations.pending;
    var ft := (x: MediaRecord) => x.locations.petitioned;
    assert forall k :: Facts(rs, fc, fd, fp, ft, k) by {
      forall k ensures Facts(rs, fc, fd, fp, ft, k) {
        ColumnIntersect(rs, fc, k);
        ColumnIntersect(rs, fd, k);
        ColumnIntersect(rs, fp, k);
        ColumnIntersect(rs, ft, k);
      }
    }
    StatusSets(MassIntersect(Column(rs, fc)), MassIntersect(Column(rs, fd)),
               MassIntersect(Column(rs, fp)), MassIntersect(Column(rs, ft)))
  }

  /** A tags manager's sets as GetServiceKeysToStatusesToTags hands them
      out: with the combined entry computed. */
  function Recalced(tags: ServiceTags, collapse: Collapse): ServiceTags
  {
    tags[CombinedTagServiceKey := Combined(tags, collapse)]
  }

  /** One merge step: current and pending united, deleted and petitioned
      dropped. */
  function MergeInto(acc: ServiceTags, m: ServiceTags): (r: ServiceTags)
    ensures r.Keys == acc.Keys + m.Keys
    ensures forall k :: k in r ==>
      (r[k] == StatusSets(Lookup(acc, k).current + Lookup(m, k).current, {}, Lookup(acc, k).pending + Lookup(m, k).pending, {}))
  {
    map k | k in acc.Keys + m.Keys ::
      StatusSets(Lookup(acc, k).current + Lookup(m, k).current, {},
                 Lookup(acc, k).pending + Lookup(m, k).pending, {})
  }

  /** MergeTagsManagers over the managers' sets, one merge step per
      manager. */
  function MergeTagMaps(ms: seq<ServiceTags>): ServiceTags
  {
    if ms == [] then map[] else MergeInto(MergeTagMaps(ms[..|ms| - 1]), ms[|ms| - 1])
  }

  /** MergeTagsManagers keeps every service some manager has. */
  lemma {:induction false} MergeKeys(ms: seq<ServiceTags>, k: ServiceKey)
    ensures k in MergeTagMaps(ms) <==> exists m: ServiceTags :: m in ms && k in m
    decreases |ms|
  {
    if ms != [] {
      var init, last := ms[..|ms| - 1], ms[|ms| - 1];
      MergeKeys(init, k);
      SnocMembers(ms);
      assert k in MergeTagMaps(ms) <==> k in MergeTagMaps(init) || k in last;
      if k in last {
        assert last in ms;
      }
      if exists m: ServiceTags :: m in init && k in m {
        var m: ServiceTags :| m in init && k in m;
        assert m in ms;
      }
    }
  }

  /** Under each service the merge holds the union of the managers' current
      tags. */
  lemma {:induction false} MergeCurrentAt(ms: seq<ServiceTags>, k: ServiceKey, t: Tag)
    ensures t in Lookup(MergeTagMaps(ms), k).current <==> exists m: ServiceTags :: m in ms && k in m && t in m[k].current
    decreases |ms|
  {
    if ms != [] {
      var init, last := ms[..|ms| - 1], ms[|ms| - 1];
      MergeCurrentAt(init, k, t);
      SnocMembers(ms);
      MergeIntoLookup(MergeTagMaps(init), last, k);
      if t in Lookup(last, k).current {
        assert last in ms && k in last;
      }
      if exists m: ServiceTags :: m in init && k in m && t in m[k].current {
        var m: ServiceTags :| m in init && k in m && t in m[k].current;
        assert m in ms;
      }
    }
  }

  /** Under each service the merge holds the union of the managers' pending
      tags. */
  lemma {:induction false} MergePendingAt(ms: seq<ServiceTags>, k: ServiceKey, t: Tag)
    ensures t in Lookup(MergeTagMaps(ms), k).pending <==> exists m: ServiceTags :: m in ms && k in m && t in m[k].pending
    decreases |ms|
  {
    if ms != [] {
      var init, last := ms[..|ms| - 1], ms[|ms| - 1];
      MergePendingAt(init, k, t);
      SnocMembers(ms);
      MergeIntoLookup(MergeTagMaps(init), last, k);
      if t in Lookup(last, k).pending {
        assert last in ms && k in last;
      }
      if exists m: ServiceTags :: m in init && k in m && t in m[k].pending {
        var m: ServiceTags :| m in init && k in m && t in m[k].pending;
        assert m in ms;
      }
    }
  }

  lemma SnocMembers<T>(ms: seq<T>)
    requires ms != []
    ensures forall m :: m in ms <==> m in ms[..|ms| - 1] || m == ms[|ms| - 1]
  {
    assert ms == ms[..|ms| - 1] + [ms[|ms| - 1]];
  }

  lemma MergeIntoLookup(acc: ServiceTags, m: ServiceTags, k: ServiceKey)
    ensures Lookup(MergeInto(acc, m), k).current == Lookup(acc, k).current + Lookup(m, k).current
    ensures Lookup(MergeInto(acc, m), k).pending == Lookup(acc, k).pending + Lookup(m, k).pending
  {
  }

  lemma MergeDropsDeleted(ms: seq<ServiceTags>, k: ServiceKey)
    requires k in MergeTagMaps(ms)
    ensures MergeTagMaps(ms)[k].deleted == {} && MergeTagMaps(ms)[k].petitioned == {}
  {
  }

  /** The merged sets of a collection's children. */
  function MergeTagsManagers(rs: seq<MediaRecord>, collapse: Collapse): (r: ServiceTags)
    // the services of the merge: those some child has, and the combined one when there is a child
    ensures forall k :: k in r <==> (|rs| > 0 && k == CombinedTagServiceKey) || exists x :: x in rs && k in x.tags
    ensures forall k :: k in r ==> r[k].deleted == {} && r[k].petitioned == {}
  {
    var ms := seq(|rs|, i requires 0 <= i < |rs| => Recalced(rs[i].tags, collapse));
    MergeTagsManagersKeys(rs, collapse, ms);
    MergeTagMaps(ms)
  }

  lemma MergeTagsManagersKeys(rs: seq<MediaRecord>, collapse: Collapse, ms: seq<ServiceTags>)
    requires ms == seq(|rs|, i requires 0 <= i < |rs| => Recalced(rs[i].tags, collapse))
    ensures forall k :: k in MergeTagMaps(ms) <==> (|rs| > 0 && k == CombinedTagServiceKey) || exists x :: x in rs && k in x.tags
  {
    RecalcedMembers(rs, collapse);
    forall k ensures k in MergeTagMaps(ms) <==> (|rs| > 0 && k == CombinedTagServiceKey) || exists x :: x in rs && k in x.tags {
      MergeKeys(ms, k);
      if exists m: ServiceTags :: m in ms && k in m {
        var m: ServiceTags :| m in ms && k in m;
        var x :| x in rs && m == Recalced(x.tags, collapse);
      }
      if |rs| > 0 && k == CombinedTagServiceKey {
        assert ms[0] in ms;
      }
      if exists x :: x in rs && k in x.tags {
        var x :| x in rs && k in x.tags;
        assert Recalced(x.tags, collapse) in ms;
      }
    }
  }

  lemma RecalcedMembers(rs: seq<MediaRecord>, collapse: Collapse)
    ensures var ms := seq(|rs|, i requires 0 <= i < |rs| => Recalced(rs[i].tags, collapse));
      forall m :: m in ms <==> exists x :: x in rs && m == Recalced(x.tags, collapse)
  {
    var ms := seq(|rs|, i requires 0 <= i < |rs| => Recalced(rs[i].tags, collapse));
    forall m ensures m in ms <==> exists x :: x in rs && m == Recalced(x.tags, collapse) {
      if m in ms {
        var i :| 0 <= i < |ms| && ms[i] == m;
        assert rs[i] in rs;
      }
      if exists x :: x in rs && m == Recalced(x.tags, collapse) {
        var x :| x in rs && m == Recalced(x.tags, collapse);
        var i :| 0 <= i < |rs| && rs[i] == x;
        assert ms[i] == m;
      }
    }
  }

  /** The merged view has a tag current under a service exactly when some
      child has it current there; under the combined service, exactly when
      some tag service of some child has it current after collapse. */
  lemma MergedCurrent(rs: seq<MediaRecord>, collapse: Collapse, k: ServiceKey, t: Tag)
    ensures var m := MergeTagsManagers(rs, collapse);
      k in m && t in m[k].current <==>
      exists x :: x in rs && k in Recalced(x.tags, collapse) && t in Recalced(x.tags, collapse)[k].current
    ensures var m := MergeTagsManagers(rs, collapse);
      t in Lookup(m, CombinedTagServiceKey).current <==>
      exists x, j :: x in rs && j in x.tags && j != CombinedTagServiceKey && t in collapse(j, x.tags[j]).current
  {
    var ms := seq(|rs|, i requires 0 <= i < |rs| => Recalced(rs[i].tags, collapse));
    RecalcedMembers(rs, collapse);
    MergeCurrentAt(ms, k, t);
    MergeCurrentAt(ms, CombinedTagServiceKey, t);
    MergeKeys(ms, k);
    var m := MergeTagsManagers(rs, collapse);
    if t in Lookup(m, CombinedTagServiceKey).current {
      var mm: ServiceTags :| mm in ms && CombinedTagServiceKey in mm && t in mm[CombinedTagServiceKey].current;
      var x :| x in rs && mm == Recalced(x.tags, collapse);
      var j :| j in x.tags && j != CombinedTagServiceKey && t in collapse(j, x.tags[j]).current;
    }
    if exists x, j :: x in rs && j in x.tags && j != CombinedTagServiceKey && t in collapse(j, x.tags[j]).current {
      var x, j :| x in rs && j in x.tags && j != CombinedTagServiceKey && t in collapse(j, x.tags[j]).current;
      var mm := Recalced(x.tags, collapse);
      assert mm in ms;
      assert t in mm[CombinedTagServiceKey].current;
    }
  }

  /** The cached facts of a collection. */
  datatype Internals = Internals(
    archive: bool,
    inbox: bool,
    size: int,
    sizeDefinite: bool,
    duration: Option<int>,
    tags: ServiceTags,
    locations: StatusSets<ServiceKey>,
    ratings: Ratings)

  /** _RecalcInternals over the records of the children, in their order.
      The ratings are the first child's, or none. */
  function CollectionInternals(rs: seq<MediaRecord>, collapse: Collapse): (r: Internals)
    ensures r.archive <==> exists x :: x in rs && SingletonHasArchive(x)
    ensures r.inbox <==> exists x :: x in rs && SingletonHasInbox(x)
    ensures r.sizeDefinite <==> forall x :: x in rs ==> SingletonIsSizeDefinite(x)
    ensures r.size == SumOf(rs, SingletonSize)
    ensures r.duration.Some? <==> SumOf(rs, DurationTerm) > 0
    ensures r.tags == MergeTagsManagers(rs, collapse)
    ensures forall k :: k in r.locations.current <==> |rs| > 0 && forall x :: x in rs ==> k in x.locations.current
    ensures forall k :: k in r.locations.deleted <==> |rs| > 0 && forall x :: x in rs ==> k in x.locations.deleted
    // the ratings are borrowed from the first child
    ensures |rs| == 0 ==> r.ratings == map[]
    ensures |rs| > 0 ==> r.ratings == rs[0].ratings
  {
    Internals(
      AnyArchive(rs),
      AnyInbox(rs),
      TotalSize(rs),
      AllSizeDefinite(rs),
      CollectionDuration(rs),
      MergeTagsManagers(rs, collapse),
      IntersectLocations(rs),
      if |rs| > 0 then rs[0].ratings else map[])
  }

  /** Every aggregate but the borrowed ratings is independent of the order
      of the children, so sorting a collection keeps them. */
  lemma InternalsIgnoreOrder(rs: seq<MediaRecord>, qs: seq<MediaRecord>, collapse: Collapse)
    requires multiset(rs) == multiset(qs)
    ensures var a, b := CollectionInternals(rs, collapse), CollectionInternals(qs, collapse);
      a.(ratings := map[]) == b.(ratings := map[])
  {
    assert forall x :: x in rs <==> x in qs by {
      assert forall x :: x in rs <==> x in multiset(rs);
      assert forall x :: x in qs <==> x in multiset(qs);
    }
    assert |rs| == |qs| by {
      assert |multiset(rs)| == |multiset(qs)|;
    }
    assert AnyArchive(rs) == AnyArchive(qs);
    assert AnyInbox(rs) == AnyInbox(qs);
    assert AllSizeDefinite(rs) == AllSizeDefinite(qs);
    SumOfPermutation(rs, qs, SingletonSize);
    SumOfPermutation(rs, qs, DurationTerm);
    assert CollectionDuration(rs) == CollectionDuration(qs);
    SameMerge(rs, qs, collapse);
    SameLocations(rs, qs);
  }

  lemma SameLocations(rs: seq<MediaRecord>, qs: seq<MediaRecord>)
    requires forall x :: x in rs <==> x in qs
    requires |rs| == |qs|
    ensures IntersectLocations(rs) == IntersectLocations(qs)
  {
    var a, b := IntersectLocations(rs), IntersectLocations(qs);
    assert a.current == b.current;
    assert a.deleted == b.deleted;
    assert a.pending == b.pending;
    assert a.petitioned == b.petitioned;
  }

  lemma SameMerge(rs: seq<MediaRecord>, qs: seq<MediaRecord>, collapse: Collapse)
    requires forall x :: x in rs <==> x in qs
    ensures MergeTagsManagers(rs, collapse) == MergeTagsManagers(qs, collapse)
  {
    var ma := seq(|rs|, i requires 0 <= i < |rs| => Recalced(rs[i].tags, collapse));
    var mb := seq(|qs|, i requires 0 <= i < |qs| => Recalced(qs[i].tags, collapse));
    RecalcedMembers(rs, collapse);
    RecalcedMembers(qs, collapse);
    SameMapsMerge(ma, mb);
  }

  lemma SameMapsMerge(ma: seq<ServiceTags>, mb: seq<ServiceTags>)
    requires forall m :: m in ma <==> m in mb
    ensures MergeTagMaps(ma) == MergeTagMaps(mb)
  {
    var a, b := MergeTagMaps(ma), MergeTagMaps(mb);
    forall k ensures k in a <==> k in b {
      MergeKeys(ma, k);
      MergeKeys(mb, k);
    }
    forall k | k in a ensures a[k] == b[k] {
      SameMergeAt(ma, mb, k);
    }
  }

  lemma SameMergeAt(ma: seq<ServiceTags>, mb: seq<ServiceTags>, k: ServiceKey)
    requires forall m :: m in ma <==> m in mb
    requires k in MergeTagMaps(ma) && k in MergeTagMaps(mb)
    ensures MergeTagMaps(ma)[k] == MergeTagMaps(mb)[k]
  {
    var a, b := MergeTagMaps(ma)[k], MergeTagMaps(mb)[k];
    forall t ensures t in a.current <==> t in b.current {
      MergeCurrentAt(ma, k, t);
      MergeCurrentAt(mb, k, t);
    }
    forall t ensures t in a.pending <==> t in b.pending {
      MergePendingAt(ma, k, t);
      MergePendingAt(mb, k, t);
    }
    MergeDropsDeleted(ma, k);
    MergeDropsDeleted(mb, k);
    assert a.current == b.current && a.pending == b.pending;
  }

  // ---------------------------------------------------------------------
  // What a node of a media list reports to the sorts and the grouping

  datatype NodeView = SingleView(hash: Hash, record: MediaRecord) | CollectionView(internals: Internals)

  function ViewSize(v: NodeView): int
  {
    match v
    case SingleView(_, r) => SingletonSize(r)
    case CollectionView(c) => c.size
  }

  function ViewDuration(v: NodeView): Option<int>
  {
    match v
    case SingleView(_, r) => r.info.duration
    case CollectionView(c) => c.duration
  }

  /** A collection has no timestamps. */
  function ViewTimestamp(v: NodeView, k: ServiceKey): Option<Time>
  {
    match v
    case SingleView(_, r) => StateTimestamp(r.locations, k)
    case CollectionView(_) => None
  }

  /** A collection has no resolution. */
  function ViewResolution(v: NodeView): (Option<int>, Option<int>)
  {
    match v
    case SingleView(_, r) => SingletonResolution(r)
    case CollectionView(_) => (None, None)
  }

  function ViewMime(v: NodeView): int
  {
    match v
    case SingleView(_, r) => r.info.mime
    case CollectionView(_) => ApplicationHydrusClientCollection
  }

  function ViewTags(v: NodeView): ServiceTags
  {
    match v
    case SingleView(_, r) => r.tags
    case CollectionView(c) => c.tags
  }

  function ViewRatings(v: NodeView): Ratings
  {
    match v
    case SingleView(_, r) => r.ratings
    case CollectionView(c) => c.ratings
  }

  /** The combined current and pending tags of the node's tags manager. */
  function ViewCombinedTags(v: NodeView, collapse: Collapse): set<Tag>
  {
    var c := Combined(ViewTags(v), collapse);
    c.current + c.pending
  }

  // ---------------------------------------------------------------------
  // Sort keys (the key functions of GetSortKeyAndReverse)

  /** deal_with_none: a missing value sorts as -1. */
  function DealWithNone(x: Option<int>): (k: real)
    ensures x.None? ==> k == -1.0
    ensures x.Some? ==> k == x.value as real
  {
    if x.None? then -1.0 else x.value as real
  }

  function DealWithNoneReal(x: Option<real>): (k: real)
    ensures x.None? ==> k == -1.0
    ensures x.Some? ==> k == x.value
  {
    if x.None? then -1.0 else x.value
  }

  /** The key of a node under a key spec. The random draw and, for the
      namespace sort, the node's comparable namespace slices (one sorted
      sequence per namespace) are supplied by the caller. */
  function EvalKey(spec: KeySpec, v: NodeView, collapse: Collapse, draw: real, slices: seq<seq<string>>): (k: SortKey)
    ensures k.Slices? <==> spec.ByNamespaces?
  {
    match spec
    case BySize => Num(DealWithNone(Some(ViewSize(v))))
    case ByDuration => Num(DealWithNone(ViewDuration(v)))
    case ByTimestamp(key) => Num(DealWithNone(ViewTimestamp(v, key)))
    case ByHeight => Num(DealWithNone(ViewResolution(v).1))
    case ByWidth => Num(DealWithNone(ViewResolution(v).0))
    case ByRatio =>
      var (w, h) := ViewResolution(v);
      if w.None? || h.None? || w.value == 0 || h.value == 0 then Num(-1.0)
      else Num(w.value as real / h.value as real)
    case ByNumPixels =>
      var (w, h) := ViewResolution(v);
      if w.None? || h.None? then Num(-1.0) else Num((w.value * h.value) as real)
    case ByNumTags =>
      var c := Combined(ViewTags(v), collapse);
      Num((|c.current| + |c.pending|) as real)
    case ByMime => Num(ViewMime(v) as real)
    case ByRandom => Num(draw)
    case ByNamespaces(_) => Slices(slices)
    case ByRating(key) => Num(DealWithNoneReal(GetRating(ViewRatings(v), key)))
  }

  /** A node missing the value sorts before every node that has a
      non-negative one. */
  lemma MissingSortsFirst(spec: KeySpec, a: NodeView, b: NodeView, collapse: Collapse, draw: real, slices: seq<seq<string>>)
    ensures spec == ByDuration && ViewDuration(a).None? && ViewDuration(b).Some? && ViewDuration(b).value >= 0 ==>
      KeyLess(EvalKey(spec, a, collapse, draw, slices), EvalKey(spec, b, collapse, draw, slices))
    ensures (spec.ByTimestamp? && ViewTimestamp(a, spec.serviceKey).None? &&
      ViewTimestamp(b, spec.serviceKey).Some? && ViewTimestamp(b, spec.serviceKey).value >= 0) ==>
      KeyLess(EvalKey(spec, a, collapse, draw, slices), EvalKey(spec, b, collapse, draw, slices))
    ensures (spec.ByRating? && GetRating(ViewRatings(a), spec.serviceKey).None? &&
      GetRating(ViewRatings(b), spec.serviceKey).Some? && GetRating(ViewRatings(b), spec.serviceKey).value >= 0.0) ==>
      KeyLess(EvalKey(spec, a, collapse, draw, slices), EvalKey(spec, b, collapse, draw, slices))
  {
  }

  /** A collection sorts below every singleton by import time, resolution
      and pixel count, whose values are never missing or negative. */
  lemma CollectionsSortFirstByResolution(c: Internals, h: Hash, r: MediaRecord, collapse: Collapse, draw: real, slices: seq<seq<string>>)
    requires r.info.width.Some? ==> r.info.width.value >= 0 && r.info.height.Some? && r.info.height.value >= 0
    ensures KeyLess(EvalKey(ByWidth, CollectionView(c), collapse, draw, slices), EvalKey(ByWidth, SingleView(h, r), collapse, draw, slices))
    ensures KeyLess(EvalKey(ByHeight, CollectionView(c), collapse, draw, slices), EvalKey(ByHeight, SingleView(h, r), collapse, draw, slices))
  {
  }

  /** The ratio key: -1 for a missing or zero dimension, otherwise width
      over height, so a square sorts as 1. */
  lemma RatioKey(v: NodeView, collapse: Collapse, draw: real, slices: seq<seq<string>>)
    ensures var (w, h) := ViewResolution(v);
      w.Some? && h.Some? && w.value == h.value && w.value != 0 ==>
      EvalKey(ByRatio, v, collapse, draw, slices) == Num(1.0)
    ensures var (w, h) := ViewResolution(v);
      w.Some? && h.Some? && w.value > 0 && h.value > 0 ==>
      EvalKey(ByRatio, v, collapse, draw, slices).value > 0.0
  {
    var (w, h) := ViewResolution(v);
    if w.Some? && h.Some? && w.value != 0 && h.value != 0 {
      var a, b := w.value as real, h.value as real;
      assert EvalKey(ByRatio, v, collapse, draw, slices) == Num(a / b);
      if w.value == h.value { DivSelf(a); }
      if w.value > 0 && h.value > 0 { DivPositive(a, b); }
    }
  }

  lemma DivSelf(x: real)
    requires x != 0.0
    ensures x / x == 1.0
  {
  }

  lemma DivPositive(a: real, b: real)
    requires a > 0.0 && b > 0.0
    ensures a / b > 0.0
  {
    assert (a / b) * b == a;
  }

  // ---------------------------------------------------------------------
  // Grouping (_CalculateCollectionKeysToMedias)

  datatype CollectBy = CollectByNamespace(namespace: string) | CollectByRating(serviceKey: ServiceKey)

  /** ( namespace_key, rating_key ); None when nothing of that kind is
      collected by. */
  datatype CollectKey = CollectKey(namespaceKey: Option<set<Tag>>, ratingKey: Option<RatingSlice>)

  function NamespacesToCollectBy(cb: seq<CollectBy>): (r: seq<string>)
    ensures forall ns :: ns in r <==> CollectByNamespace(ns) in cb
  {
    if cb == [] then []
    else
      var last := if cb[|cb| - 1].CollectByNamespace? then [cb[|cb| - 1].namespace] else [];
      NamespacesToCollectBy(cb[..|cb| - 1]) + last
  }

  function RatingsToCollectBy(cb: seq<CollectBy>): (r: seq<ServiceKey>)
    ensures forall k :: k in r <==> CollectByRating(k) in cb
  {
    if cb == [] then []
    else
      var last := if cb[|cb| - 1].CollectByRating? then [cb[|cb| - 1].serviceKey] else [];
      RatingsToCollectBy(cb[..|cb| - 1]) + last
  }

  /** The collection key of a node: its namespace slice over the
      namespaces collected by, and its rating slice over the rating
      services collected by. A key part is present exactly when something
      of its kind is collected by, and the namespace part is the node's
      tags of those namespaces. */
  function CollectionKey(cb: seq<CollectBy>, v: NodeView, env: Env): (key: CollectKey)
    ensures key.namespaceKey.Some? <==> exists ns :: CollectByNamespace(ns) in cb
    ensures key.ratingKey.Some? <==> exists k :: CollectByRating(k) in cb
    ensures key.namespaceKey.Some? ==> forall t :: t in key.namespaceKey.value <==>
      t in ViewCombinedTags(v, env.collapse) && exists ns :: CollectByNamespace(ns) in cb && ns + ":" <= t
    ensures key.ratingKey.Some? ==> key.ratingKey.value == env.ratingSlice(ViewRatings(v), RatingsToCollectBy(cb))
  {
    var namespaces := NamespacesToCollectBy(cb);
    var ratings := RatingsToCollectBy(cb);
    assert |namespaces| > 0 <==> exists ns :: CollectByNamespace(ns) in cb by {
      if |namespaces| > 0 { assert CollectByNamespace(namespaces[0]) in cb; }
    }
    assert |ratings| > 0 <==> exists k :: CollectByRating(k) in cb by {
      if |ratings| > 0 { assert CollectByRating(ratings[0]) in cb; }
    }
    CollectKey(
      if |namespaces| > 0 then Some(NamespaceSlice(ViewCombinedTags(v, env.collapse), set ns | ns in namespaces)) else None,
      if |ratings| > 0 then Some(env.ratingSlice(ViewRatings(v), ratings)) else None)
  }

  /** keys_to_medias: each key with the nodes that have it, in input order. */
  function KeysToMedias<T, K(==,!new)>(ms: seq<T>, key: T -> K): (r: map<K, seq<T>>)
    ensures forall i :: 0 <= i < |ms| ==> key(ms[i]) in r
    ensures forall k :: k in r ==> r[k] == WithKey(key, k, ms) && r[k] != []
  {
    if ms == [] then map[]
    else
      var init := ms[..|ms| - 1];
      var x := ms[|ms| - 1];
      var r0 := KeysToMedias(init, key);
      var r := r0[key(x) := (if key(x) in r0 then r0[key(x)] else []) + [x]];
      KeysToMediasStep(ms, key, r0, r);
      r
  }

  lemma KeysToMediasStep<T, K(!new)>(ms: seq<T>, key: T -> K, r0: map<K, seq<T>>, r: map<K, seq<T>>)
    requires ms != []
    requires forall i :: 0 <= i < |ms| - 1 ==> key(ms[i]) in r0
    requires forall k :: k in r0 ==> r0[k] == WithKey(key, k, ms[..|ms| - 1]) && r0[k] != []
    requires var x := ms[|ms| - 1]; r == r0[key(x) := (if key(x) in r0 then r0[key(x)] else []) + [x]]
    ensures forall i :: 0 <= i < |ms| ==> key(ms[i]) in r
    ensures forall k :: k in r ==> r[k] == WithKey(key, k, ms) && r[k] != []
  {
    forall i | 0 <= i < |ms| ensures key(ms[i]) in r {
      if i < |ms| - 1 { assert ms[i] == ms[..|ms| - 1][i]; }
    }
    forall k | k in r ensures r[k] == WithKey(key, k, ms) && r[k] != [] {
      KeysToMediasAt(ms, key, r0, r, k);
    }
  }

  lemma KeysToMediasAt<T, K>(ms: seq<T>, key: T -> K, r0: map<K, seq<T>>, r: map<K, seq<T>>, k: K)
    requires ms != []
    requires forall i :: 0 <= i < |ms| - 1 ==> key(ms[i]) in r0
    requires k in r0 ==> r0[k] == WithKey(key, k, ms[..|ms| - 1]) && r0[k] != []
    requires var x := ms[|ms| - 1]; r == r0[key(x) := (if key(x) in r0 then r0[key(x)] else []) + [x]]
    requires k in r
    ensures r[k] == WithKey(key, k, ms) && r[k] != []
  {
    var init := ms[..|ms| - 1];
    var x := ms[|ms| - 1];
    assert WithKey(key, k, ms) == WithKey(key, k, init) + (if key(x) == k then [x] else []);
    if k !in r0 {
      forall i | 0 <= i < |init| ensures key(init[i]) != k {
        assert init[i] == ms[i];
      }
      WithKeyNone(key, k, init);
    }
  }

  /** The grouping partitions its input: every node is in the list of its
      own key, in no other list, and each list keeps its input order. */
  lemma KeysToMediasPartition<T, K(!new)>(ms: seq<T>, key: T -> K)
    ensures var r := KeysToMedias(ms, key);
      (forall i :: 0 <= i < |ms| ==> ms[i] in r[key(ms[i])]) &&
      (forall k, x :: k in r && x in r[k] ==> key(x) == k && x in ms) &&
      (forall k :: k in r ==> multiset(r[k]) <= multiset(ms))
  {
    var r := KeysToMedias(ms, key);
    forall k | k in r ensures forall x :: x in r[k] ==> key(x) == k && x in ms {
      WithKeyElements(key, k, ms);
    }
    forall i | 0 <= i < |ms| ensures ms[i] in r[key(ms[i])] {
      WithKeyContains(key, ms, i);
    }
    forall k | k in r ensures multiset(r[k]) <= multiset(ms) {
      WithKeySubMultiset(key, k, ms);
    }
  }

  lemma {:induction false} WithKeyContains<T, K>(key: T -> K, ms: seq<T>, i: int)
    requires 0 <= i < |ms|
    ensures ms[i] in WithKey(key, key(ms[i]), ms)
    decreases |ms|
  {
    if i < |ms| - 1 {
      WithKeyContains(key, ms[..|ms| - 1], i);
    }
  }

  lemma {:induction false} WithKeySubMultiset<T, K>(key: T -> K, k: K, ms: seq<T>)
    ensures multiset(WithKey(key, k, ms)) <= multiset(ms)
    decreases |ms|
  {
    if ms != [] {
      WithKeySubMultiset(key, k, ms[..|ms| - 1]);
      assert ms == ms[..|ms| - 1] + [ms[|ms| - 1]];
    }
  }
}
