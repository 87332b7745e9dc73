/** Where a file is: the file services it is current, deleted, pending and
    petitioned in, its inbox flag, its known URLs and the times it arrived
    in each current service. */
module Locations {
  import opened Common

  type Time = int

  datatype LocationState = LocationState(
    current: set<ServiceKey>,
    deleted: set<ServiceKey>,
    pending: set<ServiceKey>,
    petitioned: set<ServiceKey>,
    inbox: bool,
    urls: set<Url>,
    filenames: map<ServiceKey, string>,
    timestamps: map<ServiceKey, Time>)

  /** A file action on service k at time now (the Files branch of
      ProcessContentUpdate). */
  function ApplyFileAction(st: LocationState, k: ServiceKey, action: Action, now: Time): (r: LocationState)
    // file actions never touch URLs or filenames
    ensures r.urls == st.urls && r.filenames == st.filenames
    // Archive and Inbox only move the inbox flag
    ensures action in {Archive, Inbox} ==> r == st.(inbox := action == Inbox)
    ensures action == Add ==>
      k in r.current && k !in r.deleted && k !in r.pending && k in r.timestamps && r.timestamps[k] == now
    ensures action == Delete ==> k !in r.current && k in r.deleted && k !in r.petitioned
    // only Add and Delete stamp a time, and only Add touches an existing stamp's key
    ensures action !in {Add, Delete} ==> r.timestamps == st.timestamps
    ensures action == Delete ==> forall j :: j in st.timestamps && j != TrashServiceKey ==>
      j in r.timestamps && r.timestamps[j] == st.timestamps[j]
    ensures action == RescindPend ==> r == st.(pending := st.pending - {k})
    ensures action == RescindPetition ==> r == st.(petitioned := st.petitioned - {k})
  {
    match action
    case Archive => st.(inbox := false)
    case Inbox => st.(inbox := true)
    case Add =>
      var s1 := st.(current := st.current + {k}, deleted := st.deleted - {k}, pending := st.pending - {k});
      var s2 :=
        if k == LocalFileServiceKey then
          var s3 := s1.(current := s1.current - {TrashServiceKey}, pending := s1.pending - {CombinedLocalFileServiceKey});
          if CombinedLocalFileServiceKey !in s3.current then
            s3.(inbox := true, current := s3.current + {CombinedLocalFileServiceKey},
                timestamps := s3.timestamps[CombinedLocalFileServiceKey := now])
          else s3
        else s1;
      s2.(timestamps := s2.timestamps[k := now])
    case Delete =>
      var s1 := st.(deleted := st.deleted + {k}, current := st.current - {k}, petitioned := st.petitioned - {k});
      if k == LocalFileServiceKey then
        s1.(current := s1.current + {TrashServiceKey}, timestamps := s1.timestamps[TrashServiceKey := now])
      else if k == TrashServiceKey then
        s1.(inbox := false, current := s1.current - {CombinedLocalFileServiceKey})
      else s1
    case Undelete =>
      st.(current := st.current - {TrashServiceKey} + {LocalFileServiceKey}, deleted := st.deleted - {LocalFileServiceKey})
    case Pend => if k !in st.current then st.(pending := st.pending + {k}) else st
    case Petition => if k !in st.deleted then st.(petitioned := st.petitioned + {k}) else st
    case RescindPend => st.(pending := st.pending - {k})
    case RescindPetition => st.(petitioned := st.petitioned - {k})
  }

  /** A URL update: Add and Delete unpack a (hash, urls) row, and a row of
      another shape raises; other URL actions change nothing. */
  function ApplyUrlUpdate(st: LocationState, action: Action, row: Row): (r: Result<LocationState>)
    ensures r.Err? <==> action in {Add, Delete} && !row.UrlRow?
    ensures r.Err? ==> r.error == MalformedRow
    ensures r.Ok? && action == Add ==> r.value == st.(urls := st.urls + row.urls)
    ensures r.Ok? && action == Delete ==> r.value == st.(urls := st.urls - row.urls)
    ensures r.Ok? && action !in {Add, Delete} ==> r.value == st
  {
    if action == Add then
      (if row.UrlRow? then Ok(st.(urls := st.urls + row.urls)) else Err(MalformedRow))
    else if action == Delete then
      (if row.UrlRow? then Ok(st.(urls := st.urls - row.urls)) else Err(MalformedRow))
    else Ok(st)
  }

  /** ProcessContentUpdate: file updates move the service key, URL updates
      edit the URL set, other content types leave the locations alone. */
  function ProcessLocationUpdate(st: LocationState, k: ServiceKey, u: ContentUpdate, now: Time): (r: Result<LocationState>)
    ensures u.dataType == Files ==> r == Ok(ApplyFileAction(st, k, u.action, now))
    ensures u.dataType == Urls ==> r == ApplyUrlUpdate(st, u.action, u.row)
    ensures u.dataType !in {Files, Urls} ==> r == Ok(st)
  {
    match u.dataType
    case Files => Ok(ApplyFileAction(st, k, u.action, now))
    case Urls => ApplyUrlUpdate(st, u.action, u.row)
    case _ => Ok(st)
  }

  /** A file imported into the local file service is current there and in
      all local files, out of the trash and no longer pending anywhere
      local; it lands in the inbox with a fresh combined-local timestamp
      exactly when it was not already local. */
  lemma LocalAddLifecycle(st: LocationState, now: Time)
    ensures var r := ApplyFileAction(st, LocalFileServiceKey, Add, now);
      LocalFileServiceKey in r.current && CombinedLocalFileServiceKey in r.current &&
      TrashServiceKey !in r.current && LocalFileServiceKey !in r.deleted &&
      LocalFileServiceKey !in r.pending && CombinedLocalFileServiceKey !in r.pending &&
      r.timestamps[LocalFileServiceKey] == now &&
      (CombinedLocalFileServiceKey !in st.current ==>
        r.inbox && r.timestamps[CombinedLocalFileServiceKey] == now) &&
      (CombinedLocalFileServiceKey in st.current ==> r.inbox == st.inbox)
  {
    DistinguishedKeysDistinct();
  }

  /** An Add on any other service touches only that key and its time. */
  lemma OtherAddLocal(st: LocationState, k: ServiceKey, now: Time)
    requires k != LocalFileServiceKey
    ensures ApplyFileAction(st, k, Add, now) ==
      st.(current := st.current + {k}, deleted := st.deleted - {k}, pending := st.pending - {k},
          timestamps := st.timestamps[k := now])
  {
  }

  /** Deleting from the local file service sends the file to the trash, and
      it stays local. */
  lemma LocalDeleteToTrash(st: LocationState, now: Time)
    ensures var r := ApplyFileAction(st, LocalFileServiceKey, Delete, now);
      LocalFileServiceKey !in r.current && LocalFileServiceKey in r.deleted &&
      TrashServiceKey in r.current && r.timestamps[TrashServiceKey] == now &&
      (CombinedLocalFileServiceKey in r.current <==> CombinedLocalFileServiceKey in st.current) &&
      r.inbox == st.inbox
  {
    DistinguishedKeysDistinct();
  }

  /** Deleting from the trash removes the file from the client: it is no
      longer local and leaves the inbox. */
  lemma TrashDeleteRemoves(st: LocationState, now: Time)
    ensures var r := ApplyFileAction(st, TrashServiceKey, Delete, now);
      TrashServiceKey !in r.current && TrashServiceKey in r.deleted &&
      CombinedLocalFileServiceKey !in r.current && !r.inbox
  {
  }

  /** Undelete restores a trashed file to the local file service, whatever
      service the update names, without touching its timestamps. */
  lemma UndeleteRestores(st: LocationState, k: ServiceKey, now: Time)
    ensures var r := ApplyFileAction(st, k, Undelete, now);
      LocalFileServiceKey in r.current && TrashServiceKey !in r.current &&
      LocalFileServiceKey !in r.deleted && r.timestamps == st.timestamps &&
      r.pending == st.pending && r.petitioned == st.petitioned
  {
    DistinguishedKeysDistinct();
  }

  /** Pend only on a service the file is not current in; petition only on
      one it has not been deleted from. */
  lemma PendPetitionGuards(st: LocationState, k: ServiceKey, now: Time)
    ensures (k in ApplyFileAction(st, k, Pend, now).pending) <==> (k in st.pending || k !in st.current)
    ensures (k in ApplyFileAction(st, k, Petition, now).petitioned) <==> (k in st.petitioned || k !in st.deleted)
    ensures ApplyFileAction(st, k, Pend, now).current == st.current
    ensures ApplyFileAction(st, k, Petition, now).deleted == st.deleted
  {
  }

  /** Repeating a file update at the same time changes nothing more. */
  lemma FileActionIdempotent(st: LocationState, k: ServiceKey, action: Action, now: Time)
    ensures ApplyFileAction(ApplyFileAction(st, k, action, now), k, action, now) == ApplyFileAction(st, k, action, now)
  {
    match action
    case Add => AddIdempotent(st, k, now);
    case Delete => DeleteIdempotent(st, k, now);
    case _ =>
  }

  lemma AddIdempotent(st: LocationState, k: ServiceKey, now: Time)
    ensures ApplyFileAction(ApplyFileAction(st, k, Add, now), k, Add, now) == ApplyFileAction(st, k, Add, now)
  {
    DistinguishedKeysDistinct();
    var r := ApplyFileAction(st, k, Add, now);
    var rr := ApplyFileAction(r, k, Add, now);
    if k == LocalFileServiceKey {
      assert CombinedLocalFileServiceKey in r.current;
      assert rr.current == r.current && rr.pending == r.pending && rr.deleted == r.deleted;
      assert rr.timestamps == r.timestamps;
    } else {
      OtherAddLocal(st, k, now);
      OtherAddLocal(r, k, now);
    }
  }

  lemma DeleteIdempotent(st: LocationState, k: ServiceKey, now: Time)
    ensures ApplyFileAction(ApplyFileAction(st, k, Delete, now), k, Delete, now) == ApplyFileAction(st, k, Delete, now)
  {
    DistinguishedKeysDistinct();
    var r := ApplyFileAction(st, k, Delete, now);
    var rr := ApplyFileAction(r, k, Delete, now);
    if k == LocalFileServiceKey {
      assert rr.current == r.current && rr.deleted == r.deleted && rr.petitioned == r.petitioned;
      assert rr.timestamps == r.timestamps;
    } else if k == TrashServiceKey {
      assert rr.current == r.current && rr.deleted == r.deleted && rr.petitioned == r.petitioned;
    } else {
      assert rr.current == r.current && rr.deleted == r.deleted && rr.petitioned == r.petitioned;
    }
  }

  /** The whole local life of a file: imported, trashed, deleted for good.
      At the end it is not local, not in the inbox, and its timestamps say
      when it was imported and when it was trashed. */
  lemma LocalLifecycle(st: LocationState, t0: Time, t1: Time, t2: Time)
    ensures var imported := ApplyFileAction(st, LocalFileServiceKey, Add, t0);
      var trashed := ApplyFileAction(imported, LocalFileServiceKey, Delete, t1);
      var gone := ApplyFileAction(trashed, TrashServiceKey, Delete, t2);
      CombinedLocalFileServiceKey in imported.current && CombinedLocalFileServiceKey in trashed.current &&
      CombinedLocalFileServiceKey !in gone.current && !gone.inbox &&
      LocalFileServiceKey !in gone.current && TrashServiceKey !in gone.current &&
      LocalFileServiceKey in gone.deleted && TrashServiceKey in gone.deleted &&
      gone.timestamps[LocalFileServiceKey] == t0 && gone.timestamps[TrashServiceKey] == t1
  {
    DistinguishedKeysDistinct();
    LocalAddLifecycle(st, t0);
    LocalDeleteToTrash(ApplyFileAction(st, LocalFileServiceKey, Add, t0), t1);
  }

  /** Adding URLs and then deleting the same URLs leaves none of them. */
  lemma UrlAddThenDelete(st: LocationState, h: Hash, us: set<Url>)
    ensures var added := ApplyUrlUpdate(st, Add, UrlRow(h, us));
      added.Ok? && ApplyUrlUpdate(added.value, Delete, UrlRow(h, us)) == Ok(st.(urls := st.urls - us))
  {
    assert (st.urls + us) - us == st.urls - us;
  }

  /** ResetService forgets the one service everywhere, and only it. */
  function ResetLocationService(st: LocationState, k: ServiceKey): (r: LocationState)
    ensures k !in r.current && k !in r.deleted && k !in r.pending && k !in r.petitioned
    ensures forall j :: j != k ==> ((j in r.current <==> j in st.current) && (j in r.deleted <==> j in st.deleted) &&
        (j in r.pending <==> j in st.pending) && (j in r.petitioned <==> j in st.petitioned))
    ensures r.inbox == st.inbox && r.urls == st.urls && r.timestamps == st.timestamps && r.filenames == st.filenames
  {
    st.(current := st.current - {k}, pending := st.pending - {k}, deleted := st.deleted - {k}, petitioned := st.petitioned - {k})
  }

  /** Resetting a service twice is resetting it once, and resets of two
      services commute. */
  lemma ResetLocationServiceCommutes(st: LocationState, k: ServiceKey, j: ServiceKey)
    ensures ResetLocationService(ResetLocationService(st, k), k) == ResetLocationService(st, k)
    ensures ResetLocationService(ResetLocationService(st, k), j) == ResetLocationService(ResetLocationService(st, j), k)
  {
  }

  /** The service keys of a set that are not local locations. */
  function Remote(keys: set<ServiceKey>): (r: set<ServiceKey>)
    ensures r <= keys && r !! LocalLocations
    ensures forall k :: k in keys && k !in LocalLocations ==> k in r
  {
    keys - LocalLocations
  }

  /** A file is local when it is in the combined local file service. */
  predicate StateIsLocal(st: LocationState) { CombinedLocalFileServiceKey in st.current }

  predicate StateIsTrashed(st: LocationState) { TrashServiceKey in st.current }

  /** A file is downloading when the combined local service is pending. */
  predicate StateIsDownloading(st: LocationState) { CombinedLocalFileServiceKey in st.pending }

  /** How the local flags answer the local file actions: an import is
      local, out of the trash and no longer downloading; a local delete
      trashes and keeps the file local; a trash delete makes it neither
      local nor trashed; an undelete leaves the trash; a pend on all local
      files downloads exactly what is not yet local. */
  lemma LocalFlags(st: LocationState, k: ServiceKey, now: Time)
    ensures var r := ApplyFileAction(st, LocalFileServiceKey, Add, now);
      StateIsLocal(r) && !StateIsTrashed(r) && !StateIsDownloading(r)
    ensures var r := ApplyFileAction(st, LocalFileServiceKey, Delete, now);
      StateIsTrashed(r) && (StateIsLocal(r) <==> StateIsLocal(st)) && (StateIsDownloading(r) <==> StateIsDownloading(st))
    ensures var r := ApplyFileAction(st, TrashServiceKey, Delete, now);
      !StateIsLocal(r) && !StateIsTrashed(r)
    ensures !StateIsTrashed(ApplyFileAction(st, k, Undelete, now))
    ensures StateIsDownloading(ApplyFileAction(st, CombinedLocalFileServiceKey, Pend, now)) <==>
      StateIsDownloading(st) || !StateIsLocal(st)
    ensures !StateIsDownloading(ApplyFileAction(st, CombinedLocalFileServiceKey, RescindPend, now))
  {
    DistinguishedKeysDistinct();
  }

  /** The time the file arrived in a service, if it is known. */
  function StateTimestamp(st: LocationState, k: ServiceKey): (r: Option<Time>)
    ensures r.Some? <==> k in st.timestamps
    ensures r.Some? ==> r.value == st.timestamps[k]
  {
    if k in st.timestamps then Some(st.timestamps[k]) else None
  }

  class LocationsManager {
    var current: set<ServiceKey>
    var deleted: set<ServiceKey>
    var pending: set<ServiceKey>
    var petitioned: set<ServiceKey>
    var inbox: bool
    var urls: set<Url>
    var serviceKeysToFilenames: map<ServiceKey, string>
    var currentToTimestamps: map<ServiceKey, Time>

    function Model(): LocationState
      reads this
    {
      LocationState(current, deleted, pending, petitioned, inbox, urls, serviceKeysToFilenames, currentToTimestamps)
    }

    method SetModel(st: LocationState)
      modifies this
      ensures Model() == st
    {
      current, deleted, pending, petitioned := st.current, st.deleted, st.pending, st.petitioned;
      inbox, urls := st.inbox, st.urls;
      serviceKeysToFilenames, currentToTimestamps := st.filenames, st.timestamps;
    }

    /** Missing URLs, filenames and timestamps start empty. */
    constructor(current: set<ServiceKey>, deleted: set<ServiceKey>, pending: set<ServiceKey>, petitioned: set<ServiceKey>,
                inbox: bool, urls: Option<set<Url>>, filenames: Option<map<ServiceKey, string>>,
                timestamps: Option<map<ServiceKey, Time>>)
      ensures Model() == LocationState(current, deleted, pending, petitioned, inbox,
        if urls.Some? then urls.value else {},
        if filenames.Some? then filenames.value else map[],
        if timestamps.Some? then timestamps.value else map[])
    {
      this.current := current;
      this.deleted := deleted;
      this.pending := pending;
      this.petitioned := petitioned;
      this.inbox := inbox;
      this.urls := if urls.Some? then urls.value else {};
      this.serviceKeysToFilenames := if filenames.Some? then filenames.value else map[];
      this.currentToTimestamps := if timestamps.Some? then timestamps.value else map[];
    }

    /** Pending and petitioned uploads to the service are dropped; nothing
        else changes. */
    method DeletePending(serviceKey: ServiceKey)
      modifies this`pending, this`petitioned
      ensures Model() == old(Model()).(pending := old(pending) - {serviceKey}, petitioned := old(petitioned) - {serviceKey})
    {
      pending := pending - {serviceKey};
      petitioned := petitioned - {serviceKey};
    }

    method Duplicate() returns (d: LocationsManager)
      ensures fresh(d) && d.Model() == Model()
    {
      d := new LocationsManager(current, deleted, pending, petitioned, inbox, Some(urls),
        Some(serviceKeysToFilenames), Some(currentToTimestamps));
    }

    function GetCurrentRemote(): (r: set<ServiceKey>)
      reads this
      ensures r == Remote(current)
    {
      current - LocalLocations
    }

    function GetDeletedRemote(): (r: set<ServiceKey>)
      reads this
      ensures r == Remote(deleted)
    {
      deleted - LocalLocations
    }

    function GetPendingRemote(): (r: set<ServiceKey>)
      reads this
      ensures r == Remote(pending)
    {
      pending - LocalLocations
    }

    function GetPetitionedRemote(): (r: set<ServiceKey>)
      reads this
      ensures r == Remote(petitioned)
    {
      petitioned - LocalLocations
    }

    function GetTimestamp(serviceKey: ServiceKey): (r: Option<Time>)
      reads this
      ensures r.Some? <==> serviceKey in currentToTimestamps
      ensures r.Some? ==> r.value == currentToTimestamps[serviceKey]
    {
      StateTimestamp(Model(), serviceKey)
    }

    function IsDownloading(): bool
      reads this
    {
      StateIsDownloading(Model())
    }

    function IsLocal(): bool
      reads this
    {
      StateIsLocal(Model())
    }

    function IsRemote(): (b: bool)
      reads this
      ensures b <==> !IsLocal()
    {
      CombinedLocalFileServiceKey !in current
    }

    function IsTrashed(): bool
      reads this
    {
      StateIsTrashed(Model())
    }

    function ShouldHaveThumbnail(): (b: bool)
      reads this
      ensures b <==> current != {}
    {
      |current| > 0
    }

    method ProcessContentUpdate(serviceKey: ServiceKey, u: ContentUpdate, now: Time) returns (r: Outcome)
      modifies this
      ensures var res := ProcessLocationUpdate(old(Model()), serviceKey, u, now);
        (r == Pass <==> res.Ok?) &&
        (res.Ok? ==> Model() == res.value) &&
        (res.Err? ==> r == Fail(res.error) && Model() == old(Model()))
    {
      var res := ProcessLocationUpdate(Model(), serviceKey, u, now);
      match res
      case Ok(st) =>
        SetModel(st);
        r := Pass;
      case Err(e) =>
        r := Fail(e);
    }

    method ResetService(serviceKey: ServiceKey)
      modifies this
      ensures Model() == ResetLocationService(old(Model()), serviceKey)
    {
      current := current - {serviceKey};
      pending := pending - {serviceKey};
      deleted := deleted - {serviceKey};
      petitioned := petitioned - {serviceKey};
    }
  }
}
