/** MediaResult: one file's info, tags, locations and ratings, and the
    routing of updates to the manager responsible for the service's type. */
module MediaResults {
  import opened Common
  import opened FileInfos
  import opened Tags
  import opened Locations

  /** The ratings manager reduced to what the media model reads: the rating
      of each service that has one. */
  type Ratings = map<ServiceKey, real>

  /** RatingsManager.ProcessContentUpdate, whose code is not part of this
      model. */
  type RatingsUpdate = (Ratings, ServiceKey, ContentUpdate) -> Ratings

  function GetRating(r: Ratings, k: ServiceKey): (v: Option<real>)
    ensures v.Some? <==> k in r
    ensures v.Some? ==> v.value == r[k]
  {
    if k in r then Some(r[k]) else None
  }

  /** What the list engine reads of a media result. */
  datatype MediaRecord = MediaRecord(info: FileInfo, tags: ServiceTags, locations: LocationState, ratings: Ratings)

  class MediaResult {
    const fileInfo: FileInfo
    const tagsManager: TagsManager
    const locationsManager: LocationsManager
    var ratings: Ratings

    ghost predicate Valid()
      reads this, tagsManager
    {
      tagsManager.Valid() && !tagsManager.simple
    }

    constructor(fileInfo: FileInfo, tagsManager: TagsManager, locationsManager: LocationsManager, ratings: Ratings)
      ensures this.fileInfo == fileInfo && this.tagsManager == tagsManager
      ensures this.locationsManager == locationsManager && this.ratings == ratings
    {
      this.fileInfo := fileInfo;
      this.tagsManager := tagsManager;
      this.locationsManager := locationsManager;
      this.ratings := ratings;
    }

    /** The record the list engine reads, taken from the managers as they
        stand. */
    function Snapshot(): MediaRecord
      reads this, tagsManager, locationsManager
    {
      MediaRecord(fileInfo, tagsManager.services, locationsManager.Model(), ratings)
    }

    function GetHash(): Hash { fileInfo.hash }
    function GetSize(): Option<int> { fileInfo.size }
    function GetMime(): int { fileInfo.mime }
    function GetDuration(): Option<int> { fileInfo.duration }
    function GetNumFrames(): Option<int> { fileInfo.numFrames }
    function GetNumWords(): Option<int> { fileInfo.numWords }
    function GetResolution(): (Option<int>, Option<int>) { FileInfos.GetResolution(fileInfo) }

    function GetInbox(): bool
      reads locationsManager
    {
      locationsManager.inbox
    }

    /** Every getter answers what the record the list engine reads says. */
    lemma GettersReadSnapshot()
      ensures var r := Snapshot();
        && GetHash() == r.info.hash && GetSize() == r.info.size && GetMime() == r.info.mime
        && GetDuration() == r.info.duration && GetNumFrames() == r.info.numFrames
        && GetNumWords() == r.info.numWords && GetResolution() == FileInfos.GetResolution(r.info)
        && GetInbox() == r.locations.inbox
    {
    }

    /** Pending uploads are cleared by the manager of the service's kind:
        tags for a tag service, locations for a file service. */
    method DeletePending(serviceKey: ServiceKey, directory: ServiceDirectory)
      requires Valid()
      modifies tagsManager, locationsManager
      ensures Valid()
      ensures directory.classOf(serviceKey) == TagService ==>
        (var s := Lookup(old(tagsManager.services), serviceKey);
         tagsManager.services == (if |s.pending| + |s.petitioned| > 0
           then old(tagsManager.services)[serviceKey := s.(pending := {}, petitioned := {})]
           else old(tagsManager.services))) &&
        locationsManager.Model() == old(locationsManager.Model())
      ensures directory.classOf(serviceKey) == FileService ==>
        locationsManager.Model() == old(locationsManager.Model()).(
          pending := old(locationsManager.pending) - {serviceKey},
          petitioned := old(locationsManager.petitioned) - {serviceKey}) &&
        tagsManager.services == old(tagsManager.services)
      ensures directory.classOf(serviceKey) !in {TagService, FileService} ==>
        tagsManager.services == old(tagsManager.services) && locationsManager.Model() == old(locationsManager.Model())
    {
      var kind := directory.classOf(serviceKey);
      if kind == TagService {
        tagsManager.DeletePending(serviceKey);
      } else if kind == FileService {
        locationsManager.DeletePending(serviceKey);
      }
    }

    /** A content update goes to the tags manager for a tag service, the
        locations manager for a file service, the ratings for a rating
        service, and nowhere otherwise. */
    method ProcessContentUpdate(serviceKey: ServiceKey, u: ContentUpdate, directory: ServiceDirectory,
                                now: Time, rateUpdate: RatingsUpdate) returns (r: Outcome)
      requires Valid()
      modifies this, tagsManager, locationsManager
      ensures Valid()
      ensures directory.classOf(serviceKey) == TagService ==>
        (var t := ProcessTagUpdate(old(tagsManager.services), serviceKey, u);
         (r == Pass <==> t.Some?) &&
         (t.Some? ==> tagsManager.services == t.value) &&
         (t.None? ==> tagsManager.services == old(tagsManager.services))) &&
        locationsManager.Model() == old(locationsManager.Model()) && ratings == old(ratings)
      ensures directory.classOf(serviceKey) == FileService ==>
        (var l := ProcessLocationUpdate(old(locationsManager.Model()), serviceKey, u, now);
         (r == Pass <==> l.Ok?) &&
         (l.Ok? ==> locationsManager.Model() == l.value) &&
         (l.Err? ==> locationsManager.Model() == old(locationsManager.Model()))) &&
        tagsManager.services == old(tagsManager.services) && ratings == old(ratings)
      ensures directory.classOf(serviceKey) == RatingService ==>
        r == Pass && ratings == rateUpdate(old(ratings), serviceKey, u) &&
        tagsManager.services == old(tagsManager.services) && locationsManager.Model() == old(locationsManager.Model())
      ensures directory.classOf(serviceKey) == OtherService ==>
        r == Pass && ratings == old(ratings) &&
        tagsManager.services == old(tagsManager.services) && locationsManager.Model() == old(locationsManager.Model())
    {
      var kind := directory.classOf(serviceKey);
      r := Pass;
      if kind == TagService {
        r := tagsManager.ProcessContentUpdate(serviceKey, u);
      } else if kind == FileService {
        r := locationsManager.ProcessContentUpdate(serviceKey, u, now);
      } else if kind == RatingService {
        ratings := rateUpdate(ratings, serviceKey, u);
      }
    }

    /** A reset service is forgotten by both the tags and the locations. */
    method ResetService(serviceKey: ServiceKey)
      requires Valid()
      modifies tagsManager, locationsManager
      ensures Valid()
      ensures serviceKey in old(tagsManager.services) ==> tagsManager.services == old(tagsManager.services) - {serviceKey}
      ensures serviceKey !in old(tagsManager.services) ==> tagsManager.services == old(tagsManager.services)
      ensures locationsManager.Model() == ResetLocationService(old(locationsManager.Model()), serviceKey)
    {
      tagsManager.ResetService(serviceKey);
      locationsManager.ResetService(serviceKey);
    }

    /** A media result over duplicates of every manager. */
    method Duplicate() returns (d: MediaResult)
      requires Valid()
      ensures fresh(d) && fresh(d.tagsManager) && fresh(d.locationsManager) && d.Valid()
      ensures d.Snapshot() == Snapshot()
    {
      var t := tagsManager.Duplicate();
      var l := locationsManager.Duplicate();
      d := new MediaResult(FileInfos.Duplicate(fileInfo), t, l, ratings);
      DuplicateIsIdentical(fileInfo);
    }
  }
}
