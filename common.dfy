/** Shared vocabulary of the media model: results and options, bytes and keys,
    the four content statuses, typed content updates and the service directory
    that the client otherwise looks up through a global services manager. */
module Common {

  datatype Option<T> = None | Some(value: T)

  /** The ways an operation of the media model can fail. */
  datatype Error =
    | DataMissing        // an item is not in an ordered index
    | MalformedRow       // a content update whose row does not fit its action
    | UnknownSort        // a sort type whose data names no known key
    | BadHex             // serialised rating-service key that is not hex
    | EmptyList          // first/last/display media of an empty list
    | IndexOutOfRange    // a list position outside the list
    | MissingValue       // a sum over values some of which are None

  datatype Result<T> = Ok(value: T) | Err(error: Error)

  /** The outcome of an operation that returns nothing but may raise. */
  datatype Outcome = Pass | Fail(error: Error)

  newtype byte = x: int | 0 <= x < 256

  type Bytes = seq<byte>
  /** Services and files are identified by opaque byte strings. */
  type ServiceKey = Bytes
  type Hash = Bytes
  type Tag = string
  type Url = string

  function Ascii(s: string): (b: Bytes)
    requires forall i :: 0 <= i < |s| ==> s[i] as int < 256
    ensures |b| == |s|
    ensures forall i :: 0 <= i < |s| ==> b[i] as int == s[i] as int
  {
    seq(|s|, i requires 0 <= i < |s| => s[i] as int as byte)
  }

  // The distinguished services of the client. Only their being pairwise
  // distinct matters to the model.
  const LocalFileServiceKey: ServiceKey := Ascii("local files")
  const TrashServiceKey: ServiceKey := Ascii("trash")
  const CombinedLocalFileServiceKey: ServiceKey := Ascii("all local files")
  const CombinedTagServiceKey: ServiceKey := Ascii("all known tags")

  /** The three local file locations of LocationsManager.LOCAL_LOCATIONS. */
  const LocalLocations: set<ServiceKey> := {LocalFileServiceKey, TrashServiceKey, CombinedLocalFileServiceKey}

  lemma DistinguishedKeysDistinct()
    ensures LocalFileServiceKey != TrashServiceKey
    ensures LocalFileServiceKey != CombinedLocalFileServiceKey
    ensures TrashServiceKey != CombinedLocalFileServiceKey
    ensures CombinedTagServiceKey !in LocalLocations
  {
    assert |LocalFileServiceKey| == 11 && |TrashServiceKey| == 5;
    assert |CombinedLocalFileServiceKey| == 15 && |CombinedTagServiceKey| == 14;
  }

  /** One set per content status; a missing status of the source's
      default-dicts is the empty set here. */
  datatype StatusSets<T> = StatusSets(current: set<T>, deleted: set<T>, pending: set<T>, petitioned: set<T>)
  {
    static function Empty(): StatusSets<T> { StatusSets({}, {}, {}, {}) }
  }

  datatype DataType = Files | Mappings | Urls | Ratings

  datatype Action = Add | Delete | Undelete | Pend | Petition | RescindPend | RescindPetition | Archive | Inbox

  /** The row of a content update, one variant per tuple shape. */
  datatype Row =
    | HashesRow(hashes: set<Hash>)                                // file rows
    | TagRow(tag: Tag, hashes: set<Hash>)                         // ( tag, hashes )
    | PetitionRow(tag: Tag, hashes: set<Hash>, reason: string)    // ( tag, hashes, reason )
    | UrlRow(hash: Hash, urls: set<Url>)                          // ( hash, urls )
    | RatingRow(rating: Option<real>, hashes: set<Hash>)          // ( rating, hashes )

  datatype ContentUpdate = ContentUpdate(dataType: DataType, action: Action, row: Row)
  {
    /** The files an update is about. */
    function Hashes(): set<Hash>
    {
      match row
      case HashesRow(hs) => hs
      case TagRow(_, hs) => hs
      case PetitionRow(_, hs, _) => hs
      case UrlRow(h, _) => {h}
      case RatingRow(_, hs) => hs
    }
  }

  datatype ServiceUpdateAction = DeletePendingUpdate | ResetUpdate

  /** What the client's services manager answers about a service key. */
  datatype ServiceClass = TagService | FileService | RatingService | OtherService

  datatype ServiceDirectory = ServiceDirectory(
    classOf: ServiceKey -> ServiceClass,
    localFileDomains: set<ServiceKey>)   // the services of type LOCAL_FILE_DOMAIN
}
