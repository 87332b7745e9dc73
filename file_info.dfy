/** FileInfoManager: the immutable facts of one file. */
module FileInfos {
  import opened Common

  /** HC.APPLICATION_UNKNOWN; the mime codes are opaque integers here. */
  const ApplicationUnknown: int := 101
  /** HC.APPLICATION_HYDRUS_CLIENT_COLLECTION, the mime a collection reports. */
  const ApplicationHydrusClientCollection: int := 24

  datatype FileInfo = FileInfo(
    hash: Hash,
    size: Option<int>,
    mime: int,
    width: Option<int>,
    height: Option<int>,
    duration: Option<int>,
    numFrames: Option<int>,
    numWords: Option<int>)

  type FileInfoTuple = (Hash, Option<int>, int, Option<int>, Option<int>, Option<int>, Option<int>, Option<int>)

  /** The constructor: a missing mime becomes APPLICATION_UNKNOWN, every
      other argument is kept as given. */
  function NewFileInfo(hash: Hash, size: Option<int>, mime: Option<int>, width: Option<int>, height: Option<int>,
                       duration: Option<int>, numFrames: Option<int>, numWords: Option<int>): (f: FileInfo)
    ensures mime.None? ==> f.mime == ApplicationUnknown
    ensures mime.Some? ==> f.mime == mime.value
    ensures f.hash == hash && f.size == size && f.width == width && f.height == height
    ensures f.duration == duration && f.numFrames == numFrames && f.numWords == numWords
  {
    FileInfo(hash, size, if mime.None? then ApplicationUnknown else mime.value, width, height, duration, numFrames, numWords)
  }

  function ToTuple(f: FileInfo): FileInfoTuple {
    (f.hash, f.size, f.mime, f.width, f.height, f.duration, f.numFrames, f.numWords)
  }

  /** A manager built from the fields of a tuple. */
  function FromTuple(t: FileInfoTuple): FileInfo {
    NewFileInfo(t.0, t.1, Some(t.2), t.3, t.4, t.5, t.6, t.7)
  }

  /** Duplicate re-runs the constructor on the stored fields. */
  function Duplicate(f: FileInfo): FileInfo {
    NewFileInfo(f.hash, f.size, Some(f.mime), f.width, f.height, f.duration, f.numFrames, f.numWords)
  }

  /** ToTuple loses nothing, in both directions. */
  lemma TupleRoundTrip(f: FileInfo, t: FileInfoTuple)
    ensures FromTuple(ToTuple(f)) == f
    ensures ToTuple(FromTuple(t)) == t
  {
  }

  /** A duplicate is indistinguishable from the original. */
  lemma DuplicateIsIdentical(f: FileInfo)
    ensures Duplicate(f) == f
    ensures ToTuple(Duplicate(f)) == ToTuple(f)
  {
  }

  /** GetResolution: the (width, height) pair as stored. */
  function GetResolution(f: FileInfo): (Option<int>, Option<int>) {
    (f.width, f.height)
  }
}
