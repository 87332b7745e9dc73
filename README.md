# The hydrus client media model, in Dafny

This project models the in-memory media model of the hydrus network client
(`include/ClientMedia.py`). A page of thumbnails is a media list: it holds
media singletons (one per media result, that is one file with its file info,
tags, locations and ratings) and media collections (groups of singletons that
share a collection key), kept in a sorted list together with an index from
file hash to the node that holds it. Content updates (tags, files, URLs,
ratings) and service updates (delete pending, reset) flow into the list, its
collections and the managers of each media result; the list removes the
files that a delete hides from its view, regroups by collection key and
sorts by a media sort.

The modules follow the components of that file:

- `Common` (common.dfy): hashes, service keys, the content updates, the
  errors the source raises and the distinguished service keys.
- `Ordering` (ordering.dfy): Python's comparison of the values sort keys
  return, and a stable sort as a specification.
- `SortedLists` (sorted_list.dfy): `SortedList`, a class over a sequence with
  a lazily rebuilt item-to-index map.
- `Tags` (tags.dfy): `TagsManager` and `TagsManagerSimple`, one class, with
  the tag status algebra, the combined view and the namespace queries as
  functions on values.
- `Locations` (locations.dfy): `LocationsManager`, a class, with the file
  location algebra and the local lifecycle as functions on values.
- `FileInfos` (file_info.dfy): `FileInfoManager`.
- `MediaResults` (media_result.dfy): `MediaResult` and its routing of
  updates by service type.
- `MediaSorts` (media_sort.dfy): `MediaSort`, its serialisable form with the
  hex-encoded rating key, `CanAsc` and the choice of key.
- `MediaValues` (media.dfy): what singletons and collections report, the
  GetHashes and GenerateMediaResults filters, the deletion-visibility rule,
  collection aggregates, `MergeTagsManagers`, sort-key evaluation and the
  grouping by collection key.
- `MediaCollections` (media_collection.dfy): `MediaSingleton` and
  `MediaCollection`, classes.
- `MediaLists` (media_list.dfy): `MediaList` and `ListeningMediaList`'s
  `AddMediaResults`, a class, with `FlattenMedia`.

The state-changing classes are proved against functions on values: each
method's postcondition gives the new state as a function of the old one,
and the lemmas about those functions state what the source promises.
Everything the source looks up through the client controller or helper
libraries is a parameter: the service type of each service key and the local
file domains, the `remove_trashed_files` option, the media viewer's show
action per mime, the current time, the sibling collapse, tag splitting and
sortable conversion, the rating slice, and the random draws of the random
sort. Media results are shared objects in the source; the list engine reads
them, as they stand at each call, through a function from hash to record.

## Model

| member | source | states |
|---|---|---|
| Common.DistinguishedKeysDistinct | include/ClientMedia.py:309-311 | the local file service, the trash and the combined local file service are three different keys, and the combined tag service is none of them |
| Ordering.LexStrictTotalOrder | include/ClientMedia.py:2155-2164 | Python's tuple comparison (first difference decides, a proper prefix is smaller) is a strict total order when the element order is |
| Ordering.SliceLessOrder | include/ClientMedia.py:2155-2164 | the comparison of tuples of sortable subtags, and of lists of them (the namespace sort key), is a strict total order |
| Ordering.KeyLessOrder | include/ClientMedia.py:2037-2176 | the order on the values a sort key returns (numbers below lists, as Python 2 orders them) is a strict total order |
| Ordering.StableSort | include/ClientMedia.py:2353-2368 | the sort is a permutation of its input |
| Ordering.StableSortSorted | include/ClientMedia.py:2353-2368 | the sort's result is ordered by the key, descending when reverse is set |
| Ordering.StableSortWithKey | include/ClientMedia.py:2353-2368 | stability: for every key value, the elements having it keep their relative order, with or without reverse |
| Ordering.TwoPassSort | include/ClientMedia.py:1242-1252 | sorting by the fallback key and then by the primary key orders by the primary key and, among equal primary keys, by the fallback key |
| Ordering.SortedUnique | include/ClientMedia.py:2353-2368 | under a strict total order with distinct keys, a sorted list is determined by its elements |
| SortedLists.IndexMap | include/ClientMedia.py:2291-2293 | the rebuilt index has exactly the listed items as keys and maps each to a position holding it |
| SortedLists.IndexMapLast | include/ClientMedia.py:2291-2293 | the dict comprehension keeps an item's last position: no later position holds it |
| SortedLists.IndexMapNoDuplicates | include/ClientMedia.py:2291-2293 | on a list without repeats the index of the item at position i is i |
| SortedLists.Remaining | include/ClientMedia.py:2337-2350 | the items left after a removal are exactly the listed ones not removed |
| SortedLists.RemoveByPositionsRemovesItems | include/ClientMedia.py:2337-2350 | on a list without repeats, deleting the indexed positions of the items deletes exactly those items and keeps the order of the rest |
| SortedLists.DeletePositions | include/ClientMedia.py:2341-2348 | deleting the positions one by one from the highest down gives the list without those positions |
| SortedLists.MaxOf | include/ClientMedia.py:2343-2345 | the position taken next is the largest left |
| SortedLists.ExtendIndex | include/ClientMedia.py:2296-2306 | extending the index item by item from position len(list) gives the index of the extended list |
| SortedLists.SortedList.constructor | include/ClientMedia.py:2251-2263 | the list holds the initial items, no sort key is stored and the index is absent |
| SortedLists.SortedList.Length | include/ClientMedia.py:2281-2283 | the length of the list |
| SortedLists.SortedList.GetItem | include/ClientMedia.py:2271-2273 | the item at a position, negative positions counting from the end, and IndexOutOfRange exactly outside the list |
| SortedLists.SortedList.RecalcIndices | include/ClientMedia.py:2291-2293 | the index becomes the index of the list |
| SortedLists.SortedList.AppendItems | include/ClientMedia.py:2296-2308 | the list is the old list followed by the items and the index agrees with it |
| SortedLists.SortedList.Index | include/ClientMedia.py:2311-2327 | the item's position (its last occurrence) when listed, DataMissing exactly when it is not |
| SortedLists.SortedList.InsertItems | include/ClientMedia.py:2330-2334 | the old list plus the items, stably re-sorted by the stored key, the key unchanged |
| SortedLists.SortedList.RemoveItems | include/ClientMedia.py:2337-2350 | DataMissing with the list untouched when an item is missing, otherwise the list without the items' positions and the index dropped |
| SortedLists.SortedList.Sort | include/ClientMedia.py:2353-2368 | a given key is stored and the list is the stable sort by the stored key; without a key the stored one is reused; always a permutation |
| Tags.ApplyTagAction | include/ClientMedia.py:2657-2689 | Add puts the tag in Current and out of Deleted and Pending; Delete puts it in Deleted and out of Current and Petitioned; Pend adds only a tag that is not Current; Petition adds only a Current tag; the rescinds remove from Pending or Petitioned only; no other tag moves; Current∩Deleted=∅, Pending∩Current=∅ and Petitioned⊆Current are kept |
| Tags.TagActionIdempotent | include/ClientMedia.py:2657-2689 | applying the same tag action twice is applying it once |
| Tags.UpdateTag | include/ClientMedia.py:2646-2654 | the tag is unpacked from a (tag, hashes, reason) row for a petition and a (tag, hashes) row otherwise, and nothing else unpacks |
| Tags.ProcessTagUpdate | include/ClientMedia.py:2642-2691 | only the updated service's sets change, and they change by the action; a malformed row gives None |
| Tags.ProcessTagUpdateKeepsWellFormed | include/ClientMedia.py:2642-2691 | a tag update keeps every service consistent |
| Tags.Combined | include/ClientMedia.py:2537-2554 | a tag is Current (Pending) in the combined view exactly when some non-combined service has it Current (Pending) after sibling collapse |
| Tags.CombinedIgnoresCombined | include/ClientMedia.py:2539-2543 | the combined view ignores what is stored under the combined key, so recomputing it is idempotent |
| Tags.CombineServices | include/ClientMedia.py:2537-2552 | the loop over the services computes the combined view |
| Tags.NamespaceIndex | include/ClientMedia.py:2415-2417 | namespace to subtags of the namespaced tags, with no entry for the empty namespace |
| Tags.NamespaceSlice | include/ClientMedia.py:2485-2489 | the tags that start with "namespace:" for one of the namespaces |
| Tags.SortableSubtags | include/ClientMedia.py:2442 | the sortable forms of the subtags of one namespace |
| Tags.CollectSubtags | include/ClientMedia.py:2442 | the comprehension's list holds the sortable subtag of every tag of the namespace, each form exactly as often as there are tags giving it |
| Tags.NamespaceSubtags | include/ClientMedia.py:2442-2446 | those subtags, sorted: the multiset of sortable forms over the tags of the namespace, in ascending order |
| Tags.CountsSortableUnique | include/ClientMedia.py:2442-2446 | two ascending lists counting the same sortable subtags are equal, so the sorted tuple of a namespace is one list |
| Tags.ComparableNamespaceSlice | include/ClientMedia.py:2434-2449 | one entry per asked namespace, each the ascending list of that namespace's sortable subtags with each form counted once per tag giving it |
| Tags.TagsManager.constructor | include/ClientMedia.py:2373-2377 | the given services, combined flag cleared, no namespace cache |
| Tags.TagsManager.RecalcCombinedIfNeeded | include/ClientMedia.py:2380-2382 | Simple, or a calculated combined entry: nothing changes; otherwise the combined entry becomes the combined view of the other services, the namespace cache is dropped and the flag is set |
| Tags.TagsManager.ProcessContentUpdate | include/ClientMedia.py:2642-2691 | the services become ProcessTagUpdate's and the combined flag is cleared; a malformed row raises and changes nothing |
| Tags.TagsManager.DeletePending | include/ClientMedia.py:2562-2571 | the service's Pending and Petitioned are emptied, and the flag cleared, only when one of them was non-empty |
| Tags.TagsManager.ResetService | include/ClientMedia.py:2694-2700 | a present service is forgotten and the flag cleared; an absent one changes nothing |
| Tags.TagsManager.NewSiblings | include/ClientMedia.py:2637-2639 | the combined flag is cleared |
| Tags.TagsManager.Duplicate | include/ClientMedia.py:2385-2401 | a fresh manager of the same kind over the same sets, combined flag cleared |
| Tags.TagsManager.GetStatusesToTags | include/ClientMedia.py:2618-2625 | the service's sets; for the combined key a stale combined entry is recomputed first |
| Tags.TagsManager.GetCurrent | include/ClientMedia.py:2452-2461 | the service's Current set (recomputing the combined entry when it is asked for) |
| Tags.TagsManager.GetDeleted | include/ClientMedia.py:2464-2473 | the service's Deleted set |
| Tags.TagsManager.GetPending | include/ClientMedia.py:2494-2503 | the service's Pending set |
| Tags.TagsManager.GetPetitioned | include/ClientMedia.py:2506-2515 | the service's Petitioned set |
| Tags.TagsManager.GetServiceKeysToStatusesToTags | include/ClientMedia.py:2611-2615 | all services, the combined entry recomputed when stale |
| Tags.TagsManager.GetNumTags | include/ClientMedia.py:2594-2608 | the count of Current and/or Pending tags of the service as asked |
| Tags.TagsManager.HasTag | include/ClientMedia.py:2628-2634 | true exactly when some non-combined service has the tag Current or Pending after sibling collapse |
| Tags.TagsManager.GetCombinedNamespaces | include/ClientMedia.py:2404-2422 | one entry per asked namespace: the subtags of combined Current and Pending tags in it |
| Tags.TagsManager.GetNamespaceSlice | include/ClientMedia.py:2476-2491 | the combined Current and Pending tags in one of the namespaces |
| Tags.TagsManager.GetComparableNamespaceSlice | include/ClientMedia.py:2425-2449 | per asked namespace, the ascending list of the sortable subtags of the combined Current and Pending tags, each form counted once per tag giving it |
| Locations.ApplyUrlUpdate | include/ClientMedia.py:557-569 | URL Add is set union and URL Delete set difference on the URL set; a row that is not a (hash, urls) pair raises MalformedRow; other URL actions change nothing |
| Locations.ProcessLocationUpdate | include/ClientMedia.py:475-569 | file updates go to the file branch, URL updates to the URL branch, any other content type changes nothing |
| Locations.ApplyFileAction | include/ClientMedia.py:479-554 | a file action never touches the URLs or filenames; Archive and Inbox only set the inbox flag; Add leaves the key current (not deleted, not pending) and stamped now; Delete leaves it deleted and not current or petitioned and keeps every stamp but the trash's; only Add and Delete change timestamps; the two rescinds drop the key from pending or petitioned and nothing else |
| Locations.LocalAddLifecycle | include/ClientMedia.py:489-511 | Add on the local file service: current there and in combined-local, out of the trash, not pending locally, stamped now; inbox and a combined-local stamp exactly when combined-local was not current before |
| Locations.OtherAddLocal | include/ClientMedia.py:489-511 | Add on another service: current there, out of its deleted and pending, stamped now, and nothing else changes |
| Locations.LocalDeleteToTrash | include/ClientMedia.py:513-524 | Delete on the local file service: deleted there, trash current and stamped now, combined-local and inbox unchanged |
| Locations.TrashDeleteRemoves | include/ClientMedia.py:513-530 | Delete on the trash: out of the trash and of combined-local, and out of the inbox |
| Locations.UndeleteRestores | include/ClientMedia.py:533-538 | Undelete moves the local file service from deleted to current and drops the trash, whatever key the update names, without touching timestamps, pending or petitioned |
| Locations.PendPetitionGuards | include/ClientMedia.py:540-546 | Pend adds only a key that is not current; Petition adds only a key that is not deleted |
| Locations.FileActionIdempotent | include/ClientMedia.py:479-554 | every file action repeated at the same time changes nothing more |
| Locations.AddIdempotent | include/ClientMedia.py:489-511 | Add twice at the same time is Add once |
| Locations.DeleteIdempotent | include/ClientMedia.py:513-530 | Delete twice is Delete once |
| Locations.LocalLifecycle | include/ClientMedia.py:489-530 | import, trash, delete for good: the file ends not local, not in the inbox, deleted from both local services, with its import and trash times kept |
| Locations.UrlAddThenDelete | include/ClientMedia.py:557-569 | adding URLs and then deleting the same URLs leaves the URL set without them |
| Locations.ResetLocationService | include/ClientMedia.py:575-580 | the key leaves all four sets, every other key stays where it was, and nothing else changes |
| Locations.ResetLocationServiceCommutes | include/ClientMedia.py:575-580 | resetting a service twice is resetting it once, and resets of two services can be done in either order |
| Locations.Remote | include/ClientMedia.py:366-391 | the keys of a set that are not local locations |
| Locations.StateTimestamp | include/ClientMedia.py:438-446 | the stored time of the service, or None when there is none |
| Locations.LocalFlags | include/ClientMedia.py:455-473 | IsLocal, IsTrashed and IsDownloading as the local actions move them: an import is local, untrashed and not downloading; a local delete trashes and keeps locality; a trash delete is neither local nor trashed; an undelete is untrashed; a pend on all local files downloads exactly a file not yet local, and rescinding it stops |
| Locations.LocationsManager.constructor | include/ClientMedia.py:313-341 | the four sets and the inbox flag as given, missing URLs, filenames and timestamps empty |
| Locations.LocationsManager.DeletePending | include/ClientMedia.py:344-347 | the key leaves pending and petitioned only |
| Locations.LocationsManager.Duplicate | include/ClientMedia.py:350-360 | a fresh manager with the same state |
| Locations.LocationsManager.GetCurrentRemote | include/ClientMedia.py:366-368 | the current keys that are not local locations |
| Locations.LocationsManager.GetDeletedRemote | include/ClientMedia.py:372-374 | the deleted keys that are not local locations |
| Locations.LocationsManager.GetPendingRemote | include/ClientMedia.py:383-385 | the pending keys that are not local locations |
| Locations.LocationsManager.GetPetitionedRemote | include/ClientMedia.py:389-391 | the petitioned keys that are not local locations |
| Locations.LocationsManager.GetTimestamp | include/ClientMedia.py:438-446 | the stored time of the service, None when it has none |
| Locations.LocationsManager.IsRemote | include/ClientMedia.py:465-467 | remote exactly when not local |
| Locations.LocationsManager.ShouldHaveThumbnail | include/ClientMedia.py:583-585 | true exactly when the file is current somewhere |
| Locations.LocationsManager.ProcessContentUpdate | include/ClientMedia.py:475-569 | the new state is ProcessLocationUpdate's; a malformed URL row raises and changes nothing |
| Locations.LocationsManager.ResetService | include/ClientMedia.py:575-580 | the new state is the old one with the key forgotten in the four sets |
| FileInfos.NewFileInfo | include/ClientMedia.py:247-261 | a missing mime becomes APPLICATION_UNKNOWN; every other argument is stored as given |
| FileInfos.TupleRoundTrip | include/ClientMedia.py:304-306 | the tuple form loses nothing: building from a tuple and flattening again (either way round) gives back the input |
| FileInfos.DuplicateIsIdentical | include/ClientMedia.py:264-266 | a duplicate equals the original, field for field and as a tuple |
| MediaResults.GetRating | include/ClientMedia.py:2166-2172 | the rating a service holds, and None exactly when the service has no rating |
| MediaResults.MediaResult.constructor | include/ClientMedia.py:1827-1832 | the result holds the file info, the tags and locations managers and the ratings it was given |
| MediaResults.MediaResult.DeletePending | include/ClientMedia.py:1835-1847 | a tag service clears its pending and petitioned tags (if there were any) and leaves the locations alone; a file service drops the key from the pending and petitioned locations and leaves the tags alone; other services change nothing |
| MediaResults.MediaResult.ProcessContentUpdate | include/ClientMedia.py:1921-1939 | a tag update is applied by the tags manager, a file or URL update by the locations manager, a rating update by the ratings, each leaving the other managers unchanged; an update a manager refuses changes nothing and is reported |
| MediaResults.MediaResult.ResetService | include/ClientMedia.py:1943-1946 | both the tags and the locations forget the service, nothing else changes |
| MediaResults.MediaResult.Duplicate | include/ClientMedia.py:1851-1858 | fresh managers whose snapshot equals the original's |
| MediaResults.MediaResult.GettersReadSnapshot | include/ClientMedia.py:1861-1914 | hash, size, mime, duration, frames, words, resolution and inbox are what the record the list engine reads says |
| MediaSorts.NewMediaSort | include/ClientMedia.py:1960-1973 | a missing sort type is by file size, a missing direction ascending; given values are kept |
| MediaSorts.HexEncode | include/ClientMedia.py:1990-1992 | two lower-case hex digits per byte of the rating service key |
| MediaSorts.HexDecode | include/ClientMedia.py:2010-2012 | succeeds exactly on strings of even length made of hex digits, giving half as many bytes; anything else is BadHex |
| MediaSorts.HexRoundTrip | include/ClientMedia.py:1990-2012 | decoding the hex of a key gives the key back |
| MediaSorts.HexDecodeRoundTrip | include/ClientMedia.py:1990-2012 | on even-length lower-case hex, encoding the decoded bytes gives the string back |
| MediaSorts.Characters | include/ClientMedia.py:2006-2008 | one single-character string per character, in order |
| MediaSorts.Serialise | include/ClientMedia.py:1974-1993 | the metatype names the kind of sort, the data is in the shape loading expects for it (a rating key as lower-case hex of even length), and the direction is kept |
| MediaSorts.Deserialise | include/ClientMedia.py:1998-2015 | the direction is kept; namespace data is a list or a string, rating data a hex string (else BadHex), system data is accepted only as an integer code (a narrowing, see Left out); an unknown metatype fails |
| MediaSorts.SerialRoundTrip | include/ClientMedia.py:1976-2015 | loading the serialisable form of a sort gives the same sort back, with the same CanAsc |
| MediaSorts.DeserialiseRoundTrip | include/ClientMedia.py:1976-2015 | a serialised form survives loading and saving again exactly when it is in the form saving produces |
| MediaSorts.GetSortKeyAndReverse | include/ClientMedia.py:2037-2176 | the reverse flag is the truth value of sort_asc; a key exists exactly for the known sorts; an unknown system code fails |
| MediaSorts.CanAsc | include/ClientMedia.py:2018-2034 | for every sort that has a key, no ascending/descending choice exactly when the key is the mime, a random draw or namespace slices; a system code no key knows still offers one |
| MediaSorts.ImportTimeScope | include/ClientMedia.py:2072-2085 | import time is read from the combined local file service inside a local file domain and from the list's own service otherwise; every sort_asc other than SORT_ASC reverses |
| MediaSorts.DefaultSortIsSizeAscending | include/ClientMedia.py:1960-1973 | the default sort is by size, not reversed, and can go ascending |
| MediaValues.SumOfPermutation | include/ClientMedia.py:1321-1326 | a sum over the children does not depend on their order |
| MediaValues.SingletonSize | include/ClientMedia.py:1695-1700 | a missing size counts as 0; a known size is kept |
| MediaValues.SingletonResolution | include/ClientMedia.py:1687-1692 | a missing width gives (0, 0); otherwise width and height as stored, so the width is never missing |
| MediaValues.SingletonHashes | include/ClientMedia.py:1507-1593 | at most the file's own hash, present exactly when the discriminant passes, the file is current at the location asked for, and the not-uploaded-to service is not among its current remote services |
| MediaValues.SingletonHashesOrdered | include/ClientMedia.py:1507-1593 | the ordered form: empty or the one hash, with the same members as the unordered one |
| MediaValues.DiscriminantsComplement | include/ClientMedia.py:1515-1533 | inbox and archive split every file, as do local and not local; local-but-not-in-trash implies local |
| MediaValues.NotUploadedToLocal | include/ClientMedia.py:1570-1582 | asking for files not uploaded to a local location hides nothing |
| MediaValues.TrashDeleteVisibility | include/ClientMedia.py:1163-1179 | a delete from the trash removes files from exactly the local views |
| MediaValues.TrashingVisibility | include/ClientMedia.py:1163-1179 | trashing a local file removes it from a non-trash local view exactly when remove_trashed_files is set |
| MediaValues.RemoteDeleteVisibility | include/ClientMedia.py:1163-1179 | a delete from a remote service removes files only from that service's own view; no delete touches another remote view |
| MediaValues.DeleteRemovesFromView | include/ClientMedia.py:1163-1179 | a delete hides files only in a local view or in the deleted service's own view, and a delete from a non-trash local service hides nothing unless trashed files are to be removed |
| MediaValues.AnyArchive | include/ClientMedia.py:1318 | true when some child is archived (not when all are) |
| MediaValues.AnyInbox | include/ClientMedia.py:1319 | true when some child is in the inbox |
| MediaValues.AllSizeDefinite | include/ClientMedia.py:1322 | true exactly when every child has a known size |
| MediaValues.CollectionDuration | include/ClientMedia.py:1324-1327 | the sum of the durations of the children that have one, present exactly when that sum is positive |
| MediaValues.NumInbox | include/ClientMedia.py:1407 | between 0 and the number of children, zero exactly when no child is in the inbox |
| MediaValues.SumPresent | include/ClientMedia.py:1409-1411 | succeeds exactly when every count is present; a missing count raises |
| MediaValues.NumFrames | include/ClientMedia.py:1409 | the sum succeeds exactly when every child has a frame count; otherwise MissingValue |
| MediaValues.NumWords | include/ClientMedia.py:1411 | the sum succeeds exactly when every child has a word count; otherwise MissingValue |
| MediaValues.MassIntersect | include/ClientMedia.py:1345-1348 | the keys in every set, and nothing when there are no sets |
| MediaValues.ColumnIntersect | include/ClientMedia.py:1343-1348 | a key is in the intersection of the children's sets exactly when there is a child and every child has the key |
| MediaValues.IntersectLocations | include/ClientMedia.py:1343-1350 | each of current, deleted, pending and petitioned holds exactly the keys every child has there, and nothing for no children |
| MediaValues.MergeInto | include/ClientMedia.py:186-221 | one merge step: the services of both, current and pending united, deleted and petitioned dropped |
| MediaValues.MergeKeys | include/ClientMedia.py:184-224 | the merge has exactly the services some manager has |
| MediaValues.MergeCurrentAt | include/ClientMedia.py:184-224 | a tag is current under a service in the merge exactly when some manager has it current there |
| MediaValues.MergePendingAt | include/ClientMedia.py:184-224 | a tag is pending under a service in the merge exactly when some manager has it pending there |
| MediaValues.MergeDropsDeleted | include/ClientMedia.py:186-192 | the merge holds no deleted and no petitioned tags |
| MediaValues.MergeTagsManagers | include/ClientMedia.py:184-224 | the merge has exactly the services some child has, plus the combined service when there is a child, and holds no deleted or petitioned tags |
| MediaValues.CollectionInternals | include/ClientMedia.py:1314-1350 | archive and inbox are true when some child is; the size is defined when every child's is; the size is the sum of the sizes and the duration is present exactly when the duration sum is positive; the tags are merged; current and deleted locations are those every child has; the ratings are the first child's, or none |
| MediaValues.MergedCurrent | include/ClientMedia.py:1329-1331 | a collection's merged tags are current under a service exactly when some child has them current there after its combined entry is computed, and under the combined service exactly when some tag service of some child has them current after sibling collapse |
| MediaValues.InternalsIgnoreOrder | include/ClientMedia.py:1314-1350 | every aggregate except the borrowed ratings is the same for any order of the same children |
| MediaValues.SameLocations | include/ClientMedia.py:1343-1350 | the location intersection depends only on which children there are |
| MediaValues.SameMerge | include/ClientMedia.py:1329-1331 | the merged tags depend only on which children there are |
| MediaValues.DealWithNone | include/ClientMedia.py:2043-2046 | a missing value sorts as -1, a present one as its value |
| MediaValues.DealWithNoneReal | include/ClientMedia.py:2166-2172 | a missing rating sorts as -1, a present one as its value |
| MediaValues.EvalKey | include/ClientMedia.py:2049-2172 | the key is a list of slices exactly for a namespace sort, and a number otherwise |
| MediaValues.MissingSortsFirst | include/ClientMedia.py:2043-2072 | by duration, import time or rating, a node missing the value sorts before one with a non-negative value |
| MediaValues.CollectionsSortFirstByResolution | include/ClientMedia.py:2088-2100 | by width and by height, a collection sorts before every singleton with non-negative dimensions |
| MediaValues.RatioKey | include/ClientMedia.py:2102-2116 | a square sorts as 1 by ratio, and positive dimensions give a positive ratio |
| MediaValues.NamespacesToCollectBy | include/ClientMedia.py:636 | exactly the namespaces collected by |
| MediaValues.RatingsToCollectBy | include/ClientMedia.py:637 | exactly the rating services collected by |
| MediaValues.CollectionKey | include/ClientMedia.py:641-661 | each key part is present exactly when something of its kind is collected by; the namespace part holds exactly the node's combined tags in those namespaces, the rating part the rating slice over the rating services collected by |
| MediaValues.KeysToMedias | include/ClientMedia.py:634-664 | every node's key is present, and each key maps to the non-empty list of the nodes with that key, in input order |
| MediaValues.KeysToMediasPartition | include/ClientMedia.py:634-664 | every node is in the list of its own key and no other, and each list is a sub-multiset of the input |
| MediaCollections.GenerateSingletons | include/ClientMedia.py:672-674 | one fresh singleton per media result, in order, of that result's hash, no two the same |
| MediaCollections.IndexSingletons | include/ClientMedia.py:761-786 | the set of the singletons' hashes, and an index giving for each of those hashes a singleton that has it |
| MediaCollections.RemovalByHashes | include/ClientMedia.py:790-806 | when no two singletons share a hash, removing the indexed singletons of some hashes keeps exactly the singletons whose hash is not among them |
| MediaCollections.RemovalClears | include/ClientMedia.py:790-806 | when no two singletons share a hash, none left after the removal has one of the hashes |
| MediaCollections.NodeKeys | include/ClientMedia.py:2049-2172 | every node gets the key its sort spec gives it; for a namespace sort one ascending slice per namespace holding each sortable subtag once per tag giving it, which fixes the key (`KeyFitsUnique`) |
| MediaCollections.KeyFitsUnique | include/ClientMedia.py:2049-2172 | a node has exactly one key under a sort spec, the namespace slices included |
| MediaCollections.FilteredHashes | include/ClientMedia.py:1383-1394 | a hash is in the unordered result exactly when some singleton has it and passes every filter |
| MediaCollections.OrderedHashesAgree | include/ClientMedia.py:1381-1394 | the ordered and unordered filtered hashes have the same members, and the ordered list is no longer than the singletons |
| MediaCollections.UnfilteredHashes | include/ClientMedia.py:1375-1377 | with no filter the filtered hashes are the stored hashes, which is why the shortcut is sound |
| MediaCollections.SingletonResults | include/ClientMedia.py:995-1053 | no more results than singletons, and a hash is among them exactly when some singleton has it and passes every result filter |
| MediaCollections.CollectFilteredHashes | include/ClientMedia.py:1389-1391 | the filtering loop gives the filtered hashes |
| MediaCollections.MediaCollection.constructor | include/ClientMedia.py:1292-1311 | the collection holds the children in order with the default sort, its hash index is consistent and its aggregates are those of the children |
| MediaCollections.MediaCollection.RecalcInternals | include/ClientMedia.py:1314-1350 | the hash index and every aggregate are recomputed from the children as the records stand |
| MediaCollections.MediaCollection.RemoveMediaByHashes | include/ClientMedia.py:790-806 | the indexed singletons of the hashes leave the list, which keeps its order and its index consistent |
| MediaCollections.MediaCollection.RemoveMediaDirectly | include/ClientMedia.py:809-840 | the given singletons leave the list, which keeps its order and its index consistent |
| MediaCollections.MediaCollection.AddMedia | include/ClientMedia.py:1353-1357 | the new singletons are appended in order and the aggregates recomputed |
| MediaCollections.MediaCollection.DeletePending | include/ClientMedia.py:1360-1364 | the children and their hashes stay, and the aggregates follow the records |
| MediaCollections.MediaCollection.ProcessContentUpdate | include/ClientMedia.py:1464-1468 | a file delete the visibility rule applies to removes the indexed singletons of its hashes; any other update keeps the children; the aggregates are recomputed either way |
| MediaCollections.MediaCollection.ResetService | include/ClientMedia.py:1471-1475 | the corrected reset (see Findings): resetting the collection's own file service empties it, any other reset keeps the children; the aggregates are recomputed. A parent list never takes the first branch: it resets its collections only for other services (line 1220), and every collection has the list's file service |
| MediaCollections.ResetOwnCollectionAsWrittenKeepsChildren | include/ClientMedia.py:1471-1475 | as written, a collection reset on its own file service keeps every child, ends with no hashes and aggregates over all the children, so a collection with children is left inconsistent |
| MediaCollections.MediaCollection.Sort | include/ClientMedia.py:1228-1252 | the stored sort becomes the one given; the children are permuted, first stably by the fallback key, then stably by the stored sort's key; an unknown sort stops the work where the source raises |
| MediaCollections.MediaCollection.SortPass | include/ClientMedia.py:1242-1252 | one stable sort of the children by the key every child's spec gives, a permutation of them |
| MediaCollections.MediaCollection.GetHashes | include/ClientMedia.py:1373-1394 | the unordered filtered hashes of the children, the stored hashes when no filter is given |
| MediaCollections.MediaCollection.GetHashesOrdered | include/ClientMedia.py:1381-1385 | the ordered filtered hashes of the children |
| MediaCollections.MediaCollection.GenerateMediaResults | include/ClientMedia.py:969-1057 | the results of the children that pass every filter, in list order |
| MediaCollections.MediaCollection.HasMedia | include/ClientMedia.py:1119-1145 | true exactly for a singleton of the list; None and collections never are one |
| MediaCollections.MediaCollection.GetNumFiles | include/ClientMedia.py:1402-1405 | never more than the number of children, and exactly that number when no two children share a hash |
| MediaCollections.MediaCollection.GetNumInbox | include/ClientMedia.py:1407 | between 0 and the number of children, zero exactly when no child is in the inbox |
| MediaCollections.MediaCollection.GetNumFrames | include/ClientMedia.py:1409 | succeeds exactly when every child has a frame count, and a missing count raises MissingValue |
| MediaCollections.MediaCollection.GetNumWords | include/ClientMedia.py:1411 | succeeds exactly when every child has a word count, and a missing count raises MissingValue |
| MediaCollections.DistinctCount | include/ClientMedia.py:1402-1405 | children never have more hashes than there are of them, and repeat-free children no two of which share a hash have as many |
| MediaCollections.MediaSingleton.constructor | include/ClientMedia.py:1480-1484 | a new singleton of the media result's hash |
| MediaCollections.MediaCollection.RecalcHashes | include/ClientMedia.py:761-786 | the hash set and the singleton index are rebuilt from the children |
| MediaLists.IndexCollections | include/ClientMedia.py:766-776 | the hashes of the collections, each indexed to a collection that holds it |
| MediaLists.FlattenMedia | include/ClientMedia.py:22-38 | the loop gives the flattened list: each node's singletons, in list order |
| MediaLists.FlatMember | include/ClientMedia.py:22-38 | a singleton is in the flattened list exactly when some node stands for it |
| MediaLists.NodeViews | include/ClientMedia.py:2049-2172 | one view per node, in order, each what that node reports to the sort keys |
| MediaLists.NodeResultsSound | include/ClientMedia.py:973-1053 | a node's results are results of its own singletons that pass the filters, no more of them than it has singletons |
| MediaLists.GenerateNodeResults | include/ClientMedia.py:973-1053 | one iteration of the loop gives that node's results |
| MediaLists.ListResultsStep | include/ClientMedia.py:969-1057 | the results of a longer prefix are those of the shorter one followed by the next node's |
| MediaLists.GenerateListResults | include/ClientMedia.py:969-1057 | the loop gives every node's results in list order |
| MediaLists.ListResultsSound | include/ClientMedia.py:969-1057 | every result is that of a flattened singleton passing the filters, and there are no more results than flattened singletons |
| MediaLists.ListResultsComplete | include/ClientMedia.py:995-1053 | a listed singleton that has the location, is selected and passes the filters gives its result |
| MediaLists.CollectionResultsForViewer | include/ClientMedia.py:990-992 | a collection's results always skip the mimes the viewer does not show, whatever the caller asked |
| MediaLists.Uncollect | include/ClientMedia.py:938-943 | the singletons are kept, a fresh singleton is added for every media result of every collection, and the hashes are those of the singletons and the collections |
| MediaLists.Enumerate | include/ClientMedia.py:959 | the members of a set, each once, in some order |
| MediaLists.GenerateCollection | include/ClientMedia.py:667-669 | a fresh, well-formed, unsorted collection of the view's file service holding singletons of the group's media results, in order, with its aggregates those of their records |
| MediaLists.BuildCollections | include/ClientMedia.py:953 | one fresh collection for exactly the keys with more than one singleton, built from that key's group with the aggregates of its records, no two keys sharing one |
| MediaLists.CalculateCollectionKeysToMedias | include/ClientMedia.py:632-664 | the loop gives each collection key with the singletons that have it, in input order |
| MediaLists.GroupMember | include/ClientMedia.py:632-664 | a grouped singleton is one of the input and has the key of its group |
| MediaLists.MemberGrouped | include/ClientMedia.py:632-664 | every input singleton is in the group of its own key |
| MediaLists.GroupedHashes | include/ClientMedia.py:950-956 | the lone singletons and the new collections hold together exactly the hashes of the singletons grouped |
| MediaLists.Regroup | include/ClientMedia.py:950-956 | a key with one singleton keeps it, a key with more has one new collection of its own; no hash is lost or gained |
| MediaLists.Recollect | include/ClientMedia.py:938-959 | Collect on values: the pool holds the old singletons and fresh ones of every collection's results, the regrouping is of that pool, and the new singletons and collections, listed once each, hold exactly the hashes the list had |
| MediaLists.IndexedHashes | include/ClientMedia.py:766-776 | the collection index holds exactly the collections' hashes |
| MediaLists.IndexMedia | include/ClientMedia.py:761-786 | _RecalcHashes on given media: both indexes consistent and the hash set the singletons' and collections' hashes |
| MediaLists.CollectedShape | include/ClientMedia.py:959 | the rebuilt list, singletons then collections, holds each of them once and nothing else |
| MediaLists.SinglesShape | include/ClientMedia.py:619-622 | a list of distinct singletons holds exactly those singletons and no collection |
| MediaLists.ShapeListed | include/ClientMedia.py:838 | every node of some media is listed exactly when the media are among the list's |
| MediaLists.ShapeRemoval | include/ClientMedia.py:821-838 | removing the nodes of some media leaves the list of the media that remain |
| MediaLists.ShapeAppend | include/ClientMedia.py:856-857 | appending new singletons leaves the list of the old media and the new singletons |
| MediaLists.FilterUnknown | include/ClientMedia.py:1271-1282 | the loop keeps the results whose hash the list does not know, in order |
| MediaLists.UnknownSingletons | include/ClientMedia.py:1271-1282 | one fresh singleton per unknown result, in order, none repeated |
| MediaLists.IndexNew | include/ClientMedia.py:847-853 | each new singleton's hash joins the hash set and the singleton index stays consistent |
| MediaLists.RemoveNodes | include/ClientMedia.py:2337-2350 | removal succeeds exactly when every node is listed, leaving the rest in order; otherwise DataMissing and the list unchanged |
| MediaLists.AppendNodes | include/ClientMedia.py:2296-2308 | the nodes are appended in order |
| MediaLists.DeletePendingIn | include/ClientMedia.py:964-966 | every collection recomputes its aggregates and keeps its children and hashes |
| MediaLists.ResetIn | include/ClientMedia.py:1222-1224 | for another service's reset every collection recomputes its aggregates and keeps its children and hashes |
| MediaLists.ProcessOne | include/ClientMedia.py:1156-1158 | a collection processes the update; a hiding delete drops the indexed singletons of the hashes, any other update keeps its children |
| MediaLists.ProcessIn | include/ClientMedia.py:1156-1158 | every collection of the update's hashes processes it and is current; a hiding delete leaves every collection either as it was or without the indexed singletons of the hashes, any other update changes no collection's children |
| MediaLists.HidingTwice | include/ClientMedia.py:1156-1179 | a collection processed by the hiding delete and then stripped of the hashes by the list ends, when its children share no hash, as if stripped once, with no child of the hashes |
| MediaLists.ResetsServiceStep | include/ClientMedia.py:1196-1210 | a batch resets the service exactly when an earlier update or this one does |
| MediaLists.SortOne | include/ClientMedia.py:1230-1232 | a collection sorts: its hashes and aggregates are kept, its stored sort is the one chosen, and it succeeds exactly when both sorts have keys; then its children are the old ones sorted stably by the fallback key and again by the stored sort's key, each child keyed as its spec gives |
| MediaLists.SortCollections | include/ClientMedia.py:1230-1232 | every collection keeps its hashes and aggregates and its children as a multiset; the loop succeeds exactly when every collection's sorts have keys, and then each holds the sort chosen and its children sorted stably by its fallback key and then its stored sort's key |
| MediaLists.NodesKey | include/ClientMedia.py:2353-2368 | every node is given the key its view and the sort spec determine |
| MediaLists.SortNodes | include/ClientMedia.py:1244-1252 | a stable sort of the nodes by the spec's key, a permutation; a sort without a key fails and leaves the nodes alone |
| MediaLists.SortList | include/ClientMedia.py:1242-1252 | the nodes are stably sorted by the fallback key and then by the stored sort's key, so the fallback order survives among equal keys; it fails exactly when a sort has no key |
| MediaLists.NextIndex | include/ClientMedia.py:726-734 | the position after, inside the list |
| MediaLists.PreviousIndex | include/ClientMedia.py:742-745 | the position before, inside the list |
| MediaLists.NextThenPrevious | include/ClientMedia.py:719-745 | in a list without duplicates, previous after next (and next after previous) gives back the node |
| MediaLists.Prune | include/ClientMedia.py:824-835 | the collect map keeps exactly its entries whose media were not removed |
| MediaLists.PruneAsWrittenKeepsStale | include/ClientMedia.py:824-835 | as written, an entry naming a removed media is kept |
| MediaLists.PruneDropsStale | include/ClientMedia.py:824-835 | the corrected pruning drops such an entry, so it differs from the pruning as written |
| MediaCollections.RemainingAll | include/ClientMedia.py:838 | removing only items the list does not hold, none at all included, leaves the list as it was |
| MediaLists.ResetOwnAsWrittenKeepsNodes | include/ClientMedia.py:1216-1220 | as written, resetting the view's own file service empties both sets but keeps every node, so a non-empty list ends with nodes no set holds |
| MediaLists.Unknown | include/ClientMedia.py:1271-1282 | no more hashes than results, and exactly those results whose hash was not known |
| MediaLists.UnknownOfKnown | include/ClientMedia.py:1271-1282 | adding media results the list already has adds nothing |
| MediaLists.MediaList.constructor | include/ClientMedia.py:604-624 | one fresh singleton per media result, in order, no collections, every hash of the results indexed, sorted by size ascending and collected by nothing |
| MediaLists.MediaList.RecalcHashes | include/ClientMedia.py:761-786 | the hash set and both indexes are rebuilt from the singletons and collections |
| MediaLists.MediaList.Collect | include/ClientMedia.py:929-961 | unknown collect-by falls back to the stored one; the list is rebuilt from the regrouped pool, the old singletons and fresh singletons of every collection's results, with a lone singleton per key and one new collection per shared key; the hashes stay those the list had |
| MediaLists.MediaList.Install | include/ClientMedia.py:955-961 | the rebuilt media and indexes become the list's and it is consistent again |
| MediaLists.MediaList.GetFirst | include/ClientMedia.py:677 | the first node, or an error exactly when the list is empty |
| MediaLists.MediaList.GetLast | include/ClientMedia.py:679 | the last node, or an error exactly when the list is empty |
| MediaLists.MediaList.GetNext | include/ClientMedia.py:719-734 | None for None, DataMissing for a node not listed, otherwise the following node, wrapping to the first |
| MediaLists.MediaList.GetPrevious | include/ClientMedia.py:738-745 | None for None, DataMissing for a node not listed, otherwise the preceding node, wrapping to the last |
| MediaLists.MediaList.HasHashes | include/ClientMedia.py:748-758 | true exactly when some hash given is the list's |
| MediaLists.MediaList.HasAnyOfTheseHashes | include/ClientMedia.py:1114-1116 | true exactly when the hashes meet the list's |
| MediaLists.MediaList.HasNoMedia | include/ClientMedia.py:1148 | true exactly when the list holds no node |
| MediaLists.MediaList.Len | include/ClientMedia.py:625-627 | one per singleton entry plus the length of each collection entry |
| MediaLists.FlatLength | include/ClientMedia.py:625-627 | the flattened list has one entry per singleton and each collection's children |
| MediaLists.MediaList.GetNumFiles | include/ClientMedia.py:1099-1101 | the number of distinct hashes of the singletons and of the collections' children |
| MediaLists.MediaList.RemoveMediaDirectly | include/ClientMedia.py:809-840 | the media leave the sets and the collect maps are pruned; every node of them leaves the list, which stays consistent; a media not listed gives DataMissing with the sets already changed |
| MediaLists.MediaList.RemoveFromCollections | include/ClientMedia.py:799-801 | every collection drops its indexed singletons of the hashes |
| MediaLists.MediaList.RemoveMediaByHashes | include/ClientMedia.py:790-806 | every collection drops the hashes; the indexed singletons of the hashes and the collections left empty leave the sets and the list, which stays consistent |
| MediaLists.MediaList.AddMedia | include/ClientMedia.py:843-857 | with append, the new singletons join the sets and the hashes and are appended in order |
| MediaLists.MediaList.AddMediaResults | include/ClientMedia.py:1267-1287 | one fresh singleton per media result with an unknown hash, in order, appended; the hashes grow by those of all the results |
| MediaLists.MediaList.HasMedia | include/ClientMedia.py:1119-1145 | true exactly for a singleton or collection of the list or a child of one of its collections; never for None |
| MediaLists.MediaList.FlatHoldsAll | include/ClientMedia.py:1065-1081 | the flattened list holds exactly the singletons and the collections' children |
| MediaLists.MediaList.HasMediaListed | include/ClientMedia.py:1119-1145 | what HasMedia finds is exactly the listed nodes and the flattened singletons |
| MediaLists.MediaList.GenerateMediaResults | include/ClientMedia.py:969-1057 | every node's results, in list order |
| MediaLists.MediaList.GetFlatMedia | include/ClientMedia.py:1065-1081 | the flattened list |
| MediaLists.MediaList.GetMediaSound | include/ClientMedia.py:681-700 | only media of the list, each holding one of the hashes, singletons only when asked for and collections likewise |
| MediaLists.MediaList.GetMediaComplete | include/ClientMedia.py:681-700 | every hash of the list asked for is held by some media found |
| MediaLists.MediaList.DeletePending | include/ClientMedia.py:964-966 | the list stays consistent, every collection keeps its children and recomputes its aggregates |
| MediaLists.MediaList.RemovingAllEmpties | include/ClientMedia.py:1216-1220 | removing every singleton and collection leaves no node |
| MediaLists.MediaList.ResetService | include/ClientMedia.py:1216-1224 | resetting the view's own file service leaves no singleton, collection, node or hash; any other reset keeps the list and its hashes, and every collection recomputes its aggregates |
| MediaLists.MediaList.ProcessContentUpdate | include/ClientMedia.py:1150-1179 | a file delete the visibility rule applies to removes the indexed singletons of its hashes and the collections it empties, the list losing just their nodes in order, and where hashes are not shared no singleton or collection child keeps one of the hashes; any other update keeps the list, its sets, its hashes and the collections' children, while the collections of the hashes process it |
| MediaLists.MediaList.ProcessTargets | include/ClientMedia.py:1156-1158 | the collections of the update's hashes process it and are current; for a hiding delete every collection is as it was or without the indexed singletons of the hashes |
| MediaLists.MediaList.ProcessHiding | include/ClientMedia.py:1161-1179 | a hiding delete removes the indexed singletons and the collections left empty, and the list is the old one without their nodes, in order; with no two singletons sharing a hash no singleton left has one of the hashes, and a collection whose children share no hash ends with exactly the children of other hashes, in order |
| MediaLists.MediaList.ProcessKeeping | include/ClientMedia.py:1156-1161 | any other update leaves the children of every collection |
| MediaLists.MediaList.ProcessContentUpdates | include/ClientMedia.py:1185-1191 | the updates in order keep the list consistent and only ever remove singletons and collections |
| MediaLists.MediaList.ProcessServiceUpdate | include/ClientMedia.py:1200-1210 | a reset of the view's own file service empties the list; any other update keeps its sets, hashes and nodes |
| MediaLists.MediaList.ProcessServiceUpdates | include/ClientMedia.py:1196-1210 | a batch that resets the view's own file service empties the list; any other batch keeps its sets, hashes and nodes |
| MediaLists.MediaList.ProcessServiceUpdateAt | include/ClientMedia.py:1198-1210 | one update of a batch keeps what the updates before it established |
| MediaLists.MediaList.EmptyHoldsNothing | include/ClientMedia.py:1216-1220 | a consistent list with no singletons and no collections has no nodes and no hashes |
| MediaLists.MediaList.SortChildren | include/ClientMedia.py:1230-1232 | every collection sorts, each to the sort chosen and with its children sorted stably by the fallback key and then the chosen key; it succeeds exactly when every collection's sorts have keys, and what the nodes report to the sorts does not change |
| MediaLists.MediaList.SortOwn | include/ClientMedia.py:1234-1252 | the stored sort becomes the one chosen; the nodes are permuted, stably by the fallback key and then by the stored sort's key; it fails exactly when one of the sorts has no key |
| MediaLists.MediaList.Sort | include/ClientMedia.py:1228-1252 | collections sort first, each's children stably by the fallback key and again by the chosen key, and a failing one stops the sort; then the nodes are stably sorted by the fallback key and again by the chosen sort's key, each node keyed by what it reported before the sort |

## Left out

- Non-append `MediaList.AddMedia` (include/ClientMedia.py:859-921): as written it passes single nodes to `remove_items` (lines 873 and 892) and never lists a lone new singleton (lines 900-905 and 921), so only the append path is modelled.
- `SortedList.__contains__` (include/ClientMedia.py:2266-2268): it reads the index map without rebuilding it after a change, so its answer depends on a stale cache; membership in the model is on the list itself.
- `GetDuplicateComparisonStatements`: floating-point ratios and display strings, not part of the media model.
- Display strings (`GetPrettyInfoLines`, `GetTitleString`, `GetSortTypeString`, `GetSortAscStrings`): text for the user interface.
- The pubsub subscriptions of `ListeningMediaList` and `TagsManager`: message transport; the subscribed handlers are modelled.
- `ClientConstants`, `HydrusConstants`, `HydrusData`, `HydrusTags`, `ClientRatings`, `ClientSearch` and `HydrusGlobals` are not part of this model: their constants are chosen distinct (the mime and sort codes as opaque integers), their functions are parameters, and `ClientSearch.FileQueryResult` of `AddMediaResults` is left out.
- The random sort's draws and the ratio sort's floats are modelled with real numbers given per node; `random.random` itself is a parameter.
- The `defaultdict` insertion on read of the tag and location managers: a missing key reads as empty sets and is not inserted.
- MediaLists.MediaList.Collect: does not state the order in which the rebuilt list holds the singletons and the collections (Python's set iteration order), only that it holds each once; each new collection's aggregates are stated through `Built` as those of its children's records.
- MediaSorts.Deserialise: system sort data that is not an integer is refused when loading (UnknownSort), while the source stores it as the sort data and fails only when `GetSortKeyAndReverse` finds no key for it (lines 2049-2176, `sort_key` left unbound); `SystemSort` holds an integer code only, so such a sort cannot be held, be asked `CanAsc` or be saved again.
- MediaLists.MediaList.ProcessHiding: where two singletons share a hash, the index keeps only one of them, and the model does not state which of the others the delete removes (the collection removes its indexed singleton once while processing and the list strips the hashes again); it states the exact result only where hashes are not shared.
- MediaLists.MediaList.ProcessContentUpdate: a hiding delete is stated exactly only where no two singletons share a hash, as for ProcessHiding above.
- MediaLists.MediaList.ProcessContentUpdates: states that the list only loses media and stays consistent, not the composition of the per-update effects.
- MediaLists.MediaList.Len: `__len__` is the number of flattened singletons; no lemma relates it to the sum over the collections.
- `MediaList.GetMediaIndex` and the public `GetFirst`, `GetLast`, `GetNext`, `GetPrevious`, `GetSortedMedia` are one-line delegations to the modelled private members and `SortedList.Index`.
- Ratings updates: `RatingsManager.ProcessContentUpdate` is not part of this model and is a parameter.
- A collection's ratings manager is the first child's object in the source, so later rating updates to that child show through it; the model stores the first child's ratings as they stood when the aggregates were last computed.

## Findings

| source | as written | input that shows it | evidently intended | confidence | as-written member | corrected member |
|---|---|---|---|---|---|---|
| include/ClientMedia.py:824-835 | `for ( key, media ) in self._collect_map_singletons` iterates the dict's keys, so each `( namespace_key, rating_key )` collect key is unpacked and the membership test is asked of its rating part, which is never a removed media | a list collected by a namespace holding one lone singleton under key k; removing that singleton leaves k mapped to it in `_collect_map_singletons` | iterate `.items()` and drop every entry whose media was removed | not executed | MediaLists.PruneAsWrittenKeepsStale | MediaLists.PruneDropsStale |
| include/ClientMedia.py:1216-1220 | `ResetService` of the view's own file service calls `_RemoveMediaDirectly( self._singleton_media, self._collected_media )`; those are sets already and are not copied, so the `difference_update` calls empty them before `remove_items` is given their (now empty) union | a list with one singleton reset on its own file service: both sets end empty yet the sorted list still holds the singleton | remove the nodes of the two sets as they were before the call, emptying the sorted list | not executed | MediaLists.ResetOwnAsWrittenKeepsNodes | MediaLists.MediaList.ResetService |
| include/ClientMedia.py:1471-1475 | a collection's `ResetService` calls the inherited `MediaList.ResetService`, so a reset of the collection's own file service hands `_RemoveMediaDirectly` its own singleton set, which is emptied before the sorted list is told what to remove; `_RecalcInternals` then recomputes the hashes from the empty set and the aggregates from the children still listed | a collection with one child reset on its own file service: the child stays listed while the collection has no hashes | remove the children as they were, emptying the collection (unreachable from a parent list, which resets its collections only for other services) | not executed | MediaCollections.ResetOwnCollectionAsWrittenKeepsChildren | MediaCollections.MediaCollection.ResetService |
