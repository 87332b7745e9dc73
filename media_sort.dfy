/** MediaSort: what a media list is sorted by, whether that order can be
    ascending, its serialisable form, and the choice of key. */
module MediaSorts {
  import opened Common

  // The sort codes of ClientConstants, which is not part of this model;
  // only their being distinct matters.
  const SortFilesByFilesize: int := 0
  const SortFilesByDuration: int := 1
  const SortFilesByImportTime: int := 2
  const SortFilesByMime: int := 3
  const SortFilesByRandom: int := 4
  const SortFilesByWidth: int := 5
  const SortFilesByHeight: int := 6
  const SortFilesByRatio: int := 7
  const SortFilesByNumPixels: int := 8
  const SortFilesByNumTags: int := 9

  const KnownSystemSorts: set<int> := {
    SortFilesByFilesize, SortFilesByDuration, SortFilesByImportTime, SortFilesByMime, SortFilesByRandom,
    SortFilesByWidth, SortFilesByHeight, SortFilesByRatio, SortFilesByNumPixels, SortFilesByNumTags }

  // CC.SORT_ASC and CC.SORT_DESC.
  const SortAsc: int := 0
  const SortDesc: int := 1

  /** The ( metatype, data ) pair of a sort type. */
  datatype SortType =
    | SystemSort(code: int)
    | NamespaceSort(namespaces: seq<string>)
    | RatingSort(serviceKey: ServiceKey)

  datatype MediaSort = MediaSort(sortType: SortType, sortAsc: int)

  /** The constructor's defaults: by file size, ascending. */
  function NewMediaSort(sortType: Option<SortType>, sortAsc: Option<int>): (m: MediaSort)
    ensures sortType.None? ==> m.sortType == SystemSort(SortFilesByFilesize)
    ensures sortType.Some? ==> m.sortType == sortType.value
    ensures sortAsc.None? ==> m.sortAsc == SortAsc
    ensures sortAsc.Some? ==> m.sortAsc == sortAsc.value
  {
    MediaSort(if sortType.Some? then sortType.value else SystemSort(SortFilesByFilesize),
              if sortAsc.Some? then sortAsc.value else SortAsc)
  }

  /** Mime, random and namespace orders have no ascending/descending choice. */
  /** Whether the sort offers ascending and descending: not for the sorts
      whose key is the mime, a random draw or namespace slices, and yes for
      every other sort, a system code no key knows included. */
  function CanAsc(m: MediaSort): (b: bool)
    ensures forall fileServiceKey, localFileDomains :: GetSortKeyAndReverse(m, fileServiceKey, localFileDomains).Ok? ==>
      var spec := GetSortKeyAndReverse(m, fileServiceKey, localFileDomains).value.0;
      (!b <==> spec == ByMime || spec == ByRandom || spec.ByNamespaces?)
    ensures !HasKey(m) ==> b
  {
    match m.sortType
    case SystemSort(code) => code != SortFilesByMime && code != SortFilesByRandom
    case NamespaceSort(_) => false
    case RatingSort(_) => true
  }

  // ---------------------------------------------------------------------
  // Hex, as Python 2's str.encode( 'hex' ) and str.decode( 'hex' )

  /** The lower-case digit of a nibble. */
  function HexChar(v: nat): (c: char)
    requires v < 16
    ensures IsLowerHexDigit(c)
  {
    if v < 10 then ('0' as int + v) as char else ('a' as int + v - 10) as char
  }

  predicate IsLowerHexDigit(c: char) { '0' <= c <= '9' || 'a' <= c <= 'f' }

  function HexDigitValue(c: char): (v: Option<nat>)
    ensures v.Some? ==> v.value < 16
  {
    if '0' <= c <= '9' then Some(c as int - '0' as int)
    else if 'a' <= c <= 'f' then Some(c as int - 'a' as int + 10)
    else if 'A' <= c <= 'F' then Some(c as int - 'A' as int + 10)
    else None
  }

  predicate IsHexDigit(c: char) { HexDigitValue(c).Some? }

  predicate IsLowerHex(s: string)
  {
    forall i :: 0 <= i < |s| ==> IsLowerHexDigit(s[i])
  }

  lemma HexDigitsDecode(v: nat)
    requires v < 16
    ensures HexDigitValue(HexChar(v)) == Some(v)
  {
  }

  predicate AllHex(s: string)
  {
    forall i :: 0 <= i < |s| ==> IsHexDigit(s[i])
  }

  lemma Nibbles(x: int)
    requires 0 <= x < 256
    ensures 0 <= x / 16 < 16 && 0 <= x % 16 < 16 && x / 16 * 16 + x % 16 == x
  {
  }

  /** Encodes each byte as two lower-case digits, high nibble first. */
  function HexEncode(b: Bytes): (s: string)
    ensures |s| == 2 * |b|
    ensures IsLowerHex(s)
  {
    if b == [] then ""
    else
      Nibbles(b[0] as int);
      [HexChar(b[0] as int / 16), HexChar(b[0] as int % 16)] + HexEncode(b[1..])
  }

  /** Decodes digit pairs of either case; an odd length or any other
      character is BadHex. */
  function HexDecode(s: string): (r: Result<Bytes>)
    ensures r.Ok? <==> |s| % 2 == 0 && AllHex(s)
    ensures r.Ok? ==> |r.value| == |s| / 2
    ensures r.Err? ==> r.error == BadHex
  {
    if |s| == 0 then Ok([])
    else if |s| == 1 then Err(BadHex)
    else
      assert AllHex(s) <==> IsHexDigit(s[0]) && IsHexDigit(s[1]) && AllHex(s[2..]) by {
        assert forall i :: 0 <= i < |s[2..]| ==> s[2..][i] == s[i + 2];
      }
      var hi := HexDigitValue(s[0]);
      var lo := HexDigitValue(s[1]);
      if hi.None? || lo.None? then Err(BadHex)
      else
        var rest := HexDecode(s[2..]);
        if rest.Err? then Err(BadHex)
        else Ok([(hi.value * 16 + lo.value) as byte] + rest.value)
  }

  /** One digit pair in front of a string decodes to one byte in front. */
  lemma DecodePair(hi: nat, lo: nat, t: string)
    requires hi < 16 && lo < 16
    ensures HexDecode([HexChar(hi), HexChar(lo)] + t) ==
      if HexDecode(t).Ok? then Ok([(hi * 16 + lo) as byte] + HexDecode(t).value) else Err(BadHex)
  {
    var s := [HexChar(hi), HexChar(lo)] + t;
    assert s[0] == HexChar(hi) && s[1] == HexChar(lo) && s[2..] == t;
    HexDigitsDecode(hi);
    HexDigitsDecode(lo);
  }

  /** Decoding undoes encoding. */
  lemma {:induction false} HexRoundTrip(b: Bytes)
    ensures HexDecode(HexEncode(b)) == Ok(b)
  {
    if b != [] {
      var x := b[0] as int;
      Nibbles(x);
      HexRoundTrip(b[1..]);
      DecodePair(x / 16, x % 16, HexEncode(b[1..]));
      assert HexEncode(b) == [HexChar(x / 16), HexChar(x % 16)] + HexEncode(b[1..]);
      assert ((x / 16) * 16 + x % 16) as byte == b[0];
      assert b == [b[0]] + b[1..];
    }
  }

  lemma LowerDigitRoundTrip(c: char)
    requires IsLowerHexDigit(c)
    ensures HexDigitValue(c).Some? && HexChar(HexDigitValue(c).value) == c
  {
  }

  /** Encoding undoes decoding, on the lower-case strings encoding produces. */
  lemma {:induction false} HexDecodeRoundTrip(s: string)
    requires |s| % 2 == 0 && IsLowerHex(s)
    ensures HexDecode(s).Ok? && HexEncode(HexDecode(s).value) == s
  {
    if |s| > 0 {
      var t := s[2..];
      assert IsLowerHex(t) by {
        assert forall i :: 0 <= i < |t| ==> t[i] == s[i + 2];
      }
      HexDecodeRoundTrip(t);
      assert IsLowerHexDigit(s[0]) && IsLowerHexDigit(s[1]);
      LowerDigitRoundTrip(s[0]);
      LowerDigitRoundTrip(s[1]);
      var hi := HexDigitValue(s[0]).value;
      var lo := HexDigitValue(s[1]).value;
      assert s == [HexChar(hi), HexChar(lo)] + t;
      DecodePair(hi, lo, t);
      var x := hi * 16 + lo;
      assert x / 16 == hi && x % 16 == lo;
      var rest := HexDecode(t).value;
      assert HexDecode(s).value == [x as byte] + rest;
      assert HexEncode([x as byte] + rest) == [HexChar(hi), HexChar(lo)] + HexEncode(rest) by {
        assert ([x as byte] + rest)[1..] == rest;
      }
    }
  }

  // ---------------------------------------------------------------------
  // Serialisation

  /** The JSON-like values the serialisable info holds. */
  datatype SerialData = SerialInt(i: int) | SerialList(items: seq<string>) | SerialString(s: string)

  /** ( sort_metatype, serialisable_sort_data, sort_asc ). */
  datatype Serialised = Serialised(metatype: string, data: SerialData, sortAsc: int)

  /** _GetSerialisableInfo: the rating service key goes out as hex, so
      the data is always of the shape Deserialise expects for the
      metatype, and the direction is kept. */
  function Serialise(m: MediaSort): (r: Serialised)
    ensures Canonical(r) && r.sortAsc == m.sortAsc
    ensures r.metatype == "system" <==> m.sortType.SystemSort?
    ensures r.metatype == "namespaces" <==> m.sortType.NamespaceSort?
    ensures r.metatype == "rating" <==> m.sortType.RatingSort?
  {
    match m.sortType
    case SystemSort(code) => Serialised("system", SerialInt(code), m.sortAsc)
    case NamespaceSort(nss) => Serialised("namespaces", SerialList(nss), m.sortAsc)
    case RatingSort(k) => Serialised("rating", SerialString(HexEncode(k)), m.sortAsc)
  }

  /** tuple( s ) of a string: its characters, one string each. */
  function Characters(s: string): (r: seq<string>)
    ensures |r| == |s| && forall i :: 0 <= i < |s| ==> r[i] == [s[i]]
  {
    seq(|s|, i requires 0 <= i < |s| => [s[i]])
  }

  /** _InitialiseFromSerialisableInfo. An unknown metatype leaves the sort
      data unbound, and data whose shape the metatype cannot take raises;
      both are UnknownSort here. Bad hex in a rating key is BadHex. */
  function Deserialise(t: Serialised): (r: Result<MediaSort>)
    ensures r.Ok? ==> r.value.sortAsc == t.sortAsc
    ensures t.metatype !in {"system", "namespaces", "rating"} ==> r == Err(UnknownSort)
    ensures t.metatype == "system" ==> (r.Ok? <==> t.data.SerialInt?)
    ensures t.metatype == "namespaces" ==> (r.Ok? <==> !t.data.SerialInt?)
    ensures t.metatype == "rating" ==>
      (r.Ok? <==> t.data.SerialString? && HexDecode(t.data.s).Ok?)
    ensures t.metatype == "rating" && t.data.SerialString? && HexDecode(t.data.s).Err? ==> r == Err(BadHex)
  {
    if t.metatype == "system" then
      if t.data.SerialInt? then Ok(MediaSort(SystemSort(t.data.i), t.sortAsc)) else Err(UnknownSort)
    else if t.metatype == "namespaces" then
      match t.data
      case SerialList(items) => Ok(MediaSort(NamespaceSort(items), t.sortAsc))
      case SerialString(s) => Ok(MediaSort(NamespaceSort(Characters(s)), t.sortAsc))
      case SerialInt(_) => Err(UnknownSort)
    else if t.metatype == "rating" then
      if t.data.SerialString? then
        match HexDecode(t.data.s)
        case Ok(k) => Ok(MediaSort(RatingSort(k), t.sortAsc))
        case Err(e) => Err(e)
      else Err(UnknownSort)
    else Err(UnknownSort)
  }

  /** Deserialising what was serialised gives the same sort back. */
  lemma SerialRoundTrip(m: MediaSort)
    ensures Deserialise(Serialise(m)) == Ok(m)
    ensures CanAsc(Deserialise(Serialise(m)).value) == CanAsc(m)
  {
    if m.sortType.RatingSort? {
      HexRoundTrip(m.sortType.serviceKey);
    }
  }

  /** The serialised forms Serialise produces. */
  ghost predicate Canonical(t: Serialised)
  {
    (t.metatype == "system" && t.data.SerialInt?) ||
    (t.metatype == "namespaces" && t.data.SerialList?) ||
    (t.metatype == "rating" && t.data.SerialString? && |t.data.s| % 2 == 0 && IsLowerHex(t.data.s))
  }

  /** Serialising what was deserialised gives the same form back, exactly
      when that form is canonical. */
  lemma DeserialiseRoundTrip(t: Serialised)
    ensures Deserialise(t).Ok? && Serialise(Deserialise(t).value) == t <==> Canonical(t)
  {
    if Canonical(t) && t.metatype == "rating" {
      HexDecodeRoundTrip(t.data.s);
    }
    if Deserialise(t).Ok? && Serialise(Deserialise(t).value) == t && t.metatype == "rating" {
      assert t.data == SerialString(HexEncode(Deserialise(t).value.sortType.serviceKey));
    }
  }

  // ---------------------------------------------------------------------
  // Key selection

  /** The key functions of GetSortKeyAndReverse, by what they read. */
  datatype KeySpec =
    | BySize
    | ByDuration
    | ByTimestamp(serviceKey: ServiceKey)
    | ByHeight
    | ByWidth
    | ByRatio
    | ByNumPixels
    | ByNumTags
    | ByMime
    | ByRandom
    | ByNamespaces(namespaces: seq<string>)
    | ByRating(serviceKey: ServiceKey)

  /** Whether a sort has a key: every sort but a system sort whose code no
      branch of GetSortKeyAndReverse knows. */
  predicate HasKey(m: MediaSort)
  {
    !(m.sortType.SystemSort? && m.sortType.code !in KnownSystemSorts)
  }

  /** The key and the reverse flag. The flag is sort_asc itself, which the
      list sort takes as a truth value, so SORT_DESC reverses. Import time
      in a local file domain is read from the combined local service. A
      system code no branch knows leaves the key unbound: UnknownSort. */
  function GetSortKeyAndReverse(m: MediaSort, fileServiceKey: ServiceKey, localFileDomains: set<ServiceKey>)
    : (r: Result<(KeySpec, bool)>)
    ensures r.Ok? ==> r.value.1 == (m.sortAsc != 0)
    ensures r.Ok? <==> HasKey(m)
    ensures r.Err? ==> r.error == UnknownSort
  {
    var reverse := m.sortAsc != 0;
    match m.sortType
    case SystemSort(code) =>
      if code == SortFilesByRandom then Ok((ByRandom, reverse))
      else if code == SortFilesByFilesize then Ok((BySize, reverse))
      else if code == SortFilesByDuration then Ok((ByDuration, reverse))
      else if code == SortFilesByImportTime then
        Ok((ByTimestamp(if fileServiceKey in localFileDomains then CombinedLocalFileServiceKey else fileServiceKey), reverse))
      else if code == SortFilesByHeight then Ok((ByHeight, reverse))
      else if code == SortFilesByWidth then Ok((ByWidth, reverse))
      else if code == SortFilesByRatio then Ok((ByRatio, reverse))
      else if code == SortFilesByNumPixels then Ok((ByNumPixels, reverse))
      else if code == SortFilesByNumTags then Ok((ByNumTags, reverse))
      else if code == SortFilesByMime then Ok((ByMime, reverse))
      else Err(UnknownSort)
    case NamespaceSort(nss) => Ok((ByNamespaces(nss), reverse))
    case RatingSort(k) => Ok((ByRating(k), reverse))
  }

  /** Import time is read from the scope itself unless the scope is a local
      file domain; the reverse flag of every sort is SORT_DESC's. */
  lemma ImportTimeScope(m: MediaSort, fileServiceKey: ServiceKey, localFileDomains: set<ServiceKey>)
    requires m.sortType == SystemSort(SortFilesByImportTime)
    ensures GetSortKeyAndReverse(m, fileServiceKey, localFileDomains) ==
      Ok((ByTimestamp(if fileServiceKey in localFileDomains then CombinedLocalFileServiceKey else fileServiceKey),
          m.sortAsc != SortAsc))
  {
  }

  /** The default sort: by file size, ascending, so not reversed. */
  lemma DefaultSortIsSizeAscending(fileServiceKey: ServiceKey, localFileDomains: set<ServiceKey>)
    ensures GetSortKeyAndReverse(NewMediaSort(None, None), fileServiceKey, localFileDomains) == Ok((BySize, false))
    ensures CanAsc(NewMediaSort(None, None))
  {
  }
}
