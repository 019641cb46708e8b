/**
 `Source.__init__`: choosing the index and track number a video or audio
 source is opened with. Without an index argument, the default index
 file next to the source is tried first; it is kept when it reads
 cleanly and covers the wanted track, and otherwise the file is indexed
 afresh with only the wanted track enabled.
 */
module SourceResolution {
  import opened Types
  import opened IndexStore
  import opened Indexing

  /** Everything outside the binding that resolution consults. */
  datatype Env = Env(
    fs: FileSystem,
    readIndex: ReadOracle,
    belongs: BelongsOracle,
    probe: Option<Catalog>,     // what FFMS_CreateIndexer finds in the source
    doIndex: IndexingOracle)

  // ---------------------------------------------------------------------
  // Index.get_first_indexed_track_of_type

  /** Track i of the index has the type and a non-empty frame table. */
  predicate IndexedOfType(n: NativeIndex, i: int, t: TrackType)
  {
    0 <= i < |n.tracks| && n.tracks[i].trackType == t && n.tracks[i].frames != []
  }

  function FirstIndexedFrom(n: NativeIndex, t: TrackType, from: nat): (r: Result<int>)
    ensures r.Success? <==> exists i :: from <= i < |n.tracks| && IndexedOfType(n, i, t)
    ensures r.Success? ==> from <= r.value && IndexedOfType(n, r.value, t)
                           && forall i :: from <= i < r.value ==> !IndexedOfType(n, i, t)
    ensures r.Failure? ==> r.error == Ffms(Native)
    decreases |n.tracks| - from
  {
    if from >= |n.tracks| then Failure(Ffms(Native))
    else if IndexedOfType(n, from, t) then Success(from)
    else FirstIndexedFrom(n, t, from + 1)
  }

  /** `index.get_first_indexed_track_of_type(t)`: the lowest-numbered
      track of type t that has frames (what FFMS_GetFirstIndexedTrackOfType
      returns), raising when there is none. */
  function FirstIndexedTrackOfType(n: NativeIndex, t: TrackType): (r: Result<int>)
    ensures r.Success? <==> exists i :: 0 <= i < |n.tracks| && IndexedOfType(n, i, t)
    ensures r.Success? ==> IndexedOfType(n, r.value, t) && forall i :: 0 <= i < r.value ==> !IndexedOfType(n, i, t)
    ensures r.Failure? ==> r.error == Ffms(Native)
  {
    FirstIndexedFrom(n, t, 0)
  }

  /** Python's `xs[i]`: negative i counts from the end, anything outside
      `[-len(xs), len(xs))` raises IndexError. */
  function PyIndex<T>(xs: seq<T>, i: int): (r: Result<T>)
    ensures r.Success? <==> -|xs| <= i < |xs|
    ensures r.Failure? ==> r.error == IndexError
    ensures r.Success? ==> r.value == xs[if i < 0 then |xs| + i else i]
  {
    if 0 <= i < |xs| then Success(xs[i])
    else if -|xs| <= i < 0 then Success(xs[|xs| + i])
    else Failure(IndexError)
  }

  // ---------------------------------------------------------------------
  // The cached index

  datatype CacheDecision = Keep(index: Index, track: int) | Discard

  /** The default index file is usable: it reads without an `Error`, and
      either the first indexed track of the kind exists (no track asked
      for) or the asked-for track has frames. */
  predicate CacheUsable(read: Result<Index>, kind: TrackType, trackNumber: Option<int>)
  {
    && read.Success?
    && match trackNumber
       case None => FirstIndexedTrackOfType(read.value.native, kind).Success?
       case Some(t) => -|read.value.native.tracks| <= t < |read.value.native.tracks|
                       && PyIndex(read.value.native.tracks, t).value.frames != []
  }

  /** The `try` block of `Source.__init__`. The binding's own `Error` is
      caught and means "index again"; ValueError (no source file name) and
      IndexError (track number out of range) escape. */
  function TryCached(env: Env, kind: TrackType, sourceFile: string, trackNumber: Option<int>)
    : (r: Result<CacheDecision>)
    ensures var read := Read(env.fs, env.readIndex, env.belongs, None, Some(sourceFile));
            && (r.Failure? <==> sourceFile == ""
                                 || (read.Success? && trackNumber.Some?
                                     && !(-|read.value.native.tracks| <= trackNumber.value < |read.value.native.tracks|)))
            && (r.Failure? ==> r.error == (if sourceFile == "" then read.error else IndexError))
            && (r.Success? && r.value.Keep? <==> CacheUsable(read, kind, trackNumber))
            && (r.Success? && r.value.Keep? ==>
                  && r.value.index == read.value
                  && r.value.track == (if trackNumber.Some? then trackNumber.value
                                       else FirstIndexedTrackOfType(read.value.native, kind).value))
  {
    match Read(env.fs, env.readIndex, env.belongs, None, Some(sourceFile))
    case Failure(e) => if e.Ffms? then Success(Discard) else Failure(e)
    case Success(index) =>
      match trackNumber
      case None =>
        (match FirstIndexedTrackOfType(index.native, kind)
         case Success(t) => Success(Keep(index, t))
         case Failure(_) => Success(Discard))
      case Some(t) =>
        match PyIndex(index.native.tracks, t)
        case Failure(e) => Failure(e)
        case Success(track) => if track.frames == [] then Success(Discard) else Success(Keep(index, t))
  }

  // ---------------------------------------------------------------------
  // Indexing afresh

  /** Where the loop with `break` over `indexer.track_info_list` stops:
      the position of the first entry of the kind. */
  function FirstOfType(infos: seq<TrackInfo>, kind: TrackType): (r: Option<nat>)
    ensures r.None? <==> forall k :: 0 <= k < |infos| ==> infos[k].trackType != kind
    ensures r.Some? ==> r.value < |infos| && infos[r.value].trackType == kind
                        && forall j :: 0 <= j < r.value ==> infos[j].trackType != kind
    decreases |infos|
  {
    if infos == [] then None
    else if infos[0].trackType == kind then Some(0)
    else match FirstOfType(infos[1..], kind)
      case None => None
      case Some(k) => Some(k + 1)
  }

  function Nums(infos: seq<TrackInfo>): seq<int>
  {
    seq(|infos|, k requires 0 <= k < |infos| => infos[k].num)
  }

  /** Each listed track enabled for indexing exactly when it is the chosen
      track, none dumped. */
  function FlagTracks(ix: Indexer, infos: seq<TrackInfo>, track: int): (r: Indexer)
    requires ix.live
    ensures r == ix.(settings := r.settings)
    ensures forall t :: t in r.settings <==> t in ix.settings || t in Nums(infos)
    ensures forall t :: t in Nums(infos) ==> r.settings[t] == TrackSetting(t == track, false)
    ensures forall t :: t in ix.settings && t !in Nums(infos) ==> r.settings[t] == ix.settings[t]
    decreases |infos|
  {
    if infos == [] then ix
    else
      assert Nums(infos) == [infos[0].num] + Nums(infos[1..]);
      FlagTracks(TrackIndexSettings(ix, infos[0].num, infos[0].num == track, false).next, infos[1..], track)
  }

  lemma NumsOfCatalog(tracks: seq<CatalogTrack>)
    ensures forall t :: t in Nums(InfosFrom(tracks, 0)) <==> 0 <= t < |tracks|
  {
    var ns := Nums(InfosFrom(tracks, 0));
    assert forall k :: 0 <= k < |ns| ==> ns[k] == k;
    forall t | 0 <= t < |tracks|
      ensures t in ns
    {
      assert ns[t] == t;
    }
  }

  /** The first catalog track of the kind. */
  function FirstCatalogTrack(cat: Catalog, kind: TrackType): (r: Option<nat>)
    ensures r.None? <==> forall n :: 0 <= n < |cat.tracks| ==> cat.tracks[n].trackType != kind
    ensures r.Some? ==> r.value < |cat.tracks| && cat.tracks[r.value].trackType == kind
                        && forall n :: 0 <= n < r.value ==> cat.tracks[n].trackType != kind
  {
    var infos := InfosFrom(cat.tracks, 0);
    assert forall n :: 0 <= n < |cat.tracks| ==> infos[n].trackType == cat.tracks[n].trackType;
    FirstOfType(infos, kind)
  }

  datatype Rebuilt = Rebuilt(index: Index, track: int, settings: map<int, TrackSetting>)

  /** The settings a rebuild hands to the native indexer: every track of
      the file listed, only `track` enabled, nothing dumped. */
  predicate OnlyTrackEnabled(settings: map<int, TrackSetting>, tracks: nat, track: int)
  {
    && (forall t :: t in settings ==> 0 <= t < tracks)
    && (forall t :: 0 <= t < tracks ==> t in settings)
    && (forall t :: t in settings ==> settings[t] == TrackSetting(t == track, false))
  }

  /** The setting `track_index_settings(t, track_number == t, 0)` gives. */
  function FlagFor(t: int, track: int): TrackSetting
  {
    TrackSetting(t == track, false)
  }

  /** The one settings map with that shape. */
  function OnlyTrackSettings(tracks: nat, track: int): map<int, TrackSetting>
  {
    map t | 0 <= t < tracks :: FlagFor(t, track)
  }

  lemma OnlyTrackEnabledUnique(settings: map<int, TrackSetting>, tracks: nat, track: int)
    requires OnlyTrackEnabled(settings, tracks, track)
    ensures settings == OnlyTrackSettings(tracks, track)
  {
    var m := OnlyTrackSettings(tracks, track);
    assert settings.Keys == m.Keys;
    forall t | t in settings
      ensures settings[t] == m[t]
    {
    }
  }

  /** The track a rebuild indexes: the track number asked for, else the
      first track of the kind the indexer lists. */
  function ChosenTrack(cat: Catalog, kind: TrackType, trackNumber: Option<int>): Option<int>
  {
    match trackNumber
    case Some(t) => Some(t)
    case None =>
      match FirstCatalogTrack(cat, kind)
      case Some(k) => Some(k)
      case None => None
  }

  /** The loop with `break` over `indexer.track_info_list` when no track
      number was asked for; `infos` is the list the indexer reports. */
  function PickTrack(infos: seq<TrackInfo>, cat: Catalog, kind: TrackType, trackNumber: Option<int>): (r: Result<int>)
    requires infos == InfosFrom(cat.tracks, 0)
    ensures r.Success? <==> ChosenTrack(cat, kind, trackNumber).Some?
    ensures r.Success? ==> r.value == ChosenTrack(cat, kind, trackNumber).value
    ensures r.Failure? ==> r.error == Ffms(NoSuitableTrack)
  {
    match trackNumber
    case Some(t) => Success(t)
    case None =>
      match FirstOfType(infos, kind)
      case None => Failure(Ffms(NoSuitableTrack))
      case Some(k) => Success(infos[k].num)
  }

  /** The flags set on every listed track, then `do_indexing2()` with the
      default error mode. */
  function IndexOnly(ix: Indexer, track: int, doIndex: IndexingOracle): (r: Result<Rebuilt>)
    requires ix.live && ix.settings == map[] && ix.infoCache == Some(InfosFrom(ix.catalog.tracks, 0))
    ensures var settings := OnlyTrackSettings(|ix.catalog.tracks|, track);
            var native := doIndex(ix.catalog, settings, StopTrack);
            && (r.Success? <==> native.Some?)
            && (r.Success? ==> r.value == Rebuilt(Index(native.value, None, Some(ix.sourceFile)), track, settings))
            && (r.Failure? ==> r.error == Ffms(Native))
  {
    var s2 := TrackInfoList(ix);
    FlaggedSettings(ix, track);
    var ix2 := FlagTracks(s2.next, s2.outcome.infos, track);
    var s3 := DoIndexing2(ix2, StopTrack, doIndex);
    match s3.outcome
    case Produced(index) => Success(Rebuilt(index, track, ix2.settings))
    case Raised(e) => Failure(e)
    case _ => Failure(Ffms(Native))
  }

  /** Flagging every listed track of a fresh indexer yields the rebuild's
      settings and changes nothing else. */
  lemma FlaggedSettings(ix: Indexer, track: int)
    requires ix.live && ix.settings == map[] && ix.infoCache == Some(InfosFrom(ix.catalog.tracks, 0))
    ensures var s2 := TrackInfoList(ix);
            FlagTracks(s2.next, s2.outcome.infos, track) == ix.(settings := OnlyTrackSettings(|ix.catalog.tracks|, track))
  {
    var s2 := TrackInfoList(ix);
    assert s2.next == ix;
    var ix2 := FlagTracks(ix, s2.outcome.infos, track);
    NumsOfCatalog(ix.catalog.tracks);
    OnlyTrackEnabledUnique(ix2.settings, |ix.catalog.tracks|, track);
  }

  /** The `if not index:` block: a fresh indexer, the track chosen, the
      flags set, and the file indexed with the default error mode. */
  function Rebuild(env: Env, kind: TrackType, sourceFile: string, trackNumber: Option<int>): (r: Result<Rebuilt>)
    ensures env.probe.None? ==> r == Failure(Ffms(Native))
    ensures env.probe.Some? && ChosenTrack(env.probe.value, kind, trackNumber).None? ==>
              r == Failure(Ffms(NoSuitableTrack))
    // once a track is chosen, the rebuild succeeds exactly when the native
    // indexer, run with only that track enabled, returns an index
    ensures env.probe.Some? && ChosenTrack(env.probe.value, kind, trackNumber).Some? ==>
              var track := ChosenTrack(env.probe.value, kind, trackNumber).value;
              var settings := OnlyTrackSettings(|env.probe.value.tracks|, track);
              var native := env.doIndex(env.probe.value, settings, StopTrack);
              && (r.Success? <==> native.Some?)
              && (r.Success? ==> r.value == Rebuilt(Index(native.value, None, Some(sourceFile)), track, settings))
              && (r.Failure? ==> r.error == Ffms(Native))
  {
    var ix :- Create(sourceFile, env.probe);
    var s1 := TrackInfoList(ix);
    assert s1.outcome.infos == InfosFrom(ix.catalog.tracks, 0);
    var track :- PickTrack(s1.outcome.infos, ix.catalog, kind, trackNumber);
    IndexOnly(s1.next, track, env.doIndex)
  }

  /** The settings of a rebuild enable the chosen track and list every
      track of the file. */
  lemma OnlyTrackSettingsShape(tracks: nat, track: int)
    ensures OnlyTrackEnabled(OnlyTrackSettings(tracks, track), tracks, track)
  {
  }

  /** Exactly one track is enabled when the chosen number names a track
      of the file, and none otherwise. */
  lemma EnabledTrack(settings: map<int, TrackSetting>, tracks: nat, track: int)
    requires OnlyTrackEnabled(settings, tracks, track)
    ensures (exists t :: t in settings && settings[t].index) <==> 0 <= track < tracks
    ensures forall t1, t2 :: t1 in settings && t2 in settings && settings[t1].index && settings[t2].index ==> t1 == t2
    ensures forall t :: t in settings ==> !settings[t].dump
  {
    if 0 <= track < tracks {
      assert track in settings && settings[track].index;
    }
  }

  // ---------------------------------------------------------------------
  // Source.__init__

  datatype Origin = GivenIndex | CachedIndex | Reindexed(settings: map<int, TrackSetting>)

  /** The index and track number the source is opened with. */
  datatype Resolved = Resolved(index: Index, track: int, origin: Origin)

  /** The source opened on a freshly built index. */
  function Reindex(env: Env, kind: TrackType, sourceFile: string, trackNumber: Option<int>): (r: Result<Resolved>)
    ensures env.probe.None? ==> r == Failure(Ffms(Native))
    ensures env.probe.Some? && ChosenTrack(env.probe.value, kind, trackNumber).None? ==>
              r == Failure(Ffms(NoSuitableTrack))
    ensures env.probe.Some? && ChosenTrack(env.probe.value, kind, trackNumber).Some? ==>
              var track := ChosenTrack(env.probe.value, kind, trackNumber).value;
              var settings := OnlyTrackSettings(|env.probe.value.tracks|, track);
              var native := env.doIndex(env.probe.value, settings, StopTrack);
              && (r.Success? <==> native.Some?)
              && (r.Success? ==> r.value == Resolved(Index(native.value, None, Some(sourceFile)), track, Reindexed(settings)))
              && (r.Failure? ==> r.error == Ffms(Native))
  {
    var rb :- Rebuild(env, kind, sourceFile, trackNumber);
    Success(Resolved(rb.index, rb.track, Reindexed(rb.settings)))
  }

  /** The `elif track_number is None:` branch: an index passed in is used
      as it is, and only a missing track number is looked up. */
  function WithGivenIndex(index: Index, kind: TrackType, trackNumber: Option<int>): (r: Result<Resolved>)
    ensures r.Failure? <==> trackNumber.None? && FirstIndexedTrackOfType(index.native, kind).Failure?
    ensures r.Failure? ==> r.error == Ffms(Native)
    ensures r.Success? ==> r.value.index == index && r.value.origin == GivenIndex
    ensures r.Success? && trackNumber.None? ==> r.value.track == FirstIndexedTrackOfType(index.native, kind).value
    ensures r.Success? && trackNumber.Some? ==> r.value.track == trackNumber.value
  {
    var track :-
      match trackNumber
      case Some(t) => Success(t)
      case None => FirstIndexedTrackOfType(index.native, kind);
    Success(Resolved(index, track, GivenIndex))
  }

  /** The `if not index:` branch: the default index file is tried, and the
      file is indexed afresh when it is not usable. */
  function FromCache(env: Env, kind: TrackType, sourceFile: string, trackNumber: Option<int>): (r: Result<Resolved>)
    // an escaping exception propagates, a usable cached index is kept, and
    // anything else indexes the file afresh
    ensures match TryCached(env, kind, sourceFile, trackNumber)
            case Failure(e) => r == Failure(e)
            case Success(Keep(index, track)) => r == Success(Resolved(index, track, CachedIndex))
            case Success(Discard) => r == Reindex(env, kind, sourceFile, trackNumber)
    ensures r.Success? ==> !r.value.origin.GivenIndex?
    ensures r.Success? && trackNumber.Some? ==> r.value.track == trackNumber.value
  {
    var decision :- TryCached(env, kind, sourceFile, trackNumber);
    match decision
    case Keep(index, track) => Success(Resolved(index, track, CachedIndex))
    case Discard => Reindex(env, kind, sourceFile, trackNumber)
  }

  /** The cached index is kept exactly when it is usable, and then the
      track found is an indexed track of the kind. */
  lemma FromCacheKeeps(env: Env, kind: TrackType, sourceFile: string, trackNumber: Option<int>)
    ensures var r := FromCache(env, kind, sourceFile, trackNumber);
            var read := Read(env.fs, env.readIndex, env.belongs, None, Some(sourceFile));
            && (r.Success? && r.value.origin == CachedIndex <==> CacheUsable(read, kind, trackNumber))
            && (r.Success? && r.value.origin == CachedIndex ==> r.value.index == read.value)
            && (r.Success? && r.value.origin == CachedIndex && trackNumber.None? ==>
                  IndexedOfType(r.value.index.native, r.value.track, kind))
  {
  }

  /** A rebuilt index was made with only the chosen track enabled, and
      without a track number that track has the source's type. */
  lemma FromCacheReindexes(env: Env, kind: TrackType, sourceFile: string, trackNumber: Option<int>)
    ensures var r := FromCache(env, kind, sourceFile, trackNumber);
            r.Success? && r.value.origin.Reindexed? ==>
              && env.probe.Some?
              && OnlyTrackEnabled(r.value.origin.settings, |env.probe.value.tracks|, r.value.track)
              && r.value.index.sourceFile == Some(sourceFile)
              && (trackNumber.None? ==>
                    0 <= r.value.track < |env.probe.value.tracks| && env.probe.value.tracks[r.value.track].trackType == kind)
  {
    var r := FromCache(env, kind, sourceFile, trackNumber);
    if r.Success? && r.value.origin.Reindexed? {
      var track := ChosenTrack(env.probe.value, kind, trackNumber).value;
      OnlyTrackSettingsShape(|env.probe.value.tracks|, track);
    }
  }

  /** `Source.__init__(source_file, track_number, index)` for a source of
      track type `kind`, up to the native source creation. */
  function Resolve(env: Env, kind: TrackType, sourceFile: string, trackNumber: Option<int>, given: Option<Index>)
    : (r: Result<Resolved>)
    // an index passed in is used as it is; only a missing track number is looked up
    ensures given.Some? ==>
              && (r.Success? ==> r.value.index == given.value && r.value.origin == GivenIndex)
              && (r.Failure? <==> trackNumber.None? && FirstIndexedTrackOfType(given.value.native, kind).Failure?)
    // otherwise the cached index is kept exactly when it is usable
    ensures given.None? ==>
              var read := Read(env.fs, env.readIndex, env.belongs, None, Some(sourceFile));
              && (r.Success? && r.value.origin == CachedIndex <==> CacheUsable(read, kind, trackNumber))
              && (r.Success? && r.value.origin == CachedIndex ==> r.value.index == read.value)
    // a rebuilt index was made with only the chosen track enabled
    ensures r.Success? && r.value.origin.Reindexed? ==>
              && given.None? && env.probe.Some?
              && OnlyTrackEnabled(r.value.origin.settings, |env.probe.value.tracks|, r.value.track)
              && r.value.index.sourceFile == Some(sourceFile)
    // with no track number, the chosen track has the source's type
    ensures r.Success? && trackNumber.None? && !r.value.origin.Reindexed? ==>
              IndexedOfType(r.value.index.native, r.value.track, kind)
    ensures r.Success? && trackNumber.None? && r.value.origin.Reindexed? ==>
              0 <= r.value.track < |env.probe.value.tracks| && env.probe.value.tracks[r.value.track].trackType == kind
    ensures r.Success? && trackNumber.Some? ==> r.value.track == trackNumber.value
    // without an index argument: an escaping exception propagates, a usable
    // cached index is kept, and anything else indexes the file afresh
    ensures given.None? ==>
              match TryCached(env, kind, sourceFile, trackNumber)
              case Failure(e) => r == Failure(e)
              case Success(Keep(index, track)) => r == Success(Resolved(index, track, CachedIndex))
              case Success(Discard) => r == Reindex(env, kind, sourceFile, trackNumber)
  {
    match given
    case Some(index) => WithGivenIndex(index, kind, trackNumber)
    case None =>
      FromCacheKeeps(env, kind, sourceFile, trackNumber);
      FromCacheReindexes(env, kind, sourceFile, trackNumber);
      FromCache(env, kind, sourceFile, trackNumber)
  }

  /** Any `Error` from the cached index (missing, short, unreadable, for
      another file) leads to indexing the file again, never to a failure of
      its own. */
  lemma ReadErrorMeansRebuild(env: Env, kind: TrackType, sourceFile: string, trackNumber: Option<int>)
    requires Read(env.fs, env.readIndex, env.belongs, None, Some(sourceFile)).Failure?
    requires Read(env.fs, env.readIndex, env.belongs, None, Some(sourceFile)).error.Ffms?
    ensures var r := Resolve(env, kind, sourceFile, trackNumber, None);
            var rb := Rebuild(env, kind, sourceFile, trackNumber);
            && (r.Success? <==> rb.Success?)
            && (r.Success? ==> r.value == Resolved(rb.value.index, rb.value.track, Reindexed(rb.value.settings)))
            && (r.Failure? ==> r.error == rb.error)
  {
  }

  /** A cached index without an indexed track of the kind, when no track
      number was asked for: `get_first_indexed_track_of_type` raises, the
      error is caught, and the file is indexed again. */
  lemma NoIndexedTrackMeansRebuild(env: Env, kind: TrackType, sourceFile: string)
    requires Read(env.fs, env.readIndex, env.belongs, None, Some(sourceFile)).Success?
    requires FirstIndexedTrackOfType(Read(env.fs, env.readIndex, env.belongs, None, Some(sourceFile)).value.native, kind).Failure?
    ensures Resolve(env, kind, sourceFile, None, None) == Reindex(env, kind, sourceFile, None)
  {
  }

  /** A cached index whose asked-for track has an empty frame table is
      dropped, and the file is indexed again. */
  lemma EmptyTrackMeansRebuild(env: Env, kind: TrackType, sourceFile: string, track: int)
    requires Read(env.fs, env.readIndex, env.belongs, None, Some(sourceFile)).Success?
    requires var tracks := Read(env.fs, env.readIndex, env.belongs, None, Some(sourceFile)).value.native.tracks;
             -|tracks| <= track < |tracks| && PyIndex(tracks, track).value.frames == []
    ensures Resolve(env, kind, sourceFile, Some(track), None) == Reindex(env, kind, sourceFile, Some(track))
  {
  }
}
