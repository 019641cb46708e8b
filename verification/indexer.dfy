/**
 The `Indexer` object: a handle that is live from construction until
 `do_indexing2` consumes it, successful or not. Every operation checks
 the handle first; on a consumed indexer each one raises
 ValueError("indexing already done"). Destruction cancels indexing only
 while the handle is still live.

 The native indexer is seen through what it reports about the file (a
 `Catalog`) and through an oracle that performs the indexing.
 */
module Indexing {
  import opened Types

  /** What FFMS_CreateIndexer finds in the source file. */
  datatype CatalogTrack = CatalogTrack(trackType: TrackType, codecName: string)
  datatype Catalog = Catalog(formatName: string, tracks: seq<CatalogTrack>)

  /** FFMS_TrackIndexSettings arguments for one track. */
  datatype TrackSetting = TrackSetting(index: bool, dump: bool)

  /** FFMS_IEH_*. */
  datatype ErrorHandling = Abort | ClearTrack | StopTrack | Ignore

  /** The native indexing call: what FFMS_DoIndexing2 returns for the
      file, the per-track settings and the error mode; None is NULL. */
  type IndexingOracle = (Catalog, map<int, TrackSetting>, ErrorHandling) -> Option<NativeIndex>

  /** The Python object's state: `live` is whether `_indexer` still holds
      a handle. */
  datatype Indexer = Indexer(
    sourceFile: string,
    live: bool,
    catalog: Catalog,
    settings: map<int, TrackSetting>,
    infoCache: Option<seq<TrackInfo>>)

  /** What one operation returns or raises. */
  datatype Outcome =
    | Done
    | Infos(infos: seq<TrackInfo>)
    | Name(name: string)
    | Produced(index: Index)
    | Raised(error: Error)

  /** The state after an operation, its outcome, and whether the native
      indexing call was made. */
  datatype Step = Step(next: Indexer, outcome: Outcome, indexed: bool)

  /** `_check_indexer()` failing: nothing changes. */
  function Rejected(ix: Indexer): Step
  {
    Step(ix, Raised(ValueError(IndexingDone)), false)
  }

  /** `Indexer(source_file)`. A NULL handle raises. */
  function Create(sourceFile: string, probe: Option<Catalog>): (r: Result<Indexer>)
    ensures r.Failure? <==> probe.None?
    ensures r.Success? ==> r.value.live && r.value.sourceFile == sourceFile
                           && r.value.catalog == probe.value
                           && r.value.settings == map[] && r.value.infoCache.None?
  {
    match probe
    case None => Failure(Ffms(Native))
    case Some(cat) => Success(Indexer(sourceFile, true, cat, map[], None))
  }

  /** One `TrackInfo` per track from `from` on, numbered by position. */
  function InfosFrom(tracks: seq<CatalogTrack>, from: nat): (r: seq<TrackInfo>)
    requires from <= |tracks|
    ensures |r| == |tracks| - from
    ensures forall k :: 0 <= k < |r| ==>
              r[k] == TrackInfo(from + k, tracks[from + k].trackType, tracks[from + k].codecName)
    decreases |tracks| - from
  {
    if from == |tracks| then []
    else [TrackInfo(from, tracks[from].trackType, tracks[from].codecName)] + InfosFrom(tracks, from + 1)
  }

  /** `track_info_list`: one entry per track, numbered from 0, built once
      and then served from the cache. */
  function TrackInfoList(ix: Indexer): (s: Step)
    requires ix.infoCache.Some? ==> ix.infoCache.value == InfosFrom(ix.catalog.tracks, 0)
    ensures !ix.live ==> s == Rejected(ix)
    ensures ix.live ==>
              && s.outcome.Infos? && !s.indexed
              && s.next == ix.(infoCache := Some(s.outcome.infos))
              && |s.outcome.infos| == |ix.catalog.tracks|
              && forall n :: 0 <= n < |ix.catalog.tracks| ==>
                   s.outcome.infos[n] == TrackInfo(n, ix.catalog.tracks[n].trackType, ix.catalog.tracks[n].codecName)
  {
    if !ix.live then Rejected(ix)
    else
      var infos := if ix.infoCache.Some? then ix.infoCache.value else InfosFrom(ix.catalog.tracks, 0);
      Step(ix.(infoCache := Some(infos)), Infos(infos), false)
  }

  /** `format_name`. */
  function FormatName(ix: Indexer): (s: Step)
    ensures !ix.live ==> s == Rejected(ix)
    ensures ix.live ==> s == Step(ix, Name(ix.catalog.formatName), false)
  {
    if !ix.live then Rejected(ix) else Step(ix, Name(ix.catalog.formatName), false)
  }

  /** `track_index_settings(track, index, dump)`: records the flags for
      one track and leaves the others alone. */
  function TrackIndexSettings(ix: Indexer, track: int, index: bool, dump: bool): (s: Step)
    ensures !ix.live ==> s == Rejected(ix)
    ensures ix.live ==>
              && s.outcome == Done && !s.indexed && s.next.live
              && s.next.settings.Keys == ix.settings.Keys + {track}
              && s.next.settings[track] == TrackSetting(index, dump)
              && (forall t :: t in ix.settings && t != track ==> s.next.settings[t] == ix.settings[t])
              && s.next == ix.(settings := s.next.settings)
  {
    if !ix.live then Rejected(ix)
    else Step(ix.(settings := ix.settings[track := TrackSetting(index, dump)]), Done, false)
  }

  /** `set_progress_callback(ic)`. The callback itself is not modelled. */
  function SetProgressCallback(ix: Indexer): (s: Step)
    ensures !ix.live ==> s == Rejected(ix)
    ensures ix.live ==> s == Step(ix, Done, false)
  {
    if !ix.live then Rejected(ix) else Step(ix, Done, false)
  }

  /** `do_indexing2(error_handling)`: on a live indexer the native call is
      made and the handle is dropped whatever it returns. */
  function DoIndexing2(ix: Indexer, eh: ErrorHandling, doIndex: IndexingOracle): (s: Step)
    ensures !ix.live ==> s == Rejected(ix)
    ensures ix.live ==> s.indexed && s.next == ix.(live := false)
    ensures ix.live ==>
              match doIndex(ix.catalog, ix.settings, eh)
              case None => s.outcome == Raised(Ffms(Native))
              // the index remembers its source file and no index file yet
              case Some(n) => s.outcome == Produced(Index(n, None, Some(ix.sourceFile)))
  {
    if !ix.live then Rejected(ix)
    else
      var next := ix.(live := false);
      match doIndex(ix.catalog, ix.settings, eh)
      case None => Step(next, Raised(Ffms(Native)), true)
      case Some(n) => Step(next, Produced(Index(n, None, Some(ix.sourceFile))), true)
  }

  /** `__del__`: whether FFMS_CancelIndexing is called. */
  function CancelsOnDestroy(ix: Indexer): bool
  {
    ix.live
  }

  /** `Index.make(source_file, error_handling)`. */
  function Make(sourceFile: string, probe: Option<Catalog>, eh: ErrorHandling, doIndex: IndexingOracle)
    : (r: Result<Index>)
    ensures r.Failure? <==> probe.None? || doIndex(probe.value, map[], eh).None?
    ensures r.Success? ==> r.value == Index(doIndex(probe.value, map[], eh).value, None, Some(sourceFile))
  {
    var ix :- Create(sourceFile, probe);
    match DoIndexing2(ix, eh, doIndex).outcome
    case Produced(index) => Success(index)
    case Raised(e) => Failure(e)
    case _ => Failure(Ffms(Native))
  }

  // ---------------------------------------------------------------------
  // Sequences of operations

  datatype Op =
    | GetTrackInfoList
    | GetFormatName
    | SetTrackIndexSettings(track: int, index: bool, dump: bool)
    | SetCallback
    | RunIndexing(eh: ErrorHandling)

  /** The info cache, when filled, holds the catalog's track list. */
  predicate CacheCoherent(ix: Indexer)
  {
    ix.infoCache.Some? ==> ix.infoCache.value == InfosFrom(ix.catalog.tracks, 0)
  }

  function Apply(ix: Indexer, op: Op, doIndex: IndexingOracle): (s: Step)
    requires CacheCoherent(ix)
    ensures CacheCoherent(s.next)
    ensures s.next.catalog == ix.catalog && s.next.sourceFile == ix.sourceFile
    ensures s.indexed <==> ix.live && op.RunIndexing?
    ensures s.next.live <==> ix.live && !op.RunIndexing?
    ensures !ix.live ==> s == Rejected(ix)
  {
    match op
    case GetTrackInfoList => TrackInfoList(ix)
    case GetFormatName => FormatName(ix)
    case SetTrackIndexSettings(t, i, d) => TrackIndexSettings(ix, t, i, d)
    case SetCallback => SetProgressCallback(ix)
    case RunIndexing(eh) => DoIndexing2(ix, eh, doIndex)
  }

  /** The outcomes of a sequence of operations on one indexer, its final
      state, and how many native indexing calls were made. */
  datatype Trace = Trace(final: Indexer, outcomes: seq<Outcome>, indexingCalls: nat)

  function Run(ix: Indexer, ops: seq<Op>, doIndex: IndexingOracle): (t: Trace)
    requires CacheCoherent(ix)
    ensures |t.outcomes| == |ops|
    ensures CacheCoherent(t.final)
    decreases |ops|
  {
    if ops == [] then Trace(ix, [], 0)
    else
      var s := Apply(ix, ops[0], doIndex);
      var rest := Run(s.next, ops[1..], doIndex);
      Trace(rest.final, [s.outcome] + rest.outcomes, rest.indexingCalls + (if s.indexed then 1 else 0))
  }

  predicate HasIndexing(ops: seq<Op>)
  {
    exists i :: 0 <= i < |ops| && ops[i].RunIndexing?
  }

  /** A consumed indexer refuses everything: every operation raises
      "indexing already done", nothing changes, nothing is indexed. */
  lemma {:induction false} ConsumedRejectsAll(ix: Indexer, ops: seq<Op>, doIndex: IndexingOracle)
    requires CacheCoherent(ix) && !ix.live
    ensures Run(ix, ops, doIndex).final == ix
    ensures Run(ix, ops, doIndex).indexingCalls == 0
    ensures forall i :: 0 <= i < |ops| ==> Run(ix, ops, doIndex).outcomes[i] == Raised(ValueError(IndexingDone))
    decreases |ops|
  {
    if ops != [] {
      ConsumedRejectsAll(ix, ops[1..], doIndex);
    }
  }

  /** The file is indexed at most once per indexer, and exactly once when
      the indexer starts live and some operation asks for it. */
  lemma {:induction false} IndexedAtMostOnce(ix: Indexer, ops: seq<Op>, doIndex: IndexingOracle)
    requires CacheCoherent(ix)
    ensures Run(ix, ops, doIndex).indexingCalls <= 1
    ensures Run(ix, ops, doIndex).indexingCalls == 1 <==> ix.live && HasIndexing(ops)
    ensures Run(ix, ops, doIndex).final.live <==> ix.live && !HasIndexing(ops)
    decreases |ops|
  {
    if ops != [] {
      var s := Apply(ix, ops[0], doIndex);
      IndexedAtMostOnce(s.next, ops[1..], doIndex);
      if !s.next.live {
        ConsumedRejectsAll(s.next, ops[1..], doIndex);
      }
      assert HasIndexing(ops) <==> ops[0].RunIndexing? || HasIndexing(ops[1..]) by {
        if HasIndexing(ops[1..]) {
          var i :| 0 <= i < |ops[1..]| && ops[1..][i].RunIndexing?;
          assert ops[i + 1].RunIndexing?;
        }
        if HasIndexing(ops) && !ops[0].RunIndexing? {
          var i :| 0 <= i < |ops| && ops[i].RunIndexing?;
          assert ops[1..][i - 1].RunIndexing?;
        }
      }
    }
  }

  /** Destroying the indexer after any sequence of operations cancels
      indexing exactly when the indexer was live and was never asked to
      index. */
  lemma CancelOnDestroy(ix: Indexer, ops: seq<Op>, doIndex: IndexingOracle)
    requires CacheCoherent(ix)
    ensures CancelsOnDestroy(Run(ix, ops, doIndex).final) <==> ix.live && !HasIndexing(ops)
  {
    IndexedAtMostOnce(ix, ops, doIndex);
  }

  /** Once an operation has asked for indexing, every later operation
      raises "indexing already done". */
  lemma {:induction false} RejectedAfterIndexing(ix: Indexer, ops: seq<Op>, doIndex: IndexingOracle, i: nat, j: nat)
    requires CacheCoherent(ix)
    requires i < j < |ops| && ops[i].RunIndexing?
    ensures Run(ix, ops, doIndex).outcomes[j] == Raised(ValueError(IndexingDone))
    decreases |ops|
  {
    var s := Apply(ix, ops[0], doIndex);
    var t := Run(ix, ops, doIndex);
    assert t.outcomes[j] == Run(s.next, ops[1..], doIndex).outcomes[j - 1];
    if i == 0 {
      ConsumedRejectsAll(s.next, ops[1..], doIndex);
    } else {
      RejectedAfterIndexing(s.next, ops[1..], doIndex, i - 1, j - 1);
    }
  }
}
