/**
 Shared vocabulary of the ffms2 binding model: the failure-compatible
 result type, the exceptions the binding raises, and the metadata the
 native FFMS2 library hands back (track types, frame records, indexes).

 The native library itself is never modelled; whatever it computes enters
 the model as data (an index value, a track list) or as a function-typed
 oracle parameter.
 */
module Types {

  datatype Option<+T> = None | Some(value: T)

  /** The exceptions of the binding. `ValueError` and `TypeError` are
      Python's; every `Ffms` value is the binding's own `Error` class. */
  datatype Error =
    | ValueError(msg: string)
    | TypeError
    | IndexError
    | Ffms(kind: FfmsFailure)

  datatype FfmsFailure =
    | NoIndexFile(path: string)    // raised before the native reader runs
    | BadIndexFile(path: string)   // file present but under the header size
    | WrongSourceFile              // FFMS_IndexBelongsToFile said no
    | NoSuitableTrack              // no track of the wanted type
    | Native                       // any other native failure (err_info)

  datatype Result<+T> = Success(value: T) | Failure(error: Error) {
    predicate IsFailure() { Failure? }

    function PropagateFailure<U>(): Result<U>
      requires Failure?
    {
      Failure(error)
    }

    function Extract(): T
      requires Success?
    {
      value
    }
  }

  /** The exception text every operation of a consumed indexer raises. */
  const IndexingDone: string := "indexing already done"

  /** FFMS_TYPE_*; `Unknown` is the native value -1. */
  datatype TrackType = Unknown | Video | Audio | Data | Subtitle | Attachment

  /** One entry of `Indexer.track_info_list`. */
  datatype TrackInfo = TrackInfo(num: int, trackType: TrackType, codecName: string)

  /** FFMS_FrameInfo, reduced to the fields this model reads. */
  datatype FrameInfo = FrameInfo(pts: int, keyFrame: bool)

  /** A track of a native index: its type and its frame table, empty when
      the track was not indexed. */
  datatype NativeTrack = NativeTrack(trackType: TrackType, frames: seq<FrameInfo>)

  /** The native FFMS_Index, as far as the binding can observe it. */
  datatype NativeIndex = NativeIndex(tracks: seq<NativeTrack>)

  /** The binding's `Index` object: the native handle plus the two paths
      it remembers. */
  datatype Index = Index(native: NativeIndex, indexFile: Option<string>, sourceFile: Option<string>)

  /** FFINDEX_EXT: the suffix of the default index path. */
  const IndexExt: string := ".ffindex"

  /** Python truthiness of an optional string: None and "" are false. */
  predicate Given(s: Option<string>)
  {
    s.Some? && s.value != ""
  }
}
