# ffms2 Python binding: a Dafny model of its own logic

The `ffms2` package wraps the native FFMS2 video/audio indexing library
through ctypes. Almost every method hands straight through to a native
call. The decisions the binding makes itself are modelled here, with the
native library as oracle parameters:

- `AudioLinearAccess`: normalising the sample range, and choosing one or
  two chunk sizes from the sample rate and the cadence (chunks per
  second). Its `len()` and the exact sequence of `(position, count)`
  reads that `__iter__` makes, including the first failed read.
- `Indexer`: a handle that is live until `do_indexing2` consumes it.
  Every later operation raises "indexing already done". Destroying it
  cancels indexing only while it is live.
- `Index.read` and `Index.write`: the default path
  (`source_file + ".ffindex"`), the order of `read`'s checks, and
  `write`'s choice of target path.
- `Source.__init__`: when the default index file is reused, when the
  file is indexed afresh, which track is chosen, and the per-track
  index/dump flags.
- The small helpers:
  - `list_to_mask` / `mask_to_list`;
  - the version word;
  - `VideoTrack.keyframes` and `Track._get_output_file`;
  - the one-retry of `get_frame` / `get_frame_by_time`;
  - the defaulting in `set_output_format`;
  - the pre-2.16 `FFMS_SetOutputFormatV2` fallback.

Modules (one per component):

| module | file | models |
|---|---|---|
| `Types` | types.dfy | shared data: errors, `Result`, `Option`, track and frame info, `Index` |
| `Text` | text.dfy | `str()` of integers and `{:02}` padding |
| `Masks` | masks.dfy | `list_to_mask`, `mask_to_list` |
| `Version` | version.dfy | `get_version_info`, `get_version` |
| `Tracks` | tracks.dfy | `keyframes`, `_get_output_file` |
| `Video` | video.dfy | `get_frame` retry, `set_output_format`, the SetOutputFormatV2 fallback |
| `AudioConfig` | audio_config.dfy | `AudioLinearAccess.__init__`, `__len__` |
| `AudioPlan` | audio_plan.dfy | `__iter__` as a pure chunk schedule |
| `AudioIter` | audio_iter.dfy | `__iter__` as loops over a decode oracle |
| `AudioFacts` | audio_facts.dfy | closed forms, drift, `len()` against the schedule, the test stream |
| `Indexing` | indexer.dfy | `Indexer`, `Index.make` |
| `IndexStore` | index_store.dfy | `Index.read`, `Index.write` |
| `SourceResolution` | source.dfy | `Source.__init__`, `get_first_indexed_track_of_type` |

Native calls become parameters:

- `FFMS_GetAudio` is `readAudio(pos, count)`, true when the read succeeds.
- `FFMS_ReadIndex`, `FFMS_IndexBelongsToFile` and `FFMS_WriteIndex` are
  `ReadOracle`, `BelongsOracle` and `WriteOracle`.
- `FFMS_CreateIndexer` is what it finds in the file (a `Catalog`, or
  nothing).
- `FFMS_DoIndexing2` is an `IndexingOracle`.
- `FFMS_GetFrame` is a function from attempt number to frame.
- The file system is a map from path to size.

## Model

| member | source | states |
|---|---|---|
| AudioConfig.NewAccess | ffms2/__init__.py:653-680 | A negative start or end becomes `NumSamples + x`, with no clamping. It lands inside the stream only when it is no further back than `NumSamples`. A missing end becomes `NumSamples`. Non-negative positions are kept. A negative rate is the only error. |
| AudioConfig.ConfigFor | ffms2/__init__.py:662-680 | Rate 0 gives one chunk size of `NumSamples`. Rate < 0 raises ValueError. For rate >= 1 the short size satisfies `count_l*rate <= SampleRate < (count_l+1)*rate`. The schedule is uniform exactly when rate divides SampleRate. Otherwise `count_h = count_l+1`, `0 < l, h < rate` and `h + l == rate`. |
| AudioConfig.CadenceConfig | ffms2/__init__.py:662-671 | One window of `h` long and `l` short chunks covers exactly one second (`h*count_h + l*count_l == SampleRate`). A uniform chunk times the rate is one second. With `rate <= SampleRate` no chunk is empty. |
| AudioConfig.UnevenArithmetic | ffms2/__init__.py:664-670 | With `m = SampleRate mod rate` non-zero: `l = rate - m` and both counts lie strictly between 0 and rate. |
| AudioConfig.Len | ffms2/__init__.py:682-683 | `len()` is the exact ceiling of `NumSamples / samples_per_frame`, taken as a fraction, bounded from both sides. |
| AudioPlan.UniformPlan | ffms2/__init__.py:694-700 | The `l is None` loop yields chunks that tile `[p, end)`. |
| AudioPlan.RunGroup | ffms2/__init__.py:704-714 | One `for _ in range(n)` group yields at most n chunks of its size and advances by exactly their total. It breaks exactly when fewer than n fit, and then the next chunk would overshoot `end`. |
| AudioPlan.RunGroupShape | ffms2/__init__.py:704-714 | A group's chunks all have the group's size and tile the samples it advanced over. |
| AudioPlan.PlanTiles | ffms2/__init__.py:685-727 | The whole schedule, tail included, tiles `[start, end)`: contiguous, in order, none empty. |
| AudioPlan.PlanConserves | ffms2/__init__.py:685-727 | The schedule starts at `start`, each chunk starts where the last ended, every count is positive, and the counts add up to `end - start`. |
| AudioPlan.PlanFollowsPattern | ffms2/__init__.py:701-718 | Every chunk but the last has the size its place in the window gives it (`h` long chunks, then `l` short ones, repeating; all `count_l` when uniform). The last chunk has its pattern size or at most `count_l`. |
| AudioPlan.AfterLongBreak | ffms2/__init__.py:705-714 | After a long chunk fails to fit, the `break` only leaves the inner loop. At most one short chunk can still follow in that window, and if it does it ends exactly at `end`. |
| AudioIter.IterateTail | ffms2/__init__.py:719-727 | The trailing `end - p` chunk is read only when non-zero, and a failed read raises. |
| AudioIter.IterateUniform | ffms2/__init__.py:694-700 | The loop reads exactly the uniform schedule's chunks up to the first failed read, and then the tail. |
| AudioIter.IterateGroup | ffms2/__init__.py:704-714 | One group delivers its scheduled chunks up to the first failed read. Without a failure it ends where the schedule's group ends, with the same break flag. |
| AudioIter.IterateWindow | ffms2/__init__.py:702-714 | One pass over the long group, then the short group, delivers that window's chunks. `loop = False` is set exactly when either group broke. |
| AudioIter.IterateUneven | ffms2/__init__.py:701-727 | The uneven branch delivers its schedule up to the first failed read. |
| AudioIter.Iterate | ffms2/__init__.py:685-727 | Iterating delivers the schedule's chunks in order until the first failed read, which raises. With no failure the chunks start at `start`, run contiguously and add up to `end - start`. |
| AudioIter.DeliversConcat | ffms2/__init__.py:685-727 | Once every chunk of a prefix has been read, what the rest delivers is what the whole delivers after that prefix. |
| AudioFacts.UniformShape | ffms2/__init__.py:694-700 | The uniform schedule has a closed form: chunk i is `(p + i*c, c)`, followed by the remainder when it is non-zero. |
| AudioFacts.UniformLenMatches | ffms2/__init__.py:682-700 | With a uniform size over the whole stream, `len()` equals the number of chunks. |
| AudioFacts.ZeroRateOneChunk | ffms2/__init__.py:675-680 | Rate 0 reads the whole stream as a single chunk. |
| AudioFacts.TestStreamSchedule | ffms2/test.py:56-58 | The test stream (2860032 samples at 48000 Hz) at the default rate of 100 gives 5958 chunks of 480 samples, then one of 192. `len()` is 5959. |
| AudioFacts.PrefixClosedForm | ffms2/__init__.py:701-718 | The samples in the first j pattern slots are whole windows plus a partial window. |
| AudioFacts.PrefixDrift | ffms2/__init__.py:662-671 | Long chunks come first, so after j chunks the schedule is never behind the ideal `j * SampleRate / rate`. It is ahead by at most `h*l / rate` samples. |
| AudioFacts.LenBoundsChunks | ffms2/__init__.py:682-727 | Over the whole stream the iterator never yields more chunks than `len()` announces. |
| AudioFacts.UnevenLenOvercounts | ffms2/__init__.py:662-727 | `len()` can exceed the chunk count. At 44100 Hz and rate 1000, 45 samples make one chunk, but `len()` is 2. |
| Masks.ListToMask | ffms2/__init__.py:850-851 | A negative entry raises ValueError. Otherwise bit n of the mask is set exactly when n is listed. |
| Masks.MaskToList | ffms2/__init__.py:854-855 | The entries are exactly the set bits below `num_bits`, strictly increasing. Negative masks read as Python's two's complement. |
| Masks.MaskRoundTrip | ffms2/__init__.py:850-855 | `list_to_mask(mask_to_list(m)) == m` for every `0 <= m < 2^64`. |
| Masks.ListRoundTrip | ffms2/__init__.py:850-855 | For entries in `[0, 64)`, `mask_to_list(list_to_mask(xs))` holds the same numbers as xs, each once, in increasing order. |
| Version.GetVersionInfo | ffms2/__init__.py:153-162 | The three floor divmods split the word into components that pack back to it, the lower three in `[0, 256)`. |
| Version.UnpackPack | ffms2/__init__.py:153-162 | Decoding undoes packing for every version whose lower components fit in a byte. |
| Version.Shown | ffms2/__init__.py:165-172 | The printed components are a prefix of (major, minor, micro, bump) of length 2 to 4. Everything dropped is zero, and beyond the second the last shown is non-zero. |
| Version.VersionComponents | ffms2/__init__.py:165-172 | The version string has 1 to 3 dots. It has 3 exactly when bump is non-zero, and 1 exactly when micro and bump are both zero. |
| Version.VersionExampleMajor | ffms2/__init__.py:165-172 | With minor, micro and bump all zero the string is `2.0`: two components are always kept. |
| Text.ParseNatToString | ffms2/__init__.py:168-172 | `str()` of a natural number reads back as that number. |
| Text.IntToString | ffms2/__init__.py:168-172 | `str(e)` is non-empty and contains no dot. It is all digits exactly when e is non-negative. |
| Tracks.Keyframes | ffms2/__init__.py:807-812 | A frame number is listed exactly when that frame is a keyframe. The list is strictly increasing and no longer than the frame list. |
| Tracks.SideFileBase | ffms2/__init__.py:765-767 | A non-empty index file name is the base. Otherwise the base is `source_file + ".ffindex"`, and with no source file `None + ".ffindex"` raises TypeError. |
| Tracks.SideFileBaseIsWritePath | ffms2/__init__.py:765-767 | The side files are named after the path `write()` without an argument would use, and both raise TypeError in the same case. |
| Tracks.OutputFile | ffms2/__init__.py:765-768 | The side-file name starts with the index path and ends with `.<ext>.txt`. |
| Tracks.OutputFileInjective | ffms2/__init__.py:765-768 | Two (track number, extension) pairs of one index never name the same side file. |
| Tracks.SideFilesDiffer | ffms2/__init__.py:765-768 | A track's timecode and keyframe files are different files. |
| Tracks.OutputFileExample | ffms2/__init__.py:765-768 | Track 1 of an index of `a.mkv` writes its keyframes to `a.mkv.ffindex_track01.kf.txt`. |
| Video.WithRetry | ffms2/__init__.py:454-474 | One or two native calls are made, the second only after the first returned NULL. An error is raised only when both failed. A frame returned comes from the last call. |
| Video.StripTrailingNegatives | ffms2/__init__.py:147-148 | The result is a prefix of the list that ends non-negative (or is empty), and everything removed is negative. |
| Video.StripUnique | ffms2/__init__.py:147-148 | That cut is the only one: the whole negative tail is removed and nothing more. |
| Video.OutputSettings | ffms2/__init__.py:480-496 | The requested formats come first. A `-1` terminator is appended only when the last entry is non-negative. An empty list raises IndexError. Width and height default to the scaled size when positive, else the encoded size. |
| Video.Terminated | ffms2/__init__.py:487-488 | The list handed over keeps the requested formats as its prefix, gains at most one entry, and always ends negative. The `-1` is added exactly when the last entry is non-negative. |
| Video.RequestedFormats | ffms2/__init__.py:480-485 | With no formats given, the converted pixel format is used when positive, else the encoded one. An int goes through `mask_to_list`. |
| Video.SetOutputFormat | ffms2/__init__.py:476-504 | Frame 0 is fetched first and its error propagates. A non-zero native status raises. |
| Video.FallbackMask | ffms2/__init__.py:143-150 | The intended fallback, run on the format list: it fails exactly when a negative entry survives the stripping. Otherwise bit n of the mask is set exactly when n is in the stripped list. |
| Video.FallbackSeesRequest | ffms2/__init__.py:143-150 | Intended behaviour: the terminator that `set_output_format` appends is exactly what the list fallback strips, so non-negative requested formats would reach the native call as their mask. |
| Video.FallbackMaskRoundTrip | ffms2/__init__.py:143-150 | Intended behaviour: a non-zero 64-bit mask argument would reach the pre-2.16 native call unchanged. |
| Video.StripTerminated | ffms2/__init__.py:143-150 | Intended behaviour: on a list ending non-negative, stripping the terminated list gives back the list. |
| Video.FallbackOnPointer | ffms2/__init__.py:143-150 | As written, the fallback receives a pointer to the terminated array. If the int before the array is negative, the mask is 0. Otherwise walking the pointer reaches the terminator and raises ValueError. |
| Video.FallbackOnPointerLosesRequest | ffms2/__init__.py:497-501 | For every non-negative request, whatever precedes the array, the fallback on the pointer differs from the mask of the request. |
| Video.PointerLosesList | ffms2/__init__.py:143-150 | For any non-empty list of non-negative formats, the pointer fallback on its terminated array never yields the list fallback's mask. |
| Video.FallbackOnPointerExample | ffms2/__init__.py:497-501 | Requesting `[3]` passes `[3, -1]`. The list fallback would give mask 8, but the pointer fallback gives 0 or raises. |
| Indexing.Create | ffms2/__init__.py:219-228 | A NULL native handle raises. Otherwise the indexer is live, with no settings and no cached track list. |
| Indexing.TrackInfoList | ffms2/__init__.py:234-250 | On a live indexer, entry n is `(n, type, codec)` of track n, cached after the first call. On a consumed one it raises "indexing already done". |
| Indexing.TrackIndexSettings | ffms2/__init__.py:262-264 | On a live indexer it records the flags of one track and leaves the others alone. Otherwise it raises. |
| Indexing.DoIndexing2 | ffms2/__init__.py:271-285 | On a live indexer the native call is made and the handle is dropped whatever it returns. A NULL result raises. The index remembers its source file. |
| Indexing.Make | ffms2/__init__.py:299-303 | `Index.make` fails exactly when creating or indexing fails, and returns the index of the source file. |
| Indexing.Apply | ffms2/__init__.py:213-285 | Each operation keeps the track-list cache coherent. It indexes exactly when it is `do_indexing2` on a live indexer, and that is the only way the handle is dropped. |
| Indexing.ConsumedRejectsAll | ffms2/__init__.py:283-285 | On a consumed indexer every operation raises "indexing already done", nothing changes and nothing is indexed. |
| Indexing.IndexedAtMostOnce | ffms2/__init__.py:271-285 | Over any sequence of operations the file is indexed at most once: exactly once when the indexer starts live and indexing is asked for. |
| Indexing.CancelOnDestroy | ffms2/__init__.py:230-232 | Destruction cancels indexing exactly when the indexer was live and never asked to index. |
| Indexing.RejectedAfterIndexing | ffms2/__init__.py:271-285 | Every operation after a `do_indexing2` raises "indexing already done". |
| IndexStore.ReadPath | ffms2/__init__.py:309-313 | With neither path given, `read` raises ValueError. An index file given wins; otherwise the path is `source_file + ".ffindex"`. |
| IndexStore.Read | ffms2/__init__.py:306-328 | The checks run in order: the path, a missing file, a file under 76 bytes, a NULL native read, then the wrong source file (only when one is given). A successful read passed every check. When every check passes, the index read is returned with the path opened and the source file given. |
| IndexStore.GuardsPrecedeNativeRead | ffms2/__init__.py:314-321 | A missing or short file is refused whatever the native reader would say. |
| IndexStore.NoSourceNoCheck | ffms2/__init__.py:324-327 | Without a source file the index is never checked against one. |
| IndexStore.Write | ffms2/__init__.py:333-342 | An explicit path is stored and used. Otherwise a remembered path is kept, else `source_file + ".ffindex"`. TypeError is raised exactly when there is no explicit path, no remembered path and no source file. The path is stored before the native call, and only a non-zero status raises. |
| IndexStore.WriteAgainSamePath | ffms2/__init__.py:333-342 | A second `write()` without a path targets the file the first one chose, whether or not the first one succeeded. |
| IndexStore.DefaultPathsAgree | ffms2/__init__.py:306-342 | Without explicit paths, `read` and `write` agree on where a source's index lives. |
| IndexStore.WriteThenRead | ffms2/__init__.py:306-342 | Reading back a written index yields the index `write` left behind, when the file is on disk and the native reader returns it. |
| SourceResolution.FirstIndexedTrackOfType | ffms2/__init__.py:359-366 | Returns the lowest-numbered track of the type that has frames, and raises when there is none. |
| SourceResolution.PyIndex | ffms2/__init__.py:403 | Python list indexing: negative indices count from the end, and outside `[-len, len)` it raises IndexError. |
| SourceResolution.TryCached | ffms2/__init__.py:397-407 | The cached index is kept exactly when it reads without `Error` and covers the wanted track. An `Error` means rebuild. ValueError (empty source name) and IndexError escape. |
| SourceResolution.FlagTracks | ffms2/__init__.py:419-422 | Every listed track gets `index = (num == track_number)` and `dump = 0`. Other settings are untouched. |
| SourceResolution.PickTrack | ffms2/__init__.py:410-417 | With no track number, the first listed track of the source's type is chosen, and "no suitable track" is raised when there is none. A given number is used as it is. |
| SourceResolution.IndexOnly | ffms2/__init__.py:419-424 | Indexing succeeds exactly when the native indexer, run with only the chosen track enabled, nothing dumped and the default error mode, returns an index. The result is that index with its source file. |
| SourceResolution.OnlyTrackSettingsShape | ffms2/__init__.py:419-422 | The rebuild's settings list every track of the file and enable only the chosen one. |
| SourceResolution.FlaggedSettings | ffms2/__init__.py:419-422 | Flagging every listed track of a fresh indexer gives exactly the rebuild's settings and changes nothing else. |
| SourceResolution.Rebuild | ffms2/__init__.py:408-424 | No native indexer raises, and no track of the source's type raises "no suitable track". Once a track is chosen, the rebuild succeeds exactly when the native indexer with only that track enabled returns an index, and yields that index. |
| SourceResolution.Reindex | ffms2/__init__.py:408-424 | The source opened on a fresh index: the same cases as the rebuild, with the settings it used recorded. |
| SourceResolution.WithGivenIndex | ffms2/__init__.py:425-426 | A given index is used as it is. A missing track number becomes its first indexed track of the type, and it raises when there is none. |
| SourceResolution.FromCache | ffms2/__init__.py:397-424 | Without an index argument: an escaping exception propagates, a usable cached index is kept with its track, and anything else indexes the file afresh. |
| SourceResolution.FromCacheKeeps | ffms2/__init__.py:397-407 | The cached index is kept exactly when it is usable. The track found is then an indexed track of the type. |
| SourceResolution.FromCacheReindexes | ffms2/__init__.py:407-424 | A rebuilt index enables only the chosen track, and remembers the source file. Without a track number that track has the source's type. |
| SourceResolution.EnabledTrack | ffms2/__init__.py:419-422 | Exactly one track is enabled when the chosen number names a track, none otherwise, and no track is dumped. |
| SourceResolution.Resolve | ffms2/__init__.py:396-429 | A given index is used as it is. Otherwise an escaping exception propagates, the cached index is kept exactly when usable, and anything else indexes the file afresh with only the chosen track enabled. With no track number the chosen track has the source's type. |
| SourceResolution.ReadErrorMeansRebuild | ffms2/__init__.py:397-408 | Any `Error` from the cached index leads to indexing again, never to a failure of its own. |
| SourceResolution.NoIndexedTrackMeansRebuild | ffms2/__init__.py:399-408 | With no track number, a cached index without an indexed track of the type makes `get_first_indexed_track_of_type` raise, and the file is indexed again. |
| SourceResolution.EmptyTrackMeansRebuild | ffms2/__init__.py:403-407 | A cached index whose asked-for track has no frames is dropped, and the file is indexed again. |

## Left out

- The `0 < rate < 1` branch and any non-integer rate: `round()` of a float. Only integer cadences are modelled.
- Float `samples_per_frame`: `len()` uses the exact rational `SampleRate / rate` instead.
- Sample data, numpy buffers, the channel count and the reuse of one array across yields: each yield is modelled as its `(position, count)` pair.
- AudioIter.Iterate: requires `start <= end`, `count_l >= 1` and, when uneven, `h, l >= 1`. AudioPlan.Plan has the same preconditions. The source checks none of them. With `start > end` the tail's `numpy.empty` of a negative size raises ValueError. With `rate > SampleRate`, `count_l` is 0 and `mod` is SampleRate, so `count_h = 1`, `h = SampleRate` and `l = rate - SampleRate`. Each window then reads `h` one-sample chunks followed by `l` zero-sample chunks, which the schedule does not represent. With `count_l == 0` in the uniform branch (SampleRate 0 at any rate >= 1, or rate 0 on an empty stream), `np` never passes `end`, and the iterator yields empty chunks forever.
- AudioPlan.PlanFollowsPattern: the last chunk is only bounded by `count_l`, not pinned to "strictly shorter". After a long chunk fails to fit, a full `count_l` chunk can still end the stream (AudioPlan.AfterLongBreak).
- Native calls (FFMS_*) through ctypes: they are oracle parameters. Error codes, messages and the global `err_info` buffer are collapsed into `Ffms(kind)`.
- SourceResolution.FirstIndexedTrackOfType: FFMS_GetFirstIndexedTrackOfType is not an oracle. It is given a fixed meaning: the lowest-numbered track of the type with a non-empty frame table, else an error. The native library is not part of this model, and the binding's results on that path hold only under this reading.
- Video.FallbackOnPointer: it assumes the requested formats end in a negative terminator, as `set_output_format` always ensures. It does not model what the native call does with mask 0.
- Windows COM/UTF-8 initialisation and path encoding: platform plumbing.
- `get_pix_fmt`, log levels, `error_handling`, `get_first_track_of_type`, `belongs_to_file`, `Index.tracks`, `Track.create`, `frame_info_list`, `time_base`, video and audio properties: direct native calls with no logic of their own.
- `reset_output_format`, `set_input_format`, `reset_input_format` and the `output_format`/`input_format` context managers: pass-through native calls.
- Video.SetOutputFormat: the resizer argument is passed through unmodelled. `target_formats.append(-1)` also mutates a list the caller passed in, but the model returns a new list.
- Timecodes, `keyframes_as_timecodes` and `_get_fps`/`_get_sar`: floating-point arithmetic on PTS values.
- `write_timecodes` and `write_keyframes`: text file output. Only the file name they default to (`_get_output_file`) is modelled.
- `init_progress_callback` and `set_progress_callback`'s callback: wall-clock time and console output. Setting a callback is modelled as a state-preserving operation.
- `AudioSource.init_buffer`, `get_audio` and `linear_access`: buffer allocation and one native read each.
- Source construction after resolution (FFMS_CreateVideoSource/AudioSource): native calls.
- The command-line front ends, packaging scripts and library discovery: not part of the binding's logic.

## Findings

| source | as written | input that shows it | evidently intended | confidence | as-written member | corrected member |
|---|---|---|---|---|---|---|
| ffms2/__init__.py:143-150 | With FFMS2 2.15 or older, `set_output_format` hands the fallback a ctypes pointer to the terminated C array (ffms2/__init__.py:497-501), not a list. `target_formats[-1]` reads the int stored before the array. If it is negative, `[:-1]` yields the empty list and the mask is 0. Otherwise `list_to_mask` walks the pointer to the `-1` terminator, and `1 << -1` raises ValueError. | `set_output_format([3])` passes a pointer to `[3, -1]`: FFMS_SetOutputFormatV receives mask 0, or is never called | strip the terminator from `[3, -1]` and pass mask 8 (bit 3) | high; not executed | Video.FallbackOnPointer, Video.FallbackOnPointerLosesRequest | Video.FallbackMask, Video.FallbackSeesRequest |

## Notes

- The default index extension is `.ffindex` (ffms2/__init__.py:89).
- The test stream's 2860032 samples are not a whole number of 480-sample chunks: 5958 chunks leave 192 samples for a final short chunk (AudioFacts.TestStreamSchedule).
- In the uneven case `len()` can promise more chunks than the iterator yields, because the long chunks of each window come first (AudioFacts.UnevenLenOvercounts). It never promises fewer (AudioFacts.LenBoundsChunks).
- On the rebuild path of `Source.__init__`, a negative track number is compared with the non-negative `track.num`. So no track is enabled (SourceResolution.EnabledTrack), although the cached path accepts negative numbers as Python indices.
