/**
 The decisions `VideoSource` makes around the native calls: the one
 retry of `get_frame` / `get_frame_by_time`, the defaults and the
 terminator of `set_output_format`, and the pre-2.16 fallback that should
 turn the terminated list back into a bit mask.

 The fallback is modelled twice. `FallbackMask` is the intended
 behaviour on the format list. `FallbackOnPointer` is what the binding
 actually hands the fallback: `set_output_format` converts the list into
 a C `int` array and passes a pointer to it.
 */
module Video {
  import opened Types
  import opened Masks

  // ---------------------------------------------------------------------
  // get_frame / get_frame_by_time

  /** The outcome of a retried native call and how many native calls it
      took. */
  datatype Attempt<T> = Attempt(calls: nat, result: Result<T>)

  /** `get_frame(n)` and `get_frame_by_time(t)`: the native call is made,
      and made once more if it returned NULL. `native(k)` is what the k-th
      call (counting from 0) returns for the same argument; the native
      decoder may answer differently on a second try. */
  function WithRetry<T>(native: nat -> Option<T>): (a: Attempt<T>)
    ensures 1 <= a.calls <= 2
    // the second call happens only after the first one failed
    ensures a.calls == 2 <==> native(0).None?
    // an error is raised only when both calls failed
    ensures a.result.Failure? <==> native(0).None? && native(1).None?
    ensures a.result.Failure? ==> a.result.error == Ffms(Native)
    // a frame returned is the one the last call made produced
    ensures a.result.Success? ==> Some(a.result.value) == native(a.calls - 1)
  {
    match native(0)
    case Some(f) => Attempt(1, Success(f))
    case None =>
      match native(1)
      case Some(f) => Attempt(2, Success(f))
      case None => Attempt(2, Failure(Ffms(Native)))
  }

  // ---------------------------------------------------------------------
  // FFMS_SetOutputFormatV2 fallback

  /** The fallback's loop on a list: while the list is non-empty and its
      last entry is negative, the last entry is dropped. */
  function StripTrailingNegatives(xs: seq<int>): (r: seq<int>)
    ensures |r| <= |xs| && r == xs[..|r|]
    ensures r == [] || r[|r| - 1] >= 0
    ensures forall i :: |r| <= i < |xs| ==> xs[i] < 0
    decreases |xs|
  {
    if |xs| > 0 && xs[|xs| - 1] < 0 then StripTrailingNegatives(xs[..|xs| - 1]) else xs
  }

  /** The cut `StripTrailingNegatives` makes is the only one with those
      three properties: it removes the whole negative tail and nothing
      more. */
  lemma StripUnique(xs: seq<int>, k: nat)
    requires k <= |xs|
    requires k == 0 || xs[k - 1] >= 0
    requires forall i :: k <= i < |xs| ==> xs[i] < 0
    ensures StripTrailingNegatives(xs) == xs[..k]
  {
    var r := StripTrailingNegatives(xs);
    assert k >= 1 ==> xs[k - 1] >= 0;
    assert |r| >= 1 ==> xs[|r| - 1] == r[|r| - 1];
    assert |r| == k;
  }

  /** The mask the pre-2.16 fallback is meant to hand to
      FFMS_SetOutputFormatV: the terminator stripped from the format
      list, the rest turned into a mask. */
  function FallbackMask(formats: seq<int>): (r: Result<nat>)
    ensures r.Failure? <==> exists i :: 0 <= i < |StripTrailingNegatives(formats)|
                                      && StripTrailingNegatives(formats)[i] < 0
    ensures r.Success? ==> forall n: nat :: Bit(r.value, n) <==> n in StripTrailingNegatives(formats)
  {
    ListToMask(StripTrailingNegatives(formats))
  }

  /** The index of the first negative entry of a terminated cells. */
  function FirstNegative(cells: seq<int>): (k: nat)
    requires cells != [] && cells[|cells| - 1] < 0
    ensures k < |cells| && cells[k] < 0
    ensures forall i :: 0 <= i < k ==> cells[i] >= 0
    decreases |cells|
  {
    if cells[0] < 0 then 0 else 1 + FirstNegative(cells[1..])
  }

  /** The fallback as it runs on what `set_output_format` passes: a
      ctypes pointer to the C array `cells`, whose last entry is the
      negative terminator. `before` is the int stored just before the
      cells, which `target_formats[-1]` reads.

      A pointer is truthy, and indexing it is unchecked. If `before` is
      negative, the slice `[:-1]` of a pointer is the empty list, so the
      loop stops there and the mask is 0. Otherwise the loop stops at
      once, and the fold of `list_to_mask` walks the pointer entry by
      entry: it reaches the terminator, and `1 << b` with a negative b
      raises ValueError before anything past the cells is read. */
  function FallbackOnPointer(before: int, cells: seq<int>): (r: Result<nat>)
    requires cells != [] && cells[|cells| - 1] < 0
    ensures before < 0 ==> r == Success(0)
    ensures before >= 0 ==> r == Failure(ValueError("negative shift count"))
  {
    if before < 0 then ListToMask([])
    else ListToMask(cells[..FirstNegative(cells) + 1])
  }

  // ---------------------------------------------------------------------
  // set_output_format

  /** The fields of frame 0 that `set_output_format` reads. */
  datatype FrameProps = FrameProps(
    convertedPixelFormat: int, encodedPixelFormat: int,
    scaledWidth: int, encodedWidth: int,
    scaledHeight: int, encodedHeight: int)

  /** The `target_formats` argument: omitted, an int bit mask, or a list. */
  datatype Formats = DefaultFormats | MaskFormats(mask: int) | ListFormats(list: seq<int>)

  /** The format list before termination. */
  function RequestedFormats(frame: FrameProps, target: Formats): (r: seq<int>)
    ensures target.DefaultFormats? ==>
              && |r| == 1
              // the converted format when the frame has one, else the encoded one
              && (frame.convertedPixelFormat > 0 ==> r[0] == frame.convertedPixelFormat)
              && (frame.convertedPixelFormat <= 0 ==> r[0] == frame.encodedPixelFormat)
    ensures target.MaskFormats? ==> r == MaskToList(target.mask, 64)
    ensures target.ListFormats? ==> r == target.list
  {
    match target
    case DefaultFormats =>
      [if frame.convertedPixelFormat > 0 then frame.convertedPixelFormat else frame.encodedPixelFormat]
    case MaskFormats(m) => MaskToList(m, 64)
    case ListFormats(l) => l
  }

  /** What `set_output_format` passes to the native call. */
  datatype OutputRequest = OutputRequest(formats: seq<int>, width: int, height: int)

  /** The scaled size if positive, else the encoded size. */
  function DefaultSize(scaled: int, encoded: int): int
  {
    if scaled > 0 then scaled else encoded
  }

  /** The list with a `-1` appended unless it already ends negative. */
  function Terminated(req: seq<int>): (f: seq<int>)
    requires req != []
    ensures |req| <= |f| <= |req| + 1 && f[..|req|] == req
    ensures f[|f| - 1] < 0
    ensures |f| == |req| <==> req[|req| - 1] < 0
  {
    if req[|req| - 1] >= 0 then req + [-1] else req
  }

  /** The arguments of FFMS_SetOutputFormatV2 after defaulting. An empty
      list (or a mask with no bit below 64) makes `target_formats[-1]`
      raise IndexError. */
  function OutputSettings(frame: FrameProps, target: Formats, width: Option<int>, height: Option<int>)
    : (r: Result<OutputRequest>)
    ensures r.Failure? <==> RequestedFormats(frame, target) == []
    ensures r.Failure? ==> r.error == IndexError
    // the requested formats come first, and the list handed over is
    // terminated by a negative entry, added only when missing
    ensures r.Success? ==>
              var req := RequestedFormats(frame, target);
              && |req| <= |r.value.formats| <= |req| + 1
              && r.value.formats[..|req|] == req
              && r.value.formats[|r.value.formats| - 1] < 0
              && (|r.value.formats| == |req| <==> req[|req| - 1] < 0)
    ensures r.Success? ==> r.value.width == (if width.Some? then width.value else DefaultSize(frame.scaledWidth, frame.encodedWidth))
    ensures r.Success? ==> r.value.height == (if height.Some? then height.value else DefaultSize(frame.scaledHeight, frame.encodedHeight))
  {
    var req := RequestedFormats(frame, target);
    if req == [] then Failure(IndexError)
    else
      var formats := Terminated(req);
      var w := if width.Some? then width.value else DefaultSize(frame.scaledWidth, frame.encodedWidth);
      var h := if height.Some? then height.value else DefaultSize(frame.scaledHeight, frame.encodedHeight);
      Success(OutputRequest(formats, w, h))
  }

  /** `set_output_format(...)`: frame 0 is fetched first (with its retry),
      then the defaulted request is handed to the native call, whose
      non-zero status raises. On success the request is returned. */
  function SetOutputFormat(frame0: Result<FrameProps>, target: Formats, width: Option<int>, height: Option<int>,
                           nativeStatus: OutputRequest -> int): (r: Result<OutputRequest>)
    ensures frame0.Failure? ==> r == Failure(frame0.error)
    ensures frame0.Success? ==>
              match OutputSettings(frame0.value, target, width, height)
              case Failure(e) => r == Failure(e)
              case Success(req) => r.Success? <==> nativeStatus(req) == 0
    ensures r.Success? ==> frame0.Success? && OutputSettings(frame0.value, target, width, height) == r
  {
    var frame :- frame0;
    var req :- OutputSettings(frame, target, width, height);
    if nativeStatus(req) != 0 then Failure(Ffms(Native)) else Success(req)
  }

  /** Intended behaviour: the terminator `set_output_format` appends is
      exactly what the fallback strips from the list, so for
      non-negative formats the fallback computes the mask of the
      requested formats. */
  lemma FallbackSeesRequest(frame: FrameProps, target: Formats, width: Option<int>, height: Option<int>)
    requires OutputSettings(frame, target, width, height).Success?
    requires NonNegative(RequestedFormats(frame, target))
    ensures FallbackMask(OutputSettings(frame, target, width, height).value.formats)
            == ListToMask(RequestedFormats(frame, target))
    ensures FallbackMask(OutputSettings(frame, target, width, height).value.formats).Success?
  {
    var req := RequestedFormats(frame, target);
    assert OutputSettings(frame, target, width, height).value.formats == Terminated(req);
    StripTerminated(req);
  }

  /** Stripping undoes the termination of a list that ends non-negative. */
  lemma StripTerminated(req: seq<int>)
    requires req != [] && req[|req| - 1] >= 0
    ensures StripTrailingNegatives(Terminated(req)) == req
  {
    var f := Terminated(req);
    assert f == req + [-1];
    StripUnique(f, |req|);
    assert f[..|req|] == req;
  }

  /** Intended behaviour: a mask argument, listed and terminated by
      `set_output_format`, comes out of the list fallback unchanged, up
      to bit 63. */
  lemma FallbackMaskRoundTrip(frame: FrameProps, m: nat, width: Option<int>, height: Option<int>)
    requires 0 < m < Pow2(64)
    ensures OutputSettings(frame, MaskFormats(m), width, height).Success?
    ensures FallbackMask(OutputSettings(frame, MaskFormats(m), width, height).value.formats) == Success(m)
  {
    MaskHasBits(m);
    assert RequestedFormats(frame, MaskFormats(m)) == MaskToList(m, 64);
    FallbackSeesRequest(frame, MaskFormats(m), width, height);
    MaskRoundTrip(m);
  }

  /** A non-zero 64-bit mask lists at least one format. */
  lemma MaskHasBits(m: nat)
    requires 0 < m < Pow2(64)
    ensures MaskToList(m, 64) != []
  {
    MaskRoundTrip(m);
    assert ListToMask([]) == Success(0);
  }

  /** As written, the request never reaches FFMS_SetOutputFormatV: for
      any non-negative request, whatever int precedes the array, the
      fallback on the pointer either raises or passes the empty mask, and
      so differs from the intended mask of the requested formats. */
  lemma FallbackOnPointerLosesRequest(frame: FrameProps, target: Formats, width: Option<int>, height: Option<int>,
                                      before: int)
    requires OutputSettings(frame, target, width, height).Success?
    requires NonNegative(RequestedFormats(frame, target))
    ensures FallbackOnPointer(before, OutputSettings(frame, target, width, height).value.formats)
            != FallbackMask(OutputSettings(frame, target, width, height).value.formats)
  {
    var req := RequestedFormats(frame, target);
    assert OutputSettings(frame, target, width, height).value.formats == Terminated(req);
    PointerLosesList(before, req);
  }

  /** The same on a plain list of non-negative formats. */
  lemma PointerLosesList(before: int, req: seq<int>)
    requires req != [] && NonNegative(req)
    ensures FallbackOnPointer(before, Terminated(req)) != FallbackMask(Terminated(req))
  {
    StripTerminated(req);
    assert FallbackMask(Terminated(req)) == ListToMask(req);
    assert req[0] in req;
    PointerNeverMasks(before, Terminated(req), req[0]);
  }

  /** Whenever the list fallback would set some bit, the fallback on the
      pointer does not produce that mask. */
  lemma PointerNeverMasks(before: int, cells: seq<int>, n: nat)
    requires cells != [] && cells[|cells| - 1] < 0
    requires FallbackMask(cells).Success? && Bit(FallbackMask(cells).value, n)
    ensures FallbackOnPointer(before, cells) != FallbackMask(cells)
  {
    if before < 0 {
      NotEmptyMask(FallbackMask(cells).value, n);
    }
  }

  /** A mask with some bit set is not 0. */
  lemma NotEmptyMask(m: nat, n: nat)
    requires Bit(m, n)
    ensures m != 0
  {
    if m == 0 {
      BitZero(n);
    }
  }

  /** The list `[3]`: the intended fallback passes the mask 8 (bit 3);
      the fallback on the pointer passes 0 or raises ValueError. */
  lemma FallbackOnPointerExample(before: int)
    ensures OutputSettings(FrameProps(0, 0, 0, 0, 0, 0), ListFormats([3]), None, None).Success?
    ensures OutputSettings(FrameProps(0, 0, 0, 0, 0, 0), ListFormats([3]), None, None).value.formats == [3, -1]
    ensures FallbackMask([3, -1]) == Success(8)
    ensures FallbackOnPointer(before, [3, -1]) in {Success(0), Failure(ValueError("negative shift count"))}
  {
    StripUnique([3, -1], 1);
    assert SetBits(0, [3]) == 8 by {
      assert Pow2(3) == 8;
      assert BitOr(0, 8) == 8;
    }
  }
}
