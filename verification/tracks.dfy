/**
 The pure parts of `Track` and `VideoTrack`: the keyframe list and the
 name of the side file (`.tc.txt`, `.kf.txt`) a track writes next to its
 index.
 */
module Tracks {
  import opened Types
  import opened Text
  import IndexStore

  /** The numbers of the keyframes among frames `from` onwards, in
      increasing order. */
  function KeyframesFrom(frames: seq<FrameInfo>, from: nat): (r: seq<int>)
    ensures forall i :: 0 <= i < |r| ==> from <= r[i] < |frames|
    ensures forall n :: n in r <==> from <= n < |frames| && frames[n].keyFrame
    ensures forall i, j :: 0 <= i < j < |r| ==> r[i] < r[j]
    decreases |frames| - from
  {
    if from >= |frames| then []
    else (if frames[from].keyFrame then [from] else []) + KeyframesFrom(frames, from + 1)
  }

  /** `VideoTrack.keyframes`: the frame numbers of the keyframes, in
      increasing order, each once. */
  function Keyframes(frames: seq<FrameInfo>): (r: seq<int>)
    ensures |r| <= |frames|
    ensures forall n :: n in r <==> 0 <= n < |frames| && frames[n].keyFrame
    ensures forall i, j :: 0 <= i < j < |r| ==> r[i] < r[j]
  {
    var r := KeyframesFrom(frames, 0);
    IncreasingBounded(r, |frames|);
    r
  }

  /** A strictly increasing list of numbers in [0, bound) is no longer
      than bound. */
  lemma {:induction false} IncreasingBounded(r: seq<int>, bound: nat)
    requires forall i :: 0 <= i < |r| ==> 0 <= r[i] < bound
    requires forall i, j :: 0 <= i < j < |r| ==> r[i] < r[j]
    ensures |r| <= bound
    decreases bound
  {
    if r != [] {
      var last := r[|r| - 1];
      assert forall i :: 0 <= i < |r| - 1 ==> r[i] < last;
      IncreasingBounded(r[..|r| - 1], last);
    }
  }

  /** The path the side files are named after: the index file if the
      index has a non-empty one, else the default index path of the
      source. `None + ".ffindex"` raises TypeError. */
  function SideFileBase(index: Index): (r: Result<string>)
    ensures r.Failure? <==> !Given(index.indexFile) && index.sourceFile.None?
    ensures r.Failure? ==> r.error == TypeError
    ensures Given(index.indexFile) ==> r == Success(index.indexFile.value)
    ensures !Given(index.indexFile) && index.sourceFile.Some? ==> r == Success(index.sourceFile.value + IndexExt)
  {
    if Given(index.indexFile) then Success(index.indexFile.value)
    else if index.sourceFile.Some? then Success(index.sourceFile.value + IndexExt)
    else Failure(TypeError)
  }

  /** The side files are named after the path `Index.write()` without an
      argument writes to, and both raise TypeError in the same case. */
  lemma SideFileBaseIsWritePath(index: Index, writeIndex: IndexStore.WriteOracle)
    ensures var w := IndexStore.Write(index, writeIndex, None);
            && (SideFileBase(index).Failure? <==> w.result == Failure(TypeError))
            && (SideFileBase(index).Success? ==> w.index.indexFile == Some(SideFileBase(index).value))
  {
  }

  /** `Track._get_output_file(ext)` for the track numbered `number`. */
  function OutputFile(index: Index, number: nat, ext: string): (r: Result<string>)
    ensures r.Failure? <==> SideFileBase(index).Failure?
    // the name starts with the base path and ends with the extension
    ensures r.Success? ==>
              var base := SideFileBase(index).value;
              && |r.value| >= |base| + 6 + 2 + 1 + |ext| + 4
              && r.value[..|base|] == base
              && r.value[|r.value| - |ext| - 4..] == ext + ".txt"
  {
    var base :- SideFileBase(index);
    Success(base + "_track" + Pad2(number) + "." + ext + ".txt")
  }

  /** In `p + "." + r` with p all digits, the first dot is at |p|. */
  lemma FirstDot(p: string, r: string)
    requires AllDigits(p)
    ensures (p + "." + r)[|p|] == '.'
    ensures forall i :: 0 <= i < |p| ==> (p + "." + r)[i] != '.'
  {
  }

  /** Digits cannot hide a dot: splitting at the first dot after a run of
      digits is unambiguous. */
  lemma DigitsDotSplit(p1: string, r1: string, p2: string, r2: string)
    requires AllDigits(p1) && AllDigits(p2)
    requires p1 + "." + r1 == p2 + "." + r2
    ensures p1 == p2 && r1 == r2
  {
    var t := p1 + "." + r1;
    FirstDot(p1, r1);
    FirstDot(p2, r2);
    assert |p1| == |p2|;
    assert p1 == t[..|p1|];
    assert p2 == (p2 + "." + r2)[..|p2|];
    assert r1 == t[|p1| + 1..];
    assert r2 == (p2 + "." + r2)[|p2| + 1..];
  }

  /** After the base path and `_track` comes the padded number, a dot,
      and the rest. */
  lemma OutputFileTail(index: Index, n: nat, e: string)
    requires OutputFile(index, n, e).Success?
    ensures var k := |SideFileBase(index).value| + 6;
            var s := OutputFile(index, n, e).value;
            k <= |s| && s[k..] == Pad2(n) + "." + (e + ".txt")
  {
    var base := SideFileBase(index).value;
    var s := OutputFile(index, n, e).value;
    assert s == (base + "_track") + (Pad2(n) + "." + (e + ".txt"));
  }

  /** Distinct (track number, extension) pairs of one index never share a
      side file. */
  lemma OutputFileInjective(index: Index, n1: nat, e1: string, n2: nat, e2: string)
    requires OutputFile(index, n1, e1).Success?
    requires OutputFile(index, n1, e1) == OutputFile(index, n2, e2)
    ensures n1 == n2 && e1 == e2
  {
    OutputFileTail(index, n1, e1);
    OutputFileTail(index, n2, e2);
    DigitsDotSplit(Pad2(n1), e1 + ".txt", Pad2(n2), e2 + ".txt");
    ParsePad2(n1);
    ParsePad2(n2);
    assert e1 == (e1 + ".txt")[..|e1|];
    assert e2 == (e2 + ".txt")[..|e2|];
  }

  /** The timecode and keyframe files of a track are different files. */
  lemma SideFilesDiffer(index: Index, number: nat)
    requires OutputFile(index, number, "tc").Success?
    ensures OutputFile(index, number, "tc") != OutputFile(index, number, "kf")
  {
    if OutputFile(index, number, "tc") == OutputFile(index, number, "kf") {
      OutputFileInjective(index, number, "tc", number, "kf");
    }
  }

  /** Worked example: track 1 of an index built from `a.mkv`. */
  lemma OutputFileExample()
    ensures OutputFile(Index(NativeIndex([]), None, Some("a.mkv")), 1, "kf")
            == Success("a.mkv.ffindex_track01.kf.txt")
  {
    assert Pad2(1) == "01";
    assert "a.mkv" + IndexExt == "a.mkv.ffindex";
    assert "a.mkv.ffindex" + "_track" + "01" + "." + "kf" + ".txt" == "a.mkv.ffindex_track01.kf.txt";
  }

  /** Worked example: an empty index file name counts as none. */
  lemma OutputFileEmptyIndexName()
    ensures OutputFile(Index(NativeIndex([]), Some(""), Some("a.mkv")), 12, "tc")
            == Success("a.mkv.ffindex_track12.tc.txt")
  {
    assert NatToString(12) == NatToString(1) + [DigitChar(2)];
    assert Pad2(12) == "12";
    assert "a.mkv" + IndexExt == "a.mkv.ffindex";
    assert "a.mkv.ffindex" + "_track" + "12" + "." + "tc" + ".txt" == "a.mkv.ffindex_track12.tc.txt";
  }
}
