/**
 `Index.read` and `Index.write`: where an index file is looked for or
 written, and the checks `read` makes, in order, before and after the
 native reader runs.

 The file system is a map from path to file size. The native reader,
 the source-file check and the native writer are oracle parameters.
 */
module IndexStore {
  import opened Types

  /** Regular files present on disk, with their sizes in bytes. */
  type FileSystem = map<string, nat>

  /** FFMS_ReadIndex on a path; None is NULL. */
  type ReadOracle = string -> Option<NativeIndex>

  /** FFMS_IndexBelongsToFile(index, source) == 0. */
  type BelongsOracle = (NativeIndex, string) -> bool

  /** FFMS_WriteIndex(path, index): 0 on success. */
  type WriteOracle = (string, NativeIndex) -> int

  /** Files shorter than this cannot hold an index header and are
      refused without calling the native reader. */
  const MinIndexFileSize: nat := 76

  /** The path `read` opens: the index file when one is given, else the
      default path next to the source file. */
  function ReadPath(indexFile: Option<string>, sourceFile: Option<string>): (r: Result<string>)
    ensures r.Failure? <==> !Given(indexFile) && !Given(sourceFile)
    ensures r.Failure? ==> r.error.ValueError?
    ensures Given(indexFile) ==> r == Success(indexFile.value)
    ensures !Given(indexFile) && Given(sourceFile) ==> r == Success(sourceFile.value + IndexExt)
    ensures r.Success? ==> r.value != ""
  {
    if Given(indexFile) then Success(indexFile.value)
    else if !Given(sourceFile) then Failure(ValueError("must provide either index file or source file"))
    else Success(sourceFile.value + IndexExt)
  }

  /** `Index.read(index_file, source_file)`. */
  function Read(fs: FileSystem, readIndex: ReadOracle, belongs: BelongsOracle,
                indexFile: Option<string>, sourceFile: Option<string>): (r: Result<Index>)
    // 1. neither path given
    ensures ReadPath(indexFile, sourceFile).Failure? ==> r == Failure(ReadPath(indexFile, sourceFile).error)
    // 2. no such file
    ensures ReadPath(indexFile, sourceFile).Success? && ReadPath(indexFile, sourceFile).value !in fs ==>
              r == Failure(Ffms(NoIndexFile(ReadPath(indexFile, sourceFile).value)))
    // 3. too short to be an index
    ensures ReadPath(indexFile, sourceFile).Success? && ReadPath(indexFile, sourceFile).value in fs
            && fs[ReadPath(indexFile, sourceFile).value] < MinIndexFileSize ==>
              r == Failure(Ffms(BadIndexFile(ReadPath(indexFile, sourceFile).value)))
    // a successful read went through every check
    ensures r.Success? ==>
              var path := ReadPath(indexFile, sourceFile).value;
              && path in fs && fs[path] >= MinIndexFileSize
              && readIndex(path) == Some(r.value.native)
              && (Given(sourceFile) ==> belongs(r.value.native, sourceFile.value))
              && r.value.indexFile == Some(path) && r.value.sourceFile == sourceFile
    // 4. native failure, 5. wrong source, after the file checks passed
    ensures ReadPath(indexFile, sourceFile).Success? ==>
              var path := ReadPath(indexFile, sourceFile).value;
              path in fs && fs[path] >= MinIndexFileSize ==>
                && (readIndex(path).None? ==> r == Failure(Ffms(Native)))
                && (readIndex(path).Some? ==>
                      (r == Failure(Ffms(WrongSourceFile)) <==> Given(sourceFile) && !belongs(readIndex(path).value, sourceFile.value)))
    // every check passed: the index read, with the path opened and the source file given
    ensures ReadPath(indexFile, sourceFile).Success? ==>
              var path := ReadPath(indexFile, sourceFile).value;
              path in fs && fs[path] >= MinIndexFileSize && readIndex(path).Some?
              && (Given(sourceFile) ==> belongs(readIndex(path).value, sourceFile.value)) ==>
                r == Success(Index(readIndex(path).value, Some(path), sourceFile))
  {
    var path :- ReadPath(indexFile, sourceFile);
    if path !in fs then Failure(Ffms(NoIndexFile(path)))
    else if fs[path] < MinIndexFileSize then Failure(Ffms(BadIndexFile(path)))
    else
      match readIndex(path)
      case None => Failure(Ffms(Native))
      case Some(n) =>
        if Given(sourceFile) && !belongs(n, sourceFile.value) then Failure(Ffms(WrongSourceFile))
        else Success(Index(n, Some(path), sourceFile))
  }

  /** A missing or short file is refused before the native reader runs:
      the outcome does not depend on what the reader or the source check
      would have said. */
  lemma GuardsPrecedeNativeRead(fs: FileSystem, read1: ReadOracle, read2: ReadOracle,
                                belongs1: BelongsOracle, belongs2: BelongsOracle,
                                indexFile: Option<string>, sourceFile: Option<string>)
    requires ReadPath(indexFile, sourceFile).Success? ==>
               var path := ReadPath(indexFile, sourceFile).value;
               path !in fs || fs[path] < MinIndexFileSize
    ensures Read(fs, read1, belongs1, indexFile, sourceFile) == Read(fs, read2, belongs2, indexFile, sourceFile)
    ensures Read(fs, read1, belongs1, indexFile, sourceFile).Failure?
  {
  }

  /** Without a source file the index is never checked against one. */
  lemma NoSourceNoCheck(fs: FileSystem, readIndex: ReadOracle, belongs1: BelongsOracle, belongs2: BelongsOracle,
                        indexFile: Option<string>, sourceFile: Option<string>)
    requires !Given(sourceFile)
    ensures Read(fs, readIndex, belongs1, indexFile, sourceFile) == Read(fs, readIndex, belongs2, indexFile, sourceFile)
  {
  }

  /** What `write` leaves behind: the index with its updated `index_file`
      and either the path written or the exception raised. */
  datatype Written = Written(index: Index, result: Result<string>)

  /** `index.write(index_file)`. The chosen path is stored on the index
      before the native writer runs, so it is kept even when the writer
      fails. */
  function Write(idx: Index, writeIndex: WriteOracle, indexFile: Option<string>): (w: Written)
    // an explicit path wins and is remembered
    ensures Given(indexFile) ==> w.index == idx.(indexFile := indexFile)
    // otherwise a remembered path is kept
    ensures !Given(indexFile) && Given(idx.indexFile) ==> w.index == idx
    // otherwise the default path next to the source; `None + ".ffindex"` raises TypeError
    ensures !Given(indexFile) && !Given(idx.indexFile) && idx.sourceFile.None? ==> w == Written(idx, Failure(TypeError))
    ensures !Given(indexFile) && !Given(idx.indexFile) && idx.sourceFile.Some? ==>
              w.index == idx.(indexFile := Some(idx.sourceFile.value + IndexExt))
    // TypeError is raised exactly when there is no path to write to
    ensures w.result == Failure(TypeError) <==> !Given(indexFile) && !Given(idx.indexFile) && idx.sourceFile.None?
    // the native writer writes the path now stored; only a non-zero status raises
    ensures w.result != Failure(TypeError) ==>
              && w.index.indexFile.Some? && w.index.native == idx.native && w.index.sourceFile == idx.sourceFile
              && Given(w.index.indexFile)
              && (w.result.Success? <==> writeIndex(w.index.indexFile.value, idx.native) == 0)
              && (w.result.Success? ==> w.result.value == w.index.indexFile.value)
              && (w.result.Failure? ==> w.result.error == Ffms(Native))
  {
    var target :=
      if Given(indexFile) then indexFile
      else if Given(idx.indexFile) then idx.indexFile
      else if idx.sourceFile.Some? then Some(idx.sourceFile.value + IndexExt)
      else None;
    match target
    case None => Written(idx, Failure(TypeError))
    case Some(path) =>
      var idx' := idx.(indexFile := target);
      if writeIndex(path, idx.native) != 0 then Written(idx', Failure(Ffms(Native)))
      else Written(idx', Success(path))
  }

  /** A second `write()` without a path targets the file the first one
      chose, whether the first one succeeded or not. */
  lemma WriteAgainSamePath(idx: Index, write1: WriteOracle, write2: WriteOracle, indexFile: Option<string>)
    requires Write(idx, write1, indexFile).result != Failure(TypeError)
    ensures var first := Write(idx, write1, indexFile);
            var second := Write(first.index, write2, None);
            && second.index == first.index
            && second.result != Failure(TypeError)
  {
  }

  /** Without an explicit path, `read` and `write` agree on where the
      index of a source file lives. */
  lemma DefaultPathsAgree(n: NativeIndex, source: string, writeIndex: WriteOracle)
    requires source != ""
    ensures Write(Index(n, None, Some(source)), writeIndex, None).index.indexFile
            == Some(ReadPath(None, Some(source)).value)
  {
  }

  /** Reading back a written index: if the file now on disk is large
      enough, the native reader returns what was written and the index
      belongs to its source, then `read` with the written path and the
      index's source file yields the index `write` left behind. */
  lemma WriteThenRead(idx: Index, writeIndex: WriteOracle, indexFile: Option<string>,
                      fs: FileSystem, readIndex: ReadOracle, belongs: BelongsOracle)
    requires Write(idx, writeIndex, indexFile).result.Success?
    requires var path := Write(idx, writeIndex, indexFile).result.value;
             && path in fs && fs[path] >= MinIndexFileSize
             && readIndex(path) == Some(idx.native)
             && (Given(idx.sourceFile) ==> belongs(idx.native, idx.sourceFile.value))
    ensures var w := Write(idx, writeIndex, indexFile);
            Read(fs, readIndex, belongs, w.index.indexFile, idx.sourceFile) == Success(w.index)
  {
  }
}
