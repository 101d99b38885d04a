/**
 * The host-side file system facade: every operation sends one program (a
 * write sends several) through the board's `Exec` and turns the printed
 * reply into a typed result. Reply decoding is given as functions, and each
 * method is proved to return what its function computes from the reply.
 */
module FileSystem {
  import opened Wrappers
  import opened Hex
  import opened Chunking
  import opened DeviceText
  import opened Remote

  /** Read and write size used by `ReadFile` and `WriteFile`. */
  const DefaultChunkSize: ChunkSize := 1024

  /**
   * A directory listing from the reply: empty on a failed call, otherwise the
   * comma-free pieces of the output, which joined with commas give the output again.
   */
  function Listing(reply: Reply): (names: seq<string>)
    ensures reply.failed ==> names == []
    ensures !reply.failed ==> |names| >= 1 && JoinComma(names) == reply.output
    ensures forall i :: 0 <= i < |names| ==> ',' !in names[i]
  {
    if reply.failed then [] else Split(reply.output)
  }

  /**
   * The file content from the reply of a hex read: the last character
   * (expected to be the `#` terminator, but not checked) is dropped and the
   * rest hex-decoded; a failed call or text that is not valid hex gives no bytes.
   * The output must not be empty when the call succeeded.
   */
  function ReadContent(reply: Reply): (content: seq<Byte>)
    requires reply.failed || |reply.output| >= 1
    ensures reply.failed ==> content == []
    ensures content != [] ==> !reply.failed && Decode(reply.output[..|reply.output| - 1]) == Some(content)
    ensures !reply.failed && Decode(reply.output[..|reply.output| - 1]).Some?
            ==> content == Decode(reply.output[..|reply.output| - 1]).value
  {
    if reply.failed then []
    else
      match Decode(reply.output[..|reply.output| - 1])
      case None => []
      case Some(bytes) => bytes
  }

  /** A size from the printed text; `-1` when it is not an integer. The failure flag is not consulted. */
  function SizeOf(output: string): (size: int)
    ensures size == -1 || ParseInt(output) == Some(size)
    ensures ParseInt(output).Some? ==> size == ParseInt(output).value
  {
    match ParseInt(output)
    case Some(n) => n
    case None => -1
  }

  /** A boolean query holds only if the device printed exactly `True`. */
  predicate IsTrue(output: string) {
    output == "True"
  }

  /** One append program per chunk, in chunk order, each carrying the chunk's hex. */
  function AppendPrograms(path: string, chunks: seq<seq<Byte>>): (programs: seq<Program>)
    ensures |programs| == |chunks|
    ensures forall i :: 0 <= i < |chunks| ==> programs[i] == AppendHexProgram(path, Encode(chunks[i]))
  {
    if chunks == [] then []
    else AppendPrograms(path, chunks[..|chunks| - 1]) + [AppendHexProgram(path, Encode(chunks[|chunks| - 1]))]
  }

  /** What a chunked write sends: one truncate, then one append per chunk. */
  function WritePrograms(path: string, data: seq<Byte>, chunkSize: ChunkSize): (programs: seq<Program>)
  {
    [TruncateProgram(path)] + AppendPrograms(path, Chunks(data, chunkSize))
  }

  /**
   * Appends one chunk to `filename`, sent as hex. The result is false exactly
   * when the call fails. Only the board behind `fileSystem` changes.
   */
  method WriteChunk(filename: string, chunk: seq<Byte>, fileSystem: PyFileSystem) returns (ok: bool)
    modifies fileSystem.pyboard
    ensures fileSystem.pyboard.board == Next(old(fileSystem.pyboard.board), AppendHexProgram(filename, Encode(chunk)))
    ensures ok == !Respond(old(fileSystem.pyboard.board), AppendHexProgram(filename, Encode(chunk))).failed
  {
    var hexChunk := Encode(chunk);
    var ret, err := fileSystem.pyboard.Exec(AppendHexProgram(filename, hexChunk));
    if err {
      return false;
    }
    return true;
  }

  class PyFileSystem {
    const pyboard: Pyboard
    var currentDir: string

    /** A session starts in the root directory. */
    constructor (pyboard: Pyboard)
      ensures this.pyboard == pyboard && currentDir == "/"
    {
      this.pyboard := pyboard;
      currentDir := "/";
    }

    method ListDir() returns (files: seq<string>)
      modifies pyboard
      ensures pyboard.board == Next(old(pyboard.board), ListDirProgram)
      ensures files == Listing(Respond(old(pyboard.board), ListDirProgram))
    {
      var out, err := pyboard.Exec(ListDirProgram);
      if err {
        return [];
      }
      return Split(out);
    }

    /** The cached directory is updated whether or not the device could change into it. */
    method ChangeDir(dir: string)
      modifies this, pyboard
      ensures currentDir == dir
      ensures pyboard.board == Next(old(pyboard.board), ChangeDirProgram(dir))
    {
      var out, err := pyboard.Exec(ChangeDirProgram(dir));
      currentDir := dir;
    }

    /** One round trip for the whole file; `chunkSize` only bounds the device's reads. */
    method ReadFileChunked(filename: string, chunkSize: int) returns (content: seq<Byte>)
      requires chunkSize >= 1
      modifies pyboard
      ensures pyboard.board == Next(old(pyboard.board), ReadHexProgram(filename, chunkSize))
      ensures content == ReadContent(Respond(old(pyboard.board), ReadHexProgram(filename, chunkSize)))
    {
      var fileContent, readErr := pyboard.Exec(ReadHexProgram(filename, chunkSize));
      if readErr {
        return [];
      }
      var proper := Decode(fileContent[..|fileContent| - 1]);
      if proper.None? {
        return [];
      }
      return proper.value;
    }

    method ReadFile(filename: string) returns (content: seq<Byte>)
      modifies pyboard
      ensures pyboard.board == Next(old(pyboard.board), ReadHexProgram(filename, DefaultChunkSize))
      ensures content == ReadContent(Respond(old(pyboard.board), ReadHexProgram(filename, DefaultChunkSize)))
    {
      content := ReadFileChunked(filename, DefaultChunkSize);
    }

    /**
     * Truncates the file, then appends `data` in slices of `chunkSize` bytes:
     * `|data| / chunkSize` full slices and then the remainder if there is one.
     * Every call's result is ignored and the answer is always true.
     */
    method WriteFileChunked(filename: string, data: seq<Byte>, chunkSize: int) returns (ok: bool)
      requires chunkSize >= 1
      modifies pyboard
      ensures ok
      ensures pyboard.board == PerformAll(old(pyboard.board), WritePrograms(filename, data, chunkSize))
    {
      var fileData := data;
      var chunkCount := |fileData| / chunkSize;
      ghost var chunks := Chunks(fileData, chunkSize);
      ghost var start := pyboard.board;

      var out, err := pyboard.Exec(TruncateProgram(filename));
      SentNone(start, filename, chunks);
      ChunkCount(fileData, chunkSize);

      for i := 0 to chunkCount
        invariant chunkCount <= |chunks|
        invariant pyboard.board == PerformAll(start, Sent(filename, chunks, i))
      {
        FullChunkAt(fileData, chunkSize, i);
        var chunk := fileData[i * chunkSize .. (i + 1) * chunkSize];
        var written := WriteChunk(filename, chunk, this);
        SentOneMore(start, filename, chunks, i);
      }

      if |fileData| % chunkSize != 0 {
        RemainderChunk(fileData, chunkSize);
        var chunk := fileData[chunkCount * chunkSize ..];
        var written := WriteChunk(filename, chunk, this);
        SentOneMore(start, filename, chunks, chunkCount);
      }
      SentAll(filename, chunks);
      return true;
    }

    method WriteFile(filename: string, data: seq<Byte>) returns (ok: bool)
      modifies pyboard
      ensures ok
      ensures pyboard.board == PerformAll(old(pyboard.board), WritePrograms(filename, data, DefaultChunkSize))
    {
      ok := WriteFileChunked(filename, data, DefaultChunkSize);
    }

    /** The failure flag is ignored: whatever the device printed is parsed. */
    method GetSize(filename: string) returns (size: int)
      modifies pyboard
      ensures pyboard.board == Next(old(pyboard.board), StatSizeProgram(filename))
      ensures size == SizeOf(Respond(old(pyboard.board), StatSizeProgram(filename)).output)
    {
      var out, err := pyboard.Exec(StatSizeProgram(filename));
      var fileSize := ParseInt(out);
      if fileSize.None? {
        return -1;
      }
      return fileSize.value;
    }

    method Exists(filename: string) returns (present: bool)
      modifies pyboard
      ensures pyboard.board == Next(old(pyboard.board), ExistsProgram(filename))
      ensures present == IsTrue(Respond(old(pyboard.board), ExistsProgram(filename)).output)
    {
      var ret, err := pyboard.Exec(ExistsProgram(filename));
      return ret == "True";
    }

    method IsDir(filename: string) returns (isDir: bool)
      modifies pyboard
      ensures pyboard.board == Next(old(pyboard.board), IsDirProgram(filename))
      ensures isDir == IsTrue(Respond(old(pyboard.board), IsDirProgram(filename)).output)
    {
      var ret, err := pyboard.Exec(IsDirProgram(filename));
      return ret == "True";
    }
  }

  /** The truncate and the appends of the first `i` chunks. */
  function Sent(path: string, chunks: seq<seq<Byte>>, i: int): (programs: seq<Program>)
    requires 0 <= i <= |chunks|
  {
    [TruncateProgram(path)] + AppendPrograms(path, chunks[..i])
  }

  lemma SentNone(start: Board, path: string, chunks: seq<seq<Byte>>)
    ensures PerformAll(start, Sent(path, chunks, 0)) == Next(start, TruncateProgram(path))
  {
    assert Sent(path, chunks, 0) == [TruncateProgram(path)];
    assert Sent(path, chunks, 0)[..0] == [];
  }

  lemma SentOneMore(start: Board, path: string, chunks: seq<seq<Byte>>, i: int)
    requires 0 <= i < |chunks|
    ensures PerformAll(start, Sent(path, chunks, i + 1))
         == Next(PerformAll(start, Sent(path, chunks, i)), AppendHexProgram(path, Encode(chunks[i])))
  {
    var before := Sent(path, chunks, i);
    var after := Sent(path, chunks, i + 1);
    assert chunks[..i + 1][..i] == chunks[..i];
    assert after == before + [AppendHexProgram(path, Encode(chunks[i]))];
    assert after[..|after| - 1] == before;
  }

  lemma SentAll(path: string, chunks: seq<seq<Byte>>)
    ensures Sent(path, chunks, |chunks|) == [TruncateProgram(path)] + AppendPrograms(path, chunks)
  {
    assert chunks[..|chunks|] == chunks;
  }
}
