/**
 * What the chunked transfer achieves on the device: the file after a write,
 * with and without failed calls, what a read, a size query or a boolean
 * query returns, and a write followed by a read at the level of the facade.
 */
module Transfer {
  import opened Wrappers
  import opened Hex
  import opened Chunking
  import opened DeviceText
  import opened Remote
  import opened FileSystem

  /** The bytes of the chunks whose append call, numbered from `first`, was not faulted. */
  function Survivors(chunks: seq<seq<Byte>>, first: nat, faults: set<nat>): (kept: seq<Byte>)
  {
    if chunks == [] then []
    else
      var n := |chunks|;
      Survivors(chunks[..n - 1], first, faults) + (if first + n - 1 in faults then [] else chunks[n - 1])
  }

  /** Every call in `[first, first + n)` fails exactly when it is call `first + j`. */
  predicate OnlyFaultAt(faults: set<nat>, first: nat, n: nat, j: nat) {
    forall i :: first <= i < first + n ==> (i in faults <==> i == first + j)
  }

  /**
   * An append carrying a chunk's hex fails only when the call is faulted or
   * the path is a directory: the device always decodes the hex.
   */
  lemma AppendFailsOnlyOnFault(b: Board, path: string, chunk: seq<Byte>)
    ensures Respond(b, AppendHexProgram(path, Encode(chunk))).failed <==> |b.log| in b.faults || path in b.dirs
  {
    DecodeEncode(chunk);
  }

  /** One append of a chunk's hex: a faulted call changes no file, otherwise the chunk is appended to the file. */
  lemma PerformAppendChunk(b: Board, path: string, chunk: seq<Byte>, faulted: bool)
    requires path in b.files && path !in b.dirs && faulted == (|b.log| in b.faults)
    ensures Next(b, AppendHexProgram(path, Encode(chunk))).files
         == b.files[path := b.files[path] + (if faulted then [] else chunk)]
    ensures Next(b, AppendHexProgram(path, Encode(chunk))).cwd == b.cwd
  {
    DecodeEncode(chunk);
    if faulted {
      assert b.files[path] + [] == b.files[path];
      assert b.files[path := b.files[path]] == b.files;
    }
  }

  /** The board after the appends of `chunks`, one per chunk, in order. */
  function AppendAll(b: Board, path: string, chunks: seq<seq<Byte>>): (b': Board)
    ensures |b'.log| == |b.log| + |chunks| && b'.faults == b.faults && b'.dirs == b.dirs
    decreases |chunks|
  {
    if chunks == [] then b
    else Next(AppendAll(b, path, chunks[..|chunks| - 1]), AppendHexProgram(path, Encode(chunks[|chunks| - 1])))
  }

  /** Running the append programs of a write is `AppendAll`. */
  lemma {:induction false} PerformAppends(b: Board, path: string, chunks: seq<seq<Byte>>)
    ensures PerformAll(b, AppendPrograms(path, chunks)) == AppendAll(b, path, chunks)
    decreases |chunks|
  {
    if chunks != [] {
      PerformAppends(b, path, chunks[..|chunks| - 1]);
      AppendStep(b, path, chunks);
    }
  }

  /**
   * The appends of a write extend an existing file by the chunks whose call
   * succeeded, in order, skipping failed ones; no other file and not the
   * working directory change.
   */
  lemma {:induction false} AppendsExtend(b: Board, path: string, chunks: seq<seq<Byte>>)
    requires path in b.files && path !in b.dirs
    ensures AppendAll(b, path, chunks).files == b.files[path := b.files[path] + Survivors(chunks, |b.log|, b.faults)]
    ensures AppendAll(b, path, chunks).cwd == b.cwd
    decreases |chunks|
  {
    var n := |chunks|;
    if n == 0 {
      assert b.files[path] + [] == b.files[path];
      assert b.files[path := b.files[path]] == b.files;
    } else {
      var init := chunks[..n - 1];
      var mid := AppendAll(b, path, init);
      var faulted := |b.log| + n - 1 in b.faults;
      AppendsExtend(b, path, init);
      PerformAppendChunk(mid, path, chunks[n - 1], faulted);
      SurvivorsLast(chunks, |b.log|, b.faults);
      ExtendTwice(b, mid, AppendAll(b, path, chunks), path, Survivors(init, |b.log|, b.faults),
                  if faulted then [] else chunks[n - 1]);
    }
  }

  /**
   * The appends of non-empty chunks to a missing file: the file stays missing
   * while every call is faulted, and the first append that goes through creates it,
   * so it ends up holding exactly the chunks that went through.
   */
  lemma {:induction false} AppendsCreate(b: Board, path: string, chunks: seq<seq<Byte>>)
    requires path !in b.files && path !in b.dirs && forall i :: 0 <= i < |chunks| ==> chunks[i] != []
    ensures var kept := Survivors(chunks, |b.log|, b.faults);
      AppendAll(b, path, chunks).files == if kept == [] then b.files else b.files[path := kept]
    ensures AppendAll(b, path, chunks).cwd == b.cwd
    decreases |chunks|
  {
    var n := |chunks|;
    if n > 0 {
      var init := chunks[..n - 1];
      var mid := AppendAll(b, path, init);
      var faulted := |b.log| + n - 1 in b.faults;
      var last := if faulted then [] else chunks[n - 1];
      var earlier := Survivors(init, |b.log|, b.faults);
      AppendsCreate(b, path, init);
      SurvivorsLast(chunks, |b.log|, b.faults);
      assert AppendAll(b, path, chunks) == Next(mid, AppendHexProgram(path, Encode(chunks[n - 1])));
      if earlier == [] {
        assert mid.files == b.files;
        AppendToMissing(mid, path, chunks[n - 1], faulted);
        assert chunks[n - 1] != [];
        assert Survivors(chunks, |b.log|, b.faults) == last;
      } else {
        assert mid.files == b.files[path := earlier];
        PerformAppendChunk(mid, path, chunks[n - 1], faulted);
        UpdateTwice(b.files, path, earlier, earlier + last);
      }
    }
  }

  /** One append of a chunk's hex to a missing file creates it with the chunk, unless the call is faulted. */
  lemma AppendToMissing(b: Board, path: string, chunk: seq<Byte>, faulted: bool)
    requires path !in b.files && path !in b.dirs && faulted == (|b.log| in b.faults)
    ensures Next(b, AppendHexProgram(path, Encode(chunk))).files == if faulted then b.files else b.files[path := chunk]
    ensures Next(b, AppendHexProgram(path, Encode(chunk))).cwd == b.cwd
  {
    DecodeEncode(chunk);
    assert [] + chunk == chunk;
  }

  lemma SurvivorsLast(chunks: seq<seq<Byte>>, first: nat, faults: set<nat>)
    requires |chunks| >= 1
    ensures Survivors(chunks, first, faults)
         == Survivors(chunks[..|chunks| - 1], first, faults)
            + (if first + |chunks| - 1 in faults then [] else chunks[|chunks| - 1])
  {
  }

  /** Extending the same file twice is extending it once by both pieces. */
  lemma ExtendTwice(b: Board, mid: Board, after: Board, path: string, more: seq<Byte>, last: seq<Byte>)
    requires path in b.files && mid.files == b.files[path := b.files[path] + more] && mid.cwd == b.cwd
    requires after.files == mid.files[path := mid.files[path] + last] && after.cwd == mid.cwd
    ensures after.files == b.files[path := b.files[path] + (more + last)] && after.cwd == b.cwd
  {
    assert b.files[path] + more + last == b.files[path] + (more + last);
  }

  lemma AppendStep(b: Board, path: string, chunks: seq<seq<Byte>>)
    requires |chunks| >= 1
    ensures PerformAll(b, AppendPrograms(path, chunks))
         == Next(PerformAll(b, AppendPrograms(path, chunks[..|chunks| - 1])),
                    AppendHexProgram(path, Encode(chunks[|chunks| - 1])))
  {
    var programs := AppendPrograms(path, chunks);
    assert programs[..|programs| - 1] == AppendPrograms(path, chunks[..|chunks| - 1]);
  }

  lemma {:induction false} SurvivorsReliable(chunks: seq<seq<Byte>>, first: nat, faults: set<nat>)
    requires forall i :: first <= i < first + |chunks| ==> i !in faults
    ensures Survivors(chunks, first, faults) == Flatten(chunks)
    decreases |chunks|
  {
    if chunks != [] {
      SurvivorsReliable(chunks[..|chunks| - 1], first, faults);
    }
  }

  lemma {:induction false} SurvivorsSkipOne(chunks: seq<seq<Byte>>, first: nat, faults: set<nat>, j: nat)
    requires j < |chunks| && OnlyFaultAt(faults, first, |chunks|, j)
    ensures Survivors(chunks, first, faults) == Flatten(chunks[..j]) + Flatten(chunks[j + 1..])
    decreases |chunks|
  {
    var n := |chunks|;
    var init := chunks[..n - 1];
    if j == n - 1 {
      SurvivorsReliable(init, first, faults);
      assert chunks[..j] == init && chunks[j + 1..] == [];
    } else {
      SurvivorsSkipOne(init, first, faults, j);
      var tail := chunks[j + 1..];
      assert init[..j] == chunks[..j];
      assert tail[..|tail| - 1] == init[j + 1..];
      assert tail[|tail| - 1] == chunks[n - 1];
    }
  }

  /** The programs of a write, numbered from 1 after the truncate, are the appends of the chunks. */
  lemma WriteSplit(b: Board, path: string, data: seq<Byte>, chunkSize: ChunkSize)
    ensures PerformAll(b, WritePrograms(path, data, chunkSize))
         == PerformAll(Next(b, TruncateProgram(path)), AppendPrograms(path, Chunks(data, chunkSize)))
  {
    var appends := AppendPrograms(path, Chunks(data, chunkSize));
    PerformAllAppend(b, [TruncateProgram(path)], appends);
    assert [TruncateProgram(path)][..0] == [];
  }

  /**
   * The shape of a write: one truncate first, then one append per chunk in
   * order, ceil(|data| / chunkSize) of them; empty data sends the truncate only.
   */
  lemma WritePlan(path: string, data: seq<Byte>, chunkSize: ChunkSize)
    ensures var programs := WritePrograms(path, data, chunkSize);
      && |programs| == 1 + (|data| + chunkSize - 1) / chunkSize
      && programs[0] == TruncateProgram(path)
      && (forall i :: 1 <= i < |programs| ==> programs[i] == AppendHexProgram(path, Encode(Chunks(data, chunkSize)[i - 1])))
      && (data == [] ==> programs == [TruncateProgram(path)])
  {
    ChunkCount(data, chunkSize);
  }

  /**
   * The truncate of a write: unless the call fails, the file is emptied; a
   * failed truncate leaves the file as it was. Only that file can change.
   */
  lemma TruncateStep(b: Board, path: string)
    requires path !in b.dirs && (path in b.files || |b.log| !in b.faults)
    ensures var t := Next(b, TruncateProgram(path));
      && path in t.files
      && t.files[path] == (if |b.log| in b.faults then b.files[path] else [])
      && t.files == b.files[path := t.files[path]]
      && t.cwd == b.cwd
  {
    if |b.log| in b.faults {
      assert b.files[path := b.files[path]] == b.files;
    }
  }

  /**
   * The file after a write: what the truncate left (nothing, or the old
   * content when the truncate failed), followed by the chunks whose append
   * went through. When the file was missing and the truncate failed, the
   * file holds just those chunks, and stays missing if there are none. No
   * other file and not the working directory change.
   */
  lemma WriteResult(b: Board, path: string, data: seq<Byte>, chunkSize: ChunkSize)
    requires path !in b.dirs
    ensures var kept := Survivors(Chunks(data, chunkSize), |b.log| + 1, b.faults);
      path in b.files || |b.log| !in b.faults ==>
        PerformAll(b, WritePrograms(path, data, chunkSize)).files
          == b.files[path := (if |b.log| in b.faults then b.files[path] else []) + kept]
    ensures var kept := Survivors(Chunks(data, chunkSize), |b.log| + 1, b.faults);
      path !in b.files && |b.log| in b.faults ==>
        PerformAll(b, WritePrograms(path, data, chunkSize)).files
          == if kept == [] then b.files else b.files[path := kept]
    ensures PerformAll(b, WritePrograms(path, data, chunkSize)).cwd == b.cwd
  {
    var chunks := Chunks(data, chunkSize);
    var t := Next(b, TruncateProgram(path));
    WriteSplit(b, path, data, chunkSize);
    PerformAppends(t, path, chunks);
    if path in b.files || |b.log| !in b.faults {
      TruncateStep(b, path);
      AppendsExtend(t, path, chunks);
      UpdateTwice(b.files, path, t.files[path], t.files[path] + Survivors(chunks, |b.log| + 1, b.faults));
    } else {
      assert t.files == b.files && t.cwd == b.cwd;
      AppendsCreate(t, path, chunks);
    }
  }

  /** A write to a directory changes no file: the truncate and every append fail on the device. */
  lemma WriteIntoDirectory(b: Board, path: string, data: seq<Byte>, chunkSize: ChunkSize)
    requires path in b.dirs
    ensures PerformAll(b, WritePrograms(path, data, chunkSize)).files == b.files
    ensures PerformAll(b, WritePrograms(path, data, chunkSize)).cwd == b.cwd
  {
    var programs := WritePrograms(path, data, chunkSize);
    WritePlan(path, data, chunkSize);
    assert forall i :: 0 <= i < |programs| ==> WritesTo(programs[i], path);
    DirectoryWritesFail(b, path, programs);
  }

  /** The program truncates or appends to `path`. */
  predicate WritesTo(program: Program, path: string) {
    (program.TruncateProgram? || program.AppendHexProgram?) && program.path == path
  }

  lemma {:induction false} DirectoryWritesFail(b: Board, path: string, programs: seq<Program>)
    requires path in b.dirs && forall i :: 0 <= i < |programs| ==> WritesTo(programs[i], path)
    ensures PerformAll(b, programs).files == b.files && PerformAll(b, programs).cwd == b.cwd
    decreases |programs|
  {
    if programs != [] {
      DirectoryWritesFail(b, path, programs[..|programs| - 1]);
    }
  }

  lemma UpdateTwice<K, V>(m: map<K, V>, k: K, v: V, w: V)
    ensures m[k := v][k := w] == m[k := w]
  {
    assert m[k := v][k := w] == m[k := w];
  }

  /** A write has one more program than it has chunks. */
  lemma WriteLength(path: string, data: seq<Byte>, chunkSize: ChunkSize)
    ensures |WritePrograms(path, data, chunkSize)| == 1 + |Chunks(data, chunkSize)|
  {
  }

  /** Writing 2500 bytes with `WriteFile` sends one truncate and three appends, of 1024, 1024 and 452 bytes. */
  lemma WriteFileOf2500(path: string, data: seq<Byte>)
    requires |data| == 2500
    ensures |WritePrograms(path, data, DefaultChunkSize)| == 4
    ensures var chunks := Chunks(data, DefaultChunkSize);
      |chunks| == 3 && |chunks[0]| == 1024 && |chunks[1]| == 1024 && |chunks[2]| == 452
  {
    WriteLength(path, data, DefaultChunkSize);
    FullChunkAt(data, DefaultChunkSize, 0);
    FullChunkAt(data, DefaultChunkSize, 1);
    RemainderChunk(data, DefaultChunkSize);
  }

  /**
   * With no failed call, a write leaves the file holding exactly `data`,
   * whatever it held before, and changes no other file and not the working directory.
   */
  lemma WriteStoresData(b: Board, path: string, data: seq<Byte>, chunkSize: ChunkSize)
    requires path !in b.dirs
    requires Reliable(b, |WritePrograms(path, data, chunkSize)|)
    ensures PerformAll(b, WritePrograms(path, data, chunkSize)).files == b.files[path := data]
    ensures PerformAll(b, WritePrograms(path, data, chunkSize)).cwd == b.cwd
  {
    var chunks := Chunks(data, chunkSize);
    WriteLength(path, data, chunkSize);
    assert |b.log| !in b.faults;
    WriteResult(b, path, data, chunkSize);
    SurvivorsReliable(chunks, |b.log| + 1, b.faults);
    FlattenChunks(data, chunkSize);
    assert [] + data == data;
  }

  /** Writing `first` and then `second` leaves `second`, also when it is shorter. */
  lemma OverwriteDiscardsOld(b: Board, path: string, first: seq<Byte>, second: seq<Byte>, chunkSize: ChunkSize)
    requires path !in b.dirs
    requires Reliable(b, |WritePrograms(path, first, chunkSize)| + |WritePrograms(path, second, chunkSize)|)
    ensures PerformAll(PerformAll(b, WritePrograms(path, first, chunkSize)), WritePrograms(path, second, chunkSize)).files
         == b.files[path := second]
  {
    WriteStoresData(b, path, first, chunkSize);
    var mid := PerformAll(b, WritePrograms(path, first, chunkSize));
    WriteStoresData(mid, path, second, chunkSize);
    UpdateTwice(b.files, path, first, second);
  }

  /**
   * A failed truncate is not noticed: when only the truncate fails, the old
   * content stays in front of the new data, yet the write reports success.
   */
  lemma WriteAfterFailedTruncate(b: Board, path: string, data: seq<Byte>, chunkSize: ChunkSize)
    requires path !in b.dirs
    requires path in b.files
    requires OnlyFaultAt(b.faults, |b.log|, |WritePrograms(path, data, chunkSize)|, 0)
    ensures PerformAll(b, WritePrograms(path, data, chunkSize)).files == b.files[path := b.files[path] + data]
  {
    var chunks := Chunks(data, chunkSize);
    WriteLength(path, data, chunkSize);
    assert |b.log| in b.faults;
    WriteResult(b, path, data, chunkSize);
    SurvivorsReliable(chunks, |b.log| + 1, b.faults);
    FlattenChunks(data, chunkSize);
  }

  /**
   * A failed chunk does not stop the write: when only the append of chunk
   * `j` fails, the later chunks still go out and the file misses chunk `j`.
   */
  lemma WriteSkipsFailedChunk(b: Board, path: string, data: seq<Byte>, chunkSize: ChunkSize, j: nat)
    requires path !in b.dirs
    requires j < |Chunks(data, chunkSize)|
    requires OnlyFaultAt(b.faults, |b.log|, |WritePrograms(path, data, chunkSize)|, j + 1)
    ensures var chunks := Chunks(data, chunkSize);
      PerformAll(b, WritePrograms(path, data, chunkSize)).files
        == b.files[path := Flatten(chunks[..j]) + Flatten(chunks[j + 1..])]
  {
    var chunks := Chunks(data, chunkSize);
    WriteLength(path, data, chunkSize);
    assert |b.log| !in b.faults;
    WriteResult(b, path, data, chunkSize);
    assert OnlyFaultAt(b.faults, |b.log| + 1, |chunks|, j);
    SurvivorsSkipOne(chunks, |b.log| + 1, b.faults, j);
    assert [] + Survivors(chunks, |b.log| + 1, b.faults) == Survivors(chunks, |b.log| + 1, b.faults);
  }

  /** A reply holding the hex of some bytes and any one character after it decodes to those bytes. */
  lemma ReadIgnoresTerminator(bytes: seq<Byte>, terminator: char)
    ensures ReadContent(Reply(Encode(bytes) + [terminator], false)) == bytes
  {
    var output := Encode(bytes) + [terminator];
    assert output[..|output| - 1] == Encode(bytes);
    DecodeEncode(bytes);
  }

  /** The terminator is not checked: a reply cut short after `0a0b0` reads as the two bytes 10 and 11. */
  lemma ReadAcceptsMissingTerminator()
    ensures ReadContent(Reply("0a0b0", false)) == [10, 11]
  {
    var cut, tail := "0a0b", "0b";
    assert "0a0b0"[..4] == cut;
    assert tail[0] == '0' && tail[1] == 'b' && tail[2..] == [];
    assert Decode(tail[2..]) == Some([]);
    assert DigitValue(tail[0]) == 0 && DigitValue(tail[1]) == 11;
    DecodePair(tail);
    assert [DigitValue(tail[0]) * 16 + DigitValue(tail[1])] + Decode(tail[2..]).value == [11];
    assert cut[0] == '0' && cut[1] == 'a' && cut[2..] == tail;
    assert DigitValue(cut[0]) == 0 && DigitValue(cut[1]) == 10;
    DecodePair(cut);
    assert [DigitValue(cut[0]) * 16 + DigitValue(cut[1])] + Decode(cut[2..]).value == [10, 11];
  }

  /** Decoding takes the first pair of digits off the front. */
  lemma DecodePair(s: string)
    requires |s| >= 2 && IsHexDigit(s[0]) && IsHexDigit(s[1]) && Decode(s[2..]).Some?
    ensures Decode(s) == Some([DigitValue(s[0]) * 16 + DigitValue(s[1])] + Decode(s[2..]).value)
  {
  }

  /** A read that fails and a read of an empty file give the same answer. */
  lemma ReadFailureLooksEmpty(b: Board, path: string, chunkSize: ChunkSize)
    requires |b.log| in b.faults
    ensures ReadContent(Respond(b, ReadHexProgram(path, chunkSize))) == ReadContent(Reply("#", false))
  {
    assert "#"[..0] == "";
  }

  /** After a write with no failed call, reading the file, with any read size, returns exactly `data`. */
  lemma WriteThenRead(b: Board, path: string, data: seq<Byte>, chunkSize: ChunkSize, readSize: ChunkSize)
    requires path !in b.dirs
    requires Reliable(b, |WritePrograms(path, data, chunkSize)| + 1)
    ensures ReadContent(Respond(PerformAll(b, WritePrograms(path, data, chunkSize)), ReadHexProgram(path, readSize)))
         == data
  {
    WriteStoresData(b, path, data, chunkSize);
    DeviceHexIsEncode(data, readSize);
    ReadIgnoresTerminator(data, '#');
  }

  /** After a write with no failed call, the size query returns the number of bytes written. */
  lemma WriteThenSize(b: Board, path: string, data: seq<Byte>, chunkSize: ChunkSize)
    requires path !in b.dirs
    requires Reliable(b, |WritePrograms(path, data, chunkSize)| + 1)
    ensures SizeOf(Respond(PerformAll(b, WritePrograms(path, data, chunkSize)), StatSizeProgram(path)).output)
         == |data|
  {
    WriteStoresData(b, path, data, chunkSize);
    ParseDecimal(|data|);
  }

  /** The size query gives -1 for a path that is neither a file nor a directory, and on a failed call. */
  lemma SizeOfMissing(b: Board, path: string)
    requires (path !in b.files && path !in b.dirs) || |b.log| in b.faults
    ensures SizeOf(Respond(b, StatSizeProgram(path)).output) == -1
  {
    assert !IsDigit(ErrorText[0]) && ErrorText[0] !in "+-";
  }

  /** `Exists` is true exactly when the call went through and the path is a file or a directory. */
  lemma ExistsAnswer(b: Board, path: string)
    ensures IsTrue(Respond(b, ExistsProgram(path)).output)
        <==> |b.log| !in b.faults && (path in b.files || path in b.dirs)
  {
    assert ErrorText != "True";
  }

  /** `IsDir` is true exactly when the call went through and the path is a directory. */
  lemma IsDirAnswer(b: Board, path: string)
    ensures IsTrue(Respond(b, IsDirProgram(path)).output) <==> |b.log| !in b.faults && path in b.dirs
  {
    assert ErrorText != "True";
  }

  /**
   * The listing returns the device's entries when there is at least one and
   * no name holds a comma; an empty directory lists as one empty name, and a
   * failed call as no names.
   */
  lemma ListDirAnswer(b: Board)
    ensures |b.log| in b.faults ==> Listing(Respond(b, ListDirProgram)) == []
    ensures |b.log| !in b.faults && b.listing == [] ==> Listing(Respond(b, ListDirProgram)) == [""]
    ensures |b.log| !in b.faults && |b.listing| >= 1 && (forall i :: 0 <= i < |b.listing| ==> ',' !in b.listing[i])
        ==> Listing(Respond(b, ListDirProgram)) == b.listing
  {
    if |b.log| !in b.faults && |b.listing| >= 1 && (forall i :: 0 <= i < |b.listing| ==> ',' !in b.listing[i]) {
      SplitJoin(b.listing);
    }
  }

  /** Through the facade: `WriteFile` and then `ReadFile` on a board with no failed call returns the data written. */
  method WriteThenReadBack(fs: PyFileSystem, path: string, data: seq<Byte>) returns (back: seq<Byte>)
    requires path !in fs.pyboard.board.dirs
    requires Reliable(fs.pyboard.board, |WritePrograms(path, data, DefaultChunkSize)| + 1)
    modifies fs.pyboard
    ensures back == data
    ensures fs.pyboard.board.files == old(fs.pyboard.board.files)[path := data]
  {
    ghost var start := fs.pyboard.board;
    var ok := fs.WriteFile(path, data);
    WriteThenRead(start, path, data, DefaultChunkSize, DefaultChunkSize);
    WriteStoresData(start, path, data, DefaultChunkSize);
    back := fs.ReadFile(path);
  }
}
