/**
 * The remote execution channel and the device behind it, as the file
 * transfer sees them. Each program the host can send is one constructor of
 * `Program`, so the program text itself is not modelled. `Next` gives the
 * effect of running one program and `Respond` the text it prints. A call can fail: the
 * device reports an error for a missing file or directory, and calls whose
 * index in the session is listed in `faults` fail with no effect.
 */
module Remote {
  import opened Wrappers
  import opened Hex
  import DeviceText

  /** Read size the device uses per `f.read`; the host never sends less than one byte. */
  type ChunkSize = k: int | k >= 1 witness 1

  /** The programs the file system sends, one per kind of generated snippet. */
  datatype Program =
    | ListDirProgram                                      // print the working directory's entries, comma-separated
    | ChangeDirProgram(dir: string)                       // change the device's working directory
    | ReadHexProgram(path: string, chunkSize: ChunkSize)  // print the file's hex, read piece by piece, then `#`
    | TruncateProgram(path: string)                       // open the file for writing and close it
    | AppendHexProgram(path: string, hexChunk: string)    // append the bytes of `hexChunk` to the file
    | StatSizeProgram(path: string)                       // print the size the device reports for the path
    | ExistsProgram(path: string)                         // print whether anything exists at the path
    | IsDirProgram(path: string)                          // print whether the path is a directory

  /**
   * What the host can observe of the device: regular files and their bytes,
   * directories, the entries of the device's working directory in listing
   * order, that working directory, every program run so far, and the indices
   * of the calls that fail because the channel or the device breaks down.
   */
  datatype Board = Board(
    files: map<string, seq<Byte>>,
    dirs: set<string>,
    listing: seq<string>,
    cwd: string,
    log: seq<Program>,
    faults: set<nat>)

  /** What `Exec` hands back: the printed text (trailing newline removed) and whether the program failed. */
  datatype Reply = Reply(output: string, failed: bool)

  /** The text printed when a program raises. */
  const ErrorText: string := "OSError"

  /** The device loop: read up to `chunkSize` bytes at a time and hexlify each piece. */
  function DeviceHex(data: seq<Byte>, chunkSize: ChunkSize): (hex: string)
    ensures |hex| == 2 * |data|
    ensures forall i :: 0 <= i < |hex| ==> IsLowerHexDigit(hex[i])
    decreases |data|
  {
    if data == [] then ""
    else
      var n := if |data| < chunkSize then |data| else chunkSize;
      Encode(data[..n]) + DeviceHex(data[n..], chunkSize)
  }

  /** Hexlifying piece by piece gives the hex of the whole file, whatever the read size. */
  lemma {:induction false} DeviceHexIsEncode(data: seq<Byte>, chunkSize: ChunkSize)
    ensures DeviceHex(data, chunkSize) == Encode(data)
    decreases |data|
  {
    if data != [] {
      var n := if |data| < chunkSize then |data| else chunkSize;
      DeviceHexIsEncode(data[n..], chunkSize);
      EncodeAppend(data[..n], data[n..]);
      assert data[..n] + data[n..] == data;
    }
  }

  /**
   * Whether a program fails: its call is faulted, or the device raises (no
   * such directory to change into, no such file to read, a directory opened
   * for writing or appending, a hex chunk that does not decode, nothing at
   * the path to stat).
   */
  predicate Fails(b: Board, program: Program) {
    |b.log| in b.faults ||
    match program
    case ChangeDirProgram(dir) => dir !in b.dirs
    case ReadHexProgram(path, _) => path !in b.files
    case TruncateProgram(path) => path in b.dirs
    case AppendHexProgram(path, hexChunk) => path in b.dirs || Decode(hexChunk).None?
    case StatSizeProgram(path) => path !in b.files && path !in b.dirs
    case _ => false
  }

  /** The board after running one program: every call is logged; a failing call changes nothing else. */
  function Next(b: Board, program: Program): (b': Board)
    ensures b'.log == b.log + [program]
    ensures b'.faults == b.faults && b'.dirs == b.dirs && b'.listing == b.listing
  {
    var logged := b.(log := b.log + [program]);
    if Fails(b, program) then logged
    else
      match program
      case ChangeDirProgram(dir) => logged.(cwd := dir)
      case TruncateProgram(path) => logged.(files := b.files[path := []])
      case AppendHexProgram(path, hexChunk) =>
        var existing := if path in b.files then b.files[path] else [];
        logged.(files := b.files[path := existing + Decode(hexChunk).value])
      case _ => logged
  }

  /**
   * What running one program prints, and whether it failed: a failing call
   * prints the error text; a successful file read always prints at least the terminator.
   */
  function Respond(b: Board, program: Program): (r: Reply)
    ensures r.failed <==> Fails(b, program)
    ensures r.failed ==> r.output == ErrorText
    ensures program.ReadHexProgram? && !r.failed ==> |r.output| >= 1
  {
    if Fails(b, program) then Reply(ErrorText, true)
    else
      match program
      case ListDirProgram => Reply(DeviceText.JoinComma(b.listing), false)
      case ReadHexProgram(path, chunkSize) => Reply(DeviceHex(b.files[path], chunkSize) + "#", false)
      case StatSizeProgram(path) =>
        Reply(if path in b.files then DeviceText.Decimal(|b.files[path]|) else "0", false)
      case ExistsProgram(path) => Reply(if path in b.files || path in b.dirs then "True" else "False", false)
      case IsDirProgram(path) => Reply(if path in b.dirs then "True" else "False", false)
      case _ => Reply("", false)
  }

  /**
   * Changing directory fails exactly when the call is faulted or the target is
   * not a directory; otherwise the device's working directory becomes the
   * target. No file changes either way.
   */
  lemma ChangeDirEffect(b: Board, dir: string)
    ensures Fails(b, ChangeDirProgram(dir)) <==> |b.log| in b.faults || dir !in b.dirs
    ensures Next(b, ChangeDirProgram(dir)).cwd == if Fails(b, ChangeDirProgram(dir)) then b.cwd else dir
    ensures Next(b, ChangeDirProgram(dir)).files == b.files
  {
  }

  /**
   * Truncating fails exactly when the call is faulted or the path is a
   * directory; otherwise the path holds an empty file afterwards, created if
   * it was missing. No other file changes.
   */
  lemma TruncateEffect(b: Board, path: string)
    ensures Fails(b, TruncateProgram(path)) <==> |b.log| in b.faults || path in b.dirs
    ensures Next(b, TruncateProgram(path)).files
         == if |b.log| in b.faults || path in b.dirs then b.files else b.files[path := []]
    ensures Next(b, TruncateProgram(path)).cwd == b.cwd
  {
  }

  /**
   * An append fails exactly when the call is faulted, the path is a directory
   * or the chunk is not valid hex; otherwise the decoded bytes go at the end of the file, which starts
   * empty if it was missing. No other file changes.
   */
  lemma AppendEffect(b: Board, path: string, hexChunk: string)
    ensures Fails(b, AppendHexProgram(path, hexChunk))
        <==> |b.log| in b.faults || path in b.dirs || Decode(hexChunk).None?
    ensures !Fails(b, AppendHexProgram(path, hexChunk)) ==>
      Next(b, AppendHexProgram(path, hexChunk)).files
        == b.files[path := (if path in b.files then b.files[path] else []) + Decode(hexChunk).value]
    ensures Fails(b, AppendHexProgram(path, hexChunk)) ==> Next(b, AppendHexProgram(path, hexChunk)).files == b.files
    ensures Next(b, AppendHexProgram(path, hexChunk)).cwd == b.cwd
  {
  }

  /**
   * The programs that only print (listing, read, stat, exists, is-directory)
   * change nothing on the board but the log, whether or not they fail; a read
   * fails when the path is not a file, a stat when nothing is at the path.
   */
  lemma QueryEffect(b: Board, program: Program)
    requires program.ListDirProgram? || program.ReadHexProgram? || program.StatSizeProgram?
          || program.ExistsProgram? || program.IsDirProgram?
    ensures Next(b, program) == b.(log := b.log + [program])
    ensures program.ReadHexProgram? ==> (Fails(b, program) <==> |b.log| in b.faults || program.path !in b.files)
    ensures program.StatSizeProgram? ==>
      (Fails(b, program) <==> |b.log| in b.faults || (program.path !in b.files && program.path !in b.dirs))
    ensures program.ListDirProgram? || program.ExistsProgram? || program.IsDirProgram? ==>
      (Fails(b, program) <==> |b.log| in b.faults)
  {
  }

  /** Running programs one after another, each waiting for the previous one. */
  function PerformAll(b: Board, programs: seq<Program>): (b': Board)
    ensures b'.log == b.log + programs
    ensures b'.faults == b.faults && b'.dirs == b.dirs && b'.listing == b.listing
    decreases |programs|
  {
    if programs == [] then b
    else Next(PerformAll(b, programs[..|programs| - 1]), programs[|programs| - 1])
  }

  /** Running two batches in turn is running their concatenation. */
  lemma {:induction false} PerformAllAppend(b: Board, xs: seq<Program>, ys: seq<Program>)
    ensures PerformAll(b, xs + ys) == PerformAll(PerformAll(b, xs), ys)
    decreases |ys|
  {
    if ys == [] {
      assert xs + ys == xs;
    } else {
      var n := |ys|;
      assert (xs + ys)[..|xs + ys| - 1] == xs + ys[..n - 1];
      PerformAllAppend(b, xs, ys[..n - 1]);
    }
  }

  /** No call among the next `n` of the session is faulted. */
  predicate Reliable(b: Board, n: nat) {
    forall i :: |b.log| <= i < |b.log| + n ==> i !in b.faults
  }

  /** The host's handle on the channel; `Exec` runs one program and waits for its reply. */
  class Pyboard {
    var board: Board

    constructor (initial: Board)
      ensures board == initial
    {
      board := initial;
    }

    method Exec(program: Program) returns (output: string, failed: bool)
      modifies this
      ensures board == Next(old(board), program)
      ensures Reply(output, failed) == Respond(old(board), program)
    {
      var reply := Respond(board, program);
      board := Next(board, program);
      output, failed := reply.output, reply.failed;
    }
  }
}
