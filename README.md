# Pyboard file system facade — a Dafny model

This project models `pyboard/fs.go`, the host side of a small file system over a
MicroPython board. The host never touches the board's storage directly. Each
operation builds a short Python program, sends it through the board's `Exec`
channel, and parses what the program prints. Writes are chunked:

- one program truncates the file;
- then one program per slice of at most `chunkSize` bytes appends that slice.

Each slice travels as lower-case hex. A read is one program that hexlifies the
file piece by piece and prints the hex followed by `#`. The host drops the last
character of the reply and hex-decodes the rest.

The model has seven modules:

- `Wrappers`: the `Option` type.
- `Hex`: the base16 codec (section 8 of RFC 4648) used on both ends. Decoding
  accepts upper-case digits, as Go's `hex.DecodeString` does.
- `Chunking`: the split of a payload into slices, and its concatenation.
- `DeviceText`:
  - the comma-joined name list and its split (`strings.Split`);
  - the decimal integer and its parse (`strconv.Atoi`).
- `Remote`: the board as seen through the channel.
  - `Program` has one constructor per kind of program the facade sends. The
    Python text itself is not modelled.
  - `Board` holds files, directories, the working directory's listing, the
    working directory, a log of every program run, and a set of call indices
    that fail.
  - `Next` gives the new board after a program and `Respond` gives its reply.
  - `Pyboard.Exec` is the channel, a class whose `board` changes with each call.
- `FileSystem`: the facade, with these parts.
  - `PyFileSystem` is a class with the same fields as the Go struct. Its
    methods follow the Go code line by line.
  - `WriteChunk` is a module-level method, as in Go.
  - The reply decoders are functions: `Listing`, `ReadContent`, `SizeOf` and `IsTrue`.
  - `WritePrograms` is the programs a chunked write sends.
- `Transfer`: what a sequence of calls achieves on the board.
  - A write stores the data and a later read returns it.
  - A failed truncate or a failed chunk goes unnoticed.
  - Each query's answer is fixed in terms of the board.

The device side is an assumption of this model, not code from the repository:

- a failing program prints an error text and changes nothing except the log;
- a file read prints its hex followed by `#`;
- an append adds the decoded bytes;
- opening a directory for writing or appending raises, so a truncate or an
  append on a directory fails;
- `os.stat` of a directory prints `0`.

`Exec` is taken to return the printed text without its trailing newline.

The model follows the code in these behaviours:

- A write ignores every call's result, goes on after a failed chunk and
  returns true. See `FileSystem.PyFileSystem.WriteFileChunked` and
  `Transfer.WriteSkipsFailedChunk`.
- A read drops the last character of the reply without checking that it is
  the `#` terminator. See `Transfer.ReadAcceptsMissingTerminator`.
- A failed read returns no bytes, the same as a read of an empty file. See
  `Transfer.ReadFailureLooksEmpty`.
- An empty directory lists as `[""]`, one empty name. See
  `Transfer.ListDirAnswer`.

## Model

| member | source | states |
|---|---|---|
| Hex.Encode | pyboard/fs.go:72 | the hex of `n` bytes has exactly `2n` characters, all in `0-9a-f` |
| Hex.Decode | pyboard/fs.go:57-61 | decoding succeeds exactly on text of even length made only of hex digits, and yields half as many bytes as characters; odd length or any other character is an error |
| Hex.DecodeEncode | pyboard/fs.go:72-77 | decoding the hex of any byte sequence gives the same bytes back |
| Hex.EncodeDecode | pyboard/fs.go:57 | on lower-case text that decodes, encoding the result gives the text back, so the codec is a bijection on its alphabet |
| Hex.EncodeAppend | pyboard/fs.go:41-46 | the hex of a concatenation is the concatenation of the hexes, which is what the device's read loop relies on |
| Chunking.FlattenChunks | pyboard/fs.go:94-103 | the slices of a payload, concatenated in order, give the payload back exactly |
| Chunking.ChunkCount | pyboard/fs.go:89-103 | there are `len / size` full slices plus one when the remainder is not zero, which is ceil(len / size) and zero for empty data |
| Chunking.FullChunkAt | pyboard/fs.go:95 | the i-th slice for `i < len / size` is `data[i*size .. (i+1)*size]` and lies within the data |
| Chunking.RemainderChunk | pyboard/fs.go:100-101 | when the size does not divide the length, the last slice is `data[count*size ..]`, of length `len % size` |
| DeviceText.JoinComma | pyboard/fs.go:21 | the device prints a name list joined with commas; no names print as the empty text |
| DeviceText.JoinCommaEnds | pyboard/fs.go:21 | a joined list of one or more names starts with the first name, followed by a comma when more names follow, and ends with the last name |
| DeviceText.Decimal | pyboard/fs.go:125 | the device prints `st_size` in decimal: one or more digits, no leading zero, and a single digit exactly for numbers below 10 |
| DeviceText.Split | pyboard/fs.go:25 | splitting at commas gives at least one piece, no piece holds a comma, and joining the pieces with commas gives the text back |
| DeviceText.SplitJoin | pyboard/fs.go:21-25 | splitting the comma-joined list of one or more comma-free names gives the names back |
| DeviceText.ParseInt | pyboard/fs.go:126 | parsing succeeds exactly on an optional `+` or `-` followed by one or more decimal digits |
| DeviceText.ParseDecimal | pyboard/fs.go:125-130 | parsing a size printed in decimal gives that size back |
| Remote.DeviceHex | pyboard/fs.go:39-45 | the device reads up to `chunkSize` bytes at a time and prints the lower-case hex of each piece: two characters per byte of the file, all in `0-9a-f` |
| Remote.DeviceHexIsEncode | pyboard/fs.go:39-46 | hexlifying a file piece by piece gives the hex of the whole file, whatever the read size |
| Remote.Next | pyboard/fs.go:74-77 | running a program appends it to the log and changes neither the faults nor the directories; the listing is a field no program changes |
| Remote.ChangeDirEffect | pyboard/fs.go:29 | changing directory fails exactly when the call is faulted or the target is not a directory; otherwise the device's working directory becomes the target; no file changes |
| Remote.TruncateEffect | pyboard/fs.go:92 | the truncate fails exactly when the call is faulted or the path is a directory; otherwise the path holds an empty file, created if missing; no other file changes |
| Remote.AppendEffect | pyboard/fs.go:74-77 | an append fails exactly when the call is faulted, the path is a directory or the chunk is not valid hex; otherwise the decoded bytes go at the end of the file, which starts empty if missing; a failed append changes no file |
| Remote.QueryEffect | pyboard/fs.go:35-47 | the listing, read, stat, exists and is-directory programs change nothing but the log; a read fails when the path is not a file, a stat when nothing is at the path, the others only when faulted |
| Remote.Respond | pyboard/fs.go:35-47 | a reply is failed exactly when the program fails, a failed reply carries the error text, and a successful file read prints at least one character |
| Remote.PerformAll | pyboard/fs.go:92-103 | calls run one after another: all are logged in order, and faults and directories stay the same, as does the listing field, which no program changes |
| Remote.Pyboard.Exec | pyboard/fs.go:49 | the board moves to `Next` of the program and the returned text and flag are `Respond`'s |
| FileSystem.Listing | pyboard/fs.go:20-26 | a failed call lists no names; otherwise at least one comma-free name, and the names joined with commas are the printed text |
| FileSystem.ReadContent | pyboard/fs.go:49-63 | needs a non-empty reply unless the call failed; a failed call gives no bytes; when the reply minus its last character decodes, the content is exactly the decoded bytes; any non-empty content comes from such a decode, so text that does not decode gives no bytes |
| FileSystem.SizeOf | pyboard/fs.go:126-130 | when the printed text parses as an integer the size is that integer; otherwise it is -1 |
| FileSystem.AppendPrograms | pyboard/fs.go:94-103 | one append per slice, in slice order, each carrying that slice's hex |
| FileSystem.WriteChunk | pyboard/fs.go:70-84 | sends exactly one append carrying the chunk's hex, and returns false exactly when that call fails |
| FileSystem.PyFileSystem.constructor | pyboard/fs.go:14-18 | a new facade starts in `/` on the given board |
| FileSystem.PyFileSystem.ListDir | pyboard/fs.go:20-26 | sends the listing program and returns `Listing` of its reply |
| FileSystem.PyFileSystem.ChangeDir | pyboard/fs.go:28-31 | sends the change-directory program and sets the cached directory to the argument whether or not the call failed |
| FileSystem.PyFileSystem.ReadFileChunked | pyboard/fs.go:34-64 | sends one read program with the given read size and returns `ReadContent` of its reply |
| FileSystem.PyFileSystem.ReadFile | pyboard/fs.go:66-68 | a read with read size 1024 |
| FileSystem.PyFileSystem.WriteFileChunked | pyboard/fs.go:87-106 | always returns true; the board afterwards is that of running the truncate and then one append per slice, in order, by its full-slice loop and its remainder step |
| FileSystem.PyFileSystem.WriteFile | pyboard/fs.go:108-110 | a chunked write with slices of 1024 bytes, always reporting success |
| FileSystem.PyFileSystem.GetSize | pyboard/fs.go:124-131 | sends the stat program and returns `SizeOf` of the printed text, ignoring the failure flag |
| FileSystem.PyFileSystem.Exists | pyboard/fs.go:133-136 | sends the exists program and returns whether the printed text is exactly `True` |
| FileSystem.PyFileSystem.IsDir | pyboard/fs.go:138-141 | sends the is-directory program and returns whether the printed text is exactly `True` |
| Transfer.AppendFailsOnlyOnFault | pyboard/fs.go:72-83 | an append carrying a chunk's hex fails exactly when the call itself is faulted or the path is a directory, since the hex always decodes |
| Transfer.PerformAppendChunk | pyboard/fs.go:76-77 | one append adds the chunk at the end of the file, or changes nothing when the call fails, and leaves the working directory alone |
| Transfer.AppendsExtend | pyboard/fs.go:94-103 | the appends of a write extend the file by exactly the slices whose call succeeded, in order, and change no other file |
| Transfer.AppendsCreate | pyboard/fs.go:94-103 | the appends of a write to a missing file leave it missing while every call fails; otherwise the file holds exactly the slices whose call succeeded, in order, and no other file changes |
| Transfer.TruncateStep | pyboard/fs.go:91-92 | for a path that is not a directory and is either a file or a missing path whose call goes through, the truncate empties the file, or leaves it as it was when the call fails; no other file changes |
| Transfer.WriteResult | pyboard/fs.go:87-106 | for a path that is not a directory, after a write the file holds what the truncate left, followed by the slices whose append went through; when the file was missing and the truncate failed, it holds just those slices and stays missing if there are none; no other file and not the working directory change |
| Transfer.WriteIntoDirectory | pyboard/fs.go:87-106 | a write to a directory changes no file and not the working directory, because the truncate and every append fail |
| Transfer.WritePlan | pyboard/fs.go:87-103 | a write sends 1 + ceil(len / size) programs: the truncate first, then the append of slice `i-1` at position `i`; empty data sends only the truncate |
| Transfer.WriteFileOf2500 | pyboard/fs.go:94-110 | writing 2500 bytes with `WriteFile` sends one truncate and three appends, of 1024, 1024 and 452 bytes |
| Transfer.WriteStoresData | pyboard/fs.go:87-106 | for a path that is not a directory, with no failed call, the file holds exactly the data afterwards, whatever it held before, and nothing else changes |
| Transfer.OverwriteDiscardsOld | pyboard/fs.go:91-92 | for a path that is not a directory, writing one content and then another, possibly shorter, leaves exactly the second |
| Transfer.WriteAfterFailedTruncate | pyboard/fs.go:92 | for a path that is not a directory, when only the truncate fails, the old content stays in front of the new data |
| Transfer.WriteSkipsFailedChunk | pyboard/fs.go:94-97 | for a path that is not a directory, when only the append of slice `j` fails, the later slices are still written and the file lacks exactly slice `j` |
| Transfer.ReadIgnoresTerminator | pyboard/fs.go:57 | a reply holding the hex of some bytes followed by any one character reads as those bytes |
| Transfer.ReadAcceptsMissingTerminator | pyboard/fs.go:57 | the reply `0a0b0`, which has no terminator, reads as the bytes 10 and 11 |
| Transfer.ReadFailureLooksEmpty | pyboard/fs.go:50-53 | a failed read returns the same as a read of an empty file |
| Transfer.WriteThenRead | pyboard/fs.go:34-64 | for a path that is not a directory, after a write with no failed call, reading the file with any read size returns exactly the data written |
| Transfer.WriteThenSize | pyboard/fs.go:124-131 | for a path that is not a directory, after a write with no failed call, the size query returns the number of bytes written |
| Transfer.SizeOfMissing | pyboard/fs.go:126-129 | the size query returns -1 for a path that is neither a file nor a directory, and when the call fails |
| Transfer.ExistsAnswer | pyboard/fs.go:133-136 | `Exists` is true exactly when the call succeeds and the path is a file or a directory |
| Transfer.IsDirAnswer | pyboard/fs.go:138-141 | `IsDir` is true exactly when the call succeeds and the path is a directory |
| Transfer.ListDirAnswer | pyboard/fs.go:20-26 | a failed listing is empty; an empty directory lists as one empty name; otherwise the device's comma-free names come back in order |
| Transfer.WriteThenReadBack | pyboard/fs.go:108-110 | for a path that is not a directory, through the facade, `WriteFile` followed by `ReadFile` on a board with no failed call returns the data, and the file then holds it |

## Left out

- `RemoveFile`, `MakeDir` and `RemoveDir` (pyboard/fs.go:112-122): each sends one program and discards its result. They add nothing beyond `ChangeDir`'s shape and are not part of this model.
- `GetSHA256` (pyboard/fs.go:143-163): it hashes on the device. SHA-256 is not modelled.
- The `println` diagnostics are left out. They are console output with no effect on results.
- The Python program text, and the quoting of paths inside it, are left out. Each program is a `Program` constructor, so the model cannot express a path that breaks the quoting.
- The transport behind `Exec` is not part of this model: the serial link, the raw REPL, timeouts. `Exec` is a method on a board value, and failures are a set of faulted call indices.
- The device's failure output is one fixed error text. A real traceback varies.
- Paths are taken as the device resolves them. No program reads `cwd`, so the model does not resolve a relative path against the device's working directory, and a relative path names the same file before and after a `ChangeDir`.
- `Remote.Next`: the working directory's listing is an independent field of the board that no program changes. Changing directory, creating a file by a write, or truncating does not update what `ListDir` returns, so the model does not tie the listing to `cwd`, `files` or `dirs`.
- `DeviceText.ParseInt` does not model `strconv.Atoi`'s 64-bit range error, because device sizes are far below it. An out-of-range number would parse here but give -1 in Go.
- `FileSystem.PyFileSystem.ReadFileChunked` requires a read size of at least 1. Python's behaviour for `f.read(0)` or a negative size, which the Go code would pass on, is not modelled.
- `FileSystem.PyFileSystem.WriteFileChunked` requires a chunk size of at least 1. Go panics on 0. With a negative size Go's truncating division runs no loop iteration and writes only the last `len % |size|` bytes; that case is not modelled, and the only caller, `WriteFile`, passes 1024.
- `FileSystem.ReadContent` requires a non-empty reply when the call succeeded. Go would panic slicing an empty reply, and under the device model a successful read always prints the terminator.
- Go strings are byte strings. File content is modelled as a sequence of bytes, and names and printed text as sequences of characters, one per byte.
- `FileSystem.PyFileSystem.constructor` takes the board as an argument. Go's `NewPyFileSystem` leaves the pointer nil and a caller assigns it later. The model makes the board a constant of the facade.
