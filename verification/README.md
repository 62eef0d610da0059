# Verified models of the OpenDLV core

Dafny models of the parts of the repository with the most state, branching and arithmetic, and proofs of what they
promise. Code that works in place is modelled as classes and methods on the same fields, arrays and links; each such
method is proved against a specification function, and the theorems are about those functions, so that they hold for
every input, every run and every reachable state.

* **Applanix stream decoder** (`Reader`, `ApplanixPayloads`, `ApplanixDecoder`, `ApplanixRuns`, `ApplanixMessages`,
  `ApplanixBound`): a state machine over a `std::stringstream`, here a byte sequence with a get position and a fail bit.
  All `uint32_t` and `uint8_t` conversions and sums are written out. Ghost state records every byte the stream accepted and where each decode began.
* **In-place Mach-O rewriter** (`FileViews`, `MachOFormat`, `MachOChange`, `MachOTheorems`, `MachOBytes`) and **relative paths**
  (`RelativePath`) of the virtualenv script. The file format is described independently of the windows that the
  rewriter reads it through.
* **Camera projection** (`LinearAlgebra`, `Homography`): the four-point homography over exact reals.
* **CxxTest** lists, mocks, filters, tracker and runner (`LinkedList`, `MockRegistry`, `Descriptions`, `TestTracker`,
  `RunnerSpec`, `RunnerTheorems`, `RunnerAborts`, `RunnerReports`,
  `RunnerCounts`, `TestRunner`). Fixtures and tests are an oracle: each call may return, report, throw
  or change the settings. The runner's protocol is a monitor that reads the trace entry by entry.
* **CxxTest printing** (`Numbers`, `Factoring`, `StringTraits`): digits, factorisations and quoted byte strings.
* **IMU calibration and mounting rotation** (`Imu`), over exact reals.

Where the code and what one would expect of it differ, the model follows the code and says exactly when they agree:

* `numberToString` and the factor printer: for a prime number of tests from 2^32 - 7 on, no 32-bit square exceeds the
  number, so `strTotalTests` prints the prime as its own factor instead of a face (`Factoring.PrimeLine`).
* `make_relative_path` splits the root directory into one empty component, so with the root as one of the two
  directories the path is longer than needed (`RelativePath.FewestParents`, `RelativePath.FewestComponents`).
* The payload decoders loop over a `uint8_t`: with more than 255 channels, or with padding that is negative or longer
  than 255 bytes, they do not return (`ApplanixPayloads.Grp3RoundTrip`, `ApplanixPayloads.PaddingBounds`).
* A global fixture that fails around a test and leaves abort-on-fail set lets the abort escape the runner, so the
  trace ends without its leave events (`RunnerTheorems.RunObeysProtocol`). Some user code does this in every world
  with a global fixture and a test to run, and none in any other (`RunnerAborts.AlwaysNestedIff`).
* `nextString` adds its get position and `m_toRemove` in 32 bits. On a fresh decoder a chunk of up to 2^32 - 65568
  bytes is always safe, and of every greater length some chunk is not (`ApplanixBound.ChunkBoundIsExact`); over whole
  runs chunks of up to 2^31 - 131099 bytes are safe (`ApplanixRuns.RunIsSafe`).
* The same sums make a frame wait for as many bytes again as lie before it in the buffer (`ApplanixRuns.NextFrame`).
* `current()` on an empty mock registry leaves its fallback mock in the list for good (`MockRegistry.Registry.Current`).

`dafny verify dfyconfig.toml` checks the whole project.

## Model

| member | source | states |
|---|---|---|
| `ApplanixRuns.RunIsSafe` | code/core/system/proxy-applanix/src/ApplanixStringDecoder.cpp:472-668 | Over any sequence of chunks of at most 2^31 - 131099 bytes and across compactions: every decode starts right behind an 8-byte header in the accepted input that carries `$GRP`, the id of the decoder chosen and a little-endian size S, with at least S bytes received behind it; its message is what that decoder makes of the accepted bytes; successive headers lie at least 8 bytes apart; the messages sent are exactly those of the decodes; and all input is accepted unless a payload decoder does not return or a read has failed the stream |
| `ApplanixRuns.StaysLow` | code/core/system/proxy-applanix/src/ApplanixStringDecoder.cpp:473-478 | A chunk of that length always has room: a call leaves at most 2^31 + 65531 bytes in the buffer, or a failed stream, or does not return |
| `ApplanixRuns.FeedAccepts` | code/core/system/proxy-applanix/src/ApplanixStringDecoder.cpp:473-475 | What a run has accepted only grows, is always a prefix of the concatenated chunks, and is all of them unless the run hangs or fails |
| `ApplanixRuns.FailedStaysSilent` | code/core/system/proxy-applanix/src/ApplanixStringDecoder.cpp:474-480 | Once the stream has failed, no sequence of chunks accepts, decodes or sends anything |
| `ApplanixRuns.NextFrame` | code/core/system/proxy-applanix/src/ApplanixStringDecoder.cpp:480-656 | A call on a decoder without a pending frame decodes the frame at position j of its buffer of n bytes, the first known header, exactly if 2j + 24 < n and 2j + 16 + size <= n; otherwise it decodes and sends nothing |
| `ApplanixRuns.PendingFrame` | code/core/system/proxy-applanix/src/ApplanixStringDecoder.cpp:482-571 | A call on a decoder with a pending frame whose payload begins at t decodes it exactly if 2t + 8 < n and 2t + size <= n; otherwise it decodes and sends nothing |
| `ApplanixRuns.FrameIsDecoded` | code/core/system/proxy-applanix/src/ApplanixStringDecoder.cpp:480-668 | A fresh decoder given, in one chunk, bytes in which no known header begins, an encoded frame of a known group and enough further bytes decodes that frame first and sends its message, or never returns exactly when the payload decoder does not |
| `ApplanixMessages.FrameIsSent` | code/core/system/proxy-applanix/src/ApplanixStringDecoder.cpp:480-668 | For a frame of any of the eight groups, written field by field with its header bytes and footer: a fresh decoder that gets it behind bytes in which no known header begins, with enough bytes behind it, sends first the message of exactly these fields, and for a GRP1 then the position made of its first two fields |
| `ApplanixMessages.PayloadReads` | code/core/system/proxy-applanix/src/ApplanixStringDecoder.cpp:501-563 | For each of the eight groups the decoder called gives back exactly the fields that were written, in their order and widths, and consumes exactly their bytes |
| `ApplanixMessages.SendsMessages` | code/core/system/proxy-applanix/src/ApplanixStringDecoder.cpp:501-560 | A GRP1 message is followed by the position made of its latitude and longitude; every other message is sent alone |
| `ApplanixMessages.KnownHeaderBytes` | code/core/system/proxy-applanix/src/ApplanixStringDecoder.cpp:586-654 | A header is known exactly if its bytes are `$GRP` and a little-endian group number among the eight |
| `ApplanixMessages.PositionReads` | code/core/system/proxy-applanix/src/ApplanixStringDecoder.cpp:92-165 | GRP1: all twenty fields |
| `ApplanixMessages.AccuracyReads` | code/core/system/proxy-applanix/src/ApplanixStringDecoder.cpp:167-219 | GRP2: all thirteen fields |
| `ApplanixMessages.InertialReads` | code/core/system/proxy-applanix/src/ApplanixStringDecoder.cpp:326-359 | GRP4: all six fields |
| `ApplanixMessages.PulseReads` | code/core/system/proxy-applanix/src/ApplanixStringDecoder.cpp:438-458 | GRP10003: both fields |
| `ApplanixBound.ChunkBoundIsExact` | code/core/system/proxy-applanix/src/ApplanixStringDecoder.cpp:480-498 | On a fresh decoder the loop ends and decodes safely for every chunk of n bytes exactly if n <= 2^32 - 65568: one byte more and three frames among zeros make the `uint32_t` sums wrap, so that a frame is decoded before its payload has arrived; from 2^32 bytes on zeros make the loop endless |
| `ApplanixBound.LongIsUnsafe` | code/core/system/proxy-applanix/src/ApplanixStringDecoder.cpp:480-498 | The chunk that does this, for every length between the bound and 2^32 |
| `ApplanixBound.EndlessZeros` | code/core/system/proxy-applanix/src/ApplanixStringDecoder.cpp:480-498 | n >= 2^32 zeros: the distance of the positions to the end, taken modulo 2^32, gets too small for a header while the loop guard stays true |
| `ApplanixDecoder.TurnKeepsInv` | code/core/system/proxy-applanix/src/ApplanixStringDecoder.cpp:480-656 | Every turn of the loop that does not break keeps the invariant (a pending frame has its get position at `m_toRemove`, right behind its header), keeps the sum of the two positions within 65559 bytes behind the buffer, and unless the stream fails or a decoder does not return it strictly raises `m_toRemove`; the accepted bytes and earlier decodes stay |
| `ApplanixDecoder.TurnShrinks` | code/core/system/proxy-applanix/src/ApplanixStringDecoder.cpp:480-656 | The distance of `m_toRemove` to the buffer's end bounds the loop, so `nextString` terminates whenever the payload decoders return |
| `ApplanixDecoder.DecodeKeepsInv` | code/core/system/proxy-applanix/src/ApplanixStringDecoder.cpp:492-571 | Decoding a complete pending frame keeps the invariant: the new decode is safe and lies behind all earlier ones |
| `ApplanixDecoder.HeaderKeepsInv` | code/core/system/proxy-applanix/src/ApplanixStringDecoder.cpp:574-655 | Trying a header at `m_toRemove` keeps the invariant, whether it is found, unknown, or the stream runs dry |
| `ApplanixDecoder.AcceptKeepsInv` | code/core/system/proxy-applanix/src/ApplanixStringDecoder.cpp:473-478 | Appending a chunk and seeking back to `m_toRemove` keeps every earlier decode valid and the pending header in place |
| `ApplanixDecoder.CompactKeepsInv` | code/core/system/proxy-applanix/src/ApplanixStringDecoder.cpp:658-667 | Cutting the buffer at the get position, even where that differs from `m_toRemove`, keeps the invariant relative to the accepted bytes |
| `ApplanixDecoder.CompactKeepsUnread` | code/core/system/proxy-applanix/src/ApplanixStringDecoder.cpp:658-667 | Compaction happens exactly behind more than 32768 scanned bytes if some bytes were read, and loses no unread byte |
| `ApplanixDecoder.GuardMeans` | code/core/system/proxy-applanix/src/ApplanixStringDecoder.cpp:480-489 | While the loop guard holds, none of the `uint32_t` sums of `tellg()`, `m_toRemove` and `tellp()` has wrapped |
| `ApplanixDecoder.ApplanixStringDecoder.NextString` | code/core/system/proxy-applanix/src/ApplanixStringDecoder.cpp:472-668 | The member function on the object's fields computes exactly the specified transition of the state machine, keeps the invariant, and returns unless a payload decoder does not; the buffer and the chunk together have at most 2^32 - 65568 bytes |
| `ApplanixDecoder.ApplanixStringDecoder.TryHeaderAtToRemove` | code/core/system/proxy-applanix/src/ApplanixStringDecoder.cpp:579-655 | The header branch on the fields: `$GRP` and a known group make the frame pending behind the 8 header bytes, anything else advances `m_toRemove` by one |
| `ApplanixDecoder.ApplanixStringDecoder.PrepareReadingBuffer` | code/core/system/proxy-applanix/src/ApplanixStringDecoder.cpp:50-63 | On a good stream the 16-bit size is read, the frame becomes pending and the header is skipped; on a failed stream nothing changes |
| `ApplanixDecoder.ApplanixStringDecoder.DecodeFrame` | code/core/system/proxy-applanix/src/ApplanixStringDecoder.cpp:492-571 | The decoding branch on the fields: seek, decode by group, send, step over payload and footer |
| `ApplanixDecoder.ApplanixStringDecoder.DiscardRead` | code/core/system/proxy-applanix/src/ApplanixStringDecoder.cpp:658-667 | Compaction on the fields: only behind 32768 scanned bytes and a positive get position, cutting at the get position |
| `ApplanixPayloads.Grp3RoundTrip` | code/core/system/proxy-applanix/src/ApplanixStringDecoder.cpp:254-324 | A GRP3 payload of n channels decodes to the encoded fields and consumes exactly 72 + 20n bytes if n <= 255, and the decoder never returns if n > 255 |
| `ApplanixPayloads.GnssRoundTrip` | code/core/system/proxy-applanix/src/ApplanixStringDecoder.cpp:361-396 | A GRP10001 (or GRP10009) payload decodes to the encoded fields and consumes payloadSize - 4 bytes, for raw data of any length, if the padding is at most 255 bytes; otherwise the decoder never returns |
| `ApplanixPayloads.ImuRoundTrip` | code/core/system/proxy-applanix/src/ApplanixStringDecoder.cpp:398-436 | The same for GRP10002 |
| `ApplanixPayloads.PaddingBounds` | code/core/system/proxy-applanix/src/ApplanixStringDecoder.cpp:385-385 | The padding bound, computed in 64-bit unsigned arithmetic, fits the `uint8_t` counter exactly when 0 to 255 bytes are left over |
| `ApplanixPayloads.Uint8LoopEnds` | code/core/system/proxy-applanix/src/ApplanixStringDecoder.cpp:282-285 | A loop over a `uint8_t` counter reaches its bound exactly when the bound is at most 255 |
| `ApplanixPayloads.TimeRoundTrip` | code/core/system/proxy-applanix/src/ApplanixStringDecoder.cpp:65-90 | The time/distance field decodes to what was encoded and consumes its 26 bytes |
| `ApplanixPayloads.ChannelsRoundTrip` | code/core/system/proxy-applanix/src/ApplanixStringDecoder.cpp:281-285 | n encoded channel records of 20 bytes decode to the same n records |
| `ApplanixPayloads.AfterPayload` | code/core/system/proxy-applanix/src/ApplanixStringDecoder.cpp:501-563 | A payload decoder that returns only moves forward in the stream: what it leaves is a suffix of what it got, and a failed stream stays failed |
| `ApplanixPayloads.PayloadUses` | code/core/system/proxy-applanix/src/ApplanixStringDecoder.cpp:501-563 | A payload decoder that returns without failing the stream has consumed at least one byte and less than 2^16 |
| `ApplanixPayloads.GetGRP3` | code/core/system/proxy-applanix/src/ApplanixStringDecoder.cpp:254-324 | The decoder with its channel loop computes the specified message, or reports that it does not return |
| `ApplanixPayloads.GetGRP10001` | code/core/system/proxy-applanix/src/ApplanixStringDecoder.cpp:361-396 | The decoder with its padding loop computes the specified message, or reports that it does not return |
| `ApplanixPayloads.GetGRP10002` | code/core/system/proxy-applanix/src/ApplanixStringDecoder.cpp:398-436 | The decoder with its padding loop computes the specified message, or reports that it does not return |
| `ApplanixPayloads.ReadPadding` | code/core/system/proxy-applanix/src/ApplanixStringDecoder.cpp:384-387 | The padding loop consumes exactly `bound` bytes, or all that are left and fails the stream |
| `ByteReader.FieldsRoundTrip` | code/core/system/proxy-applanix/src/ApplanixStringDecoder.cpp:65-90 | Little-endian fields of given widths read one after another give back the values that were packed |
| `MachOTheorems.ParseCommutesWithChange` | thirdparty/cxxtest/admin/virtualenv.py:2519-2573 | On every well-formed thin or fat file the rewrite succeeds, keeps the length, and the result is well-formed and re-parses to the same structure with exactly the LC_LOAD_DYLIB names equal to `what` replaced by `value` |
| `MachOTheorems.ChangeIsIdempotent` | thirdparty/cxxtest/admin/virtualenv.py:2519-2573 | A second run changes no byte |
| `MachOTheorems.ChangeKeepsLength` | thirdparty/cxxtest/admin/virtualenv.py:2519-2573 | For any contents and arguments, malformed files and runs ended by an exception included, the file keeps its length |
| `MachOTheorems.SlicesTheorem` | thirdparty/cxxtest/admin/virtualenv.py:2556-2562 | The loop over a fat file's table rewrites each slice inside its own bytes and leaves the table and the other slices as they are |
| `MachOTheorems.ImageTheorem` | thirdparty/cxxtest/admin/virtualenv.py:2563-2570 | One thin image, in a window of its own: only its bytes change, and it parses to the renamed image |
| `MachOTheorems.CommandsTheorem` | thirdparty/cxxtest/admin/virtualenv.py:2531-2550 | The loop over the load commands changes only bytes of the commands, which parse to the renamed commands |
| `MachOTheorems.RewriteCommandEffect` | thirdparty/cxxtest/admin/virtualenv.py:2536-2550 | The overwritten name lies inside its command, so that the command still parses, with the new name and the same size |
| `MachOTheorems.QuietFile` | thirdparty/cxxtest/admin/virtualenv.py:2519-2573 | A file with nothing to rename is left as it is, byte for byte |
| `MachOBytes.WrittenImageIsRenamed` | thirdparty/cxxtest/admin/virtualenv.py:2525-2573 | A thin file put together byte by byte - magic bytes, header words, load commands, anything behind - of either word size and byte order, rewritten, reads as the same commands with exactly the libraries named `what` named `value` |
| `MachOBytes.WrittenFatFileIsRenamed` | thirdparty/cxxtest/admin/virtualenv.py:2552-2573 | The same for a fat file put together byte by byte: in every slice exactly the libraries named `what` are named `value` afterwards |
| `MachOBytes.ImageReads` | thirdparty/cxxtest/admin/virtualenv.py:2525-2550 | Wherever such an image lies in a file, the format reads its header and commands, sizes and names as they were written |
| `MachOBytes.LoadsRead` | thirdparty/cxxtest/admin/virtualenv.py:2531-2550 | Load commands written one behind the other are read as the same commands |
| `MachOBytes.FatTableReads` | thirdparty/cxxtest/admin/virtualenv.py:2556-2562 | A file that begins with CA FE BA BE, a big-endian count and that many entries is fat, and its slices lie where the entries say |
| `MachOBytes.MagicNumbers` | thirdparty/cxxtest/admin/virtualenv.py:2554-2570 | By bytes: which files are fat, and which word size and byte order each of the four thin magic numbers stands for |
| `MachOBytes.PutReads` | thirdparty/cxxtest/admin/virtualenv.py:2508-2516 | A word written byte by byte, in either order, reads back as itself |
| `MachOBytes.OtherFiles` | thirdparty/cxxtest/admin/virtualenv.py:2552-2573 | A longer name is refused; a file too short for a magic number raises; a file with an unknown one is left alone |
| `MachOBytes.BadName` | thirdparty/cxxtest/admin/virtualenv.py:2536-2548 | Which exception a bad LC_LOAD_DYLIB command raises: a name outside the window, behind the command's end, no ASCII, without a NUL, or to be overwritten by what is no ASCII; the contents stay |
| `MachOBytes.TruncatedCommand` | thirdparty/cxxtest/admin/virtualenv.py:2532-2535 | A command whose two header words are not all there raises, and the contents stay |
| `MachOBytes.OverlongCommand` | thirdparty/cxxtest/admin/virtualenv.py:2549-2550 | A command that is longer than its window raises, and the contents stay |
| `Bytes.BigEndianRoundTrip` | thirdparty/cxxtest/admin/virtualenv.py:2513-2513 | The bytes of a number, most significant first, read big-endian as the number |
| `Bytes.PlaceValues` | thirdparty/cxxtest/admin/virtualenv.py:2513-2513 | What words of two and four bytes are worth, place by place, in both byte orders |
| `MachOFormat.UpToNul` | thirdparty/cxxtest/admin/virtualenv.py:2543-2544 | The bytes before the first NUL: free of NUL, and followed by one unless there is none |
| `MachOChange.Change` | thirdparty/cxxtest/admin/virtualenv.py:2572-2573 | The rewriter on the file object, assertion included, leaves exactly the specified contents and error |
| `MachOChange.DoFile` | thirdparty/cxxtest/admin/virtualenv.py:2552-2570 | The recursive walk over fat and thin files with its nested windows, call by call, leaves exactly the specified contents or exception |
| `MachOChange.DoMacho` | thirdparty/cxxtest/admin/virtualenv.py:2525-2550 | The header and command loop on the window leaves exactly the specified contents, position or exception |
| `MachOChange.ReadData` | thirdparty/cxxtest/admin/virtualenv.py:2508-2516 | Reads `num` 32-bit words in the given byte order, or raises if the window ends before |
| `FileViews.RunConfined` | thirdparty/cxxtest/admin/virtualenv.py:2454-2505 | Any run of seeks, reads and writes on a view, whatever the file holds: the position stays in the window, and every byte outside it keeps its value |
| `FileViews.StepConfined` | thirdparty/cxxtest/admin/virtualenv.py:2475-2505 | One operation: the position stays valid, a write lands inside the window or raises, and what is read is the file's bytes between the old and the new position, never past the window's end |
| `FileViews.SeekLands` | thirdparty/cxxtest/admin/virtualenv.py:2475-2487 | Where each kind of seek lands, counted from the window's start, the position, or the window's end, and when it raises |
| `FileViews.ReadsAll` | thirdparty/cxxtest/admin/virtualenv.py:2497-2505 | A read gives all bytes asked for, up to the end of the window and of the file |
| `FileViews.WriteAtEffect` | thirdparty/cxxtest/admin/virtualenv.py:2494-2494 | Writing at a position of a file replaces exactly those bytes, fills a gap with zeros, and keeps all others |
| `FileViews.FileView.Seek` | thirdparty/cxxtest/admin/virtualenv.py:2475-2487 | Moves view and file together, or raises without moving the view |
| `FileViews.FileView.Write` | thirdparty/cxxtest/admin/virtualenv.py:2489-2495 | Writes at the view's position wherever the file stood, or raises without touching the contents |
| `FileViews.FileView.Read` | thirdparty/cxxtest/admin/virtualenv.py:2497-2505 | Reads from the view's position, cut off at the window's end, or raises |
| `FileViews.FileView.Nested` | thirdparty/cxxtest/admin/virtualenv.py:2454-2461 | A view of a view works on the underlying file, with the new window counted from the start of that file |
| `RelativePath.RelativeResolves` | thirdparty/cxxtest/admin/virtualenv.py:1838-1851 | For all normalised absolute directories, the root included, resolving the relative path from the source directory gives the destination |
| `RelativePath.RelativeTextResolves` | thirdparty/cxxtest/admin/virtualenv.py:1847-1851 | The same for the text returned, `./` included, split at the separator again, and with the file name if there is one: it is looked up in the destination directory |
| `RelativePath.FewestParents` | thirdparty/cxxtest/admin/virtualenv.py:1842-1845 | No path that leads to the destination has fewer `..` steps - exactly unless the source is the root and the destination is not, where the source's own split leaves one step too many |
| `RelativePath.FewestComponents` | thirdparty/cxxtest/admin/virtualenv.py:1842-1851 | No path that leads to the destination has fewer components - exactly unless one of the two directories is the root and the other is not |
| `RelativePath.StepsNeeded` | thirdparty/cxxtest/admin/virtualenv.py:1842-1845 | Any path between two directories keeps a common prefix and costs one `..` for each component left and one step for each component entered |
| `RelativePath.SplitJoin` | thirdparty/cxxtest/admin/virtualenv.py:1840-1851 | Joining components with the separator and splitting again loses nothing |
| `RelativePath.PopCommon` | thirdparty/cxxtest/admin/virtualenv.py:1842-1844 | The loop that pops equal heads removes exactly the longest common prefix from both lists |
| `RelativePath.MakeRelativePath` | thirdparty/cxxtest/admin/virtualenv.py:1842-1851 | The method returns the text of the relative path computed from the longest common prefix, and `./` for a directory seen from itself |
| `Homography.ClicksProjectToCorners` | code/tool/camera-projection/src/cameraprojection.cpp:58-70 | With nonzero width and height and no three clicks collinear, B is invertible and projecting click k with the saved matrix divides by no zero and gives exactly corner k, for all four clicks |
| `Homography.ProjectionIsUnique` | code/tool/camera-projection/src/cameraprojection.cpp:340-342 | Up to a factor the saved matrix is the only one that maps the four clicks to the four corners |
| `Homography.InvertibleIff` | code/tool/camera-projection/src/cameraprojection.cpp:323-331 | A matrix built from four points is invertible exactly when no three of them are collinear, whatever the solver did on a singular system |
| `Homography.RectangleScale` | code/tool/camera-projection/src/cameraprojection.cpp:297-307 | The rectangle's scale vector is (1, -1, 1), and its matrix is invertible |
| `Homography.OnePoint` | code/tool/camera-projection/src/cameraprojection.cpp:342-342 | A * inverse(B) sends a pixel to a nonzero multiple of the corner that A makes of the same unit vector, so dividing by the third coordinate gives the corner |
| `Homography.ConfigureCalibrateSave` | code/tool/camera-projection/src/cameraprojection.cpp:284-342 | The tool's whole workflow on its fields, in the events' own coordinates: with a proper rectangle and the first four left clicks behind the last right click, no three collinear, clicking the k-th of them again prints the k-th corner, in terms of the four configured values |
| `Homography.CollectedAt` | code/tool/camera-projection/src/cameraprojection.cpp:40-56 | The clicks used are the coordinates (x, y), in order, of the first four left clicks behind the last right click, or of all of them if there are fewer |
| `Homography.ClickPositions` | code/tool/camera-projection/src/cameraprojection.cpp:40-56 | Every sequence of events has such positions |
| `Homography.MouseParams.Log` | code/tool/camera-projection/src/cameraprojection.cpp:40-56 | One event: a left click is stored as (x, y) behind the others unless there are four, a right click starts over, other events change nothing |
| `Homography.CameraProjection.Config` | code/tool/camera-projection/src/cameraprojection.cpp:284-311 | Four values set the rectangle and its matrix; any other number changes nothing |
| `Homography.CameraProjection.Calibrate` | code/tool/camera-projection/src/cameraprojection.cpp:313-338 | The four collected clicks (see CollectedAt) build B from their pixels; fewer leave B as it was |
| `Homography.CameraProjection.Save` | code/tool/camera-projection/src/cameraprojection.cpp:340-342 | The saved matrix is A times the inverse of B |
| `Homography.Solve` | code/tool/camera-projection/src/cameraprojection.cpp:305-305 | Where the matrix is invertible the solver's vector solves the system |
| `Homography.Inverse` | code/tool/camera-projection/src/cameraprojection.cpp:342-342 | Where the matrix is invertible the product with its inverse is the identity |
| `LinkedList.Link.Attach` | thirdparty/cxxtest/cxxtest/LinkedList.cpp:182-197 | Appends the link: both pointer chains represent the old sequence followed by it |
| `LinkedList.Link.Detach` | thirdparty/cxxtest/cxxtest/LinkedList.cpp:199-218 | Removes exactly this link from both chains and keeps the order of the others |
| `LinkedList.Link.Unlink` | thirdparty/cxxtest/cxxtest/LinkedList.cpp:199-218 | After the pointer updates every remaining neighbour and both ends pass the link by, in both directions |
| `LinkedList.ForwardIsActive` | thirdparty/cxxtest/cxxtest/LinkedList.cpp:142-150 | The forward walk visits exactly the active links, in list order |
| `LinkedList.BackwardIsActive` | thirdparty/cxxtest/cxxtest/LinkedList.cpp:152-160 | The backward walk visits exactly the active links, in reverse order |
| `LinkedList.ActiveLinks` | thirdparty/cxxtest/cxxtest/LinkedList.cpp:72-80 | The links counted and visited are exactly the active ones |
| `LinkedList.WalksMirror` | thirdparty/cxxtest/cxxtest/LinkedList.cpp:142-160 | The active-only backward walk is the reverse of the active-only forward walk |
| `LinkedList.Link.Next` | thirdparty/cxxtest/cxxtest/LinkedList.cpp:142-150 | The first active link behind this one, or null if there is none |
| `LinkedList.Link.Prev` | thirdparty/cxxtest/cxxtest/LinkedList.cpp:152-160 | The nearest active link before this one, or null if there is none |
| `LinkedList.List.Head` | thirdparty/cxxtest/cxxtest/LinkedList.cpp:27-35 | The first active link, or null |
| `LinkedList.List.Tail` | thirdparty/cxxtest/cxxtest/LinkedList.cpp:47-55 | The last active link, or null |
| `LinkedList.List.Empty` | thirdparty/cxxtest/cxxtest/LinkedList.cpp:67-70 | True exactly if the list holds no link, active or not |
| `LinkedList.List.Size` | thirdparty/cxxtest/cxxtest/LinkedList.cpp:72-80 | The number of active links |
| `LinkedList.List.Nth` | thirdparty/cxxtest/cxxtest/LinkedList.cpp:82-90 | The n-th active link, and null one past the last |
| `LinkedList.List.ActivateAll` | thirdparty/cxxtest/cxxtest/LinkedList.cpp:92-98 | From any state every link ends up active |
| `LinkedList.List.LeaveOnly` | thirdparty/cxxtest/cxxtest/LinkedList.cpp:100-109 | Only the given link stays active, and only if it was, although the walk reads the flags the loop clears |
| `MockRegistry.Replay` | thirdparty/cxxtest/cxxtest/Mock.h:135-136 | Any legal interleaving of constructions and destructions, performed on a list with `attach` and `detach`, leaves the list with exactly the live mocks, in the order of their last construction |
| `MockRegistry.Registry.Perform` | thirdparty/cxxtest/cxxtest/Mock.h:135-136 | One construction appends the mock to the list, one destruction removes exactly that mock |
| `MockRegistry.LiveInOrder` | thirdparty/cxxtest/cxxtest/Mock.h:135-136 | The live mocks of a run stand in the order of their construction |
| `MockRegistry.Registry.Current` | thirdparty/cxxtest/cxxtest/Mock.h:140-146 | `current()` is the most recently constructed active live mock; for an empty list a new mock is made, attached and returned, and stays the registry's own; null stands for a list of inactive mocks only |
| `MockRegistry.Registry.MostRecent` | thirdparty/cxxtest/cxxtest/Mock.h:145-145 | The tail of the list is the most recently constructed active live mock |
| `Descriptions.LeaveOnlyExact` | thirdparty/cxxtest/cxxtest/RealDescriptions.cpp:280-298 | Filtering by suite and test succeeds exactly when the first active suite of that name has an active test of that name; then exactly one suite and one test in it are active, the world counts one test and all other flags of tests stay; a failed call changes no flag |
| `Descriptions.LeaveSuiteExact` | thirdparty/cxxtest/cxxtest/RealDescriptions.cpp:280-298 | A suite filter alone succeeds exactly if an active suite has the name, leaves it as the only active one and keeps its tests and their count |
| `Descriptions.FilterIsFinal` | thirdparty/cxxtest/cxxtest/RealDescriptions.cpp:280-298 | A filtered world answers true to exactly the filter that made it, and then stays as it is |
| `Descriptions.TotalOne` | thirdparty/cxxtest/cxxtest/RealDescriptions.cpp:246-254 | With one active suite the world counts that suite's active tests |
| `Descriptions.CountOne` | thirdparty/cxxtest/cxxtest/RealDescriptions.cpp:246-254 | With one active test a suite counts one |
| `Descriptions.RealWorldDescription.LeaveOnly` | thirdparty/cxxtest/cxxtest/RealDescriptions.cpp:280-298 | The method on the lists produces exactly the specified flags and answer, for the null test name too |
| `Descriptions.RealWorldDescription.NumTotalTests` | thirdparty/cxxtest/cxxtest/RealDescriptions.cpp:246-254 | The loop over active suites counts the active tests of the active suites |
| `Descriptions.RealWorldDescription.ActivateAllTests` | thirdparty/cxxtest/cxxtest/RealDescriptions.cpp:271-278 | From any state every suite and every test ends up active |
| `Descriptions.LeaveOnlyTest` | thirdparty/cxxtest/cxxtest/RealDescriptions.cpp:170-181 | One suite: the first active test of that name stays the only active one, or nothing changes and the answer is false |
| `Tracking.CountersAreFolds` | thirdparty/cxxtest/cxxtest/TestTracker.cpp:91-113 | After enterWorld, over any events but enterWorld and initialize: failedTests is the number of stretches between test and suite starts that hold a failure, failedSuites the same between suite starts, and the two running counters count the current stretch and suite |
| `Tracking.TalliesAreCounts` | thirdparty/cxxtest/cxxtest/TestTracker.cpp:138-149 | warnings and skippedTests are the numbers of such events since enterWorld, modulo 2^32 |
| `Tracking.CurrentIsLatest` | thirdparty/cxxtest/cxxtest/TestTracker.cpp:91-131 | The current world, suite and test are those entered last, if nothing at or above their level was entered or left since; the skip flag tells whether something was skipped since the last start |
| `Tracking.FailurePropagates` | thirdparty/cxxtest/cxxtest/TestTracker.cpp:274-284 | A failed test implies a failed suite implies a failed world, and no more suites fail than tests |
| `Tracking.StepKeepsMeaning` | thirdparty/cxxtest/cxxtest/TestTracker.cpp:274-284 | Each single event keeps that meaning of the counters |
| `Tracking.TestTracker.On` | thirdparty/cxxtest/cxxtest/TestTracker.cpp:91-284 | Each event method changes the counters and the current world, suite and test exactly as specified, in 32-bit arithmetic |
| `Tracking.TestTracker.CountAFailure` | thirdparty/cxxtest/cxxtest/TestTracker.cpp:274-284 | The nested increments: a stretch's first failure counts its test, a suite's first failing stretch its suite |
| `RunnerTheorems.RunObeysProtocol` | thirdparty/cxxtest/cxxtest/TestRunner.h:55-107 | For every world and every behaviour of user code the trace obeys the protocol (worlds, suites and tests nested and entered in turn; world and test fixtures set up first to last, all of them before anything inside, and torn down last to first behind it; a dynamic suite's object created before its tests and destroyed once behind them; `run` only after a successful set-up), the settings from before the run are restored, the counters are the fold of the trace, and every enter has its leave exactly if no fixture called around a test answered anything but success while leaving abort-on-fail set |
| `RunnerCounts.RunCounts` | thirdparty/cxxtest/cxxtest/TestRunner.h:55-107 | The counters at the end of a run are numbers of answers of user code: failedTests and failedSuites the stretches in which some call failed (a reported failure, a test body that threw another exception, a set-up or tear-down that threw and was reported, a fixture that did not succeed), warnings the reported ones and one per world fixture that did not succeed, skippedTests the reported skips |
| `RunnerCounts.StartedOver` | thirdparty/cxxtest/cxxtest/RealDescriptions.cpp:305-320 | If a world fixture's set-up reported a failure and returned, the run ends with one warning and no other count |
| `RunnerCounts.AbortIsOneMoreFailure` | thirdparty/cxxtest/cxxtest/TestRunner.h:37-43 | runAllTests adds one failure behind the trace exactly if an abort escaped, and nothing otherwise |
| `RunnerReports.RunIsTold` | thirdparty/cxxtest/cxxtest/TestRunner.h:55-107 | The trace is its calls, enters and leaves, with exactly the reports behind each call that its answer makes, and the k-th call is answered by the oracle's k-th reply |
| `RunnerReports.ReportedIs` | thirdparty/cxxtest/cxxtest/RealDescriptions.cpp:47-125 | The reports of an answer hold a failure exactly if the answer is a failure, and as many warnings and skips as it means |
| `RunnerReports.RunBodyTold` | thirdparty/cxxtest/cxxtest/RealDescriptions.cpp:119-125 | A test body that throws another exception is reported as a failure; an abort or a skip is not |
| `RunnerAborts.AlwaysNestedIff` | thirdparty/cxxtest/cxxtest/TestRunner.h:55-107 | Every behaviour of user code gives a completely nested trace exactly if the world has no global fixture or no test to run |
| `RunnerAborts.EscapingCall` | thirdparty/cxxtest/cxxtest/RealDescriptions.cpp:54-65 | Otherwise there is user code that fails in one call, the first fixture's set-up for the first test, and lets an abort escape the runner |
| `RunnerTheorems.EveryTestOnce` | thirdparty/cxxtest/cxxtest/TestRunner.h:63-90 | Unless the run aborts, exactly the active tests of the suites whose set-up succeeded are entered, each once, in list order |
| `RunnerTheorems.EntriesAreTotal` | thirdparty/cxxtest/cxxtest/TestRunner.h:63-90 | When every active suite's set-up succeeded the number of tests entered is the number that numTotalTests announces |
| `RunnerTheorems.SettingsDoNotLeak` | thirdparty/cxxtest/cxxtest/TestRunner.h:109-144 | Whatever tests and fixtures do to abort-on-fail and the dump size, every test starts with the values its suite's set-up left, every suite with those the world's set-up left, and the world with the defaults |
| `RunnerTheorems.CleanTestMirrors` | thirdparty/cxxtest/cxxtest/RealDescriptions.cpp:47-107 | Whatever the test body does, a test's calls are the fixtures' set-ups, set-up, run, tear-down, and the fixtures' tear-downs in reverse order, if the fixtures and the suite's set-up succeed and its tear-down does not abort; what the last fixture answers does not matter |
| `RunnerReports.RunTestTold` | thirdparty/cxxtest/cxxtest/TestRunner.h:96-107 | One test: behind each of its calls stand exactly the reports that the answer makes |
| `RunnerTheorems.RunTestAt` | thirdparty/cxxtest/cxxtest/TestRunner.h:96-107 | One test, whatever it does: the protocol holds throughout, the settings come back, and the run is ready for the next test unless an abort escaped |
| `RunnerTheorems.RunSuiteAt` | thirdparty/cxxtest/cxxtest/TestRunner.h:76-94 | The same for one suite |
| `RunnerTheorems.RunWorldAt` | thirdparty/cxxtest/cxxtest/TestRunner.h:55-74 | The same for the world |
| `TestRunners.TestRunner.RunAllTests` | thirdparty/cxxtest/cxxtest/TestRunner.h:37-43 | The entry point over the real lists comes out as specified: an abort that escapes the world is reported as one more failure |
| `TestRunners.TestRunner.RunWorld` | thirdparty/cxxtest/cxxtest/TestRunner.h:55-74 | The nested loops over the real lists produce exactly the specified trace, counters and settings |
| `TestRunners.TestRunner.RunSuite` | thirdparty/cxxtest/cxxtest/TestRunner.h:76-94 | One suite over its real test list produces exactly the specified trace, counters and settings |
| `TestRunners.TestRunner.RunTest` | thirdparty/cxxtest/cxxtest/TestRunner.h:96-107 | One test with its guard produces exactly the specified trace, counters and settings |
| `TestRunners.TestRunner.SetUpTest` | thirdparty/cxxtest/cxxtest/RealDescriptions.cpp:47-77 | Fixtures in order, then the suite's set-up; the first failure ends it, reports and answers false |
| `TestRunners.TestRunner.TearDownTest` | thirdparty/cxxtest/cxxtest/RealDescriptions.cpp:79-107 | The suite's tear-down, then the fixtures in reverse, as far as nothing fails |
| `TestRunners.TestRunner.SetUpSuite` | thirdparty/cxxtest/cxxtest/RealDescriptions.h:186-198 | A dynamic suite is created, and ready exactly if there is a suite afterwards; a static one is always ready |
| `TestRunners.TestRunner.WorldUp` | thirdparty/cxxtest/cxxtest/RealDescriptions.cpp:300-324 | Fixtures in order; a failure reported during a set-up resets the counters and counts as its failure |
| `TestRunners.TestRunner.WorldDown` | thirdparty/cxxtest/cxxtest/RealDescriptions.cpp:326-342 | Fixtures in reverse order until one fails |
| `Numbers.NumberToString` | thirdparty/cxxtest/cxxtest/ValueTraits.h:160-188 | For every unsigned n, base, skip s and maximum m: exactly the digits [s, s+m) of the canonical expansion of n and a NUL are written, nothing else changes, and the end is returned |
| `Numbers.WindowDigits` | thirdparty/cxxtest/cxxtest/ValueTraits.h:171-184 | The window has as many digits as asked for or left, and its i-th digit is n / base^p modulo base for its place p |
| `Numbers.DigitLooks` | thirdparty/cxxtest/cxxtest/ValueTraits.cpp:23-34 | Digits are 0-9 and then A-Z; larger ones print as a question mark |
| `Numbers.TextIsNumber` | thirdparty/cxxtest/cxxtest/ValueTraits.h:160-188 | With default arguments every number of up to eight bytes is printed in full; the text evaluates back to it and has no leading zero |
| `Numbers.ValueOfDigits` | thirdparty/cxxtest/cxxtest/ValueTraits.h:171-180 | The canonical expansion evaluates to n, and its first digit is not zero unless n is |
| `Numbers.DecimalFits` | thirdparty/cxxtest/cxxtest/ValueTraits.h:275-275 | A k-byte unsigned number has at most 3k decimal digits, so buffers of 1 + 3 * sizeof characters hold it |
| `Numbers.FindLeadingPower` | thirdparty/cxxtest/cxxtest/ValueTraits.h:171-175 | The first loop finds the power of the leading digit; no product wraps |
| `Numbers.LeadingPower` | thirdparty/cxxtest/cxxtest/ValueTraits.h:172-175 | While that loop runs, the next power is at most n, so `digit *= base` cannot overflow |
| `Numbers.Turn` | thirdparty/cxxtest/cxxtest/ValueTraits.h:177-184 | One turn of a digit loop takes digit j and leaves the rest of the expansion |
| `Factoring.CompositeLine` | thirdparty/cxxtest/cxxtest/Descriptions.cpp:33-79 | For every composite 32-bit number the line shows primes in strictly increasing order with powers whose product is n, and the printed text evaluates back to n |
| `Factoring.LineStart` | thirdparty/cxxtest/cxxtest/Descriptions.cpp:35-40 | Up to one test only the number is printed |
| `Factoring.PrimeLine` | thirdparty/cxxtest/cxxtest/Descriptions.cpp:67-77 | A face is printed exactly for the primes below 2^32 - 7: a sad one after failures, a straight one after warnings only, else a happy one; a prime from there on is printed as its own factor |
| `Factoring.FactorsCorrect` | thirdparty/cxxtest/cxxtest/Descriptions.cpp:45-65 | The 32-bit loop: the factors found are prime, strictly increasing, and with the rest multiply to the number; the rest is 1 or a larger prime |
| `Factoring.NextSearching` | thirdparty/cxxtest/cxxtest/Descriptions.cpp:45-45 | The factor never wraps, and everything below it stays divided out |
| `Factoring.RestIsPrime` | thirdparty/cxxtest/cxxtest/Descriptions.cpp:45-45 | When the 32-bit guard fails, wrapped or not, what is left is prime |
| `Factoring.TermsLook` | thirdparty/cxxtest/cxxtest/Descriptions.cpp:59-63 | How a factorisation looks: ` = 2^3 * 3^2 * 5` |
| `Factoring.TermsEvaluate` | thirdparty/cxxtest/cxxtest/Descriptions.cpp:59-63 | A printed product evaluates to the product of its factors |
| `Factoring.PrimeHasNoFactors` | thirdparty/cxxtest/cxxtest/Descriptions.cpp:45-65 | For a prime below 65535^2 the loop finds no factor: squares do not wrap before the guard fails |
| `Factoring.LargePrimeHasNoFactors` | thirdparty/cxxtest/cxxtest/Descriptions.cpp:45-65 | From 65535^2 to 2^32 - 7 a wrapped square of a smaller factor ends the loop before the prime is reached |
| `Factoring.TopPrimeIsFactored` | thirdparty/cxxtest/cxxtest/Descriptions.cpp:45-65 | From 2^32 - 7 on the guard always holds and a prime divides itself |
| `Factoring.StrTotalTests` | thirdparty/cxxtest/cxxtest/Descriptions.cpp:33-79 | The method over a char buffer writes exactly that line and its NUL |
| `Factoring.DivideOut` | thirdparty/cxxtest/cxxtest/Descriptions.cpp:49-52 | The inner loop divides the factor out and counts its power |
| `Factoring.CopyString` | thirdparty/cxxtest/cxxtest/ValueTraits.cpp:45-53 | Copies the characters and the NUL and returns the position of the NUL |
| `StringTraits.QuotingLosesNothing` | thirdparty/cxxtest/cxxtest/StdValueTraits.h:94-116 | For every byte string, decoding the quoted text gives the string back |
| `StringTraits.QuotingIsInjective` | thirdparty/cxxtest/cxxtest/StdValueTraits.h:94-116 | Two byte strings print alike only if they are equal |
| `StringTraits.UnescapeBody` | thirdparty/cxxtest/cxxtest/StdValueTraits.h:97-114 | From every position at which the outer loop arrives, the text printed from there on decodes to the remaining bytes: none is skipped or repeated |
| `StringTraits.PlainPrintsItself` | thirdparty/cxxtest/cxxtest/StdValueTraits.h:97-114 | A text of printable characters without a named escape and of whole multi-byte sequences prints as itself |
| `StringTraits.CharLooks` | thirdparty/cxxtest/cxxtest/ValueTraits.cpp:68-104 | The nine named escapes; a printable character without one is itself, and every other byte its two upper-case hexadecimal digits |
| `StringTraits.ByteRanges` | thirdparty/cxxtest/cxxtest/StdValueTraits.h:60-76 | Partial and lead bytes, and the announced lengths, by the values of the byte |
| `StringTraits.AsString` | thirdparty/cxxtest/cxxtest/StdValueTraits.h:94-116 | The two nested loops over a 32-bit index, `-- i` included, print exactly the specified text and read no byte out of range |
| `StringTraits.IsMb` | thirdparty/cxxtest/cxxtest/StdValueTraits.h:77-91 | True exactly if a start byte is followed by the whole sequence of partial bytes it announces; every index read is in range |
| `StringTraits.MbLength` | thirdparty/cxxtest/cxxtest/StdValueTraits.h:68-76 | The result n is between 1 and 6, all bits from bit 6 down to bit 8 - n are set, and bit 7 - n is not, unless n is 6 |
| `StringTraits.CharToString` | thirdparty/cxxtest/cxxtest/ValueTraits.cpp:68-104 | Writes the escape or the character and a NUL into five characters; hexadecimal escapes always have two digits |
| `StringTraits.UnitOfChar` | thirdparty/cxxtest/cxxtest/ValueTraits.cpp:68-104 | An escape reads back as its character, whatever follows it |
| `Imu.RangeIsExact` | code/core/system/proxy-imu/src/Pololualtimu10device.cpp:403-409 | The stored extremes are attained by readings seen since initialisation, and no reading lies outside them |
| `Imu.CalibratedIsAffine` | code/core/system/proxy-imu/src/Pololualtimu10device.cpp:411-414 | Calibrating is the affine map that takes the ends of the range to -target and target: value * (max - min) == target * (2v - min - max) |
| `Imu.MountingAxes` | code/core/system/proxy-imu/src/Pololualtimu10device.cpp:97-109 | Where the mounting rotation takes the three unit vectors, in the sines and cosines of roll, pitch and yaw |
| `Imu.CalibratedBounded` | code/core/system/proxy-imu/src/Pololualtimu10device.cpp:411-414 | Inside a nonempty range a calibrated value lies between -target and target, and the extremes map to these bounds |
| `Imu.RotationIsOrthogonal` | code/core/system/proxy-imu/src/Pololualtimu10device.cpp:94-109 | rX * rY * rZ keeps every inner product, whatever the mounting angles |
| `Imu.PublishedBounded` | code/core/system/proxy-imu/src/Pololualtimu10device.cpp:632-634 | A calibrated acceleration, mounted at any angles, has a squared length of at most 3 * 9.82^2 |
| `Imu.MountedBounded` | code/core/system/proxy-imu/src/Pololualtimu10device.cpp:632-634 | A vector whose axes are bounded by b has a squared length of at most 3 * b^2 after any mounting rotation |
| `Imu.AxisRotation` | code/core/system/proxy-imu/src/Pololualtimu10device.cpp:94-108 | Each of the three axis rotations keeps inner products |
| `Imu.Sensor.Calibrate` | code/core/system/proxy-imu/src/Pololualtimu10device.cpp:403-417 | In place, for each axis: the extremes are widened unless locked, and the reading is centred and scaled; the extremes remain those of everything seen |
| `Imu.Sensor.constructor` | code/core/system/proxy-imu/src/Pololualtimu10device.cpp:120-142 | Initialisation takes the first reading as both extremes |
| `Imu.Sensor.Read` | code/core/system/proxy-imu/src/Pololualtimu10device.cpp:394-401 | A published reading is the rotated vector whose i-th axis is the reading's i-th axis, rescaled in its new range; locked ranges stay; and within nonempty unlocked ranges the axes are within the target and the squared length at most 3 * target^2 |

## Left out

- ApplanixDecoder.ApplanixStringDecoder.NextString: at most 2^32 - 65568 bytes in the buffer and the chunk together, the bound that `ApplanixBound.ChunkBoundIsExact` shows to be exact on a fresh decoder; a call whose payload decoder does not return ends the run.
- ApplanixRuns.RunIsSafe: chunks of at most 2^31 - 131099 bytes; compaction can keep almost as much as the longest chunk has bytes. For single calls the bound is exact (`ApplanixBound.ChunkBoundIsExact`); for runs it suffices, and whether slightly longer chunks would do is not determined. A run ends with the first payload decoder that does not return.
- ApplanixRuns.FrameIsDecoded: covers the first frame of a fresh decoder; `ApplanixRuns.NextFrame` and `ApplanixRuns.PendingFrame` cover any call. That every frame is decoded eventually, or independently of how the input is cut into chunks, is not true of the guards.
- ApplanixPayloads.GetGRP3: floating-point and signed fields are their raw little-endian bits; a decoder called on a failed stream gives a message of zeros; the host is little-endian.
- ApplanixPayloads.GetGRP10001: raw data cut off by the end of the stream leaves its tail uninitialised in the source; the model stops at the bytes read.
- MachOTheorems.ParseCommutesWithChange: names are ASCII, as the codec of Python 2 demands; a fat file whose slice is itself a fat file is not well-formed; the recursion limit of Python appears as a number of frames, at least two.
- MachOChange.Change: opening the file and its errors are not part of this model.
- RelativePath.MakeRelativePath: works on the components of normalised absolute paths; `abspath`, `normpath`, `dirname` and `basename` are not part of this model.
- RelativePath.FewestParents: resolving `..` is by components, as `normpath` does; symbolic links are not part of this model.
- Homography.Solve: over exact reals, and on a singular matrix any vector may come out, as the library promises nothing there.
- Homography.Inverse: the same for a singular matrix.
- Homography.CameraProjection.Save: the matrix file and the printing are not part of this model.
- MockRegistry.Registry.Perform: the registry's own fallback mock is never destroyed, as it lives until the program ends.
- LinkedList.List.Nth: positions further than one past the last link are a null dereference in the source and excluded.
- LinkedList.Link.Detach: `detach` is for a member of the list, `attach` for a link in no list, as the constructors and destructors call them.
- TestRunners.TestRunner.RunWorld: user code does not change the lists while they are walked; global fixtures are a number of active ones; exception handling is compiled in; `id` stands for the identity of a suite or test description; that a suite pointer is null inside a test is not modelled.
- RunnerTheorems.EveryTestOnce: says nothing about a run that an escaping abort cuts short, beyond the protocol.
- RunnerCounts.RunCounts: runs of fewer than 2^32 events, with fewer than 2^32 reports in answer to any one call, as the counters wrap.
- Tracking.CountersAreFolds: covers fewer than 2^32 events since enterWorld; all kinds of failed events count alike and are one event; the listener calls are left out.
- Numbers.NumberToString: unsigned types only; the sign and the minimum of signed types are left out.
- Factoring.PrimeLine: that there is a prime from 2^32 - 7 on (4294967291 is one) is not proved.
- Factoring.StrTotalTests: the buffer has room for the line; the fixed buffers of the callers are left out.
- StringTraits.AsString: strings of less than 2^32 bytes, because on longer ones the 32-bit index wraps and the loop does not end; char strings only; wide strings print escapes of variable length, which cannot be decoded.
- The traits of `double`, and byte dumps.
- Imu.Sensor.Calibrate: over exact reals; an empty range, where the source divides by zero, leaves the result open. Gyroscope, altimeter, registers and the calibration file are left out.
- Imu.RotationIsOrthogonal: the sine and cosine of an angle are any two reals whose squares add up to one.
- Devices, sockets, shared memory, windows, conferences, listeners, printers and generated message classes; sending a message is an event.
