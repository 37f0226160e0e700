# cpp_utils pipeline stage, synchronous video iterator and file picker, in Dafny

This project models three pieces of the C++ header library `cpp_utils`.

- **`StageBase<InputType, OutputType>`** (`include/StageBase.h`), module `Stage`, file `stage.dfy`.
  A pipeline stage owns an input FIFO, an output FIFO, a stop flag (`ShouldClose`) and a ready
  flag (`IsReady_flag`). `Post` appends to the input queue. `Get` takes from the output queue
  without blocking. The worker loop takes the front input and calls the concrete stage's
  `ProcessFunction`. It appends the output only when that call returns true, and then pops the
  input either way. The model is the class `StageBase<I, O>`:
  - Both queues are `seq` fields.
  - `ProcessFunction` is a constant `process: I -> Option<O>`, where `None` means "returned false".
  - One pass of the worker loop is `WorkerStep`. `RunSteps(n)` makes `n` passes and `Drain` runs until the input queue is empty.
  - The spec function `Accepted(process, inputs)` lists the outputs of a batch of inputs in queue order. The lemmas about it state FIFO order: each input gives zero or one output, placed after the outputs of all earlier inputs.
- **`SyncVideoIterator<BATCH_SIZE>`** (`include/opencvtools.h`), module `OpenCvTools`, file
  `opencvtools.dfy`.
  - A `cv::VideoCapture` is a `Reader` value: open or not, a frame count and a position. The readers sit in an `array<Reader>`.
  - The file system is a map from path to `MediaFile`.
  - The constructor throws, so it is the method `Construct`, which returns a `Result`. It is proved against the pure `Validate`, whose contract gives the order of the three validation passes and which failure is reported.
  - `GetNext` and `Reset` update `frameIdx` and the readers in place. The invariant `Valid()` keeps every reader at the same position.
  - The lemmas about `NextIndex`/`IndexAfter` give the wrap-around of `frame_idx`.
- **`get_filenames<BATCH_SIZE>`** (`include/utils.h`), module `Utils`, file `utils.dfy`.
  - The directory listing is a sequence of `Entry(isRegularFile, extension, stem)`.
  - `GetFilenames` is the loop as written: it writes stems into an array, counts in a `uint8_t`, breaks early, and throws when too few matches are found. It is proved against `Matches`, the stems of all matching entries in listing order.

`wrappers.dfy` holds the `Option` and `Result` datatypes and `Min`.

Inputs that the source takes from the outside become parameters:
- the processor becomes the function `process`;
- the file system becomes the `FileSystem` map and the `MediaFile` records;
- the directory listing becomes a sequence of `Entry` values;
- the scheduling of the worker thread becomes the caller's calls to `WorkerStep`.

## Model

| member | source | states |
|---|---|---|
| `Stage.Emitted` | include/StageBase.h:85-87 | one processor call adds no output when it returns false, and exactly its output when it returns true |
| `Stage.AcceptedAppend` | include/StageBase.h:77-92 | processing a batch and then another gives the outputs of the first followed by the outputs of the second: the worker never reorders |
| `Stage.OutputOfInput` | include/StageBase.h:81-89 | input k adds exactly zero or one outputs; an accepted input's output sits at the position right after the outputs of all earlier inputs |
| `Stage.AcceptedSnoc` | include/StageBase.h:81-89 | processing one more input appends exactly what that input emits: nothing when the processor declines, its output when it accepts |
| `Stage.AcceptedPrefix` | include/StageBase.h:77-92 | the outputs of a shorter prefix of the inputs are a prefix of the outputs of a longer one, and j - i more inputs add at most j - i outputs |
| `Stage.AcceptedAtMostOne` | include/StageBase.h:83-88 | there are never more outputs than inputs |
| `Stage.StageBase.constructor` | include/StageBase.h:62-66 | both queues are empty and both flags are false (IsReady is false after construction) |
| `Stage.StageBase.StartWorker` | include/StageBase.h:76 | the worker sets the ready flag when it starts; queues and stop flag are unchanged |
| `Stage.StageBase.WorkerStep` | include/StageBase.h:77-89 | when the stop flag is clear and the input queue is non-empty, one pass removes exactly the front input and appends its output only if the processor accepted it; with an empty queue or the stop flag set, nothing changes; never more than one output |
| `Stage.StageBase.RunSteps` | include/StageBase.h:77-92 | n passes process the first min(n, queue length) inputs in order and append their accepted outputs; after Terminate no input is processed |
| `Stage.StageBase.Drain` | include/StageBase.h:77-92 | running to quiescence empties the input queue and makes the output queue the old output queue followed by the accepted outputs of the old input queue, in order |
| `Stage.StageBase.Post` | include/StageBase.h:98-102 | the item goes to the back of the input queue; the output queue and the flags are unchanged; no capacity bound |
| `Stage.StageBase.Get` | include/StageBase.h:105-114 | true exactly when the output queue is non-empty; then the front element is returned and removed; otherwise the caller's variable and both queues are unchanged, so repeated calls on an empty queue behave alike |
| `Stage.StageBase.GetInFIFOSize` | include/StageBase.h:117-120 | the input queue length truncated to 16 bits (length mod 65536), exact below 65536 |
| `Stage.StageBase.GetOutFIFOSize` | include/StageBase.h:123-126 | the output queue length truncated to 16 bits (length mod 65536), exact below 65536 |
| `Stage.StageBase.Terminate` | include/StageBase.h:129-133 | sets the stop flag, requires a started worker that is not yet stopped (the thread handle is joined once), and leaves queued inputs where they are |
| `Stage.StageBase.IsReady` | include/StageBase.h:136-139 | returns the ready flag |
| `Stage.PostDrainCollect` | include/StageBase.h:98-113 | posting a list of items, draining, then calling Get until it fails yields exactly the accepted outputs, in input order: nothing is lost or duplicated |
| `Stage.DoublingScenario` | include/StageBase.h:77-113 | with a doubling processor, posting 5, 10, 15 and draining gives 10, 20, 30 from three Gets, and a fourth Get finds nothing |
| `Stage.FilteringScenario` | include/StageBase.h:81-113 | with a processor that declines negatives, posting -1 and 4 gives exactly one output, 8 |
| `Stage.TerminateScenario` | include/StageBase.h:77-133 | after Terminate with three inputs queued, no number of further passes processes them: input depth 3, output depth 1 |
| `OpenCvTools.Reader.NextFrame` | include/opencvtools.h:84-86 | what `read` puts into the caller's frame: a frame exactly when the reader is open and has a frame left, and then it is the frame at the reader's current position, below the frame count |
| `OpenCvTools.Reader.AfterRead` | include/opencvtools.h:84-86 | a read advances the reader one frame when a frame remains and leaves it in place otherwise |
| `OpenCvTools.Reader.Rewound` | include/opencvtools.h:125 | setting the frame position to 0 keeps the reader open with the same frame count |
| `OpenCvTools.OpenFile` | include/opencvtools.h:43 | a freshly opened reader is at frame 0, with the file's frame count, and open exactly when the file can be decoded |
| `OpenCvTools.VideoPaths` | include/opencvtools.h:36 | the k-th file name is resources + fnames[k] + ".mp4" |
| `OpenCvTools.FirstFailure` | include/opencvtools.h:35-64 | returns the least index at or after `from` that a pass rejects, or none when all pass |
| `OpenCvTools.AdjacentEqualImpliesAllEqual` | include/opencvtools.h:54-64 | if each adjacent pair of frame counts is equal, every frame count equals the first |
| `OpenCvTools.Validate` | include/opencvtools.h:34-67 | succeeds exactly when there is at least one file, every file exists, every reader opens and adjacent counts agree; then every file's frame count equals the result, which is reader 0's count. Otherwise the error names the first failing file of the first failing pass: existence, then open, then frame counts. No files: the at(0) out-of-range error |
| `OpenCvTools.OpenedReadersAgree` | include/opencvtools.h:46-66 | readers opened on files that pass all three checks are open, at frame 0, and share reader 0's frame count, which becomes frame_count |
| `OpenCvTools.OpenAll` | include/opencvtools.h:35-44 | the first loop: either every file exists and reader k is the opened file k, or the index of the first missing file is reported |
| `OpenCvTools.FirstClosed` | include/opencvtools.h:46-52 | the second loop: the first reader that is not open, or none when every reader is open |
| `OpenCvTools.FirstCountMismatch` | include/opencvtools.h:54-64 | the third loop: the first index from 1 whose frame count differs from its predecessor's, or none when all adjacent counts agree |
| `OpenCvTools.Construct` | include/opencvtools.h:34-67 | the constructor's three loops (OpenAll, FirstClosed, FirstCountMismatch) fail exactly as Validate says; on success the iterator is valid, frame_idx is 0, frame_count is Validate's count and reader k is the opened file k |
| `OpenCvTools.SyncVideoIterator.constructor` | include/opencvtools.h:66 | stores the validated readers and frame count; frame_idx starts at 0 |
| `OpenCvTools.SyncVideoIterator.Reset` | include/opencvtools.h:121-127 | frame_idx becomes 0 and every reader is rewound to frame 0, otherwise unchanged |
| `OpenCvTools.SyncVideoIterator.GetNext` | include/opencvtools.h:79-89 | rewinds exactly when frame_idx equals frame_count, then reads one frame from every reader and increments frame_idx. All readers yield the same frame: with frame_count >= 1 it is frame frame_idx - 1 and frame_idx stays in 1..frame_count; with no frames every read yields nothing |
| `OpenCvTools.SyncVideoIterator.GetFramecount` | include/opencvtools.h:98-100 | returns frame_count, which every reader has, and changes nothing |
| `OpenCvTools.NextIndex` | include/opencvtools.h:80-88 | the frame_idx rule of one get_next: reset to 0 when frame_idx equals frame_count, then increment. The result is at least 1 and at most one more than before; it is 1 exactly after a rewind or from 0; from 0..frame_count it stays within 1..frame_count |
| `OpenCvTools.IndexAfter` | include/opencvtools.h:80-88 | frame_idx after k calls of get_next from frame_idx 0: never more than k, and 0 exactly when k is 0 (its range and period are the lemmas below) |
| `OpenCvTools.SyncVideoIterator.ResetThenGetNext` | include/opencvtools.h:79-89 | reset followed by k calls of get_next leaves frame_idx at IndexAfter(k, frame_count), so the four lemmas below are about get_next itself; the readers stay valid and the last call's frames are those GetNext gives |
| `OpenCvTools.IndexRampsUp` | include/opencvtools.h:80-88 | IndexAfter(k, frame_count) == k for 1 <= k <= frame_count: from construction or reset, the first frame_count calls of get_next (ResetThenGetNext) take frame_idx to 1, 2, ..., frame_count |
| `OpenCvTools.IndexWrapsAround` | include/opencvtools.h:80-88 | IndexAfter(k + frame_count, frame_count) == IndexAfter(k, frame_count) for k >= 1: after the first call of get_next, frame_idx repeats with period frame_count, wrapping to 1 after it reaches frame_count |
| `OpenCvTools.IndexInRange` | include/opencvtools.h:80-88 | with frame_count >= 1, 1 <= IndexAfter(k, frame_count) <= frame_count for every k >= 1: frame_idx lies in 1..frame_count after every call of get_next |
| `OpenCvTools.IndexGrowsWithoutFrames` | include/opencvtools.h:80-88 | IndexAfter(k, 0) == k: with frame_count == 0, frame_idx after k calls of get_next is k, so it is never reset after the first call |
| `Utils.IsMatch` | include/utils.h:37 | an entry is picked exactly when it is a regular file and its extension equals the wanted one; directories and other entries are never picked, whatever their name |
| `Utils.MatchesStep` | include/utils.h:37-41 | examining one more entry adds its stem exactly when it is a regular file with the wanted extension, and nothing otherwise |
| `Utils.MatchesAppend` | include/utils.h:36-45 | the matches of a concatenated listing are the matches of each part, in order |
| `Utils.MatchesAtMostOnePerEntry` | include/utils.h:37-41 | each entry yields at most one name |
| `Utils.LaterEntriesIgnored` | include/utils.h:42-44 | once the first i entries hold n matches, the entries after them cannot change the first n names, so the early break loses nothing |
| `Utils.AllMatching` | include/utils.h:37 | a listing of matching entries yields one name per entry |
| `Utils.GetFilenames` | include/utils.h:30-53 | as written. For 1 <= BATCH_SIZE <= 255: the stems of the first BATCH_SIZE matching regular files in listing order, or the too-few error with the number found; non-matching entries are skipped. BATCH_SIZE = 0: fails with out-of-range iff the first entry matches. BATCH_SIZE >= 256: always fails, reporting the match count mod 256 |
| `Utils.GetFilenamesWideCounter` | include/utils.h:30-53 | the same loop with a counter as wide as BATCH_SIZE: for every BATCH_SIZE >= 1, the first BATCH_SIZE matches or the too-few error with the number found |
| `Utils.Batch256Counterexample` | include/utils.h:35-46 | 256 matching files with BATCH_SIZE = 256: as written the call fails and reports 0 found; with a wide counter it returns 256 names |

## Left out

- Threads, the mutex, the sleeps and `join` (include/StageBase.h:32-33, 80, 91, 94, 132). The worker is an explicit step that the caller invokes. The source runs it on its own thread, which a subclass must create: `StageBase` never creates `ThreadHandle`.
- `Stage.StageBase.Get`, `Stage.StageBase.GetInFIFOSize` and `Stage.StageBase.GetOutFIFOSize` read the queues without the mutex, which is a data race against the worker. A sequential model cannot show it.
- Terminate waits for the worker's current pass to finish. In the model no pass is in flight when Terminate is called.
- `MAXINFIFOSIZE` is declared and never used, so `Post` has no capacity bound. `SLEEP_MICROSECONDS` is timing only.
- The timing fields `t1`, `t2`, `duration`, `total_dt` and `n_iterations` are never read or written.
- `Stage.StageBase.WorkerStep`: a `ProcessFunction` that throws ends the whole process (include/StageBase.h:85): nothing in the worker thread catches the exception, so `std::terminate` runs. The model's `process` is total, and this failure is not modelled.
- `ProcessFunction` is a pure function of the input. The source's virtual method gets a mutable reference to the input and may change the subclass's own state. The input is popped right after the call, so only the output matters, and stateful processors are not modelled.
- OpenCV decoding is not modelled: `cv::Mat` frames become frame numbers. The `double` returned by `get(CAP_PROP_FRAME_COUNT)` becomes a `nat`. `get_wh` reads width and height as floats and is not modelled.
- `OpenCvTools.SyncVideoIterator.GetNext`: the model assumes that `get(CAP_PROP_FRAME_COUNT)` is the exact number of frames that decode, that every `read` before the end succeeds, and that `set(CAP_PROP_POS_FRAMES, 0)` always succeeds. Its guarantee that every reader yields the same frame, number frame_idx - 1, rests on this. OpenCV takes the frame count from container metadata, which can differ from what decodes, and a corrupt frame makes `read` fail early. In either case the source's readers fall out of step, or return empty frames until the next rewind. The model does not capture this.
- The `uint16_t` loop counters in the SyncVideoIterator constructor and in `reset`/`get_next` are not modelled. BATCH_SIZE is a compile-time constant, assumed below 65536.
- `std::filesystem::exists`, the order of `directory_iterator` and the meaning of `extension()`/`stem()` are not modelled. The file system is a given map and the listing a given sequence.
- `Utils.GetFilenames`: `std::filesystem::directory_iterator(resources)` (include/utils.h:36) throws `filesystem_error` when the directory is missing or unreadable, before any entry is read. The model assumes the listing can be read.
- `Utils.GetFilenames`: the documentation (include/utils.h:10-11) promises the first matches "in lexicographic order". `directory_iterator` gives no order guarantee, so the code does not keep that promise. The model proves only listing order: the result is the first matches in the order the iterator gives them.
- spdlog logging and the text of error messages are not modelled. Failures are error values that carry the reported index or count.
- src/jsontools.cpp and include/jsontools.h are not part of this model: document parsing, schema checks, file writing, the timestamp and the recursive file scan are I/O and library wrappers.
- include/clitools.h is not part of this model: it is a console progress bar with a float percentage.

## Findings

| source | as written | input that shows it | evidently intended | confidence | as-written member | corrected member |
|---|---|---|---|---|---|---|
| include/utils.h:35-46 | the match counter `count` is a `uint8_t`. For BATCH_SIZE >= 256 it wraps before it can equal BATCH_SIZE, so the final `count < BATCH_SIZE` always throws | a directory with 256 matching files and BATCH_SIZE = 256: throws "only 0 found" | the documentation promises the first BATCH_SIZE matches whenever that many exist, for any BATCH_SIZE | medium, not executed | `Utils.GetFilenames` (its BATCH_SIZE >= 256 postcondition) and `Utils.Batch256Counterexample` | `Utils.GetFilenamesWideCounter` |
