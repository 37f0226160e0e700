/**
  SyncVideoIterator of include/opencvtools.h: BATCH_SIZE video readers that are
  opened together, checked for equal length, and read in lock step with an
  automatic rewind at the end.

  A cv::VideoCapture is abstracted as a Reader value (open or not, a frame
  count, a position); a decoded frame is abstracted as the index of the frame
  read. The file system is a map from path to what the file at that path holds.
*/
module OpenCvTools {
  import opened Wrappers

  /** What a file that exists holds: whether a reader can open it, and its frame count. */
  datatype MediaFile = MediaFile(decodable: bool, frameCount: nat)

  type FileSystem = map<string, MediaFile>

  /** An abstract cv::VideoCapture. */
  datatype Reader = Reader(isOpen: bool, frameCount: nat, position: nat)
  {
    /** The frame `read` yields: the one at the current position, or none past the end. */
    function NextFrame(): (r: Option<nat>)
      ensures r.Some? <==> isOpen && position < frameCount
      ensures r.Some? ==> r.value == position && r.value < frameCount
    {
      if isOpen && position < frameCount then Some(position) else None
    }

    /** The reader after `read`: one frame further on, or where it was when nothing was read. */
    function AfterRead(): (r: Reader)
      ensures r.isOpen == isOpen && r.frameCount == frameCount
      ensures r.position == if NextFrame().Some? then position + 1 else position
    {
      if NextFrame().Some? then this.(position := position + 1) else this
    }

    /** The reader after `set(CAP_PROP_POS_FRAMES, 0)`. */
    function Rewound(): (r: Reader)
      ensures r.isOpen == isOpen && r.frameCount == frameCount && r.position == 0
    {
      this.(position := 0)
    }
  }

  /** A default-constructed cv::VideoCapture. */
  const Closed := Reader(false, 0, 0)

  /** cv::VideoCapture(filename) on a file that exists: at the first frame, open if the file can be decoded. */
  function OpenFile(m: MediaFile): (r: Reader)
    ensures r.isOpen == m.decodable && r.frameCount == m.frameCount && r.position == 0
  {
    Reader(m.decodable, m.frameCount, 0)
  }

  /** The file name the constructor builds per video: resources + name + ".mp4". */
  function VideoPaths(resources: string, fnames: seq<string>): (paths: seq<string>)
    ensures |paths| == |fnames|
    ensures forall k :: 0 <= k < |fnames| ==> paths[k] == resources + fnames[k] + ".mp4"
  {
    seq(|fnames|, k requires 0 <= k < |fnames| => resources + fnames[k] + ".mp4")
  }

  /** Why construction throws; the index is the `cidx` reported. */
  datatype OpenError =
    | Missing(index: nat)             // std::filesystem::exists is false
    | NotOpened(index: nat)           // isOpened() is false
    | FrameCountMismatch(index: nat)  // counts of cidx - 1 and cidx differ
    | NoVideos                        // BATCH_SIZE == 0: video_readers.at(0) throws std::out_of_range

  /** The three validation passes of the constructor, in the order they run. */
  datatype Pass = Existence | Opening | FrameCounts

  function FrameCountOf(fs: FileSystem, paths: seq<string>, k: nat): nat
    requires k < |paths|
  {
    if paths[k] in fs then fs[paths[k]].frameCount else 0
  }

  /** Whether video `k` gets through pass `p`. */
  predicate Passes(p: Pass, fs: FileSystem, paths: seq<string>, k: nat)
    requires k < |paths|
  {
    match p
    case Existence => paths[k] in fs
    case Opening => paths[k] in fs && fs[paths[k]].decodable
    case FrameCounts => k == 0 || FrameCountOf(fs, paths, k - 1) == FrameCountOf(fs, paths, k)
  }

  predicate AllPass(p: Pass, fs: FileSystem, paths: seq<string>)
  {
    forall k :: 0 <= k < |paths| ==> Passes(p, fs, paths, k)
  }

  /** `k` is the first video that pass `p` rejects. */
  predicate IsFirstFailure(p: Pass, fs: FileSystem, paths: seq<string>, k: nat)
  {
    && k < |paths|
    && !Passes(p, fs, paths, k)
    && forall j :: 0 <= j < k ==> Passes(p, fs, paths, j)
  }

  /** The first video at or after `from` that pass `p` rejects, if any. */
  function FirstFailure(p: Pass, fs: FileSystem, paths: seq<string>, from: nat): (r: Option<nat>)
    requires from <= |paths|
    ensures r.Some? ==> from <= r.value < |paths| && !Passes(p, fs, paths, r.value)
    ensures r.Some? ==> forall j :: from <= j < r.value ==> Passes(p, fs, paths, j)
    ensures r.None? ==> forall j :: from <= j < |paths| ==> Passes(p, fs, paths, j)
    decreases |paths| - from
  {
    if from == |paths| then None
    else if !Passes(p, fs, paths, from) then Some(from)
    else FirstFailure(p, fs, paths, from + 1)
  }

  /** If every adjacent pair of frame counts is equal, every count equals the first. */
  lemma {:induction false} AdjacentEqualImpliesAllEqual(fs: FileSystem, paths: seq<string>, k: nat)
    requires AllPass(FrameCounts, fs, paths)
    requires k < |paths|
    ensures FrameCountOf(fs, paths, k) == FrameCountOf(fs, paths, 0)
  {
    if k > 0 {
      assert Passes(FrameCounts, fs, paths, k);
      AdjacentEqualImpliesAllEqual(fs, paths, k - 1);
    }
  }

  /**
    The outcome of the constructor: existence of every file is checked first,
    then that every reader opened, then the adjacent frame counts; the first
    failing video of the first failing pass is the one reported. On success the
    common frame count is the result.
  */
  function Validate(fs: FileSystem, paths: seq<string>): (r: Result<nat, OpenError>)
    ensures r.Ok? <==>
      |paths| >= 1 && AllPass(Existence, fs, paths) && AllPass(Opening, fs, paths) && AllPass(FrameCounts, fs, paths)
    ensures r.Ok? ==> forall k :: 0 <= k < |paths| ==> paths[k] in fs && fs[paths[k]].frameCount == r.value
    ensures r.Ok? ==> r.value == fs[paths[0]].frameCount
    ensures r == Err(NoVideos) <==> |paths| == 0
    ensures r.Err? && r.error.Missing? ==> IsFirstFailure(Existence, fs, paths, r.error.index)
    ensures r.Err? && r.error.NotOpened? ==>
      AllPass(Existence, fs, paths) && IsFirstFailure(Opening, fs, paths, r.error.index)
    ensures r.Err? && r.error.FrameCountMismatch? ==>
      AllPass(Existence, fs, paths) && AllPass(Opening, fs, paths) &&
      IsFirstFailure(FrameCounts, fs, paths, r.error.index) && r.error.index >= 1
  {
    match FirstFailure(Existence, fs, paths, 0)
    case Some(k) => Err(Missing(k))
    case None =>
      match FirstFailure(Opening, fs, paths, 0)
      case Some(k) => Err(NotOpened(k))
      case None =>
        match FirstFailure(FrameCounts, fs, paths, 0)
        case Some(k) => Err(FrameCountMismatch(k))
        case None =>
          if |paths| == 0 then Err(NoVideos)
          else
            assert forall k :: 0 <= k < |paths| ==> paths[k] in fs && fs[paths[k]].frameCount == fs[paths[0]].frameCount by {
              forall k | 0 <= k < |paths| ensures paths[k] in fs && fs[paths[k]].frameCount == fs[paths[0]].frameCount {
                assert Passes(Existence, fs, paths, k) && Passes(Existence, fs, paths, 0);
                AdjacentEqualImpliesAllEqual(fs, paths, k);
              }
            }
            Ok(fs[paths[0]].frameCount)
  }

  /** frame_idx after a get_next that started from `idx`. */
  function NextIndex(idx: nat, frameCount: nat): (r: nat)
    ensures 1 <= r <= idx + 1
    ensures r == 1 <==> idx == frameCount || idx == 0
    ensures frameCount >= 1 && idx <= frameCount ==> r <= frameCount
  {
    if idx == frameCount then 1 else idx + 1
  }

  /** frame_idx after `calls` calls of get_next on a fresh iterator. */
  function IndexAfter(calls: nat, frameCount: nat): (r: nat)
    ensures r <= calls
    ensures r == 0 <==> calls == 0
  {
    if calls == 0 then 0 else NextIndex(IndexAfter(calls - 1, frameCount), frameCount)
  }

  /** On a fresh iterator with at least one frame, the first frame_count calls take frame_idx to 1, 2, ..., frame_count. */
  lemma {:induction false} IndexRampsUp(calls: nat, frameCount: nat)
    requires 1 <= calls <= frameCount
    ensures IndexAfter(calls, frameCount) == calls
  {
    if calls > 1 {
      IndexRampsUp(calls - 1, frameCount);
    }
  }

  /** After the first call, frame_idx repeats with period frame_count: the call after frame_idx reaches frame_count gives 1 again. */
  lemma {:induction false} IndexWrapsAround(calls: nat, frameCount: nat)
    requires frameCount >= 1 && calls >= 1
    ensures IndexAfter(calls + frameCount, frameCount) == IndexAfter(calls, frameCount)
  {
    if calls == 1 {
      IndexRampsUp(frameCount, frameCount);
    } else {
      IndexWrapsAround(calls - 1, frameCount);
      assert calls + frameCount - 1 == (calls - 1) + frameCount;
    }
  }

  /** With at least one frame, frame_idx stays within 1..frame_count after every call. */
  lemma {:induction false} IndexInRange(calls: nat, frameCount: nat)
    requires frameCount >= 1 && calls >= 1
    ensures 1 <= IndexAfter(calls, frameCount) <= frameCount
  {
    if calls > 1 {
      IndexInRange(calls - 1, frameCount);
    }
  }

  /** With zero frames, get_next never rewinds after the first call: frame_idx grows without bound. */
  lemma {:induction false} IndexGrowsWithoutFrames(calls: nat)
    ensures IndexAfter(calls, 0) == calls
  {
    if calls > 0 {
      IndexGrowsWithoutFrames(calls - 1);
    }
  }

  class SyncVideoIterator {
    const readers: array<Reader>
    /** frame_count: assigned once, by the constructor. */
    const frameCount: nat
    var frameIdx: nat

    /**
      Every reader is open, has frame_count frames and sits at the same
      position, frame_idx (which stays at 0 while there are no frames).
    */
    ghost predicate Valid()
      reads this, readers
    {
      && readers.Length >= 1
      && (forall i :: 0 <= i < readers.Length ==>
            readers[i].isOpen && readers[i].frameCount == frameCount &&
            readers[i].position == Min(frameIdx, frameCount))
      && (frameCount >= 1 ==> frameIdx <= frameCount)
    }

    /** The end of the constructor, once the readers have passed validation; frame_idx starts at 0. */
    constructor (readers: array<Reader>, frameCount: nat)
      requires readers.Length >= 1
      requires forall i :: 0 <= i < readers.Length ==>
        readers[i].isOpen && readers[i].frameCount == frameCount && readers[i].position == 0
      ensures this.readers == readers && this.frameCount == frameCount
      ensures frameIdx == 0
      ensures Valid()
    {
      this.readers := readers;
      this.frameCount := frameCount;
      frameIdx := 0;
    }

    /** reset: frame_idx to 0 and every reader back to its first frame. */
    method Reset()
      requires Valid()
      modifies this, readers
      ensures Valid()
      ensures frameIdx == 0
      ensures forall i :: 0 <= i < readers.Length ==> readers[i] == old(readers[i]).Rewound()
    {
      frameIdx := 0;
      for cidx := 0 to readers.Length
        invariant frameIdx == 0
        invariant forall j :: 0 <= j < cidx ==> readers[j] == old(readers[j]).Rewound()
        invariant forall j :: cidx <= j < readers.Length ==> readers[j] == old(readers[j])
      {
        readers[cidx] := readers[cidx].Rewound();
      }
    }

    /**
      get_next: rewinds exactly when frame_idx has reached frame_count, then
      reads one frame from every reader into `frames` and advances frame_idx.
      All readers yield the same frame; with at least one frame it is frame
      number frame_idx - 1 and frame_idx stays within 1..frame_count.
    */
    method GetNext(frames: array<Option<nat>>)
      requires Valid()
      requires frames.Length == readers.Length
      modifies this, readers, frames
      ensures Valid()
      ensures frameIdx == NextIndex(old(frameIdx), frameCount)
      ensures forall i :: 0 <= i < readers.Length ==>
        readers[i] == (if old(frameIdx) == frameCount then old(readers[i]).Rewound() else old(readers[i])).AfterRead()
      ensures frameCount >= 1 ==> 1 <= frameIdx <= frameCount
      ensures frameCount >= 1 ==> forall i :: 0 <= i < frames.Length ==> frames[i] == Some(frameIdx - 1)
      ensures frameCount == 0 ==> forall i :: 0 <= i < frames.Length ==> frames[i] == None
    {
      if frameIdx == frameCount {
        Reset();
      }
      ghost var start := readers[..];
      ghost var idx := frameIdx;
      for cidx := 0 to readers.Length
        invariant frameIdx == idx
        invariant forall j :: 0 <= j < cidx ==> readers[j] == start[j].AfterRead() && frames[j] == start[j].NextFrame()
        invariant forall j :: cidx <= j < readers.Length ==> readers[j] == start[j]
      {
        frames[cidx] := readers[cidx].NextFrame();
        readers[cidx] := readers[cidx].AfterRead();
      }
      frameIdx := frameIdx + 1;
    }

    /**
      reset followed by `calls` calls of get_next: frame_idx ends at
      IndexAfter(calls, frame_count), the value the lemmas about IndexAfter
      describe, and the last call's frames are those of get_next.
    */
    method ResetThenGetNext(frames: array<Option<nat>>, calls: nat)
      requires Valid()
      requires frames.Length == readers.Length
      modifies this, readers, frames
      ensures Valid()
      ensures frameIdx == IndexAfter(calls, frameCount)
      ensures calls >= 1 && frameCount >= 1 ==> forall i :: 0 <= i < frames.Length ==> frames[i] == Some(frameIdx - 1)
      ensures calls >= 1 && frameCount == 0 ==> forall i :: 0 <= i < frames.Length ==> frames[i] == None
    {
      Reset();
      for j := 0 to calls
        invariant Valid()
        invariant frameIdx == IndexAfter(j, frameCount)
        invariant j >= 1 && frameCount >= 1 ==> forall i :: 0 <= i < frames.Length ==> frames[i] == Some(frameIdx - 1)
        invariant j >= 1 && frameCount == 0 ==> forall i :: 0 <= i < frames.Length ==> frames[i] == None
      {
        GetNext(frames);
      }
    }

    /** get_framecount: the common frame count of all readers; nothing changes. */
    method GetFramecount() returns (count: nat)
      requires Valid()
      ensures count == frameCount
      ensures forall i :: 0 <= i < readers.Length ==> readers[i].frameCount == count
    {
      count := frameCount;
    }
  }

  /** Readers opened on files that pass all three checks are open, at frame 0, and share reader 0's frame count. */
  lemma OpenedReadersAgree(fs: FileSystem, paths: seq<string>, readers: seq<Reader>)
    requires |paths| >= 1 && |readers| == |paths|
    requires AllPass(Existence, fs, paths) && AllPass(Opening, fs, paths) && AllPass(FrameCounts, fs, paths)
    requires forall j :: 0 <= j < |paths| ==> paths[j] in fs && readers[j] == OpenFile(fs[paths[j]])
    ensures forall k :: 0 <= k < |readers| ==>
      readers[k].isOpen && readers[k].frameCount == readers[0].frameCount && readers[k].position == 0
  {
    forall k | 0 <= k < |readers|
      ensures readers[k].isOpen && readers[k].frameCount == readers[0].frameCount && readers[k].position == 0
    {
      assert Passes(Opening, fs, paths, k) && Passes(Opening, fs, paths, 0);
      AdjacentEqualImpliesAllEqual(fs, paths, k);
    }
  }

  /**
    The first loop of the constructor: open a reader on every file, stopping at
    the first file that does not exist.
  */
  method OpenAll(fs: FileSystem, resources: string, fnames: seq<string>) returns (readers: array<Reader>, missing: Option<nat>)
    ensures fresh(readers) && readers.Length == |fnames|
    ensures missing.Some? ==> IsFirstFailure(Existence, fs, VideoPaths(resources, fnames), missing.value)
    ensures missing.None? ==> forall j :: 0 <= j < |fnames| ==>
      Passes(Existence, fs, VideoPaths(resources, fnames), j) && readers[j] == OpenFile(fs[VideoPaths(resources, fnames)[j]])
  {
    ghost var paths := VideoPaths(resources, fnames);
    readers := new Reader[|fnames|](_ => Closed);
    for cidx := 0 to |fnames|
      invariant forall j :: 0 <= j < cidx ==> Passes(Existence, fs, paths, j) && readers[j] == OpenFile(fs[paths[j]])
    {
      var filename := resources + fnames[cidx] + ".mp4";
      assert filename == paths[cidx];
      if filename !in fs {
        assert IsFirstFailure(Existence, fs, paths, cidx);
        return readers, Some(cidx);
      }
      readers[cidx] := OpenFile(fs[filename]);
    }
    return readers, None;
  }

  /** The second loop of the constructor: the first reader that is not open, if any. */
  method FirstClosed(readers: array<Reader>) returns (closed: Option<nat>)
    ensures closed.Some? ==> closed.value < readers.Length && !readers[closed.value].isOpen
    ensures closed.Some? ==> forall j :: 0 <= j < closed.value ==> readers[j].isOpen
    ensures closed.None? ==> forall j :: 0 <= j < readers.Length ==> readers[j].isOpen
  {
    for cidx := 0 to readers.Length
      invariant forall j :: 0 <= j < cidx ==> readers[j].isOpen
    {
      if !readers[cidx].isOpen {
        return Some(cidx);
      }
    }
    return None;
  }

  /** The third loop of the constructor: the first reader whose frame count differs from its predecessor's, if any. */
  method FirstCountMismatch(readers: array<Reader>) returns (mismatch: Option<nat>)
    ensures mismatch.Some? ==>
      1 <= mismatch.value < readers.Length && readers[mismatch.value - 1].frameCount != readers[mismatch.value].frameCount
    ensures mismatch.Some? ==> forall j :: 1 <= j < mismatch.value ==> readers[j - 1].frameCount == readers[j].frameCount
    ensures mismatch.None? ==> forall j :: 1 <= j < readers.Length ==> readers[j - 1].frameCount == readers[j].frameCount
  {
    var cidx := 1;
    while cidx < readers.Length
      invariant 1 <= cidx
      invariant forall j :: 1 <= j < cidx && j < readers.Length ==> readers[j - 1].frameCount == readers[j].frameCount
    {
      if readers[cidx - 1].frameCount != readers[cidx].frameCount {
        return Some(cidx);
      }
      cidx := cidx + 1;
    }
    return None;
  }

  /**
    The constructor SyncVideoIterator(resources, fnames), which throws on
    failure: three passes over the readers, then frame_count from reader 0.
  */
  method Construct(fs: FileSystem, resources: string, fnames: seq<string>) returns (r: Result<SyncVideoIterator, OpenError>)
    ensures r.Err? <==> Validate(fs, VideoPaths(resources, fnames)).Err?
    ensures r.Err? ==> r.error == Validate(fs, VideoPaths(resources, fnames)).error
    ensures r.Ok? ==>
      && fresh(r.value) && fresh(r.value.readers)
      && r.value.Valid() && r.value.frameIdx == 0
      && r.value.frameCount == Validate(fs, VideoPaths(resources, fnames)).value
      && r.value.readers.Length == |fnames|
      && forall k :: 0 <= k < |fnames| ==> r.value.readers[k] == OpenFile(fs[resources + fnames[k] + ".mp4"])
  {
    ghost var paths := VideoPaths(resources, fnames);
    var readers, missing := OpenAll(fs, resources, fnames);
    if missing.Some? {
      return Err(Missing(missing.value));
    }

    var closed := FirstClosed(readers);
    if closed.Some? {
      assert IsFirstFailure(Opening, fs, paths, closed.value);
      return Err(NotOpened(closed.value));
    }
    assert AllPass(Opening, fs, paths);

    var mismatch := FirstCountMismatch(readers);
    if mismatch.Some? {
      assert IsFirstFailure(FrameCounts, fs, paths, mismatch.value);
      return Err(FrameCountMismatch(mismatch.value));
    }
    assert AllPass(FrameCounts, fs, paths);

    if |fnames| == 0 {
      return Err(NoVideos);
    }
    OpenedReadersAgree(fs, paths, readers[..]);
    var it := new SyncVideoIterator(readers, readers[0].frameCount);
    return Ok(it);
  }
}
