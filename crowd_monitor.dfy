/**
 * The bookkeeping of `CrowdDensityMonitor` (MC_web.py): counting people in a
 * frame, the bounded history of counts, the frame-skip schedule of the
 * streaming loop and the decision structure of single-image processing.
 *
 * The detector is a parameter `detect: Frame -> seq<Box>` (the person boxes
 * the model reports for a frame); the camera is a finite sequence of read
 * outcomes, `None` standing for a failed read.
 */
module CrowdMonitor {
  import opened Optional

  /** Image dimensions: decoded and captured images are never empty. */
  type Dim = n: int | n > 0 witness 1

  /** One image. `picture` identifies its pixels, which the model does not inspect. */
  datatype Frame = Frame(height: Dim, width: Dim, picture: nat)

  /** One person detection, as corner coordinates (x1, y1, x2, y2). */
  datatype Box = Box(x1: int, y1: int, x2: int, y2: int)

  /** The capacity of the count history, `deque(maxlen=100)`. */
  const HistoryLength: nat := 100
  /** Detection runs on every `frame_skip`-th streamed frame. */
  const DefaultFrameSkip: nat := 3
  /** Streamed frames are resized to 640x480 before detection. */
  const StreamWidth: Dim := 640
  const StreamHeight: Dim := 480
  /** Uploaded images taller than 1080 or wider than 1920 are resized to 960x720. */
  const MaxUploadHeight: nat := 1080
  const MaxUploadWidth: nat := 1920
  const UploadWidth: Dim := 960
  const UploadHeight: Dim := 720
  /** Density is people per 10000 pixels. */
  const AreaUnit: real := 10000.0

  /** `cv2.resize(frame, (width, height))`: new dimensions, the same picture. */
  function Resize(f: Frame, width: Dim, height: Dim): Frame {
    Frame(height, width, f.picture)
  }

  /** `person_count / (frame_area / 10000)`, over the reals. */
  function Density(count: nat, height: Dim, width: Dim): (d: real)
    ensures d * (height * width) as real == count as real * AreaUnit
    ensures d >= 0.0
    ensures d == 0.0 <==> count == 0
  {
    var area := (height * width) as real;
    assert area > 0.0;
    count as real / (area / AreaUnit)
  }

  // ---------------------------------------------------------------------------
  // The bounded history
  // ---------------------------------------------------------------------------

  /** The last `n` elements of `s` (all of `s` when it is shorter). */
  function LastN<T>(s: seq<T>, n: nat): seq<T> {
    if |s| <= n then s else s[|s| - n..]
  }

  /** `density_history.append(x)` on a deque of capacity HistoryLength. */
  function Append(h: seq<nat>, x: nat): (r: seq<nat>)
    requires |h| <= HistoryLength
    ensures 0 < |r| <= HistoryLength && r[|r| - 1] == x
    ensures |h| < HistoryLength ==> r == h + [x]
    ensures |h| == HistoryLength ==> |r| == HistoryLength && r[..|r| - 1] == h[1..]
  {
    if |h| < HistoryLength then h + [x] else h[1..] + [x]
  }

  /** Appending the counts `xs` one by one, oldest first. */
  function AppendAll(h: seq<nat>, xs: seq<nat>): (r: seq<nat>)
    requires |h| <= HistoryLength
    ensures |r| <= HistoryLength
    decreases |xs|
  {
    if xs == [] then h else Append(AppendAll(h, xs[..|xs| - 1]), xs[|xs| - 1])
  }

  /** An append keeps exactly the newest HistoryLength elements. */
  lemma AppendKeepsNewest(h: seq<nat>, x: nat)
    requires |h| <= HistoryLength
    ensures Append(h, x) == LastN(h + [x], HistoryLength)
  {
  }

  /**
   * However many counts are appended, the history holds the newest
   * HistoryLength of everything appended so far, in order: the oldest are
   * evicted first and the rest keep their order.
   */
  lemma {:induction false} AppendAllKeepsNewest(h: seq<nat>, xs: seq<nat>)
    requires |h| <= HistoryLength
    ensures AppendAll(h, xs) == LastN(h + xs, HistoryLength)
    decreases |xs|
  {
    if xs != [] {
      var init, x := xs[..|xs| - 1], xs[|xs| - 1];
      AppendAllKeepsNewest(h, init);
      assert h + xs == (h + init) + [x];
      var kept := AppendAll(h, init);
      AppendKeepsNewest(kept, x);
      LastNSnoc(h + init, x, HistoryLength);
    }
  }

  /** Taking the last `n` before or after one more element is appended gives the same last `n`. */
  lemma LastNSnoc<T>(s: seq<T>, x: T, n: nat)
    ensures LastN(LastN(s, n) + [x], n) == LastN(s + [x], n)
  {
    if |s| > n && n > 0 {
      assert LastN(s, n) + [x] == (s + [x])[|s| - n..];
      assert LastN(s, n)[1..] + [x] == (s + [x])[|s| + 1 - n..];
    }
  }

  // ---------------------------------------------------------------------------
  // The streaming loop as a function of its inputs
  // ---------------------------------------------------------------------------

  /** The triple the lock guards: written together on detection frames, read together otherwise. */
  datatype Reading = Reading(detections: seq<Box>, personCount: nat, density: real)

  /** The monitor's fields that the streaming loop reads and writes. */
  datatype MonitorState = MonitorState(frameCount: nat, history: seq<nat>, latest: Reading)

  /** What one loop iteration yields: the resized frame and the triple drawn on it. */
  datatype Shown = Shown(frame: Frame, reading: Reading)

  /** The state of a freshly constructed monitor. */
  const InitialState := MonitorState(0, [], Reading([], 0, 0.0))

  /** The count and density of `detections` found in `f` (`calculate_density` without its history side effect). */
  function Measure(detections: seq<Box>, f: Frame): (r: Reading)
    ensures r.detections == detections && r.personCount == |detections|
  {
    Reading(detections, |detections|, Density(|detections|, f.height, f.width))
  }

  /** The frames read before the first failed read. */
  function SuccessfulReads(captures: seq<Option<Frame>>): (fs: seq<Frame>)
    ensures |fs| <= |captures|
    ensures forall k :: 0 <= k < |fs| ==> captures[k] == Some(fs[k])
    ensures |fs| < |captures| ==> captures[|fs|].None?
  {
    if captures == [] || captures[0].None? then [] else [captures[0].value] + SuccessfulReads(captures[1..])
  }

  /** Whether frame `i` of a run that starts at frame counter `start` runs detection. */
  predicate DetectionFrame(start: nat, i: nat, skip: nat)
    requires skip > 0
  {
    (start + i) % skip == 0
  }

  /**
   * One iteration of `generate_frames` on the captured frame `f`: the frame is
   * shown at 640x480 and the counter advances. On a detection frame the triple
   * is measured on the resized frame, stored and its count appended to the
   * history; on any other frame the stored triple is shown again and nothing
   * else changes.
   */
  function Step(s: MonitorState, skip: nat, f: Frame, detect: Frame -> seq<Box>): (r: (MonitorState, Shown))
    requires skip > 0 && |s.history| <= HistoryLength
    ensures r.1.frame == Resize(f, StreamWidth, StreamHeight)
    ensures r.0.frameCount == s.frameCount + 1 && r.0.latest == r.1.reading
    ensures |r.0.history| <= HistoryLength
    ensures DetectionFrame(s.frameCount, 0, skip) ==>
      r.1.reading == Measure(detect(r.1.frame), r.1.frame) && r.0.history == Append(s.history, r.1.reading.personCount)
    ensures !DetectionFrame(s.frameCount, 0, skip) ==> r.1.reading == s.latest && r.0.history == s.history
  {
    var small := Resize(f, StreamWidth, StreamHeight);
    if DetectionFrame(s.frameCount, 0, skip) then
      var r := Measure(detect(small), small);
      (MonitorState(s.frameCount + 1, Append(s.history, r.personCount), r), Shown(small, r))
    else
      (MonitorState(s.frameCount + 1, s.history, s.latest), Shown(small, s.latest))
  }

  /** The loop run over the frames `fs`: the final state and everything yielded. */
  function Run(s: MonitorState, skip: nat, fs: seq<Frame>, detect: Frame -> seq<Box>): (r: (MonitorState, seq<Shown>))
    requires skip > 0 && |s.history| <= HistoryLength
    ensures |r.0.history| <= HistoryLength
    ensures |r.1| == |fs| && r.0.frameCount == s.frameCount + |fs|
    ensures fs == [] ==> r.0 == s
    ensures fs != [] ==> r.0.latest == r.1[|fs| - 1].reading
    decreases |fs|
  {
    if fs == [] then (s, [])
    else
      var (t, out) := Run(s, skip, fs[..|fs| - 1], detect);
      var (t', o) := Step(t, skip, fs[|fs| - 1], detect);
      (t', out + [o])
  }

  /** Running over one more frame is one more step. */
  lemma RunSnoc(s: MonitorState, skip: nat, fs: seq<Frame>, f: Frame, detect: Frame -> seq<Box>)
    requires skip > 0 && |s.history| <= HistoryLength
    ensures var r := Run(s, skip, fs, detect);
      var st := Step(r.0, skip, f, detect);
      Run(s, skip, fs + [f], detect) == (st.0, r.1 + [st.1])
  {
    assert (fs + [f])[..|fs|] == fs;
  }

  /** The counts that detection frames add to the history, in frame order. */
  function DetectedCounts(frameCount: nat, skip: nat, fs: seq<Frame>, detect: Frame -> seq<Box>): seq<nat>
    requires skip > 0
    decreases |fs|
  {
    if fs == [] then []
    else
      var last := |fs| - 1;
      DetectedCounts(frameCount, skip, fs[..last], detect)
        + if DetectionFrame(frameCount, last, skip) then [|detect(Resize(fs[last], StreamWidth, StreamHeight))|] else []
  }

  /** The stream produced from a frame source, stopping at its first failed read. */
  function Stream(s: MonitorState, skip: nat, captures: seq<Option<Frame>>, detect: Frame -> seq<Box>): (MonitorState, seq<Shown>)
    requires skip > 0 && |s.history| <= HistoryLength
  {
    Run(s, skip, SuccessfulReads(captures), detect)
  }

  /**
   * Frame i of a run is frame i of the input resized to 640x480. It shows a
   * fresh detection exactly when `(frameCount + i) % skip == 0`; otherwise it
   * shows the same triple as the frame before it (or the stored triple, for
   * the first frame).
   */
  lemma {:induction false} RunShownAt(s: MonitorState, skip: nat, fs: seq<Frame>, detect: Frame -> seq<Box>, i: nat)
    requires skip > 0 && |s.history| <= HistoryLength && i < |fs|
    ensures var out := Run(s, skip, fs, detect).1;
      var small := Resize(fs[i], StreamWidth, StreamHeight);
      && out[i].frame == small
      && (DetectionFrame(s.frameCount, i, skip) ==> out[i].reading == Measure(detect(small), small))
      && (!DetectionFrame(s.frameCount, i, skip) ==> out[i].reading == if i == 0 then s.latest else out[i - 1].reading)
    decreases |fs|
  {
    var init := fs[..|fs| - 1];
    var (t, out) := Run(s, skip, init, detect);
    if i < |fs| - 1 {
      RunShownAt(s, skip, init, detect, i);
      assert init[i] == fs[i];
      if i > 0 { assert Run(s, skip, fs, detect).1[i - 1] == out[i - 1]; }
    } else if i > 0 {
      assert Run(s, skip, fs, detect).1[i - 1] == out[i - 1];
    }
  }

  /**
   * Between detection frames the triple does not change: if frame j ran
   * detection and none of the frames after it up to frame i did, frame i
   * shows the triple detected on frame j.
   */
  lemma {:induction false} SkippedFrameShowsLastDetection(s: MonitorState, skip: nat, fs: seq<Frame>, detect: Frame -> seq<Box>, j: nat, i: nat)
    requires skip > 0 && |s.history| <= HistoryLength && j <= i < |fs|
    requires DetectionFrame(s.frameCount, j, skip)
    requires forall m :: j < m <= i ==> !DetectionFrame(s.frameCount, m, skip)
    ensures var out := Run(s, skip, fs, detect).1;
      var small := Resize(fs[j], StreamWidth, StreamHeight);
      out[i].reading == out[j].reading == Measure(detect(small), small)
    decreases i
  {
    var out := Run(s, skip, fs, detect).1;
    RunShownAt(s, skip, fs, detect, i);
    if j < i {
      assert !DetectionFrame(s.frameCount, i, skip);
      assert out[i].reading == out[i - 1].reading;
      SkippedFrameShowsLastDetection(s, skip, fs, detect, j, i - 1);
    }
  }

  /** From a fresh monitor, detection runs on streamed frame i exactly when `i % skip == 0`. */
  lemma ScheduleFromStart(skip: nat, fs: seq<Frame>, detect: Frame -> seq<Box>, i: nat)
    requires skip > 0 && i < |fs|
    ensures var out := Run(InitialState, skip, fs, detect).1;
      var small := Resize(fs[i], StreamWidth, StreamHeight);
      && (i % skip == 0 ==> out[i].reading == Measure(detect(small), small))
      && (i % skip != 0 ==> out[i].reading == if i == 0 then InitialState.latest else out[i - 1].reading)
  {
    RunShownAt(InitialState, skip, fs, detect, i);
  }

  /** The history gains exactly the counts of the detection frames, in order. */
  lemma {:induction false} RunHistory(s: MonitorState, skip: nat, fs: seq<Frame>, detect: Frame -> seq<Box>)
    requires skip > 0 && |s.history| <= HistoryLength
    ensures Run(s, skip, fs, detect).0.history == AppendAll(s.history, DetectedCounts(s.frameCount, skip, fs, detect))
    decreases |fs|
  {
    if fs != [] {
      var init := fs[..|fs| - 1];
      RunHistory(s, skip, init, detect);
      var prev := DetectedCounts(s.frameCount, skip, init, detect);
      var xs := DetectedCounts(s.frameCount, skip, fs, detect);
      if DetectionFrame(s.frameCount, |fs| - 1, skip) {
        assert xs[..|xs| - 1] == prev;
      } else {
        assert xs == prev;
      }
    }
  }

  /** So the history after a run is the newest HistoryLength of its old contents followed by the detected counts. */
  lemma RunHistoryNewest(s: MonitorState, skip: nat, fs: seq<Frame>, detect: Frame -> seq<Box>)
    requires skip > 0 && |s.history| <= HistoryLength
    ensures Run(s, skip, fs, detect).0.history
      == LastN(s.history + DetectedCounts(s.frameCount, skip, fs, detect), HistoryLength)
  {
    RunHistory(s, skip, fs, detect);
    AppendAllKeepsNewest(s.history, DetectedCounts(s.frameCount, skip, fs, detect));
  }

  /**
   * The stream ends at the first failed read: it yields one frame per
   * successful read before it, and nothing read after it is processed.
   */
  lemma StreamStopsAtFirstFailure(s: MonitorState, skip: nat, captures: seq<Option<Frame>>, detect: Frame -> seq<Box>, k: nat)
    requires skip > 0 && |s.history| <= HistoryLength
    requires k < |captures| && captures[k].None?
    ensures |Stream(s, skip, captures, detect).1| <= k
    ensures Stream(s, skip, captures, detect) == Stream(s, skip, captures[..k], detect)
    ensures forall i :: 0 <= i < |Stream(s, skip, captures, detect).1| ==>
      captures[i].Some? && Stream(s, skip, captures, detect).1[i].frame == Resize(captures[i].value, StreamWidth, StreamHeight)
  {
    var fs := SuccessfulReads(captures);
    SuccessfulReadsPrefix(captures, k);
    forall i | 0 <= i < |fs| ensures Run(s, skip, fs, detect).1[i].frame == Resize(captures[i].value, StreamWidth, StreamHeight) {
      RunShownAt(s, skip, fs, detect, i);
    }
  }

  /** Cutting the captures at a failed read does not change the successful captures. */
  lemma {:induction false} SuccessfulReadsPrefix(captures: seq<Option<Frame>>, k: nat)
    requires k < |captures| && captures[k].None?
    ensures SuccessfulReads(captures) == SuccessfulReads(captures[..k])
    decreases k
  {
    if k > 0 && captures[0].Some? {
      assert captures[..k][1..] == captures[1..][..k - 1];
      SuccessfulReadsPrefix(captures[1..], k - 1);
    }
  }

  // ---------------------------------------------------------------------------
  // Single images
  // ---------------------------------------------------------------------------

  /** The size rule of `process_image`: oversize images are resized to 960x720, others kept. */
  function FitForDetection(f: Frame): (r: Frame)
    ensures r.picture == f.picture
    ensures r.height <= MaxUploadHeight && r.width <= MaxUploadWidth
    ensures f.height <= MaxUploadHeight && f.width <= MaxUploadWidth ==> r == f
    ensures f.height > MaxUploadHeight || f.width > MaxUploadWidth ==> r.height == UploadHeight && r.width == UploadWidth
  {
    if f.height > MaxUploadHeight || f.width > MaxUploadWidth then Resize(f, UploadWidth, UploadHeight) else f
  }

  // ---------------------------------------------------------------------------
  // The monitor object
  // ---------------------------------------------------------------------------

  class CrowdDensityMonitor {
    var densityHistory: seq<nat>
    var detections: seq<Box>
    var frameSkip: nat
    var frameCount: nat
    var personCount: nat
    var density: real

    ghost predicate Valid()
      reads this
    {
      |densityHistory| <= HistoryLength && frameSkip > 0
    }

    /** The fields the streaming loop works on. */
    ghost function State(): MonitorState
      reads this
    {
      MonitorState(frameCount, densityHistory, Reading(detections, personCount, density))
    }

    /** A new monitor: empty history, no detections, frame counter 0, detection every third frame. */
    constructor ()
      ensures Valid()
      ensures frameSkip == DefaultFrameSkip && State() == InitialState
    {
      densityHistory := [];
      detections := [];
      frameSkip := DefaultFrameSkip;
      frameCount := 0;
      personCount := 0;
      density := 0.0;
    }

    /** `calculate_density`: counts the detections and records the count in the history. */
    method CalculateDensity(dets: seq<Box>, height: Dim, width: Dim) returns (count: nat, d: real)
      requires Valid()
      modifies this`densityHistory
      ensures Valid()
      ensures count == |dets| && d == Density(count, height, width)
      ensures densityHistory == Append(old(densityHistory), count)
    {
      count := |dets|;
      d := Density(count, height, width);
      densityHistory := Append(densityHistory, count);
    }

    /**
     * `generate_frames`: the streaming loop, returning everything it yields.
     * It stops at the first failed read.
     */
    method GenerateFrames(captures: seq<Option<Frame>>, detect: Frame -> seq<Box>) returns (shown: seq<Shown>)
      requires Valid()
      modifies this
      ensures Valid() && frameSkip == old(frameSkip)
      ensures (State(), shown) == Stream(old(State()), frameSkip, captures, detect)
    {
      shown := [];
      var i := 0;
      ghost var fs: seq<Frame> := [];
      while i < |captures|
        invariant i <= |captures| && Valid() && frameSkip == old(frameSkip)
        invariant |fs| == i && forall k :: 0 <= k < i ==> captures[k] == Some(fs[k])
        invariant (State(), shown) == Run(old(State()), frameSkip, fs, detect)
      {
        if captures[i].None? {
          break;
        }
        RunSnoc(old(State()), frameSkip, fs, captures[i].value, detect);
        var o := StreamFrame(captures[i].value, detect);
        shown := shown + [o];
        fs := fs + [captures[i].value];
        i := i + 1;
      }
      SuccessfulReadsUnique(captures, fs);
    }

    /** One pass of the streaming loop's body on a captured frame. */
    method StreamFrame(f: Frame, detect: Frame -> seq<Box>) returns (o: Shown)
      requires Valid()
      modifies this
      ensures Valid() && frameSkip == old(frameSkip)
      ensures (State(), o) == Step(old(State()), frameSkip, f, detect)
    {
      var small := Resize(f, StreamWidth, StreamHeight);
      var count: nat, d: real, dets: seq<Box>;
      if frameCount % frameSkip == 0 {
        dets := detect(small);
        count, d := CalculateDensity(dets, small.height, small.width);
        detections, personCount, density := dets, count, d;
      } else {
        count, d, dets := personCount, density, detections;
      }
      frameCount := frameCount + 1;
      o := Shown(small, Reading(dets, count, d));
    }

    /**
     * `process_image`: an unreadable image (`None`) gives no frame, count 0
     * and density 0 and leaves the history alone; otherwise the image is
     * fitted for detection and its count recorded.
     */
    method ProcessImage(image: Option<Frame>, detect: Frame -> seq<Box>) returns (result: Option<Frame>, count: nat, d: real)
      requires Valid()
      modifies this`densityHistory
      ensures Valid()
      ensures image.None? ==> result.None? && count == 0 && d == 0.0 && densityHistory == old(densityHistory)
      ensures image.Some? ==>
        var f := FitForDetection(image.value);
        && result == Some(f) && count == |detect(f)| && d == Density(count, f.height, f.width)
        && densityHistory == Append(old(densityHistory), count)
    {
      if image.None? {
        return None, 0, 0.0;
      }
      var frame := FitForDetection(image.value);
      var dets := detect(frame);
      count, d := CalculateDensity(dets, frame.height, frame.width);
      result := Some(frame);
    }
  }

  /** The successful reads are the only prefix of frames ending at a failed read or at the end. */
  lemma SuccessfulReadsUnique(captures: seq<Option<Frame>>, fs: seq<Frame>)
    requires |fs| <= |captures|
    requires forall k :: 0 <= k < |fs| ==> captures[k] == Some(fs[k])
    requires |fs| < |captures| ==> captures[|fs|].None?
    ensures fs == SuccessfulReads(captures)
  {
  }
}
