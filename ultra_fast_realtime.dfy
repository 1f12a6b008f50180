/** `UltraFastRealTimeFaceRecognition` (src/ultra_fast_realtime.py): the
    capture loop and the background worker, run here as two steps that a
    schedule interleaves. The capture loop gates camera frames, offers every
    8th gated frame, down-sized, to a two-slot intake queue, latches the last
    non-empty published results and draws them; the worker pops the oldest
    queued frame, recognizes it and publishes the filtered results in a
    one-slot cache. */
module UltraFastRealtime {
  import opened Wrappers
  import opened Text
  import opened FaceDb
  import opened FaceRecognizer

  /** A camera image: which camera read it came from, and its size. The pixels
      are left abstract; what the model detects in an image is an input. */
  datatype Frame = Frame(capture: nat, width: nat, height: nat)

  /** `cv2.resize(frame, (w, h))`. */
  function Resize(f: Frame, w: nat, h: nat): (r: Frame)
    ensures r.capture == f.capture && r.width == w && r.height == h
  {
    Frame(f.capture, w, h)
  }

  const ProcessingQueueLen: nat := 2
  const ResultsQueueLen: nat := 1
  /** The worker keeps an "Unknown" result only above this confidence. */
  const UnknownKeepConfidence: real := 0.15
  /** `ord('q')`. */
  const QuitKey: int := 113

  /** `deque(maxlen=m).append(x)`: when full, the oldest element is dropped. */
  function DequeAppend<T>(q: seq<T>, x: T, maxlen: nat): (r: seq<T>)
    requires 0 < maxlen && |q| <= maxlen
    ensures 1 <= |r| <= maxlen && r[|r| - 1] == x
    ensures |q| < maxlen ==> r == q + [x]
    ensures |q| == maxlen ==> r == q[1..] + [x]
  {
    if |q| < maxlen then q + [x] else q[1..] + [x]
  }

  /** The capture loop's guarded push: below two frames it appends; at two it
      does nothing, so the deque never evicts a queued frame. */
  function Offer(q: seq<Frame>, f: Frame): (r: seq<Frame>)
    requires |q| <= ProcessingQueueLen
    ensures |r| <= ProcessingQueueLen
    ensures |q| < ProcessingQueueLen ==> r == q + [f]
    ensures |q| == ProcessingQueueLen ==> r == q
    ensures q <= r
  {
    if |q| < ProcessingQueueLen then DequeAppend(q, f, ProcessingQueueLen) else q
  }

  /** Three offers to an empty queue keep the first two frames, in order. */
  lemma {:induction false} OfferKeepsOldest(a: Frame, b: Frame, c: Frame)
    ensures Offer(Offer(Offer([], a), b), c) == [a, b]
  {
    assert Offer([], a) == [a];
    assert Offer([a], b) == [a, b];
  }

  /** The worker's filter: a result is kept iff it names someone or its
      confidence is strictly above 0.15. */
  function GoodResults(results: seq<MatchResult>): (r: seq<MatchResult>)
    ensures |r| <= |results|
    ensures forall m :: m in r <==> m in results && (m.name != Unknown || m.confidence > UnknownKeepConfidence)
  {
    if results == [] then []
    else
      var m := results[0];
      (if m.name != Unknown || m.confidence > UnknownKeepConfidence then [m] else []) + GoodResults(results[1..])
  }

  /** The filter keeps the results' order: it distributes over concatenation. */
  lemma {:induction false} GoodResultsConcat(a: seq<MatchResult>, b: seq<MatchResult>)
    ensures GoodResults(a + b) == GoodResults(a) + GoodResults(b)
  {
    if a == [] {
      assert a + b == b;
    } else {
      assert (a + b)[1..] == a[1..] + b;
      GoodResultsConcat(a[1..], b);
    }
  }

  /** Every named result survives the filter. */
  lemma {:induction false} GoodResultsKeepsNamed(results: seq<MatchResult>)
    requires forall m :: m in results ==> m.name != Unknown
    ensures GoodResults(results) == results
  {
    if results != [] {
      GoodResultsKeepsNamed(results[1..]);
    }
  }

  // ---- Drawing --------------------------------------------------------------------

  datatype Color = Red | Yellow | Green

  /** One drawn result: its rectangle, its colour and its caption, if any. */
  datatype Overlay = Overlay(box: Box<int>, color: Color, caption: Option<string>)

  /** `int(v * (size / base))`. */
  function Scale(v: int, size: nat, base: nat): int
    requires base > 0
  {
    Trunc(v as real * (size as real / base as real))
  }

  /** A box found in the 320x240 image, scaled to a `width` by `height` frame. */
  function ScaleBox(b: Box<int>, width: nat, height: nat): (r: Box<int>)
    ensures width == 320 && height == 240 ==> r == b
  {
    TruncOfInt(b.x0); TruncOfInt(b.y0); TruncOfInt(b.x1); TruncOfInt(b.y1);
    Box(Scale(b.x0, width, 320), Scale(b.y0, height, 240), Scale(b.x1, width, 320), Scale(b.y1, height, 240))
  }

  lemma TruncOfInt(n: int)
    ensures Trunc(n as real) == n
  {
  }

  /** Scaling a non-negative coordinate rounds down, and loses less than one pixel. */
  lemma ScaleRoundsDown(v: nat, size: nat, base: nat)
    requires base > 0
    ensures 0 <= Scale(v, size, base)
    ensures Scale(v, size, base) as real <= v as real * size as real / base as real < Scale(v, size, base) as real + 1.0
  {
    assert v as real * (size as real / base as real) == v as real * size as real / base as real;
  }

  /** The colour rule: red for "Unknown"; otherwise yellow for a name that is
      "trump" ignoring case, and green for everyone else. */
  function ColorFor(name: Name): (c: Color)
    ensures c == Red <==> name == Unknown
    ensures c == Yellow <==> name != Unknown && Lower(name) == "trump"
  {
    if name == Unknown then Red else if Lower(name) == "trump" then Yellow else Green
  }

  /** Only the exact "Unknown" is red; the yellow rule ignores case. */
  lemma ColorExamples()
    ensures ColorFor("unknown") == Green
    ensures ColorFor("Trump") == Yellow && ColorFor("TRUMP") == Yellow
  {
    assert Lower("unknown") != "trump" by { assert Lower("unknown")[0] == 'u'; }
    assert Lower("Trump") == "trump";
    assert Lower("TRUMP") == "trump";
  }

  /** The render latch of the capture loop: the newest published list when it
      is non-empty, otherwise the one drawn before. A latched non-empty list is
      never cleared by an empty publication. */
  function Latch(resultsQueue: seq<seq<MatchResult>>, last: seq<MatchResult>): (r: seq<MatchResult>)
    ensures r == last || (resultsQueue != [] && r == resultsQueue[|resultsQueue| - 1] && r != [])
    ensures resultsQueue != [] && resultsQueue[|resultsQueue| - 1] != [] ==> r == resultsQueue[|resultsQueue| - 1]
    ensures last != [] ==> r != []
  {
    if resultsQueue != [] && resultsQueue[|resultsQueue| - 1] != [] then resultsQueue[|resultsQueue| - 1] else last
  }

  // ---- The pipeline -----------------------------------------------------------------

  /** What one pass of the worker loop did. */
  datatype WorkerOutcome = Exited | Idle | Processed(published: seq<MatchResult>) | Skipped

  /** What one pass of the capture loop did. */
  datatype CaptureOutcome = ReadFailed | Dropped | Shown(frame: Frame) | Quit(frame: Frame)

  /** One event of an interleaving: a pass of the capture loop, given what the
      camera read returned and which key `waitKey` reported, or a pass of the
      worker loop. */
  datatype Tick = Capture(read: Option<Frame>, key: int) | Work

  /** The offer count after one more gated frame: one more offer exactly when
      the frame count was a multiple of 8. */
  lemma OfferCountStep(gated: nat, offered: nat)
    requires gated <= 8 * offered < gated + 8
    ensures gated % 8 == 0 ==> gated + 1 <= 8 * (offered + 1) < gated + 9
    ensures gated % 8 != 0 ==> gated + 1 <= 8 * offered < gated + 9
  {
  }

  /** The counting invariants in closed form: the gated frames are half the
      camera frames, and the offers are the ceiling of an eighth of them. */
  lemma DecimationBound(cameraFrames: nat, gated: nat, skipFrames: nat, offered: nat)
    requires skipFrames <= 1 && cameraFrames == 2 * gated + skipFrames
    requires gated <= 8 * offered < gated + 8
    ensures gated == cameraFrames / 2
    ensures offered == (gated + 7) / 8
  {
  }

  class Pipeline {
    const recognizer: Recognizer
    const confidenceThreshold: real
    var processingQueue: seq<Frame>
    var resultsQueue: seq<seq<MatchResult>>
    var shouldProcess: bool

    // The local variables of `run_webcam_recognition`.
    var frameCount: nat
    var skipFrames: nat
    var lastResults: seq<MatchResult>

    // Bookkeeping of the current session: camera frames read, frames that
    // passed the skip gate, gated frames offered to the queue, frames actually
    // queued, and whether the loop broke.
    ghost var cameraFrames: nat
    ghost var gated: nat
    ghost var offered: nat
    ghost var submitted: nat
    ghost var ended: bool

    /** The bounds the pipeline keeps: at most two queued frames, at most one
        published list, the skip counter tracks the parity of camera frames,
        the gated frames are every second camera frame, a frame is offered on
        every 8th of them, and no more frames are queued than were offered. */
    ghost predicate Valid()
      reads this, recognizer
    {
      recognizer.Valid() && Counters()
    }

    /** The part of `Valid` about the pipeline's own fields. */
    ghost predicate Counters()
      reads this
    {
      && |processingQueue| <= ProcessingQueueLen
      && |resultsQueue| <= ResultsQueueLen
      && skipFrames <= 1 && cameraFrames == 2 * gated + skipFrames
      && gated <= 8 * offered < gated + 8
      && submitted <= offered
      && (!ended ==> frameCount == gated)
    }

    /** `__init__` over an already loaded recognizer, with the session
        counters of a loop that has not started. */
    constructor (recognizer: Recognizer, confidenceThreshold: real)
      requires recognizer.Valid()
      ensures Valid() && this.recognizer == recognizer && this.confidenceThreshold == confidenceThreshold
      ensures processingQueue == [] && resultsQueue == [] && shouldProcess
      ensures lastResults == [] && frameCount == 0 && !ended
    {
      this.recognizer := recognizer;
      this.confidenceThreshold := confidenceThreshold;
      processingQueue, resultsQueue, shouldProcess := [], [], true;
      frameCount, skipFrames, lastResults := 0, 0, [];
      cameraFrames, gated, offered, submitted, ended := 0, 0, 0, 0, false;
    }

    /** One pass of `process_frames_background`'s loop. It exits once asked to
        stop and idles on an empty queue; otherwise it pops the oldest frame. If
        recognition raises, the frame is consumed and the cache is unchanged;
        if not, the cache holds exactly the newly filtered results. */
    method WorkerStep(detect: Frame -> Detection, sim: Similarity) returns (outcome: WorkerOutcome)
      requires Valid()
      modifies this
      ensures Valid()
      ensures !old(shouldProcess) ==> outcome == Exited && unchanged(this)
      ensures old(shouldProcess) && old(processingQueue) == [] ==> outcome == Idle && unchanged(this)
      ensures old(shouldProcess) && old(processingQueue) != [] ==>
        && processingQueue == old(processingQueue)[1..]
        && (outcome.Skipped? || outcome.Processed?)
      ensures outcome.Skipped? ==> resultsQueue == old(resultsQueue)
      ensures outcome.Processed? ==> resultsQueue == [outcome.published]
      ensures outcome.Processed? ==>
        var r := RecognizeResults(recognizer.State(), detect(old(processingQueue)[0]), confidenceThreshold, sim);
        r.Some? && outcome.published == GoodResults(r.value)
      ensures outcome.Skipped? ==>
        RecognizeResults(recognizer.State(), detect(old(processingQueue)[0]), confidenceThreshold, sim).None?
      ensures shouldProcess == old(shouldProcess) && lastResults == old(lastResults)
      ensures frameCount == old(frameCount) && skipFrames == old(skipFrames)
      ensures cameraFrames == old(cameraFrames) && gated == old(gated) && offered == old(offered)
      ensures submitted == old(submitted) && ended == old(ended)
    {
      if !shouldProcess {
        return Exited;
      }
      if processingQueue == [] {
        return Idle;
      }
      var frame := processingQueue[0];
      processingQueue := processingQueue[1..];
      var r := recognizer.RecognizeFace(detect(frame), confidenceThreshold, sim);
      if r.Failed? {
        return Skipped;
      }
      assert r.results == RecognizeResults(recognizer.State(), detect(frame), confidenceThreshold, sim).value;
      var goodResults := GoodResults(r.results);
      if resultsQueue != [] {
        resultsQueue := [];
      }
      resultsQueue := DequeAppend(resultsQueue, goodResults, ResultsQueueLen);
      return Processed(goodResults);
    }

    /** One pass of the capture loop of `run_webcam_recognition`. A failed read
        ends the loop. Of the camera frames read, every first one of a pair is
        dropped. A frame that passes the gate is offered, down-sized, to the
        queue when `frameCount % 8 == 0`; the last non-empty published list is
        latched; 'q' ends the loop before `frameCount` counts the frame. The
        frame that passed is returned for drawing. */
    method CaptureStep(read: Option<Frame>, key: int) returns (outcome: CaptureOutcome)
      requires Counters() && !ended
      modifies this
      ensures Counters()
      ensures read.None? <==> outcome.ReadFailed?
      ensures outcome.ReadFailed? ==>
        ended && processingQueue == old(processingQueue) && lastResults == old(lastResults) && frameCount == old(frameCount)
      ensures read.Some? ==> cameraFrames == old(cameraFrames) + 1
      ensures gated == old(gated) + (if outcome.Shown? || outcome.Quit? then 1 else 0)
      ensures outcome.Dropped? <==> read.Some? && old(skipFrames) == 0
      ensures outcome.Dropped? ==>
        processingQueue == old(processingQueue) && lastResults == old(lastResults) && frameCount == old(frameCount) && !ended
      ensures outcome.Shown? || outcome.Quit? ==>
        && skipFrames == 0
        && processingQueue == (if old(frameCount) % 8 == 0
                               then Offer(old(processingQueue), Resize(read.value, 320, 240))
                               else old(processingQueue))
        && lastResults == Latch(old(resultsQueue), old(lastResults))
        && outcome.frame == read.value
      ensures outcome.Quit? <==> read.Some? && old(skipFrames) == 1 && key % 256 == QuitKey
      ensures outcome.Shown? ==> frameCount == old(frameCount) + 1 && !ended
      ensures outcome.Quit? ==> frameCount == old(frameCount) && ended
      ensures resultsQueue == old(resultsQueue) && shouldProcess == old(shouldProcess)
    {
      if read.None? {
        ended := true;
        return ReadFailed;
      }
      var frame := read.value;
      cameraFrames := cameraFrames + 1;
      skipFrames := skipFrames + 1;
      if skipFrames < 2 {
        return Dropped;
      }
      skipFrames := 0;
      OfferCountStep(gated, offered);
      gated := gated + 1;
      if frameCount % 8 == 0 {
        OfferFrame(Resize(frame, 320, 240));
      }
      LatchResults();
      if key % 256 == QuitKey {
        ended := true;
        return Quit(frame);
      }
      frameCount := frameCount + 1;
      return Shown(frame);
    }

    /** The decimated push of the capture loop: the frame is offered, and
        queued only while fewer than two frames wait. */
    method OfferFrame(smallFrame: Frame)
      requires |processingQueue| <= ProcessingQueueLen
      modifies this
      ensures processingQueue == Offer(old(processingQueue), smallFrame)
      ensures offered == old(offered) + 1
      ensures submitted == old(submitted) + |processingQueue| - |old(processingQueue)|
      ensures resultsQueue == old(resultsQueue) && shouldProcess == old(shouldProcess)
      ensures lastResults == old(lastResults) && frameCount == old(frameCount) && skipFrames == old(skipFrames)
      ensures cameraFrames == old(cameraFrames) && gated == old(gated) && ended == old(ended)
    {
      offered := offered + 1;
      if |processingQueue| < 2 {
        processingQueue := DequeAppend(processingQueue, smallFrame, ProcessingQueueLen);
        submitted := submitted + 1;
      }
    }

    /** The render latch: the last published list replaces `lastResults` only
        when there is one and it is non-empty. */
    method LatchResults()
      modifies this
      ensures lastResults == Latch(old(resultsQueue), old(lastResults))
      ensures processingQueue == old(processingQueue) && resultsQueue == old(resultsQueue)
      ensures shouldProcess == old(shouldProcess)
      ensures frameCount == old(frameCount) && skipFrames == old(skipFrames)
      ensures cameraFrames == old(cameraFrames) && gated == old(gated) && offered == old(offered)
      ensures submitted == old(submitted) && ended == old(ended)
    {
      if resultsQueue != [] {
        var latestResults := resultsQueue[|resultsQueue| - 1];
        if latestResults != [] {
          lastResults := latestResults;
        }
      }
    }

    /** `draw_results_fast`: one overlay per result, in order, each box scaled
        from 320x240 to the frame, coloured by the colour rule, and captioned
        with the name unless it is "Unknown". */
    method DrawResultsFast(width: nat, height: nat, results: seq<MatchResult>) returns (overlays: seq<Overlay>)
      ensures |overlays| == |results|
      ensures forall k :: 0 <= k < |results| ==>
        && overlays[k].box == ScaleBox(results[k].bbox, width, height)
        && overlays[k].color == ColorFor(results[k].name)
        && (overlays[k].caption.Some? <==> results[k].name != Unknown)
        && (overlays[k].caption.Some? ==> overlays[k].caption.value == results[k].name)
      ensures overlays == DrawnOverlays(results, width, height)
    {
      overlays := [];
      for k := 0 to |results|
        invariant overlays == DrawnOverlays(results[..k], width, height)
      {
        var result := results[k];
        var color := ColorFor(result.name);
        var caption := if result.name != Unknown then Some(result.name) else None;
        assert results[..k + 1] == results[..k] + [result];
        overlays := overlays + [Overlay(ScaleBox(result.bbox, width, height), color, caption)];
      }
      assert results[..|results|] == results;
    }

    /** The cleanup of `run_webcam_recognition`: the worker is asked to stop. */
    method Stop()
      requires Counters()
      modifies this
      ensures Counters() && !shouldProcess
      ensures processingQueue == old(processingQueue) && resultsQueue == old(resultsQueue)
      ensures lastResults == old(lastResults) && frameCount == old(frameCount) && skipFrames == old(skipFrames)
      ensures cameraFrames == old(cameraFrames) && gated == old(gated) && offered == old(offered)
      ensures submitted == old(submitted) && ended == old(ended)
    {
      shouldProcess := false;
    }

    /** `run_webcam_recognition` over one interleaving of capture and worker
        passes. A camera that does not open changes nothing. Otherwise the
        session starts with fresh counters, runs until the camera fails, 'q' is
        pressed or the schedule runs out, and then stops the worker. All along,
        at most ceil(n/8) of the n gated frames were queued. */
    method RunWebcamRecognition(cameraOpened: bool, schedule: seq<Tick>, detect: Frame -> Detection, sim: Similarity)
      requires Valid()
      modifies this
      ensures Valid()
      ensures !cameraOpened ==> unchanged(this)
      ensures cameraOpened ==> !shouldProcess && gated == cameraFrames / 2 && submitted <= (gated + 7) / 8
    {
      if !cameraOpened {
        return;
      }
      ResetSession();
      var t := 0;
      var running := true;
      while t < |schedule| && running
        invariant 0 <= t <= |schedule|
        invariant Valid() && running == !ended
      {
        running := RunTick(schedule[t], detect, sim);
        t := t + 1;
      }
      Stop();
      DecimationBound(cameraFrames, gated, skipFrames, offered);
    }

    /** The locals of `run_webcam_recognition` start afresh: no frame counted,
        no results latched, and the session's bookkeeping at zero. */
    method ResetSession()
      requires Counters()
      modifies this
      ensures Counters() && !ended
      ensures frameCount == 0 && lastResults == [] && skipFrames == 0
      ensures cameraFrames == 0 && gated == 0 && offered == 0 && submitted == 0
      ensures processingQueue == old(processingQueue) && resultsQueue == old(resultsQueue)
      ensures shouldProcess == old(shouldProcess)
    {
      frameCount, lastResults, skipFrames := 0, [], 0;
      cameraFrames, gated, offered, submitted, ended := 0, 0, 0, 0, false;
    }

    /** One pass of the interleaving: a worker pass, or a capture pass followed
        by drawing the latched results on the frame shown. The session goes on
        unless the camera failed or 'q' was pressed. */
    method RunTick(tick: Tick, detect: Frame -> Detection, sim: Similarity) returns (running: bool)
      requires Valid() && !ended
      modifies this
      ensures Valid() && running == !ended
    {
      match tick
      case Work =>
        var _ := WorkerStep(detect, sim);
        running := true;
      case Capture(read, key) =>
        var outcome := CaptureStep(read, key);
        if outcome.Shown? || outcome.Quit? {
          var _ := DrawResultsFast(outcome.frame.width, outcome.frame.height, lastResults);
        }
        running := !(outcome.ReadFailed? || outcome.Quit?);
    }
  }

  /** The overlays `draw_results_fast` produces for `results`. */
  function DrawnOverlays(results: seq<MatchResult>, width: nat, height: nat): (r: seq<Overlay>)
    ensures |r| == |results|
    ensures forall k :: 0 <= k < |results| ==>
      && r[k].box == ScaleBox(results[k].bbox, width, height)
      && r[k].color == ColorFor(results[k].name)
      && (r[k].caption.Some? <==> results[k].name != Unknown)
      && (r[k].caption.Some? ==> r[k].caption.value == results[k].name)
  {
    if results == [] then []
    else
      var m := results[|results| - 1];
      DrawnOverlays(results[..|results| - 1], width, height)
      + [Overlay(ScaleBox(m.bbox, width, height), ColorFor(m.name), if m.name != Unknown then Some(m.name) else None)]
  }
}
