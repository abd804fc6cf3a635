/** The edge-processing view: the per-frame step that may add one simulated
    detection, keeps the ten newest detections, counts frames and detections,
    and reports detections to the store under the id 'edge-demo-node'.

    Camera access, canvas drawing, the processing delay and the scheduling of
    the next frame are not modelled; the camera's answer, the video size and
    the measured frame timing are parameters. */
module EdgeProcessing {
  import NemiStore

  type Time = NemiStore.Time

  datatype DetectionType = Defect | Compliance | Anomaly

  datatype BBox = BBox(x: real, y: real, width: real, height: real)

  datatype Detection = Detection(
    id: string,
    kind: DetectionType,
    confidence: real,
    bbox: BBox,
    timestamp: Time)

  datatype ProcessingStats = ProcessingStats(
    fps: int,
    processingTime: real,
    totalFrames: int,
    detectionCount: int)

  /** The draws of one frame. `kind2` is only consulted when `kind1 <= 0.7`. */
  datatype FrameDraws = FrameDraws(
    detect: real, kind1: real, kind2: real, confidence: real,
    x: real, y: real, w: real, h: real)

  predicate ValidFrameDraws(d: FrameDraws)
  {
    && NemiStore.IsDraw(d.detect) && NemiStore.IsDraw(d.kind1) && NemiStore.IsDraw(d.kind2)
    && NemiStore.IsDraw(d.confidence) && NemiStore.IsDraw(d.x) && NemiStore.IsDraw(d.y)
    && NemiStore.IsDraw(d.w) && NemiStore.IsDraw(d.h)
  }

  /** The frame's measured rate and duration, already rounded for display. */
  datatype FrameTiming = FrameTiming(fps: int, ms: real)

  const DemoNodeId := "edge-demo-node"
  const Kept := 9

  /** A defect above 0.7 on the first draw, else compliance above 0.5 on the
      second, else an anomaly. */
  function KindOf(d: FrameDraws): (k: DetectionType)
    ensures k == Defect <==> d.kind1 > 0.7
    ensures k == Compliance <==> d.kind1 <= 0.7 && d.kind2 > 0.5
    ensures k == Anomaly <==> d.kind1 <= 0.7 && d.kind2 <= 0.5
  {
    if d.kind1 > 0.7 then Defect else if d.kind2 > 0.5 then Compliance else Anomaly
  }

  /** The detections a frame yields on a `width` x `height` canvas: one when
      the detection draw exceeds 0.8, none otherwise. Its confidence lies in
      [0.7, 1.0), its box is 50 to 150 wide and high and, on a canvas larger
      than 100 in a dimension, starts within the canvas less that margin. */
  function NewDetections(d: FrameDraws, id: string, width: int, height: int, now: Time): (r: seq<Detection>)
    requires ValidFrameDraws(d)
    ensures |r| <= 1 && (|r| == 1 <==> d.detect > 0.8)
    ensures |r| == 1 ==>
      && r[0].id == id && r[0].timestamp == now && r[0].kind == KindOf(d)
      && 0.7 <= r[0].confidence < 1.0
      && 50.0 <= r[0].bbox.width < 150.0 && 50.0 <= r[0].bbox.height < 150.0
      && (width > 100 ==> 0.0 <= r[0].bbox.x < (width - 100) as real)
      && (height > 100 ==> 0.0 <= r[0].bbox.y < (height - 100) as real)
  {
    if d.detect > 0.8 then
      assert width > 100 ==> d.x * (width - 100) as real < (width - 100) as real;
      assert height > 100 ==> d.y * (height - 100) as real < (height - 100) as real;
      [Detection(id, KindOf(d), 0.7 + d.confidence * 0.3,
                 BBox(d.x * (width - 100) as real, d.y * (height - 100) as real,
                      50.0 + d.w * 100.0, 50.0 + d.h * 100.0),
                 now)]
    else []
  }

  /** `[...newDetections, ...prev.slice(0, 9)]`: newest first. */
  function NextDetections(newDets: seq<Detection>, prev: seq<Detection>): (r: seq<Detection>)
    ensures |r| == |newDets| + (if |prev| < Kept then |prev| else Kept)
    ensures r[..|newDets|] == newDets && r[|newDets|..] == prev[..|r| - |newDets|]
  {
    newDets + (if |prev| < Kept then prev else prev[..Kept])
  }

  /** After a frame with at most one detection the list holds at most ten
      entries; after a frame without, at most nine, the oldest being dropped
      from a full list. */
  lemma DetectionWindow(newDets: seq<Detection>, prev: seq<Detection>)
    requires |newDets| <= 1
    ensures |NextDetections(newDets, prev)| <= 10
    ensures newDets == [] ==> |NextDetections(newDets, prev)| <= Kept
    ensures newDets == [] && |prev| >= Kept ==> NextDetections(newDets, prev) == prev[..Kept]
    ensures |newDets| == 1 ==> NextDetections(newDets, prev)[0] == newDets[0]
  {
  }

  /** The stats after a frame: one more frame, `found` more detections. */
  function NextStats(prev: ProcessingStats, found: nat, t: FrameTiming): (r: ProcessingStats)
    ensures r.totalFrames == prev.totalFrames + 1
    ensures r.detectionCount == prev.detectionCount + found
    ensures r.fps == t.fps && r.processingTime == t.ms
  {
    ProcessingStats(t.fps, t.ms, prev.totalFrames + 1, prev.detectionCount + found)
  }

  /** What the frame reports to the store: nothing without detections,
      otherwise their number under 'edge-demo-node'. */
  function StoreReport(newDets: seq<Detection>): (r: NemiStore.Option<NemiStore.Action>)
    ensures r.None? <==> newDets == []
    ensures r.Some? ==> r.value == NemiStore.AddDefectDetection(DemoNodeId, |newDets|)
  {
    if |newDets| > 0 then NemiStore.Some(NemiStore.AddDefectDetection(DemoNodeId, |newDets|))
    else NemiStore.None
  }

  /** The frame counter and the store agree: the detections a frame adds to
      its own count are exactly what its report adds to the store's defect
      total (a frame without detections reports nothing and adds nothing). */
  lemma FrameCountMatchesStoreTotal(prev: ProcessingStats, newDets: seq<Detection>, t: FrameTiming,
                                    s: NemiStore.State, now: Time)
    ensures var r := StoreReport(newDets);
      var s1 := if r.Some? then NemiStore.Reduce(s, r.value, now) else s;
      NextStats(prev, |newDets|, t).detectionCount - prev.detectionCount
        == s1.totalDefectsDetected - s.totalDefectsDetected
  {
    if newDets != [] {
      NemiStore.AddDefectDetectionEffect(s, DemoNodeId, |newDets|, now);
    }
  }

  /** No node of the initial store is called 'edge-demo-node', so a report
      from this view changes only the store's aggregate total. */
  lemma DemoNodeReportOnlyMovesTotal(t: Time, count: int, now: Time)
    ensures var s := NemiStore.Initial(t);
      NemiStore.Reduce(s, NemiStore.AddDefectDetection(DemoNodeId, count), now)
        == s.(totalDefectsDetected := s.totalDefectsDetected + count)
  {
    var s := NemiStore.Initial(t);
    assert NemiStore.IdCount(s.edgeNodes, DemoNodeId) == 0 by {
      assert forall i :: 0 <= i < |s.edgeNodes| ==> s.edgeNodes[i].id != DemoNodeId;
    }
    NemiStore.AddDefectUnknownId(s, DemoNodeId, count, now);
  }

  class EdgeView {
    var hasVideo: bool
    var hasCanvas: bool
    var hasContext: bool
    var isStreaming: bool
    var videoWidth: int
    var videoHeight: int
    var canvasWidth: int
    var canvasHeight: int
    var detections: seq<Detection>
    var stats: ProcessingStats

    ghost predicate Valid()
      reads this
    {
      |detections| <= 10 && 0 <= stats.detectionCount && 0 <= stats.totalFrames
    }

    /** A mounted view: whether its video element, canvas and drawing context
        exist is given; it is not streaming and has no detections yet. */
    constructor (hasVideo: bool, hasCanvas: bool, hasContext: bool)
      ensures Valid()
      ensures this.hasVideo == hasVideo && this.hasCanvas == hasCanvas && this.hasContext == hasContext
      ensures !isStreaming && detections == [] && stats == ProcessingStats(0, 0.0, 0, 0)
      ensures videoWidth == 0 && videoHeight == 0 && canvasWidth == 0 && canvasHeight == 0
    {
      this.hasVideo, this.hasCanvas, this.hasContext := hasVideo, hasCanvas, hasContext;
      isStreaming := false;
      videoWidth, videoHeight, canvasWidth, canvasHeight := 0, 0, 0, 0;
      detections := [];
      stats := ProcessingStats(0, 0.0, 0, 0);
    }

    /** `startStream`: streaming starts only when the camera was granted and
        the video element exists; `width` x `height` is the stream's size. */
    method StartStream(granted: bool, width: int, height: int)
      requires Valid()
      modifies this
      ensures Valid()
      ensures if granted && hasVideo
              then isStreaming && videoWidth == width && videoHeight == height
                   && unchanged(this`detections, this`stats, this`canvasWidth, this`canvasHeight)
              else unchanged(this)
      ensures hasVideo == old(hasVideo) && hasCanvas == old(hasCanvas) && hasContext == old(hasContext)
    {
      if granted && hasVideo {
        isStreaming := true;
        videoWidth, videoHeight := width, height;
      }
    }

    /** `stopStream`: stops streaming and keeps the collected results. */
    method StopStream()
      requires Valid()
      modifies this`isStreaming
      ensures Valid() && !isStreaming
    {
      isStreaming := false;
    }

    /** `processFrame`: nothing happens without the video, the canvas, the
        stream, a drawing context or a non-zero video width. Otherwise the
        canvas takes the video's size, the frame's detection (if any) goes in
        front of the nine newest earlier ones, the stats count the frame and
        its detections, and `report` is what the store receives. */
    method ProcessFrame(d: FrameDraws, id: string, timing: FrameTiming, now: Time)
      returns (report: NemiStore.Option<NemiStore.Action>)
      requires Valid() && ValidFrameDraws(d)
      modifies this
      ensures Valid()
      ensures hasVideo == old(hasVideo) && hasCanvas == old(hasCanvas) && hasContext == old(hasContext)
      ensures isStreaming == old(isStreaming) && videoWidth == old(videoWidth) && videoHeight == old(videoHeight)
      ensures !(old(hasVideo) && old(hasCanvas) && old(isStreaming) && old(hasContext) && old(videoWidth) != 0) ==>
        report.None? && unchanged(this)
      ensures old(hasVideo) && old(hasCanvas) && old(isStreaming) && old(hasContext) && old(videoWidth) != 0 ==>
        var newDets := NewDetections(d, id, videoWidth, videoHeight, now);
        && canvasWidth == videoWidth && canvasHeight == videoHeight
        && detections == NextDetections(newDets, old(detections))
        && stats == NextStats(old(stats), |newDets|, timing)
        && report == StoreReport(newDets)
    {
      if !hasVideo || !hasCanvas || !isStreaming {
        return NemiStore.None;
      }
      if !hasContext || videoWidth == 0 {
        return NemiStore.None;
      }
      canvasWidth, canvasHeight := videoWidth, videoHeight;
      var newDets := NewDetections(d, id, canvasWidth, canvasHeight, now);
      DetectionWindow(newDets, detections);
      detections := NextDetections(newDets, detections);
      stats := NextStats(stats, |newDets|, timing);
      report := StoreReport(newDets);
    }
  }
}
