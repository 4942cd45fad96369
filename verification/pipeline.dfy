/** The per-frame step of `src/app.py` (`callback`): detect, track only for video
    frames, build one label per detection, then draw boxes and labels. The
    detector, the tracker, the two annotators and the two-decimal formatter are
    foreign code and appear as uninterpreted functions; the tracker's internal
    state is threaded explicitly. Frames are values, so the annotators work on a
    copy and the caller's frame cannot change. */
module FramePipeline {
  import opened Wrappers

  /** An axis-aligned box in pixel coordinates. */
  datatype Box = Box(x1: real, y1: real, x2: real, y2: real)

  /** One detection; `trackerId` is set only by the tracker. */
  datatype Detection = Detection(box: Box, confidence: real, classId: int, trackerId: Option<int>)

  /** The foreign collaborators of `callback`. */
  datatype Collaborators<!F, !T> = Collaborators(
    detect: (F, real) -> seq<Detection>,                 // model(frame, conf=...) read through from_ultralytics
    track: (T, seq<Detection>) -> (T, seq<Detection>),   // tracker.update_with_detections, with its state
    drawBoxes: (F, seq<Detection>) -> F,                 // box_annotator.annotate
    drawLabels: (F, seq<Detection>, seq<string>) -> F,   // label_annotator.annotate
    twoDecimals: real -> string)                         // the `:0.2f` format

  /** The outcome of one `callback`: the annotated frame, the detections and labels
      it was drawn with, and the tracker state afterwards. */
  datatype FrameResult<F, T> = FrameResult(annotated: F, detections: seq<Detection>, labels: seq<string>, tracker: T)

  /** The label text: the fixed class name and the confidence to two decimals. */
  function Label<F, T>(c: Collaborators<F, T>, d: Detection): string
  {
    "Pothole " + c.twoDecimals(d.confidence)
  }

  /** The label list comprehension, one label per detection. */
  function Labels<F, T>(c: Collaborators<F, T>, detections: seq<Detection>): (labels: seq<string>)
    ensures |labels| == |detections|
  {
    seq(|detections|, i requires 0 <= i < |detections| => Label(c, detections[i]))
  }

  /** Labels depend on confidences alone: detection lists with the same confidences,
      position by position, get the same labels whatever their boxes and tracker ids. */
  lemma LabelsIgnoreIdentity<F, T>(c: Collaborators<F, T>, a: seq<Detection>, b: seq<Detection>)
    requires |a| == |b|
    requires forall i :: 0 <= i < |a| ==> a[i].confidence == b[i].confidence
    ensures Labels(c, a) == Labels(c, b)
  {
  }

  /** Every label starts with the class name and ends with the formatted confidence. */
  lemma LabelShape<F, T>(c: Collaborators<F, T>, d: Detection)
    ensures |Label(c, d)| >= 8 && Label(c, d)[..8] == "Pothole "
    ensures Label(c, d)[8..] == c.twoDecimals(d.confidence)
  {
  }

  /** `callback(frame, confidence, is_video)`: a still image's detections are used
      as they are and the tracker is left alone; a video frame's detections go
      through the tracker, whose new state is returned. */
  function Callback<F, T>(c: Collaborators<F, T>, frame: F, confidence: real, isVideo: bool, tracker: T)
    : (r: FrameResult<F, T>)
    ensures !isVideo ==> r.detections == c.detect(frame, confidence) && r.tracker == tracker
    ensures isVideo ==> (r.tracker, r.detections) == c.track(tracker, c.detect(frame, confidence))
  {
    var detected := c.detect(frame, confidence);
    var tracked := if isVideo then c.track(tracker, detected) else (tracker, detected);
    var detections := tracked.1;
    var labels := Labels(c, detections);
    var boxed := c.drawBoxes(frame, detections);
    FrameResult(c.drawLabels(boxed, detections, labels), detections, labels, tracked.0)
  }

  /** Every detection drawn gets one label, in the same order, built from its confidence. */
  lemma CallbackLabels<F, T>(c: Collaborators<F, T>, frame: F, confidence: real, isVideo: bool, tracker: T)
    ensures var r := Callback(c, frame, confidence, isVideo, tracker);
      && |r.labels| == |r.detections|
      && forall i :: 0 <= i < |r.labels| ==> r.labels[i] == Label(c, r.detections[i])
  {
  }

  /** A still image never reaches the tracker: replacing the tracker function
      changes nothing about the result. */
  lemma CallbackImageIgnoresTrackFunction<F, T>(c: Collaborators<F, T>, track: (T, seq<Detection>) -> (T, seq<Detection>),
                                                frame: F, confidence: real, tracker: T)
    ensures Callback(c.(track := track), frame, confidence, false, tracker) == Callback(c, frame, confidence, false, tracker)
  {
    var d := c.detect(frame, confidence);
    assert Labels(c.(track := track), d) == Labels(c, d);
  }

  /** A still image's annotated frame, detections and labels do not depend on the
      tracker state it is processed with, and that state is handed back unchanged. */
  lemma CallbackImageIgnoresTrackerState<F, T>(c: Collaborators<F, T>, frame: F, confidence: real, t1: T, t2: T)
    ensures var r1, r2 := Callback(c, frame, confidence, false, t1), Callback(c, frame, confidence, false, t2);
      && r1.annotated == r2.annotated && r1.detections == r2.detections && r1.labels == r2.labels
      && r1.tracker == t1 && r2.tracker == t2
  {
  }

  /** The annotation is a function of the frame and the detections drawn: when the
      tracker hands the detector's output back unchanged, a video frame is
      annotated and labelled exactly like the same frame as a still image. */
  lemma CallbackModesAgreeOnPassThrough<F, T>(c: Collaborators<F, T>, frame: F, confidence: real, tracker: T)
    requires c.track(tracker, c.detect(frame, confidence)).1 == c.detect(frame, confidence)
    ensures Callback(c, frame, confidence, true, tracker).annotated == Callback(c, frame, confidence, false, tracker).annotated
    ensures Callback(c, frame, confidence, true, tracker).labels == Callback(c, frame, confidence, false, tracker).labels
  {
  }
}
