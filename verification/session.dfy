/** The session control flow of `src/app.py`: `video_input`, `image_input` and
    the dispatch in `main`, as event traces. The capture is the sequence of
    results its successive reads return; the uploaded temporary file's name, the
    existence of the sample files and the decoded still image are inputs; UI
    messages and download buttons are not events. */
module Session {
  import opened Wrappers
  import opened Paths
  import opened FramePipeline

  datatype InputType = Image | Video

  datatype InputSource = SampleData | UploadOwnData

  /** What the uploader returns: a file with its original name. */
  datatype UploadedFile = UploadedFile(name: string)

  /** Where an output frame goes. */
  datatype Sink = Screen | VideoFile

  /** The observable effects of a session. */
  datatype Event<F> =
    | TempCreated(path: string)              // the upload is copied into a temporary file
    | CaptureOpened(path: string)            // cv2.VideoCapture
    | WriterOpened(path: string)             // cv2.VideoWriter
    | ImageRead(path: string)                // cv2.imread
    | Displayed(frame: F)                    // a frame shown in the page
    | Written(frame: F)                      // out.write
    | CaptureReleased
    | WriterReleased
    | ImageSaved(path: string, frame: F)     // cv2.imwrite
    | TempRemoved(path: string)              // os.remove of the temporary file

  const VideoResultsDir: string := "D:\\Pothole_Detection\\results\\videos"
  const ImageResultsDir: string := "D:\\Pothole_Detection\\results\\images"
  const SampleVideo: string := "D:\\Pothole_Detection\\sample\\video\\Screen Recording 2025-08-07 234409.mp4"
  const SampleImage: string := Join(Join("sample", "image"), "pothole.jpeg")

  /** The frames a capture delivers: reads succeed in order until the first failed read. */
  function ReadablePrefix<F>(capture: seq<Option<F>>): (frames: seq<F>)
    ensures |frames| <= |capture|
    ensures forall i :: 0 <= i < |frames| ==> capture[i] == Some(frames[i])
    ensures |frames| < |capture| ==> capture[|frames|].None?
  {
    if |capture| == 0 || capture[0].None? then [] else [capture[0].value] + ReadablePrefix(capture[1..])
  }

  /** The tracker state frame `i` is processed with: the initial one for the first
      frame, afterwards the one the previous frame's processing left. */
  function StateBefore<F, T>(tracker: T, results: seq<FrameResult<F, T>>, i: nat): T
    requires i <= |results|
  {
    if i == 0 then tracker else results[i - 1].tracker
  }

  /** The video frame loop's processing: every frame through `callback` with
      `is_video=True`, threading the tracker state from one frame to the next. */
  function TrackFrames<F, T>(c: Collaborators<F, T>, confidence: real, tracker: T, frames: seq<F>)
    : (r: (T, seq<FrameResult<F, T>>))
    ensures |r.1| == |frames|
    decreases |frames|
  {
    if |frames| == 0 then (tracker, [])
    else
      var init := TrackFrames(c, confidence, tracker, frames[..|frames| - 1]);
      var last := Callback(c, frames[|frames| - 1], confidence, true, init.0);
      (last.tracker, init.1 + [last])
  }

  /** The loop leaves the tracker state that its last frame's processing left, or
      the initial one when there was no frame. */
  lemma TrackFramesFinalState<F, T>(c: Collaborators<F, T>, confidence: real, tracker: T, frames: seq<F>)
    ensures var r := TrackFrames(c, confidence, tracker, frames);
      r.0 == StateBefore(tracker, r.1, |frames|)
  {
  }

  /** Frame `i` is processed exactly once, as a video frame, with the tracker state
      that the processing of frame `i - 1` left (one tracker for the whole loop). */
  lemma {:induction false} TrackFramesInOrder<F, T>(c: Collaborators<F, T>, confidence: real, tracker: T,
                                                    frames: seq<F>, i: nat)
    requires i < |frames|
    ensures var results := TrackFrames(c, confidence, tracker, frames).1;
      results[i] == Callback(c, frames[i], confidence, true, StateBefore(tracker, results, i))
    decreases |frames|
  {
    var n := |frames|;
    var init := TrackFrames(c, confidence, tracker, frames[..n - 1]);
    var results := TrackFrames(c, confidence, tracker, frames).1;
    assert results == init.1 + [Callback(c, frames[n - 1], confidence, true, init.0)];
    TrackFramesFinalState(c, confidence, tracker, frames[..n - 1]);
    if i < n - 1 {
      TrackFramesInOrder(c, confidence, tracker, frames[..n - 1], i);
      assert frames[..n - 1][i] == frames[i];
      assert results[i] == init.1[i];
      assert StateBefore(tracker, results, i) == StateBefore(tracker, init.1, i);
    }
  }

  /** The effects of one processed video frame: it is shown, and written too when persisting. */
  function FrameOutput<F>(frame: F, persist: bool): seq<Event<F>>
  {
    [Displayed(frame)] + (if persist then [Written(frame)] else [])
  }

  /** The effects of the frame loop. */
  function FrameEvents<F, T>(results: seq<FrameResult<F, T>>, persist: bool): seq<Event<F>>
  {
    if |results| == 0 then []
    else FrameEvents(results[..|results| - 1], persist) + FrameOutput(results[|results| - 1].annotated, persist)
  }

  /** The result file for an upload: `{base}_result{ext}` in the given results directory. */
  function OutputPath(resultsDir: string, originalName: string): string
  {
    Join(resultsDir, ResultName(originalName))
  }

  /** Whether a session stops before doing anything: a missing sample or no upload. */
  predicate NothingToDo(source: InputSource, sampleExists: bool, upload: Option<UploadedFile>)
  {
    (source == SampleData && !sampleExists) || (source == UploadOwnData && upload.None?)
  }

  /** The frame loop of `video_input`: the events it produces and the tracker state it leaves. */
  function LoopTrace<F, T>(c: Collaborators<F, T>, confidence: real, tracker: T,
                           capture: seq<Option<F>>, persist: bool): (seq<Event<F>>, T)
  {
    var run := TrackFrames(c, confidence, tracker, ReadablePrefix(capture));
    (FrameEvents(run.1, persist), run.0)
  }

  /** The file a video session reads: the temporary copy of an upload, or the sample. */
  function VideoPath(source: InputSource, tempPath: string): string
  {
    if source == UploadOwnData then tempPath else SampleVideo
  }

  /** The effects before the frame loop: the upload's temporary copy, the capture,
      and for an upload the writer of the result file. */
  function VideoOpening<F>(source: InputSource, upload: Option<UploadedFile>, tempPath: string): seq<Event<F>>
    requires source == UploadOwnData ==> upload.Some?
  {
    if source == UploadOwnData then
      [TempCreated(tempPath), CaptureOpened(tempPath), WriterOpened(OutputPath(VideoResultsDir, upload.value.name))]
    else [CaptureOpened(SampleVideo)]
  }

  /** The effects after the frame loop: the capture is released, and for an upload
      the writer is released and the temporary copy removed. */
  function VideoClosing<F>(source: InputSource, tempPath: string): seq<Event<F>>
  {
    if source == UploadOwnData then [CaptureReleased, WriterReleased, TempRemoved(tempPath)]
    else [CaptureReleased]
  }

  /** `video_input` as a whole: the events in order and the tracker state at the end. */
  function VideoTrace<F, T>(c: Collaborators<F, T>, source: InputSource, confidence: real,
                            sampleExists: bool, upload: Option<UploadedFile>, tempPath: string,
                            capture: seq<Option<F>>, tracker: T): (seq<Event<F>>, T)
  {
    if NothingToDo(source, sampleExists, upload) then ([], tracker)
    else if VideoPath(source, tempPath) == "" then ([TempCreated(tempPath)], tracker)
    else
      var loop := LoopTrace(c, confidence, tracker, capture, source == UploadOwnData);
      (VideoOpening(source, upload, tempPath) + loop.0 + VideoClosing(source, tempPath), loop.1)
  }

  /** One more frame extends the loop's processing by one `callback` on that frame. */
  lemma TrackFramesStep<F, T>(c: Collaborators<F, T>, confidence: real, tracker: T, frames: seq<F>, i: nat)
    requires i < |frames|
    ensures var before := TrackFrames(c, confidence, tracker, frames[..i]);
      var processed := Callback(c, frames[i], confidence, true, before.0);
      TrackFrames(c, confidence, tracker, frames[..i + 1]) == (processed.tracker, before.1 + [processed])
  {
    assert frames[..i + 1][..i] == frames[..i];
  }

  /** One more processed frame adds its output to the end of the loop's events. */
  lemma FrameEventsStep<F, T>(results: seq<FrameResult<F, T>>, processed: FrameResult<F, T>, persist: bool)
    ensures FrameEvents(results + [processed], persist) == FrameEvents(results, persist) + FrameOutput(processed.annotated, persist)
  {
    assert (results + [processed])[..|results|] == results;
  }

  /** `st.image` of the processed frame, then `out.write` of it when persisting. */
  method ShowFrame<F>(events: seq<Event<F>>, annotated: F, persist: bool) returns (after: seq<Event<F>>)
    ensures after == events + FrameOutput(annotated, persist)
  {
    after := events + [Displayed(annotated)];
    if persist {
      after := after + [Written(annotated)];
    }
  }

  /** The `while True` loop of `video_input`: read, stop at the first failed read,
      process, display, and write when persisting. */
  method FrameLoop<F, T>(c: Collaborators<F, T>, confidence: real, tracker: T,
                         capture: seq<Option<F>>, persist: bool)
    returns (events: seq<Event<F>>, trackerOut: T)
    ensures (events, trackerOut) == LoopTrace(c, confidence, tracker, capture, persist)
  {
    events := [];
    trackerOut := tracker;
    ghost var frames := ReadablePrefix(capture);
    ghost var results: seq<FrameResult<F, T>> := [];
    var i := 0;
    while true
      invariant 0 <= i <= |frames|
      invariant (trackerOut, results) == TrackFrames(c, confidence, tracker, frames[..i])
      invariant events == FrameEvents(results, persist)
      decreases |capture| - i
    {
      if i >= |capture| || capture[i].None? {
        break;
      }
      var processed := Callback(c, capture[i].value, confidence, true, trackerOut);
      assert capture[i].value == frames[i];
      TrackFramesStep(c, confidence, tracker, frames, i);
      trackerOut := processed.tracker;
      events := ShowFrame(events, processed.annotated, persist);
      FrameEventsStep(results, processed, persist);
      results := results + [processed];
      i := i + 1;
    }
    assert frames[..i] == frames;
  }

  /** `video_input(data_src, confidence)`, step by step as the source runs it. */
  method VideoInput<F, T>(c: Collaborators<F, T>, source: InputSource, confidence: real,
                          sampleExists: bool, upload: Option<UploadedFile>, tempPath: string,
                          capture: seq<Option<F>>, tracker: T)
    returns (events: seq<Event<F>>, trackerOut: T)
    ensures (events, trackerOut) == VideoTrace(c, source, confidence, sampleExists, upload, tempPath, capture, tracker)
  {
    events := [];
    trackerOut := tracker;
    var vidFile := "";
    if source == SampleData {
      vidFile := SampleVideo;
      if !sampleExists {
        return;
      }
    } else {
      if upload.None? {
        return;
      }
      events := [TempCreated(tempPath)];
      vidFile := tempPath;
    }
    var persist := source == UploadOwnData;
    assert !NothingToDo(source, sampleExists, upload);
    assert vidFile == if persist then tempPath else SampleVideo;
    if vidFile != "" {
      ghost var created := events;
      events := events + [CaptureOpened(vidFile)];
      var writer: seq<Event<F>> := [];
      if persist {
        writer := [WriterOpened(OutputPath(VideoResultsDir, upload.value.name))];
        events := events + writer;
      }
      var loop;
      loop, trackerOut := FrameLoop(c, confidence, tracker, capture, persist);
      events := events + loop;
      events := events + [CaptureReleased];
      if persist {
        events := events + [WriterReleased, TempRemoved(vidFile)];
      }
      assert events == VideoOpening(source, upload, tempPath) + loop + VideoClosing(source, tempPath);
    }
  }

  /** The file an image session reads: the temporary copy of an upload, or the sample. */
  function ImagePath(source: InputSource, tempPath: string): string
  {
    if source == UploadOwnData then tempPath else SampleImage
  }

  /** The name the image result is derived from: the upload's own name, or the
      base name of the image path read. */
  function ImageResultBase(source: InputSource, upload: Option<UploadedFile>, path: string): string
    requires source == UploadOwnData ==> upload.Some?
  {
    if source == UploadOwnData then upload.value.name else Basename(path)
  }

  /** Where the image result is saved: `{base}_result{ext}` in the image results directory. */
  function ImageSavePath(source: InputSource, upload: Option<UploadedFile>, tempPath: string): string
    requires source == UploadOwnData ==> upload.Some?
  {
    OutputPath(ImageResultsDir, ImageResultBase(source, upload, ImagePath(source, tempPath)))
  }

  /** The effects of a decoded still image: show it, show the processed result and save it. */
  function ImageSteps<F>(image: F, annotated: F, savePath: string): seq<Event<F>>
  {
    [Displayed(image), Displayed(annotated), ImageSaved(savePath, annotated)]
  }

  /** `image_input(data_src, confidence)`: the events in order. The tracker is not
      consulted, so it is an input only. */
  function ImageTrace<F, T>(c: Collaborators<F, T>, source: InputSource, confidence: real,
                            sampleExists: bool, upload: Option<UploadedFile>, tempPath: string,
                            decoded: Option<F>, tracker: T): (events: seq<Event<F>>)
    ensures NothingToDo(source, sampleExists, upload) ==> events == []
  {
    if NothingToDo(source, sampleExists, upload) then []
    else
      var isUpload := source == UploadOwnData;
      var path := ImagePath(source, tempPath);
      var created := if isUpload then [TempCreated(tempPath)] else [];
      if path == "" then created
      else if decoded.None? then created + [ImageRead(path)]
      else
        var annotated := Callback(c, decoded.value, confidence, false, tracker).annotated;
        created + [ImageRead(path)] + ImageSteps(decoded.value, annotated, ImageSavePath(source, upload, tempPath))
        + (if isUpload then [TempRemoved(path)] else [])
  }

  /** `main`: the input type selects the video or the image session; an image
      session leaves the tracker as it was and writes no video frames. */
  function RunApp<F, T>(c: Collaborators<F, T>, inputType: InputType, source: InputSource,
                        confidence: real, sampleExists: bool, upload: Option<UploadedFile>,
                        tempPath: string, capture: seq<Option<F>>, decoded: Option<F>, tracker: T)
    : (r: (seq<Event<F>>, T))
    ensures inputType == Video ==> r == VideoTrace(c, source, confidence, sampleExists, upload, tempPath, capture, tracker)
    ensures inputType == Image ==> r.1 == tracker
    ensures inputType == Image ==> r.0 == ImageTrace(c, source, confidence, sampleExists, upload, tempPath, decoded, tracker)
  {
    if inputType == Video then VideoTrace(c, source, confidence, sampleExists, upload, tempPath, capture, tracker)
    else (ImageTrace(c, source, confidence, sampleExists, upload, tempPath, decoded, tracker), tracker)
  }
}

module SessionProperties {
  import opened Wrappers
  import opened Paths
  import opened FramePipeline
  import opened Session

  /** Whether an event sends a frame to the given sink. */
  predicate SentTo<F>(e: Event<F>, sink: Sink)
  {
    (sink == Screen && e.Displayed?) || (sink == VideoFile && e.Written?)
  }

  /** The frames a trace sends to one sink, in order. */
  function Sent<F>(events: seq<Event<F>>, sink: Sink): seq<F>
  {
    if |events| == 0 then []
    else
      var last := events[|events| - 1];
      Sent(events[..|events| - 1], sink) + (if SentTo(last, sink) then [last.frame] else [])
  }

  lemma {:induction false} SentAppend<F>(a: seq<Event<F>>, b: seq<Event<F>>, sink: Sink)
    ensures Sent(a + b, sink) == Sent(a, sink) + Sent(b, sink)
    decreases |b|
  {
    if |b| == 0 {
      assert a + b == a;
    } else {
      var b' := b[..|b| - 1];
      assert (a + b)[..|a + b| - 1] == a + b';
      SentAppend(a, b', sink);
    }
  }

  /** The annotated frames of a run of the frame loop. */
  function Annotated<F, T>(results: seq<FrameResult<F, T>>): (frames: seq<F>)
    ensures |frames| == |results|
    ensures forall i :: 0 <= i < |results| ==> frames[i] == results[i].annotated
  {
    if |results| == 0 then []
    else Annotated(results[..|results| - 1]) + [results[|results| - 1].annotated]
  }

  /** One processed video frame is shown, and written too when persisting. */
  lemma FrameOutputSinks<F>(frame: F, persist: bool)
    ensures Sent(FrameOutput(frame, persist), Screen) == [frame]
    ensures Sent(FrameOutput(frame, persist), VideoFile) == if persist then [frame] else []
  {
    var out := FrameOutput(frame, persist);
    var shown: seq<Event<F>> := [Displayed(frame)];
    assert shown[..0] == [];
    assert Sent(shown, Screen) == [frame];
    assert Sent(shown, VideoFile) == [];
    if persist {
      assert out[..1] == shown;
    } else {
      assert out == shown;
    }
  }

  /** Every event is a displayed or a written frame. */
  ghost predicate FramesOnly<F>(events: seq<Event<F>>) {
    forall k :: 0 <= k < |events| ==> events[k].Displayed? || events[k].Written?
  }

  /** The frame loop shows every processed frame once, in order. */
  lemma {:induction false} FrameEventsShown<F, T>(results: seq<FrameResult<F, T>>, persist: bool)
    ensures Sent(FrameEvents(results, persist), Screen) == Annotated(results)
    decreases |results|
  {
    if |results| > 0 {
      var init := results[..|results| - 1];
      var last := results[|results| - 1].annotated;
      FrameEventsShown(init, persist);
      SentAppend(FrameEvents(init, persist), FrameOutput(last, persist), Screen);
      FrameOutputSinks(last, persist);
    }
  }

  /** The frame loop writes the shown frames, in the same order, when persisting, and none otherwise. */
  lemma {:induction false} FrameEventsWritten<F, T>(results: seq<FrameResult<F, T>>, persist: bool)
    ensures Sent(FrameEvents(results, persist), VideoFile) == if persist then Annotated(results) else []
    decreases |results|
  {
    if |results| > 0 {
      var init := results[..|results| - 1];
      var last := results[|results| - 1].annotated;
      FrameEventsWritten(init, persist);
      SentAppend(FrameEvents(init, persist), FrameOutput(last, persist), VideoFile);
      FrameOutputSinks(last, persist);
    }
  }

  /** The frame loop only shows and writes frames: it opens, releases and removes nothing. */
  lemma {:induction false} FrameEventsOnlyFrames<F, T>(results: seq<FrameResult<F, T>>, persist: bool)
    ensures FramesOnly(FrameEvents(results, persist))
    decreases |results|
  {
    if |results| > 0 {
      var init := results[..|results| - 1];
      var before: seq<Event<F>> := FrameEvents(init, persist);
      var out: seq<Event<F>> := FrameOutput(results[|results| - 1].annotated, persist);
      FrameEventsOnlyFrames(init, persist);
      assert FramesOnly(out);
      forall k | 0 <= k < |before + out|
        ensures (before + out)[k].Displayed? || (before + out)[k].Written?
      {
        if k >= |before| {
          assert (before + out)[k] == out[k - |before|];
        }
      }
    }
  }

  /** The three facts about the frame loop's events together. */
  lemma FrameEventsSinks<F, T>(results: seq<FrameResult<F, T>>, persist: bool)
    ensures Sent(FrameEvents(results, persist), Screen) == Annotated(results)
    ensures Sent(FrameEvents(results, persist), VideoFile) == if persist then Annotated(results) else []
    ensures FramesOnly(FrameEvents(results, persist))
  {
    FrameEventsShown(results, persist);
    FrameEventsWritten(results, persist);
    FrameEventsOnlyFrames(results, persist);
  }

  /** A trace without frame events sends nothing anywhere. */
  lemma {:induction false} SentNone<F>(events: seq<Event<F>>, sink: Sink)
    requires forall k :: 0 <= k < |events| ==> !events[k].Displayed? && !events[k].Written?
    ensures Sent(events, sink) == []
    decreases |events|
  {
    if |events| > 0 {
      SentNone(events[..|events| - 1], sink);
    }
  }

  /** Nothing happens when the sample is missing or nothing was uploaded: no
      capture, no processing, no file, and the tracker is untouched. */
  lemma VideoNothingToDo<F, T>(c: Collaborators<F, T>, source: InputSource, confidence: real,
                               sampleExists: bool, upload: Option<UploadedFile>, tempPath: string,
                               capture: seq<Option<F>>, tracker: T)
    requires NothingToDo(source, sampleExists, upload)
    ensures VideoTrace(c, source, confidence, sampleExists, upload, tempPath, capture, tracker) == ([], tracker)
  {
  }

  /** The frames a running video session sends to a sink are the frames its loop sends there. */
  lemma VideoSinksAreLoopSinks<F, T>(c: Collaborators<F, T>, source: InputSource, confidence: real,
                                     sampleExists: bool, upload: Option<UploadedFile>, tempPath: string,
                                     capture: seq<Option<F>>, tracker: T, sink: Sink)
    requires !NothingToDo(source, sampleExists, upload)
    requires VideoPath(source, tempPath) != ""
    ensures Sent(VideoTrace(c, source, confidence, sampleExists, upload, tempPath, capture, tracker).0, sink) ==
      Sent(LoopTrace(c, confidence, tracker, capture, source == UploadOwnData).0, sink)
  {
    VideoTraceShape(c, source, confidence, sampleExists, upload, tempPath, capture, tracker);
    SentBetween(VideoOpening(source, upload, tempPath), LoopTrace(c, confidence, tracker, capture, source == UploadOwnData).0,
                   VideoClosing(source, tempPath), sink);
  }

  /** Events before and after a middle part that show or write no frame leave the middle part's frames as the trace's frames. */
  lemma SentBetween<F>(opening: seq<Event<F>>, middle: seq<Event<F>>, closing: seq<Event<F>>, sink: Sink)
    requires forall k :: 0 <= k < |opening| ==> !opening[k].Displayed? && !opening[k].Written?
    requires forall k :: 0 <= k < |closing| ==> !closing[k].Displayed? && !closing[k].Written?
    ensures Sent(opening + middle + closing, sink) == Sent(middle, sink)
  {
    SentAppend(opening + middle, closing, sink);
    SentAppend(opening, middle, sink);
    SentNone(opening, sink);
    SentNone(closing, sink);
  }

  /** A video session that runs shows exactly the frames read before the first
      failed read, after processing (frame `i` by `callback` as a video frame, see
      `TrackFramesInOrder`), in source order; the writer receives the same frames
      in the same order for an upload and nothing for the sample. */
  lemma VideoShowsEveryReadableFrame<F, T>(c: Collaborators<F, T>, source: InputSource, confidence: real,
                                           sampleExists: bool, upload: Option<UploadedFile>, tempPath: string,
                                           capture: seq<Option<F>>, tracker: T)
    requires !NothingToDo(source, sampleExists, upload)
    requires VideoPath(source, tempPath) != ""
    ensures var events := VideoTrace(c, source, confidence, sampleExists, upload, tempPath, capture, tracker).0;
      var results := TrackFrames(c, confidence, tracker, ReadablePrefix(capture)).1;
      && |results| == |ReadablePrefix(capture)|
      && Sent(events, Screen) == Annotated(results)
      && Sent(events, VideoFile) == if source == UploadOwnData then Annotated(results) else []
  {
    var results := TrackFrames(c, confidence, tracker, ReadablePrefix(capture)).1;
    VideoSinksAreLoopSinks(c, source, confidence, sampleExists, upload, tempPath, capture, tracker, Screen);
    VideoSinksAreLoopSinks(c, source, confidence, sampleExists, upload, tempPath, capture, tracker, VideoFile);
    FrameEventsSinks(results, source == UploadOwnData);
  }

  /** The trace of a video session that gets past its early returns. */
  lemma VideoTraceShape<F, T>(c: Collaborators<F, T>, source: InputSource, confidence: real,
                              sampleExists: bool, upload: Option<UploadedFile>, tempPath: string,
                              capture: seq<Option<F>>, tracker: T)
    requires !NothingToDo(source, sampleExists, upload)
    requires VideoPath(source, tempPath) != ""
    ensures VideoTrace(c, source, confidence, sampleExists, upload, tempPath, capture, tracker).0 ==
      VideoOpening(source, upload, tempPath) + LoopTrace(c, confidence, tracker, capture, source == UploadOwnData).0
      + VideoClosing(source, tempPath)
    ensures FramesOnly(LoopTrace(c, confidence, tracker, capture, source == UploadOwnData).0)
  {
    FrameEventsSinks(TrackFrames(c, confidence, tracker, ReadablePrefix(capture)).1, source == UploadOwnData);
  }

  /** An upload's video session opens the temporary copy, writes to
      `{base}_result{ext}` in the video results directory, and removes the
      temporary file as its very last effect, exactly once. */
  lemma VideoUploadLifecycle<F, T>(c: Collaborators<F, T>, confidence: real, upload: UploadedFile,
                                   tempPath: string, capture: seq<Option<F>>, tracker: T, sampleExists: bool)
    requires tempPath != ""
    ensures var events := VideoTrace(c, UploadOwnData, confidence, sampleExists, Some(upload), tempPath, capture, tracker).0;
      && |events| >= 6
      && events[0] == TempCreated(tempPath)
      && events[1] == CaptureOpened(tempPath)
      && events[2] == WriterOpened(OutputPath(VideoResultsDir, upload.name))
      && events[|events| - 3] == CaptureReleased
      && events[|events| - 2] == WriterReleased
      && events[|events| - 1] == TempRemoved(tempPath)
      && forall k :: 0 <= k < |events| - 1 ==> !events[k].TempRemoved?
  {
    VideoTraceShape(c, UploadOwnData, confidence, sampleExists, Some(upload), tempPath, capture, tracker);
    UploadEventsLifecycle(tempPath, OutputPath(VideoResultsDir, upload.name), LoopTrace(c, confidence, tracker, capture, true).0);
  }

  /** Around a loop of frame events, an upload session's events create and open the
      temporary copy and the writer first and release them and remove the copy last. */
  lemma UploadEventsLifecycle<F>(tempPath: string, resultPath: string, loop: seq<Event<F>>)
    requires FramesOnly(loop)
    ensures var events := [TempCreated(tempPath), CaptureOpened(tempPath), WriterOpened(resultPath)] + loop
                          + [CaptureReleased, WriterReleased, TempRemoved(tempPath)];
      && |events| >= 6
      && events[0] == TempCreated(tempPath)
      && events[1] == CaptureOpened(tempPath)
      && events[2] == WriterOpened(resultPath)
      && events[|events| - 3] == CaptureReleased
      && events[|events| - 2] == WriterReleased
      && events[|events| - 1] == TempRemoved(tempPath)
      && forall k :: 0 <= k < |events| - 1 ==> !events[k].TempRemoved?
  {
    var events := [TempCreated(tempPath), CaptureOpened(tempPath), WriterOpened(resultPath)] + loop
                  + [CaptureReleased, WriterReleased, TempRemoved(tempPath)];
    forall k | 0 <= k < |events| - 1
      ensures !events[k].TempRemoved?
    {
      if 3 <= k < 3 + |loop| {
        assert events[k] == loop[k - 3];
      }
    }
  }

  /** The sample video is only previewed: no temporary file, no writer, nothing written or removed. */
  lemma VideoSampleWritesNothing<F, T>(c: Collaborators<F, T>, confidence: real, upload: Option<UploadedFile>,
                                       tempPath: string, capture: seq<Option<F>>, tracker: T)
    ensures var events := VideoTrace(c, SampleData, confidence, true, upload, tempPath, capture, tracker).0;
      && events[0] == CaptureOpened(SampleVideo)
      && events[|events| - 1] == CaptureReleased
      && forall k :: 0 <= k < |events| ==>
           !events[k].WriterOpened? && !events[k].Written? && !events[k].TempCreated? && !events[k].TempRemoved?
  {
    VideoTraceShape(c, SampleData, confidence, true, upload, tempPath, capture, tracker);
    var results := TrackFrames(c, confidence, tracker, ReadablePrefix(capture)).1;
    FrameEventsWritten(results, false);
    FrameEventsOnlyFrames(results, false);
    SampleEventsWriteNothing(FrameEvents(results, false));
  }

  /** Around a loop that writes nothing, the sample session's events open no writer,
      write nothing and create or remove no temporary file. */
  lemma SampleEventsWriteNothing<F>(loop: seq<Event<F>>)
    requires FramesOnly(loop)
    requires Sent(loop, VideoFile) == []
    ensures var events := [CaptureOpened(SampleVideo)] + loop + [CaptureReleased];
      && events[0] == CaptureOpened(SampleVideo)
      && events[|events| - 1] == CaptureReleased
      && forall k :: 0 <= k < |events| ==>
           !events[k].WriterOpened? && !events[k].Written? && !events[k].TempCreated? && !events[k].TempRemoved?
  {
    var events := [CaptureOpened(SampleVideo)] + loop + [CaptureReleased];
    forall k | 0 <= k < |events|
      ensures !events[k].WriterOpened? && !events[k].Written? && !events[k].TempCreated? && !events[k].TempRemoved?
    {
      if 1 <= k < 1 + |loop| {
        assert events[k] == loop[k - 1];
        SentWithout(loop, k - 1);
      }
    }
  }

  /** A trace that sends nothing to the video file writes no frame. */
  lemma {:induction false} SentWithout<F>(events: seq<Event<F>>, k: nat)
    requires k < |events|
    requires Sent(events, VideoFile) == []
    ensures !events[k].Written?
    decreases |events|
  {
    var n := |events|;
    if k < n - 1 {
      assert events[..n - 1][k] == events[k];
      SentWithout(events[..n - 1], k);
    }
  }

  /** A result file is named `{base}_result{ext}` after the original: it sits in the
      results directory and keeps the original extension. */
  lemma OutputPathNaming(resultsDir: string, originalName: string)
    requires NoSep(originalName)
    ensures Basename(OutputPath(resultsDir, originalName)) == ResultName(originalName)
    ensures Stem(Basename(OutputPath(resultsDir, originalName))) == Stem(originalName) + "_result"
    ensures Ext(Basename(OutputPath(resultsDir, originalName))) == Ext(originalName)
  {
    var b := Stem(originalName);
    assert originalName == b + Ext(originalName);
    assert forall k :: 0 <= k < |b| ==> b[k] == originalName[k];
    assert NoSep(ResultName(originalName));
    BasenameOfJoin(resultsDir, ResultName(originalName));
    ResultNameKeepsExtension(originalName);
  }

  /** The sample image's result is derived from its file name, `pothole.jpeg`. */
  lemma SampleImageBase(upload: Option<UploadedFile>, tempPath: string)
    ensures ImageResultBase(SampleData, upload, ImagePath(SampleData, tempPath)) == "pothole.jpeg"
  {
    var dir, name := Join("sample", "image"), "pothole.jpeg";
    assert NoSep(name);
    BasenameOfJoin(dir, name);
    assert ImagePath(SampleData, tempPath) == Join(dir, name);
  }

  /** The events before the image steps: the temporary copy (uploads only) and the read. */
  function ImageHead<F>(source: InputSource, tempPath: string): seq<Event<F>>
  {
    (if source == UploadOwnData then [TempCreated(tempPath)] else []) + [ImageRead(ImagePath(source, tempPath))]
  }

  /** The trace of an image session whose image decodes. */
  lemma ImageTraceShape<F, T>(c: Collaborators<F, T>, source: InputSource, confidence: real,
                              sampleExists: bool, upload: Option<UploadedFile>, tempPath: string,
                              image: F, tracker: T)
    requires !NothingToDo(source, sampleExists, upload)
    requires ImagePath(source, tempPath) != ""
    ensures ImageTrace(c, source, confidence, sampleExists, upload, tempPath, Some(image), tracker) ==
      ImageHead(source, tempPath) + ImageSteps(image, Callback(c, image, confidence, false, tracker).annotated, ImageSavePath(source, upload, tempPath))
      + (if source == UploadOwnData then [TempRemoved(ImagePath(source, tempPath))] else [])
    ensures |ImageHead<F>(source, tempPath)| == if source == UploadOwnData then 2 else 1
    ensures forall k :: 0 <= k < |ImageHead<F>(source, tempPath)| ==>
      && !ImageHead<F>(source, tempPath)[k].ImageSaved?
      && !ImageHead<F>(source, tempPath)[k].Displayed?
      && !ImageHead<F>(source, tempPath)[k].Written?
      && !ImageHead<F>(source, tempPath)[k].CaptureOpened?
  {
  }

  /** An image is run through the detector once, untracked, and the screen shows
      the original and then the annotated result. */
  lemma ImageShownThenAnnotated<F, T>(c: Collaborators<F, T>, source: InputSource, confidence: real,
                                      sampleExists: bool, upload: Option<UploadedFile>, tempPath: string,
                                      image: F, tracker: T)
    requires !NothingToDo(source, sampleExists, upload)
    requires ImagePath(source, tempPath) != ""
    ensures var events := ImageTrace(c, source, confidence, sampleExists, upload, tempPath, Some(image), tracker);
      var processed := Callback(c, image, confidence, false, tracker);
      && processed.detections == c.detect(image, confidence)
      && processed.tracker == tracker
      && Sent(events, Screen) == [image, processed.annotated]
  {
    ImageTraceShape(c, source, confidence, sampleExists, upload, tempPath, image, tracker);
    var removal: seq<Event<F>> := if source == UploadOwnData then [TempRemoved(ImagePath(source, tempPath))] else [];
    var savePath := ImageSavePath(source, upload, tempPath);
    SentBetween(ImageHead(source, tempPath), ImageSteps(image, Callback(c, image, confidence, false, tracker).annotated, savePath),
                   removal, Screen);
    SentOfShowShowSave(image, Callback(c, image, confidence, false, tracker).annotated, savePath);
  }

  /** Showing two frames and saving one sends the two shown frames to the screen. */
  lemma SentOfShowShowSave<F>(a: F, b: F, path: string)
    ensures Sent([Displayed(a), Displayed(b), ImageSaved(path, b)], Screen) == [a, b]
  {
    var x: seq<Event<F>> := [Displayed(a)];
    var y: seq<Event<F>> := [Displayed(b)];
    var z: seq<Event<F>> := [ImageSaved(path, b)];
    assert x + y + z == [Displayed(a), Displayed(b), ImageSaved(path, b)];
    SentAppend(x + y, z, Screen);
    SentAppend(x, y, Screen);
    SentSingle(Displayed(a), Screen);
    SentSingle(Displayed(b), Screen);
    SentSingle(ImageSaved(path, b), Screen);
  }

  /** A single event sends its frame to the sinks it is addressed to. */
  lemma SentSingle<F>(e: Event<F>, sink: Sink)
    ensures Sent([e], sink) == if SentTo(e, sink) then [e.frame] else []
  {
    assert [e][..0] == [];
  }

  /** The annotated image is saved exactly once, as `{base}_result{ext}` in the
      image results directory, right after it is shown. */
  lemma ImageSavedOnce<F, T>(c: Collaborators<F, T>, source: InputSource, confidence: real,
                             sampleExists: bool, upload: Option<UploadedFile>, tempPath: string,
                             image: F, tracker: T)
    requires !NothingToDo(source, sampleExists, upload)
    requires ImagePath(source, tempPath) != ""
    ensures var events := ImageTrace(c, source, confidence, sampleExists, upload, tempPath, Some(image), tracker);
      var processed := Callback(c, image, confidence, false, tracker);
      var at := if source == UploadOwnData then 4 else 3;
      && at < |events|
      && events[at - 1] == Displayed(processed.annotated)
      && events[at] == ImageSaved(ImageSavePath(source, upload, tempPath), processed.annotated)
      && forall k :: 0 <= k < |events| && k != at ==> !events[k].ImageSaved?
  {
    ImageTraceShape(c, source, confidence, sampleExists, upload, tempPath, image, tracker);
    var removal: seq<Event<F>> := if source == UploadOwnData then [TempRemoved(ImagePath(source, tempPath))] else [];
    ImageStepsSaveOnce(ImageHead(source, tempPath), image, Callback(c, image, confidence, false, tracker).annotated,
                       ImageSavePath(source, upload, tempPath), removal);
  }

  /** Around the image steps, the save is the only `ImageSaved` event and follows the shown result. */
  lemma ImageStepsSaveOnce<F>(head: seq<Event<F>>, image: F, annotated: F, savePath: string, removal: seq<Event<F>>)
    requires forall k :: 0 <= k < |head| ==> !head[k].ImageSaved?
    requires forall k :: 0 <= k < |removal| ==> !removal[k].ImageSaved?
    ensures var events := head + ImageSteps(image, annotated, savePath) + removal;
      && |head| + 2 < |events|
      && events[|head| + 1] == Displayed(annotated)
      && events[|head| + 2] == ImageSaved(savePath, annotated)
      && forall k :: 0 <= k < |events| && k != |head| + 2 ==> !events[k].ImageSaved?
  {
    var events := head + ImageSteps(image, annotated, savePath) + removal;
    forall k | 0 <= k < |events| && k != |head| + 2
      ensures !events[k].ImageSaved?
    {
      if k < |head| {
        assert events[k] == head[k];
      } else if k >= |head| + 3 {
        assert events[k] == removal[k - |head| - 3];
      }
    }
  }

  /** An image session never opens a capture and never writes a video frame. */
  lemma ImageTouchesNoVideo<F, T>(c: Collaborators<F, T>, source: InputSource, confidence: real,
                                  sampleExists: bool, upload: Option<UploadedFile>, tempPath: string,
                                  decoded: Option<F>, tracker: T)
    ensures var events := ImageTrace(c, source, confidence, sampleExists, upload, tempPath, decoded, tracker);
      forall k :: 0 <= k < |events| ==> !events[k].Written? && !events[k].CaptureOpened?
  {
    var events := ImageTrace(c, source, confidence, sampleExists, upload, tempPath, decoded, tracker);
    if !NothingToDo(source, sampleExists, upload) && ImagePath(source, tempPath) != "" && decoded.Some? {
      ImageTraceShape(c, source, confidence, sampleExists, upload, tempPath, decoded.value, tracker);
      var removal: seq<Event<F>> := if source == UploadOwnData then [TempRemoved(ImagePath(source, tempPath))] else [];
      ImageStepsNoVideo(ImageHead(source, tempPath), decoded.value,
                        Callback(c, decoded.value, confidence, false, tracker).annotated,
                        ImageSavePath(source, upload, tempPath), removal);
    }
  }

  /** The image steps open no capture and write no video frame. */
  lemma ImageStepsNoVideo<F>(head: seq<Event<F>>, image: F, annotated: F, savePath: string, removal: seq<Event<F>>)
    requires forall k :: 0 <= k < |head| ==> !head[k].Written? && !head[k].CaptureOpened?
    requires forall k :: 0 <= k < |removal| ==> !removal[k].Written? && !removal[k].CaptureOpened?
    ensures var events := head + ImageSteps(image, annotated, savePath) + removal;
      forall k :: 0 <= k < |events| ==> !events[k].Written? && !events[k].CaptureOpened?
  {
    var events := head + ImageSteps(image, annotated, savePath) + removal;
    forall k | 0 <= k < |events|
      ensures !events[k].Written? && !events[k].CaptureOpened?
    {
      if k < |head| {
        assert events[k] == head[k];
      } else if k >= |head| + 3 {
        assert events[k] == removal[k - |head| - 3];
      }
    }
  }

  /** An uploaded image that decodes is removed as the session's last effect. */
  lemma ImageUploadRemoved<F, T>(c: Collaborators<F, T>, confidence: real, sampleExists: bool,
                                 upload: UploadedFile, tempPath: string, image: F, tracker: T)
    requires tempPath != ""
    ensures var events := ImageTrace(c, UploadOwnData, confidence, sampleExists, Some(upload), tempPath, Some(image), tracker);
      events[0] == TempCreated(tempPath) && events[|events| - 1] == TempRemoved(tempPath)
  {
  }

  /** An uploaded image that does not decode ends the session early and its
      temporary file is never removed: cleanup is not guaranteed on this path. */
  lemma ImageUnreadableUploadLeaksTemp<F, T>(c: Collaborators<F, T>, confidence: real, sampleExists: bool,
                                             upload: UploadedFile, tempPath: string, tracker: T)
    requires tempPath != ""
    ensures var events := ImageTrace(c, UploadOwnData, confidence, sampleExists, Some(upload), tempPath, None, tracker);
      && events == [TempCreated(tempPath), ImageRead(tempPath)]
      && forall k :: 0 <= k < |events| ==> !events[k].TempRemoved? && !events[k].ImageSaved? && !events[k].Displayed?
  {
  }

  /** A video session reads and saves no still image. */
  lemma VideoTouchesNoImage<F, T>(c: Collaborators<F, T>, source: InputSource, confidence: real,
                                  sampleExists: bool, upload: Option<UploadedFile>, tempPath: string,
                                  capture: seq<Option<F>>, tracker: T)
    ensures var events := VideoTrace(c, source, confidence, sampleExists, upload, tempPath, capture, tracker).0;
      forall k :: 0 <= k < |events| ==> !events[k].ImageRead? && !events[k].ImageSaved?
  {
    if !NothingToDo(source, sampleExists, upload) && VideoPath(source, tempPath) != "" {
      VideoTraceShape(c, source, confidence, sampleExists, upload, tempPath, capture, tracker);
      VideoEventsNoImage(VideoOpening(source, upload, tempPath), LoopTrace(c, confidence, tracker, capture, source == UploadOwnData).0,
                         VideoClosing(source, tempPath));
    }
  }

  /** Frame events between opening and closing events that are not image events contain no image event. */
  lemma VideoEventsNoImage<F>(opening: seq<Event<F>>, loop: seq<Event<F>>, closing: seq<Event<F>>)
    requires forall k :: 0 <= k < |opening| ==> !opening[k].ImageRead? && !opening[k].ImageSaved?
    requires forall k :: 0 <= k < |closing| ==> !closing[k].ImageRead? && !closing[k].ImageSaved?
    requires FramesOnly(loop)
    ensures var events := opening + loop + closing;
      forall k :: 0 <= k < |events| ==> !events[k].ImageRead? && !events[k].ImageSaved?
  {
    var events := opening + loop + closing;
    forall k | 0 <= k < |events|
      ensures !events[k].ImageRead? && !events[k].ImageSaved?
    {
      if k < |opening| {
        assert events[k] == opening[k];
      } else if k < |opening| + |loop| {
        assert events[k] == loop[k - |opening|];
      } else {
        assert events[k] == closing[k - |opening| - |loop|];
      }
    }
  }

  /** `main` runs one kind of session: an image session leaves the tracker as it
      was and touches no video, a video session touches no still image. */
  lemma RunAppKeepsSessionsApart<F, T>(c: Collaborators<F, T>, inputType: InputType, source: InputSource,
                                       confidence: real, sampleExists: bool, upload: Option<UploadedFile>,
                                       tempPath: string, capture: seq<Option<F>>, decoded: Option<F>, tracker: T)
    ensures var r := RunApp(c, inputType, source, confidence, sampleExists, upload, tempPath, capture, decoded, tracker);
      && (inputType == Image ==> r.1 == tracker && forall k :: 0 <= k < |r.0| ==> !r.0[k].Written? && !r.0[k].CaptureOpened?)
      && (inputType == Video ==> forall k :: 0 <= k < |r.0| ==> !r.0[k].ImageRead? && !r.0[k].ImageSaved?)
  {
    if inputType == Image {
      ImageTouchesNoVideo(c, source, confidence, sampleExists, upload, tempPath, decoded, tracker);
    } else {
      VideoTouchesNoImage(c, source, confidence, sampleExists, upload, tempPath, capture, tracker);
    }
  }
}
