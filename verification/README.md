# Pothole detection with YOLOv8: a Dafny model of its core

This project models the three core scripts of the pothole-detection repository and proves properties about them:

- **`src/my_converter.py`** turns Pascal VOC XML annotations into YOLO label files.
  - `xml_to_yolo_bbox` converts pixel corners into a normalised centre and size.
  - For each XML file, the image `<stem>.png` must be listed, or the file is skipped.
  - Objects whose class is not listed are dropped. A kept object gets the first index of its class.
  - `<stem>.txt` is written only when at least one object was kept.
- **`src/split_data.py`** builds the train/validation split.
  - It pairs every listed `.png` with an existing `.txt` label and shuffles the pairs.
  - It cuts the list at `int(n * ratio)`.
  - It moves each pair into the training or validation directories. A pair whose image or image directory is missing is skipped; if only the label or its directory is missing, the image is still moved.
- **`src/app.py`** is the Streamlit application.
  - `callback` detects, tracks only video frames, labels and draws.
  - `video_input` and `image_input` are modelled as traces of observable events: temporary file created, capture opened, frame displayed, frame written, image saved, temporary file removed, and so on.
  - `main` dispatches between the two sessions.

Modules:
- `Wrappers`: `Option`.
- `Seqs`: filtering, first index, join and split, swaps.
- `Paths`: the `ntpath` functions `basename`, `splitext` and `join`, used because the program runs with Windows paths.
- `Converter` (converter.dfy).
- `DatasetSplit` (split.dfy).
- `FramePipeline` (pipeline.dfy): `callback`.
- `Session` and `SessionProperties` (session.dfy): the sessions, `main`, and the properties of their traces.

Modelling choices:
- **File system:** the set of existing paths.
- **Directory listing:** an input sequence.
- **`random.shuffle`:** an input sequence of index swaps. Fisher-Yates is such a sequence.
- **Floats:** exact reals. `int()` on a float truncates toward zero.
- **Foreign collaborators:** the YOLO detector, the ByteTrack tracker, the two annotators and the `:0.2f` / `str(float)` formatters are function-valued parameters.
- **Tracker state:** threaded explicitly through the functions.
- **Video capture:** the sequence of results its reads return, where `None` is a failed read.

Notes on what the source does, which the model follows:
- **Tracker lifetime:** Streamlit runs `app.py` from the top on every rerun. Each run builds a fresh `ByteTrack` at `src/app.py:26` and calls `main()` once (`src/app.py:207-208`). The model takes the tracker state as an input to each session and returns the state it leaves.
- **Temporary image file:** when an uploaded image cannot be decoded, `image_input` returns early and never removes its temporary file. `SessionProperties.ImageUnreadableUploadLeaksTemp` states that path as written.
- **Errors:** there is no `try`/`finally` around either session. The only handlers are the `except Exception` around loading the YOLO weights (`src/app.py:19-24`), which shows an error and stops the script, and the `except FileNotFoundError` in `move_file_pairs`, which skips the rest of the pair. A missing sample or upload is a plain `return`.
- **Moving into a missing directory:** `split_data` never creates the training and validation directories. `shutil.move` into a directory that does not exist raises `FileNotFoundError`, which `move_file_pairs` turns into a skip like a missing source; the model keeps the set of existing directories for this.
- **Labels:** video labels omit the tracker id, exactly like image labels (`FramePipeline.LabelsIgnoreIdentity`).

## Model

| member | source | states |
|---|---|---|
| Converter.ToYoloMeaning | src/my_converter.py:6-12 | Multiplying the YOLO centre by the image size gives the midpoint of the corners, and multiplying the width or height gives their difference; a width or height is non-negative exactly when the corners are in order |
| Converter.CornersRoundTrip | src/my_converter.py:6-12 | Converting pixel corners to a YOLO box and back gives the corners again exactly |
| Converter.YoloRoundTrip | src/my_converter.py:6-12 | Every YOLO box is the conversion of the corners it denotes: back-conversion followed by conversion is the identity |
| Converter.YoloInUnitRange | src/my_converter.py:6-12 | A box inside the image converts to a centre and size that all lie in [0, 1] |
| Converter.ConvertObject | src/my_converter.py:42-61 | An object is dropped exactly when its class name is not listed; otherwise its class id is the first position of its name in the class list, and its box is the YOLO conversion of its corners |
| Converter.ConvertObjects | src/my_converter.py:39-64 | One line per kept object, in document order, each the conversion of that object with a valid class id; no line exactly when no object's class is listed |
| Converter.NatToStringRoundTrip | src/my_converter.py:64 | The decimal rendering of a class id reads back as the same number |
| Converter.LabelTextParses | src/my_converter.py:64-71 | With a float format that emits no blanks or newlines, splitting the text handed to `f.write` at newlines gives one line per label, and splitting a line at blanks gives the class id followed by the four box fields |
| Converter.ConvertXml | src/my_converter.py:23-71 | An XML file is skipped exactly when `<stem>.png` is not among the listed images. A label file is written exactly when the image exists and some object's class is listed: it goes to `<stem>.txt` in the output directory and holds the converted kept objects. Otherwise nothing is written |
| Converter.LabelFileName | src/my_converter.py:68-69 | The label file's base name is the XML file's stem plus `.txt`, and its path ends in `.txt` |
| Paths.BasenameOfJoin | src/split_data.py:45-46 | Joining a separator-free name onto a directory and taking the base name gives the name back |
| Paths.ResultNameKeepsExtension | src/app.py:96-97 | `{base}_result{ext}` splits back into the original stem plus `_result`, with the original extension |
| Seqs.ApplySwaps | src/split_data.py:27 | The shuffle keeps the list's length and its multiset of pairs: it is a permutation |
| DatasetSplit.SelectPairsSound | src/split_data.py:15-24 | Every selected pair is the image path and label path of a listed `.png` whose label file exists |
| DatasetSplit.SelectPairsComplete | src/split_data.py:15-24 | Every listed `.png` whose label file exists contributes its pair |
| DatasetSplit.SelectPairsInListingOrder | src/split_data.py:16-24 | Selection distributes over concatenation of listings, so pairs keep listing order |
| DatasetSplit.SplitPointInRange | src/split_data.py:30 | For a ratio in [0, 1] the split point is the floor of `n * ratio` and lies in [0, n] |
| DatasetSplit.Partition | src/split_data.py:33-34 | The training part followed by the validation part is the shuffled list; for a ratio in [0, 1] the training part has exactly split-point pairs |
| DatasetSplit.PartitionPositionallyDisjoint | src/split_data.py:33-34 | Every position of the shuffled list lands in exactly one of the two parts |
| DatasetSplit.MoveFile | src/split_data.py:49-51 | A move fails exactly when the source is missing or the destination's directory does not exist; otherwise the destination exists, the source is gone, and no other path changes |
| DatasetSplit.DestKeepsName | src/split_data.py:45-46 | A destination path keeps the source's base name |
| DatasetSplit.MovePair | src/split_data.py:42-55 | A pair is skipped with nothing changed exactly when its image or the image directory is missing. Otherwise the image is at its destination; when the label does not alias the image, the label is moved too exactly when it and the label directory exist. Only the pair's own four paths can change, and only its destinations can appear |
| DatasetSplit.MovePairsLog | src/split_data.py:41-55 | Every pair is attempted once, in order, whatever happened to earlier ones, with destinations in the given directories |
| DatasetSplit.MovePairsOutcomes | src/split_data.py:41-55 | When no pair's paths alias another's, each pair's outcome (moved, image only, skipped) is decided by which of its own files and destination directories existed at the start |
| DatasetSplit.MovePairsPlacement | src/split_data.py:41-55 | When no pair's paths alias another's, after the loop every moved image, and every moved label, is at its destination and no longer at its source |
| DatasetSplit.SplitData | src/split_data.py:5-63 | The run selects the pairs and shuffles them into a permutation. It cuts the permutation into training then validation, the training part holding split-point pairs. Training pairs are moved into the training directories, then validation pairs into the validation directories on the files the training moves left, one log entry each |
| DatasetSplit.MoveSplitPlacement | src/split_data.py:57-63 | When neither call's pairs alias each other or the other call's, every training and validation pair gets the outcome its own files and directories at the start dictate, and every moved file ends at its destination, not its source |
| DatasetSplit.SplitDataPlacement | src/split_data.py:5-63 | For a whole run without aliasing, the log gives each training and validation pair the outcome its starting files and directories dictate, and every moved file is at its destination in the final file set and gone from its source |
| FramePipeline.Callback | src/app.py:32-61 | A still image's detections are the detector's, and the tracker is untouched; a video frame's detections and the new tracker state are the tracker's update of the detector's output |
| FramePipeline.CallbackLabels | src/app.py:45-56 | One label per drawn detection, in the same order, each built from that detection |
| FramePipeline.CallbackImageIgnoresTrackFunction | src/app.py:41-56 | A still image's result does not depend on the tracker: replacing the tracker's update function changes nothing |
| FramePipeline.CallbackImageIgnoresTrackerState | src/app.py:37-61 | A still image's annotated frame, detections and labels are the same whatever the tracker state, and that state is returned unchanged |
| FramePipeline.CallbackModesAgreeOnPassThrough | src/app.py:41-61 | When the tracker passes the detections through unchanged, a video frame is annotated and labelled exactly as the same still image |
| FramePipeline.LabelsIgnoreIdentity | src/app.py:41-56 | Labels depend only on confidences: detections that differ in boxes or tracker ids but agree on confidences get the same labels |
| FramePipeline.LabelShape | src/app.py:46 | Every label is `Pothole ` followed by the confidence to two decimals |
| Session.ReadablePrefix | src/app.py:110-113 | The frames processed are the capture's reads up to, not including, the first failed read |
| Session.TrackFramesInOrder | src/app.py:110-115 | Frame `i` is processed once, as a video frame, with the tracker state left by frame `i - 1` |
| Session.TrackFramesFinalState | src/app.py:110-115 | After the loop the tracker holds the state left by the last frame, or the initial state when no frame was read |
| Session.FrameLoop | src/app.py:110-120 | The `while True` loop produces exactly the frame-by-frame events and final tracker state of the reference trace |
| Session.VideoInput | src/app.py:63-137 | `video_input`, statement by statement, produces exactly the reference session trace and final tracker state |
| SessionProperties.VideoNothingToDo | src/app.py:63-80 | With the sample missing or nothing uploaded, the session has no effect and leaves the tracker alone |
| SessionProperties.VideoShowsEveryReadableFrame | src/app.py:110-120 | A running video session shows the processed readable frames, all of them and in order. An upload's writer receives the same frames in the same order; the sample's receives none |
| SessionProperties.VideoUploadLifecycle | src/app.py:73-127 | An uploaded video is copied to a temporary file, which is then opened. The writer is opened on `{base}_result{ext}` in the video results directory. After the loop the capture and writer are released, and removing the temporary file is the last effect and the only removal |
| SessionProperties.VideoSampleWritesNothing | src/app.py:65-137 | The sample video opens its capture first and releases it last; no writer, no written frame and no temporary file |
| Session.ImageTrace | src/app.py:139-153 | With the sample missing or nothing uploaded, the image session has no effect at all |
| SessionProperties.OutputPathNaming | src/app.py:95-97 | For an original name without separators, a result path's base name is `{base}_result{ext}`, with the original stem plus `_result` and the original extension |
| SessionProperties.SampleImageBase | src/app.py:177 | The sample image's result is named after `pothole.jpeg` |
| SessionProperties.ImageShownThenAnnotated | src/app.py:165-171 | A decoded image is processed untracked with the detector's own detections, and the screen shows the original and then the annotated result |
| SessionProperties.ImageSavedOnce | src/app.py:170-181 | The annotated image is saved exactly once, right after it is shown, to `{base}_result{ext}` in the image results directory |
| SessionProperties.ImageTouchesNoVideo | src/app.py:139-193 | An image session never opens a capture or writes a video frame |
| SessionProperties.ImageUploadRemoved | src/app.py:192-193 | A decodable uploaded image's temporary file is created first and removed as the last effect |
| SessionProperties.ImageUnreadableUploadLeaksTemp | src/app.py:155-159 | An uploaded image that does not decode ends the session after the read, and its temporary file is never removed |
| SessionProperties.RunAppKeepsSessionsApart | src/app.py:195-205 | An image session leaves the tracker as it was and touches no video; a video session reads and saves no still image |

## Left out

- Streamlit page elements are not events: page configuration, titles, `st.error`, `st.info`, `st.success`, the placeholder and the download buttons.
- The inputs of `main` come from widgets: input type, source, confidence and the uploaded file are parameters.
- Loading the YOLO weights at start-up (and `st.stop` when that fails) is left out. The detector is a parameter.
- The detector, ByteTrack and the annotators are foreign code and appear as uninterpreted functions. The model does not constrain the detector's confidences against the threshold.
- The outer loop of `convert_annotations` over `glob` results is left out: the model covers one XML file at a time (`Converter.ConvertXml`).
- `os.makedirs` of result and label directories is left out, because directory creation is not part of the path-set file system.
- XML parsing, the `int()` parse of the corner texts, and the image-size read through PIL are inputs. Their errors are not modelled. A missing `<bndbox>` or a corner that `int()` cannot parse raises only for an object whose class is listed, because the box is read after the class filter; a dropped object's corners are never looked at, as in `Converter.ConvertObject`. A missing `<name>` raises for every object.
- The label file is opened in text mode. `LabelFile`'s `text` is the string given to `f.write`; on Windows, text mode writes each `'\n'` to disk as `"\r\n"`, and that translation is not modelled.
- The path set compares paths as exact strings. On Windows, `os.path.exists` and `shutil.move` compare them the way NTFS does, ignoring case and treating `/` and `\` alike, so a label whose name differs only in case from the one looked for would be found by the program but not by `DatasetSplit.Pairable`. The program's own data keeps case consistent, because each label takes its stem from the XML file's name.
- `str(float)` and `:0.2f` are function parameters. Only the class id's decimal rendering is modelled.
- Float rounding in `xml_to_yolo_bbox` and in `len(all_pairs) * split_ratio` is not modelled: both use exact real arithmetic.
- The video writer's frame size, frame rate and fourcc are not modelled. The writer is an event carrying its path.
- `tfile.close()` and the byte copy into the temporary file are left out. Creating the temporary file is one event; its path is an input.
- Exceptions raised by foreign code (the detector, OpenCV, file I/O) are not modelled. The source has no `try`/`finally` around sessions, so such an exception ends the run with no cleanup.
- A Streamlit rerun interrupt is not modelled: a widget change during the video loop stops the script at its next Streamlit call, so `cap.release()`, `out.release()` and `os.remove` are skipped.
- `shutil.move` is modelled as a rename in the path set that needs the destination's directory to exist. Moves across devices, overwriting an existing destination and moving into a destination that is itself a directory are not distinguished. Moving files never creates or removes a directory, and the empty directory name (the current directory) is an ordinary member of the set of directories.
- The `ntpath` drive prefix (`D:`) is not treated specially by `Paths`. The paths the program takes base names of do carry a drive (`D:\Pothole_Detection\…`, `D:/Pothole_Detection/…`), but a separator always follows it, so the last separator comes after the drive and `Paths.Basename` agrees with `ntpath.basename`. A path with nothing but a drive before its name, such as `D:x.xml`, would differ. The directories only have names joined onto them.
- `DatasetSplit.MovePairsOutcomes`, `DatasetSplit.MovePairsPlacement`, `DatasetSplit.MoveSplitPlacement` and `DatasetSplit.SplitDataPlacement` assume no aliasing between the pairs' source and destination paths. With aliasing, an earlier move can change what a later move finds, and the outcome is only given by `DatasetSplit.MovePairs` itself.
- `Seqs.ApplySwaps`: the randomness of `random.shuffle` is not modelled. Any sequence of in-range swaps is accepted, which covers every shuffle the source can produce.
- `src/predict.py` and `src/train.py` are not part of this model.
