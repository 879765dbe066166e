# Emotion pipeline core, modelled in Dafny

This project models the rule-based and loop-based core of an emotion-analysis
pipeline for recorded videos of a child, as the Python code of
net-mary/proyecto-streamlit implements it:

- **Ensemble** (`backend/emotion_ensemble.py`): the class `EmotionEnsemble`
  loads two Keras models from a directory, in a fixed order, and stores each
  model's input shape without the batch dimension. For a face it preprocesses
  the crop once per model (gray, resize, scale to [0, 1], add axes), collects
  one 7-entry prediction per model, averages them and returns the label of the
  first maximal average entry with that entry as confidence.
- **Detector** (`backend/detector_emociones.py`): the class
  `DetectorEmociones` walks the frames of a video, analyses one frame in
  `skip_frames = max(1, int(interval/1000 * fps))`, scores every detected face
  with the ensemble and records `{frame, num_faces, emociones}` per sampled
  frame.
- **Audio** (`backend/analizador_audio.py`): the recogniser's transcript is
  split on whitespace, words longer than one character count as verbal
  attempts, and a recogniser error yields a fixed empty result.
- **Report** (`backend/reporte.py`): the counting loop of
  `generar_histograma`, a dictionary from label to number of detections.
- **Recommendations** (`backend/recomendaciones.py`): three threshold rules
  (frequent confident sadness, few verbal attempts, many self-soothing
  gestures), each adding one fixed message, in that order.
- **Validation** (`utils/validacion.py`): an upload is accepted when its
  lower-cased name ends with an allowed extension and its known size is within
  the limit; the extension is checked first.

Foreign calls are parameters. `Vision.Backend` bundles OpenCV's gray/resize,
the Haar cascade's face detection and Keras' `predict` as functions; model
loading is a function from path to `Result`; the recogniser is represented by
its outcome (text or exception message). A Python exception that propagates
out of a call is a `Failure` of the `Result` datatype.

Files: `common.dfy` (records shared between stages, `Result`/`Option`,
flattening and counting with their permutation lemmas), `vision.dfy`,
`ensemble.dfy`, `detector.dfy`, `audio.dfy`, `report.dfy`,
`recommendations.dfy`, `validation.dfy`.

## Model

| member | source | states |
|---|---|---|
| `Ensemble.JoinPath` | backend/emotion_ensemble.py:14 | the model path starts with the directory and ends with the file name; an absolute file name replaces the directory |
| `Ensemble.DropBatch` | backend/emotion_ensemble.py:21 | the stored shape is the model's input shape with its first (batch) entry removed |
| `Ensemble.LoadAll` | backend/emotion_ensemble.py:13-22 | a successful load yields exactly one model per file; `LoadAllSpec` adds file order and the first failing file's error |
| `Ensemble.LoadAllSpec` | backend/emotion_ensemble.py:13-22 | loading succeeds iff every file loads; then one model per file, in file order; otherwise the error is that of the first failing file, all earlier files having loaded |
| `Ensemble.EmotionEnsemble.Create` | backend/emotion_ensemble.py:8-24 | the constructor's loop appends one model and one input shape per model file, in order, so both lists have the files' length and each shape is its model's shape without the batch entry; a load failure propagates |
| `Ensemble.Normalize` | backend/emotion_ensemble.py:30 | each scaled intensity times 255 is the gray value, so it lies in [0, 1], and the image keeps its dimensions |
| `Ensemble.Preprocess` | backend/emotion_ensemble.py:27-33 | the face is resized to width `target[1]` and height `target[0]`; the tensor has a leading batch axis of 1 and a trailing channel axis of 1 exactly when the target has rank 3; a target of rank below 2 raises |
| `Ensemble.PredictionsSpec` | backend/emotion_ensemble.py:36-40 | the loop yields one prediction per model, in model order, prediction i being model i on the face preprocessed for shape i; it fails, with the index error, iff some shape has rank below 2 |
| `Ensemble.Predictions` | backend/emotion_ensemble.py:36-40 | a successful loop yields exactly one prediction per model; `PredictionsSpec` adds order and the failure condition |
| `Ensemble.MeanColumn` | backend/emotion_ensemble.py:41 | entry j of the average times the number of models is the sum of the models' j-th outputs |
| `Ensemble.ArgMax` | backend/emotion_ensemble.py:42 | the index is in range, its entry is at least every entry, and strictly greater than every earlier entry (first maximum) |
| `Ensemble.Fuse` | backend/emotion_ensemble.py:41-44 | the label is one of the seven, and is the label of the first maximal averaged entry; the confidence is that entry, so no averaged entry exceeds it |
| `Ensemble.PredictWith` | backend/emotion_ensemble.py:35-44 | a successful prediction's label is one of the seven labels |
| `Ensemble.MeanIsDistribution` | backend/emotion_ensemble.py:41-44 | if every model outputs a probability distribution, the average is one as well, so every averaged entry and the confidence lie in [0, 1] |
| `Ensemble.EmotionEnsemble.PredictEmotion` | backend/emotion_ensemble.py:35-44 | the method's loop over the zipped models and shapes computes exactly the fused prediction over the stored models; the label is in the ensemble's label list |
| `Detector.Trunc` | backend/detector_emociones.py:23 | `int()` of a float rounds toward zero |
| `Detector.SkipFrames` | backend/detector_emociones.py:23 | the step is at least 1; it is 1 when interval times fps is below 2, and otherwise the integer part of that product |
| `Detector.Slice` | backend/detector_emociones.py:34 | Python slicing clipped to the sequence: the length is the clipped range and element k is element `lo + k` |
| `Detector.Crop` | backend/detector_emociones.py:34 | the crop has the frame's rows y to y + h, clipped; row i has exactly the clipped columns x to x + w of frame row y + i, and pixel (i, j) of the crop is pixel (y + i, x + j) of the frame |
| `Detector.AsDetection` | backend/detector_emociones.py:16-18 | the detection carries exactly the ensemble's label and confidence; an ensemble error propagates |
| `Detector.FaceAnalysis` | backend/detector_emociones.py:33-36 | when every face scores there is one detection per detected box; `FaceAnalysisSpec` adds order and the failure condition |
| `Detector.VideoAnalysis` | backend/detector_emociones.py:24-39 | a successful walk records at most one result per frame; `VideoSampling`, `SampledFaces` and the `VideoAnalysis…` lemmas pin down which frames and what each records |
| `Detector.DetectorEmociones.Create` | backend/detector_emociones.py:6-10 | the detector builds its ensemble from the default models directory; it exists iff every model loads |
| `Detector.DetectorEmociones.Score` | backend/detector_emociones.py:16-17 | the detector's scorer labels every face it scores with one of the seven emotions |
| `Detector.DetectorEmociones.AnalyzeEmotion` | backend/detector_emociones.py:16-18 | the result is the ensemble's label and confidence for the face, the label being one of the seven |
| `Detector.FaceAnalysisSpec` | backend/detector_emociones.py:33-36 | scoring the faces of a frame succeeds iff every crop scores; then there is one entry per box, in detection order, entry k being the score of crop k |
| `Detector.VideoAnalysisFails` | backend/detector_emociones.py:26-39 | the frame loop fails iff a frame whose id is a multiple of the step has a face that fails to score |
| `Detector.VideoAnalysisEntries` | backend/detector_emociones.py:30-38 | every result records a frame in range whose id is a multiple of the step, with `num_faces` the number of detected faces and the face scores as entries |
| `Detector.VideoAnalysisOrdered` | backend/detector_emociones.py:24-39 | the frame ids of the results strictly increase |
| `Detector.VideoAnalysisCovers` | backend/detector_emociones.py:30-39 | every frame id in range that is a multiple of the step has a result |
| `Detector.SampledIds` | backend/detector_emociones.py:24-39 | increasing multiples of the step that cover every multiple below n are exactly 0, step, 2·step, …, and there are ⌈n / step⌉ of them |
| `Detector.VideoSampling` | backend/detector_emociones.py:20-41 | for n frames the results are for frames 0, step, 2·step, …, ⌈n / step⌉ of them, none for zero frames, each the record of its frame |
| `Detector.SampledFaces` | backend/detector_emociones.py:31-38 | in each result `num_faces` equals the number of detected faces and the number of emotion entries, entry j being the score of face j's crop |
| `Detector.DetectorEmociones.AnalyzeVideo` | backend/detector_emociones.py:20-41 | the while loop and its inner face loop compute exactly the frame analysis from frame 0 with the computed step, failing with the first scoring error |
| `Audio.Split` | backend/analizador_audio.py:20 | every word of `split()` is non-empty and contains no whitespace |
| `Audio.SplitFrom` | backend/analizador_audio.py:20 | continuing a word already started, every produced word is non-empty and free of whitespace |
| `Audio.SplitContents` | backend/analizador_audio.py:20 | the words put back together are the transcript's non-whitespace characters, in order |
| `Audio.SplitJoin` | backend/analizador_audio.py:20 | splitting words joined by single spaces gives the words back |
| `Audio.SplitNormalises` | backend/analizador_audio.py:20 | the words joined by single spaces are the transcript with every inner whitespace run reduced to one space and the runs at either end dropped, a normalisation defined without `split` |
| `Audio.SplitUnique` | backend/analizador_audio.py:20 | the split is the only list of whitespace-free words that joins to that normalised text |
| `Audio.Transcribe` | backend/analizador_audio.py:18-24 | on success the transcription is the recogniser's text unchanged, the words are its split and the attempts count the words longer than one character, at most the number of words; on an exception the result is the error message, "", no words and 0 attempts |
| `Audio.AttemptsAreLongWords` | backend/analizador_audio.py:21 | there are no attempts iff every word has a single character |
| `Audio.TranscriptionWords` | backend/analizador_audio.py:19-22 | the detected words spell the transcript without its whitespace and are stable under joining and splitting again |
| `Report.HistogramSpec` | backend/reporte.py:4-8 | the keys are distinct and are exactly the labels that occur; each entry is its label's number of detections, hence at least 1 |
| `Report.HistogramOrder` | backend/reporte.py:7-8 | keys are in first-occurrence order: before any occurrence of a later key, every earlier key has occurred |
| `Report.HistogramTotal` | backend/reporte.py:5-8 | the entries add up to the number of detections |
| `Report.HistogramPermutation` | backend/reporte.py:5-8 | the entries depend only on the multiset of detections, not on their order |
| `Report.FramePermutation` | backend/reporte.py:5-8 | reordering frames or the faces in them leaves the entries unchanged |
| `Report.Increment` | backend/reporte.py:8 | the label's entry becomes its old count, 0 when absent, plus one; the keys gain the label at the end iff it was absent, and stay the same otherwise |
| `Report.IncrementOthers` | backend/reporte.py:8 | every other entry is unchanged and the dictionary's labels gain exactly the counted label |
| `Report.IncrementWellFormed` | backend/reporte.py:8 | one update keeps the keys distinct and equal to the dictionary's labels |
| `Report.IncrementTotal` | backend/reporte.py:8 | one update adds exactly one to the sum of the entries |
| `Report.Histogram` | backend/reporte.py:5-8 | there are no more keys than detections, and no keys iff no detections; `HistogramSpec`, `HistogramOrder`, `HistogramTotal` and `HistogramPermutation` state what the entries are |
| `Report.CountEmotions` | backend/reporte.py:4-8 | the nested loop leaves exactly the dictionary of counts, keys in insertion order, of all detections of all frames |
| `Report.CountFaces` | backend/reporte.py:6-8 | the inner loop over one frame's faces continues the counts of the detections before it with that frame's detections |
| `Common.CountPermutation` | backend/recomendaciones.py:5-7 | the number of elements satisfying a condition depends only on the multiset of elements |
| `Common.FlattenPermutation` | backend/recomendaciones.py:5-6 | reordering the frames keeps the multiset of their detections |
| `Recommendations.SadCount` | backend/recomendaciones.py:5-7 | the sadness count is at most the number of detections |
| `Recommendations.GetOr` | backend/recomendaciones.py:12 | a missing key reads as the default |
| `Recommendations.SadnessFires` | backend/recomendaciones.py:5-8 | the sadness rule can only fire when at least six faces were analysed over all frames; `SadnessBoundaries` gives its exact threshold |
| `Recommendations.VerbalFires` | backend/recomendaciones.py:12 | a missing attempt count fires the rule; a present one fires iff it is at most 2 |
| `Recommendations.GesturesFires` | backend/recomendaciones.py:16 | the gestures rule fires iff gestures were given, contain the self-soothing key, and its count exceeds 5; the emptiness test adds nothing |
| `Recommendations.GenerateRecommendations` | backend/recomendaciones.py:1-19 | the sadness message is present iff more than 5 detections over all frames and faces are "Sad" with confidence above 0.6; the verbal message iff the attempts, 0 when missing, are below 3; the gestures message iff gestures were given, are non-empty and have more than 5 self-soothing gestures; messages come in rule order, each at most once, so at most three |
| `Recommendations.SadCountPermutation` | backend/recomendaciones.py:5-7 | the sadness count does not depend on the order of detections |
| `Recommendations.SadCountFrameOrder` | backend/recomendaciones.py:5-7 | the sadness count does not depend on the order of frames |
| `Recommendations.UniformSadCount` | backend/recomendaciones.py:5-7 | n sad faces count n when their confidence is above 0.6 and 0 otherwise |
| `Recommendations.SadnessBoundaries` | backend/recomendaciones.py:6-8 | confidence exactly 0.6 never counts, five confident faces do not fire the rule and six do |
| `Validation.Lower` | utils/validacion.py:6 | lower-casing keeps the length and maps each upper-case ASCII letter to its lower-case form |
| `Validation.EndsWith` | utils/validacion.py:7 | `endswith` holds iff the name is some string followed by the extension |
| `Validation.AnyEndsWith` | utils/validacion.py:7 | true iff the name ends with one of the extensions |
| `Validation.FormatMessage` | utils/validacion.py:8 | the message starts with the fixed prefix and is just the prefix for an empty list |
| `Validation.FormatNamesEvery` | utils/validacion.py:8 | the format message mentions every accepted extension |
| `Validation.DefaultFormatMessage` | utils/validacion.py:4-8 | with the default list the message reads "Formato no soportado. Use .mp4, .avi, .mov, .mkv" |
| `Validation.ValidateVideo` | utils/validacion.py:3-12 | with no list the default extensions apply; rejected for format, with the joined extension list, iff the lower-cased name ends with none of the extensions; otherwise rejected for size iff the size is known and strictly above the limit, reporting the limit in MiB; accepted otherwise |
| `Validation.LowerIdempotent` | utils/validacion.py:6 | lower-casing twice is lower-casing once |
| `Validation.CaseInsensitive` | utils/validacion.py:6-7 | names that agree after lower-casing get the same verdict |
| `Validation.UpperCaseAccepted` | utils/validacion.py:3-7 | "CLIP.MP4" of exactly the default size limit is accepted with the defaults |
| `Validation.UpperCaseExtensionNeverMatches` | utils/validacion.py:6-8 | an upper-case extension matches no name, since only the name is lower-cased |
| `Validation.SizeBoundary` | utils/validacion.py:9-12 | a well-named file exactly at the limit is accepted and one byte more is rejected for size |
| `Validation.FormatFirst` | utils/validacion.py:7-11 | a bad name is reported as a bad format whatever its size |

## Left out

- Scope: the code has no per-model weights, smoothing, image-statistics fallback, skipping of missing model files, diagnosis profiles, alerts, confidence filtering, statistics, caching or retries, and the model adds none: a failing load or an ill-shaped input raises, and the average is unweighted.
- Keras: `load_model` and `compile` (backend/emotion_ensemble.py:15-18) are one loading function given to `EmotionEnsemble.Create`; the optimizer settings do not affect prediction and are not modelled.
- OpenCV: colour conversion, resizing, the Haar cascades (including the unused cascade of backend/emotion_ensemble.py:25), `VideoCapture`, `cap.read`, `cap.release` and the frame rate query are functions or values given to the model; a video is the sequence of frames `cap.read()` returns and its fps.
- `cv2.imwrite` of every face crop and `os.makedirs` of the frames directory (backend/detector_emociones.py:10, 37) are file output and not modelled.
- The detector's `cascade_path` and `save_frames_path` parameters only feed the left-out OpenCV calls and file output.
- Audio extraction with pydub (`extraer_audio`) and reading the audio file (backend/analizador_audio.py:16-17, outside the `try`, so its errors propagate) are I/O; `transcribir_audio` is modelled from the recogniser's outcome, which also hides the language setting.
- Floating point: confidences, fps, the interval and the /255 scaling are reals; float32 rounding and the conversion `float(avg_pred[idx])` are not modelled.
- Vision.Tensor: the pixel rows are not tied to `shape`, because the size of the image returned by the gray/resize backend function is not modelled; `Ensemble.Preprocess` states the shape it records.
- Vision.Prediction: every classifier output is taken to have exactly seven entries; a model with another output size is not modelled.
- Detector.SkipFrames: fps is a real number; NaN or infinite fps are not modelled.
- Ensemble.Preprocess: only the missing-index error of a target of rank below 2 is modelled; errors Keras would raise for a tensor of the wrong rank are not.
- Validation.Lower: lower-cases the ASCII letters A–Z only, not the full Unicode case mapping of `str.lower()`.
- Validation.ValidateVideo: the size message keeps the limit in MiB as a number instead of rendering Python's float text; the size and limit are integers.
- Recommendations.GenerateRecommendations: the audio dictionary is reduced to its optional integer `intentos`, and `gestos` to an optional dictionary from string to integer; other value types are not modelled.
- `generar_histograma`'s plotting and file saving (backend/reporte.py:9-13) and `generar_reporte`'s text-file output (backend/reporte.py:15-28) are file I/O.
- The pipeline wiring of backend/pipeline.py only chains the modelled stages with I/O and is not modelled.
