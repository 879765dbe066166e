/** The video detector of backend/detector_emociones.py: it reads frames in
    order, analyses one frame out of every `skip_frames`, and for each analysed
    frame scores every detected face with the emotion ensemble. */
module Detector {
  import opened Common
  import opened Vision
  import Ensemble

  /** The default `intervalo_ms`. */
  const DefaultIntervalMs: real := 1000.0

  /** Python's `int()` on a float: truncation toward zero. */
  function Trunc(x: real): (n: int)
    ensures x >= 0.0 ==> n as real <= x < n as real + 1.0
    ensures x < 0.0 ==> n as real - 1.0 < x <= n as real
  {
    if x >= 0.0 then x.Floor else -((-x).Floor)
  }

  /** `skip_frames = max(1, int((intervalo_ms/1000)*fps))`: at least one, and
      the whole part of the number of frames per interval once that is 1 or more. */
  function SkipFrames(intervalMs: real, fps: real): (skip: nat)
    ensures skip >= 1
    ensures (intervalMs / 1000.0) * fps < 2.0 ==> skip == 1
    ensures (intervalMs / 1000.0) * fps >= 1.0 ==>
      skip as real <= (intervalMs / 1000.0) * fps < skip as real + 1.0
  {
    var n := Trunc((intervalMs / 1000.0) * fps);
    if n > 1 then n else 1
  }

  function Min(a: nat, b: nat): nat
  {
    if a <= b then a else b
  }

  /** Python slicing `s[lo:hi]` with non-negative bounds: bounds past the end
      are clipped and an empty range gives an empty slice. */
  function Slice<T>(s: seq<T>, lo: nat, hi: nat): (r: seq<T>)
    ensures |r| == (if lo < hi && lo < |s| then Min(hi, |s|) - lo else 0)
    ensures forall k :: 0 <= k < |r| ==> lo + k < |s| && r[k] == s[lo + k]
  {
    var a, b := Min(lo, |s|), Min(hi, |s|);
    if a < b then s[a..b] else []
  }

  /** `frame[y:y+h, x:x+w]`: the face region, clipped to the frame; pixel
      (i, j) of the crop is pixel (y+i, x+j) of the frame. */
  function Crop(frame: Image, b: Box): (face: Image)
    ensures |face| == |Slice(frame, b.y, b.y + b.h)|
    ensures forall i :: 0 <= i < |face| ==> b.y + i < |frame| && |face[i]| == |Slice(frame[b.y + i], b.x, b.x + b.w)|
    ensures forall i, j :: 0 <= i < |face| && 0 <= j < |face[i]| ==>
      b.y + i < |frame| && b.x + j < |frame[b.y + i]| && face[i][j] == frame[b.y + i][b.x + j]
  {
    var rows := Slice(frame, b.y, b.y + b.h);
    seq(|rows|, i requires 0 <= i < |rows| => Slice(rows[i], b.x, b.x + b.w))
  }

  /** A face scorer: the ensemble's verdict on one face image. */
  type Scorer = Image -> Result<Detection, string>

  /** `analizar_emocion`: the ensemble's (label, confidence) under the keys
      'emotion' and 'confidence'. */
  function AsDetection(p: Result<(string, real), string>): (r: Result<Detection, string>)
    ensures r.Success? <==> p.Success?
    ensures r.Success? ==> r.value.emotion == p.value.0 && r.value.confidence == p.value.1
    ensures r.Failure? ==> r.error == p.error
  {
    match p
    case Success(v) => Success(Detection(v.0, v.1))
    case Failure(e) => Failure(e)
  }

  /** The inner loop of `analizar_video`: score every face box in detection
      order; a scoring error propagates. */
  function FaceAnalysis(frame: Image, boxes: seq<Box>, score: Scorer): (r: Result<seq<Detection>, string>)
    ensures r.Success? ==> |r.value| == |boxes|
  {
    if boxes == [] then Success([])
    else match score(Crop(frame, boxes[0]))
      case Failure(e) => Failure(e)
      case Success(d) => Prepend([d], FaceAnalysis(frame, boxes[1..], score))
  }

  /** Face analysis succeeds iff every face scores; then there is one entry per
      box, entry k being the score of the k-th crop. */
  lemma {:induction false} FaceAnalysisSpec(frame: Image, boxes: seq<Box>, score: Scorer)
    ensures FaceAnalysis(frame, boxes, score).Success? <==>
      forall k :: 0 <= k < |boxes| ==> score(Crop(frame, boxes[k])).Success?
    ensures FaceAnalysis(frame, boxes, score).Success? ==>
      var ds := FaceAnalysis(frame, boxes, score).value;
      |ds| == |boxes| && forall k :: 0 <= k < |boxes| ==> ds[k] == score(Crop(frame, boxes[k])).value
  {
    if boxes != [] {
      var rest := boxes[1..];
      FaceAnalysisSpec(frame, rest, score);
      assert forall k :: 1 <= k < |boxes| ==> rest[k - 1] == boxes[k];
      var first := score(Crop(frame, boxes[0]));
      if first.Success? && FaceAnalysis(frame, rest, score).Success? {
        var ts := FaceAnalysis(frame, rest, score).value;
        assert FaceAnalysis(frame, boxes, score).value == [first.value] + ts;
      }
    }
  }

  /** The outer loop of `analizar_video` from frame id `id` on: a frame whose
      id is a multiple of `skip` yields `{frame, num_faces, emociones}`, any
      other frame is passed over. */
  function VideoAnalysis(frames: seq<Image>, id: nat, skip: nat, detect: Image -> seq<Box>, score: Scorer): (r: Result<seq<FrameResult>, string>)
    requires skip > 0
    ensures r.Success? ==> |r.value| <= |frames|
  {
    if frames == [] then Success([])
    else if id % skip == 0 then
      var boxes := detect(frames[0]);
      match FaceAnalysis(frames[0], boxes, score)
      case Failure(e) => Failure(e)
      case Success(ds) =>
        Prepend([FrameResult(id, |boxes|, ds)], VideoAnalysis(frames[1..], id + 1, skip, detect, score))
    else VideoAnalysis(frames[1..], id + 1, skip, detect, score)
  }

  /** Frame `m` of `frames` (id `id + m`) is sampled and one of its faces
      fails to score. */
  predicate FailsAt(frames: seq<Image>, id: nat, skip: nat, detect: Image -> seq<Box>, score: Scorer, m: int)
    requires skip > 0
  {
    0 <= m < |frames| && (id + m) % skip == 0 && FaceAnalysis(frames[m], detect(frames[m]), score).Failure?
  }

  lemma FailsAtShift(frames: seq<Image>, id: nat, skip: nat, detect: Image -> seq<Box>, score: Scorer, m: nat)
    requires skip > 0 && frames != []
    ensures FailsAt(frames[1..], id + 1, skip, detect, score, m) <==> FailsAt(frames, id, skip, detect, score, m + 1)
  {
    if m < |frames| - 1 {
      assert id + 1 + m == id + (m + 1) && frames[m + 1] == frames[1..][m];
    }
  }

  /** Analysis of frames `id, id+1, ...` fails iff some sampled frame has a
      face that fails to score. */
  lemma {:induction false} VideoAnalysisFails(frames: seq<Image>, id: nat, skip: nat, detect: Image -> seq<Box>, score: Scorer)
    requires skip > 0
    ensures VideoAnalysis(frames, id, skip, detect, score).Failure? <==>
      exists m :: FailsAt(frames, id, skip, detect, score, m)
  {
    if frames != [] {
      var tail, next := frames[1..], id + 1;
      VideoAnalysisFails(tail, next, skip, detect, score);
      var here := FailsAt(frames, id, skip, detect, score, 0);
      assert here <==> id % skip == 0 && FaceAnalysis(frames[0], detect(frames[0]), score).Failure?;
      if exists m :: FailsAt(tail, next, skip, detect, score, m) {
        var m :| FailsAt(tail, next, skip, detect, score, m);
        FailsAtShift(frames, id, skip, detect, score, m);
      }
      if exists m :: FailsAt(frames, id, skip, detect, score, m) {
        var m :| FailsAt(frames, id, skip, detect, score, m);
        if m > 0 {
          FailsAtShift(frames, id, skip, detect, score, m - 1);
        }
      }
    }
  }

  /** `r` is the result the loop records for one of the frames `id, id+1, ...`:
      its id is a multiple of `skip` in range, `num_faces` is the number of
      faces detected in that frame and its entries are their scores. */
  predicate SampledFrom(frames: seq<Image>, id: nat, skip: nat, detect: Image -> seq<Box>, score: Scorer, r: FrameResult)
    requires skip > 0
  {
    && id <= r.frame < id + |frames|
    && r.frame % skip == 0
    && r.numFaces == |detect(frames[r.frame - id])|
    && FaceAnalysis(frames[r.frame - id], detect(frames[r.frame - id]), score) == Success(r.emotions)
  }

  lemma SampledFromShift(frames: seq<Image>, id: nat, skip: nat, detect: Image -> seq<Box>, score: Scorer, r: FrameResult)
    requires skip > 0 && frames != [] && SampledFrom(frames[1..], id + 1, skip, detect, score, r)
    ensures SampledFrom(frames, id, skip, detect, score, r) && id < r.frame
  {
    assert frames[r.frame - id] == frames[1..][r.frame - (id + 1)];
  }

  /** A sampled frame's record is put in front of the records of the frames
      after it; any other frame adds nothing. */
  lemma VideoAnalysisStep(frames: seq<Image>, id: nat, skip: nat, detect: Image -> seq<Box>, score: Scorer)
    requires skip > 0 && frames != []
    requires VideoAnalysis(frames, id, skip, detect, score).Success?
    ensures VideoAnalysis(frames[1..], id + 1, skip, detect, score).Success?
    ensures var rs, ts := VideoAnalysis(frames, id, skip, detect, score).value,
                          VideoAnalysis(frames[1..], id + 1, skip, detect, score).value;
      if id % skip == 0 then
        && FaceAnalysis(frames[0], detect(frames[0]), score).Success?
        && rs == [FrameResult(id, |detect(frames[0])|, FaceAnalysis(frames[0], detect(frames[0]), score).value)] + ts
      else rs == ts
  {
  }

  /** On success every result is a sampled frame's record. */
  lemma {:induction false} VideoAnalysisEntries(frames: seq<Image>, id: nat, skip: nat, detect: Image -> seq<Box>, score: Scorer)
    requires skip > 0
    requires VideoAnalysis(frames, id, skip, detect, score).Success?
    ensures var rs := VideoAnalysis(frames, id, skip, detect, score).value;
      forall k :: 0 <= k < |rs| ==> SampledFrom(frames, id, skip, detect, score, rs[k])
  {
    if frames != [] {
      var tail, next := frames[1..], id + 1;
      VideoAnalysisStep(frames, id, skip, detect, score);
      VideoAnalysisEntries(tail, next, skip, detect, score);
      var rs := VideoAnalysis(frames, id, skip, detect, score).value;
      var ts := VideoAnalysis(tail, next, skip, detect, score).value;
      forall k | 0 <= k < |ts|
        ensures SampledFrom(frames, id, skip, detect, score, ts[k])
      {
        SampledFromShift(frames, id, skip, detect, score, ts[k]);
      }
      if id % skip == 0 {
        forall k | 0 <= k < |rs|
          ensures SampledFrom(frames, id, skip, detect, score, rs[k])
        {
          if k > 0 {
            assert rs[k] == ts[k - 1];
          }
        }
      }
    }
  }

  /** On success the frame ids of the results strictly increase. */
  lemma {:induction false} VideoAnalysisOrdered(frames: seq<Image>, id: nat, skip: nat, detect: Image -> seq<Box>, score: Scorer)
    requires skip > 0
    requires VideoAnalysis(frames, id, skip, detect, score).Success?
    ensures var rs := VideoAnalysis(frames, id, skip, detect, score).value;
      forall k, l :: 0 <= k < l < |rs| ==> rs[k].frame < rs[l].frame
  {
    if frames != [] && id % skip == 0 {
      var tail, next := frames[1..], id + 1;
      VideoAnalysisStep(frames, id, skip, detect, score);
      VideoAnalysisOrdered(tail, next, skip, detect, score);
      VideoAnalysisEntries(tail, next, skip, detect, score);
      var rs := VideoAnalysis(frames, id, skip, detect, score).value;
      var ts := VideoAnalysis(tail, next, skip, detect, score).value;
      assert forall k :: 0 < k < |rs| ==> rs[k] == ts[k - 1] && next <= rs[k].frame;
    } else if frames != [] {
      VideoAnalysisStep(frames, id, skip, detect, score);
      VideoAnalysisOrdered(frames[1..], id + 1, skip, detect, score);
    }
  }

  /** On success every frame id in range that is a multiple of `skip` has a
      result. */
  lemma {:induction false} VideoAnalysisCovers(frames: seq<Image>, id: nat, skip: nat, detect: Image -> seq<Box>, score: Scorer, m: nat)
    requires skip > 0
    requires VideoAnalysis(frames, id, skip, detect, score).Success?
    requires id <= m < id + |frames| && m % skip == 0
    ensures exists k :: (0 <= k < |VideoAnalysis(frames, id, skip, detect, score).value|
      && VideoAnalysis(frames, id, skip, detect, score).value[k].frame == m)
  {
    var tail := frames[1..];
    var rs := VideoAnalysis(frames, id, skip, detect, score).value;
    if m == id {
      assert rs[0].frame == m;
    } else {
      VideoAnalysisCovers(tail, id + 1, skip, detect, score, m);
      var ts := VideoAnalysis(tail, id + 1, skip, detect, score).value;
      var k :| 0 <= k < |ts| && ts[k].frame == m;
      if id % skip == 0 {
        var boxes := detect(frames[0]);
        assert rs == [FrameResult(id, |boxes|, FaceAnalysis(frames[0], boxes, score).value)] + ts;
        assert rs[k + 1].frame == m;
      } else {
        assert rs[k].frame == m;
      }
    }
  }

  // ------------------------------------------------ arithmetic of sampling

  lemma MulBelow(a: int, m: int)
    ensures m > 0 && 0 <= a * m < m ==> a == 0
  {
    if m > 0 && a >= 1 {
      assert a * m >= m;
    }
    if m > 0 && a <= -1 {
      assert a * m <= -m;
    }
  }

  lemma MulPositive(a: int, m: int)
    ensures m > 0 && a * m > 0 ==> a >= 1
  {
    if m > 0 && a <= 0 {
      assert a * m <= 0;
    }
  }

  /** A multiple of a positive number is a multiple of it. */
  lemma MultipleMod(k: nat, skip: nat)
    requires skip > 0
    ensures (k * skip) % skip == 0
  {
    var q, r := (k * skip) / skip, (k * skip) % skip;
    assert k * skip == q * skip + r;
    assert (k - q) * skip == r;
    MulBelow(k - q, skip);
  }

  /** A multiple of `skip` beyond `k * skip` is at least `(k + 1) * skip`. */
  lemma NextMultiple(m: nat, k: nat, skip: nat)
    requires skip > 0 && m % skip == 0 && m > k * skip
    ensures m >= (k + 1) * skip
  {
    var q := m / skip;
    assert m == q * skip;
    assert (q - k) * skip == m - k * skip;
    MulPositive(q - k, skip);
    assert (q - k - 1) * skip >= 0;
    assert q * skip == (k + 1) * skip + (q - k - 1) * skip;
  }

  /** Frame results that satisfy the facts of `VideoAnalysisSpec` for frames
      0 to n-1 are the frames 0, skip, 2*skip, ..., as many as ceil(n/skip). */
  lemma SampledIds(rs: seq<FrameResult>, n: nat, skip: nat)
    requires skip > 0
    requires forall k :: 0 <= k < |rs| ==> rs[k].frame < n && rs[k].frame % skip == 0
    requires forall k, l :: 0 <= k < l < |rs| ==> rs[k].frame < rs[l].frame
    requires forall m :: 0 <= m < n && m % skip == 0 ==> exists k :: 0 <= k < |rs| && rs[k].frame == m
    ensures forall k :: 0 <= k < |rs| ==> rs[k].frame == k * skip
    ensures (|rs| == 0) == (n == 0)
    ensures |rs| > 0 ==> (|rs| - 1) * skip < n <= |rs| * skip
  {
    forall k | 0 <= k < |rs| ensures rs[k].frame == k * skip {
      SampledIdAt(rs, n, skip, k);
    }
    if n > 0 {
      assert 0 % skip == 0;
      var k0 :| 0 <= k0 < |rs| && rs[k0].frame == 0;
    }
    MultipleMod(|rs|, skip);
  }

  lemma {:induction false} SampledIdAt(rs: seq<FrameResult>, n: nat, skip: nat, k: nat)
    requires skip > 0 && k < |rs|
    requires forall k :: 0 <= k < |rs| ==> rs[k].frame < n && rs[k].frame % skip == 0
    requires forall k, l :: 0 <= k < l < |rs| ==> rs[k].frame < rs[l].frame
    requires forall m :: 0 <= m < n && m % skip == 0 ==> exists k :: 0 <= k < |rs| && rs[k].frame == m
    ensures rs[k].frame == k * skip
  {
    if k == 0 {
      assert 0 % skip == 0;
      assert forall j :: 0 < j < |rs| ==> rs[0].frame < rs[j].frame;
      var j :| 0 <= j < |rs| && rs[j].frame == 0;
    } else {
      SampledIdAt(rs, n, skip, k - 1);
      assert rs[k - 1].frame == (k - 1) * skip;
      NextMultiple(rs[k].frame, k - 1, skip);
      var m := k * skip;
      assert m <= rs[k].frame < n;
      MultipleMod(k, skip);
      var j :| 0 <= j < |rs| && rs[j].frame == m;
      assert k * skip == (k - 1) * skip + skip;
    }
  }

  /** Analysing a whole video (frames counted from 0) yields, on success,
      results for frames 0, skip, 2*skip, ..., ceil(n/skip) of them, each the
      record of its frame (`SampledFrom`). */
  lemma VideoSampling(frames: seq<Image>, skip: nat, detect: Image -> seq<Box>, score: Scorer)
    requires skip > 0
    ensures VideoAnalysis(frames, 0, skip, detect, score).Success? ==>
      var rs := VideoAnalysis(frames, 0, skip, detect, score).value;
      && (|rs| == 0 <==> |frames| == 0)
      && (|rs| > 0 ==> (|rs| - 1) * skip < |frames| <= |rs| * skip)
      && forall k :: 0 <= k < |rs| ==>
           rs[k].frame == k * skip && SampledFrom(frames, 0, skip, detect, score, rs[k])
  {
    var r := VideoAnalysis(frames, 0, skip, detect, score);
    if r.Success? {
      var rs := r.value;
      VideoAnalysisEntries(frames, 0, skip, detect, score);
      VideoAnalysisOrdered(frames, 0, skip, detect, score);
      forall m | 0 <= m < |frames| && m % skip == 0
        ensures exists k :: 0 <= k < |rs| && rs[k].frame == m
      {
        VideoAnalysisCovers(frames, 0, skip, detect, score, m);
      }
      SampledIds(rs, |frames|, skip);
    }
  }

  /** A frame's record holds one entry per detected face, entry j being the
      score of the crop of face j. */
  lemma SampledFaces(frames: seq<Image>, skip: nat, detect: Image -> seq<Box>, score: Scorer, r: FrameResult)
    requires skip > 0 && SampledFrom(frames, 0, skip, detect, score, r)
    ensures r.numFaces == |detect(frames[r.frame])| == |r.emotions|
    ensures forall j :: 0 <= j < |detect(frames[r.frame])| ==>
      score(Crop(frames[r.frame], detect(frames[r.frame])[j])) == Success(r.emotions[j])
  {
    var f := frames[r.frame];
    FaceAnalysisSpec(f, detect(f), score);
  }

  // ------------------------------------------------------------ the class

  /** `DetectorEmociones`: a face detector and an emotion ensemble. */
  class DetectorEmociones {
    const emotionModel: Ensemble.EmotionEnsemble

    predicate Valid()
      reads this, emotionModel
    {
      emotionModel.Valid()
    }

    constructor (emotionModel: Ensemble.EmotionEnsemble)
      requires emotionModel.Valid()
      ensures this.emotionModel == emotionModel && Valid()
    {
      this.emotionModel := emotionModel;
    }

    /** `DetectorEmociones()`: builds `EmotionEnsemble()` with its default
        models directory; a model that fails to load raises out of it. */
    static method Create(load: string -> Result<Model, string>) returns (r: Result<DetectorEmociones, string>)
      ensures r.Success? <==> Ensemble.LoadAll(Ensemble.DefaultModelsDir, Ensemble.ModelFiles, load).Success?
      ensures r.Success? ==> (fresh(r.value) && r.value.Valid()
        && r.value.emotionModel.models == Ensemble.LoadAll(Ensemble.DefaultModelsDir, Ensemble.ModelFiles, load).value)
      ensures r.Failure? ==> r.error == Ensemble.LoadAll(Ensemble.DefaultModelsDir, Ensemble.ModelFiles, load).error
    {
      var e := Ensemble.EmotionEnsemble.Create(Ensemble.DefaultModelsDir, load);
      if e.Failure? {
        return Failure(e.error);
      }
      var d := new DetectorEmociones(e.value);
      return Success(d);
    }

    /** The ensemble as a face scorer, over the models loaded now. */
    function Score(be: Backend): (s: Scorer)
      requires Valid()
      reads this, emotionModel
      ensures forall face :: s(face).Success? ==> s(face).value.emotion in Ensemble.Emotions
    {
      var models, shapes := emotionModel.models, emotionModel.inputShapes;
      face => AsDetection(Ensemble.PredictWith(models, shapes, face, be))
    }

    /** `analizar_emocion(rostro_img)`. */
    method AnalyzeEmotion(face: Image, be: Backend) returns (r: Result<Detection, string>)
      requires Valid()
      ensures r == Score(be)(face)
      ensures r.Success? ==> r.value.emotion in Ensemble.Emotions
    {
      var p := emotionModel.PredictEmotion(face, be);
      match p
      case Success(v) =>
        r := Success(Detection(v.0, v.1));
      case Failure(e) =>
        r := Failure(e);
    }

    /** `analizar_video`: the frames `cap.read()` returns, in order, and the
        capture's frame rate; the crops written with `imwrite` are not modelled. */
    method AnalyzeVideo(frames: seq<Image>, fps: real, intervalMs: real := DefaultIntervalMs, be: Backend)
      returns (r: Result<seq<FrameResult>, string>)
      requires Valid()
      ensures r == VideoAnalysis(frames, 0, SkipFrames(intervalMs, fps), be.detectFaces, Score(be))
    {
      var skip := SkipFrames(intervalMs, fps);
      var score := Score(be);
      var frameId := 0;
      var results: seq<FrameResult> := [];
      assert frames[frameId..] == frames;
      while frameId < |frames|
        invariant 0 <= frameId <= |frames|
        invariant VideoAnalysis(frames, 0, skip, be.detectFaces, score)
          == Prepend(results, VideoAnalysis(frames[frameId..], frameId, skip, be.detectFaces, score))
      {
        var frame := frames[frameId];
        assert frames[frameId..][0] == frame && frames[frameId..][1..] == frames[frameId + 1..];
        if frameId % skip == 0 {
          var boxes := be.detectFaces(frame);
          var emotions: seq<Detection> := [];
          assert boxes[0..] == boxes;
          for idx := 0 to |boxes|
            invariant FaceAnalysis(frame, boxes, score) == Prepend(emotions, FaceAnalysis(frame, boxes[idx..], score))
          {
            var emo := AnalyzeEmotion(Crop(frame, boxes[idx]), be);
            assert boxes[idx..][0] == boxes[idx] && boxes[idx..][1..] == boxes[idx + 1..];
            if emo.Failure? {
              assert FaceAnalysis(frame, boxes[idx..], score) == Failure(emo.error);
              assert VideoAnalysis(frames[frameId..], frameId, skip, be.detectFaces, score) == Failure(emo.error);
              return Failure(emo.error);
            }
            PrependTwice(emotions, [emo.value], FaceAnalysis(frame, boxes[idx + 1..], score));
            emotions := emotions + [emo.value];
          }
          assert boxes[|boxes|..] == [] && emotions + [] == emotions;
          assert FaceAnalysis(frame, boxes, score) == Success(emotions);
          PrependTwice(results, [FrameResult(frameId, |boxes|, emotions)],
            VideoAnalysis(frames[frameId + 1..], frameId + 1, skip, be.detectFaces, score));
          results := results + [FrameResult(frameId, |boxes|, emotions)];
        }
        frameId := frameId + 1;
      }
      assert frames[frameId..] == [] && results + [] == results;
      r := Success(results);
    }
  }
}
