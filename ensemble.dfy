/** The emotion ensemble of backend/emotion_ensemble.py: two Keras models are
    loaded at construction, each face is preprocessed once per model to that
    model's input shape, the per-model predictions are averaged elementwise and
    the arg-max of the average picks one of seven labels. */
module Ensemble {
  import opened Common
  import opened Vision

  /** The model files the constructor loads, in this order. */
  const ModelFiles: seq<string> := ["FER_model.h5", "fer2013_mini_XCEPTION.99-0.65.hdf5"]

  /** The default `models_dir`. */
  const DefaultModelsDir: string := "./models"

  /** The labels, indexed like the classifiers' outputs. */
  const Emotions: seq<string> := ["Angry", "Disgust", "Fear", "Happy", "Sad", "Surprise", "Neutral"]

  /** Python's message when `target_shape[1]` does not exist. */
  const ShapeError: string := "tuple index out of range"

  /** `os.path.join(dir, file)` on POSIX: an absolute `file` replaces `dir`,
      and a separator is inserted unless `dir` is empty or already ends in one. */
  function JoinPath(dir: string, file: string): (p: string)
    ensures |file| > 0 && file[0] == '/' ==> p == file
    ensures (|file| == 0 || file[0] != '/') ==>
      |p| >= |dir| + |file| && p[..|dir|] == dir && p[|p| - |file|..] == file
  {
    if |file| > 0 && file[0] == '/' then file
    else if dir == [] || dir[|dir| - 1] == '/' then dir + file
    else dir + "/" + file
  }

  /** `model.input_shape[1:]`: the input shape without the batch dimension. */
  function DropBatch(shape: seq<nat>): (s: seq<nat>)
    ensures |shape| > 0 ==> [shape[0]] + s == shape
    ensures |shape| == 0 ==> s == []
  {
    if shape == [] then [] else shape[1..]
  }

  // ---------------------------------------------------------------- loading

  /** The constructor's loop: load every file of `files` from `dir` in order;
      the first load that fails propagates and nothing is skipped. */
  function LoadAll(dir: string, files: seq<string>, load: string -> Result<Model, string>): (r: Result<seq<Model>, string>)
    ensures r.Success? ==> |r.value| == |files|
  {
    if files == [] then Success([])
    else match load(JoinPath(dir, files[0]))
      case Failure(e) => Failure(e)
      case Success(m) => Prepend([m], LoadAll(dir, files[1..], load))
  }

  /** Loading succeeds iff every file loads; then there is exactly one model
      per file, in file order; otherwise the error is that of the first file
      that failed. */
  lemma {:induction false} LoadAllSpec(dir: string, files: seq<string>, load: string -> Result<Model, string>)
    ensures LoadAll(dir, files, load).Success? <==>
      forall i :: 0 <= i < |files| ==> load(JoinPath(dir, files[i])).Success?
    ensures LoadAll(dir, files, load).Success? ==>
      var ms := LoadAll(dir, files, load).value;
      |ms| == |files| && forall i :: 0 <= i < |files| ==> ms[i] == load(JoinPath(dir, files[i])).value
    ensures LoadAll(dir, files, load).Failure? ==>
      exists i :: 0 <= i < |files| && load(JoinPath(dir, files[i])) == Failure(LoadAll(dir, files, load).error)
        && forall k :: 0 <= k < i ==> load(JoinPath(dir, files[k])).Success?
  {
    if files != [] {
      LoadAllSpec(dir, files[1..], load);
      assert forall i :: 1 <= i < |files| ==> files[1..][i - 1] == files[i];
      var first := load(JoinPath(dir, files[0]));
      if first.Success? && LoadAll(dir, files[1..], load).Failure? {
        var i :| 0 <= i < |files[1..]| && load(JoinPath(dir, files[1..][i])) == Failure(LoadAll(dir, files, load).error)
          && forall k :: 0 <= k < i ==> load(JoinPath(dir, files[1..][k])).Success?;
        assert load(JoinPath(dir, files[i + 1])) == Failure(LoadAll(dir, files, load).error);
        assert forall k :: 0 <= k < i + 1 ==> load(JoinPath(dir, files[k])).Success? by {
          forall k | 0 <= k < i + 1 ensures load(JoinPath(dir, files[k])).Success? {
            if k > 0 { assert files[k] == files[1..][k - 1]; }
          }
        }
      }
    }
  }

  // ----------------------------------------------------------- preprocessing

  /** Intensities divided by 255, as `resized.astype('float32') / 255.0`. */
  function Normalize(gray: Gray): (t: seq<seq<real>>)
    ensures |t| == |gray|
    ensures forall i :: 0 <= i < |t| ==> |t[i]| == |gray[i]|
    ensures forall i, j :: 0 <= i < |t| && 0 <= j < |t[i]| ==> t[i][j] * 255.0 == gray[i][j] as real
    ensures forall i, j :: 0 <= i < |t| && 0 <= j < |t[i]| ==> 0.0 <= t[i][j] <= 1.0
  {
    seq(|gray|, i requires 0 <= i < |gray| =>
      seq(|gray[i]|, j requires 0 <= j < |gray[i]| => gray[i][j] as real / 255.0))
  }

  /** `preprocess_face`: gray and resize to width `target[1]` and height
      `target[0]`, scale to [0, 1], add a trailing channel axis when the target
      has rank 3 and always a leading batch axis. A target of rank below 2 makes
      `target_shape[1]` raise. The shape is the one `cv2.resize` returns for
      that size, rows first. */
  function Preprocess(face: Image, target: seq<nat>, be: Backend): (t: Option<Tensor>)
    ensures t.Some? <==> |target| >= 2
    ensures t.Some? ==> |t.value.shape| == (if |target| == 3 then 4 else 3)
    ensures t.Some? ==> t.value.shape[0] == 1 && t.value.shape[1] == target[0] && t.value.shape[2] == target[1]
    ensures t.Some? && |target| == 3 ==> t.value.shape[3] == 1
    ensures t.Some? ==> t.value.pixels == Normalize(be.grayResize(face, target[1], target[0]))
  {
    if |target| < 2 then None
    else
      var pixels := Normalize(be.grayResize(face, target[1], target[0]));
      var image := [target[0], target[1]];
      var channels := if |target| == 3 then image + [1] else image;
      Some(Tensor([1] + channels, pixels))
  }

  // ------------------------------------------------------------- prediction

  /** The loop of `predict_emotion`: one prediction per model, in model order,
      each on the face preprocessed for that model's input shape. */
  function Predictions(models: seq<Model>, shapes: seq<seq<nat>>, face: Image, be: Backend): (r: Result<seq<Prediction>, string>)
    requires |models| == |shapes|
    ensures r.Success? ==> |r.value| == |models|
  {
    if models == [] then Success([])
    else match Preprocess(face, shapes[0], be)
      case None => Failure(ShapeError)
      case Some(t) => Prepend([be.predict(models[0], t)], Predictions(models[1..], shapes[1..], face, be))
  }

  /** Predicting succeeds iff every input shape has rank at least 2, and then
      prediction i is model i's output on the face preprocessed for shape i. */
  lemma {:induction false} PredictionsSpec(models: seq<Model>, shapes: seq<seq<nat>>, face: Image, be: Backend)
    requires |models| == |shapes|
    ensures Predictions(models, shapes, face, be).Success? <==> forall i :: 0 <= i < |shapes| ==> |shapes[i]| >= 2
    ensures Predictions(models, shapes, face, be).Failure? ==> Predictions(models, shapes, face, be).error == ShapeError
    ensures Predictions(models, shapes, face, be).Success? ==>
      forall i :: 0 <= i < |models| ==>
        Predictions(models, shapes, face, be).value[i] == be.predict(models[i], Preprocess(face, shapes[i], be).value)
  {
    if models != [] {
      PredictionsSpec(models[1..], shapes[1..], face, be);
      assert forall i :: 1 <= i < |models| ==> models[1..][i - 1] == models[i] && shapes[1..][i - 1] == shapes[i];
    }
  }

  function Sum(s: seq<real>): real
  {
    if s == [] then 0.0 else s[0] + Sum(s[1..])
  }

  /** Non-negative scores that add up to one. */
  predicate IsDistribution(p: seq<real>)
  {
    (forall j :: 0 <= j < |p| ==> 0.0 <= p[j]) && Sum(p) == 1.0
  }

  function VecAdd(p: seq<real>, q: seq<real>): (r: seq<real>)
    requires |p| == |q|
    ensures |r| == |p|
    ensures forall j :: 0 <= j < |r| ==> r[j] == p[j] + q[j]
  {
    seq(|p|, j requires 0 <= j < |p| => p[j] + q[j])
  }

  function Divide(p: seq<real>, c: real): (r: seq<real>)
    requires c > 0.0
    ensures |r| == |p|
    ensures forall j :: 0 <= j < |r| ==> r[j] * c == p[j]
  {
    seq(|p|, j requires 0 <= j < |p| => p[j] / c)
  }

  /** The elementwise sum of the predictions. */
  function VecSum(preds: seq<Prediction>): Prediction
    requires |preds| > 0
  {
    if |preds| == 1 then preds[0] else VecAdd(preds[0], VecSum(preds[1..]))
  }

  /** `np.mean(preds, axis=0)`. */
  function Mean(preds: seq<Prediction>): Prediction
    requires |preds| > 0
  {
    Divide(VecSum(preds), |preds| as real)
  }

  /** The j-th outputs of all models. */
  function Column(preds: seq<Prediction>, j: nat): (c: seq<real>)
    requires j < NumEmotions
    ensures |c| == |preds|
  {
    seq(|preds|, i requires 0 <= i < |preds| => preds[i][j])
  }

  /** Entry j of the mean is the average of the models' j-th outputs. */
  lemma MeanColumn(preds: seq<Prediction>, j: nat)
    requires |preds| > 0 && j < NumEmotions
    ensures Mean(preds)[j] * |preds| as real == Sum(Column(preds, j))
  {
    VecSumColumn(preds, j);
  }

  lemma {:induction false} VecSumColumn(preds: seq<Prediction>, j: nat)
    requires |preds| > 0 && j < NumEmotions
    ensures VecSum(preds)[j] == Sum(Column(preds, j))
  {
    var c := Column(preds, j);
    if |preds| == 1 {
      assert c[1..] == [];
    } else {
      VecSumColumn(preds[1..], j);
      assert c[1..] == Column(preds[1..], j);
    }
  }

  /** `np.argmax`: the first index of a maximal entry. */
  function ArgMax(v: seq<real>): (k: nat)
    requires |v| > 0
    ensures k < |v|
    ensures forall j :: 0 <= j < |v| ==> v[j] <= v[k]
    ensures forall j :: 0 <= j < k ==> v[j] < v[k]
  {
    if |v| == 1 then 0
    else
      var k := ArgMax(v[..|v| - 1]);
      if v[|v| - 1] > v[k] then |v| - 1 else k
  }

  /** The end of `predict_emotion`: average, arg-max, label lookup. The label
      is that of the first maximal entry of the average and the confidence is
      that entry, so no other averaged entry exceeds it. */
  function Fuse(preds: seq<Prediction>): (r: (string, real))
    requires |preds| > 0
    ensures r.0 in Emotions
    ensures exists k :: (0 <= k < NumEmotions && r.0 == Emotions[k] && r.1 == Mean(preds)[k]
      && (forall j :: 0 <= j < NumEmotions ==> Mean(preds)[j] <= r.1)
      && (forall j :: 0 <= j < k ==> Mean(preds)[j] < r.1))
  {
    var avg := Mean(preds);
    var k := ArgMax(avg);
    (Emotions[k], avg[k])
  }

  /** `predict_emotion` over given models and input shapes. */
  function PredictWith(models: seq<Model>, shapes: seq<seq<nat>>, face: Image, be: Backend): (r: Result<(string, real), string>)
    requires 0 < |models| == |shapes|
    ensures r.Success? ==> r.value.0 in Emotions
  {
    match Predictions(models, shapes, face, be)
    case Failure(e) => Failure(e)
    case Success(preds) => Success(Fuse(preds))
  }

  // --------------------------------------------------- probability lemmas

  lemma {:induction false} SumVecAdd(p: seq<real>, q: seq<real>)
    requires |p| == |q|
    ensures Sum(VecAdd(p, q)) == Sum(p) + Sum(q)
  {
    if p != [] {
      assert VecAdd(p, q)[1..] == VecAdd(p[1..], q[1..]);
      SumVecAdd(p[1..], q[1..]);
    }
  }

  lemma {:induction false} SumDivide(p: seq<real>, c: real)
    requires c > 0.0
    ensures Sum(Divide(p, c)) * c == Sum(p)
  {
    if p != [] {
      assert Divide(p, c)[1..] == Divide(p[1..], c);
      SumDivide(p[1..], c);
      assert Sum(Divide(p, c)) * c == Divide(p, c)[0] * c + Sum(Divide(p[1..], c)) * c;
    }
  }

  lemma {:induction false} EntryAtMostSum(p: seq<real>, j: nat)
    requires j < |p|
    requires forall i :: 0 <= i < |p| ==> 0.0 <= p[i]
    ensures 0.0 <= p[j] <= Sum(p)
    ensures 0.0 <= Sum(p)
  {
    if j == 0 {
      if |p| > 1 { EntryAtMostSum(p[1..], 0); }
    } else {
      EntryAtMostSum(p[1..], j - 1);
    }
  }

  /** Summing n distributions gives non-negative entries of total mass n. */
  lemma {:induction false} VecSumMass(preds: seq<Prediction>)
    requires |preds| > 0
    requires forall i :: 0 <= i < |preds| ==> IsDistribution(preds[i])
    ensures forall j :: 0 <= j < NumEmotions ==> 0.0 <= VecSum(preds)[j]
    ensures Sum(VecSum(preds)) == |preds| as real
  {
    if |preds| > 1 {
      assert IsDistribution(preds[0]);
      VecSumMass(preds[1..]);
      SumVecAdd(preds[0], VecSum(preds[1..]));
    }
  }

  /** If every model outputs a probability distribution, so does their mean;
      hence every averaged entry, the confidence among them, lies in [0, 1]. */
  lemma MeanIsDistribution(preds: seq<Prediction>)
    requires |preds| > 0
    requires forall i :: 0 <= i < |preds| ==> IsDistribution(preds[i])
    ensures IsDistribution(Mean(preds))
    ensures forall j :: 0 <= j < NumEmotions ==> 0.0 <= Mean(preds)[j] <= 1.0
    ensures 0.0 <= Fuse(preds).1 <= 1.0
  {
    var n := |preds| as real;
    var avg := Mean(preds);
    VecSumMass(preds);
    SumDivide(VecSum(preds), n);
    assert Sum(avg) == 1.0;
    forall j | 0 <= j < NumEmotions ensures 0.0 <= avg[j] <= 1.0 {
      EntryAtMostSum(avg, j);
    }
  }

  // ------------------------------------------------------------ the class

  /** `EmotionEnsemble`: the loaded models and their input shapes, kept in
      step, together with the fixed file list and label list. */
  class EmotionEnsemble {
    const modelsDir: string
    const modelFiles: seq<string>
    const emotions: seq<string>
    var models: seq<Model>
    var inputShapes: seq<seq<nat>>

    /** One model per file, and each stored input shape is its model's
        input shape without the batch dimension. */
    predicate Valid()
      reads this
    {
      && modelFiles == ModelFiles
      && emotions == Emotions
      && |models| == |modelFiles|
      && |inputShapes| == |models|
      && forall i :: 0 <= i < |models| ==> inputShapes[i] == DropBatch(models[i].inputShape)
    }

    /** The field initialisations of `__init__`, before any model is loaded. */
    constructor Empty(modelsDir: string)
      ensures this.modelsDir == modelsDir && modelFiles == ModelFiles && emotions == Emotions
      ensures models == [] && inputShapes == []
    {
      this.modelsDir := modelsDir;
      modelFiles := ModelFiles;
      emotions := Emotions;
      models := [];
      inputShapes := [];
    }

    /** `EmotionEnsemble(models_dir)`: load each file in order, appending the
        model and its input shape; a failing load raises out of the
        constructor, which `Failure` stands for. */
    static method Create(modelsDir: string, load: string -> Result<Model, string>) returns (r: Result<EmotionEnsemble, string>)
      ensures r.Success? <==> LoadAll(modelsDir, ModelFiles, load).Success?
      ensures r.Success? ==> (fresh(r.value) && r.value.Valid() && r.value.modelsDir == modelsDir
        && r.value.models == LoadAll(modelsDir, ModelFiles, load).value)
      ensures r.Failure? ==> r.error == LoadAll(modelsDir, ModelFiles, load).error
    {
      var e := new EmotionEnsemble.Empty(modelsDir);
      var i := 0;
      assert ModelFiles[i..] == ModelFiles;
      while i < |e.modelFiles|
        invariant 0 <= i <= |ModelFiles| && e.modelFiles == ModelFiles && e.emotions == Emotions
        invariant e.modelsDir == modelsDir
        invariant |e.models| == i && |e.inputShapes| == i
        invariant forall k :: 0 <= k < i ==> e.inputShapes[k] == DropBatch(e.models[k].inputShape)
        invariant LoadAll(modelsDir, ModelFiles, load) == Prepend(e.models, LoadAll(modelsDir, ModelFiles[i..], load))
      {
        var loaded := load(JoinPath(e.modelsDir, e.modelFiles[i]));
        if loaded.Failure? {
          return Failure(loaded.error);
        }
        assert ModelFiles[i..][1..] == ModelFiles[i + 1..];
        PrependTwice(e.models, [loaded.value], LoadAll(modelsDir, ModelFiles[i + 1..], load));
        e.models := e.models + [loaded.value];
        e.inputShapes := e.inputShapes + [DropBatch(loaded.value.inputShape)];
        i := i + 1;
      }
      return Success(e);
    }

    /** `predict_emotion(face_img)`. */
    method PredictEmotion(face: Image, be: Backend) returns (r: Result<(string, real), string>)
      requires Valid()
      ensures r == PredictWith(models, inputShapes, face, be)
      ensures r.Success? ==> r.value.0 in emotions
    {
      var preds: seq<Prediction> := [];
      var i := 0;
      assert models[i..] == models && inputShapes[i..] == inputShapes;
      while i < |models|
        invariant 0 <= i <= |models| && |preds| == i
        invariant Predictions(models, inputShapes, face, be) == Prepend(preds, Predictions(models[i..], inputShapes[i..], face, be))
      {
        var t := Preprocess(face, inputShapes[i], be);
        if t.None? {
          assert Predictions(models[i..], inputShapes[i..], face, be) == Failure(ShapeError);
          return Failure(ShapeError);
        }
        assert models[i..][1..] == models[i + 1..] && inputShapes[i..][1..] == inputShapes[i + 1..];
        PrependTwice(preds, [be.predict(models[i], t.value)], Predictions(models[i + 1..], inputShapes[i + 1..], face, be));
        preds := preds + [be.predict(models[i], t.value)];
        i := i + 1;
      }
      assert models[i..] == [] && inputShapes[i..] == [];
      assert preds + [] == preds;
      assert Predictions(models, inputShapes, face, be) == Success(preds);
      var avg := Mean(preds);
      var idx := ArgMax(avg);
      r := Success((emotions[idx], avg[idx]));
    }
  }
}
