/** `generar_recomendaciones`: three fixed rules over the detector's frame
    results, the audio result's attempt count and an optional gestures
    counter, each adding one fixed message, in a fixed order. */
module Recommendations {
  import opened Common

  const SadnessMessage := "Se detectó tristeza frecuente; se recomienda acompañamiento emocional cercano."
  const VerbalMessage := "Baja frecuencia de intentos verbales, se sugiere estimular comunicación verbal."
  const GesturesMessage := "Gestos de auto-regulación elevados, puede indicar estrés o ansiedad."

  const SadLabel := "Sad"
  const SadConfidence := 0.6
  /** More than this many confident sad detections trigger the first rule. */
  const SadLimit := 5
  /** Fewer verbal attempts than this trigger the second rule. */
  const AttemptsLimit := 3
  const SelfSoothingKey := "autocalmantes"
  /** More self-soothing gestures than this trigger the third rule. */
  const SelfSoothingLimit := 5

  /** `d.get(key, default)` where the value may be absent. */
  function GetOr(v: Option<int>, default: int): (x: int)
    ensures v.Some? ==> x == v.value
    ensures v.None? ==> x == default
  {
    match v
    case Some(x) => x
    case None => default
  }

  function Lookup(m: map<string, int>, key: string): (v: Option<int>)
    ensures v.Some? <==> key in m
    ensures v.Some? ==> v.value == m[key]
  {
    if key in m then Some(m[key]) else None
  }

  /** A detection the sadness rule counts: labelled "Sad" with confidence
      strictly above 0.6. */
  predicate IsConfidentSad(d: Detection)
  {
    d.emotion == SadLabel && d.confidence > SadConfidence
  }

  /** The number of confident sad detections over every face of every frame. */
  function SadCount(frames: seq<FrameResult>): (n: nat)
    ensures n <= |Flatten(frames)|
  {
    Count(Flatten(frames), IsConfidentSad)
  }

  /** More than five confident sad detections: it takes at least six faces
      across the frames, so an empty or faceless video never fires. */
  function SadnessFires(frames: seq<FrameResult>): (b: bool)
    ensures b ==> |Flatten(frames)| > SadLimit
  {
    SadCount(frames) > SadLimit
  }

  /** `audio.get('intentos', 0) < 3`: a missing count fires, a present one
      fires when it is at most two (negative counts included). */
  function VerbalFires(attempts: Option<int>): (b: bool)
    ensures attempts.None? ==> b
    ensures attempts.Some? ==> (b <==> attempts.value <= 2)
  {
    GetOr(attempts, 0) < AttemptsLimit
  }

  /** `gestos and gestos.get('autocalmantes', 0) > 5`. The emptiness test
      adds nothing: the rule fires exactly when the counter is present, has
      the key, and its count exceeds five. */
  function GesturesFires(gestures: Option<map<string, int>>): (b: bool)
    ensures b <==> (gestures.Some? && SelfSoothingKey in gestures.value
                    && gestures.value[SelfSoothingKey] > SelfSoothingLimit)
  {
    gestures.Some? && gestures.value != map[]
      && GetOr(Lookup(gestures.value, SelfSoothingKey), 0) > SelfSoothingLimit
  }

  /** The position of each message in the output order. */
  function Rank(m: string): (k: nat)
  {
    if m == SadnessMessage then 0 else if m == VerbalMessage then 1 else 2
  }

  predicate IsMessage(m: string)
  {
    m == SadnessMessage || m == VerbalMessage || m == GesturesMessage
  }

  /** `generar_recomendaciones(emociones, audio, gestos)`, with
      `audio.get('intentos')` passed as `attempts`. Each message is present
      exactly when its rule fires; the messages come in rule order, each at
      most once, so there are at most three. */
  method GenerateRecommendations(frames: seq<FrameResult>, attempts: Option<int>,
                                 gestures: Option<map<string, int>>)
    returns (recs: seq<string>)
    ensures SadnessMessage in recs <==> SadnessFires(frames)
    ensures VerbalMessage in recs <==> VerbalFires(attempts)
    ensures GesturesMessage in recs <==> GesturesFires(gestures)
    ensures forall i :: 0 <= i < |recs| ==> IsMessage(recs[i])
    ensures forall i, j :: 0 <= i < j < |recs| ==> Rank(recs[i]) < Rank(recs[j])
    ensures |recs| <= 3
  {
    recs := [];
    var sad := SadCount(frames);
    if sad > SadLimit {
      recs := recs + [SadnessMessage];
    }
    if GetOr(attempts, 0) < AttemptsLimit {
      recs := recs + [VerbalMessage];
    }
    if gestures.Some? && gestures.value != map[] && GetOr(Lookup(gestures.value, SelfSoothingKey), 0) > SelfSoothingLimit {
      recs := recs + [GesturesMessage];
    }
  }

  /** The sadness count does not depend on the order of frames or of faces. */
  lemma SadCountPermutation(a: seq<FrameResult>, b: seq<FrameResult>)
    requires multiset(Flatten(a)) == multiset(Flatten(b))
    ensures SadCount(a) == SadCount(b)
  {
    CountPermutation(Flatten(a), Flatten(b), IsConfidentSad);
  }

  /** Reordering the frames keeps the sadness count. */
  lemma SadCountFrameOrder(a: seq<FrameResult>, b: seq<FrameResult>)
    requires multiset(a) == multiset(b)
    ensures SadCount(a) == SadCount(b)
  {
    FlattenPermutation(a, b);
    SadCountPermutation(a, b);
  }

  /** `n` faces, all labelled `label` with confidence `c`, in one frame. */
  function Uniform(n: nat, emotion: string, c: real): (f: FrameResult)
    ensures f.numFaces == |f.emotions| == n
    ensures forall k :: 0 <= k < n ==> f.emotions[k] == Detection(emotion, c)
  {
    FrameResult(0, n, seq(n, _ => Detection(emotion, c)))
  }

  lemma {:induction false} CountConstant(s: seq<Detection>, d: Detection)
    requires forall k :: 0 <= k < |s| ==> s[k] == d
    ensures Count(s, IsConfidentSad) == if IsConfidentSad(d) then |s| else 0
  {
    if s != [] {
      CountConstant(s[1..], d);
    }
  }

  /** A frame of `n` sad faces counts all of them when the confidence is
      above 0.6 and none of them when it is 0.6 or less. */
  lemma UniformSadCount(n: nat, c: real)
    ensures SadCount([Uniform(n, SadLabel, c)]) == if c > SadConfidence then n else 0
  {
    var f := Uniform(n, SadLabel, c);
    assert Flatten([f]) == f.emotions + Flatten([]);
    assert f.emotions + [] == f.emotions;
    CountConstant(f.emotions, Detection(SadLabel, c));
  }

  /** The sharp edges of the sadness rule: confidence exactly 0.6 never
      counts, five confident faces are not enough, six are. */
  lemma SadnessBoundaries()
    ensures !SadnessFires([Uniform(100, SadLabel, 0.6)])
    ensures !SadnessFires([Uniform(5, SadLabel, 0.9)])
    ensures SadnessFires([Uniform(6, SadLabel, 0.61)])
  {
    UniformSadCount(100, 0.6);
    UniformSadCount(5, 0.9);
    UniformSadCount(6, 0.61);
  }
}
