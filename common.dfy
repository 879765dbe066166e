/** Records that flow between the stages of the emotion pipeline: the per-face
    detections produced by the video detector and read by the report and by the
    recommendation rules, plus the Option/Result wrappers used for the source's
    optional arguments and exceptions. */
module Common {

  datatype Option<T> = None | Some(value: T)

  /** `Failure` stands for a Python exception that propagates to the caller. */
  datatype Result<T, E> = Success(value: T) | Failure(error: E)

  /** One scored face, the dictionary `{"emotion": label, "confidence": c}`. */
  datatype Detection = Detection(emotion: string, confidence: real)

  /** One sampled frame, the dictionary `{'frame': id, 'num_faces': n, 'emociones': [...]}`. */
  datatype FrameResult = FrameResult(frame: nat, numFaces: nat, emotions: seq<Detection>)

  /** Prepends finished items to a result that may still fail: a failure
      later on discards what was collected, as a propagating exception does. */
  function Prepend<T, E>(done: seq<T>, rest: Result<seq<T>, E>): (r: Result<seq<T>, E>)
    ensures r.Success? <==> rest.Success?
    ensures done == [] ==> r == rest
    ensures r.Success? ==> r.value == done + rest.value
    ensures r.Failure? ==> r.error == rest.error
  {
    match rest
    case Success(s) => assert [] + s == s; Success(done + s)
    case Failure(e) => Failure(e)
  }

  lemma PrependTwice<T, E>(a: seq<T>, b: seq<T>, rest: Result<seq<T>, E>)
    ensures Prepend(a, Prepend(b, rest)) == Prepend(a + b, rest)
  {
    if rest.Success? {
      assert a + (b + rest.value) == (a + b) + rest.value;
    }
  }

  /** Every detection of every frame, in the order of the nested loops
      `for r in emociones for e in r['emociones']`. */
  function Flatten(frames: seq<FrameResult>): (ds: seq<Detection>)
  {
    if frames == [] then [] else frames[0].emotions + Flatten(frames[1..])
  }

  lemma {:induction false} FlattenAppend(a: seq<FrameResult>, b: seq<FrameResult>)
    ensures Flatten(a + b) == Flatten(a) + Flatten(b)
  {
    if a == [] {
      assert a + b == b;
    } else {
      assert (a + b)[1..] == a[1..] + b;
      FlattenAppend(a[1..], b);
    }
  }

  /** Flattening the first i+1 frames adds the detections of frame i. */
  lemma FlattenPrefixStep(frames: seq<FrameResult>, i: nat)
    requires i < |frames|
    ensures Flatten(frames[..i + 1]) == Flatten(frames[..i]) + frames[i].emotions
  {
    assert frames[..i + 1] == frames[..i] + [frames[i]];
    FlattenAppend(frames[..i], [frames[i]]);
    assert Flatten([frames[i]]) == frames[i].emotions + Flatten([]);
  }

  /** Taking frame i out of the list takes its detections out of the flattening. */
  lemma {:induction false} FlattenRemove(b: seq<FrameResult>, i: nat)
    requires i < |b|
    ensures multiset(Flatten(b)) == multiset(b[i].emotions) + multiset(Flatten(b[..i] + b[i + 1..]))
  {
    var pre, x, post := b[..i], b[i], b[i + 1..];
    assert b == (pre + [x]) + post;
    FlattenAppend(pre + [x], post);
    FlattenAppend(pre, [x]);
    FlattenAppend(pre, post);
    assert Flatten([x]) == x.emotions + Flatten([]);
    var l, r := Flatten(pre), Flatten(post);
    assert Flatten(b) == (l + x.emotions) + r;
    assert multiset(Flatten(b)) == multiset(l) + multiset(x.emotions) + multiset(r);
  }

  /** The first element of `a` sits at some index of its permutation `b`;
      what is left of both is again a permutation. */
  lemma PickOut<T>(a: seq<T>, b: seq<T>) returns (i: nat)
    requires a != [] && multiset(a) == multiset(b)
    ensures i < |b| && b[i] == a[0]
    ensures multiset(a[1..]) == multiset(b[..i] + b[i + 1..])
  {
    var x := a[0];
    assert x in multiset(b);
    i :| 0 <= i < |b| && b[i] == x;
    var rest := b[..i] + b[i + 1..];
    assert b == b[..i] + ([x] + b[i + 1..]);
    assert multiset(b) == multiset(rest) + multiset{x};
    assert a == [x] + a[1..];
    assert multiset(a) == multiset{x} + multiset(a[1..]);
    assert multiset(a[1..]) == multiset(a) - multiset{x};
    assert multiset(rest) == multiset(b) - multiset{x};
  }

  /** Reordering the frames does not change which detections there are. */
  lemma {:induction false} FlattenPermutation(a: seq<FrameResult>, b: seq<FrameResult>)
    requires multiset(a) == multiset(b)
    ensures multiset(Flatten(a)) == multiset(Flatten(b))
    decreases |a|
  {
    if a == [] {
      assert |b| == |multiset(b)| == 0;
    } else {
      var i := PickOut(a, b);
      FlattenPermutation(a[1..], b[..i] + b[i + 1..]);
      FlattenRemove(b, i);
    }
  }

  /** The number of elements of `s` that satisfy `p`, the source's
      `sum(1 for ... if ...)` and `len([... if ...])`. */
  function Count<T>(s: seq<T>, p: T -> bool): (n: nat)
    ensures n <= |s|
  {
    if s == [] then 0 else (if p(s[0]) then 1 else 0) + Count(s[1..], p)
  }

  lemma {:induction false} CountAppend<T>(a: seq<T>, b: seq<T>, p: T -> bool)
    ensures Count(a + b, p) == Count(a, p) + Count(b, p)
  {
    if a == [] {
      assert a + b == b;
    } else {
      assert (a + b)[1..] == a[1..] + b;
      CountAppend(a[1..], b, p);
    }
  }

  /** The count is zero exactly when no element satisfies the predicate. */
  lemma {:induction false} CountZero<T>(s: seq<T>, p: T -> bool)
    ensures Count(s, p) == 0 <==> forall i :: 0 <= i < |s| ==> !p(s[i])
  {
    if s != [] {
      CountZero(s[1..], p);
      assert forall i :: 1 <= i < |s| ==> s[i] == s[1..][i - 1];
    }
  }

  /** A count depends only on the multiset of elements, not on their order. */
  lemma {:induction false} CountPermutation<T>(a: seq<T>, b: seq<T>, p: T -> bool)
    requires multiset(a) == multiset(b)
    ensures Count(a, p) == Count(b, p)
    decreases |a|
  {
    if a == [] {
      assert |b| == |multiset(b)| == 0;
    } else {
      var i := PickOut(a, b);
      CountPermutation(a[1..], b[..i] + b[i + 1..], p);
      assert b == b[..i] + ([b[i]] + b[i + 1..]);
      CountAppend(b[..i], [b[i]] + b[i + 1..], p);
      CountAppend([b[i]], b[i + 1..], p);
      CountAppend(b[..i], b[i + 1..], p);
    }
  }

  /** `sep.join(ws)`. */
  function Join(ws: seq<string>, sep: string): (s: string)
  {
    if ws == [] then "" else if |ws| == 1 then ws[0] else ws[0] + sep + Join(ws[1..], sep)
  }

  /** Every joined string appears in the result, with `p` before it and `q`
      after it. */
  lemma {:induction false} JoinContains(ws: seq<string>, sep: string, k: nat) returns (p: string, q: string)
    requires k < |ws|
    ensures Join(ws, sep) == p + ws[k] + q
  {
    if |ws| == 1 {
      p, q := "", "";
    } else if k == 0 {
      p, q := "", sep + Join(ws[1..], sep);
    } else {
      var p', q' := JoinContains(ws[1..], sep, k - 1);
      p, q := ws[0] + sep + p', q';
    }
  }
}
