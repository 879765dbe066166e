/** The counting loop of `generar_histograma`: a dictionary from emotion
    label to the number of detections with that label, filled in place while
    walking every face of every frame. The plotting that follows is not
    modelled. */
module Report {
  import opened Common

  /** A Python dictionary as the loop leaves it: its keys in insertion order
      and its entries. */
  datatype Counts = Counts(keys: seq<string>, entries: map<string, nat>)

  function HasLabel(l: string): Detection -> bool
  {
    (d: Detection) => d.emotion == l
  }

  /** The number of detections carrying label `l`. */
  function Occurrences(ds: seq<Detection>, l: string): (n: nat)
    ensures n <= |ds|
  {
    Count(ds, HasLabel(l))
  }

  /** `counts[l] = counts.get(l, 0) + 1` on an insertion-ordered
      dictionary: an unseen label is inserted at the end with 1, a seen one
      is incremented in place; no other entry changes. */
  function Increment(c: Counts, l: string): (d: Counts)
    ensures l in d.entries && d.entries[l] == (if l in c.entries then c.entries[l] else 0) + 1
    ensures l in c.entries ==> d.keys == c.keys
    ensures l !in c.entries ==> d.keys == c.keys + [l]
  {
    if l in c.entries then Counts(c.keys, c.entries[l := c.entries[l] + 1])
    else Counts(c.keys + [l], c.entries[l := 1])
  }

  /** Counting `l` touches no other entry, and adds `l` to the labels. */
  lemma IncrementOthers(c: Counts, l: string)
    ensures var d := Increment(c, l);
      && d.entries.Keys == c.entries.Keys + {l}
      && forall x :: x in c.entries && x != l ==> d.entries[x] == c.entries[x]
  {
  }

  /** The dictionary after counting `ds` one detection at a time. */
  function Histogram(ds: seq<Detection>): (c: Counts)
    ensures |c.keys| <= |ds|
    ensures c.keys == [] <==> ds == []
  {
    if ds == [] then Counts([], map[])
    else Increment(Histogram(ds[..|ds| - 1]), ds[|ds| - 1].emotion)
  }

  /** The labels that occur in `ds`. */
  function Labels(ds: seq<Detection>): (ls: set<string>)
  {
    if ds == [] then {} else Labels(ds[..|ds| - 1]) + {ds[|ds| - 1].emotion}
  }

  lemma {:induction false} LabelsMember(ds: seq<Detection>, l: string)
    ensures l in Labels(ds) <==> exists i :: 0 <= i < |ds| && ds[i].emotion == l
  {
    if ds != [] {
      var pre := ds[..|ds| - 1];
      LabelsMember(pre, l);
      if exists i :: 0 <= i < |pre| && pre[i].emotion == l {
        var i :| 0 <= i < |pre| && pre[i].emotion == l;
        assert ds[i] == pre[i];
      }
      if exists i :: 0 <= i < |ds| && ds[i].emotion == l {
        var i :| 0 <= i < |ds| && ds[i].emotion == l;
        if i < |pre| {
          assert pre[i] == ds[i];
        }
      }
    }
  }

  /** The keys in order are the distinct labels of the entries. */
  ghost predicate WellFormed(c: Counts)
  {
    && (forall i, j :: 0 <= i < j < |c.keys| ==> c.keys[i] != c.keys[j])
    && (forall l :: l in c.entries <==> l in c.keys)
  }

  /** The total of the entries, walking the keys. */
  function Total(keys: seq<string>, entries: map<string, nat>): nat
    requires forall i :: 0 <= i < |keys| ==> keys[i] in entries
  {
    if keys == [] then 0 else entries[keys[0]] + Total(keys[1..], entries)
  }

  lemma OccurrencesSnoc(ds: seq<Detection>, d: Detection, l: string)
    ensures Occurrences(ds + [d], l) == Occurrences(ds, l) + (if d.emotion == l then 1 else 0)
  {
    CountAppend(ds, [d], HasLabel(l));
    assert [d][1..] == [];
  }

  /** One step of the loop, as the dictionary update it performs. */
  lemma HistogramSnoc(ds: seq<Detection>, d: Detection)
    ensures Histogram(ds + [d]) == Increment(Histogram(ds), d.emotion)
  {
    assert (ds + [d])[..|ds|] == ds;
  }

  /** One step of the inner loop, over the detections seen so far. */
  lemma HistogramStep(done: seq<Detection>, es: seq<Detection>, j: nat)
    requires j < |es|
    ensures Histogram(done + es[..j + 1]) == Increment(Histogram(done + es[..j]), es[j].emotion)
  {
    assert done + es[..j + 1] == (done + es[..j]) + [es[j]];
    HistogramSnoc(done + es[..j], es[j]);
  }

  /** One step of the inner loop, with the update written in place. */
  lemma CountStep(c: Counts, done: seq<Detection>, es: seq<Detection>, j: nat)
    requires j < |es| && c == Histogram(done + es[..j])
    ensures var l := es[j].emotion;
      Histogram(done + es[..j + 1])
        == Counts(if l in c.entries then c.keys else c.keys + [l],
                  c.entries[l := (if l in c.entries then c.entries[l] else 0) + 1])
  {
    HistogramStep(done, es, j);
  }

  /** The keys are distinct and are exactly the entries' labels. */
  lemma {:induction false} HistogramWellFormed(ds: seq<Detection>)
    ensures WellFormed(Histogram(ds))
  {
    if ds != [] {
      HistogramWellFormed(ds[..|ds| - 1]);
      IncrementWellFormed(Histogram(ds[..|ds| - 1]), ds[|ds| - 1].emotion);
    }
  }

  /** One dictionary update keeps the keys distinct and in step with the
      entries: a label already seen keeps its place, a new one goes last. */
  lemma IncrementWellFormed(c: Counts, l: string)
    requires WellFormed(c)
    ensures WellFormed(Increment(c, l))
  {
    var d := Increment(c, l);
    if l !in c.entries {
      assert l !in c.keys;
      forall i, j | 0 <= i < j < |d.keys|
        ensures d.keys[i] != d.keys[j]
      {
        if j == |c.keys| {
          assert c.keys[i] in c.keys;
        }
      }
    }
  }

  /** Every label is counted exactly: the keys are the distinct labels that
      occur, and each entry is its label's number of occurrences, which is
      therefore at least 1. */
  lemma {:induction false} HistogramSpec(ds: seq<Detection>)
    ensures WellFormed(Histogram(ds))
    ensures Histogram(ds).entries.Keys == Labels(ds)
    ensures forall l :: l in Histogram(ds).entries ==> Histogram(ds).entries[l] == Occurrences(ds, l) >= 1
  {
    if ds != [] {
      var pre, d := ds[..|ds| - 1], ds[|ds| - 1];
      assert ds == pre + [d];
      HistogramSpec(pre);
      HistogramSnoc(pre, d);
      var c, l := Histogram(pre), d.emotion;
      IncrementOthers(c, l);
      forall x | x in Histogram(ds).entries
        ensures Histogram(ds).entries[x] == Occurrences(ds, x) >= 1
      {
        OccurrencesSnoc(pre, d, x);
        if x == l && l !in c.entries {
          LabelsMember(pre, l);
          CountZero(pre, HasLabel(l));
        }
      }
    }
  }

  /** The keys are in order of first occurrence: before any occurrence of a
      later key, every earlier key has already occurred. */
  lemma {:induction false} HistogramOrder(ds: seq<Detection>)
    ensures var keys := Histogram(ds).keys;
      forall i, j, m :: 0 <= i < j < |keys| && 0 <= m < |ds| && ds[m].emotion == keys[j] ==>
        keys[i] in Labels(ds[..m])
  {
    if ds != [] {
      var pre, d := ds[..|ds| - 1], ds[|ds| - 1];
      assert ds == pre + [d];
      HistogramOrder(pre);
      HistogramSpec(pre);
      HistogramSnoc(pre, d);
      OrderSnoc(Histogram(pre), pre, d);
    }
  }

  /** The first-occurrence order survives counting one more detection. */
  lemma OrderSnoc(c: Counts, pre: seq<Detection>, d: Detection)
    requires WellFormed(c) && c.entries.Keys == Labels(pre)
    requires forall i, j, m :: 0 <= i < j < |c.keys| && 0 <= m < |pre| && pre[m].emotion == c.keys[j] ==>
      c.keys[i] in Labels(pre[..m])
    ensures var keys, ds := Increment(c, d.emotion).keys, pre + [d];
      forall i, j, m :: 0 <= i < j < |keys| && 0 <= m < |ds| && ds[m].emotion == keys[j] ==>
        keys[i] in Labels(ds[..m])
  {
    var keys, ds := Increment(c, d.emotion).keys, pre + [d];
    forall i, j, m | 0 <= i < j < |keys| && 0 <= m < |ds| && ds[m].emotion == keys[j]
      ensures keys[i] in Labels(ds[..m])
    {
      assert keys[i] == c.keys[i];
      if m < |pre| {
        assert ds[..m] == pre[..m] && ds[m] == pre[m];
        if j == |c.keys| {
          LabelsMember(pre, keys[j]);
        }
      } else {
        assert ds[..m] == pre;
      }
    }
  }

  /** Bumping one key of a distinct key list raises the total by one. */
  lemma {:induction false} TotalBump(keys: seq<string>, entries: map<string, nat>, l: string)
    requires forall i :: 0 <= i < |keys| ==> keys[i] in entries
    requires forall i, j :: 0 <= i < j < |keys| ==> keys[i] != keys[j]
    requires l in entries
    ensures Total(keys, entries[l := entries[l] + 1]) == Total(keys, entries) + (if l in keys then 1 else 0)
  {
    if keys != [] {
      TotalBump(keys[1..], entries, l);
      if keys[0] == l {
        assert l !in keys[1..];
      }
    }
  }

  /** Total over keys that do not include `l`, after `l` is set. */
  lemma {:induction false} TotalOther(keys: seq<string>, entries: map<string, nat>, l: string, v: nat)
    requires forall i :: 0 <= i < |keys| ==> keys[i] in entries
    requires l !in keys
    ensures Total(keys, entries[l := v]) == Total(keys, entries)
  {
    if keys != [] {
      TotalOther(keys[1..], entries, l, v);
    }
  }

  lemma {:induction false} TotalSnoc(keys: seq<string>, entries: map<string, nat>, l: string)
    requires forall i :: 0 <= i < |keys| ==> keys[i] in entries
    requires l in entries
    ensures Total(keys + [l], entries) == Total(keys, entries) + entries[l]
  {
    if keys == [] {
      assert keys + [l] == [l] && [l][1..] == [];
    } else {
      assert (keys + [l])[1..] == keys[1..] + [l];
      TotalSnoc(keys[1..], entries, l);
    }
  }

  /** The counts add up to the number of detections. */
  lemma {:induction false} HistogramTotal(ds: seq<Detection>)
    ensures WellFormed(Histogram(ds))
    ensures Total(Histogram(ds).keys, Histogram(ds).entries) == |ds|
  {
    HistogramWellFormed(ds);
    if ds != [] {
      var pre := ds[..|ds| - 1];
      HistogramTotal(pre);
      IncrementTotal(Histogram(pre), ds[|ds| - 1].emotion);
    }
  }

  /** One dictionary update adds exactly one to the total. */
  lemma IncrementTotal(c: Counts, l: string)
    requires WellFormed(c)
    ensures Total(Increment(c, l).keys, Increment(c, l).entries) == Total(c.keys, c.entries) + 1
  {
    assert forall i :: 0 <= i < |c.keys| ==> c.keys[i] in c.entries;
    if l in c.entries {
      TotalBump(c.keys, c.entries, l);
    } else {
      TotalOther(c.keys, c.entries, l, 1);
      TotalSnoc(c.keys, c.entries[l := 1], l);
    }
  }

  lemma LabelsSubset(a: seq<Detection>, b: seq<Detection>)
    requires multiset(a) == multiset(b)
    ensures Labels(a) <= Labels(b)
  {
    forall l | l in Labels(a)
      ensures l in Labels(b)
    {
      LabelsMember(a, l);
      var i :| 0 <= i < |a| && a[i].emotion == l;
      assert a[i] in multiset(b);
      var j :| 0 <= j < |b| && b[j] == a[i];
      LabelsMember(b, l);
    }
  }

  /** One label's entry, from `HistogramSpec`. */
  lemma HistogramEntry(ds: seq<Detection>, l: string)
    ensures l in Histogram(ds).entries <==> l in Labels(ds)
    ensures l in Histogram(ds).entries ==> Histogram(ds).entries[l] == Occurrences(ds, l)
  {
    HistogramSpec(ds);
  }

  /** The entries depend only on which detections there are, not on their
      order. */
  lemma HistogramPermutation(a: seq<Detection>, b: seq<Detection>)
    requires multiset(a) == multiset(b)
    ensures Histogram(a).entries == Histogram(b).entries
  {
    var ea, eb := Histogram(a).entries, Histogram(b).entries;
    LabelsSubset(a, b);
    LabelsSubset(b, a);
    forall l
      ensures (l in ea <==> l in eb) && (l in ea ==> ea[l] == eb[l])
    {
      HistogramEntry(a, l);
      HistogramEntry(b, l);
      CountPermutation(a, b, HasLabel(l));
    }
  }

  /** Reordering the frames, or the faces inside them, leaves the counts as
      they are. */
  lemma FramePermutation(a: seq<FrameResult>, b: seq<FrameResult>)
    requires multiset(Flatten(a)) == multiset(Flatten(b))
    ensures Histogram(Flatten(a)).entries == Histogram(Flatten(b)).entries
  {
    HistogramPermutation(Flatten(a), Flatten(b));
  }

  /** The nested loop of `generar_histograma`, lines `for r in emociones:
      for e in r['emociones']: emotion_counts[...] = get(..., 0) + 1`. */
  method CountEmotions(frames: seq<FrameResult>) returns (c: Counts)
    ensures c == Histogram(Flatten(frames))
  {
    c := Counts([], map[]);
    assert frames[..0] == [];
    for i := 0 to |frames|
      invariant c == Histogram(Flatten(frames[..i]))
    {
      c := CountFaces(c, Flatten(frames[..i]), frames[i].emotions);
      FlattenPrefixStep(frames, i);
    }
    assert frames[..|frames|] == frames;
  }

  /** The inner loop of `generar_histograma`, over the faces of one frame,
      continuing the counts of the detections `done` seen before. */
  method CountFaces(c0: Counts, ghost done: seq<Detection>, es: seq<Detection>) returns (c: Counts)
    requires c0 == Histogram(done)
    ensures c == Histogram(done + es)
  {
    c := c0;
    assert done + es[..0] == done;
    for j := 0 to |es|
      invariant c == Histogram(done + es[..j])
    {
      var emotion := es[j].emotion;
      CountStep(c, done, es, j);
      var seen := if emotion in c.entries then c.entries[emotion] else 0;
      c := Counts(if emotion in c.entries then c.keys else c.keys + [emotion],
                  c.entries[emotion := seen + 1]);
    }
    assert es[..|es|] == es;
  }
}
