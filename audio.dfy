/** `AudioAnalyzer.transcribir_audio`: the recogniser's text is split on
    whitespace and the words longer than one character are counted as
    verbal attempts; a recogniser error yields a fixed empty result. */
module Audio {
  import opened Common

  /** The characters for which Python's `str.isspace()` holds, the ones
      `str.split()` without arguments splits on. */
  predicate IsSpace(c: char)
  {
    var n := c as int;
    || 0x09 <= n <= 0x0D || 0x1C <= n <= 0x20 || n == 0x85 || n == 0xA0
    || n == 0x1680 || 0x2000 <= n <= 0x200A || n == 0x2028 || n == 0x2029
    || n == 0x202F || n == 0x205F || n == 0x3000
  }

  /** A word as `split()` produces it: non-empty, without whitespace. */
  predicate IsWord(w: string)
  {
    |w| > 0 && forall i :: 0 <= i < |w| ==> !IsSpace(w[i])
  }

  /** `s.split()` continued from a word `cur` already started. */
  function SplitFrom(s: string, cur: string): (words: seq<string>)
    requires forall i :: 0 <= i < |cur| ==> !IsSpace(cur[i])
    ensures forall k :: 0 <= k < |words| ==> IsWord(words[k])
  {
    if s == [] then (if cur == [] then [] else [cur])
    else if IsSpace(s[0]) then (if cur == [] then [] else [cur]) + SplitFrom(s[1..], [])
    else SplitFrom(s[1..], cur + [s[0]])
  }

  /** `s.split()`: the maximal runs of non-whitespace, in order. Every word
      is non-empty and free of whitespace. */
  function Split(s: string): (words: seq<string>)
    ensures forall k :: 0 <= k < |words| ==> IsWord(words[k])
  {
    SplitFrom(s, [])
  }

  /** The characters of `s` that are not whitespace, in order. */
  function NonSpace(s: string): (t: string)
  {
    if s == [] then [] else (if IsSpace(s[0]) then [] else [s[0]]) + NonSpace(s[1..])
  }

  function Concat(ws: seq<string>): (s: string)
  {
    if ws == [] then [] else ws[0] + Concat(ws[1..])
  }

  lemma {:induction false} SplitFromContents(s: string, cur: string)
    requires forall i :: 0 <= i < |cur| ==> !IsSpace(cur[i])
    ensures Concat(SplitFrom(s, cur)) == cur + NonSpace(s)
  {
    if s == [] {
      assert cur + [] == cur;
      if cur != [] {
        assert Concat([cur]) == cur + Concat([]);
      }
    } else if IsSpace(s[0]) {
      SplitFromContents(s[1..], []);
      var rest := SplitFrom(s[1..], []);
      if cur != [] {
        assert ([cur] + rest)[1..] == rest;
        assert Concat([cur] + rest) == cur + Concat(rest);
      } else {
        assert [] + rest == rest;
      }
    } else {
      SplitFromContents(s[1..], cur + [s[0]]);
      assert (cur + [s[0]]) + NonSpace(s[1..]) == cur + ([s[0]] + NonSpace(s[1..]));
    }
  }

  /** Splitting loses exactly the whitespace: the words put back together are
      the non-whitespace characters of the text, in order. */
  lemma SplitContents(s: string)
    ensures Concat(Split(s)) == NonSpace(s)
  {
    SplitFromContents(s, []);
    assert [] + NonSpace(s) == NonSpace(s);
  }

  /** Continuing a word through more non-whitespace characters. */
  lemma {:induction false} SplitFromWord(w: string, rest: string, cur: string)
    requires forall i :: 0 <= i < |cur| ==> !IsSpace(cur[i])
    requires forall i :: 0 <= i < |w| ==> !IsSpace(w[i])
    ensures SplitFrom(w + rest, cur) == SplitFrom(rest, cur + w)
  {
    if w == [] {
      assert w + rest == rest && cur + w == cur;
    } else {
      assert (w + rest)[0] == w[0] && (w + rest)[1..] == w[1..] + rest;
      SplitFromWord(w[1..], rest, cur + [w[0]]);
      assert (cur + [w[0]]) + w[1..] == cur + w;
    }
  }

  /** Splitting words joined by single spaces gives the words back. */
  lemma {:induction false} SplitJoin(ws: seq<string>)
    requires forall k :: 0 <= k < |ws| ==> IsWord(ws[k])
    ensures Split(Join(ws, " ")) == ws
  {
    if |ws| == 1 {
      SplitFromWord(ws[0], [], []);
      assert ws[0] + [] == ws[0] && [] + ws[0] == ws[0];
    } else if |ws| > 1 {
      var w, tail := ws[0], Join(ws[1..], " ");
      SplitJoin(ws[1..]);
      assert Join(ws, " ") == w + (" " + tail);
      SplitFromWord(w, " " + tail, []);
      assert [] + w == w;
      assert (" " + tail)[0] == ' ' && (" " + tail)[1..] == tail;
      assert SplitFrom(" " + tail, w) == [w] + SplitFrom(tail, []);
      assert [w] + ws[1..] == ws;
    }
  }

  /** Whitespace normalisation written independently of `Split`: every run
      of whitespace between two non-whitespace characters becomes one space,
      and runs at either end are dropped. `started` says whether a
      non-whitespace character has been seen, `gap` whether a space is owed
      before the next one. */
  function Collapse(s: string, started: bool, gap: bool): (t: string)
    ensures |t| <= 2 * |s|
  {
    if s == [] then ""
    else if IsSpace(s[0]) then Collapse(s[1..], started, started)
    else (if gap then " " else "") + [s[0]] + Collapse(s[1..], true, false)
  }

  function Normalise(s: string): (t: string)
    ensures |t| <= 2 * |s|
  {
    Collapse(s, false, false)
  }

  /** The words after a first one, each preceded by a space. */
  function Sep(ws: seq<string>): (t: string)
  {
    if ws == [] then "" else " " + Join(ws, " ")
  }

  lemma JoinCons(w: string, ws: seq<string>)
    ensures Join([w] + ws, " ") == w + Sep(ws)
  {
    if ws == [] {
      assert [w] + ws == [w];
    } else {
      assert ([w] + ws)[1..] == ws;
    }
  }

  /** Inside a word `cur`: the rest of the split, joined with single spaces,
      is `cur` followed by the normalised rest of the text. */
  lemma {:induction false} SplitFromCollapse(s: string, cur: string)
    requires |cur| > 0 && forall i :: 0 <= i < |cur| ==> !IsSpace(cur[i])
    ensures SplitFrom(s, cur) != []
    ensures Join(SplitFrom(s, cur), " ") == cur + Collapse(s, true, false)
    decreases |s|, 1
  {
    if s == [] {
      assert cur + "" == cur;
    } else if IsSpace(s[0]) {
      SplitFromStart(s[1..], true);
      JoinCons(cur, SplitFrom(s[1..], []));
    } else {
      SplitFromCollapse(s[1..], cur + [s[0]]);
      assert (cur + [s[0]]) + Collapse(s[1..], true, false) == cur + ("" + [s[0]] + Collapse(s[1..], true, false));
    }
  }

  /** Between words: the split joined with single spaces is the normalised
      text, with a leading space when a word came before. */
  lemma {:induction false} SplitFromStart(s: string, started: bool)
    ensures Collapse(s, started, started) == if started then Sep(SplitFrom(s, [])) else Join(SplitFrom(s, []), " ")
    decreases |s|, 0
  {
    if s != [] {
      if IsSpace(s[0]) {
        SplitFromStart(s[1..], started);
        assert [] + SplitFrom(s[1..], []) == SplitFrom(s[1..], []);
      } else {
        SplitFromCollapse(s[1..], [s[0]]);
        assert [] + [s[0]] == [s[0]];
      }
    }
  }

  /** `" ".join(s.split())` is the whitespace normalisation of `s`. */
  lemma SplitNormalises(s: string)
    ensures Join(Split(s), " ") == Normalise(s)
  {
    SplitFromStart(s, false);
  }

  /** The split is the only list of words that re-joins to the normalised
      text. */
  lemma SplitUnique(ws: seq<string>, s: string)
    requires forall k :: 0 <= k < |ws| ==> IsWord(ws[k])
    requires Join(ws, " ") == Normalise(s)
    ensures ws == Split(s)
  {
    SplitJoin(ws);
    SplitNormalises(s);
    SplitJoin(Split(s));
  }

  /** What `transcribir_audio` returns; `error` is present only when the
      recogniser raised. */
  datatype Transcription = Transcription(error: Option<string>, transcription: string,
                                         words: seq<string>, attempts: nat)

  /** A verbal attempt is a word of more than one character. */
  predicate IsAttempt(w: string)
  {
    |w| > 1
  }

  /** `transcribir_audio`, given what `recognize_google` returned: the text,
      or the message of the exception it raised. */
  function Transcribe(recognized: Result<string, string>): (t: Transcription)
    ensures recognized.Success? ==>
      && t.error == None
      && t.transcription == recognized.value
      && t.words == Split(recognized.value)
      && t.attempts == Count(t.words, IsAttempt)
    ensures recognized.Failure? ==> t == Transcription(Some(recognized.error), "", [], 0)
    ensures t.attempts <= |t.words|
  {
    match recognized
    case Success(text) =>
      var words := Split(text);
      Transcription(None, text, words, Count(words, IsAttempt))
    case Failure(e) => Transcription(Some(e), "", [], 0)
  }

  /** The attempts are exactly the words of more than one character: as many
      as there are such words, none when every word is a single character. */
  lemma AttemptsAreLongWords(recognized: Result<string, string>)
    ensures var t := Transcribe(recognized);
      t.attempts == 0 <==> forall k :: 0 <= k < |t.words| ==> |t.words[k]| == 1
  {
    var t := Transcribe(recognized);
    CountZero(t.words, IsAttempt);
  }

  /** The words of a successful transcription spell out its text without the
      whitespace, and re-joining them with spaces and splitting again is
      stable. */
  lemma TranscriptionWords(text: string)
    ensures var t := Transcribe(Success(text));
      && Concat(t.words) == NonSpace(text)
      && Join(t.words, " ") == Normalise(text)
      && Split(Join(t.words, " ")) == t.words
  {
    SplitContents(text);
    SplitNormalises(text);
    SplitJoin(Split(text));
  }
}
