/** `validar_video`: an upload is accepted when its lower-cased name ends
    with one of the allowed extensions and its size, when known, is within
    the limit; the extension is checked first. */
module Validation {
  import opened Common

  const MiB := 1024 * 1024
  const DefaultMaxSize := 200 * MiB
  const DefaultExtensions := [".mp4", ".avi", ".mov", ".mkv"]
  const AcceptedMessage := "Archivo válido"

  /** The uploaded file as seen through `.name` and the optional `.size`. */
  datatype Upload = Upload(name: string, size: Option<int>)

  /** The second element of the returned pair. The size message renders
      `max_size_bytes / (1024 * 1024)` as a Python float; the model keeps
      that number. */
  datatype Message =
    | Accepted
    | UnsupportedFormat(text: string)
    | TooLarge(maxMegabytes: real)

  function LowerChar(c: char): (d: char)
    ensures 'A' <= c <= 'Z' ==> d as int == c as int + 32
    ensures !('A' <= c <= 'Z') ==> d == c
  {
    if 'A' <= c <= 'Z' then (c as int + 32) as char else c
  }

  /** `str.lower()` on ASCII letters. */
  function Lower(s: string): (t: string)
    ensures |t| == |s| && forall i :: 0 <= i < |s| ==> t[i] == LowerChar(s[i])
  {
    seq(|s|, i requires 0 <= i < |s| => LowerChar(s[i]))
  }

  /** `s.endswith(suffix)`: `s` is some string followed by `suffix`. */
  function EndsWith(s: string, suffix: string): (b: bool)
    ensures b <==> exists p :: s == p + suffix
  {
    SuffixSplit(s, suffix);
    |suffix| <= |s| && s[|s| - |suffix|..] == suffix
  }

  lemma SuffixSplit(s: string, suffix: string)
    ensures (exists p :: s == p + suffix) <==> |suffix| <= |s| && s[|s| - |suffix|..] == suffix
  {
    if |suffix| <= |s| && s[|s| - |suffix|..] == suffix {
      assert s == s[..|s| - |suffix|] + suffix;
    }
    assert forall p :: s == p + suffix ==> s[|s| - |suffix|..] == suffix;
  }

  /** `any(name.endswith(ext) for ext in exts)`. */
  function AnyEndsWith(name: string, exts: seq<string>): (b: bool)
    ensures b <==> exists k :: 0 <= k < |exts| && EndsWith(name, exts[k])
  {
    if exts == [] then false
    else
      var rest := AnyEndsWith(name, exts[1..]);
      assert forall k :: 1 <= k < |exts| ==> exts[1..][k - 1] == exts[k];
      EndsWith(name, exts[0]) || rest
  }

  const FormatPrefix := "Formato no soportado. Use "

  /** The format message: the fixed prefix, then the extensions separated by
      commas. */
  function FormatMessage(exts: seq<string>): (text: string)
    ensures |FormatPrefix| <= |text| && text[..|FormatPrefix|] == FormatPrefix
    ensures exts == [] ==> text == FormatPrefix
  {
    FormatPrefix + Join(exts, ", ")
  }

  /** `w` occurs somewhere in `text`. */
  ghost predicate Mentions(text: string, w: string)
  {
    exists p, q :: text == p + w + q
  }

  /** The format message names every accepted extension. */
  lemma FormatNamesEvery(exts: seq<string>)
    ensures forall k :: 0 <= k < |exts| ==> Mentions(FormatMessage(exts), exts[k])
  {
    forall k | 0 <= k < |exts|
      ensures Mentions(FormatMessage(exts), exts[k])
    {
      var p, q := JoinContains(exts, ", ", k);
      var before := FormatPrefix + p;
      assert FormatMessage(exts) == before + exts[k] + q;
    }
  }

  /** The message for the default list, written out. */
  lemma DefaultFormatMessage()
    ensures FormatMessage(DefaultExtensions) == "Formato no soportado. Use .mp4, .avi, .mov, .mkv"
  {
    var e := DefaultExtensions;
    assert e[1..][1..][1..] == [".mkv"];
    assert Join(e[1..][1..], ", ") == ".mov, .mkv";
    assert Join(e[1..], ", ") == ".avi, .mov, .mkv";
  }

  /** `validar_video(video_file, max_size_bytes, valid_extensions)`, where
      `None` extensions stand for the default list: rejected for its format
      iff the lower-cased name ends with none of the extensions (which are
      not lower-cased), otherwise rejected for its size iff the size is
      known and strictly greater than the limit, otherwise accepted. */
  function ValidateVideo(file: Upload, maxSizeBytes: int := DefaultMaxSize,
                         validExtensions: Option<seq<string>> := None): (r: (bool, Message))
    ensures var exts := if validExtensions.None? then DefaultExtensions else validExtensions.value;
      var formatOk := exists k :: 0 <= k < |exts| && EndsWith(Lower(file.name), exts[k]);
      && (r.1.UnsupportedFormat? <==> !formatOk)
      && (r.1.UnsupportedFormat? ==> r.1.text == FormatMessage(exts))
      && (r.1.TooLarge? <==> formatOk && file.size.Some? && file.size.value > maxSizeBytes)
      && (r.1.TooLarge? ==> r.1.maxMegabytes * (MiB as real) == maxSizeBytes as real)
      && (r.0 <==> r.1 == Accepted)
  {
    var exts := if validExtensions.None? then DefaultExtensions else validExtensions.value;
    var name := Lower(file.name);
    if !AnyEndsWith(name, exts) then (false, UnsupportedFormat(FormatMessage(exts)))
    else if file.size.Some? && file.size.value > maxSizeBytes then
      (false, TooLarge(maxSizeBytes as real / MiB as real))
    else (true, Accepted)
  }

  lemma {:induction false} LowerIdempotent(s: string)
    ensures Lower(Lower(s)) == Lower(s)
  {
    forall i | 0 <= i < |s|
      ensures Lower(Lower(s))[i] == Lower(s)[i]
    {
      var c := s[i];
      assert Lower(s)[i] == LowerChar(c);
    }
  }

  /** The verdict depends on the name only through its lower-cased form, so
      names that differ only in letter case get the same verdict. */
  lemma CaseInsensitive(a: string, b: string, size: Option<int>, maxSizeBytes: int, exts: Option<seq<string>>)
    requires Lower(a) == Lower(b)
    ensures ValidateVideo(Upload(a, size), maxSizeBytes, exts) == ValidateVideo(Upload(b, size), maxSizeBytes, exts)
  {
  }

  /** Upper-case names pass the default extensions. */
  lemma UpperCaseAccepted()
    ensures ValidateVideo(Upload("CLIP.MP4", Some(DefaultMaxSize))) == (true, Accepted)
  {
    assert Lower("CLIP.MP4") == "clip.mp4";
    assert EndsWith("clip.mp4", DefaultExtensions[0]);
  }

  /** A lower-cased string holds no capital letter. */
  lemma LowerHasNoCapital(s: string, i: int)
    ensures 0 <= i < |s| ==> !('A' <= Lower(s)[i] <= 'Z')
  {
  }

  /** The allowed extensions are compared as given: an upper-case extension
      matches no name, since the name is lower-cased and the extension is not. */
  lemma UpperCaseExtensionNeverMatches(name: string, size: Option<int>, maxSizeBytes: int)
    ensures ValidateVideo(Upload(name, size), maxSizeBytes, Some([".MP4"])) == (false, UnsupportedFormat(FormatMessage([".MP4"])))
  {
    LowerHasNoCapital(name, |name| - 3);
  }

  /** A file exactly at the limit is accepted, one byte more is not; a file
      of unknown size is never rejected for its size. */
  lemma SizeBoundary(name: string, maxSizeBytes: int, exts: Option<seq<string>>)
    requires ValidateVideo(Upload(name, None), maxSizeBytes, exts).0
    ensures ValidateVideo(Upload(name, Some(maxSizeBytes)), maxSizeBytes, exts).0
    ensures ValidateVideo(Upload(name, Some(maxSizeBytes + 1)), maxSizeBytes, exts).1 == TooLarge(maxSizeBytes as real / MiB as real)
  {
  }

  /** The format is checked before the size: a bad name is reported as a bad
      format whatever its size. */
  lemma FormatFirst(name: string, size: int, maxSizeBytes: int, exts: Option<seq<string>>)
    requires !ValidateVideo(Upload(name, None), maxSizeBytes, exts).0
    ensures ValidateVideo(Upload(name, Some(size)), maxSizeBytes, exts).1.UnsupportedFormat?
  {
  }
}
