/** The label and window logic of the GRID loader, src/data/grid.py:
    alignment files, word windows turned into frame ranges, the character
    vocabulary, CTC batch collation and the speaker split. Directory
    listings, file contents and random draws are parameters. */
module Grid {
  import opened Results
  import opened PySeq
  import opened PyText
  import opened Vocab

  // ------------------------------------------------------------- frames

  /** `round(x) = math.floor(x + 0.5)`: halves round up. */
  function Round(x: real): (r: int)
    ensures r as real <= x + 0.5 < r as real + 1.0
  {
    (x + 0.5).Floor
  }

  /** `round(1 / 1000 * t)`: an alignment time (in units of 1/1000 of a
      frame) as a frame number; rounding to frames is integer arithmetic. */
  function TimeToFrame(t: int): (r: int)
    ensures r == (t + 500) / 1000
    ensures r * 1000 <= t + 500 < r * 1000 + 1000
  {
    RoundThousandths(t);
    Round(t as real / 1000.0)
  }

  /** Rounding t / 1000 is (t + 500) div 1000. */
  lemma RoundThousandths(t: int)
    ensures Round(t as real / 1000.0) == (t + 500) / 1000
  {
    var q := (t + 500) / 1000;
    assert q * 1000 <= t + 500 < q * 1000 + 1000;
    var x := t as real / 1000.0;
    assert x * 1000.0 == t as real;
    assert q as real <= x + 0.5 < q as real + 1.0 by {
      assert (q * 1000) as real <= (t + 500) as real < (q * 1000 + 1000) as real;
    }
  }

  /** The highest frame number of a GRID video (`max_timesteps`). */
  const MaxFrame: int := 75

  function Max(a: int, b: int): int {
    if a >= b then a else b
  }

  function Min(a: int, b: int): int {
    if a <= b then a else b
  }

  /** The frame window of the words `wordStart..wordEnd` (counted from 1):
      the first word's start rounded and raised to at least 1, and the last
      word's end rounded and lowered to at most 75. Each end is clamped on
      one side only, so the start may exceed 75 and the end may fall below
      1. An index outside the lists is an IndexError. */
  function Window(starts: seq<int>, ends: seq<int>, wordStart: int, wordEnd: int): (r: Result<(int, int)>)
    ensures r.Ok? <==> Index(starts, wordStart - 1).Ok? && Index(ends, wordEnd - 1).Ok?
    ensures r.Err? ==> r.fault == IndexError
    ensures r.Ok? ==> 1 <= r.value.0 && r.value.1 <= MaxFrame
    ensures r.Ok? ==> (r.value.0 >= TimeToFrame(Index(starts, wordStart - 1).value)
      && (r.value.0 == 1 || r.value.0 == TimeToFrame(Index(starts, wordStart - 1).value)))
    ensures r.Ok? ==> (r.value.1 <= TimeToFrame(Index(ends, wordEnd - 1).value)
      && (r.value.1 == MaxFrame || r.value.1 == TimeToFrame(Index(ends, wordEnd - 1).value)))
  {
    var s :- Index(starts, wordStart - 1);
    var e :- Index(ends, wordEnd - 1);
    Ok((Max(TimeToFrame(s), 1), Min(TimeToFrame(e), MaxFrame)))
  }

  /** A window of at least three frames, the bar both `preprocess` and
      `load_sample` apply. */
  predicate LongEnough(w: (int, int)) {
    w.1 - w.0 + 1 >= 3
  }

  // ---------------------------------------------------------- collation

  datatype Collated = Collated(y: seq<int>, lengths: seq<int>, yLengths: seq<nat>)

  /** The label part of `ctc_collate`: all labels concatenated in batch
      order, the input lengths passed through, and one label length per
      example. Unpacking an empty batch raises ValueError. */
  function CtcCollate(ys: seq<seq<int>>, lens: seq<int>): (r: Result<Collated>)
    requires |ys| == |lens|
    ensures r.Ok? <==> |ys| > 0
    ensures r.Err? ==> r.fault == ValueError
    ensures r.Ok? ==> r.value.lengths == lens
    ensures r.Ok? ==> |r.value.yLengths| == |ys| && forall i :: 0 <= i < |ys| ==> r.value.yLengths[i] == |ys[i]|
    ensures r.Ok? ==> |r.value.y| == Sum(r.value.yLengths)
    ensures r.Ok? ==> forall i :: 0 <= i < |ys| ==> (Offset(ys, i) + |ys[i]| <= |r.value.y|
      && r.value.y[Offset(ys, i)..Offset(ys, i) + |ys[i]|] == ys[i])
  {
    if |ys| == 0 then Err(ValueError)
    else
      FlattenLength(ys);
      forall i | 0 <= i < |ys|
        ensures Offset(ys, i) + |ys[i]| <= |Flatten(ys)| && Flatten(ys)[Offset(ys, i)..Offset(ys, i) + |ys[i]|] == ys[i]
      {
        FlattenPart(ys, i);
      }
      Ok(Collated(Flatten(ys), lens, Lengths(ys)))
  }

  // ---------------------------------------------------------- alignment

  /** The words of an alignment file with their start and end times. */
  datatype Alignment = Alignment(words: seq<string>, starts: seq<int>, ends: seq<int>)

  predicate Aligned(a: Alignment) {
    |a.starts| == |a.words| && |a.ends| == |a.words|
  }

  predicate IsSilence(word: string) {
    word == "sil" || word == "sp"
  }

  function Prepend(word: string, start: int, end: int, a: Alignment): (r: Alignment)
    ensures Aligned(a) ==> Aligned(r)
  {
    Alignment([word] + a.words, [start] + a.starts, [end] + a.ends)
  }

  /** The loop over `splitlines()` in `preprocess`: each line is split on
      single spaces; its third field (an IndexError without one) is the
      word, and unless the word is `sil` or `sp` the first two fields are
      read with `int()` (a ValueError when they are not integers). */
  /** A line `parse` accepts: a third space-separated field, and integer
      first two fields unless that word is `sil` or `sp`. */
  predicate LineParses(line: string) {
    var tokens := Split(line, ' ');
    |tokens| >= 3 && (IsSilence(tokens[2]) || (ParseInt(tokens[0]).Ok? && ParseInt(tokens[1]).Ok?))
  }

  predicate LinesParse(lines: seq<string>) {
    forall k :: 0 <= k < |lines| ==> LineParses(lines[k])
  }

  function ParseLines(lines: seq<string>): (r: Result<Alignment>)
    ensures r.Ok? <==> LinesParse(lines)
    ensures r.Ok? ==> Aligned(r.value) && |r.value.words| <= |lines|
    ensures r.Ok? ==> forall k :: 0 <= k < |r.value.words| ==> !IsSilence(r.value.words[k])
    ensures r.Ok? ==> forall k :: 0 <= k < |r.value.words| ==> ' ' !in r.value.words[k]
    ensures r.Err? ==> r.fault == IndexError || r.fault == ValueError
    decreases |lines|
  {
    if |lines| == 0 then Ok(Alignment([], [], []))
    else
      assert forall k :: 1 <= k < |lines| ==> lines[k] == lines[1..][k - 1];
      var tokens := Split(lines[0], ' ');
      var word :- Index(tokens, 2);
      if IsSilence(word) then ParseLines(lines[1..])
      else
        var start :- ParseInt(tokens[0]);
        var end :- ParseInt(tokens[1]);
        var rest :- ParseLines(lines[1..]);
        var r := Prepend(word, start, end, rest);
        assert forall k :: 1 <= k < |r.words| ==> r.words[k] == rest.words[k - 1];
        Ok(r)
  }

  /** `open(align).read().splitlines()` parsed line by line. */
  function ParseAlign(content: string): (r: Result<Alignment>)
    ensures r.Ok? <==> LinesParse(SplitLines(content))
    ensures r.Err? ==> r.fault == IndexError || r.fault == ValueError
    ensures r.Ok? ==> Aligned(r.value)
    ensures r.Ok? ==> forall k :: 0 <= k < |r.value.words| ==> !IsSilence(r.value.words[k]) && ' ' !in r.value.words[k]
  {
    ParseLines(SplitLines(content))
  }

  /** A line of an alignment file. */
  function AlignLine(start: int, end: int, word: string): string {
    IntToString(start) + " " + IntToString(end) + " " + word
  }

  /** An alignment file holding the given words, one line each. */
  function RenderAlign(a: Alignment): string
    requires Aligned(a)
  {
    Join(RenderLines(a), "\n")
  }

  /** The lines of a rendered alignment, one per word. */
  function RenderLines(a: Alignment): (r: seq<string>)
    requires Aligned(a)
    ensures |r| == |a.words|
    ensures forall k {:trigger r[k]} :: 0 <= k < |r| ==> r[k] == AlignLine(a.starts[k], a.ends[k], a.words[k])
  {
    seq(|a.words|, k requires 0 <= k < |a.words| => AlignLine(a.starts[k], a.ends[k], a.words[k]))
  }

  /** The words an alignment file may carry: no separator, no line break,
      and neither silence marker. */
  predicate PlainWord(word: string) {
    ' ' !in word && NoLineBreak(word) && !IsSilence(word)
  }

  lemma AlignLineFields(start: int, end: int, word: string)
    requires ' ' !in word
    ensures Split(AlignLine(start, end, word), ' ') == [IntToString(start), IntToString(end), word]
  {
    IntToStringChars(start);
    IntToStringChars(end);
    var parts := [IntToString(start), IntToString(end), word];
    assert AlignLine(start, end, word) == Join(parts, " ") by {
      assert Join(parts[2..], " ") == word;
      assert parts[1..][1..] == parts[2..];
    }
    forall k | 0 <= k < 3 ensures ' ' !in parts[k] {
      if k < 2 {
        var n := if k == 0 then start else end;
        assert forall i :: 0 <= i < |IntToString(n)| ==> IntToString(n)[i] != ' ';
      }
    }
    SplitJoin(parts, ' ');
  }

  lemma AlignLineHasNoBreak(start: int, end: int, word: string)
    requires NoLineBreak(word)
    ensures NoLineBreak(AlignLine(start, end, word)) && |AlignLine(start, end, word)| > 0
  {
    IntToStringChars(start);
    IntToStringChars(end);
    var s := AlignLine(start, end, word);
    var a := IntToString(start);
    var b := IntToString(end);
    forall i | 0 <= i < |s| ensures !IsLineBreak(s[i]) {
      if i < |a| {
        assert s[i] == a[i];
      } else if i == |a| || i == |a| + 1 + |b| {
        assert s[i] == ' ';
      } else if i < |a| + 1 + |b| {
        assert s[i] == b[i - |a| - 1];
      } else {
        assert s[i] == word[i - |a| - |b| - 2];
      }
    }
  }

  /** A rendered line in front of parsable lines adds its word in front. */
  lemma ParseLineCons(lines: seq<string>, start: int, end: int, word: string)
    requires |lines| > 0 && lines[0] == AlignLine(start, end, word) && PlainWord(word)
    requires ParseLines(lines[1..]).Ok?
    ensures ParseLines(lines) == Ok(Prepend(word, start, end, ParseLines(lines[1..]).value))
  {
    AlignLineFields(start, end, word);
    ParseIntToString(start);
    ParseIntToString(end);
  }

  /** An alignment is its first word in front of the rest. */
  lemma PrependTail(a: Alignment)
    requires Aligned(a) && |a.words| > 0
    ensures a == Prepend(a.words[0], a.starts[0], a.ends[0], Alignment(a.words[1..], a.starts[1..], a.ends[1..]))
  {
    assert [a.words[0]] + a.words[1..] == a.words;
    assert [a.starts[0]] + a.starts[1..] == a.starts;
    assert [a.ends[0]] + a.ends[1..] == a.ends;
  }

  /** Parsing a rendered alignment line by line gives the alignment back. */
  lemma {:induction false} ParseRenderedLines(a: Alignment)
    requires Aligned(a)
    requires forall k :: 0 <= k < |a.words| ==> PlainWord(a.words[k])
    ensures ParseLines(RenderLines(a)) == Ok(a)
    decreases |a.words|
  {
    var lines := RenderLines(a);
    if |a.words| > 0 {
      var tail := Alignment(a.words[1..], a.starts[1..], a.ends[1..]);
      assert forall k :: 0 <= k < |tail.words| ==> tail.words[k] == a.words[k + 1];
      ParseRenderedLines(tail);
      var tailLines := RenderLines(tail);
      assert lines[1..] == tailLines by {
        forall k | 0 <= k < |tailLines| ensures lines[1..][k] == tailLines[k] {
          assert tail.starts[k] == a.starts[k + 1] && tail.ends[k] == a.ends[k + 1];
        }
      }
      assert lines[0] == AlignLine(a.starts[0], a.ends[0], a.words[0]);
      ParseLineCons(lines, a.starts[0], a.ends[0], a.words[0]);
      PrependTail(a);
      calc {
        ParseLines(lines);
        Ok(Prepend(a.words[0], a.starts[0], a.ends[0], ParseLines(lines[1..]).value));
        Ok(Prepend(a.words[0], a.starts[0], a.ends[0], ParseLines(tailLines).value));
        Ok(Prepend(a.words[0], a.starts[0], a.ends[0], tail));
        Ok(a);
      }
    } else {
      assert lines == [];
    }
  }

  /** Rendering an alignment and parsing it again gives the alignment back. */
  lemma ParseRenderAlign(a: Alignment)
    requires Aligned(a) && |a.words| > 0
    requires forall k :: 0 <= k < |a.words| ==> PlainWord(a.words[k])
    ensures ParseAlign(RenderAlign(a)) == Ok(a)
  {
    var lines := RenderLines(a);
    forall k | 0 <= k < |lines| ensures NoLineBreak(lines[k]) && |lines[k]| > 0 {
      AlignLineHasNoBreak(a.starts[k], a.ends[k], a.words[k]);
    }
    SplitLinesJoin(lines);
    ParseRenderedLines(a);
  }

  // -------------------------------------------------------------- paths

  /** `os.path.join(a, b)` on POSIX: an absolute `b` replaces `a`, and no
      separator is doubled after a trailing one. */
  function PathJoin(a: string, b: string): string {
    if |b| > 0 && b[0] == '/' then b
    else if |a| == 0 || a[|a| - 1] == '/' then a + b
    else a + "/" + b
  }

  /** `int(path.split("/")[-2][1:])`: the number after the first character
      of the parent directory's name. */
  function SpeakerOf(path: string): (r: Result<int>)
    ensures r.Err? ==> r.fault == IndexError || r.fault == ValueError
  {
    var parent :- Index(Split(path, '/'), -2);
    ParseInt(Drop(parent, 1))
  }

  /** `path.split("/")[-1][:-4]`: the file name without a four-character
      extension. */
  function VideoName(path: string): string {
    var parts := Split(path, '/');
    Take(parts[|parts| - 1], -4)
  }

  /** A GRID video path: a directory, then `s<speaker>`, then the video's
      name with its four-character extension. */
  function VideoPath(dir: string, speaker: nat, name: string, ext: string): string {
    dir + "/s" + IntToString(speaker) + "/" + name + ext
  }

  /** The speaker directory's name holds no separator. */
  lemma SpeakerDirPlain(speaker: nat)
    ensures '/' !in "s" + IntToString(speaker)
  {
    var n := IntToString(speaker);
    IntToStringChars(speaker);
    assert forall i :: 1 <= i < |"s" + n| ==> ("s" + n)[i] == n[i - 1];
  }

  /** A GRID video path splits into the directory's fields, the speaker
      directory and the file name. */
  lemma VideoPathFields(dir: string, speaker: nat, name: string, ext: string)
    requires '/' !in name && '/' !in ext
    ensures Split(VideoPath(dir, speaker, name, ext), '/') == Split(dir, '/') + ["s" + IntToString(speaker), name + ext]
  {
    var d := "s" + IntToString(speaker);
    var file := name + ext;
    SpeakerDirPlain(speaker);
    VideoPathShape(dir, speaker, name, ext);
    SplitLastField(dir + ['/'] + d, file, '/');
    SplitLastField(dir, d, '/');
    calc {
      Split(VideoPath(dir, speaker, name, ext), '/');
      Split((dir + ['/'] + d) + ['/'] + file, '/');
      Split(dir + ['/'] + d, '/') + [file];
      (Split(dir, '/') + [d]) + [file];
      Split(dir, '/') + [d, file];
    }
  }

  lemma VideoPathShape(dir: string, speaker: nat, name: string, ext: string)
    ensures VideoPath(dir, speaker, name, ext) == (dir + ['/'] + ("s" + IntToString(speaker))) + ['/'] + (name + ext)
  {
  }

  /** The speaker and video name come back out of a GRID video path. */
  lemma VideoPathParts(dir: string, speaker: nat, name: string, ext: string)
    requires '/' !in name && '/' !in ext && |ext| == 4
    ensures SpeakerOf(VideoPath(dir, speaker, name, ext)) == Ok(speaker)
    ensures VideoName(VideoPath(dir, speaker, name, ext)) == name
  {
    var n := IntToString(speaker);
    VideoPathFields(dir, speaker, name, ext);
    var parts := Split(VideoPath(dir, speaker, name, ext), '/');
    assert parts[|parts| - 2] == "s" + n;
    assert parts[|parts| - 1] == name + ext;
    assert Drop("s" + n, 1) == n;
    ParseIntToString(speaker);
    assert (name + ext)[..|name|] == name;
  }

  // ----------------------------------------------------------- speakers

  /** The speakers of each split: a half-open range. Any mode other than
      "train" and "val" reads as the test split. */
  function SpeakerRange(mode: string): (r: (int, int))
    ensures 0 <= r.0 < r.1 <= 34
    ensures mode != "train" && mode != "val" ==> r == (29, 34)
  {
    if mode == "train" then (0, 24)
    else if mode == "val" then (24, 29)
    else (29, 34)
  }

  predicate InRange(speaker: int, range: (int, int)) {
    range.0 <= speaker < range.1
  }

  /** No speaker belongs to two splits, and speakers 0 to 33 all belong to
      one. */
  lemma SpeakerSplits(speaker: int)
    ensures !(InRange(speaker, SpeakerRange("train")) && InRange(speaker, SpeakerRange("val")))
    ensures !(InRange(speaker, SpeakerRange("train")) && InRange(speaker, SpeakerRange("test")))
    ensures !(InRange(speaker, SpeakerRange("val")) && InRange(speaker, SpeakerRange("test")))
    ensures 0 <= speaker < 34 <==>
      InRange(speaker, SpeakerRange("train")) || InRange(speaker, SpeakerRange("val")) || InRange(speaker, SpeakerRange("test"))
  {
  }

  /** A video found by the directory listing, with the number of files in
      its mouth-crop directory (`None` when that directory does not exist). */
  datatype VideoFile = VideoFile(path: string, mouthFrames: Option<int>)

  /** `os.path.join(root, 'aligns', "s" + str(speaker), name + '.align')`. */
  function AlignPath(root: string, speaker: int, name: string): string {
    PathJoin(PathJoin(PathJoin(root, "aligns"), "s" + IntToString(speaker)), name + ".align")
  }

  /** Whether `build_file_list` keeps a video of a speaker: in the split's
      range and with exactly 75 mouth crops. */
  predicate Kept(f: VideoFile, speaker: int, range: (int, int)) {
    InRange(speaker, range) && f.mouthFrames == Some(MaxFrame)
  }

  /** `build_file_list`: the (video, alignment) pairs of the videos kept, in
      listing order. A path whose speaker does not parse fails the build. */
  function BuildFileList(root: string, range: (int, int), files: seq<VideoFile>): (r: Result<seq<(string, string)>>)
    ensures r.Ok? <==> forall i :: 0 <= i < |files| ==> SpeakerOf(files[i].path).Ok?
    ensures r.Ok? ==> |r.value| <= |files|
    ensures r.Ok? ==> forall p :: p in r.value <==> exists i :: 0 <= i < |files| && KeptPair(root, range, files[i], p)
    decreases |files|
  {
    if |files| == 0 then Ok([])
    else
      var f := files[0];
      var speaker :- SpeakerOf(f.path);
      assert forall i :: 1 <= i < |files| ==> files[i] == files[1..][i - 1];
      var rest :- BuildFileList(root, range, files[1..]);
      var r := if Kept(f, speaker, range) then [(f.path, AlignPath(root, speaker, VideoName(f.path)))] + rest else rest;
      KeptPairsStep(root, range, files, rest, r);
      Ok(r)
  }

  /** The pairs of a list are those of its head's pair (if kept) and of
      its tail's pairs. */
  lemma KeptPairsStep(root: string, range: (int, int), files: seq<VideoFile>, rest: seq<(string, string)>, r: seq<(string, string)>)
    requires |files| > 0 && SpeakerOf(files[0].path).Ok?
    requires forall p :: p in rest <==> exists i :: 0 <= i < |files[1..]| && KeptPair(root, range, files[1..][i], p)
    requires (var f := files[0]; var speaker := SpeakerOf(f.path).value;
      r == if Kept(f, speaker, range) then [(f.path, AlignPath(root, speaker, VideoName(f.path)))] + rest else rest)
    ensures forall p :: p in r <==> exists i :: 0 <= i < |files| && KeptPair(root, range, files[i], p)
  {
    forall p | p in r ensures exists i :: 0 <= i < |files| && KeptPair(root, range, files[i], p) {
      if p !in rest {
        assert KeptPair(root, range, files[0], p);
      } else {
        var i :| 0 <= i < |files[1..]| && KeptPair(root, range, files[1..][i], p);
        assert KeptPair(root, range, files[i + 1], p);
      }
    }
    forall p | exists i :: 0 <= i < |files| && KeptPair(root, range, files[i], p) ensures p in r {
      var i :| 0 <= i < |files| && KeptPair(root, range, files[i], p);
      if i > 0 {
        assert KeptPair(root, range, files[1..][i - 1], p);
      }
    }
  }

  /** The pair `build_file_list` emits for a kept video. */
  predicate KeptPair(root: string, range: (int, int), f: VideoFile, p: (string, string)) {
    SpeakerOf(f.path).Ok? && Kept(f, SpeakerOf(f.path).value, range)
    && p == (f.path, AlignPath(root, SpeakerOf(f.path).value, VideoName(f.path)))
  }
}
