/** The LRS2 loader (src/data/lrs2.py): the fixed character table, the
    file list, the word-window crop used for pretraining, and the
    transcript extraction and encoding of `__getitem__`. */
module Lrs2 {
  import opened Results
  import opened PySeq
  import opened PyText
  import opened Vocab

  // ---------------------------------------------------- character table

  /** `string.ascii_lowercase`. */
  const Letters: string := Run('a' as int, 26)

  /** `"".join([str(i) for i in range(10)])`: each `str(i)` is one digit. */
  const Numbers: string := Run('0' as int, 10)

  /** The `n` characters with consecutive codes from `lo`. */
  function Run(lo: nat, n: nat): (r: string)
    requires lo + n <= 0xD800
    ensures |r| == n && forall i :: 0 <= i < n ==> r[i] as int == lo + i
  {
    seq(n, i requires 0 <= i < n => (lo + i) as char)
  }

  /** `self.characters`: space and apostrophe, the letters, the digits. */
  const Characters: string := " '" + Letters + Numbers

  /** `self.char2int`, built by inverting `dict(enumerate(characters))`. */
  const Char2Int: map<char, int> := Enumerate(NoChars, Characters, 0)

  const NoChars: map<char, int> := map[]

  /** `int2char`, the local `dict(enumerate(characters))`. */
  const Int2Char: map<int, char> := map i | 0 <= i < |Characters| :: Characters[i]

  /** The table spelled out, and which characters it holds. */
  lemma CharactersSpelled()
    ensures Letters == "abcdefghijklmnopqrstuvwxyz" && Numbers == "0123456789"
    ensures |Characters| == 38
    ensures forall c :: c in Characters <==> c == ' ' || c == '\'' || 'a' <= c <= 'z' || '0' <= c <= '9'
  {
    forall c | 'a' <= c <= 'z' ensures c in Letters {
      assert Letters[c as int - 'a' as int] == c;
    }
    forall c | '0' <= c <= '9' ensures c in Numbers {
      assert Numbers[c as int - '0' as int] == c;
    }
    assert forall c :: c in Characters <==> c in " '" || c in Letters || c in Numbers;
  }

  /** No character appears twice: the four blocks are increasing and their
      code ranges do not meet. */
  lemma CharactersDistinct()
    ensures Distinct(Characters)
  {
    forall i, j | 0 <= i < j < |Characters| ensures Characters[i] != Characters[j] {
      assert i < 2 ==> Characters[i] == " '"[i];
      assert 2 <= i < 28 ==> Characters[i] == Letters[i - 2];
      assert 28 <= i ==> Characters[i] == Numbers[i - 28];
      assert 2 <= j < 28 ==> Characters[j] == Letters[j - 2];
      assert 28 <= j ==> Characters[j] == Numbers[j - 28];
    }
  }

  /** `char2int` is a bijection from the 38 characters onto 0..37, and
      `int2char` is its inverse. */
  lemma CharTableBijection()
    ensures forall c :: c in Char2Int <==> c in Characters
    ensures forall i :: 0 <= i < |Characters| ==> Char2Int[Characters[i]] == i
    ensures forall c :: c in Char2Int ==> (0 <= Char2Int[c] < |Characters| && Int2Char[Char2Int[c]] == c)
    ensures forall i :: i in Int2Char <==> 0 <= i < |Characters|
    ensures forall i :: i in Int2Char ==> Int2Char[i] in Char2Int && Char2Int[Int2Char[i]] == i
  {
    CharactersDistinct();
    EnumerateValues(NoChars, Characters, 0);
    forall c | c in Char2Int ensures 0 <= Char2Int[c] < |Characters| && Int2Char[Char2Int[c]] == c {
      var i := IndexOf(Characters, c);
      assert Char2Int[Characters[i]] == i;
    }
  }

  /** Encoding with `char2int` and reading back through `int2char` gives
      the text back; it fails exactly on a character outside the table. */
  lemma EncodeRoundTrip(s: string)
    ensures Encode(Char2Int, s).Ok? <==> forall i :: 0 <= i < |s| ==> s[i] in Characters
    ensures Encode(Char2Int, s).Ok? ==> forall i :: 0 <= i < |s| ==>
      Encode(Char2Int, s).value[i] in Int2Char && Int2Char[Encode(Char2Int, s).value[i]] == s[i]
  {
    CharTableBijection();
    if Encode(Char2Int, s).Ok? {
      forall i | 0 <= i < |s| ensures Int2Char[Encode(Char2Int, s).value[i]] == s[i] {
        var c := s[i];
        assert Encode(Char2Int, s).value[i] == Char2Int[c];
      }
    }
  }

  // ---------------------------------------------------------- file list

  datatype FileList = FileList(paths: seq<string>, names: seq<string>)

  /** `build_file_list`, given the list file's content: every line names a
      pretraining clip as it stands, while a main-set line keeps only its
      first space-separated field. */
  function BuildFileList(directory: string, pretrain: bool, content: string): (r: FileList)
    ensures |r.paths| == |r.names| == |SplitLines(content)|
    ensures pretrain ==> forall i :: 0 <= i < |r.names| ==> (r.names[i] == SplitLines(content)[i]
      && r.paths[i] == directory + "/mvlrs_v1/pretrain/" + r.names[i])
    ensures !pretrain ==> forall i :: 0 <= i < |r.names| ==> (FirstField(SplitLines(content)[i], r.names[i])
      && r.paths[i] == directory + "/mvlrs_v1/main/" + r.names[i])
  {
    var lines := SplitLines(content);
    var names := if pretrain then lines else seq(|lines|, i requires 0 <= i < |lines| => Split(lines[i], ' ')[0]);
    var dir := if pretrain then directory + "/mvlrs_v1/pretrain/" else directory + "/mvlrs_v1/main/";
    forall i | 0 <= i < |lines| && !pretrain ensures FirstField(lines[i], names[i]) {
      FirstFieldOfSplit(lines[i]);
    }
    FileList(seq(|names|, i requires 0 <= i < |names| => dir + names[i]), names)
  }

  /** `name` is the text of `line` before its first space, or all of it. */
  predicate FirstField(line: string, name: string) {
    ' ' !in name && name <= line && (|name| == |line| || line[|name|] == ' ')
  }

  lemma FirstFieldOfSplit(line: string)
    ensures FirstField(line, Split(line, ' ')[0])
  {
  }

  // ----------------------------------------------- pretraining word crop

  /** A word of a pretraining transcript with its start and end in seconds. */
  datatype TimedWord = TimedWord(word: string, start: real, stop: real)

  /** `word, start, stop, _ = line.split(" ")` followed by two `float`s: any
      other number of fields is a ValueError, as is a malformed time. */
  function ParseWordLine(line: string): (r: Result<TimedWord>)
    ensures r.Err? ==> r.fault == ValueError
    ensures r.Ok? <==> (|Split(line, ' ')| == 4
      && ParseDecimal(Split(line, ' ')[1]).Ok? && ParseDecimal(Split(line, ' ')[2]).Ok?)
    ensures r.Ok? ==> (r.value.word == Split(line, ' ')[0]
      && r.value.start == ParseDecimal(Split(line, ' ')[1]).value
      && r.value.stop == ParseDecimal(Split(line, ' ')[2]).value)
  {
    var fields := Split(line, ' ');
    if |fields| != 4 then Err(ValueError)
    else
      var start :- ParseDecimal(fields[1]);
      var stop :- ParseDecimal(fields[2]);
      Ok(TimedWord(fields[0], start, stop))
  }

  predicate WordLinesParse(lines: seq<string>) {
    forall k :: 0 <= k < |lines| ==> ParseWordLine(lines[k]).Ok?
  }

  /** `words` are the parses of `lines`, one per line, in order. */
  predicate ParsedFrom(words: seq<TimedWord>, lines: seq<string>)
    requires WordLinesParse(lines)
  {
    |words| == |lines| && forall k :: 0 <= k < |lines| ==> words[k] == ParseWordLine(lines[k]).value
  }

  /** `for line in lines: ...` over the word lines: the words in order,
      or the ValueError of the first line that does not parse. */
  function ParseWordLines(lines: seq<string>): (r: Result<seq<TimedWord>>)
    ensures r.Ok? <==> WordLinesParse(lines)
    ensures r.Err? ==> r.fault == ValueError
    ensures r.Ok? ==> ParsedFrom(r.value, lines)
  {
    var rs := seq(|lines|, k requires 0 <= k < |lines| => ParseWordLine(lines[k]));
    assert AllOk(rs) <==> WordLinesParse(lines) by {
      assert forall k :: 0 <= k < |lines| ==> rs[k] == ParseWordLine(lines[k]);
    }
    var r := Collect(rs);
    assert r.Err? ==> r.fault == ValueError by {
      if r.Err? {
        var k :| 0 <= k < |rs| && AllOk(rs[..k]) && rs[k] == Err(r.fault);
        assert ParseWordLine(lines[k]).Err?;
      }
    }
    r
  }

  /** The header lines of a pretraining transcript before the word lines. */
  const HeaderLines: int := 4

  /** The number of words and the first word of the crop:
      `min(randint(1, pretrain_words), len(words))` and
      `randint(0, len(words) - num_words)`. */
  function PickWindow(count: nat, pretrainWords: int, drawCount: real, drawStart: real): (r: Result<(nat, nat)>)
    requires 0.0 <= drawCount < 1.0 && 0.0 <= drawStart < 1.0
    ensures r.Ok? <==> pretrainWords >= 1
    ensures r.Err? ==> r.fault == ValueError
    ensures r.Ok? ==> r.value.0 + r.value.1 <= count
    ensures r.Ok? ==> r.value.1 == Min(RandInt(1, pretrainWords, drawCount).value, count)
    ensures r.Ok? ==> r.value.1 <= pretrainWords && (r.value.1 >= 1 || count == 0)
  {
    var k :- RandInt(1, pretrainWords, drawCount);
    var num := Min(k, count);
    var first :- RandInt(0, count - num, drawStart);
    Ok((first, num))
  }

  function Min(a: int, b: int): int {
    if a <= b then a else b
  }

  /** Every crop of between 1 and `pretrain_words` words inside the
      transcript is drawn by some pair of draws. */
  lemma PickWindowCovers(count: nat, pretrainWords: int, first: nat, num: nat) returns (drawCount: real, drawStart: real)
    requires 1 <= num <= pretrainWords && first + num <= count
    ensures 0.0 <= drawCount < 1.0 && 0.0 <= drawStart < 1.0
    ensures PickWindow(count, pretrainWords, drawCount, drawStart) == Ok((first, num))
  {
    drawCount := RandIntCovers(1, pretrainWords, num);
    drawStart := RandIntCovers(0, count - num, first);
  }

  /** `sample_start`: set from each word while it is still zero, so it is
      the first non-zero start (or zero). */
  function SampleStart(words: seq<TimedWord>): (r: real)
    ensures r == 0.0 || exists i :: 0 <= i < |words| && words[i].start == r
    decreases |words|
  {
    if |words| == 0 then 0.0
    else
      var init := words[..|words| - 1];
      var s := SampleStart(init);
      assert forall i :: 0 <= i < |init| ==> init[i] == words[i];
      if s == 0.0 then words[|words| - 1].start else s
  }

  /** `sample_end`: raised to every larger end, starting from zero. */
  function SampleEnd(words: seq<TimedWord>): (r: real)
    ensures r >= 0.0
    decreases |words|
  {
    if |words| == 0 then 0.0
    else
      var e := SampleEnd(words[..|words| - 1]);
      if words[|words| - 1].stop > e then words[|words| - 1].stop else e
  }

  /** `content = content + " " + word` over the crop. */
  function SpacedWords(words: seq<TimedWord>): (r: string)
    ensures |words| == 0 <==> r == ""
    ensures |words| > 0 ==> r[0] == ' ' && |r| >= |words|
    decreases |words|
  {
    if |words| == 0 then "" else SpacedWords(words[..|words| - 1]) + " " + words[|words| - 1].word
  }

  function WordTexts(words: seq<TimedWord>): seq<string> {
    seq(|words|, i requires 0 <= i < |words| => words[i].word)
  }

  /** The start is the first non-zero word start, or zero when there is
      none. */
  lemma {:induction false} SampleStartIsFirstNonZero(words: seq<TimedWord>)
    ensures (forall i :: 0 <= i < |words| ==> words[i].start == 0.0) ==> SampleStart(words) == 0.0
    ensures forall i :: (0 <= i < |words| && words[i].start != 0.0
      && (forall j :: 0 <= j < i ==> words[j].start == 0.0)) ==> SampleStart(words) == words[i].start
    decreases |words|
  {
    if |words| > 0 {
      var init := words[..|words| - 1];
      SampleStartIsFirstNonZero(init);
      assert forall i :: 0 <= i < |init| ==> init[i] == words[i];
    }
  }

  /** The end is the largest word end, or zero when every end is below
      zero. */
  lemma {:induction false} SampleEndIsMaximum(words: seq<TimedWord>)
    ensures SampleEnd(words) >= 0.0
    ensures forall i :: 0 <= i < |words| ==> words[i].stop <= SampleEnd(words)
    ensures SampleEnd(words) == 0.0 || exists i :: 0 <= i < |words| && words[i].stop == SampleEnd(words)
    decreases |words|
  {
    if |words| > 0 {
      var init := words[..|words| - 1];
      SampleEndIsMaximum(init);
      assert forall i :: 0 <= i < |init| ==> init[i] == words[i];
      if SampleEnd(words) != 0.0 && SampleEnd(words) == SampleEnd(init) {
        var i :| 0 <= i < |init| && init[i].stop == SampleEnd(init);
        assert words[i].stop == SampleEnd(words);
      }
    }
  }

  /** The built content is the words joined by single spaces, behind one
      leading space. */
  lemma {:induction false} SpacedWordsJoin(words: seq<TimedWord>)
    ensures |words| > 0 ==> SpacedWords(words) == " " + Join(WordTexts(words), " ")
    ensures |words| == 0 ==> SpacedWords(words) == ""
    decreases |words|
  {
    if |words| > 1 {
      var init := words[..|words| - 1];
      SpacedWordsJoin(init);
      assert WordTexts(words) == WordTexts(init) + [words[|words| - 1].word];
      JoinAppend(WordTexts(init), words[|words| - 1].word, " ");
    } else if |words| == 1 {
      assert WordTexts(words) == [words[0].word];
    }
  }

  /** `int(x)`: truncation toward zero. */
  function Trunc(x: real): (r: int)
    ensures x >= 0.0 ==> r as real <= x < r as real + 1.0
    ensures x < 0.0 ==> r as real - 1.0 < x <= r as real
  {
    if x >= 0.0 then x.Floor else -((-x).Floor)
  }

  /** `math.ceil(x)`. */
  function Ceil(x: real): (r: int)
    ensures r as real - 1.0 < x <= r as real
  {
    -((-x).Floor)
  }

  /** A time in seconds as a position in frames: `time * fps`. */
  function AtRate(time: real, fps: real): real
  {
    time * fps
  }

  /** What `get_pretrain_words` returns. */
  datatype Crop = Crop(content: string, startFrame: int, stopFrame: int)

  /** `start_frame = int(x)` and `stop_frame = math.ceil(y)` for the start
      and end times already scaled by the frame rate, the stop pulled back
      when the range is longer than `max_timesteps`. For a non-negative
      start the first frame is at or before it; the stop frame is at or
      after the end unless the range was cut. */
  function Frames(x: real, y: real, maxTimesteps: int): (r: (int, int))
    ensures r.1 - r.0 <= maxTimesteps
    ensures x >= 0.0 ==> r.0 as real <= x < r.0 as real + 1.0
    ensures r.1 == r.0 + maxTimesteps || (y <= r.1 as real && r.1 as real < y + 1.0)
    ensures r.1 as real < y + 1.0
  {
    var start := Trunc(x);
    var stop := Ceil(y);
    (start, if stop - start > maxTimesteps then start + maxTimesteps else stop)
  }

  /** The crop of a window of words: its text with the edges stripped and
      the frames of its first non-zero start and its largest end. */
  function WindowCrop(fps: real, maxTimesteps: int, window: seq<TimedWord>): (c: Crop)
    ensures c.stopFrame - c.startFrame <= maxTimesteps
    ensures (c.startFrame, c.stopFrame) == Frames(AtRate(SampleStart(window), fps), AtRate(SampleEnd(window), fps), maxTimesteps)
    ensures NoEdgeSpace(c.content)
    ensures c.content == Strip(SpacedWords(window))
    ensures NoEdgeSpace(Join(WordTexts(window), " ")) ==> c.content == Join(WordTexts(window), " ")
  {
    CropText(window);
    var frames := Frames(AtRate(SampleStart(window), fps), AtRate(SampleEnd(window), fps), maxTimesteps);
    Crop(Strip(SpacedWords(window)), frames.0, frames.1)
  }

  /** The stripped content has no edge space, and is the words joined by
      single spaces when those have none. */
  lemma CropText(window: seq<TimedWord>)
    ensures NoEdgeSpace(Strip(SpacedWords(window)))
    ensures NoEdgeSpace(Join(WordTexts(window), " ")) ==> Strip(SpacedWords(window)) == Join(WordTexts(window), " ")
  {
    StripSpec(SpacedWords(window));
    if NoEdgeSpace(Join(WordTexts(window), " ")) {
      CropContent(window);
    }
  }

  /** The words of the drawn window: `words[start:start + num_words]`
      for the draw of `PickWindow`. */
  function DrawnWords(words: seq<TimedWord>, pretrainWords: int, drawCount: real, drawStart: real): (r: Result<seq<TimedWord>>)
    requires 0.0 <= drawCount < 1.0 && 0.0 <= drawStart < 1.0
    ensures r.Ok? <==> pretrainWords >= 1
    ensures r.Err? ==> r.fault == ValueError
    ensures r.Ok? ==> (var w := PickWindow(|words|, pretrainWords, drawCount, drawStart).value;
      r.value == words[w.0..w.0 + w.1])
  {
    var (first, num) :- PickWindow(|words|, pretrainWords, drawCount, drawStart);
    SliceInRange(words, first, first + num);
    Ok(Slice(words, first, first + num))
  }

  /** `get_pretrain_words`: the word lines after the header are parsed, a
      window of words is drawn, and its text and frame range are returned,
      the range cut to at most `max_timesteps` frames. */
  function PretrainWords(fps: real, content: string, pretrainWords: int, maxTimesteps: int,
                         drawCount: real, drawStart: real): (r: Result<Crop>)
    requires 0.0 <= drawCount < 1.0 && 0.0 <= drawStart < 1.0
    ensures r.Err? ==> r.fault == ValueError
    ensures r.Ok? <==> ParseWordLines(Drop(SplitLines(content), HeaderLines)).Ok? && pretrainWords >= 1
    ensures r.Ok? ==> r.value.stopFrame - r.value.startFrame <= maxTimesteps
    ensures r.Ok? ==> NoEdgeSpace(r.value.content)
    ensures r.Ok? ==> (var words := ParseWordLines(Drop(SplitLines(content), HeaderLines)).value;
      r.value == WindowCrop(fps, maxTimesteps, DrawnWords(words, pretrainWords, drawCount, drawStart).value))
  {
    var words :- ParseWordLines(Drop(SplitLines(content), HeaderLines));
    var window :- DrawnWords(words, pretrainWords, drawCount, drawStart);
    Ok(WindowCrop(fps, maxTimesteps, window))
  }

  /** When the words carry no whitespace at their ends (the usual case),
      the crop's content is exactly the words joined by single spaces. */
  lemma CropContent(window: seq<TimedWord>)
    requires NoEdgeSpace(Join(WordTexts(window), " "))
    ensures Strip(SpacedWords(window)) == Join(WordTexts(window), " ")
  {
    SpacedWordsJoin(window);
    if |window| > 0 {
      StripLeadingSpace(Join(WordTexts(window), " "));
    }
  }

  // ---------------------------------------------------------- get item

  /** What `__getitem__` returns apart from the frames: the transcript, its
      encoding and the number of frames. */
  datatype Item = Item(text: string, encoded: seq<int>, inputLength: int)

  /** `__getitem__` for a clip of `frames` frames whose transcript file
      holds `content`. In the main set the transcript is the first line
      after its 7-character `Text:  ` prefix; in pretraining it is the drawn
      crop and the clip is cut to the crop's frames. Too many frames fail
      the assertion; the text is lowercased and every character must be in
      the table. */
  function GetItem(pretrain: bool, content: string, frames: nat, fps: real, pretrainWords: int, maxTimesteps: int,
                   drawCount: real, drawStart: real): (r: Result<Item>)
    requires 0.0 <= drawCount < 1.0 && 0.0 <= drawStart < 1.0
    ensures r.Ok? ==> 0 <= r.value.inputLength <= maxTimesteps
    ensures r.Ok? ==> (Transcript(pretrain, content, fps, pretrainWords, maxTimesteps, drawCount, drawStart).Ok?
      && r.value.text == Lower(Transcript(pretrain, content, fps, pretrainWords, maxTimesteps, drawCount, drawStart).value))
    ensures r.Ok? ==> |r.value.encoded| == |r.value.text| && forall i :: 0 <= i < |r.value.text| ==>
      (r.value.text[i] in Char2Int && r.value.encoded[i] == Char2Int[r.value.text[i]])
    ensures !pretrain ==> (r.Ok? ==> r.value.inputLength == frames)
    ensures pretrain && r.Ok? ==>
      r.value.inputLength == ClipLength(frames, PretrainWords(fps, content, pretrainWords, maxTimesteps, drawCount, drawStart).value)
    ensures !pretrain ==> (r.Ok? <==> (|SplitLines(content)| > 0 && frames <= maxTimesteps
      && TableText(Lower(Drop(SplitLines(content)[0], 7)))))
    ensures pretrain ==> (r.Ok? <==> (PretrainWords(fps, content, pretrainWords, maxTimesteps, drawCount, drawStart).Ok?
      && ClipLength(frames, PretrainWords(fps, content, pretrainWords, maxTimesteps, drawCount, drawStart).value) <= maxTimesteps
      && TableText(Lower(PretrainWords(fps, content, pretrainWords, maxTimesteps, drawCount, drawStart).value.content))))
    ensures !pretrain && |SplitLines(content)| == 0 ==> r == Err(IndexError)
    ensures Transcript(pretrain, content, fps, pretrainWords, maxTimesteps, drawCount, drawStart).Err? ==>
      r == Err(Transcript(pretrain, content, fps, pretrainWords, maxTimesteps, drawCount, drawStart).fault)
    ensures !pretrain && |SplitLines(content)| > 0 && frames > maxTimesteps ==> r == Err(AssertionError)
    ensures (pretrain && PretrainWords(fps, content, pretrainWords, maxTimesteps, drawCount, drawStart).Ok?
      && ClipLength(frames, PretrainWords(fps, content, pretrainWords, maxTimesteps, drawCount, drawStart).value) > maxTimesteps)
      ==> r == Err(AssertionError)
    ensures (r.Err? && Transcript(pretrain, content, fps, pretrainWords, maxTimesteps, drawCount, drawStart).Ok?
      && r.fault != AssertionError) ==> r.fault == KeyError
    ensures r.Err? ==> r.fault in {IndexError, ValueError, AssertionError, KeyError}
  {
    var text :- Transcript(pretrain, content, fps, pretrainWords, maxTimesteps, drawCount, drawStart);
    var length := if pretrain then ClipLength(frames, PretrainWords(fps, content, pretrainWords, maxTimesteps, drawCount, drawStart).value)
      else frames;
    if length > maxTimesteps then Err(AssertionError)
    else
      var lowered := Lower(text);
      var encoded :- Encode(Char2Int, lowered);
      CharTableBijection();
      Ok(Item(lowered, encoded, length))
  }

  /** Every character of `text` has a `char2int` id. */
  predicate TableText(text: string) {
    forall i :: 0 <= i < |text| ==> text[i] in Char2Int
  }

  /** The number of frames of `video[start_frame:stop_frame]`. */
  function ClipLength(frames: nat, crop: Crop): nat {
    SliceLength(frames, crop.startFrame, crop.stopFrame)
  }

  /** The transcript `__getitem__` works on, before lowercasing. */
  function Transcript(pretrain: bool, content: string, fps: real, pretrainWords: int, maxTimesteps: int,
                      drawCount: real, drawStart: real): (r: Result<string>)
    requires 0.0 <= drawCount < 1.0 && 0.0 <= drawStart < 1.0
    ensures pretrain ==> (r.Ok? <==> PretrainWords(fps, content, pretrainWords, maxTimesteps, drawCount, drawStart).Ok?)
    ensures pretrain && r.Ok? ==> r.value == PretrainWords(fps, content, pretrainWords, maxTimesteps, drawCount, drawStart).value.content
    ensures !pretrain ==> (r.Ok? <==> |SplitLines(content)| > 0)
    ensures !pretrain && r.Ok? ==> r.value == Drop(SplitLines(content)[0], 7)
    ensures r.Err? ==> r.fault in {IndexError, ValueError}
  {
    if pretrain then
      var crop :- PretrainWords(fps, content, pretrainWords, maxTimesteps, drawCount, drawStart);
      Ok(crop.content)
    else
      var first :- Index(SplitLines(content), 0);
      Ok(Drop(first, 7))
  }

  /** A main-set transcript whose letters, digits, spaces and apostrophes
      are all the characters it has encodes without error, whatever the
      case of its letters. */
  lemma MainTranscriptEncodes(content: string, frames: nat, fps: real, pretrainWords: int, maxTimesteps: int,
                              drawCount: real, drawStart: real)
    requires 0.0 <= drawCount < 1.0 && 0.0 <= drawStart < 1.0
    requires |SplitLines(content)| > 0 && frames <= maxTimesteps
    requires forall c :: c in Drop(SplitLines(content)[0], 7) ==> c in Characters || 'A' <= c <= 'Z'
    ensures GetItem(false, content, frames, fps, pretrainWords, maxTimesteps, drawCount, drawStart).Ok?
  {
    var text := Drop(SplitLines(content)[0], 7);
    CharactersSpelled();
    var lowered := Lower(text);
    forall i | 0 <= i < |lowered| ensures lowered[i] in Char2Int {
      assert text[i] in text;
      CharTableBijection();
    }
  }
}
