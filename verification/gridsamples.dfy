/** The samples of the GRID loader (src/data/grid.py): `preprocess` turns
    every video into single-word samples and one whole-sentence sample and
    builds the character vocabulary; `load_sample` picks a sample's words
    and frame window and encodes its text. */
module GridSamples {
  import opened Results
  import opened PySeq
  import opened PyText
  import opened Vocab
  import opened Grid

  /** A dataset entry: the video's speaker, id and alignment, the mode (1
      for one word, 7 for the whole sentence) and, for single words, the
      word (counted from 1). The whole-sentence entry has no `word_start`. */
  datatype Sample = Sample(speaker: int, videoId: string, align: Alignment, mode: int, wordStart: Option<int>)

  /** The first single word `preprocess` tries and the one past its last. */
  const FirstWord: int := 1
  const PastLastWord: int := 7

  /** The mode of the whole-sentence sample. */
  const SentenceMode: int := 7

  /** The single-word samples for the words `start..6` whose window holds at
      least three frames. */
  function SingleWordSamples(speaker: int, videoId: string, a: Alignment, start: int): (r: Result<seq<Sample>>)
    requires Aligned(a) && FirstWord <= start <= PastLastWord
    ensures r.Ok? <==> start == PastLastWord || |a.words| >= PastLastWord - 1
    ensures r.Err? ==> r.fault == IndexError
    ensures r.Ok? ==> |r.value| <= PastLastWord - start
    ensures r.Ok? ==> AllSingleWordsFrom(r.value, speaker, videoId, a, start)
    ensures r.Ok? ==> StartsAscending(r.value)
    decreases PastLastWord - start
  {
    if start == PastLastWord then Ok([])
    else
      var w :- Window(a.starts, a.ends, start, start);
      var rest :- SingleWordSamples(speaker, videoId, a, start + 1);
      if LongEnough(w) then
        var first := Sample(speaker, videoId, a, 1, Some(start));
        SingleWordPrepend(first, rest, speaker, videoId, a, start);
        Ok([first] + rest)
      else
        assert AllSingleWordsFrom(rest, speaker, videoId, a, start);
        Ok(rest)
  }

  /** Every sample is a single word of the video, numbered `start` or
      later. */
  predicate AllSingleWordsFrom(samples: seq<Sample>, speaker: int, videoId: string, a: Alignment, start: int)
    requires Aligned(a)
  {
    forall k :: 0 <= k < |samples| ==> SingleWordFrom(samples[k], speaker, videoId, a, start)
  }

  /** A qualifying word put in front of the later words' samples keeps them
      single words in increasing order. */
  lemma SingleWordPrepend(first: Sample, rest: seq<Sample>, speaker: int, videoId: string, a: Alignment, start: int)
    requires Aligned(a) && SingleWordFrom(first, speaker, videoId, a, start) && first.wordStart == Some(start)
    requires AllSingleWordsFrom(rest, speaker, videoId, a, start + 1) && StartsAscending(rest)
    ensures AllSingleWordsFrom([first] + rest, speaker, videoId, a, start)
    ensures StartsAscending([first] + rest)
  {
    var samples := [first] + rest;
    assert forall k :: 1 <= k < |samples| ==> samples[k] == rest[k - 1];
  }

  /** The samples are single words in strictly increasing word order, so
      no word has two of them. */
  predicate StartsAscending(samples: seq<Sample>) {
    forall i, j :: 0 <= i < j < |samples| ==>
      samples[i].wordStart.Some? && samples[j].wordStart.Some?
      && samples[i].wordStart.value < samples[j].wordStart.value
  }

  /** A single-word sample of the given video: mode 1, a word among the
      first six, and a window of at least three frames. */
  predicate SingleWordSample(s: Sample, speaker: int, videoId: string, a: Alignment)
    requires Aligned(a)
  {
    s.speaker == speaker && s.videoId == videoId && s.align == a && s.mode == 1
    && s.wordStart.Some? && FirstWord <= s.wordStart.value < PastLastWord && s.wordStart.value <= |a.words|
    && LongEnough(Window(a.starts, a.ends, s.wordStart.value, s.wordStart.value).value)
  }

  predicate SingleWordFrom(s: Sample, speaker: int, videoId: string, a: Alignment, start: int)
    requires Aligned(a)
  {
    SingleWordSample(s, speaker, videoId, a) && start <= s.wordStart.value
  }

  /** No word with a long enough window is dropped. */
  lemma {:induction false} SingleWordSamplesComplete(speaker: int, videoId: string, a: Alignment, start: int, w: int)
    requires Aligned(a) && FirstWord <= start <= w < PastLastWord && |a.words| >= PastLastWord - 1
    requires LongEnough(Window(a.starts, a.ends, w, w).value)
    ensures Sample(speaker, videoId, a, 1, Some(w)) in SingleWordSamples(speaker, videoId, a, start).value
    decreases PastLastWord - start
  {
    if start < w {
      SingleWordSamplesComplete(speaker, videoId, a, start + 1, w);
    }
  }

  /** The samples of one video: the single words with a long enough window,
      then the whole sentence. Fewer than six words is an IndexError. */
  function VideoSamples(speaker: int, videoId: string, a: Alignment): (r: Result<seq<Sample>>)
    requires Aligned(a)
    ensures r.Ok? <==> |a.words| >= PastLastWord - 1
    ensures r.Err? ==> r.fault == IndexError
    ensures r.Ok? ==> 1 <= |r.value| <= 7
    ensures r.Ok? ==> r.value[|r.value| - 1] == Sample(speaker, videoId, a, SentenceMode, None)
    ensures r.Ok? ==> forall k :: 0 <= k < |r.value| - 1 ==> SingleWordSample(r.value[k], speaker, videoId, a)
    ensures r.Ok? ==> StartsAscending(r.value[..|r.value| - 1])
    ensures r.Ok? ==> forall k :: 0 <= k < |r.value| ==> r.value[k].align == a
  {
    var singles :- SingleWordSamples(speaker, videoId, a, FirstWord);
    var r := singles + [Sample(speaker, videoId, a, SentenceMode, None)];
    assert forall k :: 0 <= k < |singles| ==> r[k] == singles[k];
    Ok(r)
  }

  /** Every single word among the first six with a window of at least
      three frames has its sample. */
  lemma VideoSamplesComplete(speaker: int, videoId: string, a: Alignment, w: int)
    requires Aligned(a) && VideoSamples(speaker, videoId, a).Ok?
    requires FirstWord <= w < PastLastWord && LongEnough(Window(a.starts, a.ends, w, w).value)
    ensures Sample(speaker, videoId, a, 1, Some(w)) in VideoSamples(speaker, videoId, a).value
  {
    SingleWordSamplesComplete(speaker, videoId, a, FirstWord, w);
  }

  /** The words of an alignment are all among `words`. */
  predicate WordsAmong(a: Alignment, words: seq<string>) {
    forall j :: 0 <= j < |a.words| ==> a.words[j] in words
  }

  /** A video `preprocess` gets through: its speaker directory parses, its
      alignment file parses, and it holds at least six words. */
  predicate VideoLoads(file: (string, string), content: string) {
    SpeakerOf(file.0).Ok? && ParseAlign(content).Ok? && |ParseAlign(content).value.words| >= PastLastWord - 1
  }

  predicate VideosLoad(files: seq<(string, string)>, contents: seq<string>)
    requires |contents| == |files|
  {
    forall i :: 0 <= i < |files| ==> VideoLoads(files[i], contents[i])
  }

  /** The samples of one video and the words of its alignment. */
  function LoadVideo(file: (string, string), content: string): (r: Result<(seq<Sample>, seq<string>)>)
    ensures r.Ok? <==> VideoLoads(file, content)
    ensures r.Err? ==> r.fault == IndexError || r.fault == ValueError
    ensures r.Ok? ==> 1 <= |r.value.0| <= 7
    ensures r.Ok? ==> SamplesAligned(r.value.0) && SamplesAmong(r.value.0, r.value.1)
  {
    var speaker :- SpeakerOf(file.0);
    var a :- ParseAlign(content);
    var samples :- VideoSamples(speaker, VideoName(file.0), a);
    Ok((samples, a.words))
  }

  /** Every sample's alignment is consistent. */
  predicate SamplesAligned(samples: seq<Sample>) {
    forall k :: 0 <= k < |samples| ==> Aligned(samples[k].align)
  }

  /** Every sample's words are among `words`. */
  predicate SamplesAmong(samples: seq<Sample>, words: seq<string>) {
    forall k :: 0 <= k < |samples| ==> WordsAmong(samples[k].align, words)
  }

  /** The samples and words of all videos, in file-list order. */
  function VideosSamples(files: seq<(string, string)>, contents: seq<string>): (r: Result<(seq<Sample>, seq<string>)>)
    requires |contents| == |files|
    ensures r.Ok? <==> VideosLoad(files, contents)
    ensures r.Err? ==> r.fault == IndexError || r.fault == ValueError
    ensures r.Ok? ==> |r.value.0| <= 7 * |files|
    ensures r.Ok? ==> SamplesAligned(r.value.0) && SamplesAmong(r.value.0, r.value.1)
    decreases |files|
  {
    if |files| == 0 then Ok(([], []))
    else
      VideosLoadStep(files, contents);
      var first :- LoadVideo(files[0], contents[0]);
      var rest :- VideosSamples(files[1..], contents[1..]);
      AmongExtended(first.0, first.1, rest.0, rest.1);
      Ok((first.0 + rest.0, first.1 + rest.1))
  }

  /** All videos load when the first does and all the others do. */
  lemma VideosLoadStep(files: seq<(string, string)>, contents: seq<string>)
    requires |contents| == |files| > 0
    ensures VideosLoad(files, contents) <==> VideoLoads(files[0], contents[0]) && VideosLoad(files[1..], contents[1..])
  {
    assert forall i :: 1 <= i < |files| ==> files[i] == files[1..][i - 1] && contents[i] == contents[1..][i - 1];
  }

  /** Concatenating the samples of two word lists keeps both facts for the
      concatenated word list. */
  lemma AmongExtended(samples: seq<Sample>, words: seq<string>, rest: seq<Sample>, restWords: seq<string>)
    requires SamplesAligned(samples) && SamplesAmong(samples, words)
    requires SamplesAligned(rest) && SamplesAmong(rest, restWords)
    ensures SamplesAligned(samples + rest) && SamplesAmong(samples + rest, words + restWords)
  {
    forall k | 0 <= k < |samples + rest|
      ensures Aligned((samples + rest)[k].align) && WordsAmong((samples + rest)[k].align, words + restWords)
    {
      if k < |samples| {
        assert (samples + rest)[k] == samples[k];
        assert forall j :: 0 <= j < |words| ==> (words + restWords)[j] == words[j];
      } else {
        assert (samples + rest)[k] == rest[k - |samples|];
        assert forall j :: 0 <= j < |restWords| ==> (words + restWords)[|words| + j] == restWords[j];
      }
    }
  }

  /** `self.vocab`: ' ' and every character of the words, sorted, each once
      (the words never hold a space, so the sorted list has no repeats). */
  function GridVocabulary(words: seq<string>): (r: seq<char>)
    ensures StrictlySorted(r)
    ensures forall c :: c in r <==> c == ' ' || c in Flatten(words)
  {
    SortedDistinct([' '] + Flatten(words))
  }

  /** `self.vocab_mapping`: `{' ': 0}` overwritten by `enumerate(vocab)`. */
  function GridMapping(vocab: seq<char>): (r: map<char, int>)
    ensures forall c :: c in r <==> c == ' ' || c in vocab
  {
    Enumerate(map[' ' := 0], vocab, 0)
  }

  /** The mapping sends each vocabulary character to its position, so it
      is an injection into [0, |vocab|). */
  lemma GridMappingPositions(vocab: seq<char>)
    requires StrictlySorted(vocab) && ' ' in vocab
    ensures forall i :: 0 <= i < |vocab| ==> GridMapping(vocab)[vocab[i]] == i
    ensures forall c :: c in GridMapping(vocab) ==> (0 <= GridMapping(vocab)[c] < |vocab|
      && vocab[GridMapping(vocab)[c]] == c)
  {
    EnumeratePositions(vocab, 0);
  }

  /** In a strictly sorted vocabulary, a character sits at position 0
      exactly when nothing in the vocabulary sorts before it. */
  lemma FirstOfSorted(vocab: seq<char>, c: char)
    requires StrictlySorted(vocab) && c in vocab
    ensures vocab[0] == c <==> forall d :: d in vocab ==> !(d < c)
  {
    if vocab[0] == c {
      forall d | d in vocab ensures !(d < c) {
        var i := IndexOf(vocab, d);
        assert i == 0 || vocab[0] < vocab[i];
      }
    } else {
      var i := IndexOf(vocab, c);
      assert vocab[0] < vocab[i];
      assert vocab[0] in vocab;
    }
  }

  /** Space gets id 0 exactly when no character of the words sorts before
      it. */
  lemma SpaceIsZero(words: seq<string>)
    ensures GridMapping(GridVocabulary(words))[' '] == 0 <==> forall c :: c in Flatten(words) ==> !(c < ' ')
  {
    var vocab := GridVocabulary(words);
    GridMappingPositions(vocab);
    FirstOfSorted(vocab, ' ');
    assert GridMapping(vocab)[vocab[0]] == 0;
  }

  /** What `preprocess` leaves behind. */
  datatype Prepared = Prepared(samples: seq<Sample>, vocab: seq<char>, mapping: map<char, int>, numVideos: nat)

  /** `preprocess` over the file list, with each alignment file's content
      given in the same order. */
  function Preprocess(files: seq<(string, string)>, contents: seq<string>): (r: Result<Prepared>)
    requires |contents| == |files|
    ensures r.Ok? <==> VideosLoad(files, contents)
    ensures r.Err? ==> r.fault == IndexError || r.fault == ValueError
    ensures r.Ok? ==> r.value.numVideos == |files| && |r.value.samples| <= 7 * |files|
    ensures r.Ok? ==> r.value.mapping == GridMapping(r.value.vocab)
    ensures r.Ok? ==> StrictlySorted(r.value.vocab) && ' ' in r.value.vocab
    ensures r.Ok? ==> forall c :: c in r.value.mapping <==> c in r.value.vocab
    ensures r.Ok? ==> forall k :: 0 <= k < |r.value.samples| ==> (Aligned(r.value.samples[k].align)
      && CharsIn(r.value.samples[k].align, r.value.mapping))
  {
    var (samples, words) :- VideosSamples(files, contents);
    var vocab := GridVocabulary(words);
    forall k | 0 <= k < |samples| ensures CharsIn(samples[k].align, GridMapping(vocab)) {
      forall j, c | 0 <= j < |samples[k].align.words| && c in samples[k].align.words[j]
        ensures c in vocab
      {
        InFlatten(words, samples[k].align.words[j], c);
      }
    }
    Ok(Prepared(samples, vocab, GridMapping(vocab), |files|))
  }

  /** Every character of the alignment's words has an id. */
  predicate CharsIn(a: Alignment, mapping: map<char, int>) {
    forall j, c :: 0 <= j < |a.words| && c in a.words[j] ==> c in mapping
  }

  lemma {:induction false} InFlatten(xss: seq<string>, xs: string, c: char)
    requires xs in xss && c in xs
    ensures c in Flatten(xss)
    decreases |xss|
  {
    if xss[0] != xs {
      InFlatten(xss[1..], xs, c);
    }
  }

  // -------------------------------------------------------- load_sample

  /** `data['word_start'] or random.randint(1, len(words) - mode + 1)`: a
      word start of 0 is falsy and drawn instead; a sample without one is a
      KeyError. */
  function WordStart(s: Sample, draw: real): (r: Result<int>)
    requires 0.0 <= draw < 1.0
    ensures r.Ok? <==> s.wordStart.Some? && (s.wordStart.value != 0 || |s.align.words| - s.mode + 1 >= 1)
    ensures r.Ok? && s.wordStart.value != 0 ==> r.value == s.wordStart.value
    ensures r.Ok? && s.wordStart.value == 0 ==> 1 <= r.value <= |s.align.words| - s.mode + 1
  {
    match s.wordStart
    case None => Err(KeyError)
    case Some(w) => if w != 0 then Ok(w) else RandInt(1, |s.align.words| - s.mode + 1, draw)
  }

  /** `[words[w - 1] for w in range(first, last + 1)]` with Python indexing. */
  function PickWords(words: seq<string>, first: int, last: int): (r: Result<seq<string>>)
    ensures r.Ok? <==> first > last || (-|words| <= first - 1 && last - 1 < |words|)
    ensures r.Err? ==> r.fault == IndexError
    ensures r.Ok? && 1 <= first <= last + 1 <= |words| + 1 ==> r.value == words[first - 1..last]
    decreases last - first + 1
  {
    if first > last then Ok([])
    else
      var w :- Index(words, first - 1);
      var rest :- PickWords(words, first + 1, last);
      Ok([w] + rest)
  }

  /** What `load_sample` returns, apart from the frames: the window, the
      encoded text and the text. */
  datatype Loaded = Loaded(frameStart: int, frameEnd: int, y: seq<int>, sub: string)

  /** `load_sample` without the image reading. The whole sentence is used
      for mode 7 and whenever the words' window is shorter than three
      frames; any other mode above 7 reads `word_start` before assigning
      it. */
  function LoadSample(s: Sample, mapping: map<char, int>, draw: real): (r: Result<Loaded>)
    requires 0.0 <= draw < 1.0
    ensures s.mode > SentenceMode ==> r == Err(UnboundLocalError)
    ensures r.Ok? ==> 1 <= r.value.frameStart && r.value.frameEnd <= MaxFrame && LongEnough((r.value.frameStart, r.value.frameEnd))
    ensures r.Ok? ==> |r.value.y| == |r.value.sub|
    ensures r.Ok? ==> forall i :: 0 <= i < |r.value.sub| ==> r.value.sub[i] in mapping && r.value.y[i] == mapping[r.value.sub[i]]
    ensures r.Ok? && s.mode == SentenceMode ==> (r.value.frameStart == 1 && r.value.frameEnd == MaxFrame
      && r.value.sub == Join(s.align.words, " "))
    ensures r.Ok? ==> (r.value.sub == Join(s.align.words, " ") || WordWindow(s, draw, r.value))
    ensures r.Ok? && s.mode < SentenceMode ==> (WordStart(s, draw).Ok?
      && var first := WordStart(s, draw).value;
      var w := Window(s.align.starts, s.align.ends, first, first + s.mode - 1);
      w.Ok? && PickWords(s.align.words, first, first + s.mode - 1).Ok?
      && (LongEnough(w.value) ==> WordWindow(s, draw, r.value))
      && (!LongEnough(w.value) ==> (r.value.frameStart == 1 && r.value.frameEnd == MaxFrame
        && r.value.sub == Join(s.align.words, " "))))
  {
    var whole := Join(s.align.words, " ");
    if s.mode == SentenceMode then
      var y :- Encode(mapping, whole);
      Ok(Loaded(1, MaxFrame, y, whole))
    else if s.mode > SentenceMode then Err(UnboundLocalError)
    else
      var first :- WordStart(s, draw);
      var last := first + s.mode - 1;
      var picked :- PickWords(s.align.words, first, last);
      var w :- Window(s.align.starts, s.align.ends, first, last);
      var (window, sub) := if LongEnough(w) then (w, Join(picked, " ")) else ((1, MaxFrame), whole);
      var y :- Encode(mapping, sub);
      Ok(Loaded(window.0, window.1, y, sub))
  }

  /** Every character of the joined words is a character of a word, or the
      space between two of them. */
  lemma {:induction false} JoinChars(words: seq<string>, c: char)
    requires c in Join(words, " ")
    ensures c == ' ' || exists j :: 0 <= j < |words| && c in words[j]
    decreases |words|
  {
    if |words| == 1 {
      assert c in words[0];
    } else if |words| > 1 {
      var rest := Join(words[1..], " ");
      assert Join(words, " ") == words[0] + " " + rest;
      if c !in words[0] && c != ' ' {
        assert c in rest;
        JoinChars(words[1..], c);
        var j :| 0 <= j < |words[1..]| && c in words[1..][j];
        assert c in words[j + 1];
      }
    }
  }

  /** The words a sample of mode below 7 picks, with their window. */
  predicate WordWindow(s: Sample, draw: real, l: Loaded)
    requires 0.0 <= draw < 1.0
  {
    s.mode < SentenceMode && WordStart(s, draw).Ok?
    && var first := WordStart(s, draw).value;
    Window(s.align.starts, s.align.ends, first, first + s.mode - 1) == Ok((l.frameStart, l.frameEnd))
    && PickWords(s.align.words, first, first + s.mode - 1).Ok?
    && l.sub == Join(PickWords(s.align.words, first, first + s.mode - 1).value, " ")
  }

  /** Every sample `preprocess` produces loads with the mapping it built:
      a single-word sample gets its own word and the window `preprocess`
      checked, the whole-sentence sample gets every word. */
  lemma PreprocessedSampleLoads(s: Sample, mapping: map<char, int>, draw: real)
    requires 0.0 <= draw < 1.0 && Aligned(s.align) && ' ' in mapping && CharsIn(s.align, mapping)
    requires SingleWordSample(s, s.speaker, s.videoId, s.align) || (s.mode == SentenceMode && s.wordStart.None?)
    ensures LoadSample(s, mapping, draw).Ok?
    ensures s.mode == 1 ==> (LoadSample(s, mapping, draw).value.sub == s.align.words[s.wordStart.value - 1]
      && Window(s.align.starts, s.align.ends, s.wordStart.value, s.wordStart.value)
        == Ok((LoadSample(s, mapping, draw).value.frameStart, LoadSample(s, mapping, draw).value.frameEnd)))
  {
    var whole := Join(s.align.words, " ");
    forall c | c in whole ensures c in mapping {
      JoinChars(s.align.words, c);
    }
    assert forall i :: 0 <= i < |whole| ==> whole[i] in mapping;
    if s.mode == 1 {
      var w := s.wordStart.value;
      var word := s.align.words[w - 1];
      assert PickWords(s.align.words, w, w).value == [word];
      assert Join([word], " ") == word;
      assert forall i :: 0 <= i < |word| ==> word[i] in mapping;
    }
  }
}
