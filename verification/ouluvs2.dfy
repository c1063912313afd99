/** The OuluVS2 phrase loader (src/data/ouluvs2.py): the speaker split,
    the character vocabulary of the ten phrases, the phrase of an
    utterance number, and the `s<speaker>_v<view>_u<utterance>` file
    names. */
module OuluVs2 {
  import opened Results
  import opened PySeq
  import opened PyText
  import opened Vocab

  /** `self.speakers`: a half-open range per split; any other mode is a
      KeyError. */
  function Speakers(mode: string): (r: Result<(int, int)>)
    ensures r.Ok? <==> mode == "train" || mode == "val" || mode == "test"
    ensures r.Err? ==> r.fault == KeyError
    ensures r.Ok? ==> r.value.0 < r.value.1
  {
    if mode == "train" then Ok((0, 40))
    else if mode == "val" then Ok((43, 48))
    else if mode == "test" then Ok((48, 53))
    else Err(KeyError)
  }

  predicate InRange(speaker: int, range: (int, int)) {
    range.0 <= speaker < range.1
  }

  /** No speaker is in two splits; speakers 40 to 42 are in none. */
  lemma SpeakersDisjoint(speaker: int)
    ensures !(InRange(speaker, Speakers("train").value) && InRange(speaker, Speakers("val").value))
    ensures !(InRange(speaker, Speakers("train").value) && InRange(speaker, Speakers("test").value))
    ensures !(InRange(speaker, Speakers("val").value) && InRange(speaker, Speakers("test").value))
    ensures (InRange(speaker, Speakers("train").value) || InRange(speaker, Speakers("val").value)
      || InRange(speaker, Speakers("test").value)) <==> (0 <= speaker < 40 || 43 <= speaker < 53)
  {
  }

  // ---------------------------------------------------------- vocabulary

  /** `self.transcripts`: the ten phrases, in utterance order. */
  const Transcripts: seq<string> := ["Excuse me", "Goodbye", "Hello", "How are you", "Nice to meet you",
    "See you", "I am sorry", "Thank you", "Have a good time", "You are welcome"]

  function LowerAll(ts: seq<string>): (r: seq<string>)
    ensures |r| == |ts| && forall i :: 0 <= i < |ts| ==> r[i] == Lower(ts[i])
  {
    if |ts| == 0 then [] else [Lower(ts[0])] + LowerAll(ts[1..])
  }

  /** The state `preprocess` leaves: the phrases, the vocabulary and the
      character ids. */
  datatype Dataset = Dataset(transcripts: seq<string>, vocab: seq<char>, mapping: map<char, int>)

  /** `preprocess`: the vocabulary is the distinct characters of the
      lowercased phrases, sorted, and the mapping numbers it from 1. */
  function Preprocess(transcripts: seq<string>): (d: Dataset)
    ensures d.transcripts == transcripts
    ensures StrictlySorted(d.vocab)
    ensures forall c :: c in d.vocab <==> c in Flatten(LowerAll(transcripts))
    ensures d.mapping == MappingOf(d.vocab)
  {
    var vocab := SortedDistinct(Flatten(LowerAll(transcripts)));
    Dataset(transcripts, vocab, MappingOf(vocab))
  }

  /** `self.vocab_mapping`: `{' ': 0}` overwritten with position + 1. */
  function MappingOf(vocab: seq<char>): (r: map<char, int>)
    ensures forall c :: c in r <==> c == ' ' || c in vocab
  {
    Enumerate(map[' ' := 0], vocab, 1)
  }

  /** A space in any phrase is in the vocabulary. */
  lemma SpaceInPreprocessed(transcripts: seq<string>, k: int, i: int)
    requires 0 <= k < |transcripts| && 0 <= i < |transcripts[k]| && transcripts[k][i] == ' '
    ensures ' ' in Preprocess(transcripts).vocab
  {
    var lowered := LowerAll(transcripts);
    assert lowered[k][i] == LowerChar(' ') == ' ';
    FlattenHas(lowered, k, i);
  }

  /** The phrases hold a space, so the mapping's initial `' ': 0` is
      overwritten. */
  lemma SpaceInVocabulary()
    ensures ' ' in Preprocess(Transcripts).vocab
  {
    assert Transcripts[0][6] == ' ';
    SpaceInPreprocessed(Transcripts, 0, 6);
  }

  /** When the vocabulary holds the space, each of its characters gets its
      position plus one, so the ids are 1..|vocab|, distinct, and 0 is
      never used. */
  lemma MappingIds(vocab: seq<char>)
    requires StrictlySorted(vocab) && ' ' in vocab
    ensures forall i :: 0 <= i < |vocab| ==> MappingOf(vocab)[vocab[i]] == i + 1
    ensures forall c :: c in MappingOf(vocab) ==> (1 <= MappingOf(vocab)[c] <= |vocab| && vocab[MappingOf(vocab)[c] - 1] == c)
  {
    EnumeratePositions(vocab, 1);
  }

  /** For the ten phrases, no character has id 0 and different characters
      have different ids. */
  lemma PhraseIds()
    ensures var d := Preprocess(Transcripts);
      forall c :: c in d.mapping ==> 1 <= d.mapping[c] <= |d.vocab|
    ensures var d := Preprocess(Transcripts);
      forall c, e :: c in d.mapping && e in d.mapping && d.mapping[c] == d.mapping[e] ==> c == e
    ensures Preprocess(Transcripts).mapping[' '] == 1
  {
    SpaceInVocabulary();
    PreprocessedIds(Transcripts);
    SpaceFirst();
  }

  /** No character of the phrases sorts below the space, so the space comes
      first in the vocabulary and gets id 1. */
  lemma SpaceFirst()
    ensures var d := Preprocess(Transcripts);
      |d.vocab| > 0 && d.vocab[0] == ' ' && d.mapping[' '] == 1
  {
    var d := Preprocess(Transcripts);
    var lowered := LowerAll(Transcripts);
    SpaceInVocabulary();
    var j := IndexOf(d.vocab, ' ');
    var k, i := FlattenFrom(lowered, d.vocab[0]);
    PhraseCharPrintable(k, i);
    assert d.vocab[0] >= ' ';
    assert j == 0;
    MappingIds(d.vocab);
  }

  /** Every character of the ten phrases is a letter or a space. */
  lemma PhraseCharPrintable(k: int, i: int)
    requires 0 <= k < |Transcripts| && 0 <= i < |Transcripts[k]|
    ensures Transcripts[k][i] >= ' ' && LowerChar(Transcripts[k][i]) >= ' '
  {
    assert Transcripts[k] in Transcripts;
  }

  /** Once the space is in the vocabulary, the ids run from 1 to the
      vocabulary's size and no two characters share one. */
  lemma PreprocessedIds(transcripts: seq<string>)
    requires ' ' in Preprocess(transcripts).vocab
    ensures var d := Preprocess(transcripts);
      forall c :: c in d.mapping ==> 1 <= d.mapping[c] <= |d.vocab|
    ensures var d := Preprocess(transcripts);
      forall c, e :: c in d.mapping && e in d.mapping && d.mapping[c] == d.mapping[e] ==> c == e
  {
    var d := Preprocess(transcripts);
    MappingIds(d.vocab);
  }

  // ----------------------------------------------------------- utterance

  /** `(utterance - 31) // 3`: three utterance numbers per phrase from 31
      (the divisor is positive, so Euclidean and floor division agree). */
  function PhraseIndex(utterance: int): (r: int)
    ensures 31 + 3 * r <= utterance < 34 + 3 * r
  {
    (utterance - 31) / 3
  }

  /** `load_utterance`: the ids of the lowercased phrase's characters, the
      phrase picked with Python's negative indexing. */
  function LoadUtterance(d: Dataset, utterance: int): (r: Result<seq<int>>)
    ensures r.Ok? <==> (Index(d.transcripts, PhraseIndex(utterance)).Ok?
      && Encode(d.mapping, Lower(Index(d.transcripts, PhraseIndex(utterance)).value)).Ok?)
    ensures r.Err? ==> r.fault == IndexError || r.fault == KeyError
    ensures r.Ok? ==> (var phrase := Index(d.transcripts, PhraseIndex(utterance)).value;
      |r.value| == |phrase| && forall i :: 0 <= i < |phrase| ==>
        LowerChar(phrase[i]) in d.mapping && r.value[i] == d.mapping[LowerChar(phrase[i])])
  {
    var transcript :- Index(d.transcripts, PhraseIndex(utterance));
    Encode(d.mapping, Lower(transcript))
  }

  /** Every character of a lowercased phrase has an id. */
  lemma PhraseCharsMapped(transcripts: seq<string>, k: int)
    requires 0 <= k < |transcripts|
    ensures Encode(Preprocess(transcripts).mapping, Lower(transcripts[k])).Ok?
  {
    var lowered := LowerAll(transcripts);
    forall i | 0 <= i < |Lower(transcripts[k])| ensures Lower(transcripts[k])[i] in Preprocess(transcripts).mapping {
      FlattenHas(lowered, k, i);
    }
  }

  /** A character of the joined strings comes from one of them. */
  lemma {:induction false} FlattenFrom(xss: seq<string>, c: char) returns (k: int, i: int)
    requires c in Flatten(xss)
    ensures 0 <= k < |xss| && 0 <= i < |xss[k]| && xss[k][i] == c
    decreases |xss|
  {
    assert Flatten(xss) == xss[0] + Flatten(xss[1..]);
    if c in xss[0] {
      k := 0;
      i :| 0 <= i < |xss[0]| && xss[0][i] == c;
    } else {
      var k', i' := FlattenFrom(xss[1..], c);
      k, i := k' + 1, i';
    }
  }

  lemma {:induction false} FlattenHas(xss: seq<string>, k: int, i: int)
    requires 0 <= k < |xss| && 0 <= i < |xss[k]|
    ensures xss[k][i] in Flatten(xss)
    decreases k
  {
    if k > 0 {
      FlattenHas(xss[1..], k - 1, i);
    } else {
      assert Flatten(xss) == xss[0] + Flatten(xss[1..]);
    }
  }

  /** With the preprocessed ids, an utterance loads exactly when its phrase
      index is a valid Python index. */
  lemma UtteranceLoads(transcripts: seq<string>, utterance: int)
    ensures LoadUtterance(Preprocess(transcripts), utterance).Ok? <==> -|transcripts| <= PhraseIndex(utterance) < |transcripts|
  {
    var k := PhraseIndex(utterance);
    if -|transcripts| <= k < |transcripts| {
      PhraseCharsMapped(transcripts, if k < 0 then |transcripts| + k else k);
    }
  }

  /** The utterance numbers 31 to 60 select the phrases 0 to 9 in order, three
      numbers each, and always load. */
  lemma UtterancePhrases(utterance: int)
    requires 31 <= utterance <= 60
    ensures 0 <= PhraseIndex(utterance) < |Transcripts| && 31 + 3 * PhraseIndex(utterance) <= utterance < 34 + 3 * PhraseIndex(utterance)
    ensures LoadUtterance(Preprocess(Transcripts), utterance).Ok?
  {
    UtteranceLoads(Transcripts, utterance);
  }

  // ------------------------------------------------------------- names

  /** The angles of the five camera views. */
  const Angles: seq<int> := [0, 30, 45, 60, 90]

  /** A file's speaker, view angle and utterance. */
  datatype Clip = Clip(speaker: int, angle: int, utterance: int)

  /** `path.split("/")[-1][:-4].split("_")`: the fields of the file name,
      which joined by '_' give back the name without its last four
      characters. */
  function NameFields(path: string): (r: seq<string>)
    ensures |r| >= 1 && forall k :: 0 <= k < |r| ==> '_' !in r[k]
    ensures var parts := Split(path, '/'); Join(r, "_") == Take(parts[|parts| - 1], -4)
  {
    var parts := Split(path, '/');
    var stem := Take(parts[|parts| - 1], -4);
    JoinSplit(stem, '_');
    Split(stem, '_')
  }

  /** `[int(x[1:]) for x in fields]`. */
  function ParseFields(fields: seq<string>): (r: Result<seq<int>>)
    ensures r.Ok? <==> forall k :: 0 <= k < |fields| ==> ParseInt(Drop(fields[k], 1)).Ok?
    ensures r.Err? ==> r.fault == ValueError
    ensures r.Ok? ==> |r.value| == |fields| && forall k :: 0 <= k < |fields| ==> r.value[k] == ParseInt(Drop(fields[k], 1)).value
    decreases |fields|
  {
    if |fields| == 0 then Ok([])
    else
      assert forall k :: 1 <= k < |fields| ==> fields[k] == fields[1..][k - 1];
      var v :- ParseInt(Drop(fields[0], 1));
      var rest :- ParseFields(fields[1..]);
      Ok([v] + rest)
  }

  /** The name parse of `__getitem__`: three numeric fields (anything else
      fails to unpack), the view looked up among the angles with Python
      indexing. */
  function ParseClip(path: string): (r: Result<Clip>)
    ensures r.Ok? <==> (ParseFields(NameFields(path)).Ok? && |NameFields(path)| == 3
      && Index(Angles, ParseFields(NameFields(path)).value[1] - 1).Ok?)
    ensures !ParseFields(NameFields(path)).Ok? || |NameFields(path)| != 3 ==> r == Err(ValueError)
    ensures (ParseFields(NameFields(path)).Ok? && |NameFields(path)| == 3
      && !Index(Angles, ParseFields(NameFields(path)).value[1] - 1).Ok?) ==> r == Err(IndexError)
    ensures r.Ok? ==> |NameFields(path)| == 3 && ParseFields(NameFields(path)).Ok?
    ensures r.Ok? ==> (var v := ParseFields(NameFields(path)).value;
      r.value.speaker == v[0] && r.value.utterance == v[2]
      && Index(Angles, v[1] - 1).Ok? && r.value.angle == Index(Angles, v[1] - 1).value)
    ensures r.Err? ==> r.fault == ValueError || r.fault == IndexError
  {
    var values :- ParseFields(NameFields(path));
    if |values| != 3 then Err(ValueError)
    else
      var angle :- Index(Angles, values[1] - 1);
      Ok(Clip(values[0], angle, values[2]))
  }

  /** The file name of a clip: `s<speaker>_v<view>_u<utterance>.mp4`. */
  function ClipName(speaker: nat, view: nat, utterance: nat): string {
    "s" + IntToString(speaker) + "_v" + IntToString(view) + "_u" + IntToString(utterance) + ".mp4"
  }

  /** A field of a file name never holds the separators. */
  lemma TaggedField(tag: char, n: nat)
    ensures '_' !in [tag] + IntToString(n) || tag == '_'
    ensures '/' !in [tag] + IntToString(n) || tag == '/'
    ensures Drop([tag] + IntToString(n), 1) == IntToString(n)
  {
    IntToStringChars(n);
    assert forall i :: 1 <= i < |[tag] + IntToString(n)| ==> ([tag] + IntToString(n))[i] == IntToString(n)[i - 1];
  }

  /** A clip's file name is its three tagged fields joined by `_`, then
      the extension. */
  lemma ClipNameStem(speaker: nat, view: nat, utterance: nat)
    ensures ClipName(speaker, view, utterance)
      == (("s" + IntToString(speaker)) + ['_'] + ("v" + IntToString(view)) + ['_'] + ("u" + IntToString(utterance))) + ".mp4"
  {
  }

  /** The tagged fields split apart again at `_`. */
  lemma StemFields(speaker: nat, view: nat, utterance: nat)
    ensures var s := "s" + IntToString(speaker);
      var v := "v" + IntToString(view);
      var u := "u" + IntToString(utterance);
      '/' !in s + ['_'] + v + ['_'] + u && Split(s + ['_'] + v + ['_'] + u, '_') == [s, v, u]
  {
    var s := "s" + IntToString(speaker);
    var v := "v" + IntToString(view);
    var u := "u" + IntToString(utterance);
    TaggedField('s', speaker);
    TaggedField('v', view);
    TaggedField('u', utterance);
    SplitLastField(s + ['_'] + v, u, '_');
    SplitLastFieldNoSep(s, v, '_');
    calc {
      Split(s + ['_'] + v + ['_'] + u, '_');
      Split(s + ['_'] + v, '_') + [u];
      [s, v] + [u];
      [s, v, u];
    }
  }

  /** The fields of a clip's file name, whatever directory it is in. */
  lemma ClipNameFields(dir: string, speaker: nat, view: nat, utterance: nat)
    ensures NameFields(dir + "/" + ClipName(speaker, view, utterance))
      == ["s" + IntToString(speaker), "v" + IntToString(view), "u" + IntToString(utterance)]
  {
    var s := "s" + IntToString(speaker);
    var v := "v" + IntToString(view);
    var u := "u" + IntToString(utterance);
    var stem := s + ['_'] + v + ['_'] + u;
    var name := ClipName(speaker, view, utterance);
    ClipNameStem(speaker, view, utterance);
    StemFields(speaker, view, utterance);
    assert '/' !in name by {
      assert forall i :: |stem| <= i < |name| ==> name[i] == ".mp4"[i - |stem|];
    }
    SplitLastField(dir, name, '/');
    var parts := Split(dir + "/" + name, '/');
    assert dir + "/" + name == dir + ['/'] + name;
    assert parts[|parts| - 1] == name;
    assert Take(name, -4) == stem;
  }

  /** A clip named by its numbers parses back to them, with the view 1..5
      mapped to its angle. */
  lemma ParseClipName(dir: string, speaker: nat, view: nat, utterance: nat)
    requires 1 <= view <= 5
    ensures ParseClip(dir + "/" + ClipName(speaker, view, utterance)) == Ok(Clip(speaker, Angles[view - 1], utterance))
  {
    var fields := NameFields(dir + "/" + ClipName(speaker, view, utterance));
    ClipNameFields(dir, speaker, view, utterance);
    TaggedField('s', speaker);
    TaggedField('v', view);
    TaggedField('u', utterance);
    ParseIntToString(speaker);
    ParseIntToString(view);
    ParseIntToString(utterance);
    assert ParseInt(Drop(fields[0], 1)) == Ok(speaker);
    assert ParseInt(Drop(fields[1], 1)) == Ok(view);
    assert ParseInt(Drop(fields[2], 1)) == Ok(utterance);
    var values := ParseFields(fields);
    assert values.Ok? && |values.value| == 3;
    assert values.value == [speaker, view, utterance];
  }

  /** `int(name.split("_")[0][1:])`: the speaker number of a file. */
  function FileSpeaker(file: string): Result<int> {
    ParseInt(Drop(NameFields(file)[0], 1))
  }

  predicate SpeakersParse(files: seq<string>) {
    forall i :: 0 <= i < |files| ==> FileSpeaker(files[i]).Ok?
  }

  /** `build_file_list`'s filter: the files whose speaker, parsed from the
      first name field, is in the split's range. */
  function BuildFileList(files: seq<string>, range: (int, int)): (r: Result<seq<string>>)
    ensures r.Ok? <==> SpeakersParse(files)
    ensures r.Err? ==> r.fault == ValueError
    ensures r.Ok? ==> forall f :: f in r.value <==> f in files && FileSpeaker(f).Ok? && InRange(FileSpeaker(f).value, range)
    ensures r.Ok? ==> |r.value| <= |files|
    decreases |files|
  {
    if |files| == 0 then Ok([])
    else
      SpeakersParseStep(files);
      var speaker :- FileSpeaker(files[0]);
      var rest :- BuildFileList(files[1..], range);
      assert forall f :: f in files <==> f == files[0] || f in files[1..];
      Ok(if InRange(speaker, range) then [files[0]] + rest else rest)
  }

  /** Every speaker parses when the first does and all the others do. */
  lemma SpeakersParseStep(files: seq<string>)
    requires |files| > 0
    ensures SpeakersParse(files) <==> FileSpeaker(files[0]).Ok? && SpeakersParse(files[1..])
  {
    assert forall i :: 1 <= i < |files| ==> files[i] == files[1..][i - 1];
  }
}
