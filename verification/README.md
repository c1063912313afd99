# Lip-reading data and scoring core, in Dafny

This project models the parts of a lip-reading training repository that
handle labels rather than pixels:

- **Scoring of the LRS2 attention model** (`src/models/lrs2_resnet_attn.py`).
  - `greedy_decode` and `beam_decode` spell id rows through an id-to-symbol
    table and cut them at the first end-of-sequence.
  - They normalise the hypothesis (strip, collapse runs of spaces) and
    compute the character error rate (CER) and word error rate (WER) as edit
    distance over the longer length.
  - They average over the batch.
  - `validation_end` averages over the epoch and keeps the best (lowest)
    CER and WER seen so far.
- **Training curriculum of the same model.**
  - The target rows of `LabelSmoothingLoss`.
  - The linear teacher-forcing decay of `on_epoch_start`.
  - The choice, at every decoding step of `forward`, between the target
    column and the model's own arg-max as the next input.
  - The beam decoder's vocabulary, with `<pad>`, `<eos>` and `<sos>` renamed
    to `_`, `@` and `$`, and its blank id.
- **GRID loader** (`src/data/grid.py`).
  - Rounding of alignment times to frames.
  - Parsing of alignment files.
  - The single-word and whole-sentence samples of `preprocess`.
  - The sorted character vocabulary and its id mapping.
  - The word window and text of `load_sample`.
  - CTC batch collation.
  - The speaker split and the file list.
- **LRS2 loader** (`src/data/lrs2.py`).
  - The 38-character table and its inverse.
  - The file list.
  - The random word-window crop of pretraining transcripts, with its frame
    range.
  - Transcript extraction and encoding in `__getitem__`.
- **OuluVS2 loader** (`src/data/ouluvs2.py`).
  - The speaker split.
  - The vocabulary of the ten phrases, numbered from 1.
  - The phrase of an utterance number.
  - The parsing of `s<speaker>_v<view>_u<utterance>` file names.
  - The file list.
- **CTC beam output conversion** (`src/decoder/beam.py`): ranked id
  sequences become strings, each cut to its reported length.

Python exceptions are modelled as `Result` values (`Err(KeyError)`,
`Err(IndexError)`, ...). Where the code checks several things, the fault is
the first one the code reaches. Python's negative list indexing and clamped
slicing are written out in module `PySeq`. The string methods the code uses
(`split`, `splitlines`, `join`, `strip`, `replace`, `lower`, `find`, `int`,
`float`) are in module `PyText`. Each random draw is a parameter: a real
number in [0, 1). Contents of files and directory listings are parameters
too.

The model follows the code where it departs from what its docstrings,
naming or surrounding design suggest:

- The reference (label) row is only cut at the end-of-sequence. It is
  neither stripped nor collapsed; only the hypothesis is.
- `s[:s.find('@')]` on a text without `@` drops the last character, because
  `find` returns -1.
- A CER with both strings empty divides by zero (ZeroDivisionError), rather
  than counting as 0.
- The teacher-forcing ratio is not clamped at its minimum: after the last
  epoch it keeps falling. With a single epoch it divides by zero.
- A negative `ignore_index` clears its column of the smoothed row, but the
  rows of targets equal to that column are never cleared. A target id is
  never negative, so it never equals the ignore index.
- In GRID `load_sample`, a `word_start` of 0 is falsy and is replaced by a
  random draw. A mode above 7 reads `word_start` before it is assigned
  (UnboundLocalError).
- An OuluVS2 view of 0 selects the last angle (90), through negative
  indexing. Utterance numbers below 31 select phrases counted from the end,
  until the index leaves the list.

## Model

| member | source | states |
|---|---|---|
| Curriculum.NewSmoothingLoss | src/models/lrs2_resnet_attn.py:28-38 | Succeeds exactly when 0 < smoothing <= 1, there are at least two classes and the ignore index is a valid (possibly negative) column. Otherwise it fails with AssertionError, ZeroDivisionError (one class), RuntimeError (negative size) or IndexError, in that order. The stored row is smoothing/(V-1) in every column except the pad column, which is 0, and the confidence is 1 - smoothing. |
| Curriculum.TargetRow | src/models/lrs2_resnet_attn.py:46-48 | A target outside the columns is a RuntimeError. A target equal to the ignore index gives an all-zero row. Any other target gives the confidence in its own column and the smoothed row in every other column. |
| Curriculum.TargetRows | src/models/lrs2_resnet_attn.py:46-48 | The batch of rows exists exactly when every target is a column. Row b is the target row of target b. |
| Curriculum.SmoothedRow | src/models/lrs2_resnet_attn.py:33-38 | For a fresh loss and a target other than the ignore index, the row has 1 - smoothing at the target, 0 on the pad column and smoothing/(V-1) everywhere else. |
| Curriculum.PadTargetRow | src/models/lrs2_resnet_attn.py:35-48 | With a non-negative ignore index, the pad target's row is all zeros. With a negative one, the pad column's row is not cleared and carries the confidence. |
| Curriculum.TeacherForcingRatio | src/models/lrs2_resnet_attn.py:268-270 | Fails with ZeroDivisionError exactly when there is one epoch. Otherwise the ratio is 1.0 exactly at epoch 0. |
| Curriculum.RatioEndpoints | src/models/lrs2_resnet_attn.py:63-64 | Over more than one epoch, the ratio is 1.0 at the first epoch and 0.75 at the last. |
| Curriculum.RatioNonIncreasing | src/models/lrs2_resnet_attn.py:268-270 | The ratio never grows from one epoch to a later one. |
| Curriculum.RatioStep | src/models/lrs2_resnet_attn.py:268-270 | Over more than one epoch, consecutive epochs differ by exactly (1 - 0.75) / (epochs - 1): the decay is linear. |
| Curriculum.RatioBounds | src/models/lrs2_resnet_attn.py:268-270 | Within the run the ratio lies in [0.75, 1.0]. Past the last epoch it falls below 0.75. |
| Curriculum.Unroll | src/models/lrs2_resnet_attn.py:127-142 | One step per target column. The first input is the start symbol. A step is forced exactly when teacher forcing is on and its draw is below the ratio. A forced step feeds the target column to the next step; any other step feeds the arg-max. A draw is used only when teacher forcing is on. An empty target is a RuntimeError. |
| Scoring.CutAtEos | src/models/lrs2_resnet_attn.py:158-160 | The result never holds `@`. With an `@`, the result is the prefix before the first `@`. Without one, it is the text minus its last character. |
| Scoring.NormaliseLabel | src/models/lrs2_resnet_attn.py:157-158 | The reference row has no `@`. Its exact reading is stated by `Scoring.LabelMeaning`. |
| Scoring.Tidy | src/models/lrs2_resnet_attn.py:160-161 | Stripping and collapsing leaves no edge space and no double space, and adds no character. The result is the stripped input with every space that follows another space dropped, so each run of spaces becomes exactly one. A text already without edge or double spaces comes back unchanged. |
| PyText.CollapseDropsRepeats | src/models/lrs2_resnet_attn.py:161 | `re.sub(' +', ' ', s)` equals dropping every space that is directly followed by another space. |
| Scoring.NormaliseHypothesis | src/models/lrs2_resnet_attn.py:159-161 | The hypothesis has no `@`, no leading or trailing space and no two spaces in a row. |
| Scoring.NormaliseBeam | src/models/lrs2_resnet_attn.py:179-180 | The beam hypothesis has no `@`, no edge space and no double space. Its exact reading is stated by `Scoring.BeamMeaning`. |
| Scoring.LabelMeaning | src/models/lrs2_resnet_attn.py:156-158 | The text-level normalisation of a spelled reference row (two `replace` calls and a cut) equals the symbol-level reading: the symbols before the first `<eos>`, each pad read as a space. Without any `<eos>`, the reading is all symbols minus the last character. |
| Scoring.HypothesisMeaning | src/models/lrs2_resnet_attn.py:155-161 | The text-level normalisation of a spelled hypothesis row equals the symbols before the first `<eos>`, with pads and starts read as `&`, then stripped and collapsed. |
| Scoring.BeamMeaning | src/models/lrs2_resnet_attn.py:178-180 | For a beam row whose symbols are `@` or free of `@`, the normalised text is the symbols before the first `@`, stripped and collapsed. Without any `@`, it is all symbols minus the last character, stripped and collapsed. |
| ErrorRates.ErrorRate | src/models/lrs2_resnet_attn.py:164 | Defined exactly when one sequence is non-empty. The rate lies in [0, 1], is 0 exactly when the sequences are equal, and is the Levenshtein distance over the longer length. |
| ErrorRates.ErrorRateLengthGap | src/models/lrs2_resnet_attn.py:164 | The rate is at least the length difference over the longer length. |
| ErrorRates.ScoreExample | src/models/lrs2_resnet_attn.py:164-166 | One example scores exactly when one of the texts is non-empty. Both rates lie in [0, 1], and each is 0 exactly when output equals reference. |
| ErrorRates.WordRateDefined | src/models/lrs2_resnet_attn.py:165-166 | The word rate never divides by zero, because `split(" ")` gives at least one word. Two empty texts have word rate 0. |
| ErrorRates.Total | src/models/lrs2_resnet_attn.py:151-166 | The sum exists exactly when every example scores. Otherwise the fault is that of the first failing example. |
| ErrorRates.TotalBounds | src/models/lrs2_resnet_attn.py:164-166 | Sums of unit-interval rates lie in [0, n] and are 0 exactly when every summand is. |
| ErrorRates.Mean | src/models/lrs2_resnet_attn.py:168 | An empty batch divides by zero. The mean times n is the total. |
| ErrorRates.MeanBounds | src/models/lrs2_resnet_attn.py:168 | The batch mean of unit-interval rates lies in [0, 1] and is 0 exactly when every rate is. |
| EditDistance.Distance | src/models/lrs2_resnet_attn.py:164 | The two-row dynamic programme computes the Levenshtein distance as defined recursively by `Lev`. |
| EditDistance.LevZeroIff | src/models/lrs2_resnet_attn.py:164 | The distance is 0 exactly when the sequences are equal. |
| EditDistance.LevAtMostLonger | src/models/lrs2_resnet_attn.py:164 | The distance never exceeds the longer length, so a rate never exceeds 1. |
| EditDistance.LevAtLeastLengthGap | src/models/lrs2_resnet_attn.py:164 | The distance is at least the difference of the lengths. |
| Spelling.Symbols | src/models/lrs2_resnet_attn.py:154-156 | Looking ids up in the id-to-symbol dictionary fails with KeyError exactly when some id is missing. Otherwise it gives one symbol per id, in order. |
| Spelling.ListSymbols | src/models/lrs2_resnet_attn.py:178 | Looking ids up in a list fails with IndexError exactly when some id lies outside [-n, n). Otherwise each symbol is the Python-indexed element. |
| Spelling.Spell | src/models/lrs2_resnet_attn.py:154-156 | Spelling fails with KeyError exactly when some id is missing. No ids spell the empty text. One known id spells exactly its symbol, and a longer text starts with the first id's symbol. |
| Spelling.SpellAppend | src/models/lrs2_resnet_attn.py:154-156 | Spelling two id rows one after the other succeeds exactly when both succeed, and the text is the two spellings concatenated. Together with the singleton case this pins the text down as every symbol in order. |
| Spelling.SpellSingleCharacters | src/decoder/beam.py:24 | With one-character symbols and known ids, the spelled text has one character per id, in order. |
| Decoding.BatchScore | src/models/lrs2_resnet_attn.py:151-168 | The batch scores exactly when it is non-empty and every pair exists with a non-empty side. An empty batch is a ZeroDivisionError. Both means lie in [0, 1], and each is 0 exactly when every output equals its reference. |
| Decoding.BatchScoreFirstFault | src/models/lrs2_resnet_attn.py:151-166 | When every example before b scores and example b fails, the batch fails with b's fault. |
| Decoding.GreedyPair | src/models/lrs2_resnet_attn.py:152-161 | A greedy example fails with KeyError exactly when an output or target id is not in the table. |
| Decoding.GreedyPairMeaning | src/models/lrs2_resnet_attn.py:152-161 | For a table of plain symbols and the three specials, the greedy pair is the hypothesis reading against the reference reading of the spelled symbols. |
| Decoding.GreedyDecode | src/models/lrs2_resnet_attn.py:145-168 | Succeeds exactly when the batch is non-empty and every example spells with a non-empty side. An empty batch is a ZeroDivisionError. Both rates lie in [0, 1]. The CER is 0 exactly when every hypothesis equals its reference, and the WER is 0 exactly when the CER is. |
| Decoding.ListIndex | src/models/lrs2_resnet_attn.py:97-99 | `list.index` is a ValueError exactly for an absent value. Otherwise it is the first position holding the value. |
| Decoding.RenameFirst | src/models/lrs2_resnet_attn.py:97-99 | A missing value is a ValueError. Otherwise overwriting the first occurrence changes that position only. |
| Decoding.BeamVocabulary | src/models/lrs2_resnet_attn.py:96-99 | The renaming succeeds exactly when `<pad>`, `<eos>` and `<sos>` are all in the character list. A missing one is a ValueError. The result is the character list with the first `<pad>` set to `_`, the first `<eos>` to `@` and the first `<sos>` to `$`, every other entry kept. |
| Decoding.IndexAfterRename | src/models/lrs2_resnet_attn.py:96-99 | Renaming one symbol's first occurrence leaves any other symbol present at the same first index, so the three `index` calls find the positions of the original list. |
| Decoding.BlankId | src/models/lrs2_resnet_attn.py:108 | The blank id exists exactly when the vocabulary does, and is otherwise the vocabulary's ValueError. The beam vocabulary holds `_` at that id and nowhere before it, so it is the first `_`. |
| Decoding.BeamPair | src/models/lrs2_resnet_attn.py:176-186 | A beam example exists exactly when every kept token indexes the vocabulary list (negative ids wrap) and every target id is in the table. The output is then the normalised best beam and the reference is the normalised target. |
| Decoding.BeamDecode | src/models/lrs2_resnet_attn.py:170-192 | Scores the first beam of every example, with the same success condition, bounds and zero cases as the greedy decoder. |
| Decoding.EpochMean | src/models/lrs2_resnet_attn.py:226-227 | `np.mean` of no batches is undefined (NaN). Otherwise the mean times the count is the sum. |
| Decoding.EpochMeanInUnit | src/models/lrs2_resnet_attn.py:226-227 | The epoch mean of unit-interval rates lies in [0, 1]. |
| Decoding.UpdateBest | src/models/lrs2_resnet_attn.py:237-240 | The new best is at most the old best and at most a defined value, and it is one of the two. An undefined value leaves the best unchanged; `validation_end` never passes one, because it raises first on an epoch without batches. |
| Decoding.BestIsMinimum | src/models/lrs2_resnet_attn.py:111-112 | After any sequence of epoch means, the best is the minimum of 1.0 and every defined mean, and it equals one of them. An undefined mean stands for no real run: see Decoding.BestOfRun. |
| Decoding.ValidationEnd | src/models/lrs2_resnet_attn.py:225-240 | An epoch without batches raises RuntimeError at `torch.stack`, before any best is compared. Otherwise each new best is at most the old best and at most the epoch's mean rate, and equals one of them. |
| Decoding.BestOfRun | src/models/lrs2_resnet_attn.py:111-112 | Running `validation_end` over a run of epochs from the initial bests succeeds exactly when every epoch has batches, and fails with RuntimeError otherwise. The bests are then the running minimum of the epoch mean CERs and WERs. |
| Decoding.RunBestIsMinimum | src/models/lrs2_resnet_attn.py:237-240 | After a run that gets through, each best is no larger than any epoch's mean rate, and it is 1.0 or one of those means. |
| Grid.Round | src/data/grid.py:15-16 | `round` rounds halves up: r <= x + 0.5 < r + 1. |
| Grid.RoundThousandths | src/data/grid.py:15-16 | Rounding t / 1000 halves-up is (t + 500) div 1000. |
| Grid.TimeToFrame | src/data/grid.py:74-75 | Converting an alignment time to a frame is (t + 500) div 1000: the frame r satisfies 1000r <= t + 500 < 1000r + 1000. |
| Grid.Window | src/data/grid.py:74-75 | The window exists exactly when both word indices are valid Python indices; otherwise IndexError. The start is at least 1 and the end at most 75; each clamp is one-sided. The start is the larger of the rounded time and 1, and the end is the smaller of the rounded time and 75. |
| Grid.CtcCollate | src/data/grid.py:19-32 | An empty batch fails to unpack (ValueError). Otherwise the labels are concatenated in order, label i sits at its offset, the lengths pass through, and there is one label length per example. |
| Grid.ParseLines | src/data/grid.py:62-67 | Parsing succeeds exactly when every line has at least three fields and is silence or has integer times. Parsed words, starts and ends align. No word is `sil` or `sp` or holds a space. A failure is an IndexError or a ValueError. |
| Grid.ParseAlign | src/data/grid.py:62-67 | Reading a file succeeds exactly when every line of it parses, and fails with IndexError or ValueError otherwise. A parsed file's words, starts and ends align, and no word is `sil` or `sp` or holds a space. |
| Grid.ParseRenderAlign | src/data/grid.py:62-67 | Rendering an alignment as `start end word` lines and parsing it back gives the alignment. |
| Grid.VideoPathParts | src/data/grid.py:57-58 | From a path `<dir>/s<speaker>/<name><ext>` with a four-character extension, the speaker and the video name come back out. |
| Grid.SpeakerSplits | src/data/grid.py:40-45 | The train, val and test speaker ranges are pairwise disjoint and together cover speakers 0 to 33. |
| Grid.SpeakerRange | src/data/grid.py:40-45 | Each split is a non-empty range within 0..33. Any mode other than `train` and `val` gets the test range (29, 34). |
| Grid.BuildFileList | src/data/grid.py:149-167 | The build fails exactly when some path's speaker does not parse. Otherwise a pair is listed exactly when its video's speaker is in range and its mouth directory holds 75 files. The alignment path is `aligns/s<speaker>/<name>.align`. |
| GridSamples.SingleWordSamples | src/data/grid.py:70-77 | Fewer than six words is an IndexError. Every sample produced is a mode-1 sample of a word among the first six whose window has at least three frames. The words come in strictly increasing order, so none has two samples. |
| GridSamples.SingleWordPrepend | src/data/grid.py:70-77 | Appending the sample of word `start` before the samples of later words keeps the list in increasing word order. |
| GridSamples.SingleWordSamplesComplete | src/data/grid.py:70-77 | No word among the first six with a window of three or more frames is left out. |
| GridSamples.VideoSamples | src/data/grid.py:70-81 | A video gives one to seven samples: its qualifying single words in increasing word order, each once, then the whole-sentence sample of mode 7. It fails exactly when there are fewer than six words. |
| GridSamples.VideoSamplesComplete | src/data/grid.py:70-77 | Every qualifying single word of a video has its sample. |
| GridSamples.LoadVideo | src/data/grid.py:57-80 | One video loads exactly when its speaker directory parses, its alignment parses and it has at least six words; a failure is an IndexError or a ValueError. It yields one to seven samples, each with a consistent alignment whose words are among the video's words. |
| GridSamples.VideosSamples | src/data/grid.py:56-81 | Collecting succeeds exactly when every video's speaker parses, its alignment parses and it has enough words for its last sample; a failure is an IndexError or a ValueError. At most seven samples per video. Every sample's alignment is consistent, and its words are among the collected words. |
| GridSamples.GridVocabulary | src/data/grid.py:83-86 | The vocabulary is strictly sorted and holds exactly the space and the characters of the words. |
| GridSamples.GridMapping | src/data/grid.py:87-89 | The mapping's keys are the space and the vocabulary. |
| GridSamples.GridMappingPositions | src/data/grid.py:87-89 | Each vocabulary character is mapped to its position, so the mapping is a bijection onto [0, n). |
| GridSamples.SpaceIsZero | src/data/grid.py:83-89 | The space gets id 0 exactly when no word character sorts before it. |
| GridSamples.Preprocess | src/data/grid.py:53-89 | It succeeds exactly when every video loads, and fails with IndexError or ValueError otherwise. It counts every video and yields at most seven samples per video. The vocabulary is sorted, holds the space and is the mapping's key set, and the mapping numbers it from 0, each character at its position. Every character of every sample's words has an id. |
| GridSamples.WordStart | src/data/grid.py:105-106 | A stored non-zero start is kept. A start of 0 is replaced by a draw within [1, n - mode + 1]. A sample without one is a KeyError. |
| GridSamples.PickWords | src/data/grid.py:116-118 | The picked words are the slice of the word list when the range lies inside it. Otherwise, with Python indexing, the pick is an IndexError. |
| GridSamples.LoadSample | src/data/grid.py:103-130 | The window starts at 1 or later, ends at 75 or earlier and has at least three frames. The ids encode the text character by character. Mode 7 gives the whole sentence over frames 1 to 75, and a mode above 7 is UnboundLocalError. For modes below 7, the words' window is computed. If it has at least three frames, the sample gets it and the picked words. Otherwise it falls back to frames 1 to 75 and the whole sentence. |
| GridSamples.PreprocessedSampleLoads | src/data/grid.py:103-130 | Every sample `preprocess` makes loads with the mapping it built. A single-word sample gets exactly its word and the window `preprocess` checked. |
| Lrs2.CharactersSpelled | src/data/lrs2.py:29-31 | The table is space, apostrophe, a-z and 0-9: 38 characters. |
| Lrs2.CharactersDistinct | src/data/lrs2.py:29-31 | No character of the table repeats. |
| Lrs2.CharTableBijection | src/data/lrs2.py:32-33 | `char2int` maps the 38 characters one-to-one onto 0..37, and `int2char` is its inverse. |
| Lrs2.EncodeRoundTrip | src/data/lrs2.py:136 | Encoding fails exactly on a character outside the table. Decoding the ids through `int2char` gives the text back. |
| Lrs2.BuildFileList | src/data/lrs2.py:35-52 | One entry per line of the list file. A pretraining name is the whole line. A main-set name is the line's first space-separated field. Each path is the set's directory plus the name. |
| Lrs2.ParseWordLine | src/data/lrs2.py:93-94 | A word line parses exactly when it has four fields and two decimal times. Otherwise it is a ValueError. |
| Lrs2.ParseWordLines | src/data/lrs2.py:92-95 | All word lines parse, in order, or the first bad one raises ValueError. |
| Results.Collect | src/data/lrs2.py:92-95 | A loop that builds a list item by item and stops at the first exception succeeds exactly when every item does. It gives the items in order, and otherwise fails with the fault of the first item that fails. |
| Lrs2.PickWindow | src/data/lrs2.py:97-98 | Fails with ValueError exactly when `pretrain_words` < 1. The window fits in the transcript. The word count is the first draw capped by the transcript length: at most `pretrain_words`, and at least 1 unless the transcript is empty. |
| Lrs2.PickWindowCovers | src/data/lrs2.py:97-99 | Every window of 1..`pretrain_words` words within the transcript is drawn by some pair of draws. |
| Lrs2.DrawnWords | src/data/lrs2.py:97-104 | The drawn words are exactly the slice of the transcript the window names. |
| Lrs2.SampleStart | src/data/lrs2.py:101-107 | The sample start is 0 or the start of one of the words. |
| Lrs2.SampleEnd | src/data/lrs2.py:102-109 | The sample end is never negative. |
| Lrs2.SpacedWords | src/data/lrs2.py:103-110 | The built content is empty exactly when there are no words. Otherwise it starts with a space and has at least one character per word. |
| Lrs2.SampleStartIsFirstNonZero | src/data/lrs2.py:101-107 | The sample start is the first non-zero word start, or 0 when there is none. |
| Lrs2.SampleEndIsMaximum | src/data/lrs2.py:102-109 | The sample end is the largest word end. When every end is negative it is 0. |
| Lrs2.SpacedWordsJoin | src/data/lrs2.py:103-110 | The built content is a space followed by the words joined with single spaces. |
| Lrs2.Trunc | src/data/lrs2.py:111 | `int(x)` truncates toward zero. |
| Lrs2.Ceil | src/data/lrs2.py:112 | `math.ceil` gives the least integer not below x. |
| Lrs2.Frames | src/data/lrs2.py:111-116 | The range spans at most `max_timesteps` frames. For a non-negative start, the first frame is at or before it and less than one frame earlier. The stop frame covers the end unless the range was cut. |
| Lrs2.WindowCrop | src/data/lrs2.py:101-118 | The crop's frames are those of the window's first non-zero start and largest end, times the frame rate. It spans at most `max_timesteps` frames. Its content is the built content stripped, with no edge space. When the words have no edge whitespace, the content is the words joined by single spaces. |
| Lrs2.CropText | src/data/lrs2.py:118 | The stripped content has no edge space, and it is the words joined by single spaces whenever that joined text has no edge space. |
| Lrs2.CropContent | src/data/lrs2.py:110-118 | Stripping the built content gives the words joined by single spaces. |
| Lrs2.PretrainWords | src/data/lrs2.py:89-118 | Fails with ValueError exactly when a word line after the four header lines does not parse or `pretrain_words` < 1. Otherwise the result is the crop of the drawn words. |
| Lrs2.Transcript | src/data/lrs2.py:126-131 | In the main set, the transcript is the first line after its seven-character prefix, or an IndexError when there is no line. In pretraining, it is the crop's content. |
| Lrs2.GetItem | src/data/lrs2.py:120-138 | An item loads exactly when its transcript exists, the clip (cut to the crop's frames in pretraining) has at most `max_timesteps` frames, and every lowercased character has a `char2int` id. A transcript failure is passed on, too many frames is an AssertionError, and an unknown character a KeyError. The text is the lowercased transcript with its ids. The input length is the clip's length, in pretraining the length of `video[start_frame:stop_frame]`. |
| Lrs2.MainTranscriptEncodes | src/data/lrs2.py:131-136 | A main-set transcript made of letters of either case, digits, spaces and apostrophes loads, when the clip fits in `max_timesteps`. |
| OuluVs2.Speakers | src/data/ouluvs2.py:19-23 | Defined exactly for `train`, `val` and `test`; any other mode is a KeyError. Each range is non-empty. |
| OuluVs2.SpeakersDisjoint | src/data/ouluvs2.py:19-23 | The three speaker ranges are disjoint and cover 0..39 and 43..52. Speakers 40 to 42 belong to no split. |
| OuluVs2.Preprocess | src/data/ouluvs2.py:41-62 | The vocabulary is strictly sorted and holds exactly the characters of the lowercased phrases. |
| OuluVs2.MappingOf | src/data/ouluvs2.py:60-62 | The mapping's keys are the space and the vocabulary. |
| OuluVs2.MappingIds | src/data/ouluvs2.py:60-62 | When the vocabulary holds the space, each character gets its position plus one, so the ids are 1..n and one-to-one. |
| OuluVs2.SpaceInVocabulary | src/data/ouluvs2.py:25-36 | The ten phrases contain a space, so the initial `' ': 0` entry is overwritten. |
| OuluVs2.PhraseIds | src/data/ouluvs2.py:25-62 | For the ten phrases, every id lies in 1..n, no two characters share one, and the space has id 1. |
| OuluVs2.SpaceFirst | src/data/ouluvs2.py:25-62 | No phrase character sorts below the space, so the space is the first vocabulary character and its id is 1. |
| OuluVs2.PhraseCharPrintable | src/data/ouluvs2.py:25-36 | Every character of the ten phrases, and its lowercase form, is at or above the space. |
| OuluVs2.PreprocessedIds | src/data/ouluvs2.py:52-62 | For any phrases with a space, the ids lie in 1..n and are one-to-one. |
| OuluVs2.LoadUtterance | src/data/ouluvs2.py:77-90 | The ids are those of the lowercased phrase `(u - 31) // 3`, picked with Python indexing. The load fails with IndexError or KeyError otherwise. |
| OuluVs2.PhraseIndex | src/data/ouluvs2.py:86 | The phrase index r of utterance u satisfies 31 + 3r <= u < 34 + 3r. |
| OuluVs2.PhraseCharsMapped | src/data/ouluvs2.py:86-88 | Every character of every lowercased phrase has an id. |
| OuluVs2.UtteranceLoads | src/data/ouluvs2.py:86-88 | An utterance loads exactly when its phrase index is a valid Python index. |
| OuluVs2.UtterancePhrases | src/data/ouluvs2.py:86 | Utterances 31 to 60 select phrases 0 to 9, three numbers each, and always load. |
| OuluVs2.ParseFields | src/data/ouluvs2.py:121 | The fields parse exactly when each one after its first character is an integer. Otherwise it is a ValueError. |
| OuluVs2.NameFields | src/data/ouluvs2.py:120 | A file name gives at least one field, and no field holds `_`. Joined by `_`, the fields give back the last path component without its last four characters. |
| OuluVs2.ParseClip | src/data/ouluvs2.py:120-122 | Parsing succeeds exactly when the name has three numeric fields and the view indexes the angle list. Too few or too many fields, or a non-number, give ValueError; a view out of range gives IndexError. A parsed name has exactly three numeric fields. The speaker and utterance are the first and third. The angle is the view's entry among 0, 30, 45, 60 and 90, with Python indexing. |
| OuluVs2.ParseClipName | src/data/ouluvs2.py:120-122 | A file named `s<speaker>_v<view>_u<utterance>.mp4` in any directory parses back to its numbers, with views 1 to 5 mapped to their angles. |
| OuluVs2.BuildFileList | src/data/ouluvs2.py:64-75 | The build fails with ValueError exactly when some file's speaker field does not parse. Otherwise a file is listed exactly when its speaker is in the split's range. |
| Beam.IdTable | src/decoder/beam.py:10 | `int2char` maps every position of the vocabulary, and only those, to its symbol. |
| Beam.BeamText | src/decoder/beam.py:22-26 | A non-positive length gives the empty string. Otherwise the beam spells its first `size` ids, failing with KeyError exactly on an unknown id. |
| Beam.ConvertBeams | src/decoder/beam.py:21-27 | One string per beam, in order, each that beam's text. The conversion fails with IndexError when there are more beams than lengths. |
| Beam.EntryTexts | src/decoder/beam.py:19-22 | An entry with no beams converts to the empty list. Any other entry converts exactly when `seq_len[b]` exists and its beams convert, and then gives their texts. |
| Beam.ConvertToStrings | src/decoder/beam.py:17-29 | One list per batch entry, in order. An entry with no beams gives an empty list and needs no lengths. Every other entry b needs `seq_len[b]` and gives its beam texts. The conversion succeeds exactly when every entry with beams has its lengths and converts. |
| Beam.ConvertToStringsBeams | src/decoder/beam.py:17-29 | In a successful conversion, entry b keeps its number of beams. Each of its beams has a length in `seq_len[b]`, and beam p is its own text cut to `seq_len[b][p]`. |
| Beam.EmptyEntryNeedsNoLength | src/decoder/beam.py:19-22 | A batch of one entry with no beams converts to one empty list, even with no lengths at all. |
| Beam.BeamTextCharacters | src/decoder/beam.py:23-24 | With one-character symbols, a beam of length `size` gives `size` characters, character j being the symbol of id j. |
| Beam.ConvertWellFormed | src/decoder/beam.py:17-29 | Output with ids in the vocabulary always converts when every entry with beams has at least as many lengths as beams. |
| Vocab.SortedDistinct | src/data/ouluvs2.py:56-59 | Collecting distinct characters and sorting them gives a strictly increasing list of exactly those characters. |
| Vocab.SortedUnique | src/data/grid.py:83-86 | A set of characters has only one strictly sorted listing, so the vocabulary does not depend on the order characters were seen. |
| Vocab.Encode | src/data/grid.py:128-130 | Encoding a text is a KeyError exactly on a character without an id. Otherwise it gives one id per character. |
| PySeq.RandInt | src/data/lrs2.py:97-98 | `random.randint(lo, hi)` is a ValueError exactly for an empty range. Otherwise it lies in [lo, hi]. |
| PySeq.RandIntCovers | src/data/lrs2.py:97-98 | Every value of a non-empty range is the result of some draw. |

## Left out

- Neural network modules are not modelled: the ResNet front end, the LSTM, the attention decoder and `log_softmax`/`kl_div`. They only transform tensors. `Curriculum.Unroll` takes the decoder's arg-max columns as a parameter and does not sum the loss.
- The CTC beam search (`ctcdecode`) is not modelled. Its ranked results and lengths are parameters of `Decoding.BeamDecode` and `Beam.ConvertToStrings`.
- The `editdistance` library is replaced by its definition: Levenshtein distance with unit costs, computed by `EditDistance.Distance`.
- Video decoding, image loading, transforms, tensor building and padding are not modelled; frame counts and the video's frame rate are parameters. File reading, `glob` and directory listings are not modelled either; contents and listings are parameters.
- Randomness is not modelled: each `random.random()` or `random.randint` draw is a parameter in [0, 1). `PySeq.RandInt` is the uniform reading of a draw, not CPython's bit-level algorithm.
- Floating-point rounding is not modelled: rates, ratios and times are exact reals.
- `str.lower` is ASCII only.
- `int()` and `float()` read plain optionally signed digits and plain unsigned decimals. They reject surrounding whitespace, underscores, exponents and the special float names.
- The model's id-to-symbol table and character list are parameters. The model reads `dataset.int2char` and `dataset.char_list`, which the LRS2 loader never sets as attributes, so where they come from is not part of this model. The LRS2 loader's own table is modelled in `Lrs2`.
- `self.vocab_list` aliases the dataset's list, so renaming it also renames the dataset's copy. The model treats the renamed list as a new value.
- Printing, logging, the optimiser, the scheduler and `validation_step`'s bookkeeping are not modelled. Training loops are not modelled.
- `src/data/lrw.py`, `src/data/hdf5.py`, `src/models/lrs2_model.py`, `train.py` and `train_sentences.py` are not part of this model.
- Grid.ParseLines: states when a parse succeeds and the error kinds, not which line fails or which of the two errors it raises. The field values are pinned down only for well-formed files, by `Grid.ParseRenderAlign`.
- Grid.ParseAlign: as for Grid.ParseLines, which it runs on the file's lines.
- Grid.BuildFileList: states which pairs are listed, not their order or repetitions.
- OuluVs2.BuildFileList: states which files are listed, not their order or repetitions.
- GridSamples.Preprocess: states properties of the samples and vocabulary. It does not state that the samples are the per-video samples concatenated in file order; `GridSamples.VideoSamples` states what each video contributes.
- Scoring.NormaliseHypothesis: its own contract gives only shape facts. The exact result is stated by `Scoring.HypothesisMeaning` for rows spelled from well-formed tables.
