/** The conversion of CTC beam-search output to text (src/decoder/beam.py):
    the ranked id sequences of every batch entry become strings through the
    `int2char` table, each cut to its reported length. */
module Beam {
  import opened Results
  import opened PySeq
  import opened Spelling

  /** `dict([(i, c) for (i, c) in enumerate(vocab)])`. */
  function IdTable(vocab: seq<string>): (r: map<int, string>)
    ensures forall i :: i in r <==> 0 <= i < |vocab|
    ensures forall i :: 0 <= i < |vocab| ==> r[i] == vocab[i]
  {
    map i | 0 <= i < |vocab| :: vocab[i]
  }

  /** One beam's text: the symbols of its first `size` ids, or the empty
      string when `size` is not positive. */
  function BeamText(table: map<int, string>, utt: seq<int>, size: int): (r: Result<string>)
    ensures size <= 0 ==> r == Ok("")
    ensures r.Ok? <==> size <= 0 || forall k :: 0 <= k < |Take(utt, size)| ==> Take(utt, size)[k] in table
    ensures r.Err? ==> r.fault == KeyError
  {
    if size > 0 then Spell(table, Take(utt, size)) else Ok("")
  }

  /** Every beam has a length and spells with it. */
  predicate BeamsConvert(table: map<int, string>, beams: seq<seq<int>>, sizes: seq<int>) {
    |beams| <= |sizes| && forall p :: 0 <= p < |beams| ==> BeamText(table, beams[p], sizes[p]).Ok?
  }

  /** `texts` are the beams' texts, one per beam, in order. */
  predicate BeamTexts(texts: seq<string>, table: map<int, string>, beams: seq<seq<int>>, sizes: seq<int>)
    requires BeamsConvert(table, beams, sizes)
  {
    |texts| == |beams| && forall p :: 0 <= p < |beams| ==> texts[p] == BeamText(table, beams[p], sizes[p]).value
  }

  /** The beams of one batch entry, with their lengths `seq_len[b]`. */
  function ConvertBeams(table: map<int, string>, beams: seq<seq<int>>, sizes: seq<int>): (r: Result<seq<string>>)
    ensures r.Ok? <==> BeamsConvert(table, beams, sizes)
    ensures r.Err? ==> r.fault == IndexError || r.fault == KeyError
    ensures r.Ok? ==> BeamTexts(r.value, table, beams, sizes)
    decreases |beams|
  {
    if |beams| == 0 then Ok([])
    else
      BeamsConvertStep(table, beams, sizes);
      var size :- Index(sizes, 0);
      var text :- BeamText(table, beams[0], size);
      var rest :- ConvertBeams(table, beams[1..], sizes[1..]);
      var texts := [text] + rest;
      assert forall p :: 1 <= p < |beams| ==>
        texts[p] == rest[p - 1] && beams[p] == beams[1..][p - 1] && sizes[p] == sizes[1..][p - 1];
      Ok(texts)
  }

  /** The beams convert when the first has a length and spells with it and
      the others convert with the remaining lengths. */
  lemma BeamsConvertStep(table: map<int, string>, beams: seq<seq<int>>, sizes: seq<int>)
    requires |beams| > 0
    ensures BeamsConvert(table, beams, sizes) <==>
      (|sizes| > 0 && BeamText(table, beams[0], sizes[0]).Ok? && BeamsConvert(table, beams[1..], sizes[1..]))
  {
    assert forall p :: 1 <= p < |beams| ==> beams[p] == beams[1..][p - 1];
    assert forall p :: 1 <= p < |sizes| ==> sizes[p] == sizes[1..][p - 1];
  }

  /** Batch entry `b` converts: it has no beams, or `seq_len[b]` exists and
      its beams convert with those lengths. */
  predicate EntryConverts(table: map<int, string>, beams: seq<seq<int>>, seqLen: seq<seq<int>>, b: nat) {
    |beams| == 0 || (b < |seqLen| && ConvertBeams(table, beams, seqLen[b]).Ok?)
  }

  /** The texts of batch entry `b`: `seq_len[b]` is read only when the
      entry has a beam, so an entry without beams needs no lengths. */
  function EntryTexts(table: map<int, string>, beams: seq<seq<int>>, seqLen: seq<seq<int>>, b: nat): (r: Result<seq<string>>)
    ensures r.Ok? <==> EntryConverts(table, beams, seqLen, b)
    ensures r.Err? ==> r.fault == IndexError || r.fault == KeyError
    ensures |beams| == 0 ==> r == Ok([])
    ensures r.Ok? ==> |r.value| == |beams|
    ensures r.Ok? && |beams| > 0 ==> r.value == ConvertBeams(table, beams, seqLen[b]).value
  {
    if |beams| == 0 then Ok([])
    else
      var sizes :- Index(seqLen, b);
      ConvertBeams(table, beams, sizes)
  }

  /** `convert_to_strings`: one list per batch entry and one string per
      beam, in input order; entries are converted first to last, so the
      first failing entry raises. */
  function ConvertToStrings(table: map<int, string>, out: seq<seq<seq<int>>>, seqLen: seq<seq<int>>): (r: Result<seq<seq<string>>>)
    ensures r.Ok? <==> forall b :: 0 <= b < |out| ==> EntryConverts(table, out[b], seqLen, b)
    ensures r.Err? ==> r.fault == IndexError || r.fault == KeyError
    ensures r.Ok? ==> |r.value| == |out| && forall b :: 0 <= b < |out| ==> EntryTexts(table, out[b], seqLen, b) == Ok(r.value[b])
    decreases |out|
  {
    if |out| == 0 then Ok([])
    else
      var n := |out| - 1;
      var init := out[..n];
      var first := ConvertToStrings(table, init, seqLen);
      var last := EntryTexts(table, out[n], seqLen, n);
      if first.Err? then
        assert exists b :: 0 <= b < n && !EntryConverts(table, init[b], seqLen, b);
        assert forall b :: 0 <= b < n ==> init[b] == out[b];
        Err(first.fault)
      else if last.Err? then Err(last.fault)
      else
        var r := first.value + [last.value];
        assert forall b :: 0 <= b < n ==> init[b] == out[b] && r[b] == first.value[b];
        Ok(r)
  }

  /** An entry without beams converts to no strings even when `seq_len`
      has no entry for it. */
  lemma EmptyEntryNeedsNoLength()
    ensures ConvertToStrings(map[], [[]], []) == Ok([[]])
  {
    var table: map<int, string> := map[];
    var out: seq<seq<seq<int>>> := [[]];
    var seqLen: seq<seq<int>> := [];
    assert out[..0] == [];
    assert EntryTexts(table, out[0], seqLen, 0) == Ok([]);
    assert ConvertToStrings(table, out[..0], seqLen) == Ok([]);
    var none: seq<seq<string>> := [];
    var empty: seq<string> := [];
    assert none + [empty] == [[]];
    assert ConvertToStrings(table, out, seqLen) == Ok(none + [empty]);
  }

  /** Entry `b`, beam `p` of a successful conversion is that beam's text. */
  lemma ConvertToStringsBeams(table: map<int, string>, out: seq<seq<seq<int>>>, seqLen: seq<seq<int>>, b: int, p: int)
    requires ConvertToStrings(table, out, seqLen).Ok?
    requires 0 <= b < |out| && 0 <= p < |out[b]|
    ensures b < |seqLen| && p < |seqLen[b]|
    ensures |ConvertToStrings(table, out, seqLen).value[b]| == |out[b]|
    ensures ConvertToStrings(table, out, seqLen).value[b][p] == BeamText(table, out[b][p], seqLen[b][p]).value
  {
  }

  /** With one-character symbols, a beam of positive length `size` within
      its ids gives a string of exactly `size` characters, character `j`
      being the symbol of id `j`. */
  lemma BeamTextCharacters(vocab: seq<string>, utt: seq<int>, size: int)
    requires forall i :: 0 <= i < |vocab| ==> |vocab[i]| == 1
    requires 0 < size <= |utt| && forall j :: 0 <= j < size ==> 0 <= utt[j] < |vocab|
    ensures BeamText(IdTable(vocab), utt, size).Ok?
    ensures |BeamText(IdTable(vocab), utt, size).value| == size
    ensures forall j :: 0 <= j < size ==> [BeamText(IdTable(vocab), utt, size).value[j]] == vocab[utt[j]]
  {
    var ids := Take(utt, size);
    SliceInRange(utt, 0, size);
    assert forall k :: 0 <= k < |ids| ==> ids[k] == utt[k];
    SpellSingleCharacters(IdTable(vocab), ids);
  }

  /** Every beam of every batch entry converts when its length is within
      its ids and those ids are in the table; the result then has the shape
      of the input. */
  lemma ConvertWellFormed(vocab: seq<string>, out: seq<seq<seq<int>>>, seqLen: seq<seq<int>>)
    requires forall b :: 0 <= b < |out| && |out[b]| > 0 ==> b < |seqLen| && |out[b]| <= |seqLen[b]|
    requires forall b, p, j :: 0 <= b < |out| && 0 <= p < |out[b]| && 0 <= j < |out[b][p]| ==> 0 <= out[b][p][j] < |vocab|
    ensures ConvertToStrings(IdTable(vocab), out, seqLen).Ok?
  {
    var table := IdTable(vocab);
    forall b | 0 <= b < |out| && |out[b]| > 0 ensures ConvertBeams(table, out[b], seqLen[b]).Ok? {
      forall p | 0 <= p < |out[b]| ensures BeamText(table, out[b][p], seqLen[b][p]).Ok? {
        var utt := out[b][p];
        var size := seqLen[b][p];
        if size > 0 {
          forall k | 0 <= k < |Take(utt, size)| ensures Take(utt, size)[k] in table {
            var a := SliceBound(|utt|, 0);
            assert Take(utt, size)[k] == utt[a + k];
          }
        }
      }
    }
  }
}
