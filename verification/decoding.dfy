/** The decoding and bookkeeping of the LRS2 attention model in
    src/models/lrs2_resnet_attn.py: `greedy_decode` and `beam_decode` turn
    id rows into normalised text pairs and score them, the beam decoder's
    vocabulary renames the special symbols, and `validation_end` keeps the
    best error rates seen so far. */
module Decoding {
  import opened Results
  import opened PySeq
  import opened PyText
  import opened Spelling
  import opened Scoring
  import opened ErrorRates

  // ------------------------------------------------------- batch scoring

  /** The scores of one output/reference pair, once both texts exist. */
  function ScorePair(p: Result<(string, string)>): (r: Result<Score>)
    ensures r.Ok? <==> p.Ok? && (|p.value.0| > 0 || |p.value.1| > 0)
    ensures p.Err? ==> r == Err(p.fault)
  {
    var (output, expected) :- p;
    ScoreExample(output, expected)
  }

  /** The batch means of the pairs' error rates, computed example by
      example in order: the first failure is the one raised, and an empty
      batch divides by zero. */
  function BatchScore(pairs: seq<Result<(string, string)>>): (r: Result<Score>)
    ensures r.Ok? <==> |pairs| > 0 && forall b :: 0 <= b < |pairs| ==>
      pairs[b].Ok? && (|pairs[b].value.0| > 0 || |pairs[b].value.1| > 0)
    ensures |pairs| == 0 ==> r == Err(ZeroDivisionError)
    ensures r.Ok? ==> InUnit(r.value.cer) && InUnit(r.value.wer)
    ensures r.Ok? ==> (r.value.cer == 0.0 <==> forall b :: 0 <= b < |pairs| ==> pairs[b].value.0 == pairs[b].value.1)
    ensures r.Ok? ==> (r.value.wer == 0.0 <==> forall b :: 0 <= b < |pairs| ==> pairs[b].value.0 == pairs[b].value.1)
  {
    var scores := seq(|pairs|, b requires 0 <= b < |pairs| => ScorePair(pairs[b]));
    assert forall b :: 0 <= b < |pairs| ==> scores[b] == ScorePair(pairs[b]);
    var r := Mean(Total(scores), |pairs|);
    if r.Ok? then
      MeanBounds(scores);
      r
    else
      r
  }

  /** The first failing example decides the error of a batch. */
  lemma BatchScoreFirstFault(pairs: seq<Result<(string, string)>>, b: nat)
    requires b < |pairs| && pairs[b].Err?
    requires forall j :: 0 <= j < b ==> pairs[j].Ok? && (|pairs[j].value.0| > 0 || |pairs[j].value.1| > 0)
    ensures BatchScore(pairs) == Err(pairs[b].fault)
  {
    var scores := seq(|pairs|, b requires 0 <= b < |pairs| => ScorePair(pairs[b]));
    var t := Total(scores);
    assert scores[b].Err?;
    var i :| 0 <= i < |scores| && scores[i].Err? && t.fault == scores[i].fault
      && forall j :: 0 <= j < i ==> scores[j].Ok?;
    assert scores[i] == ScorePair(pairs[i]);
    assert i == b;
  }

  // ------------------------------------------------------- greedy_decode

  /** One example of `greedy_decode`: both rows spelled through the
      id-to-symbol table (KeyError on an unknown id), the output normalised
      as a hypothesis and the target as a reference. */
  function GreedyPair(table: map<int, string>, output: seq<int>, target: seq<int>): (r: Result<(string, string)>)
    ensures r.Ok? <==> (forall k :: 0 <= k < |output| ==> output[k] in table) && (forall k :: 0 <= k < |target| ==> target[k] in table)
    ensures r.Err? ==> r.fault == KeyError
  {
    var hyp :- Spell(table, output);
    var ref :- Spell(table, target);
    Ok((NormaliseHypothesis(hyp), NormaliseLabel(ref)))
  }

  /** `greedy_decode(results, target_tensor)` after the arg-max: the mean
      character and word error rates over the batch. */
  function GreedyDecode(table: map<int, string>, results: seq<seq<int>>, targets: seq<seq<int>>): (r: Result<Score>)
    requires |targets| == |results|
    requires forall b :: 0 <= b < |results| ==> |targets[b]| == |results[b]|
    ensures r.Ok? <==> |results| > 0 && forall b :: 0 <= b < |results| ==>
      var p := GreedyPairs(table, results, targets)[b];
      p.Ok? && (|p.value.0| > 0 || |p.value.1| > 0)
    ensures |results| == 0 ==> r == Err(ZeroDivisionError)
    ensures r.Ok? ==> InUnit(r.value.cer) && InUnit(r.value.wer)
    ensures r.Ok? ==> (r.value.cer == 0.0 <==> forall b :: 0 <= b < |results| ==>
      var p := GreedyPairs(table, results, targets)[b];
      p.value.0 == p.value.1)
    ensures r.Ok? ==> (r.value.wer == 0.0 <==> r.value.cer == 0.0)
  {
    BatchScore(GreedyPairs(table, results, targets))
  }

  /** The pair of every example of the batch. */
  function GreedyPairs(table: map<int, string>, results: seq<seq<int>>, targets: seq<seq<int>>): (r: seq<Result<(string, string)>>)
    requires |targets| == |results|
    requires forall b :: 0 <= b < |results| ==> |targets[b]| == |results[b]|
    ensures |r| == |results|
    ensures forall b {:trigger r[b]} :: 0 <= b < |results| ==> r[b] == GreedyPair(table, results[b], targets[b])
  {
    seq(|results|, b requires 0 <= b < |results| => GreedyPair(table, results[b], targets[b]))
  }

  predicate WellFormedTable(table: map<int, string>) {
    forall i :: i in table ==> PlainOrSpecial(table[i])
  }

  /** With a table of plain symbols and the three specials, a greedy example
      compares the hypothesis symbols before the first `<eos>` (pads and
      starts read as '&', then stripped and collapsed) with the reference
      symbols before the first `<eos>` (pads read as spaces). */
  lemma GreedyPairMeaning(table: map<int, string>, output: seq<int>, target: seq<int>)
    requires WellFormedTable(table)
    requires forall k :: 0 <= k < |output| ==> output[k] in table
    requires forall k :: 0 <= k < |target| ==> target[k] in table
    ensures GreedyPair(table, output, target)
      == Ok((HypothesisReference(Symbols(table, output).value), LabelReference(Symbols(table, target).value)))
  {
    var hs := Symbols(table, output).value;
    var ts := Symbols(table, target).value;
    assert WellFormed(hs) by {
      forall k | 0 <= k < |hs| ensures PlainOrSpecial(hs[k]) {
        var id := output[k];
        assert hs[k] == table[id];
      }
    }
    assert WellFormed(ts) by {
      forall k | 0 <= k < |ts| ensures PlainOrSpecial(ts[k]) {
        var id := target[k];
        assert ts[k] == table[id];
      }
    }
    HypothesisMeaning(hs);
    LabelMeaning(ts);
  }

  // --------------------------------------------------------- beam_decode

  /** `xs.index(x)`: the first position of `x`, a ValueError without one. */
  function ListIndex<T(==)>(xs: seq<T>, x: T): (r: Result<nat>)
    ensures r.Ok? <==> x in xs
    ensures r.Err? ==> r.fault == ValueError
    ensures r.Ok? ==> r.value < |xs| && xs[r.value] == x && x !in xs[..r.value]
  {
    var k := Find(xs, x);
    if k < 0 then Err(ValueError) else Ok(k)
  }

  /** `xs[xs.index(from)] = to`. */
  function RenameFirst<T(==)>(xs: seq<T>, from: T, to: T): (r: Result<seq<T>>)
    ensures r.Ok? <==> from in xs
    ensures r.Err? ==> r.fault == ValueError
    ensures r.Ok? ==> |r.value| == |xs| && r.value[ListIndex(xs, from).value] == to
    ensures r.Ok? ==> forall k :: 0 <= k < |xs| && k != ListIndex(xs, from).value ==> r.value[k] == xs[k]
  {
    var k :- ListIndex(xs, from);
    Ok(xs[k := to])
  }

  /** The beam decoder's vocabulary: the character list with its first
      `<pad>`, `<eos>` and `<sos>` renamed to "_", "@" and "$", in that
      order; a ValueError when one of them is missing. */
  function BeamVocabulary(charList: seq<string>): (r: Result<seq<string>>)
    ensures r.Ok? <==> Pad in charList && Eos in charList && Sos in charList
    ensures r.Err? ==> r.fault == ValueError
    ensures r.Ok? ==> |r.value| == |charList| && "_" in r.value
    ensures r.Ok? ==> r.value == charList[ListIndex(charList, Pad).value := "_"]
      [ListIndex(charList, Eos).value := "@"][ListIndex(charList, Sos).value := "$"]
  {
    var v1 :- RenameFirst(charList, Pad, "_");
    assert Eos in v1 <==> Eos in charList by {
      PreservedBySpecialRename(charList, Pad, "_", Eos);
    }
    assert Sos in v1 <==> Sos in charList by {
      PreservedBySpecialRename(charList, Pad, "_", Sos);
    }
    var v2 :- RenameFirst(v1, Eos, "@");
    assert Sos in v2 <==> Sos in v1 by {
      PreservedBySpecialRename(v1, Eos, "@", Sos);
    }
    assert "_" in v2 by {
      UnderscoreSurvives(v1, Eos, "@");
    }
    var v3 :- RenameFirst(v2, Sos, "$");
    IndexAfterRename(charList, Pad, "_", Eos);
    IndexAfterRename(charList, Pad, "_", Sos);
    IndexAfterRename(v1, Eos, "@", Sos);
    assert "_" in v3 by {
      UnderscoreSurvives(v2, Sos, "$");
    }
    Ok(v3)
  }

  /** Renaming the first `from` keeps every other value that was present. */
  lemma PreservedBySpecialRename(xs: seq<string>, from: string, to: string, other: string)
    requires from in xs && other != from && other != to
    ensures other in RenameFirst(xs, from, to).value <==> other in xs
  {
    var r := RenameFirst(xs, from, to).value;
    var k := ListIndex(xs, from).value;
    if other in xs {
      var i :| 0 <= i < |xs| && xs[i] == other;
      assert r[i] == other;
    }
    if other in r {
      var i :| 0 <= i < |r| && r[i] == other;
      assert xs[i] == other;
    }
  }

  /** Renaming the first `from` does not move the first occurrence of any
      other value. */
  lemma IndexAfterRename(xs: seq<string>, from: string, to: string, other: string)
    requires from in xs && other in xs && other != from && other != to
    ensures other in RenameFirst(xs, from, to).value
    ensures ListIndex(RenameFirst(xs, from, to).value, other) == ListIndex(xs, other)
  {
    var r := RenameFirst(xs, from, to).value;
    var k := ListIndex(xs, other).value;
    assert r[k] == other;
  }

  lemma UnderscoreSurvives(xs: seq<string>, from: string, to: string)
    requires from in xs && "_" in xs && from != "_"
    ensures "_" in RenameFirst(xs, from, to).value
  {
    var r := RenameFirst(xs, from, to).value;
    var i :| 0 <= i < |xs| && xs[i] == "_";
    assert r[i] == "_";
  }

  /** `blank_id=self.vocab_list.index("_")`: the first "_" of the beam
      vocabulary. */
  function BlankId(charList: seq<string>): (r: Result<nat>)
    ensures r.Ok? <==> BeamVocabulary(charList).Ok?
    ensures r.Err? ==> r.fault == ValueError
    ensures r.Ok? ==> r.value < |charList| && BeamVocabulary(charList).value[r.value] == "_"
    ensures r.Ok? ==> "_" !in BeamVocabulary(charList).value[..r.value]
  {
    var vocab :- BeamVocabulary(charList);
    ListIndex(vocab, "_")
  }

  /** One example of `beam_decode`: the best beam's first `seqLen` tokens
      looked up in the beam vocabulary (negative ids wrap, out-of-range ids
      are an IndexError), cut, stripped and collapsed; the target spelled
      through the id-to-symbol table and normalised as a reference. */
  function BeamPair(vocabList: seq<string>, table: map<int, string>, tokens: seq<int>, seqLen: int, target: seq<int>): (r: Result<(string, string)>)
    ensures r.Ok? <==> ((forall k :: 0 <= k < |Take(tokens, seqLen)| ==> -|vocabList| <= Take(tokens, seqLen)[k] < |vocabList|)
      && (forall k :: 0 <= k < |target| ==> target[k] in table))
    ensures r.Err? && ListSymbols(vocabList, Take(tokens, seqLen)).Err? ==> r.fault == IndexError
    ensures r.Ok? ==> r.value.0 == NormaliseBeam(Flatten(ListSymbols(vocabList, Take(tokens, seqLen)).value))
    ensures r.Ok? ==> r.value.1 == NormaliseLabel(Spell(table, target).value)
  {
    var syms :- ListSymbols(vocabList, Take(tokens, seqLen));
    var ref :- Spell(table, target);
    Ok((NormaliseBeam(Flatten(syms)), NormaliseLabel(ref)))
  }

  /** `beam_decode`: for every example the first beam (the best-scored one)
      and its length, scored against the target row. */
  function BeamDecode(vocabList: seq<string>, table: map<int, string>, beamResults: seq<seq<seq<int>>>,
                      outSeqLen: seq<seq<int>>, targets: seq<seq<int>>): (r: Result<Score>)
    requires |beamResults| == |targets| && |outSeqLen| == |targets|
    requires forall b :: 0 <= b < |targets| ==> |beamResults[b]| > 0 && |outSeqLen[b]| > 0
    ensures r.Ok? <==> |targets| > 0 && forall b :: 0 <= b < |targets| ==>
      var p := BeamPairs(vocabList, table, beamResults, outSeqLen, targets)[b];
      p.Ok? && (|p.value.0| > 0 || |p.value.1| > 0)
    ensures |targets| == 0 ==> r == Err(ZeroDivisionError)
    ensures r.Ok? ==> InUnit(r.value.cer) && InUnit(r.value.wer)
    ensures r.Ok? ==> (r.value.cer == 0.0 <==> forall b :: 0 <= b < |targets| ==>
      var p := BeamPairs(vocabList, table, beamResults, outSeqLen, targets)[b];
      p.value.0 == p.value.1)
    ensures r.Ok? ==> (r.value.wer == 0.0 <==> r.value.cer == 0.0)
  {
    BatchScore(BeamPairs(vocabList, table, beamResults, outSeqLen, targets))
  }

  /** The pair of every example, from its first beam. */
  function BeamPairs(vocabList: seq<string>, table: map<int, string>, beamResults: seq<seq<seq<int>>>,
                     outSeqLen: seq<seq<int>>, targets: seq<seq<int>>): (r: seq<Result<(string, string)>>)
    requires |beamResults| == |targets| && |outSeqLen| == |targets|
    requires forall b :: 0 <= b < |targets| ==> |beamResults[b]| > 0 && |outSeqLen[b]| > 0
    ensures |r| == |targets|
    ensures forall b {:trigger r[b]} :: 0 <= b < |targets| ==>
      r[b] == BeamPair(vocabList, table, beamResults[b][0], outSeqLen[b][0], targets[b])
  {
    seq(|targets|, b requires 0 <= b < |targets| =>
      BeamPair(vocabList, table, beamResults[b][0], outSeqLen[b][0], targets[b]))
  }

  // ------------------------------------------------------ validation_end

  /** `best_val_cer` and `best_val_wer` before the first validation. */
  const InitialBest: real := 1.0

  function SumReal(xs: seq<real>): real {
    if |xs| == 0 then 0.0 else xs[0] + SumReal(xs[1..])
  }

  /** `np.mean` of the per-batch rates: NaN, here `None`, for an epoch
      without batches. */
  function EpochMean(xs: seq<real>): (r: Option<real>)
    ensures r.Some? <==> |xs| > 0
    ensures r.Some? ==> r.value * |xs| as real == SumReal(xs)
  {
    if |xs| == 0 then None
    else
      FractionTimes(SumReal(xs), |xs| as real);
      Some(SumReal(xs) / |xs| as real)
  }

  lemma FractionTimes(d: real, n: real)
    requires n > 0.0
    ensures d / n * n == d
  {
  }

  /** Rates of the unit interval have a mean in it. */
  lemma {:induction false} SumRealBounds(xs: seq<real>)
    requires forall i :: 0 <= i < |xs| ==> InUnit(xs[i])
    ensures 0.0 <= SumReal(xs) <= |xs| as real
    decreases |xs|
  {
    if |xs| > 0 {
      assert forall i :: 0 <= i < |xs| - 1 ==> xs[1..][i] == xs[i + 1];
      SumRealBounds(xs[1..]);
    }
  }

  lemma EpochMeanInUnit(xs: seq<real>)
    requires |xs| > 0 && forall i :: 0 <= i < |xs| ==> InUnit(xs[i])
    ensures InUnit(EpochMean(xs).value)
  {
    SumRealBounds(xs);
    FractionInUnit(SumReal(xs), |xs| as real);
  }

  /** `if self.best > value: self.best = value`; a NaN mean compares false
      and leaves the best alone. */
  function UpdateBest(best: real, value: Option<real>): (r: real)
    ensures r <= best
    ensures value.Some? ==> r <= value.value
    ensures r == best || (value.Some? && r == value.value)
  {
    if value.Some? && best > value.value then value.value else best
  }

  /** The best value after a sequence of validation epochs. */
  function BestAfter(values: seq<Option<real>>): real
    decreases |values|
  {
    if |values| == 0 then InitialBest
    else UpdateBest(BestAfter(values[..|values| - 1]), values[|values| - 1])
  }

  /** The best value is the running minimum: no larger than the initial 1.0
      or any defined epoch mean, and equal to one of them. */
  lemma {:induction false} BestIsMinimum(values: seq<Option<real>>)
    ensures BestAfter(values) <= InitialBest
    ensures forall i :: 0 <= i < |values| && values[i].Some? ==> BestAfter(values) <= values[i].value
    ensures BestAfter(values) == InitialBest
      || exists i :: 0 <= i < |values| && values[i].Some? && BestAfter(values) == values[i].value
    decreases |values|
  {
    if |values| > 0 {
      var init := values[..|values| - 1];
      BestIsMinimum(init);
      assert forall i :: 0 <= i < |init| ==> init[i] == values[i];
      if BestAfter(values) != InitialBest && BestAfter(values) != BestAfter(init) {
        assert BestAfter(values) == values[|values| - 1].value;
      }
    }
  }

  /** One validation batch's `val_cer` and `val_wer`. */
  datatype BatchRates = BatchRates(cer: real, wer: real)

  /** `best_val_cer` and `best_val_wer`. */
  datatype Best = Best(cer: real, wer: real)

  function Cers(outputs: seq<BatchRates>): (r: seq<real>)
    ensures |r| == |outputs|
    ensures forall i :: 0 <= i < |outputs| ==> r[i] == outputs[i].cer
  {
    seq(|outputs|, i requires 0 <= i < |outputs| => outputs[i].cer)
  }

  function Wers(outputs: seq<BatchRates>): (r: seq<real>)
    ensures |r| == |outputs|
    ensures forall i :: 0 <= i < |outputs| ==> r[i] == outputs[i].wer
  {
    seq(|outputs|, i requires 0 <= i < |outputs| => outputs[i].wer)
  }

  /** `validation_end`: with no batches, `torch.stack` of the empty loss
      list raises before any best is compared; otherwise each best drops to
      the epoch's mean rate when that is lower. */
  function ValidationEnd(best: Best, outputs: seq<BatchRates>): (r: Result<Best>)
    ensures r.Err? <==> |outputs| == 0
    ensures r.Err? ==> r.fault == RuntimeError
    ensures r.Ok? ==> r.value.cer <= best.cer && r.value.wer <= best.wer
    ensures r.Ok? ==> r.value.cer <= EpochMean(Cers(outputs)).value
    ensures r.Ok? ==> r.value.wer <= EpochMean(Wers(outputs)).value
    ensures r.Ok? ==> r.value.cer == best.cer || r.value.cer == EpochMean(Cers(outputs)).value
    ensures r.Ok? ==> r.value.wer == best.wer || r.value.wer == EpochMean(Wers(outputs)).value
  {
    if |outputs| == 0 then Err(RuntimeError)
    else Ok(Best(UpdateBest(best.cer, EpochMean(Cers(outputs))), UpdateBest(best.wer, EpochMean(Wers(outputs)))))
  }

  /** The mean CER of each epoch. */
  function EpochCers(epochs: seq<seq<BatchRates>>): (r: seq<Option<real>>)
    ensures |r| == |epochs|
    ensures forall e :: 0 <= e < |epochs| ==> r[e] == EpochMean(Cers(epochs[e]))
  {
    seq(|epochs|, e requires 0 <= e < |epochs| => EpochMean(Cers(epochs[e])))
  }

  /** The mean WER of each epoch. */
  function EpochWers(epochs: seq<seq<BatchRates>>): (r: seq<Option<real>>)
    ensures |r| == |epochs|
    ensures forall e :: 0 <= e < |epochs| ==> r[e] == EpochMean(Wers(epochs[e]))
  {
    seq(|epochs|, e requires 0 <= e < |epochs| => EpochMean(Wers(epochs[e])))
  }

  predicate EveryEpochHasBatches(epochs: seq<seq<BatchRates>>) {
    forall e :: 0 <= e < |epochs| ==> |epochs[e]| > 0
  }

  /** `validation_end` after each of a run of epochs, from the initial
      bests: the run stops at the first epoch without batches, and
      otherwise ends with the running minimum of the epoch means. */
  function BestOfRun(epochs: seq<seq<BatchRates>>): (r: Result<Best>)
    ensures r.Ok? <==> EveryEpochHasBatches(epochs)
    ensures r.Err? ==> r.fault == RuntimeError
    ensures r.Ok? ==> r.value == Best(BestAfter(EpochCers(epochs)), BestAfter(EpochWers(epochs)))
    decreases |epochs|
  {
    if |epochs| == 0 then Ok(Best(InitialBest, InitialBest))
    else
      var init := epochs[..|epochs| - 1];
      assert EpochCers(epochs)[..|epochs| - 1] == EpochCers(init);
      assert EpochWers(epochs)[..|epochs| - 1] == EpochWers(init);
      assert forall e :: 0 <= e < |init| ==> init[e] == epochs[e];
      var before :- BestOfRun(init);
      ValidationEnd(before, epochs[|epochs| - 1])
  }

  /** A run in which every epoch has batches ends with bests no larger
      than 1.0 or any epoch's mean rate, and each equal to one of them. */
  lemma RunBestIsMinimum(epochs: seq<seq<BatchRates>>)
    ensures BestOfRun(epochs).Ok? ==> forall e :: 0 <= e < |epochs| ==>
      BestOfRun(epochs).value.cer <= EpochMean(Cers(epochs[e])).value
      && BestOfRun(epochs).value.wer <= EpochMean(Wers(epochs[e])).value
    ensures BestOfRun(epochs).Ok? ==>
      (BestOfRun(epochs).value.cer == InitialBest
       || exists e :: 0 <= e < |epochs| && BestOfRun(epochs).value.cer == EpochMean(Cers(epochs[e])).value)
    ensures BestOfRun(epochs).Ok? ==>
      (BestOfRun(epochs).value.wer == InitialBest
       || exists e :: 0 <= e < |epochs| && BestOfRun(epochs).value.wer == EpochMean(Wers(epochs[e])).value)
  {
    if BestOfRun(epochs).Ok? {
      var best, cers, wers := BestOfRun(epochs).value, EpochCers(epochs), EpochWers(epochs);
      BestIsMinimum(cers);
      BestIsMinimum(wers);
      if best.cer != InitialBest {
        var e :| 0 <= e < |cers| && cers[e].Some? && best.cer == cers[e].value;
        assert best.cer == EpochMean(Cers(epochs[e])).value;
      }
      if best.wer != InitialBest {
        var e :| 0 <= e < |wers| && wers[e].Some? && best.wer == wers[e].value;
        assert best.wer == EpochMean(Wers(epochs[e])).value;
      }
    }
  }
}
