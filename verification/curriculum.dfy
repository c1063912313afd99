/** The training-curriculum scalars of the LRS2 attention model in
    src/models/lrs2_resnet_attn.py: the target rows of `LabelSmoothingLoss`,
    the linear teacher-forcing decay of `on_epoch_start`, and the choice of
    the next decoder input in `forward`. Float arithmetic is read as exact
    rational arithmetic. */
module Curriculum {
  import opened Results
  import opened PySeq

  // ---------------------------------------------------- label smoothing

  /** The state `LabelSmoothingLoss.__init__` keeps: the smoothed row (with
      the pad column cleared), the confidence, and the ignore index as
      given. */
  datatype SmoothingLoss = SmoothingLoss(oneHot: seq<real>, confidence: real, ignoreIndex: int)

  /** The column `one_hot[ignore_index] = 0` clears: negative indices count
      from the end. */
  function PadColumn(vocabSize: int, ignoreIndex: int): (r: nat)
    requires -vocabSize <= ignoreIndex < vocabSize
    ensures r < vocabSize
  {
    if ignoreIndex < 0 then vocabSize + ignoreIndex else ignoreIndex
  }

  /** `LabelSmoothingLoss(smoothing, vocab_size, ignore_index)`. The assert
      comes first, then the division by `vocab_size - 1`, then `torch.full`
      (which rejects a negative size), then the index assignment. */
  function NewSmoothingLoss(smoothing: real, vocabSize: int, ignoreIndex: int): (r: Result<SmoothingLoss>)
    ensures r.Ok? <==> 0.0 < smoothing <= 1.0 && vocabSize > 1 && -vocabSize <= ignoreIndex < vocabSize
    ensures !(0.0 < smoothing <= 1.0) ==> r == Err(AssertionError)
    ensures 0.0 < smoothing <= 1.0 && vocabSize == 1 ==> r == Err(ZeroDivisionError)
    ensures 0.0 < smoothing <= 1.0 && vocabSize < 0 ==> r == Err(RuntimeError)
    ensures 0.0 < smoothing <= 1.0 && vocabSize > 1 && !(-vocabSize <= ignoreIndex < vocabSize) ==> r == Err(IndexError)
    ensures r.Ok? ==> r.value.confidence == 1.0 - smoothing && r.value.ignoreIndex == ignoreIndex
    ensures r.Ok? ==> |r.value.oneHot| == vocabSize
    ensures r.Ok? ==> forall j :: 0 <= j < vocabSize ==>
      r.value.oneHot[j] == if j == PadColumn(vocabSize, ignoreIndex) then 0.0 else smoothing / (vocabSize - 1) as real
  {
    if !(0.0 < smoothing <= 1.0) then Err(AssertionError)
    else if vocabSize == 1 then Err(ZeroDivisionError)
    else if vocabSize < 0 then Err(RuntimeError)
    else if !(-vocabSize <= ignoreIndex < vocabSize) then Err(IndexError)
    else
      var value := smoothing / (vocabSize - 1) as real;
      var full := seq(vocabSize, j => value);
      Ok(SmoothingLoss(full[PadColumn(vocabSize, ignoreIndex) := 0.0], 1.0 - smoothing, ignoreIndex))
  }

  /** One row of `model_prob` in `forward`: the smoothed row with the
      confidence scattered at the target (a RuntimeError when the target is
      not a column), then cleared entirely when the target equals the ignore
      index. */
  function TargetRow(loss: SmoothingLoss, target: int): (r: Result<seq<real>>)
    ensures r.Ok? <==> 0 <= target < |loss.oneHot|
    ensures r.Err? ==> r.fault == RuntimeError
    ensures r.Ok? ==> |r.value| == |loss.oneHot|
    ensures r.Ok? && target == loss.ignoreIndex ==> forall j :: 0 <= j < |r.value| ==> r.value[j] == 0.0
    ensures r.Ok? && target != loss.ignoreIndex ==> r.value[target] == loss.confidence
    ensures r.Ok? && target != loss.ignoreIndex ==> forall j :: 0 <= j < |r.value| && j != target ==> r.value[j] == loss.oneHot[j]
  {
    if !(0 <= target < |loss.oneHot|) then Err(RuntimeError)
    else if target == loss.ignoreIndex then Ok(seq(|loss.oneHot|, j => 0.0))
    else Ok(loss.oneHot[target := loss.confidence])
  }

  /** The whole of `model_prob`, one row per target of the batch. */
  function TargetRows(loss: SmoothingLoss, targets: seq<int>): (r: Result<seq<seq<real>>>)
    ensures r.Ok? <==> forall b :: 0 <= b < |targets| ==> 0 <= targets[b] < |loss.oneHot|
    ensures r.Err? ==> r.fault == RuntimeError
    ensures r.Ok? ==> |r.value| == |targets| && forall b :: 0 <= b < |targets| ==> TargetRow(loss, targets[b]) == Ok(r.value[b])
    decreases |targets|
  {
    if |targets| == 0 then Ok([])
    else
      var row :- TargetRow(loss, targets[0]);
      var rest :- TargetRows(loss, targets[1..]);
      assert forall b :: 1 <= b < |targets| ==> targets[b] == targets[1..][b - 1];
      Ok([row] + rest)
  }

  /** A target row of a freshly built loss, for a target other than the
      ignore index: the confidence 1 - smoothing at the target, nothing on
      the pad column, and smoothing / (V - 1) everywhere else. */
  lemma SmoothedRow(smoothing: real, vocabSize: int, ignoreIndex: int, target: int)
    requires NewSmoothingLoss(smoothing, vocabSize, ignoreIndex).Ok?
    requires 0 <= target < vocabSize && target != ignoreIndex
    ensures var row := TargetRow(NewSmoothingLoss(smoothing, vocabSize, ignoreIndex).value, target);
      row.Ok? && |row.value| == vocabSize
      && row.value[target] == 1.0 - smoothing
      && forall j :: 0 <= j < vocabSize && j != target ==>
        row.value[j] == if j == PadColumn(vocabSize, ignoreIndex) then 0.0 else smoothing / (vocabSize - 1) as real
  {
  }

  /** With a non-negative ignore index, the row of a pad target is all
      zeros; with a negative one, the pad column's own index never equals the
      ignore index, so its rows are not cleared. */
  lemma PadTargetRow(smoothing: real, vocabSize: int, ignoreIndex: int)
    requires NewSmoothingLoss(smoothing, vocabSize, ignoreIndex).Ok?
    ensures var loss := NewSmoothingLoss(smoothing, vocabSize, ignoreIndex).value;
      var pad := PadColumn(vocabSize, ignoreIndex);
      var row := TargetRow(loss, pad);
      row.Ok? && (ignoreIndex >= 0 ==> forall j :: 0 <= j < vocabSize ==> row.value[j] == 0.0)
      && (ignoreIndex < 0 ==> row.value[pad] == 1.0 - smoothing)
  {
  }

  // ----------------------------------------------------- teacher forcing

  /** `self.teacher_forcing_ratio` before the first epoch. */
  const InitialTeacherForcingRatio: real := 1.0

  /** `self.min_teacher_forcing_ratio`. */
  const MinTeacherForcingRatio: real := 0.75

  /** `on_epoch_start(epoch)`: the ratio falls linearly from 1.0 by
      (1 - 0.75) / (epochs - 1) per epoch; a ZeroDivisionError when
      `epochs` is 1. */
  function TeacherForcingRatio(epoch: int, epochs: int): (r: Result<real>)
    ensures r.Ok? <==> epochs != 1
    ensures r.Err? ==> r.fault == ZeroDivisionError
    ensures r.Ok? ==> (r.value == InitialTeacherForcingRatio <==> epoch == 0)
  {
    if epochs == 1 then Err(ZeroDivisionError)
    else
      var decay := (InitialTeacherForcingRatio - MinTeacherForcingRatio) / (epochs - 1) as real;
      assert decay != 0.0;
      assert epoch as real * decay == 0.0 <==> epoch == 0 by {
        ProductZero(epoch as real, decay);
      }
      Ok(InitialTeacherForcingRatio - epoch as real * decay)
  }

  lemma ProductZero(x: real, y: real)
    requires y != 0.0
    ensures x * y == 0.0 <==> x == 0.0
  {
  }

  /** The ratio is 1.0 at the first epoch and 0.75 at the last one. */
  lemma RatioEndpoints(epochs: int)
    requires epochs > 1
    ensures TeacherForcingRatio(0, epochs) == Ok(1.0)
    ensures TeacherForcingRatio(epochs - 1, epochs) == Ok(MinTeacherForcingRatio)
  {
    var n := (epochs - 1) as real;
    assert n * (0.25 / n) == 0.25;
  }

  /** For a run of more than one epoch the ratio never grows from one epoch
      to a later one. */
  lemma RatioNonIncreasing(e1: int, e2: int, epochs: int)
    requires epochs > 1 && e1 <= e2
    ensures TeacherForcingRatio(e2, epochs).value <= TeacherForcingRatio(e1, epochs).value
  {
    var d := 0.25 / (epochs - 1) as real;
    assert d > 0.0;
    assert e2 as real * d - e1 as real * d == (e2 - e1) as real * d;
    assert (e2 - e1) as real * d >= 0.0;
  }

  /** The decay is linear: each epoch lowers the ratio by the same step,
      (1 - 0.75) / (epochs - 1). */
  lemma RatioStep(epoch: int, epochs: int)
    requires epochs > 1
    ensures TeacherForcingRatio(epoch, epochs).value - TeacherForcingRatio(epoch + 1, epochs).value
      == (InitialTeacherForcingRatio - MinTeacherForcingRatio) / (epochs - 1) as real
  {
    var d := 0.25 / (epochs - 1) as real;
    assert (epoch + 1) as real * d == epoch as real * d + d;
  }

  /** Within the run the ratio stays between 0.75 and 1.0; past the last
      epoch nothing holds it at the minimum. */
  lemma RatioBounds(epoch: int, epochs: int)
    requires epochs > 1
    ensures 0 <= epoch <= epochs - 1 ==>
      MinTeacherForcingRatio <= TeacherForcingRatio(epoch, epochs).value <= InitialTeacherForcingRatio
    ensures epoch > epochs - 1 ==> TeacherForcingRatio(epoch, epochs).value < MinTeacherForcingRatio
  {
    RatioEndpoints(epochs);
    if 0 <= epoch {
      RatioNonIncreasing(0, epoch, epochs);
    }
    if epoch <= epochs - 1 {
      RatioNonIncreasing(epoch, epochs - 1, epochs);
    }
    if epoch > epochs - 1 {
      var d := 0.25 / (epochs - 1) as real;
      assert d > 0.0;
      assert epoch as real * d - (epochs - 1) as real * d == (epoch - (epochs - 1)) as real * d;
      assert (epoch - (epochs - 1)) as real * d > 0.0;
    }
  }

  /** `enable_teacher and random.random() < ratio`. */
  predicate UseTeacher(enable: bool, draw: real, ratio: real) {
    enable && draw < ratio
  }

  /** What the decoding loop of `forward` did: the input column fed at each
      step, whether that step forced the next input from the target, how
      many outputs it stacked and how many draws it consumed. */
  datatype Unrolled = Unrolled(inputs: seq<seq<int>>, forced: seq<bool>, outputs: nat, drawsUsed: nat)

  /** The loop of `forward` over the target columns. The decoder itself is
      not modelled: `argmaxCols[i]` is the arg-max of its output at step `i`.
      `random.random()` is drawn only when teacher forcing is enabled, and
      the step after a forced one is fed the target column. Stacking no
      outputs is a RuntimeError. */
  method Unroll(sos: seq<int>, targetCols: seq<seq<int>>, argmaxCols: seq<seq<int>>, enable: bool, ratio: real, draws: seq<real>)
    returns (r: Result<Unrolled>)
    requires |argmaxCols| == |targetCols|
    requires enable ==> |draws| >= |targetCols|
    ensures r.Ok? <==> |targetCols| > 0
    ensures r.Err? ==> r.fault == RuntimeError
    ensures r.Ok? ==> r.value.outputs == |targetCols| && |r.value.inputs| == |targetCols| && |r.value.forced| == |targetCols|
    ensures r.Ok? ==> r.value.inputs[0] == sos
    ensures r.Ok? ==> forall i :: 0 <= i < |targetCols| ==> r.value.forced[i] == (enable && draws[i] < ratio)
    ensures r.Ok? ==> forall i :: 0 <= i < |targetCols| - 1 ==>
      r.value.inputs[i + 1] == if r.value.forced[i] then targetCols[i] else argmaxCols[i]
    ensures r.Ok? ==> r.value.drawsUsed == if enable then |targetCols| else 0
  {
    var input := sos;
    var inputs: seq<seq<int>> := [];
    var forced: seq<bool> := [];
    var used := 0;
    var i := 0;
    while i < |targetCols|
      invariant 0 <= i <= |targetCols|
      invariant |inputs| == i && |forced| == i
      invariant used == if enable then i else 0
      invariant i > 0 ==> inputs[0] == sos
      invariant i == 0 ==> input == sos
      invariant forall k :: 0 <= k < i ==> forced[k] == (enable && draws[k] < ratio)
      invariant forall k :: 0 <= k < i - 1 ==> inputs[k + 1] == if forced[k] then targetCols[k] else argmaxCols[k]
      invariant i > 0 ==> input == if forced[i - 1] then targetCols[i - 1] else argmaxCols[i - 1]
    {
      var teacher := false;
      if enable {
        teacher := draws[i] < ratio;
        used := used + 1;
      }
      inputs := inputs + [input];
      forced := forced + [teacher];
      input := if teacher then targetCols[i] else argmaxCols[i];
      i := i + 1;
    }
    if |inputs| == 0 {
      return Err(RuntimeError);
    }
    return Ok(Unrolled(inputs, forced, i, used));
  }
}
