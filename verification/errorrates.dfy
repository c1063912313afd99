/** The character and word error rates of `greedy_decode` and `beam_decode`
    in src/models/lrs2_resnet_attn.py, and their batch means. */
module ErrorRates {
  import opened Results
  import opened PyText
  import opened EditDistance

  predicate InUnit(x: real) {
    0.0 <= x <= 1.0
  }

  lemma FractionInUnit(d: real, n: real)
    requires 0.0 <= d <= n && n > 0.0
    ensures InUnit(d / n)
    ensures d / n == 0.0 <==> d == 0.0
    ensures d / n * n == d
  {
    assert d / n * n == d;
  }

  /** `editdistance.eval(a, b) / max(len(a), len(b))`: the edit distance per
      symbol of the longer sequence. Python raises ZeroDivisionError when
      both are empty. */
  function ErrorRate<T(==)>(a: seq<T>, b: seq<T>): (r: Result<real>)
    ensures r.Ok? <==> |a| > 0 || |b| > 0
    ensures r.Ok? ==> InUnit(r.value)
    ensures r.Ok? ==> (r.value == 0.0 <==> a == b)
    ensures r.Ok? ==> r.value == Lev(a, b) as real / Longer(a, b) as real
  {
    if Longer(a, b) == 0 then Err(ZeroDivisionError)
    else
      RateFacts(a, b);
      Ok(Lev(a, b) as real / Longer(a, b) as real)
  }

  function Longer<T>(a: seq<T>, b: seq<T>): nat {
    if |a| >= |b| then |a| else |b|
  }

  lemma RateFacts<T>(a: seq<T>, b: seq<T>)
    requires Longer(a, b) > 0
    ensures var q := Lev(a, b) as real / Longer(a, b) as real;
      InUnit(q) && (q == 0.0 <==> a == b)
  {
    LevAtMostLonger(a, b);
    LevZeroIff(a, b);
    FractionInUnit(Lev(a, b) as real, Longer(a, b) as real);
  }

  /** The error rate is never below the difference in length per symbol of
      the longer sequence. */
  lemma ErrorRateLengthGap<T>(a: seq<T>, b: seq<T>)
    requires |a| > 0 || |b| > 0
    ensures ErrorRate(a, b).value >= (|a| - |b|) as real / Longer(a, b) as real
    ensures ErrorRate(a, b).value >= (|b| - |a|) as real / Longer(a, b) as real
  {
    LevAtLeastLengthGap(a, b);
    FractionMonotone((|a| - |b|) as real, Lev(a, b) as real, Longer(a, b) as real);
    FractionMonotone((|b| - |a|) as real, Lev(a, b) as real, Longer(a, b) as real);
  }

  lemma FractionMonotone(g: real, d: real, n: real)
    requires g <= d && n > 0.0
    ensures g / n <= d / n
  {
    assert d / n - g / n == (d - g) / n;
    FractionInUnit(0.0, n);
    assert (d - g) / n * n == d - g;
  }

  /** The words of a text, as `split(" ")` gives them: never fewer than one. */
  function Words(s: string): (r: seq<string>)
    ensures |r| >= 1
  {
    Split(s, ' ')
  }

  datatype Score = Score(cer: real, wer: real)

  /** The character and word error rates of one example, in the order
      Python computes them: the character rate fails first. */
  function ScoreExample(output: string, expected: string): (r: Result<Score>)
    ensures r.Ok? <==> |output| > 0 || |expected| > 0
    ensures r.Ok? ==> InUnit(r.value.cer) && InUnit(r.value.wer)
    ensures r.Ok? ==> (r.value.cer == 0.0 <==> output == expected)
    ensures r.Ok? ==> (r.value.wer == 0.0 <==> output == expected)
  {
    var cer :- ErrorRate(output, expected);
    var wer := ErrorRate(Words(output), Words(expected));
    SplitInjective(output, expected, ' ');
    Ok(Score(cer, wer.value))
  }

  /** The word rate of two texts is defined even when both are empty: they
      have one empty word each. */
  lemma WordRateDefined(output: string, expected: string)
    ensures ErrorRate(Words(output), Words(expected)).Ok?
    ensures output == "" && expected == "" ==> ErrorRate(Words(output), Words(expected)) == Ok(0.0)
  {
  }

  /** The sum of the per-example scores, stopping at the first example that
      fails, as the Python loop does. */
  function Total(rs: seq<Result<Score>>): (r: Result<Score>)
    ensures r.Ok? <==> forall i :: 0 <= i < |rs| ==> rs[i].Ok?
    ensures r.Err? ==> exists i :: (0 <= i < |rs| && rs[i].Err? && r.fault == rs[i].fault
      && forall j :: 0 <= j < i ==> rs[j].Ok?)
    decreases |rs|
  {
    if |rs| == 0 then Ok(Score(0.0, 0.0))
    else
      var first :- rs[0];
      var rest :- Total(rs[1..]);
      Ok(Score(first.cer + rest.cer, first.wer + rest.wer))
  }

  predicate AllInUnit(rs: seq<Result<Score>>) {
    forall i :: 0 <= i < |rs| ==> rs[i].Ok? && InUnit(rs[i].value.cer) && InUnit(rs[i].value.wer)
  }

  /** Summing scores of the unit interval: the sums lie in [0, n], and a sum
      is zero exactly when every summand is. */
  lemma {:induction false} TotalBounds(rs: seq<Result<Score>>)
    requires AllInUnit(rs)
    ensures 0.0 <= Total(rs).value.cer <= |rs| as real
    ensures 0.0 <= Total(rs).value.wer <= |rs| as real
    ensures Total(rs).value.cer == 0.0 <==> forall i :: 0 <= i < |rs| ==> rs[i].value.cer == 0.0
    ensures Total(rs).value.wer == 0.0 <==> forall i :: 0 <= i < |rs| ==> rs[i].value.wer == 0.0
    decreases |rs|
  {
    if |rs| > 0 {
      assert AllInUnit(rs[1..]) by {
        forall i | 0 <= i < |rs| - 1 ensures rs[1..][i] == rs[i + 1] {
        }
      }
      TotalBounds(rs[1..]);
      forall i | 0 <= i < |rs| - 1 ensures rs[1..][i] == rs[i + 1] {
      }
    }
  }

  /** `cer / batch_size, wer / batch_size`: a ZeroDivisionError for an empty
      batch. */
  function Mean(total: Result<Score>, n: nat): (r: Result<Score>)
    ensures r.Ok? <==> total.Ok? && n > 0
    ensures r.Ok? ==> r.value.cer * n as real == total.value.cer && r.value.wer * n as real == total.value.wer
  {
    var t :- total;
    if n == 0 then Err(ZeroDivisionError)
    else Ok(Score(t.cer / n as real, t.wer / n as real))
  }

  /** The mean of scores of the unit interval lies in it and is zero exactly
      when every score is. */
  lemma MeanBounds(rs: seq<Result<Score>>)
    requires AllInUnit(rs) && |rs| > 0
    ensures InUnit(Mean(Total(rs), |rs|).value.cer) && InUnit(Mean(Total(rs), |rs|).value.wer)
    ensures Mean(Total(rs), |rs|).value.cer == 0.0 <==> forall i :: 0 <= i < |rs| ==> rs[i].value.cer == 0.0
    ensures Mean(Total(rs), |rs|).value.wer == 0.0 <==> forall i :: 0 <= i < |rs| ==> rs[i].value.wer == 0.0
  {
    TotalBounds(rs);
    FractionInUnit(Total(rs).value.cer, |rs| as real);
    FractionInUnit(Total(rs).value.wer, |rs| as real);
  }
}
