/** Levenshtein distance, the contract of `editdistance.eval`: the least
    number of unit-cost insertions, deletions and substitutions turning one
    sequence into the other. It is used on strings (CER) and on lists of
    words (WER). */
module EditDistance {

  function Min3(x: nat, y: nat, z: nat): (r: nat)
    ensures r <= x && r <= y && r <= z
    ensures r == x || r == y || r == z
  {
    if x <= y && x <= z then x else if y <= z then y else z
  }

  /** The reference definition, by the last elements of both sequences. */
  function Lev<T(==)>(a: seq<T>, b: seq<T>): nat
    decreases |a| + |b|
  {
    if |a| == 0 then |b|
    else if |b| == 0 then |a|
    else
      Min3(Lev(a[..|a| - 1], b) + 1,
           Lev(a, b[..|b| - 1]) + 1,
           Lev(a[..|a| - 1], b[..|b| - 1]) + (if a[|a| - 1] == b[|b| - 1] then 0 else 1))
  }

  /** Substituting position by position and inserting or deleting the rest
      never costs more than the longer length. */
  lemma {:induction false} LevAtMostLonger<T>(a: seq<T>, b: seq<T>)
    ensures Lev(a, b) <= if |a| >= |b| then |a| else |b|
    decreases |a| + |b|
  {
    if |a| > 0 && |b| > 0 {
      LevAtMostLonger(a[..|a| - 1], b[..|b| - 1]);
    }
  }

  /** Every edit changes the length by at most one. */
  lemma {:induction false} LevAtLeastLengthGap<T>(a: seq<T>, b: seq<T>)
    ensures Lev(a, b) >= |a| - |b| && Lev(a, b) >= |b| - |a|
    decreases |a| + |b|
  {
    if |a| > 0 && |b| > 0 {
      LevAtLeastLengthGap(a[..|a| - 1], b);
      LevAtLeastLengthGap(a, b[..|b| - 1]);
      LevAtLeastLengthGap(a[..|a| - 1], b[..|b| - 1]);
    }
  }

  lemma {:induction false} LevSelf<T>(a: seq<T>)
    ensures Lev(a, a) == 0
    decreases |a|
  {
    if |a| > 0 {
      LevSelf(a[..|a| - 1]);
    }
  }

  lemma {:induction false} LevZeroEqual<T>(a: seq<T>, b: seq<T>)
    requires Lev(a, b) == 0
    ensures a == b
    decreases |a| + |b|
  {
    if |a| > 0 && |b| > 0 {
      var a', b' := a[..|a| - 1], b[..|b| - 1];
      assert Lev(a', b') == 0 && a[|a| - 1] == b[|b| - 1];
      LevZeroEqual(a', b');
      assert a == a' + [a[|a| - 1]] && b == b' + [b[|b| - 1]];
    }
  }

  /** The distance is zero exactly when the sequences are equal. */
  lemma LevZeroIff<T>(a: seq<T>, b: seq<T>)
    ensures Lev(a, b) == 0 <==> a == b
  {
    if a == b {
      LevSelf(a);
    }
    if Lev(a, b) == 0 {
      LevZeroEqual(a, b);
    }
  }

  /** One cell of the dynamic programme: the distance of two prefixes from
      the three shorter ones. */
  lemma LevStep<T>(a: seq<T>, b: seq<T>, i: nat, j: nat)
    requires i < |a| && j < |b|
    ensures Lev(a[..i + 1], b[..j + 1]) == Min3(Lev(a[..i], b[..j + 1]) + 1, Lev(a[..i + 1], b[..j]) + 1,
      Lev(a[..i], b[..j]) + if a[i] == b[j] then 0 else 1)
  {
    assert a[..i + 1][..i] == a[..i];
    assert b[..j + 1][..j] == b[..j];
  }

  /** The dynamic programme over two rows, as `editdistance.eval` runs it. */
  method Distance<T(==)>(a: seq<T>, b: seq<T>) returns (d: nat)
    ensures d == Lev(a, b)
  {
    var prev := seq(|b| + 1, j => j);
    forall j | 0 <= j <= |b| ensures prev[j] == Lev(a[..0], b[..j]) {
    }
    var i := 0;
    while i < |a|
      invariant 0 <= i <= |a|
      invariant |prev| == |b| + 1
      invariant forall j :: 0 <= j <= |b| ==> prev[j] == Lev(a[..i], b[..j])
    {
      prev := NextRow(a, b, i, prev);
      i := i + 1;
    }
    assert a[..|a|] == a && b[..|b|] == b;
    d := prev[|b|];
  }

  /** One cell from its upper, left and diagonal neighbours. */
  method Cell<T(==)>(a: seq<T>, b: seq<T>, i: nat, j: nat, up: nat, left: nat, diag: nat) returns (cell: nat)
    requires i < |a| && j < |b|
    requires up == Lev(a[..i], b[..j + 1]) && left == Lev(a[..i + 1], b[..j]) && diag == Lev(a[..i], b[..j])
    ensures cell == Lev(a[..i + 1], b[..j + 1])
  {
    LevStep(a, b, i, j);
    var cost := if a[i] == b[j] then 0 else 1;
    cell := Min3(up + 1, left + 1, diag + cost);
  }

  /** One row of the programme: the distances of `a[..i + 1]` to every
      prefix of `b`, from those of `a[..i]`. */
  method NextRow<T(==)>(a: seq<T>, b: seq<T>, i: nat, prev: seq<nat>) returns (cur: seq<nat>)
    requires i < |a| && |prev| == |b| + 1
    requires forall j :: 0 <= j <= |b| ==> prev[j] == Lev(a[..i], b[..j])
    ensures |cur| == |b| + 1
    ensures forall j :: 0 <= j <= |b| ==> cur[j] == Lev(a[..i + 1], b[..j])
  {
    cur := [i + 1];
    var j := 0;
    while j < |b|
      invariant 0 <= j <= |b|
      invariant |cur| == j + 1
      invariant forall k :: 0 <= k <= j ==> cur[k] == Lev(a[..i + 1], b[..k])
    {
      var cell := Cell(a, b, i, j, prev[j + 1], cur[j], prev[j]);
      var next := cur + [cell];
      assert forall k :: 0 <= k <= j ==> next[k] == cur[k];
      cur := next;
      j := j + 1;
    }
  }
}
