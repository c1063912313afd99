/** Python list primitives used throughout the data loaders and the scorer:
    indexing with negative indices, slicing with clamped bounds, flattening
    a list of lists, and `random.randint` with its draw made explicit. */
module PySeq {
  import opened Results

  /** `xs[i]`: a negative index counts from the end; any other index outside
      the list raises IndexError. */
  function Index<T>(xs: seq<T>, i: int): (r: Result<T>)
    ensures r.Ok? <==> -|xs| <= i < |xs|
    ensures r.Ok? ==> r.value == xs[if i < 0 then |xs| + i else i]
    ensures r.Err? ==> r.fault == IndexError
  {
    if 0 <= i < |xs| then Ok(xs[i])
    else if -|xs| <= i < 0 then Ok(xs[|xs| + i])
    else Err(IndexError)
  }

  /** The position a slice bound `i` denotes in a list of length `n`. */
  function SliceBound(n: nat, i: int): (r: nat)
    ensures r <= n
  {
    if i < 0 then (if n + i < 0 then 0 else n + i)
    else if i > n then n
    else i
  }

  /** `xs[start:stop]`: never fails; out-of-range bounds are clamped. */
  function Slice<T>(xs: seq<T>, start: int, stop: int): (r: seq<T>)
    ensures |r| <= |xs|
  {
    var a := SliceBound(|xs|, start);
    var b := SliceBound(|xs|, stop);
    if a <= b then xs[a..b] else []
  }

  /** `xs[start:]`. */
  function Drop<T>(xs: seq<T>, start: int): seq<T> {
    Slice(xs, start, |xs|)
  }

  /** `xs[:stop]`. */
  function Take<T>(xs: seq<T>, stop: int): seq<T> {
    Slice(xs, 0, stop)
  }

  /** A slice with in-range, non-negative bounds is the Dafny subsequence. */
  lemma SliceInRange<T>(xs: seq<T>, start: int, stop: int)
    requires 0 <= start <= stop <= |xs|
    ensures Slice(xs, start, stop) == xs[start..stop]
  {
  }

  /** `xs[:-1]` drops the last element, and is empty on an empty list. */
  lemma TakeAllButLast<T>(xs: seq<T>)
    ensures |xs| > 0 ==> Take(xs, -1) == xs[..|xs| - 1]
    ensures |xs| == 0 ==> Take(xs, -1) == []
  {
  }

  /** The length of the slice of a list of length `n`, without the list. */
  function SliceLength(n: nat, start: int, stop: int): nat {
    var a := SliceBound(n, start);
    var b := SliceBound(n, stop);
    if a <= b then b - a else 0
  }

  lemma SliceLengthIsLength<T>(xs: seq<T>, start: int, stop: int)
    ensures |Slice(xs, start, stop)| == SliceLength(|xs|, start, stop)
  {
  }

  /** `y = []; for sub in xss: y += sub`. */
  function Flatten<T>(xss: seq<seq<T>>): seq<T> {
    if |xss| == 0 then [] else xss[0] + Flatten(xss[1..])
  }

  /** `[len(xs) for xs in xss]`. */
  function Lengths<T>(xss: seq<seq<T>>): (r: seq<nat>)
    ensures |r| == |xss|
    ensures forall i :: 0 <= i < |xss| ==> r[i] == |xss[i]|
  {
    seq(|xss|, i requires 0 <= i < |xss| => |xss[i]|)
  }

  function Sum(xs: seq<int>): int {
    if |xs| == 0 then 0 else xs[0] + Sum(xs[1..])
  }

  lemma {:induction false} FlattenAppend<T>(a: seq<seq<T>>, b: seq<seq<T>>)
    ensures Flatten(a + b) == Flatten(a) + Flatten(b)
    decreases |a|
  {
    if |a| == 0 {
      assert a + b == b;
    } else {
      assert (a + b)[1..] == a[1..] + b;
      FlattenAppend(a[1..], b);
    }
  }

  lemma {:induction false} SumAppend(a: seq<int>, b: seq<int>)
    ensures Sum(a + b) == Sum(a) + Sum(b)
    decreases |a|
  {
    if |a| == 0 {
      assert a + b == b;
    } else {
      assert (a + b)[1..] == a[1..] + b;
      SumAppend(a[1..], b);
    }
  }

  /** The length of a flattened list is the sum of the lengths of its parts. */
  lemma {:induction false} FlattenLength<T>(xss: seq<seq<T>>)
    ensures |Flatten(xss)| == Sum(Lengths(xss))
    decreases |xss|
  {
    if |xss| > 0 {
      assert Lengths(xss) == [|xss[0]|] + Lengths(xss[1..]);
      FlattenLength(xss[1..]);
    }
  }

  /** Where part `i` starts inside `Flatten(xss)`. */
  function Offset<T>(xss: seq<seq<T>>, i: nat): nat
    requires i <= |xss|
  {
    |Flatten(xss[..i])|
  }

  /** Part `i` sits, unchanged, at `Offset(xss, i)` of the flattened list. */
  lemma FlattenPart<T>(xss: seq<seq<T>>, i: nat)
    requires i < |xss|
    ensures Offset(xss, i) + |xss[i]| <= |Flatten(xss)|
    ensures Flatten(xss)[Offset(xss, i)..Offset(xss, i) + |xss[i]|] == xss[i]
  {
    assert xss == xss[..i] + ([xss[i]] + xss[i+1..]);
    FlattenAppend(xss[..i], [xss[i]] + xss[i+1..]);
    assert Flatten([xss[i]] + xss[i+1..]) == xss[i] + Flatten(xss[i+1..]) by {
      assert ([xss[i]] + xss[i+1..])[1..] == xss[i+1..];
    }
  }

  /** `random.randint(lo, hi)` with its randomness as an explicit uniform
      draw `u` in [0,1): the result is `lo + floor(u * (hi - lo + 1))`.
      An empty range raises ValueError. */
  function RandInt(lo: int, hi: int, u: real): (r: Result<int>)
    requires 0.0 <= u < 1.0
    ensures r.Ok? <==> lo <= hi
    ensures r.Ok? ==> lo <= r.value <= hi
  {
    if hi < lo then Err(ValueError)
    else
      var n := hi - lo + 1;
      assert 0.0 <= u * n as real < n as real;
      Ok(lo + (u * n as real).Floor)
  }

  /** Every value of a non-empty range is the result of some draw. */
  lemma RandIntCovers(lo: int, hi: int, v: int) returns (u: real)
    requires lo <= v <= hi
    ensures 0.0 <= u < 1.0 && RandInt(lo, hi, u) == Ok(v)
  {
    var n := hi - lo + 1;
    u := (v - lo) as real / n as real;
    assert u * n as real == (v - lo) as real;
    assert (u * n as real).Floor == v - lo;
    assert u < 1.0 by {
      assert (v - lo) as real < n as real;
    }
  }
}
