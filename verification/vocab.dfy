/** Character vocabularies as the GRID and OuluVS2 loaders build them: the
    distinct characters seen, sorted by code point (Python's order on
    one-character strings), and a dictionary filled by `enumerate`. */
module Vocab {
  import opened Results

  predicate StrictlySorted(s: seq<char>) {
    forall i, j :: 0 <= i < j < |s| ==> s[i] < s[j]
  }

  predicate Distinct<T(==)>(s: seq<T>) {
    forall i, j :: 0 <= i < j < |s| ==> s[i] != s[j]
  }

  lemma SortedIsDistinct(s: seq<char>)
    requires StrictlySorted(s)
    ensures Distinct(s)
  {
  }

  /** Insert `c` into a strictly sorted sequence, unless already there. */
  function Insert(sorted: seq<char>, c: char): (r: seq<char>)
    requires StrictlySorted(sorted)
    ensures StrictlySorted(r)
    ensures forall x :: x in r <==> x in sorted || x == c
    decreases |sorted|
  {
    if |sorted| == 0 then [c]
    else if c < sorted[0] then [c] + sorted
    else if c == sorted[0] then sorted
    else
      var rest := Insert(sorted[1..], c);
      assert forall k :: 0 <= k < |rest| ==> rest[k] in sorted[1..] || rest[k] == c;
      [sorted[0]] + rest
  }

  /** The distinct characters of `chars` in code-point order. */
  function SortedDistinct(chars: seq<char>): (r: seq<char>)
    ensures StrictlySorted(r)
    ensures forall x :: x in r <==> x in chars
  {
    if |chars| == 0 then []
    else Insert(SortedDistinct(chars[..|chars| - 1]), chars[|chars| - 1])
  }

  lemma FirstIsMember<T>(s: seq<T>)
    requires |s| > 0
    ensures s[0] in s
  {
  }

  /** A set has exactly one strictly sorted enumeration. */
  lemma {:induction false} SortedUnique(a: seq<char>, b: seq<char>)
    requires StrictlySorted(a) && StrictlySorted(b)
    requires forall x :: x in a <==> x in b
    ensures a == b
    decreases |a|
  {
    if |a| == 0 {
      if |b| > 0 {
        FirstIsMember(b);
      }
    } else {
      assert a[0] in a;
      assert |b| > 0;
      assert b[0] in b;
      assert a[0] == b[0] by {
        assert a[0] in b;
        assert b[0] in a;
        var i :| 0 <= i < |b| && b[i] == a[0];
        var j :| 0 <= j < |a| && a[j] == b[0];
        assert b[0] <= b[i] && a[0] <= a[j];
      }
      forall x
        ensures x in a[1..] <==> x in b[1..]
      {
        if x in a[1..] {
          var i :| 1 <= i < |a| && a[i] == x;
          assert x != a[0];
          assert x in b;
          var k :| 0 <= k < |b| && b[k] == x;
          assert k != 0;
          assert b[1..][k - 1] == x;
        }
        if x in b[1..] {
          var i :| 1 <= i < |b| && b[i] == x;
          assert x != b[0];
          assert x in a;
          var k :| 0 <= k < |a| && a[k] == x;
          assert k != 0;
          assert a[1..][k - 1] == x;
        }
      }
      SortedUnique(a[1..], b[1..]);
      assert a == [a[0]] + a[1..];
      assert b == [b[0]] + b[1..];
    }
  }

  /** `for i, c in enumerate(vocab): m[c] = i + offset`, later entries
      overwriting earlier ones. */
  function Enumerate(m: map<char, int>, vocab: seq<char>, offset: int): (r: map<char, int>)
    ensures forall c :: c in r <==> c in m || c in vocab
    decreases |vocab|
  {
    if |vocab| == 0 then m
    else Enumerate(m[vocab[0] := offset], vocab[1..], offset + 1)
  }

  /** With distinct characters, each one ends up at its position plus the
      offset, and the entries of `m` that no character overwrites survive. */
  lemma {:induction false} EnumerateValues(m: map<char, int>, vocab: seq<char>, offset: int)
    requires Distinct(vocab)
    ensures forall i :: 0 <= i < |vocab| ==> Enumerate(m, vocab, offset)[vocab[i]] == offset + i
    ensures forall c :: c in m && c !in vocab ==> Enumerate(m, vocab, offset)[c] == m[c]
    decreases |vocab|
  {
    if |vocab| > 0 {
      var m' := m[vocab[0] := offset];
      var tail := vocab[1..];
      EnumerateValues(m', tail, offset + 1);
      var r := Enumerate(m', tail, offset + 1);
      assert r == Enumerate(m, vocab, offset);
      forall i | 0 <= i < |vocab|
        ensures r[vocab[i]] == offset + i
      {
        if i == 0 {
          assert vocab[0] !in tail by {
            forall k | 0 <= k < |tail| ensures tail[k] != vocab[0] {
              assert tail[k] == vocab[k + 1];
            }
          }
        } else {
          assert vocab[i] == tail[i - 1];
        }
      }
      forall c | c in m && c !in vocab
        ensures r[c] == m[c]
      {
        assert c !in tail by {
          forall k | 0 <= k < |tail| ensures tail[k] != c {
            assert tail[k] == vocab[k + 1];
          }
        }
        assert c != vocab[0];
      }
    }
  }

  /** The position of `c` in `s`, when it occurs. */
  function IndexOf<T(==)>(s: seq<T>, c: T): (r: nat)
    requires c in s
    ensures r < |s| && s[r] == c
    ensures forall k :: 0 <= k < r ==> s[k] != c
  {
    if s[0] == c then 0 else 1 + IndexOf(s[1..], c)
  }

  /** Over `{' ': 0}` and a strictly sorted vocabulary holding the space,
      every character gets its position plus `offset`: the ids fill
      `offset..offset + |vocab| - 1` and each names one character. */
  lemma EnumeratePositions(vocab: seq<char>, offset: int)
    requires StrictlySorted(vocab) && ' ' in vocab
    ensures forall i :: 0 <= i < |vocab| ==> Enumerate(map[' ' := 0], vocab, offset)[vocab[i]] == offset + i
    ensures forall c :: c in Enumerate(map[' ' := 0], vocab, offset) ==>
      (offset <= Enumerate(map[' ' := 0], vocab, offset)[c] < offset + |vocab|
      && vocab[Enumerate(map[' ' := 0], vocab, offset)[c] - offset] == c)
  {
    var m0 := map[' ' := 0];
    var m := Enumerate(m0, vocab, offset);
    SortedIsDistinct(vocab);
    EnumerateValues(m0, vocab, offset);
    forall c | c in m ensures offset <= m[c] < offset + |vocab| && vocab[m[c] - offset] == c {
      assert c in vocab by {
        assert c in m0 ==> c == ' ';
      }
      var i := IndexOf(vocab, c);
      assert m[vocab[i]] == offset + i;
      assert m[c] - offset == i;
    }
  }

  /** `[mapping[c] for c in s]`: a KeyError for a character the mapping
      lacks. */
  function Encode(mapping: map<char, int>, s: string): (r: Result<seq<int>>)
    ensures r.Ok? <==> forall i :: 0 <= i < |s| ==> s[i] in mapping
    ensures r.Err? ==> r.fault == KeyError
    ensures r.Ok? ==> |r.value| == |s| && forall i :: 0 <= i < |s| ==> r.value[i] == mapping[s[i]]
    decreases |s|
  {
    if |s| == 0 then Ok([])
    else if s[0] !in mapping then Err(KeyError)
    else
      var rest :- Encode(mapping, s[1..]);
      assert forall i :: 1 <= i < |s| ==> s[i] == s[1..][i - 1];
      Ok([mapping[s[0]]] + rest)
  }
}
