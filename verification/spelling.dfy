/** Turning id sequences into text through an id-to-symbol table, the step
    shared by the attention model's scorer and the beam decoder. A symbol
    may be longer than one character (`<pad>`, `<eos>`, `<sos>`). */
module Spelling {
  import opened Results
  import opened PySeq

  /** `[table[i] for i in ids]` over a dictionary: a missing id raises KeyError. */
  function Symbols(table: map<int, string>, ids: seq<int>): (r: Result<seq<string>>)
    ensures r.Ok? <==> forall k :: 0 <= k < |ids| ==> ids[k] in table
    ensures r.Ok? ==> |r.value| == |ids| && forall k :: 0 <= k < |ids| ==> r.value[k] == table[ids[k]]
    ensures r.Err? ==> r.fault == KeyError
  {
    if |ids| == 0 then Ok([])
    else if ids[0] !in table then Err(KeyError)
    else
      match Symbols(table, ids[1..])
      case Err(f) => Err(f)
      case Ok(rest) => Ok([table[ids[0]]] + rest)
  }

  /** `[xs[i] for i in ids]` over a list: negative ids count from the end,
      anything else outside the list raises IndexError. */
  function ListSymbols(xs: seq<string>, ids: seq<int>): (r: Result<seq<string>>)
    ensures r.Ok? <==> forall k :: 0 <= k < |ids| ==> -|xs| <= ids[k] < |xs|
    ensures r.Ok? ==> |r.value| == |ids| && forall k :: 0 <= k < |ids| ==> Index(xs, ids[k]) == Ok(r.value[k])
    ensures r.Err? ==> r.fault == IndexError
  {
    if |ids| == 0 then Ok([])
    else
      match Index(xs, ids[0])
      case Err(f) => Err(f)
      case Ok(sym) =>
        match ListSymbols(xs, ids[1..])
        case Err(f) => Err(f)
        case Ok(rest) => Ok([sym] + rest)
  }

  /** `''.join(table[i] for i in ids)`. */
  function Spell(table: map<int, string>, ids: seq<int>): (r: Result<string>)
    ensures r.Ok? <==> forall k :: 0 <= k < |ids| ==> ids[k] in table
    ensures r.Err? ==> r.fault == KeyError
    ensures |ids| == 0 ==> r == Ok("")
    ensures |ids| == 1 && ids[0] in table ==> r == Ok(table[ids[0]])
    ensures r.Ok? && |ids| > 0 ==> table[ids[0]] <= r.value
  {
    var syms :- Symbols(table, ids);
    assert |syms| == 1 ==> Flatten(syms) == syms[0] by {
      if |syms| == 1 {
        var none: seq<string> := [];
        assert syms[1..] == none && Flatten(none) == [];
        assert Flatten(syms) == syms[0] + Flatten(syms[1..]);
      }
    }
    Ok(Flatten(syms))
  }

  /** Spelling two id lists one after the other is spelling their
      concatenation: it succeeds when both do, and the text is the two
      texts joined. */
  lemma SpellAppend(table: map<int, string>, a: seq<int>, b: seq<int>)
    ensures Spell(table, a + b).Ok? <==> Spell(table, a).Ok? && Spell(table, b).Ok?
    ensures Spell(table, a + b).Ok? ==> Spell(table, a + b).value == Spell(table, a).value + Spell(table, b).value
  {
    var ab := a + b;
    assert forall k :: 0 <= k < |a| ==> ab[k] == a[k];
    assert forall k :: 0 <= k < |b| ==> ab[|a| + k] == b[k];
    if Spell(table, ab).Ok? {
      var x := Symbols(table, a).value;
      var y := Symbols(table, b).value;
      assert Symbols(table, ab).value == x + y;
      FlattenAppend(x, y);
    }
  }

  predicate SingleCharacters(syms: seq<string>) {
    forall k :: 0 <= k < |syms| ==> |syms[k]| == 1
  }

  /** Joining one-character symbols gives one character per symbol, in order. */
  lemma {:induction false} FlattenSingleCharacters(syms: seq<string>)
    requires SingleCharacters(syms)
    ensures |Flatten(syms)| == |syms|
    ensures forall k :: 0 <= k < |syms| ==> [Flatten(syms)[k]] == syms[k]
    decreases |syms|
  {
    if |syms| > 0 {
      FlattenSingleCharacters(syms[1..]);
      assert Flatten(syms) == syms[0] + Flatten(syms[1..]);
      forall k | 0 <= k < |syms|
        ensures [Flatten(syms)[k]] == syms[k]
      {
        if k > 0 {
          assert Flatten(syms)[k] == Flatten(syms[1..])[k - 1];
          assert syms[1..][k - 1] == syms[k];
        }
      }
    }
  }

  /** With a table of one-character symbols and only known ids, spelling
      gives one character per id, in order. */
  lemma SpellSingleCharacters(table: map<int, string>, ids: seq<int>)
    requires forall i :: i in table ==> |table[i]| == 1
    requires forall k :: 0 <= k < |ids| ==> ids[k] in table
    ensures Spell(table, ids).Ok?
    ensures |Spell(table, ids).value| == |ids|
    ensures forall k :: 0 <= k < |ids| ==> [Spell(table, ids).value[k]] == table[ids[k]]
  {
    var syms := Symbols(table, ids).value;
    forall k | 0 <= k < |syms|
      ensures |syms[k]| == 1
    {
      var id := ids[k];
      assert id in table && syms[k] == table[id];
    }
    FlattenSingleCharacters(syms);
  }
}
