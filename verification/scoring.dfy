/** The scorer of the LRS2 attention model (`greedy_decode`, `beam_decode`,
    `validation_end` in src/models/lrs2_resnet_attn.py): id rows are spelled
    through the dataset's id-to-symbol table, cut at the first end of
    sequence, normalised, and compared by edit distance. */
module Scoring {
  import opened Results
  import opened PySeq
  import opened PyText
  import opened Spelling
  import opened EditDistance

  const Pad: string := "<pad>"
  const Eos: string := "<eos>"
  const Sos: string := "<sos>"

  // -------------------------------------------------------- normalisation

  /** `s[:s.find('@')]`: the text before the first '@'. Without any '@',
      `find` gives -1 and the slice drops the last character instead. */
  function CutAtEos(s: string): (r: string)
    ensures '@' !in r
    ensures '@' in s ==> |r| < |s| && r == s[..|r|] && s[|r|] == '@'
    ensures '@' !in s && |s| > 0 ==> r == s[..|s| - 1]
    ensures |s| == 0 ==> r == []
  {
    var k := Find(s, '@');
    assert k >= 0 ==> Take(s, k) == s[..k];
    Take(s, k)
  }

  /** The reference row of `greedy_decode` and `beam_decode`: pads become
      spaces, `<eos>` becomes '@', and the text is cut there. It is neither
      stripped nor collapsed. */
  function NormaliseLabel(text: string): (r: string)
    ensures '@' !in r
  {
    CutAtEos(Replace(Replace(text, Pad, " "), Eos, "@"))
  }

  /** Stripping and collapsing, the last two steps of hypothesis normalisation. */
  function Tidy(s: string): (r: string)
    ensures NoEdgeSpace(r) && NoDoubleSpace(r)
    ensures forall c :: c in r ==> c in s
    ensures WithoutBlanks(r) == WithoutBlanks(Strip(s))
    ensures NoEdgeSpace(s) && NoDoubleSpace(s) ==> r == s
    ensures r == DropRepeatedSpaces(Strip(s))
  {
    StripSpec(s);
    CollapseKeepsContent(Strip(s));
    CollapseDropsRepeats(Strip(s));
    var r := CollapseSpaces(Strip(s));
    assert NoEdgeSpace(s) && NoDoubleSpace(s) ==> r == s by {
      if NoEdgeSpace(s) && NoDoubleSpace(s) {
        StripIdentity(s);
        CollapseIdentity(s);
      }
    }
    r
  }

  /** The hypothesis row of `greedy_decode`: `<eos>` becomes '@', `<pad>` and
      `<sos>` become '&', then it is cut, stripped and has its runs of
      spaces collapsed. */
  function NormaliseHypothesis(text: string): (r: string)
    ensures '@' !in r && NoEdgeSpace(r) && NoDoubleSpace(r)
  {
    Tidy(CutAtEos(Replace(Replace(Replace(text, Eos, "@"), Pad, "&"), Sos, "&")))
  }

  /** The hypothesis row of `beam_decode`, whose vocabulary already spells
      the end of sequence as '@': cut, strip, collapse. */
  function NormaliseBeam(text: string): (r: string)
    ensures '@' !in r && NoEdgeSpace(r) && NoDoubleSpace(r)
  {
    Tidy(CutAtEos(text))
  }

  // ------------------------------------- normalisation at the symbol level

  /** The symbols a well-formed table holds: the three specials, or text
      with neither '<' nor '@' in it. */
  predicate PlainOrSpecial(sym: string) {
    sym == Pad || sym == Eos || sym == Sos || ('<' !in sym && '@' !in sym)
  }

  predicate WellFormed(syms: seq<string>) {
    forall k :: 0 <= k < |syms| ==> PlainOrSpecial(syms[k])
  }

  function LabelSymbol(sym: string): string {
    if sym == Pad then " " else sym
  }

  function HypothesisSymbol(sym: string): string {
    if sym == Pad || sym == Sos then "&" else sym
  }

  /** The text of the parts before part `k`; for a negative `k`, the text of
      all of them but its last character. */
  function CutParts(parts: seq<string>, k: int): string
    requires k < |parts|
  {
    if k >= 0 then Flatten(parts[..k]) else Take(Flatten(parts), -1)
  }

  /** What the reference row means: the symbols before the first `<eos>`,
      each pad read as a space; with no `<eos>`, all of them but the last
      character. */
  function LabelReference(syms: seq<string>): string {
    CutParts(LabelSymbols(syms), Find(syms, Eos))
  }

  /** What the hypothesis row means: the symbols before the first `<eos>`,
      pads and starts read as '&', then stripped and collapsed. */
  function HypothesisReference(syms: seq<string>): string {
    Tidy(CutParts(HypothesisSymbols(syms), Find(syms, Eos)))
  }

  /** The symbols that can appear while the three replacements run. */
  predicate Staged(sym: string) {
    sym == Pad || sym == Eos || sym == Sos || sym == "@" || '<' !in sym
  }

  predicate IsSpecial(pat: string) {
    pat == Pad || pat == Eos || pat == Sos
  }

  lemma StagedInert(sym: string, pat: string)
    requires Staged(sym) && IsSpecial(pat)
    ensures sym == pat || Inert(sym, pat)
  {
    assert Eos[..|Pad|] == Eos && Sos[..|Pad|] == Sos && Pad[..|Eos|] == Pad;
  }

  /** One replacement step of the normalisation, at the symbol level. */
  lemma ReplaceStaged(syms: seq<string>, pat: string, rep: string)
    requires IsSpecial(pat) && '<' !in rep
    requires forall j :: 0 <= j < |syms| ==> Staged(syms[j])
    ensures Replace(Flatten(syms), pat, rep) == Flatten(RenameAll(syms, pat, rep))
    ensures forall j :: 0 <= j < |syms| ==> Staged(RenameAll(syms, pat, rep)[j])
  {
    forall j | 0 <= j < |syms| ensures syms[j] == pat || Inert(syms[j], pat) {
      StagedInert(syms[j], pat);
    }
    ReplaceSymbols(syms, pat, rep);
  }

  lemma NotInFlatten(parts: seq<string>, c: char)
    requires forall j :: 0 <= j < |parts| ==> c !in parts[j]
    ensures c !in Flatten(parts)
    decreases |parts|
  {
    if |parts| > 0 {
      NotInFlatten(parts[1..], c);
    }
  }

  /** The first '@' of a text made of symbols is the first '@' symbol. */
  lemma FindInFlatten(parts: seq<string>, k: nat)
    requires k < |parts| && parts[k] == "@"
    requires forall j :: 0 <= j < k ==> '@' !in parts[j]
    ensures Find(Flatten(parts), '@') == |Flatten(parts[..k])|
    ensures Take(Flatten(parts), Find(Flatten(parts), '@')) == Flatten(parts[..k])
  {
    assert parts == parts[..k] + parts[k..];
    FlattenAppend(parts[..k], parts[k..]);
    assert Flatten(parts[k..]) == "@" + Flatten(parts[k + 1..]) by {
      assert parts[k..][1..] == parts[k + 1..];
    }
    NotInFlatten(parts[..k], '@');
    FindAfterPrefix(Flatten(parts[..k]), '@', Flatten(parts[k + 1..]));
    assert Flatten(parts) == Flatten(parts[..k]) + ['@'] + Flatten(parts[k + 1..]);
  }

  /** Cutting a symbol text at '@': the symbols before the first "@" symbol,
      or everything but the last character when there is none. */
  lemma CutSymbols(parts: seq<string>, isEos: seq<bool>)
    requires |isEos| == |parts|
    requires forall j :: 0 <= j < |parts| ==> (isEos[j] ==> parts[j] == "@") && (!isEos[j] ==> '@' !in parts[j])
    ensures CutAtEos(Flatten(parts)) == CutParts(parts, Find(isEos, true))
  {
    var k := Find(isEos, true);
    if k >= 0 {
      FindInFlatten(parts, k);
    } else {
      assert forall j :: 0 <= j < |parts| ==> !isEos[j];
      NotInFlatten(parts, '@');
    }
  }

  function EosMarks(syms: seq<string>): (r: seq<bool>)
    ensures |r| == |syms| && forall j :: 0 <= j < |syms| ==> r[j] == (syms[j] == Eos)
    ensures Find(r, true) == Find(syms, Eos)
  {
    var r := seq(|syms|, j requires 0 <= j < |syms| => syms[j] == Eos);
    FindPredicate(syms, Eos, r);
    r
  }

  /** The reference row's symbols after the replacements, before the cut. */
  lemma ReplacedLabelSymbols(syms: seq<string>) returns (m: seq<string>)
    requires WellFormed(syms)
    ensures Replace(Replace(Flatten(syms), Pad, " "), Eos, "@") == Flatten(m)
    ensures |m| == |syms|
    ensures forall j :: 0 <= j < |syms| ==> m[j] == (if syms[j] == Eos then "@" else LabelSymbol(syms[j]))
  {
    ReplaceStaged(syms, Pad, " ");
    var l := RenameAll(syms, Pad, " ");
    ReplaceStaged(l, Eos, "@");
    m := RenameAll(l, Eos, "@");
  }

  function LabelSymbols(syms: seq<string>): (r: seq<string>)
    ensures |r| == |syms| && forall j :: 0 <= j < |syms| ==> r[j] == LabelSymbol(syms[j])
  {
    seq(|syms|, j requires 0 <= j < |syms| => LabelSymbol(syms[j]))
  }

  /** Cutting the replaced reference row keeps the symbols before the first `<eos>`. */
  lemma CutLabel(syms: seq<string>, m: seq<string>)
    requires WellFormed(syms) && |m| == |syms|
    requires forall j :: 0 <= j < |syms| ==> m[j] == (if syms[j] == Eos then "@" else LabelSymbol(syms[j]))
    ensures CutAtEos(Flatten(m)) == LabelReference(syms)
  {
    var isEos := EosMarks(syms);
    forall j | 0 <= j < |m| ensures (isEos[j] ==> m[j] == "@") && (!isEos[j] ==> '@' !in m[j]) {
      if syms[j] != Eos {
        SymbolMark(syms[j]);
      }
    }
    CutSymbols(m, isEos);
    var k := Find(syms, Eos);
    var ls := LabelSymbols(syms);
    forall j | 0 <= j < |m| && (k < 0 || j < k) ensures m[j] == ls[j] {
      assert syms[j] != Eos;
    }
    SameCut(m, ls, k);
  }

  /** No symbol but `<eos>` turns into text with an '@' in it. */
  lemma SymbolMark(sym: string)
    requires PlainOrSpecial(sym) && sym != Eos
    ensures '@' !in LabelSymbol(sym) && '@' !in HypothesisSymbol(sym)
  {
  }

  /** Two lists of parts that agree before part `k` (everywhere, for a
      negative `k`) cut to the same text. */
  lemma SameCut(a: seq<string>, b: seq<string>, k: int)
    requires |a| == |b| && k < |a|
    requires forall j :: 0 <= j < |a| && (k < 0 || j < k) ==> a[j] == b[j]
    ensures CutParts(a, k) == CutParts(b, k)
  {
    if k >= 0 {
      assert a[..k] == b[..k];
    } else {
      assert a == b;
    }
  }

  /** Normalising the reference row is reading its symbols as `LabelReference` says. */
  lemma LabelMeaning(syms: seq<string>)
    requires WellFormed(syms)
    ensures NormaliseLabel(Flatten(syms)) == LabelReference(syms)
  {
    var m := ReplacedLabelSymbols(syms);
    CutLabel(syms, m);
  }

  /** Finding a value is finding `true` in the list of comparisons with it. */
  lemma FindPredicate<T>(s: seq<T>, x: T, hits: seq<bool>)
    requires |hits| == |s| && forall j :: 0 <= j < |s| ==> hits[j] == (s[j] == x)
    ensures Find(s, x) == Find(hits, true)
    decreases |s|
  {
    if |s| > 0 {
      FindPredicate(s[1..], x, hits[1..]);
    }
  }

  function HypothesisSymbols(syms: seq<string>): (r: seq<string>)
    ensures |r| == |syms| && forall j :: 0 <= j < |syms| ==> r[j] == HypothesisSymbol(syms[j])
  {
    seq(|syms|, j requires 0 <= j < |syms| => HypothesisSymbol(syms[j]))
  }

  /** The hypothesis row's symbols after the replacements, before the cut. */
  lemma ReplacedHypothesisSymbols(syms: seq<string>) returns (m: seq<string>)
    requires WellFormed(syms)
    ensures Replace(Replace(Replace(Flatten(syms), Eos, "@"), Pad, "&"), Sos, "&") == Flatten(m)
    ensures |m| == |syms|
    ensures forall j :: 0 <= j < |syms| ==> m[j] == (if syms[j] == Eos then "@" else HypothesisSymbol(syms[j]))
  {
    ReplaceStaged(syms, Eos, "@");
    var m1 := RenameAll(syms, Eos, "@");
    ReplaceStaged(m1, Pad, "&");
    var m2 := RenameAll(m1, Pad, "&");
    ReplaceStaged(m2, Sos, "&");
    m := RenameAll(m2, Sos, "&");
  }

  /** Cutting the replaced hypothesis row keeps the symbols before the first `<eos>`. */
  lemma CutHypothesis(syms: seq<string>, m: seq<string>)
    requires WellFormed(syms) && |m| == |syms|
    requires forall j :: 0 <= j < |syms| ==> m[j] == (if syms[j] == Eos then "@" else HypothesisSymbol(syms[j]))
    ensures CutAtEos(Flatten(m)) == CutParts(HypothesisSymbols(syms), Find(syms, Eos))
  {
    var isEos := EosMarks(syms);
    forall j | 0 <= j < |m| ensures (isEos[j] ==> m[j] == "@") && (!isEos[j] ==> '@' !in m[j]) {
      if syms[j] != Eos {
        SymbolMark(syms[j]);
      }
    }
    CutSymbols(m, isEos);
    SameCut(m, HypothesisSymbols(syms), Find(syms, Eos));
  }

  /** What a beam row means: the symbols before the first "@", stripped and
      collapsed; with no "@", all of them but the last character. */
  function BeamReference(syms: seq<string>): string {
    Tidy(CutParts(syms, Find(syms, "@")))
  }

  /** Normalising a beam row, whose symbols are "@" or free of '@', is
      reading its symbols as `BeamReference` says. */
  lemma BeamMeaning(syms: seq<string>)
    requires forall j :: 0 <= j < |syms| ==> syms[j] == "@" || '@' !in syms[j]
    ensures NormaliseBeam(Flatten(syms)) == BeamReference(syms)
  {
    var isEos := seq(|syms|, j requires 0 <= j < |syms| => syms[j] == "@");
    FindPredicate(syms, "@", isEos);
    CutSymbols(syms, isEos);
  }

  /** Normalising the hypothesis row is reading its symbols as
      `HypothesisReference` says. */
  lemma HypothesisMeaning(syms: seq<string>)
    requires WellFormed(syms)
    ensures NormaliseHypothesis(Flatten(syms)) == HypothesisReference(syms)
  {
    var m := ReplacedHypothesisSymbols(syms);
    CutHypothesis(syms, m);
  }
}
