/** Python `str` operations used by the scorer and the data loaders, with
    Python's own edge cases: `find` returning -1, `split(sep)` keeping
    empty fields, `splitlines` dropping a final empty line, `strip`
    removing every Unicode whitespace character, `str.replace` scanning
    left to right without overlap, and `int()` parsing. */
module PyText {
  import opened Results
  import opened PySeq

  // ---------------------------------------------------------------- find

  /** `s.find(c)`: the index of the first `c` in `s`, or -1. Also used on
      lists, where it is the guarded form of `list.index`. */
  function Find<T(==)>(s: seq<T>, c: T): (r: int)
    ensures -1 <= r < |s|
    ensures r == -1 <==> c !in s
    ensures r >= 0 ==> s[r] == c && c !in s[..r]
    ensures forall j :: 0 <= j < |s| && (r < 0 || j < r) ==> s[j] != c
  {
    if |s| == 0 then -1
    else if s[0] == c then 0
    else
      var k := Find(s[1..], c);
      assert s == [s[0]] + s[1..];
      if k == -1 then -1
      else
        assert s[..k + 1] == [s[0]] + s[1..][..k];
        k + 1
  }

  lemma FindAfterPrefix<T>(a: seq<T>, c: T, b: seq<T>)
    requires c !in a
    ensures Find(a + [c] + b, c) == |a|
  {
    var s := a + [c] + b;
    assert s[|a|] == c;
    assert s[..|a|] == a;
    assert forall i :: 0 <= i < |a| ==> s[i] == a[i];
  }

  // ------------------------------------------------------- split and join

  /** `s.split(sep)` for a one-character separator: every occurrence splits,
      so `n` separators give `n + 1` fields, some possibly empty. */
  function Split(s: string, sep: char): (r: seq<string>)
    ensures |r| >= 1
    ensures forall k :: 0 <= k < |r| ==> sep !in r[k]
    decreases |s|
  {
    var k := Find(s, sep);
    if k < 0 then [s] else [s[..k]] + Split(s[k + 1..], sep)
  }

  /** The first occurrence inside a prefix is the first occurrence overall. */
  lemma FindInPrefix<T>(a: seq<T>, t: seq<T>, c: T)
    requires c in a
    ensures Find(a + t, c) == Find(a, c)
  {
    var k := Find(a, c);
    var s := a + t;
    assert s[k] == c;
    assert forall j :: 0 <= j < k ==> s[j] == a[j];
  }

  /** Splitting at a first separator: the field before it, then the
      fields of the rest. */
  lemma SplitAtFirst(s: string, sep: char)
    requires sep in s
    ensures Split(s, sep) == [s[..Find(s, sep)]] + Split(s[Find(s, sep) + 1..], sep)
  {
  }

  /** A separator inside `a` is still the first one once `[sep] + b` is
      appended, so the first field is the same. */
  lemma SplitAppendedAtFirst(a: string, b: string, sep: char)
    requires sep in a
    ensures Split(a + [sep] + b, sep) == [a[..Find(a, sep)]] + Split(a[Find(a, sep) + 1..] + [sep] + b, sep)
  {
    var k := Find(a, sep);
    var s := a + [sep] + b;
    assert s == a + ([sep] + b);
    FindInPrefix(a, [sep] + b, sep);
    assert s[..k] == a[..k] && s[k + 1..] == a[k + 1..] + [sep] + b;
    SplitAtFirst(s, sep);
  }

  /** Splitting after a last separator adds the final field. */
  lemma {:induction false} SplitLastField(a: string, b: string, sep: char)
    requires sep !in b
    ensures Split(a + [sep] + b, sep) == Split(a, sep) + [b]
    decreases |a|
  {
    if sep in a {
      var k := Find(a, sep);
      var head := a[..k];
      var mid := a[k + 1..];
      SplitAppendedAtFirst(a, b, sep);
      SplitAtFirst(a, sep);
      SplitLastField(mid, b, sep);
      calc {
        Split(a + [sep] + b, sep);
        [head] + Split(mid + [sep] + b, sep);
        [head] + (Split(mid, sep) + [b]);
        ([head] + Split(mid, sep)) + [b];
        Split(a, sep) + [b];
      }
    } else {
      SplitLastFieldNoSep(a, b, sep);
    }
  }

  lemma SplitLastFieldNoSep(a: string, b: string, sep: char)
    requires sep !in a && sep !in b
    ensures Split(a + [sep] + b, sep) == [a, b]
  {
    var s := a + [sep] + b;
    FindAfterPrefix(a, sep, b);
    SplitAtFirst(s, sep);
    assert s[..|a|] == a;
    assert s[|a| + 1..] == b;
  }

  /** `sep.join(parts)`. */
  function Join(parts: seq<string>, sep: string): string
  {
    if |parts| == 0 then ""
    else if |parts| == 1 then parts[0]
    else parts[0] + sep + Join(parts[1..], sep)
  }

  /** Joining one more part appends the separator and the part. */
  lemma {:induction false} JoinAppend(parts: seq<string>, part: string, sep: string)
    requires |parts| > 0
    ensures Join(parts + [part], sep) == Join(parts, sep) + sep + part
    decreases |parts|
  {
    if |parts| > 1 {
      assert (parts + [part])[1..] == parts[1..] + [part];
      JoinAppend(parts[1..], part, sep);
    }
  }

  /** Joining the fields of a split with the separator gives the string back. */
  lemma {:induction false} JoinSplit(s: string, sep: char)
    ensures Join(Split(s, sep), [sep]) == s
    decreases |s|
  {
    if sep in s {
      var k := Find(s, sep);
      var tail := s[k + 1..];
      var rest := Split(tail, sep);
      SplitAtFirst(s, sep);
      JoinSplit(tail, sep);
      JoinCons(s[..k], rest, [sep]);
      assert s == s[..k] + [sep] + tail;
    } else {
      assert Split(s, sep) == [s];
    }
  }

  /** Joining a part in front of at least one more. */
  lemma JoinCons(first: string, rest: seq<string>, sep: string)
    requires |rest| >= 1
    ensures Join([first] + rest, sep) == first + sep + Join(rest, sep)
  {
    assert ([first] + rest)[1..] == rest;
  }

  /** Splitting a join of separator-free fields gives the fields back. */
  lemma {:induction false} SplitJoin(parts: seq<string>, sep: char)
    requires |parts| >= 1
    requires forall k :: 0 <= k < |parts| ==> sep !in parts[k]
    ensures Split(Join(parts, [sep]), sep) == parts
    decreases |parts|
  {
    if |parts| > 1 {
      var first := parts[0];
      var rest := Join(parts[1..], [sep]);
      var s := first + [sep] + rest;
      JoinCons(first, parts[1..], [sep]);
      assert parts == [first] + parts[1..];
      assert Join(parts, [sep]) == s;
      FindAfterPrefix(first, sep, rest);
      assert s[..|first|] == first && s[|first| + 1..] == rest;
      SplitAtFirst(s, sep);
      SplitJoin(parts[1..], sep);
    } else {
      assert Join(parts, [sep]) == parts[0];
      assert Split(parts[0], sep) == [parts[0]];
    }
  }

  /** Two strings split into the same fields exactly when they are equal. */
  lemma SplitInjective(a: string, b: string, sep: char)
    ensures Split(a, sep) == Split(b, sep) <==> a == b
  {
    if Split(a, sep) == Split(b, sep) {
      JoinSplit(a, sep);
      JoinSplit(b, sep);
    }
  }

  // ---------------------------------------------------------- splitlines

  /** The line boundaries of `str.splitlines`; `\r\n` counts as one. */
  predicate IsLineBreak(c: char) {
    c == '\n' || c == '\r' || c == '\U{0B}' || c == '\U{0C}' || c == '\U{1C}' || c == '\U{1D}'
    || c == '\U{1E}' || c == '\U{85}' || c == '\U{2028}' || c == '\U{2029}'
  }

  function FindLineBreak(s: string): (r: nat)
    ensures r <= |s|
    ensures forall i :: 0 <= i < r ==> !IsLineBreak(s[i])
    ensures r < |s| ==> IsLineBreak(s[r])
  {
    if |s| == 0 || IsLineBreak(s[0]) then 0 else 1 + FindLineBreak(s[1..])
  }

  /** `s.splitlines()`: no trailing empty line, `\r\n` is one boundary. */
  function SplitLines(s: string): (r: seq<string>)
    ensures forall k, i :: 0 <= k < |r| && 0 <= i < |r[k]| ==> !IsLineBreak(r[k][i])
    decreases |s|
  {
    if |s| == 0 then []
    else
      var k := FindLineBreak(s);
      if k == |s| then [s]
      else
        var next := if s[k] == '\r' && k + 1 < |s| && s[k + 1] == '\n' then k + 2 else k + 1;
        [s[..k]] + SplitLines(s[next..])
  }

  predicate NoLineBreak(s: string) {
    forall i :: 0 <= i < |s| ==> !IsLineBreak(s[i])
  }

  /** Lines free of boundaries, the last one non-empty, survive a round trip
      through `"\n".join` and `splitlines`. */
  lemma {:induction false} SplitLinesJoin(lines: seq<string>)
    requires |lines| >= 1 && |lines[|lines| - 1]| > 0
    requires forall k :: 0 <= k < |lines| ==> NoLineBreak(lines[k])
    ensures SplitLines(Join(lines, "\n")) == lines
    decreases |lines|
  {
    if |lines| == 1 {
      assert FindLineBreak(lines[0]) == |lines[0]|;
    } else {
      var rest := Join(lines[1..], "\n");
      var s := lines[0] + "\n" + rest;
      assert Join(lines, "\n") == s;
      assert FindLineBreak(s) == |lines[0]| by {
        assert forall i :: 0 <= i < |lines[0]| ==> s[i] == lines[0][i];
        assert s[|lines[0]|] == '\n';
      }
      assert s[..|lines[0]|] == lines[0];
      assert s[|lines[0]| + 1..] == rest;
      SplitLinesJoin(lines[1..]);
      assert lines == [lines[0]] + lines[1..];
    }
  }

  // --------------------------------------------------------------- strip

  /** The characters `str.isspace` accepts, which `str.strip()` removes. */
  predicate IsSpace(c: char) {
    c == ' ' || c == '\t' || IsLineBreak(c) || c == '\U{1F}' || c == '\U{A0}' || c == '\U{1680}'
    || ('\U{2000}' <= c <= '\U{200A}') || c == '\U{202F}' || c == '\U{205F}' || c == '\U{3000}'
  }

  /** The number of leading whitespace characters. */
  function LeadingSpaces(s: string): (r: nat)
    ensures r <= |s|
    ensures forall i :: 0 <= i < r ==> IsSpace(s[i])
    ensures r < |s| ==> !IsSpace(s[r])
  {
    if |s| == 0 || !IsSpace(s[0]) then 0 else 1 + LeadingSpaces(s[1..])
  }

  /** The number of trailing whitespace characters. */
  function TrailingSpaces(s: string): (r: nat)
    ensures r <= |s|
    ensures forall i :: |s| - r <= i < |s| ==> IsSpace(s[i])
    ensures r < |s| ==> !IsSpace(s[|s| - r - 1])
  {
    if |s| == 0 || !IsSpace(s[|s| - 1]) then 0 else 1 + TrailingSpaces(s[..|s| - 1])
  }

  /** `s.strip()`. */
  function Strip(s: string): string {
    var t := s[LeadingSpaces(s)..];
    t[..|t| - TrailingSpaces(t)]
  }

  /** Strip keeps a contiguous middle of `s`, removes only whitespace, and
      leaves no whitespace at either end. */
  lemma StripSpec(s: string)
    ensures exists i, j :: (0 <= i <= j <= |s| && Strip(s) == s[i..j]
      && (forall k :: 0 <= k < i ==> IsSpace(s[k]))
      && (forall k :: j <= k < |s| ==> IsSpace(s[k])))
    ensures NoEdgeSpace(Strip(s))
  {
    var i := LeadingSpaces(s);
    var t := s[i..];
    var j := i + |t| - TrailingSpaces(t);
    assert Strip(s) == s[i..j];
    assert forall k :: j <= k < |s| ==> IsSpace(s[k]) by {
      forall k | j <= k < |s| ensures IsSpace(s[k]) {
        assert s[k] == t[k - i];
      }
    }
  }

  predicate NoEdgeSpace(s: string) {
    |s| == 0 || (!IsSpace(s[0]) && !IsSpace(s[|s| - 1]))
  }

  /** Stripping a string with no whitespace at its ends, behind one more
      space, gives the string back. */
  lemma StripLeadingSpace(t: string)
    requires NoEdgeSpace(t)
    ensures Strip(" " + t) == t
  {
    var s := " " + t;
    assert s[1..] == t;
    assert LeadingSpaces(s) == 1 + LeadingSpaces(t);
    if |t| > 0 {
      assert TrailingSpaces(t) == 0;
    }
  }

  /** A string with no whitespace at either end is its own strip. */
  lemma StripIdentity(s: string)
    requires NoEdgeSpace(s)
    ensures Strip(s) == s
  {
    if |s| > 0 {
      assert LeadingSpaces(s) == 0;
      assert s[0..] == s;
      assert TrailingSpaces(s) == 0;
    }
  }

  // ------------------------------------------------------ collapse spaces

  /** The number of leading ' ' characters (only the plain space). */
  function LeadingBlanks(s: string): (r: nat)
    ensures r <= |s|
    ensures forall i :: 0 <= i < r ==> s[i] == ' '
    ensures r < |s| ==> s[r] != ' '
  {
    if |s| == 0 || s[0] != ' ' then 0 else 1 + LeadingBlanks(s[1..])
  }

  predicate NoDoubleSpace(s: string) {
    forall i :: 0 <= i < |s| - 1 ==> !(s[i] == ' ' && s[i + 1] == ' ')
  }

  /** `re.sub(' +', ' ', s)`: every maximal run of spaces becomes one space.
      The first and last characters survive, so stripped input stays stripped. */
  function CollapseSpaces(s: string): (r: string)
    ensures |r| <= |s|
    ensures |r| == 0 <==> |s| == 0
    ensures |s| > 0 ==> r[0] == s[0] && r[|r| - 1] == s[|s| - 1]
    ensures NoDoubleSpace(r)
    ensures forall c :: c in r ==> c in s
    decreases |s|
  {
    if |s| == 0 then []
    else if s[0] == ' ' then
      var n := LeadingBlanks(s);
      var rest := CollapseSpaces(s[n..]);
      assert forall c :: c in s[n..] ==> c in s;
      assert n == |s| ==> s[|s| - 1] == ' ';
      assert n < |s| ==> s[n..][|s[n..]| - 1] == s[|s| - 1];
      [' '] + rest
    else
      var rest := CollapseSpaces(s[1..]);
      assert forall c :: c in s[1..] ==> c in s;
      [s[0]] + rest
  }

  /** The string with every ' ' removed. */
  function WithoutBlanks(s: string): string {
    if |s| == 0 then [] else (if s[0] == ' ' then [] else [s[0]]) + WithoutBlanks(s[1..])
  }

  lemma {:induction false} WithoutLeadingBlanks(s: string, n: nat)
    requires n <= |s|
    requires forall i :: 0 <= i < n ==> s[i] == ' '
    ensures WithoutBlanks(s) == WithoutBlanks(s[n..])
    decreases n
  {
    if n > 0 {
      WithoutLeadingBlanks(s[1..], n - 1);
      assert s[1..][n - 1..] == s[n..];
    }
  }

  /** The string with every space that is followed by another space
      removed: of each run of spaces only its last one is kept. */
  function DropRepeatedSpaces(s: string): string
    decreases |s|
  {
    if |s| == 0 then []
    else (if |s| >= 2 && s[0] == ' ' && s[1] == ' ' then [] else [s[0]]) + DropRepeatedSpaces(s[1..])
  }

  /** A run of `n` spaces, not followed by another space, drops to one. */
  lemma {:induction false} DropSpaceRun(s: string, n: nat)
    requires 1 <= n <= |s| && forall i :: 0 <= i < n ==> s[i] == ' '
    requires n == |s| || s[n] != ' '
    ensures DropRepeatedSpaces(s) == [' '] + DropRepeatedSpaces(s[n..])
    decreases n
  {
    if n > 1 {
      DropSpaceRun(s[1..], n - 1);
      assert s[1..][n - 1..] == s[n..];
    } else {
      assert s[1..] == s[n..];
    }
  }

  /** `re.sub(' +', ' ', s)` keeps a character exactly when it is not a
      space followed by a space. */
  lemma {:induction false} CollapseDropsRepeats(s: string)
    ensures CollapseSpaces(s) == DropRepeatedSpaces(s)
    decreases |s|
  {
    if |s| > 0 {
      if s[0] == ' ' {
        var n := LeadingBlanks(s);
        CollapseDropsRepeats(s[n..]);
        DropSpaceRun(s, n);
      } else {
        CollapseDropsRepeats(s[1..]);
      }
    }
  }

  /** Collapsing touches nothing but spaces. */
  lemma {:induction false} CollapseKeepsContent(s: string)
    ensures WithoutBlanks(CollapseSpaces(s)) == WithoutBlanks(s)
    decreases |s|
  {
    if |s| > 0 {
      if s[0] == ' ' {
        var n := LeadingBlanks(s);
        CollapseKeepsContent(s[n..]);
        WithoutLeadingBlanks(s, n);
        var r := [' '] + CollapseSpaces(s[n..]);
        assert r[1..] == CollapseSpaces(s[n..]);
      } else {
        CollapseKeepsContent(s[1..]);
        var r := [s[0]] + CollapseSpaces(s[1..]);
        assert r[1..] == CollapseSpaces(s[1..]);
      }
    }
  }

  /** A string without a double space is left alone. */
  lemma {:induction false} CollapseIdentity(s: string)
    requires NoDoubleSpace(s)
    ensures CollapseSpaces(s) == s
    decreases |s|
  {
    if |s| > 0 {
      if s[0] == ' ' {
        assert LeadingBlanks(s) == 1 by {
          assert |s| > 1 ==> s[1] != ' ';
        }
      }
      var tail := s[1..];
      assert NoDoubleSpace(tail) by {
        forall i | 0 <= i < |tail| - 1 ensures !(tail[i] == ' ' && tail[i + 1] == ' ') {
          assert tail[i] == s[i + 1] && tail[i + 1] == s[i + 2];
        }
      }
      CollapseIdentity(tail);
      if s[0] == ' ' {
        assert s[1..] == tail;
        assert CollapseSpaces(s) == [' '] + CollapseSpaces(tail);
      } else {
        assert CollapseSpaces(s) == [s[0]] + CollapseSpaces(tail);
      }
      assert [s[0]] + tail == s;
    }
  }

  // ------------------------------------------------------------- replace

  /** `s.replace(pat, rep)` for a non-empty pattern: scan from the left,
      replace each match and resume after it. */
  function Replace(s: string, pat: string, rep: string): string
    requires |pat| > 0
    decreases |s|
  {
    if |s| < |pat| then s
    else if s[..|pat|] == pat then rep + Replace(s[|pat|..], pat, rep)
    else [s[0]] + Replace(s[1..], pat, rep)
  }

  /** A symbol that cannot start or contain a match of `pat`: only its first
      character may equal `pat[0]`, and then its first |pat| characters are
      not `pat`. */
  predicate Inert(sym: string, pat: string)
    requires |pat| > 0
  {
    && (forall i :: 1 <= i < |sym| ==> sym[i] != pat[0])
    && (|sym| > 0 && sym[0] == pat[0] ==> |sym| >= |pat| && sym[..|pat|] != pat)
  }

  /** A text whose first character does not start the pattern keeps that
      character in front of the replaced rest. */
  lemma ReplaceSkips(s: string, pat: string, rep: string)
    requires |pat| > 0 && |s| > 0 && s[0] != pat[0]
    ensures Replace(s, pat, rep) == [s[0]] + Replace(s[1..], pat, rep)
  {
    if |s| < |pat| {
      assert Replace(s[1..], pat, rep) == s[1..];
      assert [s[0]] + s[1..] == s;
    } else {
      assert s[..|pat|][0] == s[0];
    }
  }

  lemma {:induction false} ReplacePassesText(a: string, t: string, pat: string, rep: string)
    requires |pat| > 0
    requires forall i :: 0 <= i < |a| ==> a[i] != pat[0]
    ensures Replace(a + t, pat, rep) == a + Replace(t, pat, rep)
    decreases |a|
  {
    if |a| > 0 {
      var s := a + t;
      var tail := a[1..];
      assert s[0] == a[0];
      ReplaceSkips(s, pat, rep);
      assert s[1..] == tail + t;
      assert forall i :: 0 <= i < |tail| ==> tail[i] == a[i + 1];
      ReplacePassesText(tail, t, pat, rep);
      var r := Replace(t, pat, rep);
      calc {
        Replace(s, pat, rep);
        [a[0]] + Replace(tail + t, pat, rep);
        [a[0]] + (tail + r);
        { assert [a[0]] + tail == a; }
        a + r;
      }
    } else {
      assert a + t == t;
    }
  }

  lemma ReplaceKeepsFirst(sym: string, t: string, pat: string, rep: string)
    requires |pat| > 0 && |sym| >= |pat| && sym[..|pat|] != pat
    ensures Replace(sym + t, pat, rep) == [sym[0]] + Replace(sym[1..] + t, pat, rep)
  {
    var s := sym + t;
    assert s[..|pat|] == sym[..|pat|];
    assert s[1..] == sym[1..] + t;
  }

  lemma ReplaceInertMarked(sym: string, t: string, pat: string, rep: string)
    requires |pat| > 0 && |sym| >= |pat| && sym[..|pat|] != pat
    requires forall i :: 1 <= i < |sym| ==> sym[i] != pat[0]
    ensures Replace(sym + t, pat, rep) == sym + Replace(t, pat, rep)
  {
    ReplaceKeepsFirst(sym, t, pat, rep);
    var tail := sym[1..];
    assert forall i :: 0 <= i < |tail| ==> tail[i] != pat[0] by {
      forall i | 0 <= i < |tail| ensures tail[i] != pat[0] {
        assert tail[i] == sym[i + 1];
      }
    }
    ReplacePassesText(tail, t, pat, rep);
    var r := Replace(t, pat, rep);
    calc {
      Replace(sym + t, pat, rep);
      [sym[0]] + Replace(tail + t, pat, rep);
      [sym[0]] + (tail + r);
      { assert [sym[0]] + tail == sym; }
      sym + r;
    }
  }

  lemma ReplaceInert(sym: string, t: string, pat: string, rep: string)
    requires |pat| > 0 && Inert(sym, pat)
    ensures Replace(sym + t, pat, rep) == sym + Replace(t, pat, rep)
  {
    if |sym| > 0 && sym[0] == pat[0] {
      ReplaceInertMarked(sym, t, pat, rep);
    } else {
      assert forall i :: 0 <= i < |sym| ==> sym[i] != pat[0];
      ReplacePassesText(sym, t, pat, rep);
    }
  }

  lemma ReplaceMatch(t: string, pat: string, rep: string)
    requires |pat| > 0
    ensures Replace(pat + t, pat, rep) == rep + Replace(t, pat, rep)
  {
    var s := pat + t;
    assert s[..|pat|] == pat;
    assert s[|pat|..] == t;
  }

  /** The symbol-level effect of a replace: a symbol equal to `pat` becomes `rep`. */
  function Rename(sym: string, pat: string, rep: string): string {
    if sym == pat then rep else sym
  }

  function RenameAll(syms: seq<string>, pat: string, rep: string): (r: seq<string>)
    ensures |r| == |syms|
    ensures forall k :: 0 <= k < |syms| ==> r[k] == Rename(syms[k], pat, rep)
  {
    seq(|syms|, k requires 0 <= k < |syms| => Rename(syms[k], pat, rep))
  }

  /** On text made of whole symbols, each equal to `pat` or inert, replacing
      in the joined text is renaming the symbols. */
  lemma {:induction false} ReplaceSymbols(syms: seq<string>, pat: string, rep: string)
    requires |pat| > 0
    requires forall k :: 0 <= k < |syms| ==> syms[k] == pat || Inert(syms[k], pat)
    ensures Replace(Flatten(syms), pat, rep) == Flatten(RenameAll(syms, pat, rep))
    decreases |syms|
  {
    if |syms| == 0 {
    } else {
      ReplaceSymbols(syms[1..], pat, rep);
      assert RenameAll(syms, pat, rep)[1..] == RenameAll(syms[1..], pat, rep);
      if syms[0] == pat {
        ReplaceMatch(Flatten(syms[1..]), pat, rep);
      } else {
        ReplaceInert(syms[0], Flatten(syms[1..]), pat, rep);
      }
    }
  }

  // --------------------------------------------------------------- lower

  function LowerChar(c: char): char {
    if 'A' <= c <= 'Z' then (c as int + 32) as char else c
  }

  /** `s.lower()`, for the ASCII letters. */
  function Lower(s: string): (r: string)
    ensures |r| == |s|
    ensures forall i :: 0 <= i < |s| ==> r[i] == LowerChar(s[i])
  {
    seq(|s|, i requires 0 <= i < |s| => LowerChar(s[i]))
  }

  // ------------------------------------------------------------ integers

  predicate IsDigit(c: char) {
    '0' <= c <= '9'
  }

  predicate AllDigits(s: string) {
    forall i :: 0 <= i < |s| ==> IsDigit(s[i])
  }

  function DigitValue(c: char): nat
    requires IsDigit(c)
  {
    c as int - '0' as int
  }

  /** The value of a string of decimal digits. */
  function DigitsValue(s: string): nat
    requires AllDigits(s)
  {
    if |s| == 0 then 0 else DigitsValue(s[..|s| - 1]) * 10 + DigitValue(s[|s| - 1])
  }

  /** The literals `int()` accepts here: an optional sign, then digits. */
  predicate IsIntLiteral(s: string) {
    if |s| > 0 && (s[0] == '-' || s[0] == '+') then |s| > 1 && AllDigits(s[1..])
    else |s| > 0 && AllDigits(s)
  }

  /** `int(s)`: a malformed literal raises ValueError. */
  function ParseInt(s: string): (r: Result<int>)
    ensures r.Ok? <==> IsIntLiteral(s)
  {
    if |s| > 0 && (s[0] == '-' || s[0] == '+') then
      if |s| > 1 && AllDigits(s[1..]) then
        var v: int := DigitsValue(s[1..]);
        Ok(if s[0] == '-' then -v else v)
      else Err(ValueError)
    else if |s| > 0 && AllDigits(s) then Ok(DigitsValue(s))
    else Err(ValueError)
  }

  function DigitChar(d: nat): (c: char)
    requires d < 10
    ensures IsDigit(c) && DigitValue(c) == d
  {
    ('0' as int + d) as char
  }

  /** `str(n)` for a natural number. */
  function NatToString(n: nat): (r: string)
    ensures |r| > 0 && AllDigits(r)
    ensures DigitsValue(r) == n
  {
    if n < 10 then [DigitChar(n)]
    else
      var prefix := NatToString(n / 10);
      var r := prefix + [DigitChar(n % 10)];
      assert r[..|r| - 1] == prefix;
      r
  }

  /** `str(n)`. */
  function IntToString(n: int): string {
    if n < 0 then "-" + NatToString(-n) else NatToString(n)
  }

  /** `str(n)` is made of digits after an optional minus sign. */
  lemma IntToStringChars(n: int)
    ensures forall i :: 0 <= i < |IntToString(n)| ==> IntToString(n)[i] == '-' || IsDigit(IntToString(n)[i])
  {
    if n < 0 {
      assert forall i :: 1 <= i < |IntToString(n)| ==> IntToString(n)[i] == NatToString(-n)[i - 1];
    }
  }

  /** `int(str(n)) == n`. */
  lemma ParseIntToString(n: int)
    ensures ParseInt(IntToString(n)) == Ok(n)
  {
    if n < 0 {
      var s := IntToString(n);
      assert s[1..] == NatToString(-n);
    } else {
      assert NatToString(n)[0] != '-' && NatToString(n)[0] != '+' by {
        assert IsDigit(NatToString(n)[0]);
      }
    }
  }

  // ------------------------------------------------------------ decimals

  function Pow10(k: nat): (r: nat)
    ensures r >= 1
  {
    if k == 0 then 1 else 10 * Pow10(k - 1)
  }

  /** The unsigned decimal literals `float()` accepts here: digits, optionally
      followed by a point and more digits, with at least one digit overall. */
  predicate IsUnsignedDecimal(s: string) {
    var p := Find(s, '.');
    if p < 0 then |s| > 0 && AllDigits(s)
    else AllDigits(s[..p]) && AllDigits(s[p + 1..]) && |s| > 1
  }

  function UnsignedDecimalValue(s: string): real
    requires IsUnsignedDecimal(s)
  {
    var p := Find(s, '.');
    if p < 0 then DigitsValue(s) as real
    else DigitsValue(s[..p]) as real + DigitsValue(s[p + 1..]) as real / Pow10(|s| - p - 1) as real
  }

  /** `float(s)` for plain decimal literals with an optional sign; the value
      is the exact rational the literal denotes. */
  function ParseDecimal(s: string): (r: Result<real>)
    ensures r.Ok? <==> (if |s| > 0 && (s[0] == '-' || s[0] == '+') then IsUnsignedDecimal(s[1..]) else IsUnsignedDecimal(s))
  {
    if |s| > 0 && (s[0] == '-' || s[0] == '+') then
      if IsUnsignedDecimal(s[1..]) then
        var v := UnsignedDecimalValue(s[1..]);
        Ok(if s[0] == '-' then -v else v)
      else Err(ValueError)
    else if IsUnsignedDecimal(s) then Ok(UnsignedDecimalValue(s))
    else Err(ValueError)
  }
}
