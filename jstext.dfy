/**
 * The JavaScript string operations the extractor relies on. A JavaScript string is a
 * sequence of UTF-16 code units; here a string is a sequence of code points, and
 * `Length` gives the code-unit count that `.length` reports.
 */
module JsText {
  import opened Seqs

  /** `\s` in a JavaScript regular expression, and what `trim()` strips: WhiteSpace and LineTerminator. */
  predicate IsSpace(c: char) {
    || c == '\t' || c == '\n' || c == '\U{B}' || c == '\U{C}' || c == '\r' || c == ' '
    || c == '\U{A0}' || c == '\U{1680}' || ('\U{2000}' <= c <= '\U{200A}')
    || c == '\U{2028}' || c == '\U{2029}' || c == '\U{202F}' || c == '\U{205F}'
    || c == '\U{3000}' || c == '\U{FEFF}'
  }

  /** `[\x20-\x7E]`: printable ASCII. */
  predicate IsPrintable(c: char) {
    ' ' <= c <= '~'
  }

  /** Code units `c` takes in UTF-16. */
  function Units(c: char): nat {
    if c as int >= 0x1_0000 then 2 else 1
  }

  /** `s.length`: the number of UTF-16 code units. */
  function Length(s: string): (n: nat)
    ensures n >= |s|
    ensures (forall i :: 0 <= i < |s| ==> s[i] as int < 0x1_0000) ==> n == |s|
  {
    if s == [] then 0 else Units(s[0]) + Length(s[1..])
  }

  /** The characters of `s` that are not whitespace, in order. */
  function NonSpace(s: string): string {
    if s == [] then []
    else if IsSpace(s[0]) then NonSpace(s[1..])
    else [s[0]] + NonSpace(s[1..])
  }

  /** `NonSpace(s)` holds no whitespace, and only characters of `s`. */
  lemma {:induction false} NonSpaceChars(s: string)
    ensures forall i :: 0 <= i < |NonSpace(s)| ==> !IsSpace(NonSpace(s)[i]) && NonSpace(s)[i] in s
  {
    if s != [] {
      NonSpaceChars(s[1..]);
    }
  }

  lemma {:induction false} NonSpaceAppend(a: string, b: string)
    ensures NonSpace(a + b) == NonSpace(a) + NonSpace(b)
  {
    if a == [] {
      assert a + b == b;
    } else {
      assert (a + b)[0] == a[0];
      assert (a + b)[1..] == a[1..] + b;
      NonSpaceAppend(a[1..], b);
    }
  }

  /** `s.trimStart()`. */
  function TrimStart(s: string): (r: string)
    ensures |r| <= |s| && r == s[|s| - |r|..]
    ensures r != [] ==> !IsSpace(r[0])
    ensures forall i :: 0 <= i < |s| - |r| ==> IsSpace(s[i])
    ensures NonSpace(r) == NonSpace(s)
  {
    if s == [] || !IsSpace(s[0]) then s
    else
      var r := TrimStart(s[1..]);
      assert r == s[|s| - |r|..] by {
        assert s[1..][|s| - 1 - |r|..] == s[|s| - |r|..];
      }
      r
  }

  /** `s.trimEnd()`. */
  function TrimEnd(s: string): (r: string)
    ensures |r| <= |s| && r == s[..|r|]
    ensures r != [] ==> !IsSpace(r[|r| - 1])
    ensures forall i :: |r| <= i < |s| ==> IsSpace(s[i])
    ensures NonSpace(r) == NonSpace(s)
  {
    if s == [] || !IsSpace(s[|s| - 1]) then s
    else
      var init := s[..|s| - 1];
      var r := TrimEnd(init);
      assert s == init + [s[|s| - 1]];
      NonSpaceAppend(init, [s[|s| - 1]]);
      assert NonSpace([s[|s| - 1]]) == [];
      assert r == s[..|r|] by {
        assert init[..|r|] == s[..|r|];
      }
      r
  }

  /** `s.trim()`: neither end of the result is whitespace (`TrimSlice` says which slice of `s` it is). */
  function Trim(s: string): (r: string)
    ensures r == [] <==> forall i :: 0 <= i < |s| ==> IsSpace(s[i])
    ensures r != [] ==> !IsSpace(r[0]) && !IsSpace(r[|r| - 1])
    ensures NonSpace(r) == NonSpace(s)
  {
    var a := TrimStart(s);
    var r := TrimEnd(a);
    TrimEnds(s, a, r);
    r
  }

  /** What `Trim` promises, from what `TrimStart` and `TrimEnd` promise. */
  lemma TrimEnds(s: string, a: string, r: string)
    requires |a| <= |s| && a == s[|s| - |a|..] && (a != [] ==> !IsSpace(a[0]))
    requires forall i :: 0 <= i < |s| - |a| ==> IsSpace(s[i])
    requires |r| <= |a| && r == a[..|r|] && (r != [] ==> !IsSpace(r[|r| - 1]))
    requires forall i :: |r| <= i < |a| ==> IsSpace(a[i])
    ensures r == [] <==> forall i :: 0 <= i < |s| ==> IsSpace(s[i])
    ensures r != [] ==> !IsSpace(r[0]) && !IsSpace(r[|r| - 1])
  {
    if a != [] {
      assert a[0] == s[|s| - |a|];
      if r != [] {
        assert r[0] == a[0];
      }
    }
  }

  /** `s.trim()` is the slice `s[k..e]`, and everything outside it is whitespace. */
  lemma TrimSlice(s: string) returns (k: nat, e: nat)
    ensures k <= e <= |s| && e == k + |Trim(s)| && Trim(s) == s[k..e]
    ensures forall i :: 0 <= i < k ==> IsSpace(s[i])
    ensures forall i :: e <= i < |s| ==> IsSpace(s[i])
  {
    var a := TrimStart(s);
    var r := TrimEnd(a);
    TrimSliceInner(s, a, r);
    TrimSliceOutside(s, a, r);
    k := |s| - |a|;
    e := k + |r|;
    assert Trim(s) == r;
  }

  lemma TrimSliceInner(s: string, a: string, r: string)
    requires a == TrimStart(s) && r == TrimEnd(a)
    ensures |s| - |a| + |r| <= |s| && r == s[|s| - |a|..|s| - |a| + |r|]
  {
    SliceOfSuffix(s, a, r);
  }

  lemma TrimSliceOutside(s: string, a: string, r: string)
    requires a == TrimStart(s) && r == TrimEnd(a)
    ensures forall i :: 0 <= i < |s| - |a| ==> IsSpace(s[i])
    ensures forall i :: |s| - |a| + |r| <= i < |s| ==> IsSpace(s[i])
  {
    SpaceAfterSuffix(s, |s| - |a|, |r|);
  }

  /** A prefix `r` of a suffix `a` of `s` is a slice of `s`. */
  lemma SliceOfSuffix(s: string, a: string, r: string)
    requires |a| <= |s| && a == s[|s| - |a|..] && |r| <= |a| && r == a[..|r|]
    ensures r == s[|s| - |a|..|s| - |a| + |r|]
  {
  }

  /** Whitespace past index `m` of the suffix `s[k..]` is whitespace past index `k + m` of `s`. */
  lemma SpaceAfterSuffix(s: string, k: nat, m: nat)
    requires k <= |s|
    requires forall j :: m <= j < |s| - k ==> IsSpace(s[k..][j])
    ensures forall i :: k + m <= i < |s| ==> IsSpace(s[i])
  {
    forall i | k + m <= i < |s| ensures IsSpace(s[i]) {
      assert s[i] == s[k..][i - k];
    }
  }

  /** Trimming whitespace-only text around a piece that neither starts nor ends with whitespace gives that piece. */
  lemma TrimExact(a: string, m: string, b: string)
    requires forall i :: 0 <= i < |a| ==> IsSpace(a[i])
    requires forall i :: 0 <= i < |b| ==> IsSpace(b[i])
    requires m != [] ==> !IsSpace(m[0]) && !IsSpace(m[|m| - 1])
    ensures Trim(a + m + b) == m
  {
    if m == [] {
      TrimAllSpace(a, b);
      assert a + m + b == a + b;
    } else {
      TrimAround(a, m, b);
    }
  }

  lemma TrimAround(a: string, m: string, b: string)
    requires forall i :: 0 <= i < |a| ==> IsSpace(a[i])
    requires forall i :: 0 <= i < |b| ==> IsSpace(b[i])
    requires m != [] && !IsSpace(m[0]) && !IsSpace(m[|m| - 1])
    ensures Trim(a + m + b) == m
  {
    var s := a + m + b;
    var k, e := TrimSlice(s);
    var r := Trim(s);
    assert s[|a|] == m[0];
    SliceBounds(a, m, b, s, r, k, e);
    assert s[|a|..|a| + |m|] == m;
  }

  /**
   * If a slice `r == s[k..e]` of `s == a + m + b` has whitespace outside it, is empty only
   * when all of `s` is, and `m` has non-whitespace ends, the slice is exactly `m`'s place.
   */
  lemma SliceBounds(a: string, m: string, b: string, s: string, r: string, k: nat, e: nat)
    requires s == a + m + b
    requires forall i :: 0 <= i < |a| ==> IsSpace(a[i])
    requires forall i :: 0 <= i < |b| ==> IsSpace(b[i])
    requires m != [] && !IsSpace(m[0]) && !IsSpace(m[|m| - 1])
    requires k <= e <= |s| && e == k + |r| && r == s[k..e]
    requires r == [] <==> forall i :: 0 <= i < |s| ==> IsSpace(s[i])
    requires r != [] ==> !IsSpace(r[0]) && !IsSpace(r[|r| - 1])
    requires forall i :: 0 <= i < k ==> IsSpace(s[i])
    requires forall i :: e <= i < |s| ==> IsSpace(s[i])
    ensures k == |a| && e == |a| + |m|
  {
    var f := |a| + |m|;
    assert s[|a|] == m[0] && s[f - 1] == m[|m| - 1];
    assert r != [];
    assert s[k] == r[0] && s[e - 1] == r[|r| - 1];
    assert forall i :: 0 <= i < |a| ==> s[i] == a[i];
    assert forall i :: f <= i < |s| ==> s[i] == b[i - f];
  }

  lemma TrimAllSpace(a: string, b: string)
    requires forall i :: 0 <= i < |a| ==> IsSpace(a[i])
    requires forall i :: 0 <= i < |b| ==> IsSpace(b[i])
    ensures Trim(a + b) == []
  {
    var s := a + b;
    assert forall i :: 0 <= i < |s| ==> s[i] == if i < |a| then a[i] else b[i - |a|];
  }

  /** Positions `i` and `i + 1` of `s` both hold whitespace. */
  predicate SpacePairAt(s: string, i: nat)
    requires i + 1 < |s|
  {
    IsSpace(s[i]) && IsSpace(s[i + 1])
  }

  /** No two whitespace characters are adjacent, and every whitespace character is a plain space. */
  ghost predicate Collapsed(s: string) {
    && (forall i :: 0 <= i < |s| && IsSpace(s[i]) ==> s[i] == ' ')
    && (forall i: nat :: i + 1 < |s| ==> !SpacePairAt(s, i))
  }

  /** `Collapsed`, with no whitespace at either end either. */
  ghost predicate Tidy(s: string) {
    Collapsed(s) && (s != [] ==> !IsSpace(s[0]) && !IsSpace(s[|s| - 1]))
  }

  /** Prepending one character keeps a text collapsed when a space is not followed by whitespace. */
  lemma CollapsedCons(c: char, rest: string)
    requires Collapsed(rest)
    requires IsSpace(c) ==> c == ' ' && (rest != [] ==> !IsSpace(rest[0]))
    ensures Collapsed([c] + rest)
  {
    var s := [c] + rest;
    assert forall i :: 1 <= i < |s| ==> s[i] == rest[i - 1];
    forall i: nat | i + 1 < |s| ensures !SpacePairAt(s, i) {
      if i > 0 {
        assert !SpacePairAt(rest, i - 1);
      }
    }
  }

  /** Every contiguous piece of a collapsed text is collapsed. */
  lemma CollapsedSlice(s: string, a: nat, b: nat)
    requires Collapsed(s) && a <= b <= |s|
    ensures Collapsed(s[a..b])
  {
    var t := s[a..b];
    assert forall i :: 0 <= i < |t| ==> t[i] == s[a + i];
    forall i: nat | i + 1 < |t| ensures !SpacePairAt(t, i) {
      assert !SpacePairAt(s, a + i);
    }
  }

  /** `s.replace(/\s+/g, ' ')`: each run of whitespace becomes one space. */
  function CollapseSpaces(s: string): (r: string)
    ensures Collapsed(r)
    ensures NonSpace(r) == NonSpace(s)
    ensures r == [] <==> s == []
    ensures s != [] ==> (IsSpace(r[0]) <==> IsSpace(s[0]))
    decreases |s|
  {
    if s == [] then []
    else if IsSpace(s[0]) then
      var t := TrimStart(s[1..]);
      var rest := CollapseSpaces(t);
      assert rest != [] ==> !IsSpace(rest[0]);
      CollapsedCons(' ', rest);
      assert ([' '] + rest)[1..] == rest;
      [' '] + rest
    else
      var rest := CollapseSpaces(s[1..]);
      CollapsedCons(s[0], rest);
      assert ([s[0]] + rest)[1..] == rest;
      assert ([s[0]] + rest)[0] == s[0];
      [s[0]] + rest
  }

  /** `s.replace(/\s+/g, ' ').trim()`. */
  function Normalize(s: string): (r: string)
    ensures Tidy(r)
    ensures NonSpace(r) == NonSpace(s)
  {
    var c := CollapseSpaces(s);
    TrimCollapsed(c);
    Trim(c)
  }

  /** Trimming a collapsed text leaves a tidy one. */
  lemma TrimCollapsed(c: string)
    requires Collapsed(c)
    ensures Tidy(Trim(c))
  {
    TrimStartCollapsed(c);
    TrimEndCollapsed(TrimStart(c));
  }

  lemma TrimStartCollapsed(c: string)
    requires Collapsed(c)
    ensures Collapsed(TrimStart(c))
  {
    SuffixCollapsed(c, TrimStart(c));
  }

  lemma SuffixCollapsed(c: string, a: string)
    requires Collapsed(c) && |a| <= |c| && a == c[|c| - |a|..]
    ensures Collapsed(a)
  {
    CollapsedSlice(c, |c| - |a|, |c|);
    assert c[|c| - |a|..|c|] == a;
  }

  lemma TrimEndCollapsed(a: string)
    requires Collapsed(a)
    ensures Collapsed(TrimEnd(a))
  {
    PrefixCollapsed(a, TrimEnd(a));
  }

  lemma PrefixCollapsed(a: string, r: string)
    requires Collapsed(a) && |r| <= |a| && r == a[..|r|]
    ensures Collapsed(r)
  {
    CollapsedSlice(a, 0, |r|);
    assert a[0..|r|] == r;
  }

  /** Whitespace collapsing keeps every other character, in order, and produces only plain spaces. */
  lemma NormalizeChars(s: string)
    ensures forall i :: 0 <= i < |Normalize(s)| ==>
              Normalize(s)[i] == ' ' || (!IsSpace(Normalize(s)[i]) && Normalize(s)[i] in s)
  {
    var r := Normalize(s);
    NonSpaceChars(s);
    forall i | 0 <= i < |r| && !IsSpace(r[i]) ensures r[i] in s {
      NonSpaceIn(r, i);
    }
  }

  /** Every non-whitespace character of `s` occurs in `NonSpace(s)`. */
  lemma {:induction false} NonSpaceIn(s: string, i: nat)
    requires i < |s| && !IsSpace(s[i])
    ensures s[i] in NonSpace(s)
  {
    if i > 0 {
      NonSpaceIn(s[1..], i - 1);
    }
  }

  /** A tidy text is its own normal form. */
  lemma {:induction false} NormalizeTidy(s: string)
    requires Tidy(s)
    ensures CollapseSpaces(s) == s
    ensures Normalize(s) == s
  {
    CollapseCollapsed(s);
  }

  lemma {:induction false} CollapseCollapsed(s: string)
    requires Collapsed(s)
    ensures CollapseSpaces(s) == s
    decreases |s|
  {
    if s != [] {
      CollapsedSlice(s, 1, |s|);
      assert s[1..|s|] == s[1..];
      CollapseCollapsed(s[1..]);
      if IsSpace(s[0]) {
        assert |s| > 1 ==> !SpacePairAt(s, 0);
        assert TrimStart(s[1..]) == s[1..];
        assert CollapseSpaces(s) == [' '] + s[1..];
      } else {
        assert CollapseSpaces(s) == [s[0]] + s[1..];
      }
      assert s == [s[0]] + s[1..];
    }
  }

  // ----- Words: an independent reading of whitespace collapsing -----

  /** A piece of text without whitespace: what lies between two whitespace runs. */
  ghost predicate IsWord(w: string) {
    w != [] && forall i :: 0 <= i < |w| ==> !IsSpace(w[i])
  }

  /** The length of the longest prefix of `s` without whitespace. */
  function WordEnd(s: string): (n: nat)
    ensures n <= |s|
    ensures forall i :: 0 <= i < n ==> !IsSpace(s[i])
    ensures n < |s| ==> IsSpace(s[n])
  {
    if s == [] || IsSpace(s[0]) then 0 else 1 + WordEnd(s[1..])
  }

  /** The maximal whitespace-free pieces of `s`, left to right. */
  function Words(s: string): seq<string>
    decreases |s|
  {
    if s == [] then []
    else if IsSpace(s[0]) then Words(s[1..])
    else
      var n := WordEnd(s);
      [s[..n]] + Words(s[n..])
  }

  /** Every word is non-empty and free of whitespace. */
  lemma {:induction false} WordsAreWords(s: string)
    ensures forall i :: 0 <= i < |Words(s)| ==> IsWord(Words(s)[i])
    decreases |s|
  {
    if s != [] {
      if IsSpace(s[0]) {
        WordsAreWords(s[1..]);
      } else {
        WordsAreWords(s[WordEnd(s)..]);
      }
    }
  }

  /** `x` and `y` separated by one space, leaving out a side that is empty. */
  function Glue(x: string, y: string): string {
    if x == [] then y else if y == [] then x else x + " " + y
  }

  /** Text has no words exactly when it is all whitespace. */
  lemma {:induction false} WordsEmpty(s: string)
    ensures Words(s) == [] <==> forall i :: 0 <= i < |s| ==> IsSpace(s[i])
    decreases |s|
  {
    if s != [] && IsSpace(s[0]) {
      WordsEmpty(s[1..]);
      assert forall i :: 1 <= i < |s| ==> s[i] == s[1..][i - 1];
    }
  }

  /** Leading whitespace does not change the words. */
  lemma {:induction false} WordsTrimStart(s: string)
    ensures Words(TrimStart(s)) == Words(s)
    decreases |s|
  {
    if s != [] && IsSpace(s[0]) {
      WordsTrimStart(s[1..]);
    }
  }

  /** Joined words neither start nor end with whitespace. */
  lemma {:induction false} JoinWordsEnds(ws: seq<string>)
    requires forall i :: 0 <= i < |ws| ==> IsWord(ws[i])
    ensures var j := Join(ws, " "); j == [] <==> ws == []
    ensures var j := Join(ws, " "); j != [] ==> !IsSpace(j[0]) && !IsSpace(j[|j| - 1])
  {
    if |ws| > 1 {
      JoinWordsEnds(ws[1..]);
      var rest := Join(ws[1..], " ");
      assert (ws[0] + " " + rest)[0] == ws[0][0];
      assert (ws[0] + " " + rest)[|ws[0]| + 1 + |rest| - 1] == rest[|rest| - 1];
    } else if |ws| == 1 {
      assert IsWord(ws[0]);
    }
  }

  /** Joining with a first word that gains one more leading character. */
  lemma JoinConsChar(c: char, ws: seq<string>)
    requires ws != []
    ensures Join([[c] + ws[0]] + ws[1..], " ") == [c] + Join(ws, " ")
  {
    var ws' := [[c] + ws[0]] + ws[1..];
    assert ws'[1..] == ws[1..];
  }

  /** One space when `s` starts with whitespace, and nothing otherwise. */
  function LeadSpace(s: string): string {
    if s != [] && IsSpace(s[0]) then " " else ""
  }

  /** One space when `s` ends with whitespace that follows a word, and nothing otherwise. */
  function TailSpace(s: string): string {
    if s != [] && IsSpace(s[|s| - 1]) && Words(s) != [] then " " else ""
  }

  /** The words of `s` joined by single spaces, with `s`'s leading and trailing whitespace each kept as one space. */
  function SpacedWords(s: string): string {
    LeadSpace(s) + Join(Words(s), " ") + TailSpace(s)
  }

  /** `s.replace(/\s+/g, ' ')` replaces each maximal whitespace run by exactly one space. */
  lemma {:induction false} CollapseWords(s: string)
    ensures CollapseSpaces(s) == SpacedWords(s)
    decreases |s|
  {
    if s == [] {
    } else if IsSpace(s[0]) {
      CollapseWords(TrimStart(s[1..]));
      CollapseLeadSpace(s);
    } else {
      CollapseWords(s[1..]);
      if |s| == 1 {
        CollapseLastChar(s);
      } else if IsSpace(s[1]) {
        CollapseWordEnds(s);
      } else {
        CollapseWordGoesOn(s);
      }
    }
  }

  /** The steps `CollapseSpaces` takes at a whitespace character and at any other character. */
  lemma CollapseStep(s: string)
    requires s != []
    ensures IsSpace(s[0]) ==> CollapseSpaces(s) == " " + CollapseSpaces(TrimStart(s[1..]))
    ensures !IsSpace(s[0]) ==> CollapseSpaces(s) == [s[0]] + CollapseSpaces(s[1..])
  {
  }

  /** Text that does not start with whitespace: its spaced words have no leading space. */
  lemma SpacedWordsNoLead(s: string)
    requires s != [] && !IsSpace(s[0])
    ensures SpacedWords(s) == Join(Words(s), " ") + TailSpace(s)
  {
    assert LeadSpace(s) == "";
    EmptyFront(Join(Words(s), " "), TailSpace(s));
  }

  lemma EmptyFront(x: string, y: string)
    ensures "" + x + y == x + y
  {
  }

  /** Two texts with the same last character and words on both sides keep the same trailing space. */
  lemma TailSpaceSame(s: string, u: string)
    requires s != [] && u != [] && s[|s| - 1] == u[|u| - 1]
    requires Words(s) != [] <==> Words(u) != []
    ensures TailSpace(s) == TailSpace(u)
  {
  }

  lemma CollapseLeadSpace(s: string)
    requires s != [] && IsSpace(s[0])
    requires CollapseSpaces(TrimStart(s[1..])) == SpacedWords(TrimStart(s[1..]))
    ensures CollapseSpaces(s) == SpacedWords(s)
  {
    var t := TrimStart(s[1..]);
    CollapseStep(s);
    WordsTrimStart(s[1..]);
    assert Words(s) == Words(t);
    var j := Join(Words(t), " ");
    if t == [] {
      assert SpacedWords(t) == "";
      assert TailSpace(s) == "";
      assert SpacedWords(s) == " " + j;
    } else {
      assert t[|t| - 1] == s[|s| - 1];
      TailSpaceSame(s, t);
      SpacedWordsNoLead(t);
      assert SpacedWords(s) == " " + j + TailSpace(t);
      assert SpacedWords(t) == j + TailSpace(t);
      Regroup3(" ", j, TailSpace(t));
    }
  }

  lemma CollapseLastChar(s: string)
    requires |s| == 1 && !IsSpace(s[0])
    ensures CollapseSpaces(s) == SpacedWords(s)
  {
    assert s[1..] == [];
    assert s[..1] == s;
    assert Words(s) == [s];
  }

  lemma CollapseWordEnds(s: string)
    requires |s| > 1 && !IsSpace(s[0]) && IsSpace(s[1])
    requires CollapseSpaces(s[1..]) == SpacedWords(s[1..])
    ensures CollapseSpaces(s) == SpacedWords(s)
  {
    var u := s[1..];
    CollapseStep(s);
    WordEndAtSpace(s);
    SpacedWordsNoLead(s);
    var j := Join(Words(u), " ");
    assert u[|u| - 1] == s[|s| - 1];
    if Words(u) == [] {
      WordsEmpty(u);
      assert IsSpace(s[|s| - 1]);
      assert SpacedWords(u) == " ";
      assert TailSpace(s) == " ";
      assert Join(Words(s), " ") == [s[0]];
      assert CollapseSpaces(s) == [s[0]] + " ";
      assert SpacedWords(s) == [s[0]] + " ";
    } else {
      TailSpaceSame(s, u);
      var t := TailSpace(u);
      assert SpacedWords(u) == " " + j + t;
      assert Join(Words(s), " ") == [s[0]] + " " + j;
      assert CollapseSpaces(s) == [s[0]] + (" " + j + t);
      assert SpacedWords(s) == [s[0]] + " " + j + t;
      Regroup([s[0]], " ", j, t);
    }
  }

  /** Concatenation regrouped. */
  lemma Regroup3<T>(a: seq<T>, b: seq<T>, c: seq<T>)
    ensures a + (b + c) == a + b + c
  {
  }

  lemma Regroup(a: string, b: string, c: string, d: string)
    ensures a + (b + c + d) == a + b + c + d
  {
  }

  /** A one-character word: the words of `s` are `[s[0]]` followed by those of `s[1..]`. */
  lemma WordEndAtSpace(s: string)
    requires |s| > 1 && !IsSpace(s[0]) && IsSpace(s[1])
    ensures Words(s) == [[s[0]]] + Words(s[1..])
  {
    assert WordEnd(s) == 1;
    assert s[..1] == [s[0]];
  }

  lemma CollapseWordGoesOn(s: string)
    requires |s| > 1 && !IsSpace(s[0]) && !IsSpace(s[1])
    requires CollapseSpaces(s[1..]) == SpacedWords(s[1..])
    ensures CollapseSpaces(s) == SpacedWords(s)
  {
    var u := s[1..];
    CollapseStep(s);
    WordsCons(s);
    JoinConsChar(s[0], Words(u));
    assert u[|u| - 1] == s[|s| - 1];
    TailSpaceSame(s, u);
    SpacedWordsNoLead(s);
    SpacedWordsNoLead(u);
    var j := Join(Words(u), " ");
    assert Join(Words(s), " ") == [s[0]] + j;
    Regroup3([s[0]], j, TailSpace(u));
  }

  /** A word that goes on past its first character: the first word of `s[1..]` with that character in front. */
  lemma WordsCons(s: string)
    requires |s| > 1 && !IsSpace(s[0]) && !IsSpace(s[1])
    ensures Words(s[1..]) != []
    ensures Words(s) == [[s[0]] + Words(s[1..])[0]] + Words(s[1..])[1..]
  {
    var u := s[1..];
    var n := WordEnd(s);
    assert n == 1 + WordEnd(u);
    assert s[..n] == [s[0]] + u[..n - 1];
    assert s[n..] == u[n - 1..];
    assert Words(u) == [u[..n - 1]] + Words(u[n - 1..]);
  }

  /** `s.replace(/\s+/g, ' ').trim()` is exactly the words of `s` joined by single spaces. */
  lemma NormalizeWords(s: string)
    ensures Normalize(s) == Join(Words(s), " ")
  {
    CollapseWords(s);
    WordsAreWords(s);
    JoinWordsEnds(Words(s));
    TrimSpaced(CollapseSpaces(s), LeadSpace(s), Join(Words(s), " "), TailSpace(s));
  }

  /** Trimming at most one space from each side of a piece with non-whitespace ends gives the piece. */
  lemma TrimSpaced(c: string, lead: string, j: string, trail: string)
    requires c == lead + j + trail
    requires lead == "" || lead == " "
    requires trail == "" || trail == " "
    requires j != [] ==> !IsSpace(j[0]) && !IsSpace(j[|j| - 1])
    ensures Trim(c) == j
  {
    TrimExact(lead, j, trail);
  }

  /** A whitespace character after a word ends it: the first word of `x + [c] + y` is the first word of `x`. */
  lemma {:induction false} WordEndSplit(x: string, c: char, y: string)
    requires IsSpace(c)
    ensures WordEnd(x + [c] + y) == WordEnd(x)
  {
    var s := x + [c] + y;
    if x == [] {
      assert s[0] == c;
    } else {
      assert s[0] == x[0];
      assert s[1..] == x[1..] + [c] + y;
      WordEndSplit(x[1..], c, y);
    }
  }

  /** A whitespace character separates the words before it from the words after it. */
  lemma {:induction false} WordsSplit(x: string, c: char, y: string)
    requires IsSpace(c)
    ensures Words(x + [c] + y) == Words(x) + Words(y)
    decreases |x|
  {
    var s := x + [c] + y;
    if x == [] {
      assert s[1..] == y;
    } else {
      assert s[0] == x[0];
      if IsSpace(x[0]) {
        assert s[1..] == x[1..] + [c] + y;
        WordsSplit(x[1..], c, y);
      } else {
        WordEndSplit(x, c, y);
        var n := WordEnd(x);
        assert s[..n] == x[..n];
        assert s[n..] == x[n..] + [c] + y;
        WordsSplit(x[n..], c, y);
      }
    }
  }

  /** Normalising across a whitespace character is normalising each side and gluing them with one space. */
  lemma NormalizeSplit(x: string, c: char, y: string)
    requires IsSpace(c)
    ensures Normalize(x + [c] + y) == Glue(Normalize(x), Normalize(y))
  {
    NormalizeWords(x + [c] + y);
    NormalizeWords(x);
    NormalizeWords(y);
    WordsSplit(x, c, y);
    var wx, wy := Words(x), Words(y);
    WordsAreWords(x);
    WordsAreWords(y);
    JoinWordsEnds(wx);
    JoinWordsEnds(wy);
    if wx == [] {
      assert wx + wy == wy;
    } else if wy == [] {
      assert wx + wy == wx;
    } else {
      JoinAppend(wx, wy, " ");
    }
  }

  /** Example: the whitespace run between two words becomes exactly one space. */
  lemma NormalizeExample()
    ensures Normalize("a \t b") == "a b"
  {
    ExamplePieces();
    NormalizeTidy("a");
    NormalizeTidy("b");
    assert Normalize("") == "";
    NormalizeSplit("", ' ', "b");
    NormalizeSplit("", '\t', " b");
    NormalizeSplit("a", ' ', "\t b");
  }

  lemma ExamplePieces()
    ensures [] + [' '] + "b" == " b"
    ensures [] + ['\t'] + " b" == "\t b"
    ensures "a" + [' '] + "\t b" == "a \t b"
    ensures Glue("a", "b") == "a b"
  {
  }

  /** ASCII `toLowerCase()`: each of 'A'..'Z' becomes its lower-case letter, 32 code points on. */
  function ToLowerAscii(s: string): (r: string)
    ensures |r| == |s|
    ensures forall i :: 0 <= i < |s| && 'A' <= s[i] <= 'Z' ==> r[i] as int == s[i] as int + 32
    ensures forall i :: 0 <= i < |s| && !('A' <= s[i] <= 'Z') ==> r[i] == s[i]
    ensures forall i :: 0 <= i < |s| ==> !('A' <= r[i] <= 'Z')
  {
    seq(|s|, i requires 0 <= i < |s| => LowerAscii(s[i]))
  }

  /** `c.toLowerCase()` for an ASCII letter; every other character is kept. */
  function LowerAscii(c: char): char {
    if 'A' <= c <= 'Z' then (c as int + 32) as char else c
  }

  /** `s.split('.').pop()`: the text after the last dot, or all of `s` when it has none. */
  function AfterLastDot(s: string): (r: string)
    ensures |r| <= |s| && r == s[|s| - |r|..]
    ensures '.' !in r
    ensures |r| < |s| ==> s[|s| - |r| - 1] == '.'
  {
    if s == [] then []
    else if s[|s| - 1] == '.' then []
    else
      var r := AfterLastDot(s[..|s| - 1]);
      r + [s[|s| - 1]]
  }
}
