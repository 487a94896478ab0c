/**
 * `extractRealFileContent` (server/fileProcessor.ts): turns a stored file into plain
 * text through an ordered chain of stages, each accepted only when its output passes
 * a check, ending in a fixed diagnostic. The object-storage download, `pdfParse` and
 * the UTF-8 decoder are outside the model: their outcomes are inputs. Latin-1
 * decoding is defined here (one character per byte).
 */
module FileProcessor {
  import opened Wrappers
  import opened Seqs
  import opened JsText

  newtype byte = x: int | 0 <= x < 256

  /** A value thrown by the download: an `Error` object carries a message. */
  datatype Thrown = ErrorObject(message: string) | NonErrorValue

  /** What the file's collaborators produce for one file. */
  datatype StoredFile = StoredFile(
    bytes: seq<byte>,          // the downloaded buffer
    utf8: string,              // `buffer.toString('utf-8')`
    pdfParse: Option<string>)  // the `text` that `pdfParse(buffer)` yields, or None when it throws

  /** `getObjectEntityFile(fileUrl)` followed by `download()`. */
  datatype Download = Downloaded(file: StoredFile) | DownloadFailed(error: Thrown)

  /** `buffer.toString('latin1')`: each byte becomes the code point of the same value. */
  function Latin1(bytes: seq<byte>): (s: string)
    ensures |s| == |bytes|
    ensures forall i :: 0 <= i < |bytes| ==> s[i] as int == bytes[i] as int
  {
    seq(|bytes|, i requires 0 <= i < |bytes| => (bytes[i] as int) as char)
  }

  /** The lower-cased text after the last dot of the file name (`fileName.split('.').pop()?.toLowerCase()`). */
  function Extension(fileName: string): (ext: string)
    ensures |ext| <= |fileName| && '.' !in ext
    ensures |ext| < |fileName| ==> fileName[|fileName| - |ext| - 1] == '.'
    ensures ext == ToLowerAscii(fileName[|fileName| - |ext|..])
  {
    var suffix := AfterLastDot(fileName);
    LowerDotFree(suffix);
    ToLowerAscii(suffix)
  }

  /** Lower-casing adds no dot. */
  lemma LowerDotFree(s: string)
    requires '.' !in s
    ensures '.' !in ToLowerAscii(s)
  {
    var r := ToLowerAscii(s);
    forall i | 0 <= i < |r| ensures r[i] != '.' {
      assert s[i] in s;
    }
  }

  const TextExtensions: seq<string> := ["txt", "md", "csv", "json", "html", "xml"]

  // ----- Stage 1: pdf-parse -----

  /** The parser's text with whitespace collapsed, accepted when longer than 20 code units. */
  function PdfParseStage(ext: string, f: StoredFile): (r: Option<string>)
    ensures r.Some? <==> ext == "pdf" && f.pdfParse.Some? && Length(Normalize(f.pdfParse.value)) > 20
    ensures r.Some? ==> r.value == Normalize(f.pdfParse.value) && Tidy(r.value)
  {
    if ext == "pdf" && f.pdfParse.Some? then
      var cleaned := Normalize(f.pdfParse.value);
      if Length(cleaned) > 20 then Some(cleaned) else None
    else None
  }

  // ----- Stage 2: text formats -----

  /** The UTF-8 text of a text-format file, untrimmed, when it has a non-whitespace character. */
  function TextStage(ext: string, f: StoredFile): (r: Option<string>)
    ensures r.Some? <==> ext in TextExtensions && exists i :: 0 <= i < |f.utf8| && !IsSpace(f.utf8[i])
    ensures r.Some? ==> r.value == f.utf8
  {
    if ext in TextExtensions && f.utf8 != [] && |Trim(f.utf8)| > 0 then Some(f.utf8) else None
  }

  // ----- Re-decoding -----

  /** `[\x00-\x08\x0B\x0C\x0E-\x1F\x7F]`. */
  predicate IsControl(c: char) {
    c <= '\U{8}' || c == '\U{B}' || c == '\U{C}' || ('\U{E}' <= c <= '\U{1F}') || c == '\U{7F}'
  }

  /** `/[…control…]/.test(s.substring(0, budget))`, counting UTF-16 code units. */
  function HasControlWithin(s: string, budget: int): bool
    decreases |s|
  {
    if s == [] || budget <= 0 then false
    else IsControl(s[0]) || HasControlWithin(s[1..], budget - Units(s[0]))
  }

  /** The control-character test finds exactly the control characters that start before code unit `budget`. */
  lemma HasControlWithinSpec(s: string, budget: int)
    ensures HasControlWithin(s, budget) <==>
              exists i :: 0 <= i < |s| && IsControl(s[i]) && Length(s[..i]) < budget
  {
    if HasControlWithin(s, budget) {
      ControlWithinSound(s, budget);
    }
    if exists i :: 0 <= i < |s| && IsControl(s[i]) && Length(s[..i]) < budget {
      var i :| 0 <= i < |s| && IsControl(s[i]) && Length(s[..i]) < budget;
      ControlWithinComplete(s, budget, i);
    }
  }

  lemma {:induction false} ControlWithinSound(s: string, budget: int)
    requires HasControlWithin(s, budget)
    ensures exists i :: 0 <= i < |s| && IsControl(s[i]) && Length(s[..i]) < budget
    decreases |s|
  {
    if IsControl(s[0]) {
      assert s[..0] == [];
    } else {
      ControlWithinSound(s[1..], budget - Units(s[0]));
      var j :| 0 <= j < |s[1..]| && IsControl(s[1..][j]) && Length(s[1..][..j]) < budget - Units(s[0]);
      LengthPrefix(s, j + 1);
      assert IsControl(s[j + 1]);
    }
  }

  lemma {:induction false} ControlWithinComplete(s: string, budget: int, i: nat)
    requires i < |s| && IsControl(s[i]) && Length(s[..i]) < budget
    ensures HasControlWithin(s, budget)
    decreases i
  {
    if i == 0 {
      assert s[..0] == [];
    } else if !IsControl(s[0]) {
      LengthPrefix(s, i);
      assert s[1..][i - 1] == s[i];
      ControlWithinComplete(s[1..], budget - Units(s[0]), i - 1);
    }
  }

  /** The code units of a non-empty prefix: those of its first character, then the rest. */
  lemma LengthPrefix(s: string, i: nat)
    requires 0 < i <= |s|
    ensures Length(s[..i]) == Units(s[0]) + Length(s[1..][..i - 1])
  {
    assert s[..i][1..] == s[1..][..i - 1];
  }

  /** The decoded text looks binary: it holds U+FFFD, or a control character in its first 1000 code units. */
  predicate LooksBinary(utf8: string) {
    '\U{FFFD}' in utf8 || HasControlWithin(utf8, 1000)
  }

  /**
   * `content`: the Latin-1 reading of the bytes when the UTF-8 text holds U+FFFD or a
   * control character starting within its first 1000 code units, and the UTF-8 text
   * otherwise.
   */
  function Content(f: StoredFile): (content: string)
    ensures ('\U{FFFD}' in f.utf8 || exists i :: 0 <= i < |f.utf8| && IsControl(f.utf8[i]) && Length(f.utf8[..i]) < 1000)
            ==> content == Latin1(f.bytes)
    ensures ('\U{FFFD}' !in f.utf8 && forall i :: 0 <= i < |f.utf8| && IsControl(f.utf8[i]) ==> Length(f.utf8[..i]) >= 1000)
            ==> content == f.utf8
  {
    HasControlWithinSpec(f.utf8, 1000);
    if LooksBinary(f.utf8) then Latin1(f.bytes) else f.utf8
  }

  // ----- Stage 3: printable runs of a PDF -----

  /** `[\x20-\x7E\s]`: a character a run may contain. */
  predicate InRun(c: char) {
    IsPrintable(c) || IsSpace(c)
  }

  /** A match of the run pattern: at least two characters, printable at both ends, run characters throughout. */
  ghost predicate IsRun(m: string) {
    |m| >= 2 && IsPrintable(m[0]) && IsPrintable(m[|m| - 1]) && forall i :: 0 <= i < |m| ==> InRun(m[i])
  }

  /** The length of the longest prefix of `s` made of run characters. */
  function RunSpan(s: string): (n: nat)
    ensures n <= |s|
    ensures forall i :: 0 <= i < n ==> InRun(s[i])
    ensures n < |s| ==> !InRun(s[n])
  {
    if s == [] || !InRun(s[0]) then 0 else 1 + RunSpan(s[1..])
  }

  /** One past the last printable character of `s`, or 0 when it has none. */
  function PrintableEnd(s: string): (n: nat)
    ensures n <= |s|
    ensures n > 0 ==> IsPrintable(s[n - 1])
    ensures forall i :: n <= i < |s| ==> !IsPrintable(s[i])
  {
    if s == [] then 0
    else if IsPrintable(s[|s| - 1]) then |s|
    else PrintableEnd(s[..|s| - 1])
  }

  /** Where the match starting at the first character of `s` ends (a match needs this to be at least 2). */
  function FirstMatchEnd(s: string): (end: nat)
    ensures end <= |s|
  {
    PrintableEnd(s[..RunSpan(s)])
  }

  /**
   * The matches of `/[\x20-\x7E][\x20-\x7E\s]*[\x20-\x7E]/g`, left to right. A match
   * starts at a printable character and, the middle being greedy, ends at the last
   * printable character before the first character outside the class.
   */
  function PrintableRuns(s: string): seq<string>
    decreases |s|
  {
    if s == [] then []
    else if !IsPrintable(s[0]) then PrintableRuns(s[1..])
    else
      var end := FirstMatchEnd(s);
      if end >= 2 then [s[..end]] + PrintableRuns(s[end..])
      else PrintableRuns(s[1..])
  }

  /** Every match is a run: two characters or more, printable at both ends, run characters throughout. */
  lemma {:induction false} PrintableRunsAreRuns(s: string)
    ensures forall i :: 0 <= i < |PrintableRuns(s)| ==> IsRun(PrintableRuns(s)[i])
    decreases |s|
  {
    if s != [] {
      if !IsPrintable(s[0]) {
        PrintableRunsAreRuns(s[1..]);
      } else {
        var end := FirstMatchEnd(s);
        if end >= 2 {
          PrintableRunsAreRuns(s[end..]);
          var n := RunSpan(s);
          assert IsRun(s[..end]) by {
            assert s[..end] == s[..n][..end];
          }
        } else {
          PrintableRunsAreRuns(s[1..]);
        }
      }
    }
  }

  /** Text made only of printable ASCII is one single match. */
  lemma PrintableRunsOfPrintable(s: string)
    requires |s| >= 2 && forall i :: 0 <= i < |s| ==> IsPrintable(s[i])
    ensures PrintableRuns(s) == [s]
  {
    assert RunSpan(s) == |s| by {
      RunSpanAll(s);
    }
    assert s[..|s|] == s;
    assert FirstMatchEnd(s) == |s|;
    assert s[|s|..] == [];
  }

  lemma {:induction false} RunSpanAll(s: string)
    requires forall i :: 0 <= i < |s| ==> IsPrintable(s[i])
    ensures RunSpan(s) == |s|
  {
    if s != [] {
      RunSpanAll(s[1..]);
    }
  }

  /**
   * Text made only of run characters, whose first printable character is at `p` and last
   * at `q`, is one match from `p` to `q` when these differ, and has no match when they
   * coincide. Whitespace outside printable ASCII (a tab, a newline) stays inside the match.
   */
  lemma PrintableRunsOfRunChars(s: string, p: nat, q: nat)
    requires forall i :: 0 <= i < |s| ==> InRun(s[i])
    requires p <= q < |s| && IsPrintable(s[p]) && IsPrintable(s[q])
    requires forall i :: 0 <= i < p ==> !IsPrintable(s[i])
    requires forall i :: q < i < |s| ==> !IsPrintable(s[i])
    ensures PrintableRuns(s) == if p < q then [s[p..q + 1]] else []
  {
    SkipUnprintable(s, p);
    RunCharsFrom(s, p, q);
  }

  /** `PrintableRunsOfRunChars` for the text from the first printable character on. */
  lemma RunCharsFrom(s: string, p: nat, q: nat)
    requires forall i :: 0 <= i < |s| ==> InRun(s[i])
    requires p <= q < |s| && IsPrintable(s[p]) && IsPrintable(s[q])
    requires forall i :: q < i < |s| ==> !IsPrintable(s[i])
    ensures PrintableRuns(s[p..]) == if p < q then [s[p..q + 1]] else []
  {
    var t := s[p..];
    RunCharsSuffix(s, p, q, t);
    RunCharsFromPrintable(t, q - p);
    SuffixSlices(s, p, q, t);
  }

  /** `PrintableRunsOfRunChars` for text that starts with its first printable character. */
  lemma RunCharsFromPrintable(t: string, m: nat)
    requires RunChars(t) && UnprintableAfter(t, m)
    requires m < |t| && IsPrintable(t[0]) && IsPrintable(t[m])
    ensures PrintableRuns(t) == if 0 < m then [t[..m + 1]] else []
  {
    MatchEndOfRunChars(t, m);
    NoPrintableAfter(t, m);
    if 0 < m {
      UnfoldMatch(t, m + 1);
    } else {
      UnfoldSkip(t);
    }
  }

  /** Slicing `t == s[p..]` again, where `q` lies between `p` and the end of `s`. */
  lemma SuffixSlices(s: string, p: nat, q: nat, t: string)
    requires p <= q < |s| && t == s[p..]
    ensures t[..q - p + 1] == s[p..q + 1]
  {
  }


  /** Every character of `s` is a run character. */
  ghost predicate RunChars(s: string) {
    forall i :: 0 <= i < |s| ==> InRun(s[i])
  }

  /** No character of `s` after index `k` is printable ASCII. */
  ghost predicate UnprintableAfter(s: string, k: nat) {
    forall i :: k < i < |s| ==> !IsPrintable(s[i])
  }

  /** The suffix from `p` keeps the run characters and the last printable character, shifted by `p`. */
  lemma RunCharsSuffix(s: string, p: nat, q: nat, t: string)
    requires forall i :: 0 <= i < |s| ==> InRun(s[i])
    requires p <= q < |s| && IsPrintable(s[p]) && IsPrintable(s[q])
    requires forall i :: q < i < |s| ==> !IsPrintable(s[i])
    requires t == s[p..]
    ensures RunChars(t) && UnprintableAfter(t, q - p)
    ensures q - p < |t| && IsPrintable(t[0]) && IsPrintable(t[q - p])
  {
    assert forall i :: 0 <= i < |t| ==> t[i] == s[p + i];
  }

  /** In text of run characters the first match, if any, ends after the last printable character. */
  lemma MatchEndOfRunChars(t: string, m: nat)
    requires forall i :: 0 <= i < |t| ==> InRun(t[i])
    requires m < |t| && IsPrintable(t[m])
    requires forall i :: m < i < |t| ==> !IsPrintable(t[i])
    ensures FirstMatchEnd(t) == m + 1
  {
    assert RunSpan(t) == |t|;
    assert t[..|t|] == t;
  }

  /** Nothing after the last printable character forms a match. */
  lemma NoPrintableAfter(s: string, q: nat)
    requires q < |s|
    requires forall i :: q < i < |s| ==> !IsPrintable(s[i])
    ensures PrintableRuns(s[q + 1..]) == []
  {
    var u := s[q + 1..];
    assert forall i :: 0 <= i < |u| ==> u[i] == s[q + 1 + i];
    NoPrintableRuns(u);
  }

  /** Text without a printable ASCII character has no match. */
  lemma NoPrintableRuns(s: string)
    requires forall i :: 0 <= i < |s| ==> !IsPrintable(s[i])
    ensures PrintableRuns(s) == []
  {
    SkipUnprintable(s, |s|);
    assert s[|s|..] == [];
  }

  /** No match starts at a character that is not printable ASCII. */
  lemma {:induction false} SkipUnprintable(s: string, p: nat)
    requires p <= |s|
    requires forall i :: 0 <= i < p ==> !IsPrintable(s[i])
    ensures PrintableRuns(s) == PrintableRuns(s[p..])
    decreases p
  {
    if p == 0 {
      assert s[0..] == s;
    } else {
      UnfoldSkip(s);
      SkipUnprintable(s[1..], p - 1);
      assert s[1..][p - 1..] == s[p..];
    }
  }

  /** A character outside the run class separates the matches before it from those after it. */
  lemma {:induction false} PrintableRunsSplit(a: string, c: char, b: string)
    requires !InRun(c)
    ensures PrintableRuns(a + [c] + b) == PrintableRuns(a) + PrintableRuns(b)
    decreases |a|
  {
    if a == [] {
      var s := a + [c] + b;
      assert s[0] == c && s[1..] == b;
    } else {
      FirstMatchEndSplit(a, c, b);
      var end := FirstMatchEnd(a);
      if IsPrintable(a[0]) && end >= 2 {
        PrintableRunsSplit(a[end..], c, b);
        SplitAfterMatch(a, c, b, end);
      } else {
        PrintableRunsSplit(a[1..], c, b);
        SplitAfterSkip(a, c, b);
      }
    }
  }

  /** The step of `PrintableRunsSplit` where `a` starts with a match ending at `end`. */
  lemma SplitAfterMatch(a: string, c: char, b: string, end: nat)
    requires a != [] && IsPrintable(a[0]) && 2 <= end <= |a|
    requires end == FirstMatchEnd(a) && end == FirstMatchEnd(a + [c] + b)
    requires PrintableRuns(a[end..] + [c] + b) == PrintableRuns(a[end..]) + PrintableRuns(b)
    ensures PrintableRuns(a + [c] + b) == PrintableRuns(a) + PrintableRuns(b)
  {
    var s := a + [c] + b;
    SplitSlices(a, c, b, s, end);
    UnfoldMatch(s, end);
    UnfoldMatch(a, end);
    Regroup3([a[..end]], PrintableRuns(a[end..]), PrintableRuns(b));
  }

  /** The step of `PrintableRunsSplit` where no match starts at the first character of `a`. */
  lemma SplitAfterSkip(a: string, c: char, b: string)
    requires a != [] && (!IsPrintable(a[0]) || FirstMatchEnd(a) < 2)
    requires FirstMatchEnd(a) == FirstMatchEnd(a + [c] + b)
    requires PrintableRuns(a[1..] + [c] + b) == PrintableRuns(a[1..]) + PrintableRuns(b)
    ensures PrintableRuns(a + [c] + b) == PrintableRuns(a) + PrintableRuns(b)
  {
    var s := a + [c] + b;
    SplitSlices(a, c, b, s, 1);
    UnfoldSkip(s);
    UnfoldSkip(a);
  }

  /** Cutting `a + [c] + b` inside `a`. */
  lemma SplitSlices(a: string, c: char, b: string, s: string, k: nat)
    requires s == a + [c] + b && 1 <= k <= |a|
    ensures s[0] == a[0] && s[..k] == a[..k] && s[k..] == a[k..] + [c] + b
  {
  }

  /** One step of `PrintableRuns` when a match starts at the first character. */
  lemma UnfoldMatch(s: string, end: nat)
    requires s != [] && IsPrintable(s[0]) && 2 <= end && end == FirstMatchEnd(s)
    ensures PrintableRuns(s) == [s[..end]] + PrintableRuns(s[end..])
  {
  }

  /** One step of `PrintableRuns` when no match starts at the first character. */
  lemma UnfoldSkip(s: string)
    requires s != [] && (!IsPrintable(s[0]) || FirstMatchEnd(s) < 2)
    ensures PrintableRuns(s) == PrintableRuns(s[1..])
  {
  }

  /** Appending a character outside the run class and more text does not move the end of the first match. */
  lemma FirstMatchEndSplit(a: string, c: char, b: string)
    requires !InRun(c)
    ensures FirstMatchEnd(a + [c] + b) == FirstMatchEnd(a)
  {
    var s := a + [c] + b;
    RunSpanSplit(a, c, b);
    var n := RunSpan(a);
    assert s[..n] == a[..n];
  }

  lemma {:induction false} RunSpanSplit(a: string, c: char, b: string)
    requires !InRun(c)
    ensures RunSpan(a + [c] + b) == RunSpan(a)
  {
    var s := a + [c] + b;
    if a == [] {
      assert s[0] == c;
    } else {
      assert s[0] == a[0];
      assert s[1..] == a[1..] + [c] + b;
      RunSpanSplit(a[1..], c, b);
    }
  }

  /** Every character of the joined runs is a run character. */
  lemma {:induction false} JoinRunChars(parts: seq<string>)
    requires forall i :: 0 <= i < |parts| ==> forall j :: 0 <= j < |parts[i]| ==> InRun(parts[i][j])
    ensures forall j :: 0 <= j < |Join(parts, " ")| ==> InRun(Join(parts, " ")[j])
  {
    if |parts| > 1 {
      JoinRunChars(parts[1..]);
      var rest := Join(parts[1..], " ");
      var r := parts[0] + " " + rest;
      assert forall j :: 0 <= j < |r| ==>
        r[j] == if j < |parts[0]| then parts[0][j] else if j == |parts[0]| then ' ' else rest[j - |parts[0]| - 1];
    }
  }

  /** Collapsing text made of run characters yields printable ASCII only. */
  lemma NormalizePrintable(s: string)
    requires forall i :: 0 <= i < |s| ==> InRun(s[i])
    ensures forall i :: 0 <= i < |Normalize(s)| ==> IsPrintable(Normalize(s)[i])
  {
    NormalizeChars(s);
  }

  /** Printable ASCII takes one code unit per character. */
  lemma PrintableLength(s: string)
    requires forall i :: 0 <= i < |s| ==> IsPrintable(s[i])
    ensures Length(s) == |s|
  {
    assert forall i :: 0 <= i < |s| ==> s[i] as int < 0x1_0000;
  }

  /** A match is kept when it is longer than 3 (`match.length > 3`; matches are ASCII and whitespace, one code unit each). */
  function LongRun(m: string): bool {
    Length(m) > 3
  }

  /** The kept matches joined by spaces, collapsed and trimmed. */
  function RunText(runs: seq<string>): (t: string)
    requires forall i :: 0 <= i < |runs| ==> IsRun(runs[i])
    ensures Tidy(t)
    ensures forall i :: 0 <= i < |t| ==> IsPrintable(t[i])
  {
    var kept := Filter(runs, LongRun);
    forall i | 0 <= i < |kept| ensures forall j :: 0 <= j < |kept[i]| ==> InRun(kept[i][j]) {
      var k :| 0 <= k < |runs| && runs[k] == kept[i];
      assert IsRun(runs[k]);
    }
    JoinRunChars(kept);
    NormalizePrintable(Join(kept, " "));
    Normalize(Join(kept, " "))
  }

  /** The text of the printable runs of `content`: tidy printable ASCII. */
  function RunsText(content: string): (t: string)
    ensures Tidy(t)
    ensures forall i :: 0 <= i < |t| ==> IsPrintable(t[i])
  {
    PrintableRunsAreRuns(content);
    RunText(PrintableRuns(content))
  }

  /** A run takes one code unit per character, so `match.length` is its number of characters. */
  lemma RunLength(m: string)
    requires forall i :: 0 <= i < |m| ==> InRun(m[i])
    ensures Length(m) == |m|
  {
    assert forall i :: 0 <= i < |m| ==> m[i] as int < 0x1_0000;
  }

  /** A single match contributes its normalised text when it is longer than 3 characters, and nothing otherwise. */
  lemma RunTextSingle(m: string)
    requires IsRun(m)
    ensures RunText([m]) == if |m| > 3 then Normalize(m) else ""
  {
    RunLength(m);
    assert [m][1..] == [];
    if |m| > 3 {
      assert Filter([m], LongRun) == [m];
    } else {
      assert Filter([m], LongRun) == [];
      assert Normalize("") == "";
    }
  }

  /** The text of two lists of matches is their two texts separated by one space (an empty side adds nothing). */
  lemma RunTextAppend(a: seq<string>, b: seq<string>)
    requires forall i :: 0 <= i < |a| ==> IsRun(a[i])
    requires forall i :: 0 <= i < |b| ==> IsRun(b[i])
    ensures forall i :: 0 <= i < |a + b| ==> IsRun((a + b)[i])
    ensures RunText(a + b) == Glue(RunText(a), RunText(b))
  {
    assert forall i :: 0 <= i < |a + b| ==> (a + b)[i] == if i < |a| then a[i] else b[i - |a|];
    FilterAppend(a, b, LongRun);
    var fa, fb := Filter(a, LongRun), Filter(b, LongRun);
    assert Normalize("") == "";
    if fa == [] {
      assert fa + fb == fb;
    } else if fb == [] {
      assert fa + fb == fa;
    } else {
      JoinAppend(fa, fb, " ");
      NormalizeSplit(Join(fa, " "), ' ', Join(fb, " "));
    }
  }

  /** A character outside the run class splits the run text: each side's text, glued with one space. */
  lemma RunsTextSplit(a: string, c: char, b: string)
    requires !InRun(c)
    ensures RunsText(a + [c] + b) == Glue(RunsText(a), RunsText(b))
  {
    PrintableRunsSplit(a, c, b);
    PrintableRunsAreRuns(a);
    PrintableRunsAreRuns(b);
    RunTextAppend(PrintableRuns(a), PrintableRuns(b));
  }

  /** Printable ASCII text gives its own normalised text when longer than 3 characters, and nothing otherwise. */
  lemma RunsTextOfPrintable(s: string)
    requires |s| >= 2 && forall i :: 0 <= i < |s| ==> IsPrintable(s[i])
    ensures RunsText(s) == if |s| > 3 then Normalize(s) else ""
  {
    PrintableRunsOfPrintable(s);
    PrintableRunsAreRuns(s);
    RunTextSingle(s);
  }

  /** For a PDF, the text of its printable runs, accepted when longer than 20. */
  function PdfRunStage(ext: string, content: string): (r: Option<string>)
    ensures r.Some? <==> ext == "pdf" && |RunsText(content)| > 20
    ensures r.Some? ==> r.value == RunsText(content)
  {
    if ext == "pdf" then
      var runs := PrintableRuns(content);
      if |runs| > 0 then
        var t := RunsText(content);
        PrintableLength(t);
        if Length(t) > 20 then Some(t) else None
      else
        assert RunsText(content) == [] by {
          assert Filter(runs, LongRun) == [];
        }
        None
    else None
  }

  // ----- Stage 4: readable characters -----

  /** `[\x20-\x7E\n\r\t]`. */
  predicate IsReadable(c: char) {
    IsPrintable(c) || c == '\n' || c == '\r' || c == '\t'
  }

  /** `s.replace(/[^\x20-\x7E\n\r\t]/g, '')`. */
  function KeepReadable(s: string): (r: string)
    ensures r == Filter(s, IsReadable)
    ensures forall i :: 0 <= i < |r| ==> IsReadable(r[i])
  {
    if s == [] then []
    else if IsReadable(s[0]) then [s[0]] + KeepReadable(s[1..])
    else KeepReadable(s[1..])
  }

  /** The readable characters with whitespace collapsed, accepted when longer than 20. */
  function ReadableStage(content: string): (r: Option<string>)
    ensures r.Some? <==> |Normalize(KeepReadable(content))| > 20
    ensures r.Some? ==> r.value == Normalize(KeepReadable(content))
    ensures r.Some? ==> Tidy(r.value) && |r.value| > 20
    ensures r.Some? ==> forall i :: 0 <= i < |r.value| ==> IsPrintable(r.value[i])
  {
    var kept := KeepReadable(content);
    NormalizePrintable(kept);
    var t := Normalize(kept);
    PrintableLength(t);
    if Length(t) > 20 then Some(t) else None
  }

  // ----- The chain -----

  function Diagnostic(fileName: string): string {
    "Content extracted from " + fileName + ". The file may require specialized processing for full text extraction."
  }

  function FailureMessage(fileName: string, e: Thrown): string {
    "Failed to extract content from " + fileName + ": " +
    match e
    case ErrorObject(m) => m
    case NonErrorValue => "Unknown error"
  }

  /** The text extracted from a file; never throws: every path ends in some string. */
  function ExtractRealFileContent(fileName: string, download: Download): (r: string)
    ensures r != []
  {
    match download
    case DownloadFailed(e) => FailureMessage(fileName, e)
    case Downloaded(f) =>
      var ext := Extension(fileName);
      var pdf := PdfParseStage(ext, f);
      if pdf.Some? then pdf.value
      else
        var text := TextStage(ext, f);
        if text.Some? then text.value
        else
          var content := Content(f);
          var runs := PdfRunStage(ext, content);
          if runs.Some? then runs.value
          else
            var readable := ReadableStage(content);
            if readable.Some? then readable.value
            else Diagnostic(fileName)
  }
}

/** Properties of the extraction chain as a whole. */
module FileProcessorProperties {
  import opened Wrappers
  import opened JsText
  import opened FileProcessor

  /** A name without a dot is its own extension, lower-cased. */
  lemma ExtensionWithoutDot(fileName: string)
    requires '.' !in fileName
    ensures Extension(fileName) == ToLowerAscii(fileName)
  {
    assert forall i :: 0 <= i < |fileName| ==> fileName[i] != '.';
    assert AfterLastDot(fileName) == fileName[0..];
  }

  /** Any failure to locate or download the file yields the failure message naming it. */
  lemma DownloadFailureMessage(fileName: string, e: Thrown)
    ensures ExtractRealFileContent(fileName, DownloadFailed(e)) ==
              "Failed to extract content from " + fileName + ": " +
              (if e.ErrorObject? then e.message else "Unknown error")
  {
  }

  /** A text-format file with some non-whitespace UTF-8 content is returned verbatim, untrimmed. */
  lemma TextFileVerbatim(fileName: string, f: StoredFile)
    requires Extension(fileName) in TextExtensions
    requires exists i :: 0 <= i < |f.utf8| && !IsSpace(f.utf8[i])
    ensures ExtractRealFileContent(fileName, Downloaded(f)) == f.utf8
  {
    var ext := Extension(fileName);
    assert ext != "pdf";
    assert PdfParseStage(ext, f).None?;
    assert TextStage(ext, f) == Some(f.utf8);
  }

  /** A PDF whose parsed text is long enough yields that text with whitespace collapsed and trimmed. */
  lemma PdfParsedText(fileName: string, f: StoredFile)
    requires Extension(fileName) == "pdf" && f.pdfParse.Some?
    requires Length(Normalize(f.pdfParse.value)) > 20
    ensures ExtractRealFileContent(fileName, Downloaded(f)) == Normalize(f.pdfParse.value)
  {
  }

  /**
   * Whatever stage produced it, the result of a successful download is the untouched
   * UTF-8 text of a text-format file, tidy text longer than 20 code units, tidy
   * printable ASCII longer than 20 characters, or the diagnostic naming the file.
   */
  lemma OutputShape(fileName: string, f: StoredFile)
    ensures var r := ExtractRealFileContent(fileName, Downloaded(f));
      || (Extension(fileName) in TextExtensions && r == f.utf8)
      || (Extension(fileName) == "pdf" && Tidy(r) && Length(r) > 20)
      || (Tidy(r) && |r| > 20 && forall i :: 0 <= i < |r| ==> IsPrintable(r[i]))
      || r == Diagnostic(fileName)
  {
    var ext := Extension(fileName);
    var content := Content(f);
    if PdfParseStage(ext, f).Some? {
    } else if TextStage(ext, f).Some? {
    } else if PdfRunStage(ext, content).Some? {
      assert |RunsText(content)| > 20;
    } else if ReadableStage(content).Some? {
    } else {
      NothingAccepted(fileName, f);
    }
  }

  /**
   * When neither pdf-parse nor the text formats accept, the printable runs of a PDF come
   * first, then the readable characters, then the diagnostic.
   */
  lemma LaterStagesInOrder(fileName: string, f: StoredFile)
    requires PdfParseStage(Extension(fileName), f).None?
    requires TextStage(Extension(fileName), f).None?
    ensures var ext, content := Extension(fileName), Content(f);
      var r := ExtractRealFileContent(fileName, Downloaded(f));
      && (PdfRunStage(ext, content).Some? ==> r == PdfRunStage(ext, content).value)
      && (PdfRunStage(ext, content).None? && ReadableStage(content).Some? ==> r == ReadableStage(content).value)
      && (PdfRunStage(ext, content).None? && ReadableStage(content).None? ==> r == Diagnostic(fileName))
  {
  }

  /** Two short words on separate lines form one match, so the line break does not drop them. */
  lemma ShortLinesKept()
    ensures PrintableRuns("ab\ncd") == ["ab\ncd"]
  {
    var s := "ab\ncd";
    PrintableRunsOfRunChars(s, 0, 4);
    assert s[0..5] == s;
  }

  /** The run text of "ab\ncd" is "ab cd": both short words survive, one space apart. */
  lemma ShortLinesText()
    ensures RunsText("ab\ncd") == "ab cd"
  {
    var s := "ab\ncd";
    ShortLinesKept();
    RunsTextOfOneMatch(s);
    ShortLinesNormalized();
  }

  /** A text that is its own single match gives its normalised text when longer than 3. */
  lemma RunsTextOfOneMatch(s: string)
    requires PrintableRuns(s) == [s] && |s| > 3
    ensures RunsText(s) == Normalize(s)
  {
    PrintableRunsAreRuns(s);
    assert IsRun(PrintableRuns(s)[0]);
    RunTextSingle(s);
  }

  lemma ShortLinesNormalized()
    ensures Normalize("ab\ncd") == "ab cd"
  {
    ShortLinesPieces();
    NormalizeTidy("ab");
    NormalizeTidy("cd");
    NormalizeSplit("ab", '\n', "cd");
  }

  lemma ShortLinesPieces()
    ensures "ab" + ['\n'] + "cd" == "ab\ncd"
    ensures Glue("ab", "cd") == "ab cd"
  {
  }

  /** When no stage accepts, the result is exactly the diagnostic, whatever the extension. */
  lemma NothingAccepted(fileName: string, f: StoredFile)
    requires PdfParseStage(Extension(fileName), f).None?
    requires TextStage(Extension(fileName), f).None?
    requires PdfRunStage(Extension(fileName), Content(f)).None?
    requires ReadableStage(Content(f)).None?
    ensures ExtractRealFileContent(fileName, Downloaded(f)) ==
              "Content extracted from " + fileName +
              ". The file may require specialized processing for full text extraction."
  {
  }

  /** "report.PDF" has the extension "pdf": the suffix is lower-cased before it is compared. */
  lemma UpperCaseExtension()
    ensures Extension("report.PDF") == "pdf"
  {
    var name := "report.PDF";
    assert AfterLastDot(name) == "PDF";
    LowerPdf();
  }

  lemma LowerPdf()
    ensures ToLowerAscii("PDF") == "pdf"
  {
    var r := ToLowerAscii("PDF");
    assert r[0] == 'p' && r[1] == 'd' && r[2] == 'f';
  }

  /** "a.txt" holding "Hello world" extracts to exactly "Hello world". */
  lemma HelloWorldText(bytes: seq<byte>, pdf: Option<string>)
    ensures ExtractRealFileContent("a.txt", Downloaded(StoredFile(bytes, "Hello world", pdf))) == "Hello world"
  {
    assert AfterLastDot("a.txt") == "txt";
    assert Extension("a.txt") == "txt";
    assert !IsSpace("Hello world"[0]);
  }

  /** "a.bin" whose bytes are all control characters extracts to the diagnostic naming it. */
  lemma BinaryWithoutText()
    ensures ExtractRealFileContent("a.bin", Downloaded(StoredFile([0, 1, 2], "\U{0}\U{1}\U{2}", None))) ==
              Diagnostic("a.bin")
  {
    var f := StoredFile([0, 1, 2], "\U{0}\U{1}\U{2}", None);
    assert AfterLastDot("a.bin") == "bin";
    var ext := Extension("a.bin");
    assert ext == "bin";
    assert PdfParseStage(ext, f).None?;
    assert ext !in TextExtensions by {
      assert forall i :: 0 <= i < |TextExtensions| ==> TextExtensions[i][0] != 'b';
    }
    assert TextStage(ext, f).None?;
    assert IsControl(f.utf8[0]);
    assert LooksBinary(f.utf8);
    assert Latin1(f.bytes) == f.utf8;
    var content := Content(f);
    assert content == f.utf8;
    assert PdfRunStage(ext, content).None?;
    assert KeepReadable(content[2..]) == [];
    assert KeepReadable(content[1..]) == [];
    assert KeepReadable(content) == [];
    assert Normalize([]) == [];
    assert ReadableStage(content).None?;
  }
}
