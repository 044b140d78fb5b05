/**
 The trailing-whitespace normaliser of `proofer/text_utils.py` (`normalize_line_endings`):
 split the text into lines as `str.splitlines` does, right-strip each line, join them with
 `\n`, and append a final `\n` only when asked to and when the text ended in `\n`.
 */
module Normalizer {
  import opened CharModel
  import opened Seqs

  // ---------------------------------------------------------------------------
  // str.splitlines, str.rstrip and "\n".join

  /** Length of the longest prefix of `s` without a line boundary. */
  function LineLen(s: string): (n: nat)
    ensures n <= |s|
    ensures forall i :: 0 <= i < n ==> !IsLineBreak(s[i])
    ensures n < |s| ==> IsLineBreak(s[n])
  {
    if s == [] || IsLineBreak(s[0]) then 0 else 1 + LineLen(s[1..])
  }

  /** Width of the line boundary at the start of `s`: `\r\n` is one boundary of two characters. */
  function BreakLen(s: string): (k: nat)
    requires s != [] && IsLineBreak(s[0])
    ensures 1 <= k <= |s|
  {
    if s[0] == '\r' && |s| > 1 && s[1] == '\n' then 2 else 1
  }

  /** `s.splitlines()`: the lines of `s` without their boundaries; a final boundary opens no line. */
  function SplitLines(s: string): (lines: seq<string>)
    decreases |s|
  {
    if s == [] then []
    else
      var n := LineLen(s);
      if n == |s| then [s] else [s[..n]] + SplitLines(s[n + BreakLen(s[n..])..])
  }

  /** No line that `splitlines` returns holds a line boundary. */
  lemma {:induction false} SplitLinesHaveNoBreaks(s: string)
    ensures forall k :: 0 <= k < |SplitLines(s)| ==> NoLineBreaks(SplitLines(s)[k])
    decreases |s|
  {
    if s != [] {
      var n := LineLen(s);
      if n < |s| {
        SplitLinesHaveNoBreaks(s[n + BreakLen(s[n..])..]);
      }
    }
  }

  /** `s.splitlines(keepends=True)`: the same lines, each with its boundary. */
  function SplitLinesKeepEnds(s: string): seq<string>
    decreases |s|
  {
    if s == [] then []
    else
      var n := LineLen(s);
      if n == |s| then [s] else [s[..n + BreakLen(s[n..])]] + SplitLinesKeepEnds(s[n + BreakLen(s[n..])..])
  }

  /** `"".join(parts)`. */
  function Concat(parts: seq<string>): string {
    if parts == [] then "" else parts[0] + Concat(parts[1..])
  }

  /** Joining the lines that `splitlines(keepends=True)` returns rebuilds the text. */
  lemma {:induction false} ConcatSplitLinesKeepEnds(s: string)
    ensures Concat(SplitLinesKeepEnds(s)) == s
    decreases |s|
  {
    if s != [] {
      var n := LineLen(s);
      if n < |s| {
        var m := n + BreakLen(s[n..]);
        ConcatSplitLinesKeepEnds(s[m..]);
        assert s == s[..m] + s[m..];
      }
    }
  }

  /** `line.rstrip()`: drop trailing whitespace. */
  function RStrip(line: string): (r: string)
    ensures |r| <= |line| && r == line[..|r|]
    ensures forall i :: |r| <= i < |line| ==> IsSpace(line[i])
    ensures r == [] || !IsSpace(r[|r| - 1])
    decreases |line|
  {
    if line != [] && IsSpace(line[|line| - 1]) then RStrip(line[..|line| - 1]) else line
  }

  /** `"\n".join(lines)`. */
  function JoinLines(lines: seq<string>): string
    decreases |lines|
  {
    if lines == [] then ""
    else if |lines| == 1 then lines[0]
    else lines[0] + "\n" + JoinLines(lines[1..])
  }

  predicate EndsWithNewline(s: string) {
    |s| > 0 && s[|s| - 1] == '\n'
  }

  /** A line with no trailing whitespace. */
  predicate Clean(line: string) {
    line == [] || !IsSpace(line[|line| - 1])
  }

  /** The right-stripped lines of `text`. */
  function StrippedLines(text: string): (c: seq<string>)
    ensures |c| == |SplitLines(text)|
    ensures forall k :: 0 <= k < |c| ==> c[k] == RStrip(SplitLines(text)[k])
  {
    var lines := SplitLines(text);
    seq(|lines|, k requires 0 <= k < |lines| => RStrip(lines[k]))
  }

  /** What `normalize_line_endings(text, preserveFinalNewline)` returns. */
  function Normalized(text: string, preserveFinalNewline: bool): string {
    JoinLines(StrippedLines(text)) + (if preserveFinalNewline && EndsWithNewline(text) then "\n" else "")
  }

  /** The loop of `normalize_line_endings`, appending each right-stripped line before the join. */
  method NormalizeLineEndings(text: string, preserveFinalNewline: bool) returns (r: string)
    ensures r == Normalized(text, preserveFinalNewline)
    ensures text == "" ==> r == ""
    ensures preserveFinalNewline && EndsWithNewline(text) ==> r == JoinLines(StrippedLines(text)) + "\n"
    ensures !(preserveFinalNewline && EndsWithNewline(text)) ==> r == JoinLines(StrippedLines(text))
  {
    var lines := SplitLines(text);
    var correctedLines: seq<string> := [];
    for i := 0 to |lines|
      invariant |correctedLines| == i
      invariant forall k :: 0 <= k < i ==> correctedLines[k] == RStrip(lines[k])
    {
      correctedLines := correctedLines + [RStrip(lines[i])];
    }
    assert correctedLines == StrippedLines(text);
    if preserveFinalNewline && EndsWithNewline(text) {
      r := JoinLines(correctedLines) + "\n";
    } else {
      r := JoinLines(correctedLines);
    }
  }

  // ---------------------------------------------------------------------------
  // Splitting a joined text gives back its lines

  lemma {:induction false} LineLenOfLine(x: string, rest: string)
    requires NoLineBreaks(x)
    requires rest == [] || IsLineBreak(rest[0])
    ensures LineLen(x + rest) == |x|
    decreases |x|
  {
    if x != [] {
      DropAppend(x, rest);
      LineLenOfLine(x[1..], rest);
    }
  }

  lemma SplitLinesCons(x: string, rest: string)
    requires NoLineBreaks(x)
    ensures SplitLines(x + "\n" + rest) == [x] + SplitLines(rest)
  {
    var s := x + "\n" + rest;
    var n := |x|;
    assert s[n..] == "\n" + rest;
    LineLenOfLine(x, s[n..]);
    assert s == x + s[n..];
    assert LineLen(s) == n;
    assert BreakLen(s[n..]) == 1;
    assert s[..n] == x;
    assert s[n + 1..] == rest;
  }

  lemma SplitLinesOfLine(x: string)
    requires NoLineBreaks(x)
    ensures SplitLines(x) == if x == [] then [] else [x]
  {
    if x != [] {
      LineLenOfLine(x, []);
      assert x + [] == x;
    }
  }

  /** `splitlines` undoes a `\n`-join followed by a final `\n`. */
  lemma {:induction false} SplitJoinNewline(c: seq<string>)
    requires |c| > 0
    requires forall k :: 0 <= k < |c| ==> NoLineBreaks(c[k])
    ensures SplitLines(JoinLines(c) + "\n") == c
    decreases |c|
  {
    var x := c[0];
    assert NoLineBreaks(x);
    if |c| == 1 {
      assert JoinLines(c) == x;
      SplitLinesCons(x, "");
      assert x + "\n" + "" == x + "\n";
      assert SplitLines("") == [];
    } else {
      var tail := c[1..];
      assert forall k :: 0 <= k < |tail| ==> NoLineBreaks(tail[k]);
      SplitJoinNewline(tail);
      SplitLinesCons(x, JoinLines(tail) + "\n");
      assert JoinLines(c) == x + "\n" + JoinLines(tail);
      assert JoinLines(c) + "\n" == x + "\n" + (JoinLines(tail) + "\n");
      assert c == [x] + tail;
    }
  }

  /** `splitlines` drops a last empty line after a join, and only that. */
  function DropLastEmpty(c: seq<string>): seq<string> {
    if c != [] && c[|c| - 1] == [] then c[..|c| - 1] else c
  }

  /** Without the final `\n`, a last empty line is lost in the round trip. */
  lemma {:induction false} SplitJoin(c: seq<string>)
    requires forall k :: 0 <= k < |c| ==> NoLineBreaks(c[k])
    ensures SplitLines(JoinLines(c)) == DropLastEmpty(c)
    decreases |c|
  {
    if |c| == 1 {
      assert JoinLines(c) == c[0];
      SplitLinesOfLine(c[0]);
      assert c[..0] == [];
    } else if |c| > 1 {
      var x, tail := c[0], c[1..];
      assert NoLineBreaks(x);
      assert forall k :: 0 <= k < |tail| ==> NoLineBreaks(tail[k]);
      SplitJoin(tail);
      SplitJoinCons(x, tail);
      assert c == [x] + tail;
    }
  }

  lemma SplitJoinCons(x: string, tail: seq<string>)
    requires NoLineBreaks(x) && |tail| > 0
    requires SplitLines(JoinLines(tail)) == DropLastEmpty(tail)
    ensures SplitLines(JoinLines([x] + tail)) == DropLastEmpty([x] + tail)
  {
    var c := [x] + tail;
    assert c[1..] == tail;
    SplitLinesCons(x, JoinLines(tail));
    assert JoinLines(c) == x + "\n" + JoinLines(tail);
    ConsInit(x, tail);
  }

  lemma ConsInit<T>(x: T, t: seq<T>)
    requires |t| > 0
    ensures ([x] + t)[..|t|] == [x] + t[..|t| - 1]
  {
  }

  lemma {:induction false} JoinLinesSnoc(c: seq<string>, x: string)
    requires |c| > 0
    ensures JoinLines(c + [x]) == JoinLines(c) + "\n" + x
    decreases |c|
  {
    if |c| > 1 {
      DropAppend(c, [x]);
      JoinLinesSnoc(c[1..], x);
    }
  }

  lemma {:induction false} JoinLinesLast(c: seq<string>)
    requires |c| > 0
    requires forall k :: 0 <= k < |c| ==> NoLineBreaks(c[k])
    ensures EndsWithNewline(JoinLines(c)) <==> |c| > 1 && c[|c| - 1] == []
    ensures |c| > 1 && c[|c| - 1] == [] ==> JoinLines(c) == JoinLines(c[..|c| - 1]) + "\n"
  {
    var x := c[|c| - 1];
    if |c| > 1 {
      var init := c[..|c| - 1];
      assert c == init + [x];
      JoinLinesSnoc(init, x);
      if x != [] {
        assert JoinLines(c)[|JoinLines(c)| - 1] == x[|x| - 1];
      }
    } else if x != [] {
      assert JoinLines(c)[|JoinLines(c)| - 1] == x[|x| - 1];
    }
  }

  // ---------------------------------------------------------------------------
  // Properties of normalize_line_endings

  lemma StrippedAreCleanLines(text: string)
    ensures forall k :: 0 <= k < |StrippedLines(text)| ==>
      NoLineBreaks(StrippedLines(text)[k]) && Clean(StrippedLines(text)[k])
  {
    var lines, c := SplitLines(text), StrippedLines(text);
    SplitLinesHaveNoBreaks(text);
    forall k | 0 <= k < |c| ensures NoLineBreaks(c[k]) && Clean(c[k]) {
      assert c[k] == lines[k][..|c[k]|];
    }
  }

  /** Right-stripping clean lines changes nothing. */
  lemma StripClean(c: seq<string>)
    requires forall k :: 0 <= k < |c| ==> Clean(c[k])
    ensures forall k :: 0 <= k < |c| ==> RStrip(c[k]) == c[k]
  {
  }

  /**
   Each output line is its input line with trailing whitespace removed and nothing else: the
   line count is the `splitlines` count, and interior whitespace stays.
   */
  lemma StrippedLinesKeepInterior(text: string)
    ensures |StrippedLines(text)| == |SplitLines(text)|
    ensures forall k :: 0 <= k < |SplitLines(text)| ==>
      var line, c := SplitLines(text)[k], StrippedLines(text)[k];
      c == line[..|c|] && AllSpace(line[|c|..]) && Clean(c)
  {
    var lines, c := SplitLines(text), StrippedLines(text);
    forall k | 0 <= k < |lines| ensures c[k] == lines[k][..|c[k]|] && AllSpace(lines[k][|c[k]|..]) && Clean(c[k]) {
      assert c[k] == RStrip(lines[k]);
    }
  }

  /** No line of the normalised text ends in whitespace, whichever the flag. */
  lemma NormalizedLinesAreClean(text: string, preserveFinalNewline: bool)
    ensures forall k :: 0 <= k < |SplitLines(Normalized(text, preserveFinalNewline))| ==>
      Clean(SplitLines(Normalized(text, preserveFinalNewline))[k])
  {
    var c := StrippedLines(text);
    StrippedAreCleanLines(text);
    var r := Normalized(text, preserveFinalNewline);
    if preserveFinalNewline && EndsWithNewline(text) {
      assert r == JoinLines(c) + "\n";
      SplitJoinNewline(c);
    } else {
      assert r == JoinLines(c);
      SplitJoin(c);
    }
  }

  /** With `preserve_final_newline=True`, normalising twice is normalising once. */
  lemma NormalizeIdempotent(text: string)
    ensures Normalized(Normalized(text, true), true) == Normalized(text, true)
  {
    var c := StrippedLines(text);
    StrippedAreCleanLines(text);
    if EndsWithNewline(text) {
      RenormalizeWithNewline(c);
    } else if c == [] {
      assert Normalized(text, true) == "";
    } else {
      assert Normalized(text, true) == JoinLines(c);
      RenormalizeJoined(c);
    }
  }

  /** Clean lines joined and closed by a newline come back unchanged. */
  lemma RenormalizeWithNewline(c: seq<string>)
    requires c != []
    requires forall k :: 0 <= k < |c| ==> Clean(c[k]) && NoLineBreaks(c[k])
    ensures Normalized(JoinLines(c) + "\n", true) == JoinLines(c) + "\n"
  {
    var r := JoinLines(c) + "\n";
    SplitJoinNewline(c);
    StripClean(c);
    assert StrippedLines(r) == c;
    assert EndsWithNewline(r);
  }

  /** Clean lines joined without a closing newline come back unchanged. */
  lemma RenormalizeJoined(c: seq<string>)
    requires c != []
    requires forall k :: 0 <= k < |c| ==> Clean(c[k]) && NoLineBreaks(c[k])
    ensures Normalized(JoinLines(c), true) == JoinLines(c)
  {
    SplitJoin(c);
    StripClean(c);
    JoinLinesLast(c);
    if c[|c| - 1] == [] {
      RenormalizeOpenLast(c);
    } else {
      assert StrippedLines(JoinLines(c)) == c;
      assert !EndsWithNewline(JoinLines(c));
    }
  }

  /** The case of `RenormalizeJoined` where the last line is empty, so the join ends in `\n`. */
  lemma RenormalizeOpenLast(c: seq<string>)
    requires c != [] && c[|c| - 1] == []
    requires forall k :: 0 <= k < |c| ==> Clean(c[k]) && NoLineBreaks(c[k])
    requires SplitLines(JoinLines(c)) == DropLastEmpty(c)
    requires forall k :: 0 <= k < |c| ==> RStrip(c[k]) == c[k]
    requires EndsWithNewline(JoinLines(c)) <==> |c| > 1
    ensures Normalized(JoinLines(c), true) == JoinLines(c)
  {
    var r, init := JoinLines(c), c[..|c| - 1];
    assert SplitLines(r) == init;
    assert StrippedLines(r) == init;
    if |c| == 1 {
      assert r == "";
    } else {
      JoinLinesLast(c);
      assert r == JoinLines(init) + "\n";
    }
  }

  /** With `preserve_final_newline=False` it is not: `"a\n\n"` gives `"a\n"`, which gives `"a"`. */
  lemma NormalizeWithoutFinalNewlineNotIdempotent()
    ensures Normalized("a\n\n", false) == "a\n"
    ensures Normalized("a\n", false) == "a"
  {
    NormalizedDropsFinalNewline(["a", ""]);
    assert JoinLines(["a", ""]) + "\n" == "a\n\n";
    NormalizedDropsFinalNewline(["a"]);
    assert JoinLines(["a"]) + "\n" == "a\n";
  }

  /**
   Preserving the final newline does not mean keeping the text's ending: `"a\n "` ends in a blank
   line, which is stripped to nothing, so the result `"a\n"` ends in a newline the text did not
   end in.
   */
  lemma NormalizeCanGainFinalNewline()
    ensures Normalized("a\n ", true) == "a\n"
    ensures !EndsWithNewline("a\n ")
  {
    StrippedOfBlankLast();
    assert JoinLines(["a", ""]) == "a\n";
  }

  lemma StrippedOfBlankLast()
    ensures StrippedLines("a\n ") == ["a", ""]
  {
    SplitOfBlankLast();
    StripOfSpace();
    var c := StrippedLines("a\n ");
    assert c[0] == RStrip("a") == "a";
  }

  lemma StripOfSpace()
    ensures RStrip(" ") == ""
  {
    assert IsSpace(" "[0]);
  }

  lemma SplitOfBlankLast()
    ensures SplitLines("a\n ") == ["a", " "]
  {
    assert "a\n " == "a" + "\n" + " ";
    SplitLinesCons("a", " ");
    SplitLinesOfLine(" ");
  }

  /** With preservation, a text ending in a blank line keeps both newlines: `"a\n\n"` is unchanged. */
  lemma NormalizeKeepsBlankLastLine()
    ensures Normalized("a\n\n", true) == "a\n\n"
  {
    NormalizeWithoutFinalNewlineNotIdempotent();
    assert EndsWithNewline("a\n\n");
  }

  /** Without preservation, clean lines closed by a newline lose that newline. */
  lemma NormalizedDropsFinalNewline(c: seq<string>)
    requires c != []
    requires forall k :: 0 <= k < |c| ==> Clean(c[k]) && NoLineBreaks(c[k])
    ensures Normalized(JoinLines(c) + "\n", false) == JoinLines(c)
  {
    var r := JoinLines(c) + "\n";
    SplitJoinNewline(c);
    StrippedOfCleanLines(r, c);
    assert JoinLines(c) + "" == JoinLines(c);
  }

  /** When `splitlines` yields clean lines, right-stripping leaves them as they are. */
  lemma StrippedOfCleanLines(text: string, c: seq<string>)
    requires SplitLines(text) == c
    requires forall k :: 0 <= k < |c| ==> Clean(c[k])
    ensures StrippedLines(text) == c
  {
    StripClean(c);
  }
}
