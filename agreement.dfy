/**
 How the three text utilities agree inside the pipeline: normalising a reply keeps its tokens,
 so the word-change locator sees exactly the tokens the classifier compared; with an alignment
 that pairs tokens position for position, it reports a change exactly when the classifier
 found a correction.
 */
module Agreement {
  import opened Wrappers
  import opened CharModel
  import opened Tokenizer
  import opened Classifier
  import opened Normalizer
  import opened WordDiff

  /** The tokens of each line, in order. */
  function LineTokens(lines: seq<string>): seq<string>
    decreases |lines|
  {
    if lines == [] then [] else Tokens(lines[0]) + LineTokens(lines[1..])
  }

  /** A line boundary is never part of a word, so the text's tokens are its lines' tokens. */
  lemma {:induction false} TokensOfSplitLines(s: string)
    ensures Tokens(s) == LineTokens(SplitLines(s))
    decreases |s|
  {
    if s == [] {
      TokensOfSeparator(s);
    } else {
      var n := LineLen(s);
      if n == |s| {
        assert SplitLines(s) == [s];
        assert LineTokens([s]) == Tokens(s) + LineTokens([]);
      } else {
        var m := n + BreakLen(s[n..]);
        TokensAcrossBreak(s, n, m);
        TokensOfSplitLines(s[m..]);
        SplitLinesStep(s, n, m);
      }
    }
  }

  lemma SplitLinesStep(s: string, n: nat, m: nat)
    requires n < |s| && n == LineLen(s) && m == n + BreakLen(s[n..])
    ensures SplitLines(s) == [s[..n]] + SplitLines(s[m..])
    ensures LineTokens(SplitLines(s)) == Tokens(s[..n]) + LineTokens(SplitLines(s[m..]))
  {
    var lines := SplitLines(s);
    assert lines[1..] == SplitLines(s[m..]);
  }

  /** The boundary `s[n..m]` that ends a line separates the tokens around it. */
  lemma TokensAcrossBreak(s: string, n: nat, m: nat)
    requires n < |s| && n == LineLen(s) && m == n + BreakLen(s[n..])
    ensures Tokens(s) == Tokens(s[..n]) + Tokens(s[m..])
  {
    BreakIsSeparator(s, n, m);
    SplitThree(s, n, m);
    TokensAroundSeparator(s[..n], s[n..m], s[m..]);
  }

  /** A line boundary is one or two line-break characters, none of them a word character. */
  lemma BreakIsSeparator(s: string, n: nat, m: nat)
    requires n < |s| && n == LineLen(s) && m == n + BreakLen(s[n..])
    ensures s[n..m] != [] && NoWordChars(s[n..m])
  {
    var t := s[n..];
    assert t[0] == s[n] && IsLineBreak(t[0]);
    if BreakLen(t) == 1 {
      BreakIsNoWord(s[n]);
      assert s[n..m] == [s[n]];
    } else {
      assert t[0] == '\r' && t[1] == '\n';
      assert s[n..m] == "\r\n";
    }
  }

  lemma BreakIsNoWord(c: char)
    requires IsLineBreak(c)
    ensures NoWordChars([c])
  {
    CharClasses(c);
  }

  lemma SplitThree(s: string, n: nat, m: nat)
    requires n <= m <= |s|
    ensures s == s[..n] + s[n..m] + s[m..]
  {
  }

  /** Joining with `\n` adds no token and merges none. */
  lemma {:induction false} TokensOfJoinLines(c: seq<string>)
    ensures Tokens(JoinLines(c)) == LineTokens(c)
    decreases |c|
  {
    if c == [] {
      TokensOfSeparator("");
    } else if |c| == 1 {
      assert c[1..] == [];
    } else {
      TokensOfJoinLines(c[1..]);
      JoinLinesCons(c);
      TokensAroundSeparator(c[0], "\n", JoinLines(c[1..]));
    }
  }

  lemma JoinLinesCons(c: seq<string>)
    requires |c| > 1
    ensures JoinLines(c) == c[0] + "\n" + JoinLines(c[1..])
  {
  }

  /** Right-stripping removes whitespace only, so a line keeps its tokens. */
  lemma TokensOfRStrip(line: string)
    ensures Tokens(RStrip(line)) == Tokens(line)
  {
    var r := RStrip(line);
    var tail := line[|r|..];
    assert line == r + tail;
    assert NoWordChars(tail) by {
      forall i | 0 <= i < |tail| ensures !IsWordChar(tail[i]) {
        CharClasses(line[|r| + i]);
      }
    }
    TokensAppend(r, tail);
    TokensOfSeparator(tail);
  }

  lemma {:induction false} LineTokensPointwise(c: seq<string>, d: seq<string>)
    requires |c| == |d| && forall k :: 0 <= k < |c| ==> Tokens(c[k]) == Tokens(d[k])
    ensures LineTokens(c) == LineTokens(d)
    decreases |c|
  {
    if c != [] {
      LineTokensPointwise(c[1..], d[1..]);
    }
  }

  /** `normalize_line_endings` never changes the tokens of a text. */
  lemma TokensOfNormalized(text: string, preserveFinalNewline: bool)
    ensures Tokens(Normalized(text, preserveFinalNewline)) == Tokens(text)
  {
    var lines, c := SplitLines(text), StrippedLines(text);
    forall k | 0 <= k < |c| ensures Tokens(c[k]) == Tokens(lines[k]) {
      TokensOfRStrip(lines[k]);
    }
    LineTokensPointwise(c, lines);
    TokensOfJoinLines(c);
    TokensOfSplitLines(text);
    var j := JoinLines(c);
    if preserveFinalNewline && EndsWithNewline(text) {
      TokensAppend(j, "\n");
      TokensOfSeparator("\n");
    } else {
      assert Normalized(text, preserveFinalNewline) == j + "";
      assert j + "" == j;
    }
  }

  /**
   With an alignment that pairs tokens position for position, the changes found between the
   original and the normalised reply are non-empty exactly when the classifier reported a
   correction for the reply, blank replies included.
   */
  lemma ChangesIffCorrections(original: string, reply: string, preserveFinalNewline: bool, ops: seq<Opcode>)
    requires WellFormed(ops, Tokens(original), Tokens(Normalized(reply, preserveFinalNewline)))
    requires EqualWidths(ops)
    ensures HasSpellingCorrections(original, Some(reply)).hasCorrections
      <==> WordChanges(Tokens(original), Tokens(Normalized(reply, preserveFinalNewline)), ops) != []
  {
    var a, b := Tokens(original), Tokens(reply);
    TokensOfNormalized(reply, preserveFinalNewline);
    PositionalAlignment(a, b, ops);
    PositionalDiffsEmpty(a, b);
    if IsBlank(Some(reply)) {
      // A blank reply has no tokens, so the alignment leaves the original none either.
      ExtractWordsOfBlank(Some(reply));
      assert b == [];
    } else {
      assert reply != "";
      assert ExtractWords(Some(original)) == a;
      assert ExtractWords(Some(reply)) == b;
      if a != b {
        var i :| 0 <= i < |a| && a[i] != b[i];
      }
    }
  }

  /**
   Without that alignment the two can disagree: in `"x y"` against `"y z"` the classifier sees
   two differing positions, but `get_opcodes` pairs the shared `y` and reports a deletion and
   an insertion, so no `replace` block and no word change.
   */
  lemma ShiftedWordsReportNoChange(original: string, reply: string, ops: seq<Opcode>)
    requires original == "x y" && reply == "y z"
    requires ops == [Opcode(Delete, 0, 1, 0, 0), Opcode(Equal, 1, 2, 0, 1), Opcode(Insert, 2, 2, 1, 2)]
    ensures HasSpellingCorrections(original, Some(reply)).hasCorrections
    ensures WellFormed(ops, Tokens(original), Tokens(reply))
    ensures WordChanges(Tokens(original), Tokens(reply), ops) == []
  {
    var a, b := ["x", "y"], ["y", "z"];
    TokensOfPair(original, "x", "y");
    TokensOfPair(reply, "y", "z");
    assert Tiles(ops[1..], 1, 0, a, b) by {
      assert a[1..2] == b[0..1];
      assert Tiles(ops[2..], 2, 1, a, b) by {
        assert Tiles(ops[3..], 2, 2, a, b);
      }
    }
    NoReplaceNoPositions(a, b, ops);
    assert reply[0] == 'y' && !IsSpace(reply[0]);
    assert a[0] != b[0];
  }

  /** The tokens of two one-letter lower-case words separated by a space. */
  lemma TokensOfPair(s: string, x: string, y: string)
    requires |x| == 1 && |y| == 1 && 'a' <= x[0] <= 'z' && 'a' <= y[0] <= 'z' && s == x + " " + y
    ensures Tokens(s) == [x, y]
  {
    assert s == x + (" " + y);
    TokensAppend(x, " " + y);
    TokensAppend(" ", y);
    TokensOfSeparator(" ");
    TokensOfLowerRun(x);
    TokensOfLowerRun(y);
  }

  lemma TokensOfLowerRun(w: string)
    requires IsToken(w) && forall i :: 0 <= i < |w| ==> !('A' <= w[i] <= 'Z')
    ensures Tokens(w) == [w]
  {
    assert LowerStr(w) == w;
    WordsOfRun(w);
  }
}
