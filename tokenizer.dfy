/**
 The tokenizer of `proofer/text_utils.py` (`extract_words`): the lower-cased maximal runs of
 word characters of a text, in order. `re.findall(r"\b\w+\b", ...)` with a greedy `\w+`
 between word boundaries finds exactly the maximal runs, which is how `Words` scans.
 */
module Tokenizer {
  import opened Wrappers
  import opened CharModel
  import opened Seqs

  /** Length of the longest prefix of `s` made of word characters. */
  function RunLen(s: string): (n: nat)
    ensures n <= |s|
    ensures AllWordChars(s[..n])
    ensures n < |s| ==> !IsWordChar(s[n])
  {
    if s == [] || !IsWordChar(s[0]) then 0 else 1 + RunLen(s[1..])
  }

  /** A token: a non-empty run of word characters. */
  predicate IsToken(w: string) {
    |w| > 0 && AllWordChars(w)
  }

  /** The maximal word-character runs of `s`, left to right. */
  function Words(s: string): seq<string>
    decreases |s|
  {
    if s == [] then []
    else if !IsWordChar(s[0]) then Words(s[1..])
    else
      var n := RunLen(s);
      [s[..n]] + Words(s[n..])
  }

  /** The tokens `find_word_changes` and `extract_words` compute for a present string. */
  function Tokens(s: string): seq<string> {
    Words(LowerStr(s))
  }

  /** Every token found is a non-empty run of word characters. */
  lemma {:induction false} WordsAreTokens(s: string)
    ensures forall k :: 0 <= k < |Words(s)| ==> IsToken(Words(s)[k])
    decreases |s|
  {
    if s != [] {
      if !IsWordChar(s[0]) {
        WordsAreTokens(s[1..]);
      } else {
        WordsAreTokens(s[RunLen(s)..]);
      }
    }
  }

  /** Every character of a token is a character of the text. */
  lemma {:induction false} WordsFromText(s: string)
    ensures forall k, i :: 0 <= k < |Words(s)| && 0 <= i < |Words(s)[k]| ==> Words(s)[k][i] in s
    decreases |s|
  {
    if s != [] {
      var ws := Words(s);
      var n := if IsWordChar(s[0]) then RunLen(s) else 1;
      var rest := Words(s[n..]);
      WordsFromText(s[n..]);
      forall k, i | 0 <= k < |ws| && 0 <= i < |ws[k]| ensures ws[k][i] in s {
        if IsWordChar(s[0]) && k == 0 {
          assert ws[0] == s[..n];
          assert s[i] == ws[k][i];
        } else {
          var k' := if IsWordChar(s[0]) then k - 1 else k;
          assert ws[k] == rest[k'];
          var j :| 0 <= j < |s[n..]| && s[n..][j] == rest[k'][i];
          assert s[j + n] == ws[k][i];
        }
      }
    }
  }

  /** Tokens are lower-case: lower-casing any of their characters changes nothing. */
  lemma TokensAreLowerCase(s: string)
    ensures forall k, i :: 0 <= k < |Tokens(s)| && 0 <= i < |Tokens(s)[k]| ==> Lower(Tokens(s)[k][i]) == Tokens(s)[k][i]
  {
    var ws := Tokens(s);
    WordsFromText(LowerStr(s));
    forall k, i | 0 <= k < |ws| && 0 <= i < |ws[k]| ensures Lower(ws[k][i]) == ws[k][i] {
      var j :| 0 <= j < |LowerStr(s)| && LowerStr(s)[j] == ws[k][i];
    }
  }

  /** `extract_words`: `None` and `""` give no tokens; otherwise the tokens of the text. */
  function ExtractWords(text: Option<string>): seq<string> {
    if text == None || text == Some("") then [] else Tokens(text.value)
  }

  // ---------------------------------------------------------------------------
  // How the scan decomposes

  lemma {:induction false} RunLenAppend(a: string, b: string)
    requires b == [] || !IsWordChar(b[0])
    ensures RunLen(a + b) == RunLen(a)
    decreases |a|
  {
    if a == [] {
    } else if IsWordChar(a[0]) {
      DropAppend(a, b);
      RunLenAppend(a[1..], b);
    }
  }

  lemma {:induction false} RunLenPrefix(a: string, b: string)
    requires RunLen(a) < |a|
    ensures RunLen(a + b) == RunLen(a)
    decreases |a|
  {
    if IsWordChar(a[0]) {
      DropAppend(a, b);
      RunLenPrefix(a[1..], b);
    }
  }

  /** Text split where a word cannot continue across the cut tokenizes piecewise. */
  lemma {:induction false} WordsAppend(a: string, b: string)
    requires a == [] || b == [] || !IsWordChar(a[|a| - 1]) || !IsWordChar(b[0])
    ensures Words(a + b) == Words(a) + Words(b)
    decreases |a|
  {
    if a == [] {
      assert a + b == b;
    } else if !IsWordChar(a[0]) {
      WordsSkipStep(a, b);
      WordsAppend(a[1..], b);
    } else {
      var n := RunLen(a);
      WordsRunStep(a, b);
      WordsAppend(a[n..], b);
      WordsOfRunStart(a);
      AppendAssoc([a[..n]], Words(a[n..]), Words(b));
    }
  }

  /** A leading character that is not a word character is skipped, with or without `b` after it. */
  lemma WordsSkipStep(a: string, b: string)
    requires a != [] && !IsWordChar(a[0])
    ensures Words(a + b) == Words(a[1..] + b) && Words(a) == Words(a[1..])
  {
    DropAppend(a, b);
    assert (a + b)[0] == a[0];
  }

  /** The first run of `a + b` is the first run of `a` when no word continues across the cut. */
  lemma WordsRunStep(a: string, b: string)
    requires a != [] && IsWordChar(a[0])
    requires b == [] || !IsWordChar(a[|a| - 1]) || !IsWordChar(b[0])
    ensures Words(a + b) == [a[..RunLen(a)]] + Words(a[RunLen(a)..] + b)
  {
    var n, s := RunLen(a), a + b;
    RunLenCut(a, b);
    ConcatSlices(a, b, n);
    WordsOfRunStart(s);
  }

  /** Unfolding `Words` once at a leading run. */
  lemma WordsOfRunStart(s: string)
    requires s != [] && IsWordChar(s[0])
    ensures Words(s) == [s[..RunLen(s)]] + Words(s[RunLen(s)..])
  {
  }

  lemma RunLenCut(a: string, b: string)
    requires a != []
    requires b == [] || !IsWordChar(a[|a| - 1]) || !IsWordChar(b[0])
    ensures RunLen(a + b) == RunLen(a)
  {
    if RunLen(a) < |a| {
      RunLenPrefix(a, b);
    } else {
      assert a[..RunLen(a)] == a;
      RunLenAppend(a, b);
    }
  }

  /** Text without word characters (punctuation, whitespace) has no tokens. */
  lemma {:induction false} WordsOfSeparator(s: string)
    requires NoWordChars(s)
    ensures Words(s) == []
    decreases |s|
  {
    if s != [] {
      WordsOfSeparator(s[1..]);
    }
  }

  /** A single run of word characters is one token. */
  lemma WordsOfRun(w: string)
    requires IsToken(w)
    ensures Words(w) == [w]
  {
    assert w[..|w|] == w;
    assert w[|w|..] == [];
  }

  // ---------------------------------------------------------------------------
  // Independent characterisation: text is separators interleaved with tokens

  /** `seps[0] + toks[0] + seps[1] + ... + toks[n-1] + seps[n]`. */
  function Interleave(seps: seq<string>, toks: seq<string>): (s: string)
    requires |seps| == |toks| + 1
    decreases |toks|
  {
    if toks == [] then seps[0] else seps[0] + toks[0] + Interleave(seps[1..], toks[1..])
  }

  /**
   A layout of a text into tokens: every token a non-empty word-character run, every separator
   free of word characters, and the separators strictly between two tokens non-empty.
   */
  predicate Layout(seps: seq<string>, toks: seq<string>) {
    && |seps| == |toks| + 1
    && (forall k :: 0 <= k < |toks| ==> IsToken(toks[k]))
    && (forall k :: 0 <= k < |seps| ==> NoWordChars(seps[k]))
    && (forall k :: 0 < k < |toks| ==> seps[k] != [])
  }

  lemma {:induction false} InterleaveStart(seps: seq<string>, toks: seq<string>)
    requires Layout(seps, toks)
    ensures var s := Interleave(seps, toks);
      s == [] || (seps[0] == [] && toks != [] && IsWordChar(s[0])) || (seps[0] != [] && !IsWordChar(s[0]))
  {
    if toks != [] {
      var s := Interleave(seps, toks);
      if seps[0] == [] {
        assert s[0] == toks[0][0];
      } else {
        assert s[0] == seps[0][0];
      }
    }
  }

  /** Every layout's tokens are exactly what the scanner finds. */
  lemma {:induction false} WordsOfLayout(seps: seq<string>, toks: seq<string>)
    requires Layout(seps, toks)
    ensures Words(Interleave(seps, toks)) == toks
    decreases |toks|
  {
    if toks == [] {
      WordsOfSeparator(seps[0]);
    } else {
      var rest := Interleave(seps[1..], toks[1..]);
      LayoutTail(seps, toks);
      WordsOfLayout(seps[1..], toks[1..]);
      InterleaveStart(seps[1..], toks[1..]);
      WordsAppend(toks[0], rest);
      WordsOfRun(toks[0]);
      WordsAppend(seps[0], toks[0] + rest);
      WordsOfSeparator(seps[0]);
      AppendAssoc(seps[0], toks[0], rest);
      HeadTail(toks);
    }
  }

  /** Dropping the first separator and the first token leaves a layout. */
  lemma LayoutTail(seps: seq<string>, toks: seq<string>)
    requires Layout(seps, toks) && toks != []
    ensures Layout(seps[1..], toks[1..])
    ensures toks[1..] != [] ==> seps[1] != []
  {
  }

  lemma InterleavePrefixed(c: char, seps: seq<string>, toks: seq<string>)
    requires |seps| == |toks| + 1
    ensures Interleave([[c] + seps[0]] + seps[1..], toks) == [c] + Interleave(seps, toks)
  {
    var seps' := [[c] + seps[0]] + seps[1..];
    assert seps'[1..] == seps[1..];
  }

  /** Conversely, the scanner's tokens always come with a layout that rebuilds the text. */
  lemma {:induction false} LayoutOfWords(s: string) returns (seps: seq<string>)
    ensures Layout(seps, Words(s))
    ensures Interleave(seps, Words(s)) == s
    decreases |s|
  {
    if s == [] {
      seps := [[]];
    } else if !IsWordChar(s[0]) {
      var tail := LayoutOfWords(s[1..]);
      seps := LayoutSkip(s, tail);
    } else {
      var tail := LayoutOfWords(s[RunLen(s)..]);
      seps := LayoutRun(s, tail);
    }
  }

  lemma LayoutSkip(s: string, tail: seq<string>) returns (seps: seq<string>)
    requires s != [] && !IsWordChar(s[0])
    requires Layout(tail, Words(s[1..])) && Interleave(tail, Words(s[1..])) == s[1..]
    ensures Layout(seps, Words(s)) && Interleave(seps, Words(s)) == s
  {
    seps := [[s[0]] + tail[0]] + tail[1..];
    InterleavePrefixed(s[0], tail, Words(s));
    assert s == [s[0]] + s[1..];
    assert forall k :: 0 < k < |seps| ==> seps[k] == tail[k];
    assert NoWordChars(seps[0]) by {
      forall i | 0 <= i < |seps[0]| ensures !IsWordChar(seps[0][i]) {
        if i > 0 {
          assert seps[0][i] == tail[0][i - 1];
        }
      }
    }
  }

  lemma LayoutRun(s: string, tail: seq<string>) returns (seps: seq<string>)
    requires s != [] && IsWordChar(s[0])
    requires Layout(tail, Words(s[RunLen(s)..])) && Interleave(tail, Words(s[RunLen(s)..])) == s[RunLen(s)..]
    ensures Layout(seps, Words(s)) && Interleave(seps, Words(s)) == s
  {
    var n := RunLen(s);
    var rest := s[n..];
    seps := [[]] + tail;
    WordsOfRunStart(s);
    if Words(rest) != [] {
      InterleaveStart(tail, Words(rest));
    }
    LayoutCons(s[..n], tail, Words(rest));
    InterleaveCons(s[..n], tail, Words(rest));
    TakeDrop(s, n);
  }

  /** A token in front of a layout whose first separator is non-empty (if a token follows) is a layout. */
  lemma LayoutCons(w: string, tail: seq<string>, ws: seq<string>)
    requires IsToken(w) && Layout(tail, ws) && (ws != [] ==> tail[0] != [])
    ensures Layout([[]] + tail, [w] + ws)
  {
    var seps, toks := [[]] + tail, [w] + ws;
    assert forall k :: 0 < k < |seps| ==> seps[k] == tail[k - 1];
    assert forall k :: 0 < k < |toks| ==> toks[k] == ws[k - 1];
  }

  /** Interleaving behind an empty first separator starts with the first token. */
  lemma InterleaveCons(w: string, tail: seq<string>, ws: seq<string>)
    requires |tail| == |ws| + 1
    ensures Interleave([[]] + tail, [w] + ws) == w + Interleave(tail, ws)
  {
    ConsDrop([], tail);
    ConsDrop(w, ws);
  }

  lemma LowerStrAppend(a: string, b: string)
    ensures LowerStr(a + b) == LowerStr(a) + LowerStr(b)
  {
  }

  /** `Tokens` splits like `Words` at a cut a word cannot cross. */
  lemma TokensAppend(a: string, b: string)
    requires a == [] || b == [] || !IsWordChar(a[|a| - 1]) || !IsWordChar(b[0])
    ensures Tokens(a + b) == Tokens(a) + Tokens(b)
  {
    LowerStrAppend(a, b);
    WordsAppend(LowerStr(a), LowerStr(b));
  }

  /** Text without word characters has no tokens, whatever its case. */
  lemma TokensOfSeparator(s: string)
    requires NoWordChars(s)
    ensures Tokens(s) == []
  {
    WordsOfSeparator(LowerStr(s));
  }

  /** A non-empty separator between two texts contributes no token and separates theirs. */
  lemma TokensAroundSeparator(x: string, sep: string, y: string)
    requires sep != [] && NoWordChars(sep)
    ensures Tokens(x + sep + y) == Tokens(x) + Tokens(y)
  {
    assert x + sep + y == x + (sep + y);
    assert (sep + y)[0] == sep[0];
    TokensAppend(x, sep + y);
    TokensAppend(sep, y);
    TokensOfSeparator(sep);
  }

  /** A word run followed by a separator: its token comes first. */
  lemma TokensCons(s: string, w: string, sep: string, rest: string)
    requires IsToken(w) && sep != [] && NoWordChars(sep) && s == w + sep + rest
    ensures Tokens(s) == [LowerStr(w)] + Tokens(rest)
  {
    TokensAroundSeparator(w, sep, rest);
    TokensOfRun(w);
  }

  /** A word run followed by a separator that ends the text. */
  lemma TokensLast(s: string, w: string, sep: string)
    requires IsToken(w) && NoWordChars(sep) && s == w + sep
    ensures Tokens(s) == [LowerStr(w)]
  {
    TokensAppend(w, sep);
    TokensOfSeparator(sep);
    TokensOfRun(w);
  }

  /** Three word runs, each followed by a separator (the last one possibly empty). */
  lemma TokensOfThree(s: string, w1: string, p1: string, w2: string, p2: string, w3: string, p3: string)
    requires IsToken(w1) && IsToken(w2) && IsToken(w3)
    requires p1 != [] && p2 != [] && NoWordChars(p1) && NoWordChars(p2) && NoWordChars(p3)
    requires s == w1 + p1 + w2 + p2 + w3 + p3
    ensures Tokens(s) == [LowerStr(w1), LowerStr(w2), LowerStr(w3)]
  {
    var r3 := w3 + p3;
    var r2 := w2 + p2 + r3;
    assert s == w1 + p1 + r2;
    TokensCons(s, w1, p1, r2);
    TokensCons(r2, w2, p2, r3);
    TokensLast(r3, w3, p3);
  }

  /** Five word runs, each followed by a separator (the last one possibly empty). */
  lemma TokensOfFive(s: string, w1: string, p1: string, w2: string, p2: string, w3: string, p3: string,
                     w4: string, p4: string, w5: string, p5: string)
    requires IsToken(w1) && IsToken(w2) && IsToken(w3) && IsToken(w4) && IsToken(w5)
    requires p1 != [] && p2 != [] && p3 != [] && p4 != []
    requires NoWordChars(p1) && NoWordChars(p2) && NoWordChars(p3) && NoWordChars(p4) && NoWordChars(p5)
    requires s == w1 + p1 + w2 + p2 + w3 + p3 + w4 + p4 + w5 + p5
    ensures Tokens(s) == [LowerStr(w1), LowerStr(w2), LowerStr(w3), LowerStr(w4), LowerStr(w5)]
  {
    var r3 := w3 + p3 + w4 + p4 + w5 + p5;
    var r2 := w2 + p2 + r3;
    assert s == w1 + p1 + r2;
    TokensCons(s, w1, p1, r2);
    TokensCons(r2, w2, p2, r3);
    TokensOfThree(r3, w3, p3, w4, p4, w5, p5);
  }

  /** A run of word characters is one token, lower-cased. */
  lemma TokensOfRun(w: string)
    requires IsToken(w)
    ensures Tokens(w) == [LowerStr(w)]
  {
    WordsOfRun(LowerStr(w));
  }

  // ---------------------------------------------------------------------------
  // Properties of extract_words

  /** Absent, empty and whitespace-only text has no tokens. */
  lemma ExtractWordsOfBlank(text: Option<string>)
    requires text == None || AllSpace(text.value)
    ensures ExtractWords(text) == []
  {
    if text != None && text.value != "" {
      var low := LowerStr(text.value);
      forall i | 0 <= i < |low| ensures !IsWordChar(low[i]) {
        CharClasses(text.value[i]);
      }
      WordsOfSeparator(low);
    }
  }

  /** Lower-casing the text first changes nothing. */
  lemma ExtractWordsLowerInvariant(s: string)
    ensures ExtractWords(Some(LowerStr(s))) == ExtractWords(Some(s))
  {
    LowerIdempotent(s);
  }

  lemma ExtractWordsOfLayout(s: string, seps: seq<string>, toks: seq<string>)
    requires s != "" && Layout(seps, toks) && Interleave(seps, toks) == LowerStr(s)
    ensures ExtractWords(Some(s)) == toks
  {
    WordsOfLayout(seps, toks);
  }

  /** The tokens of `"Hello, world! How are you?"`. */
  lemma ExtractWordsPunctuation(s: string)
    requires s == "Hello, world! How are you?"
    ensures ExtractWords(Some(s)) == ["hello", "world", "how", "are", "you"]
  {
    PunctuationPieces();
    assert s == "Hello" + ", " + "world" + "! " + "How" + " " + "are" + " " + "you" + "?";
    TokensOfFive(s, "Hello", ", ", "world", "! ", "How", " ", "are", " ", "you", "?");
    LowerOfWords();
  }

  lemma PunctuationPieces()
    ensures IsToken("Hello") && IsToken("world") && IsToken("How") && IsToken("are") && IsToken("you")
    ensures NoWordChars(", ") && NoWordChars("! ") && NoWordChars(" ") && NoWordChars("?")
  {
  }

  lemma LowerOfWords()
    ensures LowerStr("Hello") == "hello" && LowerStr("world") == "world" && LowerStr("How") == "how"
    ensures LowerStr("are") == "are" && LowerStr("you") == "you"
  {
  }

  /** The tokens of `"test_var 123 hello_world"`: the digit run `123` is a token too. */
  lemma ExtractWordsDigits(s: string)
    requires s == "test_var 123 hello_world"
    ensures ExtractWords(Some(s)) == ["test_var", "123", "hello_world"]
  {
    TokensOfThree(s, "test_var", " ", "123", " ", "hello_world", "");
    LowerOfDigits();
  }

  lemma LowerOfDigits()
    ensures LowerStr("test_var") == "test_var" && LowerStr("123") == "123" && LowerStr("hello_world") == "hello_world"
  {
  }
}
