/**
 The correction classifier of `proofer/text_utils.py` (`has_spelling_corrections`): a model
 reply counts as an in-place spelling fix when it is not blank, has as many tokens as the
 original and differs from it in at least one token. The console line printed on a token-count
 mismatch is returned as a diagnostic.
 */
module Classifier {
  import opened Wrappers
  import opened CharModel
  import opened Tokenizer
  import opened Seqs

  /** The counts reported by "Word count mismatch: n vs m". */
  datatype Mismatch = Mismatch(originalCount: nat, suggestedCount: nat)

  datatype Verdict = Verdict(hasCorrections: bool, diagnostic: Option<Mismatch>)

  /** `not suggested or not suggested.strip()`: absent, empty or whitespace only. */
  predicate IsBlank(suggested: Option<string>) {
    suggested == None || AllSpace(suggested.value)
  }

  /** `any(orig != sugg for orig, sugg in zip(a, b))`. */
  function AnyDiffers(a: seq<string>, b: seq<string>): (r: bool)
    ensures r <==> exists i :: 0 <= i < |a| && i < |b| && a[i] != b[i]
  {
    if a == [] || b == [] then false
    else if a[0] != b[0] then true
    else
      assert forall i :: 1 <= i < |a| && i < |b| ==> (a[i] != b[i] <==> a[1..][i - 1] != b[1..][i - 1]);
      AnyDiffers(a[1..], b[1..])
  }

  function HasSpellingCorrections(original: string, suggested: Option<string>): (v: Verdict)
    ensures IsBlank(suggested) ==> v == Verdict(false, None)
    ensures !IsBlank(suggested) && |ExtractWords(Some(original))| != |ExtractWords(suggested)| ==>
      v == Verdict(false, Some(Mismatch(|ExtractWords(Some(original))|, |ExtractWords(suggested)|)))
    ensures !IsBlank(suggested) && |ExtractWords(Some(original))| == |ExtractWords(suggested)| ==>
      v.diagnostic == None &&
      (v.hasCorrections <==>
        exists i :: 0 <= i < |ExtractWords(Some(original))| && ExtractWords(Some(original))[i] != ExtractWords(suggested)[i])
  {
    if IsBlank(suggested) then Verdict(false, None)
    else
      var originalWords := ExtractWords(Some(original));
      var suggestedWords := ExtractWords(suggested);
      if |originalWords| != |suggestedWords| then
        Verdict(false, Some(Mismatch(|originalWords|, |suggestedWords|)))
      else
        Verdict(AnyDiffers(originalWords, suggestedWords), None)
  }

  /** A verdict of "corrections" means the reply was not blank, kept the token count and changed a token. */
  lemma CorrectionsMeanSameCountAndADifference(original: string, suggested: Option<string>)
    requires HasSpellingCorrections(original, suggested).hasCorrections
    ensures suggested.Some? && !AllSpace(suggested.value)
    ensures |Tokens(original)| == |Tokens(suggested.value)|
    ensures exists i :: 0 <= i < |Tokens(original)| && Tokens(original)[i] != Tokens(suggested.value)[i]
  {
    var o, s := ExtractWords(Some(original)), ExtractWords(suggested);
    assert o == Tokens(original);
    assert s == Tokens(suggested.value) by {
      assert suggested.value != "";
    }
  }

  /** A reply that equals the original, or differs from it only in letter case, is no correction. */
  lemma CaseOnlyChangeIsNoCorrection(original: string, suggested: string)
    requires LowerStr(original) == LowerStr(suggested)
    ensures !HasSpellingCorrections(original, Some(suggested)).hasCorrections
  {
    if !IsBlank(Some(suggested)) {
      assert suggested != "";
      assert Tokens(original) == Tokens(suggested);
      assert ExtractWords(Some(original)) == ExtractWords(Some(suggested));
    }
  }

  /** Decimal digits of a count, as Python's `str(int)` writes them. */
  function Decimal(n: nat): (r: string)
    ensures |r| > 0
    ensures forall i :: 0 <= i < |r| ==> '0' <= r[i] <= '9'
    ensures |r| > 1 ==> r[0] != '0'
  {
    if n < 10 then ["0123456789"[n]] else Decimal(n / 10) + ["0123456789"[n % 10]]
  }

  /** The number a string of decimal digits denotes, most significant digit first. */
  function Value(digits: string): int
    decreases |digits|
  {
    if digits == [] then 0
    else 10 * Value(digits[..|digits| - 1]) + (digits[|digits| - 1] as int - '0' as int)
  }

  /** The digits `str(n)` writes denote `n`. */
  lemma {:induction false} DecimalValue(n: nat)
    ensures Value(Decimal(n)) == n
  {
    if n >= 10 {
      DecimalValue(n / 10);
      var d := Decimal(n / 10);
      var r := Decimal(n);
      assert r[..|r| - 1] == d;
    }
  }

  /** Different counts are written differently. */
  lemma DecimalInjective(m: nat, n: nat)
    requires Decimal(m) == Decimal(n)
    ensures m == n
  {
    DecimalValue(m);
    DecimalValue(n);
  }

  const MismatchPrefix := "Word count mismatch: "

  /** The line `has_spelling_corrections` prints on a count mismatch. */
  function MismatchMessage(m: Mismatch): string {
    MismatchPrefix + Decimal(m.originalCount) + " vs " + Decimal(m.suggestedCount)
  }

  /** The message names both counts: two mismatches with the same message are the same. */
  lemma MismatchMessageInjective(m1: Mismatch, m2: Mismatch)
    requires MismatchMessage(m1) == MismatchMessage(m2)
    ensures m1 == m2
  {
    var x1, y1 := Decimal(m1.originalCount), Decimal(m1.suggestedCount);
    var x2, y2 := Decimal(m2.originalCount), Decimal(m2.suggestedCount);
    var t1, t2 := x1 + (" vs " + y1), x2 + (" vs " + y2);
    AppendAssoc(MismatchPrefix, x1, " vs " + y1);
    AppendAssoc(MismatchPrefix + x1, " vs ", y1);
    AppendAssoc(MismatchPrefix, x2, " vs " + y2);
    AppendAssoc(MismatchPrefix + x2, " vs ", y2);
    ConcatSlices(MismatchPrefix, t1, |MismatchPrefix|);
    ConcatSlices(MismatchPrefix, t2, |MismatchPrefix|);
    assert t1 == t2;
    SpaceEndsCount(x1, x2, y1, y2);
    ConcatSlices(x1, " vs " + y1, |x1|);
    ConcatSlices(x2, " vs " + y2, |x2|);
    DecimalInjective(m1.originalCount, m2.originalCount);
    ConsDrop(' ', "vs " + y1);
    ConsDrop(' ', "vs " + y2);
    assert y1 == y2 by {
      assert " vs " + y1 == " vs " + y2;
      assert (" vs " + y1)[4..] == y1;
      assert (" vs " + y2)[4..] == y2;
    }
    DecimalInjective(m1.suggestedCount, m2.suggestedCount);
  }

  /** The first space after the digits ends the first count: both digit strings have the same length. */
  lemma SpaceEndsCount(x1: string, x2: string, y1: string, y2: string)
    requires forall i :: 0 <= i < |x1| ==> '0' <= x1[i] <= '9'
    requires forall i :: 0 <= i < |x2| ==> '0' <= x2[i] <= '9'
    requires x1 + (" vs " + y1) == x2 + (" vs " + y2)
    ensures |x1| == |x2|
  {
    FirstSpace(x1, y1);
    FirstSpace(x2, y2);
  }

  /** In digits followed by `" vs "`, the first space is the one right after the digits. */
  lemma FirstSpace(x: string, y: string)
    requires forall i :: 0 <= i < |x| ==> '0' <= x[i] <= '9'
    ensures (x + (" vs " + y))[|x|] == ' '
    ensures forall i :: 0 <= i < |x| ==> (x + (" vs " + y))[i] != ' '
  {
  }

  /** "Hello world" against "Hello beautiful world": no correction, and the message names 2 and 3. */
  lemma MismatchExample(original: string, suggested: string)
    requires original == "Hello world" && suggested == "Hello beautiful world"
    ensures var v := HasSpellingCorrections(original, Some(suggested));
      !v.hasCorrections && v.diagnostic.Some? && MismatchMessage(v.diagnostic.value) == "Word count mismatch: 2 vs 3"
  {
    TokensOfHelloWorld(original);
    TokensOfHelloBeautifulWorld(suggested);
    assert !AllSpace(suggested) by {
      assert !IsSpace(suggested[0]);
    }
    assert ExtractWords(Some(original)) == Tokens(original);
    assert ExtractWords(Some(suggested)) == Tokens(suggested);
    assert HasSpellingCorrections(original, Some(suggested)) == Verdict(false, Some(Mismatch(2, 3)));
    MessageOfTwoAndThree();
  }

  lemma MessageOfTwoAndThree()
    ensures MismatchMessage(Mismatch(2, 3)) == "Word count mismatch: 2 vs 3"
  {
    assert Decimal(2) == "2" && Decimal(3) == "3";
  }

  lemma TokensOfHelloWorld(s: string)
    requires s == "Hello world"
    ensures |Tokens(s)| == 2
  {
    TokensOfWordsAround(s, "Hello", " ", "world");
  }

  lemma TokensOfHelloBeautifulWorld(s: string)
    requires s == "Hello beautiful world"
    ensures |Tokens(s)| == 3
  {
    TokensOfThree(s, "Hello", " ", "beautiful", " ", "world", "");
  }

  /** Two word runs around a separator are two tokens. */
  lemma TokensOfWordsAround(s: string, x: string, sep: string, y: string)
    requires IsToken(x) && IsToken(y) && sep != [] && NoWordChars(sep) && s == x + sep + y
    ensures Tokens(s) == [LowerStr(x), LowerStr(y)]
  {
    TokensAroundSeparator(x, sep, y);
    TokensOfRun(x);
    TokensOfRun(y);
  }
}
