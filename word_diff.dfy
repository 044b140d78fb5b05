/**
 The word-change locator of `proofer/diff.py` (`find_word_changes`). The alignment opcodes
 that `difflib.SequenceMatcher.get_opcodes` produces are an input here, constrained by
 `WellFormed`; the extraction loop over them is modelled as written, including its bounds
 guard, which checks `j1 + k` against the whole corrected token list and not against the
 block end `j2`.
 */
module WordDiff {
  import opened Wrappers
  import opened CharModel
  import opened Tokenizer
  import opened Seqs

  datatype Tag = Replace | Delete | Insert | Equal

  /** `(tag, i1, i2, j1, j2)`: `a[i1..i2]` aligned with `b[j1..j2]`. */
  datatype Opcode = Opcode(tag: Tag, i1: nat, i2: nat, j1: nat, j2: nat)

  /** `{"original": ..., "corrected": ...}`. */
  datatype WordChange = WordChange(original: string, corrected: string)

  /** An index into the original tokens and one into the corrected tokens. */
  datatype Pos = Pos(i: nat, j: nat)

  // ---------------------------------------------------------------------------
  // What difflib guarantees about its opcodes

  predicate BlockOk(op: Opcode, a: seq<string>, b: seq<string>) {
    && op.i1 <= op.i2 <= |a| && op.j1 <= op.j2 <= |b|
    && match op.tag
       case Equal => op.i2 - op.i1 == op.j2 - op.j1 && op.i1 < op.i2 && a[op.i1..op.i2] == b[op.j1..op.j2]
       case Insert => op.i1 == op.i2 && op.j1 < op.j2
       case Delete => op.i1 < op.i2 && op.j1 == op.j2
       case Replace => op.i1 < op.i2 && op.j1 < op.j2
  }

  /** The blocks tile `a[i..]` and `b[j..]` left to right. */
  predicate Tiles(ops: seq<Opcode>, i: nat, j: nat, a: seq<string>, b: seq<string>)
    decreases |ops|
  {
    if ops == [] then i == |a| && j == |b|
    else ops[0].i1 == i && ops[0].j1 == j && BlockOk(ops[0], a, b) && Tiles(ops[1..], ops[0].i2, ops[0].j2, a, b)
  }

  /** Opcodes as `get_opcodes` returns them for token lists `a` and `b`. */
  predicate WellFormed(ops: seq<Opcode>, a: seq<string>, b: seq<string>) {
    && Tiles(ops, 0, 0, a, b)
    && (a == b ==> forall k :: 0 <= k < |ops| ==> ops[k].tag != Replace)
  }

  // ---------------------------------------------------------------------------
  // The positions the extraction loop emits

  /** `range(i2 - i1)` is empty when `i2 <= i1`. */
  function Width(op: Opcode): nat {
    if op.i1 <= op.i2 then op.i2 - op.i1 else 0
  }

  predicate Increasing(ps: seq<Pos>) {
    forall s, t :: 0 <= s < t < |ps| ==> ps[s].i < ps[t].i
  }

  /** Positions emitted by the first `k` rounds of the inner loop over one `replace` block. */
  function BlockPositions(a: seq<string>, b: seq<string>, op: Opcode, k: nat): (ps: seq<Pos>)
    ensures |ps| <= k
  {
    if k == 0 then []
    else
      var prev := BlockPositions(a, b, op, k - 1);
      var i, j := op.i1 + k - 1, op.j1 + k - 1;
      if i < |a| && j < |b| && a[i] != b[j] then prev + [Pos(i, j)] else prev
  }

  /** The inner loop pairs `a[i1 + k]` with `b[j1 + k]`, for increasing `k` below the bound. */
  lemma {:induction false} BlockPositionsRange(a: seq<string>, b: seq<string>, op: Opcode, k: nat)
    ensures var ps := BlockPositions(a, b, op, k);
      && (forall t :: 0 <= t < |ps| ==> op.i1 <= ps[t].i < op.i1 + k && ps[t].j == op.j1 + (ps[t].i - op.i1))
      && Increasing(ps)
  {
    if k > 0 {
      BlockPositionsRange(a, b, op, k - 1);
    }
  }

  function OpPositions(a: seq<string>, b: seq<string>, op: Opcode): seq<Pos> {
    if op.tag == Replace then BlockPositions(a, b, op, Width(op)) else []
  }

  /** Positions emitted over all opcodes, in opcode order. */
  function Positions(a: seq<string>, b: seq<string>, ops: seq<Opcode>): seq<Pos>
    decreases |ops|
  {
    if ops == [] then [] else OpPositions(a, b, ops[0]) + Positions(a, b, ops[1..])
  }

  /** Both indices are in range and the words there differ: what the guard and the test let through. */
  predicate Differs(a: seq<string>, b: seq<string>, p: Pos) {
    p.i < |a| && p.j < |b| && a[p.i] != b[p.j]
  }

  /** Every position a `replace` block emits passes the bounds guard and pairs different words. */
  lemma {:induction false} BlockPositionsDiffer(a: seq<string>, b: seq<string>, op: Opcode, k: nat)
    ensures forall t :: 0 <= t < |BlockPositions(a, b, op, k)| ==> Differs(a, b, BlockPositions(a, b, op, k)[t])
  {
    if k > 0 {
      BlockPositionsDiffer(a, b, op, k - 1);
    }
  }

  /** Every emitted position passes the bounds guard and pairs different words. */
  lemma {:induction false} PositionsDiffer(a: seq<string>, b: seq<string>, ops: seq<Opcode>)
    ensures forall t :: 0 <= t < |Positions(a, b, ops)| ==> Differs(a, b, Positions(a, b, ops)[t])
    decreases |ops|
  {
    if ops != [] {
      PositionsDiffer(a, b, ops[1..]);
      if ops[0].tag == Replace {
        BlockPositionsDiffer(a, b, ops[0], Width(ops[0]));
      }
    }
  }

  /** A word by index, or `""` past the end; every emitted position is in range (`PositionsDiffer`). */
  function WordAt(w: seq<string>, i: nat): string {
    if i < |w| then w[i] else ""
  }

  /** The records for emitted positions. */
  function Records(a: seq<string>, b: seq<string>, ps: seq<Pos>): seq<WordChange> {
    seq(|ps|, t requires 0 <= t < |ps| => WordChange(WordAt(a, ps[t].i), WordAt(b, ps[t].j)))
  }

  /** What `find_word_changes` returns for token lists `a`, `b` and opcodes `ops`. */
  function WordChanges(a: seq<string>, b: seq<string>, ops: seq<Opcode>): seq<WordChange> {
    Records(a, b, Positions(a, b, ops))
  }

  lemma {:induction false} PositionsAppend(a: seq<string>, b: seq<string>, x: seq<Opcode>, y: seq<Opcode>)
    ensures Positions(a, b, x + y) == Positions(a, b, x) + Positions(a, b, y)
    decreases |x|
  {
    if x == [] {
      assert x + y == y;
    } else {
      DropAppend(x, y);
      PositionsAppend(a, b, x[1..], y);
    }
  }

  /** `changes` holds the records for positions `ps`. */
  predicate Matches(a: seq<string>, b: seq<string>, ps: seq<Pos>, changes: seq<WordChange>) {
    && |changes| == |ps|
    && forall t :: 0 <= t < |ps| ==> ps[t].i < |a| && ps[t].j < |b| && changes[t] == WordChange(a[ps[t].i], b[ps[t].j])
  }

  lemma MatchesSnoc(a: seq<string>, b: seq<string>, ps: seq<Pos>, changes: seq<WordChange>, p: Pos)
    requires Matches(a, b, ps, changes) && p.i < |a| && p.j < |b|
    ensures Matches(a, b, ps + [p], changes + [WordChange(a[p.i], b[p.j])])
  {
  }

  lemma MatchesAreRecords(a: seq<string>, b: seq<string>, ps: seq<Pos>, changes: seq<WordChange>)
    requires Matches(a, b, ps, changes)
    ensures changes == Records(a, b, ps)
  {
  }

  /** Every record pairs two different words. */
  lemma RecordsDiffer(a: seq<string>, b: seq<string>, ops: seq<Opcode>)
    ensures forall t :: 0 <= t < |WordChanges(a, b, ops)| ==>
      WordChanges(a, b, ops)[t].original != WordChanges(a, b, ops)[t].corrected
  {
    var ps := Positions(a, b, ops);
    PositionsDiffer(a, b, ops);
    forall t | 0 <= t < |ps| ensures WordChanges(a, b, ops)[t].original != WordChanges(a, b, ops)[t].corrected {
      assert Differs(a, b, ps[t]);
    }
  }

  lemma BlockPositionsStep(a: seq<string>, b: seq<string>, op: Opcode, k: nat)
    ensures var i, j := op.i1 + k, op.j1 + k;
      BlockPositions(a, b, op, k + 1)
      == BlockPositions(a, b, op, k) + (if i < |a| && j < |b| && a[i] != b[j] then [Pos(i, j)] else [])
  {
  }

  /**
   The inner loop of `find_word_changes` over one `replace` block: for `k` in `range(i2 - i1)`,
   append the pair at `i1 + k`, `j1 + k` when both indices are in range and the words differ.
   */
  method ScanReplaceBlock(a: seq<string>, b: seq<string>, op: Opcode, changes: seq<WordChange>, ghost done: seq<Pos>)
    returns (changes': seq<WordChange>, ghost ps: seq<Pos>)
    requires Matches(a, b, done, changes)
    ensures ps == done + BlockPositions(a, b, op, Width(op))
    ensures Matches(a, b, ps, changes')
    ensures changes' == changes + Records(a, b, BlockPositions(a, b, op, Width(op)))
  {
    changes' := changes;
    ps := done;
    for k := 0 to Width(op)
      invariant ps == done + BlockPositions(a, b, op, k)
      invariant Matches(a, b, ps, changes')
    {
      BlockPositionsStep(a, b, op, k);
      if op.i1 + k < |a| && op.j1 + k < |b| {
        var origWord := a[op.i1 + k];
        var corrWord := b[op.j1 + k];
        if origWord != corrWord {
          MatchesSnoc(a, b, ps, changes', Pos(op.i1 + k, op.j1 + k));
          changes' := changes' + [WordChange(origWord, corrWord)];
          ps := ps + [Pos(op.i1 + k, op.j1 + k)];
        }
      }
    }
    MatchesAreRecords(a, b, done, changes);
    MatchesAreRecords(a, b, ps, changes');
    RecordsAppend(a, b, done, BlockPositions(a, b, op, Width(op)));
  }

  /** The outer loop of `find_word_changes`: scan the `replace` blocks in opcode order. */
  method ChangesFromOpcodes(originalWords: seq<string>, correctedWords: seq<string>, ops: seq<Opcode>)
    returns (changes: seq<WordChange>)
    ensures changes == WordChanges(originalWords, correctedWords, ops)
    ensures forall t :: 0 <= t < |changes| ==> changes[t].original != changes[t].corrected
  {
    changes := [];
    ghost var ps: seq<Pos> := [];
    for n := 0 to |ops|
      invariant ps == Positions(originalWords, correctedWords, ops[..n])
      invariant Matches(originalWords, correctedWords, ps, changes)
    {
      var op := ops[n];
      PositionsSnoc(originalWords, correctedWords, ops, n);
      if op.tag == Replace {
        changes, ps := ScanReplaceBlock(originalWords, correctedWords, op, changes, ps);
      }
    }
    assert ops[..|ops|] == ops;
    MatchesAreRecords(originalWords, correctedWords, ps, changes);
    RecordsDiffer(originalWords, correctedWords, ops);
  }

  /** One more opcode scanned adds its own positions at the end. */
  lemma PositionsSnoc(a: seq<string>, b: seq<string>, ops: seq<Opcode>, n: nat)
    requires n < |ops|
    ensures Positions(a, b, ops[..n + 1]) == Positions(a, b, ops[..n]) + OpPositions(a, b, ops[n])
    ensures ops[n].tag != Replace ==> Positions(a, b, ops[..n + 1]) == Positions(a, b, ops[..n])
  {
    assert ops[..n + 1] == ops[..n] + [ops[n]];
    PositionsAppend(a, b, ops[..n], [ops[n]]);
    assert Positions(a, b, [ops[n]]) == OpPositions(a, b, ops[n]) + Positions(a, b, []);
    if ops[n].tag != Replace {
      assert Positions(a, b, ops[..n]) + [] == Positions(a, b, ops[..n]);
    }
  }

  /** `find_word_changes`: tokenize both texts as `extract_words` does, then scan the opcodes. */
  method FindWordChanges(original: string, corrected: string, ops: seq<Opcode>) returns (changes: seq<WordChange>)
    requires WellFormed(ops, Tokens(original), Tokens(corrected))
    ensures changes == WordChanges(Tokens(original), Tokens(corrected), ops)
    ensures forall t :: 0 <= t < |changes| ==> changes[t].original != changes[t].corrected
    ensures |changes| <= |Tokens(original)|
  {
    var originalWords := Tokens(original);
    var correctedWords := Tokens(corrected);
    changes := ChangesFromOpcodes(originalWords, correctedWords, ops);
    CountBound(originalWords, correctedWords, ops);
  }

  // ---------------------------------------------------------------------------
  // Properties of the locator

  function ReplaceWidth(ops: seq<Opcode>): nat
    decreases |ops|
  {
    if ops == [] then 0 else (if ops[0].tag == Replace then Width(ops[0]) else 0) + ReplaceWidth(ops[1..])
  }

  /** At most one record per original-side position of a `replace` block, so at most one per original token. */
  lemma {:induction false} CountBoundFrom(a: seq<string>, b: seq<string>, ops: seq<Opcode>, i: nat, j: nat)
    requires Tiles(ops, i, j, a, b)
    ensures |Positions(a, b, ops)| <= ReplaceWidth(ops) <= |a| - i
    decreases |ops|
  {
    if ops != [] {
      CountBoundFrom(a, b, ops[1..], ops[0].i2, ops[0].j2);
    }
  }

  lemma CountBound(a: seq<string>, b: seq<string>, ops: seq<Opcode>)
    requires WellFormed(ops, a, b)
    ensures |WordChanges(a, b, ops)| <= ReplaceWidth(ops) <= |a|
  {
    CountBoundFrom(a, b, ops, 0, 0);
  }

  /** Records come out in opcode order: their original-side indices strictly increase. */
  lemma {:induction false} PositionsIncreasingFrom(a: seq<string>, b: seq<string>, ops: seq<Opcode>, i: nat, j: nat)
    requires Tiles(ops, i, j, a, b)
    ensures Increasing(Positions(a, b, ops))
    ensures forall t :: 0 <= t < |Positions(a, b, ops)| ==> i <= Positions(a, b, ops)[t].i
    decreases |ops|
  {
    if ops != [] {
      var op := ops[0];
      PositionsIncreasingFrom(a, b, ops[1..], op.i2, op.j2);
      var head, tail := OpPositions(a, b, op), Positions(a, b, ops[1..]);
      BlockPositionsRange(a, b, op, Width(op));
      assert forall t :: 0 <= t < |head| ==> i <= head[t].i < op.i2;
      assert Positions(a, b, ops) == head + tail;
    }
  }

  lemma PositionsIncreasing(a: seq<string>, b: seq<string>, ops: seq<Opcode>)
    requires WellFormed(ops, a, b)
    ensures Increasing(Positions(a, b, ops))
  {
    PositionsIncreasingFrom(a, b, ops, 0, 0);
  }

  function ReplaceOnly(ops: seq<Opcode>): (r: seq<Opcode>)
    ensures forall k :: 0 <= k < |r| ==> r[k].tag == Replace
    decreases |ops|
  {
    if ops == [] then [] else (if ops[0].tag == Replace then [ops[0]] else []) + ReplaceOnly(ops[1..])
  }

  /** `equal`, `insert` and `delete` blocks contribute nothing: only the `replace` blocks count. */
  lemma {:induction false} OnlyReplaceBlocksContribute(a: seq<string>, b: seq<string>, ops: seq<Opcode>)
    ensures Positions(a, b, ops) == Positions(a, b, ReplaceOnly(ops))
    decreases |ops|
  {
    if ops != [] {
      OnlyReplaceBlocksContribute(a, b, ops[1..]);
      var head := if ops[0].tag == Replace then [ops[0]] else [];
      PositionsAppend(a, b, head, ReplaceOnly(ops[1..]));
      if ops[0].tag == Replace {
        assert Positions(a, b, head) == OpPositions(a, b, ops[0]);
      }
    }
  }

  lemma {:induction false} NoReplaceNoPositions(a: seq<string>, b: seq<string>, ops: seq<Opcode>)
    requires forall k :: 0 <= k < |ops| ==> ops[k].tag != Replace
    ensures Positions(a, b, ops) == []
    decreases |ops|
  {
    if ops != [] {
      NoReplaceNoPositions(a, b, ops[1..]);
    }
  }

  /** Equal token lists give no records. */
  lemma EqualTokensNoChanges(a: seq<string>, ops: seq<Opcode>)
    requires WellFormed(ops, a, a)
    ensures WordChanges(a, a, ops) == []
  {
    NoReplaceNoPositions(a, a, ops);
  }

  /** Both words of every record are tokens of the respective text, found as `extract_words` finds them. */
  lemma RecordsAreTokens(original: string, corrected: string, ops: seq<Opcode>)
    ensures var r := WordChanges(Tokens(original), Tokens(corrected), ops);
      forall t :: 0 <= t < |r| ==>
        r[t].original in ExtractWords(Some(original)) && r[t].corrected in ExtractWords(Some(corrected))
  {
    var a, b := Tokens(original), Tokens(corrected);
    var r := WordChanges(a, b, ops);
    var ps := Positions(a, b, ops);
    PositionsDiffer(a, b, ops);
    forall t | 0 <= t < |r|
      ensures r[t].original in ExtractWords(Some(original)) && r[t].corrected in ExtractWords(Some(corrected))
    {
      assert Differs(a, b, ps[t]);
      assert r[t] == WordChange(a[ps[t].i], b[ps[t].j]);
      assert original != "" && corrected != "";
    }
  }

  // ---------------------------------------------------------------------------
  // Against a positional comparison

  /** The change one aligned pair contributes: none when the tokens agree. */
  function DiffAt(u: string, v: string): seq<WordChange> {
    if u != v then [WordChange(u, v)] else []
  }

  /** The differing pairs of two equally long token lists, position by position, left to right. */
  function PositionalDiffs(x: seq<string>, y: seq<string>): seq<WordChange>
    requires |x| == |y|
    decreases |x|
  {
    if x == [] then [] else PositionalDiffs(x[..|x| - 1], y[..|y| - 1]) + DiffAt(x[|x| - 1], y[|y| - 1])
  }

  /** There are no positional differences exactly when the lists are equal. */
  lemma {:induction false} PositionalDiffsEmpty(x: seq<string>, y: seq<string>)
    requires |x| == |y|
    ensures PositionalDiffs(x, y) == [] <==> x == y
    decreases |x|
  {
    if x != [] {
      var n := |x| - 1;
      PositionalDiffsEmpty(x[..n], y[..n]);
      assert x == x[..n] + [x[n]] && y == y[..n] + [y[n]];
    }
  }

  /** The differences of two joined pairs of lists are those of the first pair, then those of the second. */
  lemma {:induction false} PositionalDiffsAppend(x1: seq<string>, y1: seq<string>, x2: seq<string>, y2: seq<string>)
    requires |x1| == |y1| && |x2| == |y2|
    ensures PositionalDiffs(x1 + x2, y1 + y2) == PositionalDiffs(x1, y1) + PositionalDiffs(x2, y2)
    decreases |x2|
  {
    if x2 == [] {
      assert x1 + x2 == x1 && y1 + y2 == y1;
    } else {
      var n := |x2| - 1;
      PositionalDiffsAppend(x1, y1, x2[..n], y2[..n]);
      AppendInit(x1, x2);
      AppendInit(y1, y2);
    }
  }

  /** The differing pairs among `k` aligned positions starting at `a[i]` and `b[j]`, left to right. */
  function DiffsFrom(a: seq<string>, b: seq<string>, i: nat, j: nat, k: nat): seq<WordChange>
    requires i + k <= |a| && j + k <= |b|
    decreases k
  {
    if k == 0 then [] else DiffsFrom(a, b, i, j, k - 1) + DiffAt(a[i + k - 1], b[j + k - 1])
  }

  /** Counting from `a[i]` and `b[j]` is comparing the slices that start there. */
  lemma {:induction false} DiffsFromSlices(a: seq<string>, b: seq<string>, i: nat, j: nat, k: nat)
    requires i + k <= |a| && j + k <= |b|
    ensures DiffsFrom(a, b, i, j, k) == PositionalDiffs(a[i..i + k], b[j..j + k])
    decreases k
  {
    if k > 0 {
      DiffsFromSlices(a, b, i, j, k - 1);
      SliceOfSlice(a, i, k, k - 1);
      SliceOfSlice(b, j, k, k - 1);
      assert a[i..i + k][k - 1] == a[i + k - 1] && b[j..j + k][k - 1] == b[j + k - 1];
    }
  }

  lemma RecordsAppend(a: seq<string>, b: seq<string>, ps: seq<Pos>, qs: seq<Pos>)
    ensures Records(a, b, ps + qs) == Records(a, b, ps) + Records(a, b, qs)
  {
  }

  /** Within a `replace` block the first `k` rounds report the differing pairs of the first `k` positions. */
  lemma {:induction false} BlockIsPositional(a: seq<string>, b: seq<string>, op: Opcode, k: nat)
    requires op.i1 + k <= |a| && op.j1 + k <= |b|
    ensures Records(a, b, BlockPositions(a, b, op, k)) == DiffsFrom(a, b, op.i1, op.j1, k)
  {
    if k > 0 {
      BlockIsPositional(a, b, op, k - 1);
      BlockRecordsStep(a, b, op, k - 1);
    }
  }

  /** One more round of the inner loop appends the change at the next aligned pair, if any. */
  lemma BlockRecordsStep(a: seq<string>, b: seq<string>, op: Opcode, k: nat)
    requires op.i1 + k < |a| && op.j1 + k < |b|
    ensures Records(a, b, BlockPositions(a, b, op, k + 1))
      == Records(a, b, BlockPositions(a, b, op, k)) + DiffAt(a[op.i1 + k], b[op.j1 + k])
  {
    var i, j := op.i1 + k, op.j1 + k;
    var step := if a[i] != b[j] then [Pos(i, j)] else [];
    BlockPositionsStep(a, b, op, k);
    RecordsAppend(a, b, BlockPositions(a, b, op, k), step);
    assert Records(a, b, step) == DiffAt(a[i], b[j]);
  }

  /** Every block is as wide on the original side as on the corrected side. */
  predicate EqualWidths(ops: seq<Opcode>) {
    forall k :: 0 <= k < |ops| ==> ops[k].i2 - ops[k].i1 == ops[k].j2 - ops[k].j1
  }

  /**
   When every block is equally wide on both sides (so the alignment is position for position),
   the records are exactly the positionwise differing pairs, in order.
   */
  lemma {:induction false} PositionalAlignmentFrom(a: seq<string>, b: seq<string>, ops: seq<Opcode>, i: nat)
    requires Tiles(ops, i, i, a, b) && EqualWidths(ops)
    ensures |a| == |b| && i <= |a| && WordChanges(a, b, ops) == PositionalDiffs(a[i..], b[i..])
    decreases |ops|
  {
    if ops == [] {
      assert WordChanges(a, b, ops) == [];
    } else {
      var op, rest := ops[0], ops[1..];
      assert op.j2 == op.i2;
      assert EqualWidths(rest);
      PositionalAlignmentFrom(a, b, rest, op.i2);
      BlockOfAlignment(a, b, op, i);
      HeadTail(ops);
      AlignmentSplit(a, b, op, rest, i);
    }
  }

  /** One equally wide block reports the positional differences inside it. */
  lemma BlockOfAlignment(a: seq<string>, b: seq<string>, op: Opcode, i: nat)
    requires op.i1 == i && op.j1 == i && BlockOk(op, a, b) && op.i2 - op.i1 == op.j2 - op.j1
    ensures Records(a, b, OpPositions(a, b, op)) == PositionalDiffs(a[i..op.i2], b[i..op.i2])
  {
    if op.tag == Replace {
      BlockIsPositional(a, b, op, op.i2 - i);
      DiffsFromSlices(a, b, i, i, op.i2 - i);
    } else if op.tag == Equal {
      PositionalDiffsEmpty(a[i..op.i2], b[i..op.i2]);
    } else {
      assert false;
    }
  }

  /** The first block's differences followed by those of the rest are those of the whole stretch. */
  lemma AlignmentSplit(a: seq<string>, b: seq<string>, op: Opcode, rest: seq<Opcode>, i: nat)
    requires op.i1 == i && op.j1 == i && op.i2 == op.j2 && i <= op.i2 <= |a| && |a| == |b|
    requires Records(a, b, OpPositions(a, b, op)) == PositionalDiffs(a[i..op.i2], b[i..op.i2])
    requires WordChanges(a, b, rest) == PositionalDiffs(a[op.i2..], b[op.i2..])
    ensures WordChanges(a, b, [op] + rest) == PositionalDiffs(a[i..], b[i..])
  {
    var head := OpPositions(a, b, op);
    PositionsCons(a, b, op, rest);
    RecordsAppend(a, b, head, Positions(a, b, rest));
    PositionalDiffsAppend(a[i..op.i2], b[i..op.i2], a[op.i2..], b[op.i2..]);
    SliceSplit(a, i, op.i2);
    SliceSplit(b, i, op.i2);
  }

  lemma PositionsCons(a: seq<string>, b: seq<string>, op: Opcode, rest: seq<Opcode>)
    ensures Positions(a, b, [op] + rest) == OpPositions(a, b, op) + Positions(a, b, rest)
  {
    assert ([op] + rest)[1..] == rest;
  }

  /** With equally wide blocks, `find_word_changes` is the position-for-position comparison. */
  lemma PositionalAlignment(a: seq<string>, b: seq<string>, ops: seq<Opcode>)
    requires WellFormed(ops, a, b) && EqualWidths(ops)
    ensures |a| == |b| && WordChanges(a, b, ops) == PositionalDiffs(a, b)
  {
    PositionalAlignmentFrom(a, b, ops, 0);
    assert a[0..] == a && b[0..] == b;
  }

  // ---------------------------------------------------------------------------
  // Concrete alignments

  /**
   `"Helo wrold tset"` against `"Hello world test"`: with the one `replace` block that aligns
   the two token lists, three records in order.
   */
  lemma ThreeMisspellings(original: string, corrected: string, ops: seq<Opcode>)
    requires original == "Helo wrold tset" && corrected == "Hello world test"
    requires ops == [Opcode(Replace, 0, 3, 0, 3)]
    ensures WellFormed(ops, Tokens(original), Tokens(corrected))
    ensures WordChanges(Tokens(original), Tokens(corrected), ops)
      == [WordChange("helo", "hello"), WordChange("wrold", "world"), WordChange("tset", "test")]
  {
    MisspellingPieces();
    TokensOfThree(original, "Helo", " ", "wrold", " ", "tset", "");
    TokensOfThree(corrected, "Hello", " ", "world", " ", "test", "");
    ThreeMisspelledTokens(Tokens(original), Tokens(corrected), ops);
  }

  lemma MisspellingPieces()
    ensures IsToken("Helo") && IsToken("wrold") && IsToken("tset") && NoWordChars(" ") && NoWordChars("")
    ensures IsToken("Hello") && IsToken("world") && IsToken("test")
    ensures LowerStr("Helo") == "helo" && LowerStr("wrold") == "wrold" && LowerStr("tset") == "tset"
    ensures LowerStr("Hello") == "hello" && LowerStr("world") == "world" && LowerStr("test") == "test"
  {
  }

  lemma ThreeMisspelledTokens(a: seq<string>, b: seq<string>, ops: seq<Opcode>)
    requires a == ["helo", "wrold", "tset"] && b == ["hello", "world", "test"]
    requires ops == [Opcode(Replace, 0, 3, 0, 3)]
    ensures WellFormed(ops, a, b)
    ensures WordChanges(a, b, ops)
      == [WordChange("helo", "hello"), WordChange("wrold", "world"), WordChange("tset", "test")]
  {
    assert Tiles(ops[1..], 3, 3, a, b);
    assert BlockPositions(a, b, ops[0], 3) == [Pos(0, 0), Pos(1, 1), Pos(2, 2)] by {
      assert BlockPositions(a, b, ops[0], 1) == [Pos(0, 0)];
      assert BlockPositions(a, b, ops[0], 2) == [Pos(0, 0), Pos(1, 1)];
    }
    assert Positions(a, b, ops) == OpPositions(a, b, ops[0]) + Positions(a, b, []);
  }

  /**
   The bounds guard checks `j1 + k` against the whole corrected list, not against `j2`: aligning
   `teh big cat` with `the cat` (a `replace` of two words by one, then an `equal` block) pairs
   `big` with `cat`, a corrected word that lies past the `replace` block.
   */
  lemma PairingPastTheBlock(a: seq<string>, b: seq<string>, ops: seq<Opcode>)
    requires a == ["teh", "big", "cat"] && b == ["the", "cat"]
    requires ops == [Opcode(Replace, 0, 2, 0, 1), Opcode(Equal, 2, 3, 1, 2)]
    ensures WellFormed(ops, a, b)
    ensures WordChanges(a, b, ops) == [WordChange("teh", "the"), WordChange("big", "cat")]
    ensures Positions(a, b, ops)[1].j >= ops[0].j2
  {
    PairingTiles(a, b, ops);
    PairingPositions(a, b, ops);
  }

  lemma PairingTiles(a: seq<string>, b: seq<string>, ops: seq<Opcode>)
    requires a == ["teh", "big", "cat"] && b == ["the", "cat"]
    requires ops == [Opcode(Replace, 0, 2, 0, 1), Opcode(Equal, 2, 3, 1, 2)]
    ensures WellFormed(ops, a, b)
  {
    assert a[2..3] == b[1..2];
    assert Tiles(ops[1..], 2, 1, a, b) by {
      assert Tiles(ops[2..], 3, 2, a, b);
    }
  }

  lemma PairingPositions(a: seq<string>, b: seq<string>, ops: seq<Opcode>)
    requires a == ["teh", "big", "cat"] && b == ["the", "cat"]
    requires ops == [Opcode(Replace, 0, 2, 0, 1), Opcode(Equal, 2, 3, 1, 2)]
    ensures Positions(a, b, ops) == [Pos(0, 0), Pos(1, 1)]
  {
    var op := ops[0];
    BlockPositionsStep(a, b, op, 0);
    BlockPositionsStep(a, b, op, 1);
    assert OpPositions(a, b, op) == [Pos(0, 0), Pos(1, 1)];
    PositionsCons(a, b, op, ops[1..]);
    PositionsCons(a, b, ops[1], []);
    assert ops == [op] + ops[1..] && ops[1..] == [ops[1]] + [];
  }
}
