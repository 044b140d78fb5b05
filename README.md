# proofer, modelled in Dafny

proofer is a command-line markdown proofreader. It loads a document (or takes literal text)
and asks a language model for a spelling-corrected copy. It accepts the reply only when it
looks like an in-place fix: same number of words, at least one word different. It then strips
trailing whitespace from the reply, shows the word-level changes, asks for approval, and
overwrites the file after renaming the original to a `.bak.mdx` backup.

This project models that core and proves properties about it:

| file | module | models |
|---|---|---|
| `wrappers.dfy` | `Wrappers` | `Option` and `Result` |
| `chars.dfy` | `CharModel` | `\w`, `str.lower`, `str.isspace`, the `str.splitlines` boundaries |
| `tokenizer.dfy` | `Tokenizer` | `extract_words` and the identical tokenisation of `find_word_changes` |
| `classifier.dfy` | `Classifier` | `has_spelling_corrections` |
| `normalizer.dfy` | `Normalizer` | `normalize_line_endings`, `splitlines`, `rstrip`, `"\n".join` |
| `word_diff.dfy` | `WordDiff` | `find_word_changes`, given the opcodes of the sequence matcher |
| `agreement.dfy` | `Agreement` | how normaliser, classifier and word-change locator fit together |
| `pipeline.dfy` | `Pipeline` | the nodes, routing and edges of `proofer/agent.py`, and the file system |

Modelling choices:

- **Tokens.** A token is a maximal run of word characters, lower-cased.
  `re.findall(r"\b\w+\b", ...)` finds exactly these runs.
- **Word changes.** `difflib.SequenceMatcher` is not modelled. Its opcodes are an input,
  constrained by `WordDiff.WellFormed`:
  - the blocks tile both token lists in order;
  - each tag's block shape holds, and `equal` blocks really are equal;
  - two equal lists get no `replace` block.

  The extraction loop is modelled as written, including its guard `j1 + k < len(corrected)`.
  That guard lets a `replace` block that is narrower on the corrected side pair words past
  the block's end (`WordDiff.PairingPastTheBlock`).
- **Session state.** The state is a record of optional fields. A key that was never set is
  `None`, and a node that indexes a missing key fails with `MissingKey`.
- **File system.** The file system is a `FileSystem` object. Its `files` map from path to
  content is reassigned by `Rename` and `WriteText`. A ghost log records the order of the
  mutations.
- **Inputs.** The language model's reply, the answer to the confirmation prompt and the
  aligner are parameters of `Pipeline.FileSystem.Run`.
- **Code over tests and documentation.** Where the code and its tests or documentation
  disagree, the model follows the code:
  - `"123"` is a token, as `\w+` makes it, although the test at
    `tests/test_text_utils.py:32-35` expects it to be dropped;
  - the normaliser is idempotent only when the final newline is preserved
    (`Normalizer.NormalizeIdempotent`). With `preserve_final_newline=False` it is not
    (`Normalizer.NormalizeWithoutFinalNewlineNotIdempotent`);
  - with the final newline preserved, a reply can still gain a final `\n`. `"a\n "` becomes
    `"a\n"`: the last line is blank, and `splitlines` keeps the boundary before it.
  - with the final newline preserved, the output can end in more than one `\n`, although
    the normaliser is documented to leave exactly one line terminator:
    `"a\n\n"` stays `"a\n\n"` (`Normalizer.NormalizeKeepsBlankLastLine`).

## Model

| member | source | states |
|---|---|---|
| CharModel.Lower | proofer/text_utils.py:9 | lower-casing maps `A`..`Z` onto `a`..`z` and fixes every other character, so it keeps the word-character class |
| CharModel.LowerStr | proofer/text_utils.py:9 | `text.lower()` keeps the length and lower-cases each character in place |
| CharModel.CharClasses | proofer/text_utils.py:32-33 | every `splitlines` boundary is whitespace for `rstrip`, and no whitespace is a word character |
| CharModel.LowerIdempotent | proofer/text_utils.py:9 | lower-casing twice is lower-casing once |
| Tokenizer.RunLen | proofer/text_utils.py:9 | the run measured is the longest word-character prefix |
| Tokenizer.Words | proofer/text_utils.py:9 | defines `re.findall(r"\b\w+\b", ...)` as the maximal word-character runs, left to right; `WordsOfLayout` and `LayoutOfWords` below characterise it completely |
| Tokenizer.Tokens | proofer/diff.py:7-8 | defines the tokens of a present string as the runs of its lower-cased text; `TokensAreLowerCase` and `ExtractWordsLowerInvariant` state what lower-casing first gives |
| Tokenizer.ExtractWords | proofer/text_utils.py:4-10 | defines `extract_words`: `None` and `""` give `[]`, any other text its tokens; `ExtractWordsOfBlank` adds that whitespace-only text gives `[]` too |
| Tokenizer.WordsAreTokens | proofer/text_utils.py:9 | every token found is a non-empty run of word characters |
| Tokenizer.WordsFromText | proofer/text_utils.py:9 | every character of every token occurs in the text |
| Tokenizer.TokensAreLowerCase | proofer/text_utils.py:9 | tokens of the lower-cased text are lower-case: lower-casing any of their characters changes nothing |
| Tokenizer.WordsAppend | proofer/text_utils.py:9 | text cut where no word can continue tokenizes as the concatenation of its two parts' tokens |
| Tokenizer.TokensAppend | proofer/diff.py:7-8 | the same for lower-cased tokens |
| Tokenizer.WordsOfSeparator | proofer/text_utils.py:9 | text without word characters has no tokens |
| Tokenizer.TokensOfSeparator | proofer/diff.py:7-8 | text without word characters has no tokens, whatever its case |
| Tokenizer.WordsOfRun | proofer/text_utils.py:9 | one run of word characters is exactly one token |
| Tokenizer.WordsOfLayout | proofer/text_utils.py:9 | text laid out as separators alternating with word runs tokenizes to exactly those runs |
| Tokenizer.LayoutOfWords | proofer/text_utils.py:9 | conversely, every text is such a layout of its own tokens, so `WordsOfLayout` characterises the tokenizer completely |
| Tokenizer.ExtractWordsOfBlank | proofer/text_utils.py:6-7 | absent, empty and whitespace-only text has no words |
| Tokenizer.ExtractWordsLowerInvariant | proofer/text_utils.py:9 | lower-casing the text beforehand changes no result |
| Tokenizer.ExtractWordsPunctuation | proofer/text_utils.py:4-10 | `"Hello, world! How are you?"` gives `hello, world, how, are, you` |
| Tokenizer.ExtractWordsDigits | proofer/text_utils.py:4-10 | `"test_var 123 hello_world"` gives `test_var, 123, hello_world` |
| Classifier.AnyDiffers | proofer/text_utils.py:25 | true exactly when some position shared by both lists holds different words |
| Classifier.HasSpellingCorrections | proofer/text_utils.py:13-26 | blank replies are no correction; a word-count mismatch is none and reports both counts; otherwise a correction exactly when some word differs |
| Classifier.CorrectionsMeanSameCountAndADifference | proofer/text_utils.py:13-26 | a correction implies a non-blank reply with as many tokens as the original, one of them different |
| Classifier.CaseOnlyChangeIsNoCorrection | proofer/text_utils.py:18-26 | a reply that matches the original up to letter case is never a correction |
| Classifier.Decimal | proofer/text_utils.py:22 | a count is written as non-empty decimal digits without a leading zero |
| Classifier.DecimalValue | proofer/text_utils.py:22 | the digits written for a count denote that count, so `str(n)` is read back as `n` |
| Classifier.DecimalInjective | proofer/text_utils.py:22 | different counts are written differently |
| Classifier.MismatchMessage | proofer/text_utils.py:22 | defines the printed line `Word count mismatch: n vs m`; `MismatchMessageInjective` states that it names both counts |
| Classifier.MismatchMessageInjective | proofer/text_utils.py:22 | two mismatches printed with the same line have the same original and the same suggested count |
| Classifier.MismatchExample | proofer/text_utils.py:21-23 | `"Hello world"` against `"Hello beautiful world"` is no correction, with the message `Word count mismatch: 2 vs 3` |
| Normalizer.LineLen | proofer/text_utils.py:32 | a line runs up to the first line boundary, and no boundary lies inside it |
| Normalizer.SplitLines | proofer/text_utils.py:32 | defines `text.splitlines()`: cut at every line boundary (`\r\n` counting as one), a final boundary opening no line; `SplitLinesHaveNoBreaks` and `SplitJoin` state its meaning |
| Normalizer.SplitLinesKeepEnds | proofer/agent.py:66-67 | defines `splitlines(keepends=True)`: the same cut, each line keeping its boundary; `ConcatSplitLinesKeepEnds` states that the pieces rebuild the text |
| Normalizer.SplitLinesHaveNoBreaks | proofer/text_utils.py:32 | no line that `splitlines` returns holds a line boundary |
| Normalizer.ConcatSplitLinesKeepEnds | proofer/agent.py:67-73 | joining the lines split with their endings rebuilds the text exactly |
| Normalizer.Concat | proofer/agent.py:73 | defines `"".join(parts)`, the left-to-right concatenation |
| Normalizer.RStrip | proofer/text_utils.py:33 | the stripped line is a prefix of the line; everything it drops is whitespace; it ends in non-whitespace |
| Normalizer.StrippedLines | proofer/text_utils.py:31-33 | one stripped line per line of the text, in order |
| Normalizer.JoinLines | proofer/text_utils.py:36-38 | defines `"\n".join(lines)`; `SplitJoin` and `JoinLinesLast` state what the join keeps |
| Normalizer.Normalized | proofer/text_utils.py:29-38 | defines the value `normalize_line_endings` returns; `NormalizeLineEndings` is proved to compute it, and the lemmas below state its properties |
| Normalizer.NormalizeLineEndings | proofer/text_utils.py:29-38 | the loop returns the normalised text: the empty text stays empty, and a final newline is added exactly when requested and present |
| Normalizer.SplitJoinNewline | proofer/text_utils.py:36 | splitting a `\n`-join that ends in `\n` gives the joined lines back |
| Normalizer.SplitJoin | proofer/text_utils.py:38 | splitting a `\n`-join gives the lines back, except a last empty one |
| Normalizer.JoinLinesLast | proofer/text_utils.py:35-38 | a `\n`-join ends in `\n` exactly when its last line is empty and not the only one |
| Normalizer.StrippedAreCleanLines | proofer/text_utils.py:32-33 | every stripped line is free of line boundaries and trailing whitespace |
| Normalizer.StrippedLinesKeepInterior | proofer/text_utils.py:32-33 | each stripped line is a prefix of its line, drops only whitespace, and ends clean |
| Normalizer.NormalizedLinesAreClean | proofer/text_utils.py:29-38 | no line of the normalised text ends in whitespace |
| Normalizer.NormalizeIdempotent | proofer/text_utils.py:29-38 | normalising twice with the final newline preserved equals normalising once |
| Normalizer.NormalizeWithoutFinalNewlineNotIdempotent | proofer/text_utils.py:35-38 | without that flag it is not idempotent: `"a\n\n"` gives `"a\n"`, then `"a"` |
| Normalizer.NormalizeCanGainFinalNewline | proofer/text_utils.py:32-36 | with the final newline preserved, `"a\n "`, which does not end in `\n`, becomes `"a\n"`, which does |
| Normalizer.NormalizeKeepsBlankLastLine | proofer/text_utils.py:32-36 | with the final newline preserved, `"a\n\n"` is returned unchanged, ending in two newlines |
| WordDiff.WellFormed | proofer/diff.py:11-13 | defines what `get_opcodes` guarantees: blocks tile both token lists left to right, `equal` blocks cover equal words, `insert`/`delete`/`replace` have the widths their tags say, and equal lists have no `replace` |
| WordDiff.WordChanges | proofer/diff.py:13-22 | defines the result of `find_word_changes` as the records of the positions the loop emits; `ChangesFromOpcodes` is proved to compute it |
| WordDiff.BlockPositions | proofer/diff.py:14-18 | the inner loop emits at most one position per round |
| WordDiff.BlockPositionsDiffer | proofer/diff.py:16-17 | every position a `replace` block emits passes the bounds guard and pairs two different words |
| WordDiff.BlockPositionsRange | proofer/diff.py:14-16 | positions of one block lie in `[i1, i2)` on the original side, pair `i1 + k` with `j1 + k`, and increase |
| WordDiff.PositionsDiffer | proofer/diff.py:13-18 | every emitted pair is in range of both lists and pairs two different words |
| WordDiff.ScanReplaceBlock | proofer/diff.py:14-19 | the inner loop appends to the changes found so far exactly the records of the block's specified positions, in order |
| WordDiff.ChangesFromOpcodes | proofer/diff.py:13-20 | the nested loop returns the records of the specified positions, each pairing two different words |
| WordDiff.FindWordChanges | proofer/diff.py:5-22 | on well-formed opcodes for the two texts' tokens, the result is the specified records: differing pairs, at most as many as the original has tokens |
| WordDiff.CountBound | proofer/diff.py:13-18 | no more changes than the total width of the `replace` blocks, which is at most the original token count |
| WordDiff.PositionsIncreasing | proofer/diff.py:13-18 | changes come in strictly increasing original-token order |
| WordDiff.OnlyReplaceBlocksContribute | proofer/diff.py:14 | dropping every non-`replace` opcode changes nothing |
| WordDiff.RecordsDiffer | proofer/diff.py:17-19 | every record pairs two different words |
| WordDiff.EqualTokensNoChanges | proofer/diff.py:13-20 | identical token lists yield no change |
| WordDiff.RecordsAreTokens | proofer/diff.py:17-19 | every record's words are among the words extracted from the original and from the corrected text |
| WordDiff.PositionalDiffsEmpty | proofer/diff.py:17-19 | position-for-position differences are empty exactly when the lists are equal |
| WordDiff.PositionalDiffsAppend | proofer/diff.py:17-19 | the positional differences of two joined pairs of lists are those of the first pair followed by those of the second |
| WordDiff.BlockIsPositional | proofer/diff.py:14-19 | the first `k` rounds of a `replace` block report the differing pairs among its first `k` aligned positions, in order |
| WordDiff.PositionalAlignment | proofer/diff.py:13-20 | with blocks equally wide on both sides, the changes are exactly the positionwise differing pairs |
| WordDiff.ThreeMisspellings | proofer/diff.py:5-22 | the texts `"Helo wrold tset"` and `"Hello world test"` tokenize to three words each, and one `replace` block over them gives the three changes `helo`/`hello`, `wrold`/`world`, `tset`/`test`, in order |
| WordDiff.PairingPastTheBlock | proofer/diff.py:16 | a `replace` block narrower on the corrected side pairs `big` with the `cat` after the block |
| Agreement.TokensOfSplitLines | proofer/text_utils.py:32 | a text's tokens are its lines' tokens, in order |
| Agreement.TokensOfJoinLines | proofer/text_utils.py:36-38 | a `\n`-join's tokens are its lines' tokens, in order |
| Agreement.TokensOfRStrip | proofer/text_utils.py:33 | stripping a line keeps its tokens |
| Agreement.TokensOfNormalized | proofer/text_utils.py:29-38 | normalising never changes a text's tokens |
| Agreement.ChangesIffCorrections | proofer/agent.py:54-57 | with an alignment pairing tokens position for position, the word changes of the normalised reply are non-empty exactly when the reply was classified as a correction, blank replies included |
| Agreement.ShiftedWordsReportNoChange | proofer/diff.py:13-20 | `"x y"` against `"y z"` is a correction, yet its delete/equal/insert opcodes yield no word change |
| Pipeline.CliStart | proofer/cli.py:14-15 | the command-line start reads the file at `path`, and asks for approval exactly when `--yes` was not given |
| Pipeline.UiStart | scripts/ui.py:105-108 | the web start takes non-empty text as the original, fails on the missing `path` key for empty text, and never asks for approval |
| Pipeline.RouteAfterLlm | proofer/agent.py:123-127 | routes to the diff exactly when corrections were found, else to the no-corrections node |
| Pipeline.Next | proofer/agent.py:140-145 | defines the edges `build_graph` adds, with the conditional edge after `call_llm` given by `RouteAfterLlm` |
| Pipeline.Walk | proofer/agent.py:139-146 | defines the nodes a run visits from a node by following `Next`; `GraphPaths` states the two walks |
| Pipeline.GraphPaths | proofer/agent.py:140-145 | a run walks load, call, diff, print, approve, write with corrections, and load, call, no-corrections without them, never reaching approve or write |
| Pipeline.ClassifyReply | proofer/agent.py:51-62 | records the verdict; a correction is stored normalised, with a final newline only if the original had one; anything else becomes `""` |
| Pipeline.CorrectionKeepsTokens | proofer/agent.py:54-57 | a stored correction has the reply's tokens: as many as the original, one different, no line ending in whitespace |
| Pipeline.ComputeDiff | proofer/agent.py:65-73 | the corrected text is the response itself; missing keys fail in the order the node reads them |
| Pipeline.ApproveChanges | proofer/agent.py:92-97 | auto-approval or literal input approves without asking; otherwise the prompt is asked and its answer is the approval |
| Pipeline.NameStart | proofer/agent.py:104 | `PurePath.name` starts after the last `/`: no `/` follows that point |
| Pipeline.SuffixStart | proofer/agent.py:104 | `PurePath.suffix` starts at the last dot of the name, unless that dot starts or ends the name; no suffix means there is no such dot |
| Pipeline.BackupPath | proofer/agent.py:104 | replaces the name's suffix by `.bak.mdx` (or appends it), keeping the directory; an empty name is an error |
| Pipeline.BackupPathDiffers | proofer/agent.py:104-106 | the backup path is never the path itself, so the rename never clobbers the file it saves |
| Pipeline.BackupOfSuffixed | proofer/agent.py:104 | a name `stem.ext` with a dot-free `ext` is backed up as `stem.bak.mdx` in the same directory |
| Pipeline.BackupOfPlain | proofer/agent.py:104 | a name without a dot gets `.bak.mdx` appended, in the same directory |
| Pipeline.BackupOfNotes | proofer/agent.py:104 | `notes.md` becomes `notes.bak.mdx` |
| Pipeline.BackupOfPost | proofer/agent.py:104 | `docs/post.mdx` becomes `docs/post.bak.mdx` |
| Pipeline.BackupOfArchive | proofer/agent.py:104 | only the last suffix is replaced: `archive.tar.gz` becomes `archive.tar.bak.mdx` |
| Pipeline.BackupOfReadme | proofer/agent.py:104 | `README` becomes `README.bak.mdx` |
| Pipeline.BackupOfDotfile | proofer/agent.py:104 | a leading dot is no suffix: `docs/.profile` becomes `docs/.profile.bak.mdx` |
| Pipeline.BackupOfRoot | proofer/agent.py:104 | `/` has an empty name and no backup path |
| Pipeline.FileSystem.LoadFile | proofer/agent.py:21-27 | truthy literal text is the original; otherwise the file at `path` is read; a missing key or unreadable path fails |
| Pipeline.FileSystem.Rename | proofer/agent.py:105 | moves the content to the target, replacing it, and fails on a missing source |
| Pipeline.FileSystem.WriteText | proofer/agent.py:106 | creates or overwrites the file |
| Pipeline.FileSystem.WriteFile | proofer/agent.py:100-115 | only with approval and a path: rename to the backup first, then write the corrected text; otherwise no file changes, and approval without a path still fails on a missing `corrected_text` |
| Pipeline.FileSystem.Run | proofer/agent.py:130-146 | the routing flag is the classifier's verdict on the reply against the loaded text, and the visited nodes follow the graph; without corrections no file changes; with them, the stored text is the normalised reply with the reply's tokens, and the file is replaced exactly when approved; a run that fails leaves every file and the mutation log as they were |
| Pipeline.WholeBlockSound | proofer/diff.py:11-13 | an aligner meeting the opcode requirements of `Run` exists |

## Left out

- The language-model call (`client.chat.completions.create`) is outside the model. Its reply is a parameter of `Run`.
- The interactive prompt (`Confirm.ask`) is outside the model. Its answer is a boolean parameter.
- Console output is not modelled:
  - `print_diff_node`'s display, `display.py` and `no_corrections_node`'s message;
  - the echo of the corrected text when there is no path;
  - the mismatch line, which `Classifier.HasSpellingCorrections` returns as a diagnostic value.
- `difflib.SequenceMatcher` is not modelled. Its opcodes are an input, constrained by `WordDiff.WellFormed`; which alignment it picks among the valid ones is not captured.
- `difflib.unified_diff` and the `diff_lines` field are not modelled. Nothing in the core reads them.
- langgraph's graph engine is not modelled. `Pipeline.Next` gives the edges and `Run` visits them in sequence.
- Characters: `\w` and `str.lower` are modelled on ASCII only. Unicode letters, digits and case mappings that change length are outside the model.
- Pipeline.BackupPath: assumes a path in normal form. pathlib's removal of trailing `/` and `.` components is not modelled. The suffix rule is the classic `PurePath.suffix` one, under which a name ending in `.` has no suffix.
- Pipeline.FileSystem.LoadFile: the only read error modelled is the unreadable path. Decoding errors and permissions are not.
- Pipeline.FileSystem.Rename: a failing rename is modelled only as a missing source. Permissions and cross-device moves are not.
- Pipeline.FileSystem.WriteFile: of the write failures, only a missing `corrected_text` (`MissingKey`) is modelled. It is reported both when the file is written and when there is no path and the text is only echoed. Failures of `write_text` itself are not modelled.
- Normalizer.NormalizeLineEndings: `preserve_final_newline` has no default value here. Every call passes it explicitly, as `call_openai_node` does; the default `True` of `normalize_line_endings` is not modelled.
- Input handling: a `path` set to `None` is treated as a missing key. Python would raise a `TypeError` instead.
- WordDiff.ScanReplaceBlock and WordDiff.ChangesFromOpcodes are one nested loop in `find_word_changes`. They are split into two methods only to keep each proof small.
- The command-line and web front ends (`cli.py`, `scripts/`) are modelled only by the initial state they pass (`Pipeline.CliStart`, `Pipeline.UiStart`). Their argument parsing and display are not part of this model.
