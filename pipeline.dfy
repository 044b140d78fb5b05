/**
 The pipeline of `proofer/agent.py`: `load_file → call_llm → route → (diff → print → approve →
 write | no_corrections)`. Each node is a record update of the session state. The model's
 reply, the answer to the confirmation prompt and the alignment opcodes are inputs; the file
 system is a map from path to content held by a `FileSystem` object whose methods rename and
 write.
 */
module Pipeline {
  import opened Wrappers
  import opened CharModel
  import opened Tokenizer
  import opened Classifier
  import opened Normalizer
  import opened WordDiff
  import opened Agreement
  import opened Seqs

  /**
   The session record (`AgentState` in `proofer/state.py`, plus the `input_text` key the
   callers set). A key that was never set reads as `None`, as `state.get` does.
   */
  datatype AgentState = AgentState(
    path: Option<string>,
    inputText: Option<string>,
    originalText: Option<string>,
    llmResponse: Option<string>,
    correctedText: Option<string>,
    approved: Option<bool>,
    autoApprove: Option<bool>,
    hasCorrections: Option<bool>)

  /** What a run can fail with: a missing key, a file that cannot be read or renamed, a path with no name. */
  datatype Failure = MissingKey(key: string) | CannotRead(path: string) | CannotRename(path: string) | EmptyName(path: string)

  /** Python truthiness of an optional string and of an optional flag. */
  predicate Truthy(s: Option<string>) {
    s.Some? && s.value != ""
  }

  predicate IsSet(b: Option<bool>) {
    b == Some(true)
  }

  /** The initial state a caller passes: a file path, or literal text, and the auto-approve flag. */
  function InitialState(path: Option<string>, inputText: Option<string>, autoApprove: bool): AgentState {
    AgentState(path, inputText, None, None, None, None, Some(autoApprove), None)
  }

  /**
   The command-line start, `{"path": file_path, "auto_approve": yes}`: the file is read, and the
   prompt is asked exactly when `--yes` was not given.
   */
  lemma CliStart(fs: FileSystem, path: string, yes: bool, answer: bool)
    ensures var s := InitialState(Some(path), None, yes);
      && fs.LoadFile(s) == (if path != "" && path in fs.files then Ok(s.(originalText := Some(fs.files[path])))
                            else Err(CannotRead(path)))
      && ApproveChanges(s, answer) == Approval(s.(approved := Some(yes || answer)), !yes)
  {
  }

  /**
   The start of the web interface, `{"input_text": text, "auto_approve": flag}`: non-empty text is
   the original, empty text falls back to the missing `path` key, and the prompt is never asked.
   */
  lemma UiStart(fs: FileSystem, text: string, autoApprove: bool, answer: bool)
    ensures var s := InitialState(None, Some(text), autoApprove);
      && (text != "" ==> fs.LoadFile(s) == Ok(s.(originalText := Some(text))))
      && (text == "" ==> fs.LoadFile(s) == Err(MissingKey("path")))
      && ApproveChanges(s, answer) == Approval(s.(approved := Some(true)), false)
  {
  }

  // ---------------------------------------------------------------------------
  // The graph

  datatype Node = Load | CallLlm | Diff | Print | Approve | Write | NoCorrections | End

  /** `route_after_llm`: on to the diff when corrections were found, else to the no-corrections node. */
  function RouteAfterLlm(state: AgentState): (next: Node)
    ensures next == Diff || next == NoCorrections
    ensures next == Diff <==> IsSet(state.hasCorrections)
  {
    if IsSet(state.hasCorrections) then Diff else NoCorrections
  }

  /** The edges `build_graph` adds; `state` is the state leaving `node`. */
  function Next(node: Node, state: AgentState): Node {
    match node
    case Load => CallLlm
    case CallLlm => RouteAfterLlm(state)
    case Diff => Print
    case Print => Approve
    case Approve => Write
    case Write => End
    case NoCorrections => End
    case End => End
  }

  /** The nodes visited from `node` when the classification outcome is `state`'s, for at most `fuel` steps. */
  function Walk(node: Node, state: AgentState, fuel: nat): seq<Node>
    decreases fuel
  {
    if node == End || fuel == 0 then [] else [node] + Walk(Next(node, state), state, fuel - 1)
  }

  /**
   A run visits `load_file, call_llm, diff, print, approve, write` when corrections were found
   and `load_file, call_llm, no_corrections` otherwise: the no-corrections branch never reaches
   the approval or the write.
   */
  lemma GraphPaths(state: AgentState)
    ensures IsSet(state.hasCorrections) ==> Walk(Load, state, 10) == [Load, CallLlm, Diff, Print, Approve, Write]
    ensures !IsSet(state.hasCorrections) ==> Walk(Load, state, 10) == [Load, CallLlm, NoCorrections]
    ensures !IsSet(state.hasCorrections) ==> Approve !in Walk(Load, state, 10) && Write !in Walk(Load, state, 10)
  {
    if IsSet(state.hasCorrections) {
      assert Walk(Write, state, 5) == [Write];
      assert Walk(Approve, state, 6) == [Approve, Write];
      assert Walk(Print, state, 7) == [Print, Approve, Write];
      assert Walk(Diff, state, 8) == [Diff, Print, Approve, Write];
    } else {
      assert Walk(NoCorrections, state, 8) == [NoCorrections];
    }
  }

  // ---------------------------------------------------------------------------
  // The pure nodes

  /**
   The post-processing in `call_openai_node`: classify the reply against the original text; a
   genuine correction is normalised, keeping a final newline only when the original had one;
   anything else becomes the empty response.
   */
  function ClassifyReply(state: AgentState, reply: Option<string>): (r: Result<AgentState, Failure>)
    ensures state.originalText == None ==> r == Err(MissingKey("original_text"))
    ensures state.originalText.Some? ==> (r.Ok? &&
      var original := state.originalText.value;
      var has := HasSpellingCorrections(original, reply).hasCorrections;
      && r.value == state.(llmResponse := r.value.llmResponse, hasCorrections := Some(has))
      && (has ==> reply.Some? && r.value.llmResponse == Some(Normalized(reply.value, EndsWithNewline(original))))
      && (!has ==> r.value.llmResponse == Some("")))
  {
    if state.originalText == None then Err(MissingKey("original_text"))
    else
      var original := state.originalText.value;
      var hasCorrections := HasSpellingCorrections(original, reply).hasCorrections;
      var suggestions :=
        if hasCorrections && Truthy(reply) then Some(Normalized(reply.value, EndsWithNewline(original))) else reply;
      var suggestions := if !hasCorrections then Some("") else suggestions;
      Ok(state.(llmResponse := suggestions, hasCorrections := Some(hasCorrections)))
  }

  /**
   A reply accepted as a correction is stored with the tokens of the reply itself: as many as
   the original has, at least one of them different, and with no line ending in whitespace.
   */
  lemma CorrectionKeepsTokens(state: AgentState, reply: Option<string>)
    requires state.originalText.Some?
    requires IsSet(ClassifyReply(state, reply).value.hasCorrections)
    ensures var original, response := state.originalText.value, ClassifyReply(state, reply).value.llmResponse.value;
      && reply.Some? && !IsBlank(reply)
      && Tokens(response) == Tokens(reply.value)
      && |Tokens(response)| == |Tokens(original)|
      && (exists i :: 0 <= i < |Tokens(original)| && Tokens(original)[i] != Tokens(response)[i])
      && forall k :: 0 <= k < |SplitLines(response)| ==> Clean(SplitLines(response)[k])
  {
    var original := state.originalText.value;
    CorrectionsMeanSameCountAndADifference(original, reply);
    TokensOfNormalized(reply.value, EndsWithNewline(original));
    NormalizedLinesAreClean(reply.value, EndsWithNewline(original));
  }

  /**
   `compute_diff_node`: `corrected_text` is the response's lines, with their line endings,
   joined back together, that is the response itself. The unified diff it also stores is not
   modelled.
   */
  function ComputeDiff(state: AgentState): (r: Result<AgentState, Failure>)
    ensures state.originalText == None ==> r == Err(MissingKey("original_text"))
    ensures state.originalText.Some? && state.llmResponse == None ==> r == Err(MissingKey("llm_response"))
    ensures state.originalText.Some? && state.llmResponse.Some? ==> r == Ok(state.(correctedText := state.llmResponse))
  {
    if state.originalText == None then Err(MissingKey("original_text"))
    else if state.llmResponse == None then Err(MissingKey("llm_response"))
    else
      var corrected := SplitLinesKeepEnds(state.llmResponse.value);
      ConcatSplitLinesKeepEnds(state.llmResponse.value);
      Ok(state.(correctedText := Some(Concat(corrected))))
  }

  /** The approval decision and whether the confirmation prompt was shown. */
  datatype Approval = Approval(state: AgentState, asked: bool)

  /**
   `approve_changes_node`: approval is automatic when the auto-approve flag is set or when the
   session was given literal text (`input_text is not None`, even an empty one); otherwise it is
   the answer to the prompt, which is asked only then.
   */
  function ApproveChanges(state: AgentState, answer: bool): (r: Approval)
    ensures var auto := IsSet(state.autoApprove) || state.inputText.Some?;
      && r.asked == !auto
      && r.state == state.(approved := Some(auto || answer))
  {
    var autoApprove := IsSet(state.autoApprove) || state.inputText != None;
    if autoApprove then Approval(state.(approved := Some(true)), false)
    else Approval(state.(approved := Some(answer)), true)
  }

  // ---------------------------------------------------------------------------
  // The backup name: Path(path).with_suffix(".bak.mdx")

  const BackupSuffix := ".bak.mdx"

  /** Index just after the last `/` of `path`, or 0. */
  function NameStart(path: string): (k: nat)
    ensures k <= |path|
    ensures k > 0 ==> path[k - 1] == '/'
    ensures forall i :: k <= i < |path| ==> path[i] != '/'
  {
    if path == [] then 0
    else if path[|path| - 1] == '/' then |path|
    else NameStart(path[..|path| - 1])
  }

  /** Index of the last `.` of `name`, if there is one. */
  function LastDot(name: string): (r: Option<nat>)
    ensures r.Some? ==> r.value < |name| && name[r.value] == '.'
    ensures r.Some? ==> forall i :: r.value < i < |name| ==> name[i] != '.'
    ensures r.None? ==> forall i :: 0 <= i < |name| ==> name[i] != '.'
  {
    if name == [] then None
    else if name[|name| - 1] == '.' then Some(|name| - 1)
    else LastDot(name[..|name| - 1])
  }

  /** `PurePath.suffix`: from the last dot, unless it starts the name or ends it. */
  function SuffixStart(name: string): (k: nat)
    ensures k <= |name|
    ensures k < |name| ==> 0 < k && name[k] == '.' && k < |name| - 1
    ensures forall i :: k < i < |name| ==> name[i] != '.'
    ensures k == |name| ==> LastDot(name).None? || LastDot(name).value == 0 || LastDot(name).value == |name| - 1
  {
    match LastDot(name)
    case Some(i) => if 0 < i < |name| - 1 then i else |name|
    case None => |name|
  }

  /**
   `Path(path).with_suffix(".bak.mdx")` for a path already in normal form (no trailing `/`, no
   `.` or empty components): replace the name's suffix by `.bak.mdx`, or append it when there is
   none; a path whose name is empty has no such path.
   */
  function BackupPath(path: string): (r: Result<string, Failure>)
    ensures NameStart(path) == |path| ==> r == Err(EmptyName(path))
    ensures NameStart(path) < |path| ==> (r.Ok? &&
      var dirEnd := NameStart(path);
      var stemEnd := dirEnd + SuffixStart(path[dirEnd..]);
      && r.value == path[..stemEnd] + BackupSuffix
      && forall i :: stemEnd < i < |path| ==> path[i] != '.')
  {
    var dirEnd := NameStart(path);
    if dirEnd == |path| then Err(EmptyName(path))
    else
      var name := path[dirEnd..];
      Ok(path[..dirEnd] + name[..SuffixStart(name)] + BackupSuffix)
  }

  /** The backup name differs from the path, keeps its directory, and ends in `.bak.mdx`. */
  lemma BackupPathDiffers(path: string)
    requires BackupPath(path).Ok?
    ensures var b := BackupPath(path).value;
      && b != path
      && b[..NameStart(path)] == path[..NameStart(path)]
      && |b| >= |BackupSuffix| && b[|b| - |BackupSuffix|..] == BackupSuffix
  {
    var b := BackupPath(path).value;
    var dirEnd := NameStart(path);
    var stemEnd := dirEnd + SuffixStart(path[dirEnd..]);
    assert b == path[..stemEnd] + BackupSuffix;
    // The new suffix holds a second dot, which the replaced suffix cannot.
    assert b[stemEnd + 4] == '.';
    if |b| == |path| {
      assert path[stemEnd + 4] != '.';
    }
  }

  /** The name of `dir + "/" + name` starts after the slash. */
  lemma {:induction false} NameStartOf(dir: string, name: string)
    requires forall i :: 0 <= i < |name| ==> name[i] != '/'
    ensures NameStart(dir + "/" + name) == |dir| + 1
    ensures NameStart(name) == 0
    decreases |name|
  {
    if name != [] {
      var init := name[..|name| - 1];
      assert (dir + "/" + name)[..|dir + "/" + name| - 1] == dir + "/" + init;
      assert name[..|name| - 1] == init;
      NameStartOf(dir, init);
    } else {
      assert (dir + "/")[..|dir + "/"| - 1] == dir;
    }
  }

  /** The last dot of `stem + "." + ext` is the one before `ext` when `ext` has none. */
  lemma {:induction false} LastDotOf(stem: string, ext: string)
    requires forall i :: 0 <= i < |ext| ==> ext[i] != '.'
    ensures LastDot(stem + "." + ext) == Some(|stem|)
    decreases |ext|
  {
    if ext != [] {
      var init := ext[..|ext| - 1];
      assert (stem + "." + ext)[..|stem + "." + ext| - 1] == stem + "." + init;
      LastDotOf(stem, init);
    }
  }

  /** A name without any dot has no suffix. */
  lemma {:induction false} NoDotOf(name: string)
    requires forall i :: 0 <= i < |name| ==> name[i] != '.'
    ensures LastDot(name) == None
    decreases |name|
  {
    if name != [] {
      NoDotOf(name[..|name| - 1]);
    }
  }

  /** The backup of `dir + "/" + stem + "." + ext` (or of `stem + "." + ext`), for a dot-free `ext`. */
  lemma BackupOfSuffixed(path: string, dir: string, stem: string, ext: string)
    requires forall i :: 0 <= i < |ext| ==> ext[i] != '.' && ext[i] != '/'
    requires forall i :: 0 <= i < |stem| ==> stem[i] != '/'
    requires 0 < |stem| && 0 < |ext|
    requires path == dir + "/" + stem + "." + ext || (dir == [] && path == stem + "." + ext)
    ensures path == dir + "/" + stem + "." + ext ==> BackupPath(path) == Ok(dir + "/" + stem + BackupSuffix)
    ensures path == stem + "." + ext ==> BackupPath(path) == Ok(stem + BackupSuffix)
  {
    var name := stem + "." + ext;
    SuffixOfName(stem, ext);
    if path == dir + "/" + stem + "." + ext {
      assert path == dir + "/" + name;
      BackupInDir(path, dir, name, |stem|);
    } else {
      BackupAtRoot(path, name, |stem|);
    }
  }

  /** The suffix of `stem + "." + ext`, for a dot-free `ext`, starts at the dot before `ext`. */
  lemma SuffixOfName(stem: string, ext: string)
    requires forall i :: 0 <= i < |ext| ==> ext[i] != '.' && ext[i] != '/'
    requires forall i :: 0 <= i < |stem| ==> stem[i] != '/'
    requires 0 < |stem| && 0 < |ext|
    ensures var name := stem + "." + ext;
      && SuffixStart(name) == |stem| && name[..|stem|] == stem
      && forall i :: 0 <= i < |name| ==> name[i] != '/'
  {
    LastDotOf(stem, ext);
  }

  /** The backup of `dir + "/" + name` keeps `dir + "/"` and replaces the suffix of `name`. */
  lemma BackupInDir(path: string, dir: string, name: string, k: nat)
    requires forall i :: 0 <= i < |name| ==> name[i] != '/'
    requires path == dir + "/" + name && 0 < |name| && k <= |name| && SuffixStart(name) == k
    ensures BackupPath(path) == Ok(dir + "/" + name[..k] + BackupSuffix)
  {
    NameStartOf(dir, name);
    ConcatSlices(dir + "/", name, |dir| + 1);
    assert (dir + "/")[|dir| + 1..] == [];
  }

  /** The backup of a bare `name` replaces its suffix. */
  lemma BackupAtRoot(path: string, name: string, k: nat)
    requires forall i :: 0 <= i < |name| ==> name[i] != '/'
    requires path == name && 0 < |name| && k <= |name| && SuffixStart(name) == k
    ensures BackupPath(path) == Ok(name[..k] + BackupSuffix)
  {
    NameStartOf([], name);
    assert path[0..] == name;
  }

  /** The backup of a name without a suffix appends `.bak.mdx`. */
  lemma BackupOfPlain(path: string, dir: string, name: string)
    requires forall i :: 0 <= i < |name| ==> name[i] != '/'
    requires 0 < |name|
    requires LastDot(name) == None || LastDot(name) == Some(0)
    requires path == dir + "/" + name || (dir == [] && path == name)
    ensures path == dir + "/" + name ==> BackupPath(path) == Ok(dir + "/" + name + BackupSuffix)
    ensures path == name ==> BackupPath(path) == Ok(name + BackupSuffix)
  {
    NameStartOf(dir, name);
    assert name[..|name|] == name;
    if path == dir + "/" + name {
      assert path[|dir| + 1..] == name;
      assert path[..|dir| + 1] == dir + "/";
    } else {
      assert path[0..] == name;
      assert path[..0] == [];
    }
  }

  /** A suffix is replaced: `notes.md` is backed up as `notes.bak.mdx`. */
  lemma BackupOfNotes()
    ensures BackupPath("notes.md") == Ok("notes.bak.mdx")
  {
    assert "notes" + "." + "md" == "notes.md";
    assert "notes" + BackupSuffix == "notes.bak.mdx";
    BackupOfSuffixed("notes.md", "", "notes", "md");
  }

  /** `docs/post.mdx` is backed up as `docs/post.bak.mdx`, in the same directory. */
  lemma BackupOfPost()
    ensures BackupPath("docs/post.mdx") == Ok("docs/post.bak.mdx")
  {
    assert "docs" + "/" + "post" + "." + "mdx" == "docs/post.mdx";
    assert "docs" + "/" + "post" + BackupSuffix == "docs/post.bak.mdx";
    BackupOfSuffixed("docs/post.mdx", "docs", "post", "mdx");
  }

  /** Only the last suffix is replaced: `archive.tar.gz` becomes `archive.tar.bak.mdx`. */
  lemma BackupOfArchive()
    ensures BackupPath("archive.tar.gz") == Ok("archive.tar.bak.mdx")
  {
    assert "archive.tar" + "." + "gz" == "archive.tar.gz";
    assert "archive.tar" + BackupSuffix == "archive.tar.bak.mdx";
    BackupOfSuffixed("archive.tar.gz", "", "archive.tar", "gz");
  }

  /** Without a suffix `.bak.mdx` is appended: `README` becomes `README.bak.mdx`. */
  lemma BackupOfReadme()
    ensures BackupPath("README") == Ok("README.bak.mdx")
  {
    NoDotOf("README");
    assert "README" + BackupSuffix == "README.bak.mdx";
    BackupOfPlain("README", "", "README");
  }

  /** A leading dot starts no suffix: `docs/.profile` becomes `docs/.profile.bak.mdx`. */
  lemma BackupOfDotfile()
    ensures BackupPath("docs/.profile") == Ok("docs/.profile.bak.mdx")
  {
    LastDotOf("", "profile");
    assert "" + "." + "profile" == ".profile";
    assert "docs" + "/" + ".profile" == "docs/.profile";
    assert "docs" + "/" + ".profile" + BackupSuffix == "docs/.profile.bak.mdx";
    BackupOfPlain("docs/.profile", "docs", ".profile");
  }

  /** The root has an empty name and no backup path. */
  lemma BackupOfRoot()
    ensures BackupPath("/") == Err(EmptyName("/"))
  {
  }

  // ---------------------------------------------------------------------------
  // The file system and the nodes that touch it

  /** A mutation of the file system, in the order it happened. */
  datatype FileOp = Renamed(source: string, target: string) | Wrote(path: string, content: string)

  /** What a run reports: its final state, the nodes it visited and the word changes it found. */
  datatype RunResult = RunResult(state: AgentState, visited: seq<Node>, changes: seq<WordChange>)

  /** A sound aligner: for every pair of token lists it returns opcodes as `get_opcodes` does. */
  ghost predicate AlignerSound(align: (seq<string>, seq<string>) -> seq<Opcode>) {
    forall a, b :: WellFormed(align(a, b), a, b)
  }

  class FileSystem {
    var files: map<string, string>
    ghost var log: seq<FileOp>

    constructor (files: map<string, string>)
      ensures this.files == files && log == []
    {
      this.files := files;
      log := [];
    }

    /**
     `load_file_node`: literal text that is truthy is the original text; otherwise the file at
     `path` is read (a missing key or an unreadable path fails the run).
     */
    function LoadFile(state: AgentState): (r: Result<AgentState, Failure>)
      reads this
      ensures Truthy(state.inputText) ==> r == Ok(state.(originalText := state.inputText))
      ensures !Truthy(state.inputText) && state.path == None ==> r == Err(MissingKey("path"))
      ensures !Truthy(state.inputText) && state.path.Some? ==>
        if state.path.value in files && state.path.value != "" then r == Ok(state.(originalText := Some(files[state.path.value])))
        else r == Err(CannotRead(state.path.value))
    {
      if Truthy(state.inputText) then Ok(state.(originalText := state.inputText))
      else if state.path == None then Err(MissingKey("path"))
      else
        var path := state.path.value;
        if path == "" || path !in files then Err(CannotRead(path)) else Ok(state.(originalText := Some(files[path])))
    }

    /** `Path.rename`: the target, if present, is replaced. */
    method Rename(source: string, target: string) returns (ok: bool)
      modifies this
      ensures ok == (source in old(files))
      ensures ok ==> files == old(files)[target := old(files)[source]] - {source} || source == target
      ensures ok ==> source == target ==> files == old(files)
      ensures ok ==> log == old(log) + [Renamed(source, target)]
      ensures !ok ==> files == old(files) && log == old(log)
    {
      ok := source in files;
      if ok {
        if source != target {
          files := files[target := files[source]] - {source};
        }
        log := log + [Renamed(source, target)];
      }
    }

    /** `Path.write_text`: create or overwrite. */
    method WriteText(path: string, content: string)
      modifies this
      ensures files == old(files)[path := content]
      ensures log == old(log) + [Wrote(path, content)]
    {
      files := files[path := content];
      log := log + [Wrote(path, content)];
    }

    /**
     `write_file_node`: when approved and a path is set, rename the file to its backup name and
     only then write the corrected text to the path; otherwise leave every file alone (approved
     without a path, the corrected text is only echoed, but it must be present).
     */
    method WriteFile(state: AgentState) returns (r: Result<AgentState, Failure>)
      modifies this
      ensures !IsSet(state.approved) ==> r == Ok(state) && files == old(files) && log == old(log)
      ensures IsSet(state.approved) && !Truthy(state.path) ==>
        && r == (if state.correctedText == None then Err(MissingKey("corrected_text")) else Ok(state))
        && files == old(files) && log == old(log)
      ensures IsSet(state.approved) && Truthy(state.path) ==>
        var path := state.path.value;
        match BackupPath(path)
        case Err(e) => r == Err(e) && files == old(files) && log == old(log)
        case Ok(backup) =>
          if path !in old(files) then r == Err(CannotRename(path)) && files == old(files) && log == old(log)
          else
            var moved := old(files)[backup := old(files)[path]] - {path};
            && backup != path
            && (state.correctedText == None ==>
                  r == Err(MissingKey("corrected_text")) && files == moved && log == old(log) + [Renamed(path, backup)])
            && (state.correctedText.Some? ==>
                  && r == Ok(state)
                  && files == old(files)[backup := old(files)[path]][path := state.correctedText.value]
                  && log == old(log) + [Renamed(path, backup), Wrote(path, state.correctedText.value)])
    {
      if !IsSet(state.approved) {
        return Ok(state);
      }
      if !Truthy(state.path) {
        // Without a path the corrected text is echoed, which still reads the key.
        if state.correctedText == None {
          return Err(MissingKey("corrected_text"));
        }
        return Ok(state);
      }
      var path := state.path.value;
      var backup := BackupPath(path);
      if backup.Err? {
        return Err(backup.error);
      }
      BackupPathDiffers(path);
      var renamed := Rename(path, backup.value);
      if !renamed {
        return Err(CannotRename(path));
      }
      if state.correctedText == None {
        return Err(MissingKey("corrected_text"));
      }
      WriteText(path, state.correctedText.value);
      r := Ok(state);
    }

    /**
     One run of the compiled graph: load, classify the model's `reply`, and either stop at the
     no-corrections node or compute the diff, locate the word changes with the opcodes `align`
     gives for the two token lists, ask for approval with `answer`, and persist.
     */
    method Run(initial: AgentState, reply: Option<string>, align: (seq<string>, seq<string>) -> seq<Opcode>, answer: bool)
      returns (r: Result<RunResult, Failure>)
      requires AlignerSound(align)
      modifies this
      ensures r.Ok? ==> r.value.visited == Walk(Load, r.value.state, 10)
      ensures r.Ok? ==>
        && r.value.state.originalText.Some?
        && r.value.state.hasCorrections == Some(HasSpellingCorrections(r.value.state.originalText.value, reply).hasCorrections)
      ensures r.Ok? && !IsSet(r.value.state.hasCorrections) ==>
        files == old(files) && log == old(log) && r.value.changes == [] && r.value.state.approved == initial.approved
      ensures r.Ok? ==> r.value.state.path == initial.path && r.value.state.inputText == initial.inputText
      ensures r.Ok? ==> old(LoadFile(initial)).Ok? && r.value.state.originalText == old(LoadFile(initial)).value.originalText
      ensures r.Ok? && IsSet(r.value.state.hasCorrections) ==>
        r.value.state.originalText.Some? && r.value.state.llmResponse.Some? && reply.Some? &&
        var original := r.value.state.originalText.value;
        var corrected := r.value.state.llmResponse.value;
        && corrected == Normalized(reply.value, EndsWithNewline(original))
        && r.value.state.correctedText == Some(corrected)
        && r.value.changes == WordChanges(Tokens(original), Tokens(corrected), align(Tokens(original), Tokens(corrected)))
        && Tokens(corrected) == Tokens(reply.value)
        && (EqualWidths(align(Tokens(original), Tokens(corrected))) ==> r.value.changes != [])
        && r.value.state.approved == Some(IsSet(initial.autoApprove) || initial.inputText.Some? || answer)
        && (IsSet(r.value.state.approved) && Truthy(initial.path) ==>
              BackupPath(initial.path.value).Ok? && initial.path.value in old(files) &&
              var backup := BackupPath(initial.path.value).value;
              && files == old(files)[backup := old(files)[initial.path.value]][initial.path.value := corrected]
              && log == old(log) + [Renamed(initial.path.value, backup), Wrote(initial.path.value, corrected)])
        && (!(IsSet(r.value.state.approved) && Truthy(initial.path)) ==> files == old(files) && log == old(log))
      ensures r.Err? ==> files == old(files) && log == old(log)
    {
      var loaded := LoadFile(initial);
      if loaded.Err? {
        return Err(loaded.error);
      }
      var classified := ClassifyReply(loaded.value, reply);
      var state := classified.value;
      if RouteAfterLlm(state) == NoCorrections {
        GraphPaths(state);
        return Ok(RunResult(state, [Load, CallLlm, NoCorrections], []));
      }
      state := ComputeDiff(state).value;
      var original, corrected := state.originalText.value, state.llmResponse.value;
      var changes := FindWordChanges(original, corrected, align(Tokens(original), Tokens(corrected)));
      CorrectionKeepsTokens(loaded.value, reply);
      if EqualWidths(align(Tokens(original), Tokens(corrected))) {
        ChangesIffCorrections(original, reply.value, EndsWithNewline(original), align(Tokens(original), Tokens(corrected)));
      }
      var approval := ApproveChanges(state, answer);
      state := approval.state;
      var written := WriteFile(state);
      if written.Err? {
        return Err(written.error);
      }
      GraphPaths(state);
      r := Ok(RunResult(state, [Load, CallLlm, Diff, Print, Approve, Write], changes));
    }
  }

  /** A trivial aligner that meets `AlignerSound`: one block covering both lists. */
  function WholeBlock(a: seq<string>, b: seq<string>): seq<Opcode> {
    if a == b then (if a == [] then [] else [Opcode(Equal, 0, |a|, 0, |b|)])
    else if a == [] then [Opcode(Insert, 0, 0, 0, |b|)]
    else if b == [] then [Opcode(Delete, 0, |a|, 0, 0)]
    else [Opcode(Replace, 0, |a|, 0, |b|)]
  }

  lemma WholeBlockSound()
    ensures AlignerSound(WholeBlock)
  {
    forall a: seq<string>, b: seq<string> ensures WellFormed(WholeBlock(a, b), a, b) {
      var ops := WholeBlock(a, b);
      if ops != [] {
        assert ops[1..] == [];
      }
    }
  }
}
