/** Running the rules: for each one, mutate the file, run the project's tests,
    put the file back, and classify what happened.

    The test run (`cargo test` in a child process) is an oracle: a function from
    the state of the file system to what the process reported. Time is an input
    too: each run's duration is given, not measured. */
module Runner {
  import Errors
  import opened Configuration
  import opened Files
  import opened Codegen

  datatype Option<T> = None | Some(value: T)

  datatype MutationStatus =
    | Killed
    | Survived
    | Timeout
    | CompileError
    | ConfigError(message: string)

  datatype MutationResult = MutationResult(
    mutationId: string,
    file: string,
    functionName: string,
    original: string,
    replacement: string,
    status: MutationStatus,
    duration: nat,
    line: Option<nat>,
    details: Option<string>)

  /** The result names the rule it belongs to. */
  predicate SameRule(r: MutationResult, m: MutationConfig) {
    r.mutationId == m.id && r.file == m.file && r.functionName == m.functionName
    && r.original == m.original && r.replacement == m.replacement
  }

  // ---------------------------------------------------------------------------
  // The test run

  /** What the child process reported: its exit status and output, or why it
      could not be run (`timedOut` when the error kind was `TimedOut`). */
  datatype SpawnOutcome =
    | Exited(success: bool, stdout: string, stderr: string)
    | SpawnFailed(timedOut: bool, message: string)

  datatype TestResult =
    | TestsPassed
    | TestsFailed(output: string)
    | TestsDidNotCompile(output: string)
    | TestsTimedOut
    | TestsErrored(message: string)

  /** `pat` occurs in `s` starting at index `i`. */
  predicate OccursAt(s: string, pat: string, i: nat) {
    i + |pat| <= |s| && s[i..i + |pat|] == pat
  }

  /** `str::contains`, scanning from the left. */
  function Contains(s: string, pat: string): bool
    decreases |s|
  {
    if |s| < |pat| then false
    else s[..|pat|] == pat || Contains(s[1..], pat)
  }

  lemma {:induction false} ContainsIff(s: string, pat: string)
    ensures Contains(s, pat) <==> exists i: nat :: OccursAt(s, pat, i)
    decreases |s|
  {
    if |s| >= |pat| {
      if s[..|pat|] == pat {
        assert OccursAt(s, pat, 0);
      } else {
        ContainsIff(s[1..], pat);
        if Contains(s[1..], pat) {
          var i: nat :| OccursAt(s[1..], pat, i);
          assert s[i + 1..i + 1 + |pat|] == s[1..][i..i + |pat|];
          assert OccursAt(s, pat, i + 1);
        }
        if exists i: nat :: OccursAt(s, pat, i) {
          var i: nat :| OccursAt(s, pat, i);
          assert i != 0;
          assert s[1..][i - 1..i - 1 + |pat|] == s[i..i + |pat|];
          assert OccursAt(s[1..], pat, i - 1);
        }
      }
    }
  }

  /** The texts in the error output that mark a failure to compile. */
  const CompileMarkers: seq<string> := ["error[E", "could not compile", "aborting due to"]

  /** `run_cargo_test`'s classification of the child process's report. */
  function Classify(o: SpawnOutcome): TestResult {
    match o
    case Exited(success, stdout, stderr) =>
      var combined := stdout + "\n" + stderr;
      if success then TestsPassed
      else if Contains(stderr, CompileMarkers[0]) || Contains(stderr, CompileMarkers[1])
              || Contains(stderr, CompileMarkers[2]) then
        TestsDidNotCompile(combined)
      else TestsFailed(combined)
    case SpawnFailed(timedOut, message) =>
      if timedOut then TestsTimedOut else TestsErrored("Failed to run cargo test: " + message)
  }

  /** The status (and details) recorded for each kind of test result. */
  function StatusOf(t: TestResult): (MutationStatus, Option<string>) {
    match t
    case TestsPassed => (Survived, None)
    case TestsFailed(output) => (Killed, Some(output))
    case TestsDidNotCompile(output) => (CompileError, Some(output))
    case TestsTimedOut => (Timeout, None)
    case TestsErrored(message) => (ConfigError(message), Some(message))
  }

  /** From the process's report to the status: a successful run means the mutation
      survived; a failing run is a compile error exactly when the error output
      contains one of the markers, and a kill otherwise; a timeout is reported as
      such, and any other failure to run is a configuration error. */
  lemma StatusOfOutcome(o: SpawnOutcome)
    ensures var status := StatusOf(Classify(o)).0;
      (status == Survived <==> o.Exited? && o.success)
      && (status == CompileError <==>
            o.Exited? && !o.success
            && exists k: nat, i: nat | k < |CompileMarkers| :: OccursAt(o.stderr, CompileMarkers[k], i))
      && (status == Killed <==>
            o.Exited? && !o.success
            && forall k: nat, i: nat | k < |CompileMarkers| :: !OccursAt(o.stderr, CompileMarkers[k], i))
      && (status == Timeout <==> o.SpawnFailed? && o.timedOut)
      && (status.ConfigError? <==> o.SpawnFailed? && !o.timedOut)
  {
    if o.Exited? {
      ContainsIff(o.stderr, CompileMarkers[0]);
      ContainsIff(o.stderr, CompileMarkers[1]);
      ContainsIff(o.stderr, CompileMarkers[2]);
      if exists k: nat, i: nat | k < |CompileMarkers| :: OccursAt(o.stderr, CompileMarkers[k], i) {
        var k: nat, i: nat :| k < |CompileMarkers| && OccursAt(o.stderr, CompileMarkers[k], i);
        assert k == 0 || k == 1 || k == 2;
      }
    }
  }

  // ---------------------------------------------------------------------------
  // One rule

  /** The result of running one rule on the file system `files`, when the write of
      the mutated file (if it comes to that) has outcome `write`. */
  function SingleResult(files: map<string, FileEntry>, m: MutationConfig, projectDir: string,
                        tc: Toolchain, cargoTest: map<string, FileEntry> -> SpawnOutcome,
                        duration: nat, write: WriteOutcome): (r: MutationResult)
    ensures SameRule(r, m) && r.duration == duration
  {
    var path := JoinPath(projectDir, m.file);
    var base := MutationResult(m.id, m.file, m.functionName, m.original, m.replacement,
                               Survived, duration, None, None);
    if path !in files then base.(status := ConfigError("File not found: " + path))
    else match ReadToString(files, path)
      case ReadFailed(e) => base.(status := ConfigError("Failed to read file: " + e))
      case ReadOk(_) =>
        match PreparedFromFile(files, path, m, tc)
        case Err(e) =>
          base.(status := ConfigError(Errors.Message(e)), details := Some(Errors.Message(e)))
        case Ok(prepared) =>
          var line := Some(prepared.site.line);
          match write
          case WriteFailed(e) =>
            base.(status := ConfigError("Failed to write mutated file: " + e), line := line)
          case Written =>
            var (status, details) :=
              StatusOf(Classify(cargoTest(files[path := Text(prepared.mutatedSource)])));
            base.(status := status, details := details, line := line)
  }

  /** `validate_mutations` for one rule: the file must exist, then it must prepare. */
  function ValidateOne(files: map<string, FileEntry>, projectDir: string, m: MutationConfig,
                       tc: Toolchain): Errors.Result<()>
  {
    var path := JoinPath(projectDir, m.file);
    if path !in files then Errors.Err(Errors.FileNotFound(m.file))
    else match PreparedFromFile(files, path, m, tc)
      case Err(e) => Errors.Err(e)
      case Ok(_) => Errors.Ok(())
  }

  /** `line` is known exactly when the rule validates, and then it is the line of
      the replaced site; a rule that does not validate is a configuration error
      whose message is the validation error's (missing and unreadable files are
      worded by the runner itself). A configuration error also results from a
      failed mutated-file write or a test process that could not be started. */
  lemma SingleResultLine(files: map<string, FileEntry>, m: MutationConfig, projectDir: string,
                         tc: Toolchain, cargoTest: map<string, FileEntry> -> SpawnOutcome,
                         duration: nat, write: WriteOutcome)
    ensures var r := SingleResult(files, m, projectDir, tc, cargoTest, duration, write);
      var path := JoinPath(projectDir, m.file);
      var v := ValidateOne(files, projectDir, m, tc);
      (r.line.Some? <==> v.Ok?)
      && (r.line.Some? ==> r.line.value == PreparedFromFile(files, path, m, tc).value.site.line)
      && (v.Err? ==> r.status.ConfigError?)
      && (v.Err? && path in files && files[path].Text? ==>
            r.status == ConfigError(Errors.Message(v.error)))
  {
    var path := JoinPath(projectDir, m.file);
    PreparedFromFileReads(files, path, m, tc);
  }

  /** When the rule validates and the mutated file was written, the status is what
      the tests report on the file system with exactly that file changed to the
      prepared text. */
  lemma SingleResultTestsMutatedTree(files: map<string, FileEntry>, m: MutationConfig,
                                     projectDir: string, tc: Toolchain,
                                     cargoTest: map<string, FileEntry> -> SpawnOutcome, duration: nat)
    requires ValidateOne(files, projectDir, m, tc).Ok?
    ensures var path := JoinPath(projectDir, m.file);
      var prepared := PreparedFromFile(files, path, m, tc).value;
      var r := SingleResult(files, m, projectDir, tc, cargoTest, duration, Written);
      r.status == StatusOf(Classify(cargoTest(files[path := Text(prepared.mutatedSource)]))).0
      && r.line == Some(prepared.site.line)
  {
    var path := JoinPath(projectDir, m.file);
    PreparedFromFileReads(files, path, m, tc);
  }

  /** The outcome of the first of `writes`; `Written` when there was none. */
  function FirstOutcome(writes: seq<WriteRecord>): WriteOutcome {
    if writes == [] then Written else writes[0].outcome
  }

  /** Write the mutated text over the file at `path`, run the tests, and write the
      original text back. This is the only step that writes, and it is entered only
      once the rule has been prepared. When the first write fails the tests are not
      run and nothing more is written; a failed restore leaves the mutated text in
      place and is only a warning. */
  method WriteTestRestore(fs: FileSystem, path: string, ghost m: MutationConfig, ghost tc: Toolchain,
                          mutated: string, original: string,
                          cargoTest: map<string, FileEntry> -> SpawnOutcome)
    returns (written: WriteOutcome, test: Option<TestResult>, restored: Option<WriteOutcome>)
    requires path in fs.files && fs.files[path] == Text(original)
    requires PreparedFromFile(fs.files, path, m, tc).Ok?
    requires mutated == PreparedFromFile(fs.files, path, m, tc).value.mutatedSource
    modifies fs
    ensures written.WriteFailed? ==>
      test == None && restored == None
      && fs.log == old(fs.log) + [WriteRecord(path, mutated, written)] && fs.files == old(fs.files)
    ensures written.Written? ==>
      test == Some(Classify(cargoTest(old(fs.files)[path := Text(mutated)])))
      && restored.Some?
      && fs.log == old(fs.log) + [WriteRecord(path, mutated, Written), WriteRecord(path, original, restored.value)]
      && fs.files == if restored.value.Written? then old(fs.files) else old(fs.files)[path := Text(mutated)]
  {
    written := fs.Write(path, mutated);
    if written.WriteFailed? {
      return written, None, None;
    }
    test := Some(Classify(cargoTest(fs.files)));
    var back := fs.Write(path, original);
    restored := Some(back);
  }

  /** A rule that does not validate against the files `before` writes nothing and
      leaves the files as they were. */
  ghost predicate QuietUnlessValid(before: map<string, FileEntry>, writes: seq<WriteRecord>,
                                   after: map<string, FileEntry>, projectDir: string,
                                   m: MutationConfig, tc: Toolchain)
  {
    !ValidateOne(before, projectDir, m, tc).Ok? ==> writes == [] && after == before
  }

  /** `run_single_mutation`. */
  method RunSingleMutation(fs: FileSystem, m: MutationConfig, projectDir: string, timeoutSecs: nat,
                           tc: Toolchain, cargoTest: map<string, FileEntry> -> SpawnOutcome,
                           duration: nat)
    returns (r: MutationResult)
    modifies fs
    ensures |old(fs.log)| <= |fs.log| && fs.log[..|old(fs.log)|] == old(fs.log)
    ensures SameRule(r, m) && r.duration == duration
    ensures |fs.log| <= |old(fs.log)| + 2
    ensures Restored(fs.log[|old(fs.log)|..]) ==> fs.files == old(fs.files)
    ensures r == SingleResult(old(fs.files), m, projectDir, tc, cargoTest, duration,
                              FirstOutcome(fs.log[|old(fs.log)|..]))
    ensures QuietUnlessValid(old(fs.files), fs.log[|old(fs.log)|..], fs.files, projectDir, m, tc)
  {
    var base := MutationResult(m.id, m.file, m.functionName, m.original, m.replacement,
                               Survived, duration, None, None);
    var path := JoinPath(projectDir, m.file);
    if path !in fs.files {
      return base.(status := ConfigError("File not found: " + path));
    }
    var originalContent: string;
    match ReadToString(fs.files, path) {
      case ReadFailed(e) => return base.(status := ConfigError("Failed to read file: " + e));
      case ReadOk(text) => originalContent := text;
    }
    var prepared := ApplyMutationToFile(fs, path, m, tc);
    PreparedFromFileReads(fs.files, path, m, tc);
    if prepared.Err? {
      var message := Errors.Message(prepared.error);
      return base.(status := ConfigError(message), details := Some(message));
    }
    var line := Some(prepared.value.site.line);
    var written, test, restored :=
      WriteTestRestore(fs, path, m, tc, prepared.value.mutatedSource, originalContent, cargoTest);
    if written.WriteFailed? {
      assert fs.log[|old(fs.log)|..] == [WriteRecord(path, prepared.value.mutatedSource, written)];
      return base.(status := ConfigError("Failed to write mutated file: " + written.message),
                   line := line);
    }
    // A failed restore is only reported as a warning; the status stands.
    assert fs.log[|old(fs.log)|..] == [WriteRecord(path, prepared.value.mutatedSource, Written),
                                       WriteRecord(path, originalContent, restored.value)];
    var (status, details) := StatusOf(test.value);
    r := base.(status := status, details := details, line := line);
  }

  // ---------------------------------------------------------------------------
  // All rules

  /** A rule's writes left its file as it was: the write of the original text back,
      when there was one, succeeded. */
  ghost predicate Restored(writes: seq<WriteRecord>) {
    |writes| == 2 ==> writes[1].outcome.Written?
  }

  /** One rule's run: the files it started from, its writes, and the files it left. */
  datatype Run = Run(before: map<string, FileEntry>, writes: seq<WriteRecord>,
                     after: map<string, FileEntry>)

  ghost function Concat(runs: seq<Run>): seq<WriteRecord> {
    if runs == [] then [] else Concat(runs[..|runs| - 1]) + runs[|runs| - 1].writes
  }

  /** Each run starts from the files the previous one left, the first from
      `files0`, and the last leaves `files1`; a run whose restore succeeded leaves
      the files as it found them. */
  ghost predicate Chained(files0: map<string, FileEntry>, runs: seq<Run>,
                          files1: map<string, FileEntry>)
    decreases |runs|
  {
    if runs == [] then files1 == files0
    else
      var last := runs[|runs| - 1];
      Chained(files0, runs[..|runs| - 1], last.before) && last.after == files1
      && (Restored(last.writes) ==> last.after == last.before)
  }

  lemma RunsSnoc(files0: map<string, FileEntry>, runs: seq<Run>, run: Run)
    ensures Concat(runs + [run]) == Concat(runs) + run.writes
    ensures Chained(files0, runs + [run], run.after) <==>
      Chained(files0, runs, run.before) && (Restored(run.writes) ==> run.after == run.before)
  {
    assert (runs + [run])[..|runs|] == runs;
  }

  /** When every restore succeeds, every rule starts from the original files and
      the run ends with them. */
  lemma {:induction false} ChainedRestored(files0: map<string, FileEntry>, runs: seq<Run>,
                                           files1: map<string, FileEntry>)
    requires Chained(files0, runs, files1)
    requires forall i | 0 <= i < |runs| :: Restored(runs[i].writes)
    ensures files1 == files0 && forall i | 0 <= i < |runs| :: runs[i].before == files0
    decreases |runs|
  {
    if runs != [] {
      var k := |runs| - 1;
      assert Restored(runs[k].writes);
      ChainedRestored(files0, runs[..k], runs[k].before);
      assert forall i | 0 <= i < k :: runs[..k][i] == runs[i];
    }
  }

  /** One turn of `run_mutation_tests`' loop: run the rule and record the files it
      started from, its writes and the files it left. */
  method RunRule(fs: FileSystem, m: MutationConfig, projectDir: string, timeoutSecs: nat,
                 tc: Toolchain, cargoTest: map<string, FileEntry> -> SpawnOutcome, duration: nat)
    returns (result: MutationResult, ghost run: Run)
    modifies fs
    ensures run.before == old(fs.files) && run.after == fs.files
    ensures fs.log == old(fs.log) + run.writes
    ensures Restored(run.writes) ==> run.after == run.before
    ensures result == SingleResult(run.before, m, projectDir, tc, cargoTest, duration,
                                   FirstOutcome(run.writes))
  {
    ghost var log0 := fs.log;
    result := RunSingleMutation(fs, m, projectDir, timeoutSecs, tc, cargoTest, duration);
    run := Run(old(fs.files), fs.log[|log0|..], fs.files);
    assert fs.log == log0 + run.writes;
  }

  /** `run_mutation_tests`: one result per rule, in the rules' order. `runs[i]`
      records the files rule i started from, its writes and the files it left: its
      result is decided by those files and the outcome of its first write, and the
      runs are chained one after the other. When every restore succeeds, every rule
      runs against the original files and they are there again at the end. */
  method RunMutationTests(fs: FileSystem, config: Config, projectDir: string, tc: Toolchain,
                          cargoTest: map<string, FileEntry> -> SpawnOutcome,
                          elapsed: nat -> nat)
    returns (results: seq<MutationResult>, ghost runs: seq<Run>)
    modifies fs
    ensures |results| == |runs| == |config.mutations|
    ensures forall i {:trigger results[i]} | 0 <= i < |results| ::
      results[i] == SingleResult(runs[i].before, config.mutations[i], projectDir, tc,
                                 cargoTest, elapsed(i), FirstOutcome(runs[i].writes))
    ensures fs.log == old(fs.log) + Concat(runs)
    ensures Chained(old(fs.files), runs, fs.files)
    ensures (forall i | 0 <= i < |runs| :: Restored(runs[i].writes)) ==>
      fs.files == old(fs.files) && forall i | 0 <= i < |runs| :: runs[i].before == old(fs.files)
  {
    ghost var files0 := fs.files;
    ghost var log0 := fs.log;
    results := [];
    runs := [];
    for i := 0 to |config.mutations|
      invariant |results| == |runs| == i
      invariant forall j {:trigger results[j]} | 0 <= j < i ::
        results[j] == SingleResult(runs[j].before, config.mutations[j], projectDir, tc,
                                   cargoTest, elapsed(j), FirstOutcome(runs[j].writes))
      invariant fs.log == log0 + Concat(runs)
      invariant Chained(files0, runs, fs.files)
    {
      var result, run := RunRule(fs, config.mutations[i], projectDir, config.settings.timeout,
                                 tc, cargoTest, elapsed(i));
      RunsSnoc(files0, runs, run);
      results := results + [result];
      runs := runs + [run];
    }
    if forall i | 0 <= i < |runs| :: Restored(runs[i].writes) {
      ChainedRestored(files0, runs, fs.files);
    }
  }

  /** `validate_mutations`: one verdict per rule, in order: a missing file, else
      whatever preparing the rule against that file gives; nothing is written. */
  function ValidateMutations(fs: FileSystem, config: Config, projectDir: string, tc: Toolchain)
    : (rs: seq<Errors.Result<()>>)
    reads fs
    ensures |rs| == |config.mutations|
    ensures forall i | 0 <= i < |rs| ::
      var path := JoinPath(projectDir, config.mutations[i].file);
      var prepared := PreparedFromFile(fs.files, path, config.mutations[i], tc);
      (path !in fs.files ==> rs[i] == Errors.Err(Errors.FileNotFound(config.mutations[i].file)))
      && (path in fs.files ==> (rs[i].Ok? <==> prepared.Ok?)
                               && (rs[i].Err? ==> rs[i].error == prepared.error))
  {
    seq(|config.mutations|, i requires 0 <= i < |config.mutations| reads fs =>
      ValidateOne(fs.files, projectDir, config.mutations[i], tc))
  }
}
