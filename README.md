# Mutation testing engine for Rust, modelled in Dafny

This project models the engine of a mutation-testing tool for Rust projects. A user writes
rules: in file F, inside function G, replace the expression `original` with the expression
`replacement`. For each rule the engine does the following:

- It parses the file.
- It finds every expression inside functions named G that is structurally equal to
  `original`. It refuses the rule when there is no such expression or more than one.
- It replaces the single site and prints the file back.
- It writes the mutated file, runs `cargo test`, and writes the original text back.
- It classifies the outcome: killed, survived, timeout, compile error or configuration error.

The results are then counted into a report with a mutation score.

The modules follow the program's files:

| module | file | models |
|---|---|---|
| `Syntax` | (syn's tree) | The parsed file as a rose tree `Node(span, kind, kids)`. Each expression shape has a fixed arity, and an empty optional slot holds an `Absent` node. Nodes are addressed by paths of child indexes; `ReplaceAt` puts a node at a path. |
| `Equality` | `src/matcher.rs` | `ast_equals` and its helpers. |
| `Matcher` | `src/matcher.rs` | The site finder (`ExpressionMatcher`, `find_expression_in_function`), the function collector and `to_location`. Each visitor is a class whose methods walk the tree and update its fields. Each is proved equal to a pure description of the walk (`Occurrences`, `FunctionNames`). |
| `Mutator` | `src/mutator.rs` | The rewriting visitor and `Mutator::apply`. They are proved to replace exactly the site the finder ranks `match_index`. |
| `Codegen` | `src/codegen.rs` | `prepare_mutation` and `apply_mutation_to_file`. The syn parsers and the prettyplease printer are the three functions of a `Toolchain`. |
| `Files` | (std::fs) | The file system: a class holding a map from paths to contents. Every write may fail, and a ghost log records each attempt. |
| `Runner` | `src/runner.rs` | `run_single_mutation`, `run_mutation_tests`, the classification of the test process's report, and `validate_mutations`. The test run is an oracle from file-system states to the process's report. Durations are inputs. |
| `Report` | `src/report.rs` | The counts, the score (as a real), `surviving_mutations`, and the exit code chosen in `src/main.rs`. |
| `Errors` | `src/error.rs` | The error variants, their messages, and `format_locations`. |
| `Configuration` | `src/config.rs` | The rule and configuration records. |
| `Scenarios` | tests | The source's unit-test files, worked through the finder and the mutator. |

Behaviour kept as the code has it:

- When the finder or the mutator leaves a function with the wanted name, it clears its
  "inside the target" flag instead of restoring the previous value. So in
  `fn f() { fn f() {} a }`, the `a` after the inner `f` is never reported, although it
  lies inside the outer `f` (`Scenarios.NestedNamesakeEndsTheSearch`).
- A site's column is the 0-based column of its first token plus one.
- Ambiguity locations carry that same column.

Where the design description and the code differ, the model follows the code:

- Expression shapes without a rule of their own (closures, macros, `match`, …) are unequal
  to everything, themselves included. There is no comparison of whitespace-normalised text.
- `NoMatch` carries no list of hint expressions.
- The timeout setting is passed along but never enforced. `Timeout` arises only when
  starting the test process fails with the error kind `TimedOut`.
- A failed restore of the original file is only a warning: the status stands and the run
  continues. It is not fatal.
- The exit code is 0 when the only outcomes are kills, timeouts and compile errors. It is 1
  when something survived, and otherwise 2 when a rule had a configuration error.
- Rules run strictly one after another. There are no parallel workers.

## Model

| member | source | states |
|---|---|---|
| Syntax.ReplaceAtPlaces | src/mutator.rs:52-54 | After replacing at a path, the path is still valid and leads to the replacement. |
| Syntax.ReplaceAtElsewhere | src/mutator.rs:52-54 | Replacing at a path leaves every node on a diverging path where it was and unchanged. |
| Equality.ReflexiveExactlyOnComparable | src/matcher.rs:124-239 | An expression equals itself exactly when it is built from shapes the comparator has a rule for. `Comparable` is an independent definition of those shapes. |
| Equality.UnsupportedEqualsNothing | src/matcher.rs:237-238 | A shape without a rule is unequal to every expression, on either side, whatever parentheses wrap the other. |
| Equality.Symmetric | src/matcher.rs:124-239 | `ast_equals(a, b) == ast_equals(b, a)` for all expressions. |
| Equality.ParensTransparent | src/matcher.rs:141-145 | Comparing two expressions is comparing them with all outer parentheses removed. |
| Equality.ParenEqualsInner | src/matcher.rs:142-145 | `(x)` equals `y` exactly when `x` equals `y`. |
| Equality.SpansIgnored | src/matcher.rs:122-123 | Moving nodes to other lines or columns never changes the verdict. |
| Equality.IfComparesConditionOnly | src/matcher.rs:195-198 | Two `if` expressions are equal iff their conditions are, whatever their branches. |
| Equality.IfWithSameCondition | src/matcher.rs:195-198 | An `if` equals every `if` with the same condition exactly when that condition is comparable. |
| Equality.BlocksCompareLength | src/matcher.rs:201-204 | Two block expressions are equal iff they have the same number of statements. |
| Equality.BinaryEquality | src/matcher.rs:126-130 | Binary expressions are equal iff the operators are the same variant and both operands are equal. |
| Equality.PathsCompareIdentifiers | src/matcher.rs:264-272 | Paths are equal iff they have as many segments with the same identifiers; generic arguments are ignored. |
| Errors.NatToStringRoundTrip | src/error.rs:81 | The decimal rendering of a number reads back as that number and has no leading zero. |
| Errors.FormatLocations | src/error.rs:78-84 | No locations render as the empty string; one renders as "line L, column C". |
| Errors.FormatLocationsSnoc | src/error.rs:79-83 | Each further location adds "; " and its own description at the end, so the locations appear in order. |
| Errors.FunctionNotFoundListsAvailable | src/error.rs:30 | The message for a missing function ends with the available names joined by ", ". |
| Files.ReadToString | src/codegen.rs:104-107 | A read succeeds exactly when the file exists and is valid text, and then returns that text. |
| Files.FileSystem.Write | src/runner.rs:149-161 | A write is recorded in the log. On success the file holds the new content; on failure nothing changes. |
| Matcher.ToLocation | src/matcher.rs:23-28 | The location keeps the site's line and column. |
| Matcher.ToLocationForgetsIndex | src/matcher.rs:23-28 | Two sites with the same line and column have the same location, whatever their ranks. |
| Matcher.SitesOf | src/matcher.rs:99-105 | One site per hit, in order. The i-th site has rank i, the hit's line, and its column plus one. |
| Matcher.SitesOfSnoc | src/matcher.rs:100-105 | A new hit adds one site at the end, with the next rank. |
| Matcher.ExpressionMatcher.constructor | src/matcher.rs:37-43 | The finder starts outside any target function, with no matches and rank 0. |
| Matcher.ExpressionMatcher.VisitNode | src/matcher.rs:80-110 | Visiting a node moves the finder's fields exactly as the pure walk `ScanNode` does. |
| Matcher.ExpressionMatcher.VisitFn | src/matcher.rs:81-95 | A function with the wanted name is walked with the flag set, which is then cleared. Any other function is skipped. |
| Matcher.ExpressionMatcher.VisitExpr | src/matcher.rs:97-109 | A match in scope is recorded with the next rank, and its children are searched too. |
| Matcher.ExpressionMatcher.VisitChildren | src/matcher.rs:80-110 | The children are visited left to right, as `ScanKids` describes. |
| Matcher.FindExpressionInFunction | src/matcher.rs:32-47 | The sites returned are those of `Occurrences`, ranked 0..n-1 in pre-order. |
| Matcher.OccurrencesComplete | src/matcher.rs:80-110 | When no function with the wanted name contains another of that name, every expression equal to the target inside such a function, and under no function of another name, is reported at its path and position. |
| Matcher.OccurrencesExactly | src/matcher.rs:80-110 | Under the same condition, a hit is reported exactly when it points at an in-scope expression equal to the target, at that expression's position. |
| Matcher.ScanNodeComplete | src/matcher.rs:80-110 | One node's walk records every in-scope match below the node, provided the flag cannot be cleared early on the way. |
| Matcher.ScanNodeKeepsFlag | src/matcher.rs:81-95 | A walk that meets no function with the wanted name leaves the "inside the target" flag as it found it. |
| Matcher.OccurrencesInPreOrder | src/matcher.rs:97-109 | The hits are reported in strictly increasing pre-order of their paths: an expression before the expressions inside it, earlier children before later ones. So no site is reported twice. |
| Matcher.ScanNodeInPreOrder | src/matcher.rs:97-109 | The hits one node's walk adds are in strictly increasing pre-order. |
| Syntax.BeforeStrict | src/matcher.rs:97-109 | The pre-order on paths used for the finder's order is irreflexive, asymmetric and transitive. |
| Matcher.OccurrencesSound | src/matcher.rs:81-98 | Every reported hit is at a valid path, at a node equal to the target at that node's position. The path lies inside a function with the wanted name and passes through no function with another name. |
| Matcher.ScanNodeSound | src/matcher.rs:97-109 | The walk only appends hits, each inside the node it walks, and it never leaves the flag set when it started clear. |
| Matcher.OccurrencesNeedDeclaredFunction | src/matcher.rs:81-87 | A function name that is not declared has no sites. |
| Matcher.FunctionCollector.VisitNode | src/matcher.rs:60-70 | Every free function and impl method is recorded, then its descendants, in visit order. |
| Matcher.CollectFunctionNames | src/matcher.rs:50-54 | The names returned are `FunctionNames(file)`. |
| Matcher.FunctionNamesExactly | src/matcher.rs:60-69 | A name is collected exactly when some path in the file leads to a free function or impl method with that name. |
| Mutator.Mutator.constructor | src/mutator.rs:81-89 | The mutator starts outside any target function, at count 0, with nothing applied. |
| Mutator.Mutator.VisitNode | src/mutator.rs:29-63 | Visiting a node rebuilds it and moves the fields exactly as the pure rewrite `RewriteNode` does. |
| Mutator.Mutator.VisitFn | src/mutator.rs:30-44 | Only a function with the wanted name is walked, with the flag set and cleared afterwards. |
| Mutator.Mutator.VisitExpr | src/mutator.rs:46-62 | Once applied nothing is examined. A match of the wanted rank is replaced and not revisited; an earlier match is counted and searched below. |
| Mutator.Mutator.VisitChildren | src/mutator.rs:29-63 | The children are rewritten left to right, as `RewriteKids` describes. |
| Mutator.AppliedNode | src/mutator.rs:47-49 | Once the replacement is made, no node changes and nothing more is counted. |
| Mutator.RewriteNodeAgrees | src/mutator.rs:51-61 | Started in step with the finder, the mutator replaces exactly the node of the hit of rank t if the finder records it there. Otherwise it changes nothing and stays in step. |
| Mutator.RewriteReplacesRankedSite | src/mutator.rs:51-61 | The rewrite succeeds iff the finder reports a site of rank t. It then replaces exactly that site's node; otherwise the file is unchanged. |
| Mutator.Apply | src/mutator.rs:74-100 | Success iff the site's rank is below the number of sites. The result is the file with that one site replaced. On failure the file is unchanged and the error is `FailedToApply` with its fixed reason. |
| Codegen.Locations | src/codegen.rs:77 | One location per site, in order, each the site's `to_location`. |
| Codegen.PrepareMutation | src/codegen.rs:26-96 | The method's result is the pure `Prepared`, which the three lemmas below characterise. |
| Codegen.PreparedParseErrors | src/codegen.rs:30-48 | Parse errors come first and in order: the file, then the original, then the replacement. |
| Codegen.PreparedAfterParsing | src/codegen.rs:50-80 | `FunctionNotFound` iff no function has the name, carrying every collected name. `NoMatch` iff the function exists and has no site. `AmbiguousMatch` iff there are two or more sites, with their count and their locations in order. `FailedToApply` never happens. |
| Codegen.PreparedSuccess | src/codegen.rs:82-95 | Success iff everything parses and there is exactly one site. The result names that site with rank 0, and its text prints the file with only that node replaced. |
| Codegen.PreparedFromFileReads | src/codegen.rs:99-110 | A missing or undecodable file gives `FileReadError` with the path. A readable file is prepared from its text. |
| Codegen.ApplyMutationToFile | src/codegen.rs:99-110 | Reads the file and prepares it: the result is `PreparedFromFile` on the current files. |
| Runner.ContainsIff | src/runner.rs:226-228 | `Contains(s, pat)` holds iff `pat` occurs in `s` at some index. |
| Runner.StatusOfOutcome | src/runner.rs:216-243 | A successful run means Survived. A failing run is CompileError iff stderr contains a compile marker, else Killed. A timed-out spawn means Timeout; any other spawn failure means ConfigError. |
| Runner.SingleResult | src/runner.rs:81-192 | A rule's result names that rule and carries the given duration. |
| Runner.SingleResultLine | src/runner.rs:146 | `line` is known exactly when the rule validates, and then it is the replaced site's line. A rule that does not validate is a configuration error carrying the validation message. |
| Runner.SingleResultTestsMutatedTree | src/runner.rs:163-179 | When the rule validates and the write succeeds, the status is what the tests report on the files with exactly that file replaced by the mutated text. |
| Runner.WriteTestRestore | src/runner.rs:148-169 | If writing the mutated text fails, the tests are not run, the write is the only one logged and the files are unchanged. Otherwise the tests see the files with exactly that file replaced by the mutated text, the original text is written back, and the files end as they began unless that restore fails, which leaves the mutated text in place. |
| Runner.RunSingleMutation | src/runner.rs:81-192 | The result is `SingleResult` of the files it started from, decided by the outcome of the first write, if any. At most two writes are logged and the log only grows. A rule that does not validate (`ValidateOne`) writes nothing and leaves the files as they were. When the write of the original text back succeeds, or nothing was written, the files end as they began. |
| Runner.RunRule | src/runner.rs:65-74 | One turn of the loop runs one rule. The rule's result is `SingleResult` of the files it started from and the outcome of its first write. Its writes are appended to the log, and the files come back as they were when its restore succeeds. |
| Runner.RunMutationTests | src/runner.rs:58-78 | One result per rule, in order. Rule i's result is `SingleResult` of the files it started from and the outcome of its first write. The runs are chained: each starts from the files the previous one left, and the log is their writes in order. When every restore succeeds, every rule runs against the original files and they are there again at the end. |
| Runner.ChainedRestored | src/runner.rs:58-78 | In a chain of runs whose restores all succeeded, every run starts from the first files and the chain ends with them. |
| Runner.ValidateMutations | src/runner.rs:247-264 | One verdict per rule, in order. A missing file gives `FileNotFound`; otherwise the verdict is that of preparing the rule against the file. |
| Report.New | src/report.rs:19-25 | The report keeps the results as given. |
| Report.TotalDurationSnoc | src/report.rs:20 | The total duration is the sum of the durations: one more result adds its duration. |
| Report.TotalDurationBounds | src/report.rs:20 | No single result's duration exceeds the total. |
| Report.CountsAddUpToTotal | src/report.rs:28-70 | killed + survived + timeouts + compile errors + config errors == total. |
| Report.ScoreBounds | src/report.rs:74-80 | The score lies in [0, 100]. It is 100 iff nothing survived, and 0 iff something survived and nothing was killed. |
| Report.ScoreIgnoresUndecided | src/report.rs:72-80 | A timeout, compile error or configuration error leaves the score unchanged. |
| Report.SurvivingMutationsExactly | src/report.rs:83-88 | The surviving mutations are exactly the Survived results, kept in order, and there are `survived()` of them. |
| Report.ExitCodeZero | src/main.rs:116-123 | The exit code is 0 exactly when every result was killed, timed out or failed to compile. |
| Scenarios.FoundOnlyInTheNamedFunction | src/matcher.rs:319-338 | In the two-function file, `a + b` is found once in `add`, at line 3 column 17 of the indented test text, and never in `other`. |
| Scenarios.ReplacingTheFirstOfTwo | src/mutator.rs:131-153 | In `calc`, both `a + b` are found in order. Replacing rank 0 rewrites the first one and leaves the second in place. |
| Scenarios.NestedMatchesAreBothReported | src/matcher.rs:107-108 | `(a + b)` and the `a + b` inside it are both reported, the outer one first. |
| Scenarios.NestedNamesakeEndsTheSearch | src/matcher.rs:81-87 | After a nested function with the wanted name, the enclosing function is no longer searched. A matching, in-scope `a` after it is not reported. |
| Scenarios.OperatorsAndOperandsDecide | src/matcher.rs:296-316 | `a + b` equals itself wherever written, but not `a - b` or `x + y`; `a >= b` is not `a > b`. |
| Scenarios.FreeFunctionsAndMethodsAreCollected | src/matcher.rs:341-358 | `foo`, `bar` and the impl method `baz` are all collected, in that order. |

## Left out

- Parsing (syn), printing (prettyplease) and token spans (proc_macro2) are foreign
  libraries. They are the uninterpreted functions of a `Toolchain`, and spans are opaque
  line and column numbers.
- `type_equals` compares printed token streams. A type is kept as that printed string.
- Expressions that syn keeps inside macro token streams, patterns, types and attributes are
  not nodes of the tree. Nested items are walked as plain containers, except free
  functions and impl methods.
- Running `cargo test` in a child process is an oracle from the file-system state to
  exit status and output, or to a spawn error. `from_utf8_lossy` decoding is folded into
  that oracle's strings. The `--quiet` and verbose flags and the `eprintln!` progress and
  warning output are left out.
- Wall-clock time: each run's duration is an input, not measured.
- `Path::join` is simplified: an absolute file name replaces the directory, and otherwise
  one `/` is inserted. `Path::exists` is membership in the file map.
- A failed write is modelled as leaving the file unchanged. The message of a failed
  write is chosen by the environment.
- The mutator's in-place update of the syntax tree is modelled on values: each visit
  returns the rebuilt node, so aliasing into the tree is not modelled.
- `MutationResult::description`, `MutationReport::print`, `format_duration`,
  `generate_source`'s formatting, the CLI in `src/main.rs` (except its exit code), and
  configuration loading, ID generation and `Config::validate` are not part of this model.
- The score is a real number, not an `f64`.
- Runner.RunMutationTests: the contract does not repeat, per rule, that a rule which does
  not validate writes nothing. `Runner.RunSingleMutation` states it for each rule, but
  carrying it through the loop exceeds the proof budget.
- Matcher.OccurrencesComplete: stated only for files where no function with the wanted
  name contains another of that name. Otherwise the flag is cleared early and later
  matches are missed, as `Scenarios.NestedNamesakeEndsTheSearch` shows.
- Runner.RunSingleMutation: the timeout argument is accepted and ignored, as in the code.
