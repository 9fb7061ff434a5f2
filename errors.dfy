/** The errors a mutation can fail with, and how they are rendered as text. */
module Errors {

  /** A place in the source file where an expression was found. */
  datatype MatchLocation = MatchLocation(line: nat, column: nat)

  datatype MutationError =
    | InvalidOriginal(code: string, parseError: string)
    | InvalidReplacement(code: string, parseError: string)
    | FileNotFound(file: string)
    | FileReadError(file: string, error: string)
    | ParseError(file: string, error: string)
    | FunctionNotFound(file: string, functionName: string, availableFunctions: seq<string>)
    | NoMatch(file: string, functionName: string, original: string)
    | AmbiguousMatch(functionName: string, original: string, matchCount: nat,
                     locations: seq<MatchLocation>)
    | FailedToApply(reason: string)
    | WriteError(file: string, error: string)
    | TestExecutionError(error: string)
    | ConfigError(message: string)

  /** The outcome of an operation that can fail with a `MutationError`. */
  datatype Result<T> = Ok(value: T) | Err(error: MutationError)

  // ---------------------------------------------------------------------------
  // Text helpers

  /** The parts, in order, with `sep` between each two neighbours. */
  function Join(parts: seq<string>, sep: string): string
    decreases |parts|
  {
    if |parts| == 0 then ""
    else if |parts| == 1 then parts[0]
    else parts[0] + sep + Join(parts[1..], sep)
  }

  /** Joining one more part appends the separator and that part. */
  lemma {:induction false} JoinSnoc(parts: seq<string>, sep: string, last: string)
    requires |parts| > 0
    ensures Join(parts + [last], sep) == Join(parts, sep) + sep + last
    decreases |parts|
  {
    if |parts| > 1 {
      assert (parts + [last])[1..] == parts[1..] + [last];
      JoinSnoc(parts[1..], sep, last);
    }
  }

  function DigitChar(d: nat): char
    requires d < 10
  {
    "0123456789"[d]
  }

  predicate IsDigit(c: char) {
    '0' <= c <= '9'
  }

  /** Decimal rendering of a number, as `format!("{}", n)` prints a `usize`. */
  function NatToString(n: nat): (s: string)
    ensures |s| >= 1 && forall i | 0 <= i < |s| :: IsDigit(s[i])
    decreases n
  {
    if n < 10 then [DigitChar(n)] else NatToString(n / 10) + [DigitChar(n % 10)]
  }

  /** The number a string of decimal digits denotes. */
  function DecimalValue(s: string): nat
    requires forall i | 0 <= i < |s| :: IsDigit(s[i])
    decreases |s|
  {
    if s == [] then 0
    else
      assert IsDigit(s[|s| - 1]);
      10 * DecimalValue(s[..|s| - 1]) + (s[|s| - 1] as int - '0' as int)
  }

  /** The rendering reads back as the number it renders, and has no leading zero. */
  lemma {:induction false} NatToStringRoundTrip(n: nat)
    ensures DecimalValue(NatToString(n)) == n
    ensures NatToString(n)[0] == '0' ==> n == 0
    decreases n
  {
    if n >= 10 {
      NatToStringRoundTrip(n / 10);
      var s := NatToString(n);
      assert s[..|s| - 1] == NatToString(n / 10);
    }
  }

  // ---------------------------------------------------------------------------
  // Rendering

  function DescribeLocation(loc: MatchLocation): string {
    "line " + NatToString(loc.line) + ", column " + NatToString(loc.column)
  }

  /** Each location as "line L, column C", in order, separated by "; ". */
  function FormatLocations(locations: seq<MatchLocation>): (r: string)
    ensures |locations| == 0 ==> r == ""
    ensures |locations| == 1 ==> r == DescribeLocation(locations[0])
  {
    Join(seq(|locations|, i requires 0 <= i < |locations| => DescribeLocation(locations[i])), "; ")
  }

  /** One more location adds "; " and its description at the end. */
  lemma FormatLocationsSnoc(locations: seq<MatchLocation>, loc: MatchLocation)
    requires |locations| > 0
    ensures FormatLocations(locations + [loc])
         == FormatLocations(locations) + "; " + DescribeLocation(loc)
  {
    var parts := seq(|locations|, i requires 0 <= i < |locations| => DescribeLocation(locations[i]));
    var more := locations + [loc];
    assert seq(|more|, i requires 0 <= i < |more| => DescribeLocation(more[i]))
        == parts + [DescribeLocation(loc)];
    JoinSnoc(parts, "; ", DescribeLocation(loc));
  }

  /** The text of each error, as the program prints it. */
  function Message(e: MutationError): string {
    match e
    case InvalidOriginal(code, parseError) =>
      "Invalid original expression: '" + code + "'\n  Parse error: " + parseError
    case InvalidReplacement(code, parseError) =>
      "Invalid replacement expression: '" + code + "'\n  Parse error: " + parseError
    case FileNotFound(file) => "File not found: " + file
    case FileReadError(file, error) => "Failed to read file '" + file + "': " + error
    case ParseError(file, error) => "Failed to parse '" + file + "' as Rust: " + error
    case FunctionNotFound(file, functionName, available) =>
      "Function '" + functionName + "' not found in " + file
      + "\n  Available functions: " + Join(available, ", ")
    case NoMatch(_, functionName, original) =>
      "Expression '" + original + "' not found in function '" + functionName + "'"
    case AmbiguousMatch(functionName, original, matchCount, locations) =>
      "Found " + NatToString(matchCount) + " matches for '" + original + "' in '" + functionName
      + "'\n  Locations: " + FormatLocations(locations)
    case FailedToApply(reason) => "Failed to apply mutation: " + reason
    case WriteError(file, error) => "Failed to write mutated file '" + file + "': " + error
    case TestExecutionError(error) => "Test execution failed: " + error
    case ConfigError(message) => "Configuration error: " + message
  }

  /** The message for a missing function ends with the available names joined by ", ". */
  lemma FunctionNotFoundListsAvailable(file: string, functionName: string, available: seq<string>)
    ensures var m := Message(FunctionNotFound(file, functionName, available));
      var tail := Join(available, ", ");
      |m| >= |tail| && m[|m| - |tail|..] == tail
  {
  }
}
