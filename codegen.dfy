/** Preparing a mutation: from the text of a source file and one rule, either the
    mutated text and the site that was replaced, or the first error met.

    Parsing Rust and printing a syntax tree back to text are done by libraries
    (syn and prettyplease); here they are the three functions of a `Toolchain`. */
module Codegen {
  import opened Syntax
  import opened Errors
  import opened Matcher
  import opened Mutator
  import opened Configuration
  import opened Files

  datatype Parsed<T> = Parsed(value: T) | Unparsable(message: string)

  /** The parser for whole files, the parser for single expressions, and the printer. */
  datatype Toolchain = Toolchain(
    parseFile: string -> Parsed<SourceFile>,
    parseExpr: string -> Parsed<Expr>,
    unparse: File -> string)

  datatype PreparedMutation = PreparedMutation(mutatedSource: string, site: MatchedSite)

  /** The locations an ambiguity error lists, one per site, in the same order. */
  function Locations(sites: seq<MatchedSite>): (locs: seq<MatchLocation>)
    ensures |locs| == |sites|
    ensures forall i | 0 <= i < |sites| :: locs[i] == ToLocation(sites[i])
  {
    seq(|sites|, i requires 0 <= i < |sites| => ToLocation(sites[i]))
  }

  const NotFoundDuringMutation: string := "Target expression not found during mutation"

  /** What `prepare_mutation` returns: checks in a fixed order, the first failing
      one decides the error. */
  function Prepared(source: string, m: MutationConfig, tc: Toolchain): Result<PreparedMutation> {
    match tc.parseFile(source)
    case Unparsable(e) => Err(ParseError(m.file, e))
    case Parsed(ast) =>
      match tc.parseExpr(m.original)
      case Unparsable(e) => Err(InvalidOriginal(m.original, e))
      case Parsed(original) =>
        match tc.parseExpr(m.replacement)
        case Unparsable(e) => Err(InvalidReplacement(m.replacement, e))
        case Parsed(replacement) =>
          var functions := FunctionNames(ast);
          if m.functionName !in functions then
            Err(FunctionNotFound(m.file, m.functionName, functions))
          else
            var matches := SitesOf(Occurrences(ast, m.functionName, original));
            if |matches| == 0 then Err(NoMatch(m.file, m.functionName, m.original))
            else if |matches| > 1 then
              Err(AmbiguousMatch(m.functionName, m.original, |matches|, Locations(matches)))
            else
              var (mutated, applied) := Rewrite(ast, m.functionName, original, replacement,
                                                matches[0].matchIndex);
              if !applied then Err(FailedToApply(NotFoundDuringMutation))
              else Ok(PreparedMutation(tc.unparse(mutated), matches[0]))
  }

  /** `prepare_mutation`, step by step. */
  method PrepareMutation(source: string, m: MutationConfig, tc: Toolchain)
    returns (r: Result<PreparedMutation>)
    ensures r == Prepared(source, m, tc)
  {
    var ast: SourceFile;
    match tc.parseFile(source) {
      case Unparsable(e) => return Err(ParseError(m.file, e));
      case Parsed(a) => ast := a;
    }
    var original: Expr;
    match tc.parseExpr(m.original) {
      case Unparsable(e) => return Err(InvalidOriginal(m.original, e));
      case Parsed(o) => original := o;
    }
    var replacement: Expr;
    match tc.parseExpr(m.replacement) {
      case Unparsable(e) => return Err(InvalidReplacement(m.replacement, e));
      case Parsed(x) => replacement := x;
    }
    var functions := CollectFunctionNames(ast);
    if m.functionName !in functions {
      return Err(FunctionNotFound(m.file, m.functionName, functions));
    }
    var matches := FindExpressionInFunction(ast, m.functionName, original);
    if |matches| == 0 {
      return Err(NoMatch(m.file, m.functionName, m.original));
    } else if |matches| > 1 {
      return Err(AmbiguousMatch(m.functionName, m.original, |matches|, Locations(matches)));
    }
    var target := matches[0];
    var mutated, applied := Apply(ast, m.functionName, original, replacement, target);
    RewriteReplacesRankedSite(ast, m.functionName, original, replacement, target.matchIndex);
    if applied.Err? {
      // The only site has rank 0, so the mutator always finds it.
      assert false;
    }
    r := Ok(PreparedMutation(tc.unparse(mutated), target));
  }

  // ---------------------------------------------------------------------------
  // What preparation guarantees

  /** The three parse failures come first, in this order: the file, then the
      original, then the replacement. */
  lemma PreparedParseErrors(source: string, m: MutationConfig, tc: Toolchain)
    ensures var r := Prepared(source, m, tc);
      (tc.parseFile(source).Unparsable? <==> r.Err? && r.error.ParseError?)
      && (tc.parseFile(source).Unparsable? ==> r.error == ParseError(m.file, tc.parseFile(source).message))
      && (r.Err? && r.error.InvalidOriginal? <==>
            tc.parseFile(source).Parsed? && tc.parseExpr(m.original).Unparsable?)
      && (r.Err? && r.error.InvalidReplacement? <==>
            tc.parseFile(source).Parsed? && tc.parseExpr(m.original).Parsed?
            && tc.parseExpr(m.replacement).Unparsable?)
  {
  }

  /** Once everything parses: the function must be declared somewhere in the file
      (else the error lists every declared function), then exactly one site must be
      found. Ambiguity reports every site's location in order, and no mutation is
      ever reported as failing to apply. */
  lemma PreparedAfterParsing(source: string, m: MutationConfig, tc: Toolchain)
    requires tc.parseFile(source).Parsed? && tc.parseExpr(m.original).Parsed?
    requires tc.parseExpr(m.replacement).Parsed?
    ensures var ast := tc.parseFile(source).value;
      var original := tc.parseExpr(m.original).value;
      var replacement := tc.parseExpr(m.replacement).value;
      var hs := Occurrences(ast, m.functionName, original);
      var r := Prepared(source, m, tc);
      (r.Err? && r.error.FunctionNotFound? <==>
         !exists p :: ValidPath(ast.items, p) && IsFn(NodeAt(ast.items, p))
                      && FnName(NodeAt(ast.items, p)) == m.functionName)
      && (r.Err? && r.error.FunctionNotFound? ==>
            r.error == FunctionNotFound(m.file, m.functionName, FunctionNames(ast)))
      && (r.Err? && r.error.NoMatch? <==> m.functionName in FunctionNames(ast) && |hs| == 0)
      && (r.Err? && r.error.AmbiguousMatch? <==> |hs| >= 2)
      && (|hs| >= 2 ==>
            r.error.matchCount == |hs| && |r.error.locations| == |hs|
            && forall i | 0 <= i < |hs| ::
                 r.error.locations[i] == MatchLocation(hs[i].span.line, hs[i].span.column + 1))
      && !(r.Err? && r.error.FailedToApply?)
  {
    var ast := tc.parseFile(source).value;
    var original := tc.parseExpr(m.original).value;
    FunctionNamesExactly(ast, m.functionName);
    if m.functionName !in FunctionNames(ast) {
      OccurrencesNeedDeclaredFunction(ast, m.functionName, original);
    }
    RewriteReplacesRankedSite(ast, m.functionName, original, tc.parseExpr(m.replacement).value, 0);
  }

  /** Success happens exactly when the function's only site was found; the result
      names that site (rank 0) and is the printed file with that one expression
      replaced by the replacement and every other node as it was. */
  lemma PreparedSuccess(source: string, m: MutationConfig, tc: Toolchain)
    ensures var r := Prepared(source, m, tc);
      r.Ok? <==>
        tc.parseFile(source).Parsed? && tc.parseExpr(m.original).Parsed?
        && tc.parseExpr(m.replacement).Parsed?
        && |Occurrences(tc.parseFile(source).value, m.functionName, tc.parseExpr(m.original).value)| == 1
    ensures var r := Prepared(source, m, tc);
      r.Ok? ==>
        var ast := tc.parseFile(source).value;
        var replacement := tc.parseExpr(m.replacement).value;
        var h := Occurrences(ast, m.functionName, tc.parseExpr(m.original).value)[0];
        r.value.site == MatchedSite(h.span.line, h.span.column + 1, 0)
        && ValidPath(ast.items, h.path)
        && var items := ReplaceAt(ast.items, h.path, replacement);
           r.value.mutatedSource == tc.unparse(File(items))
           && ValidPath(items, h.path) && NodeAt(items, h.path) == replacement
           && forall q | ValidPath(ast.items, q) && Diverge(h.path, q) ::
                ValidPath(items, q) && NodeAt(items, q) == NodeAt(ast.items, q)
  {
    var r := Prepared(source, m, tc);
    if tc.parseFile(source).Parsed? && tc.parseExpr(m.original).Parsed?
       && tc.parseExpr(m.replacement).Parsed? {
      var ast := tc.parseFile(source).value;
      var original := tc.parseExpr(m.original).value;
      var replacement := tc.parseExpr(m.replacement).value;
      var hs := Occurrences(ast, m.functionName, original);
      if m.functionName !in FunctionNames(ast) {
        OccurrencesNeedDeclaredFunction(ast, m.functionName, original);
      }
      RewriteReplacesRankedSite(ast, m.functionName, original, replacement, 0);
      if |hs| == 1 {
        ReplaceAtPlaces(ast.items, hs[0].path, replacement);
        forall q | ValidPath(ast.items, q) && Diverge(hs[0].path, q)
          ensures ValidPath(ReplaceAt(ast.items, hs[0].path, replacement), q)
          ensures NodeAt(ReplaceAt(ast.items, hs[0].path, replacement), q) == NodeAt(ast.items, q)
        {
          ReplaceAtElsewhere(ast.items, hs[0].path, replacement, q);
        }
      }
    }
  }

  // ---------------------------------------------------------------------------
  // From a file on disk

  /** `apply_mutation_to_file`: read the file, then prepare. */
  function PreparedFromFile(files: map<string, FileEntry>, path: string, m: MutationConfig,
                            tc: Toolchain): Result<PreparedMutation>
  {
    match ReadToString(files, path)
    case ReadFailed(e) => Err(FileReadError(path, e))
    case ReadOk(source) => Prepared(source, m, tc)
  }

  /** A file that cannot be read fails with `FileReadError` naming the path;
      a readable one is prepared from its text. */
  lemma PreparedFromFileReads(files: map<string, FileEntry>, path: string, m: MutationConfig,
                              tc: Toolchain)
    ensures var r := PreparedFromFile(files, path, m, tc);
      (r.Err? && r.error.FileReadError? <==> !(path in files && files[path].Text?))
      && (path !in files ==> r == Err(FileReadError(path, NotFoundMessage)))
      && (path in files && files[path].Text? ==> r == Prepared(files[path].text, m, tc))
  {
    if path in files && files[path].Text? {
      var r := Prepared(files[path].text, m, tc);
      PreparedParseErrors(files[path].text, m, tc);
      if r.Err? && r.error.FileReadError? {
        if tc.parseFile(files[path].text).Parsed? && tc.parseExpr(m.original).Parsed?
           && tc.parseExpr(m.replacement).Parsed? {
          PreparedAfterParsing(files[path].text, m, tc);
        }
      }
    }
  }

  method ApplyMutationToFile(fs: FileSystem, path: string, m: MutationConfig, tc: Toolchain)
    returns (r: Result<PreparedMutation>)
    ensures r == PreparedFromFile(fs.files, path, m, tc)
  {
    match ReadToString(fs.files, path) {
      case ReadFailed(e) => r := Err(FileReadError(path, e));
      case ReadOk(source) => r := PrepareMutation(source, m, tc);
    }
  }
}
