/** Finding the sites of an expression inside a named function, and listing the
    functions a file declares.

    Both are syn visitors over the whole file. The finder keeps a flag that is set
    on entering a free function or impl method with the wanted name and cleared on
    leaving it; every expression met while the flag is set and structurally equal to
    the target is recorded, in the order the visitor meets it (pre-order), and its
    children are still searched. The specification functions `ScanNode`/`ScanKids`
    describe that walk; the classes below perform it step by step. */
module Matcher {
  import opened Syntax
  import opened Equality
  import opened Errors

  /** A found site: 1-based line and column, and its rank among all sites found. */
  datatype MatchedSite = MatchedSite(line: nat, column: nat, matchIndex: nat)

  /** The location an error reports for a site: the same line and column. */
  function ToLocation(site: MatchedSite): (loc: MatchLocation)
    ensures loc.line == site.line && loc.column == site.column
  {
    MatchLocation(site.line, site.column)
  }

  /** Two sites that differ only in their rank report the same location. */
  lemma ToLocationForgetsIndex(a: MatchedSite, b: MatchedSite)
    ensures ToLocation(a) == ToLocation(b) <==> a.line == b.line && a.column == b.column
  {
  }

  // ---------------------------------------------------------------------------
  // The walk, as a specification

  /** A recorded expression: where it sits (a path from the file's item list) and the
      start of its first token. */
  datatype Hit = Hit(path: Path, span: Span)

  /** The walk's state: the in-target-function flag and the hits so far. */
  datatype Scan = Scan(inTarget: bool, hits: seq<Hit>)

  /** The walk over one node `n` found at path `at`. A function is entered only
      when its name is `fname`, and the flag is cleared (not restored) on leaving. */
  function ScanNode(n: Node, at: Path, fname: string, target: Expr, s: Scan): Scan
    requires WellFormed(n)
    decreases n, 1
  {
    if IsFn(n) then
      if FnName(n) == fname then
        ScanKids(n.kids, at, fname, target, s.(inTarget := true)).(inTarget := false)
      else s
    else if IsExpr(n) && s.inTarget && AstEquals(n, target) then
      ScanKids(n.kids, at, fname, target, s.(hits := s.hits + [Hit(at, n.span)]))
    else
      ScanKids(n.kids, at, fname, target, s)
  }

  /** The walk over the children `ns` of the node at `parent`, left to right. */
  function ScanKids(ns: seq<Node>, parent: Path, fname: string, target: Expr, s: Scan): Scan
    requires AllWellFormed(ns)
    decreases ns, 0
  {
    if ns == [] then s
    else
      var k := |ns| - 1;
      ScanNode(ns[k], parent + [k], fname, target, ScanKids(ns[..k], parent, fname, target, s))
  }

  /** Every expression the finder records in `file`, in the order it records them. */
  function Occurrences(file: SourceFile, fname: string, target: Expr): seq<Hit> {
    ScanKids(file.items, [], fname, target, Scan(false, [])).hits
  }

  /** The sites reported for a list of hits: the span's line, the column made
      1-based, and the position in the list as the rank. */
  function SitesOf(hits: seq<Hit>): (sites: seq<MatchedSite>)
    ensures |sites| == |hits|
    ensures forall i | 0 <= i < |sites| :: sites[i].matchIndex == i
    ensures forall i | 0 <= i < |sites| ::
      sites[i].line == hits[i].span.line && sites[i].column == hits[i].span.column + 1
  {
    seq(|hits|, i requires 0 <= i < |hits| =>
      MatchedSite(hits[i].span.line, hits[i].span.column + 1, i))
  }

  lemma SitesOfSnoc(hits: seq<Hit>, h: Hit)
    ensures SitesOf(hits + [h])
         == SitesOf(hits) + [MatchedSite(h.span.line, h.span.column + 1, |hits|)]
  {
    assert forall i | 0 <= i < |hits| :: (hits + [h])[i] == hits[i];
  }

  // ---------------------------------------------------------------------------
  // The finder, step by step

  class ExpressionMatcher {
    const target: Expr
    const functionName: string
    var matches: seq<MatchedSite>
    var inTargetFunction: bool
    var currentMatchIndex: nat
    /** Where each recorded site sits in the file. */
    ghost var hits: seq<Hit>

    ghost predicate Valid()
      reads this
    {
      currentMatchIndex == |matches| && matches == SitesOf(hits)
    }

    ghost function State(): Scan
      reads this
    {
      Scan(inTargetFunction, hits)
    }

    constructor (target: Expr, functionName: string)
      ensures this.target == target && this.functionName == functionName
      ensures Valid() && matches == [] && State() == Scan(false, [])
    {
      this.target := target;
      this.functionName := functionName;
      matches := [];
      inTargetFunction := false;
      currentMatchIndex := 0;
      hits := [];
    }

    /** Visit one node (syn's `visit_*` dispatch). */
    method VisitNode(n: Node, ghost at: Path)
      requires WellFormed(n) && Valid()
      modifies this
      ensures Valid()
      ensures State() == ScanNode(n, at, functionName, target, old(State()))
      decreases n, 2
    {
      if IsFn(n) {
        VisitFn(n, at);
      } else if IsExpr(n) {
        VisitExpr(n, at);
      } else {
        VisitChildren(n.kids, at);
      }
    }

    /** `visit_item_fn` / `visit_impl_item_fn`: enter only the wanted function. */
    method VisitFn(n: Node, ghost at: Path)
      requires IsFn(n) && WellFormed(n) && Valid()
      modifies this
      ensures Valid()
      ensures State() == ScanNode(n, at, functionName, target, old(State()))
      decreases n, 1
    {
      if FnName(n) == functionName {
        inTargetFunction := true;
        VisitChildren(n.kids, at);
        inTargetFunction := false;
      }
    }

    /** `visit_expr`: record a match, then search the children. */
    method VisitExpr(n: Node, ghost at: Path)
      requires IsExpr(n) && WellFormed(n) && Valid()
      modifies this
      ensures Valid()
      ensures State() == ScanNode(n, at, functionName, target, old(State()))
      decreases n, 1
    {
      if inTargetFunction && AstEquals(n, target) {
        SitesOfSnoc(hits, Hit(at, n.span));
        matches := matches + [MatchedSite(n.span.line, n.span.column + 1, currentMatchIndex)];
        hits := hits + [Hit(at, n.span)];
        currentMatchIndex := currentMatchIndex + 1;
      }
      VisitChildren(n.kids, at);
    }

    method VisitChildren(ns: seq<Node>, ghost parent: Path)
      requires AllWellFormed(ns) && Valid()
      modifies this
      ensures Valid()
      ensures State() == ScanKids(ns, parent, functionName, target, old(State()))
      decreases ns, 0
    {
      ghost var s0 := State();
      for i := 0 to |ns|
        invariant Valid()
        invariant State() == ScanKids(ns[..i], parent, functionName, target, s0)
      {
        assert ns[..i + 1][..i] == ns[..i];
        VisitNode(ns[i], parent + [i]);
      }
      assert ns[..|ns|] == ns;
    }
  }

  /** `find_expression_in_function`: the sites of `target` inside the functions
      named `fname`, numbered from 0 in visit order. */
  method FindExpressionInFunction(file: SourceFile, fname: string, target: Expr)
    returns (matches: seq<MatchedSite>)
    ensures matches == SitesOf(Occurrences(file, fname, target))
  {
    var matcher := new ExpressionMatcher(target, fname);
    matcher.VisitChildren(file.items, []);
    matches := matcher.matches;
  }

  // ---------------------------------------------------------------------------
  // Function names

  /** The names a collector records for `n`: its own name when it is a free
      function or impl method, then those of its descendants, in visit order. */
  function NamesIn(n: Node): seq<string>
    decreases n, 1
  {
    (if IsFn(n) then [FnName(n)] else []) + NamesInKids(n.kids)
  }

  function NamesInKids(ns: seq<Node>): seq<string>
    decreases ns, 0
  {
    if ns == [] then [] else NamesInKids(ns[..|ns| - 1]) + NamesIn(ns[|ns| - 1])
  }

  function FunctionNames(file: File): seq<string> {
    NamesInKids(file.items)
  }

  class FunctionCollector {
    var functions: seq<string>

    constructor ()
      ensures functions == []
    {
      functions := [];
    }

    method VisitNode(n: Node)
      modifies this
      ensures functions == old(functions) + NamesIn(n)
      decreases n, 1
    {
      var before := functions;
      if IsFn(n) {
        functions := functions + [FnName(n)];
      }
      VisitChildren(n.kids);
      assert functions == before + NamesIn(n);
    }

    method VisitChildren(ns: seq<Node>)
      modifies this
      ensures functions == old(functions) + NamesInKids(ns)
      decreases ns, 0
    {
      var start := functions;
      for i := 0 to |ns|
        invariant functions == start + NamesInKids(ns[..i])
      {
        assert ns[..i + 1][..i] == ns[..i];
        VisitNode(ns[i]);
      }
      assert ns[..|ns|] == ns;
    }
  }

  /** `collect_function_names`: every free function and impl method, in visit order. */
  method CollectFunctionNames(file: File) returns (names: seq<string>)
    ensures names == FunctionNames(file)
  {
    var collector := new FunctionCollector();
    collector.VisitChildren(file.items);
    names := collector.functions;
  }

  /** The name of any function reachable below a list of nodes is collected. */
  lemma {:induction false} NamesInKidsContains(ns: seq<Node>, j: nat)
    requires j < |ns|
    ensures forall x | x in NamesIn(ns[j]) :: x in NamesInKids(ns)
    decreases |ns|
  {
    var k := |ns| - 1;
    if j < k {
      NamesInKidsContains(ns[..k], j);
      assert ns[..k][j] == ns[j];
    }
  }

  lemma {:induction false} PathHasName(ns: seq<Node>, p: Path)
    requires ValidPath(ns, p) && IsFn(NodeAt(ns, p))
    ensures FnName(NodeAt(ns, p)) in NamesInKids(ns)
    decreases |p|
  {
    var n := ns[p[0]];
    var q := p[1..];
    if q != [] {
      assert NodeAt(ns, p) == NodeAt(n.kids, q);
      PathHasName(n.kids, q);
    }
    NamesInKidsContains(ns, p[0]);
  }

  lemma {:induction false} NameHasPath(n: Node, name: string)
    requires name in NamesIn(n)
    ensures exists q :: ValidPathIn(n, q) && IsFn(NodeIn(n, q)) && FnName(NodeIn(n, q)) == name
    decreases n, 1
  {
    if IsFn(n) && FnName(n) == name {
      assert ValidPathIn(n, []) && NodeIn(n, []) == n;
    } else {
      NameHasPathKids(n.kids, name);
      var p :| ValidPath(n.kids, p) && IsFn(NodeAt(n.kids, p)) && FnName(NodeAt(n.kids, p)) == name;
      assert ValidPathIn(n, p) && NodeIn(n, p) == NodeAt(n.kids, p);
    }
  }

  lemma {:induction false} NameHasPathKids(ns: seq<Node>, name: string)
    requires name in NamesInKids(ns)
    ensures exists p :: ValidPath(ns, p) && IsFn(NodeAt(ns, p)) && FnName(NodeAt(ns, p)) == name
    decreases ns, 0
  {
    var k := |ns| - 1;
    if name in NamesInKids(ns[..k]) {
      NameHasPathKids(ns[..k], name);
      var p :| ValidPath(ns[..k], p) && IsFn(NodeAt(ns[..k], p)) && FnName(NodeAt(ns[..k], p)) == name;
      assert ns[..k][p[0]] == ns[p[0]];
      assert ValidPath(ns, p) && NodeAt(ns, p) == NodeAt(ns[..k], p);
    } else {
      NameHasPath(ns[k], name);
      var q :| ValidPathIn(ns[k], q) && IsFn(NodeIn(ns[k], q)) && FnName(NodeIn(ns[k], q)) == name;
      var p := [k] + q;
      assert p[1..] == q;
      assert ValidPath(ns, p) && NodeAt(ns, p) == NodeIn(ns[k], q);
    }
  }

  /** A name is collected exactly when some free function or impl method in the
      file, at any depth, has that name. */
  lemma FunctionNamesExactly(file: File, name: string)
    ensures name in FunctionNames(file) <==>
      exists p :: ValidPath(file.items, p) && IsFn(NodeAt(file.items, p))
               && FnName(NodeAt(file.items, p)) == name
  {
    if name in FunctionNames(file) {
      NameHasPathKids(file.items, name);
    }
    forall p | ValidPath(file.items, p) && IsFn(NodeAt(file.items, p))
      ensures FnName(NodeAt(file.items, p)) in FunctionNames(file)
    {
      PathHasName(file.items, p);
    }
  }

  // ---------------------------------------------------------------------------
  // What a hit is

  /** Walking down `p` from a list of nodes, starting with flag `inT`: every free
      function or impl method passed through has the wanted name, and at the end the
      flag is set (so at least one was passed through, or the flag was set already). */
  ghost predicate InScope(ns: seq<Node>, p: Path, fname: string, inT: bool)
    requires ValidPath(ns, p)
    decreases |p|, 0
  {
    InScopeIn(ns[p[0]], p[1..], fname, inT)
  }

  ghost predicate InScopeIn(n: Node, q: Path, fname: string, inT: bool)
    requires ValidPathIn(n, q)
    decreases |q|, 1
  {
    if q == [] then inT
    else if IsFn(n) then FnName(n) == fname && InScope(n.kids, q, fname, true)
    else InScope(n.kids, q, fname, inT)
  }

  /** `m` is an expression equal to the target whose first token starts at `span`. */
  ghost predicate FoundAt(m: Node, span: Span, target: Expr) {
    IsExpr(m) && WellFormed(m) && AstEquals(m, target) && m.span == span
  }

  /** `h` points, from node `n` at path `at`, to a matching expression in scope. */
  ghost predicate HitIn(n: Node, at: Path, h: Hit, fname: string, target: Expr, inT: bool) {
    |at| <= |h.path| && h.path[..|at|] == at
    && ValidPathIn(n, h.path[|at|..])
    && FoundAt(NodeIn(n, h.path[|at|..]), h.span, target)
    && InScopeIn(n, h.path[|at|..], fname, inT)
  }

  /** `h` points, from the children `ns` of the node at `parent`, to a matching
      expression in scope. */
  ghost predicate HitUnder(ns: seq<Node>, parent: Path, h: Hit, fname: string, target: Expr, inT: bool) {
    |parent| < |h.path| && h.path[..|parent|] == parent
    && ValidPath(ns, h.path[|parent|..])
    && FoundAt(NodeAt(ns, h.path[|parent|..]), h.span, target)
    && InScope(ns, h.path[|parent|..], fname, inT)
  }

  lemma {:induction false} InScopeMonotone(ns: seq<Node>, p: Path, fname: string)
    requires ValidPath(ns, p) && InScope(ns, p, fname, false)
    ensures InScope(ns, p, fname, true)
    decreases |p|
  {
    var n := ns[p[0]];
    var q := p[1..];
    if q != [] && !IsFn(n) {
      InScopeMonotone(n.kids, q, fname);
    }
  }

  lemma LiftFromKid(ns: seq<Node>, parent: Path, k: nat, h: Hit, fname: string, target: Expr,
                    inKid: bool, inT: bool)
    requires k < |ns| && HitIn(ns[k], parent + [k], h, fname, target, inKid)
    requires inKid ==> inT
    ensures HitUnder(ns, parent, h, fname, target, inT)
  {
    var q := h.path[|parent|..];
    assert q[0] == k by {
      assert h.path[..|parent| + 1] == parent + [k];
      assert h.path[|parent|] == (parent + [k])[|parent|];
    }
    assert h.path[..|parent|] == (h.path[..|parent| + 1])[..|parent|];
    assert q[1..] == h.path[|parent| + 1..];
    if inT && !inKid && q[1..] != [] {
      var n := ns[k];
      if !IsFn(n) {
        InScopeMonotone(n.kids, q[1..], fname);
      }
    }
  }

  lemma LiftFromPrefix(ns: seq<Node>, k: nat, parent: Path, h: Hit, fname: string, target: Expr,
                       inT: bool)
    requires k <= |ns| && HitUnder(ns[..k], parent, h, fname, target, inT)
    ensures HitUnder(ns, parent, h, fname, target, inT)
  {
    var q := h.path[|parent|..];
    assert ns[..k][q[0]] == ns[q[0]];
  }

  lemma LiftToNode(n: Node, at: Path, h: Hit, fname: string, target: Expr, inT: bool)
    requires !IsFn(n) || FnName(n) == fname
    requires HitUnder(n.kids, at, h, fname, target, if IsFn(n) then true else inT)
    ensures HitIn(n, at, h, fname, target, inT)
  {
  }

  /** Soundness of one node's walk: it only appends hits, each pointing at an
      expression below `n` equal to the target and in the scope of the wanted
      function, and the flag is never left set when it was clear before. */
  lemma {:induction false} ScanNodeSound(n: Node, at: Path, fname: string, target: Expr, s: Scan)
    requires WellFormed(n)
    ensures var r := ScanNode(n, at, fname, target, s);
      |s.hits| <= |r.hits| && r.hits[..|s.hits|] == s.hits
      && (r.inTarget ==> s.inTarget)
      && forall i | |s.hits| <= i < |r.hits| :: HitIn(n, at, r.hits[i], fname, target, s.inTarget)
    decreases n, 1
  {
    var r := ScanNode(n, at, fname, target, s);
    if IsFn(n) {
      if FnName(n) == fname {
        var s1 := s.(inTarget := true);
        ScanKidsSound(n.kids, at, fname, target, s1);
        forall i | |s.hits| <= i < |r.hits|
          ensures HitIn(n, at, r.hits[i], fname, target, s.inTarget)
        {
          LiftToNode(n, at, r.hits[i], fname, target, s.inTarget);
        }
      }
    } else if IsExpr(n) && s.inTarget && AstEquals(n, target) {
      var h := Hit(at, n.span);
      var s1 := s.(hits := s.hits + [h]);
      ScanKidsSound(n.kids, at, fname, target, s1);
      assert r.hits[|s.hits|] == h;
      assert h.path[|at|..] == [] && h.path[..|at|] == at;
      forall i | |s.hits| < i < |r.hits|
        ensures HitIn(n, at, r.hits[i], fname, target, s.inTarget)
      {
        LiftToNode(n, at, r.hits[i], fname, target, s.inTarget);
      }
    } else {
      ScanKidsSound(n.kids, at, fname, target, s);
      forall i | |s.hits| <= i < |r.hits|
        ensures HitIn(n, at, r.hits[i], fname, target, s.inTarget)
      {
        LiftToNode(n, at, r.hits[i], fname, target, s.inTarget);
      }
    }
  }

  lemma {:induction false} ScanKidsSound(ns: seq<Node>, parent: Path, fname: string, target: Expr, s: Scan)
    requires AllWellFormed(ns)
    ensures var r := ScanKids(ns, parent, fname, target, s);
      |s.hits| <= |r.hits| && r.hits[..|s.hits|] == s.hits
      && (r.inTarget ==> s.inTarget)
      && forall i | |s.hits| <= i < |r.hits| :: HitUnder(ns, parent, r.hits[i], fname, target, s.inTarget)
    decreases ns, 0
  {
    if ns != [] {
      var k := |ns| - 1;
      var s1 := ScanKids(ns[..k], parent, fname, target, s);
      ScanKidsSound(ns[..k], parent, fname, target, s);
      var r := ScanNode(ns[k], parent + [k], fname, target, s1);
      ScanNodeSound(ns[k], parent + [k], fname, target, s1);
      forall i | |s.hits| <= i < |r.hits|
        ensures HitUnder(ns, parent, r.hits[i], fname, target, s.inTarget)
      {
        if i < |s1.hits| {
          assert r.hits[i] == s1.hits[i];
          LiftFromPrefix(ns, k, parent, r.hits[i], fname, target, s.inTarget);
        } else {
          LiftFromKid(ns, parent, k, r.hits[i], fname, target, s1.inTarget, s.inTarget);
        }
      }
    }
  }

  /** Every recorded site is an expression of the file equal to the target, at the
      recorded position, inside a function with the wanted name and inside no
      function with another name. */
  lemma OccurrencesSound(file: SourceFile, fname: string, target: Expr)
    ensures forall h | h in Occurrences(file, fname, target) ::
      ValidPath(file.items, h.path)
      && FoundAt(NodeAt(file.items, h.path), h.span, target)
      && InScope(file.items, h.path, fname, false)
  {
    ScanKidsSound(file.items, [], fname, target, Scan(false, []));
    forall h | h in Occurrences(file, fname, target)
      ensures ValidPath(file.items, h.path)
      ensures FoundAt(NodeAt(file.items, h.path), h.span, target)
      ensures InScope(file.items, h.path, fname, false)
    {
      assert h.path[0..] == h.path;
    }
  }

  lemma {:induction false} InScopePassesNamedFn(ns: seq<Node>, p: Path, fname: string)
    requires ValidPath(ns, p) && InScope(ns, p, fname, false)
    ensures exists p' :: ValidPath(ns, p') && IsFn(NodeAt(ns, p')) && FnName(NodeAt(ns, p')) == fname
    decreases |p|
  {
    var n := ns[p[0]];
    var q := p[1..];
    if IsFn(n) {
      PathToItem(ns, p[0]);
    } else {
      InScopePassesNamedFn(n.kids, q, fname);
      var p'' :| ValidPath(n.kids, p'') && IsFn(NodeAt(n.kids, p'')) && FnName(NodeAt(n.kids, p'')) == fname;
      PathThroughItem(ns, p[0], p'');
    }
  }

  /** A function that is not declared has no sites: the finder can only report
      expressions inside a function of the given name. */
  lemma OccurrencesNeedDeclaredFunction(file: SourceFile, fname: string, target: Expr)
    requires fname !in FunctionNames(file)
    ensures Occurrences(file, fname, target) == []
  {
    var hs := Occurrences(file, fname, target);
    if hs != [] {
      OccurrencesSound(file, fname, target);
      assert hs[0] in hs;
      InScopePassesNamedFn(file.items, hs[0].path, fname);
      FunctionNamesExactly(file, fname);
    }
  }

  // ---------------------------------------------------------------------------
  // Completeness and order

  /** The walk from `n` meets a function named `fname`. The walk enters no function
      on its own, so it stops at the first function on every branch. */
  ghost predicate ReachesNamesake(n: Node, fname: string)
    decreases n
  {
    if IsFn(n) then FnName(n) == fname
    else exists i | 0 <= i < |n.kids| :: ReachesNamesake(n.kids[i], fname)
  }

  /** Inside every function named `fname` that the finder enters, the walk meets no
      second function of that name. Leaving such a nested namesake clears the flag
      while the outer function is still being walked, so its later expressions are
      missed; without one, the finder misses nothing. */
  ghost predicate NoNestedNamesake(n: Node, fname: string)
    decreases n
  {
    if IsFn(n) then
      FnName(n) == fname ==> forall i | 0 <= i < |n.kids| :: !ReachesNamesake(n.kids[i], fname)
    else forall i | 0 <= i < |n.kids| :: NoNestedNamesake(n.kids[i], fname)
  }

  /** What completeness needs of a node the walk enters with flag `inT`. */
  ghost predicate CleanFor(n: Node, fname: string, inT: bool) {
    if inT then !ReachesNamesake(n, fname) else NoNestedNamesake(n, fname)
  }

  /** A walk that meets no function named `fname` leaves the flag as it found it. */
  lemma {:induction false} ScanNodeKeepsFlag(n: Node, at: Path, fname: string, target: Expr, s: Scan)
    requires WellFormed(n) && !ReachesNamesake(n, fname)
    ensures ScanNode(n, at, fname, target, s).inTarget == s.inTarget
    decreases n, 1
  {
    if !IsFn(n) {
      var s1 := if IsExpr(n) && s.inTarget && AstEquals(n, target)
                then s.(hits := s.hits + [Hit(at, n.span)]) else s;
      ScanKidsKeepsFlag(n.kids, at, fname, target, s1);
    }
  }

  lemma {:induction false} ScanKidsKeepsFlag(ns: seq<Node>, parent: Path, fname: string, target: Expr,
                                             s: Scan)
    requires AllWellFormed(ns) && forall i | 0 <= i < |ns| :: !ReachesNamesake(ns[i], fname)
    ensures ScanKids(ns, parent, fname, target, s).inTarget == s.inTarget
    decreases ns, 0
  {
    if ns != [] {
      var k := |ns| - 1;
      assert forall i | 0 <= i < k :: ns[..k][i] == ns[i];
      ScanKidsKeepsFlag(ns[..k], parent, fname, target, s);
      ScanNodeKeepsFlag(ns[k], parent + [k], fname, target, ScanKids(ns[..k], parent, fname, target, s));
    }
  }

  /** Completeness of one node's walk: every expression below `n` that equals the
      target and is in scope is recorded, at its path and span. */
  lemma {:induction false} ScanNodeComplete(n: Node, at: Path, q: Path, fname: string, target: Expr,
                                            s: Scan)
    requires WellFormed(n) && ValidPathIn(n, q) && CleanFor(n, fname, s.inTarget)
    requires InScopeIn(n, q, fname, s.inTarget)
    requires FoundAt(NodeIn(n, q), NodeIn(n, q).span, target)
    ensures Hit(at + q, NodeIn(n, q).span) in ScanNode(n, at, fname, target, s).hits
    decreases n, 1
  {
    var r := ScanNode(n, at, fname, target, s);
    if q == [] {
      var s1 := s.(hits := s.hits + [Hit(at, n.span)]);
      ScanKidsSound(n.kids, at, fname, target, s1);
      assert r.hits[|s.hits|] == s1.hits[|s.hits|];
      assert at + q == at;
    } else if IsFn(n) {
      ScanKidsComplete(n.kids, at, q, fname, target, s.(inTarget := true));
    } else {
      var s1 := if IsExpr(n) && s.inTarget && AstEquals(n, target)
                then s.(hits := s.hits + [Hit(at, n.span)]) else s;
      ScanKidsComplete(n.kids, at, q, fname, target, s1);
    }
  }

  lemma {:induction false} ScanKidsComplete(ns: seq<Node>, parent: Path, p: Path, fname: string,
                                            target: Expr, s: Scan)
    requires AllWellFormed(ns) && ValidPath(ns, p)
    requires forall i | 0 <= i < |ns| :: CleanFor(ns[i], fname, s.inTarget)
    requires InScope(ns, p, fname, s.inTarget)
    requires FoundAt(NodeAt(ns, p), NodeAt(ns, p).span, target)
    ensures Hit(parent + p, NodeAt(ns, p).span) in ScanKids(ns, parent, fname, target, s).hits
    decreases ns, 0
  {
    var k := |ns| - 1;
    var s1 := ScanKids(ns[..k], parent, fname, target, s);
    var r := ScanNode(ns[k], parent + [k], fname, target, s1);
    ScanNodeSound(ns[k], parent + [k], fname, target, s1);
    if p[0] < k {
      assert ns[..k][p[0]] == ns[p[0]];
      assert forall i | 0 <= i < k :: ns[..k][i] == ns[i];
      ScanKidsComplete(ns[..k], parent, p, fname, target, s);
      assert r.hits[..|s1.hits|] == s1.hits;
    } else {
      ScanKidsSound(ns[..k], parent, fname, target, s);
      if s.inTarget {
        assert forall i | 0 <= i < k :: ns[..k][i] == ns[i];
        ScanKidsKeepsFlag(ns[..k], parent, fname, target, s);
      }
      ScanNodeComplete(ns[k], parent + [k], p[1..], fname, target, s1);
      assert (parent + [k]) + p[1..] == parent + p;
    }
  }

  /** Every expression of the file that equals the target and lies in the scope of
      a function named `fname` is recorded, provided no such function contains
      another of the same name. */
  lemma OccurrencesComplete(file: SourceFile, fname: string, target: Expr, p: Path)
    requires forall i | 0 <= i < |file.items| :: NoNestedNamesake(file.items[i], fname)
    requires ValidPath(file.items, p) && InScope(file.items, p, fname, false)
    requires FoundAt(NodeAt(file.items, p), NodeAt(file.items, p).span, target)
    ensures Hit(p, NodeAt(file.items, p).span) in Occurrences(file, fname, target)
  {
    ScanKidsComplete(file.items, [], p, fname, target, Scan(false, []));
    assert [] + p == p;
  }

  /** With no nested namesake, a hit is recorded exactly when it points at an
      expression equal to the target, at its span, in the scope of the function. */
  lemma OccurrencesExactly(file: SourceFile, fname: string, target: Expr, h: Hit)
    requires forall i | 0 <= i < |file.items| :: NoNestedNamesake(file.items[i], fname)
    ensures h in Occurrences(file, fname, target) <==>
      ValidPath(file.items, h.path) && InScope(file.items, h.path, fname, false)
      && FoundAt(NodeAt(file.items, h.path), h.span, target)
  {
    OccurrencesSound(file, fname, target);
    if ValidPath(file.items, h.path) && InScope(file.items, h.path, fname, false)
       && FoundAt(NodeAt(file.items, h.path), h.span, target) {
      OccurrencesComplete(file, fname, target, h.path);
    }
  }

  /** The hits from position `from` on are in strictly increasing pre-order. */
  ghost predicate InPreOrderFrom(hs: seq<Hit>, from: nat) {
    forall i, j | from <= i < j < |hs| :: Before(hs[i].path, hs[j].path)
  }

  /** The hits of one node's walk are recorded in pre-order. */
  lemma {:induction false} ScanNodeInPreOrder(n: Node, at: Path, fname: string, target: Expr, s: Scan)
    requires WellFormed(n)
    ensures InPreOrderFrom(ScanNode(n, at, fname, target, s).hits, |s.hits|)
    decreases n, 1
  {
    var r := ScanNode(n, at, fname, target, s);
    if IsFn(n) {
      if FnName(n) == fname {
        ScanKidsInPreOrder(n.kids, at, fname, target, s.(inTarget := true));
      }
    } else if IsExpr(n) && s.inTarget && AstEquals(n, target) {
      var s1 := s.(hits := s.hits + [Hit(at, n.span)]);
      ScanKidsInPreOrder(n.kids, at, fname, target, s1);
      ScanKidsSound(n.kids, at, fname, target, s1);
      assert r.hits[|s.hits|] == s1.hits[|s.hits|];
      forall i, j | |s.hits| <= i < j < |r.hits|
        ensures Before(r.hits[i].path, r.hits[j].path)
      {
        if i == |s.hits| {
          BeforeDescendant(at, r.hits[j].path);
        }
      }
    } else {
      ScanKidsInPreOrder(n.kids, at, fname, target, s);
    }
  }

  lemma {:induction false} ScanKidsInPreOrder(ns: seq<Node>, parent: Path, fname: string, target: Expr,
                                              s: Scan)
    requires AllWellFormed(ns)
    ensures InPreOrderFrom(ScanKids(ns, parent, fname, target, s).hits, |s.hits|)
    decreases ns, 0
  {
    if ns != [] {
      var k := |ns| - 1;
      var s1 := ScanKids(ns[..k], parent, fname, target, s);
      var r := ScanNode(ns[k], parent + [k], fname, target, s1);
      ScanKidsInPreOrder(ns[..k], parent, fname, target, s);
      ScanNodeInPreOrder(ns[k], parent + [k], fname, target, s1);
      ScanKidsSound(ns[..k], parent, fname, target, s);
      ScanNodeSound(ns[k], parent + [k], fname, target, s1);
      forall i, j | |s.hits| <= i < j < |r.hits|
        ensures Before(r.hits[i].path, r.hits[j].path)
      {
        if j < |s1.hits| {
          assert r.hits[i] == s1.hits[i] && r.hits[j] == s1.hits[j];
        } else if i < |s1.hits| {
          assert r.hits[i] == s1.hits[i];
          SiblingsInOrder(ns, parent, k, r.hits[i], r.hits[j], fname, target, s.inTarget, s1.inTarget);
        }
      }
    }
  }

  /** A hit under an earlier child is met before a hit inside child `k`. */
  lemma SiblingsInOrder(ns: seq<Node>, parent: Path, k: nat, a: Hit, b: Hit, fname: string,
                        target: Expr, inA: bool, inB: bool)
    requires k < |ns|
    requires HitUnder(ns[..k], parent, a, fname, target, inA)
    requires HitIn(ns[k], parent + [k], b, fname, target, inB)
    ensures Before(a.path, b.path)
  {
    var m := |parent|;
    assert a.path[m] == a.path[m..][0];
    assert b.path[m] == (b.path[..m + 1])[m] == (parent + [k])[m] == k;
    assert b.path[..m] == (b.path[..m + 1])[..m] == (parent + [k])[..m] == parent;
    BeforeAtIndex(a.path, b.path, m);
  }

  /** The finder records its hits in pre-order: an expression before the
      expressions inside it, and earlier children before later ones. So no path is
      recorded twice. */
  lemma OccurrencesInPreOrder(file: SourceFile, fname: string, target: Expr)
    ensures var hs := Occurrences(file, fname, target);
      forall i, j | 0 <= i < j < |hs| :: Before(hs[i].path, hs[j].path)
  {
    var s0 := Scan(false, []);
    ScanKidsInPreOrder(file.items, [], fname, target, s0);
    assert Occurrences(file, fname, target) == ScanKids(file.items, [], fname, target, s0).hits;
  }
}
