/** Applying one mutation: replacing the chosen site of an expression with another
    expression.

    The mutator walks the file exactly as the finder does, counting the expressions
    equal to the target inside the wanted function; when the count reaches the
    chosen site's rank it puts the replacement in that expression's place and
    stops changing anything. The replacement is not searched. */
module Mutator {
  import opened Syntax
  import opened Equality
  import opened Errors
  import opened Matcher

  /** The mutator's state: the in-target-function flag, how many matches have been
      passed over, and whether the replacement has been made. */
  datatype Pass = Pass(inTarget: bool, current: nat, applied: bool)

  /** The rewrite of one node, with the state after it. */
  function RewriteNode(n: Node, fname: string, target: Expr, repl: Expr, t: nat, p: Pass): (Node, Pass)
    requires WellFormed(n)
    decreases n, 1
  {
    if IsFn(n) then
      if FnName(n) == fname then
        var (kids, p1) := RewriteKids(n.kids, fname, target, repl, t, p.(inTarget := true));
        (n.(kids := kids), p1.(inTarget := false))
      else (n, p)
    else if IsExpr(n) && p.applied then (n, p)
    else if IsExpr(n) && p.inTarget && AstEquals(n, target) && p.current == t then
      (repl, p.(applied := true))
    else
      var p0 := if IsExpr(n) && p.inTarget && AstEquals(n, target) then p.(current := p.current + 1) else p;
      var (kids, p1) := RewriteKids(n.kids, fname, target, repl, t, p0);
      (n.(kids := kids), p1)
  }

  /** The rewrite of a list of sibling nodes, left to right. */
  function RewriteKids(ns: seq<Node>, fname: string, target: Expr, repl: Expr, t: nat, p: Pass)
    : (seq<Node>, Pass)
    requires AllWellFormed(ns)
    decreases ns, 0
  {
    if ns == [] then ([], p)
    else
      var k := |ns| - 1;
      var (front, p1) := RewriteKids(ns[..k], fname, target, repl, t, p);
      var (last, p2) := RewriteNode(ns[k], fname, target, repl, t, p1);
      (front + [last], p2)
  }

  // ---------------------------------------------------------------------------
  // The mutator, step by step

  class Mutator {
    const target: Expr
    const replacement: Expr
    const functionName: string
    const targetIndex: nat
    var currentIndex: nat
    var inTargetFunction: bool
    var applied: bool

    ghost function State(): Pass
      reads this
    {
      Pass(inTargetFunction, currentIndex, applied)
    }

    constructor (target: Expr, replacement: Expr, functionName: string, targetIndex: nat)
      ensures this.target == target && this.replacement == replacement
      ensures this.functionName == functionName && this.targetIndex == targetIndex
      ensures State() == Pass(false, 0, false)
    {
      this.target := target;
      this.replacement := replacement;
      this.functionName := functionName;
      this.targetIndex := targetIndex;
      currentIndex := 0;
      inTargetFunction := false;
      applied := false;
    }

    /** Visit one node; `m` is the node as it stands afterwards. */
    method VisitNode(n: Node) returns (m: Node)
      requires WellFormed(n)
      modifies this
      ensures (m, State())
           == RewriteNode(n, functionName, target, replacement, targetIndex, old(State()))
      decreases n, 2
    {
      if IsFn(n) {
        m := VisitFn(n);
      } else if IsExpr(n) {
        m := VisitExpr(n);
      } else {
        var kids := VisitChildren(n.kids);
        m := n.(kids := kids);
      }
    }

    /** `visit_item_fn_mut` / `visit_impl_item_fn_mut`. */
    method VisitFn(n: Node) returns (m: Node)
      requires IsFn(n) && WellFormed(n)
      modifies this
      ensures (m, State())
           == RewriteNode(n, functionName, target, replacement, targetIndex, old(State()))
      decreases n, 1
    {
      m := n;
      if FnName(n) == functionName {
        inTargetFunction := true;
        var kids := VisitChildren(n.kids);
        m := n.(kids := kids);
        inTargetFunction := false;
      }
    }

    /** `visit_expr_mut`: stop once applied; replace the chosen match; otherwise
        count a match and search the children. */
    method VisitExpr(n: Node) returns (m: Node)
      requires IsExpr(n) && WellFormed(n)
      modifies this
      ensures (m, State())
           == RewriteNode(n, functionName, target, replacement, targetIndex, old(State()))
      decreases n, 1
    {
      if applied {
        return n;
      }
      if inTargetFunction && AstEquals(n, target) {
        if currentIndex == targetIndex {
          applied := true;
          return replacement;
        }
        currentIndex := currentIndex + 1;
      }
      var kids := VisitChildren(n.kids);
      m := n.(kids := kids);
    }

    method VisitChildren(ns: seq<Node>) returns (ms: seq<Node>)
      requires AllWellFormed(ns)
      modifies this
      ensures (ms, State())
           == RewriteKids(ns, functionName, target, replacement, targetIndex, old(State()))
      decreases ns, 0
    {
      ghost var p0 := State();
      ms := [];
      for i := 0 to |ns|
        invariant (ms, State()) == RewriteKids(ns[..i], functionName, target, replacement, targetIndex, p0)
      {
        assert ns[..i + 1][..i] == ns[..i];
        var m := VisitNode(ns[i]);
        ms := ms + [m];
      }
      assert ns[..|ns|] == ns;
    }
  }

  // ---------------------------------------------------------------------------
  // Agreement with the finder

  /** Once applied, the walk changes no node and counts nothing more. */
  lemma {:induction false} AppliedNode(n: Node, fname: string, target: Expr, repl: Expr, t: nat, p: Pass)
    requires WellFormed(n) && p.applied
    ensures var (m, p1) := RewriteNode(n, fname, target, repl, t, p);
      m == n && p1.applied && p1.current == p.current
    decreases n, 1
  {
    if IsFn(n) && FnName(n) == fname {
      AppliedKids(n.kids, fname, target, repl, t, p.(inTarget := true));
    } else if !IsFn(n) && !IsExpr(n) {
      AppliedKids(n.kids, fname, target, repl, t, p);
    }
  }

  lemma {:induction false} AppliedKids(ns: seq<Node>, fname: string, target: Expr, repl: Expr, t: nat, p: Pass)
    requires AllWellFormed(ns) && p.applied
    ensures var (ms, p1) := RewriteKids(ns, fname, target, repl, t, p);
      ms == ns && p1.applied && p1.current == p.current
    decreases ns, 0
  {
    if ns != [] {
      var k := |ns| - 1;
      AppliedKids(ns[..k], fname, target, repl, t, p);
      var (front, p1) := RewriteKids(ns[..k], fname, target, repl, t, p);
      AppliedNode(ns[k], fname, target, repl, t, p1);
      assert ns[..k] + [ns[k]] == ns;
    }
  }

  /** The mutator and the finder in step over one node, started in agreeing states
      (same flag, the mutator's count equal to the number of hits, the wanted rank
      not passed yet): the mutator replaces exactly the node of the hit whose rank is
      `t` if the finder records it here, and otherwise changes nothing and ends in
      agreement again. */
  lemma {:induction false} RewriteNodeAgrees(n: Node, at: Path, fname: string, target: Expr,
                                             repl: Expr, t: nat, s: Scan, p: Pass)
    requires WellFormed(n)
    requires !p.applied && p.inTarget == s.inTarget && p.current == |s.hits| <= t
    ensures var (m, p1) := RewriteNode(n, fname, target, repl, t, p);
      var s1 := ScanNode(n, at, fname, target, s);
      if t < |s1.hits| then
        p1.applied && p1.current == t
        && |at| <= |s1.hits[t].path| && ValidPathIn(n, s1.hits[t].path[|at|..])
        && m == ReplaceIn(n, s1.hits[t].path[|at|..], repl)
      else
        !p1.applied && p1.current == |s1.hits| && p1.inTarget == s1.inTarget && m == n
    decreases n, 1
  {
    var s1 := ScanNode(n, at, fname, target, s);
    ScanNodeSound(n, at, fname, target, s);
    if IsFn(n) {
      if FnName(n) == fname {
        RewriteKidsAgrees(n.kids, at, fname, target, repl, t,
                          s.(inTarget := true), p.(inTarget := true));
      }
    } else if IsExpr(n) && p.inTarget && AstEquals(n, target) {
      if p.current == t {
        var h := Hit(at, n.span);
        ScanKidsSound(n.kids, at, fname, target, s.(hits := s.hits + [h]));
        assert s1.hits[..t + 1] == s.hits + [h];
        assert s1.hits[t] == h;
        assert s1.hits[t].path[|at|..] == [];
      } else {
        var h := Hit(at, n.span);
        RewriteKidsAgrees(n.kids, at, fname, target, repl, t,
                          s.(hits := s.hits + [h]), p.(current := p.current + 1));
      }
    } else {
      RewriteKidsAgrees(n.kids, at, fname, target, repl, t, s, p);
    }
  }

  lemma ReplaceAtFront(ns: seq<Node>, k: nat, q: Path, r: Node)
    requires k < |ns| && ValidPath(ns[..k], q)
    ensures ValidPath(ns, q)
    ensures ReplaceAt(ns[..k], q, r) + [ns[k]] == ReplaceAt(ns[..k + 1], q, r)
  {
    assert ns[..k][q[0]] == ns[q[0]];
  }

  lemma {:induction false} RewriteKidsAgrees(ns: seq<Node>, parent: Path, fname: string, target: Expr,
                                             repl: Expr, t: nat, s: Scan, p: Pass)
    requires AllWellFormed(ns)
    requires !p.applied && p.inTarget == s.inTarget && p.current == |s.hits| <= t
    ensures var (ms, p1) := RewriteKids(ns, fname, target, repl, t, p);
      var s1 := ScanKids(ns, parent, fname, target, s);
      if t < |s1.hits| then
        p1.applied && p1.current == t
        && |parent| <= |s1.hits[t].path| && ValidPath(ns, s1.hits[t].path[|parent|..])
        && ms == ReplaceAt(ns, s1.hits[t].path[|parent|..], repl)
      else
        !p1.applied && p1.current == |s1.hits| && p1.inTarget == s1.inTarget && ms == ns
    decreases ns, 0
  {
    if ns != [] {
      var k := |ns| - 1;
      var sf := ScanKids(ns[..k], parent, fname, target, s);
      var (front, pf) := RewriteKids(ns[..k], fname, target, repl, t, p);
      RewriteKidsAgrees(ns[..k], parent, fname, target, repl, t, s, p);
      var s1 := ScanNode(ns[k], parent + [k], fname, target, sf);
      ScanNodeSound(ns[k], parent + [k], fname, target, sf);
      var (last, p1) := RewriteNode(ns[k], fname, target, repl, t, pf);
      assert ns[..k + 1] == ns;
      if t < |sf.hits| {
        AppliedNode(ns[k], fname, target, repl, t, pf);
        assert s1.hits[t] == sf.hits[t];
        ReplaceAtFront(ns, k, sf.hits[t].path[|parent|..], repl);
      } else {
        RewriteNodeAgrees(ns[k], parent + [k], fname, target, repl, t, sf, pf);
        assert ns[..k] + [ns[k]] == ns;
        if t < |s1.hits| {
          var path := s1.hits[t].path;
          assert HitIn(ns[k], parent + [k], s1.hits[t], fname, target, sf.inTarget);
          assert path[..|parent| + 1] == parent + [k];
          assert path[..|parent|] == (path[..|parent| + 1])[..|parent|];
          assert path[|parent|] == (parent + [k])[|parent|];
          assert path[|parent|..][1..] == path[|parent| + 1..];
        }
      }
    }
  }

  /** The whole file's rewrite: the rewritten items and whether the replacement
      was made. */
  function Rewrite(ast: SourceFile, fname: string, target: Expr, repl: Expr, t: nat): (File, bool) {
    var (items, p) := RewriteKids(ast.items, fname, target, repl, t, Pass(false, 0, false));
    (File(items), p.applied)
  }

  /** The mutator replaces the site of rank `t` the finder reports, and only that
      node; when there is no such site it changes nothing and reports failure. */
  lemma RewriteReplacesRankedSite(ast: SourceFile, fname: string, target: Expr, repl: Expr, t: nat)
    ensures var (mutated, applied) := Rewrite(ast, fname, target, repl, t);
      var hs := Occurrences(ast, fname, target);
      (applied <==> t < |hs|)
      && (applied ==> ValidPath(ast.items, hs[t].path)
                      && mutated.items == ReplaceAt(ast.items, hs[t].path, repl))
      && (!applied ==> mutated == ast)
  {
    RewriteKidsAgrees(ast.items, [], fname, target, repl, t, Scan(false, []), Pass(false, 0, false));
    var hs := Occurrences(ast, fname, target);
    if t < |hs| {
      assert hs[t].path[0..] == hs[t].path;
    }
  }

  /** `Mutator::apply`: put `replacement` in place of the site `site` names. */
  method Apply(ast: SourceFile, fname: string, target: Expr, replacement: Expr, site: MatchedSite)
    returns (mutated: File, r: Result<()>)
    ensures var hs := Occurrences(ast, fname, target);
      (r.Ok? <==> site.matchIndex < |hs|)
      && (r.Ok? ==> ValidPath(ast.items, hs[site.matchIndex].path)
                    && mutated.items == ReplaceAt(ast.items, hs[site.matchIndex].path, replacement))
      && (r.Err? ==> mutated == ast
                     && r.error == FailedToApply("Target expression not found during mutation"))
  {
    var mutator := new Mutator(target, replacement, fname, site.matchIndex);
    var items := mutator.VisitChildren(ast.items);
    mutated := File(items);
    RewriteReplacesRankedSite(ast, fname, target, replacement, site.matchIndex);
    if !mutator.applied {
      return mutated, Err(FailedToApply("Target expression not found during mutation"));
    }
    r := Ok(());
  }
}
