/** Small files worked through the finder and the mutator, as the source's unit
    tests describe them, plus one file showing how a nested function with the wanted
    name ends the search early. */
module Scenarios {
  import opened Syntax
  import opened Equality
  import opened Matcher
  import opened Mutator

  // ---------------------------------------------------------------------------
  // Building small trees

  function Ident(name: string, at: Span): (e: Node)
    ensures WellFormed(e) && IsExpr(e) && e.kids == []
  {
    Node(at, Expr(PathExpr([Segment(name, "")])), [])
  }

  function IntLit(digits: string, at: Span): (e: Node)
    ensures WellFormed(e) && IsExpr(e) && e.kids == []
  {
    Node(at, Expr(Literal(Int(digits, ""))), [])
  }

  function BinaryOf(op: BinOp, l: Node, r: Node, at: Span): (e: Node)
    requires WellFormed(l) && WellFormed(r)
    ensures WellFormed(e) && IsExpr(e) && e.kids == [l, r]
  {
    Node(at, Expr(Binary(op)), [l, r])
  }

  function Fn(name: string, body: seq<Node>, at: Span): (f: Node)
    requires AllWellFormed(body)
    ensures WellFormed(f) && IsFn(f) && FnName(f) == name && f.kids == [Node(at, Block, body)]
  {
    Node(at, ItemFn(name), [Node(at, Block, body)])
  }

  function Tail(e: Node): (s: Node)
    requires WellFormed(e)
    ensures WellFormed(s) && !IsFn(s) && !IsExpr(s) && s.kids == [e]
  {
    Node(e.span, StmtExpr(false), [e])
  }

  function Let(e: Node): (s: Node)
    requires WellFormed(e)
    ensures WellFormed(s) && !IsFn(s) && !IsExpr(s) && s.kids == [e]
  {
    Node(e.span, Local, [e])
  }

  // ---------------------------------------------------------------------------
  // Stepping the finder

  lemma ScanOne(n: Node, parent: Path, fname: string, target: Expr, s: Scan)
    requires WellFormed(n)
    ensures ScanKids([n], parent, fname, target, s) == ScanNode(n, parent + [0], fname, target, s)
  {
    assert [n][..0] == [];
  }

  lemma ScanTwo(n: Node, m: Node, parent: Path, fname: string, target: Expr, s: Scan)
    requires WellFormed(n) && WellFormed(m)
    ensures ScanKids([n, m], parent, fname, target, s)
         == ScanNode(m, parent + [1], fname, target, ScanNode(n, parent + [0], fname, target, s))
  {
    assert [n, m][..1] == [n];
    ScanOne(n, parent, fname, target, s);
  }

  lemma ScanThree(a: Node, b: Node, c: Node, parent: Path, fname: string, target: Expr, s: Scan)
    requires WellFormed(a) && WellFormed(b) && WellFormed(c)
    ensures ScanKids([a, b, c], parent, fname, target, s)
         == ScanNode(c, parent + [2], fname, target,
              ScanNode(b, parent + [1], fname, target, ScanNode(a, parent + [0], fname, target, s)))
  {
    assert [a, b, c][..2] == [a, b];
    ScanTwo(a, b, parent, fname, target, s);
  }

  /** A node with one child that is neither a function nor a match passes the
      walk on to that child. */
  lemma ScanThrough(n: Node, at: Path, fname: string, target: Expr, s: Scan)
    requires WellFormed(n) && |n.kids| == 1 && !IsFn(n)
    requires !(IsExpr(n) && s.inTarget && AstEquals(n, target))
    ensures ScanNode(n, at, fname, target, s) == ScanNode(n.kids[0], at + [0], fname, target, s)
  {
    assert n.kids == [n.kids[0]];
    ScanOne(n.kids[0], at, fname, target, s);
  }

  /** `a + b` as the rule's original expression. */
  function APlusB(): (e: Expr)
    ensures e.kids == [Ident("a", Span(1, 0)), Ident("b", Span(1, 4))]
  {
    BinaryOf(Add, Ident("a", Span(1, 0)), Ident("b", Span(1, 4)), Span(1, 0))
  }

  /** An identifier is never equal to `a + b`. */
  lemma IdentIsNotASum(name: string, at: Span)
    ensures !AstEquals(Ident(name, at), APlusB())
  {
    assert !SameShapeEquals(Ident(name, at), APlusB());
  }

  /** Two identifiers are equal exactly when their names are. */
  lemma IdentsEqual(x: string, y: string, atX: Span, atY: Span)
    ensures AstEquals(Ident(x, atX), Ident(y, atY)) <==> x == y
  {
    assert AstEquals(Ident(x, atX), Ident(y, atY)) == SameShapeEquals(Ident(x, atX), Ident(y, atY));
    assert [Segment(x, "")][0].ident == x && [Segment(y, "")][0].ident == y;
  }

  /** `x + y` equals `a + b` exactly when `x` is `a` and `y` is `b`. */
  lemma SumOfIdents(x: string, y: string, at: Span, atX: Span, atY: Span)
    ensures AstEquals(BinaryOf(Add, Ident(x, atX), Ident(y, atY), at), APlusB()) <==> x == "a" && y == "b"
  {
    var e := BinaryOf(Add, Ident(x, atX), Ident(y, atY), at);
    assert AstEquals(e, APlusB()) == SameShapeEquals(e, APlusB());
    IdentsEqual(x, "a", atX, Span(1, 0));
    IdentsEqual(y, "b", atY, Span(1, 4));
  }

  /** A node without children that is neither a function nor a match leaves the
      walk as it was. */
  lemma ScanLeaf(n: Node, at: Path, fname: string, target: Expr, s: Scan)
    requires WellFormed(n) && n.kids == [] && !IsFn(n)
    requires !(IsExpr(n) && s.inTarget && AstEquals(n, target))
    ensures ScanNode(n, at, fname, target, s) == s
  {
  }

  /** Walking `x + y` when it matches records it and nothing below it. */
  lemma ScanSum(x: string, y: string, at: Path, span: Span, atX: Span, atY: Span, fname: string, s: Scan)
    requires s.inTarget && x == "a" && y == "b"
    ensures ScanNode(BinaryOf(Add, Ident(x, atX), Ident(y, atY), span), at, fname, APlusB(), s)
         == s.(hits := s.hits + [Hit(at, span)])
  {
    var e := BinaryOf(Add, Ident(x, atX), Ident(y, atY), span);
    SumOfIdents(x, y, span, atX, atY);
    var s1 := s.(hits := s.hits + [Hit(at, span)]);
    ScanTwo(Ident(x, atX), Ident(y, atY), at, fname, APlusB(), s1);
    IdentIsNotASum(x, atX);
    IdentIsNotASum(y, atY);
    ScanLeaf(Ident(x, atX), at + [0], fname, APlusB(), s1);
    ScanLeaf(Ident(y, atY), at + [1], fname, APlusB(), s1);
  }

  /** Walking a binary expression over two leaves, none of which matches, changes
      nothing. */
  lemma ScanNoMatch(e: Node, at: Path, fname: string, target: Expr, s: Scan)
    requires WellFormed(e) && IsExpr(e) && |e.kids| == 2
    requires e.kids[0].kids == [] && e.kids[1].kids == [] && IsExpr(e.kids[0]) && IsExpr(e.kids[1])
    requires !AstEquals(e, target) && !AstEquals(e.kids[0], target) && !AstEquals(e.kids[1], target)
    ensures ScanNode(e, at, fname, target, s) == s
  {
    assert e.kids == [e.kids[0], e.kids[1]];
    ScanTwo(e.kids[0], e.kids[1], at, fname, target, s);
    ScanLeaf(e.kids[0], at + [0], fname, target, s);
    ScanLeaf(e.kids[1], at + [1], fname, target, s);
  }

  // ---------------------------------------------------------------------------
  // fn add(a, b) { a + b }   fn other() { let x = 1 + 2; }

  function AddFn(): (f: Node)
    ensures WellFormed(f)
  {
    Fn("add", [Tail(BinaryOf(Add, Ident("a", Span(3, 16)), Ident("b", Span(3, 20)), Span(3, 16)))], Span(2, 12))
  }

  function OtherFn(): (f: Node)
    ensures WellFormed(f)
  {
    Fn("other", [Let(BinaryOf(Add, IntLit("1", Span(7, 24)), IntLit("2", Span(7, 28)), Span(7, 24)))],
       Span(6, 12))
  }

  function AddAndOther(): SourceFile {
    File([AddFn(), OtherFn()])
  }

  /** Walking the body of `add` with the flag set records its `a + b`. */
  lemma ScanAddBody(s: Scan)
    requires s.inTarget
    ensures ScanKids(AddFn().kids, [0], "add", APlusB(), s) == s.(hits := s.hits + [Hit([0, 0, 0, 0], Span(3, 16))])
  {
    var f := AddFn();
    var t := APlusB();
    var block := f.kids[0];
    var tail := block.kids[0];
    var sum := BinaryOf(Add, Ident("a", Span(3, 16)), Ident("b", Span(3, 20)), Span(3, 16));
    assert f.kids == [block] && block.kids == [tail] && tail.kids == [sum];
    assert [0] + [0] == [0, 0] && [0, 0] + [0] == [0, 0, 0] && [0, 0, 0] + [0] == [0, 0, 0, 0];
    ScanOne(block, [0], "add", t, s);
    ScanThrough(block, [0, 0], "add", t, s);
    ScanThrough(tail, [0, 0, 0], "add", t, s);
    ScanSum("a", "b", [0, 0, 0, 0], Span(3, 16), Span(3, 16), Span(3, 20), "add", s);
  }

  /** Walking the body of `other` with the flag set records nothing: `1 + 2` is not
      `a + b`. */
  lemma ScanOtherBody(s: Scan)
    requires s.inTarget
    ensures ScanKids(OtherFn().kids, [1], "other", APlusB(), s) == s
  {
    var f := OtherFn();
    var t := APlusB();
    var block := f.kids[0];
    var local := block.kids[0];
    var one := IntLit("1", Span(7, 24));
    var two := IntLit("2", Span(7, 28));
    var sum := BinaryOf(Add, one, two, Span(7, 24));
    assert f.kids == [block] && block.kids == [local] && local.kids == [sum];
    assert [1] + [0] == [1, 0] && [1, 0] + [0] == [1, 0, 0] && [1, 0, 0] + [0] == [1, 0, 0, 0];
    assert !AstEquals(sum, t) by {
      assert AstEquals(sum, t) == SameShapeEquals(sum, t);
      assert AstEquals(one, Ident("a", Span(1, 0))) == SameShapeEquals(one, Ident("a", Span(1, 0)));
    }
    assert !AstEquals(one, t) by {
      assert !SameShapeEquals(one, t);
    }
    assert !AstEquals(two, t) by {
      assert !SameShapeEquals(two, t);
    }
    ScanOne(block, [1], "other", t, s);
    ScanThrough(block, [1, 0], "other", t, s);
    ScanThrough(local, [1, 0, 0], "other", t, s);
    ScanNoMatch(sum, [1, 0, 0, 0], "other", t, s);
  }

  /** `a + b` is found once in `add`, at line 3, column 17, and never in `other`. */
  lemma FoundOnlyInTheNamedFunction()
    ensures Occurrences(AddAndOther(), "add", APlusB()) == [Hit([0, 0, 0, 0], Span(3, 16))]
    ensures SitesOf(Occurrences(AddAndOther(), "add", APlusB())) == [MatchedSite(3, 17, 0)]
    ensures Occurrences(AddAndOther(), "other", APlusB()) == []
  {
    var t := APlusB();
    var s0 := Scan(false, []);
    assert [] + [0] == [0] && [] + [1] == [1];
    ScanTwo(AddFn(), OtherFn(), [], "add", t, s0);
    ScanAddBody(s0.(inTarget := true));
    ScanTwo(AddFn(), OtherFn(), [], "other", t, s0);
    ScanOtherBody(s0.(inTarget := true));
  }

  // ---------------------------------------------------------------------------
  // fn calc(a, b) { let x = a + b; let y = a + b; x * y }

  function FirstSum(): Node {
    BinaryOf(Add, Ident("a", Span(3, 12)), Ident("b", Span(3, 16)), Span(3, 12))
  }

  function SecondSum(): Node {
    BinaryOf(Add, Ident("a", Span(4, 12)), Ident("b", Span(4, 16)), Span(4, 12))
  }

  function Product(): Node {
    BinaryOf(Mul, Ident("x", Span(5, 4)), Ident("y", Span(5, 8)), Span(5, 4))
  }

  function CalcBody(): (body: seq<Node>)
    ensures AllWellFormed(body)
  {
    [Let(FirstSum()), Let(SecondSum()), Tail(Product())]
  }

  function Calc(): SourceFile {
    File([Fn("calc", CalcBody(), Span(2, 0))])
  }

  /** Walking the statements of `calc` with the flag set records both sums. */
  lemma ScanCalcStatements(s: Scan)
    requires s.inTarget
    ensures ScanKids(CalcBody(), [0, 0], "calc", APlusB(), s)
         == s.(hits := s.hits + [Hit([0, 0, 0, 0], Span(3, 12)), Hit([0, 0, 1, 0], Span(4, 12))])
  {
    var t := APlusB();
    var first, second, last := Let(FirstSum()), Let(SecondSum()), Tail(Product());
    var s1 := s.(hits := s.hits + [Hit([0, 0, 0, 0], Span(3, 12))]);
    var s2 := s1.(hits := s1.hits + [Hit([0, 0, 1, 0], Span(4, 12))]);
    ScanThree(first, second, last, [0, 0], "calc", t, s);
    assert [0, 0] + [0] == [0, 0, 0] && [0, 0, 0] + [0] == [0, 0, 0, 0];
    ScanThrough(first, [0, 0, 0], "calc", t, s);
    ScanSum("a", "b", [0, 0, 0, 0], Span(3, 12), Span(3, 12), Span(3, 16), "calc", s);
    assert [0, 0] + [1] == [0, 0, 1] && [0, 0, 1] + [0] == [0, 0, 1, 0];
    ScanThrough(second, [0, 0, 1], "calc", t, s1);
    ScanSum("a", "b", [0, 0, 1, 0], Span(4, 12), Span(4, 12), Span(4, 16), "calc", s1);
    ProductIsNotASum();
    ScanThrough(last, [0, 0, 2], "calc", t, s2);
    ScanNoMatch(Product(), [0, 0, 2] + [0], "calc", t, s2);
    assert s.hits + [Hit([0, 0, 0, 0], Span(3, 12)), Hit([0, 0, 1, 0], Span(4, 12))] == s2.hits;
  }

  lemma ProductIsNotASum()
    ensures !AstEquals(Product(), APlusB())
    ensures !AstEquals(Product().kids[0], APlusB()) && !AstEquals(Product().kids[1], APlusB())
  {
    assert !SameShapeEquals(Product(), APlusB());
    IdentIsNotASum("x", Span(5, 4));
    IdentIsNotASum("y", Span(5, 8));
  }

  lemma CalcOccurrences()
    ensures Occurrences(Calc(), "calc", APlusB())
         == [Hit([0, 0, 0, 0], Span(3, 12)), Hit([0, 0, 1, 0], Span(4, 12))]
  {
    var t := APlusB();
    var fn := Calc().items[0];
    var block := Node(Span(2, 0), Block, CalcBody());
    assert Calc().items == [fn] && fn.kids == [block];
    assert [] + [0] == [0] && [0] + [0] == [0, 0];
    ScanOne(fn, [], "calc", t, Scan(false, []));
    ScanOne(block, [0], "calc", t, Scan(true, []));
    ScanCalcStatements(Scan(true, []));
  }

  /** The second `let`'s `a + b` sits at the path [0, 0, 1, 0]. */
  lemma SecondSumAt()
    ensures ValidPath(Calc().items, [0, 0, 1, 0]) && NodeAt(Calc().items, [0, 0, 1, 0]) == SecondSum()
  {
    var items := Calc().items;
    var block := items[0].kids[0];
    var second := block.kids[1];
    PathToItem(second.kids, 0);
    PathThroughItem(block.kids, 1, [0]);
    assert [1] + [0] == [1, 0];
    PathThroughItem(items[0].kids, 0, [1, 0]);
    assert [0] + [1, 0] == [0, 1, 0];
    PathThroughItem(items, 0, [0, 1, 0]);
    assert [0] + [0, 1, 0] == [0, 0, 1, 0];
  }

  lemma FirstAndSecondDiverge()
    ensures Diverge([0, 0, 0, 0], [0, 0, 1, 0])
  {
    assert [0, 0, 0, 0][1..] == [0, 0, 0] && [0, 0, 1, 0][1..] == [0, 1, 0];
    assert [0, 0, 0][1..] == [0, 0] && [0, 1, 0][1..] == [1, 0];
  }

  /** Both `a + b` are found, in order; replacing rank 0 rewrites the first `let`
      and leaves the second `a + b` in place. */
  lemma ReplacingTheFirstOfTwo(replacement: Expr)
    ensures Occurrences(Calc(), "calc", APlusB())
         == [Hit([0, 0, 0, 0], Span(3, 12)), Hit([0, 0, 1, 0], Span(4, 12))]
    ensures var (mutated, applied) := Rewrite(Calc(), "calc", APlusB(), replacement, 0);
      applied
      && ValidPath(mutated.items, [0, 0, 0, 0]) && NodeAt(mutated.items, [0, 0, 0, 0]) == replacement
      && ValidPath(mutated.items, [0, 0, 1, 0]) && NodeAt(mutated.items, [0, 0, 1, 0]) == SecondSum()
  {
    var f := Calc();
    var t := APlusB();
    CalcOccurrences();
    var hs := Occurrences(f, "calc", t);
    RewriteReplacesRankedSite(f, "calc", t, replacement, 0);
    ReplaceAtPlaces(f.items, hs[0].path, replacement);
    FirstAndSecondDiverge();
    SecondSumAt();
    ReplaceAtElsewhere(f.items, hs[0].path, replacement, [0, 0, 1, 0]);
  }

  // ---------------------------------------------------------------------------
  // fn f() { fn f() {} a }

  function Namesakes(): SourceFile {
    File([Fn("f", [Fn("f", [], Span(2, 4)), Tail(Ident("a", Span(3, 4)))], Span(1, 0))])
  }

  /** Leaving the inner `f` clears the flag instead of restoring it, so the `a` after
      it is not reported although it sits inside the outer `f`, in scope, and equals
      the target. */
  lemma NestedNamesakeEndsTheSearch()
    ensures Occurrences(Namesakes(), "f", Ident("a", Span(1, 0))) == []
    ensures ValidPath(Namesakes().items, [0, 0, 1, 0])
    ensures FoundAt(NodeAt(Namesakes().items, [0, 0, 1, 0]), Span(3, 4), Ident("a", Span(1, 0)))
    ensures InScope(Namesakes().items, [0, 0, 1, 0], "f", false)
  {
    var target := Ident("a", Span(1, 0));
    var a := Ident("a", Span(3, 4));
    assert AstEquals(a, target) by {
      assert SameShapeEquals(a, target);
    }
    var outer := Namesakes().items[0];
    var block := outer.kids[0];
    var inner := block.kids[0];
    var tail := block.kids[1];
    ScanOne(outer, [], "f", target, Scan(false, []));
    ScanOne(block, [0], "f", target, Scan(true, []));
    ScanTwo(inner, tail, [0, 0], "f", target, Scan(true, []));
    ScanOne(inner.kids[0], [0, 0, 0], "f", target, Scan(true, []));
    assert inner.kids[0].kids == [];
    assert ScanNode(inner, [0, 0, 0], "f", target, Scan(true, [])) == Scan(false, []);
    ScanThrough(tail, [0, 0, 1], "f", target, Scan(false, []));
    assert [0, 0, 1, 0][1..] == [0, 1, 0] && [0, 1, 0][1..] == [1, 0] && [1, 0][1..] == [0];
  }

  // ---------------------------------------------------------------------------
  // Comparisons of binary expressions

  /** `a + b` equals itself written elsewhere, but not `a - b` nor `x + y`; `a >= b`
      is not `a > b`. */
  lemma OperatorsAndOperandsDecide()
    ensures AstEquals(BinaryOf(Add, Ident("a", Span(9, 2)), Ident("b", Span(9, 4)), Span(9, 2)), APlusB())
    ensures !AstEquals(BinaryOf(Sub, Ident("a", Span(1, 0)), Ident("b", Span(1, 4)), Span(1, 0)), APlusB())
    ensures !AstEquals(BinaryOf(Add, Ident("x", Span(1, 0)), Ident("y", Span(1, 4)), Span(1, 0)), APlusB())
    ensures !AstEquals(BinaryOf(Ge, Ident("a", Span(1, 0)), Ident("b", Span(1, 5)), Span(1, 0)),
                       BinaryOf(Gt, Ident("a", Span(1, 0)), Ident("b", Span(1, 4)), Span(1, 0)))
  {
    SumOfIdents("a", "b", Span(9, 2), Span(9, 2), Span(9, 4));
    SumOfIdents("x", "y", Span(1, 0), Span(1, 0), Span(1, 4));
    var diff := BinaryOf(Sub, Ident("a", Span(1, 0)), Ident("b", Span(1, 4)), Span(1, 0));
    assert AstEquals(diff, APlusB()) == SameShapeEquals(diff, APlusB());
    var ge := BinaryOf(Ge, Ident("a", Span(1, 0)), Ident("b", Span(1, 5)), Span(1, 0));
    var gt := BinaryOf(Gt, Ident("a", Span(1, 0)), Ident("b", Span(1, 4)), Span(1, 0));
    assert AstEquals(ge, gt) == SameShapeEquals(ge, gt);
  }

  // ---------------------------------------------------------------------------
  // fn f() { (a + b) }

  function Parenthesised(): (e: Node)
    ensures WellFormed(e) && IsExpr(e)
  {
    Node(Span(2, 4), Expr(Paren), [BinaryOf(Add, Ident("a", Span(2, 5)), Ident("b", Span(2, 9)), Span(2, 5))])
  }

  function ParenFile(): SourceFile {
    File([Fn("f", [Tail(Parenthesised())], Span(1, 0))])
  }

  /** Walking `(a + b)` with the flag set records it and then the sum inside it. */
  lemma ScanParenthesised(at: Path, s: Scan)
    requires s.inTarget
    ensures ScanNode(Parenthesised(), at, "f", APlusB(), s)
         == s.(hits := s.hits + [Hit(at, Span(2, 4)), Hit(at + [0], Span(2, 5))])
  {
    var t := APlusB();
    var paren := Parenthesised();
    var sum := paren.kids[0];
    SumOfIdents("a", "b", Span(2, 5), Span(2, 5), Span(2, 9));
    ParenEqualsInner(paren, t);
    var s1 := s.(hits := s.hits + [Hit(at, Span(2, 4))]);
    assert paren.kids == [sum];
    ScanOne(sum, at, "f", t, s1);
    ScanSum("a", "b", at + [0], Span(2, 5), Span(2, 5), Span(2, 9), "f", s1);
    assert s1.hits + [Hit(at + [0], Span(2, 5))] == s.hits + [Hit(at, Span(2, 4)), Hit(at + [0], Span(2, 5))];
  }

  /** The parenthesised sum matches `a + b`, and so does the sum inside it: both are
      reported, outer first. */
  lemma NestedMatchesAreBothReported()
    ensures Occurrences(ParenFile(), "f", APlusB())
         == [Hit([0, 0, 0, 0], Span(2, 4)), Hit([0, 0, 0, 0, 0], Span(2, 5))]
  {
    var t := APlusB();
    var fn := ParenFile().items[0];
    var block := fn.kids[0];
    var tail := block.kids[0];
    assert ParenFile().items == [fn] && fn.kids == [block] && block.kids == [tail];
    assert tail.kids == [Parenthesised()];
    assert [] + [0] == [0] && [0] + [0] == [0, 0] && [0, 0] + [0] == [0, 0, 0];
    assert [0, 0, 0] + [0] == [0, 0, 0, 0] && [0, 0, 0, 0] + [0] == [0, 0, 0, 0, 0];
    var s0 := Scan(true, []);
    ScanOne(fn, [], "f", t, Scan(false, []));
    ScanOne(block, [0], "f", t, s0);
    ScanThrough(block, [0, 0], "f", t, s0);
    ScanThrough(tail, [0, 0, 0], "f", t, s0);
    ScanParenthesised([0, 0, 0, 0], s0);
  }

  // ---------------------------------------------------------------------------
  // fn foo() {}   fn bar() {}   impl Thing { fn baz(&self) {} }

  function Methods(): File {
    File([Fn("foo", [], Span(2, 12)), Fn("bar", [], Span(3, 12)),
          Node(Span(5, 12), ItemImpl, [Node(Span(6, 16), ImplItemFn("baz"), [Node(Span(6, 30), Block, [])])])])
  }

  /** Free functions and impl methods are all collected, in the order they appear. */
  lemma FreeFunctionsAndMethodsAreCollected()
    ensures FunctionNames(Methods()) == ["foo", "bar", "baz"]
  {
    var items := Methods().items;
    var foo, bar, impl := items[0], items[1], items[2];
    NamesOfEmptyFn(foo);
    NamesOfEmptyFn(bar);
    var baz := impl.kids[0];
    NamesOfEmptyFn(baz);
    assert impl.kids == [baz] && impl.kids[..0] == [];
    assert NamesIn(impl) == ["baz"];
    assert items[..1] == [foo] && items[..1][..0] == [];
    assert NamesInKids(items[..1]) == ["foo"];
    assert items[..2] == [foo, bar] && items[..2][..1] == items[..1];
    assert NamesInKids(items[..2]) == ["foo", "bar"];
  }

  /** A function whose body is empty contributes just its own name. */
  lemma NamesOfEmptyFn(f: Node)
    requires IsFn(f) && |f.kids| == 1 && !IsFn(f.kids[0]) && f.kids[0].kids == []
    ensures NamesIn(f) == [FnName(f)]
  {
    var body := f.kids[0];
    assert NamesIn(body) == [];
    assert f.kids == [body] && f.kids[..0] == [];
    assert NamesInKids(f.kids) == NamesInKids([]) + NamesIn(body);
  }
}
