/** Structural equality of two expressions, as the engine uses it to decide whether an
    expression in the source is the one a rule names. Positions are never compared;
    several shapes are compared only loosely, and shapes without a rule of their own are
    unequal to everything, themselves included.
 */
module Equality {
  import opened Syntax

  /** Operators compare by variant only (their tokens carry nothing but a position). */
  function BinOpEquals(a: BinOp, b: BinOp): bool {
    a == b
  }

  function UnOpEquals(a: UnOp, b: UnOp): bool {
    a == b
  }

  /** Literals of the same kind compare by decoded value; suffixes are ignored, integers
      and floats compare by their base-10 digits, and a verbatim literal equals nothing. */
  function LitEquals(a: Lit, b: Lit): bool {
    match (a, b)
    case (Str(x, _), Str(y, _)) => x == y
    case (ByteStr(x, _), ByteStr(y, _)) => x == y
    case (CStr(x, _), CStr(y, _)) => x == y
    case (Byte(x, _), Byte(y, _)) => x == y
    case (Char(x, _), Char(y, _)) => x == y
    case (Int(x, _), Int(y, _)) => x == y
    case (Float(x, _), Float(y, _)) => x == y
    case (Bool(x), Bool(y)) => x == y
    case _ => false
  }

  /** Paths compare segment identifiers only (generic arguments are ignored). */
  function PathEquals(a: seq<Segment>, b: seq<Segment>): bool {
    |a| == |b| && forall i | 0 <= i < |a| :: a[i].ident == b[i].ident
  }

  function MemberEquals(a: Member, b: Member): bool {
    match (a, b)
    case (Named(x), Named(y)) => x == y
    case (Unnamed(x), Unnamed(y)) => x == y
    case _ => false
  }

  /** A type is kept as its printed token stream; two types are equal when those are. */
  function TypeEquals(a: string, b: string): bool {
    a == b
  }

  /** Both slots empty, or both filled with equal expressions. */
  function SlotEquals(a: Node, b: Node): bool
    requires WellFormed(a) && WellFormed(b)
    decreases a, b, 3
  {
    if a.kind.Absent? || b.kind.Absent? then a.kind.Absent? && b.kind.Absent?
    else AstEquals(a, b)
  }

  /** Parentheses are unwrapped on either side first; after that two expressions are
      compared by the rule for their common shape, and shapes that differ, or have no
      rule, are unequal. */
  function AstEquals(a: Node, b: Node): bool
    requires WellFormed(a) && WellFormed(b)
    decreases a, b, 2
  {
    if !a.kind.Expr? || !b.kind.Expr? then false
    else if a.kind.shape.Paren? && b.kind.shape.Paren? then AstEquals(a.kids[0], b.kids[0])
    else if a.kind.shape.Paren? then AstEquals(a.kids[0], b)
    else if b.kind.shape.Paren? then AstEquals(a, b.kids[0])
    else SameShapeEquals(a, b)
  }

  /** The rule for each shape, neither side being parenthesised. */
  function SameShapeEquals(a: Node, b: Node): bool
    requires WellFormed(a) && WellFormed(b) && a.kind.Expr? && b.kind.Expr?
    decreases a, b, 1
  {
    var y := b.kind.shape;
    match a.kind.shape
    case Binary(x) =>
      y.Binary? && AstEquals(a.kids[0], b.kids[0]) && BinOpEquals(x, y.op)
      && AstEquals(a.kids[1], b.kids[1])
    case Unary(x) => y.Unary? && UnOpEquals(x, y.unop) && AstEquals(a.kids[0], b.kids[0])
    case Literal(x) => y.Literal? && LitEquals(x, y.lit)
    case PathExpr(x) => y.PathExpr? && PathEquals(x, y.segments)
    case Paren => false
    case Call =>
      y.Call? && AstEquals(a.kids[0], b.kids[0]) && |a.kids| == |b.kids|
      && forall i | 1 <= i < |a.kids| :: AstEquals(a.kids[i], b.kids[i])
    case MethodCall(x, _) =>
      y.MethodCall? && AstEquals(a.kids[0], b.kids[0]) && x == y.methodName
      && |a.kids| == |b.kids| && forall i | 1 <= i < |a.kids| :: AstEquals(a.kids[i], b.kids[i])
    case Field(x) => y.Field? && AstEquals(a.kids[0], b.kids[0]) && MemberEquals(x, y.member)
    case Index => y.Index? && AstEquals(a.kids[0], b.kids[0]) && AstEquals(a.kids[1], b.kids[1])
    case Cast(x) => y.Cast? && AstEquals(a.kids[0], b.kids[0]) && TypeEquals(x, y.ty)
    case Reference(x) => y.Reference? && x == y.mutable && AstEquals(a.kids[0], b.kids[0])
    case Tuple =>
      y.Tuple? && |a.kids| == |b.kids|
      && forall i | 0 <= i < |a.kids| :: AstEquals(a.kids[i], b.kids[i])
    case Array =>
      y.Array? && |a.kids| == |b.kids|
      && forall i | 0 <= i < |a.kids| :: AstEquals(a.kids[i], b.kids[i])
    case If =>
      // only the conditions; the branches are not compared
      y.If? && AstEquals(a.kids[0], b.kids[0])
    case BlockExpr =>
      // only the number of statements
      y.BlockExpr? && |a.kids[0].kids| == |b.kids[0].kids|
    case Return => y.Return? && SlotEquals(a.kids[0], b.kids[0])
    case Range(x) =>
      y.Range? && SlotEquals(a.kids[0], b.kids[0]) && SlotEquals(a.kids[1], b.kids[1])
      && x == y.limits
    case Other(_) => false
  }

  // ---------------------------------------------------------------------------
  // An independent description of which expressions equal themselves.

  /** An expression built only from shapes the comparator has a rule for (looking only
      at the parts those rules compare). */
  predicate Comparable(a: Node)
    requires WellFormed(a)
    decreases a
  {
    match a.kind
    case Expr(s) =>
      (match s
       case Binary(_) => Comparable(a.kids[0]) && Comparable(a.kids[1])
       case Unary(_) => Comparable(a.kids[0])
       case Literal(l) => !l.Verbatim?
       case PathExpr(_) => true
       case Paren => Comparable(a.kids[0])
       case Call => forall i | 0 <= i < |a.kids| :: Comparable(a.kids[i])
       case MethodCall(_, _) => forall i | 0 <= i < |a.kids| :: Comparable(a.kids[i])
       case Field(_) => Comparable(a.kids[0])
       case Index => Comparable(a.kids[0]) && Comparable(a.kids[1])
       case Cast(_) => Comparable(a.kids[0])
       case Reference(_) => Comparable(a.kids[0])
       case Tuple => forall i | 0 <= i < |a.kids| :: Comparable(a.kids[i])
       case Array => forall i | 0 <= i < |a.kids| :: Comparable(a.kids[i])
       case If => Comparable(a.kids[0])
       case BlockExpr => true
       case Return => a.kids[0].kind.Absent? || Comparable(a.kids[0])
       case Range(_) =>
         (a.kids[0].kind.Absent? || Comparable(a.kids[0]))
         && (a.kids[1].kind.Absent? || Comparable(a.kids[1]))
       case Other(_) => false)
    case _ => false
  }

  /** The comparator is reflexive exactly on the comparable expressions: a closure, a
      macro, a `match`, a verbatim literal (or anything containing one where it is
      compared) is unequal even to itself. */
  lemma {:induction false} ReflexiveExactlyOnComparable(a: Node)
    requires WellFormed(a)
    ensures AstEquals(a, a) <==> Comparable(a)
    decreases a
  {
    if a.kind.Expr? {
      match a.kind.shape {
        case Binary(_) =>
          ReflexiveExactlyOnComparable(a.kids[0]);
          ReflexiveExactlyOnComparable(a.kids[1]);
        case Unary(_) => ReflexiveExactlyOnComparable(a.kids[0]);
        case Literal(l) =>
        case PathExpr(_) =>
        case Paren => ReflexiveExactlyOnComparable(a.kids[0]);
        case Call => ReflexiveAll(a, 0);
        case MethodCall(_, _) => ReflexiveAll(a, 0);
        case Field(_) => ReflexiveExactlyOnComparable(a.kids[0]);
        case Index =>
          ReflexiveExactlyOnComparable(a.kids[0]);
          ReflexiveExactlyOnComparable(a.kids[1]);
        case Cast(_) => ReflexiveExactlyOnComparable(a.kids[0]);
        case Reference(_) => ReflexiveExactlyOnComparable(a.kids[0]);
        case Tuple => ReflexiveAll(a, 0);
        case Array => ReflexiveAll(a, 0);
        case If => ReflexiveExactlyOnComparable(a.kids[0]);
        case BlockExpr =>
        case Return =>
          if !a.kids[0].kind.Absent? { ReflexiveExactlyOnComparable(a.kids[0]); }
          assert AstEquals(a, a) == SameShapeEquals(a, a);
        case Range(_) =>
          if !a.kids[0].kind.Absent? { ReflexiveExactlyOnComparable(a.kids[0]); }
          if !a.kids[1].kind.Absent? { ReflexiveExactlyOnComparable(a.kids[1]); }
          assert AstEquals(a, a) == SameShapeEquals(a, a);
        case Other(_) =>
      }
    }
  }

  lemma {:induction false} ReflexiveAll(a: Node, from: nat)
    requires WellFormed(a) && from <= 1
    ensures (forall i | from <= i < |a.kids| :: AstEquals(a.kids[i], a.kids[i]))
        <==> (forall i | from <= i < |a.kids| :: Comparable(a.kids[i]))
    decreases a, 0
  {
    forall i | from <= i < |a.kids|
      ensures AstEquals(a.kids[i], a.kids[i]) <==> Comparable(a.kids[i])
    {
      ReflexiveExactlyOnComparable(a.kids[i]);
    }
  }

  /** A shape without a rule of its own is unequal to every expression, on either side,
      however many parentheses wrap the other one. */
  lemma {:induction false} UnsupportedEqualsNothing(a: Node, b: Node)
    requires WellFormed(a) && WellFormed(b)
    requires a.kind.Expr? && a.kind.shape.Other?
    ensures !AstEquals(a, b) && !AstEquals(b, a)
    decreases b
  {
    if b.kind.Expr? && b.kind.shape.Paren? {
      UnsupportedEqualsNothing(a, b.kids[0]);
    }
  }

  /** The comparator treats its two arguments alike. */
  lemma {:induction false} Symmetric(a: Node, b: Node)
    requires WellFormed(a) && WellFormed(b)
    ensures AstEquals(a, b) == AstEquals(b, a)
    decreases a, b
  {
    if a.kind.Expr? && b.kind.Expr? {
      if a.kind.shape.Paren? && b.kind.shape.Paren? {
        Symmetric(a.kids[0], b.kids[0]);
      } else if a.kind.shape.Paren? {
        Symmetric(a.kids[0], b);
      } else if b.kind.shape.Paren? {
        Symmetric(a, b.kids[0]);
      } else {
        SymmetricKids(a, b);
      }
    }
  }

  lemma {:induction false} SymmetricKids(a: Node, b: Node)
    requires WellFormed(a) && WellFormed(b)
    ensures forall i | 0 <= i < |a.kids| && i < |b.kids| ::
      AstEquals(a.kids[i], b.kids[i]) == AstEquals(b.kids[i], a.kids[i])
    ensures forall i | 0 <= i < |a.kids| && i < |b.kids| ::
      SlotEquals(a.kids[i], b.kids[i]) == SlotEquals(b.kids[i], a.kids[i])
    decreases a, b, 0
  {
    forall i | 0 <= i < |a.kids| && i < |b.kids|
      ensures AstEquals(a.kids[i], b.kids[i]) == AstEquals(b.kids[i], a.kids[i])
      ensures SlotEquals(a.kids[i], b.kids[i]) == SlotEquals(b.kids[i], a.kids[i])
    {
      Symmetric(a.kids[i], b.kids[i]);
    }
  }

  // ---------------------------------------------------------------------------
  // Parentheses are transparent.

  function Unparen(a: Node): (r: Node)
    requires WellFormed(a)
    ensures WellFormed(r) && !(r.kind.Expr? && r.kind.shape.Paren?)
    decreases a
  {
    if a.kind.Expr? && a.kind.shape.Paren? then Unparen(a.kids[0]) else a
  }

  /** Comparing two expressions is comparing them with all outer parentheses removed. */
  lemma {:induction false} ParensTransparent(a: Node, b: Node)
    requires WellFormed(a) && WellFormed(b)
    ensures AstEquals(a, b) == AstEquals(Unparen(a), Unparen(b))
    decreases a, b
  {
    var pa := a.kind.Expr? && a.kind.shape.Paren?;
    var pb := b.kind.Expr? && b.kind.shape.Paren?;
    if pa && pb {
      ParensTransparent(a.kids[0], b.kids[0]);
    } else if pa {
      ParensTransparent(a.kids[0], b);
    } else if pb {
      ParensTransparent(a, b.kids[0]);
    }
  }

  /** `(x)` equals `y` exactly when `x` equals `y`. */
  lemma ParenEqualsInner(p: Node, y: Node)
    requires WellFormed(p) && WellFormed(y)
    requires p.kind.Expr? && p.kind.shape.Paren?
    ensures AstEquals(p, y) == AstEquals(p.kids[0], y)
  {
    ParensTransparent(p, y);
    ParensTransparent(p.kids[0], y);
  }

  // ---------------------------------------------------------------------------
  // Positions are never compared.

  function EraseSpans(a: Node): (r: Node)
    ensures r.kind == a.kind && |r.kids| == |a.kids|
    ensures forall i | 0 <= i < |a.kids| :: r.kids[i] == EraseSpans(a.kids[i])
    decreases a
  {
    Node(Span(0, 0), a.kind, seq(|a.kids|, i requires 0 <= i < |a.kids| => EraseSpans(a.kids[i])))
  }

  lemma {:induction false} EraseSpansWellFormed(a: Node)
    requires WellFormed(a)
    ensures WellFormed(EraseSpans(a))
    decreases a
  {
    forall i | 0 <= i < |a.kids| ensures WellFormed(EraseSpans(a).kids[i]) {
      EraseSpansWellFormed(a.kids[i]);
    }
  }

  /** Moving any node of either expression to another line or column does not change
      the verdict. */
  lemma {:induction false} SpansIgnored(a: Node, b: Node)
    requires WellFormed(a) && WellFormed(b)
    ensures WellFormed(EraseSpans(a)) && WellFormed(EraseSpans(b))
    ensures AstEquals(a, b) == AstEquals(EraseSpans(a), EraseSpans(b))
    decreases a, b
  {
    EraseSpansWellFormed(a);
    EraseSpansWellFormed(b);
    var ea, eb := EraseSpans(a), EraseSpans(b);
    forall i, j | 0 <= i < |a.kids| && 0 <= j < |b.kids|
      ensures AstEquals(a.kids[i], b.kids[j]) == AstEquals(ea.kids[i], eb.kids[j])
    {
      SpansIgnored(a.kids[i], b.kids[j]);
    }
    forall i | 0 <= i < |a.kids|
      ensures AstEquals(a.kids[i], b) == AstEquals(ea.kids[i], eb)
    {
      SpansIgnored(a.kids[i], b);
    }
    forall j | 0 <= j < |b.kids|
      ensures AstEquals(a, b.kids[j]) == AstEquals(ea, eb.kids[j])
    {
      SpansIgnored(a, b.kids[j]);
    }
    forall i, j | 0 <= i < |a.kids| && 0 <= j < |b.kids|
      ensures SlotEquals(a.kids[i], b.kids[j]) == SlotEquals(ea.kids[i], eb.kids[j])
    {
    }
    if a.kind.Expr? && b.kind.Expr? && !a.kind.shape.Paren? && !b.kind.shape.Paren? {
      assert SameShapeEquals(a, b) == SameShapeEquals(ea, eb);
    }
  }

  // ---------------------------------------------------------------------------
  // The loose rules, stated exactly.

  /** Two `if` expressions are equal iff their conditions are, whatever their branches. */
  lemma IfComparesConditionOnly(a: Node, b: Node)
    requires WellFormed(a) && WellFormed(b)
    requires a.kind == Expr(If) && b.kind == Expr(If)
    ensures AstEquals(a, b) <==> AstEquals(a.kids[0], b.kids[0])
  {
  }

  /** So an `if` with a comparable condition equals every `if` testing that condition. */
  lemma IfWithSameCondition(a: Node, b: Node)
    requires WellFormed(a) && WellFormed(b)
    requires a.kind == Expr(If) && b.kind == Expr(If) && a.kids[0] == b.kids[0]
    ensures AstEquals(a, b) <==> Comparable(a.kids[0])
  {
    ReflexiveExactlyOnComparable(a.kids[0]);
  }

  /** Two block expressions are equal iff they have the same number of statements. */
  lemma BlocksCompareLength(a: Node, b: Node)
    requires WellFormed(a) && WellFormed(b)
    requires a.kind == Expr(BlockExpr) && b.kind == Expr(BlockExpr)
    ensures AstEquals(a, b) <==> |a.kids[0].kids| == |b.kids[0].kids|
  {
  }

  /** Binary expressions are equal iff the operator is the same and both operands are equal. */
  lemma BinaryEquality(a: Node, b: Node)
    requires WellFormed(a) && WellFormed(b)
    requires a.kind.Expr? && a.kind.shape.Binary? && b.kind.Expr? && b.kind.shape.Binary?
    ensures AstEquals(a, b) <==>
      a.kind.shape.op == b.kind.shape.op
      && AstEquals(a.kids[0], b.kids[0]) && AstEquals(a.kids[1], b.kids[1])
  {
  }

  /** Paths with the same identifiers are equal whatever their generic arguments. */
  lemma PathsCompareIdentifiers(a: Node, b: Node)
    requires WellFormed(a) && WellFormed(b)
    requires a.kind.Expr? && a.kind.shape.PathExpr? && b.kind.Expr? && b.kind.shape.PathExpr?
    ensures AstEquals(a, b) <==>
      |a.kind.shape.segments| == |b.kind.shape.segments|
      && forall i | 0 <= i < |a.kind.shape.segments| ::
           a.kind.shape.segments[i].ident == b.kind.shape.segments[i].ident
  {
  }
}
