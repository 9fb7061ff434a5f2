/** The parsed form of one Rust source file, as the syn parser produces it.

    Every syntax node is a `Node(span, kind, kids)`: its kind is a closed sum type,
    its children are listed in the order syn's generated visitors walk them, and its
    span is the start of its first token (the only position the engine ever reads).
    Slots that syn keeps as `Option<Expr>` (an `if` without `else`, `return` without a
    value, an open range bound) hold an `Absent` node, so each expression shape has a
    fixed arity; `WellFormed` states those arities.
 */
module Syntax {

  /** Start of the first token of a node: 1-based line, 0-based column (proc_macro2). */
  datatype Span = Span(line: nat, column: nat)

  datatype BinOp =
    | Add | Sub | Mul | Div | Rem | And | Or | BitXor | BitAnd | BitOr | Shl | Shr
    | Eq | Lt | Le | Ne | Ge | Gt
    | AddAssign | SubAssign | MulAssign | DivAssign | RemAssign
    | BitXorAssign | BitAndAssign | BitOrAssign | ShlAssign | ShrAssign

  datatype UnOp = Deref | Not | Neg

  type byte = x: int | 0 <= x < 256

  /** A literal as the parser decodes it; `suffix` is the type suffix (`1u8`), which
      no comparison looks at. Integer and float digits are already in base 10. */
  datatype Lit =
    | Str(text: string, suffix: string)
    | ByteStr(bytes: seq<byte>, suffix: string)
    | CStr(bytes: seq<byte>, suffix: string)
    | Byte(byteValue: byte, suffix: string)
    | Char(charValue: char, suffix: string)
    | Int(digits: string, suffix: string)
    | Float(digits: string, suffix: string)
    | Bool(boolValue: bool)
    | Verbatim(raw: string)

  /** One `::`-separated segment of a path; `generics` is the printed `<...>` part. */
  datatype Segment = Segment(ident: string, generics: string)

  datatype Member = Named(name: string) | Unnamed(index: nat)

  datatype RangeLimits = HalfOpen | Closed

  /** The expression shapes, with the children each one has (in visit order). */
  datatype Shape =
    | Binary(op: BinOp)                               // [left, right]
    | Unary(unop: UnOp)                               // [operand]
    | Literal(lit: Lit)                               // []
    | PathExpr(segments: seq<Segment>)                // []
    | Paren                                           // [inner]
    | Call                                            // [callee, args...]
    | MethodCall(methodName: string, turbofish: string) // [receiver, args...]
    | Field(member: Member)                           // [base]
    | Index                                           // [base, index]
    | Cast(ty: string)                                // [operand]; ty is the printed type
    | Reference(mutable: bool)                        // [operand]
    | Tuple                                           // [elems...]
    | Array                                           // [elems...]
    | If                                              // [cond, then-block, else-or-Absent]
    | BlockExpr                                       // [block]
    | Return                                          // [value-or-Absent]
    | Range(limits: RangeLimits)                      // [start-or-Absent, end-or-Absent]
    | Other(name: string)                             // closures, macros, match, loops, ...

  /** Node kinds. Only `ItemFn` and `ImplItemFn` are functions the engine gates on;
      a trait's default method (`TraitItemFn`) is walked like any other container. */
  datatype Kind =
    | Expr(shape: Shape)
    | Block                       // kids: statements
    | Local                       // `let`; kids: initialiser (and `else` block), if any
    | StmtExpr(semi: bool)        // kids: [expr]
    | ItemFn(ident: string)       // kids: [body block]
    | ImplItemFn(ident: string)   // kids: [body block]
    | TraitItemFn(ident: string)  // kids: [] or [default body block]
    | ItemImpl                    // kids: impl items
    | ItemTrait                   // kids: trait items
    | ItemMod                     // kids: items of an inline module
    | ItemConst                   // kids: [value]  (also `static`, impl `const`)
    | OtherItem                   // struct, enum, use, macro item, ...
    | Absent                      // an empty `Option<Expr>` slot

  datatype Node = Node(span: Span, kind: Kind, kids: seq<Node>)

  datatype File = File(items: seq<Node>)

  predicate IsExpr(n: Node) {
    n.kind.Expr?
  }

  /** The function name when `n` is a free function or an impl method. */
  predicate IsFn(n: Node) {
    n.kind.ItemFn? || n.kind.ImplItemFn?
  }

  function FnName(n: Node): string
    requires IsFn(n)
  {
    n.kind.ident
  }

  /** The number of children syn's types give each expression shape. */
  predicate ArityOk(n: Node) {
    match n.kind
    case Expr(shape) =>
      (match shape
       case Binary(_) => |n.kids| == 2
       case Unary(_) => |n.kids| == 1
       case Literal(_) => |n.kids| == 0
       case PathExpr(_) => |n.kids| == 0
       case Paren => |n.kids| == 1
       case Call => |n.kids| >= 1
       case MethodCall(_, _) => |n.kids| >= 1
       case Field(_) => |n.kids| == 1
       case Index => |n.kids| == 2
       case Cast(_) => |n.kids| == 1
       case Reference(_) => |n.kids| == 1
       case Tuple => true
       case Array => true
       case If => |n.kids| == 3
       case BlockExpr => |n.kids| == 1
       case Return => |n.kids| == 1
       case Range(_) => |n.kids| == 2
       case Other(_) => true)
    case Absent => |n.kids| == 0
    case _ => true
  }

  predicate WellFormed(n: Node)
    decreases n
  {
    ArityOk(n) && forall i | 0 <= i < |n.kids| :: WellFormed(n.kids[i])
  }

  predicate AllWellFormed(ns: seq<Node>) {
    forall i | 0 <= i < |ns| :: WellFormed(ns[i])
  }

  /** A parsed expression: syn hands out only well-formed trees. */
  type Expr = n: Node | WellFormed(n) witness Node(Span(1, 0), Expr(Literal(Bool(true))), [])

  /** A parsed source file. */
  type SourceFile = f: File | AllWellFormed(f.items) witness File([])

  // ---------------------------------------------------------------------------
  // Positions: a path is the list of child indices from a list of nodes down to one
  // node (its first index selects within the list itself).

  type Path = seq<nat>

  predicate ValidPath(ns: seq<Node>, p: Path)
    decreases |p|, 0
  {
    |p| > 0 && p[0] < |ns| && ValidPathIn(ns[p[0]], p[1..])
  }

  predicate ValidPathIn(n: Node, q: Path)
    decreases |q|, 1
  {
    q == [] || ValidPath(n.kids, q)
  }

  function NodeAt(ns: seq<Node>, p: Path): Node
    requires ValidPath(ns, p)
    decreases |p|, 0
  {
    NodeIn(ns[p[0]], p[1..])
  }

  function NodeIn(n: Node, q: Path): Node
    requires ValidPathIn(n, q)
    decreases |q|, 1
  {
    if q == [] then n else NodeAt(n.kids, q)
  }

  /** `ns` with the node at `p` overwritten by `r`; nothing else changes. */
  function ReplaceAt(ns: seq<Node>, p: Path, r: Node): (res: seq<Node>)
    requires ValidPath(ns, p)
    ensures |res| == |ns|
    decreases |p|, 0
  {
    ns[p[0] := ReplaceIn(ns[p[0]], p[1..], r)]
  }

  function ReplaceIn(n: Node, q: Path, r: Node): Node
    requires ValidPathIn(n, q)
    decreases |q|, 1
  {
    if q == [] then r else n.(kids := ReplaceAt(n.kids, q, r))
  }

  /** The path `[i]` leads to `ns[i]`. */
  lemma PathToItem(ns: seq<Node>, i: nat)
    requires i < |ns|
    ensures ValidPath(ns, [i]) && NodeAt(ns, [i]) == ns[i]
  {
    assert [i][0] == i && [i][1..] == [];
  }

  /** Prefixing a path below `ns[i]` with `i` leads to the same node from `ns`. */
  lemma PathThroughItem(ns: seq<Node>, i: nat, q: Path)
    requires i < |ns| && ValidPath(ns[i].kids, q)
    ensures ValidPath(ns, [i] + q) && NodeAt(ns, [i] + q) == NodeAt(ns[i].kids, q)
  {
    var p := [i] + q;
    assert p[0] == i && p[1..] == q;
  }

  /** Two paths that part ways: neither leads through the other's node. */
  predicate Diverge(p: Path, q: Path)
    decreases |p|
  {
    |p| > 0 && |q| > 0 && (p[0] != q[0] || Diverge(p[1..], q[1..]))
  }

  /** After replacing, the path leads to the replacement. */
  lemma {:induction false} ReplaceAtPlaces(ns: seq<Node>, p: Path, r: Node)
    requires ValidPath(ns, p)
    ensures ValidPath(ReplaceAt(ns, p, r), p) && NodeAt(ReplaceAt(ns, p, r), p) == r
    decreases |p|
  {
    var q := p[1..];
    if q != [] {
      ReplaceAtPlaces(ns[p[0]].kids, q, r);
    }
  }

  /** Replacing at `p` leaves every node on a diverging path as it was. */
  lemma {:induction false} ReplaceAtElsewhere(ns: seq<Node>, p: Path, r: Node, q: Path)
    requires ValidPath(ns, p) && ValidPath(ns, q) && Diverge(p, q)
    ensures ValidPath(ReplaceAt(ns, p, r), q) && NodeAt(ReplaceAt(ns, p, r), q) == NodeAt(ns, q)
    decreases |p|
  {
    if p[0] == q[0] {
      var n := ns[p[0]];
      ReplaceAtElsewhere(n.kids, p[1..], r, q[1..]);
    }
  }

  // ---------------------------------------------------------------------------
  // Pre-order: the order in which a depth-first walk that visits a node before its
  // children, and children left to right, meets the nodes.

  /** `a` is met strictly before `b`: `a` is a proper prefix of `b` (an ancestor),
      or `a` is smaller at the first index where they differ. */
  predicate Before(a: Path, b: Path)
    decreases |a|
  {
    b != [] && (a == [] || a[0] < b[0] || (a[0] == b[0] && Before(a[1..], b[1..])))
  }

  /** An ancestor is met before its descendants. */
  lemma {:induction false} BeforeDescendant(a: Path, b: Path)
    requires |a| < |b| && b[..|a|] == a
    ensures Before(a, b)
    decreases |a|
  {
    if a != [] {
      assert a[0] == b[0];
      assert b[1..][..|a| - 1] == a[1..];
      BeforeDescendant(a[1..], b[1..]);
    }
  }

  /** Paths that agree up to index `m` and are smaller there are met first. */
  lemma {:induction false} BeforeAtIndex(a: Path, b: Path, m: nat)
    requires m < |a| && m < |b| && a[..m] == b[..m] && a[m] < b[m]
    ensures Before(a, b)
    decreases m
  {
    if m > 0 {
      assert a[0] == a[..m][0] == b[..m][0] == b[0];
      assert a[1..][..m - 1] == a[..m][1..] == b[..m][1..] == b[1..][..m - 1];
      BeforeAtIndex(a[1..], b[1..], m - 1);
    }
  }

  /** `Before` is a strict order: never both ways, and transitive. */
  lemma {:induction false} BeforeStrict(a: Path, b: Path, c: Path)
    ensures !Before(a, a)
    ensures Before(a, b) ==> !Before(b, a)
    ensures Before(a, b) && Before(b, c) ==> Before(a, c)
    decreases |a|
  {
    if a != [] {
      BeforeStrict(a[1..], if b == [] then [] else b[1..], if c == [] then [] else c[1..]);
    }
  }
}
