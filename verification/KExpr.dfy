/**
 Three-valued configuration expressions, their meaning, constant elimination
 and negation normal form (kconfig/expr.c, kconfig/expr.h).
 */
module KExprs {

  /** n < m < y. */
  type Tri = x: int | 0 <= x <= 2

  datatype SymType = UnknownT | BooleanT | TristateT | OtherT

  /** Constants are quoted words, y, m and n among them; a variable without a declaration is of unknown type. */
  datatype Symbol = Const(name: string) | Var(name: string, typ: SymType)

  const YES := Const("y")
  const MOD := Const("m")
  const NO := Const("n")

  function TypeOf(s: Symbol): SymType { if s.Const? then UnknownT else s.typ }

  datatype Op = AndOp | OrOp

  datatype Expr =
    | Sym(s: Symbol)
    | Cmp(eq: bool, a: Symbol, b: Symbol)
    | Not(e: Expr)
    | Bin(op: Op, l: Expr, r: Expr)

  function Dual(op: Op): Op { if op == AndOp then OrOp else AndOp }

  function Comb(op: Op, x: Tri, y: Tri): Tri {
    if op == AndOp then (if x < y then x else y) else (if x > y then x else y)
  }

  /** The operand that changes nothing, and the one that decides. */
  function Unit(op: Op): Expr { Sym(if op == AndOp then YES else NO) }

  function Zero(op: Op): Expr { Sym(if op == AndOp then NO else YES) }

  /** Values of all symbols. */
  datatype Env = Env(tri: Symbol -> Tri, str: Symbol -> string)

  function TriName(t: Tri): string { if t == 0 then "n" else if t == 1 then "m" else "y" }

  /** Booleans are y or n, booleans and tristates read as their value's name, constants as themselves. */
  ghost predicate WellTyped(v: Env) {
    && v.tri(YES) == 2 && v.tri(MOD) == 1 && v.tri(NO) == 0
    && (forall s: Symbol :: s.Const? ==> v.str(s) == s.name)
    && (forall s: Symbol :: TypeOf(s) == BooleanT ==> v.tri(s) != 1)
    && (forall s: Symbol :: TypeOf(s) == BooleanT || TypeOf(s) == TristateT ==> v.str(s) == TriName(v.tri(s)))
  }

  function Eval(v: Env, e: Expr): Tri {
    match e
    case Sym(s) => v.tri(s)
    case Cmp(eq, a, b) => if (v.str(a) == v.str(b)) == eq then 2 else 0
    case Not(x) => 2 - Eval(v, x)
    case Bin(op, l, r) => Comb(op, Eval(v, l), Eval(v, r))
  }

  /** The symbols of an expression. */
  function Symbols(e: Expr): set<Symbol> {
    match e
    case Sym(s) => {s}
    case Cmp(_, a, b) => {a, b}
    case Not(x) => Symbols(x)
    case Bin(_, l, r) => Symbols(l) + Symbols(r)
  }

  function Size(e: Expr): nat {
    match e
    case Sym(_) => 1
    case Cmp(_, _, _) => 1
    case Not(x) => 1 + Size(x)
    case Bin(_, l, r) => 1 + Size(l) + Size(r)
  }

  /** Constant operands y and n of AND and OR go. */
  function EliminateYn(e: Expr): (r: Expr)
    ensures Size(r) <= Size(e)
  {
    if !e.Bin? then e
    else
      var l, r := EliminateYn(e.l), EliminateYn(e.r);
      if l == Zero(e.op) then l
      else if l == Unit(e.op) then r
      else if r == Zero(e.op) then r
      else if r == Unit(e.op) then l
      else Bin(e.op, l, r)
  }

  lemma {:induction false} EliminateYnSame(v: Env, e: Expr)
    requires WellTyped(v)
    ensures Eval(v, EliminateYn(e)) == Eval(v, e)
  {
    if e.Bin? {
      EliminateYnSame(v, e.l);
      EliminateYnSame(v, e.r);
    }
  }

  ghost predicate IsYn(e: Expr) { e == Sym(YES) || e == Sym(NO) }

  /** Some AND or OR, reached through ANDs and ORs only, has an operand y or n. */
  ghost predicate Shrinkable(e: Expr) {
    e.Bin? && (IsYn(e.l) || IsYn(e.r) || Shrinkable(e.l) || Shrinkable(e.r))
  }

  /** Constant elimination makes exactly the expressions smaller that have such an operand. */
  lemma {:induction false} EliminateYnShrinks(e: Expr)
    ensures Shrinkable(e) <==> Size(EliminateYn(e)) < Size(e)
    ensures !Shrinkable(e) ==> EliminateYn(e) == e
    ensures !Shrinkable(EliminateYn(e))
  {
    if e.Bin? {
      EliminateYnShrinks(e.l);
      EliminateYnShrinks(e.r);
    }
  }

  /** Weight that every rewriting of a negation lowers. */
  function Weight(e: Expr): nat
    ensures Weight(e) >= 1
  {
    match e
    case Sym(_) => 1
    case Cmp(_, _, _) => 2
    case Not(x) => 2 * Weight(x)
    case Bin(_, l, r) => Weight(l) + Weight(r) + 1
  }

  lemma {:induction false} PushedWeight(op: Op, l: Expr, r: Expr)
    ensures Weight(Bin(Dual(op), Not(l), Not(r))) < 2 * Weight(Bin(op, l, r))
  {
    assert Weight(Not(l)) == 2 * Weight(l) && Weight(Not(r)) == 2 * Weight(r);
  }

  /** Comparisons of boolean symbols with y, m or n become the symbol, its negation or a constant. */
  function TransformCmp(eq: bool, a: Symbol, b: Symbol): (r: Expr)
    ensures Weight(r) <= 2
  {
    if TypeOf(a) != BooleanT then Cmp(eq, a, b)
    else if b == NO then (if eq then Not(Sym(a)) else Sym(a))
    else if b == MOD then (if eq then Sym(NO) else Sym(YES))
    else if b == YES then (if eq then Sym(a) else Not(Sym(a)))
    else Cmp(eq, a, b)
  }

  function Transform(e: Expr): (r: Expr)
    ensures Weight(r) <= Weight(e)
    decreases Weight(e)
  {
    match e
    case Sym(_) => e
    case Cmp(eq, a, b) => TransformCmp(eq, a, b)
    case Bin(op, l, r) => Bin(op, Transform(l), Transform(r))
    case Not(x) =>
      var y := Transform(x);
      match y
      case Not(z) => Transform(z)
      case Cmp(eq, a, b) => Cmp(!eq, a, b)
      case Bin(op, l, r) => PushedWeight(op, l, r); Transform(Bin(Dual(op), Not(l), Not(r)))
      case Sym(s) => if s == YES then Sym(NO) else if s == MOD then Sym(MOD) else if s == NO then Sym(YES) else Not(y)
  }

  lemma {:induction false} TransformSame(v: Env, e: Expr)
    requires WellTyped(v)
    ensures Eval(v, Transform(e)) == Eval(v, e)
    decreases Weight(e)
  {
    match e
    case Sym(_) =>
    case Cmp(eq, a, b) => CmpSame(v, eq, a, b);
    case Bin(op, l, r) =>
      TransformSame(v, l);
      TransformSame(v, r);
    case Not(x) =>
      TransformSame(v, x);
      match Transform(x)
      case Not(z) => TransformSame(v, z);
      case Cmp(_, _, _) =>
      case Bin(op, l, r) =>
        PushedWeight(op, l, r);
        TransformSame(v, Bin(Dual(op), Not(l), Not(r)));
      case Sym(_) =>
  }

  lemma {:induction false} CmpSame(v: Env, eq: bool, a: Symbol, b: Symbol)
    requires WellTyped(v)
    ensures Eval(v, TransformCmp(eq, a, b)) == Eval(v, Cmp(eq, a, b))
  {
    assert v.str(b) == (if b.Const? then b.name else v.str(b));
    assert "y" != "m" && "y" != "n" && "m" != "n" by { Names(); }
  }

  lemma {:induction false} Names()
    ensures "y" != "m" && "y" != "n" && "m" != "n"
  {
    assert "y"[0] != "m"[0] && "y"[0] != "n"[0] && "m"[0] != "n"[0];
  }

  ghost predicate IsTriConst(s: Symbol) { s == YES || s == MOD || s == NO }

  /** Negations only right above a symbol other than y, m and n; no comparison left to rewrite. */
  ghost predicate Normal(e: Expr) {
    match e
    case Sym(_) => true
    case Cmp(_, a, b) => !(TypeOf(a) == BooleanT && IsTriConst(b))
    case Not(x) => x.Sym? && !IsTriConst(x.s)
    case Bin(_, l, r) => Normal(l) && Normal(r)
  }

  lemma {:induction false} TransformNormal(e: Expr)
    ensures Normal(Transform(e))
    decreases Weight(e)
  {
    match e
    case Sym(_) =>
    case Cmp(_, _, _) =>
    case Bin(op, l, r) =>
      TransformNormal(l);
      TransformNormal(r);
    case Not(x) =>
      TransformNormal(x);
      match Transform(x)
      case Not(z) => TransformNormal(z);
      case Cmp(_, _, _) =>
      case Bin(op, l, r) =>
        PushedWeight(op, l, r);
        TransformNormal(Bin(Dual(op), Not(l), Not(r)));
      case Sym(_) =>
  }

  /** Exactly the normal forms are left alone. */
  lemma {:induction false} TransformFixed(e: Expr)
    ensures Normal(e) <==> Transform(e) == e
  {
    if Normal(e) {
      NormalKept(e);
    } else {
      TransformNormal(e);
    }
  }

  lemma {:induction false} NormalKept(e: Expr)
    requires Normal(e)
    ensures Transform(e) == e
  {
    if e.Bin? {
      NormalKept(e.l);
      NormalKept(e.r);
    }
  }
}
