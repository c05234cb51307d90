/**
 Joining two operands into one (kconfig/expr.c).
 */
module KExprJoins {
  import opened Options
  import opened KExprs
  import opened KExprEquality

  /** The symbol the first operand speaks about, if it has a joinable form. */
  function FirstSym(e: Expr): Option<Symbol> {
    match e
    case Sym(s) => Some(s)
    case Cmp(_, a, _) => Some(a)
    case Not(Sym(s)) => Some(s)
    case Not(Cmp(_, a, _)) => Some(a)
    case _ => None
  }

  /** The same for the second operand, where a negated comparison is not looked into. */
  function SecondSym(e: Expr): Option<Symbol> {
    match e
    case Sym(s) => Some(s)
    case Cmp(_, a, _) => Some(a)
    case Not(Sym(s)) => Some(s)
    case _ => None
  }

  predicate Pair(x: Symbol, y: Symbol, a: Symbol, b: Symbol) { (x == a && y == b) || (x == b && y == a) }

  /** `a = x || a = y` for two of the three values. */
  function JoinEquals(s: Symbol, x: Symbol, y: Symbol): Option<Expr> {
    if Pair(x, y, YES, MOD) then Some(Cmp(false, s, NO))
    else if Pair(x, y, YES, NO) then Some(Cmp(false, s, MOD))
    else if Pair(x, y, MOD, NO) then Some(Cmp(false, s, YES))
    else None
  }

  function JoinOr(e1: Expr, e2: Expr): Option<Expr> {
    if ExprEq(e1, e2) then Some(e1)
    else if FirstSym(e1).None? || FirstSym(e1) != SecondSym(e2) then None
    else
      var s := FirstSym(e1).value;
      if TypeOf(s) == TristateT && e1.Cmp? && e1.eq && e2.Cmp? && e2.eq then JoinEquals(s, e1.b, e2.b)
      else if TypeOf(s) == BooleanT && ((e1 == Not(Sym(s)) && e2.Sym?) || (e2 == Not(Sym(s)) && e1.Sym?)) then
        Some(Sym(YES))
      else None
  }

  /** `a != x && a != y` for two of the three values. */
  function JoinUnequals(s: Symbol, x: Symbol, y: Symbol): Option<Expr> {
    if Pair(x, y, YES, NO) then Some(Cmp(true, s, MOD))
    else if Pair(x, y, YES, MOD) then Some(Cmp(true, s, NO))
    else if Pair(x, y, MOD, NO) then Some(Cmp(true, s, YES))
    else None
  }

  /** `s && s = x` and `s && s != x`, in this order. */
  function JoinWithSym(s: Symbol, eq: bool, x: Symbol): Option<Expr> {
    if eq && x == YES then Some(Cmp(true, s, YES))
    else if !eq && x == NO then Some(Sym(s))
    else if !eq && x == MOD then Some(Cmp(true, s, YES))
    else None
  }

  /** `s = x && s != y` for constants. */
  function JoinMixed(s: Symbol, x: Symbol, y: Symbol): Option<Expr> {
    if x.Const? && y.Const? then Some(if x != y then Cmp(true, s, x) else Sym(NO)) else None
  }

  function JoinAnd(e1: Expr, e2: Expr): Option<Expr> {
    if ExprEq(e1, e2) then Some(e1)
    else if FirstSym(e1).None? || FirstSym(e1) != SecondSym(e2) then None
    else
      var s := FirstSym(e1).value;
      if TypeOf(s) != BooleanT && TypeOf(s) != TristateT then None
      else if e1.Sym? && e2.Cmp? then JoinWithSym(s, e2.eq, e2.b)
      else if e1.Cmp? && e2.Sym? then JoinWithSym(s, e1.eq, e1.b)
      else if TypeOf(s) != TristateT || !e1.Cmp? || !e2.Cmp? then None
      else if e1.eq && !e2.eq then JoinMixed(s, e1.b, e2.b)
      else if !e1.eq && e2.eq then JoinMixed(s, e2.b, e1.b)
      else if !e1.eq && !e2.eq then JoinUnequals(s, e1.b, e2.b)
      else None
  }

  function Join(op: Op, e1: Expr, e2: Expr): Option<Expr> {
    if op == OrOp then JoinOr(e1, e2) else JoinAnd(e1, e2)
  }

  /** The name of a symbol of boolean or tristate type, and of the three constants. */
  lemma {:induction false} Strings(v: Env, s: Symbol)
    requires WellTyped(v)
    ensures v.str(YES) == "y" && v.str(MOD) == "m" && v.str(NO) == "n" && "y" != "m" && "y" != "n" && "m" != "n"
    ensures TypeOf(s) == BooleanT || TypeOf(s) == TristateT ==> v.str(s) == TriName(v.tri(s))
    ensures TypeOf(s) == BooleanT ==> v.tri(s) != 1
  {
    Names();
  }

  lemma {:induction false} JoinOrSound(v: Env, e1: Expr, e2: Expr)
    requires WellTyped(v) && JoinOr(e1, e2).Some?
    ensures Eval(v, JoinOr(e1, e2).value) == Comb(OrOp, Eval(v, e1), Eval(v, e2))
  {
    hide WellTyped, ExprEq;
    if ExprEq(e1, e2) {
      ExprEqSound(v, e1, e2);
    } else {
      var s := FirstSym(e1).value;
      Strings(v, s);
      YesIs(v);
    }
  }

  lemma {:induction false} YesIs(v: Env)
    requires WellTyped(v)
    ensures v.tri(YES) == 2 && v.tri(NO) == 0 && v.tri(MOD) == 1 && forall s: Symbol :: s.Const? ==> v.str(s) == s.name
  {
  }

  lemma {:induction false} JoinAndSound(v: Env, e1: Expr, e2: Expr)
    requires WellTyped(v) && JoinAnd(e1, e2).Some?
    ensures Eval(v, JoinAnd(e1, e2).value) == Comb(AndOp, Eval(v, e1), Eval(v, e2))
  {
    hide WellTyped, ExprEq;
    if ExprEq(e1, e2) {
      ExprEqSound(v, e1, e2);
    } else {
      var s := FirstSym(e1).value;
      Strings(v, s);
      YesIs(v);
    }
  }

  /** A join has the value of both operands together, under every well-typed valuation. */
  lemma {:induction false} JoinSound(v: Env, op: Op, e1: Expr, e2: Expr)
    requires WellTyped(v) && Join(op, e1, e2).Some?
    ensures Eval(v, Join(op, e1, e2).value) == Comb(op, Eval(v, e1), Eval(v, e2))
  {
    hide WellTyped, JoinOr, JoinAnd;
    if op == OrOp { JoinOrSound(v, e1, e2); } else { JoinAndSound(v, e1, e2); }
  }

  lemma {:induction false} JoinShape(op: Op, e1: Expr, e2: Expr)
    requires Join(op, e1, e2).Some?
    ensures var t := Join(op, e1, e2).value; Size(t) <= Size(e1) && (IsOp(op, t) ==> IsOp(op, e1))
  {
    hide ExprEq;
  }
}
