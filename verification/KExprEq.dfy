/**
 Deciding equality of expressions by cancelling equal operands, and taking
 common operands out (kconfig/expr.c).
 */
module KExprEquality {
  import opened Options
  import opened KExprs

  predicate IsOp(op: Op, e: Expr) { e.Bin? && e.op == op }

  /** Equal operands of the two `op` spines both turn into the neutral constant. */
  function CancelEq(op: Op, e1: Expr, e2: Expr): (r: (Expr, Expr))
    ensures Size(r.0) <= Size(e1) && Size(r.1) <= Size(e2)
    ensures (IsOp(op, e1) ==> IsOp(op, r.0)) && (IsOp(op, e2) ==> IsOp(op, r.1))
    decreases Size(e1) + Size(e2), if IsOp(op, e1) || IsOp(op, e2) then 0 else 3
  {
    if IsOp(op, e1) then
      var a := CancelEq(op, e1.l, e2);
      var b := CancelEq(op, e1.r, a.1);
      (Bin(op, a.0, b.0), b.1)
    else if IsOp(op, e2) then
      var a := CancelEq(op, e1, e2.l);
      var b := CancelEq(op, a.0, e2.r);
      (b.0, Bin(op, a.1, b.1))
    else if e1 == e2 && (e1 == Sym(YES) || e1 == Sym(NO)) then (e1, e2)
    else if ExprEq(e1, e2) then (Unit(op), Unit(op))
    else (e1, e2)
  }

  function EliminateEq(e1: Expr, e2: Expr): (r: (Expr, Expr))
    ensures Size(r.0) <= Size(e1) && Size(r.1) <= Size(e2)
    decreases Size(e1) + Size(e2), 1
  {
    var p := if e1.Bin? then CancelEq(e1.op, e1, e2) else (e1, e2);
    var q := if p.1.Bin? && !IsOp(p.1.op, p.0) then CancelEq(p.1.op, p.0, p.1) else p;
    (EliminateYn(q.0), EliminateYn(q.1))
  }

  predicate ExprEq(e1: Expr, e2: Expr)
    decreases Size(e1) + Size(e2), 2
  {
    match e1
    case Sym(_) => e1 == e2
    case Cmp(_, _, _) => e1 == e2
    case Not(x) => e2.Not? && ExprEq(x, e2.e)
    case Bin(op, _, _) => IsOp(op, e2) && var r := EliminateEq(e1, e2); r.0.Sym? && r.0 == r.1
  }

  /** Two operands with a part taken out of each, or one with two parts taken out. */
  lemma CombLaws(op: Op, x: Tri, a: Tri, y: Tri, b: Tri)
    ensures Comb(op, Comb(op, x, a), Comb(op, y, b)) == Comb(op, Comb(op, x, y), Comb(op, a, b))
    ensures Comb(op, x, Comb(op, y, b)) == Comb(op, Comb(op, x, y), b)
  {
  }

  lemma {:induction false} UnitLaw(v: Env, op: Op, x: Tri)
    requires WellTyped(v)
    ensures Comb(op, x, Eval(v, Unit(op))) == x && Comb(op, Eval(v, Unit(op)), x) == x
  {
  }

  /** What was cancelled, `c`, is the same on both sides. */
  lemma {:induction false} CancelSound(v: Env, op: Op, e1: Expr, e2: Expr) returns (c: Tri)
    requires WellTyped(v)
    ensures Eval(v, e1) == Comb(op, c, Eval(v, CancelEq(op, e1, e2).0))
    ensures Eval(v, e2) == Comb(op, c, Eval(v, CancelEq(op, e1, e2).1))
    decreases Size(e1) + Size(e2), if IsOp(op, e1) || IsOp(op, e2) then 0 else 3
  {
    hide Comb, WellTyped, Unit;
    c := Eval(v, Unit(op));
    UnitLaw(v, op, Eval(v, e1));
    UnitLaw(v, op, Eval(v, e2));
    if IsOp(op, e1) {
      var a := CancelEq(op, e1.l, e2);
      var b := CancelEq(op, e1.r, a.1);
      var x := CancelSound(v, op, e1.l, e2);
      var y := CancelSound(v, op, e1.r, a.1);
      c := Comb(op, x, y);
      CombLaws(op, x, Eval(v, a.0), y, Eval(v, b.0));
      CombLaws(op, x, x, y, Eval(v, b.1));
    } else if IsOp(op, e2) {
      var a := CancelEq(op, e1, e2.l);
      var b := CancelEq(op, a.0, e2.r);
      var x := CancelSound(v, op, e1, e2.l);
      var y := CancelSound(v, op, a.0, e2.r);
      c := Comb(op, x, y);
      CombLaws(op, x, Eval(v, a.1), y, Eval(v, b.1));
      CombLaws(op, x, x, y, Eval(v, b.0));
    } else if e1 == e2 && (e1 == Sym(YES) || e1 == Sym(NO)) {
    } else if ExprEq(e1, e2) {
      ExprEqSound(v, e1, e2);
      c := Eval(v, e1);
    }
  }

  /** When the answer is yes, both have the same value. */
  lemma {:induction false} ExprEqSound(v: Env, e1: Expr, e2: Expr)
    requires WellTyped(v) && ExprEq(e1, e2)
    ensures Eval(v, e1) == Eval(v, e2)
    decreases Size(e1) + Size(e2), 2
  {
    match e1
    case Sym(_) =>
    case Cmp(_, _, _) =>
    case Not(x) => ExprEqSound(v, x, e2.e);
    case Bin(op, _, _) =>
      var p := CancelEq(op, e1, e2);
      var c := CancelSound(v, op, e1, e2);
      EliminateYnSame(v, p.0);
      EliminateYnSame(v, p.1);
      assert EliminateEq(e1, e2) == (EliminateYn(p.0), EliminateYn(p.1));
  }

  datatype Extracted = Extracted(common: Option<Expr>, e1: Expr, e2: Expr)

  /** Equal operands of the two `op` spines move into `common`. */
  function ExtractEq(op: Op, common: Option<Expr>, e1: Expr, e2: Expr): (r: Extracted)
    ensures Size(r.e1) <= Size(e1) && Size(r.e2) <= Size(e2)
    decreases Size(e1) + Size(e2)
  {
    if IsOp(op, e1) then
      var a := ExtractEq(op, common, e1.l, e2);
      var b := ExtractEq(op, a.common, e1.r, a.e2);
      Extracted(b.common, Bin(op, a.e1, b.e1), b.e2)
    else if IsOp(op, e2) then
      var a := ExtractEq(op, common, e1, e2.l);
      var b := ExtractEq(op, a.common, a.e1, e2.r);
      Extracted(b.common, b.e1, Bin(op, a.e2, b.e2))
    else if ExprEq(e1, e2) then
      Extracted(Some(if common.Some? then Bin(op, common.value, e1) else e1), Unit(op), Unit(op))
    else Extracted(common, e1, e2)
  }

  function ExtractEqOp(op: Op, e1: Expr, e2: Expr): Extracted {
    var x := ExtractEq(op, None, e1, e2);
    if x.common.Some? then Extracted(x.common, EliminateYn(x.e1), EliminateYn(x.e2)) else x
  }

  ghost function CommonValue(v: Env, op: Op, common: Option<Expr>): Tri {
    if common.Some? then Eval(v, common.value) else if op == AndOp then 2 else 0
  }

  lemma {:induction false} ExtractSound(v: Env, op: Op, common: Option<Expr>, e1: Expr, e2: Expr) returns (c: Tri)
    requires WellTyped(v)
    ensures var x := ExtractEq(op, common, e1, e2);
      && CommonValue(v, op, x.common) == Comb(op, CommonValue(v, op, common), c)
      && Eval(v, e1) == Comb(op, c, Eval(v, x.e1)) && Eval(v, e2) == Comb(op, c, Eval(v, x.e2))
    decreases Size(e1) + Size(e2)
  {
    hide Comb, WellTyped, Unit, CommonValue, ExprEq;
    var k := CommonValue(v, op, common);
    c := Eval(v, Unit(op));
    UnitLaw(v, op, Eval(v, e1));
    UnitLaw(v, op, Eval(v, e2));
    UnitLaw(v, op, k);
    if IsOp(op, e1) {
      var a := ExtractEq(op, common, e1.l, e2);
      var b := ExtractEq(op, a.common, e1.r, a.e2);
      var x := ExtractSound(v, op, common, e1.l, e2);
      var y := ExtractSound(v, op, a.common, e1.r, a.e2);
      c := Comb(op, x, y);
      CombLaws(op, x, Eval(v, a.e1), y, Eval(v, b.e1));
      CombLaws(op, x, x, y, Eval(v, b.e2));
      CombLaws(op, k, x, x, y);
    } else if IsOp(op, e2) {
      var a := ExtractEq(op, common, e1, e2.l);
      var b := ExtractEq(op, a.common, a.e1, e2.r);
      var x := ExtractSound(v, op, common, e1, e2.l);
      var y := ExtractSound(v, op, a.common, a.e1, e2.r);
      c := Comb(op, x, y);
      CombLaws(op, x, Eval(v, a.e2), y, Eval(v, b.e2));
      CombLaws(op, x, x, y, Eval(v, b.e1));
      CombLaws(op, k, x, x, y);
    } else if ExprEq(e1, e2) {
      ExprEqSound(v, e1, e2);
      c := Eval(v, e1);
      MoreCommon(v, op, common, e1);
    }
  }

  lemma {:induction false} MoreCommon(v: Env, op: Op, common: Option<Expr>, e: Expr)
    ensures CommonValue(v, op, Some(if common.Some? then Bin(op, common.value, e) else e))
      == Comb(op, CommonValue(v, op, common), Eval(v, e))
  {
  }

  /** Both expressions are what they have in common, combined with what is left of each. */
  lemma {:induction false} ExtractEqSound(v: Env, op: Op, e1: Expr, e2: Expr)
    requires WellTyped(v)
    ensures var x := ExtractEqOp(op, e1, e2); var c := CommonValue(v, op, x.common);
      Eval(v, e1) == Comb(op, c, Eval(v, x.e1)) && Eval(v, e2) == Comb(op, c, Eval(v, x.e2))
  {
    var x := ExtractEq(op, None, e1, e2);
    var c := ExtractSound(v, op, None, e1, e2);
    EliminateYnSame(v, x.e1);
    EliminateYnSame(v, x.e2);
  }
}
