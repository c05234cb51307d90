/**
 Where duplicate elimination changes a value: an m that becomes n or y.
 */
module KExprSharpening {
  import opened KExprs
  import opened KExprEquality
  import opened KExprJoins
  import opened KExprPlaces
  import opened KExprDups
  import opened KExprForms
  import opened KExprDecisions

  /** Deciding an operand against its negation keeps the value exactly when it was not m. */
  lemma {:induction false} DecidedExact(v: Env, op: Op, e: Expr, p1: Place, p2: Place)
    requires WellTyped(v) && On(op, e, p1) && On(op, e, p2)
    requires ExtractEqOp(op, Transform(Not(At(op, e, p1))), At(op, e, p2)).e1 == Unit(op)
    ensures Eval(v, Put(op, e, p1, Zero(op))) == Eval(v, e) <==> Eval(v, e) != 1
  {
    hide ExtractEqOp, Put, At, On, Transform;
    DecidedFiner(v, op, e, p1, p2);
    PutEval(v, op, e, p1, Zero(op));
  }

  /** Without modules, that is with no symbol at m, the value is never changed. */
  lemma {:induction false} DefiniteKept(v: Env, e: Expr)
    requires WellTyped(v) && forall s :: s in Symbols(e) ==> v.tri(s) != 1
    ensures Eval(v, Eliminated(e)) == Eval(v, e)
  {
    DefiniteValue(v, e);
    EliminatedFiner(v, e);
  }

  /** Every operand is boolean, a comparison, y or n: no tristate symbol and no m stands on its own. */
  predicate TwoValued(e: Expr) {
    match e
    case Sym(s) => TypeOf(s) == BooleanT || s == YES || s == NO
    case Cmp(_, _, _) => true
    case Not(x) => TwoValued(x)
    case Bin(_, l, r) => TwoValued(l) && TwoValued(r)
  }

  /** Then the value is kept whatever the symbols are. */
  lemma {:induction false} TwoValuedKept(v: Env, e: Expr)
    requires WellTyped(v) && TwoValued(e)
    ensures Eval(v, Eliminated(e)) == Eval(v, e) != 1
  {
    NeverM(v, e);
    EliminatedFiner(v, e);
  }

  lemma {:induction false} NeverM(v: Env, e: Expr)
    requires WellTyped(v) && TwoValued(e)
    ensures Eval(v, e) != 1
  {
    match e
    case Sym(_) =>
    case Cmp(_, _, _) =>
    case Not(x) => NeverM(v, x);
    case Bin(_, l, r) =>
      NeverM(v, l);
      NeverM(v, r);
  }

  /** In no round does the second pass decide an operand. */
  predicate Undecided(e: Expr)
    decreases Size(e)
  {
    var p := Passes(e);
    PassesCount(e);
    EliminateYnShrinks(p.e);
    && (e.Bin? ==> Dups2(e.op, Dups1(e.op, e, [], []).e, [], []).count == 0)
    && (p.count != 0 ==> Undecided(EliminateYn(p.e)))
  }

  /** Then, too, the value is kept whatever the symbols are. */
  lemma {:induction false} UndecidedKept(v: Env, e: Expr)
    requires WellTyped(v) && Undecided(e)
    ensures Eval(v, Eliminated(e)) == Eval(v, e)
    decreases Size(e)
  {
    hide WellTyped, Eval, Dups1, Dups2;
    var p := Passes(e);
    PassesCount(e);
    if e.Bin? {
      EmptyPlace(e);
      Dups1Same(v, e.op, e, [], []);
      var a := Dups1(e.op, e, [], []);
      EmptyPlace(a.e);
      Dups2Count(e.op, a.e, [], []);
    }
    if p.count != 0 {
      EliminateYnShrinks(p.e);
      EliminateYnSame(v, p.e);
      UndecidedKept(v, EliminateYn(p.e));
    }
  }

  lemma {:induction false} DefiniteValue(v: Env, e: Expr)
    requires forall s :: s in Symbols(e) ==> v.tri(s) != 1
    ensures Eval(v, e) != 1
  {
    match e
    case Sym(s) => assert s in Symbols(e);
    case Cmp(_, _, _) =>
    case Not(x) => DefiniteValue(v, x);
    case Bin(_, l, r) =>
      DefiniteValue(v, l);
      DefiniteValue(v, r);
  }

  /** (a || b) && (!a && !b), or (a && b) || (!a || !b). */
  function Clash(op: Op, a: Symbol, b: Symbol): Expr {
    Bin(op, Bin(Dual(op), Sym(a), Sym(b)), Bin(op, Not(Sym(a)), Not(Sym(b))))
  }

  /** Two symbols: neither pass finds anything to do. */
  lemma {:induction false} PairIdle(op: Op, a: Symbol, b: Symbol)
    requires a != b
    ensures var e := Bin(op, Sym(a), Sym(b)); Dups1(op, e, [], []) == Pass(e, 0) && Dups2(op, e, [], []) == Pass(e, 0)
  {
    var e := Bin(op, Sym(a), Sym(b));
    assert [true][1..] == [] && [false][1..] == [];
    forall p | OperandAt(op, e, p) ensures p == [true] || p == [false] {
      OperandStep(op, e, p);
      OperandStep(op, Kid(e, p[0]), p[1..]);
    }
    assert !ExprEq(Sym(a), Sym(b)) && !ExprEq(Sym(b), Sym(a));
    assert Unjoined(op, e);
    NothingJoined(op, e, [], []);
    PlainUndecided(op, e, [], []);
  }

  /** No operand is an AND or OR: the second pass has nothing to decide. */
  lemma {:induction false} PlainUndecided(op: Op, e: Expr, p1: Place, p2: Place)
    requires On(op, e, p1) && On(op, e, p2) && forall p :: OperandAt(op, e, p) ==> On(op, e, p) && !At(op, e, p).Bin?
    ensures Dups2(op, e, p1, p2) == Pass(e, 0)
    decreases Spine(op, At(op, e, p1)), Spine(op, At(op, e, p2))
  {
    hide ExtractEqOp, Transform;
    if IsOp(op, At(op, e, p1)) {
      Below(op, e, p1, true);
      Below(op, e, p1, false);
      PlainUndecided(op, e, p1 + [true], p2);
      PlainUndecided(op, e, p1 + [false], p2);
    } else if IsOp(op, At(op, e, p2)) {
      Below(op, e, p2, true);
      Below(op, e, p2, false);
      PlainUndecided(op, e, p1, p2 + [true]);
      PlainUndecided(op, e, p1, p2 + [false]);
      assert OperandAt(op, e, p1);
    } else {
      assert OperandAt(op, e, p1);
    }
  }

  lemma {:induction false} OperandStep(op: Op, e: Expr, p: Place)
    requires OperandAt(op, e, p)
    ensures if IsOp(op, e) then p != [] && OperandAt(op, Kid(e, p[0]), p[1..]) else p == []
  {
  }

  lemma {:induction false} ClashPlaces(op: Op, a: Symbol, b: Symbol, p: Place)
    requires OperandAt(op, Clash(op, a, b), p)
    ensures p == [true] || p == [false, true] || p == [false, false]
  {
    hide OperandAt;
    var e := Clash(op, a, b);
    OperandStep(op, e, p);
    var q, k := p[1..], Kid(e, p[0]);
    OperandStep(op, k, q);
    if !p[0] { OperandStep(op, Kid(k, q[0]), q[1..]); }
    assert p == [p[0]] + q;
  }

  lemma {:induction false} ClashUnjoined(op: Op, a: Symbol, b: Symbol)
    requires a != b
    ensures Unjoined(op, Clash(op, a, b))
  {
    var e := Clash(op, a, b);
    var x, y, z := Bin(Dual(op), Sym(a), Sym(b)), Not(Sym(a)), Not(Sym(b));
    assert [true][1..] == [] && [false][1..] == [] && [false, true][1..] == [true] && [false, false][1..] == [false];
    assert Join(op, x, y).None? && Join(op, y, x).None? && Join(op, x, z).None? && Join(op, z, x).None?;
    assert !ExprEq(Sym(a), Sym(b)) && !ExprEq(Sym(b), Sym(a));
    assert !ExprEq(y, z) && !ExprEq(z, y);
    assert Join(op, y, z).None? && Join(op, z, y).None?;
    forall p, q | OperandAt(op, e, p) && OperandAt(op, e, q) && p != q
      ensures On(op, e, p) && On(op, e, q) && Join(op, At(op, e, p), At(op, e, q)).None?
    {
      hide Join;
      ClashPlaces(op, a, b, p);
      ClashPlaces(op, a, b, q);
    }
  }

  /** Such an expression is decided, under AND to n and under OR to y. */
  lemma {:induction false} ClashDecided(op: Op, a: Symbol, b: Symbol)
    requires a != b && !IsTriConst(a) && !IsTriConst(b)
    ensures Eliminated(Clash(op, a, b)) == Zero(op)
  {
    hide Eliminated, Dups1, Dups2, ExtractEqOp;
    var e, x, t := Clash(op, a, b), Bin(Dual(op), Sym(a), Sym(b)), Bin(op, Not(Sym(a)), Not(Sym(b)));
    PairIdle(Dual(op), a, b);
    ClashUnjoined(op, a, b);
    assert On(op, e, [true]) && On(op, e, [false]) && At(op, e, [true]) == x && At(op, e, [false]) == t by {
      assert [true][1..] == [] && [false][1..] == [];
    }
    assert Idle(op, x) && Idle(op, t.l) && Idle(op, t.r) && Idle(op, t);
    assert Idle(op, e);
    EmptyPlace(e);
    NothingJoined(op, e, [], []);
    OppositeIs(x);
    assert Opposite(x) == t;
    CleanSpine(op, t);
    assert Needs(op, t) != multiset{} by { CleanNeeds(op, t); }
    ContainedExact(op, t, t);
    ContradictionDecides(op, e, [true], [false]);
  }

  /** Every symbol that may be m is m. */
  const HALF := Env(
    (s: Symbol) => if s == YES then 2 else if s == NO || (s.Var? && s.typ == BooleanT) then 0 else 1,
    (s: Symbol) => if s.Const? then s.name else if s.typ == BooleanT then "n" else "m")

  lemma {:induction false} HalfTyped()
    ensures WellTyped(HALF)
  {
    Names();
  }

  /** With both symbols at m it is m before, and n or y after. */
  lemma {:induction false} SharpenedExample(op: Op)
    ensures var e := Clash(op, Var("A", TristateT), Var("B", TristateT));
      WellTyped(HALF) && Eval(HALF, e) == 1 && Eliminated(e) == Zero(op) && Eval(HALF, Zero(op)) != 1
  {
    hide Eliminated, WellTyped;
    HalfTyped();
    Names();
    assert "A"[0] != "B"[0];
    ClashDecided(op, Var("A", TristateT), Var("B", TristateT));
  }
}
