/**
 What the comparison of expressions recognises: two expressions without stray
 constants are equal for it exactly if they are the same up to order and
 nesting of the operands of AND and OR, at every depth (kconfig/expr.c).
 */
module KExprForms {
  import opened Options
  import opened KExprs
  import opened KExprEquality

  /** An expression without order and nesting: an AND or OR is the bag of its operands, or decided by a constant. */
  datatype Form = Atom(e: Expr) | Neg(f: Form) | Group(op: Op, parts: multiset<Form>) | Decided(op: Op)

  /** An operand y under OR or n under AND. */
  ghost predicate HasZero(op: Op, e: Expr) {
    if IsOp(op, e) then HasZero(op, e.l) || HasZero(op, e.r) else e == Zero(op)
  }

  /** The operands of the `op` spine other than y and n. */
  ghost function Parts(op: Op, e: Expr): multiset<Form>
    decreases Size(e), if IsOp(op, e) then 0 else 2
  {
    if IsOp(op, e) then Parts(op, e.l) + Parts(op, e.r)
    else if IsYn(e) then multiset{}
    else multiset{FormOf(e)}
  }

  ghost function FormOf(e: Expr): Form
    decreases Size(e), 1
  {
    match e
    case Sym(_) => Atom(e)
    case Cmp(_, _, _) => Atom(e)
    case Not(x) => Neg(FormOf(x))
    case Bin(op, _, _) => if HasZero(op, e) then Decided(op) else Group(op, Parts(op, e))
  }

  /** No AND or OR anywhere has an operand y or n. */
  ghost predicate Clean(e: Expr) {
    match e
    case Sym(_) => true
    case Cmp(_, _, _) => true
    case Not(x) => Clean(x)
    case Bin(_, l, r) => !IsYn(l) && !IsYn(r) && Clean(l) && Clean(r)
  }

  /** Constants y and n are at most among the operands of the outermost AND or OR. */
  ghost predicate Tame(e: Expr) {
    match e
    case Sym(_) => true
    case Cmp(_, _, _) => true
    case Not(x) => Tame(x)
    case Bin(op, _, _) => TameSpine(op, e)
  }

  ghost predicate TameSpine(op: Op, e: Expr) {
    if IsOp(op, e) then TameSpine(op, e.l) && TameSpine(op, e.r) else IsYn(e) || Clean(e)
  }

  lemma {:induction false} CleanSpine(op: Op, e: Expr)
    requires Clean(e)
    ensures TameSpine(op, e)
  {
    if IsOp(op, e) {
      CleanSpine(op, e.l);
      CleanSpine(op, e.r);
    }
  }

  lemma {:induction false} CleanTame(e: Expr)
    requires Clean(e)
    ensures Tame(e)
  {
    match e
    case Sym(_) =>
    case Cmp(_, _, _) =>
    case Not(x) => CleanTame(x);
    case Bin(op, _, _) => CleanSpine(op, e);
  }

  lemma {:induction false} CleanKept(e: Expr)
    requires Clean(e)
    ensures EliminateYn(e) == e
  {
    if e.Bin? {
      CleanKept(e.l);
      CleanKept(e.r);
    }
  }

  /** Bags of operands met one after the other. */
  lemma {:induction false} BagLaws(a: multiset<Form>, b: multiset<Form>, q: multiset<Form>)
    ensures (a - q) + (b - (q - a)) == (a + b) - q && (q - a) - b == q - (a + b)
  {
  }

  /** Cancelling takes away exactly the operands both spines have, as often as both have them. */
  lemma {:induction false} CancelParts(op: Op, e1: Expr, e2: Expr)
    requires TameSpine(op, e1) && TameSpine(op, e2)
    ensures var r := CancelEq(op, e1, e2);
      && TameSpine(op, r.0) && TameSpine(op, r.1)
      && Parts(op, r.0) == Parts(op, e1) - Parts(op, e2) && Parts(op, r.1) == Parts(op, e2) - Parts(op, e1)
      && HasZero(op, r.0) == HasZero(op, e1) && HasZero(op, r.1) == HasZero(op, e2)
    decreases Size(e1) + Size(e2), if IsOp(op, e1) || IsOp(op, e2) then 0 else 4
  {
    hide FormOf, Clean, ExprEq;
    if IsOp(op, e1) {
      var a := CancelEq(op, e1.l, e2);
      CancelParts(op, e1.l, e2);
      CancelParts(op, e1.r, a.1);
      BagLaws(Parts(op, e1.l), Parts(op, e1.r), Parts(op, e2));
    } else if IsOp(op, e2) {
      var a := CancelEq(op, e1, e2.l);
      CancelParts(op, e1, e2.l);
      CancelParts(op, a.0, e2.r);
      BagLaws(Parts(op, e2.l), Parts(op, e2.r), Parts(op, e1));
    } else {
      CancelLeaves(op, e1, e2);
    }
  }

  lemma {:induction false} CancelLeaves(op: Op, e1: Expr, e2: Expr)
    requires TameSpine(op, e1) && TameSpine(op, e2) && !IsOp(op, e1) && !IsOp(op, e2)
    ensures var r := CancelEq(op, e1, e2);
      && TameSpine(op, r.0) && TameSpine(op, r.1)
      && Parts(op, r.0) == Parts(op, e1) - Parts(op, e2) && Parts(op, r.1) == Parts(op, e2) - Parts(op, e1)
      && HasZero(op, r.0) == HasZero(op, e1) && HasZero(op, r.1) == HasZero(op, e2)
    decreases Size(e1) + Size(e2), 3
  {
    hide FormOf, Clean, CancelEq, ExprEq, Parts, HasZero, TameSpine, Unit, Zero;
    CancelOnce(op, e1, e2);
    OperandParts(op, e1);
    OperandParts(op, e2);
    if !IsYn(e1) && !IsYn(e2) {
      CleanTame(e1);
      CleanTame(e2);
      ExprEqExact(e1, e2);
      UnitParts(op);
      BagOfOne(FormOf(e1), FormOf(e2));
      BagOfOne(FormOf(e2), FormOf(e1));
    }
  }

  lemma {:induction false} OperandParts(op: Op, e: Expr)
    requires !IsOp(op, e)
    ensures Parts(op, e) == (if IsYn(e) then multiset{} else multiset{FormOf(e)})
    ensures (HasZero(op, e) <==> e == Zero(op)) && (TameSpine(op, e) <==> IsYn(e) || Clean(e))
    ensures IsYn(Zero(op)) && IsYn(Unit(op))
  {
  }

  lemma {:induction false} UnitParts(op: Op)
    ensures Parts(op, Unit(op)) == multiset{} && !HasZero(op, Unit(op)) && TameSpine(op, Unit(op))
  {
    assert "y"[0] != "n"[0];
  }

  lemma {:induction false} BagOfOne(f: Form, g: Form)
    ensures multiset{f} - multiset{g} == if f == g then multiset{} else multiset{f}
  {
  }

  /** Two operands meet. */
  lemma {:induction false} CancelOnce(op: Op, e1: Expr, e2: Expr)
    requires !IsOp(op, e1) && !IsOp(op, e2)
    ensures CancelEq(op, e1, e2) ==
      if !IsYn(e1) && !IsYn(e2) && ExprEq(e1, e2) then (Unit(op), Unit(op)) else (e1, e2)
  {
    if IsYn(e1) || IsYn(e2) { YnAlone(e1, e2); }
  }

  lemma {:induction false} YnAlone(e1: Expr, e2: Expr)
    requires IsYn(e1) || IsYn(e2)
    ensures ExprEq(e1, e2) <==> e1 == e2
  {
  }

  /** What constant elimination makes of a spine. */
  lemma {:induction false} SpineEliminated(op: Op, e: Expr)
    requires TameSpine(op, e)
    ensures var r := EliminateYn(e);
      && (r == Zero(op) <==> HasZero(op, e))
      && (r == Unit(op) <==> !HasZero(op, e) && Parts(op, e) == multiset{})
      && (r.Sym? && !IsYn(r) ==> Parts(op, e) == multiset{Atom(r)})
  {
    if IsOp(op, e) {
      SpineEliminated(op, e.l);
      SpineEliminated(op, e.r);
    } else if !IsYn(e) {
      CleanKept(e);
    }
  }

  /** The comparison decides sameness of forms. */
  lemma {:induction false} ExprEqExact(e1: Expr, e2: Expr)
    requires Tame(e1) && Tame(e2)
    ensures ExprEq(e1, e2) <==> FormOf(e1) == FormOf(e2)
    decreases Size(e1) + Size(e2), 2
  {
    match e1
    case Sym(_) =>
    case Cmp(_, _, _) =>
    case Not(x) => if e2.Not? { ExprEqExact(x, e2.e); }
    case Bin(op, _, _) => if IsOp(op, e2) { SpinesExact(op, e1, e2); }
  }

  lemma {:induction false} SpinesExact(op: Op, e1: Expr, e2: Expr)
    requires IsOp(op, e1) && IsOp(op, e2) && TameSpine(op, e1) && TameSpine(op, e2)
    ensures ExprEq(e1, e2) <==> FormOf(e1) == FormOf(e2)
    decreases Size(e1) + Size(e2), 1
  {
    hide EliminateYn, Parts, HasZero;
    var p, q, r := Parts(op, e1), Parts(op, e2), CancelEq(op, e1, e2);
    CancelParts(op, e1, e2);
    SpineEliminated(op, r.0);
    SpineEliminated(op, r.1);
    assert EliminateEq(e1, e2) == (EliminateYn(r.0), EliminateYn(r.1));
    BagsEqual(p, q);
  }

  lemma {:induction false} BagsEqual(p: multiset<Form>, q: multiset<Form>)
    ensures p == q <==> p - q == multiset{} && q - p == multiset{}
    ensures forall f :: p - q == multiset{f} ==> q - p != multiset{f}
  {
    if p - q == multiset{} && q - p == multiset{} {
      assert forall f :: p[f] == (p - q)[f] + (if p[f] < q[f] then p[f] else q[f]);
    }
    forall f | p - q == multiset{f} ensures q - p != multiset{f} { assert (p - q)[f] == 1; }
  }

  /** Cancelling a single operand against an AND or OR: it goes exactly if it is among the operands there. */
  lemma {:induction false} OperandCancelled(op: Op, x: Expr, e: Expr)
    requires IsOp(op, e) && TameSpine(op, e) && !x.Bin? && !IsYn(x) && Clean(x)
    ensures EliminateEq(x, e).0 == if FormOf(x) in Parts(op, e) then Unit(op) else x
    ensures EliminateEq(e, x).1 == if FormOf(x) in Parts(op, e) then Unit(op) else x
  {
    hide FormOf, Clean, EliminateYn, CancelEq;
    OperandParts(op, x);
    CancelParts(op, x, e);
    CancelParts(op, e, x);
    CancelShape(op, x, e);
    CancelShape(op, e, x);
    CancelledOperand(op, x, CancelEq(op, x, e).0, Parts(op, e));
    CancelledOperand(op, x, CancelEq(op, e, x).1, Parts(op, e));
  }

  /** An operand stays an operand: itself or the neutral constant. */
  lemma {:induction false} CancelShape(op: Op, e1: Expr, e2: Expr)
    ensures var r := CancelEq(op, e1, e2);
      && (!IsOp(op, e1) ==> r.0 == e1 || r.0 == Unit(op)) && (!IsOp(op, e2) ==> r.1 == e2 || r.1 == Unit(op))
      && (IsOp(op, e1) ==> IsOp(op, r.0)) && (IsOp(op, e2) ==> IsOp(op, r.1))
    decreases Size(e1) + Size(e2)
  {
    hide ExprEq;
    if IsOp(op, e1) {
      var a := CancelEq(op, e1.l, e2);
      CancelShape(op, e1.l, e2);
      CancelShape(op, e1.r, a.1);
    } else if IsOp(op, e2) {
      var a := CancelEq(op, e1, e2.l);
      CancelShape(op, e1, e2.l);
      CancelShape(op, a.0, e2.r);
    }
  }

  lemma {:induction false} CancelledOperand(op: Op, x: Expr, y: Expr, p: multiset<Form>)
    requires !IsOp(op, x) && !x.Bin? && !IsYn(x) && (y == x || y == Unit(op))
    requires Parts(op, y) == multiset{FormOf(x)} - p
    ensures EliminateYn(y) == y == if FormOf(x) in p then Unit(op) else x
  {
    hide FormOf;
    assert FormOf(x) in p <==> FormOf(x) !in multiset{FormOf(x)} - p;
    UnitParts(op);
    assert Parts(op, x) == multiset{FormOf(x)};
  }

  /** So the comparison is symmetric and transitive there. */
  lemma {:induction false} ExprEqEquivalence(e1: Expr, e2: Expr, e3: Expr)
    requires Tame(e1) && Tame(e2) && Tame(e3) && ExprEq(e1, e2)
    ensures ExprEq(e2, e1) && (ExprEq(e2, e3) ==> ExprEq(e1, e3))
  {
    hide ExprEq, FormOf, Tame;
    ExprEqExact(e1, e2);
    ExprEqExact(e2, e1);
    ExprEqExact(e2, e3);
    ExprEqExact(e1, e3);
  }

  /** The operands of the `op` spine from left to right. */
  ghost function Operands(op: Op, e: Expr): seq<Expr> {
    if IsOp(op, e) then Operands(op, e.l) + Operands(op, e.r) else [e]
  }

  ghost function PartsOf(q: seq<Expr>): multiset<Form> {
    if q == [] then multiset{} else PartOf(q[0]) + PartsOf(q[1..])
  }

  lemma {:induction false} PartsAppend(a: seq<Expr>, b: seq<Expr>)
    ensures PartsOf(a + b) == PartsOf(a) + PartsOf(b)
  {
    hide FormOf;
    if a == [] {
      assert a + b == b;
    } else {
      assert (a + b)[1..] == a[1..] + b;
      PartsAppend(a[1..], b);
    }
  }

  lemma {:induction false} PartsAre(op: Op, e: Expr)
    ensures Parts(op, e) == PartsOf(Operands(op, e)) && (HasZero(op, e) <==> Zero(op) in Operands(op, e))
  {
    hide FormOf;
    if IsOp(op, e) {
      PartsAre(op, e.l);
      PartsAre(op, e.r);
      PartsAppend(Operands(op, e.l), Operands(op, e.r));
    } else {
      assert [e][1..] == [] && [e][0] == e;
    }
  }

  ghost function PartOf(e: Expr): multiset<Form> { if IsYn(e) then multiset{} else multiset{FormOf(e)} }

  lemma {:induction false} PartsWithout(b: seq<Expr>, k: int)
    requires 0 <= k < |b|
    ensures PartsOf(b) == PartOf(b[k]) + PartsOf(b[..k] + b[k + 1..])
  {
    hide PartOf;
    assert b == b[..k] + ([b[k]] + b[k + 1..]);
    PartsAppend(b[..k], [b[k]] + b[k + 1..]);
    PartsFirst([b[k]] + b[k + 1..]);
    PartsAppend(b[..k], b[k + 1..]);
  }

  lemma {:induction false} PartsFirst(q: seq<Expr>)
    requires q != []
    ensures PartsOf(q) == PartOf(q[0]) + PartsOf(q[1..])
  {
  }

  lemma {:induction false} BagWithout<T>(a: seq<T>, b: seq<T>, k: int)
    requires a != [] && 0 <= k < |b| && b[k] == a[0] && multiset(a) == multiset(b)
    ensures multiset(a[1..]) == multiset(b[..k] + b[k + 1..])
  {
    assert a == [a[0]] + a[1..];
    assert b == b[..k] + ([b[k]] + b[k + 1..]);
    assert multiset(b) == multiset{b[k]} + multiset(b[..k] + b[k + 1..]);
    assert multiset(a[1..]) == multiset(a) - multiset{a[0]};
  }

  /** Order does not matter for the bag. */
  lemma {:induction false} PartsPermuted(a: seq<Expr>, b: seq<Expr>)
    requires multiset(a) == multiset(b)
    ensures PartsOf(a) == PartsOf(b)
  {
    hide PartOf;
    if a == [] {
      assert |b| == |multiset(b)| == 0;
    } else {
      assert a[0] in multiset(b);
      var k :| 0 <= k < |b| && b[k] == a[0];
      BagWithout(a, b, k);
      PartsPermuted(a[1..], b[..k] + b[k + 1..]);
      PartsWithout(b, k);
      PartsFirst(a);
    }
  }

  /** Two ANDs or two ORs with the same operands, in any order and nesting, are recognised as equal. */
  lemma {:induction false} Reordered(op: Op, e1: Expr, e2: Expr)
    requires IsOp(op, e1) && IsOp(op, e2) && TameSpine(op, e1) && TameSpine(op, e2)
    requires multiset(Operands(op, e1)) == multiset(Operands(op, e2))
    ensures ExprEq(e1, e2)
  {
    hide ExprEq, Parts, Operands, HasZero;
    SpinesExact(op, e1, e2);
    PartsAre(op, e1);
    PartsAre(op, e2);
    PartsPermuted(Operands(op, e1), Operands(op, e2));
    assert Zero(op) in Operands(op, e1) <==> Zero(op) in multiset(Operands(op, e1));
    assert Zero(op) in Operands(op, e2) <==> Zero(op) in multiset(Operands(op, e2));
  }

  /** For instance two operands the other way round. */
  lemma {:induction false} Swapped(op: Op, a: Expr, b: Expr)
    requires TameSpine(op, a) && TameSpine(op, b)
    ensures ExprEq(Bin(op, a, b), Bin(op, b, a))
  {
    hide ExprEq, TameSpine, Operands;
    SpineOf(op, a, b);
    SpineOf(op, b, a);
    assert multiset(Operands(op, a) + Operands(op, b)) == multiset(Operands(op, b) + Operands(op, a));
    Reordered(op, Bin(op, a, b), Bin(op, b, a));
  }

  lemma {:induction false} SpineOf(op: Op, a: Expr, b: Expr)
    requires TameSpine(op, a) && TameSpine(op, b)
    ensures TameSpine(op, Bin(op, a, b)) && Operands(op, Bin(op, a, b)) == Operands(op, a) + Operands(op, b)
  {
  }

  /** Or three of them bracketed otherwise. */
  lemma {:induction false} Regrouped(op: Op, a: Expr, b: Expr, c: Expr)
    requires TameSpine(op, a) && TameSpine(op, b) && TameSpine(op, c)
    ensures ExprEq(Bin(op, Bin(op, a, b), c), Bin(op, a, Bin(op, b, c)))
  {
    hide ExprEq, TameSpine, Operands;
    SpineOf(op, a, b);
    SpineOf(op, b, c);
    SpineOf(op, Bin(op, a, b), c);
    SpineOf(op, a, Bin(op, b, c));
    var x, y, z := Operands(op, a), Operands(op, b), Operands(op, c);
    assert (x + y) + z == x + (y + z);
    Reordered(op, Bin(op, Bin(op, a, b), c), Bin(op, a, Bin(op, b, c)));
  }

  /** The operands of the `op` spine other than the neutral constant. */
  ghost function Needs(op: Op, e: Expr): multiset<Form> {
    if IsOp(op, e) then Needs(op, e.l) + Needs(op, e.r)
    else if e == Unit(op) then multiset{}
    else multiset{FormOf(e)}
  }

  /** Taking out what two spines have in common leaves the rest of each. */
  lemma {:induction false} ExtractParts(op: Op, common: Option<Expr>, e1: Expr, e2: Expr)
    requires TameSpine(op, e1) && TameSpine(op, e2)
    ensures var x := ExtractEq(op, common, e1, e2);
      && TameSpine(op, x.e1) && TameSpine(op, x.e2)
      && Needs(op, x.e1) == Needs(op, e1) - Needs(op, e2) && Needs(op, x.e2) == Needs(op, e2) - Needs(op, e1)
      && (x.common.None? ==> common.None? && x.e1 == e1 && x.e2 == e2)
    decreases Size(e1) + Size(e2)
  {
    hide FormOf, Clean, ExprEq;
    if IsOp(op, e1) {
      var a := ExtractEq(op, common, e1.l, e2);
      ExtractParts(op, common, e1.l, e2);
      ExtractParts(op, a.common, e1.r, a.e2);
      BagLaws(Needs(op, e1.l), Needs(op, e1.r), Needs(op, e2));
    } else if IsOp(op, e2) {
      var a := ExtractEq(op, common, e1, e2.l);
      ExtractParts(op, common, e1, e2.l);
      ExtractParts(op, a.common, a.e1, e2.r);
      BagLaws(Needs(op, e2.l), Needs(op, e2.r), Needs(op, e1));
    } else {
      ExtractLeaves(op, common, e1, e2);
    }
  }

  lemma {:induction false} ExtractLeaves(op: Op, common: Option<Expr>, e1: Expr, e2: Expr)
    requires TameSpine(op, e1) && TameSpine(op, e2) && !IsOp(op, e1) && !IsOp(op, e2)
    ensures var x := ExtractEq(op, common, e1, e2);
      && TameSpine(op, x.e1) && TameSpine(op, x.e2)
      && Needs(op, x.e1) == Needs(op, e1) - Needs(op, e2) && Needs(op, x.e2) == Needs(op, e2) - Needs(op, e1)
      && (x.common.None? ==> common.None? && x.e1 == e1 && x.e2 == e2)
  {
    hide FormOf, ExprEq, Needs, TameSpine, Unit, ExtractEq, Tame;
    ExtractOnce(op, common, e1, e2);
    OperandTame(op, e1);
    OperandTame(op, e2);
    ExprEqExact(e1, e2);
    UnitNeeds(op);
    NeedsApart(op, e1, e2);
  }

  lemma {:induction false} ExtractOnce(op: Op, common: Option<Expr>, e1: Expr, e2: Expr)
    requires !IsOp(op, e1) && !IsOp(op, e2)
    ensures var x := ExtractEq(op, common, e1, e2);
      if ExprEq(e1, e2) then x.common.Some? && x.e1 == x.e2 == Unit(op) else x == Extracted(common, e1, e2)
  {
    hide ExprEq;
  }

  lemma {:induction false} NeedsApart(op: Op, e1: Expr, e2: Expr)
    requires !IsOp(op, e1) && !IsOp(op, e2)
    ensures FormOf(e1) == FormOf(e2) ==>
      Needs(op, e1) - Needs(op, e2) == multiset{} && Needs(op, e2) - Needs(op, e1) == multiset{}
    ensures FormOf(e1) != FormOf(e2) ==>
      Needs(op, e1) - Needs(op, e2) == Needs(op, e1) && Needs(op, e2) - Needs(op, e1) == Needs(op, e2)
  {
    hide FormOf, Needs, Unit;
    LeafNeeds(op, e1);
    LeafNeeds(op, e2);
    if FormOf(e1) == FormOf(e2) {
      BagSelf(Needs(op, e1));
    } else {
      BagsApart(Needs(op, e1), Needs(op, e2), FormOf(e1), FormOf(e2));
    }
  }

  lemma {:induction false} BagSelf(p: multiset<Form>)
    ensures p - p == multiset{}
  {
  }

  lemma {:induction false} BagsApart(p: multiset<Form>, q: multiset<Form>, f: Form, g: Form)
    requires f != g && (p == multiset{} || p == multiset{f}) && (q == multiset{} || q == multiset{g})
    ensures p - q == p && q - p == q
  {
  }

  lemma {:induction false} LeafNeeds(op: Op, e: Expr)
    requires !IsOp(op, e)
    ensures Needs(op, e) == if e == Unit(op) then multiset{} else multiset{FormOf(e)}
    ensures FormOf(e) == FormOf(Unit(op)) <==> e == Unit(op)
  {
  }

  lemma {:induction false} OperandTame(op: Op, e: Expr)
    requires !IsOp(op, e) && TameSpine(op, e)
    ensures Tame(e)
  {
    if Clean(e) { CleanTame(e); }
  }

  lemma {:induction false} UnitNeeds(op: Op)
    ensures Needs(op, Unit(op)) == multiset{} && TameSpine(op, Unit(op)) && !IsOp(op, Unit(op))
  {
  }

  lemma {:induction false} NeedsNothing(op: Op, e: Expr)
    ensures Needs(op, e) == multiset{} <==> !HasZero(op, e) && Parts(op, e) == multiset{}
  {
    hide FormOf;
    if IsOp(op, e) {
      NeedsNothing(op, e.l);
      NeedsNothing(op, e.r);
    } else {
      assert "y"[0] != "n"[0];
    }
  }

  /** Nothing is left of a spine exactly if the other one contains all its operands. */
  lemma {:induction false} ContainedExact(op: Op, t: Expr, b: Expr)
    requires TameSpine(op, t) && TameSpine(op, b) && Needs(op, t) != multiset{}
    ensures ExtractEqOp(op, t, b).e1 == Unit(op) <==> Needs(op, t) <= Needs(op, b)
  {
    hide Needs, TameSpine, ExtractEq, EliminateYn, Parts, HasZero;
    var x := ExtractEq(op, None, t, b);
    ExtractParts(op, None, t, b);
    SpineEliminated(op, x.e1);
    NeedsNothing(op, x.e1);
    UnitNeeds(op);
    BagContained(Needs(op, t), Needs(op, b));
  }

  lemma {:induction false} BagContained(p: multiset<Form>, q: multiset<Form>)
    ensures p - q == multiset{} <==> p <= q
  {
    if p - q == multiset{} {
      forall f | f in p ensures p[f] <= q[f] { assert (p - q)[f] == 0; }
    }
  }
}
