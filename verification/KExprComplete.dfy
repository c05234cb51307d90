/**
 The other half of equality and duplicate elimination: equal expressions are
 recognised, and no two operands are left that could be joined.
 */
module KExprCompleteness {
  import opened Options
  import opened KExprs
  import opened KExprEquality
  import opened KExprJoins
  import opened KExprPlaces
  import opened KExprDups

  /** Every operand of the `op` spine is y or n. */
  ghost predicate AllYn(op: Op, e: Expr) {
    if IsOp(op, e) then AllYn(op, e.l) && AllYn(op, e.r) else IsYn(e)
  }

  /** The spine with every operand other than y and n cancelled. */
  ghost function Cancelled(op: Op, e: Expr): Expr {
    if IsOp(op, e) then Bin(op, Cancelled(op, e.l), Cancelled(op, e.r)) else if IsYn(e) then e else Unit(op)
  }

  lemma {:induction false} CancelledYn(op: Op, e: Expr)
    ensures AllYn(op, Cancelled(op, e))
  {
    if IsOp(op, e) {
      CancelledYn(op, e.l);
      CancelledYn(op, e.r);
    }
  }

  /** The operands in front of a place are all y or n. */
  ghost predicate FrontYn(op: Op, e: Expr, p: Place)
    requires On(op, e, p)
    decreases |p|
  {
    p == [] || ((!p[0] ==> AllYn(op, e.l)) && FrontYn(op, Kid(e, p[0]), p[1..]))
  }

  lemma {:induction false} YnInert(op: Op, c: Expr, e: Expr)
    requires IsYn(c)
    ensures CancelEq(op, c, e) == (c, e)
    decreases Size(e)
  {
    if IsOp(op, e) {
      YnInert(op, c, e.l);
      YnInert(op, c, e.r);
    }
  }

  lemma {:induction false} AllYnInert(op: Op, x: Expr, e: Expr)
    requires !IsOp(op, x) && AllYn(op, e)
    ensures CancelEq(op, x, e) == (x, e)
    decreases Size(e)
  {
    if IsOp(op, e) {
      AllYnInert(op, x, e.l);
      AllYnInert(op, x, e.r);
    }
  }

  /** An operand is cancelled against its copy behind operands y and n. */
  lemma {:induction false} CancelOperand(op: Op, e: Expr, p: Place)
    requires On(op, e, p) && FrontYn(op, e, p) && !IsOp(op, At(op, e, p))
    ensures var x := At(op, e, p); CancelEq(op, x, e) == (Cancelled(op, x), Put(op, e, p, Cancelled(op, x)))
    decreases Size(At(op, e, p)), 2, |p|
  {
    var x := At(op, e, p);
    if p == [] {
      if !IsYn(x) { ExprEqReflexive(x); }
    } else if p[0] {
      CancelOperand(op, e.l, p[1..]);
      YnInert(op, Cancelled(op, x), e.r);
    } else {
      AllYnInert(op, x, e.l);
      CancelOperand(op, e.r, p[1..]);
    }
  }

  /** A stretch of the spine is cancelled against its copy in the whole. */
  lemma {:induction false} CancelStretch(op: Op, e: Expr, p: Place)
    requires On(op, e, p) && FrontYn(op, e, p)
    ensures var x := At(op, e, p); CancelEq(op, x, e) == (Cancelled(op, x), Put(op, e, p, Cancelled(op, x)))
    decreases Size(At(op, e, p)), if IsOp(op, At(op, e, p)) then 0 else 3, |p|
  {
    hide Put, At, FrontYn;
    var x := At(op, e, p);
    if !IsOp(op, x) {
      CancelOperand(op, e, p);
    } else {
      Below(op, e, p, true);
      Below(op, e, p, false);
      FrontBelow(op, e, p);
      CancelStretch(op, e, p + [true]);
      var f := Put(op, e, p + [true], Cancelled(op, x.l));
      FrontPut(op, e, p, Cancelled(op, x.l)) by { CancelledYn(op, x.l); }
      CancelStretch(op, f, p + [false]);
    }
  }

  lemma {:induction false} FrontBelow(op: Op, e: Expr, p: Place)
    requires On(op, e, p) && FrontYn(op, e, p) && IsOp(op, At(op, e, p))
    ensures On(op, e, p + [true]) && FrontYn(op, e, p + [true])
    decreases |p|
  {
    Below(op, e, p, true);
    if p != [] {
      FrontBelow(op, Kid(e, p[0]), p[1..]);
      assert (p + [true])[1..] == p[1..] + [true];
    } else {
      assert [true][1..] == [];
    }
  }

  lemma {:induction false} FrontPut(op: Op, e: Expr, p: Place, y: Expr)
    requires On(op, e, p) && FrontYn(op, e, p) && IsOp(op, At(op, e, p)) && AllYn(op, y) && On(op, e, p + [true])
    ensures var f := Put(op, e, p + [true], y);
      && On(op, f, p + [false]) && FrontYn(op, f, p + [false]) && At(op, f, p + [false]) == At(op, e, p).r
      && forall z :: Put(op, f, p + [false], z) == Put(op, e, p, Bin(op, y, z))
    decreases |p|
  {
    if p == [] {
      assert [true][1..] == [] && [false][1..] == [];
    } else {
      assert (p + [true])[1..] == p[1..] + [true] && (p + [false])[1..] == p[1..] + [false];
      FrontPut(op, Kid(e, p[0]), p[1..], y);
    }
  }

  lemma {:induction false} AllYnEliminated(op: Op, e: Expr)
    requires AllYn(op, e)
    ensures IsYn(EliminateYn(e))
  {
    if IsOp(op, e) {
      AllYnEliminated(op, e.l);
      AllYnEliminated(op, e.r);
    }
  }

  /** Every expression is recognised as equal to itself. */
  lemma {:induction false} ExprEqReflexive(e: Expr)
    ensures ExprEq(e, e)
    decreases Size(e), 1, 0
  {
    match e
    case Sym(_) =>
    case Cmp(_, _, _) =>
    case Not(x) => ExprEqReflexive(x);
    case Bin(op, _, _) =>
      assert On(op, e, []) && FrontYn(op, e, []) && At(op, e, []) == e;
      CancelStretch(op, e, []);
      var c := Cancelled(op, e);
      assert CancelEq(op, e, e) == (c, c);
      CancelledYn(op, e);
      AllYnEliminated(op, c);
      assert EliminateEq(e, e) == (EliminateYn(c), EliminateYn(c));
  }

  /** When the first pass counts nothing, no two different operands can be joined. */
  lemma {:induction false} NothingToJoin(op: Op, e: Expr, p1: Place, s1: Place, p2: Place, s2: Place)
    requires On(op, e, p1) && On(op, e, p2) && On(op, e, p1 + s1) && On(op, e, p2 + s2) && p1 + s1 != p2 + s2
    requires !IsOp(op, At(op, e, p1 + s1)) && !IsOp(op, At(op, e, p2 + s2))
    requires Dups1(op, e, p1, p2).count == 0
    ensures var x := At(op, e, p1 + s1);
      Join(op, x, At(op, e, p2 + s2)).None? && (x.Bin? ==> Dups1(x.op, x, [], []).count == 0)
    decreases |s1| + |s2|
  {
    hide Join, Meet1, Shrinkable;
    if IsOp(op, At(op, e, p1)) {
      Below(op, e, p1, true);
      Below(op, e, p1, false);
      Dups1Count(op, e, p1 + [true], p2);
      assert p1 + [] == p1;
      assert s1 != [];
      assert p1 + s1 == (p1 + [s1[0]]) + s1[1..];
      if s1[0] {
        NothingToJoin(op, e, p1 + [true], s1[1..], p2, s2);
      } else {
        NothingToJoin(op, e, p1 + [false], s1[1..], p2, s2);
      }
    } else if IsOp(op, At(op, e, p2)) {
      Below(op, e, p2, true);
      Below(op, e, p2, false);
      Dups1Count(op, e, p1, p2 + [true]);
      assert p2 + [] == p2;
      assert s2 != [];
      assert p2 + s2 == (p2 + [s2[0]]) + s2[1..];
      if s2[0] {
        NothingToJoin(op, e, p1, s1, p2 + [true], s2[1..]);
      } else {
        NothingToJoin(op, e, p1, s1, p2 + [false], s2[1..]);
      }
    } else {
      EndOfSpine(op, e, p1, s1);
      EndOfSpine(op, e, p2, s2);
      NoMeeting(op, e, p1, p2);
    }
  }

  lemma {:induction false} EndOfSpine(op: Op, e: Expr, p: Place, s: Place)
    requires On(op, e, p) && On(op, e, p + s) && !IsOp(op, At(op, e, p))
    ensures p + s == p
    decreases |p|
  {
    if p == [] {
      assert p + s == s;
    } else {
      assert (p + s)[1..] == p[1..] + s;
      EndOfSpine(op, Kid(e, p[0]), p[1..], s);
      assert p == [p[0]] + p[1..] && p + s == [p[0]] + (p[1..] + s);
    }
  }

  lemma {:induction false} NoMeeting(op: Op, e: Expr, p1: Place, p2: Place)
    requires On(op, e, p1) && On(op, e, p2) && !IsOp(op, At(op, e, p1)) && !IsOp(op, At(op, e, p2)) && p1 != p2
    requires Meet1(op, e, p1, p2).count == 0
    ensures var x := At(op, e, p1);
      Join(op, x, At(op, e, p2)).None? && (x.Bin? ==> Dups1(x.op, x, [], []).count == 0)
  {
    hide Join, Put, At, On;
    var e1 := At(op, e, p1);
    EmptyPlace(e1);
    if e1.Bin? { Dups1Count(e1.op, e1, [], []); }
  }

  /** After elimination no two operands of an AND or OR are equal or can be joined. */
  lemma {:induction false} EliminatedApart(e: Expr, p1: Place, p2: Place)
    requires var r := Eliminated(e);
      && r.Bin? && On(r.op, r, p1) && On(r.op, r, p2) && p1 != p2
      && !IsOp(r.op, At(r.op, r, p1)) && !IsOp(r.op, At(r.op, r, p2))
    ensures var r := Eliminated(e);
      && Join(r.op, At(r.op, r, p1), At(r.op, r, p2)).None?
      && !ExprEq(At(r.op, r, p1), At(r.op, r, p2)) && At(r.op, r, p1) != At(r.op, r, p2)
  {
    hide Eliminated, Dups1, Dups2, On, At, ExprEq;
    var r := Eliminated(e);
    EliminatedStable(e);
    EmptyPlace(r);
    assert [] + p1 == p1 && [] + p2 == p2;
    NothingToJoin(r.op, r, [], p1, [], p2);
    ExprEqReflexive(At(r.op, r, p1));
  }

  /** What two tests of one symbol against y, m or n are joined to; `z` is the third of the three. */
  lemma {:induction false} TestsJoined(s: Symbol, x: Symbol, y: Symbol, z: Symbol)
    requires IsTriConst(x) && IsTriConst(y) && IsTriConst(z) && x != y && y != z && x != z
    ensures TypeOf(s) == TristateT ==>
      && Join(OrOp, Cmp(true, s, x), Cmp(true, s, y)) == Some(Cmp(false, s, z))
      && Join(AndOp, Cmp(false, s, x), Cmp(false, s, y)) == Some(Cmp(true, s, z))
      && Join(AndOp, Cmp(true, s, x), Cmp(false, s, y)) == Some(Cmp(true, s, x))
      && Join(AndOp, Cmp(false, s, x), Cmp(true, s, y)) == Some(Cmp(true, s, y))
      && Join(AndOp, Cmp(true, s, x), Cmp(false, s, x)) == Some(Sym(NO))
      && Join(AndOp, Cmp(false, s, x), Cmp(true, s, x)) == Some(Sym(NO))
    ensures TypeOf(s) == BooleanT ==>
      Join(OrOp, Sym(s), Not(Sym(s))) == Some(Sym(YES)) && Join(OrOp, Not(Sym(s)), Sym(s)) == Some(Sym(YES))
    ensures TypeOf(s) == TristateT || TypeOf(s) == BooleanT ==>
      && Join(AndOp, Sym(s), Cmp(true, s, YES)) == Some(Cmp(true, s, YES))
      && Join(AndOp, Cmp(true, s, YES), Sym(s)) == Some(Cmp(true, s, YES))
      && Join(AndOp, Sym(s), Cmp(false, s, NO)) == Some(Sym(s))
      && Join(AndOp, Cmp(false, s, NO), Sym(s)) == Some(Sym(s))
      && Join(AndOp, Sym(s), Cmp(false, s, MOD)) == Some(Cmp(true, s, YES))
      && Join(AndOp, Cmp(false, s, MOD), Sym(s)) == Some(Cmp(true, s, YES))
  {
    assert "y"[0] != "m"[0] && "y"[0] != "n"[0] && "m"[0] != "n"[0];
  }

  /** Which operands are joined besides equal ones: those about one boolean or tristate symbol, in these forms. */
  lemma {:induction false} JoinedOnly(op: Op, e1: Expr, e2: Expr)
    requires Join(op, e1, e2).Some? && !ExprEq(e1, e2)
    ensures exists s ::
      && (TypeOf(s) == BooleanT || TypeOf(s) == TristateT)
      && if e1.Cmp? && e2.Cmp? then
           TypeOf(s) == TristateT && e1.a == e2.a == s && (if op == OrOp then e1.eq && e2.eq else !e1.eq || !e2.eq)
         else if op == OrOp then
           TypeOf(s) == BooleanT && ((e1 == Sym(s) && e2 == Not(Sym(s))) || (e2 == Sym(s) && e1 == Not(Sym(s))))
         else (e1 == Sym(s) && e2.Cmp? && e2.a == s) || (e2 == Sym(s) && e1.Cmp? && e1.a == s)
  {
    hide ExprEq;
    assert FirstSym(e1).Some?;
  }
}
