/**
 The second pass of duplicate elimination, seen from its result: no operand is
 left whose negation the rest contains, and where one was, the whole is decided
 (kconfig/expr.c).
 */
module KExprDecisions {
  import opened KExprs
  import opened KExprEquality
  import opened KExprJoins
  import opened KExprPlaces
  import opened KExprDups
  import opened KExprCompleteness
  import opened KExprForms

  /** When the second pass counts nothing, no operand is decided by a stretch of the spine. */
  lemma {:induction false} NothingToDecide(op: Op, e: Expr, p1: Place, s1: Place, p2: Place, s2: Place)
    requires On(op, e, p1) && On(op, e, p2) && On(op, e, p1 + s1) && On(op, e, p2 + s2) && p1 + s1 != p2 + s2
    requires !IsOp(op, At(op, e, p1 + s1)) && At(op, e, p1 + s1).Bin? && Dups2(op, e, p1, p2).count == 0
    ensures var x := At(op, e, p1 + s1);
      ExtractEqOp(op, Transform(Not(x)), At(op, e, p2 + s2)).e1 != Unit(op) && Dups2(x.op, x, [], []).count == 0
    decreases |s1| + |s2|
  {
    hide ExtractEqOp, Transform, Meet2, Shrinkable;
    if IsOp(op, At(op, e, p1)) {
      Below(op, e, p1, true);
      Below(op, e, p1, false);
      Dups2Count(op, e, p1 + [true], p2);
      assert p1 + [] == p1;
      assert s1 != [];
      assert p1 + s1 == (p1 + [s1[0]]) + s1[1..];
      if s1[0] {
        NothingToDecide(op, e, p1 + [true], s1[1..], p2, s2);
      } else {
        NothingToDecide(op, e, p1 + [false], s1[1..], p2, s2);
      }
    } else if IsOp(op, At(op, e, p2)) {
      Below(op, e, p2, true);
      Below(op, e, p2, false);
      Dups2Count(op, e, p1, p2 + [true]);
      Dups2Count(op, e, p1, p2 + [false]);
      EndOfSpine(op, e, p1, s1);
      LeafPlace(op, e, p1, p2 + s2);
      if s2 == [] {
        assert p2 + s2 == p2;
        NotDecided(op, e, p1, p2);
      } else {
        assert p2 + s2 == (p2 + [s2[0]]) + s2[1..];
        if s2[0] {
          NothingToDecide(op, e, p1, s1, p2 + [true], s2[1..]);
        } else {
          NothingToDecide(op, e, p1, s1, p2 + [false], s2[1..]);
        }
      }
    } else {
      EndOfSpine(op, e, p1, s1);
      EndOfSpine(op, e, p2, s2);
      LeafPlace(op, e, p1, p2);
      NotDecided(op, e, p1, p2);
    }
  }

  lemma {:induction false} NotDecided(op: Op, e: Expr, p1: Place, p2: Place)
    requires On(op, e, p1) && On(op, e, p2) && !IsOp(op, At(op, e, p1)) && p1 != [] && At(op, e, p1).Bin?
    requires Meet2(op, e, p1, p2).count == 0
    ensures var x := At(op, e, p1);
      ExtractEqOp(op, Transform(Not(x)), At(op, e, p2)).e1 != Unit(op) && Dups2(x.op, x, [], []).count == 0
  {
    hide ExtractEqOp, Transform, Put, At, On, Shrinkable;
    var e1 := At(op, e, p1);
    EmptyPlace(e1);
    AtSize(op, e, p1);
    Dups2Count(e1.op, e1, [], []);
    PutBack(op, e, p1);
  }

  /** Of every expression: after elimination no operand is decided by another one or by a stretch of the spine. */
  lemma {:induction false} EliminatedUndecided(e: Expr, p1: Place, p2: Place)
    requires var r := Eliminated(e);
      && r.Bin? && On(r.op, r, p1) && On(r.op, r, p2) && p1 != p2
      && At(r.op, r, p1).Bin? && !IsOp(r.op, At(r.op, r, p1))
    ensures var r := Eliminated(e);
      ExtractEqOp(r.op, Transform(Not(At(r.op, r, p1))), At(r.op, r, p2)).e1 != Unit(r.op)
  {
    hide Eliminated, Dups1, Dups2, On, At, ExtractEqOp, Transform, Shrinkable;
    var r := Eliminated(e);
    EliminatedStable(e);
    EmptyPlace(r);
    Dups1Count(r.op, r, [], []);
    assert [] + p1 == p1 && [] + p2 == p2;
    NothingToDecide(r.op, r, [], p1, [], p2);
  }

  /** The negation of an expression in normal form, pushed down to its operands. */
  function Opposite(e: Expr): Expr {
    match e
    case Sym(s) => if s == YES then Sym(NO) else if s == NO then Sym(YES) else if s == MOD then e else Not(e)
    case Cmp(eq, a, b) => Cmp(!eq, a, b)
    case Not(x) => x
    case Bin(op, l, r) => Bin(Dual(op), Opposite(l), Opposite(r))
  }

  lemma {:induction false} OppositeIs(e: Expr)
    requires Normal(e)
    ensures Transform(Not(e)) == Opposite(e)
  {
    NormalKept(e);
    if e.Bin? {
      OppositeIs(e.l);
      OppositeIs(e.r);
      assert Transform(Bin(Dual(e.op), Not(e.l), Not(e.r))) == Opposite(e);
    }
  }

  lemma {:induction false} OppositeClean(e: Expr)
    requires Normal(e) && Clean(e)
    ensures Clean(Opposite(e)) && (IsYn(Opposite(e)) <==> IsYn(e))
  {
    assert "y"[0] != "n"[0] && "y"[0] != "m"[0] && "n"[0] != "m"[0];
    if e.Bin? {
      OppositeClean(e.l);
      OppositeClean(e.r);
    }
  }

  lemma {:induction false} CleanNeeds(op: Op, e: Expr)
    requires Clean(e) && !IsYn(e)
    ensures Needs(op, e) == Parts(op, e) != multiset{}
  {
    hide FormOf;
    if IsOp(op, e) {
      CleanNeeds(op, e.l);
      CleanNeeds(op, e.r);
    }
  }

  lemma {:induction false} CleanAt(op: Op, e: Expr, p: Place)
    requires On(op, e, p) && Clean(e) && Normal(e) && !IsYn(e)
    ensures Clean(At(op, e, p)) && Normal(At(op, e, p)) && !IsYn(At(op, e, p))
    decreases |p|
  {
    if p != [] { CleanAt(op, Kid(e, p[0]), p[1..]); }
  }

  /**
   After elimination of an expression in normal form without constant operands: there is no operand
   of the other operator all of whose operands' negations are operands of one place of the spine.
   */
  lemma {:induction false} EliminatedConsistent(e: Expr, p1: Place, p2: Place)
    requires Normal(e) && !Shrinkable(e)
    requires var r := Eliminated(e);
      && r.Bin? && On(r.op, r, p1) && On(r.op, r, p2) && p1 != p2
      && At(r.op, r, p1).Bin? && !IsOp(r.op, At(r.op, r, p1))
    ensures var r := Eliminated(e);
      !(Parts(r.op, Opposite(At(r.op, r, p1))) <= Parts(r.op, At(r.op, r, p2)))
  {
    hide Eliminated, On, At, ExtractEqOp, Transform, Shrinkable, Parts, Needs, Normal, Clean, Opposite, TameSpine, IsYn;
    var r := Eliminated(e);
    EliminatedClean(e);
    BinNotYn(r);
    CleanAt(r.op, r, p1);
    CleanAt(r.op, r, p2);
    var x, b := At(r.op, r, p1), At(r.op, r, p2);
    var t := Opposite(x);
    OppositeIs(x);
    OppositeClean(x);
    CleanNeeds(r.op, t);
    CleanNeeds(r.op, b);
    CleanSpine(r.op, t);
    CleanSpine(r.op, b);
    EliminatedUndecided(e, p1, p2);
    ContainedExact(r.op, t, b);
  }

  lemma {:induction false} BinNotYn(e: Expr)
    requires e.Bin?
    ensures !IsYn(e)
  {
  }

  lemma {:induction false} UnshrinkableClean(e: Expr)
    requires Normal(e) && !Shrinkable(e)
    ensures Clean(e)
  {
    if e.Bin? {
      UnshrinkableClean(e.l);
      UnshrinkableClean(e.r);
    }
  }

  lemma {:induction false} EliminateYnNormal(e: Expr)
    requires Normal(e)
    ensures Normal(EliminateYn(e))
  {
    if e.Bin? {
      EliminateYnNormal(e.l);
      EliminateYnNormal(e.r);
    }
  }

  /** Elimination keeps the normal form, and leaves no constant operand. */
  lemma {:induction false} EliminatedClean(e: Expr)
    requires Normal(e) && !Shrinkable(e)
    ensures Normal(Eliminated(e)) && Clean(Eliminated(e))
    decreases Size(e)
  {
    hide Passes, Normal, Clean, Shrinkable;
    var p := Passes(e);
    PassesCount(e);
    if p.count == 0 {
      UnshrinkableClean(e);
    } else {
      PassesNormal(e);
      EliminateYnNormal(p.e);
      EliminateYnShrinks(p.e);
      EliminatedClean(EliminateYn(p.e));
    }
  }

  lemma {:induction false} PassesNormal(e: Expr)
    requires Normal(e)
    ensures Normal(Passes(e).e)
  {
    hide Dups1, Dups2, Normal;
    if e.Bin? {
      EmptyPlace(e);
      Dups1Normal(e.op, e, [], []);
      var a := Dups1(e.op, e, [], []);
      EmptyPlace(a.e);
      Dups2Normal(e.op, a.e, [], []);
    }
  }

  lemma {:induction false} NormalAt(op: Op, e: Expr, p: Place)
    requires On(op, e, p) && Normal(e)
    ensures Normal(At(op, e, p))
    decreases |p|
  {
    if p != [] { NormalAt(op, Kid(e, p[0]), p[1..]); }
  }

  lemma {:induction false} NormalPut(op: Op, e: Expr, p: Place, x: Expr)
    requires On(op, e, p) && Normal(e) && Normal(x)
    ensures Normal(Put(op, e, p, x))
    decreases |p|
  {
    if p != [] { NormalPut(op, Kid(e, p[0]), p[1..], x); }
  }

  lemma {:induction false} JoinNormal(op: Op, e1: Expr, e2: Expr)
    requires Normal(e1) && Normal(e2) && Join(op, e1, e2).Some?
    ensures Normal(Join(op, e1, e2).value)
  {
    hide ExprEq;
    Names();
  }

  lemma {:induction false} ConstantsNormal(op: Op)
    ensures Normal(Unit(op)) && Normal(Zero(op))
  {
  }

  lemma {:induction false} Dups1Normal(op: Op, e: Expr, p1: Place, p2: Place)
    requires On(op, e, p1) && On(op, e, p2) && Normal(e)
    ensures Normal(Dups1(op, e, p1, p2).e)
    decreases Size(e), Spine(op, At(op, e, p1)), Spine(op, At(op, e, p2)), 1
  {
    hide Join, Normal;
    if IsOp(op, At(op, e, p1)) {
      Below(op, e, p1, true);
      Below(op, e, p1, false);
      var a := Dups1(op, e, p1 + [true], p2);
      SpinePlace(op, e, a.e, p1 + [false]);
      SpinePlace(op, e, a.e, p2);
      Dups1Normal(op, e, p1 + [true], p2);
      Dups1Normal(op, a.e, p1 + [false], p2);
    } else if IsOp(op, At(op, e, p2)) {
      Below(op, e, p2, true);
      Below(op, e, p2, false);
      var a := Dups1(op, e, p1, p2 + [true]);
      SpinePlace(op, e, a.e, p1);
      SpinePlace(op, e, a.e, p2 + [false]);
      Dups1Normal(op, e, p1, p2 + [true]);
      Dups1Normal(op, a.e, p1, p2 + [false]);
    } else if p1 != p2 {
      Meet1Normal(op, e, p1, p2);
    }
  }

  lemma {:induction false} Meet1Normal(op: Op, e: Expr, p1: Place, p2: Place)
    requires On(op, e, p1) && On(op, e, p2) && Normal(e)
    requires !IsOp(op, At(op, e, p1)) && !IsOp(op, At(op, e, p2)) && p1 != p2
    ensures Normal(Meet1(op, e, p1, p2).e)
    decreases Size(e), 0, 0, 0
  {
    hide Join, Normal, Put, At, On;
    var e1, e2 := At(op, e, p1), At(op, e, p2);
    PutElsewhere(op, e, p1, e1, p2);
    AtSize(op, e, p1);
    EmptyPlace(e1);
    NormalAt(op, e, p1);
    NormalAt(op, e, p2);
    if e1.Bin? { Dups1Normal(e1.op, e1, [], []); }
    var n := if e1.Bin? then Dups1(e1.op, e1, [], []) else Pass(e1, 0);
    var f := Put(op, e, p1, n.e);
    NormalPut(op, e, p1, n.e);
    PutSpine(op, e, p1, n.e);
    PutElsewhere(op, e, p1, n.e, p2);
    if Join(op, n.e, e2).Some? {
      JoinShape(op, n.e, e2);
      JoinNormal(op, n.e, e2);
      ConstantsNormal(op);
      var g := Put(op, f, p1, Unit(op));
      NormalPut(op, f, p1, Unit(op));
      PutElsewhere(op, f, p1, Unit(op), p2);
      NormalPut(op, g, p2, Join(op, n.e, e2).value);
    }
  }

  lemma {:induction false} Dups2Normal(op: Op, e: Expr, p1: Place, p2: Place)
    requires On(op, e, p1) && On(op, e, p2) && Normal(e)
    ensures Normal(Dups2(op, e, p1, p2).e)
    decreases Size(e), Spine(op, At(op, e, p1)), Spine(op, At(op, e, p2)), 1
  {
    hide ExtractEqOp, Normal, Transform;
    if IsOp(op, At(op, e, p1)) {
      Below(op, e, p1, true);
      Below(op, e, p1, false);
      var a := Dups2(op, e, p1 + [true], p2);
      SpinePlace(op, e, a.e, p1 + [false]);
      SpinePlace(op, e, a.e, p2);
      Dups2Normal(op, e, p1 + [true], p2);
      Dups2Normal(op, a.e, p1 + [false], p2);
    } else if IsOp(op, At(op, e, p2)) {
      Below(op, e, p2, true);
      Below(op, e, p2, false);
      var a := Dups2(op, e, p1, p2 + [true]);
      SpinePlace(op, e, a.e, p1);
      SpinePlace(op, e, a.e, p2 + [false]);
      var b := Dups2(op, a.e, p1, p2 + [false]);
      SpineTrans(op, e, a.e, b.e);
      SpinePlace(op, e, b.e, p1);
      SpinePlace(op, e, b.e, p2);
      LeafPlace(op, e, p1, p2);
      Dups2Normal(op, e, p1, p2 + [true]);
      Dups2Normal(op, a.e, p1, p2 + [false]);
      Meet2Normal(op, b.e, p1, p2);
    } else if p1 != p2 {
      LeafPlace(op, e, p1, p2);
      Meet2Normal(op, e, p1, p2);
    }
  }

  lemma {:induction false} Meet2Normal(op: Op, e: Expr, p1: Place, p2: Place)
    requires On(op, e, p1) && On(op, e, p2) && Normal(e) && !IsOp(op, At(op, e, p1)) && p1 != []
    ensures Normal(Meet2(op, e, p1, p2).e)
    decreases Size(e), 0, 0, 0
  {
    hide ExtractEqOp, Normal, Transform, Put, At, On;
    var e1 := At(op, e, p1);
    if e1.Bin? {
      AtSize(op, e, p1);
      EmptyPlace(e1);
      NormalAt(op, e, p1);
      Dups2Normal(e1.op, e1, [], []);
      var n := Dups2(e1.op, e1, [], []);
      var f := Put(op, e, p1, n.e);
      NormalPut(op, e, p1, n.e);
      PutSpine(op, e, p1, n.e);
      SpinePlace(op, e, f, p2);
      ConstantsNormal(op);
      NormalPut(op, f, p1, Zero(op));
    }
  }

  /** Nothing happens inside the operands of the spine. */
  ghost predicate Idle(op: Op, e: Expr) {
    if IsOp(op, e) then Idle(op, e.l) && Idle(op, e.r)
    else e.Bin? ==> Dups1(e.op, e, [], []).count == 0 && Dups2(e.op, e, [], []).count == 0
  }

  lemma {:induction false} IdleAt(op: Op, e: Expr, p: Place)
    requires On(op, e, p) && Idle(op, e)
    ensures Idle(op, At(op, e, p))
    decreases |p|
  {
    hide Dups1, Dups2;
    if p != [] { IdleAt(op, Kid(e, p[0]), p[1..]); }
  }

  lemma {:induction false} ZeroPut(op: Op, e: Expr, p: Place)
    requires On(op, e, p) && !IsOp(op, At(op, e, p))
    ensures HasZero(op, Put(op, e, p, Zero(op))) && (Idle(op, e) ==> Idle(op, Put(op, e, p, Zero(op))))
    decreases |p|
  {
    hide Dups1, Dups2;
    if p != [] { ZeroPut(op, Kid(e, p[0]), p[1..]); }
  }

  /** Then what the second pass counts are operands it decides, which stay on the spine. */
  lemma {:induction false} Dups2Decides(op: Op, e: Expr, p1: Place, p2: Place)
    requires On(op, e, p1) && On(op, e, p2) && Idle(op, e)
    ensures var r := Dups2(op, e, p1, p2); Idle(op, r.e) && (HasZero(op, e) || r.count > 0 ==> HasZero(op, r.e))
    decreases Spine(op, At(op, e, p1)), Spine(op, At(op, e, p2))
  {
    hide ExtractEqOp, Transform, Meet2, Idle, HasZero;
    if IsOp(op, At(op, e, p1)) {
      Below(op, e, p1, true);
      Below(op, e, p1, false);
      var a := Dups2(op, e, p1 + [true], p2);
      SpinePlace(op, e, a.e, p1 + [false]);
      SpinePlace(op, e, a.e, p2);
      Dups2Decides(op, e, p1 + [true], p2);
      Dups2Decides(op, a.e, p1 + [false], p2);
    } else if IsOp(op, At(op, e, p2)) {
      Below(op, e, p2, true);
      Below(op, e, p2, false);
      var a := Dups2(op, e, p1, p2 + [true]);
      SpinePlace(op, e, a.e, p1);
      SpinePlace(op, e, a.e, p2 + [false]);
      var b := Dups2(op, a.e, p1, p2 + [false]);
      SpineTrans(op, e, a.e, b.e);
      SpinePlace(op, e, b.e, p1);
      SpinePlace(op, e, b.e, p2);
      LeafPlace(op, e, p1, p2);
      Dups2Decides(op, e, p1, p2 + [true]);
      Dups2Decides(op, a.e, p1, p2 + [false]);
      Meet2Decides(op, b.e, p1, p2);
    } else if p1 != p2 {
      LeafPlace(op, e, p1, p2);
      Meet2Decides(op, e, p1, p2);
    }
  }

  lemma {:induction false} Meet2Decides(op: Op, e: Expr, p1: Place, p2: Place)
    requires On(op, e, p1) && On(op, e, p2) && !IsOp(op, At(op, e, p1)) && p1 != [] && Idle(op, e)
    ensures var r := Meet2(op, e, p1, p2); Idle(op, r.e) && (HasZero(op, e) || r.count > 0 ==> HasZero(op, r.e))
  {
    hide ExtractEqOp, Transform, Put, At, On, HasZero, Shrinkable, Dups1;
    var e1 := At(op, e, p1);
    if e1.Bin? {
      EmptyPlace(e1);
      AtSize(op, e, p1);
      IdleAt(op, e, p1);
      Dups2Count(e1.op, e1, [], []);
      PutBack(op, e, p1);
      ZeroPut(op, e, p1);
    }
  }

  lemma {:induction false} ZeroWins(op: Op, e: Expr)
    requires HasZero(op, e)
    ensures EliminateYn(e) == Zero(op)
  {
    if IsOp(op, e) {
      if HasZero(op, e.l) { ZeroWins(op, e.l); }
      if HasZero(op, e.r) { ZeroWins(op, e.r); }
      assert "y"[0] != "n"[0];
    }
  }

  /** If one operand contradicts a stretch of the spine, and nothing else is to do, the whole is decided. */
  lemma {:induction false} ContradictionDecides(op: Op, e: Expr, p1: Place, p2: Place)
    requires IsOp(op, e) && On(op, e, p1) && On(op, e, p2) && p1 != p2 && Idle(op, e)
    requires Dups1(op, e, [], []).count == 0 && At(op, e, p1).Bin? && !IsOp(op, At(op, e, p1))
    requires ExtractEqOp(op, Transform(Not(At(op, e, p1))), At(op, e, p2)).e1 == Unit(op)
    ensures Eliminated(e) == Zero(op)
  {
    hide ExtractEqOp, Transform, Dups1, Dups2, On, At, Idle, HasZero, Shrinkable;
    EmptyPlace(e);
    Dups1Count(op, e, [], []);
    var d := Dups2(op, e, [], []);
    if d.count == 0 {
      assert [] + p1 == p1 && [] + p2 == p2;
      NothingToDecide(op, e, [], p1, [], p2);
    } else {
      Dups2Decides(op, e, [], []);
      ZeroWins(op, d.e);
      assert Passes(e) == Pass(d.e, d.count);
      PassesCount(e);
      EliminateYnShrinks(d.e);
      assert Eliminated(Zero(op)) == Zero(op);
    }
  }

  /** No two operands of the spine can be joined. */
  ghost predicate Unjoined(op: Op, e: Expr) {
    forall p, q :: OperandAt(op, e, p) && OperandAt(op, e, q) && p != q ==>
      On(op, e, p) && On(op, e, q) && Join(op, At(op, e, p), At(op, e, q)).None?
  }

  ghost predicate OperandAt(op: Op, e: Expr, p: Place) { On(op, e, p) && !IsOp(op, At(op, e, p)) }

  lemma {:induction false} NothingJoined(op: Op, e: Expr, p1: Place, p2: Place)
    requires On(op, e, p1) && On(op, e, p2) && Unjoined(op, e) && Idle(op, e)
    ensures Dups1(op, e, p1, p2) == Pass(e, 0)
    decreases Spine(op, At(op, e, p1)), Spine(op, At(op, e, p2))
  {
    hide Join, Meet1, Unjoined, Idle;
    if IsOp(op, At(op, e, p1)) {
      Below(op, e, p1, true);
      Below(op, e, p1, false);
      NothingJoined(op, e, p1 + [true], p2);
      NothingJoined(op, e, p1 + [false], p2);
    } else if IsOp(op, At(op, e, p2)) {
      Below(op, e, p2, true);
      Below(op, e, p2, false);
      NothingJoined(op, e, p1, p2 + [true]);
      NothingJoined(op, e, p1, p2 + [false]);
    } else if p1 != p2 {
      NotMet(op, e, p1, p2);
    }
  }

  lemma {:induction false} NotMet(op: Op, e: Expr, p1: Place, p2: Place)
    requires OperandAt(op, e, p1) && OperandAt(op, e, p2) && p1 != p2 && Unjoined(op, e) && Idle(op, e)
    ensures Meet1(op, e, p1, p2) == Pass(e, 0)
  {
    hide Join, Put, At, On, Dups2, Shrinkable;
    var e1 := At(op, e, p1);
    EmptyPlace(e1);
    IdleAt(op, e, p1);
    AtSize(op, e, p1);
    if e1.Bin? { Dups1Count(e1.op, e1, [], []); }
    PutBack(op, e, p1);
  }

  /** The first operand of a spine. */
  ghost function FirstPlace(op: Op, e: Expr): Place {
    if IsOp(op, e) then [true] + FirstPlace(op, e.l) else []
  }

  lemma {:induction false} FirstOperand(op: Op, e: Expr)
    ensures OperandAt(op, e, FirstPlace(op, e))
  {
    if IsOp(op, e) {
      FirstOperand(op, e.l);
      assert ([true] + FirstPlace(op, e.l))[1..] == FirstPlace(op, e.l);
    }
  }

  /** An operand on the other side. */
  lemma {:induction false} OtherOperand(op: Op, e: Expr, p: Place) returns (q: Place)
    requires IsOp(op, e) && OperandAt(op, e, p)
    ensures OperandAt(op, e, q) && q != p && p != []
  {
    q := [!p[0]] + FirstPlace(op, Kid(e, !p[0]));
    FirstOperand(op, Kid(e, !p[0]));
    assert q[1..] == FirstPlace(op, Kid(e, !p[0]));
  }

  /** Inside the operands nothing is left to eliminate either, and so on at every depth. */
  lemma {:induction false} EliminatedInside(e: Expr, p: Place)
    requires Eliminated(e) == e && e.Bin? && OperandAt(e.op, e, p)
    ensures Eliminated(At(e.op, e, p)) == At(e.op, e, p)
  {
    hide Eliminated, Dups1, Dups2, Join, ExtractEqOp, Transform, Shrinkable, OperandAt;
    IsOperand(e.op, e, p);
    var x := At(e.op, e, p);
    EliminatedStable(e);
    EmptyPlace(e);
    Dups1Count(e.op, e, [], []);
    if x.Bin? {
      var q := OtherOperand(e.op, e, p);
      IsOperand(e.op, e, q);
      assert [] + p == p && [] + q == q;
      NothingToJoin(e.op, e, [], p, [], q);
      NothingToDecide(e.op, e, [], p, [], q);
    }
    StableIs(x);
  }

  lemma {:induction false} IsOperand(op: Op, e: Expr, p: Place)
    requires OperandAt(op, e, p)
    ensures On(op, e, p) && !IsOp(op, At(op, e, p))
  {
  }

  lemma {:induction false} StableIs(e: Expr)
    requires e.Bin? ==> Dups1(e.op, e, [], []).count == 0 && Dups2(e.op, e, [], []).count == 0
    ensures Eliminated(e) == e
  {
    hide Dups1, Dups2, Shrinkable;
    EmptyPlace(e);
    if e.Bin? {
      Dups1Count(e.op, e, [], []);
      Dups2Count(e.op, e, [], []);
    }
  }
}
