/**
 Removing operands that repeat or contradict each other (kconfig/expr.c).
 */
module KExprDups {
  import opened Options
  import opened KExprs
  import opened KExprEquality
  import opened KExprJoins
  import opened KExprPlaces

  /** A rewritten expression and the number of rewritings counted. */
  datatype Pass = Pass(e: Expr, count: nat)

  /** First pass: joins every two operands of the `op` spine that can be joined. */
  function Dups1(op: Op, e: Expr, p1: Place, p2: Place): (r: Pass)
    requires On(op, e, p1) && On(op, e, p2)
    ensures Size(r.e) <= Size(e) && SameSpine(op, e, r.e)
    decreases Size(e), Spine(op, At(op, e, p1)), Spine(op, At(op, e, p2)), 1
  {
    if IsOp(op, At(op, e, p1)) then
      Below(op, e, p1, true);
      Below(op, e, p1, false);
      var a := Dups1(op, e, p1 + [true], p2);
      SpinePlace(op, e, a.e, p1 + [false]);
      SpinePlace(op, e, a.e, p2);
      var b := Dups1(op, a.e, p1 + [false], p2);
      SpineTrans(op, e, a.e, b.e);
      Pass(b.e, a.count + b.count)
    else if IsOp(op, At(op, e, p2)) then
      Below(op, e, p2, true);
      Below(op, e, p2, false);
      var a := Dups1(op, e, p1, p2 + [true]);
      SpinePlace(op, e, a.e, p1);
      SpinePlace(op, e, a.e, p2 + [false]);
      var b := Dups1(op, a.e, p1, p2 + [false]);
      SpineTrans(op, e, a.e, b.e);
      Pass(b.e, a.count + b.count)
    else if p1 == p2 then
      SpineSelf(op, e);
      Pass(e, 0)
    else Meet1(op, e, p1, p2)
  }

  /** Two different operands meet: the first is simplified on its own, then both are joined. */
  function Meet1(op: Op, e: Expr, p1: Place, p2: Place): (r: Pass)
    requires On(op, e, p1) && On(op, e, p2) && !IsOp(op, At(op, e, p1)) && !IsOp(op, At(op, e, p2)) && p1 != p2
    ensures Size(r.e) <= Size(e) && SameSpine(op, e, r.e)
    decreases Size(e), 0, 0, 0
  {
    var e1, e2 := At(op, e, p1), At(op, e, p2);
    PutElsewhere(op, e, p1, e1, p2);
    AtSize(op, e, p1);
    var n := if e1.Bin? then Dups1(e1.op, e1, [], []) else Pass(e1, 0);
    var f := Put(op, e, p1, n.e);
    PutSpine(op, e, p1, n.e);
    PutSize(op, e, p1, n.e);
    PutElsewhere(op, e, p1, n.e, p2);
    var j := Join(op, n.e, e2);
    if j.None? then Pass(f, n.count)
    else
      var g := Put(op, f, p1, Unit(op));
      JoinShape(op, n.e, e2);
      PutSpine(op, f, p1, Unit(op));
      PutSize(op, f, p1, Unit(op));
      PutElsewhere(op, f, p1, Unit(op), p2);
      PutSpine(op, g, p2, j.value);
      PutSize(op, g, p2, j.value);
      SpineTrans(op, e, f, g);
      SpineTrans(op, e, g, Put(op, g, p2, j.value));
      Pass(Put(op, g, p2, j.value), n.count + 1)
  }

  /** Second pass: an operand whose negation the spine contains decides the whole. */
  function Dups2(op: Op, e: Expr, p1: Place, p2: Place): (r: Pass)
    requires On(op, e, p1) && On(op, e, p2)
    ensures Size(r.e) <= Size(e) && SameSpine(op, e, r.e)
    decreases Size(e), Spine(op, At(op, e, p1)), Spine(op, At(op, e, p2)), 1
  {
    if IsOp(op, At(op, e, p1)) then
      Below(op, e, p1, true);
      Below(op, e, p1, false);
      var a := Dups2(op, e, p1 + [true], p2);
      SpinePlace(op, e, a.e, p1 + [false]);
      SpinePlace(op, e, a.e, p2);
      var b := Dups2(op, a.e, p1 + [false], p2);
      SpineTrans(op, e, a.e, b.e);
      Pass(b.e, a.count + b.count)
    else if IsOp(op, At(op, e, p2)) then
      Below(op, e, p2, true);
      Below(op, e, p2, false);
      var a := Dups2(op, e, p1, p2 + [true]);
      SpinePlace(op, e, a.e, p1);
      SpinePlace(op, e, a.e, p2);
      SpinePlace(op, e, a.e, p2 + [false]);
      var b := Dups2(op, a.e, p1, p2 + [false]);
      SpineTrans(op, e, a.e, b.e);
      SpinePlace(op, e, b.e, p1);
      SpinePlace(op, e, b.e, p2);
      LeafPlace(op, e, p1, p2);
      var c := Meet2(op, b.e, p1, p2);
      SpineTrans(op, e, b.e, c.e);
      Pass(c.e, a.count + b.count + c.count)
    else if p1 == p2 then
      SpineSelf(op, e);
      Pass(e, 0)
    else
      LeafPlace(op, e, p1, p2);
      Meet2(op, e, p1, p2)
  }

  lemma {:induction false} LeafPlace(op: Op, e: Expr, p1: Place, p2: Place)
    requires On(op, e, p1) && On(op, e, p2) && !IsOp(op, At(op, e, p1)) && p1 != p2
    ensures p1 != []
  {
  }

  /** An operand of the other operator meets an operand or a whole stretch of the spine. */
  function Meet2(op: Op, e: Expr, p1: Place, p2: Place): (r: Pass)
    requires On(op, e, p1) && On(op, e, p2) && !IsOp(op, At(op, e, p1)) && p1 != []
    ensures Size(r.e) <= Size(e) && SameSpine(op, e, r.e)
    decreases Size(e), 0, 0, 0
  {
    var e1 := At(op, e, p1);
    AtSize(op, e, p1);
    SpineSelf(op, e);
    if !e1.Bin? then Pass(e, 0)
    else
      var n := Dups2(e1.op, e1, [], []);
      var f := Put(op, e, p1, n.e);
      PutSpine(op, e, p1, n.e);
      PutSize(op, e, p1, n.e);
      SpinePlace(op, e, f, p2);
      var x := ExtractEqOp(op, Transform(Not(n.e)), At(op, f, p2));
      if x.e1 != Unit(op) then Pass(f, n.count)
      else
        PutSpine(op, f, p1, Zero(op));
        PutSize(op, f, p1, Zero(op));
        SpineTrans(op, e, f, Put(op, f, p1, Zero(op)));
        Pass(Put(op, f, p1, Zero(op)), n.count + 1)
  }

  /** Both passes over an AND or OR. */
  function Passes(e: Expr): (r: Pass)
    ensures Size(r.e) <= Size(e)
  {
    if !e.Bin? then Pass(e, 0)
    else
      var a := Dups1(e.op, e, [], []);
      var b := Dups2(e.op, a.e, [], []);
      Pass(b.e, a.count + b.count)
  }

  /** The first pass never changes the value. */
  lemma {:induction false} Dups1Same(v: Env, op: Op, e: Expr, p1: Place, p2: Place)
    requires WellTyped(v) && On(op, e, p1) && On(op, e, p2)
    ensures Eval(v, Dups1(op, e, p1, p2).e) == Eval(v, e)
    decreases Size(e), Spine(op, At(op, e, p1)), Spine(op, At(op, e, p2)), 1
  {
    hide WellTyped, Eval, Join;
    if IsOp(op, At(op, e, p1)) {
      Below(op, e, p1, true);
      Below(op, e, p1, false);
      var a := Dups1(op, e, p1 + [true], p2);
      SpinePlace(op, e, a.e, p1 + [false]);
      SpinePlace(op, e, a.e, p2);
      Dups1Same(v, op, e, p1 + [true], p2);
      Dups1Same(v, op, a.e, p1 + [false], p2);
    } else if IsOp(op, At(op, e, p2)) {
      Below(op, e, p2, true);
      Below(op, e, p2, false);
      var a := Dups1(op, e, p1, p2 + [true]);
      SpinePlace(op, e, a.e, p1);
      SpinePlace(op, e, a.e, p2 + [false]);
      Dups1Same(v, op, e, p1, p2 + [true]);
      Dups1Same(v, op, a.e, p1, p2 + [false]);
    } else if p1 != p2 {
      Meet1Same(v, op, e, p1, p2);
    }
  }

  lemma {:induction false} Meet1Same(v: Env, op: Op, e: Expr, p1: Place, p2: Place)
    requires WellTyped(v) && On(op, e, p1) && On(op, e, p2)
    requires !IsOp(op, At(op, e, p1)) && !IsOp(op, At(op, e, p2)) && p1 != p2
    ensures Eval(v, Meet1(op, e, p1, p2).e) == Eval(v, e)
    decreases Size(e), 0, 0, 0
  {
    hide WellTyped, Eval, Join, Put, At, On, Comb;
    var e1, e2 := At(op, e, p1), At(op, e, p2);
    PutElsewhere(op, e, p1, e1, p2);
    AtSize(op, e, p1);
    EmptyPlace(e1);
    if e1.Bin? { Dups1Same(v, e1.op, e1, [], []); }
    var n := if e1.Bin? then Dups1(e1.op, e1, [], []) else Pass(e1, 0);
    PutSpine(op, e, p1, n.e);
    PutElsewhere(op, e, p1, n.e, p2);
    ReplaceSame(v, op, e, p1, n.e);
    var f := Put(op, e, p1, n.e);
    if Join(op, n.e, e2).Some? {
      JoinShape(op, n.e, e2);
      JoinSound(v, op, n.e, e2);
      PutElsewhere(op, f, p1, Unit(op), p2);
      JoinedSame(v, op, f, p1, p2, Join(op, n.e, e2).value);
    }
  }

  lemma {:induction false} EmptyPlace(e: Expr)
    ensures forall op :: On(op, e, [])
  {
  }

  lemma {:induction false} ReplaceSame(v: Env, op: Op, e: Expr, p: Place, x: Expr)
    requires WellTyped(v) && On(op, e, p) && Eval(v, x) == Eval(v, At(op, e, p))
    ensures Eval(v, Put(op, e, p, x)) == Eval(v, e)
  {
    hide WellTyped, Eval, Comb;
    PutEval(v, op, e, p, x);
    PutEval(v, op, e, p, At(op, e, p));
    PutBack(op, e, p);
  }

  /** One of two operands neutral, the other the two combined. */
  lemma {:induction false} JoinedSame(v: Env, op: Op, e: Expr, p1: Place, p2: Place, t: Expr)
    requires WellTyped(v) && On(op, e, p1) && On(op, e, p2)
    requires On(op, Put(op, e, p1, Unit(op)), p2) && At(op, Put(op, e, p1, Unit(op)), p2) == At(op, e, p2)
    requires Eval(v, t) == Comb(op, Eval(v, At(op, e, p1)), Eval(v, At(op, e, p2)))
    ensures Eval(v, Put(op, Put(op, e, p1, Unit(op)), p2, t)) == Eval(v, e)
  {
    hide WellTyped, Eval, Comb;
    var g := Put(op, e, p1, Unit(op));
    PutEval(v, op, e, p1, At(op, e, p1));
    PutBack(op, e, p1);
    PutEval(v, op, g, p2, t);
    PutEval(v, op, g, p2, At(op, g, p2));
    PutBack(op, g, p2);
    CombSwap(op, Eval(v, At(op, e, p1)), Eval(v, At(op, e, p2)), Eval(v, Put(op, g, p2, Unit(op))));
  }

  /** A definite value stays; m may become definite. */
  ghost predicate Finer(x: Tri, y: Tri) { x == 1 || x == y }

  lemma {:induction false} Dups2Finer(v: Env, op: Op, e: Expr, p1: Place, p2: Place)
    requires WellTyped(v) && On(op, e, p1) && On(op, e, p2)
    ensures Finer(Eval(v, e), Eval(v, Dups2(op, e, p1, p2).e))
    decreases Size(e), Spine(op, At(op, e, p1)), Spine(op, At(op, e, p2)), 1
  {
    hide WellTyped, Eval, ExtractEqOp;
    if IsOp(op, At(op, e, p1)) {
      Below(op, e, p1, true);
      Below(op, e, p1, false);
      var a := Dups2(op, e, p1 + [true], p2);
      SpinePlace(op, e, a.e, p1 + [false]);
      SpinePlace(op, e, a.e, p2);
      Dups2Finer(v, op, e, p1 + [true], p2);
      Dups2Finer(v, op, a.e, p1 + [false], p2);
    } else if IsOp(op, At(op, e, p2)) {
      Below(op, e, p2, true);
      Below(op, e, p2, false);
      var a := Dups2(op, e, p1, p2 + [true]);
      SpinePlace(op, e, a.e, p1);
      SpinePlace(op, e, a.e, p2 + [false]);
      var b := Dups2(op, a.e, p1, p2 + [false]);
      SpineTrans(op, e, a.e, b.e);
      SpinePlace(op, e, b.e, p1);
      SpinePlace(op, e, b.e, p2);
      LeafPlace(op, e, p1, p2);
      Dups2Finer(v, op, e, p1, p2 + [true]);
      Dups2Finer(v, op, a.e, p1, p2 + [false]);
      Meet2Finer(v, op, b.e, p1, p2);
    } else if p1 != p2 {
      LeafPlace(op, e, p1, p2);
      Meet2Finer(v, op, e, p1, p2);
    }
  }

  lemma {:induction false} Meet2Finer(v: Env, op: Op, e: Expr, p1: Place, p2: Place)
    requires WellTyped(v) && On(op, e, p1) && On(op, e, p2) && !IsOp(op, At(op, e, p1)) && p1 != []
    ensures Finer(Eval(v, e), Eval(v, Meet2(op, e, p1, p2).e))
    decreases Size(e), 0, 0, 0
  {
    hide WellTyped, Eval, ExtractEqOp, Put, At, On;
    var e1 := At(op, e, p1);
    if e1.Bin? {
      AtSize(op, e, p1);
      EmptyPlace(e1);
      Dups2Finer(v, e1.op, e1, [], []);
      var n := Dups2(e1.op, e1, [], []);
      var f := Put(op, e, p1, n.e);
      PutSpine(op, e, p1, n.e);
      SpinePlace(op, e, f, p2);
      ReplaceFiner(v, op, e, p1, n.e);
      var x := ExtractEqOp(op, Transform(Not(n.e)), At(op, f, p2));
      if x.e1 == Unit(op) { DecidedFiner(v, op, f, p1, p2); }
    }
  }

  lemma {:induction false} ReplaceFiner(v: Env, op: Op, e: Expr, p: Place, x: Expr)
    requires WellTyped(v) && On(op, e, p) && Finer(Eval(v, At(op, e, p)), Eval(v, x))
    ensures Finer(Eval(v, e), Eval(v, Put(op, e, p, x)))
  {
    hide WellTyped, Eval;
    PutEval(v, op, e, p, x);
    PutEval(v, op, e, p, At(op, e, p));
    PutBack(op, e, p);
  }

  /** An operand and its negation together are n or m under AND, y or m under OR. */
  lemma {:induction false} DecidedFiner(v: Env, op: Op, e: Expr, p1: Place, p2: Place)
    requires WellTyped(v) && On(op, e, p1) && On(op, e, p2)
    requires ExtractEqOp(op, Transform(Not(At(op, e, p1))), At(op, e, p2)).e1 == Unit(op)
    ensures Finer(Eval(v, e), Eval(v, Put(op, e, p1, Zero(op))))
  {
    hide ExtractEqOp, Put, At, On, Transform;
    var a, b, t := At(op, e, p1), At(op, e, p2), Transform(Not(At(op, e, p1)));
    TransformSame(v, Not(a));
    ExtractEqSound(v, op, t, b);
    OperandBound(v, op, e, p1);
    OperandBound(v, op, e, p2);
    PutEval(v, op, e, p1, Zero(op));
  }

  /** A pass that counts nothing changes nothing; one that counts leaves an operand y or n behind. */
  lemma {:induction false} Dups1Count(op: Op, e: Expr, p1: Place, p2: Place)
    requires On(op, e, p1) && On(op, e, p2)
    ensures var r := Dups1(op, e, p1, p2); if r.count == 0 then r.e == e else Shrinkable(r.e)
    decreases Size(e), Spine(op, At(op, e, p1)), Spine(op, At(op, e, p2)), 1
  {
    hide Join, Shrinkable;
    if IsOp(op, At(op, e, p1)) {
      Below(op, e, p1, true);
      Below(op, e, p1, false);
      var a := Dups1(op, e, p1 + [true], p2);
      SpinePlace(op, e, a.e, p1 + [false]);
      SpinePlace(op, e, a.e, p2);
      Dups1Count(op, e, p1 + [true], p2);
      Dups1Count(op, a.e, p1 + [false], p2);
    } else if IsOp(op, At(op, e, p2)) {
      Below(op, e, p2, true);
      Below(op, e, p2, false);
      var a := Dups1(op, e, p1, p2 + [true]);
      SpinePlace(op, e, a.e, p1);
      SpinePlace(op, e, a.e, p2 + [false]);
      Dups1Count(op, e, p1, p2 + [true]);
      Dups1Count(op, a.e, p1, p2 + [false]);
    } else if p1 != p2 {
      Meet1Count(op, e, p1, p2);
    }
  }

  lemma {:induction false} Meet1Count(op: Op, e: Expr, p1: Place, p2: Place)
    requires On(op, e, p1) && On(op, e, p2) && !IsOp(op, At(op, e, p1)) && !IsOp(op, At(op, e, p2)) && p1 != p2
    ensures var r := Meet1(op, e, p1, p2); if r.count == 0 then r.e == e else Shrinkable(r.e)
    decreases Size(e), 0, 0, 0
  {
    hide Join, Shrinkable, Put, At, On;
    var e1, e2 := At(op, e, p1), At(op, e, p2);
    PutElsewhere(op, e, p1, e1, p2);
    AtSize(op, e, p1);
    EmptyPlace(e1);
    if e1.Bin? { Dups1Count(e1.op, e1, [], []); }
    var n := if e1.Bin? then Dups1(e1.op, e1, [], []) else Pass(e1, 0);
    var f := Put(op, e, p1, n.e);
    PutBack(op, e, p1);
    PutSpine(op, e, p1, n.e);
    PutElsewhere(op, e, p1, n.e, p2);
    if Join(op, n.e, e2).Some? {
      var t := Join(op, n.e, e2).value;
      JoinShape(op, n.e, e2);
      var g := Put(op, f, p1, Unit(op));
      PutSpine(op, f, p1, Unit(op));
      PutElsewhere(op, f, p1, Unit(op), p2);
      PutElsewhere(op, g, p2, t, p1);
      ConstShrinks(op, Put(op, g, p2, t), p1);
    } else if n.count > 0 {
      ConstShrinks(op, f, p1);
    }
  }

  lemma {:induction false} Dups2Count(op: Op, e: Expr, p1: Place, p2: Place)
    requires On(op, e, p1) && On(op, e, p2)
    ensures var r := Dups2(op, e, p1, p2); if r.count == 0 then r.e == e else Shrinkable(r.e)
    decreases Size(e), Spine(op, At(op, e, p1)), Spine(op, At(op, e, p2)), 1
  {
    hide ExtractEqOp, Shrinkable;
    if IsOp(op, At(op, e, p1)) {
      Below(op, e, p1, true);
      Below(op, e, p1, false);
      var a := Dups2(op, e, p1 + [true], p2);
      SpinePlace(op, e, a.e, p1 + [false]);
      SpinePlace(op, e, a.e, p2);
      Dups2Count(op, e, p1 + [true], p2);
      Dups2Count(op, a.e, p1 + [false], p2);
    } else if IsOp(op, At(op, e, p2)) {
      Below(op, e, p2, true);
      Below(op, e, p2, false);
      var a := Dups2(op, e, p1, p2 + [true]);
      SpinePlace(op, e, a.e, p1);
      SpinePlace(op, e, a.e, p2 + [false]);
      var b := Dups2(op, a.e, p1, p2 + [false]);
      SpineTrans(op, e, a.e, b.e);
      SpinePlace(op, e, b.e, p1);
      SpinePlace(op, e, b.e, p2);
      LeafPlace(op, e, p1, p2);
      Dups2Count(op, e, p1, p2 + [true]);
      Dups2Count(op, a.e, p1, p2 + [false]);
      Meet2Count(op, b.e, p1, p2);
    } else if p1 != p2 {
      LeafPlace(op, e, p1, p2);
      Meet2Count(op, e, p1, p2);
    }
  }

  lemma {:induction false} Meet2Count(op: Op, e: Expr, p1: Place, p2: Place)
    requires On(op, e, p1) && On(op, e, p2) && !IsOp(op, At(op, e, p1)) && p1 != []
    ensures var r := Meet2(op, e, p1, p2); if r.count == 0 then r.e == e else Shrinkable(r.e)
    decreases Size(e), 0, 0, 0
  {
    hide ExtractEqOp, Shrinkable, Put, At, On, Transform;
    var e1 := At(op, e, p1);
    if e1.Bin? {
      AtSize(op, e, p1);
      EmptyPlace(e1);
      Dups2Count(e1.op, e1, [], []);
      var n := Dups2(e1.op, e1, [], []);
      var f := Put(op, e, p1, n.e);
      PutBack(op, e, p1);
      PutSpine(op, e, p1, n.e);
      SpinePlace(op, e, f, p2);
      PutSpine(op, f, p1, Zero(op));
      if ExtractEqOp(op, Transform(Not(n.e)), At(op, f, p2)).e1 == Unit(op) {
        ConstShrinks(op, Put(op, f, p1, Zero(op)), p1);
      } else if n.count > 0 {
        ConstShrinks(op, f, p1);
      }
    }
  }

  /** Both passes and constant elimination, over and over until nothing is counted. */
  function Eliminated(e: Expr): (r: Expr)
    ensures Size(r) <= Size(e)
    decreases Size(e)
  {
    var p := Passes(e);
    PassesCount(e);
    if p.count == 0 then p.e
    else
      EliminateYnShrinks(p.e);
      Eliminated(EliminateYn(p.e))
  }

  lemma {:induction false} PassesCount(e: Expr)
    ensures var r := Passes(e); if r.count == 0 then r.e == e else Shrinkable(r.e)
  {
    hide Shrinkable, Dups1, Dups2;
    if e.Bin? {
      EmptyPlace(e);
      Dups1Count(e.op, e, [], []);
      var a := Dups1(e.op, e, [], []);
      EmptyPlace(a.e);
      Dups2Count(e.op, a.e, [], []);
    }
  }

  /** The loop of the source; every counted round makes the expression smaller. */
  method EliminateDups(e: Expr) returns (r: Expr)
    ensures r == Eliminated(e)
  {
    hide Passes;
    r := e;
    var p := Passes(r);
    while p.count != 0
      invariant p == Passes(r) && Eliminated(r) == Eliminated(e)
      decreases Size(r)
    {
      PassesCount(r);
      EliminateYnShrinks(p.e);
      r := EliminateYn(p.e);
      p := Passes(r);
    }
    PassesCount(r);
  }

  lemma {:induction false} PassesFiner(v: Env, e: Expr)
    requires WellTyped(v)
    ensures Finer(Eval(v, e), Eval(v, Passes(e).e))
  {
    hide WellTyped, Eval, Dups1, Dups2;
    if e.Bin? {
      EmptyPlace(e);
      Dups1Same(v, e.op, e, [], []);
      var a := Dups1(e.op, e, [], []);
      EmptyPlace(a.e);
      Dups2Finer(v, e.op, a.e, [], []);
    }
  }

  /** An expression worth y or n keeps its value under every well-typed valuation. */
  lemma {:induction false} EliminatedFiner(v: Env, e: Expr)
    requires WellTyped(v)
    ensures Finer(Eval(v, e), Eval(v, Eliminated(e)))
    decreases Size(e)
  {
    hide WellTyped, Eval, Passes;
    var p := Passes(e);
    PassesFiner(v, e);
    PassesCount(e);
    if p.count != 0 {
      EliminateYnShrinks(p.e);
      EliminateYnSame(v, p.e);
      EliminatedFiner(v, EliminateYn(p.e));
    }
  }

  /** Nothing is left to eliminate. */
  lemma {:induction false} EliminatedStable(e: Expr)
    ensures Passes(Eliminated(e)).count == 0 && Eliminated(Eliminated(e)) == Eliminated(e)
    decreases Size(e)
  {
    hide Passes;
    var p := Passes(e);
    PassesCount(e);
    if p.count != 0 {
      EliminateYnShrinks(p.e);
      EliminatedStable(EliminateYn(p.e));
    }
  }
}
