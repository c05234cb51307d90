/**
 Places in an expression.  The elimination passes hold two pointers into one
 tree and write through both; here a pointer is the way down a spine of nodes
 of one operator, and two pointers are equal when the ways are.
 */
module KExprPlaces {
  import opened KExprs
  import opened KExprEquality

  /** Turns on the way down: true is left. */
  type Place = seq<bool>

  function Kid(e: Expr, left: bool): Expr
    requires e.Bin?
  {
    if left then e.l else e.r
  }

  /** `p` leads down through `op` nodes only. */
  predicate On(op: Op, e: Expr, p: Place)
    decreases |p|
  {
    p == [] || (IsOp(op, e) && On(op, Kid(e, p[0]), p[1..]))
  }

  function At(op: Op, e: Expr, p: Place): Expr
    requires On(op, e, p)
    decreases |p|
  {
    if p == [] then e else At(op, Kid(e, p[0]), p[1..])
  }

  function Put(op: Op, e: Expr, p: Place, x: Expr): Expr
    requires On(op, e, p)
    decreases |p|
  {
    if p == [] then x
    else if p[0] then Bin(op, Put(op, e.l, p[1..], x), e.r)
    else Bin(op, e.l, Put(op, e.r, p[1..], x))
  }

  /** Number of `op` nodes of the spine. */
  function Spine(op: Op, e: Expr): nat {
    if IsOp(op, e) then 1 + Spine(op, e.l) + Spine(op, e.r) else 0
  }

  /** The spines of `op` nodes have the same form; their operands may differ. */
  ghost predicate SameSpine(op: Op, e: Expr, f: Expr) {
    IsOp(op, e) == IsOp(op, f) && (IsOp(op, e) ==> SameSpine(op, e.l, f.l) && SameSpine(op, e.r, f.r))
  }

  lemma {:induction false} SpineSelf(op: Op, e: Expr)
    ensures SameSpine(op, e, e)
  {
    if IsOp(op, e) {
      SpineSelf(op, e.l);
      SpineSelf(op, e.r);
    }
  }

  lemma {:induction false} SpineTrans(op: Op, e: Expr, f: Expr, g: Expr)
    requires SameSpine(op, e, f) && SameSpine(op, f, g)
    ensures SameSpine(op, e, g)
  {
    if IsOp(op, e) {
      SpineTrans(op, e.l, f.l, g.l);
      SpineTrans(op, e.r, f.r, g.r);
    }
  }

  lemma {:induction false} SpineCount(op: Op, e: Expr, f: Expr)
    requires SameSpine(op, e, f)
    ensures Spine(op, e) == Spine(op, f)
  {
    if IsOp(op, e) {
      SpineCount(op, e.l, f.l);
      SpineCount(op, e.r, f.r);
    }
  }

  /** A place on a spine is one on every spine of the same form. */
  lemma {:induction false} SpinePlace(op: Op, e: Expr, f: Expr, p: Place)
    requires SameSpine(op, e, f) && On(op, e, p)
    ensures On(op, f, p) && SameSpine(op, At(op, e, p), At(op, f, p))
    ensures Spine(op, At(op, e, p)) == Spine(op, At(op, f, p))
    decreases |p|
  {
    if p != [] { SpinePlace(op, Kid(e, p[0]), Kid(f, p[0]), p[1..]); } else { SpineCount(op, e, f); }
  }

  lemma {:induction false} Below(op: Op, e: Expr, p: Place, left: bool)
    requires On(op, e, p) && IsOp(op, At(op, e, p))
    ensures On(op, e, p + [left]) && At(op, e, p + [left]) == Kid(At(op, e, p), left)
    decreases |p|
  {
    if p == [] {
      assert [left][1..] == [];
    } else {
      Below(op, Kid(e, p[0]), p[1..], left);
      assert (p + [left])[1..] == p[1..] + [left];
    }
  }

  lemma {:induction false} AtSize(op: Op, e: Expr, p: Place)
    requires On(op, e, p)
    ensures Size(At(op, e, p)) <= Size(e) && (p != [] ==> Size(At(op, e, p)) < Size(e))
    decreases |p|
  {
    if p != [] { AtSize(op, Kid(e, p[0]), p[1..]); }
  }

  lemma {:induction false} PutSize(op: Op, e: Expr, p: Place, x: Expr)
    requires On(op, e, p)
    ensures Size(Put(op, e, p, x)) == Size(e) - Size(At(op, e, p)) + Size(x)
    decreases |p|
  {
    if p != [] { PutSize(op, Kid(e, p[0]), p[1..], x); }
  }

  /** Exchanging an operand keeps the spine and all other operands. */
  lemma {:induction false} PutSpine(op: Op, e: Expr, p: Place, x: Expr)
    requires On(op, e, p) && SameSpine(op, At(op, e, p), x)
    ensures SameSpine(op, e, Put(op, e, p, x)) && On(op, Put(op, e, p, x), p) && At(op, Put(op, e, p, x), p) == x
    decreases |p|
  {
    if p != [] {
      PutSpine(op, Kid(e, p[0]), p[1..], x);
      SpineSelf(op, Kid(e, !p[0]));
    }
  }

  lemma {:induction false} PutTwice(op: Op, e: Expr, p: Place, x: Expr, y: Expr)
    requires On(op, e, p) && On(op, Put(op, e, p, x), p)
    ensures Put(op, Put(op, e, p, x), p, y) == Put(op, e, p, y)
    decreases |p|
  {
    if p != [] { PutTwice(op, Kid(e, p[0]), p[1..], x, y); }
  }

  lemma {:induction false} PutBack(op: Op, e: Expr, p: Place)
    requires On(op, e, p)
    ensures Put(op, e, p, At(op, e, p)) == e
    decreases |p|
  {
    if p != [] { PutBack(op, Kid(e, p[0]), p[1..]); }
  }

  lemma {:induction false} PutElsewhere(op: Op, e: Expr, p: Place, x: Expr, q: Place)
    requires On(op, e, p) && On(op, e, q) && !IsOp(op, At(op, e, p)) && !IsOp(op, At(op, e, q)) && p != q
    ensures On(op, Put(op, e, p, x), q) && At(op, Put(op, e, p, x), q) == At(op, e, q) && p != [] && q != []
    decreases |p|
  {
    assert p != [] && q != [];
    if p[0] == q[0] {
      assert p == [p[0]] + p[1..] && q == [q[0]] + q[1..];
      PutElsewhere(op, Kid(e, p[0]), p[1..], x, q[1..]);
    }
  }

  /** What stands at a place is one operand of the whole. */
  lemma {:induction false} PutEval(v: Env, op: Op, e: Expr, p: Place, x: Expr)
    requires WellTyped(v) && On(op, e, p)
    ensures Eval(v, Put(op, e, p, x)) == Comb(op, Eval(v, x), Eval(v, Put(op, e, p, Unit(op))))
    decreases |p|
  {
    hide WellTyped;
    UnitLaw(v, op, Eval(v, x));
    if p != [] {
      PutEval(v, op, Kid(e, p[0]), p[1..], x);
      var rest := Put(op, Kid(e, p[0]), p[1..], Unit(op));
      CombSwap(op, Eval(v, x), Eval(v, rest), Eval(v, Kid(e, !p[0])));
    }
  }

  lemma {:induction false} CombSwap(op: Op, x: Tri, y: Tri, z: Tri)
    ensures Comb(op, Comb(op, x, y), z) == Comb(op, x, Comb(op, y, z))
    ensures Comb(op, z, Comb(op, x, y)) == Comb(op, x, Comb(op, z, y))
    ensures Comb(op, x, y) == Comb(op, y, x) && Comb(op, x, Comb(op, x, y)) == Comb(op, x, y)
  {
  }

  /** The value of the whole already takes every operand into account. */
  lemma {:induction false} OperandBound(v: Env, op: Op, e: Expr, p: Place)
    requires WellTyped(v) && On(op, e, p)
    ensures Comb(op, Eval(v, At(op, e, p)), Eval(v, e)) == Eval(v, e)
  {
    hide WellTyped, Comb;
    PutEval(v, op, e, p, At(op, e, p));
    PutBack(op, e, p);
    CombSwap(op, Eval(v, At(op, e, p)), Eval(v, Put(op, e, p, Unit(op))), 0);
  }

  lemma {:induction false} ConstShrinks(op: Op, e: Expr, p: Place)
    requires On(op, e, p) && ((p != [] && IsYn(At(op, e, p))) || Shrinkable(At(op, e, p)))
    ensures Shrinkable(e)
    decreases |p|
  {
    if p != [] && (p[1..] != [] || Shrinkable(At(op, e, p))) { ConstShrinks(op, Kid(e, p[0]), p[1..]); }
  }
}
