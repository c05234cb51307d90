/**
 Memoised evaluation of symbols (kconfig/symbol.c, kconfig/expr.c).
 */
module KCalc {
  import opened Options
  import opened KExprs
  import opened KExprEquality
  import opened KSymbols
  import opened KValues

  /** The first position of a symbol. */
  function Rank(order: seq<Symbol>, s: Symbol): nat {
    if order == [] || order[0] == s then 0 else 1 + Rank(order[1..], s)
  }

  lemma {:induction false} RankBefore(order: seq<Symbol>, s: Symbol, n: nat)
    requires n <= |order| && s in order[..n]
    ensures Rank(order, s) < n && order[Rank(order, s)] == s
  {
    if order[0] != s {
      var i :| 0 <= i < n && order[i] == s;
      assert order[1..][..n - 1][i - 1] == s;
      RankBefore(order[1..], s, n - 1);
    }
  }

  /** What a symbol depends on ranks before it. */
  lemma {:induction false} DepsRank(t: Table, order: seq<Symbol>, s: Symbol, d: Symbol)
    requires Topological(t, order) && s in order && d in Deps(t, s)
    ensures Rank(order, d) < Rank(order, s) && d in order
  {
    hide Deps;
    assert order[..|order|] == order;
    RankBefore(order, s, |order|);
    assert d in order[..Rank(order, s)];
    RankBefore(order, d, Rank(order, s));
  }

  /** The fields of all symbols. */
  datatype Memo = Memo(valid: set<Symbol>, curr: map<Symbol, Tri>, visible: map<Symbol, Tri>,
    selected: map<Symbol, Tri>, write: set<Symbol>)

  ghost predicate Right(t: Table, mods: Tri, v: Env, m: Memo, s: Symbol) {
    && s in m.curr && m.curr[s] == v.tri(s)
    && (Declared(s) ==>
      && s in m.visible && m.visible[s] == Visibility(t, mods, v, s)
      && s in m.selected && m.selected[s] == Selected(t, mods, v, s)
      && (s in m.write <==> Written(t, mods, v, s)))
  }

  /** Everything valid, apart from what is being evaluated, is right. */
  ghost predicate Sound(t: Table, mods: Tri, v: Env, m: Memo, busy: set<Symbol>) {
    {YES, MOD, NO} <= m.valid && forall s :: s in m.valid && s !in busy && s in t.symbols ==> Right(t, mods, v, m, s)
  }

  ghost predicate SameAt(m: Memo, m': Memo, s: Symbol) {
    && (s in m'.valid <==> s in m.valid) && (s in m'.write <==> s in m.write)
    && (s in m.curr ==> s in m'.curr && m'.curr[s] == m.curr[s])
    && (s in m.visible ==> s in m'.visible && m'.visible[s] == m.visible[s])
    && (s in m.selected ==> s in m'.selected && m'.selected[s] == m.selected[s])
  }

  /** More is valid, all of it right, and nothing that is being evaluated was touched. */
  ghost predicate Grown(t: Table, mods: Tri, v: Env, m: Memo, m': Memo, busy: set<Symbol>) {
    Sound(t, mods, v, m', busy) && m.valid <= m'.valid && forall s :: s in busy ==> SameAt(m, m', s)
  }

  lemma {:induction false} GrownOn(t: Table, mods: Tri, v: Env, a: Memo, b: Memo, c: Memo, busy: set<Symbol>)
    requires Grown(t, mods, v, a, b, busy) && Grown(t, mods, v, b, c, busy)
    ensures Grown(t, mods, v, a, c, busy)
  {
    hide Sound;
  }

  ghost predicate Setting(t: Table, mods: Tri, v: Env, order: seq<Symbol>) {
    Plain(t) && Solution(t, mods, v) && Topological(t, order) && Members(order) == t.symbols
  }

  /** All of `names` rank below `n` and below everything that is being evaluated. */
  ghost predicate Lower(t: Table, order: seq<Symbol>, names: set<Symbol>, n: nat, busy: set<Symbol>) {
    forall d :: d in names ==> d in t.symbols && Rank(order, d) < n && forall b :: b in busy ==>
      Rank(order, d) < Rank(order, b)
  }

  lemma {:induction false} DepsLower(t: Table, mods: Tri, v: Env, order: seq<Symbol>, s: Symbol, busy: set<Symbol>)
    requires Setting(t, mods, v, order) && s in t.symbols && forall b :: b in busy ==> Rank(order, s) < Rank(order, b)
    ensures Lower(t, order, Deps(t, s), Rank(order, s), busy + {s})
  {
    hide Deps, Rank, Solution;
    forall d | d in Deps(t, s)
      ensures d in t.symbols && Rank(order, d) < Rank(order, s)
      ensures forall b :: b in busy + {s} ==> Rank(order, d) < Rank(order, b)
    {
      assert s in Members(order);
      DepsRank(t, order, s, d);
      assert d in Members(order);
    }
  }

  class Evaluator {
    const t: Table
    const mods: Tri
    var valid: set<Symbol>
    var curr: map<Symbol, Tri>
    var visible: map<Symbol, Tri>
    var selected: map<Symbol, Tri>
    var write: set<Symbol>

    ghost function Snap(): Memo
      reads this
    {
      Memo(valid, curr, visible, selected, write)
    }

    /** Only y, m and n are valid from the start. */
    constructor (t: Table, mods: Tri)
      ensures this.t == t && this.mods == mods && valid == {YES, MOD, NO}
      ensures forall v :: Solution(t, mods, v) ==> Sound(t, mods, v, Snap(), {})
    {
      this.t, this.mods := t, mods;
      valid, curr, visible, selected, write := {YES, MOD, NO}, map[YES := 2, MOD := 1, NO := 0], map[], map[], {};
      new;
      forall v | Solution(t, mods, v) ensures Sound(t, mods, v, Snap(), {}) { StartSound(t, mods, v, Snap()); }
    }

    /** Makes `sym` valid; the value is the one of the equations. */
    method CalcValue(sym: Symbol, ghost v: Env, ghost order: seq<Symbol>, ghost busy: set<Symbol>)
      requires Setting(t, mods, v, order) && sym in t.symbols && Sound(t, mods, v, Snap(), busy)
      requires forall b :: b in busy ==> Rank(order, sym) < Rank(order, b)
      modifies this
      ensures Grown(t, mods, v, old(Snap()), Snap(), busy) && sym in valid && Right(t, mods, v, Snap(), sym)
      decreases Rank(order, sym), 1
    {
      hide Setting, Sound, Right, Deps, Rank, SameAt, Inside, Grown, InfoOf, Rule;
      ghost var m := Snap();
      NotBusy(t, mods, v, m, sym, order, busy);
      if sym in valid { return; }
      valid := valid + {sym};
      if !Declared(sym) {
        curr := curr[sym := 0];
        UndeclaredDone(t, mods, v, order, m, Snap(), sym, busy);
        return;
      }
      write := write - {sym};
      DepsLower(t, mods, v, order, sym, busy);
      Started(t, mods, v, m, Snap(), sym, busy);
      CalcVisibility(sym, v, order, busy, m);
      ghost var b := Snap();
      curr := curr[sym := 0];
      TouchedOn(t, mods, v, m, b, Snap(), busy, sym);
      CalcOwn(sym, v, order, busy, m);
      ghost var d := Snap();
      if InfoOf(t, sym).auto { write := write - {sym}; }
      TouchedOn(t, mods, v, m, d, Snap(), busy, sym);
      Finished(t, mods, v, order, m, Snap(), sym, busy);
    }

    /** Visibility and selection of `sym`, which is being evaluated. */
    method CalcVisibility(sym: Symbol, ghost v: Env, ghost order: seq<Symbol>, ghost busy: set<Symbol>, ghost a: Memo)
      requires Setting(t, mods, v, order) && sym in t.symbols && sym !in busy && Declared(sym)
      requires Lower(t, order, Deps(t, sym), Rank(order, sym), busy + {sym}) && Inside(t, mods, v, a, Snap(), busy, sym)
      modifies this
      ensures Inside(t, mods, v, a, Snap(), busy, sym) && (sym in write <==> sym in old(write))
      ensures sym in visible && visible[sym] == Visibility(t, mods, v, sym)
      ensures sym in selected && selected[sym] == Selected(t, mods, v, sym)
      decreases Rank(order, sym), 0, 2
    {
      hide Setting, Sound, Right, Rank, SameAt, Inside, Grown, PromptValue, AllPropDeps, Lower, Eval;
      ghost var b := Snap();
      LowerParts(t, order, sym, busy + {sym});
      InsideSound(t, mods, v, a, b, busy, sym);
      var tri := Prompts(InfoOf(t, sym).props, sym, v, order, busy + {sym});
      ghost var c := Snap();
      GrewOn(t, mods, v, a, b, c, busy, sym);
      visible := visible[sym := Promoted(tri, TypeOf(sym) != TristateT || mods == 0)];
      ghost var d := Snap();
      TouchedOn(t, mods, v, a, c, d, busy, sym);
      InsideSound(t, mods, v, a, d, busy, sym);
      var x := SelectedRaw(InfoOf(t, sym).revDep, Rank(order, sym), v, order, busy + {sym});
      ghost var f := Snap();
      GrewOn(t, mods, v, a, d, f, busy, sym);
      selected := selected[sym := Promoted(x, IsBool(mods, sym))];
      TouchedOn(t, mods, v, a, f, Snap(), busy, sym);
    }

    /** The condition under which others select a symbol; n if none does. */
    method SelectedRaw(e: Option<Expr>, ghost n: nat, ghost v: Env, ghost order: seq<Symbol>, ghost busy: set<Symbol>)
      returns (x: Tri)
      requires Setting(t, mods, v, order) && Lower(t, order, SymbolsIn(e), n, busy) && Sound(t, mods, v, Snap(), busy)
      modifies this
      ensures x == (if e.None? then 0 else Eval(v, e.value)) && Grown(t, mods, v, old(Snap()), Snap(), busy)
      decreases n, 0, 0, 1
    {
      hide Setting, Sound, Right, Rank, SameAt, Grown, Lower, Eval;
      Unchanged(t, mods, v, Snap(), busy);
      if e.None? { return 0; }
      x := CalcExpr(e.value, n, v, order, busy);
    }

    /** All prompts together. */
    method Prompts(ps: seq<Prop>, sym: Symbol, ghost v: Env, ghost order: seq<Symbol>, ghost busy: set<Symbol>)
      returns (tri: Tri)
      requires Setting(t, mods, v, order) && Lower(t, order, AllPropDeps(ps), Rank(order, sym), busy)
      requires Sound(t, mods, v, Snap(), busy)
      modifies this
      ensures tri == PromptValue(v, ps) && Grown(t, mods, v, old(Snap()), Snap(), busy)
      decreases Rank(order, sym), 0, 1, 0
    {
      hide Setting, Sound, Right, Rank, SameAt, Grown, AllPropDeps, Lower, Eval, Deps, Comb;
      tri := 0;
      ghost var m := Snap();
      Unchanged(t, mods, v, m, busy);
      var i := 0;
      assert ps[0..] == ps;
      CombZero(PromptValue(v, ps));
      while i < |ps|
        invariant 0 <= i <= |ps| && Sound(t, mods, v, Snap(), busy) && Grown(t, mods, v, m, Snap(), busy)
        invariant Comb(OrOp, tri, PromptValue(v, ps[i..])) == PromptValue(v, ps)
      {
        assert ps[i..][0] == ps[i] && ps[i..][1..] == ps[i + 1..];
        if ps[i].kind == Prompt {
          ghost var b := Snap();
          LowerProp(t, order, ps, i, Rank(order, sym), busy);
          var x := CalcOpt(ps[i].visible, Rank(order, sym), v, order, busy);
          GrownOn(t, mods, v, m, b, Snap(), busy);
          GrownSound(t, mods, v, b, Snap(), busy);
          CombLaws(OrOp, tri, 0, x, PromptValue(v, ps[i + 1..]));
          tri := Comb(OrOp, tri, x);
        }
        i := i + 1;
      }
      CombZero(tri);
    }

    /** The first default whose condition is not n, and that condition. */
    method FindDefault(ps: seq<Prop>, sym: Symbol, ghost v: Env, ghost order: seq<Symbol>, ghost busy: set<Symbol>)
      returns (d: Option<Prop>, x: Tri)
      requires Setting(t, mods, v, order) && Lower(t, order, AllPropDeps(ps), Rank(order, sym), busy)
      requires Sound(t, mods, v, Snap(), busy)
      modifies this
      ensures Grown(t, mods, v, old(Snap()), Snap(), busy)
      ensures d == FirstDefault(v, ps)
      ensures (d.Some? ==> x == ValueOf(v, d.value.visible) && SymbolsIn(d.value.expr) <= AllPropDeps(ps))
      decreases Rank(order, sym), 0, 1, 0
    {
      hide Setting, Sound, Right, Rank, SameAt, Grown, AllPropDeps, Lower, Eval, Deps, SymbolsIn;
      ghost var m := Snap();
      Unchanged(t, mods, v, m, busy);
      var i := 0;
      assert ps[0..] == ps;
      while i < |ps|
        invariant 0 <= i <= |ps| && Sound(t, mods, v, Snap(), busy) && Grown(t, mods, v, m, Snap(), busy)
        invariant FirstDefault(v, ps[i..]) == FirstDefault(v, ps)
      {
        assert ps[i..][0] == ps[i] && ps[i..][1..] == ps[i + 1..];
        if ps[i].kind == Default {
          ghost var b := Snap();
          LowerProp(t, order, ps, i, Rank(order, sym), busy);
          x := CalcOpt(ps[i].visible, Rank(order, sym), v, order, busy);
          GrownOn(t, mods, v, m, b, Snap(), busy);
          GrownSound(t, mods, v, b, Snap(), busy);
          if x != 0 { return Some(ps[i]), x; }
        }
        i := i + 1;
      }
      return None, 0;
    }

    /** The value of `sym` from the user, a default, and what selects it. */
    method CalcOwn(sym: Symbol, ghost v: Env, ghost order: seq<Symbol>, ghost busy: set<Symbol>, ghost a: Memo)
      requires Setting(t, mods, v, order) && sym in t.symbols && sym !in busy && Declared(sym) && sym !in write
      requires sym in curr
      requires Lower(t, order, Deps(t, sym), Rank(order, sym), busy + {sym}) && Inside(t, mods, v, a, Snap(), busy, sym)
      requires sym in visible && visible[sym] == Visibility(t, mods, v, sym)
      requires sym in selected && selected[sym] == Selected(t, mods, v, sym)
      modifies this
      ensures Inside(t, mods, v, a, Snap(), busy, sym)
      ensures sym in visible && visible[sym] == Visibility(t, mods, v, sym) && sym in selected
      ensures selected[sym] == Selected(t, mods, v, sym)
      ensures sym in curr && curr[sym] == Rule(t, mods, v, sym)
      ensures sym in write <==>
        || Visibility(t, mods, v, sym) != 0 || Selected(t, mods, v, sym) != 0
        || FirstDefault(v, InfoOf(t, sym).props).Some?
      decreases Rank(order, sym), 0, 2
    {
      hide Setting, Sound, Right, Rank, SameAt, Inside, Grown, AllPropDeps, Lower, Eval, Visibility, Selected;
      hide FirstDefault, Deps;
      var newval := 0;
      var info := InfoOf(t, sym);
      ghost var b := Snap();
      var hasUser := visible[sym] != 0 && info.user.Some?;
      if visible[sym] != 0 || (!hasUser && selected[sym] != 0) { write := write + {sym}; }
      TouchedOn(t, mods, v, a, b, Snap(), busy, sym);
      if hasUser {
        newval := Comb(AndOp, info.user.value, visible[sym]);
      } else {
        newval := FromDefault(sym, v, order, busy, a);
      }
      newval := Comb(OrOp, newval, selected[sym]);
      ghost var c := Snap();
      curr := curr[sym := Promoted(newval, IsBool(mods, sym))];
      TouchedOn(t, mods, v, a, c, Snap(), busy, sym);
    }

    /** The value a default gives, n without one. */
    method FromDefault(sym: Symbol, ghost v: Env, ghost order: seq<Symbol>, ghost busy: set<Symbol>, ghost a: Memo)
      returns (newval: Tri)
      requires Setting(t, mods, v, order) && sym in t.symbols && sym !in busy && Declared(sym) && sym in curr
      requires Lower(t, order, Deps(t, sym), Rank(order, sym), busy + {sym}) && Inside(t, mods, v, a, Snap(), busy, sym)
      requires sym in visible && sym in selected
      modifies this
      ensures Inside(t, mods, v, a, Snap(), busy, sym)
      ensures sym in visible && visible[sym] == old(visible[sym]) && sym in selected
      ensures selected[sym] == old(selected[sym])
      ensures sym in curr && curr[sym] == old(curr[sym])
      ensures var d := FirstDefault(v, InfoOf(t, sym).props);
        && newval == (if d.Some? then Comb(AndOp, ValueOf(v, d.value.expr), ValueOf(v, d.value.visible)) else 0)
        && (sym in write <==> sym in old(write) || d.Some?)
      decreases Rank(order, sym), 0, 1, 1
    {
      hide Setting, Sound, Right, Rank, SameAt, Inside, Grown, AllPropDeps, Lower, Eval, Deps, FirstDefault, SymbolsIn;
      LowerParts(t, order, sym, busy + {sym});
      newval := 0;
      ghost var b := Snap();
      InsideSound(t, mods, v, a, b, busy, sym);
      var d, x := FindDefault(InfoOf(t, sym).props, sym, v, order, busy + {sym});
      ghost var c := Snap();
      GrewOn(t, mods, v, a, b, c, busy, sym);
      if d.Some? {
        write := write + {sym};
        ghost var f := Snap();
        TouchedOn(t, mods, v, a, c, f, busy, sym);
        InsideSound(t, mods, v, a, f, busy, sym);
        LowerLess(t, order, AllPropDeps(InfoOf(t, sym).props), SymbolsIn(d.value.expr), Rank(order, sym), busy + {sym});
        var y := CalcOpt(d.value.expr, Rank(order, sym), v, order, busy + {sym});
        GrewOn(t, mods, v, a, f, Snap(), busy, sym);
        newval := Comb(AndOp, y, x);
      }
    }

    method CalcOpt(e: Option<Expr>, ghost n: nat, ghost v: Env, ghost order: seq<Symbol>, ghost busy: set<Symbol>)
      returns (r: Tri)
      requires Setting(t, mods, v, order) && Lower(t, order, SymbolsIn(e), n, busy) && Sound(t, mods, v, Snap(), busy)
      modifies this
      ensures r == ValueOf(v, e) && Grown(t, mods, v, old(Snap()), Snap(), busy)
      decreases n, 0, 0, 1
    {
      hide Setting, Sound, Right, Rank, SameAt, Grown, Lower, Eval;
      Unchanged(t, mods, v, Snap(), busy);
      if e.None? { return 2; }
      r := CalcExpr(e.value, n, v, order, busy);
    }

    /** The value of an expression, evaluating symbols as they are met. */
    method CalcExpr(e: Expr, ghost n: nat, ghost v: Env, ghost order: seq<Symbol>, ghost busy: set<Symbol>)
      returns (r: Tri)
      requires Setting(t, mods, v, order) && Lower(t, order, Symbols(e), n, busy) && Sound(t, mods, v, Snap(), busy)
      modifies this
      ensures r == Eval(v, e) && Grown(t, mods, v, old(Snap()), Snap(), busy)
      decreases n, 0, 0, 0, e
    {
      hide Setting, Sound, Right, Rank, SameAt, Grown;
      match e {
        case Sym(s) =>
          CalcValue(s, v, order, busy);
          CurrRight(t, mods, v, Snap(), s);
          r := curr[s];
        case Not(x) =>
          var y := CalcExpr(x, n, v, order, busy);
          r := 2 - y;
        case Bin(op, x, y) =>
          var a := CalcExpr(x, n, v, order, busy);
          ghost var m := Snap();
          GrownSound(t, mods, v, old(Snap()), m, busy);
          var b := CalcExpr(y, n, v, order, busy);
          GrownOn(t, mods, v, old(Snap()), m, Snap(), busy);
          r := Comb(op, a, b);
        case Cmp(eq, x, y) =>
          CalcValue(x, v, order, busy);
          ghost var m := Snap();
          GrownSound(t, mods, v, old(Snap()), m, busy);
          CalcValue(y, v, order, busy);
          GrownOn(t, mods, v, old(Snap()), m, Snap(), busy);
          LowerNotBusy(t, order, Symbols(e), n, busy);
          StillRight(t, mods, v, m, Snap(), x, busy);
          CurrRight(t, mods, v, Snap(), x);
          CurrRight(t, mods, v, Snap(), y);
          NamesRead(t, mods, v, order, x);
          NamesRead(t, mods, v, order, y);
          r := if (StringOf(x) == StringOf(y)) == eq then 2 else 0;
      }
    }

    function StringOf(s: Symbol): string
      requires Declared(s) ==> s in curr
      reads this
    {
      if Declared(s) then TriName(curr[s]) else s.name
    }
  }

  /** The evaluation of `sym` so far: nothing else that is being evaluated was touched. */
  ghost predicate Inside(t: Table, mods: Tri, v: Env, m: Memo, m': Memo, busy: set<Symbol>, sym: Symbol) {
    && Sound(t, mods, v, m', busy + {sym}) && m.valid <= m'.valid && sym in m'.valid
    && forall s :: s in busy ==> SameAt(m, m', s)
  }

  lemma {:induction false} InsideSound(t: Table, mods: Tri, v: Env, a: Memo, b: Memo, busy: set<Symbol>, sym: Symbol)
    requires Inside(t, mods, v, a, b, busy, sym)
    ensures Sound(t, mods, v, b, busy + {sym}) && sym in b.valid
  {
    hide Sound;
  }

  /** Evaluating others, meanwhile, leaves `sym` alone. */
  lemma {:induction false} GrewOn(t: Table, mods: Tri, v: Env, a: Memo, m: Memo, m': Memo, busy: set<Symbol>,
        sym: Symbol)
    requires Inside(t, mods, v, a, m, busy, sym) && Grown(t, mods, v, m, m', busy + {sym})
    ensures Inside(t, mods, v, a, m', busy, sym) && (sym in m'.write <==> sym in m.write)
    ensures sym in m.curr ==> sym in m'.curr && m'.curr[sym] == m.curr[sym]
    ensures sym in m.visible ==> sym in m'.visible && m'.visible[sym] == m.visible[sym]
    ensures sym in m.selected ==> sym in m'.selected && m'.selected[sym] == m.selected[sym]
  {
    hide Sound;
    forall s | s in busy ensures SameAt(a, m', s) { assert SameAt(a, m, s) && SameAt(m, m', s); }
    assert SameAt(m, m', sym);
  }

  ghost predicate OnlyAt(a: map<Symbol, Tri>, b: map<Symbol, Tri>, sym: Symbol) {
    forall s :: s in a && s != sym ==> s in b && b[s] == a[s]
  }

  /** Writing to the fields of `sym` itself. */
  lemma {:induction false} TouchedOn(t: Table, mods: Tri, v: Env, a: Memo, m: Memo, m': Memo, busy: set<Symbol>,
        sym: Symbol)
    requires Inside(t, mods, v, a, m, busy, sym) && sym !in busy && m'.valid == m.valid
    requires OnlyAt(m.curr, m'.curr, sym) && OnlyAt(m.visible, m'.visible, sym) && OnlyAt(m.selected, m'.selected, sym)
    requires m'.write == m.write || m'.write == m.write + {sym} || m'.write == m.write - {sym}
    ensures Inside(t, mods, v, a, m', busy, sym)
  {
    hide Visibility, Selected, Written;
    forall s | s in m.valid && s !in busy + {sym} && s in t.symbols ensures Right(t, mods, v, m', s) {
      assert Right(t, mods, v, m, s);
    }
    forall s | s in busy ensures SameAt(a, m', s) { assert SameAt(a, m, s); }
  }

  lemma {:induction false} StartSound(t: Table, mods: Tri, v: Env, m: Memo)
    requires Solution(t, mods, v) && m == Memo({YES, MOD, NO}, map[YES := 2, MOD := 1, NO := 0], map[], map[], {})
    ensures Sound(t, mods, v, m, {})
  {
    hide OwnValue, Selected;
  }

  lemma {:induction false} NotBusy(t: Table, mods: Tri, v: Env, m: Memo, sym: Symbol, order: seq<Symbol>,
        busy: set<Symbol>)
    requires Sound(t, mods, v, m, busy) && sym in t.symbols
    requires forall b :: b in busy ==> Rank(order, sym) < Rank(order, b)
    ensures sym !in busy && {YES, MOD, NO} <= m.valid && Grown(t, mods, v, m, m, busy)
    ensures (sym in m.valid ==> Right(t, mods, v, m, sym))
  {
    hide Right;
  }

  lemma {:induction false} UndeclaredDone(t: Table, mods: Tri, v: Env, order: seq<Symbol>, m: Memo, m': Memo,
        sym: Symbol, busy: set<Symbol>)
    requires Setting(t, mods, v, order) && sym in t.symbols && !Declared(sym) && sym !in {YES, MOD, NO} && sym !in busy
    requires Sound(t, mods, v, m, busy) && m' == m.(valid := m.valid + {sym}, curr := m.curr[sym := 0])
    ensures Grown(t, mods, v, m, m', busy) && Right(t, mods, v, m', sym)
  {
    hide OwnValue, Selected, Visibility, Written, Deps;
    assert v.tri(sym) == Rule(t, mods, v, sym);
    forall s | s in m.valid && s !in busy && s in t.symbols && s != sym ensures Right(t, mods, v, m', s) {
      assert Right(t, mods, v, m, s);
    }
  }

  lemma {:induction false} Started(t: Table, mods: Tri, v: Env, m: Memo, m': Memo, sym: Symbol, busy: set<Symbol>)
    requires Sound(t, mods, v, m, busy) && sym !in busy && m' == m.(valid := m.valid + {sym}, write := m.write - {sym})
    ensures Inside(t, mods, v, m, m', busy, sym)
  {
    hide Selected, Visibility, Written;
    forall s | s in m.valid && s !in busy && s in t.symbols && s != sym ensures Right(t, mods, v, m', s) {
      assert Right(t, mods, v, m, s);
    }
  }

  lemma {:induction false} Finished(t: Table, mods: Tri, v: Env, order: seq<Symbol>, m: Memo, m': Memo, sym: Symbol,
        busy: set<Symbol>)
    requires Setting(t, mods, v, order) && sym in t.symbols && Declared(sym) && Inside(t, mods, v, m, m', busy, sym)
    requires sym in m'.curr && m'.curr[sym] == Rule(t, mods, v, sym)
    requires sym in m'.visible && m'.visible[sym] == Visibility(t, mods, v, sym)
    requires sym in m'.selected && m'.selected[sym] == Selected(t, mods, v, sym)
    requires sym in m'.write <==> Written(t, mods, v, sym)
    ensures Grown(t, mods, v, m, m', busy) && sym in m'.valid && Right(t, mods, v, m', sym)
  {
    hide SameAt, Rule, Visibility, Selected, Written, Deps;
  }

  lemma {:induction false} CurrRight(t: Table, mods: Tri, v: Env, m: Memo, s: Symbol)
    requires Right(t, mods, v, m, s)
    ensures s in m.curr && m.curr[s] == v.tri(s)
  {
  }

  lemma {:induction false} GrownSound(t: Table, mods: Tri, v: Env, m: Memo, m': Memo, busy: set<Symbol>)
    requires Grown(t, mods, v, m, m', busy)
    ensures Sound(t, mods, v, m', busy)
  {
    hide Sound;
  }

  lemma {:induction false} Unchanged(t: Table, mods: Tri, v: Env, m: Memo, busy: set<Symbol>)
    requires Sound(t, mods, v, m, busy)
    ensures Grown(t, mods, v, m, m, busy)
  {
    hide Sound;
  }

  lemma {:induction false} StillRight(t: Table, mods: Tri, v: Env, m: Memo, m': Memo, s: Symbol, busy: set<Symbol>)
    requires Grown(t, mods, v, m, m', busy) && s in m.valid && s !in busy && s in t.symbols
    ensures Right(t, mods, v, m', s)
  {
    hide Right, SameAt;
  }

  lemma {:induction false} NamesRead(t: Table, mods: Tri, v: Env, order: seq<Symbol>, s: Symbol)
    requires Setting(t, mods, v, order) && s in t.symbols
    ensures v.str(s) == if Declared(s) then TriName(v.tri(s)) else s.name
  {
    hide Rule, Closed, Topological;
    assert Readable(v, s);
  }

  lemma {:induction false} LowerLess(t: Table, order: seq<Symbol>, names: set<Symbol>, some: set<Symbol>, n: nat,
        busy: set<Symbol>)
    requires Lower(t, order, names, n, busy) && some <= names
    ensures Lower(t, order, some, n, busy)
  {
    hide Rank;
  }

  lemma {:induction false} LowerParts(t: Table, order: seq<Symbol>, s: Symbol, busy: set<Symbol>)
    requires Lower(t, order, Deps(t, s), Rank(order, s), busy)
    ensures Lower(t, order, AllPropDeps(InfoOf(t, s).props), Rank(order, s), busy)
    ensures Lower(t, order, SymbolsIn(InfoOf(t, s).revDep), Rank(order, s), busy)
  {
    hide Lower, Rank, AllPropDeps, SymbolsIn;
    LowerLess(t, order, Deps(t, s), AllPropDeps(InfoOf(t, s).props), Rank(order, s), busy);
    LowerLess(t, order, Deps(t, s), SymbolsIn(InfoOf(t, s).revDep), Rank(order, s), busy);
  }

  lemma {:induction false} LowerProp(t: Table, order: seq<Symbol>, ps: seq<Prop>, i: int, n: nat, busy: set<Symbol>)
    requires Lower(t, order, AllPropDeps(ps), n, busy) && 0 <= i < |ps| && ps[i].kind != Select
    ensures Lower(t, order, SymbolsIn(ps[i].visible), n, busy)
    ensures ps[i].kind == Default ==> SymbolsIn(ps[i].expr) <= AllPropDeps(ps)
  {
    hide Lower, Rank, AllPropDeps, SymbolsIn;
    PropDepsIn(ps, i);
    LowerLess(t, order, AllPropDeps(ps), SymbolsIn(ps[i].visible), n, busy);
  }

  lemma {:induction false} LowerNotBusy(t: Table, order: seq<Symbol>, names: set<Symbol>, n: nat, busy: set<Symbol>)
    requires Lower(t, order, names, n, busy)
    ensures names !! busy && names <= t.symbols
  {
    hide Rank;
  }

  lemma {:induction false} CombZero(x: Tri)
    ensures Comb(OrOp, 0, x) == x && Comb(OrOp, x, 0) == x
  {
  }

  /** The dependency check followed by evaluations in any order: no error means a unique solution, and its values. */
  method Evaluate(t: Table, mods: Tri, symbols: seq<Symbol>, requests: seq<Symbol>)
    returns (errors: nat, values: seq<Tri>)
    requires Plain(t) && Hashed(t, symbols) && Members(requests) <= t.symbols
    ensures errors == 0 <==> !Cyclic(t)
    ensures errors == 0 ==> |values| == |requests| && (exists v :: Solution(t, mods, v))
    ensures errors == 0 ==> forall v, i :: Solution(t, mods, v) && 0 <= i < |requests| ==>
      values[i] == v.tri(requests[i])
  {
    hide Solution, Setting, Sound, Right, Deps, Rank, SameAt, Grown, Topological, Cyclic, SolveUpTo, Members;
    var c := CheckAll(t, symbols, 0);
    errors, values := c.errors, [];
    if errors > 0 { return; }
    ghost var order := Completed(t, c.order);
    ghost var v := SolveUpTo(t, mods, order, |order|);
    SolutionExists(t, mods, order);
    IsSetting(t, mods, v, order);
    var e := new Evaluator(t, mods);
    var i := 0;
    while i < |requests|
      invariant 0 <= i <= |requests| && |values| == i && fresh(e) && e.t == t && e.mods == mods
      invariant Sound(t, mods, v, e.Snap(), {})
      invariant forall j :: 0 <= j < i ==> values[j] == v.tri(requests[j])
    {
      ghost var m := e.Snap();
      MemberAt(requests, i);
      e.CalcValue(requests[i], v, order, {});
      GrownSound(t, mods, v, m, e.Snap(), {});
      CurrRight(t, mods, v, e.Snap(), requests[i]);
      values := values + [e.curr[requests[i]]];
      i := i + 1;
    }
    forall w, j | Solution(t, mods, w) && 0 <= j < |requests| ensures values[j] == w.tri(requests[j]) {
      MemberAt(requests, j);
      OnlyOne(t, mods, order, v, w, requests[j]);
    }
  }

  lemma {:induction false} IsSetting(t: Table, mods: Tri, v: Env, order: seq<Symbol>)
    requires Plain(t) && Solution(t, mods, v) && Topological(t, order) && Members(order) == t.symbols
    ensures Setting(t, mods, v, order)
  {
    hide Solution, Topological, Members, Plain;
  }

  lemma {:induction false} OnlyOne(t: Table, mods: Tri, order: seq<Symbol>, v: Env, w: Env, s: Symbol)
    requires Topological(t, order) && Members(order) == t.symbols && Solution(t, mods, v) && Solution(t, mods, w)
    requires s in t.symbols
    ensures v.tri(s) == w.tri(s)
  {
    hide Solution, Topological, Deps;
    assert s in Members(order);
    var i :| 0 <= i < |order| && order[i] == s;
    SolutionUnique(t, mods, order, v, w, i);
  }
}
