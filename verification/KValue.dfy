/**
 The values of boolean and tristate symbols: the equations they have to meet,
 their solution, and the memoised evaluation (kconfig/symbol.c, kconfig/expr.c).
 */
module KValues {
  import opened Options
  import opened KExprs
  import opened KSymbols

  function ValueOf(v: Env, e: Option<Expr>): Tri { if e.None? then 2 else Eval(v, e.value) }

  function PromptValue(v: Env, ps: seq<Prop>): Tri {
    if ps == [] then 0
    else if ps[0].kind == Prompt then Comb(OrOp, ValueOf(v, ps[0].visible), PromptValue(v, ps[1..]))
    else PromptValue(v, ps[1..])
  }

  /** The first default whose condition is not n. */
  function FirstDefault(v: Env, ps: seq<Prop>): Option<Prop> {
    if ps == [] then None
    else if ps[0].kind == Default && ValueOf(v, ps[0].visible) != 0 then Some(ps[0])
    else FirstDefault(v, ps[1..])
  }

  /** Without modules a tristate symbol is a boolean. */
  function IsBool(mods: Tri, s: Symbol): bool { TypeOf(s) == BooleanT || (TypeOf(s) == TristateT && mods == 0) }

  function Promoted(x: Tri, isBool: bool): Tri { if x == 1 && isBool then 2 else x }

  function Visibility(t: Table, mods: Tri, v: Env, s: Symbol): Tri {
    Promoted(PromptValue(v, InfoOf(t, s).props), TypeOf(s) != TristateT || mods == 0)
  }

  /** What other symbols select it to. */
  function Selected(t: Table, mods: Tri, v: Env, s: Symbol): Tri {
    var e := InfoOf(t, s).revDep;
    Promoted(if e.None? then 0 else Eval(v, e.value), IsBool(mods, s))
  }

  function UsesUser(t: Table, mods: Tri, v: Env, s: Symbol): bool {
    Visibility(t, mods, v, s) != 0 && InfoOf(t, s).user.Some?
  }

  function OwnValue(t: Table, mods: Tri, v: Env, s: Symbol): Tri {
    var d := FirstDefault(v, InfoOf(t, s).props);
    if UsesUser(t, mods, v, s) then Comb(AndOp, InfoOf(t, s).user.value, Visibility(t, mods, v, s))
    else if d.Some? then Comb(AndOp, ValueOf(v, d.value.expr), ValueOf(v, d.value.visible))
    else 0
  }

  /** Constants and undefined symbols have no type. */
  predicate Declared(s: Symbol) { TypeOf(s) != UnknownT }

  /** The value a symbol has to have, given the values of the others. */
  function Rule(t: Table, mods: Tri, v: Env, s: Symbol): Tri {
    if !Declared(s) then (if s == YES then 2 else if s == MOD then 1 else 0)
    else Promoted(Comb(OrOp, OwnValue(t, mods, v, s), Selected(t, mods, v, s)), IsBool(mods, s))
  }

  /** Whether the symbol is written to the configuration file. */
  function Written(t: Table, mods: Tri, v: Env, s: Symbol): bool {
    && !InfoOf(t, s).auto
    && (Visibility(t, mods, v, s) != 0 || Selected(t, mods, v, s) != 0 || FirstDefault(v, InfoOf(t, s).props).Some?)
  }

  /** No string, int or hex symbols. */
  ghost predicate Plain(t: Table) {
    Closed(t) && forall s :: s in t.symbols ==> TypeOf(s) != OtherT
  }

  ghost predicate Readable(v: Env, s: Symbol) {
    v.str(s) == if Declared(s) then TriName(v.tri(s)) else s.name
  }

  /** Every symbol has the value its equation asks for. */
  ghost predicate Solution(t: Table, mods: Tri, v: Env) {
    forall s :: s in t.symbols ==> v.tri(s) == Rule(t, mods, v, s) && Readable(v, s)
  }

  ghost predicate Agree(v: Env, w: Env, names: set<Symbol>) {
    forall s :: s in names ==> v.tri(s) == w.tri(s) && v.str(s) == w.str(s)
  }

  lemma {:induction false} EvalFrame(v: Env, w: Env, e: Expr)
    requires Agree(v, w, Symbols(e))
    ensures Eval(v, e) == Eval(w, e)
  {
    match e
    case Sym(s) => assert s in Symbols(e);
    case Cmp(_, a, b) => assert a in Symbols(e) && b in Symbols(e);
    case Not(x) => EvalFrame(v, w, x);
    case Bin(_, l, r) =>
      EvalFrame(v, w, l);
      EvalFrame(v, w, r);
  }

  lemma {:induction false} ValueFrame(v: Env, w: Env, e: Option<Expr>)
    requires Agree(v, w, SymbolsIn(e))
    ensures ValueOf(v, e) == ValueOf(w, e)
  {
    if e.Some? { EvalFrame(v, w, e.value); }
  }

  lemma {:induction false} PropsFrame(v: Env, w: Env, ps: seq<Prop>)
    requires Agree(v, w, AllPropDeps(ps))
    ensures PromptValue(v, ps) == PromptValue(w, ps) && FirstDefault(v, ps) == FirstDefault(w, ps)
    ensures var d := FirstDefault(v, ps);
      d.Some? ==>
        && ValueOf(v, d.value.expr) == ValueOf(w, d.value.expr)
        && ValueOf(v, d.value.visible) == ValueOf(w, d.value.visible)
  {
    hide Eval;
    if ps != [] {
      PropsFrame(v, w, ps[1..]);
      if ps[0].kind != Select { ValueFrame(v, w, ps[0].visible); }
      if ps[0].kind == Default { ValueFrame(v, w, ps[0].expr); }
    }
  }

  /** A symbol's equation speaks of what it depends on and of nothing else. */
  lemma {:induction false} RuleFrame(t: Table, mods: Tri, v: Env, w: Env, s: Symbol)
    requires Agree(v, w, Deps(t, s))
    ensures Rule(t, mods, v, s) == Rule(t, mods, w, s)
  {
    hide Eval;
    PropsFrame(v, w, InfoOf(t, s).props);
    ValueFrame(v, w, InfoOf(t, s).revDep);
  }

  function TriWith(v: Env, s: Symbol, x: Tri, q: Symbol): Tri { if q == s then x else v.tri(q) }

  function StrWith(v: Env, s: Symbol, x: Tri, q: Symbol): string {
    if q != s then v.str(q) else if Declared(s) then TriName(x) else s.name
  }

  function Updated(v: Env, s: Symbol, x: Tri): Env {
    Env((q: Symbol) => TriWith(v, s, x, q), (q: Symbol) => StrWith(v, s, x, q))
  }

  /** The equations solved one symbol after the other. */
  function SolveUpTo(t: Table, mods: Tri, order: seq<Symbol>, n: nat): Env
    requires n <= |order|
  {
    if n == 0 then Env(_ => 0, _ => "")
    else
      var v := SolveUpTo(t, mods, order, n - 1);
      Updated(v, order[n - 1], Rule(t, mods, v, order[n - 1]))
  }

  lemma {:induction false} SolvedUpTo(t: Table, mods: Tri, order: seq<Symbol>, n: nat, i: int)
    requires Topological(t, order) && 0 <= i < n <= |order|
    ensures var v := SolveUpTo(t, mods, order, n);
      v.tri(order[i]) == Rule(t, mods, v, order[i]) && Readable(v, order[i])
    decreases n
  {
    hide Rule, Deps, Readable;
    var v, s := SolveUpTo(t, mods, order, n - 1), order[n - 1];
    var w := Updated(v, s, Rule(t, mods, v, s));
    forall q | q in order[..n - 1]
      ensures w.tri(q) == v.tri(q) && w.str(q) == v.str(q) && v.tri(q) == Rule(t, mods, v, q) && Readable(v, q)
    {
      var j :| 0 <= j < n - 1 && order[j] == q;
      SolvedUpTo(t, mods, order, n - 1, j);
      UpdateAgain(t, mods, v, s, q);
    }
    assert Agree(v, w, Deps(t, order[i])) by {
      forall d | d in Deps(t, order[i]) ensures d in order[..n - 1] {
        assert d in order[..i];
      }
    }
    RuleFrame(t, mods, v, w, order[i]);
    SolvedLast(t, mods, v, s, order[i], i == n - 1 || order[i] == s);
    if i < n - 1 { assert order[i] in order[..n - 1]; }
  }

  lemma {:induction false} UpdateAgain(t: Table, mods: Tri, v: Env, s: Symbol, q: Symbol)
    requires v.tri(q) == Rule(t, mods, v, q) && Readable(v, q)
    ensures var w := Updated(v, s, Rule(t, mods, v, s)); w.tri(q) == v.tri(q) && w.str(q) == v.str(q)
  {
    hide Rule;
  }

  lemma {:induction false} SolvedLast(t: Table, mods: Tri, v: Env, s: Symbol, q: Symbol, last: bool)
    requires last <==> q == s
    ensures var w := Updated(v, s, Rule(t, mods, v, s));
      && (last ==> w.tri(q) == Rule(t, mods, v, q) && Readable(w, q))
      && (!last ==> w.tri(q) == v.tri(q) && (Readable(v, q) ==> Readable(w, q)))
  {
    hide Rule;
  }

  /** A table without cycles has a solution. */
  lemma {:induction false} SolutionExists(t: Table, mods: Tri, order: seq<Symbol>)
    requires Topological(t, order) && Members(order) == t.symbols
    ensures Solution(t, mods, SolveUpTo(t, mods, order, |order|))
  {
    hide Rule, Deps, SolveUpTo, Readable;
    forall s | s in t.symbols
      ensures var v := SolveUpTo(t, mods, order, |order|); v.tri(s) == Rule(t, mods, v, s) && Readable(v, s)
    {
      assert s in Members(order);
      var i :| 0 <= i < |order| && order[i] == s;
      SolvedUpTo(t, mods, order, |order|, i);
    }
  }

  /** And only one. */
  lemma {:induction false} SolutionUnique(t: Table, mods: Tri, order: seq<Symbol>, v: Env, w: Env, i: int)
    requires Topological(t, order) && Members(order) == t.symbols && Solution(t, mods, v) && Solution(t, mods, w)
    requires 0 <= i < |order|
    ensures v.tri(order[i]) == w.tri(order[i]) && v.str(order[i]) == w.str(order[i])
    decreases i
  {
    hide Rule, Deps;
    var s := order[i];
    assert s in Members(order);
    assert Agree(v, w, Deps(t, s)) by {
      forall d | d in Deps(t, s) ensures v.tri(d) == w.tri(d) && v.str(d) == w.str(d) {
        assert d in order[..i];
        var j :| 0 <= j < i && order[j] == d;
        SolutionUnique(t, mods, order, v, w, j);
      }
    }
    RuleFrame(t, mods, v, w, s);
    assert Readable(v, s) && Readable(w, s);
  }

  /** A solution never falls below what selects a symbol, and no boolean is m. */
  lemma {:induction false} SolutionBounds(t: Table, mods: Tri, v: Env, s: Symbol)
    requires Solution(t, mods, v) && s in t.symbols && Declared(s)
    ensures v.tri(s) >= Selected(t, mods, v, s) && (IsBool(mods, s) ==> v.tri(s) != 1)
  {
    hide OwnValue, Eval, InfoOf;
    assert v.tri(s) == Rule(t, mods, v, s);
  }
}
