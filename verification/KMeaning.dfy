/**
 What dependencies and values of symbols mean, in terms of the positions of
 properties (kconfig/symbol.c).
 */
module KMeanings {
  import opened Options
  import opened KExprs
  import opened KSymbols
  import opened KValues

  /** `d` stands somewhere in an expression. */
  predicate Occurs(d: Symbol, e: Expr) {
    match e
    case Sym(s) => d == s
    case Cmp(_, a, b) => d == a || d == b
    case Not(x) => Occurs(d, x)
    case Bin(_, l, r) => Occurs(d, l) || Occurs(d, r)
  }

  predicate OccursIn(d: Symbol, e: Option<Expr>) { e.Some? && Occurs(d, e.value) }

  lemma {:induction false} OccursIs(d: Symbol, e: Expr)
    ensures d in Symbols(e) <==> Occurs(d, e)
  {
    match e
    case Sym(_) =>
    case Cmp(_, _, _) =>
    case Not(x) => OccursIs(d, x);
    case Bin(_, l, r) =>
      OccursIs(d, l);
      OccursIs(d, r);
  }

  lemma {:induction false} OccursInIs(d: Symbol, e: Option<Expr>)
    ensures d in SymbolsIn(e) <==> OccursIn(d, e)
  {
    if e.Some? { OccursIs(d, e.value); }
  }

  /**
   Property `p` makes its symbol depend on `d`: through its condition, unless it is a select, or as a
   default's value.
   */
  predicate Involves(p: Prop, d: Symbol) {
    (p.kind != Select && OccursIn(d, p.visible)) || (p.kind == Default && OccursIn(d, p.expr))
  }

  lemma {:induction false} PropsInvolve(ps: seq<Prop>, d: Symbol)
    ensures d in AllPropDeps(ps) <==> exists k :: 0 <= k < |ps| && Involves(ps[k], d)
  {
    if ps != [] {
      OccursInIs(d, ps[0].visible);
      OccursInIs(d, ps[0].expr);
      PropsInvolve(ps[1..], d);
      assert d in PropDeps(ps[0]) <==> Involves(ps[0], d);
      if k :| 0 <= k < |ps| && Involves(ps[k], d) {
        if k > 0 { assert ps[1..][k - 1] == ps[k]; }
      }
      if k :| 0 <= k < |ps[1..]| && Involves(ps[1..][k], d) { assert ps[k + 1] == ps[1..][k]; }
    }
  }

  /** What a symbol depends on, position by position. */
  lemma {:induction false} DepsAre(t: Table, s: Symbol, d: Symbol)
    ensures var i := InfoOf(t, s);
      d in Deps(t, s) <==> OccursIn(d, i.revDep) || exists k :: 0 <= k < |i.props| && Involves(i.props[k], d)
  {
    hide InfoOf, Involves, OccursIn;
    OccursInIs(d, InfoOf(t, s).revDep);
    PropsInvolve(InfoOf(t, s).props, d);
  }

  /** The properties that are no selects. */
  function Unselecting(ps: seq<Prop>): seq<Prop> {
    if ps == [] then [] else (if ps[0].kind == Select then [] else [ps[0]]) + Unselecting(ps[1..])
  }

  /** The tables differ in selects only. */
  ghost predicate SameButSelects(t: Table, t': Table) {
    t.symbols == t'.symbols && forall s :: s in t.symbols ==>
      && InfoOf(t, s).revDep == InfoOf(t', s).revDep
      && Unselecting(InfoOf(t, s).props) == Unselecting(InfoOf(t', s).props)
  }

  lemma {:induction false} UnselectingDeps(ps: seq<Prop>)
    ensures AllPropDeps(ps) == AllPropDeps(Unselecting(ps))
  {
    if ps != [] {
      UnselectingDeps(ps[1..]);
      if ps[0].kind == Select {
        assert [] + Unselecting(ps[1..]) == Unselecting(ps[1..]);
      } else {
        assert ([ps[0]] + Unselecting(ps[1..]))[1..] == Unselecting(ps[1..]);
      }
    }
  }

  /** Selects have no part in recursive dependencies; only the reverse dependencies they lead to have. */
  lemma {:induction false} SelectsDoNotCount(t: Table, t': Table)
    requires SameButSelects(t, t')
    ensures (forall s :: s in t.symbols ==> Deps(t, s) == Deps(t', s)) && (Cyclic(t) <==> Cyclic(t'))
  {
    hide AllPropDeps, Unselecting, SymbolsIn, InfoOf;
    forall s | s in t.symbols ensures Deps(t, s) == Deps(t', s) {
      UnselectingDeps(InfoOf(t, s).props);
      UnselectingDeps(InfoOf(t', s).props);
    }
    SameCycles(t, t');
    SameCycles(t', t);
  }

  lemma {:induction false} SameCycles(t: Table, t': Table)
    requires t.symbols == t'.symbols && forall s :: s in t.symbols ==> Deps(t, s) == Deps(t', s)
    ensures Cyclic(t) ==> Cyclic(t')
  {
    hide Deps;
    if Cyclic(t) {
      var c :| IsCycle(t, c);
      assert IsCycle(t', c);
    }
  }

  lemma {:induction false} OnlyProp(p: Prop)
    ensures AllPropDeps([p]) == PropDeps(p)
  {
    assert [p][1..] == [] && [p][0] == p;
  }

  const A := Var("A", BooleanT)
  const B := Var("B", BooleanT)
  const C := Var("C", BooleanT)

  /** A selects B if C, and the prompt of C depends on A: accepted. */
  lemma {:induction false} SelectAccepted(b: Info)
    requires b.props == [] && b.revDep == Some(Bin(AndOp, Sym(A), Sym(C)))
    ensures var a := Info(None, [Prop(Select, Some(Sym(C)), Some(Sym(B)))], None, false);
      var c := Info(None, [Prop(Prompt, Some(Sym(A)), None)], None, false);
      !Cyclic(Table({A, B, C}, map[A := a, B := b, C := c]))
  {
    var a := Info(None, [Prop(Select, Some(Sym(C)), Some(Sym(B)))], None, false);
    var c := Info(None, [Prop(Prompt, Some(Sym(A)), None)], None, false);
    var t := Table({A, B, C}, map[A := a, B := b, C := c]);
    assert "A"[0] != "B"[0] && "A"[0] != "C"[0] && "B"[0] != "C"[0];
    assert InfoOf(t, A) == a && InfoOf(t, B) == b && InfoOf(t, C) == c;
    OnlyProp(a.props[0]);
    OnlyProp(c.props[0]);
    assert Deps(t, A) == {};
    assert Deps(t, C) == {A};
    assert Deps(t, B) == {A, C};
    var order := [A, C, B];
    assert order[..0] == [] && order[..1] == [A] && order[..2] == [A, C];
    Ordered(t, order);
  }

  /** A missing condition is y. */
  function Condition(v: Env, e: Option<Expr>): Tri {
    match e
    case None => 2
    case Some(x) => Eval(v, x)
  }

  /** `top` is the largest condition of a prompt, n without a prompt. */
  ghost predicate IsTop(v: Env, ps: seq<Prop>, top: Tri) {
    && (top == 0 || exists k :: 0 <= k < |ps| && ps[k].kind == Prompt && Condition(v, ps[k].visible) == top)
    && (forall k :: 0 <= k < |ps| && ps[k].kind == Prompt ==> Condition(v, ps[k].visible) <= top)
  }

  /** The default at position `k` is the first whose condition is not n. */
  ghost predicate IsFirstDefault(v: Env, ps: seq<Prop>, k: int) {
    && 0 <= k < |ps| && ps[k].kind == Default && Condition(v, ps[k].visible) != 0
    && (forall j :: 0 <= j < k && ps[j].kind == Default ==> Condition(v, ps[j].visible) == 0)
  }

  ghost predicate NoDefault(v: Env, ps: seq<Prop>) {
    forall j :: 0 <= j < |ps| && ps[j].kind == Default ==> Condition(v, ps[j].visible) == 0
  }

  /** What selects the symbol. */
  function SelectedTo(t: Table, v: Env, s: Symbol): Tri {
    match InfoOf(t, s).revDep
    case None => 0
    case Some(e) => Eval(v, e)
  }

  function Least(x: Tri, y: Tri): Tri { if x < y then x else y }

  function Most(x: Tri, y: Tri): Tri { if x < y then y else x }

  /** Only a tristate symbol can be m, and only with modules. */
  predicate CanBeM(mods: Tri, s: Symbol) { TypeOf(s) == TristateT && mods != 0 }

  /** For other symbols, m counts as y. */
  function Rounded(x: Tri, m: bool): Tri { if x == 1 && !m then 2 else x }

  lemma {:induction false} TopIs(v: Env, ps: seq<Prop>, top: Tri)
    requires IsTop(v, ps, top)
    ensures PromptValue(v, ps) == top
  {
    hide Eval;
    if ps != [] {
      var rest := PromptValue(v, ps[1..]);
      RestTop(v, ps[1..]);
      assert forall k :: 0 <= k < |ps[1..]| ==> ps[1..][k] == ps[k + 1];
      if top != 0 {
        var k :| 0 <= k < |ps| && ps[k].kind == Prompt && Condition(v, ps[k].visible) == top;
        if k > 0 { assert ps[1..][k - 1] == ps[k]; }
      }
      if rest != 0 {
        var k :| 0 <= k < |ps[1..]| && ps[1..][k].kind == Prompt && Condition(v, ps[1..][k].visible) == rest;
        assert ps[k + 1] == ps[1..][k];
      }
    }
  }

  lemma {:induction false} RestTop(v: Env, ps: seq<Prop>)
    ensures IsTop(v, ps, PromptValue(v, ps))
  {
    hide Eval;
    if ps != [] {
      RestTop(v, ps[1..]);
      var r := PromptValue(v, ps[1..]);
      forall k | 0 <= k < |ps| && ps[k].kind == Prompt ensures Condition(v, ps[k].visible) <= PromptValue(v, ps) {
        if k > 0 { assert ps[1..][k - 1] == ps[k]; }
      }
      if r != 0 {
        var k :| 0 <= k < |ps[1..]| && ps[1..][k].kind == Prompt && Condition(v, ps[1..][k].visible) == r;
        assert ps[k + 1] == ps[1..][k];
      }
    }
  }

  lemma {:induction false} DefaultIs(v: Env, ps: seq<Prop>, k: int)
    requires IsFirstDefault(v, ps, k)
    ensures FirstDefault(v, ps) == Some(ps[k])
  {
    hide Eval;
    if k > 0 {
      assert ps[1..][k - 1] == ps[k] && forall j :: 0 <= j < k - 1 ==> ps[1..][j] == ps[j + 1];
      DefaultIs(v, ps[1..], k - 1);
    }
  }

  lemma {:induction false} NoDefaultIs(v: Env, ps: seq<Prop>)
    requires NoDefault(v, ps)
    ensures FirstDefault(v, ps) == None
  {
    hide Eval;
    if ps != [] {
      assert forall j :: 0 <= j < |ps[1..]| ==> ps[1..][j] == ps[j + 1];
      NoDefaultIs(v, ps[1..]);
    }
  }

  /**
   A visible symbol with a user value: that value, capped by the largest prompt condition, unless more is
   selected.
   */
  lemma {:induction false} UserValueCapped(t: Table, mods: Tri, v: Env, s: Symbol, top: Tri)
    requires Solution(t, mods, v) && s in t.symbols && Declared(s) && TypeOf(s) != OtherT
    requires IsTop(v, InfoOf(t, s).props, top) && top != 0 && InfoOf(t, s).user.Some?
    ensures var m := CanBeM(mods, s);
      v.tri(s) == Rounded(Most(Least(InfoOf(t, s).user.value, Rounded(top, m)), SelectedTo(t, v, s)), m)
  {
    hide Eval, InfoOf, IsTop;
    TopIs(v, InfoOf(t, s).props, top);
    assert v.tri(s) == Rule(t, mods, v, s);
  }

  /** So with modules and nothing selecting it, a tristate symbol is its user value or, if that is less, the cap. */
  lemma {:induction false} TristateCapped(t: Table, mods: Tri, v: Env, s: Symbol, top: Tri)
    requires Solution(t, mods, v) && s in t.symbols && TypeOf(s) == TristateT && mods != 0 && SelectedTo(t, v, s) == 0
    requires IsTop(v, InfoOf(t, s).props, top) && top != 0 && InfoOf(t, s).user.Some?
    ensures v.tri(s) <= top && (top == 2 ==> v.tri(s) == InfoOf(t, s).user.value)
    ensures v.tri(s) == Least(InfoOf(t, s).user.value, top)
  {
    hide Solution, IsTop, InfoOf, SelectedTo;
    UserValueCapped(t, mods, v, s, top);
  }

  /** The user value is not asked for: without a user value or without a visible prompt. */
  ghost predicate OnItsOwn(t: Table, v: Env, s: Symbol) {
    InfoOf(t, s).user.None? || IsTop(v, InfoOf(t, s).props, 0)
  }

  /** Then the first default with a condition other than n counts, value and condition together, or nothing. */
  lemma {:induction false} DefaultCounts(t: Table, mods: Tri, v: Env, s: Symbol, k: int)
    requires Solution(t, mods, v) && s in t.symbols && Declared(s) && TypeOf(s) != OtherT && OnItsOwn(t, v, s)
    requires IsFirstDefault(v, InfoOf(t, s).props, k)
    ensures var d, m := InfoOf(t, s).props[k], CanBeM(mods, s);
      v.tri(s) == Rounded(Most(Least(Condition(v, d.expr), Condition(v, d.visible)), SelectedTo(t, v, s)), m)
  {
    hide Eval, InfoOf, IsTop, IsFirstDefault;
    DefaultIs(v, InfoOf(t, s).props, k);
    if InfoOf(t, s).user.Some? { TopIs(v, InfoOf(t, s).props, 0); }
    assert v.tri(s) == Rule(t, mods, v, s);
  }

  lemma {:induction false} NothingCounts(t: Table, mods: Tri, v: Env, s: Symbol)
    requires Solution(t, mods, v) && s in t.symbols && Declared(s) && TypeOf(s) != OtherT && OnItsOwn(t, v, s)
    requires NoDefault(v, InfoOf(t, s).props)
    ensures v.tri(s) == Rounded(SelectedTo(t, v, s), CanBeM(mods, s))
  {
    hide Eval, InfoOf, IsTop, NoDefault;
    NoDefaultIs(v, InfoOf(t, s).props);
    if InfoOf(t, s).user.Some? { TopIs(v, InfoOf(t, s).props, 0); }
    assert v.tri(s) == Rule(t, mods, v, s);
  }

  /** The same table with another user value of `s`. */
  function WithUser(t: Table, s: Symbol, u: Option<Tri>): Table {
    t.(info := t.info[s := InfoOf(t, s).(user := u)])
  }

  /** Without a visible prompt the user value has no influence. */
  lemma {:induction false} UserValueUnseen(t: Table, mods: Tri, v: Env, s: Symbol, u: Option<Tri>)
    requires IsTop(v, InfoOf(t, s).props, 0)
    ensures Solution(t, mods, v) <==> Solution(WithUser(t, s, u), mods, v)
  {
    hide Eval, IsTop, PromptValue, FirstDefault;
    var t' := WithUser(t, s, u);
    TopIs(v, InfoOf(t, s).props, 0);
    forall q ensures Rule(t, mods, v, q) == Rule(t', mods, v, q) {
      if q != s { assert InfoOf(t', q) == InfoOf(t, q); }
    }
  }

  /** A symbol is written exactly if something makes it visible, selects it or sets it by default. */
  lemma {:induction false} WrittenIs(t: Table, mods: Tri, v: Env, s: Symbol)
    requires Declared(s)
    ensures var i := InfoOf(t, s);
      var asked := !IsTop(v, i.props, 0) || SelectedTo(t, v, s) != 0 || !NoDefault(v, i.props);
      Written(t, mods, v, s) <==> asked && !i.auto
  {
    hide Eval, InfoOf, IsTop, NoDefault;
    var ps := InfoOf(t, s).props;
    RestTop(v, ps);
    if IsTop(v, ps, 0) { TopIs(v, ps, 0); }
    if NoDefault(v, ps) { NoDefaultIs(v, ps); } else { SomeDefault(v, ps); }
  }

  lemma {:induction false} SomeDefault(v: Env, ps: seq<Prop>)
    requires !NoDefault(v, ps)
    ensures FirstDefault(v, ps).Some?
  {
    hide Eval;
    var j :| 0 <= j < |ps| && ps[j].kind == Default && Condition(v, ps[j].visible) != 0;
    if j > 0 {
      assert ps[1..][j - 1] == ps[j];
      SomeDefault(v, ps[1..]);
    }
  }

  /** y, m and n are themselves, and a symbol without a declaration is n; all of them read as their names. */
  lemma {:induction false} UndefinedIs(t: Table, mods: Tri, v: Env, s: Symbol)
    requires Solution(t, mods, v) && s in t.symbols && !Declared(s)
    ensures v.str(s) == s.name
    ensures v.tri(s) == if s == Const("y") then 2 else if s == Const("m") then 1 else 0
  {
    hide InfoOf, Visibility, Selected, OwnValue;
    assert v.tri(s) == Rule(t, mods, v, s);
  }
}
