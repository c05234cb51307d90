/**
 Configuration symbols, what they depend on, and the search for recursive
 dependencies (kconfig/symbol.c).
 */
module KSymbols {
  import opened Options
  import opened KExprs

  datatype PropKind = Prompt | Default | Select | OtherKind

  datatype Prop = Prop(kind: PropKind, visible: Option<Expr>, expr: Option<Expr>)

  datatype Info = Info(revDep: Option<Expr>, props: seq<Prop>, user: Option<Tri>, auto: bool)

  /** All symbols and what is known of them; constants are symbols without properties. */
  datatype Table = Table(symbols: set<Symbol>, info: map<Symbol, Info>)

  const KEYWORDS := {YES, MOD, NO}

  function InfoOf(t: Table, s: Symbol): Info {
    if s in t.info then t.info[s] else Info(None, [], None, false)
  }

  function SymbolsIn(e: Option<Expr>): set<Symbol> { if e.Some? then Symbols(e.value) else {} }

  /** Of a select only the selected symbol depends on anything; a default counts with its value. */
  function PropDeps(p: Prop): set<Symbol> {
    if p.kind == Select then {} else SymbolsIn(p.visible) + if p.kind == Default then SymbolsIn(p.expr) else {}
  }

  function AllPropDeps(ps: seq<Prop>): set<Symbol> {
    if ps == [] then {} else PropDeps(ps[0]) + AllPropDeps(ps[1..])
  }

  /** The symbols `s` depends on. */
  function Deps(t: Table, s: Symbol): set<Symbol> {
    var i := InfoOf(t, s);
    SymbolsIn(i.revDep) + AllPropDeps(i.props)
  }

  ghost predicate Closed(t: Table) {
    forall s, d :: s in t.symbols && d in Deps(t, s) ==> d in t.symbols
  }

  /** Each depends on the next, and the last on the first. */
  ghost predicate IsCycle(t: Table, c: seq<Symbol>) {
    && c != [] && (forall i :: 0 <= i < |c| ==> c[i] in t.symbols)
    && (forall i :: 0 <= i < |c| - 1 ==> c[i + 1] in Deps(t, c[i]))
    && c[0] in Deps(t, c[|c| - 1])
  }

  ghost predicate Cyclic(t: Table) { exists c :: IsCycle(t, c) }

  /** In `order` everything comes after what it depends on. */
  ghost predicate Topological(t: Table, order: seq<Symbol>) {
    forall i, d :: 0 <= i < |order| && d in Deps(t, order[i]) ==> d in order[..i]
  }

  /** A complete order rules out cycles. */
  lemma {:induction false} OrderNoCycle(t: Table, order: seq<Symbol>, c: seq<Symbol>, n: nat, k: int)
    requires Topological(t, order) && IsCycle(t, c) && n <= |order| && 0 <= k < |c|
    ensures c[k] !in order[..n]
    decreases n
  {
    if c[k] in order[..n] {
      var i :| 0 <= i < n && order[i] == c[k];
      var next := if k == |c| - 1 then 0 else k + 1;
      assert c[next] in Deps(t, order[i]);
      assert c[next] in order[..i];
      OrderNoCycle(t, order, c, i, next);
    }
  }

  lemma {:induction false} Ordered(t: Table, order: seq<Symbol>)
    requires Topological(t, order) && forall s :: s in t.symbols ==> s in order
    ensures !Cyclic(t)
  {
    forall c ensures !IsCycle(t, c) {
      if IsCycle(t, c) {
        assert order[..|order|] == order;
        OrderNoCycle(t, order, c, |order|, 0);
      }
    }
  }

  lemma {:induction false} PropDepsIn(ps: seq<Prop>, i: int)
    requires 0 <= i < |ps|
    ensures PropDeps(ps[i]) <= AllPropDeps(ps)
  {
    if i > 0 { PropDepsIn(ps[1..], i - 1); }
  }

  lemma {:induction false} PropsTake(ps: seq<Prop>, i: int)
    requires 0 <= i < |ps|
    ensures AllPropDeps(ps[..i + 1]) == AllPropDeps(ps[..i]) + PropDeps(ps[i])
  {
    if i == 0 {
      assert ps[..1][1..] == [] && ps[..0] == [];
    } else {
      PropsTake(ps[1..], i - 1);
      assert ps[..i + 1][1..] == ps[1..][..i] && ps[..i][1..] == ps[1..][..i - 1];
    }
  }

  /** A way along dependencies without repetition. */
  ghost predicate Chain(t: Table, p: seq<Symbol>) {
    && (forall i, j :: 0 <= i < j < |p| ==> p[i] != p[j])
    && (forall i :: 0 <= i < |p| ==> p[i] in t.symbols) && (forall i :: 0 <= i < |p| - 1 ==> p[i + 1] in Deps(t, p[i]))
  }

  lemma {:induction false} MetAgain(t: Table, p: seq<Symbol>, s: Symbol)
    requires Chain(t, p) && s in p && s in Deps(t, p[|p| - 1])
    ensures Cyclic(t)
  {
    hide Deps;
    var k :| 0 <= k < |p| && p[k] == s;
    var c := p[k..];
    assert forall i :: 0 <= i < |c| ==> c[i] == p[k + i];
    assert IsCycle(t, c);
  }

  function Members(q: seq<Symbol>): set<Symbol> { set s | s in q }

  /**
   The marks of all symbols, the way the search has come, what it has finished, and whether it has met a
   symbol again.
   */
  datatype Marks = Marks(check: set<Symbol>, checked: set<Symbol>, errors: nat, path: seq<Symbol>, order: seq<Symbol>,
    found: bool)

  ghost predicate Ok(t: Table, m: Marks) {
    && Closed(t) && m.checked <= t.symbols && m.check == Members(m.path) && m.check <= m.checked && Chain(t, m.path)
    && (m.found ==> Cyclic(t))
    && (!m.found ==> Topological(t, m.order) && m.checked == m.check + Members(m.order) && m.check !! Members(m.order))
  }

  /** What every part of the search keeps; a symbol returned is one still being checked. */
  ghost predicate Searched(t: Table, m: Marks, m': Marks, r: Option<Symbol>) {
    && Ok(t, m') && m'.path == m.path && m.checked <= m'.checked && m.errors <= m'.errors
    && (r.Some? ==> r.value in m'.check && m'.found) && (m.found ==> m'.found)
    && (!m'.found ==> m'.errors == m.errors && m.order <= m'.order)
    && (m'.found && !m.found ==> r.Some? || m'.errors > m.errors)
  }

  lemma {:induction false} SearchedOn(t: Table, a: Marks, b: Marks, c: Marks, r: Option<Symbol>)
    requires Searched(t, a, b, None) && Searched(t, b, c, r)
    ensures Searched(t, a, c, r)
  {
    hide Ok;
  }

  ghost function Entered(m: Marks, s: Symbol): Marks {
    m.(check := m.check + {s}, checked := m.checked + {s}, path := m.path + [s])
  }

  ghost function Left(m: Marks, s: Symbol, r: Option<Symbol>): Marks
    requires m.path != []
  {
    m.(check := m.check - {s}, path := m.path[..|m.path| - 1], order := if m.found then m.order else m.order + [s],
      errors := m.errors + if r == Some(s) then 1 else 0)
  }

  lemma {:induction false} Enter(t: Table, m: Marks, s: Symbol)
    requires Ok(t, m) && s in t.symbols && s !in m.checked && (m.path != [] ==> s in Deps(t, m.path[|m.path| - 1]))
    ensures Ok(t, Entered(m, s)) && |t.symbols - Entered(m, s).checked| < |t.symbols - m.checked|
  {
    hide Deps, Closed, Topological, Cyclic, Chain;
    var n := Entered(m, s);
    assert Members(n.path) == Members(m.path) + {s};
    assert t.symbols - m.checked == (t.symbols - n.checked) + {s};
    ChainMore(t, m.path, s);
  }

  lemma {:induction false} ChainMore(t: Table, p: seq<Symbol>, s: Symbol)
    requires Chain(t, p) && s in t.symbols && s !in p && (p != [] ==> s in Deps(t, p[|p| - 1]))
    ensures Chain(t, p + [s])
  {
    hide Deps;
    var q := p + [s];
    assert forall i :: 0 <= i < |q| - 1 ==> q[i] == p[i];
  }

  lemma {:induction false} Leave(t: Table, m: Marks, m': Marks, s: Symbol, r: Option<Symbol>)
    requires Ok(t, m) && s !in m.checked && Searched(t, Entered(m, s), m', r)
    requires r.None? && !m'.found ==> Deps(t, s) <= Members(m'.order)
    ensures m'.path != [] && s in m'.checked && Searched(t, m, Left(m', s, r), if r == Some(s) then None else r)
    ensures !m'.found ==> s in Left(m', s, r).order
  {
    hide Deps, Closed, Topological, Cyclic, Chain;
    var n := Left(m', s, r);
    assert m'.path == m.path + [s] && n.path == m.path;
    assert Members(m'.path) == Members(m.path) + {s} && n.check == Members(n.path);
    if !m'.found {
      assert Members(n.order) == Members(m'.order) + {s};
      OrderMore(t, m'.order, s);
    }
  }

  lemma {:induction false} OrderMore(t: Table, order: seq<Symbol>, s: Symbol)
    requires Topological(t, order) && Deps(t, s) <= Members(order)
    ensures Topological(t, order + [s])
  {
    hide Deps;
    var q := order + [s];
    forall i, d | 0 <= i < |q| && d in Deps(t, q[i]) ensures d in q[..i] {
      assert q[..i] == order[..i];
      if i == |order| { assert order[..i] == order; }
    }
  }

  /** The search for recursive dependencies. */
  class Checker {
    const t: Table
    var check: set<Symbol>
    var checked: set<Symbol>
    var errors: nat
    ghost var path: seq<Symbol>
    ghost var order: seq<Symbol>
    ghost var found: bool

    constructor (t: Table, errors: nat)
      ensures this.t == t && Snap() == Marks({}, {}, errors, [], [], false)
    {
      this.t, this.errors, check, checked, path, order, found := t, errors, {}, {}, [], [], false;
    }

    ghost function Snap(): Marks
      reads this
    {
      Marks(check, checked, errors, path, order, found)
    }

    /** Checks one symbol, met on the way from the last symbol of the path. */
    method CheckDeps(sym: Symbol) returns (r: Option<Symbol>)
      requires Ok(t, Snap()) && sym in t.symbols && (path != [] ==> sym in Deps(t, path[|path| - 1]))
      modifies this
      ensures Searched(t, old(Snap()), Snap(), r) && sym in checked && (r.None? && !found ==> sym in order)
      decreases |t.symbols - checked|, 0
    {
      hide Deps, Ok, Searched, Members;
      ghost var m := Snap();
      if sym in check {
        OnPath(t, m, sym);
        Again(t, m, sym);
        found := true;
        return Some(sym);
      }
      if sym in checked {
        Already(t, m, sym);
        return None;
      }
      Enter(t, m, sym);
      MarkOn(sym);
      r := CheckSym(sym);
      Leave(t, m, Snap(), sym, r);
      MarkOff(sym, r);
      if r == Some(sym) { r := None; }
    }

    method MarkOn(sym: Symbol)
      modifies this
      ensures Snap() == Entered(old(Snap()), sym)
    {
      check, checked := check + {sym}, checked + {sym};
      path := path + [sym];
    }

    /** The mark goes; an answer that names `sym` itself is an error. */
    method MarkOff(sym: Symbol, r: Option<Symbol>)
      requires path != []
      modifies this
      ensures Snap() == Left(old(Snap()), sym, r)
    {
      check := check - {sym};
      path := path[..|path| - 1];
      order := if found then order else order + [sym];
      if r == Some(sym) { errors := errors + 1; }
    }

    /** Everything that `sym`, the last symbol of the path, depends on. */
    method CheckSym(sym: Symbol) returns (r: Option<Symbol>)
      requires Ok(t, Snap()) && path != [] && path[|path| - 1] == sym && sym in t.symbols
      modifies this
      ensures Searched(t, old(Snap()), Snap(), r) && (r.None? && !found ==> Deps(t, sym) <= Members(order))
      decreases |t.symbols - checked|, 4
    {
      hide Ok, Searched, Members, AllPropDeps, SymbolsIn;
      var info := InfoOf(t, sym);
      r := CheckExpr(info.revDep, sym);
      if r.Some? { return; }
      ghost var m := Snap();
      Kept(t, old(Snap()), m);
      r := CheckProps(info.props, sym);
      SearchedOn(t, old(Snap()), m, Snap(), r);
      if r.None? { Kept(t, m, Snap()); }
    }

    /** The properties of `sym`, one after the other. */
    method CheckProps(props: seq<Prop>, sym: Symbol) returns (r: Option<Symbol>)
      requires Ok(t, Snap()) && path != [] && path[|path| - 1] == sym && sym in t.symbols
      requires AllPropDeps(props) <= Deps(t, sym)
      modifies this
      ensures Searched(t, old(Snap()), Snap(), r) && (r.None? && !found ==> AllPropDeps(props) <= Members(order))
      decreases |t.symbols - checked|, 3, 1
    {
      hide Deps, Ok, Searched, Members, AllPropDeps, PropDeps;
      r := None;
      ghost var m := Snap();
      Unsearched(t, m);
      NoProps(props);
      var i := 0;
      while i < |props|
        invariant 0 <= i <= |props| && r.None? && path == m.path && Ok(t, Snap()) && Searched(t, m, Snap(), None)
        invariant |t.symbols - checked| <= |t.symbols - m.checked|
        invariant !found ==> AllPropDeps(props[..i]) <= Members(order)
      {
        ghost var b := Snap();
        PropsTake(props, i);
        PropDepsIn(props, i);
        r := CheckProp(props[i], sym);
        SearchedOn(t, m, b, Snap(), r);
        if r.Some? { return; }
        Kept(t, b, Snap());
        i := i + 1;
      }
      assert props[..i] == props;
    }

    /** One property: its condition and, for a default, its value. */
    method CheckProp(p: Prop, sym: Symbol) returns (r: Option<Symbol>)
      requires Ok(t, Snap()) && path != [] && path[|path| - 1] == sym && PropDeps(p) <= Deps(t, sym) && sym in t.symbols
      modifies this
      ensures Searched(t, old(Snap()), Snap(), r) && (r.None? && !found ==> PropDeps(p) <= Members(order))
      decreases |t.symbols - checked|, 3, 0
    {
      hide Deps, Ok, Searched, Members;
      Unsearched(t, Snap());
      if p.kind == Select { return None; }
      r := CheckExpr(p.visible, sym);
      if r.Some? || p.kind != Default { return; }
      ghost var b := Snap();
      Kept(t, old(Snap()), b);
      r := CheckExpr(p.expr, sym);
      SearchedOn(t, old(Snap()), b, Snap(), r);
      if r.None? { Kept(t, b, Snap()); }
    }

    method CheckExpr(e: Option<Expr>, sym: Symbol) returns (r: Option<Symbol>)
      requires Ok(t, Snap()) && path != [] && path[|path| - 1] == sym && SymbolsIn(e) <= Deps(t, sym)
      requires sym in t.symbols
      modifies this
      ensures Searched(t, old(Snap()), Snap(), r) && (r.None? && !found ==> SymbolsIn(e) <= Members(order))
      decreases |t.symbols - checked|, 2
    {
      hide Deps, Ok, Searched, Members;
      Unsearched(t, Snap());
      if e.None? { return None; }
      r := CheckIn(e.value, sym);
    }

    /** Every symbol of an expression, left to right, until one answers. */
    method CheckIn(e: Expr, sym: Symbol) returns (r: Option<Symbol>)
      requires Ok(t, Snap()) && path != [] && path[|path| - 1] == sym && Symbols(e) <= Deps(t, sym) && sym in t.symbols
      modifies this
      ensures Searched(t, old(Snap()), Snap(), r) && (r.None? && !found ==> Symbols(e) <= Members(order))
      decreases |t.symbols - checked|, 1, e
    {
      hide Deps, Ok, Searched, Members;
      InTable(t, Snap(), sym, e);
      match e {
        case Sym(s) =>
          r := CheckDeps(s);
          InOrder(order, s);
        case Not(x) =>
          r := CheckIn(x, sym);
        case Cmp(_, a, b) =>
          r := CheckDeps(a);
          if r.Some? { return; }
          ghost var m := Snap();
          InOrder(order, a);
          Kept(t, old(Snap()), m);
          r := CheckDeps(b);
          InOrder(order, b);
          SearchedOn(t, old(Snap()), m, Snap(), r);
          if r.None? { Kept(t, m, Snap()); }
        case Bin(_, x, y) =>
          r := CheckIn(x, sym);
          if r.Some? { return; }
          ghost var m := Snap();
          Kept(t, old(Snap()), m);
          r := CheckIn(y, sym);
          SearchedOn(t, old(Snap()), m, Snap(), r);
          if r.None? { Kept(t, m, Snap()); }
      }
    }
  }

  lemma {:induction false} NoProps(ps: seq<Prop>)
    ensures AllPropDeps(ps[..0]) == {}
  {
  }

  lemma {:induction false} InTable(t: Table, m: Marks, sym: Symbol, e: Expr)
    requires Ok(t, m) && sym in t.symbols && Symbols(e) <= Deps(t, sym)
    ensures Symbols(e) <= t.symbols
  {
    hide Deps;
  }

  lemma {:induction false} Again(t: Table, m: Marks, s: Symbol)
    requires Ok(t, m) && s in m.check && m.path != [] && s in Deps(t, m.path[|m.path| - 1])
    ensures Searched(t, m, m.(found := true), Some(s))
  {
    hide Deps;
    MetAgain(t, m.path, s);
  }

  lemma {:induction false} Already(t: Table, m: Marks, s: Symbol)
    requires Ok(t, m) && s in m.checked && s !in m.check
    ensures Searched(t, m, m, None) && (!m.found ==> s in m.order)
  {
  }

  lemma {:induction false} Unsearched(t: Table, m: Marks)
    requires Ok(t, m)
    ensures Searched(t, m, m, None)
  {
  }

  lemma {:induction false} OnPath(t: Table, m: Marks, s: Symbol)
    requires Ok(t, m) && s in m.check
    ensures m.path != [] && s in m.checked
  {
  }

  lemma {:induction false} InOrder(q: seq<Symbol>, s: Symbol)
    ensures s in q <==> s in Members(q)
  {
  }

  /** Going on after a clean part of the search. */
  lemma {:induction false} Kept(t: Table, m: Marks, m': Marks)
    requires Searched(t, m, m', None)
    ensures Ok(t, m') && m'.path == m.path && |t.symbols - m'.checked| <= |t.symbols - m.checked|
    ensures !m'.found ==> !m.found && Members(m.order) <= Members(m'.order)
  {
    Subset(t.symbols - m'.checked, t.symbols - m.checked);
  }

  lemma {:induction false} Subset(a: set<Symbol>, b: set<Symbol>)
    requires a <= b
    ensures |a| <= |b|
  {
    if a != {} {
      var x :| x in a;
      Subset(a - {x}, b - {x});
    }
  }

  /** The symbols of the hash table, in which y, m and n do not stand; they have no properties. */
  ghost predicate Hashed(t: Table, symbols: seq<Symbol>) {
    Members(symbols) == t.symbols - KEYWORDS && forall s :: s in KEYWORDS ==> s !in t.info
  }

  /** `s` in front, unless it is there. */
  function With(order: seq<Symbol>, s: Symbol, all: set<Symbol>): seq<Symbol> {
    if s in order || s !in all then order else [s] + order
  }

  /** An order completed by y, m and n. */
  function Completed(t: Table, order: seq<Symbol>): seq<Symbol> {
    With(With(With(order, YES, t.symbols), MOD, t.symbols), NO, t.symbols)
  }

  lemma {:induction false} WithFirst(t: Table, order: seq<Symbol>, s: Symbol)
    requires Topological(t, order) && s !in t.info
    ensures Topological(t, With(order, s, t.symbols))
    ensures Members(With(order, s, t.symbols)) == Members(order) + ({s} * t.symbols)
  {
    var r := With(order, s, t.symbols);
    if r != order {
      forall i, d | 0 <= i < |r| && d in Deps(t, r[i]) ensures d in r[..i] {
        if i > 0 {
          assert d in order[..i - 1];
          assert r[..i] == [s] + order[..i - 1];
        }
      }
    }
  }

  lemma {:induction false} Completes(t: Table, symbols: seq<Symbol>, order: seq<Symbol>)
    requires Hashed(t, symbols) && Topological(t, order) && t.symbols - KEYWORDS <= Members(order) <= t.symbols
    ensures Topological(t, Completed(t, order)) && Members(Completed(t, order)) == t.symbols
  {
    hide Topological, With, Members;
    WithFirst(t, order, YES);
    WithFirst(t, With(order, YES, t.symbols), MOD);
    WithFirst(t, With(With(order, YES, t.symbols), MOD, t.symbols), NO);
  }

  /**
   Checks every symbol, as the parser does at its end: errors are counted exactly when something depends on
   itself.
   */
  method CheckAll(t: Table, symbols: seq<Symbol>, errors: nat) returns (c: Checker)
    requires Closed(t) && Hashed(t, symbols)
    ensures fresh(c) && c.t == t && c.check == {} && t.symbols - KEYWORDS <= c.checked <= t.symbols
    ensures c.errors >= errors && (c.errors == errors <==> !Cyclic(t))
    ensures c.errors == errors ==> Topological(t, Completed(t, c.order)) && Members(Completed(t, c.order)) == t.symbols
  {
    hide Deps, Ok, Searched, Topological, Members;
    c := new Checker(t, errors);
    Fresh(t, c.Snap());
    var i := 0;
    NoMembers(symbols);
    while i < |symbols|
      invariant 0 <= i <= |symbols| && fresh(c) && c.t == t && Ok(t, c.Snap()) && c.path == [] && c.errors >= errors
      invariant c.found <==> c.errors > errors
      invariant Members(symbols[..i]) <= c.checked
    {
      ghost var m := c.Snap();
      MemberAt(symbols, i);
      var r := c.CheckDeps(symbols[i]);
      TopLevel(t, m, c.Snap(), r);
      TakeMore(symbols, i);
      // A symbol returned here would be counted too; none ever is.
      assert r.None?;
      i := i + 1;
    }
    assert symbols[..i] == symbols;
    AllDone(t, symbols, c.Snap());
  }

  lemma {:induction false} Fresh(t: Table, m: Marks)
    requires Closed(t) && m == Marks({}, {}, m.errors, [], [], false)
    ensures Ok(t, m)
  {
  }

  lemma {:induction false} NoMembers(q: seq<Symbol>)
    ensures Members(q[..0]) == {}
  {
  }

  lemma {:induction false} MemberAt(q: seq<Symbol>, i: int)
    requires 0 <= i < |q|
    ensures q[i] in Members(q)
  {
  }

  lemma {:induction false} TakeMore(q: seq<Symbol>, i: int)
    requires 0 <= i < |q|
    ensures Members(q[..i + 1]) == Members(q[..i]) + {q[i]}
  {
    assert q[..i + 1] == q[..i] + [q[i]];
  }

  /** From the outside nothing is being checked, so no symbol is ever returned. */
  lemma {:induction false} TopLevel(t: Table, m: Marks, m': Marks, r: Option<Symbol>)
    requires Searched(t, m, m', r) && m.path == []
    ensures r.None? && Ok(t, m') && m'.path == [] && m'.errors >= m.errors && m.checked <= m'.checked
    ensures (m'.found && !m.found ==> m'.errors > m.errors) && (m.found ==> m'.found)
    ensures (!m'.found ==> m'.errors == m.errors)
  {
    assert m'.check == {};
  }

  lemma {:induction false} AllDone(t: Table, symbols: seq<Symbol>, m: Marks)
    requires Ok(t, m) && m.path == [] && Hashed(t, symbols) && Members(symbols) <= m.checked
    ensures m.check == {} && t.symbols - KEYWORDS <= m.checked <= t.symbols && (m.found <==> Cyclic(t))
    ensures !m.found ==> Topological(t, Completed(t, m.order)) && Members(Completed(t, m.order)) == t.symbols
  {
    hide Deps, Topological, Cyclic;
    assert m.check == {};
    if !m.found {
      Completes(t, symbols, m.order);
      var order := Completed(t, m.order);
      forall s | s in t.symbols ensures s in order { assert s in Members(order); }
      Ordered(t, order);
    }
  }
}
