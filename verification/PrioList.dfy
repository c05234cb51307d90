/**
 Two-level priority lists: the heads of a list have ascending priorities, and
 each head carries a list of later entries of its own priority
 (include/ds/skiplist.h, kernel/generic/def_actions.c, kernel/ds/pqueue.c).
 */
module PrioLists {

  datatype Action = Action(id: nat, prio: nat)

  /** A head and the entries of the same priority behind it. */
  datatype Group = Group(head: Action, rest: seq<Action>)

  function Members(g: Group): seq<Action> { [g.head] + g.rest }

  /** All entries in the order they leave the list. */
  function Flat(gs: seq<Group>): seq<Action> {
    if gs == [] then [] else Members(gs[0]) + Flat(gs[1..])
  }

  ghost predicate OnePrio(g: Group) { forall i :: 0 <= i < |g.rest| ==> g.rest[i].prio == g.head.prio }

  ghost predicate Proper(gs: seq<Group>) {
    && (forall i :: 0 <= i < |gs| ==> OnePrio(gs[i]))
    && (forall i, j :: 0 <= i < j < |gs| ==> gs[i].head.prio < gs[j].head.prio)
  }

  ghost predicate Sorted(q: seq<Action>) {
    forall i, j :: 0 <= i < j < |q| ==> q[i].prio <= q[j].prio
  }

  /** The entries of one priority, in order. */
  function OfPrio(q: seq<Action>, p: nat): seq<Action> {
    if q == [] then [] else (if q[0].prio == p then [q[0]] else []) + OfPrio(q[1..], p)
  }

  /** Stable insertion: behind everything of the same or better priority. */
  function Put(q: seq<Action>, a: Action): seq<Action> {
    if q == [] then [a]
    else if q[0].prio > a.prio then [a] + q
    else [q[0]] + Put(q[1..], a)
  }

  function PutAll(q: seq<Action>, s: seq<Action>): seq<Action>
    decreases |s|
  {
    if s == [] then q else PutAll(Put(q, s[0]), s[1..])
  }

  ghost predicate UniqueIds(q: seq<Action>) { forall i, j :: 0 <= i < j < |q| ==> q[i].id != q[j].id }

  ghost function Ids(q: seq<Action>): set<nat> { set i | 0 <= i < |q| :: q[i].id }

  /** How many actions are executed: the urgent ones at the front, at most `limit`. */
  function Ready(q: seq<Action>, priority: nat, limit: nat): (n: nat)
    ensures n <= |q| && n <= limit
  {
    if q == [] || limit == 0 || q[0].prio > priority then 0 else 1 + Ready(q[1..], priority, limit - 1)
  }

  /** The first actions of the queue that are urgent enough are the ready ones, and no others. */
  lemma {:induction false} FiredReady(q: seq<Action>, n: nat, priority: nat, limit: nat)
    requires n <= |q| && n <= limit && forall i :: 0 <= i < n ==> q[i].prio <= priority
    requires n < limit && n < |q| ==> q[n].prio > priority
    ensures n == Ready(q, priority, limit)
  {
    if n > 0 {
      FiredReady(q[1..], n - 1, priority, limit - 1);
    }
  }

  lemma {:induction false} IdsAppend(a: seq<Action>, b: seq<Action>)
    ensures Ids(a + b) == Ids(a) + Ids(b)
  {
    forall x | x in Ids(a) ensures x in Ids(a + b) {
      var i :| 0 <= i < |a| && a[i].id == x;
      assert (a + b)[i].id == x;
    }
    forall x | x in Ids(b) ensures x in Ids(a + b) {
      var i :| 0 <= i < |b| && b[i].id == x;
      assert (a + b)[|a| + i].id == x;
    }
  }

  lemma Assoc<T>(a: seq<T>, b: seq<T>, c: seq<T>)
    ensures a + (b + c) == a + b + c
  {
  }

  lemma {:induction false} FlatAppend(a: seq<Group>, b: seq<Group>)
    ensures Flat(a + b) == Flat(a) + Flat(b)
  {
    hide Members;
    if a == [] {
      assert a + b == b;
    } else {
      FlatAppend(a[1..], b);
      assert (a + b)[0] == a[0] && (a + b)[1..] == a[1..] + b;
      Assoc(Members(a[0]), Flat(a[1..]), Flat(b));
    }
  }

  lemma {:induction false} FlatOne(g: Group)
    ensures Flat([g]) == Members(g)
  {
    assert [g][1..] == [];
  }

  lemma {:induction false} FlatAround(gs: seq<Group>, i: int)
    requires 0 <= i < |gs|
    ensures Flat(gs) == Flat(gs[..i]) + Members(gs[i]) + Flat(gs[i + 1..])
  {
    assert gs == gs[..i] + ([gs[i]] + gs[i + 1..]);
    FlatAppend(gs[..i], [gs[i]] + gs[i + 1..]);
    FlatAppend([gs[i]], gs[i + 1..]);
    FlatOne(gs[i]);
  }

  lemma {:induction false} FlatSplit(gs: seq<Group>, i: int)
    requires 0 <= i <= |gs|
    ensures Flat(gs) == Flat(gs[..i]) + Flat(gs[i..])
  {
    assert gs == gs[..i] + gs[i..];
    FlatAppend(gs[..i], gs[i..]);
  }

  /** Every entry of a proper list has the priority of one of the heads. */
  lemma {:induction false} FlatPrio(gs: seq<Group>, k: int)
    requires (forall i :: 0 <= i < |gs| ==> OnePrio(gs[i])) && 0 <= k < |Flat(gs)|
    ensures exists i :: 0 <= i < |gs| && gs[i].head.prio == Flat(gs)[k].prio
  {
    var n := |gs[0].rest| + 1;
    if k < n {
      assert gs[0].head.prio == Flat(gs)[k].prio;
    } else {
      FlatPrio(gs[1..], k - n);
      var i :| 0 <= i < |gs[1..]| && gs[1..][i].head.prio == Flat(gs[1..])[k - n].prio;
      assert gs[i + 1].head.prio == Flat(gs)[k].prio;
    }
  }

  /** A proper list is sorted. */
  lemma {:induction false} FlatSorted(gs: seq<Group>)
    requires Proper(gs)
    ensures Sorted(Flat(gs))
  {
    if gs != [] {
      FlatSorted(gs[1..]);
      var m, f := Members(gs[0]), Flat(gs[1..]);
      forall k | 0 <= k < |f| ensures f[k].prio > gs[0].head.prio {
        FlatPrio(gs[1..], k);
        var i :| 0 <= i < |gs[1..]| && gs[1..][i].head.prio == f[k].prio;
        assert gs[1..][i] == gs[i + 1];
      }
      assert forall k :: 0 <= k < |m| ==> m[k].prio == gs[0].head.prio;
    }
  }

  lemma {:induction false} OfPrioAppend(a: seq<Action>, b: seq<Action>, p: nat)
    ensures OfPrio(a + b, p) == OfPrio(a, p) + OfPrio(b, p)
  {
    if a == [] {
      assert a + b == b;
    } else {
      OfPrioAppend(a[1..], b, p);
      assert (a + b)[0] == a[0] && (a + b)[1..] == a[1..] + b;
      Assoc(if a[0].prio == p then [a[0]] else [], OfPrio(a[1..], p), OfPrio(b, p));
    }
  }

  lemma {:induction false} OfPrioNone(q: seq<Action>, p: nat)
    requires forall i :: 0 <= i < |q| ==> q[i].prio != p
    ensures OfPrio(q, p) == []
  {
    if q != [] { OfPrioNone(q[1..], p); }
  }

  lemma {:induction false} OfPrioFirst(q: seq<Action>, p: nat)
    requires q != []
    ensures q[0].prio == p ==> OfPrio(q, p) == [q[0]] + OfPrio(q[1..], p)
    ensures q[0].prio != p ==> OfPrio(q, p) == OfPrio(q[1..], p)
  {
    assert [] + OfPrio(q[1..], p) == OfPrio(q[1..], p);
  }

  lemma {:induction false} PutMembers(q: seq<Action>, a: Action)
    ensures multiset(Put(q, a)) == multiset(q) + multiset{a}
  {
    if q != [] && q[0].prio <= a.prio {
      PutMembers(q[1..], a);
      assert q == [q[0]] + q[1..];
    }
  }

  /** Stable insertion keeps the order of priorities and adds just the one entry. */
  lemma {:induction false} PutSorted(q: seq<Action>, a: Action)
    requires Sorted(q)
    ensures Sorted(Put(q, a)) && multiset(Put(q, a)) == multiset(q) + multiset{a}
  {
    PutMembers(q, a);
    PutOrder(q, a);
  }

  lemma {:induction false} PutOrder(q: seq<Action>, a: Action)
    requires Sorted(q)
    ensures Sorted(Put(q, a)) && (q != [] ==> Put(q, a)[0].prio >= if q[0].prio > a.prio then a.prio else q[0].prio)
  {
    if q != [] && q[0].prio <= a.prio {
      PutOrder(q[1..], a);
      var r := Put(q[1..], a);
      assert q[1..] != [] ==> q[0].prio <= q[1..][0].prio;
      assert q[0].prio <= r[0].prio;
      assert forall k :: 0 <= k < |r| ==> r[0].prio <= r[k].prio;
    }
  }

  /** Within a priority, stable insertion is first in, first out. */
  lemma {:induction false} PutFifo(q: seq<Action>, a: Action, p: nat)
    requires Sorted(q)
    ensures OfPrio(Put(q, a), p) == OfPrio(q, p) + if a.prio == p then [a] else []
  {
    if q == [] {
      OfPrioFirst([a], p);
    } else if q[0].prio > a.prio {
      OfPrioFirst([a] + q, p);
      assert ([a] + q)[1..] == q;
      if a.prio == p { OfPrioNone(q, p); }
    } else {
      PutFifo(q[1..], a, p);
      OfPrioFirst(q, p);
      OfPrioFirst(Put(q, a), p);
      assert Put(q, a)[1..] == Put(q[1..], a);
      Assoc([q[0]], OfPrio(q[1..], p), if a.prio == p then [a] else []);
    }
  }

  /** Order and first in, first out leave no freedom: the two together determine the list. */
  lemma {:induction false} FifoUnique(q: seq<Action>, r: seq<Action>)
    requires Sorted(q) && Sorted(r) && forall p :: OfPrio(q, p) == OfPrio(r, p)
    ensures q == r
  {
    if q != [] { OfPrioFirst(q, q[0].prio); }
    if r != [] { OfPrioFirst(r, r[0].prio); }
    if q != [] && r != [] {
      SameFirst(q, r);
      SameFirst(r, q);
      assert OfPrio(q, q[0].prio)[0] == q[0] && OfPrio(r, r[0].prio)[0] == r[0];
      forall p ensures OfPrio(q[1..], p) == OfPrio(r[1..], p) {
        assert OfPrio(q, p) == OfPrio(r, p);
        OfPrioFirst(q, p);
        OfPrioFirst(r, p);
        if p == q[0].prio {
          assert OfPrio(q, p)[1..] == OfPrio(q[1..], p) && OfPrio(r, p)[1..] == OfPrio(r[1..], p);
        }
      }
      FifoUnique(q[1..], r[1..]);
      assert q == [q[0]] + q[1..] && r == [r[0]] + r[1..];
    }
  }

  lemma {:induction false} SameFirst(q: seq<Action>, r: seq<Action>)
    requires Sorted(q) && q != [] && r != [] && forall p :: OfPrio(q, p) == OfPrio(r, p)
    ensures q[0].prio <= r[0].prio
  {
    var p := r[0].prio;
    assert OfPrio(r, p) != [] && OfPrio(q, p) == OfPrio(r, p);
    if p < q[0].prio { OfPrioNone(q, p); }
  }

  /** Everything before `g` is of better priority: stable insertion happens behind it. */
  lemma {:induction false} PutBehind(b: seq<Action>, q: seq<Action>, a: Action)
    requires forall i :: 0 <= i < |b| ==> b[i].prio <= a.prio
    ensures Put(b + q, a) == b + Put(q, a)
  {
    if b == [] {
      assert b + q == q && b + Put(q, a) == Put(q, a);
    } else {
      PutBehind(b[1..], q, a);
      assert (b + q)[0] == b[0] && (b + q)[1..] == b[1..] + q;
    }
  }

  lemma {:induction false} PutBefore(q: seq<Action>, a: Action)
    requires forall i :: 0 <= i < |q| ==> q[i].prio > a.prio
    ensures Put(q, a) == [a] + q
  {
    if q == [] { assert [a] + q == [a]; }
  }

  lemma RunStep<T>(b: seq<T>, s: seq<T>, q: seq<T>)
    requires s != []
    ensures (b + [s[0]]) + s[1..] + q == b + s + q
  {
    assert s == [s[0]] + s[1..];
  }

  /** A whole run of entries of one priority goes in between better and worse ones. */
  lemma {:induction false} PutRun(b: seq<Action>, s: seq<Action>, q: seq<Action>, p: nat)
    requires forall i :: 0 <= i < |b| ==> b[i].prio <= p
    requires forall i :: 0 <= i < |q| ==> q[i].prio > p
    requires forall i :: 0 <= i < |s| ==> s[i].prio == p
    ensures PutAll(b + q, s) == b + s + q
    decreases |s|
  {
    hide Put;
    if s == [] {
      assert b + s + q == b + q;
    } else {
      PutBehind(b, q, s[0]);
      PutBefore(q, s[0]);
      assert b + ([s[0]] + q) == (b + [s[0]]) + q;
      PutRun(b + [s[0]], s[1..], q, p);
      RunStep(b, s, q);
    }
  }
}
