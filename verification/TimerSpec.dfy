/**
 What timers are for: a list of armed timers, in the order they were armed.  At
 its tick each of them goes into the queue of deferred actions, behind what the
 queue already holds of its priority.
 */
module TimerSpecs {
  import opened PrioLists
  import opened PrioOps

  datatype Arm = Arm(id: nat, time: nat, prio: nat)

  function ActionOf(a: Arm): Action { Action(a.id, a.prio) }

  /** The timers armed for tick `t`, oldest first. */
  function ArmedFor(p: seq<Arm>, t: nat): seq<Action> {
    if p == [] then [] else (if p[0].time == t then [ActionOf(p[0])] else []) + ArmedFor(p[1..], t)
  }

  function WithoutId(p: seq<Arm>, id: nat): seq<Arm> {
    if p == [] then [] else (if p[0].id == id then [] else [p[0]]) + WithoutId(p[1..], id)
  }

  function WithoutTime(p: seq<Arm>, t: nat): seq<Arm> {
    if p == [] then [] else (if p[0].time == t then [] else [p[0]]) + WithoutTime(p[1..], t)
  }

  function Minus(q: seq<Action>, id: nat): seq<Action> {
    if q == [] then [] else (if q[0].id == id then [] else [q[0]]) + Minus(q[1..], id)
  }

  ghost predicate UniqueArms(p: seq<Arm>) { forall i, j :: 0 <= i < j < |p| ==> p[i].id != p[j].id }

  lemma {:induction false} ArmedAppend(p: seq<Arm>, r: seq<Arm>, t: nat)
    ensures ArmedFor(p + r, t) == ArmedFor(p, t) + ArmedFor(r, t)
  {
    if p == [] {
      assert p + r == r;
    } else {
      ArmedAppend(p[1..], r, t);
      assert (p + r)[0] == p[0] && (p + r)[1..] == p[1..] + r;
      Assoc(if p[0].time == t then [ActionOf(p[0])] else [], ArmedFor(p[1..], t), ArmedFor(r, t));
    }
  }

  /** Arming one more timer. */
  lemma {:induction false} ArmedMore(p: seq<Arm>, a: Arm, t: nat)
    ensures PutAll([], ArmedFor(p + [a], t))
      == if a.time == t then Put(PutAll([], ArmedFor(p, t)), ActionOf(a)) else PutAll([], ArmedFor(p, t))
  {
    hide PutAll, Put;
    ArmedAppend(p, [a], t);
    ArmedOne(a, t);
    if a.time == t {
      PutAllAppend([], ArmedFor(p, t), [ActionOf(a)]);
      PutAllOne(PutAll([], ArmedFor(p, t)), ActionOf(a));
    } else {
      assert ArmedFor(p, t) + [] == ArmedFor(p, t);
    }
  }

  lemma {:induction false} ArmedOne(a: Arm, t: nat)
    ensures ArmedFor([a], t) == if a.time == t then [ActionOf(a)] else []
  {
    assert [a][1..] == [];
  }

  lemma {:induction false} PutAllOne(q: seq<Action>, a: Action)
    ensures PutAll(q, [a]) == Put(q, a)
  {
    assert [a][1..] == [];
  }

  lemma {:induction false} PutAllSorted(q: seq<Action>, s: seq<Action>)
    requires Sorted(q)
    ensures Sorted(PutAll(q, s)) && multiset(PutAll(q, s)) == multiset(q) + multiset(s)
    decreases |s|
  {
    hide Put, Sorted;
    if s != [] {
      PutSorted(q, s[0]);
      PutAllSorted(Put(q, s[0]), s[1..]);
      assert s == [s[0]] + s[1..];
    }
  }

  lemma {:induction false} PutAllFifo(q: seq<Action>, s: seq<Action>, p: nat)
    requires Sorted(q)
    ensures OfPrio(PutAll(q, s), p) == OfPrio(q, p) + OfPrio(s, p)
    decreases |s|
  {
    hide Put, Sorted;
    if s == [] {
      assert OfPrio(q, p) + OfPrio([], p) == OfPrio(q, p);
    } else {
      PutSorted(q, s[0]);
      PutFifo(q, s[0], p);
      PutAllFifo(Put(q, s[0]), s[1..], p);
      OfPrioFirst(s, p);
      Assoc(OfPrio(q, p), if s[0].prio == p then [s[0]] else [], OfPrio(s[1..], p));
    }
  }

  /** Handing over an already sorted batch is the same as handing over the timers as they were armed. */
  lemma {:induction false} HandOver(q: seq<Action>, s: seq<Action>)
    requires Sorted(q)
    ensures PutAll(q, PutAll([], s)) == PutAll(q, s)
  {
    hide PutAll, OfPrio;
    EmptySorted();
    PutAllSorted([], s);
    PutAllSorted(q, PutAll([], s));
    PutAllSorted(q, s);
    forall p ensures OfPrio(PutAll(q, PutAll([], s)), p) == OfPrio(PutAll(q, s), p) {
      PutAllFifo(q, PutAll([], s), p);
      PutAllFifo([], s, p);
      PutAllFifo(q, s, p);
      NoneOfPrio(s, p);
    }
    FifoUnique(PutAll(q, PutAll([], s)), PutAll(q, s));
  }

  lemma {:induction false} EmptySorted()
    ensures Sorted([])
  {
  }

  lemma {:induction false} NoneOfPrio(s: seq<Action>, p: nat)
    ensures OfPrio([], p) + OfPrio(s, p) == OfPrio(s, p)
  {
  }

  lemma {:induction false} MinusOfPrio(q: seq<Action>, id: nat, p: nat)
    ensures OfPrio(Minus(q, id), p) == Minus(OfPrio(q, p), id)
  {
    if q != [] {
      MinusOfPrio(q[1..], id, p);
      OfPrioFirst(q, p);
      var r := Minus(q[1..], id);
      if q[0].id == id {
        assert Minus(q, id) == r;
        if q[0].prio == p { MinusFirst(q[0], OfPrio(q[1..], p), id); }
      } else {
        assert Minus(q, id) == [q[0]] + r;
        OfPrioFirst([q[0]] + r, p);
        assert ([q[0]] + r)[1..] == r;
        if q[0].prio == p { MinusFirst(q[0], OfPrio(q[1..], p), id); }
      }
    }
  }

  lemma {:induction false} MinusFirst(a: Action, q: seq<Action>, id: nat)
    ensures Minus([a] + q, id) == (if a.id == id then [] else [a]) + Minus(q, id)
  {
    assert ([a] + q)[0] == a && ([a] + q)[1..] == q;
  }

  lemma {:induction false} MinusSorted(q: seq<Action>, id: nat)
    requires Sorted(q)
    ensures Sorted(Minus(q, id)) && forall k :: 0 <= k < |Minus(q, id)| ==> Minus(q, id)[k] in q
  {
    if q != [] {
      MinusSorted(q[1..], id);
      var r := Minus(q[1..], id);
      forall k | 0 <= k < |r| ensures q[0].prio <= r[k].prio {
        assert r[k] in q[1..];
      }
    }
  }

  /** Disarming one timer takes just its action out of the sorted batch. */
  lemma {:induction false} Disarmed(s: seq<Action>, id: nat)
    ensures PutAll([], Minus(s, id)) == Minus(PutAll([], s), id)
  {
    hide PutAll, OfPrio, Minus;
    EmptySorted();
    PutAllSorted([], s);
    PutAllSorted([], Minus(s, id));
    MinusSorted(PutAll([], s), id);
    forall p ensures OfPrio(PutAll([], Minus(s, id)), p) == OfPrio(Minus(PutAll([], s), id), p) {
      PutAllFifo([], Minus(s, id), p);
      NoneOfPrio(Minus(s, id), p);
      MinusOfPrio(s, id, p);
      MinusOfPrio(PutAll([], s), id, p);
      PutAllFifo([], s, p);
      NoneOfPrio(s, p);
    }
    FifoUnique(PutAll([], Minus(s, id)), Minus(PutAll([], s), id));
  }

  lemma {:induction false} ArmedWithout(p: seq<Arm>, id: nat, t: nat)
    ensures ArmedFor(WithoutId(p, id), t) == Minus(ArmedFor(p, t), id)
  {
    if p != [] {
      ArmedWithout(p[1..], id, t);
      var r := WithoutId(p[1..], id);
      if p[0].id == id {
        assert WithoutId(p, id) == r;
      } else {
        assert WithoutId(p, id) == [p[0]] + r;
        assert ([p[0]] + r)[1..] == r;
      }
      if p[0].time == t { MinusFirst(ActionOf(p[0]), ArmedFor(p[1..], t), id); }
      else { assert [] + ArmedFor(p[1..], t) == ArmedFor(p[1..], t) && [] + ArmedFor(r, t) == ArmedFor(r, t); }
    }
  }

  lemma {:induction false} ArmedAfter(p: seq<Arm>, now: nat, t: nat)
    ensures ArmedFor(WithoutTime(p, now), t) == if t == now then [] else ArmedFor(p, t)
  {
    if p != [] {
      ArmedAfter(p[1..], now, t);
      var r := WithoutTime(p[1..], now);
      if p[0].time == now {
        assert WithoutTime(p, now) == r;
        assert t != now ==> [] + ArmedFor(p[1..], t) == ArmedFor(p[1..], t);
      } else {
        assert WithoutTime(p, now) == [p[0]] + r;
        assert ([p[0]] + r)[1..] == r;
      }
    }
  }

  lemma {:induction false} WithoutIdMembers(p: seq<Arm>, id: nat)
    ensures forall a :: a in WithoutId(p, id) <==> a in p && a.id != id
    ensures UniqueArms(p) ==> UniqueArms(WithoutId(p, id))
  {
    if p != [] {
      WithoutIdMembers(p[1..], id);
      assert p == [p[0]] + p[1..];
      var r := WithoutId(p[1..], id);
      if UniqueArms(p) {
        forall k | 0 <= k < |r| ensures r[k].id != p[0].id { assert r[k] in p[1..]; }
      }
    }
  }

  lemma {:induction false} WithoutTimeMembers(p: seq<Arm>, t: nat)
    ensures forall a :: a in WithoutTime(p, t) <==> a in p && a.time != t
    ensures UniqueArms(p) ==> UniqueArms(WithoutTime(p, t))
  {
    if p != [] {
      WithoutTimeMembers(p[1..], t);
      assert p == [p[0]] + p[1..];
      var r := WithoutTime(p[1..], t);
      if UniqueArms(p) {
        forall k | 0 <= k < |r| ensures r[k].id != p[0].id { assert r[k] in p[1..]; }
      }
    }
  }

  lemma {:induction false} ArmedMembers(p: seq<Arm>, t: nat)
    ensures forall x :: x in ArmedFor(p, t) <==> exists a :: a in p && a.time == t && ActionOf(a) == x
    ensures UniqueArms(p) ==> UniqueIds(ArmedFor(p, t))
  {
    if p != [] {
      ArmedMembers(p[1..], t);
      assert p == [p[0]] + p[1..];
      var r := ArmedFor(p[1..], t);
      forall x ensures x in ArmedFor(p, t) <==> exists a :: a in p && a.time == t && ActionOf(a) == x {
        if x in r {
          var a :| a in p[1..] && a.time == t && ActionOf(a) == x;
          assert a in p;
        }
        if x in ArmedFor(p, t) && x !in r { assert p[0] in p && ActionOf(p[0]) == x; }
      }
      if UniqueArms(p) {
        forall k | 0 <= k < |r| ensures r[k].id != p[0].id {
          assert r[k] in r;
          var a :| a in p[1..] && a.time == t && ActionOf(a) == r[k];
        }
      }
    }
  }

  /** In a list with unique ids, taking one entry out is leaving its id out. */
  lemma {:induction false} MinusAt(q: seq<Action>, k: int)
    requires UniqueIds(q) && 0 <= k < |q|
    ensures Minus(q, q[k].id) == q[..k] + q[k + 1..]
  {
    if k == 0 {
      MinusNone(q[1..], q[0].id);
      assert q[..0] + q[1..] == q[1..];
    } else {
      MinusAt(q[1..], k - 1);
      assert q[..k] == [q[0]] + q[1..][..k - 1] && q[k + 1..] == q[1..][k..];
      Assoc([q[0]], q[1..][..k - 1], q[1..][k..]);
    }
  }

  lemma {:induction false} MinusNone(q: seq<Action>, id: nat)
    requires forall i :: 0 <= i < |q| ==> q[i].id != id
    ensures Minus(q, id) == q
  {
    if q != [] { MinusNone(q[1..], id); }
  }

  /** Sorting keeps ids unique. */
  lemma {:induction false} BatchUnique(s: seq<Action>)
    requires UniqueIds(s)
    ensures UniqueIds(PutAll([], s)) && forall x :: x in PutAll([], s) <==> x in s
  {
    hide PutAll;
    EmptySorted();
    PutAllSorted([], s);
    var q := PutAll([], s);
    assert multiset(q) == multiset(s);
    forall x ensures x in q <==> x in s { assert x in multiset(q) <==> x in multiset(s); }
    forall i, j | 0 <= i < j < |q| ensures q[i].id != q[j].id {
      Twice(q, i, j, s);
    }
  }

  lemma {:induction false} Twice(q: seq<Action>, i: int, j: int, s: seq<Action>)
    requires 0 <= i < j < |q| && multiset(q) == multiset(s) && UniqueIds(s)
    ensures q[i].id != q[j].id
  {
    assert q[i] in multiset(s) && q[j] in multiset(s);
    OnceOnly(s, q[i]);
    CountTwo(q, i, j);
    SameById(s, q[i], q[j]);
  }

  lemma {:induction false} SameById(s: seq<Action>, a: Action, b: Action)
    requires UniqueIds(s) && a in s && b in s && a != b
    ensures a.id != b.id
  {
    var i :| 0 <= i < |s| && s[i] == a;
    var j :| 0 <= j < |s| && s[j] == b;
  }

  lemma {:induction false} CountTwo(q: seq<Action>, i: int, j: int)
    requires 0 <= i < j < |q|
    ensures q[i] == q[j] ==> multiset(q)[q[i]] >= 2
  {
    assert q == q[..i] + [q[i]] + q[i + 1..];
    assert q[j] in q[i + 1..];
  }

  lemma {:induction false} OnceOnly(s: seq<Action>, a: Action)
    requires UniqueIds(s)
    ensures multiset(s)[a] <= 1
  {
    if s != [] {
      OnceOnly(s[1..], a);
      assert s == [s[0]] + s[1..];
      if s[0] == a { assert a !in s[1..]; }
    }
  }

  lemma {:induction false} NoneArmed(p: seq<Arm>, t: nat)
    requires forall a :: a in p ==> a.time != t
    ensures ArmedFor(p, t) == []
  {
    if p != [] {
      assert p[0] in p;
      NoneArmed(p[1..], t);
    }
  }

  lemma {:induction false} WithoutIdNone(p: seq<Arm>, id: nat)
    requires forall i :: 0 <= i < |p| ==> p[i].id != id
    ensures WithoutId(p, id) == p
  {
    if p != [] { WithoutIdNone(p[1..], id); }
  }
}
