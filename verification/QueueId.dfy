/**
 The ids of queued actions: stable insertion, taking out and executing keep each of
 them in the queue at most once.
 */
module QueueIds {
  import opened PrioLists
  import opened TimerSpecs

  lemma IdsOne(a: Action)
    ensures Ids([a]) == {a.id}
  {
    assert [a][0].id in Ids([a]);
  }

  lemma {:induction false} PutIds(q: seq<Action>, a: Action)
    ensures Ids(Put(q, a)) == Ids(q) + {a.id}
  {
    IdsOne(a);
    if q == [] {
      assert Ids(q) == {};
    } else if q[0].prio > a.prio {
      IdsAppend([a], q);
    } else {
      PutIds(q[1..], a);
      IdsAppend([q[0]], Put(q[1..], a));
      IdsAppend([q[0]], q[1..]);
      assert q == [q[0]] + q[1..];
    }
  }

  lemma {:induction false} PutUnique(q: seq<Action>, a: Action)
    requires UniqueIds(q) && a.id !in Ids(q)
    ensures UniqueIds(Put(q, a))
  {
    if q != [] && q[0].prio <= a.prio {
      assert forall i :: 0 <= i < |q[1..]| ==> q[1..][i] == q[i + 1];
      PutUnique(q[1..], a);
      PutIds(q[1..], a);
      var r := Put(q[1..], a);
      forall i | 0 <= i < |r| ensures r[i].id != q[0].id {
        assert r[i].id in Ids(r);
      }
    }
  }

  /** Cutting one action out of a queue without repetitions. */
  lemma {:induction false} CutIds(q: seq<Action>, k: int)
    requires UniqueIds(q) && 0 <= k < |q|
    ensures var r := q[..k] + q[k + 1..];
      r == Minus(q, q[k].id) && UniqueIds(r) && Ids(r) == Ids(q) - {q[k].id} && q[k].id in Ids(q)
  {
    MinusAt(q, k);
    IdsAppend(q[..k], [q[k]] + q[k + 1..]);
    IdsAppend([q[k]], q[k + 1..]);
    IdsAppend(q[..k], q[k + 1..]);
    assert q == q[..k] + ([q[k]] + q[k + 1..]);
    IdsOne(q[k]);
  }

  lemma {:induction false} Suffix(q: seq<Action>, n: nat)
    requires UniqueIds(q) && n <= |q|
    ensures UniqueIds(q[n..]) && Ids(q[n..]) == Ids(q) - Ids(q[..n])
  {
    IdsAppend(q[..n], q[n..]);
    assert q == q[..n] + q[n..];
    forall i, j | 0 <= i < n <= j < |q| ensures q[i].id != q[j].id {
    }
    assert Ids(q[..n]) !! Ids(q[n..]);
  }

  lemma {:induction false} PutAllUnique(q: seq<Action>, s: seq<Action>)
    requires UniqueIds(q) && UniqueIds(s) && Ids(s) !! Ids(q)
    ensures UniqueIds(PutAll(q, s)) && Ids(PutAll(q, s)) == Ids(q) + Ids(s)
    decreases |s|
  {
    hide Put, UniqueIds;
    if s == [] {
      assert Ids(s) == {};
    } else {
      assert s == [s[0]] + s[1..];
      IdsAppend([s[0]], s[1..]);
      IdsOne(s[0]);
      PutUnique(q, s[0]);
      PutIds(q, s[0]);
      FirstUnique(s);
      PutAllUnique(Put(q, s[0]), s[1..]);
    }
  }

  lemma {:induction false} FirstUnique(s: seq<Action>)
    requires UniqueIds(s) && s != []
    ensures UniqueIds(s[1..]) && s[0].id !in Ids(s[1..])
  {
  }

  lemma {:induction false} PutAllIds(q: seq<Action>, s: seq<Action>)
    ensures Ids(PutAll(q, s)) == Ids(q) + Ids(s)
    decreases |s|
  {
    hide Put;
    if s == [] {
      assert Ids(s) == {};
    } else {
      assert s == [s[0]] + s[1..];
      IdsAppend([s[0]], s[1..]);
      IdsOne(s[0]);
      PutIds(q, s[0]);
      PutAllIds(Put(q, s[0]), s[1..]);
    }
  }

  lemma {:induction false} MinusIds(q: seq<Action>, id: nat)
    requires UniqueIds(q)
    ensures UniqueIds(Minus(q, id)) && Ids(Minus(q, id)) == Ids(q) - {id}
  {
    hide Minus;
    if k :| 0 <= k < |q| && q[k].id == id {
      CutIds(q, k);
    } else {
      MinusNone(q, id);
    }
  }
}
