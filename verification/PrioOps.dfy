/**
 Adding to and deleting from two-level priority lists, the deferred-action
 queue of a CPU, and the priority queue.
 */
module PrioOps {
  import opened Options
  import opened PrioLists

  /** The first `i` heads are of better priority than `p`, and the rest from there on is what follows. */
  lemma {:induction false} Around(gs: seq<Group>, i: int, p: nat)
    requires Proper(gs) && 0 <= i <= |gs| && forall j :: 0 <= j < i ==> gs[j].head.prio < p
    ensures Flat(gs) == Flat(gs[..i]) + Flat(gs[i..])
    ensures forall k :: 0 <= k < |Flat(gs[..i])| ==> Flat(gs[..i])[k].prio < p
    ensures (i < |gs| && gs[i].head.prio > p) || i == |gs| ==>
      forall k :: 0 <= k < |Flat(gs[i..])| ==> Flat(gs[i..])[k].prio > p
  {
    FlatSplit(gs, i);
    forall k | 0 <= k < |Flat(gs[..i])| ensures Flat(gs[..i])[k].prio < p {
      FlatPrio(gs[..i], k);
    }
    if (i < |gs| && gs[i].head.prio > p) || i == |gs| {
      forall k | 0 <= k < |Flat(gs[i..])| ensures Flat(gs[i..])[k].prio > p {
        FlatPrio(gs[i..], k);
      }
    }
  }

  /** A new head between better and worse ones. */
  lemma {:induction false} NewHead(gs: seq<Group>, i: int, g: Group)
    requires Proper(gs) && 0 <= i <= |gs| && OnePrio(g)
    requires (forall j :: 0 <= j < i ==> gs[j].head.prio < g.head.prio) && (i < |gs| ==> gs[i].head.prio > g.head.prio)
    ensures var r := gs[..i] + [g] + gs[i..]; Proper(r) && Flat(r) == PutAll(Flat(gs), Members(g))
  {
    Around(gs, i, g.head.prio);
    PutRun(Flat(gs[..i]), Members(g), Flat(gs[i..]), g.head.prio);
    FlatAppend(gs[..i] + [g], gs[i..]);
    FlatAppend(gs[..i], [g]);
    FlatOne(g);
    HeadBetween(gs, i, g);
  }

  lemma {:induction false} HeadBetween(gs: seq<Group>, i: int, g: Group)
    requires Proper(gs) && 0 <= i <= |gs| && OnePrio(g)
    requires (forall j :: 0 <= j < i ==> gs[j].head.prio < g.head.prio) && (i < |gs| ==> gs[i].head.prio > g.head.prio)
    ensures Proper(gs[..i] + [g] + gs[i..])
  {
    var r := gs[..i] + [g] + gs[i..];
    assert forall a :: 0 <= a < |r| ==> r[a] == (if a < i then gs[a] else if a == i then g else gs[a - 1]);
  }

  /** The entries of `g` go behind those of the head of the same priority. */
  lemma {:induction false} SameHead(gs: seq<Group>, i: int, g: Group)
    requires Proper(gs) && 0 <= i < |gs| && OnePrio(g) && gs[i].head.prio == g.head.prio
    ensures var r := gs[i := Group(gs[i].head, gs[i].rest + Members(g))];
      Proper(r) && Flat(r) == PutAll(Flat(gs), Members(g))
  {
    hide Flat, PutAll;
    var p := g.head.prio;
    Around(gs, i, p);
    Around(gs, i + 1, p + 1);
    var n := Group(gs[i].head, gs[i].rest + Members(g));
    var r := gs[i := n];
    assert r[..i] == gs[..i] && r[i + 1..] == gs[i + 1..] && r[i] == n;
    FlatAround(gs, i);
    FlatAround(r, i);
    assert Members(n) == Members(gs[i]) + Members(g);
    assert forall k :: 0 <= k < |Members(gs[i])| ==> Members(gs[i])[k].prio == p;
    Behind(gs, i, p);
    PutRun(Flat(gs[..i]) + Members(gs[i]), Members(g), Flat(gs[i + 1..]), p);
    Assoc(Flat(gs[..i]), Members(gs[i]), Members(g));
    assert OnePrio(n);
  }

  lemma {:induction false} Behind(gs: seq<Group>, i: int, p: nat)
    requires Proper(gs) && 0 <= i < |gs| && gs[i].head.prio == p
    ensures var q := Flat(gs[i + 1..]); forall k :: 0 <= k < |q| ==> q[k].prio > p
  {
    var hs := gs[i + 1..];
    forall k | 0 <= k < |Flat(hs)| ensures Flat(hs)[k].prio > p {
      FlatPrio(hs, k);
    }
  }

  ghost predicate IsHead(gs: seq<Group>, id: nat) { exists i :: 0 <= i < |gs| && gs[i].head.id == id }

  lemma {:induction false} HeadAt(gs: seq<Group>, i: int)
    requires 0 <= i < |gs|
    ensures IsHead(gs, gs[i].head.id)
  {
  }

  lemma {:induction false} HeadsKept(gs: seq<Group>, r: seq<Group>, f: int -> int)
    requires forall i :: 0 <= i < |gs| ==> 0 <= f(i) < |r| && r[f(i)].head == gs[i].head
    ensures forall id :: IsHead(gs, id) ==> IsHead(r, id)
  {
    forall id | IsHead(gs, id) ensures IsHead(r, id) {
      var i :| 0 <= i < |gs| && gs[i].head.id == id;
      HeadAt(r, f(i));
    }
  }

  lemma {:induction false} HeadsBeside(gs: seq<Group>, i: int, g: Group)
    requires 0 <= i <= |gs|
    ensures forall id :: IsHead(gs, id) ==> IsHead(gs[..i] + [g] + gs[i..], id)
  {
    HeadsKept(gs, gs[..i] + [g] + gs[i..], k => if k < i then k else k + 1);
  }

  lemma {:induction false} HeadsBefore(gs: seq<Group>, i: int, rest: seq<Action>)
    requires 0 <= i < |gs|
    ensures forall id :: IsHead(gs, id) ==> IsHead(gs[i := Group(gs[i].head, rest)], id)
  {
    HeadsKept(gs, gs[i := Group(gs[i].head, rest)], k => k);
  }

  /** A head with its followers, in the place its priority asks for. */
  function Added(gs: seq<Group>, g: Group): seq<Group> {
    if gs == [] || gs[0].head.prio > g.head.prio then [g] + gs
    else if gs[0].head.prio == g.head.prio then [Group(gs[0].head, gs[0].rest + Members(g))] + gs[1..]
    else [gs[0]] + Added(gs[1..], g)
  }

  /** The place, given the heads before it. */
  lemma {:induction false} AddedAt(gs: seq<Group>, g: Group, i: int)
    requires 0 <= i <= |gs| && (forall j :: 0 <= j < i ==> gs[j].head.prio < g.head.prio)
    ensures (i < |gs| ==> gs[i].head.prio > g.head.prio) ==> Added(gs, g) == gs[..i] + [g] + gs[i..]
    ensures i < |gs| && gs[i].head.prio == g.head.prio ==>
      Added(gs, g) == gs[i := Group(gs[i].head, gs[i].rest + Members(g))]
  {
    if i > 0 {
      AddedAt(gs[1..], g, i - 1);
      assert gs[..i] == [gs[0]] + gs[1..][..i - 1] && gs[i..] == gs[1..][i - 1..];
      assert i < |gs| ==> gs == [gs[0]] + gs[1..];
    }
  }

  /** Scans for the place of `g` and links it there; heads stay heads. */
  method AddGroup(gs: seq<Group>, g: Group) returns (r: seq<Group>)
    requires Proper(gs) && OnePrio(g)
    ensures Proper(r) && Flat(r) == PutAll(Flat(gs), Members(g)) && forall id :: IsHead(gs, id) ==> IsHead(r, id)
    ensures r == Added(gs, g)
  {
    hide Proper, Flat, Members, OnePrio, PutAll, IsHead, Added;
    var i := 0;
    while i < |gs|
      invariant 0 <= i <= |gs| && forall j :: 0 <= j < i ==> gs[j].head.prio < g.head.prio
    {
      if gs[i].head.prio > g.head.prio {
        NewHead(gs, i, g);
        AddedAt(gs, g, i);
        HeadsBeside(gs, i, g);
        r := gs[..i] + [g] + gs[i..];
        return;
      } else if gs[i].head.prio == g.head.prio {
        SameHead(gs, i, g);
        AddedAt(gs, g, i);
        HeadsBefore(gs, i, gs[i].rest + Members(g));
        r := gs[i := Group(gs[i].head, gs[i].rest + Members(g))];
        return;
      }
      i := i + 1;
    }
    NewHead(gs, |gs|, g);
    AddedAt(gs, g, |gs|);
    HeadsBeside(gs, |gs|, g);
    assert gs[..|gs|] + [g] + gs[|gs|..] == gs + [g];
    r := gs + [g];
  }

  /** Adds one entry. */
  method Add(gs: seq<Group>, a: Action) returns (r: seq<Group>)
    requires Proper(gs)
    ensures Proper(r) && Flat(r) == Put(Flat(gs), a) && forall id :: IsHead(gs, id) ==> IsHead(r, id)
  {
    r := AddGroup(gs, Group(a, []));
    assert Members(Group(a, [])) == [a];
    assert PutAll(Flat(gs), [a]) == PutAll(Put(Flat(gs), a), [a][1..]);
  }

  /** Position in the flattened list of entry `j` of group `i`. */
  ghost function Rank(gs: seq<Group>, i: int, j: int): int
    requires 0 <= i < |gs|
  {
    |Flat(gs[..i])| + j
  }

  /** Where the entry with `id` is. */
  method Find(gs: seq<Group>, id: nat) returns (found: bool, i: nat, j: nat)
    ensures found ==> i < |gs| && j <= |gs[i].rest| && j < |Members(gs[i])| && Members(gs[i])[j].id == id
    ensures !found ==> forall k :: 0 <= k < |Flat(gs)| ==> Flat(gs)[k].id != id
  {
    i := 0;
    while i < |gs|
      invariant i <= |gs| && forall k :: 0 <= k < |Flat(gs[..i])| ==> Flat(gs[..i])[k].id != id
    {
      if gs[i].head.id == id { return true, i, 0; }
      j := 0;
      while j < |gs[i].rest|
        invariant j <= |gs[i].rest| && forall k :: 0 <= k < j ==> gs[i].rest[k].id != id
      {
        if gs[i].rest[j].id == id { return true, i, j + 1; }
        j := j + 1;
      }
      NotHere(gs, i, id);
      i := i + 1;
    }
    assert gs[..i] == gs;
    return false, 0, 0;
  }

  lemma {:induction false} NotHere(gs: seq<Group>, i: int, id: nat)
    requires 0 <= i < |gs| && gs[i].head.id != id && forall k :: 0 <= k < |gs[i].rest| ==> gs[i].rest[k].id != id
    requires forall k :: 0 <= k < |Flat(gs[..i])| ==> Flat(gs[..i])[k].id != id
    ensures var q := Flat(gs[..i + 1]); forall k :: 0 <= k < |q| ==> q[k].id != id
  {
    assert gs[..i + 1] == gs[..i] + [gs[i]];
    FlatAppend(gs[..i], [gs[i]]);
    FlatOne(gs[i]);
  }

  /** Without entry `j` of group `i`: the first entry behind a deleted head becomes the head. */
  function Deleted(gs: seq<Group>, i: int, j: int): seq<Group>
    requires 0 <= i < |gs| && 0 <= j <= |gs[i].rest|
  {
    var g := gs[i];
    if j > 0 then gs[i := Group(g.head, g.rest[..j - 1] + g.rest[j..])]
    else if g.rest != [] then gs[i := Group(g.rest[0], g.rest[1..])]
    else gs[..i] + gs[i + 1..]
  }

  /** Deletes entry `j` of group `i` and no other. */
  method Delete(gs: seq<Group>, i: int, j: int) returns (r: seq<Group>)
    requires Proper(gs) && 0 <= i < |gs| && 0 <= j <= |gs[i].rest|
    ensures Proper(r) && 0 <= Rank(gs, i, j) < |Flat(gs)| && Flat(gs)[Rank(gs, i, j)] == Members(gs[i])[j]
    ensures Flat(r) == Flat(gs)[..Rank(gs, i, j)] + Flat(gs)[Rank(gs, i, j) + 1..]
    ensures r == Deleted(gs, i, j) && forall id :: IsHead(gs, id) && id != Members(gs[i])[j].id ==> IsHead(r, id)
  {
    hide Flat, Proper, Members;
    DeletedIs(gs, i, j);
    r := Deleted(gs, i, j);
  }

  lemma {:induction false} DeletedIs(gs: seq<Group>, i: int, j: int)
    requires Proper(gs) && 0 <= i < |gs| && 0 <= j <= |gs[i].rest|
    ensures var r := Deleted(gs, i, j);
      && Proper(r) && 0 <= Rank(gs, i, j) < |Flat(gs)| && Flat(gs)[Rank(gs, i, j)] == Members(gs[i])[j]
      && Flat(r) == Flat(gs)[..Rank(gs, i, j)] + Flat(gs)[Rank(gs, i, j) + 1..]
      && forall id :: IsHead(gs, id) && id != Members(gs[i])[j].id ==> IsHead(r, id)
  {
    hide Flat, Proper, Members;
    var g, r := gs[i], Deleted(gs, i, j);
    FlatAround(gs, i);
    MembersLength(g);
    CutMiddle(Flat(gs[..i]), Members(g), Flat(gs[i + 1..]), j);
    if j > 0 {
      Shrunk(gs, i, j, r);
      HeadsKept(gs, r, k => k);
    } else if g.rest != [] {
      Shrunk(gs, i, j, r);
      OtherHeads(gs, r, i, k => k);
    } else {
      Dropped(gs, i);
      OtherHeads(gs, r, i, k => if k < i then k else k - 1);
    }
  }

  lemma {:induction false} OtherHeads(gs: seq<Group>, r: seq<Group>, i: int, f: int -> int)
    requires 0 <= i < |gs| && forall k :: 0 <= k < |gs| && k != i ==> 0 <= f(k) < |r| && r[f(k)].head == gs[k].head
    ensures forall id :: IsHead(gs, id) && id != gs[i].head.id ==> IsHead(r, id)
  {
    forall id | IsHead(gs, id) && id != gs[i].head.id ensures IsHead(r, id) {
      var k :| 0 <= k < |gs| && gs[k].head.id == id;
      HeadAt(r, f(k));
    }
  }

  lemma {:induction false} MembersLength(g: Group)
    ensures |Members(g)| == |g.rest| + 1 && Members(g)[0] == g.head
  {
  }

  lemma {:induction false} CutMiddle(a: seq<Action>, m: seq<Action>, b: seq<Action>, j: int)
    requires 0 <= j < |m|
    ensures var q, k := a + m + b, |a| + j;
      q[k] == m[j] && q[..k] + q[k + 1..] == a + (m[..j] + m[j + 1..]) + b
  {
  }

  lemma {:induction false} Shrunk(gs: seq<Group>, i: int, j: int, r: seq<Group>)
    requires Proper(gs) && 0 <= i < |gs| && 0 <= j <= |gs[i].rest| && |r| == |gs| && r == gs[i := r[i]]
    requires j > 0 || gs[i].rest != []
    requires var g := gs[i];
      r[i] == if j > 0 then Group(g.head, g.rest[..j - 1] + g.rest[j..]) else Group(g.rest[0], g.rest[1..])
    ensures var m := Members(gs[i]);
      0 <= j < |m| && Proper(r) && Flat(r) == Flat(gs[..i]) + (m[..j] + m[j + 1..]) + Flat(gs[i + 1..])
  {
    FlatAround(r, i);
    assert r[..i] == gs[..i] && r[i + 1..] == gs[i + 1..];
    assert OnePrio(gs[i]);
    assert OnePrio(r[i]);
    var m := Members(gs[i]);
    assert Members(r[i]) == m[..j] + m[j + 1..];
  }

  lemma {:induction false} Dropped(gs: seq<Group>, i: int)
    requires Proper(gs) && 0 <= i < |gs| && gs[i].rest == []
    ensures var r, m := gs[..i] + gs[i + 1..], Members(gs[i]);
      Proper(r) && |m| == 1 && Flat(r) == Flat(gs[..i]) + (m[..0] + m[1..]) + Flat(gs[i + 1..])
  {
    var r, m := gs[..i] + gs[i + 1..], Members(gs[i]);
    FlatAppend(gs[..i], gs[i + 1..]);
    assert m[..0] + m[1..] == [];
    assert Flat(gs[..i]) + [] == Flat(gs[..i]);
    assert forall a :: 0 <= a < |r| ==> r[a] == (if a < i then gs[a] else gs[a + 1]);
  }

  lemma {:induction false} PutAllAppend(q: seq<Action>, a: seq<Action>, b: seq<Action>)
    ensures PutAll(q, a + b) == PutAll(PutAll(q, a), b)
    decreases |a|
  {
    hide Put;
    if a == [] {
      assert a + b == b;
    } else {
      assert (a + b)[0] == a[0] && (a + b)[1..] == a[1..] + b;
      PutAllAppend(Put(q, a[0]), a[1..], b);
    }
  }

  /** Adding a proper list to an empty one entry by entry gives that list back. */
  lemma {:induction false} PutAllFresh(gs: seq<Group>)
    requires Proper(gs)
    ensures PutAll([], Flat(gs)) == Flat(gs)
  {
    FlatSorted(gs);
    PutSortedRun([], Flat(gs));
    assert [] + Flat(gs) == Flat(gs);
  }

  lemma {:induction false} PutSortedRun(b: seq<Action>, s: seq<Action>)
    requires Sorted(b + s)
    ensures PutAll(b, s) == b + s
    decreases |s|
  {
    if s == [] {
      assert b + s == b;
    } else {
      assert forall i :: 0 <= i < |b| ==> b[i] == (b + s)[i] && (b + s)[|b|] == s[0];
      PutBehind(b, [], s[0]);
      assert b + [] == b;
      assert (b + [s[0]]) + s[1..] == b + s;
      PutSortedRun(b + [s[0]], s[1..]);
    }
  }

  /** The deferred actions of one CPU. */
  class DeferredActions {
    var pending: seq<Group>
    var executers: nat
    /** The actions marked as being on this CPU's list. */
    var hosted: set<nat>

    ghost predicate Valid()
      reads this
    {
      Proper(pending)
    }

    ghost function Queue(): seq<Action>
      reads this
    {
      Flat(pending)
    }

    constructor ()
      ensures Valid() && Queue() == [] && executers == 0 && hosted == {}
    {
      pending, executers, hosted := [], 0, {};
    }

    /** One action with its followers, unless it is marked as queued already. */
    method Schedule(g: Group)
      requires Valid() && OnePrio(g)
      modifies this`pending, this`hosted
      ensures Valid() && Queue() == if g.head.id in old(hosted) then old(Queue()) else PutAll(old(Queue()), Members(g))
      ensures hosted == old(hosted) + {g.head.id}
    {
      if g.head.id in hosted { return; }
      hosted := hosted + {g.head.id};
      if pending == [] {
        pending := [g];
        FlatOne(g);
        PutAllFresh(pending);
      } else {
        pending := AddGroup(pending, g);
      }
    }

    /** A whole two-level list of actions, as a timer tick hands over. */
    method ScheduleAll(actions: seq<Group>)
      requires Valid() && Proper(actions)
      modifies this`pending
      ensures Valid() && Queue() == PutAll(old(Queue()), Flat(actions))
    {
      if actions == [] { return; }
      if pending == [] {
        pending := actions;
        PutAllFresh(actions);
        return;
      }
      ghost var q := Queue();
      var i := 0;
      while i < |actions|
        invariant 0 <= i <= |actions| && Valid() && Queue() == PutAll(q, Flat(actions[..i]))
      {
        assert actions[..i + 1] == actions[..i] + [actions[i]];
        FlatAppend(actions[..i], [actions[i]]);
        FlatOne(actions[i]);
        PutAllAppend(q, Flat(actions[..i]), Members(actions[i]));
        pending := AddGroup(pending, actions[i]);
        i := i + 1;
      }
      assert actions[..i] == actions;
    }

    /** Takes an action that is still queued out again; its mark stays. */
    method Deschedule(id: nat) returns (ghost k: int)
      requires Valid()
      modifies this`pending
      ensures Valid() && -1 <= k < |old(Queue())|
      ensures k == -1 ==> Queue() == old(Queue()) && forall i :: 0 <= i < |Queue()| ==> Queue()[i].id != id
      ensures k >= 0 ==> old(Queue())[k].id == id && Queue() == old(Queue())[..k] + old(Queue())[k + 1..]
    {
      hide Flat, Proper, Members;
      var found, i, j := Find(pending, id);
      if !found { return -1; }
      k := Rank(pending, i, j);
      pending := Delete(pending, i, j);
    }

    /** The first action leaves the queue and loses its mark. */
    method TakeFirst() returns (action: Action)
      requires Valid() && pending != []
      modifies this`pending, this`hosted
      ensures Valid() && action == old(pending[0].head) && old(Queue()) == [action] + Queue()
      ensures hosted == old(hosted) - {action.id}
    {
      hide Proper, Flat;
      FirstEntry(pending);
      ghost var gs := pending;
      action := pending[0].head;
      hosted := hosted - {action.id};
      pending := Delete(pending, 0, 0);
      assert gs[..0] == [];
    }

    /** Executes the first actions of the queue, as long as they are urgent enough and at most `limit`. */
    method Fire(priority: nat, limit: nat) returns (fired: seq<Action>)
      requires Valid() && limit > 0
      modifies this
      ensures Valid() && executers == old(executers) && old(Queue()) == fired + Queue()
      ensures hosted == old(hosted) - Ids(fired)
      ensures old(executers) > 0 ==> fired == []
      ensures |fired| <= limit && forall i :: 0 <= i < |fired| ==> fired[i].prio <= priority
      ensures old(executers) == 0 && |fired| < limit && Queue() != [] ==> Queue()[0].prio > priority
    {
      hide Flat, Proper;
      fired := [];
      assert Ids(fired) == {};
      FirstEntry(pending);
      if executers > 0 || pending == [] { return; }
      executers := executers + 1;
      var more := true;
      while more && |fired| < limit
        invariant Valid() && executers == old(executers) + 1 && old(Queue()) == fired + Queue()
        invariant hosted == old(hosted) - Ids(fired)
        invariant |fired| <= limit && forall i :: 0 <= i < |fired| ==> fired[i].prio <= priority
        invariant !more && Queue() != [] ==> Queue()[0].prio > priority
        decreases limit - |fired|, more
      {
        more := false;
        FirstEntry(pending);
        if pending != [] && priority >= pending[0].head.prio {
          var action := TakeFirst();
          FiredOne(fired, action, Queue());
          IdsAppend(fired, [action]);
          fired := fired + [action];
          more := true;
        }
      }
      executers := executers - 1;
    }
  }

  /** The priority queue of kernel/ds/pqueue.c. */
  class PriorityQueue {
    var groups: seq<Group>

    ghost predicate Valid()
      reads this
    {
      Proper(groups)
    }

    ghost function Queue(): seq<Action>
      reads this
    {
      Flat(groups)
    }

    constructor ()
      ensures Valid() && Queue() == []
    {
      groups := [];
    }

    method Insert(a: Action)
      requires Valid()
      modifies this
      ensures Valid() && Queue() == Put(old(Queue()), a)
      ensures forall p :: OfPrio(Queue(), p) == OfPrio(old(Queue()), p) + if a.prio == p then [a] else []
    {
      hide Flat, Proper, Put, OfPrio;
      FlatSorted(groups);
      forall p ensures OfPrio(Put(Queue(), a), p) == OfPrio(Queue(), p) + if a.prio == p then [a] else [] {
        PutFifo(Queue(), a, p);
      }
      groups := Add(groups, a);
    }

    /** Deletes the entry with `id`, head or not, and no other. */
    method Remove(id: nat) returns (ghost k: int)
      requires Valid()
      modifies this
      ensures Valid() && -1 <= k < |old(Queue())|
      ensures k == -1 ==> Queue() == old(Queue()) && forall i :: 0 <= i < |Queue()| ==> Queue()[i].id != id
      ensures k >= 0 ==> old(Queue())[k].id == id && Queue() == old(Queue())[..k] + old(Queue())[k + 1..]
    {
      hide Flat, Proper, Members;
      var found, i, j := Find(groups, id);
      if !found { return -1; }
      k := Rank(groups, i, j);
      groups := Delete(groups, i, j);
    }

    /** The oldest entry of the best priority leaves the queue. */
    method DeleteMin() returns (min: Option<Action>)
      requires Valid()
      modifies this
      ensures Valid() && old(Queue()) == (if min.Some? then [min.value] else []) + Queue()
      ensures (min.None? <==> old(Queue()) == [])
      ensures min.Some? ==> forall i :: 0 <= i < |Queue()| ==> min.value.prio <= Queue()[i].prio
      ensures min.Some? ==> OfPrio(old(Queue()), min.value.prio) == [min.value] + OfPrio(Queue(), min.value.prio)
    {
      hide Flat, Proper, Members, OfPrio;
      ghost var q, gs := Queue(), groups;
      FirstEntry(groups);
      if groups == [] { return None; }
      FlatSorted(groups);
      OfPrioFirst(q, q[0].prio);
      min := Some(groups[0].head);
      groups := Delete(groups, 0, 0);
      assert gs[..0] == [];
      assert Rank(gs, 0, 0) == 0;
      assert q[1..] == Queue();
    }
  }

  lemma {:induction false} FirstEntry(gs: seq<Group>)
    ensures Flat([]) == [] && (gs != [] ==> Flat(gs) != [] && Flat(gs)[0] == gs[0].head)
  {
  }

  lemma FiredOne(fired: seq<Action>, a: Action, q: seq<Action>)
    ensures fired + ([a] + q) == (fired + [a]) + q
  {
  }
}
