/**
 Runs of the deferred-action queue: actions are scheduled one by one or in
 batches, taken out again, and executed (kernel/generic/def_actions.c).
 */
module DeferRuns {
  import opened PrioLists
  import opened PrioOps
  import opened TimerSpecs
  import opened QueueIds

  datatype Call = Post(g: Group) | Batch(actions: seq<Group>) | Withdraw(id: nat) | Execute(priority: nat)

  /** The queue, and the actions that carry the mark of a CPU. */
  datatype Sched = Sched(q: seq<Action>, marks: set<nat>)

  const EMPTY := Sched([], {})

  /** Only scheduling one action looks at its mark, and only that sets it; executing an action clears it. */
  ghost function After(s: Sched, c: Call, limit: nat): Sched {
    match c
    case Post(g) => if g.head.id in s.marks then s else Sched(PutAll(s.q, Members(g)), s.marks + {g.head.id})
    case Batch(actions) => s.(q := PutAll(s.q, Flat(actions)))
    case Withdraw(id) => s.(q := Minus(s.q, id))
    case Execute(priority) =>
      var n := Ready(s.q, priority, limit);
      Sched(s.q[n..], s.marks - Ids(s.q[..n]))
  }

  ghost function AfterAll(s: Sched, calls: seq<Call>, limit: nat): Sched {
    if calls == [] then s else After(AfterAll(s, calls[..|calls| - 1], limit), calls[|calls| - 1], limit)
  }

  ghost function Executed(s: Sched, c: Call, limit: nat): seq<Action> {
    if c.Execute? then s.q[..Ready(s.q, c.priority, limit)] else []
  }

  /** Everything executed in a run, in order. */
  ghost function Log(s: Sched, calls: seq<Call>, limit: nat): seq<Action> {
    if calls == [] then []
    else
      var most := calls[..|calls| - 1];
      Log(s, most, limit) + Executed(AfterAll(s, most, limit), calls[|calls| - 1], limit)
  }

  ghost predicate Fresh(s: Sched, actions: seq<Action>) { UniqueIds(actions) && Ids(actions) !! Ids(s.q) }

  /** What the source asks of its callers: the links of what is linked are free, and lists are proper. */
  ghost predicate Legal(s: Sched, c: Call) {
    match c
    case Post(g) => OnePrio(g) && (g.head.id in s.marks || Fresh(s, Members(g)))
    case Batch(actions) => Proper(actions) && Fresh(s, Flat(actions))
    case _ => true
  }

  ghost predicate LegalRun(s: Sched, calls: seq<Call>, limit: nat) {
    calls != [] ==>
      && LegalRun(s, calls[..|calls| - 1], limit)
      && Legal(AfterAll(s, calls[..|calls| - 1], limit), calls[|calls| - 1])
  }

  ghost predicate Shows(d: DeferredActions, s: Sched)
    reads d
  {
    d.Valid() && d.executers == 0 && d.Queue() == s.q && UniqueIds(s.q) && d.hosted == s.marks
  }

  /** Every legal call keeps each action queued at most once. */
  lemma {:induction false} OnceQueued(s: Sched, c: Call, limit: nat)
    requires UniqueIds(s.q) && Legal(s, c)
    ensures UniqueIds(After(s, c, limit).q)
  {
    hide Minus, PutAll, Ready, Flat, UniqueIds, Proper;
    match c
    case Post(g) => if g.head.id !in s.marks { PutAllUnique(s.q, Members(g)); }
    case Batch(actions) => PutAllUnique(s.q, Flat(actions));
    case Withdraw(id) => MinusIds(s.q, id);
    case Execute(priority) => Suffix(s.q, Ready(s.q, priority, limit));
  }

  /** Every legal call does to the queue what it does to the plain state. */
  method Step(d: DeferredActions, ghost s: Sched, c: Call, limit: nat) returns (fired: seq<Action>)
    requires Shows(d, s) && Legal(s, c) && limit > 0
    modifies d
    ensures Shows(d, After(s, c, limit)) && fired == Executed(s, c, limit)
  {
    hide PutAll, Ready, Minus, UniqueIds, Flat, Members, OnePrio, Proper;
    OnceQueued(s, c, limit);
    fired := [];
    match c
    case Post(g) =>
      d.Schedule(g);
    case Batch(actions) =>
      d.ScheduleAll(actions);
    case Withdraw(id) =>
      ghost var k := d.Deschedule(id);
      if k >= 0 { MinusAt(s.q, k); } else { MinusNone(s.q, id); }
    case Execute(priority) =>
      fired := d.Fire(priority, limit);
      assert s.q[..|fired|] == fired && s.q[|fired|..] == d.Queue();
      if |fired| < limit && |fired| < |s.q| { assert s.q[|fired|] == d.Queue()[0]; }
      FiredReady(s.q, |fired|, priority, limit);
  }

  /** Every legal run from the empty queue executes what the plain state says. */
  method Run(calls: seq<Call>, limit: nat) returns (log: seq<Action>, d: DeferredActions)
    requires limit > 0 && LegalRun(EMPTY, calls, limit)
    ensures log == Log(EMPTY, calls, limit) && Shows(d, AfterAll(EMPTY, calls, limit))
  {
    d := new DeferredActions();
    log := [];
    assert calls[..|calls|] == calls;
    var i := 0;
    LegalPrefix(EMPTY, calls, limit, 0);
    while i < |calls|
      invariant 0 <= i <= |calls| && fresh(d) && LegalRun(EMPTY, calls, limit)
      invariant log == Log(EMPTY, calls[..i], limit) && Shows(d, AfterAll(EMPTY, calls[..i], limit))
    {
      assert calls[..i + 1][..|calls[..i + 1]| - 1] == calls[..i];
      LegalPrefix(EMPTY, calls, limit, i + 1);
      var fired := Step(d, AfterAll(EMPTY, calls[..i], limit), calls[i], limit);
      log := log + fired;
      i := i + 1;
    }
  }

  lemma {:induction false} LegalPrefix(s: Sched, calls: seq<Call>, limit: nat, n: nat)
    requires LegalRun(s, calls, limit) && n <= |calls|
    ensures LegalRun(s, calls[..n], limit)
    decreases |calls|
  {
    if n == |calls| {
      assert calls[..n] == calls;
    } else {
      LegalPrefix(s, calls[..|calls| - 1], limit, n);
      assert calls[..|calls| - 1][..n] == calls[..n];
    }
  }

  ghost predicate Posts(c: Call, id: nat) { c.Post? && c.g.head.id == id }

  /** What call number `j` of a run executes. */
  ghost function ExecutedAt(calls: seq<Call>, j: int, limit: nat): set<nat>
    requires 0 <= j < |calls|
  {
    Ids(Executed(AfterAll(EMPTY, calls[..j], limit), calls[j], limit))
  }

  /** The action was scheduled by itself at `i`, and not executed since. */
  ghost predicate PostedAt(calls: seq<Call>, i: int, id: nat, limit: nat) {
    0 <= i < |calls| && Posts(calls[i], id) && forall j :: i < j < |calls| ==> id !in ExecutedAt(calls, j, limit)
  }

  lemma {:induction false} PostedMore(calls: seq<Call>, i: int, id: nat, limit: nat)
    requires calls != [] && 0 <= i < |calls| - 1
    ensures PostedAt(calls, i, id, limit)
      <==> PostedAt(calls[..|calls| - 1], i, id, limit) && id !in ExecutedAt(calls, |calls| - 1, limit)
  {
    hide Executed, AfterAll, Ids;
    var most := calls[..|calls| - 1];
    forall j | 0 <= j < |most| ensures ExecutedAt(calls, j, limit) == ExecutedAt(most, j, limit) {
      assert calls[..j] == most[..j];
    }
  }

  /** An action carries the mark exactly if it was scheduled by itself and not executed since. */
  lemma {:induction false} MarkedSince(calls: seq<Call>, id: nat, limit: nat)
    ensures id in AfterAll(EMPTY, calls, limit).marks <==> exists i :: PostedAt(calls, i, id, limit)
    decreases |calls|
  {
    if calls != [] {
      var most, n := calls[..|calls| - 1], |calls| - 1;
      var c, s := calls[n], AfterAll(EMPTY, most, limit);
      MarkedSince(most, id, limit);
      MarkStep(s, c, id, limit);
      assert ExecutedAt(calls, n, limit) == Ids(Executed(s, c, limit));
      if Posts(c, id) {
        assert PostedAt(calls, n, id, limit);
      } else {
        forall i | 0 <= i < n
          ensures PostedAt(calls, i, id, limit) <==> PostedAt(most, i, id, limit) && id !in ExecutedAt(calls, n, limit)
        {
          PostedMore(calls, i, id, limit);
        }
      }
    }
  }

  lemma {:induction false} MarkStep(s: Sched, c: Call, id: nat, limit: nat)
    ensures id in After(s, c, limit).marks
      <==> Posts(c, id) || (id in s.marks && id !in Ids(Executed(s, c, limit)))
  {
    hide Ready, PutAll, Minus;
    assert Ids([]) == {};
  }

  /** Scheduling an action puts it into the queue exactly if it carries no mark. */
  lemma {:induction false} QueuedUnlessMarked(calls: seq<Call>, g: Group, limit: nat)
    ensures var s, t := AfterAll(EMPTY, calls, limit), AfterAll(EMPTY, calls + [Post(g)], limit);
      && t.q == (if g.head.id in s.marks then s.q else PutAll(s.q, Members(g)))
      && (g.head.id in Ids(t.q) <==> g.head.id in Ids(s.q) || g.head.id !in s.marks)
  {
    assert (calls + [Post(g)])[..|calls + [Post(g)]| - 1] == calls;
    var s := AfterAll(EMPTY, calls, limit);
    PutAllIds(s.q, Members(g));
    assert Members(g)[0].id in Ids(Members(g));
  }

  /** The call links action `id` without looking at its mark. */
  ghost predicate Brings(c: Call, id: nat) {
    match c
    case Batch(actions) => id in Ids(Flat(actions))
    case Post(g) => id in Ids(g.rest)
    case _ => false
  }

  /** An action that carries the mark and is not queued is lost until it comes in a batch or behind another one. */
  lemma {:induction false} LostUntilBrought(s: Sched, calls: seq<Call>, limit: nat, id: nat)
    requires UniqueIds(s.q) && LegalRun(s, calls, limit) && id in s.marks && id !in Ids(s.q)
    requires forall i :: 0 <= i < |calls| ==> !Brings(calls[i], id)
    ensures id !in Ids(Log(s, calls, limit))
    ensures var t := AfterAll(s, calls, limit); UniqueIds(t.q) && id in t.marks && id !in Ids(t.q)
    decreases |calls|
  {
    hide Brings, UniqueIds;
    assert Ids([]) == {};
    if calls != [] {
      var most, c := calls[..|calls| - 1], calls[|calls| - 1];
      LostUntilBrought(s, most, limit, id);
      var t := AfterAll(s, most, limit);
      LostStep(t, c, limit, id);
      IdsAppend(Log(s, most, limit), Executed(t, c, limit));
    }
  }

  lemma {:induction false} LostStep(s: Sched, c: Call, limit: nat, id: nat)
    requires UniqueIds(s.q) && Legal(s, c) && id in s.marks && id !in Ids(s.q) && !Brings(c, id)
    ensures id !in Ids(Executed(s, c, limit))
    ensures var t := After(s, c, limit); UniqueIds(t.q) && id in t.marks && id !in Ids(t.q)
  {
    hide Minus, PutAll, Ready, Flat, UniqueIds, Proper;
    OnceQueued(s, c, limit);
    assert Ids([]) == {};
    match c
    case Post(g) =>
      PutAllIds(s.q, Members(g));
      IdsAppend([g.head], g.rest);
      IdsOne(g.head);
    case Batch(actions) => PutAllIds(s.q, Flat(actions));
    case Withdraw(gone) => MinusIds(s.q, gone);
    case Execute(priority) =>
      var n := Ready(s.q, priority, limit);
      Suffix(s.q, n);
      IdsAppend(s.q[..n], s.q[n..]);
      assert s.q == s.q[..n] + s.q[n..];
  }

  /** An action that only ever comes in batches carries no mark, so scheduling it always works. */
  lemma {:induction false} BatchedUnmarked(calls: seq<Call>, limit: nat, id: nat)
    requires forall i :: 0 <= i < |calls| ==> !Posts(calls[i], id)
    ensures id !in AfterAll(EMPTY, calls, limit).marks
  {
    MarkedSince(calls, id, limit);
  }

  const ONE := Action(1, 0)
  const ALONE := Group(ONE, [])

  lemma {:induction false} OneFacts(limit: nat)
    ensures Ids([]) == {} && Ids([ONE]) == {1} && Minus([ONE], 1) == [] && PutAll([], [ONE]) == [ONE]
    ensures Members(ALONE) == [ONE] && Flat([ALONE]) == [ONE] && (limit > 0 ==> Ready([ONE], 0, limit) == 1)
  {
    IdsOne(ONE);
    FlatOne(ALONE);
    assert [ONE][1..] == [] && Put([], ONE) == [ONE];
    assert Minus([ONE][1..], 1) == [];
  }

  /** Scheduled, taken out and scheduled again, an action is lost. */
  lemma {:induction false} LostExample(limit: nat)
    requires limit > 0
    ensures Log(EMPTY, [Post(ALONE), Withdraw(1), Post(ALONE), Execute(0)], limit) == []
    ensures LegalRun(EMPTY, [Post(ALONE), Withdraw(1), Post(ALONE), Execute(0)], limit)
  {
    hide Ids, Minus, PutAll, Flat, Members;
    OneFacts(limit);
    assert UniqueIds([ONE]) && OnePrio(ALONE) && Proper([ALONE]);
    var c1, c2, c3 := [Post(ALONE)], [Post(ALONE), Withdraw(1)], [Post(ALONE), Withdraw(1), Post(ALONE)];
    var c4 := [Post(ALONE), Withdraw(1), Post(ALONE), Execute(0)];
    assert c4[..3] == c3 && c3[..2] == c2 && c2[..1] == c1 && c1[..0] == [];
    assert AfterAll(EMPTY, [], limit) == EMPTY && LegalRun(EMPTY, [], limit) && Log(EMPTY, [], limit) == [];
    assert AfterAll(EMPTY, c1, limit) == Sched([ONE], {1}) && Log(EMPTY, c1, limit) == [] && LegalRun(EMPTY, c1, limit);
    assert AfterAll(EMPTY, c2, limit) == Sched([], {1}) && Log(EMPTY, c2, limit) == [] && LegalRun(EMPTY, c2, limit);
    assert AfterAll(EMPTY, c3, limit) == Sched([], {1}) && Log(EMPTY, c3, limit) == [] && LegalRun(EMPTY, c3, limit);
  }

  /** In a batch it comes back, and executing it clears the mark. */
  lemma {:induction false} BroughtBackExample(limit: nat)
    requires limit > 0
    ensures var calls := [Post(ALONE), Withdraw(1), Batch([ALONE]), Execute(0)];
      Log(EMPTY, calls, limit) == [ONE] && AfterAll(EMPTY, calls, limit).marks == {} && LegalRun(EMPTY, calls, limit)
  {
    hide Ids, Minus, PutAll, Flat, Members;
    OneFacts(limit);
    assert UniqueIds([ONE]) && OnePrio(ALONE) && Proper([ALONE]);
    var c1, c2, c3 := [Post(ALONE)], [Post(ALONE), Withdraw(1)], [Post(ALONE), Withdraw(1), Batch([ALONE])];
    var c4 := [Post(ALONE), Withdraw(1), Batch([ALONE]), Execute(0)];
    assert c4[..3] == c3 && c3[..2] == c2 && c2[..1] == c1 && c1[..0] == [];
    assert AfterAll(EMPTY, [], limit) == EMPTY && LegalRun(EMPTY, [], limit) && Log(EMPTY, [], limit) == [];
    assert AfterAll(EMPTY, c1, limit) == Sched([ONE], {1}) && Log(EMPTY, c1, limit) == [] && LegalRun(EMPTY, c1, limit);
    assert AfterAll(EMPTY, c2, limit) == Sched([], {1}) && Log(EMPTY, c2, limit) == [] && LegalRun(EMPTY, c2, limit);
    assert AfterAll(EMPTY, c3, limit) == Sched([ONE], {1}) && Log(EMPTY, c3, limit) == [] && LegalRun(EMPTY, c3, limit);
    assert [ONE][..1] == [ONE] && [ONE][1..] == [];
  }
}
