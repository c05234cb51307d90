/**
 Runs of the index allocator, and what freeing does to them (kernel/ds/idx_allocator.c).
 */
module IdxRuns {
  import opened Options
  import opened IdxBitmaps
  import opened IdxAllocators

  datatype Call = Alloc | Hold(idx: nat)

  /** The least number from `from` on, below `max`, that is not taken. */
  function LeastFree(taken: set<nat>, from: nat, max: nat): Option<nat>
    decreases if from < max then max - from else 0
  {
    if from >= max then None else if from !in taken then Some(from) else LeastFree(taken, from + 1, max)
  }

  function After(taken: set<nat>, c: Call, max: nat): set<nat> {
    match c
    case Alloc => var r := LeastFree(taken, 0, max); if r.Some? then taken + {r.value} else taken
    case Hold(idx) => taken + {idx}
  }

  /** The answers of a plain set of numbers. */
  function Answers(calls: seq<Call>, taken: set<nat>, max: nat): seq<Option<nat>> {
    if calls == [] then []
    else
      (if calls[0].Alloc? then [LeastFree(taken, 0, max)] else []) +
      Answers(calls[1..], After(taken, calls[0], max), max)
  }

  ghost function Indices(ws: seq<Word>, max: nat): set<nat>
    requires max <= |ws| * 64
  {
    set n: nat | n < max && Bit(ws, n)
  }

  lemma {:induction false} LeastIs(ws: seq<Word>, max: nat, from: nat, r: Option<nat>)
    requires max <= |ws| * 64 && from <= (if r.Some? then r.value else max)
    requires if r.Some? then r.value < max && AllBelow(ws, r.value) && !Bit(ws, r.value) else AllBelow(ws, max)
    ensures LeastFree(Indices(ws, max), from, max) == r
    decreases max - from
  {
    if from < max && from in Indices(ws, max) {
      assert r.Some? ==> r.value != from;
      LeastIs(ws, max, from + 1, r);
    } else if from < max {
      assert !Bit(ws, from);
    }
  }

  lemma {:induction false} IndicesMore(ws: seq<Word>, max: nat, n: nat)
    requires max <= |ws| * 64 && n < max
    ensures Indices(SetBit(ws, n), max) == Indices(ws, max) + {n}
  {
  }

  /** Every run of allocations and reservations answers as a plain set of numbers does. */
  method Run(max: nat, calls: seq<Call>) returns (answers: seq<Option<nat>>)
    requires forall i :: 0 <= i < |calls| && calls[i].Hold? ==> calls[i].idx < max
    ensures answers == Answers(calls, {}, max)
  {
    hide Summary, AllBelow, Full, Bit, LeastFree, Answers, Fits, Noted, Blocked;
    var ida := new IdxAllocator(max);
    answers := [];
    NoIndices(ida.Taken(), max);
    var i := 0;
    assert calls[0..] == calls;
    while i < |calls|
      invariant 0 <= i <= |calls| && ida.Valid() && ida.maxId == max && fresh(ida.main)
      invariant (ida.ids != null ==> fresh(ida.ids))
      invariant answers + Answers(calls[i..], Indices(ida.Taken(), max), max) == Answers(calls, {}, max)
    {
      ghost var ws := ida.Taken();
      AnswerStep(calls, i, Indices(ws, max), max, answers);
      match calls[i] {
        case Alloc =>
          var r := ida.Allocate();
          LeastIs(ws, max, 0, r);
          if r.Some? { IndicesMore(ws, max, r.value); }
          answers := answers + [r];
        case Hold(idx) =>
          var busy := ida.Reserve(idx);
          IndicesMore(ws, max, idx);
      }
      i := i + 1;
    }
    AnswersEnd(calls, Indices(ida.Taken(), max), max, answers);
  }

  lemma {:induction false} NoIndices(ws: seq<Word>, max: nat)
    requires max <= |ws| * 64 && forall n: nat :: n < |ws| * 64 ==> !Bit(ws, n)
    ensures Indices(ws, max) == {}
  {
  }

  lemma {:induction false} AnswerStep(calls: seq<Call>, i: int, taken: set<nat>, max: nat, answers: seq<Option<nat>>)
    requires 0 <= i < |calls|
    ensures answers + Answers(calls[i..], taken, max)
      == (answers + if calls[i].Alloc? then [LeastFree(taken, 0, max)] else []) +
         Answers(calls[i + 1..], After(taken, calls[i], max), max)
    ensures calls[i].Hold? ==> answers + [] == answers
  {
    hide LeastFree, After;
    assert calls[i..][0] == calls[i] && calls[i..][1..] == calls[i + 1..];
  }

  lemma {:induction false} AnswersEnd(calls: seq<Call>, taken: set<nat>, max: nat, answers: seq<Option<nat>>)
    ensures answers + Answers(calls[|calls|..], taken, max) == answers
  {
    assert calls[|calls|..] == [];
    assert answers + [] == answers;
  }

  /** All bits below the bound are as before, but those of `got`, which are set. */
  ghost predicate Gained(ws: seq<Word>, ws': seq<Word>, got: seq<nat>) {
    |ws'| == |ws| && forall n: nat :: n < |ws| * 64 ==> (Bit(ws', n) <==> Bit(ws, n) || n in got)
  }

  ghost function FreeBelow(ws: seq<Word>, max: nat): set<nat>
    requires max <= |ws| * 64
  {
    set n: nat | n < max && !Bit(ws, n)
  }

  lemma {:induction false} GainOne(ws: seq<Word>, ws': seq<Word>, got: seq<nat>, n: nat, max: nat)
    requires Gained(ws, ws', got) && n < max <= |ws| * 64 && !Bit(ws', n)
    ensures Gained(ws, SetBit(ws', n), got + [n]) && n !in got && FreeBelow(SetBit(ws', n), max) < FreeBelow(ws', max)
  {
    assert n in FreeBelow(ws', max) && n !in FreeBelow(SetBit(ws', n), max);
  }

  /** Allocates until nothing is found any more. */
  method Exhaust(ida: IdxAllocator, ghost idx: nat) returns (got: seq<nat>)
    requires ida.Sane() && idx < ida.maxId && !Bit(ida.Taken(), idx)
    modifies ida.main, ida.ids
    ensures Gained(old(ida.Taken()), ida.Taken(), got) && (forall i, j :: 0 <= i < j < |got| ==> got[i] != got[j])
    ensures idx in got <==> !old(ida.Shut(idx))
  {
    hide Bit, SetBit, Summary, Fits, Blocked, Noted, AllBelow, Full;
    got := [];
    ghost var ws := ida.Taken();
    var more := true;
    while more
      invariant ida.Sane() && Gained(ws, ida.Taken(), got) && (forall i, j :: 0 <= i < j < |got| ==> got[i] != got[j])
      invariant idx !in got ==> (ida.Shut(idx) <==> old(ida.Shut(idx)))
      invariant idx in got ==> !old(ida.Shut(idx))
      invariant !more ==> Bit(ida.Taken(), idx) || ida.Shut(idx)
      decreases more, FreeBelow(ida.Taken(), ida.maxId)
    {
      ghost var was := ida.Taken();
      Unfound(ida, idx);
      var r := ida.Allocate();
      if r.None? {
        more := false;
      } else {
        GainOne(ws, was, got, r.value, ida.maxId);
        got := got + [r.value];
      }
    }
  }

  lemma {:induction false} Unfound(ida: IdxAllocator, idx: nat)
    requires ida.Sane() && idx < ida.maxId
    ensures ida.NoneUpTo(ida.maxId) ==> Bit(ida.Taken(), idx) || ida.Shut(idx)
  {
  }

  /** An index given back is allocated again exactly if its group was not noted as full or it is one of the first 64. */
  method FreeThenExhaust(ida: IdxAllocator, idx: nat) returns (inside: bool, got: seq<nat>)
    requires ida.Valid() && idx < ida.maxId
    modifies ida.main, ida.ids
    ensures inside <==> ida.ids == null || idx < 512 * ida.main.Length
    ensures idx in got <==> idx < 64 || !old(ida.Shut(idx))
  {
    hide Bit, ClearBit, SetBit, Summary, Fits, Blocked, Noted, AllBelow, Full;
    var busy;
    ghost var ws := ida.Taken();
    busy, inside := ida.Free(idx);
    Cleared(ws, idx);
    got := Exhaust(ida, idx);
  }

  lemma {:induction false} Cleared(ws: seq<Word>, n: nat)
    requires n < |ws| * 64
    ensures !Bit(ClearBit(ws, n), n)
  {
  }

  /** With 4096 indices, giving back number 512 clears a bit behind the end of the summary. */
  method OutsideExample() returns (inside: bool)
    ensures !inside
  {
    hide RoundUpPow2, Pow2, Bit, Summary;
    var ida := new IdxAllocator(4096);
    assert Pow2(4096) && Pow2(1) by { Pow2Of2048(); Twice(2048); OneIsPow2(); }
    RoundUpSame(4096, 1);
    var busy;
    busy, inside := ida.Free(512);
  }

  lemma {:induction false} Twice(p: nat)
    requires Pow2(p)
    ensures Pow2(2 * p)
  {
    assert 2 * p / 2 == p;
  }

  /** How many groups are noted as full after the first `count` allocations: those the search has passed. */
  function Passed(count: nat): nat { if count == 0 then 0 else (count - 1) / 512 }

  ghost predicate PassedOnly(main: seq<Word>, ids: seq<Word>, count: nat) {
    forall n: nat :: n < |ids| * 64 ==> (Noted(main, n) <==> n / 512 < Passed(count))
  }

  /** A fresh allocator after `count` allocations, which give the numbers from 0 on. */
  ghost predicate Filled(ida: IdxAllocator, count: nat)
    reads ida, ida.main, ida.ids
  {
    && ida.Valid() && count <= ida.maxId
    && (forall n: nat :: n < |ida.Taken()| * 64 ==> (Bit(ida.Taken(), n) <==> n < count))
    && (ida.ids != null ==> PassedOnly(ida.main[..], ida.ids[..], count))
  }

  method Fill(max: nat, count: nat) returns (ida: IdxAllocator)
    requires count <= max
    ensures fresh(ida) && fresh(ida.main) && (ida.ids != null ==> fresh(ida.ids)) && ida.maxId == max
    ensures Filled(ida, count) && (ida.ids != null <==> max > 2048)
  {
    hide Summary, Fits, Blocked, AllBelow, Full, Noted, RoundUpPow2, Bit, SetBit;
    ida := new IdxAllocator(max);
    if ida.ids != null { NoneNoted(ida.main[..], ida.ids[..]); }
    var t := 0;
    while t < count
      invariant t <= count && Filled(ida, t) && ida.maxId == max && (ida.ids != null <==> max > 2048)
      invariant fresh(ida) && fresh(ida.main) && (ida.ids != null ==> fresh(ida.ids))
    {
      FillOne(ida, t);
      t := t + 1;
    }
  }

  method FillOne(ida: IdxAllocator, ghost t: nat)
    requires Filled(ida, t) && t < ida.maxId
    modifies ida.main, ida.ids
    ensures Filled(ida, t + 1)
  {
    hide Summary, Blocked, AllBelow, Full, Noted, Bit, SetBit, PassedOnly;
    ghost var ws, main := ida.Taken(), ida.main[..];
    var r := ida.Allocate();
    NextIs(ws, t, ida.maxId, r);
    if ida.ids != null {
      forall n: nat | Noted(main, n) ensures Noted(ida.main[..], n) { assert old(ida.Shut(n)) ==> ida.Shut(n); }
      forall n: nat | n < |ws| * 64 && Noted(ida.main[..], n) ensures Noted(main, n) || Bit(ws, n) {
        assert ida.Shut(n) ==> old(ida.Shut(n)) || Bit(ws, n);
      }
      OnePassed(main, ida.main[..], ws, t);
      SameLength(ida.main[..], ws, ida.ids[..], t + 1);
    }
  }

  lemma {:induction false} SameLength(main: seq<Word>, ids: seq<Word>, ids': seq<Word>, count: nat)
    requires PassedOnly(main, ids, count) && |ids'| == |ids|
    ensures PassedOnly(main, ids', count)
  {
  }

  lemma {:induction false} NoneNoted(main: seq<Word>, ids: seq<Word>)
    requires Summary(main, ids) && Fits(main, ids) && forall n: nat :: n < |ids| * 64 ==> !Bit(ids, n)
    ensures PassedOnly(main, ids, 0)
  {
    forall n: nat | n < |ids| * 64 ensures !Noted(main, n) {
      if Noted(main, n) { FullTaken(ids, n); }
    }
  }

  /** One more index: the groups noted now are those before its own. */
  lemma {:induction false} OnePassed(main: seq<Word>, main': seq<Word>, ids: seq<Word>, t: nat)
    requires |main| * 64 == |ids| && PassedOnly(main, ids, t) && t < |ids| * 64 && AllBelow(main', t / 512)
    requires forall n: nat :: n < |ids| * 64 ==> (Bit(ids, n) <==> n < t)
    requires forall n: nat :: Noted(main, n) ==> Noted(main', n)
    requires forall n: nat :: n < |ids| * 64 && Noted(main', n) ==> Noted(main, n) || Bit(ids, n)
    ensures PassedOnly(main', ids, t + 1)
  {
    hide Bit, AllBelow;
    forall n: nat | n < |ids| * 64 ensures Noted(main', n) <==> n / 512 < t / 512 {
      LastOfGroup(n, |main|);
      GroupsBefore(main', n, t / 512);
      var last := n / 512 * 512 + 511;
      assert Noted(main', n) ==> Noted(main', last);
      PassedGroup(n / 512, t);
    }
  }

  lemma {:induction false} LastOfGroup(n: nat, words: nat)
    requires n < words * 64 * 64
    ensures var last := n / 512 * 512 + 511; last / 512 == n / 512 && n <= last < words * 64 * 64
  {
  }

  lemma {:induction false} GroupsBefore(main: seq<Word>, n: nat, g: nat)
    requires AllBelow(main, g)
    ensures n / 512 < g ==> Noted(main, n)
  {
  }

  lemma {:induction false} PassedGroup(g: nat, t: nat)
    ensures g * 512 + 511 < t ==> g < t / 512
    ensures g < Passed(t) ==> g < t / 512
  {
  }

  /** The least free index is the next number. */
  lemma {:induction false} NextIs(ws: seq<Word>, t: nat, max: nat, r: Option<nat>)
    requires t < max <= |ws| * 64 && (forall n: nat :: n < |ws| * 64 ==> (Bit(ws, n) <==> n < t))
    requires AllBelow(ws, if r.Some? then r.value else max) && (r.Some? ==> r.value < max && !Bit(ws, r.value))
    ensures r == Some(t)
  {
    assert !Bit(ws, t);
  }

  /**
   From a fresh allocator: after `count` allocations an index given back is allocated again exactly
   if there is no summary, it is one of the first 64, or the search has not passed its group.
   */
  method FillFreeExhaust(max: nat, count: nat, idx: nat) returns (got: seq<nat>)
    requires count <= max && idx < max
    ensures idx in got <==> max <= 2048 || idx < 64 || idx / 512 >= Passed(count)
  {
    hide Summary, Fits, Blocked, AllBelow, Full, Noted, Bit;
    var ida := Fill(max, count);
    var inside;
    inside, got := FreeThenExhaust(ida, idx);
  }

  /** With 4096 indices of which 513 were handed out, index 100 is lost when it is given back. */
  method HiddenExample() returns (got: seq<nat>)
    ensures 100 !in got
  {
    got := FillFreeExhaust(4096, 513, 100);
  }
}
