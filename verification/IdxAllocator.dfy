/**
 The index allocator: a bitmap of indices and, for large sets, a summary bitmap
 (kernel/ds/idx_allocator.c).
 */
module IdxAllocators {
  import opened Options
  import opened IdxBitmaps

  class IdxAllocator {
    const maxId: nat
    const main: array<Word>
    const ids: array?<Word>

    /** The indices taken. */
    ghost function Taken(): seq<Word>
      reads main, ids
    {
      if ids != null then ids[..] else main[..]
    }

    /** The bitmaps have room for all indices and the summary notes only groups there are. */
    ghost predicate Sane()
      reads main, ids
    {
      maxId <= |Taken()| * 64 && (ids != null ==> main != ids && Fits(main[..], ids[..]))
    }

    /** And every group noted as full is full. */
    ghost predicate Valid()
      reads main, ids
    {
      Sane() && (ids != null ==> Summary(main[..], ids[..]))
    }

    /** The summary keeps the search from index `n`. */
    ghost predicate Shut(n: nat)
      reads main, ids
    {
      ids != null && Noted(main[..], n)
    }

    /** No index below `n` can be found. */
    ghost predicate NoneUpTo(n: nat)
      reads main, ids
    {
      if ids != null then Blocked(main[..], ids[..], n) else AllBelow(main[..], n)
    }

    /** Bitmaps large enough for `idxMax` indices, all free; a summary only for large sets. */
    constructor (idxMax: nat)
      ensures Valid() && maxId == idxMax && forall n: nat :: n < |Taken()| * 64 ==> !Bit(Taken(), n)
      ensures fresh(main) && (ids != null ==> fresh(ids)) && (ids != null <==> idxMax > 2048)
      ensures ids != null ==> ids.Length == RoundUpPow2(idxMax, 1) / 64
    {
      hide RoundUpPow2, Full;
      maxId := idxMax;
      var words := RoundUpPow2(idxMax, 1) / BITS_PER_LONG;
      Sizes(idxMax);
      if words >= MIN_IDA_SIZE {
        var bytes := RoundUpPow2(words / WORDS_PER_ITEM, 1);
        ids := new Word[words](_ => ZERO);
        main := new Word[bytes / 8](_ => ZERO);
      } else {
        ids := null;
        main := new Word[if words > 0 then words else 1](_ => ZERO);
      }
      new;
    }

    /** The lowest index that can be found, or None if there is none below the bound. */
    method Allocate() returns (r: Option<nat>)
      requires Sane()
      modifies main, ids
      ensures Sane() && |Taken()| == |old(Taken())| && (old(Valid()) ==> Valid())
      ensures forall n: nat :: old(Shut(n)) ==> Shut(n)
      ensures forall n: nat :: n < |Taken()| * 64 && Shut(n) ==> old(Shut(n)) || Bit(old(Taken()), n)
      ensures r.None? ==> old(NoneUpTo(maxId)) && Taken() == old(Taken())
      ensures r.Some? ==>
        r.value < maxId && old(NoneUpTo(r.value)) && !Bit(old(Taken()), r.value) && !old(Shut(r.value))
      ensures r.Some? ==> Taken() == SetBit(old(Taken()), r.value)
      ensures old(Valid()) ==> AllBelow(old(Taken()), if r.Some? then r.value else maxId)
      ensures r.Some? && ids != null ==> AllBelow(main[..], r.value / 512)
    {
      if ids != null {
        r := AllocateGrouped();
        NotedFull(old(main[..]), main[..], old(ids[..]));
        if old(Summary(main[..], ids[..])) {
          BlockedTaken(old(main[..]), old(ids[..]), if r.Some? then r.value else maxId);
        }
        return;
      }
      var i, b := FindZero(main, 0);
      if b < 0 { return None; }
      var id := b + i * BITS_PER_LONG;
      assert id / 64 == i && id % 64 == b;
      if id >= maxId { return None; }
      main[i] := main[i][b := true];
      assert main[..] == SetBit(old(main[..]), id);
      r := Some(id);
    }

    /** With a summary: full groups are noted on the way to the first free index. */
    method AllocateGrouped() returns (r: Option<nat>)
      requires Sane() && ids != null
      modifies main, ids
      ensures Sane() && (old(Valid()) ==> Valid()) && NotesMore(old(main[..]), main[..], old(ids[..]))
      ensures forall n: nat :: old(Shut(n)) ==> Shut(n)
      ensures r.None? ==> Blocked(old(main[..]), old(ids[..]), maxId) && ids[..] == old(ids[..])
      ensures r.Some? ==>
        r.value < maxId && Blocked(old(main[..]), old(ids[..]), r.value) && !Noted(old(main[..]), r.value)
      ensures r.Some? ==> !Bit(old(ids[..]), r.value) && ids[..] == SetBit(old(ids[..]), r.value)
      ensures r.Some? ==> AllBelow(main[..], r.value / 512)
    {
      hide Summary, AllBelow, Full, RoundUpPow2, Fits, NotesMore, Blocked, Noted, GroupFull, Bit, SetBit;
      var i := 0;
      ghost var done, main0 := 0, main[..];
      NoneBelow(main[..]);
      NotesSame(main0, ids[..]);
      while true
        invariant Sane() && ids[..] == old(ids[..]) && NotesMore(main0, main[..], ids[..])
        invariant i <= main.Length && AllBelow(main[..], done) && AllBelow(main[..], i * 64)
        decreases ids.Length - WORDS_PER_ITEM * done
      {
        var bit;
        i, bit := FindZero(main, i);
        ZeroLeft(main[..], ids[..], i, bit);
        NotesKeep(main0, main[..], ids[..]);
        ghost var b := i * 64 + bit;
        GroupsBlocked(main[..], ids[..], b);
        StillBelow(main[..], done, b);
        var first := (bit + i * BITS_PER_LONG) * WORDS_PER_ITEM;
        if first >= ids.Length {
          FewerBlocked(main[..], ids[..], WORDS_PER_ITEM * b * 64, maxId);
          return None;
        }
        GroupRoom(main[..], ids[..], first);
        var j, res := FindInGroup(first);
        if res >= 0 {
          InGroup(main0, main[..], ids[..], b, j * 64 + res);
          ghost var ms := main[..];
          assert AllBelow(ms, (j * 64 + res) / 512);
          r := Take(j, res);
          assert main[..] == ms;
          if r.Some? {
            TakenFits(main[..], old(ids[..]), r.value);
          } else {
            FewerBlocked(main0, ids[..], j * 64 + res, maxId);
          }
          return;
        }
        WholeGroup(ids[..], b);
        NoteOne(main0, main[..], ids[..], b);
        MoreBelow(main[..], b);
        NoteFull(i, bit);
        NotesKeep(main0, main[..], ids[..]);
        done := b + 1;
        var z := ZeroBitFind(main[i]);
        FewerBelow(main[..], done, i * 64);
        if z < 0 {
          FullWord(main[..], i, (i + 1) * 64);
          i := i + 1;
        }
      }
    }

    /** The first free index of a group; -1 if the group is full. */
    method FindInGroup(first: nat) returns (j: nat, res: int)
      requires ids != null && first + WORDS_PER_ITEM <= ids.Length && Blocked(main[..], ids[..], first * 64)
      ensures -1 <= res < 64
      ensures res >= 0 ==>
        first <= j < first + WORDS_PER_ITEM && Blocked(main[..], ids[..], j * 64 + res) && !ids[j][res]
      ensures res == -1 ==> forall w :: first <= w < first + WORDS_PER_ITEM ==> Full(ids[w])
    {
      hide Full, Summary, Blocked;
      j := first;
      while j < first + WORDS_PER_ITEM
        invariant first <= j <= first + WORDS_PER_ITEM && Blocked(main[..], ids[..], j * 64)
        invariant forall w :: first <= w < j ==> Full(ids[w])
      {
        res := ZeroBitFind(ids[j]);
        if res >= 0 {
          BlockedPart(main[..], ids[..], j, res);
          return;
        }
        BlockedWord(main[..], ids[..], j);
        j := j + 1;
      }
      res := -1;
    }

    /** Takes the first free index, unless it is out of bounds. */
    method Take(j: nat, res: nat) returns (r: Option<nat>)
      requires ids != null && main != ids && j < ids.Length && res < 64 && !ids[j][res]
      modifies ids
      ensures r == if j * 64 + res < maxId then Some(j * 64 + res) else None
      ensures ids[..] == if r.Some? then SetBit(old(ids[..]), r.value) else old(ids[..])
      ensures !Bit(old(ids[..]), j * 64 + res) && main[..] == old(main[..])
    {
      var id := res + j * BITS_PER_LONG;
      assert id / 64 == j && id % 64 == res;
      ghost var was := ids[..];
      ids[j] := ids[j][res := true];
      if id >= maxId {
        ids[j] := ids[j][res := false];
        assert ids[j] == was[j];
        assert ids[..] == was;
        return None;
      }
      assert ids[..] == SetBit(was, id);
      r := Some(id);
    }

    /** Notes in the summary that a group is full. */
    method NoteFull(i: nat, bit: nat)
      requires ids != null && main != ids && i < main.Length && bit < 64
      modifies main
      ensures main[..] == SetBit(old(main[..]), i * 64 + bit) && ids[..] == old(ids[..])
    {
      ghost var was := main[..];
      assert (i * 64 + bit) / 64 == i && (i * 64 + bit) % 64 == bit;
      main[i] := main[i][bit := true];
      assert main[..] == SetBit(was, i * 64 + bit);
    }

    /** Takes an index out of circulation; `busy` tells that it was taken already. */
    method Reserve(idx: nat) returns (busy: bool)
      requires Sane() && idx < maxId
      modifies main, ids
      ensures Sane() && |Taken()| == |old(Taken())| && (old(Valid()) ==> Valid())
      ensures forall n: nat :: Shut(n) <==> old(Shut(n))
      ensures busy == Bit(old(Taken()), idx) && Taken() == SetBit(old(Taken()), idx)
    {
      hide Summary, Full, Fits;
      var start := idx / BITS_PER_LONG;
      var bitno := idx - start * BITS_PER_LONG;
      if ids != null {
        ghost var was := ids[..];
        busy := ids[start][bitno];
        ids[start] := ids[start][bitno := true];
        assert ids[..] == SetBit(was, idx);
        TakenFits(main[..], was, idx);
      } else {
        busy := main[start][bitno];
        main[start] := main[start][bitno := true];
        assert main[..] == SetBit(old(main[..]), idx);
      }
    }

    /**
     Gives an index back.  The bit that is cleared in the summary is not the one
     of the group, and it need not be in the summary at all: `inside` tells.
     */
    method Free(idx: nat) returns (busy: bool, inside: bool)
      requires Sane() && idx < maxId
      modifies main, ids
      ensures Sane() && busy == Bit(old(Taken()), idx) && Taken() == ClearBit(old(Taken()), idx)
      ensures inside <==> ids == null || idx < 512 * main.Length
      ensures forall n: nat :: Shut(n) ==> old(Shut(n))
      ensures Shut(idx) <==> old(Shut(idx)) && idx >= 64
      ensures old(Valid()) ==> (Valid() <==> !Shut(idx))
    {
      hide Summary, Full, Fits, Noted, ClearBit, Bit;
      inside := true;
      ghost var main0, ids0 := main[..], Taken();
      if ids != null {
        inside := ClearSummary(idx);
        WrongBit(main0, main[..], ids0, idx);
        FreedFits(main0, main[..], ids0, idx);
        busy := TestAndClear(ids, idx);
      } else {
        busy := TestAndClear(main, idx);
      }
    }

    /** Clears a bit of the summary, addressed by the word of the index. */
    method ClearSummary(idx: nat) returns (inside: bool)
      requires ids != null && main != ids
      modifies main
      ensures inside <==> idx / 512 < main.Length
      ensures main[..] == if inside then ClearBit(old(main[..]), idx / 512 * 64 + idx / 64 % 8) else old(main[..])
    {
      var start := idx / BITS_PER_LONG;
      var mainId := start / WORDS_PER_ITEM;
      var mainBit := start - mainId * WORDS_PER_ITEM;
      BitPlace(start, idx / 512, start % 8);
      inside := mainId < main.Length;
      if inside {
        ghost var was := main[..];
        main[mainId] := main[mainId][mainBit := false];
        assert main[..] == ClearBit(was, mainId * 64 + mainBit);
      }
    }
  }

  lemma BitPlace(start: nat, k: nat, b: nat)
    requires k == start / 8 && b == start % 8
    ensures start - k * 8 == b && (k * 64 + b) / 64 == k && (k * 64 + b) % 64 == b
  {
  }

  method TestAndClear(a: array<Word>, n: nat) returns (was: bool)
    requires n < a.Length * 64
    modifies a
    ensures was == Bit(old(a[..]), n) && a[..] == ClearBit(old(a[..]), n)
  {
    var i := n / BITS_PER_LONG;
    var bitno := n - i * BITS_PER_LONG;
    was := a[i][bitno];
    ghost var before := a[..];
    a[i] := a[i][bitno := false];
    assert a[..] == ClearBit(before, n);
  }

  lemma {:induction false} NotesSame(main: seq<Word>, ids: seq<Word>)
    ensures NotesMore(main, main, ids)
  {
  }

  lemma {:induction false} NotedFull(main: seq<Word>, main': seq<Word>, ids: seq<Word>)
    requires NotesMore(main, main', ids)
    ensures forall n: nat :: n < |ids| * 64 && Noted(main', n) ==> Noted(main, n) || Bit(ids, n)
  {
    hide Bit, GroupFull;
    forall n: nat | n < |ids| * 64 && Noted(main', n) && !Noted(main, n) ensures Bit(ids, n) { FullTaken(ids, n); }
  }

  lemma {:induction false} FewerBlocked(main: seq<Word>, ids: seq<Word>, n: nat, k: nat)
    requires Blocked(main, ids, n) && k <= n
    ensures Blocked(main, ids, k)
  {
  }

  lemma {:induction false} BlockedWord(main: seq<Word>, ids: seq<Word>, j: nat)
    requires Blocked(main, ids, j * 64) && j < |ids| && Full(ids[j])
    ensures Blocked(main, ids, (j + 1) * 64)
  {
    forall k: nat | k < (j + 1) * 64 ensures Bit(ids, k) || Noted(main, k) {
      if k >= j * 64 { assert k / 64 == j; }
    }
  }

  lemma {:induction false} BlockedPart(main: seq<Word>, ids: seq<Word>, j: nat, r: nat)
    requires Blocked(main, ids, j * 64) && j < |ids| && r < 64 && forall k :: 0 <= k < r ==> ids[j][k]
    ensures Blocked(main, ids, j * 64 + r)
  {
    forall k: nat | k < j * 64 + r ensures Bit(ids, k) || Noted(main, k) {
      if k >= j * 64 { assert k / 64 == j && k % 64 == k - j * 64; }
    }
  }

  /** An index found in the group with the lowest clear summary bit. */
  lemma {:induction false} InGroup(main0: seq<Word>, main: seq<Word>, ids: seq<Word>, b: nat, n: nat)
    requires NotesMore(main0, main, ids) && b < |main| * 64 && !Bit(main, b)
    requires WORDS_PER_ITEM * b * 64 <= n < (WORDS_PER_ITEM * b + WORDS_PER_ITEM) * 64
    ensures !Noted(main0, n) && n / 512 == b
  {
    assert n / 512 == b;
  }

  lemma {:induction false} WholeGroup(ids: seq<Word>, b: nat)
    requires WORDS_PER_ITEM * b + WORDS_PER_ITEM <= |ids|
    requires forall w :: WORDS_PER_ITEM * b <= w < WORDS_PER_ITEM * b + WORDS_PER_ITEM ==> Full(ids[w])
    ensures GroupFull(ids, b)
  {
  }

  lemma {:induction false} TakenFits(main: seq<Word>, ids: seq<Word>, n: nat)
    requires Fits(main, ids) && n < |ids| * 64
    ensures Fits(main, SetBit(ids, n)) && (Summary(main, ids) ==> Summary(main, SetBit(ids, n)))
  {
    if Summary(main, ids) { SummaryTaken(main, ids, n); }
  }

  /** The bit that freeing clears is that of the group only for the first word of all. */
  lemma {:induction false} WrongBit(main: seq<Word>, main': seq<Word>, ids: seq<Word>, idx: nat)
    requires Fits(main, ids) && idx < |ids| * 64
    requires main' == if idx / 512 < |main| then ClearBit(main, idx / 512 * 64 + idx / 64 % 8) else main
    ensures Noted(main', idx) <==> Noted(main, idx) && idx >= 64
    ensures forall n: nat :: Noted(main', n) ==> Noted(main, n)
  {
    var g := idx / 512;
    assert g * 64 + idx / 64 % 8 == g <==> idx < 64;
  }

  lemma {:induction false} FreedFits(main: seq<Word>, main': seq<Word>, ids: seq<Word>, idx: nat)
    requires Fits(main, ids) && idx < |ids| * 64
    requires |main'| == |main| && forall b: nat :: b < |main| * 64 && Bit(main', b) ==> Bit(main, b)
    ensures Fits(main', ClearBit(ids, idx))
    ensures Summary(main, ids) ==> (Summary(main', ClearBit(ids, idx)) <==> !Noted(main', idx))
  {
    var r := ClearBit(ids, idx);
    if Noted(main', idx) && Summary(main', r) {
      NotedTaken(main', r, idx);
    }
    if Summary(main, ids) && !Noted(main', idx) {
      forall b: nat, w: nat | b < |main'| * 64 && Bit(main', b) &&
        WORDS_PER_ITEM * b <= w < WORDS_PER_ITEM * b + WORDS_PER_ITEM
        ensures w < |r| && Full(r[w])
      {
        assert Full(ids[w]);
        assert w != idx / 64;
      }
    }
  }

  lemma {:induction false} NoneBelow(ws: seq<Word>)
    ensures AllBelow(ws, 0)
  {
  }

  /** The summary has room for a bit past the last group, which is never set. */
  lemma {:induction false} ZeroLeft(main: seq<Word>, ids: seq<Word>, i: nat, bit: int)
    requires Fits(main, ids) && -1 <= bit < 64 && i <= |main|
    requires AllBelow(main, if bit == -1 then |main| * 64 else i * 64 + bit) && (bit == -1 <==> i == |main|)
    ensures bit >= 0 && i < |main| && WORDS_PER_ITEM * (i * 64 + bit) <= |ids|
  {
    var g := |ids| / WORDS_PER_ITEM;
    var n := if bit == -1 then |main| * 64 else i * 64 + bit;
    assert g < |main| * 64 && !Bit(main, g);
  }

  /** A zero bit that all lower bits precede is not below a stretch of set bits. */
  lemma {:induction false} StillBelow(ws: seq<Word>, done: nat, b: nat)
    requires AllBelow(ws, done) && b < |ws| * 64 && !Bit(ws, b)
    ensures done <= b
  {
  }

  lemma {:induction false} FewerBelow(ws: seq<Word>, n: nat, k: nat)
    requires AllBelow(ws, n) && k <= n
    ensures AllBelow(ws, k)
  {
  }

  lemma {:induction false} MoreBelow(ws: seq<Word>, b: nat)
    requires AllBelow(ws, b) && b < |ws| * 64
    ensures AllBelow(SetBit(ws, b), b + 1)
  {
  }

  lemma {:induction false} GroupRoom(main: seq<Word>, ids: seq<Word>, first: nat)
    requires Fits(main, ids) && first % WORDS_PER_ITEM == 0 && first < |ids|
    ensures first + WORDS_PER_ITEM <= |ids|
  {
  }
}
