/**
 Bitmaps of machine words, and a summary bitmap with one bit per group of words
 (kernel/ds/idx_allocator.c).
 */
module IdxBitmaps {

  const BITS_PER_LONG := 64
  const WORDS_PER_ITEM := 8
  /** Fewest words for which a summary is kept. */
  const MIN_IDA_SIZE := 64

  /** A machine word as its bits. */
  type Word = w: seq<bool> | |w| == 64 witness seq(64, _ => false)

  const ZERO: Word := seq(64, _ => false)

  ghost predicate Full(w: Word) { forall k :: 0 <= k < 64 ==> w[k] }

  /** The lowest zero bit, or -1. */
  method ZeroBitFind(w: Word) returns (r: int)
    ensures -1 <= r < 64 && (r == -1 <==> Full(w))
    ensures r >= 0 ==> !w[r] && forall k :: 0 <= k < r ==> w[k]
  {
    r := 0;
    while r < 64
      invariant 0 <= r <= 64 && forall k :: 0 <= k < r ==> w[k]
    {
      if !w[r] { return; }
      r := r + 1;
    }
    return -1;
  }

  /** Bit `n` of a bitmap. */
  ghost predicate Bit(ws: seq<Word>, n: nat)
    requires n < |ws| * 64
  {
    ws[n / 64][n % 64]
  }

  ghost predicate AllBelow(ws: seq<Word>, n: nat) {
    n <= |ws| * 64 && forall k: nat :: k < n ==> Bit(ws, k)
  }

  function SetBit(ws: seq<Word>, n: nat): (r: seq<Word>)
    requires n < |ws| * 64
    ensures |r| == |ws| && Bit(r, n) && forall k: nat :: k < |ws| * 64 && k != n ==> Bit(r, k) == Bit(ws, k)
  {
    ws[n / 64 := ws[n / 64][n % 64 := true]]
  }

  function ClearBit(ws: seq<Word>, n: nat): (r: seq<Word>)
    requires n < |ws| * 64
    ensures |r| == |ws| && !Bit(r, n) && forall k: nat :: k < |ws| * 64 && k != n ==> Bit(r, k) == Bit(ws, k)
  {
    ws[n / 64 := ws[n / 64][n % 64 := false]]
  }

  lemma {:induction false} FullWord(ws: seq<Word>, i: nat, n: nat)
    requires AllBelow(ws, i * 64) && i < |ws| && Full(ws[i]) && n == (i + 1) * 64
    ensures AllBelow(ws, n)
  {
    forall k: nat | k < n ensures Bit(ws, k) {
      if k >= i * 64 { assert k / 64 == i; }
    }
  }

  lemma {:induction false} PartWord(ws: seq<Word>, i: nat, r: nat)
    requires AllBelow(ws, i * 64) && i < |ws| && r < 64 && forall k :: 0 <= k < r ==> ws[i][k]
    ensures AllBelow(ws, i * 64 + r)
    ensures (i * 64 + r) / 64 == i && (i * 64 + r) % 64 == r
  {
    forall k: nat | k < i * 64 + r ensures Bit(ws, k) {
      if k >= i * 64 { assert k / 64 == i && k % 64 == k - i * 64; }
    }
  }

  /** The lowest zero bit from word `from` on. */
  method FindZero(a: array<Word>, from: nat) returns (i: nat, r: int)
    requires from <= a.Length && AllBelow(a[..], from * 64)
    ensures i <= a.Length && -1 <= r < 64 && (r == -1 <==> i == a.Length)
    ensures AllBelow(a[..], if r == -1 then a.Length * 64 else i * 64 + r)
    ensures r >= 0 ==> i >= from && !a[i][r] && !Bit(a[..], i * 64 + r)
  {
    i := from;
    while i < a.Length
      invariant from <= i <= a.Length && AllBelow(a[..], i * 64)
    {
      r := ZeroBitFind(a[i]);
      if r >= 0 {
        PartWord(a[..], i, r);
        return;
      }
      FullWord(a[..], i, (i + 1) * 64);
      i := i + 1;
    }
    r := -1;
  }

  /** A set summary bit belongs to a group whose words are all full. */
  ghost predicate Summary(main: seq<Word>, ids: seq<Word>) {
    && |ids| % WORDS_PER_ITEM == 0
    && forall b: nat :: b < |main| * 64 && Bit(main, b) ==>
      WORDS_PER_ITEM * b + WORDS_PER_ITEM <= |ids| &&
        forall w :: WORDS_PER_ITEM * b <= w < WORDS_PER_ITEM * b + WORDS_PER_ITEM ==> Full(ids[w])
  }

  /** Summary bits are set only for groups there are. */
  ghost predicate Fits(main: seq<Word>, ids: seq<Word>) {
    && |main| * 64 == |ids| && |ids| > 0
    && forall b: nat :: b < |main| * 64 && Bit(main, b) ==> WORDS_PER_ITEM * b + WORDS_PER_ITEM <= |ids|
  }

  /** The summary says that the group of index `n` is full. */
  ghost predicate Noted(main: seq<Word>, n: nat) { n / 512 < |main| * 64 && Bit(main, n / 512) }

  /** No index below `n` can be found: each is taken or in a group noted as full. */
  ghost predicate Blocked(main: seq<Word>, ids: seq<Word>, n: nat) {
    n <= |ids| * 64 && forall k: nat :: k < n ==> Bit(ids, k) || Noted(main, k)
  }

  /** Under a right summary, what cannot be found is taken. */
  lemma {:induction false} BlockedTaken(main: seq<Word>, ids: seq<Word>, n: nat)
    requires Summary(main, ids) && Blocked(main, ids, n)
    ensures AllBelow(ids, n)
  {
    forall k: nat | k < n ensures Bit(ids, k) {
      if Noted(main, k) { assert Full(ids[k / 64]); }
    }
  }

  lemma {:induction false} NotedTaken(main: seq<Word>, ids: seq<Word>, n: nat)
    requires Summary(main, ids) && n < |ids| * 64 && Noted(main, n)
    ensures Bit(ids, n)
  {
    assert Full(ids[n / 64]);
  }

  /** Summary bits set up to `b`: no index of those groups can be found. */
  lemma {:induction false} GroupsBlocked(main: seq<Word>, ids: seq<Word>, b: nat)
    requires AllBelow(main, b) && WORDS_PER_ITEM * b <= |ids|
    ensures Blocked(main, ids, WORDS_PER_ITEM * b * 64)
  {
    forall n: nat | n < WORDS_PER_ITEM * b * 64 ensures Noted(main, n) {
      assert n / 512 < b;
      assert Bit(main, n / 512);
    }
  }

  /** All words of the group are full. */
  ghost predicate GroupFull(ids: seq<Word>, b: nat) {
    && WORDS_PER_ITEM * b + WORDS_PER_ITEM <= |ids|
    && forall w :: WORDS_PER_ITEM * b <= w < WORDS_PER_ITEM * b + WORDS_PER_ITEM ==> Full(ids[w])
  }

  /** More groups are noted, all of them full. */
  ghost predicate NotesMore(main: seq<Word>, main': seq<Word>, ids: seq<Word>) {
    |main'| == |main| && forall b: nat :: b < |main| * 64 ==>
      (Bit(main, b) ==> Bit(main', b)) && (Bit(main', b) ==> Bit(main, b) || GroupFull(ids, b))
  }

  lemma {:induction false} NotesKeep(main: seq<Word>, main': seq<Word>, ids: seq<Word>)
    requires Fits(main, ids) && NotesMore(main, main', ids)
    ensures Fits(main', ids) && (Summary(main, ids) ==> Summary(main', ids))
    ensures forall n: nat :: Noted(main, n) ==> Noted(main', n)
    ensures forall n: nat :: Blocked(main', ids, n) ==> Blocked(main, ids, n)
  {
    hide Bit;
    forall n: nat, k: nat | Blocked(main', ids, n) && k < n ensures Bit(ids, k) || Noted(main, k) {
      if Noted(main', k) && !Noted(main, k) { FullTaken(ids, k); }
    }
  }

  lemma {:induction false} FullTaken(ids: seq<Word>, k: nat)
    requires GroupFull(ids, k / 512) && k < |ids| * 64
    ensures Bit(ids, k)
  {
    assert Full(ids[k / 64]);
  }

  lemma {:induction false} NoteOne(main0: seq<Word>, main: seq<Word>, ids: seq<Word>, b: nat)
    requires NotesMore(main0, main, ids) && b < |main| * 64 && GroupFull(ids, b)
    ensures NotesMore(main0, SetBit(main, b), ids)
  {
  }

  /** The summary stays right when more indices are taken. */
  lemma {:induction false} SummaryTaken(main: seq<Word>, ids: seq<Word>, n: nat)
    requires Summary(main, ids) && n < |ids| * 64
    ensures Summary(main, SetBit(ids, n))
  {
    var r := SetBit(ids, n);
    forall w | 0 <= w < |ids| && Full(ids[w]) ensures Full(r[w]) {
    }
  }

  function RoundUpPow2(n: nat, p: nat): (r: nat)
    requires p > 0
    ensures r >= n && r >= p && (p >= n ==> r == p) && (n > 0 && n > p ==> r < 2 * n)
    decreases if n > p then n - p else 0
  {
    if p >= n then p else RoundUpPow2(n, 2 * p)
  }

  /** Powers of two. */
  ghost predicate Pow2(p: nat) { p == 1 || (p > 1 && p % 2 == 0 && Pow2(p / 2)) }

  lemma {:induction false} RoundUpIsPow2(n: nat, p: nat)
    requires Pow2(p)
    ensures Pow2(RoundUpPow2(n, p))
    decreases if n > p then n - p else 0
  {
    if p < n {
      assert 2 * p / 2 == p;
      RoundUpIsPow2(n, 2 * p);
    }
  }

  /** A power of two is rounded to itself. */
  lemma {:induction false} RoundUpSame(q: nat, p: nat)
    requires Pow2(q) && Pow2(p) && p <= q
    ensures RoundUpPow2(q, p) == q
    decreases q - p
  {
    if p < q {
      TwiceBelow(p, q);
      assert 2 * p / 2 == p;
      RoundUpSame(q, 2 * p);
    }
  }

  lemma {:induction false} TwiceBelow(p: nat, q: nat)
    requires Pow2(q) && Pow2(p) && p < q
    ensures 2 * p <= q
  {
    if p > 1 {
      TwiceBelow(p / 2, q / 2);
    }
  }

  lemma {:induction false} Half(q: nat)
    requires Pow2(q) && q > 1
    ensures q == 2 * (q / 2) && Pow2(q / 2)
  {
  }

  lemma {:induction false} Eighth(q: nat)
    requires Pow2(q) && q >= 8
    ensures q % 8 == 0 && Pow2(q / 8)
  {
    hide Pow2;
    Half(q);
    Half(q / 2);
    Half(q / 2 / 2);
    assert q == 8 * (q / 2 / 2 / 2);
  }

  lemma {:induction false} Pow2Of2048()
    ensures Pow2(2048)
  {
    assert Pow2(2) && Pow2(4) && Pow2(8) && Pow2(16) && Pow2(32) && Pow2(64);
    assert Pow2(128) && Pow2(256) && Pow2(512) && Pow2(1024);
  }

  /** The bitmaps hold all indices, and the summary has eight bits for every group. */
  lemma {:induction false} Sizes(n: nat)
    ensures var words := RoundUpPow2(n, 1) / 64;
      && (words >= 64 <==> n > 2048) && (words < 64 ==> n <= (if words > 0 then words else 1) * 64)
      && (words >= 64 ==> n <= words * 64 && words % 8 == 0 && (RoundUpPow2(words / 8, 1) / 8) * 64 == words)
  {
    hide RoundUpPow2, Pow2;
    var r := RoundUpPow2(n, 1);
    assert Pow2(1) by { OneIsPow2(); }
    RoundUpIsPow2(n, 1);
    if n > 2048 {
      Pow2Of2048();
      TwiceBelow(2048, r);
    }
    if r >= 64 {
      Eighth(r);
      Eighth(r / 8);
      assert r / 8 / 8 == r / 64 && r == 64 * (r / 64);
      if r / 64 >= 64 {
        Eighth(r / 64);
        Eighth(r / 64 / 8);
        RoundUpSame(r / 64 / 8, 1);
      }
    }
  }

  lemma {:induction false} OneIsPow2()
    ensures Pow2(1)
  {
  }
}
