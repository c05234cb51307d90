/**
 The index array: entries of 512 values each, kept in a list of entries with
 values left and a list of full ones (kernel/generic/index_array.c).
 */
module IndexArrays {
  import opened Options

  const IA_ENTRY_RANGE := 512

  /** A set bit is a value that is left. */
  datatype Entry = Entry(bits: seq<bool>, left: nat)

  function Count(bits: seq<bool>): nat {
    if bits == [] then 0 else (if bits[0] then 1 else 0) + Count(bits[1..])
  }

  function Total(es: seq<Entry>): nat {
    if es == [] then 0 else es[0].left + Total(es[1..])
  }

  lemma {:induction false} CountSet(bits: seq<bool>, i: int, b: bool)
    requires 0 <= i < |bits|
    ensures Count(bits[i := b]) == Count(bits) - (if bits[i] then 1 else 0) + if b then 1 else 0
  {
    if i == 0 {
      assert bits[i := b][1..] == bits[1..];
    } else {
      CountSet(bits[1..], i - 1, b);
      assert bits[i := b][1..] == bits[1..][i - 1 := b];
    }
  }

  lemma {:induction false} CountSome(bits: seq<bool>)
    ensures Count(bits) > 0 <==> exists i :: 0 <= i < |bits| && bits[i]
    ensures Count(bits) <= |bits|
  {
    if bits != [] {
      CountSome(bits[1..]);
      if i :| 0 <= i < |bits[1..]| && bits[1..][i] { assert bits[i + 1]; }
      if i :| 0 <= i < |bits| && bits[i] { assert i > 0 ==> bits[1..][i - 1]; }
    }
  }

  lemma {:induction false} TotalSet(es: seq<Entry>, i: int, e: Entry)
    requires 0 <= i < |es|
    ensures Total(es[i := e]) == Total(es) - es[i].left + e.left && Total(es) >= es[i].left
  {
    if i == 0 {
      assert es[i := e][1..] == es[1..];
    } else {
      TotalSet(es[1..], i - 1, e);
      assert es[i := e][1..] == es[1..][i - 1 := e];
    }
  }

  lemma {:induction false} TotalSome(es: seq<Entry>)
    ensures Total(es) > 0 <==> exists i :: 0 <= i < |es| && es[i].left > 0
  {
    if es != [] {
      TotalSome(es[1..]);
      if i :| 0 <= i < |es[1..]| && es[1..][i].left > 0 { assert es[i + 1].left > 0; }
      if i :| 0 <= i < |es| && es[i].left > 0 { assert i > 0 ==> es[1..][i - 1].left > 0; }
    }
  }

  ghost predicate EntriesOk(es: seq<Entry>) {
    forall i :: 0 <= i < |es| ==> |es[i].bits| == IA_ENTRY_RANGE && es[i].left == Count(es[i].bits)
  }

  /** A list of entry numbers without repetition. */
  ghost predicate Distinct(q: seq<nat>) { forall i, j :: 0 <= i < j < |q| ==> q[i] != q[j] }

  /** An entry is on the free list exactly when it has a value left, and on the full list otherwise. */
  ghost predicate Listed(es: seq<Entry>, free: seq<nat>, full: seq<nat>) {
    && Distinct(free) && Distinct(full)
    && (forall k: nat :: k in free <==> k < |es| && es[k].left > 0)
    && (forall k: nat :: k in full <==> k < |es| && es[k].left == 0)
  }

  /** Value `v` is left. */
  ghost predicate Left(es: seq<Entry>, v: nat) {
    v / 512 < |es| && v % 512 < |es[v / 512].bits| && es[v / 512].bits[v % 512]
  }

  /** The list loses its entry at `i`. */
  lemma {:induction false} DropAt(q: seq<nat>, i: int)
    requires Distinct(q) && 0 <= i < |q|
    ensures var r := q[..i] + q[i + 1..]; Distinct(r) && forall k: nat :: k in r <==> k in q && k != q[i]
  {
    var r := q[..i] + q[i + 1..];
    assert forall a :: 0 <= a < |r| ==> r[a] == q[if a < i then a else a + 1];
    forall k: nat | k in q && k != q[i] ensures k in r {
      var a :| 0 <= a < |q| && q[a] == k;
      assert r[if a < i then a else a - 1] == k;
    }
  }

  class IndexArray {
    const maxValue: nat
    var valuesLeft: nat
    var entries: seq<Entry>
    var free: seq<nat>
    var full: seq<nat>

    ghost predicate Valid()
      reads this
    {
      && EntriesOk(entries) && Listed(entries, free, full) && valuesLeft == Total(entries)
      && maxValue + 1 == |entries| * 512
    }

    /** `n` entries with all their values left, all on the free list in order. */
    constructor (n: nat)
      requires n > 0
      ensures Valid() && maxValue == n * 512 - 1 && valuesLeft == n * 512
      ensures forall v: nat :: v <= maxValue ==> Left(entries, v)
    {
      var e := Entry(seq(512, _ => true), 512);
      maxValue, entries, valuesLeft := n * 512 - 1, seq(n, _ => e), n * 512;
      free, full := seq(n, i => i), [];
      new;
      AllSet(e.bits);
      AllEqual(entries, 512);
      StartListed(entries, free);
    }

    /** Hands out a value that is left, or None when none is. */
    method AllocValue() returns (r: Option<nat>)
      requires Valid()
      modifies this
      ensures Valid() && valuesLeft == old(valuesLeft) - if r.Some? then 1 else 0
      ensures r.None? <==> forall v: nat :: v <= maxValue ==> !Left(old(entries), v)
      ensures r.None? ==> entries == old(entries)
      ensures r.Some? ==> r.value <= maxValue && Left(old(entries), r.value) && forall v: nat :: Left(entries, v) <==>
        Left(old(entries), v) && v != r.value
      ensures r.Some? ==>
        old(free) != [] && r.value / 512 == old(free)[0] && forall v: nat :: v / 512 == old(free)[0] && v < r.value ==>
          !Left(old(entries), v)
      ensures r.Some? ==> free == if entries[r.value / 512].left == 0 then old(free)[1..] else old(free)
    {
      hide EntriesOk, Listed, Left, Total, Count;
      NothingLeft(entries);
      if valuesLeft == 0 { return None; }
      FirstFree(entries, free, full);
      var k := free[0];
      var idx := FirstSet(entries[k].bits);
      ghost var es := entries;
      HereLeft(es, k, idx);
      entries := entries[k := Entry(entries[k].bits[idx := false], entries[k].left - 1)];
      valuesLeft := valuesLeft - 1;
      Flipped(es, k, idx, false);
      ghost var free0, full0 := free, full;
      if entries[k].left == 0 {
        free := free[1..];
        full := [k] + full;
      }
      TakenListed(es, entries, free0, full0, k);
      LowestLeft(es, k, idx);
      r := Some(k * IA_ENTRY_RANGE + idx);
    }

    /** Takes a value back; false for one that was not handed out. */
    method FreeValue(value: nat) returns (ok: bool)
      requires Valid()
      modifies this
      ensures Valid() && ok == (value <= maxValue && !Left(old(entries), value))
      ensures !ok ==> entries == old(entries) && valuesLeft == old(valuesLeft)
      ensures ok ==> free == if old(entries)[value / 512].left == 0 then old(free) + [value / 512] else old(free)
      ensures ok ==> valuesLeft == old(valuesLeft) + 1 && forall v: nat :: Left(entries, v) <==>
        Left(old(entries), v) || v == value
    {
      hide EntriesOk, Listed, Total, Count;
      if value > maxValue { return false; }
      var k, off := value / 512, value % 512;
      EntryAt(entries, k);
      if entries[k].bits[off] { return false; }
      ghost var es, free0, full0 := entries, free, full;
      entries := entries[k := Entry(entries[k].bits[off := true], entries[k].left + 1)];
      valuesLeft := valuesLeft + 1;
      Flipped(es, k, off, true);
      assert k * 512 + off == value;
      if entries[k].left == 1 {
        OnFull(es, free, full, k);
        var i :| 0 <= i < |full| && full[i] == k;
        DropAt(full, i);
        full := full[..i] + full[i + 1..];
        free := free + [k];
      }
      BackListed(es, entries, free0, full0, free, full, k);
      ok := true;
    }
  }

  /** The lowest set bit. */
  method FirstSet(bits: seq<bool>) returns (i: nat)
    requires Count(bits) > 0
    ensures i < |bits| && bits[i] && forall j :: 0 <= j < i ==> !bits[j]
  {
    CountSome(bits);
    i := 0;
    while !bits[i]
      invariant i < |bits| && forall j :: 0 <= j < i ==> !bits[j]
      decreases |bits| - i
    {
      i := i + 1;
    }
  }

  lemma {:induction false} NothingLeft(es: seq<Entry>)
    requires EntriesOk(es)
    ensures Total(es) == 0 <==> forall v: nat :: v < |es| * 512 ==> !Left(es, v)
  {
    TotalSome(es);
    if i :| 0 <= i < |es| && es[i].left > 0 {
      CountSome(es[i].bits);
      var j :| 0 <= j < |es[i].bits| && es[i].bits[j];
      var v := i * 512 + j;
      assert v / 512 == i && v % 512 == j;
      assert Left(es, v);
    } else {
      forall v: nat | v < |es| * 512 ensures !Left(es, v) {
        assert es[v / 512].left == 0;
        CountSome(es[v / 512].bits);
      }
    }
  }

  lemma {:induction false} FirstFree(es: seq<Entry>, free: seq<nat>, full: seq<nat>)
    requires EntriesOk(es) && Listed(es, free, full) && Total(es) > 0
    ensures free != [] && free[0] < |es| && es[free[0]].left > 0 && Count(es[free[0]].bits) > 0
    ensures |es[free[0]].bits| == 512
  {
    TotalSome(es);
    var i :| 0 <= i < |es| && es[i].left > 0;
    assert i in free;
    assert free[0] in free;
  }

  lemma {:induction false} EntryAt(es: seq<Entry>, k: nat)
    requires EntriesOk(es) && k < |es|
    ensures |es[k].bits| == 512
  {
  }

  lemma {:induction false} LowestLeft(es: seq<Entry>, k: nat, idx: nat)
    requires k < |es| && idx < 512 && forall j :: 0 <= j < idx && j < |es[k].bits| ==> !es[k].bits[j]
    ensures (k * 512 + idx) / 512 == k && forall v: nat :: v / 512 == k && v < k * 512 + idx ==> !Left(es, v)
  {
    forall v: nat | v / 512 == k && v < k * 512 + idx ensures !Left(es, v) { assert v % 512 == v - k * 512; }
  }

  lemma {:induction false} HereLeft(es: seq<Entry>, k: nat, idx: nat)
    requires EntriesOk(es) && k < |es| && idx < |es[k].bits| && es[k].bits[idx]
    ensures Left(es, k * 512 + idx) && k * 512 + idx < |es| * 512 && idx < 512
  {
    assert (k * 512 + idx) / 512 == k && (k * 512 + idx) % 512 == idx;
  }

  /** One bit of one entry changes, and its counter with it. */
  lemma {:induction false} Flipped(es: seq<Entry>, k: nat, idx: nat, b: bool)
    requires EntriesOk(es) && k < |es| && idx < 512 && es[k].bits[idx] == !b
    ensures b || es[k].left > 0
    ensures var e := Entry(es[k].bits[idx := b], if b then es[k].left + 1 else es[k].left - 1);
      && EntriesOk(es[k := e]) && Total(es[k := e]) == Total(es) + (if b then 1 else -1)
      && forall v: nat :: Left(es[k := e], v) <==> if v == k * 512 + idx then b else Left(es, v)
  {
    CountSome(es[k].bits);
    CountSet(es[k].bits, idx, b);
    var e := Entry(es[k].bits[idx := b], if b then es[k].left + 1 else es[k].left - 1);
    TotalSet(es, k, e);
    FlippedBit(es, k, idx, b, e);
  }

  lemma {:induction false} FlippedBit(es: seq<Entry>, k: nat, idx: nat, b: bool, e: Entry)
    requires k < |es| && idx < 512 == |es[k].bits| && e.bits == es[k].bits[idx := b]
    ensures forall v: nat :: Left(es[k := e], v) <==> if v == k * 512 + idx then b else Left(es, v)
  {
    hide Count;
    forall v: nat ensures Left(es[k := e], v) <==> if v == k * 512 + idx then b else Left(es, v) {
      assert v == v / 512 * 512 + v % 512;
    }
  }

  lemma {:induction false} TakenListed(es: seq<Entry>, es': seq<Entry>, free: seq<nat>, full: seq<nat>, k: nat)
    requires Listed(es, free, full) && free != [] && free[0] == k && k < |es| && es[k].left > 0
    requires |es'| == |es| && es' == es[k := es'[k]] && es'[k].left == es[k].left - 1
    ensures Listed(es', if es'[k].left == 0 then free[1..] else free, if es'[k].left == 0 then [k] + full else full)
  {
    if es'[k].left == 0 {
      DropAt(free, 0);
      assert free[..0] + free[1..] == free[1..];
      assert k !in full;
      assert forall j: nat :: j in [k] + full <==> j == k || j in full;
    }
  }

  lemma {:induction false} OnFull(es: seq<Entry>, free: seq<nat>, full: seq<nat>, k: nat)
    requires Listed(es, free, full) && k < |es| && es[k].left == 0
    ensures (exists i :: 0 <= i < |full| && full[i] == k) && Distinct(full)
  {
    assert k in full;
  }

  lemma {:induction false} BackListed(es: seq<Entry>, es': seq<Entry>, free: seq<nat>, full: seq<nat>,
        free': seq<nat>, full': seq<nat>, k: nat)
    requires Listed(es, free, full) && k < |es| && |es'| == |es| && es' == es[k := es'[k]]
    requires es'[k].left == es[k].left + 1
    requires es'[k].left != 1 ==> free' == free && full' == full
    requires es'[k].left == 1 ==> free' == free + [k] && Distinct(full') && forall j: nat :: j in full' <==>
      j in full && j != k
    ensures Listed(es', free', full')
  {
    if es'[k].left == 1 {
      assert k !in free;
      assert forall j: nat :: j in free' <==> j in free || j == k;
    }
  }

  lemma {:induction false} StartListed(es: seq<Entry>, free: seq<nat>)
    requires |free| == |es| && (forall k :: 0 <= k < |free| ==> free[k] == k)
    requires forall k :: 0 <= k < |es| ==> es[k].left > 0
    ensures Listed(es, free, [])
  {
    forall k: nat ensures k in free <==> k < |es| {
      if k < |es| { assert free[k] == k; }
    }
  }

  lemma {:induction false} AllSet(bits: seq<bool>)
    requires forall i :: 0 <= i < |bits| ==> bits[i]
    ensures Count(bits) == |bits|
  {
    if bits != [] { AllSet(bits[1..]); }
  }

  lemma {:induction false} AllEqual(es: seq<Entry>, k: nat)
    requires forall i :: 0 <= i < |es| ==> es[i].left == k
    ensures Total(es) == |es| * k
  {
    if es != [] { AllEqual(es[1..], k); }
  }

  datatype Call = Alloc | Free(value: nat)

  datatype Event = Out(value: nat) | Back(value: nat) | Nothing

  /** The last thing that happened to `v` is that it was handed out. */
  ghost predicate Held(log: seq<Event>, v: nat) {
    log != [] && var last := log[|log| - 1]; last == Out(v) || (last != Back(v) && Held(log[..|log| - 1], v))
  }

  lemma {:induction false} HeldMore(log: seq<Event>, e: Event, v: nat)
    ensures Held(log + [e], v) <==> e == Out(v) || (e != Back(v) && Held(log, v))
  {
    assert (log + [e])[..|log|] == log;
  }

  /**
   In every run a value is handed out only when it is not held, taken back only when it is, and refused only
   when all are.
   */
  ghost predicate Fair(log: seq<Event>, calls: seq<Call>, max: nat) {
    && |log| == |calls|
    && (forall i, v: nat :: 0 <= i < |log| && log[i] == Out(v) ==> calls[i] == Alloc && v <= max && !Held(log[..i], v))
    && (forall i, v: nat :: 0 <= i < |log| && log[i] == Back(v) ==> calls[i] == Free(v) && Held(log[..i], v))
    && (forall i, v: nat :: 0 <= i < |log| && log[i] == Nothing && calls[i].Alloc? && v <= max ==> Held(log[..i], v))
    && (forall i :: 0 <= i < |log| && log[i] == Nothing && calls[i].Free? ==>
      calls[i].value > max || !Held(log[..i], calls[i].value))
  }

  method Run(n: nat, calls: seq<Call>) returns (log: seq<Event>)
    requires n > 0
    ensures Fair(log, calls, n * 512 - 1)
  {
    hide EntriesOk, Listed, Left, Total, Count, Held;
    var a := new IndexArray(n);
    log := [];
    NothingHeld();
    var i := 0;
    assert calls[..0] == [];
    while i < |calls|
      invariant 0 <= i <= |calls| && fresh(a) && a.Valid() && a.maxValue == n * 512 - 1
      invariant Fair(log, calls[..i], a.maxValue)
      invariant forall v: nat :: v <= a.maxValue ==> (Held(log, v) <==> !Left(a.entries, v))
    {
      var e := Nothing;
      match calls[i] {
        case Alloc =>
          var r := a.AllocValue();
          if r.Some? { e := Out(r.value); }
        case Free(value) =>
          var ok := a.FreeValue(value);
          if ok { e := Back(value); }
      }
      forall v: nat ensures Held(log + [e], v) <==> e == Out(v) || (e != Back(v) && Held(log, v)) {
        HeldMore(log, e, v);
      }
      FairMore(log, calls, i, e, a.maxValue);
      log := log + [e];
      i := i + 1;
    }
    assert calls[..i] == calls;
  }

  lemma {:induction false} NothingHeld()
    ensures forall v: nat :: !Held([], v)
  {
  }

  lemma {:induction false} FairMore(log: seq<Event>, calls: seq<Call>, i: int, e: Event, max: nat)
    requires 0 <= i < |calls| && Fair(log, calls[..i], max)
    requires e.Out? ==> calls[i] == Alloc && e.value <= max && !Held(log, e.value)
    requires e.Back? ==> calls[i] == Free(e.value) && Held(log, e.value)
    requires e == Nothing && calls[i].Alloc? ==> forall v: nat :: v <= max ==> Held(log, v)
    requires e == Nothing && calls[i].Free? ==> calls[i].value > max || !Held(log, calls[i].value)
    ensures Fair(log + [e], calls[..i + 1], max)
  {
    hide Held;
    var r, c := log + [e], calls[..i + 1];
    assert forall k :: 0 <= k < i ==> r[k] == log[k] && c[k] == calls[..i][k] && r[..k] == log[..k];
    assert r[i] == e && c[i] == calls[i] && r[..i] == log;
  }
}
