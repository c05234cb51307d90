/**
 The keys of a T*-tree in order, and the successor thread.
 */
module TContent {
  import opened TNodes

  ghost function Items(m: Fields, n: TNode): seq<int> { if n in m then m[n].items else [] }

  /** The keys of a row of nodes, one node after the other. */
  ghost function Flat(m: Fields, q: seq<TNode>): seq<int> {
    if q == [] then [] else Items(m, q[0]) + Flat(m, q[1..])
  }

  lemma {:induction false} FlatAppend(m: Fields, a: seq<TNode>, b: seq<TNode>)
    ensures Flat(m, a + b) == Flat(m, a) + Flat(m, b)
  {
    if a == [] {
      assert a + b == b;
    } else {
      FlatAppend(m, a[1..], b);
      assert (a + b)[0] == a[0] && (a + b)[1..] == a[1..] + b;
      assert Items(m, a[0]) + (Flat(m, a[1..]) + Flat(m, b)) == Items(m, a[0]) + Flat(m, a[1..]) + Flat(m, b);
    }
  }

  lemma {:induction false} FlatOne(m: Fields, n: TNode)
    ensures Flat(m, [n]) == Items(m, n)
  {
    assert [n][1..] == [];
  }

  lemma {:induction false} FlatAround(m: Fields, a: seq<TNode>, n: TNode, b: seq<TNode>)
    ensures Flat(m, a + [n] + b) == Flat(m, a) + Items(m, n) + Flat(m, b)
  {
    FlatAppend(m, a + [n], b);
    FlatAppend(m, a, [n]);
    FlatOne(m, n);
  }

  lemma {:induction false} FlatFrame(m: Fields, m': Fields, q: seq<TNode>)
    requires forall i :: 0 <= i < |q| ==> Items(m', q[i]) == Items(m, q[i])
    ensures Flat(m', q) == Flat(m, q)
  {
    if q != [] {
      assert forall i :: 0 <= i < |q[1..]| ==> q[1..][i] == q[i + 1];
      FlatFrame(m, m', q[1..]);
    }
  }

  ghost predicate Ascending(q: seq<int>) {
    forall i, j :: 0 <= i < j < |q| ==> q[i] <= q[j]
  }

  /** Ascending without equal keys. */
  ghost predicate Strict(q: seq<int>) {
    forall i, j :: 0 <= i < j < |q| ==> q[i] < q[j]
  }

  ghost predicate Below(q: seq<int>, k: int) { forall i :: 0 <= i < |q| ==> q[i] <= k }

  ghost predicate Above(q: seq<int>, k: int) { forall i :: 0 <= i < |q| ==> k <= q[i] }

  ghost predicate Less(q: seq<int>, k: int) { forall i :: 0 <= i < |q| ==> q[i] < k }

  ghost predicate More(q: seq<int>, k: int) { forall i :: 0 <= i < |q| ==> k < q[i] }

  ghost function Next(q: seq<TNode>, i: int): TNode? { if 0 <= i < |q| then q[i] else null }

  /** Each node's successor field is the next node of the row; the last one's is null. */
  ghost predicate Threaded(m: Fields, q: seq<TNode>) {
    forall i :: 0 <= i < |q| ==> q[i] in m && m[q[i]].successor == Next(q, i + 1)
  }
}
