/**
 Runs of a T*-tree into which equal keys go: a lookup followed by the insertion at
 the place it has found (include/ds/ttree.h), against a bag of keys.
 */
module TBags {
  import opened Shapes
  import opened TContent
  import opened TGrow
  import opened TRebalance
  import opened TSearch
  import opened TInsert
  import opened TDelete
  import opened TTrees

  datatype BagCall = Put(key: int) | Take(key: int) | Has(key: int)

  function BagAfter(c: BagCall, bag: multiset<int>): multiset<int> {
    match c
    case Put(key) => bag + multiset{key}
    case Take(key) => bag - multiset{key}
    case Has(_) => bag
  }

  /** What every call finds: whether its key is in the bag. */
  function BagReplies(calls: seq<BagCall>, bag: multiset<int>): seq<bool> {
    if calls == [] then [] else [calls[0].key in bag] + BagReplies(calls[1..], BagAfter(calls[0], bag))
  }

  function BagFinal(calls: seq<BagCall>, bag: multiset<int>): multiset<int> {
    if calls == [] then bag else BagFinal(calls[1..], BagAfter(calls[0], bag))
  }

  lemma {:induction false} InsertedBag(q: seq<int>, r: int, key: int)
    requires 0 <= r <= |q|
    ensures multiset(Inserted(q, r, key)) == multiset(q) + multiset{key}
  {
    assert q == q[..r] + q[r..];
  }

  lemma {:induction false} RemovedBag(q: seq<int>, r: int)
    requires 0 <= r < |q|
    ensures multiset(Removed(q, r)) == multiset(q) - multiset{q[r]}
  {
    assert q == q[..r] + [q[r]] + q[r + 1..];
  }

  lemma {:induction false} NotInBag(q: seq<int>, key: int)
    requires key !in q
    ensures multiset(q) - multiset{key} == multiset(q)
  {
  }

  method Step(tree: TTree, call: BagCall) returns (present: bool)
    requires tree.Valid()
    modifies tree, tree.nodes, set n | n in tree.nodes :: n.keys
    ensures tree.Valid() && present == (call.key in old(multiset(tree.Keys())))
    ensures multiset(tree.Keys()) == BagAfter(call, old(multiset(tree.Keys())))
    ensures fresh(tree.nodes - old(tree.nodes)) && (forall n :: n in tree.nodes - old(tree.nodes) ==> fresh(n.keys))
  {
    hide Tree, Windows, Flat, Inorder, Strict, Answer, Inserted, Removed;
    ghost var r, at, q := 0, Spot(Top, Nil, Nil), tree.Keys();
    var cur;
    match call {
      case Put(key) =>
        present, cur, at := tree.Lookup(key);
        r := tree.InsertPlaceful(cur, key, present, at);
        InsertedBag(q, r, key);
      case Take(key) =>
        present, r := tree.Delete(key);
        if present { RemovedBag(q, r); } else { NotInBag(q, key); }
      case Has(key) =>
        present, cur, at := tree.Lookup(key);
    }
  }

  /** Every run from the empty tree refines the same run of a bag, and its walk lists the bag in order. */
  method Run(keysPerNode: int, calls: seq<BagCall>) returns (replies: seq<bool>, keys: seq<int>)
    requires 2 <= keysPerNode <= 2048
    ensures replies == BagReplies(calls, multiset{})
    ensures Ascending(keys) && multiset(keys) == BagFinal(calls, multiset{})
  {
    hide Tree, Windows, Flat, Inorder, Ascending, BagReplies, BagFinal, BagAfter;
    var tree := new TTree(keysPerNode);
    replies := [];
    var i := 0;
    assert calls[0..] == calls && multiset(tree.Keys()) == multiset{};
    while i < |calls|
      invariant 0 <= i <= |calls| && tree.Valid() && fresh(tree) && fresh(tree.nodes)
      invariant forall n :: n in tree.nodes ==> fresh(n.keys)
      invariant replies + BagReplies(calls[i..], multiset(tree.Keys())) == BagReplies(calls, multiset{})
      invariant BagFinal(calls[i..], multiset(tree.Keys())) == BagFinal(calls, multiset{})
    {
      ghost var bag := multiset(tree.Keys());
      var present := Step(tree, calls[i]);
      BagStep(calls, i, bag, replies);
      replies := replies + [present];
      i := i + 1;
    }
    BagDone(calls, multiset(tree.Keys()), replies);
    keys := tree.Walk();
  }

  lemma {:induction false} BagStep(calls: seq<BagCall>, i: int, bag: multiset<int>, replies: seq<bool>)
    requires 0 <= i < |calls|
    ensures replies + BagReplies(calls[i..], bag)
      == (replies + [calls[i].key in bag]) + BagReplies(calls[i + 1..], BagAfter(calls[i], bag))
    ensures BagFinal(calls[i..], bag) == BagFinal(calls[i + 1..], BagAfter(calls[i], bag))
  {
    hide BagAfter;
    assert calls[i..][0] == calls[i] && calls[i..][1..] == calls[i + 1..];
  }

  lemma {:induction false} BagDone(calls: seq<BagCall>, bag: multiset<int>, replies: seq<bool>)
    ensures replies + BagReplies(calls[|calls|..], bag) == replies && BagFinal(calls[|calls|..], bag) == bag
  {
    assert calls[|calls|..] == [] && replies + [] == replies;
  }
}
