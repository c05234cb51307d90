/**
 A finite set of keys: what both trees are measured against.
 */
module KeySets {

  datatype Call = Insert(key: int) | Delete(key: int) | Lookup(key: int)

  /** The answers of a plain set of keys. */
  function SetReplies(calls: seq<Call>, keys: set<int>): seq<bool> {
    if calls == [] then []
    else [calls[0].key in keys] + SetReplies(calls[1..], SetAfter(calls[0], keys))
  }

  function SetAfter(call: Call, keys: set<int>): set<int> {
    match call
    case Insert(key) => keys + {key}
    case Delete(key) => keys - {key}
    case Lookup(_) => keys
  }

  function SetFinal(calls: seq<Call>, keys: set<int>): set<int> {
    if calls == [] then keys else SetFinal(calls[1..], SetAfter(calls[0], keys))
  }

  lemma {:induction false} SetStep(calls: seq<Call>, i: int, keys: set<int>, before: seq<bool>)
    requires 0 <= i < |calls|
    ensures before + SetReplies(calls[i..], keys)
      == (before + [calls[i].key in keys]) + SetReplies(calls[i + 1..], SetAfter(calls[i], keys))
    ensures SetFinal(calls[i..], keys) == SetFinal(calls[i + 1..], SetAfter(calls[i], keys))
  {
    assert calls[i..][0] == calls[i] && calls[i..][1..] == calls[i + 1..];
  }

  lemma {:induction false} SetDone(keys: set<int>)
    ensures SetReplies([], keys) == [] && SetFinal([], keys) == keys
  {
  }
}
