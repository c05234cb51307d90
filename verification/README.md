# MuString kernel data structures and kconfig, verified

A Dafny model of the parts of the MuString kernel and its configuration tool whose correctness is
hardest to see from the code, with proofs that they do what they are for.

* **T\*-tree** (`T*.dfy`). Nodes are objects with parent, successor, child, side and balance fields and an
  array of keys of which a window is in use. Insertion can push a key on to the successor, deletion can
  borrow and merge, a double rotation can move keys between nodes. Every run is shown to behave as a
  finite set of keys, and every tree a caller can see keeps links, balance, windows, order and thread.
* **Red-black tree** (`Rb*.dfy`). Nodes are objects with parent, child and colour fields; both fix-up loops
  run over the pointers. The mirrored halves of the source are one case here, told apart by a direction.
* **Kconfig expressions** (`KExpr*.dfy`). Expressions are values; the passes that hold two pointers into one
  tree hold two places in it. Duplicate elimination is exact except that m may be sharpened to y or n.
* **Timers and deferred actions** (`Prio*.dfy`, `QueueId.dfy`, `DeferRun.dfy`, `Timer*.dfy`, `ListRing.dfy`).
  Two-level priority lists are stable priority queues. Every timer owns a tick record with a list head; one
  timer of a tick is bound and its list holds the actions of all. The list of major ticks shows exactly the
  armed timers, and each of them is handed over once, at its tick, and executed once. Each call or tick is one
  atomic step. The operations on two-level lists and the takeover of a tick are proved twice: on values, from
  which the runs are built, and on the links of circular lists (`ListRing.dfy`, `PrioRing.dfy`, `PrioLink.dfy`,
  `PrioAdd.dfy`, `PrioBatch.dfy`, `TimerLink.dfy`), where the rings afterwards show the value the first level gives.
* **Kconfig symbols** (`KSymbol.dfy`, `KValue.dfy`, `KCalc.dfy`, `KMeaning.dfy`). The search for recursive
  dependencies and the memoised evaluation, measured against the equations the symbol values have to meet, and
  what these say of a symbol in terms of its prompts, defaults and user value.
* **Index allocator, index array, quoted strings** (`Idx*.dfy`, `IndexArray.dfy`, `Conf*.dfy`).

How the pointer structures are proved: the fields of all nodes are read off as a finite map (`Snap`), the
shape of a tree is a value with a focus, and every write to the heap is first related to the map and then to
the shape by lemmas that do not mention the heap.

Where code and comments of the source disagree, the model follows the code: the fewest entries a T\*-tree
node keeps is three quarters of its rooms (kernel/ds/ttree.c:46-47), not one quarter as the comment above
it says; keys move after a double rotation when both children have a free side, which then are leaves, and
not only half-leaves as the comment says (kernel/ds/ttree.c:378-387).

At the root of a T\*-tree the source indexes its table of balance factors with -1 (kernel/ds/ttree.c:63-66,
549, 568). The value it reads is never used, because the loop ends there; the model has a guard in that place.

Some properties one would expect do not hold, and when they do is proved:

* Duplicate elimination turns m into y or n (`KExprSharpening.SharpenedExample`). The step that does so keeps
  the value exactly when it was not m (`DecidedExact`); the whole pass is exact whenever no symbol is m
  (`DefiniteKept`), and for every valuation if no tristate symbol stands on its own (`TwoValuedKept`) or no
  operand is decided (`UndecidedKept`).
* An action that was posted and then taken out of the deferred queue is not queued by posting it again
  (`DeferRuns.LostExample`). Posting queues an action exactly if it carries no mark (`QueuedUnlessMarked`), and
  the mark is there exactly from posting to execution (`MarkedSince`). Timers come in batches and never
  carry it (`BatchedUnmarked`).
* A freed index need not be given out again (`IdxRuns.HiddenExample`), and its bit of the summary can be
  looked for outside the summary (`IdxRuns.OutsideExample`), because it is addressed by another formula than the
  allocator uses. Both have exact conditions (`IdxAllocator.Free`, `IdxRuns.FreeThenExhaust`), the first one also
  in terms of the calls made (`IdxRuns.FillFreeExhaust`).
* A string with a newline, or in too long a line, does not come back from the configuration file
  (`ConfLines.NewlineLost`); all others do (`ConfLines.ComesBack`), and whole files exactly if all their
  settings do (`ConfFiles.FileExact`).
* The step after a failed lookup in a T\*-tree need not reach the next larger key (`TRuns.SkippedExample`);
  `TTree.SeekNext` says exactly when it does, by the cursor and by the nodes of the tree.

Keys of both trees are integers standing for the caller's items under its comparison. Bits of a machine
word are a sequence of 64 booleans. Clocks and the priority of the running task are parameters, executed actions and
error codes are results.

## Model

| member | source | states |
|---|---|---|
| TNodes.TNode.IncreaseWindow | kernel/ds/ttree.c:204-221 | a gap opens in front of key `idx`: the keys before and behind it keep their order, whichever end of the window moves |
| TNodes.TNode.InsertAt | kernel/ds/ttree.c:204-221 | the key sequence of the node gets the new key at the given position and nothing else changes |
| TNodes.TNode.DecreaseWindow | kernel/ds/ttree.c:223-240 | the key at `idx` leaves the key sequence of the node, all others keep their order |
| TNodes.TNode.BorrowFrom | kernel/ds/ttree.c:855-858 | the smallest key of the successor moves behind the largest key of the node |
| TNodes.TNode.MergeRight | kernel/ds/ttree.c:880-897 | all keys of a right leaf move behind the keys of the node, the leaf is empty |
| TNodes.TNode.MergeLeft | kernel/ds/ttree.c:898-922 | all keys of a left leaf move before the keys of the node, the leaf is empty |
| TNodes.TNode.PullFromRight | kernel/ds/ttree.c:395-453 | all but the last key of the right neighbour move, in order, behind the single key |
| TNodes.TNode.PullFromLeft | kernel/ds/ttree.c:421-453 | all but the first key of the left neighbour move, in order, before the single key |
| TSearch.LookupInside | kernel/ds/ttree.c:177-202 | binary search between two bounds: the index of the key, or the index below which all keys are smaller and from which on all are larger |
| TRotate.RotateSingle | kernel/ds/ttree.c:248-319 | the pointer writes of a single rotation change exactly the links of the two nodes, the inner child and the parent; the two new balance factors in terms of the old ones |
| TRotate.RotateDouble | kernel/ds/ttree.c:321-364 | two rotations one after the other with the three balance factors in terms of the lifted node's old one |
| TBalance.SingleLeft | kernel/ds/ttree.c:277-319 | a single left rotation at any place of any tree: links, sides, order of nodes and balance factors (equal to right minus left height) are right again |
| TBalance.SingleRight | kernel/ds/ttree.c:277-319 | the mirror image of the single left rotation |
| TBalance.DoubleLeft | kernel/ds/ttree.c:321-364 | a double rotation at any place of any tree: links, sides, order of nodes and the three balance factors are right again |
| TBalance.DoubleRight | kernel/ds/ttree.c:321-364 | the mirror image of the double rotation |
| TRebalance.Refill | kernel/ds/ttree.c:386-453 | keys move exactly when the lifted node has one key and each child has a free side: the fuller child, which is a leaf then, keeps one key, the other child all, and the keys in order stay the same; otherwise nothing changes |
| TRebalance.Rebalance | kernel/ds/ttree.c:366-458 | a subtree that leans by two is replaced by a balanced one with the same nodes and keys in order, one level lower exactly when its top is balanced evenly; no node is left empty, nothing around it changes |
| TThread.AddSuccessor | kernel/ds/ttree.c:460-497 | of all nodes exactly the predecessor and the new leaf get a new successor: the leaf, and the node behind it |
| TThread.RemoveSuccessor | kernel/ds/ttree.c:499-521 | of all nodes only the predecessor of the leaf gets a new successor, the node behind the leaf |
| TThread.ThreadInserted | kernel/ds/ttree.c:460-497 | these two writes thread the whole row of nodes with one more node |
| TThread.ThreadRemoved | kernel/ds/ttree.c:499-521 | that one write threads the whole row of nodes without the leaf |
| TFixup.FixupAfterInsertion | kernel/ds/ttree.c:523-551 | climbing from a new leaf restores every balance factor of the whole tree; keys in order stay the same |
| TFixup.FixupAfterDeletion | kernel/ds/ttree.c:553-585 | climbing from a removed leaf restores every balance factor of the whole tree, with any number of rotations; keys in order stay the same |
| TGrow.GrowLeaf | kernel/ds/ttree.c:798-807 | a new leaf with one key in the right place: all tree rules hold again and the keys are the old ones with the new one in its place |
| TShrink.RemoveLeaf | kernel/ds/ttree.c:940-950 | an empty leaf leaves the tree: all tree rules hold again and the keys stay the same |
| TSearch.Descend | kernel/ds/ttree.c:638-661 | the way down ends at a node with the key as its minimum, or at an empty place with the last node on the way whose minimum is smaller, and the key can only be inside that node or at that place |
| TSearch.LookupFrom | kernel/ds/ttree.c:618-710 | answers whether the key is in the tree; the cursor is on it or on the place where it belongs |
| TTrees.TTree.constructor | kernel/ds/ttree.c:587-602 | an empty tree for 2 to 2048 keys a node |
| TTrees.TTree.Lookup | kernel/ds/ttree.c:618-710 | found exactly when the key is among the keys of the tree, for the empty tree too |
| TTrees.TTree.PutInNode | kernel/ds/ttree.c:793-796 | the key goes into a node with room; the keys in order are the old ones with it in its place |
| TTrees.TTree.SwapInNode | kernel/ds/ttree.c:748-758 | a full node takes the key and gives up its largest one, which belongs right behind the node |
| TTrees.TTree.PassBehind | kernel/ds/ttree.c:760-807 | the key given up goes into the successor, a new left child of it, or a new right child, always into its place |
| TTrees.TTree.InsertPlaceful | kernel/ds/ttree.c:723-807 | insertion at the place a lookup has found, with or without the key, in every branch: exactly the key is added in its place, next to an equal one if there is any; all rules of the tree kept |
| TTrees.TTree.Insert | kernel/ds/ttree.c:712-721 | 0 and exactly the key added in its place, or -1 and nothing changed; all rules of the tree kept |
| TTrees.TTree.BorrowNext | kernel/ds/ttree.c:848-869 | an internal node takes the first key of its successor as its last one, no other node changes; the keys in order stay the same |
| TTrees.TTree.MergeChild | kernel/ds/ttree.c:870-923 | a half-leaf takes over all keys of its only child, a leaf, or they do not fit into one node and nothing changes; the keys in order stay the same |
| TTrees.TTree.DropLeaf | kernel/ds/ttree.c:924-951 | an empty leaf, possibly the last node, goes; the keys in order stay the same and all rules of the tree hold again |
| TTrees.TTree.DeletePlaceful | kernel/ds/ttree.c:822-951 | exactly the key under the cursor goes, whatever is borrowed, merged or rotated; all rules of the tree kept. A node left with more than three quarters of its rooms in use only loses the key; when no node goes, another inner node has got the first key of its successor for it, and a half-leaf among the two does not fit into one node with its leaf |
| TTrees.TTree.Delete | kernel/ds/ttree.c:809-820 | tells whether the key was present; exactly that key is gone, all rules of the tree kept |
| TTrees.TTree.Leftmost | include/ds/ttree.h:452-462 | the loop to the left ends at the first node of the row |
| TTrees.TTree.CursorNext | kernel/ds/ttree.c:973-1020 | from key number i to key number i + 1, or -1 behind the last one, and -1 again from there on; -1 for an untied cursor; a pending cursor goes to the first key of its node, stays where it is, or gives -1, by its side and index |
| TTrees.TTree.SeekNext | kernel/ds/ttree.c:618-1020 | lookup and one step: after a hit the step reaches the next key; after a miss it reaches the next larger key exactly if the cursor the lookup gives is pending at the last index of its node, which is the case exactly if the next larger key is the last one of its node and, when it is the only one there, the node has no left child; otherwise -1 and the cursor stays |
| TSeeks.Reaches | kernel/ds/ttree.c:638-710 | of every cursor a lookup can give for a missing key: whether it stands at the last index of its node is decided by the nodes alone |
| TRuns.SkippedExample | kernel/ds/ttree.c:618-1020 | with 5 and 7 in a tree of 4 keys a node, the step after the failed lookup of 3 gives -1, although 5 is larger |
| TTrees.TTree.Walk | kernel/ds/ttree.c:973-1020 | the walk along the thread gives every key once, in ascending order |
| TDelete.HalfLeaf | kernel/ds/ttree.c:870-880 | the only child of a half-leaf is a leaf, its side field tells the side, and the two are neighbours in the row of nodes |
| TInsert.SuccessorSpot | kernel/ds/ttree.c:767-773 | the successor of a node with a right child is the leftmost node of the right subtree, has no left child and comes right behind it |
| TRuns.ValidRules | kernel/ds/ttree.c:204-585 | in every tree a caller can see: balance factor equals right minus left height and is -1, 0 or 1, links and sides agree, no empty node, window within the array, keys ascending, successor is the next node |
| TRuns.Run | kernel/ds/ttree.c:618-951 | every run of insertions, deletions and lookups from the empty tree answers as a finite set does, and the final walk lists that set in order |
| TBags.Run | kernel/ds/ttree.c:618-951 | every run in which equal keys go in through lookup and placed insertion answers as a multiset does, and the final walk lists it in order |
| TRuns.BalancedIsLow | kernel/ds/ttree.c:523-585 | a balanced tree of height h has at least N(h) = 1 + N(h - 1) + N(h - 2) nodes |
| RbTurns.Rotate | kernel/ds/rbtree.c:26-64 | a rotation at any place of any tree spells out the turned tree; the root pointer follows |
| RbShapes.Turned | kernel/ds/rbtree.c:26-64 | the five groups of pointer writes of a rotation turn exactly the subtree in focus and leave everything around it linked |
| RbInsertion.Round | kernel/ds/rbtree.c:70-126 | one round of the insertion loop: the only red pair, if any, is closer to the root, black heights and the row of nodes stay |
| RbInsertion.InsertColor | kernel/ds/rbtree.c:66-129 | restores root black, no red child of a red node and equal black heights after a red leaf was linked; the row of nodes stays |
| RbErasure.Round | kernel/ds/rbtree.c:136-216 | one round of the erase loop: all rules hold, or the place where one black node is missing is red or one level higher; the row of nodes stays |
| RbErasure.EraseColor | kernel/ds/rbtree.c:131-221 | restores all red-black rules after a black node has gone, terminates, and keeps the row of nodes |
| RbSplices.SpliceOut | kernel/ds/rbtree.c:277-290 | a node with at most one child is bypassed; the rest is linked as before |
| RbSplices.Replace | kernel/ds/rbtree.c:257-273 | another node takes over place, colour and links of a node |
| RbTrees.EraseTwo | kernel/ds/rbtree.c:233-294 | a node with two children goes: its successor takes its place and colour and all rules hold again |
| RbTrees.RbTree.Add | include/ds/rbtree.h:130-138 | linking at an empty place and fixing up: the row of nodes has the new node exactly there, all rules hold |
| RbTrees.RbTree.Erase | kernel/ds/rbtree.c:223-295 | exactly the given node leaves the row of nodes, all rules hold again |
| RbTrees.RbTree.First | kernel/ds/rbtree.c:300-310 | the first node of the row, null for the empty tree |
| RbTrees.RbTree.Next | kernel/ds/rbtree.c:324-345 | the next node of the row, null behind the last one, both downwards and upwards |
| RbTrees.RbTree.Walk | kernel/ds/rbtree.c:300-345 | first and next visit every node once, in order |
| RbTrees.RbTree.Search | include/ds/rbtree.h:34-78 | the documented search: the node with the key, or the only empty place where it keeps the order |
| RbTrees.RbTree.Insert | include/ds/rbtree.h:54-90 | the documented insertion adds the key exactly when it is missing and keeps the keys ascending |
| RbTrees.RbTree.Delete | kernel/ds/rbtree.c:223-295 | exactly the node with the key goes |
| RbRuns.Run | kernel/ds/rbtree.c:66-295 | every run of insertions, deletions and lookups answers as a finite set does, and the final walk lists that set in order |
| RbRuns.HeightBound | kernel/ds/rbtree.c:66-295 | a tree of n nodes has height at most 2 log2(n + 1), stated as 2^height <= (n + 1)^2 |
| KExprs.EliminateYnSame | kconfig/expr.c:236-317 | constant elimination keeps the value under every well-typed valuation |
| KExprs.EliminateYnShrinks | kconfig/expr.c:236-317 | constant elimination makes an expression smaller exactly when an AND or OR has an operand y or n, and leaves none |
| KExprs.TransformSame | kconfig/expr.c:641-776 | the transformation keeps the tristate value under every well-typed valuation |
| KExprs.TransformNormal | kconfig/expr.c:641-776 | the result has NOT only on a symbol other than y, m and n, and no comparison of a boolean symbol with y, m or n |
| KExprs.TransformFixed | kconfig/expr.c:641-776 | an expression is left alone exactly when it is in that form, so the transformation is idempotent |
| KExprEquality.CancelSound | kconfig/expr.c:135-167 | what is cancelled on the two sides has the same value, so both are that value combined with what is left |
| KExprEquality.ExprEqSound | kconfig/expr.c:194-234 | when the answer is yes, both expressions have the same value under every well-typed valuation; the mutual recursion terminates |
| KExprCompleteness.ExprEqReflexive | kconfig/expr.c:194-234 | every expression is recognised as equal to itself, although equality is decided by cancelling operands |
| KExprForms.CancelParts | kconfig/expr.c:135-167 | cancelling takes away exactly the operands both expressions have, as often as both have them; operands count up to order and nesting at every depth |
| KExprForms.ExprEqExact | kconfig/expr.c:194-234 | of expressions with y and n at most among the outermost operands: recognised as equal exactly if they are the same up to order and nesting of the operands of AND and OR at every depth, where y and n among the outermost operands count for nothing unless they decide the whole |
| KExprForms.Reordered | kconfig/expr.c:194-234 | two ANDs or two ORs with the same operands in any order and nesting are recognised as equal |
| KExprForms.Swapped | kconfig/expr.c:194-234 | for instance two operands the other way round |
| KExprForms.Regrouped | kconfig/expr.c:194-234 | or three operands bracketed otherwise |
| KExprForms.ExprEqEquivalence | kconfig/expr.c:194-234 | on these expressions the comparison is symmetric and transitive |
| KExprForms.OperandCancelled | kconfig/expr.c:169-189 | an operand cancelled against an AND or OR, on either side, goes exactly if it is among the operands there |
| KExprForms.ContainedExact | kconfig/expr.c:831-880 | of an expression with operands nothing is left after the common ones are taken out exactly if the other one has all of them |
| KExprEquality.ExtractEqSound | kconfig/expr.c:831-880 | both expressions are what they have in common combined with what is left of each |
| KExprJoins.JoinSound | kconfig/expr.c:351-507 | a join has the value of the two operands together, under every well-typed valuation |
| KExprJoins.JoinOrSound | kconfig/expr.c:351-413 | joins of two alternatives keep the value |
| KExprJoins.JoinAndSound | kconfig/expr.c:415-507 | joins of two conjuncts keep the value |
| KExprCompleteness.TestsJoined | kconfig/expr.c:351-507 | the joined expressions: two equality tests of a tristate symbol by OR give the test against the third constant, two inequality tests by AND the equality with it, mixed pairs the equality, a test and its opposite n; a boolean or its negation is y; a symbol and its test against y, m or n is that test or the symbol |
| KExprCompleteness.JoinedOnly | kconfig/expr.c:351-507 | besides equal operands only such are joined that speak of one boolean or tristate symbol: two equalities under OR and two tests under AND of a tristate, a boolean and its negation under OR, a symbol and its test under AND |
| KExprDups.Dups1Same | kconfig/expr.c:509-559 | the first elimination pass, which writes through two pointers into one tree, keeps the value |
| KExprDups.Dups1Count | kconfig/expr.c:509-559 | a pass that counts nothing changes nothing, one that counts leaves an operand y or n |
| KExprDups.Dups2Finer | kconfig/expr.c:561-615 | the second pass keeps y and n; only m may become definite |
| KExprDecisions.NothingToDecide | kconfig/expr.c:561-615 | a second pass that counts nothing has met no operand, under AND or OR, of whose negation nothing is left after the common operands with another operand or a stretch of the spine are taken out |
| KExprDecisions.ContradictionDecides | kconfig/expr.c:561-639 | if there is such an operand, and nothing else to do, the result is n under AND and y under OR |
| KExprDups.Dups2Count | kconfig/expr.c:561-615 | the same link between counting and change for the second pass |
| KExprDups.EliminateDups | kconfig/expr.c:617-639 | the loop that counts transformations ends, and computes the plain recursive definition |
| KExprDups.EliminatedFiner | kconfig/expr.c:617-639 | an expression worth y or n keeps its value under every well-typed valuation |
| KExprDups.EliminatedStable | kconfig/expr.c:617-639 | nothing is left to count, so elimination is idempotent |
| KExprCompleteness.EliminatedApart | kconfig/expr.c:617-639 | afterwards no two operands of the outermost AND or OR are equal, count as equal or can be joined |
| KExprDecisions.EliminatedUndecided | kconfig/expr.c:617-639 | of every expression: afterwards no operand of the other operator is decided by another operand or a stretch of the spine |
| KExprDecisions.EliminatedConsistent | kconfig/expr.c:617-639 | of expressions in normal form without operands y and n: afterwards there is no operand of the other operator all of whose operands' negations are among the operands of another place of the spine |
| KExprDecisions.EliminatedInside | kconfig/expr.c:617-639 | the operands of a fully eliminated expression are fully eliminated, so that all this holds at every depth |
| KExprSharpening.DecidedExact | kconfig/expr.c:579-609 | replacing an operand whose negation the other operand contains keeps the value exactly when the value was not m |
| KExprSharpening.DefiniteKept | kconfig/expr.c:617-639 | with no symbol at m the value is never changed |
| KExprSharpening.TwoValuedKept | kconfig/expr.c:617-639 | the whole elimination is exact under every well-typed valuation if every operand is boolean, a comparison, y or n |
| KExprSharpening.UndecidedKept | kconfig/expr.c:617-639 | the whole elimination is also exact under every well-typed valuation if no step of the second pass decides an operand |
| KExprSharpening.ClashDecided | kconfig/expr.c:582-604 | for any two symbols a and b, (a OR b) AND (NOT a AND NOT b) becomes n, and (a AND b) OR (NOT a OR NOT b) becomes y |
| KExprSharpening.SharpenedExample | kconfig/expr.c:561-639 | with A and B at m these two are m before, and n and y after elimination |
| PrioLists.FlatSorted | include/ds/skiplist.h:6-33 | the flattened two-level list is sorted by priority |
| PrioLists.PutFifo | include/ds/skiplist.h:6-33 | stable insertion is first in, first out within every priority |
| PrioLists.FifoUnique | include/ds/skiplist.h:6-33 | order of priorities and first in, first out determine the list completely |
| PrioOps.Add | include/ds/skiplist.h:6-33 | adding an entry is stable insertion into the flattened list; heads stay heads |
| PrioOps.AddGroup | kernel/generic/def_actions.c:79-102 | a head with its followers goes in as a stable insertion of all of them |
| PrioOps.Delete | include/ds/skiplist.h:35-52 | exactly the entry at its place goes, head or follower, the first follower takes over for a deleted head, and every other head stays one |
| PrioOps.DeferredActions.Schedule | kernel/generic/def_actions.c:109-152 | stable insertion of an action and its followers, unless it carries the mark of being queued; it carries the mark afterwards |
| PrioOps.DeferredActions.ScheduleAll | kernel/generic/def_actions.c:55-107 | scheduling a list of actions is the stable insertion of all of them in order |
| PrioOps.DeferredActions.Fire | kernel/generic/def_actions.c:180-224 | executes a prefix of the queue: urgent enough, at most the limit, and not stopping earlier; nothing in a recursive call; exactly the executed actions lose their mark |
| PrioOps.DeferredActions.Deschedule | kernel/generic/def_actions.c:226-240 | exactly one queued entry goes, or none if it is not queued |
| DeferRuns.Run | kernel/generic/def_actions.c:55-240 | every run of posting, batch scheduling, taking out and executing executes the log of a plain state: the queue and the marks |
| DeferRuns.OnceQueued | kernel/generic/def_actions.c:55-240 | no call that a caller may make queues an action twice |
| DeferRuns.MarkedSince | kernel/generic/def_actions.c:109-224 | an action is marked exactly if it was posted and has not been executed since |
| DeferRuns.QueuedUnlessMarked | kernel/generic/def_actions.c:113-119 | after any run, posting puts an action with its followers into the queue exactly if it carries no mark, and otherwise changes nothing |
| DeferRuns.LostUntilBrought | kernel/generic/def_actions.c:55-240 | an action that is marked and not queued is not executed and stays so until a batch or the followers of another action bring it |
| DeferRuns.BatchedUnmarked | kernel/generic/def_actions.c:55-107 | an action that is only ever scheduled in batches, as timers are, never carries the mark, so it can always be scheduled again |
| DeferRuns.LostExample | kernel/generic/def_actions.c:109-240 | one action posted, taken out and posted again is not executed |
| DeferRuns.BroughtBackExample | kernel/generic/def_actions.c:55-240 | the same action scheduled in a batch instead is executed, and loses its mark |
| PrioRings.Promote | include/ds/skiplist.h:41-46 | on links: the first follower leaves the list of its head and takes over the rest of it; nothing else changes |
| PrioLinks.SkiplistDel | include/ds/skiplist.h:35-52 | on links: the rings afterwards are those of the list that `PrioOps.Deleted` gives, with the first follower of a deleted head in its place; the deleted entry is unbound and heads an empty list, and nothing outside the list changes |
| PrioAdds.JoinHead | kernel/generic/def_actions.c:93-98 | on links: a head goes to the end of another head's list and its followers come after it |
| PrioAdds.AddLinks | kernel/generic/def_actions.c:87-102 | on links: the scan over heads; the rings afterwards are those of the list that `PrioOps.Added` gives, and nothing outside the list and the new entries changes |
| PrioBatches.PassAll | kernel/generic/def_actions.c:55-107 | on links: a whole list goes over to another; the first list is empty and the other one shows the old queue with all actions put in stably |
| PrioOps.PriorityQueue.Insert | kernel/ds/pqueue.c:35-59 | stable insertion, first in, first out within every priority |
| PrioOps.PriorityQueue.Remove | kernel/ds/pqueue.c:61-75 | exactly the given entry goes |
| PrioOps.PriorityQueue.DeleteMin | include/ds/pqueue.h:62-87 | the oldest entry of the best priority leaves the queue, none exactly if it is empty |
| TimerRows.JoinTick | kernel/generic/timer.c:529-549 | the scan of a row: a timer joins the list of its tick, or stands for the tick itself; exactly its action becomes due there, stably, no other tick changes, and exactly the timers in the row stay bound |
| TimerWheels.Attach | kernel/generic/timer.c:476-551 | the major tick for a timer is found or made in its place; exactly the timer's action becomes due at its tick and the use counters stay exact |
| TimerWheels.Timers.AddTimer | kernel/generic/timer.c:409-592 | -EINVAL without a time, executed at once if the time is over, else armed last; all invariants of the structure kept |
| TimerRows.TakeRow | kernel/generic/timer.c:229-257 | the tick that is due leaves its row with its whole list, which is in order; the timer that stood for it is unbound, all other ticks stay |
| TimerMajors.TakeTick | kernel/generic/timer.c:229-257 | of all ticks exactly the current one leaves the structure, with everything due at it |
| TimerMajors.OneBound | kernel/generic/timer.c:529-549 | of the timers of a tick at which something is due exactly one is bound, and the list it heads is everything due |
| TimerWheels.Expire | kernel/generic/timer.c:219-272 | a tick takes out exactly the actions armed for it, and a major tick leaves the list only with nothing to fire |
| TimerLedgers.FirstCovers | kernel/generic/timer.c:219-226 | only the first listed major tick can cover the current tick, because every listed one still covers a tick to come |
| TimerWheels.Timers.ProcessTick | kernel/generic/timer.c:195-274 | exactly the timers armed for the tick go into the deferred queue, stably, and are no longer armed |
| TimerRows.LeaveGroup | kernel/generic/timer.c:296-332 | exactly one action leaves its tick and the order of the others stays; a timer that stood for the tick is unbound, and another one stands for it if any is left |
| TimerRows.HandList | kernel/generic/timer.c:311-328 | the takeover: another timer of the tick heads the list now and has the place in the row; what is due is the list without the timer that leaves |
| TimerLinks.LeaveMain | kernel/generic/timer.c:311-321 | on links: a head leaves the list of its tick, its first follower takes over its list and its place, and nothing outside the list changes |
| TimerLinks.TakeOver | kernel/generic/timer.c:323-328 | on links: the list hangs on the head of the record the first remaining timer owns, and that record has the place in the row |
| TimerLinks.LeaveLinks | kernel/generic/timer.c:304-331 | on links: a timer that stands for its tick leaves it; the list is what deletion by `PrioOps.Deleted` leaves, on its new head and in its old place of the row, or the row is without the tick exactly if the timer was alone |
| TimerWheels.OneStandsIn | kernel/generic/timer.c:195-592 | in every structure a caller can see, each tick with an armed timer is represented by exactly one bound timer, whose list holds exactly the timers armed for the tick, in order |
| TimerWheels.Release | kernel/generic/timer.c:346-364 | the use counters stay the numbers of attached timers, and a major tick that nobody uses leaves the list without losing an armed timer |
| TimerWheels.Timers.DeleteTimer | kernel/generic/timer.c:276-381 | an unfired timer is disarmed and nothing else; a fired one leaves the deferred queue if it is still there |
| TimerSpecs.Disarmed | kernel/generic/timer.c:296-332 | taking a timer out of the sorted batch of its tick gives the sorted batch of the others |
| TimerSpecs.HandOver | kernel/generic/def_actions.c:55-107 | handing over the sorted batch equals handing over the timers as they were armed |
| TimerRuns.ModifyTimer | kernel/generic/timer.c:383-401 | a new time in the future replaces the old one and takes a fired timer that still waits out of the queue; a time that is over only executes |
| TimerRuns.Run | kernel/generic/timer.c:195-592 | every run of settings, deletions, clock ticks and executions gives exactly the log of a plain list of armed timers and a plain queue: hand-overs, executions and immediate executions |
| TimerRuns.ExactlyOnce | kernel/generic/timer.c:195-592 | an armed timer that is neither deleted nor set again is handed over exactly once, at the tick equal to its time, and then waits or is executed exactly once, not before that tick |
| TimerRuns.SetDuringRun | kernel/generic/timer.c:383-592 | after any run, setting a timer to a time that the clock, which counts the ticks, has reached executes its action at once and changes nothing else; a later time arms it, and it no longer waits in the queue |
| TimerRuns.NeverTwice | kernel/generic/timer.c:195-592 | in every run no timer is armed twice, queued twice, or armed and queued at the same time, whatever is armed is still to come, and the queue is in order of priority |
| TimerRuns.QueuedOnce | kernel/generic/def_actions.c:180-224 | an action in the queue that is left alone is executed once or is still queued |
| TimerRuns.DeletedUntilSet | kernel/generic/timer.c:276-381 | after any run, a deleted timer is neither handed over nor executed until it is set again, even if it was waiting in the queue |
| TimerRuns.Served | kernel/generic/def_actions.c:180-224 | an execution that does not reach the limit leaves only less urgent actions in the queue |
| KSymbols.Checker.CheckDeps | kconfig/symbol.c:853-889 | the search from one symbol restores the CHECK marks, returns only a symbol still being checked, reports a cycle only if there is one, and otherwise extends an order in which everything comes after what it depends on |
| KSymbols.CheckAll | kconfig/zconf.y:497-500 | the sweep over the symbols of the hash table, which y, m and n are not in, ends with no CHECK mark left; the error count is unchanged exactly if the dependency graph has no cycle, and then the symbols are in dependency order |
| KSymbols.Ordered | kconfig/symbol.c:763-817 | an order in which everything comes after what it depends on rules out cycles |
| KMeanings.DepsAre | kconfig/symbol.c:794-817 | a symbol depends on what occurs in its reverse dependency, in the condition of a property that is no select, or in the value of a default, and on nothing else |
| KMeanings.SelectsDoNotCount | kconfig/symbol.c:803-805 | two tables that differ in selects only have the same dependencies and the same verdict on cycles |
| KMeanings.SelectAccepted | kconfig/symbol.c:803-805 | A selecting B if C, while the prompt of C depends on A, is accepted |
| KValues.SolutionExists | kconfig/symbol.c:257-380 | the value equations of a graph without cycles have a solution |
| KValues.SolutionUnique | kconfig/symbol.c:257-380 | two solutions agree on every symbol |
| KValues.SolutionBounds | kconfig/symbol.c:323-327 | a symbol is never below what selects it, and no boolean symbol is m |
| KValues.RuleFrame | kconfig/symbol.c:257-327 | the value of a symbol is determined by the values of what it depends on |
| KMeanings.UserValueCapped | kconfig/symbol.c:302-327 | in every solution a symbol with a user value and a visible prompt is the smaller of that value and the largest prompt condition, or what selects it if that is more; m counts as y where it is not possible |
| KMeanings.TristateCapped | kconfig/symbol.c:302-312 | a tristate with modules and nothing selecting it is never above the largest prompt condition, and equals its user value if some prompt condition is y |
| KMeanings.UserValueUnseen | kconfig/symbol.c:302-312 | without a visible prompt the user value has no influence: tables that differ in it have the same solutions |
| KMeanings.DefaultCounts | kconfig/symbol.c:313-327 | without a usable user value: the smaller of value and condition of the first default whose condition is not n, found by position, or what selects the symbol if that is more |
| KMeanings.NothingCounts | kconfig/symbol.c:313-327 | without such a default: what selects the symbol, n if nothing does |
| KMeanings.UndefinedIs | kconfig/symbol.c:282-285 | y, m and n are themselves and a symbol without a declaration is n; all of them read as their names |
| KMeanings.WrittenIs | kconfig/symbol.c:302-318 | a symbol is written to the file exactly if some prompt condition is not n, something selects it or some default has a condition other than n, and it is not set automatically |
| KCalc.Evaluator.CalcVisibility | kconfig/symbol.c:189-217 | visibility and selection as the equations define them, while other symbols are evaluated on the way |
| KCalc.Evaluator.FindDefault | kconfig/symbol.c:116-126 | the first default whose condition is not n, and that condition |
| KCalc.Evaluator.CalcExpr | kconfig/expr.c:943-982 | the value of an expression under the solution, evaluating symbols as they are met |
| KCalc.Evaluator.CalcValue | kconfig/symbol.c:257-380 | the symbol is valid with value, visibility, selection and WRITE mark of the solution; nothing valid before is spoilt |
| KCalc.Evaluate | kconfig/symbol.c:257-380 | dependency check, then evaluations in any order, of undefined symbols too: no error exactly without cycles, and then every requested value is that of every solution, and there is one |
| IdxAllocators.IdxAllocator.constructor | kernel/ds/idx_allocator.c:173-225 | for any number of indices, also none: bitmaps large enough for every index and every group, all free; a summary exactly for more than 2048 indices |
| IdxAllocators.IdxAllocator.AllocateGrouped | kernel/ds/idx_allocator.c:70-109 | the least free index below the bound, exactly that one taken, or none exactly when all are taken; a set summary bit still means a full group, and the loop ends |
| IdxAllocators.IdxAllocator.Allocate | kernel/ds/idx_allocator.c:62-130 | the least free index below the bound, exactly that one taken, or none exactly when all are taken |
| IdxAllocators.IdxAllocator.Reserve | kernel/ds/idx_allocator.c:132-148 | exactly the given index is taken, and whether it was before |
| IdxAllocators.ZeroLeft | kernel/ds/idx_allocator.c:72-84 | the search in the summary never runs past its end: a summary in which only full groups are noted has a zero bit |
| IdxAllocators.IdxAllocator.Free | kernel/ds/idx_allocator.c:150-171 | exactly the given index is free and the answer tells whether it was taken; the summary is addressed inside its words exactly if there is none or idx < 512 * words; the index stays hidden exactly if its group was noted as full and idx >= 64 |
| IdxRuns.Run | kernel/ds/idx_allocator.c:62-148 | every run of allocations and reservations answers as a plain set of numbers does, also for no index at all |
| IdxRuns.FreeThenExhaust | kernel/ds/idx_allocator.c:62-171 | after an index was freed, allocating until nothing is left gives it out again exactly if it is below 64 or its group was not noted as full |
| IdxRuns.Fill | kernel/ds/idx_allocator.c:62-130 | count allocations from a fresh allocator give the numbers from 0 on, and the groups noted as full are exactly those before the group of the last one |
| IdxRuns.FillFreeExhaust | kernel/ds/idx_allocator.c:62-171 | a freed index is given out again exactly if there are at most 2048 indices, it is below 64, or the allocations before have not gone past its group of 512 |
| IdxRuns.HiddenExample | kernel/ds/idx_allocator.c:62-171 | with 4096 indices, 513 of them handed out, index 100 is never given out again once it is freed |
| IdxRuns.OutsideExample | kernel/ds/idx_allocator.c:150-171 | with 4096 indices, freeing 512 addresses a word behind the summary |
| IndexArrays.IndexArray.AllocValue | kernel/generic/index_array.c:107-129 | a value that is left, the lowest of the first entry on the free list, or none exactly when none is left; counters and lists stay exact |
| IndexArrays.IndexArray.FreeValue | kernel/generic/index_array.c:131-159 | takes back exactly a value that was handed out; an entry comes back to the end of the free list with its first value |
| IndexArrays.Run | kernel/generic/index_array.c:107-159 | in every run a value is handed out only while it is not held, taken back only while it is, and refused only while all are held |
| ConfStrings.WriteEscaped | kconfig/confdata.c:500-509 | the writing loop over runs of plain characters writes the escaped string |
| ConfStrings.ReadQuoted | kconfig/confdata.c:121-131 | the in-place loop of moves refines the recursive unescaping, and fails exactly without a closing quote |
| ConfStrings.RoundTrip | kconfig/confdata.c:497-510 | unescaping what was written gives the same string back, whatever follows the closing quote |
| ConfLines.GetLine | kconfig/confdata.c:211 | one line of the file, cut at 1023 characters, and a NUL behind it |
| ConfLines.Load | kconfig/confdata.c:211-262 | name and value of a line are read in place, or refused, exactly as the plain definition says |
| ConfLines.ComesBack | kconfig/confdata.c:118-511 | a written setting comes back, whatever follows it in the file, exactly if the value has no newline and the line fits into the buffer; otherwise it is refused |
| ConfLines.EscapeIs | kconfig/confdata.c:500-509 | quotes and backslashes, and no other characters, are written with a backslash before them |
| ConfLines.LineBound | kconfig/confdata.c:152-262 | the same in numbers: the line that begins with CONFIG_, name, equals sign and quote comes back exactly if the value has no newline and name, value and backslashes together have at most 1013 characters |
| ConfLines.NewlineLost | kconfig/confdata.c:118-511 | the value consisting of one newline is lost |
| ConfLines.WriteThenRead | kconfig/confdata.c:118-511 | the same for the loops that write and read in place: the value is in the buffer exactly if it can be read back |
| ConfFiles.LineBack | kconfig/confdata.c:118-511 | the line or lines of one written string setting, whatever follows: at most one setting is read, and reading goes on right behind them; in particular no part of the value is ever taken for a string setting of its own |
| ConfFiles.OwnName | kconfig/confdata.c:211-262 | a setting is read under its own name exactly if the line up to the opening quote fits into 1023 characters |
| ConfFiles.OtherSetExample | kconfig/confdata.c:211-262 | a name of more than 1015 characters that ends in CONFIG_B sets B instead |
| ConfFiles.FileExact | kconfig/confdata.c:118-511 | a whole file of string settings comes back as it was written exactly if every value has no newline and every line fits into 1023 characters |
| ConfFiles.LoadAll | kconfig/confdata.c:211-270 | the loop over the lines of a file makes the settings of the plain definition |
| ConfFiles.SaveThenLoad | kconfig/confdata.c:118-511 | writing a list of settings and reading the file with the loops gives back what each setting makes on its own, and the same list exactly if every value has no newline and every name, value and its backslashes together have at most 1013 characters |
| ListRings.Insert | include/ds/list.h:305-312 | linking a chain between two neighbours inserts its nodes at that place of the list |
| ListRings.AddBefore | include/ds/list.h:217-218 | a node goes in front of another, or to the tail if that is the head |
| ListRings.Remove | include/ds/list.h:315-332 | unlinking a stretch takes exactly its nodes out; they stay linked to each other, with open ends |
| ListRings.Move | include/ds/list.h:383-389 | all nodes of one list go to a place of another, the first list is empty |
| ListRings.Replace | include/ds/list.h:397-406 | one node takes the place of another, which is unlinked |
| ListRings.LinkBehind | include/ds/skiplist.h:47-50 | a node goes behind another one by four plain writes |
| ListRings.Rehead | kernel/generic/timer.c:324-327 | a list hangs on another head by four plain writes |

## Left out

- Cursor positions after an insertion or deletion in the T\*-tree, and its `ttree_cursor_prev`, `ttree_replace`, destruction, printing and debug checks.
- A T\*-tree with 2048 keys a node: the model keeps indices as integers, the source packs them into 12 signed bits.
- Overlapping `memcpy` in the merge of a T\*-tree half-leaf is modelled as a move in ascending order.
- `rb_last` and `rb_prev`, the mirror images of `rb_first` and `rb_next`, and `rb_replace_node`.
- The build of the timers on a red-black tree, in which the source does not implement deletion.
- The cache of major ticks, failing allocation, `sleep`, hardware clocks and 64-bit wrap-around of the tick counter.
- Other CPUs, spinlocks and interrupt masking: each call is one atomic step, so that the second check for a tick already processed in `add_timer` cannot succeed.
- `execute_deffered_action`: what an action does is a result of the model, not a part of it.
- TimerWheels.Timers.AddTimer: takes timers that are not attached, as the source expects; a timer in use is set with `TimerRuns.ModifyTimer`.
- TimerRuns.Run: only timers feed the deferred queue in these runs; other actions are in the runs of `DeferRuns.Run`.
- PrioOps.DeferredActions.ScheduleAll: the request to run deferred work soon, made when an action is urgent enough, is not part of the model.
- IdxAllocators.IdxAllocator.Free: a write behind the end of the summary is reported and not carried out; what it would hit is not part of the model.
- KExprSharpening.UndecidedKept: one direction only; a decided operand may still have had a definite value.
- TimerLinks.LeaveLinks: the lists of a row are linked objects here, while the runs of `TimerRuns.Run` are built on values; the two are related by `PrioOps.Deleted` and the same change of the row.
- Missing (NULL) expressions in the simplifier, lists and ranges in expressions, `expr_trans_bool` and `expr_trans_compare`.
- KExprEquality.ExprEqSound: one direction only; the comparison in the source works by cancelling operands and does not set out to recognise every pair of expressions with the same value. What it recognises exactly is `KExprForms.ExprEqExact`, for expressions without y and n inside their operands; with them the source may answer yes or no by what constant elimination leaves.
- Choice symbols, string, int and hex symbols, changing module support, and the CHANGED mark in symbol evaluation.
- IndexArrays.Run: holds of entries that have their own 512 bits each. The initialiser of the source (kernel/generic/index_array.c:59-87) resets its page address in every round of its loop, so that only every eighth entry gets a bitmap inside a page; the array it builds is not part of the model.
- ConfFiles.LoadAll: reads every line as that of a string symbol. Symbols of other types, for which a line begun by a newline in a string value can be a setting, comments and unknown symbols are not part of the model.
- `list_cut_sublist`, `list_cut_head` and `list_set_head`.
- The hash-array tree, task, signal, IPC and memory code of the kernel, and the user interface and file handling of kconfig.
