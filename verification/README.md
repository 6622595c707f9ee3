# Disjoint set (union-find) in Dafny

This project models the `DisjointSet` class of `algorithm/Disjoint-Set/source.py`. It covers:

- construction from a list of items, including the item-to-position index;
- `find`, which walks parent links up to a root with no path compression;
- `union`, with its two linking rules: union by size, and union by "height".

The object is modelled as an immutable value, `Forest.DisjointSet(indexData, parentArray, mode)`. Each operation returns a new value instead of updating arrays in place.

The parent array uses the source's encoding:

- A non-negative entry is the ITEM VALUE of the element's parent, not its position.
- A negative entry marks a root and holds that root's counter.

Items are natural numbers, so the source's `>= 0` root test never mistakes a parent for a counter.

The forest is acyclic because a level map exists (`Forest.Valid`):

- A root has level 0.
- Every other item has its parent's level plus one.

`find` and `Depth` decrease this level, so they terminate. Every `union` the source allows keeps a level map.

The root counters have a precise meaning in each mode (`Counters.Invariant`):

- **Size mode** (any mode string other than `"height"`): minus a root's counter is the size of its class.
- **Height mode**: minus a root's counter, less one, is exactly the number of roots linked directly under it. It therefore counts the unions that root has won. It is an upper bound on the depth of every item in its tree, and it never exceeds the tree's size. `Traces.HeightCounterOverstates` shows that this bound is not the height.

The docstring of `union` (source.py:46-47) says the root of the tree with fewer elements goes under the root of the larger one. That holds in size mode. In height mode the same comparison is made on link counters, and the model follows the code.

Modules:

- `Forest`: the state, well-formedness and acyclicity, `find`.
- `Counters`: what the root counters mean.
- `Construction`: `generate_data_index` and `__init__`.
- `UnionRules`: `union` and its properties.
- `Traces`: two concrete runs, including the source's main-block sample.

## Model

| member | source | states |
|---|---|---|
| Construction.GenerateDataIndex | algorithm/Disjoint-Set/source.py:17-27 | every item of the list is a key; each key maps to a position holding that key, and no later position holds it (the last occurrence wins); with distinct items there are as many keys as items |
| Construction.IndexKeys | algorithm/Disjoint-Set/source.py:24-27 | the keys of the index are exactly the items of the list |
| Construction.DistinctIndex | algorithm/Disjoint-Set/source.py:24-27 | with distinct items, the item at position `i` is mapped to `i` |
| Construction.Init | algorithm/Disjoint-Set/source.py:7-15 | the built set indexes every item, has one parent entry per item, every entry -1, keeps the given mode (default `"size"`), and is well formed, repeated items included |
| Construction.SingletonsValid | algorithm/Disjoint-Set/source.py:14 | a state whose every entry is -1 is a forest of singleton classes, each item its own root, and satisfies the invariant of either mode |
| Construction.InitInvariant | algorithm/Disjoint-Set/source.py:13-15 | a freshly built set, repeated items included, satisfies its mode's invariant, and each item is the root of a class holding only itself |
| Forest.Find | algorithm/Disjoint-Set/source.py:29-43 | the result is an item of the set and a root; `find` of a root is that root |
| Forest.TryFind | algorithm/Disjoint-Set/source.py:35 | `find` fails with a missing-item error exactly when the item is not in the index, and otherwise returns the item's root |
| Forest.FindIsAncestor | algorithm/Disjoint-Set/source.py:38-43 | `find` returns the item reached from `x` by following exactly `Depth(x)` parent links |
| Forest.RootOnChainIsFind | algorithm/Disjoint-Set/source.py:38-43 | the first negative entry met on the parent chain of `x` is the root `find` returns |
| Forest.FindIterative | algorithm/Disjoint-Set/source.py:35-43 | the loop that follows parent entries until a negative one terminates on every valid state and returns the root of the item |
| UnionRules.Winner | algorithm/Disjoint-Set/source.py:54-58 | the surviving root is one of the two roots, with a counter no greater than either; it is the root of the second item only when that counter is strictly smaller, so ties go to the first item's root |
| UnionRules.Loser | algorithm/Disjoint-Set/source.py:54-58 | the root linked under the winner is the other one of the two roots |
| UnionRules.Link | algorithm/Disjoint-Set/source.py:53-67 | the shared two-slot update: the loser's entry names the winner, the winner's entry holds the new counter, every other entry, the index and the mode are unchanged, and the state stays well formed |
| UnionRules.Union | algorithm/Disjoint-Set/source.py:45-82 | dispatches on the mode to `UnionByHeight` (`union_by_height`) or `UnionBySize` (`union_by_size`); the loser's entry becomes the winner's item value; the winner stays a root whose counter is its old counter less one in height mode, whatever the loser's counter, and minus the summed absolute counters in any other mode |
| UnionRules.TryUnion | algorithm/Disjoint-Set/source.py:69-72 | `union` fails exactly when an item is missing (the error of `find`) or both items have the same root (the same-tree error); otherwise the result is exactly `union(a, b)` of two items in different trees, the state stays acyclic and the two items share a root |
| UnionRules.UnionFrame | algorithm/Disjoint-Set/source.py:53-67 | `union` writes only the slots of the two roots; every other parent entry is unchanged |
| UnionRules.LinkValid | algorithm/Disjoint-Set/source.py:53-67 | linking one root under another root keeps the forest acyclic |
| UnionRules.FindAfterLink | algorithm/Disjoint-Set/source.py:53-67 | after linking root `l` under root `w`, every item whose root was `l` has root `w` and is one link deeper; every other item keeps its root and its depth |
| UnionRules.UnionValid | algorithm/Disjoint-Set/source.py:45-82 | after `union` the forest is still acyclic, so `find` still terminates |
| UnionRules.FindAfterUnion | algorithm/Disjoint-Set/source.py:69-82 | after `union(a, b)`, `find(x)` is the winner if `x` was in either merged tree and is unchanged otherwise; the loser's tree moves one level down |
| UnionRules.UnionMergesClasses | algorithm/Disjoint-Set/source.py:45-82 | after `union(a, b)`, `a` and `b` share a root, and two items share a root exactly when they did before or they came from the two merged classes |
| UnionRules.LinkMembers | algorithm/Disjoint-Set/source.py:53-67 | linking moves the whole class of the loser into the class of the winner and leaves the loser with an empty class |
| UnionRules.UnionMembers | algorithm/Disjoint-Set/source.py:45-82 | the winner's class after `union` is the union of the two merged classes, and the loser's class is empty |
| UnionRules.UnionKeepsOtherMembers | algorithm/Disjoint-Set/source.py:45-82 | every root other than the two merged ones keeps exactly its class |
| UnionRules.LinkKeepsSizeCounts | algorithm/Disjoint-Set/source.py:61-67 | a link that writes minus the summed sizes keeps every root's counter equal to minus its class size |
| UnionRules.BySizeKeepsCounts | algorithm/Disjoint-Set/source.py:61-67 | `union_by_size` on two distinct roots keeps the forest acyclic and every root's counter equal to minus its class size |
| UnionRules.UnionKeepsSizeCounts | algorithm/Disjoint-Set/source.py:61-67 | in size mode the winner's class is at least as large as the loser's, and after `union` every root's counter is again minus the size of its class |
| UnionRules.LinkKeepsHeightCounts | algorithm/Disjoint-Set/source.py:53-59 | a height-mode link whose winner's counter is no greater keeps every depth within its root's counter bound and every counter within its class size |
| UnionRules.ByHeightKeepsCounts | algorithm/Disjoint-Set/source.py:53-59 | `union_by_height`, when the winner's counter is at most the loser's, keeps the forest acyclic and keeps the depth bound and the size bound |
| UnionRules.UnionKeepsHeightCounts | algorithm/Disjoint-Set/source.py:53-59 | in height mode, after `union`, minus each root's counter less one still bounds the depth of every item of its tree, and the counter still does not exceed the class size |
| UnionRules.LinkChildren | algorithm/Disjoint-Set/source.py:53-59 | a link gives the winner exactly one new direct child, the loser, and leaves every other item's direct children unchanged |
| UnionRules.LinkKeepsWinsCounted | algorithm/Disjoint-Set/source.py:53-59 | a height-mode link keeps every root's counter equal to minus one less its number of direct children |
| UnionRules.ByHeightKeepsWinsCounted | algorithm/Disjoint-Set/source.py:53-59 | `union_by_height` makes the loser a direct child of the winner and keeps every counter counting direct children |
| UnionRules.UnionKeepsWinsCounted | algorithm/Disjoint-Set/source.py:53-59 | in height mode `union` adds the loser to the winner's direct children, and every counter still counts the unions its root has won |
| UnionRules.UnionPreservesInvariant | algorithm/Disjoint-Set/source.py:79-82 | every `union` the assertions allow keeps the counter invariant of the state's mode |
| UnionRules.TryUnionPreservesInvariant | algorithm/Disjoint-Set/source.py:69-82 | a `union` that does not fail keeps the invariant of the state's mode |
| Traces.HeightCounterOverstates | algorithm/Disjoint-Set/source.py:53-59 | in height mode `union(0, 1)` then `union(0, 2)` leave a tree of height one whose root counter is -3, so minus the counter less one is two, not the height |
| Traces.SampleRun | algorithm/Disjoint-Set/source.py:85-92 | the main block's eight items in height mode, after `union(4, 5)`, `union(6, 7)`, `union(5, 7)` and `union(3, 7)`, give the parent array `[-1, -1, -1, 4, -4, 4, 4, 6]`, and every union on the way meets its assertion |

## Left out

- The `print` of the parent array in the main block is console output. `Traces.SampleRun` states the value it would print.
- The assertion message strings. A failed assertion is modelled as an `Err` value carrying which assertion failed (`Forest.TryFind`, `UnionRules.TryUnion`). `Forest.Find` and `UnionRules.Union` require what those assertions check.
- In-place mutation of the object. `union` returns the new state, and `find` is a pure function of the state, so it cannot change the parent array.
- Items of types other than natural numbers. Python lists may hold any hashable value, but the model's items are `nat`. A negative item used as a parent would be misread as a root counter by the `>= 0` test.
- Duplicate items. `Construction.GenerateDataIndex` keeps the last position of a repeated item, as the source does. The slot of an earlier occurrence then belongs to no item; the invariants hold all the same. Only the fact that position `i` holds the item at `i` needs distinct items.
- Mode strings. Any string other than `"height"` selects union by size, as the source's `if`/`else` does. No other mode is modelled.
- The suffix-tree builder, the pattern-matching tables and the Z-array routines of the repository are not part of this model.
