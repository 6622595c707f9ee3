/**
 The state of a `DisjointSet` object and the `find` operation.

 The parent array does not hold positions: a non-negative entry is the ITEM
 VALUE of the element's parent, and a negative entry marks a root and holds
 that root's counter. Items are natural numbers, so the `>= 0` root test never
 mistakes a parent for a counter.
 */
module Forest {

  /** `indexData` maps each item to its slot; `mode` selects the union rule. */
  datatype DisjointSet = DisjointSet(indexData: map<nat, nat>, parentArray: seq<int>, mode: string)

  /** The two assertion failures the operations can raise. */
  datatype Error = ItemMissing | SameTree

  datatype Result<T> = Ok(value: T) | Err(error: Error)

  /** Every item owns its own slot, and every parent entry names an item. */
  ghost predicate WellFormed(s: DisjointSet) {
    && (forall x :: x in s.indexData ==> s.indexData[x] < |s.parentArray|)
    && (forall x, y :: x in s.indexData && y in s.indexData && x != y ==> s.indexData[x] != s.indexData[y])
    && (forall x {:trigger ParentIsItem(s, x)} :: ParentIsItem(s, x))
  }

  /** A non-negative entry in the slot of `x` is the value of an item. */
  ghost predicate ParentIsItem(s: DisjointSet, x: nat) {
    x in s.indexData && s.indexData[x] < |s.parentArray| && s.parentArray[s.indexData[x]] >= 0 ==>
      (s.parentArray[s.indexData[x]] as nat) in s.indexData
  }

  /** The parent-array entry of item `x`. */
  function Slot(s: DisjointSet, x: nat): int
    requires WellFormed(s) && x in s.indexData
  {
    s.parentArray[s.indexData[x]]
  }

  predicate IsRoot(s: DisjointSet, x: nat)
    requires WellFormed(s) && x in s.indexData
  {
    Slot(s, x) < 0
  }

  function Parent(s: DisjointSet, x: nat): (p: nat)
    requires WellFormed(s) && x in s.indexData && !IsRoot(s, x)
    ensures p in s.indexData
  {
    assert ParentIsItem(s, x);
    Slot(s, x) as nat
  }

  /** At `x`, `d` gives a root level 0 and any other item its parent's level plus one. */
  ghost predicate LevelStep(s: DisjointSet, d: map<nat, nat>, x: nat)
    requires WellFormed(s)
  {
    && x in s.indexData && x in d
    && if IsRoot(s, x) then d[x] == 0 else Parent(s, x) in d && d[x] == d[Parent(s, x)] + 1
  }

  /** `d` assigns a level to every item, consistently with the parent links. */
  ghost predicate IsLevelMap(s: DisjointSet, d: map<nat, nat>)
    requires WellFormed(s)
  {
    && d.Keys == s.indexData.Keys
    && forall x {:trigger LevelStep(s, d, x)} :: x in d ==> LevelStep(s, d, x)
  }

  /** The parent links form a forest: some level map exists, so no chain of parents cycles. */
  ghost predicate Valid(s: DisjointSet) {
    WellFormed(s) && exists d :: IsLevelMap(s, d)
  }

  /** A level map of a valid state, used as the termination measure of parent walks. */
  ghost function Levels(s: DisjointSet): (d: map<nat, nat>)
    requires Valid(s)
    ensures IsLevelMap(s, d)
  {
    var d :| IsLevelMap(s, d); d
  }

  /** The item reached from `x` by following at most `k` parent links. */
  function Ancestor(s: DisjointSet, x: nat, k: nat): (y: nat)
    requires WellFormed(s) && x in s.indexData
    ensures y in s.indexData
    decreases k
  {
    if k == 0 || IsRoot(s, x) then x else Ancestor(s, Parent(s, x), k - 1)
  }

  /** The number of parent links between `x` and its root. */
  function Depth(s: DisjointSet, x: nat): (n: nat)
    requires Valid(s) && x in s.indexData
    ensures n == Levels(s)[x]
    ensures n == 0 <==> IsRoot(s, x)
    decreases Levels(s)[x]
  {
    assert LevelStep(s, Levels(s), x);
    if IsRoot(s, x) then 0 else Depth(s, Parent(s, x)) + 1
  }

  /**
   `find`: the root of the tree holding `x`, reached by following parent links
   from `x` (`FindIsAncestor`, `RootOnChainIsFind`). The state is a value, so
   it is left unchanged.
   */
  function Find(s: DisjointSet, x: nat): (r: nat)
    requires Valid(s) && x in s.indexData
    ensures r in s.indexData && IsRoot(s, r)
    ensures IsRoot(s, x) ==> r == x
    decreases Levels(s)[x]
  {
    assert LevelStep(s, Levels(s), x);
    if IsRoot(s, x) then x else Find(s, Parent(s, x))
  }

  /** `find` with its entry assertion: an item outside the index fails, any other item yields its root. */
  function TryFind(s: DisjointSet, x: nat): (o: Result<nat>)
    requires Valid(s)
    ensures o.Err? <==> x !in s.indexData
    ensures o.Err? ==> o.error == ItemMissing
    ensures o.Ok? ==> o.value in s.indexData && IsRoot(s, o.value) && o.value == Find(s, x)
  {
    if x in s.indexData then Ok(Find(s, x)) else Err(ItemMissing)
  }

  /** `Find` returns the item `Depth(s, x)` parent links above `x`. */
  lemma {:induction false} FindIsAncestor(s: DisjointSet, x: nat)
    requires Valid(s) && x in s.indexData
    ensures Find(s, x) == Ancestor(s, x, Depth(s, x))
    decreases Levels(s)[x]
  {
    assert LevelStep(s, Levels(s), x);
    if !IsRoot(s, x) {
      FindIsAncestor(s, Parent(s, x));
    }
  }

  /** Any root met on the parent chain of `x` is the one `Find` returns. */
  lemma {:induction false} RootOnChainIsFind(s: DisjointSet, x: nat, k: nat)
    requires Valid(s) && x in s.indexData
    requires IsRoot(s, Ancestor(s, x, k))
    ensures Ancestor(s, x, k) == Find(s, x)
    decreases k
  {
    if k != 0 && !IsRoot(s, x) {
      RootOnChainIsFind(s, Parent(s, x), k - 1);
    }
  }

  /** `find` as the source writes it: a loop that walks parent links until a negative entry. */
  method FindIterative(s: DisjointSet, item: nat) returns (r: nat)
    requires Valid(s) && item in s.indexData
    ensures r == Find(s, item)
  {
    var current := item;
    while true
      invariant current in s.indexData
      invariant Find(s, current) == Find(s, item)
      decreases Levels(s)[current]
    {
      assert LevelStep(s, Levels(s), current);
      var index := s.indexData[current];
      assert ParentIsItem(s, current);
      if s.parentArray[index] >= 0 {
        current := s.parentArray[index] as nat;
      } else {
        return current;
      }
    }
  }

  /** The items whose tree has root `r`: the equivalence class of `r`. */
  ghost function Members(s: DisjointSet, r: nat): set<nat>
    requires Valid(s)
  {
    set x | x in s.indexData && Find(s, x) == r
  }
}
