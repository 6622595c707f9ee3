/**
 What the negative entries of the parent array mean, in each union mode.
 */
module Counters {
  import opened Forest

  /** The mode string that selects union by height; every other string selects union by size. */
  const HeightMode: string := "height"

  /** Size mode: minus a root's counter is the number of items whose root it is. */
  ghost predicate SizeCounts(s: DisjointSet)
    requires Valid(s)
  {
    forall r {:trigger Members(s, r)} :: r in s.indexData && IsRoot(s, r) ==> -Slot(s, r) == |Members(s, r)|
  }

  /** Height mode, at item `x`: minus the counter of its root, less one, bounds its depth. */
  ghost predicate DepthBounded(s: DisjointSet, x: nat)
    requires Valid(s)
  {
    x in s.indexData && Depth(s, x) <= -Slot(s, Find(s, x)) - 1
  }

  /**
   Height mode: minus a root's counter, less one, bounds the depth of every item
   in its tree, and the counter never exceeds the tree's size.
   */
  ghost predicate HeightCounts(s: DisjointSet)
    requires Valid(s)
  {
    && (forall x {:trigger DepthBounded(s, x)} :: x in s.indexData ==> DepthBounded(s, x))
    && (forall r {:trigger Members(s, r)} :: r in s.indexData && IsRoot(s, r) ==> -Slot(s, r) <= |Members(s, r)|)
  }

  /** The items whose parent entry names `r`: the roots linked directly under `r`. */
  ghost function Children(s: DisjointSet, r: nat): set<nat>
    requires WellFormed(s)
  {
    set x | x in s.indexData && !IsRoot(s, x) && Parent(s, x) == r
  }

  /** Height mode, at root `r`: minus its counter, less one, is its number of children. */
  ghost predicate CountsWins(s: DisjointSet, r: nat)
    requires WellFormed(s)
  {
    r in s.indexData && IsRoot(s, r) ==> -Slot(s, r) - 1 == |Children(s, r)|
  }

  /**
   Height mode: minus a root's counter, less one, is exactly the number of
   items linked directly under it, that is, the number of unions it has won.
   */
  ghost predicate WinsCounted(s: DisjointSet)
    requires WellFormed(s)
  {
    forall r {:trigger CountsWins(s, r)} :: CountsWins(s, r)
  }

  /** The invariant every state built by construction and unions satisfies. */
  ghost predicate Invariant(s: DisjointSet) {
    Valid(s) && if s.mode == HeightMode then HeightCounts(s) && WinsCounted(s) else SizeCounts(s)
  }
}
