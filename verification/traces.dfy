/**
 Concrete runs of the model, one state at a time: a small height-mode run
 where the root counter overstates the tree height, and the sample built by
 the source's main block.
 */
module Traces {
  import opened Forest
  import opened Counters
  import opened Construction
  import opened UnionRules

  /**
   Linking one root under another in height mode keeps the state valid. The linked
   state is passed as `t` so that a concrete state such as `G1` can be named directly.
   */
  lemma LinkedRootsValid(s: DisjointSet, w: nat, l: nat, t: DisjointSet)
    requires Valid(s) && w in s.indexData && l in s.indexData && w != l
    requires IsRoot(s, w) && IsRoot(s, l)
    requires Link(s, w, l, Slot(s, w) - 1) == t
    ensures Valid(t)
  {
    LinkValid(s, w, l, Slot(s, w) - 1);
  }

  /** `union(a, b)` is allowed on the valid state `s` and yields `t`. */
  ghost predicate UnionStep(s: DisjointSet, a: nat, b: nat, t: DisjointSet) {
    Valid(s) && a in s.indexData && b in s.indexData && Find(s, a) != Find(s, b) && Union(s, a, b) == t
  }

  /** The index of the items `0, ..., n - 1`: every item sits at its own position. */
  function Ids(n: nat): (m: map<nat, nat>)
    ensures forall x: nat :: x in m <==> x < n
    ensures forall x :: x in m ==> m[x] == x
  {
    if n == 0 then map[] else Ids(n - 1)[n - 1 := n - 1]
  }

  lemma IndexOfRange(data: seq<nat>)
    requires forall i :: 0 <= i < |data| ==> data[i] == i
    ensures GenerateDataIndex(data) == Ids(|data|)
  {
    var m, ids := GenerateDataIndex(data), Ids(|data|);
    forall x | x in m ensures x in ids && m[x] == ids[x] {
      var k := m[x];
      assert data[k] == x && data[k] == k;
    }
    forall x: nat | x in ids ensures x in m {
      assert data[x] in m;
    }
    SameMap(m, ids);
  }

  lemma SameMap(m: map<nat, nat>, n: map<nat, nat>)
    requires forall x :: x in m ==> x in n && m[x] == n[x]
    requires forall x :: x in n ==> x in m
    ensures m == n
  {
    assert m.Keys == n.Keys;
  }

  /** Building a set from `0, ..., n - 1` gives the identity index and all-singleton entries. */
  lemma InitOfRange(data: seq<nat>, mode: string)
    requires forall i :: 0 <= i < |data| ==> data[i] == i
    ensures Init(data, mode) == DisjointSet(Ids(|data|), seq(|data|, _ => -1), mode)
  {
    IndexOfRange(data);
  }

  const Items3: seq<nat> := [0, 1, 2]

  /** Height mode on items 0, 1, 2, before and after `union(0, 1)` and `union(0, 2)`. */
  const H0 := DisjointSet(Ids(3), [-1, -1, -1], "height")
  const H1 := DisjointSet(Ids(3), [-2, 0, -1], "height")
  const H2 := DisjointSet(Ids(3), [-3, 0, 0], "height")

  lemma H0IsInit()
    ensures Init(Items3, "height") == H0
  {
    assert forall i :: 0 <= i < |Items3| ==> Items3[i] == i;
    InitOfRange(Items3, "height");
    assert seq(3, _ => -1) == H0.parentArray;
  }

  lemma H0Invariant()
    ensures Invariant(H0)
  {
    assert WellFormed(H0) by {
      assert forall x {:trigger ParentIsItem(H0, x)} :: ParentIsItem(H0, x);
    }
    SingletonsValid(H0);
  }

  lemma H0Roots()
    ensures Valid(H0) && Find(H0, 0) == 0 && Find(H0, 1) == 1
  {
    H0Invariant();
    assert IsRoot(H0, 0) && IsRoot(H0, 1);
  }

  lemma H1Step()
    ensures UnionStep(H0, 0, 1, H1)
  {
    H0Roots();
    assert Link(H0, 0, 1, -2).parentArray == H1.parentArray;
    assert Winner(H0, 0, 1) == 0 && Loser(H0, 0, 1) == 1;
    assert Union(H0, 0, 1) == Link(H0, 0, 1, Slot(H0, 0) - 1) by {
      UnionIsHeightLink(H0, 0, 1);
    }
  }

  lemma H1Invariant()
    ensures Invariant(H1)
  {
    H0Invariant();
    H1Step();
    UnionPreservesInvariant(H0, 0, 1);
  }

  lemma H1Roots()
    ensures Valid(H1) && Find(H1, 0) == 0 && Find(H1, 2) == 2
  {
    H1Invariant();
    assert IsRoot(H1, 0) && IsRoot(H1, 2);
  }

  lemma H2Step()
    ensures UnionStep(H1, 0, 2, H2)
  {
    H1Roots();
    assert Link(H1, 0, 2, -3).parentArray == H2.parentArray;
    assert Winner(H1, 0, 2) == 0 && Loser(H1, 0, 2) == 2;
    assert Union(H1, 0, 2) == Link(H1, 0, 2, Slot(H1, 0) - 1) by {
      UnionIsHeightLink(H1, 0, 2);
    }
  }

  lemma H2Invariant()
    ensures Invariant(H2)
  {
    H1Invariant();
    H2Step();
    UnionPreservesInvariant(H1, 0, 2);
  }

  lemma H2Depths()
    ensures Invariant(H2) && Depth(H2, 0) == 0 && Depth(H2, 1) == 1 && Depth(H2, 2) == 1
  {
    H2Invariant();
    assert IsRoot(H2, 0) && Parent(H2, 1) == 0 && Parent(H2, 2) == 0;
  }

  /**
   After `union(0, 1)` and `union(0, 2)` in height mode the tree has height one,
   yet minus its root counter, less one, is two: the counter counts links won,
   so it bounds the height without being equal to it.
   */
  lemma HeightCounterOverstates()
    ensures Init(Items3, "height") == H0
    ensures UnionStep(H0, 0, 1, H1)
    ensures UnionStep(H1, 0, 2, H2)
    ensures Invariant(H2) && Depth(H2, 0) == 0 && Depth(H2, 1) == 1 && Depth(H2, 2) == 1
    ensures -Slot(H2, 0) - 1 == 2
  {
    H0IsInit();
    H1Step();
    H2Step();
    H2Depths();
  }

  /** The items of the sample run. */
  const Items8: seq<nat> := [0, 1, 2, 3, 4, 5, 6, 7]

  /** The states of the sample run: after construction, then after each of the four unions. */
  const G0 := DisjointSet(Ids(8), [-1, -1, -1, -1, -1, -1, -1, -1], "height")
  const G1 := DisjointSet(Ids(8), [-1, -1, -1, -1, -2, 4, -1, -1], "height")
  const G2 := DisjointSet(Ids(8), [-1, -1, -1, -1, -2, 4, -2, 6], "height")
  const G3 := DisjointSet(Ids(8), [-1, -1, -1, -1, -3, 4, 4, 6], "height")
  const G4 := DisjointSet(Ids(8), [-1, -1, -1, 4, -4, 4, 4, 6], "height")

  lemma G0IsInit()
    ensures Init(Items8, "height") == G0
  {
    assert forall i :: 0 <= i < |Items8| ==> Items8[i] == i;
    InitOfRange(Items8, "height");
    assert seq(8, _ => -1) == G0.parentArray;
  }

  lemma G0Roots()
    ensures Valid(G0) && Find(G0, 4) == 4 && Find(G0, 5) == 5
  {
    assert WellFormed(G0) by {
      assert forall x {:trigger ParentIsItem(G0, x)} :: ParentIsItem(G0, x);
    }
    SingletonsValid(G0);
  }

  lemma G1Step()
    ensures UnionStep(G0, 4, 5, G1) && Valid(G1)
  {
    G0Roots();
    assert Link(G0, 4, 5, -2).parentArray == G1.parentArray;
    assert Winner(G0, 4, 5) == 4 && Loser(G0, 4, 5) == 5;
    assert Union(G0, 4, 5) == Link(G0, 4, 5, Slot(G0, 4) - 1) by {
      UnionIsHeightLink(G0, 4, 5);
    }
    LinkedRootsValid(G0, 4, 5, G1);
  }

  lemma G1Roots()
    ensures Valid(G1) && Find(G1, 6) == 6 && Find(G1, 7) == 7
  {
    assert Valid(G1) by {
      G1Step();
    }
    assert IsRoot(G1, 6) && IsRoot(G1, 7);
  }

  lemma G2Step()
    ensures UnionStep(G1, 6, 7, G2) && Valid(G2)
  {
    G1Roots();
    assert Link(G1, 6, 7, -2).parentArray == G2.parentArray;
    assert Winner(G1, 6, 7) == 6 && Loser(G1, 6, 7) == 7;
    assert Union(G1, 6, 7) == Link(G1, 6, 7, Slot(G1, 6) - 1) by {
      UnionIsHeightLink(G1, 6, 7);
    }
    LinkedRootsValid(G1, 6, 7, G2);
  }

  lemma G2Roots()
    ensures Valid(G2) && Find(G2, 5) == 4 && Find(G2, 7) == 6
  {
    assert Valid(G2) by {
      G2Step();
    }
    assert IsRoot(G2, 4) && IsRoot(G2, 6) && Parent(G2, 5) == 4 && Parent(G2, 7) == 6;
  }

  lemma G3Step()
    ensures UnionStep(G2, 5, 7, G3) && Valid(G3)
  {
    G2Roots();
    assert Link(G2, 4, 6, -3).parentArray == G3.parentArray;
    assert Winner(G2, 5, 7) == 4 && Loser(G2, 5, 7) == 6;
    assert Union(G2, 5, 7) == Link(G2, 4, 6, Slot(G2, 4) - 1) by {
      UnionIsHeightLink(G2, 5, 7);
    }
    LinkedRootsValid(G2, 4, 6, G3);
  }

  lemma G3Roots()
    ensures Valid(G3) && Find(G3, 3) == 3 && Find(G3, 7) == 4
  {
    assert Valid(G3) by {
      G3Step();
    }
    assert IsRoot(G3, 3) && IsRoot(G3, 4) && Parent(G3, 6) == 4 && Parent(G3, 7) == 6;
    assert Find(G3, 6) == 4;
  }

  /** Root 3 has counter -1 and root 4 has -3: the second root wins, so 3 is linked under 4. */
  lemma G4Step()
    ensures UnionStep(G3, 3, 7, G4) && Valid(G4)
  {
    G3Roots();
    assert Link(G3, 4, 3, -4).parentArray == G4.parentArray;
    assert Winner(G3, 3, 7) == 4 && Loser(G3, 3, 7) == 3;
    assert Union(G3, 3, 7) == Link(G3, 4, 3, Slot(G3, 4) - 1) by {
      UnionIsHeightLink(G3, 3, 7);
    }
    LinkedRootsValid(G3, 4, 3, G4);
  }

  /**
   The sample run: eight items in height mode, then `union(4, 5)`, `union(6, 7)`,
   `union(5, 7)` and `union(3, 7)`, leaving the parent array
   `[-1, -1, -1, 4, -4, 4, 4, 6]`.
   */
  lemma SampleRun()
    ensures Init(Items8, "height") == G0
    ensures UnionStep(G0, 4, 5, G1)
    ensures UnionStep(G1, 6, 7, G2)
    ensures UnionStep(G2, 5, 7, G3)
    ensures UnionStep(G3, 3, 7, G4)
    ensures G4.parentArray == [-1, -1, -1, 4, -4, 4, 4, 6]
  {
    G0IsInit();
    G1Step();
    G2Step();
    G3Step();
    G4Step();
  }
}
