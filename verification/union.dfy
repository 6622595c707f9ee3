/**
 `union(item_1, item_2)` with its two linking rules, and what it does to the
 classes, the forest shape and the root counters.
 */
module UnionRules {
  import opened Forest
  import opened Counters

  function Abs(v: int): nat {
    if v < 0 then -v else v
  }

  /**
   The root that survives `union(a, b)`: the root of `a` when its counter is at
   most the counter of the root of `b` (so ties go to the first argument),
   otherwise the root of `b`.
   */
  function Winner(s: DisjointSet, a: nat, b: nat): (w: nat)
    requires Valid(s) && a in s.indexData && b in s.indexData
    ensures w == Find(s, a) || w == Find(s, b)
    ensures Slot(s, w) <= Slot(s, Find(s, a)) && Slot(s, w) <= Slot(s, Find(s, b))
    ensures w == Find(s, b) && Find(s, a) != Find(s, b) ==> Slot(s, Find(s, b)) < Slot(s, Find(s, a))
  {
    if Slot(s, Find(s, a)) <= Slot(s, Find(s, b)) then Find(s, a) else Find(s, b)
  }

  /** The root that `union(a, b)` links under the winner. */
  function Loser(s: DisjointSet, a: nat, b: nat): (l: nat)
    requires Valid(s) && a in s.indexData && b in s.indexData && Find(s, a) != Find(s, b)
    ensures l == Find(s, a) || l == Find(s, b)
    ensures l != Winner(s, a, b)
  {
    if Slot(s, Find(s, a)) <= Slot(s, Find(s, b)) then Find(s, b) else Find(s, a)
  }

  /**
   The two-slot update both linking rules share: root `l` names `w` as its
   parent and root `w` takes the new negative counter; nothing else changes.
   */
  function Link(s: DisjointSet, w: nat, l: nat, counter: int): (t: DisjointSet)
    requires WellFormed(s) && w in s.indexData && l in s.indexData && w != l && counter < 0
    ensures t.indexData == s.indexData && t.mode == s.mode && |t.parentArray| == |s.parentArray|
    ensures WellFormed(t)
    ensures Slot(t, l) == w && Slot(t, w) == counter
    ensures forall i :: 0 <= i < |s.parentArray| && i != s.indexData[w] && i != s.indexData[l] ==>
              t.parentArray[i] == s.parentArray[i]
    ensures forall x :: x in s.indexData && x != w && x != l ==> Slot(t, x) == Slot(s, x)
  {
    var t := DisjointSet(s.indexData, s.parentArray[s.indexData[l] := w][s.indexData[w] := counter], s.mode);
    assert forall x :: x in s.indexData && x != w && x != l ==> t.parentArray[t.indexData[x]] == s.parentArray[s.indexData[x]];
    assert forall x {:trigger ParentIsItem(t, x)} :: ParentIsItem(s, x) ==> ParentIsItem(t, x);
    t
  }

  /** `union_by_height`: the loser points at the winner, whose counter drops by one. */
  function UnionByHeight(s: DisjointSet, w: nat, l: nat): (t: DisjointSet)
    requires WellFormed(s) && w in s.indexData && l in s.indexData && w != l && Slot(s, w) < 0
  {
    Link(s, w, l, Slot(s, w) - 1)
  }

  /** `union_by_size`: the loser points at the winner, whose counter becomes minus the summed sizes. */
  function UnionBySize(s: DisjointSet, w: nat, l: nat): (t: DisjointSet)
    requires WellFormed(s) && w in s.indexData && l in s.indexData && w != l && Slot(s, w) < 0
  {
    Link(s, w, l, -(Abs(Slot(s, w)) + Abs(Slot(s, l))))
  }

  /**
   `union(a, b)`, defined only when `a` and `b` lie in different trees. Exactly
   the two root slots change: the loser now names the winner as its parent, the
   winner stays a root with its counter updated by the mode's rule.
   */
  function Union(s: DisjointSet, a: nat, b: nat): (t: DisjointSet)
    requires Valid(s) && a in s.indexData && b in s.indexData
    requires Find(s, a) != Find(s, b)
    ensures t.indexData == s.indexData && t.mode == s.mode && |t.parentArray| == |s.parentArray|
    ensures WellFormed(t)
    ensures Slot(t, Loser(s, a, b)) == Winner(s, a, b)
    ensures Slot(t, Winner(s, a, b)) ==
              if s.mode == HeightMode then Slot(s, Winner(s, a, b)) - 1
              else -(Abs(Slot(s, Find(s, a))) + Abs(Slot(s, Find(s, b))))
    ensures IsRoot(t, Winner(s, a, b)) && !IsRoot(t, Loser(s, a, b))
  {
    var w := Winner(s, a, b);
    var l := Loser(s, a, b);
    if s.mode == HeightMode then UnionByHeight(s, w, l) else UnionBySize(s, w, l)
  }

  /**
   `union` with its assertions: `find` of either item fails when the item is
   not in the set, and merging two items of one tree fails; otherwise the two
   items end up in one class.
   */
  function TryUnion(s: DisjointSet, a: nat, b: nat): (o: Result<DisjointSet>)
    requires Valid(s)
    ensures o.Err? <==> a !in s.indexData || b !in s.indexData || Find(s, a) == Find(s, b)
    ensures o.Err? ==> (o.error == ItemMissing <==> a !in s.indexData || b !in s.indexData)
    ensures o.Ok? ==> a in s.indexData && b in s.indexData && Find(s, a) != Find(s, b) && o.value == Union(s, a, b)
    ensures o.Ok? ==> o.value.indexData == s.indexData && Valid(o.value) && Find(o.value, a) == Find(o.value, b)
  {
    if a !in s.indexData || b !in s.indexData then Err(ItemMissing)
    else if Find(s, a) == Find(s, b) then Err(SameTree)
    else
      UnionMergesClasses(s, a, b, a, b);
      Ok(Union(s, a, b))
  }

  /** `union` writes exactly the two root slots; every other entry of the parent array is unchanged. */
  lemma UnionFrame(s: DisjointSet, a: nat, b: nat)
    requires Valid(s) && a in s.indexData && b in s.indexData && Find(s, a) != Find(s, b)
    ensures forall i :: 0 <= i < |s.parentArray| && i != s.indexData[Find(s, a)] && i != s.indexData[Find(s, b)] ==>
              Union(s, a, b).parentArray[i] == s.parentArray[i]
    ensures forall x :: x in s.indexData && x != Find(s, a) && x != Find(s, b) ==> Slot(Union(s, a, b), x) == Slot(s, x)
  {
    UnionIsLink(s, a, b);
  }

  /** The levels after linking root `l` under another root: `l`'s tree moves one level down. */
  ghost function LinkedLevels(s: DisjointSet, l: nat): map<nat, nat>
    requires Valid(s)
  {
    map x | x in s.indexData :: if Find(s, x) == l then Levels(s)[x] + 1 else Levels(s)[x]
  }

  /** Linking one root under another keeps the forest acyclic. */
  lemma LinkValid(s: DisjointSet, w: nat, l: nat, counter: int)
    requires Valid(s) && w in s.indexData && l in s.indexData && w != l
    requires IsRoot(s, w) && IsRoot(s, l) && counter < 0
    ensures Valid(Link(s, w, l, counter))
  {
    LinkLevelMap(s, w, l, counter);
  }

  /** Pushing the loser's tree one level down gives a level map of the linked state. */
  lemma LinkLevelMap(s: DisjointSet, w: nat, l: nat, counter: int)
    requires Valid(s) && w in s.indexData && l in s.indexData && w != l
    requires IsRoot(s, w) && IsRoot(s, l) && counter < 0
    ensures IsLevelMap(Link(s, w, l, counter), LinkedLevels(s, l))
  {
    var t := Link(s, w, l, counter);
    var d' := LinkedLevels(s, l);
    forall x | x in d'
      ensures LevelStep(t, d', x)
    {
      LinkLevelStep(s, w, l, counter, x);
    }
  }

  lemma LinkLevelStep(s: DisjointSet, w: nat, l: nat, counter: int, x: nat)
    requires Valid(s) && w in s.indexData && l in s.indexData && w != l
    requires IsRoot(s, w) && IsRoot(s, l) && counter < 0
    requires x in s.indexData
    ensures LevelStep(Link(s, w, l, counter), LinkedLevels(s, l), x)
  {
    var t := Link(s, w, l, counter);
    var d, d' := Levels(s), LinkedLevels(s, l);
    assert LevelStep(s, d, x);
    LinkedLevelsAt(s, l, x);
    if x == l {
      assert !IsRoot(t, l) && Parent(t, l) == w;
      assert Find(s, l) == l;
      assert LevelStep(s, d, w);
      LinkedLevelsAt(s, l, w);
    } else if x == w {
      assert IsRoot(t, w) && Find(s, w) == w;
    } else if IsRoot(s, x) {
      assert Slot(t, x) == Slot(s, x);
      assert IsRoot(t, x) && Find(s, x) == x;
    } else {
      var p := Parent(s, x);
      assert Slot(t, x) == Slot(s, x);
      assert !IsRoot(t, x) && Parent(t, x) == p;
      assert Find(s, x) == Find(s, p);
      LinkedLevelsAt(s, l, p);
    }
  }

  lemma LinkedLevelsAt(s: DisjointSet, l: nat, y: nat)
    requires Valid(s) && y in s.indexData
    ensures y in LinkedLevels(s, l)
    ensures LinkedLevels(s, l)[y] == if Find(s, y) == l then Levels(s)[y] + 1 else Levels(s)[y]
  {
  }

  /** Linking `l` under `w` gives the items of `l`'s tree root `w` and one more link of depth. */
  lemma {:induction false} FindAfterLink(s: DisjointSet, w: nat, l: nat, counter: int, x: nat)
    requires Valid(s) && w in s.indexData && l in s.indexData && w != l
    requires IsRoot(s, w) && IsRoot(s, l) && counter < 0
    requires x in s.indexData
    ensures Valid(Link(s, w, l, counter))
    ensures Find(Link(s, w, l, counter), x) == if Find(s, x) == l then w else Find(s, x)
    ensures Depth(Link(s, w, l, counter), x) == if Find(s, x) == l then Depth(s, x) + 1 else Depth(s, x)
    decreases Levels(s)[x]
  {
    LinkValid(s, w, l, counter);
    if IsRoot(s, x) {
      FindAfterLinkAtRoot(s, w, l, counter, x);
    } else {
      assert LevelStep(s, Levels(s), x);
      FindAfterLink(s, w, l, counter, Parent(s, x));
      FindAfterLinkStep(s, w, l, counter, x);
      assert Find(s, x) == Find(s, Parent(s, x)) && Depth(s, x) == Depth(s, Parent(s, x)) + 1;
    }
  }

  /** The base case of `FindAfterLink`: `x` is a root before the link. */
  lemma FindAfterLinkAtRoot(s: DisjointSet, w: nat, l: nat, counter: int, x: nat)
    requires Valid(s) && w in s.indexData && l in s.indexData && w != l
    requires IsRoot(s, w) && IsRoot(s, l) && counter < 0
    requires x in s.indexData && IsRoot(s, x)
    requires Valid(Link(s, w, l, counter))
    ensures Find(Link(s, w, l, counter), x) == if x == l then w else x
    ensures Depth(Link(s, w, l, counter), x) == if x == l then 1 else 0
  {
    var t := Link(s, w, l, counter);
    if x == l {
      assert Parent(t, l) == w;
      assert Find(t, w) == w && Depth(t, w) == 0;
    } else if x != w {
      assert Slot(t, x) == Slot(s, x);
    }
  }

  /** The inductive step of `FindAfterLink`: the link leaves the parent of a non-root alone. */
  lemma FindAfterLinkStep(s: DisjointSet, w: nat, l: nat, counter: int, x: nat)
    requires Valid(s) && w in s.indexData && l in s.indexData && w != l
    requires IsRoot(s, w) && IsRoot(s, l) && counter < 0
    requires x in s.indexData && !IsRoot(s, x)
    requires Valid(Link(s, w, l, counter))
    ensures !IsRoot(Link(s, w, l, counter), x) && Parent(Link(s, w, l, counter), x) == Parent(s, x)
    ensures Find(Link(s, w, l, counter), x) == Find(Link(s, w, l, counter), Parent(s, x))
    ensures Depth(Link(s, w, l, counter), x) == Depth(Link(s, w, l, counter), Parent(s, x)) + 1
  {
    var t := Link(s, w, l, counter);
    assert Slot(t, x) == Slot(s, x);
    assert LevelStep(t, Levels(t), x);
  }

  /** The forest stays acyclic under `union`. */
  lemma UnionValid(s: DisjointSet, a: nat, b: nat)
    requires Valid(s) && a in s.indexData && b in s.indexData && Find(s, a) != Find(s, b)
    ensures Valid(Union(s, a, b))
  {
    var w, l := Winner(s, a, b), Loser(s, a, b);
    LinkValid(s, w, l, Slot(Union(s, a, b), w));
  }

  /**
   After `union(a, b)` every item of the two merged trees has the winner as its
   root and every other item keeps its root; items of the loser's tree are one
   link deeper, all others keep their depth.
   */
  lemma FindAfterUnion(s: DisjointSet, a: nat, b: nat, x: nat)
    requires Valid(s) && a in s.indexData && b in s.indexData && Find(s, a) != Find(s, b)
    requires x in s.indexData
    ensures Valid(Union(s, a, b))
    ensures Find(Union(s, a, b), x) ==
              if Find(s, x) == Find(s, a) || Find(s, x) == Find(s, b) then Winner(s, a, b) else Find(s, x)
    ensures Depth(Union(s, a, b), x) ==
              if Find(s, x) == Loser(s, a, b) then Depth(s, x) + 1 else Depth(s, x)
  {
    var w, l := Winner(s, a, b), Loser(s, a, b);
    var t := Union(s, a, b);
    assert t == Link(s, w, l, Slot(t, w)) by {
      UnionIsLink(s, a, b);
    }
    FindAfterLink(s, w, l, Slot(t, w), x);
  }

  /**
   `union(a, b)` merges exactly the classes of `a` and `b`: two items end up
   together iff they were together before or one came from each merged class.
   */
  lemma UnionMergesClasses(s: DisjointSet, a: nat, b: nat, x: nat, y: nat)
    requires Valid(s) && a in s.indexData && b in s.indexData && Find(s, a) != Find(s, b)
    requires x in s.indexData && y in s.indexData
    ensures Valid(Union(s, a, b))
    ensures Find(Union(s, a, b), a) == Find(Union(s, a, b), b)
    ensures Find(Union(s, a, b), x) == Find(Union(s, a, b), y) <==>
              || Find(s, x) == Find(s, y)
              || (Find(s, x) == Find(s, a) && Find(s, y) == Find(s, b))
              || (Find(s, x) == Find(s, b) && Find(s, y) == Find(s, a))
  {
    FindAfterUnion(s, a, b, a);
    FindAfterUnion(s, a, b, b);
    FindAfterUnion(s, a, b, x);
    FindAfterUnion(s, a, b, y);
  }

  /** The winner's class is the union of the two merged classes; every other root keeps its class. */
  lemma UnionMembers(s: DisjointSet, a: nat, b: nat)
    requires Valid(s) && a in s.indexData && b in s.indexData && Find(s, a) != Find(s, b)
    ensures Valid(Union(s, a, b))
    ensures Members(Union(s, a, b), Winner(s, a, b)) == Members(s, Find(s, a)) + Members(s, Find(s, b))
    ensures Members(Union(s, a, b), Loser(s, a, b)) == {}
  {
    var w, l := Winner(s, a, b), Loser(s, a, b);
    var t := Union(s, a, b);
    UnionIsLink(s, a, b);
    LinkMembers(s, w, l, Slot(t, w));
    if w == Find(s, a) {
      assert Members(t, w) == Members(s, Find(s, a)) + Members(s, Find(s, b));
    } else {
      assert Members(t, w) == Members(s, Find(s, b)) + Members(s, Find(s, a));
    }
  }

  /** Both linking rules are the shared update applied to the winner and the loser. */
  lemma UnionIsLink(s: DisjointSet, a: nat, b: nat)
    requires Valid(s) && a in s.indexData && b in s.indexData && Find(s, a) != Find(s, b)
    ensures Union(s, a, b) == Link(s, Winner(s, a, b), Loser(s, a, b), Slot(Union(s, a, b), Winner(s, a, b)))
  {
  }

  /** In height mode `union` is the link with the winner's counter lowered by one. */
  lemma UnionIsHeightLink(s: DisjointSet, a: nat, b: nat)
    requires Valid(s) && a in s.indexData && b in s.indexData && Find(s, a) != Find(s, b)
    requires s.mode == HeightMode
    ensures Union(s, a, b) == Link(s, Winner(s, a, b), Loser(s, a, b), Slot(s, Winner(s, a, b)) - 1)
  {
  }

  /** Every root other than the two merged ones keeps its class under `union`. */
  lemma UnionKeepsOtherMembers(s: DisjointSet, a: nat, b: nat, r: nat)
    requires Valid(s) && a in s.indexData && b in s.indexData && Find(s, a) != Find(s, b)
    requires r != Find(s, a) && r != Find(s, b)
    ensures Valid(Union(s, a, b))
    ensures Members(Union(s, a, b), r) == Members(s, r)
  {
    var w, l := Winner(s, a, b), Loser(s, a, b);
    LinkKeepsOtherMembers(s, w, l, Slot(Union(s, a, b), w), r);
  }

  /** Linking `l` under `w` moves the whole class of `l` into the class of `w`. */
  lemma LinkMembers(s: DisjointSet, w: nat, l: nat, counter: int)
    requires Valid(s) && w in s.indexData && l in s.indexData && w != l
    requires IsRoot(s, w) && IsRoot(s, l) && counter < 0
    ensures Valid(Link(s, w, l, counter))
    ensures Members(Link(s, w, l, counter), w) == Members(s, w) + Members(s, l)
    ensures Members(Link(s, w, l, counter), l) == {}
  {
    LinkValid(s, w, l, counter);
    var t := Link(s, w, l, counter);
    assert Members(t, w) == Members(s, w) + Members(s, l) by {
      forall x
        ensures x in Members(t, w) <==> x in Members(s, w) + Members(s, l)
      {
        LinkMemberAt(s, w, l, counter, x);
      }
    }
    assert Members(t, l) == {} by {
      forall x
        ensures x !in Members(t, l)
      {
        LinkMemberAt(s, w, l, counter, x);
      }
    }
  }

  lemma LinkMemberAt(s: DisjointSet, w: nat, l: nat, counter: int, x: nat)
    requires Valid(s) && w in s.indexData && l in s.indexData && w != l
    requires IsRoot(s, w) && IsRoot(s, l) && counter < 0
    ensures Valid(Link(s, w, l, counter))
    ensures x in Members(Link(s, w, l, counter), w) <==> x in Members(s, w) || x in Members(s, l)
    ensures x !in Members(Link(s, w, l, counter), l)
  {
    LinkValid(s, w, l, counter);
    if x in s.indexData {
      FindAfterLink(s, w, l, counter, x);
    }
  }

  lemma LinkKeepsOtherMembers(s: DisjointSet, w: nat, l: nat, counter: int, r: nat)
    requires Valid(s) && w in s.indexData && l in s.indexData && w != l
    requires IsRoot(s, w) && IsRoot(s, l) && counter < 0
    requires r != w && r != l
    ensures Valid(Link(s, w, l, counter))
    ensures Members(Link(s, w, l, counter), r) == Members(s, r)
  {
    LinkValid(s, w, l, counter);
    var t := Link(s, w, l, counter);
    forall x
      ensures x in Members(t, r) <==> x in Members(s, r)
    {
      if x in s.indexData {
        FindAfterLink(s, w, l, counter, x);
      }
    }
  }

  /** After a size-mode link, the counter of root `r` is minus the size of its class. */
  lemma LinkSizeAt(s: DisjointSet, w: nat, l: nat, r: nat)
    requires Valid(s) && w in s.indexData && l in s.indexData && w != l
    requires IsRoot(s, w) && IsRoot(s, l) && SizeCounts(s)
    requires r in s.indexData
    ensures Valid(Link(s, w, l, -(Abs(Slot(s, w)) + Abs(Slot(s, l)))))
    ensures IsRoot(Link(s, w, l, -(Abs(Slot(s, w)) + Abs(Slot(s, l)))), r) ==>
              -Slot(Link(s, w, l, -(Abs(Slot(s, w)) + Abs(Slot(s, l)))), r)
                == |Members(Link(s, w, l, -(Abs(Slot(s, w)) + Abs(Slot(s, l)))), r)|
  {
    var t := Link(s, w, l, -(Abs(Slot(s, w)) + Abs(Slot(s, l))));
    LinkValid(s, w, l, Slot(t, w));
    if r == w {
      LinkMembers(s, w, l, Slot(t, w));
      assert Members(s, w) !! Members(s, l);
    } else if r != l {
      LinkKeepsOtherMembers(s, w, l, Slot(t, w), r);
    }
  }

  /** After a height-mode link, the depth of `x` is still bounded by its root's counter. */
  lemma LinkHeightDepthAt(s: DisjointSet, w: nat, l: nat, x: nat)
    requires Valid(s) && w in s.indexData && l in s.indexData && w != l
    requires IsRoot(s, w) && IsRoot(s, l) && Slot(s, w) <= Slot(s, l) && HeightCounts(s)
    requires x in s.indexData
    ensures Valid(Link(s, w, l, Slot(s, w) - 1))
    ensures DepthBounded(Link(s, w, l, Slot(s, w) - 1), x)
  {
    var t := Link(s, w, l, Slot(s, w) - 1);
    FindAfterLink(s, w, l, Slot(t, w), x);
    assert DepthBounded(s, x);
    if Find(s, x) == l {
      assert DepthBounded(s, l);
    }
  }

  /** After a height-mode link, the counter of root `r` still does not exceed its class size. */
  lemma LinkHeightSizeAt(s: DisjointSet, w: nat, l: nat, r: nat)
    requires Valid(s) && w in s.indexData && l in s.indexData && w != l
    requires IsRoot(s, w) && IsRoot(s, l) && HeightCounts(s)
    requires r in s.indexData
    ensures Valid(Link(s, w, l, Slot(s, w) - 1))
    ensures IsRoot(Link(s, w, l, Slot(s, w) - 1), r) ==>
              -Slot(Link(s, w, l, Slot(s, w) - 1), r) <= |Members(Link(s, w, l, Slot(s, w) - 1), r)|
  {
    var t := Link(s, w, l, Slot(s, w) - 1);
    LinkValid(s, w, l, Slot(t, w));
    if r == w {
      LinkMembers(s, w, l, Slot(t, w));
      assert Find(s, l) == l;
      assert l in Members(s, l);
      assert Members(s, w) !! Members(s, l);
    } else if r != l {
      LinkKeepsOtherMembers(s, w, l, Slot(t, w), r);
    }
  }

  lemma LinkKeepsSizeCounts(s: DisjointSet, w: nat, l: nat)
    requires Valid(s) && w in s.indexData && l in s.indexData && w != l
    requires IsRoot(s, w) && IsRoot(s, l) && SizeCounts(s)
    ensures Valid(Link(s, w, l, -(Abs(Slot(s, w)) + Abs(Slot(s, l)))))
    ensures SizeCounts(Link(s, w, l, -(Abs(Slot(s, w)) + Abs(Slot(s, l)))))
  {
    var t := Link(s, w, l, -(Abs(Slot(s, w)) + Abs(Slot(s, l))));
    LinkValid(s, w, l, Slot(t, w));
    forall r | r in t.indexData && IsRoot(t, r)
      ensures -Slot(t, r) == |Members(t, r)|
    {
      LinkSizeAt(s, w, l, r);
    }
  }

  /** `union_by_size` on two distinct roots keeps the forest valid and every counter minus its class size. */
  lemma BySizeKeepsCounts(s: DisjointSet, w: nat, l: nat)
    requires Valid(s) && w in s.indexData && l in s.indexData && w != l
    requires IsRoot(s, w) && IsRoot(s, l) && SizeCounts(s)
    ensures Valid(UnionBySize(s, w, l)) && SizeCounts(UnionBySize(s, w, l))
  {
    LinkKeepsSizeCounts(s, w, l);
  }

  lemma LinkKeepsHeightCounts(s: DisjointSet, w: nat, l: nat)
    requires Valid(s) && w in s.indexData && l in s.indexData && w != l
    requires IsRoot(s, w) && IsRoot(s, l) && Slot(s, w) <= Slot(s, l) && HeightCounts(s)
    ensures Valid(Link(s, w, l, Slot(s, w) - 1))
    ensures HeightCounts(Link(s, w, l, Slot(s, w) - 1))
  {
    LinkKeepsDepthBound(s, w, l);
    LinkKeepsCounterBound(s, w, l);
  }

  /**
   `union_by_height` with a winner whose counter is at most the loser's keeps
   the forest valid, the depth bound and the size bound.
   */
  lemma ByHeightKeepsCounts(s: DisjointSet, w: nat, l: nat)
    requires Valid(s) && w in s.indexData && l in s.indexData && w != l
    requires IsRoot(s, w) && IsRoot(s, l) && Slot(s, w) <= Slot(s, l) && HeightCounts(s)
    ensures Valid(UnionByHeight(s, w, l)) && HeightCounts(UnionByHeight(s, w, l))
  {
    LinkKeepsHeightCounts(s, w, l);
  }

  lemma LinkKeepsDepthBound(s: DisjointSet, w: nat, l: nat)
    requires Valid(s) && w in s.indexData && l in s.indexData && w != l
    requires IsRoot(s, w) && IsRoot(s, l) && Slot(s, w) <= Slot(s, l) && HeightCounts(s)
    ensures Valid(Link(s, w, l, Slot(s, w) - 1))
    ensures forall x :: x in s.indexData ==> DepthBounded(Link(s, w, l, Slot(s, w) - 1), x)
  {
    var t := Link(s, w, l, Slot(s, w) - 1);
    LinkValid(s, w, l, Slot(t, w));
    forall x | x in s.indexData
      ensures DepthBounded(t, x)
    {
      LinkHeightDepthAt(s, w, l, x);
    }
  }

  lemma LinkKeepsCounterBound(s: DisjointSet, w: nat, l: nat)
    requires Valid(s) && w in s.indexData && l in s.indexData && w != l
    requires IsRoot(s, w) && IsRoot(s, l) && HeightCounts(s)
    ensures Valid(Link(s, w, l, Slot(s, w) - 1))
    ensures forall r :: r in s.indexData && IsRoot(Link(s, w, l, Slot(s, w) - 1), r) ==>
              -Slot(Link(s, w, l, Slot(s, w) - 1), r) <= |Members(Link(s, w, l, Slot(s, w) - 1), r)|
  {
    var t := Link(s, w, l, Slot(s, w) - 1);
    LinkValid(s, w, l, Slot(t, w));
    forall r | r in s.indexData && IsRoot(t, r)
      ensures -Slot(t, r) <= |Members(t, r)|
    {
      LinkHeightSizeAt(s, w, l, r);
    }
  }

  /** Linking `l` under `w` makes `l` a child of `w` and changes no other parent link. */
  lemma LinkChildAt(s: DisjointSet, w: nat, l: nat, counter: int, r: nat, x: nat)
    requires WellFormed(s) && w in s.indexData && l in s.indexData && w != l
    requires IsRoot(s, w) && IsRoot(s, l) && counter < 0
    ensures x in Children(Link(s, w, l, counter), r) <==> x in Children(s, r) || (x == l && r == w)
  {
    var t := Link(s, w, l, counter);
    if x in s.indexData && x != w && x != l {
      assert Slot(t, x) == Slot(s, x);
    }
  }

  /** The children of `w` gain `l`; every other item keeps its children. */
  lemma LinkChildren(s: DisjointSet, w: nat, l: nat, counter: int, r: nat)
    requires WellFormed(s) && w in s.indexData && l in s.indexData && w != l
    requires IsRoot(s, w) && IsRoot(s, l) && counter < 0
    ensures Children(Link(s, w, l, counter), r) == if r == w then Children(s, w) + {l} else Children(s, r)
    ensures l !in Children(s, r)
  {
    var t := Link(s, w, l, counter);
    forall x ensures x in Children(t, r) <==> x in (if r == w then Children(s, w) + {l} else Children(s, r)) {
      LinkChildAt(s, w, l, counter, r, x);
    }
  }

  /**
   A height-mode link keeps every root's counter equal to minus one less its number of children.
   The linked state is passed as `t` so that callers can name it as `UnionByHeight(s, w, l)` or
   `Union(s, a, b)` without the solver having to rewrite one term into the other.
   */
  lemma LinkKeepsWinsCounted(s: DisjointSet, w: nat, l: nat, t: DisjointSet)
    requires WellFormed(s) && w in s.indexData && l in s.indexData && w != l
    requires IsRoot(s, w) && IsRoot(s, l) && WinsCounted(s)
    requires t == Link(s, w, l, Slot(s, w) - 1)
    ensures Children(t, w) == Children(s, w) + {l}
    ensures WinsCounted(t)
  {
    forall r
      ensures CountsWins(t, r)
    {
      LinkCountsWinsAt(s, w, l, t, r);
    }
    LinkChildren(s, w, l, Slot(s, w) - 1, w);
  }

  /** `union_by_height` makes the loser a child of the winner and keeps every counter counting children. */
  lemma ByHeightKeepsWinsCounted(s: DisjointSet, w: nat, l: nat)
    requires WellFormed(s) && w in s.indexData && l in s.indexData && w != l
    requires IsRoot(s, w) && IsRoot(s, l) && WinsCounted(s)
    ensures Children(UnionByHeight(s, w, l), w) == Children(s, w) + {l}
    ensures WinsCounted(UnionByHeight(s, w, l))
  {
    LinkKeepsWinsCounted(s, w, l, UnionByHeight(s, w, l));
  }

  /** `LinkKeepsWinsCounted` at one root `r`. */
  lemma LinkCountsWinsAt(s: DisjointSet, w: nat, l: nat, t: DisjointSet, r: nat)
    requires WellFormed(s) && w in s.indexData && l in s.indexData && w != l
    requires IsRoot(s, w) && IsRoot(s, l) && CountsWins(s, r)
    requires t == Link(s, w, l, Slot(s, w) - 1)
    ensures CountsWins(t, r)
  {
    if r in t.indexData && IsRoot(t, r) {
      LinkChildren(s, w, l, Slot(s, w) - 1, r);
      if r != w {
        assert r != l && Slot(t, r) == Slot(s, r);
      }
    }
  }

  /**
   Height mode: after `union(a, b)` the winner has one more child and a counter
   one lower, so every counter still counts the unions its root has won.
   */
  lemma UnionKeepsWinsCounted(s: DisjointSet, a: nat, b: nat)
    requires Valid(s) && a in s.indexData && b in s.indexData && Find(s, a) != Find(s, b)
    requires WinsCounted(s) && s.mode == HeightMode
    ensures Children(Union(s, a, b), Winner(s, a, b)) == Children(s, Winner(s, a, b)) + {Loser(s, a, b)}
    ensures WinsCounted(Union(s, a, b))
  {
    ByHeightKeepsWinsCounted(s, Winner(s, a, b), Loser(s, a, b));
  }

  /**
   Size mode: the root of the larger tree (by the counters) wins, and after the
   union every root's counter is again minus the size of its class.
   */
  lemma UnionKeepsSizeCounts(s: DisjointSet, a: nat, b: nat)
    requires Valid(s) && a in s.indexData && b in s.indexData && Find(s, a) != Find(s, b)
    requires SizeCounts(s) && s.mode != HeightMode
    ensures |Members(s, Loser(s, a, b))| <= |Members(s, Winner(s, a, b))|
    ensures Valid(Union(s, a, b)) && SizeCounts(Union(s, a, b))
  {
    assert -Slot(s, Loser(s, a, b)) == |Members(s, Loser(s, a, b))|;
    assert -Slot(s, Winner(s, a, b)) == |Members(s, Winner(s, a, b))|;
    BySizeKeepsCounts(s, Winner(s, a, b), Loser(s, a, b));
  }

  /**
   Height mode: the winner's counter drops by one whatever the loser's counter
   was, and it still bounds the depth of its tree and never exceeds its size.
   */
  lemma UnionKeepsHeightCounts(s: DisjointSet, a: nat, b: nat)
    requires Valid(s) && a in s.indexData && b in s.indexData && Find(s, a) != Find(s, b)
    requires HeightCounts(s) && s.mode == HeightMode
    ensures Valid(Union(s, a, b)) && HeightCounts(Union(s, a, b))
  {
    ByHeightKeepsCounts(s, Winner(s, a, b), Loser(s, a, b));
  }

  /** Every `union` the source allows keeps the invariant of the state's mode. */
  lemma UnionPreservesInvariant(s: DisjointSet, a: nat, b: nat)
    requires Invariant(s) && a in s.indexData && b in s.indexData && Find(s, a) != Find(s, b)
    ensures Invariant(Union(s, a, b))
  {
    if s.mode == HeightMode {
      UnionKeepsHeightCounts(s, a, b);
      UnionKeepsWinsCounted(s, a, b);
    } else {
      UnionKeepsSizeCounts(s, a, b);
    }
  }

  /** A `union` that does not fail keeps the invariant of the state's mode. */
  lemma TryUnionPreservesInvariant(s: DisjointSet, a: nat, b: nat)
    requires Invariant(s)
    ensures TryUnion(s, a, b).Ok? ==> Invariant(TryUnion(s, a, b).value)
  {
    if a in s.indexData && b in s.indexData && Find(s, a) != Find(s, b) {
      UnionPreservesInvariant(s, a, b);
    }
  }
}
