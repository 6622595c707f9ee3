/**
 Building a `DisjointSet` from a list of items: `generate_data_index` and `__init__`.
 */
module Construction {
  import opened Forest
  import opened Counters

  predicate Distinct(data: seq<nat>) {
    forall i, j :: 0 <= i < j < |data| ==> data[i] != data[j]
  }

  /**
   `generate_data_index`: maps each item to the LAST position at which it occurs
   in `data`, since a later assignment overwrites an earlier one.
   */
  function GenerateDataIndex(data: seq<nat>): (m: map<nat, nat>)
    ensures forall i :: 0 <= i < |data| ==> data[i] in m
    ensures forall x :: x in m ==> m[x] < |data| && data[m[x]] == x
    ensures forall x, j :: x in m && m[x] < j < |data| ==> data[j] != x
    ensures Distinct(data) ==> |m| == |data|
    decreases |data|
  {
    if |data| == 0 then map[]
    else
      var front, last := data[..|data| - 1], data[|data| - 1];
      assert data == front + [last];
      assert forall x :: x in data <==> x in front || x == last;
      assert Distinct(data) ==> Distinct(front) && last !in front;
      GenerateDataIndex(front)[last := |data| - 1]
  }

  /** The keys of the index are exactly the items of `data`. */
  lemma IndexKeys(data: seq<nat>)
    ensures GenerateDataIndex(data).Keys == set x | x in data
  {
  }

  /** With distinct items, `data[i]` is stored at position `i`. */
  lemma DistinctIndex(data: seq<nat>, i: int)
    requires Distinct(data) && 0 <= i < |data|
    ensures data[i] in GenerateDataIndex(data) && GenerateDataIndex(data)[data[i]] == i
  {
  }

  /** `DisjointSet(data, mode)`: one entry of -1 per item, so every item is its own root. */
  function Init(data: seq<nat>, mode: string := "size"): (s: DisjointSet)
    ensures forall i :: 0 <= i < |data| ==> data[i] in s.indexData
    ensures forall x :: x in s.indexData ==> s.indexData[x] < |data| && data[s.indexData[x]] == x
    ensures |s.parentArray| == |data|
    ensures forall i :: 0 <= i < |data| ==> s.parentArray[i] == -1
    ensures Distinct(data) ==> |s.indexData| == |data|
    ensures Distinct(data) ==> forall i :: 0 <= i < |data| ==> s.indexData[data[i]] == i
    ensures s.mode == mode
    ensures WellFormed(s)
  {
    var s := DisjointSet(GenerateDataIndex(data), seq(|data|, _ => -1), mode);
    assert Distinct(data) ==> forall i :: 0 <= i < |data| ==> s.indexData[data[i]] == i by {
      if Distinct(data) {
        forall i | 0 <= i < |data| ensures s.indexData[data[i]] == i {
          DistinctIndex(data, i);
        }
      }
    }
    assert WellFormed(s) by {
      assert forall x {:trigger ParentIsItem(s, x)} :: ParentIsItem(s, x);
    }
    s
  }

  /** A state whose every entry is -1 is a forest of singleton trees, in either mode. */
  lemma SingletonsValid(s: DisjointSet)
    requires WellFormed(s)
    requires forall x :: x in s.indexData ==> Slot(s, x) == -1
    ensures Invariant(s)
    ensures forall x :: x in s.indexData ==> Find(s, x) == x && Members(s, x) == {x}
  {
    var d := map x | x in s.indexData :: 0;
    assert IsLevelMap(s, d);
    forall x | x in s.indexData
      ensures Find(s, x) == x && Depth(s, x) == 0 && Members(s, x) == {x}
    {
      assert IsRoot(s, x);
      forall y | y in Members(s, x) ensures y == x {
        assert IsRoot(s, y);
      }
      forall y | y in s.indexData ensures y !in Children(s, x) {
        assert IsRoot(s, y);
      }
      assert Children(s, x) == {};
      assert CountsWins(s, x);
    }
    assert SizeCounts(s) && HeightCounts(s) && WinsCounted(s);
  }

  /**
   A freshly built set satisfies the invariant of its mode, and each item is
   the root of a singleton class; repeated items are no exception.
   */
  lemma InitInvariant(data: seq<nat>, mode: string)
    ensures Invariant(Init(data, mode))
    ensures forall i :: 0 <= i < |data| ==> Find(Init(data, mode), data[i]) == data[i]
    ensures forall i :: 0 <= i < |data| ==> Members(Init(data, mode), data[i]) == {data[i]}
  {
    var s := Init(data, mode);
    SingletonsValid(s);
  }
}
