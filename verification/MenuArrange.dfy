/** FixupChildren on values: partition, stable sort, adjacent unique, renumber;
    and what the result is for a keyword's leaves and for a list's submenus. */
module MenuArrange {
  import opened Prelude
  import opened MenuOrder

  const WORD16 := 0x1_0000

  predicate Comparable(d: Names, ts: seq<Tree>) {
    forall i :: 0 <= i < |ts| ==> IsCategory(ts[i]) || IsLeaf(d, ts[i].info)
  }

  predicate IsLeafNode(d: Names, t: Tree) { !IsCategory(t) && IsLeaf(d, t.info) }

  predicate AllLeaves(d: Names, ts: seq<Tree>) {
    forall i :: 0 <= i < |ts| ==> IsLeafNode(d, ts[i])
  }

  predicate AllCategories(ts: seq<Tree>) {
    forall i :: 0 <= i < |ts| ==> IsCategory(ts[i])
  }

  // ---- The algorithms ----

  function Categories(ts: seq<Tree>): (r: seq<Tree>)
    ensures AllCategories(r)
  {
    if ts == [] then []
    else Categories(ts[..|ts| - 1]) + if IsCategory(ts[|ts| - 1]) then [ts[|ts| - 1]] else []
  }

  function Leaves(d: Names, ts: seq<Tree>): (r: seq<Tree>)
    requires Comparable(d, ts)
    ensures AllLeaves(d, r)
  {
    if ts == [] then []
    else Leaves(d, ts[..|ts| - 1]) + if IsCategory(ts[|ts| - 1]) then [] else [ts[|ts| - 1]]
  }

  /** Stable insertion: after every element that is not greater. */
  function Insert(d: Names, ts: seq<Tree>, t: Tree): (r: seq<Tree>)
    requires AllLeaves(d, ts) && IsLeafNode(d, t)
    ensures AllLeaves(d, r)
  {
    if ts == [] || !LeafLess(d, t.info, ts[|ts| - 1].info) then ts + [t]
    else Insert(d, ts[..|ts| - 1], t) + [ts[|ts| - 1]]
  }

  function StableSort(d: Names, ts: seq<Tree>): (r: seq<Tree>)
    requires AllLeaves(d, ts)
    ensures AllLeaves(d, r)
  {
    if ts == [] then [] else Insert(d, StableSort(d, ts[..|ts| - 1]), ts[|ts| - 1])
  }

  /** `std::unique` with `eq_t`: an element equal to the last one kept is left out. */
  function Unique(ts: seq<Tree>): (r: seq<Tree>)
    ensures ts != [] ==> r != []
  {
    if |ts| <= 1 then ts
    else
      var kept := Unique(ts[..|ts| - 1]);
      if kept[|kept| - 1].info == ts[|ts| - 1].info then kept else kept + [ts[|ts| - 1]]
  }

  function Numbered(t: Tree, i: nat): Tree { t.(column := i % WORD16) }

  function Number(ts: seq<Tree>): (r: seq<Tree>)
    ensures |r| == |ts|
    ensures forall i :: 0 <= i < |ts| ==> r[i] == Numbered(ts[i], i)
  {
    seq(|ts|, i requires 0 <= i < |ts| => Numbered(ts[i], i))
  }

  function Fixup(d: Names, ts: seq<Tree>): seq<Tree>
    requires Comparable(d, ts)
  {
    Number(Unique(Categories(ts) + StableSort(d, Leaves(d, ts))))
  }

  lemma NothingToArrange(d: Names)
    ensures Categories([]) == [] && Leaves(d, []) == [] && StableSort(d, []) == [] && Unique([]) == []
  {
  }

  /** Each algorithm, one element further. */
  lemma PartitionStep(d: Names, ts: seq<Tree>, i: nat)
    requires i < |ts| && Comparable(d, ts)
    ensures Categories(ts[..i + 1]) == Categories(ts[..i]) + if IsCategory(ts[i]) then [ts[i]] else []
    ensures Leaves(d, ts[..i + 1]) == Leaves(d, ts[..i]) + if IsCategory(ts[i]) then [] else [ts[i]]
  {
    hide IsLeaf;
    assert ts[..i + 1][..i] == ts[..i];
  }

  lemma InsertStep(d: Names, ts: seq<Tree>, t: Tree)
    requires AllLeaves(d, ts) && IsLeafNode(d, t)
    ensures Insert(d, [], t) == [t]
    ensures ts != [] ==>
      var n := |ts| - 1;
      && AllLeaves(d, ts[..n]) && IsLeafNode(d, ts[n])
      && Insert(d, ts, t) == if LeafLess(d, t.info, ts[n].info) then Insert(d, ts[..n], t) + [ts[n]] else ts + [t]
  {
    hide IsLeaf, LeafLess;
  }

  lemma SortStep(d: Names, ts: seq<Tree>, i: nat)
    requires i < |ts| && AllLeaves(d, ts)
    ensures StableSort(d, ts[..i + 1]) == Insert(d, StableSort(d, ts[..i]), ts[i])
  {
    hide IsLeaf, Insert;
    assert ts[..i + 1][..i] == ts[..i];
  }

  lemma UniqueStep(ts: seq<Tree>, i: nat)
    requires i < |ts|
    ensures Unique(ts[..i + 1]) ==
      var u := Unique(ts[..i]);
      if u != [] && u[|u| - 1].info == ts[i].info then u else u + [ts[i]]
  {
    assert ts[..i + 1][..i] == ts[..i];
  }

  // ---- A keyword's leaves ----

  ghost predicate SortedLeaves(d: Names, ts: seq<Tree>) {
    && AllLeaves(d, ts)
    && forall i, j :: 0 <= i < j < |ts| ==> !LeafLess(d, ts[j].info, ts[i].info)
  }

  lemma {:induction false} InsertAdds(d: Names, ts: seq<Tree>, t: Tree)
    requires AllLeaves(d, ts) && IsLeafNode(d, t)
    ensures multiset(Insert(d, ts, t)) == multiset(ts) + multiset{t}
  {
    hide LeafLess, IsLeaf;
    if ts == [] {
    } else {
      InsertAdds(d, ts[..|ts| - 1], t);
      assert ts == ts[..|ts| - 1] + [ts[|ts| - 1]];
    }
  }

  lemma SortedAppend(d: Names, ts: seq<Tree>, t: Tree)
    requires SortedLeaves(d, ts) && IsLeafNode(d, t)
    requires forall i :: 0 <= i < |ts| ==> !LeafLess(d, t.info, ts[i].info)
    ensures SortedLeaves(d, ts + [t])
  {
    hide LeafLess, IsLeaf;
  }

  lemma NotLessThanAny(d: Names, ts: seq<Tree>, t: Tree)
    requires SortedLeaves(d, ts) && IsLeafNode(d, t)
    requires ts != [] ==> !LeafLess(d, t.info, ts[|ts| - 1].info)
    ensures forall i :: 0 <= i < |ts| ==> !LeafLess(d, t.info, ts[i].info)
  {
    hide LeafLess, IsLeaf;
    forall i | 0 <= i < |ts|
      ensures !LeafLess(d, t.info, ts[i].info)
    {
      assert IsLeafNode(d, ts[i]);
      LeafOrder(d, t.info, ts[|ts| - 1].info, ts[i].info);
    }
  }

  lemma InsertBelow(d: Names, before: seq<Tree>, t: Tree, last: Tree)
    requires SortedLeaves(d, before + [last]) && IsLeafNode(d, t) && AllLeaves(d, before)
    requires IsLeafNode(d, last) && LeafLess(d, t.info, last.info)
    ensures forall i :: 0 <= i < |Insert(d, before, t)| ==> !LeafLess(d, last.info, Insert(d, before, t)[i].info)
  {
    hide LeafLess, IsLeaf, Insert;
    InsertAdds(d, before, t);
    LeafOrder(d, t.info, last.info, t.info);
    LeafOrder(d, last.info, t.info, last.info);
    forall i | 0 <= i < |Insert(d, before, t)|
      ensures !LeafLess(d, last.info, Insert(d, before, t)[i].info)
    {
      var x := Insert(d, before, t)[i];
      assert x in multiset(Insert(d, before, t));
      if x != t {
        var k :| 0 <= k < |before| && before[k] == x;
        var all := before + [last];
        assert all[k] == x && all[|before|] == last && !LeafLess(d, all[|before|].info, all[k].info);
      }
    }
  }

  lemma {:induction false} InsertSorts(d: Names, ts: seq<Tree>, t: Tree)
    requires SortedLeaves(d, ts) && IsLeafNode(d, t)
    ensures SortedLeaves(d, Insert(d, ts, t))
  {
    hide LeafLess, IsLeaf;
    if ts == [] || !LeafLess(d, t.info, ts[|ts| - 1].info) {
      NotLessThanAny(d, ts, t);
      SortedAppend(d, ts, t);
    } else {
      var before, last := ts[..|ts| - 1], ts[|ts| - 1];
      assert ts == before + [last];
      InsertSorts(d, before, t);
      InsertBelow(d, before, t, last);
      SortedAppend(d, Insert(d, before, t), last);
    }
  }

  lemma {:induction false} StableSortSorts(d: Names, ts: seq<Tree>)
    requires AllLeaves(d, ts)
    ensures SortedLeaves(d, StableSort(d, ts))
    ensures multiset(StableSort(d, ts)) == multiset(ts)
  {
    hide LeafLess, IsLeaf, Insert;
    if ts == [] {
    } else {
      var before, last := ts[..|ts| - 1], ts[|ts| - 1];
      StableSortSorts(d, before);
      InsertSorts(d, StableSort(d, before), last);
      InsertAdds(d, StableSort(d, before), last);
      assert ts == before + [last];
    }
  }

  ghost predicate StrictlySorted(d: Names, ts: seq<Tree>) {
    && AllLeaves(d, ts)
    && forall i, j :: 0 <= i < j < |ts| ==> LeafLess(d, ts[i].info, ts[j].info)
  }

  predicate HasInfo(ts: seq<Tree>, info: Info) {
    exists i :: 0 <= i < |ts| && ts[i].info == info
  }

  lemma {:induction false} UniqueKeepsInfos(ts: seq<Tree>)
    ensures forall info :: HasInfo(Unique(ts), info) <==> HasInfo(ts, info)
    ensures ts != [] ==> Unique(ts)[|Unique(ts)| - 1].info == ts[|ts| - 1].info
  {
    if |ts| <= 1 {
    } else {
      var before, last := ts[..|ts| - 1], ts[|ts| - 1];
      UniqueKeepsInfos(before);
      var kept := Unique(before);
      assert ts == before + [last];
      HasInfoAppend(before, last);
      HasInfoAppend(kept, last);
      assert HasInfo(kept, kept[|kept| - 1].info);
    }
  }

  /** On a sorted range the adjacent pass removes every duplicate. */
  lemma {:induction false} UniqueOfSorted(d: Names, ts: seq<Tree>)
    requires SortedLeaves(d, ts)
    ensures StrictlySorted(d, Unique(ts))
  {
    hide LeafLess, IsLeaf;
    if |ts| <= 1 {
    } else {
      var before, last := ts[..|ts| - 1], ts[|ts| - 1];
      UniqueOfSorted(d, before);
      UniqueKeepsInfos(before);
      if before[|before| - 1].info != last.info {
        AppendGreatest(d, Unique(before), before[|before| - 1], last);
      }
    }
  }

  lemma AppendGreatest(d: Names, kept: seq<Tree>, end: Tree, last: Tree)
    requires StrictlySorted(d, kept) && kept != [] && kept[|kept| - 1].info == end.info
    requires IsLeafNode(d, last) && !LeafLess(d, last.info, end.info) && end.info != last.info
    ensures StrictlySorted(d, kept + [last])
  {
    hide LeafLess, IsLeaf;
    assert IsLeafNode(d, kept[|kept| - 1]);
    forall i | 0 <= i < |kept|
      ensures LeafLess(d, kept[i].info, last.info)
    {
      assert IsLeafNode(d, kept[i]);
      LeafOrder(d, end.info, last.info, last.info);
      LeafOrder(d, kept[i].info, end.info, last.info);
    }
  }

  lemma HasInfoAppend(ts: seq<Tree>, t: Tree)
    ensures forall info :: HasInfo(ts + [t], info) <==> HasInfo(ts, info) || t.info == info
  {
    forall info
      ensures HasInfo(ts + [t], info) <==> HasInfo(ts, info) || t.info == info
    {
      if i :| 0 <= i < |ts| && ts[i].info == info {
        assert (ts + [t])[i].info == info;
      } else if t.info == info {
        assert (ts + [t])[|ts|].info == info;
      }
    }
  }

  lemma {:induction false} NoCategories(d: Names, ts: seq<Tree>)
    requires AllLeaves(d, ts)
    ensures Categories(ts) == []
  {
    hide IsLeaf;
    if ts == [] {
    } else {
      NoCategories(d, ts[..|ts| - 1]);
    }
  }

  lemma LeavesAreComparable(d: Names, ts: seq<Tree>)
    requires AllLeaves(d, ts)
    ensures Comparable(d, ts)
  {
    hide IsLeaf;
    assert forall i :: 0 <= i < |ts| ==> IsLeafNode(d, ts[i]);
  }

  lemma {:induction false} LeavesOnly(d: Names, ts: seq<Tree>)
    requires AllLeaves(d, ts)
    ensures Comparable(d, ts) && Leaves(d, ts) == ts
  {
    hide IsLeaf, Leaves;
    LeavesAreComparable(d, ts);
    var n := |ts|;
    NothingToArrange(d);
    if ts == [] {
    } else {
      LeavesOnly(d, ts[..n - 1]);
      PartitionStep(d, ts, n - 1);
      assert ts[..n - 1 + 1] == ts == ts[..n - 1] + [ts[n - 1]];
    }
  }

  lemma FixupSorts(d: Names, ts: seq<Tree>)
    requires AllLeaves(d, ts)
    ensures Comparable(d, ts) && Fixup(d, ts) == Number(Unique(StableSort(d, ts)))
  {
    hide IsLeaf, LeafLess, StableSort, Unique;
    LeavesOnly(d, ts);
    NoCategories(d, ts);
    assert [] + StableSort(d, ts) == StableSort(d, ts);
  }

  lemma NumberKeepsOrder(d: Names, u: seq<Tree>)
    requires StrictlySorted(d, u)
    ensures StrictlySorted(d, Number(u))
    ensures forall i, j :: 0 <= i < j < |u| ==> Number(u)[i].info != Number(u)[j].info
  {
    hide LeafLess, IsLeaf;
    forall i, j | 0 <= i < j < |u|
      ensures u[i].info != u[j].info
    {
      assert IsLeafNode(d, u[i]) && IsLeafNode(d, u[j]);
      LeafOrder(d, u[i].info, u[j].info, u[j].info);
    }
    forall i | 0 <= i < |u|
      ensures IsLeafNode(d, Number(u)[i])
    {
      assert IsLeafNode(d, u[i]);
    }
  }

  // ---- Which of several equal leaves is kept ----

  /** The first node with this data. */
  function FirstWith(ts: seq<Tree>, info: Info): Option<Tree> {
    if ts == [] then None
    else
      var first := FirstWith(ts[..|ts| - 1], info);
      if first.Some? then first
      else if ts[|ts| - 1].info == info then Some(ts[|ts| - 1])
      else None
  }

  lemma {:induction false} FirstWithIsFirst(ts: seq<Tree>, info: Info)
    ensures FirstWith(ts, info).None? ==> !HasInfo(ts, info)
    ensures FirstWith(ts, info).Some? ==>
      exists k :: 0 <= k < |ts| && ts[k] == FirstWith(ts, info).value && ts[k].info == info && !HasInfo(ts[..k], info)
  {
    if ts == [] {
    } else {
      var n := |ts| - 1;
      FirstWithIsFirst(ts[..n], info);
      if FirstWith(ts[..n], info).Some? {
        var k :| 0 <= k < n && ts[..n][k] == FirstWith(ts, info).value && ts[..n][k].info == info && !HasInfo(ts[..n][..k], info);
        assert ts[..n][..k] == ts[..k] && ts[k] == ts[..n][k];
      } else {
        HasInfoAppend(ts[..n], ts[n]);
        assert ts == ts[..n] + [ts[n]];
      }
    }
  }

  lemma FirstWithAppend(ts: seq<Tree>, t: Tree, info: Info)
    ensures FirstWith(ts + [t], info) ==
      if FirstWith(ts, info).Some? then FirstWith(ts, info) else if t.info == info then Some(t) else None
  {
    assert (ts + [t])[..|ts|] == ts;
  }

  /** A stable insertion comes after every equal node, so it changes no first. */
  lemma {:induction false} InsertKeepsFirst(d: Names, ts: seq<Tree>, t: Tree, info: Info)
    requires AllLeaves(d, ts) && IsLeafNode(d, t)
    ensures FirstWith(Insert(d, ts, t), info) == FirstWith(ts + [t], info)
  {
    hide LeafLess, IsLeaf, FirstWith;
    if ts == [] || !LeafLess(d, t.info, ts[|ts| - 1].info) {
    } else {
      var front, last := ts[..|ts| - 1], ts[|ts| - 1];
      LeafOrder(d, t.info, last.info, t.info);
      InsertKeepsFirst(d, front, t, info);
      FirstWithAppend(Insert(d, front, t), last, info);
      FirstWithAppend(front, t, info);
      FirstWithAppend(front, last, info);
      FirstWithAppend(ts, t, info);
      assert ts == front + [last];
    }
  }

  lemma {:induction false} SortKeepsFirst(d: Names, ts: seq<Tree>, info: Info)
    requires AllLeaves(d, ts)
    ensures FirstWith(StableSort(d, ts), info) == FirstWith(ts, info)
  {
    hide LeafLess, IsLeaf, FirstWith;
    if ts == [] {
    } else {
      var front, last := ts[..|ts| - 1], ts[|ts| - 1];
      SortKeepsFirst(d, front, info);
      InsertKeepsFirst(d, StableSort(d, front), last, info);
      FirstWithAppend(StableSort(d, front), last, info);
      FirstWithAppend(front, last, info);
      assert ts == front + [last];
    }
  }

  lemma {:induction false} UniqueKeepsFirst(ts: seq<Tree>, info: Info)
    ensures FirstWith(Unique(ts), info) == FirstWith(ts, info)
  {
    hide FirstWith;
    if |ts| <= 1 {
    } else {
      var front, last := ts[..|ts| - 1], ts[|ts| - 1];
      var kept := Unique(front);
      UniqueKeepsFirst(front, info);
      FirstWithAppend(kept, last, info);
      FirstWithAppend(front, last, info);
      assert ts == front + [last] && kept == kept[..|kept| - 1] + [kept[|kept| - 1]];
      FirstWithAppend(kept[..|kept| - 1], kept[|kept| - 1], info);
    }
  }

  lemma {:induction false} DistinctAreFirst(u: seq<Tree>, i: nat)
    requires i < |u| && forall j, k :: 0 <= j < k < |u| ==> u[j].info != u[k].info
    ensures FirstWith(u, u[i].info) == Some(u[i])
  {
    var front, last := u[..|u| - 1], u[|u| - 1];
    assert u == front + [last];
    FirstWithAppend(front, last, u[i].info);
    if i < |u| - 1 {
      DistinctAreFirst(front, i);
    } else {
      FirstWithIsFirst(front, last.info);
    }
  }

  /** Of several equal leaves the one created first is kept, with its id. */
  lemma FixupKeepsFirst(d: Names, ts: seq<Tree>, i: nat)
    requires AllLeaves(d, ts) && Comparable(d, ts) && i < |Fixup(d, ts)|
    ensures var kept := Fixup(d, ts)[i];
      FirstWith(ts, kept.info).Some? && kept == Numbered(FirstWith(ts, kept.info).value, i)
  {
    hide LeafLess, IsLeaf, StableSort, Unique, Fixup, FirstWith, StrictlySorted, SortedLeaves;
    var sorted := StableSort(d, ts);
    var u := Unique(sorted);
    FixupSorts(d, ts);
    StableSortSorts(d, ts);
    UniqueOfSorted(d, sorted);
    NumberKeepsOrder(d, u);
    forall j, k | 0 <= j < k < |u|
      ensures u[j].info != u[k].info
    {
      assert Number(u)[j].info != Number(u)[k].info;
    }
    DistinctAreFirst(u, i);
    UniqueKeepsFirst(sorted, u[i].info);
    SortKeepsFirst(d, ts, u[i].info);
  }

  /** Each leaf comes before all later ones, by priority, name, recipe id and list
      position. */
  ghost predicate InMenuOrder(d: Names, ts: seq<Tree>) {
    && (forall i :: 0 <= i < |ts| ==> ts[i].info.recipe.Some?)
    && (forall i, j :: 0 <= i < j < |ts| ==> LeafBefore(d, ts[i].info, ts[j].info))
  }

  lemma SortedInMenuOrder(d: Names, ts: seq<Tree>)
    requires StrictlySorted(d, ts)
    ensures InMenuOrder(d, ts)
  {
    hide LeafLess, LeafBefore, IsLeaf;
    forall i | 0 <= i < |ts|
      ensures ts[i].info.recipe.Some?
    {
      assert IsLeafNode(d, ts[i]);
      LeafHasRecipe(d, ts[i].info);
    }
    forall i, j | 0 <= i < j < |ts|
      ensures LeafBefore(d, ts[i].info, ts[j].info)
    {
      assert IsLeafNode(d, ts[i]) && IsLeafNode(d, ts[j]);
      LeafLessMeans(d, ts[i].info, ts[j].info);
    }
  }

  lemma LeafHasRecipe(d: Names, i: Info)
    requires IsLeaf(d, i)
    ensures i.recipe.Some?
  {
  }

  /** FixupChildren on a keyword's leaves: the result is strictly increasing, so
      no two children are equal anywhere, it has exactly the leaves there were,
      and columns count siblings. */
  lemma FixupOfLeaves(d: Names, ts: seq<Tree>)
    requires AllLeaves(d, ts)
    ensures Comparable(d, ts) && StrictlySorted(d, Fixup(d, ts)) && InMenuOrder(d, Fixup(d, ts))
    ensures forall i, j :: 0 <= i < j < |Fixup(d, ts)| ==> Fixup(d, ts)[i].info != Fixup(d, ts)[j].info
    ensures forall info :: HasInfo(Fixup(d, ts), info) <==> HasInfo(ts, info)
    ensures forall i :: 0 <= i < |Fixup(d, ts)| ==> Fixup(d, ts)[i].column == i % 0x1_0000
  {
    hide LeafLess, IsLeaf, StableSort, Unique, Fixup, HasInfo, StrictlySorted, SortedLeaves, InMenuOrder;
    var sorted := StableSort(d, ts);
    FixupSorts(d, ts);
    StableSortSorts(d, ts);
    UniqueOfSorted(d, sorted);
    UniqueKeepsInfos(sorted);
    NumberKeepsOrder(d, Unique(sorted));
    SortedInMenuOrder(d, Fixup(d, ts));
    forall info
      ensures HasInfo(Fixup(d, ts), info) <==> HasInfo(ts, info)
    {
      SameMembers(ts, sorted, info);
      NumberKeepsInfo(Unique(sorted), info);
    }
  }

  lemma SameMembers(a: seq<Tree>, b: seq<Tree>, info: Info)
    requires multiset(a) == multiset(b)
    ensures HasInfo(a, info) <==> HasInfo(b, info)
  {
    if i :| 0 <= i < |a| && a[i].info == info {
      assert a[i] in multiset(b);
    }
    if i :| 0 <= i < |b| && b[i].info == info {
      assert b[i] in multiset(a);
    }
  }

  lemma NumberKeepsInfo(ts: seq<Tree>, info: Info)
    ensures HasInfo(Number(ts), info) <==> HasInfo(ts, info)
  {
    if i :| 0 <= i < |ts| && ts[i].info == info {
      assert Number(ts)[i].info == info;
    }
    if i :| 0 <= i < |Number(ts)| && Number(ts)[i].info == info {
      assert ts[i].info == info;
    }
  }

  // ---- A list's submenus ----

  lemma {:induction false} CategoriesOnly(d: Names, ts: seq<Tree>)
    requires AllCategories(ts)
    ensures Comparable(d, ts) && Categories(ts) == ts && Leaves(d, ts) == []
  {
    hide IsLeaf, Leaves, Categories;
    var n := |ts|;
    NothingToArrange(d);
    if ts == [] {
    } else {
      CategoriesOnly(d, ts[..n - 1]);
      PartitionStep(d, ts, n - 1);
      assert ts[..n - 1 + 1] == ts == ts[..n - 1] + [ts[n - 1]];
    }
  }

  /** Each submenu that differs from the one just before it, in order. */
  function FirstOfRuns(ts: seq<Tree>): seq<Tree> {
    if |ts| <= 1 then ts
    else
      FirstOfRuns(ts[..|ts| - 1]) +
      if ts[|ts| - 2].info == ts[|ts| - 1].info then [] else [ts[|ts| - 1]]
  }

  lemma {:induction false} UniqueKeepsFirstOfRuns(ts: seq<Tree>)
    ensures Unique(ts) == FirstOfRuns(ts)
    ensures ts != [] ==> Unique(ts)[|Unique(ts)| - 1].info == ts[|ts| - 1].info
  {
    if |ts| <= 1 {
    } else {
      UniqueKeepsFirstOfRuns(ts[..|ts| - 1]);
    }
  }

  ghost predicate NoAdjacentEqual(ts: seq<Tree>) {
    forall i :: 0 <= i < |ts| - 1 ==> ts[i].info != ts[i + 1].info
  }

  lemma {:induction false} UniqueIsDone(ts: seq<Tree>)
    requires NoAdjacentEqual(ts)
    ensures Unique(ts) == ts
  {
    if |ts| <= 1 {
    } else {
      var before := ts[..|ts| - 1];
      assert NoAdjacentEqual(before);
      UniqueIsDone(before);
      assert ts[|ts| - 2].info != ts[|ts| - 2 + 1].info;
      assert ts == before + [ts[|ts| - 1]];
    }
  }

  lemma {:induction false} UniqueHasNoAdjacent(ts: seq<Tree>)
    ensures NoAdjacentEqual(Unique(ts))
  {
    if |ts| <= 1 {
    } else {
      UniqueHasNoAdjacent(ts[..|ts| - 1]);
    }
  }

  lemma {:induction false} UniqueSubset(ts: seq<Tree>)
    ensures forall i :: 0 <= i < |Unique(ts)| ==> Unique(ts)[i] in ts
  {
    if |ts| <= 1 {
    } else {
      UniqueSubset(ts[..|ts| - 1]);
    }
  }

  lemma UniqueOfCategories(ts: seq<Tree>)
    requires AllCategories(ts)
    ensures AllCategories(Unique(ts)) && AllCategories(Number(Unique(ts)))
  {
    UniqueSubset(ts);
    forall i | 0 <= i < |Unique(ts)|
      ensures IsCategory(Unique(ts)[i])
    {
      assert Unique(ts)[i] in ts;
    }
  }

  lemma FixupOfCategories(d: Names, ts: seq<Tree>)
    requires AllCategories(ts)
    ensures Comparable(d, ts) && Fixup(d, ts) == Number(Unique(ts))
  {
    CategoriesOnly(d, ts);
    assert ts + [] == ts;
  }

  lemma UniqueAppend(ts: seq<Tree>, t: Tree)
    ensures Unique(ts + [t]) ==
      var u := Unique(ts);
      if u != [] && u[|u| - 1].info == t.info then u else u + [t]
  {
    assert (ts + [t])[..|ts|] == ts;
  }

  lemma NumberedIsUnique(ts: seq<Tree>)
    ensures Unique(Number(Unique(ts))) == Number(Unique(ts))
    ensures Number(Number(Unique(ts))) == Number(Unique(ts))
  {
    UniqueHasNoAdjacent(ts);
    var u, n := Unique(ts), Number(Unique(ts));
    forall i | 0 <= i < |n| - 1
      ensures n[i].info != n[i + 1].info
    {
      assert u[i].info != u[i + 1].info;
    }
    UniqueIsDone(n);
  }

  /** Fixing up what is already fixed up changes nothing. */
  lemma FixupIsIdempotent(d: Names, ts: seq<Tree>)
    requires AllCategories(ts)
    ensures AllCategories(Number(Unique(ts))) && Comparable(d, Number(Unique(ts)))
    ensures Fixup(d, Number(Unique(ts))) == Number(Unique(ts))
  {
    hide IsLeaf, Unique;
    UniqueOfCategories(ts);
    NumberedIsUnique(ts);
    FixupOfCategories(d, Number(Unique(ts)));
  }

  /** Fixing up after appending one submenu gives what collapsing once at the end
      would. */
  lemma FixupIsIncremental(d: Names, ts: seq<Tree>, t: Tree)
    requires AllCategories(ts) && IsCategory(t)
    ensures Comparable(d, Number(Unique(ts)) + [t])
    ensures Fixup(d, Number(Unique(ts)) + [t]) == Number(Unique(ts + [t]))
  {
    hide IsLeaf, Unique, Fixup;
    var u, n := Unique(ts), Number(Unique(ts));
    UniqueOfCategories(ts);
    NumberedIsUnique(ts);
    FixupOfCategories(d, n + [t]);
    UniqueAppend(ts, t);
    UniqueAppend(n, t);
    if u == [] || u[|u| - 1].info != t.info {
      assert Number(n + [t]) == Number(u + [t]);
    }
  }

  // ---- Submenus and leaves mixed ----

  /** `part` lists the submenus of `ts` (or the others) in their old order, at the
      positions `pos`. */
  ghost predicate Picks(part: seq<Tree>, pos: seq<nat>, ts: seq<Tree>, categories: bool) {
    && |part| == |pos|
    && (forall i :: 0 <= i < |pos| ==> pos[i] < |ts| && part[i] == ts[pos[i]] && IsCategory(part[i]) == categories)
    && (forall i, j :: 0 <= i < j < |pos| ==> pos[i] < pos[j])
    && (forall k :: 0 <= k < |ts| && IsCategory(ts[k]) == categories ==> k in pos)
  }

  lemma PicksSkip(part: seq<Tree>, pos: seq<nat>, ts: seq<Tree>, t: Tree, categories: bool)
    requires Picks(part, pos, ts, categories) && IsCategory(t) != categories
    ensures Picks(part, pos, ts + [t], categories)
  {
    hide IsCategory;
    forall k | 0 <= k < |ts + [t]| && IsCategory((ts + [t])[k]) == categories
      ensures k in pos
    {
      assert IsCategory(ts[k]) == categories;
    }
  }

  lemma PicksTake(part: seq<Tree>, pos: seq<nat>, ts: seq<Tree>, t: Tree, categories: bool)
    requires Picks(part, pos, ts, categories) && IsCategory(t) == categories
    ensures Picks(part + [t], pos + [|ts|], ts + [t], categories)
  {
    hide IsCategory;
    var pos' := pos + [|ts|];
    assert pos'[|pos|] == |ts|;
    forall k | 0 <= k < |ts + [t]| && IsCategory((ts + [t])[k]) == categories
      ensures k in pos'
    {
      if k < |ts| {
        assert IsCategory(ts[k]) == categories && k in pos;
        assert forall i :: 0 <= i < |pos| ==> pos'[i] == pos[i];
      }
    }
  }

  lemma PicksPush(part: seq<Tree>, pos: seq<nat>, ts: seq<Tree>, t: Tree, categories: bool) returns (pos': seq<nat>)
    requires Picks(part, pos, ts, categories)
    ensures Picks(part + if IsCategory(t) == categories then [t] else [], pos', ts + [t], categories)
  {
    hide Picks, IsCategory;
    if IsCategory(t) == categories {
      pos' := pos + [|ts|];
      PicksTake(part, pos, ts, t, categories);
    } else {
      pos' := pos;
      PicksSkip(part, pos, ts, t, categories);
      assert part + [] == part;
    }
  }

  /** The partition is stable: each part lists its nodes in their old order. */
  lemma {:induction false} PartitionIsStable(d: Names, ts: seq<Tree>) returns (cats: seq<nat>, leaves: seq<nat>)
    requires Comparable(d, ts)
    ensures Picks(Categories(ts), cats, ts, true) && Picks(Leaves(d, ts), leaves, ts, false)
  {
    hide IsLeaf, Picks, Categories, Leaves;
    var n := |ts|;
    if ts == [] {
      cats, leaves := [], [];
      NothingToArrange(d);
      NothingPicked();
    } else {
      var front, last := ts[..n - 1], ts[n - 1];
      assert ts == front + [last] && ts[..n - 1 + 1] == ts;
      cats, leaves := PartitionIsStable(d, front);
      PartitionStep(d, ts, n - 1);
      cats := PicksPush(Categories(front), cats, front, last, true);
      leaves := PicksPush(Leaves(d, front), leaves, front, last, false);
    }
  }

  lemma NothingPicked()
    ensures Picks([], [], [], true) && Picks([], [], [], false)
  {
  }

  lemma {:induction false} PartitionKeepsAll(d: Names, ts: seq<Tree>)
    requires Comparable(d, ts)
    ensures multiset(Categories(ts)) + multiset(Leaves(d, ts)) == multiset(ts)
  {
    hide IsLeaf, IsCategory;
    if ts == [] {
    } else {
      PartitionKeepsAll(d, ts[..|ts| - 1]);
      assert ts == ts[..|ts| - 1] + [ts[|ts| - 1]];
    }
  }

  /** FixupChildren on any list: the submenus come first, with the first of each run
      of equal neighbours kept in list order, then the leaves in menu order. */
  lemma FixupOfAny(d: Names, ts: seq<Tree>) returns (cats: seq<Tree>, pos: seq<nat>, leaves: seq<Tree>)
    requires Comparable(d, ts)
    ensures Picks(cats, pos, ts, true)
    ensures Fixup(d, ts) == Number(FirstOfRuns(cats) + leaves)
    ensures InMenuOrder(d, leaves) && forall i :: 0 <= i < |leaves| ==> leaves[i].children == [] && leaves[i] in ts
  {
    hide IsLeaf, LeafLess, Unique, StrictlySorted, SortedLeaves, StableSort, Categories, Leaves, InMenuOrder;
    var at;
    pos, at := PartitionIsStable(d, ts);
    cats := Categories(ts);
    var sorted := StableSort(d, Leaves(d, ts));
    StableSortSorts(d, Leaves(d, ts));
    leaves := UniqueOfParts(d, cats, sorted);
    UniqueKeepsFirstOfRuns(cats);
    SortedInMenuOrder(d, leaves);
    forall i | 0 <= i < |leaves|
      ensures leaves[i].children == [] && leaves[i] in ts
    {
      assert leaves[i] in sorted && leaves[i] in multiset(sorted);
      assert leaves[i] in Leaves(d, ts);
      var k :| 0 <= k < |Leaves(d, ts)| && Leaves(d, ts)[k] == leaves[i];
      assert leaves[i] == ts[at[k]];
    }
  }

  /** And it loses no node's data and adds none. */
  lemma FixupKeepsInfos(d: Names, ts: seq<Tree>, info: Info)
    requires Comparable(d, ts)
    ensures HasInfo(Fixup(d, ts), info) <==> HasInfo(ts, info)
  {
    hide HasInfo, IsLeaf, LeafLess, Unique, SortedLeaves, StableSort, Categories, Leaves;
    var all := Categories(ts) + StableSort(d, Leaves(d, ts));
    PartitionKeepsAll(d, ts);
    StableSortSorts(d, Leaves(d, ts));
    SameMembers(ts, all, info);
    UniqueKeepsInfos(all);
    NumberKeepsInfo(Unique(all), info);
  }

  /** Collapsing submenus followed by sorted leaves keeps that shape. */
  lemma {:induction false} UniqueOfParts(d: Names, cats: seq<Tree>, leaves: seq<Tree>) returns (kept: seq<Tree>)
    requires SortedLeaves(d, leaves)
    ensures Unique(cats + leaves) == Unique(cats) + kept && StrictlySorted(d, kept)
    ensures cats + leaves != [] ==> Unique(cats + leaves)[|Unique(cats + leaves)| - 1].info == (cats + leaves)[|cats + leaves| - 1].info
    ensures forall i :: 0 <= i < |kept| ==> kept[i] in leaves
    ensures leaves == [] ==> kept == []
    ensures kept != [] ==> kept[|kept| - 1].info == leaves[|leaves| - 1].info
    decreases |leaves|
  {
    hide LeafLess, IsLeaf, Unique;
    if leaves == [] {
      kept := [];
      assert cats + leaves == cats;
      UniqueKeepsFirstOfRuns(cats);
    } else {
      var front, last := leaves[..|leaves| - 1], leaves[|leaves| - 1];
      assert cats + leaves == (cats + front) + [last];
      var before := UniqueOfParts(d, cats, front);
      UniqueAppend(cats + front, last);
      var u := Unique(cats + front);
      if u != [] && u[|u| - 1].info == last.info {
        kept := before;
        assert kept != [] ==> u[|u| - 1] == kept[|kept| - 1];
      } else {
        kept := before + [last];
        if before != [] {
          var end := before[|before| - 1];
          assert u[|u| - 1] == end && end in front;
          var m :| 0 <= m < |front| && front[m] == end;
          assert leaves[m] == end && !LeafLess(d, leaves[|leaves| - 1].info, leaves[m].info);
          AppendGreatest(d, before, end, last);
        }
      }
    }
  }
}
