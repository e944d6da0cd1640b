/** The in-place menu builder: nodes are objects with parent pointers, children
    are appended, popped, rearranged and renumbered, and the id counter is the
    root's own id field. Its result is the tree of module MenuTree. */
module MenuBuilder {
  import opened Prelude
  import opened MenuOrder
  import opened MenuArrange
  import opened MenuTree
  import opened MenuContents

  type Nodes = set<MenuNode>

  /** The tree that a node shows, for each node noted down. */
  type Notes = map<MenuNode, Tree>

  class MenuNode {
    var parent: MenuNode?
    var children: seq<MenuNode>
    var uniqueID: nat
    var row: nat
    var column: nat
    var info: Info
    ghost var footprint: set<MenuNode>  // this node and its descendants

    constructor ()
      ensures children == [] && parent == null && column == 0
      ensures info == Info(None, None, None, None) && footprint == {this}
    {
      parent, children, uniqueID, row, column := null, [], 0, 0, 0;
      info, footprint := Info(None, None, None, None), {this};
    }

    /** The objects below this node form exactly the tree `t`, every child points
        back to its parent, and no node is in two places. */
    ghost predicate Shows(t: Tree)
      reads this, footprint
      decreases t
    {
      && this in footprint
      && t.uid == uniqueID && t.row == row && t.column == column && t.info == info
      && |t.children| == |children|
      && (forall i :: 0 <= i < |children| ==>
            && children[i] in footprint && children[i].footprint <= footprint && this !in children[i].footprint
            && children[i].parent == this
            && children[i].Shows(t.children[i]))
      && (forall i, j :: 0 <= i < j < |children| ==> children[i].footprint !! children[j].footprint)
    }
  }

  /** The tree that `m` notes down for a node. */
  ghost function TreeOf(c: MenuNode, m: Notes): Tree {
    if c in m then m[c] else Tree(0, 0, 0, Info(None, None, None, None), [])
  }

  ghost function TreesOf(cs: seq<MenuNode>, m: Notes): (ts: seq<Tree>)
    ensures |ts| == |cs|
    ensures forall i :: 0 <= i < |cs| ==> ts[i] == TreeOf(cs[i], m)
  {
    seq(|cs|, i requires 0 <= i < |cs| => TreeOf(cs[i], m))
  }

  /** Each node of `cs` shows its tree in `m`, and lies in the territory `o`
      together with everything below it. */
  ghost predicate AllShow(o: Nodes, cs: seq<MenuNode>, m: Notes)
    reads o
  {
    forall c :: c in cs ==> c in o && c.footprint <= o && c.Shows(TreeOf(c, m))
  }

  /** The nodes are moreover distinct children of `parent` and share nothing. */
  ghost predicate Family(parent: MenuNode, o: Nodes, cs: seq<MenuNode>, m: Notes)
    reads o
  {
    && parent !in o
    && AllShow(o, cs, m)
    && (forall i, j :: 0 <= i < j < |cs| ==> cs[i] != cs[j])
    && (forall c :: c in cs ==> c.parent == parent)
    && (forall c, e :: c in cs && e in cs && c != e ==> c.footprint !! e.footprint)
  }

  // ---- FixupChildren ----

  lemma ShownFields(c: MenuNode, t: Tree)
    requires c.Shows(t)
    ensures c.info == t.info && (c.children != [] <==> IsCategory(t))
  {
  }

  lemma ShowFront(o: Nodes, cs: seq<MenuNode>, m: Notes)
    requires AllShow(o, cs, m) && cs != []
    ensures AllShow(o, cs[..|cs| - 1], m) && AllShow(o, [cs[|cs| - 1]], m)
    ensures TreesOf(cs[..|cs| - 1], m) == TreesOf(cs, m)[..|cs| - 1] && cs[|cs| - 1].info == TreesOf(cs, m)[|cs| - 1].info
  {
    hide MenuNode.Shows;
    assert cs[|cs| - 1] in cs;
    ShownFields(cs[|cs| - 1], TreeOf(cs[|cs| - 1], m));
  }

  lemma ShowAppend(o: Nodes, cs: seq<MenuNode>, c: MenuNode, m: Notes)
    requires AllShow(o, cs, m) && AllShow(o, [c], m)
    ensures AllShow(o, cs + [c], m) && TreesOf(cs + [c], m) == TreesOf(cs, m) + [TreeOf(c, m)]
    ensures multiset(cs + [c]) == multiset(cs) + multiset{c} && c.info == TreeOf(c, m).info
    ensures c.children != [] <==> IsCategory(TreeOf(c, m))
  {
    hide MenuNode.Shows;
    ShownFields(c, TreeOf(c, m));
  }

  lemma ShowMember(o: Nodes, cs: seq<MenuNode>, m: Notes, i: nat)
    requires AllShow(o, cs, m) && i < |cs|
    ensures AllShow(o, [cs[i]], m)
  {
  }

  lemma ShowNothing(o: Nodes, m: Notes)
    ensures AllShow(o, [], m)
  {
  }

  method StablePartition(d: Names, cs: seq<MenuNode>, ghost o: Nodes, ghost m: Notes)
    returns (cats: seq<MenuNode>, leaves: seq<MenuNode>)
    requires AllShow(o, cs, m) && Comparable(d, TreesOf(cs, m))
    ensures AllShow(o, cats, m) && TreesOf(cats, m) == Categories(TreesOf(cs, m))
    ensures AllShow(o, leaves, m) && TreesOf(leaves, m) == Leaves(d, TreesOf(cs, m))
    ensures multiset(cats) + multiset(leaves) == multiset(cs)
  {
    hide AllShow, Leaves, Categories, IsLeaf, TreeOf;
    cats, leaves := [], [];
    ghost var ts := TreesOf(cs, m);
    NothingToArrange(d);
    ShowNothing(o, m);
    for i := 0 to |cs|
      invariant AllShow(o, cats, m) && AllShow(o, leaves, m)
      invariant TreesOf(cats, m) == Categories(ts[..i]) && TreesOf(leaves, m) == Leaves(d, ts[..i])
      invariant multiset(cats) + multiset(leaves) == multiset(cs[..i])
    {
      PartitionStep(d, ts, i);
      assert cs[..i + 1] == cs[..i] + [cs[i]];
      ShowMember(o, cs, m, i);
      ShowAppend(o, cats, cs[i], m);
      ShowAppend(o, leaves, cs[i], m);
      if cs[i].children != [] {
        cats := cats + [cs[i]];
      } else {
        leaves := leaves + [cs[i]];
      }
    }
    assert ts[..|cs|] == ts && cs[..|cs|] == cs;
  }

  method InsertLeaf(d: Names, cs: seq<MenuNode>, c: MenuNode, ghost o: Nodes, ghost m: Notes) returns (r: seq<MenuNode>)
    requires AllShow(o, cs, m) && AllShow(o, [c], m)
    requires AllLeaves(d, TreesOf(cs, m)) && IsLeafNode(d, TreeOf(c, m))
    ensures AllShow(o, r, m) && TreesOf(r, m) == Insert(d, TreesOf(cs, m), TreeOf(c, m))
    ensures multiset(r) == multiset(cs) + multiset{c}
  {
    hide AllShow, TreeOf, IsLeaf, LeafLess, Insert, AllLeaves;
    ShowAppend(o, cs, c, m);
    InsertStep(d, TreesOf(cs, m), TreeOf(c, m));
    if cs == [] {
      return [c];
    }
    ShowFront(o, cs, m);
    var before, last := cs[..|cs| - 1], cs[|cs| - 1];
    assert cs == before + [last];
    if LeafLess(d, c.info, last.info) {
      r := InsertLeaf(d, before, c, o, m);
      ShowAppend(o, r, last, m);
      r := r + [last];
    } else {
      r := cs + [c];
    }
  }

  method SortLeaves(d: Names, cs: seq<MenuNode>, ghost o: Nodes, ghost m: Notes) returns (r: seq<MenuNode>)
    requires AllShow(o, cs, m) && AllLeaves(d, TreesOf(cs, m))
    ensures AllShow(o, r, m) && TreesOf(r, m) == StableSort(d, TreesOf(cs, m))
    ensures multiset(r) == multiset(cs)
  {
    hide AllShow, TreeOf, StableSort, Insert, IsLeaf;
    ShowNothing(o, m);
    r := [];
    ghost var ts := TreesOf(cs, m);
    NothingToArrange(d);
    for i := 0 to |cs|
      invariant AllShow(o, r, m) && TreesOf(r, m) == StableSort(d, ts[..i])
      invariant multiset(r) == multiset(cs[..i])
    {
      SortStep(d, ts, i);
      ShowMember(o, cs, m, i);
      assert cs[..i + 1] == cs[..i] + [cs[i]];
      r := InsertLeaf(d, r, cs[i], o, m);
    }
    assert ts[..|cs|] == ts && cs[..|cs|] == cs;
  }

  /** Nodes of `cs`, none more often than there. */
  ghost predicate PartOf(r: seq<MenuNode>, cs: seq<MenuNode>) { multiset(r) <= multiset(cs) }

  lemma NothingIsPart(cs: seq<MenuNode>)
    ensures PartOf([], cs)
  {
  }

  lemma StillPart(r: seq<MenuNode>, cs: seq<MenuNode>, i: nat)
    requires i < |cs| && PartOf(r, cs[..i])
    ensures PartOf(r, cs[..i + 1]) && PartOf(r + [cs[i]], cs[..i + 1])
  {
    assert cs[..i + 1] == cs[..i] + [cs[i]];
  }

  /** Keep `c` unless it equals the last one kept. */
  method KeepNext(r: seq<MenuNode>, c: MenuNode, ghost o: Nodes, ghost m: Notes) returns (kept: seq<MenuNode>)
    requires AllShow(o, r, m) && AllShow(o, [c], m)
    ensures kept == r || kept == r + [c]
    ensures AllShow(o, kept, m)
    ensures var u := TreesOf(r, m);
      TreesOf(kept, m) == if u != [] && u[|u| - 1].info == TreeOf(c, m).info then u else u + [TreeOf(c, m)]
  {
    hide AllShow, TreeOf;
    ShowAppend(o, r, c, m);
    if r != [] {
      ShowFront(o, r, m);
    }
    if r != [] && r[|r| - 1].info == c.info {
      kept := r;
    } else {
      kept := r + [c];
    }
  }

  method UniqueNodes(d: Names, cs: seq<MenuNode>, ghost o: Nodes, ghost m: Notes) returns (r: seq<MenuNode>)
    requires AllShow(o, cs, m)
    ensures AllShow(o, r, m) && TreesOf(r, m) == Unique(TreesOf(cs, m))
    ensures PartOf(r, cs)
  {
    hide AllShow, TreeOf, Unique, PartOf;
    ghost var ts := TreesOf(cs, m);
    r := [];
    NothingToArrange(d);
    NothingIsPart(cs[..0]);
    ShowNothing(o, m);
    for i := 0 to |cs|
      invariant AllShow(o, r, m) && TreesOf(r, m) == Unique(ts[..i])
      invariant PartOf(r, cs[..i])
    {
      UniqueStep(ts, i);
      StillPart(r, cs, i);
      ShowMember(o, cs, m, i);
      r := KeepNext(r, cs[i], o, m);
    }
    assert ts[..|cs|] == ts && cs[..|cs|] == cs;
  }

  predicate Distinct(cs: seq<MenuNode>) {
    forall i, j :: 0 <= i < j < |cs| ==> cs[i] != cs[j]
  }

  lemma {:induction false} DistinctOnce(cs: seq<MenuNode>, c: MenuNode)
    requires Distinct(cs)
    ensures multiset(cs)[c] <= 1
  {
    if cs == [] {
    } else {
      var before, last := cs[..|cs| - 1], cs[|cs| - 1];
      DistinctOnce(before, c);
      assert cs == before + [last];
      assert last !in before;
    }
  }

  lemma TwiceCounted(cs: seq<MenuNode>, i: nat, j: nat)
    requires i < j < |cs| && cs[i] == cs[j]
    ensures multiset(cs)[cs[i]] >= 2
  {
    assert cs == cs[..i] + [cs[i]] + cs[i + 1..j] + [cs[j]] + cs[j + 1..];
  }

  lemma PartDistinct(r: seq<MenuNode>, cs: seq<MenuNode>)
    requires Distinct(cs) && PartOf(r, cs)
    ensures Distinct(r) && forall c :: c in r ==> c in cs
  {
    forall i, j | 0 <= i < j < |r|
      ensures r[i] != r[j]
    {
      if r[i] == r[j] {
        TwiceCounted(r, i, j);
        DistinctOnce(cs, r[i]);
      }
    }
    forall c | c in r
      ensures c in cs
    {
      assert c in multiset(r);
    }
  }

  lemma FamilyPart(parent: MenuNode, o: Nodes, cs: seq<MenuNode>, r: seq<MenuNode>, m: Notes)
    requires Family(parent, o, cs, m) && PartOf(r, cs)
    ensures Family(parent, o, r, m)
  {
    assert Distinct(cs);
    PartDistinct(r, cs);
  }

  /** The trees after renumbering. */
  ghost function Renumbered(cs: seq<MenuNode>, m: Notes): Notes
  {
    if cs == [] then map[]
    else
      var n := |cs| - 1;
      Renumbered(cs[..n], m)[cs[n] := Numbered(TreeOf(cs[n], m), n)]
  }

  lemma {:induction false} RenumberedAt(cs: seq<MenuNode>, m: Notes)
    requires Distinct(cs)
    ensures forall i :: 0 <= i < |cs| ==> TreeOf(cs[i], Renumbered(cs, m)) == Numbered(TreeOf(cs[i], m), i)
  {
    if cs == [] {
    } else {
      var n := |cs| - 1;
      RenumberedAt(cs[..n], m);
      forall i | 0 <= i < |cs|
        ensures TreeOf(cs[i], Renumbered(cs, m)) == Numbered(TreeOf(cs[i], m), i)
      {
        if i < n {
          assert cs[..n][i] == cs[i] && cs[i] != cs[n];
        }
      }
    }
  }

  /** Partition, sort and unique; the nodes themselves are not touched. */
  method Arrange(d: Names, cs: seq<MenuNode>, ghost o: Nodes, ghost m: Notes) returns (kept: seq<MenuNode>)
    requires AllShow(o, cs, m) && Comparable(d, TreesOf(cs, m))
    ensures AllShow(o, kept, m) && PartOf(kept, cs)
    ensures Number(TreesOf(kept, m)) == Fixup(d, TreesOf(cs, m))
  {
    hide MenuNode.Shows, IsLeaf, Unique, Categories, Leaves, StableSort;
    var cats, leaves := StablePartition(d, cs, o, m);
    var sorted := SortLeaves(d, leaves, o, m);
    var all := cats + sorted;
    assert TreesOf(all, m) == TreesOf(cats, m) + TreesOf(sorted, m);
    assert multiset(all) == multiset(cs);
    kept := UniqueNodes(d, all, o, m);
  }

  method Renumber(cs: seq<MenuNode>, parent: MenuNode, ghost o: Nodes, ghost m: Notes)
    requires Family(parent, o, cs, m)
    modifies (set c | c in cs)`column
    ensures Family(parent, o, cs, Renumbered(cs, m))
    ensures TreesOf(cs, Renumbered(cs, m)) == Number(TreesOf(cs, m))
  {
    for i := 0 to |cs|
      invariant forall j :: 0 <= j < i ==> cs[j].column == j % WORD16
    {
      cs[i].column := i % WORD16;
    }
    RenumberedAt(cs, m);
    forall i | 0 <= i < |cs|
      ensures cs[i].Shows(Numbered(TreeOf(cs[i], m), i))
    {
      var c, t := cs[i], TreeOf(cs[i], m);
      assert c in cs && old(c.Shows(t));
      forall k | 0 <= k < |c.children|
        ensures c.children[k].Shows(t.children[k])
      {
        var g := c.children[k];
        assert old(g.Shows(t.children[k]));
        assert forall e :: e in cs ==> e in e.footprint && e !in g.footprint;
      }
    }
  }

  method FixupChildren(d: Names, node: MenuNode, ghost o: Nodes, ghost m: Notes) returns (ghost m': Notes)
    requires Family(node, o, node.children, m) && Comparable(d, TreesOf(node.children, m))
    modifies node`children, o`column
    ensures Family(node, o, node.children, m')
    ensures TreesOf(node.children, m') == Fixup(d, TreesOf(old(node.children), m))
  {
    hide MenuNode.Shows, IsLeaf, Fixup, Number, Renumbered, PartOf;
    ghost var cs := node.children;
    var kept := Arrange(d, node.children, o, m);
    FamilyPart(node, o, cs, kept, m);
    m' := Renumbered(kept, m);
    SetChildren(node, kept, o, m);
    Renumber(kept, node, o, m);
  }

  method SetChildren(node: MenuNode, cs: seq<MenuNode>, ghost o: Nodes, ghost m: Notes)
    requires Family(node, o, cs, m)
    modifies node`children
    ensures node.children == cs && Family(node, o, cs, m)
  {
    node.children := cs;
  }

  // ---- Creating nodes ----

  /** The counter is the id given last: 2^32 - 1 before the first node. */
  ghost predicate Counting(counter: MenuNode, made: nat)
    reads counter
  {
    counter.uniqueID == (made + WORD32 - 1) % WORD32
  }

  lemma CountOn(made: nat)
    ensures ((made + WORD32 - 1) % WORD32 + 1) % WORD32 == made % WORD32 == (made + 1 + WORD32 - 1) % WORD32
  {
  }

  /** NodeFactory: append a new child and give it the next id. */
  method CreateNode(parent: MenuNode, counter: MenuNode, ghost made: nat) returns (child: MenuNode)
    requires Counting(counter, made)
    modifies parent`children, counter`uniqueID
    ensures fresh(child) && parent.children == old(parent.children) + [child]
    ensures Counting(counter, made + 1)
    ensures child.parent == parent && child.uniqueID == made % 0x1_0000_0000 && child.row == (parent.row + 1) % 0x1_0000
    ensures child.column == 0 && child.children == [] && child.footprint == {child}
    ensures child.info == Info(None, None, None, None)
  {
    child := new MenuNode();
    parent.children := parent.children + [child];
    child.parent := parent;
    CountOn(made);
    counter.uniqueID := (counter.uniqueID + 1) % WORD32;
    child.uniqueID := counter.uniqueID;
    child.row := NextRow(parent.row);
  }

  lemma FamilyGrows(parent: MenuNode, o: Nodes, cs: seq<MenuNode>, m: Notes, c: MenuNode, t: Tree)
    requires Family(parent, o, cs, m)
    requires c.Shows(t) && c.parent == parent && parent !in c.footprint && c.footprint !! o
    ensures Family(parent, o + c.footprint, cs + [c], m[c := t])
    ensures TreesOf(cs + [c], m[c := t]) == TreesOf(cs, m) + [t]
  {
    hide MenuNode.Shows;
    OwnFootprint(c, t);
    assert c !in cs;
  }

  lemma OwnFootprint(c: MenuNode, t: Tree)
    requires c.Shows(t)
    ensures c in c.footprint
  {
  }

  /** A node under construction: its children show `ts`, and `made` nodes exist. */
  ghost predicate Building(node: MenuNode, counter: MenuNode, o: Nodes, m: Notes, ts: seq<Tree>, made: nat)
    reads node, counter, o
  {
    && Family(node, o, node.children, m)
    && TreesOf(node.children, m) == ts
    && counter !in o
    && Counting(counter, made)
  }

  method AppendLeaf(parent: MenuNode, counter: MenuNode, info: Info,
    ghost o: Nodes, ghost m: Notes, ghost ts: seq<Tree>, ghost made: nat)
    returns (ghost o': Nodes, ghost m': Notes)
    requires Building(parent, counter, o, m, ts, made)
    modifies parent`children, counter`uniqueID
    ensures Building(parent, counter, o', m', ts + [NewLeaf(info, NextRow(parent.row), made)], made + 1)
    ensures fresh(o' - o)
  {
    ghost var cs := parent.children;
    var child := CreateNode(parent, counter, made);
    child.info := info;
    assert Family(parent, o, cs, m);
    assert child.Shows(NewLeaf(info, NextRow(parent.row), made));
    FamilyGrows(parent, o, cs, m, child, NewLeaf(info, NextRow(parent.row), made));
    o', m' := o + child.footprint, m[child := NewLeaf(info, NextRow(parent.row), made)];
  }

  /** The leaves of one recipe: one node, or one for each form of its list. */
  method MakeLeaf(d: Names, parent: MenuNode, counter: MenuNode, r: nat,
    ghost o: Nodes, ghost m: Notes, ghost ts: seq<Tree>, ghost made: nat)
    returns (ghost o': Nodes, ghost m': Notes)
    requires Building(parent, counter, o, m, ts, made)
    modifies parent`children, counter`uniqueID
    ensures Building(parent, counter, o', m', ts + NewLeaves(LeafInfos(d, r), NextRow(parent.row), made),
      made + |LeafInfos(d, r)|)
    ensures fresh(o' - o)
  {
    hide Building, NewLeaves;
    ghost var infos, row := LeafInfos(d, r), NextRow(parent.row);
    NewLeavesEmpty(row, made);
    match d.recipe(r).item {
      case Single(form) =>
        o', m' := AppendLeaf(parent, counter, Info(None, Some(r), None, Some(form)), o, m, ts, made);
        NewLeavesJoin([], infos, row, made);
        NewLeavesOne(infos[0], row, made);
      case FromList(forms) =>
        o', m' := o, m;
        assert infos[..0] == [] && ts + [] == ts;
        for i := 0 to |forms|
          invariant Building(parent, counter, o', m', ts + NewLeaves(infos[..i], row, made), made + i)
          invariant fresh(o' - o)
        {
          ghost var sofar := ts + NewLeaves(infos[..i], row, made);
          o', m' := AppendLeaf(parent, counter, Info(None, Some(r), Some(r), Some(forms[i])), o', m', sofar, made + i);
          assert infos[..i + 1] == infos[..i] + [infos[i]];
          NewLeavesJoin(infos[..i], [infos[i]], row, made);
          NewLeavesOne(infos[i], row, made + i);
          assert sofar + [NewLeaf(infos[i], row, made + i)] == ts + NewLeaves(infos[..i + 1], row, made);
        }
        assert infos[..|forms|] == infos;
    }
  }

  lemma NothingBuilt(node: MenuNode, counter: MenuNode, made: nat)
    requires node.children == [] && Counting(counter, made)
    ensures Building(node, counter, {}, map[], [], made)
  {
  }

  /** All leaves of a keyword's recipes, before they are fixed up. */
  method MakeLeaves(d: Names, node: MenuNode, counter: MenuNode, rs: seq<nat>, ghost made: nat)
    returns (ghost o: Nodes, ghost m: Notes)
    requires node.children == [] && Counting(counter, made)
    modifies node`children, counter`uniqueID
    ensures Building(node, counter, o, m, NewLeaves(AllLeafInfos(d, rs), NextRow(node.row), made), made + |AllLeafInfos(d, rs)|)
    ensures fresh(o)
  {
    hide Building, NewLeaves, AllLeafInfos, LeafInfos;
    ghost var row := NextRow(node.row);
    o, m := {}, map[];
    NothingBuilt(node, counter, made);
    NewLeavesEmpty(row, made);
    NoLeafInfos(d);
    assert rs[..0] == [];
    for i := 0 to |rs|
      invariant Building(node, counter, o, m, NewLeaves(AllLeafInfos(d, rs[..i]), row, made), made + |AllLeafInfos(d, rs[..i])|)
      invariant fresh(o)
    {
      ghost var infos := AllLeafInfos(d, rs[..i]);
      o, m := MakeLeaf(d, node, counter, rs[i], o, m, NewLeaves(infos, row, made), made + |infos|);
      LeafInfosStep(d, rs, i);
      NewLeavesJoin(infos, LeafInfos(d, rs[i]), row, made);
    }
    assert rs[..|rs|] == rs;
  }

  /** The finished node claims its descendants. */
  ghost method Finish(node: MenuNode, o: Nodes, m: Notes, t: Tree)
    requires Family(node, o, node.children, m) && t.children == TreesOf(node.children, m)
    requires node.uniqueID == t.uid && node.row == t.row && node.column == t.column && node.info == t.info
    modifies node`footprint
    ensures node.Shows(t) && node.footprint == {node} + o
  {
    node.footprint := {node} + o;
  }

  /** The keyword branch of MakeSubMenu, on the node made for it. */
  method FillKeyword(data: Data, node: MenuNode, counter: MenuNode, k: nat, ghost row: nat, ghost made: nat)
    requires node.children == [] && node != counter && Counting(counter, made + 1)
    requires node.uniqueID == made % WORD32 && node.row == row && node.column == 0 && node.info == CategoryInfo(k)
    modifies node`children, node`footprint, counter`uniqueID
    ensures node.Shows(KeywordMenu(data, k, row, made)) && fresh(node.footprint - {node})
    ensures Counting(counter, made + 1 + |AllLeafInfos(data.names, data.matches(k))|)
  {
    hide MenuNode.Shows, Fixup, NewLeaves, AllLeafInfos, IsLeaf, Number, Unique;
    ghost var o, m := MakeLeaves(data.names, node, counter, data.matches(k), made + 1);
    NewLeavesAreLeaves(data.names, data.matches(k), NextRow(row), made + 1);
    m := FixupChildren(data.names, node, o, m);
    Finish(node, o, m, KeywordMenu(data, k, row, made));
  }

  // ---- Submenus ----

  /** The builder has appended `child`, all of it new, and it shows `t`. */
  twostate predicate Appended(parent: MenuNode, new child: MenuNode, t: Tree)
    reads parent, child, child.footprint
  {
    && parent.children == old(parent.children) + [child]
    && child.Shows(t) && child.parent == parent && fresh(child.footprint)
  }

  method MakeKeywordMenu(data: Data, counter: MenuNode, parent: MenuNode, k: nat, ghost made: nat) returns (child: MenuNode)
    requires Counting(counter, made)
    modifies parent`children, counter`uniqueID
    ensures Appended(parent, child, KeywordMenu(data, k, NextRow(parent.row), made))
    ensures Counting(counter, made + 1 + |AllLeafInfos(data.names, data.matches(k))|)
  {
    hide MenuNode.Shows, KeywordMenu, AllLeafInfos;
    child := CreateNode(parent, counter, made);
    child.info := CategoryInfo(k);
    FillKeyword(data, child, counter, k, NextRow(parent.row), made);
  }

  method MakeListMenu(data: Data, counter: MenuNode, parent: MenuNode, l: nat, forms: seq<Form>, k: nat, ghost made: nat)
    returns (child: MenuNode, ghost t: Tree, ghost made': nat)
    requires Acyclic(data) && Counting(counter, made) && RanksBelow(data, forms, data.rank(l))
    modifies parent`children, counter`uniqueID
    ensures Appended(parent, child, t) && Counting(counter, made')
    ensures var (kept, end) := Kept(data, data.rank(l), forms, |forms|, NextRow(NextRow(parent.row)), made + 1);
      made' == end && t == Tree(made % WORD32, NextRow(parent.row), 0, CategoryInfo(k), Number(Unique(kept)))
    decreases data.rank(l), 4, 0
  {
    hide MenuNode.Shows, Number, Unique, Kept;
    child := CreateNode(parent, counter, made);
    child.info := CategoryInfo(k);
    ghost var o, m;
    o, m, made' := EnumerateFLST(data, counter, child, data.rank(l), forms, made + 1);
    t := Tree(made % WORD32, NextRow(parent.row), 0, CategoryInfo(k), TreesOf(child.children, m));
    Finish(child, o, m, t);
  }

  method MakeSubMenu(data: Data, counter: MenuNode, parent: MenuNode, f: Form, ghost made: nat)
    returns (child: MenuNode?, ghost t: Tree, ghost made': nat)
    requires Acyclic(data) && Counting(counter, made)
    modifies parent`children, counter`uniqueID
    ensures SubMenu(data, f, NextRow(parent.row), made) == (if child != null then Some(t) else None, made')
    ensures Counting(counter, made')
    ensures if child != null then Appended(parent, child, t) else parent.children == old(parent.children)
    decreases FormRank(data, f), 0, 0
  {
    hide MenuNode.Shows, KeywordMenu, Kept, Number, Unique, AllLeafInfos;
    child, made', t := null, made, Tree(0, 0, 0, CategoryInfo(0), []);
    match f {
      case Kywd(k) =>
        if data.matches(k) != [] {
          child := MakeKeywordMenu(data, counter, parent, k, made);
          t := KeywordMenu(data, k, NextRow(parent.row), made);
          made' := made + 1 + |AllLeafInfos(data.names, data.matches(k))|;
        }
      case Flst(l) =>
        var forms := FormsOf(data, l);
        if forms != [] && forms[0].Kywd? {
          child, t, made' := MakeListMenu(data, counter, parent, l, forms, forms[0].keyword, made);
        }
      case _ =>
    }
  }

  method EnumerateFLST(data: Data, counter: MenuNode, node: MenuNode, ghost r: nat, forms: seq<Form>, ghost made: nat)
    returns (ghost o: Nodes, ghost m: Notes, ghost made': nat)
    requires Acyclic(data) && RanksBelow(data, forms, r) && Counting(counter, made) && node.children == []
    modifies node`children, counter`uniqueID
    ensures made' == Kept(data, r, forms, |forms|, NextRow(node.row), made).1
    ensures Building(node, counter, o, m, Number(Unique(Kept(data, r, forms, |forms|, NextRow(node.row), made).0)), made')
    ensures fresh(o)
    decreases r, 3, 0
  {
    hide Building, Number, Unique;
    ghost var row, kept := NextRow(node.row), [];
    o, m, made' := {}, map[], made;
    NothingBuilt(node, counter, made);
    NothingCollapsed();
    for i := 0 to |forms|
      invariant (kept, made') == Kept(data, r, forms, i, row, made) && AllCategories(kept)
      invariant Building(node, counter, o, m, Number(Unique(kept)), made')
      invariant fresh(o)
    {
      o, m, kept, made' := EnumerateOne(data, counter, node, forms[i], o, m, kept, made');
      KeptAreCategories(data, r, forms, i + 1, row, made);
    }
  }

  lemma NothingCollapsed()
    ensures Number(Unique([])) == []
  {
  }

  /** What one form of a list adds to the submenus kept so far. */
  ghost function KeptAfter(data: Data, f: Form, row: nat, kept: seq<Tree>, made: nat): (seq<Tree>, nat)
    requires Acyclic(data)
  {
    if f.Nothing? || data.isDeleted(f) then (kept, made)
    else
      var (t, end) := SubMenu(data, f, row, made);
      (if t.Some? && IsCategory(t.value) then kept + [t.value] else kept, end)
  }

  /** Take the new last child back off if it is empty. */
  method PopIfEmpty(node: MenuNode, counter: MenuNode, child: MenuNode,
    ghost t: Tree, ghost o: Nodes, ghost cs: seq<MenuNode>, ghost m: Notes, ghost made: nat)
    returns (ghost o': Nodes, ghost m': Notes)
    requires Family(node, o, cs, m) && counter !in o && Counting(counter, made)
    requires node.children == cs + [child] && child.Shows(t) && child.parent == node
    requires node !in child.footprint && counter !in child.footprint && child.footprint !! o
    modifies node`children
    ensures Building(node, counter, o', m', if IsCategory(t) then TreesOf(cs, m) + [t] else TreesOf(cs, m), made)
    ensures o' <= o + child.footprint
  {
    hide MenuNode.Shows;
    ShownFields(child, t);
    if child.children == [] {
      o', m' := o, m;
      node.children := node.children[..|node.children| - 1];
      assert node.children == cs;
    } else {
      FamilyGrows(node, o, cs, m, child, t);
      o', m' := o + child.footprint, m[child := t];
    }
  }

  /** Append the form's submenu and pop it again if it is empty. */
  method AppendSubMenu(data: Data, counter: MenuNode, node: MenuNode, f: Form,
    ghost o: Nodes, ghost m: Notes, ghost ts: seq<Tree>, ghost made: nat)
    returns (ghost o': Nodes, ghost m': Notes, ghost made': nat)
    requires Acyclic(data) && Building(node, counter, o, m, ts, made)
    modifies node`children, counter`uniqueID
    ensures Building(node, counter, o', m', KeptAfter(data, f, NextRow(node.row), ts, made).0, made')
    ensures made' == KeptAfter(data, f, NextRow(node.row), ts, made).1
    ensures fresh(o' - o)
    decreases FormRank(data, f), 1, 0
  {
    hide MenuNode.Shows, SubMenu, Counting, IsCategory;
    o', m', made' := o, m, made;
    if !f.Nothing? && !data.isDeleted(f) {
      ghost var cs := node.children;
      var child;
      ghost var t;
      child, t, made' := MakeSubMenu(data, counter, node, f, made);
      assert Family(node, o, cs, m);
      if child != null {
        o', m' := PopIfEmpty(node, counter, child, t, o, cs, m, made');
      }
    }
  }

  /** One round: append, perhaps pop, fix up. */
  method EnumerateOne(data: Data, counter: MenuNode, node: MenuNode, f: Form,
    ghost o: Nodes, ghost m: Notes, ghost kept: seq<Tree>, ghost made: nat)
    returns (ghost o': Nodes, ghost m': Notes, ghost kept': seq<Tree>, ghost made': nat)
    requires Acyclic(data) && AllCategories(kept)
    requires Building(node, counter, o, m, Number(Unique(kept)), made)
    modifies node`children, counter`uniqueID, o`column
    ensures (kept', made') == KeptAfter(data, f, NextRow(node.row), kept, made)
    ensures Building(node, counter, o', m', Number(Unique(kept')), made')
    ensures fresh(o' - o)
    decreases FormRank(data, f), 2, 0
  {
    hide MenuNode.Shows, Number, Unique, Fixup, KeptAfter;
    o', m', made' := AppendSubMenu(data, counter, node, f, o, m, Number(Unique(kept)), made);
    kept' := KeptAfter(data, f, NextRow(node.row), kept, made).0;
    FixupOfAppended(data, f, NextRow(node.row), kept, made);
    m' := FixupChildren(data.names, node, o', m');
  }

  lemma FixupOfAppended(data: Data, f: Form, row: nat, kept: seq<Tree>, made: nat)
    requires Acyclic(data) && AllCategories(kept)
    ensures var shown := KeptAfter(data, f, row, Number(Unique(kept)), made).0;
      && Comparable(data.names, shown)
      && KeptAfter(data, f, row, kept, made).1 == KeptAfter(data, f, row, Number(Unique(kept)), made).1
      && Fixup(data.names, shown) == Number(Unique(KeptAfter(data, f, row, kept, made).0))
  {
    hide Number, Unique, Fixup;
    FixupIsIdempotent(data.names, kept);
    if !f.Nothing? && !data.isDeleted(f) {
      var t := SubMenu(data, f, row, made).0;
      if t.Some? && IsCategory(t.value) {
        FixupIsIncremental(data.names, kept, t.value);
      }
    }
  }

  /** Builds the whole menu below a cleared root. */
  method MakeRootMenu(data: Data, root: MenuNode, rootList: nat) returns (ghost o: Nodes, ghost m: Notes)
    requires Acyclic(data) && root.children == []
    modifies root`children, root`uniqueID, root`row
    ensures Family(root, o, root.children, m) && TreesOf(root.children, m) == RootMenu(data, rootList).0
    ensures RanksBelow(data, FormsOf(data, rootList), data.rank(rootList))
    ensures ShowsLevel(data, data.rank(rootList), TreesOf(root.children, m), FormsOf(data, rootList))
    ensures root.uniqueID == WORD32 - 1 && root.row == 0
  {
    hide MenuNode.Shows, Number, Unique, Kept, ShowsLevel;
    RootMenuContents(data, rootList);
    root.uniqueID := WORD32 - 1;
    root.row := WORD16 - 1;
    ghost var made;
    var forms := FormsOf(data, rootList);
    o, m, made := EnumerateFLST(data, root, root, data.rank(rootList), forms, 0);
    root.uniqueID := WORD32 - 1;
    root.row := 0;
  }
}
