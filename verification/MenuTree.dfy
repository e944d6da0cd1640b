/** The menu tree that form-list data describes: every submenu is built once,
    empty ones are left out, and equal neighbours are collapsed at the end. This
    is the reference that the in-place builder is proved against. */
module MenuTree {
  import opened Prelude
  import opened MenuOrder
  import opened MenuArrange

  const WORD32 := 0x1_0000_0000

  datatype Form = Nothing | Kywd(keyword: nat) | Flst(list: nat) | Other

  /** Form lists, deletion marks, the recipes that the lookup table gives for a
      keyword, and a rank that falls from a list to the lists in it. */
  datatype Data = Data(names: Names, lists: map<nat, seq<Form>>, isDeleted: Form -> bool,
    matches: nat -> seq<nat>, rank: nat -> nat)

  function FormsOf(m: Data, l: nat): seq<Form> {
    if l in m.lists then m.lists[l] else []
  }

  predicate RanksBelow(m: Data, forms: seq<Form>, r: nat) {
    forall i :: 0 <= i < |forms| && forms[i].Flst? ==> m.rank(forms[i].list) < r
  }

  /** No list contains itself, directly or through others. */
  ghost predicate Acyclic(m: Data) {
    forall l :: l in m.lists ==> RanksBelow(m, m.lists[l], m.rank(l))
  }

  // ---- Leaves ----

  function LeafInfos(d: Names, r: nat): seq<Info> {
    match d.recipe(r).item
    case Single(form) => [Info(None, Some(r), None, Some(form))]
    case FromList(forms) =>
      seq(|forms|, i requires 0 <= i < |forms| => Info(None, Some(r), Some(r), Some(forms[i])))
  }

  function AllLeafInfos(d: Names, rs: seq<nat>): (infos: seq<Info>)
    ensures forall i :: 0 <= i < |infos| ==> IsLeaf(d, infos[i])
  {
    if rs == [] then [] else AllLeafInfos(d, rs[..|rs| - 1]) + LeafInfos(d, rs[|rs| - 1])
  }

  /** Nodes created one after another, the first as number `made`. */
  function NewLeaf(info: Info, row: nat, made: nat): Tree { Tree(made % WORD32, row, 0, info, []) }

  function NewLeaves(infos: seq<Info>, row: nat, made: nat): (ts: seq<Tree>)
    ensures |ts| == |infos|
    ensures forall i :: 0 <= i < |ts| ==> ts[i] == NewLeaf(infos[i], row, made + i)
  {
    seq(|infos|, i requires 0 <= i < |infos| => NewLeaf(infos[i], row, made + i))
  }

  lemma NewLeavesJoin(a: seq<Info>, b: seq<Info>, row: nat, made: nat)
    ensures NewLeaves(a + b, row, made) == NewLeaves(a, row, made) + NewLeaves(b, row, made + |a|)
  {
  }

  lemma NewLeavesEmpty(row: nat, made: nat)
    ensures NewLeaves([], row, made) == []
  {
  }

  lemma NewLeavesOne(info: Info, row: nat, made: nat)
    ensures NewLeaves([info], row, made) == [NewLeaf(info, row, made)]
  {
  }

  lemma NoLeafInfos(d: Names)
    ensures AllLeafInfos(d, []) == []
  {
  }

  lemma LeafInfosStep(d: Names, rs: seq<nat>, i: nat)
    requires i < |rs|
    ensures AllLeafInfos(d, rs[..i + 1]) == AllLeafInfos(d, rs[..i]) + LeafInfos(d, rs[i])
  {
    assert rs[..i + 1][..i] == rs[..i];
  }

  lemma NewLeavesAreLeaves(d: Names, rs: seq<nat>, row: nat, made: nat)
    ensures AllLeaves(d, NewLeaves(AllLeafInfos(d, rs), row, made))
    ensures Comparable(d, NewLeaves(AllLeafInfos(d, rs), row, made))
  {
    var infos := AllLeafInfos(d, rs);
    forall i | 0 <= i < |infos|
      ensures IsLeafNode(d, NewLeaves(infos, row, made)[i])
    {
    }
  }

  // ---- Submenus ----

  function NextRow(row: nat): nat { (row + 1) % WORD16 }

  function CategoryInfo(k: nat): Info { Info(Some(k), None, None, None) }

  function FormRank(m: Data, f: Form): nat {
    if f.Flst? then m.rank(f.list) + 1 else 0
  }

  function KeywordMenu(m: Data, k: nat, row: nat, made: nat): Tree {
    NewLeavesAreLeaves(m.names, m.matches(k), NextRow(row), made + 1);
    Tree(made % WORD32, row, 0, CategoryInfo(k),
      Fixup(m.names, NewLeaves(AllLeafInfos(m.names, m.matches(k)), NextRow(row), made + 1)))
  }

  /** The submenu of one form, if it makes one, and the number of nodes created
      by then; `made` nodes exist before. */
  ghost function SubMenu(m: Data, f: Form, row: nat, made: nat): (Option<Tree>, nat)
    requires Acyclic(m)
    decreases FormRank(m, f), 0, 0
  {
    match f
    case Kywd(k) =>
      if m.matches(k) == [] then (None, made)
      else (Some(KeywordMenu(m, k, row, made)), made + 1 + |AllLeafInfos(m.names, m.matches(k))|)
    case Flst(l) =>
      var forms := FormsOf(m, l);
      if forms != [] && forms[0].Kywd? then
        var (kept, made') := Kept(m, m.rank(l), forms, |forms|, NextRow(row), made + 1);
        (Some(Tree(made % WORD32, row, 0, CategoryInfo(forms[0].keyword), Number(Unique(kept)))), made')
      else (None, made)
    case _ => (None, made)
  }

  /** The submenus with content of the first `n` forms, in list order. */
  ghost function Kept(m: Data, r: nat, forms: seq<Form>, n: nat, row: nat, made: nat): (seq<Tree>, nat)
    requires Acyclic(m) && RanksBelow(m, forms, r) && n <= |forms|
    decreases r, 1, n
  {
    if n == 0 then ([], made)
    else
      var (kept, made1) := Kept(m, r, forms, n - 1, row, made);
      var f := forms[n - 1];
      if f.Nothing? || m.isDeleted(f) then (kept, made1)
      else
        var (t, made2) := SubMenu(m, f, row, made1);
        (if t.Some? && IsCategory(t.value) then kept + [t.value] else kept, made2)
  }

  lemma {:induction false} KeptAreCategories(m: Data, r: nat, forms: seq<Form>, n: nat, row: nat, made: nat)
    requires Acyclic(m) && RanksBelow(m, forms, r) && n <= |forms|
    ensures AllCategories(Kept(m, r, forms, n, row, made).0)
    decreases n
  {
    if n == 0 {
    } else {
      KeptAreCategories(m, r, forms, n - 1, row, made);
    }
  }

  // ---- What holds of every node ----

  /** Children are a keyword's leaves, strictly sorted, or submenus without equal
      neighbours. */
  ghost predicate Arranged(d: Names, ts: seq<Tree>) {
    StrictlySorted(d, ts) || (AllCategories(ts) && NoAdjacentEqual(ts))
  }

  /** Node `t` at `depth` levels below the top: rows are levels modulo 2^16,
      columns are sibling positions, ids grow downwards, a category has content
      and anything else is a leaf. */
  ghost predicate WellBuilt(d: Names, t: Tree, depth: nat) {
    && t.row == depth % 0x1_0000
    && (if t.info.keyword.Some? then t.info == CategoryInfo(t.info.keyword.value) && t.children != []
        else t.children == [] && IsLeaf(d, t.info))
    && Arranged(d, t.children)
    && (forall i :: 0 <= i < |t.children| ==> t.children[i].column == i % 0x1_0000)
    && (forall i :: 0 <= i < |t.children| ==> t.uid < t.children[i].uid)
    && (forall i :: 0 <= i < |t.children| ==> WellBuilt(d, t.children[i], depth + 1))
  }

  ghost predicate AllWellBuilt(d: Names, ts: seq<Tree>, depth: nat, above: nat) {
    && (forall i :: 0 <= i < |ts| ==> above <= ts[i].uid)
    && (forall i :: 0 <= i < |ts| ==> WellBuilt(d, ts[i], depth))
  }

  /** All ids in a subtree, with multiplicity. */
  function Ids(t: Tree): multiset<nat>
    decreases t
  {
    multiset{t.uid} + IdsOf(t.children)
  }

  function IdsOf(ts: seq<Tree>): multiset<nat>
    decreases ts
  {
    if ts == [] then multiset{} else IdsOf(ts[..|ts| - 1]) + Ids(ts[|ts| - 1])
  }

  /** Each id at most once, and all from `lo` to `hi`. */
  ghost predicate Within(ids: multiset<nat>, lo: nat, hi: nat) {
    forall x: nat :: ids[x] <= (if lo <= x < hi then 1 else 0)
  }

  lemma IdsAppend(ts: seq<Tree>, t: Tree)
    ensures IdsOf(ts + [t]) == IdsOf(ts) + Ids(t)
  {
    assert (ts + [t])[..|ts|] == ts;
  }

  lemma {:induction false} IdsOfUnique(ts: seq<Tree>)
    ensures IdsOf(Unique(ts)) <= IdsOf(ts)
  {
    if |ts| <= 1 {
    } else {
      var kept := Unique(ts[..|ts| - 1]);
      IdsOfUnique(ts[..|ts| - 1]);
      IdsAppend(kept, ts[|ts| - 1]);
    }
  }

  lemma {:induction false} IdsOfNumber(ts: seq<Tree>)
    ensures IdsOf(Number(ts)) == IdsOf(ts)
  {
    hide Ids, Numbered;
    if ts == [] {
    } else {
      var n := |ts| - 1;
      IdsOfNumber(ts[..n]);
      assert Number(ts)[..n] == Number(ts[..n]);
      IdsOfNumbered(ts[n], n);
    }
  }

  lemma IdsOfNumbered(t: Tree, i: nat)
    ensures Ids(Numbered(t, i)) == Ids(t)
  {
  }

  lemma {:induction false} IdsOfInsert(d: Names, ts: seq<Tree>, t: Tree)
    requires AllLeaves(d, ts) && IsLeafNode(d, t)
    ensures IdsOf(Insert(d, ts, t)) == IdsOf(ts) + Ids(t)
  {
    hide LeafLess, IsLeaf, Ids;
    if ts == [] || !LeafLess(d, t.info, ts[|ts| - 1].info) {
      IdsAppend(ts, t);
    } else {
      IdsOfInsert(d, ts[..|ts| - 1], t);
      IdsAppend(Insert(d, ts[..|ts| - 1], t), ts[|ts| - 1]);
    }
  }

  lemma {:induction false} IdsOfSort(d: Names, ts: seq<Tree>)
    requires AllLeaves(d, ts)
    ensures IdsOf(StableSort(d, ts)) == IdsOf(ts)
  {
    hide LeafLess, IsLeaf, Ids, Insert;
    if ts == [] {
    } else {
      IdsOfSort(d, ts[..|ts| - 1]);
      IdsOfInsert(d, StableSort(d, ts[..|ts| - 1]), ts[|ts| - 1]);
    }
  }

  lemma IdsOfFixup(d: Names, ts: seq<Tree>)
    requires AllLeaves(d, ts)
    ensures Comparable(d, ts) && IdsOf(Fixup(d, ts)) <= IdsOf(ts)
  {
    FixupSorts(d, ts);
    IdsOfSort(d, ts);
    IdsOfUnique(StableSort(d, ts));
    IdsOfNumber(Unique(StableSort(d, ts)));
  }

  lemma {:induction false} IdsOfNewLeaves(infos: seq<Info>, row: nat, made: nat)
    requires made + |infos| <= WORD32
    ensures Within(IdsOf(NewLeaves(infos, row, made)), made, made + |infos|)
  {
    if infos == [] {
    } else {
      var n := |infos| - 1;
      IdsOfNewLeaves(infos[..n], row, made);
      var ts := NewLeaves(infos, row, made);
      assert ts[..n] == NewLeaves(infos[..n], row, made);
      assert Ids(ts[n]) == multiset{made + n};
    }
  }

  lemma SubMembers(u: seq<Tree>, ts: seq<Tree>, d: Names, depth: nat, above: nat)
    requires AllWellBuilt(d, ts, depth, above)
    requires forall i :: 0 <= i < |u| ==> u[i] in ts
    ensures AllWellBuilt(d, u, depth, above)
  {
    hide WellBuilt;
  }

  lemma NumberedWellBuilt(d: Names, ts: seq<Tree>, depth: nat, above: nat)
    requires AllWellBuilt(d, ts, depth, above)
    ensures AllWellBuilt(d, Number(ts), depth, above)
  {
    forall i | 0 <= i < |ts|
      ensures above <= Number(ts)[i].uid && WellBuilt(d, Number(ts)[i], depth)
    {
      assert WellBuilt(d, ts[i], depth);
      Recolumned(d, ts[i], i, depth);
    }
  }

  lemma Recolumned(d: Names, t: Tree, i: nat, depth: nat)
    requires WellBuilt(d, t, depth)
    ensures WellBuilt(d, Numbered(t, i), depth)
  {
  }

  // ---- Building keeps it ----

  lemma LeavesWellBuilt(d: Names, infos: seq<Info>, depth: nat, made: nat)
    requires made + |infos| <= WORD32
    requires forall i :: 0 <= i < |infos| ==> IsLeaf(d, infos[i])
    ensures AllWellBuilt(d, NewLeaves(infos, depth % WORD16, made), depth, made)
    ensures AllLeaves(d, NewLeaves(infos, depth % WORD16, made))
  {
  }

  lemma FixupMembers(d: Names, ts: seq<Tree>)
    requires AllLeaves(d, ts)
    ensures forall i :: 0 <= i < |Unique(StableSort(d, ts))| ==> Unique(StableSort(d, ts))[i] in ts
  {
    var sorted := StableSort(d, ts);
    StableSortSorts(d, ts);
    UniqueSubset(sorted);
    forall i | 0 <= i < |Unique(sorted)|
      ensures Unique(sorted)[i] in ts
    {
      assert Unique(sorted)[i] in multiset(sorted);
    }
  }

  lemma WithinPart(part: multiset<nat>, ids: multiset<nat>, lo: nat, hi: nat)
    requires part <= ids && Within(ids, lo, hi)
    ensures Within(part, lo, hi)
  {
  }

  lemma WithinNode(t: Tree, end: nat)
    requires Within(IdsOf(t.children), t.uid + 1, end) && t.uid < end
    ensures Within(Ids(t), t.uid, end)
  {
  }

  lemma CategoryBuilt(d: Names, t: Tree, depth: nat)
    requires t.row == depth % WORD16 && t.info.keyword.Some? && t.info == CategoryInfo(t.info.keyword.value)
    requires IsCategory(t) && Arranged(d, t.children)
    requires forall i :: 0 <= i < |t.children| ==> t.children[i].column == i % WORD16
    requires AllWellBuilt(d, t.children, depth + 1, t.uid + 1)
    ensures WellBuilt(d, t, depth)
  {
  }

  /** A keyword's fixed-up leaves. */
  lemma SortedWellBuilt(d: Names, ts: seq<Tree>, depth: nat, above: nat)
    requires AllLeaves(d, ts) && AllWellBuilt(d, ts, depth, above)
    ensures Comparable(d, ts)
    ensures AllWellBuilt(d, Fixup(d, ts), depth, above) && Arranged(d, Fixup(d, ts))
    ensures forall i :: 0 <= i < |Fixup(d, ts)| ==> Fixup(d, ts)[i].column == i % WORD16
  {
    hide WellBuilt, StrictlySorted, IsLeaf, HasInfo, Unique, StableSort, AllWellBuilt, Fixup;
    FixupOfLeaves(d, ts);
    FixupSorts(d, ts);
    FixupMembers(d, ts);
    SubMembers(Unique(StableSort(d, ts)), ts, d, depth, above);
    NumberedWellBuilt(d, Unique(StableSort(d, ts)), depth, above);
  }

  /** A list's collapsed submenus. */
  lemma CollapsedWellBuilt(d: Names, kept: seq<Tree>, depth: nat, above: nat)
    requires AllCategories(kept) && AllWellBuilt(d, kept, depth, above)
    ensures var c := Number(Unique(kept));
      && AllWellBuilt(d, c, depth, above)
      && AllCategories(c) && NoAdjacentEqual(c)
      && IdsOf(c) <= IdsOf(kept)
      && (forall i :: 0 <= i < |c| ==> c[i].column == i % WORD16)
  {
    hide WellBuilt, Unique, AllWellBuilt, IdsOf;
    IdsOfUnique(kept);
    IdsOfNumber(Unique(kept));
    UniqueSubset(kept);
    UniqueOfCategories(kept);
    UniqueHasNoAdjacent(kept);
    NumberKeepsGaps(Unique(kept));
    SubMembers(Unique(kept), kept, d, depth, above);
    NumberedWellBuilt(d, Unique(kept), depth, above);
  }

  lemma NumberKeepsGaps(ts: seq<Tree>)
    requires NoAdjacentEqual(ts)
    ensures NoAdjacentEqual(Number(ts))
  {
    forall i | 0 <= i < |ts| - 1
      ensures Number(ts)[i].info != Number(ts)[i + 1].info
    {
      assert ts[i].info != ts[i + 1].info;
    }
  }

  lemma KeywordMenuBuilt(m: Data, k: nat, depth: nat, made: nat)
    requires made + 1 + |AllLeafInfos(m.names, m.matches(k))| <= WORD32
    ensures var t := KeywordMenu(m, k, depth % WORD16, made);
      && t.uid == made
      && Within(Ids(t), made, made + 1 + |AllLeafInfos(m.names, m.matches(k))|)
      && (IsCategory(t) ==> WellBuilt(m.names, t, depth))
  {
    hide WellBuilt, AllWellBuilt, Within, IdsOf, Ids, Fixup, AllLeafInfos, NewLeaves, IsLeaf, Arranged;
    var d, infos, t := m.names, AllLeafInfos(m.names, m.matches(k)), KeywordMenu(m, k, depth % WORD16, made);
    var row := (depth + 1) % WORD16;
    assert NextRow(depth % WORD16) == row;
    var ts := NewLeaves(infos, row, made + 1);
    LeavesWellBuilt(d, infos, depth + 1, made + 1);
    SortedWellBuilt(d, ts, depth + 1, made + 1);
    IdsOfNewLeaves(infos, row, made + 1);
    IdsOfFixup(d, ts);
    WithinPart(IdsOf(Fixup(d, ts)), IdsOf(ts), made + 1, made + 1 + |infos|);
    WithinNode(t, made + 1 + |infos|);
    if IsCategory(t) {
      CategoryBuilt(d, t, depth);
    }
  }

  lemma ListMenuBuilt(d: Names, k: nat, kept: seq<Tree>, depth: nat, made: nat, end: nat)
    requires AllCategories(kept) && AllWellBuilt(d, kept, depth + 1, made + 1)
    requires Within(IdsOf(kept), made + 1, end) && made < end <= WORD32
    ensures var t := Tree(made % WORD32, depth % WORD16, 0, CategoryInfo(k), Number(Unique(kept)));
      && t.uid == made
      && Within(Ids(t), made, end)
      && (IsCategory(t) ==> WellBuilt(d, t, depth))
  {
    hide WellBuilt, AllWellBuilt, Within, IdsOf, Ids, Unique, StrictlySorted;
    var t := Tree(made % WORD32, depth % WORD16, 0, CategoryInfo(k), Number(Unique(kept)));
    CollapsedWellBuilt(d, kept, depth + 1, made + 1);
    WithinPart(IdsOf(t.children), IdsOf(kept), made + 1, end);
    WithinNode(t, end);
    if IsCategory(t) {
      CategoryBuilt(d, t, depth);
    }
  }

  lemma {:induction false} SubMenuBuilt(m: Data, f: Form, depth: nat, made: nat)
    requires Acyclic(m) && SubMenu(m, f, depth % WORD16, made).1 <= WORD32
    ensures var (t, made') := SubMenu(m, f, depth % WORD16, made);
      && made <= made'
      && (t.Some? ==> t.value.uid == made && Within(Ids(t.value), made, made'))
      && (t.Some? && IsCategory(t.value) ==> WellBuilt(m.names, t.value, depth))
    decreases FormRank(m, f), 0, 0
  {
    hide WellBuilt, Within, Ids, KeywordMenu;
    match f
    case Kywd(k) =>
      if m.matches(k) != [] {
        KeywordMenuBuilt(m, k, depth, made);
      }
    case Flst(l) =>
      var forms := FormsOf(m, l);
      if forms != [] && forms[0].Kywd? {
        assert NextRow(depth % WORD16) == (depth + 1) % WORD16;
        var (kept, made') := Kept(m, m.rank(l), forms, |forms|, NextRow(depth % WORD16), made + 1);
        KeptBuilt(m, m.rank(l), forms, |forms|, depth + 1, made + 1);
        KeptAreCategories(m, m.rank(l), forms, |forms|, NextRow(depth % WORD16), made + 1);
        ListMenuBuilt(m.names, forms[0].keyword, kept, depth, made, made');
      }
    case _ =>
  }

  lemma {:induction false} KeptBuilt(m: Data, r: nat, forms: seq<Form>, n: nat, depth: nat, made: nat)
    requires Acyclic(m) && RanksBelow(m, forms, r) && n <= |forms|
    requires Kept(m, r, forms, n, depth % WORD16, made).1 <= WORD32
    ensures var (kept, made') := Kept(m, r, forms, n, depth % WORD16, made);
      && made <= made'
      && Within(IdsOf(kept), made, made')
      && AllWellBuilt(m.names, kept, depth, made)
    decreases r, 1, n
  {
    hide WellBuilt, Ids, IdsOf;
    if n == 0 {
      assert IdsOf([]) == multiset{} by { NoIds(); }
    } else {
      var f := forms[n - 1];
      var (kept, made1) := Kept(m, r, forms, n - 1, depth % WORD16, made);
      MadeGrows(m, f, depth % WORD16, made1);
      KeptBuilt(m, r, forms, n - 1, depth, made);
      if !f.Nothing? && !m.isDeleted(f) {
        SubMenuBuilt(m, f, depth, made1);
        var t := SubMenu(m, f, depth % WORD16, made1).0;
        if t.Some? {
          IdsAppend(kept, t.value);
        }
      }
    }
  }

  lemma NoIds()
    ensures IdsOf([]) == multiset{}
  {
  }

  lemma {:induction false} MadeGrows(m: Data, f: Form, row: nat, made: nat)
    requires Acyclic(m)
    ensures made <= SubMenu(m, f, row, made).1
    decreases FormRank(m, f), 0, 0
  {
    if f.Flst? {
      var forms := FormsOf(m, f.list);
      if forms != [] && forms[0].Kywd? {
        KeptGrows(m, m.rank(f.list), forms, |forms|, NextRow(row), made + 1);
      }
    }
  }

  lemma {:induction false} KeptGrows(m: Data, r: nat, forms: seq<Form>, n: nat, row: nat, made: nat)
    requires Acyclic(m) && RanksBelow(m, forms, r) && n <= |forms|
    ensures made <= Kept(m, r, forms, n, row, made).1
    decreases r, 1, n
  {
    if n == 0 {
    } else {
      KeptGrows(m, r, forms, n - 1, row, made);
      MadeGrows(m, forms[n - 1], row, Kept(m, r, forms, n - 1, row, made).1);
    }
  }

  // ---- The whole menu ----

  /** The root's children, and how many nodes were created for them. */
  ghost function RootMenu(m: Data, rootList: nat): (seq<Tree>, nat)
    requires Acyclic(m)
  {
    var forms := FormsOf(m, rootList);
    var (kept, made) := Kept(m, m.rank(rootList), forms, |forms|, 0, 0);
    (Number(Unique(kept)), made)
  }

  /** For any acyclic data and fewer than 2^32 created nodes: every node of the
      menu is well built, columns count siblings, and no id occurs twice, the
      root's own id 2^32 - 1 included. */
  lemma RootMenuInvariant(m: Data, rootList: nat)
    requires Acyclic(m) && RootMenu(m, rootList).1 < 0x1_0000_0000
    ensures var (top, made) := RootMenu(m, rootList);
      && AllWellBuilt(m.names, top, 0, 0)
      && (forall i :: 0 <= i < |top| ==> top[i].column == i % 0x1_0000)
      && AllCategories(top) && NoAdjacentEqual(top)
      && Within(IdsOf(top), 0, made)
      && IdsOf(top)[0xFFFF_FFFF] == 0
  {
    hide WellBuilt, AllWellBuilt, Within, IdsOf, Unique, Kept, AllCategories, NoAdjacentEqual;
    var forms := FormsOf(m, rootList);
    var (kept, made) := Kept(m, m.rank(rootList), forms, |forms|, 0, 0);
    KeptBuilt(m, m.rank(rootList), forms, |forms|, 0, 0);
    KeptAreCategories(m, m.rank(rootList), forms, |forms|, 0, 0);
    CollapsedWellBuilt(m.names, kept, 0, 0);
    WithinPart(IdsOf(Number(Unique(kept))), IdsOf(kept), 0, made);
    IdAbsent(IdsOf(Number(Unique(kept))), made);
  }

  lemma IdAbsent(ids: multiset<nat>, made: nat)
    requires Within(ids, 0, made) && made < WORD32
    ensures ids[WORD32 - 1] == 0
  {
  }
}
