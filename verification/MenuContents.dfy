/** What a workshop menu contains, told from the form lists and the matched
    recipes alone: which forms get a submenu, in what order, and with which leaves.
    The built menu is shown to contain exactly that. */
module MenuContents {
  import opened Prelude
  import opened MenuOrder
  import opened MenuArrange
  import opened MenuTree

  // ---- What should stand at a level ----

  predicate Usable(m: Data, f: Form) {
    f != Nothing && !m.isDeleted(f)
  }

  /** The keyword that a submenu for this form is labelled with: its own, or the
      first entry of its list. */
  function Label(m: Data, f: Form): Option<nat> {
    match f
    case Kywd(k) => Some(k)
    case Flst(l) =>
      if l in m.lists && |m.lists[l]| > 0 && m.lists[l][0].Kywd? then Some(m.lists[l][0].keyword) else None
    case _ => None
  }

  /** Recipe `r` makes a leaf with this data: one for the form that it creates, or
      one for each form of the list that it creates. */
  predicate MakesLeaf(m: Data, r: nat, info: Info) {
    match m.names.recipe(r).item
    case Single(form) => info == Info(None, Some(r), None, Some(form))
    case FromList(forms) => info.form.Some? && info.form.value in forms && info == Info(None, Some(r), Some(r), info.form)
  }

  ghost predicate LeafOf(m: Data, k: nat, info: Info) {
    exists i :: 0 <= i < |m.matches(k)| && MakesLeaf(m, m.matches(k)[i], info)
  }

  /** Somewhere below the form there is a keyword with a leaf. */
  ghost predicate HasContent(m: Data, f: Form)
    requires Acyclic(m)
    decreases FormRank(m, f)
  {
    match f
    case Kywd(k) => exists info :: LeafOf(m, k, info)
    case Flst(l) =>
      && l in m.lists && Label(m, f).Some?
      && exists i :: 0 <= i < |m.lists[l]| && Usable(m, m.lists[l][i]) && HasContent(m, m.lists[l][i])
    case _ => false
  }

  ghost predicate Stands(m: Data, f: Form)
    requires Acyclic(m)
  {
    Usable(m, f) && HasContent(m, f)
  }

  /** Form `j` stands, and the form that stands just before it has another label. */
  ghost predicate RunStart(m: Data, forms: seq<Form>, j: nat)
    requires Acyclic(m) && j < |forms|
  {
    && Stands(m, forms[j])
    && !exists i :: 0 <= i < j && JustBefore(m, forms, i, j) && Label(m, forms[i]) == Label(m, forms[j])
  }

  ghost predicate JustBefore(m: Data, forms: seq<Form>, i: nat, j: nat)
    requires Acyclic(m) && i < j <= |forms|
  {
    Stands(m, forms[i]) && forall h :: i < h < j ==> !Stands(m, forms[h])
  }

  /** `pos` lists, in order, the starts of runs among the first `n` forms. */
  ghost predicate IsRuns(m: Data, forms: seq<Form>, pos: seq<nat>, n: nat)
    requires Acyclic(m) && n <= |forms|
  {
    && (forall i :: 0 <= i < |pos| ==> pos[i] < n)
    && (forall i, j :: 0 <= i < j < |pos| ==> pos[i] < pos[j])
    && (forall j :: 0 <= j < n ==> (RunStart(m, forms, j) <==> j in pos))
  }

  // ---- What a node and a level show ----

  /** A keyword's node has exactly the leaves of its matched recipes, in menu order;
      a list's node has the level of its forms. */
  ghost predicate ShowsForm(m: Data, t: Tree, f: Form)
    requires Acyclic(m)
    decreases FormRank(m, f), 0
  {
    match f
    case Kywd(k) =>
      && t.info == Info(Some(k), None, None, None)
      && (forall info :: HasInfo(t.children, info) <==> LeafOf(m, k, info))
      && InMenuOrder(m.names, t.children)
      && (forall i :: 0 <= i < |t.children| ==> t.children[i].children == [])
    case Flst(l) =>
      && l in m.lists && Label(m, f).Some?
      && t.info == Info(Label(m, f), None, None, None)
      && ShowsLevel(m, m.rank(l), t.children, m.lists[l])
    case _ => false
  }

  /** One node for each start of a run, in list order. */
  ghost predicate ShowsLevel(m: Data, r: nat, ts: seq<Tree>, forms: seq<Form>)
    requires Acyclic(m) && RanksBelow(m, forms, r)
    decreases r, 2
  {
    exists pos :: IsRuns(m, forms, pos, |forms|) && ShowsAt(m, r, ts, forms, pos)
  }

  ghost predicate ShowsAt(m: Data, r: nat, ts: seq<Tree>, forms: seq<Form>, pos: seq<nat>)
    requires Acyclic(m) && RanksBelow(m, forms, r)
    decreases r, 1
  {
    && |ts| == |pos|
    && forall i :: 0 <= i < |pos| ==> pos[i] < |forms| && ShowsForm(m, ts[i], forms[pos[i]])
  }

  // ---- A keyword's leaves ----

  lemma LeafInfosMean(m: Data, r: nat, info: Info)
    ensures info in LeafInfos(m.names, r) <==> MakesLeaf(m, r, info)
  {
    var infos := LeafInfos(m.names, r);
    if MakesLeaf(m, r, info) && m.names.recipe(r).item.FromList? {
      var forms := m.names.recipe(r).item.forms;
      var i :| 0 <= i < |forms| && forms[i] == info.form.value;
      assert infos[i] == info;
    }
  }

  lemma {:induction false} AllLeafInfosMean(m: Data, rs: seq<nat>, info: Info)
    ensures info in AllLeafInfos(m.names, rs) <==> exists i :: 0 <= i < |rs| && MakesLeaf(m, rs[i], info)
  {
    hide MakesLeaf, LeafInfos;
    if rs == [] {
    } else {
      AllLeafInfosMean(m, rs[..|rs| - 1], info);
      LeafInfosMean(m, rs[|rs| - 1], info);
    }
  }

  lemma NewLeavesInfos(infos: seq<Info>, row: nat, made: nat, info: Info)
    ensures HasInfo(NewLeaves(infos, row, made), info) <==> info in infos
  {
    if i :| 0 <= i < |infos| && infos[i] == info {
      assert NewLeaves(infos, row, made)[i].info == info;
    }
  }

  lemma LeavesHaveNoChildren(d: Names, ts: seq<Tree>)
    requires StrictlySorted(d, ts)
    ensures forall i :: 0 <= i < |ts| ==> ts[i].children == []
  {
    hide LeafLess, IsLeaf;
    forall i | 0 <= i < |ts|
      ensures ts[i].children == []
    {
      assert IsLeafNode(d, ts[i]);
    }
  }

  lemma SomeInfo(ts: seq<Tree>)
    ensures ts != [] <==> exists info :: HasInfo(ts, info)
  {
    if ts != [] {
      assert HasInfo(ts, ts[0].info);
    }
  }

  lemma KeywordShows(m: Data, k: nat, row: nat, made: nat)
    requires Acyclic(m)
    ensures var t := KeywordMenu(m, k, row, made);
      && ShowsForm(m, t, Kywd(k))
      && (t.children != [] <==> HasContent(m, Kywd(k)))
  {
    hide IsLeaf, HasInfo, StrictlySorted, InMenuOrder, Fixup, NewLeaves, AllLeafInfos, MakesLeaf;
    var d, infos, t := m.names, AllLeafInfos(m.names, m.matches(k)), KeywordMenu(m, k, row, made);
    var leaves := NewLeaves(infos, NextRow(row), made + 1);
    NewLeavesAreLeaves(d, m.matches(k), NextRow(row), made + 1);
    FixupOfLeaves(d, leaves);
    LeavesHaveNoChildren(d, t.children);
    forall info
      ensures HasInfo(t.children, info) <==> LeafOf(m, k, info)
    {
      NewLeavesInfos(infos, NextRow(row), made + 1, info);
      AllLeafInfosMean(m, m.matches(k), info);
    }
    SomeInfo(t.children);
  }

  // ---- Submenus and levels ----

  lemma NumberedShows(m: Data, t: Tree, f: Form, i: nat)
    requires Acyclic(m)
    ensures ShowsForm(m, Numbered(t, i), f) <==> ShowsForm(m, t, f)
  {
  }

  /** What is known after the first `n` forms of a level. */
  ghost predicate Sofar(m: Data, r: nat, forms: seq<Form>, n: nat, kept: seq<Tree>, pos: seq<nat>)
    requires Acyclic(m) && RanksBelow(m, forms, r) && n <= |forms|
  {
    && IsRuns(m, forms, pos, n) && ShowsAt(m, r, Unique(kept), forms, pos)
    && (kept == [] <==> forall j :: 0 <= j < n ==> !Stands(m, forms[j]))
    && (kept != [] ==> exists i :: 0 <= i < n && JustBefore(m, forms, i, n) && LastLabel(m, kept, forms[i]))
  }

  ghost predicate LastLabel(m: Data, kept: seq<Tree>, f: Form) {
    && Unique(kept) != [] && Label(m, f).Some?
    && Unique(kept)[|Unique(kept)| - 1].info == Info(Label(m, f), None, None, None)
  }

  lemma SofarSkip(m: Data, r: nat, forms: seq<Form>, n: nat, kept: seq<Tree>, pos: seq<nat>)
    requires Acyclic(m) && RanksBelow(m, forms, r) && n < |forms| && Sofar(m, r, forms, n, kept, pos)
    requires !Stands(m, forms[n])
    ensures Sofar(m, r, forms, n + 1, kept, pos)
  {
    hide Stands, ShowsForm, Unique;
    if kept != [] {
      var i :| 0 <= i < n && JustBefore(m, forms, i, n) && LastLabel(m, kept, forms[i]);
      assert JustBefore(m, forms, i, n + 1);
    }
  }

  lemma FirstStartsARun(m: Data, forms: seq<Form>, n: nat)
    requires Acyclic(m) && n < |forms| && Stands(m, forms[n]) && forall j :: 0 <= j < n ==> !Stands(m, forms[j])
    ensures RunStart(m, forms, n)
  {
  }

  lemma LabelDecides(m: Data, forms: seq<Form>, i: nat, n: nat)
    requires Acyclic(m) && i < n < |forms| && Stands(m, forms[n]) && JustBefore(m, forms, i, n)
    ensures RunStart(m, forms, n) <==> Label(m, forms[i]) != Label(m, forms[n])
  {
    hide Stands;
    forall h | 0 <= h < n && JustBefore(m, forms, h, n)
      ensures h == i
    {
    }
  }

  lemma RunsExtend(m: Data, forms: seq<Form>, pos: seq<nat>, n: nat)
    requires Acyclic(m) && n < |forms| && IsRuns(m, forms, pos, n)
    ensures IsRuns(m, forms, if RunStart(m, forms, n) then pos + [n] else pos, n + 1)
  {
    hide RunStart;
    var longer := pos + [n];
    assert longer[|pos|] == n;
    forall j | 0 <= j < n
      ensures j in longer <==> j in pos
    {
    }
  }

  lemma SofarTake(m: Data, r: nat, forms: seq<Form>, n: nat, kept: seq<Tree>, pos: seq<nat>, t: Tree) returns (pos': seq<nat>)
    requires Acyclic(m) && RanksBelow(m, forms, r) && n < |forms| && Sofar(m, r, forms, n, kept, pos)
    requires Stands(m, forms[n]) && ShowsForm(m, t, forms[n])
    requires Label(m, forms[n]).Some? && t.info == Info(Label(m, forms[n]), None, None, None)
    ensures Sofar(m, r, forms, n + 1, kept + [t], pos')
  {
    hide Stands, ShowsForm, Unique, RunStart, IsRuns, Label;
    UniqueAppend(kept, t);
    RunsExtend(m, forms, pos, n);
    pos' := if RunStart(m, forms, n) then pos + [n] else pos;
    if kept == [] {
      FirstStartsARun(m, forms, n);
      NothingToArrange(m.names);
    } else {
      var i :| 0 <= i < n && JustBefore(m, forms, i, n) && LastLabel(m, kept, forms[i]);
      LabelDecides(m, forms, i, n);
    }
    assert JustBefore(m, forms, n, n + 1) && LastLabel(m, kept + [t], forms[n]);
  }

  lemma {:induction false} KeptShows(m: Data, r: nat, forms: seq<Form>, n: nat, row: nat, made: nat) returns (pos: seq<nat>)
    requires Acyclic(m) && RanksBelow(m, forms, r) && n <= |forms|
    ensures Sofar(m, r, forms, n, Kept(m, r, forms, n, row, made).0, pos)
    decreases r, 1, n
  {
    hide ShowsForm, HasContent, Unique, Sofar, Label;
    if n == 0 {
      pos := [];
      NothingSofar(m, r, forms);
    } else {
      var f := forms[n - 1];
      var (kept, made1) := Kept(m, r, forms, n - 1, row, made);
      pos := KeptShows(m, r, forms, n - 1, row, made);
      SubMenuShows(m, f, row, made1);
      if Stands(m, f) {
        pos := SofarTake(m, r, forms, n - 1, kept, pos, SubMenu(m, f, row, made1).0.value);
      } else {
        SofarSkip(m, r, forms, n - 1, kept, pos);
      }
    }
  }

  lemma NothingSofar(m: Data, r: nat, forms: seq<Form>)
    requires Acyclic(m) && RanksBelow(m, forms, r)
    ensures Sofar(m, r, forms, 0, [], [])
  {
    NothingToArrange(m.names);
  }

  lemma LevelShown(m: Data, r: nat, forms: seq<Form>, kept: seq<Tree>, pos: seq<nat>)
    requires Acyclic(m) && RanksBelow(m, forms, r) && Sofar(m, r, forms, |forms|, kept, pos)
    ensures ShowsLevel(m, r, Number(Unique(kept)), forms)
    ensures Number(Unique(kept)) != [] <==> exists j :: 0 <= j < |forms| && Stands(m, forms[j])
  {
    hide ShowsForm, Stands, IsRuns, Unique;
    var u := Unique(kept);
    forall i | 0 <= i < |pos|
      ensures ShowsForm(m, Number(u)[i], forms[pos[i]])
    {
      NumberedShows(m, u[i], forms[pos[i]], i);
    }
    assert ShowsAt(m, r, Number(u), forms, pos);
    if kept == [] {
      NothingToArrange(m.names);
    }
  }

  /** A form's submenu has content exactly when the form has, and then shows it. */
  lemma {:induction false} SubMenuShows(m: Data, f: Form, row: nat, made: nat)
    requires Acyclic(m)
    ensures var t := SubMenu(m, f, row, made).0;
      && (t.Some? && IsCategory(t.value) <==> HasContent(m, f))
      && (HasContent(m, f) ==> ShowsForm(m, t.value, f) && Label(m, f).Some? && t.value.info == Info(Label(m, f), None, None, None))
    decreases FormRank(m, f), 0, 0
  {
    hide KeywordMenu, Kept, LeafOf, HasInfo, InMenuOrder;
    match f
    case Kywd(k) =>
      if m.matches(k) != [] {
        KeywordShows(m, k, row, made);
      } else {
        NoLeaves(m, k);
      }
    case Flst(l) =>
      var forms := FormsOf(m, l);
      if forms != [] && forms[0].Kywd? {
        var pos := KeptShows(m, m.rank(l), forms, |forms|, NextRow(row), made + 1);
        LevelShown(m, m.rank(l), forms, Kept(m, m.rank(l), forms, |forms|, NextRow(row), made + 1).0, pos);
      }
    case _ =>
  }

  lemma NoLeaves(m: Data, k: nat)
    requires m.matches(k) == []
    ensures forall info :: !LeafOf(m, k, info)
  {
  }

  // ---- The whole menu ----

  /** The root's children are one submenu for each start of a run in the root list,
      in list order, each with exactly the content of its form. */
  lemma RootMenuContents(m: Data, rootList: nat)
    requires Acyclic(m)
    ensures RanksBelow(m, FormsOf(m, rootList), m.rank(rootList))
    ensures ShowsLevel(m, m.rank(rootList), RootMenu(m, rootList).0, FormsOf(m, rootList))
  {
    hide Kept, ShowsForm, Unique;
    var forms := FormsOf(m, rootList);
    var pos := KeptShows(m, m.rank(rootList), forms, |forms|, 0, 0);
    LevelShown(m, m.rank(rootList), forms, Kept(m, m.rank(rootList), forms, |forms|, 0, 0).0, pos);
  }

  /** A child labelled `k` stands at a level if and only if some form of the list is
      usable, is or starts with keyword `k`, and has content. */
  lemma LabelStands(m: Data, r: nat, ts: seq<Tree>, forms: seq<Form>, k: nat)
    requires Acyclic(m) && RanksBelow(m, forms, r) && ShowsLevel(m, r, ts, forms)
    ensures HasInfo(ts, Info(Some(k), None, None, None)) <==>
      exists j :: 0 <= j < |forms| && Usable(m, forms[j]) && HasContent(m, forms[j]) && Label(m, forms[j]) == Some(k)
  {
    hide HasContent, Label;
    var pos :| IsRuns(m, forms, pos, |forms|) && ShowsAt(m, r, ts, forms, pos);
    if i :| 0 <= i < |ts| && ts[i].info == Info(Some(k), None, None, None) {
      assert pos[i] in pos && RunStart(m, forms, pos[i]);
      ShownLabel(m, ts[i], forms[pos[i]]);
    }
    if j :| 0 <= j < |forms| && Stands(m, forms[j]) && Label(m, forms[j]) == Some(k) {
      var s := StartOf(m, forms, j);
      var i :| 0 <= i < |pos| && pos[i] == s;
      ShownLabel(m, ts[i], forms[s]);
    }
  }

  lemma ShownLabel(m: Data, t: Tree, f: Form)
    requires Acyclic(m) && ShowsForm(m, t, f)
    ensures t.info == Info(Label(m, f), None, None, None)
  {
  }

  lemma {:induction false} StartOf(m: Data, forms: seq<Form>, j: nat) returns (s: nat)
    requires Acyclic(m) && j < |forms| && Stands(m, forms[j])
    ensures s < |forms| && RunStart(m, forms, s) && Label(m, forms[s]) == Label(m, forms[j])
    decreases j
  {
    hide Stands, Label;
    if RunStart(m, forms, j) {
      s := j;
    } else {
      var i :| 0 <= i < j && JustBefore(m, forms, i, j) && Label(m, forms[i]) == Label(m, forms[j]);
      s := StartOf(m, forms, i);
    }
  }
}
