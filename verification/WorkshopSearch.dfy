/** The cached VR workshop search: a keyword index over all recipes, built once
    and cleared on reload, and a depth-capped search through form lists that may
    contain each other. */
module WorkshopSearch {
  import opened Prelude

  type Keyword = nat
  type ListId = nat
  type Recipe = nat  // position in the engine's recipe array

  const MAX_DEPTH := 64

  /** A constructible object: its filter array is null, or holds keyword indices. */
  datatype Cobj = Cobj(hasCreatedItem: bool, filters: Option<seq<nat>>)

  datatype Form = Nothing | List(list: ListId) | Kywd(keyword: Keyword) | Other

  /** What the engine provides: the recipe array (absent before the data handler
      exists), the typed keyword table, and the test whether a recipe is shown. */
  datatype World = World(
    recipes: Option<seq<Option<Cobj>>>,
    keywordAt: nat -> Option<Keyword>,
    canShow: (Recipe, Keyword) -> bool)

  // ---- The index ----

  /** The filter entries that are looked at: a count above 32 is taken as one. */
  function Clamped(filters: seq<nat>): seq<nat> {
    if |filters| > 32 then filters[..1] else filters
  }

  function Resolve(w: World, indices: seq<nat>): seq<Keyword> {
    if indices == [] then []
    else
      var rest := Resolve(w, indices[..|indices| - 1]);
      match w.keywordAt(indices[|indices| - 1])
      case Some(k) => rest + [k]
      case None => rest
  }

  /** The keywords that a recipe is listed under. */
  function Listed(w: World, cobj: Option<Cobj>): seq<Keyword> {
    if cobj.None? || !cobj.value.hasCreatedItem || cobj.value.filters.None? then []
    else Resolve(w, Clamped(cobj.value.filters.value))
  }

  /** One copy of `r` for each occurrence of `k`. */
  function Copies(ks: seq<Keyword>, k: Keyword, r: Recipe): seq<Recipe> {
    if ks == [] then []
    else Copies(ks[..|ks| - 1], k, r) + if ks[|ks| - 1] == k then [r] else []
  }

  function RecipesUpTo(w: World, cobjs: seq<Option<Cobj>>, k: Keyword, n: nat): seq<Recipe>
    requires n <= |cobjs|
  {
    if n == 0 then [] else RecipesUpTo(w, cobjs, k, n - 1) + Copies(Listed(w, cobjs[n - 1]), k, n - 1)
  }

  /** The recipes listed under `k`, in array order. */
  function RecipesFor(w: World, k: Keyword): seq<Recipe> {
    if w.recipes.None? then [] else RecipesUpTo(w, w.recipes.value, k, |w.recipes.value|)
  }

  ghost predicate IsIndex(m: map<Keyword, seq<Recipe>>, w: World) {
    forall k: Keyword :: Get(m, k) == if RecipesFor(w, k) == [] then None else Some(RecipesFor(w, k))
  }

  predicate ListedAndShown(w: World, r: Recipe, k: Keyword)
    requires w.recipes.Some? && r < |w.recipes.value|
  {
    k in Listed(w, w.recipes.value[r]) && w.canShow(r, k)
  }

  /** The recipes before `r` are indexed, and `r` itself under `done`. */
  ghost predicate IndexedUpTo(m: map<Keyword, seq<Recipe>>, w: World, cobjs: seq<Option<Cobj>>, r: nat, done: seq<Keyword>)
    requires r <= |cobjs|
  {
    forall k: Keyword :: AtKey(m, k) == RecipesUpTo(w, cobjs, k, r) + Copies(done, k, r) && (k in m ==> m[k] != [])
  }

  function AtKey(m: map<Keyword, seq<Recipe>>, k: Keyword): seq<Recipe> {
    if k in m then m[k] else []
  }

  lemma IndexPush(m: map<Keyword, seq<Recipe>>, w: World, cobjs: seq<Option<Cobj>>, r: nat, done: seq<Keyword>, k: Keyword)
    requires r <= |cobjs| && IndexedUpTo(m, w, cobjs, r, done)
    ensures IndexedUpTo(m[k := AtKey(m, k) + [r]], w, cobjs, r, done + [k])
  {
    hide RecipesUpTo, Copies;
    var m' := m[k := AtKey(m, k) + [r]];
    forall j: Keyword
      ensures AtKey(m', j) == RecipesUpTo(w, cobjs, j, r) + Copies(done + [k], j, r)
    {
      CopiesPush(done, k, j, r);
      assert AtKey(m, j) == RecipesUpTo(w, cobjs, j, r) + Copies(done, j, r);
      Regroup(RecipesUpTo(w, cobjs, j, r), Copies(done, j, r), [r]);
    }
  }

  lemma CopiesPush(done: seq<Keyword>, k: Keyword, j: Keyword, r: Recipe)
    ensures Copies(done + [k], j, r) == if k == j then Copies(done, j, r) + [r] else Copies(done, j, r)
  {
    assert (done + [k])[..|done|] == done;
  }

  lemma Regroup(a: seq<Recipe>, b: seq<Recipe>, c: seq<Recipe>)
    ensures a + b + c == a + (b + c)
  {
  }

  lemma IndexNext(m: map<Keyword, seq<Recipe>>, w: World, cobjs: seq<Option<Cobj>>, r: nat)
    requires r < |cobjs| && IndexedUpTo(m, w, cobjs, r, Listed(w, cobjs[r]))
    ensures IndexedUpTo(m, w, cobjs, r + 1, [])
  {
    forall k: Keyword
      ensures AtKey(m, k) == RecipesUpTo(w, cobjs, k, r + 1) + Copies([], k, r + 1)
    {
      assert AtKey(m, k) == RecipesUpTo(w, cobjs, k, r) + Copies(Listed(w, cobjs[r]), k, r);
    }
  }

  lemma IndexDone(m: map<Keyword, seq<Recipe>>, w: World)
    requires w.recipes.Some? && IndexedUpTo(m, w, w.recipes.value, |w.recipes.value|, [])
    ensures IsIndex(m, w)
  {
    forall k: Keyword
      ensures Get(m, k) == if RecipesFor(w, k) == [] then None else Some(RecipesFor(w, k))
    {
      assert AtKey(m, k) == RecipesFor(w, k);
    }
  }

  /** The uncached scan: some recipe listed under `k` is shown under it. */
  ghost predicate HasShowable(w: World, k: Keyword) {
    w.recipes.Some? && exists r | 0 <= r < |w.recipes.value| :: ListedAndShown(w, r, k)
  }

  lemma {:induction false} CopiesAre(ks: seq<Keyword>, k: Keyword, r: Recipe)
    ensures forall x :: x in Copies(ks, k, r) <==> x == r && k in ks
  {
    if ks == [] {
    } else {
      CopiesAre(ks[..|ks| - 1], k, r);
      assert ks == ks[..|ks| - 1] + [ks[|ks| - 1]];
    }
  }

  lemma {:induction false} MembersUpTo(w: World, cobjs: seq<Option<Cobj>>, k: Keyword, n: nat)
    requires n <= |cobjs|
    ensures forall r: Recipe :: r in RecipesUpTo(w, cobjs, k, n) <==> r < n && k in Listed(w, cobjs[r])
  {
    hide Listed, Copies;
    if n == 0 {
    } else {
      MembersUpTo(w, cobjs, k, n - 1);
      CopiesAre(Listed(w, cobjs[n - 1]), k, n - 1);
    }
  }

  /** The cached question "is some indexed recipe shown" is the uncached scan. */
  lemma IndexAnswersScan(w: World, k: Keyword)
    ensures (exists r :: r in RecipesFor(w, k) && w.canShow(r, k)) <==> HasShowable(w, k)
  {
    if w.recipes.Some? {
      MembersUpTo(w, w.recipes.value, k, |w.recipes.value|);
      if r :| r in RecipesFor(w, k) && w.canShow(r, k) {
        assert ListedAndShown(w, r, k);
      }
    }
  }

  // ---- What is indexed, told from the recipes ----

  /** Recipe `r` is there, creates an item and has a filter array whose entry `i` is
      looked at and names keyword `k`. Of more than 32 entries only the first is. */
  predicate IndexedAt(w: World, r: nat, i: nat, k: Keyword) {
    && w.recipes.Some? && r < |w.recipes.value| && w.recipes.value[r].Some?
    && var c := w.recipes.value[r].value;
       && c.hasCreatedItem && c.filters.Some?
       && i < (if |c.filters.value| > 32 then 1 else |c.filters.value|)
       && w.keywordAt(c.filters.value[i]) == Some(k)
  }

  lemma {:induction false} ResolveMembers(w: World, indices: seq<nat>, k: Keyword)
    ensures k in Resolve(w, indices) <==> exists i :: 0 <= i < |indices| && w.keywordAt(indices[i]) == Some(k)
  {
    if indices == [] {
    } else {
      ResolveMembers(w, indices[..|indices| - 1], k);
    }
  }

  lemma ListedMembers(w: World, r: nat, k: Keyword)
    requires w.recipes.Some? && r < |w.recipes.value|
    ensures k in Listed(w, w.recipes.value[r]) <==> exists i :: IndexedAt(w, r, i, k)
  {
    hide Resolve;
    var cobj := w.recipes.value[r];
    if cobj.Some? && cobj.value.filters.Some? {
      var indices := Clamped(cobj.value.filters.value);
      ResolveMembers(w, indices, k);
      if k in Listed(w, cobj) {
        var i :| 0 <= i < |indices| && w.keywordAt(indices[i]) == Some(k);
        assert IndexedAt(w, r, i, k);
      }
    }
  }

  /** The index lists a recipe under a keyword exactly when one of its filter
      entries that are looked at names the keyword. */
  lemma RecipesForMeans(w: World, k: Keyword, r: Recipe)
    ensures r in RecipesFor(w, k) <==> exists i :: IndexedAt(w, r, i, k)
  {
    hide Listed;
    if w.recipes.Some? {
      MembersUpTo(w, w.recipes.value, k, |w.recipes.value|);
      if r < |w.recipes.value| {
        ListedMembers(w, r, k);
      }
    }
  }

  // ---- How often, and in what order ----

  function Naming(w: World, indices: seq<nat>, k: Keyword): set<nat> {
    set i: nat | i < |indices| && w.keywordAt(indices[i]) == Some(k)
  }

  lemma {:induction false} ResolveCount(w: World, indices: seq<nat>, k: Keyword)
    ensures multiset(Resolve(w, indices))[k] == |Naming(w, indices, k)|
  {
    hide Naming;
    if indices == [] {
      NothingNames(w, k);
    } else {
      ResolveCount(w, indices[..|indices| - 1], k);
      NamingPush(w, indices, k);
    }
  }

  lemma NothingNames(w: World, k: Keyword)
    ensures Naming(w, [], k) == {}
  {
  }

  lemma NamingPush(w: World, indices: seq<nat>, k: Keyword)
    requires indices != []
    ensures var n := |indices| - 1;
      |Naming(w, indices, k)| == |Naming(w, indices[..n], k)| + if w.keywordAt(indices[n]) == Some(k) then 1 else 0
  {
    var n := |indices| - 1;
    var before := Naming(w, indices[..n], k);
    assert forall i: nat :: i < n ==> indices[..n][i] == indices[i];
    if w.keywordAt(indices[n]) == Some(k) {
      assert Naming(w, indices, k) == before + {n} && n !in before;
    } else {
      assert Naming(w, indices, k) == before;
    }
  }

  lemma {:induction false} CopiesCount(ks: seq<Keyword>, k: Keyword, r: Recipe, x: Recipe)
    ensures multiset(Copies(ks, k, r))[x] == if x == r then multiset(ks)[k] else 0
  {
    if ks == [] {
    } else {
      CopiesCount(ks[..|ks| - 1], k, r, x);
      assert ks == ks[..|ks| - 1] + [ks[|ks| - 1]];
    }
  }

  lemma {:induction false} CountUpTo(w: World, cobjs: seq<Option<Cobj>>, k: Keyword, n: nat, r: Recipe)
    requires n <= |cobjs|
    ensures multiset(RecipesUpTo(w, cobjs, k, n))[r] == if r < n then multiset(Listed(w, cobjs[r]))[k] else 0
  {
    hide Listed, Copies;
    if n == 0 {
    } else {
      CountUpTo(w, cobjs, k, n - 1, r);
      CopiesCount(Listed(w, cobjs[n - 1]), k, n - 1, r);
    }
  }

  lemma {:induction false} AscendingUpTo(w: World, cobjs: seq<Option<Cobj>>, k: Keyword, n: nat)
    requires n <= |cobjs|
    ensures forall i, j :: 0 <= i < j < |RecipesUpTo(w, cobjs, k, n)| ==> RecipesUpTo(w, cobjs, k, n)[i] <= RecipesUpTo(w, cobjs, k, n)[j]
  {
    hide Listed, Copies;
    if n == 0 {
    } else {
      AscendingUpTo(w, cobjs, k, n - 1);
      MembersUpTo(w, cobjs, k, n - 1);
      CopiesAre(Listed(w, cobjs[n - 1]), k, n - 1);
      var before, copies := RecipesUpTo(w, cobjs, k, n - 1), Copies(Listed(w, cobjs[n - 1]), k, n - 1);
      forall i | 0 <= i < |before|
        ensures before[i] < n - 1
      {
        assert before[i] in before;
      }
      forall i | 0 <= i < |copies|
        ensures copies[i] == n - 1
      {
        assert copies[i] in copies;
      }
    }
  }

  /** A recipe is listed once for every such entry, and positions ascend. */
  lemma RecipesForOrder(w: World, k: Keyword, r: Recipe)
    ensures multiset(RecipesFor(w, k))[r] == |set i: nat | i < 32 && IndexedAt(w, r, i, k)|
    ensures forall i, j :: 0 <= i < j < |RecipesFor(w, k)| ==> RecipesFor(w, k)[i] <= RecipesFor(w, k)[j]
  {
    hide RecipesUpTo, Resolve;
    var positions := set i: nat | i < 32 && IndexedAt(w, r, i, k);
    if w.recipes.Some? {
      var cobjs := w.recipes.value;
      AscendingUpTo(w, cobjs, k, |cobjs|);
      CountUpTo(w, cobjs, k, |cobjs|, r);
      if r < |cobjs| && cobjs[r].Some? && cobjs[r].value.hasCreatedItem && cobjs[r].value.filters.Some? {
        var indices := Clamped(cobjs[r].value.filters.value);
        ResolveCount(w, indices, k);
        assert positions == Naming(w, indices, k);
      } else {
        assert positions == {};
        if r < |cobjs| {
          assert Listed(w, cobjs[r]) == [];
        }
      }
    } else {
      assert positions == {};
    }
  }

  // ---- The search as a function ----

  /** The lists of the game; a list that is not there has no entries. */
  type Graph = map<ListId, seq<Form>>

  function Forms(g: Graph, l: ListId): seq<Form> {
    if l in g then g[l] else []
  }

  ghost predicate Matches(w: World, ctx: Option<Keyword>, f: Form) {
    f.Kywd? && Some(f.keyword) != ctx && HasShowable(w, f.keyword)
  }

  /** What the depth-capped recursion answers. */
  ghost predicate Search(w: World, g: Graph, ctx: Option<Keyword>, l: ListId, depth: nat)
    decreases MAX_DEPTH - depth
  {
    depth < MAX_DEPTH && exists i :: 0 <= i < |Forms(g, l)| && EntryAnswers(w, g, ctx, Forms(g, l)[i], depth)
  }

  ghost predicate EntryAnswers(w: World, g: Graph, ctx: Option<Keyword>, f: Form, depth: nat)
    requires depth < MAX_DEPTH
    decreases MAX_DEPTH - depth, 0
  {
    if f.List? then Search(w, g, ctx, f.list, depth + 1) else Matches(w, ctx, f)
  }

  // ---- Reachability ----

  ghost predicate HasMatch(w: World, g: Graph, ctx: Option<Keyword>, l: ListId) {
    exists i :: 0 <= i < |Forms(g, l)| && Matches(w, ctx, Forms(g, l)[i])
  }

  /** A path of lists from `l`, each listed in the one before, that ends at a list
      with a matching keyword. */
  ghost predicate PathFrom(w: World, g: Graph, ctx: Option<Keyword>, l: ListId, path: seq<ListId>) {
    && path != [] && path[0] == l
    && (forall i :: 0 <= i < |path| - 1 ==> List(path[i + 1]) in Forms(g, path[i]))
    && HasMatch(w, g, ctx, path[|path| - 1])
  }

  ghost predicate Reaches(w: World, g: Graph, ctx: Option<Keyword>, l: ListId) {
    exists path :: PathFrom(w, g, ctx, l, path)
  }

  lemma {:induction false} SearchFindsPath(w: World, g: Graph, ctx: Option<Keyword>, l: ListId, depth: nat)
    returns (path: seq<ListId>)
    requires Search(w, g, ctx, l, depth)
    ensures PathFrom(w, g, ctx, l, path) && depth + |path| <= MAX_DEPTH
    decreases MAX_DEPTH - depth
  {
    var i :| 0 <= i < |Forms(g, l)| && EntryAnswers(w, g, ctx, Forms(g, l)[i], depth);
    var f := Forms(g, l)[i];
    if f.List? {
      var rest := SearchFindsPath(w, g, ctx, f.list, depth + 1);
      path := [l] + rest;
    } else {
      path := [l];
    }
  }

  lemma {:induction false} PathIsSearched(w: World, g: Graph, ctx: Option<Keyword>, l: ListId, depth: nat, path: seq<ListId>)
    requires PathFrom(w, g, ctx, l, path) && depth + |path| <= MAX_DEPTH
    ensures Search(w, g, ctx, l, depth)
    decreases |path|
  {
    if |path| == 1 {
      var i :| 0 <= i < |Forms(g, l)| && Matches(w, ctx, Forms(g, l)[i]);
      assert EntryAnswers(w, g, ctx, Forms(g, l)[i], depth);
    } else {
      PathIsSearched(w, g, ctx, path[1], depth + 1, path[1..]);
      assert List(path[0 + 1]) in Forms(g, path[0]);
      var i :| 0 <= i < |Forms(g, l)| && Forms(g, l)[i] == List(path[1]);
      assert EntryAnswers(w, g, ctx, Forms(g, l)[i], depth);
    }
  }

  /** Exactly what the cap admits, on every graph: the search succeeds if and only
      if a match is reached through at most 64 lists. */
  lemma SearchIsCappedReachability(w: World, g: Graph, ctx: Option<Keyword>, l: ListId)
    ensures Search(w, g, ctx, l, 0) <==> exists path :: PathFrom(w, g, ctx, l, path) && |path| <= MAX_DEPTH
  {
    if Search(w, g, ctx, l, 0) {
      var path := SearchFindsPath(w, g, ctx, l, 0);
    }
    if path :| PathFrom(w, g, ctx, l, path) && |path| <= MAX_DEPTH {
      PathIsSearched(w, g, ctx, l, 0, path);
    }
  }

  /** A match in plain terms: `path` leads from list `l` through at most 64 lists,
      each an entry of the one before; the last has keyword `k` as an entry, which is
      not the context; and recipe `r` names `k` in filter entry `i` and is shown. */
  predicate Finds(w: World, g: Graph, ctx: Option<Keyword>, l: ListId, path: seq<ListId>, k: Keyword, r: Recipe, i: nat) {
    && 0 < |path| <= 64 && path[0] == l
    && (forall j :: 0 <= j < |path| - 1 ==> path[j] in g && List(path[j + 1]) in g[path[j]])
    && path[|path| - 1] in g && Kywd(k) in g[path[|path| - 1]]
    && ctx != Some(k)
    && IndexedAt(w, r, i, k) && w.canShow(r, k)
  }

  lemma ShowableMeans(w: World, k: Keyword)
    ensures HasShowable(w, k) <==> exists r, i :: IndexedAt(w, r, i, k) && w.canShow(r, k)
  {
    hide Listed;
    if HasShowable(w, k) {
      var r :| 0 <= r < |w.recipes.value| && ListedAndShown(w, r, k);
      ListedMembers(w, r, k);
      var i :| IndexedAt(w, r, i, k);
      assert IndexedAt(w, r, i, k) && w.canShow(r, k);
    }
    if r, i :| IndexedAt(w, r, i, k) && w.canShow(r, k) {
      ListedMembers(w, r, k);
      assert ListedAndShown(w, r, k);
    }
  }

  /** The search in plain terms, on every graph. */
  lemma SearchMeans(w: World, g: Graph, ctx: Option<Keyword>, l: ListId)
    ensures Search(w, g, ctx, l, 0) <==> exists path, k, r, i :: Finds(w, g, ctx, l, path, k, r, i)
  {
    hide HasShowable, IndexedAt, Search;
    SearchIsCappedReachability(w, g, ctx, l);
    if path :| PathFrom(w, g, ctx, l, path) && |path| <= MAX_DEPTH {
      var last := path[|path| - 1];
      var j :| 0 <= j < |Forms(g, last)| && Matches(w, ctx, Forms(g, last)[j]);
      var k := Forms(g, last)[j].keyword;
      ShowableMeans(w, k);
      var r, i :| IndexedAt(w, r, i, k) && w.canShow(r, k);
      forall m | 0 <= m < |path| - 1
        ensures path[m] in g && List(path[m + 1]) in g[path[m]]
      {
        assert List(path[m + 1]) in Forms(g, path[m]);
      }
      assert Forms(g, last)[j] == Kywd(k);
      assert Finds(w, g, ctx, l, path, k, r, i);
    }
    if path, k, r, i :| Finds(w, g, ctx, l, path, k, r, i) {
      ShowableMeans(w, k);
      var last := path[|path| - 1];
      var j :| 0 <= j < |g[last]| && g[last][j] == Kywd(k);
      assert Matches(w, ctx, Forms(g, last)[j]);
      assert PathFrom(w, g, ctx, l, path);
    }
  }

  // ---- Shortening paths ----

  ghost predicate Distinct(path: seq<ListId>) {
    forall i, j :: 0 <= i < j < |path| ==> path[i] != path[j]
  }

  lemma {:induction false} Shorten(w: World, g: Graph, ctx: Option<Keyword>, l: ListId, path: seq<ListId>)
    returns (short: seq<ListId>)
    requires PathFrom(w, g, ctx, l, path)
    ensures PathFrom(w, g, ctx, l, short) && Distinct(short)
    decreases |path|
  {
    if Distinct(path) {
      short := path;
    } else {
      var i, j :| 0 <= i < j < |path| && path[i] == path[j];
      CutOut(w, g, ctx, l, path, i, j);
      short := Shorten(w, g, ctx, l, path[..i] + path[j..]);
    }
  }

  /** Leaving out the stretch between two visits of one list keeps a path. */
  lemma CutOut(w: World, g: Graph, ctx: Option<Keyword>, l: ListId, path: seq<ListId>, i: nat, j: nat)
    requires PathFrom(w, g, ctx, l, path) && i < j < |path| && path[i] == path[j]
    ensures PathFrom(w, g, ctx, l, path[..i] + path[j..])
  {
    var cut := path[..i] + path[j..];
    forall k | 0 <= k < |cut| - 1
      ensures List(cut[k + 1]) in Forms(g, cut[k])
    {
      var k' := if k < i then k else k - i + j;
      assert cut[k] == path[k'];
      assert cut[k + 1] == path[k' + 1];
      assert List(path[k' + 1]) in Forms(g, path[k']);
    }
  }

  lemma {:induction false} DistinctFits(path: seq<ListId>, lists: set<ListId>)
    requires Distinct(path) && forall i :: 0 <= i < |path| ==> path[i] in lists
    ensures |path| <= |lists|
  {
    if path == [] {
    } else {
      var last := path[|path| - 1];
      DistinctFits(path[..|path| - 1], lists - {last});
    }
  }

  lemma PathStaysInGraph(w: World, g: Graph, ctx: Option<Keyword>, l: ListId, path: seq<ListId>)
    requires PathFrom(w, g, ctx, l, path)
    ensures forall i :: 0 <= i < |path| ==> path[i] in g.Keys
  {
    forall i | 0 <= i < |path|
      ensures path[i] in g.Keys
    {
      if i < |path| - 1 {
        assert List(path[i + 1]) in Forms(g, path[i]);
      }
    }
  }

  /** With at most 64 distinct lists, cyclic or not, the capped search is plain
      reachability. */
  lemma SearchIsReachability(w: World, g: Graph, ctx: Option<Keyword>, l: ListId)
    requires |g| <= MAX_DEPTH
    ensures Search(w, g, ctx, l, 0) <==> Reaches(w, g, ctx, l)
  {
    SearchIsCappedReachability(w, g, ctx, l);
    if path :| PathFrom(w, g, ctx, l, path) {
      var short := Shorten(w, g, ctx, l, path);
      PathStaysInGraph(w, g, ctx, l, short);
      DistinctFits(short, g.Keys);
      assert |g.Keys| == |g|;
    }
  }

  /** On any graph the search never answers true without a reachable match. */
  lemma SearchIsSound(w: World, g: Graph, ctx: Option<Keyword>, l: ListId)
    requires Search(w, g, ctx, l, 0)
    ensures Reaches(w, g, ctx, l)
  {
    var path := SearchFindsPath(w, g, ctx, l, 0);
  }

  // ---- The cap loses matches beyond 64 lists ----

  function Link(n: nat, k: Keyword, i: nat): seq<Form> {
    if i < n then [List(i + 1)] else [Kywd(k)]
  }

  function Chain(n: nat, k: Keyword): Graph {
    map i: nat | i <= n :: Link(n, k, i)
  }

  lemma ChainPath(w: World, n: nat, k: Keyword, ctx: Option<Keyword>, path: seq<ListId>)
    requires PathFrom(w, Chain(n, k), ctx, 0, path)
    ensures |path| == n + 1
  {
    var g := Chain(n, k);
    var i := 0;
    while i < |path| - 1
      invariant 0 <= i <= |path| - 1 && path[i] == i <= n
    {
      assert List(path[i + 1]) in Forms(g, path[i]);
      i := i + 1;
    }
    var j :| 0 <= j < |Forms(g, i)| && Matches(w, ctx, Forms(g, i)[j]);
  }

  /** A chain of 65 lists defeats the cap: the match is reachable, not found. */
  lemma CapMisses(w: World, k: Keyword)
    requires HasShowable(w, k)
    ensures Reaches(w, Chain(64, k), None, 0) && !Search(w, Chain(64, k), None, 0, 0)
  {
    var g := Chain(64, k);
    var path := seq(65, i requires 0 <= i < 65 => i);
    assert Forms(g, 64) == [Kywd(k)] && Matches(w, None, Forms(g, 64)[0]);
    forall i | 0 <= i < |path| - 1
      ensures List(path[i + 1]) in Forms(g, path[i])
    {
      assert Forms(g, i)[0] == List(i + 1);
    }
    assert PathFrom(w, g, None, 0, path);
    if Search(w, g, None, 0, 0) {
      var short := SearchFindsPath(w, g, None, 0, 0);
      ChainPath(w, 64, k, None, short);
    }
  }

  // ---- The cache and the recursion ----

  class Workshop {
    var cobjMap: map<Keyword, seq<Recipe>>

    /** The index is empty, or was built from this world since the last clear. */
    ghost predicate UpToDate(w: World)
      reads this
    {
      cobjMap == map[] || IsIndex(cobjMap, w)
    }

    constructor ()
      ensures cobjMap == map[]
    {
      cobjMap := map[];
    }

    method ClearMap()
      modifies this
      ensures forall w :: UpToDate(w)
    {
      cobjMap := map[];
    }

    method TryBuildMap(w: World)
      requires UpToDate(w)
      modifies this
      ensures UpToDate(w) && IsIndex(cobjMap, w)
    {
      if cobjMap != map[] {
        return;
      }
      if w.recipes.None? || w.recipes.value == [] {
        return;
      }
      var cobjs := w.recipes.value;
      for r := 0 to |cobjs|
        invariant IndexedUpTo(cobjMap, w, cobjs, r, [])
      {
        IndexOne(w, cobjs, r);
        IndexNext(cobjMap, w, cobjs, r);
      }
      IndexDone(cobjMap, w);
    }

    method IndexOne(w: World, cobjs: seq<Option<Cobj>>, r: Recipe)
      requires r < |cobjs| && IndexedUpTo(cobjMap, w, cobjs, r, [])
      modifies this
      ensures IndexedUpTo(cobjMap, w, cobjs, r, Listed(w, cobjs[r]))
    {
      if cobjs[r].None? || !cobjs[r].value.hasCreatedItem || cobjs[r].value.filters.None? {
        return;
      }
      var indices := cobjs[r].value.filters.value;
      var count := |indices|;
      if count > 32 {
        count := 1;
      }
      ghost var done := [];
      for i := 0 to count
        invariant done == Resolve(w, indices[..i])
        invariant IndexedUpTo(cobjMap, w, cobjs, r, done)
      {
        assert indices[..i + 1][..i] == indices[..i];
        var keyword := w.keywordAt(indices[i]);
        if keyword.Some? {
          IndexPush(cobjMap, w, cobjs, r, done, keyword.value);
          PushBack(keyword.value, r);
          done := done + [keyword.value];
        }
      }
      assert indices[..count] == Clamped(indices);
    }

    method PushBack(k: Keyword, r: Recipe)
      modifies this
      ensures cobjMap == old(cobjMap)[k := AtKey(old(cobjMap), k) + [r]]
    {
      cobjMap := cobjMap[k := AtKey(cobjMap, k) + [r]];
    }

    method CheckForValidChildren(w: World, g: Graph, ctx: Option<Keyword>, l: Option<ListId>) returns (found: bool)
      requires UpToDate(w)
      modifies this
      ensures UpToDate(w)
      ensures found <==> l.Some? && Search(w, g, ctx, l.value, 0)
      ensures found <==> l.Some? && exists path, k, r, i :: Finds(w, g, ctx, l.value, path, k, r, i)
    {
      if l.Some? {
        SearchMeans(w, g, ctx, l.value);
      }
      found := CheckImpl(w, g, ctx, l, 0);
    }

    method CheckImpl(w: World, g: Graph, ctx: Option<Keyword>, l: Option<ListId>, depth: nat) returns (found: bool)
      requires UpToDate(w)
      modifies this
      ensures UpToDate(w)
      ensures found <==> l.Some? && Search(w, g, ctx, l.value, depth)
      decreases MAX_DEPTH - depth
    {
      if l.None? || depth >= MAX_DEPTH {
        return false;
      }
      var forms := Forms(g, l.value);
      for i := 0 to |forms|
        invariant UpToDate(w)
        invariant forall j :: 0 <= j < i ==> !EntryAnswers(w, g, ctx, forms[j], depth)
      {
        var form := forms[i];
        var answer := false;
        if form.List? {
          answer := CheckImpl(w, g, ctx, Some(form.list), depth + 1);
        } else if form.Kywd? && Some(form.keyword) != ctx {
          answer := ScanIndexed(w, form.keyword);
        }
        if answer {
          assert EntryAnswers(w, g, ctx, forms[i], depth);
          return true;
        }
      }
      return false;
    }

    method ScanIndexed(w: World, k: Keyword) returns (shown: bool)
      requires UpToDate(w)
      modifies this
      ensures UpToDate(w)
      ensures shown <==> HasShowable(w, k)
    {
      TryBuildMap(w);
      IndexAnswersScan(w, k);
      assert Get(cobjMap, k) == if RecipesFor(w, k) == [] then None else Some(RecipesFor(w, k));
      shown := false;
      if k in cobjMap {
        shown := AnyShown(w, k, cobjMap[k]);
      }
    }

    method AnyShown(w: World, k: Keyword, recipes: seq<Recipe>) returns (shown: bool)
      ensures shown <==> exists r :: r in recipes && w.canShow(r, k)
    {
      for i := 0 to |recipes|
        invariant forall j :: 0 <= j < i ==> !w.canShow(recipes[j], k)
      {
        if w.canShow(recipes[i], k) {
          assert recipes[i] in recipes;
          return true;
        }
      }
      return false;
    }

    /** The leaf handler adds the recipes of one keyword, in array order. */
    method HandlerLeafNode(w: World, k: Keyword) returns (added: seq<Recipe>)
      requires UpToDate(w)
      modifies this
      ensures UpToDate(w) && added == RecipesFor(w, k)
    {
      TryBuildMap(w);
      added := [];
      assert Get(cobjMap, k) == if RecipesFor(w, k) == [] then None else Some(RecipesFor(w, k));
      if k in cobjMap {
        var recipes := cobjMap[k];
        for i := 0 to |recipes|
          invariant added == recipes[..i]
        {
          added := added + [recipes[i]];
        }
      }
    }
  }
}
