/** The memoised recipe lookup of the workshop menu: two caches in front of a
    snapshot of all recipes, filled on demand, agree with the direct definition
    for every sequence of queries. */
module WorkshopLookup {
  import opened Prelude

  type Keyword = nat
  type FormId = nat

  /** A recipe of the snapshot. Filter entries and the bench keyword may be null. */
  datatype Cobj = Cobj(id: nat, item: FormId, isSplineMarker: bool, bench: Option<Keyword>,
    filters: seq<Option<Keyword>>, conditions: bool)

  /** An entry of the workshop's list of stored (scrapped) items. */
  datatype Stored = Stored(form: FormId, count: int)

  /** What is fixed while one menu is built. `hasKeyword` is the workshop's own
      test; there may be no workshop. */
  datatype Setup = Setup(
    cobjs: seq<Cobj>, badKeyword: Option<Keyword>, alwaysShow: Option<Keyword>,
    splineObject: Option<FormId>, deletedItems: seq<Option<Stored>>,
    hasWorkshop: bool, hasKeyword: Option<Keyword> -> bool)

  ghost predicate SortedIds(items: seq<FormId>) {
    forall i, j :: 0 <= i < j < |items| ==> items[i] <= items[j]
  }

  // ---- The direct definition ----

  /** The misc-item keyword stands for "no filter". */
  function Normalised(s: Setup, key: Keyword): Option<Keyword> {
    if s.badKeyword == Some(key) then None else Some(key)
  }

  predicate PassesFilter(c: Cobj, filter: Option<Keyword>) {
    (filter.None? && c.filters == []) || filter in c.filters
  }

  /** Some stored entry with a positive count is of this form. */
  predicate InStore(deleted: seq<Option<Stored>>, form: FormId) {
    exists i :: 0 <= i < |deleted| && IsStoredForm(deleted[i], form)
  }

  predicate IsStoredForm(entry: Option<Stored>, form: FormId) {
    entry.Some? && entry.value.count > 0 && entry.value.form == form
  }

  predicate IsStored(s: Setup, c: Cobj) {
    InStore(s.deletedItems, if c.isSplineMarker && s.splineObject.Some? then s.splineObject.value else c.item)
  }

  predicate CanShow(s: Setup, c: Cobj, filter: Option<Keyword>) {
    && PassesFilter(c, filter)
    && (c.conditions || IsStored(s, c) || s.alwaysShow in c.filters)
    && s.hasKeyword(c.bench)
  }

  /** The recipes of the snapshot that are shown under a filter, in order. */
  function Shown(s: Setup, filter: Option<Keyword>, n: nat): seq<nat>
    requires n <= |s.cobjs|
  {
    if n == 0 || !s.hasWorkshop then []
    else Shown(s, filter, n - 1) + if CanShow(s, s.cobjs[n - 1], filter) then [s.cobjs[n - 1].id] else []
  }

  function Answer(s: Setup, key: Keyword): seq<nat> {
    Shown(s, Normalised(s, key), |s.cobjs|)
  }

  // ---- Stored items ----

  /** Binary search over the sorted stored items is membership. */
  method BinarySearch(haystack: seq<FormId>, needle: FormId) returns (found: bool)
    requires SortedIds(haystack)
    ensures found <==> needle in haystack
  {
    var before := (i: nat) requires i < |haystack| => haystack[i] < needle;
    var k := LowerBound(|haystack|, before);
    forall i: nat | i < |haystack|
      ensures haystack[i] < needle <==> i < k
    {
      assert before(i) <==> haystack[i] < needle;
    }
    found := k < |haystack| && haystack[k] == needle;
  }

  /** The forms stored with a positive count, sorted. */
  method StoredItems(deleted: seq<Option<Stored>>) returns (items: seq<FormId>)
    ensures SortedIds(items)
    ensures forall form :: form in items <==> InStore(deleted, form)
  {
    items := [];
    for i := 0 to |deleted|
      invariant SortedIds(items)
      invariant forall form :: form in items <==> InStore(deleted[..i], form)
    {
      assert deleted[..i + 1] == deleted[..i] + [deleted[i]];
      InStoreGrows(deleted[..i], deleted[i]);
      if deleted[i].Some? && deleted[i].value.count > 0 {
        items := InsertSorted(items, deleted[i].value.form);
      }
    }
    assert deleted[..|deleted|] == deleted;
  }

  lemma InStoreGrows(deleted: seq<Option<Stored>>, entry: Option<Stored>)
    ensures forall form :: InStore(deleted + [entry], form) <==> InStore(deleted, form) || IsStoredForm(entry, form)
  {
    forall form
      ensures InStore(deleted + [entry], form) <==> InStore(deleted, form) || IsStoredForm(entry, form)
    {
      var all := deleted + [entry];
      if i :| 0 <= i < |deleted| && IsStoredForm(deleted[i], form) {
        assert IsStoredForm(all[i], form);
      } else if IsStoredForm(entry, form) {
        assert IsStoredForm(all[|deleted|], form);
      }
    }
  }

  method InsertSorted(items: seq<FormId>, x: FormId) returns (r: seq<FormId>)
    requires SortedIds(items)
    ensures SortedIds(r)
    ensures forall y :: y in r <==> y in items || y == x
  {
    var before := (i: nat) requires i < |items| => items[i] < x;
    var k := LowerBound(|items|, before);
    forall i: nat | i < |items|
      ensures items[i] < x <==> i < k
    {
      assert before(i) <==> items[i] < x;
    }
    InsertedSorted(items, x, k);
    InsertedMembers(items, x, k);
    r := items[..k] + [x] + items[k..];
  }

  lemma InsertedSorted(items: seq<FormId>, x: FormId, k: nat)
    requires SortedIds(items) && k <= |items|
    requires forall i :: 0 <= i < |items| ==> (items[i] < x <==> i < k)
    ensures SortedIds(items[..k] + [x] + items[k..])
  {
  }

  lemma InsertedMembers(items: seq<FormId>, x: FormId, k: nat)
    requires k <= |items|
    ensures forall y :: y in items[..k] + [x] + items[k..] <==> y in items || y == x
  {
    assert items == items[..k] + items[k..];
  }

  // ---- The caches ----

  class LookupTable {
    const setup: Setup
    const storedItems: seq<FormId>
    var lookupCache: map<Option<Keyword>, seq<nat>>
    var hasKeywordCache: map<Option<Keyword>, bool>

    ghost predicate Valid()
      reads this
    {
      && SortedIds(storedItems)
      && (forall form :: form in storedItems <==> InStore(setup.deletedItems, form))
      && (forall k :: k in hasKeywordCache ==> hasKeywordCache[k] == setup.hasKeyword(k))
      && (forall k :: k in lookupCache ==> lookupCache[k] == Shown(setup, k, |setup.cobjs|))
    }

    constructor (setup: Setup)
      ensures Valid() && this.setup == setup
    {
      this.setup := setup;
      var items := StoredItems(setup.deletedItems);
      storedItems := items;
      lookupCache, hasKeywordCache := map[], map[];
    }

    /** `operator()`: the answer for one filter keyword. */
    method Lookup(key: Keyword) returns (result: seq<nat>)
      requires Valid()
      modifies this
      ensures Valid() && result == Answer(setup, key)
    {
      var filter := if setup.badKeyword == Some(key) then None else Some(key);
      if filter in lookupCache {
        return lookupCache[filter];
      }
      result := [];
      if setup.hasWorkshop {
        for i := 0 to |setup.cobjs|
          invariant Valid() && lookupCache == old(lookupCache)
          invariant result == Shown(setup, filter, i)
        {
          var show := WorkshopCanShowRecipe(setup.cobjs[i], filter);
          if show {
            result := result + [setup.cobjs[i].id];
          }
        }
      }
      lookupCache := lookupCache[filter := result];
    }

    method WorkshopCanShowRecipe(c: Cobj, filter: Option<Keyword>) returns (show: bool)
      requires Valid()
      modifies this`hasKeywordCache
      ensures Valid() && show == CanShow(setup, c, filter)
    {
      show := false;
      if (filter.None? && c.filters == []) || filter in c.filters {
        var available := c.conditions;
        if !available {
          available := HasStoredItem(c);
        }
        if !available {
          available := setup.alwaysShow in c.filters;
        }
        if available {
          show := HasKeyword(c.bench);
        }
      }
    }

    method HasKeyword(k: Option<Keyword>) returns (has: bool)
      requires Valid()
      modifies this`hasKeywordCache
      ensures Valid() && has == setup.hasKeyword(k)
    {
      if k !in hasKeywordCache {
        hasKeywordCache := hasKeywordCache[k := setup.hasKeyword(k)];
      }
      has := hasKeywordCache[k];
    }

    method HasStoredItem(c: Cobj) returns (stored: bool)
      requires Valid()
      ensures stored == IsStored(setup, c)
    {
      var needle := if c.isSplineMarker && setup.splineObject.Some? then setup.splineObject.value else c.item;
      stored := BinarySearch(storedItems, needle);
    }

    /** Any queries in any order, repeated or not, are answered directly. */
    method AnswerAll(keys: seq<Keyword>) returns (results: seq<seq<nat>>)
      requires Valid()
      modifies this
      ensures Valid() && |results| == |keys|
      ensures forall i :: 0 <= i < |keys| ==> results[i] == Answer(setup, keys[i])
    {
      results := [];
      for i := 0 to |keys|
        invariant Valid() && |results| == i
        invariant forall j :: 0 <= j < i ==> results[j] == Answer(setup, keys[j])
      {
        var result := Lookup(keys[i]);
        results := results + [result];
      }
    }
  }

  // ---- What the direct definition means ----

  /** An answer lists a recipe exactly when it is in the snapshot and shown. */
  lemma {:induction false} ShownMembers(s: Setup, filter: Option<Keyword>, n: nat, id: nat)
    requires n <= |s.cobjs| && s.hasWorkshop
    ensures id in Shown(s, filter, n) <==> exists i :: 0 <= i < n && s.cobjs[i].id == id && CanShow(s, s.cobjs[i], filter)
  {
    if n == 0 {
    } else {
      ShownMembers(s, filter, n - 1, id);
    }
  }

  /** A recipe is shown for a queried keyword, in plain terms: its filters hold the
      keyword, where the misc-item keyword asks for no filters or a null one; its
      conditions hold, or an entry of its form is stored with a positive count (of
      the spline object in place of the spline marker), or its filters hold the
      always-show keyword; and the workshop has its bench keyword. */
  predicate ShownFor(s: Setup, key: Keyword, i: nat)
    requires i < |s.cobjs|
  {
    var c := s.cobjs[i];
    var form := if c.isSplineMarker && s.splineObject.Some? then s.splineObject.value else c.item;
    && (if s.badKeyword == Some(key) then |c.filters| == 0 || None in c.filters else Some(key) in c.filters)
    && (|| c.conditions
        || s.alwaysShow in c.filters
        || exists j :: 0 <= j < |s.deletedItems| && s.deletedItems[j].Some? &&
             s.deletedItems[j].value.form == form && s.deletedItems[j].value.count >= 1)
    && s.hasKeyword(c.bench)
  }

  lemma CanShowMeans(s: Setup, key: Keyword, i: nat)
    requires i < |s.cobjs|
    ensures CanShow(s, s.cobjs[i], Normalised(s, key)) <==> ShownFor(s, key, i)
  {
    var c := s.cobjs[i];
    var form := if c.isSplineMarker && s.splineObject.Some? then s.splineObject.value else c.item;
    forall j | 0 <= j < |s.deletedItems|
      ensures IsStoredForm(s.deletedItems[j], form) <==>
        s.deletedItems[j].Some? && s.deletedItems[j].value.form == form && s.deletedItems[j].value.count >= 1
    {
    }
  }

  /** `pos` lists, in order, the positions below `n` of the recipes shown. */
  predicate IsAnswer(s: Setup, key: Keyword, n: nat, pos: seq<nat>)
    requires n <= |s.cobjs|
  {
    && (forall i :: 0 <= i < |pos| ==> pos[i] < n)
    && (forall i, j :: 0 <= i < j < |pos| ==> pos[i] < pos[j])
    && (forall k :: 0 <= k < n ==> (ShownFor(s, key, k) <==> k in pos))
  }

  lemma {:induction false} ShownPositions(s: Setup, key: Keyword, n: nat) returns (pos: seq<nat>)
    requires n <= |s.cobjs| && s.hasWorkshop
    ensures IsAnswer(s, key, n, pos)
    ensures Shown(s, Normalised(s, key), n) == seq(|pos|, i requires 0 <= i < |pos| => s.cobjs[pos[i]].id)
  {
    hide ShownFor, CanShow;
    if n == 0 {
      pos := [];
    } else {
      var before := ShownPositions(s, key, n - 1);
      CanShowMeans(s, key, n - 1);
      if ShownFor(s, key, n - 1) {
        pos := before + [n - 1];
        assert pos[|before|] == n - 1;
        forall k | 0 <= k < n - 1
          ensures k in pos <==> k in before
        {
        }
      } else {
        pos := before;
      }
    }
  }

  /** The answer to a query: with a workshop, the recipes shown for the keyword, in
      snapshot order; without one, nothing. */
  lemma AnswerMeans(s: Setup, key: Keyword) returns (pos: seq<nat>)
    ensures s.hasWorkshop ==> IsAnswer(s, key, |s.cobjs|, pos)
    ensures s.hasWorkshop ==> Answer(s, key) == seq(|pos|, i requires 0 <= i < |pos| => s.cobjs[pos[i]].id)
    ensures !s.hasWorkshop ==> Answer(s, key) == []
  {
    if s.hasWorkshop {
      pos := ShownPositions(s, key, |s.cobjs|);
    } else {
      pos := [];
    }
  }
}
