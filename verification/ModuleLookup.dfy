/** Finding the module that a code pointer lies in: the loaded modules are sorted
    by base address, and a lower bound runs over them from the back. */
module ModuleLookup {
  import opened Prelude

  /** A loaded image. */
  datatype Module = Module(base: nat, size: nat, name: string) {
    predicate InRange(p: nat) { base <= p < base + size }

    predicate StrictlyInRange(p: nat) { base < p < base + size }
  }

  predicate Apart(a: Module, b: Module) {
    a.base != b.base && (a.base + a.size <= b.base || b.base + b.size <= a.base)
  }

  /** What the system loads: images at different bases that do not overlap. */
  predicate Loaded(ms: seq<Module>) {
    forall a, b :: a in ms && b in ms && a != b ==> Apart(a, b)
  }

  predicate Sorted(ms: seq<Module>) {
    forall i, j :: 0 <= i < j < |ms| ==> ms[i].base <= ms[j].base
  }

  function SortedInsert(ms: seq<Module>, m: Module): seq<Module> {
    if ms == [] || ms[|ms| - 1].base <= m.base then ms + [m]
    else SortedInsert(ms[..|ms| - 1], m) + [ms[|ms| - 1]]
  }

  /** The order in which get_loaded_modules returns the modules. */
  function SortByBase(ms: seq<Module>): seq<Module> {
    if ms == [] then [] else SortedInsert(SortByBase(ms[..|ms| - 1]), ms[|ms| - 1])
  }

  lemma {:induction false} InsertAdds(ms: seq<Module>, m: Module)
    ensures multiset(SortedInsert(ms, m)) == multiset(ms) + multiset{m}
  {
    if ms == [] || ms[|ms| - 1].base <= m.base {
    } else {
      InsertAdds(ms[..|ms| - 1], m);
      assert ms == ms[..|ms| - 1] + [ms[|ms| - 1]];
    }
  }

  lemma {:induction false} InsertSorts(ms: seq<Module>, m: Module)
    requires Sorted(ms)
    ensures Sorted(SortedInsert(ms, m)) && SortedInsert(ms, m) != []
    ensures var last := SortedInsert(ms, m)[|SortedInsert(ms, m)| - 1];
      last == m || (ms != [] && last == ms[|ms| - 1])
  {
    hide Sorted;
    if ms != [] && m.base < ms[|ms| - 1].base {
      SortedFront(ms);
      InsertSorts(ms[..|ms| - 1], m);
      SortedAppend(SortedInsert(ms[..|ms| - 1], m), ms[|ms| - 1]);
    } else {
      SortedAppend(ms, m);
    }
  }

  lemma SortedAppend(ms: seq<Module>, m: Module)
    requires Sorted(ms) && (ms == [] || ms[|ms| - 1].base <= m.base)
    ensures Sorted(ms + [m])
  {
  }

  lemma SortedFront(ms: seq<Module>)
    requires Sorted(ms) && ms != []
    ensures Sorted(ms[..|ms| - 1])
    ensures |ms| > 1 ==> ms[|ms| - 2].base <= ms[|ms| - 1].base
  {
  }

  lemma {:induction false} SortByBaseSorts(ms: seq<Module>)
    ensures Sorted(SortByBase(ms)) && multiset(SortByBase(ms)) == multiset(ms)
  {
    hide Sorted, SortedInsert;
    if ms == [] {
      NothingSorted();
    } else {
      SortByBaseSorts(ms[..|ms| - 1]);
      InsertSorts(SortByBase(ms[..|ms| - 1]), ms[|ms| - 1]);
      InsertAdds(SortByBase(ms[..|ms| - 1]), ms[|ms| - 1]);
      assert ms == ms[..|ms| - 1] + [ms[|ms| - 1]];
    }
  }

  lemma NothingSorted()
    ensures Sorted([])
  {
  }

  // ---- The linear scan ----

  /** The first module that has `p` inside it, its base not counted. */
  function Scan(ms: seq<Module>, p: nat): (r: Option<Module>)
    ensures r.Some? ==> r.value in ms && r.value.StrictlyInRange(p)
    ensures r.None? ==> forall m :: m in ms ==> !m.StrictlyInRange(p)
  {
    if ms == [] then None else if ms[0].StrictlyInRange(p) then Some(ms[0]) else Scan(ms[1..], p)
  }

  /** The same with the modules' own `in_range`, which counts the base. */
  function ScanInRange(ms: seq<Module>, p: nat): (r: Option<Module>)
    ensures r.Some? ==> r.value in ms && r.value.InRange(p)
    ensures r.None? ==> forall m :: m in ms ==> !m.InRange(p)
  {
    if ms == [] then None else if ms[0].InRange(p) then Some(ms[0]) else ScanInRange(ms[1..], p)
  }

  /** Some module starts at `p`. */
  predicate IsBase(ms: seq<Module>, p: nat) {
    exists m :: m in ms && m.base == p && m.size > 0
  }

  // ---- The search ----

  /** `lower_bound` over the reversed range, then the range check: for any sorted
      list the module found has `p` inside it; for loaded modules it is the one
      that a scan finds. */
  method GetModuleForPointer(ms: seq<Module>, p: nat) returns (r: Option<Module>)
    requires Sorted(ms)
    ensures r.Some? ==> r.value in ms && r.value.StrictlyInRange(p)
    ensures Loaded(ms) ==> r == Scan(ms, p)
    ensures Loaded(ms) ==> (r == ScanInRange(ms, p) <==> !IsBase(ms, p))
  {
    hide Loaded, Scan, ScanInRange, IsBase;
    var n := |ms|;
    var before := (i: nat) requires i < n => FromBack(ms, i).base >= p;
    SortedFromBack(ms);
    var k := LowerBound(n, before);
    assert forall i: nat {:trigger FromBack(ms, i)} :: i < k ==> before(i);
    assert forall i: nat {:trigger FromBack(ms, i)} :: k <= i < n ==> !before(i);
    if k == n || !FromBack(ms, k).InRange(p) {
      r := None;
    } else {
      r := Some(FromBack(ms, k));
      assert !before(k);
    }
    if Loaded(ms) {
      if Scan(ms, p).Some? {
        LastBelow(ms, p, k, Scan(ms, p).value);
      }
      MissesOnlyBases(ms, p);
    }
  }

  /** Position `i` of the reversed range. */
  function FromBack(ms: seq<Module>, i: nat): Module
    requires i < |ms|
  {
    ms[|ms| - 1 - i]
  }

  lemma SortedFromBack(ms: seq<Module>)
    requires Sorted(ms)
    ensures forall i: nat, j: nat :: i < j < |ms| ==> FromBack(ms, j).base <= FromBack(ms, i).base
  {
  }

  /** The last module that starts below `p` is the only one that can contain it. */
  lemma LastBelow(ms: seq<Module>, p: nat, k: nat, m: Module)
    requires Sorted(ms) && Loaded(ms) && k <= |ms| && m in ms && m.StrictlyInRange(p)
    requires forall i: nat :: i < k ==> FromBack(ms, i).base >= p
    requires forall i: nat :: k <= i < |ms| ==> FromBack(ms, i).base < p
    ensures k < |ms| && FromBack(ms, k) == m
  {
    hide Loaded;
    var j :| 0 <= j < |ms| && ms[j] == m;
    var i := |ms| - 1 - j;
    assert FromBack(ms, i) == m && k <= i;
    SortedFromBack(ms);
    if FromBack(ms, k) != m {
      MembersApart(ms, FromBack(ms, k), m);
    }
  }

  lemma MembersApart(ms: seq<Module>, a: Module, b: Module)
    requires Loaded(ms) && a in ms && b in ms && a != b
    ensures Apart(a, b)
  {
  }

  /** Sorting changes neither the modules nor the scan's answer, so searching what
      get_loaded_modules returns is scanning what the system lists. */
  lemma SortingKeepsTheScan(ms: seq<Module>, p: nat)
    requires Loaded(ms)
    ensures Loaded(SortByBase(ms)) && Scan(SortByBase(ms), p) == Scan(ms, p)
  {
    SortByBaseSorts(ms);
    SameScan(SortByBase(ms), ms, p);
  }

  lemma SameScan(a: seq<Module>, b: seq<Module>, p: nat)
    requires multiset(a) == multiset(b) && Loaded(b)
    ensures Loaded(a) && Scan(a, p) == Scan(b, p)
  {
    hide Scan;
    forall m
      ensures m in a <==> m in b
    {
      assert m in a <==> m in multiset(a);
      assert m in b <==> m in multiset(b);
    }
    if Scan(a, p).Some? && Scan(b, p).Some? && Scan(a, p) != Scan(b, p) {
      MembersApart(b, Scan(a, p).value, Scan(b, p).value);
    }
  }

  /** Where the strict comparison matters: the answer is that of `in_range` if and
      only if `p` is not itself the base of a module. */
  lemma MissesOnlyBases(ms: seq<Module>, p: nat)
    requires Loaded(ms)
    ensures Scan(ms, p) == ScanInRange(ms, p) <==> !IsBase(ms, p)
  {
    var a, b := Scan(ms, p), ScanInRange(ms, p);
    if b.Some? {
      var m := b.value;
      assert (m.base == p && m.size > 0) || m.StrictlyInRange(p);
    }
  }

  /** A pointer to a module's first byte, which the module's own range holds, is
      answered with no module. */
  method FirstByteIsMissed(ms: seq<Module>, m: Module) returns (r: Option<Module>)
    requires Sorted(ms) && Loaded(ms) && m in ms && m.size > 0
    ensures r == None && m.InRange(m.base)
  {
    r := GetModuleForPointer(ms, m.base);
    if r.Some? {
      MembersApart(ms, r.value, m);
    }
  }
}
