/** The order and the equality by which a workshop menu node's children are
    arranged, and the stable algorithms that arrange them. */
module MenuOrder {
  import opened Prelude

  // ---- Names ----

  /** `tolower` on ASCII, as `_strnicmp` compares characters. */
  function Fold(c: char): int {
    if 'A' <= c <= 'Z' then c as int + 32 else c as int
  }

  function StrNICmp(a: string, b: string, n: nat): int
    requires n <= |a| && n <= |b|
  {
    if n == 0 then 0
    else if Fold(a[0]) != Fold(b[0]) then (if Fold(a[0]) < Fold(b[0]) then -1 else 1)
    else StrNICmp(a[1..], b[1..], n - 1)
  }

  function Min(a: nat, b: nat): nat { if a < b then a else b }

  /** The comparison of two names, empty ones included. */
  function CompNames(l: string, r: string): int {
    var cmp := if l != "" && r != "" then StrNICmp(l, r, Min(|l|, |r|)) else 0;
    if cmp == 0 && |l| != |r| then (if |l| < |r| then -1 else 1) else cmp
  }

  /** Case-insensitive dictionary order. */
  function Dictionary(l: string, r: string): int {
    if l == "" && r == "" then 0
    else if l == "" then -1
    else if r == "" then 1
    else if Fold(l[0]) != Fold(r[0]) then (if Fold(l[0]) < Fold(r[0]) then -1 else 1)
    else Dictionary(l[1..], r[1..])
  }

  lemma {:induction false} CompNamesIsDictionary(l: string, r: string)
    ensures CompNames(l, r) == Dictionary(l, r)
  {
    if l == "" || r == "" || Fold(l[0]) != Fold(r[0]) {
    } else {
      CompNamesIsDictionary(l[1..], r[1..]);
      assert StrNICmp(l, r, Min(|l|, |r|)) == StrNICmp(l[1..], r[1..], Min(|l|, |r|) - 1);
    }
  }

  lemma {:induction false} DictionaryTransitive(a: string, b: string, c: string)
    requires Dictionary(a, b) <= 0 && Dictionary(b, c) <= 0
    ensures Dictionary(a, c) <= 0
    ensures Dictionary(a, b) < 0 || Dictionary(b, c) < 0 ==> Dictionary(a, c) < 0
  {
    if a == "" || b == "" || c == "" || Fold(a[0]) != Fold(b[0]) || Fold(b[0]) != Fold(c[0]) {
    } else {
      DictionaryTransitive(a[1..], b[1..], c[1..]);
    }
  }

  lemma {:induction false} DictionaryMirrored(a: string, b: string)
    ensures Dictionary(b, a) == -Dictionary(a, b)
  {
    if a == "" || b == "" || Fold(a[0]) != Fold(b[0]) {
    } else {
      DictionaryMirrored(a[1..], b[1..]);
    }
  }

  // ---- Nodes ----

  /** What a recipe creates: one form, or every form of a list. */
  datatype Item = Single(form: nat) | FromList(forms: seq<nat>)

  datatype Recipe = Recipe(priority: int, item: Item, itemName: string)

  /** The data of a node that `eq_t` compares. Recipes are named by their form
      id, which is unique. */
  datatype Info = Info(keyword: Option<nat>, recipe: Option<nat>, source: Option<nat>, form: Option<nat>)

  datatype Tree = Tree(uid: nat, row: nat, column: nat, info: Info, children: seq<Tree>)

  datatype Names = Names(recipe: nat -> Recipe, keywordName: nat -> string)

  predicate IsCategory(t: Tree) { t.children != [] }

  /** A leaf that MakeLeaf can produce. */
  predicate IsLeaf(d: Names, i: Info) {
    i.recipe.Some? &&
    match d.recipe(i.recipe.value).item
    case Single(form) => i == Info(None, i.recipe, None, Some(form))
    case FromList(forms) => i.form.Some? && i.form.value in forms && i == Info(None, i.recipe, i.recipe, i.form)
  }

  /** `GetItemIndex`: the first position of a form in a list. */
  function ItemIndex(forms: seq<nat>, f: nat): (k: nat)
    ensures k < |forms| <==> f in forms
    ensures k < |forms| ==> forms[k] == f
  {
    if forms == [] then 0 else if forms[0] == f then 0 else 1 + ItemIndex(forms[1..], f)
  }

  function KeywordName(d: Names, k: Option<nat>): string {
    match k
    case None => ""
    case Some(kw) => d.keywordName(kw)
  }

  /** `less_t`. Childless nodes are leaves. */
  predicate Less(d: Names, a: Tree, b: Tree)
    requires !IsCategory(a) ==> IsLeaf(d, a.info)
    requires !IsCategory(b) ==> IsLeaf(d, b.info)
  {
    if IsCategory(a) != IsCategory(b) then IsCategory(a)
    else if IsCategory(a) then CompNames(KeywordName(d, a.info.keyword), KeywordName(d, b.info.keyword)) < 0
    else LeafLess(d, a.info, b.info)
  }

  predicate LeafLess(d: Names, a: Info, b: Info)
    requires IsLeaf(d, a) && IsLeaf(d, b)
  {
    var ra, rb := d.recipe(a.recipe.value), d.recipe(b.recipe.value);
    if a.source.Some? && a.source == b.source then
      ItemIndex(ra.item.forms, a.form.value) < ItemIndex(ra.item.forms, b.form.value)
    else if ra.priority != rb.priority then ra.priority < rb.priority
    else
      var naming := CompNames(ra.itemName, rb.itemName);
      if naming != 0 then naming < 0 else a.recipe.value < b.recipe.value
  }

  // ---- less_t is a strict weak order on leaves ----

  function Position(d: Names, a: Info): nat
    requires IsLeaf(d, a)
  {
    match d.recipe(a.recipe.value).item
    case Single(_) => 0
    case FromList(forms) => ItemIndex(forms, a.form.value)
  }

  /** Priority, then name, then recipe id, then position in the recipe's list. */
  predicate KeyLess(d: Names, a: Info, b: Info)
    requires IsLeaf(d, a) && IsLeaf(d, b)
  {
    var ra, rb := d.recipe(a.recipe.value), d.recipe(b.recipe.value);
    || ra.priority < rb.priority
    || (ra.priority == rb.priority &&
        (|| Dictionary(ra.itemName, rb.itemName) < 0
         || (Dictionary(ra.itemName, rb.itemName) == 0 &&
             (|| a.recipe.value < b.recipe.value
              || (a.recipe == b.recipe && Position(d, a) < Position(d, b))))))
  }

  lemma LeafLessIsKeyLess(d: Names, a: Info, b: Info)
    requires IsLeaf(d, a) && IsLeaf(d, b)
    ensures LeafLess(d, a, b) <==> KeyLess(d, a, b)
  {
    var ra, rb := d.recipe(a.recipe.value), d.recipe(b.recipe.value);
    CompNamesIsDictionary(ra.itemName, rb.itemName);
    DictionaryMirrored(ra.itemName, ra.itemName);
  }

  /** On leaves: irreflexive, transitive, transitive in its complement, and two
      leaves that tie are equal under `eq_t`. */
  lemma LeafOrder(d: Names, a: Info, b: Info, c: Info)
    requires IsLeaf(d, a) && IsLeaf(d, b) && IsLeaf(d, c)
    ensures !LeafLess(d, a, a)
    ensures LeafLess(d, a, b) && LeafLess(d, b, c) ==> LeafLess(d, a, c)
    ensures !LeafLess(d, a, b) && !LeafLess(d, b, c) ==> !LeafLess(d, a, c)
    ensures !LeafLess(d, a, b) && !LeafLess(d, b, a) <==> a == b
  {
    LeafLessIsKeyLess(d, a, a);
    LeafLessIsKeyLess(d, a, b);
    LeafLessIsKeyLess(d, b, a);
    LeafLessIsKeyLess(d, b, c);
    LeafLessIsKeyLess(d, a, c);
    KeyTransitive(d, a, b, c);
    KeyTotal(d, a, b);
    KeyTotal(d, b, c);
    KeyTotal(d, a, c);
    KeyTotal(d, a, a);
  }

  lemma KeyTransitive(d: Names, a: Info, b: Info, c: Info)
    requires IsLeaf(d, a) && IsLeaf(d, b) && IsLeaf(d, c)
    ensures KeyLess(d, a, b) && KeyLess(d, b, c) ==> KeyLess(d, a, c)
    ensures KeyLess(d, c, b) && KeyLess(d, b, a) ==> KeyLess(d, c, a)
  {
    var na, nb, nc := d.recipe(a.recipe.value).itemName, d.recipe(b.recipe.value).itemName, d.recipe(c.recipe.value).itemName;
    if Dictionary(na, nb) <= 0 && Dictionary(nb, nc) <= 0 {
      DictionaryTransitive(na, nb, nc);
    }
    if Dictionary(nc, nb) <= 0 && Dictionary(nb, na) <= 0 {
      DictionaryTransitive(nc, nb, na);
    }
  }

  lemma KeyTotal(d: Names, a: Info, b: Info)
    requires IsLeaf(d, a) && IsLeaf(d, b)
    ensures !(KeyLess(d, a, b) && KeyLess(d, b, a))
    ensures KeyLess(d, a, b) || KeyLess(d, b, a) || a == b
    ensures !KeyLess(d, a, a)
  {
    DictionaryMirrored(d.recipe(a.recipe.value).itemName, d.recipe(b.recipe.value).itemName);
    DictionaryMirrored(d.recipe(a.recipe.value).itemName, d.recipe(a.recipe.value).itemName);
  }

  // ---- less_t on all nodes ----

  /** A node that `less_t` can look at: a submenu, or a leaf of MakeLeaf. */
  predicate IsNode(d: Names, t: Tree) {
    IsCategory(t) || IsLeaf(d, t.info)
  }

  /** On submenus and leaves together `less_t` is a strict weak order, and leaves
      tie only with equal leaves. */
  lemma StrictWeakOrder(d: Names, a: Tree, b: Tree, c: Tree)
    requires IsNode(d, a) && IsNode(d, b) && IsNode(d, c)
    ensures !Less(d, a, a)
    ensures Less(d, a, b) && Less(d, b, c) ==> Less(d, a, c)
    ensures !Less(d, a, b) && !Less(d, b, c) ==> !Less(d, a, c)
    ensures !IsCategory(a) ==> (!Less(d, a, b) && !Less(d, b, a) <==> !IsCategory(b) && a.info == b.info)
  {
    hide LeafLess, IsLeaf, CompNames;
    var na, nb, nc := KeywordName(d, a.info.keyword), KeywordName(d, b.info.keyword), KeywordName(d, c.info.keyword);
    NameOrder(na, nb, nc);
    if !IsCategory(a) && !IsCategory(b) && !IsCategory(c) {
      LeafOrder(d, a.info, b.info, c.info);
    }
    if !IsCategory(a) && !IsCategory(b) {
      LeafOrder(d, a.info, b.info, a.info);
    } else if !IsCategory(a) {
      LeafOrder(d, a.info, a.info, a.info);
    }
  }

  lemma NameOrder(a: string, b: string, c: string)
    ensures !(CompNames(a, a) < 0)
    ensures CompNames(a, b) < 0 && CompNames(b, c) < 0 ==> CompNames(a, c) < 0
    ensures CompNames(a, b) >= 0 && CompNames(b, c) >= 0 ==> CompNames(a, c) >= 0
  {
    hide Dictionary;
    CompNamesIsDictionary(a, a);
    CompNamesIsDictionary(a, b);
    CompNamesIsDictionary(b, c);
    CompNamesIsDictionary(a, c);
    DictionaryMirrored(a, a);
    DictionaryMirrored(a, b);
    DictionaryMirrored(b, c);
    DictionaryMirrored(a, c);
    if Dictionary(a, b) <= 0 && Dictionary(b, c) <= 0 {
      DictionaryTransitive(a, b, c);
    }
    if Dictionary(c, b) <= 0 && Dictionary(b, a) <= 0 {
      DictionaryTransitive(c, b, a);
    }
  }

  // ---- The order in plain terms ----

  /** The lower-case letter of an upper-case ASCII letter; other characters stand
      for themselves. */
  function LowerOf(c: char): char {
    match c
    case 'A' => 'a'
    case 'B' => 'b'
    case 'C' => 'c'
    case 'D' => 'd'
    case 'E' => 'e'
    case 'F' => 'f'
    case 'G' => 'g'
    case 'H' => 'h'
    case 'I' => 'i'
    case 'J' => 'j'
    case 'K' => 'k'
    case 'L' => 'l'
    case 'M' => 'm'
    case 'N' => 'n'
    case 'O' => 'o'
    case 'P' => 'p'
    case 'Q' => 'q'
    case 'R' => 'r'
    case 'S' => 's'
    case 'T' => 't'
    case 'U' => 'u'
    case 'V' => 'v'
    case 'W' => 'w'
    case 'X' => 'x'
    case 'Y' => 'y'
    case 'Z' => 'z'
    case _ => c
  }

  /** Up to position `i` two names differ in the case of ASCII letters at most. */
  predicate AlikeTo(a: string, b: string, i: nat) {
    i <= |a| && i <= |b| && forall j :: 0 <= j < i ==> LowerOf(a[j]) == LowerOf(b[j])
  }

  predicate SameName(a: string, b: string) { |a| == |b| && AlikeTo(a, b, |a|) }

  /** At the first position where the names differ by more than case, `a` has the
      smaller lower-case character, or there is none and `a` is shorter. */
  predicate NameBeforeAt(a: string, b: string, i: nat) {
    && AlikeTo(a, b, i)
    && (if i == |a| then i < |b| else i < |b| && LowerOf(a[i]) < LowerOf(b[i]))
  }

  predicate NameBefore(a: string, b: string) {
    exists i :: 0 <= i <= |a| && NameBeforeAt(a, b, i)
  }

  /** Form `x` is met before form `y` in a list. */
  predicate FormBefore(forms: seq<nat>, x: nat, y: nat) {
    exists i :: 0 <= i < |forms| && forms[i] == x && y !in forms[..i + 1]
  }

  /** Leaf `a` comes before leaf `b`: by priority, then by name, then by recipe id,
      then by position in the recipe's list. */
  predicate LeafBefore(d: Names, a: Info, b: Info)
    requires a.recipe.Some? && b.recipe.Some?
  {
    var ra, rb := d.recipe(a.recipe.value), d.recipe(b.recipe.value);
    || ra.priority < rb.priority
    || (ra.priority == rb.priority && NameBefore(ra.itemName, rb.itemName))
    || (ra.priority == rb.priority && SameName(ra.itemName, rb.itemName) &&
        (|| a.recipe.value < b.recipe.value
         || (a.recipe == b.recipe && ra.item.FromList? && a.form.Some? && b.form.Some? &&
             FormBefore(ra.item.forms, a.form.value, b.form.value))))
  }

  lemma FoldIsLower(c: char)
    ensures Fold(c) == LowerOf(c) as int
  {
  }

  lemma NameTail(a: string, b: string)
    requires a != "" && b != "" && LowerOf(a[0]) == LowerOf(b[0])
    ensures NameBefore(a, b) <==> NameBefore(a[1..], b[1..])
    ensures SameName(a, b) <==> SameName(a[1..], b[1..])
  {
    hide LowerOf;
    var a', b' := a[1..], b[1..];
    if i :| 0 <= i <= |a| && NameBeforeAt(a, b, i) {
      assert i > 0;
      forall j | 0 <= j < i - 1
        ensures LowerOf(a'[j]) == LowerOf(b'[j])
      {
        assert LowerOf(a[j + 1]) == LowerOf(b[j + 1]);
      }
      assert NameBeforeAt(a', b', i - 1);
    }
    if i :| 0 <= i <= |a'| && NameBeforeAt(a', b', i) {
      forall j | 0 <= j < i + 1
        ensures LowerOf(a[j]) == LowerOf(b[j])
      {
        if j > 0 {
          assert LowerOf(a'[j - 1]) == LowerOf(b'[j - 1]);
        }
      }
      assert NameBeforeAt(a, b, i + 1);
    }
    SameTail(a, b);
  }

  lemma SameTail(a: string, b: string)
    requires a != "" && b != "" && LowerOf(a[0]) == LowerOf(b[0])
    ensures SameName(a, b) <==> SameName(a[1..], b[1..])
  {
    hide LowerOf;
    var a', b' := a[1..], b[1..];
    if SameName(a', b') {
      forall j | 0 <= j < |a|
        ensures LowerOf(a[j]) == LowerOf(b[j])
      {
        if j > 0 {
          assert LowerOf(a'[j - 1]) == LowerOf(b'[j - 1]);
        }
      }
    }
    if SameName(a, b) {
      forall j | 0 <= j < |a'|
        ensures LowerOf(a'[j]) == LowerOf(b'[j])
      {
        assert LowerOf(a[j + 1]) == LowerOf(b[j + 1]);
      }
    }
  }

  lemma {:induction false} DictionaryMeans(a: string, b: string)
    ensures Dictionary(a, b) < 0 <==> NameBefore(a, b)
    ensures Dictionary(a, b) == 0 <==> SameName(a, b)
  {
    hide LowerOf, Fold;
    if a == "" || b == "" {
      if a == "" && b != "" {
        assert NameBeforeAt(a, b, 0);
      }
    } else {
      FoldIsLower(a[0]);
      FoldIsLower(b[0]);
      if Fold(a[0]) == Fold(b[0]) {
        DictionaryMeans(a[1..], b[1..]);
        NameTail(a, b);
      } else {
        if Fold(a[0]) < Fold(b[0]) {
          assert NameBeforeAt(a, b, 0);
        }
        FirstDecides(a, b);
      }
    }
  }

  lemma FirstDecides(a: string, b: string)
    requires a != "" && b != "" && LowerOf(a[0]) != LowerOf(b[0])
    ensures NameBefore(a, b) ==> LowerOf(a[0]) < LowerOf(b[0])
    ensures !SameName(a, b)
  {
    hide LowerOf;
    if i :| 0 <= i <= |a| && NameBeforeAt(a, b, i) {
      assert i == 0;
    }
  }

  lemma {:induction false} FormBeforeIsIndex(forms: seq<nat>, x: nat, y: nat)
    requires x in forms
    ensures FormBefore(forms, x, y) <==> ItemIndex(forms, x) < ItemIndex(forms, y)
  {
    ItemIndexIsFirst(forms, x);
    ItemIndexIsFirst(forms, y);
    var i, j := ItemIndex(forms, x), ItemIndex(forms, y);
    if i < j {
      assert forms[i] == x && y !in forms[..i + 1];
    }
    if p :| 0 <= p < |forms| && forms[p] == x && y !in forms[..p + 1] {
      assert i <= p;
      forall q | 0 <= q <= p
        ensures forms[q] != y
      {
        assert forms[..p + 1][q] == forms[q];
      }
    }
  }

  lemma {:induction false} ItemIndexIsFirst(forms: seq<nat>, f: nat)
    ensures ItemIndex(forms, f) <= |forms|
    ensures forall k :: 0 <= k < ItemIndex(forms, f) ==> forms[k] != f
  {
    if forms == [] || forms[0] == f {
    } else {
      ItemIndexIsFirst(forms[1..], f);
    }
  }

  /** What `less_t` decides on leaves. */
  lemma LeafLessMeans(d: Names, a: Info, b: Info)
    requires IsLeaf(d, a) && IsLeaf(d, b)
    ensures LeafLess(d, a, b) <==> LeafBefore(d, a, b)
  {
    hide NameBefore, SameName, FormBefore, Dictionary;
    var ra, rb := d.recipe(a.recipe.value), d.recipe(b.recipe.value);
    LeafLessIsKeyLess(d, a, b);
    DictionaryMeans(ra.itemName, rb.itemName);
    if a.recipe == b.recipe && ra.item.FromList? {
      FormBeforeIsIndex(ra.item.forms, a.form.value, b.form.value);
    }
  }

  /** And on all nodes: submenus before leaves, submenus by the names of their
      keywords. */
  lemma LessMeans(d: Names, a: Tree, b: Tree)
    requires IsNode(d, a) && IsNode(d, b)
    ensures Less(d, a, b) <==>
      if a.children != [] && b.children != [] then
        NameBefore(if a.info.keyword.Some? then d.keywordName(a.info.keyword.value) else "",
          if b.info.keyword.Some? then d.keywordName(b.info.keyword.value) else "")
      else if a.children == [] && b.children == [] then LeafBefore(d, a.info, b.info)
      else a.children != []
  {
    hide NameBefore, LeafBefore, LeafLess, CompNames;
    if IsCategory(a) && IsCategory(b) {
      CompNamesIsDictionary(KeywordName(d, a.info.keyword), KeywordName(d, b.info.keyword));
      DictionaryMeans(KeywordName(d, a.info.keyword), KeywordName(d, b.info.keyword));
    } else if !IsCategory(a) && !IsCategory(b) {
      LeafLessMeans(d, a.info, b.info);
    }
  }
}
