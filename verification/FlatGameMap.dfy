/** The flat game's id map: same containers as the VR map, but insertion
    appends and sorts again, and a lookup by an ordinary id returns the whole
    bucket. */
module FlatGameMap {
  import opened FormIds
  import opened IdMaps
  import opened ShardedMap

  /** The bucket that a lookup of `id` must produce, told by the flat map. */
  ghost predicate IsBucketFor(found: seq<Entry>, m: map<FormId, Obj>, id: FormId) {
    if IsSpecial(id) then
      found == if id in m then [Entry(id, m[id])] else []
    else
      && Sorted(found)
      && forall e: Entry :: e in found <==>
           e.id in m && m[e.id] == e.obj && !IsSpecial(e.id) && Base(e.id) == Base(id)
  }

  /** The same in plain numbers: ids from 0x00000000 and from 0xFD000000, 2^24 of
      each, are looked up exactly, all others by their low 24 bits and only among
      each other; the result ascends. */
  lemma BucketMeans(found: seq<Entry>, m: map<FormId, Obj>, id: FormId)
    requires IsBucketFor(found, m, id)
    ensures forall e: Entry :: e in found <==>
      && e.id in m && m[e.id] == e.obj
      && (if id < 0x0100_0000 || 0xFD00_0000 <= id < 0xFE00_0000 then e.id == id
          else e.id % 0x0100_0000 == id % 0x0100_0000 && !(e.id < 0x0100_0000 || 0xFD00_0000 <= e.id < 0xFE00_0000))
    ensures forall i, j :: 0 <= i < j < |found| ==> found[i].id < found[j].id
  {
    forall e: FormId
      ensures IsSpecial(e) <==> e < 0x0100_0000 || 0xFD00_0000 <= e < 0xFE00_0000
    {
      SpecialRanges(e);
    }
  }

  ghost predicate Ascending(b: seq<Entry>) {
    forall i, j :: 0 <= i < j < |b| ==> b[i].id <= b[j].id
  }

  /** `fixup_container`: sort a bucket by full id. */
  method SortById(b: seq<Entry>) returns (sorted: seq<Entry>)
    ensures Ascending(sorted) && multiset(sorted) == multiset(b)
  {
    sorted := [];
    for i := 0 to |b|
      invariant Ascending(sorted) && multiset(sorted) == multiset(b[..i])
    {
      assert b[..i + 1] == b[..i] + [b[i]];
      sorted := InsertById(sorted, b[i]);
    }
    assert b[..|b|] == b;
  }

  method InsertById(b: seq<Entry>, e: Entry) returns (r: seq<Entry>)
    requires Ascending(b)
    ensures Ascending(r) && multiset(r) == multiset(b) + multiset{e}
  {
    hide Ascending;
    var k := |b|;
    while k > 0 && e.id < b[k - 1].id
      invariant 0 <= k <= |b|
      invariant forall j :: k <= j < |b| ==> e.id < b[j].id
    {
      k := k - 1;
    }
    BelowPoint(b, e, k);
    InsertedAscending(b, e, k);
    r := b[..k] + [e] + b[k..];
    assert b == b[..k] + b[k..];
  }

  lemma BelowPoint(b: seq<Entry>, e: Entry, k: nat)
    requires Ascending(b) && k <= |b| && (k > 0 ==> b[k - 1].id <= e.id)
    ensures forall j :: 0 <= j < k ==> b[j].id <= e.id
  {
  }

  lemma InsertedAscending(b: seq<Entry>, e: Entry, k: nat)
    requires Ascending(b) && k <= |b|
    requires forall j :: 0 <= j < k ==> b[j].id <= e.id
    requires forall j :: k <= j < |b| ==> e.id <= b[j].id
    ensures Ascending(b[..k] + [e] + b[k..])
  {
  }

  /** Appending and sorting is inserting at the lower bound. */
  lemma AppendThenSort(b: seq<Entry>, e: Entry, k: nat, sorted: seq<Entry>)
    requires Sorted(b) && IsSlot(b, e.id, k)
    requires Ascending(sorted)
    requires multiset(sorted) == multiset(if k < |b| && b[k].id == e.id then b[k := e] else b + [e])
    ensures sorted == PutAt(b, e, k)
  {
    var p := PutAt(b, e, k);
    PutAtBucket(b, e, k);
    assert b == b[..k] + b[k..];
    assert multiset(sorted) == multiset(p);
    SortedPermutation(p, sorted);
  }

  lemma SortedPermutation(p: seq<Entry>, sorted: seq<Entry>)
    requires Sorted(p) && Ascending(sorted) && multiset(sorted) == multiset(p)
    ensures sorted == p
  {
    forall i, j | 0 <= i < j < |sorted|
      ensures sorted[i].id < sorted[j].id
    {
      if sorted[i].id == sorted[j].id {
        TwiceInMultiset(sorted, i, j, p);
      }
    }
    assert forall x :: x in sorted <==> x in multiset(sorted);
    assert forall x :: x in p <==> x in multiset(p);
    SortedDetermined(sorted, p);
  }

  lemma TwiceInMultiset(s: seq<Entry>, i: nat, j: nat, p: seq<Entry>)
    requires i < j < |s| && s[i].id == s[j].id
    requires multiset(s) == multiset(p)
    ensures !Sorted(p)
  {
    if Sorted(p) {
      assert s[i] in multiset(p) && s[j] in multiset(p);
      assert s[i] == s[j];
      var x := s[i];
      assert s == s[..i] + [s[i]] + s[i + 1..j] + [s[j]] + s[j + 1..];
      assert multiset(s)[x] >= 2;
      AtMostOnce(p, x);
    }
  }

  lemma {:induction false} AtMostOnce(p: seq<Entry>, x: Entry)
    requires Sorted(p)
    ensures multiset(p)[x] <= 1
  {
    if p == [] {
    } else {
      assert p == [p[0]] + p[1..];
      AtMostOnce(p[1..], x);
      if p[0] == x {
        assert x !in p[1..];
      }
    }
  }

  // ---- One culling pass over listed ids ----

  /** A listed id stands for an entry: a special id for itself, an ordinary one
      for every ordinary id with its base. */
  predicate StandsFor(needle: FormId, id: FormId) {
    if IsSpecial(needle) then id == needle else !IsSpecial(id) && Base(id) == Base(needle)
  }

  /** How many of the listed ids stand for `id`. */
  function Mentions(needles: seq<FormId>, id: FormId): nat {
    if needles == [] then 0
    else Mentions(needles[..|needles| - 1], id) + if StandsFor(needles[|needles| - 1], id) then 1 else 0
  }

  lemma BucketCounts(found: seq<Entry>, m: map<FormId, Obj>, id: FormId, e: Entry)
    requires IsBucketFor(found, m, id)
    ensures multiset(found)[e] == if e.id in m && m[e.id] == e.obj && StandsFor(id, e.id) then 1 else 0
  {
    if !IsSpecial(id) {
      AtMostOnce(found, e);
      assert e in found <==> e in multiset(found);
    }
  }

  /** The calls made for `needles`: the bucket of each listed id in turn, in list
      order. */
  ghost predicate CallsInOrder(calls: seq<Entry>, m: map<FormId, Obj>, needles: seq<FormId>)
    decreases |needles|
  {
    if needles == [] then calls == []
    else
      exists k :: 0 <= k <= |calls|
        && CallsInOrder(calls[..k], m, needles[..|needles| - 1])
        && IsBucketFor(calls[k..], m, needles[|needles| - 1])
  }

  lemma CallsGrow(calls: seq<Entry>, m: map<FormId, Obj>, needles: seq<FormId>, i: nat, found: seq<Entry>)
    requires i < |needles| && CallsInOrder(calls, m, needles[..i]) && IsBucketFor(found, m, needles[i])
    ensures CallsInOrder(calls + found, m, needles[..i + 1])
  {
    assert needles[..i + 1][..i] == needles[..i];
    assert (calls + found)[..|calls|] == calls && (calls + found)[|calls|..] == found;
  }

  /** So each entry is handed over once for every listed id that stands for it,
      and nothing else is. */
  lemma {:induction false} CallsAreCounted(calls: seq<Entry>, m: map<FormId, Obj>, needles: seq<FormId>, e: Entry)
    requires CallsInOrder(calls, m, needles)
    ensures multiset(calls)[e] == if e.id in m && m[e.id] == e.obj then Mentions(needles, e.id) else 0
    decreases |needles|
  {
    hide IsBucketFor, StandsFor;
    if needles == [] {
    } else {
      var n := |needles| - 1;
      var k :| 0 <= k <= |calls| && CallsInOrder(calls[..k], m, needles[..n]) && IsBucketFor(calls[k..], m, needles[n]);
      CallsAreCounted(calls[..k], m, needles[..n], e);
      BucketCounts(calls[k..], m, needles[n], e);
      assert calls == calls[..k] + calls[k..];
    }
  }

  /** The order leaves no choice: the map and the list determine the calls. */
  lemma {:induction false} CallsAreDetermined(a: seq<Entry>, b: seq<Entry>, m: map<FormId, Obj>, needles: seq<FormId>)
    requires CallsInOrder(a, m, needles) && CallsInOrder(b, m, needles)
    ensures a == b
    decreases |needles|
  {
    hide IsBucketFor, StandsFor;
    if needles == [] {
    } else {
      var n := |needles| - 1;
      var j :| 0 <= j <= |a| && CallsInOrder(a[..j], m, needles[..n]) && IsBucketFor(a[j..], m, needles[n]);
      var k :| 0 <= k <= |b| && CallsInOrder(b[..k], m, needles[..n]) && IsBucketFor(b[k..], m, needles[n]);
      CallsAreDetermined(a[..j], b[..k], m, needles[..n]);
      BucketDetermined(a[j..], b[k..], m, needles[n]);
      assert a == a[..j] + a[j..] && b == b[..k] + b[k..];
    }
  }

  lemma BucketDetermined(a: seq<Entry>, b: seq<Entry>, m: map<FormId, Obj>, id: FormId)
    requires IsBucketFor(a, m, id) && IsBucketFor(b, m, id)
    ensures a == b
  {
    if IsSpecial(id) {
    } else {
      assert forall e: Entry :: e in a <==> e in b;
      SortedDetermined(a, b);
    }
  }

  class FlatIDTo3DMap {
    var generic: Buckets
    var special: Exact
    ghost var contents: map<FormId, Obj>

    ghost predicate Valid()
      reads this
    {
      WellFormed(generic, special) && Represents(generic, special, contents)
    }

    constructor ()
      ensures Valid() && contents == map[]
    {
      generic, special, contents := map[], map[], map[];
    }

    method Find(id: FormId) returns (found: seq<Entry>)
      requires Valid()
      ensures IsBucketFor(found, contents, id)
    {
      if IsSpecial(id) {
        return if id in special then [Entry(id, special[id])] else [];
      }
      found := if Base(id) in generic then generic[Base(id)] else [];
      forall e: Entry
        ensures e in found <==>
          e.id in contents && contents[e.id] == e.obj && !IsSpecial(e.id) && Base(e.id) == Base(id)
      {
      }
    }

    /** The id pass of DoAddToCullingGroup: what the callback is called on. */
    method CallsForIDs(needles: seq<FormId>) returns (calls: seq<Entry>)
      requires Valid()
      ensures CallsInOrder(calls, contents, needles)
    {
      calls := [];
      for i := 0 to |needles|
        invariant CallsInOrder(calls, contents, needles[..i])
      {
        var found := Find(needles[i]);
        CallsGrow(calls, contents, needles, i, found);
        calls := calls + found;
      }
      assert needles[..|needles|] == needles;
    }

    method InsertOrAssign(id: FormId, obj: Obj)
      requires Valid()
      modifies this
      ensures Valid() && contents == old(contents)[id := obj]
    {
      if IsSpecial(id) {
        special := special[id := obj];
      } else {
        InsertGeneric(id, obj);
      }
      contents := contents[id := obj];
    }

    method InsertGeneric(id: FormId, obj: Obj)
      requires Valid() && !IsSpecial(id)
      modifies this`generic
      ensures WellFormed(generic, special) && Represents(generic, special, contents[id := obj])
    {
      var objs := if Base(id) in generic then generic[Base(id)] else [];
      var k := FindSlot(objs, id);
      var edited;
      if k < |objs| && objs[k].id == id {
        edited := objs[k := Entry(id, obj)];
      } else {
        edited := objs + [Entry(id, obj)];
      }
      var sorted := SortById(edited);
      AppendThenSort(objs, Entry(id, obj), k, sorted);
      PutAtBucket(objs, Entry(id, obj), k);
      PutRepresents(generic, special, contents, Entry(id, obj), sorted);
      generic := generic[Base(id) := sorted];
    }

    method Erase(id: FormId)
      requires Valid()
      modifies this
      ensures Valid() && contents == old(contents) - {id}
    {
      if IsSpecial(id) {
        special := special - {id};
      } else {
        EraseGeneric(id);
      }
      contents := contents - {id};
    }

    method EraseGeneric(id: FormId)
      requires Valid() && !IsSpecial(id)
      modifies this`generic
      ensures WellFormed(generic, special) && Represents(generic, special, contents - {id})
    {
      if Base(id) in generic {
        var objs := generic[Base(id)];
        var k := FindSlot(objs, id);
        if k < |objs| && objs[k].id == id {
          var rest := objs[..k] + objs[k + 1..];
          TakeOutBucket(objs, k);
          DropRepresents(generic, special, contents, id, rest);
          generic := if rest == [] then generic - {Base(id)} else generic[Base(id) := rest];
          return;
        }
      }
      AbsentRepresents(generic, special, contents, id);
      assert contents - {id} == contents;
    }
  }

  method StepBoth(vr: IDTo3DMap, flat: FlatIDTo3DMap, op: Op)
    requires vr.Valid() && flat.Valid() && vr.contents == flat.contents
    modifies vr, flat
    ensures vr.Valid() && flat.Valid()
    ensures vr.contents == flat.contents == Apply(old(vr.contents), op).0
  {
    match op
    case Insert(id, obj) =>
      var _ := vr.InsertOrAssign(id, obj);
      flat.InsertOrAssign(id, obj);
    case Erase(id) =>
      var _ := vr.Erase(id);
      flat.Erase(id);
    case Find(_) =>
  }

  /** After the same history the two insertion schemes hold the same buckets,
      in the same order, and the same exact map. */
  method ReplayBoth(ops: seq<Op>) returns (vr: IDTo3DMap, flat: FlatIDTo3DMap)
    ensures vr.Valid() && flat.Valid()
    ensures vr.contents == flat.contents == Replay(map[], ops).0
    ensures vr.generic == flat.generic && vr.special == flat.special
  {
    vr := new IDTo3DMap();
    flat := new FlatIDTo3DMap();
    for i := 0 to |ops|
      invariant fresh(vr) && fresh(flat) && vr.Valid() && flat.Valid()
      invariant vr.contents == flat.contents == Replay(map[], ops[..i]).0
    {
      assert ops[..i + 1][..i] == ops[..i];
      StepBoth(vr, flat, ops[i]);
    }
    assert ops[..|ops|] == ops;
    RepresentationDetermined(vr.generic, vr.special, flat.generic, flat.special, vr.contents);
  }
}
