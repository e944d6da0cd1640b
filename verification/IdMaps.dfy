/** Form id to 3D object maps: an exact map for special ids and sorted buckets,
    keyed by base id, for all others; and the map that one VR shard holds. */
module IdMaps {
  import opened Prelude
  import opened FormIds

  type Obj = nat

  datatype Entry = Entry(id: FormId, obj: Obj)

  type Buckets = map<nat, seq<Entry>>
  type Exact = map<FormId, Obj>

  // ---- The two-container representation of one flat map ----

  ghost predicate Sorted(b: seq<Entry>) {
    forall i, j :: 0 <= i < j < |b| ==> b[i].id < b[j].id
  }

  ghost predicate BucketOf(base: nat, b: seq<Entry>) {
    && b != []
    && Sorted(b)
    && forall i :: 0 <= i < |b| ==> !IsSpecial(b[i].id) && Base(b[i].id) == base
  }

  ghost predicate WellFormed(generic: Buckets, special: Exact) {
    && (forall id :: id in special ==> IsSpecial(id))
    && (forall base :: base in generic ==> BucketOf(base, generic[base]))
  }

  /** The two containers hold exactly the pairs of the flat map `m`. */
  ghost predicate Represents(generic: Buckets, special: Exact, m: map<FormId, Obj>) {
    && (forall id :: id in special ==> id in m && m[id] == special[id])
    && (forall id :: id in m && IsSpecial(id) ==> id in special)
    && (forall base, i :: base in generic && 0 <= i < |generic[base]| ==>
          generic[base][i].id in m && m[generic[base][i].id] == generic[base][i].obj)
    && (forall id :: id in m && !IsSpecial(id) ==>
          Base(id) in generic && Entry(id, m[id]) in generic[Base(id)])
  }

  lemma {:induction false} SortedDetermined(a: seq<Entry>, b: seq<Entry>)
    requires Sorted(a) && Sorted(b)
    requires forall e :: e in a <==> e in b
    ensures a == b
  {
    HeadIsMember(a);
    HeadIsMember(b);
    if a == [] {
    } else {
      assert a[0] == b[0];
      forall e
        ensures e in a[1..] <==> e in b[1..]
      {
        assert e in a[1..] <==> e in a && e != a[0];
        assert e in b[1..] <==> e in b && e != b[0];
      }
      SortedDetermined(a[1..], b[1..]);
    }
  }

  lemma HeadIsMember(b: seq<Entry>)
    ensures b != [] ==> b[0] in b
  {
  }

  /** The flat map determines both containers, buckets and order included. */
  lemma RepresentationDetermined(g1: Buckets, s1: Exact, g2: Buckets, s2: Exact, m: map<FormId, Obj>)
    requires WellFormed(g1, s1) && WellFormed(g2, s2)
    requires Represents(g1, s1, m) && Represents(g2, s2, m)
    ensures g1 == g2 && s1 == s2
  {
    assert s1.Keys == s2.Keys;
    forall base | base in g1 || base in g2
      ensures base in g1 && base in g2 && g1[base] == g2[base]
    {
      BucketsAgree(g1, s1, g2, s2, m, base);
    }
    assert g1.Keys == g2.Keys;
  }

  lemma BucketsAgree(g1: Buckets, s1: Exact, g2: Buckets, s2: Exact, m: map<FormId, Obj>, base: nat)
    requires WellFormed(g1, s1) && WellFormed(g2, s2)
    requires Represents(g1, s1, m) && Represents(g2, s2, m)
    requires base in g1 || base in g2
    ensures base in g1 && base in g2 && g1[base] == g2[base]
  {
    var some := if base in g1 then g1[base][0] else g2[base][0];
    assert some.id in m && !IsSpecial(some.id) && Base(some.id) == base;
    forall e | e in g1[base]
      ensures e in g2[base]
    {
      assert e.id in m && e == Entry(e.id, m[e.id]);
    }
    forall e | e in g2[base]
      ensures e in g1[base]
    {
      assert e.id in m && e == Entry(e.id, m[e.id]);
    }
    SortedDetermined(g1[base], g2[base]);
  }

  // ---- Bucket edits ----

  /** Where `id` belongs in a bucket. */
  ghost predicate IsSlot(b: seq<Entry>, id: FormId, k: nat) {
    && k <= |b|
    && (forall i :: 0 <= i < k ==> b[i].id < id)
    && (forall i :: k <= i < |b| ==> id <= b[i].id)
  }

  method FindSlot(b: seq<Entry>, id: FormId) returns (k: nat)
    requires Sorted(b)
    ensures IsSlot(b, id, k)
    ensures (k < |b| && b[k].id == id) <==> exists i :: 0 <= i < |b| && b[i].id == id
  {
    var before := (i: nat) requires i < |b| => b[i].id < id;
    k := LowerBound(|b|, before);
    forall i: nat | i < |b|
      ensures b[i].id < id <==> i < k
    {
      assert before(i) <==> b[i].id < id;
    }
  }

  ghost function PutAt(b: seq<Entry>, e: Entry, k: nat): seq<Entry>
    requires k <= |b|
  {
    if k < |b| && b[k].id == e.id then b[k := e] else b[..k] + [e] + b[k..]
  }

  ghost function TakeOut(b: seq<Entry>, k: nat): seq<Entry>
    requires k < |b|
  {
    b[..k] + b[k + 1..]
  }

  lemma PutAtBucket(b: seq<Entry>, e: Entry, k: nat)
    requires Sorted(b) && IsSlot(b, e.id, k)
    ensures Sorted(PutAt(b, e, k))
    ensures forall x :: x in PutAt(b, e, k) <==> x == e || (x in b && x.id != e.id)
  {
    var p := PutAt(b, e, k);
    if k < |b| && b[k].id == e.id {
      forall x | x in b && x.id != e.id
        ensures x in p
      {
        var i :| 0 <= i < |b| && b[i] == x;
        assert p[i] == x;
      }
      assert p[k] == e;
    } else {
      assert forall x :: x in b <==> x in b[..k] || x in b[k..];
    }
  }

  lemma TakeOutBucket(b: seq<Entry>, k: nat)
    requires Sorted(b) && k < |b|
    ensures Sorted(TakeOut(b, k))
    ensures forall x :: x in TakeOut(b, k) <==> x in b && x.id != b[k].id
  {
    forall x | x in b && x.id != b[k].id
      ensures x in TakeOut(b, k)
    {
      var i :| 0 <= i < |b| && b[i] == x;
      if i < k {
        assert TakeOut(b, k)[i] == x;
      } else {
        assert TakeOut(b, k)[i - 1] == x;
      }
    }
  }

  /** `b` is the bucket of `e`'s base with `e` put in. */
  ghost predicate IsPut(generic: Buckets, e: Entry, b: seq<Entry>) {
    && Sorted(b)
    && var before := if Base(e.id) in generic then generic[Base(e.id)] else [];
       forall x :: x in b <==> x == e || (x in before && x.id != e.id)
  }

  lemma PutBucketOf(generic: Buckets, special: Exact, e: Entry, b: seq<Entry>)
    requires WellFormed(generic, special) && !IsSpecial(e.id) && IsPut(generic, e, b)
    ensures BucketOf(Base(e.id), b)
  {
    assert e in b;
    forall i | 0 <= i < |b|
      ensures !IsSpecial(b[i].id) && Base(b[i].id) == Base(e.id)
    {
      assert b[i] in b;
    }
  }

  /** Replacing one bucket is the flat map's update at one ordinary id. */
  lemma PutRepresents(generic: Buckets, special: Exact, m: map<FormId, Obj>, e: Entry, b: seq<Entry>)
    requires WellFormed(generic, special) && Represents(generic, special, m)
    requires !IsSpecial(e.id) && IsPut(generic, e, b)
    ensures WellFormed(generic[Base(e.id) := b], special)
    ensures Represents(generic[Base(e.id) := b], special, m[e.id := e.obj])
  {
    PutBucketOf(generic, special, e, b);
    var g: Buckets := generic[Base(e.id) := b];
    var n: map<FormId, Obj> := m[e.id := e.obj];
    forall base, i | base in g && 0 <= i < |g[base]|
      ensures g[base][i].id in n && n[g[base][i].id] == g[base][i].obj
    {
      assert g[base][i] in g[base];
    }
    forall id | id in n && !IsSpecial(id)
      ensures Base(id) in g && Entry(id, n[id]) in g[Base(id)]
    {
      if id != e.id {
        assert Entry(id, m[id]) in generic[Base(id)];
      }
    }
  }

  lemma DropRepresents(generic: Buckets, special: Exact, m: map<FormId, Obj>, id: FormId, b: seq<Entry>)
    requires WellFormed(generic, special) && Represents(generic, special, m)
    requires !IsSpecial(id) && Base(id) in generic && Sorted(b)
    requires forall x :: x in b <==> x in generic[Base(id)] && x.id != id
    ensures var g := if b == [] then generic - {Base(id)} else generic[Base(id) := b];
      WellFormed(g, special) && Represents(g, special, m - {id})
  {
    assert forall i :: 0 <= i < |b| ==> b[i] in b;
    var g := if b == [] then generic - {Base(id)} else generic[Base(id) := b];
    forall k | k in m && !IsSpecial(k) && k != id
      ensures Base(k) in g && Entry(k, m[k]) in g[Base(k)]
    {
      assert Entry(k, m[k]) in generic[Base(k)];
      if Base(k) == Base(id) {
        assert Entry(k, m[k]) in b;
      }
    }
  }

  /** What an absent slot says about the flat map. */
  lemma AbsentRepresents(generic: Buckets, special: Exact, m: map<FormId, Obj>, id: FormId)
    requires WellFormed(generic, special) && Represents(generic, special, m)
    requires !IsSpecial(id)
    requires Base(id) in generic ==> !exists i :: 0 <= i < |generic[Base(id)]| && generic[Base(id)][i].id == id
    ensures id !in m
  {
  }

  // ---- One shard's map (VR) ----

  class IDTo3DMap {
    var generic: Buckets
    var special: Exact
    ghost var contents: map<FormId, Obj>

    ghost predicate Valid()
      reads this
    {
      WellFormed(generic, special) && Represents(generic, special, contents)
    }

    constructor ()
      ensures Valid() && contents == map[]
    {
      generic, special, contents := map[], map[], map[];
    }

    method FindOne(id: FormId) returns (found: Option<Obj>)
      requires Valid()
      ensures found == Get(contents, id)
    {
      if IsSpecial(id) {
        return Get(special, id);
      }
      if Base(id) in generic {
        var objs := generic[Base(id)];
        var k := FindSlot(objs, id);
        if k < |objs| && objs[k].id == id {
          return Some(objs[k].obj);
        }
      }
      AbsentRepresents(generic, special, contents, id);
      return None;
    }

    method InsertOrAssign(id: FormId, obj: Obj) returns (displaced: Option<Obj>)
      requires Valid()
      modifies this
      ensures Valid() && contents == old(contents)[id := obj]
      ensures displaced == Get(old(contents), id)
    {
      if IsSpecial(id) {
        displaced := Get(special, id);
        special := special[id := obj];
      } else {
        displaced := InsertGeneric(id, obj);
      }
      contents := contents[id := obj];
    }

    method InsertGeneric(id: FormId, obj: Obj) returns (displaced: Option<Obj>)
      requires Valid() && !IsSpecial(id)
      modifies this`generic
      ensures WellFormed(generic, special) && Represents(generic, special, contents[id := obj])
      ensures displaced == Get(contents, id)
    {
      var objs := if Base(id) in generic then generic[Base(id)] else [];
      var k := FindSlot(objs, id);
      PutAtBucket(objs, Entry(id, obj), k);
      PutRepresents(generic, special, contents, Entry(id, obj), PutAt(objs, Entry(id, obj), k));
      if k < |objs| && objs[k].id == id {
        displaced := Some(objs[k].obj);
        generic := generic[Base(id) := objs[k := Entry(id, obj)]];
      } else {
        AbsentRepresents(generic, special, contents, id);
        displaced := None;
        generic := generic[Base(id) := objs[..k] + [Entry(id, obj)] + objs[k..]];
      }
    }

    method Erase(id: FormId) returns (removed: Option<Obj>)
      requires Valid()
      modifies this
      ensures Valid() && contents == old(contents) - {id}
      ensures removed == Get(old(contents), id)
    {
      if IsSpecial(id) {
        removed := Get(special, id);
        special := special - {id};
      } else {
        removed := EraseGeneric(id);
      }
      contents := contents - {id};
    }

    method EraseGeneric(id: FormId) returns (removed: Option<Obj>)
      requires Valid() && !IsSpecial(id)
      modifies this`generic
      ensures WellFormed(generic, special) && Represents(generic, special, contents - {id})
      ensures removed == Get(contents, id)
    {
      removed := None;
      if Base(id) in generic {
        var objs := generic[Base(id)];
        var k := FindSlot(objs, id);
        if k < |objs| && objs[k].id == id {
          removed := Some(objs[k].obj);
          var rest := objs[..k] + objs[k + 1..];
          TakeOutBucket(objs, k);
          DropRepresents(generic, special, contents, id, rest);
          generic := if rest == [] then generic - {Base(id)} else generic[Base(id) := rest];
          return;
        }
      }
      AbsentRepresents(generic, special, contents, id);
      assert contents - {id} == contents;
    }
  }
}
