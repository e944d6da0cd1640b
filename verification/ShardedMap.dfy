/** The VR handler: 64 shard maps behind one interface, and the proof that any
    history of operations on it is the same history on one flat map. */
module ShardedMap {
  import opened Prelude
  import opened FormIds
  import opened IdMaps

  datatype Op = Insert(id: FormId, obj: Obj) | Erase(id: FormId) | Find(id: FormId)

  /** One operation on a plain map: the new map, and the value that the
      operation hands back (found, displaced or removed). */
  function Apply(m: map<FormId, Obj>, op: Op): (map<FormId, Obj>, Option<Obj>) {
    match op
    case Insert(id, obj) => (m[id := obj], Get(m, id))
    case Erase(id) => (m - {id}, Get(m, id))
    case Find(id) => (m, Get(m, id))
  }

  function Replay(m: map<FormId, Obj>, ops: seq<Op>): (map<FormId, Obj>, seq<Option<Obj>>) {
    if ops == [] then (m, [])
    else
      var (before, answers) := Replay(m, ops[..|ops| - 1]);
      var (after, answer) := Apply(before, ops[|ops| - 1]);
      (after, answers + [answer])
  }

  /** Operation `op` writes to `id`. */
  predicate Writes(op: Op, id: FormId) {
    (op.Insert? || op.Erase?) && op.id == id
  }

  /** What stands under an id changes only by writes to it. */
  lemma {:induction false} ReplayUnwritten(m: map<FormId, Obj>, ops: seq<Op>, from: nat, id: FormId)
    requires from <= |ops| && forall j :: from <= j < |ops| ==> !Writes(ops[j], id)
    ensures Get(Replay(m, ops).0, id) == Get(Replay(m, ops[..from]).0, id)
  {
    if from == |ops| {
      assert ops[..from] == ops;
    } else {
      var n := |ops| - 1;
      ReplayUnwritten(m, ops[..n], from, id);
      assert ops[..n][..from] == ops[..from];
      assert !Writes(ops[n], id);
    }
  }

  /** What a history leaves under an id: the object of its last write if that is an
      insertion, nothing if that is an erasure, and what was there before if there
      is no write. */
  lemma ReplayIsLastWrite(m: map<FormId, Obj>, ops: seq<Op>, i: nat, id: FormId)
    requires i < |ops| && forall j :: i < j < |ops| ==> !Writes(ops[j], id)
    ensures Writes(ops[i], id) ==> Get(Replay(m, ops).0, id) == if ops[i].Insert? then Some(ops[i].obj) else None
    ensures (forall j :: 0 <= j < |ops| ==> !Writes(ops[j], id)) ==> Get(Replay(m, ops).0, id) == Get(m, id)
  {
    ReplayUnwritten(m, ops, i + 1, id);
    assert ops[..i + 1][..i] == ops[..i];
    if forall j :: 0 <= j < |ops| ==> !Writes(ops[j], id) {
      ReplayUnwritten(m, ops, 0, id);
    }
  }

  /** Each operation answers with what was under its id just before it. */
  lemma {:induction false} ReplayAnswers(m: map<FormId, Obj>, ops: seq<Op>, i: nat)
    requires i < |ops|
    ensures |Replay(m, ops).1| == |ops|
    ensures Replay(m, ops).1[i] == Get(Replay(m, ops[..i]).0, ops[i].id)
  {
    var n := |ops| - 1;
    if n > 0 {
      ReplayAnswers(m, ops[..n], if i < n then i else n - 1);
    }
    if i < n {
      assert ops[..n][..i] == ops[..i];
    }
  }

  /** `held[k]` is what shard `k` holds: its own ids of `m` and no others. */
  ghost predicate Partition(held: seq<map<FormId, Obj>>, m: map<FormId, Obj>) {
    && |held| == SHARD_COUNT
    && (forall k, id :: 0 <= k < |held| && id in held[k] ==>
          ShardIndex(id) == k && id in m && m[id] == held[k][id])
    && (forall id :: id in m ==> id in held[ShardIndex(id)])
  }

  lemma PartitionGet(held: seq<map<FormId, Obj>>, m: map<FormId, Obj>, id: FormId)
    requires Partition(held, m)
    ensures Get(held[ShardIndex(id)], id) == Get(m, id)
  {
  }

  lemma PartitionPut(held: seq<map<FormId, Obj>>, m: map<FormId, Obj>, id: FormId, obj: Obj)
    requires Partition(held, m)
    ensures var edited: map<FormId, Obj> := held[ShardIndex(id)][id := obj];
      Partition(held[ShardIndex(id) := edited], m[id := obj])
  {
  }

  lemma PartitionDrop(held: seq<map<FormId, Obj>>, m: map<FormId, Obj>, id: FormId)
    requires Partition(held, m)
    ensures Partition(held[ShardIndex(id) := held[ShardIndex(id)] - {id}], m - {id})
  {
  }

  class IDTo3DHandler {
    const shards: seq<IDTo3DMap>
    ghost var held: seq<map<FormId, Obj>>
    ghost var contents: map<FormId, Obj>

    ghost predicate Valid()
      reads this, shards
    {
      && |shards| == |held| == SHARD_COUNT
      && (forall i, j :: 0 <= i < j < |shards| ==> shards[i] != shards[j])
      && (forall k :: 0 <= k < |shards| ==> shards[k].Valid() && shards[k].contents == held[k])
      && Partition(held, contents)
    }

    constructor ()
      ensures Valid() && contents == map[]
      ensures fresh(shards)
    {
      var made: seq<IDTo3DMap> := [];
      for i := 0 to SHARD_COUNT
        invariant |made| == i
        invariant forall k :: 0 <= k < |made| ==> fresh(made[k]) && made[k].Valid() && made[k].contents == map[]
        invariant forall a, b :: 0 <= a < b < |made| ==> made[a] != made[b]
      {
        var shard := new IDTo3DMap();
        made := made + [shard];
      }
      shards, held, contents := made, seq(SHARD_COUNT, i => map[]), map[];
    }

    method MapFindOne(id: FormId) returns (found: Option<Obj>)
      requires Valid()
      ensures found == Get(contents, id)
    {
      PartitionGet(held, contents, id);
      found := shards[ShardIndex(id)].FindOne(id);
    }

    method MapInsertOrAssign(id: FormId, obj: Obj) returns (displaced: Option<Obj>)
      requires Valid()
      modifies this, shards
      ensures Valid() && contents == old(contents)[id := obj]
      ensures displaced == Get(old(contents), id)
    {
      PartitionGet(held, contents, id);
      PartitionPut(held, contents, id, obj);
      var k := ShardIndex(id);
      displaced := shards[k].InsertOrAssign(id, obj);
      ghost var edited: map<FormId, Obj> := held[k][id := obj];
      held, contents := held[k := edited], contents[id := obj];
    }

    method MapErase(id: FormId) returns (removed: Option<Obj>)
      requires Valid()
      modifies this, shards
      ensures Valid() && contents == old(contents) - {id}
      ensures removed == Get(old(contents), id)
    {
      PartitionGet(held, contents, id);
      PartitionDrop(held, contents, id);
      var k := ShardIndex(id);
      removed := shards[k].Erase(id);
      held, contents := held[k := held[k] - {id}], contents - {id};
    }

    /** Any history of operations answers and ends as on one flat map. */
    method Run(ops: seq<Op>) returns (answers: seq<Option<Obj>>)
      requires Valid()
      modifies this, shards
      ensures Valid() && (contents, answers) == Replay(old(contents), ops)
    {
      answers := [];
      for i := 0 to |ops|
        invariant Valid() && (contents, answers) == Replay(old(contents), ops[..i])
      {
        assert ops[..i + 1][..i] == ops[..i];
        var answer;
        match ops[i] {
          case Insert(id, obj) => answer := MapInsertOrAssign(id, obj);
          case Erase(id) => answer := MapErase(id);
          case Find(id) => answer := MapFindOne(id);
        }
        answers := answers + [answer];
      }
      assert ops[..|ops|] == ops;
    }
  }
}
