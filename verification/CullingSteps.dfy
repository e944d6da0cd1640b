/** What single steps of the culling protocol do, told by the program points
    before and after them and by the plain contents of the tables, and reachable
    states that show each main result at work. */
module CullingSteps {
  import opened Prelude
  import opened FormIds
  import opened CullingProtocol
  import opened CullingLocks
  import opened CullingSafety

  // ---- Passes ----

  /** Thread `t` is a pass that takes its read of `id` from `s` to `s'`. */
  predicate PassReads(s: State, s': State, t: Tid, id: FormId) {
    && t < |s.threads| && t < |s'.threads|
    && s.threads[t].Pass? && s.threads[t].point == InShard(id)
    && s'.threads[t].Pass? && s'.threads[t].point == ReadDone(id)
  }

  /** A read adds our map's entry for the id to what the pass holds, and nothing
      else; without an entry it adds nothing. */
  lemma PassGetsTheEntry(s: State, s': State, t: Tid, id: FormId)
    requires Next(s, s') && PassReads(s, s', t, id)
    ensures forall p: Fetch :: p in s'.threads[t].held <==>
      p in s.threads[t].held || (p.id == id && Get(s.tables.ours, id) == Some(p.obj))
  {
    hide Granted, LocksAfter, RefsAfter, TablesAfter;
  }

  /** No other step of a pass changes what it holds. */
  lemma OnlyReadsFetch(s: State, s': State, t: Tid)
    requires Next(s, s') && t < |s.threads| && t < |s'.threads| && s.threads[t].Pass? && s'.threads[t].Pass?
    ensures s'.threads[t].held == s.threads[t].held || exists id :: PassReads(s, s', t, id)
  {
    hide Granted, LocksAfter, RefsAfter, TablesAfter, Fetched;
    if s'.threads[t].held != s.threads[t].held {
      assert PassReads(s, s', t, s.threads[t].point.id);
    }
  }

  /** While no update of the id is under way, what a pass fetches is the stock
      table's entry, then and at every later step. */
  lemma FetchedIsTheStockEntry(run: seq<State>, i: nat, j: nat, t: Tid, id: FormId, o: Obj)
    requires IsRun(run) && i < j < |run| && PassReads(run[i], run[i + 1], t, id)
    requires forall k :: i <= k <= j ==> NoUpdateOf(run[k], id)
    ensures Fetch(id, o) in run[i + 1].threads[t].held <==>
      Fetch(id, o) in run[i].threads[t].held || Get(run[j].tables.stock, id) == Some(o)
  {
    hide Next;
    PassGetsTheEntry(run[i], run[i + 1], t, id);
    QuietRun(run, i, j, id);
  }

  // ---- Updaters ----

  predicate Moves(s: State, s': State, t: Tid, from: UpdatePoint, to: UpdatePoint) {
    && t < |s.threads| && t < |s'.threads|
    && Updating(s.threads[t], from) && Updating(s'.threads[t], to)
  }

  /** The map step: our map gives the argument for the id and is otherwise as it
      was, the stock table is untouched, and what was displaced is in hand. */
  lemma MapStep(s: State, s': State, t: Tid, x: FormId)
    requires Next(s, s') && Moves(s, s', t, InMap, MapDone)
    ensures var th := s.threads[t];
      && Get(s'.tables.ours, x) == (if x == th.id then th.arg else Get(s.tables.ours, x))
      && Get(s'.tables.stock, x) == Get(s.tables.stock, x)
      && s'.threads[t] == Updater(MapDone, th.id, th.arg, Get(s.tables.ours, th.id))
  {
    hide Granted, LocksAfter, RefsAfter;
  }

  /** The stock step, likewise. */
  lemma StockEdit(s: State, s': State, t: Tid, x: FormId)
    requires Next(s, s') && Moves(s, s', t, InStock, Stocked(true))
    ensures var th := s.threads[t];
      && Get(s'.tables.stock, x) == (if x == th.id then th.arg else Get(s.tables.stock, x))
      && Get(s'.tables.ours, x) == Get(s.tables.ours, x)
      && s'.threads[t] == Updater(Stocked(true), th.id, th.arg, Get(s.tables.stock, th.id))
  {
    hide Granted, LocksAfter, RefsAfter;
  }

  /** Nothing else changes a table. */
  lemma OnlyUpdatersEdit(s: State, s': State)
    requires Next(s, s')
    ensures s'.tables.ours == s.tables.ours || exists t :: Moves(s, s', t, InMap, MapDone)
    ensures s'.tables.stock == s.tables.stock || exists t :: Moves(s, s', t, InStock, Stocked(true))
  {
    hide Granted, LocksAfter, RefsAfter, Store;
    if t: Tid, a :| CanStep(s, t, a) && s' == Do(s, t, a) {
      if a == EditMap {
        assert Moves(s, s', t, InMap, MapDone);
      } else if a == EditStock {
        assert Moves(s, s', t, InStock, Stocked(true));
      }
    }
  }

  // ---- Lookups ----

  /** A lookup reads our map's entry for its id and answers with it. */
  lemma LookupAnswers(s: State, s': State, t: Tid, id: FormId)
    requires Next(s, s') && t < |s.threads| && t < |s'.threads| && s'.threads[t] != s.threads[t]
    ensures s.threads[t] == Lookup(LInShard, id) ==> s'.threads[t] == Lookup(LReadDone(Get(s.tables.ours, id)), id)
    ensures forall found :: s.threads[t] == Lookup(LReadDone(found), id) ==> s'.threads[t] == Lookup(LAnswer(found), id)
  {
    hide Granted, LocksAfter, RefsAfter, TablesAfter;
  }

  /** The thread's lookup of `id` missed and ends here. */
  predicate EndsAMiss(s: State, s': State, t: Tid, id: FormId) {
    && t < |s.threads| && t < |s'.threads|
    && s.threads[t] == Lookup(LAnswer(None), id) && s'.threads[t].Idle?
  }

  /** The sentinel counts one miss at a time: as real exactly if the stock table has
      the id, and as a ghost exactly if it has not. */
  lemma SentinelCounts(s: State, s': State)
    requires Next(s, s')
    ensures s'.realMisses != s.realMisses ==>
      && s'.realMisses == s.realMisses + 1 && s'.ghostMisses == s.ghostMisses
      && exists t, id :: EndsAMiss(s, s', t, id) && id in s.tables.stock
    ensures s'.ghostMisses != s.ghostMisses ==>
      && s'.ghostMisses == s.ghostMisses + 1 && s'.realMisses == s.realMisses
      && exists t, id :: EndsAMiss(s, s', t, id) && id !in s.tables.stock
  {
    hide Granted, LocksAfter, RefsAfter, TablesAfter;
    if t: Tid, a :| CanStep(s, t, a) && s' == Do(s, t, a) {
      if a.Sentinel? {
        assert EndsAMiss(s, s', t, s.threads[t].target);
      }
    }
  }

  // ---- Locks ----

  /** No thread is where it owns or shares the lock. */
  predicate NoWriter(s: State, k: nat) { forall u :: 0 <= u < |s.threads| ==> !HoldsWriter(s.threads[u], k) }

  predicate NoEditor(s: State, k: nat) { forall u :: 0 <= u < |s.threads| ==> !EditsShard(s.threads[u], k) }

  predicate NoReader(s: State, k: nat) { forall u :: 0 <= u < |s.threads| ==> !SharesShard(s.threads[u], k) }

  predicate NoStockOwner(s: State) { forall u :: 0 <= u < |s.threads| ==> !OwnsStock(s.threads[u]) }

  predicate NoPass(s: State) { forall u :: 0 <= u < |s.threads| ==> !SharesStock(s.threads[u]) }

  lemma ReachableLocks(s: State)
    requires Reachable(s)
    ensures Locks(s)
  {
    var run :| IsRun(run) && run[|run| - 1] == s;
    RunInv(run, |run| - 1);
  }

  /** When a waiting thread gets its lock, exactly: readers share, and only an
      updater at the points in between keeps others out. */
  lemma UpdaterGetsLock(s: State, t: Tid)
    requires Reachable(s) && t < |s.threads| && s.threads[t].Updater?
    ensures s.threads[t].at == WantWriter ==> (CanStep(s, t, LockWriter) <==> NoWriter(s, ShardIndex(s.threads[t].id)))
    ensures s.threads[t].at == WantMap ==>
      (CanStep(s, t, LockMap) <==> NoEditor(s, ShardIndex(s.threads[t].id)) && NoReader(s, ShardIndex(s.threads[t].id)))
    ensures s.threads[t].at == WantStock ==> (CanStep(s, t, LockStock) <==> NoStockOwner(s) && NoPass(s))
  {
    hide Init, HoldsWriter, EditsShard, SharesShard, OwnsStock, SharesStock, SplitID;
    ReachableLocks(s);
    var k := ShardIndex(s.threads[t].id);
    assert WriterLock(s.locks.writer[k], s.threads, k) && ShardLock(s.locks.shard[k], s.threads, k);
    EmptyReaders(s.locks.shard[k].readers);
    EmptyReaders(s.locks.id.readers);
  }

  lemma EmptyReaders(readers: set<Tid>)
    ensures readers == {} <==> forall u :: u !in readers
  {
  }

  lemma ReaderGetsLock(s: State, t: Tid)
    requires Reachable(s) && t < |s.threads|
    ensures s.threads[t].Pass? && s.threads[t].point == WantStockRead ==>
      (CanStep(s, t, LockStockRead) <==> NoStockOwner(s))
    ensures WaitsForShard(s.threads[t]) ==> (CanStep(s, t, LockShard) <==> NoEditor(s, ShardOf(s.threads[t])))
  {
    hide Init, HoldsWriter, EditsShard, SharesShard, OwnsStock, SharesStock, SplitID;
    ReachableLocks(s);
    if WaitsForShard(s.threads[t]) {
      var k := ShardOf(s.threads[t]);
      assert ShardLock(s.locks.shard[k], s.threads, k);
    }
  }

  // ---- Reachable states ----

  /** One object in both tables under `id`, and all threads idle. */
  lemma OneEntry(id: FormId, o: Obj) returns (s: State)
    ensures Reachable(s) && AllFree(s.locks) && s.threads == [Idle, Idle]
    ensures s.tables == Tables(map[id := o], map[id := o]) && s.ext == multiset{o}
  {
    hide Reachable, AllFree;
    s := StartReachable();
    s := EngineTake(s, New(o));
    s := UpdateAlone(s, 0, id, Some(o));
  }

  lemma PassBegins(id: FormId, o: Obj) returns (s: State)
    ensures Reachable(s) && Shaped(s.locks) && s.locks.shard[ShardIndex(id)] == FREE_LOCK
    ensures s.threads == [Idle, Pass(Between, {})] && s.tables.ours == map[id := o]
  {
    hide Reachable, RefsAfter, SplitID;
    s := OneEntry(id, o);
    s := Take(s, 1, BeginPass);
    s := Take(s, 1, LockStockRead);
  }

  /** A pass holds an object, in the middle of its walk. */
  lemma PassHolds(id: FormId, o: Obj) returns (s: State)
    ensures Reachable(s) && s.threads == [Idle, Pass(Between, {Fetch(id, o)})]
  {
    hide Reachable, RefsAfter, SplitID;
    s := PassBegins(id, o);
    s := Take(s, 1, NextId(id));
    s := Take(s, 1, LockShard);
    s := Take(s, 1, ReadMap);
    assert {} + {Fetch(id, o)} == {Fetch(id, o)};
    s := Take(s, 1, UnlockShard);
  }

  /** An updater has displaced an object from our map and is about to drop it. */
  lemma DisplacesAnObject(id: FormId, o: Obj) returns (s: State)
    ensures Reachable(s) && s.threads == [Updater(Displaced, id, None, Some(o)), Idle]
  {
    hide Reachable, RefsAfter, SplitID;
    s := OneEntry(id, o);
    s := Take(s, 0, BeginUpdate(id, None));
    s := Take(s, 0, LockWriter);
    s := Take(s, 0, LockMap);
    s := Take(s, 0, EditMap);
    s := Take(s, 0, UnlockMap);
  }

  /** A lookup misses, an update of its id follows, and the sentinel counts the miss
      as real. */
  lemma RealMissHappens(id: FormId, o: Obj) returns (s: State)
    ensures Reachable(s) && s.realMisses == 1 && s.ghostMisses == 0
  {
    hide Reachable, RefsAfter, AllFree;
    s := StartReachable();
    s := EngineTake(s, New(o));
    s := LookupAlone(s, 1, id);
    s := UpdateAlone(s, 0, id, Some(o));
    s := Take(s, 1, Sentinel);
  }
}
