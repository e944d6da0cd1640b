/** What every reachable state of the culling protocol keeps: the two tables
    agree outside updates, reference counts are exact, and every object that a
    pass fetched under the stock read lock stays alive until it releases it. */
module CullingSafety {
  import opened Prelude
  import opened FormIds
  import opened CullingProtocol
  import opened CullingLocks

  // ---- The invariant ----

  /** Between its map step and its stock step an updater keeps the tables apart. */
  predicate MidUpdate(th: Thread, id: FormId) {
    th.Updater? && th.id == id && (th.at == MapDone || th.at == Displaced || th.at == WantStock || th.at == InStock)
  }

  predicate MidUpdateBy(w: Option<Tid>, threads: seq<Thread>, id: FormId) {
    w.Some? && w.value < |threads| && MidUpdate(threads[w.value], id)
  }

  predicate AgreeAt(tab: Tables, w: Option<Tid>, threads: seq<Thread>, id: FormId) {
    Get(tab.ours, id) != Get(tab.stock, id) ==> MidUpdateBy(w, threads, id)
  }

  ghost predicate TablesAgree(s: State)
    requires Shaped(s.locks)
  {
    forall id: FormId :: AgreeAt(s.tables, s.locks.writer[ShardIndex(id)], s.threads, id)
  }

  /** What an updater knows about the tables at each of its program points. */
  predicate UpdaterKnows(tab: Tables, th: Thread) {
    th.Updater? ==>
      && (MidUpdate(th, th.id) ==> Get(tab.ours, th.id) == th.arg)
      && (th.at == MapDone || th.at == Displaced ==> Get(tab.stock, th.id) == th.local)
      && (th.local.None? || th.at == MapDone || th.at == Displaced || th.at.Stocked?)
  }

  /** `p` is kept alive by the stock table, or by ours while an update of its
      id stands between its two steps. */
  predicate Protected(tab: Tables, w: Option<Tid>, threads: seq<Thread>, p: Fetch) {
    || Get(tab.stock, p.id) == Some(p.obj)
    || (Get(tab.ours, p.id) == Some(p.obj) && MidUpdateBy(w, threads, p.id))
  }

  ghost predicate HeldBy(s: State, th: Thread)
    requires Shaped(s.locks)
  {
    th.Pass? ==> forall p: Fetch :: p in th.held ==>
      SharesStock(th) && Protected(s.tables, s.locks.writer[ShardIndex(p.id)], s.threads, p)
  }

  ghost predicate HeldProtected(s: State)
    requires Shaped(s.locks)
  {
    forall t :: 0 <= t < |s.threads| ==> HeldBy(s, s.threads[t])
  }

  function Holders(m: map<FormId, Obj>, o: Obj): set<FormId> {
    set id | id in m && m[id] == o
  }

  function Own(th: Thread, o: Obj): nat {
    if th.Updater? then Ref(th.arg)[o] + Ref(th.local)[o] else 0
  }

  function Owned(threads: seq<Thread>, o: Obj): nat {
    if threads == [] then 0 else Own(threads[0], o) + Owned(threads[1..], o)
  }

  /** Every reference is accounted for: table entries, calls under way, engine. */
  ghost predicate CountsExact(s: State) {
    forall o: Obj :: s.refs[o] ==
      |Holders(s.tables.ours, o)| + |Holders(s.tables.stock, o)| + Owned(s.threads, o) + s.ext[o]
  }

  ghost predicate Inv(s: State) {
    && Locks(s)
    && TablesAgree(s)
    && (forall t :: 0 <= t < |s.threads| ==> UpdaterKnows(s.tables, s.threads[t]))
    && HeldProtected(s)
    && CountsExact(s)
  }

  // ---- It holds initially ----

  lemma {:induction false} OthersOwnNothing(threads: seq<Thread>, o: Obj)
    requires forall t :: 0 <= t < |threads| ==> !threads[t].Updater?
    ensures Owned(threads, o) == 0
  {
    if threads == [] {
    } else {
      OthersOwnNothing(threads[1..], o);
    }
  }

  lemma InitInv(s: State)
    requires Init(s)
    ensures Inv(s)
  {
    forall o: Obj
      ensures s.refs[o] == |Holders(s.tables.ours, o)| + |Holders(s.tables.stock, o)| + Owned(s.threads, o) + s.ext[o]
    {
      OthersOwnNothing(s.threads, o);
      assert Holders(s.tables.ours, o) == {} && Holders(s.tables.stock, o) == {};
    }
  }

  // ---- Two-table agreement ----

  /** Two updaters past their writer lock never work on one id. */
  lemma OneWriter(s: State, t: Tid, u: Tid)
    requires Locks(s) && t < |s.threads| && u < |s.threads|
    requires s.threads[t].Updater? && s.threads[t].at != WantWriter
    requires s.threads[u].Updater? && s.threads[u].at != WantWriter
    requires s.threads[t].id == s.threads[u].id
    ensures t == u
  {
    var k := ShardIndex(s.threads[t].id);
    assert WriterLock(s.locks.writer[k], s.threads, k);
  }

  lemma OwnKnowledge(tab: Tables, th: Thread, a: Action)
    requires AtPoint(th, a) && UpdaterKnows(tab, th)
    requires a.EditMap? ==> Get(tab.ours, th.id) == Get(tab.stock, th.id)
    ensures UpdaterKnows(TablesAfter(tab, th, a), After(tab, th, a))
  {
  }

  lemma OtherKnowledge(tab: Tables, th: Thread, a: Action, v: Thread)
    requires AtPoint(th, a) && UpdaterKnows(tab, v)
    requires (a.EditMap? || a.EditStock?) && v.Updater? && v.at != WantWriter ==> v.id != th.id
    ensures UpdaterKnows(TablesAfter(tab, th, a), v)
  {
  }

  /** Only the writer that stands between its steps can hold two tables apart. */
  lemma BeforeMapEdit(w: Option<Tid>, tab: Tables, threads: seq<Thread>, t: Tid, id: FormId)
    requires t < |threads| && Updating(threads[t], InMap) && threads[t].id == id
    requires AgreeAt(tab, w, threads, id) && WriterLock(w, threads, ShardIndex(id))
    ensures Get(tab.ours, id) == Get(tab.stock, id)
  {
  }

  lemma AgreeStep(l: LockSet, tab: Tables, threads: seq<Thread>, t: Tid, a: Action, id: FormId)
    requires Shaped(l) && t < |threads| && AtPoint(threads[t], a) && Granted(l, threads[t], a)
    requires WriterLock(l.writer[ShardIndex(id)], threads, ShardIndex(id))
    requires UpdaterKnows(tab, threads[t])
    requires AgreeAt(tab, l.writer[ShardIndex(id)], threads, id)
    ensures Shaped(LocksAfter(l, t, threads[t], a))
    ensures AgreeAt(TablesAfter(tab, threads[t], a), LocksAfter(l, t, threads[t], a).writer[ShardIndex(id)],
              threads[t := After(tab, threads[t], a)], id)
  {
    WriterStep(l, tab, t, threads[t], a, ShardIndex(id));
  }

  lemma TablesKept(s: State, t: Tid, a: Action)
    requires Inv(s) && CanStep(s, t, a)
    ensures Shaped(Do(s, t, a).locks) && TablesAgree(Do(s, t, a))
    ensures forall u :: 0 <= u < |s.threads| ==> UpdaterKnows(Do(s, t, a).tables, Do(s, t, a).threads[u])
  {
    var th, s' := s.threads[t], Do(s, t, a);
    forall id: FormId
      ensures Shaped(s'.locks) && AgreeAt(s'.tables, s'.locks.writer[ShardIndex(id)], s'.threads, id)
    {
      AgreeStep(s.locks, s.tables, s.threads, t, a, id);
    }
    forall u | 0 <= u < |s.threads|
      ensures UpdaterKnows(s'.tables, s'.threads[u])
    {
      if u == t {
        if a.EditMap? {
          BeforeMapEdit(s.locks.writer[ShardIndex(th.id)], s.tables, s.threads, t, th.id);
        }
        OwnKnowledge(s.tables, th, a);
      } else {
        if (a.EditMap? || a.EditStock?) && s.threads[u].Updater? && s.threads[u].at != WantWriter && s.threads[u].id == th.id {
          OneWriter(s, t, u);
        }
        OtherKnowledge(s.tables, th, a, s.threads[u]);
      }
    }
  }

  // ---- Lifetime of what a pass holds ----

  lemma ProtectedStep(l: LockSet, tab: Tables, threads: seq<Thread>, t: Tid, a: Action, p: Fetch)
    requires Shaped(l) && t < |threads| && AtPoint(threads[t], a) && Granted(l, threads[t], a)
    requires WriterLock(l.writer[ShardIndex(p.id)], threads, ShardIndex(p.id))
    requires !a.EditStock?
    requires Protected(tab, l.writer[ShardIndex(p.id)], threads, p)
    ensures Shaped(LocksAfter(l, t, threads[t], a))
    ensures Protected(TablesAfter(tab, threads[t], a), LocksAfter(l, t, threads[t], a).writer[ShardIndex(p.id)],
              threads[t := After(tab, threads[t], a)], p)
  {
    WriterStep(l, tab, t, threads[t], a, ShardIndex(p.id));
  }

  /** The original updater and a pass exclude each other. */
  lemma NoStockEditUnderPass(s: State, t: Tid, a: Action, u: Tid)
    requires Locks(s) && CanStep(s, t, a) && u < |s.threads| && SharesStock(s.threads[u])
    ensures !a.EditStock?
  {
    assert u in s.locks.id.readers;
  }

  lemma HeldKept(s: State, t: Tid, a: Action)
    requires Inv(s) && CanStep(s, t, a)
    ensures Shaped(Do(s, t, a).locks) && HeldProtected(Do(s, t, a))
  {
    var th, s' := s.threads[t], Do(s, t, a);
    WriterStep(s.locks, s.tables, t, th, a, 0);
    forall u | 0 <= u < |s'.threads|
      ensures HeldBy(s', s'.threads[u])
    {
      if s'.threads[u].Pass? {
        forall p: Fetch | p in s'.threads[u].held
          ensures SharesStock(s'.threads[u])
          ensures Protected(s'.tables, s'.locks.writer[ShardIndex(p.id)], s'.threads, p)
        {
          HeldStep(s, t, a, u, p);
        }
      }
    }
  }

  lemma HeldStep(s: State, t: Tid, a: Action, u: Tid, p: Fetch)
    requires Inv(s) && CanStep(s, t, a) && u < |s.threads|
    requires Do(s, t, a).threads[u].Pass? && p in Do(s, t, a).threads[u].held
    ensures Shaped(Do(s, t, a).locks)
    ensures SharesStock(Do(s, t, a).threads[u])
    ensures Protected(Do(s, t, a).tables, Do(s, t, a).locks.writer[ShardIndex(p.id)], Do(s, t, a).threads, p)
  {
    var v, w := s.threads[u], s.locks.writer[ShardIndex(p.id)];
    assert v.Pass? && HeldBy(s, v);
    if p in v.held {
      assert Protected(s.tables, w, s.threads, p);
    } else {
      assert AgreeAt(s.tables, w, s.threads, p.id);
    }
    NoStockEditUnderPass(s, t, a, u);
    ProtectedStep(s.locks, s.tables, s.threads, t, a, p);
  }

  // ---- Reference counts ----

  lemma HoldersPut(m: map<FormId, Obj>, id: FormId, x: Obj, o: Obj)
    ensures Holders(m[id := x], o) == (if x == o then Holders(m, o) + {id} else Holders(m, o) - {id})
  {
  }

  lemma HoldersDrop(m: map<FormId, Obj>, id: FormId, o: Obj)
    ensures Holders(m - {id}, o) == Holders(m, o) - {id}
  {
  }

  lemma HoldersStore(m: map<FormId, Obj>, id: FormId, arg: Option<Obj>, o: Obj)
    ensures |Holders(Store(m, id, arg), o)| + Ref(Get(m, id))[o] == |Holders(m, o)| + Ref(arg)[o]
  {
    assert id in Holders(m, o) <==> Get(m, id) == Some(o);
    match arg
    case Some(x) => HoldersPut(m, id, x, o);
    case None => HoldersDrop(m, id, o);
  }

  lemma {:induction false} OwnedUpdate(threads: seq<Thread>, t: nat, th: Thread, o: Obj)
    requires t < |threads|
    ensures Owned(threads[t := th], o) + Own(threads[t], o) == Owned(threads, o) + Own(th, o)
    ensures Own(threads[t], o) <= Owned(threads, o)
  {
    if t > 0 {
      OwnedUpdate(threads[1..], t - 1, th, o);
      assert threads[t := th][1..] == threads[1..][t - 1 := th];
    } else {
      assert threads[t := th][1..] == threads[1..];
    }
  }

  /** References to `o` that the tables and one thread hold. */
  function Held(tab: Tables, th: Thread, o: Obj): nat {
    |Holders(tab.ours, o)| + |Holders(tab.stock, o)| + Own(th, o)
  }

  lemma CountEdit(tab: Tables, refs: multiset<Obj>, th: Thread, a: Action, o: Obj)
    requires AtPoint(th, a) && UpdaterKnows(tab, th) && (a == EditMap || a == EditStock)
    ensures RefsAfter(refs, th, a)[o] + Held(tab, th, o)
         == refs[o] + Held(TablesAfter(tab, th, a), After(tab, th, a), o)
  {
    HoldersStore(if a == EditMap then tab.ours else tab.stock, th.id, th.arg, o);
  }

  lemma CountRelease(tab: Tables, refs: multiset<Obj>, th: Thread, a: Action, o: Obj)
    requires AtPoint(th, a) && Own(th, o) <= refs[o] && a != EditMap && a != EditStock
    ensures RefsAfter(refs, th, a)[o] + Own(th, o) == refs[o] + Own(After(tab, th, a), o)
    ensures TablesAfter(tab, th, a) == tab
  {
  }

  lemma CountsKept(s: State, t: Tid, a: Action)
    requires Inv(s) && CanStep(s, t, a)
    ensures CountsExact(Do(s, t, a))
  {
    var th, s' := s.threads[t], Do(s, t, a);
    forall o: Obj
      ensures s'.refs[o] ==
        |Holders(s'.tables.ours, o)| + |Holders(s'.tables.stock, o)| + Owned(s'.threads, o) + s'.ext[o]
    {
      OwnedUpdate(s.threads, t, s'.threads[t], o);
      if a == EditMap || a == EditStock {
        CountEdit(s.tables, s.refs, th, a, o);
      } else {
        CountRelease(s.tables, s.refs, th, a, o);
      }
    }
  }

  // ---- The invariant over whole runs ----

  lemma InvKept(s: State, t: Tid, a: Action)
    requires Inv(s) && CanStep(s, t, a)
    ensures Inv(Do(s, t, a))
  {
    LocksKept(s, t, a);
    TablesKept(s, t, a);
    HeldKept(s, t, a);
    CountsKept(s, t, a);
  }

  lemma EngineKeeps(s: State, e: EngineAction)
    requires Inv(s) && EngineCan(s, e)
    ensures Inv(EngineDo(s, e))
  {
    var s' := EngineDo(s, e);
    assert s.refs[e.o] >= s.ext[e.o];
    forall t | 0 <= t < |s'.threads|
      ensures HeldBy(s', s'.threads[t])
    {
      assert HeldBy(s, s.threads[t]);
    }
    forall id: FormId
      ensures AgreeAt(s'.tables, s'.locks.writer[ShardIndex(id)], s'.threads, id)
    {
      assert AgreeAt(s.tables, s.locks.writer[ShardIndex(id)], s.threads, id);
    }
  }

  lemma NextKeeps(s: State, s': State)
    requires Inv(s) && Next(s, s')
    ensures Inv(s')
  {
    if t: Tid, a :| CanStep(s, t, a) && s' == Do(s, t, a) {
      InvKept(s, t, a);
    } else {
      var e :| EngineCan(s, e) && s' == EngineDo(s, e);
      EngineKeeps(s, e);
    }
  }

  lemma {:induction false} RunInv(run: seq<State>, i: nat)
    requires IsRun(run) && i < |run|
    ensures Inv(run[i])
  {
    if i == 0 {
      InitInv(run[0]);
    } else {
      RunInv(run, i - 1);
      assert Next(run[i - 1], run[i - 1 + 1]);
      NextKeeps(run[i - 1], run[i]);
    }
  }

  // ---- Main results ----

  lemma CountedAlive(s: State, p: Fetch)
    requires CountsExact(s)
    requires Get(s.tables.ours, p.id) == Some(p.obj) || Get(s.tables.stock, p.id) == Some(p.obj)
    ensures s.refs[p.obj] > 0
  {
    assert p.id in Holders(s.tables.ours, p.obj) || p.id in Holders(s.tables.stock, p.obj);
    assert Holders(s.tables.ours, p.obj) != {} || Holders(s.tables.stock, p.obj) != {};
  }

  /** Every object a pass has fetched and not yet let go of is alive. */
  lemma HeldIsAlive(s: State, t: Tid, p: Fetch)
    requires Reachable(s) && t < |s.threads| && s.threads[t].Pass? && p in s.threads[t].held
    ensures SharesStock(s.threads[t])
    ensures s.refs[p.obj] > 0
  {
    var run :| IsRun(run) && run[|run| - 1] == s;
    RunInv(run, |run| - 1);
    assert HeldBy(s, s.threads[t]);
    CountedAlive(s, p);
  }

  /** The reference that left our map is never the last one: giving it back
      destroys nothing. */
  lemma DisplacedNotLast(s: State, t: Tid, o: Obj)
    requires Reachable(s) && t < |s.threads| && Updating(s.threads[t], Displaced) && s.threads[t].local == Some(o)
    ensures CanStep(s, t, DropDisplaced)
    ensures Do(s, t, DropDisplaced).refs[o] > 0
  {
    var run :| IsRun(run) && run[|run| - 1] == s;
    RunInv(run, |run| - 1);
    DisplacedCounted(s, t, o);
  }

  lemma DisplacedCounted(s: State, t: Tid, o: Obj)
    requires CountsExact(s) && t < |s.threads| && UpdaterKnows(s.tables, s.threads[t])
    requires Updating(s.threads[t], Displaced) && s.threads[t].local == Some(o)
    ensures s.refs[o] >= 2
  {
    assert s.threads[t].id in Holders(s.tables.stock, o);
    OwnedUpdate(s.threads, t, Idle, o);
  }

  /** The tables differ at an id only while exactly one updater of that id is
      between its map step and its stock step. */
  lemma TablesDifferOnlyMidUpdate(s: State, id: FormId)
    requires Reachable(s) && Get(s.tables.ours, id) != Get(s.tables.stock, id)
    ensures exists t :: 0 <= t < |s.threads| && MidUpdate(s.threads[t], id)
    ensures forall t, u | 0 <= t < |s.threads| && 0 <= u < |s.threads| ::
      MidUpdate(s.threads[t], id) && MidUpdate(s.threads[u], id) ==> t == u
  {
    var run :| IsRun(run) && run[|run| - 1] == s;
    RunInv(run, |run| - 1);
    assert AgreeAt(s.tables, s.locks.writer[ShardIndex(id)], s.threads, id);
    forall t, u | 0 <= t < |s.threads| && 0 <= u < |s.threads| && MidUpdate(s.threads[t], id) && MidUpdate(s.threads[u], id)
      ensures t == u
    {
      OneWriter(s, t, u);
    }
  }

  lemma HeldGrows(s: State, s': State, t: Tid)
    requires Next(s, s') && t < |s.threads|
    requires SharesStock(s.threads[t])
    ensures |s'.threads| == |s.threads|
    ensures SharesStock(s'.threads[t]) ==> s.threads[t].held <= s'.threads[t].held
  {
  }

  /** Lifetime safety over a run: what a pass holds at step `i` is alive at every
      later step for as long as the pass keeps the stock read lock. */
  lemma {:induction false} FetchedStaysAlive(run: seq<State>, i: nat, j: nat, t: Tid, p: Fetch)
    requires IsRun(run) && i <= j < |run|
    requires forall k :: i <= k <= j ==> t < |run[k].threads| && SharesStock(run[k].threads[t])
    requires run[i].threads[t].Pass? && p in run[i].threads[t].held
    ensures run[j].threads[t].Pass? && p in run[j].threads[t].held
    ensures run[j].refs[p.obj] > 0
    decreases j - i
  {
    hide Next, WriterLock, ShardLock, StockLock;
    if i == j {
    } else {
      FetchedStaysAlive(run, i, j - 1, t, p);
      assert Next(run[j - 1], run[j - 1 + 1]);
      HeldGrows(run[j - 1], run[j], t);
    }
    RunInv(run, j);
    assert HeldBy(run[j], run[j].threads[t]);
    CountedAlive(run[j], p);
  }

  // ---- The sentinel ----

  predicate InFlight(th: Thread, id: FormId) {
    th.Updater? && th.id == id && th.at != WantWriter
  }

  ghost predicate NoUpdateOf(s: State, id: FormId) {
    forall u :: 0 <= u < |s.threads| ==> !InFlight(s.threads[u], id)
  }

  lemma EditElsewhere(tab: Tables, th: Thread, a: Action, id: FormId)
    requires AtPoint(th, a) && !InFlight(th, id)
    ensures Get(TablesAfter(tab, th, a).ours, id) == Get(tab.ours, id)
  {
  }

  lemma QuietStep(s: State, s': State, id: FormId)
    requires Next(s, s') && NoUpdateOf(s, id)
    ensures Get(s'.tables.ours, id) == Get(s.tables.ours, id)
  {
    if t: Tid, a :| CanStep(s, t, a) && s' == Do(s, t, a) {
      EditElsewhere(s.tables, s.threads[t], a, id);
    }
  }

  lemma QuietTablesAgree(s: State, id: FormId)
    requires Inv(s) && NoUpdateOf(s, id)
    ensures Get(s.tables.ours, id) == Get(s.tables.stock, id)
  {
    assert AgreeAt(s.tables, s.locks.writer[ShardIndex(id)], s.threads, id);
  }

  lemma {:induction false} QuietRun(run: seq<State>, i: nat, j: nat, id: FormId)
    requires IsRun(run) && i <= j < |run|
    requires forall k :: i <= k <= j ==> NoUpdateOf(run[k], id)
    ensures Get(run[j].tables.stock, id) == Get(run[i].tables.ours, id)
    ensures Get(run[j].tables.ours, id) == Get(run[i].tables.ours, id)
    decreases j - i
  {
    hide Next, Inv;
    if i == j {
    } else {
      QuietRun(run, i, j - 1, id);
      assert Next(run[j - 1], run[j - 1 + 1]);
      QuietStep(run[j - 1], run[j], id);
    }
    RunInv(run, j);
    QuietTablesAgree(run[j], id);
  }

  lemma MissedInMap(s: State, s': State, t: Tid, id: FormId)
    requires Next(s, s') && t < |s.threads| && t < |s'.threads|
    requires s.threads[t] == Lookup(LInShard, id) && s'.threads[t] == Lookup(LReadDone(None), id)
    ensures id !in s.tables.ours
  {
    hide Granted, LocksAfter, RefsAfter;
  }

  lemma CountedReal(s: State, s': State, t: Tid, id: FormId)
    requires Next(s, s') && t < |s.threads| && t < |s'.threads|
    requires s.threads[t] == Lookup(LAnswer(None), id) && s'.threads[t].Idle?
    requires s'.realMisses > s.realMisses
    ensures id in s.tables.stock
  {
  }

  /** A lookup that misses at step `i` and is counted as a real miss at step `j`
      overlapped an update of its id. */
  lemma RealMissOverlapsUpdate(run: seq<State>, i: nat, j: nat, t: Tid, id: FormId)
    requires IsRun(run) && i < j < |run| - 1
    requires t < |run[i].threads| && t < |run[i + 1].threads| && t < |run[j].threads| && t < |run[j + 1].threads|
    requires run[i].threads[t] == Lookup(LInShard, id) && run[i + 1].threads[t] == Lookup(LReadDone(None), id)
    requires run[j].threads[t] == Lookup(LAnswer(None), id) && run[j + 1].threads[t].Idle?
    requires run[j + 1].realMisses > run[j].realMisses
    ensures exists k, u :: i <= k <= j && 0 <= u < |run[k].threads| && InFlight(run[k].threads[u], id)
  {
    MissedInMap(run[i], run[i + 1], t, id);
    CountedReal(run[j], run[j + 1], t, id);
    if forall k :: i <= k <= j ==> NoUpdateOf(run[k], id) {
      QuietRun(run, i, j, id);
      assert false;
    }
  }

  /** Deadlock freedom in every reachable state. */
  lemma ReachableProgress(s: State) returns (path: seq<State>)
    requires Reachable(s)
    ensures (exists t :: 0 <= t < |s.threads| && !s.threads[t].Idle?) ==>
      exists t: Tid, a :: CanStep(s, t, a) && !s.threads[t].Idle?
    ensures Steps(path) && path[0] == s && AtRest(path[|path| - 1])
  {
    var run :| IsRun(run) && run[|run| - 1] == s;
    RunInv(run, |run| - 1);
    path := CanDrain(s);
    if exists t :: 0 <= t < |s.threads| && !s.threads[t].Idle? {
      var t := Progress(s);
      assert CanStep(s, t, Advance(s.threads[t]));
    }
  }

  // ---- The hooked lookup ----

  lemma FoundInMap(s: State, s': State, t: Tid, id: FormId, o: Obj)
    requires Next(s, s') && t < |s.threads| && t < |s'.threads|
    requires s.threads[t] == Lookup(LInShard, id) && s'.threads[t] == Lookup(LReadDone(Some(o)), id)
    ensures Get(s.tables.ours, id) == Some(o)
  {
    hide Granted, LocksAfter, RefsAfter;
  }

  /** An object that a lookup reads outside a pass is alive for as long as no
      update of its id is under way. */
  lemma FoundStaysAlive(run: seq<State>, i: nat, j: nat, t: Tid, id: FormId, o: Obj)
    requires IsRun(run) && i < j < |run|
    requires t < |run[i].threads| && t < |run[i + 1].threads|
    requires run[i].threads[t] == Lookup(LInShard, id) && run[i + 1].threads[t] == Lookup(LReadDone(Some(o)), id)
    requires forall k :: i <= k <= j ==> NoUpdateOf(run[k], id)
    ensures run[j].refs[o] > 0
  {
    hide Next, WriterLock, ShardLock, StockLock;
    FoundInMap(run[i], run[i + 1], t, id, o);
    QuietRun(run, i, j, id);
    RunInv(run, j);
    CountedAlive(run[j], Fetch(id, o));
  }

  // ---- An overlapping update leaves the answer dead ----

  lemma ReachesNext(s: State, s': State)
    requires Reachable(s) && Next(s, s')
    ensures Reachable(s')
  {
    hide Init, Next;
    var run :| IsRun(run) && run[|run| - 1] == s;
    var longer := run + [s'];
    forall i | 0 <= i < |longer| - 1
      ensures Next(longer[i], longer[i + 1])
    {
      if i < |run| - 1 {
        assert Next(run[i], run[i + 1]);
      }
    }
    assert IsRun(longer);
  }

  lemma Take(s: State, t: Tid, a: Action) returns (s': State)
    requires Reachable(s) && CanStep(s, t, a)
    ensures Reachable(s') && s' == Do(s, t, a)
  {
    s' := Do(s, t, a);
    ReachesNext(s, s');
  }

  lemma EngineTake(s: State, e: EngineAction) returns (s': State)
    requires Reachable(s) && EngineCan(s, e)
    ensures Reachable(s') && s' == EngineDo(s, e)
  {
    s' := EngineDo(s, e);
    ReachesNext(s, s');
  }

  const FREE_LOCK := RWLock(None, {})

  predicate AllFree(l: LockSet) {
    && Shaped(l) && l.id == FREE_LOCK
    && forall k :: 0 <= k < SHARD_COUNT ==> l.writer[k].None? && l.shard[k] == FREE_LOCK
  }

  predicate SameCounts(s: State, s': State) {
    s'.realMisses == s.realMisses && s'.ghostMisses == s.ghostMisses
  }

  lemma UpdateStarts(s: State, t: Tid, id: FormId, arg: Option<Obj>) returns (s': State)
    requires Reachable(s) && AllFree(s.locks) && t < |s.threads| && s.threads[t].Idle?
    requires arg.Some? ==> s.ext[arg.value] > 0
    ensures Reachable(s') && s'.ext == s.ext && SameCounts(s, s') && s'.tables == s.tables
    ensures s'.threads == s.threads[t := Updater(InMap, id, arg, None)]
    ensures s'.locks == LockSet(s.locks.writer[ShardIndex(id) := Some(t)],
      s.locks.shard[ShardIndex(id) := RWLock(Some(t), {})], FREE_LOCK)
  {
    hide Reachable, RefsAfter, SplitID;
    s' := Take(s, t, BeginUpdate(id, arg));
    s' := Take(s', t, LockWriter);
    s' := Take(s', t, LockMap);
  }

  /** An update on its own, as far as its map step. */
  lemma UpdateOurs(s: State, t: Tid, id: FormId, arg: Option<Obj>) returns (s': State)
    requires Reachable(s) && AllFree(s.locks) && t < |s.threads| && s.threads[t].Idle?
    requires arg.Some? ==> s.ext[arg.value] > 0
    ensures Reachable(s') && s'.ext == s.ext && SameCounts(s, s')
    ensures s'.tables == s.tables.(ours := Store(s.tables.ours, id, arg))
    ensures s'.threads == s.threads[t := Updater(WantStock, id, arg, None)]
    ensures s'.locks == s.locks.(writer := s.locks.writer[ShardIndex(id) := Some(t)])
  {
    hide Reachable, RefsAfter, Store, Get, SplitID;
    s' := UpdateStarts(s, t, id, arg);
    s' := Take(s', t, EditMap);
    s' := Take(s', t, UnlockMap);
    s' := Take(s', t, DropDisplaced);
    assert s'.locks.shard == s.locks.shard;
  }

  /** The rest of that update. */
  lemma UpdateStock(s: State, t: Tid, id: FormId, arg: Option<Obj>) returns (s': State)
    requires Reachable(s) && Shaped(s.locks) && s.locks.id == FREE_LOCK && t < |s.threads|
    requires s.threads[t] == Updater(WantStock, id, arg, None)
    ensures Reachable(s') && s'.ext == s.ext && SameCounts(s, s')
    ensures s'.tables == s.tables.(stock := Store(s.tables.stock, id, arg))
    ensures s'.threads == s.threads[t := Idle]
    ensures s'.locks == s.locks.(writer := s.locks.writer[ShardIndex(id) := None])
  {
    hide Reachable, RefsAfter, Store, SplitID;
    s' := Take(s, t, LockStock);
    s' := Take(s', t, EditStock);
    if s'.threads[t].local.Some? {
      s' := Take(s', t, DropReplaced);
    }
    s' := Take(s', t, UnlockStock);
    s' := Take(s', t, EndUpdate);
  }

  lemma UpdateAlone(s: State, t: Tid, id: FormId, arg: Option<Obj>) returns (s': State)
    requires Reachable(s) && AllFree(s.locks) && t < |s.threads| && s.threads[t].Idle?
    requires arg.Some? ==> s.ext[arg.value] > 0
    ensures Reachable(s') && s'.ext == s.ext && s'.threads == s.threads && s'.locks == s.locks && SameCounts(s, s')
    ensures s'.tables == Tables(Store(s.tables.ours, id, arg), Store(s.tables.stock, id, arg))
  {
    hide Reachable, Store;
    s' := UpdateOurs(s, t, id, arg);
    s' := UpdateStock(s', t, id, arg);
    assert s'.threads == s.threads;
    assert s'.locks.writer == s.locks.writer;
  }

  lemma LookupAlone(s: State, t: Tid, id: FormId) returns (s': State)
    requires Reachable(s) && AllFree(s.locks) && t < |s.threads| && s.threads[t].Idle?
    ensures Reachable(s') && s'.ext == s.ext && s'.tables == s.tables && s'.locks == s.locks && SameCounts(s, s')
    ensures s'.threads == s.threads[t := Lookup(LAnswer(Get(s.tables.ours, id)), id)]
  {
    hide Reachable, RefsAfter, SplitID, Get;
    s' := Take(s, t, BeginLookup(id));
    s' := Take(s', t, LockShard);
    s' := Take(s', t, ReadMap);
    s' := Take(s', t, UnlockShard);
    assert s'.locks.shard == s.locks.shard;
  }

  lemma StartReachable() returns (s: State)
    ensures Reachable(s) && AllFree(s.locks) && s.threads == [Idle, Idle]
    ensures s.tables == Tables(map[], map[]) && s.refs == s.ext == multiset{} && s.realMisses == s.ghostMisses == 0
  {
    s := State(Tables(map[], map[]), multiset{}, multiset{},
      LockSet(seq(SHARD_COUNT, _ => None), seq(SHARD_COUNT, _ => FREE_LOCK), FREE_LOCK), [Idle, Idle], 0, 0);
    assert IsRun([s]);
  }

  /** The hooked lookup promises no more than that: a removal that overlaps it can
      leave its answer without a reference before it has returned. */
  lemma AnswerCanBeDead(id: FormId, o: Obj) returns (s: State)
    ensures Reachable(s) && s.threads == [Idle, Lookup(LAnswer(Some(o)), id)]
    ensures s.refs[o] == 0
  {
    hide Reachable, AllFree;
    s := StartReachable();
    s := EngineTake(s, New(o));
    s := UpdateAlone(s, 0, id, Some(o));
    s := EngineTake(s, Drop(o));
    s := LookupAlone(s, 1, id);
    s := UpdateAlone(s, 0, id, None);
    ReachableCounts(s, o);
    assert s.tables == Tables(map[], map[]) && s.ext[o] == 0;
    assert Holders(map[], o) == {};
    OthersOwnNothing(s.threads, o);
  }

  lemma ReachableCounts(s: State, o: Obj)
    requires Reachable(s)
    ensures s.refs[o] == |Holders(s.tables.ours, o)| + |Holders(s.tables.stock, o)| + Owned(s.threads, o) + s.ext[o]
  {
    var run :| IsRun(run) && run[|run| - 1] == s;
    RunInv(run, |run| - 1);
  }
}
