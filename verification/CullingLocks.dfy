/** Lock ownership in the culling protocol agrees with program points in every
    reachable state, and no reachable state is stuck. */
module CullingLocks {
  import opened Prelude
  import opened FormIds
  import opened CullingProtocol

  predicate HoldsWriter(th: Thread, k: nat) {
    th.Updater? && th.at != WantWriter && ShardIndex(th.id) == k
  }

  predicate EditsShard(th: Thread, k: nat) {
    th.Updater? && (th.at == InMap || th.at == MapDone) && ShardIndex(th.id) == k
  }

  predicate SharesShard(th: Thread, k: nat) {
    (ReadsShard(th) || LeavesShard(th)) && ShardOf(th) == k
  }

  predicate OwnsStock(th: Thread) {
    th.Updater? && (th.at == InStock || th.at == Stocked(true))
  }

  predicate SharesStock(th: Thread) {
    th.Pass? && !th.point.WantStockRead?
  }

  ghost predicate WriterLock(w: Option<Tid>, threads: seq<Thread>, k: nat) {
    && (w.Some? ==> w.value < |threads|)
    && (forall t :: 0 <= t < |threads| ==> (w == Some(t) <==> HoldsWriter(threads[t], k)))
  }

  ghost predicate WellFormedLock(l: RWLock, n: nat) {
    && (l.owner.Some? ==> l.owner.value < n && l.readers == {})
    && (forall t :: t in l.readers ==> t < n)
  }

  ghost predicate ShardLock(l: RWLock, threads: seq<Thread>, k: nat) {
    && WellFormedLock(l, |threads|)
    && (forall t :: 0 <= t < |threads| ==> (l.owner == Some(t) <==> EditsShard(threads[t], k)))
    && (forall t :: 0 <= t < |threads| ==> (t in l.readers <==> SharesShard(threads[t], k)))
  }

  ghost predicate StockLock(l: RWLock, threads: seq<Thread>) {
    && WellFormedLock(l, |threads|)
    && (forall t :: 0 <= t < |threads| ==> (l.owner == Some(t) <==> OwnsStock(threads[t])))
    && (forall t :: 0 <= t < |threads| ==> (t in l.readers <==> SharesStock(threads[t])))
  }

  /** Every lock is held by exactly the threads whose program points say so. */
  ghost predicate Locks(s: State) {
    && Shaped(s.locks)
    && (forall k :: 0 <= k < SHARD_COUNT ==> WriterLock(s.locks.writer[k], s.threads, k))
    && (forall k :: 0 <= k < SHARD_COUNT ==> ShardLock(s.locks.shard[k], s.threads, k))
    && StockLock(s.locks.id, s.threads)
  }

  /** `t` took, gave up or kept its part of a lock; nobody else's part changed. */
  predicate LockStep(l: RWLock, l': RWLock, t: Tid) {
    && (l'.owner == l.owner || (l'.owner == Some(t) && l.owner.None?) || (l'.owner.None? && l.owner == Some(t)))
    && (l'.readers == l.readers || l'.readers == l.readers + {t} || l'.readers == l.readers - {t})
    && (l'.owner.Some? ==> l'.readers == {})
  }

  lemma WriterStep(l: LockSet, tab: Tables, t: Tid, th: Thread, a: Action, k: nat)
    requires Shaped(l) && AtPoint(th, a) && Granted(l, th, a) && k < SHARD_COUNT
    requires l.writer[k] == Some(t) <==> HoldsWriter(th, k)
    ensures Shaped(LocksAfter(l, t, th, a))
    ensures var w := LocksAfter(l, t, th, a).writer[k];
      && (w == Some(t) <==> HoldsWriter(After(tab, th, a), k))
      && (w == l.writer[k] || (w == Some(t) && l.writer[k].None?) || (w.None? && l.writer[k] == Some(t)))
  {
  }

  lemma ShardStep(l: LockSet, tab: Tables, t: Tid, th: Thread, a: Action, k: nat)
    requires Shaped(l) && AtPoint(th, a) && Granted(l, th, a) && k < SHARD_COUNT
    requires l.shard[k].owner == Some(t) <==> EditsShard(th, k)
    requires t in l.shard[k].readers <==> SharesShard(th, k)
    requires l.shard[k].owner.Some? ==> l.shard[k].readers == {}
    ensures Shaped(LocksAfter(l, t, th, a))
    ensures var l' := LocksAfter(l, t, th, a).shard[k];
      && LockStep(l.shard[k], l', t)
      && (l'.owner == Some(t) <==> EditsShard(After(tab, th, a), k))
      && (t in l'.readers <==> SharesShard(After(tab, th, a), k))
  {
  }

  lemma StockStep(l: LockSet, tab: Tables, t: Tid, th: Thread, a: Action)
    requires Shaped(l) && AtPoint(th, a) && Granted(l, th, a)
    requires l.id.owner == Some(t) <==> OwnsStock(th)
    requires t in l.id.readers <==> SharesStock(th)
    requires l.id.owner.Some? ==> l.id.readers == {}
    ensures var l' := LocksAfter(l, t, th, a).id;
      && LockStep(l.id, l', t)
      && (l'.owner == Some(t) <==> OwnsStock(After(tab, th, a)))
      && (t in l'.readers <==> SharesStock(After(tab, th, a)))
  {
  }

  lemma WriterFrame(w: Option<Tid>, w': Option<Tid>, threads: seq<Thread>, t: Tid, th': Thread, k: nat)
    requires WriterLock(w, threads, k) && t < |threads|
    requires w' == Some(t) <==> HoldsWriter(th', k)
    requires w' == w || (w' == Some(t) && w.None?) || (w'.None? && w == Some(t))
    ensures WriterLock(w', threads[t := th'], k)
  {
  }

  lemma ShardFrame(l: RWLock, l': RWLock, threads: seq<Thread>, t: Tid, th': Thread, k: nat)
    requires ShardLock(l, threads, k) && t < |threads| && LockStep(l, l', t)
    requires l'.owner == Some(t) <==> EditsShard(th', k)
    requires t in l'.readers <==> SharesShard(th', k)
    ensures ShardLock(l', threads[t := th'], k)
  {
  }

  lemma StockFrame(l: RWLock, l': RWLock, threads: seq<Thread>, t: Tid, th': Thread)
    requires StockLock(l, threads) && t < |threads| && LockStep(l, l', t)
    requires l'.owner == Some(t) <==> OwnsStock(th')
    requires t in l'.readers <==> SharesStock(th')
    ensures StockLock(l', threads[t := th'])
  {
  }

  lemma LocksKept(s: State, t: Tid, a: Action)
    requires Locks(s) && CanStep(s, t, a)
    ensures Locks(Do(s, t, a))
  {
    var th := s.threads[t];
    var th', l' := After(s.tables, th, a), LocksAfter(s.locks, t, th, a);
    forall k | 0 <= k < SHARD_COUNT
      ensures Shaped(l')
      ensures WriterLock(l'.writer[k], s.threads[t := th'], k)
      ensures ShardLock(l'.shard[k], s.threads[t := th'], k)
    {
      WriterStep(s.locks, s.tables, t, th, a, k);
      WriterFrame(s.locks.writer[k], l'.writer[k], s.threads, t, th', k);
      ShardStep(s.locks, s.tables, t, th, a, k);
      ShardFrame(s.locks.shard[k], l'.shard[k], s.threads, t, th', k);
    }
    StockStep(s.locks, s.tables, t, th, a);
    StockFrame(s.locks.id, l'.id, s.threads, t, th');
  }

  // ---- Progress ----

  /** What a thread still has to do, counted in steps. */
  function Remaining(th: Thread): nat {
    match th
    case Idle => 0
    case Updater(at, _, _, local) =>
      (if local.Some? then 1 else 0) +
      (match at
       case WantWriter => 20
       case WantMap => 18
       case InMap => 16
       case MapDone => 14
       case Displaced => 12
       case WantStock => 10
       case InStock => 8
       case Stocked(locked) => if locked then 4 else 2)
    case Pass(point, _) =>
      (match point
       case WantStockRead => 5
       case Between => 1
       case WantShard(_) => 4
       case InShard(_) => 3
       case ReadDone(_) => 2)
    case Lookup(look, _) =>
      (match look
       case LWantShard => 4
       case LInShard => 3
       case LReadDone(_) => 2
       case LAnswer(_) => 1)
  }

  function TotalRemaining(threads: seq<Thread>): nat {
    if threads == [] then 0 else Remaining(threads[0]) + TotalRemaining(threads[1..])
  }

  lemma {:induction false} TotalUpdate(threads: seq<Thread>, t: nat, th: Thread)
    requires t < |threads|
    ensures TotalRemaining(threads[t := th]) + Remaining(threads[t]) == TotalRemaining(threads) + Remaining(th)
  {
    if t > 0 {
      TotalUpdate(threads[1..], t - 1, th);
      assert threads[t := th][1..] == threads[1..][t - 1 := th];
    } else {
      assert threads[t := th][1..] == threads[1..];
    }
  }

  /** The action that brings a thread closer to its end. */
  function Advance(th: Thread): Action
    requires !th.Idle?
    ensures AtPoint(th, Advance(th))
    ensures !Advance(th).BeginUpdate?
  {
    match th
    case Updater(at, _, _, local) =>
      (match at
       case WantWriter => LockWriter
       case WantMap => LockMap
       case InMap => EditMap
       case MapDone => UnlockMap
       case Displaced => DropDisplaced
       case WantStock => LockStock
       case InStock => EditStock
       case Stocked(locked) => if local.Some? then DropReplaced else if locked then UnlockStock else EndUpdate)
    case Pass(point, _) =>
      (match point
       case WantStockRead => LockStockRead
       case Between => EndPass
       case WantShard(_) => LockShard
       case InShard(_) => ReadMap
       case ReadDone(_) => UnlockShard)
    case Lookup(look, _) =>
      (match look
       case LWantShard => LockShard
       case LInShard => ReadMap
       case LReadDone(_) => UnlockShard
       case LAnswer(_) => ReturnFound)
  }

  lemma AdvanceShortens(tab: Tables, th: Thread)
    requires !th.Idle?
    ensures Remaining(After(tab, th, Advance(th))) < Remaining(th)
  {
  }

  /** The highest lock a thread holds, in the order writer < stock < shard. */
  function Level(th: Thread): nat {
    if th.Updater? && (th.at == InMap || th.at == MapDone) then 3
    else if ReadsShard(th) || LeavesShard(th) then 3
    else if OwnsStock(th) || SharesStock(th) then 2
    else if th.Updater? && th.at != WantWriter then 1
    else 0
  }

  /** An unfinished thread of the highest level is never blocked. */
  lemma HighestAdvances(s: State, t: Tid)
    requires Locks(s) && t < |s.threads| && !s.threads[t].Idle?
    requires forall u :: 0 <= u < |s.threads| ==> Level(s.threads[u]) <= Level(s.threads[t])
    ensures CanStep(s, t, Advance(s.threads[t]))
  {
  }

  lemma {:induction false} Highest(threads: seq<Thread>, n: nat) returns (t: nat)
    requires n <= |threads| && exists i :: 0 <= i < n && !threads[i].Idle?
    ensures t < n && !threads[t].Idle?
    ensures forall u :: 0 <= u < n ==> Level(threads[u]) <= Level(threads[t])
  {
    if i :| 0 <= i < n - 1 && !threads[i].Idle? {
      t := Highest(threads, n - 1);
      if !threads[n - 1].Idle? && Level(threads[n - 1]) > Level(threads[t]) {
        t := n - 1;
      }
    } else {
      t := n - 1;
    }
  }

  /** Deadlock freedom: while an operation is unfinished, some unfinished
      operation has an enabled step, and it brings the system closer to rest. */
  lemma Progress(s: State) returns (t: Tid)
    requires Locks(s) && exists i :: 0 <= i < |s.threads| && !s.threads[i].Idle?
    ensures t < |s.threads| && !s.threads[t].Idle? && CanStep(s, t, Advance(s.threads[t]))
    ensures TotalRemaining(Do(s, t, Advance(s.threads[t])).threads) < TotalRemaining(s.threads)
  {
    t := Highest(s.threads, |s.threads|);
    HighestAdvances(s, t);
    AdvanceShortens(s.tables, s.threads[t]);
    TotalUpdate(s.threads, t, After(s.tables, s.threads[t], Advance(s.threads[t])));
  }

  ghost predicate Steps(path: seq<State>) {
    path != [] && forall i :: 0 <= i < |path| - 1 ==> Next(path[i], path[i + 1])
  }

  ghost predicate AtRest(s: State) {
    forall t :: 0 <= t < |s.threads| ==> s.threads[t].Idle?
  }

  /** Every operation under way can be completed without starting another. */
  lemma {:induction false} CanDrain(s: State) returns (path: seq<State>)
    requires Locks(s)
    ensures Steps(path) && path[0] == s && AtRest(path[|path| - 1])
    decreases TotalRemaining(s.threads)
  {
    if AtRest(s) {
      path := [s];
    } else {
      var t := Progress(s);
      var a := Advance(s.threads[t]);
      LocksKept(s, t, a);
      var rest := CanDrain(Do(s, t, a));
      path := [s] + rest;
      assert Next(s, rest[0]);
    }
  }
}
