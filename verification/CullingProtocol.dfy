/** The VR update and lookup protocol as a transition system over any number
    of threads: two tables, reference counts, per-shard writer locks, per-shard
    read/write locks and the engine's ID read/write lock. One action is one
    atomic step. */
module CullingProtocol {
  import opened Prelude
  import opened FormIds

  type Obj = nat
  type Tid = nat

  datatype RWLock = RWLock(owner: Option<Tid>, readers: set<Tid>) {
    predicate Free() { owner.None? && readers == {} }

    function With(t: Tid): RWLock { RWLock(owner, readers + {t}) }

    function Without(t: Tid): RWLock { RWLock(owner, readers - {t}) }
  }

  /** An object that a lookup of `id` returned. */
  datatype Fetch = Fetch(id: FormId, obj: Obj)

  /** Program points of UpdateIDto3DMap. From `MapDone` to `InStock` our table
      is already updated and the stock table is not. */
  datatype UpdatePoint =
    | WantWriter | WantMap | InMap | MapDone | Displaced
    | WantStock | InStock | Stocked(locked: bool)

  /** Program points of a pass that walks ids under the stock read lock. */
  datatype PassPoint =
    | WantStockRead | Between | WantShard(id: FormId) | InShard(id: FormId) | ReadDone(id: FormId)

  /** Program points of the hooked lookup, which takes no stock lock itself. */
  datatype LookupPoint = LWantShard | LInShard | LReadDone(found: Option<Obj>) | LAnswer(found: Option<Obj>)

  datatype Thread =
    | Idle
    | Updater(at: UpdatePoint, id: FormId, arg: Option<Obj>, local: Option<Obj>)
    | Pass(point: PassPoint, held: set<Fetch>)
    | Lookup(look: LookupPoint, target: FormId)

  datatype Tables = Tables(ours: map<FormId, Obj>, stock: map<FormId, Obj>)

  datatype LockSet = LockSet(writer: seq<Option<Tid>>, shard: seq<RWLock>, id: RWLock)

  /** `refs` counts the references to each object; an object with none is
      destroyed. `ext` is the part held by the rest of the engine. */
  datatype State = State(
    tables: Tables, refs: multiset<Obj>, ext: multiset<Obj>,
    locks: LockSet, threads: seq<Thread>, realMisses: nat, ghostMisses: nat)

  /** Steps of the patched code, taken by one thread. */
  datatype Action =
    | BeginUpdate(uid: FormId, uarg: Option<Obj>)
    | LockWriter | LockMap | EditMap | UnlockMap | DropDisplaced
    | LockStock | EditStock | DropReplaced | UnlockStock | EndUpdate
    | BeginPass | LockStockRead | NextId(pid: FormId) | LockShard | ReadMap | UnlockShard | EndPass
    | BeginLookup(lid: FormId) | ReturnFound | Sentinel

  /** The rest of the engine creates objects (an address without references
      may be used again) and takes and drops references of its own. */
  datatype EngineAction = New(o: Obj) | AddRef(o: Obj) | Drop(o: Obj)

  // ---- Steps ----

  function Store(m: map<FormId, Obj>, id: FormId, arg: Option<Obj>): map<FormId, Obj> {
    match arg
    case Some(o) => m[id := o]
    case None => m - {id}
  }

  function Ref(o: Option<Obj>): multiset<Obj> {
    match o
    case Some(x) => multiset{x}
    case None => multiset{}
  }

  predicate Updating(th: Thread, p: UpdatePoint) { th.Updater? && th.at == p }

  function ShardOf(th: Thread): nat
    requires th.Updater? || th.Lookup? || (th.Pass? && (th.point.WantShard? || th.point.InShard? || th.point.ReadDone?))
  {
    match th
    case Updater(_, id, _, _) => ShardIndex(id)
    case Pass(p, _) => ShardIndex(p.id)
    case Lookup(_, target) => ShardIndex(target)
  }

  predicate WaitsForShard(th: Thread) {
    (th.Pass? && th.point.WantShard?) || (th.Lookup? && th.look.LWantShard?)
  }

  predicate ReadsShard(th: Thread) {
    (th.Pass? && th.point.InShard?) || (th.Lookup? && th.look.LInShard?)
  }

  predicate LeavesShard(th: Thread) {
    (th.Pass? && th.point.ReadDone?) || (th.Lookup? && th.look.LReadDone?)
  }

  predicate Shaped(l: LockSet) { |l.writer| == |l.shard| == SHARD_COUNT }

  /** The thread's program point lets it take this action. */
  predicate AtPoint(th: Thread, a: Action) {
    match a
    case BeginUpdate(_, _) => th.Idle?
    case LockWriter => Updating(th, WantWriter)
    case LockMap => Updating(th, WantMap)
    case EditMap => Updating(th, InMap)
    case UnlockMap => Updating(th, MapDone)
    case DropDisplaced => Updating(th, Displaced)
    case LockStock => Updating(th, WantStock)
    case EditStock => Updating(th, InStock)
    case DropReplaced => th.Updater? && th.at.Stocked? && th.local.Some?
    case UnlockStock => Updating(th, Stocked(true))
    case EndUpdate => Updating(th, Stocked(false)) && th.local.None?
    case BeginPass => th.Idle?
    case LockStockRead => th.Pass? && th.point.WantStockRead?
    case NextId(_) => th.Pass? && th.point.Between?
    case LockShard => WaitsForShard(th)
    case ReadMap => ReadsShard(th)
    case UnlockShard => LeavesShard(th)
    case EndPass => th.Pass? && th.point.Between?
    case BeginLookup(_) => th.Idle?
    case ReturnFound => th.Lookup? && th.look.LAnswer?
    case Sentinel => th.Lookup? && th.look.LAnswer? && th.look.found.None?
  }

  /** The lock the action acquires, if any, can be granted. */
  predicate Granted(l: LockSet, th: Thread, a: Action)
    requires Shaped(l) && AtPoint(th, a)
  {
    match a
    case LockWriter => l.writer[ShardOf(th)].None?
    case LockMap => l.shard[ShardOf(th)].Free()
    case LockStock => l.id.Free()
    case LockStockRead => l.id.owner.None?
    case LockShard => l.shard[ShardOf(th)].owner.None?
    case _ => true
  }

  /** The thread's next program point and locals. */
  function After(tab: Tables, th: Thread, a: Action): Thread
    requires AtPoint(th, a)
  {
    match a
    case BeginUpdate(id, arg) => Updater(WantWriter, id, arg, None)
    case LockWriter => th.(at := WantMap)
    case LockMap => th.(at := InMap)
    case EditMap => th.(at := MapDone, local := Get(tab.ours, th.id))
    case UnlockMap => th.(at := Displaced)
    case DropDisplaced => th.(at := WantStock, local := None)
    case LockStock => th.(at := InStock)
    case EditStock => th.(at := Stocked(true), local := Get(tab.stock, th.id))
    case DropReplaced => th.(local := None)
    case UnlockStock => th.(at := Stocked(false))
    case EndUpdate => Idle
    case BeginPass => Pass(WantStockRead, {})
    case LockStockRead => th.(point := Between)
    case NextId(id) => th.(point := WantShard(id))
    case LockShard => if th.Pass? then th.(point := InShard(th.point.id)) else th.(look := LInShard)
    case ReadMap =>
      if th.Lookup? then th.(look := LReadDone(Get(tab.ours, th.target)))
      else th.(point := ReadDone(th.point.id), held := th.held + Fetched(tab.ours, th.point.id))
    case UnlockShard => if th.Pass? then th.(point := Between) else th.(look := LAnswer(th.look.found))
    case EndPass => Idle
    case BeginLookup(id) => Lookup(LWantShard, id)
    case ReturnFound => Idle
    case Sentinel => Idle
  }

  function Fetched(m: map<FormId, Obj>, id: FormId): set<Fetch> {
    if id in m then {Fetch(id, m[id])} else {}
  }

  function LocksAfter(l: LockSet, t: Tid, th: Thread, a: Action): LockSet
    requires Shaped(l) && AtPoint(th, a)
  {
    match a
    case LockWriter => l.(writer := l.writer[ShardOf(th) := Some(t)])
    case EndUpdate => l.(writer := l.writer[ShardOf(th) := None])
    case LockMap => l.(shard := l.shard[ShardOf(th) := RWLock(Some(t), {})])
    case UnlockMap => l.(shard := l.shard[ShardOf(th) := RWLock(None, {})])
    case LockShard => l.(shard := l.shard[ShardOf(th) := l.shard[ShardOf(th)].With(t)])
    case UnlockShard => l.(shard := l.shard[ShardOf(th) := l.shard[ShardOf(th)].Without(t)])
    case LockStock => l.(id := RWLock(Some(t), {}))
    case UnlockStock => l.(id := RWLock(None, {}))
    case LockStockRead => l.(id := l.id.With(t))
    case EndPass => l.(id := l.id.Without(t))
    case _ => l
  }

  function TablesAfter(tab: Tables, th: Thread, a: Action): Tables
    requires AtPoint(th, a)
  {
    if a == EditMap then tab.(ours := Store(tab.ours, th.id, th.arg))
    else if a == EditStock then tab.(stock := Store(tab.stock, th.id, th.arg))
    else tab
  }

  /** A table entry that is overwritten hands its reference to `local`, so an
      edit only adds the argument's; `DropDisplaced`, `DropReplaced` and the
      end of the call give references back. */
  function RefsAfter(refs: multiset<Obj>, th: Thread, a: Action): multiset<Obj>
    requires AtPoint(th, a)
  {
    match a
    case BeginUpdate(_, arg) => refs + Ref(arg)
    case EditMap => refs + Ref(th.arg)
    case EditStock => refs + Ref(th.arg)
    case DropDisplaced => refs - Ref(th.local)
    case DropReplaced => refs - Ref(th.local)
    case EndUpdate => refs - Ref(th.arg)
    case _ => refs
  }

  /** The caller of an update holds a reference to its argument. */
  predicate CanStep(s: State, t: Tid, a: Action) {
    && Shaped(s.locks)
    && t < |s.threads|
    && AtPoint(s.threads[t], a)
    && Granted(s.locks, s.threads[t], a)
    && (a.BeginUpdate? && a.uarg.Some? ==> s.ext[a.uarg.value] > 0)
  }

  function Do(s: State, t: Tid, a: Action): State
    requires CanStep(s, t, a)
  {
    var th := s.threads[t];
    var isReal := a.Sentinel? && th.target in s.tables.stock;
    State(
      TablesAfter(s.tables, th, a), RefsAfter(s.refs, th, a), s.ext,
      LocksAfter(s.locks, t, th, a), s.threads[t := After(s.tables, th, a)],
      s.realMisses + (if isReal then 1 else 0),
      s.ghostMisses + (if a.Sentinel? && !isReal then 1 else 0))
  }

  predicate EngineCan(s: State, e: EngineAction) {
    match e
    case New(o) => s.refs[o] == 0
    case AddRef(o) => s.ext[o] > 0
    case Drop(o) => s.ext[o] > 0
  }

  function EngineDo(s: State, e: EngineAction): State {
    if e.Drop? then s.(refs := s.refs - multiset{e.o}, ext := s.ext - multiset{e.o})
    else s.(refs := s.refs + multiset{e.o}, ext := s.ext + multiset{e.o})
  }

  ghost predicate Init(s: State) {
    && Shaped(s.locks)
    && s.tables == Tables(map[], map[])
    && s.refs == s.ext
    && (forall k :: 0 <= k < SHARD_COUNT ==> s.locks.writer[k].None? && s.locks.shard[k].Free())
    && s.locks.id.Free()
    && (forall t :: 0 <= t < |s.threads| ==> s.threads[t].Idle?)
  }

  ghost predicate Next(s: State, s': State) {
    || (exists t: Tid, a :: CanStep(s, t, a) && s' == Do(s, t, a))
    || (exists e :: EngineCan(s, e) && s' == EngineDo(s, e))
  }

  /** A finite run: from an initial state, one action at a time. */
  ghost predicate IsRun(run: seq<State>) {
    && run != []
    && Init(run[0])
    && forall i :: 0 <= i < |run| - 1 ==> Next(run[i], run[i + 1])
  }

  ghost predicate Reachable(s: State) {
    exists run :: IsRun(run) && run[|run| - 1] == s
  }
}
