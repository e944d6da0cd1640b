/** The debug allocation tracer: blocks are allocated outside the lock and traced
    under it; a free checks, frees and erases under it; a reallocation moves the
    trace under it. Any number of threads, each access one step, and the heap may
    reuse an address the moment it is free. */
module AllocTracer {
  import opened Prelude

  /** Whether a block has a trace coming, has one, or is not traced at all. A block
      that a failed reallocation leaves in place is `Plain` from then on: the hook
      takes its trace away. */
  datatype Kind = Plain | Pending | Traced

  datatype Owner = Client | Held(t: nat)

  /** A live block with the alignment flag it was last allocated with, and who
      may use it: the program, or a thread inside one of the hooks. */
  datatype Block = Block(flag: bool, kind: Kind, owner: Owner)

  /** Address 0 is the null pointer. The second line of each hook holds the lock. */
  datatype Pc =
    | Idle
    | ToTrace(a: nat, flag: bool)
    | Tracing(a: nat, flag: bool)
    | ToFree(a: nat, flag: bool)
    | Freeing(a: nat, flag: bool) | Freed(a: nat) | Reporting(a: nat, flag: bool)
    | ToRealloc(a: nat, flag: bool)
    | Reallocating(a: nat, flag: bool) | Reallocated(a: nat, r: nat, flag: bool) | Moving(r: nat, flag: bool)
    | Leaving(r: nat)

  datatype State = State(heap: map<nat, Block>, traces: map<nat, bool>, lock: Option<nat>, pcs: seq<Pc>)

  /** `node` says that the size is the traced one. `Resize` is what the heap does
      for a reallocation: a null result may keep the old block or not. */
  datatype Action =
    | Alloc(t: nat, a: nat, flag: bool, node: bool)
    | Free(t: nat, a: nat, flag: bool)
    | Realloc(t: nat, a: nat, flag: bool)
    | Resize(t: nat, r: nat, kept: bool)
    | Step(t: nat)

  predicate Locked(pc: Pc) {
    pc.Tracing? || pc.Freeing? || pc.Freed? || pc.Reporting? || pc.Reallocating? || pc.Reallocated? || pc.Moving? || pc.Leaving?
  }

  predicate Waits(pc: Pc) { pc.ToTrace? || pc.ToFree? || pc.ToRealloc? }

  predicate ClientOwns(s: State, a: nat) { a in s.heap && s.heap[a].owner == Client }

  /** The program hands over only blocks that it owns, or null. A report ends the
      process. */
  predicate Can(s: State, act: Action) {
    act.t < |s.pcs| &&
    match act
    case Alloc(t, a, _, _) => s.pcs[t].Idle? && a != 0 && a !in s.heap
    case Free(t, a, _) => s.pcs[t].Idle? && (a == 0 || ClientOwns(s, a))
    case Realloc(t, a, _) => s.pcs[t].Idle? && (a == 0 || ClientOwns(s, a))
    case Resize(t, r, _) => s.pcs[t].Reallocating? && (r == 0 || r == s.pcs[t].a || r !in s.heap)
    case Step(t) =>
      if Waits(s.pcs[t]) then s.lock.None?
      else !s.pcs[t].Idle? && !s.pcs[t].Reporting? && !s.pcs[t].Reallocating?
  }

  function Goto(s: State, t: nat, pc: Pc): State
    requires t < |s.pcs|
  {
    s.(pcs := s.pcs[t := pc])
  }

  function Own(heap: map<nat, Block>, a: nat, o: Owner): map<nat, Block> {
    if a in heap then heap[a := heap[a].(owner := o)] else heap
  }

  /** `emplace` leaves an entry that is already there. */
  function Emplace(traces: map<nat, bool>, a: nat, flag: bool): map<nat, bool> {
    if a in traces then traces else traces[a := flag]
  }

  /** The heap after a reallocation. What takes the place of a traced block is
      traced, and so is what is allocated by reallocating null while null itself
      has a trace. */
  function Resized(s: State, t: nat, r: nat, kept: bool): map<nat, Block>
    requires t < |s.pcs| && s.pcs[t].Reallocating?
  {
    var a := s.pcs[t].a;
    if r == 0 then
      if kept && a in s.heap then s.heap[a := Block(s.heap[a].flag, Plain, Client)] else s.heap - {a}
    else
      var kind := if a in s.heap then s.heap[a].kind else if a in s.traces then Traced else Plain;
      (s.heap - {a})[r := Block(s.pcs[t].flag, kind, Held(t))]
  }

  function Acquire(s: State, t: nat): State
    requires t < |s.pcs| && Waits(s.pcs[t])
  {
    match s.pcs[t]
    case ToTrace(a, flag) => Goto(s, t, Tracing(a, flag)).(lock := Some(t))
    case ToFree(a, flag) => Goto(s, t, Freeing(a, flag)).(lock := Some(t))
    case ToRealloc(a, flag) => Goto(s, t, Reallocating(a, flag)).(lock := Some(t))
  }

  function Do(s: State, act: Action): State
    requires Can(s, act)
  {
    match act
    case Alloc(t, a, flag, node) =>
      if node then Goto(s, t, ToTrace(a, flag)).(heap := s.heap[a := Block(flag, Pending, Held(t))])
      else s.(heap := s.heap[a := Block(flag, Plain, Client)])
    case Free(t, a, flag) => Goto(s, t, ToFree(a, flag)).(heap := Own(s.heap, a, Held(t)))
    case Realloc(t, a, flag) => Goto(s, t, ToRealloc(a, flag)).(heap := Own(s.heap, a, Held(t)))
    case Resize(t, r, kept) => Goto(s, t, Reallocated(s.pcs[t].a, r, s.pcs[t].flag)).(heap := Resized(s, t, r, kept))
    case Step(t) => if Waits(s.pcs[t]) then Acquire(s, t) else Advance(s, t)
  }

  function Advance(s: State, t: nat): State
    requires Can(s, Step(t)) && !Waits(s.pcs[t])
  {
    match s.pcs[t]
    case Tracing(a, flag) =>
      var heap := if a in s.heap then s.heap[a := s.heap[a].(kind := Traced)] else s.heap;
      Goto(s, t, Leaving(a)).(heap := heap, traces := Emplace(s.traces, a, flag))
    case Freeing(a, flag) =>
      if a in s.traces && s.traces[a] != flag then Goto(s, t, Reporting(a, flag))
      else Goto(s, t, Freed(a)).(heap := s.heap - {a})
    case Freed(a) => Goto(s, t, Leaving(0)).(traces := s.traces - {a})
    case Reallocated(a, r, flag) =>
      if a in s.traces then Goto(s, t, Moving(r, flag)).(traces := s.traces - {a})
      else Goto(s, t, Leaving(r))
    case Moving(r, flag) => Goto(s, t, Leaving(r)).(traces := Emplace(s.traces, r, flag))
    case Leaving(r) => Goto(s, t, Idle).(heap := Own(s.heap, r, Client), lock := None)
  }

  // ---- Invariant ----

  /** The trace that the heap calls for. */
  function Expected(s: State, a: nat): Option<bool> {
    if a in s.heap && s.heap[a].kind == Traced then Some(s.heap[a].flag) else None
  }

  /** Addresses whose trace the thread holding the lock is about to put right. */
  function Dirty(s: State): set<nat> {
    if s.lock.None? || s.lock.value >= |s.pcs| then {}
    else
      match s.pcs[s.lock.value]
      case Freed(a) => {a}
      case Reallocated(a, r, _) => {a, r}
      case Moving(r, _) => {r}
      case _ => {}
  }

  predicate HeldBlock(s: State, a: nat, t: nat) {
    a in s.heap && s.heap[a].owner == Held(t)
  }

  predicate ThreadSound(s: State, t: nat)
    requires t < |s.pcs|
  {
    match s.pcs[t]
    case Idle => true
    case ToTrace(a, flag) => a in s.heap && s.heap[a] == Block(flag, Pending, Held(t))
    case Tracing(a, flag) => a in s.heap && s.heap[a] == Block(flag, Pending, Held(t))
    case Freed(a) => Expected(s, a) == None
    case Reporting(a, flag) => a == 0 || (HeldBlock(s, a, t) && Expected(s, a) == Some(!flag))
    case Reallocated(a, r, flag) =>
      if r == 0 then Expected(s, a) == None
      else
        && HeldBlock(s, r, t) && s.heap[r].flag == flag && s.heap[r].kind == (if a in s.traces then Traced else Plain)
        && (a != r ==> Expected(s, a) == None && r !in s.traces)
    case Moving(r, flag) => r == 0 || (r in s.heap && s.heap[r] == Block(flag, Traced, Held(t)) && r !in s.traces)
    case Leaving(r) => r == 0 || (HeldBlock(s, r, t) && s.heap[r].kind != Pending)
    case ToFree(a, _) => a == 0 || (HeldBlock(s, a, t) && s.heap[a].kind != Pending)
    case Freeing(a, _) => a == 0 || (HeldBlock(s, a, t) && s.heap[a].kind != Pending)
    case ToRealloc(a, _) => a == 0 || (HeldBlock(s, a, t) && s.heap[a].kind != Pending)
    case Reallocating(a, _) => a == 0 || (HeldBlock(s, a, t) && s.heap[a].kind != Pending)
  }

  /** Thread `t` is about to trace the block at `a`. */
  predicate AboutToTrace(s: State, t: nat, a: nat) {
    t < |s.pcs| && (s.pcs[t].ToTrace? || s.pcs[t].Tracing?) && s.pcs[t].a == a
  }

  predicate LockSound(s: State) {
    && (s.lock.Some? ==> s.lock.value < |s.pcs|)
    && forall t :: 0 <= t < |s.pcs| ==> (Locked(s.pcs[t]) <==> s.lock == Some(t))
  }

  predicate BlockSound(s: State, a: nat)
    requires a in s.heap
  {
    s.heap[a].kind == Pending ==> s.heap[a].owner.Held? && AboutToTrace(s, s.heap[a].owner.t, a)
  }

  /** Apart from null, the traces are those that the heap calls for. */
  ghost predicate Agrees(s: State) {
    forall a: nat :: a != 0 && a !in Dirty(s) ==> Get(s.traces, a) == Expected(s, a)
  }

  ghost predicate Inv(s: State) {
    && 0 !in s.heap
    && LockSound(s)
    && (forall t :: 0 <= t < |s.pcs| ==> ThreadSound(s, t))
    && (forall a :: a in s.heap ==> BlockSound(s, a))
    && Agrees(s)
  }

  // ---- Steps keep it ----

  lemma LockKept(s: State, act: Action)
    requires LockSound(s) && Can(s, act)
    ensures LockSound(Do(s, act))
  {
  }

  lemma ClientBlock(s: State, a: nat)
    requires Inv(s) && ClientOwns(s, a)
    ensures s.heap[a].kind != Pending
  {
    assert BlockSound(s, a);
  }

  /** What the acting thread finds at its next step. */
  lemma OwnThreadKept(s: State, act: Action)
    requires Inv(s) && Can(s, act)
    ensures |Do(s, act).pcs| == |s.pcs| && ThreadSound(Do(s, act), act.t)
  {
    hide BlockSound;
    var pc := s.pcs[act.t];
    if (act.Free? || act.Realloc?) && act.a != 0 {
      ClientBlock(s, act.a);
    }
    assert ThreadSound(s, act.t);
    if act.Resize? || pc.Freeing? || pc.Tracing? {
      assert pc.a != 0 ==> Get(s.traces, pc.a) == Expected(s, pc.a);
      if act.Resize? && act.r != 0 {
        assert act.r !in Dirty(s) && Get(s.traces, act.r) == Expected(s, act.r);
      }
    }
  }

  /** What a thread knows depends on its own blocks, the traces and what they
      should be. */
  lemma SoundFrame(s: State, s': State, u: nat)
    requires u < |s.pcs| == |s'.pcs| && s'.pcs[u] == s.pcs[u] && s'.traces == s.traces && ThreadSound(s, u)
    requires forall b :: HeldBlock(s, b, u) ==> b in s'.heap && s'.heap[b] == s.heap[b]
    requires forall b :: Expected(s', b) == Expected(s, b)
    ensures ThreadSound(s', u)
  {
    hide Expected;
  }

  lemma OtherAtCall(s: State, act: Action, u: nat)
    requires 0 !in s.heap && Can(s, act) && !act.Step? && !act.Resize?
    requires u < |s.pcs| && u != act.t && ThreadSound(s, u)
    ensures |Do(s, act).pcs| == |s.pcs| && ThreadSound(Do(s, act), u)
  {
    hide ThreadSound, Advance, Acquire, Resized;
    SoundFrame(s, Do(s, act), u);
  }

  lemma OtherAtResize(s: State, t: nat, r: nat, kept: bool, u: nat)
    requires LockSound(s) && 0 !in s.heap && Can(s, Resize(t, r, kept))
    requires u < |s.pcs| && u != t && ThreadSound(s, t) && ThreadSound(s, u)
    ensures var s' := Do(s, Resize(t, r, kept)); |s'.pcs| == |s.pcs| && ThreadSound(s', u)
  {
    hide Advance, Acquire;
    assert !Locked(s.pcs[u]);
  }

  lemma OtherAtStep(s: State, t: nat, u: nat)
    requires LockSound(s) && 0 !in s.heap && Can(s, Step(t))
    requires u < |s.pcs| && u != t && ThreadSound(s, t) && ThreadSound(s, u)
    ensures |Do(s, Step(t)).pcs| == |s.pcs| && ThreadSound(Do(s, Step(t)), u)
  {
    hide Resized;
    assert Locked(s.pcs[t]) ==> !Locked(s.pcs[u]);
  }

  lemma OtherThreadKept(s: State, act: Action, u: nat)
    requires Inv(s) && Can(s, act) && u < |s.pcs| && u != act.t
    ensures |Do(s, act).pcs| == |s.pcs| && ThreadSound(Do(s, act), u)
  {
    hide ThreadSound, BlockSound, LockSound, Agrees;
    if act.Step? {
      OtherAtStep(s, act.t, u);
    } else if act.Resize? {
      OtherAtResize(s, act.t, act.r, act.kept, u);
    } else {
      OtherAtCall(s, act, u);
    }
  }

  lemma BlockAtCall(s: State, act: Action, a: nat)
    requires 0 !in s.heap && Can(s, act) && !act.Step? && ThreadSound(s, act.t)
    requires a in Do(s, act).heap && (a in s.heap ==> BlockSound(s, a))
    ensures BlockSound(Do(s, act), a)
  {
    hide Advance, Acquire;
  }

  lemma BlockAtStep(s: State, t: nat, a: nat)
    requires 0 !in s.heap && Can(s, Step(t)) && ThreadSound(s, t)
    requires a in Do(s, Step(t)).heap && (a in s.heap ==> BlockSound(s, a))
    ensures BlockSound(Do(s, Step(t)), a)
  {
    hide Resized;
  }

  lemma BlockKept(s: State, act: Action, a: nat)
    requires Inv(s) && Can(s, act) && a in Do(s, act).heap
    ensures BlockSound(Do(s, act), a)
  {
    hide ThreadSound, BlockSound, LockSound, Agrees;
    if act.Step? {
      BlockAtStep(s, act.t, a);
    } else {
      BlockAtCall(s, act, a);
    }
  }

  lemma AgreesAtCall(s: State, act: Action, a: nat)
    requires LockSound(s) && Can(s, act) && ThreadSound(s, act.t) && !act.Step?
    requires a != 0 && (a !in Dirty(s) ==> Get(s.traces, a) == Expected(s, a))
    requires a !in Dirty(Do(s, act))
    ensures Get(Do(s, act).traces, a) == Expected(Do(s, act), a)
  {
    hide Advance, Acquire;
  }

  lemma AgreesAtStep(s: State, t: nat, a: nat)
    requires LockSound(s) && 0 !in s.heap && Can(s, Step(t)) && ThreadSound(s, t)
    requires a != 0 && (a !in Dirty(s) ==> Get(s.traces, a) == Expected(s, a))
    requires a !in Dirty(Do(s, Step(t)))
    ensures Get(Do(s, Step(t)).traces, a) == Expected(Do(s, Step(t)), a)
  {
    hide Resized;
  }

  lemma AgreesKept(s: State, act: Action)
    requires Inv(s) && Can(s, act)
    ensures Agrees(Do(s, act))
  {
    hide ThreadSound, BlockSound, LockSound, Dirty, Get, Expected;
    forall a: nat | a != 0 && a !in Dirty(Do(s, act))
      ensures Get(Do(s, act).traces, a) == Expected(Do(s, act), a)
    {
      if act.Step? {
        AgreesAtStep(s, act.t, a);
      } else {
        AgreesAtCall(s, act, a);
      }
    }
  }

  lemma InvKept(s: State, act: Action)
    requires Inv(s) && Can(s, act)
    ensures Inv(Do(s, act))
  {
    hide LockSound, ThreadSound, BlockSound, Agrees;
    LockKept(s, act);
    OwnThreadKept(s, act);
    AgreesKept(s, act);
    NullNowhere(s, act);
    forall u | 0 <= u < |s.pcs|
      ensures |Do(s, act).pcs| == |s.pcs| && ThreadSound(Do(s, act), u)
    {
      if u != act.t {
        OtherThreadKept(s, act, u);
      }
    }
    forall a | a in Do(s, act).heap
      ensures BlockSound(Do(s, act), a)
    {
      BlockKept(s, act, a);
    }
  }

  lemma NullNowhere(s: State, act: Action)
    requires Inv(s) && Can(s, act)
    ensures 0 !in Do(s, act).heap
  {
    hide BlockSound, Agrees, LockSound;
    assert ThreadSound(s, act.t);
  }

  // ---- Runs ----

  function Initial(n: nat): State { State(map[], map[], None, seq(n, _ => Idle)) }

  ghost predicate IsRun(s: State, acts: seq<Action>, s': State)
    decreases |acts|
  {
    if acts == [] then s' == s
    else Can(s, acts[0]) && IsRun(Do(s, acts[0]), acts[1..], s')
  }

  ghost predicate Reachable(s: State) {
    exists n, acts :: IsRun(Initial(n), acts, s)
  }

  lemma {:induction false} RunKeepsInv(s: State, acts: seq<Action>, s': State)
    requires Inv(s) && IsRun(s, acts, s')
    ensures Inv(s')
    decreases |acts|
  {
    if acts == [] {
    } else {
      InvKept(s, acts[0]);
      RunKeepsInv(Do(s, acts[0]), acts[1..], s');
    }
  }

  lemma ReachableInv(s: State)
    requires Reachable(s)
    ensures Inv(s)
  {
    var n, acts :| IsRun(Initial(n), acts, s);
    RunKeepsInv(Initial(n), acts, s);
  }

  // ---- What the tracer guarantees ----

  /** Whenever the lock is free, the traces are those of the live blocks that call
      for one, each with its latest flag, and null's. A block whose trace is still
      coming has its own allocating thread waiting for the lock. */
  lemma TracesMatchWhenFree(s: State, a: nat)
    requires Reachable(s) && s.lock == None
    ensures a != 0 ==> Get(s.traces, a) == Expected(s, a)
    ensures a in s.heap && s.heap[a].kind == Pending ==>
      exists t: nat :: t < |s.pcs| && s.pcs[t] == ToTrace(a, s.heap[a].flag)
  {
    ReachableInv(s);
    assert a !in Dirty(s);
    if a in s.heap && s.heap[a].kind == Pending {
      assert BlockSound(s, a);
      var t := s.heap[a].owner.t;
      assert ThreadSound(s, t) && !Locked(s.pcs[t]);
    }
  }

  /** A free of a block is reported exactly when the block is traced with another
      flag; a free of null exactly when null has a trace with another flag. */
  lemma ReportsExactlyMismatches(s: State, t: nat)
    requires Reachable(s) && t < |s.pcs| && s.pcs[t].Freeing?
    ensures Can(s, Step(t)) && |Do(s, Step(t)).pcs| == |s.pcs|
    ensures var a, bad := s.pcs[t].a, Some(!s.pcs[t].flag);
      Do(s, Step(t)).pcs[t].Reporting? <==> (if a != 0 then Expected(s, a) else Get(s.traces, a)) == bad
  {
    ReachableInv(s);
    assert ThreadSound(s, t) && Locked(s.pcs[t]);
    assert s.pcs[t].a != 0 ==> Get(s.traces, s.pcs[t].a) == Expected(s, s.pcs[t].a);
  }

  /** Tracing a block always adds a new entry. */
  lemma NewTraceIsAdded(s: State, t: nat)
    requires Reachable(s) && t < |s.pcs| && s.pcs[t].Tracing?
    ensures s.pcs[t].a !in s.traces
    ensures Can(s, Step(t)) && Get(Do(s, Step(t)).traces, s.pcs[t].a) == Some(s.pcs[t].flag)
  {
    ReachableInv(s);
    assert ThreadSound(s, t) && Locked(s.pcs[t]);
    assert Get(s.traces, s.pcs[t].a) == Expected(s, s.pcs[t].a);
  }

  /** Erasing an old trace, after a free or a move, takes no trace of a block that
      meanwhile has the address: that block is not traced yet, or never is. */
  lemma OldEraseSparesTheNewBlock(s: State, t: nat)
    requires Reachable(s) && t < |s.pcs|
    requires s.pcs[t].Freed? || (s.pcs[t].Reallocated? && s.pcs[t].r != s.pcs[t].a)
    ensures var a := s.pcs[t].a;
      && (a in s.heap ==> s.heap[a].kind != Traced)
      && Can(s, Step(t)) && a !in Do(s, Step(t)).traces
      && forall b :: b != a ==> Get(Do(s, Step(t)).traces, b) == Get(s.traces, b)
  {
    ReachableInv(s);
    assert ThreadSound(s, t) && Locked(s.pcs[t]);
  }

  // ---- What single steps do to the heap, told by the program points ----

  /** Thread `t` frees `a`: the check is passed and the block goes back. */
  predicate Frees(s: State, s': State, t: nat, a: nat) {
    && t < |s.pcs| && t < |s'.pcs| && s.pcs[t].Freeing? && s.pcs[t].a == a && s'.pcs[t] == Freed(a)
  }

  /** A free that is not reported takes the block out of the heap and leaves every
      other block and all traces as they were. */
  lemma FreeReleases(s: State, act: Action, a: nat, b: nat)
    requires Reachable(s) && Can(s, act) && Frees(s, Do(s, act), act.t, a)
    ensures var s' := Do(s, act);
      && a !in s'.heap && s'.traces == s.traces
      && (b != a ==> Get(s'.heap, b) == Get(s.heap, b))
  {
  }

  /** The only steps that bring an address into the heap are its allocation and a
      reallocation that returns it; the only steps that take it out are a free that
      is not reported and a reallocation that does not keep it. */
  lemma HeapChanges(s: State, act: Action, a: nat)
    requires Reachable(s) && Can(s, act) && a != 0
    ensures var s' := Do(s, act);
      && (a !in s.heap && a in s'.heap <==>
            (act.Alloc? && act.a == a) || (act.Resize? && act.r == a && s.pcs[act.t].a != a))
      && (a in s.heap && a !in s'.heap <==>
            || Frees(s, s', act.t, a)
            || (act.Resize? && s.pcs[act.t].a == a && act.r != a && !(act.r == 0 && act.kept)))
  {
    ReachableInv(s);
    assert ThreadSound(s, act.t);
  }

  /** A block that stays has the flag it had, unless a reallocation returns it: then
      it has the flag of the call, and so has an allocated one. */
  lemma FlagChanges(s: State, act: Action, a: nat)
    requires Reachable(s) && Can(s, act) && a in Do(s, act).heap
    ensures var flag := Do(s, act).heap[a].flag;
      && (act.Alloc? && act.a == a ==> flag == act.flag)
      && (act.Resize? && act.r == a ==> flag == s.pcs[act.t].flag)
      && (!(act.Alloc? && act.a == a) && !(act.Resize? && act.r == a) ==> a in s.heap && flag == s.heap[a].flag)
  {
    ReachableInv(s);
    assert ThreadSound(s, act.t);
  }

  /** A trace appears only by the tracing of an allocation or the move of one to a
      reallocated pointer, with that call's flag, and goes only by the erase after a
      free or before a move. */
  lemma TraceChanges(s: State, act: Action, a: nat)
    requires Reachable(s) && Can(s, act) && Get(Do(s, act).traces, a) != Get(s.traces, a)
    ensures act.Step? && var pc := s.pcs[act.t];
      if pc.Tracing? then pc.a == a && Get(Do(s, act).traces, a) == Some(pc.flag)
      else if pc.Moving? then pc.r == a && Get(Do(s, act).traces, a) == Some(pc.flag)
      else (pc.Freed? || pc.Reallocated?) && pc.a == a && Get(Do(s, act).traces, a) == None
  {
  }

  // ---- Reallocation, null results included ----

  /** The rest of a reallocation: move the trace, release the lock. */
  function FinishRealloc(s: State, t: nat): State
    requires t < |s.pcs| && s.pcs[t].Reallocated?
  {
    var s1 := Do(s, Step(t));
    var s2 := if s1.pcs[t].Moving? then Do(s1, Step(t)) else s1;
    Do(s2, Step(t))
  }

  lemma FinishTraces(s: State, t: nat)
    requires t < |s.pcs| && s.pcs[t].Reallocated?
    ensures var pc := s.pcs[t];
      FinishRealloc(s, t).traces == if pc.a in s.traces then Emplace(s.traces - {pc.a}, pc.r, pc.flag) else s.traces
    ensures FinishRealloc(s, t).lock == None
  {
  }

  lemma ResultIsUntraced(s: State, t: nat, r: nat, kept: bool)
    requires Inv(s) && Can(s, Resize(t, r, kept)) && r != 0 && r != s.pcs[t].a
    ensures r !in s.traces
  {
    assert ThreadSound(s, t) && Locked(s.pcs[t]);
    assert r !in Dirty(s) && Get(s.traces, r) == Expected(s, r);
  }

  /** What a reallocation does to the traces, whatever its result `r`: only a
      traced pointer's trace moves, to `r` with the new flag. Null keeps the trace
      that an earlier null result gave it. */
  lemma ReallocMovesTheTrace(s: State, t: nat, r: nat, kept: bool, b: nat)
    requires Reachable(s) && Can(s, Resize(t, r, kept))
    ensures var a, s1 := s.pcs[t].a, Do(s, Resize(t, r, kept));
      && t < |s1.pcs| && s1.pcs[t].Reallocated?
      && FinishRealloc(s1, t).lock == None
      && Get(FinishRealloc(s1, t).traces, b) ==
         if a !in s.traces then Get(s.traces, b)
         else if b == r then (if r == 0 != a && 0 in s.traces then Get(s.traces, 0) else Some(s.pcs[t].flag))
         else if b == a then None
         else Get(s.traces, b)
  {
    hide Inv, FinishRealloc;
    ReachableInv(s);
    if r != 0 && r != s.pcs[t].a {
      ResultIsUntraced(s, t, r, kept);
    }
    FinishTraces(Do(s, Resize(t, r, kept)), t);
  }

  /** A block that a failed reallocation leaves in place has no trace any more, so
      no flag is ever wrong for its free. */
  lemma KeptBlockLosesItsTrace(s: State, t: nat)
    requires Reachable(s) && Can(s, Resize(t, 0, true)) && s.pcs[t].a in s.heap
    ensures var a, s1 := s.pcs[t].a, Do(s, Resize(t, 0, true));
      && t < |s1.pcs| && s1.pcs[t].Reallocated?
      && ClientOwns(FinishRealloc(s1, t), a) && a !in FinishRealloc(s1, t).traces
  {
    ReachableInv(s);
    assert ThreadSound(s, t) && Locked(s.pcs[t]);
  }

  /** The reallocation of a traced pointer does not come back null. */
  predicate Succeeds(s: State, act: Action)
    requires Can(s, act)
  {
    act.Resize? && act.r == 0 ==> s.pcs[act.t].a !in s.traces
  }

  ghost predicate AllSucceed(s: State, acts: seq<Action>)
    decreases |acts|
  {
    acts == [] || (Can(s, acts[0]) && Succeeds(s, acts[0]) && AllSucceed(Do(s, acts[0]), acts[1..]))
  }

  predicate NullClean(s: State) {
    && 0 !in s.traces
    && forall t :: 0 <= t < |s.pcs| ==>
         && !(s.pcs[t].Moving? && s.pcs[t].r == 0)
         && !(s.pcs[t].Reallocated? && s.pcs[t].r == 0 && s.pcs[t].a in s.traces)
  }

  lemma NullCleanKept(s: State, act: Action)
    requires Inv(s) && NullClean(s) && Can(s, act) && Succeeds(s, act)
    ensures NullClean(Do(s, act))
  {
    hide BlockSound, Agrees;
    assert ThreadSound(s, act.t);
    forall u | 0 <= u < |s.pcs| && Locked(s.pcs[u]) && Locked(s.pcs[act.t])
      ensures u == act.t
    {
    }
  }

  lemma {:induction false} NullStaysClean(s: State, acts: seq<Action>, s': State)
    requires Inv(s) && NullClean(s) && IsRun(s, acts, s') && AllSucceed(s, acts)
    ensures NullClean(s')
    decreases |acts|
  {
    if acts == [] {
    } else {
      NullCleanKept(s, acts[0]);
      InvKept(s, acts[0]);
      NullStaysClean(Do(s, acts[0]), acts[1..], s');
    }
  }

  /** Where null's traces come from: in a run in which no traced pointer's
      reallocation returns null, null has no trace, and no free of null is
      reported. */
  lemma NullTracedOnlyByNullResult(n: nat, acts: seq<Action>, s: State, t: nat)
    requires IsRun(Initial(n), acts, s) && AllSucceed(Initial(n), acts)
    ensures 0 !in s.traces
    ensures t < |s.pcs| && s.pcs[t].Freeing? && s.pcs[t].a == 0 ==>
      Can(s, Step(t)) && |Do(s, Step(t)).pcs| == |s.pcs| && !Do(s, Step(t)).pcs[t].Reporting?
  {
    NullStaysClean(Initial(n), acts, s);
    if t < |s.pcs| && s.pcs[t].Freeing? {
      ReportsExactlyMismatches(s, t);
    }
  }

  // ---- The failing run ----

  lemma InitialReachable(n: nat)
    ensures Reachable(Initial(n))
  {
    assert IsRun(Initial(n), [], Initial(n));
  }

  lemma {:induction false} RunOn(s: State, acts: seq<Action>, s1: State, act: Action)
    requires IsRun(s, acts, s1) && Can(s1, act)
    ensures IsRun(s, acts + [act], Do(s1, act))
    decreases |acts|
  {
    if acts == [] {
      assert [act][1..] == [] && IsRun(Do(s1, act), [], Do(s1, act));
      assert acts + [act] == [act];
    } else {
      RunOn(Do(s, acts[0]), acts[1..], s1, act);
      assert (acts + [act])[1..] == acts[1..] + [act];
    }
  }

  lemma Follow(s: State, act: Action) returns (s': State)
    requires Reachable(s) && Can(s, act)
    ensures s' == Do(s, act) && Reachable(s')
  {
    s' := Do(s, act);
    var n, acts :| IsRun(Initial(n), acts, s);
    RunOn(Initial(n), acts, s, act);
  }

  lemma TracedBlock(a: nat, flag: bool) returns (s: State)
    requires a != 0
    ensures Reachable(s) && s == State(map[a := Block(flag, Traced, Client)], map[a := flag], None, [Idle])
  {
    hide Reachable;
    s := Initial(1);
    InitialReachable(1);
    s := Follow(s, Alloc(0, a, flag, true));
    s := Follow(s, Step(0));
    s := Follow(s, Step(0));
    s := Follow(s, Step(0));
  }

  lemma KeptAfterFailure(a: nat, flag: bool) returns (s: State)
    requires a != 0
    ensures Reachable(s) && s == State(map[a := Block(flag, Plain, Client)], map[0 := flag], None, [Idle])
  {
    hide Reachable;
    s := TracedBlock(a, flag);
    s := Follow(s, Realloc(0, a, flag));
    s := Follow(s, Step(0));
    s := Follow(s, Resize(0, 0, true));
    s := Follow(s, Step(0));
    s := Follow(s, Step(0));
    s := Follow(s, Step(0));
  }

  lemma NullFreeStarts(a: nat, flag: bool) returns (s: State)
    requires a != 0
    ensures Reachable(s)
    ensures s == State(map[a := Block(flag, Plain, Client)], map[0 := flag], Some(0), [Freeing(0, !flag)])
  {
    hide Reachable;
    s := KeptAfterFailure(a, flag);
    s := Follow(s, Free(0, 0, !flag));
    s := Follow(s, Step(0));
  }

  /** One thread allocates a traced block, its reallocation fails, and a free of
      null with the other flag is then reported, with the block still alive and
      untraced. */
  lemma NullFreeReported(a: nat, flag: bool) returns (s: State)
    requires a != 0
    ensures Reachable(s) && |s.pcs| == 1 && s.pcs[0] == Reporting(0, !flag)
    ensures ClientOwns(s, a) && a !in s.traces
  {
    hide Reachable;
    s := NullFreeStarts(a, flag);
    s := Follow(s, Step(0));
  }

  /** No free of `a` with this flag is reported unless the block there is traced
      with the other one. */
  ghost predicate MatchedFreesPass(a: nat, flag: bool) {
    forall s: State, t: nat ::
      Reachable(s) && t < |s.pcs| && s.pcs[t] == Freeing(a, flag) && Expected(s, a) != Some(!flag) ==>
        Can(s, Step(t)) && |Do(s, Step(t)).pcs| == |s.pcs| && !Do(s, Step(t)).pcs[t].Reporting?
  }

  /** The exact condition, which the caller of the free can check: matched frees
      pass in every run if and only if the pointer is not null. */
  lemma MatchedFreesPassExactly(a: nat, flag: bool)
    ensures MatchedFreesPass(a, flag) <==> a != 0
  {
    hide Reachable;
    if a == 0 {
      var s := NullFreeStarts(1, !flag);
      assert s.pcs[0] == Freeing(a, flag) && Do(s, Step(0)).pcs[0].Reporting?;
    } else {
      forall s: State, t: nat | Reachable(s) && t < |s.pcs| && s.pcs[t] == Freeing(a, flag) && Expected(s, a) != Some(!flag)
        ensures Can(s, Step(t)) && |Do(s, Step(t)).pcs| == |s.pcs| && !Do(s, Step(t)).pcs[t].Reporting?
      {
        ReportsExactlyMismatches(s, t);
      }
    }
  }

  // ---- An address used again during its free ----

  lemma TwoReachable() returns (s: State)
    ensures Reachable(s) && s == State(map[], map[], None, [Idle, Idle])
  {
    s := Initial(2);
    InitialReachable(2);
  }

  lemma TracedByFirst(a: nat, flag: bool) returns (s: State)
    requires a != 0
    ensures Reachable(s) && s == State(map[a := Block(flag, Traced, Client)], map[a := flag], None, [Idle, Idle])
  {
    hide Reachable;
    s := TwoReachable();
    s := Follow(s, Alloc(0, a, flag, true));
    s := Follow(s, Step(0));
    s := Follow(s, Step(0));
    s := Follow(s, Step(0));
  }

  /** One thread has freed `a` and not yet erased its trace; another has already got
      `a` again and waits to trace it. */
  lemma ReusedBeforeErase(a: nat, flag: bool, flag': bool) returns (s: State)
    requires a != 0
    ensures Reachable(s)
    ensures s == State(map[a := Block(flag', Pending, Held(1))], map[a := flag], Some(0), [Freed(a), ToTrace(a, flag')])
  {
    hide Reachable;
    s := TracedByFirst(a, flag);
    s := Follow(s, Free(0, a, flag));
    s := Follow(s, Step(0));
    s := Follow(s, Step(0));
    s := Follow(s, Alloc(1, a, flag', true));
  }

  lemma ErasedAfterReuse(a: nat, flag: bool, flag': bool) returns (s: State)
    requires a != 0
    ensures Reachable(s)
    ensures s == State(map[a := Block(flag', Pending, Held(1))], map[], None, [Idle, ToTrace(a, flag')])
  {
    hide Reachable;
    s := ReusedBeforeErase(a, flag, flag');
    s := Follow(s, Step(0));
    s := Follow(s, Step(0));
  }

  /** The new block and its later trace outlive the old erase. */
  lemma ReuseSurvives(a: nat, flag: bool, flag': bool) returns (s: State)
    requires a != 0
    ensures Reachable(s)
    ensures s == State(map[a := Block(flag', Traced, Client)], map[a := flag'], None, [Idle, Idle])
  {
    hide Reachable;
    s := ErasedAfterReuse(a, flag, flag');
    s := Follow(s, Step(1));
    s := Follow(s, Step(1));
    s := Follow(s, Step(1));
  }

  /** In every reachable state the erase after a free leaves all blocks and whoever
      waits to trace one as they are. */
  lemma EraseLeavesTheHeap(s: State, t: nat, u: nat)
    requires Reachable(s) && t < |s.pcs| && s.pcs[t].Freed? && u < |s.pcs| && u != t
    ensures Can(s, Step(t)) && |Do(s, Step(t)).pcs| == |s.pcs|
    ensures Do(s, Step(t)).heap == s.heap && Do(s, Step(t)).pcs[u] == s.pcs[u]
  {
  }

  /** A reallocation that succeeds on a traced block, to a new address. */
  lemma ReallocMoves(a: nat, r: nat, flag: bool, flag': bool) returns (s: State)
    requires a != 0 && r != 0 && r != a
    ensures Reachable(s) && s == State(map[r := Block(flag', Traced, Client)], map[r := flag'], None, [Idle])
  {
    hide Reachable;
    s := TracedBlock(a, flag);
    s := Follow(s, Realloc(0, a, flag'));
    s := Follow(s, Step(0));
    s := Follow(s, Resize(0, r, false));
    s := Follow(s, Step(0));
    s := Follow(s, Step(0));
    s := Follow(s, Step(0));
  }
}
