/** The replacement spinlock: a flag taken by test-and-set, an owner id and a
    32-bit count, every atomic access one step, any number of threads. `unlock`
    gives up ownership before it clears the flag; the other order is modelled
    too, to show what it leads to. */
module Spinlock {
  const WORD32 := 0x1_0000_0000

  /** Where a thread is. `Acquired` has set the flag but not the owner; the later
      ones are inside `unlock`. Only the flag-first order uses the last two. */
  datatype Pc =
    | Idle
    | Spinning
    | Acquired
    | Held
    | Checked
    | Discounted
    | Disowned
    | Cleared
    | ClearedDiscounted

  datatype Order = OwnerFirst | FlagFirst

  datatype State = State(flag: bool, owner: nat, count: nat, pcs: seq<Pc>)

  datatype Action = CallLock(t: nat) | CallUnlock(t: nat) | Advance(t: nat)

  /** Thread ids are distinct and not zero. */
  predicate ThreadIds(ids: seq<nat>) {
    && (forall t :: 0 <= t < |ids| ==> 0 < ids[t])
    && (forall t, u :: 0 <= t < u < |ids| ==> ids[t] != ids[u])
  }

  function Initial(ids: seq<nat>): State {
    State(false, 0, 0, seq(|ids|, _ => Idle))
  }

  /** A thread does not lock again while it is in or past `lock`; it may call
      `unlock` without holding the lock. */
  predicate Can(s: State, a: Action) {
    a.t < |s.pcs| &&
    match a
    case CallLock(t) => s.pcs[t].Idle?
    case CallUnlock(t) => s.pcs[t].Idle? || s.pcs[t].Held?
    case Advance(t) => !s.pcs[t].Idle? && !s.pcs[t].Held?
  }

  function Goto(s: State, t: nat, pc: Pc): State
    requires t < |s.pcs|
  {
    s.(pcs := s.pcs[t := pc])
  }

  function Decrement(count: nat): nat { (count + WORD32 - 1) % WORD32 }

  function Do(order: Order, ids: seq<nat>, s: State, a: Action): State
    requires |ids| == |s.pcs| && Can(s, a)
  {
    match a
    case CallLock(t) => Goto(s, t, Spinning).(count := (s.count + 1) % WORD32)
    case CallUnlock(t) => Goto(s, t, if s.owner == ids[t] then Checked else Idle)
    case Advance(t) =>
      match s.pcs[t]
      case Spinning => if s.flag then s else Goto(s, t, Acquired).(flag := true)
      case Acquired => Goto(s, t, Held).(owner := ids[t])
      case Checked =>
        if order == OwnerFirst then Goto(s, t, Discounted).(count := Decrement(s.count))
        else Goto(s, t, Cleared).(flag := false)
      case Discounted => Goto(s, t, Disowned).(owner := 0)
      case Disowned => Goto(s, t, Idle).(flag := false)
      case Cleared => Goto(s, t, ClearedDiscounted).(count := Decrement(s.count))
      case ClearedDiscounted => Goto(s, t, Idle).(owner := 0)
  }

  ghost predicate IsRun(order: Order, ids: seq<nat>, s: State, acts: seq<Action>, s': State)
    decreases |acts|
  {
    |ids| == |s.pcs| &&
    if acts == [] then s' == s
    else Can(s, acts[0]) && IsRun(order, ids, Do(order, ids, s, acts[0]), acts[1..], s')
  }

  ghost predicate Reachable(order: Order, ids: seq<nat>, s: State) {
    exists acts :: IsRun(order, ids, Initial(ids), acts, s)
  }

  // ---- Invariant of the owner-first order ----

  /** Between setting the flag and clearing it. */
  predicate Inside(pc: Pc) { pc in {Acquired, Held, Checked, Discounted, Disowned} }

  predicate Owns(pc: Pc) { pc in {Held, Checked, Discounted} }

  /** Waiting for the lock or holding it. */
  predicate Counts(pc: Pc) { pc in {Spinning, Acquired, Held, Checked} }

  function Count(pcs: seq<Pc>): nat {
    if pcs == [] then 0 else (if Counts(pcs[0]) then 1 else 0) + Count(pcs[1..])
  }

  lemma {:induction false} CountUpdate(pcs: seq<Pc>, t: nat, pc: Pc)
    requires t < |pcs|
    ensures Count(pcs[t := pc]) + (if Counts(pcs[t]) then 1 else 0) == Count(pcs) + if Counts(pc) then 1 else 0
  {
    hide Counts;
    if t == 0 {
      assert pcs[t := pc][1..] == pcs[1..];
    } else {
      CountUpdate(pcs[1..], t - 1, pc);
      assert pcs[t := pc][1..] == pcs[1..][t - 1 := pc];
    }
  }

  lemma {:induction false} CountBounded(pcs: seq<Pc>)
    ensures Count(pcs) <= |pcs|
    ensures (forall t :: 0 <= t < |pcs| ==> pcs[t].Idle?) ==> Count(pcs) == 0
  {
    if pcs == [] {
    } else {
      CountBounded(pcs[1..]);
    }
  }

  /** Thread `h` is the one inside; none is when `h` is negative. */
  predicate HeldBy(ids: seq<nat>, s: State, h: int)
    requires |ids| == |s.pcs|
  {
    && h < |s.pcs|
    && (forall t :: 0 <= t < |s.pcs| ==> (Inside(s.pcs[t]) <==> t == h))
    && (s.flag <==> 0 <= h)
    && s.owner == if 0 <= h && Owns(s.pcs[h]) then ids[h] else 0
  }

  ghost predicate Inv(ids: seq<nat>, s: State) {
    && |ids| == |s.pcs|
    && (forall t :: 0 <= t < |s.pcs| ==> s.pcs[t] != Cleared && s.pcs[t] != ClearedDiscounted)
    && (exists h :: HeldBy(ids, s, h))
    && s.count == Count(s.pcs) % WORD32
  }

  /** The owner field as a thread that calls `unlock` reads it. */
  lemma OwnerAtUnlock(ids: seq<nat>, s: State, t: nat)
    requires ThreadIds(ids) && Inv(ids, s) && Can(s, CallUnlock(t))
    ensures s.owner == ids[t] <==> s.pcs[t].Held?
  {
    var h :| HeldBy(ids, s, h);
    if 0 <= h && h != t {
      assert ids[h] != ids[t];
    }
  }

  lemma CountKept(ids: seq<nat>, s: State, a: Action)
    requires ThreadIds(ids) && Inv(ids, s) && Can(s, a)
    ensures var s' := Do(OwnerFirst, ids, s, a); s'.count == Count(s'.pcs) % WORD32
  {
    hide Count, HeldBy;
    var s' := Do(OwnerFirst, ids, s, a);
    CountUpdate(s.pcs, a.t, s'.pcs[a.t]);
    if a.CallUnlock? {
      OwnerAtUnlock(ids, s, a.t);
    }
  }

  /** Who is inside after a step. */
  function HolderAfter(s: State, h: int, a: Action): int
    requires Can(s, a)
  {
    if a.Advance? && s.pcs[a.t].Spinning? && !s.flag then a.t
    else if a.Advance? && s.pcs[a.t].Disowned? then -1
    else h
  }

  lemma HeldByKept(ids: seq<nat>, s: State, h: int, a: Action)
    requires ThreadIds(ids) && Inv(ids, s) && HeldBy(ids, s, h) && Can(s, a)
    ensures HeldBy(ids, Do(OwnerFirst, ids, s, a), HolderAfter(s, h, a))
  {
    hide Count, ThreadIds;
    if a.CallUnlock? {
      OwnerAtUnlock(ids, s, a.t);
    }
  }

  lemma InvKept(ids: seq<nat>, s: State, a: Action)
    requires ThreadIds(ids) && Inv(ids, s) && Can(s, a)
    ensures Inv(ids, Do(OwnerFirst, ids, s, a))
  {
    hide HeldBy, Count, ThreadIds;
    CountKept(ids, s, a);
    var h :| HeldBy(ids, s, h);
    HeldByKept(ids, s, h, a);
  }

  lemma InvInitial(ids: seq<nat>)
    ensures Inv(ids, Initial(ids))
  {
    CountBounded(Initial(ids).pcs);
    assert HeldBy(ids, Initial(ids), -1);
  }

  lemma {:induction false} RunKeepsInv(ids: seq<nat>, s: State, acts: seq<Action>, s': State)
    requires ThreadIds(ids) && Inv(ids, s) && IsRun(OwnerFirst, ids, s, acts, s')
    ensures Inv(ids, s')
    decreases |acts|
  {
    if acts == [] {
    } else {
      InvKept(ids, s, acts[0]);
      RunKeepsInv(ids, Do(OwnerFirst, ids, s, acts[0]), acts[1..], s');
    }
  }

  lemma ReachableInv(ids: seq<nat>, s: State)
    requires ThreadIds(ids) && Reachable(OwnerFirst, ids, s)
    ensures Inv(ids, s)
  {
    var acts :| IsRun(OwnerFirst, ids, Initial(ids), acts, s);
    InvInitial(ids);
    RunKeepsInv(ids, Initial(ids), acts, s);
  }

  // ---- Safety ----

  /** At most one thread is past the test-and-set and before the clear. */
  lemma MutualExclusion(ids: seq<nat>, s: State, t: nat, u: nat)
    requires ThreadIds(ids) && Reachable(OwnerFirst, ids, s)
    requires t < |s.pcs| && u < |s.pcs| && Inside(s.pcs[t]) && Inside(s.pcs[u])
    ensures t == u && s.flag
  {
    ReachableInv(ids, s);
  }

  /** A thread that has finished `lock` finds itself the owner; any other thread's
      `unlock` changes nothing. */
  lemma UnlockChecksTheHolder(ids: seq<nat>, s: State, t: nat)
    requires ThreadIds(ids) && Reachable(OwnerFirst, ids, s) && Can(s, CallUnlock(t))
    ensures |ids| == |s.pcs|
    ensures Do(OwnerFirst, ids, s, CallUnlock(t)) == if s.pcs[t].Held? then Goto(s, t, Checked) else s
  {
    ReachableInv(ids, s);
    OwnerAtUnlock(ids, s, t);
    if s.pcs[t].Idle? {
      assert s.pcs[t := Idle] == s.pcs;
    }
  }

  /** The count is the number of threads waiting or holding, exactly so for fewer
      than 2^32 threads. */
  lemma CountsWaitingAndHolding(ids: seq<nat>, s: State)
    requires ThreadIds(ids) && Reachable(OwnerFirst, ids, s)
    ensures s.count == Count(s.pcs) % 0x1_0000_0000
    ensures |ids| < 0x1_0000_0000 ==> s.count == Count(s.pcs)
  {
    ReachableInv(ids, s);
    CountBounded(s.pcs);
  }

  // ---- The order of the accesses ----

  function Waiting(pcs: seq<Pc>): nat {
    if pcs == [] then 0 else (if pcs[0].Spinning? then 1 else 0) + Waiting(pcs[1..])
  }

  lemma {:induction false} OnlyWaitersCount(pcs: seq<Pc>)
    requires forall t :: 0 <= t < |pcs| ==> !(pcs[t] in {Acquired, Held, Checked})
    ensures Count(pcs) == Waiting(pcs)
  {
    if pcs == [] {
    } else {
      assert !(pcs[0] in {Acquired, Held, Checked});
      OnlyWaitersCount(pcs[1..]);
    }
  }

  /** The flag is cleared only when all bookkeeping is done: the owner is zero and
      the count is that of the waiters alone. */
  lemma FlagIsClearedLast(ids: seq<nat>, s: State, a: Action)
    requires ThreadIds(ids) && Reachable(OwnerFirst, ids, s) && |ids| == |s.pcs| && Can(s, a)
    requires s.flag && !Do(OwnerFirst, ids, s, a).flag
    ensures s.owner == 0 && s.count == Waiting(s.pcs) % WORD32
    ensures s.pcs[a.t].Disowned? && Do(OwnerFirst, ids, s, a).pcs[a.t].Idle?
  {
    ReachableInv(ids, s);
    var h :| HeldBy(ids, s, h);
    forall t | 0 <= t < |s.pcs|
      ensures !(s.pcs[t] in {Acquired, Held, Checked})
    {
      assert Inside(s.pcs[t]) ==> t == a.t;
    }
    OnlyWaitersCount(s.pcs);
  }

  /** A thread gets in only by setting a flag that was clear; what it then finds as
      the owner is nobody, and its own id once it holds the lock. */
  lemma EntersByTheFlag(ids: seq<nat>, s: State, a: Action)
    requires ThreadIds(ids) && Reachable(OwnerFirst, ids, s) && |ids| == |s.pcs| && Can(s, a)
    ensures var s' := Do(OwnerFirst, ids, s, a);
      && (!Inside(s.pcs[a.t]) && Inside(s'.pcs[a.t]) <==> s.pcs[a.t].Spinning? && !s.flag)
      && (s.pcs[a.t].Spinning? && !s.flag ==> s'.flag && s'.owner == 0)
      && (s.pcs[a.t].Acquired? ==> s'.pcs[a.t].Held? && s'.owner == ids[a.t])
  {
    ReachableInv(ids, s);
    if a.CallUnlock? {
      OwnerAtUnlock(ids, s, a.t);
    }
  }

  /** One thread by itself: `lock` leaves the flag set, its id as the owner and a
      count of one; `unlock` then leaves everything as it was at first. */
  lemma LockThenUnlock(ids: seq<nat>) returns (held: State, after: State)
    requires ThreadIds(ids) && ids != []
    ensures IsRun(OwnerFirst, ids, Initial(ids), [CallLock(0), Advance(0), Advance(0)], held)
    ensures held == State(true, ids[0], 1, Initial(ids).pcs[0 := Held])
    ensures IsRun(OwnerFirst, ids, held, [CallUnlock(0), Advance(0), Advance(0), Advance(0)], after)
    ensures after == Initial(ids)
  {
    var s0 := Initial(ids);
    var s1 := Do(OwnerFirst, ids, s0, CallLock(0));
    var s2 := Do(OwnerFirst, ids, s1, Advance(0));
    held := Do(OwnerFirst, ids, s2, Advance(0));
    assert held.pcs == s0.pcs[0 := Held];
    var same := RunOfThree(ids, s0, CallLock(0), Advance(0), Advance(0));
    var s4 := Do(OwnerFirst, ids, held, CallUnlock(0));
    var s5 := Do(OwnerFirst, ids, s4, Advance(0));
    after := RunOfThree(ids, s4, Advance(0), Advance(0), Advance(0));
    assert after.pcs == s0.pcs;
    assert [CallUnlock(0), Advance(0), Advance(0), Advance(0)][1..] == [Advance(0), Advance(0), Advance(0)];
  }

  lemma RunOfThree(ids: seq<nat>, s: State, a: Action, b: Action, c: Action) returns (s': State)
    requires |ids| == |s.pcs| && Can(s, a) && Can(Do(OwnerFirst, ids, s, a), b)
    requires |Do(OwnerFirst, ids, s, a).pcs| == |ids| && |Do(OwnerFirst, ids, Do(OwnerFirst, ids, s, a), b).pcs| == |ids|
    requires Can(Do(OwnerFirst, ids, Do(OwnerFirst, ids, s, a), b), c)
    ensures s' == Do(OwnerFirst, ids, Do(OwnerFirst, ids, Do(OwnerFirst, ids, s, a), b), c)
    ensures IsRun(OwnerFirst, ids, s, [a, b, c], s')
  {
    hide Do, Can;
    var s1 := Do(OwnerFirst, ids, s, a);
    var s2 := Do(OwnerFirst, ids, s1, b);
    s' := Do(OwnerFirst, ids, s2, c);
    SameThreads(ids, s2, c);
    assert IsRun(OwnerFirst, ids, s', [], s');
    RunFrom(ids, s2, c, [], s');
    RunFrom(ids, s1, b, [c], s');
    RunFrom(ids, s, a, [b, c], s');
    assert [c] + [] == [c] && [b] + [c] == [b, c] && [a] + [b, c] == [a, b, c];
  }

  lemma SameThreads(ids: seq<nat>, s: State, a: Action)
    requires |ids| == |s.pcs| && Can(s, a)
    ensures |Do(OwnerFirst, ids, s, a).pcs| == |ids|
  {
  }

  lemma RunFrom(ids: seq<nat>, s: State, a: Action, rest: seq<Action>, s': State)
    requires |ids| == |s.pcs| && Can(s, a) && IsRun(OwnerFirst, ids, Do(OwnerFirst, ids, s, a), rest, s')
    ensures IsRun(OwnerFirst, ids, s, [a] + rest, s')
  {
    hide Do, Can;
    assert ([a] + rest)[1..] == rest;
  }

  // ---- Progress ----

  /** The steps by which the thread inside leaves. */
  function WayOut(pc: Pc, t: nat): seq<Action> {
    match pc
    case Acquired => [Advance(t), CallUnlock(t), Advance(t), Advance(t), Advance(t)]
    case Held => [CallUnlock(t), Advance(t), Advance(t), Advance(t)]
    case Checked => [Advance(t), Advance(t), Advance(t)]
    case Discounted => [Advance(t), Advance(t)]
    case Disowned => [Advance(t)]
    case _ => []
  }

  lemma {:induction false} RunOn(order: Order, ids: seq<nat>, s: State, acts: seq<Action>, s1: State, more: seq<Action>, s2: State)
    requires IsRun(order, ids, s, acts, s1) && IsRun(order, ids, s1, more, s2)
    ensures IsRun(order, ids, s, acts + more, s2)
    decreases |acts|
  {
    if acts == [] {
      assert acts + more == more;
    } else {
      RunOn(order, ids, Do(order, ids, s, acts[0]), acts[1..], s1, more, s2);
      assert (acts + more)[1..] == acts[1..] + more;
    }
  }

  lemma {:induction false} LeavesByItself(ids: seq<nat>, s: State, t: nat)
    requires ThreadIds(ids) && Inv(ids, s) && t < |s.pcs| && Inside(s.pcs[t])
    ensures exists s' :: IsRun(OwnerFirst, ids, s, WayOut(s.pcs[t], t), s') && !s'.flag && s'.pcs == s.pcs[t := Idle]
    decreases |WayOut(s.pcs[t], t)|
  {
    hide Count, HeldBy, ThreadIds;
    var way := WayOut(s.pcs[t], t);
    var s1 := Do(OwnerFirst, ids, s, way[0]);
    InvKept(ids, s, way[0]);
    if s.pcs[t].Held? {
      OwnerAtUnlock(ids, s, t);
    }
    if s.pcs[t].Disowned? {
      assert IsRun(OwnerFirst, ids, s1, way[1..], s1);
      assert IsRun(OwnerFirst, ids, s, way, s1);
    } else {
      assert WayOut(s1.pcs[t], t) == way[1..];
      LeavesByItself(ids, s1, t);
      var s' :| IsRun(OwnerFirst, ids, s1, way[1..], s') && !s'.flag && s'.pcs == s1.pcs[t := Idle];
      assert IsRun(OwnerFirst, ids, s, way, s');
    }
  }

  /** A set flag always has a thread that clears it by at most five steps of its
      own, whatever the other threads do not do. */
  lemma FlagIsCleared(ids: seq<nat>, s: State)
    requires ThreadIds(ids) && Reachable(OwnerFirst, ids, s) && s.flag
    ensures exists t: nat, s' ::
      && t < |s.pcs| && Inside(s.pcs[t]) && |WayOut(s.pcs[t], t)| <= 5
      && IsRun(OwnerFirst, ids, s, WayOut(s.pcs[t], t), s') && !s'.flag
  {
    ReachableInv(ids, s);
    var h :| HeldBy(ids, s, h);
    LeavesByItself(ids, s, h);
  }

  /** No waiter is locked out: from every reachable state some run lets it in. */
  lemma WaiterGetsIn(ids: seq<nat>, s: State, w: nat)
    requires ThreadIds(ids) && Reachable(OwnerFirst, ids, s) && w < |s.pcs| && s.pcs[w].Spinning?
    ensures exists acts, s' :: |acts| <= 7 && IsRun(OwnerFirst, ids, s, acts, s') && |s'.pcs| == |s.pcs| && s'.pcs[w].Held?
  {
    hide Count, ThreadIds;
    ReachableInv(ids, s);
    var way: seq<Action>, s1 := [], s;
    if s.flag {
      var h :| HeldBy(ids, s, h);
      LeavesByItself(ids, s, h);
      way := WayOut(s.pcs[h], h);
      s1 :| IsRun(OwnerFirst, ids, s, way, s1) && !s1.flag && s1.pcs == s.pcs[h := Idle];
    }
    var s2 := Do(OwnerFirst, ids, s1, Advance(w));
    var s3 := Do(OwnerFirst, ids, s2, Advance(w));
    var more := [Advance(w), Advance(w)];
    assert more[1..] == [Advance(w)] && more[1..][1..] == [];
    assert IsRun(OwnerFirst, ids, s2, more[1..], s3);
    assert IsRun(OwnerFirst, ids, s1, more, s3);
    RunOn(OwnerFirst, ids, s, way, s1, more, s3);
  }

  // ---- The flag-first order ----

  /** The flag is set, nobody is inside, and the owner is zero. */
  predicate Stalled(s: State) {
    s.flag && s.owner == 0 && forall t :: 0 <= t < |s.pcs| ==> s.pcs[t] in {Idle, Spinning}
  }

  /** Nobody ever gets in again, in either order. */
  lemma {:induction false} StallIsPermanent(order: Order, ids: seq<nat>, s: State, acts: seq<Action>, s': State)
    requires ThreadIds(ids) && Stalled(s) && IsRun(order, ids, s, acts, s')
    ensures Stalled(s')
    decreases |acts|
  {
    if acts == [] {
    } else {
      assert ids[acts[0].t] != 0;
      StallIsPermanent(order, ids, Do(order, ids, s, acts[0]), acts[1..], s');
    }
  }

  lemma NeverStalled(ids: seq<nat>, s: State)
    requires ThreadIds(ids) && Reachable(OwnerFirst, ids, s)
    ensures !Stalled(s)
  {
    ReachableInv(ids, s);
  }

  lemma ReachesOn(order: Order, ids: seq<nat>, s: State, a: Action)
    requires Reachable(order, ids, s) && |ids| == |s.pcs| && Can(s, a)
    ensures Reachable(order, ids, Do(order, ids, s, a))
  {
    var acts :| IsRun(order, ids, Initial(ids), acts, s);
    var s' := Do(order, ids, s, a);
    assert [a][1..] == [] && IsRun(order, ids, s', [], s');
    assert IsRun(order, ids, s, [a], s');
    RunOn(order, ids, Initial(ids), acts, s, [a], s');
  }

  lemma InitialReachable(order: Order, ids: seq<nat>)
    ensures Reachable(order, ids, Initial(ids))
  {
    assert IsRun(order, ids, Initial(ids), [], Initial(ids));
  }

  /** With the flag cleared first, thread 1 takes the lock and stores its id while
      thread 0 has still to store zero; thread 1 then refuses to unlock. */
  lemma FlagFirstStalls(ids: seq<nat>) returns (s: State)
    requires ThreadIds(ids) && |ids| >= 2
    ensures Reachable(FlagFirst, ids, s) && Stalled(s)
  {
    hide Reachable, ThreadIds;
    assert ids[0] != 0 && ids[1] != 0 by { NonZero(ids); }
    s := Initial(ids);
    InitialReachable(FlagFirst, ids);
    s := Follow(FlagFirst, ids, s, CallLock(0));
    s := Follow(FlagFirst, ids, s, Advance(0));
    s := Follow(FlagFirst, ids, s, Advance(0));
    s := Follow(FlagFirst, ids, s, CallLock(1));
    s := Follow(FlagFirst, ids, s, CallUnlock(0));
    s := Follow(FlagFirst, ids, s, Advance(0));
    s := Follow(FlagFirst, ids, s, Advance(1));
    s := Follow(FlagFirst, ids, s, Advance(1));
    s := Follow(FlagFirst, ids, s, Advance(0));
    s := Follow(FlagFirst, ids, s, Advance(0));
    s := Follow(FlagFirst, ids, s, CallUnlock(1));
  }

  lemma NonZero(ids: seq<nat>)
    requires ThreadIds(ids)
    ensures forall t :: 0 <= t < |ids| ==> ids[t] != 0
  {
  }

  lemma Follow(order: Order, ids: seq<nat>, s: State, a: Action) returns (s': State)
    requires Reachable(order, ids, s) && |ids| == |s.pcs| && Can(s, a)
    ensures s' == Do(order, ids, s, a) && |s'.pcs| == |s.pcs| && Reachable(order, ids, s')
  {
    s' := Do(order, ids, s, a);
    ReachesOn(order, ids, s, a);
  }

  /** With at most one thread either order is safe. */
  predicate Alone(ids: seq<nat>, s: State) {
    && |ids| == |s.pcs| <= 1
    && (s.flag <==> |ids| == 1 && Inside(s.pcs[0]))
    && s.owner == if |ids| == 1 && (Owns(s.pcs[0]) || s.pcs[0] in {Cleared, ClearedDiscounted}) then ids[0] else 0
  }

  lemma {:induction false} AloneKept(order: Order, ids: seq<nat>, s: State, acts: seq<Action>, s': State)
    requires ThreadIds(ids) && Alone(ids, s) && IsRun(order, ids, s, acts, s')
    ensures Alone(ids, s')
    decreases |acts|
  {
    if acts == [] {
    } else {
      AloneKept(order, ids, Do(order, ids, s, acts[0]), acts[1..], s');
    }
  }

  ghost predicate CanStall(order: Order, ids: seq<nat>) {
    exists s :: Reachable(order, ids, s) && Stalled(s)
  }

  /** The recorded freeze, exactly: it needs the flag-first order and a second
      thread. */
  lemma StallsExactlyWhenFlagFirst(order: Order, ids: seq<nat>)
    requires ThreadIds(ids)
    ensures CanStall(order, ids) <==> order == FlagFirst && |ids| >= 2
  {
    if order == FlagFirst && |ids| >= 2 {
      var s := FlagFirstStalls(ids);
    } else if CanStall(order, ids) {
      var s :| Reachable(order, ids, s) && Stalled(s);
      if order == OwnerFirst {
        NeverStalled(ids, s);
      } else {
        var acts :| IsRun(order, ids, Initial(ids), acts, s);
        AloneKept(order, ids, Initial(ids), acts, s);
      }
    }
  }
}
