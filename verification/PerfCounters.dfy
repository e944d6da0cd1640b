/** Lookup statistics of the hooked Get3DForID: thread-local batches of 64 are
    published to 64-bit counters, a gate opens on every 16384th count, every
    4096th miss of a thread calls the original as a sentinel, and a drain may
    reset the counters at any moment. */
module PerfCounters {
  const BATCH := 64
  const SENTINEL_PERIOD := 0x1000
  const GATE_PERIOD := 0x4000
  const WORD32 := 0x1_0000_0000
  const WORD64 := 0x1_0000_0000_0000_0000

  /** A shared atomic counter with its history: what drains took out, what
      64-bit wrap-around lost, and the values read by the publishes since the
      last drain. */
  datatype Counter = Counter(now: nat, drained: nat, wrapped: nat, readings: seq<nat>) {
    function Total(): nat { now + drained + wrapped }

    /** `fetch_add`, which reads the value before the addition. */
    function FetchAdd(n: nat): Counter {
      var sum := (now + n) % WORD64;
      Counter(sum, drained, wrapped + (now + n - sum), readings + [now])
    }

    /** `exchange(0)`. */
    function Exchange(): Counter { Counter(0, drained + now, wrapped, []) }

    predicate Sound() { now < WORD64 && wrapped % WORD64 == 0 }

    /** The `k`-th publish since a drain reads 64k, modulo 2^64. */
    predicate InBatches() {
      && now == (BATCH * |readings|) % WORD64
      && forall k :: 0 <= k < |readings| ==> readings[k] == (BATCH * k) % WORD64
    }
  }

  /** One thread: its thread-local counters and, as history, all its hits and
      misses and the sentinel calls it made. */
  datatype Local = Local(tlsHits: nat, tlsMisses: nat, hits: nat, misses: nat, sentinels: nat)

  datatype State = State(hits: Counter, misses: Counter, ghosts: Counter, reals: Counter, threads: seq<Local>)

  datatype Tally = Hits | Misses | Ghosts | Reals

  /** A log run drains the four counters one after the other, each in its own step. */
  datatype Event = Hit(t: nat) | Miss(t: nat, found: bool) | Drain(of: Tally)

  /** The log gate, on the value read before a publish. */
  predicate GateOpen(prev: nat) { prev % GATE_PERIOD == 0 }

  function HitStep(s: State, t: nat): State
    requires t < |s.threads|
  {
    var l := s.threads[t];
    var n := l.tlsHits + 1;
    if n >= BATCH then s.(hits := s.hits.FetchAdd(n), threads := s.threads[t := l.(tlsHits := 0, hits := l.hits + 1)])
    else s.(threads := s.threads[t := l.(tlsHits := n, hits := l.hits + 1)])
  }

  /** A miss; `found` tells whether the original would find the id. */
  function MissStep(s: State, t: nat, found: bool): State
    requires t < |s.threads|
  {
    var l := s.threads[t];
    var n := (l.tlsMisses + 1) % WORD32;
    var sentinel := n % SENTINEL_PERIOD == 0;
    State(
      s.hits,
      if n % BATCH == 0 then s.misses.FetchAdd(BATCH) else s.misses,
      if sentinel && !found then s.ghosts.FetchAdd(1) else s.ghosts,
      if sentinel && found then s.reals.FetchAdd(1) else s.reals,
      s.threads[t := l.(tlsMisses := n, misses := l.misses + 1, sentinels := l.sentinels + if sentinel then 1 else 0)])
  }

  function Apply(s: State, e: Event): State {
    match e
    case Hit(t) => if t < |s.threads| then HitStep(s, t) else s
    case Miss(t, found) => if t < |s.threads| then MissStep(s, t, found) else s
    case Drain(Hits) => s.(hits := s.hits.Exchange())
    case Drain(Misses) => s.(misses := s.misses.Exchange())
    case Drain(Ghosts) => s.(ghosts := s.ghosts.Exchange())
    case Drain(Reals) => s.(reals := s.reals.Exchange())
  }

  /** The state that `n` threads reach through `events`, in their global order. */
  function After(n: nat, events: seq<Event>): State {
    if events == [] then
      var zero := Counter(0, 0, 0, []);
      State(zero, zero, zero, zero, seq(n, _ => Local(0, 0, 0, 0, 0)))
    else Apply(After(n, events[..|events| - 1]), events[|events| - 1])
  }

  // ---- Sums over threads ----

  datatype Figure = LocalHits | AllHits | LocalMisses | AllMisses | Sentinels

  function Value(l: Local, f: Figure): nat {
    match f
    case LocalHits => l.tlsHits
    case AllHits => l.hits
    case LocalMisses => l.tlsMisses % BATCH
    case AllMisses => l.misses
    case Sentinels => l.sentinels
  }

  function Sum(threads: seq<Local>, f: Figure): nat {
    if threads == [] then 0 else Value(threads[0], f) + Sum(threads[1..], f)
  }

  lemma {:induction false} SumUpdate(threads: seq<Local>, t: nat, l: Local, f: Figure)
    requires t < |threads|
    ensures Sum(threads[t := l], f) + Value(threads[t], f) == Sum(threads, f) + Value(l, f)
  {
    if t == 0 {
      assert threads[t := l][1..] == threads[1..];
    } else {
      SumUpdate(threads[1..], t - 1, l, f);
      assert threads[t := l][1..] == threads[1..][t - 1 := l];
    }
  }

  lemma {:induction false} SumOfZeros(threads: seq<Local>, f: Figure)
    requires forall t :: 0 <= t < |threads| ==> threads[t] == Local(0, 0, 0, 0, 0)
    ensures Sum(threads, f) == 0
  {
    if threads == [] {
    } else {
      SumOfZeros(threads[1..], f);
    }
  }

  // ---- Invariant ----

  /** A thread's local counters are its totals modulo the batch and 2^32, and it
      has called the sentinel on exactly every 4096th of its misses. */
  predicate LocalSound(l: Local) {
    && l.tlsHits == l.hits % 64
    && l.tlsMisses == l.misses % 0x1_0000_0000
    && l.sentinels == l.misses / 4096
  }

  predicate Conserved(s: State) {
    && s.hits.Total() + Sum(s.threads, LocalHits) == Sum(s.threads, AllHits)
    && s.misses.Total() + Sum(s.threads, LocalMisses) == Sum(s.threads, AllMisses)
    && s.ghosts.Total() + s.reals.Total() == Sum(s.threads, Sentinels)
  }

  predicate Inv(s: State) {
    && (forall t :: 0 <= t < |s.threads| ==> LocalSound(s.threads[t]))
    && s.hits.Sound() && s.misses.Sound() && s.ghosts.Sound() && s.reals.Sound()
    && s.hits.InBatches() && s.misses.InBatches()
    && Conserved(s)
  }

  lemma AddIsCounted(c: Counter, n: nat)
    requires c.Sound()
    ensures c.FetchAdd(n).Sound() && c.FetchAdd(n).Total() == c.Total() + n
  {
    var m := c.now + n;
    assert (m - m % WORD64) % WORD64 == 0;
    SumOfMultiples(c.wrapped, m - m % WORD64);
  }

  lemma SumOfMultiples(a: nat, b: nat)
    requires a % WORD64 == 0 && b % WORD64 == 0
    ensures (a + b) % WORD64 == 0
  {
  }

  lemma BatchAdd(c: Counter)
    requires c.InBatches()
    ensures c.FetchAdd(BATCH).InBatches()
  {
    var n := BATCH * |c.readings|;
    assert (n % WORD64 + BATCH) % WORD64 == (n + BATCH) % WORD64;
  }

  lemma NextMiss(l: Local)
    requires LocalSound(l)
    ensures var n := (l.tlsMisses + 1) % WORD32;
      && n == (l.misses + 1) % WORD32
      && n % BATCH == (l.misses + 1) % BATCH
      && n % SENTINEL_PERIOD == (l.misses + 1) % SENTINEL_PERIOD
      && l.tlsMisses % BATCH == l.misses % BATCH
  {
    LowPart(l.misses);
    LowPart(l.misses + 1);
  }

  /** Reducing modulo 2^32 keeps the remainders by 64 and by 4096. */
  lemma LowPart(n: nat)
    ensures (n % WORD32) % BATCH == n % BATCH
    ensures (n % WORD32) % SENTINEL_PERIOD == n % SENTINEL_PERIOD
  {
    var q, r := n / WORD32, n % WORD32;
    assert n == BATCH * (0x400_0000 * q) + r;
    assert n == SENTINEL_PERIOD * (0x10_0000 * q) + r;
    Remainder(BATCH, 0x400_0000 * q, r);
    Remainder(SENTINEL_PERIOD, 0x10_0000 * q, r);
  }

  lemma Remainder(m: nat, q: nat, r: nat)
    requires m == BATCH || m == SENTINEL_PERIOD
    ensures (m * q + r) % m == r % m
  {
  }

  lemma HitLocal(l: Local, l': Local)
    requires LocalSound(l)
    requires l' == l.(tlsHits := if l.tlsHits + 1 >= BATCH then 0 else l.tlsHits + 1, hits := l.hits + 1)
    ensures LocalSound(l')
    ensures Value(l', LocalHits) + (if l.tlsHits + 1 >= BATCH then BATCH else 0) == Value(l, LocalHits) + 1
  {
  }

  lemma HitShared(s: State, t: nat)
    requires Inv(s) && t < |s.threads|
    ensures var s', publish := HitStep(s, t), s.threads[t].tlsHits + 1 >= BATCH;
      && s'.hits.Sound() && s'.hits.InBatches()
      && s'.hits.Total() == s.hits.Total() + (if publish then BATCH else 0)
  {
    assert LocalSound(s.threads[t]);
    AddIsCounted(s.hits, BATCH);
    BatchAdd(s.hits);
  }

  lemma HitKeeps(s: State, t: nat)
    requires Inv(s) && t < |s.threads|
    ensures Inv(HitStep(s, t))
  {
    hide LocalSound, Counter.Sound, Counter.InBatches, Counter.Total, Counter.FetchAdd;
    var l, s' := s.threads[t], HitStep(s, t);
    assert LocalSound(l);
    HitLocal(l, s'.threads[t]);
    HitShared(s, t);
    SumUpdate(s.threads, t, s'.threads[t], LocalHits);
    SumUpdate(s.threads, t, s'.threads[t], AllHits);
    SumUpdate(s.threads, t, s'.threads[t], LocalMisses);
    SumUpdate(s.threads, t, s'.threads[t], AllMisses);
    SumUpdate(s.threads, t, s'.threads[t], Sentinels);
  }

  lemma MissLocal(l: Local, l': Local)
    requires LocalSound(l)
    requires var n := (l.tlsMisses + 1) % WORD32;
      l' == l.(tlsMisses := n, misses := l.misses + 1, sentinels := l.sentinels + if n % SENTINEL_PERIOD == 0 then 1 else 0)
    ensures LocalSound(l')
    ensures Value(l', LocalMisses) + (if l'.tlsMisses % BATCH == 0 then BATCH else 0) == Value(l, LocalMisses) + 1
  {
    NextMiss(l);
  }

  lemma MissShared(s: State, t: nat, found: bool)
    requires Inv(s) && t < |s.threads|
    ensures var s', n := MissStep(s, t, found), (s.threads[t].tlsMisses + 1) % WORD32;
      && s'.misses.Sound() && s'.ghosts.Sound() && s'.reals.Sound() && s'.misses.InBatches()
      && s'.misses.Total() == s.misses.Total() + (if n % BATCH == 0 then BATCH else 0)
      && s'.ghosts.Total() + s'.reals.Total()
         == s.ghosts.Total() + s.reals.Total() + (if n % SENTINEL_PERIOD == 0 then 1 else 0)
  {
    AddIsCounted(s.misses, BATCH);
    AddIsCounted(s.ghosts, 1);
    AddIsCounted(s.reals, 1);
    BatchAdd(s.misses);
  }

  lemma MissKeeps(s: State, t: nat, found: bool)
    requires Inv(s) && t < |s.threads|
    ensures Inv(MissStep(s, t, found))
  {
    hide LocalSound, Counter.Sound, Counter.InBatches, Counter.Total, Counter.FetchAdd;
    var l, s' := s.threads[t], MissStep(s, t, found);
    assert LocalSound(l);
    MissLocal(l, s'.threads[t]);
    MissShared(s, t, found);
    SumUpdate(s.threads, t, s'.threads[t], LocalHits);
    SumUpdate(s.threads, t, s'.threads[t], AllHits);
    SumUpdate(s.threads, t, s'.threads[t], LocalMisses);
    SumUpdate(s.threads, t, s'.threads[t], AllMisses);
    SumUpdate(s.threads, t, s'.threads[t], Sentinels);
  }

  lemma DrainKeeps(s: State, of: Tally)
    requires Inv(s)
    ensures Inv(Apply(s, Drain(of)))
  {
    hide Sum, LocalSound;
  }

  lemma {:induction false} AlwaysInv(n: nat, events: seq<Event>)
    ensures Inv(After(n, events))
  {
    if events == [] {
      forall f: Figure
        ensures Sum(After(n, []).threads, f) == 0
      {
        SumOfZeros(After(n, []).threads, f);
      }
    } else {
      AlwaysInv(n, events[..|events| - 1]);
      var s := After(n, events[..|events| - 1]);
      match events[|events| - 1]
      case Hit(t) => if t < |s.threads| { HitKeeps(s, t); }
      case Miss(t, found) => if t < |s.threads| { MissKeeps(s, t, found); }
      case Drain(of) => DrainKeeps(s, of);
    }
  }

  // ---- Main results ----

  /** Nothing is lost: drained, shared and thread-local counts add up to all the
      hits and misses there were, modulo 2^64 and exactly below 2^64. */
  lemma CountsAreConserved(n: nat, events: seq<Event>)
    ensures var s := After(n, events);
      && SameCount(s.hits.drained + s.hits.now + Sum(s.threads, LocalHits), Sum(s.threads, AllHits))
      && SameCount(s.misses.drained + s.misses.now + Sum(s.threads, LocalMisses), Sum(s.threads, AllMisses))
      && SameCount(s.ghosts.drained + s.ghosts.now + s.reals.drained + s.reals.now, Sum(s.threads, Sentinels))
  {
    hide After, Inv, Sum, SameCount;
    AlwaysInv(n, events);
    InvConserves(After(n, events));
  }

  lemma InvConserves(s: State)
    requires Inv(s)
    ensures SameCount(s.hits.drained + s.hits.now + Sum(s.threads, LocalHits), Sum(s.threads, AllHits))
    ensures SameCount(s.misses.drained + s.misses.now + Sum(s.threads, LocalMisses), Sum(s.threads, AllMisses))
    ensures SameCount(s.ghosts.drained + s.ghosts.now + s.reals.drained + s.reals.now, Sum(s.threads, Sentinels))
  {
    hide SameCount, Sum;
    OffByWords(s.hits.drained + s.hits.now + Sum(s.threads, LocalHits), s.hits.wrapped);
    OffByWords(s.misses.drained + s.misses.now + Sum(s.threads, LocalMisses), s.misses.wrapped);
    SumOfMultiples(s.ghosts.wrapped, s.reals.wrapped);
    OffByWords(s.ghosts.drained + s.ghosts.now + s.reals.drained + s.reals.now, s.ghosts.wrapped + s.reals.wrapped);
  }

  predicate SameCount(counted: nat, actual: nat) {
    && counted % 0x1_0000_0000_0000_0000 == actual % 0x1_0000_0000_0000_0000
    && counted <= actual
    && (actual < 0x1_0000_0000_0000_0000 ==> counted == actual)
  }

  lemma OffByWords(counted: nat, wrapped: nat)
    requires wrapped % WORD64 == 0
    ensures SameCount(counted, counted + wrapped)
  {
    assert wrapped == WORD64 * (wrapped / WORD64);
    assert (counted + WORD64 * (wrapped / WORD64)) % WORD64 == counted % WORD64;
  }

  /** Published totals are always whole batches. */
  lemma PublishedInBatches(n: nat, events: seq<Event>)
    ensures After(n, events).hits.now % 64 == 0 && After(n, events).misses.now % 64 == 0
  {
    AlwaysInv(n, events);
    BatchMultiple(|After(n, events).hits.readings|);
    BatchMultiple(|After(n, events).misses.readings|);
  }

  lemma BatchMultiple(k: nat)
    ensures ((BATCH * k) % WORD64) % BATCH == 0
  {
    var m := BATCH * k;
    assert m == BATCH * (0x400_0000_0000_0000 * (m / WORD64)) + m % WORD64;
    Remainder(BATCH, 0x400_0000_0000_0000 * (m / WORD64), m % WORD64);
    Remainder(BATCH, k, 0);
  }

  /** Every thread has called the sentinel on exactly every 4096th miss. */
  lemma SentinelEvery4096(n: nat, events: seq<Event>, t: nat)
    requires t < |After(n, events).threads|
    ensures var l := After(n, events).threads[t]; l.sentinels == l.misses / 4096
  {
    AlwaysInv(n, events);
    assert LocalSound(After(n, events).threads[t]);
  }

  /** The gate opens on a publish exactly when its number since the last drain
      is a multiple of 256, wrap-around included. */
  lemma GateEvery256(k: nat)
    ensures GateOpen((BATCH * k) % WORD64) <==> k % 256 == 0
  {
    var m := BATCH * k;
    var r := m % WORD64;
    assert m == GATE_PERIOD * (0x4_0000_0000_0000 * (m / WORD64)) + r;
    GateRemainder(0x4_0000_0000_0000 * (m / WORD64), r);
    assert m % GATE_PERIOD == BATCH * (k % 256) by {
      assert m == GATE_PERIOD * (k / 256) + BATCH * (k % 256);
      GateRemainder(k / 256, BATCH * (k % 256));
    }
  }

  lemma GateRemainder(q: nat, r: nat)
    ensures (GATE_PERIOD * q + r) % GATE_PERIOD == r % GATE_PERIOD
  {
  }

  lemma MultipleOf256(from: nat) returns (k: nat)
    ensures from <= k < from + 256 && k % 256 == 0
    ensures forall j :: from <= j < from + 256 && j % 256 == 0 ==> j == k
  {
    k := (from + 255) / 256 * 256;
  }

  /** Among any 256 consecutive publishes without a drain, exactly one finds the
      gate open. */
  lemma GateOnceIn256(n: nat, events: seq<Event>, c: Counter, from: nat) returns (k: nat)
    requires c == After(n, events).hits || c == After(n, events).misses
    requires from + 256 <= |c.readings|
    ensures from <= k < from + 256 && GateOpen(c.readings[k])
    ensures forall j :: from <= j < from + 256 && GateOpen(c.readings[j]) ==> j == k
  {
    AlwaysInv(n, events);
    k := OneOpen(c, from);
  }

  lemma OneOpen(c: Counter, from: nat) returns (k: nat)
    requires c.InBatches() && from + 256 <= |c.readings|
    ensures from <= k < from + 256 && GateOpen(c.readings[k])
    ensures forall j :: from <= j < from + 256 && GateOpen(c.readings[j]) ==> j == k
  {
    hide GateOpen;
    k := MultipleOf256(from);
    GateEvery256(k);
    forall j | from <= j < from + 256 && GateOpen(c.readings[j])
      ensures j == k
    {
      GateEvery256(j);
    }
  }

  // ---- Told by the events alone ----

  function MissesBy(events: seq<Event>, t: nat): nat {
    multiset(events)[Miss(t, true)] + multiset(events)[Miss(t, false)]
  }

  /** How many of the events are a thread's 4096th, 8192nd, .. miss with this
      verdict of the original. */
  function SentinelsWith(n: nat, events: seq<Event>, found: bool): nat {
    if events == [] then 0
    else
      var last := events[|events| - 1];
      SentinelsWith(n, events[..|events| - 1], found) +
      if last.Miss? && last.t < n && last.found == found && MissesBy(events, last.t) % 4096 == 0 then 1 else 0
  }

  lemma EventsPush(events: seq<Event>, e: Event)
    requires events != []
    ensures multiset(events)[e] == multiset(events[..|events| - 1])[e] + if events[|events| - 1] == e then 1 else 0
  {
    assert events == events[..|events| - 1] + [events[|events| - 1]];
  }

  /** A thread's totals are its hits and misses among the events. */
  lemma {:induction false} TotalsAreEvents(n: nat, events: seq<Event>, t: nat)
    requires t < n
    ensures |After(n, events).threads| == n
    ensures After(n, events).threads[t].hits == multiset(events)[Hit(t)]
    ensures After(n, events).threads[t].misses == MissesBy(events, t)
  {
    hide Counter.FetchAdd, Counter.Exchange;
    if events == [] {
    } else {
      TotalsAreEvents(n, events[..|events| - 1], t);
      EventsPush(events, Hit(t));
      EventsPush(events, Miss(t, true));
      EventsPush(events, Miss(t, false));
    }
  }

  lemma VerdictStep(s: State, t: nat, found: bool)
    requires Inv(s) && t < |s.threads|
    ensures var s', calls := MissStep(s, t, found), (s.threads[t].misses + 1) % SENTINEL_PERIOD == 0;
      && s'.reals.Total() == s.reals.Total() + (if calls && found then 1 else 0)
      && s'.ghosts.Total() == s.ghosts.Total() + (if calls && !found then 1 else 0)
  {
    assert LocalSound(s.threads[t]);
    NextMiss(s.threads[t]);
    AddIsCounted(s.ghosts, 1);
    AddIsCounted(s.reals, 1);
  }

  lemma {:induction false} VerdictTotals(n: nat, events: seq<Event>)
    ensures After(n, events).reals.Total() == SentinelsWith(n, events, true)
    ensures After(n, events).ghosts.Total() == SentinelsWith(n, events, false)
  {
    hide Counter.FetchAdd, MissStep, HitStep, Inv, MissesBy;
    if events == [] {
    } else {
      var front, last := events[..|events| - 1], events[|events| - 1];
      var s := After(n, front);
      AlwaysInv(n, front);
      VerdictTotals(n, front);
      ThreadCount(n, front);
      match last
      case Hit(t) => HitVerdicts(s, t);
      case Miss(t, found) =>
        if t < n {
          VerdictStep(s, t, found);
          TotalsAreEvents(n, front, t);
          NextMissBy(events, t);
        }
      case Drain(_) =>
    }
  }

  lemma NextMissBy(events: seq<Event>, t: nat)
    requires events != [] && events[|events| - 1].Miss? && events[|events| - 1].t == t
    ensures MissesBy(events, t) == MissesBy(events[..|events| - 1], t) + 1
  {
    EventsPush(events, Miss(t, true));
    EventsPush(events, Miss(t, false));
  }

  lemma HitVerdicts(s: State, t: nat)
    ensures Apply(s, Hit(t)).reals == s.reals && Apply(s, Hit(t)).ghosts == s.ghosts
  {
  }

  lemma {:induction false} ThreadCount(n: nat, events: seq<Event>)
    ensures |After(n, events).threads| == n
  {
    hide Counter.FetchAdd, Counter.Exchange;
    if events == [] {
    } else {
      ThreadCount(n, events[..|events| - 1]);
    }
  }

  /** What the sentinel counts: real misses are the sentinel calls that the original
      would have answered, ghost misses are the others, drained or not. */
  lemma SentinelVerdicts(n: nat, events: seq<Event>)
    ensures var s := After(n, events);
      && SameCount(s.reals.drained + s.reals.now, SentinelsWith(n, events, true))
      && SameCount(s.ghosts.drained + s.ghosts.now, SentinelsWith(n, events, false))
  {
    hide After, SameCount, SentinelsWith;
    AlwaysInv(n, events);
    VerdictTotals(n, events);
    var s := After(n, events);
    OffByWords(s.reals.drained + s.reals.now, s.reals.wrapped);
    OffByWords(s.ghosts.drained + s.ghosts.now, s.ghosts.wrapped);
  }
}
