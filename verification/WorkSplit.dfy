/** The render-pass work splitter: the array of tasks is cut into pieces, each thread
    claims a piece, and the job records which passes each task appended. */
module WorkSplit {
  /** A stretch of the array of tasks. */
  datatype Span = Span(lo: nat, hi: nat) {
    predicate Has(i: nat) { lo <= i < hi }
  }

  // ---- SplitInterval ----

  /** The spans follow each other without gap or overlap from 0 to `len`. */
  predicate Tiles(spans: seq<Span>, len: nat) {
    && spans != [] && spans[0].lo == 0 && spans[|spans| - 1].hi == len
    && (forall p :: 0 <= p < |spans| ==> spans[p].lo <= spans[p].hi)
    && (forall p, q :: 0 <= p && q == p + 1 < |spans| ==> spans[p].hi == spans[q].lo)
  }

  /** `n` tiles of one size, but for the last, which takes the remainder too. */
  predicate Split(spans: seq<Span>, n: nat, len: nat) {
    && 0 < n == |spans| && Tiles(spans, len)
    && (forall p :: 0 <= p < n - 1 ==> spans[p].hi - spans[p].lo == len / n)
    && spans[n - 1].hi - spans[n - 1].lo == len / n + len % n
  }

  method SplitInterval(n: nat, len: nat) returns (result: seq<Span>)
    requires n > 0
    ensures Split(result, n, len)
  {
    var size: nat := len / n;
    Multiples(n, size);
    assert size * n + len % n == len;
    result := seq(n, _ => Span(0, 0));
    for i := 0 to n - 1
      invariant |result| == n
      invariant forall p :: 0 <= p < i ==> result[p] == Span(p * size, (p + 1) * size)
    {
      result := result[i := Span(i * size, (i + 1) * size)];
    }
    result := result[n - 1 := Span((n - 1) * size, len)];
  }

  lemma Multiples(n: nat, size: nat)
    ensures forall p: nat :: (p + 1) * size == p * size + size
    ensures n > 0 ==> (n - 1) * size + size == size * n
  {
  }

  function Joined<T>(spans: seq<Span>, s: seq<T>): seq<T>
    requires forall p :: 0 <= p < |spans| ==> spans[p].lo <= spans[p].hi <= |s|
  {
    if spans == [] then []
    else Joined(spans[..|spans| - 1], s) + s[spans[|spans| - 1].lo..spans[|spans| - 1].hi]
  }

  lemma {:induction false} TilesBounded(spans: seq<Span>, len: nat)
    requires Tiles(spans, len)
    ensures forall p :: 0 <= p < |spans| ==> spans[p].hi <= len
  {
    if |spans| <= 1 {
    } else {
      var n := |spans| - 1;
      assert spans[n - 1].hi == spans[n].lo;
      TilesBounded(spans[..n], spans[n].lo);
    }
  }

  /** The pieces put together are the whole. */
  lemma {:induction false} TilesJoin<T>(spans: seq<Span>, s: seq<T>)
    requires Tiles(spans, |s|)
    ensures forall p :: 0 <= p < |spans| ==> spans[p].lo <= spans[p].hi <= |s|
    ensures Joined(spans, s) == s
  {
    TilesBounded(spans, |s|);
    var n := |spans| - 1;
    var lo := spans[n].lo;
    assert s == s[..lo] + s[lo..];
    if n == 0 {
    } else {
      assert spans[n - 1].hi == lo;
      TilesJoin(spans[..n], s[..lo]);
      JoinedInside(spans[..n], s, lo);
    }
  }

  lemma {:induction false} JoinedInside<T>(spans: seq<Span>, s: seq<T>, len: nat)
    requires len <= |s| && forall p :: 0 <= p < |spans| ==> spans[p].lo <= spans[p].hi <= len
    ensures Joined(spans, s[..len]) == Joined(spans, s)
  {
    if spans == [] {
    } else {
      var n := |spans| - 1;
      JoinedInside(spans[..n], s, len);
      assert s[..len][spans[n].lo..spans[n].hi] == s[spans[n].lo..spans[n].hi];
    }
  }

  /** Every task lies in exactly one piece. */
  lemma {:induction false} PieceOf(spans: seq<Span>, len: nat, i: nat) returns (p: nat)
    requires Tiles(spans, len) && i < len
    ensures p < |spans| && forall q :: 0 <= q < |spans| ==> (spans[q].Has(i) <==> q == p)
    decreases |spans|
  {
    var n := |spans| - 1;
    TilesBounded(spans, len);
    if n == 0 {
    } else {
      assert spans[n - 1].hi == spans[n].lo;
      TilesBounded(spans[..n], spans[n].lo);
      if i < spans[n].lo {
        p := PieceOf(spans[..n], spans[n].lo, i);
        forall q | 0 <= q < |spans|
          ensures spans[q].Has(i) <==> q == p
        {
          if q < n {
            assert spans[..n][q] == spans[q];
          }
        }
        return;
      }
      assert forall q :: 0 <= q < n ==> spans[..n][q] == spans[q];
    }
    p := n;
  }

  // ---- Claiming ----

  /** The piece a caller gets when `idx` pieces went to workers before, and the
      new count: the owner gets the last piece, a worker the next one. */
  function Claim(n: nat, tid: nat, idx: nat, me: nat): (nat, nat)
    requires n > 0
  {
    if me == tid then (n - 1, idx) else (idx, idx + 1)
  }

  class WorkManager {
    var tid: nat
    var tasks: seq<Span>
    var idx: nat

    constructor ()
      ensures tasks == [] && idx == 0
    {
      tid, tasks, idx := 0, [], 0;
    }

    /** Splits `len` tasks among `n` threads, of which the caller is one. */
    method Reset(n: nat, me: nat, len: nat)
      requires n > 0
      modifies this
      ensures tid == me && idx == 0 && Split(tasks, n, len)
    {
      tid := me;
      tasks := SplitInterval(n, len);
      idx := 0;
    }

    /** At most n - 1 claims are made by workers. */
    method GetWork(me: nat) returns (work: Span)
      requires tasks != [] && (me != tid ==> idx < |tasks| - 1)
      modifies this`idx
      ensures (work, idx) == (var (p, next) := Claim(|tasks|, tid, old(idx), me); (tasks[p], next))
    {
      if me == tid {
        work := tasks[|tasks| - 1];
      } else {
        work := tasks[idx];
        idx := idx + 1;
      }
    }
  }

  function Workers(tid: nat, callers: seq<nat>): nat {
    if callers == [] then 0
    else Workers(tid, callers[..|callers| - 1]) + if callers[|callers| - 1] == tid then 0 else 1
  }

  /** The pieces that `callers` claim, in the order in which they come, and the
      manager's count afterwards. */
  function ClaimAll(n: nat, tid: nat, callers: seq<nat>): (seq<nat>, nat)
    requires n > 0
  {
    if callers == [] then ([], 0)
    else
      var (pieces, idx) := ClaimAll(n, tid, callers[..|callers| - 1]);
      var (p, next) := Claim(n, tid, idx, callers[|callers| - 1]);
      (pieces + [p], next)
  }

  function Claims(n: nat, tid: nat, callers: seq<nat>): seq<nat>
    requires n > 0
  {
    ClaimAll(n, tid, callers).0
  }

  function Times(pieces: seq<nat>, p: nat): nat { multiset(pieces)[p] }

  /** Whatever the order, workers get the first pieces once each and the owner
      gets the last one each time. */
  lemma {:induction false} ClaimedTimes(n: nat, tid: nat, callers: seq<nat>, p: nat)
    requires 0 < n && p < n && Workers(tid, callers) < n
    ensures ClaimAll(n, tid, callers).1 == Workers(tid, callers)
    ensures Times(Claims(n, tid, callers), p) ==
      if p == n - 1 then |callers| - Workers(tid, callers) else if p < Workers(tid, callers) then 1 else 0
  {
    if callers == [] {
    } else {
      ClaimedTimes(n, tid, callers[..|callers| - 1], p);
    }
  }

  /** How often task `i` is run. */
  function Runs(spans: seq<Span>, pieces: seq<nat>, i: nat): nat
    requires forall k :: 0 <= k < |pieces| ==> pieces[k] < |spans|
  {
    if pieces == [] then 0
    else Runs(spans, pieces[..|pieces| - 1], i) + if spans[pieces[|pieces| - 1]].Has(i) then 1 else 0
  }

  lemma {:induction false} RunsOfPiece(spans: seq<Span>, pieces: seq<nat>, i: nat, p: nat)
    requires forall k :: 0 <= k < |pieces| ==> pieces[k] < |spans|
    requires p < |spans| && forall q :: 0 <= q < |spans| ==> (spans[q].Has(i) <==> q == p)
    ensures Runs(spans, pieces, i) == Times(pieces, p)
  {
    if pieces == [] {
    } else {
      RunsOfPiece(spans, pieces[..|pieces| - 1], i, p);
      assert pieces == pieces[..|pieces| - 1] + [pieces[|pieces| - 1]];
    }
  }

  lemma {:induction false} ClaimsInRange(n: nat, tid: nat, callers: seq<nat>)
    requires 0 < n && Workers(tid, callers) < n
    ensures ClaimAll(n, tid, callers).1 == Workers(tid, callers)
    ensures forall k :: 0 <= k < |Claims(n, tid, callers)| ==> Claims(n, tid, callers)[k] < n
  {
    if callers == [] {
    } else {
      var before := callers[..|callers| - 1];
      ClaimsInRange(n, tid, before);
      assert Claims(n, tid, callers) == Claims(n, tid, before) + [Claim(n, tid, Workers(tid, before), callers[|callers| - 1]).0];
    }
  }

  ghost predicate EachRunsOnce(spans: seq<Span>, pieces: seq<nat>, len: nat)
    requires forall k :: 0 <= k < |pieces| ==> pieces[k] < |spans|
  {
    forall i: nat :: i < len ==> Runs(spans, pieces, i) == 1
  }

  lemma PieceCount(n: nat, spans: seq<Span>, len: nat)
    requires Split(spans, n, len)
    ensures |spans| == n > 0 && Tiles(spans, len)
  {
  }

  lemma SmallPieces(n: nat, spans: seq<Span>, len: nat, p: nat)
    requires Split(spans, n, len) && len < n && p < n - 1
    ensures spans[p].lo == spans[p].hi
  {
    assert len / n == 0;
  }

  lemma RunsAre(n: nat, tid: nat, callers: seq<nat>, spans: seq<Span>, len: nat, i: nat) returns (p: nat)
    requires 0 < n == |spans| && Split(spans, n, len) && Workers(tid, callers) < n && i < len
    ensures forall k :: 0 <= k < |Claims(n, tid, callers)| ==> Claims(n, tid, callers)[k] < |spans|
    ensures p < n && spans[p].Has(i) && (len < n ==> p == n - 1)
    ensures Runs(spans, Claims(n, tid, callers), i) ==
      if p == n - 1 then |callers| - Workers(tid, callers) else if p < Workers(tid, callers) then 1 else 0
  {
    hide Claims, ClaimAll, Workers, Runs, Times, Split, Tiles;
    PieceCount(n, spans, len);
    ClaimsInRange(n, tid, callers);
    p := PieceOf(spans, len, i);
    RunsOfPiece(spans, Claims(n, tid, callers), i, p);
    ClaimedTimes(n, tid, callers, p);
    if len < n && p < n - 1 {
      SmallPieces(n, spans, len, p);
    }
  }

  lemma TaskOfPiece(n: nat, spans: seq<Span>, len: nat, p: nat)
    requires Split(spans, n, len) && p < n && (len >= n || (len > 0 && p == n - 1))
    ensures spans[p].lo < len && forall q :: 0 <= q < n ==> (spans[q].Has(spans[p].lo) <==> q == p)
  {
    if len >= n {
      DivPositive(len, n);
    }
    TilesBounded(spans, len);
    var q := PieceOf(spans, len, spans[p].lo);
    assert spans[p].Has(spans[p].lo);
  }

  lemma DivPositive(len: nat, n: nat)
    requires len >= n > 0
    ensures len / n > 0
  {
  }

  /** Exactly-once, exactly: for any order of the callers, every task runs once if
      and only if the owner claims once and all n - 1 workers do; with fewer tasks
      than threads only the owner's claim matters, and with none nothing does. */
  lemma EachTaskOnce(n: nat, tid: nat, callers: seq<nat>, spans: seq<Span>, len: nat)
    requires |spans| == n && Split(spans, n, len) && Workers(tid, callers) < n
    ensures forall k :: 0 <= k < |Claims(n, tid, callers)| ==> Claims(n, tid, callers)[k] < |spans|
    ensures EachRunsOnce(spans, Claims(n, tid, callers), len) <==>
      && (len > 0 ==> |callers| - Workers(tid, callers) == 1)
      && (len >= n ==> Workers(tid, callers) == n - 1)
  {
    hide Claims, ClaimAll, Workers, Runs, Split, Span.Has;
    PieceCount(n, spans, len);
    ClaimsInRange(n, tid, callers);
    var pieces, w := Claims(n, tid, callers), Workers(tid, callers);
    if EachRunsOnce(spans, pieces, len) {
      if len > 0 {
        TaskOfPiece(n, spans, len, n - 1);
        var p := RunsAre(n, tid, callers, spans, len, spans[n - 1].lo);
      }
      if len >= n && w < n - 1 {
        TaskOfPiece(n, spans, len, w);
        var p := RunsAre(n, tid, callers, spans, len, spans[w].lo);
      }
    } else {
      var i: nat :| i < len && Runs(spans, pieces, i) != 1;
      var p := RunsAre(n, tid, callers, spans, len, i);
    }
  }

  // ---- RegisterObjects ----

  /** A task: what it draws, and the passes it registered, as positions in the
      job that ran it. */
  datatype Task = Task(id: nat, owner: nat, batchIndex: nat, batchCount: nat, groupIndex: nat, groupCount: nat)

  datatype Appended = Appended(batch: seq<nat>, group: seq<nat>)

  class JobData {
    const id: nat
    var batchPasses: seq<nat>
    var groupPasses: seq<nat>

    constructor (id: nat)
      ensures this.id == id && batchPasses == [] && groupPasses == []
    {
      this.id := id;
      batchPasses, groupPasses := [], [];
    }

    /** The engine's Execute: it appends the passes of one task. */
    method ExecuteTask(exec: nat -> Appended, id: nat)
      modifies this
      ensures batchPasses == old(batchPasses) + exec(id).batch
      ensures groupPasses == old(groupPasses) + exec(id).group
    {
      batchPasses := batchPasses + exec(id).batch;
      groupPasses := groupPasses + exec(id).group;
    }
  }

  /** The recorded ranges of tasks `lo` to `hi` follow each other from `b0` and
      `g0` to `b1` and `g1`. */
  predicate RangesTile(tasks: seq<Task>, lo: nat, hi: nat, b0: nat, g0: nat, b1: nat, g1: nat)
    requires lo <= hi <= |tasks|
  {
    if lo == hi then b0 == b1 && g0 == g1
    else
      var t := tasks[hi - 1];
      && t.batchIndex + t.batchCount == b1 && t.groupIndex + t.groupCount == g1
      && RangesTile(tasks, lo, hi - 1, b0, g0, t.batchIndex, t.groupIndex)
  }

  /** Task `t`, run by job `owner`, points at the passes that it appended. */
  predicate Registered(t: Task, was: Task, owner: nat, exec: nat -> Appended, batch: seq<nat>, group: seq<nat>) {
    && t.id == was.id && t.owner == owner
    && t.batchIndex + t.batchCount <= |batch| && t.groupIndex + t.groupCount <= |group|
    && batch[t.batchIndex..t.batchIndex + t.batchCount] == exec(t.id).batch
    && group[t.groupIndex..t.groupIndex + t.groupCount] == exec(t.id).group
  }

  lemma RangesTileAlike(a: seq<Task>, b: seq<Task>, lo: nat, hi: nat, b0: nat, g0: nat, b1: nat, g1: nat)
    requires lo <= hi <= |a| && hi <= |b| && a[lo..hi] == b[lo..hi]
    requires RangesTile(a, lo, hi, b0, g0, b1, g1)
    ensures RangesTile(b, lo, hi, b0, g0, b1, g1)
  {
    if lo < hi {
      var t := a[hi - 1];
      assert t == a[lo..hi][hi - 1 - lo] == b[lo..hi][hi - 1 - lo];
      assert a[lo..hi - 1] == a[lo..hi][..hi - 1 - lo] == b[lo..hi - 1];
      RangesTileAlike(a, b, lo, hi - 1, b0, g0, t.batchIndex, t.groupIndex);
    }
  }

  method RegisterTask(tasks: array<Task>, i: nat, job: JobData, exec: nat -> Appended)
    requires i < tasks.Length
    modifies tasks, job
    ensures tasks[..] == old(tasks[..])[i := tasks[i]]
    ensures old(job.batchPasses) <= job.batchPasses && old(job.groupPasses) <= job.groupPasses
    ensures Registered(tasks[i], old(tasks[i]), job.id, exec, job.batchPasses, job.groupPasses)
    ensures tasks[i].batchIndex == |old(job.batchPasses)| && tasks[i].batchIndex + tasks[i].batchCount == |job.batchPasses|
    ensures tasks[i].groupIndex == |old(job.groupPasses)| && tasks[i].groupIndex + tasks[i].groupCount == |job.groupPasses|
  {
    tasks[i] := tasks[i].(owner := job.id, batchIndex := |job.batchPasses|, groupIndex := |job.groupPasses|);
    job.ExecuteTask(exec, tasks[i].id);
    tasks[i] := tasks[i].(
      batchCount := |job.batchPasses| - tasks[i].batchIndex, groupCount := |job.groupPasses| - tasks[i].groupIndex);
  }

  /** Runs the claimed tasks: afterwards each points at exactly the passes that it
      appended, and the ranges tile what the job gained. */
  method RegisterObjects(tasks: array<Task>, work: Span, job: JobData, exec: nat -> Appended)
    requires work.lo <= work.hi <= tasks.Length
    modifies tasks, job
    ensures old(job.batchPasses) <= job.batchPasses && old(job.groupPasses) <= job.groupPasses
    ensures forall i :: 0 <= i < tasks.Length && !work.Has(i) ==> tasks[i] == old(tasks[i])
    ensures forall i :: work.lo <= i < work.hi ==>
      Registered(tasks[i], old(tasks[i]), job.id, exec, job.batchPasses, job.groupPasses)
    ensures RangesTile(tasks[..], work.lo, work.hi,
      |old(job.batchPasses)|, |old(job.groupPasses)|, |job.batchPasses|, |job.groupPasses|)
  {
    hide Registered;
    for i := work.lo to work.hi
      invariant old(job.batchPasses) <= job.batchPasses && old(job.groupPasses) <= job.groupPasses
      invariant forall j :: 0 <= j < tasks.Length && !(work.lo <= j < i) ==> tasks[j] == old(tasks[j])
      invariant forall j :: work.lo <= j < i ==>
        Registered(tasks[j], old(tasks[j]), job.id, exec, job.batchPasses, job.groupPasses)
      invariant RangesTile(tasks[..], work.lo, i,
        |old(job.batchPasses)|, |old(job.groupPasses)|, |job.batchPasses|, |job.groupPasses|)
    {
      ghost var before, batch, group := tasks[..], job.batchPasses, job.groupPasses;
      RegisterTask(tasks, i, job, exec);
      assert before[work.lo..i] == tasks[..][work.lo..i];
      RangesTileAlike(before, tasks[..], work.lo, i, |old(job.batchPasses)|, |old(job.groupPasses)|, |batch|, |group|);
      forall j | work.lo <= j < i
        ensures Registered(tasks[j], old(tasks[j]), job.id, exec, job.batchPasses, job.groupPasses)
      {
        assert tasks[j] == before[j];
        StillRegistered(before[j], old(tasks[j]), job.id, exec, batch, group, job.batchPasses, job.groupPasses);
      }
    }
  }

  lemma StillRegistered(t: Task, was: Task, owner: nat, exec: nat -> Appended, b: seq<nat>, g: seq<nat>, b': seq<nat>, g': seq<nat>)
    requires Registered(t, was, owner, exec, b, g) && b <= b' && g <= g'
    ensures Registered(t, was, owner, exec, b', g')
  {
    assert b'[t.batchIndex..t.batchIndex + t.batchCount] == b[t.batchIndex..t.batchIndex + t.batchCount];
    assert g'[t.groupIndex..t.groupIndex + t.groupCount] == g[t.groupIndex..t.groupIndex + t.groupCount];
  }

  // ---- One pass over all jobs ----

  lemma ClaimsGrow(n: nat, tid: nat, callers: seq<nat>, k: nat)
    requires 0 < n && k < |callers|
    ensures ClaimAll(n, tid, callers[..k + 1]) ==
      var (pieces, idx) := ClaimAll(n, tid, callers[..k]);
      var (p, next) := Claim(n, tid, idx, callers[k]);
      (pieces + [p], next)
  {
    assert callers[..k + 1][..k] == callers[..k];
  }

  lemma {:induction false} WorkersPrefix(tid: nat, callers: seq<nat>, k: nat)
    requires k <= |callers|
    ensures Workers(tid, callers[..k]) <= Workers(tid, callers)
    ensures |callers[..k]| - Workers(tid, callers[..k]) <= |callers| - Workers(tid, callers)
    decreases |callers| - k
  {
    if k == |callers| {
      assert callers[..k] == callers;
    } else {
      WorkersPrefix(tid, callers, k + 1);
      assert callers[..k + 1][..k] == callers[..k];
    }
  }

  /** A full set of callers, the owner and all n - 1 workers once each, never
      claims a piece twice. */
  lemma ClaimIsNew(n: nat, tid: nat, callers: seq<nat>, k: nat)
    requires 0 < n == |callers| && Workers(tid, callers) == n - 1 && k < n
    ensures ClaimAll(n, tid, callers[..k]).1 == Workers(tid, callers[..k]) < n
    ensures callers[k] != tid ==> Workers(tid, callers[..k]) < n - 1
    ensures var p := Claim(n, tid, Workers(tid, callers[..k]), callers[k]).0;
      p < n && p !in Claims(n, tid, callers[..k])
  {
    WorkersPrefix(tid, callers, k);
    WorkersPrefix(tid, callers, k + 1);
    ClaimsInRange(n, tid, callers[..k]);
    ClaimsGrow(n, tid, callers, k);
    assert callers[..k + 1][..k] == callers[..k];
    var before, p := Claims(n, tid, callers[..k]), Claim(n, tid, Workers(tid, callers[..k]), callers[k]).0;
    assert Claims(n, tid, callers[..k + 1]) == before + [p];
    ClaimedTimes(n, tid, callers[..k + 1], p);
    assert Times(before + [p], p) <= 1;
  }

  lemma OnePiece(spans: seq<Span>, len: nat, p: nat, q: nat, i: nat)
    requires Tiles(spans, len) && p < |spans| && q < |spans| && i < len
    requires spans[p].Has(i) && spans[q].Has(i)
    ensures p == q
  {
    var r := PieceOf(spans, len, i);
  }

  predicate RunBy(t: Task, was: Task, job: JobData, exec: nat -> Appended)
    reads job
  {
    Registered(t, was, job.id, exec, job.batchPasses, job.groupPasses)
  }

  predicate PiecesInRange(pieces: seq<nat>, n: nat) {
    forall q :: 0 <= q < |pieces| ==> pieces[q] < n
  }

  /** The tasks of the claimed pieces are run, each by the job that claimed its
      piece; the other tasks are as they were. */
  predicate RunSoFar(tasks: seq<Task>, was: seq<Task>, spans: seq<Span>, pieces: seq<nat>, jobs: seq<JobData>, exec: nat -> Appended)
    reads jobs
  {
    && |tasks| == |was| && |pieces| <= |jobs| && PiecesInRange(pieces, |spans|)
    && (forall i :: 0 <= i < |tasks| && (forall q :: 0 <= q < |pieces| ==> !spans[pieces[q]].Has(i)) ==> tasks[i] == was[i])
    && (forall q, i :: 0 <= q < |pieces| && 0 <= i < |tasks| && spans[pieces[q]].Has(i) ==> RunBy(tasks[i], was[i], jobs[q], exec))
  }

  predicate DistinctJobs(jobs: seq<JobData>) {
    forall i, j :: 0 <= i < j < |jobs| ==> jobs[i] != jobs[j] && jobs[i].id != jobs[j].id
  }

  /** One more job runs the piece `p`. */
  method RunPiece(tasks: array<Task>, ghost was: seq<Task>, ghost spans: seq<Span>, ghost pieces: seq<nat>, ghost p: nat,
    work: Span, jobs: seq<JobData>, k: nat, exec: nat -> Appended)
    requires RunSoFar(tasks[..], was, spans, pieces, jobs, exec) && DistinctJobs(jobs) && k == |pieces| < |jobs|
    requires Tiles(spans, tasks.Length) && p < |spans| && p !in pieces && work == spans[p]
    modifies tasks, jobs[k]
    ensures RunSoFar(tasks[..], was, spans, pieces + [p], jobs, exec)
  {
    hide Registered, RangesTile, Tiles;
    TilesBounded(spans, tasks.Length);
    TilesOrdered(spans, tasks.Length);
    ghost var before := tasks[..];
    ghost var all := pieces + [p];
    RegisterObjects(tasks, work, jobs[k], exec);
    forall i | 0 <= i < tasks.Length && spans[p].Has(i)
      ensures before[i] == was[i]
    {
      forall q | 0 <= q < k
        ensures !spans[pieces[q]].Has(i)
      {
        if spans[pieces[q]].Has(i) {
          OnePiece(spans, tasks.Length, p, pieces[q], i);
        }
      }
    }
    forall q, i | 0 <= q < |all| && 0 <= i < tasks.Length && spans[all[q]].Has(i)
      ensures RunBy(tasks[i], was[i], jobs[q], exec)
    {
      if q < k {
        if spans[p].Has(i) {
          OnePiece(spans, tasks.Length, p, pieces[q], i);
        }
        assert RunBy(before[i], was[i], jobs[q], exec);
      }
    }
    forall i | 0 <= i < tasks.Length && (forall q :: 0 <= q < |all| ==> !spans[all[q]].Has(i))
      ensures tasks[i] == was[i]
    {
      assert !spans[all[k]].Has(i);
      forall q | 0 <= q < k
        ensures !spans[pieces[q]].Has(i)
      {
        assert !spans[all[q]].Has(i);
      }
    }
  }

  lemma TilesOrdered(spans: seq<Span>, len: nat)
    requires Tiles(spans, len)
    ensures forall p :: 0 <= p < |spans| ==> spans[p].lo <= spans[p].hi
  {
  }

  /** Every piece is claimed by a full set of callers. */
  lemma AllClaimed(n: nat, tid: nat, callers: seq<nat>, p: nat)
    requires 0 < n == |callers| && Workers(tid, callers) == n - 1 && p < n
    ensures p in Claims(n, tid, callers)
  {
    ClaimedTimes(n, tid, callers, p);
    assert Times(Claims(n, tid, callers), p) == 1;
  }

  /** One of the jobs ran `t`, and no other did. */
  ghost predicate RunByOneOf(t: Task, was: Task, jobs: seq<JobData>, exec: nat -> Appended)
    reads jobs
  {
    exists q ::
      && 0 <= q < |jobs| && RunBy(t, was, jobs[q], exec)
      && forall j :: 0 <= j < |jobs| && j != q ==> t.owner != jobs[j].id
  }

  lemma AllRun(tasks: seq<Task>, was: seq<Task>, spans: seq<Span>, pieces: seq<nat>, jobs: seq<JobData>, exec: nat -> Appended, i: nat)
    requires RunSoFar(tasks, was, spans, pieces, jobs, exec) && DistinctJobs(jobs)
    requires Tiles(spans, |tasks|) && i < |tasks| && forall p :: 0 <= p < |spans| ==> p in pieces
    ensures RunByOneOf(tasks[i], was[i], jobs, exec)
  {
    var p := PieceOf(spans, |tasks|, i);
    assert p in pieces;
    var q :| 0 <= q < |pieces| && pieces[q] == p;
    assert RunBy(tasks[i], was[i], jobs[q], exec);
  }

  /** The owner and all workers, in any order, each with a job of its own, claim
      and run: afterwards every task of the array was run by exactly one job and
      points at exactly the passes that it appended there. */
  method RunJobs(manager: WorkManager, tasks: array<Task>, callers: seq<nat>, jobs: seq<JobData>, exec: nat -> Appended)
    requires Split(manager.tasks, |callers|, tasks.Length) && manager.idx == 0
    requires Workers(manager.tid, callers) == |callers| - 1
    requires |jobs| == |callers| && DistinctJobs(jobs)
    modifies manager`idx, tasks, jobs
    ensures forall i :: 0 <= i < tasks.Length ==> RunByOneOf(tasks[i], old(tasks[i]), jobs, exec)
  {
    hide Tiles, Workers, RunSoFar, Claims, ClaimAll, RunByOneOf, RunBy;
    var n := |callers|;
    ghost var spans, was, pieces := manager.tasks, tasks[..], [];
    PieceCount(n, spans, tasks.Length);
    NothingRun(was, spans, jobs, exec);
    NothingClaimed(n, manager.tid);
    assert callers[..0] == [];
    for k := 0 to n
      invariant manager.tasks == spans && manager.tid == old(manager.tid)
      invariant (pieces, manager.idx) == ClaimAll(n, manager.tid, callers[..k]) && |pieces| == k
      invariant RunSoFar(tasks[..], was, spans, pieces, jobs, exec)
    {
      ClaimIsNew(n, manager.tid, callers, k);
      ClaimsGrow(n, manager.tid, callers, k);
      ClaimsAre(n, manager.tid, callers[..k]);
      ghost var p := Claim(n, manager.tid, manager.idx, callers[k]).0;
      var work := manager.GetWork(callers[k]);
      RunPiece(tasks, was, spans, pieces, p, work, jobs, k, exec);
      pieces := pieces + [p];
    }
    assert callers[..n] == callers;
    ClaimsAre(n, manager.tid, callers);
    forall p | 0 <= p < n
      ensures p in pieces
    {
      AllClaimed(n, manager.tid, callers, p);
    }
    forall i | 0 <= i < tasks.Length
      ensures RunByOneOf(tasks[i], was[i], jobs, exec)
    {
      AllRun(tasks[..], was, spans, pieces, jobs, exec, i);
    }
  }

  lemma ClaimsAre(n: nat, tid: nat, callers: seq<nat>)
    requires n > 0
    ensures Claims(n, tid, callers) == ClaimAll(n, tid, callers).0
  {
  }

  lemma NothingClaimed(n: nat, tid: nat)
    requires n > 0
    ensures ClaimAll(n, tid, []) == ([], 0)
  {
  }

  lemma NothingRun(was: seq<Task>, spans: seq<Span>, jobs: seq<JobData>, exec: nat -> Appended)
    ensures RunSoFar(was, was, spans, [], jobs, exec)
  {
  }
}
