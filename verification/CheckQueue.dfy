/** The verification queue: one master and any number of workers share a stack of checks under a
    mutex.  Every critical section is one atomic step, sleeping on a condition variable splits a
    section in two, and executing a batch is a local step, so a run is any sequence of steps. */
module CheckQueue {
  import opened Wrappers
  import LimbMath

  /** A check is represented by the verdict it evaluates to. */
  type Check = bool

  predicate AllOf(s: seq<Check>) {
    forall i :: 0 <= i < |s| ==> s[i]
  }

  /** Where a thread is: outside Loop, asleep on its condition variable, or with a batch that it
      took from the queue and has not executed, or not yet reported. */
  datatype Thread =
    | Outside
    | Sleeping(notified: bool)
    | Holding(batch: seq<Check>, fOk: bool)
    | Executed(batch: seq<Check>, fOk: bool)

  const MASTER := 0

  /** `added` is the history of the round: every check added since the last Wait returned. */
  datatype State = State(
    queue: seq<Check>, nIdle: int, nTotal: int, nTodo: int, fAllOk: bool,
    nBatchSize: nat, threads: seq<Thread>, added: seq<Check>)

  datatype Step =
    | Add(checks: seq<Check>, woken: Option<nat>)
    | Enter(i: nat)
    | Wake(i: nat)
    | Execute(i: nat)
    | Finish(i: nat)

  function Init(workers: nat, nBatchSize: nat): State {
    State([], 0, 0, 0, true, nBatchSize, seq(workers + 1, _ => Outside), [])
  }

  // ---------- the critical sections ----------

  function Max(a: int, b: int): int { if a < b then b else a }

  function Min(a: int, b: int): int { if a < b then a else b }

  /** How many checks a thread takes from a nonempty queue. */
  function BatchCount(s: State): (n: int)
    requires s.queue != [] && s.nTotal + s.nIdle >= 0
    ensures 1 <= n <= |s.queue|
    ensures n == 1 || (n <= s.nBatchSize && n * (s.nTotal + s.nIdle + 1) <= |s.queue|)
    ensures n >= s.nBatchSize || (n + 1) * (s.nTotal + s.nIdle + 1) > |s.queue|
  {
    var share := |s.queue| / (s.nTotal + s.nIdle + 1);
    assert share <= |s.queue| by { DivideShrinks(|s.queue|, s.nTotal + s.nIdle + 1); }
    Shares(|s.queue|, s.nTotal + s.nIdle + 1, Max(1, Min(s.nBatchSize, share)));
    Max(1, Min(s.nBatchSize, share))
  }

  lemma Shares(a: nat, b: int, n: int)
    requires b >= 1
    ensures n <= a / b <==> n * b <= a
    ensures n >= a / b <==> (n + 1) * b > a
  {
    var q, r := a / b, a % b;
    assert a == q * b + r;
    if n < q { assert (n + 1) * b <= q * b; }
    if n > q { assert n * b >= (q + 1) * b == q * b + b; }
    assert (n + 1) * b == n * b + b;
  }

  lemma DivideShrinks(a: nat, b: int)
    requires b >= 1
    ensures 0 <= a / b <= a
  {
    var q, r := a / b, a % b;
    assert a == q * b + r;
    LimbMath.MulLe(1, b, if q >= 0 then q else 0);
    LimbMath.MulLe(if q < 0 then q else -1, -1, b);
  }

  /** The batch comes off the back of the stack, last check first. */
  function TakeBatch(queue: seq<Check>, n: nat): seq<Check>
    requires n <= |queue|
  {
    seq(n, k requires 0 <= k < n => queue[|queue| - 1 - k])
  }

  /** The inner while loop, once per time the lock is held: return, go to sleep, or take a batch.
      The running thread, i, is shown as Outside until this decides. The second component is what a returning Wait
      returns. */
  function LoopHead(s: State, i: nat): (State, Option<bool>)
    requires i < |s.threads| && s.nTotal + s.nIdle >= 0
  {
    if s.queue == [] then
      if i == MASTER && s.nTodo == 0 then
        (s.(nTotal := s.nTotal - 1, fAllOk := true, threads := s.threads[i := Outside], added := []), Some(s.fAllOk))
      else
        (s.(nIdle := s.nIdle + 1, threads := s.threads[i := Sleeping(false)]), None)
    else
      var n := BatchCount(s);
      var batch := TakeBatch(s.queue, n);
      (s.(queue := s.queue[..|s.queue| - n], threads := s.threads[i := Holding(batch, s.fAllOk)]), None)
  }

  /** Checks are skipped once a failure is known. */
  function RunBatch(fOk: bool, batch: seq<Check>): bool {
    if batch == [] then fOk else RunBatch(if fOk then batch[0] else fOk, batch[1..])
  }

  function NotifyMaster(ts: seq<Thread>): (r: seq<Thread>)
    requires |ts| > MASTER
  {
    if ts[MASTER] == Sleeping(false) then ts[MASTER := Sleeping(true)] else ts
  }

  /** Notifies one sleeping worker, or all of them. */
  function NotifyWorkers(ts: seq<Thread>, count: nat, woken: Option<nat>): seq<Thread> {
    if count > 1 then
      seq(|ts|, k requires 0 <= k < |ts| => if k != MASTER && ts[k] == Sleeping(false) then Sleeping(true) else ts[k])
    else if count == 1 && woken.Some? && woken.value < |ts| then ts[woken.value := Sleeping(true)]
    else ts
  }

  /** notify_one picks any one waiting worker, and none only if none waits. */
  ghost predicate ValidChoice(ts: seq<Thread>, woken: Option<nat>) {
    match woken
    case Some(k) => k != MASTER && k < |ts| && ts[k] == Sleeping(false)
    case None => forall k :: MASTER < k < |ts| ==> ts[k] != Sleeping(false)
  }

  ghost predicate Enabled(s: State, step: Step) {
    match step
    case Add(checks, woken) =>
      |s.threads| > MASTER && s.threads[MASTER].Outside? && (|checks| == 1 ==> ValidChoice(s.threads, woken))
    case Enter(i) => i < |s.threads| && s.threads[i].Outside?
    case Wake(i) => i < |s.threads| && s.threads[i].Sleeping?
    case Execute(i) => i < |s.threads| && s.threads[i].Holding?
    case Finish(i) => i < |s.threads| && s.threads[i].Executed?
  }

  // ---------- sums over the threads ----------

  ghost function SumOf(f: Thread -> nat, ts: seq<Thread>): nat {
    if ts == [] then 0 else f(ts[0]) + SumOf(f, ts[1..])
  }

  lemma {:induction false} SumUpdate(f: Thread -> nat, ts: seq<Thread>, i: nat, t: Thread)
    requires i < |ts|
    ensures SumOf(f, ts[i := t]) == SumOf(f, ts) - f(ts[i]) + f(t)
    decreases |ts|
  {
    if i == 0 {
      assert ts[0 := t][1..] == ts[1..];
    } else {
      assert ts[i := t][1..] == ts[1..][i - 1 := t];
      SumUpdate(f, ts[1..], i - 1, t);
    }
  }

  lemma {:induction false} SumSame(f: Thread -> nat, ts: seq<Thread>, us: seq<Thread>)
    requires |ts| == |us| && forall k :: 0 <= k < |ts| ==> f(ts[k]) == f(us[k])
    ensures SumOf(f, ts) == SumOf(f, us)
    decreases |ts|
  {
    if ts != [] {
      SumSame(f, ts[1..], us[1..]);
    }
  }

  lemma {:induction false} SumPositive(f: Thread -> nat, ts: seq<Thread>) returns (k: nat)
    requires SumOf(f, ts) > 0
    ensures k < |ts| && f(ts[k]) > 0
    decreases |ts|
  {
    if f(ts[0]) > 0 {
      k := 0;
    } else {
      k := SumPositive(f, ts[1..]);
      k := k + 1;
    }
  }

  lemma {:induction false} SumBounds(f: Thread -> nat, ts: seq<Thread>, k: nat)
    requires k < |ts|
    ensures f(ts[k]) <= SumOf(f, ts)
    decreases |ts|
  {
    if k > 0 {
      SumBounds(f, ts[1..], k - 1);
    }
  }

  const Size: Thread -> nat := (t: Thread) => if t.Holding? || t.Executed? then |t.batch| else 0

  const InLoop: Thread -> nat := (t: Thread) => if t.Outside? then 0 else 1

  const Asleep: Thread -> nat := (t: Thread) => if t.Sleeping? then 1 else 0

  const HasBatch: Thread -> nat := (t: Thread) => if t.Holding? || t.Executed? then 1 else 0

  // ---------- the invariant ----------

  /** The counters are what their comments say. */
  ghost predicate Counters(s: State) {
    && |s.threads| > MASTER
    && s.nTodo == |s.queue| + SumOf(Size, s.threads)
    && s.nTotal == SumOf(InLoop, s.threads)
    && s.nIdle == SumOf(Asleep, s.threads)
    && s.nTodo <= |s.added|
  }

  /** What a thread knows about its batch. */
  ghost predicate ThreadOk(s: State, t: Thread) {
    match t
    case Holding(batch, fOk) => batch != [] && (!fOk ==> !s.fAllOk)
    case Executed(batch, fOk) => batch != [] && (s.fAllOk ==> (fOk <==> AllOf(batch)))
    case _ => true
  }

  ghost predicate BatchesOk(s: State) {
    forall k :: 0 <= k < |s.threads| ==> ThreadOk(s, s.threads[k])
  }

  predicate BatchTrue(t: Thread) {
    t.Holding? || t.Executed? ==> AllOf(t.batch)
  }

  /** What is still open decides the verdict together with the flag. */
  ghost predicate Open(s: State) {
    AllOf(s.queue) && forall k :: 0 <= k < |s.threads| ==> BatchTrue(s.threads[k])
  }

  ghost predicate VerdictOk(s: State) {
    AllOf(s.added) <==> s.fAllOk && Open(s)
  }

  /** A sleeping master left an empty queue, and if nobody notified it, work is outstanding. */
  ghost predicate MasterOk(s: State)
    requires |s.threads| > MASTER
  {
    s.threads[MASTER].Sleeping? ==> s.queue == [] && (!s.threads[MASTER].notified ==> s.nTodo > 0)
  }

  ghost predicate Inv(s: State) {
    Counters(s) && BatchesOk(s) && VerdictOk(s) && MasterOk(s)
  }

  // ---------- the steps ----------

  /** Thread i runs with the lock held, just before the inner loop. */
  ghost predicate HeadInv(s: State, i: nat) {
    && |s.threads| > MASTER && i < |s.threads| && s.threads[i] == Outside
    && s.nTodo == |s.queue| + SumOf(Size, s.threads)
    && s.nTotal == SumOf(InLoop, s.threads) + 1
    && s.nIdle == SumOf(Asleep, s.threads)
    && s.nTodo <= |s.added|
    && BatchesOk(s) && VerdictOk(s) && MasterOk(s)
  }

  /** The state in which a step of thread i reaches the inner loop. */
  ghost function AtHead(s: State, step: Step): State
    requires Inv(s) && Enabled(s, step) && (step.Enter? || step.Wake? || step.Finish?)
  {
    match step
    case Enter(i) => s.(nTotal := s.nTotal + 1)
    case Wake(i) => s.(nIdle := s.nIdle - 1, threads := s.threads[i := Outside])
    case Finish(i) =>
      var t := s.threads[i];
      var nTodo := s.nTodo - |t.batch|;
      var ts := if nTodo == 0 && i != MASTER then NotifyMaster(s.threads) else s.threads;
      s.(fAllOk := s.fAllOk && t.fOk, nTodo := nTodo, threads := ts[i := Outside])
  }

  lemma SumChange(ts: seq<Thread>, i: nat, t: Thread)
    requires i < |ts|
    ensures SumOf(Size, ts[i := t]) == SumOf(Size, ts) - Size(ts[i]) + Size(t)
    ensures SumOf(InLoop, ts[i := t]) == SumOf(InLoop, ts) - InLoop(ts[i]) + InLoop(t)
    ensures SumOf(Asleep, ts[i := t]) == SumOf(Asleep, ts) - Asleep(ts[i]) + Asleep(t)
  {
    SumUpdate(Size, ts, i, t);
    SumUpdate(InLoop, ts, i, t);
    SumUpdate(Asleep, ts, i, t);
  }

  lemma SumsAlike(ts: seq<Thread>, us: seq<Thread>)
    requires |ts| == |us|
    requires forall k :: 0 <= k < |ts| ==> us[k] == ts[k] || (ts[k].Sleeping? && us[k].Sleeping?)
    ensures SumOf(Size, us) == SumOf(Size, ts)
    ensures SumOf(InLoop, us) == SumOf(InLoop, ts)
    ensures SumOf(Asleep, us) == SumOf(Asleep, ts)
  {
    SumSame(Size, ts, us);
    SumSame(InLoop, ts, us);
    SumSame(Asleep, ts, us);
  }

  lemma EnterHead(s: State, i: nat)
    requires Inv(s) && Enabled(s, Enter(i))
    ensures HeadInv(AtHead(s, Enter(i)), i)
  {
    var s1 := AtHead(s, Enter(i));
    assert s1.threads == s.threads;
    assert forall k :: 0 <= k < |s.threads| ==> ThreadOk(s, s.threads[k]) ==> ThreadOk(s1, s.threads[k]);
  }

  lemma WakeHead(s: State, i: nat)
    requires Inv(s) && Enabled(s, Wake(i))
    ensures HeadInv(AtHead(s, Wake(i)), i)
  {
    var s1 := AtHead(s, Wake(i));
    SumChange(s.threads, i, Outside);
    assert forall k :: 0 <= k < |s.threads| ==> s1.threads[k] == (if k == i then Outside else s.threads[k]);
    assert forall k :: 0 <= k < |s.threads| ==> ThreadOk(s, s.threads[k]) ==> ThreadOk(s1, s1.threads[k]);
    assert forall k :: 0 <= k < |s.threads| ==> BatchTrue(s.threads[k]) == BatchTrue(s1.threads[k]);
  }

  lemma FinishHead(s: State, i: nat)
    requires Inv(s) && Enabled(s, Finish(i))
    ensures HeadInv(AtHead(s, Finish(i)), i)
  {
    var s1 := AtHead(s, Finish(i));
    var t := s.threads[i];
    assert ThreadOk(s, t);
    var ts := if s1.nTodo == 0 && i != MASTER then NotifyMaster(s.threads) else s.threads;
    SumsAlike(s.threads, ts);
    SumChange(ts, i, Outside);
    assert forall k :: 0 <= k < |s.threads| && k != i ==> s1.threads[k] == ts[k];
    forall k | 0 <= k < |s1.threads|
      ensures ThreadOk(s1, s1.threads[k])
    {
      if k != i { assert ThreadOk(s, s.threads[k]); }
    }
    assert forall k :: 0 <= k < |s.threads| && k != i ==> BatchTrue(s1.threads[k]) == BatchTrue(s.threads[k]);
    assert Open(s) <==> Open(s1) && AllOf(t.batch) by {
      assert BatchTrue(s.threads[i]) == AllOf(t.batch);
    }
  }

  lemma HeadReaches(s: State, step: Step)
    requires Inv(s) && Enabled(s, step) && (step.Enter? || step.Wake? || step.Finish?)
    ensures HeadInv(AtHead(s, step), step.i)
  {
    match step
    case Enter(i) => EnterHead(s, i);
    case Wake(i) => WakeHead(s, i);
    case Finish(i) => FinishHead(s, i);
  }

  /** One atomic step; the second component is the result of a Wait that returns in it. */
  ghost function Apply(s: State, step: Step): (State, Option<bool>)
    requires Inv(s) && Enabled(s, step)
  {
    match step
    case Add(checks, woken) =>
      (s.(queue := s.queue + checks, nTodo := s.nTodo + |checks|,
          threads := NotifyWorkers(s.threads, |checks|, woken), added := s.added + checks), None)
    case Execute(i) =>
      var t := s.threads[i];
      (s.(threads := s.threads[i := Executed(t.batch, RunBatch(t.fOk, t.batch))]), None)
    case _ =>
      HeadReaches(s, step);
      LoopHead(AtHead(s, step), step.i)
  }

  // ---------- the invariant is kept ----------

  lemma TakeSplits(queue: seq<Check>, n: nat)
    requires n <= |queue|
    ensures AllOf(queue) <==> AllOf(queue[..|queue| - n]) && AllOf(TakeBatch(queue, n))
  {
    var batch := TakeBatch(queue, n);
    var rest := queue[..|queue| - n];
    if AllOf(rest) && AllOf(batch) {
      forall k | 0 <= k < |queue|
        ensures queue[k]
      {
        if k < |rest| { assert rest[k]; } else { assert batch[|queue| - 1 - k]; }
      }
    }
  }

  /** The inner loop re-establishes the invariant, and a Wait that returns gives the verdict on
      everything added in its round. */
  lemma LoopHeadKeeps(s: State, i: nat)
    requires HeadInv(s, i)
    ensures Inv(LoopHead(s, i).0)
    ensures LoopHead(s, i).1.Some? ==> LoopHead(s, i).1.value == AllOf(s.added)
  {
    var s1 := LoopHead(s, i).0;
    var t := s1.threads[i];
    SumChange(s.threads, i, t);
    assert forall k :: 0 <= k < |s.threads| && k != i ==> s1.threads[k] == s.threads[k];
    if s.queue == [] && i == MASTER && s.nTodo == 0 {
      forall k | 0 <= k < |s.threads|
        ensures !s.threads[k].Holding? && !s.threads[k].Executed?
      {
        SumBounds(Size, s.threads, k);
        assert ThreadOk(s, s.threads[k]);
      }
      assert Open(s);
    } else {
      forall k | 0 <= k < |s1.threads|
        ensures ThreadOk(s1, s1.threads[k])
      {
        if k != i { assert ThreadOk(s, s.threads[k]); }
      }
      if s.queue != [] {
        TakeSplits(s.queue, BatchCount(s));
      }
      assert forall k :: 0 <= k < |s.threads| && k != i ==> BatchTrue(s1.threads[k]) == BatchTrue(s.threads[k]);
      assert Open(s) <==> Open(s1) by {
        assert BatchTrue(s.threads[i]);
        assert BatchTrue(s1.threads[i]) <==> (s.queue == [] || AllOf(t.batch));
      }
    }
  }

  lemma {:induction false} RunBatchIsAll(fOk: bool, batch: seq<Check>)
    ensures RunBatch(fOk, batch) <==> fOk && AllOf(batch)
    decreases |batch|
  {
    if batch != [] {
      RunBatchIsAll(if fOk then batch[0] else fOk, batch[1..]);
      assert AllOf(batch) <==> batch[0] && AllOf(batch[1..]) by {
        assert forall k :: 0 < k < |batch| ==> batch[k] == batch[1..][k - 1];
      }
    }
  }

  lemma ExecuteKeeps(s: State, i: nat)
    requires Inv(s) && Enabled(s, Execute(i))
    ensures Inv(Apply(s, Execute(i)).0)
  {
    var t := s.threads[i];
    var s1 := Apply(s, Execute(i)).0;
    RunBatchIsAll(t.fOk, t.batch);
    SumChange(s.threads, i, s1.threads[i]);
    assert ThreadOk(s, t);
    assert forall k :: 0 <= k < |s.threads| && k != i ==> s1.threads[k] == s.threads[k];
    forall k | 0 <= k < |s1.threads|
      ensures ThreadOk(s1, s1.threads[k])
    {
      if k != i { assert ThreadOk(s, s.threads[k]); }
    }
    assert forall k :: 0 <= k < |s.threads| ==> BatchTrue(s1.threads[k]) == BatchTrue(s.threads[k]);
  }

  lemma AddKeeps(s: State, checks: seq<Check>, woken: Option<nat>)
    requires Inv(s) && Enabled(s, Add(checks, woken))
    ensures Inv(Apply(s, Add(checks, woken)).0)
  {
    var s1 := Apply(s, Add(checks, woken)).0;
    SumsAlike(s.threads, s1.threads);
    forall k | 0 <= k < |s1.threads|
      ensures ThreadOk(s1, s1.threads[k])
    {
      assert ThreadOk(s, s.threads[k]);
    }
    assert forall k :: 0 <= k < |s.threads| ==> BatchTrue(s1.threads[k]) == BatchTrue(s.threads[k]);
    AllOfConcat(s.queue, checks);
    AllOfConcat(s.added, checks);
  }

  lemma AllOfConcat(a: seq<Check>, b: seq<Check>)
    ensures AllOf(a + b) <==> AllOf(a) && AllOf(b)
  {
    if AllOf(a + b) {
      assert forall k :: 0 <= k < |a| ==> a[k] == (a + b)[k];
      assert forall k :: 0 <= k < |b| ==> b[k] == (a + b)[|a| + k];
    }
  }

  /** Every step keeps the invariant, and a Wait returns true exactly when every check added since
      the previous Wait evaluates to true. */
  lemma StepKeeps(s: State, step: Step)
    requires Inv(s) && Enabled(s, step)
    ensures Inv(Apply(s, step).0)
    ensures Apply(s, step).1.Some? ==> Apply(s, step).1.value == AllOf(s.added) && Apply(s, step).0.added == []
  {
    match step
    case Add(checks, woken) => AddKeeps(s, checks, woken);
    case Execute(i) => ExecuteKeeps(s, i);
    case _ =>
      HeadReaches(s, step);
      LoopHeadKeeps(AtHead(s, step), step.i);
  }

  lemma InitInv(workers: nat, nBatchSize: nat)
    ensures Inv(Init(workers, nBatchSize))
  {
    var ts := Init(workers, nBatchSize).threads;
    AllOutside(ts);
  }

  lemma {:induction false} AllOutside(ts: seq<Thread>)
    requires forall k :: 0 <= k < |ts| ==> ts[k] == Outside
    ensures SumOf(Size, ts) == SumOf(InLoop, ts) == SumOf(Asleep, ts) == 0
    decreases |ts|
  {
    if ts != [] {
      AllOutside(ts[1..]);
    }
  }

  // ---------- whole runs ----------

  /** Each step of a run is possible in the state the steps before it led to. */
  ghost predicate IsRun(s: State, steps: seq<Step>)
    requires Inv(s)
    decreases |steps|
  {
    steps == [] ||
    (Enabled(s, steps[0]) && (StepKeeps(s, steps[0]); IsRun(Apply(s, steps[0]).0, steps[1..])))
  }

  /** What a caller of the queue can observe. */
  datatype Event = Added(checks: seq<Check>) | Returned(verdict: bool)

  ghost function Observe(s: State, steps: seq<Step>): seq<Event>
    requires Inv(s) && IsRun(s, steps)
    decreases |steps|
  {
    if steps == [] then []
    else
      StepKeeps(s, steps[0]);
      var (s1, ret) := Apply(s, steps[0]);
      var now := if steps[0].Add? then [Added(steps[0].checks)] else if ret.Some? then [Returned(ret.value)] else [];
      now + Observe(s1, steps[1..])
  }

  /** The sequential reading: a verdict is true exactly if everything added since the previous
      verdict (starting with `open`) is true. */
  ghost predicate Sequential(events: seq<Event>, open: seq<Check>)
    decreases |events|
  {
    if events == [] then true
    else
      match events[0]
      case Added(checks) => Sequential(events[1..], open + checks)
      case Returned(verdict) => verdict == AllOf(open) && Sequential(events[1..], [])
  }

  lemma {:induction false} RunsAreSequential(s: State, steps: seq<Step>)
    requires Inv(s) && IsRun(s, steps)
    ensures Sequential(Observe(s, steps), s.added)
    decreases |steps|
  {
    hide Inv, Enabled;
    if steps != [] {
      StepKeeps(s, steps[0]);
      var (s1, ret) := Apply(s, steps[0]);
      RunsAreSequential(s1, steps[1..]);
      HistoryGrows(s, steps[0]);
      var rest := Observe(s1, steps[1..]);
      var events := Observe(s, steps);
      if steps[0].Add? {
        assert events == [Added(steps[0].checks)] + rest && events[1..] == rest;
      } else if ret.Some? {
        assert events == [Returned(ret.value)] + rest && events[1..] == rest;
      } else {
        assert events == rest;
      }
    }
  }

  lemma HistoryGrows(s: State, step: Step)
    requires Inv(s) && Enabled(s, step)
    ensures step.Add? ==> Apply(s, step).0.added == s.added + step.checks
    ensures !step.Add? && Apply(s, step).1.None? ==> Apply(s, step).0.added == s.added
  {
  }

  /** For any number of workers and any interleaving, the queue answers like the sequential
      reading, although checks are skipped after a failure. */
  lemma QueueIsSequential(workers: nat, nBatchSize: nat, steps: seq<Step>)
    requires (InitInv(workers, nBatchSize); IsRun(Init(workers, nBatchSize), steps))
    ensures (InitInv(workers, nBatchSize); Sequential(Observe(Init(workers, nBatchSize), steps), []))
  {
    InitInv(workers, nBatchSize);
    RunsAreSequential(Init(workers, nBatchSize), steps);
  }

  // ---------- bookkeeping ----------

  lemma {:induction false} LoopersSplit(ts: seq<Thread>)
    ensures SumOf(InLoop, ts) == SumOf(Asleep, ts) + SumOf(HasBatch, ts)
    decreases |ts|
  {
    if ts != [] {
      LoopersSplit(ts[1..]);
    }
  }

  /** While nobody holds the mutex: the threads that are neither outside nor idle are those with a batch; between
      rounds all threads in the loop are idle, nothing is left to do and the verdict is reset; and a master asleep
      without notification has a worker that still holds a batch and will report it. */
  lemma Bookkeeping(s: State)
    requires Inv(s)
    ensures s.nTodo == |s.queue| + SumOf(Size, s.threads)
    ensures s.nTotal - s.nIdle == SumOf(HasBatch, s.threads)
    ensures s.nTodo >= 0 && s.nIdle >= 0
    ensures s.added == [] ==> s.nTotal == s.nIdle && s.nTodo == 0 && s.fAllOk
    ensures s.threads[MASTER] == Sleeping(false) ==>
              exists k :: MASTER < k < |s.threads| && (s.threads[k].Holding? || s.threads[k].Executed?)
  {
    LoopersSplit(s.threads);
    if s.added == [] {
      if SumOf(HasBatch, s.threads) > 0 {
        var k := SumPositive(HasBatch, s.threads);
        assert ThreadOk(s, s.threads[k]);
        SumBounds(Size, s.threads, k);
        assert false;
      }
    }
    if s.threads[MASTER] == Sleeping(false) {
      var k := SumPositive(Size, s.threads);
      assert k != MASTER;
    }
  }

  // ---------- no lost wake-up ----------

  /** A bound on the work left for the threads in the loop. */
  const Weight: Thread -> nat :=
    (t: Thread) => match t
      case Outside => 0
      case Sleeping(notified) => if notified then 1 else 0
      case Holding(batch, _) => 3 * |batch|
      case Executed(batch, _) => 2 * |batch|

  ghost function Work(s: State): nat {
    4 * |s.queue| + SumOf(Weight, s.threads)
  }

  /** A step of a thread in the loop that does not wake up for no reason. */
  ghost predicate Quiet(s: State, step: Step) {
    match step
    case Execute(i) => true
    case Finish(i) => true
    case Wake(i) => i < |s.threads| && s.threads[i] == Sleeping(true)
    case _ => false
  }

  lemma HeadWork(s: State, i: nat)
    requires HeadInv(s, i)
    ensures Work(LoopHead(s, i).0) <= Work(s)
  {
    var t := LoopHead(s, i).0.threads[i];
    SumUpdate(Weight, s.threads, i, t);
  }

  lemma QuietStepsWork(s: State, step: Step)
    requires Inv(s) && Enabled(s, step) && Quiet(s, step)
    ensures Work(Apply(s, step).0) < Work(s)
  {
    match step {
      case Execute(i) =>
        var t := s.threads[i];
        assert ThreadOk(s, t);
        SumUpdate(Weight, s.threads, i, Executed(t.batch, RunBatch(t.fOk, t.batch)));
      case Wake(i) =>
        HeadReaches(s, step);
        HeadWork(AtHead(s, step), i);
        SumUpdate(Weight, s.threads, i, Outside);
      case Finish(i) =>
        HeadReaches(s, step);
        HeadWork(AtHead(s, step), i);
        FinishWork(s, i);
      case _ =>
    }
  }

  lemma FinishWork(s: State, i: nat)
    requires Inv(s) && Enabled(s, Finish(i))
    ensures Work(AtHead(s, Finish(i))) < Work(s)
  {
    var t := s.threads[i];
    assert ThreadOk(s, t);
    var s1 := AtHead(s, Finish(i));
    var ts := if s1.nTodo == 0 && i != MASTER then NotifyMaster(s.threads) else s.threads;
    SumUpdate(Weight, s.threads, MASTER, ts[MASTER]);
    assert ts == s.threads[MASTER := ts[MASTER]];
    SumUpdate(Weight, ts, i, Outside);
    assert ts[i] == t;
  }

  /** While the master waits, some thread can take a step that is not a spurious wake-up. */
  lemma NeverStuck(s: State) returns (step: Step)
    requires Inv(s) && !s.threads[MASTER].Outside?
    ensures Enabled(s, step) && Quiet(s, step)
  {
    var i := MASTER;
    if s.threads[MASTER] == Sleeping(false) {
      Bookkeeping(s);
      i :| MASTER < i < |s.threads| && (s.threads[i].Holding? || s.threads[i].Executed?);
    }
    step := if s.threads[i].Holding? then Execute(i) else if s.threads[i].Executed? then Finish(i) else Wake(i);
  }

  ghost predicate QuietRun(s: State, steps: seq<Step>)
    requires Inv(s)
    decreases |steps|
  {
    steps == [] ||
    (Enabled(s, steps[0]) && Quiet(s, steps[0]) && (StepKeeps(s, steps[0]); QuietRun(Apply(s, steps[0]).0, steps[1..])))
  }

  /** No run of such steps is longer than the work left: with NeverStuck, Wait always returns. */
  lemma {:induction false} QuietRunsEnd(s: State, steps: seq<Step>)
    requires Inv(s) && QuietRun(s, steps)
    ensures |steps| <= Work(s)
    decreases |steps|
  {
    hide Inv, Enabled, Work, Apply;
    if steps != [] {
      StepKeeps(s, steps[0]);
      QuietStepsWork(s, steps[0]);
      QuietRunsEnd(Apply(s, steps[0]).0, steps[1..]);
    }
  }
}
