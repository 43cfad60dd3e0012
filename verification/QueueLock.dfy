/** The verification queue with its mutex: the threads write the shared variables one at a time while they hold
    the lock, and a reader without the lock can see what is between.  Every run of this finer machine answers
    like the atomic one.  The controller reads the counters without the lock. */
module QueueLock {
  import opened Wrappers
  import opened CheckQueue

  /** What the holder of the lock has written so far. */
  datatype Pc =
    | Free
    | Begun(step: Step)
    | Pushed(checks: seq<Check>, woken: Option<nat>)
    | Reported(i: nat)
    | Looping(step: Step)
    | Counted(step: Step)
    | Leaving(step: Step, verdict: bool)

  datatype Fine = Fine(s: State, pc: Pc)

  /** A thread takes the lock, its holder goes on, or a thread executes its batch outside of it. */
  datatype Micro = Acquire(step: Step) | Advance | Run(i: nat)

  function FineInit(workers: nat, nBatchSize: nat): Fine {
    Fine(Init(workers, nBatchSize), Free)
  }

  predicate HeadStep(step: Step) {
    step.Enter? || step.Wake? || step.Finish?
  }

  ghost predicate Possible(f: Fine, m: Micro) {
    match m
    case Acquire(step) => f.pc.Free? && !step.Execute? && Enabled(f.s, step)
    case Advance => !f.pc.Free? && Defined(f)
    case Run(i) => i < |f.s.threads| && f.s.threads[i].Holding?
  }

  /** The holder is a thread that there is; this is never in the way. */
  predicate Defined(f: Fine) {
    match f.pc
    case Free => true
    case Begun(step) =>
      step.Add? ||
      (HeadStep(step) && step.i < |f.s.threads| && (step.Finish? ==> f.s.threads[step.i].Executed?))
    case Pushed(_, _) => true
    case Reported(i) => MASTER < |f.s.threads| && i < |f.s.threads| && f.s.threads[i].Executed?
    case Looping(step) => HeadStep(step) && step.i < |f.s.threads| && f.s.nTotal + f.s.nIdle >= 0
    case Counted(step) => HeadStep(step) && step.i < |f.s.threads|
    case Leaving(step, _) => HeadStep(step) && step.i < |f.s.threads|
  }

  /** The next write of the holder, and what the caller of the queue then observes. */
  function Write(f: Fine): (Fine, Option<Event>)
    requires !f.pc.Free? && Defined(f)
  {
    var s := f.s;
    match f.pc
    case Begun(Add(checks, woken)) =>
      (Fine(s.(queue := s.queue + checks, added := s.added + checks), Pushed(checks, woken)), None)
    case Pushed(checks, woken) =>
      (Fine(s.(nTodo := s.nTodo + |checks|, threads := NotifyWorkers(s.threads, |checks|, woken)), Free),
       Some(Added(checks)))
    case Begun(Enter(i)) => (Fine(s.(nTotal := s.nTotal + 1), Looping(Enter(i))), None)
    case Begun(Wake(i)) => (Fine(s.(nIdle := s.nIdle - 1, threads := s.threads[i := Outside]), Looping(Wake(i))), None)
    case Begun(Finish(i)) => (Fine(s.(fAllOk := s.fAllOk && s.threads[i].fOk), Reported(i)), None)
    case Reported(i) =>
      var nTodo := s.nTodo - |s.threads[i].batch|;
      var ts := if nTodo == 0 && i != MASTER then NotifyMaster(s.threads) else s.threads;
      (Fine(s.(nTodo := nTodo, threads := ts[i := Outside]), Looping(Finish(i))), None)
    case Looping(step) =>
      if s.queue != [] then (Fine(LoopHead(s, step.i).0, Free), None)
      else if step.i == MASTER && s.nTodo == 0 then (Fine(s.(nTotal := s.nTotal - 1), Leaving(step, s.fAllOk)), None)
      else (Fine(s.(nIdle := s.nIdle + 1), Counted(step)), None)
    case Counted(step) => (Fine(s.(threads := s.threads[step.i := Sleeping(false)]), Free), None)
    case Leaving(step, verdict) =>
      (Fine(s.(fAllOk := true, threads := s.threads[step.i := Outside], added := []), Free), Some(Returned(verdict)))
  }

  /** Thread i has executed its batch. */
  function Executing(s: State, i: nat): State
    requires i < |s.threads| && s.threads[i].Holding?
  {
    var t := s.threads[i];
    s.(threads := s.threads[i := Executed(t.batch, RunBatch(t.fOk, t.batch))])
  }

  ghost function Next(f: Fine, m: Micro): (Fine, Option<Event>)
    requires Possible(f, m)
  {
    match m
    case Acquire(step) => (Fine(f.s, Begun(step)), None)
    case Advance => Write(f)
    case Run(i) => (Fine(Executing(f.s, i), f.pc), None)
  }

  // ---------- every section is atomic ----------

  /** The step of the atomic machine that the holder is in. */
  function Section(pc: Pc): Step
    requires !pc.Free?
  {
    match pc
    case Begun(step) => step
    case Pushed(checks, woken) => Add(checks, woken)
    case Reported(i) => Finish(i)
    case Looping(step) => step
    case Counted(step) => step
    case Leaving(step, _) => step
  }

  /** The holder of the lock has come as far as pc says, from a state `base` of the atomic machine. */
  ghost predicate Reached(base: State, f: Fine)
    requires Inv(base)
  {
    (f.pc.Free? ==> f.s == base) &&
    (!f.pc.Free? ==> !Section(f.pc).Execute? && Enabled(base, Section(f.pc)) && Written(base, f))
  }

  ghost predicate Written(base: State, f: Fine)
    requires Inv(base) && !f.pc.Free? && !Section(f.pc).Execute? && Enabled(base, Section(f.pc))
  {
    match f.pc
    case Begun(_) => f.s == base
    case Pushed(checks, _) => f.s == base.(queue := base.queue + checks, added := base.added + checks)
    case Reported(i) => f.s == base.(fAllOk := base.fAllOk && base.threads[i].fOk)
    case Looping(step) => HeadStep(step) && f.s == AtHead(base, step)
    case Counted(step) =>
      && HeadStep(step)
      && var h := AtHead(base, step);
      && h.queue == [] && !(step.i == MASTER && h.nTodo == 0)
      && f.s == h.(nIdle := h.nIdle + 1)
    case Leaving(step, verdict) =>
      && HeadStep(step)
      && var h := AtHead(base, step);
      && h.queue == [] && step.i == MASTER && h.nTodo == 0
      && f.s == h.(nTotal := h.nTotal - 1) && verdict == h.fAllOk
  }

  /** The holder can always go on. */
  lemma ReachedDefined(base: State, f: Fine)
    requires Inv(base) && Reached(base, f)
    ensures Defined(f)
  {
    if f.pc.Looping? {
      HeadReaches(base, f.pc.step);
    }
  }

  /** The next write of the holder either stays within the section or completes the atomic step. */
  ghost predicate Refines(base: State, f: Fine)
    requires Inv(base) && !f.pc.Free? && Defined(f) && Enabled(base, Section(f.pc))
  {
    var (f', event) := Write(f);
    var (base', returned) := Apply(base, Section(f.pc));
    if f'.pc.Free? then
      && Inv(base') && Reached(base', f')
      && event == (if Section(f.pc).Add? then Some(Added(Section(f.pc).checks))
                   else if returned.Some? then Some(Returned(returned.value)) else None)
    else Reached(base, f') && event.None? && Section(f'.pc) == Section(f.pc)
  }

  lemma WriteRefines(base: State, f: Fine)
    requires Inv(base) && Reached(base, f) && !f.pc.Free?
    ensures Defined(f) && Enabled(base, Section(f.pc)) && Refines(base, f)
  {
    hide Refines, Inv, Enabled, Write, Written;
    ReachedDefined(base, f);
    if Section(f.pc).Add? {
      AddRefines(base, f);
    } else if f.pc.Begun? || f.pc.Reported? {
      HeadRefines(base, f);
    } else {
      LoopRefines(base, f);
    }
  }

  lemma AddRefines(base: State, f: Fine)
    requires Inv(base) && Reached(base, f) && !f.pc.Free? && Defined(f) && Section(f.pc).Add?
    ensures Refines(base, f)
  {
    hide Inv, LoopHead, AtHead;
    StepKeeps(base, Section(f.pc));
  }

  lemma HeadRefines(base: State, f: Fine)
    requires Inv(base) && Reached(base, f) && !f.pc.Free? && Defined(f) && !Section(f.pc).Add?
    requires f.pc.Begun? || f.pc.Reported?
    ensures Refines(base, f)
  {
    hide Inv, LoopHead, NotifyWorkers, Apply;
  }

  lemma LoopRefines(base: State, f: Fine)
    requires Inv(base) && Reached(base, f) && Defined(f) && (f.pc.Looping? || f.pc.Counted? || f.pc.Leaving?)
    ensures Refines(base, f)
  {
    hide Inv, AtHead, BatchCount, TakeBatch, NotifyWorkers, HeadInv;
    StepKeeps(base, Section(f.pc));
    HeadReaches(base, Section(f.pc));
    HeadFacts(AtHead(base, Section(f.pc)), Section(f.pc).i);
  }

  lemma HeadFacts(s: State, i: nat)
    requires HeadInv(s, i)
    ensures i < |s.threads| && s.threads[i] == Outside
  {
  }

  /** Executing a batch commutes with the first half of a section of another thread. */
  lemma HeadCommutes(base: State, step: Step, i: nat)
    requires Inv(base) && HeadStep(step) && Enabled(base, step) && i < |base.threads| && base.threads[i].Holding?
    ensures Inv(Executing(base, i)) && Enabled(Executing(base, i), step)
    ensures
      var h := AtHead(base, step);
      i < |h.threads| && h.threads[i] == base.threads[i] && AtHead(Executing(base, i), step) == Executing(h, i)
  {
    ExecuteKeeps(base, i);
    hide Inv, RunBatch;
    var base' := Executing(base, i);
    assert base' == Apply(base, Execute(i)).0;
    var h, h' := AtHead(base, step), AtHead(base', step);
    assert h'.threads == Executing(h, i).threads;
  }

  lemma RunCommutes(base: State, f: Fine, i: nat)
    requires Inv(base) && Reached(base, f) && Possible(f, Run(i))
    ensures i < |base.threads| && base.threads[i].Holding? && Inv(Executing(base, i))
    ensures Reached(Executing(base, i), Next(f, Run(i)).0)
    ensures Executing(base, i).added == base.added
  {
    hide Inv, RunBatch, SumOf;
    var pc := f.pc;
    if !pc.Free? && (pc.Looping? || pc.Counted? || pc.Leaving?) {
      HeldInBase(base, pc.step, i);
      HeadCommutes(base, pc.step, i);
    } else {
      assert base.threads[i] == f.s.threads[i];
      ExecuteKeeps(base, i);
      assert Executing(base, i) == Apply(base, Execute(i)).0;
      if !pc.Free? { StillEnabled(base, Section(pc), i); }
    }
  }

  lemma HeldInBase(base: State, step: Step, i: nat)
    requires Inv(base) && HeadStep(step) && Enabled(base, step) && i < |AtHead(base, step).threads|
    requires AtHead(base, step).threads[i].Holding?
    ensures i < |base.threads| && base.threads[i] == AtHead(base, step).threads[i]
  {
    hide SumOf;
  }

  lemma StillEnabled(base: State, step: Step, i: nat)
    requires Inv(base) && Enabled(base, step) && !step.Execute? && i < |base.threads| && base.threads[i].Holding?
    ensures Enabled(Executing(base, i), step)
  {
    hide Inv, RunBatch;
  }

  // ---------- runs ----------

  ghost predicate FineRun(f: Fine, ms: seq<Micro>)
    decreases |ms|
  {
    ms == [] || (Possible(f, ms[0]) && FineRun(Next(f, ms[0]).0, ms[1..]))
  }

  ghost function After(f: Fine, ms: seq<Micro>): Fine
    requires FineRun(f, ms)
    decreases |ms|
  {
    if ms == [] then f else After(Next(f, ms[0]).0, ms[1..])
  }

  ghost function Observed(f: Fine, ms: seq<Micro>): seq<Event>
    requires FineRun(f, ms)
    decreases |ms|
  {
    if ms == [] then []
    else
      var (f1, event) := Next(f, ms[0]);
      (if event.Some? then [event.value] else []) + Observed(f1, ms[1..])
  }

  /** One micro step: the atomic machine does nothing, or one step with the same observation. */
  lemma MicroRefines(base: State, f: Fine, m: Micro) returns (base': State)
    requires Inv(base) && Reached(base, f) && Possible(f, m)
    ensures Inv(base') && Reached(base', Next(f, m).0)
    ensures
      match Next(f, m).1
      case None => base'.added == base.added
      case Some(Added(checks)) => base'.added == base.added + checks
      case Some(Returned(verdict)) => verdict == AllOf(base.added) && base'.added == []
  {
    hide Inv, Reached;
    match m {
      case Acquire(step) =>
        base' := base;
        Acquired(base, f, step);
      case Run(i) =>
        RunCommutes(base, f, i);
        base' := Executing(base, i);
      case Advance =>
        WriteRefines(base, f);
        ReachedEnabled(base, f);
        base' := if Write(f).0.pc.Free? then Apply(base, Section(f.pc)).0 else base;
        StepKeeps(base, Section(f.pc));
        HistoryGrows(base, Section(f.pc));
    }
  }

  lemma Acquired(base: State, f: Fine, step: Step)
    requires Inv(base) && Reached(base, f) && Possible(f, Acquire(step))
    ensures Reached(base, Next(f, Acquire(step)).0)
  {
  }

  lemma ReachedEnabled(base: State, f: Fine)
    requires Inv(base) && Reached(base, f) && !f.pc.Free?
    ensures Enabled(base, Section(f.pc))
  {
  }

  lemma {:induction false} FineRunsAreSequential(base: State, f: Fine, ms: seq<Micro>)
    requires Inv(base) && Reached(base, f) && FineRun(f, ms)
    ensures Sequential(Observed(f, ms), base.added)
    decreases |ms|
  {
    hide Inv, Reached, Possible, Next;
    if ms != [] {
      var base' := MicroRefines(base, f, ms[0]);
      var (f1, event) := Next(f, ms[0]);
      FineRunsAreSequential(base', f1, ms[1..]);
      var rest := Observed(f1, ms[1..]);
      if event.Some? {
        assert Observed(f, ms) == [event.value] + rest && Observed(f, ms)[1..] == rest;
      } else {
        assert Observed(f, ms) == rest;
      }
    }
  }

  /** From the constructor's state, with any number of workers and any interleaving of single writes, the queue
      answers like evaluating the checks one by one. */
  lemma FineQueueIsSequential(workers: nat, nBatchSize: nat, ms: seq<Micro>)
    requires FineRun(FineInit(workers, nBatchSize), ms)
    ensures Sequential(Observed(FineInit(workers, nBatchSize), ms), [])
  {
    InitInv(workers, nBatchSize);
    FineRunsAreSequential(Init(workers, nBatchSize), FineInit(workers, nBatchSize), ms);
  }

  // ---------- the controller ----------

  /** Between two rounds: nothing has been added, and the master, which constructs the controller, is outside and
      does not hold the lock. */
  ghost predicate Resting(base: State, f: Fine) {
    && Inv(base) && Reached(base, f) && base.added == [] && |f.s.threads| > MASTER && f.s.threads[MASTER].Outside?
    && (!f.pc.Free? ==> !Section(f.pc).Add? && Section(f.pc).i != MASTER)
  }

  /** A step of a worker. */
  predicate ByWorker(m: Micro) {
    match m
    case Acquire(step) => !step.Add? && step.i != MASTER
    case Advance => true
    case Run(i) => i != MASTER
  }

  predicate ByWorkers(ms: seq<Micro>) {
    forall k :: 0 <= k < |ms| ==> ByWorker(ms[k])
  }

  /** A worker that enters, or wakes up, and has not gone to sleep again. */
  predicate Between(f: Fine) {
    f.pc.Looping?
  }

  /** Between two rounds the counters agree, unless a worker is just between its two writes. */
  lemma RestingCounters(base: State, f: Fine)
    requires Resting(base, f)
    ensures f.s.nTodo == 0 && f.s.fAllOk && f.s.queue == []
    ensures f.s.nTotal == f.s.nIdle + (if Between(f) then 1 else 0)
    ensures !f.pc.Pushed? && !f.pc.Reported? && !f.pc.Leaving? && (!f.pc.Free? ==> !Section(f.pc).Finish?)
  {
    Bookkeeping(base);
    NoBatches(base);
    hide Inv, SumOf;
  }

  lemma NoBatches(s: State)
    requires Inv(s) && s.added == []
    ensures s.queue == [] && forall k :: 0 <= k < |s.threads| ==> !s.threads[k].Holding? && !s.threads[k].Executed?
  {
    forall k | 0 <= k < |s.threads|
      ensures !s.threads[k].Holding? && !s.threads[k].Executed?
    {
      assert ThreadOk(s, s.threads[k]);
      SumBounds(Size, s.threads, k);
    }
  }

  /** How often a worker counts itself in a run. */
  ghost function Joined(f: Fine, ms: seq<Micro>): nat
    requires FineRun(f, ms)
    decreases |ms|
  {
    if ms == [] then 0
    else (if ms[0].Advance? && f.pc.Begun? && f.pc.step.Enter? then 1 else 0) + Joined(Next(f, ms[0]).0, ms[1..])
  }

  lemma RestingStep(base: State, f: Fine, m: Micro) returns (base': State)
    requires Resting(base, f) && Possible(f, m) && ByWorker(m)
    ensures Resting(base', Next(f, m).0)
    ensures Next(f, m).0.s.nTotal == f.s.nTotal + if m.Advance? && f.pc.Begun? && f.pc.step.Enter? then 1 else 0
  {
    RestingCounters(base, f);
    base' := MicroRefines(base, f, m);
    hide Inv, SumOf;
  }

  lemma {:induction false} RestingRun(base: State, f: Fine, ms: seq<Micro>) returns (base': State)
    requires Resting(base, f) && FineRun(f, ms) && ByWorkers(ms)
    ensures Resting(base', After(f, ms)) && After(f, ms).s.nTotal == f.s.nTotal + Joined(f, ms)
    decreases |ms|
  {
    hide Resting, Possible, Next;
    base' := base;
    if ms != [] {
      base' := RestingStep(base, f, ms[0]);
      base' := RestingRun(base', Next(f, ms[0]).0, ms[1..]);
    }
  }

  /** The three assertions of the controller's constructor, with any steps of the workers between its reads.  The
      first one holds if and only if as many workers counted themselves between its two reads as are between
      their two writes at the second; or, if nIdle is read first, if and only if no worker counted itself and
      none was between its writes at the first read.  The other two always hold. */
  lemma ControllerAssertions(base: State, f: Fine, w1: seq<Micro>, w2: seq<Micro>, w3: seq<Micro>)
    requires Resting(base, f) && FineRun(f, w1) && ByWorkers(w1)
    requires FineRun(After(f, w1), w2) && ByWorkers(w2)
    requires FineRun(After(After(f, w1), w2), w3) && ByWorkers(w3)
    ensures
      var f1 := After(f, w1);
      && (f.s.nTotal == f1.s.nIdle <==> Joined(f, w1) == if Between(f1) then 1 else 0)
      && (f1.s.nTotal == f.s.nIdle <==> Joined(f, w1) == 0 && !Between(f))
    ensures
      var f2 := After(After(f, w1), w2);
      f2.s.nTodo == 0 && After(f2, w3).s.fAllOk
  {
    hide Resting, FineRun, After, Joined, ByWorkers;
    var base1 := RestingRun(base, f, w1);
    var base2 := RestingRun(base1, After(f, w1), w2);
    var base3 := RestingRun(base2, After(After(f, w1), w2), w3);
    RestingCounters(base, f);
    RestingCounters(base1, After(f, w1));
    RestingCounters(base2, After(After(f, w1), w2));
    RestingCounters(base3, After(After(After(f, w1), w2), w3));
  }

  /** While nobody holds the mutex and nothing happens between the reads, all three hold. */
  lemma AssertionsUnderMutex(base: State, f: Fine)
    requires Resting(base, f) && f.pc.Free?
    ensures f.s.nTotal == f.s.nIdle && f.s.nTodo == 0 && f.s.fAllOk
  {
    RestingCounters(base, f);
  }

  // ---------- a worker that wakes up late ----------

  ghost predicate Leads(f: Fine, ms: seq<Micro>, f': Fine) {
    FineRun(f, ms) && After(f, ms) == f'
  }

  lemma LeadsOn(f: Fine, m: Micro, f1: Fine, ms: seq<Micro>, f': Fine)
    requires Possible(f, m) && Next(f, m).0 == f1 && Leads(f1, ms, f')
    ensures Leads(f, [m] + ms, f')
  {
    hide Possible, Next;
    assert ([m] + ms)[1..] == ms;
  }

  lemma {:induction false} LeadsTwice(f: Fine, ms: seq<Micro>, f1: Fine, ns: seq<Micro>, f': Fine)
    requires Leads(f, ms, f1) && Leads(f1, ns, f')
    ensures Leads(f, ms + ns, f')
    decreases |ms|
  {
    hide Possible, Next;
    if ms == [] {
      assert ms + ns == ns;
    } else {
      LeadsTwice(Next(f, ms[0]).0, ms[1..], f1, ns, f');
      assert (ms + ns)[0] == ms[0] && (ms + ns)[1..] == ms[1..] + ns;
    }
  }

  const NOTIFIED := Sleeping(true)

  function Two(
      queue: seq<Check>, nIdle: int, nTotal: int, nTodo: int, master: Thread, worker: Thread, added: seq<Check>): State
  {
    State(queue, nIdle, nTotal, nTodo, true, 1, [master, worker], added)
  }

  /** The worker enters and goes to sleep. */
  lemma WorkerSleeps()
    ensures
      Leads(FineInit(1, 1), [Acquire(Enter(1)), Advance, Advance, Advance],
            Fine(Two([], 1, 1, 0, Outside, Sleeping(false), []), Free))
  {
    var f0, f4 := FineInit(1, 1), Fine(Two([], 1, 1, 0, Outside, Sleeping(false), []), Free);
    assert f0.s == Two([], 0, 0, 0, Outside, Outside, []);
    var f1 := Fine(f0.s, Begun(Enter(1)));
    var f2 := Fine(Two([], 0, 1, 0, Outside, Outside, []), Looping(Enter(1)));
    var f3 := Fine(Two([], 1, 1, 0, Outside, Outside, []), Counted(Enter(1)));
    hide FineRun, After;
    Ends(f4);
    LeadsOn(f3, Advance, f4, [], f4);
    LeadsOn(f2, Advance, f3, [Advance], f4);
    LeadsOn(f1, Advance, f2, [Advance, Advance], f4);
    LeadsOn(f0, Acquire(Enter(1)), f1, [Advance, Advance, Advance], f4);
  }

  lemma Ends(f: Fine)
    ensures Leads(f, [], f)
  {
  }

  /** The master adds a check, which notifies the worker. */
  lemma MasterAdds()
    ensures
      Leads(Fine(Two([], 1, 1, 0, Outside, Sleeping(false), []), Free),
            [Acquire(Add([true], Some(1))), Advance, Advance],
            Fine(Two([true], 1, 1, 1, Outside, NOTIFIED, [true]), Free))
  {
    var f0 := Fine(Two([], 1, 1, 0, Outside, Sleeping(false), []), Free);
    var f1 := Fine(f0.s, Begun(Add([true], Some(1))));
    var f2 := Fine(Two([true], 1, 1, 0, Outside, Sleeping(false), [true]), Pushed([true], Some(1)));
    var f3 := Fine(Two([true], 1, 1, 1, Outside, NOTIFIED, [true]), Free);
    hide FineRun, After;
    Ends(f3);
    LeadsOn(f2, Advance, f3, [], f3);
    LeadsOn(f1, Advance, f2, [Advance], f3);
    LeadsOn(f0, Acquire(Add([true], Some(1))), f1, [Advance, Advance], f3);
  }

  /** The master takes the check and executes it. */
  lemma MasterWorks()
    ensures
      Leads(Fine(Two([true], 1, 1, 1, Outside, NOTIFIED, [true]), Free),
            [Acquire(Enter(0)), Advance, Advance, Run(0)],
            Fine(Two([], 1, 2, 1, Executed([true], true), NOTIFIED, [true]), Free))
  {
    var f0 := Fine(Two([true], 1, 1, 1, Outside, NOTIFIED, [true]), Free);
    var f1 := Fine(f0.s, Begun(Enter(0)));
    var f2 := Fine(Two([true], 1, 2, 1, Outside, NOTIFIED, [true]), Looping(Enter(0)));
    var f3 := Fine(Two([], 1, 2, 1, Holding([true], true), NOTIFIED, [true]), Free);
    var f4 := Fine(Two([], 1, 2, 1, Executed([true], true), NOTIFIED, [true]), Free);
    hide FineRun, After;
    Ends(f4);
    assert [true][1..] == [] && RunBatch(true, [true]);
    LeadsOn(f3, Run(0), f4, [], f4);
    assert BatchCount(f2.s) == 1 && TakeBatch([true], 1) == [true] && [true][..0] == [];
    LeadsOn(f2, Advance, f3, [Run(0)], f4);
    LeadsOn(f1, Advance, f2, [Advance, Run(0)], f4);
    LeadsOn(f0, Acquire(Enter(0)), f1, [Advance, Advance, Run(0)], f4);
  }

  /** The master reports and returns, and only then the worker gets the lock, and finds nothing to do. */
  lemma WorkerIsLate()
    ensures
      Leads(Fine(Two([], 1, 2, 1, Executed([true], true), NOTIFIED, [true]), Free),
            [Acquire(Finish(0)), Advance, Advance, Advance, Advance, Acquire(Wake(1)), Advance],
            Fine(Two([], 0, 1, 0, Outside, Outside, []), Looping(Wake(1))))
  {
    var f0, f7 := Fine(Two([], 1, 2, 1, Executed([true], true), NOTIFIED, [true]), Free),
                  Fine(Two([], 0, 1, 0, Outside, Outside, []), Looping(Wake(1)));
    var f1 := Fine(f0.s, Begun(Finish(0)));
    var f2 := Fine(f0.s, Reported(0));
    var f3 := Fine(Two([], 1, 2, 0, Outside, NOTIFIED, [true]), Looping(Finish(0)));
    var f4 := Fine(Two([], 1, 1, 0, Outside, NOTIFIED, [true]), Leaving(Finish(0), true));
    var f5 := Fine(Two([], 1, 1, 0, Outside, NOTIFIED, []), Free);
    var f6 := Fine(f5.s, Begun(Wake(1)));
    hide FineRun, After;
    Ends(f7);
    LeadsOn(f6, Advance, f7, [], f7);
    LeadsOn(f5, Acquire(Wake(1)), f6, [Advance], f7);
    LeadsOn(f4, Advance, f5, [Acquire(Wake(1)), Advance], f7);
    LeadsOn(f3, Advance, f4, [Advance, Acquire(Wake(1)), Advance], f7);
    LeadsOn(f2, Advance, f3, [Advance, Advance, Acquire(Wake(1)), Advance], f7);
    LeadsOn(f1, Advance, f2, [Advance, Advance, Advance, Acquire(Wake(1)), Advance], f7);
    LeadsOn(f0, Acquire(Finish(0)), f1, [Advance, Advance, Advance, Advance, Acquire(Wake(1)), Advance], f7);
  }

  /** A worker that was notified in the last round and gets the lock after it: a controller constructed at this
      moment finds nTotal == nIdle + 1, and its first assertion fails. */
  lemma LateWorkerWitness() returns (ms: seq<Micro>, base: State)
    ensures FineRun(FineInit(1, 1), ms) && Resting(base, After(FineInit(1, 1), ms))
    ensures After(FineInit(1, 1), ms).s.nTotal == 1 && After(FineInit(1, 1), ms).s.nIdle == 0
  {
    hide FineRun, After, Possible, Next, Inv;
    WorkerSleeps();
    MasterAdds();
    MasterWorks();
    WorkerIsLate();
    var f0, f1 := FineInit(1, 1), Fine(Two([], 1, 1, 0, Outside, Sleeping(false), []), Free);
    var f2 := Fine(Two([true], 1, 1, 1, Outside, NOTIFIED, [true]), Free);
    var f3 := Fine(Two([], 1, 2, 1, Executed([true], true), NOTIFIED, [true]), Free);
    var f4 := Fine(Two([], 0, 1, 0, Outside, Outside, []), Looping(Wake(1)));
    var ms1 := [Acquire(Enter(1)), Advance, Advance, Advance];
    var ms2 := [Acquire(Add([true], Some(1))), Advance, Advance];
    var ms3 := [Acquire(Enter(0)), Advance, Advance, Run(0)];
    var ms4 := [Acquire(Finish(0)), Advance, Advance, Advance, Advance, Acquire(Wake(1)), Advance];
    LeadsTwice(f0, ms1, f1, ms2, f2);
    LeadsTwice(f0, ms1 + ms2, f2, ms3, f3);
    LeadsTwice(f0, ms1 + ms2 + ms3, f3, ms4, f4);
    ms := ms1 + ms2 + ms3 + ms4;
    InitInv(1, 1);
    base := ReachedAfter(Init(1, 1), FineInit(1, 1), ms);
  }

  lemma {:induction false} ReachedAfter(base: State, f: Fine, ms: seq<Micro>) returns (base': State)
    requires Inv(base) && Reached(base, f) && FineRun(f, ms)
    ensures Inv(base') && Reached(base', After(f, ms))
    decreases |ms|
  {
    hide Inv, Reached, Possible, Next;
    base' := base;
    if ms != [] {
      base' := MicroRefines(base, f, ms[0]);
      base' := ReachedAfter(base', Next(f, ms[0]).0, ms[1..]);
    }
  }
}
