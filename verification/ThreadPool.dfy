/** The POSIX thread pool of src/threadpool.c as a monitor: every stretch between taking and giving
    up the lock is one atomic step, and any interleaving of such steps is a run. */
module ThreadPool {
  type TaskId = nat

  const WRAP: nat := 0x1_0000_0000

  /** What one worker is doing: about to take the lock, waiting on cond, in a task's body, past the
      body and about to count it, or gone. */
  datatype Phase = Ready | Asleep | Running(task: TaskId) | Ran | Exited

  /** A client inside vg_threadpool_wait: about to take the lock, or waiting on done_cond. */
  datatype Waiter = Out | Looking | Sleeping

  /** The thread inside vg_threadpool_destroy; Freed carries how many queued tasks it threw away. */
  datatype Destroyer = Idle | Waiting | Dozing | Drained | Joining | Freed(leftover: nat)

  /** The fields of VG_ThreadPool the lock protects. */
  datatype Shared = Shared(queue: seq<TaskId>, nPending: nat, shutdown: bool)

  // ----- the critical sections, as functions of the shared fields -----

  function Submitted(f: Shared, t: TaskId): Shared {
    f.(queue := f.queue + [t], nPending := (f.nPending + 1) % WRAP)
  }

  datatype Outcome = Sleep | Leave | Take(task: TaskId)

  function Looked(f: Shared): (r: (Shared, Outcome)) {
    if |f.queue| > 0 then (f.(queue := f.queue[1..]), Take(f.queue[0]))
    else (f, if f.shutdown then Leave else Sleep)
  }

  /** The decrement with its guard, and whether done_cond is broadcast. */
  function Finished(f: Shared): (r: (Shared, bool)) {
    if f.nPending > 0 then (f.(nPending := f.nPending - 1), f.nPending == 1) else (f, false)
  }

  /** The pool object; each method is the body of one critical section. */
  class Pool {
    var queue: seq<TaskId>
    var nPending: nat
    var shutdown: bool

    function Fields(): Shared
      reads this
    {
      Shared(queue, nPending, shutdown)
    }

    constructor ()
      ensures Fields() == Shared([], 0, false)
    {
      queue, nPending, shutdown := [], 0, false;
    }

    method Submit(t: TaskId)
      modifies this
      ensures Fields() == Submitted(old(Fields()), t)
    {
      queue := queue + [t];
      nPending := (nPending + 1) % WRAP;
    }

    method Look() returns (o: Outcome)
      modifies this
      ensures (Fields(), o) == Looked(old(Fields()))
    {
      if queue == [] && !shutdown {
        return Sleep;
      }
      if shutdown && queue == [] {
        return Leave;
      }
      o := Take(queue[0]);
      queue := queue[1..];
    }

    method Finish() returns (broadcast: bool)
      modifies this
      ensures (Fields(), broadcast) == Finished(old(Fields()))
    {
      broadcast := false;
      if nPending > 0 {
        nPending := nPending - 1;
        broadcast := nPending == 0;
      }
    }
  }

  // ----- the whole system -----

  /** Threads and shared fields; runs counts the executions of each task submitted so far, holder
      says which worker took it. */
  datatype State = State(f: Shared, phase: seq<Phase>, waiters: seq<Waiter>, destroyer: Destroyer,
                         runs: seq<nat>, holder: map<TaskId, nat>)

  datatype Source = Client | Task(worker: nat)

  datatype Step =
    | Submit(source: Source, wake: set<nat>)
    | Look(w: nat)
    | Body(w: nat)
    | Finish(w: nat)
    | Spurious(w: nat)
    | EnterWait(c: nat)
    | WaitLook(c: nat)
    | SpuriousWait(c: nat)
    | EnterDestroy
    | DestroyLook
    | SpuriousDestroy
    | Shutdown
    | Join

  ghost predicate Sleeper(phase: seq<Phase>, w: nat) {
    w < |phase| && phase[w] == Asleep
  }

  /** A signal wakes at least one sleeping worker if there is one; POSIX allows it to wake more. */
  ghost predicate Signals(phase: seq<Phase>, wake: set<nat>) {
    (forall w :: w in wake ==> Sleeper(phase, w)) && (wake == {} ==> forall w :: !Sleeper(phase, w))
  }

  ghost predicate AllOut(waiters: seq<Waiter>) {
    forall c :: 0 <= c < |waiters| ==> waiters[c] == Out
  }

  ghost predicate AllExited(phase: seq<Phase>) {
    forall w :: 0 <= w < |phase| ==> phase[w] == Exited
  }

  /** When each step can be taken. Clients neither submit nor wait once destroy has been called. */
  ghost predicate Enabled(s: State, e: Step) {
    match e
    case Submit(Client, wake) => s.destroyer == Idle && Signals(s.phase, wake)
    case Submit(Task(w), wake) => w < |s.phase| && s.phase[w].Running? && Signals(s.phase, wake)
    case Look(w) => w < |s.phase| && s.phase[w] == Ready
    case Body(w) => w < |s.phase| && s.phase[w].Running? && s.phase[w].task < |s.runs|
    case Finish(w) => w < |s.phase| && s.phase[w] == Ran
    case Spurious(w) => w < |s.phase| && s.phase[w] == Asleep
    case EnterWait(c) => c < |s.waiters| && s.waiters[c] == Out && s.destroyer == Idle
    case WaitLook(c) => c < |s.waiters| && s.waiters[c] == Looking
    case SpuriousWait(c) => c < |s.waiters| && s.waiters[c] == Sleeping
    case EnterDestroy => s.destroyer == Idle && AllOut(s.waiters)
    case DestroyLook => s.destroyer == Waiting
    case SpuriousDestroy => s.destroyer == Dozing
    case Shutdown => s.destroyer == Drained
    case Join => s.destroyer == Joining && AllExited(s.phase)
  }

  function WakeOne(p: Phase): Phase {
    if p == Asleep then Ready else p
  }

  function Woken(phase: seq<Phase>, wake: set<nat>): (r: seq<Phase>)
    ensures |r| == |phase| && forall w :: 0 <= w < |phase| ==> r[w] == if w in wake then WakeOne(phase[w]) else phase[w]
  {
    seq(|phase|, w requires 0 <= w < |phase| => if w in wake then WakeOne(phase[w]) else phase[w])
  }

  function WakeAll(phase: seq<Phase>): (r: seq<Phase>)
    ensures |r| == |phase| && forall w :: 0 <= w < |phase| ==> r[w] == WakeOne(phase[w])
  {
    seq(|phase|, w requires 0 <= w < |phase| => WakeOne(phase[w]))
  }

  function WakeWaiters(waiters: seq<Waiter>): (r: seq<Waiter>)
    ensures |r| == |waiters| &&
            forall c :: 0 <= c < |waiters| ==> r[c] == if waiters[c] == Sleeping then Looking else waiters[c]
  {
    seq(|waiters|, c requires 0 <= c < |waiters| => if waiters[c] == Sleeping then Looking else waiters[c])
  }

  function AfterLook(s: State, w: nat): State
    requires w < |s.phase|
  {
    var (f, o) := Looked(s.f);
    match o
    case Sleep => s.(f := f, phase := s.phase[w := Asleep])
    case Leave => s.(f := f, phase := s.phase[w := Exited])
    case Take(t) => s.(f := f, phase := s.phase[w := Running(t)], holder := s.holder[t := w])
  }

  function AfterFinish(s: State, w: nat): State
    requires w < |s.phase|
  {
    var (f, broadcast) := Finished(s.f);
    s.(f := f, phase := s.phase[w := Ready],
       waiters := if broadcast then WakeWaiters(s.waiters) else s.waiters,
       destroyer := if broadcast && s.destroyer == Dozing then Waiting else s.destroyer)
  }

  function Apply(s: State, e: Step): State
    requires Enabled(s, e)
  {
    match e
    case Submit(_, wake) => s.(f := Submitted(s.f, |s.runs|), runs := s.runs + [0], phase := Woken(s.phase, wake))
    case Look(w) => AfterLook(s, w)
    case Body(w) => var t := s.phase[w].task; s.(runs := s.runs[t := s.runs[t] + 1], phase := s.phase[w := Ran])
    case Finish(w) => AfterFinish(s, w)
    case Spurious(w) => s.(phase := s.phase[w := Ready])
    case EnterWait(c) => s.(waiters := s.waiters[c := Looking])
    case WaitLook(c) => s.(waiters := s.waiters[c := if s.f.nPending > 0 then Sleeping else Out])
    case SpuriousWait(c) => s.(waiters := s.waiters[c := Looking])
    case EnterDestroy => s.(destroyer := Waiting)
    case DestroyLook => s.(destroyer := if s.f.nPending > 0 then Dozing else Drained)
    case SpuriousDestroy => s.(destroyer := Waiting)
    case Shutdown => s.(f := s.f.(shutdown := true), phase := WakeAll(s.phase), destroyer := Joining)
    case Join => s.(destroyer := Freed(|s.f.queue|))
  }

  // ----- counting over the workers -----

  datatype Kind = Idlers | Busy | Work

  /** One worker's contribution: to the idle workers, to the tasks in flight, to the work left. */
  function Weight(k: Kind, p: Phase): nat {
    match k
    case Idlers => if p == Ready then 1 else 0
    case Busy => if p.Running? || p == Ran then 1 else 0
    case Work => match p case Ready => 1 case Running(_) => 3 case Ran => 2 case Asleep => 0 case Exited => 0
  }

  function Total(k: Kind, phase: seq<Phase>): nat {
    if phase == [] then 0 else Weight(k, phase[0]) + Total(k, phase[1..])
  }

  lemma {:induction false} TotalUpdate(k: Kind, phase: seq<Phase>, w: nat, p: Phase)
    requires w < |phase|
    ensures Total(k, phase[w := p]) + Weight(k, phase[w]) == Total(k, phase) + Weight(k, p)
  {
    if w == 0 {
      assert phase[w := p][1..] == phase[1..];
    } else {
      assert phase[w := p][1..] == phase[1..][w - 1 := p];
      TotalUpdate(k, phase[1..], w - 1, p);
    }
  }

  lemma {:induction false} TotalZero(k: Kind, phase: seq<Phase>)
    ensures Total(k, phase) == 0 <==> forall w :: 0 <= w < |phase| ==> Weight(k, phase[w]) == 0
  {
    if phase != [] {
      TotalZero(k, phase[1..]);
      assert forall w :: 0 < w < |phase| ==> phase[w] == phase[1..][w - 1];
    }
  }

  lemma {:induction false} TotalWoken(phase: seq<Phase>, phase': seq<Phase>)
    requires |phase'| == |phase| &&
             forall w :: 0 <= w < |phase| ==> phase'[w] == phase[w] || phase'[w] == WakeOne(phase[w])
    ensures Total(Busy, phase') == Total(Busy, phase)
    ensures Total(Idlers, phase) <= Total(Idlers, phase') && Total(Work, phase') <= Total(Work, phase) + |phase|
    ensures phase' != phase ==> Total(Idlers, phase) < Total(Idlers, phase')
  {
    if phase != [] {
      TotalWoken(phase[1..], phase'[1..]);
      assert phase' == [phase'[0]] + phase'[1..] && phase == [phase[0]] + phase[1..];
    }
  }

  // ----- the invariant -----

  /** n_pending is exactly the queued tasks and the tasks taken but not yet counted. */
  ghost predicate Counted(s: State) {
    s.f.nPending == |s.f.queue| + Total(Busy, s.phase) && s.f.nPending < WRAP
  }

  /** The queue holds the latest submissions in order of submission. */
  ghost predicate Fifo(s: State) {
    |s.f.queue| <= |s.runs| && forall i :: 0 <= i < |s.f.queue| ==> s.f.queue[i] == |s.runs| - |s.f.queue| + i
  }

  function Taken(s: State): int {
    |s.runs| - |s.f.queue|
  }

  ghost predicate Held(s: State, t: TaskId) {
    t in s.holder && s.holder[t] < |s.phase| && s.phase[s.holder[t]] == Running(t)
  }

  /** A queued task has not run; a task taken has run once or is in exactly one worker's hands. */
  ghost predicate Once(s: State) {
    (forall t :: 0 <= t < |s.runs| ==>
      if t < Taken(s) then s.runs[t] == 1 || (s.runs[t] == 0 && Held(s, t)) else s.runs[t] == 0) &&
    forall w :: 0 <= w < |s.phase| && s.phase[w].Running? ==>
      var t := s.phase[w].task; t < Taken(s) && s.runs[t] == 0 && t in s.holder && s.holder[t] == w
  }

  /** No lost wake-up: while a worker sleeps, there is an idle, awake worker for every queued task. */
  ghost predicate Awake(s: State) {
    (forall w :: !Sleeper(s.phase, w)) || |s.f.queue| <= Total(Idlers, s.phase)
  }

  /** Whoever sleeps in wait has something to wait for. */
  ghost predicate Waited(s: State) {
    (forall c :: 0 <= c < |s.waiters| && s.waiters[c] == Sleeping ==> s.f.nPending > 0) &&
    (s.destroyer == Dozing ==> s.f.nPending > 0)
  }

  ghost predicate Closing(s: State) {
    (s.f.shutdown <==> s.destroyer.Joining? || s.destroyer.Freed?) &&
    (s.destroyer.Drained? || s.f.shutdown ==> s.f.nPending == 0) &&
    (s.f.shutdown ==> forall w :: !Sleeper(s.phase, w)) &&
    (forall w :: 0 <= w < |s.phase| && s.phase[w] == Exited ==> s.f.shutdown) &&
    (s.destroyer.Freed? ==> s.destroyer.leftover == 0 && AllExited(s.phase)) &&
    (s.destroyer != Idle ==> AllOut(s.waiters))
  }

  ghost predicate Inv(s: State) {
    |s.phase| > 0 && Counted(s) && Fifo(s) && Once(s) && Awake(s) && Waited(s) && Closing(s)
  }

  /** vg_threadpool_create: all workers about to look for work. */
  function Created(nWorkers: nat, nClients: nat): State {
    var workers := if nWorkers == 0 then 1 else nWorkers;
    State(Shared([], 0, false), seq(workers, _ => Ready), seq(nClients, _ => Out), Idle, [], map[])
  }

  lemma CreatedInv(nWorkers: nat, nClients: nat)
    ensures Inv(Created(nWorkers, nClients))
    ensures |Created(nWorkers, nClients).phase| == if nWorkers > 0 then nWorkers else 1
  {
    TotalZero(Busy, Created(nWorkers, nClients).phase);
  }

  /** Fewer than 2^32 tasks are pending after the step. */
  ghost predicate Roomy(s: State, e: Step) {
    e.Submit? ==> s.f.nPending + 1 < WRAP
  }

  lemma CountedLook(s: State, w: nat)
    requires Counted(s) && Enabled(s, Look(w))
    ensures Counted(Apply(s, Look(w)))
  {
    TotalUpdate(Busy, s.phase, w, Apply(s, Look(w)).phase[w]);
  }

  lemma CountedFinish(s: State, w: nat)
    requires Counted(s) && Enabled(s, Finish(w))
    ensures Counted(Apply(s, Finish(w)))
  {
    TotalUpdate(Busy, s.phase, w, Ready);
  }

  lemma CountedSubmit(s: State, source: Source, wake: set<nat>)
    requires Counted(s) && Enabled(s, Submit(source, wake)) && s.f.nPending + 1 < WRAP
    ensures Counted(Apply(s, Submit(source, wake)))
  {
    TotalWoken(s.phase, Woken(s.phase, wake));
  }

  lemma CountedKept(s: State, e: Step)
    requires Inv(s) && Enabled(s, e) && Roomy(s, e)
    ensures Counted(Apply(s, e))
  {
    match e
    case Submit(source, wake) => CountedSubmit(s, source, wake);
    case Look(w) => CountedLook(s, w);
    case Finish(w) => CountedFinish(s, w);
    case Body(w) => TotalUpdate(Busy, s.phase, w, Ran);
    case Spurious(w) => TotalUpdate(Busy, s.phase, w, Ready);
    case Shutdown => TotalWoken(s.phase, WakeAll(s.phase));
    case _ =>
  }

  lemma FifoKept(s: State, e: Step)
    requires Inv(s) && Enabled(s, e)
    ensures Fifo(Apply(s, e))
  {
  }

  lemma OnceSubmit(s: State, source: Source, wake: set<nat>)
    requires Fifo(s) && Once(s) && Enabled(s, Submit(source, wake))
    ensures Once(Apply(s, Submit(source, wake)))
  {
  }

  lemma OnceLook(s: State, w: nat)
    requires Fifo(s) && Once(s) && Enabled(s, Look(w))
    ensures Once(Apply(s, Look(w)))
  {
  }

  lemma OnceBody(s: State, w: nat)
    requires Fifo(s) && Once(s) && Enabled(s, Body(w))
    ensures Once(Apply(s, Body(w)))
  {
  }

  /** The other steps run nothing and leave the queue and the running workers alone. */
  lemma OnceOther(s: State, e: Step)
    requires Once(s) && Enabled(s, e) && !e.Submit? && !e.Look? && !e.Body?
    ensures Once(Apply(s, e))
  {
  }

  lemma OnceKept(s: State, e: Step)
    requires Inv(s) && Enabled(s, e)
    ensures Once(Apply(s, e))
  {
    match e
    case Submit(source, wake) => OnceSubmit(s, source, wake);
    case Look(w) => OnceLook(s, w);
    case Body(w) => OnceBody(s, w);
    case _ => OnceOther(s, e);
  }

  /** Workers fall asleep only on an empty queue. */
  lemma NoNewSleeper(s: State, e: Step, v: nat)
    requires Inv(s) && Enabled(s, e) && Sleeper(Apply(s, e).phase, v) && !Sleeper(s.phase, v)
    ensures s.f.queue == [] && !s.f.shutdown && Apply(s, e).f == s.f
  {
  }

  lemma AwakeKept(s: State, e: Step)
    requires Inv(s) && Enabled(s, e)
    ensures Awake(Apply(s, e))
  {
    forall v | Sleeper(Apply(s, e).phase, v) && !Sleeper(s.phase, v) ensures Awake(Apply(s, e)) {
      NoNewSleeper(s, e, v);
    }
    match e
    case Submit(_, wake) =>
      TotalWoken(s.phase, Woken(s.phase, wake));
      if wake != {} {
        var w :| w in wake;
        assert Sleeper(s.phase, w);
      }
    case Look(w) => TotalUpdate(Idlers, s.phase, w, Apply(s, e).phase[w]);
    case Body(w) => TotalUpdate(Idlers, s.phase, w, Ran);
    case Finish(w) => TotalUpdate(Idlers, s.phase, w, Ready);
    case Spurious(w) => TotalUpdate(Idlers, s.phase, w, Ready);
    case Shutdown => TotalWoken(s.phase, WakeAll(s.phase));
    case _ =>
  }

  lemma WaitedKept(s: State, e: Step)
    requires Inv(s) && Enabled(s, e) && Roomy(s, e)
    ensures Waited(Apply(s, e))
  {
  }

  lemma ClosingKept(s: State, e: Step)
    requires Inv(s) && Enabled(s, e)
    ensures Closing(Apply(s, e))
  {
    TotalZero(Busy, s.phase);
    forall v | s.f.shutdown && Sleeper(Apply(s, e).phase, v) ensures Sleeper(s.phase, v) {
      if !Sleeper(s.phase, v) {
        NoNewSleeper(s, e, v);
        assert false;
      }
    }
  }

  /** Every step of every thread keeps the invariant. */
  lemma StepKeepsInv(s: State, e: Step)
    requires Inv(s) && Enabled(s, e) && Roomy(s, e)
    ensures Inv(Apply(s, e))
  {
    CountedKept(s, e);
    FifoKept(s, e);
    OnceKept(s, e);
    AwakeKept(s, e);
    WaitedKept(s, e);
    ClosingKept(s, e);
  }

  // ----- runs -----

  ghost predicate Run(s: State, es: seq<Step>)
    decreases |es|
  {
    es == [] || (Enabled(s, es[0]) && Roomy(s, es[0]) && Run(Apply(s, es[0]), es[1..]))
  }

  ghost function End(s: State, es: seq<Step>): State
    requires Run(s, es)
    decreases |es|
  {
    if es == [] then s else End(Apply(s, es[0]), es[1..])
  }

  /** The invariant holds after any interleaving of steps from any good state. */
  lemma {:induction false} RunKeepsInv(s: State, es: seq<Step>)
    requires Inv(s) && Run(s, es)
    ensures Inv(End(s, es))
    decreases |es|
  {
    if es != [] {
      StepKeepsInv(s, es[0]);
      RunKeepsInv(Apply(s, es[0]), es[1..]);
    }
  }

  ghost predicate AllDone(s: State) {
    forall t :: 0 <= t < |s.runs| ==> s.runs[t] == 1
  }

  /** When nothing is pending, every task submitted so far has run exactly once. */
  lemma NothingPending(s: State)
    requires Inv(s) && s.f.nPending == 0
    ensures AllDone(s) && s.f.queue == []
  {
    forall t | 0 <= t < |s.runs| ensures s.runs[t] == 1 {
      HolderIsBusy(s, t);
    }
  }

  lemma HolderIsBusy(s: State, t: TaskId)
    ensures Held(s, t) ==> Total(Busy, s.phase) > 0
  {
    TotalZero(Busy, s.phase);
    if Held(s, t) {
      assert Weight(Busy, s.phase[s.holder[t]]) == 1;
    }
  }

  /** In every interleaving: no task runs twice, a return from wait means all have run, a destroyed pool
      threw nothing away, and the guard of the decrement never has to hide an underflow. */
  lemma PoolIsSafe(nWorkers: nat, nClients: nat, es: seq<Step>, e: Step)
    requires Run(Created(nWorkers, nClients), es) && Enabled(End(Created(nWorkers, nClients), es), e)
    ensures var s := End(Created(nWorkers, nClients), es);
            (forall t :: 0 <= t < |s.runs| ==> s.runs[t] <= 1) &&
            (e.WaitLook? && Apply(s, e).waiters[e.c] == Out ==> AllDone(s)) &&
            (e.DestroyLook? && Apply(s, e).destroyer == Drained ==> AllDone(s)) &&
            (e.Join? ==> Apply(s, e).destroyer == Freed(0) && AllDone(s)) &&
            (e.Finish? ==> s.f.nPending > 0)
  {
    var s := End(Created(nWorkers, nClients), es);
    CreatedInv(nWorkers, nClients);
    RunKeepsInv(Created(nWorkers, nClients), es);
    TotalZero(Busy, s.phase);
    if s.f.nPending == 0 {
      NothingPending(s);
    }
  }

  /** Tasks are taken in the order of their submission. */
  lemma TakenInOrder(s: State, w: nat)
    requires Inv(s) && Enabled(s, Look(w)) && |s.f.queue| > 0
    ensures Apply(s, Look(w)).phase[w] == Running(Taken(s)) && Taken(Apply(s, Look(w))) == Taken(s) + 1
  {
  }

  // ----- progress -----

  /** Steps the pool takes by itself: no new submission, no new caller, no spurious wake-up. */
  ghost predicate Internal(e: Step) {
    e.Look? || e.Body? || e.Finish? || e.WaitLook? || e.DestroyLook? || e.Shutdown? || e.Join?
  }

  ghost predicate Unfinished(s: State) {
    s.f.nPending > 0 || !AllOut(s.waiters) || !(s.destroyer.Idle? || s.destroyer.Freed?)
  }

  /** While tasks are pending, some worker can step. */
  lemma PendingSteps(s: State) returns (e: Step)
    requires Inv(s) && s.f.nPending > 0
    ensures Enabled(s, e) && Internal(e)
  {
    TotalZero(Busy, s.phase);
    TotalZero(Idlers, s.phase);
    assert Sleeper(s.phase, 0) <==> s.phase[0] == Asleep;
    if Total(Busy, s.phase) > 0 {
      var w :| 0 <= w < |s.phase| && Weight(Busy, s.phase[w]) != 0;
      e := if s.phase[w] == Ran then Finish(w) else Body(w);
    } else if Total(Idlers, s.phase) > 0 {
      var w :| 0 <= w < |s.phase| && Weight(Idlers, s.phase[w]) != 0;
      e := Look(w);
    } else {
      assert false;
    }
  }

  /** Nobody is stuck: while a task is pending or a caller is inside wait or destroy, a step is enabled. */
  lemma NoDeadlock(s: State) returns (e: Step)
    requires Inv(s) && Unfinished(s)
    ensures Enabled(s, e) && Internal(e)
  {
    if s.f.nPending > 0 {
      e := PendingSteps(s);
    } else if !AllOut(s.waiters) {
      var c :| 0 <= c < |s.waiters| && s.waiters[c] != Out;
      e := WaitLook(c);
    } else {
      match s.destroyer
      case Waiting => e := DestroyLook;
      case Drained => e := Shutdown;
      case Joining =>
        if AllExited(s.phase) {
          e := Join;
        } else {
          var w :| 0 <= w < |s.phase| && s.phase[w] != Exited;
          TotalZero(Busy, s.phase);
          assert !Sleeper(s.phase, w) && Weight(Busy, s.phase[w]) == 0;
          e := Look(w);
        }
    }
  }

  function WaiterWork(p: Waiter, pending: bool): nat {
    match p case Out => 0 case Sleeping => 2 case Looking => if pending then 3 else 1
  }

  function WaitersWork(waiters: seq<Waiter>, pending: bool): nat {
    if waiters == [] then 0 else WaiterWork(waiters[0], pending) + WaitersWork(waiters[1..], pending)
  }

  function DestroyerWork(d: Destroyer, pending: bool, nWorkers: nat): nat {
    match d
    case Idle => 0
    case Waiting => nWorkers + if pending then 5 else 3
    case Dozing => nWorkers + 4
    case Drained => nWorkers + 2
    case Joining => 1
    case Freed(_) => 0
  }

  /** An upper bound on the steps the pool can still take by itself. */
  function Measure(s: State): nat {
    3 * |s.f.queue| + Total(Work, s.phase) + WaitersWork(s.waiters, s.f.nPending > 0) +
    DestroyerWork(s.destroyer, s.f.nPending > 0, |s.phase|)
  }

  lemma {:induction false} WaitersUpdate(waiters: seq<Waiter>, c: nat, p: Waiter, pending: bool)
    requires c < |waiters|
    ensures WaitersWork(waiters[c := p], pending) + WaiterWork(waiters[c], pending) ==
            WaitersWork(waiters, pending) + WaiterWork(p, pending)
  {
    if c == 0 {
      assert waiters[c := p][1..] == waiters[1..];
    } else {
      assert waiters[c := p][1..] == waiters[1..][c - 1 := p];
      WaitersUpdate(waiters[1..], c - 1, p, pending);
    }
  }

  lemma {:induction false} WaitersWoken(waiters: seq<Waiter>)
    ensures WaitersWork(WakeWaiters(waiters), false) <= WaitersWork(waiters, true)
  {
    if waiters != [] {
      WaitersWoken(waiters[1..]);
      assert WakeWaiters(waiters)[1..] == WakeWaiters(waiters[1..]);
    }
  }

  lemma MeasureLook(s: State, w: nat)
    requires Inv(s) && Enabled(s, Look(w))
    ensures Measure(Apply(s, Look(w))) < Measure(s)
  {
    TotalUpdate(Work, s.phase, w, Apply(s, Look(w)).phase[w]);
  }

  lemma MeasureFinish(s: State, w: nat)
    requires Inv(s) && Enabled(s, Finish(w))
    ensures Measure(Apply(s, Finish(w))) < Measure(s)
  {
    TotalUpdate(Work, s.phase, w, Ready);
    TotalZero(Busy, s.phase);
    WaitersWoken(s.waiters);
  }

  lemma MeasureShutdown(s: State)
    requires Inv(s) && Enabled(s, Shutdown)
    ensures Measure(Apply(s, Shutdown)) < Measure(s)
  {
    TotalWoken(s.phase, WakeAll(s.phase));
  }

  /** Every internal step uses up work. */
  lemma MeasureFalls(s: State, e: Step)
    requires Inv(s) && Enabled(s, e) && Internal(e)
    ensures Measure(Apply(s, e)) < Measure(s)
  {
    match e
    case Look(w) => MeasureLook(s, w);
    case Finish(w) => MeasureFinish(s, w);
    case Shutdown => MeasureShutdown(s);
    case Body(w) => TotalUpdate(Work, s.phase, w, Ran);
    case WaitLook(c) => WaitersUpdate(s.waiters, c, Apply(s, e).waiters[c], s.f.nPending > 0);
    case _ =>
  }

  ghost predicate AllInternal(es: seq<Step>) {
    forall i :: 0 <= i < |es| ==> Internal(es[i])
  }

  lemma {:induction false} RunIsBounded(s: State, es: seq<Step>)
    requires Inv(s) && Run(s, es) && AllInternal(es)
    ensures |es| + Measure(End(s, es)) <= Measure(s)
    decreases |es|
  {
    if es != [] {
      StepKeepsInv(s, es[0]);
      MeasureFalls(s, es[0]);
      RunIsBounded(Apply(s, es[0]), es[1..]);
    }
  }

  /** Left to itself the pool cannot run forever, and where it stops every wait and destroy has returned
      and every task has run exactly once. */
  lemma WaitReturns(s: State, es: seq<Step>)
    requires Inv(s) && Run(s, es) && AllInternal(es)
    requires forall e :: Internal(e) ==> !Enabled(End(s, es), e)
    ensures |es| <= Measure(s)
    ensures var t := End(s, es); AllOut(t.waiters) && (t.destroyer.Idle? || t.destroyer == Freed(0)) && AllDone(t)
  {
    RunIsBounded(s, es);
    RunKeepsInv(s, es);
    var t := End(s, es);
    if Unfinished(t) {
      var e := NoDeadlock(t);
      assert false;
    }
    NothingPending(t);
  }

  // ----- waiting from inside a task -----

  /** Until its own body ends, a worker stays in it, and its task stays counted. */
  lemma BodyIsCounted(s: State, e: Step, w: nat)
    requires Inv(s) && Enabled(s, e) && Roomy(s, e) && w < |s.phase| && s.phase[w].Running? && e != Body(w)
    ensures Inv(Apply(s, e)) && w < |Apply(s, e).phase| && Apply(s, e).phase[w] == s.phase[w]
  {
    StepKeepsInv(s, e);
  }

  /** So a wait that a task calls from its body never returns: however the other threads go on, its test finds a pending
      task every time. */
  lemma {:induction false} WaitInsideTask(s: State, es: seq<Step>, w: nat)
    requires Inv(s) && Run(s, es) && w < |s.phase| && s.phase[w].Running? && Body(w) !in es
    ensures var t := End(s, es); w < |t.phase| && t.phase[w] == s.phase[w] && t.f.nPending > 0
    decreases |es|
  {
    if es == [] {
      TotalZero(Busy, s.phase);
      assert Weight(Busy, s.phase[w]) == 1;
    } else {
      BodyIsCounted(s, es[0], w);
      WaitInsideTask(Apply(s, es[0]), es[1..], w);
    }
  }

  // ----- the width of n_pending -----

  /** A submission keeps the invariant exactly while the 32-bit counter has room for it. */
  lemma SubmitNeedsRoom(s: State, source: Source, wake: set<nat>)
    requires Inv(s) && Enabled(s, Submit(source, wake))
    ensures Inv(Apply(s, Submit(source, wake))) <==> s.f.nPending + 1 < WRAP
  {
    if s.f.nPending + 1 < WRAP {
      StepKeepsInv(s, Submit(source, wake));
    }
  }

  /** A pool with a full counter and a client about to look at it. */
  function Brimful(): State {
    var n := WRAP - 1;
    State(Shared(seq(n, i => i), n, false), [Ready], [Looking], Idle, seq(n, _ => 0), map[])
  }

  /** One submission more, and wait returns at once although no task has run. */
  lemma WaitReturnsTooEarly()
    ensures Inv(Brimful()) && Enabled(Brimful(), Submit(Client, {}))
    ensures var s := Apply(Brimful(), Submit(Client, {}));
            s.f.nPending == 0 && Enabled(s, WaitLook(0)) && Apply(s, WaitLook(0)).waiters[0] == Out && s.runs[0] == 0
  {
    TotalZero(Busy, Brimful().phase);
    assert Total(Busy, [Ready]) == 0;
  }
}
