/** lib/ThreadPool.hpp over lib/WorkQueue.hpp: all interleavings of producers, workers and shutdown callers,
    one atomic action at a time. Notifications are sent after the lock is released, so they are actions of their own. */
module ThreadPools {
  import opened Bytes
  import opened WorkQueues

  /** Where a worker thread stands in its loop. */
  datatype Worker =
    | Checking                // about to read the running flag
    | Entering                // about to take the lock in `pop`
    | Blocked                 // in `cv.wait`, not notified
    | Notified                // woken, about to retake the lock and re-evaluate
    | Holding(task: Task)     // `pop` returned true, counter not yet raised
    | Running(task: Task)     // inside the task
    | Exited

  datatype Pool = Pool(
    shared: QueueState,       // the queue and its shutdown flag
    running: bool,            // the pool's running flag
    active: int,              // currentActiveTasks
    workers: seq<Worker>,
    pendingOne: nat,          // pushes whose notify_one is still to come
    stopping: nat,            // shutdown calls that cleared the running flag, queue not yet closed
    pendingAll: nat)          // shutdown calls that closed the queue, notify_all still to come

  datatype Action =
    | Push(task: Task)
    | NotifyOne(target: nat)  // wakes the blocked worker `target`; any number when none is blocked
    | SpuriousWake(worker: nat)
    | StopRunning
    | CloseQueue
    | NotifyAll
    | ReadFlag(worker: nat)
    | TryPop(worker: nat)
    | Start(worker: nat)
    | Finish(worker: nat)     // the task returned, or threw a std::exception

  function Initial(threads: nat): Pool {
    Pool(QueueState([], false), true, 0, seq(threads, _ => Checking), 0, 0, 0)
  }

  predicate SomeBlocked(ws: seq<Worker>) { Blocked in ws }

  function WakeAll(ws: seq<Worker>): (r: seq<Worker>)
    ensures |r| == |ws|
  {
    seq(|ws|, i requires 0 <= i < |ws| => if ws[i] == Blocked then Notified else ws[i])
  }

  function Set(s: Pool, w: nat, to: Worker): Pool
    requires w < |s.workers|
  {
    s.(workers := s.workers[w := to])
  }

  /** The state after an action, or None where the action cannot happen. */
  function Next(s: Pool, a: Action): Option<Pool> {
    match a
    case Push(task) => Some(s.(shared := PushOnce(s.shared, task), pendingOne := s.pendingOne + 1))
    case NotifyOne(target) =>
      if s.pendingOne == 0 then None
      else if !SomeBlocked(s.workers) then Some(s.(pendingOne := s.pendingOne - 1))
      else if target < |s.workers| && s.workers[target] == Blocked then
        Some(Set(s.(pendingOne := s.pendingOne - 1), target, Notified))
      else None
    case SpuriousWake(w) =>
      if w < |s.workers| && s.workers[w] == Blocked then Some(Set(s, w, Notified)) else None
    case StopRunning => Some(s.(running := false, stopping := s.stopping + 1))
    case CloseQueue =>
      if s.stopping == 0 then None
      else Some(s.(shared := CloseOnce(s.shared), stopping := s.stopping - 1, pendingAll := s.pendingAll + 1))
    case NotifyAll =>
      if s.pendingAll == 0 then None
      else Some(s.(workers := WakeAll(s.workers), pendingAll := s.pendingAll - 1))
    case ReadFlag(w) =>
      if w < |s.workers| && s.workers[w] == Checking then
        Some(Set(s, w, if s.running then Entering else Exited))
      else None
    case TryPop(w) =>
      if w < |s.workers| && (s.workers[w] == Entering || s.workers[w] == Notified) then
        var (shared, r) := PopOnce(s.shared);
        Some(Set(s.(shared := shared), w,
          match r case Wait => Blocked case Closed => Checking case Item(task) => Holding(task)))
      else None
    case Start(w) =>
      if w < |s.workers| && s.workers[w].Holding? then
        Some(Set(s.(active := s.active + 1), w, Running(s.workers[w].task)))
      else None
    case Finish(w) =>
      if w < |s.workers| && s.workers[w].Running? then Some(Set(s.(active := s.active - 1), w, Checking)) else None
  }

  /** The state after a sequence of actions, or None where one of them could not happen. */
  function Run(s: Pool, actions: seq<Action>): Option<Pool>
    decreases |actions|
  {
    if actions == [] then Some(s)
    else match Next(s, actions[0]) case None => None case Some(s') => Run(s', actions[1..])
  }

  // ----- counting workers -----

  function CountIf(ws: seq<Worker>, p: Worker -> bool): nat {
    if ws == [] then 0 else (if p(ws[0]) then 1 else 0) + CountIf(ws[1..], p)
  }

  predicate IsRunning(w: Worker) { w.Running? }

  predicate IsNotified(w: Worker) { w == Notified }

  lemma {:induction false} CountUpdate(ws: seq<Worker>, i: nat, w: Worker, p: Worker -> bool)
    requires i < |ws|
    ensures CountIf(ws[i := w], p) == CountIf(ws, p) - (if p(ws[i]) then 1 else 0) + if p(w) then 1 else 0
    decreases |ws|
  {
    if i > 0 {
      assert ws[i := w][1..] == ws[1..][i - 1 := w];
      CountUpdate(ws[1..], i - 1, w, p);
    } else {
      assert ws[i := w][1..] == ws[1..];
    }
  }

  lemma {:induction false} WakeAllCounts(ws: seq<Worker>)
    ensures CountIf(WakeAll(ws), IsRunning) == CountIf(ws, IsRunning)
    ensures !SomeBlocked(WakeAll(ws))
  {
    if ws != [] {
      assert WakeAll(ws)[1..] == WakeAll(ws[1..]);
      WakeAllCounts(ws[1..]);
    }
  }

  lemma {:induction false} CountNone(ws: seq<Worker>, p: Worker -> bool)
    requires forall w :: w in ws ==> !p(w)
    ensures CountIf(ws, p) == 0
  {
    if ws != [] {
      assert ws[0] in ws;
      CountNone(ws[1..], p);
    }
  }

  // ----- the inductive invariant -----

  predicate Inv(s: Pool) {
    && s.active == CountIf(s.workers, IsRunning)
    && (SomeBlocked(s.workers) ==> |s.shared.queue| <= s.pendingOne + CountIf(s.workers, IsNotified))
    && (SomeBlocked(s.workers) && s.shared.shutdown ==> s.pendingAll > 0)
    && (s.shared.shutdown || s.stopping > 0 ==> !s.running)
    && (Exited in s.workers ==> !s.running)
    && (s.pendingAll > 0 ==> s.shared.shutdown)
  }

  lemma BlockedAfterSet(ws: seq<Worker>, w: nat, to: Worker)
    requires w < |ws|
    ensures SomeBlocked(ws[w := to]) ==> SomeBlocked(ws) || to == Blocked
    ensures Exited in ws[w := to] ==> Exited in ws || to == Exited
  {
  }

  lemma StepKeepsInv(s: Pool, a: Action)
    requires Inv(s) && Next(s, a).Some?
    ensures Inv(Next(s, a).value)
  {
    hide CountIf, SomeBlocked, WakeAll;
    match a
    case Push(_) =>
    case StopRunning =>
    case CloseQueue =>
    case NotifyOne(w) => if SomeBlocked(s.workers) { Recount(s.workers, w, Notified); }
    case SpuriousWake(w) => Recount(s.workers, w, Notified);
    case NotifyAll => WakeAllCounts(s.workers); WakeAllExited(s.workers);
    case ReadFlag(w) => Recount(s.workers, w, if s.running then Entering else Exited);
    case TryPop(w) => Recount(s.workers, w, Next(s, a).value.workers[w]);
    case Start(w) => Recount(s.workers, w, Running(s.workers[w].task));
    case Finish(w) => Recount(s.workers, w, Checking);
  }

  lemma Recount(ws: seq<Worker>, w: nat, to: Worker)
    requires w < |ws|
    ensures CountIf(ws[w := to], IsRunning)
         == CountIf(ws, IsRunning) - (if ws[w].Running? then 1 else 0) + (if to.Running? then 1 else 0)
    ensures CountIf(ws[w := to], IsNotified)
         == CountIf(ws, IsNotified) - (if ws[w] == Notified then 1 else 0) + (if to == Notified then 1 else 0)
    ensures SomeBlocked(ws[w := to]) ==> SomeBlocked(ws) || to == Blocked
    ensures Exited in ws[w := to] ==> Exited in ws || to == Exited
  {
    CountUpdate(ws, w, to, IsRunning);
    CountUpdate(ws, w, to, IsNotified);
    BlockedAfterSet(ws, w, to);
  }

  lemma WakeAllExited(ws: seq<Worker>)
    ensures Exited in WakeAll(ws) ==> Exited in ws
  {
  }

  lemma InitialInv(threads: nat)
    ensures Inv(Initial(threads))
  {
    CountNone(Initial(threads).workers, IsRunning);
  }

  lemma {:induction false} RunKeepsInv(s: Pool, actions: seq<Action>)
    requires Inv(s) && Run(s, actions).Some?
    ensures Inv(Run(s, actions).value)
    decreases |actions|
  {
    hide Next, Inv;
    if actions != [] {
      StepKeepsInv(s, actions[0]);
      RunKeepsInv(Next(s, actions[0]).value, actions[1..]);
    }
  }

  /** No lost wake-up, whatever the interleaving: while a worker sleeps un-notified, every queued task is matched by a
      notification still to come or a woken worker still to run, and once the queue is closed the notify_all is still
      to come. The active counter is the number of workers inside a task. */
  lemma NoLostWakeUp(threads: nat, actions: seq<Action>)
    requires Run(Initial(threads), actions).Some?
    ensures var s := Run(Initial(threads), actions).value;
      && (SomeBlocked(s.workers) ==> |s.shared.queue| <= s.pendingOne + CountIf(s.workers, IsNotified))
      && (SomeBlocked(s.workers) && s.shared.shutdown ==> s.pendingAll > 0)
      && s.active == CountIf(s.workers, IsRunning)
  {
    hide Run, Initial, CountIf, SomeBlocked;
    InitialInv(threads);
    RunKeepsInv(Initial(threads), actions);
  }

  /** Hence queued work never waits for nobody: with no notification in flight and the pool running,
      some worker is awake. */
  lemma QueuedWorkHasAWorker(threads: nat, actions: seq<Action>)
    requires threads > 0 && Run(Initial(threads), actions).Some?
    ensures var s := Run(Initial(threads), actions).value;
      s.shared.queue != [] && s.pendingOne == 0 && s.running ==>
        exists w :: w in s.workers && w != Blocked && w != Exited
  {
    InitialInv(threads);
    RunKeepsInv(Initial(threads), actions);
    RunKeepsThreads(Initial(threads), actions);
    hide Run, Initial, Next;
    var s := Run(Initial(threads), actions).value;
    assert s.workers[0] in s.workers;
    if forall w :: w in s.workers ==> w == Blocked || w == Exited {
      CountNone(s.workers, IsNotified);
    }
  }

  lemma StepKeepsThreads(s: Pool, a: Action)
    requires Next(s, a).Some?
    ensures |Next(s, a).value.workers| == |s.workers|
  {
    hide WakeAll, SomeBlocked;
  }

  lemma {:induction false} RunKeepsThreads(s: Pool, actions: seq<Action>)
    requires Run(s, actions).Some?
    ensures |Run(s, actions).value.workers| == |s.workers|
    decreases |actions|
  {
    if actions != [] {
      StepKeepsThreads(s, actions[0]);
      hide Next;
      RunKeepsThreads(Next(s, actions[0]).value, actions[1..]);
    }
  }

  // ----- exactly once, first in first out -----

  function Pushed(actions: seq<Action>): seq<Task> {
    if actions == [] then [] else (if actions[0].Push? then [actions[0].task] else []) + Pushed(actions[1..])
  }

  /** The task an action takes off the queue. */
  function PoppedBy(s: Pool, a: Action): seq<Task> {
    if a.TryPop? && Next(s, a).Some? && s.shared.queue != [] then [s.shared.queue[0]] else []
  }

  function FinishedBy(s: Pool, a: Action): seq<Task> {
    if a.Finish? && Next(s, a).Some? then [s.workers[a.worker].task] else []
  }

  function Popped(s: Pool, actions: seq<Action>): seq<Task>
    decreases |actions|
  {
    if actions == [] || Next(s, actions[0]).None? then []
    else PoppedBy(s, actions[0]) + Popped(Next(s, actions[0]).value, actions[1..])
  }

  function Finished(s: Pool, actions: seq<Action>): seq<Task>
    decreases |actions|
  {
    if actions == [] || Next(s, actions[0]).None? then []
    else FinishedBy(s, actions[0]) + Finished(Next(s, actions[0]).value, actions[1..])
  }

  /** Has the worker taken `task` without having finished it? */
  function HasInHand(task: Task): Worker -> bool {
    (w: Worker) => (w.Holding? || w.Running?) && w.task == task
  }

  lemma {:induction false} WakeAllInHand(ws: seq<Worker>, task: Task)
    ensures CountIf(WakeAll(ws), HasInHand(task)) == CountIf(ws, HasInHand(task))
  {
    if ws != [] {
      assert WakeAll(ws)[1..] == WakeAll(ws[1..]);
      WakeAllInHand(ws[1..], task);
    }
  }

  lemma StepMovesQueue(s: Pool, a: Action)
    requires Next(s, a).Some?
    ensures PoppedBy(s, a) + Next(s, a).value.shared.queue == s.shared.queue + PushedBy(a)
  {
    hide WakeAll, SomeBlocked;
  }

  lemma StepMovesHands(s: Pool, a: Action, task: Task)
    requires Next(s, a).Some?
    ensures CountIf(s.workers, HasInHand(task)) + Occurs(task, PoppedBy(s, a))
         == CountIf(Next(s, a).value.workers, HasInHand(task)) + Occurs(task, FinishedBy(s, a))
  {
    hide CountIf, WakeAll, SomeBlocked;
    var ws, p := s.workers, HasInHand(task);
    match a
    case Push(_) =>
    case StopRunning =>
    case CloseQueue =>
    case NotifyOne(w) => if SomeBlocked(ws) { CountUpdate(ws, w, Notified, p); }
    case SpuriousWake(w) => CountUpdate(ws, w, Notified, p);
    case NotifyAll => WakeAllInHand(ws, task);
    case ReadFlag(w) => CountUpdate(ws, w, if s.running then Entering else Exited, p);
    case TryPop(w) => PopMovesHands(s, w, task);
    case Start(w) => CountUpdate(ws, w, Running(ws[w].task), p);
    case Finish(w) => FinishMovesHands(s, w, task);
  }

  lemma PopMovesHands(s: Pool, w: nat, task: Task)
    requires Next(s, TryPop(w)).Some?
    ensures CountIf(s.workers, HasInHand(task)) + Occurs(task, PoppedBy(s, TryPop(w)))
         == CountIf(Next(s, TryPop(w)).value.workers, HasInHand(task))
  {
    CountUpdate(s.workers, w, Next(s, TryPop(w)).value.workers[w], HasInHand(task));
    hide CountIf;
  }

  lemma FinishMovesHands(s: Pool, w: nat, task: Task)
    requires Next(s, Finish(w)).Some?
    ensures CountIf(s.workers, HasInHand(task))
         == CountIf(Next(s, Finish(w)).value.workers, HasInHand(task)) + Occurs(task, FinishedBy(s, Finish(w)))
  {
    CountUpdate(s.workers, w, Checking, HasInHand(task));
    hide CountIf;
  }

  function Occurs(task: Task, tasks: seq<Task>): nat {
    if tasks == [] then 0 else (if tasks[0] == task then 1 else 0) + Occurs(task, tasks[1..])
  }

  lemma {:induction false} OccursAppend(task: Task, a: seq<Task>, b: seq<Task>)
    ensures Occurs(task, a + b) == Occurs(task, a) + Occurs(task, b)
  {
    if a == [] {
      assert a + b == b;
    } else {
      assert (a + b)[1..] == a[1..] + b;
      OccursAppend(task, a[1..], b);
    }
  }

  /** In every interleaving the tasks popped, followed by those still queued, are the tasks pushed, in push order;
      and each popped occurrence of a task is finished once or still in exactly one worker's hands. */
  lemma {:induction false} FifoExactlyOnce(s: Pool, actions: seq<Action>, task: Task)
    requires Run(s, actions).Some?
    ensures Popped(s, actions) + Run(s, actions).value.shared.queue == s.shared.queue + Pushed(actions)
    ensures CountIf(s.workers, HasInHand(task)) + Occurs(task, Popped(s, actions))
         == CountIf(Run(s, actions).value.workers, HasInHand(task)) + Occurs(task, Finished(s, actions))
    decreases |actions|
  {
    hide CountIf, Next, PoppedBy, FinishedBy, PushedBy, HasInHand, Occurs;
    if actions == [] {
      assert s.shared.queue == [] + s.shared.queue == s.shared.queue + [];
    } else {
      var a, rest := actions[0], actions[1..];
      UnfoldFirst(s, actions);
      var s1 := Next(s, a).value;
      StepMovesQueue(s, a);
      StepMovesHands(s, a, task);
      FifoExactlyOnce(s1, rest, task);
      FifoChain(PoppedBy(s, a), Popped(s1, rest), Run(s1, rest).value.shared.queue, s1.shared.queue, PushedBy(a),
        Pushed(rest), s.shared.queue);
      OccursAppend(task, PoppedBy(s, a), Popped(s1, rest));
      OccursAppend(task, FinishedBy(s, a), Finished(s1, rest));
    }
    hide Run, Popped, Finished, Pushed;
  }

  function PushedBy(a: Action): seq<Task> { if a.Push? then [a.task] else [] }

  lemma UnfoldFirst(s: Pool, actions: seq<Action>)
    requires actions != [] && Run(s, actions).Some?
    ensures var a, rest := actions[0], actions[1..];
      && Next(s, a).Some? && Run(Next(s, a).value, rest) == Run(s, actions)
      && Popped(s, actions) == PoppedBy(s, a) + Popped(Next(s, a).value, rest)
      && Finished(s, actions) == FinishedBy(s, a) + Finished(Next(s, a).value, rest)
      && Pushed(actions) == PushedBy(a) + Pushed(rest)
  {
    hide Next, PoppedBy, FinishedBy;
  }

  lemma FifoChain(pop: seq<Task>, pops: seq<Task>, end: seq<Task>, mid: seq<Task>, push: seq<Task>, pushes: seq<Task>,
    start: seq<Task>)
    requires pop + mid == start + push && pops + end == mid + pushes
    ensures pop + pops + end == start + (push + pushes)
  {
    assert pop + pops + end == pop + (pops + end) == pop + mid + pushes;
  }

  // ----- shutdown -----

  predicate StartsOn(a: Action, w: nat) { a == Start(w) }

  /** Tasks worker `w` starts along the run. */
  function StartsBy(actions: seq<Action>, w: nat): nat {
    if actions == [] then 0 else (if StartsOn(actions[0], w) then 1 else 0) + StartsBy(actions[1..], w)
  }

  /** Tasks a worker may still start once the running flag is down. */
  function Budget(w: Worker): nat {
    if w == Entering || w == Blocked || w == Notified || w.Holding? then 1 else 0
  }

  lemma StepSpendsBudget(s: Pool, a: Action, w: nat)
    requires !s.running && Next(s, a).Some? && w < |s.workers|
    ensures var s' := Next(s, a).value;
      && !s'.running && |s'.workers| == |s.workers|
      && Budget(s'.workers[w]) + (if StartsOn(a, w) then 1 else 0) <= Budget(s.workers[w])
  {
    hide SomeBlocked;
  }

  /** After `shutdown` has begun, each worker starts at most one more task. */
  lemma {:induction false} AtMostOneMoreTask(s: Pool, actions: seq<Action>, w: nat)
    requires !s.running && Run(s, actions).Some? && w < |s.workers|
    ensures StartsBy(actions, w) <= Budget(s.workers[w]) <= 1
    decreases |actions|
  {
    if actions != [] {
      StepSpendsBudget(s, actions[0], w);
      AtMostOneMoreTask(Next(s, actions[0]).value, actions[1..], w);
      hide Next, Budget;
    }
  }

  /** Actions of the pool itself, as against new work or new shutdown calls. */
  predicate Internal(a: Action) { !a.Push? && !a.StopRunning? }

  /** Steps left for one worker to leave its loop once the pool is shut down. */
  function Rank(w: Worker): nat {
    match w
    case Exited => 0
    case Checking => 1
    case Running(_) => 2
    case Holding(_) => 3
    case Entering => 4
    case Notified => 4
    case Blocked => 5
  }

  function RankSum(ws: seq<Worker>): nat { if ws == [] then 0 else Rank(ws[0]) + RankSum(ws[1..]) }

  function StepsLeft(s: Pool): nat { RankSum(s.workers) + s.pendingOne + 2 * s.stopping + s.pendingAll }

  lemma {:induction false} RankUpdate(ws: seq<Worker>, i: nat, w: Worker)
    requires i < |ws|
    ensures RankSum(ws[i := w]) == RankSum(ws) - Rank(ws[i]) + Rank(w)
    decreases |ws|
  {
    if i > 0 {
      assert ws[i := w][1..] == ws[1..][i - 1 := w];
      RankUpdate(ws[1..], i - 1, w);
    } else {
      assert ws[i := w][1..] == ws[1..];
    }
  }

  lemma {:induction false} WakeAllRank(ws: seq<Worker>)
    ensures RankSum(WakeAll(ws)) <= RankSum(ws)
  {
    if ws != [] {
      assert WakeAll(ws)[1..] == WakeAll(ws[1..]);
      WakeAllRank(ws[1..]);
    }
  }

  lemma StepDescends(s: Pool, a: Action)
    requires s.shared.shutdown && !s.running && Internal(a) && Next(s, a).Some?
    ensures var s' := Next(s, a).value;
      s'.shared.shutdown && !s'.running && StepsLeft(s') < StepsLeft(s)
  {
    hide RankSum, WakeAll, SomeBlocked;
    match a
    case CloseQueue =>
    case NotifyOne(w) => if SomeBlocked(s.workers) { RankUpdate(s.workers, w, Notified); }
    case SpuriousWake(w) => RankUpdate(s.workers, w, Notified);
    case NotifyAll => WakeAllRank(s.workers);
    case ReadFlag(w) => RankUpdate(s.workers, w, Exited);
    case TryPop(w) => RankUpdate(s.workers, w, Next(s, a).value.workers[w]);
    case Start(w) => RankUpdate(s.workers, w, Running(s.workers[w].task));
    case Finish(w) => RankUpdate(s.workers, w, Checking);
  }

  /** Nothing is due: no action of the pool is possible but for wake-ups without a cause. */
  ghost predicate Quiescent(s: Pool) { forall a :: Internal(a) && !a.SpuriousWake? ==> Next(s, a).None? }

  /** What is due while the worker has not exited; for a sleeper it is the notify_all. */
  function Due(s: Pool, w: nat): Action
    requires w < |s.workers|
  {
    match s.workers[w]
    case Checking => ReadFlag(w)
    case Entering => TryPop(w)
    case Notified => TryPop(w)
    case Holding(_) => Start(w)
    case Running(_) => Finish(w)
    case Blocked => NotifyAll
    case Exited => NotifyAll
  }

  /** A closed pool has nothing due only when everybody has left: no sleeper is forgotten. */
  lemma QuiescentMeansExited(s: Pool)
    requires Inv(s) && s.shared.shutdown && Quiescent(s)
    ensures forall w :: w in s.workers ==> w == Exited
  {
    hide CountIf, WakeAll;
    forall i | 0 <= i < |s.workers| ensures s.workers[i] == Exited {
      assert Next(s, Due(s, i)).None?;
    }
  }

  lemma {:induction false} ClosedRunIsShort(s: Pool, actions: seq<Action>)
    requires s.shared.shutdown && !s.running && Run(s, actions).Some? && forall a :: a in actions ==> Internal(a)
    ensures |actions| <= StepsLeft(s) && Run(s, actions).value.shared.shutdown
    decreases |actions|
  {
    hide StepsLeft, Next, Internal;
    if actions != [] {
      StepDescends(s, actions[0]);
      assert actions[0] in actions;
      ClosedRunIsShort(Next(s, actions[0]).value, actions[1..]);
    }
  }

  /** Shutdown completes, whatever happened before: once a pool has closed its queue, no continuation without new work
      or new shutdown calls is longer than `StepsLeft`, and where nothing is due any more every worker has exited,
      without the help of a single spurious wake-up. */
  lemma ShutdownCompletes(threads: nat, history: seq<Action>, actions: seq<Action>)
    requires Run(Initial(threads), history).Some? && Run(Initial(threads), history).value.shared.shutdown
    requires Run(Run(Initial(threads), history).value, actions).Some? && forall a :: a in actions ==> Internal(a)
    ensures var s := Run(Initial(threads), history).value;
      var s' := Run(s, actions).value;
      && |actions| <= StepsLeft(s)
      && (Quiescent(s') ==> forall w :: w in s'.workers ==> w == Exited)
  {
    InitialInv(threads);
    RunKeepsInv(Initial(threads), history);
    hide Run, Initial, Quiescent, CountIf, SomeBlocked;
    var s := Run(Initial(threads), history).value;
    RunKeepsInv(s, actions);
    ClosedRunIsShort(s, actions);
    if Quiescent(Run(s, actions).value) { QuiescentMeansExited(Run(s, actions).value); }
  }

  /** In a reachable closed pool with a sleeper the notify_all is still to come, and it wakes them all. */
  lemma SleepersAreWoken(threads: nat, actions: seq<Action>)
    requires Run(Initial(threads), actions).Some?
    ensures var s := Run(Initial(threads), actions).value;
      s.shared.shutdown && SomeBlocked(s.workers) ==>
        Next(s, NotifyAll).Some? && !SomeBlocked(Next(s, NotifyAll).value.workers)
  {
    NoLostWakeUp(threads, actions);
    WakeAllCounts(Run(Initial(threads), actions).value.workers);
    hide Run, Initial, CountIf, SomeBlocked, WakeAll;
  }

  // ----- progress -----

  /** Steps left for one worker of a running pool until it sleeps or has a task more in hand. */
  function Effort(w: Worker): nat {
    match w
    case Blocked => 0
    case Exited => 0
    case Notified => 1
    case Entering => 1
    case Checking => 2
    case Running(_) => 3
    case Holding(_) => 4
  }

  function EffortSum(ws: seq<Worker>): nat { if ws == [] then 0 else Effort(ws[0]) + EffortSum(ws[1..]) }

  /** Steps that a running pool can take before it needs new work. */
  function WorkLeft(s: Pool): nat { EffortSum(s.workers) + 4 * |s.shared.queue| + 2 * s.pendingOne }

  lemma {:induction false} EffortUpdate(ws: seq<Worker>, i: nat, w: Worker)
    requires i < |ws|
    ensures EffortSum(ws[i := w]) == EffortSum(ws) - Effort(ws[i]) + Effort(w)
    decreases |ws|
  {
    if i > 0 {
      assert ws[i := w][1..] == ws[1..][i - 1 := w];
      EffortUpdate(ws[1..], i - 1, w);
    } else {
      assert ws[i := w][1..] == ws[1..];
    }
  }

  /** An action that is not a spurious wake-up, new work or a shutdown call. */
  predicate Orderly(a: Action) { Internal(a) && !a.SpuriousWake? }

  lemma RunningStepDescends(s: Pool, a: Action)
    requires Inv(s) && s.running && Orderly(a) && Next(s, a).Some?
    ensures Next(s, a).value.running && WorkLeft(Next(s, a).value) < WorkLeft(s)
  {
    hide EffortSum, WakeAll, SomeBlocked, CountIf;
    match a
    case CloseQueue =>
    case NotifyAll =>
    case NotifyOne(w) => if SomeBlocked(s.workers) { EffortUpdate(s.workers, w, Notified); }
    case ReadFlag(w) => EffortUpdate(s.workers, w, Entering);
    case TryPop(w) => EffortUpdate(s.workers, w, Next(s, a).value.workers[w]);
    case Start(w) => EffortUpdate(s.workers, w, Running(s.workers[w].task));
    case Finish(w) => EffortUpdate(s.workers, w, Checking);
  }

  lemma {:induction false} RunningRunIsShort(s: Pool, actions: seq<Action>)
    requires Inv(s) && s.running && Run(s, actions).Some? && forall a :: a in actions ==> Orderly(a)
    ensures |actions| <= WorkLeft(s) && Run(s, actions).value.running
    decreases |actions|
  {
    hide WorkLeft, Next, Orderly, Inv;
    if actions != [] {
      assert actions[0] in actions;
      RunningStepDescends(s, actions[0]);
      StepKeepsInv(s, actions[0]);
      RunningRunIsShort(Next(s, actions[0]).value, actions[1..]);
    }
  }

  /** A running pool cannot be busy for ever on finite work: without new work no interleaving of what is due is longer
      than `WorkLeft`. */
  lemma RunningPoolSettles(threads: nat, history: seq<Action>, actions: seq<Action>)
    requires Run(Initial(threads), history).Some? && Run(Initial(threads), history).value.running
    requires Run(Run(Initial(threads), history).value, actions).Some? && forall a :: a in actions ==> Orderly(a)
    ensures var s := Run(Initial(threads), history).value;
      |actions| <= WorkLeft(s) && Run(s, actions).value.running
  {
    InitialInv(threads);
    RunKeepsInv(Initial(threads), history);
    hide Run, Initial, Inv, WorkLeft, Orderly;
    RunningRunIsShort(Run(Initial(threads), history).value, actions);
  }

  lemma QuiescentRunningPool(s: Pool)
    requires Inv(s) && s.running && Quiescent(s) && s.workers != []
    ensures (forall w :: w in s.workers ==> w == Blocked) && s.pendingOne == 0 && s.shared.queue == []
  {
    hide CountIf, WakeAll;
    forall i | 0 <= i < |s.workers| ensures s.workers[i] == Blocked {
      assert Next(s, Due(s, i)).None?;
    }
    assert s.workers[0] in s.workers;
    assert Next(s, NotifyOne(0)).None?;
    CountNone(s.workers, IsNotified);
  }

  lemma NothingInHand(threads: nat, task: Task)
    ensures Initial(threads).shared.queue == [] && |Initial(threads).workers| == threads
    ensures CountIf(Initial(threads).workers, HasInHand(task)) == 0
  {
    CountNone(Initial(threads).workers, HasInHand(task));
  }

  /** Every pushed task is run: where nothing is due in a running pool with a worker, the queue is empty, all workers
      sleep, and each task has been finished as often as it was pushed. */
  lemma IdleMeansAllDone(threads: nat, history: seq<Action>, task: Task)
    requires threads > 0 && Run(Initial(threads), history).Some?
    requires var s := Run(Initial(threads), history).value; s.running && Quiescent(s)
    ensures var s := Run(Initial(threads), history).value;
      s.shared.queue == [] && forall w :: w in s.workers ==> w == Blocked
    ensures Popped(Initial(threads), history) == Pushed(history)
    ensures Occurs(task, Finished(Initial(threads), history)) == Occurs(task, Pushed(history))
  {
    InitialInv(threads);
    RunKeepsInv(Initial(threads), history);
    RunKeepsThreads(Initial(threads), history);
    NothingInHand(threads, task);
    hide Run, Initial, Quiescent, CountIf, Popped, Finished, Pushed, Occurs, Inv;
    var s, popped, pushed := Run(Initial(threads), history).value, Popped(Initial(threads), history), Pushed(history);
    QuiescentRunningPool(s);
    FifoExactlyOnce(Initial(threads), history, task);
    CountNone(s.workers, HasInHand(task));
    assert popped + [] == popped && [] + pushed == pushed;
  }
}
