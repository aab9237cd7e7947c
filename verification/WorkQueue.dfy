/** lib/WorkQueue.hpp: the critical sections of the queue. Waiting and notifying happen between sections;
    `ThreadPools` interleaves the same sections with them. */
module WorkQueues {

  /** Tasks are told apart by number. */
  type Task = nat

  /** What the mutex protects. */
  datatype QueueState = QueueState(queue: seq<Task>, shutdown: bool)

  /** One evaluation of `pop`'s wait predicate with the lock held, and what follows it. */
  datatype PopResult = Wait | Closed | Item(task: Task)

  function PushOnce(s: QueueState, item: Task): QueueState { s.(queue := s.queue + [item]) }

  function PopOnce(s: QueueState): (QueueState, PopResult) {
    if s.queue == [] && !s.shutdown then (s, Wait)
    else if s.shutdown && s.queue == [] then (s, Closed)
    else (s.(queue := s.queue[1..]), Item(s.queue[0]))
  }

  function CloseOnce(s: QueueState): QueueState { s.(shutdown := true) }

  class ThreadSafeQueue {
    var queue: seq<Task>
    var shutdown: bool
    /** Everything ever pushed, and everything ever popped. */
    ghost var pushed: seq<Task>
    ghost var popped: seq<Task>

    function State(): QueueState
      reads this
    {
      QueueState(queue, shutdown)
    }

    ghost predicate Valid()
      reads this
    {
      popped + queue == pushed
    }

    constructor ()
      ensures Valid() && pushed == [] && !shutdown
    {
      queue, shutdown, pushed, popped := [], false, [], [];
    }

    method PushSection(item: Task)
      requires Valid()
      modifies this`queue, this`pushed
      ensures Valid() && State() == PushOnce(old(State()), item)
      ensures pushed == old(pushed) + [item]
      ensures PopOnce(State()).1 == Item(pushed[|popped|])
    {
      queue := queue + [item];
      pushed := pushed + [item];
    }

    /** Hands out the oldest item not handed out before. It waits only while everything pushed has been handed out and
        the queue is open, and reports the end only when everything has been and the queue is closed. */
    method PopSection() returns (r: PopResult)
      requires Valid()
      modifies this`queue, this`popped
      ensures Valid() && (State(), r) == PopOnce(old(State()))
      ensures match r
        case Item(task) => |old(popped)| < |pushed| && task == pushed[|old(popped)|] && popped == old(popped) + [task]
        case Wait => popped == old(popped) == pushed && !shutdown
        case Closed => popped == old(popped) == pushed && shutdown
    {
      if !(queue != [] || shutdown) { return Wait; }
      if shutdown && queue == [] { return Closed; }
      r := Item(queue[0]);
      popped := popped + [queue[0]];
      queue := queue[1..];
    }

    /** From here on no evaluation of the wait predicate waits, whatever is in the queue. */
    method ShutdownSection()
      requires Valid()
      modifies this`shutdown
      ensures Valid() && State() == CloseOnce(old(State()))
      ensures forall q :: PopOnce(State().(queue := q)).1 != Wait
    {
      shutdown := true;
    }
  }
}
