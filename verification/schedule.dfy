/** Runs of the queue. Each locking function holds the mutex from start to
    finish except inside `pthread_cond_wait`, which releases it. `getMsg`
    does nothing before its wait (publish.c:169-171), so it still runs as one
    step once `count > 0`. `addMsg` checks for subscribers before its wait
    (publish.c:134-143) and re-checks only `count` after waking, so a
    producer that waited resumes as a step of its own: `StoreMsgCall`. A run
    is then any sequence of such steps, in any order the threads take the
    mutex. */
module Schedule {
  import opened Wrappers
  import opened Publish

  /** One step some thread makes while holding the mutex. `StoreMsgCall` is
      a producer resuming inside `addMsg` after `pthread_cond_wait`
      (publish.c:141-157). A run may take it at any time, which covers every
      point at which such a producer can wake. */
  datatype Call<Id, M> =
    | SubscribeCall(id: Id)
    | UnsubscribeCall(id: Id)
    | AddMsgCall(msg: M)
    | StoreMsgCall(msg: M)
    | GetMsgCall(id: Id)

  /** Whether the step would wait on a condition variable in state `q`:
      `addMsg` and a resumed producer on `not_full` (publish.c:141-143), and
      `getMsg` on `not_empty` (publish.c:169-171). */
  predicate Blocks<Id, M>(q: Queue<Id, M>, c: Call<Id, M>) {
    match c
    case AddMsgCall(_) => !CanAdd(q)
    case StoreMsgCall(_) => q.count == q.size
    case GetMsgCall(_) => q.count == 0
    case _ => false
  }

  /** The state after one step, or `None` when the step cannot complete in
      `q` because it waits. */
  function Step<Id(==), M>(q: Queue<Id, M>, c: Call<Id, M>): (r: Option<Queue<Id, M>>)
    requires Valid(q)
    ensures r.None? <==> Blocks(q, c)
    ensures r.Some? ==> Valid(r.value) && r.value.size == q.size
  {
    match c
    case SubscribeCall(id) => Some(Subscribe(q, id))
    case UnsubscribeCall(id) => Some(Unsubscribe(q, id))
    case AddMsgCall(msg) => if CanAdd(q) then Some(AddMsg(q, msg)) else None
    case StoreMsgCall(msg) => if q.count < q.size then Some(StoreMsg(q, msg)) else None
    case GetMsgCall(id) => if q.count == 0 then None else Some(GetMsg(q, id).queue)
  }

  /** The state after a whole sequence of steps, or `None` when one of them
      would still be waiting. Every state a run reaches satisfies `Valid`:
      `count` within `0..size`, `tail == (head + count) % size`, rows exactly
      on the live window and long enough for every subscriber, no duplicate
      subscriber. */
  function Run<Id(==), M>(q: Queue<Id, M>, calls: seq<Call<Id, M>>): (r: Option<Queue<Id, M>>)
    requires Valid(q)
    ensures r.Some? ==> Valid(r.value) && r.value.size == q.size
    decreases |calls|
  {
    if calls == [] then Some(q)
    else
      match Step(q, calls[0])
      case None => None
      case Some(q') => Run(q', calls[1..])
  }
}
