/** The broadcast queue of publish.c over the state layout of publish.h.
    `subscribe`, `unsubscribe`, `addMsg`, `getMsg` and `getAvailable` hold
    one mutex and let it go only while waiting on a condition variable;
    `countSubscribers` is called only under it. Each operation, and each half of
    `addMsg` around its wait, is modelled as a pure transition on one
    immutable `Queue` value. The two waits become preconditions. */
module Publish {
  import opened Wrappers
  import opened Ring
  import opened Registry

  /** `TQueue` (publish.h:11-24) without its mutex and condition variables.
      `messages` is the ring of message handles, `deliveryMap` holds one row
      of flags per slot (`None` for a NULL row, `true` for a stored 1), and
      `subscribers` is the subscriber list from its head node onwards. */
  datatype Queue<Id, M> = Queue(
    messages: seq<Option<M>>,
    size: nat,
    count: nat,
    head: nat,
    tail: nat,
    subscribers: seq<Id>,
    deliveryMap: seq<Option<seq<bool>>>)

  /** A queued message together with its delivery row. */
  datatype Entry<M> = Entry(msg: M, row: seq<bool>)

  /** What `getMsg` hands back: the queue after the call and the returned
      handle (`None` for NULL). */
  datatype Received<Id, M> = Received(queue: Queue<Id, M>, msg: Option<M>)

  /** Slot `k` lies in the live window `(head + i) % size`, `i < count`. */
  predicate Live<Id, M>(q: Queue<Id, M>, k: nat)
    requires q.head < q.size && k < q.size
  {
    Offset(q.head, k, q.size) < q.count
  }

  /** The invariant every operation keeps (publish.h:13-19): the counters
      describe a window of the ring, exactly the live slots hold a message
      and a delivery row, every live row has a flag for every current list
      position, and no thread is subscribed twice. */
  ghost predicate Valid<Id, M>(q: Queue<Id, M>) {
    && 0 < q.size
    && |q.messages| == q.size
    && |q.deliveryMap| == q.size
    && q.count <= q.size
    && q.head < q.size
    && q.tail == Slot(q.head, q.count, q.size)
    && (forall k :: 0 <= k < q.size ==> (q.deliveryMap[k].Some? <==> Live(q, k)))
    && (forall k :: 0 <= k < q.size && q.deliveryMap[k].Some? ==>
          q.messages[k].Some? && |q.subscribers| <= |q.deliveryMap[k].value|)
    && NoDuplicates(q.subscribers)
  }

  /** The queued messages from oldest to newest, each with its delivery row:
      the abstract FIFO the ring buffer represents. */
  function Window<Id, M>(q: Queue<Id, M>): (w: seq<Entry<M>>)
    requires Valid(q)
    ensures |w| == q.count
    ensures forall i :: 0 <= i < |w| ==> |q.subscribers| <= |w[i].row|
  {
    SlotOffsetInverse(q.head, q.size);
    seq(q.count, i requires 0 <= i < q.count =>
      var k := Slot(q.head, i, q.size);
      Entry(q.messages[k].value, q.deliveryMap[k].value))
  }

  /** Every flag of the first `n` positions of `row` is set: the loop of
      publish.c:204-214, which walks one position per subscriber node. */
  predicate AllDelivered(row: seq<bool>, n: nat)
    requires n <= |row|
  {
    forall j :: 0 <= j < n ==> row[j]
  }

  /** How many entries of `w` still wait for the subscriber at list
      position `pos`. */
  function Undelivered<M>(w: seq<Entry<M>>, pos: nat): (n: nat)
    ensures n <= |w|
  {
    if w == [] then 0
    else
      var last := w[|w| - 1];
      Undelivered(w[..|w| - 1], pos) + (if pos < |last.row| && !last.row[pos] then 1 else 0)
  }

  /** `createQueue` (publish.c:7-40). A non-positive size makes the C code
      return before the queue is usable; that outcome is `None`. */
  function CreateQueue<Id, M>(size: int): (r: Option<Queue<Id, M>>)
    ensures r.Some? <==> 0 < size
    ensures r.Some? ==> Valid(r.value) && r.value.size == size
    ensures r.Some? ==> r.value.count == 0 && r.value.subscribers == []
    ensures r.Some? ==> r.value.head == 0 && r.value.tail == 0
    ensures r.Some? ==> forall k :: 0 <= k < size ==> r.value.deliveryMap[k] == None
  {
    if size <= 0 then None
    else Some(Queue(seq(size, _ => None), size, 0, 0, 0, [], seq(size, _ => None)))
  }

  /** `subscribe` (publish.c:70-98). A thread already in the list changes
      nothing. Otherwise its node is pushed on the front of the list and every
      live row is reallocated to one flag per subscriber, the last of which
      is cleared. */
  function Subscribe<Id(==), M>(q: Queue<Id, M>, id: Id): (r: Queue<Id, M>)
    requires Valid(q)
    ensures Valid(r)
    ensures id in q.subscribers ==> r == q
    ensures id !in q.subscribers ==> r.subscribers == [id] + q.subscribers
    ensures r.messages == q.messages && r.size == q.size && r.count == q.count
    ensures r.head == q.head && r.tail == q.tail
    ensures id !in q.subscribers ==> forall k :: 0 <= k < q.size && r.deliveryMap[k].Some? ==>
              |r.deliveryMap[k].value| == |r.subscribers| &&
              !r.deliveryMap[k].value[|r.subscribers| - 1]
  {
    if id in q.subscribers then q
    else
      var subscribers := [id] + q.subscribers;
      var n := Count(subscribers);
      var r := q.(
        subscribers := subscribers,
        deliveryMap := seq(q.size, k requires 0 <= k < q.size =>
          if Live(q, k) then Some(q.deliveryMap[k].value[..n - 1] + [false])
          else q.deliveryMap[k]));
      assert NoDuplicates(subscribers);
      r
  }

  /** `unsubscribe` (publish.c:101-127). An unknown thread changes nothing.
      Otherwise the node at list position `i` is unlinked and flag `i` of
      every live row is set; rows keep their length and nothing is evicted. */
  function Unsubscribe<Id(==), M>(q: Queue<Id, M>, id: Id): (r: Queue<Id, M>)
    requires Valid(q)
    ensures Valid(r)
    ensures id !in q.subscribers ==> r == q
    ensures id in q.subscribers ==>
              r.subscribers == RemoveAt(q.subscribers, IndexOf(q.subscribers, id).value)
    ensures id in q.subscribers ==> id !in r.subscribers
    ensures forall x :: x in q.subscribers && x != id ==> x in r.subscribers
    ensures forall x :: x in r.subscribers ==> x in q.subscribers
    ensures r.messages == q.messages && r.size == q.size && r.count == q.count
    ensures r.head == q.head && r.tail == q.tail
    ensures forall k :: 0 <= k < q.size && q.deliveryMap[k].Some? ==>
              r.deliveryMap[k].Some? && |r.deliveryMap[k].value| == |q.deliveryMap[k].value|
  {
    match IndexOf(q.subscribers, id)
    case None => q
    case Some(i) =>
      RemoveAtNoDuplicates(q.subscribers, i);
      q.(
        subscribers := RemoveAt(q.subscribers, i),
        deliveryMap := seq(q.size, k requires 0 <= k < q.size =>
          if Live(q, k) then Some(q.deliveryMap[k].value[i := true])
          else q.deliveryMap[k]))
  }

  /** The part of `addMsg` after the wait for space (publish.c:145-157): the
      message goes into the slot at `tail` with a fresh all-clear row of one
      flag per current subscriber, and the window grows by one at its end.
      Nothing is re-checked after the wait, so this step also runs when the
      last subscriber left while the producer was blocked. */
  function StoreMsg<Id, M>(q: Queue<Id, M>, msg: M): (r: Queue<Id, M>)
    requires Valid(q)
    requires q.count < q.size
    ensures Valid(r)
    ensures r.count == q.count + 1 && r.head == q.head && r.tail == Next(q.tail, q.size)
    ensures r.messages[q.tail] == Some(msg)
    ensures r.deliveryMap[q.tail] == Some(seq(|q.subscribers|, _ => false))
    ensures r.subscribers == q.subscribers && r.size == q.size
    ensures forall k :: 0 <= k < q.size && k != q.tail ==>
              r.messages[k] == q.messages[k] && r.deliveryMap[k] == q.deliveryMap[k]
  {
    var n := Count(q.subscribers);
    var r := q.(
      messages := q.messages[q.tail := Some(msg)],
      deliveryMap := q.deliveryMap[q.tail := Some(seq(n, _ => false))],
      tail := Next(q.tail, q.size),
      count := q.count + 1);
    assert !Live(q, q.tail);
    assert forall k :: 0 <= k < q.size ==> (Live(r, k) <==> Live(q, k) || k == q.tail);
    r
  }

  /** Whether `addMsg` can run to completion now: a producer with subscribers
      waits on `not_full` while the buffer is full (publish.c:141-143). */
  predicate CanAdd<Id, M>(q: Queue<Id, M>) {
    q.subscribers == [] || q.count < q.size
  }

  /** `addMsg` (publish.c:130-162). With no subscribers the message is
      discarded and nothing changes; otherwise it is stored. */
  function AddMsg<Id, M>(q: Queue<Id, M>, msg: M): (r: Queue<Id, M>)
    requires Valid(q)
    requires CanAdd(q)
    ensures Valid(r)
    ensures r.head == q.head && r.subscribers == q.subscribers && r.size == q.size
    ensures q.subscribers == [] ==> r == q
    ensures q.subscribers != [] ==> r.count == q.count + 1 && r.messages[q.tail] == Some(msg)
  {
    if q.subscribers == [] then q else StoreMsg(q, msg)
  }

  /** `getMsg` (publish.c:165-228), after the wait for a message
      (publish.c:169-171). An unsubscribed caller, or one whose flag in the
      head row is already set, gets `None` and changes nothing. Otherwise the
      caller's flag is set and the head message returned; when that makes the
      first `N` flags of the row all set (`N` subscribers) the message is
      evicted: the row is dropped, `head` moves on and `count` shrinks. */
  function GetMsg<Id(==), M>(q: Queue<Id, M>, id: Id): (res: Received<Id, M>)
    requires Valid(q)
    requires 0 < q.count
    ensures Valid(res.queue)
    ensures id !in q.subscribers ==> res == Received(q, None)
    ensures id in q.subscribers && q.deliveryMap[q.head].value[IndexOf(q.subscribers, id).value] ==>
              res == Received(q, None)
    ensures id in q.subscribers && !q.deliveryMap[q.head].value[IndexOf(q.subscribers, id).value] ==>
              res.msg == q.messages[q.head] && res.msg.Some? &&
              (res.queue.count == q.count - 1 <==>
                AllDelivered(q.deliveryMap[q.head].value[IndexOf(q.subscribers, id).value := true],
                             |q.subscribers|))
    ensures res.queue.tail == q.tail && res.queue.subscribers == q.subscribers
    ensures res.queue.messages == q.messages && res.queue.size == q.size
    ensures res.queue.count == q.count ==> res.queue.head == q.head
    ensures res.queue.count != q.count ==>
              && res.queue.count == q.count - 1
              && res.queue.head == Next(q.head, q.size)
              && res.queue.deliveryMap[q.head] == None
    ensures forall k :: 0 <= k < q.size && res.queue.deliveryMap[k].Some? ==>
              q.deliveryMap[k].Some? && |res.queue.deliveryMap[k].value| == |q.deliveryMap[k].value|
  {
    match IndexOf(q.subscribers, id)
    case None => Received(q, None)
    case Some(pos) =>
      var index := q.head;
      assert Live(q, index);
      var row := q.deliveryMap[index].value;
      if row[pos] then Received(q, None)
      else
        var row' := row[pos := true];
        if AllDelivered(row', Count(q.subscribers)) then
          var r := q.(
            deliveryMap := q.deliveryMap[index := None],
            head := Next(q.head, q.size),
            count := q.count - 1);
          assert forall k :: 0 <= k < q.size ==> (Live(r, k) <==> Live(q, k) && k != index);
          Received(r, q.messages[index])
        else
          Received(q.(deliveryMap := q.deliveryMap[index := Some(row')]), q.messages[index])
  }

  /** `getAvailable` (publish.c:231-263): for a subscriber, the number of
      live slots whose flag at its list position is clear; `None` (where the
      C code prints an error) for a thread that is not subscribed. */
  method GetAvailable<Id(==), M>(q: Queue<Id, M>, id: Id) returns (r: Option<nat>)
    requires Valid(q)
    ensures r.None? <==> id !in q.subscribers
    ensures r.Some? ==> r.value <= q.count
    ensures r.Some? ==> r.value == Undelivered(Window(q), IndexOf(q.subscribers, id).value)
  {
    var found := IndexOf(q.subscribers, id);
    if found.None? {
      return None;
    }
    var pos := found.value;
    var available := 0;
    var i := 0;
    while i < q.count
      invariant i <= q.count
      invariant available == Undelivered(Window(q)[..i], pos)
    {
      var index := Slot(q.head, i, q.size);
      assert Window(q)[..i + 1][..i] == Window(q)[..i];
      if !q.deliveryMap[index].value[pos] {
        available := available + 1;
      }
      i := i + 1;
    }
    assert Window(q)[..q.count] == Window(q);
    return Some(available);
  }
}
