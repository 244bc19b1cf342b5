# Broadcast message queue (publish.c) in Dafny

A model of the in-process publish/subscribe queue of `publish.c` over the
`TQueue` layout of `publish.h`. Producer threads add message handles to a
bounded circular buffer. Subscriber threads register in a linked list, and
each takes every queued message from the head of the buffer. Each queued
message carries a delivery row: one int flag per subscriber, addressed by
that subscriber's current position in the list. `getMsg` evicts the head
message when its mark leaves the first `N` flags all set, `N` being the
number of subscribers. No other operation evicts.

`subscribe`, `unsubscribe`, `addMsg`, `getMsg` and `getAvailable` each hold
one mutex. `createQueue` and `destroyQueue` take no lock. Neither does
`countSubscribers` (publish.c:266-274), which the C code calls only under the
mutex, from `subscribe` (publish.c:92) and `addMsg` (publish.c:149). A
function holding the mutex lets it go only inside `pthread_cond_wait`, and
only `addMsg` and `getMsg` wait.
`getMsg` changes nothing before its wait. `addMsg` only reads the list head
before its wait, so its part after the wait is a transition of its own. Each
call, and each half of `addMsg`, is a pure transition on one immutable
`Queue` value:

- `Wrappers`: `Option`, standing in for NULL pointers and NULL rows.
- `Ring`: the `(head + i) % size` slot arithmetic and its closed form.
- `Registry`: the subscriber list as `seq<Id>`, with the list head at
  index 0. It provides the list walk (`IndexOf`), `countSubscribers`
  (`Count`) and unlinking a node (`RemoveAt`).
- `Publish`: the `Queue` datatype and its invariant `Valid`. It has one
  function per operation (`CreateQueue`, `Subscribe`, `Unsubscribe`,
  `StoreMsg`/`AddMsg`, `GetMsg`) and the method `GetAvailable`.
  `Window` gives the abstract view: the pending messages from oldest to
  newest, each with its row.
- `PublishProperties`: what each operation does to `Window`, plus
  idempotence, round trip and the meaning of the available count.
- `Schedule`: a run as any sequence of calls. The calls include the step in
  which a producer that waited in `addMsg` wakes and stores its message
  (`StoreMsgCall`). A call that would wait on a condition variable cannot
  complete. Every state a run reaches is `Valid`.
- `Scenarios`: concrete runs for any distinct thread ids and any messages.
- `EvictOnUnsubscribe`: how `unsubscribe` can leave a fully taken message
  at the head for good, and an `unsubscribe` that evicts it.
- `IdentityFlags`: how positional flags drift away from their subscribers,
  and corrected `subscribe`/`unsubscribe` operations that keep them in place.

Thread ids are a type parameter `Id` with equality, in place of
`pthread_t` and `pthread_equal`. Message handles are a type parameter `M`.
A row flag is `bool`: `true` for a stored 1, `false` for a 0.

The two condition-variable waits are preconditions:

- `addMsg` with at least one subscriber needs `count < size`. The check for
  no subscribers comes before the wait, so an empty list never waits.
- `getMsg` needs `count > 0`, even for a thread that is not subscribed,
  because the wait comes before the list lookup.

`AddMsg` is split into the check for no subscribers and `StoreMsg`.
`StoreMsg` is everything after the wait, which re-checks nothing. So a
producer that waited while the last subscriber left still stores its
message, with an empty row (`Scenarios.ResumedProducerStoresWithoutSubscribers`).

Behaviours of the C code that the model keeps as written:

- `subscribe` pushes the new node on the front of the list (publish.c:86-87)
  but clears the last flag of each pending row (publish.c:94). The newcomer,
  at position 0, inherits the flag of the subscriber that was in front
  before it. It receives the backlog only if that subscriber has not taken
  it yet (`Scenarios.LateSubscriberInheritsClearFlag`,
  `IdentityFlags.LateSubscriberMissesBacklog`).
- `unsubscribe` sets the leaving subscriber's flag in every pending row and
  never evicts a message (publish.c:114-118). A head message that every
  remaining subscriber has already taken is then left at the head. Each
  `getMsg` returns NULL for it, so it is never evicted while the list stays
  as it is. The subscribers receive nothing queued after it, and producers
  wait once the buffer is full
  (`EvictOnUnsubscribe.UnsubscribeLeavesDeliveredHead`).
- `getMsg` for a thread that is not subscribed prints a line and returns
  NULL (publish.c:184-189).
- `createQueue` with a size of 0 or less returns before setting up the
  delivery map, mutex and condition variables (publish.c:16-19). The model
  gives `None`.
- `removeMsg` and `setSize` are declared (publish.h:43, publish.h:45) but not
  defined in publish.c.
- Every flag is read and written at the subscriber's current list position
  (publish.c:192-208, publish.c:253-259).

## Model

| member | source | states |
|---|---|---|
| Ring.Slot | publish.c:254-255 | `(head + i) % size` is a slot index, equal to `head + i` or `head + i - size`. The same slot arithmetic appears at publish.c:90-91 and publish.c:115-116. |
| Ring.Next | publish.c:156 | Advancing an index mod size wraps from `size - 1` to 0 and otherwise adds one. The head advances the same way at publish.c:220. |
| Registry.Count | publish.c:266-274 | Walking the list counts exactly its length. |
| Registry.IndexOf | publish.c:173-182 | The walk finds the first node with the id. It falls off the end exactly when the id is not subscribed. |
| Registry.RemoveAt | publish.c:108-112 | Unlinking a node removes exactly that position and keeps the order of the other nodes. |
| Registry.RemoveAtNoDuplicates | publish.c:104-124 | Unlinking keeps the list free of duplicates. It removes the leaving id and keeps every other id. |
| Registry.IndexOfUnique | publish.c:74-81 | In a duplicate-free list, the walk finds the one position where the id sits. |
| Publish.Valid | publish.h:13-19 | The invariant every operation keeps: `count` live slots starting at `head`, `tail` just past them, exactly the live slots hold a message and a non-NULL row, every row has a flag for each list position, and no thread is listed twice. |
| Publish.AllDelivered | publish.c:203-214 | The eviction test: each of the first `N` flags of the row is set, one per node the walk visits. |
| Publish.CanAdd | publish.c:133-143 | `addMsg` completes without waiting exactly when the list is empty or the buffer has room. |
| Publish.Window | publish.h:11-19 | The ring represents `count` pending messages. Each has a row with at least one flag per current subscriber. |
| Publish.CreateQueue | publish.c:7-40 | A positive size gives a valid empty queue: counters 0, every row NULL, no subscribers. A non-positive size gives no usable queue. |
| Publish.Subscribe | publish.c:70-98 | A known id changes nothing. A new id goes to the front of the list. Every live row then has one flag per subscriber, with the last flag clear. Buffer, head, tail and count are unchanged, and the invariant holds. |
| Publish.Unsubscribe | publish.c:101-127 | An unknown id changes nothing. A known id's node is unlinked from its position, and the other ids keep their order. Live rows keep their length, nothing is evicted, and the invariant holds. |
| Publish.StoreMsg | publish.c:145-157 | The message goes into the old tail slot with an all-clear row, one flag per subscriber. Tail advances mod size and count grows by one. Head and every other slot are unchanged. |
| Publish.AddMsg | publish.c:130-162 | With no subscribers the queue is unchanged. Otherwise the message is stored at the old tail and count grows by one. |
| Publish.GetMsg | publish.c:165-228 | An unknown caller, or one whose head flag is already set, gets NULL and changes nothing. Otherwise the caller gets the head message. The message is evicted exactly when the first `N` flags of its updated row are all set. Eviction clears the row, advances head mod size and decrements count. Otherwise head stays. Tail, list and buffer are unchanged, and no row changes length. |
| Publish.GetAvailable | publish.c:231-263 | The result is None exactly for an unknown thread. Otherwise it is the number of pending messages whose flag at the caller's position is clear, at most `count`. |
| Publish.Undelivered | publish.c:253-259 | A count of waiting messages never exceeds the number of pending messages. |
| PublishProperties.LiveSlotsAreWindow | publish.h:19 | Exactly the slots `(head + i) % size` with `i < count` carry a non-NULL row. |
| PublishProperties.FlagAccessInBounds | publish.c:192-208 | Every subscriber's list position is in bounds for every live row. |
| PublishProperties.SubscribeWindow | publish.c:84-95 | Subscribing a new id keeps every pending message in order. Each row becomes its first `N - 1` flags followed by one clear flag. |
| PublishProperties.UnsubscribeWindow | publish.c:104-124 | Unsubscribing the id at position `i` keeps every pending message. It sets flag `i` of each row and changes nothing else. |
| PublishProperties.StoreMsgWindow | publish.c:145-157 | Storing appends the message, with an all-clear row, to the end of the pending sequence. |
| PublishProperties.GetMsgReturnsOldest | publish.c:192-227 | A delivered message is always the oldest pending one. |
| PublishProperties.GetMsgEvictWindow | publish.c:216-223 | Eviction removes exactly the oldest pending message. |
| PublishProperties.GetMsgMarkWindow | publish.c:200-214 | A delivery without eviction changes only the caller's flag in the oldest row. |
| PublishProperties.SubscribeIdempotent | publish.c:73-81 | Subscribing twice equals subscribing once. |
| PublishProperties.SubscribeUnsubscribeEmpty | publish.c:83-124 | On an empty buffer, unsubscribing a just-subscribed id restores the queue exactly. |
| PublishProperties.UndeliveredIsPendingCount | publish.c:252-259 | The available count equals the size of the set of pending positions whose flag for the caller is clear. |
| Schedule.Blocks | publish.c:140-171 | A step waits exactly when `addMsg` finds subscribers and a full buffer, a resumed producer re-checks a full buffer, or `getMsg` finds no messages. |
| Schedule.Step | publish.c:130-171 | A call fails to complete exactly when it would wait: `addMsg` on a full buffer with subscribers, a waiting producer's resume on a full buffer, or `getMsg` on an empty one. Every completed call keeps the invariant and the size. |
| Schedule.Run | publish.c:130-171 | Every state reached by any sequence of calls, including producers resuming after their wait, keeps the invariant. |
| Scenarios.BackpressureThenEviction | publish.c:130-228 | Capacity 2, two subscribers and two messages: a third producer waits. After both subscribers take the oldest message it is evicted, and the producer can continue. |
| Scenarios.RunAppend | publish.c:130-228 | Running a sequence of calls and then more calls is the same as running them all in one go. |
| Scenarios.LateSubscriberInheritsClearFlag | publish.c:84-95 | After `subscribe(a)`, `addMsg(m)`, a newcomer `b` goes in front and inherits `a`'s clear flag. Since `a` has not taken `m`, `b` receives it. |
| Scenarios.ResumedProducerStoresWithoutSubscribers | publish.c:130-157 | Size 1: `subscribe(a)`, `addMsg(m1)`, a second `addMsg(m2)` waits, `getMsg(a)` evicts, `unsubscribe(a)`. The waiting producer then stores `m2` with an empty row, where a fresh `addMsg(m2)` would discard it. |
| IdentityFlags.FixedSubscribe | publish.c:84-95 | Corrected `subscribe`: the new flag goes in front, where the node goes. Rows keep exactly one flag per subscriber. |
| IdentityFlags.FixedUnsubscribe | publish.c:108-118 | Corrected `unsubscribe`: the leaving subscriber's flag is removed with its node. Rows keep exactly one flag per subscriber. |
| IdentityFlags.ExactKeptByAddAndGet | publish.c:145-223 | `addMsg`, a resumed producer's store and `getMsg` keep rows at exactly one flag per subscriber. |
| IdentityFlags.FixedSubscribeUnsubscribe | publish.c:84-118 | With messages pending, the corrected `unsubscribe` exactly undoes the corrected `subscribe` of a new thread. |
| IdentityFlags.FixedSubscribeKeepsFlags | publish.c:84-95 | With the corrected `subscribe`, every subscribed thread keeps its flag in every live row, and the newcomer's flag is clear. |
| IdentityFlags.FixedUnsubscribeKeepsFlags | publish.c:108-118 | With the corrected `unsubscribe`, every remaining thread keeps its flag in every live row. |
| IdentityFlags.UnsubscribeShiftsFlags | publish.c:104-124 | As written, after `unsubscribe(b)` from `[b, a]`, `a` reads b's forced flag. While `a` is the only subscriber, every `getMsg(a)` returns NULL and changes nothing. `a` receives neither `m` nor any later message, and `m` stays at the head. |
| IdentityFlags.FixedUnsubscribeDrains | publish.c:104-124 | Corrected, after that `unsubscribe(b)`, `a` receives the message and evicts it. |
| IdentityFlags.SubscribeShiftsFlags | publish.c:84-95 | As written, after `subscribe(b)`, `a` reads a clear flag for a message it already took, and `c` reads a's set flag. So `a` gets the message twice and `c` never gets it. |
| IdentityFlags.LateSubscriberMissesBacklog | publish.c:84-95 | As written, after `subscribe(a)`, `subscribe(c)`, `addMsg(m)`, `getMsg(c)`, a newcomer `b` inherits c's set flag. `getMsg(b)` returns NULL, and `getMsg(c)` returns `m` a second time. |
| IdentityFlags.FixedLateSubscriberReceivesBacklog | publish.c:84-95 | Corrected, after that `subscribe(b)`, `b` receives the backlog and `c` is not served again. |
| EvictOnUnsubscribe.StalledGetMsgIsFixedPoint | publish.c:192-198 | When the head message's first `N` flags are all set, every `getMsg` returns NULL and changes nothing. |
| EvictOnUnsubscribe.EvictHead | publish.c:216-223 | Eviction keeps the invariant, the list, the size and the tail, drops count by one and NULLs only the old head's row. |
| EvictOnUnsubscribe.EvictHeadWindow | publish.c:216-223 | Eviction removes exactly the oldest pending message. |
| EvictOnUnsubscribe.DrainDelivered | publish.c:203-223 | Running the eviction test until it fails leaves no stalled head and keeps the invariant, the list and exact rows. |
| EvictOnUnsubscribe.DrainDeliveredWindow | publish.c:203-223 | Draining drops a prefix of the pending messages, each with all of its first `N` flags set, and keeps the rest unchanged. |
| EvictOnUnsubscribe.DrainingUnsubscribe | publish.c:101-127 | Corrected `unsubscribe`: the node goes as in `FixedUnsubscribe`. Then exactly the longest front run of messages whose flags are all set is evicted: the kept messages are the rest of `FixedUnsubscribe`'s pending sequence, unchanged, and the new head is not stalled. Rows stay exact, and every other subscriber stays. |
| EvictOnUnsubscribe.DrainingUnsubscribeKeepsFlags | publish.c:104-118 | After the corrected `unsubscribe`, every remaining subscriber reads, in each kept message, the flag it read in that same message before. |
| EvictOnUnsubscribe.UnsubscribeLeavesDeliveredHead | publish.c:114-118 | As written, after `subscribe(a)`, `subscribe(c)`, `addMsg(m)`, `getMsg(a)`, `unsubscribe(c)` leaves `m` at the head with row `[1, 1]`. `getMsg(a)` then returns NULL and changes nothing, also after `addMsg(m2)`, and the next `addMsg` waits. `FixedUnsubscribe` stalls the same way, and `DrainingUnsubscribe` evicts `m`. |
| IdentityFlags.FixedSubscribeKeepsDelivery | publish.c:84-95 | Corrected, after that `subscribe(b)`, `a` is not served again and `c` still receives the message. |

## Left out

- The mutex, the condition variables and the blocking `while` loops
  (publish.c:37-39, 141-143, 160, 169-171, 222). Each call, and each half of
  `addMsg` around its wait, is atomic. The waits are preconditions
  (`CanAdd`, `count > 0`) or `Schedule.Blocks`. Which thread a broadcast
  wakes is not modelled.
- Schedule.Run: a `StoreMsgCall` may appear without an earlier `addMsg` that
  waited, so runs cover more interleavings than the C code allows. The
  invariant holds on all of them. A waiting `getMsg` is not a separate step,
  because it changes nothing before its wait.
- `malloc`/`realloc`/`free`, allocation failures and `destroyQueue`
  (publish.c:15-26, 43-67). This is memory management. Slots that were never
  written hold `None` where the C buffer is uninitialised.
- The `printf`/`fprintf` diagnostics. `GetAvailable` returns the count,
  or `None` where the C code prints that the thread is not subscribed.
- `removeMsg` and `setSize` (publish.h:43, publish.h:45). They are declared
  but not defined in publish.c, so there is nothing to model.
- `main.c`, a demonstration driver that starts threads and sleeps.
- C `int` width. `head + i` and the counters are unbounded integers. In C,
  `head + i` could overflow only for buffers of more than 2^30 slots.

## Findings

| source | as written | input that shows it | evidently intended | confidence | as-written member | corrected member |
|---|---|---|---|---|---|---|
| publish.c:104-118 | `unsubscribe` unlinks the node at position `i` and sets flag `i`. It does not remove the flag, so every later subscriber's position now points at its predecessor's flag. | size 2: `subscribe(a)`, `subscribe(b)`, `addMsg(m)`, `unsubscribe(b)`, `getMsg(a)`. It returns NULL and changes nothing, so while `a` is the only subscriber, `a` receives neither `m` nor any later message. | The leaving subscriber's flag goes away with its node, and every remaining subscriber keeps its own flag. | high, not executed | IdentityFlags.UnsubscribeShiftsFlags | IdentityFlags.FixedUnsubscribeKeepsFlags |
| publish.c:84-94 | `subscribe` pushes the new node on the front of the list but clears the last flag of each row. Every older subscriber's position then points at the next flag. | size 2: `subscribe(a)`, `subscribe(c)`, `addMsg(m)`, `getMsg(a)`, `subscribe(b)`. Then `getMsg(a)` returns `m` again and `getMsg(c)` returns NULL. | The new subscriber's clear flag sits where its node sits, and every older subscriber keeps its own flag. | high, not executed | IdentityFlags.SubscribeShiftsFlags | IdentityFlags.FixedSubscribeKeepsFlags |
| publish.c:86-94 | The comment on line 94 says the new subscriber's flag is cleared, but the cleared flag is the last one, while the new node sits at position 0. The newcomer takes over the old front subscriber's flag. | size 2: `subscribe(a)`, `subscribe(c)`, `addMsg(m)`, `getMsg(c)`, `subscribe(b)`. Then `getMsg(b)` returns NULL and `getMsg(c)` returns `m` again. | The newcomer gets a clear flag of its own for every pending message. | high, not executed | IdentityFlags.LateSubscriberMissesBacklog | IdentityFlags.FixedSubscribeKeepsFlags |
| publish.c:114-118 | `unsubscribe` sets the leaving subscriber's flag but does not run the eviction test of publish.c:203-223. A message that every remaining subscriber has taken stays at the head, and every `getMsg` returns NULL for it. | size 2: `subscribe(a)`, `subscribe(c)`, `addMsg(m)`, `getMsg(a)`, `unsubscribe(c)`. Then `getMsg(a)` returns NULL and `m` stays. After `addMsg(m2)` the buffer is full, `getMsg(a)` still returns NULL, and the next producer waits. | A message taken by every remaining subscriber is evicted, as `getMsg` would have done. | medium, not executed | EvictOnUnsubscribe.UnsubscribeLeavesDeliveredHead | EvictOnUnsubscribe.DrainingUnsubscribe |

The `Publish` state machine and the `Schedule` runs keep the operations as
the code writes them, because that is the behaviour being modelled. The
corrected `IdentityFlags.FixedSubscribe` and
`IdentityFlags.FixedUnsubscribe` run on the same `Queue` type. The stronger
invariant `Exact` (exactly one flag per subscriber) is kept by them and by
`Publish.AddMsg` and `Publish.GetMsg` (`ExactKeptByAddAndGet`). With the
corrected operations, the three runs above behave as intended
(`FixedUnsubscribeDrains`, `FixedSubscribeKeepsDelivery`,
`FixedLateSubscriberReceivesBacklog`). `FixedUnsubscribe` alone does not
remove the stall of the fourth row. `DrainingUnsubscribe` does, by running
the eviction test after it.
