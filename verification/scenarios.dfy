/** Concrete runs of the queue for any distinct threads and any messages,
    mostly on a buffer with room for two messages. */
module Scenarios {
  import opened Wrappers
  import opened Registry
  import opened Publish
  import opened Schedule

  /** Room for two, nothing queued, the given subscriber list. */
  function Idle<Id, M>(subscribers: seq<Id>): Queue<Id, M> {
    Queue([None, None], 2, 0, 0, 0, subscribers, [None, None])
  }

  /** Room for two, message `m` pending in slot 0 with delivery row `row`. */
  function OnePending<Id, M>(subscribers: seq<Id>, m: M, row: seq<bool>): Queue<Id, M> {
    Queue([Some(m), None], 2, 1, 0, 1, subscribers, [Some(row), None])
  }

  /** Room for two and full: `m1` in slot 0 with row `row1`, `m2` in slot 1
      with an all-clear row for two subscribers. */
  function BothPending<Id, M>(subscribers: seq<Id>, m1: M, m2: M, row1: seq<bool>): Queue<Id, M> {
    Queue([Some(m1), Some(m2)], 2, 2, 0, 0, subscribers, [Some(row1), Some([false, false])])
  }

  lemma CreateTwo<Id, M>()
    ensures CreateQueue<Id, M>(2) == Some(Idle([]))
  {
    var q := CreateQueue<Id, M>(2).value;
    assert q.messages == [None, None];
    assert q.deliveryMap == [None, None];
  }

  /** On an empty buffer, subscribing only pushes the new node. */
  lemma SubscribeOnEmpty<Id, M>(q: Queue<Id, M>, id: Id)
    requires Valid(q) && q.count == 0 && id !in q.subscribers
    ensures Subscribe(q, id) == q.(subscribers := [id] + q.subscribers)
  {
    assert Subscribe(q, id).deliveryMap == q.deliveryMap;
  }

  /** `subscribe(a)` then `subscribe(b)` on an empty queue of size two. */
  lemma {:induction false} TwoSubscribers<Id, M>(a: Id, b: Id)
    requires a != b
    ensures Run(CreateQueue<Id, M>(2).value, [SubscribeCall(a), SubscribeCall(b)]) == Some(Idle([b, a]))
  {
    CreateTwo<Id, M>();
    var q0: Queue<Id, M> := Idle([]);
    SubscribeOnEmpty(q0, a);
    var q1: Queue<Id, M> := Idle([a]);
    SubscribeOnEmpty(q1, b);
    var q2: Queue<Id, M> := Idle([b, a]);
    var calls: seq<Call<Id, M>> := [SubscribeCall(a), SubscribeCall(b)];
    assert Run(q2, calls[2..]) == Some(q2);
    assert [b] + [a] == [b, a];
    assert Step(q1, calls[1..][0]) == Some(q2);
    assert Run(q1, calls[1..]) == Some(q2);
    assert [a] + [] == [a];
    assert Step(q0, calls[0]) == Some(q1);
  }

  /** A run that extends another one by further calls. */
  lemma {:induction false} RunAppend<Id, M>(q: Queue<Id, M>, xs: seq<Call<Id, M>>, ys: seq<Call<Id, M>>)
    requires Valid(q)
    requires Run(q, xs).Some?
    ensures Run(q, xs + ys) == Run(Run(q, xs).value, ys)
    decreases |xs|
  {
    if xs != [] {
      assert (xs + ys)[0] == xs[0];
      assert (xs + ys)[1..] == xs[1..] + ys;
      RunAppend(Step(q, xs[0]).value, xs[1..], ys);
    } else {
      assert xs + ys == ys;
    }
  }

  lemma AddFirst<Id, M>(a: Id, b: Id, m1: M)
    requires a != b
    ensures Valid<Id, M>(Idle([b, a]))
    ensures AddMsg(Idle([b, a]), m1) == OnePending([b, a], m1, [false, false])
  {
    var clear: seq<bool> := seq(2, _ => false);
    assert clear == [false, false];
  }

  lemma AddSecond<Id, M>(a: Id, b: Id, m1: M, m2: M)
    requires a != b
    ensures Valid(OnePending([b, a], m1, [false, false]))
    ensures AddMsg(OnePending([b, a], m1, [false, false]), m2) == BothPending([b, a], m1, m2, [false, false])
  {
    var clear: seq<bool> := seq(2, _ => false);
    assert clear == [false, false];
  }

  lemma FirstReceive<Id, M>(a: Id, b: Id, m1: M, m2: M)
    requires a != b
    ensures Valid(BothPending([b, a], m1, m2, [false, false]))
    ensures GetMsg(BothPending([b, a], m1, m2, [false, false]), a)
            == Received(BothPending([b, a], m1, m2, [false, true]), Some(m1))
  {
    var q := BothPending([b, a], m1, m2, [false, false]);
    IndexOfUnique(q.subscribers, a, 1);
    var row: seq<bool> := [false, true];
    assert q.deliveryMap[q.head].value[1 := true] == row;
    assert !AllDelivered(row, 2) by { assert !row[0]; }
  }

  lemma SecondReceive<Id, M>(a: Id, b: Id, m1: M, m2: M)
    requires a != b
    ensures Valid(BothPending([b, a], m1, m2, [false, true]))
    ensures GetMsg(BothPending([b, a], m1, m2, [false, true]), b)
            == Received(Queue([Some(m1), Some(m2)], 2, 1, 1, 0, [b, a], [None, Some([false, false])]), Some(m1))
  {
    var q := BothPending([b, a], m1, m2, [false, true]);
    IndexOfUnique(q.subscribers, b, 0);
    var row: seq<bool> := [true, true];
    assert q.deliveryMap[q.head].value[0 := true] == row;
  }

  /** Backpressure and eviction: with room for two messages and two
      subscribers the buffer fills after two messages and a third producer
      waits; once both subscribers have taken the oldest message it is
      evicted and the producer can go on (publish.c:141-157, publish.c:201-223). */
  lemma BackpressureThenEviction<Id, M>(a: Id, b: Id, m1: M, m2: M, m3: M)
    requires a != b
    ensures var q := Run(CreateQueue<Id, M>(2).value,
                         [SubscribeCall(a), SubscribeCall(b), AddMsgCall(m1), AddMsgCall(m2)]);
            && q.Some?
            && q.value.count == 2
            && Blocks(q.value, AddMsgCall(m3))
            && var g1 := GetMsg(q.value, a);
            && g1.msg == Some(m1) && g1.queue.count == 2
            && var g2 := GetMsg(g1.queue, b);
            && g2.msg == Some(m1) && g2.queue.count == 1
            && !Blocks(g2.queue, AddMsgCall(m3))
  {
    var q0 := CreateQueue<Id, M>(2).value;
    TwoSubscribers<Id, M>(a, b);
    AddFirst(a, b, m1);
    AddSecond(a, b, m1, m2);
    var q2: Queue<Id, M> := Idle([b, a]);
    var q4 := BothPending([b, a], m1, m2, [false, false]);
    var adds: seq<Call<Id, M>> := [AddMsgCall(m1), AddMsgCall(m2)];
    assert Run(q4, adds[2..]) == Some(q4);
    assert Run(OnePending([b, a], m1, [false, false]), adds[1..]) == Some(q4);
    assert Run(q2, adds) == Some(q4);
    RunAppend(q0, [SubscribeCall(a), SubscribeCall(b)], adds);
    assert [SubscribeCall(a), SubscribeCall(b)] + adds
        == [SubscribeCall(a), SubscribeCall(b), AddMsgCall(m1), AddMsgCall(m2)];
    FirstReceive(a, b, m1, m2);
    SecondReceive(a, b, m1, m2);
  }

  /** With a single earlier subscriber that has not yet taken a pending
      message, a newcomer pushed in front inherits that subscriber's clear
      flag (the row keeps its first flag, publish.c:93) and receives the
      message. Module IdentityFlags shows the newcomer missing it when the
      front subscriber has already taken it. */
  lemma {:induction false} LateSubscriberInheritsClearFlag<Id, M>(a: Id, b: Id, m: M)
    requires a != b
    ensures var q := OnePending([a], m, [false]);
            && Run(CreateQueue<Id, M>(2).value, [SubscribeCall(a), AddMsgCall(m)]) == Some(q)
            && var r := Subscribe(q, b);
            && r.subscribers == [b, a]
            && r.deliveryMap[0] == Some([false, false])
            && GetMsg(r, b).msg == Some(m)
  {
    CreateTwo<Id, M>();
    var q0: Queue<Id, M> := Idle([]);
    SubscribeOnEmpty(q0, a);
    var q1: Queue<Id, M> := Idle([a]);
    var clear: seq<bool> := seq(1, _ => false);
    assert clear == [false];
    var q := OnePending([a], m, [false]);
    assert AddMsg(q1, m) == q;
    var calls: seq<Call<Id, M>> := [SubscribeCall(a), AddMsgCall(m)];
    assert Run(q, calls[2..]) == Some(q);
    assert Run(q1, calls[1..]) == Some(q);
    assert [a] + [] == [a];
    assert Step(q0, calls[0]) == Some(q1);
    var r := Subscribe(q, b);
    assert [false][..1] + [false] == [false, false];
    assert r.deliveryMap == [Some([false, false]), None];
    IndexOfUnique(r.subscribers, b, 0);
  }

  /** A producer that waited in `addMsg` stores its message even when the
      last subscriber left while it was waiting, because it re-checks only
      `count` on waking (publish.c:134-157). On a buffer of size one:
      `subscribe(a)`, `addMsg(m1)`, a second producer waits in
      `addMsg(m2)`, `getMsg(a)` evicts `m1`, `unsubscribe(a)`, and the
      waiting producer resumes. `m2` is then queued with an empty delivery
      row, where a fresh `addMsg` would have discarded it. */
  lemma {:induction false} ResumedProducerStoresWithoutSubscribers<Id, M>(a: Id, m1: M, m2: M)
    ensures var full := Queue([Some(m1)], 1, 1, 0, 0, [a], [Some([false])]);
            && Run(CreateQueue<Id, M>(1).value, [SubscribeCall(a), AddMsgCall(m1)]) == Some(full)
            && Blocks(full, AddMsgCall(m2))
            && var r := Run(full, [GetMsgCall(a), UnsubscribeCall(a), StoreMsgCall(m2)]);
            && r == Some(Queue([Some(m2)], 1, 1, 0, 0, [], [Some([])]))
            && var drained: Queue<Id, M> := Queue([Some(m1)], 1, 0, 0, 0, [], [None]);
            && AddMsg(drained, m2) == drained
  {
    var q0: Queue<Id, M> := Queue([None], 1, 0, 0, 0, [], [None]);
    var c := CreateQueue<Id, M>(1).value;
    assert c.messages == [None] && c.deliveryMap == [None];
    assert c == q0;
    SubscribeOnEmpty(q0, a);
    var q1: Queue<Id, M> := Queue([None], 1, 0, 0, 0, [a], [None]);
    assert [a] + [] == [a];
    var clear: seq<bool> := seq(1, _ => false);
    assert clear == [false];
    var full := Queue([Some(m1)], 1, 1, 0, 0, [a], [Some([false])]);
    assert AddMsg(q1, m1) == full;
    var calls: seq<Call<Id, M>> := [SubscribeCall(a), AddMsgCall(m1)];
    assert Run(full, calls[2..]) == Some(full);
    assert Run(q1, calls[1..]) == Some(full);
    assert Step(q0, calls[0]) == Some(q1);

    assert IndexOf(full.subscribers, a) == Some(0);
    assert [false][0 := true] == [true];
    var e := Queue([Some(m1)], 1, 0, 0, 0, [a], [None]);
    assert GetMsg(full, a).queue == e;
    var u := Queue([Some(m1)], 1, 0, 0, 0, [], [None]);
    assert IndexOf(e.subscribers, a) == Some(0);
    assert RemoveAt([a], 0) == [];
    assert Unsubscribe(e, a).deliveryMap == [None];
    assert Unsubscribe(e, a) == u;
    var s := Queue([Some(m2)], 1, 1, 0, 0, [], [Some([])]);
    var empty: seq<bool> := seq(0, _ => false);
    assert empty == [];
    assert StoreMsg(u, m2) == s;
    var rest: seq<Call<Id, M>> := [GetMsgCall(a), UnsubscribeCall(a), StoreMsgCall(m2)];
    assert Run(s, rest[3..]) == Some(s);
    assert Run(u, rest[2..]) == Some(s);
    assert Run(e, rest[1..]) == Some(s);
  }
}
