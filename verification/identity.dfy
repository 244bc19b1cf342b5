/** Delivery flags are addressed by a subscriber's current position in the
    list (publish.c:93-94, publish.c:117, publish.c:195, publish.c:256), but
    `subscribe` pushes the new node on the FRONT of the list while clearing
    the LAST flag of each row, and `unsubscribe` unlinks a node without
    removing its flag. Both shift the positions of the remaining subscribers
    against their flags. This module exhibits the shift on the operations as
    written, and gives corrected versions under which every remaining
    subscriber keeps exactly the flags it had. */
module IdentityFlags {
  import opened Wrappers
  import opened Registry
  import opened Publish
  import opened Schedule
  import opened Scenarios

  /** The flag `row` holds for thread `x`, read at `x`'s list position the
      way every operation reads it. */
  ghost function FlagOf<Id>(subscribers: seq<Id>, row: seq<bool>, x: Id): bool
    requires x in subscribers && |subscribers| <= |row|
  {
    row[IndexOf(subscribers, x).value]
  }

  /** `Valid`, with every live row holding exactly one flag per subscriber. */
  ghost predicate Exact<Id, M>(q: Queue<Id, M>) {
    && Valid(q)
    && forall k :: 0 <= k < q.size && q.deliveryMap[k].Some? ==>
         |q.deliveryMap[k].value| == |q.subscribers|
  }

  /** `subscribe` with the new subscriber's clear flag put where its node
      goes: in front. */
  function FixedSubscribe<Id(==), M>(q: Queue<Id, M>, id: Id): (r: Queue<Id, M>)
    requires Exact(q)
    ensures Exact(r)
    ensures id in q.subscribers ==> r == q
    ensures id !in q.subscribers ==> r.subscribers == [id] + q.subscribers
    ensures r.messages == q.messages && r.size == q.size && r.count == q.count
    ensures r.head == q.head && r.tail == q.tail
    ensures forall k :: 0 <= k < q.size ==> (r.deliveryMap[k].Some? <==> q.deliveryMap[k].Some?)
  {
    if id in q.subscribers then q
    else
      var subscribers := [id] + q.subscribers;
      assert NoDuplicates(subscribers);
      q.(
        subscribers := subscribers,
        deliveryMap := seq(q.size, k requires 0 <= k < q.size =>
          if Live(q, k) then Some([false] + q.deliveryMap[k].value)
          else q.deliveryMap[k]))
  }

  /** `unsubscribe` with the leaving subscriber's flag removed from every
      live row together with its node. */
  function FixedUnsubscribe<Id(==), M>(q: Queue<Id, M>, id: Id): (r: Queue<Id, M>)
    requires Exact(q)
    ensures Exact(r)
    ensures id !in q.subscribers ==> r == q
    ensures id in q.subscribers ==> r.subscribers == RemoveAt(q.subscribers, IndexOf(q.subscribers, id).value)
    ensures r.messages == q.messages && r.size == q.size && r.count == q.count
    ensures r.head == q.head && r.tail == q.tail
    ensures forall k :: 0 <= k < q.size ==> (r.deliveryMap[k].Some? <==> q.deliveryMap[k].Some?)
  {
    match IndexOf(q.subscribers, id)
    case None => q
    case Some(i) =>
      RemoveAtNoDuplicates(q.subscribers, i);
      q.(
        subscribers := RemoveAt(q.subscribers, i),
        deliveryMap := seq(q.size, k requires 0 <= k < q.size =>
          if Live(q, k) then Some(RemoveAt(q.deliveryMap[k].value, i))
          else q.deliveryMap[k]))
  }

  /** `addMsg` and `getMsg` keep rows exactly one flag per subscriber, so the
      corrected operations compose with them. */
  lemma ExactKeptByAddAndGet<Id, M>(q: Queue<Id, M>, msg: M, id: Id)
    requires Exact(q)
    ensures CanAdd(q) ==> Exact(AddMsg(q, msg))
    ensures q.count < q.size ==> Exact(StoreMsg(q, msg))
    ensures 0 < q.count ==> Exact(GetMsg(q, id).queue)
  {
  }

  /** With messages pending, the corrected `unsubscribe` exactly undoes the
      corrected `subscribe` of a new thread: its node and its flag go, and
      every row is back as it was. */
  lemma {:induction false} FixedSubscribeUnsubscribe<Id, M>(q: Queue<Id, M>, id: Id)
    requires Exact(q) && id !in q.subscribers
    ensures FixedUnsubscribe(FixedSubscribe(q, id), id) == q
  {
    var s := FixedSubscribe(q, id);
    IndexOfUnique(s.subscribers, id, 0);
    var r := FixedUnsubscribe(s, id);
    assert r.subscribers == q.subscribers;
    forall k | 0 <= k < q.size
      ensures r.deliveryMap[k] == q.deliveryMap[k]
    {
      if q.deliveryMap[k].Some? {
        assert RemoveAt([false] + q.deliveryMap[k].value, 0) == q.deliveryMap[k].value;
      }
    }
  }

  /** Under the corrected `subscribe` every thread already subscribed keeps
      the flag it had in every live row, and the newcomer's flag is clear. */
  lemma {:induction false} FixedSubscribeKeepsFlags<Id, M>(q: Queue<Id, M>, id: Id, x: Id, k: nat)
    requires Exact(q)
    requires id !in q.subscribers && x in q.subscribers
    requires k < q.size && q.deliveryMap[k].Some?
    ensures var r := FixedSubscribe(q, id);
            && r.deliveryMap[k].Some?
            && FlagOf(r.subscribers, r.deliveryMap[k].value, x) == FlagOf(q.subscribers, q.deliveryMap[k].value, x)
            && !FlagOf(r.subscribers, r.deliveryMap[k].value, id)
  {
    var r := FixedSubscribe(q, id);
    var j := IndexOf(q.subscribers, x).value;
    IndexOfUnique(r.subscribers, x, j + 1);
    IndexOfUnique(r.subscribers, id, 0);
  }

  /** Under the corrected `unsubscribe` every thread that stays subscribed
      keeps the flag it had in every live row. */
  lemma {:induction false} FixedUnsubscribeKeepsFlags<Id, M>(q: Queue<Id, M>, id: Id, x: Id, k: nat)
    requires Exact(q)
    requires id in q.subscribers && x in q.subscribers && x != id
    requires k < q.size && q.deliveryMap[k].Some?
    ensures var r := FixedUnsubscribe(q, id);
            && x in r.subscribers
            && r.deliveryMap[k].Some?
            && FlagOf(r.subscribers, r.deliveryMap[k].value, x) == FlagOf(q.subscribers, q.deliveryMap[k].value, x)
  {
    var r := FixedUnsubscribe(q, id);
    var i := IndexOf(q.subscribers, id).value;
    var j := IndexOf(q.subscribers, x).value;
    var j' := if j < i then j else j - 1;
    assert r.subscribers[j'] == x;
    IndexOfUnique(r.subscribers, x, j');
  }

  /** The state after `subscribe(a)`, `subscribe(b)`, `addMsg(m)` on an empty
      queue of size two: list `[b, a]`, one message with row `[0, 0]`. */
  lemma {:induction false} OnePendingForTwo<Id, M>(a: Id, b: Id, m: M)
    requires a != b
    ensures Run(CreateQueue<Id, M>(2).value, [SubscribeCall(a), SubscribeCall(b), AddMsgCall(m)])
            == Some(OnePending([b, a], m, [false, false]))
  {
    TwoSubscribers<Id, M>(a, b);
    AddFirst(a, b, m);
    var q2: Queue<Id, M> := Idle([b, a]);
    var q3 := OnePending([b, a], m, [false, false]);
    var add: seq<Call<Id, M>> := [AddMsgCall(m)];
    assert Run(q3, add[1..]) == Some(q3);
    assert Run(q2, add) == Some(q3);
    RunAppend(CreateQueue<Id, M>(2).value, [SubscribeCall(a), SubscribeCall(b)], add);
    assert [SubscribeCall(a), SubscribeCall(b)] + add == [SubscribeCall(a), SubscribeCall(b), AddMsgCall(m)];
  }

  /** As written, `unsubscribe(b)` from list `[b, a]` sets flag 0 of the
      pending row, which after the unlink is `a`'s position: `a` now reads
      the message as delivered. While `a` is the only subscriber, every
      `getMsg(a)` returns NULL and changes nothing, so `a` receives neither
      this message nor any later one, and the message stays at the head. */
  lemma {:induction false} UnsubscribeShiftsFlags<Id, M>(a: Id, b: Id, m: M)
    requires a != b
    ensures var q := OnePending([b, a], m, [false, false]);
            && Run(CreateQueue<Id, M>(2).value, [SubscribeCall(a), SubscribeCall(b), AddMsgCall(m)]) == Some(q)
            && Valid(q)
            && !FlagOf(q.subscribers, q.deliveryMap[0].value, a)
            && var r := Unsubscribe(q, b);
            && r.subscribers == [a]
            && r.deliveryMap[0] == Some([true, false])
            && FlagOf(r.subscribers, r.deliveryMap[0].value, a)
            && GetMsg(r, a) == Received(r, None)
  {
    OnePendingForTwo(a, b, m);
    var q := OnePending([b, a], m, [false, false]);
    AddFirst(a, b, m);
    IndexOfUnique(q.subscribers, a, 1);
    IndexOfUnique(q.subscribers, b, 0);
    var r := Unsubscribe(q, b);
    assert RemoveAt([b, a], 0) == [a];
    assert [false, false][0 := true] == [true, false];
    assert r.deliveryMap == [Some([true, false]), None];
    assert IndexOf(r.subscribers, a) == Some(0);
  }

  /** Corrected, the same `unsubscribe(b)` leaves `a` with its clear flag:
      `a` receives the message and, being the last subscriber, evicts it. */
  lemma {:induction false} FixedUnsubscribeDrains<Id, M>(a: Id, b: Id, m: M)
    requires a != b
    ensures var q := OnePending([b, a], m, [false, false]);
            && Run(CreateQueue<Id, M>(2).value, [SubscribeCall(a), SubscribeCall(b), AddMsgCall(m)]) == Some(q)
            && Exact(q)
            && var r := FixedUnsubscribe(q, b);
            && r.subscribers == [a]
            && GetMsg(r, a).msg == Some(m)
            && GetMsg(r, a).queue.count == 0
  {
    OnePendingForTwo(a, b, m);
    var q := OnePending([b, a], m, [false, false]);
    AddFirst(a, b, m);
    IndexOfUnique(q.subscribers, b, 0);
    var r := FixedUnsubscribe(q, b);
    assert RemoveAt([b, a], 0) == [a];
    assert RemoveAt([false, false], 0) == [false];
    assert r.deliveryMap == [Some([false]), None];
    assert IndexOf(r.subscribers, a) == Some(0);
    assert [false][0 := true] == [true];
  }

  /** After `subscribe(a)`, `subscribe(c)`, `addMsg(m)` and `getMsg(a)`: list
      `[c, a]`, one message that `a` has taken and `c` has not. */
  lemma {:induction false} TakenByOne<Id, M>(a: Id, c: Id, m: M)
    requires a != c
    ensures Valid(OnePending([c, a], m, [false, false]))
    ensures GetMsg(OnePending([c, a], m, [false, false]), a)
            == Received(OnePending([c, a], m, [false, true]), Some(m))
  {
    AddFirst(a, c, m);
    var q := OnePending([c, a], m, [false, false]);
    IndexOfUnique(q.subscribers, a, 1);
    var row: seq<bool> := [false, true];
    assert q.deliveryMap[q.head].value[1 := true] == row;
    assert !AllDelivered(row, 2) by { assert !row[0]; }
  }

  /** As written, `subscribe(b)` on that state pushes `b` in front and clears
      the LAST flag: `c` now reads `a`'s set flag and `a` reads the new clear
      one, so `a` receives the message a second time and `c` never does. */
  lemma {:induction false} SubscribeShiftsFlags<Id, M>(a: Id, b: Id, c: Id, m: M)
    requires a != b && b != c && a != c
    ensures var q := OnePending([c, a], m, [false, true]);
            && var q0 := OnePending([c, a], m, [false, false]);
            && Run(CreateQueue<Id, M>(2).value, [SubscribeCall(a), SubscribeCall(c), AddMsgCall(m)]) == Some(q0)
            && Valid(q0) && GetMsg(q0, a) == Received(q, Some(m))
            && Valid(q)
            && FlagOf(q.subscribers, q.deliveryMap[0].value, a)
            && !FlagOf(q.subscribers, q.deliveryMap[0].value, c)
            && var r := Subscribe(q, b);
            && r.deliveryMap[0] == Some([false, true, false])
            && !FlagOf(r.subscribers, r.deliveryMap[0].value, a)
            && FlagOf(r.subscribers, r.deliveryMap[0].value, c)
            && GetMsg(r, a).msg == Some(m)
            && GetMsg(r, c).msg == None
  {
    OnePendingForTwo(a, c, m);
    TakenByOne(a, c, m);
    var q := OnePending([c, a], m, [false, true]);
    IndexOfUnique(q.subscribers, a, 1);
    IndexOfUnique(q.subscribers, c, 0);
    var r := Subscribe(q, b);
    assert [false, true][..2] + [false] == [false, true, false];
    assert r.deliveryMap == [Some([false, true, false]), None];
    IndexOfUnique(r.subscribers, a, 2);
    IndexOfUnique(r.subscribers, c, 1);
  }

  /** Corrected, the same `subscribe(b)` keeps `a`'s and `c`'s flags: `a` is
      not served again and `c` still receives the message. */
  lemma {:induction false} FixedSubscribeKeepsDelivery<Id, M>(a: Id, b: Id, c: Id, m: M)
    requires a != b && b != c && a != c
    ensures var q := OnePending([c, a], m, [false, true]);
            && var q0 := OnePending([c, a], m, [false, false]);
            && Run(CreateQueue<Id, M>(2).value, [SubscribeCall(a), SubscribeCall(c), AddMsgCall(m)]) == Some(q0)
            && Valid(q0) && GetMsg(q0, a) == Received(q, Some(m))
            && Exact(q)
            && var r := FixedSubscribe(q, b);
            && r.deliveryMap[0] == Some([false, false, true])
            && GetMsg(r, a).msg == None
            && GetMsg(r, c).msg == Some(m)
  {
    OnePendingForTwo(a, c, m);
    TakenByOne(a, c, m);
    var q := OnePending([c, a], m, [false, true]);
    var r := FixedSubscribe(q, b);
    assert [false] + [false, true] == [false, false, true];
    assert r.deliveryMap == [Some([false, false, true]), None];
    IndexOfUnique(r.subscribers, a, 2);
    IndexOfUnique(r.subscribers, c, 1);
  }

  /** After `subscribe(a)`, `subscribe(c)`, `addMsg(m)` and `getMsg(c)`: list
      `[c, a]`, one message that the front subscriber `c` has taken and `a`
      has not. */
  lemma {:induction false} TakenByFront<Id, M>(a: Id, c: Id, m: M)
    requires a != c
    ensures Valid(OnePending([c, a], m, [false, false]))
    ensures GetMsg(OnePending([c, a], m, [false, false]), c)
            == Received(OnePending([c, a], m, [true, false]), Some(m))
  {
    AddFirst(a, c, m);
    var q := OnePending([c, a], m, [false, false]);
    IndexOfUnique(q.subscribers, c, 0);
    var row: seq<bool> := [true, false];
    assert q.deliveryMap[q.head].value[0 := true] == row;
    assert !AllDelivered(row, 2) by { assert !row[1]; }
  }

  /** As written, a newcomer inherits the flag of the subscriber that was in
      front before it, not a clear one: `subscribe(b)` after `c` took the
      pending message keeps flag 0 (`c`'s set flag, now `b`'s position) and
      clears the last one. So `b` never receives the backlog, while `c`,
      shifted onto `a`'s clear flag, receives it a second time. */
  lemma {:induction false} LateSubscriberMissesBacklog<Id, M>(a: Id, b: Id, c: Id, m: M)
    requires a != b && b != c && a != c
    ensures var q0 := OnePending([c, a], m, [false, false]);
            && var q := OnePending([c, a], m, [true, false]);
            && Run(CreateQueue<Id, M>(2).value, [SubscribeCall(a), SubscribeCall(c), AddMsgCall(m)]) == Some(q0)
            && Valid(q0) && GetMsg(q0, c) == Received(q, Some(m))
            && Valid(q)
            && var r := Subscribe(q, b);
            && r.subscribers == [b, c, a]
            && r.deliveryMap[0] == Some([true, false, false])
            && GetMsg(r, b).msg == None
            && GetMsg(r, c).msg == Some(m)
  {
    OnePendingForTwo(a, c, m);
    TakenByFront(a, c, m);
    var q := OnePending([c, a], m, [true, false]);
    var r := Subscribe(q, b);
    assert [b] + [c, a] == [b, c, a];
    assert [true, false][..2] + [false] == [true, false, false];
    assert r.deliveryMap == [Some([true, false, false]), None];
    IndexOfUnique(r.subscribers, b, 0);
    IndexOfUnique(r.subscribers, c, 1);
  }

  /** Corrected, the newcomer's clear flag goes in front with its node: `b`
      receives the backlog and `c` is not served again. */
  lemma {:induction false} FixedLateSubscriberReceivesBacklog<Id, M>(a: Id, b: Id, c: Id, m: M)
    requires a != b && b != c && a != c
    ensures var q := OnePending([c, a], m, [true, false]);
            && Exact(q)
            && var r := FixedSubscribe(q, b);
            && r.deliveryMap[0] == Some([false, true, false])
            && GetMsg(r, b).msg == Some(m)
            && GetMsg(r, c).msg == None
  {
    TakenByFront(a, c, m);
    var q := OnePending([c, a], m, [true, false]);
    var r := FixedSubscribe(q, b);
    assert [b] + [c, a] == [b, c, a];
    assert [false] + [true, false] == [false, true, false];
    assert r.deliveryMap == [Some([false, true, false]), None];
    IndexOfUnique(r.subscribers, b, 0);
    IndexOfUnique(r.subscribers, c, 1);
  }
}
