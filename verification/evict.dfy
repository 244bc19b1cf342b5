/** `unsubscribe` sets the leaving subscriber's flag in every pending row
    (publish.c:114-118) but never runs the eviction test, which only `getMsg`
    runs, right after the caller sets its own flag (publish.c:203-223). A
    message whose flags end up all set is then left at the head, and every
    `getMsg` returns NULL for it, because each caller's flag is already set
    (publish.c:195-198). This module states that stall and gives an
    `unsubscribe` that evicts such messages. */
module EvictOnUnsubscribe {
  import opened Wrappers
  import opened Ring
  import opened Registry
  import opened Publish
  import opened Schedule
  import opened Scenarios
  import opened IdentityFlags

  /** The oldest pending message has a set flag at every subscriber's
      position, so no `getMsg` can take or evict it. */
  predicate Stalled<Id, M>(q: Queue<Id, M>)
    requires Valid(q)
  {
    0 < q.count && AllDelivered(Window(q)[0].row, |q.subscribers|)
  }

  /** On a stalled queue every `getMsg` returns NULL and changes nothing,
      so the head message stays, and with it everything queued after it. */
  lemma {:induction false} StalledGetMsgIsFixedPoint<Id, M>(q: Queue<Id, M>, id: Id)
    requires Valid(q) && Stalled(q)
    ensures GetMsg(q, id) == Received(q, None)
  {
    if id in q.subscribers {
      assert Window(q)[0].row == q.deliveryMap[q.head].value;
      assert q.deliveryMap[q.head].value[IndexOf(q.subscribers, id).value];
    }
  }

  /** Eviction of the oldest message as `getMsg` does it (publish.c:217-221):
      its row goes back to NULL, head advances and count drops by one. */
  function EvictHead<Id, M>(q: Queue<Id, M>): (r: Queue<Id, M>)
    requires Valid(q) && 0 < q.count
    ensures Valid(r)
    ensures r.count == q.count - 1
    ensures r.subscribers == q.subscribers && r.size == q.size && r.tail == q.tail
    ensures forall k :: 0 <= k < r.size && r.deliveryMap[k].Some? ==> r.deliveryMap[k] == q.deliveryMap[k]
  {
    var r := q.(
      deliveryMap := q.deliveryMap[q.head := None],
      head := Next(q.head, q.size),
      count := q.count - 1);
    assert forall k :: 0 <= k < q.size ==> (Live(r, k) <==> Live(q, k) && k != q.head);
    r
  }

  /** Eviction removes exactly the oldest pending message. */
  lemma {:induction false} EvictHeadWindow<Id, M>(q: Queue<Id, M>)
    requires Valid(q) && 0 < q.count
    ensures Window(EvictHead(q)) == Window(q)[1..]
  {
    var r := EvictHead(q);
    SlotOffsetInverse(q.head, q.size);
    forall i | 0 <= i < r.count
      ensures Window(r)[i] == Window(q)[i + 1]
    {
      assert Slot(r.head, i, r.size) == Slot(q.head, i + 1, q.size);
    }
  }

  /** Evicts oldest messages for as long as their first `N` flags are all
      set, `N` being the number of subscribers. */
  function DrainDelivered<Id, M>(q: Queue<Id, M>): (r: Queue<Id, M>)
    requires Valid(q)
    ensures Valid(r) && !Stalled(r)
    ensures r.subscribers == q.subscribers && r.size == q.size && r.count <= q.count
    ensures Exact(q) ==> Exact(r)
    decreases q.count
  {
    if Stalled(q) then DrainDelivered(EvictHead(q)) else q
  }

  /** What draining does to the pending messages: it drops a prefix of
      them, every dropped message has all of its first `N` flags set, and
      the rest stay as they were. */
  lemma {:induction false} DrainDeliveredWindow<Id, M>(q: Queue<Id, M>)
    requires Valid(q)
    ensures var r := DrainDelivered(q);
            var d := q.count - r.count;
            && Window(r) == Window(q)[d..]
            && forall i :: 0 <= i < d ==> AllDelivered(Window(q)[i].row, |q.subscribers|)
    decreases q.count
  {
    if Stalled(q) {
      var e := EvictHead(q);
      var r := DrainDelivered(e);
      assert DrainDelivered(q) == r;
      EvictHeadWindow(q);
      DrainDeliveredWindow(e);
      var w, we := Window(q), Window(e);
      var d := q.count - r.count;
      assert we == w[1..];
      assert Window(r) == we[d - 1..];
      assert w[1..][d - 1..] == w[d..];
      forall i | 0 <= i < d
        ensures AllDelivered(w[i].row, |q.subscribers|)
      {
        if 0 < i {
          assert w[i] == we[i - 1];
        }
      }
    }
  }

  /** `unsubscribe` corrected twice over: the leaving subscriber's flag goes
      away with its node, as in `FixedUnsubscribe`, and then every oldest
      message that all remaining subscribers have taken is evicted. */
  function DrainingUnsubscribe<Id(==), M>(q: Queue<Id, M>, id: Id): (r: Queue<Id, M>)
    requires Exact(q)
    ensures Exact(r) && !Stalled(r)
    ensures id !in r.subscribers
    ensures id in q.subscribers ==> r.subscribers == RemoveAt(q.subscribers, IndexOf(q.subscribers, id).value)
    ensures id !in q.subscribers ==> r.subscribers == q.subscribers
    ensures r.size == q.size && r.count <= q.count
    ensures var f := FixedUnsubscribe(q, id);
            var d := f.count - r.count;
            && Window(r) == Window(f)[d..]
            && forall i :: 0 <= i < d ==> AllDelivered(Window(f)[i].row, |f.subscribers|)
  {
    var f := FixedUnsubscribe(q, id);
    DrainDeliveredWindow(f);
    DrainDelivered(f)
  }

  /** Every subscriber that stays reads, in each message the corrected
      `unsubscribe` keeps, the flag it read in that message before: only
      the leaving subscriber's flag goes, and only fully taken messages at
      the front are evicted. */
  lemma {:induction false} DrainingUnsubscribeKeepsFlags<Id, M>(q: Queue<Id, M>, id: Id, x: Id, i: nat)
    requires Exact(q)
    requires id in q.subscribers && x in q.subscribers && x != id
    requires i < DrainingUnsubscribe(q, id).count
    ensures var r := DrainingUnsubscribe(q, id);
            var d := q.count - r.count;
            && x in r.subscribers
            && Window(r)[i].msg == Window(q)[d + i].msg
            && FlagOf(r.subscribers, Window(r)[i].row, x) == FlagOf(q.subscribers, Window(q)[d + i].row, x)
  {
    var f := FixedUnsubscribe(q, id);
    var r := DrainingUnsubscribe(q, id);
    var d := q.count - r.count;
    SlotOffsetInverse(q.head, q.size);
    var k := Slot(q.head, d + i, q.size);
    assert Live(q, k);
    FixedUnsubscribeKeepsFlags(q, id, x, k);
    assert Window(r)[i] == Window(f)[d + i];
  }

  /** As written: after `subscribe(a)`, `subscribe(c)`, `addMsg(m)` and
      `getMsg(a)`, `unsubscribe(c)` leaves `m` at the head with every flag
      set. `getMsg(a)` returns NULL from then on, so `a` receives nothing
      queued after `m` either, and once `addMsg(m2)` fills the buffer the
      next producer waits. `FixedUnsubscribe` alone stalls the same way;
      `DrainingUnsubscribe` evicts `m`. */
  lemma {:induction false} UnsubscribeLeavesDeliveredHead<Id, M>(a: Id, c: Id, m: M, m2: M, m3: M)
    requires a != c
    ensures var q0 := OnePending([c, a], m, [false, false]);
            && var q := OnePending([c, a], m, [false, true]);
            && Run(CreateQueue<Id, M>(2).value,
                 [SubscribeCall(a), SubscribeCall(c), AddMsgCall(m)]) == Some(q0)
            && Valid(q0) && GetMsg(q0, a) == Received(q, Some(m))
            && Exact(q)
            && var r := Unsubscribe(q, c);
            && r == OnePending([a], m, [true, true])
            && Stalled(r)
            && GetMsg(r, a) == Received(r, None)
            && var r2 := AddMsg(r, m2);
            && Stalled(r2)
            && GetMsg(r2, a) == Received(r2, None)
            && Blocks(r2, AddMsgCall(m3))
            && var f := FixedUnsubscribe(q, c);
            && f == OnePending([a], m, [true])
            && Stalled(f)
            && DrainingUnsubscribe(q, c).count == 0
  {
    OnePendingForTwo(a, c, m);
    TakenByOne(a, c, m);
    var q := OnePending([c, a], m, [false, true]);
    IndexOfUnique(q.subscribers, c, 0);
    assert RemoveAt([c, a], 0) == [a];
    var r := Unsubscribe(q, c);
    assert [false, true][0 := true] == [true, true];
    assert r.deliveryMap == [Some([true, true]), None];
    assert r == OnePending([a], m, [true, true]);
    assert Window(r)[0].row == [true, true];
    StalledGetMsgIsFixedPoint(r, a);
    var r2 := AddMsg(r, m2);
    assert Window(r2)[0] == Window(r)[0] by {
      assert Slot(r2.head, 0, r2.size) == r2.head;
    }
    StalledGetMsgIsFixedPoint(r2, a);
    var f := FixedUnsubscribe(q, c);
    assert RemoveAt([false, true], 0) == [true];
    assert f.deliveryMap == [Some([true]), None];
    assert f == OnePending([a], m, [true]);
    assert Window(f)[0].row == [true];
    var e := EvictHead(f);
    assert e.count == 0;
  }
}
