/** What the operations of publish.c do to the abstract view of the queue:
    the oldest-first sequence of pending messages with their delivery rows. */
module PublishProperties {
  import opened Wrappers
  import opened Ring
  import opened Registry
  import opened Publish

  /** Exactly the slots `(head + i) % size` with `i < count` carry a
      delivery row (publish.h:19, publish.c:29-31, publish.c:150,
      publish.c:218-219). */
  lemma LiveSlotsAreWindow<Id, M>(q: Queue<Id, M>)
    requires Valid(q)
    ensures forall k :: 0 <= k < q.size ==>
              (q.deliveryMap[k].Some? <==> exists i :: 0 <= i < q.count && Slot(q.head, i, q.size) == k)
  {
    SlotOffsetInverse(q.head, q.size);
    forall k | 0 <= k < q.size && q.deliveryMap[k].Some?
      ensures exists i :: 0 <= i < q.count && Slot(q.head, i, q.size) == k
    {
      assert Slot(q.head, Offset(q.head, k, q.size), q.size) == k;
    }
  }

  /** Every positional flag access the operations make is in bounds: each
      subscriber's list position indexes every live row (publish.c:93,
      publish.c:117, publish.c:195, publish.c:208, publish.c:256). */
  lemma FlagAccessInBounds<Id, M>(q: Queue<Id, M>, id: Id, k: nat)
    requires Valid(q)
    requires id in q.subscribers
    requires k < q.size && Live(q, k)
    ensures q.deliveryMap[k].Some?
    ensures IndexOf(q.subscribers, id).value < |q.deliveryMap[k].value|
  {
  }

  /** Subscribing a new thread keeps every pending message in place and
      rewrites its row to the first `N - 1` flags followed by one clear flag,
      `N` being the new number of subscribers (publish.c:84-95). */
  lemma {:induction false} SubscribeWindow<Id, M>(q: Queue<Id, M>, id: Id)
    requires Valid(q)
    requires id !in q.subscribers
    ensures var n := |q.subscribers|; var w := Window(q);
            Window(Subscribe(q, id)) ==
              seq(|w|, i requires 0 <= i < |w| => Entry(w[i].msg, w[i].row[..n] + [false]))
  {
    var r := Subscribe(q, id);
    var n := |q.subscribers|;
    var w := Window(q);
    SlotOffsetInverse(q.head, q.size);
    forall i | 0 <= i < q.count
      ensures Window(r)[i] == Entry(w[i].msg, w[i].row[..n] + [false])
    {
      assert Live(q, Slot(q.head, i, q.size));
    }
  }

  /** Unsubscribing the thread at list position `i` keeps every pending
      message in place and sets flag `i` of its row; nothing is evicted
      (publish.c:104-124). */
  lemma {:induction false} UnsubscribeWindow<Id, M>(q: Queue<Id, M>, id: Id)
    requires Valid(q)
    requires id in q.subscribers
    ensures var i := IndexOf(q.subscribers, id).value; var w := Window(q);
            Window(Unsubscribe(q, id)) ==
              seq(|w|, j requires 0 <= j < |w| => Entry(w[j].msg, w[j].row[i := true]))
  {
    var r := Unsubscribe(q, id);
    var i := IndexOf(q.subscribers, id).value;
    var w := Window(q);
    SlotOffsetInverse(q.head, q.size);
    forall j | 0 <= j < q.count
      ensures Window(r)[j] == Entry(w[j].msg, w[j].row[i := true])
    {
      assert Live(q, Slot(q.head, j, q.size));
    }
  }

  /** Storing a message appends it, with an all-clear row of one flag per
      subscriber, to the end of the pending sequence (publish.c:145-157). */
  lemma {:induction false} StoreMsgWindow<Id, M>(q: Queue<Id, M>, msg: M)
    requires Valid(q)
    requires q.count < q.size
    ensures Window(StoreMsg(q, msg)) == Window(q) + [Entry(msg, seq(|q.subscribers|, _ => false))]
  {
    var r := StoreMsg(q, msg);
    SlotOffsetInverse(q.head, q.size);
    forall i | 0 <= i < q.count
      ensures Window(r)[i] == Window(q)[i]
    {
      assert Slot(q.head, i, q.size) != q.tail;
    }
  }

  /** A delivering `getMsg` hands out the oldest pending message, so each
      subscriber receives messages in the order they were added
      (publish.c:192, publish.c:225-227). */
  lemma GetMsgReturnsOldest<Id, M>(q: Queue<Id, M>, id: Id)
    requires Valid(q)
    requires 0 < q.count
    ensures GetMsg(q, id).msg.Some? ==> GetMsg(q, id).msg == Some(Window(q)[0].msg)
  {
    assert Slot(q.head, 0, q.size) == q.head;
  }

  /** When `getMsg` evicts, the oldest message leaves the pending sequence
      and the rest stay as they were (publish.c:217-223). */
  lemma {:induction false} GetMsgEvictWindow<Id, M>(q: Queue<Id, M>, id: Id)
    requires Valid(q)
    requires 0 < q.count
    requires GetMsg(q, id).queue.count < q.count
    ensures Window(GetMsg(q, id).queue) == Window(q)[1..]
  {
    var r := GetMsg(q, id).queue;
    SlotOffsetInverse(q.head, q.size);
    forall i | 0 <= i < r.count
      ensures Window(r)[i] == Window(q)[i + 1]
    {
      assert Slot(r.head, i, r.size) == Slot(q.head, i + 1, q.size);
    }
  }

  /** When `getMsg` delivers without evicting, only the caller's flag in the
      oldest row changes (publish.c:201). */
  lemma {:induction false} GetMsgMarkWindow<Id, M>(q: Queue<Id, M>, id: Id)
    requires Valid(q)
    requires 0 < q.count
    requires id in q.subscribers
    requires GetMsg(q, id).queue.count == q.count
    ensures var pos := IndexOf(q.subscribers, id).value; var w := Window(q);
            Window(GetMsg(q, id).queue) == w[0 := Entry(w[0].msg, w[0].row[pos := true])]
  {
    var r := GetMsg(q, id).queue;
    var pos := IndexOf(q.subscribers, id).value;
    var w := Window(q);
    SlotOffsetInverse(q.head, q.size);
    assert Slot(q.head, 0, q.size) == q.head;
    forall i | 0 <= i < q.count
      ensures Window(r)[i] == w[0 := Entry(w[0].msg, w[0].row[pos := true])][i]
    {
      if i > 0 {
        assert Slot(q.head, i, q.size) != q.head;
      }
    }
  }

  /** Subscribing twice is the same as subscribing once (publish.c:74-81). */
  lemma SubscribeIdempotent<Id, M>(q: Queue<Id, M>, id: Id)
    requires Valid(q)
    ensures Subscribe(Subscribe(q, id), id) == Subscribe(q, id)
  {
  }

  /** On an empty buffer, unsubscribing a thread that was just subscribed
      restores the queue exactly (publish.c:84-87, publish.c:108-112). With
      messages pending this fails; see module IdentityFlags. */
  lemma {:induction false} SubscribeUnsubscribeEmpty<Id, M>(q: Queue<Id, M>, id: Id)
    requires Valid(q)
    requires id !in q.subscribers
    requires q.count == 0
    ensures Unsubscribe(Subscribe(q, id), id) == q
  {
    var r := Subscribe(q, id);
    assert IndexOf(r.subscribers, id) == Some(0);
    assert RemoveAt(r.subscribers, 0) == q.subscribers;
    var u := Unsubscribe(r, id);
    assert forall k :: 0 <= k < q.size ==> u.deliveryMap[k] == q.deliveryMap[k];
  }

  /** The positions of the pending messages that the subscriber at list
      position `pos` has not been handed yet. */
  ghost function PendingFor<M>(w: seq<Entry<M>>, pos: nat): set<nat> {
    set i: nat | i < |w| && pos < |w[i].row| && !w[i].row[pos]
  }

  /** The count `getAvailable` reports is the number of pending messages
      whose flag for the caller is clear (publish.c:253-259). */
  lemma {:induction false} UndeliveredIsPendingCount<M>(w: seq<Entry<M>>, pos: nat)
    ensures Undelivered(w, pos) == |PendingFor(w, pos)|
    decreases |w|
  {
    if w != [] {
      var n := |w| - 1;
      var w' := w[..n];
      UndeliveredIsPendingCount(w', pos);
      if pos < |w[n].row| && !w[n].row[pos] {
        assert PendingFor(w, pos) == PendingFor(w', pos) + {n};
      } else {
        assert PendingFor(w, pos) == PendingFor(w', pos);
      }
    }
  }
}
