// The key queue as a value: what EnqueueKey, CancelWaitKey, FlushKeys and
// the dequeue step of WaitKey do to the sequence of queued keys, and the
// dialog-redirect rule that keeps keys out of the queue while a dialog is up.
module KeyQueue {
  import opened Keys

  /** Value CancelWaitKey queues to wake the waiting reader. */
  const CANCEL_SENTINEL := -2
  /** Value the dequeue step returns when the queue is empty. */
  const NO_KEY := -1

  /** What the dialog hooks report at the moment a key is offered. */
  datatype DialogHost = DialogHost(showing: bool, dismissable: bool)

  /** Appends a key unless the queue already holds cap keys. */
  function Push(q: seq<int>, cap: int, key: int): (r: seq<int>)
    ensures |q| < cap ==> r == q + [key]
    ensures |q| >= cap ==> r == q
  {
    if |q| < cap then q + [key] else q
  }

  /** Push, one key after another. */
  function PushAll(q: seq<int>, cap: int, keys: seq<int>): (r: seq<int>)
    decreases |keys|
  {
    if |keys| == 0 then q else PushAll(Push(q, cap, keys[0]), cap, keys[1..])
  }

  function Min(a: int, b: int): (m: int)
  {
    if a < b then a else b
  }

  /** Pushing keys onto a queue with room for cap keys keeps the queue and
      as many of the new keys, in order, as fit: with C free places, C + k
      pushes keep the first C keys and drop the rest. */
  lemma {:induction false} PushAllKeepsFirst(q: seq<int>, cap: int, keys: seq<int>)
    requires |q| <= cap
    ensures PushAll(q, cap, keys) == (q + keys)[..Min(cap, |q| + |keys|)]
    decreases |keys|
  {
    if |keys| > 0 {
      var q1 := Push(q, cap, keys[0]);
      PushAllKeepsFirst(q1, cap, keys[1..]);
      if |q| < cap {
        assert q1 + keys[1..] == q + keys;
      } else {
        assert q1 == q;
        PushAllAtCapacity(q, cap, keys[1..]);
        assert (q + keys)[..cap] == q;
      }
    } else {
      assert q + keys == q;
    }
  }

  lemma {:induction false} PushAllAtCapacity(q: seq<int>, cap: int, keys: seq<int>)
    requires |q| >= cap
    ensures PushAll(q, cap, keys) == q
    decreases |keys|
  {
    if |keys| > 0 {
      PushAllAtCapacity(q, cap, keys[1..]);
    }
  }

  /** The queue and the dialog calls after EnqueueKey. */
  datatype EnqueueResult = EnqueueResult(queue: seq<int>, calls: seq<Effect>)

  /** EnqueueKey: while a dialog is showing the key goes to the dialog
      instead of the queue. */
  function Offer(q: seq<int>, cap: int, dialog: DialogHost, key: int): (r: EnqueueResult)
    ensures dialog.showing ==> r.queue == q
    ensures dialog.showing ==> r.calls == (if dialog.dismissable then [DialogDismiss] else [])
    ensures !dialog.showing ==> r.queue == Push(q, cap, key) && r.calls == []
    ensures |r.queue| <= |q| + 1 && r.queue[..|q|] == q
  {
    if dialog.showing then
      EnqueueResult(q, if dialog.dismissable then [DialogDismiss] else [])
    else
      EnqueueResult(Push(q, cap, key), [])
  }

  /** The key the dequeue step returns and the queue it leaves. */
  datatype Dequeued = Dequeued(key: int, rest: seq<int>)

  function Dequeue(q: seq<int>): (r: Dequeued)
    ensures |q| == 0 ==> r == Dequeued(NO_KEY, q)
    ensures |q| > 0 ==> [r.key] + r.rest == q
  {
    if |q| == 0 then Dequeued(NO_KEY, q) else Dequeued(q[0], q[1..])
  }

  /** The keys n dequeue steps return, in order. */
  function Drain(q: seq<int>, n: nat): (r: seq<int>)
    ensures |r| == n
    decreases n
  {
    if n == 0 then [] else [Dequeue(q).key] + Drain(Dequeue(q).rest, n - 1)
  }

  /** The queue is first-in first-out: n dequeues return the queued keys in
      the order they were queued, then NO_KEY for every step past the end. */
  lemma {:induction false} DrainIsFifo(q: seq<int>, n: nat)
    ensures Drain(q, n) == q[..Min(n, |q|)] + seq(n - Min(n, |q|), _ => NO_KEY)
    decreases n
  {
    if n > 0 {
      DrainIsFifo(Dequeue(q).rest, n - 1);
      if |q| == 0 {
        assert seq(n, _ => NO_KEY) == [NO_KEY] + seq(n - 1, _ => NO_KEY);
      } else {
        assert q[..Min(n, |q|)] == [q[0]] + q[1..][..Min(n - 1, |q| - 1)];
      }
    }
  }

  /** Keys offered with no dialog up, from an empty queue, come back out
      in the order they were offered, up to the capacity. */
  lemma QueueRoundTrip(cap: int, keys: seq<int>)
    requires cap >= 0
    ensures Drain(PushAll([], cap, keys), |keys|)
      == keys[..Min(cap, |keys|)] + seq(|keys| - Min(cap, |keys|), _ => NO_KEY)
  {
    PushAllKeepsFirst([], cap, keys);
    assert [] + keys == keys;
    DrainIsFifo(PushAll([], cap, keys), |keys|);
  }
}
