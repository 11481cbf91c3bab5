/**
 * ampd's outgoing message queue (ampd/src/queue/msg_queue.rs): a buffer of
 * messages waiting to be broadcast together, with the running total of the
 * gas they will cost, kept as a `u64` that is never allowed to wrap.
 *
 * The Rust type is a struct mutated through `&mut self`; here a queue is a
 * value and every operation returns the queue it leaves behind.
 */
module MsgQueue {
  import opened Results
  import opened RustTypes

  /** `cosmrs::Gas`, a `u64`. */
  type Gas = U64

  /** The queue's error enum. */
  datatype Error = GasCostOverflow

  /** `u64::checked_add`: the sum when it fits in 64 bits, nothing otherwise. */
  function CheckedAdd(a: Gas, b: Gas): (r: Option<Gas>)
    ensures r.Some? <==> a + b <= U64_MAX
    ensures r.Some? ==> r.value == a + b
  {
    if a + b <= U64_MAX then Some(a + b) else None
  }

  /** The queued messages, oldest first, and their accumulated gas cost. */
  datatype Queue<M> = Queue(msgs: seq<M>, gasCost: Gas)

  /** `MsgQueue::default()`. */
  function Empty<M>(): Queue<M> {
    Queue([], 0)
  }

  /**
   * `MsgQueue::push`. The message is appended before the gas is added, so a
   * push that overflows still leaves the message queued; only the gas total
   * keeps its old value.
   */
  function Push<M>(q: Queue<M>, msg: M, cost: Gas): (r: (Queue<M>, Result<(), Error>))
    ensures r.0.msgs == q.msgs + [msg]
    ensures r.1.Ok? <==> q.gasCost + cost <= U64_MAX
    ensures r.1.Ok? ==> r.0.gasCost == q.gasCost + cost
    ensures r.1.Err? ==> r.1.error == GasCostOverflow && r.0.gasCost == q.gasCost
  {
    var appended := q.msgs + [msg];
    match CheckedAdd(q.gasCost, cost)
    case Some(total) => (Queue(appended, total), Ok(()))
    case None => (Queue(appended, q.gasCost), Err(GasCostOverflow))
  }

  /** `MsgQueue::pop_all`: hands over every queued message and leaves the queue as new. */
  function PopAll<M>(q: Queue<M>): (r: (Queue<M>, seq<M>))
    ensures r.1 == q.msgs
    ensures r.0 == Empty()
  {
    (Queue([], 0), q.msgs)
  }

  /** `MsgQueue::gas_cost`. */
  function GasCost<M>(q: Queue<M>): Gas {
    q.gasCost
  }

  /** `MsgQueue::len`. */
  function Len<M>(q: Queue<M>): nat {
    |q.msgs|
  }

  // ---------------------------------------------------------------------------
  // Runs of pushes.
  // ---------------------------------------------------------------------------

  /** The messages of a list of (message, cost) pairs, in order. */
  function MessagesOf<M>(items: seq<(M, Gas)>): (r: seq<M>)
    ensures |r| == |items|
    ensures forall i :: 0 <= i < |items| ==> r[i] == items[i].0
  {
    if |items| == 0 then [] else [items[0].0] + MessagesOf(items[1..])
  }

  /** The total of the costs in a list of (message, cost) pairs. */
  function TotalCost<M>(items: seq<(M, Gas)>): nat {
    if |items| == 0 then 0 else items[0].1 + TotalCost(items[1..])
  }

  /**
   * Pushes every pair in order, as a caller that keeps going after an error
   * would; the flag says whether every push succeeded.
   */
  function PushEach<M>(q: Queue<M>, items: seq<(M, Gas)>): (r: (Queue<M>, bool))
    decreases |items|
  {
    if |items| == 0 then (q, true)
    else
      var (next, outcome) := Push(q, items[0].0, items[0].1);
      var (last, ok) := PushEach(next, items[1..]);
      (last, outcome.Ok? && ok)
  }

  /** Every pushed message is queued, in order, whether or not its push overflowed. */
  lemma {:induction false} PushEachAppends<M>(q: Queue<M>, items: seq<(M, Gas)>)
    ensures PushEach(q, items).0.msgs == q.msgs + MessagesOf(items)
    decreases |items|
  {
    if |items| > 0 {
      var next := Push(q, items[0].0, items[0].1).0;
      assert PushEach(q, items).0 == PushEach(next, items[1..]).0;
      PushEachAppends(next, items[1..]);
      assert next.msgs == q.msgs + [items[0].0];
      assert MessagesOf(items) == [items[0].0] + MessagesOf(items[1..]);
      assert q.msgs + MessagesOf(items) == next.msgs + MessagesOf(items[1..]);
    }
  }

  /**
   * A run of pushes succeeds throughout exactly when the starting gas plus all
   * the costs fits in a `u64`, and then the gas total is that sum.
   */
  lemma {:induction false} PushEachGas<M>(q: Queue<M>, items: seq<(M, Gas)>)
    ensures PushEach(q, items).1 <==> q.gasCost + TotalCost(items) <= U64_MAX
    ensures PushEach(q, items).1 ==> PushEach(q, items).0.gasCost == q.gasCost + TotalCost(items)
    decreases |items|
  {
    if |items| > 0 {
      var (next, outcome) := Push(q, items[0].0, items[0].1);
      PushEachGas(next, items[1..]);
    }
  }

  /** After any run of pushes on a fresh queue, `len` counts the pushes and `pop_all` returns their messages. */
  lemma {:induction false} PushEachThenPopAll<M>(items: seq<(M, Gas)>)
    ensures Len(PushEach(Empty(), items).0) == |items|
    ensures PopAll(PushEach(Empty(), items).0).1 == MessagesOf(items)
    ensures PushEach(Empty(), items).1 ==> GasCost(PushEach(Empty(), items).0) == TotalCost(items)
  {
    PushEachAppends(Empty(), items);
    PushEachGas(Empty(), items);
  }
}
