/** The lock-free queue of src/model/spsc_queue.c under every interleaving of its two threads,
    with the network thread's drop counter of src/core/mqtt_client.c:110-137 on top.

    One step is one shared access.  Loading the other side's index may return any value it has
    held since this side last looked; copying an element into its slot may leave garbage there
    for a while. */
module SpscQueue {
  import opened Modular
  import opened Text

  const UINT32: nat := 0x1_0000_0000

  /** Program points of on_message and spsc_queue_push. */
  datatype Producer<T> =
    | Waiting
    | Pushing(elem: T)
    | Writing(elem: T, tail: nat, next: nat)
    | Written(elem: T, tail: nat, next: nat)
    | Refused

  /** Program points of spsc_queue_pop. */
  datatype Consumer<T> =
    | Resting
    | Popping
    | Reading(head: nat)
    | ReadOut(head: nat, elem: T)

  datatype Step<T> =
    | Receive(elem: T)      // on_message has its copy and calls push
    | OutOfMemory           // on_message could not copy the payload
    | LoadHead(seen: nat)   // the producer sees `seen` pops
    | WriteGarbage(junk: T) // somewhere inside memcpy
    | WriteSlot             // memcpy is done
    | PublishTail
    | NoteDropped
    | BeginPop
    | LoadTail(seen: nat)   // the consumer sees `seen` pushes
    | ReadSlot
    | PublishHead

  /** `size` is capacity + 1.  The last five fields are history. */
  datatype State<T> = State(
    size: nat, buffer: seq<T>, head: nat, tail: nat, producer: Producer<T>, consumer: Consumer<T>,
    pushed: seq<T>, popped: seq<T>, headSeen: nat, tailSeen: nat, received: nat, dropped: nat)

  ghost predicate Init<T>(s: State<T>, capacity: nat) {
    && s.size == capacity + 1 < UINT32 && |s.buffer| == s.size
    && s.head == s.tail == 0 && s.producer == Waiting && s.consumer == Resting
    && s.pushed == s.popped == [] && s.headSeen == s.tailSeen == s.received == s.dropped == 0
  }

  /** The C expression for the following index, 32 bits wide. */
  function Following(i: nat, size: nat): nat
    requires size > 0
  {
    (i + 1) % UINT32 % size
  }

  predicate Enabled<T>(s: State<T>, a: Step<T>) {
    s.size > 0 &&
    match a
    case Receive(_) => s.producer.Waiting?
    case OutOfMemory => s.producer.Waiting?
    case LoadHead(seen) => s.producer.Pushing? && s.headSeen <= seen <= |s.popped|
    case WriteGarbage(_) => s.producer.Writing? && s.producer.tail < |s.buffer|
    case WriteSlot => s.producer.Writing? && s.producer.tail < |s.buffer|
    case PublishTail => s.producer.Written? && s.producer.tail < |s.buffer|
    case NoteDropped => s.producer.Refused?
    case BeginPop => s.consumer.Resting?
    case LoadTail(seen) => s.consumer.Popping? && s.tailSeen <= seen <= |s.pushed|
    case ReadSlot => s.consumer.Reading? && s.consumer.head < |s.buffer|
    case PublishHead => s.consumer.ReadOut?
  }

  function Next<T>(s: State<T>, a: Step<T>): State<T>
    requires Enabled(s, a)
  {
    match a
    case Receive(elem) => s.(producer := Pushing(elem), received := s.received + 1)
    case OutOfMemory => s.(producer := Refused, received := s.received + 1)
    case LoadHead(seen) =>
      var next := Following(s.tail, s.size);
      var s' := s.(headSeen := seen);
      if next == seen % s.size then s'.(producer := Refused)
      else s'.(producer := Writing(s.producer.elem, s.tail, next))
    case WriteGarbage(junk) => s.(buffer := s.buffer[s.producer.tail := junk])
    case WriteSlot =>
      s.(buffer := s.buffer[s.producer.tail := s.producer.elem], producer := Written(s.producer.elem, s.producer.tail, s.producer.next))
    case PublishTail =>
      s.(tail := s.producer.next, producer := Waiting, pushed := s.pushed + [s.producer.elem])
    case NoteDropped => s.(producer := Waiting, dropped := s.dropped + 1)
    case BeginPop => s.(consumer := Popping)
    case LoadTail(seen) =>
      var s' := s.(tailSeen := seen);
      if s.head == seen % s.size then s'.(consumer := Resting) else s'.(consumer := Reading(s.head))
    case ReadSlot => s.(consumer := ReadOut(s.consumer.head, s.buffer[s.consumer.head]))
    case PublishHead =>
      s.(head := Following(s.consumer.head, s.size), consumer := Resting, popped := s.popped + [s.consumer.elem])
  }

  // ----- the invariant

  ghost predicate Inv<T>(s: State<T>) {
    && 0 < s.size < UINT32 && |s.buffer| == s.size
    && s.head == |s.popped| % s.size && s.tail == |s.pushed| % s.size
    && s.headSeen <= |s.popped| <= s.tailSeen <= |s.pushed| < s.headSeen + s.size
    && s.popped == s.pushed[..|s.popped|]
    && (forall k :: |s.popped| <= k < |s.pushed| ==> s.buffer[k % s.size] == s.pushed[k])
    && (s.producer.Writing? || s.producer.Written? ==>
         && s.producer.tail == s.tail && s.producer.next == Following(s.tail, s.size)
         && |s.pushed| + 1 < s.headSeen + s.size)
    && (s.producer.Written? ==> s.buffer[s.producer.tail] == s.producer.elem)
    && (s.consumer.Reading? || s.consumer.ReadOut? ==> s.consumer.head == s.head && |s.popped| < s.tailSeen)
    && (s.consumer.ReadOut? ==> s.consumer.elem == s.pushed[|s.popped|])
    && s.received == |s.pushed| + s.dropped + if s.producer.Waiting? then 0 else 1
  }

  lemma FollowingIndex(a: nat, n: nat)
    requires 0 < n < UINT32
    ensures Following(a % n, n) == (a + 1) % n
  {
    Small(a % n + 1, UINT32);
    AddMod(a, 1, n);
  }

  /** The slot being written holds nothing that is still to be popped. */
  lemma WrittenSlotIsFree<T>(s: State<T>, k: nat)
    requires Inv(s) && (s.producer.Writing? || s.producer.Written?) && |s.popped| <= k < |s.pushed|
    ensures k % s.size != s.producer.tail
  {
    if k % s.size == |s.pushed| % s.size { SameIndex(k, |s.pushed|, s.size); }
  }

  lemma {:induction false} StepKeepsInv<T>(s: State<T>, a: Step<T>)
    requires Inv(s) && Enabled(s, a)
    ensures Inv(Next(s, a))
  {
    hide Following;
    match a
    case LoadHead(seen) => LoadHeadKeepsInv(s, seen);
    case LoadTail(seen) => LoadTailKeepsInv(s, seen);
    case WriteGarbage(junk) => WriteKeepsInv(s, junk);
    case WriteSlot => WriteKeepsInv(s, s.producer.elem);
    case PublishTail => PublishTailKeepsInv(s);
    case PublishHead => FollowingIndex(|s.popped|, s.size);
    case _ =>
  }

  lemma LoadHeadKeepsInv<T>(s: State<T>, seen: nat)
    requires Inv(s) && Enabled(s, LoadHead(seen))
    ensures Inv(Next(s, LoadHead(seen)))
  {
    FollowingIndex(|s.pushed|, s.size);
    if (|s.pushed| + 1) % s.size != seen % s.size && |s.pushed| + 1 == seen + s.size {
      Wrap(seen, s.size);
    }
  }

  lemma LoadTailKeepsInv<T>(s: State<T>, seen: nat)
    requires Inv(s) && Enabled(s, LoadTail(seen))
    ensures Inv(Next(s, LoadTail(seen)))
  {
  }

  lemma WriteKeepsInv<T>(s: State<T>, v: T)
    requires Inv(s) && s.producer.Writing?
    ensures Inv(s.(buffer := s.buffer[s.producer.tail := v]))
    ensures v == s.producer.elem ==>
      Inv(s.(buffer := s.buffer[s.producer.tail := v], producer := Written(v, s.producer.tail, s.producer.next)))
  {
    forall k | |s.popped| <= k < |s.pushed|
      ensures k % s.size != s.producer.tail
    {
      WrittenSlotIsFree(s, k);
    }
  }

  lemma PublishTailKeepsInv<T>(s: State<T>)
    requires Inv(s) && Enabled(s, PublishTail)
    ensures Inv(Next(s, PublishTail))
  {
    hide Following;
    FollowingIndex(|s.pushed|, s.size);
    var s' := Next(s, PublishTail);
    assert s'.pushed[..|s.popped|] == s.pushed[..|s.popped|];
  }

  // ----- every run

  predicate Legal<T>(s: State<T>, run: seq<Step<T>>)
    decreases |run|
  {
    run == [] || (Enabled(s, run[0]) && Legal(Next(s, run[0]), run[1..]))
  }

  function After<T>(s: State<T>, run: seq<Step<T>>): State<T>
    requires Legal(s, run)
    decreases |run|
  {
    if run == [] then s else After(Next(s, run[0]), run[1..])
  }

  lemma {:induction false} RunKeepsInv<T>(s: State<T>, run: seq<Step<T>>)
    requires Inv(s) && Legal(s, run)
    ensures Inv(After(s, run)) && After(s, run).size == s.size
    decreases |run|
  {
    hide Inv, Enabled, Next;
    if run != [] {
      StepKeepsInv(s, run[0]);
      SizeKept(s, run[0]);
      RunKeepsInv(Next(s, run[0]), run[1..]);
    }
  }

  lemma SizeKept<T>(s: State<T>, a: Step<T>)
    requires Enabled(s, a)
    ensures Next(s, a).size == s.size
  {
  }

  // ----- what a run says by itself

  /** The messages that reached the network thread, in order; None where its copy failed. */
  function Arrivals<T>(run: seq<Step<T>>): seq<Option<T>> {
    if run == [] then []
    else
      Arrivals(run[..|run| - 1]) +
      match run[|run| - 1]
      case Receive(elem) => [Some(elem)]
      case OutOfMemory => [None]
      case _ => []
  }

  /** What became of them, in order: published, or dropped. */
  function Outcomes<T>(run: seq<Step<T>>): seq<bool> {
    if run == [] then []
    else
      Outcomes(run[..|run| - 1]) +
      match run[|run| - 1]
      case PublishTail => [true]
      case NoteDropped => [false]
      case _ => []
  }

  /** The arrivals whose outcome is to be published. */
  function Delivered<T>(arrivals: seq<Option<T>>, outcomes: seq<bool>): seq<T>
    requires |outcomes| <= |arrivals|
  {
    if outcomes == [] then []
    else
      var n := |outcomes| - 1;
      Delivered(arrivals, outcomes[..n]) + if outcomes[n] && arrivals[n].Some? then [arrivals[n].value] else []
  }

  function Drops(outcomes: seq<bool>): nat {
    if outcomes == [] then 0 else Drops(outcomes[..|outcomes| - 1]) + if outcomes[|outcomes| - 1] then 0 else 1
  }

  /** How many messages the consumer has taken. */
  function Pops<T>(run: seq<Step<T>>): nat {
    if run == [] then 0 else Pops(run[..|run| - 1]) + if run[|run| - 1].PublishHead? then 1 else 0
  }

  /** All arrivals, where every copy succeeded. */
  function Values<T>(arrivals: seq<Option<T>>): seq<T> {
    if arrivals == [] then []
    else
      var last := arrivals[|arrivals| - 1];
      Values(arrivals[..|arrivals| - 1]) + if last.Some? then [last.value] else []
  }

  /** The state's history is what the run says: each arrival has its outcome, but the one in hand. */
  ghost predicate Ledger<T>(s: State<T>, run: seq<Step<T>>) {
    var arrivals, outcomes := Arrivals(run), Outcomes(run);
    && |arrivals| == |outcomes| + (if s.producer.Waiting? then 0 else 1)
    && s.pushed == Delivered(arrivals, outcomes) && s.dropped == Drops(outcomes) && s.received == |arrivals|
    && |s.popped| == Pops(run)
    && (s.producer.Pushing? || s.producer.Writing? || s.producer.Written? ==> arrivals[|outcomes|] == Some(s.producer.elem))
    && forall i :: 0 <= i < |outcomes| && outcomes[i] ==> arrivals[i].Some?
  }

  lemma {:induction false} RunOneMore<T>(s: State<T>, run: seq<Step<T>>, a: Step<T>)
    requires Legal(s, run + [a])
    ensures Legal(s, run) && Enabled(After(s, run), a) && After(s, run + [a]) == Next(After(s, run), a)
    decreases |run|
  {
    hide Enabled, Next;
    assert (run + [a])[0] == if run == [] then a else run[0];
    if run == [] {
      assert (run + [a])[1..] == [];
    } else {
      assert (run + [a])[1..] == run[1..] + [a];
      RunOneMore(Next(s, run[0]), run[1..], a);
    }
  }

  lemma {:induction false} DeliveredLater<T>(arrivals: seq<Option<T>>, more: seq<Option<T>>, outcomes: seq<bool>)
    requires |outcomes| <= |arrivals|
    ensures Delivered(arrivals + more, outcomes) == Delivered(arrivals, outcomes)
  {
    if outcomes != [] { DeliveredLater(arrivals, more, outcomes[..|outcomes| - 1]); }
  }

  lemma RunStep<T>(run: seq<Step<T>>, a: Step<T>)
    ensures Arrivals(run + [a]) == Arrivals(run) +
      match a case Receive(elem) => [Some(elem)] case OutOfMemory => [None] case _ => []
    ensures Outcomes(run + [a]) == Outcomes(run) + match a case PublishTail => [true] case NoteDropped => [false] case _ => []
    ensures Pops(run + [a]) == Pops(run) + if a.PublishHead? then 1 else 0
  {
    assert (run + [a])[..|run|] == run;
  }

  lemma DeliveredNext<T>(arrivals: seq<Option<T>>, outcomes: seq<bool>, published: bool)
    requires |outcomes| < |arrivals|
    ensures Delivered(arrivals, outcomes + [published]) == Delivered(arrivals, outcomes)
      + if published && arrivals[|outcomes|].Some? then [arrivals[|outcomes|].value] else []
    ensures Drops(outcomes + [published]) == Drops(outcomes) + if published then 0 else 1
  {
    assert (outcomes + [published])[..|outcomes|] == outcomes;
  }

  lemma ArrivalStep<T>(s: State<T>, run: seq<Step<T>>, a: Step<T>)
    requires Ledger(s, run) && Enabled(s, a) && (a.Receive? || a.OutOfMemory?)
    ensures Ledger(Next(s, a), run + [a])
  {
    hide Delivered, Drops, Arrivals, Pops, Outcomes;
    RunStep(run, a);
    DeliveredLater(Arrivals(run), [if a.Receive? then Some(a.elem) else None], Outcomes(run));
    assert Outcomes(run) + [] == Outcomes(run);
  }

  lemma OutcomeStep<T>(s: State<T>, run: seq<Step<T>>, a: Step<T>)
    requires Ledger(s, run) && Enabled(s, a) && (a.PublishTail? || a.NoteDropped?)
    ensures Ledger(Next(s, a), run + [a])
  {
    hide Delivered, Drops, Arrivals, Pops, Outcomes, Following;
    RunStep(run, a);
    DeliveredNext(Arrivals(run), Outcomes(run), a.PublishTail?);
    assert Arrivals(run) + [] == Arrivals(run);
    assert s.pushed + [] == s.pushed;
  }

  lemma LedgerStep<T>(s: State<T>, run: seq<Step<T>>, a: Step<T>)
    requires Ledger(s, run) && Enabled(s, a)
    ensures Ledger(Next(s, a), run + [a])
  {
    hide Delivered, Drops, Arrivals, Pops, Outcomes, Following;
    if a.Receive? || a.OutOfMemory? {
      ArrivalStep(s, run, a);
    } else if a.PublishTail? || a.NoteDropped? {
      OutcomeStep(s, run, a);
    } else {
      RunStep(run, a);
      assert Arrivals(run) + [] == Arrivals(run) && Outcomes(run) + [] == Outcomes(run);
    }
  }

  lemma {:induction false} RunKeepsLedger<T>(s: State<T>, capacity: nat, run: seq<Step<T>>)
    requires Init(s, capacity) && Legal(s, run)
    ensures Ledger(After(s, run), run)
  {
    hide Enabled, Next, Ledger;
    if run == [] {
      LedgerStart(s, capacity);
    } else {
      var init, a := run[..|run| - 1], run[|run| - 1];
      assert run == init + [a];
      RunOneMore(s, init, a);
      RunKeepsLedger(s, capacity, init);
      LedgerStep(After(s, init), init, a);
    }
  }

  lemma LedgerStart<T>(s: State<T>, capacity: nat)
    requires Init(s, capacity)
    ensures Ledger(s, [])
  {
  }

  lemma {:induction false} AllDelivered<T>(arrivals: seq<Option<T>>, outcomes: seq<bool>)
    requires |outcomes| == |arrivals| && Drops(outcomes) == 0
    ensures Delivered(arrivals, outcomes) == Values(arrivals)
  {
    if outcomes != [] {
      var n := |outcomes| - 1;
      AllDelivered(arrivals[..n], outcomes[..n]);
      assert arrivals == arrivals[..n] + [arrivals[n]];
      DeliveredLater(arrivals[..n], [arrivals[n]], outcomes[..n]);
    }
  }

  /** In every run, what is pushed is the messages received, in order, without the dropped ones
      and the one in hand; and what is popped is a beginning of that.  With nothing dropped and
      nothing in hand, everything received is pushed. */
  lemma DeliveredInOrder<T>(s: State<T>, capacity: nat, run: seq<Step<T>>)
    requires Init(s, capacity) && Legal(s, run)
    ensures var t, arrivals, outcomes := After(s, run), Arrivals(run), Outcomes(run);
      && |arrivals| == |outcomes| + (if t.producer.Waiting? then 0 else 1)
      && t.popped <= t.pushed == Delivered(arrivals, outcomes)
      && t.received == |arrivals| && t.dropped == Drops(outcomes) && |t.popped| == Pops(run)
      && (t.dropped == 0 && t.producer.Waiting? ==> t.popped <= t.pushed == Values(arrivals))
  {
    hide Legal, After;
    RunKeepsLedger(s, capacity, run);
    RunKeepsInv(s, run);
    if After(s, run).dropped == 0 && After(s, run).producer.Waiting? { AllDelivered(Arrivals(run), Outcomes(run)); }
  }

  /** In every interleaving: elements come out in the order they went in, none lost, made up
      or repeated; no more than `capacity` are inside; and the slot one thread is touching is
      never the slot the other is touching. */
  lemma QueueIsSafe<T>(s: State<T>, capacity: nat, run: seq<Step<T>>)
    requires Init(s, capacity) && Legal(s, run)
    ensures var t := After(s, run);
      && t.popped <= t.pushed
      && |t.pushed| - |t.popped| <= capacity
      && (t.producer.Writing? || t.producer.Written? ==> |t.pushed| - |t.popped| < capacity)
      && ((t.producer.Writing? || t.producer.Written?) && t.consumer.Reading? ==> t.producer.tail != t.consumer.head)
  {
    hide Following;
    var t := After(s, run);
    RunKeepsInv(s, run);
    if (t.producer.Writing? || t.producer.Written?) && t.consumer.Reading? {
      WrittenSlotIsFree(t, |t.popped|);
    }
  }

  /** Every message received is consumed, still queued, dropped and counted, or in the hands of
      the network thread. */
  lemma NothingIsLost<T>(s: State<T>, capacity: nat, run: seq<Step<T>>)
    requires Init(s, capacity) && Legal(s, run)
    ensures var t := After(s, run);
      t.received == |t.popped| + (|t.pushed| - |t.popped|) + t.dropped + if t.producer.Waiting? then 0 else 1
  {
    RunKeepsInv(s, run);
  }

  /** In every run, a push is refused exactly when the pops it has seen leave no room. */
  lemma RefusalMeansFull<T>(s: State<T>, capacity: nat, run: seq<Step<T>>, seen: nat)
    requires Init(s, capacity) && Legal(s, run)
    ensures var t := After(s, run);
      Enabled(t, LoadHead(seen)) ==> (Next(t, LoadHead(seen)).producer.Refused? <==> |t.pushed| - seen == capacity)
  {
    hide Legal, After;
    RunKeepsInv(s, run);
    var t := After(s, run);
    if Enabled(t, LoadHead(seen)) {
      FollowingIndex(|t.pushed|, t.size);
      if |t.pushed| + 1 == seen + t.size {
        Wrap(seen, t.size);
      } else if (|t.pushed| + 1) % t.size == seen % t.size {
        SameIndex(seen, |t.pushed| + 1, t.size);
      }
    }
  }

  /** In every run, a pop finds nothing exactly when it has taken all the pushes it has seen. */
  lemma EmptyMeansEmpty<T>(s: State<T>, capacity: nat, run: seq<Step<T>>, seen: nat)
    requires Init(s, capacity) && Legal(s, run)
    ensures var t := After(s, run);
      Enabled(t, LoadTail(seen)) ==> (Next(t, LoadTail(seen)).consumer.Resting? <==> |t.popped| == seen)
  {
    hide Legal, After;
    RunKeepsInv(s, run);
    var t := After(s, run);
    if Enabled(t, LoadTail(seen)) && t.head == seen % t.size { SameIndex(|t.popped|, seen, t.size); }
  }

  /** spsc_queue_count on the index values of h pops and t pushes. */
  function Count(head: nat, tail: nat, size: nat): int {
    if tail >= head then tail - head else size - head + tail
  }

  /** What one of the threads may see: its own index, and any value of the other's since it last
      looked. */
  predicate Seen<T>(t: State<T>, pops: nat, pushes: nat) {
    || (pops == |t.popped| && t.tailSeen <= pushes <= |t.pushed|)
    || (pushes == |t.pushed| && t.headSeen <= pops <= |t.popped|)
  }

  /** In every run, either thread may count: with its own index and any value it may see of the
      other's, the result is the number of pushes less the number of pops it has seen. */
  lemma CountIsExact<T>(s: State<T>, capacity: nat, run: seq<Step<T>>, pops: nat, pushes: nat)
    requires Init(s, capacity) && Legal(s, run)
    ensures Seen(After(s, run), pops, pushes) ==>
      Count(pops % s.size, pushes % s.size, s.size) == pushes - pops && 0 <= pushes - pops <= capacity
  {
    hide Legal, After, Following;
    RunKeepsInv(s, run);
    if Seen(After(s, run), pops, pushes) {
      var n, h, d := s.size, pops % s.size, pushes - pops;
      AddMod(pops, d, n);
      if h + d < n {
        Small(h + d, n);
      } else {
        Wrap(h + d - n, n);
        Small(h + d - n, n);
      }
    }
  }
}
